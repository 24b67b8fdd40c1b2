/** Bit ranges of words (core_sim/src/bin.rs). Ranges are inclusive at both ends. */
module Bin {
  function BitRange(start: bv32, end: bv32): bv32
    requires start <= end <= 31
  {
    (if end != 31 then 1 << (end + 1) else 0) - (1 << start)
  }

  function Mask(bin: bv32, start: bv32, end: bv32): bv32
    requires start <= end <= 31
  {
    bin & BitRange(start, end)
  }

  function MaskLower(bin: bv32, index: bv32): bv32
    requires index <= 31
  {
    bin & ((if index != 31 then 1 << (index + 1) else 0) - 1)
  }

  function Extract(bin: bv32, start: bv32, end: bv32): bv32
    requires start <= end <= 31
  {
    Mask(bin, start, end) >> start
  }

  function At(bin: bv32, index: bv32): bv32
    requires index <= 31
  {
    (bin >> index) & 1
  }

  /** Fills the bits from `bit` up with ones when `sign` is set. */
  function SignExtend(bit: bv32, sign: bv32, imm: bv32): bv32
    requires bit <= 31
  {
    if sign != 0 then BitRange(bit, 31) | imm else imm
  }

  // ---- The same as plain shifts and masks ----

  /** The field at `pos` under `mask`. */
  function Cut(b: bv32, pos: bv32, mask: bv32): bv32
    requires pos <= 31
  {
    (b >> pos) & mask
  }

  /** `imm` with the bits of `ones` set if the sign is. */
  function Fill(sign: bv32, ones: bv32, imm: bv32): bv32 { if sign != 0 then ones | imm else imm }

  lemma Field25To30(bin: bv32)
    ensures Extract(bin, 25, 30) == Cut(bin, 25, 0x3F)
  {
  }

  lemma Fill12(sign: bv32, imm: bv32)
    ensures SignExtend(12, sign, imm) == Fill(sign, 0xFFFF_F000, imm)
  {
    assert BitRange(12, 31) == 0xFFFF_F000;
  }
}
