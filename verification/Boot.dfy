/** The state in which a CPU starts (Cpu::new in core_sim/src/cpu.rs). */
module Boot {
  import opened Types
  import opened Memory
  import opened Isa
  import opened Stages
  import RegFile
  import BV = BitVectors

  /** A length in words from the eight-byte header of the image. */
  function DataLen(image: seq<bv8>): nat
    requires |image| >= 8
  {
    FromLe(image[0..4]) as int
  }

  function TextLen(image: seq<bv8>): nat
    requires |image| >= 8
  {
    FromLe(image[4..8]) as int
  }

  /** A length in bytes; the 32-bit shift loses high bits. */
  function Bytes(len: nat): nat { len * 4 % 0x1_0000_0000 }

  function TextBegin(image: seq<bv8>): nat
    requires |image| >= 8
  {
    Bytes(DataLen(image))
  }

  function TextEnd(image: seq<bv8>): nat
    requires |image| >= 8
  {
    TextBegin(image) + Bytes(TextLen(image))
  }

  /** The images that load without a panic: header present, no overflow, contents fit. */
  predicate Bootable(image: seq<bv8>) {
    && 8 <= |image| <= 8 + RAM_BYTE_SIZE
    && DataLen(image) + TextLen(image) < 0x1_0000_0000
    && TextEnd(image) < 0x1_0000_0000
  }

  function StartRegs(image: seq<bv8>): seq<bv32>
    requires Bootable(image)
  {
    var heap, stack := BV.Bits(DataLen(image) + TextLen(image)), BV.Bits(RAM_WORDS - 1);
    seq(32, _ => 0)[4 := heap][2 := stack]
  }

  function StartFregs(): seq<bv32> { seq(32, _ => 0)[1 := RegFile.FONE] }

  function StartMem(image: seq<bv8>): Mem
    requires Bootable(image)
  {
    Mem(image[8..] + seq(RAM_BYTE_SIZE, _ => 0xCC)[|image| - 8..], seq(RAM_WORDS, _ => Unknown),
        TextBegin(image), TextEnd(image), NO_SPIES)
  }

  function StartArch(image: seq<bv8>, input: seq<bv32>, output: seq<bv8>): Arch
    requires Bootable(image)
  {
    Arch(BV.Bits(TextBegin(image)), StartRegs(image), StartFregs(), StartMem(image), input, output)
  }

  function Start(image: seq<bv8>, input: seq<bv32>, output: seq<bv8>): State
    requires Bootable(image)
  {
    State(StartArch(image, input, output), START_TIMING)
  }

  lemma StartMemWellFormed(image: seq<bv8>)
    requires Bootable(image)
    ensures WellFormed(StartMem(image))
  {
    hide DataLen, TextLen, Bytes;
    WholeWords(DataLen(image));
    WholeWords(TextLen(image));
    var m := StartMem(image);
    assert |m.bytes| == RAM_BYTE_SIZE;
    assert m.lo % 4 == 0;
    assert m.hi == m.lo + Bytes(TextLen(image));
  }

  lemma WholeWords(len: nat)
    ensures Bytes(len) % 4 == 0
  {
  }

  lemma StartValid(image: seq<bv8>, input: seq<bv32>, output: seq<bv8>)
    requires Bootable(image)
    ensures Valid(StartArch(image, input, output))
  {
    StartMemWellFormed(image);
  }

  /** Right after loading, a fetch inside the text reads the image. */
  lemma StartText(image: seq<bv8>, pc: nat)
    requires Bootable(image) && TextBegin(image) <= pc < TextEnd(image) && pc + 4 <= |image| - 8
    ensures Fetch(StartMem(image), pc) == Word(FromLe(image[8 + pc..12 + pc]))
  {
    assert StartMem(image).bytes[pc..pc + 4] == image[8 + pc..12 + pc];
  }

  /** The numbers a program finds right after loading: the stack register at the last word, the heap
      behind the image, 1.0 in f1, zeros elsewhere, and the program counter at the text. */
  lemma StartValues(image: seq<bv8>, input: seq<bv32>, output: seq<bv8>)
    requires Bootable(image)
    ensures var a := StartArch(image, input, output);
            && BV.Nat(a.regs[2]) == 249999
            && BV.Nat(a.regs[4]) == DataLen(image) + TextLen(image)
            && BV.Nat(a.fregs[1]) == 0x3F80_0000
            && (forall k :: 0 <= k < 32 && k != 2 && k != 4 ==> a.regs[k] == 0)
            && (forall k :: 0 <= k < 32 && k != 1 ==> a.fregs[k] == 0)
            && BV.Nat(a.pc) == 4 * DataLen(image) % 0x1_0000_0000
            && a.input == input && a.output == output
  {
    hide DataLen, TextLen, BV.Nat, BV.Bits, StartMem;
    BV.FromInt(DataLen(image) + TextLen(image));
    BV.FromInt(RAM_WORDS - 1);
    BV.FromInt(TextBegin(image));
    FloatOne();
  }

  /** The memory holds 1000000 bytes, and the text lies where the header says. */
  lemma StartLayout(image: seq<bv8>)
    requires Bootable(image)
    ensures var m := StartMem(image);
            && |m.bytes| == 1000000 && |m.types| == 250000
            && m.lo == 4 * DataLen(image) % 0x1_0000_0000 && m.hi == m.lo + 4 * TextLen(image) % 0x1_0000_0000
  {
    hide DataLen, TextLen;
  }

  lemma FloatOne()
    ensures BV.Nat(RegFile.FONE) == 0x3F80_0000
  {
  }

  /** The lengths in the header are little-endian numbers. */
  lemma HeaderLengths(image: seq<bv8>)
    requires |image| >= 8
    ensures DataLen(image) == LittleEndianNat(image[0..4]) && TextLen(image) == LittleEndianNat(image[4..8])
  {
    hide FromLe, LittleEndianNat, BV.Nat;
    LengthIs(image[0..4]);
    LengthIs(image[4..8]);
    FromLeMeaning(image[0..4]);
    FromLeMeaning(image[4..8]);
  }

  lemma LengthIs(s: seq<bv8>)
    requires |s| == 4
    ensures FromLe(s) as int == BV.Nat(FromLe(s))
  {
    hide FromLe;
  }
}
