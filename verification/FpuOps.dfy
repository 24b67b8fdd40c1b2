/** The floating-point unit as the CPU sees it, on 32-bit registers: the emulated operations of
    fpu/impl, and the host's for the rest (core_sim/src/fpu_wrapper.rs, core_sim/src/cpu.rs). */
module FpuOps {
  import opened BitVectors
  import FpuLib
  import Floats
  import FMul
  import Convert
  import FFloor

  /** Operations left to the host's floating point, uninterpreted: additions, the two emulated
      operations that end in host arithmetic, the sign of a product of signs, and the narrowing
      inside ffloor. */
  datatype Host = Host(
    fadd: (bv32, bv32) -> bv32,
    fsub: (bv32, bv32) -> bv32,
    fdiv: (bv32, bv32) -> bv32,
    fsqrt: bv32 -> bv32,
    fsgnjx: (bv32, bv32) -> bv32,
    narrow: int -> FpuLib.Word)


  function Multiply(x: bv32, y: bv32): bv32 { Bits(FMul.FMul(Nat(x), Nat(y))) }

  /** `fhalf`: a multiplication by 0.5. */
  function Halve(x: bv32): bv32 { Multiply(x, 0x3F00_0000) }
  function Floor(host: Host, x: bv32): bv32 { Bits(FFloor.FFloor(Nat(x), host.narrow)) }
  function FromInteger(x: bv32): bv32 { Bits(Convert.FCvtSW(Convert.Signed(Nat(x)))) }

  function ToInteger(x: bv32): bv32 {
    var n: int := Convert.FCvtWS(Nat(x));
    Bits(if n < 0 then n + FpuLib.TWO32 else n)
  }

  predicate FloatLess(x: bv32, y: bv32) { Floats.FLess(Nat(x), Nat(y)) }
  predicate FloatGreaterEq(x: bv32, y: bv32) { Floats.FGreaterEq(Nat(x), Nat(y)) }
  predicate IsZero(x: bv32) { x & 0x7FFF_FFFF == 0 }

  /** `copysign`. */
  function CopySign(x: bv32, y: bv32): bv32 { (x & 0x7FFF_FFFF) | (y & 0x8000_0000) }
  function Negate(x: bv32): bv32 { x ^ 0x8000_0000 }
}
