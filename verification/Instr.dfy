/** Decoded instructions of the default instruction set (core_sim/src/instr.rs). Immediates are
    sign-extended. */
module Instr {
  /** Register numbers, integer or floating-point. */
  type RegId = x: bv32 | x < 32

  datatype RInstr = Add | Sub | Xor | Or | And | Sll | Sra | Slt
  datatype IInstr = Addi | Xori | Ori | Andi | Slli | Slti | Lw | Jalr
  datatype BInstr = Beq | Bne | Blt | Bge
  datatype EInstr = Fadd | Fsub | Fmul | Fdiv | Fsgnj | Fsgnjn | Fsgnjx
  datatype HInstr = Fsqrt | Fhalf | Ffloor
  datatype YInstr = Fftoi | Fiszero | Fispos | Fisneg
  datatype WInstr = Fblt | Fbge
  datatype VInstr = Fbeqz | Fbnez

  datatype IOInstr =
    | Outb(rs: RegId)
    | Inw(rd: RegId)
    | Finw(frd: RegId)

  /** Floating-point formats. The registers rd and rs1 are integer ones, frd, frs1 and frs2
      floating-point ones. */
  datatype FInstr =
    | E(e: EInstr, frd: RegId, frs1: RegId, frs2: RegId)
    | H(h: HInstr, frd: RegId, frs1: RegId)
    | Flt(rd: RegId, frs1: RegId, frs2: RegId)
    | Fitof(frd: RegId, rs1: RegId)
    | Y(y: YInstr, rd: RegId, frs1: RegId)
    | W(w: WInstr, frs1: RegId, frs2: RegId, imm: bv32)
    | V(v: VInstr, frs1: RegId, imm: bv32)
    | Flw(frd: RegId, rs1: RegId, imm: bv32)
    | Fsw(frs2: RegId, rs1: RegId, imm: bv32)

  datatype Instr =
    | R(r: RInstr, rd: RegId, rs1: RegId, rs2: RegId)
    | I(i: IInstr, rd: RegId, rs1: RegId, imm: bv32)
    | Sw(rs1: RegId, rs2: RegId, imm: bv32)
    | B(b: BInstr, rs1: RegId, rs2: RegId, imm: bv32)
    | Jal(rd: RegId, imm: bv32)
    | IO(io: IOInstr)
    | F(f: FInstr)
    | End

  /** Decoding fails with an error, or panics on a failed assertion. */
  datatype DecodeResult = Ok(instr: Instr) | Invalid | Panic
}
