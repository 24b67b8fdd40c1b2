/** Instructions of the second instruction set (core_sim/src/instr.rs, feature isa_2nd): 64 registers,
    compare-with-immediate branches and fused multiply-add. Immediates are sign-extended. */
module Instr2nd {
  type RegId = x: bv32 | x < 64

  datatype RInstr = Add | Xor | Min | Max
  datatype IInstr = Addi | Xori | Slli | Lw | Jalr
  datatype BInstr = Beq | Bne | Blt | Bge | Bxor | Bxnor
  datatype PInstr = Beqi | Bnei | Blti | Bgei | Bgti | Blei
  datatype EInstr = Fadd | Fsub | Fmul | Fdiv | Fsgnj | Fsgnjn | Fsgnjx
  datatype GInstr = Fmadd | Fmsub | Fnmadd | Fnmsub
  datatype HInstr = Fsqrt | Fhalf | Ffloor | Ffrac | Finv
  datatype YInstr = Fftoi | Fiszero | Fispos | Fisneg
  datatype WInstr = Fblt | Fbge
  datatype VInstr = Fbeqz | Fbnez

  datatype IOInstr = Outb(rs: RegId) | Inw(rd: RegId) | Finw(frd: RegId)

  datatype FInstr =
    | E(e: EInstr, frd: RegId, frs1: RegId, frs2: RegId)
    | G(g: GInstr, frd: RegId, frs1: RegId, frs2: RegId, frs3: RegId)
    | H(h: HInstr, frd: RegId, frs1: RegId)
    | Flt(rd: RegId, frs1: RegId, frs2: RegId)
    | Fitof(frd: RegId, rs1: RegId)
    | Y(y: YInstr, rd: RegId, frs1: RegId)
    | W(w: WInstr, frs1: RegId, frs2: RegId, imm: bv32)
    | V(v: VInstr, frs1: RegId, imm: bv32)
    | Flw(frd: RegId, rs1: RegId, imm: bv32)
    | Fsw(rs1: RegId, frs2: RegId, imm: bv32)

  datatype Instr =
    | R(r: RInstr, rd: RegId, rs1: RegId, rs2: RegId)
    | I(i: IInstr, rd: RegId, rs1: RegId, imm: bv32)
    | Sw(rs1: RegId, rs2: RegId, imm: bv32)
    | B(b: BInstr, rs1: RegId, rs2: RegId, imm: bv32)
    | P(p: PInstr, rs1: RegId, imm: bv32, imm2: bv32)
    | Jal(rd: RegId, imm: bv32)
    | IO(io: IOInstr)
    | F(f: FInstr)
    | End
}

/** Decoding of the second instruction set (core_sim/src/decode_instr_2nd.rs). Every format has the
    same seven fields; the immediates are spread over the ones it does not use otherwise. */
module Decode2nd {
  import opened Wrappers
  import opened Bin
  import opened Instr2nd

  // ---- The decoder ----

  function Compose3(sign: bv32, imm11To6: bv32, imm5To0: bv32): bv32 {
    SignExtend(12, sign, Join3(imm11To6, imm5To0))
  }

  function Compose4(sign: bv32, imm11To6: bv32, mixed: bv32): bv32 {
    SignExtend(14, sign, Join4(Mask(mixed, 0, 1), imm11To6, Mask(mixed, 2, 5)))
  }

  function Compose6(sign: bv32, imm11To6: bv32, mixed: bv32, imm22To17: bv32, imm16To14: bv32): bv32 {
    SignExtend(23, sign, Join6(imm22To17, imm16To14, Mask(mixed, 0, 1), imm11To6, Mask(mixed, 2, 5)))
  }

  function Join3(imm11To6: bv32, imm5To0: bv32): bv32 { (imm11To6 << 6) | imm5To0 }
  function Join4(imm13To12: bv32, imm11To6: bv32, low: bv32): bv32 { (imm13To12 << 12) | (imm11To6 << 6) | low }
  function Join6(imm22To17: bv32, imm16To14: bv32, imm13To12: bv32, imm11To6: bv32, low: bv32): bv32 {
    (imm22To17 << 17) | (imm16To14 << 14) | (imm13To12 << 12) | (imm11To6 << 6) | low
  }

  function Compose1(rs2: bv32): bv32 { SignExtend(5, At(rs2, 5), rs2) }

  datatype Fields = Fields(opcode: bv32, rd: RegId, funct3: bv32, rs1: RegId, rs2: RegId, high: RegId, sign: bv32)

  function Split(bin: bv32): Fields {
    RegFields(bin);
    Fields(MaskLower(bin, 3), Extract(bin, 4, 9), Extract(bin, 10, 12), Extract(bin, 13, 18), Extract(bin, 19, 24),
           Extract(bin, 25, 30), At(bin, 31))
  }

  function Funct5(bin: bv32): int { (Extract(bin, 25, 31) >> 2) as int }

  function ROp(funct3: int): Option<RInstr> {
    if funct3 == 0 then Some(Add) else if funct3 == 4 then Some(Xor)
    else if funct3 == 1 then Some(Min) else if funct3 == 3 then Some(Max) else None
  }

  function IOp(funct3: int): Option<IInstr> {
    if funct3 == 0 then Some(Addi) else if funct3 == 4 then Some(Xori) else if funct3 == 2 then Some(Slli) else None
  }

  function BOp(funct3: int): Option<BInstr> {
    if funct3 == 0 then Some(Beq) else if funct3 == 1 then Some(Bne) else if funct3 == 4 then Some(Blt)
    else if funct3 == 5 then Some(Bge) else if funct3 == 2 then Some(Bxor) else if funct3 == 3 then Some(Bxnor) else None
  }

  function POp(funct3: int): Option<PInstr> {
    if funct3 == 0 then Some(Beqi) else if funct3 == 1 then Some(Bnei) else if funct3 == 4 then Some(Blti)
    else if funct3 == 5 then Some(Bgei) else if funct3 == 6 then Some(Bgti) else if funct3 == 7 then Some(Blei) else None
  }

  function EOp(funct5: int): Option<EInstr> {
    if funct5 == 0 then Some(Fadd) else if funct5 == 1 then Some(Fsub) else if funct5 == 2 then Some(Fmul)
    else if funct5 == 3 then Some(Fdiv) else if funct5 == 6 then Some(Fsgnj) else if funct5 == 7 then Some(Fsgnjn)
    else if funct5 == 8 then Some(Fsgnjx) else None
  }

  function HOp(funct5: int): Option<HInstr> {
    if funct5 == 4 then Some(Fsqrt) else if funct5 == 5 then Some(Fhalf) else if funct5 == 12 then Some(Ffrac)
    else if funct5 == 11 then Some(Finv) else if funct5 == 9 then Some(Ffloor) else None
  }

  function GOp(funct3: int): Option<GInstr> {
    if funct3 == 1 then Some(Fmadd) else if funct3 == 2 then Some(Fmsub)
    else if funct3 == 5 then Some(Fnmadd) else if funct3 == 6 then Some(Fnmsub) else None
  }

  function YOp(funct3: int): Option<YInstr> {
    if funct3 == 4 then Some(Fiszero) else if funct3 == 5 then Some(Fispos) else if funct3 == 6 then Some(Fisneg) else None
  }

  /** Opcodes of integer instructions. */
  function DecodeInt(f: Fields, opcode: int, funct3: int): Option<Instr> {
    if opcode == 0 then
      if ROp(funct3).Some? then Some(R(ROp(funct3).value, f.rd, f.rs1, f.rs2)) else None
    else if opcode == 2 then
      if IOp(funct3).Some? then Some(I(IOp(funct3).value, f.rd, f.rs1, Compose3(f.sign, f.high, f.rs2))) else None
    else if opcode == 6 then Some(I(Lw, f.rd, f.rs1, Compose3(f.sign, f.high, f.rs2)))
    else if opcode == 10 then
      if funct3 == 0 then Some(I(Jalr, f.rd, f.rs1, Compose3(f.sign, f.high, f.rs2))) else None
    else if opcode == 4 then Some(Sw(f.rs1, f.rs2, Compose3(f.sign, f.high, f.rd)))
    else if opcode == 8 then
      if BOp(funct3).Some? then Some(B(BOp(funct3).value, f.rs1, f.rs2, Compose4(f.sign, f.high, f.rd))) else None
    else if opcode == 12 then
      if POp(funct3).Some? then Some(P(POp(funct3).value, f.rs1, Compose4(f.sign, f.high, f.rd), Compose1(f.rs2))) else None
    else if opcode == 14 then Some(Jal(f.rd, Compose6(f.sign, f.high, f.rs2, f.rs1, f.funct3)))
    else None
  }

  function DecodeArith(f: Fields, funct5: int): Option<FInstr> {
    if EOp(funct5).Some? then Some(E(EOp(funct5).value, f.rd, f.rs1, f.rs2))
    else if HOp(funct5).Some? then Some(H(HOp(funct5).value, f.rd, f.rs1))
    else if funct5 == 17 then Some(Y(Fftoi, f.rd, f.rs1))
    else if funct5 == 25 then Some(Fitof(f.rd, f.rs1))
    else None
  }

  function DecodeFused(f: Fields, funct3: int): Option<FInstr> {
    if f.sign == 0 then
      if GOp(funct3).Some? then Some(G(GOp(funct3).value, f.rd, f.rs1, f.rs2, f.high)) else None
    else if funct3 == 1 then Some(Flt(f.rd, f.rs1, f.rs2))
    else if YOp(funct3).Some? then Some(Y(YOp(funct3).value, f.rd, f.rs1))
    else None
  }

  function DecodeVW(f: Fields, funct3: int): Option<FInstr> {
    var imm := Compose4(f.sign, f.high, f.rd);
    if funct3 == 1 || funct3 == 2 then Some(W(if funct3 == 1 then Fblt else Fbge, f.rs1, f.rs2, imm))
    else if funct3 == 4 || funct3 == 7 then Some(V(if funct3 == 4 then Fbeqz else Fbnez, f.rs1, imm))
    else None
  }

  /** Opcodes of floating-point instructions. */
  function DecodeFloat(f: Fields, opcode: int, funct3: int, funct5: int): Option<FInstr> {
    if opcode == 1 then if funct3 == 0 then DecodeArith(f, funct5) else DecodeFused(f, funct3)
    else if opcode == 9 then DecodeVW(f, funct3)
    else if opcode == 7 then Some(Flw(f.rd, f.rs1, Compose3(f.sign, f.high, f.rs2)))
    else if opcode == 5 then Some(Fsw(f.rs1, f.rs2, Compose3(f.sign, f.high, f.rd)))
    else None
  }

  function DecodeIO(f: Fields, funct3: int): Option<IOInstr> {
    if funct3 == 1 then Some(Inw(f.rd)) else if funct3 == 2 then Some(Outb(f.rs1))
    else if funct3 == 4 then Some(Finw(f.rd)) else None
  }

  function Interpret(f: Fields, opcode: int, funct3: int, funct5: int): Option<Instr> {
    if opcode == 3 then var io := DecodeIO(f, funct3); if io.Some? then Some(IO(io.value)) else None
    else if opcode % 2 == 1 then
      var x := DecodeFloat(f, opcode, funct3, funct5);
      if x.Some? then Some(F(x.value)) else None
    else DecodeInt(f, opcode, funct3)
  }

  const END_WORD: bv32 := 0x8000_0000

  function Decode(bin: bv32): Option<Instr> {
    if bin == END_WORD then Some(End)
    else var f := Split(bin); Interpret(f, f.opcode as int, f.funct3 as int, Funct5(bin))
  }

  // ---- The encoder ----

  predicate Signed6(imm: bv32) { imm < 0x20 || imm >= 0xFFFF_FFE0 }
  predicate Signed13(imm: bv32) { imm < 0x1000 || imm >= 0xFFFF_F000 }
  predicate Signed15(imm: bv32) { (imm < 0x4000 || imm >= 0xFFFF_C000) && imm & 3 == 0 }
  predicate Signed24(imm: bv32) { (imm < 0x80_0000 || imm >= 0xFF80_0000) && imm & 3 == 0 }

  predicate EncodableF(f: FInstr) {
    match f
    case W(_, _, _, imm) => Signed15(imm)
    case V(_, _, imm) => Signed15(imm)
    case Flw(_, _, imm) => Signed13(imm)
    case Fsw(_, _, imm) => Signed13(imm)
    case _ => true
  }

  /** Offsets of branches and jumps are multiples of four. */
  predicate Encodable(i: Instr) {
    match i
    case I(_, _, _, imm) => Signed13(imm)
    case Sw(_, _, imm) => Signed13(imm)
    case B(_, _, _, imm) => Signed15(imm)
    case P(_, _, imm, imm2) => Signed15(imm) && Signed6(imm2)
    case Jal(_, imm) => Signed24(imm)
    case F(f) => EncodableF(f)
    case _ => true
  }

  function Low6(imm: bv32): (r: RegId) { LowSmall(imm); Cut(imm, 0, 0x3F) }
  function High6(imm: bv32): (r: RegId) { LowSmall(imm); Cut(imm, 6, 0x3F) }
  /** Bits 5 to 2, then bits 13 and 12. */
  function Mixed6(imm: bv32): (r: RegId) { LowSmall(imm); Cut(imm, 0, 0x3C) | Cut(imm, 12, 3) }
  function Top6(imm: bv32): (r: RegId) { LowSmall(imm); Cut(imm, 17, 0x3F) }

  lemma LowSmall(imm: bv32)
    ensures Cut(imm, 0, 0x3F) < 64 && Cut(imm, 6, 0x3F) < 64 && Cut(imm, 17, 0x3F) < 64
    ensures Cut(imm, 0, 0x3C) | Cut(imm, 12, 3) < 64
  {
  }

  function Pack(sign: bv32, high: bv32, rs2: bv32, rs1: bv32, funct3: bv32, rd: bv32, opcode: bv32): bv32 {
    (sign << 31) | (high << 25) | (rs2 << 19) | (rs1 << 13) | (funct3 << 10) | (rd << 4) | opcode
  }

  function RFunct3(op: RInstr): bv32 { match op case Add => 0 case Xor => 4 case Min => 1 case Max => 3 }
  function IFunct3(op: IInstr): bv32 { match op case Addi => 0 case Xori => 4 case Slli => 2 case Lw => 0 case Jalr => 0 }
  function IOpcode(op: IInstr): bv32 { if op == Lw then 6 else if op == Jalr then 10 else 2 }
  function BFunct3(op: BInstr): bv32 { match op case Beq => 0 case Bne => 1 case Blt => 4 case Bge => 5 case Bxor => 2 case Bxnor => 3 }
  function PFunct3(op: PInstr): bv32 { match op case Beqi => 0 case Bnei => 1 case Blti => 4 case Bgei => 5 case Bgti => 6 case Blei => 7 }
  function GFunct3(op: GInstr): bv32 { match op case Fmadd => 1 case Fmsub => 2 case Fnmadd => 5 case Fnmsub => 6 }
  function YFunct3(op: YInstr): bv32 { match op case Fftoi => 0 case Fiszero => 4 case Fispos => 5 case Fisneg => 6 }

  /** The five-bit code, shifted past the two unused bits below it. */
  function EHigh(op: EInstr): RegId {
    match op case Fadd => 0 case Fsub => 4 case Fmul => 8 case Fdiv => 12 case Fsgnj => 24 case Fsgnjn => 28 case Fsgnjx => 32
  }
  function HHigh(op: HInstr): RegId {
    match op case Fsqrt => 16 case Fhalf => 20 case Ffrac => 48 case Finv => 44 case Ffloor => 36
  }

  function EncodeF(f: FInstr): bv32
    requires EncodableF(f)
  {
    match f
    case E(op, rd, rs1, rs2) => Pack(0, EHigh(op), rs2, rs1, 0, rd, 1)
    case H(op, rd, rs1) => Pack(0, HHigh(op), 0, rs1, 0, rd, 1)
    case Fitof(rd, rs1) => Pack(1, 36, 0, rs1, 0, rd, 1)
    case G(op, rd, rs1, rs2, rs3) => Pack(0, rs3, rs2, rs1, GFunct3(op), rd, 1)
    case Flt(rd, rs1, rs2) => Pack(1, 0, rs2, rs1, 1, rd, 1)
    case Y(op, rd, rs1) => Pack(1, if op == Fftoi then 4 else 0, 0, rs1, YFunct3(op), rd, 1)
    case W(op, rs1, rs2, imm) => Pack(Cut(imm, 14, 1), High6(imm), rs2, rs1, if op == Fblt then 1 else 2, Mixed6(imm), 9)
    case V(op, rs1, imm) => Pack(Cut(imm, 14, 1), High6(imm), 0, rs1, if op == Fbeqz then 4 else 7, Mixed6(imm), 9)
    case Flw(rd, rs1, imm) => Pack(Cut(imm, 12, 1), High6(imm), Low6(imm), rs1, 0, rd, 7)
    case Fsw(rs1, rs2, imm) => Pack(Cut(imm, 12, 1), High6(imm), rs2, rs1, 0, Low6(imm), 5)
  }

  function Encode(i: Instr): bv32
    requires Encodable(i)
  {
    match i
    case R(op, rd, rs1, rs2) => Pack(0, 0, rs2, rs1, RFunct3(op), rd, 0)
    case I(op, rd, rs1, imm) => Pack(Cut(imm, 12, 1), High6(imm), Low6(imm), rs1, IFunct3(op), rd, IOpcode(op))
    case Sw(rs1, rs2, imm) => Pack(Cut(imm, 12, 1), High6(imm), rs2, rs1, 0, Low6(imm), 4)
    case B(op, rs1, rs2, imm) => Pack(Cut(imm, 14, 1), High6(imm), rs2, rs1, BFunct3(op), Mixed6(imm), 8)
    case P(op, rs1, imm, imm2) => Pack(Cut(imm, 14, 1), High6(imm), Low6(imm2), rs1, PFunct3(op), Mixed6(imm), 12)
    case Jal(rd, imm) => Pack(Cut(imm, 23, 1), High6(imm), Mixed6(imm), Top6(imm), Cut(imm, 14, 7), rd, 14)
    case IO(Inw(rd)) => Pack(0, 0, 0, 0, 1, rd, 3)
    case IO(Outb(rs)) => Pack(0, 0, 0, rs, 2, 0, 3)
    case IO(Finw(rd)) => Pack(0, 0, 0, 0, 4, rd, 3)
    case F(f) => EncodeF(f)
    case End => END_WORD
  }

  // ---- Fields of a word ----

  lemma Field4To9(bin: bv32)
    ensures Extract(bin, 4, 9) == Cut(bin, 4, 0x3F)
  {
  }

  lemma Field10To12(bin: bv32)
    ensures Extract(bin, 10, 12) == Cut(bin, 10, 0x7)
  {
  }

  lemma Field13To18(bin: bv32)
    ensures Extract(bin, 13, 18) == Cut(bin, 13, 0x3F)
  {
  }

  lemma Field19To24(bin: bv32)
    ensures Extract(bin, 19, 24) == Cut(bin, 19, 0x3F)
  {
  }

  lemma FieldFunct5(bin: bv32)
    ensures Extract(bin, 25, 31) >> 2 == Cut(bin, 27, 0x1F)
  {
  }

  lemma FieldEnds(bin: bv32)
    ensures MaskLower(bin, 3) == Cut(bin, 0, 0xF) && At(bin, 31) == Cut(bin, 31, 1)
  {
  }

  lemma CutSmall(bin: bv32)
    ensures Cut(bin, 4, 0x3F) < 64 && Cut(bin, 13, 0x3F) < 64 && Cut(bin, 19, 0x3F) < 64 && Cut(bin, 25, 0x3F) < 64
    ensures Cut(bin, 10, 7) < 8 && Cut(bin, 31, 1) < 2
  {
  }

  lemma RegFields(bin: bv32)
    ensures Extract(bin, 4, 9) < 64 && Extract(bin, 13, 18) < 64 && Extract(bin, 19, 24) < 64 && Extract(bin, 25, 30) < 64
  {
    hide Extract, Cut;
    Field4To9(bin);
    Field13To18(bin);
    Field19To24(bin);
    Field25To30(bin);
    CutSmall(bin);
  }

  lemma SplitIs(b: bv32)
    ensures var f := Split(b);
            && f.opcode == Cut(b, 0, 0xF) && f.rd == Cut(b, 4, 0x3F) && f.funct3 == Cut(b, 10, 0x7) && f.rs1 == Cut(b, 13, 0x3F)
            && f.rs2 == Cut(b, 19, 0x3F) && f.high == Cut(b, 25, 0x3F) && f.sign == Cut(b, 31, 1)
    ensures Funct5(b) == Cut(b, 27, 0x1F) as int
    ensures Split(b).funct3 < 8 && Split(b).sign < 2
  {
    hide Extract, MaskLower, At, Cut;
    FieldEnds(b);
    Field4To9(b);
    Field10To12(b);
    Field13To18(b);
    Field19To24(b);
    Field25To30(b);
    FieldFunct5(b);
    CutSmall(b);
  }

  // ---- Decoding inverts the encoder ----

  lemma PackLow(sign: bv32, high: RegId, rs2: RegId, rs1: RegId, funct3: bv32, rd: RegId, opcode: bv32)
    requires sign < 2 && funct3 < 8 && opcode < 16
    ensures var b := Pack(sign, high, rs2, rs1, funct3, rd, opcode);
            Cut(b, 0, 0xF) == opcode && Cut(b, 4, 0x3F) == rd && Cut(b, 10, 7) == funct3
  {
  }

  lemma PackRegs(sign: bv32, high: RegId, rs2: RegId, rs1: RegId, funct3: bv32, rd: RegId, opcode: bv32)
    requires sign < 2 && funct3 < 8 && opcode < 16
    ensures var b := Pack(sign, high, rs2, rs1, funct3, rd, opcode);
            Cut(b, 13, 0x3F) == rs1 && Cut(b, 19, 0x3F) == rs2
  {
  }

  lemma PackHigh(sign: bv32, high: RegId, rs2: RegId, rs1: RegId, funct3: bv32, rd: RegId, opcode: bv32)
    requires sign < 2 && funct3 < 8 && opcode < 16
    ensures var b := Pack(sign, high, rs2, rs1, funct3, rd, opcode);
            Cut(b, 25, 0x3F) == high && Cut(b, 31, 1) == sign && Cut(b, 27, 0x1F) == (sign << 4) | (high >> 2)
  {
  }

  lemma NotEnd(sign: bv32, high: RegId, rs2: RegId, rs1: RegId, funct3: bv32, rd: RegId, opcode: bv32)
    requires sign < 2 && funct3 < 8 && opcode < 16 && (opcode != 0 || sign == 0)
    ensures Pack(sign, high, rs2, rs1, funct3, rd, opcode) != END_WORD
  {
  }

  /** Decoding a packed word interprets the fields that were packed. */
  lemma Unpack(sign: bv32, high: RegId, rs2: RegId, rs1: RegId, funct3: bv32, rd: RegId, opcode: bv32)
    requires sign < 2 && funct3 < 8 && opcode < 16 && (opcode != 0 || sign == 0)
    ensures Decode(Pack(sign, high, rs2, rs1, funct3, rd, opcode)) ==
            Interpret(Fields(opcode, rd, funct3, rs1, rs2, high, sign), opcode as int, funct3 as int, ((sign << 4) | (high >> 2)) as int)
  {
    hide Pack, Cut, Split, Interpret, Funct5;
    PackLow(sign, high, rs2, rs1, funct3, rd, opcode);
    PackRegs(sign, high, rs2, rs1, funct3, rd, opcode);
    PackHigh(sign, high, rs2, rs1, funct3, rd, opcode);
    NotEnd(sign, high, rs2, rs1, funct3, rd, opcode);
    SplitIs(Pack(sign, high, rs2, rs1, funct3, rd, opcode));
  }

  lemma Joined13(imm: bv32)
    ensures Join3(Cut(imm, 6, 0x3F), Cut(imm, 0, 0x3F)) == imm & 0xFFF
  {
  }

  lemma Positive13(imm: bv32)
    requires imm < 0x1000
    ensures Cut(imm, 12, 1) == 0 && imm & 0xFFF == imm
  {
  }

  lemma Negative13(imm: bv32)
    requires imm >= 0xFFFF_F000
    ensures Cut(imm, 12, 1) == 1 && 0xFFFF_F000 | (imm & 0xFFF) == imm
  {
  }

  lemma Imm13(imm: bv32)
    requires Signed13(imm)
    ensures Cut(imm, 12, 1) < 2 && Compose3(Cut(imm, 12, 1), High6(imm), Low6(imm)) == imm
  {
    hide Cut, SignExtend, Join3;
    if imm < 0x1000 { Positive13(imm); } else { Negative13(imm); }
    Joined13(imm);
    Fill12(Cut(imm, 12, 1), imm & 0xFFF);
  }

  lemma MixedParts(imm: bv32)
    ensures Mask(Mixed6(imm), 0, 1) == Cut(imm, 12, 3) && Mask(Mixed6(imm), 2, 5) == Cut(imm, 0, 0x3C)
  {
  }

  lemma Fill14(sign: bv32, imm: bv32)
    ensures SignExtend(14, sign, imm) == Fill(sign, 0xFFFF_C000, imm)
  {
    assert BitRange(14, 31) == 0xFFFF_C000;
  }

  lemma Joined15(imm: bv32)
    ensures Join4(Cut(imm, 12, 3), Cut(imm, 6, 0x3F), Cut(imm, 0, 0x3C)) == imm & 0x3FFC
  {
  }

  lemma Positive15(imm: bv32)
    requires imm < 0x4000 && imm & 3 == 0
    ensures Cut(imm, 14, 1) == 0 && imm & 0x3FFC == imm
  {
  }

  lemma Negative15(imm: bv32)
    requires imm >= 0xFFFF_C000 && imm & 3 == 0
    ensures Cut(imm, 14, 1) == 1 && 0xFFFF_C000 | (imm & 0x3FFC) == imm
  {
  }

  lemma Imm15(imm: bv32)
    requires Signed15(imm)
    ensures Cut(imm, 14, 1) < 2 && Compose4(Cut(imm, 14, 1), High6(imm), Mixed6(imm)) == imm
  {
    hide Cut, SignExtend, Join4, Mask, Mixed6;
    if imm < 0x4000 { Positive15(imm); } else { Negative15(imm); }
    Joined15(imm);
    MixedParts(imm);
    Fill14(Cut(imm, 14, 1), imm & 0x3FFC);
  }

  lemma Fill23(sign: bv32, imm: bv32)
    ensures SignExtend(23, sign, imm) == Fill(sign, 0xFF80_0000, imm)
  {
    assert BitRange(23, 31) == 0xFF80_0000;
  }

  lemma Joined24(imm: bv32)
    ensures Join6(Cut(imm, 17, 0x3F), Cut(imm, 14, 7), Cut(imm, 12, 3), Cut(imm, 6, 0x3F), Cut(imm, 0, 0x3C)) == imm & 0x7F_FFFC
  {
  }

  lemma Positive24(imm: bv32)
    requires imm < 0x80_0000 && imm & 3 == 0
    ensures Cut(imm, 23, 1) == 0 && imm & 0x7F_FFFC == imm
  {
  }

  lemma Negative24(imm: bv32)
    requires imm >= 0xFF80_0000 && imm & 3 == 0
    ensures Cut(imm, 23, 1) == 1 && 0xFF80_0000 | (imm & 0x7F_FFFC) == imm
  {
  }

  lemma Imm24(imm: bv32)
    requires Signed24(imm)
    ensures Cut(imm, 23, 1) < 2 && Compose6(Cut(imm, 23, 1), High6(imm), Mixed6(imm), Top6(imm), Cut(imm, 14, 7)) == imm
  {
    hide Cut, SignExtend, Join6, Mask, Mixed6;
    if imm < 0x80_0000 { Positive24(imm); } else { Negative24(imm); }
    Joined24(imm);
    MixedParts(imm);
    Fill23(Cut(imm, 23, 1), imm & 0x7F_FFFC);
  }

  lemma Imm6(imm: bv32)
    requires Signed6(imm)
    ensures Compose1(Low6(imm)) == imm
  {
    assert BitRange(5, 31) == 0xFFFF_FFE0;
  }

  /** The decoder's code tables undo the encoder's. */
  lemma CodesInvert(r: RInstr, i: IInstr, b: BInstr, p: PInstr)
    ensures RFunct3(r) < 8 && ROp(RFunct3(r) as int) == Some(r)
    ensures IFunct3(i) < 8 && (i != Lw && i != Jalr ==> IOp(IFunct3(i) as int) == Some(i))
    ensures BFunct3(b) < 8 && BOp(BFunct3(b) as int) == Some(b)
    ensures PFunct3(p) < 8 && POp(PFunct3(p) as int) == Some(p)
  {
  }

  lemma FloatCodesInvert(e: EInstr, g: GInstr, h: HInstr, y: YInstr)
    ensures EOp((EHigh(e) >> 2) as int) == Some(e)
    ensures EOp((HHigh(h) >> 2) as int) == None && HOp((HHigh(h) >> 2) as int) == Some(h)
    ensures 0 < GFunct3(g) < 8 && GOp(GFunct3(g) as int) == Some(g)
    ensures YFunct3(y) < 8 && (y != Fftoi ==> YFunct3(y) as int !in {0, 1} && YOp(YFunct3(y) as int) == Some(y))
  {
  }

  lemma Unsigned(high: RegId)
    ensures (0 << 4) | (high >> 2) == high >> 2
  {
  }

  lemma TripR(op: RInstr, rd: RegId, rs1: RegId, rs2: RegId)
    ensures Decode(Pack(0, 0, rs2, rs1, RFunct3(op), rd, 0)) == Some(R(op, rd, rs1, rs2))
  {
    hide Decode, Pack, ROp, RFunct3;
    CodesInvert(op, Addi, Beq, Beqi);
    Unpack(0, 0, rs2, rs1, RFunct3(op), rd, 0);
  }

  lemma TripI(op: IInstr, rd: RegId, rs1: RegId, imm: bv32)
    requires Signed13(imm)
    ensures Decode(Encode(I(op, rd, rs1, imm))) == Some(I(op, rd, rs1, imm))
  {
    hide Decode, Pack, Compose3, Cut, High6, Low6, Signed13, IOp, IFunct3;
    CodesInvert(Add, op, Beq, Beqi);
    Imm13(imm);
    JalrCode();
    Unpack(Cut(imm, 12, 1), High6(imm), Low6(imm), rs1, IFunct3(op), rd, IOpcode(op));
  }

  lemma JalrCode()
    ensures IFunct3(Jalr) == 0
  {
  }

  lemma TripStore(rs1: RegId, rs2: RegId, imm: bv32)
    requires Signed13(imm)
    ensures Decode(Encode(Sw(rs1, rs2, imm))) == Some(Sw(rs1, rs2, imm))
    ensures Decode(EncodeF(Fsw(rs1, rs2, imm))) == Some(F(Fsw(rs1, rs2, imm)))
  {
    hide Decode, Pack, Compose3, Cut, High6, Low6, Signed13, DecodeArith, DecodeFused, DecodeVW, DecodeIO;
    Imm13(imm);
    Unpack(Cut(imm, 12, 1), High6(imm), rs2, rs1, 0, Low6(imm), 4);
    Unpack(Cut(imm, 12, 1), High6(imm), rs2, rs1, 0, Low6(imm), 5);
  }

  lemma TripFlw(rd: RegId, rs1: RegId, imm: bv32)
    requires Signed13(imm)
    ensures Decode(EncodeF(Flw(rd, rs1, imm))) == Some(F(Flw(rd, rs1, imm)))
  {
    hide Decode, Pack, Compose3, Cut, High6, Low6, Signed13, DecodeArith, DecodeFused, DecodeVW, DecodeIO;
    Imm13(imm);
    Unpack(Cut(imm, 12, 1), High6(imm), Low6(imm), rs1, 0, rd, 7);
  }

  lemma TripB(op: BInstr, rs1: RegId, rs2: RegId, imm: bv32)
    requires Signed15(imm)
    ensures Decode(Encode(B(op, rs1, rs2, imm))) == Some(B(op, rs1, rs2, imm))
  {
    hide Decode, Pack, Compose4, Cut, High6, Mixed6, Signed15, BOp, BFunct3;
    CodesInvert(Add, Addi, op, Beqi);
    Imm15(imm);
    Unpack(Cut(imm, 14, 1), High6(imm), rs2, rs1, BFunct3(op), Mixed6(imm), 8);
  }

  lemma TripP(op: PInstr, rs1: RegId, imm: bv32, imm2: bv32)
    requires Signed15(imm) && Signed6(imm2)
    ensures Decode(Encode(P(op, rs1, imm, imm2))) == Some(P(op, rs1, imm, imm2))
  {
    hide Decode, Pack, Compose4, Compose1, Cut, High6, Low6, Mixed6, Signed15, Signed6, POp, PFunct3;
    CodesInvert(Add, Addi, Beq, op);
    Imm15(imm);
    Imm6(imm2);
    Unpack(Cut(imm, 14, 1), High6(imm), Low6(imm2), rs1, PFunct3(op), Mixed6(imm), 12);
  }

  lemma TripJal(rd: RegId, imm: bv32)
    requires Signed24(imm)
    ensures Decode(Encode(Jal(rd, imm))) == Some(Jal(rd, imm))
  {
    hide Decode, Pack, Compose6, Cut, High6, Mixed6, Top6, Signed24;
    Imm24(imm);
    assert Cut(imm, 14, 7) < 8 by { Cut14(imm); }
    Unpack(Cut(imm, 23, 1), High6(imm), Mixed6(imm), Top6(imm), Cut(imm, 14, 7), rd, 14);
  }

  lemma Cut14(imm: bv32)
    ensures Cut(imm, 14, 7) < 8
  {
  }

  lemma TripIO(r: RegId)
    ensures Decode(Pack(0, 0, 0, 0, 1, r, 3)) == Some(IO(Inw(r)))
    ensures Decode(Pack(0, 0, 0, r, 2, 0, 3)) == Some(IO(Outb(r)))
    ensures Decode(Pack(0, 0, 0, 0, 4, r, 3)) == Some(IO(Finw(r)))
  {
    hide Decode, Pack, DecodeInt, DecodeFloat;
    Unpack(0, 0, 0, 0, 1, r, 3);
    Unpack(0, 0, 0, r, 2, 0, 3);
    Unpack(0, 0, 0, 0, 4, r, 3);
  }

  lemma TripEH(e: EInstr, h: HInstr, rd: RegId, rs1: RegId, rs2: RegId)
    ensures Decode(EncodeF(E(e, rd, rs1, rs2))) == Some(F(E(e, rd, rs1, rs2)))
    ensures Decode(EncodeF(H(h, rd, rs1))) == Some(F(H(h, rd, rs1)))
  {
    hide Decode, Pack, EOp, HOp, EHigh, HHigh, DecodeInt, DecodeFused, DecodeVW, DecodeIO;
    FloatCodesInvert(e, Fmadd, h, Fftoi);
    Unsigned(EHigh(e));
    Unsigned(HHigh(h));
    Unpack(0, EHigh(e), rs2, rs1, 0, rd, 1);
    Unpack(0, HHigh(h), 0, rs1, 0, rd, 1);
  }

  lemma TripConvert(rd: RegId, rs1: RegId)
    ensures Decode(EncodeF(Y(Fftoi, rd, rs1))) == Some(F(Y(Fftoi, rd, rs1)))
    ensures Decode(EncodeF(Fitof(rd, rs1))) == Some(F(Fitof(rd, rs1)))
  {
    hide Decode, Pack, DecodeInt, DecodeFused, DecodeVW, DecodeIO;
    Unpack(1, 4, 0, rs1, 0, rd, 1);
    Unpack(1, 36, 0, rs1, 0, rd, 1);
  }

  lemma TripFused(g: GInstr, rd: RegId, rs1: RegId, rs2: RegId, rs3: RegId)
    ensures Decode(EncodeF(G(g, rd, rs1, rs2, rs3))) == Some(F(G(g, rd, rs1, rs2, rs3)))
    ensures Decode(EncodeF(Flt(rd, rs1, rs2))) == Some(F(Flt(rd, rs1, rs2)))
  {
    hide Decode, Pack, GOp, GFunct3;
    FloatCodesInvert(Fadd, g, Fsqrt, Fftoi);
    Unpack(0, rs3, rs2, rs1, GFunct3(g), rd, 1);
    Unpack(1, 0, rs2, rs1, 1, rd, 1);
  }

  lemma TripY(y: YInstr, rd: RegId, rs1: RegId)
    requires y != Fftoi
    ensures Decode(EncodeF(Y(y, rd, rs1))) == Some(F(Y(y, rd, rs1)))
  {
    hide Decode, Pack, YOp, YFunct3;
    FloatCodesInvert(Fadd, Fmadd, Fsqrt, y);
    Unpack(1, 0, 0, rs1, YFunct3(y), rd, 1);
  }

  lemma TripW(w: WInstr, rs1: RegId, rs2: RegId, imm: bv32)
    requires Signed15(imm)
    ensures Decode(EncodeF(W(w, rs1, rs2, imm))) == Some(F(W(w, rs1, rs2, imm)))
  {
    hide Decode, Pack, Compose4, Cut, High6, Mixed6, Signed15, DecodeInt, DecodeArith, DecodeFused, DecodeIO;
    Imm15(imm);
    Unpack(Cut(imm, 14, 1), High6(imm), rs2, rs1, if w == Fblt then 1 else 2, Mixed6(imm), 9);
  }

  lemma TripV(v: VInstr, rs1: RegId, imm: bv32)
    requires Signed15(imm)
    ensures Decode(EncodeF(V(v, rs1, imm))) == Some(F(V(v, rs1, imm)))
  {
    hide Decode, Pack, Compose4, Cut, High6, Mixed6, Signed15, DecodeInt, DecodeArith, DecodeFused, DecodeIO;
    Imm15(imm);
    Unpack(Cut(imm, 14, 1), High6(imm), 0, rs1, if v == Fbeqz then 4 else 7, Mixed6(imm), 9);
  }

  lemma DecodeEncodeF(f: FInstr)
    requires EncodableF(f)
    ensures Decode(EncodeF(f)) == Some(F(f))
  {
    hide Decode, EncodeF, Signed13, Signed15;
    match f
    case E(op, rd, rs1, rs2) => TripEH(op, Fsqrt, rd, rs1, rs2);
    case H(op, rd, rs1) => TripEH(Fadd, op, rd, rs1, 0);
    case Fitof(rd, rs1) => TripConvert(rd, rs1);
    case G(op, rd, rs1, rs2, rs3) => TripFused(op, rd, rs1, rs2, rs3);
    case Flt(rd, rs1, rs2) => TripFused(Fmadd, rd, rs1, rs2, 0);
    case Y(op, rd, rs1) => if op == Fftoi { TripConvert(rd, rs1); } else { TripY(op, rd, rs1); }
    case W(op, rs1, rs2, imm) => TripW(op, rs1, rs2, imm);
    case V(op, rs1, imm) => TripV(op, rs1, imm);
    case Flw(rd, rs1, imm) => TripFlw(rd, rs1, imm);
    case Fsw(rs1, rs2, imm) => TripStore(rs1, rs2, imm);
  }

  /** Main result: decoding inverts the encoder on every instruction of the second set. */
  lemma DecodeEncode(i: Instr)
    requires Encodable(i)
    ensures Decode(Encode(i)) == Some(i)
  {
    hide Decode, Signed13, Signed15, Signed24, Signed6, EncodeF, EncodableF, Pack;
    match i
    case R(op, rd, rs1, rs2) => TripR(op, rd, rs1, rs2);
    case I(op, rd, rs1, imm) => TripI(op, rd, rs1, imm);
    case Sw(rs1, rs2, imm) => TripStore(rs1, rs2, imm);
    case B(op, rs1, rs2, imm) => TripB(op, rs1, rs2, imm);
    case P(op, rs1, imm, imm2) => TripP(op, rs1, imm, imm2);
    case Jal(rd, imm) => TripJal(rd, imm);
    case IO(Inw(r)) => TripIO(r);
    case IO(Outb(r)) => TripIO(r);
    case IO(Finw(r)) => TripIO(r);
    case F(f) => DecodeEncodeF(f);
    case End => EndWord();
  }

  lemma EndWord()
    ensures Decode(END_WORD) == Some(End)
  {
  }

  // ---- Only instructions of the set are decoded ----

  lemma Filled(sign: bv32, high: RegId, low: RegId, top: RegId, funct3: bv32)
    requires funct3 < 8 && sign < 2
    ensures Signed13(Fill(sign, 0xFFFF_F000, Join3(high, low)))
    ensures Signed15(Fill(sign, 0xFFFF_C000, Join4(low & 3, high, low & 0x3C)))
    ensures Signed24(Fill(sign, 0xFF80_0000, Join6(top, funct3, low & 3, high, low & 0x3C)))
  {
  }

  lemma MixedMasks(x: bv32)
    ensures Mask(x, 0, 1) == x & 3 && Mask(x, 2, 5) == x & 0x3C
  {
  }

  lemma InRange6(x: RegId)
    ensures Signed6(Compose1(x))
  {
    assert BitRange(5, 31) == 0xFFFF_FFE0;
  }

  lemma Composed(sign: bv32, high: RegId, low: RegId, top: RegId, funct3: bv32)
    requires funct3 < 8 && sign < 2
    ensures Signed13(Compose3(sign, high, low)) && Signed15(Compose4(sign, high, low))
    ensures Signed24(Compose6(sign, high, low, top, funct3))
  {
    hide SignExtend, Join3, Join4, Join6, Mask, Signed13, Signed15, Signed24, Fill;
    MixedMasks(low);
    Filled(sign, high, low, top, funct3);
    Fill12(sign, Join3(high, low));
    Fill14(sign, Join4(low & 3, high, low & 0x3C));
    Fill23(sign, Join6(top, funct3, low & 3, high, low & 0x3C));
  }

  lemma RangeInt(f: Fields, opcode: int, funct3: int)
    requires f.funct3 < 8 && f.sign < 2
    ensures var r := DecodeInt(f, opcode, funct3); r.Some? ==> Encodable(r.value)
  {
    hide DecodeInt, Encodable;
    if opcode < 7 || opcode == 10 { RangeRegister(f, opcode, funct3); } else { RangeJump(f, opcode, funct3); }
  }

  lemma RangeRegister(f: Fields, opcode: int, funct3: int)
    requires f.funct3 < 8 && f.sign < 2 && (opcode < 7 || opcode == 10)
    ensures var r := DecodeInt(f, opcode, funct3); r.Some? ==> Encodable(r.value)
  {
    hide Compose3, Compose4, Compose6, Compose1, Signed13, Signed15, Signed24, Signed6, ROp, IOp, BOp, POp;
    Composed(f.sign, f.high, f.rd, f.rs1, f.funct3);
    Composed(f.sign, f.high, f.rs2, f.rs1, f.funct3);
  }

  lemma RangeJump(f: Fields, opcode: int, funct3: int)
    requires f.funct3 < 8 && f.sign < 2 && opcode >= 7 && opcode != 10
    ensures var r := DecodeInt(f, opcode, funct3); r.Some? ==> Encodable(r.value)
  {
    hide Compose3, Compose4, Compose6, Compose1, Signed13, Signed15, Signed24, Signed6, ROp, IOp, BOp, POp;
    Composed(f.sign, f.high, f.rd, f.rs1, f.funct3);
    Composed(f.sign, f.high, f.rs2, f.rs1, f.funct3);
    InRange6(f.rs2);
  }

  lemma RangeFloat(f: Fields, opcode: int, funct3: int, funct5: int)
    requires f.funct3 < 8 && f.sign < 2
    ensures var r := DecodeFloat(f, opcode, funct3, funct5); r.Some? ==> EncodableF(r.value)
  {
    hide Compose3, Compose4, Signed13, Signed15, EOp, HOp, GOp, YOp;
    Composed(f.sign, f.high, f.rd, f.rs1, f.funct3);
    Composed(f.sign, f.high, f.rs2, f.rs1, f.funct3);
  }

  lemma RangeAll(f: Fields, opcode: int, funct3: int, funct5: int)
    requires f.funct3 < 8 && f.sign < 2
    ensures var r := Interpret(f, opcode, funct3, funct5); r.Some? ==> Encodable(r.value)
  {
    hide DecodeInt, DecodeFloat, DecodeIO, EncodableF, Signed13, Signed15, Signed24, Signed6;
    RangeInt(f, opcode, funct3);
    RangeFloat(f, opcode, funct3, funct5);
  }

  lemma FieldsSmall(bin: bv32)
    ensures Split(bin).funct3 < 8 && Split(bin).sign < 2
  {
    hide Split, Cut, Funct5;
    SplitIs(bin);
  }

  lemma EndEncodable()
    ensures Encodable(End)
  {
  }

  /** Conversely, whatever is decoded is an instruction of the second set. */
  lemma DecodeInRange(bin: bv32)
    ensures Decode(bin).Some? ==> Encodable(Decode(bin).value)
  {
    hide Split, Funct5, Interpret, Encodable;
    var f := Split(bin);
    FieldsSmall(bin);
    RangeAll(f, f.opcode as int, f.funct3 as int, Funct5(bin));
    EndEncodable();
  }
}
