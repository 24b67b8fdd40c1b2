/** Decoding of the first instruction set (core_sim/src/decode_instr.rs), against an encoder that
    follows the base instruction formats of the RISC-V Unprivileged ISA specification (sections
    2.2 and 2.3) with this core's own opcodes for I/O and floating point. */
module Decode {
  import opened Wrappers
  import opened Bin
  import opened Instr

  // ---- The decoder ----

  function IImm(sign: bv32, imm: bv32): bv32 { SignExtend(12, sign, imm) }

  function SImm(bin: bv32, sign: bv32): bv32 {
    SignExtend(12, sign, SJoin(Extract(bin, 25, 31), Extract(bin, 7, 11)))
  }

  function BImm(bin: bv32, sign: bv32): bv32 {
    SignExtend(13, sign, BJoin(Extract(bin, 8, 11), Extract(bin, 25, 30), At(bin, 7), sign))
  }

  function JImm(bin: bv32, sign: bv32): bv32 {
    SignExtend(21, sign, JJoin(Extract(bin, 12, 19), At(bin, 20), Extract(bin, 21, 30), sign))
  }

  function SJoin(upper: bv32, lower: bv32): bv32 { (upper << 5) | lower }

  function BJoin(lower: bv32, upper: bv32, at7: bv32, sign: bv32): bv32 {
    (lower << 1) | (upper << 5) | (at7 << 11) | (sign << 12)
  }

  function JJoin(part1: bv32, part2: bv32, part3: bv32, part4: bv32): bv32 {
    (part1 << 12) | (part2 << 11) | (part3 << 1) | (part4 << 20)
  }

  /** The fields that every format is cut into. */
  datatype Fields = Fields(opcode: int, rd: RegId, funct3: int, rs1: RegId, rs2: RegId, funct7: int, imm: bv32, sign: bv32)

  function Split(bin: bv32): Fields {
    RegFields(bin);
    Fields(MaskLower(bin, 6) as int, Extract(bin, 7, 11), Extract(bin, 12, 14) as int, Extract(bin, 15, 19),
           Extract(bin, 20, 24), Extract(bin, 25, 31) as int, Extract(bin, 20, 31), At(bin, 31))
  }

  function ROp(funct3: int, funct7: int): Option<RInstr> {
    if funct7 == 0x00 then
      if funct3 == 0 then Some(Add)
      else if funct3 == 4 then Some(Xor)
      else if funct3 == 6 then Some(Or)
      else if funct3 == 7 then Some(And)
      else if funct3 == 1 then Some(Sll)
      else if funct3 == 2 then Some(Slt)
      else None
    else if funct7 == 0x20 then
      if funct3 == 0 then Some(Sub)
      else if funct3 == 5 then Some(Sra)
      else None
    else None
  }

  function DecodeR(f: Fields): DecodeResult {
    match ROp(f.funct3, f.funct7)
    case Some(op) => Ok(R(op, f.rd, f.rs1, f.rs2))
    case None => Invalid
  }

  function IOp(funct3: int, funct7: int): Option<IInstr> {
    if funct3 == 0 then Some(Addi)
    else if funct3 == 4 then Some(Xori)
    else if funct3 == 6 then Some(Ori)
    else if funct3 == 7 then Some(Andi)
    else if funct3 == 1 && funct7 == 0 then Some(Slli)
    else None
  }

  function DecodeI(f: Fields): DecodeResult {
    match IOp(f.funct3, f.funct7)
    case Some(op) => Ok(I(op, f.rd, f.rs1, IImm(f.sign, if op == Slli then Mask(f.imm, 0, 4) else f.imm)))
    case None => Invalid
  }

  function BOp(funct3: int): Option<BInstr> {
    if funct3 == 0 then Some(Beq)
    else if funct3 == 1 then Some(Bne)
    else if funct3 == 4 then Some(Blt)
    else if funct3 == 5 then Some(Bge)
    else None
  }

  function DecodeB(f: Fields, bin: bv32): DecodeResult {
    match BOp(f.funct3)
    case Some(op) => Ok(B(op, f.rs1, f.rs2, BImm(bin, f.sign)))
    case None => Invalid
  }

  function EOp(funct7: int): Option<EInstr> {
    if funct7 == 0 then Some(Fadd)
    else if funct7 == 4 then Some(Fsub)
    else if funct7 == 8 then Some(Fmul)
    else if funct7 == 12 then Some(Fdiv)
    else if funct7 == 0x18 then Some(Fsgnj)
    else if funct7 == 0x1C then Some(Fsgnjn)
    else if funct7 == 0x20 then Some(Fsgnjx)
    else None
  }

  function HOp(funct7: int): Option<HInstr> {
    if funct7 == 0x10 then Some(Fsqrt)
    else if funct7 == 0x14 then Some(Fhalf)
    else if funct7 == 0x40 then Some(Ffloor)
    else None
  }

  function YOp(funct3: int): Option<YInstr> {
    if funct3 == 4 then Some(Fiszero)
    else if funct3 == 5 then Some(Fispos)
    else if funct3 == 6 then Some(Fisneg)
    else None
  }

  /** Opcode 0b1010011. A nonzero funct3 comes with one funct7 only, or the decoder panics. */
  function DecodeF(f: Fields): DecodeResult {
    if f.funct3 == 0 then
      if EOp(f.funct7).Some? then Ok(F(E(EOp(f.funct7).value, f.rd, f.rs1, f.rs2)))
      else if HOp(f.funct7).Some? then Ok(F(H(HOp(f.funct7).value, f.rd, f.rs1)))
      else if f.funct7 == 0x45 then Ok(F(Y(Fftoi, f.rd, f.rs1)))
      else if f.funct7 == 0x26 then Ok(F(Fitof(f.rd, f.rs1)))
      else Invalid
    else if f.funct7 != 0x51 then Panic
    else if f.funct3 == 1 then Ok(F(Flt(f.rd, f.rs1, f.rs2)))
    else if YOp(f.funct3).Some? then Ok(F(Y(YOp(f.funct3).value, f.rd, f.rs1)))
    else Invalid
  }

  function DecodeVW(f: Fields, bin: bv32): DecodeResult {
    var imm := BImm(bin, f.sign);
    if f.funct3 == 1 || f.funct3 == 2 then Ok(F(W(if f.funct3 == 1 then Fblt else Fbge, f.rs1, f.rs2, imm)))
    else if f.funct3 == 4 || f.funct3 == 7 then Ok(F(V(if f.funct3 == 4 then Fbeqz else Fbnez, f.rs1, imm)))
    else Invalid
  }

  /** Opcodes with one instruction each, or none. */
  function DecodeOther(f: Fields, bin: bv32): DecodeResult {
    if f.opcode == 0x03 then if f.funct3 == 2 then Ok(I(Lw, f.rd, f.rs1, IImm(f.sign, f.imm))) else Invalid
    else if f.opcode == 0x67 then if f.funct3 == 0 then Ok(I(Jalr, f.rd, f.rs1, IImm(f.sign, f.imm))) else Invalid
    else if f.opcode == 0x23 then if f.funct3 == 2 then Ok(Sw(f.rs1, f.rs2, SImm(bin, f.sign))) else Invalid
    else if f.opcode == 0x6F then Ok(Jal(f.rd, JImm(bin, f.sign)))
    else if f.opcode == 0x0B then Ok(IO(Inw(f.rd)))
    else if f.opcode == 0x2B then Ok(IO(Outb(f.rs1)))
    else if f.opcode == 0x0F then Ok(IO(Finw(f.rd)))
    else if f.opcode == 0x07 then Ok(F(Flw(f.rd, f.rs1, IImm(f.sign, f.imm))))
    else if f.opcode == 0x27 then Ok(F(Fsw(f.rs2, f.rs1, SImm(bin, f.sign))))
    else Invalid
  }

  function Decode(bin: bv32): DecodeResult {
    if bin == 0 then Ok(End)
    else
      var f := Split(bin);
      if f.opcode == 0x33 then DecodeR(f)
      else if f.opcode == 0x13 then DecodeI(f)
      else if f.opcode == 0x63 then DecodeB(f, bin)
      else if f.opcode == 0x53 then DecodeF(f)
      else if f.opcode == 0x57 then DecodeVW(f, bin)
      else DecodeOther(f, bin)
  }

  // ---- The encoder ----

  /** A sign-extended immediate of the given number of bits (the sign bit included). */
  predicate Signed12(imm: bv32) { imm < 0x800 || imm >= 0xFFFF_F800 }
  predicate Signed13Even(imm: bv32) { (imm < 0x1000 || imm >= 0xFFFF_F000) && imm & 1 == 0 }
  predicate Signed21Even(imm: bv32) { (imm < 0x10_0000 || imm >= 0xFFF0_0000) && imm & 1 == 0 }

  predicate EncodableF(f: FInstr) {
    match f
    case W(_, _, _, imm) => Signed13Even(imm)
    case V(_, _, imm) => Signed13Even(imm)
    case Flw(_, _, imm) => Signed12(imm)
    case Fsw(_, _, imm) => Signed12(imm)
    case _ => true
  }

  /** The instructions that exist: immediates fit their format, and no Slti, which has no code. */
  predicate Encodable(i: Instr) {
    match i
    case I(op, _, _, imm) => op != Slti && (if op == Slli then imm < 32 else Signed12(imm))
    case Sw(_, _, imm) => Signed12(imm)
    case B(_, _, _, imm) => Signed13Even(imm)
    case Jal(_, imm) => Signed21Even(imm)
    case F(f) => EncodableF(f)
    case _ => true
  }

  function FmtR(funct7: bv32, rs2: bv32, rs1: bv32, funct3: bv32, rd: bv32, opcode: bv32): bv32 {
    (funct7 << 25) | (rs2 << 20) | (rs1 << 15) | (funct3 << 12) | (rd << 7) | opcode
  }

  function FmtI(imm: bv32, rs1: bv32, funct3: bv32, rd: bv32, opcode: bv32): bv32 {
    (imm << 20) | (rs1 << 15) | (funct3 << 12) | (rd << 7) | opcode
  }

  function FmtS(imm: bv32, rs2: bv32, rs1: bv32, funct3: bv32, opcode: bv32): bv32 {
    (((imm >> 5) & 0x7F) << 25) | (rs2 << 20) | (rs1 << 15) | (funct3 << 12) | ((imm & 0x1F) << 7) | opcode
  }

  function FmtB(imm: bv32, rs2: bv32, rs1: bv32, funct3: bv32, opcode: bv32): bv32 {
    (((imm >> 12) & 1) << 31) | (((imm >> 5) & 0x3F) << 25) | (rs2 << 20) | (rs1 << 15) | (funct3 << 12)
    | (((imm >> 1) & 0xF) << 8) | (((imm >> 11) & 1) << 7) | opcode
  }

  function FmtJ(imm: bv32, rd: bv32, opcode: bv32): bv32 {
    (((imm >> 20) & 1) << 31) | (((imm >> 1) & 0x3FF) << 21) | (((imm >> 11) & 1) << 20)
    | (((imm >> 12) & 0xFF) << 12) | (rd << 7) | opcode
  }

  function RFunct3(op: RInstr): (c: bv32)
    ensures c < 8
  {
    match op
    case Add => 0 case Sub => 0 case Sll => 1 case Slt => 2 case Xor => 4 case Sra => 5 case Or => 6 case And => 7
  }

  function RFunct7(op: RInstr): (c: bv32)
    ensures c < 128
  {
    if op == Sub || op == Sra then 0x20 else 0
  }

  function IFunct3(op: IInstr): (c: bv32)
    ensures c < 8
  {
    match op
    case Addi => 0 case Slli => 1 case Lw => 2 case Slti => 2 case Xori => 4 case Ori => 6 case Andi => 7 case Jalr => 0
  }

  function BFunct3(op: BInstr): (c: bv32)
    ensures c < 8
  {
    match op
    case Beq => 0 case Bne => 1 case Blt => 4 case Bge => 5
  }

  function EFunct7(op: EInstr): (c: bv32)
    ensures c < 128
  {
    match op
    case Fadd => 0 case Fsub => 4 case Fmul => 8 case Fdiv => 12 case Fsgnj => 0x18 case Fsgnjn => 0x1C case Fsgnjx => 0x20
  }

  function HFunct7(op: HInstr): (c: bv32)
    ensures c < 128
  {
    match op
    case Fsqrt => 0x10 case Fhalf => 0x14 case Ffloor => 0x40
  }

  function YFunct3(op: YInstr): (c: bv32)
    ensures c < 8
  {
    match op
    case Fftoi => 0 case Fiszero => 4 case Fispos => 5 case Fisneg => 6
  }

  function EncodeF(f: FInstr): bv32
    requires EncodableF(f)
  {
    match f
    case E(op, rd, rs1, rs2) => FmtR(EFunct7(op), rs2, rs1, 0, rd, 0x53)
    case H(op, rd, rs1) => FmtR(HFunct7(op), 0, rs1, 0, rd, 0x53)
    case Flt(rd, rs1, rs2) => FmtR(0x51, rs2, rs1, 1, rd, 0x53)
    case Fitof(rd, rs1) => FmtR(0x26, 0, rs1, 0, rd, 0x53)
    case Y(op, rd, rs1) => FmtR(if op == Fftoi then 0x45 else 0x51, 0, rs1, YFunct3(op), rd, 0x53)
    case W(op, rs1, rs2, imm) => FmtB(imm, rs2, rs1, if op == Fblt then 1 else 2, 0x57)
    case V(op, rs1, imm) => FmtB(imm, 0, rs1, if op == Fbeqz then 4 else 7, 0x57)
    case Flw(rd, rs1, imm) => FmtI(imm, rs1, 2, rd, 0x07)
    case Fsw(rs2, rs1, imm) => FmtS(imm, rs2, rs1, 2, 0x27)
  }

  function Encode(i: Instr): bv32
    requires Encodable(i)
  {
    match i
    case R(op, rd, rs1, rs2) => FmtR(RFunct7(op), rs2, rs1, RFunct3(op), rd, 0x33)
    case I(op, rd, rs1, imm) => FmtI(imm, rs1, IFunct3(op), rd, if op == Lw then 0x03 else if op == Jalr then 0x67 else 0x13)
    case Sw(rs1, rs2, imm) => FmtS(imm, rs2, rs1, 2, 0x23)
    case B(op, rs1, rs2, imm) => FmtB(imm, rs2, rs1, BFunct3(op), 0x63)
    case Jal(rd, imm) => FmtJ(imm, rd, 0x6F)
    case IO(Outb(rs)) => FmtR(0, 0, rs, 0, 0, 0x2B)
    case IO(Inw(rd)) => FmtR(0, 0, 0, 0, rd, 0x0B)
    case IO(Finw(rd)) => FmtR(0, 0, 0, 0, rd, 0x0F)
    case F(f) => EncodeF(f)
    case End => 0
  }

  // ---- Fields of a word ----

  lemma Field7To11(bin: bv32)
    ensures Extract(bin, 7, 11) == Cut(bin, 7, 0x1F)
  {
  }

  lemma Field12To14(bin: bv32)
    ensures Extract(bin, 12, 14) == Cut(bin, 12, 0x7)
  {
  }

  lemma Field15To19(bin: bv32)
    ensures Extract(bin, 15, 19) == Cut(bin, 15, 0x1F)
  {
  }

  lemma Field20To24(bin: bv32)
    ensures Extract(bin, 20, 24) == Cut(bin, 20, 0x1F)
  {
  }

  lemma Field25To31(bin: bv32)
    ensures Extract(bin, 25, 31) == Cut(bin, 25, 0x7F)
  {
  }

  lemma Field20To31(bin: bv32)
    ensures Extract(bin, 20, 31) == Cut(bin, 20, 0xFFF)
  {
  }

  lemma Field8To11(bin: bv32)
    ensures Extract(bin, 8, 11) == Cut(bin, 8, 0xF)
  {
  }

  lemma Field12To19(bin: bv32)
    ensures Extract(bin, 12, 19) == Cut(bin, 12, 0xFF)
  {
  }

  lemma Field21To30(bin: bv32)
    ensures Extract(bin, 21, 30) == Cut(bin, 21, 0x3FF)
  {
  }

  lemma FieldOpcode(bin: bv32)
    ensures MaskLower(bin, 6) == Cut(bin, 0, 0x7F)
  {
  }

  lemma FieldSign(bin: bv32)
    ensures At(bin, 31) == Cut(bin, 31, 1) && At(bin, 20) == Cut(bin, 20, 1) && At(bin, 7) == Cut(bin, 7, 1)
  {
  }

  lemma CutSmall(bin: bv32)
    ensures Cut(bin, 7, 0x1F) < 32 && Cut(bin, 15, 0x1F) < 32 && Cut(bin, 20, 0x1F) < 32
  {
  }

  lemma RegFields(bin: bv32)
    ensures Extract(bin, 7, 11) < 32 && Extract(bin, 15, 19) < 32 && Extract(bin, 20, 24) < 32
  {
    hide Extract, Cut;
    Field7To11(bin);
    Field15To19(bin);
    Field20To24(bin);
    CutSmall(bin);
  }

  lemma SplitIs(b: bv32)
    ensures var f := Split(b);
            && f.opcode == Cut(b, 0, 0x7F) as int && f.rd == Cut(b, 7, 0x1F) && f.funct3 == Cut(b, 12, 0x7) as int
            && f.rs1 == Cut(b, 15, 0x1F) && f.rs2 == Cut(b, 20, 0x1F) && f.funct7 == Cut(b, 25, 0x7F) as int
            && f.imm == Cut(b, 20, 0xFFF) && f.sign == Cut(b, 31, 1)
  {
    hide Extract, MaskLower, At, Cut;
    FieldOpcode(b);
    Field7To11(b);
    Field12To14(b);
    Field15To19(b);
    Field20To24(b);
    Field25To31(b);
    Field20To31(b);
    FieldSign(b);
    CutSmall(b);
  }

  // ---- Immediates as plain bit expressions ----

  function RawI(b: bv32): bv32 { Fill(Cut(b, 31, 1), 0xFFFF_F000, Cut(b, 20, 0xFFF)) }
  function RawS(b: bv32): bv32 { Fill(Cut(b, 31, 1), 0xFFFF_F000, SJoin(Cut(b, 25, 0x7F), Cut(b, 7, 0x1F))) }
  function RawB(b: bv32): bv32 {
    Fill(Cut(b, 31, 1), 0xFFFF_E000, BJoin(Cut(b, 8, 0xF), Cut(b, 25, 0x3F), Cut(b, 7, 1), Cut(b, 31, 1)))
  }
  function RawJ(b: bv32): bv32 {
    Fill(Cut(b, 31, 1), 0xFFE0_0000, JJoin(Cut(b, 12, 0xFF), Cut(b, 20, 1), Cut(b, 21, 0x3FF), Cut(b, 31, 1)))
  }

  lemma Fill13(sign: bv32, imm: bv32)
    ensures SignExtend(13, sign, imm) == Fill(sign, 0xFFFF_E000, imm)
  {
    assert BitRange(13, 31) == 0xFFFF_E000;
  }

  lemma Fill21(sign: bv32, imm: bv32)
    ensures SignExtend(21, sign, imm) == Fill(sign, 0xFFE0_0000, imm)
  {
    assert BitRange(21, 31) == 0xFFE0_0000;
  }

  lemma LowFive(imm: bv32)
    ensures Mask(imm, 0, 4) == imm & 0x1F
  {
    assert BitRange(0, 4) == 0x1F;
  }

  lemma IImmIs(b: bv32)
    ensures IImm(Split(b).sign, Split(b).imm) == RawI(b)
  {
    hide SignExtend, Split, Cut, Fill;
    SplitIs(b);
    Fill12(Cut(b, 31, 1), Cut(b, 20, 0xFFF));
  }

  lemma SImmIs(b: bv32)
    ensures SImm(b, Split(b).sign) == RawS(b)
  {
    hide SignExtend, Split, Extract, Cut, Fill, SJoin;
    SplitIs(b);
    Field25To31(b);
    Field7To11(b);
    Fill12(Cut(b, 31, 1), SJoin(Cut(b, 25, 0x7F), Cut(b, 7, 0x1F)));
  }

  lemma BImmIs(b: bv32)
    ensures BImm(b, Split(b).sign) == RawB(b)
  {
    hide SignExtend, Split, Extract, Cut, Fill, At, BJoin;
    SplitIs(b);
    Field8To11(b);
    Field25To30(b);
    FieldSign(b);
    Fill13(Cut(b, 31, 1), BJoin(Cut(b, 8, 0xF), Cut(b, 25, 0x3F), Cut(b, 7, 1), Cut(b, 31, 1)));
  }

  lemma JImmIs(b: bv32)
    ensures JImm(b, Split(b).sign) == RawJ(b)
  {
    hide SignExtend, Split, Extract, Cut, Fill, At, JJoin;
    SplitIs(b);
    Field12To19(b);
    Field21To30(b);
    FieldSign(b);
    Fill21(Cut(b, 31, 1), JJoin(Cut(b, 12, 0xFF), Cut(b, 20, 1), Cut(b, 21, 0x3FF), Cut(b, 31, 1)));
  }

  lemma ShiftImmIs(b: bv32)
    requires Split(b).funct7 == 0
    ensures IImm(Split(b).sign, Mask(Split(b).imm, 0, 4)) == Cut(b, 20, 0x1F)
  {
    hide SignExtend, Split, Cut, Fill, Mask;
    SplitIs(b);
    LowFive(Cut(b, 20, 0xFFF));
    Fill12(Cut(b, 31, 1), Mask(Cut(b, 20, 0xFFF), 0, 4));
    ShiftCut(b);
  }

  lemma ShiftCut(b: bv32)
    ensures Cut(b, 25, 0x7F) == 0 ==> Cut(b, 31, 1) == 0
    ensures Cut(b, 20, 0xFFF) & 0x1F == Cut(b, 20, 0x1F)
    ensures forall x: bv32 {:trigger Fill(0, 0xFFFF_F000, x)} :: Fill(0, 0xFFFF_F000, x) == x
  {
  }

  // ---- What the formats put into a word ----

  lemma RBits(funct7: bv32, rs2: bv32, rs1: bv32, funct3: bv32, rd: bv32, opcode: bv32)
    requires funct7 < 128 && rs2 < 32 && rs1 < 32 && funct3 < 8 && rd < 32 && 0 < opcode < 128
    ensures var b := FmtR(funct7, rs2, rs1, funct3, rd, opcode);
            && b != 0 && Cut(b, 0, 0x7F) == opcode && Cut(b, 7, 0x1F) == rd && Cut(b, 12, 0x7) == funct3
            && Cut(b, 15, 0x1F) == rs1 && Cut(b, 20, 0x1F) == rs2 && Cut(b, 25, 0x7F) == funct7
  {
  }

  lemma IBits(imm: bv32, rs1: bv32, funct3: bv32, rd: bv32, opcode: bv32)
    requires Signed12(imm) && rs1 < 32 && funct3 < 8 && rd < 32 && 0 < opcode < 128
    ensures var b := FmtI(imm, rs1, funct3, rd, opcode);
            && b != 0 && Cut(b, 0, 0x7F) == opcode && Cut(b, 7, 0x1F) == rd && Cut(b, 12, 0x7) == funct3
            && Cut(b, 15, 0x1F) == rs1
            && (imm < 32 ==> Cut(b, 25, 0x7F) == 0 && Cut(b, 20, 0x1F) == imm)
  {
  }

  lemma IRaw(imm: bv32, rs1: bv32, funct3: bv32, rd: bv32, opcode: bv32)
    requires Signed12(imm) && rs1 < 32 && funct3 < 8 && rd < 32 && 0 < opcode < 128
    ensures RawI(FmtI(imm, rs1, funct3, rd, opcode)) == imm
  {
  }

  lemma SBits(imm: bv32, rs2: bv32, rs1: bv32, funct3: bv32, opcode: bv32)
    requires Signed12(imm) && rs2 < 32 && rs1 < 32 && funct3 < 8 && 0 < opcode < 128
    ensures var b := FmtS(imm, rs2, rs1, funct3, opcode);
            && b != 0 && Cut(b, 0, 0x7F) == opcode && Cut(b, 12, 0x7) == funct3
            && Cut(b, 15, 0x1F) == rs1 && Cut(b, 20, 0x1F) == rs2
  {
  }

  lemma SRaw(imm: bv32, rs2: bv32, rs1: bv32, funct3: bv32, opcode: bv32)
    requires Signed12(imm) && rs2 < 32 && rs1 < 32 && funct3 < 8 && 0 < opcode < 128
    ensures RawS(FmtS(imm, rs2, rs1, funct3, opcode)) == imm
  {
  }

  lemma BBits(imm: bv32, rs2: bv32, rs1: bv32, funct3: bv32, opcode: bv32)
    requires Signed13Even(imm) && rs2 < 32 && rs1 < 32 && funct3 < 8 && 0 < opcode < 128
    ensures var b := FmtB(imm, rs2, rs1, funct3, opcode);
            && b != 0 && Cut(b, 0, 0x7F) == opcode && Cut(b, 12, 0x7) == funct3
            && Cut(b, 15, 0x1F) == rs1 && Cut(b, 20, 0x1F) == rs2
  {
  }

  lemma BRaw(imm: bv32, rs2: bv32, rs1: bv32, funct3: bv32, opcode: bv32)
    requires Signed13Even(imm) && rs2 < 32 && rs1 < 32 && funct3 < 8 && 0 < opcode < 128
    ensures RawB(FmtB(imm, rs2, rs1, funct3, opcode)) == imm
  {
  }

  lemma JBits(imm: bv32, rd: bv32, opcode: bv32)
    requires Signed21Even(imm) && rd < 32 && 0 < opcode < 128
    ensures var b := FmtJ(imm, rd, opcode); b != 0 && Cut(b, 0, 0x7F) == opcode && Cut(b, 7, 0x1F) == rd
  {
  }

  lemma JParts(imm: bv32, rd: bv32, opcode: bv32)
    requires rd < 32 && 0 < opcode < 128
    ensures var b := FmtJ(imm, rd, opcode);
            && Cut(b, 12, 0xFF) == Cut(imm, 12, 0xFF) && Cut(b, 20, 1) == Cut(imm, 11, 1)
            && Cut(b, 21, 0x3FF) == Cut(imm, 1, 0x3FF) && Cut(b, 31, 1) == Cut(imm, 20, 1)
  {
  }

  lemma JRebuild(imm: bv32)
    requires Signed21Even(imm)
    ensures Fill(Cut(imm, 20, 1), 0xFFE0_0000, JJoin(Cut(imm, 12, 0xFF), Cut(imm, 11, 1), Cut(imm, 1, 0x3FF), Cut(imm, 20, 1))) == imm
  {
    hide Cut, JJoin, Fill;
    JLow(imm);
    JHigh(imm);
  }

  lemma JLow(imm: bv32)
    ensures JJoin(Cut(imm, 12, 0xFF), Cut(imm, 11, 1), Cut(imm, 1, 0x3FF), Cut(imm, 20, 1)) == imm & 0x1F_FFFE
  {
  }

  lemma JHigh(imm: bv32)
    requires Signed21Even(imm)
    ensures Fill(Cut(imm, 20, 1), 0xFFE0_0000, imm & 0x1F_FFFE) == imm
  {
    hide Cut;
    if imm < 0x10_0000 { JPositive(imm); } else { JNegative(imm); }
  }

  lemma JPositive(imm: bv32)
    requires imm < 0x10_0000 && imm & 1 == 0
    ensures Cut(imm, 20, 1) == 0 && imm & 0x1F_FFFE == imm
  {
  }

  lemma JNegative(imm: bv32)
    requires imm >= 0xFFF0_0000 && imm & 1 == 0
    ensures Cut(imm, 20, 1) == 1 && 0xFFE0_0000 | (imm & 0x1F_FFFE) == imm
  {
  }

  lemma JRaw(imm: bv32, rd: bv32, opcode: bv32)
    requires Signed21Even(imm) && rd < 32 && 0 < opcode < 128
    ensures RawJ(FmtJ(imm, rd, opcode)) == imm
  {
    hide FmtJ, Cut, JJoin, Fill;
    JParts(imm, rd, opcode);
    JRebuild(imm);
  }

  // ---- Round trip ----

  lemma SplitR(funct7: bv32, rs2: RegId, rs1: RegId, funct3: bv32, rd: RegId, opcode: bv32)
    requires funct7 < 128 && funct3 < 8 && 0 < opcode < 128
    ensures var b := FmtR(funct7, rs2, rs1, funct3, rd, opcode); var f := Split(b);
            && b != 0 && f.opcode == opcode as int && f.rd == rd && f.funct3 == funct3 as int && f.rs1 == rs1 && f.rs2 == rs2
            && f.funct7 == funct7 as int
  {
    hide FmtR, Split, Cut;
    RBits(funct7, rs2, rs1, funct3, rd, opcode);
    SplitIs(FmtR(funct7, rs2, rs1, funct3, rd, opcode));
  }

  lemma SplitI(imm: bv32, rs1: RegId, funct3: bv32, rd: RegId, opcode: bv32)
    requires Signed12(imm) && funct3 < 8 && 0 < opcode < 128
    ensures var b := FmtI(imm, rs1, funct3, rd, opcode); var f := Split(b);
            && b != 0 && f.opcode == opcode as int && f.rd == rd && f.funct3 == funct3 as int && f.rs1 == rs1
            && IImm(f.sign, f.imm) == imm
            && (imm < 32 ==> f.funct7 == 0 && IImm(f.sign, Mask(f.imm, 0, 4)) == imm)
  {
    hide FmtI, Split, IImm, Mask, RawI, Cut;
    var b := FmtI(imm, rs1, funct3, rd, opcode);
    IBits(imm, rs1, funct3, rd, opcode);
    IRaw(imm, rs1, funct3, rd, opcode);
    SplitIs(b);
    IImmIs(b);
    if imm < 32 { ShiftImmIs(b); }
  }

  lemma SplitS(imm: bv32, rs2: RegId, rs1: RegId, funct3: bv32, opcode: bv32)
    requires Signed12(imm) && funct3 < 8 && 0 < opcode < 128
    ensures var b := FmtS(imm, rs2, rs1, funct3, opcode); var f := Split(b);
            && b != 0 && f.opcode == opcode as int && f.funct3 == funct3 as int && f.rs1 == rs1 && f.rs2 == rs2
            && SImm(b, f.sign) == imm
  {
    hide FmtS, Split, SImm, RawS, Cut;
    SBits(imm, rs2, rs1, funct3, opcode);
    SRaw(imm, rs2, rs1, funct3, opcode);
    SplitIs(FmtS(imm, rs2, rs1, funct3, opcode));
    SImmIs(FmtS(imm, rs2, rs1, funct3, opcode));
  }

  lemma SplitB(imm: bv32, rs2: RegId, rs1: RegId, funct3: bv32, opcode: bv32)
    requires Signed13Even(imm) && funct3 < 8 && 0 < opcode < 128
    ensures var b := FmtB(imm, rs2, rs1, funct3, opcode); var f := Split(b);
            && b != 0 && f.opcode == opcode as int && f.funct3 == funct3 as int && f.rs1 == rs1 && f.rs2 == rs2
            && BImm(b, f.sign) == imm
  {
    hide FmtB, Split, BImm, RawB, Cut;
    BBits(imm, rs2, rs1, funct3, opcode);
    BRaw(imm, rs2, rs1, funct3, opcode);
    SplitIs(FmtB(imm, rs2, rs1, funct3, opcode));
    BImmIs(FmtB(imm, rs2, rs1, funct3, opcode));
  }

  lemma SplitJ(imm: bv32, rd: RegId, opcode: bv32)
    requires Signed21Even(imm) && 0 < opcode < 128
    ensures var b := FmtJ(imm, rd, opcode); var f := Split(b);
            b != 0 && f.opcode == opcode as int && f.rd == rd && JImm(b, f.sign) == imm
  {
    hide FmtJ, Split, JImm, RawJ, Cut;
    JBits(imm, rd, opcode);
    JRaw(imm, rd, opcode);
    SplitIs(FmtJ(imm, rd, opcode));
    JImmIs(FmtJ(imm, rd, opcode));
  }

  /** The decoder's code tables undo the encoder's. */
  lemma CodesInvert(r: RInstr, i: IInstr, b: BInstr, funct7: int)
    ensures ROp(RFunct3(r) as int, RFunct7(r) as int) == Some(r)
    ensures i != Slti && i != Lw && i != Jalr && i != Slli ==> IOp(IFunct3(i) as int, funct7) == Some(i)
    ensures IOp(IFunct3(Slli) as int, 0) == Some(Slli)
    ensures BOp(BFunct3(b) as int) == Some(b)
  {
  }

  lemma FloatCodesInvert(e: EInstr, h: HInstr, y: YInstr)
    ensures EOp(EFunct7(e) as int) == Some(e)
    ensures EOp(HFunct7(h) as int) == None && HOp(HFunct7(h) as int) == Some(h)
    ensures y != Fftoi ==> YOp(YFunct3(y) as int) == Some(y) && YFunct3(y) as int !in {0, 1}
  {
  }

  lemma TripR(op: RInstr, rd: RegId, rs1: RegId, rs2: RegId)
    ensures Decode(FmtR(RFunct7(op), rs2, rs1, RFunct3(op), rd, 0x33)) == Ok(R(op, rd, rs1, rs2))
  {
    hide Split, FmtR, ROp, RFunct3, RFunct7, DecodeI, DecodeB, DecodeF, DecodeVW, DecodeOther;
    SplitR(RFunct7(op), rs2, rs1, RFunct3(op), rd, 0x33);
    CodesInvert(op, Addi, Beq, 0);
  }

  lemma TripI(op: IInstr, rd: RegId, rs1: RegId, imm: bv32)
    requires op != Slti && op != Lw && op != Jalr && Signed12(imm) && (op == Slli ==> imm < 32)
    ensures Decode(FmtI(imm, rs1, IFunct3(op), rd, 0x13)) == Ok(I(op, rd, rs1, imm))
  {
    hide Split, FmtI, Signed12, IImm, Mask, IOp, IFunct3, DecodeR, DecodeB, DecodeF, DecodeVW, DecodeOther;
    SplitI(imm, rs1, IFunct3(op), rd, 0x13);
    CodesInvert(Add, op, Beq, Split(FmtI(imm, rs1, IFunct3(op), rd, 0x13)).funct7);
  }

  lemma TripB(op: BInstr, rs1: RegId, rs2: RegId, imm: bv32)
    requires Signed13Even(imm)
    ensures Decode(FmtB(imm, rs2, rs1, BFunct3(op), 0x63)) == Ok(B(op, rs1, rs2, imm))
  {
    hide Split, FmtB, Signed13Even, BImm, BOp, BFunct3, DecodeR, DecodeI, DecodeF, DecodeVW, DecodeOther;
    SplitB(imm, rs2, rs1, BFunct3(op), 0x63);
    CodesInvert(Add, Addi, op, 0);
  }

  lemma TripE(op: EInstr, rd: RegId, rs1: RegId, rs2: RegId)
    ensures Decode(FmtR(EFunct7(op), rs2, rs1, 0, rd, 0x53)) == Ok(F(E(op, rd, rs1, rs2)))
  {
    hide Split, FmtR, EOp, EFunct7, DecodeR, DecodeI, DecodeB, DecodeVW, DecodeOther;
    SplitR(EFunct7(op), rs2, rs1, 0, rd, 0x53);
    FloatCodesInvert(op, Fsqrt, Fftoi);
  }

  lemma TripH(op: HInstr, rd: RegId, rs1: RegId)
    ensures Decode(FmtR(HFunct7(op), 0, rs1, 0, rd, 0x53)) == Ok(F(H(op, rd, rs1)))
  {
    hide Split, FmtR, EOp, HOp, HFunct7, DecodeR, DecodeI, DecodeB, DecodeVW, DecodeOther;
    SplitR(HFunct7(op), 0, rs1, 0, rd, 0x53);
    FloatCodesInvert(Fadd, op, Fftoi);
  }

  lemma TripY(op: YInstr, rd: RegId, rs1: RegId)
    requires op != Fftoi
    ensures Decode(FmtR(0x51, 0, rs1, YFunct3(op), rd, 0x53)) == Ok(F(Y(op, rd, rs1)))
  {
    hide Split, FmtR, YOp, YFunct3, DecodeR, DecodeI, DecodeB, DecodeVW, DecodeOther;
    SplitR(0x51, 0, rs1, YFunct3(op), rd, 0x53);
    FloatCodesInvert(Fadd, Fsqrt, op);
  }

  /** The floating-point instructions with a code of their own. */
  lemma TripConvert(rd: RegId, rs1: RegId, rs2: RegId)
    ensures Decode(FmtR(0x51, rs2, rs1, 1, rd, 0x53)) == Ok(F(Flt(rd, rs1, rs2)))
    ensures Decode(FmtR(0x26, 0, rs1, 0, rd, 0x53)) == Ok(F(Fitof(rd, rs1)))
    ensures Decode(FmtR(0x45, 0, rs1, 0, rd, 0x53)) == Ok(F(Y(Fftoi, rd, rs1)))
  {
    hide Split, FmtR, DecodeR, DecodeI, DecodeB, DecodeVW, DecodeOther;
    SplitR(0x51, rs2, rs1, 1, rd, 0x53);
    SplitR(0x26, 0, rs1, 0, rd, 0x53);
    SplitR(0x45, 0, rs1, 0, rd, 0x53);
  }

  lemma TripVW(w: WInstr, v: VInstr, rs1: RegId, rs2: RegId, imm: bv32)
    requires Signed13Even(imm)
    ensures Decode(FmtB(imm, rs2, rs1, if w == Fblt then 1 else 2, 0x57)) == Ok(F(W(w, rs1, rs2, imm)))
    ensures Decode(FmtB(imm, 0, rs1, if v == Fbeqz then 4 else 7, 0x57)) == Ok(F(V(v, rs1, imm)))
  {
    hide Split, FmtB, Signed13Even, BImm, DecodeR, DecodeI, DecodeB, DecodeF, DecodeOther;
    SplitB(imm, rs2, rs1, if w == Fblt then 1 else 2, 0x57);
    SplitB(imm, 0, rs1, if v == Fbeqz then 4 else 7, 0x57);
  }

  lemma TripLoad(rd: RegId, rs1: RegId, imm: bv32)
    requires Signed12(imm)
    ensures Decode(FmtI(imm, rs1, 2, rd, 0x03)) == Ok(I(Lw, rd, rs1, imm))
    ensures Decode(FmtI(imm, rs1, 0, rd, 0x67)) == Ok(I(Jalr, rd, rs1, imm))
    ensures Decode(FmtI(imm, rs1, 2, rd, 0x07)) == Ok(F(Flw(rd, rs1, imm)))
  {
    hide Split, FmtI, Signed12, IImm, SImm, JImm, DecodeR, DecodeI, DecodeB, DecodeF, DecodeVW;
    SplitI(imm, rs1, 2, rd, 0x03);
    SplitI(imm, rs1, 0, rd, 0x67);
    SplitI(imm, rs1, 2, rd, 0x07);
  }

  lemma TripStore(rs1: RegId, rs2: RegId, imm: bv32)
    requires Signed12(imm)
    ensures Decode(FmtS(imm, rs2, rs1, 2, 0x23)) == Ok(Sw(rs1, rs2, imm))
    ensures Decode(FmtS(imm, rs2, rs1, 2, 0x27)) == Ok(F(Fsw(rs2, rs1, imm)))
  {
    hide Split, FmtS, Signed12, IImm, SImm, JImm, DecodeR, DecodeI, DecodeB, DecodeF, DecodeVW;
    SplitS(imm, rs2, rs1, 2, 0x23);
    SplitS(imm, rs2, rs1, 2, 0x27);
  }

  lemma TripJal(rd: RegId, imm: bv32)
    requires Signed21Even(imm)
    ensures Decode(FmtJ(imm, rd, 0x6F)) == Ok(Jal(rd, imm))
  {
    hide Split, FmtJ, Signed21Even, IImm, SImm, JImm, DecodeR, DecodeI, DecodeB, DecodeF, DecodeVW;
    SplitJ(imm, rd, 0x6F);
  }

  lemma TripIO(r: RegId)
    ensures Decode(FmtR(0, 0, r, 0, 0, 0x2B)) == Ok(IO(Outb(r)))
    ensures Decode(FmtR(0, 0, 0, 0, r, 0x0B)) == Ok(IO(Inw(r)))
    ensures Decode(FmtR(0, 0, 0, 0, r, 0x0F)) == Ok(IO(Finw(r)))
  {
    hide Split, FmtR, IImm, SImm, JImm, DecodeR, DecodeI, DecodeB, DecodeF, DecodeVW;
    SplitR(0, 0, r, 0, 0, 0x2B);
    SplitR(0, 0, 0, 0, r, 0x0B);
    SplitR(0, 0, 0, 0, r, 0x0F);
  }

  lemma DecodeEncodeF(f: FInstr)
    requires EncodableF(f)
    ensures Decode(EncodeF(f)) == Ok(F(f))
  {
    hide Decode, FmtR, FmtB, FmtI, FmtS, Signed12, Signed13Even, EFunct7, HFunct7;
    match f
    case E(op, rd, rs1, rs2) => TripE(op, rd, rs1, rs2);
    case H(op, rd, rs1) => TripH(op, rd, rs1);
    case Flt(rd, rs1, rs2) => TripConvert(rd, rs1, rs2);
    case Fitof(rd, rs1) => TripConvert(rd, rs1, 0);
    case Y(op, rd, rs1) => if op == Fftoi { TripConvert(rd, rs1, 0); } else { TripY(op, rd, rs1); }
    case W(op, rs1, rs2, imm) => TripVW(op, Fbeqz, rs1, rs2, imm);
    case V(op, rs1, imm) => TripVW(Fblt, op, rs1, 0, imm);
    case Flw(rd, rs1, imm) => TripLoad(rd, rs1, imm);
    case Fsw(rs2, rs1, imm) => TripStore(rs1, rs2, imm);
  }

  /** Main result: decoding inverts the encoder on every instruction of the set. */
  lemma DecodeEncode(i: Instr)
    requires Encodable(i)
    ensures Decode(Encode(i)) == Ok(i)
  {
    hide Decode, FmtR, FmtB, FmtI, FmtS, FmtJ, Signed12, Signed13Even, Signed21Even, RFunct7, RFunct3, BFunct3, EncodeF, EncodableF;
    match i
    case R(op, rd, rs1, rs2) => TripR(op, rd, rs1, rs2);
    case I(op, rd, rs1, imm) =>
      ShiftAmount(imm);
      if op == Lw || op == Jalr { TripLoad(rd, rs1, imm); } else { TripI(op, rd, rs1, imm); }
    case Sw(rs1, rs2, imm) => TripStore(rs1, rs2, imm);
    case B(op, rs1, rs2, imm) => TripB(op, rs1, rs2, imm);
    case Jal(rd, imm) => TripJal(rd, imm);
    case IO(Outb(r)) => TripIO(r);
    case IO(Inw(r)) => TripIO(r);
    case IO(Finw(r)) => TripIO(r);
    case F(f) => DecodeEncodeF(f);
    case End => EndWord();
  }

  lemma EndWord()
    ensures Decode(0) == Ok(End)
  {
  }

  lemma ShiftAmount(imm: bv32)
    ensures imm < 32 ==> Signed12(imm)
  {
  }

  /** Conversely, whatever is decoded is an instruction of the set: the decodable instructions
      are exactly the encodable ones. */
  lemma DecodeInRange(bin: bv32)
    ensures Decode(bin).Ok? ==> Encodable(Decode(bin).instr)
  {
    hide ROp, BOp, EOp, HOp, YOp, DecodeOther;
    OtherInRange(bin);
  }

  lemma OtherInRange(bin: bv32)
    ensures var r := DecodeOther(Split(bin), bin); r.Ok? ==> Encodable(r.instr)
  {
  }
}
