/** The instruction classes, their constants and the `__index__` encoders
    that pack an instruction's fields into its 32-bit word.

    The words follow the R, I, S, B, U and J layouts of sections 2.2-2.3 of
    the RISC-V Unprivileged ISA Specification (20191213). The branch and
    jump classes hold their immediate already halved: an SB immediate h
    encodes the byte offset 2h, and so does a UJ immediate. */
module Encoding {
  import opened Wrappers
  import opened Bits

  datatype ROp = Add | Sub | Sll | Xor | Srl | Sra | Or | And
  datatype LoadOp = Lb | Lh | Lw | Ld | Lbu | Lhu | Lwu
  datatype ImmOp = Addi | Slli | Xori | Srli | Srai | Ori | Andi
  datatype StoreOp = Sb | Sh | Sw | Sd
  datatype BranchOp = Beq | Bne | Blt | Bge | Bltu | Bgeu

  /** An instruction class: one per mnemonic. */
  datatype Kind =
    | KR(rop: ROp)
    | KLoad(lop: LoadOp)
    | KImm(iop: ImmOp)
    | KJalr
    | KStore(sop: StoreOp)
    | KBranch(bop: BranchOp)
    | KLui
    | KJal

  /** The encoder base class a class derives from. */
  datatype Format = R | I | S | SB | U | UJ

  function FormatOf(k: Kind): Format {
    match k
    case KR(_) => R
    case KLoad(_) => I
    case KImm(_) => I
    case KJalr => I
    case KStore(_) => S
    case KBranch(_) => SB
    case KLui => U
    case KJal => UJ
  }

  /** An instruction object: its class and the fields its constructor sets.
      The I-type classes call their source register `rs`. */
  datatype Instr =
    | RType(rop: ROp, rd: int, rs1: int, rs2: int)
    | Load(lop: LoadOp, rd: int, imm: int, rs: int)
    | AluImm(iop: ImmOp, rd: int, imm: int, rs: int)
    | Jalr(rd: int, imm: int, rs: int)
    | Store(sop: StoreOp, rs1: int, rs2: int, imm: int)
    | Branch(bop: BranchOp, rs1: int, rs2: int, imm: int)
    | Lui(rd: int, imm: int)
    | Jal(rd: int, imm: int)

  function KindOf(i: Instr): Kind {
    match i
    case RType(op, _, _, _) => KR(op)
    case Load(op, _, _, _) => KLoad(op)
    case AluImm(op, _, _, _) => KImm(op)
    case Jalr(_, _, _) => KJalr
    case Store(op, _, _, _) => KStore(op)
    case Branch(op, _, _, _) => KBranch(op)
    case Lui(_, _) => KLui
    case Jal(_, _) => KJal
  }

  // ---------------------------------------------------------------------
  // Class constants, as the classes declare them

  /** `opcode`. The branch classes declare 0b1100111, jalr's opcode. */
  function Opcode(k: Kind): nat {
    match k
    case KR(_) => 0x33
    case KLoad(_) => 0x03
    case KImm(_) => 0x13
    case KJalr => 0x67
    case KStore(_) => 0x23
    case KBranch(_) => 0x67
    case KLui => 0x37
    case KJal => 0x6f
  }

  /** `funct3`. The sra class declares `fucnt3` instead, so it has none,
      like lui and jal: reading it is AttributeError. lbu, xori and bltu
      declare the decimal literals 100, 100 and 110, and sd declares 0b111. */
  function Funct3(k: Kind): Result<int> {
    match k
    case KR(op) =>
      (match op
       case Add => Ok(0) case Sub => Ok(0) case Sll => Ok(1) case Xor => Ok(4)
       case Srl => Ok(5) case Sra => Err(AttributeError) case Or => Ok(6) case And => Ok(7))
    case KLoad(op) =>
      (match op
       case Lb => Ok(0) case Lh => Ok(1) case Lw => Ok(2) case Ld => Ok(3)
       case Lbu => Ok(100) case Lhu => Ok(5) case Lwu => Ok(6))
    case KImm(op) =>
      (match op
       case Addi => Ok(0) case Slli => Ok(1) case Xori => Ok(100) case Srli => Ok(5)
       case Srai => Ok(5) case Ori => Ok(6) case Andi => Ok(7))
    case KJalr => Ok(0)
    case KStore(op) =>
      (match op case Sb => Ok(0) case Sh => Ok(1) case Sw => Ok(2) case Sd => Ok(7))
    case KBranch(op) =>
      (match op
       case Beq => Ok(0) case Bne => Ok(1) case Blt => Ok(4) case Bge => Ok(5)
       case Bltu => Ok(110) case Bgeu => Ok(7))
    case KLui => Err(AttributeError)
    case KJal => Err(AttributeError)
  }

  /** `funct7`: only the R-type classes have one; sub's is 0b0100000 and
      sra's is 0, the same as srl's. */
  function Funct7(k: Kind): Result<int> {
    match k
    case KR(op) => Ok(if op == Sub then 0x20 else 0)
    case _ => Err(AttributeError)
  }

  // ---------------------------------------------------------------------
  // The format encoders

  /** Python's `x << k` for a constant k. */
  function Shl(x: int, k: nat): int {
    x * Pow2(k)
  }

  /** Python's `x >> k` for a constant k. */
  function Shr(x: int, k: nat): int {
    x / Pow2(k)
  }

  /** `InstructionR.__index__`. */
  function EncodeR(f7: int, rs2: int, rs1: int, f3: int, rd: int, op: int): int {
    BitOr(BitOr(BitOr(BitOr(BitOr(Shl(f7, 25), Shl(rs2, 20)), Shl(rs1, 15)), Shl(f3, 12)), Shl(rd, 7)), Shl(op, 0))
  }

  /** `InstructionI.__index__`. */
  function EncodeI(imm: int, rs: int, f3: int, rd: int, op: int): int {
    BitOr(BitOr(BitOr(BitOr(Shl(BitAnd(imm, 0xfff), 20), Shl(rs, 15)), Shl(f3, 12)), Shl(rd, 7)), Shl(op, 0))
  }

  /** `InstructionS.__index__`. */
  function EncodeS(imm: int, rs2: int, rs1: int, f3: int, op: int): int {
    BitOr(BitOr(BitOr(BitOr(BitOr(Shl(Shr(BitAnd(imm, 0xfe0), 5), 25), Shl(rs2, 20)), Shl(rs1, 15)),
                      Shl(f3, 12)), Shl(Shr(BitAnd(imm, 0x1f), 0), 7)), Shl(op, 0))
  }

  /** `InstructionSB.__index__`. */
  function EncodeSB(imm: int, rs2: int, rs1: int, f3: int, op: int): int {
    BitOr(BitOr(BitOr(BitOr(BitOr(BitOr(BitOr(
      Shl(Shr(BitAnd(imm, 0x800), 11), 31), Shl(Shr(BitAnd(imm, 0x3f0), 4), 25)), Shl(rs2, 20)),
      Shl(rs1, 15)), Shl(f3, 12)), Shl(Shr(BitAnd(imm, 0xf), 0), 8)), Shl(Shr(BitAnd(imm, 0x400), 10), 7)),
      Shl(op, 0))
  }

  /** `InstructionU.__index__`: the immediate is shifted unmasked. */
  function EncodeU(imm: int, rd: int, op: int): int {
    BitOr(BitOr(Shl(imm, 12), Shl(rd, 7)), Shl(op, 0))
  }

  /** `InstructionUJ.__index__`. */
  function EncodeUJ(imm: int, rd: int, op: int): int {
    BitOr(BitOr(BitOr(BitOr(BitOr(
      Shl(Shr(BitAnd(imm, 0x80000), 19), 31), Shl(Shr(BitAnd(imm, 0x3ff), 0), 21)),
      Shl(Shr(BitAnd(imm, 0x400), 10), 20)), Shl(Shr(BitAnd(imm, 0x7f800), 11), 12)), Shl(rd, 7)),
      Shl(op, 0))
  }

  /** `int(instruction)`: the class's encoder on its constants and the
      object's fields. Only sra fails, on its missing `funct3`. */
  function Encode(i: Instr): (r: Result<int>)
    ensures r.Err? <==> Funct3(KindOf(i)).Err? && i.RType?
    ensures r.Err? ==> r.error == AttributeError
  {
    var k := KindOf(i);
    match i
    case RType(_, rd, rs1, rs2) =>
      var f3 :- Funct3(k);
      Ok(EncodeR(Funct7(k).value, rs2, rs1, f3, rd, Opcode(k)))
    case Load(_, rd, imm, rs) => Ok(EncodeI(imm, rs, Funct3(k).value, rd, Opcode(k)))
    case AluImm(_, rd, imm, rs) => Ok(EncodeI(imm, rs, Funct3(k).value, rd, Opcode(k)))
    case Jalr(rd, imm, rs) => Ok(EncodeI(imm, rs, Funct3(k).value, rd, Opcode(k)))
    case Store(_, rs1, rs2, imm) => Ok(EncodeS(imm, rs2, rs1, Funct3(k).value, Opcode(k)))
    case Branch(_, rs1, rs2, imm) => Ok(EncodeSB(imm, rs2, rs1, Funct3(k).value, Opcode(k)))
    case Lui(rd, imm) => Ok(EncodeU(imm, rd, Opcode(k)))
    case Jal(rd, imm) => Ok(EncodeUJ(imm, rd, Opcode(k)))
  }

  // ---------------------------------------------------------------------
  // With every field within its width, the `|` of the shifted fields is
  // their sum: each encoder places each field at its own bits.

  /** `(x & mask) >> lo` for a contiguous mask of w bits from lo. */
  lemma Masked(x: int, mask: int, lo: nat, w: nat)
    requires mask == (Pow2(w) - 1) * Pow2(lo)
    ensures Shr(BitAnd(x, mask), lo) == Field(x, lo, w)
  {
    MaskedField(x, lo, w);
  }

  /** One `acc | (f << lo)` of an encoder, with pl = 2^lo and pw = 2^w
      given as numbers: when acc has its bits below lo + w clear and f has
      w bits, the `|` adds. */
  lemma OrStep(acc: int, c: int, f: int, lo: nat, w: nat, pl: int, pw: int)
    requires pl == Pow2(lo) && pw == Pow2(w) && 0 <= f < pw
    requires acc == (c * pw) * pl
    ensures BitOr(acc, Shl(f, lo)) == acc + f * pl
  {
    OrField(c, f, lo, w);
    Pow2Add(w, lo);
    var P := Pow2(lo + w);
    MulAssoc(c, pw, pl);
    assert BitOr(acc, Shl(f, lo)) == (c * pw + f) * pl;
  }

  /** R-type: funct7 in bits 31:25, rs2 in 24:20, rs1 in 19:15, funct3 in
      14:12, rd in 11:7 and the opcode in 6:0. */
  lemma EncodeRSum(f7: int, rs2: int, rs1: int, f3: int, rd: int, op: int)
    requires 0 <= rs2 < 32 && 0 <= rs1 < 32 && 0 <= f3 < 8 && 0 <= rd < 32 && 0 <= op < 128
    ensures EncodeR(f7, rs2, rs1, f3, rd, op)
      == f7 * 0x2000000 + rs2 * 0x100000 + rs1 * 0x8000 + f3 * 0x1000 + rd * 0x80 + op
  {
    Pow2Table();
    var a0 := Shl(f7, 25);
    var a1 := BitOr(a0, Shl(rs2, 20));
    OrStep(a0, f7, rs2, 20, 5, 0x100000, 32);
    var a2 := BitOr(a1, Shl(rs1, 15));
    OrStep(a1, f7 * 32 + rs2, rs1, 15, 5, 0x8000, 32);
    var a3 := BitOr(a2, Shl(f3, 12));
    OrStep(a2, (f7 * 32 + rs2) * 32 + rs1, f3, 12, 3, 0x1000, 8);
    var a4 := BitOr(a3, Shl(rd, 7));
    OrStep(a3, ((f7 * 32 + rs2) * 32 + rs1) * 8 + f3, rd, 7, 5, 0x80, 32);
    OrStep(a4, (((f7 * 32 + rs2) * 32 + rs1) * 8 + f3) * 32 + rd, op, 0, 7, 1, 128);
  }

  /** I-type: the immediate modulo 2^12 in bits 31:20, so a negative one
      appears in two's complement; rs in 19:15, funct3 in 14:12, rd in 11:7. */
  lemma EncodeISum(imm: int, rs: int, f3: int, rd: int, op: int)
    requires 0 <= rs < 32 && 0 <= f3 < 8 && 0 <= rd < 32 && 0 <= op < 128
    ensures EncodeI(imm, rs, f3, rd, op)
      == (imm % 0x1000) * 0x100000 + rs * 0x8000 + f3 * 0x1000 + rd * 0x80 + op
  {
    Pow2Table();
    AndLowMask(imm, 12);
    var c := imm % 0x1000;
    var a0 := Shl(BitAnd(imm, 0xfff), 20);
    assert a0 == c * 0x100000;
    var a1 := BitOr(a0, Shl(rs, 15));
    OrStep(a0, c, rs, 15, 5, 0x8000, 32);
    var a2 := BitOr(a1, Shl(f3, 12));
    OrStep(a1, c * 32 + rs, f3, 12, 3, 0x1000, 8);
    var a3 := BitOr(a2, Shl(rd, 7));
    OrStep(a2, (c * 32 + rs) * 8 + f3, rd, 7, 5, 0x80, 32);
    OrStep(a3, ((c * 32 + rs) * 8 + f3) * 32 + rd, op, 0, 7, 1, 128);
  }

  /** S-type: immediate bits 11:5 in bits 31:25, rs2 in 24:20, rs1 in
      19:15, funct3 in 14:12 and immediate bits 4:0 in 11:7. */
  lemma EncodeSSum(imm: int, rs2: int, rs1: int, f3: int, op: int)
    requires 0 <= rs2 < 32 && 0 <= rs1 < 32 && 0 <= f3 < 8 && 0 <= op < 128
    ensures EncodeS(imm, rs2, rs1, f3, op)
      == Field(imm, 5, 7) * 0x2000000 + rs2 * 0x100000 + rs1 * 0x8000 + f3 * 0x1000
         + Field(imm, 0, 5) * 0x80 + op
  {
    var hi, lo := Field(imm, 5, 7), Field(imm, 0, 5);
    var a0 := Shl(Shr(BitAnd(imm, 0xfe0), 5), 25);
    assert a0 == hi * 0x2000000 by {
      Pow2Table();
      Masked(imm, 0xfe0, 5, 7);
    }
    assert Shr(BitAnd(imm, 0x1f), 0) == lo by {
      Pow2Table();
      Masked(imm, 0x1f, 0, 5);
    }
    Pow2Table();
    var a1 := BitOr(a0, Shl(rs2, 20));
    OrStep(a0, hi, rs2, 20, 5, 0x100000, 32);
    var a2 := BitOr(a1, Shl(rs1, 15));
    OrStep(a1, hi * 32 + rs2, rs1, 15, 5, 0x8000, 32);
    var a3 := BitOr(a2, Shl(f3, 12));
    OrStep(a2, (hi * 32 + rs2) * 32 + rs1, f3, 12, 3, 0x1000, 8);
    var a4 := BitOr(a3, Shl(lo, 7));
    OrStep(a3, ((hi * 32 + rs2) * 32 + rs1) * 8 + f3, lo, 7, 5, 0x80, 32);
    OrStep(a4, (((hi * 32 + rs2) * 32 + rs1) * 8 + f3) * 32 + lo, op, 0, 7, 1, 128);
  }

  /** SB-type, on the halved immediate h: bit 11 of h in bit 31, bits 9:4
      in 30:25, rs2, rs1, funct3, bits 3:0 in 11:8 and bit 10 in bit 7,
      which is where the B layout puts bits 12, 10:5, 4:1 and 11 of 2h. */
  lemma EncodeSBSum(imm: int, rs2: int, rs1: int, f3: int, op: int)
    requires 0 <= rs2 < 32 && 0 <= rs1 < 32 && 0 <= f3 < 8 && 0 <= op < 128
    ensures EncodeSB(imm, rs2, rs1, f3, op)
      == Field(imm, 11, 1) * 0x80000000 + Field(imm, 4, 6) * 0x2000000 + rs2 * 0x100000
         + rs1 * 0x8000 + f3 * 0x1000 + Field(imm, 0, 4) * 0x100 + Field(imm, 10, 1) * 0x80 + op
  {
    var b11, b4, b0, b10 := Field(imm, 11, 1), Field(imm, 4, 6), Field(imm, 0, 4), Field(imm, 10, 1);
    var a0 := Shl(Shr(BitAnd(imm, 0x800), 11), 31);
    assert a0 == b11 * 0x80000000 by {
      Pow2Table();
      Masked(imm, 0x800, 11, 1);
    }
    assert Shr(BitAnd(imm, 0x3f0), 4) == b4 by {
      Pow2Table();
      Masked(imm, 0x3f0, 4, 6);
    }
    assert Shr(BitAnd(imm, 0xf), 0) == b0 by {
      Pow2Table();
      Masked(imm, 0xf, 0, 4);
    }
    assert Shr(BitAnd(imm, 0x400), 10) == b10 by {
      Pow2Table();
      Masked(imm, 0x400, 10, 1);
    }
    Pow2Table();
    var a1 := BitOr(a0, Shl(b4, 25));
    OrStep(a0, b11, b4, 25, 6, 0x2000000, 64);
    var c1 := b11 * 64 + b4;
    var a2 := BitOr(a1, Shl(rs2, 20));
    OrStep(a1, c1, rs2, 20, 5, 0x100000, 32);
    var a3 := BitOr(a2, Shl(rs1, 15));
    OrStep(a2, c1 * 32 + rs2, rs1, 15, 5, 0x8000, 32);
    var c2 := (c1 * 32 + rs2) * 32 + rs1;
    var a4 := BitOr(a3, Shl(f3, 12));
    OrStep(a3, c2, f3, 12, 3, 0x1000, 8);
    var a5 := BitOr(a4, Shl(b0, 8));
    OrStep(a4, c2 * 8 + f3, b0, 8, 4, 0x100, 16);
    var a6 := BitOr(a5, Shl(b10, 7));
    OrStep(a5, (c2 * 8 + f3) * 16 + b0, b10, 7, 1, 0x80, 2);
    OrStep(a6, ((c2 * 8 + f3) * 16 + b0) * 2 + b10, op, 0, 7, 1, 128);
  }

  /** U-type: the immediate times 2^12, whatever its size, plus rd in bits
      11:7 and the opcode. */
  lemma EncodeUSum(imm: int, rd: int, op: int)
    requires 0 <= rd < 32 && 0 <= op < 128
    ensures EncodeU(imm, rd, op) == imm * 0x1000 + rd * 0x80 + op
  {
    Pow2Table();
    var a0 := Shl(imm, 12);
    var a1 := BitOr(a0, Shl(rd, 7));
    OrStep(a0, imm, rd, 7, 5, 0x80, 32);
    OrStep(a1, imm * 32 + rd, op, 0, 7, 1, 128);
  }

  /** UJ-type, on the halved immediate h: bit 19 of h in bit 31, bits 9:0
      in 30:21, bit 10 in 20 and bits 18:11 in 19:12, which is where the J
      layout puts bits 20, 10:1, 11 and 19:12 of 2h. */
  lemma EncodeUJSum(imm: int, rd: int, op: int)
    requires 0 <= rd < 32 && 0 <= op < 128
    ensures EncodeUJ(imm, rd, op)
      == Field(imm, 19, 1) * 0x80000000 + Field(imm, 0, 10) * 0x200000 + Field(imm, 10, 1) * 0x100000
         + Field(imm, 11, 8) * 0x1000 + rd * 0x80 + op
  {
    var b19, b0, b10, b11 := Field(imm, 19, 1), Field(imm, 0, 10), Field(imm, 10, 1), Field(imm, 11, 8);
    var a0 := Shl(Shr(BitAnd(imm, 0x80000), 19), 31);
    assert a0 == b19 * 0x80000000 by {
      Pow2Table();
      Masked(imm, 0x80000, 19, 1);
    }
    assert Shr(BitAnd(imm, 0x3ff), 0) == b0 by {
      Pow2Table();
      Masked(imm, 0x3ff, 0, 10);
    }
    assert Shr(BitAnd(imm, 0x400), 10) == b10 by {
      Pow2Table();
      Masked(imm, 0x400, 10, 1);
    }
    assert Shr(BitAnd(imm, 0x7f800), 11) == b11 by {
      Pow2Table();
      Masked(imm, 0x7f800, 11, 8);
    }
    Pow2Table();
    var a1 := BitOr(a0, Shl(b0, 21));
    OrStep(a0, b19, b0, 21, 10, 0x200000, 1024);
    var a2 := BitOr(a1, Shl(b10, 20));
    OrStep(a1, b19 * 1024 + b0, b10, 20, 1, 0x100000, 2);
    var a3 := BitOr(a2, Shl(b11, 12));
    OrStep(a2, (b19 * 1024 + b0) * 2 + b10, b11, 12, 8, 0x1000, 256);
    var a4 := BitOr(a3, Shl(rd, 7));
    OrStep(a3, ((b19 * 1024 + b0) * 2 + b10) * 256 + b11, rd, 7, 5, 0x80, 32);
    OrStep(a4, (((b19 * 1024 + b0) * 2 + b10) * 256 + b11) * 32 + rd, op, 0, 7, 1, 128);
  }

  // ---------------------------------------------------------------------
  // The word of each class, with its fields in range

  /** An R-type word: funct7, rs2, rs1, funct3, rd and the opcode side by
      side. sra is left out: it has no word. */
  lemma EncodeRWord(i: Instr)
    requires i.RType? && i.rop != Sra
    requires 0 <= i.rd < 32 && 0 <= i.rs1 < 32 && 0 <= i.rs2 < 32
    ensures Funct3(KindOf(i)).Ok? && Funct3(KindOf(i)).value < 8
    ensures Encode(i) == Ok(Funct7(KindOf(i)).value * 0x2000000 + i.rs2 * 0x100000 + i.rs1 * 0x8000
                            + Funct3(KindOf(i)).value * 0x1000 + i.rd * 0x80 + 0x33)
  {
    hide EncodeR, EncodeI, EncodeS, EncodeSB, EncodeU, EncodeUJ, BitOr, BitAnd;
    var k := KindOf(i);
    EncodeRSum(Funct7(k).value, i.rs2, i.rs1, Funct3(k).value, i.rd, 0x33);
  }

  /** An I-type word (loads, the immediate ALU classes and jalr) whose
      class declares a 3-bit funct3: the immediate modulo 2^12, rs, funct3,
      rd and the opcode side by side. */
  lemma EncodeIWord(i: Instr)
    requires i.Load? || i.AluImm? || i.Jalr?
    requires 0 <= i.rd < 32 && 0 <= i.rs < 32 && Funct3(KindOf(i)).value < 8
    ensures Encode(i) == Ok((i.imm % 0x1000) * 0x100000 + i.rs * 0x8000
                            + Funct3(KindOf(i)).value * 0x1000 + i.rd * 0x80 + Opcode(KindOf(i)))
  {
    hide EncodeR, EncodeI, EncodeS, EncodeSB, EncodeU, EncodeUJ, BitOr, BitAnd;
    var k := KindOf(i);
    EncodeISum(i.imm, i.rs, Funct3(k).value, i.rd, Opcode(k));
  }

  /** An S-type word: immediate bits 11:5, rs2, rs1, funct3, immediate
      bits 4:0 and the opcode side by side. */
  lemma EncodeSWord(i: Instr)
    requires i.Store? && 0 <= i.rs1 < 32 && 0 <= i.rs2 < 32 && Funct3(KindOf(i)).value < 8
    ensures Encode(i) == Ok(Field(i.imm, 5, 7) * 0x2000000 + i.rs2 * 0x100000 + i.rs1 * 0x8000
                            + Funct3(KindOf(i)).value * 0x1000 + Field(i.imm, 0, 5) * 0x80 + 0x23)
  {
    hide EncodeR, EncodeI, EncodeS, EncodeSB, EncodeU, EncodeUJ, BitOr, BitAnd;
    EncodeSSum(i.imm, i.rs2, i.rs1, Funct3(KindOf(i)).value, 0x23);
  }

  /** An SB-type word: bits 11, 9:4, 3:0 and 10 of the halved immediate
      around rs2, rs1 and funct3, with the declared opcode. */
  lemma EncodeSBWord(i: Instr)
    requires i.Branch? && 0 <= i.rs1 < 32 && 0 <= i.rs2 < 32 && Funct3(KindOf(i)).value < 8
    ensures Encode(i) == Ok(Field(i.imm, 11, 1) * 0x80000000 + Field(i.imm, 4, 6) * 0x2000000
                            + i.rs2 * 0x100000 + i.rs1 * 0x8000 + Funct3(KindOf(i)).value * 0x1000
                            + Field(i.imm, 0, 4) * 0x100 + Field(i.imm, 10, 1) * 0x80 + 0x67)
  {
    hide EncodeR, EncodeI, EncodeS, EncodeSB, EncodeU, EncodeUJ, BitOr, BitAnd;
    EncodeSBSum(i.imm, i.rs2, i.rs1, Funct3(KindOf(i)).value, 0x67);
  }

  /** lui's word: the immediate times 2^12, rd and the opcode. */
  lemma EncodeUWord(i: Instr)
    requires i.Lui? && 0 <= i.rd < 32
    ensures Encode(i) == Ok(i.imm * 0x1000 + i.rd * 0x80 + 0x37)
  {
    hide EncodeR, EncodeI, EncodeS, EncodeSB, EncodeU, EncodeUJ, BitOr, BitAnd;
    EncodeUSum(i.imm, i.rd, 0x37);
  }

  /** jal's word: bits 19, 9:0, 10 and 18:11 of the halved immediate, rd
      and the opcode. */
  lemma EncodeUJWord(i: Instr)
    requires i.Jal? && 0 <= i.rd < 32
    ensures Encode(i) == Ok(Field(i.imm, 19, 1) * 0x80000000 + Field(i.imm, 0, 10) * 0x200000
                            + Field(i.imm, 10, 1) * 0x100000 + Field(i.imm, 11, 8) * 0x1000
                            + i.rd * 0x80 + 0x6f)
  {
    hide EncodeR, EncodeI, EncodeS, EncodeSB, EncodeU, EncodeUJ, BitOr, BitAnd;
    EncodeUJSum(i.imm, i.rd, 0x6f);
  }

  // ---------------------------------------------------------------------
  // The words of the factory test

  /** `add x3, x2, x1`. */
  lemma EncodeAddExample()
    ensures Encode(RType(Add, 3, 2, 1)) == Ok(0x001101b3)
  {
    hide Encode, EncodeR, EncodeI, EncodeS, EncodeSB, EncodeU, EncodeUJ, BitOr, BitAnd;
    EncodeRWord(RType(Add, 3, 2, 1));
  }

  /** `addi x2, x1, -100`: the immediate appears as 0xf9c. */
  lemma EncodeAddiExample()
    ensures Encode(AluImm(Addi, 2, -100, 1)) == Ok(0xf9c08113)
  {
    hide Encode, EncodeR, EncodeI, EncodeS, EncodeSB, EncodeU, EncodeUJ, BitOr, BitAnd;
    EncodeIWord(AluImm(Addi, 2, -100, 1));
    assert -100 % 0x1000 == 0xf9c;
  }

  /** `lw x2, -100(x1)`. */
  lemma EncodeLwExample()
    ensures Encode(Load(Lw, 2, -100, 1)) == Ok(0xf9c0a103)
  {
    hide Encode, EncodeR, EncodeI, EncodeS, EncodeSB, EncodeU, EncodeUJ, BitOr, BitAnd;
    EncodeIWord(Load(Lw, 2, -100, 1));
    assert -100 % 0x1000 == 0xf9c;
  }

  /** `slli x2, x1, 12`. */
  lemma EncodeSlliExample()
    ensures Encode(AluImm(Slli, 2, 12, 1)) == Ok(0x00c09113)
  {
    hide Encode, EncodeR, EncodeI, EncodeS, EncodeSB, EncodeU, EncodeUJ, BitOr, BitAnd;
    EncodeIWord(AluImm(Slli, 2, 12, 1));
    assert 12 % 0x1000 == 12;
  }

  /** `jalr x2, -100(x1)`. */
  lemma EncodeJalrExample()
    ensures Encode(Jalr(2, -100, 1)) == Ok(0xf9c08167)
  {
    hide Encode, EncodeR, EncodeI, EncodeS, EncodeSB, EncodeU, EncodeUJ, BitOr, BitAnd;
    EncodeIWord(Jalr(2, -100, 1));
    assert -100 % 0x1000 == 0xf9c;
  }

  /** `lui x1, 1234`. */
  lemma EncodeLuiExample()
    ensures Encode(Lui(1, 1234)) == Ok(0x004d20b7)
  {
    hide Encode, EncodeR, EncodeI, EncodeS, EncodeSB, EncodeU, EncodeUJ, BitOr, BitAnd;
    EncodeUWord(Lui(1, 1234));
  }

  /** The immediate fields of the S, SB and UJ examples. */
  lemma ExampleFields()
    ensures Field(100, 5, 7) == 3 && Field(100, 0, 5) == 4
    ensures Field(-100, 11, 1) == 1 && Field(-100, 4, 6) == 57
    ensures Field(-100, 0, 4) == 12 && Field(-100, 10, 1) == 1
    ensures Field(-200, 19, 1) == 1 && Field(-200, 0, 10) == 824
    ensures Field(-200, 10, 1) == 1 && Field(-200, 11, 8) == 255
  {
    Pow2Table();
    assert Pow2(0) == 1;
    hide Pow2;
  }

  /** `sw x2, 100(x1)`: immediate bits 11:5 are 3 and bits 4:0 are 4. */
  lemma EncodeSwExample()
    ensures Encode(Store(Sw, 1, 2, 100)) == Ok(0x0620a223)
  {
    hide Encode, EncodeR, EncodeI, EncodeS, EncodeSB, EncodeU, EncodeUJ, BitOr, BitAnd;
    EncodeSWord(Store(Sw, 1, 2, 100));
    ExampleFields();
  }

  /** `beq x1, x2, -100`, with the branch opcode as declared. */
  lemma EncodeBeqExample()
    ensures Encode(Branch(Beq, 1, 2, -100)) == Ok(0xf2208ce7)
  {
    hide Encode, EncodeR, EncodeI, EncodeS, EncodeSB, EncodeU, EncodeUJ, BitOr, BitAnd;
    EncodeSBWord(Branch(Beq, 1, 2, -100));
    ExampleFields();
  }

  /** `jal x1, -200`. */
  lemma EncodeJalExample()
    ensures Encode(Jal(1, -200)) == Ok(0xe71ff0ef)
  {
    hide Encode, EncodeR, EncodeI, EncodeS, EncodeSB, EncodeU, EncodeUJ, BitOr, BitAnd;
    EncodeUJWord(Jal(1, -200));
    ExampleFields();
  }

  /** `int(SraInstruction(...))` raises: the class has no `funct3`. */
  lemma SraHasNoWord(rd: int, rs1: int, rs2: int)
    ensures Encode(RType(Sra, rd, rs1, rs2)) == Err(AttributeError)
  {
  }
}
