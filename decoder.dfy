/** `InstructionFactory.__translate_int`: from a word back to an
    instruction object.

    As written, the decoder cuts the fixed fields out of the word, keeps
    the classes of `instruction_classes` whose `opcode` matches, picks the
    layout from the first of them, filters on `funct3` (and `funct7` for
    R), asserts that one class is left, reassembles the immediate and then
    raises `Warning` in every branch but R. The R branch reads `funct3` of
    the sra class, which has none. So no word decodes.

    The corrected decoder below drops the `raise Warning`s, uses the field
    values RISC-V assigns (sections 2.4-2.6 and chapter 5 of the RISC-V
    Unprivileged ISA Specification, 20191213) where the classes declare
    colliding or out-of-range constants, keeps five immediate bits in the
    S layout, and tells srli from srai by the funct6 field. It inverts the
    corrected encoder. */
module Decoder {
  import opened Wrappers
  import opened Bits
  import opened Encoding
  import opened Classes

  // ---------------------------------------------------------------------
  // Fields and immediates, as `__translate_int` computes them

  /** The six fields cut out of the word before anything else. */
  datatype Fields = Fields(opcode: nat, funct3: nat, funct7: nat, rd: nat, rs1: nat, rs2: nat)

  function FieldsOf(value: int): (f: Fields)
    ensures f.opcode < 128 && f.funct3 < 8 && f.funct7 < 128
    ensures f.rd < 32 && f.rs1 < 32 && f.rs2 < 32
  {
    Pow2Table();
    Fields(Field(value, 0, 7), Field(value, 12, 3), Field(value, 25, 7),
           Field(value, 7, 5), Field(value, 15, 5), Field(value, 20, 5))
  }

  /** The I immediate: `(value >> 20) & 0x0fff`. */
  function ImmI(value: int): nat {
    Field(value, 20, 12)
  }

  /** The S immediate as written: bits 31:25 above bits 10:7. The mask
      `0b1111` keeps four of the five low immediate bits in 11:7. */
  function ImmS(value: int): int {
    BitOr(Shl(Field(value, 25, 7), 5), Shl(Field(value, 7, 4), 0))
  }

  /** The SB immediate: bits 31, 30:25, 11:8 and 7 put back as bits 12,
      10:5, 4:1 and 11 of the byte offset, which is then halved. */
  function ImmSB(value: int): int {
    Shr(BitOr(BitOr(BitOr(Shl(Field(value, 31, 1), 12), Shl(Field(value, 25, 6), 5)),
                    Shl(Field(value, 8, 4), 1)), Shl(Field(value, 7, 1), 11)), 1)
  }

  /** The U immediate: `((value >> 12) & 0x0fffff) << 0`. */
  function ImmU(value: int): int {
    Shl(Field(value, 12, 20), 0)
  }

  /** The UJ immediate: bits 31, 30:21, 20 and 19:12 put back as bits 20,
      10:1, 11 and 19:12 of the byte offset, which is then halved. */
  function ImmUJ(value: int): int {
    Shr(BitOr(BitOr(BitOr(Shl(Field(value, 31, 1), 20), Shl(Field(value, 21, 10), 1)),
                    Shl(Field(value, 20, 1), 11)), Shl(Field(value, 12, 8), 12)), 1)
  }

  /** The immediate each non-R branch computes just before it raises. */
  function ImmOf(format: Format, value: int): int {
    match format
    case R => 0
    case I => ImmI(value)
    case S => ImmS(value)
    case SB => ImmSB(value)
    case U => ImmU(value)
    case UJ => ImmUJ(value)
  }

  /** The `|` of the S immediate adds its two pieces. */
  lemma ImmSSum(value: int)
    ensures ImmS(value) == Field(value, 25, 7) * 32 + Field(value, 7, 4)
  {
    Pow2Table();
    assert Pow2(0) == 1;
    var a := Field(value, 25, 7);
    hide Field;
    OrStep(Shl(a, 5), 2 * a, Field(value, 7, 4), 0, 4, 1, 16);
  }

  /** The `|`s of the SB immediate add their four pieces. */
  lemma ImmSBSum(value: int)
    ensures ImmSB(value) == Field(value, 31, 1) * 2048 + Field(value, 7, 1) * 1024
                            + Field(value, 25, 6) * 16 + Field(value, 8, 4)
  {
    Pow2Table();
    var t, m, l, s := Field(value, 31, 1), Field(value, 25, 6), Field(value, 8, 4), Field(value, 7, 1);
    hide Field;
    var a1 := BitOr(Shl(t, 12), Shl(m, 5));
    OrStep(Shl(t, 12), 2 * t, m, 5, 6, 32, 64);
    var a2 := BitOr(a1, Shl(l, 1));
    OrStep(a1, 128 * t + m, l, 1, 4, 2, 16);
    OrIntoAt(a2, Shl(s, 11), t, s, 32 * m + 2 * l, 11, 1);
  }

  /** The `|`s of the UJ immediate add their four pieces. */
  lemma ImmUJSum(value: int)
    ensures ImmUJ(value) == Field(value, 31, 1) * 0x80000 + Field(value, 12, 8) * 0x800
                            + Field(value, 20, 1) * 0x400 + Field(value, 21, 10)
  {
    Pow2Table();
    var t, m, s, u := Field(value, 31, 1), Field(value, 21, 10), Field(value, 20, 1), Field(value, 12, 8);
    hide Field;
    var a1 := BitOr(Shl(t, 20), Shl(m, 1));
    OrStep(Shl(t, 20), 512 * t, m, 1, 10, 2, 1024);
    var a2 := BitOr(a1, Shl(s, 11));
    OrIntoAt(a1, Shl(s, 11), 256 * t, s, 2 * m, 11, 1);
    OrIntoAt(a2, Shl(u, 12), t, u, 2048 * s + 2 * m, 12, 8);
  }

  // ---------------------------------------------------------------------
  // The fields of the encoders' words

  /** A word laid out as an R word: a 7-bit field at 25, 5-bit fields at
      20 and 15, a 3-bit field at 12, a 5-bit field at 7 and the 7-bit
      opcode. The decoder cuts these six fields back out. */
  lemma WordAt(w: int, a: int, b: int, c: int, d: int, e: int, g: int)
    requires 0 <= a < 128 && 0 <= b < 32 && 0 <= c < 32 && 0 <= d < 8 && 0 <= e < 32 && 0 <= g < 128
    requires w == a * 0x2000000 + b * 0x100000 + c * 0x8000 + d * 0x1000 + e * 0x80 + g
    ensures FieldsOf(w) == Fields(g, d, a, e, c, b)
  {
    hide Field;
    Pow2Table();
    assert Pow2(0) == 1;
    FieldAt(w, a * 0x40000 + b * 0x2000 + c * 0x100 + d * 0x20 + e, g, 0, 0, 7);
    FieldAt(w, a * 0x400 + b * 0x20 + c, d, e * 0x80 + g, 12, 3);
    FieldAt(w, 0, a, b * 0x100000 + c * 0x8000 + d * 0x1000 + e * 0x80 + g, 25, 7);
    FieldAt(w, a * 0x2000 + b * 0x100 + c * 8 + d, e, g, 7, 5);
    FieldAt(w, a * 0x20 + b, c, d * 0x1000 + e * 0x80 + g, 15, 5);
    FieldAt(w, a, b, c * 0x8000 + d * 0x1000 + e * 0x80 + g, 20, 5);
  }

  /** An R word gives back its six fields. */
  lemma RWord(f7: int, rs2: int, rs1: int, f3: int, rd: int, op: int)
    requires 0 <= f7 < 128 && 0 <= rs2 < 32 && 0 <= rs1 < 32 && 0 <= f3 < 8 && 0 <= rd < 32 && 0 <= op < 128
    ensures FieldsOf(EncodeR(f7, rs2, rs1, f3, rd, op)) == Fields(op, f3, f7, rd, rs1, rs2)
  {
    EncodeRSum(f7, rs2, rs1, f3, rd, op);
    var w := EncodeR(f7, rs2, rs1, f3, rd, op);
    hide EncodeR;
    WordAt(w, f7, rs2, rs1, f3, rd, op);
  }

  /** An I word with an immediate in [0, 2^12) gives back rs, funct3, rd,
      the opcode and the immediate, and its top six bits are the
      immediate's. */
  lemma IWord(imm: int, rs: int, f3: int, rd: int, op: int)
    requires 0 <= imm < 0x1000 && 0 <= rs < 32 && 0 <= f3 < 8 && 0 <= rd < 32 && 0 <= op < 128
    ensures var w := EncodeI(imm, rs, f3, rd, op);
            && FieldsOf(w).opcode == op && FieldsOf(w).funct3 == f3 && FieldsOf(w).rd == rd
            && FieldsOf(w).rs1 == rs && ImmI(w) == imm
            && Field(w, 26, 6) == imm / 64 && Field(w, 20, 6) == imm % 64
  {
    EncodeISum(imm, rs, f3, rd, op);
    var w := EncodeI(imm, rs, f3, rd, op);
    hide EncodeI, Field, FieldsOf, ImmI;
    IAt(w, imm / 64, imm % 64, rs, f3, rd, op);
  }

  /** The fields of a word laid out as an I word whose immediate has the
      six-bit halves hi and lo. */
  lemma IAt(w: int, hi: int, lo: int, rs: int, f3: int, rd: int, op: int)
    requires 0 <= hi < 64 && 0 <= lo < 64 && 0 <= rs < 32 && 0 <= f3 < 8 && 0 <= rd < 32 && 0 <= op < 128
    requires w == (hi * 64 + lo) * 0x100000 + rs * 0x8000 + f3 * 0x1000 + rd * 0x80 + op
    ensures FieldsOf(w).opcode == op && FieldsOf(w).funct3 == f3 && FieldsOf(w).rd == rd
    ensures FieldsOf(w).rs1 == rs && ImmI(w) == hi * 64 + lo
    ensures Field(w, 26, 6) == hi && Field(w, 20, 6) == lo
  {
    hide Field;
    Pow2Table();
    assert Pow2(0) == 1;
    assert Pow2(26) == 0x4000000;
    var imm := hi * 64 + lo;
    var low := f3 * 0x1000 + rd * 0x80 + op;
    FieldAt(w, imm * 0x2000 + rs * 0x100 + f3 * 0x20 + rd, op, 0, 0, 7);
    FieldAt(w, imm * 0x20 + rs, f3, rd * 0x80 + op, 12, 3);
    FieldAt(w, imm * 0x100 + rs * 8 + f3, rd, op, 7, 5);
    FieldAt(w, imm, rs, low, 15, 5);
    FieldAt(w, 0, imm, rs * 0x8000 + low, 20, 12);
    FieldAt(w, 0, hi, lo * 0x100000 + rs * 0x8000 + low, 26, 6);
    FieldAt(w, hi, lo, rs * 0x8000 + low, 20, 6);
  }

  /** The S immediate splits as bits 11:5 above bit 4 above bits 3:0. */
  lemma SDigits(imm: int)
    requires 0 <= imm < 0x1000
    ensures imm == Field(imm, 5, 7) * 32 + Field(imm, 4, 1) * 16 + Field(imm, 0, 4)
    ensures Field(imm, 0, 5) == Field(imm, 4, 1) * 16 + Field(imm, 0, 4)
  {
    Pow2Table();
    assert Pow2(0) == 1;
    FieldSplit(imm, 0, 5, 7);
    FieldSplit(imm, 0, 4, 1);
    DivModUnique(imm, 0x1000, 0, imm);
  }

  /** An S word with an immediate in [0, 2^12) gives back its fields. The
      decoder as written loses bit 4 of the immediate; five low bits give
      the immediate back. */
  lemma SWord(imm: int, rs2: int, rs1: int, f3: int, op: int)
    requires 0 <= imm < 0x1000 && 0 <= rs2 < 32 && 0 <= rs1 < 32 && 0 <= f3 < 8 && 0 <= op < 128
    ensures var w := EncodeS(imm, rs2, rs1, f3, op);
            && FieldsOf(w).opcode == op && FieldsOf(w).funct3 == f3
            && FieldsOf(w).rs1 == rs1 && FieldsOf(w).rs2 == rs2
            && ImmS(w) == imm - Field(imm, 4, 1) * 16
            && ImmSFixed(w) == imm
  {
    var hi, b4, b0 := Field(imm, 5, 7), Field(imm, 4, 1), Field(imm, 0, 4);
    EncodeSSum(imm, rs2, rs1, f3, op);
    SDigits(imm);
    var w := EncodeS(imm, rs2, rs1, f3, op);
    hide EncodeS;
    ImmSSum(w);
    ImmSFixedSum(w);
    hide Field, ImmS, ImmSFixed;
    Pow2Table();
    WordAt(w, hi, rs2, rs1, f3, b4 * 16 + b0, op);
    FieldAt(w, hi * 0x4000 + rs2 * 0x200 + rs1 * 0x10 + f3 * 2 + b4, b0, op, 7, 4);
  }

  /** The SB immediate splits as bits 11, 10, 9:4 and 3:0. */
  lemma SBDigits(h: int)
    requires 0 <= h < 0x1000
    ensures h == Field(h, 11, 1) * 2048 + Field(h, 10, 1) * 1024 + Field(h, 4, 6) * 16 + Field(h, 0, 4)
  {
    Pow2Table();
    assert Pow2(0) == 1;
    FieldSplit(h, 0, 4, 8);
    FieldSplit(h, 4, 6, 2);
    FieldSplit(h, 10, 1, 1);
    DivModUnique(h, 0x1000, 0, h);
  }

  /** An SB word with a halved immediate in [0, 2^12) gives back its fields
      and the immediate. */
  lemma SBWord(h: int, rs2: int, rs1: int, f3: int, op: int)
    requires 0 <= h < 0x1000 && 0 <= rs2 < 32 && 0 <= rs1 < 32 && 0 <= f3 < 8 && 0 <= op < 128
    ensures var w := EncodeSB(h, rs2, rs1, f3, op);
            && FieldsOf(w).opcode == op && FieldsOf(w).funct3 == f3
            && FieldsOf(w).rs1 == rs1 && FieldsOf(w).rs2 == rs2
            && ImmSB(w) == h
  {
    var b11, b4, b0, b10 := Field(h, 11, 1), Field(h, 4, 6), Field(h, 0, 4), Field(h, 10, 1);
    EncodeSBSum(h, rs2, rs1, f3, op);
    SBDigits(h);
    var w := EncodeSB(h, rs2, rs1, f3, op);
    hide EncodeSB;
    ImmSBSum(w);
    hide Field, ImmSB;
    Pow2Table();
    WordAt(w, b11 * 64 + b4, rs2, rs1, f3, b0 * 2 + b10, op);
    var low := rs2 * 0x100000 + rs1 * 0x8000 + f3 * 0x1000 + (b0 * 2 + b10) * 0x80 + op;
    FieldAt(w, 0, b11, b4 * 0x2000000 + low, 31, 1);
    FieldAt(w, b11, b4, low, 25, 6);
    var top := b11 * 0x80000 + b4 * 0x2000 + rs2 * 0x100 + rs1 * 8 + f3;
    FieldAt(w, top, b0, b10 * 0x80 + op, 8, 4);
    FieldAt(w, top * 16 + b0, b10, op, 7, 1);
  }

  /** A U word with an immediate in [0, 2^20) gives back rd, the opcode and
      the immediate. */
  lemma UWord(imm: int, rd: int, op: int)
    requires 0 <= imm < 0x100000 && 0 <= rd < 32 && 0 <= op < 128
    ensures var w := EncodeU(imm, rd, op);
            FieldsOf(w).opcode == op && FieldsOf(w).rd == rd && ImmU(w) == imm
  {
    EncodeUSum(imm, rd, op);
    var w := EncodeU(imm, rd, op);
    hide EncodeU, Field;
    Pow2Table();
    assert Pow2(0) == 1;
    FieldAt(w, imm * 32 + rd, op, 0, 0, 7);
    FieldAt(w, imm, rd, op, 7, 5);
    FieldAt(w, 0, imm, rd * 0x80 + op, 12, 20);
  }

  /** The UJ immediate splits as bits 19, 18:11, 10 and 9:0. */
  lemma UJDigits(h: int)
    requires 0 <= h < 0x100000
    ensures h == Field(h, 19, 1) * 0x80000 + Field(h, 11, 8) * 0x800 + Field(h, 10, 1) * 0x400
                 + Field(h, 0, 10)
  {
    Pow2Table();
    assert Pow2(0) == 1;
    FieldSplit(h, 0, 10, 10);
    FieldSplit(h, 10, 1, 9);
    FieldSplit(h, 11, 8, 1);
    DivModUnique(h, 0x100000, 0, h);
  }

  /** A UJ word with a halved immediate in [0, 2^20) gives back rd, the
      opcode and the immediate. */
  lemma UJWord(h: int, rd: int, op: int)
    requires 0 <= h < 0x100000 && 0 <= rd < 32 && 0 <= op < 128
    ensures var w := EncodeUJ(h, rd, op);
            FieldsOf(w).opcode == op && FieldsOf(w).rd == rd && ImmUJ(w) == h
  {
    var b19, b0, b10, b11 := Field(h, 19, 1), Field(h, 0, 10), Field(h, 10, 1), Field(h, 11, 8);
    EncodeUJSum(h, rd, op);
    UJDigits(h);
    var w := EncodeUJ(h, rd, op);
    hide EncodeUJ;
    ImmUJSum(w);
    hide Field, ImmUJ;
    Pow2Table();
    UJAt(w, b19, b0, b10, b11, rd, op);
  }

  /** The fields of a word laid out as a UJ word. */
  lemma UJAt(w: int, b19: int, b0: int, b10: int, b11: int, rd: int, op: int)
    requires 0 <= b19 < 2 && 0 <= b0 < 1024 && 0 <= b10 < 2 && 0 <= b11 < 256 && 0 <= rd < 32 && 0 <= op < 128
    requires w == b19 * 0x80000000 + b0 * 0x200000 + b10 * 0x100000 + b11 * 0x1000 + rd * 0x80 + op
    ensures FieldsOf(w).opcode == op && FieldsOf(w).rd == rd
    ensures Field(w, 31, 1) == b19 && Field(w, 21, 10) == b0 && Field(w, 20, 1) == b10 && Field(w, 12, 8) == b11
  {
    hide Field;
    Pow2Table();
    assert Pow2(0) == 1;
    var c := b19 * 0x800 + b0 * 2 + b10;
    FieldAt(w, c * 0x100 + b11, rd, op, 7, 5);
    FieldAt(w, (c * 0x100 + b11) * 32 + rd, op, 0, 0, 7);
    var low := rd * 0x80 + op;
    FieldAt(w, 0, b19, b0 * 0x200000 + b10 * 0x100000 + b11 * 0x1000 + low, 31, 1);
    FieldAt(w, b19, b0, b10 * 0x100000 + b11 * 0x1000 + low, 21, 10);
    FieldAt(w, b19 * 0x400 + b0, b10, b11 * 0x1000 + low, 20, 1);
    FieldAt(w, c, b11, low, 12, 8);
  }

  // ---------------------------------------------------------------------
  // Choosing the class, as written

  /** `filter(lambda i: i.opcode == opcode, ...)`: the classes with the
      word's opcode, in the dictionary's order. */
  function WithOpcode(ks: seq<Kind>, opcode: int): seq<Kind> {
    if ks == [] then []
    else (if Opcode(ks[0]) == opcode then [ks[0]] else []) + WithOpcode(ks[1..], opcode)
  }

  /** The opcode filter keeps exactly the classes with that opcode. */
  lemma {:induction false} WithOpcodeMembers(ks: seq<Kind>, opcode: int)
    ensures forall k :: k in WithOpcode(ks, opcode) <==> k in ks && Opcode(k) == opcode
    decreases |ks|
  {
    if ks != [] {
      WithOpcodeMembers(ks[1..], opcode);
      assert forall k | k in ks :: k == ks[0] || k in ks[1..];
    }
  }

  /** `filter(lambda i: i.funct3 == funct3, ...)`: reading `funct3` of a
      class that has none raises AttributeError. */
  function WithFunct3(ks: seq<Kind>, funct3: int): (r: Result<seq<Kind>>)
    ensures r.Err? <==> exists k | k in ks :: Funct3(k).Err?
    ensures r.Err? ==> r.error == AttributeError
    ensures r.Ok? ==> forall k :: k in r.value <==> k in ks && Funct3(k) == Ok(funct3)
  {
    if ks == [] then Ok([])
    else
      var f :- Funct3(ks[0]);
      var rest :- WithFunct3(ks[1..], funct3);
      assert forall k | k in ks :: k == ks[0] || k in ks[1..];
      Ok((if f == funct3 then [ks[0]] else []) + rest)
  }

  /** `filter(lambda i: i.funct3 == funct3 and i.funct7 == funct7, ...)`:
      `funct7` is read only when `funct3` matches. Among R classes, the
      sra class, which has no `funct3`, makes the filter raise. */
  function WithFuncts(ks: seq<Kind>, funct3: int, funct7: int): (r: Result<seq<Kind>>)
    ensures (forall k | k in ks :: k.KR?) && KR(Sra) in ks ==> r == Err(AttributeError)
    ensures r.Ok? ==> forall k :: k in r.value <==> k in ks && Funct3(k) == Ok(funct3) && Funct7(k) == Ok(funct7)
  {
    if ks == [] then Ok([])
    else
      assert forall k | k in ks :: k == ks[0] || k in ks[1..];
      var f :- Funct3(ks[0]);
      if f != funct3 then
        WithFuncts(ks[1..], funct3, funct7)
      else
        var g :- Funct7(ks[0]);
        var rest :- WithFuncts(ks[1..], funct3, funct7);
        Ok((if g == funct7 then [ks[0]] else []) + rest)
  }

  /** The class `__translate_int` settles on, with the layout it then
      decodes the word in: that of the first class with the word's opcode. */
  datatype Selection = Selection(format: Format, kind: Kind)

  /** The class selection of `__translate_int`: IndexError when no class
      has the opcode, AssertionError when the filters leave other than
      one class. */
  function Select(value: int): (r: Result<Selection>)
    ensures r.Ok? ==> Opcode(r.value.kind) == FieldsOf(value).opcode
    ensures r.Ok? && r.value.format in {I, S, SB} ==> Funct3(r.value.kind) == Ok(FieldsOf(value).funct3)
  {
    var f := FieldsOf(value);
    var ks := WithOpcode(Order, f.opcode);
    WithOpcodeMembers(Order, f.opcode);
    if ks == [] then Err(IndexError)
    else
      var format := FormatOf(ks[0]);
      var cs :- if format == R then WithFuncts(ks, f.funct3, f.funct7)
                else if format == U || format == UJ then Ok(ks)
                else WithFunct3(ks, f.funct3);
      if |cs| != 1 then Err(AssertionError)
      else
        assert cs[0] in cs;
        Ok(Selection(format, cs[0]))
  }

  /** `__translate_int(value)` as written: only an R class is ever built
      from the fields; every other branch computes its immediate and then
      raises Warning. */
  function TranslateInt(value: int): (r: Result<Instr>)
  {
    var s :- Select(value);
    var f := FieldsOf(value);
    var imm := ImmOf(s.format, value);
    match s.format
    case R => if s.kind.KR? then Ok(RType(s.kind.rop, f.rd, f.rs1, f.rs2)) else Err(TypeError)
    case _ => Err(Warning)
  }

  // ---------------------------------------------------------------------
  // What the decoder as written does

  lemma {:induction false} WithOpcodeAppend(a: seq<Kind>, b: seq<Kind>, opcode: int)
    ensures WithOpcode(a + b, opcode) == WithOpcode(a, opcode) + WithOpcode(b, opcode)
    decreases |a|
  {
    if a == [] {
      assert a + b == b;
    } else {
      var head := if Opcode(a[0]) == opcode then [a[0]] else [];
      assert (a + b)[0] == a[0] && (a + b)[1..] == a[1..] + b;
      assert WithOpcode(a + b, opcode) == head + WithOpcode(a[1..] + b, opcode);
      assert WithOpcode(a, opcode) == head + WithOpcode(a[1..], opcode);
      hide WithOpcode;
      WithOpcodeAppend(a[1..], b, opcode);
    }
  }

  lemma {:induction false} WithOpcodeUniform(ks: seq<Kind>, c: int, opcode: int)
    requires forall k | k in ks :: Opcode(k) == c
    ensures WithOpcode(ks, opcode) == if opcode == c then ks else []
    decreases |ks|
  {
    if ks != [] {
      assert forall k | k in ks[1..] :: k in ks;
      WithOpcodeUniform(ks[1..], c, opcode);
      if opcode == c {
        assert [ks[0]] + ks[1..] == ks;
      }
    }
  }

  /** Each group of the dictionary shares one opcode. */
  lemma GroupOpcodes()
    ensures forall k | k in RClasses :: Opcode(k) == 0x33
    ensures forall k | k in LoadClasses :: Opcode(k) == 0x03
    ensures forall k | k in ImmClasses :: Opcode(k) == 0x13
    ensures forall k | k in StoreClasses :: Opcode(k) == 0x23
    ensures forall k | k in BranchClasses :: Opcode(k) == 0x67
    ensures forall k | k in [KJalr] :: Opcode(k) == 0x67
    ensures forall k | k in [KLui] :: Opcode(k) == 0x37
    ensures forall k | k in [KJal] :: Opcode(k) == 0x6f
  {
  }

  /** What the opcode filter leaves of each group. */
  lemma GroupFilters(opcode: int)
    ensures WithOpcode(RClasses, opcode) == if opcode == 0x33 then RClasses else []
    ensures WithOpcode(LoadClasses, opcode) == if opcode == 0x03 then LoadClasses else []
    ensures WithOpcode(ImmClasses, opcode) == if opcode == 0x13 then ImmClasses else []
    ensures WithOpcode([KJalr], opcode) == if opcode == 0x67 then [KJalr] else []
    ensures WithOpcode(StoreClasses, opcode) == if opcode == 0x23 then StoreClasses else []
    ensures WithOpcode(BranchClasses, opcode) == if opcode == 0x67 then BranchClasses else []
    ensures WithOpcode([KLui], opcode) == if opcode == 0x37 then [KLui] else []
    ensures WithOpcode([KJal], opcode) == if opcode == 0x6f then [KJal] else []
  {
    GroupOpcodes();
    hide RClasses, LoadClasses, ImmClasses, StoreClasses, BranchClasses;
    WithOpcodeUniform(RClasses, 0x33, opcode);
    WithOpcodeUniform(LoadClasses, 0x03, opcode);
    WithOpcodeUniform(ImmClasses, 0x13, opcode);
    WithOpcodeUniform([KJalr], 0x67, opcode);
    WithOpcodeUniform(StoreClasses, 0x23, opcode);
    WithOpcodeUniform(BranchClasses, 0x67, opcode);
    WithOpcodeUniform([KLui], 0x37, opcode);
    WithOpcodeUniform([KJal], 0x6f, opcode);
  }

  /** The opcode filter of the whole dictionary, group by group. */
  lemma OrderSplit(opcode: int)
    ensures WithOpcode(Order, opcode) ==
      WithOpcode(RClasses, opcode) + WithOpcode(LoadClasses, opcode) + WithOpcode(ImmClasses, opcode)
      + WithOpcode([KJalr], opcode) + WithOpcode(StoreClasses, opcode) + WithOpcode(BranchClasses, opcode)
      + WithOpcode([KLui], opcode) + WithOpcode([KJal], opcode)
  {
    hide RClasses, LoadClasses, ImmClasses, StoreClasses, BranchClasses;
    var a := RClasses + LoadClasses;
    var b := a + ImmClasses;
    var c := b + [KJalr];
    var d := c + StoreClasses;
    var e := d + BranchClasses;
    assert Order == e + [KLui] + [KJal];
    hide WithOpcode;
    WithOpcodeAppend(RClasses, LoadClasses, opcode);
    WithOpcodeAppend(a, ImmClasses, opcode);
    WithOpcodeAppend(b, [KJalr], opcode);
    WithOpcodeAppend(c, StoreClasses, opcode);
    WithOpcodeAppend(d, BranchClasses, opcode);
    WithOpcodeAppend(e, [KLui], opcode);
    WithOpcodeAppend(e + [KLui], [KJal], opcode);
  }

  /** The candidates each opcode leaves, in the dictionary's order. The
      branch classes come after jalr, whose opcode they share. */
  lemma Candidates(opcode: int)
    ensures WithOpcode(Order, opcode) ==
      if opcode == 0x33 then RClasses
      else if opcode == 0x03 then LoadClasses
      else if opcode == 0x13 then ImmClasses
      else if opcode == 0x67 then [KJalr] + BranchClasses
      else if opcode == 0x23 then StoreClasses
      else if opcode == 0x37 then [KLui]
      else if opcode == 0x6f then [KJal]
      else []
  {
    OrderSplit(opcode);
    GroupFilters(opcode);
    hide WithOpcode, Order, RClasses, LoadClasses, ImmClasses, StoreClasses, BranchClasses;
    var e: seq<Kind> := [];
    if opcode == 0x33 {
      assert WithOpcode(Order, opcode) == RClasses + e + e + e + e + e + e + e;
      assert WithOpcode(Order, opcode) == RClasses;
    } else if opcode == 0x03 {
      assert WithOpcode(Order, opcode) == e + LoadClasses + e + e + e + e + e + e;
      assert WithOpcode(Order, opcode) == LoadClasses;
    } else if opcode == 0x13 {
      assert WithOpcode(Order, opcode) == e + e + ImmClasses + e + e + e + e + e;
      assert WithOpcode(Order, opcode) == ImmClasses;
    } else if opcode == 0x67 {
      assert WithOpcode(Order, opcode) == e + e + e + [KJalr] + e + BranchClasses + e + e;
      assert WithOpcode(Order, opcode) == [KJalr] + BranchClasses;
    } else if opcode == 0x23 {
      assert WithOpcode(Order, opcode) == e + e + e + e + StoreClasses + e + e + e;
      assert WithOpcode(Order, opcode) == StoreClasses;
    } else if opcode == 0x37 {
      assert WithOpcode(Order, opcode) == e + e + e + e + e + e + [KLui] + e;
      assert WithOpcode(Order, opcode) == [KLui];
    } else if opcode == 0x6f {
      assert WithOpcode(Order, opcode) == e + e + e + e + e + e + e + [KJal];
      assert WithOpcode(Order, opcode) == [KJal];
    } else {
      assert WithOpcode(Order, opcode) == e + e + e + e + e + e + e + e;
      assert WithOpcode(Order, opcode) == [];
    }
  }

  /** What the collisions below rest on: the first class of each group,
      and which classes declare a funct3. */
  lemma GroupFacts()
    ensures RClasses[0] == KR(Add) && KR(Sra) in RClasses && forall k | k in RClasses :: k.KR?
    ensures LoadClasses[0] == KLoad(Lb) && ImmClasses[0] == KImm(Addi)
    ensures KImm(Srli) in ImmClasses && KImm(Srai) in ImmClasses
    ensures forall k | k in ImmClasses :: Funct3(k).Ok?
    ensures KBranch(Beq) in BranchClasses && forall k | k in BranchClasses :: Funct3(k).Ok?
  {
  }

  /** Every R word raises AttributeError: the filter reaches the sra class,
      whose `funct3` is misspelt. */
  lemma RWordsRaise(value: int)
    requires FieldsOf(value).opcode == 0x33
    ensures Select(value) == Err(AttributeError)
    ensures TranslateInt(value) == Err(AttributeError)
  {
    Candidates(0x33);
    GroupFacts();
    hide RClasses, Order, WithOpcode, WithFuncts;
  }

  /** No word decodes: R words raise on sra, and every other class that
      survives the filters raises Warning. */
  lemma TranslateIntRaises(value: int)
    ensures TranslateInt(value).Err?
    ensures Select(value).Ok? ==> TranslateInt(value) == Err(Warning)
  {
    var f := FieldsOf(value);
    Candidates(f.opcode);
    if f.opcode == 0x33 {
      RWordsRaise(value);
    }
  }

  /** A word with jalr's opcode is decoded in the I layout: the branch
      classes, which declare the same opcode, come after jalr in the
      dictionary, so the SB branch of the decoder is never taken. */
  lemma BranchLayoutUnused(value: int)
    ensures Select(value).Ok? ==> Select(value).value.format != SB
  {
    Candidates(FieldsOf(value).opcode);
  }

  /** A list holding two different classes does not hold exactly one. */
  lemma NotSingle(cs: seq<Kind>, a: Kind, b: Kind)
    requires a != b && a in cs && b in cs
    ensures |cs| != 1
  {
  }

  /** jalr and beq share opcode and funct3: their words raise AssertionError. */
  lemma JalrBeqCollide(value: int)
    requires FieldsOf(value).opcode == 0x67 && FieldsOf(value).funct3 == 0
    ensures Select(value) == Err(AssertionError)
  {
    var f := FieldsOf(value);
    Candidates(0x67);
    GroupFacts();
    hide BranchClasses, Order, WithOpcode, WithFunct3;
    var ks := [KJalr] + BranchClasses;
    assert ks[0] == KJalr && KJalr in ks && KBranch(Beq) in ks;
    assert forall k | k in ks :: Funct3(k).Ok?;
    var r := WithFunct3(ks, f.funct3);
    NotSingle(r.value, KJalr, KBranch(Beq));
  }

  /** srli and srai share opcode and funct3, and no field tells them apart:
      their words raise AssertionError. */
  lemma SrliSraiCollide(value: int)
    requires FieldsOf(value).opcode == 0x13 && FieldsOf(value).funct3 == 5
    ensures Select(value) == Err(AssertionError)
  {
    var f := FieldsOf(value);
    Candidates(0x13);
    GroupFacts();
    hide ImmClasses, Order, WithOpcode, WithFunct3;
    var r := WithFunct3(ImmClasses, f.funct3);
    NotSingle(r.value, KImm(Srli), KImm(Srai));
  }

  /** lbu, xori and bltu declare funct3 as the decimal numbers 100, 100
      and 110, which no 3-bit field equals: they are never selected. */
  lemma DecimalFunct3Unreachable(value: int)
    ensures Select(value).Ok? ==> Select(value).value.kind !in {KLoad(Lbu), KImm(Xori), KBranch(Bltu)}
  {
    var opcode := FieldsOf(value).opcode;
    GroupFacts();
    hide LoadClasses, ImmClasses, BranchClasses, Order, WithOpcode, WithFunct3, WithFuncts;
    if opcode == 0x03 {
      Candidates(0x03);
    } else if opcode == 0x13 {
      Candidates(0x13);
    } else if opcode == 0x67 {
      Candidates(0x67);
      assert ([KJalr] + BranchClasses)[0] == KJalr;
    }
  }

  /** The words of the factory test: `add x3, x2, x1` raises on sra's
      missing `funct3`, and `beq x1, x2, -100`, encoded with jalr's opcode,
      hits the jalr/beq collision. */
  lemma TestWordsRaise()
    ensures TranslateInt(0x001101b3) == Err(AttributeError)
    ensures Select(0xf2208ce7) == Err(AssertionError)
  {
    hide Pow2, FieldsOf, Select, TranslateInt;
    WordAt(0x001101b3, 0, 1, 2, 0, 3, 0x33);
    WordAt(0xf2208ce7, 0x79, 2, 1, 0, 25, 0x67);
    RWordsRaise(0x001101b3);
    JalrBeqCollide(0xf2208ce7);
  }

  /** The S decoder as written turns the immediate 16 into 0: the mask
      `0b1111` drops bit 4. */
  lemma ImmSLosesBit4(rs2: int, rs1: int, f3: int)
    requires 0 <= rs2 < 32 && 0 <= rs1 < 32 && 0 <= f3 < 8
    ensures Field(16, 4, 1) == 1
    ensures ImmS(EncodeS(16, rs2, rs1, f3, 0x23)) == 0
  {
    assert Field(16, 4, 1) == 1;
    SWord(16, rs2, rs1, f3, 0x23);
    hide EncodeS, ImmS, ImmSFixed, Field, FieldsOf;
  }

  // ---------------------------------------------------------------------
  // The corrected codec

  /** The S immediate with the five low bits the S layout holds. */
  function ImmSFixed(value: int): int {
    BitOr(Shl(Field(value, 25, 7), 5), Shl(Field(value, 7, 5), 0))
  }

  lemma ImmSFixedSum(value: int)
    ensures ImmSFixed(value) == Field(value, 25, 7) * 32 + Field(value, 7, 5)
  {
    Pow2Table();
    assert Pow2(0) == 1;
    var a := Field(value, 25, 7);
    hide Field;
    OrStep(Shl(a, 5), a, Field(value, 7, 5), 0, 5, 1, 32);
  }

  /** The opcodes RISC-V assigns: the branches have their own, 0b1100011. */
  function OpcodeFixed(k: Kind): (r: nat)
    ensures r < 128
  {
    if k.KBranch? then 0x63 else Opcode(k)
  }

  /** The funct3 values RISC-V assigns: lbu and xori 4, bltu 6, sra 5
      and sd 3. */
  function Funct3Fixed(k: Kind): (r: nat)
    ensures r < 8
  {
    match k
    case KR(op) =>
      (match op
       case Add => 0 case Sub => 0 case Sll => 1 case Xor => 4
       case Srl => 5 case Sra => 5 case Or => 6 case And => 7)
    case KLoad(op) =>
      (match op
       case Lb => 0 case Lh => 1 case Lw => 2 case Ld => 3 case Lbu => 4 case Lhu => 5 case Lwu => 6)
    case KImm(op) =>
      (match op
       case Addi => 0 case Slli => 1 case Xori => 4 case Srli => 5
       case Srai => 5 case Ori => 6 case Andi => 7)
    case KJalr => 0
    case KStore(op) => (match op case Sb => 0 case Sh => 1 case Sw => 2 case Sd => 3)
    case KBranch(op) =>
      (match op case Beq => 0 case Bne => 1 case Blt => 4 case Bge => 5 case Bltu => 6 case Bgeu => 7)
    case KLui => 0
    case KJal => 0
  }

  /** The funct7 values RISC-V assigns: sub and sra 0b0100000. */
  function Funct7Fixed(op: ROp): (r: nat)
    ensures r < 128
  {
    if op == Sub || op == Sra then 0x20 else 0
  }

  /** The declared constants are kept wherever they are the ones RISC-V
      assigns; they change only for the colliding or misspelt ones. */
  lemma FixedKeepsTheRest(k: Kind)
    ensures !k.KBranch? ==> OpcodeFixed(k) == Opcode(k)
    ensures k !in {KLoad(Lbu), KImm(Xori), KR(Sra), KStore(Sd), KBranch(Bltu)} && !k.KLui? && !k.KJal?
            ==> Funct3(k) == Ok(Funct3Fixed(k))
  {
  }

  /** The shift amount of slli, srli and srai is six bits wide in RV64I;
      srai sets bit 10 of the immediate field (funct6 = 0b010000). */
  function ShiftImm(op: ImmOp, imm: int): int {
    if op == Srai then imm + 0x400 else imm
  }

  /** `int(instruction)` with the corrected constants. */
  function EncodeFixed(i: Instr): int {
    var k := KindOf(i);
    match i
    case RType(op, rd, rs1, rs2) => EncodeR(Funct7Fixed(op), rs2, rs1, Funct3Fixed(k), rd, 0x33)
    case Load(_, rd, imm, rs) => EncodeI(imm, rs, Funct3Fixed(k), rd, 0x03)
    case AluImm(op, rd, imm, rs) => EncodeI(ShiftImm(op, imm), rs, Funct3Fixed(k), rd, 0x13)
    case Jalr(rd, imm, rs) => EncodeI(imm, rs, 0, rd, 0x67)
    case Store(_, rs1, rs2, imm) => EncodeS(imm, rs2, rs1, Funct3Fixed(k), 0x23)
    case Branch(_, rs1, rs2, imm) => EncodeSB(imm, rs2, rs1, Funct3Fixed(k), 0x63)
    case Lui(rd, imm) => EncodeU(imm, rd, 0x37)
    case Jal(rd, imm) => EncodeUJ(imm, rd, 0x6f)
  }

  function ROpFixed(funct3: nat, funct7: nat): Result<ROp> {
    if funct7 == 0 then
      (if funct3 == 0 then Ok(Add) else if funct3 == 1 then Ok(Sll) else if funct3 == 4 then Ok(Xor)
       else if funct3 == 5 then Ok(Srl) else if funct3 == 6 then Ok(Or) else if funct3 == 7 then Ok(And)
       else Err(AssertionError))
    else if funct7 == 0x20 then
      (if funct3 == 0 then Ok(Sub) else if funct3 == 5 then Ok(Sra) else Err(AssertionError))
    else Err(AssertionError)
  }

  function LoadOpFixed(funct3: nat): Result<LoadOp> {
    if funct3 == 0 then Ok(Lb) else if funct3 == 1 then Ok(Lh) else if funct3 == 2 then Ok(Lw)
    else if funct3 == 3 then Ok(Ld) else if funct3 == 4 then Ok(Lbu) else if funct3 == 5 then Ok(Lhu)
    else if funct3 == 6 then Ok(Lwu) else Err(AssertionError)
  }

  /** The immediate ALU class, with srli and srai told apart by funct6. */
  function ImmOpFixed(funct3: nat, funct6: nat): Result<ImmOp> {
    if funct3 == 0 then Ok(Addi) else if funct3 == 1 then Ok(Slli) else if funct3 == 4 then Ok(Xori)
    else if funct3 == 5 then
      (if funct6 == 0 then Ok(Srli) else if funct6 == 0x10 then Ok(Srai) else Err(AssertionError))
    else if funct3 == 6 then Ok(Ori) else if funct3 == 7 then Ok(Andi) else Err(AssertionError)
  }

  function StoreOpFixed(funct3: nat): Result<StoreOp> {
    if funct3 == 0 then Ok(Sb) else if funct3 == 1 then Ok(Sh) else if funct3 == 2 then Ok(Sw)
    else if funct3 == 3 then Ok(Sd) else Err(AssertionError)
  }

  function BranchOpFixed(funct3: nat): Result<BranchOp> {
    if funct3 == 0 then Ok(Beq) else if funct3 == 1 then Ok(Bne) else if funct3 == 4 then Ok(Blt)
    else if funct3 == 5 then Ok(Bge) else if funct3 == 6 then Ok(Bltu) else if funct3 == 7 then Ok(Bgeu)
    else Err(AssertionError)
  }

  /** `__translate_int` with the `raise Warning`s removed, the I classes
      given their `rs` keyword, and the corrected constants and S mask. The
      immediates stay unsigned, as the decoder's warning says they are. */
  function DecodeFixed(value: int): Result<Instr> {
    var f := FieldsOf(value);
    if f.opcode == 0x33 then
      var op :- ROpFixed(f.funct3, f.funct7);
      Ok(RType(op, f.rd, f.rs1, f.rs2))
    else if f.opcode == 0x03 then
      var op :- LoadOpFixed(f.funct3);
      Ok(Load(op, f.rd, ImmI(value), f.rs1))
    else if f.opcode == 0x13 then
      var op :- ImmOpFixed(f.funct3, Field(value, 26, 6));
      Ok(AluImm(op, f.rd, if op == Srli || op == Srai then Field(value, 20, 6) else ImmI(value), f.rs1))
    else if f.opcode == 0x67 then
      if f.funct3 == 0 then Ok(Jalr(f.rd, ImmI(value), f.rs1)) else Err(AssertionError)
    else if f.opcode == 0x23 then
      var op :- StoreOpFixed(f.funct3);
      Ok(Store(op, f.rs1, f.rs2, ImmSFixed(value)))
    else if f.opcode == 0x63 then
      var op :- BranchOpFixed(f.funct3);
      Ok(Branch(op, f.rs1, f.rs2, ImmSB(value)))
    else if f.opcode == 0x37 then
      Ok(Lui(f.rd, ImmU(value)))
    else if f.opcode == 0x6f then
      Ok(Jal(f.rd, ImmUJ(value)))
    else
      Err(IndexError)
  }

  /** A decoded instruction belongs to a class with the word's opcode. */
  lemma DecodeFixedOpcode(value: int)
    ensures DecodeFixed(value).Ok? ==> OpcodeFixed(KindOf(DecodeFixed(value).value)) == FieldsOf(value).opcode
  {
    hide FieldsOf, ImmI, ImmSFixed, ImmSB, ImmU, ImmUJ, Field, ROpFixed, LoadOpFixed, ImmOpFixed, StoreOpFixed, BranchOpFixed;
  }

  lemma ROpInverse(op: ROp)
    ensures ROpFixed(Funct3Fixed(KR(op)), Funct7Fixed(op)) == Ok(op)
  {
  }

  lemma LoadOpInverse(op: LoadOp)
    ensures LoadOpFixed(Funct3Fixed(KLoad(op))) == Ok(op)
  {
  }

  /** srli and srai keep their six-bit shift amount in bits 25:20 and tell
      each other apart by bits 31:26; the other ALU classes keep their
      twelve-bit immediate. */
  lemma ImmOpInverse(op: ImmOp, imm: int)
    requires 0 <= imm < (if op == Srli || op == Srai then 64 else 0x1000)
    ensures 0 <= ShiftImm(op, imm) < 0x1000
    ensures ImmOpFixed(Funct3Fixed(KImm(op)), ShiftImm(op, imm) / 64) == Ok(op)
    ensures op == Srli || op == Srai ==> ShiftImm(op, imm) % 64 == imm
    ensures op != Srli && op != Srai ==> ShiftImm(op, imm) == imm
  {
  }

  lemma StoreOpInverse(op: StoreOp)
    ensures StoreOpFixed(Funct3Fixed(KStore(op))) == Ok(op)
  {
  }

  lemma BranchOpInverse(op: BranchOp)
    ensures BranchOpFixed(Funct3Fixed(KBranch(op))) == Ok(op)
  {
  }

  predicate IsReg(r: int) {
    0 <= r < 32
  }

  /** The instructions the corrected codec carries: registers 0 to 31 and
      unsigned immediates that fit their layout (six bits for the RV64I
      shift amounts). */
  predicate Encodable(i: Instr) {
    match i
    case RType(_, rd, rs1, rs2) => IsReg(rd) && IsReg(rs1) && IsReg(rs2)
    case Load(_, rd, imm, rs) => IsReg(rd) && IsReg(rs) && 0 <= imm < 0x1000
    case AluImm(op, rd, imm, rs) =>
      IsReg(rd) && IsReg(rs) && 0 <= imm < (if op == Srli || op == Srai then 64 else 0x1000)
    case Jalr(rd, imm, rs) => IsReg(rd) && IsReg(rs) && 0 <= imm < 0x1000
    case Store(_, rs1, rs2, imm) => IsReg(rs1) && IsReg(rs2) && 0 <= imm < 0x1000
    case Branch(_, rs1, rs2, imm) => IsReg(rs1) && IsReg(rs2) && 0 <= imm < 0x1000
    case Lui(rd, imm) => IsReg(rd) && 0 <= imm < 0x100000
    case Jal(rd, imm) => IsReg(rd) && 0 <= imm < 0x100000
  }

  lemma RoundTripR(i: Instr)
    requires i.RType? && Encodable(i)
    ensures DecodeFixed(EncodeFixed(i)) == Ok(i)
  {
    ROpInverse(i.rop);
    hide EncodeR, FieldsOf, ROpFixed, Funct3Fixed;
    RWord(Funct7Fixed(i.rop), i.rs2, i.rs1, Funct3Fixed(KR(i.rop)), i.rd, 0x33);
  }

  lemma RoundTripLoad(i: Instr)
    requires i.Load? && Encodable(i)
    ensures DecodeFixed(EncodeFixed(i)) == Ok(i)
  {
    LoadOpInverse(i.lop);
    hide EncodeI, FieldsOf, ImmI, Field, LoadOpFixed, Funct3Fixed;
    IWord(i.imm, i.rs, Funct3Fixed(KLoad(i.lop)), i.rd, 0x03);
  }

  lemma RoundTripImm(i: Instr)
    requires i.AluImm? && Encodable(i)
    ensures DecodeFixed(EncodeFixed(i)) == Ok(i)
  {
    ImmOpInverse(i.iop, i.imm);
    hide EncodeI, FieldsOf, ImmI, Field, ImmOpFixed, ShiftImm, Funct3Fixed;
    IWord(ShiftImm(i.iop, i.imm), i.rs, Funct3Fixed(KImm(i.iop)), i.rd, 0x13);
  }

  lemma RoundTripJalr(i: Instr)
    requires i.Jalr? && Encodable(i)
    ensures DecodeFixed(EncodeFixed(i)) == Ok(i)
  {
    hide EncodeI, FieldsOf, ImmI, Field;
    IWord(i.imm, i.rs, 0, i.rd, 0x67);
  }

  lemma StoreFieldsRoundTrip(op: StoreOp, rs1: int, rs2: int, imm: int)
    requires IsReg(rs1) && IsReg(rs2) && 0 <= imm < 0x1000
    ensures DecodeFixed(EncodeS(imm, rs2, rs1, Funct3Fixed(KStore(op)), 0x23)) == Ok(Store(op, rs1, rs2, imm))
  {
    StoreOpInverse(op);
    hide EncodeS, FieldsOf, ImmSFixed, ImmS, Field, StoreOpFixed, Funct3Fixed;
    SWord(imm, rs2, rs1, Funct3Fixed(KStore(op)), 0x23);
  }

  lemma RoundTripStore(i: Instr)
    requires i.Store? && Encodable(i)
    ensures DecodeFixed(EncodeFixed(i)) == Ok(i)
  {
    hide DecodeFixed, EncodeS;
    StoreFieldsRoundTrip(i.sop, i.rs1, i.rs2, i.imm);
  }

  lemma BranchFieldsRoundTrip(op: BranchOp, rs1: int, rs2: int, imm: int)
    requires IsReg(rs1) && IsReg(rs2) && 0 <= imm < 0x1000
    ensures DecodeFixed(EncodeSB(imm, rs2, rs1, Funct3Fixed(KBranch(op)), 0x63)) == Ok(Branch(op, rs1, rs2, imm))
  {
    BranchOpInverse(op);
    hide EncodeSB, FieldsOf, ImmSB, Field, BranchOpFixed, Funct3Fixed;
    SBWord(imm, rs2, rs1, Funct3Fixed(KBranch(op)), 0x63);
  }

  lemma RoundTripBranch(i: Instr)
    requires i.Branch? && Encodable(i)
    ensures DecodeFixed(EncodeFixed(i)) == Ok(i)
  {
    hide DecodeFixed, EncodeSB;
    BranchFieldsRoundTrip(i.bop, i.rs1, i.rs2, i.imm);
  }

  lemma RoundTripU(i: Instr)
    requires i.Lui? && Encodable(i)
    ensures DecodeFixed(EncodeFixed(i)) == Ok(i)
  {
    hide EncodeU, FieldsOf, ImmU, Field;
    UWord(i.imm, i.rd, 0x37);
  }

  lemma RoundTripUJ(i: Instr)
    requires i.Jal? && Encodable(i)
    ensures DecodeFixed(EncodeFixed(i)) == Ok(i)
  {
    hide EncodeUJ, FieldsOf, ImmUJ, Field;
    UJWord(i.imm, i.rd, 0x6f);
  }

  /** The corrected decoder inverts the corrected encoder on every
      instruction it can carry. */
  lemma DecodeFixedRoundTrip(i: Instr)
    requires Encodable(i)
    ensures DecodeFixed(EncodeFixed(i)) == Ok(i)
  {
    hide DecodeFixed, EncodeFixed;
    match i
    case RType(_, _, _, _) => RoundTripR(i);
    case Load(_, _, _, _) => RoundTripLoad(i);
    case AluImm(_, _, _, _) => RoundTripImm(i);
    case Jalr(_, _, _) => RoundTripJalr(i);
    case Store(_, _, _, _) => RoundTripStore(i);
    case Branch(_, _, _, _) => RoundTripBranch(i);
    case Lui(_, _) => RoundTripU(i);
    case Jal(_, _) => RoundTripUJ(i);
  }

  /** As declared, sd carries funct3 0b111 in its word; RV64I gives sd
      0b011. */
  lemma SdFunct3AsWritten(rs1: int, rs2: int, imm: int)
    requires IsReg(rs1) && IsReg(rs2) && 0 <= imm < 0x1000
    ensures Encode(Store(Sd, rs1, rs2, imm)).Ok?
    ensures FieldsOf(Encode(Store(Sd, rs1, rs2, imm)).value).funct3 == 7
  {
    hide EncodeS, FieldsOf, ImmS, ImmSFixed;
    assert Encode(Store(Sd, rs1, rs2, imm)) == Ok(EncodeS(imm, rs2, rs1, 7, 0x23));
    SWord(imm, rs2, rs1, 7, 0x23);
  }

  /** With the corrected constants, sd carries funct3 0b011 and its word
      decodes back to the same store. */
  lemma SdFunct3Fixed(rs1: int, rs2: int, imm: int)
    requires IsReg(rs1) && IsReg(rs2) && 0 <= imm < 0x1000
    ensures FieldsOf(EncodeFixed(Store(Sd, rs1, rs2, imm))).funct3 == 3
    ensures DecodeFixed(EncodeFixed(Store(Sd, rs1, rs2, imm))) == Ok(Store(Sd, rs1, rs2, imm))
  {
    hide EncodeS, FieldsOf, DecodeFixed, ImmS, ImmSFixed;
    assert EncodeFixed(Store(Sd, rs1, rs2, imm)) == EncodeS(imm, rs2, rs1, 3, 0x23);
    SWord(imm, rs2, rs1, 3, 0x23);
    StoreFieldsRoundTrip(Sd, rs1, rs2, imm);
  }
}
