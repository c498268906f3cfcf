/** `InstructionFactory`: from an assembly line or a word to an instruction
    object.

    A line is lowered, its separators `,`, `(` and `)` become blanks and it
    is split into tokens; the first token selects the class and the
    others are read as registers (`__register_index`) and immediates
    (`int`). As written, every group but R raises `Warning` once its
    operands are read, and a register given by ABI name raises NameError
    (the name table `registers` is not in scope). The corrected reader
    below builds every class, passing the I classes their `rs` keyword,
    and looks ABI names up in the register table. */
module Factory {
  import opened Wrappers
  import opened Encoding
  import opened Text
  import opened Config
  import opened Classes
  import opened Decoder

  // ---------------------------------------------------------------------
  // Tokens

  predicate IsSeparator(c: char) {
    c == ',' || c == '(' || c == ')'
  }

  predicate IsCapital(c: char) {
    'A' <= c <= 'Z'
  }

  /** A token as the tokenizer leaves it: non-empty, with no whitespace,
      no separator and no capital letter. */
  predicate Plain(w: string) {
    w != [] && forall c | c in w :: !IsSpace(c) && !IsSeparator(c) && !IsCapital(c)
  }

  /** `x.lower().replace(",", " ").replace("(", " ").replace(")", " ")`. */
  function Clean(x: string): (r: string)
    ensures |r| == |x|
    ensures forall j | 0 <= j < |x| :: r[j] == (if IsSeparator(x[j]) then ' ' else LowerChar(x[j]))
  {
    ReplaceChar(ReplaceChar(ReplaceChar(Lower(x), ',', ' '), '(', ' '), ')', ' ')
  }

  lemma CleanHasNoSeparator(x: string)
    ensures forall c | c in Clean(x) :: !IsSeparator(c) && !IsCapital(c)
  {
    forall c | c in Clean(x)
      ensures !IsSeparator(c) && !IsCapital(c)
    {
      var j :| 0 <= j < |x| && Clean(x)[j] == c;
    }
  }

  lemma {:induction false} ConcatHas(ws: seq<string>, i: nat, c: char)
    requires i < |ws| && c in ws[i]
    ensures c in Concat(ws)
    decreases i
  {
    if i > 0 {
      ConcatHas(ws[1..], i - 1, c);
    }
  }

  lemma {:induction false} NonSpaceHas(s: string, c: char)
    requires c in NonSpace(s)
    ensures c in s
    decreases |s|
  {
    if s != [] && c != s[0] {
      NonSpaceHas(s[1..], c);
    }
  }

  /** `__extract_tokens(x)`: every token is plain, and the tokens are the
      non-blank characters of the cleaned line, in order. */
  function ExtractTokens(x: string): (r: seq<string>)
    ensures forall i | 0 <= i < |r| :: Plain(r[i])
    ensures Concat(r) == NonSpace(Clean(x))
  {
    var r := Split(Clean(x));
    CleanHasNoSeparator(x);
    assert forall i, c | 0 <= i < |r| && c in r[i] :: c in Clean(x) by {
      forall i, c | 0 <= i < |r| && c in r[i]
        ensures c in Clean(x)
      {
        ConcatHas(r, i, c);
        NonSpaceHas(Clean(x), c);
      }
    }
    r
  }

  // ---------------------------------------------------------------------
  // The canonical spelling of a line, and its tokens

  /** A gap between two tokens: blanks and separators only. */
  predicate Gap(g: string) {
    forall c | c in g :: c == ' ' || IsSeparator(c)
  }

  predicate Blank(g: string) {
    forall c | c in g :: c == ' '
  }

  /** Tokens each followed by its gap. */
  function Line(words: seq<string>, gaps: seq<string>): string
    requires |gaps| == |words|
  {
    if words == [] then [] else words[0] + gaps[0] + Line(words[1..], gaps[1..])
  }

  lemma CleanAppend(a: string, b: string)
    ensures Clean(a + b) == Clean(a) + Clean(b)
  {
    assert forall j | 0 <= j < |a| :: (a + b)[j] == a[j];
    assert forall j | |a| <= j < |a| + |b| :: (a + b)[j] == b[j - |a|];
  }

  lemma CleanPlain(w: string)
    requires Plain(w)
    ensures Clean(w) == w
  {
    assert forall j | 0 <= j < |w| :: w[j] in w;
  }

  lemma CleanGap(g: string)
    requires Gap(g)
    ensures Blank(Clean(g))
  {
    forall c | c in Clean(g)
      ensures c == ' '
    {
      var j :| 0 <= j < |g| && Clean(g)[j] == c;
      assert g[j] in g;
    }
  }

  lemma {:induction false} SplitBlank(b: string, s: string)
    requires Blank(b)
    ensures Split(b + s) == Split(s)
    decreases |b|
  {
    if b == [] {
      assert b + s == s;
    } else {
      assert b[0] in b;
      assert (b + s)[0] == b[0] && (b + s)[1..] == b[1..] + s;
      assert forall c | c in b[1..] :: c in b;
      SplitBlank(b[1..], s);
    }
  }

  lemma {:induction false} WordLengthOf(w: string, s: string)
    requires NoSpace(w) && (s == [] || IsSpace(s[0]))
    ensures WordLength(w + s) == |w|
    decreases |w|
  {
    if w == [] {
      assert w + s == s;
    } else {
      assert (w + s)[0] == w[0] && (w + s)[1..] == w[1..] + s;
      WordLengthOf(w[1..], s);
    }
  }

  lemma SplitWord(w: string, s: string)
    requires w != [] && NoSpace(w) && (s == [] || IsSpace(s[0]))
    ensures Split(w + s) == [w] + Split(s)
  {
    WordLengthOf(w, s);
    assert (w + s)[0] == w[0];
    assert (w + s)[..|w|] == w && (w + s)[|w|..] == s;
  }

  lemma PlainNoSpace(w: string)
    requires Plain(w)
    ensures w != [] && NoSpace(w)
  {
    assert forall j | 0 <= j < |w| :: w[j] in w;
  }

  /** Cleaning a token and its gap leaves the token and blanks. */
  lemma CleanStep(w: string, g: string, rest: string)
    requires Plain(w) && Gap(g)
    ensures Clean(w + g + rest) == w + Clean(g) + Clean(rest)
    ensures Blank(Clean(g)) && |Clean(g)| == |g|
  {
    CleanAppend(w + g, rest);
    CleanAppend(w, g);
    CleanPlain(w);
    CleanGap(g);
  }

  /** Splitting a token, blanks and the rest. */
  lemma SplitStep(w: string, b: string, rest: string)
    requires w != [] && NoSpace(w) && Blank(b) && (b != [] || rest == [])
    ensures Split(w + b + rest) == [w] + Split(rest)
  {
    if b != [] {
      assert b[0] in b;
    }
    assert w + b + rest == w + (b + rest);
    SplitWord(w, b + rest);
    SplitBlank(b, rest);
  }

  /** The cleaned line is the tokens each followed by blanks. */
  lemma {:induction false} CleanLine(words: seq<string>, gaps: seq<string>)
    requires |gaps| == |words|
    requires forall i | 0 <= i < |words| :: Plain(words[i]) && Gap(gaps[i])
    requires forall i | 0 <= i < |words| - 1 :: gaps[i] != []
    ensures Split(Clean(Line(words, gaps))) == words
    decreases |words|
  {
    if words != [] {
      var w, g, rest := words[0], gaps[0], Line(words[1..], gaps[1..]);
      assert Line(words, gaps) == w + g + rest;
      CleanLine(words[1..], gaps[1..]);
      CleanStep(w, g, rest);
      PlainNoSpace(w);
      assert g == [] ==> rest == [];
      hide Line, Clean;
      SplitStep(w, Clean(g), Clean(rest));
      assert words == [w] + words[1..];
    }
  }

  /** The tokenizer gives back the tokens of a line written as plain tokens
      with gaps between them. */
  lemma LineTokens(words: seq<string>, gaps: seq<string>)
    requires |gaps| == |words|
    requires forall i | 0 <= i < |words| :: Plain(words[i]) && Gap(gaps[i])
    requires forall i | 0 <= i < |words| - 1 :: gaps[i] != []
    ensures ExtractTokens(Line(words, gaps)) == words
  {
    CleanLine(words, gaps);
  }

  lemma DigitsPlain(s: string)
    requires s != [] && AllDigits(s)
    ensures Plain(s)
  {
    forall c | c in s
      ensures !IsSpace(c) && !IsSeparator(c) && !IsCapital(c)
    {
      var j :| 0 <= j < |s| && s[j] == c;
    }
  }

  lemma NumberPlain(n: int)
    ensures Plain(IntToString(n))
  {
    if n < 0 {
      DigitsPlain(NatToString(-n));
      assert IntToString(n) == "-" + NatToString(-n);
    } else {
      DigitsPlain(NatToString(n));
    }
  }

  lemma XNamePlain(n: nat)
    ensures Plain(XName(n))
  {
    NumberPlain(n);
    assert XName(n) == "x" + IntToString(n);
  }

  lemma MnemonicPlain(k: Kind)
    ensures Plain(Mnemonic(k))
  {
  }

  /** The tokens of an instruction, in the order its group reads them. */
  function Tokens(i: Instr): seq<string>
    requires RegsNatural(i)
  {
    var m := Mnemonic(KindOf(i));
    match i
    case RType(_, rd, rs1, rs2) => [m, XName(rd), XName(rs1), XName(rs2)]
    case Load(_, rd, imm, rs) => [m, XName(rd), IntToString(imm), XName(rs)]
    case AluImm(_, rd, imm, rs) => [m, XName(rd), XName(rs), IntToString(imm)]
    case Jalr(rd, imm, rs) => [m, XName(rd), IntToString(imm), XName(rs)]
    case Store(_, rs1, rs2, imm) => [m, XName(rs2), IntToString(imm), XName(rs1)]
    case Branch(_, rs1, rs2, imm) => [m, XName(rs1), XName(rs2), IntToString(imm)]
    case Lui(rd, imm) => [m, XName(rd), IntToString(imm)]
    case Jal(rd, imm) => [m, XName(rd), IntToString(imm)]
  }

  /** The gaps of the canonical line: `add x3, x2, x1`, `lw x2, -100(x1)`. */
  function Gaps(i: Instr): seq<string> {
    match i
    case Load(_, _, _, _) => [" ", ", ", "(", ")"]
    case Jalr(_, _, _) => [" ", ", ", "(", ")"]
    case Store(_, _, _, _) => [" ", ", ", "(", ")"]
    case Lui(_, _) => [" ", ", ", ""]
    case Jal(_, _) => [" ", ", ", ""]
    case _ => [" ", ", ", ", ", ""]
  }

  /** Registers named by number need a number to name them by. */
  predicate RegsNatural(i: Instr) {
    match i
    case RType(_, rd, rs1, rs2) => rd >= 0 && rs1 >= 0 && rs2 >= 0
    case Load(_, rd, _, rs) => rd >= 0 && rs >= 0
    case AluImm(_, rd, _, rs) => rd >= 0 && rs >= 0
    case Jalr(rd, _, rs) => rd >= 0 && rs >= 0
    case Store(_, rs1, rs2, _) => rs1 >= 0 && rs2 >= 0
    case Branch(_, rs1, rs2, _) => rs1 >= 0 && rs2 >= 0
    case Lui(rd, _) => rd >= 0
    case Jal(rd, _) => rd >= 0
  }

  /** The assembly line of an instruction, registers named by number. */
  function Spell(i: Instr): string
    requires RegsNatural(i)
  {
    Line(Tokens(i), Gaps(i))
  }

  lemma TokensPlain(i: Instr)
    requires RegsNatural(i)
    ensures forall j | 0 <= j < |Tokens(i)| :: Plain(Tokens(i)[j])
  {
    MnemonicPlain(KindOf(i));
    match i
    case RType(_, rd, rs1, rs2) => XNamePlain(rd); XNamePlain(rs1); XNamePlain(rs2);
    case Load(_, rd, imm, rs) => XNamePlain(rd); NumberPlain(imm); XNamePlain(rs);
    case AluImm(_, rd, imm, rs) => XNamePlain(rd); NumberPlain(imm); XNamePlain(rs);
    case Jalr(rd, imm, rs) => XNamePlain(rd); NumberPlain(imm); XNamePlain(rs);
    case Store(_, rs1, rs2, imm) => XNamePlain(rs1); NumberPlain(imm); XNamePlain(rs2);
    case Branch(_, rs1, rs2, imm) => XNamePlain(rs1); NumberPlain(imm); XNamePlain(rs2);
    case Lui(rd, imm) => XNamePlain(rd); NumberPlain(imm);
    case Jal(rd, imm) => XNamePlain(rd); NumberPlain(imm);
  }

  /** The tokenizer reads a spelled instruction back into its tokens. */
  lemma SpellTokens(i: Instr)
    requires RegsNatural(i)
    ensures ExtractTokens(Spell(i)) == Tokens(i)
  {
    TokensPlain(i);
    var gs := Gaps(i);
    assert forall j | 0 <= j < |gs| :: Gap(gs[j]);
    hide Tokens;
    LineTokens(Tokens(i), gs);
  }

  // ---------------------------------------------------------------------
  // Registers

  /** `__register_index(s)` as written: "x" and a number give that number;
      any other name reaches `s in registers`, where `registers` is not
      defined, and raises NameError. */
  function RegisterToken(s: string): (r: Result<int>)
    ensures r.Ok? ==> |s| >= 2 && s[0] == 'x'
  {
    if StartsWith(s, 'x') then ParseInt(s[1..]) else Err(NameError)
  }

  /** `__register_index` with the register table in scope: ABI names are
      looked up in it; a name in neither form is the TypeError the method
      raises. */
  function RegisterTokenFixed(s: string): (r: Result<int>)
    ensures r.Ok? && !StartsWith(s, 'x') ==> 0 <= r.value < 32
  {
    IndicesInRange();
    if StartsWith(s, 'x') then ParseInt(s[1..])
    else if s in RegistersDir then Ok(RegistersDir[s] as int)
    else Err(TypeError)
  }

  /** A register named by number reads back as that number, either way. */
  lemma RegisterTokenXName(n: nat)
    ensures RegisterToken(XName(n)) == Ok(n)
    ensures RegisterTokenFixed(XName(n)) == Ok(n)
  {
    ParseIntToString(n);
    assert XName(n)[1..] == IntToString(n);
  }

  /** As written, every ABI name raises NameError. */
  lemma AbiNamesRaise(name: string)
    requires name in AbiNames
    ensures RegisterToken(name) == Err(NameError)
  {
    AbiPrefix();
  }

  /** With the table in scope, an ABI name reads as its register, and "sp"
      as 8, the binding the table keeps. */
  lemma AbiNamesResolveFixed(name: string)
    requires name in AbiNames
    ensures RegisterTokenFixed(name) == Ok(AbiNames[name] as int)
    ensures name == "sp" ==> RegisterTokenFixed(name) == Ok(8)
  {
    AbiPrefix();
    AbiLookup(name);
    SpIsEight();
  }

  // ---------------------------------------------------------------------
  // Lines

  function TokenAt(tokens: seq<string>, n: nat): Result<string> {
    if n < |tokens| then Ok(tokens[n]) else Err(IndexError)
  }

  /** `ridx(tokens[n])`. */
  function RegAt(tokens: seq<string>, n: nat, fixed: bool): Result<int> {
    var t :- TokenAt(tokens, n);
    if fixed then RegisterTokenFixed(t) else RegisterToken(t)
  }

  /** `int(tokens[n])`. */
  function IntAt(tokens: seq<string>, n: nat): Result<int> {
    var t :- TokenAt(tokens, n);
    ParseInt(t)
  }

  /** The operands of an as-written line of class `k`, read in the order
      `__translate` reads them: an R line builds its instruction, every
      other group reads up to its immediate and raises Warning. */
  function Read(k: Kind, tokens: seq<string>): (r: Result<Instr>)
    ensures r.Ok? ==> k.KR? && KindOf(r.value) == k
  {
    match k
    case KR(op) =>
      var rd :- RegAt(tokens, 1, false);
      var rs1 :- RegAt(tokens, 2, false);
      var rs2 :- RegAt(tokens, 3, false);
      Ok(RType(op, rd, rs1, rs2))
    case KImm(_) =>
      var rd :- RegAt(tokens, 1, false);
      var rs1 :- RegAt(tokens, 2, false);
      var imm :- IntAt(tokens, 3);
      Err(Warning)
    case KStore(_) =>
      var rs2 :- RegAt(tokens, 1, false);
      var imm :- IntAt(tokens, 2);
      Err(Warning)
    case KBranch(_) =>
      var rs1 :- RegAt(tokens, 1, false);
      var rs2 :- RegAt(tokens, 2, false);
      var imm :- IntAt(tokens, 3);
      Err(Warning)
    case _ =>
      // the loads, jalr, lui and jal read rd and then the immediate
      var rd :- RegAt(tokens, 1, false);
      var imm :- IntAt(tokens, 2);
      Err(Warning)
  }

  /** `__translate(tokens)` as written: IndexError on an empty line,
      ValueError on an unknown mnemonic, and otherwise the operands of the
      class the mnemonic names. */
  function Translate(tokens: seq<string>): (r: Result<Instr>)
    ensures r.Ok? ==> tokens != [] && r.value.RType? && ClassNamed(tokens[0]) == Some(KindOf(r.value))
    ensures tokens == [] ==> r == Err(IndexError)
    ensures tokens != [] && ClassNamed(tokens[0]).None? ==> r == Err(ValueError)
  {
    if tokens == [] then Err(IndexError)
    else
      match ClassNamed(tokens[0])
      case None => Err(ValueError)
      case Some(k) => Read(k, tokens)
  }

  /** The operands of a line of class `k`, in the order `__translate` reads
      them, with ABI names looked up: (rd, rs1, rs2) for R, (rd, imm, rs)
      for the loads and jalr, (rd, rs, imm) for the ALU immediates,
      (rs2, imm, rs1) for stores, (rs1, rs2, imm) for branches and (rd, imm)
      for lui and jal. */
  function Operands(k: Kind, tokens: seq<string>): Result<(int, int, int)> {
    match k
    case KR(_) =>
      var a :- RegAt(tokens, 1, true);
      var b :- RegAt(tokens, 2, true);
      var c :- RegAt(tokens, 3, true);
      Ok((a, b, c))
    case KImm(_) =>
      var a :- RegAt(tokens, 1, true);
      var b :- RegAt(tokens, 2, true);
      var c :- IntAt(tokens, 3);
      Ok((a, b, c))
    case KStore(_) =>
      var a :- RegAt(tokens, 1, true);
      var b :- IntAt(tokens, 2);
      var c :- RegAt(tokens, 3, true);
      Ok((a, b, c))
    case KBranch(_) =>
      var a :- RegAt(tokens, 1, true);
      var b :- RegAt(tokens, 2, true);
      var c :- IntAt(tokens, 3);
      Ok((a, b, c))
    case KLui | KJal =>
      var a :- RegAt(tokens, 1, true);
      var b :- IntAt(tokens, 2);
      Ok((a, b, 0))
    case _ =>
      // the loads and jalr
      var a :- RegAt(tokens, 1, true);
      var b :- IntAt(tokens, 2);
      var c :- RegAt(tokens, 3, true);
      Ok((a, b, c))
  }

  /** The instruction of class `k` built from its operands in reading
      order, each passed under the keyword the class takes. */
  function Assemble(k: Kind, ops: (int, int, int)): (i: Instr)
    ensures KindOf(i) == k
  {
    var (a, b, c) := ops;
    match k
    case KR(op) => RType(op, a, b, c)
    case KLoad(op) => Load(op, a, b, c)
    case KJalr => Jalr(a, b, c)
    case KImm(op) => AluImm(op, a, c, b)
    case KStore(op) => Store(op, c, a, b)
    case KBranch(op) => Branch(op, a, b, c)
    case KLui => Lui(a, b)
    case KJal => Jal(a, b)
  }

  /** A line of class `k` with the `raise Warning`s removed, the I classes
      given their `rs` keyword and ABI names looked up. */
  function Build(k: Kind, tokens: seq<string>): (r: Result<Instr>)
    ensures r.Ok? ==> KindOf(r.value) == k
  {
    var ops :- Operands(k, tokens);
    Ok(Assemble(k, ops))
  }

  /** The corrected `__translate`. */
  function TranslateFixed(tokens: seq<string>): (r: Result<Instr>)
    ensures r.Ok? ==> tokens != [] && ClassNamed(tokens[0]) == Some(KindOf(r.value))
    ensures tokens == [] ==> r == Err(IndexError)
    ensures tokens != [] && ClassNamed(tokens[0]).None? ==> r == Err(ValueError)
  {
    if tokens == [] then Err(IndexError)
    else
      match ClassNamed(tokens[0])
      case None => Err(ValueError)
      case Some(k) => Build(k, tokens)
  }

  /** A register token spelled by number reads back, either way. */
  lemma RegAtName(ts: seq<string>, n: nat, fixed: bool, reg: nat)
    requires n < |ts| && ts[n] == XName(reg)
    ensures RegAt(ts, n, fixed) == Ok(reg)
  {
    RegisterTokenXName(reg);
    hide XName, RegisterToken, RegisterTokenFixed;
  }

  /** An immediate token spelled in decimal reads back. */
  lemma IntAtNumber(ts: seq<string>, n: nat, imm: int)
    requires n < |ts| && ts[n] == IntToString(imm)
    ensures IntAt(ts, n) == Ok(imm)
  {
    ParseIntToString(imm);
    hide IntToString, ParseInt;
  }

  /** The class token of the canonical tokens selects the class. */
  lemma TokensClass(i: Instr)
    requires RegsNatural(i)
    ensures |Tokens(i)| >= 3 && ClassNamed(Tokens(i)[0]) == Some(KindOf(i))
  {
    ClassNamedMnemonic(KindOf(i));
  }

  lemma ReadR(ts: seq<string>, op: ROp, rd: nat, rs1: nat, rs2: nat)
    requires |ts| == 4 && ts[1] == XName(rd) && ts[2] == XName(rs1) && ts[3] == XName(rs2)
    ensures Build(KR(op), ts) == Ok(RType(op, rd, rs1, rs2))
    ensures Read(KR(op), ts) == Ok(RType(op, rd, rs1, rs2))
  {
    hide RegAt, IntAt, XName, IntToString;
    RegAtName(ts, 1, true, rd); RegAtName(ts, 2, true, rs1); RegAtName(ts, 3, true, rs2);
    RegAtName(ts, 1, false, rd); RegAtName(ts, 2, false, rs1); RegAtName(ts, 3, false, rs2);
  }

  lemma ReadLoad(ts: seq<string>, op: LoadOp, rd: nat, imm: int, rs: nat)
    requires |ts| == 4 && ts[1] == XName(rd) && ts[2] == IntToString(imm) && ts[3] == XName(rs)
    ensures Build(KLoad(op), ts) == Ok(Load(op, rd, imm, rs))
    ensures Read(KLoad(op), ts) == Err(Warning)
  {
    hide RegAt, IntAt, XName, IntToString;
    RegAtName(ts, 1, true, rd); IntAtNumber(ts, 2, imm); RegAtName(ts, 3, true, rs);
    RegAtName(ts, 1, false, rd); IntAtNumber(ts, 2, imm); RegAtName(ts, 3, false, rs);
  }

  lemma ReadImm(ts: seq<string>, op: ImmOp, rd: nat, imm: int, rs: nat)
    requires |ts| == 4 && ts[1] == XName(rd) && ts[2] == XName(rs) && ts[3] == IntToString(imm)
    ensures Build(KImm(op), ts) == Ok(AluImm(op, rd, imm, rs))
    ensures Read(KImm(op), ts) == Err(Warning)
  {
    hide RegAt, IntAt, XName, IntToString;
    RegAtName(ts, 1, true, rd); RegAtName(ts, 2, true, rs); IntAtNumber(ts, 3, imm);
    RegAtName(ts, 1, false, rd); RegAtName(ts, 2, false, rs); IntAtNumber(ts, 3, imm);
  }

  lemma ReadJalr(ts: seq<string>, rd: nat, imm: int, rs: nat)
    requires |ts| == 4 && ts[1] == XName(rd) && ts[2] == IntToString(imm) && ts[3] == XName(rs)
    ensures Build(KJalr, ts) == Ok(Jalr(rd, imm, rs))
    ensures Read(KJalr, ts) == Err(Warning)
  {
    hide RegAt, IntAt, XName, IntToString;
    RegAtName(ts, 1, true, rd); IntAtNumber(ts, 2, imm); RegAtName(ts, 3, true, rs);
    RegAtName(ts, 1, false, rd); IntAtNumber(ts, 2, imm); RegAtName(ts, 3, false, rs);
  }

  lemma ReadStore(ts: seq<string>, op: StoreOp, rs1: nat, rs2: nat, imm: int)
    requires |ts| == 4 && ts[1] == XName(rs2) && ts[2] == IntToString(imm) && ts[3] == XName(rs1)
    ensures Build(KStore(op), ts) == Ok(Store(op, rs1, rs2, imm))
    ensures Read(KStore(op), ts) == Err(Warning)
  {
    hide RegAt, IntAt, XName, IntToString;
    RegAtName(ts, 1, true, rs2); IntAtNumber(ts, 2, imm); RegAtName(ts, 3, true, rs1);
    RegAtName(ts, 1, false, rs2); IntAtNumber(ts, 2, imm); RegAtName(ts, 3, false, rs1);
  }

  lemma ReadBranch(ts: seq<string>, op: BranchOp, rs1: nat, rs2: nat, imm: int)
    requires |ts| == 4 && ts[1] == XName(rs1) && ts[2] == XName(rs2) && ts[3] == IntToString(imm)
    ensures Build(KBranch(op), ts) == Ok(Branch(op, rs1, rs2, imm))
    ensures Read(KBranch(op), ts) == Err(Warning)
  {
    hide RegAt, IntAt, XName, IntToString;
    RegAtName(ts, 1, true, rs1); RegAtName(ts, 2, true, rs2); IntAtNumber(ts, 3, imm);
    RegAtName(ts, 1, false, rs1); RegAtName(ts, 2, false, rs2); IntAtNumber(ts, 3, imm);
  }

  lemma ReadLui(ts: seq<string>, rd: nat, imm: int)
    requires |ts| == 3 && ts[1] == XName(rd) && ts[2] == IntToString(imm)
    ensures Build(KLui, ts) == Ok(Lui(rd, imm))
    ensures Read(KLui, ts) == Err(Warning)
  {
    hide RegAt, IntAt, XName, IntToString;
    RegAtName(ts, 1, true, rd); IntAtNumber(ts, 2, imm);
    RegAtName(ts, 1, false, rd); IntAtNumber(ts, 2, imm);
  }

  lemma ReadJal(ts: seq<string>, rd: nat, imm: int)
    requires |ts| == 3 && ts[1] == XName(rd) && ts[2] == IntToString(imm)
    ensures Build(KJal, ts) == Ok(Jal(rd, imm))
    ensures Read(KJal, ts) == Err(Warning)
  {
    hide RegAt, IntAt, XName, IntToString;
    RegAtName(ts, 1, true, rd); IntAtNumber(ts, 2, imm);
    RegAtName(ts, 1, false, rd); IntAtNumber(ts, 2, imm);
  }

  /** The canonical tokens of an instruction build it back, and as written
      only an R instruction's do. */
  lemma ReadTokens(i: Instr)
    requires RegsNatural(i)
    ensures Build(KindOf(i), Tokens(i)) == Ok(i)
    ensures Read(KindOf(i), Tokens(i)) == if i.RType? then Ok(i) else Err(Warning)
  {
    var ts := Tokens(i);
    match i
    case RType(op, rd, rs1, rs2) => ReadR(ts, op, rd, rs1, rs2);
    case Load(op, rd, imm, rs) => ReadLoad(ts, op, rd, imm, rs);
    case AluImm(op, rd, imm, rs) => ReadImm(ts, op, rd, imm, rs);
    case Jalr(rd, imm, rs) => ReadJalr(ts, rd, imm, rs);
    case Store(op, rs1, rs2, imm) => ReadStore(ts, op, rs1, rs2, imm);
    case Branch(op, rs1, rs2, imm) => ReadBranch(ts, op, rs1, rs2, imm);
    case Lui(rd, imm) => ReadLui(ts, rd, imm);
    case Jal(rd, imm) => ReadJal(ts, rd, imm);
  }

  /** The corrected reader turns the spelled line of any instruction back
      into that instruction. */
  lemma SpellRoundTrip(i: Instr)
    requires RegsNatural(i)
    ensures TranslateFixed(ExtractTokens(Spell(i))) == Ok(i)
  {
    SpellTokens(i);
    TokensClass(i);
    ReadTokens(i);
    hide Spell, ExtractTokens, Tokens, ClassNamed, Build;
  }

  /** As written, only R lines come back; every other spelled line raises
      Warning. */
  lemma SpellAsWritten(i: Instr)
    requires RegsNatural(i)
    ensures Translate(ExtractTokens(Spell(i))) == if i.RType? then Ok(i) else Err(Warning)
  {
    SpellTokens(i);
    TokensClass(i);
    ReadTokens(i);
    hide Spell, ExtractTokens, Tokens, ClassNamed, Read;
  }

  /** The words of the factory test's line are plain. */
  lemma TestWordsPlain()
    ensures Plain("lw") && Plain("x2") && Plain("-100") && Plain("x1")
  {
  }

  /** The factory test's line is its words joined by their separators. */
  lemma TestLineShape()
    ensures Line(["lw", "x2", "-100", "x1"], [" ", ", ", "(", ")"]) == "lw x2, -100(x1)"
  {
  }

  /** The line of the factory test reads as the tokens the test expects. */
  lemma TestLineTokens()
    ensures ExtractTokens("lw x2, -100(x1)") == ["lw", "x2", "-100", "x1"]
  {
    hide Plain, Line, ExtractTokens;
    var words: seq<string> := ["lw", "x2", "-100", "x1"];
    var gaps: seq<string> := [" ", ", ", "(", ")"];
    TestWordsPlain();
    TestLineShape();
    LineTokens(words, gaps);
  }

  // ---------------------------------------------------------------------
  // get

  /** What `get` is given: a line of text or a word. */
  datatype Source = Text(line: string) | Word(value: int)

  /** `InstructionFactory.get(x)`. */
  function Get(x: Source): (r: Result<Instr>)
    ensures x.Word? ==> r.Err?
    ensures x.Text? && r.Ok? ==> r.value.RType?
  {
    match x
    case Text(line) => Translate(ExtractTokens(line))
    case Word(value) => TranslateIntRaises(value); TranslateInt(value)
  }
}
