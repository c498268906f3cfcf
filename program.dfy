/** `InstructionFactory.get_text`: assembling a program text.

    The text is cut into lines; each line loses its `;` comment and its
    surrounding blanks. A first pass gives each `label:` line the number
    of non-label lines before it (blank and comment-only lines count); a
    label line, and any line whose name is a label, is then dropped. In
    every remaining line each label, in the order the labels were first
    defined, is replaced by `(label index - line index) * 2`; blank lines
    are dropped and each line left goes through `get`. */
module Program {
  import opened Wrappers
  import opened Text
  import opened Encoding
  import opened Factory

  // ---------------------------------------------------------------------
  // Lines

  /** `remove_comment(line)`: the longest prefix of the line without `;`. */
  function RemoveComment(line: string): (r: string)
    ensures |r| <= |line| && r == line[..|r|]
    ensures ';' !in r
    ensures |r| < |line| ==> line[|r|] == ';'
  {
    var k := Find(line, ';');
    if k == -1 then line else line[..k]
  }

  /** The lines of the text without comments, stripped. */
  function CleanLines(text: string): seq<string> {
    var ls := SplitLines(text);
    seq(|ls|, i requires 0 <= i < |ls| => Strip(RemoveComment(ls[i])))
  }

  lemma {:induction false} LStripKeeps(s: string, c: char)
    requires c !in s
    ensures c !in LStrip(s)
    decreases |s|
  {
    if s != [] && IsSpace(s[0]) {
      assert forall d | d in s[1..] :: d in s;
      LStripKeeps(s[1..], c);
    }
  }

  lemma StripKeeps(s: string, c: char)
    requires c !in s
    ensures c !in Strip(s)
  {
    LStripKeeps(s, c);
    var t := LStrip(s);
    var r := RStrip(t);
    assert forall j | 0 <= j < |r| :: r[j] == t[j];
  }

  /** No cleaned line holds a `;`. */
  lemma CleanLinesNoComment(text: string)
    ensures forall l | l in CleanLines(text) :: ';' !in l
  {
    var ls := SplitLines(text);
    forall i | 0 <= i < |ls|
      ensures ';' !in CleanLines(text)[i]
    {
      StripKeeps(RemoveComment(ls[i]), ';');
    }
  }

  // ---------------------------------------------------------------------
  // The label pass

  /** `labels`: a dictionary, as its pairs in insertion order. */
  type Labels = seq<(string, int)>

  /** `labels.get(k)`. */
  function Lookup(d: Labels, k: string): (r: Option<int>)
    ensures r.Some? <==> exists i | 0 <= i < |d| :: d[i].0 == k
  {
    if d == [] then None
    else if d[0].0 == k then Some(d[0].1)
    else
      assert forall i | 1 <= i < |d| :: d[i] == d[1..][i - 1];
      Lookup(d[1..], k)
  }

  /** No key appears twice. */
  predicate Distinct(d: Labels) {
    forall i, j | 0 <= i < j < |d| :: d[i].0 != d[j].0
  }

  /** `labels[k] = v`: a new key goes last; an existing key keeps its place
      and takes the new value. */
  function Put(d: Labels, k: string, v: int): (r: Labels)
    ensures Lookup(r, k) == Some(v)
    ensures forall k' | k' != k :: Lookup(r, k') == Lookup(d, k')
    ensures Lookup(d, k).None? ==> r == d + [(k, v)]
    ensures Lookup(d, k).Some? ==> |r| == |d| && forall i | 0 <= i < |d| :: r[i].0 == d[i].0
  {
    if d == [] then [(k, v)]
    else if d[0].0 == k then [(k, v)] + d[1..]
    else
      var rest := Put(d[1..], k, v);
      assert forall i | 1 <= i < |d| :: d[i] == d[1..][i - 1];
      [d[0]] + rest
  }

  /** Assignment never duplicates a key. */
  lemma {:induction false} PutDistinct(d: Labels, k: string, v: int)
    requires Distinct(d)
    ensures Distinct(Put(d, k, v))
    decreases |d|
  {
    if d != [] && d[0].0 == k {
      var r := Put(d, k, v);
      assert forall i | 0 <= i < |d| :: r[i].0 == d[i].0;
    } else if d != [] {
      var tail := d[1..];
      assert Distinct(tail) by {
        forall i, j | 0 <= i < j < |tail| ensures tail[i].0 != tail[j].0 {
          assert tail[i] == d[i + 1] && tail[j] == d[j + 1];
        }
      }
      PutDistinct(tail, k, v);
      var rest := Put(tail, k, v);
      forall i | 0 <= i < |rest| ensures rest[i].0 != d[0].0 {
        if Lookup(tail, k).None? && i == |tail| {
          assert rest[i].0 == k;
        } else {
          assert rest[i].0 == tail[i].0 == d[i + 1].0;
        }
      }
      assert Put(d, k, v) == [d[0]] + rest;
    }
  }


  predicate IsLabelLine(line: string) {
    EndsWith(line, ':')
  }

  /** `line.rstrip(":")`. */
  function LabelName(line: string): string {
    RStripChar(line, ':')
  }

  /** `index` after the label pass over `lines`: the number of lines that
      are not label lines. */
  function Count(lines: seq<string>): (n: nat)
    ensures n <= |lines|
    ensures (forall l | l in lines :: !IsLabelLine(l)) ==> n == |lines|
  {
    if lines == [] then 0
    else
      var init := lines[..|lines| - 1];
      assert forall l | l in init :: l in lines;
      Count(init) + (if IsLabelLine(lines[|lines| - 1]) then 0 else 1)
  }

  /** `labels` after the label pass over `lines`. */
  function LabelsOf(lines: seq<string>): Labels {
    if lines == [] then []
    else
      var init := lines[..|lines| - 1];
      var last := lines[|lines| - 1];
      if IsLabelLine(last) then Put(LabelsOf(init), LabelName(last), Count(init))
      else LabelsOf(init)
  }

  /** The label pass of `get_text`. */
  method CollectLabels(lines: seq<string>) returns (labels: Labels, index: nat)
    ensures labels == LabelsOf(lines) && index == Count(lines)
  {
    labels, index := [], 0;
    for j := 0 to |lines|
      invariant labels == LabelsOf(lines[..j]) && index == Count(lines[..j])
    {
      assert lines[..j + 1][..j] == lines[..j];
      var line := lines[j];
      if IsLabelLine(line) {
        labels := Put(labels, LabelName(line), index);
      } else {
        index := index + 1;
      }
    }
    assert lines[..|lines|] == lines;
  }

  /** The dictionary never holds a key twice. */
  lemma {:induction false} LabelsOfDistinct(lines: seq<string>)
    ensures Distinct(LabelsOf(lines))
    decreases |lines|
  {
    if lines != [] {
      var init := lines[..|lines| - 1];
      LabelsOfDistinct(init);
      if IsLabelLine(lines[|lines| - 1]) {
        PutDistinct(LabelsOf(init), LabelName(lines[|lines| - 1]), Count(init));
      }
    }
  }

  /** A name is a key exactly when some line is a label line with that
      name. */
  lemma {:induction false} LabelsOfKeys(lines: seq<string>, k: string)
    ensures Lookup(LabelsOf(lines), k).Some? <==>
      exists j | 0 <= j < |lines| :: IsLabelLine(lines[j]) && LabelName(lines[j]) == k
    decreases |lines|
  {
    if lines != [] {
      var init := lines[..|lines| - 1];
      LabelsOfKeys(init, k);
      assert forall j | 0 <= j < |init| :: init[j] == lines[j];
    }
  }

  /** The value of a label is the number of non-label lines before its last
      definition. */
  lemma {:induction false} LabelsOfValue(lines: seq<string>, j: nat)
    requires j < |lines| && IsLabelLine(lines[j])
    requires forall j' | j < j' < |lines| :: !(IsLabelLine(lines[j']) && LabelName(lines[j']) == LabelName(lines[j]))
    ensures Lookup(LabelsOf(lines), LabelName(lines[j])) == Some(Count(lines[..j]))
    decreases |lines|
  {
    var init := lines[..|lines| - 1];
    if j < |lines| - 1 {
      assert forall j' | 0 <= j' < |init| :: init[j'] == lines[j'];
      assert init[..j] == lines[..j];
      LabelsOfValue(init, j);
    } else {
      assert init == lines[..j];
    }
  }

  // ---------------------------------------------------------------------
  // Dropping label lines

  /** `filter(lambda x: x.rstrip(":") not in labels, text)`. */
  function Unlabelled(lines: seq<string>, labels: Labels): (r: seq<string>)
    ensures |r| <= |lines|
    ensures forall l | l in r :: l in lines && Lookup(labels, LabelName(l)).None?
    ensures forall l | l in lines && Lookup(labels, LabelName(l)).None? :: l in r
    ensures (forall l | l in lines :: Lookup(labels, LabelName(l)).None?) ==> r == lines
  {
    if lines == [] then []
    else
      var rest := Unlabelled(lines[1..], labels);
      assert forall l | l in lines[1..] :: l in lines;
      assert forall l | l in lines :: l == lines[0] || l in lines[1..];
      if Lookup(labels, LabelName(lines[0])).None? then [lines[0]] + rest else rest
  }

  /** Every label line is dropped. */
  lemma UnlabelledDropsLabels(lines: seq<string>)
    ensures forall l | l in Unlabelled(lines, LabelsOf(lines)) :: !IsLabelLine(l)
  {
    forall l | l in Unlabelled(lines, LabelsOf(lines))
      ensures !IsLabelLine(l)
    {
      var j :| 0 <= j < |lines| && lines[j] == l;
      LabelsOfKeys(lines, LabelName(l));
    }
  }

  // ---------------------------------------------------------------------
  // Replacing labels by offsets

  /** The offset a label stands for on line `curr`. */
  function Offset(index: int, curr: int): int {
    (index - curr) * 2
  }

  /** `replace_labels_with_offsets((curr, line))`: each label in turn, in
      insertion order, replaced everywhere in the line by its offset. */
  function Resolve(line: string, curr: int, labels: Labels): (r: string)
    ensures (forall i | 0 <= i < |labels| ::
               labels[i].0 != [] && forall p: nat | p < |line| :: !OccursAt(line, labels[i].0, p)) ==> r == line
    decreases |labels|
  {
    if labels == [] then line
    else
      var next := ReplaceAll(line, labels[0].0, IntToString(Offset(labels[0].1, curr)));
      assert forall i | 1 <= i < |labels| :: labels[i] == labels[1..][i - 1];
      Resolve(next, curr, labels[1..])
  }

  /** The inner loop of `replace_labels_with_offsets`. */
  method ResolveLine(line: string, curr: int, labels: Labels) returns (r: string)
    ensures r == Resolve(line, curr, labels)
  {
    r := line;
    for j := 0 to |labels|
      invariant Resolve(r, curr, labels[j..]) == Resolve(line, curr, labels)
    {
      assert labels[j..][1..] == labels[j + 1..];
      r := ReplaceAll(r, labels[j].0, IntToString(Offset(labels[j].1, curr)));
    }
  }

  /** Where the pattern does not start, `replace` keeps the character. */
  lemma ReplaceAllSkip(s: string, pat: string, rep: string)
    requires pat != [] && |pat| <= |s| && !OccursAt(s, pat, 0)
    ensures ReplaceAll(s, pat, rep) == [s[0]] + ReplaceAll(s[1..], pat, rep)
  {
    assert s[0..|pat|] == s[..|pat|];
  }

  /** The pattern alone becomes the replacement. */
  lemma ReplaceAllWhole(pat: string, rep: string)
    requires pat != []
    ensures ReplaceAll(pat, pat, rep) == rep
  {
    assert pat[..|pat|] == pat && pat[|pat|..] == [];
  }

  /** A label that ends the line, and occurs nowhere else in it, becomes
      its offset. */
  lemma {:induction false} ReplaceAtEnd(p: string, name: string, rep: string)
    requires name != []
    requires forall i: nat | i < |p| :: !OccursAt(p + name, name, i)
    ensures ReplaceAll(p + name, name, rep) == p + rep
    decreases |p|
  {
    hide ReplaceAll;
    var s := p + name;
    if p == [] {
      assert s == name;
      ReplaceAllWhole(name, rep);
    } else {
      ReplaceAllSkip(s, name, rep);
      assert s[1..] == p[1..] + name;
      forall i: nat | i < |p[1..]|
        ensures !OccursAt(p[1..] + name, name, i)
      {
        assert !OccursAt(s, name, i + 1);
        assert s[i + 1..i + 1 + |name|] == (p[1..] + name)[i..i + |name|];
      }
      ReplaceAtEnd(p[1..], name, rep);
      assert p + rep == [p[0]] + (p[1..] + rep);
    }
  }

  /** A branch whose target is the only label, named once at its end,
      gets the offset of that label. */
  lemma ResolveTarget(p: string, curr: int, name: string, index: int)
    requires name != []
    requires forall i: nat | i < |p| :: !OccursAt(p + name, name, i)
    ensures Resolve(p + name, curr, [(name, index)]) == p + IntToString(Offset(index, curr))
  {
    ReplaceAtEnd(p, name, IntToString(Offset(index, curr)));
  }

  // ---------------------------------------------------------------------
  // Dropping blank lines and translating

  /** `filter(lambda x: x and not x.isspace(), text)`. */
  function NonBlank(lines: seq<string>): (r: seq<string>)
    ensures forall l | l in r :: l in lines && l != [] && !IsSpaceString(l)
    ensures forall l | l in lines && l != [] && !IsSpaceString(l) :: l in r
  {
    if lines == [] then []
    else
      var rest := NonBlank(lines[1..]);
      assert forall l | l in lines[1..] :: l in lines;
      assert forall l | l in lines :: l == lines[0] || l in lines[1..];
      if lines[0] != [] && !IsSpaceString(lines[0]) then [lines[0]] + rest else rest
  }

  /** A list comprehension whose elements may raise: every value, or the
      error of the first element that raises. */
  function Collect(rs: seq<Result<Instr>>): (r: Result<seq<Instr>>)
    ensures r.Ok? <==> forall i | 0 <= i < |rs| :: rs[i].Ok?
    ensures r.Ok? ==> (|r.value| == |rs| && forall i | 0 <= i < |rs| :: rs[i] == Ok(r.value[i]))
    ensures r.Err? ==>
      (exists i | 0 <= i < |rs| :: rs[i] == Err(r.error) && forall j | 0 <= j < i :: rs[j].Ok?)
  {
    if rs == [] then Ok([])
    else
      var first :- rs[0];
      var rest := Collect(rs[1..]);
      assert forall i | 1 <= i < |rs| :: rs[i] == rs[1..][i - 1];
      if rest.Err? then Err(rest.error) else Ok([first] + rest.value)
  }

  /** `[cls.get(_) for _ in text]`. */
  function TranslateAll(lines: seq<string>): Result<seq<Instr>> {
    Collect(seq(|lines|, i requires 0 <= i < |lines| => Get(Text(lines[i]))))
  }

  /** The list stops at the first element that raises. */
  lemma CollectFirstError(rs: seq<Result<Instr>>, i: nat)
    requires i < |rs| && rs[i].Err? && forall j | 0 <= j < i :: rs[j].Ok?
    ensures Collect(rs) == Err(rs[i].error)
  {
    var r := Collect(rs);
    assert r.Err?;
    var k :| 0 <= k < |rs| && rs[k] == Err(r.error) && forall j | 0 <= j < k :: rs[j].Ok?;
    assert k == i;
  }

  /** When no element raises, the list holds every value. */
  lemma CollectAll(rs: seq<Result<Instr>>, out: seq<Instr>)
    requires |out| == |rs| && forall j | 0 <= j < |rs| :: rs[j] == Ok(out[j])
    ensures Collect(rs) == Ok(out)
  {
    var r := Collect(rs);
    assert r.Ok?;
    assert forall j | 0 <= j < |rs| :: r.value[j] == out[j];
  }

  /** The translation loop: `get` on each line in turn, stopping at the
      first that raises. */
  method TranslateLines(lines: seq<string>) returns (r: Result<seq<Instr>>)
    ensures r == TranslateAll(lines)
  {
    hide Get, Collect;
    ghost var rs := seq(|lines|, i requires 0 <= i < |lines| => Get(Text(lines[i])));
    var out: seq<Instr> := [];
    for i := 0 to |lines|
      invariant |out| == i
      invariant forall j | 0 <= j < i :: rs[j] == Ok(out[j])
    {
      var g := Get(Text(lines[i]));
      if g.Err? {
        CollectFirstError(rs, i);
        return Err(g.error);
      }
      out := out + [g.value];
    }
    CollectAll(rs, out);
    return Ok(out);
  }

  /** The lines `get_text` hands to `get`. */
  function Resolved(text: string): seq<string> {
    var lines := CleanLines(text);
    var labels := LabelsOf(lines);
    NonBlank(ResolveAll(Unlabelled(lines, labels), labels))
  }

  /** What `get_text(text)` returns, or the error it raises. */
  function AssembleText(text: string): Result<seq<Instr>> {
    TranslateAll(Resolved(text))
  }

  /** The lines after `replace_labels_with_offsets`, each given its index. */
  function ResolveAll(kept: seq<string>, labels: Labels): seq<string> {
    seq(|kept|, i requires 0 <= i < |kept| => Resolve(kept[i], i, labels))
  }

  /** `list(map(replace_labels_with_offsets, enumerate(text)))`. */
  method ResolveLines(kept: seq<string>, labels: Labels) returns (resolved: seq<string>)
    ensures resolved == ResolveAll(kept, labels)
  {
    resolved := [];
    for curr := 0 to |kept|
      invariant |resolved| == curr
      invariant forall i | 0 <= i < curr :: resolved[i] == Resolve(kept[i], i, labels)
    {
      var line := ResolveLine(kept[curr], curr, labels);
      resolved := resolved + [line];
    }
  }

  /** `InstructionFactory.get_text(text)`. */
  method GetText(text: string) returns (r: Result<seq<Instr>>)
    ensures r == AssembleText(text)
  {
    hide Get, Collect, Resolve, LabelsOf, Unlabelled, NonBlank, CleanLines, Put, Count;
    var lines := CleanLines(text);
    var labels, index := CollectLabels(lines);
    var kept := Unlabelled(lines, labels);
    var resolved := ResolveLines(kept, labels);
    var ls := NonBlank(resolved);
    r := TranslateLines(ls);
  }

  // ---------------------------------------------------------------------
  // Properties of the assembled text

  /** Every line handed to `get` holds something other than blanks and no
      comment. */
  lemma ResolvedLines(text: string)
    ensures forall l | l in Resolved(text) :: l != [] && !IsSpaceString(l) && ';' !in l
  {
    var lines := CleanLines(text);
    var labels := LabelsOf(lines);
    var kept := Unlabelled(lines, labels);
    CleanLinesNoComment(text);
    forall i | 0 <= i < |kept|
      ensures ';' !in Resolve(kept[i], i, labels)
    {
      ResolveKeeps(kept[i], i, labels, ';');
    }
  }

  lemma {:induction false} ReplaceAllKeeps(s: string, pat: string, rep: string, c: char)
    requires c !in s && c !in rep
    ensures c !in ReplaceAll(s, pat, rep)
    decreases |s|
  {
    if s != [] {
      assert forall d | d in s[1..] :: d in s;
      ReplaceAllKeeps(s[1..], pat, rep, c);
      if pat != [] && |s| >= |pat| && s[..|pat|] == pat {
        assert forall d | d in s[|pat|..] :: d in s;
        ReplaceAllKeeps(s[|pat|..], pat, rep, c);
      }
    }
  }

  lemma IntToStringNoComment(n: int)
    ensures ';' !in IntToString(n)
  {
    NumberPlain(n);
  }

  lemma {:induction false} ResolveKeeps(line: string, curr: int, labels: Labels, c: char)
    requires c == ';' && c !in line
    ensures c !in Resolve(line, curr, labels)
    decreases |labels|
  {
    if labels != [] {
      var rep := IntToString(Offset(labels[0].1, curr));
      IntToStringNoComment(labels[0].1 - curr);
      ReplaceAllKeeps(line, labels[0].0, rep, c);
      ResolveKeeps(ReplaceAll(line, labels[0].0, rep), curr, labels[1..], c);
    }
  }

  /** A text without label lines assembles its non-blank cleaned lines, in
      order. */
  lemma NoLabels(text: string)
    requires forall l | l in CleanLines(text) :: !IsLabelLine(l)
    ensures Resolved(text) == NonBlank(CleanLines(text))
  {
    var lines := CleanLines(text);
    LabelsOfEmpty(lines);
    var kept := Unlabelled(lines, []);
    assert kept == lines;
    assert seq(|kept|, i requires 0 <= i < |kept| => Resolve(kept[i], i, [])) == lines;
  }

  lemma {:induction false} LabelsOfEmpty(lines: seq<string>)
    requires forall l | l in lines :: !IsLabelLine(l)
    ensures LabelsOf(lines) == []
    decreases |lines|
  {
    if lines != [] {
      var init := lines[..|lines| - 1];
      assert forall l | l in init :: l in lines;
      assert lines[|lines| - 1] in lines;
      LabelsOfEmpty(init);
    }
  }

  /** As written, `get` builds only R instructions, so a text assembles
      only if every line left is an R instruction. */
  lemma AssembledAreR(text: string)
    ensures AssembleText(text).Ok? ==> forall i | 0 <= i < |AssembleText(text).value| :: AssembleText(text).value[i].RType?
  {
    var ls := Resolved(text);
    var rs := seq(|ls|, i requires 0 <= i < |ls| => Get(Text(ls[i])));
    assert AssembleText(text) == Collect(rs);
    hide Get, Resolved;
  }
}
