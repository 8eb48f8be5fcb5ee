/**
  The format-preserving rewriters of APT sources, over arbitrary text and an
  arbitrary URI mapper. The specification cuts every line into pieces, of which
  only the `Uri` ones may change; the loops of the source are proved against it.
*/
module AptRewriter {
  import opened Text
  import opened Wrappers

  /** What the URI mapper says of one token. */
  datatype Mapped = Refuse | Keep | Replace(text: string)

  type Mapper = string -> Mapped

  datatype Piece = Fixed(text: string) | Uri(text: string)

  // -------------------------------------------------------------------------
  // Pieces
  // -------------------------------------------------------------------------

  function Output(p: Piece, m: Mapper): string {
    if p.Uri? && m(p.text).Replace? then m(p.text).text else p.text
  }

  function Render(ps: seq<Piece>, m: Mapper): string {
    if ps == [] then [] else Output(ps[0], m) + Render(ps[1..], m)
  }

  predicate Refuses(ps: seq<Piece>, m: Mapper) {
    exists k :: 0 <= k < |ps| && ps[k].Uri? && m(ps[k].text).Refuse?
  }

  /** The rewritten text, or `None` when the mapper refuses one of the URIs. */
  function Outcome(ps: seq<Piece>, m: Mapper): Option<string> {
    if Refuses(ps, m) then None else Some(Render(ps, m))
  }

  /** The original text. */
  function Source(ps: seq<Piece>): string {
    if ps == [] then [] else ps[0].text + Source(ps[1..])
  }

  /** Every URI replaced, the pieces left in place. */
  function Subst(ps: seq<Piece>, m: Mapper): seq<Piece> {
    if ps == [] then [] else [if ps[0].Uri? then Uri(Output(ps[0], m)) else ps[0]] + Subst(ps[1..], m)
  }

  /** The concatenation, unless either part failed. */
  function Append(a: Option<string>, b: Option<string>): Option<string> {
    if a.Some? && b.Some? then Some(a.value + b.value) else None
  }

  lemma AppendAssociative(a: Option<string>, b: Option<string>, c: Option<string>)
    ensures Append(Append(a, b), c) == Append(a, Append(b, c))
  {
    if a.Some? && b.Some? && c.Some? {
      assert (a.value + b.value) + c.value == a.value + (b.value + c.value);
    }
  }

  lemma AppendToNothing(r: Option<string>)
    ensures Append(Some(""), r) == r
  {
    assert r.Some? ==> "" + r.value == r.value;
  }

  lemma {:induction false} RenderAppend(a: seq<Piece>, b: seq<Piece>, m: Mapper)
    ensures Render(a + b, m) == Render(a, m) + Render(b, m)
  {
    if a == [] {
      assert a + b == b;
    } else {
      assert (a + b)[1..] == a[1..] + b;
      RenderAppend(a[1..], b, m);
    }
  }

  lemma RefusesAppend(a: seq<Piece>, b: seq<Piece>, m: Mapper)
    ensures Refuses(a + b, m) <==> Refuses(a, m) || Refuses(b, m)
  {
    var ps := a + b;
    if k :| 0 <= k < |a| && a[k].Uri? && m(a[k].text).Refuse? {
      assert ps[k] == a[k];
    }
    if k :| 0 <= k < |b| && b[k].Uri? && m(b[k].text).Refuse? {
      assert ps[|a| + k] == b[k];
    }
  }

  lemma OutcomeAppend(a: seq<Piece>, b: seq<Piece>, m: Mapper)
    ensures Outcome(a + b, m) == Append(Outcome(a, m), Outcome(b, m))
  {
    RenderAppend(a, b, m);
    RefusesAppend(a, b, m);
  }

  lemma OutcomeFixed(text: string, m: Mapper)
    ensures Outcome([Fixed(text)], m) == Some(text) && Source([Fixed(text)]) == text
  {
    var ps := [Fixed(text)];
    assert ps[1..] == [];
    assert !Refuses(ps, m);
    assert Render(ps, m) == text + Render(ps[1..], m) == text;
    assert Source(ps) == text + Source(ps[1..]) == text;
  }

  // -------------------------------------------------------------------------
  // One line
  // -------------------------------------------------------------------------

  /** The tokens of a line up to a comment: only the first, or all of them, are URIs. */
  function TokenPieces(line: string, uriOnly: bool): seq<Piece>
    decreases |line|
  {
    if line == [] then []
    else
      var space := IsWhitespace(line[0]);
      var n := Run(line, space);
      if !space && line[0] == '#' then [Fixed(line)]
      else if space then [Fixed(line[..n])] + TokenPieces(line[n..], uriOnly)
      else if uriOnly then [Uri(line[..n]), Fixed(line[n..])]
      else [Uri(line[..n])] + TokenPieces(line[n..], uriOnly)
  }

  predicate StartsEntry(trimmed: string, word: string) {
    StartsWith(trimmed, word + " ") || StartsWith(trimmed, word + "\t")
  }

  predicate IsDebLine(line: string) {
    StartsEntry(TrimStart(line), "deb") || StartsEntry(TrimStart(line), "deb-src")
  }

  /** Where the type word ends. */
  function TypeEnd(line: string): (n: nat)
    ensures n <= |line|
  {
    Run(line, true) + Run(TrimStart(line), false)
  }

  predicate HasOptions(line: string) {
    StartsWith(TrimStart(line[TypeEnd(line)..]), "[")
  }

  /** Where the option block ends; past the end of the line when it is not closed. */
  function OptionsEnd(line: string): nat {
    TypeEnd(line) + Find(line[TypeEnd(line)..], ']') + 1
  }

  predicate OptionsClosed(line: string) {
    IsDebLine(line) && HasOptions(line) ==> OptionsEnd(line) <= |line|
  }

  function UriStart(line: string): nat {
    if HasOptions(line) then OptionsEnd(line) else TypeEnd(line)
  }

  function OneLinePieces(line: string): seq<Piece> {
    if IsDebLine(line) && OptionsClosed(line) then
      [Fixed(line[..UriStart(line)])] + TokenPieces(line[UriStart(line)..], true)
    else [Fixed(line)]
  }

  datatype Kind = Blank | Comment | Continuation | Field(key: string) | Malformed

  function KindOf(line: string): (k: Kind)
    ensures k.Field? ==> |k.key| < |line| && line[..|k.key|] == k.key
  {
    if IsBlank(line) then Blank
    else if line[0] == '#' then Comment
    else if line[0] == ' ' || line[0] == '\t' then Continuation
    else if Find(line, ':') < |line| then Field(line[..Find(line, ':')])
    else Malformed
  }

  predicate IsUris(key: string) {
    SameIgnoringCase(key, "URIs")
  }

  /** A line without its end, as `str::lines` yields it. */
  function WithoutEnd(line: string): string {
    if EndsWith(line, "\r\n") then line[..|line| - 2]
    else if EndsWith(line, "\n") then line[..|line| - 1]
    else line
  }

  lemma EndIsLineEnd(line: string)
    ensures var s := WithoutEnd(line);
            s <= line && forall i :: |s| <= i < |line| ==> line[i] == '\r' || line[i] == '\n'
  {
    var s := WithoutEnd(line);
    if EndsWith(line, "\r\n") {
      assert line[|line| - 2..][0] == line[|line| - 2] && line[|line| - 2..][1] == line[|line| - 1];
    } else if EndsWith(line, "\n") {
      assert line[|line| - 1..][0] == line[|line| - 1];
    }
  }

  lemma EndIsBlank(line: string)
    ensures WithoutEnd(line) <= line && IsBlank(line[|WithoutEnd(line)|..])
  {
    assert IsWhitespace('\r') && IsWhitespace('\n');
    hide IsWhitespace, WithoutEnd;
    EndIsLineEnd(line);
  }

  /** The field that disables its stanza. */
  predicate Disabling(line: string) {
    var text := WithoutEnd(line);
    var colon := Find(text, ':');
    colon < |text| && SameIgnoringCase(text[..colon], "Enabled") && SameIgnoringCase(Trim(text[colon + 1..]), "no")
  }

  /** A line of an enabled stanza; `open` when it continues a URIs field. */
  function FieldPieces(line: string, open: bool): seq<Piece> {
    match KindOf(line)
    case Continuation => if open then TokenPieces(line, false) else [Fixed(line)]
    case Field(key) =>
      if IsUris(key) then [Fixed(line[..|key| + 1])] + TokenPieces(line[|key| + 1..], false) else [Fixed(line)]
    case _ => [Fixed(line)]
  }

  // -------------------------------------------------------------------------
  // A whole file
  // -------------------------------------------------------------------------

  predicate BlankAt(lines: seq<string>, i: int) {
    0 <= i < |lines| ==> IsBlank(lines[i])
  }

  /** The first line of the stanza around `i`. */
  function StanzaStart(lines: seq<string>, i: nat): (a: nat)
    ensures a <= i
  {
    if i == 0 || BlankAt(lines, i - 1) then i else StanzaStart(lines, i - 1)
  }

  /** One past its last line. */
  function StanzaEnd(lines: seq<string>, i: nat): (b: nat)
    requires i <= |lines|
    ensures i <= b <= |lines|
    decreases |lines| - i
  {
    if i == |lines| || IsBlank(lines[i]) then i else StanzaEnd(lines, i + 1)
  }

  predicate SomeLine(lines: seq<string>, a: nat, b: nat, p: string -> bool)
    requires b <= |lines|
  {
    exists k :: a <= k < b && p(lines[k])
  }

  predicate StanzaHas(lines: seq<string>, i: nat, p: string -> bool)
    requires i < |lines|
  {
    SomeLine(lines, StanzaStart(lines, i), StanzaEnd(lines, i), p)
  }

  predicate Disabled(lines: seq<string>, i: nat)
    requires i < |lines|
  {
    StanzaHas(lines, i, Disabling)
  }

  predicate OpenAfter(line: string, open: bool) {
    match KindOf(line)
    case Comment => open
    case Continuation => open
    case Field(key) => IsUris(key)
    case _ => false
  }

  /** A URIs field is open before line `i`. */
  predicate UrisOpen(lines: seq<string>, i: nat)
    requires i <= |lines|
  {
    i > 0 && OpenAfter(lines[i - 1], UrisOpen(lines, i - 1))
  }

  function Pieces(lines: seq<string>, deb822: bool, i: nat): seq<Piece>
    requires i < |lines|
  {
    if !deb822 then OneLinePieces(lines[i])
    else if Disabled(lines, i) then [Fixed(lines[i])]
    else FieldPieces(lines[i], UrisOpen(lines, i))
  }

  predicate Accepted(lines: seq<string>, deb822: bool, i: nat)
    requires i < |lines|
  {
    if deb822 then Disabled(lines, i) || !KindOf(lines[i]).Malformed? else OptionsClosed(lines[i])
  }

  function LineOutcome(lines: seq<string>, deb822: bool, i: nat, m: Mapper): Option<string>
    requires i < |lines|
  {
    if Accepted(lines, deb822, i) then Outcome(Pieces(lines, deb822, i), m) else None
  }

  /** What becomes of each line, when line `i` is mapped by `at(i)`. */
  function Outcomes(lines: seq<string>, deb822: bool, at: nat -> Mapper): nat -> Option<string> {
    (i: nat) => if i < |lines| then LineOutcome(lines, deb822, i, at(i)) else None
  }

  /** The concatenation of `f(lo)` up to `f(hi - 1)`, unless one of them failed. */
  function Concat(f: nat -> Option<string>, lo: nat, hi: nat): Option<string>
    requires lo <= hi
    decreases hi
  {
    if lo == hi then Some([]) else Append(Concat(f, lo, hi - 1), f(hi - 1))
  }

  function Always(m: Mapper): nat -> Mapper {
    (i: nat) => m
  }

  /** The specification of the whole-file rewriter. */
  function Rewritten(content: string, deb822: bool, m: Mapper): Option<string> {
    var lines := Lines(content);
    Concat(Outcomes(lines, deb822, Always(m)), 0, |lines|)
  }

  /** The text that decides how line `i` is mapped: its stanza, or the line itself. */
  function Part(lines: seq<string>, deb822: bool, i: nat): string
    requires i < |lines|
  {
    if deb822 then Join(lines[StanzaStart(lines, i)..StanzaEnd(lines, i)]) else lines[i]
  }

  /** The specification of the stanza-wise rewriter, whose mapper depends on the stanza. */
  function RewrittenByPart(content: string, deb822: bool, context: string -> Mapper): Option<string> {
    var lines := Lines(content);
    Concat(Outcomes(lines, deb822, ByPart(lines, deb822, context)), 0, |lines|)
  }

  function MapperAt(lines: seq<string>, deb822: bool, context: string -> Mapper, i: nat): Mapper {
    if i < |lines| then context(Part(lines, deb822, i)) else context("")
  }

  function ByPart(lines: seq<string>, deb822: bool, context: string -> Mapper): nat -> Mapper {
    (i: nat) => MapperAt(lines, deb822, context, i)
  }

  // -------------------------------------------------------------------------
  // Sections and stanzas
  // -------------------------------------------------------------------------

  lemma {:induction false} ConcatSplit(f: nat -> Option<string>, lo: nat, mid: nat, hi: nat)
    requires lo <= mid <= hi
    ensures Concat(f, lo, hi) == Append(Concat(f, lo, mid), Concat(f, mid, hi))
    decreases hi
  {
    if mid == hi {
      var s := Concat(f, lo, mid);
      assert s.Some? ==> s.value + [] == s.value;
    } else {
      ConcatSplit(f, lo, mid, hi - 1);
      AppendAssociative(Concat(f, lo, mid), Concat(f, mid, hi - 1), f(hi - 1));
    }
  }

  lemma {:induction false} ConcatShift(f: nat -> Option<string>, g: nat -> Option<string>, a: nat, n: nat)
    requires forall i: nat :: i < n ==> f(a + i) == g(i)
    ensures Concat(f, a, a + n) == Concat(g, 0, n)
  {
    if n > 0 {
      ConcatShift(f, g, a, n - 1);
      assert f(a + (n - 1)) == g(n - 1);
    }
  }

  /** Lines `a` up to `b` are one maximal run of nonblank lines. */
  ghost predicate IsStanza(lines: seq<string>, a: nat, b: nat) {
    && a <= b <= |lines|
    && (forall i :: a <= i < b ==> !IsBlank(lines[i]))
    && (a > 0 ==> IsBlank(lines[a - 1])) && (b < |lines| ==> IsBlank(lines[b]))
  }

  lemma {:induction false} StartOf(lines: seq<string>, a: nat, b: nat, i: nat)
    requires IsStanza(lines, a, b) && a <= i <= b
    ensures StanzaStart(lines, i) == a
    decreases i
  {
    if i > a {
      StartOf(lines, a, b, i - 1);
    }
  }

  lemma {:induction false} EndOf(lines: seq<string>, a: nat, b: nat, i: nat)
    requires IsStanza(lines, a, b) && a <= i <= b
    ensures StanzaEnd(lines, i) == b
    decreases b - i
  {
    if i < b {
      EndOf(lines, a, b, i + 1);
    }
  }

  lemma StanzaHasIn(lines: seq<string>, a: nat, b: nat, i: nat, p: string -> bool)
    requires IsStanza(lines, a, b) && a <= i < b
    ensures StanzaHas(lines, i, p) == SomeLine(lines, a, b, p)
  {
    StartOf(lines, a, b, i);
    EndOf(lines, a, b, i);
  }

  /** A stanza's lines as a file of their own. */
  lemma StanzaAlone(lines: seq<string>, a: nat, b: nat)
    requires IsStanza(lines, a, b)
    ensures IsStanza(lines[a..b], 0, b - a)
  {
  }

  lemma {:induction false} UrisOpenIsLocal(lines: seq<string>, a: nat, b: nat, i: nat)
    requires IsStanza(lines, a, b) && a <= i <= b
    ensures UrisOpen(lines, i) == UrisOpen(lines[a..b], i - a)
    decreases i
  {
    if i > a {
      assert lines[a..b][i - a - 1] == lines[i - 1];
      UrisOpenIsLocal(lines, a, b, i - 1);
    }
  }

  lemma SomeLineIsLocal(lines: seq<string>, a: nat, b: nat, p: string -> bool)
    requires a <= b <= |lines|
    ensures SomeLine(lines, a, b, p) == SomeLine(lines[a..b], 0, b - a, p)
  {
    var own := lines[a..b];
    if k :| a <= k < b && p(lines[k]) {
      assert own[k - a] == lines[k];
    }
    if k :| 0 <= k < b - a && p(own[k]) {
      assert lines[a + k] == own[k];
    }
  }

  lemma StanzaHasIsLocal(lines: seq<string>, a: nat, b: nat, i: nat, p: string -> bool)
    requires IsStanza(lines, a, b) && a <= i < b
    ensures StanzaHas(lines, i, p) == StanzaHas(lines[a..b], i - a, p)
  {
    StanzaAlone(lines, a, b);
    StanzaHasIn(lines, a, b, i, p);
    StanzaHasIn(lines[a..b], 0, b - a, i - a, p);
    SomeLineIsLocal(lines, a, b, p);
  }

  lemma OutcomeDependsOn(lines: seq<string>, i: nat, other: seq<string>, j: nat, m: Mapper)
    requires i < |lines| && j < |other| && lines[i] == other[j]
    requires Disabled(lines, i) == Disabled(other, j) && UrisOpen(lines, i) == UrisOpen(other, j)
    ensures LineOutcome(lines, true, i, m) == LineOutcome(other, true, j, m)
  {
    assert Pieces(lines, true, i) == Pieces(other, true, j);
    assert Accepted(lines, true, i) == Accepted(other, true, j);
  }

  /** What becomes of a line depends on nothing outside its stanza. */
  lemma LinesAreLocal(lines: seq<string>, a: nat, b: nat, i: nat, m: Mapper)
    requires IsStanza(lines, a, b) && a <= i < b
    ensures LineOutcome(lines, true, i, m) == LineOutcome(lines[a..b], true, i - a, m)
  {
    hide LineOutcome, StanzaHas, UrisOpen, IsBlank;
    StanzaHasIsLocal(lines, a, b, i, Disabling);
    UrisOpenIsLocal(lines, a, b, i);
    OutcomeDependsOn(lines, i, lines[a..b], i - a, m);
  }

  lemma SliceOfLines(lines: seq<string>, a: nat, b: nat)
    requires AreLines(lines) && a <= b <= |lines|
    ensures Lines(Join(lines[a..b])) == lines[a..b]
  {
    LinesOfJoin(lines[a..b]);
  }

  /** A stanza of a file is rewritten exactly as it would be alone. */
  lemma StanzaIsRewrittenAlone(lines: seq<string>, a: nat, b: nat, at: nat -> Mapper, m: Mapper)
    requires AreLines(lines) && IsStanza(lines, a, b)
    requires forall i: nat :: a <= i < b ==> at(i) == m
    ensures Concat(Outcomes(lines, true, at), a, b) == Rewritten(Join(lines[a..b]), true, m)
  {
    hide LineOutcome, IsBlank, Concat, Join, Lines;
    SliceOfLines(lines, a, b);
    var f, g := Outcomes(lines, true, at), Outcomes(lines[a..b], true, Always(m));
    forall i: nat | i < b - a ensures f(a + i) == g(i) {
      LinesAreLocal(lines, a, b, a + i, m);
    }
    ConcatShift(f, g, a, b - a);
  }

  lemma BlankLineIsKept(lines: seq<string>, i: nat, m: Mapper)
    requires i < |lines| && IsBlank(lines[i])
    ensures LineOutcome(lines, true, i, m) == Some(lines[i])
  {
    OutcomeFixed(lines[i], m);
  }

  /** Lines that are kept make up the text they came from. */
  lemma {:induction false} ConcatKept(lines: seq<string>, f: nat -> Option<string>, n: nat)
    requires n <= |lines| && forall i: nat :: i < n ==> f(i) == Some(lines[i])
    ensures Concat(f, 0, n) == Some(Join(lines[..n]))
  {
    if n > 0 {
      ConcatKept(lines, f, n - 1);
      assert lines[..n] == lines[..n - 1] + [lines[n - 1]];
      JoinSnoc(lines[..n - 1], lines[n - 1]);
    }
  }

  lemma ConcatFails(f: nat -> Option<string>, lo: nat, i: nat, hi: nat)
    requires lo <= i < hi && f(i).None?
    ensures Concat(f, lo, hi).None?
  {
    ConcatSplit(f, lo, i + 1, hi);
  }

  /** One stanza more, with the blank line after it. */
  lemma NextStanza(lines: seq<string>, a: nat, b: nat, at: nat -> Mapper, m: Mapper, result: string)
    requires AreLines(lines) && IsStanza(lines, a, b)
    requires forall i: nat :: a <= i < b ==> at(i) == m
    requires Concat(Outcomes(lines, true, at), 0, a) == Some(result)
    ensures var f, stanza := Outcomes(lines, true, at), Rewritten(Join(lines[a..b]), true, m);
            && (stanza.None? ==> Concat(f, 0, |lines|).None?)
            && (stanza.Some? ==> Concat(f, 0, b) == Some(result + stanza.value))
            && (stanza.Some? && b < |lines| ==> Concat(f, 0, b + 1) == Some(result + stanza.value + lines[b]))
  {
    hide LineOutcome, IsBlank, Join, Rewritten, AreLines, Concat;
    var f := Outcomes(lines, true, at);
    StanzaIsRewrittenAlone(lines, a, b, at, m);
    ConcatSplit(f, 0, a, b);
    ConcatSplit(f, 0, b, |lines|);
    if b < |lines| {
      BlankLineIsKept(lines, b, at(b));
      ConcatSnoc(f, 0, b);
    }
  }

  /** One line more of a one-line file. */
  lemma NextLine(lines: seq<string>, i: nat, at: nat -> Mapper, result: string)
    requires i < |lines| && Concat(Outcomes(lines, false, at), 0, i) == Some(result)
    ensures var f, line := Outcomes(lines, false, at), LineOutcome(lines, false, i, at(i));
            && (line.None? ==> Concat(f, 0, |lines|).None?)
            && (line.Some? ==> Concat(f, 0, i + 1) == Some(result + line.value))
  {
    hide LineOutcome;
    var f := Outcomes(lines, false, at);
    if f(i).None? {
      ConcatFails(f, 0, i, |lines|);
    }
  }

  lemma ConcatSnoc(f: nat -> Option<string>, lo: nat, hi: nat)
    requires lo <= hi
    ensures Concat(f, lo, hi + 1) == Append(Concat(f, lo, hi), f(hi))
  {
  }

  lemma ConcatNothing(f: nat -> Option<string>, i: nat)
    ensures Concat(f, i, i) == Some("")
  {
  }

  /** A one-line file is rewritten line by line. */
  lemma LineAlone(lines: seq<string>, i: nat, m: Mapper)
    requires AreLines(lines) && i < |lines|
    ensures Rewritten(lines[i], false, m) == LineOutcome(lines, false, i, m)
  {
    hide OneLinePieces, OptionsClosed, Outcome;
    SliceOfLines(lines, i, i + 1);
    var own := lines[i..i + 1];
    assert own == [lines[i]] && own[0] == lines[i];
    JoinSnoc([], lines[i]);
    assert [] + [lines[i]] == own && "" + lines[i] == lines[i];
    assert Join(own) == lines[i];
    var f := Outcomes(own, false, Always(m));
    assert f(0) == LineOutcome(own, false, 0, m) == LineOutcome(lines, false, i, m);
    assert Concat(f, 0, 1) == Append(Concat(f, 0, 0), f(0));
    assert f(0).Some? ==> "" + f(0).value == f(0).value;
  }

  // -------------------------------------------------------------------------
  // The loops
  // -------------------------------------------------------------------------

  /** The output so far and the pieces still to come. */
  ghost predicate Underway(ps: seq<Piece>, done: seq<Piece>, rest: seq<Piece>, output: string, m: Mapper) {
    ps == done + rest && Outcome(done, m) == Some(output)
  }

  lemma Begin(ps: seq<Piece>, m: Mapper)
    ensures Underway(ps, [], ps, "", m)
  {
  }

  lemma Finish(ps: seq<Piece>, done: seq<Piece>, output: string, m: Mapper)
    requires Underway(ps, done, [], output, m)
    ensures Outcome(ps, m) == Some(output)
  {
    assert done + [] == done;
  }

  lemma Push(ps: seq<Piece>, done: seq<Piece>, p: Piece, rest: seq<Piece>, output: string, m: Mapper)
    requires Underway(ps, done, [p] + rest, output, m)
    ensures !(p.Uri? && m(p.text).Refuse?) ==> Underway(ps, done + [p], rest, output + Output(p, m), m)
    ensures p.Uri? && m(p.text).Refuse? ==> Outcome(ps, m).None?
  {
    assert ps == (done + [p]) + rest;
    assert ps[|done|] == p;
    if !(p.Uri? && m(p.text).Refuse?) {
      OutcomeAppend(done, [p], m);
      assert [p][1..] == [];
      assert Render([p], m) == Output(p, m) + Render([], m) == Output(p, m);
    }
  }

  lemma NoTokens(uriOnly: bool)
    ensures TokenPieces("", uriOnly) == []
  {
  }

  lemma FirstToken(s: string, uriOnly: bool)
    requires s != []
    ensures var space := IsWhitespace(s[0]);
            var n := Run(s, space);
            && n > 0
            && TokenPieces(s, uriOnly) ==
               if !space && s[0] == '#' then [Fixed(s)]
               else if space then [Fixed(s[..n])] + TokenPieces(s[n..], uriOnly)
               else if uriOnly then [Uri(s[..n])] + [Fixed(s[n..])]
               else [Uri(s[..n])] + TokenPieces(s[n..], uriOnly)
  {
    hide IsWhitespace;
  }

  lemma TokenStep(line: string, start: nat, end: nat, uriOnly: bool)
    requires start < |line| && end == start + Run(line[start..], IsWhitespace(line[start]))
    ensures start < end <= |line|
    ensures TokenPieces(line[start..], uriOnly) ==
            if !IsWhitespace(line[start]) && line[start] == '#' then [Fixed(line[start..])]
            else if IsWhitespace(line[start]) then [Fixed(line[start..end])] + TokenPieces(line[end..], uriOnly)
            else if uriOnly then [Uri(line[start..end])] + [Fixed(line[end..])]
            else [Uri(line[start..end])] + TokenPieces(line[end..], uriOnly)
  {
    hide TokenPieces, IsWhitespace, Run;
    var s, n := line[start..], end - start;
    assert s[..n] == line[start..end] && s[n..] == line[end..];
    FirstToken(s, uriOnly);
  }

  method RewriteTokens(line: string, m: Mapper, uriOnly: bool) returns (r: Option<string>)
    ensures r == Outcome(TokenPieces(line, uriOnly), m)
  {
    hide Outcome, Underway, TokenPieces;
    var output := "";
    var start := 0;
    ghost var ps := TokenPieces(line, uriOnly);
    ghost var done: seq<Piece> := [];
    Begin(ps, m);
    assert line[0..] == line;
    while start < |line|
      invariant 0 <= start <= |line|
      invariant Underway(ps, done, TokenPieces(line[start..], uriOnly), output, m)
    {
      var whitespace := IsWhitespace(line[start]);
      var end := start + Run(line[start..], whitespace);
      var token := line[start..end];
      ghost var rest := TokenPieces(line[end..], uriOnly);
      TokenStep(line, start, end, uriOnly);
      if !whitespace && token[0] == '#' {
        assert [Fixed(line[start..])] + [] == [Fixed(line[start..])];
        Push(ps, done, Fixed(line[start..]), [], output, m);
        output := output + line[start..];
        Finish(ps, done + [Fixed(line[start..])], output, m);
        return Some(output);
      }
      if !whitespace {
        Push(ps, done, Uri(token), if uriOnly then [Fixed(line[end..])] else rest, output, m);
        done := done + [Uri(token)];
        match m(token) {
          case Refuse => return None;
          case Replace(replacement) => output := output + replacement;
          case Keep => output := output + token;
        }
        if uriOnly {
          assert [Fixed(line[end..])] + [] == [Fixed(line[end..])];
          Push(ps, done, Fixed(line[end..]), [], output, m);
          output := output + line[end..];
          Finish(ps, done + [Fixed(line[end..])], output, m);
          return Some(output);
        }
      } else {
        Push(ps, done, Fixed(token), rest, output, m);
        done := done + [Fixed(token)];
        output := output + token;
      }
      start := end;
    }
    NoTokens(uriOnly);
    assert line[start..] == "";
    Finish(ps, done, output, m);
    return Some(output);
  }

  lemma FixedThen(text: string, ps: seq<Piece>, m: Mapper)
    ensures Outcome([Fixed(text)] + ps, m) == Append(Some(text), Outcome(ps, m))
  {
    OutcomeAppend([Fixed(text)], ps, m);
    OutcomeFixed(text, m);
  }

  lemma EntryPieces(line: string)
    requires IsDebLine(line)
    ensures (HasOptions(line) ==> OptionsEnd(line) <= |line|) ==>
              && OptionsClosed(line) && UriStart(line) <= |line|
              && OneLinePieces(line) == [Fixed(line[..UriStart(line)])] + TokenPieces(line[UriStart(line)..], true)
  {
    hide IsDebLine, HasOptions, OptionsEnd, TokenPieces;
  }

  lemma OtherLinePieces(line: string)
    requires !IsDebLine(line)
    ensures OptionsClosed(line) && OneLinePieces(line) == [Fixed(line)]
  {
    hide IsDebLine;
  }

  lemma OpenOptions(line: string)
    requires IsDebLine(line) && HasOptions(line) && OptionsEnd(line) > |line|
    ensures !OptionsClosed(line)
  {
    hide IsDebLine, HasOptions, OptionsEnd;
  }

  /** The body of the one-line loop. */
  method RewriteLine(line: string, m: Mapper) returns (r: Option<string>)
    ensures r == if OptionsClosed(line) then Outcome(OneLinePieces(line), m) else None
  {
    hide Outcome, TokenPieces, StartsWith, IsDebLine, Run, Find, OptionsClosed, OneLinePieces;
    if IsDebLine(line) {
      EntryPieces(line);
      var trimmed := TrimStart(line);
      var prefixEnd := |line| - |trimmed| + Run(trimmed, false);
      var afterType := line[prefixEnd..];
      var offset := prefixEnd;
      if StartsWith(TrimStart(afterType), "[") {
        var n := Find(afterType, ']');
        if n == |afterType| {
          OpenOptions(line);
          return None;
        }
        offset := prefixEnd + n + 1;
      }
      var tokens := RewriteTokens(line[offset..], m, true);
      FixedThen(line[..offset], TokenPieces(line[offset..], true), m);
      if tokens.None? {
        return None;
      }
      r := Some(line[..offset] + tokens.value);
    } else {
      OtherLinePieces(line);
      OutcomeFixed(line, m);
      r := Some(line);
    }
  }

  lemma NoStanzaLine(lines: seq<string>, i: nat)
    requires i < |lines| && forall k :: 0 <= k < |lines| ==> !IsBlank(lines[k])
    ensures Disabled(lines, i) == SomeLine(lines, 0, |lines|, Disabling)
  {
    hide IsBlank, Disabling, SomeLine;
    StanzaHasIn(lines, 0, |lines|, i, Disabling);
  }

  lemma DisabledLine(lines: seq<string>, i: nat, m: Mapper)
    requires i < |lines| && Disabled(lines, i)
    ensures LineOutcome(lines, true, i, m) == Some(lines[i])
  {
    hide Disabled, Outcome;
    OutcomeFixed(lines[i], m);
  }

  lemma DisabledIsKept(content: string, m: Mapper)
    requires var lines := Lines(content);
             && (forall k :: 0 <= k < |lines| ==> !IsBlank(lines[k]))
             && SomeLine(lines, 0, |lines|, Disabling)
    ensures Rewritten(content, true, m) == Some(content)
  {
    hide IsBlank, Disabling, SomeLine, Disabled, LineOutcome;
    var lines := Lines(content);
    var f := Outcomes(lines, true, Always(m));
    forall i: nat | i < |lines| ensures f(i) == Some(lines[i]) {
      NoStanzaLine(lines, i);
      DisabledLine(lines, i, m);
    }
    ConcatKept(lines, f, |lines|);
    LinesAreLines(content);
    assert lines[..|lines|] == lines;
  }

  /** The outcome of a line of an enabled stanza. */
  function FieldOutcome(line: string, open: bool, m: Mapper): Option<string> {
    if KindOf(line).Malformed? then None else Outcome(FieldPieces(line, open), m)
  }

  method RewriteField(line: string, open: bool, m: Mapper) returns (r: Option<string>, uris: bool)
    requires !IsBlank(line)
    ensures r == FieldOutcome(line, open, m)
    ensures r.Some? ==> uris == OpenAfter(line, open)
  {
    assert line != [];
    hide Outcome, TokenPieces, IsUris, IsBlank, Find;
    uris := open;
    if line[0] == '#' {
      OutcomeFixed(line, m);
      return Some(line), uris;
    }
    if line[0] == ' ' || line[0] == '\t' {
      if uris {
        r := RewriteTokens(line, m, false);
      } else {
        OutcomeFixed(line, m);
        r := Some(line);
      }
    } else {
      var colon := Find(line, ':');
      if colon == |line| {
        return None, false;
      }
      var field, value := line[..colon], line[colon + 1..];
      uris := IsUris(field);
      assert KindOf(line) == Field(field);
      assert field + ":" == line[..colon + 1];
      if uris {
        var tokens := RewriteTokens(value, m, false);
        FixedThen(field + ":", TokenPieces(value, false), m);
        if tokens.None? {
          return None, uris;
        }
        r := Some(field + ":" + tokens.value);
      } else {
        OutcomeFixed(line, m);
        assert field + ":" + value == line;
        r := Some(field + ":" + value);
      }
    }
  }

  lemma FieldLine(lines: seq<string>, i: nat, m: Mapper)
    requires i < |lines| && !Disabled(lines, i)
    ensures LineOutcome(lines, true, i, m) == FieldOutcome(lines[i], UrisOpen(lines, i), m)
  {
    hide Outcome, FieldPieces, KindOf;
  }

  method RewriteParagraph(content: string, m: Mapper) returns (r: Option<string>)
    requires forall k :: 0 <= k < |Lines(content)| ==> !IsBlank(Lines(content)[k])
    ensures r == Rewritten(content, true, m)
  {
    hide IsBlank, Disabling, Disabled, LineOutcome, FieldOutcome, KindOf, Lines;
    var lines := Lines(content);
    if exists k :: 0 <= k < |lines| && Disabling(lines[k]) {
      DisabledIsKept(content, m);
      return Some(content);
    }
    var result := "";
    var uris := false;
    ghost var f := Outcomes(lines, true, Always(m));
    for i := 0 to |lines|
      invariant uris == UrisOpen(lines, i)
      invariant Concat(f, 0, i) == Some(result)
    {
      NoStanzaLine(lines, i);
      FieldLine(lines, i, m);
      var line;
      line, uris := RewriteField(lines[i], uris, m);
      if line.None? {
        ConcatFails(f, 0, i, |lines|);
        return None;
      }
      result := result + line.value;
    }
    return Some(result);
  }

  /** The paragraph being collected is a whole stanza once it ends. */
  ghost predicate Collecting(lines: seq<string>, a: nat, i: nat, paragraph: string) {
    && a <= i <= |lines| && paragraph == Join(lines[a..i]) && Lines(paragraph) == lines[a..i]
    && (a > 0 ==> IsBlank(lines[a - 1])) && forall k :: a <= k < i ==> !IsBlank(lines[k])
  }

  lemma StartCollecting(lines: seq<string>, i: nat)
    requires i <= |lines| && (i > 0 ==> IsBlank(lines[i - 1]))
    ensures Collecting(lines, i, i, "")
  {
  }

  lemma Collect(lines: seq<string>, a: nat, i: nat, paragraph: string)
    requires AreLines(lines) && Collecting(lines, a, i, paragraph) && i < |lines| && !IsBlank(lines[i])
    ensures Collecting(lines, a, i + 1, paragraph + lines[i])
  {
    hide IsBlank, Lines, Join;
    assert lines[a..i + 1] == lines[a..i] + [lines[i]];
    JoinSnoc(lines[a..i], lines[i]);
    SliceOfLines(lines, a, i + 1);
  }

  lemma Collected(lines: seq<string>, a: nat, i: nat, paragraph: string)
    requires Collecting(lines, a, i, paragraph) && (i < |lines| ==> IsBlank(lines[i]))
    ensures IsStanza(lines, a, i) && paragraph == Join(lines[a..i])
    ensures forall k :: 0 <= k < |Lines(paragraph)| ==> !IsBlank(Lines(paragraph)[k])
  {
    hide IsBlank, Lines, Join;
  }

  lemma OneLineOutcome(lines: seq<string>, i: nat, m: Mapper)
    requires i < |lines|
    ensures LineOutcome(lines, false, i, m) ==
            if OptionsClosed(lines[i]) then Outcome(OneLinePieces(lines[i]), m) else None
  {
    hide OptionsClosed, OneLinePieces, Outcome;
  }

  /** `apt::rewrite`. */
  method Rewrite(content: string, deb822: bool, m: Mapper) returns (r: Option<string>)
    ensures r == Rewritten(content, deb822, m)
  {
    hide IsBlank, Lines, Join, OptionsClosed, OneLinePieces, Outcome, Collecting, IsStanza, LineOutcome, Concat,
         AreLines, Outcomes;
    var result := "";
    var lines := Lines(content);
    LinesAreLines(content);
    ghost var f := Outcomes(lines, deb822, Always(m));
    ConcatNothing(f, 0);
    if !deb822 {
      for i := 0 to |lines|
        invariant Concat(f, 0, i) == Some(result)
      {
        OneLineOutcome(lines, i, m);
        NextLine(lines, i, Always(m), result);
        var line := RewriteLine(lines[i], m);
        if line.None? {
          return None;
        }
        result := result + line.value;
      }
      return Some(result);
    }
    var paragraph := "";
    ghost var a := 0;
    StartCollecting(lines, 0);
    for i := 0 to |lines|
      invariant a <= i && Collecting(lines, a, i, paragraph)
      invariant Concat(f, 0, a) == Some(result)
    {
      if IsBlank(lines[i]) {
        Collected(lines, a, i, paragraph);
        NextStanza(lines, a, i, Always(m), m, result);
        var stanza := RewriteParagraph(paragraph, m);
        if stanza.None? {
          return None;
        }
        result := result + stanza.value;
        paragraph := "";
        result := result + lines[i];
        a := i + 1;
        StartCollecting(lines, a);
      } else {
        Collect(lines, a, i, paragraph);
        paragraph := paragraph + lines[i];
      }
    }
    Collected(lines, a, |lines|, paragraph);
    NextStanza(lines, a, |lines|, Always(m), m, result);
    var stanza := RewriteParagraph(paragraph, m);
    if stanza.None? {
      return None;
    }
    return Some(result + stanza.value);
  }

  lemma PartOfStanza(lines: seq<string>, a: nat, b: nat, context: string -> Mapper)
    requires IsStanza(lines, a, b)
    ensures forall i: nat :: a <= i < b ==> ByPart(lines, true, context)(i) == context(Join(lines[a..b]))
  {
    hide IsBlank, Join;
    forall i: nat | a <= i < b ensures ByPart(lines, true, context)(i) == context(Join(lines[a..b])) {
      StartOf(lines, a, b, i);
      EndOf(lines, a, b, i);
    }
  }

  /** `rewrite_apt`: every stanza, or line, is rewritten by itself under the mapper its own text selects. */
  method RewriteApt(content: string, deb822: bool, context: string -> Mapper) returns (r: Option<string>)
    ensures r == RewrittenByPart(content, deb822, context)
  {
    hide IsBlank, Lines, Join, Rewritten, LineOutcome, Collecting, IsStanza, StanzaStart, StanzaEnd, Concat, AreLines,
         Outcomes;
    var result := "";
    var paragraph := "";
    var lines := Lines(content);
    LinesAreLines(content);
    ghost var at := ByPart(lines, deb822, context);
    ghost var f := Outcomes(lines, deb822, at);
    ghost var a := 0;
    StartCollecting(lines, 0);
    ConcatNothing(f, 0);
    for i := 0 to |lines|
      invariant deb822 ==> a <= i && Collecting(lines, a, i, paragraph) && Concat(f, 0, a) == Some(result)
      invariant !deb822 ==> paragraph == "" && Concat(f, 0, i) == Some(result)
    {
      if !deb822 {
        LineAlone(lines, i, context(lines[i]));
        NextLine(lines, i, at, result);
        var line := Rewrite(lines[i], false, context(lines[i]));
        if line.None? {
          return None;
        }
        result := result + line.value;
      } else if IsBlank(lines[i]) {
        Collected(lines, a, i, paragraph);
        PartOfStanza(lines, a, i, context);
        NextStanza(lines, a, i, at, context(paragraph), result);
        var stanza := Rewrite(paragraph, true, context(paragraph));
        if stanza.None? {
          return None;
        }
        result := result + stanza.value;
        paragraph := "";
        result := result + lines[i];
        a := i + 1;
        StartCollecting(lines, a);
      } else {
        Collect(lines, a, i, paragraph);
        paragraph := paragraph + lines[i];
      }
    }
    if deb822 {
      Collected(lines, a, |lines|, paragraph);
      PartOfStanza(lines, a, |lines|, context);
      NextStanza(lines, a, |lines|, at, context(paragraph), result);
    } else {
      NothingToRewrite(context(paragraph));
    }
    var last := Rewrite(paragraph, deb822, context(paragraph));
    if last.None? {
      return None;
    }
    assert result + "" == result;
    return Some(result + last.value);
  }

  lemma NothingToRewrite(m: Mapper)
    ensures Rewritten("", false, m) == Some("")
  {
  }
}
