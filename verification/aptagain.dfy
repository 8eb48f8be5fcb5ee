/** A second pass of the APT rewriters changes nothing. */
module AptIdempotence {
  import opened AptLaws
  import opened AptRewriter
  import opened Text
  import opened Wrappers

  /** Whatever the mapper produces is a URI token. */
  ghost predicate YieldsTokens(m: Mapper) {
    forall t :: IsToken(t) && m(t).Replace? ==> IsToken(m(t).text) && m(t).text[0] != '['
  }

  /** The mapper `again` leaves alone what `m` produces and what `m` leaves alone. */
  ghost predicate Follows(m: Mapper, again: Mapper) {
    forall t :: IsToken(t) ==>
      && (m(t).Replace? ==> again(m(t).text) == Keep)
      && (m(t).Keep? ==> again(t) == Keep)
  }

  ghost predicate Settled(m: Mapper) {
    YieldsTokens(m) && Follows(m, m)
  }

  // -------------------------------------------------------------------------
  // Substituted pieces
  // -------------------------------------------------------------------------

  lemma SubstCons(p: Piece, ps: seq<Piece>, m: Mapper)
    ensures Subst([p] + ps, m) == [if p.Uri? then Uri(Output(p, m)) else p] + Subst(ps, m)
    ensures Render([p] + ps, m) == Output(p, m) + Render(ps, m)
  {
    assert ([p] + ps)[1..] == ps;
  }

  lemma SubstOne(p: Piece, m: Mapper)
    ensures Subst([p], m) == [if p.Uri? then Uri(Output(p, m)) else p]
    ensures Render([p], m) == Output(p, m)
  {
    SubstCons(p, [], m);
    assert [p] + [] == [p];
  }

  lemma {:induction false} SubstIsSettled(ps: seq<Piece>, m: Mapper, again: Mapper)
    requires Follows(m, again) && TokensOnly(ps) && !Refuses(ps, m)
    ensures Render(Subst(ps, m), again) == Render(ps, m) && !Refuses(Subst(ps, m), again)
  {
    hide IsToken;
    if ps != [] {
      var p, rest := ps[0], ps[1..];
      var q := if p.Uri? then Uri(Output(p, m)) else p;
      assert ps == [p] + rest;
      RefusesAppend([p], rest, m);
      assert !(p.Uri? && m(p.text).Refuse?) by {
        assert [p][0] == p;
      }
      SubstIsSettled(rest, m, again);
      SubstCons(p, rest, m);
      SubstCons(q, Subst(rest, m), again);
      RefusesAppend([q], Subst(rest, m), again);
      assert q.Uri? ==> again(q.text) == Keep;
    }
  }

  // -------------------------------------------------------------------------
  // The shape of a text
  // -------------------------------------------------------------------------

  predicate NoInnerNewline(s: string) {
    forall i :: 0 <= i < |s| - 1 ==> s[i] != '\n'
  }

  /** What the parsers look at besides the tokens. */
  predicate SameShape(s: string, t: string) {
    && (s == [] <==> t == [])
    && (s != [] ==> IsWhitespace(s[0]) == IsWhitespace(t[0]) && (IsWhitespace(s[0]) ==> s[0] == t[0]))
    && (s != [] && s[0] != '[' ==> t[0] != '[')
    && (NoInnerNewline(s) ==> NoInnerNewline(t)) && (Terminated(s) <==> Terminated(t))
    && (IsBlank(s) <==> IsBlank(t))
  }

  lemma ShapeRefl(s: string)
    ensures SameShape(s, s)
  {
  }

  lemma BlankConcat(x: string, s: string)
    ensures IsBlank(x + s) <==> IsBlank(x) && IsBlank(s)
  {
    hide IsWhitespace;
    var xs := x + s;
    if IsBlank(xs) {
      assert forall i :: 0 <= i < |x| ==> x[i] == xs[i];
      assert forall i :: 0 <= i < |s| ==> s[i] == xs[|x| + i];
    }
  }

  lemma InnerConcat(x: string, s: string)
    ensures s != [] ==> (NoInnerNewline(x + s) <==> '\n' !in x && NoInnerNewline(s))
    ensures s != [] ==> (Terminated(x + s) <==> Terminated(s))
  {
    if s != [] {
      var xs := x + s;
      if NoInnerNewline(xs) {
        assert forall i :: 0 <= i < |x| ==> x[i] == xs[i];
        assert forall i :: 0 <= i < |s| - 1 ==> s[i] == xs[|x| + i];
      }
    }
  }

  lemma ShapeAfter(x: string, s: string, t: string)
    requires SameShape(s, t)
    ensures SameShape(x + s, x + t)
  {
    hide IsWhitespace, IsBlank, NoInnerNewline, Terminated;
    BlankConcat(x, s);
    BlankConcat(x, t);
    InnerConcat(x, s);
    InnerConcat(x, t);
    if x == [] {
      assert x + s == s && x + t == t;
    } else if s == [] {
      assert x + s == x + t;
    }
  }

  lemma TokenFacts(x: string)
    requires IsToken(x)
    ensures x != [] && !IsWhitespace(x[0]) && !IsBlank(x) && '\n' !in x && !Terminated(x) && NoInnerNewline(x)
  {
    assert IsWhitespace('\n');
  }

  lemma ShapeAfterToken(x: string, y: string, s: string, t: string)
    requires IsToken(x) && IsToken(y) && (x[0] != '[' ==> y[0] != '[') && SameShape(s, t)
    ensures SameShape(x + s, y + t)
  {
    hide IsWhitespace, IsBlank, NoInnerNewline, Terminated, IsToken;
    TokenFacts(x);
    TokenFacts(y);
    BlankConcat(x, s);
    BlankConcat(y, t);
    InnerConcat(x, s);
    InnerConcat(y, t);
    if s == [] {
      assert x + s == x && y + t == y;
    }
  }

  // -------------------------------------------------------------------------
  // Tokens
  // -------------------------------------------------------------------------

  lemma SpaceThen(x: string, s: string, uriOnly: bool)
    requires x != [] && IsBlank(x) && (s == [] || !IsWhitespace(s[0]))
    ensures TokenPieces(x + s, uriOnly) == [Fixed(x)] + TokenPieces(s, uriOnly)
  {
    hide IsWhitespace, TokenPieces;
    var xs := x + s;
    RunIs(xs, true, |x|);
    FirstToken(xs, uriOnly);
    assert xs[..|x|] == x && xs[|x|..] == s;
  }

  lemma TokenThen(x: string, s: string, uriOnly: bool)
    requires IsToken(x) && (s == [] || IsWhitespace(s[0]))
    ensures TokenPieces(x + s, uriOnly) == [Uri(x)] + (if uriOnly then [Fixed(s)] else TokenPieces(s, uriOnly))
  {
    hide IsWhitespace, TokenPieces;
    var xs := x + s;
    RunIs(xs, false, |x|);
    FirstToken(xs, uriOnly);
    assert xs[..|x|] == x && xs[|x|..] == s;
  }

  /** Parsing the output gives the substituted pieces. */
  lemma {:induction false} Reparse(line: string, uriOnly: bool, m: Mapper)
    requires YieldsTokens(m)
    ensures var out := Render(TokenPieces(line, uriOnly), m);
            TokenPieces(out, uriOnly) == Subst(TokenPieces(line, uriOnly), m) && SameShape(line, out)
    decreases |line|
  {
    hide TokenPieces, IsWhitespace, Render, Subst, SameShape, IsBlank;
    if line == [] {
      NoTokens(uriOnly);
      NothingRendered(m);
      ShapeRefl(line);
    } else {
      FirstToken(line, uriOnly);
      var space := IsWhitespace(line[0]);
      var n := Run(line, space);
      var first, rest := line[..n], line[n..];
      assert line == first + rest;
      if !space && line[0] == '#' {
        SubstOne(Fixed(line), m);
        ShapeRefl(line);
      } else if space {
        Reparse(rest, uriOnly, m);
        ReparseSpace(first, rest, uriOnly, m);
      } else {
        assert IsToken(first);
        Reparse(rest, uriOnly, m);
        ReparseToken(first, rest, uriOnly, m);
      }
    }
  }

  lemma NothingRendered(m: Mapper)
    ensures Render([], m) == "" && Subst([], m) == []
  {
  }

  lemma ReparseSpace(x: string, rest: string, uriOnly: bool, m: Mapper)
    requires x != [] && (forall i :: 0 <= i < |x| ==> IsWhitespace(x[i])) && (rest == [] || !IsWhitespace(rest[0]))
    requires var out := Render(TokenPieces(rest, uriOnly), m);
             TokenPieces(out, uriOnly) == Subst(TokenPieces(rest, uriOnly), m) && SameShape(rest, out)
    ensures var ps := [Fixed(x)] + TokenPieces(rest, uriOnly);
            TokenPieces(Render(ps, m), uriOnly) == Subst(ps, m) && SameShape(x + rest, Render(ps, m))
  {
    var out := Render(TokenPieces(rest, uriOnly), m);
    assert out == [] || !IsWhitespace(out[0]);
    ShapeAfter(x, rest, out);
    hide TokenPieces, IsWhitespace, Render, Subst, SameShape;
    SubstCons(Fixed(x), TokenPieces(rest, uriOnly), m);
    SpaceThen(x, out, uriOnly);
  }

  lemma ReparseToken(x: string, rest: string, uriOnly: bool, m: Mapper)
    requires YieldsTokens(m) && IsToken(x) && (rest == [] || IsWhitespace(rest[0]))
    requires var out := Render(TokenPieces(rest, uriOnly), m);
             TokenPieces(out, uriOnly) == Subst(TokenPieces(rest, uriOnly), m) && SameShape(rest, out)
    ensures var ps := [Uri(x)] + (if uriOnly then [Fixed(rest)] else TokenPieces(rest, uriOnly));
            TokenPieces(Render(ps, m), uriOnly) == Subst(ps, m) && SameShape(x + rest, Render(ps, m))
  {
    hide TokenPieces, IsWhitespace, Render, Subst, IsToken, IsBlank, Terminated, NoInnerNewline;
    var y := Output(Uri(x), m);
    var out := if uriOnly then rest else Render(TokenPieces(rest, uriOnly), m);
    assert IsToken(y);
    TokenFacts(x);
    TokenFacts(y);
    assert x[0] != '[' ==> y[0] != '[';
    ShapeRefl(rest);
    assert SameShape(rest, out);
    ShapeAfterToken(x, y, rest, out);
    hide SameShape;
    SubstCons(Uri(x), if uriOnly then [Fixed(rest)] else TokenPieces(rest, uriOnly), m);
    SubstOne(Fixed(rest), m);
    TokenThen(y, out, uriOnly);
  }

  /** Tokens behind a fixed prefix. */
  lemma ReparseAfter(line: string, n: nat, uriOnly: bool, m: Mapper)
    requires YieldsTokens(m) && n <= |line|
    ensures var ps := [Fixed(line[..n])] + TokenPieces(line[n..], uriOnly);
            var out := Render(ps, m);
            && n <= |out| && out[..n] == line[..n] && SameShape(line[n..], out[n..]) && SameShape(line, out)
            && Subst(ps, m) == [Fixed(out[..n])] + TokenPieces(out[n..], uriOnly)
            && out[n..] == Render(TokenPieces(line[n..], uriOnly), m)
  {
    hide TokenPieces, Render, Subst, SameShape;
    var x, rest := line[..n], line[n..];
    assert line == x + rest;
    Reparse(rest, uriOnly, m);
    var tail := Render(TokenPieces(rest, uriOnly), m);
    SubstCons(Fixed(x), TokenPieces(rest, uriOnly), m);
    var out := x + tail;
    assert out[..n] == x && out[n..] == tail;
    ShapeAfter(x, rest, tail);
  }

  // -------------------------------------------------------------------------
  // DEB822 lines
  // -------------------------------------------------------------------------

  /** Only a field named Enabled disables its stanza. */
  lemma OnlyEnabledDisables(line: string)
    requires KindOf(line).Continuation? || (KindOf(line).Field? && IsUris(KindOf(line).key))
    ensures !Disabling(line)
  {
    hide Trim, IsBlank;
    var text := WithoutEnd(line);
    var colon := Find(text, ':');
    if colon < |text| {
      if KindOf(line).Field? {
        FindIs(line, ':', colon);
        assert text[..colon] == KindOf(line).key;
      } else if colon > 0 {
        assert text[..colon][0] == line[0];
        assert Lower(line[0]) != Lower("Enabled"[0]);
      }
    }
  }

  predicate SameKind(s: string, t: string) {
    KindOf(s) == KindOf(t) && Disabling(s) == Disabling(t)
  }

  lemma FieldStaysField(line: string, out: string, key: string)
    requires KindOf(line) == Field(key) && IsUris(key)
    requires |key| + 1 <= |out| && out[..|key| + 1] == line[..|key| + 1] && SameShape(line, out)
    ensures SameKind(line, out)
  {
    hide IsBlank, NoInnerNewline, Terminated, IsUris, Disabling, IsWhitespace;
    var n := |key|;
    assert forall i :: 0 <= i <= n ==> out[i] == out[..n + 1][i] == line[..n + 1][i] == line[i];
    FindIs(out, ':', n);
    assert out[..n] == out[..n + 1][..n] == line[..n + 1][..n] == line[..n] == key;
    assert KindOf(out) == Field(key);
    OnlyEnabledDisables(line);
    OnlyEnabledDisables(out);
  }

  lemma ContinuationStays(line: string, out: string)
    requires KindOf(line).Continuation? && SameShape(line, out)
    ensures SameKind(line, out)
  {
    assert line != [] && IsWhitespace(line[0]);
    hide IsBlank, NoInnerNewline, Terminated, Disabling, Find;
    assert KindOf(out).Continuation?;
    OnlyEnabledDisables(line);
    OnlyEnabledDisables(out);
  }

  lemma ReparseField(line: string, open: bool, m: Mapper)
    requires YieldsTokens(m)
    ensures var out := Render(FieldPieces(line, open), m);
            SameKind(line, out) && SameShape(line, out) && FieldPieces(out, open) == Subst(FieldPieces(line, open), m)
  {
    hide TokenPieces, IsUris, Render, Subst, SameShape, SameKind, KindOf, Disabling;
    var kind := KindOf(line);
    SubstOne(Fixed(line), m);
    ShapeRefl(line);
    KindRefl(line);
    if kind.Continuation? && open {
      Reparse(line, false, m);
      var out := Render(TokenPieces(line, false), m);
      ContinuationStays(line, out);
      SameKindOf(line, out);
    } else if kind.Field? && IsUris(kind.key) {
      var n := |kind.key| + 1;
      ReparseAfter(line, n, false, m);
      var out := Render([Fixed(line[..n])] + TokenPieces(line[n..], false), m);
      FieldStaysField(line, out, kind.key);
      SameKindOf(line, out);
    }
  }

  lemma KindRefl(line: string)
    ensures SameKind(line, line)
  {
  }

  lemma SameKindOf(s: string, t: string)
    requires SameKind(s, t)
    ensures KindOf(s) == KindOf(t)
  {
  }

  // -------------------------------------------------------------------------
  // One-line entries
  // -------------------------------------------------------------------------

  predicate NoSpace(word: string) {
    forall i :: 0 <= i < |word| ==> !IsWhitespace(word[i])
  }

  lemma TypesHaveNoSpace()
    ensures NoSpace("deb") && NoSpace("deb-src")
  {
  }

  /** The type word ends at the white space that is checked with it. */
  lemma EntryWord(s: string, word: string)
    requires StartsEntry(s, word) && NoSpace(word)
    ensures Run(s, false) == |word| < |s| && IsWhitespace(s[|word|])
  {
    var space := if StartsWith(s, word + " ") then " " else "\t";
    assert IsWhitespace(space[0]);
    hide IsWhitespace;
    var x := word + space;
    assert forall i :: 0 <= i < |x| ==> s[i] == x[i];
    assert forall i :: 0 <= i < |word| ==> x[i] == word[i];
    RunIs(s, false, |word|);
  }

  lemma EntryStays(s: string, t: string, word: string)
    requires StartsEntry(s, word) && |word| < |s| && |word| < |t| && t[..|word| + 1] == s[..|word| + 1]
    ensures StartsEntry(t, word)
  {
    var space := if StartsWith(s, word + " ") then " " else "\t";
    var x := word + space;
    assert x == s[..|x|] == t[..|x|];
  }

  /** The type word and the white space after it decide whether a line is an entry. */
  lemma TypeWord(line: string)
    requires IsDebLine(line)
    ensures TypeEnd(line) < |line| && IsWhitespace(line[TypeEnd(line)])
  {
    hide Run, StartsEntry, IsWhitespace, NoSpace;
    TypesHaveNoSpace();
    var trimmed := TrimStart(line);
    EntryWord(trimmed, if StartsEntry(trimmed, "deb") then "deb" else "deb-src");
  }

  lemma TypeStays(line: string, out: string)
    requires IsDebLine(line) && TypeEnd(line) < |line| && TypeEnd(line) < |out|
    requires out[..TypeEnd(line) + 1] == line[..TypeEnd(line) + 1]
    ensures IsDebLine(out) && TypeEnd(out) == TypeEnd(line)
  {
    TypesHaveNoSpace();
    hide IsWhitespace, StartsEntry, NoSpace;
    var trimmed := TrimStart(line);
    var word := if StartsEntry(trimmed, "deb") then "deb" else "deb-src";
    EntryWord(trimmed, word);
    var w, n := Run(line, true), TypeEnd(line);
    assert forall i :: 0 <= i <= n ==> out[i] == out[..n + 1][i] == line[..n + 1][i] == line[i];
    RunIs(out, true, w);
    var t := TrimStart(out);
    assert t[..|word| + 1] == trimmed[..|word| + 1];
    EntryStays(trimmed, t, word);
    EntryWord(t, word);
  }

  lemma NoOptionsStay(line: string, out: string, m: Mapper)
    requires YieldsTokens(m) && IsDebLine(line) && !HasOptions(line) && IsDebLine(out)
    requires TypeEnd(out) == TypeEnd(line)
    requires out[TypeEnd(line)..] == Render(TokenPieces(line[TypeEnd(line)..], true), m)
    ensures !HasOptions(out)
  {
    TypeWord(line);
    hide IsDebLine, TypeEnd, TokenPieces, IsWhitespace, Render, IsBlank, NoInnerNewline, Terminated;
    var s := line[TypeEnd(line)..];
    var n := Run(s, true);
    var rest := s[n..];
    FirstToken(s, true);
    Reparse(rest, true, m);
    var tail := Render(TokenPieces(rest, true), m);
    SubstCons(Fixed(s[..n]), TokenPieces(rest, true), m);
    var t := out[TypeEnd(line)..];
    assert t == s[..n] + tail;
    RunIs(t, true, n);
    assert TrimStart(t) == tail;
  }

  /** White space before `j` contains no bracket. */
  lemma SpacesOnly(s: string, j: nat, k: nat)
    requires j == Run(s, true) < |s| && s[j] == '[' && k < |s| && s[k] == ']'
    ensures j < k
  {
    hide IsWhitespace, Run;
    BracketIsNotSpace();
  }

  lemma BracketIsNotSpace()
    ensures !IsWhitespace(']')
  {
  }

  lemma OptionsStay(line: string, out: string, n: nat, u: nat)
    requires IsDebLine(line) && HasOptions(line) && n == TypeEnd(line) && u == OptionsEnd(line) <= |line|
    requires TypeEnd(out) == n && u <= |out| && out[..u] == line[..u]
    ensures HasOptions(out) && OptionsEnd(out) == u
  {
    hide IsDebLine, IsWhitespace, TypeEnd;
    var s, t := line[n..], out[n..];
    var k := u - n - 1;
    assert forall i :: 0 <= i <= k ==> t[i] == out[..u][n + i] == line[..u][n + i] == s[i];
    var j := Run(s, true);
    assert TrimStart(s)[0] == '[' && s[j] == '[' && s[k] == ']';
    SpacesOnly(s, j, k);
    RunIs(t, true, j);
    assert TrimStart(t)[0] == '[';
    FindIs(t, ']', k);
  }

  lemma ReparseOneLine(line: string, m: Mapper)
    requires YieldsTokens(m)
    ensures var out := Render(OneLinePieces(line), m);
            && SameShape(line, out) && OneLinePieces(out) == Subst(OneLinePieces(line), m)
            && (OptionsClosed(line) ==> OptionsClosed(out))
  {
    SubstOne(Fixed(line), m);
    ShapeRefl(line);
    if IsDebLine(line) && OptionsClosed(line) {
      ReparseEntry(line, m);
    }
    hide TokenPieces, Render, Subst, SameShape, IsDebLine, HasOptions, OptionsEnd, TypeEnd;
  }

  lemma PrefixStays(line: string, out: string, n: nat, u: nat)
    requires n <= u <= |line| && u <= |out| && out[..u] == line[..u] && SameShape(line[u..], out[u..])
    requires n < |line| && IsWhitespace(line[n])
    ensures n < |out| && out[..n + 1] == line[..n + 1]
  {
    hide IsWhitespace, IsBlank, NoInnerNewline, Terminated;
    assert forall i :: 0 <= i < u ==> out[i] == out[..u][i] == line[..u][i] == line[i];
    if u == n {
      assert line[u..][0] == line[n] && out[u..][0] == out[n];
    }
  }

  lemma ReparseEntry(line: string, m: Mapper)
    requires YieldsTokens(m) && IsDebLine(line) && (HasOptions(line) ==> OptionsEnd(line) <= |line|)
    ensures var out := Render(OneLinePieces(line), m);
            && SameShape(line, out) && OneLinePieces(out) == Subst(OneLinePieces(line), m) && OptionsClosed(out)
  {
    hide TokenPieces, Render, Subst, IsDebLine, TypeEnd, SameShape, OneLinePieces, HasOptions, OptionsEnd,
         OptionsClosed, IsWhitespace, YieldsTokens;
    EntryStart(line);
    var n, u := TypeEnd(line), UriStart(line);
    EntryPieces(line);
    ReparseAfter(line, u, true, m);
    var out := Render(OneLinePieces(line), m);
    PrefixStays(line, out, n, u);
    TypeStays(line, out);
    if HasOptions(line) {
      OptionsStay(line, out, n, u);
    } else {
      NoOptionsStay(line, out, m);
    }
    EntryPieces(out);
  }

  lemma EntryStart(line: string)
    requires IsDebLine(line)
    ensures TypeEnd(line) < |line| && IsWhitespace(line[TypeEnd(line)]) && TypeEnd(line) <= UriStart(line)
  {
    hide IsDebLine, TypeEnd, IsWhitespace;
    TypeWord(line);
  }

  // -------------------------------------------------------------------------
  // Files
  // -------------------------------------------------------------------------

  /** Two files of the same length whose lines have the same kinds. */
  ghost predicate SameKinds(lines: seq<string>, outs: seq<string>) {
    |lines| == |outs| && forall i :: 0 <= i < |lines| ==> SameKind(lines[i], outs[i])
  }

  lemma BlankIsAKind(line: string)
    ensures IsBlank(line) <==> KindOf(line).Blank?
  {
  }

  lemma SameBlanks(lines: seq<string>, outs: seq<string>, i: nat)
    requires SameKinds(lines, outs) && i < |lines|
    ensures IsBlank(lines[i]) == IsBlank(outs[i])
  {
    hide IsBlank, KindOf, Disabling;
    assert SameKind(lines[i], outs[i]);
    BlankIsAKind(lines[i]);
    BlankIsAKind(outs[i]);
  }

  lemma {:induction false} SameStart(lines: seq<string>, outs: seq<string>, i: nat)
    requires SameKinds(lines, outs) && i <= |lines|
    ensures StanzaStart(lines, i) == StanzaStart(outs, i)
    decreases i
  {
    hide IsBlank, SameKind;
    if i > 0 {
      SameBlanks(lines, outs, i - 1);
      SameStart(lines, outs, i - 1);
    }
  }

  lemma {:induction false} SameEnd(lines: seq<string>, outs: seq<string>, i: nat)
    requires SameKinds(lines, outs) && i <= |lines|
    ensures StanzaEnd(lines, i) == StanzaEnd(outs, i)
    decreases |lines| - i
  {
    hide IsBlank, SameKind;
    if i < |lines| {
      SameBlanks(lines, outs, i);
      SameEnd(lines, outs, i + 1);
    }
  }

  lemma {:induction false} SameOpen(lines: seq<string>, outs: seq<string>, i: nat)
    requires SameKinds(lines, outs) && i <= |lines|
    ensures UrisOpen(lines, i) == UrisOpen(outs, i)
    decreases i
  {
    hide KindOf, Disabling, IsUris;
    if i > 0 {
      assert SameKind(lines[i - 1], outs[i - 1]);
      SameOpen(lines, outs, i - 1);
    }
  }

  lemma SameDisabled(lines: seq<string>, outs: seq<string>, i: nat)
    requires SameKinds(lines, outs) && i < |lines|
    ensures Disabled(lines, i) == Disabled(outs, i)
  {
    hide KindOf, Disabling, IsBlank;
    SameStart(lines, outs, i);
    SameEnd(lines, outs, i);
    assert forall k :: 0 <= k < |lines| ==> SameKind(lines[k], outs[k]);
  }

  /** Every line of the output has the kind and shape of the line it came from. */
  lemma LineStays(lines: seq<string>, deb822: bool, i: nat, m: Mapper)
    requires YieldsTokens(m) && i < |lines|
    ensures var out := Render(Pieces(lines, deb822, i), m);
            SameShape(lines[i], out) && (deb822 ==> SameKind(lines[i], out))
  {
    hide OneLinePieces, FieldPieces, Disabled, UrisOpen, SameShape, SameKind, Render;
    ReparseOneLine(lines[i], m);
    ReparseField(lines[i], UrisOpen(lines, i), m);
    SubstOne(Fixed(lines[i]), m);
    ShapeRefl(lines[i]);
    KindRefl(lines[i]);
  }

  lemma OutputsAreLines(lines: seq<string>, deb822: bool, at: nat -> Mapper)
    requires AreLines(lines) && forall i: nat :: i < |lines| ==> YieldsTokens(at(i))
    ensures AreLines(Rendered(lines, deb822, at))
    ensures deb822 ==> SameKinds(lines, Rendered(lines, deb822, at))
  {
    hide Pieces, Render, IsBlank, IsWhitespace, KindOf, Disabling, YieldsTokens;
    var outs := Rendered(lines, deb822, at);
    forall i | 0 <= i < |lines|
      ensures IsLine(outs[i]) && (Terminated(lines[i]) ==> Terminated(outs[i]))
      ensures deb822 ==> SameKind(lines[i], outs[i])
    {
      LineStays(lines, deb822, i, at(i));
    }
  }

  lemma PiecesOfOutput(lines: seq<string>, deb822: bool, i: nat, at: nat -> Mapper)
    requires i < |lines| && YieldsTokens(at(i)) && (deb822 ==> SameKinds(lines, Rendered(lines, deb822, at)))
    ensures var outs := Rendered(lines, deb822, at);
            && Pieces(outs, deb822, i) == Subst(Pieces(lines, deb822, i), at(i))
            && (Accepted(lines, deb822, i) ==> Accepted(outs, deb822, i))
  {
    hide OneLinePieces, FieldPieces, OptionsClosed, Disabled, UrisOpen, SameShape, KindOf, Disabling, Render, Subst,
         YieldsTokens;
    var outs := Rendered(lines, deb822, at);
    if deb822 {
      SameDisabled(lines, outs, i);
      SameOpen(lines, outs, i);
      assert SameKind(lines[i], outs[i]);
      ReparseField(lines[i], UrisOpen(lines, i), at(i));
      SubstOne(Fixed(lines[i]), at(i));
    } else {
      ReparseOneLine(lines[i], at(i));
    }
  }

  lemma SettledLine(lines: seq<string>, deb822: bool, i: nat, at: nat -> Mapper, again: Mapper)
    requires i < |lines| && YieldsTokens(at(i)) && (deb822 ==> SameKinds(lines, Rendered(lines, deb822, at)))
    requires Rewritable(lines, deb822, at(i), i) && Follows(at(i), again)
    ensures var outs := Rendered(lines, deb822, at); LineOutcome(outs, deb822, i, again) == Some(outs[i])
  {
    hide Pieces, Accepted, Render, Subst, Refuses, SameKinds, YieldsTokens, Follows, MayChange, TokensOnly;
    PiecesOfOutput(lines, deb822, i, at);
    UrisOfLine(lines, deb822, i);
    SubstIsSettled(Pieces(lines, deb822, i), at(i), again);
  }

  /** The mappers of a first pass yield tokens, and those of a second pass follow them line by line. */
  ghost predicate PassFollows(n: nat, at: nat -> Mapper, again: nat -> Mapper) {
    forall i: nat :: i < n ==> YieldsTokens(at(i)) && Follows(at(i), again(i))
  }

  /** Rewriting the output once more, line by line, gives the output. */
  lemma SecondPassKeepsLines(lines: seq<string>, deb822: bool, at: nat -> Mapper, again: nat -> Mapper)
    requires AreLines(lines) && AllRewritable(lines, deb822, at) && PassFollows(|lines|, at, again)
    ensures var outs := Rendered(lines, deb822, at);
            && Lines(Join(outs)) == outs
            && Concat(Outcomes(outs, deb822, again), 0, |outs|) == Some(Join(outs))
  {
    hide Rewritable, LineOutcome, SameKinds, AreLines, YieldsTokens, Follows, Join, Lines;
    var outs := Rendered(lines, deb822, at);
    OutputsAreLines(lines, deb822, at);
    LinesOfJoin(outs);
    var f := Outcomes(outs, deb822, again);
    forall i: nat | i < |outs| ensures f(i) == Some(outs[i]) {
      SettledLine(lines, deb822, i, at, again(i));
    }
    ConcatKept(outs, f, |outs|);
    assert outs[..|outs|] == outs;
  }

  /** With a settled mapper, rewriting the output again gives the output. */
  lemma SecondPassIsIdentity(content: string, deb822: bool, m: Mapper)
    requires Settled(m) && Rewritten(content, deb822, m).Some?
    ensures var out := Rewritten(content, deb822, m).value; Rewritten(out, deb822, m) == Some(out)
  {
    hide AllRewritable, AreLines, YieldsTokens, Follows, MayChange, Outcomes, Concat;
    var lines := Lines(content);
    LinesAreRendered(lines, deb822, Always(m));
    LinesAreLines(content);
    SecondPassKeepsLines(lines, deb822, Always(m), Always(m));
  }

  /** The mappers that stanzas can select follow each other. */
  ghost predicate SettledFamily(context: string -> Mapper) {
    forall p, q :: YieldsTokens(context(p)) && Follows(context(p), context(q))
  }

  /** The same for the stanza-wise rewriter, whatever mapper each stanza and its rewriting select. */
  lemma SecondPassByPartIsIdentity(content: string, deb822: bool, context: string -> Mapper)
    requires SettledFamily(context) && RewrittenByPart(content, deb822, context).Some?
    ensures var out := RewrittenByPart(content, deb822, context).value;
            RewrittenByPart(out, deb822, context) == Some(out)
  {
    hide AllRewritable, AreLines, SettledFamily, PassFollows, MayChange, Outcomes, Concat, MapperAt, Rendered;
    var lines := Lines(content);
    var at := ByPart(lines, deb822, context);
    LinesAreRendered(lines, deb822, at);
    LinesAreLines(content);
    var outs := Rendered(lines, deb822, at);
    FamilyFollows(lines, outs, deb822, context);
    SecondPassKeepsLines(lines, deb822, at, ByPart(outs, deb822, context));
  }

  lemma FamilyFollows(lines: seq<string>, outs: seq<string>, deb822: bool, context: string -> Mapper)
    requires SettledFamily(context)
    ensures PassFollows(|lines|, ByPart(lines, deb822, context), ByPart(outs, deb822, context))
  {
    hide YieldsTokens, Follows, Part;
    var at, again := ByPart(lines, deb822, context), ByPart(outs, deb822, context);
    forall i: nat | i < |lines| ensures YieldsTokens(at(i)) && Follows(at(i), again(i)) {
      var p := Part(lines, deb822, i);
      var q := if i < |outs| then Part(outs, deb822, i) else "";
      assert at(i) == context(p) && again(i) == context(q);
    }
  }
}
