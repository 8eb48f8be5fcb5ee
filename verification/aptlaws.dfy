/**
  What one pass of the APT rewriters promises: nothing is lost, only URIs change,
  and stanzas do not influence each other.
*/
module AptLaws {
  import opened AptRewriter
  import opened Text
  import opened Wrappers

  // -------------------------------------------------------------------------
  // Losslessness
  // -------------------------------------------------------------------------

  lemma SourceCons(p: Piece, ps: seq<Piece>)
    ensures Source([p] + ps) == p.text + Source(ps)
  {
    assert ([p] + ps)[1..] == ps;
  }

  lemma SourceOne(p: Piece)
    ensures Source([p]) == p.text
  {
    assert [p] == [p] + [];
    SourceCons(p, []);
    assert p.text + "" == p.text;
  }

  lemma {:induction false} TokensKeepText(line: string, uriOnly: bool)
    ensures Source(TokenPieces(line, uriOnly)) == line
    decreases |line|
  {
    hide TokenPieces, IsWhitespace, Source;
    if line == [] {
      NoTokens(uriOnly);
      SourceNothing();
    } else {
      FirstToken(line, uriOnly);
      var n := Run(line, IsWhitespace(line[0]));
      var rest := line[n..];
      assert line[..n] + rest == line;
      TokensKeepText(rest, uriOnly);
      SourceOne(Fixed(line));
      SourceOne(Fixed(rest));
      SourceCons(Uri(line[..n]), [Fixed(rest)]);
      SourceCons(Uri(line[..n]), TokenPieces(rest, uriOnly));
      SourceCons(Fixed(line[..n]), TokenPieces(rest, uriOnly));
    }
  }

  lemma SourceNothing()
    ensures Source([]) == ""
  {
  }

  lemma PrefixedKeepText(line: string, n: nat, uriOnly: bool)
    requires n <= |line|
    ensures Source([Fixed(line[..n])] + TokenPieces(line[n..], uriOnly)) == line
  {
    hide TokenPieces, Source;
    TokensKeepText(line[n..], uriOnly);
    SourceCons(Fixed(line[..n]), TokenPieces(line[n..], uriOnly));
    assert line[..n] + line[n..] == line;
  }

  /** The pieces of a line, put back together, are the line. */
  lemma PiecesKeepText(lines: seq<string>, deb822: bool, i: nat)
    requires i < |lines|
    ensures Source(Pieces(lines, deb822, i)) == lines[i]
  {
    var line := lines[i];
    OneLineKeepsText(line);
    FieldKeepsText(line, UrisOpen(lines, i));
    SourceOne(Fixed(line));
    hide OneLinePieces, FieldPieces, Source;
  }

  lemma OneLineKeepsText(line: string)
    ensures Source(OneLinePieces(line)) == line
  {
    hide TokenPieces, Source, IsDebLine, HasOptions, OptionsEnd;
    SourceOne(Fixed(line));
    if IsDebLine(line) && OptionsClosed(line) {
      PrefixedKeepText(line, UriStart(line), true);
    }
  }

  lemma FieldKeepsText(line: string, open: bool)
    ensures Source(FieldPieces(line, open)) == line
  {
    hide TokenPieces, Source, IsUris;
    SourceOne(Fixed(line));
    TokensKeepText(line, false);
    var kind := KindOf(line);
    if kind.Field? {
      PrefixedKeepText(line, |kind.key| + 1, false);
    }
  }

  lemma {:induction false} KeepingRendersSource(ps: seq<Piece>, m: Mapper)
    requires forall t :: m(t) == Keep
    ensures Render(ps, m) == Source(ps)
  {
    if ps != [] {
      KeepingRendersSource(ps[1..], m);
    }
  }

  predicate AcceptedFile(content: string, deb822: bool) {
    var lines := Lines(content);
    forall i: nat :: i < |lines| ==> Accepted(lines, deb822, i)
  }

  lemma KeepingOutcome(lines: seq<string>, deb822: bool, i: nat, m: Mapper)
    requires i < |lines| && forall t :: m(t) == Keep
    ensures LineOutcome(lines, deb822, i, m) == if Accepted(lines, deb822, i) then Some(lines[i]) else None
  {
    hide Accepted, Pieces, Render, Source;
    var ps := Pieces(lines, deb822, i);
    PiecesKeepText(lines, deb822, i);
    KeepingRendersSource(ps, m);
    assert !Refuses(ps, m);
  }

  /** A mapper that recognises nothing: every accepted file, and no other, is returned unchanged. */
  lemma Lossless(content: string, deb822: bool, m: Mapper)
    requires forall t :: m(t) == Keep
    ensures Rewritten(content, deb822, m) == if AcceptedFile(content, deb822) then Some(content) else None
  {
    hide Accepted, LineOutcome, Lines, Join, Concat;
    var lines := Lines(content);
    var f := Outcomes(lines, deb822, Always(m));
    forall i: nat | i < |lines| ensures f(i) == if Accepted(lines, deb822, i) then Some(lines[i]) else None {
      KeepingOutcome(lines, deb822, i, m);
    }
    if AcceptedFile(content, deb822) {
      ConcatKept(lines, f, |lines|);
      LinesAreLines(content);
      assert lines[..|lines|] == lines;
    } else {
      var i: nat :| i < |lines| && !Accepted(lines, deb822, i);
      ConcatFails(f, 0, i, |lines|);
    }
  }

  // -------------------------------------------------------------------------
  // Only URIs change
  // -------------------------------------------------------------------------

  /** A maximal run of characters that are not white space, and no comment. */
  predicate IsToken(s: string) {
    s != [] && s[0] != '#' && forall i :: 0 <= i < |s| ==> !IsWhitespace(s[i])
  }

  ghost predicate TokensOnly(ps: seq<Piece>) {
    forall k :: 0 <= k < |ps| && ps[k].Uri? ==> IsToken(ps[k].text)
  }

  lemma {:induction false} UrisAreTokens(line: string, uriOnly: bool)
    ensures TokensOnly(TokenPieces(line, uriOnly))
    decreases |line|
  {
    hide TokenPieces, IsWhitespace;
    if line == [] {
      NoTokens(uriOnly);
    } else {
      FirstToken(line, uriOnly);
      UrisAreTokens(line[Run(line, IsWhitespace(line[0]))..], uriOnly);
    }
  }

  /** The last field before line `i`, reached over comments and continuations only, is a URIs field. */
  ghost predicate UnderUris(lines: seq<string>, i: nat)
    requires i <= |lines|
  {
    exists j: nat :: j < i && KindOf(lines[j]).Field? && IsUris(KindOf(lines[j]).key) && Continues(lines, j + 1, i)
  }

  ghost predicate Continues(lines: seq<string>, j: nat, i: nat)
    requires i <= |lines|
  {
    forall k :: j <= k < i ==> KindOf(lines[k]).Comment? || KindOf(lines[k]).Continuation?
  }

  /** The loop's flag in terms of the file. */
  lemma {:induction false} OpenMeansUnderUris(lines: seq<string>, i: nat)
    requires i <= |lines|
    ensures UrisOpen(lines, i) <==> UnderUris(lines, i)
    decreases i
  {
    hide KindOf, IsUris;
    if i > 0 {
      OpenMeansUnderUris(lines, i - 1);
      if UnderUris(lines, i) {
        var j: nat :| j < i && KindOf(lines[j]).Field? && IsUris(KindOf(lines[j]).key) && Continues(lines, j + 1, i);
        if j < i - 1 {
          assert Continues(lines, j + 1, i - 1);
        }
      }
      if UrisOpen(lines, i) {
        if KindOf(lines[i - 1]).Field? {
          assert Continues(lines, i, i);
        } else {
          var j: nat :| j < i - 1 && KindOf(lines[j]).Field? && IsUris(KindOf(lines[j]).key) &&
              Continues(lines, j + 1, i - 1);
          assert Continues(lines, j + 1, i);
        }
      }
    }
  }

  /** The lines that may change: deb and deb-src lines, or URIs fields and their continuations in enabled stanzas. */
  ghost predicate MayChange(lines: seq<string>, deb822: bool, i: nat)
    requires i < |lines|
  {
    if !deb822 then IsDebLine(lines[i])
    else
      && !Disabled(lines, i)
      && match KindOf(lines[i])
         case Continuation => UnderUris(lines, i)
         case Field(key) => IsUris(key)
         case _ => false
  }

  lemma TokensAfter(text: string, ps: seq<Piece>)
    requires TokensOnly(ps)
    ensures TokensOnly([Fixed(text)] + ps)
  {
  }

  lemma UrisOfOneLine(line: string)
    ensures TokensOnly(OneLinePieces(line))
    ensures !IsDebLine(line) ==> OneLinePieces(line) == [Fixed(line)]
  {
    hide TokenPieces, IsDebLine, OptionsClosed, IsToken, HasOptions, OptionsEnd;
    if IsDebLine(line) && OptionsClosed(line) {
      UriStartInLine(line);
      UrisAreTokens(line[UriStart(line)..], true);
      TokensAfter(line[..UriStart(line)], TokenPieces(line[UriStart(line)..], true));
    }
  }

  lemma UrisOfField(line: string, open: bool)
    ensures TokensOnly(FieldPieces(line, open))
  {
    hide TokenPieces, KindOf, IsUris, IsToken;
    UrisAreTokens(line, false);
    var kind := KindOf(line);
    if kind.Field? {
      UrisAreTokens(line[|kind.key| + 1..], false);
      TokensAfter(line[..|kind.key| + 1], TokenPieces(line[|kind.key| + 1..], false));
    }
  }

  lemma UrisOfLine(lines: seq<string>, deb822: bool, i: nat)
    requires i < |lines|
    ensures TokensOnly(Pieces(lines, deb822, i))
    ensures !MayChange(lines, deb822, i) ==> Pieces(lines, deb822, i) == [Fixed(lines[i])]
  {
    hide TokenPieces, OneLinePieces, KindOf, IsUris, IsDebLine, IsToken, Disabled, UrisOpen, UnderUris;
    OpenMeansUnderUris(lines, i);
    UrisOfOneLine(lines[i]);
    UrisOfField(lines[i], UrisOpen(lines, i));
  }

  lemma UriStartInLine(line: string)
    requires IsDebLine(line) && OptionsClosed(line)
    ensures UriStart(line) <= |line|
  {
    hide IsDebLine;
  }

  predicate Rewritable(lines: seq<string>, deb822: bool, m: Mapper, i: nat)
    requires i < |lines|
  {
    Accepted(lines, deb822, i) && !Refuses(Pieces(lines, deb822, i), m)
  }

  /** Every line is accepted and no URI of it is refused by the mapper of that line. */
  predicate AllRewritable(lines: seq<string>, deb822: bool, at: nat -> Mapper) {
    forall i: nat :: i < |lines| ==> Rewritable(lines, deb822, at(i), i)
  }

  ghost function Rendered(lines: seq<string>, deb822: bool, at: nat -> Mapper): (outs: seq<string>)
    ensures |outs| == |lines|
    ensures forall i :: 0 <= i < |lines| ==> outs[i] == Render(Pieces(lines, deb822, i), at(i))
  {
    seq(|lines|, i requires 0 <= i < |lines| => Render(Pieces(lines, deb822, i), at(i)))
  }

  lemma OutcomeIsRendering(lines: seq<string>, deb822: bool, at: nat -> Mapper, i: nat)
    requires i < |lines|
    ensures LineOutcome(lines, deb822, i, at(i)) ==
            if Rewritable(lines, deb822, at(i), i) then Some(Rendered(lines, deb822, at)[i]) else None
    ensures !MayChange(lines, deb822, i) ==> Rendered(lines, deb822, at)[i] == lines[i]
  {
    hide Accepted, Pieces, Render, Refuses, MayChange;
    UrisOfLine(lines, deb822, i);
    OutcomeFixed(lines[i], at(i));
  }

  /**
    The output is the lines of the input, each rendered from its pieces: white space, comments, line
    ends and every line that may not change are kept, and only tokens are handed to the mappers.
  */
  lemma LinesAreRendered(lines: seq<string>, deb822: bool, at: nat -> Mapper)
    ensures var out := Concat(Outcomes(lines, deb822, at), 0, |lines|);
            && (out.Some? <==> AllRewritable(lines, deb822, at))
            && (out.Some? ==> out.value == Join(Rendered(lines, deb822, at)))
    ensures forall i :: 0 <= i < |lines| && !MayChange(lines, deb822, i) ==> Rendered(lines, deb822, at)[i] == lines[i]
  {
    hide LineOutcome, Rewritable, MayChange, Rendered, Join, Concat;
    var f, outs := Outcomes(lines, deb822, at), Rendered(lines, deb822, at);
    forall i: nat | i < |lines|
      ensures f(i) == if Rewritable(lines, deb822, at(i), i) then Some(outs[i]) else None
      ensures !MayChange(lines, deb822, i) ==> outs[i] == lines[i]
    {
      OutcomeIsRendering(lines, deb822, at, i);
    }
    if i: nat :| i < |lines| && !Rewritable(lines, deb822, at(i), i) {
      ConcatFails(f, 0, i, |lines|);
    } else {
      ConcatKept(outs, f, |lines|);
      assert outs[..|lines|] == outs;
    }
  }

  /** This is what the whole-file rewriter does. */
  lemma OnlyUrisChange(content: string, deb822: bool, m: Mapper)
    ensures var lines := Lines(content);
            var outs := Rendered(lines, deb822, Always(m));
            && (Rewritten(content, deb822, m).Some? <==> AllRewritable(lines, deb822, Always(m)))
            && (Rewritten(content, deb822, m).Some? ==> Rewritten(content, deb822, m).value == Join(outs))
            && forall i :: 0 <= i < |lines| && !MayChange(lines, deb822, i) ==> outs[i] == lines[i]
  {
    hide AllRewritable, Rendered, MayChange, Outcomes;
    LinesAreRendered(Lines(content), deb822, Always(m));
  }

  // -------------------------------------------------------------------------
  // Stanza by stanza
  // -------------------------------------------------------------------------

  lemma {:induction false} ConcatSame(f: nat -> Option<string>, g: nat -> Option<string>, n: nat)
    requires forall i: nat :: i < n ==> f(i) == g(i)
    ensures Concat(f, 0, n) == Concat(g, 0, n)
  {
    if n > 0 {
      ConcatSame(f, g, n - 1);
    }
  }

  ghost predicate SelectsOnly(content: string, deb822: bool, context: string -> Mapper, m: Mapper) {
    var lines := Lines(content);
    forall i: nat :: i < |lines| ==> MapperAt(lines, deb822, context, i) == m
  }

  /** Stanza-wise and whole-file rewriting agree when every stanza selects the same mapper. */
  lemma OneContextIsWholeFile(content: string, deb822: bool, context: string -> Mapper, m: Mapper)
    requires SelectsOnly(content, deb822, context, m)
    ensures RewrittenByPart(content, deb822, context) == Rewritten(content, deb822, m)
  {
    hide LineOutcome, Part;
    var lines := Lines(content);
    var f, g := Outcomes(lines, deb822, ByPart(lines, deb822, context)), Outcomes(lines, deb822, Always(m));
    forall i: nat | i < |lines| ensures f(i) == g(i) {
      assert MapperAt(lines, deb822, context, i) == m;
      assert f(i) == LineOutcome(lines, deb822, i, m);
    }
    ConcatSame(f, g, |lines|);
  }

  /** What a stanza contributes is a function of its own text: no selection leaks across stanzas. */
  lemma ContextsDoNotLeak(content: string, a: nat, b: nat, context: string -> Mapper)
    requires IsStanza(Lines(content), a, b)
    ensures var lines := Lines(content);
            var f := Outcomes(lines, true, ByPart(lines, true, context));
            var own := Join(lines[a..b]);
            && Concat(f, a, b) == Rewritten(own, true, context(own))
            && RewrittenByPart(content, true, context) ==
               Append(Append(Concat(f, 0, a), Rewritten(own, true, context(own))), Concat(f, b, |lines|))
  {
    hide LineOutcome, IsBlank, Join, Rewritten, Concat, Outcomes;
    var lines := Lines(content);
    var at := ByPart(lines, true, context);
    var f := Outcomes(lines, true, at);
    LinesAreLines(content);
    PartOfStanza(lines, a, b, context);
    StanzaIsRewrittenAlone(lines, a, b, at, context(Join(lines[a..b])));
    ConcatSplit(f, 0, a, b);
    ConcatSplit(f, 0, b, |lines|);
  }
}
