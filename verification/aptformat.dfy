/**
  The two formats of APT sources, in terms of the text alone: which stanzas are disabled, which lines
  name URIs, and what becomes of each kind of line.
*/
module AptFormat {
  import opened AptLaws
  import opened AptRewriter
  import opened Text
  import opened Wrappers

  // -------------------------------------------------------------------------
  // Letter case
  // -------------------------------------------------------------------------

  /** The same character, or the two cases of one ASCII letter. */
  predicate SameLetter(a: char, b: char) {
    || a == b
    || ('A' <= a <= 'Z' && b as int == a as int + 32)
    || ('A' <= b <= 'Z' && a as int == b as int + 32)
  }

  /** `text` is `word` in any mixture of cases. */
  predicate Spells(text: string, word: string) {
    |text| == |word| && forall i :: 0 <= i < |text| ==> SameLetter(text[i], word[i])
  }

  lemma SpellsIs(text: string, word: string)
    ensures SameIgnoringCase(text, word) <==> Spells(text, word)
  {
    forall a: char, b: char ensures Lower(a) == Lower(b) <==> SameLetter(a, b) {
      LetterIs(a, b);
    }
  }

  lemma LetterIs(a: char, b: char)
    ensures Lower(a) == Lower(b) <==> SameLetter(a, b)
  {
  }

  // -------------------------------------------------------------------------
  // Tokens
  // -------------------------------------------------------------------------

  /** White space and tokens in turn, beginning and ending with white space. */
  function Weave(pads: seq<string>, tokens: seq<string>): string
    requires |pads| == |tokens| + 1
  {
    if tokens == [] then pads[0] else pads[0] + tokens[0] + Weave(pads[1..], tokens[1..])
  }

  predicate IsComment(s: string) {
    s != "" && s[0] == '#'
  }

  /** A text cut into white space, tokens, and the comment that may end it. */
  ghost predicate Spaced(pads: seq<string>, tokens: seq<string>, comment: string) {
    && |pads| == |tokens| + 1
    && (forall i :: 0 <= i < |pads| ==> IsBlank(pads[i]))
    && (forall i :: 0 < i < |tokens| ==> pads[i] != "")
    && (forall i :: 0 <= i < |tokens| ==> IsToken(tokens[i]))
    && (comment != "" ==> IsComment(comment) && (tokens != [] ==> pads[|tokens|] != ""))
  }

  /** What a token becomes that the mapper does not refuse. */
  function NewUri(t: string, m: Mapper): string {
    match m(t)
    case Replace(text) => text
    case _ => t
  }

  ghost predicate Accepts(tokens: seq<string>, m: Mapper) {
    forall i :: 0 <= i < |tokens| ==> m(tokens[i]) != Refuse
  }

  function NewUris(tokens: seq<string>, m: Mapper): (r: seq<string>)
    ensures |r| == |tokens|
  {
    seq(|tokens|, i requires 0 <= i < |tokens| => NewUri(tokens[i], m))
  }

  lemma PadFirst(pad: string, rest: string, uriOnly: bool, m: Mapper)
    requires IsBlank(pad) && (rest == "" || !IsWhitespace(rest[0]))
    ensures Outcome(TokenPieces(pad + rest, uriOnly), m) == Append(Some(pad), Outcome(TokenPieces(rest, uriOnly), m))
  {
    hide IsWhitespace, TokenPieces, Outcome;
    var s := pad + rest;
    if pad == "" {
      assert s == rest;
      AppendToNothing(Outcome(TokenPieces(rest, uriOnly), m));
    } else {
      assert s[0] == pad[0];
      assert forall i :: 0 <= i < |pad| ==> s[i] == pad[i];
      RunIs(s, true, |pad|);
      assert s[..|pad|] == pad && s[|pad|..] == rest;
      FirstToken(s, uriOnly);
      FixedThen(pad, TokenPieces(rest, uriOnly), m);
    }
  }

  lemma UriThen(t: string, ps: seq<Piece>, m: Mapper)
    ensures Outcome([Uri(t)] + ps, m) ==
            if m(t) == Refuse then None else Append(Some(NewUri(t, m)), Outcome(ps, m))
  {
    OutcomeAppend([Uri(t)], ps, m);
    var one := [Uri(t)];
    assert one[1..] == [] && one[0] == Uri(t);
    assert Render(one, m) == Output(Uri(t), m) + Render([], m) == Output(Uri(t), m);
    assert Refuses(one, m) <==> m(t) == Refuse;
  }

  lemma TokenFirst(t: string, rest: string, uriOnly: bool, m: Mapper)
    requires IsToken(t) && (rest == "" || IsWhitespace(rest[0]))
    ensures Outcome(TokenPieces(t + rest, uriOnly), m) ==
            if m(t) == Refuse then None
            else Append(Some(NewUri(t, m)), if uriOnly then Some(rest) else Outcome(TokenPieces(rest, uriOnly), m))
  {
    hide IsWhitespace, TokenPieces, Outcome;
    var s := t + rest;
    assert s[0] == t[0];
    assert forall i :: 0 <= i < |t| ==> s[i] == t[i];
    RunIs(s, false, |t|);
    assert s[..|t|] == t && s[|t|..] == rest;
    FirstToken(s, uriOnly);
    if uriOnly {
      UriThen(t, [Fixed(rest)], m);
      OutcomeFixed(rest, m);
    } else {
      UriThen(t, TokenPieces(rest, uriOnly), m);
    }
  }

  lemma CommentAlone(comment: string, uriOnly: bool, m: Mapper)
    requires comment == "" || IsComment(comment)
    ensures Outcome(TokenPieces(comment, uriOnly), m) == Some(comment)
  {
    assert !IsWhitespace('#');
    hide IsWhitespace, TokenPieces, Outcome;
    if comment == "" {
      NoTokens(uriOnly);
      NoPieces(m);
    } else {
      FirstToken(comment, uriOnly);
      OutcomeFixed(comment, m);
    }
  }

  lemma NoPieces(m: Mapper)
    ensures Outcome([], m) == Some("")
  {
  }

  lemma Ahead(pads: seq<string>, tokens: seq<string>, comment: string)
    requires Spaced(pads, tokens, comment)
    ensures tokens != [] ==> Spaced(pads[1..], tokens[1..], comment)
    ensures pads[0] == "" && tokens == [] && comment == "" ==> Weave(pads, tokens) + comment == ""
    ensures pads[0] != "" ==> (Weave(pads, tokens) + comment)[0] == pads[0][0]
  {
    hide IsBlank, IsToken;
    if tokens == [] {
      assert Weave(pads, tokens) == pads[0];
    }
  }

  lemma WeaveFirst(pads: seq<string>, tokens: seq<string>, comment: string)
    requires |pads| == |tokens| + 1 && tokens != []
    ensures Weave(pads, tokens) + comment == pads[0] + (tokens[0] + (Weave(pads[1..], tokens[1..]) + comment))
  {
    var x, y, z := pads[0], tokens[0], Weave(pads[1..], tokens[1..]);
    assert x + y + z + comment == x + (y + (z + comment));
  }

  lemma PadThenToken(pad: string, t: string, rest: string, m: Mapper)
    requires IsBlank(pad) && IsToken(t) && (rest == "" || IsWhitespace(rest[0]))
    ensures Outcome(TokenPieces(pad + (t + rest), false), m) ==
            if m(t) == Refuse then None
            else Append(Some(pad), Append(Some(NewUri(t, m)), Outcome(TokenPieces(rest, false), m)))
  {
    hide IsWhitespace, TokenPieces, Outcome, NewUri;
    assert (t + rest)[0] == t[0];
    PadFirst(pad, t + rest, false, m);
    TokenFirst(t, rest, false, m);
  }

  lemma NewUrisOfRest(tokens: seq<string>, m: Mapper)
    requires tokens != []
    ensures NewUris(tokens, m)[1..] == NewUris(tokens[1..], m) && NewUris(tokens, m)[0] == NewUri(tokens[0], m)
    ensures Accepts(tokens, m) <==> m(tokens[0]) != Refuse && Accepts(tokens[1..], m)
  {
    hide NewUri;
    assert tokens == [tokens[0]] + tokens[1..];
  }

  /** Every token up to a comment is handed to the mapper, and nothing else changes. */
  lemma {:induction false} TokensAreMapped(pads: seq<string>, tokens: seq<string>, comment: string, m: Mapper)
    requires Spaced(pads, tokens, comment)
    ensures Outcome(TokenPieces(Weave(pads, tokens) + comment, false), m) ==
            if Accepts(tokens, m) then Some(Weave(pads, NewUris(tokens, m)) + comment) else None
    decreases |tokens|
  {
    if tokens == [] {
      hide TokenPieces, Outcome;
      OnlyComment(pads[0], comment, m);
    } else {
      Ahead(pads, tokens, comment);
      StartsSpaced(pads, tokens, comment);
      TokensAreMapped(pads[1..], tokens[1..], comment, m);
      NewUrisOfRest(tokens, m);
      hide IsWhitespace, TokenPieces, Outcome, NewUri, NewUris, Accepts, Weave, IsToken, IsBlank;
      var rest := Weave(pads[1..], tokens[1..]) + comment;
      PadThenToken(pads[0], tokens[0], rest, m);
      WeaveFirst(pads, tokens, comment);
      WeaveFirst(pads, NewUris(tokens, m), comment);
    }
  }

  lemma OnlyComment(pad: string, comment: string, m: Mapper)
    requires IsBlank(pad) && (comment == "" || IsComment(comment))
    ensures Outcome(TokenPieces(pad + comment, false), m) == Some(pad + comment)
  {
    assert !IsWhitespace('#');
    hide IsWhitespace, TokenPieces, Outcome;
    PadFirst(pad, comment, false, m);
    CommentAlone(comment, false, m);
  }

  /** After a token comes white space or nothing. */
  lemma StartsSpaced(pads: seq<string>, tokens: seq<string>, comment: string)
    requires Spaced(pads, tokens, comment) && tokens != []
    ensures var rest := Weave(pads[1..], tokens[1..]) + comment; rest == "" || IsWhitespace(rest[0])
  {
    hide IsWhitespace, IsToken;
    Ahead(pads, tokens, comment);
    Ahead(pads[1..], tokens[1..], comment);
  }

  /** Cut off white space and a token in front. */
  lemma CutToken(s: string) returns (pad: string, t: string, rest: string)
    ensures IsBlank(pad) && s == pad + (t + rest)
    ensures if t == "" then rest == "" || IsComment(rest) else IsToken(t) && (rest == "" || IsWhitespace(rest[0]))
  {
    hide IsWhitespace;
    var n := Run(s, true);
    pad := s[..n];
    assert s == pad + s[n..];
    if n < |s| && s[n] != '#' {
      t, rest := CutWord(s[n..]);
    } else {
      t, rest := "", s[n..];
      assert t + rest == rest;
    }
  }

  lemma CutWord(s: string) returns (t: string, rest: string)
    requires s != "" && s[0] != '#' && !IsWhitespace(s[0])
    ensures IsToken(t) && s == t + rest && (rest == "" || IsWhitespace(rest[0]))
  {
    hide IsWhitespace;
    var k := Run(s, false);
    t, rest := s[..k], s[k..];
  }

  lemma SpacedMore(pad: string, t: string, pads: seq<string>, tokens: seq<string>, comment: string)
    requires Spaced(pads, tokens, comment) && IsBlank(pad) && IsToken(t)
    requires var rest := Weave(pads, tokens) + comment; rest == "" || IsWhitespace(rest[0])
    ensures Spaced([pad] + pads, [t] + tokens, comment)
    ensures Weave([pad] + pads, [t] + tokens) + comment == pad + (t + (Weave(pads, tokens) + comment))
  {
    StartsVisibly(pads, tokens, comment);
    hide IsWhitespace, IsToken, IsBlank;
    var ps, ts := [pad] + pads, [t] + tokens;
    assert ps[1..] == pads && ts[1..] == tokens;
    WeaveFirst(ps, ts, comment);
  }

  lemma StartsVisibly(pads: seq<string>, tokens: seq<string>, comment: string)
    requires Spaced(pads, tokens, comment)
    ensures var s := Weave(pads, tokens) + comment;
            pads[0] == "" && (tokens != [] || comment != "") ==> s != "" && !IsWhitespace(s[0])
  {
    assert !IsWhitespace('#');
    hide IsWhitespace;
    var s := Weave(pads, tokens) + comment;
    if tokens != [] {
      WeaveFirst(pads, tokens, comment);
    }
  }

  /** Every text can be cut in this way. */
  lemma {:induction false} EveryTextIsSpaced(s: string)
    returns (pads: seq<string>, tokens: seq<string>, comment: string)
    ensures Spaced(pads, tokens, comment) && s == Weave(pads, tokens) + comment
    decreases |s|
  {
    var pad, t, rest := CutToken(s);
    if t == "" {
      assert t + rest == rest;
      pads, tokens, comment := [pad], [], rest;
    } else {
      hide IsWhitespace, IsBlank;
      pads, tokens, comment := EveryTextIsSpaced(rest);
      SpacedMore(pad, t, pads, tokens, comment);
      pads, tokens := [pad] + pads, [t] + tokens;
    }
  }

  // -------------------------------------------------------------------------
  // DEB822 stanzas
  // -------------------------------------------------------------------------

  /** `Enabled: no`, in any mixture of cases, with white space around the value, line end included. */
  ghost predicate Disables(line: string) {
    exists key, before, word, after ::
      && line == key + ":" + (before + word + after) && Spells(key, "Enabled") && Spells(word, "no")
      && IsBlank(before) && IsBlank(after)
  }

  lemma Regroup(key: string, before: string, word: string, after: string, end: string)
    ensures key + ":" + (before + word + after) + end == key + ":" + (before + word + (after + end))
  {
  }

  lemma AtColon(text: string, n: nat)
    requires n < |text| && text[n] == ':'
    ensures text == text[..n] + ":" + text[n + 1..]
  {
  }

  lemma DisablingHasForm(line: string)
    requires Disabling(line)
    ensures Disables(line)
  {
    EndIsBlank(line);
    var text := WithoutEnd(line);
    var colon := Find(text, ':');
    var key, value, end := text[..colon], text[colon + 1..], line[|text|..];
    SpellsIs(key, "Enabled");
    SpellsIs(Trim(value), "no");
    hide IsWhitespace, SameIgnoringCase, Trim, WithoutEnd, Spells;
    var before, after := TrimParts(value);
    AtColon(text, colon);
    Regroup(key, before, Trim(value), after, end);
    assert line == text + end;
    assert IsBlank(after + end);
  }

  lemma FormIsDisabling(line: string, key: string, before: string, word: string, after: string)
    requires line == key + ":" + (before + word + after) && Spells(key, "Enabled") && Spells(word, "no")
    requires IsBlank(before) && IsBlank(after)
    ensures Disabling(line)
  {
    assert forall c :: SameLetter(c, 'n') || SameLetter(c, 'o') ==> !IsWhitespace(c) && c != '\r' && c != '\n';
    NoColon(key, "Enabled");
    hide IsWhitespace, SameIgnoringCase, Trim, WithoutEnd;
    EndIsLineEnd(line);
    var text, n := WithoutEnd(line), |key| + 1 + |before| + |word|;
    assert line[n - 1] == word[|word| - 1];
    assert |text| >= n;
    var rest := after[..|text| - n];
    assert text == line[..|text|] == key + ":" + (before + word + rest);
    assert forall i :: 0 <= i < |key| ==> text[i] == key[i];
    FindIs(text, ':', |key|);
    assert text[..|key|] == key && text[|key| + 1..] == before + word + rest;
    TrimOf(before, word, rest);
    SpellsIs(key, "Enabled");
    SpellsIs(word, "no");
  }

  lemma NoColon(key: string, word: string)
    requires Spells(key, word) && ':' !in word
    ensures ':' !in key
  {
    forall i | 0 <= i < |key| ensures key[i] != ':' {
      assert word[i] in word && SameLetter(key[i], word[i]);
    }
  }

  /** The stanza is disabled exactly by such a line. */
  lemma DisablingIs(line: string)
    ensures Disabling(line) <==> Disables(line)
  {
    hide Disabling;
    if Disabling(line) {
      DisablingHasForm(line);
    }
    if key, before, word, after :|
      && line == key + ":" + (before + word + after) && Spells(key, "Enabled") && Spells(word, "no")
      && IsBlank(before) && IsBlank(after) {
      FormIsDisabling(line, key, before, word, after);
    }
  }

  /** Some line of the stanza disables it. */
  ghost predicate IsDisabled(lines: seq<string>, a: nat, b: nat)
    requires b <= |lines|
  {
    exists k :: a <= k < b && Disables(lines[k])
  }

  lemma DisabledIs(lines: seq<string>, a: nat, b: nat, i: nat)
    requires IsStanza(lines, a, b) && a <= i < b
    ensures Disabled(lines, i) <==> IsDisabled(lines, a, b)
  {
    hide Disabling, Disables, IsBlank;
    StanzaHasIn(lines, a, b, i, Disabling);
    forall k | a <= k < b ensures Disabling(lines[k]) <==> Disables(lines[k]) {
      DisablingIs(lines[k]);
    }
  }

  /** A stanza with such a line comes back unchanged, whatever it says besides. */
  lemma DisabledStanzaIsKept(lines: seq<string>, a: nat, b: nat, k: nat, m: Mapper)
    requires AreLines(lines) && IsStanza(lines, a, b) && a <= k < b && Disables(lines[k])
    ensures forall i: nat :: a <= i < b ==> LineOutcome(lines, true, i, m) == Some(lines[i])
    ensures Rewritten(Join(lines[a..b]), true, m) == Some(Join(lines[a..b]))
  {
    hide Disabled, Disables, LineOutcome, IsBlank, Lines, Join, Disabling;
    forall i: nat | a <= i < b ensures LineOutcome(lines, true, i, m) == Some(lines[i]) {
      DisabledIs(lines, a, b, i);
      DisabledLine(lines, i, m);
    }
    DisablingIs(lines[k]);
    SliceOfLines(lines, a, b);
    var own := lines[a..b];
    assert own[k - a] == lines[k];
    assert SomeLine(own, 0, |own|, Disabling);
    DisabledIsKept(Join(own), m);
  }

  /** What the first character makes of a line that is not blank. */
  predicate StartsField(line: string) {
    line != "" && line[0] !in {'#', ' ', '\t'}
  }

  lemma FieldKind(line: string, key: string, value: string)
    requires !IsBlank(line) && StartsField(line) && line == key + ":" + value && ':' !in key
    ensures KindOf(line) == Field(key) && line[..|key| + 1] == key + ":" && line[|key| + 1..] == value
  {
    assert forall i :: 0 <= i < |key| ==> line[i] == key[i];
    FindIs(line, ':', |key|);
  }

  lemma FieldOutcomeIs(lines: seq<string>, a: nat, b: nat, i: nat, m: Mapper)
    requires IsStanza(lines, a, b) && a <= i < b && !IsDisabled(lines, a, b)
    ensures LineOutcome(lines, true, i, m) == FieldOutcome(lines[i], UrisOpen(lines, i), m) && !IsBlank(lines[i])
  {
    hide Disabled, IsDisabled, LineOutcome, FieldOutcome, UrisOpen;
    DisabledIs(lines, a, b, i);
    FieldLine(lines, i, m);
  }

  lemma UrisOutcome(line: string, open: bool, key: string, value: string, m: Mapper)
    requires Spells(key, "URIs") && line == key + ":" + value
    ensures FieldOutcome(line, open, m) == Append(Some(key + ":"), Outcome(TokenPieces(value, false), m))
  {
    assert line[0] == key[0] && SameLetter(key[0], 'U');
    assert !IsWhitespace(key[0]);
    NoColon(key, "URIs");
    FieldKind(line, key, value);
    SpellsIs(key, "URIs");
    hide TokenPieces, Outcome, SameIgnoringCase, KindOf;
    FixedThen(key + ":", TokenPieces(value, false), m);
  }

  /** The `URIs` field of an enabled stanza: every token after the colon is handed to the mapper. */
  lemma UrisFieldIsMapped(lines: seq<string>, a: nat, b: nat, i: nat, key: string, pads: seq<string>,
                          tokens: seq<string>, comment: string, m: Mapper)
    requires IsStanza(lines, a, b) && a <= i < b && !IsDisabled(lines, a, b)
    requires Spaced(pads, tokens, comment) && Spells(key, "URIs")
    requires lines[i] == key + ":" + (Weave(pads, tokens) + comment)
    ensures LineOutcome(lines, true, i, m) ==
            if Accepts(tokens, m) then Some(key + ":" + (Weave(pads, NewUris(tokens, m)) + comment)) else None
  {
    FieldOutcomeIs(lines, a, b, i, m);
    hide IsStanza, IsDisabled, LineOutcome, FieldOutcome, TokenPieces, Outcome, Spells, Weave, NewUris, Spaced, Accepts;
    UrisOutcome(lines[i], UrisOpen(lines, i), key, Weave(pads, tokens) + comment, m);
    TokensAreMapped(pads, tokens, comment, m);
  }

  /** Every other field is kept. */
  lemma OtherFieldIsKept(lines: seq<string>, a: nat, b: nat, i: nat, key: string, value: string, m: Mapper)
    requires IsStanza(lines, a, b) && a <= i < b && !IsDisabled(lines, a, b)
    requires StartsField(lines[i]) && lines[i] == key + ":" + value && ':' !in key && !Spells(key, "URIs")
    ensures LineOutcome(lines, true, i, m) == Some(lines[i])
  {
    FieldOutcomeIs(lines, a, b, i, m);
    FieldKind(lines[i], key, value);
    SpellsIs(key, "URIs");
    hide IsStanza, IsDisabled, LineOutcome, Outcome, SameIgnoringCase, KindOf, IsBlank;
    OutcomeFixed(lines[i], m);
  }

  /** A field line without a colon is refused, and with it the file. */
  lemma MalformedIsRefused(lines: seq<string>, a: nat, b: nat, i: nat, m: Mapper)
    requires IsStanza(lines, a, b) && a <= i < b && !IsDisabled(lines, a, b)
    requires StartsField(lines[i]) && ':' !in lines[i]
    ensures LineOutcome(lines, true, i, m) == None
  {
    FieldOutcomeIs(lines, a, b, i, m);
    FindIs(lines[i], ':', |lines[i]|);
  }

  lemma CommentIsKept(lines: seq<string>, a: nat, b: nat, i: nat, m: Mapper)
    requires IsStanza(lines, a, b) && a <= i < b && IsComment(lines[i])
    ensures LineOutcome(lines, true, i, m) == Some(lines[i])
  {
    hide IsDisabled, Disabled, Outcome;
    OutcomeFixed(lines[i], m);
    if !IsDisabled(lines, a, b) {
      FieldOutcomeIs(lines, a, b, i, m);
    } else {
      DisabledIs(lines, a, b, i);
    }
  }

  ghost predicate UrisField(line: string) {
    exists key, value :: line == key + ":" + value && Spells(key, "URIs")
  }

  /** Between the line and the last `URIs` field there are only comments and further continuations. */
  ghost predicate ContinuesUris(lines: seq<string>, i: nat)
    requires i <= |lines|
  {
    exists j: nat ::
      && j < i && UrisField(lines[j])
      && forall k :: j < k < i ==> !IsBlank(lines[k]) && !StartsField(lines[k])
  }

  lemma UrisFieldIs(line: string)
    ensures UrisField(line) <==> KindOf(line).Field? && IsUris(KindOf(line).key)
  {
    assert forall c :: SameLetter(c, 'U') ==> !IsWhitespace(c) && c !in {'#', ' ', '\t'};
    hide IsWhitespace, SameIgnoringCase;
    if KindOf(line).Field? && IsUris(KindOf(line).key) {
      var key := KindOf(line).key;
      SpellsIs(key, "URIs");
      assert line == key + ":" + line[|key| + 1..];
    }
    if key, value :| line == key + ":" + value && Spells(key, "URIs") {
      assert line[0] == key[0] && SameLetter(key[0], 'U');
      NoColon(key, "URIs");
      FieldKind(line, key, value);
      SpellsIs(key, "URIs");
    }
  }

  lemma ContinuesUrisIs(lines: seq<string>, i: nat)
    requires i <= |lines|
    ensures UrisOpen(lines, i) <==> ContinuesUris(lines, i)
  {
    hide IsUris, UrisOpen, UrisField, IsWhitespace;
    OpenMeansUnderUris(lines, i);
    forall k | 0 <= k < i
      ensures UrisField(lines[k]) <==> KindOf(lines[k]).Field? && IsUris(KindOf(lines[k]).key)
      ensures KindOf(lines[k]).Comment? || KindOf(lines[k]).Continuation? <==>
              !IsBlank(lines[k]) && !StartsField(lines[k])
    {
      UrisFieldIs(lines[k]);
    }
  }

  /** A line that continues the `URIs` field is cut into tokens like the field itself; any other is kept. */
  lemma ContinuationIsMapped(lines: seq<string>, a: nat, b: nat, i: nat, pads: seq<string>, tokens: seq<string>,
                             comment: string, m: Mapper)
    requires IsStanza(lines, a, b) && a <= i < b && !IsDisabled(lines, a, b)
    requires Spaced(pads, tokens, comment) && lines[i] == Weave(pads, tokens) + comment
    requires lines[i] != "" && lines[i][0] in {' ', '\t'}
    ensures LineOutcome(lines, true, i, m) ==
            if !ContinuesUris(lines, i) then Some(lines[i])
            else if Accepts(tokens, m) then Some(Weave(pads, NewUris(tokens, m)) + comment)
            else None
  {
    hide IsDisabled, LineOutcome, TokenPieces, Outcome, Weave, NewUris, Spaced, Accepts, ContinuesUris, UrisOpen;
    FieldOutcomeIs(lines, a, b, i, m);
    ContinuesUrisIs(lines, i);
    OutcomeFixed(lines[i], m);
    TokensAreMapped(pads, tokens, comment, m);
  }

  // -------------------------------------------------------------------------
  // One-line entries
  // -------------------------------------------------------------------------

  /** A line whose first word is `deb` or `deb-src`, and a space or a tab after it. */
  ghost predicate Entry(line: string, lead: string, word: string, rest: string) {
    && line == lead + word + rest && IsBlank(lead) && (word == "deb" || word == "deb-src")
    && rest != "" && (rest[0] == ' ' || rest[0] == '\t')
  }

  ghost predicate IsEntry(line: string) {
    exists lead, word, rest :: Entry(line, lead, word, rest)
  }

  lemma StartOfEntry(line: string, lead: string, word: string, rest: string)
    requires Entry(line, lead, word, rest)
    ensures TrimStart(line) == word + rest && Run(line, true) == |lead|
    ensures TypeEnd(line) == |lead| + |word| && line[..TypeEnd(line)] == lead + word && line[TypeEnd(line)..] == rest
  {
    assert IsWhitespace(rest[0]) && forall c :: c in word ==> !IsWhitespace(c);
    hide IsWhitespace;
    assert line[|lead|] == word[0];
    assert forall i :: 0 <= i < |lead| ==> line[i] == lead[i];
    RunIs(line, true, |lead|);
    var s := word + rest;
    assert line[|lead|..] == s;
    assert s[|word|] == rest[0];
    assert forall i :: 0 <= i < |word| ==> s[i] == word[i];
    RunIs(s, false, |word|);
  }

  lemma DebLineIs(line: string)
    ensures IsDebLine(line) <==> IsEntry(line)
  {
    if IsDebLine(line) {
      DebLineHasForm(line, if StartsEntry(TrimStart(line), "deb") then "deb" else "deb-src");
    }
    hide IsWhitespace, StartsEntry;
    if lead, word, rest :| Entry(line, lead, word, rest) {
      StartOfEntry(line, lead, word, rest);
      RestAfterWord(word, rest);
    }
  }

  lemma DebLineHasForm(line: string, word: string)
    requires StartsEntry(TrimStart(line), word) && (word == "deb" || word == "deb-src")
    ensures IsEntry(line)
  {
    hide IsWhitespace, StartsEntry;
    var lead, trimmed := line[..Run(line, true)], TrimStart(line);
    assert line == lead + trimmed;
    WordThenRest(trimmed, word);
    assert line == lead + word + trimmed[|word|..];
    assert Entry(line, lead, word, trimmed[|word|..]);
  }

  lemma WordThenRest(trimmed: string, word: string)
    requires StartsEntry(trimmed, word)
    ensures |word| < |trimmed| && trimmed == word + trimmed[|word|..]
    ensures trimmed[|word|..][0] == ' ' || trimmed[|word|..][0] == '\t'
  {
    assert (word + " ")[|word|] == ' ' && (word + "\t")[|word|] == '\t';
    if StartsWith(trimmed, word + " ") {
      assert trimmed == word + " " + trimmed[|word| + 1..];
    } else {
      assert trimmed == word + "\t" + trimmed[|word| + 1..];
    }
  }

  lemma RestAfterWord(word: string, rest: string)
    requires rest != "" && (rest[0] == ' ' || rest[0] == '\t')
    ensures StartsEntry(word + rest, word)
  {
    assert rest == [rest[0]] + rest[1..];
    assert word + rest == word + [rest[0]] + rest[1..];
  }

  lemma PlainEntry(line: string, lead: string, word: string, rest: string)
    requires Entry(line, lead, word, rest) && !StartsWith(TrimStart(rest), "[")
    ensures OptionsClosed(line) && OneLinePieces(line) == [Fixed(lead + word)] + TokenPieces(rest, true)
  {
    DebLineIs(line);
    StartOfEntry(line, lead, word, rest);
    hide IsDebLine, Entry, TypeEnd, TokenPieces, TrimStart, StartsWith;
  }

  lemma EntryOptions(line: string, lead: string, word: string, rest: string)
    requires Entry(line, lead, word, rest) && StartsWith(TrimStart(rest), "[")
    ensures IsDebLine(line) && HasOptions(line) && OptionsEnd(line) == |lead| + |word| + Find(rest, ']') + 1
  {
    DebLineIs(line);
    StartOfEntry(line, lead, word, rest);
    hide IsDebLine, Entry, TypeEnd, TrimStart, StartsWith, Find;
  }

  lemma EntryWithOptions(line: string, lead: string, word: string, rest: string)
    requires Entry(line, lead, word, rest) && StartsWith(TrimStart(rest), "[") && Find(rest, ']') < |rest|
    ensures var n := Find(rest, ']') + 1;
            && OptionsClosed(line)
            && OneLinePieces(line) == [Fixed(lead + word + rest[..n])] + TokenPieces(rest[n..], true)
  {
    hide *;
    EntryOptions(line, lead, word, rest);
    EntryText(line, lead, word, rest);
    CutBehind(lead + word, rest, Find(rest, ']') + 1);
    EntryPieces(line);
    UriStartOf(line);
  }

  lemma EntryText(line: string, lead: string, word: string, rest: string)
    requires Entry(line, lead, word, rest)
    ensures line == (lead + word) + rest
  {
  }

  lemma UriStartOf(line: string)
    requires HasOptions(line)
    ensures UriStart(line) == OptionsEnd(line)
  {
  }

  lemma CutBehind(head: string, rest: string, n: nat)
    requires n <= |rest|
    ensures (head + rest)[..|head| + n] == head + rest[..n] && (head + rest)[|head| + n..] == rest[n..]
  {
  }

  lemma PlainOutcome(lines: seq<string>, i: nat, lead: string, word: string, rest: string, m: Mapper)
    requires i < |lines| && Entry(lines[i], lead, word, rest) && !StartsWith(TrimStart(rest), "[")
    ensures LineOutcome(lines, false, i, m) == Append(Some(lead + word), Outcome(TokenPieces(rest, true), m))
  {
    PlainEntry(lines[i], lead, word, rest);
    OneLineOutcome(lines, i, m);
    hide LineOutcome, Entry, OneLinePieces, OptionsClosed, Outcome, TokenPieces, TrimStart, StartsWith;
    FixedThen(lead + word, TokenPieces(rest, true), m);
  }

  lemma OptionsOutcome(lines: seq<string>, i: nat, lead: string, word: string, rest: string, m: Mapper)
    requires i < |lines| && Entry(lines[i], lead, word, rest) && StartsWith(TrimStart(rest), "[")
    ensures var n := Find(rest, ']');
            LineOutcome(lines, false, i, m) ==
            if n == |rest| then None
            else Append(Some(lead + word + rest[..n + 1]), Outcome(TokenPieces(rest[n + 1..], true), m))
  {
    EntryOptions(lines[i], lead, word, rest);
    OneLineOutcome(lines, i, m);
    var n := Find(rest, ']');
    if n < |rest| {
      EntryWithOptions(lines[i], lead, word, rest);
      hide LineOutcome, Entry, OneLinePieces, OptionsClosed, Outcome, TokenPieces, TrimStart, StartsWith;
      FixedThen(lead + word + rest[..n + 1], TokenPieces(rest[n + 1..], true), m);
    } else {
      hide LineOutcome, IsDebLine, HasOptions, OptionsEnd, Outcome, OneLinePieces, TrimStart, StartsWith;
      OpenOptions(lines[i]);
    }
  }

  /** Where the first token is the URI: what stands before and after it is kept. */
  lemma FirstTokenIsMapped(gap: string, uri: string, tail: string, m: Mapper)
    requires IsBlank(gap) && IsToken(uri) && (tail == "" || IsWhitespace(tail[0]))
    ensures Outcome(TokenPieces(gap + (uri + tail), true), m) ==
            if m(uri) == Refuse then None else Some(gap + (NewUri(uri, m) + tail))
  {
    hide IsWhitespace, TokenPieces, Outcome, NewUri;
    assert (uri + tail)[0] == uri[0];
    PadFirst(gap, uri + tail, true, m);
    TokenFirst(uri, tail, true, m);
  }

  lemma StartAfter(gap: string, rest: string)
    requires IsBlank(gap) && rest != "" && !IsWhitespace(rest[0])
    ensures TrimStart(gap + rest) == rest
  {
    hide IsWhitespace;
    var s := gap + rest;
    assert forall i :: 0 <= i < |gap| ==> s[i] == gap[i];
    RunIs(s, true, |gap|);
  }

  /** An entry without options: the word after the type is handed to the mapper. */
  lemma EntryUriIsMapped(lines: seq<string>, i: nat, lead: string, word: string, gap: string, uri: string,
                         tail: string, m: Mapper)
    requires i < |lines| && Entry(lines[i], lead, word, gap + (uri + tail))
    requires IsBlank(gap) && IsToken(uri) && uri[0] != '[' && (tail == "" || IsWhitespace(tail[0]))
    ensures LineOutcome(lines, false, i, m) ==
            if m(uri) == Refuse then None else Some(lead + word + (gap + (NewUri(uri, m) + tail)))
  {
    hide IsWhitespace, TokenPieces, Outcome, NewUri, LineOutcome;
    assert (uri + tail)[0] == uri[0];
    StartAfter(gap, uri + tail);
    PlainOutcome(lines, i, lead, word, gap + (uri + tail), m);
    FirstTokenIsMapped(gap, uri, tail, m);
  }

  /** An entry with options in brackets: the first word after them is. */
  lemma EntryWithOptionsIsMapped(lines: seq<string>, i: nat, lead: string, word: string, gap: string,
                                 options: string, inner: string, uri: string, tail: string, m: Mapper)
    requires i < |lines| && Entry(lines[i], lead, word, gap + ("[" + options + "]") + (inner + (uri + tail)))
    requires IsBlank(gap) && ']' !in options && IsBlank(inner)
    requires IsToken(uri) && (tail == "" || IsWhitespace(tail[0]))
    ensures LineOutcome(lines, false, i, m) ==
            if m(uri) == Refuse then None
            else Some(lead + word + (gap + ("[" + options + "]")) + (inner + (NewUri(uri, m) + tail)))
  {
    var block, after := gap + ("[" + options + "]"), inner + (uri + tail);
    BlockEnd(gap, options, after);
    hide IsWhitespace, TokenPieces, Outcome, NewUri, LineOutcome, IsToken;
    OptionsOutcome(lines, i, lead, word, block + after, m);
    FirstTokenIsMapped(inner, uri, tail, m);
  }

  lemma BlockEnd(gap: string, options: string, after: string)
    requires IsBlank(gap) && ']' !in options
    ensures var block := gap + ("[" + options + "]");
            var rest := block + after;
            && StartsWith(TrimStart(rest), "[") && Find(rest, ']') == |block| - 1 < |rest|
            && rest[..|block|] == block && rest[|block|..] == after
  {
    assert !IsWhitespace('[') && !IsWhitespace(']');
    hide IsWhitespace;
    var block := gap + ("[" + options + "]");
    var rest := block + after;
    var own := "[" + options + "]" + after;
    assert rest == gap + own && own[0] == '[';
    StartAfter(gap, own);
    forall k | 0 <= k < |block| - 1 ensures rest[k] != ']' {
      if k < |gap| {
        assert rest[k] == gap[k];
      } else if k > |gap| {
        assert rest[k] == options[k - |gap| - 1];
      }
    }
    FindIs(rest, ']', |block| - 1);
  }

  lemma OpenBlock(gap: string, options: string)
    requires IsBlank(gap) && ']' !in options
    ensures var rest := gap + ("[" + options); StartsWith(TrimStart(rest), "[") && Find(rest, ']') == |rest|
  {
    assert !IsWhitespace('[') && !IsWhitespace(']');
    hide IsWhitespace;
    var rest := gap + ("[" + options);
    StartAfter(gap, "[" + options);
    forall k | 0 <= k < |rest| ensures rest[k] != ']' {
      if k < |gap| {
        assert rest[k] == gap[k];
      } else if k > |gap| {
        assert rest[k] == options[k - |gap| - 1];
      }
    }
    FindIs(rest, ']', |rest|);
  }

  /** Options that are not closed are refused, and with them the file. */
  lemma OpenOptionsAreRefused(lines: seq<string>, i: nat, lead: string, word: string, gap: string, options: string,
                              m: Mapper)
    requires i < |lines| && Entry(lines[i], lead, word, gap + ("[" + options))
    requires IsBlank(gap) && ']' !in options
    ensures LineOutcome(lines, false, i, m) == None
  {
    hide IsWhitespace, LineOutcome, Entry, TrimStart, StartsWith, Outcome, TokenPieces;
    OpenBlock(gap, options);
    OptionsOutcome(lines, i, lead, word, gap + ("[" + options), m);
  }

  /** Every other line of a one-line file is kept, comments and other types included. */
  lemma OtherLineIsKept(lines: seq<string>, i: nat, m: Mapper)
    requires i < |lines| && !IsEntry(lines[i])
    ensures LineOutcome(lines, false, i, m) == Some(lines[i])
  {
    hide LineOutcome, IsDebLine, Outcome, IsEntry;
    DebLineIs(lines[i]);
    OneLineOutcome(lines, i, m);
    OtherLinePieces(lines[i]);
    OutcomeFixed(lines[i], m);
  }
}
