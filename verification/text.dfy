/** The string operations the client's parsers rely on. */
module Text {
  /** The Unicode White_Space property, which is what `char::is_whitespace` tests. */
  predicate IsWhitespace(c: char) {
    || '\t' <= c <= '\r' || c == ' ' || c == '\U{85}' || c == '\U{A0}' || c == '\U{1680}'
    || '\U{2000}' <= c <= '\U{200A}' || c == '\U{2028}' || c == '\U{2029}' || c == '\U{202F}'
    || c == '\U{205F}' || c == '\U{3000}'
  }

  predicate IsBlank(s: string) {
    forall i :: 0 <= i < |s| ==> IsWhitespace(s[i])
  }

  predicate StartsWith(s: string, prefix: string) {
    prefix <= s
  }

  predicate EndsWith(s: string, suffix: string) {
    |suffix| <= |s| && s[|s| - |suffix|..] == suffix
  }

  /** The length of the longest prefix of `s` whose characters all have whitespace status `space`. */
  function Run(s: string, space: bool): (n: nat)
    ensures n <= |s|
    ensures forall i :: 0 <= i < n ==> IsWhitespace(s[i]) == space
    ensures n < |s| ==> IsWhitespace(s[n]) != space
  {
    if s == [] || IsWhitespace(s[0]) != space then 0 else 1 + Run(s[1..], space)
  }

  lemma {:induction false} RunIs(s: string, space: bool, n: nat)
    requires n <= |s|
    requires forall i :: 0 <= i < n ==> IsWhitespace(s[i]) == space
    requires n < |s| ==> IsWhitespace(s[n]) != space
    ensures Run(s, space) == n
  {
  }

  function TrimStart(s: string): string {
    s[Run(s, true)..]
  }

  function TrimEnd(s: string): string {
    if s != [] && IsWhitespace(s[|s| - 1]) then TrimEnd(s[..|s| - 1]) else s
  }

  function Trim(s: string): string {
    TrimEnd(TrimStart(s))
  }

  /** Empty, or with visible characters at both ends. */
  predicate Tight(s: string) {
    s == [] || (!IsWhitespace(s[0]) && !IsWhitespace(s[|s| - 1]))
  }

  lemma {:induction false} TrimEndOf(s: string, after: string)
    requires IsBlank(after) && (s == [] || !IsWhitespace(s[|s| - 1]))
    ensures TrimEnd(s + after) == s
    decreases |after|
  {
    hide IsWhitespace;
    var t := s + after;
    if after == [] {
      assert t == s;
    } else {
      var n := |after| - 1;
      assert t[..|t| - 1] == s + after[..n] && t[|t| - 1] == after[n];
      TrimEndOf(s, after[..n]);
    }
  }

  /** Trimming removes exactly the white space at both ends. */
  lemma TrimOf(before: string, word: string, after: string)
    requires IsBlank(before) && IsBlank(after) && Tight(word)
    ensures Trim(before + word + after) == word
  {
    hide IsWhitespace;
    var s := before + word + after;
    if word == [] {
      assert IsBlank(s);
      RunIs(s, true, |s|);
      TrimEndOf("", "");
      assert s[|s|..] == "" + "";
    } else {
      assert s[|before|] == word[0];
      assert forall i :: 0 <= i < |before| ==> s[i] == before[i];
      RunIs(s, true, |before|);
      assert s[|before|..] == word + after;
      TrimEndOf(word, after);
    }
  }

  lemma {:induction false} TrimEndParts(s: string) returns (after: string)
    ensures s == TrimEnd(s) + after && IsBlank(after)
    ensures TrimEnd(s) == [] || !IsWhitespace(TrimEnd(s)[|TrimEnd(s)| - 1])
    decreases |s|
  {
    hide IsWhitespace;
    if s != [] && IsWhitespace(s[|s| - 1]) {
      var rest := TrimEndParts(s[..|s| - 1]);
      after := rest + [s[|s| - 1]];
      assert s == s[..|s| - 1] + [s[|s| - 1]];
      assert TrimEnd(s) + after == (TrimEnd(s) + rest) + [s[|s| - 1]];
    } else {
      after := [];
    }
  }

  lemma TrimParts(s: string) returns (before: string, after: string)
    ensures s == before + Trim(s) + after && IsBlank(before) && IsBlank(after) && Tight(Trim(s))
  {
    hide IsWhitespace;
    var n := Run(s, true);
    before := s[..n];
    after := TrimEndParts(s[n..]);
    assert s == before + s[n..];
    assert s[n..] == Trim(s) + after;
    assert before + (Trim(s) + after) == before + Trim(s) + after;
    if Trim(s) != [] {
      assert Trim(s)[0] == s[n..][0];
    }
  }

  /** The code points of the property. */
  lemma WhitespaceIs(c: char)
    ensures var n := c as int;
            IsWhitespace(c) <==>
              || n in {0x9, 0xA, 0xB, 0xC, 0xD, 0x20, 0x85, 0xA0, 0x1680, 0x2028, 0x2029, 0x202F, 0x205F, 0x3000}
              || 0x2000 <= n <= 0x200A
  {
  }

  /** The index of the first `c` in `s`, or `|s|`. */
  function Find(s: string, c: char): (n: nat)
    ensures n <= |s|
    ensures forall i :: 0 <= i < n ==> s[i] != c
    ensures n < |s| ==> s[n] == c
  {
    if s == [] || s[0] == c then 0 else 1 + Find(s[1..], c)
  }

  lemma FindIs(s: string, c: char, n: nat)
    requires n <= |s|
    requires forall i :: 0 <= i < n ==> s[i] != c
    requires n < |s| ==> s[n] == c
    ensures Find(s, c) == n
  {
  }

  /** `trim_end_matches('/')`. */
  function TrimSlashes(s: string): (t: string)
    ensures t <= s && (t == [] || t[|t| - 1] != '/')
    ensures forall i :: |t| <= i < |s| ==> s[i] == '/'
  {
    if s != [] && s[|s| - 1] == '/' then TrimSlashes(s[..|s| - 1]) else s
  }

  /** The text without the slashes at its end. */
  predicate IsStem(s: string, stem: string) {
    && stem <= s && (forall k :: |stem| <= k < |s| ==> s[k] == '/')
    && (stem != "" ==> stem[|stem| - 1] != '/')
  }

  lemma StemIs(s: string, stem: string)
    ensures IsStem(s, stem) <==> stem == TrimSlashes(s)
  {
    var t := TrimSlashes(s);
    if IsStem(s, stem) {
      assert t != "" ==> t[|t| - 1] == s[|t| - 1];
      assert stem != "" ==> stem[|stem| - 1] == s[|stem| - 1];
      assert stem == s[..|stem|] && t == s[..|t|];
    }
  }

  function Lower(c: char): char {
    if 'A' <= c <= 'Z' then (c - 'A') + 'a' else c
  }

  /** `eq_ignore_ascii_case`. */
  predicate SameIgnoringCase(a: string, b: string) {
    |a| == |b| && forall i :: 0 <= i < |a| ==> Lower(a[i]) == Lower(b[i])
  }

  // -------------------------------------------------------------------------
  // Lines
  // -------------------------------------------------------------------------

  /** A line as `split_inclusive('\n')` yields it: nonempty, with a newline at most at its end. */
  predicate IsLine(s: string) {
    s != [] && forall i :: 0 <= i < |s| - 1 ==> s[i] != '\n'
  }

  predicate Terminated(line: string) {
    line != [] && line[|line| - 1] == '\n'
  }

  /** What `split_inclusive` can return: every line but the last ends in a newline. */
  ghost predicate AreLines(lines: seq<string>) {
    && (forall i :: 0 <= i < |lines| ==> IsLine(lines[i]))
    && (forall i :: 0 <= i < |lines| - 1 ==> Terminated(lines[i]))
  }

  function FirstLine(s: string): (line: string)
    requires s != []
    ensures IsLine(line) && line <= s && (Terminated(line) || line == s)
  {
    var n := Find(s, '\n');
    if n < |s| then s[..n + 1] else s
  }

  function Lines(s: string): (lines: seq<string>)
    ensures s == [] <==> lines == []
    decreases |s|
  {
    if s == [] then [] else [FirstLine(s)] + Lines(s[|FirstLine(s)|..])
  }

  function Join(parts: seq<string>): string {
    if parts == [] then [] else parts[0] + Join(parts[1..])
  }

  lemma ConsLines(line: string, rest: seq<string>)
    requires IsLine(line) && AreLines(rest)
    requires rest == [] || Terminated(line)
    ensures AreLines([line] + rest)
  {
    var lines := [line] + rest;
    forall i | 0 <= i < |lines| ensures IsLine(lines[i]) {
      assert i > 0 ==> lines[i] == rest[i - 1];
    }
    forall i | 0 <= i < |lines| - 1 ensures Terminated(lines[i]) {
      assert i > 0 ==> lines[i] == rest[i - 1];
    }
  }

  lemma {:induction false} LinesAreLines(s: string)
    ensures AreLines(Lines(s)) && Join(Lines(s)) == s
    decreases |s|
  {
    if s != [] {
      var first := FirstLine(s);
      var rest := s[|first|..];
      LinesAreLines(rest);
      ConsLines(first, Lines(rest));
      JoinCons(first, Lines(rest));
      assert first + rest == s;
    }
  }

  lemma JoinCons(line: string, rest: seq<string>)
    ensures Join([line] + rest) == line + Join(rest)
  {
    assert ([line] + rest)[1..] == rest;
  }

  lemma FirstLineOf(line: string, rest: string)
    requires IsLine(line) && (Terminated(line) || rest == [])
    ensures FirstLine(line + rest) == line
  {
    var s := line + rest;
    if Terminated(line) {
      assert forall i :: 0 <= i < |line| - 1 ==> s[i] == line[i];
      FindIs(s, '\n', |line| - 1);
    } else {
      assert s == line;
    }
  }

  /** `Lines` recovers exactly the lines that were joined. */
  lemma {:induction false} LinesOfJoin(lines: seq<string>)
    requires AreLines(lines)
    ensures Lines(Join(lines)) == lines
  {
    if lines != [] {
      var rest := Join(lines[1..]);
      if |lines| == 1 {
        assert lines[1..] == [];
      }
      FirstLineOf(lines[0], rest);
      assert (lines[0] + rest)[|lines[0]|..] == rest;
      LinesOfJoin(lines[1..]);
    }
  }

  lemma {:induction false} JoinAppend(a: seq<string>, b: seq<string>)
    ensures Join(a + b) == Join(a) + Join(b)
  {
    if a == [] {
      assert a + b == b;
    } else {
      assert (a + b)[1..] == a[1..] + b;
      JoinAppend(a[1..], b);
    }
  }

  lemma JoinSnoc(a: seq<string>, line: string)
    ensures Join(a + [line]) == Join(a) + line
  {
    JoinAppend(a, [line]);
    assert [line][1..] == [];
    assert Join([line]) == line + Join([]);
  }
}
