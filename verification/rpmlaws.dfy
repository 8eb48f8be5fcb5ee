/** What the RPM rewriter promises of every section it changes, and of a second pass. */
module RpmLaws {
  import opened AptRewriter
  import opened RpmRewriter
  import opened Text
  import opened Wrappers

  // -------------------------------------------------------------------------
  // The choice of the base URL
  // -------------------------------------------------------------------------

  predicate ActiveMatch(lines: seq<string>, discovery: bool, m: Mapper, i: nat)
    requires i < |lines|
  {
    !IsCommented(lines[i]) && Found(lines[i], discovery, m).Replace?
  }

  /** No line from `lo` up to `hi` is an active match or refused. */
  ghost predicate PassedOver(lines: seq<string>, discovery: bool, m: Mapper, lo: nat, hi: nat)
    requires hi <= |lines|
  {
    forall k: nat :: lo <= k < hi ==> !ActiveMatch(lines, discovery, m, k) && !Found(lines[k], discovery, m).Refuse?
  }

  /**
    The chosen line is the first active match; without one it is the last template that matches; and
    no line that was examined is refused.
  */
  lemma {:induction false} ChosenIs(lines: seq<string>, discovery: bool, m: Mapper, i: nat)
    requires i <= |lines|
    ensures match Chosen(lines, discovery, m, i)
            case Fail =>
              exists k: nat :: i <= k < |lines| && Found(lines[k], discovery, m).Refuse? &&
                               PassedOver(lines, discovery, m, i, k)
            case Leave => forall k :: i <= k < |lines| ==> Found(lines[k], discovery, m) == Keep
            case Move(base, r) =>
              && base.Some? && i <= base.value < |lines| && Found(lines[base.value], discovery, m) == Replace(r)
              && PassedOver(lines, discovery, m, i, base.value)
              && (IsCommented(lines[base.value]) ==>
                    forall k :: base.value < k < |lines| ==> Found(lines[k], discovery, m) == Keep)
    decreases |lines| - i
  {
    hide Found, IsCommented;
    if i < |lines| {
      ChosenIs(lines, discovery, m, i + 1);
      var later := Chosen(lines, discovery, m, i + 1);
      match Found(lines[i], discovery, m) {
        case Refuse => assert PassedOver(lines, discovery, m, i, i);
        case _ =>
      }
      if later.Fail? {
        var k: nat :| i + 1 <= k < |lines| && Found(lines[k], discovery, m).Refuse? &&
            PassedOver(lines, discovery, m, i + 1, k);
        assert !ActiveMatch(lines, discovery, m, i) && !Found(lines[i], discovery, m).Refuse? ==>
               PassedOver(lines, discovery, m, i, k);
      }
    }
  }

  // -------------------------------------------------------------------------
  // The lines of the output
  // -------------------------------------------------------------------------

  /** One line of the section becomes one line, or two where a base URL is added below it. */
  function OutLines(line: string, i: nat, base: Option<nat>, r: string): seq<string> {
    if base == Some(i) then [NewLine(r)]
    else if !IsDiscovery(line) then [line]
    else if base.Some? then ["#" + line]
    else if Terminated(line) then ["#" + line, NewLine(r)]
    else ["#" + line + NewLine(r)]
  }

  function OutputLines(lines: seq<string>, base: Option<nat>, r: string, n: nat): seq<string>
    requires n <= |lines|
  {
    if n == 0 then [] else OutputLines(lines, base, r, n - 1) + OutLines(lines[n - 1], n - 1, base, r)
  }

  lemma JoinOutLines(line: string, i: nat, base: Option<nat>, r: string)
    ensures Join(OutLines(line, i, base, r)) == OutText(line, i, base, r)
  {
    hide IsDiscovery, NewLine;
    var out := OutLines(line, i, base, r);
    assert out == [out[0]] + out[1..];
    JoinCons(out[0], out[1..]);
    if |out| == 2 {
      assert out[1..] == [NewLine(r)] == [NewLine(r)] + [];
      JoinCons(NewLine(r), []);
      assert Join([]) == "" && NewLine(r) + "" == NewLine(r);
    } else {
      assert out[1..] == [] && Join([]) == "" && out[0] + "" == out[0];
      assert "#" + line + "" == "#" + line;
    }
  }

  lemma {:induction false} JoinOutputLines(lines: seq<string>, base: Option<nat>, r: string, n: nat)
    requires n <= |lines|
    ensures Join(OutputLines(lines, base, r, n)) == SectionText(lines, base, r, n)
  {
    hide OutLines, OutText;
    if n > 0 {
      JoinOutputLines(lines, base, r, n - 1);
      JoinOutLines(lines[n - 1], n - 1, base, r);
      JoinAppend(OutputLines(lines, base, r, n - 1), OutLines(lines[n - 1], n - 1, base, r));
    }
  }

  /** The text stays on one line. */
  predicate FitsLine(r: string) {
    '\n' !in r
  }

  /** Nor is any of it taken for the end of the line. */
  predicate OneLiner(r: string) {
    FitsLine(r) && (r == [] || r[|r| - 1] != '\r')
  }

  ghost predicate AllTerminated(lines: seq<string>) {
    forall i :: 0 <= i < |lines| ==> Terminated(lines[i])
  }

  lemma NewLineIsLine(r: string)
    requires FitsLine(r)
    ensures IsLine(NewLine(r)) && Terminated(NewLine(r))
  {
    var prefix := "baseurl=" + r;
    assert '\n' !in "baseurl=";
    assert forall i :: 0 <= i < |prefix| ==> prefix[i] != '\n';
  }

  lemma OutLinesAreLines(line: string, i: nat, base: Option<nat>, r: string)
    requires IsLine(line) && FitsLine(r)
    ensures AreLines(OutLines(line, i, base, r))
    ensures Terminated(line) ==> AllTerminated(OutLines(line, i, base, r))
  {
    hide IsDiscovery, NewLine, FitsLine;
    NewLineIsLine(r);
    assert IsLine("#" + line);
    if !Terminated(line) {
      assert '\n' !in line;
      var s := "#" + line;
      var out := s + NewLine(r);
      assert forall k :: 0 <= k < |out| - 1 ==> out[k] == if k < |s| then s[k] else NewLine(r)[k - |s|];
    }
  }

  lemma LinesAppend(a: seq<string>, b: seq<string>)
    requires AreLines(a) && AllTerminated(a) && AreLines(b)
    ensures AreLines(a + b)
    ensures AllTerminated(b) ==> AllTerminated(a + b)
  {
    hide IsLine, Terminated;
    var c := a + b;
    assert forall i :: 0 <= i < |c| ==> c[i] == if i < |a| then a[i] else b[i - |a|];
  }

  lemma {:induction false} OutputAreLines(lines: seq<string>, base: Option<nat>, r: string, n: nat)
    requires AreLines(lines) && n <= |lines| && FitsLine(r)
    ensures AreLines(OutputLines(lines, base, r, n))
    ensures n < |lines| || AllTerminated(lines) ==> AllTerminated(OutputLines(lines, base, r, n))
  {
    hide OutLines, FitsLine, IsLine, Terminated;
    if n > 0 {
      OutputAreLines(lines, base, r, n - 1);
      OutLinesAreLines(lines[n - 1], n - 1, base, r);
      LinesAppend(OutputLines(lines, base, r, n - 1), OutLines(lines[n - 1], n - 1, base, r));
    }
  }

  /** The lines of a rewritten section. */
  lemma OutputLinesAre(lines: seq<string>, base: Option<nat>, r: string)
    requires AreLines(lines) && FitsLine(r)
    ensures Lines(SectionText(lines, base, r, |lines|)) == OutputLines(lines, base, r, |lines|)
  {
    hide FitsLine;
    JoinOutputLines(lines, base, r, |lines|);
    OutputAreLines(lines, base, r, |lines|);
    LinesOfJoin(OutputLines(lines, base, r, |lines|));
  }

  // -------------------------------------------------------------------------
  // Kinds of line
  // -------------------------------------------------------------------------

  lemma {:induction false} TrimEndHead(s: string)
    requires s != [] && !IsWhitespace(s[0])
    ensures TrimEnd(s) != [] && TrimEnd(s)[0] == s[0]
    decreases |s|
  {
    hide IsWhitespace;
    if IsWhitespace(s[|s| - 1]) {
      TrimEndHead(s[..|s| - 1]);
    }
  }

  lemma TrimHead(s: string)
    requires s != [] && !IsWhitespace(s[0])
    ensures TrimStart(s) == s && Trim(s) != [] && Trim(s)[0] == s[0]
  {
    hide IsWhitespace;
    RunIs(s, true, 0);
    assert s[0..] == s;
    TrimEndHead(s);
  }

  lemma HashIsNotSpace()
    ensures !IsWhitespace('#')
  {
  }

  /** A commented line is neither discovery nor, without templates, a base URL. */
  lemma CommentIsInert(s: string)
    requires s != [] && s[0] == '#'
    ensures !IsDiscovery(s) && BaseUri(s, false) == None
  {
    HashIsNotSpace();
    hide IsWhitespace, Trim, TrimStart, StartsWith, Find;
    TrimHead(s);
    var e := Find(s, '=');
    if e < |s| {
      assert e > 0;
      TrimHead(s[..e]);
    }
  }

  lemma CommentEnd(s: string)
    requires s != [] && s[0] == '#' && IsLine(s)
    ensures WithoutEnd(s) != [] && WithoutEnd(s)[0] == '#'
  {
  }

  lemma EndOfLine(s: string)
    requires s != [] && s[|s| - 1] != '\r'
    ensures WithoutEnd(s + "\n") == s
  {
    var t := s + "\n";
    assert t[..|s|] == s && t[|s|..] == "\n" && t[|s| - 1..][0] == s[|s| - 1];
  }

  lemma KeyOf(word: string, r: string)
    requires '=' !in word
    ensures Key(word + "=" + r) == Some(Trim(word)) && Value(word + "=" + r) == Trim(r)
  {
    hide Trim;
    var s := word + "=" + r;
    FindIs(s, '=', |word|);
    assert s[..|word|] == word && s[|word| + 1..] == r;
  }

  lemma NewLineKey(r: string)
    requires OneLiner(r)
    ensures WithoutEnd(NewLine(r)) == "baseurl=" + r
    ensures Key("baseurl=" + r) == Some("baseurl") && Value("baseurl=" + r) == Trim(r)
  {
    hide Trim, Key, Value, WithoutEnd;
    var s := "baseurl=" + r;
    assert s == "baseurl" + "=" + r;
    KeyOf("baseurl", r);
    TrimBaseurl();
    assert s[|s| - 1] != '\r' by {
      if r != [] {
        assert s[|s| - 1] == r[|r| - 1];
      }
    }
    EndOfLine(s);
  }

  lemma TrimBaseurl()
    ensures Trim("baseurl") == "baseurl"
  {
    RunIs("baseurl", true, 0);
    assert "baseurl"[0..] == "baseurl";
  }

  lemma NewLineFound(r: string, m: Mapper)
    requires OneLiner(r)
    ensures !IsDiscovery(NewLine(r)) && !IsCommented(NewLine(r)) && !IsHeader(NewLine(r))
    ensures Found(NewLine(r), false, m) == m(Trim(r))
  {
    hide Trim, TrimStart, Find, IsWhitespace, Key, Value, WithoutEnd, NewLine, FitsLine;
    NewLineKey(r);
    EndHasNoEquals(NewLine(r));
    NewLineHead(r);
    TrimHead("baseurl=" + r);
    TrimHead(NewLine(r));
  }

  lemma NewLineHead(r: string)
    ensures NewLine(r) != [] && NewLine(r)[0] == 'b' && ("baseurl=" + r)[0] == 'b' && !IsWhitespace('b')
  {
  }

  // -------------------------------------------------------------------------
  // Laws of one section
  // -------------------------------------------------------------------------

  predicate All(lines: seq<string>, q: string -> bool) {
    forall k :: 0 <= k < |lines| ==> q(lines[k])
  }

  lemma AllAppend(a: seq<string>, b: seq<string>, q: string -> bool)
    ensures All(a + b, q) <==> All(a, q) && All(b, q)
  {
    var c := a + b;
    if All(c, q) {
      assert forall k :: 0 <= k < |a| ==> a[k] == c[k];
      assert forall k :: 0 <= k < |b| ==> b[k] == c[|a| + k];
    }
  }

  lemma {:induction false} OutputAll(lines: seq<string>, base: Option<nat>, r: string, q: string -> bool, n: nat)
    requires n <= |lines|
    ensures All(OutputLines(lines, base, r, n), q) <==>
            forall i :: 0 <= i < n ==> All(OutLines(lines[i], i, base, r), q)
  {
    hide OutLines, All;
    if n > 0 {
      OutputAll(lines, base, r, q, n - 1);
      AllAppend(OutputLines(lines, base, r, n - 1), OutLines(lines[n - 1], n - 1, base, r), q);
    } else {
      NoLines(q);
    }
  }

  lemma NoLines(q: string -> bool)
    ensures All([], q)
  {
  }

  predicate NotDiscovery(line: string) {
    !IsDiscovery(line)
  }

  lemma NoDiscoveryInOutput(lines: seq<string>, base: Option<nat>, r: string)
    ensures All(OutputLines(lines, base, r, |lines|), NotDiscovery)
    ensures !HasDiscovery(OutputLines(lines, base, r, |lines|))
  {
    hide IsDiscovery, OutLines;
    forall i | 0 <= i < |lines| ensures All(OutLines(lines[i], i, base, r), NotDiscovery) {
      OutLinesNotDiscovery(lines[i], i, base, r);
    }
    OutputAll(lines, base, r, NotDiscovery, |lines|);
  }

  /** No active metalink or mirrorlist remains among the lines of a rewritten section. */
  lemma NoDiscoveryRemains(lines: seq<string>, base: Option<nat>, r: string)
    requires AreLines(lines) && FitsLine(r)
    ensures forall line :: line in Lines(SectionText(lines, base, r, |lines|)) ==> !IsDiscovery(line)
  {
    hide IsDiscovery, FitsLine, OutputLines, AreLines, Lines, SectionText;
    OutputLinesAre(lines, base, r);
    NoDiscoveryInOutput(lines, base, r);
  }

  lemma NewLineIsNoDiscovery(r: string)
    ensures !IsDiscovery(NewLine(r))
  {
    hide Trim, Key, Value;
    assert NewLine(r) == "baseurl" + "=" + (r + "\n");
    KeyOf("baseurl", r + "\n");
    TrimBaseurl();
  }

  lemma OutLinesNotDiscovery(line: string, i: nat, base: Option<nat>, r: string)
    ensures All(OutLines(line, i, base, r), NotDiscovery)
  {
    hide IsDiscovery, NewLine, BaseUri;
    NewLineIsNoDiscovery(r);
    CommentIsInert("#" + line);
    CommentIsInert("#" + line + NewLine(r));
  }

  function KeepAll(t: string): Mapped {
    Keep
  }

  lemma {:induction false} LastResolvedIsDiscovery(lines: seq<string>, metalinkOnly: bool, f: Resolver, n: nat)
    requires n <= |lines| && LastResolved(lines, metalinkOnly, f, n).Some?
    ensures exists i :: 0 <= i < n && IsDiscovery(lines[i]) &&
                        f(Value(WithoutEnd(lines[i]))) == LastResolved(lines, metalinkOnly, f, n)
  {
    hide Key, Value, WithoutEnd;
    DiscoveryIgnoresEnd(lines[n - 1]);
    var line := WithoutEnd(lines[n - 1]);
    if (if metalinkOnly then Key(line) == Some("metalink") else IsDiscovery(line)) && f(Value(line)).Some? {
      assert IsDiscovery(lines[n - 1]);
    } else {
      LastResolvedIsDiscovery(lines, metalinkOnly, f, n - 1);
    }
  }

  /** A section without a base line to replace is rewritten only for the sake of a discovery line. */
  lemma MovedForDiscovery(lines: seq<string>, p: Profile)
    requires PlanOf(lines, p).Move? && PlanOf(lines, p).base.None?
    ensures HasDiscovery(lines)
  {
    hide Chosen, LastResolved, IsDiscovery;
    ChosenIs(lines, HasDiscovery(lines), p.mapper, 0);
    if Resolved(lines, false, p.fedora).Some? {
      LastResolvedIsDiscovery(lines, false, p.fedora.value, |lines|);
    } else if Resolved(lines, false, p.epel).Some? {
      LastResolvedIsDiscovery(lines, false, p.epel.value, |lines|);
    } else {
      LastResolvedIsDiscovery(lines, true, p.stream.value, |lines|);
    }
  }

  /** The line of the output that comes from line `i`. */
  lemma {:induction false} OutputContains(lines: seq<string>, base: Option<nat>, r: string, i: nat, n: nat)
    requires i < n <= |lines|
    ensures forall l :: l in OutLines(lines[i], i, base, r) ==> l in OutputLines(lines, base, r, n)
  {
    hide OutLines;
    if i < n - 1 {
      OutputContains(lines, base, r, i, n - 1);
    }
  }

  /** The new base URL stands on a line of its own unless the only discovery line ends the file unterminated. */
  lemma BaseUrlIsGained(lines: seq<string>, p: Profile)
    requires AreLines(lines) && PlanOf(lines, p).Move?
    requires || PlanOf(lines, p).base.Some?
             || exists i :: 0 <= i < |lines| && IsDiscovery(lines[i]) && Terminated(lines[i])
    ensures var plan := PlanOf(lines, p);
            NewLine(plan.replacement) in OutputLines(lines, plan.base, plan.replacement, |lines|)
  {
    hide IsDiscovery, NewLine, Chosen, LastResolved, Terminated, OutLines, OutputLines, Found;
    var plan := PlanOf(lines, p);
    ChosenIs(lines, HasDiscovery(lines), p.mapper, 0);
    if plan.base.Some? {
      NewLineIsOut(lines, plan.base, plan.replacement, plan.base.value);
    } else {
      var i :| 0 <= i < |lines| && IsDiscovery(lines[i]) && Terminated(lines[i]);
      NewLineIsOut(lines, plan.base, plan.replacement, i);
    }
  }

  lemma NewLineIsOut(lines: seq<string>, base: Option<nat>, r: string, i: nat)
    requires i < |lines| && (base == Some(i) || (base.None? && IsDiscovery(lines[i]) && Terminated(lines[i])))
    ensures NewLine(r) in OutputLines(lines, base, r, |lines|)
  {
    hide IsDiscovery, NewLine, Terminated, OutputLines;
    OutputContains(lines, base, r, i, |lines|);
    assert NewLine(r) in OutLines(lines[i], i, base, r);
  }

  lemma {:induction false} NothingBefore(lines: seq<string>, r: string, n: nat)
    requires n <= |lines| && forall i :: 0 <= i < n ==> !IsDiscovery(lines[i])
    ensures OutputLines(lines, None, r, n) == lines[..n]
  {
    hide IsDiscovery, NewLine;
    if n > 0 {
      NothingBefore(lines, r, n - 1);
      assert lines[..n] == lines[..n - 1] + [lines[n - 1]];
    }
  }

  /** In the one remaining case the new base URL is appended to the commented line and nothing active is gained. */
  lemma BaseUrlIsLost(lines: seq<string>, p: Profile)
    requires AreLines(lines) && PlanOf(lines, p).Move? && PlanOf(lines, p).base.None?
    requires forall i :: 0 <= i < |lines| && IsDiscovery(lines[i]) ==> !Terminated(lines[i])
    ensures var r, n := PlanOf(lines, p).replacement, |lines| - 1;
            n >= 0 && OutputLines(lines, None, r, |lines|) == lines[..n] + ["#" + lines[n] + NewLine(r)]
  {
    hide IsDiscovery, NewLine, PlanOf, Terminated;
    MovedForDiscovery(lines, p);
    var n := |lines| - 1;
    NothingBefore(lines, PlanOf(lines, p).replacement, n);
    assert IsDiscovery(lines[n]);
  }

  /** A table of discovery URLs with one entry. */
  function Only(v: string, r: string): Resolver {
    (t: string) => if t == v then Some(r) else None
  }

  lemma SingleLine(s: string)
    requires s != [] && '\n' !in s
    ensures Lines(s) == [s] && WithoutEnd(s) == s
  {
    assert IsLine(s);
    FirstLineOf(s, "");
    assert s + "" == s && s[|s|..] == "";
    assert Lines("") == [] && [s] + [] == [s];
    NoLineEnd(s);
    hide WithoutEnd;
  }

  lemma NoLineEnd(s: string)
    requires '\n' !in s
    ensures WithoutEnd(s) == s
  {
    assert |s| >= 2 ==> s[|s| - 2..][1] == s[|s| - 1];
    assert |s| >= 1 ==> s[|s| - 1..][0] == s[|s| - 1];
  }

  lemma UnterminatedDiscovery(s: string, m: Mapper, r: string)
    requires s != [] && '\n' !in s && !IsWhitespace(s[0]) && IsDiscovery(s)
    ensures SectionOut(s, Profile(m, Some(Only(Value(s), r)), None, None)) == Some("#" + s + NewLine(r))
  {
    SingleLine(s);
    TrimHead(s);
    if s[0] == '#' {
      CommentIsInert(s);
    }
    hide Lines, Find, WithoutEnd, NewLine, Trim, TrimStart, IsWhitespace, Value;
    var lines, f := [s], Only(Value(s), r);
    assert lines[0] == s;
    assert Found(s, true, m) == Keep;
    assert Chosen(lines, true, m, 1) == Leave;
    assert Chosen(lines, true, m, 0) == Leave;
    assert LastResolved(lines, false, f, 1) == Some(r);
    assert HasDiscovery(lines);
    assert PlanOf(lines, Profile(m, Some(f), None, None)) == Move(None, r);
    var out := "#" + s + NewLine(r);
    assert SectionText(lines, None, r, 0) == "" && SectionText(lines, None, r, 1) == "" + out == out;
  }

  /**
    The stable Fedora repository, as its release package declares it, and what the table makes of it.
    URLs whose characters a proof looks at are put together from short literals, which keep the solver cheap.
  */
  const FEDORA_METALINK := "https://mirrors." + "fedoraproject" + ".org/metalink" + "?repo=fedora-" + "$releasever"
  const FEDORA_BASE := "https://proxy.example/os/fedora/releases/$releasever/Everything/$basearch/os/"

  /** Every character is visible. */
  predicate Visible(s: string) {
    forall i :: 0 <= i < |s| ==> s[i] > ' '
  }

  lemma VisibleConcat(s: string, t: string)
    requires Visible(s) && Visible(t)
    ensures Visible(s + t)
  {
  }

  lemma MetalinkIsVisible()
    ensures Visible(FEDORA_METALINK)
  {
    var a, b, c, d, e := "https://mirrors.", "fedoraproject", ".org/metalink", "?repo=fedora-", "$releasever";
    VisibleConcat(a, b);
    VisibleConcat(a + b, c);
    VisibleConcat(a + b + c, d);
    VisibleConcat(a + b + c + d, e);
  }

  /** Such a file: one discovery line without a line end. */
  lemma LostExample(m: Mapper)
    ensures var s := "metalink=" + FEDORA_METALINK;
            SectionOut(s, Profile(m, Some(Only(FEDORA_METALINK, FEDORA_BASE)), None, None)) ==
            Some("#" + s + NewLine(FEDORA_BASE))
  {
    hide SectionOut, Key, Value, NewLine, IsWhitespace, Trim;
    MetalinkFacts();
    KeyOf("metalink", FEDORA_METALINK);
    TrimMetalink();
    UnterminatedDiscovery("metalink" + "=" + FEDORA_METALINK, m, FEDORA_BASE);
  }

  lemma MetalinkFacts()
    ensures "metalink=" + FEDORA_METALINK == "metalink" + "=" + FEDORA_METALINK && '=' !in "metalink"
    ensures '\n' !in "metalink=" + FEDORA_METALINK && !IsWhitespace(("metalink=" + FEDORA_METALINK)[0])
    ensures Trim(FEDORA_METALINK) == FEDORA_METALINK
  {
    hide Trim;
    MetalinkIsVisible();
    assert "metalink" + "=" == "metalink=" && '\n' !in "metalink=";
    MetalinkEnds(FEDORA_METALINK[..|FEDORA_METALINK| - 11]);
  }

  lemma MetalinkEnds(init: string)
    requires FEDORA_METALINK == init + "$releasever"
    ensures Trim(FEDORA_METALINK) == FEDORA_METALINK
  {
    assert FEDORA_METALINK[0] == 'h' && FEDORA_METALINK[|FEDORA_METALINK| - 1] == 'r';
    assert !IsWhitespace('h') && !IsWhitespace('r');
    TrimNothing(FEDORA_METALINK);
  }

  lemma TrimNothing(s: string)
    requires s != [] && !IsWhitespace(s[0]) && !IsWhitespace(s[|s| - 1])
    ensures Trim(s) == s
  {
    hide IsWhitespace;
    TrimHead(s);
  }

  lemma TrimMetalink()
    ensures Trim("metalink") == "metalink"
  {
    TrimNothing("metalink");
  }

  // -------------------------------------------------------------------------
  // A second pass over one section
  // -------------------------------------------------------------------------

  /** A replacement fits on one line and is not recognised again. */
  predicate Final(r: string, m: Mapper) {
    OneLiner(r) && m(Trim(r)) == Keep
  }

  /** The mapper and the tables are only ever asked about trimmed parts of one line. */
  ghost predicate ResolverSettled(f: Option<Resolver>, m: Mapper) {
    f.Some? ==> forall t :: OneLiner(t) && f.value(t).Some? ==> Final(f.value(t).value, m)
  }

  ghost predicate RpmSettled(p: Profile) {
    && (forall t :: OneLiner(t) && p.mapper(t).Replace? ==> Final(p.mapper(t).text, p.mapper))
    && ResolverSettled(p.fedora, p.mapper) && ResolverSettled(p.epel, p.mapper) && ResolverSettled(p.stream, p.mapper)
  }

  lemma {:induction false} TrimEndIs(s: string)
    ensures TrimEnd(s) <= s && (TrimEnd(s) == [] || !IsWhitespace(TrimEnd(s)[|TrimEnd(s)| - 1]))
    decreases |s|
  {
    hide IsWhitespace;
    if s != [] && IsWhitespace(s[|s| - 1]) {
      TrimEndIs(s[..|s| - 1]);
    }
  }

  lemma TrimIsOneLiner(s: string)
    requires FitsLine(s)
    ensures OneLiner(Trim(s))
  {
    assert IsWhitespace('\r');
    hide IsWhitespace, Run;
    var start := TrimStart(s);
    TrimEndIs(start);
    var t := Trim(s);
    assert forall i :: 0 <= i < |t| ==> t[i] == start[i] && start[i] in s;
  }

  lemma WithoutEndFits(line: string)
    requires IsLine(line)
    ensures FitsLine(WithoutEnd(line))
  {
    EndIsLineEnd(line);
    var s := WithoutEnd(line);
    if |s| == |line| {
      assert line[|line| - 1..][0] == line[|line| - 1];
      assert EndsWith(line, "\n") <==> line[|line| - 1] == '\n' by {
        assert line[|line| - 1..] == [line[|line| - 1]];
      }
    }
  }

  lemma SuffixFits(s: string, i: nat)
    requires FitsLine(s) && i <= |s|
    ensures FitsLine(s[i..])
  {
    var rest := s[i..];
    assert forall k :: 0 <= k < |rest| ==> rest[k] == s[i + k];
  }

  lemma ValueIsOneLiner(s: string)
    requires FitsLine(s)
    ensures OneLiner(Value(s))
  {
    hide Trim;
    var e := Find(s, '=');
    if e < |s| {
      SuffixFits(s, e + 1);
      TrimIsOneLiner(s[e + 1..]);
    }
  }

  lemma BaseUriIsOneLiner(s: string, discovery: bool)
    requires FitsLine(s) && BaseUri(s, discovery).Some?
    ensures OneLiner(BaseUri(s, discovery).value)
  {
    hide Value, Key, Run, FitsLine, OneLiner;
    var active := TrimStart(s);
    SuffixFits(s, Run(s, true));
    if discovery && StartsWith(active, "#") {
      SuffixFits(active, 1);
      SuffixFits(active[1..], Run(active[1..], true));
    }
    ValueIsOneLiner(Candidate(s, discovery));
  }

  lemma FoundIsFinal(line: string, discovery: bool, p: Profile)
    requires RpmSettled(p) && IsLine(line) && Found(line, discovery, p.mapper).Replace?
    ensures Final(Found(line, discovery, p.mapper).text, p.mapper)
  {
    hide Final, BaseUri, ResolverSettled, FitsLine, WithoutEnd, IsLine;
    WithoutEndFits(line);
    BaseUriIsOneLiner(WithoutEnd(line), discovery);
  }

  lemma ResolvedIsFinal(lines: seq<string>, metalinkOnly: bool, f: Option<Resolver>, m: Mapper)
    requires AreLines(lines) && ResolverSettled(f, m) && Resolved(lines, metalinkOnly, f).Some?
    ensures Final(Resolved(lines, metalinkOnly, f).value, m)
  {
    hide Final, LastResolved, IsDiscovery, FitsLine, WithoutEnd, IsLine, Value;
    LastResolvedIsDiscovery(lines, metalinkOnly, f.value, |lines|);
    var i :| 0 <= i < |lines| && IsDiscovery(lines[i]) &&
             f.value(Value(WithoutEnd(lines[i]))) == LastResolved(lines, metalinkOnly, f.value, |lines|);
    WithoutEndFits(lines[i]);
    ValueIsOneLiner(WithoutEnd(lines[i]));
  }

  /** Whatever a section is given is final. */
  lemma PlanIsFinal(lines: seq<string>, p: Profile)
    requires RpmSettled(p) && AreLines(lines) && PlanOf(lines, p).Move?
    ensures Final(PlanOf(lines, p).replacement, p.mapper)
  {
    hide Final, Chosen, Found, Resolved, ResolverSettled, IsLine;
    ChosenIs(lines, HasDiscovery(lines), p.mapper, 0);
    var chosen := Chosen(lines, HasDiscovery(lines), p.mapper, 0);
    if chosen.Move? {
      FoundIsFinal(lines[chosen.base.value], HasDiscovery(lines), p);
    } else if Resolved(lines, false, p.fedora).Some? {
      ResolvedIsFinal(lines, false, p.fedora, p.mapper);
    } else if Resolved(lines, false, p.epel).Some? {
      ResolvedIsFinal(lines, false, p.epel, p.mapper);
    } else {
      ResolvedIsFinal(lines, true, p.stream, p.mapper);
    }
  }

  /** An active line that the mapper would leave as it is. */
  function Quiet(m: Mapper): string -> bool {
    (line: string) => Found(line, false, m) == Keep
  }

  /** Besides the replaced line, no active base URL is recognised or refused. */
  ghost predicate OthersKept(lines: seq<string>, base: Option<nat>, m: Mapper) {
    forall i: nat :: i < |lines| && base != Some(i) && !IsDiscovery(lines[i]) ==> Found(lines[i], false, m) == Keep
  }

  lemma CommentFound(s: string, m: Mapper)
    requires IsLine(s) && s[0] == '#'
    ensures Found(s, false, m) == Keep
  {
    hide BaseUri, WithoutEnd;
    CommentEnd(s);
    CommentIsInert(WithoutEnd(s));
  }

  lemma OutLinesQuiet(line: string, i: nat, base: Option<nat>, r: string, m: Mapper)
    requires IsLine(line) && Final(r, m)
    ensures All(OutLines(line, i, base, r), Quiet(m)) <==>
            base == Some(i) || IsDiscovery(line) || Found(line, false, m) == Keep
  {
    hide IsDiscovery, Found, NewLine, FitsLine, IsLine, Terminated;
    NewLineFound(r, m);
    OutLinesAreLines(line, i, base, r);
    var out := OutLines(line, i, base, r);
    assert IsLine(out[0]);
    if base != Some(i) && IsDiscovery(line) {
      CommentFound(out[0], m);
    } else if base != Some(i) {
      assert out[0] == line;
    }
  }

  lemma OutputQuiet(lines: seq<string>, base: Option<nat>, r: string, m: Mapper)
    requires AreLines(lines) && Final(r, m)
    ensures All(OutputLines(lines, base, r, |lines|), Quiet(m)) <==> OthersKept(lines, base, m)
  {
    hide IsDiscovery, Found, OutLines, Final, IsLine, Terminated, All, Quiet;
    forall i: nat | i < |lines|
      ensures All(OutLines(lines[i], i, base, r), Quiet(m)) <==>
              base == Some(i) || IsDiscovery(lines[i]) || Found(lines[i], false, m) == Keep
    {
      OutLinesQuiet(lines[i], i, base, r, m);
    }
    OutputAll(lines, base, r, Quiet(m), |lines|);
  }

  lemma NothingToResolve(lines: seq<string>, metalinkOnly: bool, f: Option<Resolver>)
    requires !HasDiscovery(lines)
    ensures Resolved(lines, metalinkOnly, f) == None
  {
    hide IsDiscovery, LastResolved;
    if Resolved(lines, metalinkOnly, f).Some? {
      LastResolvedIsDiscovery(lines, metalinkOnly, f.value, |lines|);
      assert false;
    }
  }

  /** Without discovery lines a section is left alone exactly when every active base URL is. */
  lemma PlanWithoutDiscovery(lines: seq<string>, p: Profile)
    requires !HasDiscovery(lines)
    ensures PlanOf(lines, p) == Chosen(lines, false, p.mapper, 0)
    ensures PlanOf(lines, p).Leave? <==> All(lines, Quiet(p.mapper))
  {
    hide HasDiscovery, Resolved, Chosen, Found;
    NothingToResolve(lines, false, p.fedora);
    NothingToResolve(lines, false, p.epel);
    NothingToResolve(lines, true, p.stream);
    ChosenIs(lines, false, p.mapper, 0);
  }

  lemma {:induction false} OneLineReplaced(lines: seq<string>, k: nat, r: string, n: nat)
    requires n <= |lines| && k < |lines| && !HasDiscovery(lines)
    ensures OutputLines(lines, Some(k), r, n) == if k < n then lines[k := NewLine(r)][..n] else lines[..n]
  {
    hide IsDiscovery, NewLine;
    if n > 0 {
      OneLineReplaced(lines, k, r, n - 1);
    }
  }

  lemma ReplacementChangesText(lines: seq<string>, k: nat, r: string, p: Profile)
    requires AreLines(lines) && k < |lines| && !HasDiscovery(lines) && Final(r, p.mapper)
    requires Found(lines[k], false, p.mapper).Replace?
    ensures SectionText(lines, Some(k), r, |lines|) != Join(lines)
  {
    hide HasDiscovery, Found, SectionText, Join, AreLines, FitsLine;
    NewLineFound(r, p.mapper);
    OneLineReplaced(lines, k, r, |lines|);
    OutputLinesAre(lines, Some(k), r);
    LinesOfJoin(lines);
    assert OutputLines(lines, Some(k), r, |lines|)[k] == NewLine(r);
  }

  /**
    Once rewritten, a section stays as it is exactly when no other active base URL was recognised or
    refused: the first pass stops at the first it recognises.
  */
  lemma SecondPassOfSection(content: string, p: Profile)
    requires RpmSettled(p) && PlanOf(Lines(content), p).Move?
    ensures var out := SectionOut(content, p).value;
            SectionOut(out, p) == Some(out) <==> OthersKept(Lines(content), PlanOf(Lines(content), p).base, p.mapper)
  {
    LinesAreLines(content);
    hide RpmSettled, PlanOf, AreLines, OthersKept, Final, SectionText;
    var lines := Lines(content);
    var base, r := PlanOf(lines, p).base, PlanOf(lines, p).replacement;
    PlanIsFinal(lines, p);
    SecondPassOfLines(lines, base, r, p);
  }

  lemma SecondPassOfLines(lines: seq<string>, base: Option<nat>, r: string, p: Profile)
    requires RpmSettled(p) && AreLines(lines) && Final(r, p.mapper)
    ensures var out := SectionText(lines, base, r, |lines|);
            SectionOut(out, p) == Some(out) <==> OthersKept(lines, base, p.mapper)
  {
    hide Found, IsDiscovery, PlanOf, Chosen, OthersKept, Quiet, All, FitsLine, AreLines, RpmSettled, HasDiscovery;
    var outs := OutputLines(lines, base, r, |lines|);
    var out := SectionText(lines, base, r, |lines|);
    OutputLinesAre(lines, base, r);
    OutputAreLines(lines, base, r, |lines|);
    JoinOutputLines(lines, base, r, |lines|);
    NoDiscoveryInOutput(lines, base, r);
    OutputQuiet(lines, base, r, p.mapper);
    PlanWithoutDiscovery(outs, p);
    ChosenIs(outs, false, p.mapper, 0);
    var plan := PlanOf(outs, p);
    if plan.Move? {
      PlanIsFinal(outs, p);
      ReplacementChangesText(outs, plan.base.value, plan.replacement, p);
    }
  }

  // -------------------------------------------------------------------------
  // A second pass over a file
  // -------------------------------------------------------------------------

  ghost predicate SectionKept(lines: seq<string>, p: Profile) {
    PlanOf(lines, p).Move? ==> OthersKept(lines, PlanOf(lines, p).base, p.mapper)
  }

  /** Every section from line `i` on is kept by a second pass. */
  ghost predicate SectionsKept(lines: seq<string>, i: nat, p: Profile)
    requires i <= |lines|
    decreases |lines| - i
  {
    i < |lines| ==>
      var j := SectionEnd(lines, i + 1);
      SectionKept(lines[i..j], p) && SectionsKept(lines, j, p)
  }

  lemma HeadersAreNotKeys(s: string)
    requires IsHeader(s)
    ensures Key(s) != Some("metalink") && Key(s) != Some("mirrorlist") && Key(s) != Some("baseurl")
  {
    BracketIsNoSpace();
    hide IsWhitespace;
    var w, e := Run(s, true), Find(s, '=');
    assert TrimStart(s)[0] == '[' && s[w] == '[';
    if e < |s| {
      EqualsIsNoSpace();
      assert e > w;
      var key := s[..e];
      RunIs(key, true, w);
      assert TrimStart(key)[0] == '[';
      TrimEndHead(TrimStart(key));
    }
  }

  lemma BracketIsNoSpace()
    ensures !IsWhitespace('[')
  {
  }

  lemma EqualsIsNoSpace()
    ensures !IsWhitespace('=')
  {
  }

  lemma HeaderEnd(s: string)
    requires IsHeader(s)
    ensures IsHeader(WithoutEnd(s))
  {
    BracketIsNoSpace();
    hide IsWhitespace;
    var w, t := Run(s, true), WithoutEnd(s);
    assert TrimStart(s)[0] == '[' && s[w] == '[';
    assert w < |t| && forall i :: 0 <= i < |t| ==> t[i] == s[i];
    RunIs(t, true, w);
    assert TrimStart(t)[0] == '[';
  }

  lemma HeaderIsInert(s: string, discovery: bool, m: Mapper)
    requires IsHeader(s)
    ensures !IsDiscovery(s) && Found(s, discovery, m) == Keep
  {
    hide Key, Value, WithoutEnd, Run;
    HeadersAreNotKeys(s);
    HeaderEnd(s);
    var active := TrimStart(WithoutEnd(s));
    BracketIsNoSpace();
    TrimHead(active);
    assert IsHeader(active);
    HeadersAreNotKeys(active);
  }

  predicate NotHeader(line: string) {
    !IsHeader(line)
  }

  lemma OutLinesNotHeader(line: string, i: nat, base: Option<nat>, r: string)
    requires !IsHeader(line) && OneLiner(r)
    ensures All(OutLines(line, i, base, r), NotHeader)
  {
    hide IsDiscovery, FitsLine, NewLine, Found, IsCommented, BaseUri, IsHeader;
    NewLineFound(r, KeepAll);
    CommentIsNotHeader("#" + line);
    CommentIsNotHeader("#" + line + NewLine(r));
  }

  lemma CommentIsNotHeader(s: string)
    requires s != [] && s[0] == '#'
    ensures !IsHeader(s)
  {
    HashIsNotSpace();
    TrimHead(s);
  }

  /** The first line of a section keeps being a header, and no other line becomes one. */
  lemma {:induction false} HeadersStay(lines: seq<string>, base: Option<nat>, r: string, n: nat)
    requires 1 <= n <= |lines| && OneLiner(r)
    requires forall k :: 1 <= k < n ==> !IsHeader(lines[k])
    requires IsHeader(lines[0]) ==> base != Some(0)
    ensures var outs := OutputLines(lines, base, r, n);
            outs != [] && (IsHeader(lines[0]) ==> outs[0] == lines[0]) && All(outs[1..], NotHeader)
  {
    hide IsHeader, FitsLine, IsDiscovery, NewLine, All;
    var before, more := OutputLines(lines, base, r, n - 1), OutLines(lines[n - 1], n - 1, base, r);
    var outs := before + more;
    if n == 1 {
      assert outs == more;
      if IsHeader(lines[0]) {
        HeaderIsInert(lines[0], false, KeepAll);
        NoLines(NotHeader);
        assert outs[1..] == [];
      } else {
        OutLinesNotHeader(lines[0], 0, base, r);
        assert more == more[..1] + more[1..];
        AllAppend(more[..1], more[1..], NotHeader);
      }
    } else {
      HeadersStay(lines, base, r, n - 1);
      OutLinesNotHeader(lines[n - 1], n - 1, base, r);
      assert outs[1..] == before[1..] + more;
      AllAppend(before[1..], more, NotHeader);
    }
  }

  /** What one section contributes to the output: lines `outs` with the section's own boundaries. */
  lemma SectionOutput(lines: seq<string>, p: Profile)
    requires RpmSettled(p) && AreLines(lines) && lines != []
    requires forall k :: 1 <= k < |lines| ==> !IsHeader(lines[k])
    requires SectionOut(Join(lines), p).Some?
    ensures var out := SectionOut(Join(lines), p).value;
            var outs := Lines(out);
            && Join(outs) == out && AreLines(outs) && (AllTerminated(lines) ==> AllTerminated(outs))
            && outs != [] && (IsHeader(lines[0]) ==> outs[0] == lines[0]) && All(outs[1..], NotHeader)
            && (SectionOut(out, p) == Some(out) <==> SectionKept(lines, p))
  {
    hide IsHeader, PlanOf, RpmSettled, IsLine, Terminated, FitsLine;
    LinesOfJoin(lines);
    var plan := PlanOf(lines, p);
    if plan.Move? {
      PlanIsFinal(lines, p);
      if IsHeader(lines[0]) {
        HeaderIsNotBase(lines, p);
      }
      var base, r := plan.base, plan.replacement;
      OutputLinesAre(lines, base, r);
      JoinOutputLines(lines, base, r, |lines|);
      OutputAreLines(lines, base, r, |lines|);
      HeadersStay(lines, base, r, |lines|);
      SecondPassOfLines(lines, base, r, p);
    }
  }

  lemma HeaderIsNotBase(lines: seq<string>, p: Profile)
    requires lines != [] && IsHeader(lines[0]) && PlanOf(lines, p).Move?
    ensures PlanOf(lines, p).base != Some(0)
  {
    hide IsHeader, Found, Chosen, Resolved;
    HeaderIsInert(lines[0], HasDiscovery(lines), p.mapper);
    ChosenIs(lines, HasDiscovery(lines), p.mapper, 0);
  }

  /** A second pass never changes the number of lines of a section. */
  lemma SecondPassKeepsCount(lines: seq<string>, p: Profile)
    requires RpmSettled(p) && AreLines(lines) && !HasDiscovery(lines) && SectionOut(Join(lines), p).Some?
    ensures var again := Lines(SectionOut(Join(lines), p).value);
            && |again| == |lines| && AreLines(again) && Join(again) == SectionOut(Join(lines), p).value
            && (AllTerminated(lines) ==> AllTerminated(again))
  {
    hide PlanOf, RpmSettled, IsLine, Terminated, FitsLine, HasDiscovery, Chosen, Found;
    LinesOfJoin(lines);
    var plan := PlanOf(lines, p);
    if plan.Move? {
      PlanIsFinal(lines, p);
      PlanWithoutDiscovery(lines, p);
      ChosenIs(lines, false, p.mapper, 0);
      OutputLinesAre(lines, plan.base, plan.replacement);
      JoinOutputLines(lines, plan.base, plan.replacement, |lines|);
      OutputAreLines(lines, plan.base, plan.replacement, |lines|);
      OneLineReplaced(lines, plan.base.value, plan.replacement, |lines|);
    }
  }

  /** The same for the output of a first pass. */
  lemma OutputKeepsCount(lines: seq<string>, p: Profile)
    requires RpmSettled(p) && AreLines(lines) && SectionOut(Join(lines), p).Some?
    requires var out := SectionOut(Join(lines), p).value; SectionOut(out, p).Some?
    ensures var out := SectionOut(Join(lines), p).value;
            var outs, again := Lines(out), Lines(SectionOut(out, p).value);
            && |again| == |outs| && AreLines(again) && Join(again) == SectionOut(out, p).value
            && (AllTerminated(outs) ==> AllTerminated(again))
  {
    hide PlanOf, RpmSettled, IsLine, Terminated, FitsLine, HasDiscovery;
    LinesOfJoin(lines);
    var plan := PlanOf(lines, p);
    if plan.Move? {
      PlanIsFinal(lines, p);
      var base, r := plan.base, plan.replacement;
      OutputLinesAre(lines, base, r);
      JoinOutputLines(lines, base, r, |lines|);
      OutputAreLines(lines, base, r, |lines|);
      NoDiscoveryInOutput(lines, base, r);
      SecondPassKeepsCount(OutputLines(lines, base, r, |lines|), p);
    }
  }

  lemma {:induction false} SuffixEnd(a: seq<string>, b: seq<string>, k: nat)
    requires k <= |b|
    ensures SectionEnd(a + b, |a| + k) == |a| + SectionEnd(b, k)
    decreases |b| - k
  {
    hide IsHeader;
    if k < |b| {
      assert (a + b)[|a| + k] == b[k];
      SuffixEnd(a, b, k + 1);
    }
  }

  /** Rewriting from a section boundary on does not depend on what comes before. */
  lemma {:induction false} SuffixIsRewrittenAlone(a: seq<string>, b: seq<string>, k: nat, p: Profile)
    requires k <= |b|
    ensures RewrittenFrom(a + b, |a| + k, p) == RewrittenFrom(b, k, p)
    decreases |b| - k
  {
    hide SectionOut, Join, SectionEnd;
    if k < |b| {
      SuffixEnd(a, b, k + 1);
      var j := SectionEnd(b, k + 1);
      assert (a + b)[|a| + k..|a| + j] == b[k..j];
      SuffixIsRewrittenAlone(a, b, j, p);
    }
  }

  /** The output of one section followed by the output `rest` of the others, as a file. */
  lemma FileFromSection(outs: seq<string>, rest: seq<string>, p: Profile)
    requires outs != [] && All(outs[1..], NotHeader) && (rest != [] ==> IsHeader(rest[0]))
    ensures RewrittenFrom(outs + rest, 0, p) == Append(SectionOut(Join(outs), p), RewrittenFrom(rest, 0, p))
  {
    hide SectionOut, Join, IsHeader, Append, RewrittenFrom;
    var lines := outs + rest;
    forall k | 1 <= k < |outs| ensures !IsHeader(lines[k]) {
      assert outs[1..][k - 1] == lines[k];
    }
    SectionBounds(lines, 1, |outs|);
    assert lines[0..|outs|] == outs;
    SuffixIsRewrittenAlone(outs, rest, 0, p);
    UnfoldFrom(lines, p);
  }

  lemma UnfoldFrom(lines: seq<string>, p: Profile)
    requires lines != []
    ensures var j := SectionEnd(lines, 1);
            RewrittenFrom(lines, 0, p) == Append(SectionOut(Join(lines[0..j]), p), RewrittenFrom(lines, j, p))
  {
    hide SectionOut, Join, IsHeader, Append;
  }

  /** Equal texts cut into the same number of leading lines have equal parts. */
  lemma PartsAreEqual(a: seq<string>, s: string, b: seq<string>, t: string)
    requires AreLines(a) && AreLines(b) && |a| == |b|
    requires (s == [] && t == []) || (AllTerminated(a) && AllTerminated(b))
    requires Join(a) + s == Join(b) + t
    ensures Join(a) == Join(b) && s == t
  {
    hide AreLines, AllTerminated, Join, Lines;
    if s == [] && t == [] {
      assert Join(a) + s == Join(a) && Join(b) + t == Join(b);
    } else {
      LinesOfText(a, s);
      LinesOfText(b, t);
      assert a == (a + Lines(s))[..|a|] && b == (b + Lines(t))[..|b|];
      assert a == b;
      SamePrefix(Join(a), s, t);
    }
  }

  lemma SamePrefix(x: string, s: string, t: string)
    requires x + s == x + t
    ensures s == t
  {
    assert s == (x + s)[|x|..] && t == (x + t)[|x|..];
  }

  lemma LinesOfText(a: seq<string>, s: string)
    requires AreLines(a) && AllTerminated(a)
    ensures Lines(Join(a) + s) == a + Lines(s) && AreLines(a + Lines(s))
  {
    hide IsLine, Terminated;
    LinesAreLines(s);
    LinesAppend(a, Lines(s));
    JoinAppend(a, Lines(s));
    LinesOfJoin(a + Lines(s));
  }

  lemma {:induction false} SectionEndIs(lines: seq<string>, i: nat)
    requires i <= |lines|
    ensures var j := SectionEnd(lines, i);
            (forall k :: i <= k < j ==> !IsHeader(lines[k])) && (j < |lines| ==> IsHeader(lines[j]))
    decreases |lines| - i
  {
    hide IsHeader;
    if i < |lines| && !IsHeader(lines[i]) {
      SectionEndIs(lines, i + 1);
    }
  }

  /** One section, and what comes after it. */
  lemma SecondPassStep(lines: seq<string>, rest: string, p: Profile)
    requires RpmSettled(p) && AreLines(lines) && lines != [] && (rest == "" || AllTerminated(lines))
    requires forall k :: 1 <= k < |lines| ==> !IsHeader(lines[k])
    requires SectionOut(Join(lines), p).Some? && (rest != "" ==> IsHeader(Lines(rest)[0]))
    ensures var out := SectionOut(Join(lines), p).value;
            var text := Lines(out + rest);
            && text != [] && (IsHeader(lines[0]) ==> IsHeader(text[0]))
            && (RewrittenFrom(text, 0, p) == Some(out + rest) <==>
                  SectionKept(lines, p) && RewrittenFrom(Lines(rest), 0, p) == Some(rest))
  {
    hide IsHeader, RpmSettled, AreLines, AllTerminated, SectionOut, SectionKept, Join, RewrittenFrom, NotHeader;
    var out := SectionOut(Join(lines), p).value;
    var outs := Lines(out);
    SectionOutput(lines, p);
    if rest == "" {
      assert out + rest == out && outs + Lines(rest) == outs;
    } else {
      LinesOfText(outs, rest);
    }
    assert Lines(out + rest) == outs + Lines(rest);
    FileFromSection(outs, Lines(rest), p);
    var again, tail := SectionOut(out, p), RewrittenFrom(Lines(rest), 0, p);
    if again.Some? && tail.Some? && again.value + tail.value == out + rest {
      OutputKeepsCount(lines, p);
      if rest == "" {
        NothingMore(p);
      }
      PartsAreEqual(Lines(again.value), tail.value, outs, rest);
    }
  }

  lemma NothingMore(p: Profile)
    ensures Lines("") == [] && RewrittenFrom(Lines(""), 0, p) == Some("")
  {
  }

  lemma {:induction false} SecondPassFrom(lines: seq<string>, i: nat, p: Profile)
    requires RpmSettled(p) && AreLines(lines) && i <= |lines| && RewrittenFrom(lines, i, p).Some?
    ensures var out := RewrittenFrom(lines, i, p).value;
            && (RewrittenFrom(Lines(out), 0, p) == Some(out) <==> SectionsKept(lines, i, p))
            && (i == |lines| <==> out == "") && (i < |lines| && IsHeader(lines[i]) ==> IsHeader(Lines(out)[0]))
    decreases |lines| - i
  {
    hide IsHeader, RpmSettled, SectionOut, SectionKept, Join, IsLine, Terminated, Lines;
    if i == |lines| {
      NothingMore(p);
    } else {
      var j := SectionEnd(lines, i + 1);
      SectionEndIs(lines, i + 1);
      SecondPassFrom(lines, j, p);
      SecondPassStep(lines[i..j], RewrittenFrom(lines, j, p).value, p);
    }
  }

  /**
    A second pass over a whole file changes nothing exactly when no section has a further active base
    URL that the first pass did not reach.
  */
  lemma SecondPassOfFile(content: string, p: Profile)
    requires RpmSettled(p) && RewrittenRpm(content, p).Some?
    ensures var out := RewrittenRpm(content, p).value;
            RewrittenRpm(out, p) == Some(out) <==> SectionsKept(Lines(content), 0, p)
  {
    LinesAreLines(content);
    SecondPassFrom(Lines(content), 0, p);
  }

  // -------------------------------------------------------------------------
  // A file that a second pass changes
  // -------------------------------------------------------------------------

  lemma TwoLines(x: string, y: string)
    requires IsLine(x) && Terminated(x) && IsLine(y)
    ensures Lines(x + y) == [x, y] && Join([x, y]) == x + y
  {
    hide IsLine, Terminated;
    JoinCons(x, [y]);
    assert [x] + [y] == [x, y];
    JoinCons(y, []);
    assert [y] + [] == [y] && Join([]) == "" && y + "" == y;
    LinesOfJoin([x, y]);
  }

  lemma TwoLinePlan(x: string, y: string, k: nat, p: Profile, r: string)
    requires k < 2 && !IsDiscovery(x) && !IsDiscovery(y) && !IsCommented([x, y][k])
    requires Found([x, y][k], false, p.mapper) == Replace(r) && (k == 1 ==> Found(x, false, p.mapper) == Keep)
    ensures PlanOf([x, y], p) == Move(Some(k), r)
  {
    hide Found, IsDiscovery, IsCommented, Resolved;
    var lines := [x, y];
    assert lines[0] == x && lines[1] == y;
    assert !HasDiscovery(lines);
    assert k == 1 ==> Chosen(lines, false, p.mapper, 1) == Move(Some(1), r);
  }

  lemma TwoLineText(x: string, y: string, k: nat, r: string)
    requires k < 2 && !IsDiscovery(x) && !IsDiscovery(y)
    ensures SectionText([x, y], Some(k), r, 2) == if k == 0 then NewLine(r) + y else x + NewLine(r)
  {
    hide IsDiscovery, NewLine;
    var lines := [x, y];
    var first := OutText(x, 0, Some(k), r);
    assert SectionText(lines, Some(k), r, 0) == "";
    assert SectionText(lines, Some(k), r, 1) == "" + first == first;
  }

  lemma OneSection(x: string, y: string, p: Profile)
    requires IsLine(x) && Terminated(x) && IsLine(y) && !IsHeader(y)
    ensures RewrittenRpm(x + y, p) == SectionOut(x + y, p)
  {
    TwoLines(x, y);
    hide IsHeader, SectionOut, IsLine, Terminated;
    var lines := [x, y];
    assert lines[1] == y && lines[0..2] == lines;
    SectionBounds(lines, 1, 2);
    UnfoldFrom(lines, p);
    var out := SectionOut(x + y, p);
    assert out.Some? ==> out.value + "" == out.value;
  }

  /** Two base URL lines form one section, of which the first that is recognised is replaced. */
  lemma TwoBaseUrls(u: string, v: string, k: nat, p: Profile, r: string)
    requires OneLiner(u) && OneLiner(v) && k < 2
    requires p.mapper(Trim([u, v][k])) == Replace(r) && (k == 1 ==> p.mapper(Trim(u)) == Keep)
    ensures RewrittenRpm(NewLine(u) + NewLine(v), p) ==
            Some(if k == 0 then NewLine(r) + NewLine(v) else NewLine(u) + NewLine(r))
  {
    hide NewLine, Found, IsDiscovery, IsHeader, IsCommented, Lines, Join, Trim, FitsLine, PlanOf, SectionText,
         RewrittenRpm;
    var x, y := NewLine(u), NewLine(v);
    NewLineFound(u, p.mapper);
    NewLineFound(v, p.mapper);
    NewLineIsLine(u);
    NewLineIsLine(v);
    OneSection(x, y, p);
    TwoLines(x, y);
    TwoLinePlan(x, y, k, p, r);
    TwoLineText(x, y, k, r);
  }

  /** The same two trees on the distribution's server and behind the gateway. */
  const FEDORA_ROOT := "https://dl." + "fedoraproject" + ".org/pub/" + "fedora/linux/"
  const PROXY_ROOT := "https://proxy" + ".example/os/" + "fedora/"
  const FEDORA_RELEASES := FEDORA_ROOT + "releases/"
  const FEDORA_UPDATES := FEDORA_ROOT + "updates/"
  const PROXY_RELEASES := PROXY_ROOT + "releases/"
  const PROXY_UPDATES := PROXY_ROOT + "updates/"

  function FedoraMapper(t: string): Mapped {
    if t == FEDORA_RELEASES then Replace(PROXY_RELEASES)
    else if t == FEDORA_UPDATES then Replace(PROXY_UPDATES)
    else Keep
  }

  /** Two active base URLs: the first pass replaces one and stops, the second pass replaces the other. */
  lemma SecondPassExample()
    ensures var p := Profile(FedoraMapper, None, None, None);
            var once := NewLine(PROXY_RELEASES) + NewLine(FEDORA_UPDATES);
            && RpmSettled(p)
            && RewrittenRpm(NewLine(FEDORA_RELEASES) + NewLine(FEDORA_UPDATES), p) == Some(once)
            && RewrittenRpm(once, p) == Some(NewLine(PROXY_RELEASES) + NewLine(PROXY_UPDATES))
            && RewrittenRpm(once, p) != Some(once)
  {
    FedoraFacts();
    hide Trim, FitsLine, RewrittenRpm, NewLine;
    var p := Profile(FedoraMapper, None, None, None);
    TwoBaseUrls(FEDORA_RELEASES, FEDORA_UPDATES, 0, p, PROXY_RELEASES);
    TwoBaseUrls(PROXY_RELEASES, FEDORA_UPDATES, 1, p, PROXY_UPDATES);
    DifferentEnds(NewLine(PROXY_RELEASES), FEDORA_UPDATES, PROXY_UPDATES);
  }

  lemma DifferentEnds(x: string, u: string, v: string)
    requires |u| != |v|
    ensures x + NewLine(u) != x + NewLine(v)
  {
  }

  /** A text without white space at its ends and without line ends. */
  predicate Plain(u: string) {
    OneLiner(u) && Trim(u) == u
  }

  lemma PlainUrl(root: string, tree: string)
    requires Visible(root) && Visible(tree) && root != [] && root[0] == 'h' && tree != [] && tree[|tree| - 1] == '/'
    ensures Plain(root + tree)
  {
    var u := root + tree;
    VisibleConcat(root, tree);
    assert !IsWhitespace('h') && !IsWhitespace('/');
    TrimNothing(u);
  }

  lemma RootsAreVisible()
    ensures Visible(FEDORA_ROOT) && |FEDORA_ROOT| == 46 && FEDORA_ROOT[0] == 'h'
    ensures Visible(PROXY_ROOT) && |PROXY_ROOT| == 32 && PROXY_ROOT[0] == 'h'
  {
    var a, b, c, d := "https://dl.", "fedoraproject", ".org/pub/", "fedora/linux/";
    VisibleConcat(a, b);
    VisibleConcat(a + b, c);
    VisibleConcat(a + b + c, d);
    VisibleConcat("https://proxy", ".example/os/");
    VisibleConcat("https://proxy" + ".example/os/", "fedora/");
  }

  lemma FedoraFacts()
    ensures Plain(FEDORA_RELEASES) && Plain(FEDORA_UPDATES) && Plain(PROXY_RELEASES) && Plain(PROXY_UPDATES)
    ensures FedoraMapper(PROXY_RELEASES) == Keep && FedoraMapper(PROXY_UPDATES) == Keep
    ensures FEDORA_RELEASES != FEDORA_UPDATES && |FEDORA_UPDATES| != |PROXY_UPDATES|
  {
    RootsAreVisible();
    hide Trim, FitsLine;
    assert Visible("releases/") && Visible("updates/");
    PlainUrl(FEDORA_ROOT, "releases/");
    PlainUrl(FEDORA_ROOT, "updates/");
    PlainUrl(PROXY_ROOT, "releases/");
    PlainUrl(PROXY_ROOT, "updates/");
  }
}
