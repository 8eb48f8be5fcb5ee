/**
  RPM `.repo` files in terms of the text alone: which lines are base URLs, templates and discovery lines,
  and what a section becomes.
*/
module RpmFormat {
  import opened AptRewriter
  import opened RpmLaws
  import opened RpmRewriter
  import opened Text
  import opened Wrappers

  // -------------------------------------------------------------------------
  // Lines
  // -------------------------------------------------------------------------

  /** A setting with its white space. */
  ghost predicate Spaced(line: string, a: string, key: string, b: string, c: string, value: string, d: string) {
    && line == (a + key + b) + "=" + (c + value + d)
    && IsBlank(a) && IsBlank(b) && IsBlank(c) && IsBlank(d) && Tight(key) && Tight(value) && '=' !in key
  }

  /** `key = value` with white space anywhere around both, line end included. */
  ghost predicate Setting(line: string, key: string, value: string) {
    exists a, b, c, d :: Spaced(line, a, key, b, c, value, d)
  }

  lemma NoEqualsInBlank(s: string)
    requires IsBlank(s)
    ensures '=' !in s
  {
    assert !IsWhitespace('=');
    hide IsWhitespace;
  }

  lemma SpacedIs(line: string, a: string, key: string, b: string, c: string, value: string, d: string)
    requires Spaced(line, a, key, b, c, value, d)
    ensures '=' in line && Key(line) == Some(key) && Value(line) == value
  {
    NoEqualsInBlank(a);
    NoEqualsInBlank(b);
    EqualsBetween(a + key + b, c + value + d);
    hide Trim, Tight, IsBlank, Key, Value, Find;
    KeyOf(a + key + b, c + value + d);
    TrimOf(a, key, b);
    TrimOf(c, value, d);
  }

  lemma EqualsBetween(left: string, right: string)
    ensures '=' in left + "=" + right
  {
    assert (left + "=" + right)[|left|] == '=';
  }

  lemma AtEquals(text: string, n: nat)
    requires n < |text| && text[n] == '='
    ensures text == text[..n] + "=" + text[n + 1..]
  {
  }

  lemma SplitAtEquals(line: string) returns (left: string, right: string)
    requires '=' in line
    ensures line == left + "=" + right && '=' !in left
    ensures Key(line) == Some(Trim(left)) && Value(line) == Trim(right)
  {
    var e := Find(line, '=');
    AtEquals(line, e);
    left, right := line[..e], line[e + 1..];
    hide Trim, Key, Value, Find;
    KeyOf(left, right);
  }

  lemma PartHasNoEquals(before: string, word: string, after: string)
    requires '=' !in before + word + after
    ensures '=' !in word
  {
    var s := before + word + after;
    assert forall i :: 0 <= i < |word| ==> word[i] == s[|before| + i];
  }

  lemma HasSetting(line: string)
    requires '=' in line
    ensures Key(line).Some? && Setting(line, Key(line).value, Value(line))
  {
    var left, right := SplitAtEquals(line);
    hide Trim, IsWhitespace, Key, Value, Find, Tight, IsBlank;
    var a, b := TrimParts(left);
    var c, d := TrimParts(right);
    PartHasNoEquals(a, Trim(left), b);
    assert Spaced(line, a, Trim(left), b, c, Trim(right), d);
  }

  lemma SettingIs(line: string, key: string, value: string)
    ensures Setting(line, key, value) <==> '=' in line && Key(line) == Some(key) && Value(line) == value
  {
    hide Spaced, Key, Value;
    if a, b, c, d :| Spaced(line, a, key, b, c, value, d) {
      SpacedIs(line, a, key, b, c, value, d);
    }
    if '=' in line {
      HasSetting(line);
    }
  }

  /** A metalink or a mirror list. */
  ghost predicate Discovers(line: string) {
    exists value :: Setting(line, "metalink", value) || Setting(line, "mirrorlist", value)
  }

  lemma DiscoversIs(line: string)
    ensures IsDiscovery(line) <==> Discovers(line)
  {
    hide Setting, Trim;
    if IsDiscovery(line) {
      assert '=' in line;
      SettingIs(line, Key(line).value, Value(line));
    }
    if value :| Setting(line, "metalink", value) || Setting(line, "mirrorlist", value) {
      SettingIs(line, "metalink", value);
      SettingIs(line, "mirrorlist", value);
    }
  }

  /** A line that is not blank and whose first visible character is a hash. */
  ghost predicate Hash(line: string, rest: string) {
    exists lead :: line == lead + ("#" + rest) && IsBlank(lead)
  }

  lemma HashIs(line: string, rest: string)
    ensures Hash(line, rest) <==> IsCommented(line) && TrimStart(line)[1..] == rest
  {
    HashIsNotSpace();
    hide IsWhitespace;
    if lead :| line == lead + ("#" + rest) && IsBlank(lead) {
      StartBehind(lead, "#" + rest);
    }
    if IsCommented(line) && TrimStart(line)[1..] == rest {
      var lead := line[..Run(line, true)];
      assert TrimStart(line) == "#" + TrimStart(line)[1..];
      assert line == lead + TrimStart(line);
    }
  }

  /** An active base URL. */
  ghost predicate Base(line: string, uri: string) {
    Setting(line, "baseurl", uri)
  }

  /** A commented one. */
  ghost predicate Template(line: string, uri: string) {
    exists rest :: Hash(line, rest) && Setting(rest, "baseurl", uri)
  }

  lemma NoKey(s: string)
    requires '=' !in s
    ensures Key(s) == None && Value(s) == ""
  {
    FindIs(s, '=', |s|);
  }

  lemma GroupLead(lead: string, left: string, right: string)
    ensures lead + (left + "=" + right) == (lead + left) + "=" + right
  {
  }

  lemma GroupEnd(left: string, right: string, end: string)
    ensures (left + "=" + right) + end == left + "=" + (right + end)
  {
  }

  lemma NotInBoth(a: string, b: string)
    requires '=' !in a && '=' !in b
    ensures '=' !in a + b
  {
  }

  /** White space in front of a line is no part of its setting. */
  lemma LeadOf(lead: string, rest: string)
    requires IsBlank(lead)
    ensures Key(lead + rest) == Key(rest) && Value(lead + rest) == Value(rest)
  {
    NoEqualsInBlank(lead);
    hide IsWhitespace, Trim, Find, Key, Value;
    if '=' in rest {
      var left, right := SplitAtEquals(rest);
      GroupLead(lead, left, right);
      NotInBoth(lead, left);
      KeyOf(lead + left, right);
      TrimBehind(lead, left);
    } else {
      NotInBoth(lead, rest);
      NoKey(rest);
      NoKey(lead + rest);
    }
  }

  lemma CutStart(line: string)
    ensures line == line[..Run(line, true)] + TrimStart(line) && IsBlank(line[..Run(line, true)])
  {
  }

  lemma LeadIsNoPart(s: string)
    ensures Key(TrimStart(s)) == Key(s) && Value(TrimStart(s)) == Value(s)
  {
    CutStart(s);
    hide Key, Value, TrimStart, Run;
    LeadOf(s[..Run(s, true)], TrimStart(s));
  }

  lemma TrimBehind(lead: string, s: string)
    requires IsBlank(lead)
    ensures Trim(lead + s) == Trim(s)
  {
    hide Trim, IsWhitespace;
    var before, after := TrimParts(s);
    assert lead + s == (lead + before) + Trim(s) + after;
    TrimOf(lead + before, Trim(s), after);
  }

  /** Nor is its end. */
  lemma EndOf(s: string, end: string)
    requires IsBlank(end)
    ensures Value(s + end) == Value(s)
  {
    NoEqualsInBlank(end);
    hide IsWhitespace, Trim, Find, Key, Value;
    if '=' in s {
      var left, right := SplitAtEquals(s);
      GroupEnd(left, right, end);
      KeyOf(left, right + end);
      TrimBefore(right, end);
    } else {
      NotInBoth(s, end);
      NoKey(s);
      NoKey(s + end);
    }
  }

  lemma EndIsNoPart(line: string)
    ensures Key(WithoutEnd(line)) == Key(line) && Value(WithoutEnd(line)) == Value(line)
  {
    EndHasNoEquals(line);
    EndIsBlank(line);
    hide WithoutEnd, IsWhitespace, Key, Value, IsBlank;
    var s := WithoutEnd(line);
    assert line == s + line[|s|..];
    EndOf(s, line[|s|..]);
  }

  lemma TrimBefore(s: string, end: string)
    requires IsBlank(end)
    ensures Trim(s + end) == Trim(s)
  {
    hide Trim, IsWhitespace;
    var before, after := TrimParts(s);
    assert s + end == before + Trim(s) + (after + end);
    TrimOf(before, Trim(s), after + end);
  }

  /** A base URL is active, whether templates count or not. */
  lemma BaseIsFound(line: string, uri: string, discovery: bool, m: Mapper)
    requires Base(line, uri)
    ensures Found(line, discovery, m) == m(uri) && !IsCommented(line)
  {
    BaseStart(line, uri);
    EndKeepsStart(line);
    EndIsNoPart(line);
    SettingIs(line, "baseurl", uri);
    LeadIsNoPart(WithoutEnd(line));
    hide Trim, TrimStart, WithoutEnd, Setting, IsWhitespace, Key, Value;
  }

  lemma BaseStart(line: string, uri: string)
    requires Base(line, uri)
    ensures TrimStart(line) != "" && TrimStart(line)[0] == 'b'
  {
    var a, b, c, d :| Spaced(line, a, "baseurl", b, c, uri, d);
    FirstLetter(line, a, b, c + uri + d);
  }

  lemma FirstLetter(line: string, a: string, b: string, right: string)
    requires line == (a + "baseurl" + b) + "=" + right && IsBlank(a)
    ensures TrimStart(line) != "" && TrimStart(line)[0] == 'b'
  {
    assert !IsWhitespace('b');
    hide IsWhitespace, TrimStart, Run, IsBlank;
    var own := "baseurl" + b + "=" + right;
    GroupBase(a, b, right);
    assert own[0] == 'b';
    StartBehind(a, own);
  }

  lemma GroupBase(a: string, b: string, right: string)
    ensures (a + "baseurl" + b) + "=" + right == a + ("baseurl" + b + "=" + right)
  {
  }

  lemma StartBehind(lead: string, rest: string)
    requires IsBlank(lead) && rest != "" && !IsWhitespace(rest[0])
    ensures TrimStart(lead + rest) == rest && Run(lead + rest, true) == |lead|
  {
    hide IsWhitespace;
    var s := lead + rest;
    assert s[|lead|] == rest[0];
    assert forall i :: 0 <= i < |lead| ==> s[i] == lead[i];
    RunIs(s, true, |lead|);
    assert s[|lead|..] == rest;
  }

  /** What stands first in a line stands first in the line without its end. */
  lemma EndKeepsStart(line: string)
    ensures var s := WithoutEnd(line);
            && TrimStart(s) <= TrimStart(line)
            && (TrimStart(line) != "" ==> TrimStart(s) != "")
  {
    EndIsLineEnd(line);
    assert IsWhitespace('\r') && IsWhitespace('\n');
    hide WithoutEnd, IsWhitespace;
    var s := WithoutEnd(line);
    var n := Run(line, true);
    if n < |s| {
      RunIs(s, true, n);
      assert s[n..] == line[n..|s|];
    } else {
      RunIs(s, true, |s|);
      assert n == |line|;
    }
  }

  lemma TemplateIsFound(line: string, uri: string, m: Mapper)
    requires Template(line, uri)
    ensures Found(line, true, m) == m(uri) && Found(line, false, m) == Keep && IsCommented(line)
  {
    var rest :| Hash(line, rest) && Setting(rest, "baseurl", uri);
    HashIs(line, rest);
    EndOfTemplate(line, rest);
    EndIsNoPart(rest);
    SettingIs(rest, "baseurl", uri);
    LeadIsNoPart(WithoutEnd(rest));
    CommentedIsNoKey("#" + WithoutEnd(rest));
    hide Trim, TrimStart, WithoutEnd, Setting, IsWhitespace, Key, Value, IsCommented, Hash;
    CandidateOf(WithoutEnd(line), WithoutEnd(rest));
  }

  lemma CandidateOf(s: string, rest: string)
    requires TrimStart(s) == "#" + rest
    ensures Candidate(s, true) == TrimStart(rest) && Candidate(s, false) == "#" + rest
  {
    assert ("#" + rest)[1..] == rest;
    hide TrimStart;
  }

  lemma CommentedIsNoKey(s: string)
    requires s != "" && s[0] == '#'
    ensures Key(s) != Some("baseurl")
  {
    CommentIsInert(s);
    HashIsNotSpace();
    TrimHead(s);
    hide Trim, IsWhitespace, Key;
  }

  /** The end of a template is the end of what follows the hash. */
  lemma EndOfTemplate(line: string, rest: string)
    requires Hash(line, rest)
    ensures TrimStart(WithoutEnd(line)) == "#" + WithoutEnd(rest)
  {
    var lead :| line == lead + ("#" + rest) && IsBlank(lead);
    HashIsNotSpace();
    hide IsWhitespace, WithoutEnd, TrimStart, Run, IsBlank;
    EndBehind(lead + "#", rest);
    SameGrouping(lead, "#", rest);
    SameGrouping(lead, "#", WithoutEnd(rest));
    StartBehind(lead, "#" + WithoutEnd(rest));
  }

  lemma SameGrouping(a: string, b: string, c: string)
    ensures (a + b) + c == a + (b + c)
  {
  }

  lemma EndBehind(head: string, rest: string)
    requires head != "" && head[|head| - 1] == '#'
    ensures WithoutEnd(head + rest) == head + WithoutEnd(rest)
  {
    SuffixBehind(head, rest, "\n");
    SuffixBehind(head, rest, "\r\n");
    hide EndsWith;
  }

  lemma SuffixBehind(head: string, rest: string, suffix: string)
    requires head != "" && head[|head| - 1] == '#' && suffix != "" && '#' !in suffix
    ensures EndsWith(head + rest, suffix) <==> EndsWith(rest, suffix)
  {
    var s := head + rest;
    if |suffix| <= |rest| {
      assert s[|s| - |suffix|..] == rest[|rest| - |suffix|..];
    } else if |suffix| <= |s| {
      assert s[|s| - |suffix|..][|suffix| - |rest| - 1] == s[|head| - 1] == '#';
    }
  }

  /** Every other line is passed over. */
  lemma OtherIsNotFound(line: string, discovery: bool, m: Mapper)
    requires forall uri :: !Base(line, uri)
    requires discovery ==> forall uri :: !Template(line, uri)
    ensures Found(line, discovery, m) == Keep
  {
    hide Base, Template, Trim, TrimStart, WithoutEnd, IsWhitespace, Key, Value;
    var s := WithoutEnd(line);
    if BaseUri(s, discovery).Some? {
      var uri := BaseUri(s, discovery).value;
      if discovery && StartsWith(TrimStart(s), "#") {
        CandidateIsTemplate(line, uri);
      } else {
        CandidateIsBase(line, uri);
      }
      assert false;
    }
  }

  lemma CandidateIsBase(line: string, uri: string)
    requires Key(TrimStart(WithoutEnd(line))) == Some("baseurl") && Value(TrimStart(WithoutEnd(line))) == uri
    ensures Base(line, uri)
  {
    hide Trim, TrimStart, WithoutEnd;
    LeadIsNoPart(WithoutEnd(line));
    EndIsNoPart(line);
    SettingIs(line, "baseurl", uri);
  }

  lemma CandidateIsTemplate(line: string, uri: string)
    requires var active := TrimStart(WithoutEnd(line));
             && StartsWith(active, "#")
             && Key(TrimStart(active[1..])) == Some("baseurl") && Value(TrimStart(active[1..])) == uri
    ensures Template(line, uri)
  {
    hide Trim, TrimStart, WithoutEnd, Setting, Key, Value;
    EndKeepsStart(line);
    var rest := TrimStart(line)[1..];
    HashIs(line, rest);
    EndOfTemplate(line, rest);
    LeadIsNoPart(WithoutEnd(rest));
    EndIsNoPart(rest);
    HasEquals(rest);
    SettingIs(rest, "baseurl", uri);
  }

  lemma HasEquals(s: string)
    ensures Key(s).Some? ==> '=' in s
  {
  }

  // -------------------------------------------------------------------------
  // Sections
  // -------------------------------------------------------------------------

  /** The section has a metalink or a mirror list, so that its commented base URLs count as templates. */
  ghost predicate Listed(lines: seq<string>) {
    exists i :: 0 <= i < |lines| && Discovers(lines[i])
  }

  lemma ListedIs(lines: seq<string>)
    ensures HasDiscovery(lines) <==> Listed(lines)
  {
    hide IsDiscovery, Discovers;
    forall i | 0 <= i < |lines| ensures IsDiscovery(lines[i]) <==> Discovers(lines[i]) {
      DiscoversIs(lines[i]);
    }
  }

  /** The mapper is asked about `uri` when it comes to this line. */
  ghost predicate Examined(line: string, listed: bool, uri: string) {
    Base(line, uri) || (listed && Template(line, uri))
  }

  lemma ExaminedIsFound(line: string, listed: bool, uri: string, m: Mapper)
    requires Examined(line, listed, uri)
    ensures Found(line, listed, m) == m(uri) && (IsCommented(line) <==> !Base(line, uri))
  {
    hide Base, Template, Found, IsCommented;
    if Base(line, uri) {
      BaseIsFound(line, uri, listed, m);
    } else {
      TemplateIsFound(line, uri, m);
    }
  }

  /** What the code finds on a line is what the mapper says of the URI the line is examined for. */
  lemma FoundIsExamined(line: string, listed: bool, m: Mapper)
    ensures forall uri :: Examined(line, listed, uri) ==> Found(line, listed, m) == m(uri)
    ensures Found(line, listed, m) != Keep ==> exists uri :: Examined(line, listed, uri)
  {
    hide Base, Template, Found;
    forall uri | Examined(line, listed, uri) ensures Found(line, listed, m) == m(uri) {
      ExaminedIsFound(line, listed, uri, m);
    }
    if forall uri :: !Examined(line, listed, uri) {
      forall uri ensures !Base(line, uri) && (listed ==> !Template(line, uri)) {
        assert !Examined(line, listed, uri);
      }
      OtherIsNotFound(line, listed, m);
    }
  }

  /** An active line is one that holds a base URL itself. */
  lemma ActiveIsBase(line: string, listed: bool, m: Mapper)
    ensures !IsCommented(line) && Found(line, listed, m) != Keep ==> exists uri :: Base(line, uri)
    ensures (exists uri :: Base(line, uri)) ==> !IsCommented(line)
  {
    hide Base, Template, Found, IsCommented;
    FoundIsExamined(line, listed, m);
    if Found(line, listed, m) != Keep {
      var uri :| Examined(line, listed, uri);
      ExaminedIsFound(line, listed, uri, m);
    }
    if uri :| Base(line, uri) {
      BaseIsFound(line, uri, listed, m);
    }
  }

  /** One line of a rewritten section: a new base URL, a commented discovery line, or the line itself. */
  ghost function OutLine(line: string, replaced: bool, added: bool, text: string): string {
    if replaced then "baseurl=" + text + "\n"
    else if Discovers(line) then "#" + line + (if added then "baseurl=" + text + "\n" else "")
    else line
  }

  ghost function Outs(lines: seq<string>, base: Option<nat>, text: string): (outs: seq<string>)
    ensures |outs| == |lines|
  {
    seq(|lines|, i requires 0 <= i < |lines| => OutLine(lines[i], base == Some(i), base == None, text))
  }

  lemma {:induction false} SectionTextIs(lines: seq<string>, base: Option<nat>, text: string, n: nat)
    requires n <= |lines|
    ensures SectionText(lines, base, text, n) == Join(Outs(lines, base, text)[..n])
  {
    hide OutText, OutLine, Join;
    var outs := Outs(lines, base, text);
    if n == 0 {
      assert outs[..0] == [];
      JoinNothing();
    } else {
      SectionTextIs(lines, base, text, n - 1);
      OutTextIs(lines[n - 1], n - 1, base, text);
      assert outs[..n] == outs[..n - 1] + [outs[n - 1]];
      JoinSnoc(outs[..n - 1], outs[n - 1]);
    }
  }

  lemma OutTextIs(line: string, i: nat, base: Option<nat>, text: string)
    ensures OutText(line, i, base, text) == OutLine(line, base == Some(i), base == None, text)
  {
    DiscoversIs(line);
    hide IsDiscovery, Discovers;
  }

  lemma MovedSection(content: string, p: Profile, base: Option<nat>, text: string)
    requires PlanOf(Lines(content), p) == Move(base, text)
    ensures SectionOut(content, p) == Some(Join(Outs(Lines(content), base, text)))
  {
    hide PlanOf, SectionText, Outs, Lines, Join;
    var lines := Lines(content);
    SectionTextIs(lines, base, text, |lines|);
    var outs := Outs(lines, base, text);
    assert outs[..|lines|] == outs;
  }

  /** What the mapper says of an active line, or of a template where they count. */
  ghost predicate BasesKept(lines: seq<string>, m: Mapper, n: nat)
    requires n <= |lines|
  {
    forall k, u :: 0 <= k < n && Base(lines[k], u) ==> m(u) == Keep
  }

  ghost predicate NotRefused(lines: seq<string>, m: Mapper, n: nat)
    requires n <= |lines|
  {
    forall k, u :: 0 <= k < n && Examined(lines[k], Listed(lines), u) ==> m(u) != Refuse
  }

  lemma FoundBefore(lines: seq<string>, m: Mapper, n: nat)
    requires n <= |lines| && BasesKept(lines, m, n) && NotRefused(lines, m, n)
    ensures forall k :: 0 <= k < n ==>
              Found(lines[k], Listed(lines), m) != Refuse && !ActiveMatch(lines, Listed(lines), m, k)
  {
    hide Base, Examined, Found, IsCommented, Listed;
    forall k | 0 <= k < n
      ensures Found(lines[k], Listed(lines), m) != Refuse && !ActiveMatch(lines, Listed(lines), m, k)
    {
      FoundIsExamined(lines[k], Listed(lines), m);
      ActiveIsBase(lines[k], Listed(lines), m);
      if u :| Base(lines[k], u) {
        BaseIsFound(lines[k], u, Listed(lines), m);
      }
    }
  }

  /** The first active base URL that the mapper recognises is replaced, unless a line before it is refused. */
  lemma BaseIsReplaced(content: string, p: Profile, i: nat, uri: string, text: string)
    requires i < |Lines(content)| && Base(Lines(content)[i], uri) && p.mapper(uri) == Replace(text)
    requires BasesKept(Lines(content), p.mapper, i) && NotRefused(Lines(content), p.mapper, i)
    ensures SectionOut(content, p) == Some(Join(Outs(Lines(content), Some(i), text)))
  {
    hide Base, Found, IsCommented, Listed, Lines, Chosen, SectionOut, Join, Outs, HasDiscovery, BasesKept, NotRefused;
    var lines, m := Lines(content), p.mapper;
    ListedIs(lines);
    BaseIsFound(lines[i], uri, Listed(lines), m);
    FoundBefore(lines, m, i);
    ChosenIs(lines, Listed(lines), m, 0);
    assert ActiveMatch(lines, Listed(lines), m, i);
    assert PlanOf(lines, p) == Move(Some(i), text);
    MovedSection(content, p, Some(i), text);
  }

  /** Without one, the last template that it recognises is, where templates count. */
  lemma TemplateIsReplaced(content: string, p: Profile, i: nat, uri: string, text: string)
    requires var lines := Lines(content);
             && i < |lines| && Listed(lines) && Template(lines[i], uri) && p.mapper(uri) == Replace(text)
             && BasesKept(lines, p.mapper, |lines|) && NotRefused(lines, p.mapper, |lines|)
             && forall k, u :: i < k < |lines| && Template(lines[k], u) ==> p.mapper(u) == Keep
    ensures SectionOut(content, p) == Some(Join(Outs(Lines(content), Some(i), text)))
  {
    hide Base, Template, Found, IsCommented, Listed, Lines, Chosen, SectionOut, Join, Outs, HasDiscovery, NotRefused;
    var lines, m := Lines(content), p.mapper;
    ListedIs(lines);
    TemplateIsFound(lines[i], uri, m);
    FoundBefore(lines, m, |lines|);
    forall k | i < k < |lines| ensures Found(lines[k], true, m) == Keep {
      FoundIsExamined(lines[k], true, m);
    }
    ChosenIs(lines, true, m, 0);
    assert PlanOf(lines, p) == Move(Some(i), text);
    MovedSection(content, p, Some(i), text);
  }

  /** Line `k` is refused, and no line before it is an active match. */
  ghost predicate RefusedAt(lines: seq<string>, m: Mapper, k: nat)
    requires k < |lines|
  {
    && (exists u :: Examined(lines[k], Listed(lines), u) && m(u) == Refuse)
    && forall j, v :: 0 <= j < k && Base(lines[j], v) ==> !m(v).Replace?
  }

  lemma RefusedAtIs(lines: seq<string>, m: Mapper, k: nat)
    requires k < |lines|
    ensures RefusedAt(lines, m, k) <==>
            Found(lines[k], Listed(lines), m) == Refuse &&
            forall j :: 0 <= j < k ==> !ActiveMatch(lines, Listed(lines), m, j)
  {
    hide Base, Examined, Found, IsCommented, Listed;
    FoundIsExamined(lines[k], Listed(lines), m);
    forall j | 0 <= j < k
      ensures ActiveMatch(lines, Listed(lines), m, j) <==> exists v :: Base(lines[j], v) && m(v).Replace?
    {
      MatchIs(lines, m, j);
    }
  }

  lemma FailsAt(lines: seq<string>, discovery: bool, m: Mapper)
    ensures Chosen(lines, discovery, m, 0) == Fail <==>
            exists k :: 0 <= k < |lines| && Found(lines[k], discovery, m) == Refuse &&
                        forall j :: 0 <= j < k ==> !ActiveMatch(lines, discovery, m, j)
  {
    hide Found, IsCommented, Chosen;
    ChosenIs(lines, discovery, m, 0);
    match Chosen(lines, discovery, m, 0)
    case Fail =>
      var k: nat :| k < |lines| && Found(lines[k], discovery, m).Refuse? && PassedOver(lines, discovery, m, 0, k);
      assert forall j: nat :: j < k ==> !ActiveMatch(lines, discovery, m, j);
    case Leave =>
    case Move(base, _) =>
      forall k | 0 <= k < |lines| && Found(lines[k], discovery, m) == Refuse
        ensures exists j :: 0 <= j < k && ActiveMatch(lines, discovery, m, j)
      {
        assert base.value < k;
        assert ActiveMatch(lines, discovery, m, base.value);
      }
  }

  lemma NoneMeansFail(content: string, p: Profile)
    ensures var lines := Lines(content);
            SectionOut(content, p) == None <==> Chosen(lines, HasDiscovery(lines), p.mapper, 0) == Fail
  {
    hide Lines, Chosen, HasDiscovery, SectionText, Resolved;
  }

  /** The section, and with it the file, is refused exactly when a line is that no active match precedes. */
  lemma RefusedExactly(content: string, p: Profile)
    ensures var lines := Lines(content);
            SectionOut(content, p) == None <==> exists k :: 0 <= k < |lines| && RefusedAt(lines, p.mapper, k)
  {
    hide *;
    var lines, m := Lines(content), p.mapper;
    NoneMeansFail(content, p);
    ListedIs(lines);
    FailsAt(lines, Listed(lines), m);
    if k :| 0 <= k < |lines| && RefusedAt(lines, m, k) {
      RefusedAtIs(lines, m, k);
    }
    if SectionOut(content, p) == None {
      var k :| 0 <= k < |lines| && Found(lines[k], Listed(lines), m) == Refuse &&
               forall j :: 0 <= j < k ==> !ActiveMatch(lines, Listed(lines), m, j);
      RefusedAtIs(lines, m, k);
    }
  }

  lemma MatchIs(lines: seq<string>, m: Mapper, k: nat)
    requires k < |lines|
    ensures ActiveMatch(lines, Listed(lines), m, k) <==> exists v :: Base(lines[k], v) && m(v).Replace?
  {
    hide Base, Found, IsCommented, Listed;
    ActiveIsBase(lines[k], Listed(lines), m);
    forall v | Base(lines[k], v) ensures Found(lines[k], Listed(lines), m) == m(v) {
      BaseIsFound(lines[k], v, Listed(lines), m);
    }
  }

  /** The line names `value` as its metalink or, unless only those count, as its mirror list. */
  ghost predicate Announces(line: string, metalinkOnly: bool, value: string) {
    Setting(line, "metalink", value) || (!metalinkOnly && Setting(line, "mirrorlist", value))
  }

  /** The table's answer: for the last of the first `n` lines about which it has one. */
  ghost predicate LastAnswer(lines: seq<string>, metalinkOnly: bool, f: Resolver, n: nat, answer: Option<string>)
    requires n <= |lines|
  {
    match answer
    case Some(text) =>
      exists j, v :: && 0 <= j < n && Announces(lines[j], metalinkOnly, v) && f(v) == Some(text)
                     && forall k, u :: j < k < n && Announces(lines[k], metalinkOnly, u) ==> f(u) == None
    case None => forall k, u :: 0 <= k < n && Announces(lines[k], metalinkOnly, u) ==> f(u) == None
  }

  lemma AnnouncesIs(line: string, metalinkOnly: bool, value: string)
    ensures var s := WithoutEnd(line);
            Announces(line, metalinkOnly, value) <==>
            && (if metalinkOnly then Key(s) == Some("metalink") else IsDiscovery(s)) && Value(s) == value
  {
    hide Setting, WithoutEnd, Key, Value;
    EndIsNoPart(line);
    HasEquals(line);
    SettingIs(line, "metalink", value);
    SettingIs(line, "mirrorlist", value);
  }

  lemma {:induction false} LastResolvedIs(lines: seq<string>, metalinkOnly: bool, f: Resolver, n: nat)
    requires n <= |lines|
    ensures LastAnswer(lines, metalinkOnly, f, n, LastResolved(lines, metalinkOnly, f, n))
  {
    hide WithoutEnd, Key, Value, IsDiscovery, Announces;
    if n > 0 {
      LastResolvedIs(lines, metalinkOnly, f, n - 1);
      var line := lines[n - 1];
      var v := Value(WithoutEnd(line));
      forall u | Announces(line, metalinkOnly, u) ensures u == v {
        AnnouncesIs(line, metalinkOnly, u);
      }
      AnnouncesIs(line, metalinkOnly, v);
    }
  }

  /** The answer of a table, if the distribution has it. */
  ghost predicate TableAnswer(lines: seq<string>, metalinkOnly: bool, f: Option<Resolver>, answer: Option<string>) {
    if f.Some? then LastAnswer(lines, metalinkOnly, f.value, |lines|, answer) else answer == None
  }

  lemma ResolvedIs(lines: seq<string>, metalinkOnly: bool, f: Option<Resolver>, answer: Option<string>)
    requires TableAnswer(lines, metalinkOnly, f, answer)
    ensures Resolved(lines, metalinkOnly, f) == answer
  {
    if f.Some? {
      LastResolvedIs(lines, metalinkOnly, f.value, |lines|);
      hide Announces, LastResolved;
      AnswersAgree(lines, metalinkOnly, f.value, answer, LastResolved(lines, metalinkOnly, f.value, |lines|));
    }
  }

  lemma AnswersAgree(lines: seq<string>, metalinkOnly: bool, f: Resolver, a: Option<string>, b: Option<string>)
    requires LastAnswer(lines, metalinkOnly, f, |lines|, a) && LastAnswer(lines, metalinkOnly, f, |lines|, b)
    ensures a == b
  {
    forall k, u, v | 0 <= k < |lines| && Announces(lines[k], metalinkOnly, u) && Announces(lines[k], metalinkOnly, v)
      ensures u == v
    {
      AnnouncesIs(lines[k], metalinkOnly, u);
      AnnouncesIs(lines[k], metalinkOnly, v);
    }
    hide Announces;
  }

  /** When the mapper recognises nothing, the first table that knows a discovery line decides, if any. */
  lemma TablesDecide(content: string, p: Profile, fedora: Option<string>, epel: Option<string>,
                     stream: Option<string>)
    requires var lines := Lines(content);
             && (forall k, u :: 0 <= k < |lines| && Examined(lines[k], Listed(lines), u) ==> p.mapper(u) == Keep)
             && TableAnswer(lines, false, p.fedora, fedora) && TableAnswer(lines, false, p.epel, epel)
             && TableAnswer(lines, true, p.stream, stream)
    ensures SectionOut(content, p) ==
            if fedora.Some? then Some(Join(Outs(Lines(content), None, fedora.value)))
            else if epel.Some? then Some(Join(Outs(Lines(content), None, epel.value)))
            else if stream.Some? then Some(Join(Outs(Lines(content), None, stream.value)))
            else Some(content)
  {
    hide Examined, Found, Listed, Lines, Chosen, HasDiscovery, Resolved, TableAnswer, SectionText, Join, Outs;
    var lines := Lines(content);
    ListedIs(lines);
    forall k | 0 <= k < |lines| ensures Found(lines[k], Listed(lines), p.mapper) == Keep {
      FoundIsExamined(lines[k], Listed(lines), p.mapper);
    }
    ChosenIs(lines, Listed(lines), p.mapper, 0);
    ResolvedIs(lines, false, p.fedora, fedora);
    ResolvedIs(lines, false, p.epel, epel);
    ResolvedIs(lines, true, p.stream, stream);
    var plan := PlanOf(lines, p);
    if plan.Move? {
      MovedSection(content, p, plan.base, plan.replacement);
    }
  }

  /** In a rewritten section no line starts a metalink or a mirror list any more. */
  lemma NothingIsListed(lines: seq<string>, base: Option<nat>, text: string)
    requires AreLines(lines) && FitsLine(text)
    ensures forall line :: line in Lines(Join(Outs(lines, base, text))) ==> !Discovers(line)
  {
    hide Discovers, IsDiscovery, FitsLine, Outs, AreLines, Lines, SectionText, Join;
    NoDiscoveryRemains(lines, base, text);
    SectionTextIs(lines, base, text, |lines|);
    var outs := Outs(lines, base, text);
    assert outs[..|lines|] == outs;
    forall line ensures IsDiscovery(line) <==> Discovers(line) {
      DiscoversIs(line);
    }
  }

  /** White space, and then a bracket. */
  ghost predicate Bracketed(line: string, lead: string, rest: string) {
    line == lead + ("[" + rest) && IsBlank(lead)
  }

  lemma CutBracket(own: string)
    requires StartsWith(own, "[")
    ensures own == "[" + own[1..]
  {
  }

  lemma HasBracket(line: string)
    requires IsHeader(line)
    ensures Bracketed(line, line[..Run(line, true)], TrimStart(line)[1..])
  {
    CutStart(line);
    hide IsWhitespace, Run, TrimStart, StartsWith;
    CutBracket(TrimStart(line));
  }

  /** A section begins at a line whose first visible character is a bracket. */
  lemma HeaderIs(line: string)
    ensures IsHeader(line) <==> exists lead, rest :: Bracketed(line, lead, rest)
  {
    assert !IsWhitespace('[');
    hide IsWhitespace, TrimStart, Run;
    if lead, rest :| Bracketed(line, lead, rest) {
      StartBehind(lead, "[" + rest);
    }
    if IsHeader(line) {
      HasBracket(line);
    }
  }
}
