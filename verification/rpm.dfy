/**
  The rewriter of RPM `.repo` files, parametric in the URI mapper and in the
  tables that turn a known metalink or mirrorlist into a base URL.
*/
module RpmRewriter {
  import opened AptRewriter
  import opened Text
  import opened Wrappers

  /** What a known discovery URL stands for. */
  type Resolver = string -> Option<string>

  /** The mapper, and the resolvers of the repositories the distribution has. */
  datatype Profile = Profile(mapper: Mapper, fedora: Option<Resolver>, epel: Option<Resolver>, stream: Option<Resolver>)

  // -------------------------------------------------------------------------
  // Lines
  // -------------------------------------------------------------------------

  /** The trimmed key before the first `=`. */
  function Key(line: string): Option<string> {
    var e := Find(line, '=');
    if e < |line| then Some(Trim(line[..e])) else None
  }

  function Value(line: string): string {
    var e := Find(line, '=');
    if e < |line| then Trim(line[e + 1..]) else ""
  }

  predicate IsDiscovery(line: string) {
    Key(line) == Some("metalink") || Key(line) == Some("mirrorlist")
  }

  predicate IsCommented(line: string) {
    StartsWith(TrimStart(line), "#")
  }

  /** The text examined for a base URL: templates in comments count only beside a discovery line. */
  function Candidate(line: string, discovery: bool): string {
    var active := TrimStart(line);
    if discovery && StartsWith(active, "#") then TrimStart(active[1..]) else active
  }

  function BaseUri(line: string, discovery: bool): Option<string> {
    var candidate := Candidate(line, discovery);
    if Key(candidate) == Some("baseurl") then Some(Value(candidate)) else None
  }

  function Found(line: string, discovery: bool, m: Mapper): Mapped {
    var uri := BaseUri(WithoutEnd(line), discovery);
    if uri.Some? then m(uri.value) else Keep
  }

  // -------------------------------------------------------------------------
  // Sections
  // -------------------------------------------------------------------------

  /** The line to replace, if any, and the new base URL. */
  datatype Plan = Fail | Leave | Move(base: Option<nat>, replacement: string)

  predicate HasDiscovery(lines: seq<string>) {
    exists i :: 0 <= i < |lines| && IsDiscovery(lines[i])
  }

  /** The first recognised active base URL from line `i` on, or else the last recognised template. */
  function Chosen(lines: seq<string>, discovery: bool, m: Mapper, i: nat): Plan
    requires i <= |lines|
    decreases |lines| - i
  {
    if i == |lines| then Leave
    else
      match Found(lines[i], discovery, m)
      case Refuse => Fail
      case Keep => Chosen(lines, discovery, m, i + 1)
      case Replace(text) =>
        if !IsCommented(lines[i]) then Move(Some(i), text)
        else
          var later := Chosen(lines, discovery, m, i + 1);
          if later.Leave? then Move(Some(i), text) else later
  }

  /** What the last recognised discovery line among the first `n` stands for. */
  function LastResolved(lines: seq<string>, metalinkOnly: bool, f: Resolver, n: nat): Option<string>
    requires n <= |lines|
  {
    if n == 0 then None
    else
      var line := WithoutEnd(lines[n - 1]);
      if (if metalinkOnly then Key(line) == Some("metalink") else IsDiscovery(line)) && f(Value(line)).Some?
      then f(Value(line))
      else LastResolved(lines, metalinkOnly, f, n - 1)
  }

  function Resolved(lines: seq<string>, metalinkOnly: bool, f: Option<Resolver>): Option<string> {
    if f.Some? then LastResolved(lines, metalinkOnly, f.value, |lines|) else None
  }

  function PlanOf(lines: seq<string>, p: Profile): Plan {
    var chosen := Chosen(lines, HasDiscovery(lines), p.mapper, 0);
    if !chosen.Leave? then chosen
    else if Resolved(lines, false, p.fedora).Some? then Move(None, Resolved(lines, false, p.fedora).value)
    else if Resolved(lines, false, p.epel).Some? then Move(None, Resolved(lines, false, p.epel).value)
    else if Resolved(lines, true, p.stream).Some? then Move(None, Resolved(lines, true, p.stream).value)
    else Leave
  }

  function NewLine(replacement: string): string {
    "baseurl=" + replacement + "\n"
  }

  /** What one line of a rewritten section becomes. */
  function OutText(line: string, i: nat, base: Option<nat>, replacement: string): string {
    if base == Some(i) then NewLine(replacement)
    else if IsDiscovery(line) then "#" + line + (if base.None? then NewLine(replacement) else "")
    else line
  }

  function SectionText(lines: seq<string>, base: Option<nat>, replacement: string, n: nat): string
    requires n <= |lines|
  {
    if n == 0 then ""
    else SectionText(lines, base, replacement, n - 1) + OutText(lines[n - 1], n - 1, base, replacement)
  }

  /** The specification of one section. */
  function SectionOut(content: string, p: Profile): Option<string> {
    var lines := Lines(content);
    match PlanOf(lines, p)
    case Fail => None
    case Leave => Some(content)
    case Move(base, replacement) => Some(SectionText(lines, base, replacement, |lines|))
  }

  // -------------------------------------------------------------------------
  // Files
  // -------------------------------------------------------------------------

  predicate IsHeader(line: string) {
    StartsWith(TrimStart(line), "[")
  }

  /** Where the section that holds line `i - 1` ends. */
  function SectionEnd(lines: seq<string>, i: nat): (j: nat)
    requires i <= |lines|
    ensures i <= j <= |lines|
    decreases |lines| - i
  {
    if i == |lines| || IsHeader(lines[i]) then i else SectionEnd(lines, i + 1)
  }

  /** The sections from line `i` on, each rewritten by itself. */
  function RewrittenFrom(lines: seq<string>, i: nat, p: Profile): Option<string>
    requires i <= |lines|
    decreases |lines| - i
  {
    if i == |lines| then Some("")
    else
      var j := SectionEnd(lines, i + 1);
      Append(SectionOut(Join(lines[i..j]), p), RewrittenFrom(lines, j, p))
  }

  function RewrittenRpm(content: string, p: Profile): Option<string> {
    RewrittenFrom(Lines(content), 0, p)
  }

  // -------------------------------------------------------------------------
  // The loops
  // -------------------------------------------------------------------------

  lemma EndHasNoEquals(line: string)
    ensures Key(WithoutEnd(line)) == Key(line)
  {
    hide WithoutEnd, Trim;
    EndIsLineEnd(line);
    var s := WithoutEnd(line);
    var e := Find(s, '=');
    if e < |s| {
      FindIs(line, '=', e);
      assert s[..e] == line[..e];
    } else {
      FindIs(line, '=', |line|);
    }
  }

  lemma DiscoveryIgnoresEnd(line: string)
    ensures IsDiscovery(WithoutEnd(line)) == IsDiscovery(line)
  {
    EndHasNoEquals(line);
  }

  method ChooseBase(lines: seq<string>, discovery: bool, m: Mapper) returns (plan: Plan)
    ensures plan == Chosen(lines, discovery, m, 0)
  {
    hide Found, IsCommented;
    plan := Leave;
    var i := 0;
    while i < |lines|
      invariant 0 <= i <= |lines| && !plan.Fail?
      invariant var rest := Chosen(lines, discovery, m, i);
                Chosen(lines, discovery, m, 0) == if rest.Leave? then plan else rest
    {
      match Found(lines[i], discovery, m) {
        case Refuse => return Fail;
        case Keep =>
        case Replace(text) =>
          plan := Move(Some(i), text);
          if !IsCommented(lines[i]) {
            return plan;
          }
      }
      i := i + 1;
    }
  }

  method Resolve(lines: seq<string>, metalinkOnly: bool, f: Resolver) returns (r: Option<string>)
    ensures r == LastResolved(lines, metalinkOnly, f, |lines|)
  {
    hide IsDiscovery, Key, Value, WithoutEnd;
    r := None;
    for i := 0 to |lines|
      invariant r == LastResolved(lines, metalinkOnly, f, i)
    {
      var line := WithoutEnd(lines[i]);
      if metalinkOnly {
        if Key(line) != Some("metalink") {
          continue;
        }
      } else if !IsDiscovery(line) {
        continue;
      }
      var resolved := f(Value(line));
      if resolved.Some? {
        r := resolved;
      }
    }
  }

  /** `rpm_section`. */
  method RpmSection(content: string, p: Profile) returns (r: Option<string>)
    ensures r == SectionOut(content, p)
  {
    hide Chosen, IsDiscovery, LastResolved, OutText, Lines;
    var lines := Lines(content);
    forall i | 0 <= i < |lines| ensures IsDiscovery(WithoutEnd(lines[i])) == IsDiscovery(lines[i]) {
      DiscoveryIgnoresEnd(lines[i]);
    }
    var discovery := exists i :: 0 <= i < |lines| && IsDiscovery(WithoutEnd(lines[i]));
    assert discovery == HasDiscovery(lines);
    var plan := ChooseBase(lines, discovery, p.mapper);
    if plan.Fail? {
      return None;
    }
    var base, replacement := None, None;
    if plan.Move? {
      base, replacement := plan.base, Some(plan.replacement);
    }
    if replacement.None? && p.fedora.Some? {
      replacement := Resolve(lines, false, p.fedora.value);
    }
    if replacement.None? && p.epel.Some? {
      replacement := Resolve(lines, false, p.epel.value);
    }
    if replacement.None? && p.stream.Some? {
      replacement := Resolve(lines, true, p.stream.value);
    }
    if replacement.None? {
      return Some(content);
    }
    assert PlanOf(lines, p) == Move(base, replacement.value);
    var result := WriteSection(lines, base, replacement.value);
    return Some(result);
  }

  method WriteSection(lines: seq<string>, base: Option<nat>, replacement: string) returns (result: string)
    ensures result == SectionText(lines, base, replacement, |lines|)
  {
    hide IsDiscovery, NewLine;
    result := "";
    for i := 0 to |lines|
      invariant result == SectionText(lines, base, replacement, i)
    {
      ghost var before := result;
      if base == Some(i) {
        result := result + NewLine(replacement);
      } else if IsDiscovery(lines[i]) {
        result := result + "#";
        result := result + lines[i];
        if base.None? {
          result := result + NewLine(replacement);
          Associate(before, "#", lines[i], NewLine(replacement));
        } else {
          assert result + "" == result;
          Associate(before, "#", lines[i], "");
        }
      } else {
        result := result + lines[i];
      }
    }
  }

  lemma Associate(a: string, b: string, c: string, d: string)
    ensures a + b + c + d == a + (b + c + d)
  {
  }

  lemma SectionBounds(lines: seq<string>, a: nat, b: nat)
    requires a <= b <= |lines| && (b < |lines| ==> IsHeader(lines[b])) && forall k :: a <= k < b ==> !IsHeader(lines[k])
    ensures SectionEnd(lines, a) == b
    decreases b - a
  {
    hide IsHeader;
    if a < b {
      SectionBounds(lines, a + 1, b);
    }
  }

  lemma NextSection(lines: seq<string>, a: nat, b: nat, p: Profile, result: string)
    requires a < b <= |lines| && SectionEnd(lines, a + 1) == b
    ensures var out := SectionOut(Join(lines[a..b]), p);
            Append(Some(result), RewrittenFrom(lines, a, p)) ==
            if out.Some? then Append(Some(result + out.value), RewrittenFrom(lines, b, p)) else None
  {
    hide SectionOut, Join;
    AppendAssociative(Some(result), SectionOut(Join(lines[a..b]), p), RewrittenFrom(lines, b, p));
  }

  lemma NoMoreSections(lines: seq<string>, p: Profile, result: string)
    ensures Append(Some(result), RewrittenFrom(lines, |lines|, p)) == Some(result)
  {
    assert result + "" == result;
  }

  lemma JoinOneMore(lines: seq<string>, a: nat, i: nat)
    requires a <= i < |lines|
    ensures Join(lines[a..i + 1]) == Join(lines[a..i]) + lines[i]
  {
    assert lines[a..i + 1] == lines[a..i] + [lines[i]];
    JoinSnoc(lines[a..i], lines[i]);
  }

  /** `rewrite_rpm`. */
  method RewriteRpm(content: string, p: Profile) returns (r: Option<string>)
    ensures r == RewrittenRpm(content, p)
  {
    hide IsHeader, SectionOut, Lines, Join, RewrittenFrom, Append, SectionEnd;
    var lines := Lines(content);
    var result := "";
    var section := "";
    ghost var a := 0;
    JoinNothing();
    LinesAreLines(content);
    AppendToNothing(RewrittenFrom(lines, 0, p));
    for i := 0 to |lines|
      invariant a <= i && (i > 0 ==> a < i && section != "")
      invariant section == Join(lines[a..i])
      invariant forall k :: a < k < i ==> !IsHeader(lines[k])
      invariant RewrittenRpm(content, p) == Append(Some(result), RewrittenFrom(lines, a, p))
    {
      assert IsLine(lines[i]);
      if IsHeader(lines[i]) && section != "" {
        SectionBounds(lines, a + 1, i);
        NextSection(lines, a, i, p, result);
        var out := RpmSection(section, p);
        if out.None? {
          return None;
        }
        result := result + out.value;
        section := "";
        a := i;
        assert lines[a..i] == [];
      }
      JoinOneMore(lines, a, i);
      section := section + lines[i];
    }
    var out := RpmSection(section, p);
    if lines == [] {
      EmptySection(p);
      assert result + "" == result;
    } else {
      SectionBounds(lines, a + 1, |lines|);
      NextSection(lines, a, |lines|, p, result);
    }
    if out.None? {
      return None;
    }
    NoMoreSections(lines, p, result + out.value);
    return Some(result + out.value);
  }

  lemma JoinNothing()
    ensures Join([]) == ""
  {
  }

  lemma EmptySection(p: Profile)
    ensures SectionOut("", p) == Some("")
  {
    assert Lines("") == [];
  }
}
