/** Which configured upstream group a request belongs to, and its expansion into candidates. */
module Upstreams {
  import opened Text
  import opened Wrappers

  /** A parsed URL, with the port it uses. */
  datatype Endpoint = Endpoint(scheme: string, host: Option<string>, port: Option<nat>, path: string,
                               query: Option<string>)

  /** The endpoints of one group in configured order; `None` where the text does not parse. */
  type Group = seq<Option<Endpoint>>

  /** Paths of parsed HTTP URLs start with a slash. */
  predicate IsUrl(e: Endpoint) {
    e.path != [] && e.path[0] == '/'
  }

  predicate SameServer(a: Endpoint, b: Endpoint) {
    a.scheme == b.scheme && a.host == b.host && a.port == b.port
  }

  /** `upstream_path_suffix`. */
  function Suffix(primary: Endpoint, requested: Endpoint): Option<string> {
    if !SameServer(primary, requested) then None
    else
      var base := TrimSlashes(primary.path);
      if !StartsWith(requested.path, base) then None
      else
        var suffix := requested.path[|base|..];
        if suffix == "" || suffix[0] == '/' then Some(suffix) else None
  }

  /** Setting an empty path of an HTTP URL leaves the root. */
  function SetPath(path: string): string {
    if path == "" then "/" else path
  }

  function Rebased(e: Endpoint, suffix: string, query: Option<string>): Endpoint {
    e.(path := SetPath(TrimSlashes(e.path) + suffix), query := query)
  }

  /** The endpoints that parse, in order. */
  function Parsed(group: Group): seq<Endpoint> {
    if group == [] then []
    else (if group[0].Some? then [group[0].value] else []) + Parsed(group[1..])
  }

  predicate HasPrimary(group: Group) {
    group != [] && group[0].Some?
  }

  predicate Matching(group: Group, requested: Endpoint) {
    HasPrimary(group) && Suffix(group[0].value, requested).Some?
  }

  function Expansion(group: Group, requested: Endpoint): seq<Endpoint>
    requires Matching(group, requested)
  {
    var endpoints := Parsed(group);
    var suffix := Suffix(group[0].value, requested).value;
    seq(|endpoints|, i requires 0 <= i < |endpoints| => Rebased(endpoints[i], suffix, requested.query))
  }

  function Specificity(group: Group): nat
    requires HasPrimary(group)
  {
    |group[0].value.path|
  }

  /** Group `k` matches with the longest primary path, and no earlier group ties with it. */
  ghost predicate IsBest(groups: seq<Group>, requested: Endpoint, k: nat) {
    && k < |groups| && Matching(groups[k], requested)
    && forall j: nat :: j < |groups| && Matching(groups[j], requested) ==>
         && Specificity(groups[j]) <= Specificity(groups[k])
         && (j < k ==> Specificity(groups[j]) < Specificity(groups[k]))
  }

  ghost predicate NoneMatches(groups: seq<Group>, requested: Endpoint) {
    forall j: nat :: j < |groups| ==> !Matching(groups[j], requested)
  }

  method UpstreamCandidates(groups: seq<Group>, requested: Endpoint) returns (candidates: seq<Endpoint>)
    ensures candidates != []
    ensures NoneMatches(groups, requested) ==> candidates == [requested]
    ensures !NoneMatches(groups, requested) ==>
              exists k: nat :: IsBest(groups, requested, k) && candidates == Expansion(groups[k], requested)
  {
    hide Suffix, Parsed;
    var best: Option<(nat, seq<Endpoint>)> := None;
    ghost var chosen := 0;
    for i := 0 to |groups|
      invariant best.None? <==> NoneMatches(groups[..i], requested)
      invariant best.Some? ==> IsBest(groups[..i], requested, chosen) &&
                               best.value == (Specificity(groups[chosen]), Expansion(groups[chosen], requested))
    {
      assert groups[..i + 1] == groups[..i] + [groups[i]];
      if !HasPrimary(groups[i]) {
        continue;
      }
      var primary := groups[i][0].value;
      if Suffix(primary, requested).None? {
        continue;
      }
      var expanded := Expansion(groups[i], requested);
      var specificity := |primary.path|;
      if best.None? || specificity > best.value.0 {
        best := Some((specificity, expanded));
        chosen := i;
      }
    }
    assert groups[..|groups|] == groups;
    if best.Some? && best.value.1 != [] {
      return best.value.1;
    }
    if best.Some? {
      ExpansionStartsWithPrimary(groups[chosen], requested);
    }
    return [requested];
  }

  lemma ExpansionStartsWithPrimary(group: Group, requested: Endpoint)
    requires Matching(group, requested)
    ensures |Expansion(group, requested)| == |Parsed(group)| > 0 && Parsed(group)[0] == group[0].value
  {
  }

  lemma SuffixCompletes(primary: Endpoint, requested: Endpoint)
    requires Suffix(primary, requested).Some?
    ensures TrimSlashes(primary.path) + Suffix(primary, requested).value == requested.path
  {
    hide TrimSlashes;
  }

  /**
    The first candidate reaches the same server, path and query as the request; every candidate is
    its own base path followed by the same suffix, in configured order.
  */
  lemma ExpansionKeepsTheRequest(group: Group, requested: Endpoint)
    requires Matching(group, requested) && IsUrl(requested)
    ensures var candidates := Expansion(group, requested);
            && candidates != [] && SameServer(candidates[0], requested)
            && candidates[0].path == requested.path && candidates[0].query == requested.query
            && |candidates| == |Parsed(group)|
            && var suffix := requested.path[|TrimSlashes(group[0].value.path)|..];
               forall i :: 0 <= i < |candidates| ==>
                 && SameServer(candidates[i], Parsed(group)[i]) && candidates[i].query == requested.query
                 && candidates[i].path ==
                    if TrimSlashes(Parsed(group)[i].path) == "" && suffix == "" then "/"
                    else TrimSlashes(Parsed(group)[i].path) + suffix
  {
    hide TrimSlashes, Parsed;
    ExpansionStartsWithPrimary(group, requested);
    SuffixCompletes(group[0].value, requested);
    var suffix := Suffix(group[0].value, requested).value;
    var candidates := Expansion(group, requested);
    forall i | 0 <= i < |candidates|
      ensures SameServer(candidates[i], Parsed(group)[i]) && candidates[i].query == requested.query
      ensures candidates[i].path == SetPath(TrimSlashes(Parsed(group)[i].path) + suffix)
    {
    }
  }

  /** The request lies below the group's base: the primary path without the slashes at its end. */
  ghost predicate Reaches(primary: Endpoint, requested: Endpoint, suffix: string) {
    && primary.scheme == requested.scheme && primary.host == requested.host && primary.port == requested.port
    && (suffix == "" || suffix[0] == '/')
    && exists base :: IsStem(primary.path, base) && requested.path == base + suffix
  }

  /** A group matches exactly the requests below its base, on its server, up to a path boundary. */
  lemma SuffixIs(primary: Endpoint, requested: Endpoint, suffix: string)
    ensures Suffix(primary, requested) == Some(suffix) <==> Reaches(primary, requested, suffix)
  {
    var base := TrimSlashes(primary.path);
    forall stem ensures IsStem(primary.path, stem) <==> stem == base {
      StemIs(primary.path, stem);
    }
    hide TrimSlashes, IsStem;
    if Suffix(primary, requested) == Some(suffix) {
      assert requested.path == base + suffix;
    }
    if requested.path == base + suffix {
      assert requested.path[|base|..] == suffix;
    }
  }

  /** Two matching groups whose bases have equal length have the same base. */
  lemma EqualBases(a: Endpoint, b: Endpoint, requested: Endpoint)
    requires Suffix(a, requested).Some? && Suffix(b, requested).Some? && |TrimSlashes(a.path)| == |TrimSlashes(b.path)|
    ensures TrimSlashes(a.path) == TrimSlashes(b.path)
  {
    var x, y := TrimSlashes(a.path), TrimSlashes(b.path);
    assert x == requested.path[..|x|] && y == requested.path[..|y|];
  }

  // -------------------------------------------------------------------------
  // When the choice is by longest base
  // -------------------------------------------------------------------------

  function BaseLength(group: Group): nat
    requires HasPrimary(group)
  {
    |TrimSlashes(group[0].value.path)|
  }

  /** How many slashes the primary path is written with at its end. */
  function SpareSlashes(group: Group): nat
    requires HasPrimary(group)
  {
    Specificity(group) - BaseLength(group)
  }

  /** A matching base that is longer than another goes at least one path segment further. */
  lemma LongerBaseIsTwoLonger(a: Endpoint, b: Endpoint, requested: Endpoint)
    requires Suffix(a, requested).Some? && Suffix(b, requested).Some?
    requires |TrimSlashes(a.path)| < |TrimSlashes(b.path)|
    ensures |TrimSlashes(a.path)| + 2 <= |TrimSlashes(b.path)|
    ensures TrimSlashes(a.path) < TrimSlashes(b.path) && TrimSlashes(b.path)[|TrimSlashes(a.path)|] == '/'
  {
    var x, y, path := TrimSlashes(a.path), TrimSlashes(b.path), requested.path;
    assert x == path[..|x|] && y == path[..|y|];
    assert path[|x|..][0] == path[|x|] == y[|x|];
    assert y[..|x|] == x;
  }

  /** A rival with a longer base loses only to a path written with two or more further slashes. */
  lemma LongestBaseUnlessSpareSlashes(groups: seq<Group>, requested: Endpoint, k: nat, j: nat)
    requires IsBest(groups, requested, k) && j < |groups| && Matching(groups[j], requested)
    requires SpareSlashes(groups[k]) <= SpareSlashes(groups[j]) + 1
    ensures BaseLength(groups[j]) <= BaseLength(groups[k])
  {
    hide TrimSlashes;
    if BaseLength(groups[k]) < BaseLength(groups[j]) {
      LongerBaseIsTwoLonger(groups[k][0].value, groups[j][0].value, requested);
    }
  }

  /** The base of `a` is a proper prefix of the base of `b`, up to a path boundary, on the same server. */
  predicate Below(a: Endpoint, b: Endpoint) {
    var x, y := TrimSlashes(a.path), TrimSlashes(b.path);
    SameServer(a, b) && x < y && y[|x|] == '/'
  }

  /** Group `j` is preferred to group `i` wherever both match. */
  predicate Beats(groups: seq<Group>, j: nat, i: nat)
    requires i < |groups| && j < |groups| && HasPrimary(groups[i]) && HasPrimary(groups[j])
  {
    Specificity(groups[j]) > Specificity(groups[i]) || (Specificity(groups[j]) == Specificity(groups[i]) && j < i)
  }

  predicate SameBase(a: Endpoint, b: Endpoint) {
    SameServer(a, b) && TrimSlashes(a.path) == TrimSlashes(b.path)
  }

  /** Some group with the base of `j` is preferred to group `i`. */
  ghost predicate BaseBeats(groups: seq<Group>, j: nat, i: nat)
    requires i < |groups| && j < |groups| && HasPrimary(groups[i]) && HasPrimary(groups[j])
  {
    exists l: nat :: l < |groups| && HasPrimary(groups[l]) &&
                     SameBase(groups[l][0].value, groups[j][0].value) && Beats(groups, l, i)
  }

  /** The base of group `i` is above the base of group `j`. */
  predicate Nested(groups: seq<Group>, i: nat, j: nat) {
    && i < |groups| && j < |groups| && HasPrimary(groups[i]) && HasPrimary(groups[j])
    && Below(groups[i][0].value, groups[j][0].value)
  }

  predicate AreUrls(groups: seq<Group>) {
    forall i :: 0 <= i < |groups| && HasPrimary(groups[i]) ==> IsUrl(groups[i][0].value)
  }

  /** Every base is preferred, in one of its spellings, to all groups with a shorter base above it. */
  ghost predicate WellOrdered(groups: seq<Group>) {
    forall i: nat, j: nat :: Nested(groups, i, j) ==> BaseBeats(groups, j, i)
  }

  /** No matching group has a longer base than group `k`. */
  ghost predicate MostSpecific(groups: seq<Group>, requested: Endpoint, k: nat)
    requires k < |groups| && HasPrimary(groups[k])
  {
    forall j: nat :: j < |groups| && Matching(groups[j], requested) ==> BaseLength(groups[j]) <= BaseLength(groups[k])
  }

  lemma MatchingBelow(groups: seq<Group>, requested: Endpoint, i: nat, j: nat)
    requires i < |groups| && j < |groups| && Matching(groups[i], requested) && Matching(groups[j], requested)
    requires BaseLength(groups[i]) < BaseLength(groups[j])
    ensures Below(groups[i][0].value, groups[j][0].value)
  {
    hide TrimSlashes;
    LongerBaseIsTwoLonger(groups[i][0].value, groups[j][0].value, requested);
  }

  lemma SameBaseMatches(a: Endpoint, b: Endpoint, requested: Endpoint)
    requires SameBase(a, b)
    ensures Suffix(a, requested) == Suffix(b, requested)
  {
    hide TrimSlashes;
  }

  lemma NoneIsLonger(groups: seq<Group>, requested: Endpoint, k: nat, j: nat)
    requires WellOrdered(groups) && IsBest(groups, requested, k) && j < |groups| && Matching(groups[j], requested)
    ensures BaseLength(groups[j]) <= BaseLength(groups[k])
  {
    hide TrimSlashes, Suffix, Below;
    if BaseLength(groups[k]) < BaseLength(groups[j]) {
      MatchingBelow(groups, requested, k, j);
      assert Nested(groups, k, j);
      var l: nat :| l < |groups| && HasPrimary(groups[l]) &&
                    SameBase(groups[l][0].value, groups[j][0].value) && Beats(groups, l, k);
      SameBaseMatches(groups[l][0].value, groups[j][0].value, requested);
    }
  }

  /** Whatever is requested, the chosen group has the longest matching base. */
  ghost predicate ChoosesLongest(groups: seq<Group>) {
    forall requested, k: nat :: IsUrl(requested) && IsBest(groups, requested, k) ==> MostSpecific(groups, requested, k)
  }

  lemma {:induction false} BestExists(groups: seq<Group>, requested: Endpoint, n: nat) returns (k: nat)
    requires n < |groups| && Matching(groups[n], requested)
    ensures IsBest(groups, requested, k)
    decreases |groups|
  {
    hide Suffix;
    var last := |groups| - 1;
    var init := groups[..last];
    if i: nat :| i < last && Matching(groups[i], requested) {
      k := BestExists(init, requested, i);
      if Matching(groups[last], requested) && Specificity(groups[last]) > Specificity(groups[k]) {
        k := last;
      }
      assert forall j :: 0 <= j < last ==> init[j] == groups[j];
    } else {
      k := n;
    }
  }

  /** A request for exactly the base of `b` matches `b`, every base above it, and no longer one. */
  lemma RequestForBase(a: Endpoint, b: Endpoint)
    requires IsUrl(a) && IsUrl(b) && (Below(a, b) || SameBase(a, b))
    ensures Suffix(a, b.(path := TrimSlashes(b.path))).Some?
  {
    var x, y := TrimSlashes(a.path), TrimSlashes(b.path);
    assert y[|x|..] == "" || y[|x|..][0] == '/';
  }

  lemma WellOrderedIsNeeded(groups: seq<Group>, i: nat, j: nat)
    requires AreUrls(groups)
    requires ChoosesLongest(groups)
    requires Nested(groups, i, j)
    ensures BaseBeats(groups, j, i)
  {
    var a, b := groups[i][0].value, groups[j][0].value;
    var requested := b.(path := TrimSlashes(b.path));
    assert TrimSlashes(b.path) <= b.path && IsUrl(requested);
    RequestForBase(a, b);
    RequestForBase(b, b);
    var l := BestExists(groups, requested, j);
    assert MostSpecific(groups, requested, l);
    BestHasBase(groups, requested, l, j);
    assert Beats(groups, l, i);
  }

  lemma BestHasBase(groups: seq<Group>, requested: Endpoint, l: nat, j: nat)
    requires l < |groups| && j < |groups| && Matching(groups[l], requested) && HasPrimary(groups[j])
    requires requested == groups[j][0].value.(path := TrimSlashes(groups[j][0].value.path))
    requires BaseLength(groups[j]) <= BaseLength(groups[l])
    ensures SameBase(groups[l][0].value, groups[j][0].value)
  {
    hide TrimSlashes;
    var x := TrimSlashes(groups[l][0].value.path);
    assert x <= requested.path && |x| == |requested.path|;
  }

  /** The choice is by longest base for every request exactly when the groups are well ordered. */
  lemma LongestBaseAlwaysWins(groups: seq<Group>)
    requires AreUrls(groups)
    ensures ChoosesLongest(groups) <==> WellOrdered(groups)
  {
    hide BaseBeats, Below, Suffix, TrimSlashes;
    if WellOrdered(groups) {
      forall requested, k: nat, j: nat | IsBest(groups, requested, k) && j < |groups| && Matching(groups[j], requested)
        ensures BaseLength(groups[j]) <= BaseLength(groups[k])
      {
        NoneIsLonger(groups, requested, k, j);
      }
    }
    if ChoosesLongest(groups) {
      forall i: nat, j: nat | Nested(groups, i, j) ensures BaseBeats(groups, j, i) {
        WellOrderedIsNeeded(groups, i, j);
      }
    }
  }

  /** In particular, when no path is written with two more slashes at its end than a longer base. */
  lemma EvenSlashesAreWellOrdered(groups: seq<Group>)
    requires forall i: nat, j: nat :: Nested(groups, i, j) ==> SpareSlashes(groups[i]) <= SpareSlashes(groups[j]) + 1
    ensures WellOrdered(groups)
  {
    forall i: nat, j: nat | Nested(groups, i, j) ensures BaseBeats(groups, j, i) {
      var y := TrimSlashes(groups[j][0].value.path);
      assert y[|y| - 1] != '/';
      hide TrimSlashes;
      assert SpareSlashes(groups[i]) <= SpareSlashes(groups[j]) + 1;
      assert BaseLength(groups[i]) + 2 <= BaseLength(groups[j]);
      assert Beats(groups, j, i) && SameBase(groups[j][0].value, groups[j][0].value);
    }
  }

  /** A group written with spare slashes wins over a longer base, because its length counts them. */
  lemma SpareSlashesWin()
    ensures var server := Endpoint("https", Some("h"), Some(443), "/a///", None);
            var short: Group := [Some(server)];
            var long: Group := [Some(server.(path := "/a/b"))];
            var requested := server.(path := "/a/b/c");
            && IsBest([long, short], requested, 1) && Matching(long, requested)
            && BaseLength(short) < BaseLength(long)
  {
    SlashFacts();
    hide TrimSlashes;
    var server := Endpoint("https", Some("h"), Some(443), "/a///", None);
    var requested := server.(path := "/a/b/c");
    assert Suffix(server, requested) == Some("/b/c") && Suffix(server.(path := "/a/b"), requested) == Some("/c");
  }

  lemma SlashFacts()
    ensures TrimSlashes("/a///") == "/a" && TrimSlashes("/a/b") == "/a/b"
    ensures "/a/b/c"[..2] == "/a" && "/a/b/c"[..4] == "/a/b" && "/a/b/c"[2..] == "/b/c" && "/a/b/c"[4..] == "/c"
  {
    assert "/a///"[..4] == "/a//" && "/a//"[..3] == "/a/" && "/a/"[..2] == "/a";
    assert TrimSlashes("/a/") == TrimSlashes("/a");
    assert TrimSlashes("/a//") == TrimSlashes("/a/");
  }
}
