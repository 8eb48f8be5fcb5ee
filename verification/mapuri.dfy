/**
  The URI mapper of a system migration: the longest declared root of the address
  decides which repository of the gateway serves it. URLs arrive parsed, and the
  tables of repositories and mirror hosts are parameters.
*/
module UriMapper {
  import opened AptRewriter
  import opened Text
  import opened Wrappers

  const USIZE_MAX: nat := 0xffff_ffff_ffff_ffff

  datatype Repository = Repository(key: string, upstream: string, aliases: seq<string>, mirrorPath: string)

  datatype Url = Url(scheme: string, username: string, password: Option<string>, host: Option<string>,
                     port: Option<nat>, path: string, query: Option<string>, fragment: Option<string>)

  /** A root that matched: its length, its repository, and what follows it in the address. */
  datatype Candidate = Candidate(length: nat, key: string, suffix: string)

  /** The repositories of the profile, and whether a suite selects the archives. */
  datatype Context = Context(repositories: seq<Repository>, hosts: seq<string>, archiveDebian: bool,
                             archiveUbuntu: bool)

  // -------------------------------------------------------------------------
  // Roots
  // -------------------------------------------------------------------------

  predicate AtBoundary(suffix: string) {
    suffix == "" || suffix[0] in {'/', '?', '#'}
  }

  predicate Matches(root: string, address: string) {
    root <= address && AtBoundary(address[|root|..])
  }

  function Layouts(r: Repository): seq<string> {
    [r.mirrorPath] + (if r.key in {"linuxmint", "raspbian", "ubuntu-old"} then [r.key] else [])
  }

  function Origins(r: Repository): seq<string> {
    [r.upstream] + r.aliases
  }

  function Layout(host: string, path: string): string {
    TrimSlashes(host) + "/" + path
  }

  /** The root an origin declares, if it is a secure one. */
  predicate Declares(origin: string, root: string) {
    origin == "https://" + root
  }

  /** `root` is one of the repository's declared origins, or a declared layout on a mirror host. */
  ghost predicate IsRoot(r: Repository, hosts: seq<string>, root: string) {
    || (exists origin :: origin in Origins(r) && Declares(origin, root))
    || (exists host, path :: host in hosts && path in Layouts(r) && root == Layout(host, path))
  }

  /** Two matching roots of equal length are the same root. */
  lemma EqualLengthsMeanEqualRoots(a: string, b: string, address: string)
    requires Matches(a, address) && Matches(b, address) && |a| == |b|
    ensures a == b
  {
    assert a == address[..|a|] && b == address[..|b|];
  }

  // -------------------------------------------------------------------------
  // Collecting candidates, in the order of the declarations
  // -------------------------------------------------------------------------

  function SecureRoots(origins: seq<string>): seq<string> {
    if origins == [] then []
    else
      var n := |origins| - 1;
      SecureRoots(origins[..n]) + (if StartsWith(origins[n], "https://") then [origins[n][8..]] else [])
  }

  function OnHost(host: string, paths: seq<string>): seq<string> {
    seq(|paths|, i requires 0 <= i < |paths| => Layout(host, paths[i]))
  }

  function OnHosts(hosts: seq<string>, paths: seq<string>): seq<string> {
    if hosts == [] then [] else OnHosts(hosts[..|hosts| - 1], paths) + OnHost(hosts[|hosts| - 1], paths)
  }

  function RootsOf(r: Repository, hosts: seq<string>): seq<string> {
    SecureRoots(Origins(r)) + OnHosts(hosts, Layouts(r))
  }

  /** The candidates among `roots`. */
  function Try(roots: seq<string>, key: string, address: string): seq<Candidate> {
    if roots == [] then []
    else
      var n := |roots| - 1;
      Try(roots[..n], key, address) +
      (if Matches(roots[n], address) then [Candidate(|roots[n]|, key, address[|roots[n]|..])] else [])
  }

  function Candidates(repositories: seq<Repository>, hosts: seq<string>, address: string): seq<Candidate> {
    if repositories == [] then []
    else
      var n := |repositories| - 1;
      Candidates(repositories[..n], hosts, address) + Try(RootsOf(repositories[n], hosts), repositories[n].key, address)
  }

  lemma {:induction false} TryAppend(a: seq<string>, b: seq<string>, key: string, address: string)
    ensures Try(a + b, key, address) == Try(a, key, address) + Try(b, key, address)
  {
    hide Matches;
    if b == [] {
      assert a + b == a;
    } else {
      var n := |b| - 1;
      assert (a + b)[..|a| + n] == a + b[..n];
      TryAppend(a, b[..n], key, address);
    }
  }

  lemma {:induction false} SecureRootsAre(origins: seq<string>, root: string)
    ensures root in SecureRoots(origins) <==> exists origin :: origin in origins && Declares(origin, root)
  {
    if origins != [] {
      var n := |origins| - 1;
      var last := origins[n];
      SecureRootsAre(origins[..n], root);
      assert origins == origins[..n] + [last];
      assert Declares(last, root) <==> StartsWith(last, "https://") && last[8..] == root by {
        SecurePrefix(last, root);
      }
    }
  }

  lemma SecurePrefix(origin: string, root: string)
    ensures Declares(origin, root) <==> StartsWith(origin, "https://") && origin[8..] == root
  {
    if StartsWith(origin, "https://") {
      assert origin == origin[..8] + origin[8..];
    }
  }

  lemma {:induction false} OnHostsAre(hosts: seq<string>, paths: seq<string>, root: string)
    ensures root in OnHosts(hosts, paths) <==>
            exists host, path :: host in hosts && path in paths && root == Layout(host, path)
  {
    hide Layout;
    if hosts != [] {
      var n := |hosts| - 1;
      var last := hosts[n];
      OnHostsAre(hosts[..n], paths, root);
      assert hosts == hosts[..n] + [last];
      if path :| path in paths && root == Layout(last, path) {
        var i :| 0 <= i < |paths| && paths[i] == path;
        assert OnHost(last, paths)[i] == root;
      }
    }
  }

  lemma RootsAre(r: Repository, hosts: seq<string>, root: string)
    ensures root in RootsOf(r, hosts) <==> IsRoot(r, hosts, root)
  {
    hide Origins, Layouts, Declares, Layout, SecureRoots, OnHosts;
    SecureRootsAre(Origins(r), root);
    OnHostsAre(hosts, Layouts(r), root);
  }

  /** What it takes to be a candidate. */
  ghost predicate Justified(c: Candidate, repositories: seq<Repository>, hosts: seq<string>, address: string,
                            root: string)
  {
    && Matches(root, address) && c.length == |root| && c.suffix == address[|root|..]
    && exists r :: r in repositories && c.key == r.key && IsRoot(r, hosts, root)
  }

  lemma {:induction false} TryIs(roots: seq<string>, key: string, address: string, c: Candidate)
    ensures c in Try(roots, key, address) <==>
            exists root :: root in roots && Matches(root, address) && c == Candidate(|root|, key, address[|root|..])
  {
    hide AtBoundary;
    if roots != [] {
      var n := |roots| - 1;
      TryIs(roots[..n], key, address, c);
      assert roots == roots[..n] + [roots[n]];
    }
  }

  lemma {:induction false} CandidatesAre(repositories: seq<Repository>, hosts: seq<string>, address: string,
                                         c: Candidate)
    ensures c in Candidates(repositories, hosts, address) <==>
            exists root :: Justified(c, repositories, hosts, address, root)
  {
    hide IsRoot, RootsOf, AtBoundary, Try;
    if repositories != [] {
      var n := |repositories| - 1;
      var last, before := repositories[n], repositories[..n];
      CandidatesAre(before, hosts, address, c);
      TryIs(RootsOf(last, hosts), last.key, address, c);
      assert repositories == before + [last];
      if root :| Justified(c, before, hosts, address, root) {
        var r :| r in before && c.key == r.key && IsRoot(r, hosts, root);
        assert r in repositories;
        assert Justified(c, repositories, hosts, address, root);
      }
      if root :| root in RootsOf(last, hosts) && Matches(root, address) &&
                 c == Candidate(|root|, last.key, address[|root|..]) {
        RootsAre(last, hosts, root);
        assert last in repositories;
        assert Justified(c, repositories, hosts, address, root);
      }
      if root :| Justified(c, repositories, hosts, address, root) {
        var r :| r in repositories && c.key == r.key && IsRoot(r, hosts, root);
        if r in before {
          assert Justified(c, before, hosts, address, root);
        } else {
          RootsAre(last, hosts, root);
        }
      }
    }
  }

  // -------------------------------------------------------------------------
  // The mapping
  // -------------------------------------------------------------------------

  /** What follows the first "://". */
  function AfterScheme(uri: string): Option<string> {
    if StartsWith(uri, "://") then Some(uri[3..]) else if uri == [] then None else AfterScheme(uri[1..])
  }

  predicate HasKey(repositories: seq<Repository>, key: string) {
    exists i :: 0 <= i < |repositories| && repositories[i].key == key
  }

  /** The path below `/ubuntu` on a regional archive host, which shares the layout of the main one. */
  function Regional(url: Url, repositories: seq<Repository>): Option<string> {
    if HasKey(repositories, "ubuntu") && url.host.Some? && EndsWith(url.host.value, ".archive.ubuntu.com") &&
       StartsWith(url.path, "/ubuntu") && (url.path[7..] == "" || url.path[7] == '/')
    then Some(url.path[7..])
    else None
  }

  function AllCandidates(url: Url, address: string, ctx: Context): seq<Candidate> {
    var regional := Regional(url, ctx.repositories);
    Candidates(ctx.repositories, ctx.hosts, address) +
    (if regional.Some? then [Candidate(USIZE_MAX, "ubuntu", regional.value)] else [])
  }

  /** `max_by_key`: the last of the longest. */
  function LastLongest(cs: seq<Candidate>): (k: nat)
    requires cs != []
    ensures k < |cs|
    ensures forall i :: 0 <= i < |cs| ==> cs[i].length <= cs[k].length
    ensures forall i :: k < i < |cs| ==> cs[i].length < cs[k].length
  {
    var n := |cs| - 1;
    if n == 0 then 0
    else
      var k := LastLongest(cs[..n]);
      if cs[n].length >= cs[k].length then n else k
  }

  function Archived(key: string, ctx: Context): string {
    var debian := if !ctx.archiveDebian then key
                  else if key == "debian" then "debian-archive"
                  else if key == "debian-security" then "debian-security-archive"
                  else key;
    if ctx.archiveUbuntu && debian in {"ubuntu", "ubuntu-security", "ubuntu-ports"} then "ubuntu-old" else debian
  }

  function Segments(s: string): seq<string> {
    var n := Find(s, '/');
    if n == |s| then [s] else [s[..n]] + Segments(s[n + 1..])
  }

  predicate EncodesDot(s: string) {
    exists k :: 0 <= k < |s| - 2 && EncodedDotAt(s, k)
  }

  predicate EncodedDotAt(s: string, k: nat)
    requires k + 2 < |s|
  {
    s[k] == '%' && s[k + 1] == '2' && Lower(s[k + 2]) == 'e'
  }

  predicate UnsafeSegment(p: string) {
    p == "." || p == ".." || EncodesDot(p)
  }

  predicate UnsafePath(suffix: string) {
    exists i :: 0 <= i < |Segments(suffix)| && UnsafeSegment(Segments(suffix)[i])
  }

  predicate HasCredentials(url: Url) {
    url.username != "" || url.password.Some?
  }

  predicate HasOptionsIn(url: Url) {
    url.query.Some? || url.fragment.Some? || url.port.Some?
  }

  function Target(base: string, key: string, suffix: string): string {
    base + "/os/" + key + (if suffix == "" then "/" else suffix)
  }

  predicate IsHttp(url: Url) {
    url.scheme == "http" || url.scheme == "https"
  }

  /** The specification of `map_uri`. */
  function Mapping(uri: string, url: Option<Url>, ctx: Context, base: string): Mapped {
    if url.None? || !IsHttp(url.value) || AfterScheme(uri).None? then Keep
    else
      var cs := AllCandidates(url.value, AfterScheme(uri).value, ctx);
      if cs == [] then Keep
      else
        var c := cs[LastLongest(cs)];
        if HasCredentials(url.value) || HasOptionsIn(url.value) || UnsafePath(c.suffix) then Refuse
        else Replace(Target(base, Archived(c.key, ctx), c.suffix))
  }

  // -------------------------------------------------------------------------
  // The loops
  // -------------------------------------------------------------------------

  lemma TryOne(roots: seq<string>, i: nat, key: string, address: string)
    requires i < |roots|
    ensures Try(roots[..i + 1], key, address) == Try(roots[..i], key, address) +
            (if Matches(roots[i], address) then [Candidate(|roots[i]|, key, address[|roots[i]|..])] else [])
  {
    hide Matches;
    assert roots[..i + 1][..i] == roots[..i];
  }

  method TryOrigins(origins: seq<string>, key: string, address: string, start: seq<Candidate>)
    returns (candidates: seq<Candidate>)
    ensures candidates == start + Try(SecureRoots(origins), key, address)
  {
    hide Try, AtBoundary;
    candidates := start;
    TryNothing(key, address);
    for i := 0 to |origins|
      invariant candidates == start + Try(SecureRoots(origins[..i]), key, address)
    {
      var before := origins[..i];
      assert origins[..i + 1] == before + [origins[i]];
      assert origins[..i + 1][..i] == before;
      if !StartsWith(origins[i], "https://") {
        assert SecureRoots(origins[..i + 1]) == SecureRoots(before);
        continue;
      }
      var root := origins[i][8..];
      assert SecureRoots(origins[..i + 1]) == SecureRoots(before) + [root];
      TryAppend(SecureRoots(before), [root], key, address);
      TrySingle(root, key, address);
      if Matches(root, address) {
        candidates := candidates + [Candidate(|root|, key, address[|root|..])];
      }
    }
    assert origins[..|origins|] == origins;
  }

  lemma TryNothing(key: string, address: string)
    ensures Try([], key, address) == [] && SecureRoots([]) == []
  {
  }

  lemma TrySingle(root: string, key: string, address: string)
    ensures Try([root], key, address) ==
            if Matches(root, address) then [Candidate(|root|, key, address[|root|..])] else []
  {
    hide Matches;
    assert [root][..0] == [];
    assert Try([], key, address) == [];
  }

  method TryLayouts(hosts: seq<string>, paths: seq<string>, key: string, address: string, start: seq<Candidate>)
    returns (candidates: seq<Candidate>)
    ensures candidates == start + Try(OnHosts(hosts, paths), key, address)
  {
    hide Try, AtBoundary, Layout;
    candidates := start;
    TryNothing(key, address);
    for h := 0 to |hosts|
      invariant candidates == start + Try(OnHosts(hosts[..h], paths), key, address)
    {
      ghost var done := OnHosts(hosts[..h], paths);
      assert hosts[..h + 1][..h] == hosts[..h];
      ghost var mine := OnHost(hosts[h], paths);
      ghost var soFar := candidates;
      for i := 0 to |paths|
        invariant candidates == soFar + Try(mine[..i], key, address)
      {
        var root := Layout(hosts[h], paths[i]);
        TryOne(mine, i, key, address);
        if Matches(root, address) {
          candidates := candidates + [Candidate(|root|, key, address[|root|..])];
        }
      }
      assert mine[..|paths|] == mine;
      TryAppend(done, mine, key, address);
    }
    assert hosts[..|hosts|] == hosts;
  }

  method MapUri(uri: string, url: Option<Url>, ctx: Context, base: string) returns (r: Mapped)
    ensures r == Mapping(uri, url, ctx, base)
  {
    hide Try, SecureRoots, OnHosts, Regional, UnsafePath, Archived, AfterScheme;
    if url.None? || !IsHttp(url.value) {
      return Keep;
    }
    var address := AfterScheme(uri);
    if address.None? {
      return Keep;
    }
    var candidates: seq<Candidate> := [];
    var repositories := ctx.repositories;
    for i := 0 to |repositories|
      invariant candidates == Candidates(repositories[..i], ctx.hosts, address.value)
    {
      var repository := repositories[i];
      assert repositories[..i + 1][..i] == repositories[..i];
      ghost var before := candidates;
      candidates := TryOrigins(Origins(repository), repository.key, address.value, candidates);
      candidates := TryLayouts(ctx.hosts, Layouts(repository), repository.key, address.value, candidates);
      TryAppend(SecureRoots(Origins(repository)), OnHosts(ctx.hosts, Layouts(repository)), repository.key,
                address.value);
    }
    assert repositories[..|repositories|] == repositories;
    var regional := Regional(url.value, repositories);
    if regional.Some? {
      candidates := candidates + [Candidate(USIZE_MAX, "ubuntu", regional.value)];
    }
    assert candidates == AllCandidates(url.value, address.value, ctx);
    if candidates == [] {
      return Keep;
    }
    var chosen := candidates[LastLongest(candidates)];
    var key := Archived(chosen.key, ctx);
    if HasCredentials(url.value) || HasOptionsIn(url.value) || UnsafePath(chosen.suffix) {
      return Refuse;
    }
    return Replace(base + "/os/" + key + (if chosen.suffix == "" then "/" else chosen.suffix));
  }

  // -------------------------------------------------------------------------
  // Laws
  // -------------------------------------------------------------------------

  /** A declared root of a known repository that the address starts with, up to a path boundary. */
  ghost predicate Serves(r: Repository, root: string, address: string, ctx: Context) {
    r in ctx.repositories && IsRoot(r, ctx.hosts, root) && Matches(root, address)
  }

  ghost predicate SomeRootServes(address: string, ctx: Context) {
    exists r, root :: Serves(r, root, address, ctx)
  }

  lemma CandidatesServe(address: string, ctx: Context)
    ensures Candidates(ctx.repositories, ctx.hosts, address) == [] <==> !SomeRootServes(address, ctx)
  {
    hide IsRoot, AtBoundary, Candidates;
    var cs := Candidates(ctx.repositories, ctx.hosts, address);
    if cs != [] {
      CandidatesAre(ctx.repositories, ctx.hosts, address, cs[0]);
      var root :| Justified(cs[0], ctx.repositories, ctx.hosts, address, root);
      var r :| r in ctx.repositories && cs[0].key == r.key && IsRoot(r, ctx.hosts, root);
      assert Serves(r, root, address, ctx);
    }
    if r, root :| Serves(r, root, address, ctx) {
      var c := Candidate(|root|, r.key, address[|root|..]);
      assert Justified(c, ctx.repositories, ctx.hosts, address, root);
      CandidatesAre(ctx.repositories, ctx.hosts, address, c);
    }
  }

  /** An address is left alone exactly when no declared root serves it. */
  lemma UnknownAddressesAreKept(uri: string, url: Url, ctx: Context, base: string)
    requires IsHttp(url) && AfterScheme(uri).Some?
    ensures Mapping(uri, Some(url), ctx, base).Keep? <==>
            !SomeRootServes(AfterScheme(uri).value, ctx) && Regional(url, ctx.repositories).None?
  {
    hide Candidates, Regional, AfterScheme, SomeRootServes, Archived, UnsafePath;
    CandidatesServe(AfterScheme(uri).value, ctx);
  }

  /** `root` is served by `r`, and no declared root of any repository goes further into the address. */
  ghost predicate Longest(r: Repository, root: string, address: string, ctx: Context) {
    && Serves(r, root, address, ctx)
    && forall r', root' :: Serves(r', root', address, ctx) ==>
         |root'| <= |root| && (|root'| == |root| ==> root' == root)
  }

  lemma ChosenIsLongest(address: string, ctx: Context)
    requires Candidates(ctx.repositories, ctx.hosts, address) != []
    ensures var cs := Candidates(ctx.repositories, ctx.hosts, address);
            var c := cs[LastLongest(cs)];
            exists r, root :: Longest(r, root, address, ctx) && c == Candidate(|root|, r.key, address[|root|..])
  {
    hide IsRoot, AtBoundary, Candidates;
    var cs := Candidates(ctx.repositories, ctx.hosts, address);
    var c := cs[LastLongest(cs)];
    CandidatesAre(ctx.repositories, ctx.hosts, address, c);
    var root :| Justified(c, ctx.repositories, ctx.hosts, address, root);
    var r :| r in ctx.repositories && c.key == r.key && IsRoot(r, ctx.hosts, root);
    forall r', root' | Serves(r', root', address, ctx)
      ensures |root'| <= |root| && (|root'| == |root| ==> root' == root)
    {
      var c' := Candidate(|root'|, r'.key, address[|root'|..]);
      assert Justified(c', ctx.repositories, ctx.hosts, address, root');
      CandidatesAre(ctx.repositories, ctx.hosts, address, c');
      if |root'| == |root| {
        EqualLengthsMeanEqualRoots(root, root', address);
      }
    }
    assert Longest(r, root, address, ctx);
  }

  /**
    A longest root decides: the result is the gateway's path for its repository followed by exactly
    the rest of the address, or by a slash. Credentials, options and dot segments are refused.
  */
  lemma LongestRootDecides(uri: string, url: Url, ctx: Context, base: string)
    requires IsHttp(url) && AfterScheme(uri).Some? && Regional(url, ctx.repositories).None?
    requires SomeRootServes(AfterScheme(uri).value, ctx)
    ensures var address := AfterScheme(uri).value;
            exists r, root ::
              && Longest(r, root, address, ctx)
              && var suffix := address[|root|..];
                 Mapping(uri, Some(url), ctx, base) ==
                 if HasCredentials(url) || HasOptionsIn(url) || UnsafePath(suffix) then Refuse
                 else Replace(Target(base, Archived(r.key, ctx), suffix))
  {
    hide Candidates, Regional, AfterScheme, SomeRootServes, Archived, UnsafePath, IsRoot, AtBoundary;
    var address := AfterScheme(uri).value;
    CandidatesServe(address, ctx);
    ChosenIsLongest(address, ctx);
    var cs := Candidates(ctx.repositories, ctx.hosts, address);
    assert AllCandidates(url, address, ctx) == cs;
    var c := cs[LastLongest(cs)];
    var r, root :| Longest(r, root, address, ctx) && c == Candidate(|root|, r.key, address[|root|..]);
    assert c.suffix == address[|root|..];
  }

  /** Regional Ubuntu archives come first, whatever else matches. */
  lemma RegionalArchivesComeFirst(uri: string, url: Url, ctx: Context, base: string)
    requires IsHttp(url) && AfterScheme(uri).Some? && |AfterScheme(uri).value| <= USIZE_MAX
    requires Regional(url, ctx.repositories).Some?
    ensures var suffix := Regional(url, ctx.repositories).value;
            Mapping(uri, Some(url), ctx, base) ==
            if HasCredentials(url) || HasOptionsIn(url) || UnsafePath(suffix) then Refuse
            else Replace(Target(base, Archived("ubuntu", ctx), suffix))
  {
    hide Candidates, Regional, AfterScheme, Archived, UnsafePath, IsRoot, AtBoundary;
    var address := AfterScheme(uri).value;
    var some := Candidates(ctx.repositories, ctx.hosts, address);
    var cs := AllCandidates(url, address, ctx);
    forall i | 0 <= i < |some| ensures some[i].length <= USIZE_MAX {
      CandidatesAre(ctx.repositories, ctx.hosts, address, some[i]);
    }
    assert LastLongest(cs) == |some|;
  }

  /** A path segment of `s`: no slash inside, and a slash or an end on either side. */
  predicate IsSegment(s: string, i: nat, j: nat) {
    && i <= j <= |s| && (i == 0 || s[i - 1] == '/') && (j == |s| || s[j] == '/')
    && forall k :: i <= k < j ==> s[k] != '/'
  }

  lemma AnyCons(p: string, rest: seq<string>, q: string -> bool)
    ensures Any([p] + rest, q) <==> q(p) || Any(rest, q)
  {
    var all := [p] + rest;
    assert all[0] == p;
    assert forall i :: 0 <= i < |rest| ==> all[i + 1] == rest[i];
  }

  lemma SegmentsUnfold(s: string, q: string -> bool)
    ensures var n := Find(s, '/');
            Any(Segments(s), q) <==> q(s[..n]) || (n < |s| && Any(Segments(s[n + 1..]), q))
  {
    hide Any, Find;
    var n := Find(s, '/');
    if n == |s| {
      assert s[..n] == s && [s] == [s] + [];
      AnyCons(s, [], q);
      NoneOfNothing(q);
    } else {
      AnyCons(s[..n], Segments(s[n + 1..]), q);
    }
  }

  lemma NoneOfNothing(q: string -> bool)
    ensures !Any([], q)
  {
  }

  predicate Any(parts: seq<string>, q: string -> bool) {
    exists i :: 0 <= i < |parts| && q(parts[i])
  }

  lemma EncodedInParts(s: string, n: nat)
    requires n < |s| && s[n] == '/'
    ensures EncodesDot(s) <==> EncodesDot(s[..n]) || EncodesDot(s[n + 1..])
  {
    var a, b := s[..n], s[n + 1..];
    if k :| 0 <= k < |s| - 2 && EncodedDotAt(s, k) {
      assert s[k] != '/' && s[k + 1] != '/' && s[k + 2] != '/';
      if k + 2 < n {
        assert EncodedDotAt(a, k);
      } else {
        assert EncodedDotAt(b, k - n - 1);
      }
    }
    if k :| 0 <= k < |a| - 2 && EncodedDotAt(a, k) {
      assert EncodedDotAt(s, k);
    }
    if k :| 0 <= k < |b| - 2 && EncodedDotAt(b, k) {
      assert EncodedDotAt(s, n + 1 + k);
    }
  }

  predicate IsDots(p: string) {
    p == "." || p == ".."
  }

  ghost predicate SegmentWith(s: string, q: string -> bool) {
    exists i: nat, j: nat :: i <= j <= |s| && IsSegment(s, i, j) && q(s[i..j])
  }

  lemma SegmentInRest(s: string, n: nat, i: nat, j: nat)
    requires n < |s| && s[n] == '/' && i <= j
    ensures IsSegment(s[n + 1..], i, j) <==> IsSegment(s, n + 1 + i, n + 1 + j)
    ensures IsSegment(s, n + 1 + i, n + 1 + j) ==> s[n + 1 + i..n + 1 + j] == s[n + 1..][i..j]
  {
    var rest := s[n + 1..];
    if IsSegment(rest, i, j) {
      assert forall k :: n + 1 + i <= k < n + 1 + j ==> s[k] == rest[k - n - 1];
    }
    if IsSegment(s, n + 1 + i, n + 1 + j) {
      assert forall k :: i <= k < j ==> rest[k] == s[n + 1 + k];
    }
  }

  /** The segments of the split are those between slashes. */
  lemma {:induction false} SegmentsAre(s: string, q: string -> bool)
    ensures Any(Segments(s), q) <==> SegmentWith(s, q)
    decreases |s|
  {
    hide IsSegment, Any, Segments;
    var n := Find(s, '/');
    SegmentsUnfold(s, q);
    FirstSegmentIs(s);
    if n < |s| {
      var rest := s[n + 1..];
      SegmentsAre(rest, q);
      if i: nat, j: nat :| i <= j <= |rest| && IsSegment(rest, i, j) && q(rest[i..j]) {
        SegmentInRest(s, n, i, j);
        assert IsSegment(s, n + 1 + i, n + 1 + j);
      }
    }
    if i: nat, j: nat :| i <= j <= |s| && IsSegment(s, i, j) && q(s[i..j]) {
      SegmentStart(s, i, j);
      if i > 0 {
        SegmentInRest(s, n, i - n - 1, j - n - 1);
        assert IsSegment(s[n + 1..], i - n - 1, j - n - 1);
      }
    }
  }

  lemma FirstSegmentIs(s: string)
    ensures IsSegment(s, 0, Find(s, '/')) && s[0..Find(s, '/')] == s[..Find(s, '/')]
  {
  }

  lemma SegmentStart(s: string, i: nat, j: nat)
    requires IsSegment(s, i, j)
    ensures var n := Find(s, '/'); if i == 0 then j == n else n < |s| && n + 1 <= i
  {
  }

  lemma {:induction false} EncodedInSegments(s: string)
    ensures Any(Segments(s), EncodesDot) <==> EncodesDot(s)
    decreases |s|
  {
    hide Any, Segments, EncodesDot;
    var n := Find(s, '/');
    SegmentsUnfold(s, EncodesDot);
    if n < |s| {
      EncodedInSegments(s[n + 1..]);
      EncodedInParts(s, n);
    } else {
      assert s[..n] == s;
    }
  }

  /** Refused paths are those with a dot segment, or with an encoded dot anywhere. */
  lemma UnsafePathsAre(s: string)
    ensures UnsafePath(s) <==> SegmentWith(s, IsDots) || EncodesDot(s)
  {
    hide Segments, EncodesDot, SegmentWith;
    SegmentsAre(s, IsDots);
    EncodedInSegments(s);
    var parts := Segments(s);
    if i :| 0 <= i < |parts| && UnsafeSegment(parts[i]) {
      assert IsDots(parts[i]) || EncodesDot(parts[i]);
    }
    if Any(parts, IsDots) {
      var i :| 0 <= i < |parts| && IsDots(parts[i]);
      assert UnsafeSegment(parts[i]);
    }
    if Any(parts, EncodesDot) {
      var i :| 0 <= i < |parts| && EncodesDot(parts[i]);
      assert UnsafeSegment(parts[i]);
    }
  }

  /** The parser reports a query or a fragment whenever the address has one. */
  predicate ParsedFaithfully(url: Url, address: string) {
    ('?' in address ==> url.query.Some? || url.fragment.Some?) && ('#' in address ==> url.fragment.Some?)
  }

  /** What may follow the name of a repository. */
  ghost predicate IsCleanSuffix(suffix: string) {
    (suffix == "" || suffix[0] == '/') && !SegmentWith(suffix, IsDots) && !EncodesDot(suffix)
  }

  /** Where the repository and the rest of the path come from: the regional layout, or a longest root. */
  ghost predicate Determines(url: Url, address: string, ctx: Context, key: string, suffix: string) {
    match Regional(url, ctx.repositories)
    case Some(path) => key == "ubuntu" && suffix == path
    case None => exists r, root :: Longest(r, root, address, ctx) && key == r.key && suffix == address[|root|..]
  }

  lemma RegionalResultIsClean(uri: string, url: Url, ctx: Context, base: string)
    requires IsHttp(url) && AfterScheme(uri).Some? && |AfterScheme(uri).value| <= USIZE_MAX
    requires Regional(url, ctx.repositories).Some? && Mapping(uri, Some(url), ctx, base).Replace?
    ensures var suffix := Regional(url, ctx.repositories).value;
            && IsCleanSuffix(suffix)
            && Mapping(uri, Some(url), ctx, base).text == Target(base, Archived("ubuntu", ctx), suffix)
  {
    hide AfterScheme, Archived, UnsafePath, SegmentWith, EncodesDot, Mapping;
    RegionalArchivesComeFirst(uri, url, ctx, base);
    UnsafePathsAre(Regional(url, ctx.repositories).value);
  }

  lemma RootResultIsClean(uri: string, url: Url, ctx: Context, base: string) returns (r: Repository, root: string)
    requires IsHttp(url) && AfterScheme(uri).Some? && Regional(url, ctx.repositories).None?
    requires ParsedFaithfully(url, AfterScheme(uri).value) && Mapping(uri, Some(url), ctx, base).Replace?
    ensures var address := AfterScheme(uri).value;
            && Longest(r, root, address, ctx) && IsCleanSuffix(address[|root|..])
            && Mapping(uri, Some(url), ctx, base).text == Target(base, Archived(r.key, ctx), address[|root|..])
  {
    hide Candidates, Regional, AfterScheme, SomeRootServes, Archived, UnsafePath, IsRoot, SegmentWith, EncodesDot;
    UnknownAddressesAreKept(uri, url, ctx, base);
    LongestRootDecides(uri, url, ctx, base);
    var address := AfterScheme(uri).value;
    r, root :|
      && Longest(r, root, address, ctx)
      && Mapping(uri, Some(url), ctx, base) ==
         if HasCredentials(url) || HasOptionsIn(url) || UnsafePath(address[|root|..]) then Refuse
         else Replace(Target(base, Archived(r.key, ctx), address[|root|..]));
    UnsafePathsAre(address[|root|..]);
    var suffix := address[|root|..];
    assert suffix != "" ==> suffix[0] == address[|root|];
  }

  /**
    Every result is the gateway's path of the repository that decides, followed by a clean path: nothing,
    which becomes a slash, or one that starts with a slash and has no dot or encoded-dot segment.
  */
  lemma ResultsAreCleanPaths(uri: string, url: Url, ctx: Context, base: string)
    requires IsHttp(url) && AfterScheme(uri).Some? && |AfterScheme(uri).value| <= USIZE_MAX
    requires ParsedFaithfully(url, AfterScheme(uri).value) && Mapping(uri, Some(url), ctx, base).Replace?
    ensures exists key, suffix ::
              && Determines(url, AfterScheme(uri).value, ctx, key, suffix) && IsCleanSuffix(suffix)
              && Mapping(uri, Some(url), ctx, base).text ==
                 base + "/os/" + Archived(key, ctx) + (if suffix == "" then "/" else suffix)
  {
    hide AfterScheme, Regional, Archived, Mapping, IsCleanSuffix, IsRoot, AtBoundary;
    var address, regional := AfterScheme(uri).value, Regional(url, ctx.repositories);
    if regional.Some? {
      RegionalResultIsClean(uri, url, ctx, base);
      assert Determines(url, address, ctx, "ubuntu", regional.value);
    } else {
      var r, root := RootResultIsClean(uri, url, ctx, base);
      assert Determines(url, address, ctx, r.key, address[|root|..]);
    }
  }
}
