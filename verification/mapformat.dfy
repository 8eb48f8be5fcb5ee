/**
  The URI mapper in terms of the URI, the fields of the URL and the declarations alone: what is kept,
  what is refused, and what the result is.
*/
module MapFormat {
  import opened AptRewriter
  import opened Text
  import opened UriMapper
  import opened Wrappers

  // -------------------------------------------------------------------------
  // Addresses and roots
  // -------------------------------------------------------------------------

  predicate MarkAt(uri: string, k: nat) {
    k + 3 <= |uri| && uri[k] == ':' && uri[k + 1] == '/' && uri[k + 2] == '/'
  }

  /** What follows the first "://". */
  ghost predicate HasAddress(uri: string, address: string) {
    exists k: nat :: MarkAt(uri, k) && (forall j: nat :: j < k ==> !MarkAt(uri, j)) && address == uri[k + 3..]
  }

  lemma {:induction false} AddressIs(uri: string, address: string)
    ensures AfterScheme(uri) == Some(address) <==> HasAddress(uri, address)
    decreases |uri|
  {
    assert "://" <= uri <==> MarkAt(uri, 0);
    if MarkAt(uri, 0) {
      assert AfterScheme(uri) == Some(uri[3..]);
    } else if uri != [] {
      var rest := uri[1..];
      AddressIs(rest, address);
      assert forall k: nat :: MarkAt(rest, k) <==> MarkAt(uri, k + 1);
      if k: nat :| MarkAt(uri, k) && (forall j: nat :: j < k ==> !MarkAt(uri, j)) && address == uri[k + 3..] {
        MarkInRest(uri, address, k - 1);
      }
      if k: nat :| MarkAt(rest, k) && (forall j: nat :: j < k ==> !MarkAt(rest, j)) && address == rest[k + 3..] {
        MarkInUri(uri, address, k);
      }
    }
  }

  lemma MarkInRest(uri: string, address: string, k: nat)
    requires MarkAt(uri, k + 1) && (forall j: nat :: j < k + 1 ==> !MarkAt(uri, j)) && address == uri[k + 4..]
    ensures HasAddress(uri[1..], address)
  {
    var rest := uri[1..];
    assert MarkAt(rest, k) && rest[k + 3..] == address;
    forall j: nat | j < k ensures !MarkAt(rest, j) {
      assert !MarkAt(uri, j + 1);
    }
  }

  lemma MarkInUri(uri: string, address: string, k: nat)
    requires uri != [] && !MarkAt(uri, 0) && MarkAt(uri[1..], k)
    requires (forall j: nat :: j < k ==> !MarkAt(uri[1..], j)) && address == uri[1..][k + 3..]
    ensures HasAddress(uri, address)
  {
    assert MarkAt(uri, k + 1) && uri[k + 4..] == address;
    forall j: nat | j < k + 1 ensures !MarkAt(uri, j) {
      assert j > 0 ==> !MarkAt(uri[1..], j - 1);
    }
  }

  /** An origin of the repository over https, or its path on a mirror host; three have a second path there. */
  ghost predicate RootOf(r: Repository, hosts: seq<string>, root: string) {
    || r.upstream == "https://" + root
    || (exists alias :: alias in r.aliases && alias == "https://" + root)
    || (exists host, stem, path ::
          && host in hosts && IsStem(host, stem) && root == stem + "/" + path
          && (path == r.mirrorPath || (path == r.key && r.key in {"linuxmint", "raspbian", "ubuntu-old"})))
  }

  lemma RootOfIs(r: Repository, hosts: seq<string>, root: string)
    ensures IsRoot(r, hosts, root) <==> RootOf(r, hosts, root)
  {
    if origin :| origin in Origins(r) && Declares(origin, root) {
      assert origin == r.upstream || origin in r.aliases;
    }
    if r.upstream == "https://" + root {
      assert r.upstream in Origins(r) && Declares(r.upstream, root);
    }
    if alias :| alias in r.aliases && alias == "https://" + root {
      assert alias in Origins(r) && Declares(alias, root);
    }
    LayoutRootIs(r, hosts, root);
  }

  lemma LayoutRootIs(r: Repository, hosts: seq<string>, root: string)
    ensures (exists host, path :: host in hosts && path in Layouts(r) && root == Layout(host, path)) <==>
            (exists host, stem, path ::
               && host in hosts && IsStem(host, stem) && root == stem + "/" + path
               && (path == r.mirrorPath || (path == r.key && r.key in {"linuxmint", "raspbian", "ubuntu-old"})))
  {
    hide IsStem;
    if host, path :| host in hosts && path in Layouts(r) && root == Layout(host, path) {
      StemIs(host, TrimSlashes(host));
      assert root == TrimSlashes(host) + "/" + path;
    }
    if host, stem, path :|
      && host in hosts && IsStem(host, stem) && root == stem + "/" + path
      && (path == r.mirrorPath || (path == r.key && r.key in {"linuxmint", "raspbian", "ubuntu-old"})) {
      StemIs(host, stem);
      assert path in Layouts(r) && root == Layout(host, path);
    }
  }

  /** The address goes on after the root with nothing, a path, a query or a fragment. */
  predicate Below(address: string, root: string, rest: string) {
    address == root + rest && (rest == "" || rest[0] == '/' || rest[0] == '?' || rest[0] == '#')
  }

  lemma BelowIs(address: string, root: string)
    ensures Matches(root, address) ==> Below(address, root, address[|root|..])
    ensures forall rest :: Below(address, root, rest) ==> Matches(root, address) && address[|root|..] == rest
  {
  }

  /** A declared root the address is below, and what follows it. */
  ghost predicate Found(ctx: Context, address: string, r: Repository, root: string, rest: string) {
    r in ctx.repositories && RootOf(r, ctx.hosts, root) && Below(address, root, rest)
  }

  lemma FoundIs(ctx: Context, address: string, r: Repository, root: string)
    ensures Serves(r, root, address, ctx) ==> Found(ctx, address, r, root, address[|root|..])
    ensures forall rest :: Found(ctx, address, r, root, rest) ==>
              Serves(r, root, address, ctx) && address[|root|..] == rest
  {
    hide IsRoot, RootOf, Matches, Below;
    RootOfIs(r, ctx.hosts, root);
    BelowIs(address, root);
  }

  // -------------------------------------------------------------------------
  // Regional archives
  // -------------------------------------------------------------------------

  /** A regional Ubuntu archive: its host, and the path below `/ubuntu`. */
  ghost predicate RegionalPath(url: Url, repositories: seq<Repository>, rest: string) {
    && (exists r :: r in repositories && r.key == "ubuntu")
    && (exists region: string :: url.host == Some(region + ".archive.ubuntu.com"))
    && url.path == "/ubuntu" + rest && (rest == "" || rest[0] == '/')
  }

  lemma HasKeyIs(repositories: seq<Repository>, key: string)
    ensures HasKey(repositories, key) <==> exists r :: r in repositories && r.key == key
  {
    if r :| r in repositories && r.key == key {
      var i :| 0 <= i < |repositories| && repositories[i] == r;
    }
  }

  lemma EndsWithIs(s: string, suffix: string)
    ensures EndsWith(s, suffix) <==> exists start: string :: s == start + suffix
  {
    if EndsWith(s, suffix) {
      assert s == s[..|s| - |suffix|] + suffix;
    }
    if start: string :| s == start + suffix {
      assert s[|s| - |suffix|..] == suffix;
    }
  }

  lemma RegionalIs(url: Url, repositories: seq<Repository>, rest: string)
    ensures Regional(url, repositories) == Some(rest) <==> RegionalPath(url, repositories, rest)
  {
    HasKeyIs(repositories, "ubuntu");
    if url.host.Some? {
      HostIs(url.host.value);
    }
    PathIs(url.path, rest);
    hide HasKey, EndsWith;
  }

  lemma HostIs(host: string)
    ensures EndsWith(host, ".archive.ubuntu.com") <==>
            exists region: string :: Some(host) == Some(region + ".archive.ubuntu.com")
  {
    EndsWithIs(host, ".archive.ubuntu.com");
    hide EndsWith;
    if start: string :| host == start + ".archive.ubuntu.com" {
      assert Some(host) == Some(start + ".archive.ubuntu.com");
    }
  }

  lemma PathIs(path: string, rest: string)
    ensures StartsWith(path, "/ubuntu") && path[7..] == rest && (rest == "" || path[7] == '/') <==>
            path == "/ubuntu" + rest && (rest == "" || rest[0] == '/')
  {
    if StartsWith(path, "/ubuntu") && path[7..] == rest {
      assert path == path[..7] + path[7..];
    }
    if path == "/ubuntu" + rest {
      assert path[..7] == "/ubuntu" && path[7..] == rest;
    }
  }

  // -------------------------------------------------------------------------
  // Names and refusals
  // -------------------------------------------------------------------------

  /** The repository that serves a key: suites without a mirror any more are served by the archives. */
  function ServedAs(key: string, ctx: Context): string {
    match key
    case "debian" => if ctx.archiveDebian then "debian-archive" else "debian"
    case "debian-security" => if ctx.archiveDebian then "debian-security-archive" else "debian-security"
    case "ubuntu" => if ctx.archiveUbuntu then "ubuntu-old" else "ubuntu"
    case "ubuntu-security" => if ctx.archiveUbuntu then "ubuntu-old" else "ubuntu-security"
    case "ubuntu-ports" => if ctx.archiveUbuntu then "ubuntu-old" else "ubuntu-ports"
    case _ => key
  }

  lemma ServedAsIs(key: string, ctx: Context)
    ensures Archived(key, ctx) == ServedAs(key, ctx)
  {
  }

  /** A segment of one or two dots, or an encoded dot anywhere. */
  ghost predicate HasDots(rest: string) {
    || (exists i: nat, j: nat :: i <= j <= |rest| && IsSegment(rest, i, j) && (rest[i..j] == "." || rest[i..j] == ".."))
    || (exists k :: 0 <= k <= |rest| - 3 && rest[k] == '%' && rest[k + 1] == '2' &&
                    (rest[k + 2] == 'e' || rest[k + 2] == 'E'))
  }

  lemma EncodesDotIs(s: string)
    ensures EncodesDot(s) <==> exists k :: 0 <= k <= |s| - 3 && s[k] == '%' && s[k + 1] == '2' &&
                                           (s[k + 2] == 'e' || s[k + 2] == 'E')
  {
    forall k | 0 <= k < |s| - 2
      ensures EncodedDotAt(s, k) <==> s[k] == '%' && s[k + 1] == '2' && (s[k + 2] == 'e' || s[k + 2] == 'E')
    {
      LowerIsE(s[k + 2]);
    }
  }

  lemma LowerIsE(c: char)
    ensures Lower(c) == 'e' <==> c == 'e' || c == 'E'
  {
  }

  lemma HasDotsIs(rest: string)
    ensures UnsafePath(rest) <==> HasDots(rest)
  {
    hide UnsafePath, EncodesDot, IsSegment;
    UnsafePathsAre(rest);
    EncodesDotIs(rest);
    if i: nat, j: nat :| i <= j <= |rest| && IsSegment(rest, i, j) && IsDots(rest[i..j]) {
      assert rest[i..j] == "." || rest[i..j] == "..";
    }
    if i: nat, j: nat :|
      i <= j <= |rest| && IsSegment(rest, i, j) && (rest[i..j] == "." || rest[i..j] == "..") {
      assert IsDots(rest[i..j]);
    }
  }

  /** A user, a password, a port, a query, a fragment, or dots in the path. */
  ghost predicate Unsupported(url: Url, rest: string) {
    || url.username != "" || url.password != None
    || url.port != None || url.query != None || url.fragment != None
    || HasDots(rest)
  }

  // -------------------------------------------------------------------------
  // The mapping
  // -------------------------------------------------------------------------

  /** The URL is one of the web, and its address lies below a declared root or is a regional archive's. */
  ghost predicate IsServed(uri: string, url: Url, ctx: Context) {
    && (url.scheme == "http" || url.scheme == "https")
    && exists address ::
         && HasAddress(uri, address)
         && ((exists r, root, rest :: Found(ctx, address, r, root, rest)) ||
             (exists rest :: RegionalPath(url, ctx.repositories, rest)))
  }

  lemma SomeRootIs(ctx: Context, address: string)
    ensures SomeRootServes(address, ctx) <==> exists r, root, rest :: Found(ctx, address, r, root, rest)
  {
    if r, root :| Serves(r, root, address, ctx) {
      FoundIs(ctx, address, r, root);
    }
    if r, root, rest :| Found(ctx, address, r, root, rest) {
      FoundIs(ctx, address, r, root);
    }
  }

  lemma SomeRegionalIs(url: Url, repositories: seq<Repository>)
    ensures Regional(url, repositories).Some? <==> exists rest :: RegionalPath(url, repositories, rest)
  {
    hide Regional, RegionalPath;
    if Regional(url, repositories).Some? {
      RegionalIs(url, repositories, Regional(url, repositories).value);
    }
    if rest :| RegionalPath(url, repositories, rest) {
      RegionalIs(url, repositories, rest);
    }
  }

  lemma IsServedIs(uri: string, url: Url, ctx: Context)
    ensures IsServed(uri, url, ctx) <==>
            && IsHttp(url) && AfterScheme(uri).Some?
            && (SomeRootServes(AfterScheme(uri).value, ctx) || Regional(url, ctx.repositories).Some?)
  {
    hide AfterScheme, HasAddress, SomeRootServes, Found, Regional, RegionalPath;
    SomeRegionalIs(url, ctx.repositories);
    forall address ensures AfterScheme(uri) == Some(address) <==> HasAddress(uri, address) {
      AddressIs(uri, address);
    }
    if AfterScheme(uri).Some? {
      SomeRootIs(ctx, AfterScheme(uri).value);
      assert HasAddress(uri, AfterScheme(uri).value);
    }
  }

  /** What is not served is kept, and nothing else. */
  lemma KeptExactly(uri: string, url: Option<Url>, ctx: Context, base: string)
    ensures Mapping(uri, url, ctx, base) == Keep <==> url == None || !IsServed(uri, url.value, ctx)
  {
    hide AllCandidates, AfterScheme, SomeRootServes, Regional, IsServed, Archived, UnsafePath;
    if url.Some? {
      IsServedIs(uri, url.value, ctx);
      if IsHttp(url.value) && AfterScheme(uri).Some? {
        UnknownAddressesAreKept(uri, url.value, ctx, base);
      }
    }
  }

  /** No declared root goes further into the address. */
  ghost predicate FoundLongest(ctx: Context, address: string, r: Repository, root: string, rest: string) {
    && Found(ctx, address, r, root, rest)
    && forall r', root', rest' :: Found(ctx, address, r', root', rest') ==> |root'| <= |root|
  }

  lemma LongestIsFound(ctx: Context, address: string, r: Repository, root: string)
    requires Longest(r, root, address, ctx)
    ensures FoundLongest(ctx, address, r, root, address[|root|..])
  {
    hide Serves, Found;
    FoundIs(ctx, address, r, root);
    forall r', root', rest' | Found(ctx, address, r', root', rest') ensures |root'| <= |root| {
      FoundIs(ctx, address, r', root');
    }
  }

  /** What decides: the regional archive if it is one, and otherwise a longest root. */
  ghost predicate Decides(uri: string, url: Url, ctx: Context, key: string, rest: string) {
    if exists path :: RegionalPath(url, ctx.repositories, path)
    then key == "ubuntu" && RegionalPath(url, ctx.repositories, rest)
    else exists address, r, root ::
           HasAddress(uri, address) && FoundLongest(ctx, address, r, root, rest) && key == r.key
  }

  /** The result for one repository and the rest of the path. */
  ghost predicate IsResult(url: Url, ctx: Context, base: string, key: string, rest: string, result: Mapped) {
    if Unsupported(url, rest) then result == Refuse
    else result == Replace(base + "/os/" + ServedAs(key, ctx) + (if rest == "" then "/" else rest))
  }

  lemma ResultIs(url: Url, ctx: Context, base: string, key: string, rest: string)
    ensures IsResult(url, ctx, base, key, rest,
              if HasCredentials(url) || HasOptionsIn(url) || UnsafePath(rest) then Refuse
              else Replace(Target(base, Archived(key, ctx), rest)))
  {
    hide UnsafePath, HasDots, Archived, ServedAs;
    HasDotsIs(rest);
    ServedAsIs(key, ctx);
  }

  lemma RootDecides(uri: string, url: Url, ctx: Context, base: string) returns (r: Repository, root: string)
    requires IsHttp(url) && AfterScheme(uri).Some? && Regional(url, ctx.repositories).None?
    requires SomeRootServes(AfterScheme(uri).value, ctx)
    ensures root <= AfterScheme(uri).value
    ensures var address := AfterScheme(uri).value;
            var rest := address[|root|..];
            && FoundLongest(ctx, address, r, root, rest)
            && IsResult(url, ctx, base, r.key, rest, Mapping(uri, Some(url), ctx, base))
  {
    hide AfterScheme, SomeRootServes, Regional, IsResult, Archived, UnsafePath, FoundLongest, Mapping, IsRoot,
         AtBoundary;
    LongestRootDecides(uri, url, ctx, base);
    var address := AfterScheme(uri).value;
    r, root :| Longest(r, root, address, ctx) &&
               Mapping(uri, Some(url), ctx, base) ==
               if HasCredentials(url) || HasOptionsIn(url) || UnsafePath(address[|root|..]) then Refuse
               else Replace(Target(base, Archived(r.key, ctx), address[|root|..]));
    LongestIsFound(ctx, address, r, root);
    ResultIs(url, ctx, base, r.key, address[|root|..]);
  }

  /**
    What is served is refused if the URL has parts that cannot be kept, and otherwise becomes the
    gateway's path for the repository, archives included, with exactly the rest of the path.
  */
  lemma ServedExactly(uri: string, url: Url, ctx: Context, base: string)
    requires IsServed(uri, url, ctx) && |uri| <= USIZE_MAX
    ensures exists key, rest ::
              && Decides(uri, url, ctx, key, rest)
              && IsResult(url, ctx, base, key, rest, Mapping(uri, Some(url), ctx, base))
  {
    hide Mapping, AfterScheme, SomeRootServes, IsServed, Regional, RegionalPath, IsResult, HasAddress, Archived,
         UnsafePath, FoundLongest, Target;
    IsServedIs(uri, url, ctx);
    var address, regional := AfterScheme(uri).value, Regional(url, ctx.repositories);
    AddressIs(uri, address);
    AddressIsShorter(uri, address);
    if regional.Some? {
      RegionalIs(url, ctx.repositories, regional.value);
      RegionalArchivesComeFirst(uri, url, ctx, base);
      ResultIs(url, ctx, base, "ubuntu", regional.value);
      assert Decides(uri, url, ctx, "ubuntu", regional.value);
    } else {
      forall path ensures !RegionalPath(url, ctx.repositories, path) {
        RegionalIs(url, ctx.repositories, path);
      }
      var r, root := RootDecides(uri, url, ctx, base);
      assert Decides(uri, url, ctx, r.key, address[|root|..]);
    }
  }

  lemma AddressIsShorter(uri: string, address: string)
    requires HasAddress(uri, address)
    ensures |address| <= |uri|
  {
  }
}
