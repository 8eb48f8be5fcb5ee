/** The system mapper meets the condition under which a second pass of the APT rewriter is the identity. */
module SystemMapper {
  import opened AptIdempotence
  import opened AptLaws
  import opened AptRewriter
  import opened Text
  import opened UriMapper
  import opened Wrappers

  function MapperFor(parse: string -> Option<Url>, ctx: Context, base: string): Mapper {
    (t: string) => Mapping(t, parse(t), ctx, base)
  }

  /** The gateway's own URLs lie below no declared root. */
  ghost predicate GatewayIsForeign(parse: string -> Option<Url>, ctx: Context, base: string) {
    forall t, url ::
      base + "/os/" <= t && parse(t) == Some(url) && AfterScheme(t).Some? ==>
        !SomeRootServes(AfterScheme(t).value, ctx) && Regional(url, ctx.repositories).None?
  }

  predicate SpaceFree(s: string) {
    forall i :: 0 <= i < |s| ==> !IsWhitespace(s[i])
  }

  /** Names in the tables and the paths of parsed HTTP URLs contain no white space. */
  ghost predicate NamesAreTokens(parse: string -> Option<Url>, ctx: Context) {
    && (forall r :: r in ctx.repositories ==> SpaceFree(r.key))
    && forall t, url :: parse(t) == Some(url) && IsHttp(url) ==> SpaceFree(url.path)
  }

  lemma SpaceFreeConcat(a: string, b: string)
    requires SpaceFree(a) && SpaceFree(b)
    ensures SpaceFree(a + b)
  {
    hide IsWhitespace;
  }

  lemma SpaceFreePart(s: string, i: nat)
    requires SpaceFree(s) && i <= |s|
    ensures SpaceFree(s[i..])
  {
    hide IsWhitespace;
  }

  lemma {:induction false} AddressIsSuffix(uri: string)
    requires AfterScheme(uri).Some?
    ensures exists i: nat :: i <= |uri| && AfterScheme(uri).value == uri[i..]
  {
    if StartsWith(uri, "://") {
      assert AfterScheme(uri).value == uri[3..];
    } else {
      AddressIsSuffix(uri[1..]);
      var i: nat :| i <= |uri[1..]| && AfterScheme(uri[1..]).value == uri[1..][i..];
      assert uri[1..][i..] == uri[i + 1..];
    }
  }

  lemma ArchivedIsSpaceFree(key: string, ctx: Context)
    requires SpaceFree(key)
    ensures SpaceFree(Archived(key, ctx))
  {
    ArchiveNames();
    hide SpaceFree;
  }

  lemma ArchiveNames()
    ensures SpaceFree("debian-archive") && SpaceFree("debian-security-archive") && SpaceFree("ubuntu-old") &&
            SpaceFree("ubuntu")
    ensures SpaceFree("/os/") && SpaceFree("/")
  {
  }

  lemma TargetIsToken(base: string, key: string, suffix: string)
    requires IsToken(base) && SpaceFree(key) && SpaceFree(suffix)
    ensures IsToken(Target(base, key, suffix)) && base + "/os/" <= Target(base, key, suffix)
    ensures Target(base, key, suffix)[0] == base[0]
  {
    ArchiveNames();
    hide IsWhitespace;
    SpaceFreeConcat(base, "/os/");
    SpaceFreeConcat(base + "/os/", key);
    var tail := if suffix == "" then "/" else suffix;
    SpaceFreeConcat(base + "/os/" + key, tail);
    var out := base + "/os/" + key + tail;
    assert out[0] == base[0];
  }

  lemma RegionalIsPart(url: Url, repositories: seq<Repository>)
    requires Regional(url, repositories).Some?
    ensures |url.path| >= 7 && Regional(url, repositories).value == url.path[7..]
  {
    assert |"/ubuntu"| == 7;
  }

  lemma RootCandidateParts(uri: string, address: string, ctx: Context, c: Candidate)
    requires exists k: nat :: k <= |uri| && address == uri[k..]
    requires c in Candidates(ctx.repositories, ctx.hosts, address)
    ensures exists r :: r in ctx.repositories && c.key == r.key
    ensures exists i: nat :: i <= |uri| && c.suffix == uri[i..]
  {
    hide Candidates, IsRoot, AtBoundary;
    var k: nat :| k <= |uri| && address == uri[k..];
    CandidatesAre(ctx.repositories, ctx.hosts, address, c);
    var root :| Justified(c, ctx.repositories, ctx.hosts, address, root);
    assert uri[k..][|root|..] == uri[k + |root|..];
  }

  /** A candidate's key is in the tables, and its suffix is the end of the URI or of the regional path. */
  lemma CandidateParts(uri: string, url: Url, ctx: Context, c: Candidate)
    requires AfterScheme(uri).Some? && c in AllCandidates(url, AfterScheme(uri).value, ctx)
    ensures c.key == "ubuntu" || exists r :: r in ctx.repositories && c.key == r.key
    ensures (exists i: nat :: i <= |uri| && c.suffix == uri[i..]) || (|url.path| >= 7 && c.suffix == url.path[7..])
  {
    hide Candidates, Regional, AfterScheme;
    var address := AfterScheme(uri).value;
    if c in Candidates(ctx.repositories, ctx.hosts, address) {
      AddressIsSuffix(uri);
      RootCandidateParts(uri, address, ctx, c);
    } else {
      RegionalIsPart(url, ctx.repositories);
    }
  }

  lemma CandidateIsSpaceFree(uri: string, url: Url, ctx: Context, c: Candidate)
    requires SpaceFree(uri) && SpaceFree(url.path) && AfterScheme(uri).Some?
    requires forall r :: r in ctx.repositories ==> SpaceFree(r.key)
    requires c in AllCandidates(url, AfterScheme(uri).value, ctx)
    ensures SpaceFree(c.key) && SpaceFree(c.suffix)
  {
    hide SpaceFree, AllCandidates, AfterScheme;
    ArchiveNames();
    CandidateParts(uri, url, ctx, c);
    if i: nat :| i <= |uri| && c.suffix == uri[i..] {
      SpaceFreePart(uri, i);
    } else {
      SpaceFreePart(url.path, 7);
    }
  }

  lemma GatewayIsKept(parse: string -> Option<Url>, ctx: Context, base: string, t: string)
    requires GatewayIsForeign(parse, ctx, base) && base + "/os/" <= t
    ensures Mapping(t, parse(t), ctx, base) == Keep
  {
    hide AllCandidates, AfterScheme, UnsafePath, Archived, SomeRootServes, Regional, Target;
    if parse(t).Some? && IsHttp(parse(t).value) && AfterScheme(t).Some? {
      UnknownAddressesAreKept(t, parse(t).value, ctx, base);
    }
  }

  lemma MappingIsSettledAt(parse: string -> Option<Url>, ctx: Context, base: string, t: string)
    requires IsToken(base) && GatewayIsForeign(parse, ctx, base) && NamesAreTokens(parse, ctx)
    requires IsToken(t) && Mapping(t, parse(t), ctx, base).Replace?
    ensures var out := Mapping(t, parse(t), ctx, base).text;
            IsToken(out) && out[0] == base[0] && Mapping(out, parse(out), ctx, base) == Keep
  {
    assert SpaceFree(t);
    hide IsToken, SpaceFree, AllCandidates, AfterScheme, UnsafePath, Archived, SomeRootServes, Regional, Target;
    var url := parse(t).value;
    var cs := AllCandidates(url, AfterScheme(t).value, ctx);
    var c := cs[LastLongest(cs)];
    CandidateIsSpaceFree(t, url, ctx, c);
    ArchivedIsSpaceFree(c.key, ctx);
    TargetIsToken(base, Archived(c.key, ctx), c.suffix);
    GatewayIsKept(parse, ctx, base, Target(base, Archived(c.key, ctx), c.suffix));
  }

  /** Whether an address is kept does not depend on the archives a suite selects. */
  lemma KeepingIgnoresArchives(t: string, url: Option<Url>, ctx: Context, other: Context, base: string)
    requires ctx.repositories == other.repositories && ctx.hosts == other.hosts
    ensures Mapping(t, url, ctx, base).Keep? <==> Mapping(t, url, other, base).Keep?
  {
    hide Candidates, Regional, UnsafePath, Archived, AfterScheme;
    if url.Some? && AfterScheme(t).Some? {
      var address := AfterScheme(t).value;
      assert AllCandidates(url.value, address, ctx) == AllCandidates(url.value, address, other);
    }
  }

  /** The contexts of one migration differ only in the archives that the suites of a stanza select. */
  function ContextOf(ctx: Context, debian: bool, ubuntu: bool): Context {
    ctx.(archiveDebian := debian, archiveUbuntu := ubuntu)
  }

  /** The mapper of a stanza, from any test of its text for archived suites. */
  function MapperOf(parse: string -> Option<Url>, ctx: Context, base: string, debian: string -> bool,
                    ubuntu: string -> bool)
    : string -> Mapper
  {
    (part: string) => MapperFor(parse, ContextOf(ctx, debian(part), ubuntu(part)), base)
  }

  lemma ContextsFollow(parse: string -> Option<Url>, ctx: Context, other: Context, base: string)
    requires IsToken(base) && base[0] != '[' && GatewayIsForeign(parse, ctx, base) && NamesAreTokens(parse, ctx)
    requires ctx.repositories == other.repositories && ctx.hosts == other.hosts
    ensures YieldsTokens(MapperFor(parse, ctx, base))
    ensures Follows(MapperFor(parse, ctx, base), MapperFor(parse, other, base))
  {
    hide Mapping, IsWhitespace, GatewayIsForeign, NamesAreTokens;
    var m, again := MapperFor(parse, ctx, base), MapperFor(parse, other, base);
    forall t | IsToken(t)
      ensures m(t).Replace? ==> IsToken(m(t).text) && m(t).text[0] != '[' && again(m(t).text) == Keep
      ensures m(t).Keep? ==> again(t) == Keep
    {
      KeepingIgnoresArchives(t, parse(t), ctx, other, base);
      if m(t).Replace? {
        MappingIsSettledAt(parse, ctx, base, t);
        KeepingIgnoresArchives(m(t).text, parse(m(t).text), ctx, other, base);
      }
    }
  }

  lemma SameGateway(parse: string -> Option<Url>, ctx: Context, debian: bool, ubuntu: bool, base: string)
    requires GatewayIsForeign(parse, ctx, base) && NamesAreTokens(parse, ctx)
    ensures GatewayIsForeign(parse, ContextOf(ctx, debian, ubuntu), base)
    ensures NamesAreTokens(parse, ContextOf(ctx, debian, ubuntu))
  {
    hide IsRoot, AtBoundary, Regional, AfterScheme, SpaceFree;
    var other := ContextOf(ctx, debian, ubuntu);
    forall t, url | base + "/os/" <= t && parse(t) == Some(url) && AfterScheme(t).Some?
      ensures !SomeRootServes(AfterScheme(t).value, other) && Regional(url, other.repositories).None?
    {
      if r, root :| Serves(r, root, AfterScheme(t).value, other) {
        assert Serves(r, root, AfterScheme(t).value, ctx);
      }
    }
  }

  /** The mappers that the stanzas of one migration select follow each other, whatever the suites. */
  lemma SystemMappersAreSettled(parse: string -> Option<Url>, ctx: Context, base: string, debian: string -> bool,
                                ubuntu: string -> bool)
    requires IsToken(base) && base[0] != '[' && GatewayIsForeign(parse, ctx, base) && NamesAreTokens(parse, ctx)
    ensures SettledFamily(MapperOf(parse, ctx, base, debian, ubuntu))
  {
    hide YieldsTokens, Follows, IsToken, GatewayIsForeign, NamesAreTokens, MapperFor;
    var context := MapperOf(parse, ctx, base, debian, ubuntu);
    forall p, q ensures YieldsTokens(context(p)) && Follows(context(p), context(q)) {
      SameGateway(parse, ctx, debian(p), ubuntu(p), base);
      ContextsFollow(parse, ContextOf(ctx, debian(p), ubuntu(p)), ContextOf(ctx, debian(q), ubuntu(q)), base);
    }
  }

  /**
    Migrating a migrated file is the identity, however suites select the archives, as long as the
    gateway is not itself a declared mirror.
  */
  lemma SecondMigrationIsIdentity(content: string, deb822: bool, parse: string -> Option<Url>, ctx: Context,
                                  base: string, debian: string -> bool, ubuntu: string -> bool)
    requires IsToken(base) && base[0] != '[' && GatewayIsForeign(parse, ctx, base) && NamesAreTokens(parse, ctx)
    requires RewrittenByPart(content, deb822, MapperOf(parse, ctx, base, debian, ubuntu)).Some?
    ensures var context := MapperOf(parse, ctx, base, debian, ubuntu);
            var out := RewrittenByPart(content, deb822, context).value;
            RewrittenByPart(out, deb822, context) == Some(out)
  {
    hide RewrittenByPart, SettledFamily, GatewayIsForeign, NamesAreTokens, MapperOf, IsToken;
    SystemMappersAreSettled(parse, ctx, base, debian, ubuntu);
    SecondPassByPartIsIdentity(content, deb822, MapperOf(parse, ctx, base, debian, ubuntu));
  }
}
