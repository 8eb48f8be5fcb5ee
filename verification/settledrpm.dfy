/**
  The RPM profile of a system migration, built from the system mapper and the discovery tables, meets the
  condition under which the laws of the RPM rewriter hold.
*/
module SystemRpm {
  import opened AptLaws
  import opened RpmLaws
  import opened RpmRewriter
  import opened SystemMapper
  import opened Text
  import opened UriMapper
  import opened Wrappers

  /** The repository path that a discovery URL selects, if a table knows it. */
  type Paths = string -> Option<string>

  /** Every known discovery URL stands for a path of the gateway. */
  function Behind(base: string, paths: Paths): Resolver {
    (t: string) => if paths(t).Some? then Some(base + "/os/" + paths(t).value) else None
  }

  function TableFor(base: string, paths: Option<Paths>): Option<Resolver> {
    if paths.Some? then Some(Behind(base, paths.value)) else None
  }

  ghost predicate PathsAreSpaceFree(paths: Option<Paths>) {
    paths.Some? ==> forall t :: paths.value(t).Some? ==> SpaceFree(paths.value(t).value)
  }

  function SystemProfile(parse: string -> Option<Url>, ctx: Context, base: string, fedora: Option<Paths>,
                         epel: Option<Paths>, stream: Option<Paths>): Profile
  {
    Profile(MapperFor(parse, ctx, base), TableFor(base, fedora), TableFor(base, epel), TableFor(base, stream))
  }

  // -------------------------------------------------------------------------
  // Results of the mapper
  // -------------------------------------------------------------------------

  lemma SpaceFreeIsOneLiner(s: string)
    requires SpaceFree(s)
    ensures OneLiner(s)
  {
    assert IsWhitespace('\n') && IsWhitespace('\r');
    hide IsWhitespace;
  }

  lemma OneLinerPart(s: string, i: nat)
    requires OneLiner(s) && i <= |s|
    ensures OneLiner(s[i..])
  {
    hide FitsLine;
    SuffixFits(s, i);
  }

  lemma OneLinerConcat(s: string, t: string)
    requires SpaceFree(s) && OneLiner(t)
    ensures OneLiner(s + t)
  {
    SpaceFreeIsOneLiner(s);
    assert s + "" == s;
    hide SpaceFree;
  }

  lemma CandidateIsOneLiner(uri: string, url: Url, ctx: Context, c: Candidate)
    requires OneLiner(uri) && SpaceFree(url.path) && AfterScheme(uri).Some?
    requires forall r :: r in ctx.repositories ==> SpaceFree(r.key)
    requires c in AllCandidates(url, AfterScheme(uri).value, ctx)
    ensures SpaceFree(c.key) && OneLiner(c.suffix)
  {
    hide SpaceFree, OneLiner, AllCandidates, AfterScheme;
    ArchiveNames();
    CandidateParts(uri, url, ctx, c);
    if i: nat :| i <= |uri| && c.suffix == uri[i..] {
      OneLinerPart(uri, i);
    } else {
      SpaceFreePart(url.path, 7);
      SpaceFreeIsOneLiner(c.suffix);
    }
  }

  lemma TargetIsOneLiner(base: string, key: string, suffix: string)
    requires IsToken(base) && SpaceFree(key) && OneLiner(suffix)
    ensures OneLiner(Target(base, key, suffix)) && base + "/os/" <= Target(base, key, suffix)
  {
    ArchiveNames();
    assert SpaceFree(base);
    hide SpaceFree, OneLiner;
    SpaceFreeConcat(base, "/os/");
    SpaceFreeConcat(base + "/os/", key);
    SpaceFreeIsOneLiner("/");
    OneLinerConcat(base + "/os/" + key, if suffix == "" then "/" else suffix);
  }

  // -------------------------------------------------------------------------
  // The gateway's own URLs are final
  // -------------------------------------------------------------------------

  lemma {:induction false} TrimEndKeeps(s: string, p: string)
    requires p <= s && p != [] && !IsWhitespace(p[|p| - 1])
    ensures p <= TrimEnd(s)
    decreases |s|
  {
    hide IsWhitespace;
    if IsWhitespace(s[|s| - 1]) {
      TrimEndKeeps(s[..|s| - 1], p);
    }
  }

  lemma GatewayIsFinal(parse: string -> Option<Url>, ctx: Context, base: string, r: string)
    requires IsToken(base) && GatewayIsForeign(parse, ctx, base) && base + "/os/" <= r && OneLiner(r)
    ensures Final(r, MapperFor(parse, ctx, base))
  {
    var p := base + "/os/";
    assert p[0] == base[0] && p[|p| - 1] == '/' && r[0] == p[0];
    assert !IsWhitespace('/') && !IsWhitespace(r[0]);
    hide IsWhitespace, Mapping, GatewayIsForeign, OneLiner;
    assert TrimStart(r) == r;
    TrimEndKeeps(r, p);
    GatewayIsKept(parse, ctx, base, Trim(r));
  }

  lemma MappingIsFinal(parse: string -> Option<Url>, ctx: Context, base: string, t: string)
    requires IsToken(base) && GatewayIsForeign(parse, ctx, base) && NamesAreTokens(parse, ctx)
    requires OneLiner(t) && Mapping(t, parse(t), ctx, base).Replace?
    ensures Final(Mapping(t, parse(t), ctx, base).text, MapperFor(parse, ctx, base))
  {
    hide IsToken, SpaceFree, OneLiner, Final, AllCandidates, AfterScheme, UnsafePath, Archived, Target, MapperFor,
         GatewayIsForeign;
    var url := parse(t).value;
    var cs := AllCandidates(url, AfterScheme(t).value, ctx);
    var c := cs[LastLongest(cs)];
    CandidateIsOneLiner(t, url, ctx, c);
    ArchivedIsSpaceFree(c.key, ctx);
    TargetIsOneLiner(base, Archived(c.key, ctx), c.suffix);
    GatewayIsFinal(parse, ctx, base, Target(base, Archived(c.key, ctx), c.suffix));
  }

  lemma TableIsSettled(parse: string -> Option<Url>, ctx: Context, base: string, paths: Option<Paths>)
    requires IsToken(base) && GatewayIsForeign(parse, ctx, base) && PathsAreSpaceFree(paths)
    ensures ResolverSettled(TableFor(base, paths), MapperFor(parse, ctx, base))
  {
    ArchiveNames();
    assert SpaceFree(base);
    hide SpaceFree, IsToken, OneLiner, Final, MapperFor, GatewayIsForeign;
    if paths.Some? {
      forall t | paths.value(t).Some? ensures Final(base + "/os/" + paths.value(t).value, MapperFor(parse, ctx, base)) {
        var r := base + "/os/" + paths.value(t).value;
        SpaceFreeConcat(base, "/os/");
        SpaceFreeConcat(base + "/os/", paths.value(t).value);
        SpaceFreeIsOneLiner(r);
        GatewayIsFinal(parse, ctx, base, r);
      }
    }
  }

  /** The profile of a system migration is settled unless the gateway is itself a declared mirror. */
  lemma SystemProfilesAreSettled(parse: string -> Option<Url>, ctx: Context, base: string, fedora: Option<Paths>,
                                 epel: Option<Paths>, stream: Option<Paths>)
    requires IsToken(base) && GatewayIsForeign(parse, ctx, base) && NamesAreTokens(parse, ctx)
    requires PathsAreSpaceFree(fedora) && PathsAreSpaceFree(epel) && PathsAreSpaceFree(stream)
    ensures RpmSettled(SystemProfile(parse, ctx, base, fedora, epel, stream))
  {
    hide IsToken, Mapping, OneLiner, Final, GatewayIsForeign, NamesAreTokens, PathsAreSpaceFree, ResolverSettled,
         TableFor;
    var m := MapperFor(parse, ctx, base);
    forall t | OneLiner(t) && m(t).Replace? ensures Final(m(t).text, m) {
      MappingIsFinal(parse, ctx, base, t);
    }
    TableIsSettled(parse, ctx, base, fedora);
    TableIsSettled(parse, ctx, base, epel);
    TableIsSettled(parse, ctx, base, stream);
  }

  /** In a rewritten section of the system no metalink or mirrorlist is active any more. */
  lemma SystemSectionHasNoDiscovery(content: string, parse: string -> Option<Url>, ctx: Context, base: string,
                                    fedora: Option<Paths>, epel: Option<Paths>, stream: Option<Paths>)
    requires IsToken(base) && GatewayIsForeign(parse, ctx, base) && NamesAreTokens(parse, ctx)
    requires PathsAreSpaceFree(fedora) && PathsAreSpaceFree(epel) && PathsAreSpaceFree(stream)
    requires PlanOf(Lines(content), SystemProfile(parse, ctx, base, fedora, epel, stream)).Move?
    ensures var out := SectionOut(content, SystemProfile(parse, ctx, base, fedora, epel, stream));
            out.Some? && forall line :: line in Lines(out.value) ==> !IsDiscovery(line)
  {
    hide IsToken, GatewayIsForeign, NamesAreTokens, PathsAreSpaceFree, SystemProfile, RpmSettled, PlanOf, IsDiscovery,
         AreLines, FitsLine, SectionText;
    var p := SystemProfile(parse, ctx, base, fedora, epel, stream);
    var lines := Lines(content);
    var plan := PlanOf(lines, p);
    SystemProfilesAreSettled(parse, ctx, base, fedora, epel, stream);
    LinesAreLines(content);
    PlanIsFinal(lines, p);
    NoDiscoveryRemains(lines, plan.base, plan.replacement);
  }

  /**
    Rewriting a rewritten RPM file of the system changes nothing exactly when no section has a further
    active base URL that the first pass did not reach.
  */
  lemma SecondRpmMigration(content: string, parse: string -> Option<Url>, ctx: Context, base: string,
                           fedora: Option<Paths>, epel: Option<Paths>, stream: Option<Paths>)
    requires IsToken(base) && GatewayIsForeign(parse, ctx, base) && NamesAreTokens(parse, ctx)
    requires PathsAreSpaceFree(fedora) && PathsAreSpaceFree(epel) && PathsAreSpaceFree(stream)
    requires RewrittenRpm(content, SystemProfile(parse, ctx, base, fedora, epel, stream)).Some?
    ensures var p := SystemProfile(parse, ctx, base, fedora, epel, stream);
            var out := RewrittenRpm(content, p).value;
            RewrittenRpm(out, p) == Some(out) <==> SectionsKept(Lines(content), 0, p)
  {
    hide IsToken, GatewayIsForeign, NamesAreTokens, PathsAreSpaceFree, SystemProfile, RpmSettled, RewrittenRpm,
         SectionsKept;
    SystemProfilesAreSettled(parse, ctx, base, fedora, epel, stream);
    SecondPassOfFile(content, SystemProfile(parse, ctx, base, fedora, epel, stream));
  }
}
