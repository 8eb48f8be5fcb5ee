/**
  Certificate issuance brackets its validation by challenges: values in DNS record
  sets (section 8.4 of RFC 8555), or tokens served over HTTP (section 8.3). Every
  run, wherever it fails, ends with the challenges taken back in reverse order.
*/
module Acme {
  import opened Text
  import opened Wrappers

  /** A TXT record set of the hosted zone. */
  datatype RecordSet = RecordSet(ttl: nat, values: seq<string>)

  type Zone = map<string, RecordSet>

  /** The zone holds no empty record set. */
  predicate Proper(zone: Zone) {
    forall name :: name in zone ==> zone[name].values != []
  }

  /** What `present` hands out: whether the value was added or was there before. */
  datatype Handle = Handle(name: string, value: string, created: bool)

  // -------------------------------------------------------------------------
  // Route53
  // -------------------------------------------------------------------------

  const DEFAULT_TTL := 60

  predicate Holds(zone: Zone, name: string, value: string) {
    name in zone && value in zone[name].values
  }

  function Presented(zone: Zone, name: string, value: string): Zone {
    if Holds(zone, name, value) then zone
    else
      var current := if name in zone then zone[name] else RecordSet(DEFAULT_TTL, []);
      zone[name := current.(values := current.values + [value])]
  }

  /** The values other than `value`, in order. */
  function Without(values: seq<string>, value: string): (rest: seq<string>)
    ensures value !in rest
    ensures forall v :: v in values && v != value ==> v in rest
  {
    if values == [] then []
    else
      var n := |values| - 1;
      Without(values[..n], value) + (if values[n] == value then [] else [values[n]])
  }

  function Cleaned(zone: Zone, handle: Handle): Zone {
    if !handle.created || !Holds(zone, handle.name, handle.value) then zone
    else
      var current := zone[handle.name];
      if |current.values| == 1 then zone - {handle.name}
      else zone[handle.name := current.(values := Without(current.values, handle.value))]
  }

  lemma {:induction false} WithoutAbsent(values: seq<string>, value: string)
    requires value !in values
    ensures Without(values, value) == values
  {
    if values != [] {
      var n := |values| - 1;
      WithoutAbsent(values[..n], value);
      assert values == values[..n] + [values[n]];
    }
  }

  lemma WithoutLast(values: seq<string>, value: string)
    requires value !in values
    ensures Without(values + [value], value) == values
  {
    WithoutAbsent(values, value);
    assert (values + [value])[..|values|] == values;
  }

  /** Cleaning up right after presenting gives the zone back: values, order, TTL and absence. */
  lemma CleanupUndoesPresent(zone: Zone, name: string, value: string)
    requires Proper(zone)
    ensures Proper(Presented(zone, name, value))
    ensures Cleaned(Presented(zone, name, value), Handle(name, value, !Holds(zone, name, value))) == zone
  {
    hide Without;
    if !Holds(zone, name, value) {
      var after := Presented(zone, name, value);
      if name in zone {
        WithoutLast(zone[name].values, value);
        assert after[name := zone[name]] == zone;
      } else {
        assert after - {name} == zone;
      }
    }
  }

  // -------------------------------------------------------------------------
  // What was there before stays there
  // -------------------------------------------------------------------------

  /** Every record set of `before` is still there, with its TTL and its values in place. */
  predicate Keeps(before: Zone, zone: Zone) {
    forall name :: name in before ==>
      name in zone && zone[name].ttl == before[name].ttl && before[name].values <= zone[name].values
  }

  /** Adding a value keeps everything there was; a value that had to be added was not there before either. */
  lemma PresentKeeps(before: Zone, zone: Zone, name: string, value: string)
    requires Keeps(before, zone)
    ensures Keeps(before, Presented(zone, name, value))
    ensures Holds(before, name, value) ==> Holds(zone, name, value)
  {
  }

  lemma PresentHolds(zone: Zone, name: string, value: string)
    ensures Holds(Presented(zone, name, value), name, value)
    ensures forall n, v :: Holds(zone, n, v) ==> Holds(Presented(zone, name, value), n, v)
  {
  }

  /** Removing a value that was not there before keeps everything that was. */
  lemma CleanupKeeps(before: Zone, zone: Zone, handle: Handle)
    requires Proper(before) && Keeps(before, zone)
    requires handle.created ==> !Holds(before, handle.name, handle.value)
    ensures Keeps(before, Cleaned(zone, handle))
  {
    if handle.created && Holds(zone, handle.name, handle.value) && handle.name in before {
      var first, current := before[handle.name].values, zone[handle.name].values;
      assert first == current[..|first|];
      PrefixSurvives(first, current, handle.value);
    }
  }

  lemma {:induction false} PrefixSurvives(first: seq<string>, values: seq<string>, value: string)
    requires first <= values && value !in first
    ensures first <= Without(values, value)
  {
    if first == values {
      WithoutAbsent(values, value);
    } else {
      PrefixSurvives(first, values[..|values| - 1], value);
    }
  }

  // -------------------------------------------------------------------------
  // A run
  // -------------------------------------------------------------------------

  function TrimWildcard(domain: string): string {
    if StartsWith(domain, "*.") then TrimWildcard(domain[2..]) else domain
  }

  /** A domain and its wildcard are validated by values under the same name. */
  function ChallengeName(domain: string): string {
    "_acme-challenge." + TrimWildcard(domain)
  }

  /** What the server reports for one authorization, and which of the two provider calls fails, if any. */
  datatype Authorization =
    | Unreadable
    | Valid
    | Unexpected
    | NotOffered
    | Pending(domain: string, token: string, key: string, value: string, readFails: bool, writeFails: bool)

  datatype Provisioned = Http(token: string) | Dns(handle: Handle)

  /** The names and values of the DNS challenges were recorded as they were added to `before`. */
  ghost predicate Recorded(before: Zone, done: seq<Provisioned>, after: Zone)
    decreases |done|
  {
    if done == [] then after == before
    else
      var n := |done| - 1;
      match done[n]
      case Http(_) => Recorded(before, done[..n], after)
      case Dns(h) => exists zone: Zone :: Recorded(before, done[..n], zone) && AddsTo(zone, h, after)
  }

  ghost predicate AddsTo(zone: Zone, h: Handle, after: Zone) {
    h.created == !Holds(zone, h.name, h.value) && after == Presented(zone, h.name, h.value)
  }

  function Tokens(done: seq<Provisioned>): set<string> {
    set i | 0 <= i < |done| && done[i].Http? :: done[i].token
  }

  lemma {:induction false} RecordedKeeps(before: Zone, done: seq<Provisioned>, after: Zone)
    requires Proper(before) && Recorded(before, done, after)
    ensures Proper(after) && Keeps(before, after)
    ensures forall i :: 0 <= i < |done| && done[i].Dns? && done[i].handle.created ==>
              !Holds(before, done[i].handle.name, done[i].handle.value)
    decreases |done|
  {
    assert Keeps(before, before);
    hide Presented, Keeps, Proper, Holds;
    if done != [] {
      var n := |done| - 1;
      if done[n].Http? {
        RecordedKeeps(before, done[..n], after);
      } else {
        var h := done[n].handle;
        var zone: Zone :| Recorded(before, done[..n], zone) && AddsTo(zone, h, after);
        RecordedKeeps(before, done[..n], zone);
        CleanupUndoesPresent(zone, h.name, h.value);
        PresentKeeps(before, zone, h.name, h.value);
      }
    }
  }

  /** The map of tokens after `done` was provisioned: nothing else has changed. */
  predicate Serving(before: map<string, string>, done: seq<Provisioned>, after: map<string, string>) {
    && after.Keys == before.Keys + Tokens(done)
    && forall t :: t in before && t !in Tokens(done) ==> after[t] == before[t]
  }

  /** `history` continues `earlier` with states that keep everything there was. */
  ghost predicate AllKeep(before: Zone, earlier: seq<Zone>, history: seq<Zone>) {
    earlier <= history && forall i :: |earlier| <= i < |history| ==> Keeps(before, history[i])
  }

  lemma MoreHistory(before: Zone, earlier: seq<Zone>, history: seq<Zone>, zone: Zone)
    requires AllKeep(before, earlier, history) && Keeps(before, zone)
    ensures AllKeep(before, earlier, history + [zone])
  {
    hide Keeps;
  }

  lemma NothingAdded(zone: Zone, challenges: map<string, string>, history: seq<Zone>)
    ensures Recorded(zone, [], zone) && Serving(challenges, [], challenges) && AllKeep(zone, history, history)
  {
  }

  lemma HttpAdded(before: Zone, served: map<string, string>, done: seq<Provisioned>, zone: Zone,
                  challenges: map<string, string>, token: string, key: string)
    requires Recorded(before, done, zone) && Serving(served, done, challenges)
    ensures Recorded(before, done + [Http(token)], zone) &&
            Serving(served, done + [Http(token)], challenges[token := key])
  {
    var more := done + [Http(token)];
    assert more[..|done|] == done;
    TokensSnoc(done, Http(token));
  }

  lemma DnsAdded(before: Zone, served: map<string, string>, done: seq<Provisioned>, was: Zone,
                 challenges: map<string, string>, h: Handle, zone: Zone)
    requires Recorded(before, done, was) && Serving(served, done, challenges) && AddsTo(was, h, zone)
    ensures Recorded(before, done + [Dns(h)], zone) && Serving(served, done + [Dns(h)], challenges)
  {
    var more := done + [Dns(h)];
    assert more[..|done|] == done;
    TokensSnoc(done, Dns(h));
  }

  /** Every pending authorization finds its value in the zone. */
  predicate Published(zone: Zone, authorizations: seq<Authorization>) {
    forall a :: a in authorizations && a.Pending? ==> Holds(zone, ChallengeName(a.domain), a.value)
  }

  lemma MorePublished(was: Zone, authorizations: seq<Authorization>, a: Authorization, h: Handle, zone: Zone)
    requires Published(was, authorizations) && a.Pending? && AddsTo(was, h, zone)
    requires h.name == ChallengeName(a.domain) && h.value == a.value
    ensures Published(zone, authorizations + [a])
  {
    hide Holds, Presented, ChallengeName;
    PresentHolds(was, h.name, h.value);
  }

  // -------------------------------------------------------------------------
  // When a run succeeds
  // -------------------------------------------------------------------------

  /** Before authorization `i` is dealt with, its value is in the zone: from the start, or from an earlier one. */
  ghost predicate PresentBy(before: Zone, authorizations: seq<Authorization>, i: nat, name: string, value: string)
    requires i <= |authorizations|
  {
    || (name in before && value in before[name].values)
    || exists k :: 0 <= k < i && authorizations[k].Pending? && authorizations[k].value == value &&
                   ChallengeName(authorizations[k].domain) == name
  }

  /** Authorization `i` ends the run: the server's answer, a failing read, or a failing write of a missing value. */
  ghost predicate FailsAt(before: Zone, dns: bool, authorizations: seq<Authorization>, i: nat)
    requires i < |authorizations|
  {
    match authorizations[i]
    case Valid => false
    case Pending(domain, _, _, value, readFails, writeFails) =>
      dns && (readFails || (writeFails && !PresentBy(before, authorizations, i, ChallengeName(domain), value)))
    case _ => true
  }

  ghost predicate NoneFails(before: Zone, dns: bool, authorizations: seq<Authorization>) {
    forall i :: 0 <= i < |authorizations| ==> !FailsAt(before, dns, authorizations, i)
  }

  /** The zone holds exactly what was there and the values of the authorizations dealt with. */
  ghost predicate HoldsSoFar(before: Zone, authorizations: seq<Authorization>, i: nat, zone: Zone)
    requires i <= |authorizations|
  {
    forall name, value :: Holds(zone, name, value) <==> PresentBy(before, authorizations, i, name, value)
  }

  lemma PresentedHolds(zone: Zone, name: string, value: string, n: string, v: string)
    ensures Holds(Presented(zone, name, value), n, v) <==> Holds(zone, n, v) || (n == name && v == value)
  {
  }

  lemma OneMorePresent(before: Zone, authorizations: seq<Authorization>, i: nat, was: Zone, h: Handle, zone: Zone)
    requires i < |authorizations| && authorizations[i].Pending? && HoldsSoFar(before, authorizations, i, was)
    requires h.name == ChallengeName(authorizations[i].domain) && h.value == authorizations[i].value
    requires AddsTo(was, h, zone)
    ensures HoldsSoFar(before, authorizations, i + 1, zone)
  {
    hide Presented, Holds, ChallengeName;
    forall n, v ensures Holds(zone, n, v) <==> PresentBy(before, authorizations, i + 1, n, v) {
      PresentedHolds(was, h.name, h.value, n, v);
      assert Holds(was, n, v) <==> PresentBy(before, authorizations, i, n, v);
    }
  }

  lemma NothingPresent(zone: Zone, authorizations: seq<Authorization>)
    ensures HoldsSoFar(zone, authorizations, 0, zone) && Served([], map[])
    ensures forall challenges :: Served([], challenges)
  {
  }

  lemma PresentMeansHolds(before: Zone, authorizations: seq<Authorization>, i: nat, zone: Zone, name: string,
                          value: string)
    requires i <= |authorizations| && HoldsSoFar(before, authorizations, i, zone)
    ensures Holds(zone, name, value) <==> PresentBy(before, authorizations, i, name, value)
  {
  }

  lemma SamePresent(before: Zone, authorizations: seq<Authorization>, i: nat, zone: Zone)
    requires i < |authorizations| && !authorizations[i].Pending? && HoldsSoFar(before, authorizations, i, zone)
    ensures HoldsSoFar(before, authorizations, i + 1, zone)
  {
    hide Holds, ChallengeName;
    forall n, v ensures Holds(zone, n, v) <==> PresentBy(before, authorizations, i + 1, n, v) {
      assert Holds(zone, n, v) <==> PresentBy(before, authorizations, i, n, v);
    }
  }

  /** What the last authorization with this token wants served for it. */
  function KeyFor(authorizations: seq<Authorization>, token: string): Option<string> {
    if authorizations == [] then None
    else
      var n := |authorizations| - 1;
      if authorizations[n].Pending? && authorizations[n].token == token then Some(authorizations[n].key)
      else KeyFor(authorizations[..n], token)
  }

  predicate Served(authorizations: seq<Authorization>, challenges: map<string, string>) {
    forall a :: a in authorizations && a.Pending? ==> Get(challenges, a.token) == KeyFor(authorizations, a.token)
  }

  lemma MoreServed(authorizations: seq<Authorization>, a: Authorization, challenges: map<string, string>)
    requires Served(authorizations, challenges)
    ensures Served(authorizations + [a], if a.Pending? then challenges[a.token := a.key] else challenges)
  {
    var more := authorizations + [a];
    assert more[..|authorizations|] == authorizations && more[|authorizations|] == a;
  }

  class Manager {
    var zone: Zone
    var challenges: map<string, string>
    /** Every state the zone has been in. */
    ghost var history: seq<Zone>

    method Present(name: string, value: string, readFails: bool, writeFails: bool) returns (r: Option<Handle>)
      modifies this`zone, this`history
      ensures r.None? ==> zone == old(zone)
      ensures r.Some? ==> r.value.name == name && r.value.value == value && AddsTo(old(zone), r.value, zone)
      ensures r.None? <==> readFails || (writeFails && !Holds(old(zone), name, value))
      ensures history == if zone == old(zone) then old(history) else old(history) + [zone]
    {
      if readFails {
        return None;
      }
      var recordSet := if name in zone then zone[name] else RecordSet(DEFAULT_TTL, []);
      var created := value !in recordSet.values;
      if created {
        recordSet := recordSet.(values := recordSet.values + [value]);
        if writeFails {
          return None;
        }
        assert zone[name := recordSet] != zone;
        zone := zone[name := recordSet];
        history := history + [zone];
      }
      return Some(Handle(name, value, created));
    }

    method Cleanup(handle: Handle, fails: bool)
      modifies this`zone, this`history
      ensures zone == if fails then old(zone) else Cleaned(old(zone), handle)
      ensures history == old(history) || history == old(history) + [zone]
    {
      if !handle.created || fails {
        return;
      }
      if handle.name !in zone {
        return;
      }
      var current := zone[handle.name];
      if handle.value !in current.values {
        return;
      }
      if |current.values| == 1 {
        zone := zone - {handle.name};
      } else {
        zone := zone[handle.name := current.(values := Without(current.values, handle.value))];
      }
      history := history + [zone];
    }

    /** Adds a challenge for every pending authorization, until something fails. */
    method Provision(dns: bool, authorizations: seq<Authorization>) returns (done: seq<Provisioned>, ok: bool)
      requires Proper(zone)
      modifies this
      ensures Recorded(old(zone), done, zone)
      ensures Serving(old(challenges), done, challenges)
      ensures AllKeep(old(zone), old(history), history)
      ensures ok && dns ==> Published(zone, authorizations)
      ensures ok && !dns ==> Served(authorizations, challenges)
      ensures ok <==> NoneFails(old(zone), dns, authorizations)
    {
      hide Recorded, Keeps, Serving, AddsTo, Proper, ChallengeName, AllKeep, PresentBy, HoldsSoFar, Served, Holds;
      done := [];
      NothingAdded(zone, challenges, history);
      NothingPresent(zone, authorizations);
      for i := 0 to |authorizations|
        invariant Recorded(old(zone), done, zone)
        invariant Serving(old(challenges), done, challenges)
        invariant AllKeep(old(zone), old(history), history)
        invariant dns ==> Published(zone, authorizations[..i])
        invariant !dns ==> Served(authorizations[..i], challenges)
        invariant dns ==> HoldsSoFar(old(zone), authorizations, i, zone)
        invariant forall k :: 0 <= k < i ==> !FailsAt(old(zone), dns, authorizations, k)
      {
        assert authorizations[..i + 1] == authorizations[..i] + [authorizations[i]];
        ghost var fails := FailsAt(old(zone), dns, authorizations, i);
        if !dns {
          MoreServed(authorizations[..i], authorizations[i], challenges);
        }
        match authorizations[i] {
          case Unreadable => return done, false;
          case Valid =>
            if dns {
              SamePresent(old(zone), authorizations, i, zone);
            }
            continue;
          case Unexpected => return done, false;
          case NotOffered => return done, false;
          case Pending(domain, token, key, value, readFails, writeFails) =>
            if !dns {
              HttpAdded(old(zone), old(challenges), done, zone, challenges, token, key);
              challenges := challenges[token := key];
              done := done + [Http(token)];
            } else {
              ghost var was := zone;
              RecordedKeeps(old(zone), done, zone);
              ghost var earlier := history;
              PresentMeansHolds(old(zone), authorizations, i, zone, ChallengeName(domain), value);
              var handle := Present(ChallengeName(domain), value, readFails, writeFails);
              if handle.None? {
                return done, false;
              }
              DnsAdded(old(zone), old(challenges), done, was, challenges, handle.value, zone);
              OneMorePresent(old(zone), authorizations, i, was, handle.value, zone);
              MorePublished(was, authorizations[..i], authorizations[i], handle.value, zone);
              done := done + [Dns(handle.value)];
              RecordedKeeps(old(zone), done, zone);
              MoreHistory(old(zone), old(history), earlier, zone);
            }
        }
      }
      assert authorizations[..|authorizations|] == authorizations;
      return done, true;
    }

    /** Takes one challenge back. A token is removed without a remote call, so it cannot fail. */
    method CleanupChallenge(c: Provisioned, fails: bool)
      modifies this
      ensures zone == if c.Http? || fails then old(zone) else Cleaned(old(zone), c.handle)
      ensures challenges == if c.Http? then old(challenges) - {c.token} else old(challenges)
      ensures history == old(history) || history == old(history) + [zone]
    {
      match c {
        case Http(token) => challenges := challenges - {token};
        case Dns(handle) => Cleanup(handle, fails);
      }
    }

    /**
      One issuance: provision, let the server validate (`validated` is how that ends), and take every
      challenge back in reverse order, whatever failed before.
    */
    method Issue(dns: bool, authorizations: seq<Authorization>, validated: bool, cleanupFails: nat -> bool)
      returns (issued: bool, done: seq<Provisioned>)
      requires Proper(zone)
      modifies this
      ensures (forall i: nat :: i < |done| ==> !cleanupFails(i)) ==> zone == old(zone)
      ensures Keeps(old(zone), zone) && AllKeep(old(zone), old(history), history)
      ensures challenges == old(challenges) - Tokens(done)
      ensures issued <==> validated && NoneFails(old(zone), dns, authorizations)
    {
      hide Recorded, Keeps, Serving, Proper, AllKeep, Cleaned, Tokens, NoneFails;
      var ok;
      done, ok := Provision(dns, authorizations);
      issued := ok && validated;
      ghost var provisioned := challenges;
      RecordedKeeps(old(zone), done, zone);
      var i := |done|;
      assert done[..i] == done && done[i..] == [];
      NoTokensIn(challenges);
      while i > 0
        invariant 0 <= i <= |done|
        invariant (forall k: nat :: i <= k < |done| ==> !cleanupFails(k)) ==> Recorded(old(zone), done[..i], zone)
        invariant Keeps(old(zone), zone) && AllKeep(old(zone), old(history), history)
        invariant challenges == provisioned - Tokens(done[i..])
      {
        i := i - 1;
        ghost var earlier := history;
        TokensCons(done, i);
        assert done[..i + 1][..i] == done[..i];
        if forall k: nat :: i + 1 <= k < |done| ==> !cleanupFails(k) {
          TakenBack(old(zone), done[..i + 1], zone);
        }
        if done[i].Dns? {
          CleanupKeeps(old(zone), zone, done[i].handle);
        }
        CleanupChallenge(done[i], cleanupFails(i));
        MoreHistory(old(zone), old(history), earlier, zone);
      }
      assert done[0..] == done && done[..0] == [];
      NothingRecorded(old(zone), zone);
      Removed(old(challenges), done, provisioned);
    }
  }

  lemma NoTokensIn(challenges: map<string, string>)
    ensures challenges - Tokens([]) == challenges
  {
  }

  lemma NothingRecorded(before: Zone, zone: Zone)
    ensures Recorded(before, [], zone) <==> zone == before
  {
  }

  lemma Removed(before: map<string, string>, done: seq<Provisioned>, challenges: map<string, string>)
    requires Serving(before, done, challenges)
    ensures challenges - Tokens(done) == before - Tokens(done)
  {
    hide Tokens;
  }

  /** Cleaning up the last challenge leads back to the zone before it. */
  lemma TakenBack(before: Zone, done: seq<Provisioned>, zone: Zone)
    requires Proper(before) && done != [] && Recorded(before, done, zone)
    ensures var n := |done| - 1;
            Recorded(before, done[..n], if done[n].Http? then zone else Cleaned(zone, done[n].handle))
  {
    var n := |done| - 1;
    if done[n].Dns? {
      var h := done[n].handle;
      var earlier: Zone :| Recorded(before, done[..n], earlier) && AddsTo(earlier, h, zone);
      RecordedKeeps(before, done[..n], earlier);
      CleanupUndoesPresent(earlier, h.name, h.value);
    }
  }

  lemma TokensCons(done: seq<Provisioned>, i: nat)
    requires i < |done|
    ensures Tokens(done[i..]) == Tokens(done[i + 1..]) + (if done[i].Http? then {done[i].token} else {})
  {
    var a, b := done[i..], done[i + 1..];
    assert a[0] == done[i];
    assert forall k :: 0 <= k < |b| ==> a[k + 1] == b[k];
    assert forall k :: 1 <= k < |a| ==> a[k] == b[k - 1];
  }

  lemma TokensSnoc(done: seq<Provisioned>, c: Provisioned)
    ensures Tokens(done + [c]) == Tokens(done) + (if c.Http? then {c.token} else {})
  {
    var more := done + [c];
    assert forall i :: 0 <= i < |done| ==> more[i] == done[i];
    assert more[|done|] == c;
  }

  /** The token map comes back exactly when the tokens were fresh. */
  lemma FreshTokensRestoreTheMap(before: map<string, string>, tokens: set<string>)
    ensures before - tokens == before <==> tokens !! before.Keys
  {
    if before - tokens == before {
      forall t | t in tokens ensures t !in before.Keys {
        assert t !in (before - tokens).Keys;
      }
    }
  }

  /** A domain and its wildcard share one record set, named after the domain. */
  lemma WildcardsShareTheName(domain: string)
    ensures ChallengeName("*." + domain) == ChallengeName(domain)
    ensures |domain| < 2 || domain[..2] != "*." ==> ChallengeName(domain) == "_acme-challenge." + domain
  {
    assert ("*." + domain)[2..] == domain;
  }

  /** A new record set lives for a minute; an existing one keeps its time and its values. */
  lemma PresentedIs(zone: Zone, name: string, value: string)
    ensures name !in zone ==> Presented(zone, name, value) == zone[name := RecordSet(60, [value])]
    ensures name in zone && value !in zone[name].values ==>
              Presented(zone, name, value) == zone[name := RecordSet(zone[name].ttl, zone[name].values + [value])]
    ensures name in zone && value in zone[name].values ==> Presented(zone, name, value) == zone
  {
    if name !in zone {
      assert RecordSet(60, [] + [value]) == RecordSet(60, [value]);
    }
  }
}
