/** The table of active downloads: admission, host registration and cancellation. */
module Runtimes {
  import Text

  type Id = string

  /** A watch channel: `version` counts the signals sent; each receiver remembers the last one it saw. */
  datatype Active = Active(user: int, hosts: seq<string>, version: nat)

  datatype Limits = Limits(maxConcurrent: nat, maxUserConcurrent: nat)

  type Table = map<Id, Active>

  /** The in-memory test of a host against a rule. */
  predicate Matches(domain: string, subdomains: bool, host: string) {
    host == domain || (subdomains && Text.EndsWith(host, "." + domain))
  }

  function OfUser(active: Table, user: int): set<Id> {
    set id | id in active && active[id].user == user
  }

  function Signal(a: Active): Active {
    a.(version := a.version + 1)
  }

  /** Every entry satisfying `hit` has been signalled once more. */
  function Signalled(active: Table, hit: Active -> bool): Table {
    map id | id in active :: if hit(active[id]) then Signal(active[id]) else active[id]
  }

  predicate HostMatches(domain: string, subdomains: bool, a: Active) {
    exists i :: 0 <= i < |a.hosts| && Matches(domain, subdomains, a.hosts[i])
  }

  /** Which entries each cancellation is about. */
  function DomainHit(domain: string, subdomains: bool): Active -> bool {
    (a: Active) => HostMatches(domain, subdomains, a)
  }

  function UserHit(user: int): Active -> bool {
    (a: Active) => a.user == user
  }

  function EveryHit(): Active -> bool {
    (a: Active) => true
  }

  /** The three ways an entry comes, grows and goes; the blocking protocol is made of the same steps. */
  function Admitted(active: Table, id: Id, user: int): Table {
    active[id := Active(user, [], 0)]
  }

  function Registered(active: Table, id: Id, host: string): Table {
    if id in active then active[id := active[id].(hosts := active[id].hosts + [host])] else active
  }

  function Released(active: Table, id: Id): Table {
    active - {id}
  }

  predicate Admits(active: Table, user: int, limits: Limits) {
    |active| < limits.maxConcurrent && |OfUser(active, user)| < limits.maxUserConcurrent
  }

  /** Nobody exceeds the limits. */
  ghost predicate Within(active: Table, limits: Limits) {
    |active| <= limits.maxConcurrent && forall user :: UserWithin(active, limits, user)
  }

  ghost predicate UserWithin(active: Table, limits: Limits, user: int) {
    |OfUser(active, user)| <= limits.maxUserConcurrent
  }

  class Runtime {
    var active: Table

    constructor ()
      ensures active == map[]
    {
      active := map[];
    }

    /** `id` is the fresh random identifier. */
    method Acquire(id: Id, user: int, limits: Limits) returns (admitted: bool)
      requires id !in active
      modifies this
      ensures admitted == Admits(old(active), user, limits)
      ensures active == if admitted then Admitted(old(active), id, user) else old(active)
    {
      if |active| >= limits.maxConcurrent || |OfUser(active, user)| >= limits.maxUserConcurrent {
        return false;
      }
      active := active[id := Active(user, [], 0)];
      return true;
    }

    method Host(id: Id, host: string)
      modifies this
      ensures active == Registered(old(active), id, host)
    {
      if id in active {
        active := active[id := active[id].(hosts := active[id].hosts + [host])];
      }
    }

    /** The loop shared by the cancellations: visits every entry under the lock. */
    method SignalAll(hit: Active -> bool)
      modifies this
      ensures active == Signalled(old(active), hit)
    {
      var pending := active.Keys;
      while pending != {}
        invariant pending <= old(active).Keys == active.Keys
        invariant forall id :: id in active ==>
                    active[id] ==
                        if id !in pending && hit(old(active)[id]) then Signal(old(active)[id]) else old(active)[id]
        decreases |pending|
      {
        var id :| id in pending;
        if hit(active[id]) {
          active := active[id := Signal(active[id])];
        }
        pending := pending - {id};
      }
    }

    method CancelDomain(domain: string, subdomains: bool)
      modifies this
      ensures active == Signalled(old(active), DomainHit(domain, subdomains))
    {
      SignalAll(DomainHit(domain, subdomains));
    }

    method CancelUser(user: int)
      modifies this
      ensures active == Signalled(old(active), UserHit(user))
    {
      SignalAll(UserHit(user));
    }

    method CancelAll()
      modifies this
      ensures active == Signalled(old(active), EveryHit())
    {
      SignalAll(EveryHit());
    }

    /** Dropping the permit. */
    method Release(id: Id)
      modifies this
      ensures active == Released(old(active), id)
    {
      active := active - {id};
    }
  }

  /** Admission keeps the limits it was checked against. */
  lemma AdmissionKeepsLimits(active: Table, limits: Limits, id: Id, user: int)
    requires Within(active, limits) && id !in active && Admits(active, user, limits)
    ensures Within(Admitted(active, id, user), limits)
  {
    var more := Admitted(active, id, user);
    OneMoreEntry(active, id, Active(user, [], 0));
    forall u ensures UserWithin(more, limits, u) {
      AdmittedUserWithin(active, limits, id, user, u);
    }
  }

  lemma OneMoreEntry(active: Table, id: Id, a: Active)
    requires id !in active
    ensures |active[id := a]| == |active| + 1
  {
  }

  lemma AdmittedUserWithin(active: Table, limits: Limits, id: Id, user: int, u: int)
    requires UserWithin(active, limits, u) && id !in active && |OfUser(active, user)| < limits.maxUserConcurrent
    ensures UserWithin(active[id := Active(user, [], 0)], limits, u)
  {
    OneMoreForUser(active, id, user, u);
  }

  lemma OneMoreForUser(active: Table, id: Id, user: int, u: int)
    requires id !in active
    ensures |OfUser(active[id := Active(user, [], 0)], u)| == |OfUser(active, u)| + (if u == user then 1 else 0)
  {
    var more := active[id := Active(user, [], 0)];
    if u == user {
      assert OfUser(more, u) == OfUser(active, u) + {id};
    } else {
      assert OfUser(more, u) == OfUser(active, u);
    }
  }

  /** So does every change that adds no entry and moves none to another user. */
  lemma OthersKeepLimits(was: Table, now: Table, limits: Limits)
    requires Within(was, limits)
    requires now.Keys <= was.Keys && forall id :: id in now ==> now[id].user == was[id].user
    ensures Within(now, limits)
  {
    Subset(now.Keys, was.Keys);
    forall u ensures UserWithin(now, limits, u) {
      assert UserWithin(was, limits, u);
      Subset(OfUser(now, u), OfUser(was, u));
    }
  }

  lemma Subset<T>(a: set<T>, b: set<T>)
    requires a <= b
    ensures |a| <= |b|
  {
    assert b == a + (b - a);
  }

  /** A signal is about live downloads only: it adds, removes and moves nobody. */
  lemma SignalsKeepLimits(active: Table, hit: Active -> bool, limits: Limits)
    requires Within(active, limits)
    ensures Within(Signalled(active, hit), limits)
  {
    OthersKeepLimits(active, Signalled(active, hit), limits);
  }

  /** A permit that is dropped frees its place for the same user. */
  lemma ReleaseFreesAPlace(active: Table, limits: Limits, id: Id, user: int)
    requires Within(active, limits) && id in active && active[id].user == user
    ensures Within(Released(active, id), limits) && Admits(Released(active, id), user, limits)
  {
    var fewer := Released(active, id);
    OthersKeepLimits(active, fewer, limits);
    assert active.Keys == fewer.Keys + {id};
    assert OfUser(active, user) == OfUser(fewer, user) + {id};
    assert UserWithin(active, limits, user);
  }
}
