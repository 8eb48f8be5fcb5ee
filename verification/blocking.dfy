/**
  Blocking a domain while downloads are being redirected: every interleaving of
  the redirect loops (register the host, then consult the block list) with any
  number of administrators (store the rule, then scan the table and cancel).
*/
module Blocking {
  import opened Wrappers
  import opened Runtimes

  /** The stored rules: domain to whether subdomains are included. */
  type Rules = map<string, bool>

  /** SQLite's `substr(s, -n)`: the last `n` characters, or all of them. */
  function SqlTail(s: string, n: nat): string {
    if n >= |s| then s else s[|s| - n..]
  }

  /** The block list query. */
  predicate Blocked(rules: Rules, host: string) {
    exists d :: d in rules && (d == host || (rules[d] && SqlTail(host, |d| + 1) == "." + d))
  }

  /** The query and the in-memory test agree on every single rule. */
  lemma QueryAgreesWithMemory(domain: string, subdomains: bool, host: string)
    ensures Blocked(map[domain := subdomains], host) <==> Matches(domain, subdomains, host)
  {
    assert |"." + domain| == |domain| + 1;
    if Matches(domain, subdomains, host) {
      assert domain in map[domain := subdomains];
    }
  }

  /** A stored rule blocks every host it matches. */
  lemma StoredRuleBlocks(rules: Rules, domain: string, host: string)
    requires domain in rules && Matches(domain, rules[domain], host)
    ensures Blocked(rules, host)
  {
    assert |"." + domain| == |domain| + 1;
  }

  const REDIRECTS := 5

  datatype Pc =
    | Register(host: string)   // about to register this host
    | Check(host: string)      // registered, block list not consulted yet
    | Fetch                    // resolving and sending the request
    | Answered                 // the redirect loop has returned a response
    | Streaming                // the worker runs
    | Leaving                  // refused, cancelled, failed or finished; the permit is still held

  /** `seen` is the receiver's side of the watch channel; `hops` the redirects still allowed. */
  datatype Task = Task(pc: Pc, seen: nat, hops: nat)

  datatype Rule = Rule(domain: string, subdomains: bool)

  /**
    `scans` holds the administrators between storing a rule and scanning the table;
    `settled` the rules in force for which a scan has ended since they were stored.
  */
  datatype System = System(
    rules: Rules,
    active: Table,
    tasks: map<Id, Task>,
    scans: multiset<Rule>,
    settled: set<Rule>)

  datatype Step =
    | Begin(id: Id, user: int, limits: Limits, entry: string)
    | RegisterHost(id: Id)
    | PassCheck(id: Id)
    | RefuseCheck(id: Id)
    | Redirect(id: Id, next: string)
    | Answer(id: Id)
    | StartStream(id: Id)
    | Observe(id: Id)          // the `changed()` branch of a select
    | Abort(id: Id)            // any error, deadline or normal end
    | Drop(id: Id)
    | Store(rule: Rule)
    | Lift(domain: string)
    | Scan(rule: Rule)
    | OtherCancel(whose: Option<int>)

  function SetPc(s: System, id: Id, pc: Pc): System
    requires id in s.tasks
  {
    s.(tasks := s.tasks[id := s.tasks[id].(pc := pc)])
  }

  predicate At(s: System, id: Id) {
    id in s.active && id in s.tasks
  }

  /** The phases in which a `select` watches the cancel signal. */
  predicate Watching(pc: Pc) {
    pc.Register? || pc.Check? || pc.Fetch? || pc.Streaming?
  }

  predicate NextStep(s: System, s': System, step: Step) {
    match step
    case Begin(id, user, limits, entry) =>
      && id !in s.active && id !in s.tasks && Admits(s.active, user, limits)
      && s' == s.(active := Admitted(s.active, id, user), tasks := s.tasks[id := Task(Register(entry), 0, REDIRECTS)])
    case RegisterHost(id) =>
      && At(s, id) && s.tasks[id].pc.Register?
      && var host := s.tasks[id].pc.host;
         s' == SetPc(s, id, Check(host)).(active := Registered(s.active, id, host))
    case PassCheck(id) =>
      At(s, id) && s.tasks[id].pc.Check? && !Blocked(s.rules, s.tasks[id].pc.host) && s' == SetPc(s, id, Fetch)
    case RefuseCheck(id) =>
      At(s, id) && s.tasks[id].pc.Check? && Blocked(s.rules, s.tasks[id].pc.host) && s' == SetPc(s, id, Leaving)
    case Redirect(id, next) =>
      && At(s, id) && s.tasks[id].pc == Fetch
      && s' == if s.tasks[id].hops == 0 then SetPc(s, id, Leaving)
               else s.(tasks := s.tasks[id := s.tasks[id].(pc := Register(next), hops := s.tasks[id].hops - 1)])
    case Answer(id) => At(s, id) && s.tasks[id].pc == Fetch && s' == SetPc(s, id, Answered)
    case StartStream(id) => At(s, id) && s.tasks[id].pc == Answered && s' == SetPc(s, id, Streaming)
    case Observe(id) =>
      && At(s, id) && Watching(s.tasks[id].pc) && s.active[id].version != s.tasks[id].seen
      && s' == SetPc(s, id, Leaving)
    case Abort(id) => At(s, id) && s' == SetPc(s, id, Leaving)
    case Drop(id) =>
      At(s, id) && s.tasks[id].pc == Leaving && s' == s.(active := Released(s.active, id), tasks := s.tasks - {id})
    case Store(rule) =>
      s' == s.(rules := s.rules[rule.domain := rule.subdomains],
               scans := s.scans + multiset{rule},
               settled := set r | r in s.settled && r.domain != rule.domain)
    case Lift(domain) =>
      s' == s.(rules := s.rules - {domain}, settled := set r | r in s.settled && r.domain != domain)
    case Scan(rule) =>
      && rule in s.scans
      && s' == s.(active := Signalled(s.active, DomainHit(rule.domain, rule.subdomains)),
                  scans := s.scans - multiset{rule},
                  settled := if Get(s.rules, rule.domain) == Some(rule.subdomains) then s.settled + {rule}
                             else s.settled)
    case OtherCancel(whose) =>
      s' == s.(active := Signalled(s.active, if whose.Some? then UserHit(whose.value) else EveryHit()))
  }

  ghost predicate Next(s: System, s': System) {
    exists step :: NextStep(s, s', step)
  }

  predicate Init(s: System) {
    s.active == map[] && s.tasks == map[] && s.scans == multiset{} && s.settled == {}
  }

  ghost predicate Linked(run: seq<System>, i: nat)
    requires i + 1 < |run|
  {
    Next(run[i], run[i + 1])
  }

  ghost predicate IsRun(run: seq<System>) {
    run != [] && Init(run[0]) && forall i :: 0 <= i < |run| - 1 ==> Linked(run, i)
  }

  // -------------------------------------------------------------------------
  // Invariant
  // -------------------------------------------------------------------------

  predicate Pending(s: System, id: Id)
    requires At(s, id)
  {
    s.active[id].version > s.tasks[id].seen
  }

  /** The download is leaving, has its signal raised, or has this host's check, bound to refuse, ahead. */
  predicate Stopped(s: System, id: Id, host: string)
    requires At(s, id)
  {
    s.tasks[id].pc == Leaving || Pending(s, id) || s.tasks[id].pc == Check(host)
  }

  ghost predicate Enforced(s: System, rule: Rule) {
    forall id, i :: At(s, id) && 0 <= i < |s.active[id].hosts| &&
                    Matches(rule.domain, rule.subdomains, s.active[id].hosts[i]) ==>
      Stopped(s, id, s.active[id].hosts[i])
  }

  ghost predicate Inv(s: System) {
    && Shape(s)
    && (forall r :: r in s.settled ==> Get(s.rules, r.domain) == Some(r.subdomains))
    && (forall r :: r in s.settled ==> Enforced(s, r))
  }

  /** A scan enforces its rule at once: every registered matching host has been signalled. */
  lemma ScanEnforces(s: System, s': System, rule: Rule)
    requires Inv(s) && NextStep(s, s', Scan(rule))
    ensures Enforced(s', rule)
  {
    forall id, i | At(s', id) && 0 <= i < |s'.active[id].hosts| &&
                   Matches(rule.domain, rule.subdomains, s'.active[id].hosts[i])
      ensures Stopped(s', id, s'.active[id].hosts[i])
    {
      assert At(s, id) && HostMatches(rule.domain, rule.subdomains, s.active[id]);
    }
  }

  /** Signals only raise versions, so what was stopped stays stopped. */
  lemma SignalsKeepEnforced(s: System, s': System, hit: Active -> bool, rule: Rule)
    requires Inv(s) && s'.active == Signalled(s.active, hit) && s'.tasks == s.tasks && Enforced(s, rule)
    ensures Enforced(s', rule)
  {
    forall id, i | At(s', id) && 0 <= i < |s'.active[id].hosts| &&
                   Matches(rule.domain, rule.subdomains, s'.active[id].hosts[i])
      ensures Stopped(s', id, s'.active[id].hosts[i])
    {
      assert At(s, id) && s'.active[id].hosts == s.active[id].hosts;
      assert Stopped(s, id, s.active[id].hosts[i]);
    }
  }

  /** The steps of one download. */
  predicate TaskStep(step: Step) {
    !(step.Store? || step.Lift? || step.Scan? || step.OtherCancel?)
  }

  /** The steps of a download that is already in the table. */
  predicate Midway(step: Step) {
    TaskStep(step) && !step.Begin? && !step.Drop?
  }

  /**
    What such a step may change: the phase of its own download, to `Fetch` only past a check, and its
    hosts, by registering one whose check is next.
  */
  lemma MidwayFrame(s: System, s': System, step: Step)
    requires NextStep(s, s', step) && Midway(step)
    ensures s'.rules == s.rules && s'.settled == s.settled && At(s, step.id) && At(s', step.id)
    ensures s'.tasks == s.tasks[step.id := s'.tasks[step.id]]
    ensures s'.active == s.active[step.id := s'.active[step.id]]
    ensures s'.tasks[step.id].seen == s.tasks[step.id].seen && s'.active[step.id].version == s.active[step.id].version
    ensures var pc, pc' := s.tasks[step.id].pc, s'.tasks[step.id].pc;
            var hosts, hosts' := s.active[step.id].hosts, s'.active[step.id].hosts;
            && (pc.Check? ==> pc' == Leaving || (pc' == Fetch && !Blocked(s.rules, pc.host)))
            && (pc == Leaving ==> pc' == Leaving)
            && (hosts' == hosts || (pc.Register? && pc'.Check? && hosts' == hosts + [pc'.host]))
  {
    assert s.tasks[step.id := s.tasks[step.id]] == s.tasks;
    assert s.active[step.id := s.active[step.id]] == s.active;
  }

  /** A download's own step keeps each of its matching hosts stopped. */
  lemma MidwayKeepsStopped(s: System, s': System, step: Step, rule: Rule, i: nat)
    requires NextStep(s, s', step) && Midway(step)
    requires Enforced(s, rule) && Get(s.rules, rule.domain) == Some(rule.subdomains)
    requires At(s', step.id) && i < |s'.active[step.id].hosts|
    requires Matches(rule.domain, rule.subdomains, s'.active[step.id].hosts[i])
    ensures Stopped(s', step.id, s'.active[step.id].hosts[i])
  {
    MidwayFrame(s, s', step);
    var id := step.id;
    var host := s'.active[id].hosts[i];
    if i < |s.active[id].hosts| {
      assert s.active[id].hosts[i] == host;
      assert Stopped(s, id, s.active[id].hosts[i]);
      if s.tasks[id].pc == Check(host) {
        StoredRuleBlocks(s.rules, rule.domain, host);
      }
    }
  }

  lemma TaskKeepsEnforced(s: System, s': System, step: Step, rule: Rule)
    requires NextStep(s, s', step) && TaskStep(step)
    requires Enforced(s, rule) && Get(s.rules, rule.domain) == Some(rule.subdomains)
    ensures Enforced(s', rule)
  {
    forall id, i | At(s', id) && 0 <= i < |s'.active[id].hosts| &&
                   Matches(rule.domain, rule.subdomains, s'.active[id].hosts[i])
      ensures Stopped(s', id, s'.active[id].hosts[i])
    {
      if id != step.id {
        if Midway(step) {
          MidwayFrame(s, s', step);
        }
        assert At(s, id) && s'.active[id] == s.active[id] && s'.tasks[id] == s.tasks[id];
        assert Stopped(s, id, s.active[id].hosts[i]);
      } else if Midway(step) {
        MidwayKeepsStopped(s, s', step, rule, i);
      }
    }
  }

  /** A settled rule is stored, and stays enforced. */
  lemma SettledStaysEnforced(s: System, s': System, step: Step, r: Rule)
    requires Inv(s) && NextStep(s, s', step) && r in s'.settled
    ensures Enforced(s', r) && Get(s'.rules, r.domain) == Some(r.subdomains)
  {
    if TaskStep(step) {
      TaskKeepsRules(s, s', step);
      TaskKeepsEnforced(s, s', step, r);
    } else {
      AdminStepEnforces(s, s', step, r);
    }
  }

  lemma TaskKeepsRules(s: System, s': System, step: Step)
    requires NextStep(s, s', step) && TaskStep(step)
    ensures s'.rules == s.rules && s'.settled == s.settled
  {
    if Midway(step) {
      MidwayFrame(s, s', step);
    }
  }

  lemma AdminStepEnforces(s: System, s': System, step: Step, r: Rule)
    requires Inv(s) && NextStep(s, s', step) && !TaskStep(step) && r in s'.settled
    ensures Enforced(s', r) && Get(s'.rules, r.domain) == Some(r.subdomains)
  {
    hide Inv, Enforced, NextStep;
    match step
    case Scan(rule) => ScanKeepsSettled(s, s', rule, r);
    case OtherCancel(whose) => CancelKeepsSettled(s, s', whose, r);
    case Store(rule) => StoreKeepsSettled(s, s', rule, r);
    case Lift(domain) => LiftKeepsSettled(s, s', domain, r);
  }

  lemma ScanKeepsSettled(s: System, s': System, rule: Rule, r: Rule)
    requires Inv(s) && NextStep(s, s', Scan(rule)) && r in s'.settled
    ensures Enforced(s', r) && Get(s'.rules, r.domain) == Some(r.subdomains)
  {
    hide Enforced, Shape, Signalled;
    if r == rule {
      ScanEnforces(s, s', rule);
    } else {
      SignalsKeepEnforced(s, s', DomainHit(rule.domain, rule.subdomains), r);
    }
  }

  lemma CancelKeepsSettled(s: System, s': System, whose: Option<int>, r: Rule)
    requires Inv(s) && NextStep(s, s', OtherCancel(whose)) && r in s'.settled
    ensures Enforced(s', r) && Get(s'.rules, r.domain) == Some(r.subdomains)
  {
    hide Enforced, Shape, Signalled;
    SignalsKeepEnforced(s, s', if whose.Some? then UserHit(whose.value) else EveryHit(), r);
  }

  lemma StoreKeepsSettled(s: System, s': System, rule: Rule, r: Rule)
    requires Inv(s) && NextStep(s, s', Store(rule)) && r in s'.settled
    ensures Enforced(s', r) && Get(s'.rules, r.domain) == Some(r.subdomains)
  {
    hide Enforced, Shape;
    SameTableKeepsEnforced(s, s', r);
  }

  lemma LiftKeepsSettled(s: System, s': System, domain: string, r: Rule)
    requires Inv(s) && NextStep(s, s', Lift(domain)) && r in s'.settled
    ensures Enforced(s', r) && Get(s'.rules, r.domain) == Some(r.subdomains)
  {
    hide Enforced, Shape;
    SameTableKeepsEnforced(s, s', r);
  }

  lemma SameTableKeepsEnforced(s: System, s': System, r: Rule)
    requires s'.active == s.active && s'.tasks == s.tasks && Enforced(s, r)
    ensures Enforced(s', r)
  {
    forall id, i | At(s', id) && 0 <= i < |s'.active[id].hosts| &&
                   Matches(r.domain, r.subdomains, s'.active[id].hosts[i])
      ensures Stopped(s', id, s'.active[id].hosts[i])
    {
      assert At(s, id) && Stopped(s, id, s.active[id].hosts[i]);
    }
  }

  /** Every table entry has its task, whose receiver is not ahead of its sender. */
  ghost predicate Shape(s: System) {
    && s.active.Keys == s.tasks.Keys
    && forall id :: At(s, id) ==> s.tasks[id].seen <= s.active[id].version
  }

  lemma MidwayShape(s: System, s': System, id: Id)
    requires Shape(s) && At(s, id) && At(s', id)
    requires s'.tasks == s.tasks[id := s'.tasks[id]] && s'.active == s.active[id := s'.active[id]]
    requires s'.tasks[id].seen == s.tasks[id].seen && s'.active[id].version == s.active[id].version
    ensures Shape(s')
  {
    assert s'.tasks.Keys == s.tasks.Keys && s'.active.Keys == s.active.Keys;
  }

  lemma SignalledShape(s: System, s': System, hit: Active -> bool)
    requires Shape(s) && s'.active == Signalled(s.active, hit) && s'.tasks == s.tasks
    ensures Shape(s')
  {
    assert s'.active.Keys == s.active.Keys;
  }

  lemma BegunShape(s: System, s': System, id: Id, a: Active, task: Task)
    requires Shape(s) && id !in s.active && a.version == task.seen == 0
    requires s'.active == s.active[id := a] && s'.tasks == s.tasks[id := task]
    ensures Shape(s')
  {
    assert s'.active.Keys == s.active.Keys + {id} && s'.tasks.Keys == s.tasks.Keys + {id};
  }

  lemma DroppedShape(s: System, s': System, id: Id)
    requires Shape(s) && s'.active == s.active - {id} && s'.tasks == s.tasks - {id}
    ensures Shape(s')
  {
    assert s'.active.Keys == s.active.Keys - {id} && s'.tasks.Keys == s.tasks.Keys - {id};
  }

  lemma OtherShape(s: System, s': System, step: Step)
    requires Shape(s) && NextStep(s, s', step) && !Midway(step)
    ensures Shape(s')
  {
    match step
    case Begin(id, user, limits, entry) =>
      BegunShape(s, s', id, Active(user, [], 0), Task(Register(entry), 0, REDIRECTS));
    case Drop(id) =>
      DroppedShape(s, s', id);
    case Scan(rule) =>
      SignalledShape(s, s', DomainHit(rule.domain, rule.subdomains));
    case OtherCancel(whose) =>
      SignalledShape(s, s', if whose.Some? then UserHit(whose.value) else EveryHit());
    case Store(_) =>
    case Lift(_) =>
  }

  lemma NextShape(s: System, s': System, step: Step)
    requires Shape(s) && NextStep(s, s', step)
    ensures Shape(s')
  {
    if Midway(step) {
      MidwayFrame(s, s', step);
      MidwayShape(s, s', step.id);
    } else {
      OtherShape(s, s', step);
    }
  }

  lemma NextInv(s: System, s': System)
    requires Inv(s) && Next(s, s')
    ensures Inv(s')
  {
    var step :| NextStep(s, s', step);
    NextShape(s, s', step);
    forall r | r in s'.settled
      ensures Enforced(s', r) && Get(s'.rules, r.domain) == Some(r.subdomains)
    {
      SettledStaysEnforced(s, s', step, r);
    }
  }

  lemma {:induction false} RunInv(run: seq<System>, i: nat)
    requires IsRun(run) && i < |run|
    ensures Inv(run[i])
  {
    if i > 0 {
      RunInv(run, i - 1);
      assert Linked(run, i - 1);
      NextInv(run[i - 1], run[i]);
    }
  }

  // -------------------------------------------------------------------------
  // Theorems
  // -------------------------------------------------------------------------

  /**
    Once a scan for a rule has ended, and as long as the rule stays in force, every live download that
    registered a matching host has its signal raised or its own check of that host still ahead, and
    that check refuses.
  */
  lemma BlockReachesEveryDownload(run: seq<System>, i: nat, rule: Rule, id: Id, host: string)
    requires IsRun(run) && i < |run| && rule in run[i].settled
    requires At(run[i], id) && host in run[i].active[id].hosts && Matches(rule.domain, rule.subdomains, host)
    requires run[i].tasks[id].pc != Leaving
    ensures Pending(run[i], id) || run[i].tasks[id].pc == Check(host)
    ensures Blocked(run[i].rules, host)
    ensures run[i].tasks[id].pc == Streaming ==> Pending(run[i], id)
  {
    RunInv(run, i);
    var s := run[i];
    var k :| 0 <= k < |s.active[id].hosts| && s.active[id].hosts[k] == host;
    assert Enforced(s, rule) && Stopped(s, id, s.active[id].hosts[k]);
    assert Get(s.rules, rule.domain) == Some(rule.subdomains);
    StoredRuleBlocks(s.rules, rule.domain, host);
  }

  /** A rule becomes settled by the scan that follows its storing, and leaves only when it is replaced or lifted. */
  lemma SettledUntilReplaced(s: System, s': System, step: Step, rule: Rule)
    requires Inv(s) && NextStep(s, s', step)
    ensures step == Scan(rule) && Get(s.rules, rule.domain) == Some(rule.subdomains) ==> rule in s'.settled
    ensures rule in s.settled && rule !in s'.settled ==>
              (step.Store? && step.rule.domain == rule.domain) || step == Lift(rule.domain)
  {
  }

  /** A raised signal survives the passage from the redirect loop to the streaming phase: it is lost in no step. */
  lemma SignalIsSticky(s: System, s': System, id: Id)
    requires Next(s, s') && At(s, id) && At(s', id) && Pending(s, id)
    ensures Pending(s', id)
  {
    var step :| NextStep(s, s', step);
    if Midway(step) {
      MidwayFrame(s, s', step);
    }
    assert s'.tasks[id].seen == s.tasks[id].seen;
  }

  /** A raised signal can end the download except between its two selects. */
  lemma SignalIsObservable(s: System, id: Id)
    requires At(s, id) && Pending(s, id) && s.tasks[id].pc != Answered && s.tasks[id].pc != Leaving
    ensures Next(s, SetPc(s, id, Leaving))
  {
    assert NextStep(s, SetPc(s, id, Leaving), Observe(id));
  }
}
