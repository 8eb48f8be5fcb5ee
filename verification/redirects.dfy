/**
  What blocking leaves alone: downloads that no rule concerns are signalled by nobody and come through,
  and a redirect loop ends after six hosts.
*/
module Redirects {
  import opened Blocking
  import opened Runtimes
  import opened Wrappers

  // -------------------------------------------------------------------------
  // Whom a rule concerns
  // -------------------------------------------------------------------------

  /** The domain itself or, where the rule includes them, a name that ends in a dot and the domain. */
  ghost predicate Concerns(domain: string, subdomains: bool, host: string) {
    host == domain || (subdomains && exists sub: string :: host == sub + ("." + domain))
  }

  lemma ConcernsIs(domain: string, subdomains: bool, host: string)
    ensures Matches(domain, subdomains, host) <==> Concerns(domain, subdomains, host)
  {
    var suffix := "." + domain;
    if |suffix| <= |host| && host[|host| - |suffix|..] == suffix {
      assert host == host[..|host| - |suffix|] + suffix;
    }
    if sub: string :| host == sub + suffix {
      assert host[|host| - |suffix|..] == suffix;
    }
  }

  ghost predicate SomeRuleConcerns(rules: Rules, host: string) {
    exists domain :: domain in rules && Concerns(domain, rules[domain], host)
  }

  /** The block list refuses exactly the hosts that some stored rule concerns. */
  lemma BlockedIs(rules: Rules, host: string)
    ensures Blocked(rules, host) <==> SomeRuleConcerns(rules, host)
  {
    forall d | d in rules
      ensures (d == host || (rules[d] && SqlTail(host, |d| + 1) == "." + d)) <==> Concerns(d, rules[d], host)
    {
      assert |"." + d| == |d| + 1;
      ConcernsIs(d, rules[d], host);
    }
  }

  /** A cancelled domain signals exactly the downloads that have registered a host it concerns, once. */
  lemma CancelledDomainSignals(active: Table, domain: string, subdomains: bool, id: Id)
    requires id in active
    ensures var after := Signalled(active, DomainHit(domain, subdomains));
            && after.Keys == active.Keys
            && after[id].user == active[id].user && after[id].hosts == active[id].hosts
            && after[id].version == active[id].version +
               if exists host :: host in active[id].hosts && Concerns(domain, subdomains, host) then 1 else 0
  {
    var a := active[id];
    forall host ensures Matches(domain, subdomains, host) <==> Concerns(domain, subdomains, host) {
      ConcernsIs(domain, subdomains, host);
    }
    hide Concerns, Matches;
    assert HostMatches(domain, subdomains, a) <==> exists host :: host in a.hosts && Concerns(domain, subdomains, host);
  }

  /** The other two cancellations, entry by entry. */
  lemma CancelledUserSignals(active: Table, user: int, id: Id)
    requires id in active
    ensures Signalled(active, UserHit(user))[id].version ==
            active[id].version + if active[id].user == user then 1 else 0
    ensures Signalled(active, EveryHit())[id].version == active[id].version + 1
  {
  }

  /** A place is free while fewer downloads run in all and for this user than the limits say. */
  lemma AdmittedIs(active: Table, id: Id, user: int, limits: Limits)
    ensures Admits(active, user, limits) <==>
            |active| < limits.maxConcurrent &&
            |set other | other in active && active[other].user == user| < limits.maxUserConcurrent
    ensures Admitted(active, id, user) == active[id := Active(user, [], 0)]
  {
    assert OfUser(active, user) == set other | other in active && active[other].user == user;
  }

  /** A download is signalled only by a scan that concerns one of its hosts, or with its user or everybody. */
  lemma SignalsHaveCauses(s: System, s': System, step: Step, id: Id)
    requires NextStep(s, s', step) && At(s, id) && At(s', id) && s'.active[id].version != s.active[id].version
    ensures || (step.Scan? &&
                exists host :: host in s.active[id].hosts && Concerns(step.rule.domain, step.rule.subdomains, host))
            || (step.OtherCancel? && (step.whose == None || step.whose == Some(s.active[id].user)))
  {
    if Midway(step) {
      MidwayFrame(s, s', step);
      assert false;
    } else if step.Scan? {
      CancelledDomainSignals(s.active, step.rule.domain, step.rule.subdomains, id);
    } else if step.OtherCancel? {
    }
  }

  /** A download gives its place back exactly once it is leaving, and no other entry changes. */
  lemma LeavingIsDropped(s: System, id: Id)
    requires At(s, id)
    ensures (exists s' :: NextStep(s, s', Drop(id))) <==> s.tasks[id].pc == Leaving
    ensures forall s' :: NextStep(s, s', Drop(id)) ==> s'.active == s.active - {id} && s'.tasks == s.tasks - {id}
  {
    var gone := s.(active := Released(s.active, id), tasks := s.tasks - {id});
    if s.tasks[id].pc == Leaving {
      assert NextStep(s, gone, Drop(id));
    }
  }

  /** A check ends in the request exactly when no stored rule concerns the host. */
  lemma CheckDecides(s: System, s': System, step: Step)
    requires NextStep(s, s', step) && (step.PassCheck? || step.RefuseCheck?)
    ensures s.tasks[step.id].pc.Check?
    ensures s'.tasks[step.id].pc == if SomeRuleConcerns(s.rules, s.tasks[step.id].pc.host) then Leaving else Fetch
  {
    BlockedIs(s.rules, s.tasks[step.id].pc.host);
  }

  // -------------------------------------------------------------------------
  // At most five redirects
  // -------------------------------------------------------------------------

  /** The hosts registered so far and the redirects still allowed. */
  predicate HopsAdd(s: System, id: Id)
    requires At(s, id)
  {
    var registered, hops := |s.active[id].hosts|, s.tasks[id].hops;
    match s.tasks[id].pc
    case Register(_) => registered + hops == 5
    case Leaving => registered <= 6
    case _ => registered + hops == 6
  }

  ghost predicate HopsInv(s: System) {
    Shape(s) && forall id :: At(s, id) ==> HopsAdd(s, id)
  }

  lemma MidwayHops(s: System, s': System, step: Step)
    requires NextStep(s, s', step) && Midway(step) && At(s, step.id) && At(s', step.id) && HopsAdd(s, step.id)
    ensures HopsAdd(s', step.id)
  {
  }

  lemma SignalledHops(s: System, s': System, hit: Active -> bool)
    requires HopsInv(s) && s'.active == Signalled(s.active, hit) && s'.tasks == s.tasks
    ensures HopsInv(s')
  {
    SignalledShape(s, s', hit);
    forall id | At(s', id) ensures HopsAdd(s', id) {
      assert At(s, id) && HopsAdd(s, id);
    }
  }

  /** Entries come with no hosts and five redirects, and go. */
  lemma ComeAndGoHops(s: System, s': System, step: Step)
    requires HopsInv(s) && NextStep(s, s', step) && (step.Begin? || step.Drop?)
    ensures HopsInv(s')
  {
    OtherShape(s, s', step);
    hide Shape, Admits;
    forall id | At(s', id) ensures HopsAdd(s', id) {
      if id != step.id {
        assert At(s, id) && HopsAdd(s, id);
      }
    }
  }

  lemma SameHops(s: System, s': System)
    requires HopsInv(s) && s'.active == s.active && s'.tasks == s.tasks
    ensures HopsInv(s')
  {
    forall id | At(s', id) ensures HopsAdd(s', id) {
      assert At(s, id) && HopsAdd(s, id);
    }
  }

  lemma OtherHops(s: System, s': System, step: Step)
    requires HopsInv(s) && NextStep(s, s', step) && !Midway(step)
    ensures HopsInv(s')
  {
    hide HopsInv, Signalled, Admits;
    match step
    case Scan(rule) => SignalledHops(s, s', DomainHit(rule.domain, rule.subdomains));
    case OtherCancel(whose) => SignalledHops(s, s', if whose.Some? then UserHit(whose.value) else EveryHit());
    case Begin(_, _, _, _) => ComeAndGoHops(s, s', step);
    case Drop(_) => ComeAndGoHops(s, s', step);
    case Store(_) => SameHops(s, s');
    case Lift(_) => SameHops(s, s');
  }

  lemma NextHops(s: System, s': System)
    requires HopsInv(s) && Next(s, s')
    ensures HopsInv(s')
  {
    var step :| NextStep(s, s', step);
    if Midway(step) {
      MidwayFrame(s, s', step);
      MidwayShape(s, s', step.id);
      hide NextStep;
      forall id | At(s', id) ensures HopsAdd(s', id) {
        if id == step.id {
          MidwayHops(s, s', step);
        } else {
          assert At(s, id) && HopsAdd(s, id);
        }
      }
    } else {
      OtherHops(s, s', step);
    }
  }

  /** No download ever asks more than six hosts. */
  lemma {:induction false} AtMostSixHosts(run: seq<System>, i: nat)
    requires IsRun(run) && i < |run|
    ensures HopsInv(run[i])
    ensures forall id :: At(run[i], id) ==> |run[i].active[id].hosts| <= 6
  {
    if i > 0 {
      AtMostSixHosts(run, i - 1);
      assert Linked(run, i - 1);
      NextHops(run[i - 1], run[i]);
    }
    forall id | At(run[i], id) ensures |run[i].active[id].hosts| <= 6 {
      assert HopsAdd(run[i], id);
    }
  }

  /** A redirect leads to the next host, and after the sixth host to the end. */
  lemma RedirectDecides(s: System, s': System, id: Id, next: string)
    requires HopsInv(s) && NextStep(s, s', Redirect(id, next))
    ensures s'.tasks[id].pc == if |s.active[id].hosts| == 6 then Leaving else Register(next)
    ensures s'.active == s.active && s'.rules == s.rules
  {
    assert HopsAdd(s, id);
  }

  // -------------------------------------------------------------------------
  // Unconcerned downloads come through
  // -------------------------------------------------------------------------

  ghost predicate Path(run: seq<System>, steps: seq<Step>) {
    |run| == |steps| + 1 && forall i :: 0 <= i < |steps| ==> NextStep(run[i], run[i + 1], steps[i])
  }

  lemma PathMore(s: System, step: Step, run: seq<System>, steps: seq<Step>)
    requires Path(run, steps) && NextStep(s, run[0], step)
    ensures Path([s] + run, [step] + steps)
  {
    hide NextStep;
    var states, taken := [s] + run, [step] + steps;
    forall i | 0 <= i < |taken| ensures NextStep(states[i], states[i + 1], taken[i]) {
      if i > 0 {
        assert NextStep(run[i - 1], run[i], steps[i - 1]);
      }
    }
  }

  /** The download streams from the last of `hosts`, and nothing but its own entry has changed. */
  ghost predicate Streams(s: System, end: System, id: Id, hosts: seq<string>) {
    && At(end, id) && end.tasks[id].pc == Streaming && end.active[id].hosts == hosts
    && end.rules == s.rules && end.active - {id} == s.active - {id} && end.tasks - {id} == s.tasks - {id}
  }

  /** One host: registered, checked and asked. */
  lemma OneHost(s: System, id: Id, host: string) returns (registered: System, fetching: System)
    requires At(s, id) && s.tasks[id].pc == Register(host) && !SomeRuleConcerns(s.rules, host)
    ensures NextStep(s, registered, RegisterHost(id)) && NextStep(registered, fetching, PassCheck(id))
    ensures At(fetching, id) && fetching.tasks[id] == s.tasks[id].(pc := Fetch)
    ensures fetching.active == s.active[id := s.active[id].(hosts := s.active[id].hosts + [host])]
    ensures fetching.rules == s.rules && fetching.tasks == s.tasks[id := fetching.tasks[id]]
  {
    BlockedIs(s.rules, host);
    hide Blocked, SomeRuleConcerns;
    registered := SetPc(s, id, Check(host)).(active := Registered(s.active, id, host));
    fetching := SetPc(registered, id, Fetch);
  }

  lemma LastHost(s: System, id: Id, hosts: seq<string>) returns (run: seq<System>, steps: seq<Step>)
    requires At(s, id) && s.tasks[id].pc == Fetch && s.active[id].hosts == hosts
    ensures Path(run, steps) && run[0] == s && Streams(s, run[|run| - 1], id, hosts)
    ensures run[|run| - 1].active[id].user == s.active[id].user
  {
    var answered := SetPc(s, id, Answered);
    var streaming := SetPc(answered, id, Blocking.Pc.Streaming);
    run, steps := [s, answered, streaming], [Answer(id), StartStream(id)];
  }

  lemma SameOthers<V>(m: map<Id, V>, id: Id, v: V)
    ensures m[id := v] - {id} == m - {id}
  {
  }

  /** From the registration of host `k` on. */
  lemma {:induction false} Follow(s: System, id: Id, hosts: seq<string>, k: nat)
    returns (run: seq<System>, steps: seq<Step>)
    requires k < |hosts| && At(s, id) && s.tasks[id].pc == Register(hosts[k]) && s.active[id].hosts == hosts[..k]
    requires |hosts| <= s.tasks[id].hops + k + 1
    requires forall h :: h in hosts ==> !SomeRuleConcerns(s.rules, h)
    ensures Path(run, steps) && run[0] == s && Streams(s, run[|run| - 1], id, hosts)
    ensures run[|run| - 1].active[id].user == s.active[id].user
    decreases |hosts| - k
  {
    hide SomeRuleConcerns;
    var registered, fetching := OneHost(s, id, hosts[k]);
    assert hosts[..k + 1] == hosts[..k] + [hosts[k]];
    SameOthers(s.active, id, fetching.active[id]);
    SameOthers(s.tasks, id, fetching.tasks[id]);
    if k == |hosts| - 1 {
      assert hosts[..k + 1] == hosts;
      run, steps := LastHost(fetching, id, hosts);
    } else {
      var task := fetching.tasks[id].(pc := Register(hosts[k + 1]), hops := fetching.tasks[id].hops - 1);
      var next := fetching.(tasks := fetching.tasks[id := task]);
      SameOthers(fetching.tasks, id, task);
      run, steps := Follow(next, id, hosts, k + 1);
      PathMore(fetching, Redirect(id, hosts[k + 1]), run, steps);
      run, steps := [fetching] + run, [Redirect(id, hosts[k + 1])] + steps;
    }
    PathMore(registered, PassCheck(id), run, steps);
    run, steps := [registered] + run, [PassCheck(id)] + steps;
    PathMore(s, RegisterHost(id), run, steps);
    run, steps := [s] + run, [RegisterHost(id)] + steps;
  }

  /** With a free place and up to six hosts that no rule concerns, a new download can get to its last host. */
  lemma UnconcernedDownloadStreams(s: System, id: Id, user: int, limits: Limits, hosts: seq<string>)
    returns (run: seq<System>, steps: seq<Step>)
    requires id !in s.active && id !in s.tasks && 1 <= |hosts| <= 6
    requires |s.active| < limits.maxConcurrent
    requires |set other | other in s.active && s.active[other].user == user| < limits.maxUserConcurrent
    requires forall h :: h in hosts ==> !SomeRuleConcerns(s.rules, h)
    ensures Path(run, steps) && run[0] == s && Streams(s, run[|run| - 1], id, hosts)
    ensures run[|run| - 1].active[id].user == user
  {
    hide SomeRuleConcerns;
    AdmittedIs(s.active, id, user, limits);
    var begun := s.(active := s.active[id := Active(user, [], 0)],
                    tasks := s.tasks[id := Task(Register(hosts[0]), 0, 5)]);
    SameOthers(s.active, id, begun.active[id]);
    SameOthers(s.tasks, id, begun.tasks[id]);
    run, steps := Follow(begun, id, hosts, 0);
    PathMore(s, Begin(id, user, limits, hosts[0]), run, steps);
    run, steps := [s] + run, [Begin(id, user, limits, hosts[0])] + steps;
  }
}
