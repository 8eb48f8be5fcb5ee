/**
  The other half of the streaming phase: the worker fails only for a cause, and without one every
  download that the policy allows comes to a clean end with the whole body.
*/
module Delivery {
  import opened Streaming

  // -------------------------------------------------------------------------
  // No failure without a cause
  // -------------------------------------------------------------------------

  /** A run together with the steps it takes. */
  ghost predicate Takes(c: Config, run: seq<State>, steps: seq<Step>) {
    |run| == |steps| + 1 && forall i :: 0 <= i < |steps| ==> NextStep(c, run[i], run[i + 1], steps[i])
  }

  ghost predicate IsTrace(c: Config, body: Bytes, run: seq<State>, steps: seq<Step>) {
    Takes(c, run, steps) && Init(c, body, run[0])
  }

  lemma TraceIsRun(c: Config, body: Bytes, run: seq<State>, steps: seq<Step>)
    requires IsTrace(c, body, run, steps)
    ensures IsRun(c, body, run)
  {
    hide NextStep;
    forall i | 0 <= i < |run| - 1 ensures Linked(c, run, i) {
      assert NextStep(c, run[i], run[i + 1], steps[i]);
    }
  }

  /** The worker has not failed, nor told anybody that it did. */
  predicate Sound(s: State) {
    && s.pc != Failing && s.pc != Flagged && !s.flag && s.errors == 0
    && (s.consumer == Listening || s.consumer == Ended(true) || s.consumer == Closed)
  }

  /** Of a body that is not too large the limit never stops a chunk. */
  lemma LimitHolds(c: Config, body: Bytes, s: State)
    requires Inv(c, body, s) && s.pc.Limiting? && |body| <= c.maxFileBytes
    ensures s.total + |s.pc.chunk| <= c.maxFileBytes
  {
    assert |s.sent + Held(s) + JoinChunks(s.ahead)| == |body|;
  }

  lemma StepKeepsSound(c: Config, body: Bytes, s: State, s': State, step: Step)
    requires Inv(c, body, s) && |body| <= c.maxFileBytes && Sound(s)
    requires NextStep(c, s, s', step) && step != WorkFails
    ensures Sound(s')
  {
    if step == Limit {
      LimitHolds(c, body, s);
    }
  }

  /**
    Unless an error, the deadline, a cancellation or a departed consumer makes the work fail, a body
    within the limit is never reported as failed, whatever policy changes and interleaving do: an end
    is a clean one, and it comes with all the bytes.
  */
  lemma {:induction false} FailuresHaveCauses(c: Config, body: Bytes, run: seq<State>, steps: seq<Step>, i: nat)
    requires IsTrace(c, body, run, steps) && i < |run|
    requires |body| <= c.maxFileBytes && WorkFails !in steps
    ensures !run[i].flag && run[i].errors == 0 && run[i].pc != Failing
    ensures run[i].consumer.Ended? ==> run[i].consumer == Ended(true) && run[i].received == body
    ensures Sound(run[i])
    decreases i
  {
    TraceIsRun(c, body, run, steps);
    ClientSeesTheTruth(c, body, run, i);
    if i > 0 {
      FailuresHaveCauses(c, body, run, steps, i - 1);
      RunInv(c, body, run, i - 1);
      assert steps[i - 1] in steps;
      StepKeepsSound(c, body, run[i - 1], run[i], steps[i - 1]);
    }
  }

  /** A worker fails only by such a cause, or at a chunk that takes the total beyond the limit. */
  lemma WorkerFailsFor(c: Config, s: State, s': State, step: Step)
    requires NextStep(c, s, s', step) && Working(s.pc) && !Working(s'.pc)
    ensures || (step == WorkFails && s'.pc == Failing)
            || (s.pc.Limiting? && s.total + |s.pc.chunk| > c.maxFileBytes && s'.pc == Failing)
            || (s.pc == Reading && s.ahead == [] && s'.pc == Succeeded)
  {
  }

  // -------------------------------------------------------------------------
  // Every allowed download can finish, and nothing can keep it from finishing
  // -------------------------------------------------------------------------

  predicate Allows(policy: Policy, c: Config) {
    policy.enabled && policy.tokenValid && forall host: nat :: host < c.hosts ==> host !in policy.blocked
  }

  /** The steps of the worker and of the channel; the rest are others interfering. */
  predicate Benign(step: Step) {
    step != WorkFails && step != Close && !step.PolicyChanges?
  }

  /** A download under way. */
  ghost predicate Underway(c: Config, body: Bytes, s: State) {
    && Inv(c, body, s) && Sound(s) && s.consumer == Listening
    && Allows(s.policy, c) && |body| <= c.maxFileBytes
  }

  function Chunks(s: State): nat {
    2 * |s.ahead| + if s.pc.Recording? || s.pc.Limiting? then 1 else 0
  }

  function Stage(s: State): nat {
    match s.pc
    case Recording(_) => 14
    case Limiting(_) => 13
    case CheckEnabled => 12
    case CheckToken => 11
    case CheckHost(_) => 10
    case Throttle => 9
    case Recheck => 8
    case Charge => 7
    case Send => 6
    case NextPart => 5
    case Reading => 4
    case Succeeded => 3
    case Gone => 2
    case _ => 0
  }

  function HostsLeft(c: Config, s: State): nat {
    if s.pc.CheckHost? && s.pc.host < c.hosts then c.hosts - s.pc.host else 0
  }

  /** The state is closer to the end: fewer chunks, parts, stages, hosts or queued parts, in this order. */
  predicate Closer(c: Config, s': State, s: State) {
    || Chunks(s') < Chunks(s)
    || (Chunks(s') == Chunks(s) &&
        (|| |s'.parts| < |s.parts|
         || (|s'.parts| == |s.parts| &&
             (|| Stage(s') < Stage(s)
              || (Stage(s') == Stage(s) &&
                  (|| HostsLeft(c, s') < HostsLeft(c, s)
                   || (HostsLeft(c, s') == HostsLeft(c, s) && |s'.channel| < |s.channel|)))))))
  }

  lemma BenignComesCloser(c: Config, body: Bytes, s: State, s': State, step: Step)
    requires Inv(c, body, s) && |body| <= c.maxFileBytes && Sound(s)
    requires Benign(step) && NextStep(c, s, s', step) && step != SeeEnd
    ensures Closer(c, s', s)
  {
    hide Inv;
    if step == Limit {
      LimitHolds(c, body, s);
    }
  }

  lemma BenignKeepsPolicy(c: Config, s: State, s': State, step: Step)
    requires Sound(s) && Benign(step) && NextStep(c, s, s', step) && s.consumer == Listening
    ensures s'.policy == s.policy
    ensures s'.consumer == if step == SeeEnd then Ended(true) else Listening
  {
  }

  /** No step of the worker or of the channel is wasted: each ends the download or brings the end closer. */
  lemma StepsComeCloser(c: Config, body: Bytes, s: State, s': State, step: Step)
    requires Underway(c, body, s) && Benign(step) && NextStep(c, s, s', step)
    ensures if s'.consumer == Ended(true) then s'.received == body else Underway(c, body, s') && Closer(c, s', s)
  {
    hide Inv, NextStep, Sound, Closer, Benign, Allows;
    assert Next(c, s, s');
    NextInv(c, body, s, s');
    BenignIsNoFailure(step);
    StepKeepsSound(c, body, s, s', step);
    BenignKeepsPolicy(c, s, s', step);
    if step == SeeEnd {
      EndIsWhole(c, body, s');
    } else {
      BenignComesCloser(c, body, s, s', step);
    }
  }

  lemma BenignIsNoFailure(step: Step)
    requires Benign(step)
    ensures step != WorkFails
  {
  }

  lemma EndIsWhole(c: Config, body: Bytes, s: State)
    requires Inv(c, body, s) && s.consumer == Ended(true)
    ensures s.received == body
  {
    assert s.sent == s.received + [];
  }

  /** The step that is possible now. */
  function Enabled(c: Config, s: State): Step {
    if s.channel != [] then Receive
    else
      match s.pc
      case Reading => if s.ahead == [] then ReadEnd else Read
      case Recording(_) => Record
      case Limiting(_) => Limit
      case NextPart => if s.parts == [] then ChunkDone else Take
      case CheckEnabled => PassEnabled
      case CheckToken => PassToken
      case CheckHost(host) => if host < c.hosts then PassHost else PassHosts
      case Throttle => Pace
      case Recheck => PassRecheck
      case Charge => Pay
      case Send => Queue
      case Succeeded => DropSender
      case _ => SeeEnd
  }

  /** An allowed download is never stuck. */
  lemma SomeStepIsEnabled(c: Config, body: Bytes, s: State) returns (s': State)
    requires Underway(c, body, s)
    ensures Benign(Enabled(c, s)) && NextStep(c, s, s', Enabled(c, s))
  {
    match Enabled(c, s)
    case Receive => s' := s.(received := s.received + s.channel[0], channel := s.channel[1..]);
    case Read => s' := s.(pc := Recording(s.ahead[0]), ahead := s.ahead[1..]);
    case ReadEnd => s' := s.(pc := Succeeded);
    case Record => s' := s.(pc := Limiting(s.pc.chunk), recorded := s.recorded + |s.pc.chunk|);
    case Limit =>
      LimitHolds(c, body, s);
      s' := s.(pc := NextPart, total := s.total + |s.pc.chunk|, parts := Split(s.pc.chunk));
    case Take => s' := s.(pc := CheckEnabled, part := s.parts[0], parts := s.parts[1..]);
    case ChunkDone => s' := s.(pc := Reading);
    case PassEnabled => s' := s.(pc := CheckToken);
    case PassToken => s' := s.(pc := CheckHost(0));
    case PassHost => s' := s.(pc := CheckHost(s.pc.host + 1));
    case PassHosts => s' := s.(pc := Throttle);
    case Pace => s' := s.(pc := Recheck);
    case PassRecheck => s' := s.(pc := Charge);
    case Pay => s' := s.(pc := Send, charged := s.charged + |s.part|, charges := s.charges + 1);
    case Queue => s' := s.(pc := NextPart, part := [], channel := [s.part], sent := s.sent + s.part);
    case DropSender => s' := s.(pc := Gone);
    case SeeEnd => s' := s.(consumer := Ended(true));
  }

  lemma TakesMore(c: Config, s: State, step: Step, run: seq<State>, steps: seq<Step>)
    requires Takes(c, run, steps) && NextStep(c, s, run[0], step)
    ensures Takes(c, [s] + run, [step] + steps)
  {
    hide NextStep;
    var states, taken := [s] + run, [step] + steps;
    forall i | 0 <= i < |taken| ensures NextStep(c, states[i], states[i + 1], taken[i]) {
      if i > 0 {
        assert NextStep(c, run[i - 1], run[i], steps[i - 1]);
      }
    }
  }

  ghost predicate AllBenign(steps: seq<Step>) {
    forall i :: 0 <= i < |steps| ==> Benign(steps[i])
  }

  /** From anywhere in an allowed download its clean end can be reached without anybody's help. */
  lemma {:induction false} CanFinish(c: Config, body: Bytes, s: State) returns (run: seq<State>, steps: seq<Step>)
    requires Underway(c, body, s)
    ensures Takes(c, run, steps) && run[0] == s && AllBenign(steps)
    ensures run[|run| - 1].consumer == Ended(true) && run[|run| - 1].received == body
    decreases Chunks(s), |s.parts|, Stage(s), HostsLeft(c, s), |s.channel|
  {
    hide NextStep, Underway, Benign, Stage, Chunks, HostsLeft, Enabled;
    var s' := SomeStepIsEnabled(c, body, s);
    StepsComeCloser(c, body, s, s', Enabled(c, s));
    if s'.consumer == Ended(true) {
      run, steps := [s'], [];
    } else {
      run, steps := CanFinish(c, body, s');
    }
    TakesMore(c, s, Enabled(c, s), run, steps);
    run, steps := [s] + run, [Enabled(c, s)] + steps;
  }

  function Start(policy: Policy, chunks: seq<Bytes>): State {
    State(policy, Reading, chunks, [], [], 0, 0, 0, 0, [], [], [], false, 0, Listening)
  }

  /** Every body within the limit, however the upstream cuts it, can be downloaded under a policy that allows it. */
  lemma EveryBodyCanBeDownloaded(c: Config, policy: Policy, chunks: seq<Bytes>)
    requires c.Valid() && Allows(policy, c) && |JoinChunks(chunks)| <= c.maxFileBytes
    ensures exists run: seq<State>, steps: seq<Step> ::
              && IsTrace(c, JoinChunks(chunks), run, steps) && run[0].ahead == chunks && run[0].policy == policy
              && AllBenign(steps)
              && run[|run| - 1].consumer == Ended(true) && run[|run| - 1].received == JoinChunks(chunks)
  {
    hide NextStep, AllBenign;
    var body, s := JoinChunks(chunks), Start(policy, chunks);
    InitInv(c, body, s);
    var run, steps := CanFinish(c, body, s);
    assert IsTrace(c, body, run, steps);
  }

  /** A reachable state of an allowed download that nobody has disturbed is under way. */
  lemma ReachedIsUnderway(c: Config, body: Bytes, run: seq<State>, steps: seq<Step>, i: nat)
    requires IsTrace(c, body, run, steps) && i < |run| && |body| <= c.maxFileBytes && WorkFails !in steps
    requires run[i].consumer == Listening && Allows(run[i].policy, c)
    ensures Underway(c, body, run[i])
  {
    FailuresHaveCauses(c, body, run, steps, i);
    TraceIsRun(c, body, run, steps);
    RunInv(c, body, run, i);
  }
}
