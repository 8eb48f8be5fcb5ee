/**
  The shared pacing clock.  A caller takes the lock, sleeps until the time the
  previous caller reserved, and then reserves its own share; a caller dropped
  while it sleeps releases the lock.  Time is real and advances between steps.
*/
module Pacing {
  import opened Wrappers

  /** The caller holding the lock; it sleeps until `wake`. */
  datatype Sleeper = Sleeper(bytes: nat, rate: nat, wake: real)

  /** A finished call of `throttle`. */
  datatype Completion = Completion(at: real, bytes: nat, rate: nat)

  datatype State = State(now: real, pace: Option<real>, owner: Option<Sleeper>, log: seq<Completion>)

  datatype Step =
    | Tick(elapsed: real)
    | Lock(bytes: nat, rate: nat)
    | Wake
    | Cancel

  /** The time a share of the bandwidth lasts. */
  function Share(bytes: nat, rate: nat): real
    requires rate > 0
  {
    bytes as real / rate as real
  }

  /** `pace.unwrap_or(now).saturating_duration_since(now)`. */
  function Delay(s: State): real {
    match s.pace
    case None => 0.0
    case Some(pace) => if pace > s.now then pace - s.now else 0.0
  }

  predicate NextStep(s: State, s': State, step: Step) {
    match step
    case Tick(elapsed) => elapsed >= 0.0 && s' == s.(now := s.now + elapsed)
    case Lock(bytes, rate) =>
      rate > 0 && s.owner == None && s' == s.(owner := Some(Sleeper(bytes, rate, s.now + Delay(s))))
    case Wake =>
      && s.owner.Some? && s.owner.value.rate > 0 && s.now >= s.owner.value.wake
      && var o := s.owner.value;
         s' == State(s.now, Some(s.now + Share(o.bytes, o.rate)), None, s.log + [Completion(s.now, o.bytes, o.rate)])
    case Cancel => s.owner.Some? && s' == s.(owner := None)
  }

  predicate Init(s: State) {
    s.pace == None && s.owner == None && s.log == []
  }

  ghost predicate IsRun(run: seq<State>, steps: seq<Step>) {
    && |run| == |steps| + 1 && Init(run[0])
    && forall i :: 0 <= i < |steps| ==> NextStep(run[i], run[i + 1], steps[i])
  }

  /** Each completion comes no earlier than the end of the share reserved by the one before. */
  ghost predicate Spaced(log: seq<Completion>) {
    && (forall i :: 0 <= i < |log| ==> log[i].rate > 0)
    && forall i {:trigger log[i].at} :: 0 <= i < |log| - 1 ==>
         log[i].at + Share(log[i].bytes, log[i].rate) <= log[i + 1].at
  }

  ghost predicate Inv(s: State) {
    && Spaced(s.log)
    && (s.log == [] <==> s.pace == None)
    && (s.log != [] ==> var last := s.log[|s.log| - 1]; s.pace == Some(last.at + Share(last.bytes, last.rate)))
    && (s.owner.Some? && s.pace.Some? ==> s.owner.value.wake >= s.pace.value)
  }

  lemma NextInv(s: State, s': State, step: Step)
    requires Inv(s) && NextStep(s, s', step)
    ensures Inv(s') && s.log <= s'.log
  {
    if step == Wake {
      var n := |s.log|;
      forall i {:trigger s'.log[i].at} | 0 <= i < n
        ensures s'.log[i].at + Share(s'.log[i].bytes, s'.log[i].rate) <= s'.log[i + 1].at
      {
        if i < n - 1 {
          assert s.log[i].at + Share(s.log[i].bytes, s.log[i].rate) <= s.log[i + 1].at;
        }
      }
    }
  }

  lemma {:induction false} RunInv(run: seq<State>, steps: seq<Step>)
    requires IsRun(run, steps)
    ensures Inv(run[|steps|])
    decreases |steps|
  {
    var n := |steps|;
    if n > 0 {
      RunInv(run[..n], steps[..n - 1]);
      NextInv(run[n - 1], run[n], steps[n - 1]);
    }
  }

  // -------------------------------------------------------------------------
  // Bandwidth
  // -------------------------------------------------------------------------

  function Bytes(log: seq<Completion>, i: nat, j: nat): nat
    requires i <= j <= |log|
  {
    if i == j then 0 else Bytes(log, i, j - 1) + log[j - 1].bytes
  }

  /** `bytes` fit into `time` at `rate` bytes a second. */
  ghost predicate WithinRate(bytes: nat, rate: nat, time: real) {
    bytes as real <= rate as real * time
  }

  lemma ShareFits(bytes: nat, rate: nat, time: real)
    requires rate > 0 && Share(bytes, rate) <= time
    ensures WithinRate(bytes, rate, time)
  {
    var r := rate as real;
    assert bytes as real == Share(bytes, rate) * r;
    assert Share(bytes, rate) * r <= time * r;
  }

  lemma RatesAdd(b1: nat, b2: nat, rate: nat, t1: real, t2: real)
    requires WithinRate(b1, rate, t1) && WithinRate(b2, rate, t2)
    ensures WithinRate(b1 + b2, rate, t1 + t2)
  {
    assert (b1 + b2) as real == b1 as real + b2 as real;
    assert rate as real * (t1 + t2) == rate as real * t1 + rate as real * t2;
  }

  lemma {:induction false} SpacedBandwidth(log: seq<Completion>, rate: nat, i: nat, j: nat)
    requires Spaced(log) && i <= j < |log| && rate > 0
    requires forall k :: i <= k < j ==> log[k].rate == rate
    ensures WithinRate(Bytes(log, i, j), rate, log[j].at - log[i].at)
    decreases j - i
  {
    if i < j {
      SpacedBandwidth(log, rate, i, j - 1);
      var last, gap := log[j - 1], log[j].at - log[j - 1].at;
      assert Share(last.bytes, rate) <= gap by {
        assert last.rate == rate && last.at + Share(last.bytes, last.rate) <= log[j - 1 + 1].at;
      }
      ShareFits(last.bytes, rate, gap);
      RatesAdd(Bytes(log, i, j - 1), last.bytes, rate, log[j - 1].at - log[i].at, gap);
      assert (log[j - 1].at - log[i].at) + gap == log[j].at - log[i].at;
    } else {
      assert WithinRate(0, rate, 0.0);
    }
  }

  /**
    In every run, between the completions of calls `i` and `j` at a fixed rate no more bytes are let
    through by the calls from `i` up to `j` than the rate allows for the time in between.
  */
  lemma BandwidthIsBounded(run: seq<State>, steps: seq<Step>, rate: nat, i: nat, j: nat)
    requires IsRun(run, steps) && rate > 0
    requires i <= j < |run[|steps|].log| && forall k :: i <= k < j ==> run[|steps|].log[k].rate == rate
    ensures var log := run[|steps|].log;
            WithinRate(Bytes(log, i, j), rate, log[j].at - log[i].at)
  {
    RunInv(run, steps);
    SpacedBandwidth(run[|steps|].log, rate, i, j);
  }

  /** A caller that locks and is dropped before it wakes leaves only the passage of time behind. */
  lemma {:induction false} DroppedCallerLeavesNoTrace(run: seq<State>, steps: seq<Step>)
    requires |steps| > 0 && |run| == |steps| + 1
    requires forall i :: 0 <= i < |steps| ==> NextStep(run[i], run[i + 1], steps[i])
    requires steps[0].Lock? && forall i :: 0 < i < |steps| ==>
             steps[i].Tick? || (i == |steps| - 1 && steps[i] == Cancel)
    ensures run[|steps|] == run[0].(now := run[|steps|].now, owner := run[|steps|].owner)
    ensures steps[|steps| - 1] == Cancel ==> run[|steps|] == run[0].(now := run[|steps|].now)
  {
    var n := |steps|;
    if n > 1 {
      DroppedCallerLeavesNoTrace(run[..n], steps[..n - 1]);
      assert NextStep(run[n - 1], run[n], steps[n - 1]);
      assert NextStep(run[0], run[1], steps[0]);
    }
  }

  /** When the share of the last completed call ends; `None` before the first. */
  function Reserved(log: seq<Completion>): Option<real> {
    if log == [] || log[|log| - 1].rate == 0 then None
    else
      var last := log[|log| - 1];
      Some(last.at + last.bytes as real / last.rate as real)
  }

  /**
    A caller sleeps exactly until the share of the call before it ends, and not at all when it has
    ended already: it wakes no later than the reserved time or its arrival.
  */
  lemma SleepsExactly(run: seq<State>, steps: seq<Step>, i: nat)
    requires IsRun(run, steps) && i < |steps| && steps[i].Lock?
    ensures var arrival, wake := run[i].now, run[i + 1].owner.value.wake;
            match Reserved(run[i].log)
            case None => wake == arrival
            case Some(end) => wake == if end > arrival then end else arrival
  {
    RunInv(run[..i + 1], steps[..i]);
    assert NextStep(run[i], run[i + 1], steps[i]);
  }

  /** It passes as soon as that time has come, and what it then reserves starts at that moment. */
  lemma WakesOnTime(s: State)
    requires s.owner.Some? && s.owner.value.rate > 0
    ensures var o := s.owner.value;
            (exists s' :: NextStep(s, s', Wake)) <==> s.now >= o.wake
    ensures forall s' :: NextStep(s, s', Wake) ==>
              s'.owner == None && s'.log == s.log + [Completion(s.now, s.owner.value.bytes, s.owner.value.rate)]
  {
    var o := s.owner.value;
    if s.now >= o.wake {
      var log := s.log + [Completion(s.now, o.bytes, o.rate)];
      var after := State(s.now, Some(s.now + Share(o.bytes, o.rate)), None, log);
      assert NextStep(s, after, Wake);
    }
  }

  /** A sleeper passes at its time if nothing happens before, and at once when the time is over. */
  lemma SleeperPasses(s: State) returns (waited: State, passed: State)
    requires s.owner.Some? && s.owner.value.rate > 0
    ensures var o := s.owner.value;
            var at := if o.wake > s.now then o.wake else s.now;
            && NextStep(s, waited, Tick(at - s.now)) && NextStep(waited, passed, Wake)
            && passed.now == at && passed.log == s.log + [Completion(at, o.bytes, o.rate)]
  {
    var o := s.owner.value;
    var at := if o.wake > s.now then o.wake else s.now;
    waited := s.(now := at);
    passed := State(at, Some(at + Share(o.bytes, o.rate)), None, s.log + [Completion(at, o.bytes, o.rate)]);
  }

  /** A free lock is there for any caller, and at the start, or once the reserved time is over, it passes at once. */
  lemma FreeClockAdmits(s: State, bytes: nat, rate: nat) returns (asleep: State, passed: State)
    requires s.owner == None && rate > 0
    requires match s.pace case None => true case Some(end) => end <= s.now
    ensures NextStep(s, asleep, Lock(bytes, rate)) && NextStep(asleep, passed, Wake)
    ensures passed.now == s.now && passed.log == s.log + [Completion(s.now, bytes, rate)]
  {
    asleep := s.(owner := Some(Sleeper(bytes, rate, s.now)));
    passed := State(s.now, Some(s.now + Share(bytes, rate)), None, s.log + [Completion(s.now, bytes, rate)]);
  }

  /** So the first caller of all never sleeps. */
  lemma FirstCallerPasses(s: State, bytes: nat, rate: nat) returns (asleep: State, passed: State)
    requires Init(s) && rate > 0
    ensures NextStep(s, asleep, Lock(bytes, rate)) && NextStep(asleep, passed, Wake)
    ensures passed.log == [Completion(s.now, bytes, rate)]
  {
    asleep, passed := FreeClockAdmits(s, bytes, rate);
  }
}
