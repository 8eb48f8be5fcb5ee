/**
  The streaming phase of a controlled download: a worker that records, checks,
  paces, charges and queues one part at a time; a channel with one slot; a
  consumer that reads the channel and then the failure flag; and a policy that
  may change at any moment.  Each step below is one atomic action, and every
  interleaving is a run.
*/
module Streaming {
  type Bytes = seq<bv8>

  const PART := 65536
  const U64_MAX := 0xFFFF_FFFF_FFFF_FFFF

  datatype Config = Config(maxFileBytes: nat, hosts: nat) {
    /** The part of the configuration check that matters here: at most 64 GiB per file. */
    predicate Valid() {
      1 <= maxFileBytes <= 0x10_0000_0000
    }
  }

  /** What the live checks see: the channel, the caller's token, and the indices of blocked hosts. */
  datatype Policy = Policy(enabled: bool, tokenValid: bool, blocked: set<nat>)

  datatype Pc =
    | Reading
    | Recording(chunk: Bytes)
    | Limiting(chunk: Bytes)
    | NextPart
    | CheckEnabled
    | CheckToken
    | CheckHost(host: nat)
    | Throttle
    | Recheck
    | Charge
    | Send
    | Failing    // the work has failed, timed out or been cancelled
    | Flagged    // the failure flag is stored
    | Succeeded  // the work has ended normally
    | Gone       // the sender is dropped

  datatype Consumer = Listening | Reported | Ended(clean: bool) | Closed

  datatype State = State(
    policy: Policy,
    pc: Pc,
    ahead: seq<Bytes>,    // chunks the upstream has not delivered yet
    parts: seq<Bytes>,    // parts of the current chunk behind the one in hand
    part: Bytes,          // the part in hand
    total: nat,
    recorded: nat,        // upstream bytes recorded
    charged: nat,         // bytes charged to the quotas
    charges: nat,         // parts charged
    sent: Bytes,          // everything ever queued
    channel: seq<Bytes>,
    received: Bytes,
    flag: bool,
    errors: nat,
    consumer: Consumer)

  function JoinChunks(chunks: seq<Bytes>): Bytes {
    if chunks == [] then [] else chunks[0] + JoinChunks(chunks[1..])
  }

  /** `chunk.chunks(65536)`. */
  function Split(chunk: Bytes): (parts: seq<Bytes>)
    ensures JoinChunks(parts) == chunk
    ensures forall i :: 0 <= i < |parts| ==> 1 <= |parts[i]| <= PART
    decreases |chunk|
  {
    if chunk == [] then []
    else if |chunk| <= PART then
      assert [chunk][1..] == [];
      [chunk]
    else
      var rest := Split(chunk[PART..]);
      assert ([chunk[..PART]] + rest)[1..] == rest;
      [chunk[..PART]] + rest
  }

  /** Every part but the last of a chunk has the full length. */
  lemma {:induction false} PartsAreFull(chunk: Bytes)
    ensures forall i :: 0 <= i < |Split(chunk)| - 1 ==> |Split(chunk)[i]| == 65536
    ensures |Split(chunk)| == (|chunk| + 65535) / 65536
    decreases |chunk|
  {
    if |chunk| > 65536 {
      PartsAreFull(chunk[65536..]);
    }
  }

  /** `u64::saturating_add`. */
  function AddU64(a: nat, b: nat): nat {
    if a + b > U64_MAX then U64_MAX else a + b
  }

  predicate Working(pc: Pc) {
    !(pc.Failing? || pc.Flagged? || pc.Succeeded? || pc.Gone?)
  }

  predicate InHand(pc: Pc) {
    pc.CheckEnabled? || pc.CheckToken? || pc.CheckHost? || pc.Throttle? || pc.Recheck? || pc.Charge? || pc.Send?
  }

  predicate Init(c: Config, body: Bytes, s: State) {
    && c.Valid()
    && s.pc == Reading && JoinChunks(s.ahead) == body && s.parts == [] && s.part == []
    && s.total == 0 && s.recorded == 0 && s.charged == 0 && s.charges == 0
    && s.sent == [] && s.channel == [] && s.received == []
    && !s.flag && s.errors == 0 && s.consumer == Listening
  }

  // -------------------------------------------------------------------------
  // Steps
  // -------------------------------------------------------------------------

  datatype Step =
    | PolicyChanges(policy: Policy)
    | WorkFails          // an error, the deadline, the cancel signal, or the consumer having gone
    | Read | ReadEnd | Record | Limit | Take | ChunkDone
    | PassEnabled | PassToken | PassHost | PassHosts | Pace | PassRecheck | Pay | Queue
    | StoreFlag | DropSender
    | Receive | SeeEnd | Finish | Close

  /** A check that the policy fails has no step of its own: the worker can then only fail. */
  predicate NextStep(c: Config, s: State, s': State, step: Step) {
    match step
    case PolicyChanges(policy) => s' == s.(policy := policy)
    case WorkFails => Working(s.pc) && s' == s.(pc := Failing)
    case Read =>
      s.pc == Reading && s.ahead != [] && s' == s.(pc := Recording(s.ahead[0]), ahead := s.ahead[1..])
    case ReadEnd => s.pc == Reading && s.ahead == [] && s' == s.(pc := Succeeded)
    case Record =>
      s.pc.Recording? && s' == s.(pc := Limiting(s.pc.chunk), recorded := s.recorded + |s.pc.chunk|)
    case Limit =>
      && s.pc.Limiting?
      && var total := AddU64(s.total, |s.pc.chunk|);
         s' == if total > c.maxFileBytes then s.(pc := Failing, total := total)
               else s.(pc := NextPart, total := total, parts := Split(s.pc.chunk))
    case Take =>
      s.pc == NextPart && s.parts != [] && s' == s.(pc := CheckEnabled, part := s.parts[0], parts := s.parts[1..])
    case ChunkDone => s.pc == NextPart && s.parts == [] && s' == s.(pc := Reading)
    case PassEnabled => s.pc == CheckEnabled && s.policy.enabled && s' == s.(pc := CheckToken)
    case PassToken => s.pc == CheckToken && s.policy.tokenValid && s' == s.(pc := CheckHost(0))
    case PassHost =>
      && s.pc.CheckHost? && s.pc.host < c.hosts && s.pc.host !in s.policy.blocked
      && s' == s.(pc := CheckHost(s.pc.host + 1))
    case PassHosts => s.pc.CheckHost? && s.pc.host >= c.hosts && s' == s.(pc := Throttle)
    case Pace => s.pc == Throttle && s' == s.(pc := Recheck)
    case PassRecheck => s.pc == Recheck && s.policy.tokenValid && s' == s.(pc := Charge)
    case Pay => s.pc == Charge && s' == s.(pc := Send, charged := s.charged + |s.part|, charges := s.charges + 1)
    case Queue =>
      && s.pc == Send && s.channel == [] && s.consumer != Closed
      && s' == s.(pc := NextPart, part := [], channel := [s.part], sent := s.sent + s.part)
    case StoreFlag => s.pc == Failing && s' == s.(pc := Flagged, flag := true)
    case DropSender => (s.pc == Flagged || s.pc == Succeeded) && s' == s.(pc := Gone)
    case Receive =>
      && s.consumer == Listening && s.channel != []
      && s' == s.(received := s.received + s.channel[0], channel := s.channel[1..])
    case SeeEnd =>
      && s.consumer == Listening && s.channel == [] && s.pc == Gone
      && s' == if s.flag then s.(consumer := Reported, errors := s.errors + 1) else s.(consumer := Ended(true))
    case Finish => s.consumer == Reported && s' == s.(consumer := Ended(false))
    case Close => (s.consumer == Listening || s.consumer == Reported) && s' == s.(consumer := Closed)
  }

  ghost predicate Next(c: Config, s: State, s': State) {
    exists step :: NextStep(c, s, s', step)
  }

  /** State `i` of the run is followed by a step. */
  ghost predicate Linked(c: Config, run: seq<State>, i: nat)
    requires i + 1 < |run|
  {
    Next(c, run[i], run[i + 1])
  }

  ghost predicate IsRun(c: Config, body: Bytes, run: seq<State>) {
    && run != []
    && Init(c, body, run[0])
    && forall i :: 0 <= i < |run| - 1 ==> Linked(c, run, i)
  }

  // -------------------------------------------------------------------------
  // The invariant
  // -------------------------------------------------------------------------

  /** What the worker still holds of the current chunk. */
  function Held(s: State): Bytes {
    match s.pc
    case Recording(chunk) => chunk
    case Limiting(chunk) => chunk
    case NextPart => JoinChunks(s.parts)
    case _ => if InHand(s.pc) then s.part + JoinChunks(s.parts) else []
  }

  /** Bytes of the current chunk that are already counted in `total` but not queued. */
  function Counted(s: State): nat {
    if s.pc.Recording? || s.pc.Limiting? then 0 else |Held(s)|
  }

  ghost predicate FlowInv(body: Bytes, s: State) {
    && (Working(s.pc) ==> s.sent + Held(s) + JoinChunks(s.ahead) == body)
    && (s.pc == Succeeded || (s.pc == Gone && !s.flag) ==> s.sent == body)
    && s.sent <= body
    && |s.channel| <= 1
    && s.sent == s.received + JoinChunks(s.channel)
    && (s.flag <==> s.pc == Flagged || (s.pc == Gone && s.flag))
  }

  ghost predicate PartInv(s: State) {
    && (forall i :: 0 <= i < |s.parts| ==> 1 <= |s.parts[i]| <= PART)
    && (InHand(s.pc) ==> 1 <= |s.part| <= PART)
    && |JoinChunks(s.channel)| <= PART
  }

  ghost predicate AccountInv(c: Config, s: State) {
    && c.Valid()
    && |s.sent| <= s.charged <= |s.sent| + PART
    && (Working(s.pc) ==> s.charged == |s.sent| + (if s.pc == Send then |s.part| else 0))
    && (Working(s.pc) ==> s.total == |s.sent| + Counted(s) && s.total <= c.maxFileBytes)
    && (Working(s.pc) ==> s.recorded == s.total + (if s.pc.Limiting? then |s.pc.chunk| else 0))
    && |s.sent| <= c.maxFileBytes
    && s.charged <= s.recorded
  }

  ghost predicate ConsumerInv(s: State) {
    match s.consumer
    case Listening => s.errors == 0
    case Closed => s.errors <= 1
    case Reported => s.errors == 1 && s.pc == Gone && s.flag && s.channel == []
    case Ended(clean) => s.errors == (if clean then 0 else 1) && s.pc == Gone && s.flag == !clean && s.channel == []
  }

  ghost predicate Inv(c: Config, body: Bytes, s: State) {
    FlowInv(body, s) && PartInv(s) && AccountInv(c, s) && ConsumerInv(s)
  }

  lemma InitInv(c: Config, body: Bytes, s: State)
    requires Init(c, body, s)
    ensures Inv(c, body, s)
  {
  }

  /** Taking bytes from the front of what is held does not change the whole. */
  lemma Regroup(sent: Bytes, first: Bytes, rest: Bytes, ahead: Bytes)
    ensures sent + (first + rest) + ahead == (sent + first) + rest + ahead
    ensures sent + [] + (first + ahead) == sent + first + ahead
  {
  }

  lemma JoinOne(part: Bytes)
    ensures JoinChunks([part]) == part
  {
    assert [part][1..] == [];
  }

  /** Steps that move bytes from the upstream into the worker's hand. */
  lemma IntakeKeepsInv(c: Config, body: Bytes, s: State, s': State, step: Step)
    requires Inv(c, body, s) && NextStep(c, s, s', step)
    requires step in {ReadEnd, Record}
    ensures Inv(c, body, s')
  {
  }

  lemma ReadKeepsInv(c: Config, body: Bytes, s: State, s': State)
    requires Inv(c, body, s) && NextStep(c, s, s', Read)
    ensures Inv(c, body, s')
  {
    Regroup(s.sent, s.ahead[0], [], JoinChunks(s'.ahead));
    assert Held(s) == [] && Held(s') == s.ahead[0];
  }

  lemma LimitKeepsInv(c: Config, body: Bytes, s: State, s': State)
    requires Inv(c, body, s) && NextStep(c, s, s', Limit)
    ensures Inv(c, body, s')
  {
    hide Split;
    if s'.pc != Failing {
      assert Held(s') == Held(s);
    }
  }

  lemma SplittingKeepsInv(c: Config, body: Bytes, s: State, s': State, step: Step)
    requires Inv(c, body, s) && NextStep(c, s, s', step)
    requires step in {Take, ChunkDone}
    ensures Inv(c, body, s')
  {
    hide Split, AddU64;
    assert Held(s') == Held(s);
  }

  lemma ChecksKeepInv(c: Config, body: Bytes, s: State, s': State, step: Step)
    requires Inv(c, body, s) && NextStep(c, s, s', step)
    requires step in {PassEnabled, PassToken, PassHost, PassHosts, Pace, PassRecheck}
    ensures Inv(c, body, s')
  {
    assert s' == s.(pc := s'.pc) && InHand(s.pc) && InHand(s'.pc);
    assert Held(s') == Held(s);
  }

  lemma PayKeepsInv(c: Config, body: Bytes, s: State, s': State)
    requires Inv(c, body, s) && NextStep(c, s, s', Pay)
    ensures Inv(c, body, s')
  {
    assert Held(s') == Held(s);
  }

  lemma QueueKeepsInv(c: Config, body: Bytes, s: State, s': State)
    requires Inv(c, body, s) && NextStep(c, s, s', Queue)
    ensures Inv(c, body, s')
  {
    JoinOne(s.part);
    Regroup(s.sent, s.part, JoinChunks(s.parts), JoinChunks(s.ahead));
    assert s'.sent <= s'.sent + (Held(s') + JoinChunks(s'.ahead)) == body;
    assert s.received == s.sent;
  }

  lemma EndingKeepsInv(c: Config, body: Bytes, s: State, s': State, step: Step)
    requires Inv(c, body, s) && NextStep(c, s, s', step)
    requires step in {WorkFails, StoreFlag, DropSender} || step.PolicyChanges?
    ensures Inv(c, body, s')
  {
    if step.PolicyChanges? {
      assert Held(s') == Held(s);
    }
  }

  lemma ReceiveKeepsInv(c: Config, body: Bytes, s: State, s': State)
    requires Inv(c, body, s) && NextStep(c, s, s', Receive)
    ensures Inv(c, body, s')
  {
    hide Split, AddU64;
    assert Held(s') == Held(s);
    assert s.channel == [s.channel[0]];
    JoinOne(s.channel[0]);
    assert s'.received + [] == s'.received;
  }

  lemma ConsumerKeepsInv(c: Config, body: Bytes, s: State, s': State, step: Step)
    requires Inv(c, body, s) && NextStep(c, s, s', step)
    requires step in {SeeEnd, Finish, Close}
    ensures Inv(c, body, s')
  {
    hide Split, AddU64;
    assert Held(s') == Held(s);
  }

  lemma NextInv(c: Config, body: Bytes, s: State, s': State)
    requires Inv(c, body, s) && Next(c, s, s')
    ensures Inv(c, body, s')
  {
    var step :| NextStep(c, s, s', step);
    if step == Read {
      ReadKeepsInv(c, body, s, s');
    } else if step in {ReadEnd, Record} {
      IntakeKeepsInv(c, body, s, s', step);
    } else if step == Limit {
      LimitKeepsInv(c, body, s, s');
    } else if step in {Take, ChunkDone} {
      SplittingKeepsInv(c, body, s, s', step);
    } else if step in {PassEnabled, PassToken, PassHost, PassHosts, Pace, PassRecheck} {
      ChecksKeepInv(c, body, s, s', step);
    } else if step == Pay {
      PayKeepsInv(c, body, s, s');
    } else if step == Queue {
      QueueKeepsInv(c, body, s, s');
    } else if step == Receive {
      ReceiveKeepsInv(c, body, s, s');
    } else if step in {SeeEnd, Finish, Close} {
      ConsumerKeepsInv(c, body, s, s', step);
    } else {
      EndingKeepsInv(c, body, s, s', step);
    }
  }

  lemma {:induction false} RunInv(c: Config, body: Bytes, run: seq<State>, i: nat)
    requires IsRun(c, body, run) && i < |run|
    ensures Inv(c, body, run[i])
  {
    if i == 0 {
      InitInv(c, body, run[0]);
    } else {
      RunInv(c, body, run, i - 1);
      assert Linked(c, run, i - 1);
      NextInv(c, body, run[i - 1], run[i]);
    }
  }

  // -------------------------------------------------------------------------
  // What the client sees
  // -------------------------------------------------------------------------

  /**
    In every interleaving the client receives a prefix of the upstream bytes; a clean end of stream
    means it received all of them; and a stream whose worker failed ends only after exactly one error.
  */
  lemma ClientSeesTheTruth(c: Config, body: Bytes, run: seq<State>, i: nat)
    requires IsRun(c, body, run) && i < |run|
    ensures run[i].received <= body
    ensures run[i].consumer == Ended(true) ==> run[i].received == body && run[i].errors == 0 && !run[i].flag
    ensures run[i].consumer == Ended(false) ==> run[i].errors == 1 && run[i].flag
    ensures run[i].errors <= 1
  {
    RunInv(c, body, run, i);
    var s := run[i];
    assert s.received <= s.received + JoinChunks(s.channel);
  }

  /** A worker that has failed leads to an error and never to a clean end, whatever happens next. */
  lemma {:induction false} FailureIsReported(c: Config, body: Bytes, run: seq<State>, i: nat, j: nat)
    requires IsRun(c, body, run) && i <= j < |run|
    requires run[i].pc == Failing
    ensures run[j].pc == Failing || run[j].flag
    ensures run[j].consumer.Ended? ==> run[j].errors == 1
    decreases j - i
  {
    RunInv(c, body, run, j);
    if i < j {
      FailureIsReported(c, body, run, i, j - 1);
      assert Linked(c, run, j - 1);
      FailureSticks(c, run[j - 1], run[j]);
    }
  }

  lemma FailureSticks(c: Config, s: State, s': State)
    requires Next(c, s, s') && (s.pc == Failing || s.flag)
    ensures s'.pc == Failing || s'.flag
  {
    var step :| NextStep(c, s, s', step);
  }

  /** The bookkeeping bounds, at every step of every run. */
  lemma Accounting(c: Config, body: Bytes, run: seq<State>, i: nat)
    requires IsRun(c, body, run) && i < |run|
    ensures |run[i].sent| <= run[i].charged <= |run[i].sent| + 65536
    ensures run[i].charged <= |run[i].received| + 2 * 65536
    ensures |run[i].sent| <= c.maxFileBytes
    ensures run[i].charged <= run[i].recorded
  {
    RunInv(c, body, run, i);
    var s := run[i];
    assert |s.sent| == |s.received| + |JoinChunks(s.channel)|;
  }

  // -------------------------------------------------------------------------
  // Revocation
  // -------------------------------------------------------------------------

  datatype Revocation = Disabled | TokenRevoked | HostBlocked(host: nat)

  predicate Revoked(why: Revocation, policy: Policy) {
    match why
    case Disabled => !policy.enabled
    case TokenRevoked => !policy.tokenValid
    case HostBlocked(host) => host in policy.blocked
  }

  /** The part in hand has already passed the last check that the revocation could fail. */
  predicate Excused(why: Revocation, s: State) {
    match why
    case Disabled =>
      s.pc.CheckToken? || s.pc.CheckHost? || s.pc.Throttle? || s.pc.Recheck? || s.pc.Charge?
    case TokenRevoked => s.pc.Charge?
    case HostBlocked(host) =>
      (s.pc.CheckHost? && host < s.pc.host) || s.pc.Throttle? || s.pc.Recheck? || s.pc.Charge?
  }

  function PartsLeft(why: Revocation, s: State): nat {
    if Excused(why, s) then 1 else 0
  }

  function BytesLeft(why: Revocation, s: State): nat {
    if Excused(why, s) then |s.part| else 0
  }

  /** Only paying charges, and only for the part in hand. */
  lemma OnlyPayCharges(c: Config, s: State, s': State, step: Step)
    requires NextStep(c, s, s', step)
    ensures step == Pay ==> s.pc == Charge && s'.charges == s.charges + 1 && s'.charged == s.charged + |s.part|
    ensures step != Pay ==> s'.charges == s.charges && s'.charged == s.charged
  {
  }

  /** A part is excused only by having been excused before: no check lets it through now. */
  lemma ExcuseIsOld(c: Config, why: Revocation, s: State, s': State, step: Step)
    requires NextStep(c, s, s', step) && Revoked(why, s.policy) && step != Pay
    requires why.HostBlocked? ==> why.host < c.hosts
    ensures Excused(why, s') ==> Excused(why, s) && s'.part == s.part
  {
    hide Split, AddU64;
    match step
    case PolicyChanges(_) =>
    case Take =>
    case PassEnabled =>
    case PassToken =>
    case PassHost =>
    case PassHosts =>
    case Pace =>
    case PassRecheck =>
    case Receive =>
    case SeeEnd =>
    case Close =>
    case _ =>
  }

  lemma RevokedStep(c: Config, why: Revocation, s: State, s': State)
    requires Next(c, s, s') && Revoked(why, s.policy)
    requires why.HostBlocked? ==> why.host < c.hosts
    ensures s'.charges + PartsLeft(why, s') <= s.charges + PartsLeft(why, s)
    ensures s'.charged + BytesLeft(why, s') <= s.charged + BytesLeft(why, s)
    ensures s.charges <= s'.charges && s.charged <= s'.charged
  {
    var step :| NextStep(c, s, s', step);
    OnlyPayCharges(c, s, s', step);
    if step == Pay {
      assert Excused(why, s) && !Excused(why, s');
    } else {
      ExcuseIsOld(c, why, s, s', step);
    }
  }

  lemma {:induction false} PotentialFalls(c: Config, run: seq<State>, why: Revocation, i: nat, j: nat)
    requires i <= j < |run| && forall k :: i <= k < j ==> Linked(c, run, k)
    requires forall k :: i <= k < j ==> Revoked(why, run[k].policy)
    requires why.HostBlocked? ==> why.host < c.hosts
    ensures run[j].charges + PartsLeft(why, run[j]) <= run[i].charges + PartsLeft(why, run[i])
    ensures run[j].charged + BytesLeft(why, run[j]) <= run[i].charged + BytesLeft(why, run[i])
    ensures run[i].charges <= run[j].charges && run[i].charged <= run[j].charged
    decreases j - i
  {
    if i < j {
      PotentialFalls(c, run, why, i, j - 1);
      assert Linked(c, run, j - 1);
      RevokedStep(c, why, run[j - 1], run[j]);
    }
  }

  /**
    Once a token is revoked, the channel disabled or a host of the chain blocked, and as long as that
    lasts, the worker charges at most the part in hand, and that only if the change came after the
    part had passed the check concerned.
  */
  lemma AtMostOneMorePart(c: Config, body: Bytes, run: seq<State>, why: Revocation, i: nat, j: nat)
    requires IsRun(c, body, run) && i <= j < |run|
    requires why.HostBlocked? ==> why.host < c.hosts
    requires forall k :: i <= k < j ==> Revoked(why, run[k].policy)
    ensures run[j].charges <= run[i].charges + 1
    ensures run[j].charged <= run[i].charged + 65536
    ensures !Excused(why, run[i]) ==> run[j].charges == run[i].charges && run[j].charged == run[i].charged
  {
    RunInv(c, body, run, i);
    assert BytesLeft(why, run[i]) <= PART by {
      assert PartInv(run[i]);
    }
    PotentialFalls(c, run, why, i, j);
  }
}
