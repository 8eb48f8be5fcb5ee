/**
  Safety over whole runs of the client: any sequence of sets, migrations and
  resets, each of which may be refused, fail or die anywhere.
*/
module Histories {
  import opened Wrappers
  import opened Records
  import opened Disks
  import opened Transactions

  // -------------------------------------------------------------------------
  // Who owns which file
  // -------------------------------------------------------------------------

  /** A migration's record is the only one. */
  ghost predicate Exclusive(records: map<string, Record>) {
    SYSTEM in records ==> records.Keys == {SYSTEM}
  }

  /** The record belongs under `target` and names only files that target may touch. */
  ghost predicate Fits(allows: Allowlist, target: string, record: Record) {
    && Distinct(Undo(record))
    && match record
       case PlanRecord(plan) => plan.target == target && Acceptable(allows, plan)
       case SourceRecord(recorded, config, _, _) =>
         recorded == target && target != SYSTEM && ConfigPath(target) == Some(config)
  }

  ghost predicate Owned(records: map<string, Record>, path: string) {
    exists t :: t in records && path in Paths(Undo(records[t]))
  }

  /** A file is as it was saved, as it was intended, or moved aside while a saved original exists. */
  ghost predicate Known(files: map<string, string>, record: Record, i: nat)
    requires i < |Undo(record)|
  {
    IntendedMatchesUndo(record);
    var undo, intended := Undo(record)[i], Intended(record)[i];
    || Get(files, undo.path) == undo.content
    || Get(files, undo.path) == intended.content
    || (undo.content.Some? && undo.path !in files)
  }

  ghost predicate Saved(base: map<string, string>, record: Record) {
    forall i :: 0 <= i < |Undo(record)| ==> Undo(record)[i].content == Get(base, Undo(record)[i].path)
  }

  ghost predicate AllKnown(files: map<string, string>, record: Record) {
    forall i :: 0 <= i < |Undo(record)| ==> Known(files, record, i)
  }

  /**
    The invariant: relative to the initial configuration `base`, every record
    holds the initial content of its files, those files are recognisable, and
    every other file still has its initial content.
  */
  ghost predicate Managed(allows: Allowlist, base: map<string, string>, w: World) {
    && Exclusive(w.records)
    && (forall t :: t in w.records ==> Fits(allows, t, w.records[t]))
    && (forall t :: t in w.records ==> Saved(base, w.records[t]) && AllKnown(w.files, w.records[t]))
    && (forall p :: !Owned(w.records, p) ==> Get(w.files, p) == Get(base, p))
  }

  lemma ConfigPathsDiffer(a: string, b: string)
    requires ConfigPath(a).Some? && ConfigPath(a) == ConfigPath(b)
    ensures a == b
  {
  }

  lemma ConfigPathInApt(target: string)
    requires ConfigPath(target).Some? && AptPath(ConfigPath(target).value)
    ensures target == APT
  {
    var path := ConfigPath(target).value;
    assert path[5] == APT_LIST[5] && path[6] == APT_LIST[6];
  }

  lemma OnlyPath(target: string, record: Record, allows: Allowlist, path: string)
    requires Fits(allows, target, record) && path in Paths(Undo(record)) && target != SYSTEM
    ensures ConfigPath(target) == Some(path) || (target == APT && AptPath(path))
  {
  }

  /** Two records of one run never claim the same file. */
  lemma OwnersDisjoint(allows: Allowlist, records: map<string, Record>, a: string, b: string, path: string)
    requires Exclusive(records) && forall t :: t in records ==> Fits(allows, t, records[t])
    requires a in records && b in records
    requires path in Paths(Undo(records[a])) && path in Paths(Undo(records[b]))
    ensures a == b
  {
    assert a in records.Keys && b in records.Keys;
    if a != b {
      OnlyPath(a, records[a], allows, path);
      OnlyPath(b, records[b], allows, path);
      if ConfigPath(a) == Some(path) && ConfigPath(b) == Some(path) {
        ConfigPathsDiffer(a, b);
      } else if ConfigPath(a) == Some(path) {
        ConfigPathInApt(a);
      } else if ConfigPath(b) == Some(path) {
        ConfigPathInApt(b);
      }
    }
  }

  // -------------------------------------------------------------------------
  // Every operation keeps the invariant
  // -------------------------------------------------------------------------

  lemma WholeIsPartway(was: map<string, string>, steps: seq<Step>)
    ensures Partway(was, PutAll(was, steps), steps)
  {
    assert steps[..|steps|] == steps;
    assert StoppedAt(was, PutAll(was, steps), steps, |steps|);
  }

  lemma BegunStopsPartway(was: World, now: World, target: string, record: Record, calm: bool, outcome: Outcome)
    requires Begun(was, now, target, record, calm, outcome) && now != was
    ensures now.records == was.records[target := record] && Partway(was.files, now.files, Intended(record))
  {
    WholeIsPartway(was.files, Intended(record));
  }

  /** A new record claims no file that is already claimed. */
  lemma NewRecordClaimsFreshFiles(allows: Allowlist, records: map<string, Record>, target: string, record: Record,
                                  path: string)
    requires target !in records && Fits(allows, target, record) && path in Paths(Undo(record))
    requires Exclusive(records[target := record]) && forall t :: t in records ==> Fits(allows, t, records[t])
    ensures !Owned(records, path)
  {
    if Owned(records, path) {
      var t :| t in records && path in Paths(Undo(records[t]));
      var more := records[target := record];
      assert more[t] == records[t];
      OwnersDisjoint(allows, more, t, target, path);
    }
  }

  /** An accepted forward operation saves the right originals and disturbs no other record. */
  lemma BegunKeeps(allows: Allowlist, base: map<string, string>, was: World, now: World, target: string, record: Record,
                   calm: bool, outcome: Outcome)
    requires Managed(allows, base, was) && Begun(was, now, target, record, calm, outcome)
    requires target !in was.records && Fits(allows, target, record)
    requires Exclusive(was.records[target := record])
    requires Saved(was.files, record)
    ensures Managed(allows, base, now)
  {
    if now == was {
      return;
    }
    BegunStopsPartway(was, now, target, record, calm, outcome);
    IntendedMatchesUndo(record);
    PartwayAt(was.files, now.files, Intended(record));
    NewRecordIsKnown(allows, base, was, now.files, target, record);
    forall t | t in now.records
      ensures Fits(allows, t, now.records[t])
      ensures t in was.records ==> now.records[t] == was.records[t]
    {
    }
    forall t | t in was.records
      ensures AllKnown(now.files, was.records[t])
    {
      OtherStaysKnown(allows, was, now, target, t);
    }
    forall p | !Owned(now.records, p)
      ensures Get(now.files, p) == Get(base, p)
    {
      assert target in now.records && now.records[target] == record;
      if Owned(was.records, p) {
        var t :| t in was.records && p in Paths(Undo(was.records[t]));
        assert t in now.records;
      }
    }
  }

  lemma NewRecordIsKnown(allows: Allowlist, base: map<string, string>, was: World, files: map<string, string>,
                         target: string, record: Record)
    requires Managed(allows, base, was)
    requires target !in was.records && Fits(allows, target, record)
    requires Exclusive(was.records[target := record]) && Saved(was.files, record)
    requires Partway(was.files, files, Intended(record))
    ensures Saved(base, record) && AllKnown(files, record)
  {
    IntendedMatchesUndo(record);
    var undo, intended := Undo(record), Intended(record);
    PartwayAt(was.files, files, intended);
    forall i | 0 <= i < |undo|
      ensures undo[i].content == Get(base, undo[i].path)
      ensures Known(files, record, i)
    {
      NewRecordClaimsFreshFiles(allows, was.records, target, record, undo[i].path);
      assert StepState(was.files, files, intended[i]);
    }
  }

  /** Writes confined to the files of `target` leave another record's files recognisable. */
  lemma OtherStaysKnown(allows: Allowlist, was: World, now: World, target: string, other: string)
    requires target in now.records && other in was.records && other in now.records && other != target
    requires now.records[other] == was.records[other]
    requires Exclusive(now.records) && forall t :: t in now.records ==> Fits(allows, t, now.records[t])
    requires AllKnown(was.files, was.records[other])
    requires forall p :: p !in Paths(Undo(now.records[target])) ==> Get(now.files, p) == Get(was.files, p)
    ensures AllKnown(now.files, was.records[other])
  {
    var record := was.records[other];
    forall i | 0 <= i < |Undo(record)|
      ensures Known(now.files, record, i)
    {
      var path := Undo(record)[i].path;
      assert path in Paths(Undo(record));
      if path in Paths(Undo(now.records[target])) {
        OwnersDisjoint(allows, now.records, other, target, path);
      }
      assert Known(was.files, record, i);
      assert Get(now.files, path) == Get(was.files, path);
    }
  }

  lemma UndoneKeeps(allows: Allowlist, base: map<string, string>, was: World, now: World, target: string,
                    calm: bool, outcome: Outcome)
    requires Managed(allows, base, was) && target in was.records
    requires Undone(was, now, target, was.records[target], calm, outcome)
    ensures Managed(allows, base, now)
  {
    var record := was.records[target];
    var undo := Undo(record);
    WholeIsPartway(was.files, undo);
    PartwayAt(was.files, now.files, undo);
    assert AllKnown(now.files, record) by {
      forall i | 0 <= i < |undo| ensures Known(now.files, record, i) {
        assert StepState(was.files, now.files, undo[i]) && Known(was.files, record, i);
      }
    }
    var middle := World(now.files, was.records);
    forall t | t in was.records
      ensures AllKnown(now.files, was.records[t])
    {
      if t != target {
        OtherStaysKnown(allows, was, middle, target, t);
      }
    }
    forall p | !Owned(was.records, p)
      ensures Get(now.files, p) == Get(base, p)
    {
      assert p !in Paths(undo);
    }
    assert Managed(allows, base, middle);
    if outcome == Completed {
      RecordLeaves(allows, base, was, now, target);
    }
  }

  /** Once every file of `target` is back, its record is no longer needed. */
  lemma RecordLeaves(allows: Allowlist, base: map<string, string>, was: World, now: World, target: string)
    requires target in was.records && Managed(allows, base, World(now.files, was.records))
    requires now == World(PutAll(was.files, Undo(was.records[target])), was.records - {target})
    ensures Managed(allows, base, now)
  {
    var undo := Undo(was.records[target]);
    forall p | !Owned(now.records, p)
      ensures Get(now.files, p) == Get(base, p)
    {
      if p in Paths(undo) {
        var i :| 0 <= i < |undo| && undo[i].path == p;
        PutAllAt(was.files, undo, i);
      } else if Owned(was.records, p) {
        var t :| t in was.records && p in Paths(Undo(was.records[t]));
        assert t in now.records;
      }
    }
  }

  // -------------------------------------------------------------------------
  // Runs
  // -------------------------------------------------------------------------

  /**
    `calm` promises that no elementary operation fails. `Edit` is anybody else changing configuration
    files; it touches no record.
  */
  datatype Operation =
    | Set(target: string, build: Builder, force: bool, calm: bool)
    | Migrate(plan: Plan, calm: bool)
    | Reset(target: string, force: bool, calm: bool)
    | Edit

  ghost predicate Performed(allows: Allowlist, op: Operation, was: World, now: World, outcome: Outcome) {
    match op
    case Set(target, build, force, calm) => SetSpec(target, build, force, calm, was, now, outcome)
    case Migrate(plan, calm) => MigrateSpec(allows, plan, calm, was, now, outcome)
    case Reset(target, force, calm) => ResetSpec(allows, target, force, calm, was, now, outcome)
    case Edit => now.records == was.records && outcome == Completed
  }

  /** `worlds[i]` becomes `worlds[i + 1]` by `ops[i]` with `outcomes[i]`. */
  ghost predicate IsRun(allows: Allowlist, worlds: seq<World>, ops: seq<Operation>, outcomes: seq<Outcome>) {
    && |worlds| == |ops| + 1 && |outcomes| == |ops|
    && forall i :: 0 <= i < |ops| ==> Performed(allows, ops[i], worlds[i], worlds[i + 1], outcomes[i])
  }

  lemma StepKeeps(allows: Allowlist, base: map<string, string>, op: Operation, was: World, now: World, outcome: Outcome)
    requires Managed(allows, base, was) && Performed(allows, op, was, now, outcome) && op != Edit
    ensures Managed(allows, base, now)
  {
    match op
    case Set(target, build, force, calm) =>
      if SetAccepts(target, build, force, was) {
        BegunKeeps(allows, base, was, now, target, SetRecord(target, build, was), calm, outcome);
      }
    case Migrate(plan, calm) =>
      if was.records == map[] && Validates(allows, plan, was.files, false, false) {
        BegunKeeps(allows, base, was, now, plan.target, PlanRecord(plan), calm, outcome);
      }
    case Reset(target, force, calm) =>
      if target in was.records && ResetAccepts(allows, target, was.records[target], force, was.files) {
        UndoneKeeps(allows, base, was, now, target, calm, outcome);
      }
  }

  /**
    Without outside edits, whatever is set, migrated and reset in whatever order, and wherever those
    operations fail or die: a migration's record is alone, and once no record is left the whole
    configuration is exactly the initial one.
  */
  lemma {:induction false} EveryRunIsReversible(allows: Allowlist, worlds: seq<World>, ops: seq<Operation>,
                                                outcomes: seq<Outcome>)
    requires IsRun(allows, worlds, ops, outcomes) && worlds[0].records == map[]
    requires forall i :: 0 <= i < |ops| ==> ops[i] != Edit
    ensures Managed(allows, worlds[0].files, worlds[|ops|])
    ensures SYSTEM in worlds[|ops|].records ==> worlds[|ops|].records.Keys == {SYSTEM}
    ensures worlds[|ops|].records == map[] ==> worlds[|ops|].files == worlds[0].files
    decreases |ops|
  {
    var n := |ops|;
    if n > 0 {
      EveryRunIsReversible(allows, worlds[..n], ops[..n - 1], outcomes[..n - 1]);
      StepKeeps(allows, worlds[0].files, ops[n - 1], worlds[n - 1], worlds[n], outcomes[n - 1]);
    }
    if worlds[n].records == map[] {
      SameLookups(worlds[n].files, worlds[0].files);
    }
  }

  /** A record, once written, is changed by nothing but the reset that completes and removes it. */
  lemma RecordsAreImmutable(allows: Allowlist, op: Operation, was: World, now: World, outcome: Outcome, target: string)
    requires Performed(allows, op, was, now, outcome) && target in was.records
    ensures target in now.records ==> now.records[target] == was.records[target]
    ensures target !in now.records ==> op.Reset? && op.target == target && outcome == Completed
  {
  }

  lemma {:induction false} RecordSurvives(allows: Allowlist, worlds: seq<World>, ops: seq<Operation>,
                                          outcomes: seq<Outcome>, target: string)
    requires IsRun(allows, worlds, ops, outcomes) && target in worlds[0].records
    requires forall i :: 0 <= i < |ops| ==> !(ops[i].Reset? && ops[i].target == target && outcomes[i] == Completed)
    ensures target in worlds[|ops|].records && worlds[|ops|].records[target] == worlds[0].records[target]
    decreases |ops|
  {
    var n := |ops|;
    if n > 0 {
      RecordSurvives(allows, worlds[..n], ops[..n - 1], outcomes[..n - 1], target);
      RecordsAreImmutable(allows, ops[n - 1], worlds[n - 1], worlds[n], outcomes[n - 1], target);
    }
  }

  /** A completed reset puts every file of the record back and touches nothing else, whatever the files held. */
  lemma CompletedResetRestores(allows: Allowlist, target: string, force: bool, calm: bool, was: World, now: World)
    requires ResetSpec(allows, target, force, calm, was, now, Completed)
    requires Distinct(Undo(was.records[target]))
    ensures forall i :: 0 <= i < |Undo(was.records[target])| ==>
              Get(now.files, Undo(was.records[target])[i].path) == Undo(was.records[target])[i].content
    ensures forall p :: p !in Paths(Undo(was.records[target])) ==> Get(now.files, p) == Get(was.files, p)
    ensures now.records == was.records - {target}
  {
    var undo := Undo(was.records[target]);
    forall i | 0 <= i < |undo| ensures Get(now.files, undo[i].path) == undo[i].content {
      PutAllAt(was.files, undo, i);
    }
    forall p | p !in Paths(undo) ensures Get(now.files, p) == Get(was.files, p) {
      PutAllFrame(was.files, undo, p);
    }
  }

  ghost predicate AllFit(allows: Allowlist, records: map<string, Record>) {
    forall t :: t in records ==> Fits(allows, t, records[t])
  }

  /** A record is written only with the contents its files have at that moment, and only where it belongs. */
  lemma RecordsAreWrittenWell(allows: Allowlist, op: Operation, was: World, now: World, outcome: Outcome,
                              target: string)
    requires Performed(allows, op, was, now, outcome) && target !in was.records && target in now.records
    ensures Fits(allows, target, now.records[target]) && Saved(was.files, now.records[target])
  {
    match op
    case Set(name, build, force, calm) =>
      var record := SetRecord(name, build, was);
      assert now.records == was.records[name := record];
    case Migrate(plan, calm) =>
      assert now.records == was.records[plan.target := PlanRecord(plan)];
      PlansSaveOriginals(allows, plan, was.files);
    case Reset(_, _, _) =>
    case Edit =>
  }

  lemma PlansSaveOriginals(allows: Allowlist, plan: Plan, files: map<string, string>)
    requires Validates(allows, plan, files, false, false)
    ensures Saved(files, PlanRecord(plan))
  {
    var steps := Backward(plan.files);
    forall i | 0 <= i < |plan.files| ensures steps[i].content == Get(files, steps[i].path) {
      assert Recognised(plan.files[i], files, false);
    }
  }

  lemma StepFits(allows: Allowlist, op: Operation, was: World, now: World, outcome: Outcome)
    requires Performed(allows, op, was, now, outcome) && AllFit(allows, was.records)
    ensures AllFit(allows, now.records)
  {
    hide Fits, Performed;
    forall t | t in now.records ensures Fits(allows, t, now.records[t]) {
      if t in was.records {
        RecordsAreImmutable(allows, op, was, now, outcome, t);
      } else {
        RecordsAreWrittenWell(allows, op, was, now, outcome, t);
      }
    }
  }

  /** Outside edits included, every record of a run belongs where it is. */
  lemma {:induction false} RecordsFit(allows: Allowlist, worlds: seq<World>, ops: seq<Operation>,
                                      outcomes: seq<Outcome>)
    requires IsRun(allows, worlds, ops, outcomes) && worlds[0].records == map[]
    ensures AllFit(allows, worlds[|ops|].records)
    decreases |ops|
  {
    hide Performed, Fits;
    var n := |ops|;
    if n > 0 {
      RecordsFit(allows, worlds[..n], ops[..n - 1], outcomes[..n - 1]);
      StepFits(allows, ops[n - 1], worlds[n - 1], worlds[n], outcomes[n - 1]);
    }
  }

  lemma SuffixIsRun(allows: Allowlist, worlds: seq<World>, ops: seq<Operation>, outcomes: seq<Outcome>, k: nat)
    requires IsRun(allows, worlds, ops, outcomes) && k <= |ops|
    ensures IsRun(allows, worlds[k..], ops[k..], outcomes[k..])
  {
    hide Performed;
    forall i | 0 <= i < |ops| - k
      ensures Performed(allows, ops[k..][i], worlds[k..][i], worlds[k..][i + 1], outcomes[k..][i])
    {
      assert Performed(allows, ops[k + i], worlds[k + i], worlds[k + i + 1], outcomes[k + i]);
    }
  }

  /** A forced reset of a record that belongs where it is is never refused, whatever has been edited since. */
  lemma ForcedResetIsAccepted(allows: Allowlist, target: string, calm: bool, was: World, now: World, outcome: Outcome)
    requires target in was.records && Fits(allows, target, was.records[target])
    requires ResetSpec(allows, target, true, calm, was, now, outcome)
    ensures outcome != Refused
  {
  }

  /** Every file of the record has the content, or the absence, it had in `files`. */
  ghost predicate BackTo(files: map<string, string>, record: Record, now: map<string, string>) {
    forall i :: 0 <= i < |Undo(record)| ==> Get(now, Undo(record)[i].path) == Get(files, Undo(record)[i].path)
  }

  lemma OriginalsComeBack(allows: Allowlist, target: string, force: bool, calm: bool, was: World, now: World,
                          files: map<string, string>)
    requires ResetSpec(allows, target, force, calm, was, now, Completed) && Fits(allows, target, was.records[target])
    requires Saved(files, was.records[target])
    ensures BackTo(files, was.records[target], now.files)
  {
    hide ResetSpec;
    CompletedResetRestores(allows, target, force, calm, was, now);
  }

  /**
    Crash recovery with outside edits. Operation `k` of a run writes a record and may die anywhere; then
    any operations, edits and interrupted resets follow. A forced reset is accepted; any reset that is
    not refused completes in a calm environment; one that completes gives every file of the record its
    exact content, or absence, before operation `k`, and touches no other file; one that is refused
    changes nothing.
  */
  lemma RecoveryRestoresOriginals(allows: Allowlist, worlds: seq<World>, ops: seq<Operation>, outcomes: seq<Outcome>,
                                  k: nat, target: string, force: bool, calm: bool, final: World, outcome: Outcome)
    requires IsRun(allows, worlds, ops, outcomes) && worlds[0].records == map[] && k < |ops|
    requires target !in worlds[k].records && target in worlds[k + 1].records
    requires forall i :: k < i < |ops| ==> !(ops[i].Reset? && ops[i].target == target && outcomes[i] == Completed)
    requires ResetSpec(allows, target, force, calm, worlds[|ops|], final, outcome)
    ensures var record := worlds[k + 1].records[target];
            && (force ==> outcome != Refused)
            && (calm && outcome != Refused ==> outcome == Completed)
            && (outcome == Completed ==> BackTo(worlds[k].files, record, final.files))
            && (outcome == Completed ==>
                  forall p :: p !in Paths(Undo(record)) ==> Get(final.files, p) == Get(worlds[|ops|].files, p))
            && (outcome == Refused ==> final == worlds[|ops|])
  {
    var n, last := |ops|, worlds[|ops|];
    RecordStands(allows, worlds, ops, outcomes, k, target);
    RecordsFit(allows, worlds, ops, outcomes);
    assert Performed(allows, ops[k], worlds[k], worlds[k + 1], outcomes[k]);
    hide Performed, IsRun, Fits, Saved;
    RecordsAreWrittenWell(allows, ops[k], worlds[k], worlds[k + 1], outcomes[k], target);
    assert Fits(allows, target, last.records[target]);
    if force {
      ForcedResetIsAccepted(allows, target, calm, last, final, outcome);
    }
    if outcome == Completed {
      OriginalsComeBack(allows, target, force, calm, last, final, worlds[k].files);
      FitsDistinct(allows, target, last.records[target]);
      CompletedResetRestores(allows, target, force, calm, last, final);
    }
  }

  lemma FitsDistinct(allows: Allowlist, target: string, record: Record)
    requires Fits(allows, target, record)
    ensures Distinct(Undo(record))
  {
  }

  /** The record that operation `k` wrote is still there at the end. */
  lemma RecordStands(allows: Allowlist, worlds: seq<World>, ops: seq<Operation>, outcomes: seq<Outcome>, k: nat,
                     target: string)
    requires IsRun(allows, worlds, ops, outcomes) && k < |ops| && target in worlds[k + 1].records
    requires forall i :: k < i < |ops| ==> !(ops[i].Reset? && ops[i].target == target && outcomes[i] == Completed)
    ensures target in worlds[|ops|].records && worlds[|ops|].records[target] == worlds[k + 1].records[target]
  {
    hide Performed;
    SuffixIsRun(allows, worlds, ops, outcomes, k + 1);
    RecordSurvives(allows, worlds[k + 1..], ops[k + 1..], outcomes[k + 1..], target);
  }

  /**
    Without outside edits an unforced reset is refused exactly when some file of the record is missing
    although it existed, which only the moment between the two renames of a replacement can cause.
  */
  lemma UnforcedResetRefusesOnlyTorn(allows: Allowlist, base: map<string, string>, target: string, calm: bool,
                                     was: World, now: World, outcome: Outcome)
    requires Managed(allows, base, was) && target in was.records
    requires ResetSpec(allows, target, false, calm, was, now, outcome)
    ensures outcome == Refused <==>
            exists i :: 0 <= i < |Undo(was.records[target])| &&
                        Undo(was.records[target])[i].content.Some? && Undo(was.records[target])[i].path !in was.files
  {
    var record := was.records[target];
    var undo, intended := Undo(record), Intended(record);
    IntendedMatchesUndo(record);
    forall i | 0 <= i < |undo|
      ensures (Get(was.files, undo[i].path) == undo[i].content || Get(was.files, undo[i].path) == intended[i].content)
              <==> !(undo[i].content.Some? && undo[i].path !in was.files)
    {
      assert Known(was.files, record, i);
    }
    match record
    case PlanRecord(plan) =>
      forall i | 0 <= i < |plan.files|
        ensures Recognised(plan.files[i], was.files, true) <==> !(undo[i].content.Some? && undo[i].path !in was.files)
      {
      }
    case SourceRecord(_, config, original, expected) =>
      assert undo[0] == Step(config, original) && intended[0] == Step(config, Some(expected));
  }

  // -------------------------------------------------------------------------
  // Planning a migration
  // -------------------------------------------------------------------------

  ghost predicate DistinctProposals(proposals: seq<Proposal>) {
    forall i, j :: 0 <= i < j < |proposals| ==> proposals[i].path != proposals[j].path
  }

  /** The manifest contains exactly the entries of the proposals that change something. */
  lemma {:induction false} PlannedMembers(files: map<string, string>, proposals: seq<Proposal>)
    ensures forall f :: f in Planned(files, proposals) ==>
              f == Entry(files, Proposal(f.path, f.expected)) && Proposal(f.path, f.expected) in proposals
    ensures forall p :: p in proposals && Get(files, p.path) != Some(p.expected) ==>
            Entry(files, p) in Planned(files, proposals)
  {
    if proposals != [] {
      var init := proposals[..|proposals| - 1];
      PlannedMembers(files, init);
      assert proposals == init + [proposals[|proposals| - 1]];
    }
  }

  lemma {:induction false} PlannedDistinct(files: map<string, string>, proposals: seq<Proposal>)
    requires DistinctProposals(proposals)
    ensures Distinct(Backward(Planned(files, proposals)))
  {
    if proposals != [] {
      var n := |proposals| - 1;
      var init, last := proposals[..n], proposals[n];
      PlannedDistinct(files, init);
      PlannedMembers(files, init);
      var was, now := Planned(files, init), Planned(files, proposals);
      forall i | 0 <= i < |was| ensures was[i].path != last.path {
        var p := Proposal(was[i].path, was[i].expected);
        assert was[i] in was && p in init;
        var j :| 0 <= j < n && proposals[j] == p;
        assert proposals[j].path != last.path;
      }
      forall i, j | 0 <= i < j < |now| ensures Backward(now)[i].path != Backward(now)[j].path {
        if j < |was| {
          assert Backward(was)[i].path != Backward(was)[j].path;
        }
      }
    }
  }

  /** A plan made from the disk is accepted on that disk. */
  lemma FreshPlanIsAccepted(allows: Allowlist, profile: string, files: map<string, string>, proposals: seq<Proposal>)
    requires DistinctProposals(proposals) && Planned(files, proposals) != []
    requires forall p :: p in proposals ==> allows(profile, p.path)
    ensures Validates(allows, Plan(1, SYSTEM, Planned(files, proposals), Some(profile)), files, false, false)
  {
    var plan := Plan(1, SYSTEM, Planned(files, proposals), Some(profile));
    PlannedMembers(files, proposals);
    PlannedDistinct(files, proposals);
    forall i | 0 <= i < |plan.files|
      ensures Recognised(plan.files[i], files, false) && PathAllowed(allows, plan, plan.files[i].path)
    {
      assert plan.files[i] in plan.files;
      assert Proposal(plan.files[i].path, plan.files[i].expected).path == plan.files[i].path;
    }
  }

  lemma PlannedPaths(files: map<string, string>, proposals: seq<Proposal>, path: string)
    requires path in Paths(Forward(Planned(files, proposals)))
    ensures exists p :: p in proposals && p.path == path &&
                        Step(path, Some(p.expected)) in Forward(Planned(files, proposals))
  {
    PlannedMembers(files, proposals);
    var planned := Planned(files, proposals);
    var i :| 0 <= i < |planned| && Forward(planned)[i].path == path;
    assert planned[i] in planned && Proposal(path, planned[i].expected) in proposals;
    assert Forward(planned)[i] == Step(path, Some(planned[i].expected));
  }

  /** Carrying out a fresh plan gives every proposed file its proposed content and changes no other file. */
  lemma PlanCarriesOutProposals(files: map<string, string>, proposals: seq<Proposal>)
    requires DistinctProposals(proposals)
    ensures var result := PutAll(files, Forward(Planned(files, proposals)));
            && (forall p :: p in proposals ==> Get(result, p.path) == Some(p.expected))
            && (forall q :: (forall p :: p in proposals ==> p.path != q) ==> Get(result, q) == Get(files, q))
  {
    var planned := Planned(files, proposals);
    var steps := Forward(planned);
    var result := PutAll(files, steps);
    PlannedDistinct(files, proposals);
    IntendedMatchesUndo(PlanRecord(Plan(1, SYSTEM, planned, None)));
    forall p | p in proposals ensures Get(result, p.path) == Some(p.expected) {
      if p.path in Paths(steps) {
        PlannedPaths(files, proposals, p.path);
        var q :| q in proposals && q.path == p.path && Step(p.path, Some(q.expected)) in steps;
        var i :| 0 <= i < |steps| && steps[i] == Step(p.path, Some(q.expected));
        PutAllAt(files, steps, i);
      } else {
        UnplannedIsCurrent(files, proposals, p);
        PutAllFrame(files, steps, p.path);
      }
    }
    forall q | forall p :: p in proposals ==> p.path != q ensures Get(result, q) == Get(files, q) {
      if q in Paths(steps) {
        PlannedPaths(files, proposals, q);
      }
      PutAllFrame(files, steps, q);
    }
  }

  lemma UnplannedIsCurrent(files: map<string, string>, proposals: seq<Proposal>, p: Proposal)
    requires p in proposals && p.path !in Paths(Forward(Planned(files, proposals)))
    ensures Get(files, p.path) == Some(p.expected)
  {
    PlannedMembers(files, proposals);
    var planned := Planned(files, proposals);
    forall i | 0 <= i < |planned| ensures planned[i] != Entry(files, p) {
      assert Forward(planned)[i].path == planned[i].path;
    }
  }

  // -------------------------------------------------------------------------
  // Where a refusal can come from
  // -------------------------------------------------------------------------

  /** `now` is the moment inside `steps` at which a file has been moved aside and not yet replaced. */
  ghost predicate TornWithin(was: map<string, string>, now: map<string, string>, steps: seq<Step>) {
    exists k :: 0 <= k < |steps| && steps[k].content.Some? && Torn(PutAll(was, steps[..k]), now, steps[k].path)
  }

  /** The operation stopped between the two renames of a file of one of the records. */
  ghost predicate Tore(was: World, now: World, outcome: Outcome) {
    && outcome.Broken()
    && exists t :: t in now.records &&
                   (TornWithin(was.files, now.files, Intended(now.records[t])) ||
                    TornWithin(was.files, now.files, Undo(now.records[t])))
  }

  ghost predicate IntactRecord(files: map<string, string>, record: Record) {
    forall i :: 0 <= i < |Undo(record)| && Undo(record)[i].content.Some? ==> Undo(record)[i].path in files
  }

  /** Every file that a record can restore exists. */
  ghost predicate Intact(w: World) {
    forall t :: t in w.records ==> IntactRecord(w.files, w.records[t])
  }

  /** Without a torn file, a partial run leaves each file as it was or as intended. */
  lemma UntornStates(was: map<string, string>, now: map<string, string>, steps: seq<Step>, i: nat)
    requires Distinct(steps) && Partway(was, now, steps) && !TornWithin(was, now, steps) && i < |steps|
    ensures Get(now, steps[i].path) == Get(was, steps[i].path) || Get(now, steps[i].path) == steps[i].content
  {
    var k :| 0 <= k <= |steps| && StoppedAt(was, now, steps, k);
    var init := steps[..k];
    assert now == PutAll(was, init);
    if i < k {
      PutAllAt(was, init, i);
    } else {
      assert steps[i].path !in Paths(init);
      PutAllFrame(was, init, steps[i].path);
    }
  }

  /** Completed operations leave nothing torn. */
  lemma WholeIsUntorn(was: map<string, string>, steps: seq<Step>)
    requires Distinct(steps)
    ensures !TornWithin(was, PutAll(was, steps), steps)
  {
    forall k | 0 <= k < |steps| && steps[k].content.Some?
      ensures !Torn(PutAll(was, steps[..k]), PutAll(was, steps), steps[k].path)
    {
      PutAllAt(was, steps, k);
    }
  }

  /** The files of a record stay present under steps on them that tear nothing. */
  lemma UntornKeepsIntact(was: map<string, string>, now: map<string, string>, record: Record, steps: seq<Step>)
    requires Distinct(Undo(record)) && IntactRecord(was, record)
    requires steps == Undo(record) || steps == Intended(record)
    requires Partway(was, now, steps) && !TornWithin(was, now, steps)
    ensures IntactRecord(now, record)
  {
    IntendedMatchesUndo(record);
    var undo := Undo(record);
    forall i | 0 <= i < |undo| && undo[i].content.Some?
      ensures undo[i].path in now
    {
      UntornStates(was, now, steps, i);
      assert Intended(record)[i].content.Some?;
    }
  }

  /** Another record's files stay present. */
  lemma OtherStaysIntact(allows: Allowlist, was: map<string, string>, now: map<string, string>,
                         records: map<string, Record>, target: string, other: string)
    requires target in records && other in records && other != target
    requires Exclusive(records) && forall t :: t in records ==> Fits(allows, t, records[t])
    requires IntactRecord(was, records[other])
    requires forall p :: p !in Paths(Undo(records[target])) ==> Get(now, p) == Get(was, p)
    ensures IntactRecord(now, records[other])
  {
    var undo := Undo(records[other]);
    forall i | 0 <= i < |undo| && undo[i].content.Some?
      ensures undo[i].path in now
    {
      var path := undo[i].path;
      assert path in Paths(undo) && path in was;
      if path in Paths(Undo(records[target])) {
        OwnersDisjoint(allows, records, other, target, path);
      }
      assert Get(now, path) == Get(was, path);
    }
  }

  lemma StepsKeepIntact(allows: Allowlist, was: map<string, string>, now: map<string, string>,
                        records: map<string, Record>, target: string, steps: seq<Step>)
    requires target in records
    requires Exclusive(records) && forall t :: t in records ==> Fits(allows, t, records[t])
    requires forall t :: t in records ==> IntactRecord(was, records[t])
    requires steps == Undo(records[target]) || steps == Intended(records[target])
    requires Partway(was, now, steps) && !TornWithin(was, now, steps)
    ensures forall t :: t in records ==> IntactRecord(now, records[t])
  {
    IntendedMatchesUndo(records[target]);
    PartwayAt(was, now, steps);
    forall t | t in records ensures IntactRecord(now, records[t]) {
      if t == target {
        UntornKeepsIntact(was, now, records[t], steps);
      } else {
        OtherStaysIntact(allows, was, now, records, target, t);
      }
    }
  }

  lemma BegunKeepsIntact(allows: Allowlist, base: map<string, string>, was: World, now: World, target: string,
                         record: Record, calm: bool, outcome: Outcome)
    requires Managed(allows, base, was) && Intact(was) && Begun(was, now, target, record, calm, outcome)
    requires target !in was.records && Fits(allows, target, record) && Saved(was.files, record)
    requires Exclusive(was.records[target := record]) && !Tore(was, now, outcome)
    ensures Intact(now)
  {
    if now == was {
      return;
    }
    BegunStopsPartway(was, now, target, record, calm, outcome);
    var steps := Intended(record);
    IntendedMatchesUndo(record);
    assert !TornWithin(was.files, now.files, steps) by {
      if outcome == Completed {
        WholeIsUntorn(was.files, steps);
      } else {
        assert now.records[target] == record;
      }
    }
    assert IntactRecord(was.files, record) by {
      forall i | 0 <= i < |Undo(record)| && Undo(record)[i].content.Some?
        ensures Undo(record)[i].path in was.files
      {
        assert Undo(record)[i].content == Get(was.files, Undo(record)[i].path);
      }
    }
    StepsKeepIntact(allows, was.files, now.files, now.records, target, steps);
  }

  lemma UndoneKeepsIntact(allows: Allowlist, base: map<string, string>, was: World, now: World, target: string,
                          calm: bool, outcome: Outcome)
    requires Managed(allows, base, was) && Intact(was) && target in was.records
    requires Undone(was, now, target, was.records[target], calm, outcome) && !Tore(was, now, outcome)
    ensures Intact(now)
  {
    var steps := Undo(was.records[target]);
    WholeIsPartway(was.files, steps);
    if outcome == Completed {
      WholeIsUntorn(was.files, steps);
    } else {
      assert now.records[target] == was.records[target];
    }
    StepsKeepIntact(allows, was.files, now.files, was.records, target, steps);
  }

  lemma StepKeepsIntact(allows: Allowlist, base: map<string, string>, op: Operation, was: World, now: World,
                        outcome: Outcome)
    requires Managed(allows, base, was) && Intact(was) && Performed(allows, op, was, now, outcome)
    requires op != Edit && !Tore(was, now, outcome)
    ensures Intact(now)
  {
    match op
    case Set(target, build, force, calm) =>
      if SetAccepts(target, build, force, was) {
        BegunKeepsIntact(allows, base, was, now, target, SetRecord(target, build, was), calm, outcome);
      }
    case Migrate(plan, calm) =>
      if was.records == map[] && Validates(allows, plan, was.files, false, false) {
        BegunKeepsIntact(allows, base, was, now, plan.target, PlanRecord(plan), calm, outcome);
      }
    case Reset(target, force, calm) =>
      if target in was.records && ResetAccepts(allows, target, was.records[target], force, was.files) {
        UndoneKeepsIntact(allows, base, was, now, target, calm, outcome);
      }
  }

  lemma {:induction false} UntornRunIsIntact(allows: Allowlist, worlds: seq<World>, ops: seq<Operation>,
                                             outcomes: seq<Outcome>)
    requires IsRun(allows, worlds, ops, outcomes) && worlds[0].records == map[]
    requires forall i :: 0 <= i < |ops| ==> ops[i] != Edit && !Tore(worlds[i], worlds[i + 1], outcomes[i])
    ensures Intact(worlds[|ops|])
    decreases |ops|
  {
    var n := |ops|;
    if n > 0 {
      UntornRunIsIntact(allows, worlds[..n], ops[..n - 1], outcomes[..n - 1]);
      EveryRunIsReversible(allows, worlds[..n], ops[..n - 1], outcomes[..n - 1]);
      StepKeepsIntact(allows, worlds[0].files, ops[n - 1], worlds[n - 1], worlds[n], outcomes[n - 1]);
    }
  }

  /**
    Without outside edits, an unforced reset of an existing record is refused only if some earlier
    operation stopped between the two renames of a file it was replacing.
  */
  lemma RefusalNeedsATornFile(allows: Allowlist, worlds: seq<World>, ops: seq<Operation>, outcomes: seq<Outcome>,
                              target: string, calm: bool, final: World)
    requires IsRun(allows, worlds, ops, outcomes) && worlds[0].records == map[]
    requires forall i :: 0 <= i < |ops| ==> ops[i] != Edit
    requires target in worlds[|ops|].records
    requires ResetSpec(allows, target, false, calm, worlds[|ops|], final, Refused)
    ensures exists i :: 0 <= i < |ops| && Tore(worlds[i], worlds[i + 1], outcomes[i])
  {
    EveryRunIsReversible(allows, worlds, ops, outcomes);
    UnforcedResetRefusesOnlyTorn(allows, worlds[0].files, target, calm, worlds[|ops|], final, Refused);
    if forall i :: 0 <= i < |ops| ==> !Tore(worlds[i], worlds[i + 1], outcomes[i]) {
      UntornRunIsIntact(allows, worlds, ops, outcomes);
    }
  }
}
