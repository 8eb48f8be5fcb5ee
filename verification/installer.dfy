/**
  Installing and rolling back a setup plan while users edit the same files.

  Every change of a configuration file, by the program or by a user, is an event
  of a gap-free trace; the contracts say what the program's own events may do.
*/
module Installer {
  import opened Wrappers
  import opened Disks
  import opened Records
  import S = Setup

  datatype Event = Event(byUser: bool, path: string, was: map<string, string>, now: map<string, string>)

  /** The events lead from `start` to `end` without gaps. */
  ghost predicate Contiguous(start: map<string, string>, trace: seq<Event>, end: map<string, string>) {
    if trace == [] then start == end
    else
      && trace[0].was == start
      && (forall i :: 0 <= i < |trace| - 1 ==> trace[i].now == trace[i + 1].was)
      && trace[|trace| - 1].now == end
  }

  /** The program changed one planned file, which held what the plan recorded or what the plan installs. */
  ghost predicate Faithful(locate: S.Locator, changes: seq<S.Change>, event: Event) {
    !event.byUser ==>
      && (exists i :: 0 <= i < |changes| && locate(changes[i].agent, changes[i].kind) == event.path &&
                      (Get(event.was, event.path) == changes[i].before ||
                       Get(event.was, event.path) == Some(changes[i].installed)))
      && event.now - {event.path} == event.was - {event.path}
  }

  /** The file of the change holds neither what the plan recorded nor what the plan installs. */
  ghost predicate Edited(locate: S.Locator, change: S.Change, files: map<string, string>) {
    && Get(files, locate(change.agent, change.kind)) != change.before
    && Get(files, locate(change.agent, change.kind)) != Some(change.installed)
  }

  ghost predicate SomeEdited(locate: S.Locator, changes: seq<S.Change>, files: map<string, string>) {
    exists i :: 0 <= i < |changes| && Edited(locate, changes[i], files)
  }

  /** All events from `since` on are faithful to `changes`. */
  ghost predicate AllFaithful(locate: S.Locator, changes: seq<S.Change>, trace: seq<Event>, since: nat) {
    forall i :: since <= i < |trace| ==> Faithful(locate, changes, trace[i])
  }

  ghost predicate OnlyUsers(trace: seq<Event>, since: nat) {
    forall i :: since <= i < |trace| ==> trace[i].byUser
  }

  datatype RestoreOutcome = Restored | Unidentified | RestoreFailed | RestoreCrashed

  /** `SetupFailed` carries what the automatic rollback achieved; `Unidentified` means it was not attempted. */
  datatype ApplyOutcome =
    | NothingToDo | Refused | ManifestFailed | Installed | SetupFailed(recovery: RestoreOutcome) | Died

  datatype RollbackOutcome = NoRecord | Mismatch | DuplicateTarget | Changed | Finished(outcome: RestoreOutcome)

  function RestoreVerdict(status: Status): RestoreOutcome {
    match status
    case Done => Restored
    case Failed => RestoreFailed
    case Crashed => RestoreCrashed
  }

  // -------------------------------------------------------------------------
  // What the script decides
  // -------------------------------------------------------------------------

  /** The first write of an installation that does not succeed, its effect, and what remains of the script. */
  datatype Failure = NoFailure | FailedAt(index: nat, effect: Effect, status: Status, rest: seq<Fault>)

  function FirstFailure(changes: seq<S.Change>, script: seq<Fault>, i: nat): Failure
    decreases |changes| - i
  {
    if i >= |changes| then NoFailure
    else
      var w := Writing(changes[i].before.Some?, script);
      if w.status == Done then FirstFailure(changes, w.rest, i + 1) else FailedAt(i, w.effect, w.status, w.rest)
  }

  /**
    How an installation ends. It is left without an automatic rollback, with a file missing, exactly
    when the failed write lost its file; otherwise a calm rollback brings everything back.
  */
  ghost predicate InstallRun(changes: seq<S.Change>, script: seq<Fault>, was: map<string, string>,
                             now: map<string, string>, outcome: ApplyOutcome)
  {
    match FirstFailure(changes, script, 0)
    case NoFailure => outcome == Installed
    case FailedAt(i, effect, status, rest) =>
      if status == Crashed then outcome == Died
      else
        && (outcome.SetupFailed? || outcome == Died)
        && (outcome == SetupFailed(Unidentified) <==> effect == Removed)
        && (effect == Removed ==> now != was)
        && (effect != Removed && Calm(rest) >= 4 * (i + 1) ==> outcome == SetupFailed(Restored) && now == was)
  }

  // -------------------------------------------------------------------------
  // Undoing a prefix of the installation
  // -------------------------------------------------------------------------

  lemma SamePaths(locate: S.Locator, changes: seq<S.Change>)
    ensures var install, restore := S.InstallSteps(locate, changes), S.RestoreSteps(locate, changes);
            && |install| == |restore| == |changes|
            && Paths(install) == Paths(restore)
            && (S.DistinctTargets(locate, changes) ==> Distinct(install) && Distinct(restore))
            && forall i :: 0 <= i < |changes| ==> install[i].path == restore[i].path == S.PathOf(locate, changes[i])
  {
    var install, restore := S.InstallSteps(locate, changes), S.RestoreSteps(locate, changes);
    assert forall i :: 0 <= i < |changes| ==> install[i].path == restore[i].path;
    assert forall p :: p in Paths(install) <==> exists i :: 0 <= i < |install| && install[i].path == p;
    assert forall p :: p in Paths(restore) <==> exists i :: 0 <= i < |restore| && restore[i].path == p;
  }

  ghost predicate SameOutside(was: map<string, string>, now: map<string, string>, paths: set<string>) {
    forall p :: p !in paths ==> Get(now, p) == Get(was, p)
  }

  /** Whatever the planned files hold now, restoring the originals gives back the initial files. */
  lemma RestoringUndoes(locate: S.Locator, changes: seq<S.Change>, was: map<string, string>, now: map<string, string>)
    requires S.DistinctTargets(locate, changes) && S.AllBefore(locate, changes, was)
    requires SameOutside(was, now, Paths(S.RestoreSteps(locate, changes)))
    ensures PutAll(now, S.RestoreSteps(locate, changes)) == was
  {
    SamePaths(locate, changes);
    var restore := S.RestoreSteps(locate, changes);
    forall p ensures Get(PutAll(now, restore), p) == Get(was, p) {
      if p in Paths(restore) {
        var i :| 0 <= i < |restore| && restore[i].path == p;
        PutAllAt(now, restore, i);
      } else {
        PutAllFrame(now, restore, p);
      }
    }
    SameLookups(PutAll(now, restore), was);
  }

  /** The file existed before, and now it is missing. */
  ghost predicate Lost(locate: S.Locator, change: S.Change, files: map<string, string>) {
    change.before.Some? && S.PathOf(locate, change) !in files
  }

  ghost predicate SomeLost(locate: S.Locator, changes: seq<S.Change>, files: map<string, string>) {
    exists i :: 0 <= i < |changes| && Lost(locate, changes[i], files)
  }

  /** Whatever cannot be identified is lost. */
  ghost predicate AllAccounted(locate: S.Locator, changes: seq<S.Change>, files: map<string, string>) {
    forall i :: 0 <= i < |changes| ==>
      S.Identified(locate, changes[i], files) || Lost(locate, changes[i], files)
  }

  lemma AccountedIdentified(locate: S.Locator, changes: seq<S.Change>, files: map<string, string>)
    requires AllAccounted(locate, changes, files)
    ensures SomeEdited(locate, changes, files) <==> SomeLost(locate, changes, files)
  {
    forall i | 0 <= i < |changes|
      ensures Edited(locate, changes[i], files) <==> Lost(locate, changes[i], files)
    {
    }
  }

  /** An installation, and then a rollback of its attempted part, lose files but leave nothing unknown. */
  lemma StaysAccounted(locate: S.Locator, changes: seq<S.Change>, k: nat,
                       was: map<string, string>, middle: map<string, string>, now: map<string, string>)
    requires S.DistinctTargets(locate, changes) && S.AllBefore(locate, changes, was) && k <= |changes|
    requires Partway(was, middle, S.InstallSteps(locate, changes))
    requires Partway(middle, now, S.RestoreSteps(locate, changes[..k]))
    ensures AllAccounted(locate, changes, now)
  {
    SamePaths(locate, changes);
    SamePaths(locate, changes[..k]);
    var install, part := S.InstallSteps(locate, changes), S.RestoreSteps(locate, changes[..k]);
    PartwayAt(was, middle, install);
    PartwayAt(middle, now, part);
    forall i | 0 <= i < |changes|
      ensures S.Identified(locate, changes[i], now) || Lost(locate, changes[i], now)
    {
      assert StepState(was, middle, install[i]);
      if i < k {
        assert StepState(middle, now, part[i]);
      } else {
        assert install[i].path !in Paths(part);
      }
    }
  }

  /** An installation, and then a rollback of its attempted part, stay within the planned files. */
  lemma StaysWithinPlan(locate: S.Locator, changes: seq<S.Change>, k: nat,
                        was: map<string, string>, middle: map<string, string>, now: map<string, string>)
    requires S.DistinctTargets(locate, changes) && k <= |changes|
    requires Partway(was, middle, S.InstallSteps(locate, changes))
    requires Partway(middle, now, S.RestoreSteps(locate, changes[..k]))
    ensures SameOutside(was, middle, Paths(S.RestoreSteps(locate, changes)))
    ensures SameOutside(was, now, Paths(S.RestoreSteps(locate, changes)))
  {
    SamePaths(locate, changes);
    SamePaths(locate, changes[..k]);
    PartwayAt(was, middle, S.InstallSteps(locate, changes));
    PartwayAt(middle, now, S.RestoreSteps(locate, changes[..k]));
    var part, whole := S.RestoreSteps(locate, changes[..k]), S.RestoreSteps(locate, changes);
    forall p | p in Paths(part) ensures p in Paths(whole) {
      var i :| 0 <= i < |part| && part[i].path == p;
      assert whole[i].path == p;
    }
  }

  lemma NothingIsPartway(was: map<string, string>, steps: seq<Step>)
    ensures Partway(was, was, steps)
  {
    assert steps[..0] == [];
    assert StoppedAt(was, was, steps, 0);
  }

  /** The attempted part of a plan is a plan, and the disk is partway through both. */
  lemma Attempted(locate: S.Locator, changes: seq<S.Change>, i: nat, was: map<string, string>, now: map<string, string>)
    requires i < |changes| && S.DistinctTargets(locate, changes) && S.AllBefore(locate, changes, was)
    requires var steps := S.InstallSteps(locate, changes);
             Replacing(PutAll(was, steps[..i]), now, steps[i].path, changes[i].installed)
    ensures S.DistinctTargets(locate, changes[..i + 1]) && S.AllBefore(locate, changes[..i + 1], was)
    ensures Partway(was, now, S.InstallSteps(locate, changes[..i + 1]))
    ensures Partway(was, now, S.InstallSteps(locate, changes))
  {
    var attempted := changes[..i + 1];
    var steps, part := S.InstallSteps(locate, changes), S.InstallSteps(locate, attempted);
    assert part[..i] == steps[..i] && part[..i + 1] == steps[..i + 1];
    PutAllExtends(was, steps, i);
    assert StoppedAt(was, now, steps, i) || StoppedAt(was, now, steps, i + 1);
    assert StoppedAt(was, now, part, i) || StoppedAt(was, now, part, i + 1);
  }

  /** After a failed write the attempted files are all identifiable unless that write lost its file. */
  lemma AttemptedIdentified(locate: S.Locator, changes: seq<S.Change>, i: nat, was: map<string, string>,
                            now: map<string, string>)
    requires i < |changes| && S.DistinctTargets(locate, changes) && S.AllBefore(locate, changes, was)
    requires var steps := S.InstallSteps(locate, changes);
             Replacing(PutAll(was, steps[..i]), now, steps[i].path, changes[i].installed)
    ensures SomeEdited(locate, changes[..i + 1], now)
            <==> changes[i].before.Some? && S.PathOf(locate, changes[i]) !in now
  {
    var steps := S.InstallSteps(locate, changes);
    var init := steps[..i];
    SamePaths(locate, changes);
    assert forall j :: 0 <= j < i ==> init[j] == steps[j];
    PutAllFrame(was, init, steps[i].path);
    forall j | 0 <= j < i
      ensures S.Identified(locate, changes[j], now)
    {
      PutAllAt(was, init, j);
      assert steps[j].path != steps[i].path;
    }
    assert S.Identified(locate, changes[i], now) <==> !(changes[i].before.Some? && steps[i].path !in now);
    assert changes[..i + 1][i] == changes[i];
  }

  lemma PutNothing(was: map<string, string>, steps: seq<Step>)
    ensures PutAll(was, steps[..0]) == was
  {
  }

  lemma EffectOfSuccess(existed: bool, script: seq<Fault>)
    ensures Writing(existed, script).status == Done ==> Writing(existed, script).effect == Replaced
  {
    WritingSucceeds(existed, script);
  }

  /** Where nothing fails, everything is installed. */
  lemma {:induction false} CalmInstalls(changes: seq<S.Change>, script: seq<Fault>, i: nat)
    requires i <= |changes| && Calm(script) >= 4 * (|changes| - i)
    ensures FirstFailure(changes, script, i) == NoFailure
    decreases |changes| - i
  {
    hide Calm, Writing;
    if i < |changes| {
      WritingSucceeds(changes[i].before.Some?, script);
      CalmInstalls(changes, Writing(changes[i].before.Some?, script).rest, i + 1);
    }
  }

  /** Until its turn a file keeps the content the plan recorded. */
  lemma StillBefore(locate: S.Locator, changes: seq<S.Change>, i: nat, was: map<string, string>)
    requires i < |changes| && S.DistinctTargets(locate, changes) && S.AllBefore(locate, changes, was)
    ensures Get(PutAll(was, S.InstallSteps(locate, changes)[..i]), S.PathOf(locate, changes[i])) == changes[i].before
  {
    var steps := S.InstallSteps(locate, changes);
    SamePaths(locate, changes);
    assert forall j :: 0 <= j < i ==> steps[..i][j] == steps[j];
    PutAllFrame(was, steps[..i], steps[i].path);
  }

  /** A failed write has lost its file exactly when its effect is a removal. */
  lemma LostByEffect(locate: S.Locator, changes: seq<S.Change>, i: nat, was: map<string, string>, effect: Effect)
    requires i < |changes| && S.DistinctTargets(locate, changes) && S.AllBefore(locate, changes, was)
    requires effect == Removed ==> changes[i].before.Some?
    ensures var files := PutAll(was, S.InstallSteps(locate, changes)[..i]);
            var path := S.PathOf(locate, changes[i]);
            var now := After(files, path, changes[i].installed, effect);
            && (effect == Removed <==> changes[i].before.Some? && path !in now)
            && (effect == Removed ==> now != was)
  {
    hide PutAll;
    StillBefore(locate, changes, i, was);
  }

  // -------------------------------------------------------------------------
  // The operations
  // -------------------------------------------------------------------------

  class Session {
    const locations: S.Locations
    const locate: S.Locator
    /** Whether the run is free of outside edits. */
    const quiet: bool
    const config: Disk<string>
    const manifests: Disk<S.Record>
    ghost const start: map<string, string>
    ghost var trace: seq<Event>

    ghost predicate Valid() reads this, config, manifests {
      config.Valid() && manifests.Valid() && Contiguous(start, trace, config.files)
    }

    constructor (locations: S.Locations, quiet: bool, config: Disk<string>, manifests: Disk<S.Record>)
      requires config.Valid() && manifests.Valid()
      ensures Valid() && this.config == config && this.manifests == manifests
      ensures this.locations == locations && this.locate == locations.Locator() && this.quiet == quiet && trace == []
    {
      this.locate := locations.Locator();
      this.locations, this.quiet, this.config, this.manifests := locations, quiet, config, manifests;
      start, trace := config.files, [];
    }

    /** Users may do anything to the configuration files, except in a quiet run. */
    method UserEdits()
      requires Valid()
      modifies config`files, this`trace
      ensures Valid()
      ensures quiet ==> config.files == old(config.files)
      ensures old(trace) <= trace && OnlyUsers(trace, |old(trace)|)
    {
      if !quiet {
        config.files := *;
        trace := trace + [Event(true, "", old(config.files), config.files)];
      }
    }

    /** The only way the program changes a configuration file. */
    method Overwrite(change: S.Change, content: Option<string>) returns (status: Status)
      requires Valid() && S.Identified(locate, change, config.files)
      modifies config, this`trace
      ensures Valid()
      ensures AllFaithful(locate, [change], trace, |old(trace)|)
      ensures trace == old(trace) + [Event(false, S.PathOf(locate, change), old(config.files), config.files)]
      ensures var path := S.PathOf(locate, change);
              && (content.Some? ==> Replacing(old(config.files), config.files, path, content.value))
              && (content.None? ==> config.files == old(config.files) || config.files == old(config.files) - {path})
              && (status == Done ==> config.files == Put(old(config.files), Step(path, content)))
              && var w := Restoring(path in old(config.files), content, old(config.script));
                 && status == w.status && config.script == w.rest
                 && (content.Some? ==> config.files == After(old(config.files), path, content.value, w.effect))
    {
      var path := S.PathOf(locate, change);
      status := config.RestoreOriginal(path, content);
      var event := Event(false, path, old(config.files), config.files);
      trace := trace + [event];
      assert [change][0] == change;
      assert Faithful(locate, [change], event);
    }

    lemma WiderPlan(events: seq<Event>, since: nat, changes: seq<S.Change>, i: nat)
      requires i < |changes| && AllFaithful(locate, [changes[i]], events, since)
      ensures AllFaithful(locate, changes, events, since)
    {
      forall k | since <= k < |events| ensures Faithful(locate, changes, events[k]) {
        assert Faithful(locate, [changes[i]], events[k]);
      }
    }

    lemma LongerPlan(events: seq<Event>, since: nat, changes: seq<S.Change>, k: nat)
      requires k <= |changes| && AllFaithful(locate, changes[..k], events, since)
      ensures AllFaithful(locate, changes, events, since)
    {
      forall e | since <= e < |events| ensures Faithful(locate, changes, events[e]) {
        assert Faithful(locate, changes[..k], events[e]);
      }
    }

    /** Puts every file back, checking each one just before it is written. */
    method Restore(changes: seq<S.Change>) returns (outcome: RestoreOutcome)
      requires Valid()
      modifies config, this`trace
      ensures Valid()
      ensures old(trace) <= trace && AllFaithful(locate, changes, trace, |old(trace)|)
      ensures quiet ==> Partway(old(config.files), config.files, S.RestoreSteps(locate, changes))
      ensures quiet && outcome == Restored ==>
              config.files == PutAll(old(config.files), S.RestoreSteps(locate, changes))
      ensures quiet && S.DistinctTargets(locate, changes) && !SomeEdited(locate, changes, old(config.files))
              ==> outcome != Unidentified
      ensures (quiet && S.DistinctTargets(locate, changes) && !SomeEdited(locate, changes, old(config.files)) &&
               old(Calm(config.script)) >= 4 * |changes|) ==> outcome == Restored
    {
      hide Calm, Restoring, Contiguous;
      ghost var steps := S.RestoreSteps(locate, changes);
      ghost var was := config.files;
      assert steps[..0] == [];
      for i := 0 to |changes|
        invariant Valid()
        invariant old(trace) <= trace && AllFaithful(locate, changes, trace, |old(trace)|)
        invariant quiet ==> config.files == PutAll(was, steps[..i])
        invariant old(Calm(config.script)) >= 4 * |changes| ==> Calm(config.script) >= 4 * (|changes| - i)
      {
        PutAllExtends(was, steps, i);
        assert quiet ==> StoppedAt(was, config.files, steps, i);
        UserEdits();
        var change := changes[i];
        var path := S.PathOf(locate, change);
        if !S.Identified(locate, change, config.files) {
          if quiet && S.DistinctTargets(locate, changes) {
            assert forall j :: 0 <= j < i ==> steps[..i][j] == steps[j];
            PutAllFrame(was, steps[..i], path);
          }
          return Unidentified;
        }
        if change.before.Some? || path in config.files {
          ghost var seen := |trace|;
          if Calm(config.script) >= 4 {
            RestoringSucceeds(path in config.files, change.before, config.script);
          }
          var status := Overwrite(change, change.before);
          WiderPlan(trace, seen, changes, i);
          if status != Done {
            assert quiet ==> StoppedAt(was, config.files, steps, i) || StoppedAt(was, config.files, steps, i + 1);
            return RestoreVerdict(status);
          }
        }
      }
      assert steps[..|steps|] == steps;
      assert quiet ==> StoppedAt(was, config.files, steps, |steps|);
      return Restored;
    }

    /** Whether every file can still be identified. */
    method CheckAll(changes: seq<S.Change>) returns (ok: bool)
      requires Valid()
      modifies config`files, this`trace
      ensures Valid()
      ensures quiet ==> config.files == old(config.files) && ok == !SomeEdited(locate, changes, config.files)
      ensures old(trace) <= trace && OnlyUsers(trace, |old(trace)|)
    {
      for i := 0 to |changes|
        invariant Valid()
        invariant quiet ==> config.files == old(config.files)
        invariant quiet ==> forall j :: 0 <= j < i ==> S.Identified(locate, changes[j], config.files)
        invariant old(trace) <= trace && OnlyUsers(trace, |old(trace)|)
      {
        UserEdits();
        if !S.Identified(locate, changes[i], config.files) {
          return false;
        }
      }
      return true;
    }

    /** Installs a plan under recovery identifier `id`. */
    method Apply(id: string, changes: seq<S.Change>) returns (outcome: ApplyOutcome)
      requires Valid()
      modifies config, manifests, this`trace
      ensures Valid()
      ensures old(trace) <= trace && AllFaithful(locate, changes, trace, |old(trace)|)
      ensures outcome in {NothingToDo, Refused, ManifestFailed} ==> OnlyUsers(trace, |old(trace)|)
      ensures quiet && S.DistinctTargets(locate, changes) ==>
              QuietApply(changes, old(config.files), config.files, outcome)
      ensures quiet && S.DistinctTargets(locate, changes) && changes != [] ==>
                var saved := Writing(id in old(manifests.files), old(manifests.script));
                ApplyRun(changes, old(config.files), config.files, saved, old(config.script), outcome)
      ensures outcome == Installed || outcome.SetupFailed? ==>
                manifests.files == old(manifests.files)[id := S.Record(locations.scope, locations.root, changes)]
      ensures quiet && changes != [] && S.AllBefore(locate, changes, old(config.files)) ==>
                var saved := Writing(id in old(manifests.files), old(manifests.script));
                var record := S.Record(locations.scope, locations.root, changes);
                manifests.files == After(old(manifests.files), id, record, saved.effect)
    {
      hide Writing, InstallRun;
      if changes == [] {
        return NothingToDo;
      }
      var ready := CheckUnchanged(changes);
      if !ready {
        return Refused;
      }
      if quiet && S.DistinctTargets(locate, changes) {
        RestoringUndoes(locate, changes, config.files, config.files);
      }
      var saved := manifests.WriteAtomic(id, S.Record(locations.scope, locations.root, changes));
      if saved != Done {
        return if saved == Status.Failed then ManifestFailed else Died;
      }
      outcome := InstallAll(changes);
    }

    /** Which outcome follows from the state of the files and from the scripts of both disks. */
    ghost predicate ApplyRun(changes: seq<S.Change>, was: map<string, string>, now: map<string, string>, saved: Write,
                             script: seq<Fault>, outcome: ApplyOutcome)
    {
      if !S.AllBefore(locate, changes, was) then outcome == Refused
      else
        match saved.status
        case Failed => outcome == ManifestFailed
        case Crashed => outcome == Died
        case Done => InstallRun(changes, script, was, now, outcome)
    }

    /** Whether every file still has the content the plan was made from. */
    method CheckUnchanged(changes: seq<S.Change>) returns (ok: bool)
      requires Valid()
      modifies config`files, this`trace
      ensures Valid()
      ensures quiet ==> config.files == old(config.files) && ok == S.AllBefore(locate, changes, config.files)
      ensures old(trace) <= trace && OnlyUsers(trace, |old(trace)|)
    {
      for i := 0 to |changes|
        invariant Valid()
        invariant quiet ==> config.files == old(config.files)
        invariant quiet ==> forall j :: 0 <= j < i ==>
                  Get(config.files, S.PathOf(locate, changes[j])) == changes[j].before
        invariant old(trace) <= trace && OnlyUsers(trace, |old(trace)|)
      {
        UserEdits();
        if Get(config.files, S.PathOf(locate, changes[i])) != changes[i].before {
          return false;
        }
      }
      return true;
    }

    /** One file of the installation: whoever edited it since it was planned wins. */
    method InstallOne(changes: seq<S.Change>, i: nat) returns (status: Status)
      requires Valid() && i < |changes|
      modifies config, this`trace
      ensures Valid()
      ensures old(trace) <= trace && AllFaithful(locate, changes, trace, |old(trace)|)
      ensures var change := changes[i];
              var path := S.PathOf(locate, change);
              var w := Writing(change.before.Some?, old(config.script));
              quiet && Get(old(config.files), path) == change.before ==>
                && config.files == After(old(config.files), path, change.installed, w.effect)
                && status == w.status && config.script == w.rest
                && Replacing(old(config.files), config.files, path, change.installed)
      ensures var path := locate(changes[i].agent, changes[i].kind);
              && (forall e :: |old(trace)| <= e < |trace| && !trace[e].byUser ==>
                    Get(trace[e].was, path) == changes[i].before)
              && (quiet && Get(old(config.files), path) != changes[i].before ==>
                    status == Status.Failed && config.files == old(config.files))
    {
      hide Writing, Contiguous;
      UserEdits();
      var change := changes[i];
      status := Status.Failed;
      ghost var seen := |trace|;
      if Get(config.files, S.PathOf(locate, change)) == change.before {
        status := Overwrite(change, Some(change.installed));
        WiderPlan(trace, seen, changes, i);
      }
    }

    /** The installation loop, after the manifest has been saved. */
    method InstallAll(changes: seq<S.Change>) returns (outcome: ApplyOutcome)
      requires Valid() && changes != []
      requires quiet ==> S.AllBefore(locate, changes, config.files)
      modifies config, this`trace
      ensures Valid() && (outcome == Installed || outcome.SetupFailed? || outcome.Died?)
      ensures old(trace) <= trace && AllFaithful(locate, changes, trace, |old(trace)|)
      ensures quiet && S.DistinctTargets(locate, changes) ==>
              QuietApply(changes, old(config.files), config.files, outcome)
      ensures quiet && S.DistinctTargets(locate, changes) ==>
                InstallRun(changes, old(config.script), old(config.files), config.files, outcome)
    {
      hide Writing, Calm, Contiguous, S.AllBefore, S.DistinctTargets, PutAll, Replacing, Faithful;
      ghost var steps := S.InstallSteps(locate, changes);
      ghost var was := config.files;
      ghost var known := quiet && S.DistinctTargets(locate, changes);
      PutNothing(was, steps);
      for i := 0 to |changes|
        invariant Valid()
        invariant known ==> FirstFailure(changes, old(config.script), 0) == FirstFailure(changes, config.script, i)
        invariant old(trace) <= trace && AllFaithful(locate, changes, trace, |old(trace)|)
        invariant known ==> config.files == PutAll(was, steps[..i])
      {
        PutAllExtends(was, steps, i);
        ghost var script := config.script;
        ghost var w := Writing(changes[i].before.Some?, script);
        if known {
          StillBefore(locate, changes, i, was);
          OnlyExistingIsLost(changes[i].before.Some?, script);
          LostByEffect(locate, changes, i, was, w.effect);
          EffectOfSuccess(changes[i].before.Some?, script);
        }
        var status := InstallOne(changes, i);
        if status != Done {
          outcome := Recover(changes, i, was, status);
          return;
        }
      }
      assert steps[..|steps|] == steps;
      return Installed;
    }

    /** What `Apply` achieves when nobody else edits. */
    ghost predicate QuietApply(changes: seq<S.Change>, was: map<string, string>, now: map<string, string>,
                               outcome: ApplyOutcome)
    {
      match outcome
      case NothingToDo => now == was && changes == []
      case Refused => now == was && !S.AllBefore(locate, changes, was)
      case ManifestFailed => now == was
      case Installed => S.AllBefore(locate, changes, was) && now == PutAll(was, S.InstallSteps(locate, changes))
      case Died =>
        && S.AllBefore(locate, changes, was) && AllAccounted(locate, changes, now)
        && PutAll(now, S.RestoreSteps(locate, changes)) == was
      case SetupFailed(recovery) =>
        && S.AllBefore(locate, changes, was) && AllAccounted(locate, changes, now)
        && (recovery == Restored ==> now == was)
        && (recovery == Unidentified ==> SomeLost(locate, changes, now))
        && PutAll(now, S.RestoreSteps(locate, changes)) == was
    }

    /** The automatic rollback after the write of `changes[i]` ended with `status`. */
    method Recover(changes: seq<S.Change>, i: nat, ghost was: map<string, string>, status: Status)
      returns (outcome: ApplyOutcome)
      requires Valid() && i < |changes| && status != Done
      requires quiet && S.DistinctTargets(locate, changes) ==>
                 && S.AllBefore(locate, changes, was)
                 && var steps := S.InstallSteps(locate, changes);
                    Replacing(PutAll(was, steps[..i]), config.files, steps[i].path, changes[i].installed)
      modifies config, this`trace
      ensures Valid() && (outcome.SetupFailed? || outcome.Died?)
      ensures old(trace) <= trace && AllFaithful(locate, changes, trace, |old(trace)|)
      ensures quiet && S.DistinctTargets(locate, changes) ==> QuietApply(changes, was, config.files, outcome)
      ensures status == Crashed ==> outcome == Died
      ensures quiet && S.DistinctTargets(locate, changes) && status == Failed ==>
                && (outcome == SetupFailed(Unidentified) <==> Lost(locate, changes[i], old(config.files)))
                && (outcome == SetupFailed(Unidentified) <==>
                      SomeEdited(locate, changes[..i + 1], old(config.files)))
                && (Lost(locate, changes[i], old(config.files)) ==> config.files == old(config.files))
                && (!Lost(locate, changes[i], old(config.files)) && old(Calm(config.script)) >= 4 * (i + 1) ==>
                      outcome == SetupFailed(Restored))
    {
      hide Calm, Contiguous, S.Identified, PutAll, Partway, Replacing;
      var attempted := changes[..i + 1];
      ghost var middle := config.files;
      if quiet && S.DistinctTargets(locate, changes) {
        AfterFailure(changes, i, was, middle);
      }
      if status == Status.Crashed {
        return Died;
      }
      var ok := CheckAll(attempted);
      if !ok {
        return SetupFailed(Unidentified);
      }
      ghost var seen := |trace|;
      var restored := Restore(attempted);
      LongerPlan(trace, seen, changes, i + 1);
      if quiet && S.DistinctTargets(locate, changes) {
        StaysWithinPlan(locate, changes, i + 1, was, middle, config.files);
        StaysAccounted(locate, changes, i + 1, was, middle, config.files);
        RestoringUndoes(locate, changes, was, config.files);
      }
      outcome := if restored == RestoreCrashed then Died else SetupFailed(restored);
    }

    lemma AfterFailure(changes: seq<S.Change>, i: nat, was: map<string, string>, now: map<string, string>)
      requires i < |changes| && S.DistinctTargets(locate, changes) && S.AllBefore(locate, changes, was)
      requires var steps := S.InstallSteps(locate, changes);
               Replacing(PutAll(was, steps[..i]), now, steps[i].path, changes[i].installed)
      ensures Partway(was, now, S.InstallSteps(locate, changes))
      ensures PutAll(now, S.RestoreSteps(locate, changes)) == was
      ensures PutAll(now, S.RestoreSteps(locate, changes[..i + 1])) == was
      ensures S.DistinctTargets(locate, changes[..i + 1])
      ensures SomeEdited(locate, changes[..i + 1], now) <==> Lost(locate, changes[i], now)
      ensures AllAccounted(locate, changes, now)
    {
      var attempted := changes[..i + 1];
      Attempted(locate, changes, i, was, now);
      AttemptedIdentified(locate, changes, i, was, now);
      NothingIsPartway(now, S.RestoreSteps(locate, attempted));
      StaysWithinPlan(locate, changes, i + 1, was, now, now);
      StaysAccounted(locate, changes, i + 1, was, now, now);
      RestoringUndoes(locate, changes, was, now);
      assert attempted[..i + 1] == attempted;
      StaysWithinPlan(locate, attempted, i + 1, was, now, now);
      RestoringUndoes(locate, attempted, was, now);
    }

    /** The preliminary pass of a rollback: no duplicate targets, every file identifiable. */
    method CheckTargets(changes: seq<S.Change>) returns (problem: Option<RollbackOutcome>)
      requires Valid()
      modifies config`files, this`trace
      ensures Valid()
      ensures old(trace) <= trace && OnlyUsers(trace, |old(trace)|)
      ensures problem in {None, Some(DuplicateTarget), Some(Changed)}
      ensures problem == None ==> S.DistinctTargets(locate, changes)
      ensures problem == Some(DuplicateTarget) ==> !S.DistinctTargets(locate, changes)
      ensures quiet ==> config.files == old(config.files)
      ensures quiet && problem == None ==> !SomeEdited(locate, changes, config.files)
      ensures quiet && problem == Some(Changed) ==> SomeEdited(locate, changes, config.files)
    {
      var seen: set<string> := {};
      for i := 0 to |changes|
        invariant Valid()
        invariant seen == set j | 0 <= j < i :: S.PathOf(locate, changes[j])
        invariant forall j, k :: 0 <= j < k < i ==> S.PathOf(locate, changes[j]) != S.PathOf(locate, changes[k])
        invariant quiet ==> config.files == old(config.files)
        invariant quiet ==> forall j :: 0 <= j < i ==> S.Identified(locate, changes[j], config.files)
        invariant old(trace) <= trace && OnlyUsers(trace, |old(trace)|)
      {
        var path := S.PathOf(locate, changes[i]);
        if path in seen {
          return Some(DuplicateTarget);
        }
        seen := seen + {path};
        UserEdits();
        if !S.Identified(locate, changes[i], config.files) {
          return Some(Changed);
        }
      }
      return None;
    }

    /** Undoes the setup recorded under `id`, after checking every file. */
    method Rollback(id: string) returns (outcome: RollbackOutcome)
      requires Valid()
      modifies config, this`trace
      ensures Valid()
      ensures old(trace) <= trace && (outcome.Finished? || OnlyUsers(trace, |old(trace)|))
      ensures outcome == NoRecord <==> id !in manifests.files
      ensures outcome == DuplicateTarget ==> !S.DistinctTargets(locate, manifests.files[id].changes)
      ensures id in manifests.files ==>
                var changes := manifests.files[id].changes;
                && AllFaithful(locate, changes, trace, |old(trace)|)
                && (quiet ==> QuietRollback(changes, old(config.files), config.files, outcome))
                && (outcome == Mismatch <==>
                      manifests.files[id].scope != locations.scope || manifests.files[id].root != locations.root)
                && (quiet && S.DistinctTargets(locate, changes) && outcome != Mismatch ==>
                      (outcome == Changed <==> SomeEdited(locate, changes, old(config.files))))
                && (quiet && outcome.Finished? && old(Calm(config.script)) >= 4 * |changes| ==>
                      outcome == Finished(Restored))
    {
      if id !in manifests.files {
        return NoRecord;
      }
      var record := manifests.files[id];
      if record.scope != locations.scope || record.root != locations.root {
        return Mismatch;
      }
      var problem := CheckTargets(record.changes);
      if problem.Some? {
        return problem.value;
      }
      var restored := Restore(record.changes);
      outcome := Finished(restored);
    }

    /** What `Rollback` does to the files when nobody else edits. */
    ghost predicate QuietRollback(changes: seq<S.Change>, was: map<string, string>, now: map<string, string>,
                                  outcome: RollbackOutcome)
    {
      match outcome
      case Finished(restored) =>
        && !SomeEdited(locate, changes, was)
        && restored != Unidentified
        && (restored == Restored ==> now == PutAll(was, S.RestoreSteps(locate, changes)))
      case Changed => now == was && SomeEdited(locate, changes, was)
      case _ => now == was
    }
  }

  lemma PlannedIsIdentified(locate: S.Locator, changes: seq<S.Change>, files: map<string, string>)
    requires S.DistinctTargets(locate, changes) && S.AllBefore(locate, changes, files)
    ensures var now := PutAll(files, S.InstallSteps(locate, changes));
            !SomeEdited(locate, changes, now) && PutAll(now, S.RestoreSteps(locate, changes)) == files
  {
    var steps := S.InstallSteps(locate, changes);
    var now := PutAll(files, steps);
    SamePaths(locate, changes);
    forall i | 0 <= i < |changes| ensures S.Identified(locate, changes[i], now) {
      PutAllAt(files, steps, i);
    }
    forall p | p !in Paths(S.RestoreSteps(locate, changes)) ensures Get(now, p) == Get(files, p) {
      PutAllFrame(files, steps, p);
    }
    RestoringUndoes(locate, changes, files, now);
  }

  /** Once the manifest of a setup is saved, what it leaves is accounted for, and restoring it is undoing it. */
  lemma AfterApply(session: Session, changes: seq<S.Change>, was: map<string, string>, left: map<string, string>,
                   outcome: ApplyOutcome)
    requires S.DistinctTargets(session.locate, changes) && session.QuietApply(changes, was, left, outcome)
    requires outcome == Installed || outcome.SetupFailed? || outcome.Died?
    ensures SomeEdited(session.locate, changes, left) <==> SomeLost(session.locate, changes, left)
    ensures PutAll(left, S.RestoreSteps(session.locate, changes)) == was
  {
    hide SomeLost, PutAll, SomeEdited;
    if outcome == Installed {
      PlannedIsIdentified(session.locate, changes, was);
      IdentifiedAreAccounted(session.locate, changes, left);
    }
    AccountedIdentified(session.locate, changes, left);
  }

  lemma IdentifiedAreAccounted(locate: S.Locator, changes: seq<S.Change>, files: map<string, string>)
    requires !SomeEdited(locate, changes, files)
    ensures AllAccounted(locate, changes, files)
  {
  }

  /**
    A setup and, in a later process at the same locations, its rollback, with nobody else editing.  However
    the setup ended, the rollback refuses exactly when a file that the setup had found is missing; otherwise
    it brings back the initial files if nothing fails meanwhile.  There is no way to force it.
  */
  method SetupThenRollback(locations: S.Locations, files: map<string, string>, records: map<string, S.Record>,
                           id: string, changes: seq<S.Change>, saving: seq<Fault>, installing: seq<Fault>,
                           restoring: seq<Fault>)
    returns (applied: ApplyOutcome, left: map<string, string>, undone: RollbackOutcome, end: map<string, string>)
    requires changes != [] && S.DistinctTargets(locations.Locator(), changes)
    requires S.AllBefore(locations.Locator(), changes, files) && Writing(id in records, saving).status == Done
    ensures applied == Installed || applied.SetupFailed? || applied == Died
    ensures undone == Changed || undone.Finished?
    ensures undone == Changed <==> SomeLost(locations.Locator(), changes, left)
    ensures undone == Changed ==> end == left
    ensures undone != Changed && Calm(restoring) >= 4 * |changes| ==> undone == Finished(Restored) && end == files
  {
    hide Writing, Calm, SomeLost, PutAll, FirstFailure, S.DistinctTargets, S.AllBefore, SomeEdited, AllAccounted;
    WritingSucceeds(id in records, saving);
    var config := new Disk<string>(files, installing);
    var manifests := new Disk<S.Record>(records, saving);
    var setup := new Session(locations, true, config, manifests);
    applied := setup.Apply(id, changes);
    left := config.files;
    AfterApply(setup, changes, files, left, applied);

    var disk := new Disk<string>(left, restoring);
    var saved := new Disk<S.Record>(manifests.files, []);
    var session := new Session(locations, true, disk, saved);
    undone := session.Rollback(id);
    end := disk.files;
  }

  /** A record made by the planner never trips the duplicate-target check of a rollback at the same locations. */
  lemma PlannedRecordHasNoDuplicates(locations: S.Locations, files: map<string, string>, shadowed: bool,
                                     render: S.Renderer, agents: seq<S.Agent>)
    requires S.VisitAgents(locations.Locator(), files, shadowed, render, agents).Some?
    ensures var draft := S.VisitAgents(locations.Locator(), files, shadowed, render, agents).value;
            S.DistinctTargets(locations.Locator(), draft.changes)
  {
    S.PlanIsSound(locations.Locator(), files, shadowed, render, agents);
  }
}
