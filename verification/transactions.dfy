/**
  The client's configuration transactions: applying a plan of several files,
  replacing one source file, migrating a whole system, and resetting.

  Configuration files and rollback records live on two disks; the allowlist of
  planned paths keeps the two name spaces apart.  Records are keyed by target
  code, as `<target>.json` is.
*/
module Transactions {
  import opened Wrappers
  import opened Disks
  import opened Records
  import Text

  datatype World = World(files: map<string, string>, records: map<string, Record>)

  /** `Failed` is an error the process reports; `Crashed` is the process dying. */
  datatype Outcome = Completed | Refused | Failed | Crashed {
    predicate Broken() {
      Failed? || Crashed?
    }
  }

  function Verdict(status: Status): Outcome {
    match status
    case Done => Completed
    case Failed => Outcome.Failed
    case Crashed => Outcome.Crashed
  }

  // -------------------------------------------------------------------------
  // Paths and manifests
  // -------------------------------------------------------------------------

  const SYSTEM := "system"
  const APT := "apt"
  const APT_LIST := "etc/apt/sources.list"
  const APT_DIRECTORY := "etc/apt/sources.list.d/"

  /** The only paths an APT manifest may name. */
  predicate AptPath(path: string) {
    || path == APT_LIST
    || (Text.StartsWith(path, APT_DIRECTORY) &&
        var name := path[|APT_DIRECTORY|..];
        && '/' !in name
        && ((|name| > 5 && Text.EndsWith(name, ".list")) || (|name| > 8 && Text.EndsWith(name, ".sources"))))
  }

  /** The one file a plain `set` of a system-scope target writes. */
  function ConfigPath(target: string): Option<string> {
    match target
    case "system" => Some("etc/mirrorproxy/system-sources")
    case "docker" => Some("etc/docker/daemon.json")
    case "apt" => Some("etc/apt/sources.list.d/mirrorproxy.list")
    case "alpine" => Some("etc/apk/repositories")
    case "xbps" => Some("etc/xbps.d/00-mirrorproxy.conf")
    case "zypper" => Some("etc/zypp/repos.d/mirrorproxy.repo")
    case "gentoo" => Some("etc/portage/make.conf")
    case "dnf" => Some("etc/yum.repos.d/mirrorproxy.repo")
    case "pacman" => Some("etc/pacman.d/mirrorlist")
    case _ => None
  }

  /** Profile code and path to whether the profile's allowlist admits the path. */
  type Allowlist = (string, string) -> bool

  predicate WellFormed(plan: Plan) {
    && plan.version == 1
    && ((plan.target == APT && plan.profile.None?) || (plan.target == SYSTEM && plan.profile.Some?))
    && plan.files != []
  }

  predicate PathAllowed(allows: Allowlist, plan: Plan, path: string) {
    match plan.profile
    case Some(profile) => allows(profile, path)
    case None => AptPath(path)
  }

  ghost predicate Acceptable(allows: Allowlist, plan: Plan) {
    && WellFormed(plan)
    && (forall i :: 0 <= i < |plan.files| ==> PathAllowed(allows, plan, plan.files[i].path))
    && Distinct(Undo(PlanRecord(plan)))
  }

  predicate Recognised(file: AptFile, files: map<string, string>, restoring: bool) {
    || Get(files, file.path) == file.Original()
    || (restoring && Get(files, file.path) == Some(file.expected))
  }

  ghost predicate Validates(allows: Allowlist, plan: Plan, files: map<string, string>, restoring: bool, force: bool) {
    && Acceptable(allows, plan)
    && ((restoring && force) ||
        forall i :: 0 <= i < |plan.files| ==> Recognised(plan.files[i], files, restoring))
  }

  // -------------------------------------------------------------------------
  // What each operation may do to the world
  // -------------------------------------------------------------------------

  /** A forward operation that was accepted: nothing, or the record and a prefix of the writes; all if `calm`. */
  ghost predicate Begun(was: World, now: World, target: string, record: Record, calm: bool, outcome: Outcome) {
    var steps := Intended(record);
    && outcome != Refused && (calm ==> outcome == Completed)
    && (outcome == Completed ==> now == World(PutAll(was.files, steps), was.records[target := record]))
    && (|| now == was
        || (now.records == was.records[target := record] && Partway(was.files, now.files, steps)))
  }

  /** A reset that was accepted: the record goes only after everything is back, and it does if `calm`. */
  ghost predicate Undone(was: World, now: World, target: string, record: Record, calm: bool, outcome: Outcome) {
    var steps := Undo(record);
    && outcome != Refused && (calm ==> outcome == Completed)
    && (outcome == Completed ==> now == World(PutAll(was.files, steps), was.records - {target}))
    && (outcome.Broken() ==> now.records == was.records && Partway(was.files, now.files, steps))
  }

  ghost predicate ApplySpec(allows: Allowlist, plan: Plan, calm: bool, was: World, now: World, outcome: Outcome) {
    if plan.target in was.records || !Validates(allows, plan, was.files, false, false)
    then outcome == Refused && now == was
    else Begun(was, now, plan.target, PlanRecord(plan), calm, outcome)
  }

  ghost predicate MigrateSpec(allows: Allowlist, plan: Plan, calm: bool, was: World, now: World, outcome: Outcome) {
    if was.records != map[]
    then outcome == Refused && now == was
    else ApplySpec(allows, plan, calm, was, now, outcome)
  }

  /** Builds the new content of a configuration file from the old one; `None` when it refuses. */
  type Builder = Option<string> -> Option<string>

  predicate SetAccepts(target: string, build: Builder, force: bool, was: World) {
    && target != SYSTEM  // dispatched to the migration instead
    && SYSTEM !in was.records
    && target !in was.records
    && ConfigPath(target).Some?
    && var original := Get(was.files, ConfigPath(target).value);
    && (original.None? || Text.IsBlank(original.value) || target == "docker" || force)
    && build(original).Some?
  }

  function SetRecord(target: string, build: Builder, was: World): Record
    requires ConfigPath(target).Some? && build(Get(was.files, ConfigPath(target).value)).Some?
  {
    var config := ConfigPath(target).value;
    var original := Get(was.files, config);
    SourceRecord(target, config, original, build(original).value)
  }

  ghost predicate SetSpec(target: string, build: Builder, force: bool, calm: bool, was: World, now: World,
                          outcome: Outcome)
  {
    if !SetAccepts(target, build, force, was)
    then outcome == Refused && now == was
    else Begun(was, now, target, SetRecord(target, build, was), calm, outcome)
  }

  /** Exactly what an accepted `set` does under the two disks' scripts. */
  ghost predicate SetRun(target: string, build: Builder, was: World, configScript: seq<Fault>, stateScript: seq<Fault>,
                         now: World, outcome: Outcome)
    requires ConfigPath(target).Some? && build(Get(was.files, ConfigPath(target).value)).Some?
  {
    var record := SetRecord(target, build, was);
    var saved, written := Writing(target in was.records, stateScript), Writing(record.original.Some?, configScript);
    && outcome == Verdict(if saved.status == Done then written.status else saved.status)
    && now.records == After(was.records, target, record, saved.effect)
    && now.files == if saved.status == Done then After(was.files, record.config, record.expected, written.effect)
                    else was.files
  }

  /** Whether `record`, stored under `target`, may be undone on `files`. */
  ghost predicate ResetAccepts(allows: Allowlist, target: string, record: Record, force: bool,
                               files: map<string, string>)
  {
    match record
    case PlanRecord(plan) =>
      plan.target == target && Validates(allows, plan, files, true, force)
    case SourceRecord(recorded, config, original, expected) =>
      && recorded == target
      && Some(config) == ConfigPath(target)
      && (Get(files, config) == original || Get(files, config) == Some(expected) || force)
  }

  ghost predicate ResetSpec(allows: Allowlist, target: string, force: bool, calm: bool, was: World, now: World,
                            outcome: Outcome)
  {
    if target !in was.records || !ResetAccepts(allows, target, was.records[target], force, was.files)
    then outcome == Refused && now == was
    else Undone(was, now, target, was.records[target], calm, outcome)
  }

  /** A file the planner wants, with its new content. */
  datatype Proposal = Proposal(path: string, expected: string)

  /** What a proposal replaces, for the manifest. */
  function Entry(files: map<string, string>, proposal: Proposal): AptFile {
    match Get(files, proposal.path)
    case None => AptFile(proposal.path, "", proposal.expected, true)
    case Some(original) => AptFile(proposal.path, original, proposal.expected, false)
  }

  /** The proposals that change something, with what they replace. */
  function Planned(files: map<string, string>, proposals: seq<Proposal>): seq<AptFile> {
    if proposals == [] then [] else
      var last := proposals[|proposals| - 1];
      var init := Planned(files, proposals[..|proposals| - 1]);
      if Get(files, last.path) == Some(last.expected) then init else init + [Entry(files, last)]
  }

  // -------------------------------------------------------------------------
  // The operations
  // -------------------------------------------------------------------------

  class Client {
    const allows: Allowlist
    const config: Disk<string>
    const state: Disk<Record>

    ghost predicate Valid() reads this, config, state {
      config.Valid() && state.Valid()
    }

    ghost function Now(): World reads this, config, state {
      World(config.files, state.files)
    }

    /** The disks will carry out `writes` replacements and one change of the records without a fault. */
    ghost predicate CalmFor(writes: nat) reads this, config, state {
      Calm(config.script) >= 4 * writes && Calm(state.script) >= 4
    }

    constructor (allows: Allowlist, config: Disk<string>, state: Disk<Record>)
      requires config.Valid() && state.Valid()
      ensures Valid() && this.allows == allows && this.config == config && this.state == state
    {
      this.allows, this.config, this.state := allows, config, state;
    }

    method Validate(plan: Plan, restoring: bool, force: bool) returns (ok: bool)
      ensures ok == Validates(allows, plan, config.files, restoring, force)
    {
      if !WellFormed(plan) {
        return false;
      }
      var seen: set<string> := {};
      for i := 0 to |plan.files|
        invariant seen == set k | 0 <= k < i :: plan.files[k].path
        invariant forall k :: 0 <= k < i ==> PathAllowed(allows, plan, plan.files[k].path)
        invariant forall k, l :: 0 <= k < l < i ==> plan.files[k].path != plan.files[l].path
        invariant (restoring && force) || forall k :: 0 <= k < i ==> Recognised(plan.files[k], config.files, restoring)
      {
        var file := plan.files[i];
        if !PathAllowed(allows, plan, file.path) {
          return false;
        }
        if file.path in seen {
          ghost var k :| 0 <= k < i && plan.files[k].path == file.path;
          assert Undo(PlanRecord(plan))[k].path == Undo(PlanRecord(plan))[i].path;
          return false;
        }
        seen := seen + {file.path};
        if !(Recognised(file, config.files, restoring) || (restoring && force)) {
          return false;
        }
      }
      return true;
    }

    /** Records the original of every file a system migration is going to change. */
    method PlanSystem(profile: string, proposals: seq<Proposal>) returns (plan: Option<Plan>)
      ensures plan == if Planned(config.files, proposals) == [] then None
                      else Some(Plan(1, SYSTEM, Planned(config.files, proposals), Some(profile)))
    {
      var files: seq<AptFile> := [];
      for i := 0 to |proposals|
        invariant files == Planned(config.files, proposals[..i])
      {
        assert proposals[..i + 1][..i] == proposals[..i];
        var proposal := proposals[i];
        var original := Get(config.files, proposal.path);
        if original == Some(proposal.expected) {
          continue;
        }
        var text := if original.Some? then original.value else "";
        files := files + [AptFile(proposal.path, text, proposal.expected, original.None?)];
      }
      assert proposals[..|proposals|] == proposals;
      return if files == [] then None else Some(Plan(1, SYSTEM, files, Some(profile)));
    }

    /** Saves the manifest, then writes every planned file. */
    method ApplyPlan(plan: Plan) returns (outcome: Outcome)
      requires Valid()
      modifies config, state
      ensures Valid()
      ensures ApplySpec(allows, plan, old(CalmFor(|plan.files|)), old(Now()), Now(), outcome)
    {
      hide Calm, Writing, Validates;
      if plan.target in state.files {
        return Refused;
      }
      var ok := Validate(plan, false, false);
      if !ok {
        return Refused;
      }
      ghost var steps := Forward(plan.files);
      assert steps[..0] == [];
      WritingSucceeds(false, state.script);
      var saved := state.WriteAtomic(plan.target, PlanRecord(plan));
      if saved != Done {
        assert StoppedAt(config.files, config.files, steps, 0);
        return Verdict(saved);
      }
      ghost var was := config.files;
      for i := 0 to |plan.files|
        invariant Valid()
        invariant state.files == old(state.files)[plan.target := PlanRecord(plan)]
        invariant config.files == PutAll(was, steps[..i])
        invariant old(CalmFor(|plan.files|)) ==> Calm(config.script) >= 4 * (|plan.files| - i)
      {
        PutAllExtends(was, steps, i);
        WritingSucceeds(plan.files[i].path in config.files, config.script);
        var status := config.WriteAtomic(plan.files[i].path, plan.files[i].expected);
        if status != Done {
          assert StoppedAt(was, config.files, steps, i) || StoppedAt(was, config.files, steps, i + 1);
          return Verdict(status);
        }
      }
      assert steps[..|steps|] == steps;
      assert StoppedAt(was, config.files, steps, |steps|);
      return Completed;
    }

    /** A migration, or an APT replacement: both demand that no record exists at all. */
    method Migrate(plan: Plan) returns (outcome: Outcome)
      requires Valid()
      modifies config, state
      ensures Valid()
      ensures MigrateSpec(allows, plan, old(CalmFor(|plan.files|)), old(Now()), Now(), outcome)
    {
      if state.files != map[] {
        return Refused;
      }
      outcome := ApplyPlan(plan);
    }

    /** Replaces the one configuration file of `target`. */
    method Set(target: string, build: Builder, force: bool) returns (outcome: Outcome)
      requires Valid()
      modifies config, state
      ensures Valid()
      ensures SetSpec(target, build, force, old(CalmFor(1)), old(Now()), Now(), outcome)
      ensures outcome != Refused ==>
                && SetAccepts(target, build, force, old(Now()))
                && SetRun(target, build, old(Now()), old(config.script), old(state.script), Now(), outcome)
    {
      hide Calm, Writing;
      if target == SYSTEM || SYSTEM in state.files || target in state.files || ConfigPath(target).None? {
        return Refused;
      }
      var path := ConfigPath(target).value;
      var original := Get(config.files, path);
      if original.Some? && !Text.IsBlank(original.value) && target != "docker" && !force {
        return Refused;
      }
      var built := build(original);
      if built.None? {
        return Refused;
      }
      var record := SourceRecord(target, path, original, built.value);
      ghost var was := config.files;
      ghost var steps := Intended(record);
      assert steps[..0] == [] && steps[..1] == steps;
      PutAllExtends(was, steps, 0);
      WritingSucceeds(false, state.script);
      WritingSucceeds(path in config.files, config.script);
      var saved := state.WriteAtomic(target, record);
      if saved != Done {
        assert StoppedAt(was, config.files, steps, 0);
        return Verdict(saved);
      }
      var status := config.WriteAtomic(path, built.value);
      assert StoppedAt(was, config.files, steps, 0) || StoppedAt(was, config.files, steps, 1);
      return Verdict(status);
    }

    /** Undoes whatever the record of `target` describes. */
    method Reset(target: string, force: bool) returns (outcome: Outcome)
      requires Valid()
      modifies config, state
      ensures Valid()
      ensures ResetSpec(allows, target, force, target in old(state.files) && old(CalmFor(|Undo(state.files[target])|)),
                        old(Now()), Now(), outcome)
    {
      if target !in state.files {
        return Refused;
      }
      match state.files[target]
      case PlanRecord(plan) =>
        outcome := ResetPlan(target, plan, force);
      case SourceRecord(_, _, _, _) =>
        outcome := ResetSource(target, state.files[target], force);
    }

    /** The restoration loop: how far it gets, and that it gets through if nothing fails. */
    method PutBack(files: seq<AptFile>) returns (status: Status)
      requires Valid()
      modifies config
      ensures Valid()
      ensures Partway(old(config.files), config.files, Backward(files))
      ensures status == Done ==> config.files == PutAll(old(config.files), Backward(files))
      ensures old(Calm(config.script)) >= 4 * |files| ==> status == Done
    {
      hide Calm, Restoring;
      ghost var steps := Backward(files);
      ghost var was := config.files;
      assert steps[..0] == [];
      for i := 0 to |files|
        invariant Valid()
        invariant config.files == PutAll(was, steps[..i])
        invariant old(Calm(config.script)) >= 4 * |files| ==> Calm(config.script) >= 4 * (|files| - i)
      {
        PutAllExtends(was, steps, i);
        if Calm(config.script) >= 4 {
          RestoringSucceeds(files[i].path in config.files, files[i].Original(), config.script);
        }
        status := config.RestoreOriginal(files[i].path, files[i].Original());
        if status != Done {
          assert StoppedAt(was, config.files, steps, i) || StoppedAt(was, config.files, steps, i + 1);
          return;
        }
        assert config.files == Put(PutAll(was, steps[..i]), steps[i]);
      }
      assert steps[..|steps|] == steps;
      assert StoppedAt(was, config.files, steps, |steps|);
      return Done;
    }

    method ResetPlan(target: string, plan: Plan, force: bool) returns (outcome: Outcome)
      requires Valid() && target in state.files && state.files[target] == PlanRecord(plan)
      modifies config, state
      ensures Valid()
      ensures ResetSpec(allows, target, force, old(CalmFor(|plan.files|)), old(Now()), Now(), outcome)
    {
      hide Calm, Validates, PutAll, Partway;
      if plan.target != target {
        return Refused;
      }
      var ok := Validate(plan, true, force);
      if !ok {
        return Refused;
      }
      CalmAnswers(state.script);
      var status := PutBack(plan.files);
      if status != Done {
        return Verdict(status);
      }
      var removed := state.RemoveFile(target);
      return Verdict(removed);
    }

    method ResetSource(target: string, record: Record, force: bool) returns (outcome: Outcome)
      requires Valid() && target in state.files && state.files[target] == record && record.SourceRecord?
      modifies config, state
      ensures Valid()
      ensures ResetSpec(allows, target, force, old(CalmFor(1)), old(Now()), Now(), outcome)
    {
      hide Calm, Restoring;
      CalmAnswers(state.script);
      if Calm(config.script) >= 4 {
        RestoringSucceeds(record.config in config.files, record.original, config.script);
      }
      if record.target != target || Some(record.config) != ConfigPath(target) {
        return Refused;
      }
      ghost var steps := Undo(record);
      ghost var was := config.files;
      assert steps[..0] == [] && steps[..1] == steps;
      PutAllExtends(was, steps, 0);
      var current := Get(config.files, record.config);
      if current == record.original {
        PutAllIdentity(was, steps);
        assert StoppedAt(was, config.files, steps, 0);
        var removed := state.RemoveFile(target);
        return Verdict(removed);
      }
      if current != Some(record.expected) && !force {
        return Refused;
      }
      var status := config.RestoreOriginal(record.config, record.original);
      assert StoppedAt(was, config.files, steps, 0) || StoppedAt(was, config.files, steps, 1);
      if status != Done {
        return Verdict(status);
      }
      assert config.files == PutAll(was, steps);
      var removed := state.RemoveFile(target);
      return Verdict(removed);
    }
  }
}
