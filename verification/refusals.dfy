/**
  When the client refuses, in terms of the record and of the files alone: in any world, whatever
  others have edited since.
*/
module Refusals {
  import opened Wrappers
  import opened Records
  import opened Transactions
  import H = Histories
  import Text

  // -------------------------------------------------------------------------
  // Resets
  // -------------------------------------------------------------------------

  /** Some file of the plan holds neither its original, nor what the plan wrote. */
  ghost predicate PlanEdited(files: map<string, string>, plan: Plan) {
    exists i :: 0 <= i < |plan.files| &&
                Get(files, plan.files[i].path) != Some(plan.files[i].expected) &&
                Get(files, plan.files[i].path) !=
                (if plan.files[i].wasMissing then None else Some(plan.files[i].original))
  }

  /**
    An unforced reset of a plan is refused, changing nothing, exactly when a planned file has been
    edited; otherwise every original comes back where nothing fails.
  */
  lemma PlanResetRefusedExactly(allows: Allowlist, target: string, plan: Plan, calm: bool, was: World, now: World,
                                outcome: Outcome)
    requires target in was.records && was.records[target] == PlanRecord(plan)
    requires H.Fits(allows, target, PlanRecord(plan)) && ResetSpec(allows, target, false, calm, was, now, outcome)
    ensures outcome == Refused <==> PlanEdited(was.files, plan)
    ensures outcome == Refused ==> now == was
    ensures calm && outcome != Refused ==>
              && outcome == Completed && now.records == was.records - {target}
              && forall i :: 0 <= i < |plan.files| ==>
                   Get(now.files, plan.files[i].path) ==
                   if plan.files[i].wasMissing then None else Some(plan.files[i].original)
  {
    if calm && outcome != Refused {
      H.CompletedResetRestores(allows, target, false, calm, was, now);
      var undo := Undo(PlanRecord(plan));
      forall i | 0 <= i < |plan.files|
        ensures Get(now.files, plan.files[i].path) ==
                if plan.files[i].wasMissing then None else Some(plan.files[i].original)
      {
        assert undo[i] == Step(plan.files[i].path, plan.files[i].Original());
      }
    }
  }

  /** The same for the record of one replaced file. */
  lemma SourceResetRefusedExactly(allows: Allowlist, target: string, config: string, original: Option<string>,
                                  expected: string, calm: bool, was: World, now: World, outcome: Outcome)
    requires target in was.records && was.records[target] == SourceRecord(target, config, original, expected)
    requires H.Fits(allows, target, was.records[target]) && ResetSpec(allows, target, false, calm, was, now, outcome)
    ensures outcome == Refused <==> Get(was.files, config) != original && Get(was.files, config) != Some(expected)
    ensures outcome == Refused ==> now == was
    ensures calm && outcome != Refused ==>
              outcome == Completed && now.records == was.records - {target} && Get(now.files, config) == original
  {
    if calm && outcome != Refused {
      H.CompletedResetRestores(allows, target, false, calm, was, now);
      assert Undo(was.records[target])[0] == Step(config, original);
    }
  }

  /** Some file of the record holds neither what the record saved nor what its operation wrote. */
  ghost predicate Edited(files: map<string, string>, record: Record) {
    IntendedMatchesUndo(record);
    exists i :: 0 <= i < |Undo(record)| &&
                Get(files, Undo(record)[i].path) != Undo(record)[i].content &&
                Get(files, Undo(record)[i].path) != Intended(record)[i].content
  }

  lemma EditedPlan(files: map<string, string>, plan: Plan)
    ensures Edited(files, PlanRecord(plan)) <==> PlanEdited(files, plan)
  {
    var undo, intended := Undo(PlanRecord(plan)), Intended(PlanRecord(plan));
    forall i | 0 <= i < |plan.files|
      ensures undo[i] == Step(plan.files[i].path, plan.files[i].Original())
      ensures intended[i] == Step(plan.files[i].path, Some(plan.files[i].expected))
    {
    }
  }

  /** Either kind of record, in a run with edits: refused exactly when a file of the record has been edited. */
  lemma ResetRefusedExactly(allows: Allowlist, worlds: seq<World>, ops: seq<H.Operation>, outcomes: seq<Outcome>,
                            target: string, calm: bool, final: World, outcome: Outcome)
    requires H.IsRun(allows, worlds, ops, outcomes) && worlds[0].records == map[]
    requires target in worlds[|ops|].records
    requires ResetSpec(allows, target, false, calm, worlds[|ops|], final, outcome)
    ensures outcome == Refused <==> Edited(worlds[|ops|].files, worlds[|ops|].records[target])
    ensures outcome == Refused ==> final == worlds[|ops|]
  {
    H.RecordsFit(allows, worlds, ops, outcomes);
    var was := worlds[|ops|];
    match was.records[target]
    case PlanRecord(plan) =>
      PlanResetRefusedExactly(allows, target, plan, calm, was, final, outcome);
      EditedPlan(was.files, plan);
    case SourceRecord(_, config, original, expected) =>
      SourceResetRefusedExactly(allows, target, config, original, expected, calm, was, final, outcome);
      assert Undo(was.records[target])[0] == Step(config, original);
      assert Intended(was.records[target])[0] == Step(config, Some(expected));
  }

  // -------------------------------------------------------------------------
  // Forward operations
  // -------------------------------------------------------------------------

  /** A plan of the APT replacement names no profile, one of a migration does. */
  predicate NamesItsKind(plan: Plan) {
    (plan.target == "apt" && plan.profile == None) || (plan.target == "system" && plan.profile != None)
  }

  /** The APT replacement may only write the main list and the list and source files beside it. */
  ghost predicate AptFileName(path: string) {
    || path == "etc/apt/sources.list"
    || exists name: string :: && name != "" && '/' !in name
                      && (path == "etc/apt/sources.list.d/" + name + ".list" ||
                          path == "etc/apt/sources.list.d/" + name + ".sources")
  }

  ghost predicate AllowedName(allows: Allowlist, plan: Plan, path: string) {
    if plan.profile == None then AptFileName(path) else allows(plan.profile.value, path)
  }

  lemma AptPathsAre(path: string)
    ensures AptPath(path) <==> AptFileName(path)
  {
    if AptPath(path) && path != APT_LIST {
      var name := path[|APT_DIRECTORY|..];
      assert path == APT_DIRECTORY + name;
      if Text.EndsWith(name, ".list") && |name| > 5 {
        SplitEnd(APT_DIRECTORY, name, 5);
      } else {
        SplitEnd(APT_DIRECTORY, name, 8);
      }
    }
    if AptFileName(path) && path != APT_LIST {
      var name: string :| && name != "" && '/' !in name
                          && (path == APT_DIRECTORY + name + ".list" || path == APT_DIRECTORY + name + ".sources");
      NameIsAllowed(path, name, if path == APT_DIRECTORY + name + ".list" then ".list" else ".sources");
    }
  }

  lemma SplitEnd(directory: string, name: string, n: nat)
    requires n < |name|
    ensures var stem := name[..|name| - n];
            && directory + name == directory + stem + name[|name| - n..]
            && stem != [] && forall c :: c in stem ==> c in name
  {
    var stem := name[..|name| - n];
    assert name == stem + name[|name| - n..];
  }

  lemma NameIsAllowed(path: string, stem: string, extension: string)
    requires stem != "" && '/' !in stem && (extension == ".list" || extension == ".sources")
    requires path == APT_DIRECTORY + stem + extension
    ensures AptPath(path)
  {
    var name := path[|APT_DIRECTORY|..];
    assert name == stem + extension && name[|stem|..] == extension;
    assert '/' !in ".list" && '/' !in ".sources";
  }

  /**
    A replacement of several files is refused, changing nothing, exactly when a record of its target
    exists, the manifest is not one this version writes, it names a file it may not touch or one file
    twice, or some file no longer holds its original.
  */
  lemma PlanRefusedExactly(allows: Allowlist, plan: Plan, calm: bool, was: World, now: World, outcome: Outcome)
    requires ApplySpec(allows, plan, calm, was, now, outcome)
    ensures outcome == Refused <==>
              || plan.target in was.records
              || plan.version != 1 || plan.files == [] || !NamesItsKind(plan)
              || (exists i :: 0 <= i < |plan.files| && !AllowedName(allows, plan, plan.files[i].path))
              || (exists i, j :: 0 <= i < j < |plan.files| && plan.files[i].path == plan.files[j].path)
              || (exists i :: 0 <= i < |plan.files| &&
                     Get(was.files, plan.files[i].path) !=
                     (if plan.files[i].wasMissing then None else Some(plan.files[i].original)))
    ensures outcome == Refused ==> now == was
  {
    hide AptPath, AptFileName, Begun;
    forall i | 0 <= i < |plan.files|
      ensures PathAllowed(allows, plan, plan.files[i].path) <==> AllowedName(allows, plan, plan.files[i].path)
    {
      AptPathsAre(plan.files[i].path);
    }
    var undo := Undo(PlanRecord(plan));
    assert forall i :: 0 <= i < |plan.files| ==> undo[i].path == plan.files[i].path;
    BegunIsNotRefused(was, now, plan.target, PlanRecord(plan), calm, outcome);
  }

  lemma BegunIsNotRefused(was: World, now: World, target: string, record: Record, calm: bool, outcome: Outcome)
    ensures Begun(was, now, target, record, calm, outcome) ==> outcome != Refused
  {
  }

  /** The content is there and some character of it is visible. */
  ghost predicate HasText(content: Option<string>) {
    content.Some? && exists i :: 0 <= i < |content.value| && !Text.IsWhitespace(content.value[i])
  }

  /**
    A replacement of one file is refused exactly when the target has no such file, a record of it or a
    migration exists, the file has text that is neither Docker's nor forced away, or the new content
    cannot be built.
  */
  lemma SetRefusedExactly(target: string, build: Builder, force: bool, calm: bool, was: World, now: World,
                          outcome: Outcome)
    requires SetSpec(target, build, force, calm, was, now, outcome)
    ensures outcome == Refused <==>
              || target !in {"docker", "apt", "alpine", "xbps", "zypper", "gentoo", "dnf", "pacman"}
              || "system" in was.records || target in was.records
              || (HasText(Get(was.files, ConfigPath(target).value)) && target != "docker" && !force)
              || build(Get(was.files, ConfigPath(target).value)) == None
    ensures outcome == Refused ==> now == was
  {
    hide Begun;
    if SetAccepts(target, build, force, was) {
      BegunIsNotRefused(was, now, target, SetRecord(target, build, was), calm, outcome);
    }
  }

  /** The one file of each target that can be set for the whole system. */
  const FILES := map[
    "docker" := "etc/docker/daemon.json",
    "apt" := "etc/apt/sources.list.d/mirrorproxy.list",
    "alpine" := "etc/apk/repositories",
    "xbps" := "etc/xbps.d/00-mirrorproxy.conf",
    "zypper" := "etc/zypp/repos.d/mirrorproxy.repo",
    "gentoo" := "etc/portage/make.conf",
    "dnf" := "etc/yum.repos.d/mirrorproxy.repo",
    "pacman" := "etc/pacman.d/mirrorlist"]

  /** A replacement that completes writes this file and no other, and saves what it held. */
  lemma SetWritesItsFile(target: string, build: Builder, force: bool, calm: bool, was: World, now: World)
    requires SetSpec(target, build, force, calm, was, now, Completed)
    ensures target in FILES
    ensures var path := FILES[target];
            var original := Get(was.files, path);
            && build(original).Some? && now.files == was.files[path := build(original).value]
            && now.records == was.records[target := SourceRecord(target, path, original, build(original).value)]
  {
    var record := SetRecord(target, build, was);
    var steps := Intended(record);
    assert steps[..0] == [] && steps[..1] == steps;
    PutAllExtends(was.files, steps, 0);
  }
}
