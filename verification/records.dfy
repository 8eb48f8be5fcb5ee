/**
  What the client remembers so that it can undo itself, and what it means to
  be partway through writing or restoring a list of files.
*/
module Records {
  import opened Wrappers
  import opened Disks

  /** One planned file; `original` is meaningless when the file did not exist. */
  datatype AptFile = AptFile(path: string, original: string, expected: string, wasMissing: bool) {
    function Original(): Option<string> {
      if wasMissing then None else Some(original)
    }
  }

  datatype Plan = Plan(version: nat, target: string, files: seq<AptFile>, profile: Option<string>)

  /** A rollback record: either the manifest of a plan, or the record of one replaced configuration file. */
  datatype Record =
    | PlanRecord(plan: Plan)
    | SourceRecord(target: string, config: string, original: Option<string>, expected: string)

  /** The intended content of one file; `None` means that it should not exist. */
  datatype Step = Step(path: string, content: Option<string>)

  function Put(files: map<string, string>, step: Step): map<string, string> {
    match step.content
    case Some(content) => files[step.path := content]
    case None => files - {step.path}
  }

  /** The effect of carrying out `steps` in order. */
  function PutAll(files: map<string, string>, steps: seq<Step>): map<string, string> {
    if steps == [] then files else Put(PutAll(files, steps[..|steps| - 1]), steps[|steps| - 1])
  }

  function Paths(steps: seq<Step>): set<string> {
    set i | 0 <= i < |steps| :: steps[i].path
  }

  ghost predicate Distinct(steps: seq<Step>) {
    forall i, j :: 0 <= i < j < |steps| ==> steps[i].path != steps[j].path
  }

  /** `now` is `was` after the first `k` steps, or the moment at which the file of step `k` is moved aside. */
  ghost predicate StoppedAt(was: map<string, string>, now: map<string, string>, steps: seq<Step>, k: nat)
    requires k <= |steps|
  {
    || now == PutAll(was, steps[..k])
    || (k < |steps| && steps[k].content.Some? && Torn(PutAll(was, steps[..k]), now, steps[k].path))
  }

  ghost predicate Partway(was: map<string, string>, now: map<string, string>, steps: seq<Step>) {
    exists k :: 0 <= k <= |steps| && StoppedAt(was, now, steps, k)
  }

  /** The steps of a forward run of a plan. */
  function Forward(files: seq<AptFile>): seq<Step> {
    seq(|files|, i requires 0 <= i < |files| => Step(files[i].path, Some(files[i].expected)))
  }

  /** The steps of undoing a plan. */
  function Backward(files: seq<AptFile>): seq<Step> {
    seq(|files|, i requires 0 <= i < |files| => Step(files[i].path, files[i].Original()))
  }

  /** What a reset of `record` has to put back. */
  function Undo(record: Record): seq<Step> {
    match record
    case PlanRecord(plan) => Backward(plan.files)
    case SourceRecord(_, config, original, _) => [Step(config, original)]
  }

  /** What the operation that left `record` was about to write. */
  function Intended(record: Record): seq<Step> {
    match record
    case PlanRecord(plan) => Forward(plan.files)
    case SourceRecord(_, config, _, expected) => [Step(config, Some(expected))]
  }

  lemma IntendedMatchesUndo(record: Record)
    ensures |Intended(record)| == |Undo(record)|
    ensures forall i :: 0 <= i < |Undo(record)| ==> Intended(record)[i].path == Undo(record)[i].path
    ensures Paths(Intended(record)) == Paths(Undo(record))
    ensures Distinct(Intended(record)) == Distinct(Undo(record))
  {
    var a, b := Intended(record), Undo(record);
    assert |a| == |b|;
    assert forall i :: 0 <= i < |b| ==> a[i].path == b[i].path;
    assert forall p :: p in Paths(a) <==> exists i :: 0 <= i < |a| && a[i].path == p;
    assert forall p :: p in Paths(b) <==> exists i :: 0 <= i < |b| && b[i].path == p;
  }

  // -------------------------------------------------------------------------
  // Looking into PutAll
  // -------------------------------------------------------------------------

  lemma {:induction false} PutAllFrame(files: map<string, string>, steps: seq<Step>, path: string)
    requires path !in Paths(steps)
    ensures Get(PutAll(files, steps), path) == Get(files, path)
  {
    if steps != [] {
      var init := steps[..|steps| - 1];
      assert forall i :: 0 <= i < |init| ==> init[i] == steps[i];
      assert steps[|steps| - 1].path in Paths(steps);
      PutAllFrame(files, init, path);
    }
  }

  lemma {:induction false} PutAllAt(files: map<string, string>, steps: seq<Step>, i: nat)
    requires Distinct(steps) && i < |steps|
    ensures Get(PutAll(files, steps), steps[i].path) == steps[i].content
  {
    if i < |steps| - 1 {
      PutAllAt(files, steps[..|steps| - 1], i);
    }
  }

  lemma PutAllExtends(files: map<string, string>, steps: seq<Step>, k: nat)
    requires k < |steps|
    ensures PutAll(files, steps[..k + 1]) == Put(PutAll(files, steps[..k]), steps[k])
  {
    assert steps[..k + 1][..k] == steps[..k];
  }

  /** Partway through, an untouched path is as before and a touched one is as before, as intended, or moved aside. */
  lemma PartwayAt(was: map<string, string>, now: map<string, string>, steps: seq<Step>)
    requires Distinct(steps) && Partway(was, now, steps)
    ensures forall p :: p !in Paths(steps) ==> Get(now, p) == Get(was, p)
    ensures forall i :: 0 <= i < |steps| ==> StepState(was, now, steps[i])
  {
    var k :| 0 <= k <= |steps| && StoppedAt(was, now, steps, k);
    var init := steps[..k];
    assert forall i :: 0 <= i < k ==> init[i] == steps[i];
    forall p | p !in Paths(steps)
      ensures Get(now, p) == Get(was, p)
    {
      assert p !in Paths(init);
      PutAllFrame(was, init, p);
      if k < |steps| {
        assert steps[k].path in Paths(steps);
      }
    }
    forall i | 0 <= i < |steps|
      ensures StepState(was, now, steps[i])
    {
      if i < k {
        PutAllAt(was, init, i);
      } else {
        assert steps[i].path !in Paths(init);
        PutAllFrame(was, init, steps[i].path);
      }
    }
  }

  ghost predicate StepState(was: map<string, string>, now: map<string, string>, step: Step) {
    || Get(now, step.path) == Get(was, step.path)
    || Get(now, step.path) == step.content
    || (step.content.Some? && step.path in was && step.path !in now)
  }

  /** Carrying out steps that agree with `files` changes nothing. */
  lemma {:induction false} PutAllIdentity(files: map<string, string>, steps: seq<Step>)
    requires forall i :: 0 <= i < |steps| ==> Get(files, steps[i].path) == steps[i].content
    ensures PutAll(files, steps) == files
  {
    if steps != [] {
      var init := steps[..|steps| - 1];
      assert forall i :: 0 <= i < |init| ==> init[i] == steps[i];
      PutAllIdentity(files, init);
      var last := steps[|steps| - 1];
      assert Get(files, last.path) == last.content;
    }
  }

  /** Two maps with the same lookups are the same map. */
  lemma SameLookups<K, V>(a: map<K, V>, b: map<K, V>)
    requires forall k :: Get(a, k) == Get(b, k)
    ensures a == b
  {
    forall k ensures k in a <==> k in b {
      assert Get(a, k) == Get(b, k);
    }
    forall k | k in a ensures a[k] == b[k] {
      assert Get(a, k) == Get(b, k);
    }
  }
}
