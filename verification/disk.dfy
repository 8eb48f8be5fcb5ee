/**
  The client's file replacement routine, step by step, under an adversarial environment.

  A disk maps names to contents.  Every elementary operation consults the
  environment's `script`: it may work, it may fail without effect (the code then
  continues on its error path), or the process may die at that point.  All
  contracts hold for every script, that is, for every placement of failures and
  of the crash.
*/
module Disks {
  import opened Wrappers

  datatype Fault = Works | Fails | Crashes

  datatype Status = Done | Failed | Crashed

  datatype Role = New | Old

  /** A hidden temporary file next to `name`; the sequence number makes it unique. */
  datatype Sibling = Sibling(name: string, role: Role, sequence: nat)

  /** `now` is `was` with `name` set to `content`. */
  ghost predicate Installed<F>(was: map<string, F>, now: map<string, F>, name: string, content: F) {
    now == was[name := content]
  }

  /** `now` is `was` without the file `name`, which existed: the state between the two renames. */
  ghost predicate Torn<F>(was: map<string, F>, now: map<string, F>, name: string) {
    name in was && now == was - {name}
  }

  /** All a replacement of `name` may have done to the disk, whatever went wrong. */
  ghost predicate Replacing<F>(was: map<string, F>, now: map<string, F>, name: string, content: F) {
    now == was || Installed(was, now, name, content) || Torn(was, now, name)
  }

  // -------------------------------------------------------------------------
  // What the script decides
  // -------------------------------------------------------------------------

  /** The verdict on the next operation; the process does not outlive the script. */
  function Answer(script: seq<Fault>): Status {
    if script == [] then Crashed
    else match script[0] case Works => Done case Fails => Failed case Crashes => Crashed
  }

  function Rest(script: seq<Fault>): seq<Fault> {
    if script == [] then [] else script[1..]
  }

  /** How many operations work before the first that does not. */
  function Calm(script: seq<Fault>): nat {
    if Answer(script) == Done then 1 + Calm(script[1..]) else 0
  }

  /** What became of the file that a write was about. */
  datatype Effect = Kept | Replaced | Removed

  datatype Write = Write(effect: Effect, status: Status, rest: seq<Fault>)

  function After<F>(files: map<string, F>, name: string, content: F, effect: Effect): map<string, F> {
    match effect
    case Kept => files
    case Replaced => files[name := content]
    case Removed => files - {name}
  }

  /** Moving an existing file aside, the new one in, and the old one back if that fails. */
  function Swapping(script: seq<Fault>): Write {
    var install := Rest(script);
    var cleanup := Rest(install);
    if Answer(script) != Done then Write(Kept, Answer(script), install)
    else
      match Answer(install)
      case Done => Write(Replaced, Answer(cleanup), Rest(cleanup))
      case Crashed => Write(Removed, Crashed, cleanup)
      case Failed =>
        if Answer(cleanup) == Crashed then Write(Removed, Crashed, Rest(cleanup))
        else
          Write(if Answer(cleanup) == Done then Kept else Removed,
                if Answer(Rest(cleanup)) == Crashed then Crashed else Failed,
                Rest(Rest(cleanup)))
  }

  /** The whole replacement of a file that exists or not. */
  function Writing(existed: bool, script: seq<Fault>): Write {
    var install := Rest(script);
    if Answer(script) != Done then Write(Kept, Answer(script), install)
    else if existed then Swapping(install)
    else Write(if Answer(install) == Done then Replaced else Kept, Answer(install), Rest(install))
  }

  /** A write to `content`, or a removal where that is `None`. */
  function Restoring<F>(existed: bool, content: Option<F>, script: seq<Fault>): Write {
    if content.Some? then Writing(existed, script)
    else Write(if Answer(script) == Done then Removed else Kept, Answer(script), Rest(script))
  }

  lemma CalmAnswers(script: seq<Fault>)
    ensures Calm(script) >= 1 <==> Answer(script) == Done
  {
  }

  /** A write succeeds exactly when all its operations do. */
  lemma WritingSucceeds(existed: bool, script: seq<Fault>)
    ensures Writing(existed, script).status == Done <==> Calm(script) >= if existed then 4 else 2
    ensures Writing(existed, script).status == Done ==>
              && Writing(existed, script).effect == Replaced
              && Calm(Writing(existed, script).rest) == Calm(script) - if existed then 4 else 2
  {
    var a := Rest(script);
    var b := Rest(a);
    var c := Rest(b);
    assert Calm(script) >= 1 <==> Answer(script) == Done;
    assert Calm(a) >= 1 <==> Answer(a) == Done;
    assert Calm(b) >= 1 <==> Answer(b) == Done;
    assert Calm(c) >= 1 <==> Answer(c) == Done;
  }

  /** Only an existing file can be lost. */
  lemma OnlyExistingIsLost(existed: bool, script: seq<Fault>)
    ensures Writing(existed, script).effect == Removed ==> existed && Writing(existed, script).status != Done
  {
  }

  /** Four operations that work are enough to put back any content or absence. */
  lemma RestoringSucceeds<F>(existed: bool, content: Option<F>, script: seq<Fault>)
    requires Calm(script) >= 4
    ensures Restoring(existed, content, script).status == Done
    ensures Calm(Restoring(existed, content, script).rest) >= Calm(script) - 4
  {
    WritingSucceeds(existed, script);
  }

  class Disk<F(==)> {
    var files: map<string, F>
    var siblings: map<Sibling, F>
    var sequence: nat
    var script: seq<Fault>

    /** Sequence numbers at or above the counter have never been used. */
    ghost predicate Valid() reads this {
      forall s :: s in siblings ==> s.sequence < sequence
    }

    constructor (files: map<string, F>, script: seq<Fault>)
      ensures Valid() && this.files == files && this.script == script && siblings == map[]
    {
      this.files, this.script := files, script;
      siblings, sequence := map[], 0;
    }

    /** The environment decides what happens to the next elementary operation. */
    method NextFault() returns (fault: Fault)
      modifies this`script
      ensures fault == if old(script) == [] then Crashes else old(script)[0]
      ensures script == Rest(old(script))
    {
      if script == [] {
        return Crashes;
      }
      fault := script[0];
      script := script[1..];
    }

    /** One `fs::rename`, `fs::remove_file` or temporary-file write, reduced to its verdict. */
    method Attempt() returns (status: Status)
      modifies this`script
      ensures status == Answer(old(script)) && script == Rest(old(script))
    {
      var fault := NextFault();
      status := match fault case Works => Done case Fails => Failed case Crashes => Crashed;
    }

    /** Contents that were hidden in siblings stay there, and `name` is in one of them if the disk lost it. */
    twostate predicate NothingLost(name: string) reads this {
      && (forall s :: s in old(siblings) ==> s in siblings && siblings[s] == old(siblings)[s])
      && (Torn(old(files), files, name) ==> Hidden(old(files)[name], old(siblings).Keys))
    }

    /** Some sibling outside `known` holds `content`. */
    ghost predicate Hidden(content: F, known: set<Sibling>) reads this {
      exists s :: s in siblings && s !in known && siblings[s] == content
    }

    /** A fresh sibling of `name` holding `content`; on failure nothing usable is left behind. */
    method Stage(name: string, role: Role, content: F) returns (status: Status, sibling: Sibling)
      requires Valid()
      modifies this`siblings, this`sequence, this`script
      ensures Valid()
      ensures status == Answer(old(script)) && script == Rest(old(script))
      ensures sibling !in old(siblings)
      ensures siblings == if status == Done then old(siblings)[sibling := content] else old(siblings)
    {
      sibling := Sibling(name, role, sequence);
      sequence := sequence + 1;
      status := Attempt();
      if status == Done {
        siblings := siblings[sibling := content];
      }
    }

    /** Renames `sibling` to `name`, which must be free. */
    method Install(sibling: Sibling, name: string) returns (status: Status)
      requires Valid() && sibling in siblings
      modifies this`files, this`siblings, this`script
      ensures Valid()
      ensures status == Answer(old(script)) && script == Rest(old(script))
      ensures status == Done ==>
                files == old(files)[name := old(siblings)[sibling]] && siblings == old(siblings) - {sibling}
      ensures status != Done ==> files == old(files) && siblings == old(siblings)
    {
      status := Attempt();
      if status == Done {
        files, siblings := files[name := siblings[sibling]], siblings - {sibling};
      }
    }

    /** Deletes a sibling. */
    method Discard(sibling: Sibling) returns (status: Status)
      requires Valid()
      modifies this`siblings, this`script
      ensures Valid()
      ensures status == Answer(old(script)) && script == Rest(old(script))
      ensures siblings == if status == Done then old(siblings) - {sibling} else old(siblings)
    {
      status := Attempt();
      if status == Done {
        siblings := siblings - {sibling};
      }
    }

    /**
      Replaces `name` by `content`.  The old file is moved aside before the new
      one is renamed into place, so there is a moment at which `name` is absent;
      even then the old content survives in a sibling.
    */
    method WriteAtomic(name: string, content: F) returns (status: Status)
      requires Valid()
      modifies this
      ensures Valid()
      ensures Replacing(old(files), files, name, content)
      ensures status == Done ==> Installed(old(files), files, name, content) && siblings == old(siblings)
      ensures NothingLost(name)
      ensures var w := Writing(name in old(files), old(script));
              && files == After(old(files), name, content, w.effect)
              && status == w.status && script == w.rest
    {
      var temporary;
      status, temporary := Stage(name, New, content);
      if status != Done {
        return;
      }
      if name !in files {
        status := Install(temporary, name);
      } else {
        status := ReplaceExisting(name, temporary);
      }
      assert status == Done ==> siblings == old(siblings);
    }

    /** The part of `WriteAtomic` that swaps an existing file for its staged replacement. */
    method ReplaceExisting(name: string, temporary: Sibling) returns (status: Status)
      requires Valid() && name in files && temporary in siblings
      modifies this
      ensures Valid()
      ensures Replacing(old(files), files, name, old(siblings)[temporary])
      ensures status == Done ==>
                Installed(old(files), files, name, old(siblings)[temporary]) && siblings == old(siblings) - {temporary}
      ensures forall s :: s in old(siblings) && s != temporary ==> s in siblings && siblings[s] == old(siblings)[s]
      ensures Torn(old(files), files, name) ==> Hidden(old(files)[name], old(siblings).Keys)
      ensures var w := Swapping(old(script));
              && files == After(old(files), name, old(siblings)[temporary], w.effect)
              && status == w.status && script == w.rest
    {
      ghost var content := siblings[temporary];
      ghost var known := siblings.Keys;
      var previous;
      status, previous := Stage(name, Old, files[name]);
      if status != Done {
        return;
      }
      // `fs::rename(path, previous)` moves: the copy staged above and this removal are one step.
      files := files - {name};
      assert Hidden(old(files)[name], known) by { assert previous in siblings; }

      status := Install(temporary, name);
      if status == Done {
        assert Installed(old(files), files, name, content);
        status := Discard(previous);
        assert status == Done ==> siblings == old(siblings) - {temporary};
      } else if status == Failed {
        var restored := Install(previous, name);
        if restored == Crashed {
          return Crashed;
        }
        assert restored == Done ==> files == old(files);
        var discarded := Discard(temporary);
        assert restored != Done ==> previous in siblings;
        status := if discarded == Crashed then Crashed else Failed;
      }
    }

    /** Puts back `original`: replaces the file, or removes it when there was none. */
    method RestoreOriginal(name: string, original: Option<F>) returns (status: Status)
      requires Valid()
      modifies this
      ensures Valid()
      ensures original.Some? ==> Replacing(old(files), files, name, original.value)
      ensures original.None? ==> files == old(files) || files == old(files) - {name}
      ensures status == Done ==> Get(files, name) == original && files - {name} == old(files) - {name}
      ensures NothingLost(name) || original.None?
      ensures var w := Restoring(name in old(files), original, old(script));
              && status == w.status && script == w.rest
              && (original.Some? ==> files == After(old(files), name, original.value, w.effect))
              && (original.None? ==> files == if w.effect == Removed then old(files) - {name} else old(files))
    {
      match original
      case Some(content) =>
        status := WriteAtomic(name, content);
      case None =>
        status := RemoveFile(name);
        assert status == Done ==> files == old(files) - {name};
    }

    /** Removes `name`; a missing file is not an error. */
    method RemoveFile(name: string) returns (status: Status)
      requires Valid()
      modifies this
      ensures Valid()
      ensures siblings == old(siblings)
      ensures status == Answer(old(script)) && script == Rest(old(script))
      ensures files == if status == Done then old(files) - {name} else old(files)
    {
      status := Attempt();
      if status == Done {
        files := files - {name};
      }
    }
  }
}
