/** Concrete runs of the operations in which a property one might expect fails. */
module Witnesses {
  import opened Disks
  import I = Installer
  import opened Records
  import S = Setup
  import opened Transactions
  import opened Wrappers

  const MIRRORLIST := "etc/pacman.d/mirrorlist"

  function NewMirrorlist(original: Option<string>): Option<string> {
    Some("new")
  }

  /** The record of replacing an old mirror list. */
  function MirrorlistRecord(): Record {
    SourceRecord("pacman", MIRRORLIST, Some("old"), "new")
  }

  /** The list has been moved aside and the new one is not in place yet. */
  function TornWorld(): World {
    World(map[], map["pacman" := MirrorlistRecord()])
  }

  lemma MirrorlistIsPacmans()
    ensures ConfigPath("pacman") == Some(MIRRORLIST) && "pacman" != SYSTEM
  {
  }

  /** Saving the record works; the process dies after the first rename of the list. */
  lemma DyingScript()
    ensures Writing(true, [Works, Works, Crashes]) == Write(Removed, Status.Crashed, [])
    ensures Writing(false, [Works, Works]) == Write(Replaced, Done, [])
  {
    assert [Works, Works, Crashes][1..] == [Works, Crashes] && [Works, Crashes][1..] == [Crashes];
    assert [Crashes][1..] == [] && [Works, Works][1..] == [Works] && [Works][1..] == [];
  }

  lemma FourWork()
    ensures Calm([Works, Works, Works, Works]) == 4
  {
    var script := [Works, Works, Works, Works];
    assert script[1..] == [Works, Works, Works] && script[1..][1..] == [Works, Works];
    assert [Works, Works][1..] == [Works] && [Works][1..] == [];
  }

  /** A process that finds `world` on its disks and in which nothing fails for a while. */
  method Restarted(allows: Allowlist, world: World) returns (client: Client)
    ensures fresh(client) && fresh(client.config) && fresh(client.state) && client.Valid()
    ensures client.allows == allows && client.Now() == world && client.CalmFor(1)
  {
    FourWork();
    var config := new Disk<string>(world.files, [Works, Works, Works, Works]);
    var state := new Disk<Record>(world.records, [Works, Works, Works, Works]);
    client := new Client(allows, config, state);
  }

  /** A forced `set` that dies between the two renames. */
  method DyingSet(allows: Allowlist) returns (died: Outcome, torn: World)
    ensures died == Outcome.Crashed && torn == TornWorld()
  {
    hide Writing, Calm, Partway;
    MirrorlistIsPacmans();
    DyingScript();
    var config := new Disk<string>(map[MIRRORLIST := "old"], [Works, Works, Crashes]);
    var state := new Disk<Record>(map[], [Works, Works]);
    var client := new Client(allows, config, state);
    died := client.Set("pacman", NewMirrorlist, true);
    torn := World(config.files, state.files);
  }

  /**
    After that crash the next process refuses an unforced reset and changes nothing; a forced one
    brings the old list back.
  */
  method CrashBetweenRenames(allows: Allowlist)
    returns (died: Outcome, torn: World, unforced: Outcome, kept: World, forced: Outcome, restored: World)
    ensures died == Outcome.Crashed && torn == TornWorld()
    ensures unforced == Refused && kept == torn
    ensures forced == Completed && restored == World(map[MIRRORLIST := "old"], map[])
  {
    hide Calm, Partway;
    MirrorlistIsPacmans();
    died, torn := DyingSet(allows);

    var second := Restarted(allows, torn);
    unforced := second.Reset("pacman", false);
    kept := World(second.config.files, second.state.files);

    var third := Restarted(allows, torn);
    forced := third.Reset("pacman", true);
    restored := World(third.config.files, third.state.files);
    RestoredList();
  }

  lemma RestoredList()
    ensures PutAll(map[], Undo(MirrorlistRecord())) == map[MIRRORLIST := "old"]
  {
    var steps := Undo(MirrorlistRecord());
    assert steps[..0] == [] && |steps| == 1;
    assert PutAll(map[], steps) == Put(PutAll(map[], steps[..0]), steps[0]);
  }

  /** Both renames of the second step fail: the new file does not get in, and the old one does not get back. */
  lemma LosingScript()
    ensures Writing(true, [Works, Works, Fails, Fails, Works]) == Write(Removed, Status.Failed, [])
  {
    var script := [Works, Works, Fails, Fails, Works];
    assert script[1..] == [Works, Fails, Fails, Works] && script[1..][1..] == [Fails, Fails, Works];
    assert [Fails, Fails, Works][1..] == [Fails, Works] && [Fails, Works][1..] == [Works] && [Works][1..] == [];
  }

  /** A setup nobody interferes with fails and leaves a configuration file missing that it had found. */
  method FailedSetupLosesFile(locations: S.Locations) returns (outcome: I.ApplyOutcome, found: Option<string>)
    ensures outcome == I.SetupFailed(I.Unidentified) && found == None
  {
    hide Writing, Calm;
    DyingScript();
    LosingScript();
    var path := locations.Path(S.Cursor, S.Mcp);
    var change := S.Change(S.Cursor, S.Mcp, Some("mine"), "installed");
    var config := new Disk<string>(map[path := "mine"], [Works, Works, Fails, Fails, Works]);
    var manifests := new Disk<S.Record>(map[], [Works, Works]);
    var session := new I.Session(locations, true, config, manifests);
    assert S.PathOf(session.locate, change) == path;
    outcome := session.Apply("id", [change]);
    found := Get(config.files, path);
  }
}
