# MirrorProxy, verified

MirrorProxy is a self-hosted mirror gateway with a client that edits package
manager configuration. This project models the parts of both that are hardest to
get right, and proves what they promise for all inputs, all runs and all points
of failure. `dafny verify dfyconfig.toml` checks everything; Dafny 4.11 needs no
other input.

## What is modelled

**Crash-recoverable configuration changes** (`disk.dfy`, `records.dfy`,
`transactions.dfy`, `histories.dfy`, `refusals.dfy`, `witnesses.dfy`). A disk is a
map from names to contents and every elementary operation asks a script whether it
works, fails without effect, or is where the process dies; the contracts say what
each script leads to. On top of it stand `write_atomic` with its gap between two
renames, and the client's set, migrate and reset operations as methods of a class.
Runs are arbitrary sequences of these, with edits by others where a theorem allows
them. Configuration files and rollback records are kept on two disks because no
configuration path lies in the record directory.

**Agent setup** (`setup.dfy`, `installer.dfy`). Planning, installing and rolling
back files that users may replace between any two steps. All changes of files form
one trace, so the contracts can speak about each write of the program.

**Controlled downloads** (`runtime.dfy`, `blocking.dfy`, `redirects.dfy`,
`streaming.dfy`, `delivery.dfy`, `pacing.dfy`). The permit table is a class; the
protocols around it are state machines whose steps are the points at which
activities can interleave: redirect loops against administrators, the streaming
worker against its consumer and against policy changes, and callers of the pacing
clock against time. Beside safety stands what must remain possible: downloads that
nothing forbids come through.

**Format-preserving rewriters** (`text.dfy`, `aptrewrite.dfy`, `aptlaws.dfy`,
`aptformat.dfy`, `aptagain.dfy`, `rpm.dfy`, `rpmlaws.dfy`, `rpmformat.dfy`,
`mapuri.dfy`, `mapformat.dfy`, `settled.dfy`, `settledrpm.dfy`). One-line APT,
DEB822 and RPM files over arbitrary text, parametric in the URI mapper, and the
longest-root mapper itself. The specifications cut lines into pieces or classify
them one by one; the source's loops are methods proved against them. The `format`
files then say what the rewriters do in terms of the text alone. `settled.dfy` and
`settledrpm.dfy` close the circle: the mappers that the stanzas of a migration can
select, and the profile of an RPM migration, meet the conditions of the
second-pass theorems. What they assume is that the gateway is not itself a
declared mirror, that the base URL, the names in the tables and the paths of
parsed HTTP URLs are free of white space, and for RPM the same of the paths in the
discovery tables.

**Indexes and addresses** (`xdb.dfy`, `xdbtable.dfy`, `networks.dfy`,
`ranges.dfy`, `upstream.dfy`). Binary search over an untrusted XDB image and what
it finds in a table laid out in one; two CIDR implementations (section 3.1 of RFC
4632) defined bit by bit; the access policy; two public-address filters; the
choice and expansion of an upstream group.

**Certificate challenges** (`acme.dfy`). Provisioning and reverse cleanup of DNS
values and HTTP tokens (sections 8.4 and 8.3 of RFC 8555), for every position of a
failure.

Some properties one might expect do not hold. For each of them the project gives
an input on which the code fails and the exact condition under which it does not:

- An unforced reset after a crash can be refused. Without outside edits this
  happens exactly when a file of the record was left between the two renames of
  its replacement (`UnforcedResetRefusesOnlyTorn`, `RefusalNeedsATornFile`,
  `CrashBetweenRenames`).
- A failed setup need not leave every file at its former content. Without outside
  edits the automatic rollback is declined, with a file missing, if and only if
  the write that failed lost its file, which takes two failing renames; otherwise
  a rollback in which nothing else fails brings everything back (`Apply`,
  `FailedSetupLosesFile`). The rollback command, which cannot be forced, refuses
  afterwards exactly when a file that the setup had found is missing, and brings
  everything back otherwise (`SetupThenRollback`).
- A rewritten RPM section need not gain an active base URL. It does if a base line
  was replaced or some discovery line is terminated; a file whose only discovery
  line ends it without a newline gets the new base URL appended to the commented
  line (`BaseUrlIsGained`, `BaseUrlIsLost`, `LostExample`).
- A second pass over an RPM file need not be the identity. It is exactly when no
  section has a further active base URL that is recognised or refused
  (`SecondPassOfFile`, `SecondPassExample`), and that holds of the profile the
  system builds (`SecondRpmMigration`).
- The upstream group with the longest base need not be chosen, because a primary
  path counts with the slashes it is written with at its end. It is chosen for
  every request exactly when every base, in one of its spellings, is preferred to
  the groups with a base above it, for which it is enough that no path has two
  more such slashes than a longer base (`LongestBaseAlwaysWins`,
  `EvenSlashesAreWellOrdered`, `SpareSlashesWin`).

Where the documentation speaks of "longest-prefix" matching in `map_uri`, the code
tries regional Ubuntu archives first, whatever else matches; the model follows the
code (`RegionalArchivesComeFirst`).

## Model

| member | source | states |
|---|---|---|
| Disks.Disk.WriteAtomic | crates/client/src/main.rs:1199-1266 | for every script of faults exactly the tabled effect and status; the disk is unchanged, has the new content, or lacks a file that existed; success means installed with no sibling left; a missing file's content survives in a sibling |
| Disks.Disk.ReplaceExisting | crates/client/src/main.rs:1241-1265 | the swap of an existing file, exactly as the script decides: moved aside, renamed in, and moved back when the second rename fails |
| Disks.Disk.RestoreOriginal | crates/client/src/main.rs:1186-1197 | success puts back exactly the original content or absence and touches no other file; the script decides which |
| Disks.WritingSucceeds | crates/client/src/main.rs:1199-1266 | a write succeeds exactly when all its operations work, four for an existing file and two for a new one |
| Disks.RestoringSucceeds | crates/client/src/main.rs:1186-1197 | four operations that work put back any content or absence |
| Disks.OnlyExistingIsLost | crates/client/src/main.rs:1241-1265 | only a file that existed can be lost, and only by a write that reports a failure |
| Records.PartwayAt | crates/client/src/apt.rs:430-448 | partway through a list of writes every file is as before, as intended, or moved aside, and files outside the list are untouched |
| Records.PutAllAt | crates/client/src/apt.rs:437-445 | carrying out distinct steps leaves each file with the content of its own step |
| Records.PutAllFrame | crates/client/src/apt.rs:437-445 | and every other file as it was |
| Transactions.Client.Validate | crates/client/src/apt.rs:450-488 | accepts exactly well-formed plans with allowed, distinct paths whose files hold a recognised content, the last waived by a forced restore |
| Transactions.Client.PlanSystem | crates/client/src/apt.rs:368-410 | the manifest holds, in order, the original of every file that would change, and there is no plan when none would |
| Transactions.Client.ApplyPlan | crates/client/src/apt.rs:430-448 | refuses changing nothing, or saves the manifest first and then writes; wherever it stops, the manifest is there before the first file changes; where nothing fails it completes |
| Transactions.Client.Migrate | crates/client/src/system.rs:214-225 | demands that no record exists at all, then behaves as ApplyPlan |
| Transactions.Client.Set | crates/client/src/main.rs:720-815 | refuses changing nothing, or saves the original first and then writes the one configuration file, exactly as far as the two scripts let it; where nothing fails it completes |
| Transactions.Client.Reset | crates/client/src/main.rs:845-896 | dispatches on the record; refused changing nothing, or everything is put back before the record goes; accepted where nothing fails it completes |
| Transactions.Client.PutBack | crates/client/src/apt.rs:545-556 | the restoration loop stops partway or restores everything, and the latter where nothing fails |
| Transactions.Client.ResetPlan | crates/client/src/apt.rs:514-562 | restores every planned file and removes the manifest last; interrupted, it keeps the manifest; where nothing fails it completes |
| Transactions.Client.ResetSource | crates/client/src/main.rs:845-896 | accepts the original, the expected content, or force; restores the file and removes the record last; where nothing fails it completes |
| Histories.OwnersDisjoint | crates/client/src/main.rs:919-945 | two records that can exist together never claim the same file |
| Histories.BegunKeeps | crates/client/src/main.rs:720-752 | an accepted set or migration, stopped anywhere, saves the initial contents and disturbs no other record |
| Histories.UndoneKeeps | crates/client/src/main.rs:845-896 | so does a reset stopped anywhere; a completed one leaves its files initial |
| Histories.StepKeeps | crates/client/src/main.rs:720-896 | every operation, refused, failed, dead or completed, keeps the invariant tying records to the initial configuration |
| Histories.EveryRunIsReversible | crates/client/src/main.rs:720-896 | over every run without outside edits a system record is alone, and when no record is left all files have their initial content |
| Histories.RecordsAreImmutable | crates/client/src/main.rs:754-815 | no operation changes an existing record; only its own completed reset removes it |
| Histories.RecordSurvives | crates/client/src/main.rs:754-815 | over whole runs with outside edits the saved original is never overwritten |
| Histories.RecordsAreWrittenWell | crates/client/src/main.rs:754-815 | a record is written only where it belongs and with the contents its files have at that moment |
| Histories.RecordsFit | crates/client/src/main.rs:720-896 | so every record of every run, outside edits included, belongs where it is |
| Histories.CompletedResetRestores | crates/client/src/apt.rs:514-562 | a completed reset restores every file of its record and nothing else, whatever the files held |
| Histories.RecoveryRestoresOriginals | crates/client/src/apt.rs:430-562 | after a crash anywhere, any further operations, edits and interrupted resets: a forced reset is accepted; a reset that is not refused completes where nothing fails; a completed one restores the content or absence before the crashed operation and nothing else; a refused one changes nothing |
| Histories.ForcedResetIsAccepted | crates/client/src/apt.rs:538-543 | a forced reset of a record that belongs where it is is never refused |
| Histories.UnforcedResetRefusesOnlyTorn | crates/client/src/apt.rs:450-488 | without outside edits an unforced reset is refused if and only if a file that existed is missing |
| Histories.RefusalNeedsATornFile | crates/client/src/main.rs:1199-1266 | and then some earlier operation of the run stopped between the two renames of a replacement |
| Refusals.PlanResetRefusedExactly | crates/client/src/apt.rs:450-562 | for any files whatever: an unforced reset of a plan is refused, changing nothing, if and only if some planned file holds neither its original nor what the plan wrote; otherwise it completes where nothing fails, with every original or absence back |
| Refusals.SourceResetRefusedExactly | crates/client/src/main.rs:845-896 | the same for the record of one replaced file |
| Refusals.ResetRefusedExactly | crates/client/src/main.rs:845-896 | so in every run with edits an unforced reset is refused if and only if a file of its record was edited |
| Refusals.PlanRefusedExactly | crates/client/src/apt.rs:430-488 | a replacement of several files is refused, changing nothing, if and only if a record of its target exists, the manifest is not of this version and kind, a path is not allowed or repeated, or a file does not hold its original |
| Refusals.AptPathsAre | crates/client/src/apt.rs:52-67 | an APT plan may name the main list, and list and source files directly in the directory beside it |
| Refusals.SetRefusedExactly | crates/client/src/main.rs:720-815 | a replacement of one file is refused if and only if the target has none, its record or a migration's exists, the file has text that is not Docker's and not forced, or nothing can be built |
| Refusals.SetWritesItsFile | crates/client/src/main.rs:919-945 | a completed one writes exactly the target's file and saves what it held |
| Witnesses.CrashBetweenRenames | crates/client/src/main.rs:1241-1265 | a scripted run: a set dies between the renames, the unforced reset is refused, the forced one brings the file back |
| Histories.UntornRunIsIntact | crates/client/src/main.rs:1199-1266 | a run in which no operation stopped there leaves every recorded file recognisable |
| Histories.PlannedMembers | crates/client/src/apt.rs:368-410 | the manifest contains exactly the proposals that change something, with what they replace |
| Histories.FreshPlanIsAccepted | crates/client/src/apt.rs:368-410 | a plan made from the disk validates on that disk |
| Histories.PlanCarriesOutProposals | crates/client/src/apt.rs:430-448 | carrying it out gives every proposal its content and changes no other file |
| Setup.Plan | crates/client/src/setup.rs:504-549 | the nested loops give the fold of one visit per target, failing as soon as one target fails |
| Setup.PlanAgent | crates/client/src/setup.rs:513-546 | the same for the kinds of one agent |
| Setup.PlanIsSound | crates/client/src/setup.rs:504-549 | a plan names every file once, with the content it has now, changes it for real, and claims the path of every chosen target |
| Setup.SkillPathsAre | crates/client/src/setup.rs:225-243 | where the Skill of every agent goes in either scope |
| Setup.McpPathsAre | crates/client/src/setup.rs:244-260 | where its MCP configuration and its bundle go |
| Setup.PathIsNotInjective | crates/client/src/setup.rs:225-260 | several agents share one Skill file |
| Installer.Session.Overwrite | crates/client/src/setup.rs:551-567 | one event: the program only ever replaces the recorded before or the installed text, and only in the file concerned |
| Installer.Session.Restore | crates/client/src/setup.rs:551-567 | under edits between any two steps all its writes are of that kind; without edits it stops partway through the restoration or completes it, and the latter where nothing fails |
| Installer.Session.Apply | crates/client/src/setup.rs:569-623 | the same for installing; without edits the outcome follows from the scripts: everything is installed, or a failed write is rolled back, and the rollback is declined, with a file missing, if and only if that write lost its file |
| Installer.Session.InstallAll | crates/client/src/setup.rs:598-622 | the installation loop with its automatic rollback, with that exact condition |
| Installer.Session.InstallOne | crates/client/src/setup.rs:598-606 | one file: it is written only when it holds the recorded before, and otherwise left alone and reported; then the script decides the effect |
| Installer.CalmInstalls | crates/client/src/setup.rs:598-622 | where nothing fails everything is installed |
| Installer.Session.Recover | crates/client/src/setup.rs:607-620 | the rollback of the attempted part: declined if and only if an attempted file holds neither text, which is if and only if the failed write lost its file; complete where nothing fails |
| Installer.Session.CheckTargets | crates/client/src/setup.rs:633-646 | reports a duplicate only if there is one, and without edits a change only if some file holds neither the recorded before nor the installed text, and nothing only if none does |
| Installer.Session.Rollback | crates/client/src/setup.rs:625-652 | writes nothing unless all files were checked; without edits it is refused if and only if some file holds neither the recorded before nor the installed text; then restores, every write replacing one of the two; where nothing fails it restores everything |
| Installer.SetupThenRollback | crates/client/src/setup.rs:569-652 | a setup whose manifest was saved, ended in any way, and a later rollback, without edits and for all scripts: the rollback is refused, changing nothing, if and only if a file the setup had found is missing; otherwise it restores the initial files where nothing fails |
| Installer.StaysAccounted | crates/client/src/setup.rs:598-620 | however an installation and the rollback of its attempted part stop, each planned file is identified or, having existed, missing |
| Installer.RestoringUndoes | crates/client/src/setup.rs:551-567 | restoring gives the initial files whatever the planned ones hold |
| Installer.AttemptedIdentified | crates/client/src/setup.rs:607-618 | after a failed write the attempted files are identified exactly unless that write lost its file |
| Installer.PlannedRecordHasNoDuplicates | crates/client/src/setup.rs:625-646 | the duplicate-target check never fires on a planned record at the same locations |
| Witnesses.FailedSetupLosesFile | crates/client/src/setup.rs:598-620 | a scripted setup without edits that fails and leaves a file missing which it had found |
| Runtimes.Runtime.Acquire | crates/server/src/download.rs:85-113 | admits exactly below both limits and then adds one entry |
| Runtimes.Runtime.Host | crates/server/src/download.rs:114-118 | appends a host to a live entry |
| Runtimes.Runtime.SignalAll | crates/server/src/download.rs:119-140 | the loop of the cancellations signals exactly the entries that are hit, once |
| Runtimes.Runtime.CancelDomain | crates/server/src/download.rs:119-128 | signals exactly the entries with a matching host |
| Runtimes.Runtime.CancelUser | crates/server/src/download.rs:129-135 | signals exactly the entries of a user |
| Runtimes.Runtime.CancelAll | crates/server/src/download.rs:136-140 | signals every entry |
| Runtimes.Runtime.Release | crates/server/src/download.rs:79-83 | dropping a permit removes its entry |
| Runtimes.AdmissionKeepsLimits | crates/server/src/download.rs:85-113 | admission keeps the total and every user within the limits |
| Runtimes.OthersKeepLimits | crates/server/src/download.rs:114-140 | so does every other change of the table |
| Runtimes.SignalsKeepLimits | crates/server/src/download.rs:119-140 | cancellations keep them too |
| Runtimes.ReleaseFreesAPlace | crates/server/src/download.rs:79-83 | a dropped permit frees a place for its user |
| Blocking.QueryAgreesWithMemory | crates/server/src/database/download.rs:161-163 | the block list query and the in-memory test agree on every rule and host |
| Blocking.RunInv | crates/server/src/download.rs:320-381 | in every interleaving, scanned rules in force are enforced on every registered host |
| Blocking.BlockReachesEveryDownload | crates/server/src/download.rs:836-870 | once the scan ends, a live download with a matching host has its signal raised or its own refusing check ahead; a streaming one has it raised |
| Blocking.SettledUntilReplaced | crates/server/src/database/download.rs:172-198 | a rule is settled by its scan and until it is replaced or lifted |
| Blocking.SignalIsSticky | crates/server/src/download.rs:458-461 | a raised signal is lost in no step, the passage to streaming included |
| Blocking.SignalIsObservable | crates/server/src/download.rs:625-629 | and can end the download at any moment except between its two selects, and until it leaves |
| Redirects.BlockedIs | crates/server/src/database/download.rs:161-163 | the block list refuses exactly the stored domains and, where a rule includes them, the names that end in a dot and the domain |
| Redirects.LeavingIsDropped | crates/server/src/download.rs:79-83 | a download gives its place back once it is leaving, and only then |
| Redirects.CheckDecides | crates/server/src/download.rs:331-340 | a check ends in the request if and only if no stored rule concerns the host |
| Redirects.CancelledDomainSignals | crates/server/src/download.rs:119-128 | cancelling a domain signals exactly the downloads with a host it concerns, once |
| Redirects.CancelledUserSignals | crates/server/src/download.rs:129-140 | cancelling a user, or everybody, signals exactly their downloads, once |
| Redirects.SignalsHaveCauses | crates/server/src/download.rs:119-140 | nobody else is ever signalled |
| Redirects.AtMostSixHosts | crates/server/src/download.rs:328-380 | in every run no download asks more than six hosts |
| Redirects.RedirectDecides | crates/server/src/download.rs:362-380 | a redirect leads to the next host, and from the sixth one to the end |
| Redirects.UnconcernedDownloadStreams | crates/server/src/download.rs:320-381 | with a free place, a new download with up to six hosts that no rule concerns can get to streaming from the last |
| Streaming.RunInv | crates/server/src/download.rs:557-656 | the invariant of worker, channel, consumer and accounts holds in every state of every run |
| Streaming.ClientSeesTheTruth | crates/server/src/download.rs:638-655 | the client receives a prefix; a clean end means the whole body; a failed stream ends after exactly one error |
| Streaming.FailureIsReported | crates/server/src/download.rs:625-655 | once the worker fails, no run ends cleanly |
| Streaming.Accounting | crates/server/src/download.rs:559-624 | queued, charged, received, recorded and maximal bytes stay within the stated bounds at every step |
| Streaming.PotentialFalls | crates/server/src/download.rs:575-621 | while a revocation lasts, charges plus excused parts never grow |
| Streaming.AtMostOneMorePart | crates/server/src/download.rs:575-621 | after a revocation at most one more part is charged, and none unless the part in hand had passed the check |
| Streaming.PartsAreFull | crates/server/src/download.rs:575 | a chunk is cut into as few parts of at most 65536 bytes as possible, all but the last full |
| Delivery.FailuresHaveCauses | crates/server/src/download.rs:562-635 | a body within the limit is never reported as failed unless the work fails for a cause outside the model: in every such run, policy changes included, no flag is set and an end is clean, with the whole body |
| Delivery.WorkerFailsFor | crates/server/src/download.rs:564-633 | the worker stops working only by such a failure, at a chunk beyond the limit, or with success at the end of the upstream |
| Delivery.SomeStepIsEnabled | crates/server/src/download.rs:564-656 | an allowed download under way is never stuck |
| Delivery.StepsComeCloser | crates/server/src/download.rs:564-656 | each step of worker, channel and consumer ends it cleanly with the whole body or brings the end closer, so it cannot go on for ever |
| Delivery.ReachedIsUnderway | crates/server/src/download.rs:564-656 | every reachable state in which the policy allows the download, the client listens and nothing has failed is such a state |
| Delivery.CanFinish | crates/server/src/download.rs:564-656 | from every state of an allowed download its clean end can be reached |
| Delivery.EveryBodyCanBeDownloaded | crates/server/src/download.rs:564-656 | every body within the limit, however cut into chunks, has a run under an allowing policy that delivers it and ends cleanly |
| Pacing.BandwidthIsBounded | crates/server/src/download.rs:150-158 | between any two completions at a fixed rate no more bytes pass than the rate allows |
| Pacing.DroppedCallerLeavesNoTrace | crates/server/src/download.rs:150-158 | a caller cancelled while asleep leaves clock and log as they were |
| Pacing.SleeperPasses | crates/server/src/download.rs:150-158 | a sleeper can pass exactly at its time |
| Pacing.FirstCallerPasses | crates/server/src/download.rs:150-158 | the first caller does not sleep |
| Pacing.SleepsExactly | crates/server/src/download.rs:150-156 | a caller sleeps exactly until the share of the call before it ends, and not at all when it has ended |
| Pacing.WakesOnTime | crates/server/src/download.rs:155-158 | it passes as soon as that time has come |
| Xdb.FromBytes | crates/server/src/geoip.rs:261-289 | accepts exactly the images that are long enough and have the bytes of a known header, and reads them with the family named there |
| Xdb.Lookup | crates/server/src/geoip.rs:291-332 | terminates inside the image for arbitrary bytes; any region comes from a bracketing record; on sorted records it is the linear scan |
| Xdb.Search | crates/server/src/geoip.rs:305-330 | the binary search loop against the same specification |
| Xdb.LexIsNumeric | crates/server/src/geoip.rs:311-319 | byte order of equally long addresses is numeric order |
| Xdb.ReversedIsLittleEndian | crates/server/src/geoip.rs:344-349 | the reversed IPv4 index encoding is the little-endian number |
| Xdb.IndexEntriesAreReadable | crates/server/src/geoip.rs:291-302 | the index entry of every address is inside every accepted image |
| Xdb.OffsetsAreExact | crates/server/src/geoip.rs:308-310 | saturating offset arithmetic never saturates on a real image |
| XdbTables.AcceptedExactly | crates/server/src/geoip.rs:261-289 | images are accepted if and only if they have 524544 bytes or more and the header bytes of a known structure, policy, family and offset width |
| XdbTables.IndexIs | crates/server/src/geoip.rs:297-299 | the index words of an address are the little-endian ones at 256 and 260 plus eight times its first two bytes |
| XdbTables.RecordIs | crates/server/src/geoip.rs:308-328 | a record read by the code has the start, end and text that the byte layout of the family gives it |
| XdbTables.LookupAnswers | crates/server/src/geoip.rs:291-332 | in an image that holds a sorted table of ranges, byte by byte, a lookup returns the text of the range that contains the address, and nothing if there is none |
| Networks.ContainsIsInterval | crates/server/src/geoip.rs:400-454 | membership is the aligned interval of size 2^(width - prefix) around the address |
| Networks.ImplementationsAgree | crates/server/src/config.rs:1476-1498 | both implementations contain the same addresses, those with equal leading bits |
| Networks.EqualBlocksHaveEqualAddresses | crates/server/src/geoip.rs:400-428 | parsed blocks are equal if and only if they contain the same addresses |
| Networks.BlockWithin | crates/server/src/geoip.rs:400-428 | a block inside another starts no earlier and is no larger |
| Networks.Compile | crates/server/src/geoip.rs:371-387 | succeeds exactly when every enabled rule is usable, and then holds exactly the enabled networks of each action |
| Networks.DecisionFromRules | crates/server/src/geoip.rs:371-397 | a deny rule always wins; otherwise allow rules make an allowlist |
| Networks.DecisionIgnoresOrder | crates/server/src/geoip.rs:371-397 | reordering the rules changes no decision |
| Networks.DownloadFilterIsStricter | crates/server/src/download.rs:249-289 | every address the download filter admits is public for the GeoIP filter |
| AddressRanges.DownloadFilter4 | crates/server/src/download.rs:249-273 | the download filter admits exactly the IPv4 addresses outside thirteen ranges |
| AddressRanges.DownloadFilter6 | crates/server/src/download.rs:274-288 | and exactly the IPv6 addresses of 2000::/3 outside four ranges |
| AddressRanges.GeoFilter4 | crates/server/src/geoip.rs:456-467 | the GeoIP filter admits exactly the IPv4 addresses outside eleven ranges |
| AddressRanges.GeoFilter6 | crates/server/src/geoip.rs:468-475 | and exactly the IPv6 addresses that are not unspecified, loopback, unique local, link local or multicast |
| Upstreams.UpstreamCandidates | crates/server/src/config.rs:1258-1298 | never empty; the request itself when no group matches; otherwise the expansion of the earliest group of greatest primary-path length that matches |
| Upstreams.ExpansionKeepsTheRequest | crates/server/src/config.rs:1271-1280 | the first candidate has server, path and query of the request; each candidate is its own base plus the same suffix, in order |
| Upstreams.SuffixIs | crates/server/src/config.rs:1422-1435 | a group matches exactly the requests on its server whose path is its base, without the slashes at its end, and nothing more or a slash |
| Upstreams.EqualBases | crates/server/src/config.rs:1422-1435 | matching groups with bases of equal length have the same base |
| Upstreams.LongestBaseAlwaysWins | crates/server/src/config.rs:1258-1298 | the chosen group has the longest matching base for every request if and only if every base, in one of its spellings, is preferred to the groups with a base above it |
| Upstreams.LongestBaseUnlessSpareSlashes | crates/server/src/config.rs:1281-1287 | a rival with a longer base loses only to a path written with two or more further slashes |
| Upstreams.EvenSlashesAreWellOrdered | crates/server/src/config.rs:1281-1287 | so groups are well ordered when no path has two more slashes at its end than a longer base |
| Upstreams.LongerBaseIsTwoLonger | crates/server/src/config.rs:1422-1435 | of two matching bases the longer goes at least one segment further |
| Upstreams.SpareSlashesWin | crates/server/src/config.rs:1281-1287 | a concrete configuration in which spare slashes beat a longer base |
| AptRewriter.RewriteTokens | crates/client/src/apt.rs:187-218 | the scanning loop renders the token pieces, or fails when the mapper refuses one |
| AptRewriter.RewriteLine | crates/client/src/apt.rs:223-247 | the same for a one-line entry with its option block |
| AptRewriter.RewriteField | crates/client/src/apt.rs:275-297 | one line of an enabled stanza, and whether a URIs field is open after it |
| AptRewriter.RewriteParagraph | crates/client/src/apt.rs:265-300 | a stanza as its lines prescribe; a disabled one is kept |
| AptRewriter.Rewrite | crates/client/src/apt.rs:220-263 | a whole file in either format equals the line-by-line specification |
| AptRewriter.RewriteApt | crates/client/src/system.rs:424-484 | every stanza or line is rewritten under the mapper its own text selects |
| AptRewriter.StanzaIsRewrittenAlone | crates/client/src/apt.rs:250-263 | a stanza inside a file is rewritten exactly as it would be alone |
| AptRewriter.LinesAreLocal | crates/client/src/apt.rs:265-300 | what becomes of a line depends on nothing outside its stanza |
| AptLaws.PiecesKeepText | crates/client/src/apt.rs:187-300 | the pieces of any line, put together, are the line |
| AptLaws.Lossless | crates/client/src/apt.rs:220-300 | with a mapper that recognises nothing exactly the accepted files are returned, unchanged |
| AptLaws.OpenMeansUnderUris | crates/client/src/apt.rs:274-297 | the loop's flag says that the last field, reached over comments and continuations, is a URIs field |
| AptLaws.UrisOfLine | crates/client/src/apt.rs:187-300 | only tokens outside comments are handed to the mapper, and only on lines that may change |
| AptLaws.LinesAreRendered | crates/client/src/apt.rs:220-300 | the same for any choice of a mapper per line |
| AptLaws.OnlyUrisChange | crates/client/src/apt.rs:220-300 | the whole-file rewriter succeeds exactly when every line is accepted and no URI refused; its output is the lines rendered one by one, and lines that may not change are kept |
| AptLaws.OneContextIsWholeFile | crates/client/src/system.rs:424-484 | stanza-wise equals whole-file rewriting when all stanzas select the same mapper |
| AptLaws.ContextsDoNotLeak | crates/client/src/system.rs:469-484 | the contribution of a stanza is a function of its own text |
| Text.WhitespaceIs | crates/client/src/apt.rs:191-195 | white space is the Unicode property, by code points |
| AptFormat.SpellsIs | crates/client/src/apt.rs:266-269 | letter case is ignored for exactly the ASCII letters |
| AptFormat.TokensAreMapped | crates/client/src/apt.rs:187-218 | of a text cut into white space, tokens and a final comment every token is mapped, or the text refused, and all else kept |
| AptFormat.EveryTextIsSpaced | crates/client/src/apt.rs:187-218 | and every text can be cut so |
| AptFormat.DisablingIs | crates/client/src/apt.rs:265-272 | a line disables its stanza if and only if it is `Enabled`, a colon and `no`, in any case, with white space around the value |
| AptFormat.DisabledStanzaIsKept | crates/client/src/apt.rs:265-272 | a stanza with such a line comes back unchanged |
| AptFormat.UrisFieldIsMapped | crates/client/src/apt.rs:286-291 | in any other stanza every token of a `URIs` line is mapped |
| AptFormat.ContinuationIsMapped | crates/client/src/apt.rs:280-285 | so is every token of a line that continues it, and other continuations are kept |
| AptFormat.OtherFieldIsKept | crates/client/src/apt.rs:286-294 | other fields are kept |
| AptFormat.MalformedIsRefused | crates/client/src/apt.rs:295-297 | a field line without a colon is refused |
| AptFormat.CommentIsKept | crates/client/src/apt.rs:276-279 | comments are kept |
| AptFormat.EntryUriIsMapped | crates/client/src/apt.rs:223-242 | in a one-line file the word after `deb` or `deb-src` and a space or tab is mapped, and all else kept |
| AptFormat.EntryWithOptionsIsMapped | crates/client/src/apt.rs:230-242 | after options in brackets, the word after the first closing bracket is |
| AptFormat.OpenOptionsAreRefused | crates/client/src/apt.rs:233-239 | options that are not closed are refused |
| AptFormat.OtherLineIsKept | crates/client/src/apt.rs:243-245 | every other line is kept |
| AptIdempotence.Reparse | crates/client/src/apt.rs:187-218 | parsing rewritten tokens gives back the pieces with their URIs substituted |
| AptIdempotence.ReparseField | crates/client/src/apt.rs:275-297 | a rewritten line keeps its kind and its pieces |
| AptIdempotence.ReparseOneLine | crates/client/src/apt.rs:223-247 | a rewritten entry keeps its type, options and pieces |
| AptIdempotence.SecondPassIsIdentity | crates/client/src/apt.rs:220-300 | rewriting is idempotent when mapper outputs are URI tokens the mapper leaves alone |
| AptIdempotence.SecondPassKeepsLines | crates/client/src/apt.rs:187-300 | a second pass is the identity when its mappers leave alone what the first pass produced and what it left alone |
| AptIdempotence.SecondPassByPartIsIdentity | crates/client/src/system.rs:424-484 | in particular stanza by stanza, whatever mapper each stanza and its rewriting select from such a family |
| SystemMapper.KeepingIgnoresArchives | crates/client/src/system.rs:588-599 | whether an address is left alone does not depend on the archives selected |
| SystemMapper.SystemMappersAreSettled | crates/client/src/system.rs:521-618 | the mappers that the stanzas of a migration can select form such a family unless the gateway is itself a declared mirror |
| SystemMapper.SecondMigrationIsIdentity | crates/client/src/system.rs:424-484 | so migrating a migrated file changes nothing, however the suites of its stanzas select the archives |
| SystemRpm.MappingIsFinal | crates/client/src/system.rs:521-618 | a result of the mapper for a text on one line fits on one line, and trimmed it is left alone by the mapper |
| SystemRpm.SystemProfilesAreSettled | crates/client/src/system.rs:940-1080 | the mapper and the discovery tables of an RPM migration meet the condition of the second-pass theorem unless the gateway is itself a declared mirror |
| SystemRpm.SystemSectionHasNoDiscovery | crates/client/src/system.rs:1081-1097 | so no active metalink or mirrorlist remains in a section it rewrites |
| SystemRpm.SecondRpmMigration | crates/client/src/system.rs:810-822 | and rewriting the rewritten file changes nothing if and only if no section has a further active base URL that is recognised or refused |
| UriMapper.MapUri | crates/client/src/system.rs:521-618 | the candidate loops compute the mapping defined over all declared roots |
| UriMapper.CandidatesAre | crates/client/src/system.rs:542-571 | candidates are exactly the matches of declared origins and mirror layouts |
| UriMapper.LastLongest | crates/client/src/system.rs:584-587 | the chosen candidate is a longest one and the last of those |
| UriMapper.EqualLengthsMeanEqualRoots | crates/client/src/system.rs:542-571 | matching roots of equal length are identical |
| UriMapper.UnknownAddressesAreKept | crates/client/src/system.rs:584-587 | an address is left alone if and only if no root serves it |
| UriMapper.LongestRootDecides | crates/client/src/system.rs:542-618 | a longest boundary-respecting root decides; the result is base, repository and exactly the rest of the address, or the URI is refused |
| UriMapper.RegionalArchivesComeFirst | crates/client/src/system.rs:572-587 | regional Ubuntu archives win over every root |
| UriMapper.UnsafePathsAre | crates/client/src/system.rs:608-613 | refused paths are those with a dot segment between slashes, or an encoded dot anywhere |
| UriMapper.ResultsAreCleanPaths | crates/client/src/system.rs:600-618 | every result, regional archives included, continues with a slash and has neither |
| MapFormat.KeptExactly | crates/client/src/system.rs:521-587 | a URI is left alone if and only if it is no web URL with an address below a declared origin or mirror path, up to a path boundary, and no regional Ubuntu archive |
| MapFormat.ServedExactly | crates/client/src/system.rs:572-618 | any other is refused if and only if the URL has a user, password, port, query, fragment, dot segment or encoded dot, and otherwise becomes the gateway's path of the repository that decides, archives substituted, with exactly the rest of the path |
| RpmRewriter.ChooseBase | crates/client/src/system.rs:945-967 | the selection loop computes the choice below |
| RpmRewriter.Resolve | crates/client/src/system.rs:968-1076 | the discovery loops: the last recognised line decides |
| RpmRewriter.RpmSection | crates/client/src/system.rs:940-1098 | one section: refused, kept, or its lines rewritten as planned |
| RpmRewriter.WriteSection | crates/client/src/system.rs:1081-1097 | the writing loop: the base line replaced, discovery lines commented, every other line kept |
| RpmRewriter.RewriteRpm | crates/client/src/system.rs:810-822 | a file is its sections, each rewritten by itself |
| RpmLaws.ChosenIs | crates/client/src/system.rs:945-967 | the first active match, or without one the last matching template; no examined line is refused |
| RpmLaws.OutputLinesAre | crates/client/src/system.rs:1081-1097 | the lines of a rewritten section are those of the input, one by one, and the added base URLs, which have no newline |
| RpmLaws.NoDiscoveryRemains | crates/client/src/system.rs:1085-1093 | no active metalink or mirrorlist remains where the replacement has no newline |
| RpmLaws.MovedForDiscovery | crates/client/src/system.rs:968-1079 | without a base line a section is rewritten only if it has a discovery line |
| RpmLaws.BaseUrlIsGained | crates/client/src/system.rs:1081-1097 | with a base line or a terminated discovery line the new base URL is a line of the output |
| RpmLaws.BaseUrlIsLost | crates/client/src/system.rs:1085-1093 | otherwise it is appended to the commented last line and nothing else changes |
| RpmLaws.LostExample | crates/client/src/system.rs:1085-1093 | a concrete such file with a stable Fedora metalink |
| RpmLaws.SecondPassOfSection | crates/client/src/system.rs:940-1098 | for profiles whose answers to texts on one line stay on one line and are left alone, a rewritten section is stable if and only if no other active base URL is recognised or refused |
| RpmLaws.SecondPassOfFile | crates/client/src/system.rs:810-822 | a rewritten file is stable if and only if all its sections are |
| RpmLaws.SecondPassExample | crates/client/src/system.rs:945-967 | a concrete file with two active base URLs that a second pass changes again |
| RpmLaws.SuffixIsRewrittenAlone | crates/client/src/system.rs:810-822 | rewriting from a section boundary does not depend on what comes before |
| RpmFormat.SettingIs | crates/client/src/system.rs:945-967 | key and value of a line are what stands around its first equals sign without white space |
| RpmFormat.BaseIsReplaced | crates/client/src/system.rs:945-967 | the first active `baseurl` that the mapper recognises is replaced, every `metalink` and `mirrorlist` line is commented, and every other line kept |
| RpmFormat.TemplateIsReplaced | crates/client/src/system.rs:945-967 | without one, and beside such a line, the last recognised commented `baseurl` is |
| RpmFormat.RefusedExactly | crates/client/src/system.rs:945-967 | a section is refused if and only if the mapper refuses a line that no recognised active one precedes |
| RpmFormat.TablesDecide | crates/client/src/system.rs:968-1098 | when it recognises nothing, the first table that knows a discovery line decides, by the last line it knows, and the new base URL follows each commented line |
| RpmFormat.NothingIsListed | crates/client/src/system.rs:1085-1093 | in a rewritten section no line starts a `metalink` or `mirrorlist` |
| RpmFormat.HeaderIs | crates/client/src/system.rs:810-822 | a section begins at a line whose first visible character is a bracket |
| Acme.CleanupUndoesPresent | crates/server/src/acme_dns.rs:446-485 | cleanup after present restores values, order, TTL and absence |
| Acme.CleanupKeeps | crates/server/src/acme_dns.rs:466-485 | removing an added value keeps every earlier value in place |
| Acme.Manager.Present | crates/server/src/acme_dns.rs:446-464 | fails without effect, or adds the value once and records whether it did |
| Acme.Manager.Cleanup | crates/server/src/acme_dns.rs:466-485 | removes exactly an added value, and the record set when it was the only one |
| Acme.Manager.Provision | crates/server/src/acme.rs:209-249 | whatever fails, the zone is the initial one plus the recorded values; it succeeds if and only if no authorization fails by the server's answer, a read, or the write of a value that is missing; success publishes every pending challenge, and serves each token's last key |
| Acme.Manager.CleanupChallenge | crates/server/src/acme.rs:362-379 | takes one challenge back |
| Acme.Manager.Issue | crates/server/src/acme.rs:202-316 | issues if and only if no authorization fails and validation succeeds; for every failure position the zone comes back with its values, order, TTLs and absences when the cleanups succeed, earlier values are never touched at any moment even when they fail, and the token map loses exactly the provisioned tokens |
| Acme.TakenBack | crates/server/src/acme.rs:309-316 | cleaning up in reverse order walks back through the provisioned states |
| Acme.FreshTokensRestoreTheMap | crates/server/src/acme.rs:362-371 | the token map is restored if and only if the tokens were fresh |
| Acme.WildcardsShareTheName | crates/server/src/acme.rs:238-240 | a domain and its wildcard use the same record set, `_acme-challenge.` and the domain |
| Acme.PresentedIs | crates/server/src/acme_dns.rs:446-464 | a new record set holds the value for 60 seconds; an existing one keeps its time and values and gains the value at the end |

## Left out

- Acme.Manager.Present: a call that fails after taking effect remotely, and other writers of the zone, are not modelled.
- Transactions.Client.Set: only system scope; user-scope paths differ in the table of paths alone. The new content is a parameter.
- Transactions.Client.ResetPlan: the check that a Docker or EPEL record belongs to the operation that wrote it is not modelled; it only adds a refusal.
- Transactions.Client.Validate: path rules of system profiles are a parameter; size limits, symbolic links, file modes and read errors are not modelled.
- Disks.Disk.WriteAtomic: an operation that reports a failure has no effect; directory creation, permissions and the content of leftover siblings after a crash are not modelled beyond the copy of a lost file.
- Installer.Session.Restore: edits fall between a check and the next, not between a check and the write that follows it.
- Installer.Session.Rollback: parsing and validating the stored record is left out.
- Setup.Plan: the merging of MCP configuration and the Skill text are a parameter, because they depend on JSON and TOML libraries.
- Streaming.RunInv: the database calls are atomic steps that may fail; task abortion at shutdown and panics are left out.
- Pacing.BandwidthIsBounded: time is real-valued; rounding of f64 seconds is left out.
- Xdb.Lookup: UTF-8 decoding is a parameter. Images are shorter than usize::MAX bytes, as every Rust vector.
- Networks.Compile: parsing of the rule texts is a parameter, with failure as one of its results.
- Upstreams.UpstreamCandidates: URL parsing is a parameter; setting a path is the identity on the paths of parsed URLs, except that an empty one becomes the root.
- AptRewriter.Rewrite: which of several errors is reported is not modelled, only that there is one. Positions are characters instead of bytes.
- AptRewriter.RewriteApt: how a stanza's suites select its mapper is a parameter; the second-pass results hold for every way of doing so.
- UriMapper.MapUri: the parsed URL and the tables of repositories and mirror hosts are parameters; that a query or fragment is reported by the parser is an assumption of ResultsAreCleanPaths. Addresses are no longer than usize::MAX, as every Rust string.
- RpmRewriter.RpmSection: the tables of Fedora, EPEL and CentOS Stream selectors are parameters. The archive substitutions applied afterwards are left out, also between the two passes of SecondRpmMigration.
- The other line-oriented rewriters (`rewrite_lines`, pacman, Gentoo): the same shape as the modelled ones with fewer states.
- The MCP session of the agent, alerting, secret sealing, email, the web console and the scripts: user interface or wrappers over libraries.
- DNS providers other than Route53, request signing, and the `running` flag of certificate renewal.
- Two client processes running at once.
