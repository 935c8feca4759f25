# idunn, modelled and proved

A Dafny model of the parts of idunn that must not go wrong when the power does:
applying an update, recovering from a crash, falling back from a version that
does not work, replacing the launcher, and removing the installation; and of the
parts whose correctness carries the rest: the delta compiler and its interpreter,
the planner, resumable downloads and verified staging.

How it is built:

- **The install root** (`Install.dfy`) is a record: journal, `current`, version
  directories (each whole or torn), install state, staging, pending launchers,
  the launcher waiting for the next start, and the probation record. Every
  durable write is one step. What an operation does is a *plan*, a list of writes
  and whether it then succeeds. A crash and an error return look alike: the
  operation stops, and what is on disk is a prefix of the plan, a *cut*.
- **Plans** are given in `Txn.dfy` (recovery, rollback, deferred resume),
  `Trial.dfy` (probation), `Apply.dfy` (an update, staging, swap, collection),
  `Launch.dfy` (a start) and `Machine.dfy` (uninstall).
- **`Disk.dfy`** is the same code in the form it runs: a class whose methods write
  to the root step by step and stop when a write fails. Each is proved to leave
  exactly a cut of its plan, so the theorems about plans are theorems about it.
- **`Atomicity.dfy`** proves crash atomicity; **`Launch.dfy`** says exactly what
  recovery and a start do from any root; **`Retries.dfy`** when a rollback
  converges; **`Machine.dfy`** what every single write of every run keeps,
  whatever happens in whatever order, cut wherever; **`Beneath.dfy`** two runs
  that end badly.
- **`Outcomes.dfy`** and **`Verdicts.dfy`** say what an update, an uninstall, a
  start and the application's own word come to when nothing stops them, in the
  fields of what they find and are asked for, not in those of the plans.
- The other modules follow their source files one by one.

Things the proofs brought out:

- A journal holds up to seven records, not the six its comment speaks of: a
  deferred update that commits and is then uninstalled has seven
  (`Journal.SevenRecordsHappen`). The ceiling of 32 is still never met.
- An in-process rollback of a recorded swap, cut after the pointer moved and
  before its own record is written, leaves a root recovery refuses. These three
  crash points are the only ones (`Txn.RollbackOfSwappedCut`).
- An in-process rollback does not write the install state, so it leaves pointer
  and install state in agreement exactly when the transaction had not written it
  (`Txn.RollbackUndoes`).
- Undoing an update removes a directory of the new version's name even if the
  update did not make it, and an update that finds one always ends so
  (`Atomicity.UndoneRemoves`, `Atomicity.LeftoverIsRemoved`). A permitted
  downgrade to a retained version thus deletes that version.
- An update writes its probation record before it begins, and nothing puts the
  old one back. One that is undone or waits silently ends the live version's own
  probation, exactly when it brings one itself (`Atomicity.LiveTrialIsLost`).
- A rollback to the previous version need not end there when a deferred update
  for another version waits: a start that is denied the lock for the update and
  granted it for the rollback goes back, and the next start makes the deferred
  version live (`Retries.SkippedStartLoses`). When such starts do no harm, and
  when starts that never skip the update end there, is exact
  (`Retries.ConvergesWhateverStarts`, `Retries.ConvergesExactly`).
- Beneath a deferred update that brings no probation of its own, going back
  removes the version the update started from; a resume cut right behind its
  first record then leaves a root recovery refuses for good
  (`Beneath.RevertBeneathDeferral`). If the removal was cut half-way, a directory
  is still there, and recovery makes that torn version live
  (`Beneath.TornBeneathDeferral`): it asks that the directory exist, not that it
  be whole. An update that does bring a probation has replaced the record this
  needs. Which deferred updates are safe to resume is
  `Launch.ResumeIsSafeExactly`; that recovery does not refuse is less
  (`Launch.ResumeRecoversExactly`).
- A block without a reason does not block (`Atomicity.BlockExactly`), since the
  reason is also the answer to whether there is one. Such a record is accepted
  when read; no run from a root without one writes one (`Machine.NeverDangles`
  keeps `Sane`, which says so).
- A version that ties with the live one but is spelled differently is collected,
  whatever the window, unless it is pinned or will not go
  (`Retention.TieIsCollected`).
- The sums behind the cheapest route are right exactly while they stay within the
  signed range; beyond it a chain can look cheaper than free and the dearer one
  is taken (`Route.CostsAreRightExactly`, `Route.WrapIsTaken`). What is staged
  along it is the target all the same (`Staging.Stager.AlongRoute`). Under the
  default ceiling they always fit (`Route.WalkFits`).
- A directory at the launcher's name that was moved aside is not listed there, so
  it is the one thing a repair cannot bring back (`LauncherFile.Folder.Lifetime`).
- Core version numbers beyond 64 bits all tie with each other, and pre-release
  numbers beyond 64 bits are ordered as text: 99999999999999999999 above
  100000000000000000000, and every such number above `-a`
  (`Semver.SaturationIsExact`, `Semver.IdentExactly`).

## Model

| member | source | states |
|---|---|---|
| `Atomicity.CrashAtomic` | core/updater/apply.go:261-453 | Cut an update after any number of writes, cut any number of recoveries anywhere: the recovery that completes succeeds and leaves the new version committed (pointer, install state, whole directory, its launcher next, every version its collection spares as it was), or the old one with every other directory as it was, or DEFERRED with just the new directory added, or nothing begun; the probation record is the one the update wrote first, and otherwise untouched; committed exactly if the pointer had moved; recovering again changes nothing; the root is at rest again |
| `Atomicity.RoundsAreAtomic` | core/updater/apply.go:261-453 | Any number of updates, each cut anywhere and recovered so, one after another: the root is at rest with a whole version live, and the next update is all or nothing again |
| `Disk.CrashAndRestart` | core/txn/recover.go:61-142 | The same for the running code, which stops at whatever write fails: an update, recoveries that each stop, and one that does not |
| `Disk.FailAndRestart` | core/updater/apply.go:210-256 | The running code again: an update that fails before its recorded swap, its own undoing stopped anywhere, recovered: all or nothing |
| `Disk.DeferAndRestart` | core/txn/recover.go:191-257 | And a deferred update whose resume stops anywhere, recovered: all or nothing |
| `Disk.StartAgain` | core/launch/launch.go:199-294 | And starts that each stop anywhere, then one that gets the lock: it comes to exactly what the root it finds says, and a rollback on course ends at the previous version |
| `Outcomes.UpdateExactly` | core/updater/apply.go:261-453 | From every root at rest an update succeeds if and only if it is not waiting already, was resolved against the version that runs and is another, was let through, has no reason on record against it, finds no unfinished rollback where it brings a probation, finds no directory of its name, its directory is flushed, and no instance makes it wait; it ends DEFERRED if and only if one does; what it leaves is exact in journal, pointer, directories, install state, launcher and probation record, and otherwise it changes nothing or stops behind BEGIN |
| `Outcomes.KnownGoodStays` | core/updater/probation.go:144-181 | However many updates are installed on top of each other without one being confirmed, the version to go back to is still the one that ran before them, and whole, whatever the collections would take |
| `Outcomes.ArmComes` | core/updater/probation.go:144-181 | Refused if and only if a rollback is unfinished where a probation is brought; else the new version starts with no attempt and no restart spent, the block on record is kept, and it goes back to the version that runs, or past it to what that would go back to where it never confirmed and that is there and another |
| `Outcomes.RemoveExactly` | core/uninstall/uninstall.go:260-332 | An uninstall is begun if and only if a journal or an install state is on record and recovery can settle it, and finishes if and only if every listed directory goes; then nothing but unlisted directories is left, otherwise nothing runs and the record says so; not begun, it changes nothing |
| `Disk.InstallRoot.Update` | core/updater/apply.go:261-453 | An update stopped by a failing write leaves exactly a cut of its plan; it succeeds if and only if the plan does and all of it was written |
| `Disk.InstallRoot.RecoverResult` | core/txn/recover.go:61-142 | So does a recovery |
| `Disk.InstallRoot.Rollback` | core/txn/recover.go:156-181 | So does an in-process rollback |
| `Disk.InstallRoot.Start` | core/launch/launch.go:199-294 | So does a start: recovery, the deferred update unless the lock is held, the collection, probation |
| `Atomicity.UpdateKeeps` | core/updater/apply.go:339-440 | At every crash point of an update the root is as before, or journal, pointer, directories, install state and launcher agree as far as the record reaches |
| `Atomicity.UpdateCommits` | core/updater/apply.go:395-418 | An update that reports success has pointer and install state at the new, whole version |
| `Atomicity.FailedUpdate` | core/updater/apply.go:210-256 | An update that fails before its swap is recorded and is rolled back in process, the rollback cut anywhere, is all or nothing too |
| `Atomicity.DeferredFinishes` | core/txn/recover.go:191-257 | Finishing an update that deferred, cut anywhere and recovered, commits it, undoes it, or leaves it waiting; uncut it commits |
| `Atomicity.RecoveriesKeep` | core/txn/recover.go:61-142 | Any number of interrupted recoveries keep the transaction consistent and never move `current` |
| `Atomicity.UndoneRemoves` | core/txn/recover.go:378-388 | An update cut anywhere, recovered with cuts anywhere, and thereby taken back leaves the directories it found less one of the new version's name; so they are as before if and only if there was none |
| `Atomicity.RollbackRemoves` | core/txn/recover.go:156-181 | The same for an uncut in-process rollback, from a recorded swap too |
| `Atomicity.LeftoverIsRemoved` | core/stage/stage.go:260-269 | An update not refused that finds a directory of the new version's name always stops in staging, right behind BEGIN, and undoing it removes that directory |
| `Atomicity.LiveTrialIsLost` | core/updater/probation.go:144-181 | After an update cut anywhere and recovered with cuts anywhere that was taken back or waits, the live version's own probation record is still there if and only if the update brings no probation itself; otherwise no start counts against or takes back the live version any more, and what it reports is not heard |
| `Atomicity.BlockExactly` | core/updater/probation.go:119-128 | With nothing else in the way, a blocked version is begun after all if and only if it was blocked without a reason |
| `Txn.RecoverKeeps` | core/txn/recover.go:61-142 | From every consistent state recovery succeeds, is consistent at every point, and ends in the verdict the pointer decided, with nothing pending or staged |
| `Txn.RecoverIsIdempotent` | core/txn/recover.go:53-58 | A second recovery changes nothing |
| `Txn.UndoKeeps` | core/txn/recover.go:354-398 | Undoing from any crash point before the swap succeeds, keeps consistency at every write, and leaves exactly the old state plus the rollback record |
| `Txn.CompleteSwappedKeeps` | core/txn/recover.go:260-310 | Finishing a swapped transaction succeeds, keeps consistency at every write, and ends committed and settled |
| `Txn.CompleteMigratedKeeps` | core/txn/recover.go:279-294 | The same when the swap was found on disk and not in the journal |
| `Txn.SettleKeeps` | core/txn/recover.go:328-346 | After a commit the carried launcher is promoted before its pending copy is swept, at every crash point |
| `Txn.ResumeKeeps` | core/txn/recover.go:191-257 | Resuming is consistent at every crash point and ends committed; where nothing was deferred it does nothing |
| `Txn.RollbackUndoes` | core/txn/recover.go:156-181 | An uncut in-process rollback undoes any unfinished state, a swap included; the result is consistent if and only if the install state had not been written |
| `Txn.RollbackKeepsUnlessSwapped` | core/txn/recover.go:354-398 | Cut anywhere, an in-process rollback before the recorded swap stays recoverable |
| `Txn.RollbackOfSwappedCut` | core/txn/recover.go:268-271 | For a recorded swap, recovery refuses exactly the cuts between the moved pointer and the rollback record |
| `Txn.RestingRecovery` | core/txn/recover.go:69-100 | Where nothing was interrupted, recovery touches neither journal, pointer, directories, install state nor probation |
| `Launch.RecoverExactly` | core/txn/recover.go:61-142 | From every root whose journal was grown by appends, consistent or not: recovery succeeds if and only if it is not being uninstalled, `current` bears out a recorded swap, and a version to return to is none, live or there; then exactly what `current`, directories and install state are; where it refuses it writes nothing |
| `Launch.RecoverLeaves` | core/txn/recover.go:61-142 | Where it succeeds, the whole of the root it leaves: journal, next launcher, nothing pending, nothing staged |
| `Launch.RollbackExactly` | core/txn/recover.go:156-181 | From every such root an in-process rollback of anything begun, a swap or a deferral included, succeeds if and only if there is something to return to, and leaves exactly that; of anything else it does what recovery does; where it refuses it writes nothing |
| `Launch.ResumeLeaves` | core/txn/recover.go:191-257 | Resuming succeeds if and only if the new directory is there, and leaves exactly the root recovery leaves of the recorded swap; else it leaves its first record alone |
| `Launch.ResumeRecoversExactly` | core/txn/recover.go:191-257 | A deferred update can be resumed and cut anywhere without recovery refusing if and only if it started from nothing, from a version live or still there, or is live already; what recovery then makes live may be torn |
| `Launch.ResumeIsSafeExactly` | core/txn/recover.go:191-257 | With a whole version live and a whole one waiting, recovery succeeds behind every cut of the resume and leaves a whole version live if and only if the update started from nothing, from a version that is live or still whole, or is live already |
| `Launch.StartOutcome` | core/launch/launch.go:199-294 | From every such root, what a start that gets the lock comes to, read off the root: it fails if and only if there is no version to make live; when its probation step reports an error; which version it ends at, the previous one if and only if probation decides so with its directory there or it was to be live anyway; and that the directory it ends at is as whole as it was found |
| `Verdicts.StartExactly` | core/launch/probation.go:150-212 | What a start with the lock does, told from the record alone: back to the previous version, the other one blocked and gone, if and only if a rollback is under way or the version that runs said it does not work, was rolled back before, or used up its starts or the restarts it asked for; given up or stuck where that version is gone; otherwise one attempt more, or the restart cleared, or nothing written; and exactly which directories are left |
| `Verdicts.SkippingStartExactly` | core/launch/probation.go:227-253 | The same for a start that finishes no deferred update, with the lock or without: without it a rollback waits and starts are counted all the same |
| `Verdicts.GoesBackExactly` | core/launch/probation.go:150-212 | Where target and install state are there, a start ends back at the previous version if and only if its record calls for it, or it had gone back before |
| `Verdicts.ComplainingGoesBack` | core/launch/probation.go:95-128 | After the version that runs on probation says it does not work, the next start goes back from it, and blocks it for that reason, or a stock one where it gave none |
| `Verdicts.ConfirmingStays` | core/launch/probation.go:80-85 | After it confirms, the next start leaves it live and its record as it is, and no version live could make that record call for a rollback |
| `Verdicts.ConfirmedForGood` | core/launch/probation.go:150-212 | Once confirmed, no number of starts cut anywhere, whatever they make live, brings the record up again |
| `Verdicts.RestartingIsFree` | core/launch/probation.go:130-148 | A restart the application asks for costs no attempt as long as restarts are left, and is a rollback as soon as none is |
| `Verdicts.OthersAreUnheard` | core/launch/probation.go:105-148 | A word about a version is heard if and only if that version is the one on trial |
| `Retries.StartsOutcome` | core/launch/launch.go:199-294 | The same behind any number of starts cut anywhere, with the lock held or not |
| `Retries.RevertConverges` | core/launch/probation.go:227-351 | A rollback on course stays so through any starts cut anywhere that do not skip a waiting update, and the next that gets the lock ends at the previous version, install state and block included |
| `Retries.ConvergesExactly` | core/launch/probation.go:150-212 | For a rollback decided or under way, that holds for all such starts if and only if a start with the lock would go back from here, and from behind the first record of the update that waits |
| `Retries.ConvergesWhateverStarts` | core/launch/launch.go:245-254 | With starts that may skip a waiting update too, if and only if a start with the lock would go back from here, and an update that waits, if one does, is for the previous version itself and can be finished |
| `Retries.SkippedStartLoses` | core/launch/launch.go:245-254 | With an update for another version waiting, a start that skips it and goes back in full leaves the next start to end at the deferred version, or to fail |
| `Retries.StrandedForGood` | core/launch/probation.go:265-270 | A recorded rollback whose target is gone stays on record through any starts cut anywhere, and probation reports an error at every start that gets the lock and does not fail before |
| `Beneath.RevertBeneathDeferral` | core/launch/launch.go:245-254 | A run of the whole machine to a root recovery refuses for good: a deferral without probation on top of a version that is to go, a start that skips it and goes back, a start that resumes it and is cut behind MIGRATED |
| `Beneath.TornBeneathDeferral` | core/txn/recover.go:401-427 | The same with the start that goes back cut inside the removal: recovery succeeds, and leaves a torn version live |
| `Machine.NeverDangles` | core/txn/recover.go:354-427 | Over every run of updates, recoveries, rollbacks, resumes, collections, starts, marks and uninstalls, each cut anywhere, `current` is absent or names a directory that exists |
| `Machine.EveryWriteIsLawful` | core/launch/probation.go:105-145 | Every durable write of every such run: the live version's directory is never touched, the journal stays one that is believed, a launcher becomes next only behind the COMMITTED record of the live version it is pending for, a block is dropped only for a newer one, a REVERTING record is only ever finished, and no BEGIN is written for the blocked version |
| `Machine.LauncherNeverLost` | internal/layout/launcher.go:175-241 | Over every run, the launcher of a committed live version is still pending at the end, or was promoted, or another version became live |
| `Machine.RecoverPays` | core/txn/recover.go:328-346 | A recovery that completes leaves no committed launcher waiting |
| `Machine.UpdateGuarded` | core/updater/apply.go:309-356 | Every write of an update meets the guard that makes it lawful, the check for blocked versions included |
| `Machine.RevertGuarded` | core/launch/probation.go:255-351 | Every write of a probation rollback meets its guard: the pointer moves only to a directory that is there, the failed version goes only when it is not live |
| `Machine.CollectGuarded` | core/stage/stage.go:447-504 | No collection removes the live version |
| `Machine.RemoveIsGuarded` | core/uninstall/uninstall.go:420-443 | No step of an uninstall leaves a dangling pointer or loses a promised launcher before the uninstall is on record |
| `Apply.CollectResult` | core/stage/stage.go:447-504 | A collection removes exactly the listed versions that are neither live, nor pinned by a probation, nor in the window, nor stuck; it leaves the kept ones as they were and the stuck ones torn |
| `Journal.Parse` | core/txn/journal.go:176-209 | Believes a stored history if and only if it is non-empty, of at most 32 records, opens properly and every step is an allowed transition of one transaction |
| `Journal.AppendExactly` | core/txn/journal.go:212-293 | Whatever was appended before, a record is accepted if and only if it names a version and an application and either opens a transaction where none is under way, or goes on with the same one along BEGIN, STAGED, perhaps DEFERRED, MIGRATED, SWAPPED, COMMITTED, rolled back before that or uninstalled at rest |
| `Journal.GrownHistoriesAreShort` | core/txn/journal.go:237-293 | Whatever is appended to an empty journal in whatever order, the file is believed when read back and holds at most seven records |
| `Journal.CeilingNeverRefuses` | core/txn/journal.go:237-293 | So whether a record is accepted depends on the transition alone |
| `Journal.SevenRecordsHappen` | core/txn/journal.go:117-134 | Seven is reached |
| `Journal.Log.Open` | core/txn/journal.go:150-173 | A history that is not believed is an error, never an empty journal |
| `Journal.Log.Write` | core/txn/journal.go:237-293 | What the process believes is what is on disk, whether or not the write got there |
| `Trial.StartsAreBounded` | core/launch/probation.go:130-212 | Over any interleaving of starts and restarts, with nobody confirming or re-arming, counted starts never exceed the attempts left nor restarts the restarts left |
| `Trial.ArmedStartsAreBounded` | core/launch/probation.go:130-212 | A version that goes live on probation gets its allowance and no more, and once it is spent every start that still finds it on probation goes back |
| `Trial.RevertKeeps` | core/launch/probation.go:282-351 | At every crash point of a rollback, whatever the journal says, probation still decides for it or it is done; uncut it is done |
| `Trial.RevertStuck` | core/launch/probation.go:255-270 | A recorded rollback succeeds if and only if the previous version and an install state are present |
| `Retention.Retained` | core/stage/stage.go:513-546 | Refused below a window of two; otherwise keeps the live version, every strictly newer one and the newest window-1 strictly older ones or all of them, and nothing else |
| `Retention.CollectionKeeps` | core/stage/stage.go:447-504 | After a collection with such a window every live, newer, pinned and window version is there unharmed, and there is a strictly older one if and only if there was one |
| `Retention.CollectionRemovesOldest` | core/stage/stage.go:447-546 | Of the strictly older versions, every one it removed ranks no higher than every one the window kept |
| `Retention.TieIsCollected` | core/stage/stage.go:513-546 | A version that ties with the live one under another spelling survives a collection if and only if it is pinned or stuck |
| `LauncherFile.Folder.ReplaceAside` | internal/launcherfile/replace.go:97-140 | Whatever is at the name and whichever steps fail, what was last there is at the name or is the newest image aside, or is a directory aside; on success the new launcher is at the name in full; uninterrupted it succeeds unless a directory has the next number |
| `LauncherFile.Folder.ReplaceByRename` | internal/launcherfile/replace.go:72-74 | The same where one rename replaces a running image; uninterrupted it succeeds unless a directory is at the name |
| `LauncherFile.Folder.MoveAside` | internal/launcherfile/replace.go:200-209 | Succeeds if and only if the rename does and no directory has the next number; an image moved aside gets a number above all others |
| `LauncherFile.Folder.Asides` | internal/launcherfile/replace.go:168-196 | Lists exactly the images aside, strictly descending |
| `LauncherFile.Folder.Repair` | internal/launcherfile/replace.go:228-252 | A repair that completes leaves at the name the whole of what was last there; if that is a directory still aside, the newest older image in its place, or nothing where there is none; it changes nothing that is there; uninterrupted, over a launcher, it leaves nothing aside and no scratch file |
| `LauncherFile.Folder.UpdateSelf` | core/launch/self.go:73-168 | What is at the name changes only to the staged launcher; the staged file goes only once it is at the name; nothing is replaced by a file that is empty or above 64 MiB, nor over a link or a directory; uninterrupted, over a regular file or nothing, it is |
| `LauncherFile.Folder.Start` | core/launch/launch.go:215-226 | A start repairs first, swaps nothing if that fails, and uninterrupted installs the staged launcher |
| `LauncherFile.Folder.Lifetime` | internal/launcherfile/replace.go:228-252 | Over any run of starts, replacements, repairs and staged launchers with operations failing or cut anywhere, a completed repair leaves what was last there; only where a directory found there at the beginning is aside can it be an older image, or nothing |
| `Uninstall.Disk.RemoveTree` | core/uninstall/uninstall.go:526-557 | Removes exactly what is at and below a path except entries that will not go and what is above them, links as themselves; succeeds if and only if nothing is left; stopped anywhere, only entries below are gone and contents before directories |
| `Uninstall.Disk.RemoveEach` | core/uninstall/uninstall.go:541-550 | One child that will not go does not stop the others |
| `Uninstall.Disk.RemoveMeta` | core/uninstall/uninstall.go:446-471 | Stopped anywhere, the journal is there or all the other records are gone |
| `Uninstall.Disk.SweepRoot` | core/uninstall/uninstall.go:476-496 | Removes scratch and old launcher images, as the next two rows tell them, keeps and names everything else |
| `Uninstall.ScratchExactly` | core/uninstall/uninstall.go:498-502 | A name is litter of an interrupted write if and only if it holds .idunn- somewhere and ends in .tmp |
| `Uninstall.LeftoverExactly` | core/uninstall/uninstall.go:504-516 | A name is left of a launcher if and only if it is its name followed by .idunn-new.tmp, or by .idunn-old- and a number from 1 to the largest int as it is written |
| `Uninstall.Disk.Run` | core/uninstall/uninstall.go:260-332 | Stopped anywhere, only the layout, litter of interrupted writes, the launcher and what is left of others are gone, and the journal stands or pointer, versions and records are all gone; on success exactly the foreign entries remain and are named; with nothing stuck it succeeds |
| `Uninstall.RerunSameTree` | core/uninstall/uninstall.go:260-332 | However far a run got, a rerun ends in the same tree |
| `Delta.RoundTrip` | internal/delta/delta.go:67-69 | For all old and new bytes and every positive bound at least the new length, applying the patch to the old bytes yields exactly the new ones, given an invertible compressor |
| `Delta.Diff` | internal/delta/delta.go:67-246 | The patch it writes means exactly the new bytes under every bound that admits them |
| `Delta.Matches` | internal/delta/delta.go:85-111 | The runs found are in order, disjoint, inside both files, and each agrees from its start to the end of a whole block of the old file; every position that repeats a block of 64 bytes, the first with its hash, is part of a run |
| `Delta.Grow` | internal/delta/delta.go:115-144 | A run grows around its anchor, stays inside both files and never reaches into what is covered; backwards it takes every byte that agrees, forwards every window of 32 at least half of which agrees, to the last byte that does |
| `Delta.Encode` | internal/delta/delta.go:147-199 | The entries and streams it emits rebuild exactly the new bytes |
| `Delta.Differences` | internal/delta/delta.go:173-175 | Added to the old bytes they give the new ones, modulo 256 |
| `BlockIndex.RollIsRehash` | internal/delta/index.go:26-45 | Rolling the hash one byte on equals hashing the new window, modulo 2^64 |
| `BlockIndex.RollingHash` | internal/delta/index.go:34-40 | The loop computes the polynomial modulo 2^64 |
| `BlockIndex.LookupIsSmallest` | internal/delta/index.go:86-99 | The block a lookup answers is the first of older with that hash, and there is none where it answers none |
| `BlockIndex.Table.constructor` | internal/delta/index.go:57-68 | The index holds every block, in a table that keeps an empty slot |
| `BlockIndex.Table.Probe` | internal/delta/index.go:73-84 | Probing terminates, at the hash's slot if it is held and at an empty one if not |
| `BlockIndex.Table.Insert` | internal/delta/index.go:73-84 | Keeps the index complete and sound, the first block of a hash winning |
| `BlockIndex.Table.Lookup` | internal/delta/index.go:89-99 | Answers the smallest block-aligned offset with that hash, and only if the bytes there are equal |
| `PatchFormat.EntryRoundTrip` | internal/delta/delta.go:203-209 | A control entry survives writing and reading |
| `PatchFormat.EntriesRoundTrip` | core/stage/patch.go:303-322 | So does every sequence of entries |
| `PatchFormat.EntriesExactly` | core/stage/patch.go:303-322 | A control stream reads as these entries if and only if it is how they are written, within the signed range |
| `PatchFormat.EntryLayout` | internal/delta/delta.go:203-209 | The two lengths and the signed seek, eight bytes each, lowest first |
| `PatchFormat.AssembleSplit` | core/stage/patch.go:340-381 | The container survives assembling and splitting, for every bound at least the length |
| `PatchFormat.SplitExactly` | core/stage/patch.go:340-381 | A patch is taken apart if and only if it is those parts put together, within the signed range and the bound |
| `PatchFormat.ContainerLayout` | internal/delta/delta.go:220-246 | The tag IDNDELT1, the new length, the lengths of control and difference stream, eight bytes each and lowest first, and the three streams |
| `PatchFormat.RebuildSucceedsExactly` | core/stage/patch.go:144-192 | Entries mean something exactly when every base run and seek stays within the base and the lengths add up to streams and output |
| `PatchFormat.AcceptedExactly` | core/stage/patch.go:129-193 | A patch is accepted if and only if it is put together so, its streams end cleanly with nothing over, its control stream is entries that stay inside the base, and the lengths add up |
| `PatchReader.ApplyPatchStream` | core/stage/patch.go:129-193 | For every base and arbitrary patch it terminates, succeeds exactly when the plain meaning does and then wrote just that, and never writes past the declared length |
| `PatchReader.ApplyPatch` | core/stage/patch.go:85-92 | The in-memory form is the plain meaning |
| `PatchReader.AddRun` | core/stage/patch.go:234-262 | Window by window, a run is the base slice plus the differences, read only in range |
| `PatchReader.AddBase` | core/stage/patch.go:264-277 | Small windows of the base add up to the whole slice |
| `PatchReader.LiteralRun` | core/stage/patch.go:281-297 | Window by window, the literals are copied and the length bound kept |
| `PatchReader.ReadControl` | core/stage/patch.go:303-322 | Reads exactly the next entry, or nothing when it is malformed or missing |
| `PatchReader.SeekOverflowIsExact` | core/stage/patch.go:170-186 | The wrap-around test on the seek is true exactly when the sum leaves the signed range |
| `Semver.Compare` | core/release/semver.go:41-49 | Refuses exactly the malformed versions and otherwise is the comparison proved a preorder |
| `Semver.ParseRoundTrip` | core/release/semver.go:80-105 | Any three numbers within 64 bits and any identifiers, spelled with whatever build metadata, are a version and parse back to themselves |
| `Semver.ValidExactly` | core/release/parse.go:36-42 | A string is taken for a version if and only if it is three numerals between dots, then perhaps a hyphen and a word, then perhaps a plus and a word, of digits, letters of either case, dots and hyphens |
| `Semver.CompareParsed` | core/release/semver.go:107-139 | The loops compare what the comparison function says |
| `Semver.FieldExactly` | core/release/semver.go:143-173 | Any two identifiers: numbers without a leading zero and within 64 bits compare as numbers and below everything else, everything else as text |
| `Semver.TextOrder` | core/release/semver.go:143-158 | Text compares by the first character that differs, and what another text begins with comes first |
| `Semver.CmpChain` | core/release/semver.go:107-173 | The comparison is transitive on all accepted versions, and a chain that ties end to end ties throughout |
| `Semver.OrderIsTotalPreorder` | core/release/semver.go:41-173 | It is a total preorder |
| `Semver.FollowsTheStandard` | core/release/semver.go:107-173 | Where every pair of fields compares as section 11 of SemVer 2.0.0 says, so do the versions |
| `Semver.WithinSixtyFourBits` | core/release/semver.go:41-173 | Versions whose every number fits 64 bits always compare so |
| `Semver.IdentExactly` | core/release/semver.go:143-173 | A pair of identifiers follows the standard if and only if it is not ordered as text against it: two numbers beyond 64 bits of different length where the longer sorts first, or one beside an identifier that sorts below it |
| `Semver.BeyondOutranksText` | core/release/semver.go:164-173 | Every number beyond 64 bits outranks the identifier -a, which the standard puts above all numbers |
| `Semver.SaturationIsExact` | core/release/semver.go:80-105 | A pair of core numbers does if and only if they are equal or one is below the 64-bit ceiling |
| `Chain.Between` | core/release/chain.go:85-142 | Succeeds if and only if after < to, to is published and no two distinct versions on the way tie; then exactly those on the way, strictly ascending |
| `Chain.ChainFrom` | core/release/chain.go:55-68 | The same with a published start in front |
| `Walk.PlanSteps` | core/updater/apply.go:144-190 | One step where and only where the release is for this channel, platform and client and, over an installed version, is newer or downgrades are allowed and its migration floor is met; otherwise a walk through releases of the channel that no admissible sequence is shorter than, each step going up and meeting all of that where it stands; "no bridge" and "too long" only when no admissible sequence, or none of at most 32, exists; nothing where anything but the floor refuses it or there is no unambiguous walk |
| `Walk.Check` | core/updater/updater.go:460-510 | Passes exactly the releases that may be installed, and blames the migration floor exactly where nothing else stands in the way |
| `Walk.Climb` | core/updater/apply.go:164-189 | The greedy walk is shortest and complete over any candidates |
| `Walk.FurthestReachable` | core/updater/apply.go:194-206 | Picks the highest candidate that may be installed next, if any |
| `Walk.JumpFromHigher` | core/updater/updater.go:460-510 | What may be installed on a version may be installed on any higher one below the release |
| `Walk.NothingPasses` | core/updater/apply.go:164-189 | Where the greedy walk is stuck, no admissible sequence gets further |
| `Route.Cheapest` | core/stage/route.go:215-256 | For all lengths it returns a contiguous chain of published patches whose cost, wrapped, is the total; where the sums fit it is of minimal total, and there is none only if there is no chain |
| `Route.CostsAreRightExactly` | core/stage/route.go:219-237 | The computed costs are the least costs if and only if no sum of a least cost and a patch leaves the signed range and no least cost is the marker itself |
| `Route.WrapIsTaken` | core/stage/route.go:234-237 | Three payloads where one does: the dearer way is taken, at a cost below zero |
| `Route.WalkFits` | core/updater/apply.go:796-831 | A walk within the limit of 32 fits under every ceiling below a 32nd of the largest signed number, such as the default |
| `Route.BestIsLeast` | core/stage/route.go:215-256 | The recurrence is below the cost of every path |
| `Route.BackIsCheapest` | core/stage/route.go:240-256 | Following the table back gives a path of exactly the least cost where the sums fit |
| `Route.BackIsPath` | core/stage/route.go:240-256 | For all lengths it gives a path, and its cost is the recorded one modulo 2^64 |
| `Route.FillTable` | core/stage/route.go:219-237 | The filled table is the recurrence in signed 64-bit arithmetic, and each recorded stop is an earlier one with a published patch |
| `Route.Reverse` | core/stage/route.go:251-254 | Reverses the hops in place |
| `Resume.RangeRoundTrip` | core/fetch/resume.go:250-276 | A range as a server states it is understood as that range |
| `Resume.RangeExactly` | core/fetch/resume.go:250-292 | A header is understood if and only if it spells a byte range and a total or an asterisk in numerals of at most 18 digits that make sense |
| `Resume.AnswerHolds` | core/fetch/resume.go:127-214 | A slice of a file joined to a beginning of it is a beginning of it |
| `Resume.ResumesOneFile` | core/fetch/resume.go:102-245 | If every response since the last complete one is a slice of one file, what is held is a beginning of it, and if any stated the length a success is exactly it |
| `Resume.NeverTooLong` | core/fetch/resume.go:174-197 | Nothing kept is longer than asked for |
| `Resume.SomethingWasWhole` | core/fetch/resume.go:154-172 | Bytes are held only after a complete response |
| `Resume.AnswerExactly` | core/fetch/resume.go:127-245 | What one response comes to in its own fields: done with all it stated, another request behind part of it, final behind nothing of it, behind more than it stated or may be kept, or behind an answer that fits nothing; from the start behind a range that is gone |
| `Resume.Download.Request` | core/fetch/resume.go:127-214 | The struct updated in place goes through exactly the states, and reaches the verdicts, of which `ResumesOneFile` and `NeverTooLong` speak |
| `Resume.Download.DownloadFile` | core/fetch/resume.go:102-122 | At most attempts+1 requests; returns what their responses amount to, within the length asked for; from a server that has a file, and answers each time with the whole or the rest of it, perhaps cut off after some bytes, it returns exactly that file, unless every one of the attempts+1 responses was cut off |
| `Verify.Verifier.Write` | core/trust/stream.go:139-151 | Keeps the digests of everything written up to the signed length, and knows of anything beyond |
| `Verify.Verifier.Verdict` | core/trust/stream.go:158-173 | Yes if and only if exactly the signed bytes were written |
| `Verify.VerifyStream` | core/trust/stream.go:182-195 | The verdict depends on the bytes alone, for every chunking: yes exactly for the signed length and every signed digest, of which there is at least one and none but SHA-256 and SHA-512; what passed on is what was judged |
| `Staging.Stager.Keep` | core/stage/reuse.go:168-175 | An attempt that does not verify leaves nothing and is not counted |
| `Staging.Stager.Reuse` | core/stage/reuse.go:91-112 | Succeeds if and only if some plausible installed file holds the signed bytes |
| `Staging.Stager.Patched` | core/stage/route.go:65-146 | A chain succeeds if and only if every patch can be fetched and makes the signed bytes of the base it is given; then the file is what the last one made |
| `Staging.Stager.AlongRoute` | core/stage/route.go:65-146 | Where published patches make what they name and files are read back as written, it succeeds if and only if the lineage ends in the target, the chain's cost is below the file's, some installed file holds what it starts from and every patch of it can be fetched; then the file is exactly the target; where the sums fit, a chain is taken if and only if some chain costs less than the file, and it is the cheapest |
| `Staging.Stager.LocalBase` | core/stage/reuse.go:129-144 | Finds a base if and only if some plausible installed file holds the signed bytes, and it is one of those |
| `Staging.RouteWorks` | core/stage/route.go:148-184 | The hops of such a route work if and only if each patch can be fetched; each then makes signed bytes, and the last the target |
| `Staging.Stager.Apply` | core/stage/route.go:148-184 | One hop succeeds exactly when the patch means something on that base and that verifies |
| `Staging.Stager.StageFile` | core/stage/stage.go:305-360 | Succeeds if and only if an installed file, the chain or the download brings the signed bytes; leaves verified bytes and moves the progress by exactly the signed length |
| `Staging.Stager.Stage` | core/stage/stage.go:237-258 | A staged release is verified file by file and the progress is the sum of the signed lengths |

## Left out

- Staging.Stager.AlongRoute: takes the history with repeats dropped already, and the base as it was when it verified; what comes of any other base is `Staging.Stager.Patched`.
- Resume.Download.DownloadFile: files of less than 10^18 bytes, since no range beyond that is understood.
- Trial.StartsAreBounded: the wording of the reasons, with their counts, is shortened to constants; sanitizing a reason is taken as the identity.
- Retries.ConvergesExactly: speaks of rollbacks that are not over; one that was, and whose version came back, is covered by `Retries.StartsOutcome`.
- Semver.FollowsTheStandard: field by field the condition is exact; that two misordered fields may cancel out over a whole version is not.
- Delta.RoundTrip: lengths within the signed 64-bit range, which Go slices have; the compressor is any pair of functions that invert each other.
- BlockIndex.Table.Lookup: masking with a size proved to be a power of two is written as a remainder.
- Verify.VerifyStream: the hash functions are any functions computed byte by byte.
- Machine.RemoveIsGuarded: what counts as evidence of an installation is a journal or an install state; the check of its name and the launcher-only leftovers are not part of this model.
- Uninstall.Disk.Run: OS integrations, caches, purge hooks and the Windows self-deleting copy; directories can always be listed.
- Staging.Stager.StageFile: destination sanitizing, file modes and the launcher copy; the copy is a step of the update's plan.
- Migration, quiesce and check hooks: steps that may fail, which is a cut of the plan.
- Scratch files of atomic writes, and the phase label and time of journal records.
- Re-validation of version strings and launcher names where they are read back.
- The trust layer, TUF, Deflate, SHA and JSON: verdicts, an invertible codec, folds and records.
- Elevation, the installer, registry integrations, process start, clocks, events and telemetry.
- Rollout buckets, how a probation allowance is resolved from policies, and configuration checks: single comparisons without state.
