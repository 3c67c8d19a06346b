# Verified models of the privileged guards and of the pipeline backend

A Dafny 4.11 project beside the repository. It models five pieces of code that keep
promises across crashes, concurrent writers or whole input sets, and proves those promises
for every run, every input or every reachable state:

1. **OpenClaw config transactions** (`openclaw-config-guard.py`): write-config,
   seal-restart, unseal-restart, lock, unlock and recover over one directory, two files and
   two journals.
2. **The recursive state-tree transition** (`state-dir-guard.py`): the symlink resolver, the
   lock and unlock traversals, the verifying traversal, and the sparse-aware copy.
3. **Gateway control** (`managed-gateway-control.py`): signalling through a pidfd under pid
   reuse, and the expected-exit lease shared by controllers that may die anywhere.
4. **The pipeline graph and schedule** (`topology.py`, `validators.py`, `healthy_runs.py`).
5. **Alert clustering** (`correlator.py`).

`dafny verify dfyconfig.toml` checks the whole project.

## How the parts are modelled

**Config transactions.** `guard_types.dfy` and `recovery_spec.dfy` give the durable state as
a value, `Disk`, and the fate an undisturbed recovery gives it, `FateOf`. `host.dfy` is the
machine: a class whose methods are single durable system calls. Before each call the world
may act: sandbox code may edit the entries of a config directory it owns, the call may fail
before or after its effect, or the process may be killed. `transitions.dfy`, `lockdown.dfy`,
`recover.dfy`, `write_config.dfy`, `restart.dfy` and `unlock.dfy` are the guard's actions as
imperative methods over that machine, written in the order of the source's system calls. Each
contract says what the disk is when the method completes and what it can be when it is cut
short; a killed guard makes no further call. `recovery_stability.dfy` shows why no cut changes
what recovery decides, `recovery_theorems.dfy` states what the decision promises about every
disk, and where the code falls short, and `recovery_runs.dfy` shows the same on whole runs.
`postures.dfy` says what the postures mean in owners and mode bits. `hash_record.dfy`,
`base64.dfy` and `journal_codec.dfy` are the formats; Base64 is section 4 of
RFC 4648. SHA-256 and JSON5 validity are uninterpreted functions in `Facts`.

**State tree.** A tree is one map from paths to nodes (`state_tree.dfy`). `link_resolution.dfy`
holds the resolver as a specification, the loop that performs it, and the lemma the rest
depends on: every link an accepted chain expands is itself accepted, so removing rejected
links and replacing files cannot spoil a link already kept. `posix_resolution.dfy` compares
the resolver with pathname resolution (section 4.13 of the POSIX.1-2017 Base Definitions).
`tree_modes.dfy`, `tree_steps.dfy`, `tree_guard.dfy`, `tree_verify.dfy` and
`tree_transition.dfy` are the traversals, as methods of a class that updates the tree, and the
whole action; `permissions.dfy` says what its result means in owners and mode bits. `sparse_copy.dfy` is the copier over a file with data extents and holes.

**Gateway control.** `gateway_signals.dfy` runs the signalling code on a process table that
changes between any two calls; instance numbers are unique, pids are not. `exit_lease.dfy` is
a state machine with one step per system call of any of any number of controllers, each of
which may die at any step.

**Graph, schedule, clustering.** `graphs.dfy` has the depth-first searches with their sets
updated in place, `topology.dfy` loading and the searches of the source, `schedule.dfy` the
generator, `correlator.dfy` deduplication and clustering, with `real` for the scores.

## Where the code does not keep a promise

Each of these is a lemma or a run below, with the exact condition under which the code does
keep it; for dots after a link in a link target and for repeated edge ids the condition given is
sufficient.

- A protected file with a time stamp before the epoch is journaled but its record is refused
  on recovery (`JournalCodec.StoredFileRoundTripIff` and the two record lemmas). `lock` still
  works in that case through its config-only route, which the disk model does not show because
  it has no time stamps.
- Where changing a directory's owner keeps the setgid bit, a crash between the change of owner
  and the change of mode of the config directory leaves a posture that recovery does not
  recognise. A prepared seal is refused there (`RecoveryTheorems.SetgidStrandsTheSeal`). So is
  a prepared write, if the sandbox had planted any file at the reserved name, which the gate
  lets through (`RecoveryTheorems.PlantedEntryStrandsTheWrite`); and a replayed record is
  believed there, so that bytes come back that are neither the frozen nor the new ones
  (`RecoveryTheorems.ReplayedBytesComeBackIff`, `RecoveryTheorems.PlantedRecordBelievedIff`).
  Every cut owes the visible pair exactly if the name holds nothing that matters or the bit is
  dropped (`RecoveryTheorems.EveryCutOwesVisibleIff`).
- `recover` itself freezes a tree to clear a planted entry. Killed there, it refuses the tree
  from then on, and only `lock` helps (`RecoveryTheorems.ClearingCutFate`).
- A refused `recover` can leave a mutable tree frozen under root, and a second run then does what
  the first would not: it locks the tree, or follows a record that the first did not believe
  (`RecoveryTheorems.RecoverIsIdempotentIff`, `RecoveryRuns.RefusedThenLocked`). A third run changes
  nothing (`RecoveryTheorems.TwoRecoversSettle`), and what `lock` seals stays the same
  (`RecoveryTheorems.RefusedKeepsLockFate`).
- If the state under `/etc` is lost while a tree is sealed, the record in the tree alone brings the
  captured bytes back, unless `recover` or `unseal-restart` is killed after the end of its own
  freeze and before it has retired that record or put one into `/etc`: then the record has lost
  its authority, and the tree is locked for good over the same bytes (`RecoveryTheorems.LoneRecordStandsIff`,
  `Recover.RecoverUntilDone`, `Restart.UnsealThroughCrashes`). With both records the same kill is
  harmless.
- When the pair that write-config finds under its freeze is not in the mutable posture, for
  instance after a `chmod` by the sandbox, or cannot be captured, for instance because the hash
  was deleted or hard-linked, the tree is not handed back: its rollback raises, and it is locked
  over the config bytes the sandbox left (`WriteConfig.WriteConfig`). Killed on that way, it is
  refused by recovery, and `lock` seals those bytes (`WriteConfig.WithheldIsRefused`); killed in
  the freeze, such a tree is refused too (`WriteConfig.CutIsKeptOrRefused`).
- A write in which a call fails before the capture, or whose quarantine refuses the entry at the
  reserved name, puts back the pair seen before the freeze, over whatever the sandbox has
  written since; if that entry is a directory, it locks the tree over that pair
  (`WriteConfig.WriteConfig`).
- A roll-back under an applying record overwrites edits made after the handoff if it died
  before retiring the record (`RecoveryTheorems.ApplyingOverwritesEdits`), and edits inside the
  handoff window of a committed record are lost (`RecoveryRuns.RecoverEdited`).
- `lock` on a tree that `seal-restart` has sealed puts mutable files under locked directories
  and then reports an error (`RecoveryRuns.SealThenLock`).
- `lock` follows the `/etc` record only if the visible pair can be captured whole
  (`RecoveryTheorems.LockHonoursRecordIff`).
- Sealing an already locked tree does not look at the config syntax, recovery does
  (`RecoveryTheorems.LockedSealRecoversIff`).
- `unseal-restart` puts captured bytes back where `recover` would keep newer ones
  (`RecoveryRuns.UnsealBesideRecover`).
- `recover` reports success and does nothing for a root-owned parent of mode 0755 or 0555 over
  a config directory of mode 0755, which an interrupted lock or unlock can leave
  (`Unlock.InterruptedUnlockFate`); running `lock` completes it (`Lockdown.LockUntilDone`).
- The resolver collapses dots and slashes lexically, so a target with dots after a name that is
  itself a link can be checked for one object and resolved by the kernel to another
  (`PosixResolution.DotsAfterNameDiverge`), and one with dots, or a slash, after a name that is
  neither a link nor a directory is accepted though the kernel resolves it to nothing
  (`PosixResolution.AcceptedLinkResolvesAlikeIff`).
- Under a confidentiality root, lock drops the group's execute bit, so unlock, lock, unlock can
  lose it (`TreeTransition.UnlockLockUnlockTree`). Lock deletes a regular file that sits at
  the name of a protected root (`TreeTransition.RemoveUnsupported`, and the exception in
  `TreeTransition.KeepsFiles`).
- A controller that dies between creating the lease marker and giving it its final mode blocks
  every later lease for good (`ExitLease.TornBlocksForever`).
- Where an edge id is repeated, the cycle validator over the edge table can miss a cycle of the
  rows (`TopologyModel.RepeatedIdsDisagree`), never the other way round.

## Model

| member | source | states |
|---|---|---|
| `WriteConfig.WriteThroughCrashes` | nemoclaw_repo/scripts/openclaw-config-guard.py:3834-3950 | write-config, killed after any durable step, then recovery restarted through any number of kills and failed calls. On a tree in order that the sandbox leaves alone, with no failing call but in the recovery, the tree ends over the old pair or the new one, whatever the number of kills, and a success means the new one. Against any sandbox: killed once the pair was captured, the tree ends mutable and journal-free over the new pair if the record in /etc at the kill says committed or the handoff had retired it, over the captured one otherwise; killed before, over the very pair the sandbox left last if it is well-formed and mutable, unless an entry was planted where the freeze can be stranded; any other pair, captured or not, is refused by recovery and sealed by lock; killed inside the containment of a failed rollback, lock seals the pair the record names; a replacement that is no strict JSON object changes nothing |
| `WriteConfig.WriteConfig` | nemoclaw_repo/scripts/openclaw-config-guard.py:3834-3950 | only a strict JSON object of at most 16 MiB is ever installed, and any other replacement is turned away before any system call; success means the pair captured under the freeze had the expected digest (compare-and-swap against a concurrent writer). If no call fails and the action fails after its first record, the tree is handed back holding exactly what the sandbox left if that is a capturable pair in the mutable posture, and locked over the config bytes it left otherwise; only where quarantine refuses the entry at the reserved name is it the pair seen before the freeze; no tree is left half-way. One failing call in the attempt and one in the rollback end in a locked tree, or, killed there, in one that lock seals over the pair the record names. A pending transaction stops it before it touches the disk; a kill at any point leaves a disk whose recovery is already decided; on a tree in order that nobody edits it is all or nothing; an undisturbed run on any tree the gate lets through succeeds |
| `WriteConfig.FinishWrite` | nemoclaw_repo/scripts/openclaw-config-guard.py:3840-3950 | everything after the prepared record is in /etc: the crash verdict and the handling of every failure hold whatever the world does before the freeze, for a frozen pair in any posture, or none that can be captured |
| `WriteConfig.PrepareWrite` | nemoclaw_repo/scripts/openclaw-config-guard.py:3834-3861 | the checks before the try block change no file and publish the prepared record in /etc alone; a replacement that is no strict JSON object of at most 16 MiB is turned away before any system call |
| `WriteConfig.RequireNoPendingJournal` | nemoclaw_repo/scripts/openclaw-config-guard.py:4128-4184 | the gate of write-config, seal-restart and unlock opens exactly if no record is in force and the reserved name holds nothing but what the sandbox may leave in a well-formed mutable tree, which of planted entries is one of its own or a directory of root |
| `WriteConfig.TryWrite` | nemoclaw_repo/scripts/openclaw-config-guard.py:3863-3927 | freeze, capture, compare, swap: the verdict holds for the captured pair from the capture on |
| `WriteConfig.CaptureFrozen` | nemoclaw_repo/scripts/openclaw-config-guard.py:3108-3121 | the capture is taken with the directory root-owned and the reserved name vacant, an undisturbed freeze leaves the files alone, and without a failing call it is refused only under a complete freeze, for a pair that cannot be captured or an entry that cannot be moved |
| `WriteConfig.SwapFrozen` | nemoclaw_repo/scripts/openclaw-config-guard.py:3866-3927 | a mismatch changes nothing; otherwise each cut owes the frozen pair until the committed record is in /etc and the new pair from then on |
| `WriteConfig.ReplaceFrozenPair` | nemoclaw_repo/scripts/openclaw-config-guard.py:3869-3916 | from the applying record on, every cut of the two replacements owes the frozen pair |
| `WriteConfig.CommitReplacement` | nemoclaw_repo/scripts/openclaw-config-guard.py:3917-3927 | from the committed record on, every cut of the handoff owes the new pair |
| `WriteConfig.RollbackFrozen` | nemoclaw_repo/scripts/openclaw-config-guard.py:3795-3831 | a crash inside the rollback owes the pair owed before it until the preserving record is out, then the restored pair |
| `WriteConfig.Refreeze` | nemoclaw_repo/scripts/openclaw-config-guard.py:3795-3801 | no cut of the freeze a rollback starts with changes what is owed |
| `WriteConfig.RestorePair` | nemoclaw_repo/scripts/openclaw-config-guard.py:3795-3817 | re-freezing and reinstalling keeps a record past prepared in charge |
| `WriteConfig.PreserveAndRetire` | nemoclaw_repo/scripts/openclaw-config-guard.py:3812-3831 | from the preserving record on, every cut of the hand-back owes the restored pair |
| `WriteConfig.RollbackOrContain` | nemoclaw_repo/scripts/openclaw-config-guard.py:3928-3946 | a rollback that raises is contained by the fail-closed lock, which one failing call cannot keep from locking the tree, nor one kill from leaving the bytes to be sealed as they were; an undisturbed rollback needs it exactly if the pair cannot be captured or handed back, or no record can be written |
| `WriteConfig.WithheldIsRefused` | nemoclaw_repo/scripts/openclaw-config-guard.py:3928-3946 | while a pair that cannot be captured or handed back is being contained, recovery refuses at every cut and lock seals its config bytes |
| `WriteConfig.CutIsKeptOrRefused` | nemoclaw_repo/scripts/openclaw-config-guard.py:3863-3866 | before the capture lock seals what is visible, at every cut; a pair that recovery would not hand back is refused at every cut but the stranded one |
| `WriteConfig.LockFollowsVerdict` | nemoclaw_repo/scripts/openclaw-config-guard.py:3374-3404 | where an interrupted write owes a pair, lock seals its bytes, but for the mutable tree under a committed record |
| `WriteConfig.AbandonWrite` | nemoclaw_repo/scripts/openclaw-config-guard.py:3928-3946 | the verdict on the tree survives the whole except branch, and lock would follow it even after a kill inside the containment |
| `WriteConfig.JournalRecordIsValid` | nemoclaw_repo/scripts/openclaw-config-guard.py:2426-2510 | every record write-config journals passes the digest, hash-record, size, owner and mode checks of recovery, and the pair it builds matches its own hash record; the inode flags are in `JournalCodec.WrittenRecordMeans` |
| `Recover.RecoverUntilDone` | nemoclaw_repo/scripts/openclaw-config-guard.py:3953-3999 | recovery, re-run after every kill or failed call, finishes within two runs more than the world has events: a tree due to be handed back is, on the pair due at the start; a tree locked before a restart keeps directories and files and loses its journals; a tree without a record keeps its config bytes and ends mutable, locked, or in the one posture that only lock completes; so does a tree whose record in /etc is lost and the one inside is not, sealed or exposed, through any number of kills, if no call fails otherwise and no freeze can be stranded |
| `Recover.RecoverRepeatedly` | nemoclaw_repo/scripts/openclaw-config-guard.py:3764-3782 | with a sandbox that writes the two files at any moment, no sequence of recovery runs after the handoff makes the guard write either of them, before or after the record is retired |
| `Recover.RecoverWhilePending` | nemoclaw_repo/scripts/openclaw-config-guard.py:3764-3782 | the same against a sandbox that also writes the reserved name, as long as the record is in /etc and chown drops the setgid bit |
| `Recover.Recover` | nemoclaw_repo/scripts/openclaw-config-guard.py:4128-4260 | one recover run, left undisturbed, leaves exactly the disk its first journal read decides, and reports an error exactly if the disk is refused; no cut of it changes what a further run will do; on an originally locked tree journals shrink and nothing else changes; without a record the config bytes stay; with a record in the tree alone they stay through a kill; where what lies at the reserved name has no authority, a capturable pair keeps its config bytes through one kill or one failing call |
| `Recover.RecoverWrite` | nemoclaw_repo/scripts/openclaw-config-guard.py:3740-3792 | roll back under applying, forward under committed, keep the visible pair under prepared or once handed over; refused, the tree is left frozen, or as it was if the record is not accepted or the tree was handed over |
| `Recover.FreezeUnder` | nemoclaw_repo/scripts/openclaw-config-guard.py:3087-3105 | the freeze of a recovery run keeps what is due under the record in force |
| `Recover.InstallAndRetire` | nemoclaw_repo/scripts/openclaw-config-guard.py:3779-3791 | installing the owed pair and handing over: every cut still owes that pair |
| `Recover.RetireFrozen` | nemoclaw_repo/scripts/openclaw-config-guard.py:1890-1901 | the in-tree record goes under the freeze, the /etc record after the handoff, and no cut between them changes what is owed |
| `Recover.RecoverRestart` | nemoclaw_repo/scripts/openclaw-config-guard.py:3671-3737 | restart recovery hands back the captured bytes, or keeps the visible ones, or verifies an originally locked tree without touching directories or files; under the record in the tree alone, every cut is a lone record or a tree without one over the same bytes |
| `Recover.KeepLockedTree` | nemoclaw_repo/scripts/openclaw-config-guard.py:3679-3690 | an originally locked tree only loses its journals |
| `Recover.RecoverUnjournaled` | nemoclaw_repo/scripts/openclaw-config-guard.py:3953-3990 | without a record the posture alone decides: restore, complete the lock, preserve, or leave as it is |
| `Recover.CompleteOrphanLock` | nemoclaw_repo/scripts/openclaw-config-guard.py:3980-3984 | an orphaned lock is completed over the visible config bytes, and no directory is locked before both files are |
| `Recover.ClearUntrustedEntry` | nemoclaw_repo/scripts/openclaw-config-guard.py:4002-4010 | a planted entry in a mutable tree is dropped and the visible pair handed back, or the tree left frozen without the entry if that pair is not well-formed; no file is written at any cut |
| `Recover.ContainPartialReplay` | nemoclaw_repo/scripts/openclaw-config-guard.py:4013-4024 | an in-tree record without its /etc peer in a half-frozen tree ends in a lock over the visible config bytes, or without either file if there are none to capture; one kill or one failing call leaves the config bytes, and a kill leaves a lone record or a tree without one |
| `Recover.RecoverUntrusted` | nemoclaw_repo/scripts/openclaw-config-guard.py:4138-4160 | what recover does about an entry without authority, by posture and owner: what a run leaves that is refused, and, over a capturable pair, one that is killed or meets one failing call |
| `Recover.FreezeAndClear` | nemoclaw_repo/scripts/openclaw-config-guard.py:4002-4015 | no cut of the freeze and the quarantine touches a file, and a lone record stays one until it is gone |
| `Recover.LockFrozen` | nemoclaw_repo/scripts/openclaw-config-guard.py:4016-4024 | every cut of the fail-closed lock of a frozen tree without a record is a tree without a record over the same bytes, if no call fails |
| `Recover.ContainmentStaysUnrecorded` | nemoclaw_repo/scripts/openclaw-config-guard.py:3309-3371 | so is every posture and every state of the files that this lock passes through |
| `Recover.LoneIsCleared` | nemoclaw_repo/scripts/openclaw-config-guard.py:3953-4024 | an undisturbed run takes a lone record away, whether it succeeds or is refused, and leaves the config bytes |
| `RecoveryStability.FreezeKeepsFate` | nemoclaw_repo/scripts/openclaw-config-guard.py:3087-3121 | no cut of the freeze changes what recovery decides |
| `RecoveryStability.InstallKeepsFate` | nemoclaw_repo/scripts/openclaw-config-guard.py:3490-3531 | no cut of replacing the two files changes the pair that is owed |
| `RecoveryStability.HandoffKeepsFate` | nemoclaw_repo/scripts/openclaw-config-guard.py:3014-3052 | no cut of the handoff and of journal retirement changes the pair that is owed |
| `RecoveryStability.OrphanHandoffKeepsFate` | nemoclaw_repo/scripts/openclaw-config-guard.py:3966-3979 | a journal-free frozen tree can be handed back with crashes anywhere |
| `RecoveryStability.CutOwesVisibleIff` | nemoclaw_repo/scripts/openclaw-config-guard.py:3108-3121 | before the capture of a write the visible pair is owed at every cut of the freeze but the stranded one; there exactly if the reserved name holds nothing that matters; any planted file is refused there |
| `RecoveryStability.CutKeepsVisible` | nemoclaw_repo/scripts/openclaw-config-guard.py:3740-3766 | before the capture of a write, recovery hands back the visible pair exactly if it can be captured and is in the mutable posture, and refuses otherwise, at every cut but the stranded one, and there too with nothing at the reserved name |
| `RecoveryStability.ShrinkingKeepsLock` | nemoclaw_repo/scripts/openclaw-config-guard.py:3679-3690 | dropping journals, the one in the tree first, keeps the fate of an originally locked tree |
| `RecoveryStability.OrphanLockStaysUnrecorded` | nemoclaw_repo/scripts/openclaw-config-guard.py:3980-3984 | every cut of the completion of an orphaned lock is again a tree without a record over the same config bytes |
| `RecoveryStability.FreezeKeepsLone` | nemoclaw_repo/scripts/openclaw-config-guard.py:3108-3121 | no cut of the freeze changes that the record in the tree is the only one, over the same bytes, in a posture that is sealed or that a freeze cannot strand |
| `RecoveryTheorems.RecoverIsIdempotentIff` | nemoclaw_repo/scripts/openclaw-config-guard.py:3953-3999 | a second undisturbed recover changes nothing, exactly unless the first was refused after it had dropped a record without authority in a mutable tree over a capturable pair, or after its freeze had taken the authority from the in-tree record it followed, with no record in /etc or one there that then replaces a capturable pair |
| `RecoveryTheorems.TwoRecoversSettle` | nemoclaw_repo/scripts/openclaw-config-guard.py:3953-4024 | from any disk whatsoever, a third undisturbed recover changes nothing |
| `RecoveryTheorems.RefusedKeepsLockFate` | nemoclaw_repo/scripts/openclaw-config-guard.py:3374-3404 | whatever an undisturbed refused recover leaves, lock seals the same bytes from it as before, and reports the same |
| `RecoveryTheorems.FateIsSettled` | nemoclaw_repo/scripts/openclaw-config-guard.py:3953-4024 | every recovery that is not refused and changes anything ends in the exact mutable posture over a well-formed pair or in the exact locked posture over a matching root-owned pair, with no record left |
| `RecoveryTheorems.InstalledIsVouchedFor` | nemoclaw_repo/scripts/openclaw-config-guard.py:2513-2658 | recovery installs nothing but a well-formed mutable pair that the record in force vouches for, by digest and hash record, or the pair a write captured |
| `RecoveryTheorems.UnsoundRecordIsRefused` | nemoclaw_repo/scripts/openclaw-config-guard.py:2513-2658 | recovery acts on a record exactly if its sizes, digest, hash record or syntax, owners and modes are the ones spelt out, and otherwise refuses and changes nothing |
| `RecoveryTheorems.LockedBeforeSettlesNothing` | nemoclaw_repo/scripts/openclaw-config-guard.py:3374-3404 | lock on a tree that was locked before a restart puts no file back |
| `RecoveryTheorems.LatestEditWins` | nemoclaw_repo/scripts/openclaw-config-guard.py:1890-1901 | once handed over, with any committed or prepared record still in /etc, every sequence of well-formed edits and recover runs keeps the latest edit |
| `RecoveryTheorems.ApplyingOverwritesEdits` | nemoclaw_repo/scripts/openclaw-config-guard.py:3778-3791 | under an applying record the same promise fails: the roll-back overwrites an edit made since |
| `RecoveryTheorems.UnpairedRecordHasNoSay` | nemoclaw_repo/scripts/openclaw-config-guard.py:1829-1859 | in a mutable or half-frozen tree an in-tree record without an equal /etc peer has no influence on an uninterrupted recovery, which keeps the visible config bytes; interrupted runs are in `Recover.RecoverUntilDone` |
| `RecoveryTheorems.SealedRecordStandsAlone` | nemoclaw_repo/scripts/openclaw-config-guard.py:1829-1859 | in the sealed posture the in-tree record alone recovers like both, as long as no run is interrupted |
| `RecoveryTheorems.LoneRecordStandsIff` | nemoclaw_repo/scripts/openclaw-config-guard.py:1829-1859 | cut inside the freeze of its own recovery, the in-tree record alone recovers as before exactly until that freeze is complete; from then on the tree is to be locked over the visible bytes; with its peer in /etc no cut matters |
| `RecoveryTheorems.SetgidStrandsTheSeal` | nemoclaw_repo/scripts/openclaw-config-guard.py:2965-3001 | where chown keeps the setgid bit, dying right after the config directory changes owner leaves a sealable tree that recover refuses, unless a replayed record is believed there, and that lock seals over its bytes |
| `RecoveryTheorems.PlantedRecordBelievedIff` | nemoclaw_repo/scripts/openclaw-config-guard.py:1829-1859 | at a cut of the freeze, an in-tree record that differs from the one in /etc, or has none beside it, is believed exactly in the stranded posture; recovery then installs what it says, and otherwise keeps the visible config bytes |
| `RecoveryTheorems.EveryCutOwesVisibleIff` | nemoclaw_repo/scripts/openclaw-config-guard.py:3108-3121 | every cut of the freeze under a prepared write owes the visible pair exactly if chown drops the setgid bit or the reserved name holds nothing that matters |
| `RecoveryTheorems.PlantedEntryStrandsTheWrite` | nemoclaw_repo/scripts/openclaw-config-guard.py:1829-1859 | a file planted at the reserved name and a kill right after the config directory changed owner: recovery is refused exactly if chown keeps the setgid bit, and lock seals the visible bytes |
| `RecoveryTheorems.ReplayedBytesComeBackIff` | nemoclaw_repo/scripts/openclaw-config-guard.py:1829-1859 | a replayed committed record and the same kill: its bytes, neither the visible nor the new ones, come back exactly if chown keeps the setgid bit |
| `RecoveryTheorems.ClearingCutFate` | nemoclaw_repo/scripts/openclaw-config-guard.py:4002-4010 | cut inside the freeze of its own clearing, recover refuses a planted file from then on, locks the tree over the visible bytes for a replayed record, or believes that record in the stranded posture; lock seals the visible bytes from every cut |
| `RecoveryTheorems.LockedSealRecoversIff` | nemoclaw_repo/scripts/openclaw-config-guard.py:3560-3568 | the record seal-restart writes over a locked tree is recovered exactly when the config is a JSON5 object |
| `RecoveryTheorems.LockHonoursRecordIff` | nemoclaw_repo/scripts/openclaw-config-guard.py:3374-3404 | lock seals what the /etc record asks for exactly when the visible pair can be captured whole, else the visible config |
| `RecoveryRuns.Relock` | nemoclaw_repo/scripts/openclaw-config-guard.py:3435-3440 | lock run on a sealed tree with a pending /etc record succeeds exactly when settling puts no pair back; when it fails, that pair lies under the locked directories |
| `RecoveryRuns.SealThenLock` | nemoclaw_repo/scripts/openclaw-config-guard.py:3435-3440 | seal-restart and then lock: the seal succeeds, the lock fails and leaves the mutable pair under locked directories without a record |
| `RecoveryRuns.RecoverTwice` | nemoclaw_repo/scripts/openclaw-config-guard.py:3953-4024 | recover run twice: the second run changes nothing exactly unless the first was refused on its way |
| `RecoveryRuns.RefusedThenLocked` | nemoclaw_repo/scripts/openclaw-config-guard.py:4002-4010 | a replayed record in a mutable tree, one of whose files has lost its mode: the first run reports an error, the second succeeds and locks the tree |
| `RecoveryRuns.RecoverEdited` | nemoclaw_repo/scripts/openclaw-config-guard.py:3764-3791 | recover run after an edit: the edited pair is what the tree ends with exactly under prepared, under committed in the mutable posture, or when it equals the pair owed |
| `RecoveryRuns.RecoverPreparedSeal` | nemoclaw_repo/scripts/openclaw-config-guard.py:3692-3708 | recover run under a prepared seal succeeds, over the visible pair, exactly when the posture is one it recognises |
| `RecoveryRuns.UnsealBesideRecover` | nemoclaw_repo/scripts/openclaw-config-guard.py:3650-3737 | unseal-restart and recover run on equal disks end alike exactly outside two phases or when the visible pair is the one unseal puts back |
| `Lockdown.Lock` | nemoclaw_repo/scripts/openclaw-config-guard.py:3422-3464 | after a complete freeze, and after any one failing call once the parent was taken, every exit leaves the config directory closed to the sandbox, whatever it does; success means a matching root-owned read-only pair; an undisturbed lock seals the committed replacement, the applying originals or the visible bytes, and no planted entry vetoes it; on owners and mode bits, neither file can then be written or replaced by the sandbox, nor the directory they are in |
| `Lockdown.LockUntilDone` | nemoclaw_repo/scripts/openclaw-config-guard.py:3422-3464 | lock, run again after every kill, however many, seals the bytes the first run was going to seal, if no call failed otherwise |
| `Lockdown.FreezeAndSeal` | nemoclaw_repo/scripts/openclaw-config-guard.py:3441-3464 | whatever fails after the freeze is contained, and so is any one failing call within it; a kill leaves the bytes to be sealed as they were |
| `Lockdown.SealFrozenTree` | nemoclaw_repo/scripts/openclaw-config-guard.py:3443-3451 | settle, repair, seal, in that order, with no half-locked tree at any cut |
| `Lockdown.SettlePendingTransaction` | nemoclaw_repo/scripts/openclaw-config-guard.py:3374-3419 | only the /etc record is honoured, nothing is raised, and both journals go |
| `Lockdown.ClearJournals` | nemoclaw_repo/scripts/openclaw-config-guard.py:3400-3419 | both journals go, even if any one call fails |
| `Lockdown.RepairAbsentHash` | nemoclaw_repo/scripts/openclaw-config-guard.py:3280-3306 | only a truly absent hash is synthesised, and it matches the config |
| `Lockdown.SealVisiblePair` | nemoclaw_repo/scripts/openclaw-config-guard.py:3446-3451 | installs and verifies the canonical locked pair before the directories are locked |
| `Lockdown.ForceFailClosedLock` | nemoclaw_repo/scripts/openclaw-config-guard.py:3309-3371 | undisturbed, it locks the tree over a root-owned copy of a bounded config with a matching hash, and takes the canonical name from anything else; with a capturable pair no single failing call keeps the pair from being republished |
| `Lockdown.PublishOrSever` | nemoclaw_repo/scripts/openclaw-config-guard.py:3309-3366 | the route by captured pair, by config alone, or by severing both names |
| `Lockdown.RelockLockedTree` | nemoclaw_repo/scripts/openclaw-config-guard.py:3429-3440 | a locked or clamped tree is verified, not rewritten, apart from settling |
| `Lockdown.SettlingSealsSame` | nemoclaw_repo/scripts/openclaw-config-guard.py:3374-3404 | no cut of the settling changes the bytes a further lock seals |
| `Lockdown.SettledPairIsSound` | nemoclaw_repo/scripts/openclaw-config-guard.py:3374-3404 | lock puts back nothing but what a record vouches for |
| `Postures.ClosedOnTheBits` | nemoclaw_repo/scripts/openclaw-config-guard.py:3055-3084 | in a closed config directory no mode bit lets the sandbox create or replace an entry |
| `Postures.SealedOnTheBits` | nemoclaw_repo/scripts/openclaw-config-guard.py:3055-3084 | a locked tree is out of reach of the sandbox, which may still enter and read it |
| `Postures.ClampedOnTheBits` | nemoclaw_repo/scripts/openclaw-config-guard.py:3429-3440 | a clamped tree is out of reach and cannot be entered |
| `Postures.FrozenOnTheBits` | nemoclaw_repo/scripts/openclaw-config-guard.py:3087-3105 | a frozen tree cannot be entered, changed or moved away |
| `Postures.HandedBackOnTheBits` | nemoclaw_repo/scripts/openclaw-config-guard.py:3014-3052 | a tree handed back belongs to the sandbox in every respect |
| `Postures.PartialOnTheBits` | nemoclaw_repo/scripts/openclaw-config-guard.py:2965-3001 | a half-frozen posture is never one that the sandbox has to itself or an outsider can change |
| `Postures.ReachOnTheBits` | nemoclaw_repo/scripts/openclaw-config-guard.py:2965-3001 | in every posture the guard knows, the sandbox of the model edits entries exactly where owners and bits let it |
| `Unlock.Unlock` | nemoclaw_repo/scripts/openclaw-config-guard.py:3466-3487 | an undisturbed unlock hands the sealed config bytes back; a single failed call is rolled back to the very tree it found; a tree that is not sealed and journal-free is left alone; one more failing call on the way back still leaves a locked tree |
| `Unlock.UnlockThroughCrashes` | nemoclaw_repo/scripts/openclaw-config-guard.py:3466-3487 | an unlock killed anywhere, then recovery killed or failing any number of times, then, where it has nothing to do, lock killed any number of times: with no edit and no failing call but in the recovery, the tree ends mutable or locked over the same config bytes, and a success means mutable |
| `Unlock.InterruptedUnlockFate` | nemoclaw_repo/scripts/openclaw-config-guard.py:3953-3990 | recovery of an interrupted unlock keeps the config bytes and does nothing exactly in the half-frozen posture it does not recognise; lock seals the same bytes from every cut |
| `Unlock.RestoreOriginals` | nemoclaw_repo/scripts/openclaw-config-guard.py:3165-3236 | the rollback restores files and directories as captured and never loses the config bytes; one failing call still ends in locked directories over root-owned read-only files |
| `Unlock.FailClosed` | nemoclaw_repo/scripts/openclaw-config-guard.py:3203-3236 | the last resort locks both files before it touches a directory, and keeps their bytes |
| `Restart.RestartThroughCrashes` | nemoclaw_repo/scripts/openclaw-config-guard.py:3554-3668 | seal, unseal, and recovery after any interruption: an originally locked tree keeps directories and files, and loses its journals if its config is JSON5; a mutable tree in order that nobody edits ends mutable over its config bytes, through any number of kills and failing calls, where chown drops the setgid bit; what an earlier interruption left pending is recovered and not sealed over. Against any sandbox: the tree ends mutable over the captured config bytes, or, cut before the capture, over the pair the sandbox left last, unless cut in the one stranded posture, or is refused and sealed by lock if that pair could not be sealed |
| `Restart.SealAndUnseal` | nemoclaw_repo/scripts/openclaw-config-guard.py:3554-3668 | the restart proper, before any recovery: what is owed once the pair is captured, and what is in place before |
| `Restart.SealCutOwesVisibleIff` | nemoclaw_repo/scripts/openclaw-config-guard.py:3569-3598 | before the capture of a seal the visible pair is owed at every cut but the stranded one, whatever lies at the reserved name |
| `Restart.SealCutIsKeptOrRefused` | nemoclaw_repo/scripts/openclaw-config-guard.py:3692-3708 | before the capture of a seal, recovery hands back exactly a capturable mutable pair with a JSON5 config at every cut but the stranded one; any other is refused and lock seals its bytes |
| `Restart.SealRestart` | nemoclaw_repo/scripts/openclaw-config-guard.py:3554-3613 | an originally locked tree keeps directories and files on every exit; an originally mutable one is sealed over the captured pair or owes it back; before the capture only the prepared record and a part of the freeze can be in place; a locked tree in order is sealed unless a call fails |
| `Restart.CaptureForSeal` | nemoclaw_repo/scripts/openclaw-config-guard.py:3570-3598 | no directory changes hands before the prepared record of the visible pair is in /etc, and the capture is the pair the sandbox last left |
| `Restart.UnsealRestart` | nemoclaw_repo/scripts/openclaw-config-guard.py:3616-3668 | undisturbed, the captured bytes are back in every phase; interrupted, they are owed by recovery; an originally locked tree only loses its journals, exactly if it is still properly locked; with the record in the tree alone, an interruption leaves it alone still, over the same bytes, or the bytes owed; without a record it tells what the tree is and leaves it |
| `Restart.UnsealThroughCrashes` | nemoclaw_repo/scripts/openclaw-config-guard.py:3616-3668 | unseal-restart and then recovery until it finishes: with the record in /etc the captured bytes come back through any number of kills and failing calls; with the one in the tree alone and nothing but kills, the tree ends mutable or locked over the same config bytes, or in the one posture that only lock completes |
| `Restart.SealedWithoutEtcIsLone` | nemoclaw_repo/scripts/openclaw-config-guard.py:3599-3612 | what is left of a sealed tree when the state under /etc is lost is a lone record over the sealed bytes |
| `Restart.UnsealRecorded` | nemoclaw_repo/scripts/openclaw-config-guard.py:3625-3667 | the same under the record in force |
| `Restart.SealFrozenPair` | nemoclaw_repo/scripts/openclaw-config-guard.py:3599-3612 | every cut of the sealing owes the captured bytes |
| `Restart.RestoreSealed` | nemoclaw_repo/scripts/openclaw-config-guard.py:3650-3667 | every cut of the unsealing owes the captured bytes |
| `Restart.RestartRecordIsValid` | nemoclaw_repo/scripts/openclaw-config-guard.py:2574-2590 | every record sealing writes over a mutable JSON5 config is accepted by recovery |
| `Transitions.Freeze` | nemoclaw_repo/scripts/openclaw-config-guard.py:3108-3121 | parent first, then the config directory; the cuts are the postures listed and the files are untouched |
| `Transitions.Quarantine` | nemoclaw_repo/scripts/openclaw-config-guard.py:1904-1959 | an entry whose user and group are both the sandbox or both root is moved off the reserved name, any other is refused |
| `Transitions.InstallPair` | nemoclaw_repo/scripts/openclaw-config-guard.py:3490-3531 | config first, then hash, over a pair that can be captured, and nothing if it cannot |
| `Transitions.CommitMutableDirs` | nemoclaw_repo/scripts/openclaw-config-guard.py:3014-3052 | the parent changes hands last; a failure after the config directory is exposed is reported as such |
| `Transitions.CommitLockedDirs` | nemoclaw_repo/scripts/openclaw-config-guard.py:3055-3084 | each directory is read-only before it changes hands, and the parent moves only after the config directory is locked |
| `Transitions.WriteBothJournals` | nemoclaw_repo/scripts/openclaw-config-guard.py:1821-1826 | /etc first, then in the tree, which fails without a failing call exactly beside a directory that quarantine refuses to move |
| `Transitions.CommitMutableAndRetireJournal` | nemoclaw_repo/scripts/openclaw-config-guard.py:1890-1901 | in-tree record, handoff, /etc record, and a failed last unlink is tolerated |
| `Transitions.SnapshotPair` | nemoclaw_repo/scripts/openclaw-config-guard.py:2189-2213 | a capture of two bounded singly linked files whose hash record matches |
| `HashRecord.RecordForMatches` | nemoclaw_repo/scripts/openclaw-config-guard.py:2152-2186 | the record the guard writes is accepted by its parser for exactly the config bytes with that digest |
| `HashRecord.MatchesIff` | nemoclaw_repo/scripts/openclaw-config-guard.py:2152-2186 | a hash file is accepted for a config exactly if it is 64 hexadecimal digits, a space, a space or star, one of the two spellings of the path and at most one newline, and the digits, in either case, are the digest of the config |
| `HashRecord.RecordNamesOneDigest` | nemoclaw_repo/scripts/openclaw-config-guard.py:2152-2186 | one hash file never vouches for two digests |
| `RecoverySpec.CanonicalIsCoherent` | nemoclaw_repo/scripts/openclaw-config-guard.py:2458-2491 | every canonical pair, locked or mutable, is accepted by the hash-record parser and stays in bounds |
| `RecoverySpec.RawPairIff` | nemoclaw_repo/scripts/openclaw-config-guard.py:1993-2044 | a capture holds exactly regular files with no other name, of at most 16 MiB and 64 KiB |
| `Base64.RoundTrip` | nemoclaw_repo/scripts/openclaw-config-guard.py:158-205 | decoding inverts encoding on every byte string |
| `Base64.Alphabet` | nemoclaw_repo/scripts/openclaw-config-guard.py:158-205 | the alphabet is the standard one |
| `Base64.GroupSpells` | nemoclaw_repo/scripts/openclaw-config-guard.py:158-205 | four characters spell the 24 bits of three octets, most significant first |
| `Base64.DecodedIsStrict` | nemoclaw_repo/scripts/openclaw-config-guard.py:158-205 | what decodes is whole groups of the alphabet, padded at the very end at most |
| `JournalCodec.StoredFileRoundTripIff` | nemoclaw_repo/scripts/openclaw-config-guard.py:158-245 | a stored file is read back exactly if both time stamps lie at or after the epoch, and refused otherwise |
| `JournalCodec.WriteRecordRoundTripIff` | nemoclaw_repo/scripts/openclaw-config-guard.py:2494-2562 | recovery decodes what write-config encoded, in every phase, exactly when the four files are dated |
| `JournalCodec.RestartRecordRoundTripIff` | nemoclaw_repo/scripts/openclaw-config-guard.py:2574-2658 | a restart record is read back exactly when its files are dated, its config is JSON5 and its images have the posture it claims |
| `JournalCodec.WrittenRecordMeans` | nemoclaw_repo/scripts/openclaw-config-guard.py:2426-2562 | the encoded record is the record the protocol reasons about; its replacements pass the posture check of recovery, inode flags included, whatever the captured flags; recovery accepts it exactly when the captured pair passes that check and is dated |
| `JournalCodec.UnblockClearsFlags` | nemoclaw_repo/scripts/openclaw-config-guard.py:2432-2440 | clearing the immutable and append-only bits leaves a number in which neither is set |
| `JournalCodec.DecodedRecordIsSound` | nemoclaw_repo/scripts/openclaw-config-guard.py:2513-2658 | whatever decodes, from any JSON, numerals in strings and fractions included, meets the checks the protocol assumes |
| `JournalCodec.AcceptedRecordMeans` | nemoclaw_repo/scripts/openclaw-config-guard.py:2513-2658 | every file of an accepted record belongs to the sandbox, has mode 0660 and bears no blocking inode flags, or in a restart record of a locked tree to root with mode 0444 |
| `JournalCodec.AcceptedHeader` | nemoclaw_repo/scripts/openclaw-config-guard.py:2513-2612 | a record is read as what it says it is: version, directory, action and phase |
| `JournalCodec.VersionsAccepted` | nemoclaw_repo/scripts/openclaw-config-guard.py:2519-2519 | what equals version one |
| `JournalCodec.DecodedFileIsInRange` | nemoclaw_repo/scripts/openclaw-config-guard.py:185-245 | a file that is read back has a known name, permission bits, times since the epoch and a size within its cap |
| `LinkResolution.ResolveInternalSymlink` | nemoclaw_repo/scripts/state-dir-guard.py:590-726 | the restarting loop computes the walk, within 41 passes |
| `LinkResolution.ProbeComponents` | nemoclaw_repo/scripts/state-dir-guard.py:617-725 | one pass over the components, directory by directory, stops where the walk says |
| `LinkResolution.Normalize` | nemoclaw_repo/scripts/state-dir-guard.py:521-563 | an accepted lexical target lies in a protected root |
| `LinkResolution.SplitIsExact` | nemoclaw_repo/scripts/state-dir-guard.py:521-563 | splitting a target at slashes loses nothing |
| `LinkResolution.LinkOnChainIsAccepted` | nemoclaw_repo/scripts/state-dir-guard.py:648-690 | every link an accepted chain expands would be accepted on its own |
| `LinkResolution.WalkPrefix` | nemoclaw_repo/scripts/state-dir-guard.py:617-690 | if a path followed by a rest is accepted, so is the path alone |
| `LinkResolution.AcceptedStaysAccepted` | nemoclaw_repo/scripts/state-dir-guard.py:729-755 | removing unsafe entries, replacing files and adding carve-outs never turns an accepted link into a rejected one |
| `LinkResolution.HardensIsTransitive` | nemoclaw_repo/scripts/state-dir-guard.py:1304-1503 | hardening steps compose |
| `PosixResolution.AcceptedLinkResolvesAlikeIff` | nemoclaw_repo/scripts/state-dir-guard.py:590-726 | an accepted link ends the walk at a directory or singly linked file of the same file system, protected, outside every carve-out; unless a target on the chain has dots after a name that is a link, the kernel resolves it to that object exactly if every name with dots after it is a real directory, and to an error otherwise |
| `PosixResolution.KernelFollowsWalk` | nemoclaw_repo/scripts/state-dir-guard.py:617-726 | the kernel, standing on any real directory along the path, ends where the walk ends if the chain is firm, and fails if it breaks on a name that is no link |
| `PosixResolution.TidyIsFirm` | nemoclaw_repo/scripts/state-dir-guard.py:521-563 | a target with dots only in front is firm wherever its link is |
| `PosixResolution.DestinationIsSafe` | nemoclaw_repo/scripts/state-dir-guard.py:690-726 | what an accepted chain ends in |
| `PosixResolution.AcceptedIff` | nemoclaw_repo/scripts/state-dir-guard.py:729-755 | a link is accepted exactly if it is singly linked and its walk ends at a protected object outside every carve-out, or it names one of the two image packages |
| `PosixResolution.PeerLinkIff` | nemoclaw_repo/scripts/state-dir-guard.py:566-587 | the links that may leave the tree are exactly extensions/<id>/node_modules/openclaw with a safe id, under a directory .openclaw, to one of two literal targets |
| `PosixResolution.DotsAfterNameDiverge` | nemoclaw_repo/scripts/state-dir-guard.py:521-563 | with dots after a link they can part: the walk accepts s/c where the kernel ends outside every root |
| `TreeModes.TransitionMeetsVerification` | nemoclaw_repo/scripts/state-dir-guard.py:897-905 | every mode a transition sets passes its own verification and keeps the owner bits |
| `TreeModes.TransitionOnTheBits` | nemoclaw_repo/scripts/state-dir-guard.py:897-905 | which permission bits a transition takes, gives and keeps |
| `TreeModes.UnlockLockUnlock` | nemoclaw_repo/scripts/state-dir-guard.py:897-905 | unlock, lock, unlock gives the modes of one unlock exactly on high-risk roots, or where the owner could execute if anybody could |
| `TreeSteps.SafeChangeIsStage` | nemoclaw_repo/scripts/state-dir-guard.py:1304-1503 | altering an entry in place, or removing an unsafe one, hardens the tree and keeps everything else |
| `TreeSteps.CarveoutStep` | nemoclaw_repo/scripts/state-dir-guard.py:1237-1301 | creating a sessions carve-out hardens the tree |
| `TreeSteps.NodeOkStays` | nemoclaw_repo/scripts/state-dir-guard.py:1304-1503 | an entry made right stays right while other entries are hardened |
| `TreeSteps.NodeDoneStays` | nemoclaw_repo/scripts/state-dir-guard.py:1237-1301 | so does an agent directory with its sessions entry |
| `TreeGuard.StateDir.MutateDir` | nemoclaw_repo/scripts/state-dir-guard.py:1304-1503 | on return every entry of the subtree is right for the action and has the mode it sets, nothing outside has changed, and it raises only where preflight would have complained; nothing inside a carve-out is touched, and unlocking removes nothing |
| `TreeGuard.StateDir.MutateEntry` | nemoclaw_repo/scripts/state-dir-guard.py:1350-1466 | the same for one entry, of whatever kind |
| `TreeGuard.StateDir.ReplaceFile` | nemoclaw_repo/scripts/state-dir-guard.py:992-1123 | a fresh inode nobody uses, same bytes, same owner bits, locked owner and mode |
| `TreeGuard.StateDir.UnlockFile` | nemoclaw_repo/scripts/state-dir-guard.py:1156-1202 | in place, exactly if the file has no other name |
| `TreeGuard.StateDir.MutateLink` | nemoclaw_repo/scripts/state-dir-guard.py:1400-1446 | locking removes a rejected link and keeps an accepted one; unlocking refuses the rejected one |
| `TreeGuard.StateDir.ChownSymlink` | nemoclaw_repo/scripts/state-dir-guard.py:1205-1234 | an accepted link is still accepted after its owner changed |
| `TreeGuard.StateDir.PrepareDir` | nemoclaw_repo/scripts/state-dir-guard.py:1326-1340 | a directory is frozen and taken over before its entries are listed; an unlocked root is closed meanwhile |
| `TreeGuard.StateDir.FinishDir` | nemoclaw_repo/scripts/state-dir-guard.py:1468-1503 | a locked agent directory ends with a sessions entry; an unlocked directory gets its metadata last |
| `TreeGuard.StateDir.ValidateSymlink` | nemoclaw_repo/scripts/state-dir-guard.py:729-755 | the check as performed is the check as specified |
| `TreeVerify.ScanDir` | nemoclaw_repo/scripts/state-dir-guard.py:758-841 | preflight reports nothing exactly when every entry of the subtree is clean for the action |
| `TreeVerify.VerifyDir` | nemoclaw_repo/scripts/state-dir-guard.py:1562-1697 | verification reports nothing exactly when every entry of the subtree is right, shallow, and off its old inode |
| `TreeVerify.MutatedIsVerified` | nemoclaw_repo/scripts/state-dir-guard.py:1562-1697 | what the mutating traversal leaves, the verifying traversal accepts |
| `TreeTransition.Transition` | nemoclaw_repo/scripts/state-dir-guard.py:1750-1876 | preflight, mutation and verification report an issue exactly when preflight finds one; accepted links stay, files keep their bytes, nothing outside the roots changes |
| `TreeTransition.RunLock` | nemoclaw_repo/scripts/state-dir-guard.py:1700-1883 | lock reports no issue exactly when no governed entry is foreign or too deep; a fail-closed config directory is reopened only then; then, on owners and mode bits alone, the sandbox can write nothing protected and read nothing confidential, agent directories have their sessions entry and sessions directories are its own, and every protected file sits on a fresh inode with its bytes |
| `TreeTransition.RunUnlock` | nemoclaw_repo/scripts/state-dir-guard.py:1700-1883 | unlock reports no issue exactly when roots are directories and every governed entry is singly linked, accepted, shallow and not special; then the sandbox owns every protected entry and has every directory to itself |
| `TreeTransition.NamesArePolicies` | nemoclaw_repo/scripts/state-dir-guard.py:399-448 | the protected names and their policies, spelt out |
| `TreeTransition.LockThenUnlock` | nemoclaw_repo/scripts/state-dir-guard.py:1700-1883 | a lock without issues is always undone by an unlock without issues, and no file loses its path, bytes or owner bits |
| `TreeTransition.UnlockedIsLockable` | nemoclaw_repo/scripts/state-dir-guard.py:1700-1883 | what a successful unlock leaves is always ready to be locked |
| `TreeTransition.OnlyUnsafeIsRemoved` | nemoclaw_repo/scripts/state-dir-guard.py:1400-1466 | what a transition removes was a special entry or a rejected link |
| `TreeTransition.UnlockLockUnlockTree` | nemoclaw_repo/scripts/state-dir-guard.py:1700-1883 | unlock, lock, unlock, as runs: if the first reports no issue neither do the others, and every regular file ends with the mode of the first unlock exactly on high-risk roots, or where its owner could execute it if anybody could |
| `TreeTransition.SelectRoots` | nemoclaw_repo/scripts/state-dir-guard.py:399-448 | the roots found and the names complained about |
| `TreeTransition.RemoveUnsupported` | nemoclaw_repo/scripts/state-dir-guard.py:451-500 | exactly the root names that are no directories are removed, unless one is foreign |
| `TreeTransition.MutateRoots` | nemoclaw_repo/scripts/state-dir-guard.py:1775-1818 | the mutation loop over the roots leaves every root right and touches nothing else |
| `SparseCopy.Staging.CopySparseAware` | nemoclaw_repo/scripts/state-dir-guard.py:947-989 | success means the staging file holds the first size bytes, for any layout and any short transfers; the extents charge at most size bytes, only a fallback charges again; with no failing call and enough budget it succeeds |
| `SparseCopy.Staging.CopyExtents` | nemoclaw_repo/scripts/state-dir-guard.py:959-980 | the extent loop ends and reproduces data and holes |
| `SparseCopy.Staging.CopyExtent` | nemoclaw_repo/scripts/state-dir-guard.py:924-944 | exactly length bytes at the current position, charged as read |
| `SparseCopy.Staging.WriteAll` | nemoclaw_repo/scripts/state-dir-guard.py:937-942 | a chunk is written whole over short writes, or an error is raised |
| `GatewaySignals.Machine.TerminateGateway` | nemoclaw_repo/scripts/managed-gateway-control.py:1485-1510 | every signal reaches one instance, seen with exactly the expected key while it held the pid, whatever exits, spawns and pid reuse happen in between; if no two instances ever show the same key, it is the instance whose identity was captured beforehand, at whatever moment; the call succeeds exactly if that instance is gone; a gateway that shows the expected key throughout and holds still long enough gets the first signal unless it is gone, and only one that survives it gets the second |
| `GatewaySignals.Machine.StopPinned` | nemoclaw_repo/scripts/managed-gateway-control.py:1496-1508 | both signals go to the pinned instance or to nobody, the first to one that is not gone, the second only to one that survived; the answer is whether that instance is gone |
| `GatewaySignals.PinnedIsProven` | nemoclaw_repo/scripts/managed-gateway-control.py:1485-1510 | the pidfd pins the proven process over the whole interval |
| `GatewaySignals.Machine.Recapture` | nemoclaw_repo/scripts/managed-gateway-control.py:822-852 | a recapture that succeeds saw exactly the expected key at some moment of the call; one that fails met a moment at which that key was not shown, or more inconsistent captures in a row than it may retry |
| `GatewaySignals.HistoryStaysLawful` | nemoclaw_repo/scripts/managed-gateway-control.py:1485-1510 | exits, reaping, spawns and changes keep instance numbers unique, one pid per instance, and gaps final |
| `GatewaySignals.EventsMean` | nemoclaw_repo/scripts/managed-gateway-control.py:1485-1510 | what can happen to a process between two calls |
| `ExitLease.LeaseIsExclusive` | nemoclaw_repo/scripts/managed-gateway-control.py:417-486 | in every run of any number of controllers that may die anywhere, at most one is in the locked region, and a marker whose author is alive belongs to the lock holder unless its removal failed |
| `ExitLease.OnlyOrphansAreRetired` | nemoclaw_repo/scripts/managed-gateway-control.py:516-624 | a marker is removed only by its author, or by a lock holder once its author is dead or failed to remove it |
| `ExitLease.RunIsSafe` | nemoclaw_repo/scripts/managed-gateway-control.py:417-624 | the invariant holds over every run |
| `ExitLease.TornBlocksForever` | nemoclaw_repo/scripts/managed-gateway-control.py:489-505 | a marker whose author died before its final mode is never removed, and no lease is published while it is there |
| `ExitLease.PublishesIffNotTorn` | nemoclaw_repo/scripts/managed-gateway-control.py:516-606 | with the lock free, a fresh controller left to itself publishes its lease exactly when no torn marker is in the way |
| `ExitLease.ClearingRemovesOwn` | nemoclaw_repo/scripts/managed-gateway-control.py:611-624 | clearing removes its own marker and its lock and touches no other controller |
| `ExitLease.LeaseRoundTripIff` | nemoclaw_repo/scripts/managed-gateway-control.py:435-624 | publishing and clearing leave neither marker nor lock, exactly unless a torn marker was in the way |
| `ExitLease.LockFileStays` | nemoclaw_repo/scripts/managed-gateway-control.py:417-486 | the lock file, once made, is the one every controller opens and locks |
| `ExitLease.OnlyTheseAreTaken` | nemoclaw_repo/scripts/managed-gateway-control.py:417-606 | when the lock is taken and a marker created |
| `ExitLease.FaultsArePossible` | nemoclaw_repo/scripts/managed-gateway-control.py:554-624 | a controller may die in any phase or fail to unlink, which drops the lock and leaves the marker |
| `TopologyModel.Topology.TopologicalSort` | src/generator/topology.py:174-194 | each reachable id once, every job included, and every edge forward if the graph has no cycle |
| `TopologyModel.SortValidated` | src/generator/topology.py:174-228 | on a topology that validates and repeats no edge id, the sort is a permutation of the jobs with every dependency forward |
| `TopologyModel.Topology.GetDescendants` | src/generator/topology.py:138-151 | exactly what the job reaches, itself aside, with every edge forward in an acyclic graph |
| `TopologyModel.Topology.GetAncestors` | src/generator/topology.py:153-165 | exactly what the parent edges lead to, parents first in an acyclic graph; these are the jobs that reach the start, if every row joins existing jobs |
| `TopologyModel.Topology.FirstCycle` | src/generator/topology.py:210-228 | reports a cycle exactly when there is one |
| `TopologyModel.Validate` | src/generator/topology.py:196-228 | no issue exactly when every edge of the table joins existing jobs and there is no cycle |
| `TopologyModel.ValidateDagIntegrity` | src/generator/validators.py:25-48 | reports a cycle exactly when there is one, although it goes on with the marks of the abandoned search set |
| `TopologyModel.ValidatorsAgree` | src/generator/validators.py:25-48 | a cycle the edge-table validator finds is one the other finds, whatever the ids, so they can differ one way only; they find a cycle in the same topologies when no edge id is repeated |
| `TopologyModel.RepeatedIdsDisagree` | src/generator/topology.py:80-98 | with a repeated edge id they can disagree |
| `TopologyModel.Topology.LoadDependencies` | src/generator/topology.py:80-98 | the adjacency lists are the rows in order, filed under existing jobs; the edge table keeps the last row of an id |
| `TopologyModel.Topology.LoadJobs` | src/generator/topology.py:57-78 | each job id once, in first-seen order |
| `Graphs.TopologicalSearch.Visit` | src/generator/topology.py:179-189 | puts everything reachable in front of what is there, each node before its children if acyclic |
| `Graphs.CycleSearch.HasCycle` | src/generator/topology.py:214-222 | true only if there is a cycle; false leaves everything reached finished in order |
| `Graphs.ReachSearch.Dfs` | src/generator/topology.py:142-147 | appends what is newly reached, children first |
| `Graphs.FinishedIsAcyclic` | src/generator/topology.py:214-222 | a graph whose nodes all finished has no cycle |
| `Schedule.Generate` | src/generator/healthy_runs.py:43-126 | on any topology: run ids are unique, scheduled <= start <= end for non-negative durations, delays and durations in range, logs inside their runs, and every active job runs at each of its times on each day; on one without a cycle, no child starts before a required parent of the same time has ended |
| `Schedule.Generator.RunOnce` | src/generator/healthy_runs.py:66-124 | one more run keeps the history causal, prompt, logged and recorded |
| `Schedule.Generator.LatestParent` | src/generator/healthy_runs.py:73-80 | the latest end among the required parents that ran at this time, or the time itself |
| `Schedule.CausalStays` | src/generator/healthy_runs.py:73-87 | waiting for the recorded parents is enough if no child has run at that time |
| `Schedule.RunIdsAreUnique` | src/generator/healthy_runs.py:70-70 | equal run ids mean the same job at the same scheduled time |
| `Schedule.GetScheduleTimes` | src/generator/healthy_runs.py:128-141 | the loops produce exactly the minutes of the schedule, on that day |
| `Schedule.MinutesIff` | src/generator/healthy_runs.py:128-141 | the minutes are every full hour, every quarter, or midnight, and no others |
| `Schedule.SlackIsShort` | src/generator/healthy_runs.py:82-82 | an hourly job starts within a minute of its base time, any other within five |
| `Basics.TruncatesTowardZero` | src/generator/healthy_runs.py:85-85 | int() cuts the fraction off, towards zero |
| `Correlator.CorrelatorEngine.Correlate` | src/domain/correlator.py:101-150 | the clusters partition the deduplicated alerts, sizes and duplicates add up to the input, primaries come out by severity then time, members score at or above the threshold with their own primary and below it with every earlier one, and each score is the mean of the member scores |
| `Correlator.CorrelatorEngine.NextCluster` | src/domain/correlator.py:112-147 | one turn of the loop takes the most urgent alert left and splits the rest by score, losing none |
| `Correlator.CorrelatorEngine.Deduplicate` | src/domain/correlator.py:36-54 | one alert per fingerprint, the earliest, with the exact number of the others |
| `Correlator.CorrelatorEngine.Gather` | src/domain/correlator.py:118-133 | popping in place splits the list by score and keeps the order |
| `Correlator.CorrelatorEngine.ScoreIsBounded` | src/domain/correlator.py:135-141 | for a threshold up to one, every cluster score lies between it and one |
| `Correlator.CorrelatorEngine.ScoreIsSymmetric` | src/domain/correlator.py:74-99 | the pairwise score does not depend on which alert comes first |
| `Correlator.CorrelatorEngine.Score` | src/domain/correlator.py:74-99 | the score lies between zero and one |
| `Correlator.CorrelatorEngine.ScoreTable` | src/domain/correlator.py:74-99 | the weights case by case |
| `Correlator.CorrelatorEngine.ClusterScoreIsMean` | src/domain/correlator.py:135-141 | as often as there are members, the score adds up to their scores; a cluster of one has full confidence |
| `Correlator.CorrelatorEngine.RelationsOnlyAdd` | src/domain/correlator.py:56-99 | more dependencies never lower a score |
| `Correlator.CorrelatorEngine.RelatedIff` | src/domain/correlator.py:56-72 | a dependency counts in either direction |
| `Correlator.CorrelatorEngine.FingerprintTells` | src/domain/correlator.py:26-34 | alerts alike in source, run, type and hour are duplicates, and alerts that differ in one of these alone are not |
| `Correlator.SeveritiesInOrder` | src/domain/correlator.py:116-118 | the order of severities, in either case of letters |
| `Correlator.UrgentFirst` | src/domain/correlator.py:116-118 | the more severe alert first, then the earlier |

## Left out

Config transactions:

- Process authentication, readiness markers and the mutation mutex of the config guard: facts about the environment; actions are taken one at a time.
- The binding checks on `.openclaw` and its parent: they appear as reads that can fail; renames of the two directories themselves are not modelled.
- Inode numbers, device numbers, extended attributes, inode flags and file times of the two protected files are not part of `Disk`; the codec models the stored ones.
- Sandbox writes through descriptors opened before a freeze, and sandbox changes of the directories' own modes: the model's sandbox edits entries, while it owns the config directory.
- The repeated capture attempts of `_snapshot_raw_pair`: one stable capture or an error stands for them. The second journal read inside `_recover_write_config` sees the same disk as the first.
- JSON text: journals are JSON values; escaping, number syntax and the 48 MiB cap are not modelled. Which strings Python's `int()` takes for numerals, and the text `str()` makes of a value that is no string, are uninterpreted; fractions are exact.
- Preflight actions of the config guard and inspection of startup state: they change nothing.
- World: the world acts before a call, not inside it; each call is one durable effect.
- WriteThroughCrashes: where recovery refuses what an interrupted write left, the tree that further recovery runs leave is described if they are left undisturbed; what `lock` seals is stated for the tree at the kill. So is it for a kill inside the containment of a failed rollback, up to one failing call in the attempt and one in the rollback; after more, two failing captures can take the config off its name.
- RestartThroughCrashes: on a platform where chown keeps the setgid bit, the run that nobody edits under is described up to the stranded posture only, which recovery refuses and `lock` seals.
- RecoverRepeatedly: confines the sandbox to the two files once the record is gone; with an entry planted at the reserved name the guard may freeze the tree to clear it, and a run killed there ends in a lock over the same config bytes.
- FreezeAndSeal: promises closure once the freeze itself is complete, or after one failing call; two of them, one in the freeze and one in its containment, may leave the sandbox in possession.
- RecoverUntilDone: a tree whose record in /etc is lost is described through kills; a failing call inside the fail-closed lock, or a freeze that is stranded in a mutable tree, is not covered for it.
- RestoreOriginals: the in-place change of owner and mode of its last resort is shown as two replacements of the entry.

State tree:

- Concurrent change during a traversal, failing system calls, and the entry, byte and time budgets: any of them can only turn a success into a reported issue. The identity checks that detect a race have nothing to detect.
- Transition: the verifying traversal finds nothing to report in a model without concurrent change; that what mutation leaves passes it is proved (`TreeVerify.MutatedIsVerified`).
- The order in which a directory is listed: entries are handled in an arbitrary order, and every result holds for each order.
- Inode flags, extended attributes, access lists and time stamps of the replaced files; the bytes come from the copier, whose refinement is proved on its own.
- The read-only preflight action, the summary counters, and the lock that serialises this guard with the config guard.
- AcceptedLinkResolvesAlikeIff: requires that no target on the chain has dots after a name that is a link. There the kernel may end elsewhere, and the failing tree is given; it may also end at the same object, and that case is not covered.
- Base64.Decode and link targets: characters are Dafny characters; no Unicode normalisation. CPython's decoder also tolerates some superfluous padding that the model refuses.

Gateway control:

- Discovery of the supervisor and the gateway, health probes, network namespaces, preflight validators, log excerpts and the request loop.
- Capture: the double read of one pinned procfs directory is one reading of the key at an instant, or an inconsistency; time limits are retry counts, and a poll with a time limit is one look after an arbitrary stretch of events.
- Creation, ownership and mode checks of the runtime directory and of the lock file; the lock file is never removed by any controller, so its path checks always succeed in the model.

Graph, schedule and clustering:

- Business assets, affected assets and asset checks of `validate`; CSV parsing; `validate_referential_integrity` and the validators that return an empty list.
- Record counts and schema versions of executions, and the texts of log events; calendar dates are a naming of days by eight characters.
- Calendar arithmetic and time zones: times are counts of minutes, seconds or microseconds; alert times are the normalised ones.
- Floating point: factors, scores and means are real numbers.
- CorrelatorEngine.Fingerprint: SHA-256 and the text of an hour are uninterpreted; lower-casing covers ASCII.
- Incident creation, and loading the dependency graph from its file.
- The remaining modules of the repository (agents, state machine, tools, web routes, user interfaces, document and scenario generators): wrappers and plumbing with no protocol of their own.
