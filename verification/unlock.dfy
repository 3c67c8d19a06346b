/** The unlock action: replace the sealed pair by a mutable one and hand the tree back.
    It writes no journal, so what an interruption leaves is told by the posture alone. */
module Unlock {
  import opened Basics
  import opened GuardTypes
  import opened RecoverySpec
  import opened HostModel
  import opened Transitions
  import opened Lockdown
  import opened Postures
  import opened RecoveryStability
  import R = Recover
  import W = WriteConfig
  import HashRecord

  /** No record anywhere, and a capturable pair over these config bytes. */
  predicate StillHolds(d: Disk, bytes: Bytes) {
    && d.secondary == None && d.persistent == Vacant
    && RawPair(d).Some? && RawPair(d).value.config.data == bytes
  }

  /** Every disk an unlock of a sealed tree can be killed in is one without a record. What
      recovery makes of it: the tree ends mutable or locked over
      the same config bytes, except from the half-frozen posture it does not recognise.
      Running lock seals the same bytes from all of them. */
  lemma InterruptedUnlockFate(facts: Facts, d: Disk, bytes: Bytes)
    requires Unrecorded(facts, d, bytes)
    ensures Halfway(d) <==> FateOf(facts, d).AsIs?
    ensures !FateOf(facts, d).Refused?
    ensures FateOf(facts, d).HandedBack? ==>
      FateOf(facts, d).pair.config.data == bytes && MutableFiles(FateOf(facts, d).pair)
    ensures FateOf(facts, d).LeftLocked? ==>
      FateOf(facts, d).pair.config.data == bytes && LockedFiles(FateOf(facts, d).pair)
    ensures LockFateOf(facts, d) == Seals(bytes, true)
  {
    assert SettledPair(facts, d).None?;
  }

  /** A tree the action starts from: sealed, with nothing pending. */
  predicate Unlockable(facts: Facts, d: Disk) {
    IsLocked(d) && d.secondary == None && d.persistent == Vacant && FilesAreSealed(facts, d)
  }

  /** Freeze the locked tree and capture what it holds. */
  method CaptureLocked(host: Host) returns (out: Outcome<Pair<Image>>)
    requires host.alive
    requires Unlockable(host.facts, host.disk)
    modifies host
    ensures host.Onward() && host.edits == old(host.edits)
    ensures host.alive <==> !out.Killed?
    ensures !out.Ok? ==> host.faults > old(host.faults)
    ensures SameEntries(old(host.disk), host.disk) && host.disk.secondary == None
    ensures host.disk.parent == old(host.disk.parent) || host.disk.parent == FROZEN_PARENT
    ensures host.disk.config == LOCKED_CONFIG || (host.disk.config == FROZEN_CONFIG && IsFrozen(host.disk))
    ensures out.Ok? ==> IsFrozen(host.disk) && RawPair(old(host.disk)) == Some(out.value)
    ensures out.Raised? ==> !out.error.HandoffError?
  {
    var _ :- Freeze(host);
    out := SnapshotPair(host);
  }

  /** Put the mutable pair in place and hand the frozen tree back. */
  method ReleaseFrozen(host: Host, current: Pair<Image>) returns (out: Outcome<()>)
    requires host.alive
    requires IsFrozen(host.disk) && StillHolds(host.disk, current.config.data)
    modifies host
    ensures host.Onward()
    ensures host.alive <==> !out.Killed?
    ensures !out.Ok? ==> host.faults > old(host.faults)
    ensures out.Raised? && out.error.HandoffError? ==> host.disk.config == MUTABLE_CONFIG
    ensures host.edits == old(host.edits) ==>
      && Unrecorded(host.facts, host.disk, current.config.data) && !IsLocked(host.disk)
      && (out.Ok? ==> host.disk == HandedBackDisk(Canonical(host.facts, current.config.data, false)))
  {
    hide Coherent;
    var targets := Canonical(host.facts, current.config.data, false);
    CanonicalIsCoherent(host.facts, current.config.data, false);
    var _ :- InstallThenSnapshot(host, targets);
    out := CommitMutableDirs(host);
  }

  /** The try block. captured lists the snapshots the except branch restores. */
  method TryUnlock(host: Host) returns (out: Outcome<()>, captured: Option<Pair<Image>>)
    requires host.alive
    requires Unlockable(host.facts, host.disk)
    modifies host
    ensures host.Onward()
    ensures host.alive <==> !out.Killed?
    ensures !out.Ok? ==> host.faults > old(host.faults)
    ensures captured.Some? ==> captured == RawPair(old(host.disk))
    ensures captured.None? ==> SameEntries(old(host.disk), host.disk)
    ensures out.Raised? && out.error.HandoffError? ==> host.disk.config == MUTABLE_CONFIG
    ensures host.edits == old(host.edits) ==>
      var bytes := RawPair(old(host.disk)).value.config.data;
      && Unrecorded(host.facts, host.disk, bytes)
      && (IsLocked(host.disk) ==> host.disk == old(host.disk))
      && (out.Ok? ==> host.disk == HandedBackDisk(Canonical(host.facts, bytes, false)))
  {
    captured := None;
    var current := CaptureLocked(host);
    if !current.Ok? {
      return current.PropagateFailure<()>(), captured;
    }
    captured := Some(current.value);
    out := ReleaseFrozen(host, current.value);
  }

  /** The file half of _restore_originals: a failure is only noted. */
  method RestoreFiles(host: Host, captured: Option<Pair<Image>>) returns (out: Outcome<bool>)
    requires host.alive
    modifies host
    ensures host.Onward() && (out.Killed? ==> host.faults > old(host.faults)) && !out.Raised?
    ensures host.alive <==> !out.Killed?
    ensures OnlyEntriesDiffer(old(host.disk), host.disk)
    ensures out.Ok? && !out.value ==>
      host.faults > old(host.faults) || RawPair(old(host.disk)).None? || host.edits > old(host.edits)
    ensures host.edits == old(host.edits) && captured.Some? ==>
      && host.disk.persistent == old(host.disk.persistent)
      && (host.disk.configFile == old(host.disk.configFile)
          || host.disk.configFile == Regular(captured.value.config, 1))
      && (host.disk.hashFile == old(host.disk.hashFile) || host.disk.hashFile == Regular(captured.value.hash, 1))
      && (out.Ok? && out.value ==> Holds(host.disk, captured.value))
    // What is no plain file any more is left alone, and noted.
    ensures host.edits == old(host.edits) && captured.Some? ==>
      && (Captured(old(host.disk).configFile, MAX_CONFIG_BYTES).None? ==>
            host.disk.configFile == old(host.disk.configFile) && (out.Ok? ==> !out.value))
      && (Captured(old(host.disk).hashFile, MAX_HASH_BYTES).None? ==>
            host.disk.hashFile == old(host.disk.hashFile) && (out.Ok? ==> !out.value))
    ensures captured.None? && host.edits == old(host.edits) ==>
      host.disk == old(host.disk) && (out.Ok? ==> out.value)
  {
    if captured.None? {
      return Ok(true);
    }
    var a: Outcome<()> := Raised(GuardError("unsafe-config-file"));
    if Captured(host.disk.configFile, MAX_CONFIG_BYTES).Some? {
      a := host.PublishConfig(Regular(captured.value.config, 1));
    }
    if a.Killed? {
      return Killed;
    }
    var b: Outcome<()> := Raised(GuardError("unsafe-config-file"));
    if Captured(host.disk.hashFile, MAX_HASH_BYTES).Some? {
      b := host.PublishHash(Regular(captured.value.hash, 1));
    }
    return if b.Killed? then Killed else Ok(a.Ok? && b.Ok?);
  }

  /** fchown and fchmod of one protected file in place, which the model shows as two
      replacements of its entry. */
  method HardenConfig(host: Host) returns (out: Outcome<()>)
    requires host.alive
    modifies host
    ensures host.Onward() && (out.Killed? ==> host.faults > old(host.faults))
    ensures host.alive <==> !out.Killed?
    ensures !SandboxReaches(old(host.disk)) ==> host.edits == old(host.edits)
    ensures OnlyEntriesDiffer(old(host.disk), host.disk)
    ensures host.edits == old(host.edits) ==>
      && host.disk.hashFile == old(host.disk.hashFile) && host.disk.persistent == old(host.disk.persistent)
      && KeepsConfigBytes(old(host.disk), host.disk)
      && (Captured(old(host.disk).configFile, MAX_CONFIG_BYTES).Some? && out.Ok? ==>
            host.disk.configFile == LockedEntry(old(host.disk).configFile.image.data))
      && (Captured(old(host.disk).configFile, MAX_CONFIG_BYTES).Some? && !out.Ok? ==>
            host.faults > old(host.faults))
    ensures host.edits == old(host.edits)
            && (!old(host.disk.configFile).Regular? || old(host.disk.configFile).links != 1) ==>
      !out.Ok? && host.disk == old(host.disk)
  {
    var _ :- host.Observe();
    var e := host.disk.configFile;
    if !e.Regular? || e.links != 1 {
      return Raised(GuardError("unsafe-config-file"));
    }
    var _ :- host.PublishConfig(Regular(Image(Root, Root, e.image.mode, e.image.data), 1));
    out := host.PublishConfig(LockedEntry(e.image.data));
  }

  method HardenHash(host: Host) returns (out: Outcome<()>)
    requires host.alive
    modifies host
    ensures host.Onward() && (out.Killed? ==> host.faults > old(host.faults))
    ensures host.alive <==> !out.Killed?
    ensures !SandboxReaches(old(host.disk)) ==> host.edits == old(host.edits)
    ensures OnlyEntriesDiffer(old(host.disk), host.disk)
    ensures host.edits == old(host.edits) ==>
      && host.disk.configFile == old(host.disk.configFile) && host.disk.persistent == old(host.disk.persistent)
      && (Captured(old(host.disk).hashFile, MAX_HASH_BYTES).Some? ==>
            Captured(host.disk.hashFile, MAX_HASH_BYTES).Some?)
      && (Captured(old(host.disk).hashFile, MAX_HASH_BYTES).Some? && out.Ok? ==>
            host.disk.hashFile == LockedEntry(old(host.disk).hashFile.image.data))
      && (Captured(old(host.disk).hashFile, MAX_HASH_BYTES).Some? && !out.Ok? ==>
            host.faults > old(host.faults))
    ensures host.edits == old(host.edits)
            && (!old(host.disk.hashFile).Regular? || old(host.disk.hashFile).links != 1) ==>
      !out.Ok? && host.disk == old(host.disk)
  {
    var _ :- host.Observe();
    var e := host.disk.hashFile;
    if !e.Regular? || e.links != 1 {
      return Raised(GuardError("unsafe-config-file"));
    }
    var _ :- host.PublishHash(Regular(Image(Root, Root, e.image.mode, e.image.data), 1));
    out := host.PublishHash(LockedEntry(e.image.data));
  }

  /** Both names hold the bytes of p, root-owned and read-only. */
  predicate Hardened(p: Pair<Image>, d: Disk) {
    d.configFile == LockedEntry(p.config.data) && d.hashFile == LockedEntry(p.hash.data)
  }

  /** The last resort of _restore_originals, entered after a noted failure. */
  method FailClosed(host: Host) returns (out: Outcome<()>)
    requires host.alive
    modifies host
    ensures host.Onward() && (out.Killed? ==> host.faults > old(host.faults))
    ensures host.alive <==> !out.Killed?
    ensures host.disk.secondary == old(host.disk.secondary)
    ensures old(host.disk.config.user) == Root ==> host.edits == old(host.edits)
    ensures host.edits == old(host.edits) ==>
      && host.disk.persistent == old(host.disk.persistent) && KeepsConfigBytes(old(host.disk), host.disk)
      && (Captured(old(host.disk).hashFile, MAX_HASH_BYTES).Some? ==>
            Captured(host.disk.hashFile, MAX_HASH_BYTES).Some?)
      // No directory is touched before both files are locked, and none is missed.
      && (RawPair(old(host.disk)).Some? ==>
            && (!out.Ok? ==> host.faults > old(host.faults))
            && (out.Ok? ==> IsLocked(host.disk))
            && (out.Ok? || host.disk.config != old(host.disk.config) || host.disk.parent != old(host.disk.parent) ==>
                  Hardened(RawPair(old(host.disk)).value, host.disk)))
  {
    var _ :- HardenConfig(host);
    var _ :- HardenHash(host);
    out := CommitLockedDirs(host);
  }

  /** _restore_originals: best effort, never raising. */
  method RestoreOriginals(host: Host, captured: Option<Pair<Image>>, ghost bytes: Bytes)
    returns (out: Outcome<()>)
    requires host.alive
    requires captured.Some? ==> Bounded(captured.value) && captured.value.config.data == bytes
    modifies host
    ensures host.Onward() && (out.Killed? ==> host.faults > old(host.faults)) && !out.Raised?
    ensures host.alive <==> !out.Killed?
    ensures StillHolds(old(host.disk), bytes) && host.edits == old(host.edits) ==>
      && StillHolds(host.disk, bytes)
      && (host.faults == old(host.faults) ==>
            && IsLocked(host.disk)
            && (if captured.Some? then Holds(host.disk, captured.value)
                else SameEntries(old(host.disk), host.disk)))
    // One failing call is worked around: both files end root-owned and read-only.
    ensures StillHolds(old(host.disk), bytes) && host.edits == old(host.edits)
            && (if captured.Some? then LockedFiles(captured.value) else LockedFiles(RawPair(old(host.disk)).value))
            && host.faults <= old(host.faults) + 1 && out.Ok? ==>
      IsLocked(host.disk) && RawPair(host.disk).Some? && LockedFiles(RawPair(host.disk).value)
  {
    var files := RestoreFiles(host, captured);
    if files.Killed? {
      return Killed;
    }
    var dirs := CommitLockedDirs(host);
    if dirs.Killed? {
      return Killed;
    }
    if !files.value || !dirs.Ok? {
      var closed := FailClosed(host);
      return if closed.Killed? then Killed else Ok(());
    }
    return Ok(());
  }

  /** The gate and _verify_locked_posture. */
  method CheckUnlockable(host: Host) returns (out: Outcome<Pair<Image>>)
    requires host.alive
    modifies host
    ensures host.Onward()
    ensures host.alive <==> !out.Killed?
    ensures OnlyEntriesDiffer(old(host.disk), host.disk)
    ensures out.Ok? ==> host.disk == old(host.disk) && host.edits == old(host.edits)
    ensures out.Ok? ==> Unlockable(host.facts, host.disk) && RawPair(host.disk) == Some(out.value)
    ensures host.edits == old(host.edits) ==> host.disk == old(host.disk)
    ensures !SandboxReaches(old(host.disk)) ==> host.edits == old(host.edits)
    ensures Unlockable(host.facts, old(host.disk)) && !out.Ok? ==> host.faults > old(host.faults)
    ensures out.Raised? ==> !out.error.HandoffError?
  {
    var _ :- W.RequireNoPendingJournal(host);
    var pair :- SnapshotPair(host);
    if !IsLocked(host.disk) || !LockedFiles(pair) {
      return Raised(GuardError("config-not-locked"));
    }
    return Ok(pair);
  }

  /** What an unlock that nobody edited under leaves of a sealed tree. */
  predicate Unlocks(facts: Facts, d0: Disk, d: Disk, out: Outcome<()>, faults: nat)
    requires RawPair(d0).Some?
  {
    var bytes := RawPair(d0).value.config.data;
    && StillHolds(d, bytes)
    && (faults == 0 ==> out.Ok?)
    && (out.Ok? ==> d == HandedBackDisk(Canonical(facts, bytes, false)))
    && (out.Killed? && faults == 1 ==> Unrecorded(facts, d, bytes))
    && (out.Raised? && !out.error.HandoffError? && faults == 1 ==> d == d0)
    && (out.Raised? && !out.error.HandoffError? && faults <= 2 ==>
          IsLocked(d) && LockedFiles(RawPair(d).value))
    && (out.Raised? && out.error.HandoffError? ==> d.config == MUTABLE_CONFIG)
  }

  /** The unlock action. Undisturbed, it hands the same config bytes back. Killed before any
      other fault, it leaves one of the cuts above. A single failed call is rolled back to
      the very tree it found, unless the sandbox already has it. */
  method Unlock(host: Host) returns (out: Outcome<()>)
    requires host.alive
    modifies host
    ensures host.Onward()
    ensures host.alive <==> !out.Killed?
    ensures !Unlockable(host.facts, old(host.disk)) ==>
      !out.Ok? && OnlyEntriesDiffer(old(host.disk), host.disk)
    ensures Unlockable(host.facts, old(host.disk)) && host.edits == old(host.edits) ==>
      Unlocks(host.facts, old(host.disk), host.disk, out, host.faults - old(host.faults))
    ensures out.Ok? && host.edits == old(host.edits) ==> InReach(host.disk)
  {
    var pair :- CheckUnlockable(host);
    HandedBackOnTheBits(Canonical(host.facts, pair.config.data, false));
    out := UnlockSealed(host, pair.config.data);
  }

  /** The try block and its except branch. */
  method UnlockSealed(host: Host, ghost bytes: Bytes) returns (out: Outcome<()>)
    requires host.alive
    requires Unlockable(host.facts, host.disk) && RawPair(host.disk).value.config.data == bytes
    modifies host
    ensures host.Onward()
    ensures host.alive <==> !out.Killed?
    ensures host.edits == old(host.edits) ==>
      Unlocks(host.facts, old(host.disk), host.disk, out, host.faults - old(host.faults))
  {
    var captured;
    out, captured := TryUnlock(host);
    if out.Raised? && !out.error.HandoffError? {
      var undone := RestoreOriginals(host, captured, bytes);
      if undone.Killed? {
        out := Killed;
      }
    }
  }

  /** An unlock that may be killed anywhere, then recovery killed or failing any number of
      times, then, where recovery finds nothing to do, lock killed any number of times: the
      config bytes survive, and the tree ends mutable or locked over them, if every call that
      failed without a kill, retried of them, was one of the recovery. */
  method UnlockThroughCrashes(host: Host) returns (out: Outcome<()>, ghost retried: nat)
    requires Unlockable(host.facts, host.disk)
    modifies host
    ensures host.Later() && retried <= host.errors - old(host.errors)
    ensures host.errors == old(host.errors) + retried && host.edits == old(host.edits) ==>
      exists p: Pair<Image> :: p.config.data == RawPair(old(host.disk)).value.config.data
                  && (|| (MutableFiles(p) && host.disk == HandedBackDisk(p))
                      || (LockedFiles(p) && host.disk == LockedDisk(p)))
    ensures out.Ok? && host.edits == old(host.edits) ==>
      host.disk == HandedBackDisk(Canonical(host.facts, RawPair(old(host.disk)).value.config.data, false))
    ensures host.faults == old(host.faults) && host.edits == old(host.edits) ==> out.Ok?
  {
    hide Coherent, HashRecord.RecordFor;
    ghost var bytes := RawPair(host.disk).value.config.data;
    host.Start();
    out := Unlock(host);
    ghost var d1, n1 := host.disk, host.errors;
    CanonicalIsCoherent(host.facts, bytes, true);
    CanonicalIsCoherent(host.facts, bytes, false);
    retried := 0;
    if !out.Killed? {
      assert out.Ok? && host.edits == old(host.edits) ==> d1 == HandedBackDisk(Canonical(host.facts, bytes, false));
      return;
    }
    R.RecoverUntilDone(host);
    retried := host.errors - n1;
    ghost var d2 := host.disk;
    if host.disk.config == LOCKED_CONFIG && !IsLocked(host.disk) {
      var last := LockUntilDone(host);
      if Unrecorded(host.facts, d2, bytes) {
        InterruptedUnlockFate(host.facts, d2, bytes);
      }
    }
    if host.errors == old(host.errors) + retried && host.edits == old(host.edits) {
      ghost var p := if host.disk == d2 then RawPair(d2).value else Canonical(host.facts, bytes, true);
      assert host.disk == HandedBackDisk(p) || host.disk == LockedDisk(p);
    }
  }
}
