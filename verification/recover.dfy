/** The recover action: one run, which may itself be cut short anywhere, and the loop
    an operator runs until it finishes. */
module Recover {
  import opened Basics
  import opened GuardTypes
  import opened RecoverySpec
  import opened HostModel
  import opened Transitions
  import opened RecoveryStability
  import opened Lockdown
  import HashRecord

  /** How a recovery run that nobody edited under relates its first disk to its last.
      spent says that some system call failed or the process was killed. */
  predicate Completes(facts: Facts, d0: Disk, d: Disk, out: Outcome<()>, spent: bool) {
    var fate := FateOf(facts, d0);
    && (!spent ==> d == FinalDisk(facts, d0) && (if fate.Refused? then out.Raised? else out.Ok?))
    && (out.Ok? && fate.HandedBack? ==> Retired(d) == HandedBackDisk(fate.pair))
    && (out.Ok? && fate.LeftLocked? && !ReadJournal(d0).Replayed? ==> Retired(d) == LockedDisk(fate.pair))
  }

  /** No cut of the run changes what a further run will do. */
  predicate StaysOnCourse(facts: Facts, d0: Disk, d: Disk) {
    CrashProof(facts, d0) ==> CrashProof(facts, d) && FateOf(facts, d) == FateOf(facts, d0)
  }

  /** A freeze leaves a lone record where it is. */
  predicate FreezesLone(facts: Facts, d0: Disk, d: Disk) {
    RawPair(d0).Some? ==>
      var bytes := RawPair(d0).value.config.data;
      LoneRecord(facts, d0, bytes) ==> LoneRecord(facts, d, bytes)
  }

  /** The freeze under the record in force: no cut of it changes what is due. */
  method FreezeUnder(host: Host, ghost r: Record) returns (out: Outcome<()>)
    requires host.alive
    modifies host
    ensures host.Onward()
    ensures host.alive <==> !out.Killed?
    ensures host.HandsOff()
    ensures !out.Ok? ==> host.faults > old(host.faults)
    ensures out.Ok? ==> IsFrozen(host.disk)
    ensures host.disk.secondary == old(host.disk.secondary)
    ensures host.edits == old(host.edits) ==> SameEntries(old(host.disk), host.disk)
    ensures host.edits == old(host.edits) && Steady(host.facts, old(host.disk), r) && Freezes(old(host.disk), r) ==>
      && Steady(host.facts, host.disk, r) && Freezes(host.disk, r)
      && FateOf(host.facts, host.disk) == FateOf(host.facts, old(host.disk))
    ensures Exposed(old(host.disk)) && !host.facts.chownKeepsSetgid ==> Exposed(host.disk)
    ensures host.edits == old(host.edits) ==> FreezesLone(host.facts, old(host.disk), host.disk)
  {
    hide FateOf, Steady, Freezes, Exposed, LoneRecord;
    ghost var d0 := host.disk;
    out := Freeze(host);
    if host.edits == old(host.edits) && RawPair(d0).Some?
       && LoneRecord(host.facts, d0, RawPair(d0).value.config.data) {
      FreezeKeepsLone(host.facts, d0, host.disk, RawPair(d0).value.config.data);
    }
    if host.edits == old(host.edits) && Steady(host.facts, d0, r) && Freezes(d0, r) {
      FreezeKeepsFate(host.facts, d0, host.disk, r);
    }
    if Exposed(d0) && !host.facts.chownKeepsSetgid {
      FreezeStaysExposed(host.facts, d0, host.disk);
    }
  }

  /** _recover_write_config for the record r. */
  method RecoverWrite(host: Host, r: Record) returns (out: Outcome<()>)
    requires host.alive
    requires r.Write? && ReadJournal(host.disk) == Authoritative(r)
    modifies host
    ensures host.Onward()
    ensures host.alive <==> !out.Killed?
    ensures host.edits == old(host.edits) ==>
      && Completes(host.facts, old(host.disk), host.disk, out, host.faults > old(host.faults))
      && StaysOnCourse(host.facts, old(host.disk), host.disk)
    ensures host.disk.secondary == old(host.disk.secondary)
            || (host.disk.secondary == None && IsMutable(host.disk))
    ensures r.phase == Prepared || (r.phase == Committed && IsMutable(old(host.disk))) ==>
      host.HandsOff() && (r.phase == Committed ==> IsMutable(host.disk))
    ensures r.phase == Prepared && Exposed(old(host.disk)) && !host.facts.chownKeepsSetgid ==> Exposed(host.disk)
  {
    hide Coherent;
    if !ValidWrite(host.facts, r) {
      return Raised(GuardError("invalid-journal"));
    }
    if r.phase == Committed && IsMutable(host.disk) {
      out := KeepExposedPair(host);
      return;
    }
    out := FreezeUnder(host, r);
    if !out.Ok? {
      return;
    }
    out := RecoverFrozenWrite(host, r);
  }

  /** The part of write recovery that runs under the freeze. */
  method RecoverFrozenWrite(host: Host, r: Record) returns (out: Outcome<()>)
    requires host.alive
    requires IsFrozen(host.disk) && ValidWrite(host.facts, r)
    modifies host
    ensures host.Onward()
    ensures host.alive <==> !out.Killed?
    ensures r.phase == Prepared ==> host.HandsOff() && Exposed(host.disk)
    ensures host.disk.secondary == old(host.disk.secondary)
            || (host.disk.secondary == None && IsMutable(host.disk))
    ensures !out.Ok? ==> host.faults > old(host.faults) || WriteFate(host.facts, old(host.disk), r).Refused?
    ensures host.edits == old(host.edits) ==>
      var fate := WriteFate(host.facts, old(host.disk), r);
      && (out.Ok? ==> fate.HandedBack? && Retired(host.disk) == HandedBackDisk(fate.pair))
      && (out.Ok? && host.faults == old(host.faults) ==> host.disk == HandedBackDisk(fate.pair))
      && (!out.Ok? && host.faults == old(host.faults) ==> out.Raised? && host.disk == old(host.disk))
      && (Steady(host.facts, old(host.disk), r) && fate.HandedBack? ==>
            CrashProof(host.facts, host.disk) && FateOf(host.facts, host.disk) == fate)
  {
    if Steady(host.facts, host.disk, r) {
      SteadyReads(host.facts, host.disk, r);
    }
    if r.phase == Prepared {
      var current :- SnapshotRawPair(host);
      if !MutableFiles(current) {
        return Raised(GuardError("config-not-mutable"));
      }
      out := RetireFrozen(host, r, current);
    } else {
      out := InstallAndRetire(host, r, if r.phase == Committed then r.replacements else r.originals);
    }
  }

  /** Roll forward or back under the freeze, then hand over. */
  method InstallAndRetire(host: Host, ghost r: Record, targets: Pair<Image>) returns (out: Outcome<()>)
    requires host.alive
    requires IsFrozen(host.disk) && Bounded(targets) && MutableFiles(targets)
    requires r.Write? ==> r.phase != Prepared
    modifies host
    ensures host.Onward()
    ensures host.alive <==> !out.Killed?
    ensures !out.Ok? ==> host.faults > old(host.faults) || RawPair(old(host.disk)).None?
    ensures host.disk.secondary == old(host.disk.secondary)
            || (host.disk.secondary == None && IsMutable(host.disk))
    ensures host.edits == old(host.edits) ==>
      && (out.Ok? ==> RawPair(old(host.disk)).Some? && Retired(host.disk) == HandedBackDisk(targets))
      && (out.Ok? && host.faults == old(host.faults) ==> host.disk == HandedBackDisk(targets))
      && (!out.Ok? && host.faults == old(host.faults) ==> out.Raised? && host.disk == old(host.disk))
      && (Steady(host.facts, old(host.disk), r) && Freezes(old(host.disk), r)
          && FateOf(host.facts, old(host.disk)) == HandedBack(targets) ==>
            CrashProof(host.facts, host.disk) && FateOf(host.facts, host.disk) == HandedBack(targets))
      && (RawPair(old(host.disk)).Some? && RawPair(old(host.disk)).value.config.data == targets.config.data ==>
            StaysLone(host.facts, old(host.disk), host.disk))
  {
    hide LoneRecord, Unrecorded;
    ghost var d0 := host.disk;
    out := InstallPair(host, targets);
    if LoneRecord(host.facts, d0, targets.config.data) {
      InstallKeepsLone(host.facts, d0, host.disk, targets, targets.config.data);
    }
    if Steady(host.facts, d0, r) && Freezes(d0, r) && FateOf(host.facts, d0) == HandedBack(targets) {
      InstallKeepsFate(host.facts, d0, host.disk, r, targets, targets);
    }
    if !out.Ok? {
      return;
    }
    out := RetireFrozen(host, r, targets);
  }

  /** The pair is already exposed: check it and drop the journals. */
  method KeepExposedPair(host: Host) returns (out: Outcome<()>)
    requires host.alive
    requires IsMutable(host.disk)
    modifies host
    ensures host.Onward()
    ensures host.alive <==> !out.Killed?
    ensures host.HandsOff()
    ensures host.disk.parent == old(host.disk.parent) && host.disk.config == old(host.disk.config)
    ensures host.disk.secondary == old(host.disk.secondary) || host.disk.secondary == None
    ensures host.edits == old(host.edits) ==>
      && host.disk.configFile == old(host.disk.configFile) && host.disk.hashFile == old(host.disk.hashFile)
      && (host.disk.persistent == old(host.disk.persistent) || host.disk.persistent == Vacant)
      && (host.disk.secondary == old(host.disk.secondary)
          || (host.disk.secondary == None && host.disk.persistent == Vacant))
      && (out.Ok? ==> host.disk.secondary == None && host.disk.persistent == Vacant
                      && KeepVisible(old(host.disk)).HandedBack?)
      && (!out.Ok? && host.faults == old(host.faults) ==>
            out.Raised? && !KeepVisible(old(host.disk)).HandedBack? && host.disk == old(host.disk))
  {
    var current :- SnapshotRawPair(host);
    if !MutableFiles(current) {
      return Raised(GuardError("config-not-mutable"));
    }
    var _ :- host.PutPersistent(Vacant);
    var _ :- host.PutSecondary(None);
    return Ok(());
  }

  /** The record goes under the freeze, and what follows is the handoff of a tree without one. */
  lemma RetiringStaysLone(facts: Facts, d0: Disk, d: Disk, p: Pair<Image>)
    requires IsPartial(d0) && LoneRecord(facts, d0, p.config.data)
    requires RetireCut(facts, d0, d) && Holds(d0, p) && Holds(d, p) && Bounded(p) && MutableFiles(p)
    requires d.persistent == Vacant || d == d0
    ensures LoneRecord(facts, d, p.config.data) || Unrecorded(facts, d, p.config.data)
  {
    hide LoneRecord;
    if d != d0 {
      assert RawPair(d) == Some(p) == RawPair(d0);
      ClearedIsUnrecorded(facts, d0, p.config.data);
      var cleared := d0.(persistent := Vacant);
      if HandoffCut(facts, d0, d) {
        assert IsPartial(cleared) && HandoffCut(facts, cleared, d);
        OrphanHandoffStaysUnrecorded(facts, cleared, d, p.config.data);
      }
    }
  }

  /** The last step of every roll-forward, roll-back and keep: hand over and retire. */
  method RetireFrozen(host: Host, ghost r: Record, ghost p: Pair<Image>) returns (out: Outcome<()>)
    requires host.alive
    requires IsPartial(host.disk) && Holds(host.disk, p) && Bounded(p) && MutableFiles(p)
    modifies host
    ensures host.Onward()
    ensures host.alive <==> !out.Killed?
    ensures host.HandsOff()
    ensures !out.Ok? ==> host.faults > old(host.faults)
    ensures out.Ok? ==> IsMutable(host.disk)
    ensures Exposed(host.disk)
    ensures host.disk.secondary == old(host.disk.secondary)
            || (host.disk.secondary == None && IsMutable(host.disk))
    ensures host.edits == old(host.edits) ==>
      && Holds(host.disk, p)
      && (out.Ok? ==> Retired(host.disk) == HandedBackDisk(p) && host.disk.persistent == Vacant)
      && (out.Ok? && host.faults == old(host.faults) ==> host.disk.secondary.None?)
      && (Steady(host.facts, old(host.disk), r)
          && FateOf(host.facts, old(host.disk)) == HandedBack(p) ==>
            CrashProof(host.facts, host.disk) && FateOf(host.facts, host.disk) == HandedBack(p))
      && StaysLone(host.facts, old(host.disk), host.disk)
  {
    hide LoneRecord, Unrecorded;
    ghost var d0 := host.disk;
    out := CommitMutableAndRetireJournal(host);
    RetiringStaysExposed(host.facts, d0, host.disk);
    if host.edits == old(host.edits) && LoneRecord(host.facts, d0, p.config.data) {
      RetiringStaysLone(host.facts, d0, host.disk, p);
    }
    if host.edits == old(host.edits) && Steady(host.facts, d0, r)
       && FateOf(host.facts, d0) == HandedBack(p) {
      HandoffKeepsFate(host.facts, d0, host.disk, r, p);
    }
  }

  /** _clear_journal where the caller tolerates an error but not a kill. */
  method TryClearJournals(host: Host) returns (out: Outcome<()>)
    requires host.alive
    modifies host
    ensures host.Onward()
    ensures host.alive <==> !out.Killed?
    ensures host.HandsOff()
    ensures !out.Ok? ==> host.faults > old(host.faults)
    ensures host.disk.parent == old(host.disk.parent) && host.disk.config == old(host.disk.config)
    ensures !SandboxReaches(old(host.disk)) ==> host.edits == old(host.edits)
    ensures host.edits == old(host.edits) ==>
      && JournalsShrink(old(host.disk), host.disk)
      && (host.faults == old(host.faults) ==> host.disk == Retired(old(host.disk)))
  {
    var first := host.PutPersistent(Vacant);
    if !first.Ok? {
      return if first.Killed? then Killed else Ok(());
    }
    var second := host.PutSecondary(None);
    return if second.Killed? then Killed else Ok(());
  }

  /** _recover_restart for the record r. */
  method RecoverRestart(host: Host, r: Record) returns (out: Outcome<()>)
    requires host.alive
    requires r.Restart? && ReadJournal(host.disk) == Authoritative(r)
    modifies host
    ensures host.Onward()
    ensures host.alive <==> !out.Killed?
    ensures host.edits == old(host.edits) ==>
      && Completes(host.facts, old(host.disk), host.disk, out, host.faults > old(host.faults))
      && StaysOnCourse(host.facts, old(host.disk), host.disk)
      && StaysLone(host.facts, old(host.disk), host.disk)
    ensures r.originalLocked ==>
      && host.HandsOff()
      && host.disk.parent == old(host.disk.parent) && host.disk.config == old(host.disk.config)
      && (!SandboxReaches(old(host.disk)) ==> host.edits == old(host.edits))
      && (host.edits == old(host.edits) ==> JournalsShrink(old(host.disk), host.disk))
  {
    hide Coherent;
    if !ValidRestart(host.facts, r) {
      return Raised(GuardError("invalid-journal"));
    }
    if r.originalLocked {
      out := KeepLockedTree(host);
      return;
    }
    if r.restartPhase == SealPrepared || (r.restartPhase == UnsealCommitted && IsMutable(host.disk)) {
      out := KeepVisibleRestart(host, r);
      return;
    }
    out := FreezeUnder(host, r);
    if !out.Ok? {
      return;
    }
    CanonicalIsCoherent(host.facts, r.originals.config.data, false);
    out := InstallAndRetire(host, r, Canonical(host.facts, r.originals.config.data, false));
  }

  /** An originally locked tree: verify the lock, then drop the journals. */
  method KeepLockedTree(host: Host) returns (out: Outcome<()>)
    requires host.alive
    modifies host
    ensures host.Onward()
    ensures host.alive <==> !out.Killed?
    ensures host.HandsOff()
    ensures host.disk.parent == old(host.disk.parent) && host.disk.config == old(host.disk.config)
    ensures !SandboxReaches(old(host.disk)) ==> host.edits == old(host.edits)
    ensures host.edits == old(host.edits) ==>
      var fate := KeepLocked(host.facts, old(host.disk));
      && (out.Ok? && host.faults == old(host.faults) ==>
            fate.LeftLocked? && host.disk == LockedDisk(fate.pair))
      && (out.Ok? ==> fate.LeftLocked?)
      && (!out.Ok? && host.faults == old(host.faults) ==>
            out.Raised? && !fate.LeftLocked? && host.disk == old(host.disk))
      && JournalsShrink(old(host.disk), host.disk)
  {
    var pair :- SnapshotPair(host);
    if !(IsLocked(host.disk) && LockedFiles(pair)) {
      return Raised(GuardError("config-not-locked"));
    }
    out := TryClearJournals(host);
  }

  /** The visible pair stands: finish a handoff that was under way, drop the journals. */
  method KeepVisibleRestart(host: Host, r: Record) returns (out: Outcome<()>)
    requires host.alive
    requires ReadJournal(host.disk) == Authoritative(r) && ValidRestart(host.facts, r) && !r.originalLocked
    requires r.restartPhase == SealPrepared || (r.restartPhase == UnsealCommitted && IsMutable(host.disk))
    modifies host
    ensures host.Onward()
    ensures host.alive <==> !out.Killed?
    ensures host.HandsOff()
    ensures host.edits == old(host.edits) ==>
      && Completes(host.facts, old(host.disk), host.disk, out, host.faults > old(host.faults))
      && StaysOnCourse(host.facts, old(host.disk), host.disk)
  {
    hide Coherent, WriteFate;
    var current :- SnapshotRawPair(host);
    if !MutableFiles(current) {
      return Raised(GuardError("config-not-mutable"));
    }
    if !host.facts.json5Object(current.config.data) {
      return Raised(GuardError("invalid-config-json5"));
    }
    if !IsMutable(host.disk) {
      if !IsPartial(host.disk) {
        return Raised(GuardError("invalid-recovery-posture"));
      }
      var _ :- RetireFrozen(host, r, current);
    }
    out := TryClearJournals(host);
  }

  /** A tree without a record keeps its config bytes, and a run that succeeds leaves no
      half-frozen posture that recovery would recognise. */
  predicate StaysUnrecorded(facts: Facts, d0: Disk, d: Disk, out: Outcome<()>) {
    RawPair(d0).Some? ==>
      var bytes := RawPair(d0).value.config.data;
      Unrecorded(facts, d0, bytes) ==> Unrecorded(facts, d, bytes) && (out.Ok? ==> !IsPartial(d))
  }

  /** _recover_any_transaction with no journal: the posture decides. */
  method RecoverUnjournaled(host: Host) returns (out: Outcome<()>)
    requires host.alive
    requires ReadJournal(host.disk) == NoJournal
    modifies host
    ensures host.Onward()
    ensures host.alive <==> !out.Killed?
    ensures host.edits == old(host.edits) ==>
      && Completes(host.facts, old(host.disk), host.disk, out, host.faults > old(host.faults))
      && StaysOnCourse(host.facts, old(host.disk), host.disk)
    ensures IsMutable(old(host.disk)) ==> host.HandsOff() && host.disk == old(host.disk)
    ensures IsLocked(old(host.disk)) ==>
      host.HandsOff() && host.disk == old(host.disk) && host.edits == old(host.edits)
    ensures host.edits == old(host.edits) ==> StaysUnrecorded(host.facts, old(host.disk), host.disk, out)
  {
    hide Coherent;
    ghost var d0 := host.disk;
    if IsClamped(host.disk) {
      var pair :- SnapshotPair(host);
      return if LockedFiles(pair) then Ok(()) else Raised(GuardError("config-not-locked"));
    }
    if IsPartial(host.disk) {
      var partial :- SnapshotRawPair(host);
      if MutableFiles(partial) {
        out := CommitMutableDirs(host);
        if host.edits == old(host.edits) {
          OrphanHandoffKeepsFate(host.facts, d0, host.disk);
          if Unrecorded(host.facts, d0, partial.config.data) {
            OrphanHandoffStaysUnrecorded(host.facts, d0, host.disk, partial.config.data);
          }
        }
        return;
      }
      out := CompleteOrphanLock(host, partial);
      if host.edits == old(host.edits) && Unrecorded(host.facts, d0, partial.config.data) {
        OrphanLockStaysUnrecorded(host.facts, d0, host.disk, partial.config.data);
      }
      return;
    }
    if IsLocked(host.disk) {
      var pair :- SnapshotPair(host);
      return if LockedFiles(pair) then Ok(()) else Raised(GuardError("config-not-locked"));
    }
    return Ok(());
  }

  /** An orphaned lock or unlock: finish it as a lock over the visible config bytes. */
  method CompleteOrphanLock(host: Host, partial: Pair<Image>) returns (out: Outcome<()>)
    requires host.alive
    requires RawPair(host.disk) == Some(partial)
    modifies host
    ensures host.Onward()
    ensures host.alive <==> !out.Killed?
    ensures !out.Ok? ==> host.faults > old(host.faults) || host.edits > old(host.edits)
    ensures host.edits == old(host.edits) && host.faults == old(host.faults) ==>
      Retired(host.disk) == LockedDisk(Canonical(host.facts, partial.config.data, true))
      && host.disk.secondary == old(host.disk.secondary) && host.disk.persistent == old(host.disk.persistent)
    // No directory is locked before both files are.
    ensures host.edits == old(host.edits) ==>
      && OrphanLockCut(host.facts, old(host.disk), Canonical(host.facts, partial.config.data, true), host.disk)
      && (out.Ok? ==> IsLocked(host.disk) && Holds(host.disk, Canonical(host.facts, partial.config.data, true)))
  {
    CanonicalIsCoherent(host.facts, partial.config.data, true);
    var _ :- InstallPair(host, Canonical(host.facts, partial.config.data, true));
    var _ :- CommitLockedDirs(host);
    return Ok(());
  }

  /** Freeze, and move what lies at the reserved name. */
  method FreezeAndClear(host: Host) returns (out: Outcome<()>)
    requires host.alive
    requires host.disk.secondary.None?
    modifies host
    ensures host.Onward()
    ensures host.alive <==> !out.Killed?
    ensures host.HandsOff()
    ensures host.disk.secondary.None?
    ensures out.Ok? ==> IsFrozen(host.disk) && host.disk.persistent == Vacant
    ensures host.edits == old(host.edits) ==>
      && host.disk.configFile == old(host.disk.configFile) && host.disk.hashFile == old(host.disk.hashFile)
      && (out.Ok? ==> host.disk == Frozen(old(host.disk)).(persistent := Vacant))
      && (!out.Ok? && host.faults == old(host.faults) ==> !Quarantinable(old(host.disk.persistent)))
      && StaysLone(host.facts, old(host.disk), host.disk)
  {
    hide LoneRecord, Unrecorded;
    ghost var d0 := host.disk;
    out := Freeze(host);
    ghost var d1 := host.disk;
    if host.edits == old(host.edits) && RawPair(d0).Some?
       && LoneRecord(host.facts, d0, RawPair(d0).value.config.data) {
      FreezeKeepsLone(host.facts, d0, d1, RawPair(d0).value.config.data);
    }
    if !out.Ok? {
      return;
    }
    out := Quarantine(host);
    if RawPair(d1).Some? && LoneRecord(host.facts, d1, RawPair(d1).value.config.data) {
      ClearedIsUnrecorded(host.facts, d1, RawPair(d1).value.config.data);
    }
  }

  /** _clear_untrusted_mutable_reserved_entry: freeze, drop the entry, hand the tree back. */
  method ClearUntrustedEntry(host: Host) returns (out: Outcome<()>)
    requires host.alive
    requires IsMutable(host.disk) && host.disk.secondary.None?
    modifies host
    ensures host.Onward()
    ensures host.alive <==> !out.Killed?
    ensures host.HandsOff()
    ensures host.edits == old(host.edits) ==>
      var fate := KeepVisible(old(host.disk));
      && (out.Ok? ==> fate.HandedBack? && host.disk == HandedBackDisk(fate.pair))
      && (!out.Ok? && host.faults == old(host.faults) && Quarantinable(old(host.disk.persistent)) ==>
            && out.Raised? && !fate.HandedBack?
            && host.disk == Frozen(old(host.disk)).(persistent := Vacant))
      && host.disk.configFile == old(host.disk.configFile) && host.disk.hashFile == old(host.disk.hashFile)
      && StaysLone(host.facts, old(host.disk), host.disk)
  {
    hide LoneRecord, Unrecorded;
    var _ :- FreezeAndClear(host);
    ghost var d2 := host.disk;
    var current :- SnapshotRawPair(host);
    FrozenIsUnrecorded(host.facts, d2, RawPair(d2).value.config.data);
    if !MutableFiles(current) {
      return Raised(GuardError("config-not-mutable"));
    }
    out := CommitMutableDirs(host);
    if host.edits == old(host.edits) {
      OrphanHandoffStaysUnrecorded(host.facts, d2, host.disk, current.config.data);
    }
  }

  /** Every cut of a containment that met no failing call is a tree without a record over the
      same bytes. */
  lemma ContainmentStaysUnrecorded(facts: Facts, d0: Disk, d: Disk, bytes: Bytes)
    requires IsFrozen(d0) && Unrecorded(facts, d0, bytes)
    requires d.secondary == None && d.persistent == Vacant && KeepsCapture(d0, d)
    requires d.config == d0.config || d.config == CLAMPED_CONFIG || d.config == LOCKED_CONFIG
    requires d.parent != d0.parent ==>
      d.config == LOCKED_CONFIG && ParentLockCut(d0.parent, d.parent) && (IsLocked(d) ==> SealedOver(facts, d, bytes))
    ensures Unrecorded(facts, d, bytes)
  {
    hide Coherent, Canonical;
    if IsLocked(d) {
      SealedIsCoherent(facts, d, bytes);
    }
  }

  /** The fail-closed lock of a frozen tree, and its verification. */
  method LockFrozen(host: Host) returns (out: Outcome<()>)
    requires host.alive
    requires IsFrozen(host.disk) && host.disk.secondary.None? && host.disk.persistent == Vacant
    modifies host
    ensures host.Onward() && host.edits == old(host.edits)
    ensures host.alive <==> !out.Killed?
    ensures out.Ok? ==> IsLocked(host.disk)
    ensures host.faults == old(host.faults) ==>
      var config := Captured(old(host.disk).configFile, MAX_CONFIG_BYTES);
      && (config.Some? ==> out.Ok? && host.disk == LockedDisk(Canonical(host.facts, config.value.data, true)))
      && (config.None? ==> out.Raised? && host.disk == SEVERED_DISK)
    ensures RawPair(old(host.disk)).Some? && host.faults <= old(host.faults) + 1 ==>
      KeepsCapture(old(host.disk), host.disk)
    ensures RawPair(old(host.disk)).Some? && host.errors == old(host.errors) ==>
      Unrecorded(host.facts, host.disk, RawPair(old(host.disk)).value.config.data)
  {
    hide Coherent, HashRecord.RecordFor, Unrecorded;
    ghost var d0, config := host.disk, Captured(host.disk.configFile, MAX_CONFIG_BYTES);
    if RawPair(d0).Some? {
      FrozenIsUnrecorded(host.facts, d0, RawPair(d0).value.config.data);
      CanonicalIsCoherent(host.facts, RawPair(d0).value.config.data, true);
    }
    out := ForceFailClosedLock(host);
    if host.errors == old(host.errors) && RawPair(d0).Some? {
      ContainmentStaysUnrecorded(host.facts, d0, host.disk, RawPair(d0).value.config.data);
    }
    if !out.Ok? {
      return;
    }
    if !IsLocked(host.disk) {
      return Raised(GuardError("fail-closed-incomplete"));
    }
    if config.Some? && SealedOver(host.facts, host.disk, config.value.data) {
      SealedIsCoherent(host.facts, host.disk, config.value.data);
    }
    var _ :- SnapshotPair(host);
    return Ok(());
  }

  lemma FrozenIsUnrecorded(facts: Facts, d: Disk, bytes: Bytes)
    requires IsFrozen(d) && d.secondary == None && d.persistent == Vacant
    requires RawPair(d).Some? && RawPair(d).value.config.data == bytes
    ensures Unrecorded(facts, d, bytes)
  {
    hide KeepLocked;
  }

  /** _contain_partial_replay: an in-tree record without its peer, in a half-frozen tree. */
  method ContainPartialReplay(host: Host) returns (out: Outcome<()>)
    requires host.alive
    requires host.disk.secondary.None?
    modifies host
    ensures host.Onward()
    ensures host.alive <==> !out.Killed?
    ensures out.Ok? ==> IsLocked(host.disk)
    ensures host.edits == old(host.edits) && host.faults == old(host.faults)
            && Quarantinable(old(host.disk.persistent)) ==>
      var config := Captured(old(host.disk).configFile, MAX_CONFIG_BYTES);
      && (config.Some? ==> out.Ok? && host.disk == LockedDisk(Canonical(host.facts, config.value.data, true)))
      && (config.None? ==> out.Raised? && host.disk == SEVERED_DISK)
    ensures host.edits == old(host.edits) && RawPair(old(host.disk)).Some? && host.faults <= old(host.faults) + 1 ==>
      KeepsCapture(old(host.disk), host.disk)
    ensures host.edits == old(host.edits) && host.errors == old(host.errors) ==>
      StaysLone(host.facts, old(host.disk), host.disk)
  {
    hide Coherent, LoneRecord, Unrecorded;
    var _ :- FreezeAndClear(host);
    out := LockFrozen(host);
  }

  /** The visible pair is final: it was handed back, or no replacement ever began. */
  predicate VisibleStands(d: Disk) {
    && d.persistent == Vacant
    && (match d.secondary
        case None => IsMutable(d)
        case Some(r) => r.Write? && (r.phase == Prepared || (r.phase == Committed && IsMutable(d))))
  }

  /** The reserved name holds something without authority. */
  method RecoverUntrusted(host: Host) returns (out: Outcome<()>)
    requires host.alive
    requires var pending := ReadJournal(host.disk); pending.Replayed? || pending.Untrusted?
    modifies host
    ensures host.Onward()
    ensures host.alive <==> !out.Killed?
    ensures host.edits == old(host.edits) ==>
      && Completes(host.facts, old(host.disk), host.disk, out, host.faults > old(host.faults))
      && (host.errors == old(host.errors) ==> StaysLone(host.facts, old(host.disk), host.disk))
      && (RawPair(old(host.disk)).Some? && host.faults <= old(host.faults) + 1 ==>
            KeepsCapture(old(host.disk), host.disk))
  {
    hide Coherent, LoneRecord, Unrecorded;
    if ReadJournal(host.disk).Replayed? {
      if IsPartial(host.disk) {
        out := ContainPartialReplay(host);
      } else {
        out := ClearUntrustedEntry(host);
      }
      return;
    }
    if host.disk.secondary.Some? || !IsMutable(host.disk) {
      return Raised(GuardError("unsafe-journal"));
    }
    var current :- SnapshotRawPair(host);
    if !MutableFiles(current) {
      return Raised(GuardError("config-not-mutable"));
    }
    if !Disposable(host.disk.persistent) {
      return Raised(GuardError("unsafe-journal"));
    }
    out := ClearUntrustedEntry(host);
  }

  /** A capturable pair in a tree whose reserved name holds something that is not believed. */
  predicate WithoutAuthority(d: Disk) {
    var pending := ReadJournal(d);
    (pending.Replayed? || pending.Untrusted?) && RawPair(d).Some?
  }

  /** What one run of recovery promises, whatever the world does meanwhile. */
  twostate predicate Recovers(host: Host, out: Outcome<()>)
    reads host
  {
    && (host.edits == old(host.edits) ==>
          && Completes(host.facts, old(host.disk), host.disk, out, host.faults > old(host.faults))
          && StaysOnCourse(host.facts, old(host.disk), host.disk)
          && StaysUnrecorded(host.facts, old(host.disk), host.disk, out)
          && (host.errors == old(host.errors) ==> StaysLone(host.facts, old(host.disk), host.disk))
          && (WithoutAuthority(old(host.disk)) && host.faults <= old(host.faults) + 1 ==>
                KeepsCapture(old(host.disk), host.disk)))
    && (host.filesOnly && VisibleStands(old(host.disk)) ==> host.HandsOff() && VisibleStands(host.disk))
    && (RecordStands(host.facts, old(host.disk)) ==>
          && host.HandsOff()
          && (RecordStands(host.facts, host.disk) || (host.disk.secondary.None? && IsMutable(host.disk))))
    && (LockedBefore(old(host.disk)) ==>
          host.HandsOff() && host.edits == old(host.edits) && JournalsShrink(old(host.disk), host.disk))
  }

  /** The recover action once the journals have been read. */
  method RecoverRead(host: Host) returns (out: Outcome<()>)
    requires host.alive
    modifies host
    ensures host.Onward()
    ensures host.alive <==> !out.Killed?
    ensures Recovers(host, out)
  {
    hide Coherent, UnjournaledFate, UntrustedFate, WriteFate, RestartFate, KeepLocked;
    match ReadJournal(host.disk)
    case NoJournal =>
      out := RecoverUnjournaled(host);
    case Authoritative(r) =>
      if r.Write? {
        out := RecoverWrite(host, r);
      } else {
        out := RecoverRestart(host, r);
      }
    case Replayed =>
      out := RecoverUntrusted(host);
    case Untrusted =>
      out := RecoverUntrusted(host);
  }

  /** The recover action, from the first journal read to the exit status. */
  method Recover(host: Host) returns (out: Outcome<()>)
    requires host.alive
    modifies host
    ensures host.Onward()
    ensures host.alive <==> !out.Killed?
    ensures Recovers(host, out)
  {
    hide Coherent, FateOf, Unrecorded;
    var _ :- host.Observe();
    out := RecoverRead(host);
  }

  /** A tree that recovery settles, however often it is interrupted. */
  predicate Recoverable(facts: Facts, d: Disk) {
    || CrashProof(facts, d) || LockStands(facts, d)
    || (RawPair(d).Some? && Unrecorded(facts, d, RawPair(d).value.config.data))
  }

  /** What was due at d0 is still due at d, and is there once a run has finished. */
  predicate StillDue(facts: Facts, d0: Disk, d: Disk, done: bool) {
    && (CrashProof(facts, d0) ==>
          && CrashProof(facts, d) && FateOf(facts, d) == FateOf(facts, d0)
          && (done ==> d == HandedBackDisk(FateOf(facts, d0).pair)))
    && (LockedBefore(d0) ==> LockedBefore(d) && JournalsShrink(d0, d))
    && (LockStands(facts, d0) ==> LockStands(facts, d) && (done ==> d == Retired(d0)))
    && (RawPair(d0).Some? && Unrecorded(facts, d0, RawPair(d0).value.config.data) ==>
          Unrecorded(facts, d, RawPair(d0).value.config.data) && (done ==> !IsPartial(d)))
  }

  predicate Finished(d: Disk, out: Outcome<()>) {
    out.Ok? && d.secondary.None? && d.persistent.Vacant?
  }

  /** One more run that nobody edited under: a run that does not finish has spent a fault. */
  lemma RunKeepsDue(facts: Facts, d0: Disk, d1: Disk, d: Disk, out: Outcome<()>, spent: bool)
    requires StillDue(facts, d0, d1, false)
    requires Completes(facts, d1, d, out, spent) && StaysOnCourse(facts, d1, d)
    requires LockedBefore(d1) ==> JournalsShrink(d1, d)
    requires StaysUnrecorded(facts, d1, d, out)
    ensures StillDue(facts, d0, d, Finished(d, out))
    ensures Recoverable(facts, d0) && !Finished(d, out) ==> spent
  {
    if LockedBefore(d1) {
      ShrinkingKeepsLock(facts, d1, d);
    }
  }

  predicate BeganLone(facts: Facts, d: Disk) {
    RawPair(d).Some? && LoneRecord(facts, d, RawPair(d).value.config.data)
  }

  /** A tree with a lone record, or what has become of it: still the same bytes, and without
      a record and no longer half-frozen once a run has finished. */
  predicate StillLone(facts: Facts, d0: Disk, d: Disk, done: bool) {
    RawPair(d0).Some? ==>
      var bytes := RawPair(d0).value.config.data;
      LoneRecord(facts, d0, bytes) ==>
        if done then Unrecorded(facts, d, bytes) && !IsPartial(d)
        else LoneRecord(facts, d, bytes) || Unrecorded(facts, d, bytes)
  }

  /** An undisturbed run clears a lone record away, also if it is refused. */
  lemma LoneIsCleared(facts: Facts, d: Disk, bytes: Bytes)
    requires LoneRecord(facts, d, bytes)
    ensures Unrecorded(facts, FinalDisk(facts, d), bytes)
    ensures FateOf(facts, d) != Refused ==> !IsPartial(FinalDisk(facts, d))
  {
    hide Coherent;
    CanonicalIsCoherent(facts, bytes, true);
    CanonicalIsCoherent(facts, bytes, false);
  }

  /** One more run that nobody edited under and in which no call failed but by a kill. A run
      that neither finishes nor is killed takes the record away, and that happens once. */
  lemma RunKeepsLone(facts: Facts, d0: Disk, d1: Disk, d: Disk, out: Outcome<()>, spent: bool)
    requires StillLone(facts, d0, d1, false)
    requires Completes(facts, d1, d, out, spent) && (spent ==> !out.Ok?)
    requires StaysLone(facts, d1, d) && StaysUnrecorded(facts, d1, d, out)
    ensures StillLone(facts, d0, d, Finished(d, out))
    ensures BeganLone(facts, d0) && !Finished(d, out) && !spent ==> d1.persistent.Journal? && d.persistent.Vacant?
    ensures BeganLone(facts, d0) && d1.persistent.Vacant? ==> d.persistent.Vacant?
  {
    hide LoneRecord, Unrecorded, FateOf, FinalDisk;
    if BeganLone(facts, d0) {
      var bytes := RawPair(d0).value.config.data;
      LoneOrNot(facts, d1, bytes);
      LoneOrNot(facts, d, bytes);
      if LoneRecord(facts, d1, bytes) {
        LoneIsCleared(facts, d1, bytes);
      } else {
        UnrecordedFinishes(facts, d1, bytes);
      }
    }
  }

  lemma LoneOrNot(facts: Facts, d: Disk, bytes: Bytes)
    ensures LoneRecord(facts, d, bytes) || Unrecorded(facts, d, bytes) ==>
      RawPair(d).Some? && RawPair(d).value.config.data == bytes && d.secondary == None
    ensures LoneRecord(facts, d, bytes) ==> d.persistent.Journal?
    ensures Unrecorded(facts, d, bytes) ==> d.persistent == Vacant
  {
  }

  lemma UnrecordedFinishes(facts: Facts, d: Disk, bytes: Bytes)
    requires Unrecorded(facts, d, bytes)
    ensures FateOf(facts, d) != Refused
    ensures FinalDisk(facts, d).secondary == None && FinalDisk(facts, d).persistent == Vacant
  {
  }

  /** Recovery, restarted after every kill or failed call, finishes within two runs more than
      the world has events left. A tree due to be handed back is; a tree that was locked before
      a restart keeps its directories and files, and loses its journals if recovery accepts
      them; a tree without a record keeps its config bytes and ends mutable, locked, or in the
      one posture that only lock completes. So does a tree whose only record is the one inside,
      sealed or not, if no call fails but by a kill. */
  method RecoverUntilDone(host: Host)
    modifies host
    ensures host.Later()
    ensures host.edits == old(host.edits) && CrashProof(host.facts, old(host.disk)) ==>
      host.disk == HandedBackDisk(FateOf(host.facts, old(host.disk)).pair)
    ensures LockedBefore(old(host.disk)) ==> JournalsShrink(old(host.disk), host.disk) && host.HandsOff()
    ensures LockStands(host.facts, old(host.disk)) ==> host.disk == Retired(old(host.disk))
    ensures host.edits == old(host.edits) && RawPair(old(host.disk)).Some? ==>
      var bytes := RawPair(old(host.disk)).value.config.data;
      Unrecorded(host.facts, old(host.disk), bytes)
      || (LoneRecord(host.facts, old(host.disk), bytes) && host.errors == old(host.errors)) ==>
        Unrecorded(host.facts, host.disk, bytes) && !IsPartial(host.disk)
  {
    hide LoneRecord, FateOf, FinalDisk, CrashProof;
    ghost var d0, f0, e0, n0 := host.disk, host.faults, host.edits, host.errors;
    var attempts, done := |host.schedule| + 2, false;
    ghost var budget, cleared := attempts, 0;
    while attempts > 0 && !done
      invariant host.Later() && attempts <= budget && 0 <= cleared <= 1
      invariant host.edits == e0 ==> StillDue(host.facts, d0, host.disk, done)
      invariant LockedBefore(d0) ==> host.HandsOff() && host.edits == e0
      invariant host.edits == e0 && !done && Recoverable(host.facts, d0) ==> host.faults - f0 >= budget - attempts
      invariant host.edits == e0 && host.errors == n0 ==> StillLone(host.facts, d0, host.disk, done)
      invariant cleared == 1 && BeganLone(host.facts, d0) ==>
                  host.edits != e0 || host.errors != n0 || host.disk.persistent.Vacant?
      invariant host.edits == e0 && host.errors == n0 && !done && BeganLone(host.facts, d0) ==>
        host.faults - f0 + cleared >= budget - attempts
      decreases attempts
    {
      host.Start();
      ghost var d1, f1, n1 := host.disk, host.faults, host.errors;
      var out := Recover(host);
      done := Finished(host.disk, out);
      attempts := attempts - 1;
      if host.edits == e0 {
        RunKeepsDue(host.facts, d0, d1, host.disk, out, host.faults > f1);
        if host.errors == n0 {
          RunKeepsLone(host.facts, d0, d1, host.disk, out, host.faults > f1);
          if d1.persistent.Journal? && host.disk.persistent.Vacant? {
            cleared := 1;
          }
        }
      }
    }
  }

  /** No lost edits: over any number of recovery runs, each killed or failed anywhere, with
      the sandbox editing the two files at any moment it can, the guard never writes either
      file once the visible pair stands. Every byte in them is the sandbox's own. */
  method RecoverRepeatedly(host: Host, runs: nat) returns (outcomes: seq<Outcome<()>>)
    requires host.filesOnly && VisibleStands(host.disk)
    modifies host
    ensures host.installs == old(host.installs) && VisibleStands(host.disk) && |outcomes| == runs
  {
    outcomes := [];
    for i := 0 to runs
      invariant host.HandsOff() && VisibleStands(host.disk) && |outcomes| == i
    {
      host.Start();
      var out := Recover(host);
      outcomes := outcomes + [out];
    }
  }

  /** The same against a sandbox that may also write the reserved name, on a platform whose
      freeze is never stranded: as long as the record is in /etc, the guard writes neither file. */
  method RecoverWhilePending(host: Host, runs: nat) returns (outcomes: seq<Outcome<()>>)
    requires RecordStands(host.facts, host.disk)
    modifies host
    ensures host.installs == old(host.installs) && |outcomes| <= runs
    ensures if host.disk.secondary.Some? then |outcomes| == runs && RecordStands(host.facts, host.disk)
            else IsMutable(host.disk)
  {
    outcomes := [];
    while |outcomes| < runs && host.disk.secondary.Some?
      invariant host.HandsOff() && |outcomes| <= runs
      invariant if host.disk.secondary.Some? then RecordStands(host.facts, host.disk) else IsMutable(host.disk)
      decreases runs - |outcomes|
    {
      host.Start();
      var out := Recover(host);
      outcomes := outcomes + [out];
    }
  }
}
