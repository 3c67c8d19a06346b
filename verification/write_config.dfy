/** The write-config action: a compare-and-swap of the config pair under a freeze, with
    a journal that says at every moment which pair a crash must leave behind. */
module WriteConfig {
  import opened Basics
  import opened GuardTypes
  import opened RecoverySpec
  import opened HostModel
  import opened Transitions
  import opened RecoveryStability
  import opened Lockdown
  import R = Recover
  import HashRecord

  /** _journal_record with _replacement_records. */
  function JournalRecord(facts: Facts, phase: WritePhase, originals: Pair<Image>, expected: Digest,
                         replacement: Bytes): Record {
    Write(phase, expected, facts.sha256(replacement), originals, Canonical(facts, replacement, false))
  }

  /** Whatever this action writes to a journal, recovery decodes and accepts. */
  lemma JournalRecordIsValid(facts: Facts, phase: WritePhase, originals: Pair<Image>, expected: Digest,
                             replacement: Bytes)
    requires Bounded(originals) && MutableFiles(originals) && |replacement| <= MAX_CONFIG_BYTES
    ensures ValidWrite(facts, JournalRecord(facts, phase, originals, expected, replacement))
    ensures Bounded(Canonical(facts, replacement, false)) && MutableFiles(Canonical(facts, replacement, false))
    ensures Coherent(facts, Canonical(facts, replacement, false))
  {
    CanonicalIsCoherent(facts, replacement, false);
  }

  /** The crash verdict: the pair that recovery owes, read off the /etc record alone.
      Before Applying it is the pair on disk, from Committed on it is the new pair. */
  predicate Owes(facts: Facts, d: Disk, frozen: Pair<Image>, next: Pair<Image>) {
    && CrashProof(facts, d)
    && (match d.secondary
        case None => IsMutable(d) && FateOf(facts, d) == HandedBack(next)
        case Some(r) =>
          r.Write? && FateOf(facts, d) == HandedBack(if r.phase == Committed then next else frozen))
  }

  /** Publish the Applying record: from here on the frozen pair is owed, not the visible one. */
  method JournalApplying(host: Host, frozen: Pair<Image>, expected: Digest, replacement: Bytes)
    returns (out: Outcome<()>)
    requires host.alive
    requires IsFrozen(host.disk) && host.disk.persistent == Vacant
    requires RawPair(host.disk) == Some(frozen) && MutableFiles(frozen)
    requires |replacement| <= MAX_CONFIG_BYTES
    requires host.disk.secondary.Some? && host.disk.secondary.value.Write?
    requires host.disk.secondary.value.phase == Prepared && ValidWrite(host.facts, host.disk.secondary.value)
    modifies host
    ensures host.Onward() && host.edits == old(host.edits)
    ensures host.alive <==> !out.Killed?
    ensures IsFrozen(host.disk)
    ensures host.disk.secondary.Some? && host.disk.secondary.value.Write?
    ensures host.disk.secondary.value.phase != Committed
    ensures Owes(host.facts, host.disk, frozen, Canonical(host.facts, replacement, false))
    ensures !host.disk.persistent.Planted?
    ensures out.Ok? ==> RawPair(host.disk) == Some(frozen) && host.disk.persistent.Journal?
    ensures out.Ok? ==>
      host.disk.secondary == Some(JournalRecord(host.facts, Applying, frozen, expected, replacement))
    ensures !out.Ok? ==> host.faults > old(host.faults)
    ensures out.Raised? ==> !out.error.HandoffError?
  {
    JournalRecordIsValid(host.facts, Applying, frozen, expected, replacement);
    out := WriteBothJournals(host, JournalRecord(host.facts, Applying, frozen, expected, replacement));
  }

  /** Applying record, both replacements, read-back. */
  method ReplaceFrozenPair(host: Host, frozen: Pair<Image>, expected: Digest, replacement: Bytes)
    returns (out: Outcome<()>)
    requires host.alive
    requires IsFrozen(host.disk) && host.disk.persistent == Vacant
    requires RawPair(host.disk) == Some(frozen) && MutableFiles(frozen)
    requires |replacement| <= MAX_CONFIG_BYTES
    requires host.disk.secondary.Some? && host.disk.secondary.value.Write?
    requires host.disk.secondary.value.phase == Prepared && ValidWrite(host.facts, host.disk.secondary.value)
    modifies host
    ensures host.Onward() && host.edits == old(host.edits)
    ensures host.alive <==> !out.Killed?
    ensures IsFrozen(host.disk)
    ensures host.disk.secondary.Some? && host.disk.secondary.value.Write?
    ensures host.disk.secondary.value.phase != Committed
    ensures Owes(host.facts, host.disk, frozen, Canonical(host.facts, replacement, false))
    ensures !host.disk.persistent.Planted?
    ensures out.Ok? ==> Holds(host.disk, Canonical(host.facts, replacement, false))
    ensures out.Ok? ==> host.disk.persistent.Journal?
    ensures !out.Ok? ==> host.faults > old(host.faults)
    ensures out.Raised? ==> !out.error.HandoffError?
  {
    var next := Canonical(host.facts, replacement, false);
    JournalRecordIsValid(host.facts, Applying, frozen, expected, replacement);
    var _ :- JournalApplying(host, frozen, expected, replacement);
    ghost var d1 := host.disk;
    out := PublishPair(host, next);
    InstallKeepsFate(host.facts, d1, host.disk, d1.secondary.value, frozen, next);
  }

  /** The two fresh replacements, each verified, and the strict capture of the result. */
  method PublishPair(host: Host, next: Pair<Image>) returns (out: Outcome<()>)
    requires host.alive
    requires !SandboxReaches(host.disk) && RawPair(host.disk).Some?
    requires Bounded(next) && Coherent(host.facts, next)
    modifies host
    ensures host.Onward() && host.edits == old(host.edits)
    ensures host.alive <==> !out.Killed?
    ensures InstallCut(old(host.disk), next, host.disk)
    ensures out.Ok? ==> Holds(host.disk, next)
    ensures !out.Ok? ==> host.faults > old(host.faults)
    ensures out.Raised? ==> !out.error.HandoffError?
  {
    hide Coherent;
    var _ :- host.PublishConfig(Regular(next.config, 1));
    var _ :- host.PublishHash(Regular(next.hash, 1));
    var _ :- host.Observe();
    var _ :- host.Observe();
    var _ :- SnapshotPair(host);
    return Ok(());
  }

  /** Committed record, then the handoff. */
  method CommitReplacement(host: Host, ghost frozen: Pair<Image>, originals: Pair<Image>, expected: Digest,
                           replacement: Bytes)
    returns (out: Outcome<()>)
    requires host.alive
    requires IsFrozen(host.disk) && host.disk.persistent.Journal?
    requires Bounded(originals) && MutableFiles(originals) && |replacement| <= MAX_CONFIG_BYTES
    requires host.disk.secondary.Some? && host.disk.secondary.value.Write?
    requires host.disk.secondary.value.phase != Committed
    requires Holds(host.disk, Canonical(host.facts, replacement, false))
    requires Owes(host.facts, host.disk, frozen, Canonical(host.facts, replacement, false))
    modifies host
    ensures host.Onward()
    ensures host.alive <==> !out.Killed?
    ensures host.installs == old(host.installs)
    ensures host.edits == old(host.edits) ==>
      && Owes(host.facts, host.disk, frozen, Canonical(host.facts, replacement, false))
      && !host.disk.persistent.Planted?
    ensures host.edits == old(host.edits) && out.Ok? ==>
      Retired(host.disk) == HandedBackDisk(Canonical(host.facts, replacement, false))
    ensures out.Ok? ==> IsMutable(host.disk)
    ensures !out.Ok? ==> host.faults > old(host.faults)
    ensures out.Raised? && out.error.HandoffError? ==> host.disk.config == MUTABLE_CONFIG
    ensures out.Raised? && !out.error.HandoffError? ==>
      host.disk.secondary.Some? && host.disk.secondary.value.Write? && !IsMutable(host.disk)
  {
    hide HashRecord.Matches, HashRecord.RecordFor;
    var next := Canonical(host.facts, replacement, false);
    var committed := JournalRecord(host.facts, Committed, originals, expected, replacement);
    JournalRecordIsValid(host.facts, Committed, originals, expected, replacement);
    out := WriteBothJournals(host, committed);
    if !out.Ok? {
      return;
    }
    out := CommitMutableAndRetireJournal(host);
  }

  /** Each name holds its image from one of the two pairs. */
  predicate Between(p: Pair<Image>, a: Pair<Image>, b: Pair<Image>) {
    (p.config == a.config || p.config == b.config) && (p.hash == a.hash || p.hash == b.hash)
  }

  predicate PastPrepared(d: Disk) {
    d.secondary.Some? && d.secondary.value.Write? && d.secondary.value.phase != Prepared
  }

  /** What a crash inside a rollback to targets owes, when the disk d0 before it owed
      something. While the /etc record is still the old one, a record past Prepared keeps
      its own verdict and a Prepared one keeps what is visible, from either side. Once
      the record is another one or gone, the targets are owed. */
  predicate OwesAfterRollback(facts: Facts, d0: Disk, d: Disk, targets: Pair<Image>) {
    CrashProof(facts, d0) ==>
      && CrashProof(facts, d)
      && Between(FateOf(facts, d).pair, FateOf(facts, d0).pair, targets)
      && (d.secondary == d0.secondary && PastPrepared(d) ==> FateOf(facts, d) == FateOf(facts, d0))
      && (d.secondary != d0.secondary ==>
            && FateOf(facts, d) == HandedBack(targets)
            && (if d.secondary.None? then IsMutable(d)
                else d.secondary.value.Write? && d.secondary.value.phase == Prepared))
  }

  /** Nothing but a fault or an edit can stop a rollback from here. */
  predicate Returnable(d: Disk, targets: Pair<Image>) {
    MutableFiles(targets) && RawPair(d).Some? && !Immovable(d.persistent)
  }

  /** Nothing but a fault can. */
  predicate Restorable(d: Disk, targets: Pair<Image>) {
    !SandboxReaches(d) && Returnable(d, targets)
  }

  /** No rollback hands this tree back, and none changes a file: its pair cannot be captured,
      or is the very one to put back and not in the mutable posture. */
  predicate Unreturnable(d: Disk, targets: Pair<Image>) {
    RootHeld(d) && (RawPair(d).None? || (RawPair(d) == Some(targets) && !MutableFiles(targets)))
  }

  /** Only the directories differ. */
  predicate OnlyPostureDiffers(a: Disk, b: Disk) {
    SameEntries(a, b) && a.secondary == b.secondary
  }

  /** The freeze a rollback starts with: whatever was owed is still owed. */
  method Refreeze(host: Host) returns (out: Outcome<()>)
    requires host.alive
    requires host.disk.secondary.Some? && host.disk.secondary.value.Write?
    requires host.disk.secondary.value.phase == Committed ==> !IsMutable(host.disk)
    modifies host
    ensures host.Onward()
    ensures host.alive <==> !out.Killed?
    ensures !out.Ok? ==> host.faults > old(host.faults)
    ensures host.disk.secondary == old(host.disk.secondary)
    ensures host.edits == old(host.edits) ==> SameEntries(old(host.disk), host.disk)
    ensures host.edits == old(host.edits) && CrashProof(host.facts, old(host.disk)) ==>
      CrashProof(host.facts, host.disk) && FateOf(host.facts, host.disk) == FateOf(host.facts, old(host.disk))
    ensures out.Ok? ==> IsFrozen(host.disk)
    ensures RootHeld(old(host.disk)) ==> RootHeld(host.disk)
    ensures IsMutable(host.disk) ==> IsMutable(old(host.disk))
    ensures !SandboxReaches(old(host.disk)) ==> host.edits == old(host.edits)
  {
    ghost var d0 := host.disk;
    out := Freeze(host);
    if host.edits == old(host.edits) && CrashProof(host.facts, d0) {
      FreezeKeepsFateOfWrite(host.facts, d0, host.disk);
    }
  }

  /** _install_stored_pair under the freeze, and the posture check of what is then in place. */
  method PutBack(host: Host, targets: Pair<Image>) returns (out: Outcome<Pair<Image>>)
    requires host.alive
    requires IsFrozen(host.disk) && Bounded(targets)
    modifies host
    ensures host.Onward() && host.edits == old(host.edits)
    ensures host.alive <==> !out.Killed?
    ensures InstallCut(old(host.disk), targets, host.disk)
    ensures out.Ok? ==> out.value == targets && MutableFiles(targets) && Holds(host.disk, targets)
    ensures RawPair(old(host.disk)).Some? && !out.Ok? ==> host.faults > old(host.faults) || !MutableFiles(targets)
    ensures RawPair(old(host.disk)).None? ==> !out.Ok? && host.disk == old(host.disk)
    ensures Undisturbed(host) && RawPair(old(host.disk)).Some? ==> Holds(host.disk, targets) && !out.Killed?
  {
    var _ :- InstallPair(host, targets);
    var restored :- SnapshotRawPair(host);
    return if MutableFiles(restored) then Ok(restored) else Raised(GuardError("config-not-mutable"));
  }

  /** The first half of _rollback_write_config_frozen: re-freeze and put the pair back. */
  method RestorePair(host: Host, targets: Pair<Image>) returns (out: Outcome<Pair<Image>>)
    requires host.alive
    requires Bounded(targets)
    requires host.disk.secondary.Some? && host.disk.secondary.value.Write?
    requires host.disk.secondary.value.phase == Committed ==> !IsMutable(host.disk)
    modifies host
    ensures host.Onward()
    ensures host.alive <==> !out.Killed?
    ensures host.disk.secondary == old(host.disk.secondary)
    ensures host.edits == old(host.edits) && MutableFiles(targets) ==>
      OwesAfterRollback(host.facts, old(host.disk), host.disk, targets)
    ensures out.Ok? ==> IsFrozen(host.disk) && out.value == targets && MutableFiles(targets)
    ensures out.Ok? ==> RawPair(host.disk) == Some(targets)
    ensures !SandboxReaches(old(host.disk)) ==> host.edits == old(host.edits)
    ensures host.edits == old(host.edits) ==> host.disk.persistent == old(host.disk.persistent)
    ensures Returnable(old(host.disk), targets) && host.edits == old(host.edits) && !out.Ok? ==>
      host.faults > old(host.faults)
    ensures !MutableFiles(targets) ==> !out.Ok?
    ensures IsMutable(host.disk) ==> IsMutable(old(host.disk))
    ensures RootHeld(old(host.disk)) ==> RootHeld(host.disk) && host.edits == old(host.edits)
    ensures Unreturnable(old(host.disk), targets) ==> !out.Ok? && OnlyPostureDiffers(old(host.disk), host.disk)
    ensures Undisturbed(host) && RawPair(old(host.disk)).Some? ==> Holds(host.disk, targets) && !out.Killed?
  {
    hide HashRecord.Matches, HashRecord.RecordFor, FateOf, CrashProof, OwesAfterRollback, FreezeCut;
    ghost var d0 := host.disk;
    var frozen := Refreeze(host);
    ghost var d1 := host.disk;
    if !frozen.Ok? {
      OwedThroughFreeze(host.facts, d0, d1, d1, targets);
      return frozen.PropagateFailure<Pair<Image>>();
    }
    out := PutBack(host, targets);
    if MutableFiles(targets) {
      InstallKeepsOwing(host.facts, d1, host.disk, targets);
      OwedThroughFreeze(host.facts, d0, d1, host.disk, targets);
    }
  }

  /** What a cut after the freeze owes was owed before it. */
  lemma OwedThroughFreeze(facts: Facts, d0: Disk, d1: Disk, d: Disk, targets: Pair<Image>)
    requires d1.secondary == d0.secondary && (d == d1 || OwesAfterRollback(facts, d1, d, targets))
    ensures (CrashProof(facts, d0) ==> CrashProof(facts, d1) && FateOf(facts, d1) == FateOf(facts, d0)) ==>
      OwesAfterRollback(facts, d0, d, targets)
  {
    hide FateOf, CrashProof;
  }

  lemma FreezeKeepsFateOfWrite(facts: Facts, d0: Disk, d: Disk)
    requires d0.secondary.Some? && d0.secondary.value.Write?
    requires d0.secondary.value.phase == Committed ==> !IsMutable(d0)
    requires FreezeCut(facts, d0, d) && SameEntries(d0, d)
    requires CrashProof(facts, d0)
    ensures CrashProof(facts, d) && FateOf(facts, d) == FateOf(facts, d0)
  {
    var r := d0.secondary.value;
    FreezeKeepsFate(facts, d0, d, r);
  }

  lemma InstallKeepsOwing(facts: Facts, d0: Disk, d: Disk, targets: Pair<Image>)
    requires d0.secondary.Some? && d0.secondary.value.Write? && IsFrozen(d0)
    requires InstallCut(d0, targets, d) && Bounded(targets) && MutableFiles(targets)
    ensures OwesAfterRollback(facts, d0, d, targets)
  {
    if !CrashProof(facts, d0) {
      return;
    }
    var r := d0.secondary.value;
    SteadyReads(facts, d0, r);
    SteadyReads(facts, d, r);
  }

  /** No call failed in the attempt to put back, in a frozen tree, a pair that is not in the
      mutable posture, or one beside which no record can be written. */
  twostate predicate Unrestored(host: Host, targets: Pair<Image>)
    reads host
  {
    && (!MutableFiles(targets) || Immovable(old(host.disk).persistent)) && host.faults == old(host.faults)
    && RootHeld(old(host.disk)) && RawPair(old(host.disk)).Some?
  }

  /** _rollback_write_config_frozen: restore, publish the intent to keep, hand back. */
  method RollbackFrozen(host: Host, targets: Pair<Image>) returns (out: Outcome<()>)
    requires host.alive
    requires Bounded(targets)
    requires host.disk.secondary.Some? && host.disk.secondary.value.Write?
    requires host.disk.secondary.value.phase == Committed ==> !IsMutable(host.disk)
    modifies host
    ensures host.Onward()
    ensures host.alive <==> !out.Killed?
    ensures out.Ok? ==> IsMutable(host.disk) && MutableFiles(targets)
    ensures host.edits == old(host.edits) && MutableFiles(targets) ==>
      OwesAfterRollback(host.facts, old(host.disk), host.disk, targets)
    ensures host.edits == old(host.edits) && out.Ok? ==> Retired(host.disk) == HandedBackDisk(targets)
    ensures Restorable(old(host.disk), targets) && !out.Ok? ==> host.faults > old(host.faults)
    ensures Returnable(old(host.disk), targets) && host.edits == old(host.edits) && !out.Ok? ==>
      host.faults > old(host.faults)
    ensures host.edits == old(host.edits) && IsMutable(host.disk) && host.disk.secondary.Some?
            && host.disk.secondary.value.Write? && host.disk.secondary.value.phase == Committed ==>
      IsMutable(old(host.disk)) && host.disk.secondary == old(host.disk.secondary)
    ensures Unrestored(host, targets) ==>
      out.Raised? && Holds(host.disk, targets) && RootHeld(host.disk) && host.edits == old(host.edits)
    ensures Unreturnable(old(host.disk), targets) ==>
      && !out.Ok? && RootHeld(host.disk) && host.edits == old(host.edits)
      && OnlyPostureDiffers(old(host.disk), host.disk)
  {
    hide HashRecord.Matches, HashRecord.RecordFor, FateOf, CrashProof, OwesAfterRollback;
    ghost var d0 := host.disk;
    var restored := RestorePair(host, targets);
    if !restored.Ok? {
      return restored.PropagateFailure<()>();
    }
    ghost var d1 := host.disk;
    out := PreserveAndRetire(host, targets);
    if host.disk != d1 && RestoredOwed(host.facts, host.disk, targets) {
      RestoredIsOwed(host.facts, d0, host.disk, targets);
    }
  }

  /** The restored pair is owed, under a record that keeps it or none. */
  predicate RestoredOwed(facts: Facts, d: Disk, targets: Pair<Image>) {
    && CrashProof(facts, d) && FateOf(facts, d) == HandedBack(targets)
    && (if d.secondary.None? then IsMutable(d)
        else d.secondary.value.Write? && d.secondary.value.phase == Prepared)
  }

  lemma RestoredIsOwed(facts: Facts, d0: Disk, d: Disk, targets: Pair<Image>)
    requires RestoredOwed(facts, d, targets)
    ensures OwesAfterRollback(facts, d0, d, targets)
  {
    hide FateOf, CrashProof;
  }

  /** The second half of the rollback: publish the intent to keep the restored pair, hand back. */
  method PreserveAndRetire(host: Host, targets: Pair<Image>) returns (out: Outcome<()>)
    requires host.alive
    requires IsFrozen(host.disk) && RawPair(host.disk) == Some(targets) && MutableFiles(targets)
    requires host.disk.secondary.Some? && host.disk.secondary.value.Write?
    modifies host
    ensures host.Onward()
    ensures host.alive <==> !out.Killed?
    ensures out.Ok? ==> IsMutable(host.disk)
    ensures host.edits == old(host.edits) ==>
      && (host.disk == old(host.disk) || RestoredOwed(host.facts, host.disk, targets))
      && (out.Ok? ==> Retired(host.disk) == HandedBackDisk(targets))
    ensures !out.Ok? ==> host.faults > old(host.faults) || Immovable(old(host.disk.persistent))
    ensures Immovable(old(host.disk.persistent)) ==>
      && !out.Ok? && host.edits == old(host.edits)
      && IsFrozen(host.disk) && SameEntries(old(host.disk), host.disk)
  {
    hide HashRecord.Matches, HashRecord.RecordFor;
    var preserve := JournalRecord(host.facts, Prepared, targets, host.facts.sha256(targets.config.data),
                                  targets.config.data);
    JournalRecordIsValid(host.facts, Prepared, targets, preserve.digest, targets.config.data);
    ghost var d1 := host.disk;
    out := WriteBothJournals(host, preserve);
    PreservedOwes(host.facts, d1, host.disk, preserve, targets);
    if !out.Ok? {
      return;
    }
    out := R.RetireFrozen(host, preserve, targets);
  }

  /** Publishing the preserve record over the restored pair. */
  lemma PreservedOwes(facts: Facts, d0: Disk, d: Disk, preserve: Record, targets: Pair<Image>)
    requires IsFrozen(d0) && RawPair(d0) == Some(targets) && MutableFiles(targets)
    requires d0.secondary.Some? && d0.secondary.value.Write?
    requires ValidWrite(facts, preserve) && preserve.phase == Prepared
    requires d == d0 || d == d0.(secondary := Some(preserve), persistent := d.persistent)
    ensures d != d0 ==> CrashProof(facts, d) && FateOf(facts, d) == HandedBack(targets)
    ensures d != d0 ==> Steady(facts, d, preserve)
  {
    if d != d0 {
      SteadyReads(facts, d, preserve);
    }
  }

  /** Nothing is pending that only recovery may finish: no record in force, and no entry in
      the reserved name but what the sandbox may leave in a well-formed mutable tree. */
  predicate MayProceed(d: Disk) {
    var pending := ReadJournal(d);
    && !pending.Authoritative?
    && (pending.Untrusted? ==>
          && d.secondary.None? && IsMutable(d) && Disposable(d.persistent)
          && KeepVisible(d).HandedBack?)
  }

  /** The gate in main: a pending transaction must be recovered first, a planted entry
      without authority is let through. */
  method RequireNoPendingJournal(host: Host) returns (out: Outcome<()>)
    requires host.alive
    modifies host
    ensures host.Onward()
    ensures host.alive <==> !out.Killed?
    ensures host.installs == old(host.installs)
    ensures OnlyEntriesDiffer(old(host.disk), host.disk)
    ensures host.edits == old(host.edits) ==> host.disk == old(host.disk)
    ensures out.Ok? ==> host.disk.secondary.None?
    ensures out.Ok? && IsLocked(old(host.disk)) ==> host.disk.persistent == Vacant
    ensures out.Killed? ==> host.faults > old(host.faults)
    ensures out.Raised? ==> !out.error.HandoffError?
    ensures !SandboxReaches(old(host.disk)) ==> host.edits == old(host.edits)
    ensures host.edits == old(host.edits) && out.Ok? ==> MayProceed(old(host.disk))
    ensures host.edits == old(host.edits) && MayProceed(old(host.disk)) && !out.Ok? ==>
      host.faults > old(host.faults)
    // Of planted entries the gate lets through those of the sandbox, and directories of root.
    ensures host.edits == old(host.edits) && old(host.disk).persistent.Planted? && out.Ok? ==>
      var e := old(host.disk).persistent;
      && IsMutable(old(host.disk)) && KeepVisible(old(host.disk)).HandedBack?
      && e.user == e.group && (e.user == Sandbox || (e.user == Root && e.directory))
  {
    var _ :- host.Observe();
    match ReadJournal(host.disk)
    case NoJournal =>
      return Ok(());
    case Authoritative(_) =>
      return Raised(GuardError("recovery-required"));
    case Replayed =>
      return Ok(());
    case Untrusted =>
      if host.disk.secondary.Some? || !IsMutable(host.disk) {
        return Raised(GuardError("unsafe-journal"));
      }
      var pair :- SnapshotRawPair(host);
      if !MutableFiles(pair) || !Disposable(host.disk.persistent) {
        return Raised(GuardError("unsafe-journal"));
      }
      return Ok(());
  }

  /** A frozen tree whose pair cannot be captured, or whose reserved name cannot be cleared. */
  predicate CaptureRefused(d: Disk) {
    IsFrozen(d) && !d.persistent.Journal? && (RawPair(d).None? || !Quarantinable(d.persistent))
  }

  /** Freeze, quarantine, capture: the bytes the sandbox last left, now out of its reach. */
  method CaptureFrozen(host: Host) returns (out: Outcome<Pair<Image>>)
    requires host.alive
    modifies host
    ensures host.Onward()
    ensures host.alive <==> !out.Killed?
    ensures host.installs == old(host.installs)
    ensures host.disk.secondary == old(host.disk.secondary)
    ensures FreezeCut(host.facts, old(host.disk), host.disk)
    ensures host.edits == old(host.edits) ==>
      && host.disk.configFile == old(host.disk.configFile) && host.disk.hashFile == old(host.disk.hashFile)
      && (host.disk.persistent == old(host.disk.persistent) || host.disk.persistent == Vacant)
      && (RawPair(old(host.disk)).Some? && Quarantinable(old(host.disk.persistent)) && !out.Ok? ==>
            host.faults > old(host.faults))
    ensures IsMutable(host.disk) ==> IsMutable(old(host.disk))
    ensures out.Ok? ==> IsFrozen(host.disk) && host.disk.persistent == Vacant
    ensures out.Ok? ==> RawPair(host.disk) == Some(out.value)
    ensures host.faults == old(host.faults) && !out.Ok? ==> out.Raised? && CaptureRefused(host.disk)
    ensures out.Raised? ==> !out.error.HandoffError?
  {
    var _ :- Freeze(host);
    var _ :- Quarantine(host);
    out := SnapshotRawPair(host);
  }

  /** The verdict on a tree at the moment of death: whose pair recovery will hand back. */
  predicate Verdict(facts: Facts, d: Disk, frozen: Pair<Image>, next: Pair<Image>, ending: Ending) {
    && CrashProof(facts, d)
    && (match d.secondary
        case None => IsMutable(d) && FateOf(facts, d) == HandedBack(if ending == Written then next else frozen)
        case Some(r) =>
          r.Write? && FateOf(facts, d) == HandedBack(if r.phase == Committed then next else frozen))
  }

  /** How a failed write-config leaves the tree. */
  datatype Ending = Untouched | Written | RolledBack | Contained | HandoffIncomplete

  /** The body of the try block once the pair is captured, with the compare of the swap. */
  method SwapFrozen(host: Host, frozen: Pair<Image>, expected: Digest, replacement: Bytes)
    returns (out: Outcome<()>)
    requires host.alive
    requires IsFrozen(host.disk) && host.disk.persistent == Vacant && RawPair(host.disk) == Some(frozen)
    requires |replacement| <= MAX_CONFIG_BYTES
    requires host.disk.secondary.Some? && host.disk.secondary.value.Write?
    requires host.disk.secondary.value.phase == Prepared && ValidWrite(host.facts, host.disk.secondary.value)
    modifies host
    ensures host.Onward()
    ensures host.alive <==> !out.Killed?
    ensures out.Ok? ==> host.facts.sha256(frozen.config.data) == expected && IsMutable(host.disk)
    ensures host.edits == old(host.edits) && MutableFiles(frozen) ==>
      && Verdict(host.facts, host.disk, frozen, Canonical(host.facts, replacement, false), Written)
      && !host.disk.persistent.Planted?
    ensures host.edits == old(host.edits) && out.Ok? ==>
      Retired(host.disk) == HandedBackDisk(Canonical(host.facts, replacement, false))
    ensures out.Raised? && out.error.HandoffError? ==> host.disk.config == MUTABLE_CONFIG
    ensures out.Raised? && !out.error.HandoffError? ==>
      host.disk.secondary.Some? && host.disk.secondary.value.Write? && !IsMutable(host.disk)
    ensures !out.Ok? ==> host.faults > old(host.faults) || CheckFails(host.facts, frozen, expected)
    ensures CheckFails(host.facts, frozen, expected) ==>
      out.Raised? && host.disk == old(host.disk) && host.edits == old(host.edits)
  {
    if !MutableFiles(frozen) {
      return Raised(GuardError("config-not-mutable"));
    }
    if host.facts.sha256(frozen.config.data) != expected {
      return Raised(GuardError("config-cas-mismatch"));
    }
    out := ReplaceFrozenPair(host, frozen, expected, replacement);
    if !out.Ok? {
      return;
    }
    out := CommitReplacement(host, frozen, frozen, expected, replacement);
  }

  /** A pair that cannot be handed back stays where it is, or is being locked; the record stays. */
  predicate Withheld(d0: Disk, d: Disk) {
    && d.secondary == d0.secondary && d.persistent == d0.persistent
    && NoneHandedOut(d0, d) && KeepsConfigBytes(d0, d)
  }

  predicate OnlyLockHelps(facts: Facts, d: Disk, bytes: Bytes) {
    FateOf(facts, d) == Refused && LockFateOf(facts, d).Seals? && LockFateOf(facts, d).bytes == bytes
  }

  /** Recovery refuses, and lock seals the config bytes that d0 had, if they can be captured. */
  predicate RefusedOver(facts: Facts, d0: Disk, d: Disk) {
    var config := Captured(d0.configFile, MAX_CONFIG_BYTES);
    FateOf(facts, d) == Refused && (config.Some? ==> OnlyLockHelps(facts, d, config.value.data))
  }

  /** Under a prepared record, a pair that cannot be handed back, or not even be captured, is
      refused by recovery at every cut of its containment, and lock seals its bytes. */
  lemma WithheldIsRefused(facts: Facts, d0: Disk, d: Disk, targets: Pair<Image>)
    requires Unreturnable(d0, targets) && !d0.persistent.Journal?
    requires d0.secondary.Some? && d0.secondary.value.Write? && d0.secondary.value.phase == Prepared
    requires Withheld(d0, d)
    ensures RefusedOver(facts, d0, d)
  {
    assert SettledPair(facts, d).None?;
  }

  /** Before the capture, lock seals what is visible in every posture, and a pair that recovery
      would not hand back is refused at every cut but the stranded one. */
  lemma CutIsKeptOrRefused(facts: Facts, d: Disk)
    requires AwaitingCapture(facts, d)
    ensures Captured(d.configFile, MAX_CONFIG_BYTES).Some? ==>
      && LockFateOf(facts, d).Seals?
      && LockFateOf(facts, d).bytes == Captured(d.configFile, MAX_CONFIG_BYTES).value.data
    ensures (!Stranded(facts, d) || d.persistent == Vacant) && !KeepVisible(d).HandedBack? ==>
      RefusedOver(facts, d, d)
  {
    assert SettledPair(facts, d).None?;
    if !Stranded(facts, d) || d.persistent == Vacant {
      CutKeepsVisible(facts, d);
    }
  }

  /** Lock seals the bytes of the pair that the record names. */
  predicate LockVerdict(facts: Facts, d: Disk, frozen: Pair<Image>, next: Pair<Image>) {
    var fate := LockFateOf(facts, d);
    && fate.Seals?
    && fate.bytes == (if d.secondary.Some? && d.secondary.value.Write? && d.secondary.value.phase == Committed
                      then next else frozen).config.data
  }

  /** Where recovery owes a pair, lock seals its bytes, but for the mutable tree under a
      committed record. */
  lemma LockFollowsVerdict(facts: Facts, d: Disk, frozen: Pair<Image>, next: Pair<Image>)
    requires Verdict(facts, d, frozen, next, RolledBack)
    requires d.secondary.Some? && d.secondary.value.phase == Committed ==> !IsMutable(d)
    ensures LockVerdict(facts, d, frozen, next)
  {
    if d.secondary.Some? {
      SteadyReads(facts, d, d.secondary.value);
      SettledPairIsBounded(facts, d);
    } else {
      assert SettledPair(facts, d).None?;
    }
  }

  /** Recovery owes no pair to a tree whose own cannot be captured. */
  lemma VerdictIsCaptured(facts: Facts, d: Disk, frozen: Pair<Image>, next: Pair<Image>)
    requires CrashProof(facts, d) && (d.secondary.Some? ==> d.secondary.value.Write?)
    ensures RawPair(d).Some?
  {
  }

  /** A rollback that cannot be done, or that met one failing call, ends in a locked tree. */
  twostate predicate OneFailureContained(host: Host, ending: Ending, targets: Pair<Image>)
    reads host
  {
    ending == Contained && host.edits == old(host.edits) ==>
      && (host.faults == old(host.faults) ==> IsLocked(host.disk))
      && (host.faults <= old(host.faults) + 1 && Returnable(old(host.disk), targets) ==>
            host.alive && IsLocked(host.disk))
  }

  /** The except branch: roll back; if that raises too, contain. held is the tree that was left
      for containment. */
  method RollbackOrContain(host: Host, targets: Pair<Image>)
    returns (out: Outcome<()>, ghost ending: Ending, ghost held: Disk)
    requires host.alive
    requires Bounded(targets)
    requires host.disk.secondary.Some? && host.disk.secondary.value.Write?
    requires host.disk.secondary.value.phase == Committed ==> !IsMutable(host.disk)
    modifies host
    ensures host.Onward()
    ensures host.alive <==> !out.Killed?
    ensures ending == RolledBack || ending == Contained
    ensures ending == RolledBack ==> out.Killed? || (IsMutable(host.disk) && MutableFiles(targets))
    ensures ending == RolledBack && !out.Killed? && host.edits == old(host.edits) ==>
      Retired(host.disk) == HandedBackDisk(targets)
    ensures ending == RolledBack && host.edits == old(host.edits) && MutableFiles(targets) ==>
      OwesAfterRollback(host.facts, old(host.disk), host.disk, targets)
    ensures Restorable(old(host.disk), targets) && host.faults == old(host.faults) ==>
      ending == RolledBack && out.Ok?
    ensures OneFailureContained(host, ending, targets)
    ensures Unreturnable(old(host.disk), targets) ==>
      && host.edits == old(host.edits)
      && (host.faults == old(host.faults) ==>
            ending == Contained && out.Ok? && ContainedOver(host.facts, old(host.disk), host.disk))
      && (out.Killed? && host.faults == old(host.faults) + 1 ==> Withheld(old(host.disk), host.disk))
    ensures Returnable(old(host.disk), targets) && host.edits == old(host.edits)
            && out.Killed? && host.faults == old(host.faults) + 1 ==>
      ending == RolledBack
    ensures Unrestored(host, targets) ==>
      && ending == Contained && out.Ok? && host.edits == old(host.edits)
      && SealedOver(host.facts, host.disk, targets.config.data)
    ensures ending == Contained && host.edits == old(host.edits) ==>
      && host.disk.secondary == held.secondary
      && (MutableFiles(targets) ==> OwesAfterRollback(host.facts, old(host.disk), held, targets))
      && (held.secondary.Some? && held.secondary.value.Write? && held.secondary.value.phase == Committed ==>
            !IsMutable(held))
      // One failing call on the way back, and then a kill.
      && (Returnable(old(host.disk), targets) && RawPair(held).Some? && host.faults <= old(host.faults) + 2
          && out.Killed? ==>
            SealsSame(host.facts, held, host.disk))
  {
    hide HashRecord.Matches, HashRecord.RecordFor, FateOf, CrashProof, OwesAfterRollback, SealsSame;
    out := RollbackFrozen(host, targets);
    ending, held := RolledBack, host.disk;
    if out.Raised? {
      ending := Contained;
      out := ForceFailClosedLock(host);
      if RawPair(held).Some? && KeepsCapture(held, host.disk) {
        ContainmentSealsSame(host.facts, held, host.disk);
      }
    }
  }

  /** An undisturbed tree that write-config can start on. */
  predicate Ready(d: Disk) {
    && IsMutable(d) && d.secondary.None? && d.persistent == Vacant
    && RawPair(d).Some? && MutableFiles(RawPair(d).value)
  }

  /** A tree and arguments for which nothing but a fault or an edit can stop the action. */
  predicate Writable(facts: Facts, d: Disk, expected: Digest, replacement: Bytes) {
    && IsMutable(d) && d.secondary.None? && MayProceed(d)
    && RawPair(d).Some? && MutableFiles(RawPair(d).value)
    && facts.sha256(RawPair(d).value.config.data) == expected
    && |replacement| <= MAX_CONFIG_BYTES && facts.strictJsonObject(replacement)
  }

  /** Before the pair is captured the visible files are owed, in every posture. */
  lemma PreparedOwesVisible(facts: Facts, d0: Disk, d: Disk, r: Record, next: Pair<Image>)
    requires Ready(d0.(secondary := None)) && d0.secondary == Some(r)
    requires ValidWrite(facts, r) && r.phase == Prepared
    requires FreezeCut(facts, d0, d)
    requires d.configFile == d0.configFile && d.hashFile == d0.hashFile && d.persistent == Vacant
    ensures forall ending :: Verdict(facts, d, RawPair(d0).value, next, ending)
    ensures FateOf(facts, d) == HandedBack(RawPair(d0).value)
  {
    SteadyReads(facts, d, r);
  }

  lemma RollbackKeepsVerdict(facts: Facts, d0: Disk, d: Disk, frozen: Pair<Image>, next: Pair<Image>)
    requires Verdict(facts, d0, frozen, next, Written) && d0.secondary.Some?
    requires OwesAfterRollback(facts, d0, d, frozen)
    ensures Verdict(facts, d, frozen, next, RolledBack)
  {
  }

  /** The checks on the frozen pair: its posture, and the compare of the swap. */
  predicate CheckFails(facts: Facts, frozen: Pair<Image>, expected: Digest) {
    !MutableFiles(frozen) || facts.sha256(frozen.config.data) != expected
  }

  /** The try block: freeze, capture, compare, swap. captured is the list of frozen
      snapshots the except branch consults. */
  method TryWrite(host: Host, expected: Digest, replacement: Bytes)
    returns (out: Outcome<()>, captured: Option<Pair<Image>>, ghost mark: nat)
    requires host.alive
    requires |replacement| <= MAX_CONFIG_BYTES
    requires host.disk.secondary.Some? && host.disk.secondary.value.Write?
    requires host.disk.secondary.value.phase == Prepared && ValidWrite(host.facts, host.disk.secondary.value)
    modifies host
    ensures host.Onward()
    ensures host.alive <==> !out.Killed?
    ensures host.edits >= mark >= old(host.edits)
    ensures captured.Some? ==> Bounded(captured.value)
    ensures mark == old(host.edits) && captured.Some? ==> captured == RawPair(old(host.disk))
    ensures out.Ok? ==> captured.Some? && host.facts.sha256(captured.value.config.data) == expected
    ensures out.Ok? ==> IsMutable(host.disk)
    ensures out.Ok? && host.edits == mark ==>
      Retired(host.disk) == HandedBackDisk(Canonical(host.facts, replacement, false))
    ensures captured.Some? && host.edits == mark && MutableFiles(captured.value) ==>
      Verdict(host.facts, host.disk, captured.value, Canonical(host.facts, replacement, false), Written)
    ensures captured.None? ==> mark == host.edits && FreezeCut(host.facts, old(host.disk), host.disk)
    ensures captured.None? && host.edits == old(host.edits) ==>
      && host.disk.configFile == old(host.disk.configFile) && host.disk.hashFile == old(host.disk.hashFile)
      && (host.disk.persistent == old(host.disk.persistent) || host.disk.persistent == Vacant)
    ensures captured.None? ==> host.installs == old(host.installs) && !(out.Raised? && out.error.HandoffError?)
    ensures captured.None? && host.faults == old(host.faults) ==> out.Raised? && CaptureRefused(host.disk)
    ensures captured.None? && host.edits == old(host.edits)
            && RawPair(old(host.disk)).Some? && Quarantinable(old(host.disk.persistent)) ==>
      host.faults > old(host.faults)
    ensures captured.Some? && host.edits == mark && MutableFiles(captured.value) ==> !host.disk.persistent.Planted?
    ensures captured.Some? && !out.Ok? ==>
      host.faults > old(host.faults) || CheckFails(host.facts, captured.value, expected)
    ensures out.Raised? && !out.error.HandoffError? ==>
      && host.disk.secondary.Some? && host.disk.secondary.value.Write?
      && (host.disk.secondary.value.phase == Committed ==> !IsMutable(host.disk))
    ensures captured.Some? && CheckFails(host.facts, captured.value, expected) ==>
      && out.Raised? && !out.error.HandoffError? && host.edits == mark
      && IsFrozen(host.disk) && host.disk.persistent == Vacant && RawPair(host.disk) == captured
      && host.disk.secondary == old(host.disk.secondary)
    ensures out.Raised? && out.error.HandoffError? ==> host.disk.config == MUTABLE_CONFIG
    ensures Undisturbed(host) && Writable(host.facts, old(host.disk).(secondary := None), expected, replacement) ==>
      out.Ok?
  {
    captured, mark := None, host.edits;
    var frozen := CaptureFrozen(host);
    if !frozen.Ok? {
      return frozen.PropagateFailure<()>(), captured, host.edits;
    }
    captured, mark := Some(frozen.value), host.edits;
    out := SwapFrozen(host, frozen.value, expected, replacement);
  }

  /** What may become the config: a strict JSON object of at most 16 MiB. */
  predicate IsReplacement(facts: Facts, replacement: Bytes) {
    facts.strictJsonObject(replacement) && |replacement| <= 16777216
  }

  /** The action ended in an error and did nothing at all. */
  twostate predicate TurnedAway(host: Host, raised: bool)
    reads host
  {
    && raised && host.disk == old(host.disk) && host.schedule == old(host.schedule)
    && host.installs == old(host.installs) && host.records == old(host.records)
  }

  /** Everything before the try block: the checks, and the Prepared record. */
  method PrepareWrite(host: Host, expected: Digest, replacement: Bytes) returns (out: Outcome<Pair<Image>>)
    requires host.alive
    modifies host
    ensures host.Onward()
    ensures host.alive <==> !out.Killed?
    // Only a bounded, strict JSON object gets past the first check, which makes no system call.
    ensures out.Ok? ==> IsReplacement(host.facts, replacement)
    ensures !IsReplacement(host.facts, replacement) ==> TurnedAway(host, out.Raised?)
    ensures host.installs == old(host.installs) && OnlyPostureSame(old(host.disk), host.disk)
    ensures host.disk.secondary == old(host.disk.secondary) || AwaitingCapture(host.facts, host.disk)
    ensures out.Ok? ==> AwaitingCapture(host.facts, host.disk)
    ensures out.Ok? ==> Bounded(out.value) && MutableFiles(out.value) && |replacement| <= MAX_CONFIG_BYTES
    ensures out.Ok? ==>
      host.disk.secondary == Some(JournalRecord(host.facts, Prepared, out.value, expected, replacement))
    ensures out.Ok? ==> host.facts.sha256(out.value.config.data) == expected && IsMutable(host.disk)
    ensures host.edits == old(host.edits) ==>
      && SameEntries(old(host.disk), host.disk)
      && (out.Ok? ==> RawPair(old(host.disk)) == Some(out.value))
    ensures host.edits == old(host.edits) && Ready(old(host.disk)) && !out.Ok? ==>
      Verdict(host.facts, host.disk, RawPair(old(host.disk)).value,
              Canonical(host.facts, replacement, false), Untouched)
    ensures host.edits == old(host.edits) && !MayProceed(old(host.disk)) ==>
      !out.Ok? && host.disk == old(host.disk)
    ensures Undisturbed(host) && Writable(host.facts, old(host.disk), expected, replacement) ==> out.Ok?
  {
    hide HashRecord.Matches, HashRecord.RecordFor, MutableImage;
    if |replacement| > MAX_CONFIG_BYTES || !host.facts.strictJsonObject(replacement) {
      return Raised(GuardError("invalid-config-json"));
    }
    var _ :- RequireNoPendingJournal(host);
    var initial :- SnapshotRawPair(host);
    if !IsMutable(host.disk) || !MutableFiles(initial) {
      return Raised(GuardError("config-not-mutable"));
    }
    if host.facts.sha256(initial.config.data) != expected {
      return Raised(GuardError("config-cas-mismatch"));
    }
    JournalRecordIsValid(host.facts, Prepared, initial, expected, replacement);
    var _ :- host.PutSecondary(Some(JournalRecord(host.facts, Prepared, initial, expected, replacement)));
    return Ok(initial);
  }

  predicate OnlyPostureSame(a: Disk, b: Disk) {
    a.parent == b.parent && a.config == b.config
  }

  /** How a write-config went, for its contract: the pair seen before the freeze, the pair
      captured under it, the sandbox edits seen by then or by the time the attempt failed, the
      tree the attempt left, the way out, and at the end the disk, the edits and the calls that
      failed without a kill. */
  datatype Report = Report(initial: Option<Pair<Image>>, frozen: Option<Pair<Image>>, edits: nat, cut: Disk,
                           ending: Ending, last: Disk, ended: nat, errors: nat)

  /** The write-config action. */
  method WriteConfig(host: Host, expected: Digest, replacement: Bytes)
    returns (out: Outcome<Digest>, ghost report: Report)
    requires host.alive
    modifies host
    ensures host.Onward() && Reported(host, report)
    ensures host.alive <==> !out.Killed?
    ensures out.Ok? ==> IsReplacement(host.facts, replacement)
    ensures !IsReplacement(host.facts, replacement) ==> TurnedAway(host, out.Raised?)
    // A transaction that recovery has to finish first, or a strange entry, stops it at the gate.
    ensures host.edits == old(host.edits) && !MayProceed(old(host.disk)) ==>
      !out.Ok? && host.disk == old(host.disk)
    // Success is a compare-and-swap at the freeze.
    ensures out.Ok? ==> IsMutable(host.disk) && out.value == host.facts.sha256(replacement)
    ensures out.Ok? ==> Compared(host.facts, report, expected)
    ensures out.Ok? && host.edits == report.edits ==>
      Retired(host.disk) == HandedBackDisk(Canonical(host.facts, replacement, false))
    ensures FailureHandled(host.facts, report, expected, out)
    // Without a failing call, no tree is left half-way.
    ensures out.Raised? && host.errors == old(host.errors) ==>
      IsMutable(host.disk) || IsLocked(host.disk) || OnlyPostureSame(old(host.disk), host.disk)
    // A kill at any point leaves a verdict, whatever the sandbox did before the freeze.
    ensures out.Killed? ==> KillHandled(host.facts, report, expected, Canonical(host.facts, replacement, false))
    ensures report.ending == Untouched ==>
      && report.frozen.None? && host.installs == old(host.installs)
      && (AwaitingCapture(host.facts, host.disk)
          || (OnlyPostureSame(old(host.disk), host.disk) && host.disk.secondary == old(host.disk.secondary)))
    ensures Ready(old(host.disk)) && host.edits == old(host.edits) ==>
      AllOrNothing(host.facts, report, RawPair(old(host.disk)).value, Canonical(host.facts, replacement, false), out)
    ensures out.Raised? && report.ending == HandoffIncomplete ==> host.disk.config == MUTABLE_CONFIG
    // Undisturbed, on a well-formed tree with the expected config, it succeeds.
    ensures Undisturbed(host) && Writable(host.facts, old(host.disk), expected, replacement) ==> out.Ok?
  {
    ghost var n0 := host.errors;
    var initial := PrepareWrite(host, expected, replacement);
    if !initial.Ok? {
      return initial.PropagateFailure<Digest>(),
             Report(None, None, host.edits, host.disk, Untouched, host.disk, host.edits, host.errors - n0);
    }
    out, report := FinishWrite(host, initial.value, expected, replacement);
    report := report.(errors := host.errors - n0);
  }

  /** What the report says of the end of the run is so, and of its course possible. */
  twostate predicate Reported(host: Host, report: Report)
    reads host
  {
    && report.last == host.disk && report.ended == host.edits && report.errors == host.errors - old(host.errors)
    && host.edits >= report.edits >= old(host.edits)
  }

  /** A run on a tree in order that the sandbox leaves alone: a kill leaves the old or the new
      pair due, and lock would seal its bytes even from within the containment of a failed
      rollback; an error without a failing call leaves the old pair in place. */
  predicate AllOrNothing(facts: Facts, report: Report, pair: Pair<Image>, next: Pair<Image>, out: Outcome<Digest>) {
    && (report.frozen.Some? ==> report.frozen == Some(pair))
    && (out.Killed? && report.errors == 0 ==> report.ending != Contained)
    && (out.Killed? && report.ending != Contained ==> Verdict(facts, report.last, pair, next, report.ending))
    && (out.Killed? && report.ending == Contained && report.errors <= 2 ==>
          LockVerdict(facts, report.last, pair, next))
    && (out.Raised? && report.errors == 0 ==> Retired(report.last) == HandedBackDisk(pair))
  }

  /** The failing calls that a rollback works around, or that containment does: one in the
      attempt, unless a check ended it, and one on the way back. */
  function Failures(facts: Facts, report: Report, expected: Digest): nat
    requires report.frozen.Some?
  {
    if CheckFails(facts, report.frozen.value, expected) then 1 else 2
  }

  /** A well-formed mutable pair was captured, and nobody edited from then on until the
      attempt ended, nor while it was undone. */
  predicate Captures(report: Report) {
    report.frozen.Some? && MutableFiles(report.frozen.value) && report.ended == report.edits
  }

  /** What a kill leaves. Once the pair is captured, the frozen pair or the new one is owed, by
      the record; lock would seal the same even from within a containment. */
  predicate KillHandled(facts: Facts, report: Report, expected: Digest, next: Pair<Image>) {
    && (Captures(report) && report.ending != Contained ==>
          Verdict(facts, report.last, report.frozen.value, next, report.ending))
    && (Captures(report) && report.errors == 0 ==> report.ending != Contained)
    && (Captures(report) && report.ending == Contained && report.errors <= Failures(facts, report, expected) ==>
          LockVerdict(facts, report.last, report.frozen.value, next))
    && (report.errors == 0 ==> KillWithheld(facts, report))
  }

  /** A kill while a pair that is not in the mutable posture, or cannot even be captured, is
      being contained: recovery refuses, and lock seals the bytes that the sandbox left. */
  predicate KillWithheld(facts: Facts, report: Report) {
    && (report.frozen.Some? && !MutableFiles(report.frozen.value) ==>
          OnlyLockHelps(facts, report.last, report.frozen.value.config.data))
    && (report.initial.Some? && report.frozen.None? && IsFrozen(report.cut) && RawPair(report.cut).None? ==>
          RefusedOver(facts, report.cut, report.last))
  }

  /** How an attempt that no failing call ended is undone. */
  predicate Resolved(facts: Facts, report: Report)
    requires report.initial.Some?
  {
    if report.frozen.Some? then
      if MutableFiles(report.frozen.value) then GivenBack(report, report.frozen.value)
      else report.ending == Contained && SealedOver(facts, report.last, report.frozen.value.config.data)
    else
      && CaptureRefused(report.cut)
      && (if RawPair(report.cut).None? then
            report.ending == Contained && ContainedOver(facts, report.cut, report.last)
          else if Immovable(report.cut.persistent) then
            report.ending == Contained && SealedOver(facts, report.last, report.initial.value.config.data)
          else GivenBack(report, report.initial.value))
  }

  predicate GivenBack(report: Report, pair: Pair<Image>) {
    && report.ending == RolledBack && IsMutable(report.last)
    && (report.ended == report.edits ==> Retired(report.last) == HandedBackDisk(pair))
  }

  /** What becomes of a write that fails. A frozen check that fails is never a success. If no
      call failed, the tree is handed back, holding what the sandbox left, exactly if that is a
      well-formed mutable pair, and locked over it otherwise, captured or not; only beside a
      reserved name that quarantine refuses is it the pair seen before the freeze. One failing
      call in the attempt and one on the way back end in a locked tree. */
  predicate FailureHandled(facts: Facts, report: Report, expected: Digest, out: Outcome<Digest>) {
    && (report.ending != Untouched ==> report.initial.Some?) && (out.Ok? ==> report.ending == Written)
    && (report.frozen.Some? && CheckFails(facts, report.frozen.value, expected) ==> !out.Ok?)
    && (out.Raised? && report.errors == 0 && report.initial.Some? ==>
          && Resolved(facts, report)
          && (report.frozen.Some? ==> CheckFails(facts, report.frozen.value, expected)))
    && (out.Raised? && Captures(report) && report.ending == Contained
        && report.errors <= Failures(facts, report, expected) ==>
          IsLocked(report.last))
    && (report.ending == RolledBack && out.Raised? && report.ended == report.edits ==>
          Retired(report.last)
          == HandedBackDisk(if report.frozen.Some? then report.frozen.value else report.initial.value))
  }

  /** Everything after the Prepared record is in /etc. */
  method FinishWrite(host: Host, initial: Pair<Image>, expected: Digest, replacement: Bytes)
    returns (out: Outcome<Digest>, ghost report: Report)
    requires host.alive
    requires Bounded(initial) && MutableFiles(initial) && |replacement| <= MAX_CONFIG_BYTES
    requires host.disk.secondary == Some(JournalRecord(host.facts, Prepared, initial, expected, replacement))
    requires AwaitingCapture(host.facts, host.disk) && IsMutable(host.disk)
    requires host.facts.sha256(initial.config.data) == expected
    modifies host
    ensures host.Onward() && Reported(host, report)
    ensures host.alive <==> !out.Killed?
    ensures out.Ok? ==> IsMutable(host.disk) && out.value == host.facts.sha256(replacement)
    ensures out.Ok? ==> Compared(host.facts, report, expected)
    ensures out.Ok? && host.edits == report.edits ==>
      Retired(host.disk) == HandedBackDisk(Canonical(host.facts, replacement, false))
    ensures report.initial == Some(initial) && FailureHandled(host.facts, report, expected, out)
    ensures out.Killed? ==> KillHandled(host.facts, report, expected, Canonical(host.facts, replacement, false))
    ensures report.ending == Untouched ==>
      report.frozen.None? && host.installs == old(host.installs) && AwaitingCapture(host.facts, host.disk)
    ensures Ready(old(host.disk).(secondary := None)) && RawPair(old(host.disk)) == Some(initial)
            && host.edits == old(host.edits) ==>
      AllOrNothing(host.facts, report, initial, Canonical(host.facts, replacement, false), out)
    ensures out.Raised? && report.ending == HandoffIncomplete ==> host.disk.config == MUTABLE_CONFIG
    ensures Undisturbed(host) && Writable(host.facts, old(host.disk).(secondary := None), expected, replacement) ==>
      out.Ok?
  {
    hide HashRecord.Matches, HashRecord.RecordFor, FateOf, CrashProof, ContainedOver, LockFateOf, ValidWrite;
    ghost var next, d1, n1 := Canonical(host.facts, replacement, false), host.disk, host.errors;
    JournalRecordIsValid(host.facts, Prepared, initial, expected, replacement);
    var tried, captured, mark := TryWrite(host, expected, replacement);
    report := Report(Some(initial), captured, mark, host.disk, if captured.Some? then Written else Untouched,
                     host.disk, host.edits, host.errors - n1);
    if captured.None? {
      CutIsKeptOrRefused(host.facts, host.disk);
      if host.edits == old(host.edits) && Ready(d1.(secondary := None)) {
        PreparedOwesVisible(host.facts, d1, host.disk, d1.secondary.value, next);
      }
    }
    if tried.Ok? {
      return Ok(host.facts.sha256(replacement)), report;
    }
    if tried.Killed? {
      return Killed, report;
    }
    if tried.error.HandoffError? {
      return Raised(tried.error), report.(ending := HandoffIncomplete);
    }
    var targets := if captured.Some? then captured.value else initial;
    var undone, ending := AbandonWrite(host, targets, next);
    report := report.(ending := ending, last := host.disk, ended := host.edits, errors := host.errors - n1);
    out := if undone.Killed? then Killed else Raised(tried.error);
  }

  /** The except branch as a whole: the verdict survives it. */
  method AbandonWrite(host: Host, targets: Pair<Image>, ghost next: Pair<Image>)
    returns (undone: Outcome<()>, ghost ending: Ending)
    requires host.alive
    requires Bounded(targets)
    requires host.disk.secondary.Some? && host.disk.secondary.value.Write?
    requires host.disk.secondary.value.phase == Committed ==> !IsMutable(host.disk)
    modifies host
    ensures host.Onward()
    ensures host.alive <==> !undone.Killed?
    ensures ending == RolledBack || ending == Contained
    ensures ending == RolledBack && !undone.Killed? ==>
      IsMutable(host.disk) && (host.edits == old(host.edits) ==> Retired(host.disk) == HandedBackDisk(targets))
    ensures MutableFiles(targets) && Verdict(host.facts, old(host.disk), targets, next, Written)
            && host.edits == old(host.edits) ==>
      && (ending == RolledBack ==> Verdict(host.facts, host.disk, targets, next, RolledBack))
      && (ending == Contained && !Immovable(old(host.disk.persistent)) ==>
            && (undone.Killed? && host.faults <= old(host.faults) + 2 ==>
                  LockVerdict(host.facts, host.disk, targets, next))
            && (!undone.Killed? && host.faults <= old(host.faults) + 1 ==> IsLocked(host.disk)))
    ensures OneFailureContained(host, ending, targets)
    ensures Unreturnable(old(host.disk), targets) ==>
      && host.edits == old(host.edits)
      && (host.faults == old(host.faults) ==>
            ending == Contained && undone.Ok? && ContainedOver(host.facts, old(host.disk), host.disk))
      && (undone.Killed? && host.faults == old(host.faults) + 1 && !old(host.disk).persistent.Journal?
          && old(host.disk).secondary.value.phase == Prepared ==>
            RefusedOver(host.facts, old(host.disk), host.disk))
    ensures Returnable(old(host.disk), targets) && host.edits == old(host.edits)
            && undone.Killed? && host.faults == old(host.faults) + 1 ==>
      ending == RolledBack
    ensures Unrestored(host, targets) ==>
      && ending == Contained && undone.Ok? && host.edits == old(host.edits)
      && SealedOver(host.facts, host.disk, targets.config.data)
    ensures Restorable(old(host.disk), targets) && host.faults == old(host.faults) ==>
      ending == RolledBack && undone.Ok?
  {
    hide HashRecord.Matches, HashRecord.RecordFor, FateOf, CrashProof, OwesAfterRollback, Withheld;
    ghost var d2, held := host.disk, host.disk;
    undone, ending, held := RollbackOrContain(host, targets);
    if Unreturnable(d2, targets) && !d2.persistent.Journal? && d2.secondary.value.phase == Prepared
       && Withheld(d2, host.disk) {
      WithheldIsRefused(host.facts, d2, host.disk, targets);
    }
    if Verdict(host.facts, d2, targets, next, Written) && OwesAfterRollback(host.facts, d2, host.disk, targets) {
      RollbackKeepsVerdict(host.facts, d2, host.disk, targets, next);
    }
    if Verdict(host.facts, d2, targets, next, Written) && OwesAfterRollback(host.facts, d2, held, targets)
       && ending == Contained && host.edits == old(host.edits) && MutableFiles(targets) {
      RollbackKeepsVerdict(host.facts, d2, held, targets, next);
      LockFollowsVerdict(host.facts, held, targets, next);
      VerdictIsCaptured(host.facts, d2, targets, next);
      VerdictIsCaptured(host.facts, held, targets, next);
    }
  }

  /** The freeze captured a pair whose digest is the expected one. */
  predicate Compared(facts: Facts, report: Report, expected: Digest) {
    report.frozen.Some? && facts.sha256(report.frozen.value.config.data) == expected
  }

  /** A whole run: write-config against any sandbox, and if it is killed, recovery until it
      finishes; retried calls failed without a kill during the recovery. If the tree was in
      order, the sandbox left it alone, and kills, however many, are all that went wrong outside
      the recovery, it ends over the old pair or the new one, and handed back. Against a sandbox
      that edits, once the pair was captured under the freeze, the tree ends over the new pair if
      the record in /etc at the kill says Committed, or the handoff of the new pair had retired
      it, and over the captured one otherwise. If the kill came before the capture, it ends over
      the very pair the sandbox left last, if that is a well-formed mutable one, unless the
      sandbox had planted an entry on a platform where the freeze can be stranded. Whatever else
      the sandbox left, recovery refuses it and lock seals its bytes. */
  method WriteThroughCrashes(host: Host, expected: Digest, replacement: Bytes)
    returns (out: Outcome<Digest>, ghost report: Report, ghost retried: nat)
    modifies host
    ensures host.Later() && old(host.edits) <= report.edits <= report.ended <= host.edits
    ensures report.errors + retried == host.errors - old(host.errors)
    ensures out.Killed? ==> host.faults > old(host.faults)
    // What a caller can see: all or nothing, through any number of kills.
    ensures Ready(old(host.disk)) && host.edits == old(host.edits) && host.errors == old(host.errors) + retried ==>
      || Retired(host.disk) == HandedBackDisk(Canonical(host.facts, replacement, false))
      || (!out.Ok? && Retired(host.disk) == HandedBackDisk(RawPair(old(host.disk)).value))
    ensures Ready(old(host.disk)) && host.edits == old(host.edits) && host.errors == old(host.errors) + retried
            && out.Killed? ==>
      host.disk.secondary.None? && host.disk.persistent == Vacant
    ensures out.Ok? ==> IsReplacement(host.facts, replacement)
    ensures !IsReplacement(host.facts, replacement) ==> TurnedAway(host, out.Raised?)
    ensures Undisturbed(host) && Writable(host.facts, old(host.disk), expected, replacement) ==> out.Ok?
    ensures out.Ok? && host.edits == report.edits ==>
      Retired(host.disk) == HandedBackDisk(Canonical(host.facts, replacement, false))
    // The course of a run that the sandbox edits under.
    ensures out.Killed? && report.errors == 0 && report.frozen.Some? && !MutableFiles(report.frozen.value) ==>
      OnlyLockHelps(host.facts, report.last, report.frozen.value.config.data)
    ensures out.Killed? && host.edits == report.edits && (report.errors == 0 || report.ending != Contained)
            && report.frozen.Some? && MutableFiles(report.frozen.value) ==>
      host.disk == HandedBackDisk(
        if CommitReached(report) then Canonical(host.facts, replacement, false) else report.frozen.value)
    ensures out.Killed? && report.ending == Untouched && report.last.secondary != old(host.disk.secondary)
            && (report.last.persistent == Vacant || !host.facts.chownKeepsSetgid) ==>
      if KeepVisible(report.last).HandedBack?
      then host.edits == report.ended ==> host.disk == HandedBackDisk(RawPair(report.last).value)
      else RefusedOver(host.facts, report.last, report.last)
    ensures out.Killed? && report.errors == 0 && report.initial.Some? && report.frozen.None?
            && IsFrozen(report.cut) && RawPair(report.cut).None? ==>
      RefusedOver(host.facts, report.cut, report.last)
    ensures out.Killed? && Captures(report) && report.ending == Contained
            && report.errors <= Failures(host.facts, report, expected) ==>
      LockVerdict(host.facts, report.last, report.frozen.value, Canonical(host.facts, replacement, false))
  {
    host.Start();
    out, report := WriteConfig(host, expected, replacement);
    retried := 0;
    if out.Killed? {
      ghost var n1 := host.errors;
      if AwaitingCapture(host.facts, host.disk) {
        CutIsKeptOrRefused(host.facts, host.disk);
        if KeepVisible(host.disk).HandedBack? {
          CutOwesVisibleIff(host.facts, host.disk);
        }
      }
      R.RecoverUntilDone(host);
      retried := host.errors - n1;
    }
  }

  /** The Committed record was in /etc at the end, or had been retired after the handoff. */
  predicate CommitReached(report: Report) {
    match report.last.secondary
    case None => report.ending == Written
    case Some(r) => r.Write? && r.phase == Committed
  }
}
