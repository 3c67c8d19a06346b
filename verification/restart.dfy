/** The restart seal: capture a mutable config under root ownership across a gateway
    restart, or record that the tree was locked all along, and undo it afterwards. */
module Restart {
  import opened Basics
  import opened GuardTypes
  import opened RecoverySpec
  import opened HostModel
  import opened Transitions
  import opened RecoveryStability
  import opened Lockdown
  import R = Recover
  import W = WriteConfig

  /** _restart_journal_record. */
  function RestartRecord(facts: Facts, phase: RestartPhase, locked: bool, originals: Pair<Image>): Record {
    Record.Restart(phase, locked, facts.sha256(originals.config.data), originals)
  }

  /** Every record sealing writes over a mutable JSON5 config is accepted by recovery. */
  lemma RestartRecordIsValid(facts: Facts, phase: RestartPhase, originals: Pair<Image>)
    requires Bounded(originals) && MutableFiles(originals) && facts.json5Object(originals.config.data)
    ensures ValidRestart(facts, RestartRecord(facts, phase, false, originals))
  {
  }

  /** What any interruption of a seal owes: a hand-back of the captured config bytes. */
  predicate OwesBytes(facts: Facts, d: Disk, bytes: Bytes) {
    && CrashProof(facts, d)
    && FateOf(facts, d).pair.config.data == bytes
    && MutableFiles(FateOf(facts, d).pair)
  }

  /** seal-restart on a tree that is already locked: only the journals are written. */
  method SealLockedTree(host: Host) returns (out: Outcome<()>)
    requires host.alive
    requires IsLocked(host.disk)
    modifies host
    ensures host.Onward() && host.edits == old(host.edits) && host.installs == old(host.installs)
    ensures host.alive <==> !out.Killed?
    ensures host.disk == old(host.disk).(secondary := host.disk.secondary, persistent := host.disk.persistent)
    ensures !out.Ok? ==> host.faults > old(host.faults) || !KeepLocked(host.facts, old(host.disk)).LeftLocked?
                         || !Quarantinable(old(host.disk.persistent))
    ensures out.Ok? ==> KeepLocked(host.facts, old(host.disk)).LeftLocked?
    ensures out.Ok? ==>
      var record := RestartRecord(host.facts, Sealed, true, RawPair(host.disk).value);
      host.disk.secondary == Some(record) && host.disk.persistent == Journal(record)
    ensures old(host.disk).secondary.None? && old(host.disk).persistent == Vacant ==>
      && LockedBefore(host.disk)
      && (LockStands(host.facts, old(host.disk))
          && host.facts.json5Object(RawPair(old(host.disk)).value.config.data) ==>
            LockStands(host.facts, host.disk))
  {
    var original :- SnapshotPair(host);
    if !LockedFiles(original) {
      return Raised(GuardError("config-not-locked"));
    }
    out := WriteBothJournals(host, RestartRecord(host.facts, Sealed, true, original));
  }

  /** Once the mutable pair is captured under the freeze: journal, replace, journal, lock. */
  method SealFrozenPair(host: Host, frozen: Pair<Image>) returns (out: Outcome<()>)
    requires host.alive
    requires IsFrozen(host.disk) && host.disk.persistent == Vacant && RawPair(host.disk) == Some(frozen)
    requires MutableFiles(frozen) && host.facts.json5Object(frozen.config.data)
    requires host.disk.secondary.Some? && ValidRestart(host.facts, host.disk.secondary.value)
    requires !host.disk.secondary.value.originalLocked
    requires host.disk.secondary.value.restartPhase == SealPrepared
    modifies host
    ensures host.Onward() && host.edits == old(host.edits)
    ensures host.alive <==> !out.Killed?
    ensures OwesBytes(host.facts, host.disk, frozen.config.data)
    ensures out.Ok? ==> SealedOver(host.facts, host.disk, frozen.config.data)
    ensures out.Ok? ==>
      var record := RestartRecord(host.facts, Sealed, false, frozen);
      host.disk.secondary == Some(record) && host.disk.persistent == Journal(record)
    ensures !out.Ok? ==> host.faults > old(host.faults)
  {
    hide Coherent;
    var sealed := Canonical(host.facts, frozen.config.data, true);
    CanonicalIsCoherent(host.facts, frozen.config.data, true);
    RestartRecordIsValid(host.facts, SealApplying, frozen);
    var applying := RestartRecord(host.facts, SealApplying, false, frozen);
    out := WriteBothJournals(host, applying);
    if !out.Ok? {
      return;
    }
    ghost var d1 := host.disk;
    UnsealableOwes(host.facts, d1, applying);
    out := InstallThenSnapshot(host, sealed);
    InstallKeepsFate(host.facts, d1, host.disk, applying, Canonical(host.facts, frozen.config.data, false), sealed);
    if !out.Ok? {
      return;
    }
    out := FinishSeal(host, frozen);
  }

  /** Both files are replaced: journal that, and lock the directories. */
  method FinishSeal(host: Host, frozen: Pair<Image>) returns (out: Outcome<()>)
    requires host.alive
    requires IsFrozen(host.disk) && host.disk.persistent.Journal?
    requires MutableFiles(frozen) && Bounded(frozen) && host.facts.json5Object(frozen.config.data)
    requires Holds(host.disk, Canonical(host.facts, frozen.config.data, true))
    requires host.disk.secondary == Some(RestartRecord(host.facts, SealApplying, false, frozen))
    modifies host
    ensures host.Onward() && host.edits == old(host.edits)
    ensures host.alive <==> !out.Killed?
    ensures OwesBytes(host.facts, host.disk, frozen.config.data)
    ensures out.Ok? ==> SealedOver(host.facts, host.disk, frozen.config.data)
    ensures out.Ok? ==>
      var record := RestartRecord(host.facts, Sealed, false, frozen);
      host.disk.secondary == Some(record) && host.disk.persistent == Journal(record)
    ensures !out.Ok? ==> host.faults > old(host.faults)
  {
    var sealed := RestartRecord(host.facts, Sealed, false, frozen);
    CanonicalIsCoherent(host.facts, frozen.config.data, true);
    RestartRecordIsValid(host.facts, SealApplying, frozen);
    RestartRecordIsValid(host.facts, Sealed, frozen);
    UnsealableOwes(host.facts, host.disk, host.disk.secondary.value);
    out := WriteBothJournals(host, sealed);
    if host.disk.secondary == Some(sealed) {
      UnsealableOwes(host.facts, host.disk, sealed);
    }
    if !out.Ok? {
      return;
    }
    out := CommitLockedDirs(host);
    UnsealableOwes(host.facts, host.disk, sealed);
  }

  /** A mutable tree, or one whose freeze was cut short, under the prepared record of a seal. */
  predicate AwaitingSeal(facts: Facts, d: Disk) {
    && d.secondary.Some? && ValidRestart(facts, d.secondary.value) && NeverFreezes(d.secondary.value)
    && FreezeCut(facts, Thawed(d), d)
  }

  /** Before the seal captures it, the visible pair is owed at every cut but the stranded one,
      whatever lies at the reserved name; there it is refused, unless a record is believed
      that would hand back the same pair. */
  lemma SealCutOwesVisibleIff(facts: Facts, d: Disk)
    requires AwaitingSeal(facts, d) && SealableFiles(facts, d)
    ensures FateOf(facts, d) == HandedBack(RawPair(d).value)
      <==> !Stranded(facts, d)
           || (d.persistent.Journal? && WouldHandBack(facts, d.persistent.record, RawPair(d).value))
    ensures !Stranded(facts, d) ==> CrashProof(facts, d)
    ensures Stranded(facts, d) && !d.persistent.Journal? ==> FateOf(facts, d) == Refused
  {
    if Exposed(d) {
      ExposedReadsSecondary(d);
    }
  }

  /** Any other visible pair is refused there, and lock seals its bytes. */
  lemma SealCutIsKeptOrRefused(facts: Facts, d: Disk)
    requires AwaitingSeal(facts, d) && !Stranded(facts, d)
    ensures FateOf(facts, d).HandedBack? <==> SealableFiles(facts, d)
    ensures !SealableFiles(facts, d) ==> W.RefusedOver(facts, d, d)
  {
    assert SettledPair(facts, d).None?;
    if Exposed(d) {
      ExposedReadsSecondary(d);
    }
  }

  /** seal-restart on a mutable tree, up to and including the capture under the freeze. */
  method CaptureForSeal(host: Host) returns (out: Outcome<Pair<Image>>)
    requires host.alive
    requires IsMutable(host.disk)
    modifies host
    ensures host.Onward() && host.installs == old(host.installs)
    ensures host.alive <==> !out.Killed?
    ensures out.Ok? ==> IsFrozen(host.disk) && host.disk.persistent == Vacant
    ensures out.Ok? ==> RawPair(host.disk) == Some(out.value) && SealableFiles(host.facts, host.disk)
    // No directory changes hands before the prepared record is in /etc, whatever the sandbox does.
    ensures AwaitingSeal(host.facts, host.disk)
            || (IsMutable(host.disk) && host.disk.secondary == old(host.disk.secondary))
    ensures out.Ok? ==> AwaitingSeal(host.facts, host.disk)
    ensures host.edits == old(host.edits) ==>
      && host.disk.configFile == old(host.disk.configFile) && host.disk.hashFile == old(host.disk.hashFile)
      && (host.disk.persistent == old(host.disk.persistent) || host.disk.persistent == Vacant)
      && (SealableFiles(host.facts, old(host.disk)) && !out.Ok? ==>
            host.faults > old(host.faults) || !Quarantinable(old(host.disk.persistent)))
      && (AwaitingSeal(host.facts, host.disk) && old(host.disk).secondary.None? ==>
            && RawPair(old(host.disk)).Some?
            && host.disk.secondary
               == Some(RestartRecord(host.facts, SealPrepared, false, RawPair(old(host.disk)).value)))
  {
    var initial :- SnapshotRawPair(host);
    if !MutableFiles(initial) {
      return Raised(GuardError("config-not-mutable"));
    }
    if !host.facts.json5Object(initial.config.data) {
      return Raised(GuardError("invalid-config-json5"));
    }
    RestartRecordIsValid(host.facts, SealPrepared, initial);
    var _ :- host.PutSecondary(Some(RestartRecord(host.facts, SealPrepared, false, initial)));
    var frozen :- W.CaptureFrozen(host);
    if !MutableFiles(frozen) {
      return Raised(GuardError("config-not-mutable"));
    }
    if !host.facts.json5Object(frozen.config.data) {
      return Raised(GuardError("invalid-config-json5"));
    }
    return Ok(frozen);
  }

  /** A capturable mutable pair whose config is a JSON5 object. */
  predicate SealableFiles(facts: Facts, d: Disk) {
    RawPair(d).Some? && MutableFiles(RawPair(d).value) && facts.json5Object(RawPair(d).value.config.data)
  }

  /** A mutable JSON5 tree that the gate lets through, whatever lies at the reserved name. */
  predicate Sealable(facts: Facts, d: Disk) {
    IsMutable(d) && W.MayProceed(d) && SealableFiles(facts, d)
  }

  /** The seal-restart action. captured is the pair it found under the freeze, once that has
      passed the checks. */
  method SealRestart(host: Host) returns (out: Outcome<bool>, ghost captured: Option<Pair<Image>>)
    requires host.alive
    modifies host
    ensures host.Onward()
    ensures host.alive <==> !out.Killed?
    // An originally locked tree keeps its directories and files on every way out.
    ensures IsLocked(old(host.disk)) ==>
      && captured.None? && host.edits == old(host.edits) && host.installs == old(host.installs)
      && Retired(host.disk) == Retired(old(host.disk))
      && (out.Ok? ==> out.value && host.disk.secondary.Some?
                      && host.disk.secondary.value.Restart? && host.disk.secondary.value.originalLocked)
    ensures LockedBefore(old(host.disk)) ==> LockedBefore(host.disk)
    ensures LockStands(host.facts, old(host.disk))
            && host.facts.json5Object(RawPair(old(host.disk)).value.config.data) ==>
      LockStands(host.facts, host.disk)
    // A transaction that recovery has to finish first, or a strange entry, stops it at the gate.
    ensures host.edits == old(host.edits) && !W.MayProceed(old(host.disk)) ==>
      !out.Ok? && host.disk == old(host.disk)
    // Once captured, an originally mutable tree is sealed, or owes its bytes back.
    ensures out.Ok? && !out.value ==> captured.Some? && SealedRestart(host.facts, host.disk, captured.value)
    ensures captured.Some? ==>
      && OwesBytes(host.facts, host.disk, captured.value.config.data)
      && (host.edits == old(host.edits) ==> captured == RawPair(old(host.disk)))
    // Before, only the prepared record and a part of the freeze can be in place.
    ensures captured.None? ==>
      && !(out.Ok? && !out.value) && host.installs == old(host.installs)
      && (IsMutable(old(host.disk)) ==>
            || AwaitingSeal(host.facts, host.disk)
            || (IsMutable(host.disk) && host.disk.secondary == old(host.disk.secondary)))
      && (host.edits == old(host.edits) ==>
            && host.disk.configFile == old(host.disk.configFile) && host.disk.hashFile == old(host.disk.hashFile)
            && (IsMutable(old(host.disk)) && old(host.disk).persistent == Vacant ==> host.disk.persistent == Vacant))
    ensures host.edits == old(host.edits) && Sealable(host.facts, old(host.disk)) && !out.Ok? ==>
      host.faults > old(host.faults)
    ensures out.Ok? && out.value ==> IsLocked(old(host.disk))
    ensures IsLocked(old(host.disk)) && W.MayProceed(old(host.disk))
            && KeepLocked(host.facts, old(host.disk)).LeftLocked? && !out.Ok? ==>
      host.faults > old(host.faults)
  {
    captured := None;
    var gate := W.RequireNoPendingJournal(host);
    if !gate.Ok? {
      out := gate.PropagateFailure<bool>();
      return;
    }
    if IsLocked(host.disk) {
      var locked := SealLockedTree(host);
      return if locked.Ok? then Ok(true) else locked.PropagateFailure<bool>(), None;
    }
    if !IsMutable(host.disk) {
      return Raised(GuardError("invalid-restart-posture")), None;
    }
    var frozen := CaptureForSeal(host);
    if !frozen.Ok? {
      return frozen.PropagateFailure<bool>(), None;
    }
    captured := Some(frozen.value);
    var sealed := SealFrozenPair(host, frozen.value);
    out := if sealed.Ok? then Ok(false) else sealed.PropagateFailure<bool>();
  }

  /** Locked over the captured bytes, with both journals saying how to undo it. */
  predicate SealedRestart(facts: Facts, d: Disk, frozen: Pair<Image>) {
    && SealedOver(facts, d, frozen.config.data)
    && MutableFiles(frozen) && Bounded(frozen) && facts.json5Object(frozen.config.data)
    && d.secondary == Some(RestartRecord(facts, Sealed, false, frozen))
    && d.persistent == Journal(RestartRecord(facts, Sealed, false, frozen))
  }

  /** A record whose transaction has replaced files: what unseal and recover put back. */
  predicate Unsealable(facts: Facts, d: Disk, r: Record) {
    && Steady(facts, d, r) && ValidRestart(facts, r) && !r.originalLocked
    && r.restartPhase != SealPrepared && !(r.restartPhase == UnsealCommitted && IsMutable(d))
    && RawPair(d).Some?
  }

  lemma UnsealableOwes(facts: Facts, d: Disk, r: Record)
    requires Unsealable(facts, d, r)
    ensures CrashProof(facts, d)
    ensures FateOf(facts, d) == HandedBack(Canonical(facts, r.originals.config.data, false))
  {
    SteadyReads(facts, d, r);
  }

  /** The replacement half of unseal: journal, put the bytes back, journal, hand over. */
  method RestoreSealed(host: Host, r: Record) returns (out: Outcome<()>)
    requires host.alive
    requires ValidRestart(host.facts, r) && !r.originalLocked
    modifies host
    ensures host.Onward()
    ensures host.alive <==> !out.Killed?
    ensures out.Ok? ==> IsMutable(host.disk)
    ensures host.edits == old(host.edits) ==>
      var owed := Canonical(host.facts, r.originals.config.data, false);
      && (out.Ok? ==> Retired(host.disk) == HandedBackDisk(owed))
      && (out.Ok? && host.faults == old(host.faults) ==> host.disk == HandedBackDisk(owed))
      && (RawPair(old(host.disk)).Some? && !out.Ok? ==>
            host.faults > old(host.faults) || !Quarantinable(old(host.disk.persistent)))
      && (Unsealable(host.facts, old(host.disk), r) ==>
            CrashProof(host.facts, host.disk) && FateOf(host.facts, host.disk) == HandedBack(owed))
      // Whatever was in /etc before: nothing but the freeze comes before the record there.
      && (RawPair(old(host.disk)).Some? ==>
            || (FreezeCut(host.facts, old(host.disk), host.disk) && SameEntries(old(host.disk), host.disk))
            || (CrashProof(host.facts, host.disk) && FateOf(host.facts, host.disk) == HandedBack(owed)))
  {
    ghost var d0 := host.disk;
    var frozen := Freeze(host);
    if host.edits == old(host.edits) && Unsealable(host.facts, d0, r) {
      UnsealableOwes(host.facts, d0, r);
      FreezeKeepsFate(host.facts, d0, host.disk, r);
    }
    if !frozen.Ok? {
      return frozen;
    }
    var _ :- ReinstallSealed(host, r);
    out := CommitUnseal(host, r);
  }

  /** Unsealing record and the bytes, under the freeze. */
  method ReinstallSealed(host: Host, r: Record) returns (out: Outcome<()>)
    requires host.alive
    requires ValidRestart(host.facts, r) && !r.originalLocked && IsFrozen(host.disk)
    modifies host
    ensures host.Onward() && host.edits == old(host.edits)
    ensures host.alive <==> !out.Killed?
    ensures IsFrozen(host.disk)
    ensures out.Ok? ==> Holds(host.disk, Canonical(host.facts, r.originals.config.data, false))
    ensures out.Ok? ==> host.disk.secondary == Some(RestartRecord(host.facts, Unsealing, false, r.originals))
    ensures out.Ok? ==> host.disk.persistent.Journal?
    ensures Unsealable(host.facts, old(host.disk), r) ==>
      && CrashProof(host.facts, host.disk)
      && FateOf(host.facts, host.disk) == HandedBack(Canonical(host.facts, r.originals.config.data, false))
    ensures RawPair(old(host.disk)).Some? ==>
      || host.disk == old(host.disk)
      || (CrashProof(host.facts, host.disk)
          && FateOf(host.facts, host.disk) == HandedBack(Canonical(host.facts, r.originals.config.data, false)))
    ensures RawPair(old(host.disk)).Some? && !out.Ok? ==>
      host.faults > old(host.faults) || !Quarantinable(old(host.disk.persistent))
  {
    hide Coherent;
    var owed := Canonical(host.facts, r.originals.config.data, false);
    var unsealing := RestartRecord(host.facts, Unsealing, false, r.originals);
    CanonicalIsCoherent(host.facts, r.originals.config.data, false);
    ghost var d0 := host.disk;
    if Unsealable(host.facts, d0, r) {
      UnsealableOwes(host.facts, d0, r);
    }
    out := WriteBothJournals(host, unsealing);
    ghost var d1 := host.disk;
    if RawPair(d0).Some? && d1.secondary == Some(unsealing) {
      UnsealableOwes(host.facts, d1, unsealing);
    }
    if !out.Ok? {
      return;
    }
    out := InstallThenSnapshot(host, owed);
    if Unsealable(host.facts, d1, unsealing) {
      InstallKeepsFate(host.facts, d1, host.disk, unsealing, owed, owed);
    }
  }

  /** UnsealCommitted record, then the handoff. */
  method CommitUnseal(host: Host, r: Record) returns (out: Outcome<()>)
    requires host.alive
    requires ValidRestart(host.facts, r) && !r.originalLocked && IsFrozen(host.disk)
    requires Holds(host.disk, Canonical(host.facts, r.originals.config.data, false))
    requires host.disk.secondary == Some(RestartRecord(host.facts, Unsealing, false, r.originals))
    requires host.disk.persistent.Journal?
    modifies host
    ensures host.Onward()
    ensures host.alive <==> !out.Killed?
    ensures out.Ok? ==> IsMutable(host.disk)
    ensures !out.Ok? ==> host.faults > old(host.faults)
    ensures host.edits == old(host.edits) ==>
      var owed := Canonical(host.facts, r.originals.config.data, false);
      && CrashProof(host.facts, host.disk) && FateOf(host.facts, host.disk) == HandedBack(owed)
      && (out.Ok? ==> Retired(host.disk) == HandedBackDisk(owed))
      && (out.Ok? && host.faults == old(host.faults) ==> host.disk == HandedBackDisk(owed))
  {
    var owed := Canonical(host.facts, r.originals.config.data, false);
    CanonicalIsCoherent(host.facts, r.originals.config.data, false);
    var unsealing := RestartRecord(host.facts, Unsealing, false, r.originals);
    var committed := RestartRecord(host.facts, UnsealCommitted, false, r.originals);
    UnsealableOwes(host.facts, host.disk, unsealing);
    out := WriteBothJournals(host, committed);
    if host.disk.secondary == Some(committed) {
      UnsealableOwes(host.facts, host.disk, committed);
    }
    if !out.Ok? {
      return;
    }
    out := R.RetireFrozen(host, committed, owed);
  }

  /** What is left of a sealed tree when the state under /etc is lost. */
  lemma SealedWithoutEtcIsLone(facts: Facts, d: Disk, frozen: Pair<Image>)
    requires SealedRestart(facts, d, frozen)
    ensures LoneRecord(facts, d.(secondary := None), frozen.config.data)
  {
    RestartRecordIsValid(facts, Sealed, frozen);
    assert RawPair(d.(secondary := None)) == RawPair(d);
  }

  /** From a tree whose only record is the one inside, that still is so, or its bytes are owed. */
  predicate LoneOrOwed(facts: Facts, d0: Disk, d: Disk) {
    R.BeganLone(facts, d0) ==>
      var bytes := RawPair(d0).value.config.data;
      || LoneRecord(facts, d, bytes)
      || (CrashProof(facts, d) && FateOf(facts, d) == HandedBack(Canonical(facts, bytes, false)))
  }

  lemma LoneIsSealed(facts: Facts, d: Disk, r: Record)
    requires ReadJournal(d) == Authoritative(r)
    ensures R.BeganLone(facts, d) ==>
      && r.Restart? && ValidRestart(facts, r) && !r.originalLocked && d.persistent == Journal(r)
      && r.originals.config.data == RawPair(d).value.config.data
  {
    hide ValidRestart;
  }

  /** unseal under the record in force. */
  method UnsealRecorded(host: Host, r: Record) returns (out: Outcome<bool>)
    requires host.alive
    requires ReadJournal(host.disk) == Authoritative(r)
    modifies host
    ensures host.Onward()
    ensures host.alive <==> !out.Killed?
    ensures out.Ok? && !out.value ==> IsMutable(host.disk)
    ensures host.edits == old(host.edits) && out.Ok? && !out.value ==>
      r.Restart? && Retired(host.disk) == HandedBackDisk(Canonical(host.facts, r.originals.config.data, false))
    ensures Undisturbed(host) && UnsealsMutable(host.facts, old(host.disk)) ==>
      out == Ok(false) && host.disk == HandedBackDisk(Canonical(host.facts, r.originals.config.data, false))
    ensures IsLocked(old(host.disk)) && KeepsLock(r) ==>
      && JournalsShrink(old(host.disk), host.disk) && host.edits == old(host.edits)
      && host.installs == old(host.installs) && (out.Ok? ==> out.value)
      && (Undisturbed(host) && ValidRestart(host.facts, r) ==>
            (out.Ok? <==> KeepLocked(host.facts, old(host.disk)).LeftLocked?)
            && (out.Ok? ==> host.disk == Retired(old(host.disk))))
    ensures host.edits == old(host.edits) && Unsealable(host.facts, old(host.disk), r) ==>
      var owed := Canonical(host.facts, r.originals.config.data, false);
      && CrashProof(host.facts, host.disk) && FateOf(host.facts, host.disk) == HandedBack(owed)
      && (out.Ok? ==> !out.value && Retired(host.disk) == HandedBackDisk(owed))
      && (!out.Ok? ==> host.faults > old(host.faults) || !Quarantinable(old(host.disk.persistent)))
    ensures host.edits == old(host.edits) ==> LoneOrOwed(host.facts, old(host.disk), host.disk)
  {
    hide Coherent, WriteFate, DecodesWrite, LoneRecord;
    ghost var d0 := host.disk;
    LoneIsSealed(host.facts, d0, r);
    if r.Write? {
      return Raised(GuardError("recovery-required"));
    }
    if !ValidRestart(host.facts, r) {
      return Raised(GuardError("invalid-journal"));
    }
    if r.originalLocked {
      var _ :- R.KeepLockedTree(host);
      return Ok(true);
    }
    out := Ok(false);
    var restored := RestoreSealed(host, r);
    if host.edits == old(host.edits) && FreezeCut(host.facts, d0, host.disk) && SameEntries(d0, host.disk)
       && R.BeganLone(host.facts, d0) {
      FreezeKeepsLone(host.facts, d0, host.disk, r.originals.config.data);
    }
    if !restored.Ok? {
      out := restored.PropagateFailure<bool>();
    }
  }

  /** The unseal-restart action. */
  method UnsealRestart(host: Host) returns (out: Outcome<bool>)
    requires host.alive
    modifies host
    ensures host.Onward()
    ensures host.alive <==> !out.Killed?
    ensures out.Ok? && !out.value ==> IsMutable(host.disk)
    // Success under a record means the captured bytes are back, in every phase.
    ensures host.edits == old(host.edits) && out.Ok? && !out.value && ReadJournal(old(host.disk)).Authoritative? ==>
      var r := ReadJournal(old(host.disk)).record;
      r.Restart? && Retired(host.disk) == HandedBackDisk(Canonical(host.facts, r.originals.config.data, false))
    // Undisturbed, it puts them back from any tree whose pair can be captured.
    ensures Undisturbed(host) && UnsealsMutable(host.facts, old(host.disk)) ==>
      && out == Ok(false)
      && host.disk == HandedBackDisk(
           Canonical(host.facts, ReadJournal(old(host.disk)).record.originals.config.data, false))
    // An originally locked tree only loses its journals.
    ensures IsLocked(old(host.disk)) && UnsealsLocked(old(host.disk)) ==>
      && Retired(host.disk) == Retired(old(host.disk)) && (out.Ok? ==> out.value)
      && (Undisturbed(host) && ValidRestart(host.facts, ReadJournal(old(host.disk)).record) ==>
            (out.Ok? <==> KeepLocked(host.facts, old(host.disk)).LeftLocked?)
            && (out.Ok? ==> host.disk == Retired(old(host.disk))))
    ensures LockedBefore(old(host.disk)) ==>
      && JournalsShrink(old(host.disk), host.disk) && host.edits == old(host.edits)
      && host.installs == old(host.installs)
    // A sealed tree gets its bytes back, now or through recovery.
    ensures host.edits == old(host.edits) && old(host.disk).secondary.Some?
            && Unsealable(host.facts, old(host.disk), old(host.disk).secondary.value)
      ==> var owed := Canonical(host.facts, old(host.disk).secondary.value.originals.config.data, false);
          && CrashProof(host.facts, host.disk) && FateOf(host.facts, host.disk) == HandedBack(owed)
          && (out.Ok? ==> !out.value && Retired(host.disk) == HandedBackDisk(owed))
          && (!out.Ok? ==> host.faults > old(host.faults) || !Quarantinable(old(host.disk.persistent)))
    // Without anything to undo it tells what the tree is, and leaves it.
    ensures Undisturbed(host) && ReadJournal(old(host.disk)).NoJournal? ==>
      host.disk == old(host.disk) && out == NothingToUndo(host.facts, old(host.disk), out)
    // So does one whose only record is the one inside, but for a kill between the end of the
    // freeze and the write to /etc.
    ensures host.edits == old(host.edits) ==> LoneOrOwed(host.facts, old(host.disk), host.disk)
  {
    hide Coherent, WriteFate, DecodesWrite, LoneRecord;
    var _ :- host.Observe();
    var pending := ReadJournal(host.disk);
    if pending.Authoritative? {
      out := UnsealRecorded(host, pending.record);
      return;
    }
    if pending.Untrusted? && (host.disk.secondary.Some? || !IsMutable(host.disk)
                              || !Disposable(host.disk.persistent)) {
      return Raised(GuardError("unsafe-journal"));
    }
    out := UnsealUnjournaled(host);
  }

  /** The journal in force is a sound one of a tree that was mutable before the restart. */
  predicate UnsealsMutable(facts: Facts, d: Disk) {
    var pending := ReadJournal(d);
    && pending.Authoritative? && ValidRestart(facts, pending.record) && !pending.record.originalLocked
    && RawPair(d).Some? && Quarantinable(d.persistent)
  }

  /** The journal in force says that the tree was locked before the restart. */
  predicate UnsealsLocked(d: Disk) {
    var pending := ReadJournal(d);
    pending.Authoritative? && pending.record.Restart? && pending.record.originalLocked
  }

  /** Whether the tree was locked, if it is in order; some error otherwise. */
  function NothingToUndo(facts: Facts, d: Disk, out: Outcome<bool>): Outcome<bool> {
    if IsLocked(d) && KeepLocked(facts, d).LeftLocked? then Ok(true)
    else if IsMutable(d) && SealableFiles(facts, d) then Ok(false)
    else if out.Raised? then out else Killed
  }

  /** unseal with nothing to undo: report the posture, change nothing. */
  method UnsealUnjournaled(host: Host) returns (out: Outcome<bool>)
    requires host.alive
    modifies host
    ensures host.Onward() && host.HandsOff()
    ensures host.alive <==> !out.Killed?
    ensures OnlyEntriesDiffer(old(host.disk), host.disk)
    ensures IsLocked(old(host.disk)) ==> host.disk == old(host.disk) && host.edits == old(host.edits)
    ensures host.edits == old(host.edits) ==> host.disk == old(host.disk)
    ensures out.Ok? && out.value ==> KeepLocked(host.facts, host.disk).LeftLocked?
    ensures out.Ok? && !out.value ==>
      && IsMutable(host.disk) && KeepVisible(host.disk).HandedBack?
      && host.facts.json5Object(RawPair(host.disk).value.config.data)
    ensures Undisturbed(host) ==> out == NothingToUndo(host.facts, old(host.disk), out)
  {
    if IsLocked(host.disk) {
      var current :- SnapshotPair(host);
      return if LockedFiles(current) then Ok(true) else Raised(GuardError("config-not-locked"));
    }
    if !IsMutable(host.disk) {
      return Raised(GuardError("recovery-required"));
    }
    var current :- SnapshotRawPair(host);
    if !MutableFiles(current) {
      return Raised(GuardError("config-not-mutable"));
    }
    return if host.facts.json5Object(current.config.data) then Ok(false)
           else Raised(GuardError("invalid-config-json5"));
  }

  /** unseal-restart, killed or failing anywhere, and then recovery until it finishes. With the
      record in /etc the captured bytes come back, whatever fails. With the record in the tree
      alone, and kills all that goes wrong, the tree ends mutable or locked over the same config
      bytes, or in the one posture that only lock completes. */
  method UnsealThroughCrashes(host: Host) returns (out: Outcome<bool>)
    modifies host
    ensures host.Later()
    ensures host.edits == old(host.edits) && old(host.disk).secondary.Some?
            && Unsealable(host.facts, old(host.disk), old(host.disk).secondary.value)
      ==> host.disk
          == HandedBackDisk(Canonical(host.facts, old(host.disk).secondary.value.originals.config.data, false))
    ensures host.edits == old(host.edits) && host.errors == old(host.errors)
            && R.BeganLone(host.facts, old(host.disk)) ==>
      Unrecorded(host.facts, host.disk, RawPair(old(host.disk)).value.config.data) && !IsPartial(host.disk)
    ensures Undisturbed(host) && UnsealsMutable(host.facts, old(host.disk)) ==>
      && out == Ok(false)
      && host.disk == HandedBackDisk(
           Canonical(host.facts, ReadJournal(old(host.disk)).record.originals.config.data, false))
  {
    hide Coherent, WriteFate, DecodesWrite, LoneRecord, FateOf;
    host.Start();
    ghost var d0 := host.disk;
    out := UnsealRestart(host);
    if UnsealsMutable(host.facts, d0) {
      HandedBackStays(host.facts, ReadJournal(d0).record.originals.config.data);
    }
    if R.BeganLone(host.facts, d0) {
      HandedBackStays(host.facts, RawPair(d0).value.config.data);
      R.LoneOrNot(host.facts, host.disk, RawPair(d0).value.config.data);
    }
    R.RecoverUntilDone(host);
  }

  lemma HandedBackStays(facts: Facts, bytes: Bytes)
    requires |bytes| <= MAX_CONFIG_BYTES
    ensures var back := HandedBackDisk(Canonical(facts, bytes, false));
      CrashProof(facts, back) && FateOf(facts, back) == HandedBack(Canonical(facts, bytes, false))
      && Unrecorded(facts, back, bytes) && !IsPartial(back)
  {
    hide Coherent, KeepLocked;
    CanonicalIsCoherent(facts, bytes, false);
    assert RawPair(HandedBackDisk(Canonical(facts, bytes, false))) == Some(Canonical(facts, bytes, false));
  }

  /** How a restart went, for its contract: the pair captured, and the disk and the edits when
      sealing and unsealing had ended. */
  datatype Course = Course(captured: Option<Pair<Image>>, cut: Disk, edits: nat)

  /** Seal, and unseal if that succeeded. */
  method SealAndUnseal(host: Host)
    returns (sealed: Outcome<bool>, unsealed: Outcome<bool>, ghost course: Course)
    requires host.alive
    modifies host
    ensures host.Onward() && host.edits >= course.edits >= old(host.edits)
    ensures LockedBefore(old(host.disk)) ==>
      && LockedBefore(host.disk) && host.edits == old(host.edits) && host.installs == old(host.installs)
      && Retired(host.disk) == Retired(old(host.disk))
    ensures LockStands(host.facts, old(host.disk))
            && host.facts.json5Object(RawPair(old(host.disk)).value.config.data) ==>
      LockStands(host.facts, host.disk)
    ensures host.edits == old(host.edits) && !W.MayProceed(old(host.disk)) ==>
      !sealed.Ok? && host.disk == old(host.disk)
    ensures course.captured.Some? && host.edits == course.edits ==>
      OwesBytes(host.facts, host.disk, course.captured.value.config.data)
    ensures course.captured.None? && IsMutable(old(host.disk)) ==>
      && host.disk == course.cut && host.edits == course.edits
      && (AwaitingSeal(host.facts, host.disk)
          || (IsMutable(host.disk) && host.disk.secondary == old(host.disk.secondary)))
      && (host.edits == old(host.edits) ==>
            && host.disk.configFile == old(host.disk.configFile) && host.disk.hashFile == old(host.disk.hashFile)
            && (old(host.disk).persistent == Vacant ==> host.disk.persistent == Vacant))
    ensures course.captured.Some? && course.edits == old(host.edits) ==> course.captured == RawPair(old(host.disk))
    ensures Undisturbed(host) && Sealable(host.facts, old(host.disk)) ==>
      sealed == Ok(false) && unsealed == Ok(false) && course.captured.Some?
  {
    ghost var d0, captured := host.disk, None;
    sealed, captured := SealRestart(host);
    unsealed := Raised(GuardError("not-sealed"));
    ghost var d1 := host.disk;
    course := Course(captured, d1, host.edits);
    if sealed.Ok? {
      unsealed := UnsealRestart(host);
      if LockedBefore(d0) {
        ShrinkingKeepsLock(host.facts, d1, host.disk);
      }
      if captured.Some? {
        CanonicalIsCoherent(host.facts, captured.value.config.data, true);
        assert Unsealable(host.facts, d1, d1.secondary.value);
      }
    }
  }

  /** A seal cut short before the capture, that nobody edited under, owes the bytes it found. */
  lemma CutOwesBytes(facts: Facts, d0: Disk, d: Disk)
    requires Sealable(facts, d0) && d0.persistent == Vacant && !facts.chownKeepsSetgid
    requires d.configFile == d0.configFile && d.hashFile == d0.hashFile && d.persistent == Vacant
    requires AwaitingSeal(facts, d) || (IsMutable(d) && d.secondary == d0.secondary)
    ensures OwesBytes(facts, d, RawPair(d0).value.config.data)
  {
    if AwaitingSeal(facts, d) {
      SealCutOwesVisibleIff(facts, d);
    }
  }

  /** A whole restart against any sandbox: seal, unseal, and after any interruption recover,
      killed or failing any number of times, until done. An originally locked tree keeps its
      directories and files, and loses the journals if its config is a JSON5 object. A mutable
      tree in order that the sandbox leaves alone ends mutable and journal-free over its config
      bytes, whatever fails or is killed, on a platform whose freeze is never stranded. Against
      a sandbox that edits, it ends over the captured config bytes, or, if the capture was not
      reached, over the very pair the sandbox left last, unless the freeze was cut in the one
      stranded posture; a pair that could not be sealed is refused, and lock seals its bytes. */
  method RestartThroughCrashes(host: Host)
    returns (sealed: Outcome<bool>, unsealed: Outcome<bool>, ghost course: Course)
    modifies host
    ensures host.Later() && old(host.edits) <= course.edits <= host.edits
    ensures LockedBefore(old(host.disk)) ==>
      Retired(host.disk) == Retired(old(host.disk)) && host.installs == old(host.installs)
    ensures LockStands(host.facts, old(host.disk))
            && host.facts.json5Object(RawPair(old(host.disk)).value.config.data) ==>
      host.disk == Retired(old(host.disk))
    // What a caller can see, through any number of kills and failing calls.
    ensures Sealable(host.facts, old(host.disk)) && old(host.disk).persistent == Vacant
            && !host.facts.chownKeepsSetgid && host.edits == old(host.edits) ==>
      exists p :: MutableFiles(p) && p.config.data == RawPair(old(host.disk)).value.config.data
                  && host.disk == HandedBackDisk(p)
    // What an earlier interruption left pending is not sealed over but recovered.
    ensures CrashProof(host.facts, old(host.disk)) && old(host.disk).secondary.Some?
            && host.edits == old(host.edits) ==>
      !sealed.Ok? && host.disk == HandedBackDisk(FateOf(host.facts, old(host.disk)).pair)
    // The course of a restart that the sandbox edits under.
    ensures course.captured.Some? && host.edits == course.edits ==>
      exists p :: MutableFiles(p) && p.config.data == course.captured.value.config.data
                  && host.disk == HandedBackDisk(p)
    ensures course.captured.None? && IsMutable(old(host.disk)) && course.cut.secondary != old(host.disk.secondary)
            && !Stranded(host.facts, course.cut) ==>
      if SealableFiles(host.facts, course.cut)
      then host.edits == course.edits ==> host.disk == HandedBackDisk(RawPair(course.cut).value)
      else W.RefusedOver(host.facts, course.cut, course.cut)
    ensures host.edits == old(host.edits) && course.captured.Some? ==> course.captured == RawPair(old(host.disk))
    ensures Undisturbed(host) && Sealable(host.facts, old(host.disk)) ==>
      sealed == Ok(false) && unsealed == Ok(false) && course.captured.Some?
  {
    hide Coherent, FateOf, ValidRestart;
    host.Start();
    ghost var d0 := host.disk;
    if d0.secondary.Some? && CrashProof(host.facts, d0) {
      SteadyReads(host.facts, d0, d0.secondary.value);
    }
    sealed, unsealed, course := SealAndUnseal(host);
    ghost var d := host.disk;
    if course.captured.None? && host.edits == old(host.edits) && !host.facts.chownKeepsSetgid
       && Sealable(host.facts, d0) && d0.persistent == Vacant {
      CutOwesBytes(host.facts, d0, d);
    }
    if AwaitingSeal(host.facts, d) {
      if SealableFiles(host.facts, d) {
        SealCutOwesVisibleIff(host.facts, d);
      } else if !Stranded(host.facts, d) {
        SealCutIsKeptOrRefused(host.facts, d);
      }
    }
    R.RecoverUntilDone(host);
    if course.captured.Some? && host.edits == course.edits {
      assert host.disk == HandedBackDisk(FateOf(host.facts, d).pair);
    }
  }
}
