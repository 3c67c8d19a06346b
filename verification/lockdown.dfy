/** The lock action: containment that no journal, planted entry or failing step vetoes
    once the tree is frozen. */
module Lockdown {
  import opened Basics
  import opened GuardTypes
  import opened RecoverySpec
  import opened HostModel
  import opened Transitions
  import opened Postures
  import HashRecord

  /** No call failed and no sandbox edit took effect. */
  twostate predicate Undisturbed(host: Host)
    reads host
  {
    host.faults == old(host.faults) && host.edits == old(host.edits)
  }

  function LockedEntry(data: Bytes): Entry {
    Regular(Image(Root, Root, MODE_0444, data), 1)
  }

  /** Only the two protected names differ. */
  predicate OnlyFilesDiffer(a: Disk, b: Disk) {
    OnlyEntriesDiffer(a, b) && a.persistent == b.persistent
  }

  /** A capturable config keeps its bytes, whichever of its images is now in place. */
  predicate KeepsConfigBytes(a: Disk, b: Disk) {
    var was := Captured(a.configFile, MAX_CONFIG_BYTES);
    var now := Captured(b.configFile, MAX_CONFIG_BYTES);
    was.Some? ==> now.Some? && now.value.data == was.value.data
  }

  /** The same, and a pair that can be captured whole stays one. */
  predicate KeepsCapture(a: Disk, b: Disk) {
    KeepsConfigBytes(a, b) && (RawPair(a).Some? ==> RawPair(b).Some?)
  }

  predicate MutableEntry(e: Entry) {
    e.Regular? && MutableImage(e.image)
  }

  /** Containment puts nothing in place that would pass for the sandbox's own. */
  predicate NoneHandedOut(a: Disk, b: Disk) {
    && (b.configFile == a.configFile || !MutableEntry(b.configFile))
    && (b.hashFile == a.hashFile || !MutableEntry(b.hashFile))
  }

  /** _force_replace_bytes for openclaw.json; a directory at the name is moved away. */
  method ForceReplaceConfig(host: Host, data: Bytes) returns (r: Outcome<()>)
    requires host.alive
    modifies host
    ensures host.Onward()
    ensures host.alive <==> !r.Killed?
    ensures OnlyEntriesDiffer(old(host.disk), host.disk)
    ensures r.Killed? ==> host.faults > old(host.faults)
    ensures !r.Ok? ==> host.faults > old(host.faults) || |data| > MAX_CONFIG_BYTES || host.edits > old(host.edits)
    ensures |data| > MAX_CONFIG_BYTES ==>
      r.Raised? && host.disk == old(host.disk) && host.schedule == old(host.schedule)
    ensures !SandboxReaches(old(host.disk)) ==> host.edits == old(host.edits)
    ensures host.edits == old(host.edits) ==>
      && OnlyFilesDiffer(old(host.disk), host.disk) && host.disk.hashFile == old(host.disk.hashFile)
      && (r.Ok? ==> host.disk.configFile == LockedEntry(data))
      && (|| host.disk.configFile == old(host.disk.configFile)
          || host.disk.configFile == LockedEntry(data)
          || (old(host.disk.configFile).Directory? && host.disk.configFile.Absent?))
  {
    if |data| > MAX_CONFIG_BYTES {
      return Raised(GuardError("config-file-too-large"));
    }
    if host.disk.configFile.Directory? {
      var _ :- host.PublishConfig(Absent);
    }
    r := host.PublishConfig(LockedEntry(data));
  }

  /** _force_replace_bytes for .config-hash. */
  method ForceReplaceHash(host: Host, data: Bytes) returns (r: Outcome<()>)
    requires host.alive
    modifies host
    ensures host.Onward()
    ensures host.alive <==> !r.Killed?
    ensures OnlyEntriesDiffer(old(host.disk), host.disk)
    ensures r.Killed? ==> host.faults > old(host.faults)
    ensures !r.Ok? ==> host.faults > old(host.faults) || |data| > MAX_HASH_BYTES || host.edits > old(host.edits)
    ensures |data| > MAX_HASH_BYTES ==>
      r.Raised? && host.disk == old(host.disk) && host.schedule == old(host.schedule)
    ensures !SandboxReaches(old(host.disk)) ==> host.edits == old(host.edits)
    ensures host.edits == old(host.edits) ==>
      && OnlyFilesDiffer(old(host.disk), host.disk) && host.disk.configFile == old(host.disk.configFile)
      && (r.Ok? ==> host.disk.hashFile == LockedEntry(data))
      && (|| host.disk.hashFile == old(host.disk.hashFile)
          || host.disk.hashFile == LockedEntry(data)
          || (old(host.disk.hashFile).Directory? && host.disk.hashFile.Absent?))
  {
    if |data| > MAX_HASH_BYTES {
      return Raised(GuardError("config-file-too-large"));
    }
    if host.disk.hashFile.Directory? {
      var _ :- host.PublishHash(Absent);
    }
    r := host.PublishHash(LockedEntry(data));
  }

  /** _install_stored_pair followed by the strict capture. */
  method InstallThenSnapshot(host: Host, targets: Pair<Image>) returns (r: Outcome<()>)
    requires host.alive
    requires Bounded(targets) && Coherent(host.facts, targets)
    modifies host
    ensures host.Onward()
    ensures host.alive <==> !r.Killed?
    ensures r.Killed? ==> host.faults > old(host.faults)
    ensures OnlyEntriesDiffer(old(host.disk), host.disk)
    ensures r.Ok? ==> RawPair(host.disk).Some? && Coherent(host.facts, RawPair(host.disk).value)
    ensures !SandboxReaches(old(host.disk)) ==> host.edits == old(host.edits)
    ensures host.edits == old(host.edits) ==>
      && InstallCut(old(host.disk), targets, host.disk)
      && (r.Ok? ==> Holds(host.disk, targets))
      && (RawPair(old(host.disk)).None? ==> !r.Ok? && host.disk == old(host.disk))
      && (!r.Ok? ==> host.faults > old(host.faults)
                     || (r.Raised? && RawPair(old(host.disk)).None?))
    ensures r.Raised? ==> !r.error.HandoffError?
  {
    var _ :- InstallPair(host, targets);
    var _ :- SnapshotPair(host);
    return Ok(());
  }

  /** Fresh-publish a pair without looking at what is in place. */
  method ForcePair(host: Host, config: Bytes, hash: Bytes) returns (r: Outcome<()>)
    requires host.alive
    requires |config| <= MAX_CONFIG_BYTES && |hash| <= MAX_HASH_BYTES
    requires HashRecord.Matches(host.facts, config, hash)
    modifies host
    ensures host.Onward()
    ensures host.alive <==> !r.Killed?
    ensures r.Killed? ==> host.faults > old(host.faults)
    ensures OnlyEntriesDiffer(old(host.disk), host.disk)
    ensures !SandboxReaches(old(host.disk)) ==> host.edits == old(host.edits)
    ensures host.edits == old(host.edits) ==>
      && OnlyFilesDiffer(old(host.disk), host.disk)
      && (!r.Ok? ==> host.faults > old(host.faults))
      && (r.Ok? ==> host.disk.configFile == LockedEntry(config) && host.disk.hashFile == LockedEntry(hash))
      && (|| host.disk.configFile == old(host.disk.configFile)
          || host.disk.configFile == LockedEntry(config)
          || (old(host.disk.configFile).Directory? && host.disk.configFile.Absent?))
      && (host.disk.hashFile != old(host.disk.hashFile) ==> host.disk.configFile == LockedEntry(config))
      && NoneHandedOut(old(host.disk), host.disk)
  {
    var _ :- ForceReplaceConfig(host, config);
    var _ :- ForceReplaceHash(host, hash);
    var _ :- SnapshotPair(host);
    return Ok(());
  }

  /** The route for a pair that can be captured whole: install, and if that raises, force. */
  method SealCapturedPair(host: Host, current: Pair<Image>) returns (r: Outcome<()>)
    requires host.alive
    requires RawPair(host.disk) == Some(current)
    modifies host
    ensures host.Onward()
    ensures host.alive <==> !r.Killed?
    ensures r.Killed? ==> host.faults > old(host.faults)
    ensures OnlyEntriesDiffer(old(host.disk), host.disk)
    ensures !SandboxReaches(old(host.disk)) ==> host.edits == old(host.edits)
    ensures host.edits == old(host.edits) ==>
      && OnlyFilesDiffer(old(host.disk), host.disk) && KeepsConfigBytes(old(host.disk), host.disk)
      && NoneHandedOut(old(host.disk), host.disk)
      && (!r.Ok? ==> host.faults > old(host.faults))
      && (r.Raised? ==> host.faults > old(host.faults) + 1)
      && (host.faults <= old(host.faults) + 1 ==> RawPair(host.disk).Some?)
      && (r.Ok? ==> Holds(host.disk, Canonical(host.facts, current.config.data, true)))
  {
    var targets := Canonical(host.facts, current.config.data, true);
    CanonicalIsCoherent(host.facts, current.config.data, true);
    r := InstallThenSnapshot(host, targets);
    if r.Raised? {
      r := ForcePair(host, targets.config.data, targets.hash.data);
    }
  }

  /** The route for a pair whose hash file cannot be captured: republish from config alone. */
  method SealConfigOnly(host: Host) returns (r: Outcome<()>)
    requires host.alive
    modifies host
    ensures host.Onward()
    ensures host.alive <==> !r.Killed?
    ensures r.Killed? ==> host.faults > old(host.faults)
    ensures OnlyEntriesDiffer(old(host.disk), host.disk)
    ensures !SandboxReaches(old(host.disk)) ==> host.edits == old(host.edits)
    ensures host.edits == old(host.edits) ==>
      var config := Captured(old(host.disk).configFile, MAX_CONFIG_BYTES);
      && OnlyFilesDiffer(old(host.disk), host.disk) && KeepsConfigBytes(old(host.disk), host.disk)
      && NoneHandedOut(old(host.disk), host.disk)
      && (!r.Ok? ==> host.faults > old(host.faults) || (r.Raised? && config.None?))
      && (r.Ok? ==> config.Some? && Holds(host.disk, Canonical(host.facts, config.value.data, true)))
  {
    var _ :- host.Observe();
    var config := Captured(host.disk.configFile, MAX_CONFIG_BYTES);
    if config.None? {
      return Raised(GuardError("unsafe-config-file"));
    }
    var record := HashRecord.RecordFor(host.facts.sha256(config.value.data));
    HashRecord.RecordForMatches(host.facts, config.value.data, host.facts.sha256(config.value.data));
    r := ForcePair(host, config.value.data, record);
  }

  /** Move both canonical names aside; a failed rename is only recorded. */
  method SeverBoth(host: Host) returns (r: Outcome<()>)
    requires host.alive
    modifies host
    ensures host.Onward()
    ensures host.alive <==> !r.Killed?
    ensures !r.Ok? ==> host.faults > old(host.faults)
    ensures OnlyEntriesDiffer(old(host.disk), host.disk)
    ensures !SandboxReaches(old(host.disk)) ==> host.edits == old(host.edits)
    ensures host.edits == old(host.edits) ==>
      && OnlyFilesDiffer(old(host.disk), host.disk)
      && (host.disk.configFile.Absent? || host.disk.configFile == old(host.disk.configFile))
      && NoneHandedOut(old(host.disk), host.disk)
      && (host.faults == old(host.faults) ==> host.disk.configFile.Absent? && host.disk.hashFile.Absent?)
  {
    var a := host.PublishConfig(Absent);
    if a.Killed? {
      return Killed;
    }
    var b := host.PublishHash(Absent);
    if b.Killed? {
      return Killed;
    }
    r := host.Observe();
  }

  /** Root already owns the directory when containment starts. */
  predicate RootHeld(d: Disk) {
    d.config.user == Root && d.config.group == Root
  }

  /** The canonical locked pair by whichever route works, or no canonical names at all. */
  method PublishOrSever(host: Host) returns (r: Outcome<()>)
    requires host.alive
    modifies host
    ensures host.Onward()
    ensures host.alive <==> !r.Killed?
    ensures !r.Ok? ==> host.faults > old(host.faults)
    ensures OnlyEntriesDiffer(old(host.disk), host.disk)
    ensures !SandboxReaches(old(host.disk)) ==> host.edits == old(host.edits)
    ensures host.edits == old(host.edits) ==>
      var config := Captured(old(host.disk).configFile, MAX_CONFIG_BYTES);
      && host.disk.persistent == old(host.disk.persistent)
      && NoneHandedOut(old(host.disk), host.disk)
      && (config.Some? && host.faults == old(host.faults) ==>
            Holds(host.disk, Canonical(host.facts, config.value.data, true)))
      && (config.None? && host.faults == old(host.faults) ==>
            host.disk.configFile.Absent? && host.disk.hashFile.Absent?)
      // Any one failing call is worked around, if the pair can be captured at all.
      && (RawPair(old(host.disk)).Some? && !r.Killed? && host.faults <= old(host.faults) + 1 ==>
            Holds(host.disk, Canonical(host.facts, config.value.data, true)))
      && (r.Killed? && host.faults == old(host.faults) + 1 ==> KeepsCapture(old(host.disk), host.disk))
  {
    var current := SnapshotRawPair(host);
    if current.Killed? {
      return Killed;
    }
    if current.Ok? {
      var sealed := SealCapturedPair(host, current.value);
      return if sealed.Killed? then Killed else Ok(());
    }
    var sealed := SealConfigOnly(host);
    if sealed.Killed? {
      return Killed;
    }
    if sealed.Raised? {
      r := SeverBoth(host);
      return;
    }
    return Ok(());
  }

  /** _force_fail_closed_lock: errors are collected, not raised; a config that cannot be
      republished is moved off its canonical name. */
  method ForceFailClosedLock(host: Host) returns (r: Outcome<()>)
    requires host.alive
    modifies host
    ensures host.Onward()
    ensures host.alive <==> !r.Killed?
    ensures !r.Ok? ==> host.faults > old(host.faults)
    ensures host.disk.secondary == old(host.disk.secondary)
    ensures RootHeld(old(host.disk)) ==> host.edits == old(host.edits)
    ensures host.faults == old(host.faults) ==> IsLocked(host.disk)
    ensures Undisturbed(host) ==> ContainedOver(host.facts, old(host.disk), host.disk)
    ensures RootHeld(old(host.disk)) ==>
      || host.disk.config == old(host.disk.config)
      || host.disk.config == CLAMPED_CONFIG || host.disk.config == LOCKED_CONFIG
    ensures host.edits == old(host.edits) ==>
      var config := Captured(old(host.disk).configFile, MAX_CONFIG_BYTES);
      && NoneHandedOut(old(host.disk), host.disk)
      && host.disk.persistent == old(host.disk.persistent)
      && (RawPair(old(host.disk)).Some? && !r.Killed? && host.faults <= old(host.faults) + 1 ==>
            Holds(host.disk, Canonical(host.facts, config.value.data, true)))
      && (r.Killed? && host.faults == old(host.faults) + 1 ==>
            && KeepsCapture(old(host.disk), host.disk)
            && (config.Some? && host.disk.parent != old(host.disk.parent) && IsLocked(host.disk) ==>
                  SealedOver(host.facts, host.disk, config.value.data))
            && (host.disk.parent != old(host.disk.parent) ==>
                  host.disk.config == LOCKED_CONFIG && ParentLockCut(old(host.disk.parent), host.disk.parent)))
  {
    hide Coherent, HashRecord.RecordFor;
    ghost var config := Captured(host.disk.configFile, MAX_CONFIG_BYTES);
    if config.Some? {
      CanonicalIsCoherent(host.facts, config.value.data, true);
    }
    var _ :- PublishOrSever(host);
    var locked := CommitLockedDirs(host);
    return if locked.Killed? then Killed else Ok(());
  }

  /** The tree is locked over the canonical pair for these config bytes. */
  predicate SealedOver(facts: Facts, d: Disk, bytes: Bytes) {
    IsLocked(d) && RawPair(d) == Some(Canonical(facts, bytes, true))
  }

  /** The tree d0 has been locked over its config bytes, or without either file if it had none
      that could be captured. */
  predicate ContainedOver(facts: Facts, d0: Disk, d: Disk) {
    var config := Captured(d0.configFile, MAX_CONFIG_BYTES);
    && IsLocked(d)
    && (if config.Some? then SealedOver(facts, d, config.value.data) else d.configFile.Absent? && d.hashFile.Absent?)
  }

  lemma SealedIsCoherent(facts: Facts, d: Disk, bytes: Bytes)
    requires SealedOver(facts, d, bytes)
    ensures Coherent(facts, RawPair(d).value) && LockedFiles(RawPair(d).value)
    ensures Holds(d, Canonical(facts, bytes, true))
  {
    CanonicalIsCoherent(facts, bytes, true);
  }

  // ----- settling a pending transaction

  /** What the /etc record alone asks for, if it decodes and replacement had begun. */
  function SettledPair(facts: Facts, d: Disk): Option<Pair<Image>> {
    match d.secondary
    case None => None
    case Some(r) =>
      if r.Write? && DecodesWrite(facts, r) && r.phase != Prepared then
        Some(if r.phase == Committed then r.replacements else r.originals)
      else if r.Restart? && ValidRestart(facts, r) && !r.originalLocked
              && r.restartPhase != SealPrepared then
        Some(Canonical(facts, r.originals.config.data, false))
      else None
  }

  /** Lock puts back nothing but what a record vouches for: the new pair with its digest and hash
      record, a pair the guard captured, or the captured bytes of a restart. */
  lemma SettledPairIsSound(facts: Facts, d: Disk)
    requires SettledPair(facts, d).Some?
    ensures var r, p := d.secondary.value, SettledPair(facts, d).value;
      && Bounded(p)
      && (if r.Write? then
            && r.phase != Prepared
            && (if r.phase == Committed
                then p == r.replacements && facts.sha256(p.config.data) == r.digest && Coherent(facts, p)
                else p == r.originals)
          else
            && !r.originalLocked && r.restartPhase != SealPrepared
            && p.config.data == r.originals.config.data && facts.sha256(p.config.data) == r.digest
            && facts.json5Object(p.config.data) && Coherent(facts, p))
  {
    var r := d.secondary.value;
    if r.Write? {
      HashRecord.RecordForMatches(facts, r.replacements.config.data, r.digest);
    } else {
      CanonicalIsCoherent(facts, r.originals.config.data, false);
    }
  }

  /** The disk once the record has been honoured, where the files allow it, and retired. */
  function SettledDisk(facts: Facts, d: Disk): Disk {
    var target := SettledPair(facts, d);
    var cleared := d.(secondary := None, persistent := Vacant);
    if target.Some? && RawPair(d).Some?
    then cleared.(configFile := Regular(target.value.config, 1), hashFile := Regular(target.value.hash, 1))
    else cleared
  }

  lemma SettledPairIsBounded(facts: Facts, d: Disk)
    ensures SettledPair(facts, d).Some? ==> Bounded(SettledPair(facts, d).value)
  {
    if d.secondary.Some? && d.secondary.value.Restart? {
      CanonicalIsCoherent(facts, d.secondary.value.originals.config.data, false);
    }
  }

  /** A further lock would seal the same bytes. */
  predicate SealsSame(facts: Facts, d0: Disk, d: Disk) {
    var before, after := LockFateOf(facts, d0), LockFateOf(facts, d);
    before.Seals? ==> after.Seals? && after.bytes == before.bytes
  }

  /** A tree whose directories look locked really is sealed over these bytes. */
  predicate NoHalfLock(facts: Facts, d: Disk, bytes: Bytes) {
    IsLocked(d) || IsClamped(d) ==> SealedOver(facts, d, bytes) && d.secondary.None?
  }

  /** The part of InstallCut that concerns the two names. */
  predicate FilesCut(d0: Disk, p: Pair<Image>, d: Disk) {
    || (d.configFile == d0.configFile && d.hashFile == d0.hashFile)
    || (d.configFile == Regular(p.config, 1) && (d.hashFile == d0.hashFile || d.hashFile == Regular(p.hash, 1)))
  }

  /** Each cut of the settling of a transaction leaves the bytes to be sealed as they were. */
  lemma SettlingSealsSame(facts: Facts, d0: Disk, d: Disk)
    requires d.secondary == d0.secondary
    requires SettledPair(facts, d0).Some? && RawPair(d0).Some? ==> FilesCut(d0, SettledPair(facts, d0).value, d)
    requires SettledPair(facts, d0).None? || RawPair(d0).None? ==>
      d.configFile == d0.configFile && d.hashFile == d0.hashFile
    ensures SealsSame(facts, d0, d)
  {
    SettledPairIsBounded(facts, d0);
    assert SettledPair(facts, d) == SettledPair(facts, d0);
  }

  lemma ClearingSealsSame(facts: Facts, d0: Disk, d1: Disk, d: Disk)
    requires d1.secondary == d0.secondary
    requires d1.configFile == SettledDisk(facts, d0).configFile && d1.hashFile == SettledDisk(facts, d0).hashFile
    requires d.configFile == d1.configFile && d.hashFile == d1.hashFile
    requires d.secondary == None || d.secondary == d0.secondary
    ensures SealsSame(facts, d0, d)
  {
    SettledPairIsBounded(facts, d0);
    if d.secondary == d0.secondary {
      SettlingSealsSame(facts, d0, d);
    } else {
      assert SettledPair(facts, d).None?;
    }
  }

  /** So does each cut of a containment that met no failing call. */
  lemma ContainmentSealsSame(facts: Facts, d0: Disk, d: Disk)
    requires d.secondary == d0.secondary && KeepsCapture(d0, d)
    requires RawPair(d0).Some? || SettledPair(facts, d0).None?
    ensures SealsSame(facts, d0, d)
  {
    SettledPairIsBounded(facts, d0);
    assert SettledPair(facts, d) == SettledPair(facts, d0);
  }

  /** Past the settling: no record left, and the config bytes are the settled ones. */
  predicate HoldsSettledBytes(facts: Facts, d0: Disk, d: Disk) {
    d.secondary.None? && KeepsConfigBytes(SettledDisk(facts, d0), d)
  }

  lemma SettledSealsSame(facts: Facts, d0: Disk, d: Disk)
    requires HoldsSettledBytes(facts, d0, d)
    ensures SealsSame(facts, d0, d)
  {
    assert SettledPair(facts, d).None?;
  }

  /** _settle_pending_transaction_for_lock: nothing it meets is raised. */
  method SettlePendingTransaction(host: Host) returns (r: Outcome<()>)
    requires host.alive
    requires host.disk.config.user == Root
    modifies host
    ensures host.Onward() && host.edits == old(host.edits)
    ensures host.alive <==> !r.Killed?
    ensures !r.Ok? ==> r.Killed? && host.faults > old(host.faults)
    ensures host.disk.parent == old(host.disk.parent) && host.disk.config == old(host.disk.config)
    ensures host.faults == old(host.faults) ==>
      host.disk == SettledDisk(host.facts, old(host.disk))
    ensures SettledPair(host.facts, old(host.disk)).None? ==>
      host.disk.configFile == old(host.disk.configFile) && host.disk.hashFile == old(host.disk.hashFile)
    ensures old(host.disk).secondary.None? ==> host.disk.secondary.None?
    ensures r.Killed? && host.faults == old(host.faults) + 1 ==> SealsSame(host.facts, old(host.disk), host.disk)
  {
    ghost var d0 := host.disk;
    SettledPairIsBounded(host.facts, d0);
    var read := host.Observe();
    if read.Killed? {
      return Killed;
    }
    var target := if read.Ok? then SettledPair(host.facts, host.disk) else None;
    if target.Some? {
      SettledPairIsBounded(host.facts, host.disk);
      var installed := InstallPair(host, target.value);
      if installed.Killed? {
        if host.faults == old(host.faults) + 1 {
          SettlingSealsSame(host.facts, d0, host.disk);
        }
        return Killed;
      }
    }
    ghost var d1 := host.disk;
    r := ClearJournals(host);
    if host.faults <= old(host.faults) + 1 && r.Killed? {
      ClearingSealsSame(host.facts, d0, d1, host.disk);
    }
  }

  /** _clear_journal with the fallbacks lock wraps around it. */
  method ClearJournals(host: Host) returns (r: Outcome<()>)
    requires host.alive
    requires host.disk.config.user == Root
    modifies host
    ensures host.Onward() && host.edits == old(host.edits)
    ensures host.alive <==> !r.Killed?
    ensures !r.Ok? ==> r.Killed? && host.faults > old(host.faults)
    ensures host.disk == old(host.disk).(secondary := host.disk.secondary, persistent := host.disk.persistent)
    ensures host.disk.secondary == None || host.disk.secondary == old(host.disk.secondary)
    ensures host.faults == old(host.faults) ==>
      host.disk.secondary == None && host.disk.persistent == Vacant
    // Any one failing call is worked around, if the entry may be moved at all.
    ensures host.faults <= old(host.faults) + 1 && !r.Killed? && Quarantinable(old(host.disk.persistent)) ==>
      host.disk.secondary == None && host.disk.persistent == Vacant
  {
    var first := host.PutPersistent(Vacant);
    if first.Killed? {
      return Killed;
    }
    if first.Raised? {
      var moved := Quarantine(host);
      if moved.Killed? {
        return Killed;
      }
    }
    var second := host.PutSecondary(None);
    if second.Killed? {
      return Killed;
    }
    if first.Ok? && second.Raised? {
      var moved := Quarantine(host);
      if moved.Killed? {
        return Killed;
      }
      var again := host.PutSecondary(None);
      if again.Killed? {
        return Killed;
      }
    }
    return Ok(());
  }

  /** _repair_absent_hash_for_lock: only a truly absent hash is synthesised. */
  method RepairAbsentHash(host: Host) returns (r: Outcome<()>)
    requires host.alive
    requires IsFrozen(host.disk)
    modifies host
    ensures host.Onward() && host.edits == old(host.edits)
    ensures host.alive <==> !r.Killed?
    ensures OnlyFilesDiffer(old(host.disk), host.disk) && host.disk.configFile == old(host.disk.configFile)
    ensures !old(host.disk).hashFile.Absent? ==> host.disk == old(host.disk)
    ensures var config := Captured(old(host.disk).configFile, MAX_CONFIG_BYTES);
      && (!r.Ok? ==> host.faults > old(host.faults)
                     || (r.Raised? && old(host.disk).hashFile.Absent? && config.None?))
      && (r.Ok? && old(host.disk).hashFile.Absent? ==> config.Some?)
      && (r.Ok? && old(host.disk).hashFile.Absent? ==>
            host.disk.hashFile == LockedEntry(HashRecord.RecordFor(host.facts.sha256(config.value.data))))
    ensures r.Raised? ==> !r.error.HandoffError?
  {
    var _ :- host.Observe();
    if !host.disk.hashFile.Absent? {
      return Ok(());
    }
    var _ :- host.Observe();
    var config := Captured(host.disk.configFile, MAX_CONFIG_BYTES);
    if config.None? {
      return Raised(GuardError("unsafe-config-file"));
    }
    HashRecord.RecordForMatches(host.facts, config.value.data, host.facts.sha256(config.value.data));
    var forced := ForceReplaceHash(host, HashRecord.RecordFor(host.facts.sha256(config.value.data)));
    return if forced.Raised? then Raised(OsError) else forced;
  }

  // ----- the lock transition

  /** The config bytes an undisturbed lock seals, and whether it reports success. */
  datatype LockFate = Seals(bytes: Bytes, reported: bool) | CannotSeal

  predicate OrdinaryParent(d: Disk) {
    d.parent.mode == MODE_0755 || d.parent.mode == MODE_0555
  }

  predicate HashIsUsable(d: Disk) {
    d.hashFile.Absent? || Captured(d.hashFile, MAX_HASH_BYTES).Some?
  }

  function LockFateOf(facts: Facts, d: Disk): LockFate {
    var settled := SettledDisk(facts, d);
    var config := Captured(settled.configFile, MAX_CONFIG_BYTES);
    if config.None? then CannotSeal
    else Seals(config.value.data, HashIsUsable(settled))
  }

  /** Install and verify the canonical locked pair for the visible config, then lock the directories. */
  method SealVisiblePair(host: Host) returns (r: Outcome<()>)
    requires host.alive
    requires IsFrozen(host.disk)
    modifies host
    ensures host.Onward() && host.edits == old(host.edits)
    ensures host.alive <==> !r.Killed?
    ensures IsClosed(host.disk)
    ensures host.disk.secondary == old(host.disk.secondary)
    ensures host.disk.persistent == old(host.disk.persistent)
    ensures !r.Ok? ==> host.faults > old(host.faults)
                       || (r.Raised? && RawPair(old(host.disk)).None? && host.disk == old(host.disk))
    ensures r.Ok? ==> RawPair(old(host.disk)).Some?
    ensures r.Ok? ==> SealedOver(host.facts, host.disk, RawPair(old(host.disk)).value.config.data)
    ensures KeepsConfigBytes(old(host.disk), host.disk)
    ensures OrdinaryParent(host.disk) || IsLocked(host.disk)
    ensures IsLocked(host.disk) || IsClamped(host.disk) ==>
      && RawPair(old(host.disk)).Some?
      && SealedOver(host.facts, host.disk, RawPair(old(host.disk)).value.config.data)
  {
    hide HashRecord.Matches, HashRecord.RecordFor;
    var source :- SnapshotRawPair(host);
    CanonicalIsCoherent(host.facts, source.config.data, true);
    var _ :- InstallThenSnapshot(host, Canonical(host.facts, source.config.data, true));
    var _ :- CommitLockedDirs(host);
    return Ok(());
  }

  /** Settle the transaction, then synthesise an absent hash. */
  method SettleAndRepair(host: Host) returns (r: Outcome<()>)
    requires host.alive
    requires IsFrozen(host.disk)
    modifies host
    ensures host.Onward() && host.edits == old(host.edits)
    ensures host.alive <==> !r.Killed?
    ensures IsFrozen(host.disk)
    ensures host.faults == old(host.faults) ==>
      var settled := SettledDisk(host.facts, old(host.disk));
      && !r.Killed?
      && host.disk.secondary == None && host.disk.persistent == Vacant
      && host.disk.configFile == settled.configFile
      && (!settled.hashFile.Absent? ==> host.disk == settled && r.Ok?)
      && (settled.hashFile.Absent? ==>
            (r.Ok? <==> Captured(settled.configFile, MAX_CONFIG_BYTES).Some?)
            && (r.Ok? ==> RawPair(host.disk).Some?))
    ensures r.Killed? && host.faults == old(host.faults) + 1 ==> SealsSame(host.facts, old(host.disk), host.disk)
  {
    ghost var d0 := host.disk;
    var _ :- SettlePendingTransaction(host);
    ghost var settled := host.disk;
    r := RepairAbsentHash(host);
    if HoldsSettledBytes(host.facts, d0, host.disk) {
      SettledSealsSame(host.facts, d0, host.disk);
    }
    if r.Ok? && settled.hashFile.Absent? && Captured(settled.configFile, MAX_CONFIG_BYTES).Some? {
      var config := Captured(settled.configFile, MAX_CONFIG_BYTES).value;
      CanonicalIsCoherent(host.facts, config.data, true);
    }
  }

  lemma LockFateIgnoresPosture(facts: Facts, a: Disk, b: Disk)
    requires a.secondary == b.secondary && SameEntries(a, b)
    ensures LockFateOf(facts, a) == LockFateOf(facts, b)
  {
    assert SettledPair(facts, a) == SettledPair(facts, b);
    assert RawPair(a) == RawPair(b);
  }

  /** Everything lock does between the freeze and the point where an error is contained. */
  method SealFrozenTree(host: Host) returns (r: Outcome<()>)
    requires host.alive
    requires IsFrozen(host.disk)
    modifies host
    ensures host.Onward() && host.edits == old(host.edits)
    ensures host.alive <==> !r.Killed?
    ensures IsClosed(host.disk)
    ensures r.Ok? ==> exists bytes :: SealedOver(host.facts, host.disk, bytes)
    ensures host.faults == old(host.faults) ==>
      var fate := LockFateOf(host.facts, old(host.disk));
      && !r.Killed?
      && (r.Ok? <==> fate.Seals? && fate.reported)
      && (r.Ok? ==> SealedOver(host.facts, host.disk, fate.bytes))
      && host.disk.secondary == None && host.disk.persistent == Vacant
      && (!r.Ok? ==> IsFrozen(host.disk)
                     && host.disk.configFile == SettledDisk(host.facts, old(host.disk)).configFile)
    ensures r.Killed? ==> host.faults > old(host.faults)
    ensures OrdinaryParent(host.disk) || IsLocked(host.disk)
    ensures r.Killed? && host.faults == old(host.faults) + 1 ==>
      && SealsSame(host.facts, old(host.disk), host.disk)
      && (LockFateOf(host.facts, old(host.disk)).Seals? ==>
            NoHalfLock(host.facts, host.disk, LockFateOf(host.facts, old(host.disk)).bytes))
  {
    ghost var d0 := host.disk;
    var _ :- SettleAndRepair(host);
    r := SealVisiblePair(host);
    if HoldsSettledBytes(host.facts, d0, host.disk) {
      SettledSealsSame(host.facts, d0, host.disk);
    }
  }

  /** Lock on a tree whose directories are already locked or clamped: settle, then verify. */
  method RelockLockedTree(host: Host) returns (r: Outcome<()>)
    requires host.alive
    requires IsClamped(host.disk) || IsLocked(host.disk)
    modifies host
    ensures host.Onward()
    ensures host.alive <==> !r.Killed?
    ensures host.disk.parent == old(host.disk.parent) && host.disk.config == old(host.disk.config)
    ensures r.Ok? ==> FilesAreSealed(host.facts, host.disk)
    ensures IsClamped(old(host.disk)) ==> host.disk == old(host.disk)
    ensures r.Killed? ==> host.faults > old(host.faults)
    ensures host.edits == old(host.edits)
    ensures SettledPair(host.facts, old(host.disk)).None? ==>
      && host.disk.configFile == old(host.disk.configFile) && host.disk.hashFile == old(host.disk.hashFile)
    ensures old(host.disk).secondary.None? ==> host.disk.secondary.None?
    ensures Undisturbed(host) && IsLocked(old(host.disk)) ==>
      && host.disk == SettledDisk(host.facts, old(host.disk))
      && (r.Ok? <==> FilesAreSealed(host.facts, host.disk))
  {
    if IsLocked(host.disk) {
      var _ :- SettlePendingTransaction(host);
    }
    var pair :- SnapshotPair(host);
    return if LockedFiles(pair) then Ok(()) else Raised(GuardError("config-not-locked"));
  }

  /** The run ended in its first fault, which was a kill, and nobody edited. */
  twostate predicate KilledOnce(host: Host, r: Outcome<()>)
    reads host
  {
    r.Killed? && host.faults == old(host.faults) + 1 && host.edits == old(host.edits)
  }

  /** Freeze, seal, and contain whatever goes wrong after the freeze. */
  method FreezeAndSeal(host: Host) returns (r: Outcome<()>, ghost frozen: bool)
    requires host.alive
    requires host.disk.parent == FROZEN_PARENT
    modifies host
    ensures host.Onward() && (r.Killed? ==> host.faults > old(host.faults))
    ensures host.alive <==> !r.Killed?
    ensures frozen ==> IsClosed(host.disk)
    // Any one failing call, wherever it strikes, and whatever the sandbox does.
    ensures !r.Killed? && host.errors <= old(host.errors) + 1 ==> IsClosed(host.disk)
    ensures r.Ok? ==> frozen && exists bytes :: SealedOver(host.facts, host.disk, bytes)
    ensures Undisturbed(host) ==>
      var fate := LockFateOf(host.facts, old(host.disk));
      && frozen
      && (r.Ok? <==> fate.Seals? && fate.reported)
      && (fate.Seals? ==> host.disk == LockedDisk(Canonical(host.facts, fate.bytes, true)))
    ensures KilledOnce(host, r) ==> OrdinaryParent(host.disk) || IsLocked(host.disk)
    ensures KilledOnce(host, r) ==>
      && SealsSame(host.facts, old(host.disk), host.disk)
      && (LockFateOf(host.facts, old(host.disk)).Seals? ==>
            NoHalfLock(host.facts, host.disk, LockFateOf(host.facts, old(host.disk)).bytes))
  {
    frozen := false;
    r := Freeze(host);
    if host.edits == old(host.edits) {
      LockFateIgnoresPosture(host.facts, old(host.disk), host.disk);
    }
    if !r.Ok? {
      if r.Raised? {
        var contained := ForceFailClosedLock(host);
        if contained.Killed? {
          r := Killed;
        }
      }
      return;
    }
    frozen := true;
    ghost var d1 := host.disk;
    r := SealFrozenTree(host);
    if r.Raised? {
      var contained := ForceFailClosedLock(host);
      if HoldsSettledBytes(host.facts, d1, host.disk) {
        SettledSealsSame(host.facts, d1, host.disk);
      }
      if contained.Killed? {
        r := Killed;
      }
    }
  }

  /** Both files are root-owned and read-only and the record matches. */
  predicate FilesAreSealed(facts: Facts, d: Disk) {
    var p := RawPair(d);
    p.Some? && Coherent(facts, p.value) && LockedFiles(p.value)
  }

  /** The first two calls, which take the parent directory, go well. */
  predicate PinsParent(schedule: seq<Event>) {
    forall i :: 0 <= i < 2 && i < |schedule| ==> schedule[i].fault == Proceed
  }

  /** _open_config_for_lock on a tree not yet locked pins the parent, then freeze and seal. */
  method LockUnlockedTree(host: Host) returns (r: Outcome<()>, ghost frozen: bool)
    requires host.alive
    requires !IsClamped(host.disk) && !IsLocked(host.disk)
    modifies host
    ensures host.Onward() && (r.Killed? ==> host.faults > old(host.faults))
    ensures host.alive <==> !r.Killed?
    ensures frozen || r.Ok? ==> IsClosed(host.disk)
    ensures PinsParent(old(host.schedule)) && !r.Killed? && host.errors <= old(host.errors) + 1 ==>
      IsClosed(host.disk)
    ensures r.Ok? ==> exists bytes :: SealedOver(host.facts, host.disk, bytes)
    ensures Undisturbed(host) ==>
      var fate := LockFateOf(host.facts, old(host.disk));
      && frozen
      && (r.Ok? <==> fate.Seals? && fate.reported)
      && (fate.Seals? ==> host.disk == LockedDisk(Canonical(host.facts, fate.bytes, true)))
    ensures KilledOnce(host, r) && OrdinaryParent(old(host.disk)) ==>
      OrdinaryParent(host.disk) || IsLocked(host.disk)
    ensures KilledOnce(host, r) && OrdinaryParent(old(host.disk)) ==>
      && SealsSame(host.facts, old(host.disk), host.disk)
      && (LockFateOf(host.facts, old(host.disk)).Seals? ==>
            NoHalfLock(host.facts, host.disk, LockFateOf(host.facts, old(host.disk)).bytes))
  {
    hide Coherent, HashRecord.RecordFor;
    frozen := false;
    r := host.ChownParent(Root, Sandbox);
    if !r.Ok? {
      return;
    }
    r := host.ChmodParent(MODE_0755);
    if !r.Ok? {
      return;
    }
    if host.edits == old(host.edits) {
      LockFateIgnoresPosture(host.facts, old(host.disk), host.disk);
    }
    r, frozen := FreezeAndSeal(host);
  }

  lemma SealedIsOutOfReach(facts: Facts, d: Disk)
    requires (IsLocked(d) || IsClamped(d)) && FilesAreSealed(facts, d)
    ensures OutOfReach(d) && !MayCreateIn(d.config)
  {
    hide Coherent;
    var p := RawPair(d).value;
    if IsLocked(d) {
      SealedOnTheBits(d, p);
    } else {
      ClampedOnTheBits(d, p);
    }
  }

  /** A lock is to seal these bytes, or has; nothing in between passes for locked. */
  predicate LockDue(facts: Facts, d: Disk, bytes: Bytes) {
    var fate := LockFateOf(facts, d);
    && fate.Seals? && fate.bytes == bytes && !IsClamped(d)
    && (if IsLocked(d) then SealedOver(facts, d, bytes) && d.secondary.None? else OrdinaryParent(d))
  }

  /** The lock action, from any posture, against any world. Once the freeze is complete the
      config directory is closed to the sandbox on every way out; so it is after any one failing
      call, once the parent directory was taken. Left undisturbed, it seals the bytes LockFateOf
      names, and reports success exactly when it says so. */
  method Lock(host: Host) returns (r: Outcome<()>, ghost frozen: bool)
    requires host.alive
    modifies host
    ensures host.Onward()
    ensures host.alive <==> !r.Killed?
    ensures frozen || r.Ok? ==> IsClosed(host.disk)
    ensures PinsParent(old(host.schedule)) && !r.Killed? && host.errors <= old(host.errors) + 1 ==>
      IsClosed(host.disk)
    ensures r.Ok? ==> FilesAreSealed(host.facts, host.disk)
    // In terms of owners and mode bits alone.
    ensures frozen || r.Ok? ==> !MayCreateIn(host.disk.config)
    ensures r.Ok? ==> OutOfReach(host.disk)
    ensures Undisturbed(host) && !IsClamped(old(host.disk)) && !IsLocked(old(host.disk)) ==>
      var fate := LockFateOf(host.facts, old(host.disk));
      && frozen
      && (r.Ok? <==> fate.Seals? && fate.reported)
      && (fate.Seals? ==> host.disk == LockedDisk(Canonical(host.facts, fate.bytes, true)))
    ensures Undisturbed(host) && IsLocked(old(host.disk)) ==>
      && host.disk == SettledDisk(host.facts, old(host.disk))
      && (r.Ok? <==> FilesAreSealed(host.facts, host.disk))
    ensures var fate := LockFateOf(host.facts, old(host.disk));
      fate.Seals? && LockDue(host.facts, old(host.disk), fate.bytes) ==>
        && (Undisturbed(host) ==> host.disk == LockedDisk(Canonical(host.facts, fate.bytes, true)))
        && (KilledOnce(host, r) ==> LockDue(host.facts, host.disk, fate.bytes))
    ensures r.Killed? ==> host.faults > old(host.faults)
  {
    frozen := false;
    if IsClamped(host.disk) || IsLocked(host.disk) {
      r := RelockLockedTree(host);
      if r.Ok? {
        SealedIsOutOfReach(host.facts, host.disk);
      }
      return;
    }
    r, frozen := LockUnlockedTree(host);
    if IsClosed(host.disk) {
      ClosedOnTheBits(host.disk);
    }
    if r.Ok? {
      var bytes :| SealedOver(host.facts, host.disk, bytes);
      SealedIsCoherent(host.facts, host.disk, bytes);
      SealedIsOutOfReach(host.facts, host.disk);
    }
  }

  /** Lock, run again after every kill, seals the bytes the first run was going to seal, if
      kills are all that went wrong. */
  method LockUntilDone(host: Host) returns (last: Outcome<()>)
    modifies host
    ensures host.Later() && !last.Killed?
    ensures host.edits == old(host.edits) && host.errors == old(host.errors) ==>
      var fate := LockFateOf(host.facts, old(host.disk));
      fate.Seals? && LockDue(host.facts, old(host.disk), fate.bytes) ==>
        host.disk == LockedDisk(Canonical(host.facts, fate.bytes, true))
  {
    ghost var d0, e0, n0 := host.disk, host.edits, host.errors;
    ghost var bytes := if LockFateOf(host.facts, d0).Seals? then LockFateOf(host.facts, d0).bytes else [];
    last := Killed;
    while last.Killed?
      invariant host.Later()
      invariant host.edits == e0 && host.errors == n0 && LockDue(host.facts, d0, bytes) ==>
        if last.Killed? then LockDue(host.facts, host.disk, bytes)
        else host.disk == LockedDisk(Canonical(host.facts, bytes, true))
      decreases last.Killed?, |host.schedule|
    {
      host.Start();
      ghost var frozen;
      last, frozen := Lock(host);
    }
  }
}
