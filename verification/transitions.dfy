/** The building blocks every guard action is made of: capture, freeze, install,
    hand back, lock down, and the journal writes. Each contract says what the disk
    is when the block completes and what it can be when the block is cut short. */
module Transitions {
  import opened Basics
  import opened GuardTypes
  import opened RecoverySpec
  import opened HostModel

  // ----- captures

  /** _snapshot_raw_pair: one stable pair of bounded regular files, or an error. */
  method SnapshotRawPair(host: Host) returns (r: Outcome<Pair<Image>>)
    requires host.alive
    modifies host
    ensures host.Onward()
    ensures host.alive <==> !r.Killed?
    ensures OnlyEntriesDiffer(old(host.disk), host.disk)
    ensures host.HandsOff()
    ensures host.edits == old(host.edits) ==> host.disk == old(host.disk)
    ensures !SandboxReaches(old(host.disk)) ==> host.edits == old(host.edits)
    ensures r.Ok? ==> RawPair(host.disk) == Some(r.value)
    ensures !r.Ok? ==> host.faults > old(host.faults) || (r.Raised? && RawPair(host.disk).None?)
    ensures r.Raised? ==> !r.error.HandoffError?
  {
    var _ :- host.Observe();
    var pair := RawPair(host.disk);
    return if pair.Some? then Ok(pair.value) else Raised(GuardError("unsafe-config-file"));
  }

  /** _snapshot_pair: additionally the hash record must match. */
  method SnapshotPair(host: Host) returns (r: Outcome<Pair<Image>>)
    requires host.alive
    modifies host
    ensures host.Onward()
    ensures host.alive <==> !r.Killed?
    ensures OnlyEntriesDiffer(old(host.disk), host.disk)
    ensures host.HandsOff()
    ensures host.edits == old(host.edits) ==> host.disk == old(host.disk)
    ensures !SandboxReaches(old(host.disk)) ==> host.edits == old(host.edits)
    ensures r.Ok? ==> RawPair(host.disk) == Some(r.value) && Coherent(host.facts, r.value)
    ensures !r.Ok? ==> host.faults > old(host.faults)
                       || (r.Raised? && (RawPair(host.disk).None?
                                         || !Coherent(host.facts, RawPair(host.disk).value)))
    ensures r.Raised? ==> !r.error.HandoffError?
  {
    var pair :- SnapshotRawPair(host);
    return if Coherent(host.facts, pair) then Ok(pair) else Raised(GuardError("config-hash-mismatch"));
  }

  // ----- freeze

  /** Where the postures can be when a freeze that began at d0 is cut short. */
  predicate FreezeCut(facts: Facts, d0: Disk, d: Disk) {
    && d.secondary == d0.secondary
    && (d.parent == d0.parent || d.parent == Chowned(facts, d0.parent, Root, Sandbox)
        || d.parent == FROZEN_PARENT)
    && (d.config == d0.config
        || (d.parent == FROZEN_PARENT
            && (d.config == Chowned(facts, d0.config, Root, Root) || d.config == FROZEN_CONFIG)))
  }

  method FreezeParent(host: Host) returns (r: Outcome<()>)
    requires host.alive
    modifies host
    ensures host.Onward()
    ensures host.alive <==> !r.Killed?
    ensures !r.Ok? ==> host.faults > old(host.faults)
    ensures host.HandsOff()
    ensures !SandboxReaches(old(host.disk)) ==> host.edits == old(host.edits)
    ensures host.edits == old(host.edits) ==> SameEntries(old(host.disk), host.disk)
    ensures host.disk.config == old(host.disk.config)
    ensures FreezeCut(host.facts, old(host.disk), host.disk)
    ensures r.Ok? ==> host.disk.parent == FROZEN_PARENT
    ensures r.Raised? ==> !r.error.HandoffError?
  {
    var _ :- host.ChownParent(Root, Sandbox);
    var _ :- host.ChmodParent(MODE_0755);
    return Ok(());
  }

  method FreezeConfig(host: Host) returns (r: Outcome<()>)
    requires host.alive
    requires host.disk.parent == FROZEN_PARENT
    modifies host
    ensures host.Onward()
    ensures host.alive <==> !r.Killed?
    ensures !r.Ok? ==> host.faults > old(host.faults)
    ensures host.HandsOff()
    ensures !SandboxReaches(old(host.disk)) ==> host.edits == old(host.edits)
    ensures host.edits == old(host.edits) ==> SameEntries(old(host.disk), host.disk)
    ensures FreezeCut(host.facts, old(host.disk), host.disk)
    ensures host.disk.parent == FROZEN_PARENT
    ensures r.Ok? ==> host.disk.config == FROZEN_CONFIG
    ensures r.Raised? ==> !r.error.HandoffError?
  {
    var _ :- host.ChownConfig(Root, Root);
    var _ :- host.ChmodConfig(MODE_0700);
    return Ok(());
  }

  /** _freeze without quarantine: parent first, then the config directory. */
  method Freeze(host: Host) returns (r: Outcome<()>)
    requires host.alive
    modifies host
    ensures host.Onward()
    ensures host.alive <==> !r.Killed?
    ensures !r.Ok? ==> host.faults > old(host.faults)
    ensures host.HandsOff()
    ensures !SandboxReaches(old(host.disk)) ==> host.edits == old(host.edits)
    ensures host.edits == old(host.edits) ==> SameEntries(old(host.disk), host.disk)
    ensures FreezeCut(host.facts, old(host.disk), host.disk)
    ensures r.Ok? ==> IsFrozen(host.disk)
    ensures r.Raised? ==> !r.error.HandoffError?
  {
    var _ :- FreezeParent(host);
    var _ :- host.Observe();
    var _ :- FreezeConfig(host);
    var _ :- host.Observe();
    return Ok(());
  }

  /** _quarantine_untrusted_persistent_journal. */
  method Quarantine(host: Host) returns (r: Outcome<()>)
    requires host.alive
    requires !SandboxReaches(host.disk)
    modifies host
    ensures host.Onward()
    ensures host.alive <==> !r.Killed?
    ensures !r.Ok? ==> host.faults > old(host.faults) || !Quarantinable(old(host.disk.persistent))
    ensures !Quarantinable(old(host.disk.persistent)) ==> r.Raised? && host.disk == old(host.disk)
    ensures old(host.disk.persistent).Planted? && host.faults == old(host.faults) ==>
      (r.Ok? <==> old(host.disk.persistent).user == old(host.disk.persistent).group
                  && old(host.disk.persistent).user != Stranger)
    ensures host.edits == old(host.edits) && host.HandsOff()
    ensures r.Ok? ==> host.disk == old(host.disk).(persistent := Vacant)
    ensures host.disk == old(host.disk) || host.disk == old(host.disk).(persistent := Vacant)
    ensures r.Raised? ==> !r.error.HandoffError?
  {
    if host.disk.persistent.Vacant? {
      r := host.Observe();
      return;
    }
    if !Quarantinable(host.disk.persistent) {
      return Raised(GuardError("unsafe-journal"));
    }
    r := host.PutPersistent(Vacant);
  }

  // ----- replacing the pair

  /** Where the files can be while p is being installed over d0. */
  predicate InstallCut(d0: Disk, p: Pair<Image>, d: Disk) {
    || d == d0
    || d == d0.(configFile := Regular(p.config, 1))
    || d == d0.(configFile := Regular(p.config, 1), hashFile := Regular(p.hash, 1))
  }

  /** _install_stored_pair: fresh-replace both files, then read them back. */
  method InstallPair(host: Host, targets: Pair<Image>) returns (r: Outcome<()>)
    requires host.alive
    requires Bounded(targets)
    modifies host
    ensures host.Onward()
    ensures host.alive <==> !r.Killed?
    ensures r.Killed? ==> host.faults > old(host.faults)
    ensures OnlyEntriesDiffer(old(host.disk), host.disk)
    ensures !SandboxReaches(old(host.disk)) ==> host.edits == old(host.edits)
    ensures host.edits == old(host.edits) ==>
      && InstallCut(old(host.disk), targets, host.disk)
      && (RawPair(old(host.disk)).None? ==> !r.Ok? && host.disk == old(host.disk))
      && (!r.Ok? ==> host.faults > old(host.faults)
                     || (r.Raised? && RawPair(old(host.disk)).None?))
      && (r.Ok? ==> host.disk == old(host.disk).(configFile := Regular(targets.config, 1),
                                                 hashFile := Regular(targets.hash, 1)))
    ensures r.Raised? ==> !r.error.HandoffError?
  {
    var _ :- SnapshotRawPair(host);
    var _ :- host.PublishConfig(Regular(targets.config, 1));
    var _ :- host.PublishHash(Regular(targets.hash, 1));
    var _ :- host.Observe();
    var _ :- host.Observe();
    return Ok(());
  }

  // ----- handing the tree back to the sandbox

  /** Where the postures can be while a tree that began at d0 is handed back. */
  predicate HandoffCut(facts: Facts, d0: Disk, d: Disk) {
    && d.secondary == d0.secondary
    && (|| (d.config == d0.config
            && (d.parent == d0.parent || d.parent == Chowned(facts, d0.parent, Root, Sandbox)
                || d.parent == FROZEN_PARENT))
        || (d.parent == FROZEN_PARENT
            && (d.config == d0.config.(mode := MODE_0000)
                || d.config == Posture(Sandbox, Sandbox, MODE_0000) || d.config == MUTABLE_CONFIG))
        || IsMutable(d))
  }

  /** _commit_mutable_dirs: parent ownership changes last. */
  method CommitMutableDirs(host: Host) returns (r: Outcome<()>)
    requires host.alive
    modifies host
    ensures host.Onward()
    ensures host.alive <==> !r.Killed?
    ensures !r.Ok? ==> host.faults > old(host.faults)
    ensures host.HandsOff()
    ensures host.edits == old(host.edits) ==> SameEntries(old(host.disk), host.disk)
    ensures HandoffCut(host.facts, old(host.disk), host.disk)
    ensures r.Ok? ==> IsMutable(host.disk)
    ensures r.Raised? && r.error.HandoffError? ==> host.disk.config == MUTABLE_CONFIG
    ensures r.Raised? && !r.error.HandoffError? ==>
      host.disk.parent == old(host.disk.parent) || host.disk.parent.user == Root
  {
    var _ :- FreezeParent(host);
    var _ :- host.ChmodConfig(MODE_0000);
    var _ :- host.ChownConfig(Sandbox, Sandbox);
    var _ :- host.ChmodConfig(MODE_2770);
    r := FinishHandoff(host);
    if r.Raised? {
      r := Raised(HandoffError);
    }
  }

  /** The part of the handoff after sandbox write access has become irreversible. */
  method FinishHandoff(host: Host) returns (r: Outcome<()>)
    requires host.alive
    requires host.disk.parent == FROZEN_PARENT && host.disk.config == MUTABLE_CONFIG
    modifies host
    ensures host.Onward()
    ensures host.alive <==> !r.Killed?
    ensures !r.Ok? ==> host.faults > old(host.faults)
    ensures host.HandsOff()
    ensures host.edits == old(host.edits) ==> SameEntries(old(host.disk), host.disk)
    ensures host.disk.secondary == old(host.disk.secondary) && host.disk.config == MUTABLE_CONFIG
    ensures host.disk.parent == FROZEN_PARENT || host.disk.parent == MUTABLE_PARENT
    ensures r.Ok? ==> IsMutable(host.disk)
  {
    var _ :- host.Observe();
    var _ :- host.ChownParent(Sandbox, Sandbox);
    var _ :- host.ChmodParent(MODE_0755);
    var _ :- host.Observe();
    return Ok(());
  }

  // ----- locking the tree down

  /** The parent loses every write bit before it changes hands, and gets its final mode last. */
  predicate ParentLockCut(p0: Posture, p: Posture) {
    || p == p0.(mode := MODE_0555)
    || p == Posture(Root, Sandbox, MODE_0555)
    || p == LOCKED_PARENT
  }

  /** Where the disk can be while a tree that began at d0 is locked down. */
  predicate LockdownCut(facts: Facts, d0: Disk, d: Disk) {
    && d.secondary == d0.secondary && SameEntries(d0, d)
    && (d.config == d0.config || d.config == Posture(d0.config.user, d0.config.group, MODE_0500)
        || d.config == CLAMPED_CONFIG || d.config == LOCKED_CONFIG)
    && (d.parent != d0.parent ==> d.config == LOCKED_CONFIG && ParentLockCut(d0.parent, d.parent))
  }

  /** _commit_locked_dirs: each directory is made read-only before it changes hands. */
  method CommitLockedDirs(host: Host) returns (r: Outcome<()>)
    requires host.alive
    modifies host
    ensures host.Onward()
    ensures host.alive <==> !r.Killed?
    ensures !r.Ok? ==> host.faults > old(host.faults)
    ensures host.HandsOff()
    ensures host.disk.secondary == old(host.disk.secondary)
    ensures r.Ok? ==> IsLocked(host.disk)
    ensures !SandboxReaches(old(host.disk)) && old(host.disk.config.user) == Root ==> host.edits == old(host.edits)
    ensures host.edits == old(host.edits) ==> LockdownCut(host.facts, old(host.disk), host.disk)
    ensures r.Raised? ==> !r.error.HandoffError?
  {
    var _ :- LockConfigDir(host);
    var _ :- LockParentDir(host);
    return Ok(());
  }

  /** Read-only first, then root-owned, then searchable by everyone. */
  method LockConfigDir(host: Host) returns (r: Outcome<()>)
    requires host.alive
    modifies host
    ensures host.Onward()
    ensures host.alive <==> !r.Killed?
    ensures !r.Ok? ==> host.faults > old(host.faults)
    ensures host.HandsOff()
    ensures host.disk.secondary == old(host.disk.secondary) && host.disk.parent == old(host.disk.parent)
    ensures r.Ok? ==> host.disk.config == LOCKED_CONFIG
    ensures old(host.disk.config.user) == Root ==> host.edits == old(host.edits)
    ensures host.edits == old(host.edits) ==> LockdownCut(host.facts, old(host.disk), host.disk)
    ensures r.Raised? ==> !r.error.HandoffError?
  {
    var _ :- host.ChmodConfig(MODE_0500);
    var _ :- host.ChownConfig(Root, Root);
    var _ :- host.ChmodConfig(MODE_0755);
    return Ok(());
  }

  method LockParentDir(host: Host) returns (r: Outcome<()>)
    requires host.alive
    requires host.disk.config == LOCKED_CONFIG
    modifies host
    ensures host.Onward() && host.edits == old(host.edits)
    ensures host.alive <==> !r.Killed?
    ensures !r.Ok? ==> host.faults > old(host.faults)
    ensures host.HandsOff()
    ensures host.disk == old(host.disk).(parent := host.disk.parent)
    ensures host.disk.parent == old(host.disk.parent) || ParentLockCut(old(host.disk.parent), host.disk.parent)
    ensures r.Ok? ==> IsLocked(host.disk)
    ensures r.Raised? ==> !r.error.HandoffError?
  {
    var _ :- host.ChmodParent(MODE_0555);
    var _ :- host.ChownParent(Root, Sandbox);
    var _ :- host.ChmodParent(MODE_1775);
    var _ :- host.Observe();
    return Ok(());
  }

  // ----- journals

  /** A directory at the reserved name that quarantine refuses to move. */
  predicate Immovable(r: Reserved) {
    IsDirectory(r) && !Quarantinable(r)
  }

  /** _write_journal with the config directory open: /etc first, then in the tree. */
  method WriteBothJournals(host: Host, record: Record) returns (r: Outcome<()>)
    requires host.alive
    requires !SandboxReaches(host.disk)
    modifies host
    ensures host.Onward()
    ensures host.alive <==> !r.Killed?
    ensures !r.Ok? ==> host.faults > old(host.faults)
                       || (r.Raised? && Immovable(old(host.disk.persistent)))
    ensures Immovable(old(host.disk.persistent)) ==> !r.Ok? && host.disk.persistent == old(host.disk.persistent)
    ensures host.edits == old(host.edits) && host.installs == old(host.installs)
    ensures r.Ok? ==> host.disk == old(host.disk).(secondary := Some(record), persistent := Journal(record))
    ensures !r.Ok? ==>
      || host.disk == old(host.disk)
      || (host.disk == old(host.disk).(secondary := Some(record), persistent := host.disk.persistent)
          && (host.disk.persistent == old(host.disk.persistent) || host.disk.persistent == Vacant
              || host.disk.persistent == Journal(record)))
    ensures r.Raised? ==> !r.error.HandoffError?
  {
    var _ :- host.PutSecondary(Some(record));
    if IsDirectory(host.disk.persistent) {
      var _ :- Quarantine(host);
    }
    var _ :- host.PutPersistent(Journal(record));
    return Ok(());
  }

  /** Where the disk can be while a frozen tree d0 is handed back and its journals retired. */
  predicate RetireCut(facts: Facts, d0: Disk, d: Disk) {
    || d == d0
    || (HandoffCut(facts, d0, d))
    || (IsMutable(d) && d.secondary.None?)
  }

  /** _commit_mutable_and_retire_journal: the in-tree record goes while root still owns
      the directory, the /etc record only after the handoff; a failed last unlink is
      tolerated. */
  method CommitMutableAndRetireJournal(host: Host) returns (r: Outcome<()>)
    requires host.alive
    modifies host
    ensures host.Onward()
    ensures host.alive <==> !r.Killed?
    ensures !r.Ok? ==> host.faults > old(host.faults)
    ensures host.HandsOff()
    ensures host.edits == old(host.edits) ==>
      && host.disk.configFile == old(host.disk.configFile) && host.disk.hashFile == old(host.disk.hashFile)
      && (host.disk.persistent == Vacant || host.disk == old(host.disk))
    ensures RetireCut(host.facts, old(host.disk), host.disk)
    ensures r.Ok? ==> IsMutable(host.disk)
    ensures r.Ok? ==> host.disk.secondary == None || host.faults > old(host.faults)
    ensures r.Raised? ==> host.disk.secondary == old(host.disk.secondary)
    ensures r.Raised? && r.error.HandoffError? ==> host.disk.config == MUTABLE_CONFIG
    ensures r.Raised? && !r.error.HandoffError? ==>
      host.disk.parent == old(host.disk.parent) || host.disk.parent.user == Root
  {
    var _ :- host.PutPersistent(Vacant);
    var _ :- CommitMutableDirs(host);
    var cleared := host.PutSecondary(None);
    return if cleared.Killed? then Killed else Ok(());
  }
}
