/** Why a crash cannot change what recovery decides: each block of an interrupted
    transition leaves a disk with the fate it had before. */
module RecoveryStability {
  import opened Basics
  import opened GuardTypes
  import opened RecoverySpec
  import opened HostModel
  import opened Transitions

  predicate Exposed(d: Disk) {
    IsMutable(d) || IsPartial(d)
  }

  /** The /etc record is r, and nothing in the tree can outrank it, now or in any
      posture a freeze passes through. */
  predicate Steady(facts: Facts, d: Disk, r: Record) {
    && d.secondary == Some(r)
    && (|| d.persistent == Vacant
        || d.persistent == Journal(r)
        || (Exposed(d) && (d.config.user == Root || !facts.chownKeepsSetgid || NeverFreezes(r))))
  }

  /** Recovery of this record takes the directories as it finds them. */
  predicate NeverFreezes(r: Record) {
    r.Restart? && !r.originalLocked && r.restartPhase == SealPrepared
  }

  lemma SteadyReads(facts: Facts, d: Disk, r: Record)
    requires Steady(facts, d, r)
    ensures ReadJournal(d) == Authoritative(r)
  {
  }

  /** Reading the journals a second time during recovery gives the same record. */
  lemma ExposedReadsSecondary(d: Disk)
    requires Exposed(d) && d.secondary.Some?
    ensures ReadJournal(d) == Authoritative(d.secondary.value)
  {
  }

  lemma FreezeKeepsSteady(facts: Facts, d0: Disk, d: Disk, r: Record)
    requires Steady(facts, d0, r) && !NeverFreezes(r)
    requires FreezeCut(facts, d0, d) && SameEntries(d0, d)
    ensures Steady(facts, d, r)
    ensures IsMutable(d) ==> IsMutable(d0)
  {
  }

  lemma FreezeKeepsFate(facts: Facts, d0: Disk, d: Disk, r: Record)
    requires Steady(facts, d0, r) && Freezes(d0, r)
    requires FreezeCut(facts, d0, d) && SameEntries(d0, d)
    ensures Steady(facts, d, r) && Freezes(d, r)
    ensures FateOf(facts, d) == FateOf(facts, d0)
  {
    FreezeKeepsSteady(facts, d0, d, r);
    SteadyReads(facts, d0, r);
    SteadyReads(facts, d, r);
  }

  /** Whatever pair q is being written, the pair p that the record names stays owed. */
  lemma InstallKeepsFate(facts: Facts, d0: Disk, d: Disk, r: Record, p: Pair<Image>, q: Pair<Image>)
    requires Steady(facts, d0, r) && Freezes(d0, r) && (r.Write? ==> r.phase != Prepared)
    requires FateOf(facts, d0) == HandedBack(p) && Bounded(q)
    requires InstallCut(d0, q, d)
    ensures Steady(facts, d, r) && FateOf(facts, d) == HandedBack(p)
  {
    SteadyReads(facts, d0, r);
    SteadyReads(facts, d, r);
  }

  /** Handing back: from an exposed tree that already holds the pair it is due, every
      posture of the handoff, with or without the journals, is due the same pair. */
  lemma HandoffKeepsFate(facts: Facts, d0: Disk, d: Disk, r: Record, p: Pair<Image>)
    requires Steady(facts, d0, r) && IsPartial(d0)
    requires FateOf(facts, d0) == HandedBack(p) && Holds(d0, p) && Bounded(p) && MutableFiles(p)
    requires RetireCut(facts, d0, d) && Holds(d, p)
    requires d.persistent == Vacant || d == d0
    ensures FateOf(facts, d) == HandedBack(p)
    ensures d.secondary.Some? ==> Steady(facts, d, r)
  {
    SteadyReads(facts, d0, r);
    if d.secondary.Some? {
      assert d.secondary == d0.secondary;
      SteadyReads(facts, d, r);
    }
  }

  /** A disk whose hand-back no crash can divert: the record in force is steady, or
      there is no record at all. */
  predicate CrashProof(facts: Facts, d: Disk) {
    && FateOf(facts, d).HandedBack?
    && (if d.secondary.Some? then Steady(facts, d, d.secondary.value) else d.persistent == Vacant)
  }

  /** A frozen orphan: no journal anywhere, the posture alone tells the story. */
  lemma OrphanHandoffKeepsFate(facts: Facts, d0: Disk, d: Disk)
    requires IsPartial(d0) && d0.secondary.None? && d0.persistent == Vacant
    requires FateOf(facts, d0).HandedBack?
    requires HandoffCut(facts, d0, d) && SameEntries(d0, d)
    ensures FateOf(facts, d) == FateOf(facts, d0) && CrashProof(facts, d)
  {
  }

  // ----- trees that recovery keeps as they are

  function Retired(d: Disk): Disk {
    d.(secondary := None, persistent := Vacant)
  }

  predicate KeepsLock(r: Record) {
    r.Restart? && r.originalLocked
  }

  /** A locked tree in which every record says that it was locked before the restart. */
  predicate LockedBefore(d: Disk) {
    && IsLocked(d) && !d.persistent.Planted?
    && (d.secondary.Some? ==> KeepsLock(d.secondary.value))
    && (d.persistent.Journal? ==> KeepsLock(d.persistent.record))
  }

  /** The same, with records and files that recovery accepts. */
  predicate LockStands(facts: Facts, d: Disk) {
    && LockedBefore(d) && KeepLocked(facts, d).LeftLocked?
    && (d.secondary.Some? ==> ValidRestart(facts, d.secondary.value))
    && (d.persistent.Journal? ==> ValidRestart(facts, d.persistent.record))
  }

  /** Only journals have gone, the one in the tree first. */
  predicate JournalsShrink(d0: Disk, d: Disk) {
    && Retired(d) == Retired(d0)
    && (d.persistent == d0.persistent || d.persistent == Vacant)
    && (d.secondary == d0.secondary || (d.secondary == None && d.persistent == Vacant))
  }

  lemma ShrinkingKeepsLock(facts: Facts, d0: Disk, d: Disk)
    requires JournalsShrink(d0, d)
    ensures LockedBefore(d0) ==> LockedBefore(d)
    ensures LockStands(facts, d0) ==> LockStands(facts, d) && FateOf(facts, d) == FateOf(facts, d0)
    ensures LockStands(facts, d0) ==> FinalDisk(facts, d0) == Retired(d0)
  {
    assert RawPair(d) == RawPair(d0);
  }

  // ----- trees without a record

  /** The config directory looks locked while its parent does not, or not any more. */
  predicate Halfway(d: Disk) {
    d.config == LOCKED_CONFIG && d.parent.user != Stranger && d.parent.group == Sandbox
    && (d.parent.mode == MODE_0755 || d.parent.mode == MODE_0555)
  }

  /** No record anywhere: the posture alone tells what an interrupted lock, unlock or recovery
      was about, and the config bytes are these. */
  predicate Unrecorded(facts: Facts, d: Disk, bytes: Bytes) {
    && d.secondary == None && d.persistent == Vacant
    && RawPair(d).Some? && RawPair(d).value.config.data == bytes
    && (|| KeepLocked(facts, d).LeftLocked? || Halfway(d) || IsPartial(d)
        || (IsMutable(d) && MutableFiles(RawPair(d).value)))
  }

  /** Where a tree can be while it is being locked over the pair p. */
  predicate OrphanLockCut(facts: Facts, d0: Disk, p: Pair<Image>, d: Disk) {
    || InstallCut(d0, p, d)
    || LockdownCut(facts, d0.(configFile := Regular(p.config, 1), hashFile := Regular(p.hash, 1)), d)
  }

  lemma InstallStaysUnrecorded(facts: Facts, d0: Disk, d: Disk, bytes: Bytes)
    requires IsPartial(d0) && Unrecorded(facts, d0, bytes) && Bounded(Canonical(facts, bytes, true))
    requires InstallCut(d0, Canonical(facts, bytes, true), d)
    ensures Unrecorded(facts, d, bytes) && IsPartial(d)
  {
    hide KeepLocked, Halfway;
  }

  lemma LockdownStaysUnrecorded(facts: Facts, d0: Disk, d: Disk, bytes: Bytes)
    requires IsPartial(d0) && d0.secondary == None && d0.persistent == Vacant
    requires Holds(d0, Canonical(facts, bytes, true)) && Bounded(Canonical(facts, bytes, true))
    requires Coherent(facts, Canonical(facts, bytes, true)) && LockdownCut(facts, d0, d)
    ensures Unrecorded(facts, d, bytes)
  {
    hide Coherent;
    assert RawPair(d) == Some(Canonical(facts, bytes, true));
    if d.config == LOCKED_CONFIG {
      assert d.parent == LOCKED_PARENT ==> KeepLocked(facts, d).LeftLocked?;
      assert d.parent != LOCKED_PARENT ==> Halfway(d);
    }
  }

  lemma OrphanLockStaysUnrecorded(facts: Facts, d0: Disk, d: Disk, bytes: Bytes)
    requires IsPartial(d0) && Unrecorded(facts, d0, bytes)
    requires OrphanLockCut(facts, d0, Canonical(facts, bytes, true), d)
    ensures Unrecorded(facts, d, bytes)
  {
    hide Unrecorded, Coherent, LockdownCut, InstallCut, IsPartial, Canonical;
    var p := Canonical(facts, bytes, true);
    CanonicalIsCoherent(facts, bytes, true);
    UnrecordedIsBounded(facts, d0, bytes);
    if InstallCut(d0, p, d) {
      InstallStaysUnrecorded(facts, d0, d, bytes);
    } else {
      var held := d0.(configFile := Regular(p.config, 1), hashFile := Regular(p.hash, 1));
      PostureStaysPartial(d0, held);
      LockdownStaysUnrecorded(facts, held, d, bytes);
    }
  }

  lemma UnrecordedIsBounded(facts: Facts, d: Disk, bytes: Bytes)
    requires Unrecorded(facts, d, bytes)
    ensures |bytes| <= MAX_CONFIG_BYTES && d.secondary == None && d.persistent == Vacant
  {
  }

  lemma PostureStaysPartial(d0: Disk, d: Disk)
    requires d.parent == d0.parent && d.config == d0.config
    ensures IsPartial(d) == IsPartial(d0)
  {
  }

  lemma OrphanHandoffStaysUnrecorded(facts: Facts, d0: Disk, d: Disk, bytes: Bytes)
    requires IsPartial(d0) && Unrecorded(facts, d0, bytes) && MutableFiles(RawPair(d0).value)
    requires HandoffCut(facts, d0, d) && SameEntries(d0, d)
    ensures Unrecorded(facts, d, bytes)
  {
  }

  // ----- a record in the tree alone

  /** Sealed by a restart that found the tree mutable over these bytes, or at a first cut of
      undoing that. */
  predicate SealedAlone(facts: Facts, d: Disk, r: Record, bytes: Bytes) {
    && d.config == LOCKED_CONFIG && (d.parent == LOCKED_PARENT || d.parent == FROZEN_PARENT)
    && r.Restart? && ValidRestart(facts, r) && !r.originalLocked && r.restartPhase != SealPrepared
    && r.originals.config.data == bytes
  }

  /** The record in /etc is lost, the one in the tree is not: believed in the sealed posture,
      without authority in one that a freeze cannot strand. The config bytes are these. */
  predicate LoneRecord(facts: Facts, d: Disk, bytes: Bytes) {
    && d.secondary == None && d.persistent.Journal?
    && RawPair(d).Some? && RawPair(d).value.config.data == bytes
    && (if Exposed(d) then d.config.user == Root || !facts.chownKeepsSetgid
        else SealedAlone(facts, d, d.persistent.record, bytes))
  }

  /** What began as such a tree still is one, or has lost the record too, over the same bytes. */
  predicate StaysLone(facts: Facts, d0: Disk, d: Disk) {
    RawPair(d0).Some? ==>
      var bytes := RawPair(d0).value.config.data;
      LoneRecord(facts, d0, bytes) ==> LoneRecord(facts, d, bytes) || Unrecorded(facts, d, bytes)
  }

  lemma FreezeKeepsLone(facts: Facts, d0: Disk, d: Disk, bytes: Bytes)
    requires LoneRecord(facts, d0, bytes)
    requires FreezeCut(facts, d0, d) && SameEntries(d0, d)
    ensures LoneRecord(facts, d, bytes)
  {
    hide ValidRestart;
    assert RawPair(d) == RawPair(d0);
  }

  /** Under the freeze, writing the same config bytes in another posture. */
  lemma InstallKeepsLone(facts: Facts, d0: Disk, d: Disk, p: Pair<Image>, bytes: Bytes)
    requires LoneRecord(facts, d0, bytes) && IsFrozen(d0)
    requires InstallCut(d0, p, d) && Bounded(p) && p.config.data == bytes
    ensures LoneRecord(facts, d, bytes)
  {
  }

  lemma ClearedIsUnrecorded(facts: Facts, d: Disk, bytes: Bytes)
    requires LoneRecord(facts, d, bytes) && IsPartial(d)
    ensures Unrecorded(facts, d.(persistent := Vacant), bytes)
  {
    hide ValidRestart, KeepLocked;
    assert RawPair(d.(persistent := Vacant)) == RawPair(d);
  }

  // ----- a record that keeps what is visible

  /** While this record is in /etc, whatever the sandbox writes, anywhere, recovery writes
      neither protected file; on a platform whose freeze is never stranded. */
  predicate RecordStands(facts: Facts, d: Disk) {
    && !facts.chownKeepsSetgid && d.secondary.Some? && d.secondary.value.Write?
    && (if d.secondary.value.phase == Prepared then Exposed(d)
        else d.secondary.value.phase == Committed && IsMutable(d))
  }

  lemma FreezeStaysExposed(facts: Facts, d0: Disk, d: Disk)
    requires Exposed(d0) && !facts.chownKeepsSetgid && FreezeCut(facts, d0, d)
    ensures Exposed(d)
  {
  }

  lemma RetiringStaysExposed(facts: Facts, d0: Disk, d: Disk)
    requires IsPartial(d0) && RetireCut(facts, d0, d)
    ensures Exposed(d)
  {
  }

  // ----- the freeze before the capture

  /** The one posture of a freeze that recovery does not recognise: config already
      root-owned but still carrying the setgid bit of the mutable mode. */
  predicate Stranded(facts: Facts, d: Disk) {
    facts.chownKeepsSetgid && d.config == Posture(Root, Root, MODE_2770)
  }

  function Thawed(d: Disk): Disk {
    d.(parent := MUTABLE_PARENT, config := MUTABLE_CONFIG)
  }

  /** A mutable tree, or one whose freeze was cut short, under the Prepared record of a write. */
  predicate AwaitingCapture(facts: Facts, d: Disk) {
    && d.secondary.Some? && ValidWrite(facts, d.secondary.value) && d.secondary.value.phase == Prepared
    && FreezeCut(facts, Thawed(d), d)
  }

  /** Before the capture, recovery keeps what is visible or refuses, at every cut but the
      stranded one, and there too if nothing lies at the reserved name. */
  lemma CutKeepsVisible(facts: Facts, d: Disk)
    requires AwaitingCapture(facts, d) && (!Stranded(facts, d) || d.persistent == Vacant)
    ensures FateOf(facts, d) == KeepVisible(d)
    ensures FateOf(facts, d).HandedBack? <==> RawPair(d).Some? && MutableFiles(RawPair(d).value)
    ensures !FateOf(facts, d).HandedBack? ==> FateOf(facts, d) == Refused
  {
    if Exposed(d) {
      ExposedReadsSecondary(d);
    }
  }

  /** A record that, believed in the stranded posture, hands back v all the same. */
  predicate WouldHandBack(facts: Facts, p: Record, v: Pair<Image>) {
    if p.Write? then
      ValidWrite(facts, p)
      && (p.phase == Prepared || v == (if p.phase == Committed then p.replacements else p.originals))
    else
      ValidRestart(facts, p) && !p.originalLocked && p.restartPhase != SealPrepared
      && v == Canonical(facts, p.originals.config.data, false)
  }

  /** What the sandbox left at the reserved name cannot change the pair handed back. */
  predicate Harmless(facts: Facts, e: Reserved, v: Pair<Image>) {
    e.Vacant? || (e.Journal? && WouldHandBack(facts, e.record, v))
  }

  /** Before the capture the visible pair is owed, at every cut but the stranded one; there
      it is owed exactly if the reserved name holds nothing that matters. */
  lemma CutOwesVisibleIff(facts: Facts, d: Disk)
    requires AwaitingCapture(facts, d) && RawPair(d).Some? && MutableFiles(RawPair(d).value)
    ensures FateOf(facts, d) == HandedBack(RawPair(d).value)
      <==> !Stranded(facts, d) || Harmless(facts, d.persistent, RawPair(d).value)
    ensures Stranded(facts, d) && d.persistent.Planted? ==> FateOf(facts, d) == Refused
    ensures d.persistent == Vacant || !facts.chownKeepsSetgid ==> CrashProof(facts, d)
  {
    var r := d.secondary.value;
    if Exposed(d) {
      ExposedReadsSecondary(d);
    }
  }
}
