/** What the recovery decision promises about every disk and every run: who is believed,
    what survives, what recover leaves behind, and the exact postures where the code falls
    short of what it promises. */
module RecoveryTheorems {
  import opened Basics
  import opened GuardTypes
  import opened RecoverySpec
  import opened RecoveryStability
  import opened HostModel
  import opened Transitions
  import HashRecord
  import L = Lockdown
  import Re = Restart

  // ----- recovery settles

  /** Root has it, sealed, or the sandbox has it, well-formed; no record is left. */
  predicate Settled(facts: Facts, d: Disk) {
    && d.secondary == None && d.persistent == Vacant && RawPair(d).Some?
    && (|| (IsMutable(d) && MutableFiles(RawPair(d).value))
        || (IsLocked(d) && L.FilesAreSealed(facts, d)))
  }

  /** A pair that is right for the posture it ends in. */
  predicate Proper(facts: Facts, fate: Fate) {
    && (fate.HandedBack? ==> Bounded(fate.pair) && MutableFiles(fate.pair))
    && (fate.LeftLocked? ==> Bounded(fate.pair) && LockedFiles(fate.pair) && Coherent(facts, fate.pair))
  }

  lemma RecordedFateIsProper(facts: Facts, d: Disk, r: Record)
    ensures r.Write? ==> Proper(facts, WriteFate(facts, d, r))
    ensures r.Restart? ==> Proper(facts, RestartFate(facts, d, r))
  {
    if r.Restart? {
      CanonicalIsCoherent(facts, r.originals.config.data, false);
    }
  }

  lemma UnrecordedFateIsProper(facts: Facts, d: Disk, pending: Pending)
    ensures Proper(facts, UnjournaledFate(facts, d))
    ensures Proper(facts, UntrustedFate(facts, d, pending))
  {
    hide Coherent;
    var config := Captured(d.configFile, MAX_CONFIG_BYTES);
    if config.Some? {
      CanonicalIsCoherent(facts, config.value.data, true);
    }
  }

  /** Every recovery that changes anything ends settled. */
  lemma FateIsSettled(facts: Facts, d: Disk)
    requires FateOf(facts, d).HandedBack? || FateOf(facts, d).LeftLocked?
    ensures Settled(facts, FinalDisk(facts, d))
  {
    var pending := ReadJournal(d);
    UnrecordedFateIsProper(facts, d, pending);
    if pending.Authoritative? {
      RecordedFateIsProper(facts, d, pending.record);
    }
    ProperIsSettled(facts, FateOf(facts, d));
  }

  lemma ProperIsSettled(facts: Facts, fate: Fate)
    requires (fate.HandedBack? || fate.LeftLocked?) && Proper(facts, fate)
    ensures Settled(facts, if fate.HandedBack? then HandedBackDisk(fate.pair) else LockedDisk(fate.pair))
  {
    assert RawPair(HandedBackDisk(fate.pair)) == RawPair(LockedDisk(fate.pair)) == Some(fate.pair);
  }

  lemma SettledStays(facts: Facts, d: Disk)
    requires Settled(facts, d)
    ensures FinalDisk(facts, d) == d
  {
    var p := RawPair(d).value;
    assert Holds(d, p);
  }

  /** The record may replace the pair, if recovery believes it in a tree under the freeze. */
  predicate Replaces(facts: Facts, r: Record) {
    && Accepts(facts, r)
    && (if r.Write? then r.phase != Prepared else !r.originalLocked && r.restartPhase != SealPrepared)
  }

  /** A refused run leaves another tree to a second one than it found: it cleared an entry
      that was no record of its own before it looked at the pair, or its freeze took the
      authority from the record in the tree that it had followed. */
  predicate RefusedForward(facts: Facts, d: Disk) {
    && FateOf(facts, d) == Refused
    && (match ReadJournal(d)
        case Replayed => IsMutable(d) && RawPair(d).Some?
        case Authoritative(r) =>
          && Accepts(facts, r) && Freezes(d, r) && d.secondary != Some(r)
          && (d.secondary.Some? ==> RawPair(d).Some? && Replaces(facts, d.secondary.value))
        case _ => false)
  }

  /** From any disk, a second recover changes nothing, exactly unless the first was refused in
      one of these two ways. */
  lemma RecoverIsIdempotentIff(facts: Facts, d: Disk)
    ensures var once := FinalDisk(facts, d);
      FinalDisk(facts, once) == once <==> !RefusedForward(facts, d)
  {
    hide Coherent;
    var fate := FateOf(facts, d);
    if fate.HandedBack? || fate.LeftLocked? {
      FateIsSettled(facts, d);
      SettledStays(facts, FinalDisk(facts, d));
    } else if fate.Refused? {
      RefusedTwice(facts, d);
    }
  }

  lemma RefusedTwice(facts: Facts, d: Disk)
    requires FateOf(facts, d) == Refused
    ensures var once := FinalDisk(facts, d);
      FinalDisk(facts, once) == once <==> !RefusedForward(facts, d)
  {
    assert RawPair(Frozen(d)) == RawPair(d);
    assert RawPair(Frozen(d).(persistent := Vacant)) == RawPair(d);
  }

  lemma ForwardOnce(facts: Facts, d: Disk)
    requires RefusedForward(facts, d)
    ensures !RefusedForward(facts, FinalDisk(facts, d))
  {
  }

  /** From any disk at all, a third recover changes nothing. */
  lemma TwoRecoversSettle(facts: Facts, d: Disk)
    ensures var twice := FinalDisk(facts, FinalDisk(facts, d));
      FinalDisk(facts, twice) == twice
  {
    hide FinalDisk, RefusedForward;
    RecoverIsIdempotentIff(facts, d);
    if RefusedForward(facts, d) {
      ForwardOnce(facts, d);
      RecoverIsIdempotentIff(facts, FinalDisk(facts, d));
    }
  }

  /** Whatever a refused run leaves, lock seals the same bytes from it, or as little. */
  lemma RefusedKeepsLockFate(facts: Facts, d: Disk)
    requires FateOf(facts, d) == Refused
    ensures L.LockFateOf(facts, FinalDisk(facts, d)) == L.LockFateOf(facts, d)
  {
    var left := FinalDisk(facts, d);
    if left != SEVERED_DISK {
      assert RawPair(left) == RawPair(d);
      assert L.SettledPair(facts, left) == L.SettledPair(facts, d);
    }
  }

  // ----- runs of edits and recoveries

  /** One thing that happens to a tree between two guard actions. */
  datatype Step = SandboxEdit(pair: Pair<Image>) | RunRecover

  function After(facts: Facts, d: Disk, step: Step): Disk {
    match step
    case SandboxEdit(p) =>
      if SandboxReaches(d) then d.(configFile := Regular(p.config, 1), hashFile := Regular(p.hash, 1)) else d
    case RunRecover => FinalDisk(facts, d)
  }

  function Run(facts: Facts, d: Disk, steps: seq<Step>): Disk
    decreases |steps|
  {
    if steps == [] then d else Run(facts, After(facts, d, steps[0]), steps[1..])
  }

  predicate WellFormedStep(s: Step) {
    s.SandboxEdit? ==> Bounded(s.pair) && MutableFiles(s.pair)
  }

  /** The pair the last edit wrote, if there was an edit. */
  function LastEdit(before: Pair<Image>, steps: seq<Step>): Pair<Image>
    decreases |steps|
  {
    if steps == [] then before
    else LastEdit(if steps[0].SandboxEdit? then steps[0].pair else before, steps[1..])
  }

  /** A handed-back tree in which a Committed record, or the Prepared one a rollback
      published, may still lie in /etc. */
  predicate HandedOver(facts: Facts, d: Disk) {
    && IsMutable(d) && d.persistent == Vacant
    && RawPair(d).Some? && MutableFiles(RawPair(d).value)
    && (d.secondary.Some? ==> ValidWrite(facts, d.secondary.value) && d.secondary.value.phase != Applying)
  }

  /** After the handoff the latest well-formed edit wins, whatever record is left in /etc
      and however often recover runs in between. */
  lemma {:induction false} LatestEditWins(facts: Facts, d: Disk, steps: seq<Step>)
    requires HandedOver(facts, d)
    requires forall s :: s in steps ==> WellFormedStep(s)
    ensures HandedOver(facts, Run(facts, d, steps))
    ensures RawPair(Run(facts, d, steps)) == Some(LastEdit(RawPair(d).value, steps))
    decreases |steps|
  {
    if steps == [] {
    } else {
      assert WellFormedStep(steps[0]);
      var next := After(facts, d, steps[0]);
      if steps[0].RunRecover? {
        assert FateOf(facts, d) == HandedBack(RawPair(d).value);
        assert Holds(d, RawPair(d).value);
      }
      LatestEditWins(facts, next, steps[1..]);
    }
  }

  /** Under an Applying record the same promise fails: a roll-back that died before it
      retired the record overwrites what the sandbox wrote since. */
  lemma ApplyingOverwritesEdits(facts: Facts, d: Disk, edit: Pair<Image>)
    requires IsMutable(d) && d.persistent == Vacant && RawPair(d).Some?
    requires d.secondary.Some? && ValidWrite(facts, d.secondary.value) && d.secondary.value.phase == Applying
    requires Bounded(edit) && MutableFiles(edit)
    ensures Run(facts, d, [SandboxEdit(edit), RunRecover]) == HandedBackDisk(d.secondary.value.originals)
  {
    var edited := After(facts, d, SandboxEdit(edit));
    var steps := [SandboxEdit(edit), RunRecover];
    assert steps[1..] == [RunRecover] && steps[1..][1..] == [];
    assert ReadJournal(edited) == Authoritative(d.secondary.value);
    assert Run(facts, d, steps) == Run(facts, edited, steps[1..]);
    assert Run(facts, edited, steps[1..]) == Run(facts, After(facts, edited, RunRecover), []);
  }

  // ----- whose record counts

  predicate Unpaired(d: Disk, p: Record) {
    d.secondary != Some(p)
  }

  /** In a mutable or half-frozen tree an in-tree record without an equal peer in /etc has
      no say: exchanging it for any other such record, or for no valid journal of the
      sandbox's making, changes no byte recovery installs. */
  lemma UnpairedRecordHasNoSay(facts: Facts, d: Disk, p: Record, q: Record)
    requires Exposed(d) && Unpaired(d, p) && Unpaired(d, q)
    ensures FateOf(facts, d.(persistent := Journal(p))) == FateOf(facts, d.(persistent := Journal(q)))
    ensures d.secondary.Some? ==>
      FateOf(facts, d.(persistent := Journal(p))) == FateOf(facts, d.(persistent := Vacant))
    ensures d.secondary.None? ==>
      var fate := FateOf(facts, d.(persistent := Journal(p)));
      && (fate.HandedBack? ==> RawPair(d) == Some(fate.pair))
      && (fate.LeftLocked? ==> d.configFile.Regular? && fate.pair.config.data == d.configFile.image.data)
      && !fate.AsIs?
  {
    var dp, dq, dv := d.(persistent := Journal(p)), d.(persistent := Journal(q)), d.(persistent := Vacant);
    assert Exposed(dp) && Exposed(dq) && Exposed(dv);
    assert RawPair(dp) == RawPair(d) && RawPair(dq) == RawPair(d) && RawPair(dv) == RawPair(d);
    if d.secondary.Some? {
      assert ReadJournal(dp) == Authoritative(d.secondary.value) == ReadJournal(dq) == ReadJournal(dv);
    } else {
      assert ReadJournal(dp) == Replayed == ReadJournal(dq);
    }
  }

  /** Once sealed, the in-tree record alone recovers exactly as both records together, as long
      as no run is interrupted. */
  lemma SealedRecordStandsAlone(facts: Facts, d: Disk, r: Record)
    requires IsLocked(d) && d.persistent == Journal(r) && d.secondary == Some(r)
    ensures FateOf(facts, d.(secondary := None)) == FateOf(facts, d)
  {
    var alone := d.(secondary := None);
    assert RawPair(alone) == RawPair(d);
    assert ReadJournal(alone) == Authoritative(r) == ReadJournal(d);
  }

  /** Interrupted in the freeze of its own recovery, it stands alone at every cut but the last:
      once the freeze is complete the record in the tree has lost its authority, and the tree is
      to be locked for good over what is visible. With its peer in /etc no cut matters. */
  lemma LoneRecordStandsIff(facts: Facts, d: Disk, cut: Disk, r: Record)
    requires IsLocked(d) && d.persistent == Journal(r) && d.secondary == None
    requires Accepts(facts, r) && Freezes(d, r) && RawPair(d).Some?
    requires FreezeCut(facts, d, cut) && SameEntries(d, cut)
    ensures FateOf(facts, cut) == FateOf(facts, d) <==> !IsFrozen(cut)
    ensures IsFrozen(cut) ==> FateOf(facts, cut) == LeftLocked(Canonical(facts, RawPair(d).value.config.data, true))
    ensures FateOf(facts, cut.(secondary := Some(r))) == FateOf(facts, d)
  {
    assert RawPair(cut) == RawPair(d) == RawPair(cut.(secondary := Some(r)));
  }

  /** Recovery installs nothing but what a record vouches for: the bytes with the recorded
      digest, a well-formed mutable pair, and, but for the originals of a write, one whose hash
      record matches. */
  lemma InstalledIsVouchedFor(facts: Facts, d: Disk)
    requires FateOf(facts, d).HandedBack? && RawPair(d) != Some(FateOf(facts, d).pair)
    ensures ReadJournal(d).Authoritative?
    ensures var r, p := ReadJournal(d).record, FateOf(facts, d).pair;
      && MutableFiles(p) && Bounded(p)
      && (r.Write? && r.phase == Applying ==> p == r.originals)
      && (r.Write? && r.phase == Committed ==>
            p == r.replacements && facts.sha256(p.config.data) == r.digest && Coherent(facts, p))
      && (r.Write? ==> r.phase != Prepared)
      && (r.Restart? ==>
            && p.config.data == r.originals.config.data && facts.sha256(p.config.data) == r.digest
            && facts.json5Object(p.config.data) && Coherent(facts, p) && !r.originalLocked)
  {
    var r := ReadJournal(d).record;
    RecordedFateIsProper(facts, d, r);
    if r.Write? {
      HashRecord.RecordForMatches(facts, r.replacements.config.data, r.digest);
    } else {
      CanonicalIsCoherent(facts, r.originals.config.data, false);
    }
  }

  /** Owner, group and permission bits of a stored file. */
  predicate OwnedAs(i: Image, who: Principal, mode: nat) {
    i.user == who && i.group == who && i.mode == mode
  }

  /** All that recovery demands of a record in force: sizes, the digest and hash record of the
      new pair, or the digest and syntax of the captured config, and the owners and modes of
      every stored file, 0660 for the sandbox or 0444 for root. */
  predicate IsSoundRecord(facts: Facts, r: Record) {
    && |r.originals.config.data| <= 16777216 && |r.originals.hash.data| <= 65536
    && (if r.Write? then
          && |r.replacements.config.data| <= 16777216
          && facts.sha256(r.replacements.config.data) == r.digest
          && r.replacements.hash.data == HashRecord.Ascii(r.digest + "  openclaw.json\n")
          && OwnedAs(r.originals.config, Sandbox, 432) && OwnedAs(r.originals.hash, Sandbox, 432)
          && OwnedAs(r.replacements.config, Sandbox, 432) && OwnedAs(r.replacements.hash, Sandbox, 432)
        else
          && facts.sha256(r.originals.config.data) == r.digest && facts.json5Object(r.originals.config.data)
          && (if r.originalLocked then OwnedAs(r.originals.config, Root, 292) && OwnedAs(r.originals.hash, Root, 292)
              else OwnedAs(r.originals.config, Sandbox, 432) && OwnedAs(r.originals.hash, Sandbox, 432)))
  }

  /** A record in force that is not sound in one of these respects is refused; so recovery acts
      on no other. */
  lemma UnsoundRecordIsRefused(facts: Facts, d: Disk)
    requires ReadJournal(d).Authoritative?
    ensures Accepts(facts, ReadJournal(d).record) <==> IsSoundRecord(facts, ReadJournal(d).record)
    ensures !IsSoundRecord(facts, ReadJournal(d).record) ==>
      FateOf(facts, d) == Refused && FinalDisk(facts, d) == d
  {
    var r := ReadJournal(d).record;
    HashRecord.RecordForMatches(facts, r.originals.config.data, r.digest);
  }

  /** lock on a tree that was locked before a restart puts no file back. */
  lemma LockedBeforeSettlesNothing(facts: Facts, d: Disk)
    requires LockedBefore(d)
    ensures L.SettledPair(facts, d) == None
  {
  }

  // ----- where the code stops short

  /** A crash under a SealPrepared record is recovered exactly when the posture is one the
      recovery knows. The gap is real: a chown that keeps the setgid bit passes through
      a posture it does not know. */
  lemma PreparedSealRecoversIff(facts: Facts, d: Disk, r: Record)
    requires Steady(facts, d, r) && ValidRestart(facts, r)
    requires !r.originalLocked && r.restartPhase == SealPrepared
    requires RawPair(d).Some? && MutableFiles(RawPair(d).value)
    requires facts.json5Object(RawPair(d).value.config.data)
    ensures FateOf(facts, d) == HandedBack(RawPair(d).value) <==> Exposed(d)
    ensures !Exposed(d) ==> FateOf(facts, d) == Refused
  {
    SteadyReads(facts, d, r);
  }

  /** The gap, reached: from any sealable tree, on a platform whose chown keeps the setgid
      bit, dying right after the config directory changed owner leaves a disk recover refuses,
      unless a replayed record is believed there; lock seals its bytes. */
  lemma SetgidStrandsTheSeal(facts: Facts, d: Disk)
    requires Re.Sealable(facts, d) && facts.chownKeepsSetgid
    ensures var record := Re.RestartRecord(facts, SealPrepared, false, RawPair(d).value);
      var cut := AfterChown(facts, d.(secondary := Some(record)));
      && Stranded(facts, cut) && (!d.persistent.Journal? ==> FateOf(facts, cut) == Refused)
      && L.LockFateOf(facts, cut) == L.Seals(RawPair(d).value.config.data, true)
  {
    var record := Re.RestartRecord(facts, SealPrepared, false, RawPair(d).value);
    AfterChownIsACut(facts, d.(secondary := Some(record)));
    var cut := AfterChown(facts, d.(secondary := Some(record)));
    Re.RestartRecordIsValid(facts, SealPrepared, RawPair(d).value);
    Re.SealCutOwesVisibleIff(facts, cut);
    assert L.SettledPair(facts, cut).None?;
  }

  /** The cut of a freeze right after the config directory has changed owner. */
  function AfterChown(facts: Facts, d: Disk): Disk {
    d.(parent := FROZEN_PARENT, config := Chowned(facts, d.config, Root, Root))
  }

  lemma AfterChownIsACut(facts: Facts, d: Disk)
    requires IsMutable(d)
    ensures FreezeCut(facts, d, AfterChown(facts, d)) && SameEntries(d, AfterChown(facts, d))
    ensures RawPair(AfterChown(facts, d)) == RawPair(d)
    ensures Stranded(facts, AfterChown(facts, d)) <==> facts.chownKeepsSetgid
    ensures !facts.chownKeepsSetgid ==> IsPartial(AfterChown(facts, d))
  {
    assert MODE_2770 / SETGID_BIT % 2 == 1;
  }

  /** Under the prepared record of a write, every cut of the freeze owes the visible pair
      exactly if chown drops the setgid bit or the reserved name holds nothing that matters. */
  lemma EveryCutOwesVisibleIff(facts: Facts, d0: Disk)
    requires IsMutable(d0) && AwaitingCapture(facts, d0) && RawPair(d0).Some? && MutableFiles(RawPair(d0).value)
    ensures (forall d | FreezeCut(facts, d0, d) && SameEntries(d0, d) ::
               FateOf(facts, d) == HandedBack(RawPair(d0).value))
      <==> !facts.chownKeepsSetgid || Harmless(facts, d0.persistent, RawPair(d0).value)
  {
    var v := RawPair(d0).value;
    forall d | FreezeCut(facts, d0, d) && SameEntries(d0, d)
      ensures FateOf(facts, d) == HandedBack(v) <==> !Stranded(facts, d) || Harmless(facts, d0.persistent, v)
    {
      assert RawPair(d) == Some(v);
      CutOwesVisibleIff(facts, d);
    }
    AfterChownIsACut(facts, d0);
  }

  /** A file planted at the reserved name, which the gate lets through, and a kill right after
      the config directory changed owner: recovery is refused exactly if chown keeps the setgid
      bit, whoever owns the file, and lock is the way on. */
  lemma PlantedEntryStrandsTheWrite(facts: Facts, d0: Disk)
    requires IsMutable(d0) && AwaitingCapture(facts, d0) && d0.persistent.Planted?
    requires RawPair(d0).Some? && MutableFiles(RawPair(d0).value)
    ensures var cut := AfterChown(facts, d0);
      && (FateOf(facts, cut) == Refused <==> facts.chownKeepsSetgid)
      && L.LockFateOf(facts, cut) == L.Seals(RawPair(d0).value.config.data, true)
  {
    var cut := AfterChown(facts, d0);
    AfterChownIsACut(facts, d0);
    CutOwesVisibleIff(facts, cut);
    assert L.SettledPair(facts, cut).None?;
  }

  /** A record at the reserved name that differs from the one in /etc, if there is one there,
      is believed at a cut of a freeze exactly if the freeze is stranded; recovery then does
      what it says, and otherwise keeps the visible config bytes. */
  lemma PlantedRecordBelievedIff(facts: Facts, d0: Disk, d: Disk, p: Record)
    requires IsMutable(d0) && FreezeCut(facts, d0, d) && d.persistent == Journal(p) && d.secondary != Some(p)
    requires d.secondary.Some? ==> ValidWrite(facts, d.secondary.value) && d.secondary.value.phase == Prepared
    ensures ReadJournal(d) == Authoritative(p) <==> Stranded(facts, d)
    ensures Stranded(facts, d) && RawPair(d).Some? && ValidWrite(facts, p) && p.phase != Prepared ==>
      FateOf(facts, d) == HandedBack(if p.phase == Committed then p.replacements else p.originals)
    ensures !Stranded(facts, d) ==>
      var fate := FateOf(facts, d);
      && (fate.HandedBack? ==> RawPair(d) == Some(fate.pair))
      && (fate.LeftLocked? ==> d.configFile.Regular? && fate.pair.config.data == d.configFile.image.data)
  {
    if !Stranded(facts, d) {
      assert Exposed(d);
    }
  }

  /** The consequence, reached: a replayed Committed record and a kill right after the config
      directory changed owner. The bytes of the replayed record come back, which are neither
      the visible nor the new ones, exactly if chown keeps the setgid bit. */
  lemma ReplayedBytesComeBackIff(facts: Facts, d0: Disk, p: Record)
    requires IsMutable(d0) && d0.persistent == Journal(p) && d0.secondary != Some(p)
    requires d0.secondary.Some? ==> ValidWrite(facts, d0.secondary.value) && d0.secondary.value.phase == Prepared
    requires RawPair(d0).Some? && ValidWrite(facts, p) && p.phase == Committed
    requires p.replacements.config.data != RawPair(d0).value.config.data
    ensures FateOf(facts, AfterChown(facts, d0)) == HandedBack(p.replacements) <==> facts.chownKeepsSetgid
  {
    AfterChownIsACut(facts, d0);
    PlantedRecordBelievedIff(facts, d0, AfterChown(facts, d0), p);
  }

  /** recover clears an entry without a record in /etc by a freeze of its own. Cut there, a
      planted entry is refused from then on, in every posture but the mutable one, and lock is
      the way on; a replayed record leads to a lock over the visible config bytes, or, in the
      stranded posture, is believed. */
  lemma ClearingCutFate(facts: Facts, d0: Disk, d: Disk)
    requires IsMutable(d0) && d0.secondary.None? && KeepVisible(d0).HandedBack?
    requires d0.persistent.Journal? || Disposable(d0.persistent)
    requires FreezeCut(facts, d0, d) && SameEntries(d0, d)
    ensures d0.persistent.Planted? ==> (FateOf(facts, d) == Refused <==> !IsMutable(d))
    ensures IsMutable(d) ==> FateOf(facts, d) == KeepVisible(d0)
    ensures d0.persistent.Journal? && IsPartial(d) ==>
      FateOf(facts, d) == LeftLocked(Canonical(facts, RawPair(d0).value.config.data, true))
    ensures d0.persistent.Journal? && !Exposed(d) ==>
      Stranded(facts, d) && ReadJournal(d) == Authoritative(d0.persistent.record)
    ensures L.LockFateOf(facts, d) == L.Seals(RawPair(d0).value.config.data, true)
  {
    assert RawPair(d) == RawPair(d0);
    assert L.SettledPair(facts, d).None?;
  }

  /** Sealing an already locked tree does not look at the config syntax, recovery does: the
      record it writes is recovered exactly when the config is a JSON5 object. */
  lemma LockedSealRecoversIff(facts: Facts, d: Disk)
    requires IsLocked(d) && L.FilesAreSealed(facts, d)
    ensures var p := RawPair(d).value;
      var record := Re.RestartRecord(facts, Sealed, true, p);
      var sealed := d.(secondary := Some(record), persistent := Journal(record));
      && (FateOf(facts, sealed) == LeftLocked(p) <==> facts.json5Object(p.config.data))
      && (FateOf(facts, sealed) == Refused <==> !facts.json5Object(p.config.data))
  {
    var p := RawPair(d).value;
    var record := Re.RestartRecord(facts, Sealed, true, p);
    var sealed := d.(secondary := Some(record), persistent := Journal(record));
    assert ReadJournal(sealed) == Authoritative(record);
    assert RawPair(sealed) == Some(p);
  }

  /** Relocking a locked tree honours the /etc record first, which can put the mutable pair
      back under the locked directories: lock then succeeds exactly when no file was put back. */
  lemma RelockSucceedsIff(facts: Facts, d: Disk)
    requires IsLocked(d) && L.FilesAreSealed(facts, d)
    requires d.secondary.Some? && d.secondary.value.Write? ==> ValidWrite(facts, d.secondary.value)
    ensures L.FilesAreSealed(facts, L.SettledDisk(facts, d)) <==> L.SettledPair(facts, d).None?
  {
    var settled := L.SettledDisk(facts, d);
    L.SettledPairIsBounded(facts, d);
    if L.SettledPair(facts, d).None? {
      assert RawPair(settled) == RawPair(d);
    } else {
      var target := L.SettledPair(facts, d).value;
      assert RawPair(settled) == Some(target);
      assert MutableImage(target.config);
    }
  }

  /** Lock seals what the /etc record asks for exactly when the visible pair can be captured
      whole; otherwise, for instance when only the hash is missing, the visible config. */
  lemma LockHonoursRecordIff(facts: Facts, d: Disk)
    requires L.SettledPair(facts, d).Some?
    requires Captured(d.configFile, MAX_CONFIG_BYTES).Some?
    requires d.configFile.image.data != L.SettledPair(facts, d).value.config.data
    ensures var fate := L.LockFateOf(facts, d);
      && fate.Seals?
      && (fate.bytes == L.SettledPair(facts, d).value.config.data <==> RawPair(d).Some?)
      && (RawPair(d).None? ==> fate.bytes == d.configFile.image.data)
  {
    L.SettledPairIsBounded(facts, d);
  }

  /** An edit made while the handoff is still under way survives recovery exactly when the
      record no longer owes another pair: before replacement began, once a committed tree
      is fully mutable, or when the edit equals the pair owed. */
  lemma EditSurvivesIff(facts: Facts, d: Disk, r: Record)
    requires r.Write? && ValidWrite(facts, r) && ReadJournal(d) == Authoritative(r)
    requires RawPair(d).Some? && MutableFiles(RawPair(d).value)
    ensures var visible := RawPair(d).value;
      FateOf(facts, d) == HandedBack(visible) <==>
        || r.phase == Prepared || (r.phase == Committed && IsMutable(d))
        || visible == (if r.phase == Committed then r.replacements else r.originals)
  {
  }

  /** unseal-restart puts the captured bytes back whatever the phase; recover keeps the
      visible pair while none has been replaced, or once it was handed over. They agree
      exactly outside those two phases, or when nobody edited since the capture. */
  lemma UnsealAgreesWithRecoverIff(facts: Facts, d: Disk, r: Record)
    requires Steady(facts, d, r) && ValidRestart(facts, r) && !r.originalLocked && Exposed(d)
    requires RawPair(d).Some? && MutableFiles(RawPair(d).value)
    requires facts.json5Object(RawPair(d).value.config.data)
    ensures var owed := Canonical(facts, r.originals.config.data, false);
      FateOf(facts, d) == HandedBack(owed) <==>
        || !(r.restartPhase == SealPrepared || (r.restartPhase == UnsealCommitted && IsMutable(d)))
        || RawPair(d).value == owed
  {
    SteadyReads(facts, d, r);
  }
}
