/** Runs of two actions, or of one action beside another, that show where the guard's
    promises meet their limits. */
module RecoveryRuns {
  import opened Basics
  import opened GuardTypes
  import opened RecoverySpec
  import opened HostModel
  import opened RecoveryStability
  import opened RecoveryTheorems
  import opened Lockdown
  import R = Recover
  import Re = Restart

  /** lock on a sealed tree honours the /etc record first, which can put the mutable pair back
      under the locked directories: undisturbed, it succeeds exactly if no file was put back. */
  method Relock(host: Host) returns (out: Outcome<()>)
    requires host.alive
    requires IsLocked(host.disk) && FilesAreSealed(host.facts, host.disk)
    requires host.disk.secondary.Some? && host.disk.secondary.value.Write? ==>
      ValidWrite(host.facts, host.disk.secondary.value)
    modifies host
    ensures host.Onward() && (out.Killed? ==> host.faults > old(host.faults))
    ensures Undisturbed(host) ==> (out.Ok? <==> SettledPair(host.facts, old(host.disk)).None?)
    ensures Undisturbed(host) && out.Ok? ==> host.disk == Retired(old(host.disk))
    ensures Undisturbed(host) && !out.Ok? ==>
      && IsLocked(host.disk) && RawPair(host.disk) == SettledPair(host.facts, old(host.disk))
      && host.disk.secondary == None && host.disk.persistent == Vacant
  {
    RelockSucceedsIff(host.facts, host.disk);
    SettledPairIsBounded(host.facts, host.disk);
    assert IsLocked(SettledDisk(host.facts, host.disk));
    ghost var frozen;
    out, frozen := Lock(host);
  }

  /** seal-restart and then lock, undisturbed: the seal succeeds and the lock fails, leaving the
      mutable pair under locked directories, without a record. */
  method SealThenLock(host: Host) returns (sealed: Outcome<bool>, locked: Outcome<()>)
    requires host.alive
    requires Re.Sealable(host.facts, host.disk)
    modifies host
    ensures Undisturbed(host) ==>
      && sealed == Ok(false) && locked.Raised?
      && IsLocked(host.disk) && host.disk.secondary == None && host.disk.persistent == Vacant
      && RawPair(host.disk)
         == Some(Canonical(host.facts, RawPair(old(host.disk)).value.config.data, false))
  {
    ghost var captured;
    sealed, captured := Re.SealRestart(host);
    locked := Raised(OsError);
    if sealed == Ok(false) {
      Re.RestartRecordIsValid(host.facts, Sealed, captured.value);
      SealedIsCoherent(host.facts, host.disk, captured.value.config.data);
      locked := Relock(host);
    }
  }

  /** recover run twice, undisturbed: the second run changes nothing, exactly unless the first
      was refused on its way, and a third would change nothing in any case. */
  method RecoverTwice(host: Host) returns (first: Outcome<()>, second: Outcome<()>, ghost between: Disk)
    requires host.alive
    modifies host
    ensures Undisturbed(host) ==>
      && (first.Ok? <==> FateOf(host.facts, old(host.disk)) != Refused) && !first.Killed?
      && (second.Ok? <==> FateOf(host.facts, between) != Refused) && !second.Killed?
      && between == FinalDisk(host.facts, old(host.disk)) && host.disk == FinalDisk(host.facts, between)
      && (host.disk == between <==> !RefusedForward(host.facts, old(host.disk)))
      && FinalDisk(host.facts, host.disk) == host.disk
      && (RefusedForward(host.facts, old(host.disk)) ==> first.Raised? && IsFrozen(between))
  {
    ghost var d := host.disk;
    RecoverIsIdempotentIff(host.facts, d);
    TwoRecoversSettle(host.facts, d);
    first := R.Recover(host);
    between := host.disk;
    second := Killed;
    if !first.Killed? {
      second := R.Recover(host);
    }
  }

  /** A record without authority in a mutable tree, one of whose files has lost its mode: the
      first run takes the tree from the sandbox and reports an error, the second locks it. */
  method RefusedThenLocked(host: Host) returns (first: Outcome<()>, second: Outcome<()>)
    requires host.alive
    requires IsMutable(host.disk) && host.disk.secondary == None && host.disk.persistent.Journal?
    requires RawPair(host.disk).Some? && !MutableFiles(RawPair(host.disk).value)
    modifies host
    ensures Undisturbed(host) ==>
      && first.Raised? && second.Ok?
      && host.disk == LockedDisk(Canonical(host.facts, RawPair(old(host.disk)).value.config.data, true))
  {
    ghost var d := host.disk;
    assert RawPair(Frozen(d).(persistent := Vacant)) == RawPair(d);
    ghost var between;
    first, second, between := RecoverTwice(host);
  }

  /** An edit made while a write is being handed over, and then recovery, undisturbed: the
      edited pair is what the tree ends with exactly if the record no longer owes another
      pair, or owes the same. */
  method RecoverEdited(host: Host, ghost r: Record) returns (out: Outcome<()>)
    requires host.alive
    requires ReadJournal(host.disk) == Authoritative(r) && ValidWrite(host.facts, r)
    requires RawPair(host.disk).Some? && MutableFiles(RawPair(host.disk).value)
    modifies host
    ensures Undisturbed(host) ==>
      var visible := RawPair(old(host.disk)).value;
      && out.Ok?
      && (host.disk == HandedBackDisk(visible) <==>
            || r.phase == Prepared || (r.phase == Committed && IsMutable(old(host.disk)))
            || visible == (if r.phase == Committed then r.replacements else r.originals))
  {
    EditSurvivesIff(host.facts, host.disk, r);
    out := R.Recover(host);
  }

  /** recover under the prepared record of a seal, undisturbed: it succeeds, over the visible
      pair, exactly if the posture is one that it knows. */
  method RecoverPreparedSeal(host: Host, ghost r: Record) returns (out: Outcome<()>)
    requires host.alive
    requires Steady(host.facts, host.disk, r) && ValidRestart(host.facts, r) && NeverFreezes(r)
    requires Re.SealableFiles(host.facts, host.disk)
    modifies host
    ensures Undisturbed(host) ==> (out.Ok? <==> Exposed(old(host.disk)))
    ensures Undisturbed(host) && out.Ok? ==> host.disk == HandedBackDisk(RawPair(old(host.disk)).value)
  {
    PreparedSealRecoversIff(host.facts, host.disk, r);
    out := R.Recover(host);
  }

  /** unseal-restart on one machine and recover on another that started alike, undisturbed:
      unseal puts the captured bytes back whatever the phase, recover keeps the visible pair
      while none has been replaced, or once it was handed over. The two end alike exactly
      outside those phases, or if the visible pair is the one that unseal puts back. */
  method UnsealBesideRecover(a: Host, b: Host, ghost r: Record)
    returns (unsealed: Outcome<bool>, recovered: Outcome<()>)
    requires a != b && a.alive && b.alive && a.disk == b.disk && a.facts == b.facts
    requires Steady(a.facts, a.disk, r) && ValidRestart(a.facts, r) && !r.originalLocked && Exposed(a.disk)
    requires Re.SealableFiles(a.facts, a.disk) && Quarantinable(a.disk.persistent)
    modifies a, b
    ensures Undisturbed(a) && Undisturbed(b) ==>
      && unsealed == Ok(false) && recovered.Ok?
      && (a.disk == b.disk <==>
            || !(r.restartPhase == SealPrepared || (r.restartPhase == UnsealCommitted && IsMutable(old(a.disk))))
            || RawPair(old(a.disk)).value == Canonical(a.facts, r.originals.config.data, false))
  {
    SteadyReads(a.facts, a.disk, r);
    UnsealAgreesWithRecoverIff(a.facts, a.disk, r);
    unsealed := Re.UnsealRestart(a);
    recovered := R.Recover(b);
  }
}
