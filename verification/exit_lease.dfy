/** The expected-exit lease: any number of root controllers, each of which may die between
    any two system calls, share one lock file and one marker file. */
module ExitLease {
  import opened Basics

  /** The marker path. It is complete once its mode is the final one, which happens only
      after the whole payload naming its author has been written. */
  datatype Marker = Marker(ino: nat, author: nat, complete: bool)

  /** Where a controller is in publishing and clearing its lease. */
  datatype Phase =
    | Idle
    | Opened(lockIno: nat)     // has the lock file open
    | Locked                   // holds the lock
    | Found(ino: nat)          // has an earlier, trusted marker open
    | Matched(ino: nat)        // has seen that the path still names it
    | Free                     // no marker is in the way
    | Writing(ino: nat)        // has created its own marker
    | Sealed(ino: nat)         // has given it its final mode
    | Leased(ino: nat)         // has published its lease
    | Ending(ino: nat)         // has seen that the path names its own marker; unlink is next
    | Done(left: bool)         // has closed the lock; left says that its unlink failed
    | Dead

  datatype State = State(lockFile: Option<nat>, owner: Option<nat>, marker: Option<Marker>, phases: seq<Phase>)

  /** One system call of one controller, or its death. */
  datatype Act =
    | OpenLock(ino: nat) | TakeLock | Scan | Match | Retire | Create(ino: nat) | Seal | Publish
    | BeginClear | Unlink | FailUnlink | GiveUp | Die

  /** Phases in which the lock is held. */
  predicate Critical(p: Phase) {
    !p.Idle? && !p.Opened? && !p.Done? && !p.Dead?
  }

  /** Phases in which the controller's own marker exists. */
  predicate HasMarker(p: Phase) {
    p.Writing? || p.Sealed? || p.Leased? || p.Ending?
  }

  function WithPhase(s: State, c: nat, p: Phase): State
    requires c < |s.phases|
  {
    s.(phases := s.phases[c := p])
  }

  /** Closing the lock descriptor, by hand or by dying, drops the lock. */
  function Leave(s: State, c: nat, p: Phase): State
    requires c < |s.phases|
  {
    WithPhase(s.(owner := if s.owner == Some(c) then None else s.owner), c, p)
  }

  predicate PathNames(s: State, ino: nat) {
    s.marker.Some? && s.marker.value.ino == ino
  }

  /** The inode numbers in use. */
  predicate InUse(s: State, ino: nat) {
    PathNames(s, ino)
  }

  /** The effect of an act, or nothing if the controller cannot take it now. */
  function Apply(s: State, c: nat, a: Act): (t: Option<State>)
    requires c < |s.phases|
    ensures t.Some? ==> |t.value.phases| == |s.phases|
  {
    var p := s.phases[c];
    match a
    case OpenLock(ino) =>
      if !p.Idle? then None
      else if s.lockFile.Some? then Some(WithPhase(s, c, Opened(s.lockFile.value)))
      else Some(WithPhase(s.(lockFile := Some(ino)), c, Opened(ino)))
    case TakeLock =>
      if p.Opened? && s.lockFile == Some(p.lockIno) && s.owner.None?
      then Some(WithPhase(s.(owner := Some(c)), c, Locked)) else None
    case Scan =>
      if !p.Locked? then None
      else if s.marker.None? then Some(WithPhase(s, c, Free))
      else if s.marker.value.complete then Some(WithPhase(s, c, Found(s.marker.value.ino)))
      else Some(Leave(s, c, Done(false)))
    case Match =>
      if p.Found? then Some(WithPhase(s, c, if PathNames(s, p.ino) then Matched(p.ino) else Free)) else None
    case Retire =>
      if p.Matched? then Some(WithPhase(s.(marker := None), c, Free)) else None
    case Create(ino) =>
      if !p.Free? || InUse(s, ino) then None
      else if s.marker.Some? then Some(Leave(s, c, Done(false)))
      else Some(WithPhase(s.(marker := Some(Marker(ino, c, false))), c, Writing(ino)))
    case Seal =>
      if p.Writing? then
        Some(WithPhase(if PathNames(s, p.ino) then s.(marker := Some(s.marker.value.(complete := true))) else s,
                       c, Sealed(p.ino)))
      else None
    case Publish =>
      if p.Sealed? && PathNames(s, p.ino) then Some(WithPhase(s, c, Leased(p.ino))) else None
    case BeginClear =>
      if p.Writing? || p.Sealed? || p.Leased? then
        if PathNames(s, p.ino) then Some(WithPhase(s, c, Ending(p.ino))) else Some(Leave(s, c, Done(false)))
      else None
    case Unlink =>
      if p.Ending? then Some(Leave(s.(marker := None), c, Done(false))) else None
    case FailUnlink =>
      if p.Ending? then Some(Leave(s, c, Done(true))) else None
    case GiveUp =>
      if p.Idle? || p.Opened? || p.Locked? || p.Found? || p.Matched? || p.Free?
      then Some(Leave(s, c, Done(false))) else None
    case Die =>
      if p.Dead? then None else Some(Leave(s, c, Dead))
  }

  // ----- runs

  datatype Move = Move(controller: nat, act: Act)

  /** The state after a run; a move that cannot be taken is skipped. */
  function After(s: State, run: seq<Move>): (t: State)
    ensures |t.phases| == |s.phases|
    decreases |run|
  {
    if run == [] then s else After(Stepped(s, run[0]), run[1..])
  }

  function Stepped(s: State, m: Move): (t: State)
    ensures |t.phases| == |s.phases|
  {
    if m.controller < |s.phases| && Apply(s, m.controller, m.act).Some?
    then Apply(s, m.controller, m.act).value else s
  }

  function Initial(n: nat): State {
    State(None, None, None, seq(n, _ => Idle))
  }

  // ----- the invariant

  /** What a controller's phase says about the shared state. */
  predicate PhaseFits(s: State, c: nat)
    requires c < |s.phases|
  {
    var p := s.phases[c];
    && (Critical(p) <==> s.owner == Some(c))
    && (p.Found? || p.Matched? ==> PathNames(s, p.ino) && s.marker.value.complete)
    && (p.Free? ==> s.marker.None?)
    && (HasMarker(p) ==> PathNames(s, p.ino) && s.marker.value.author == c)
    && (p.Writing? ==> !s.marker.value.complete)
    && (p.Sealed? || p.Leased? ==> s.marker.value.complete)
  }

  /** A marker's author is in the middle of its lease, has died, or failed to unlink it. */
  predicate MarkerFits(s: State) {
    s.marker.Some? ==>
      var m := s.marker.value;
      && m.author < |s.phases|
      && (|| (HasMarker(s.phases[m.author]) && s.phases[m.author].ino == m.ino)
          || s.phases[m.author].Dead?
          || s.phases[m.author] == Done(true))
  }

  predicate Safe(s: State) {
    && (s.owner.Some? ==> s.owner.value < |s.phases|)
    && (forall c :: 0 <= c < |s.phases| ==> PhaseFits(s, c))
    && MarkerFits(s)
  }

  lemma InitiallySafe(n: nat)
    ensures Safe(Initial(n))
  {
  }

  /** What a step makes true of one controller. */
  lemma StepKeepsPhase(s: State, c: nat, a: Act, d: nat)
    requires Safe(s) && c < |s.phases| && Apply(s, c, a).Some? && d < |s.phases|
    ensures PhaseFits(Apply(s, c, a).value, d)
  {
    assert PhaseFits(s, c) && PhaseFits(s, d);
  }

  lemma StepKeepsMarker(s: State, c: nat, a: Act)
    requires Safe(s) && c < |s.phases| && Apply(s, c, a).Some?
    ensures MarkerFits(Apply(s, c, a).value)
  {
    assert PhaseFits(s, c);
    if s.marker.Some? {
      assert PhaseFits(s, s.marker.value.author);
    }
  }

  lemma StepIsSafe(s: State, c: nat, a: Act)
    requires Safe(s) && c < |s.phases| && Apply(s, c, a).Some?
    ensures Safe(Apply(s, c, a).value)
  {
    hide PhaseFits, MarkerFits;
    var t := Apply(s, c, a).value;
    StepKeepsMarker(s, c, a);
    forall d | 0 <= d < |t.phases| ensures PhaseFits(t, d) {
      StepKeepsPhase(s, c, a, d);
    }
  }

  lemma SteppedIsSafe(s: State, m: Move)
    requires Safe(s)
    ensures Safe(Stepped(s, m))
  {
    hide Safe;
    if m.controller < |s.phases| && Apply(s, m.controller, m.act).Some? {
      StepIsSafe(s, m.controller, m.act);
    }
  }

  lemma {:induction false} RunIsSafe(s: State, run: seq<Move>)
    requires Safe(s)
    ensures Safe(After(s, run))
    decreases |run|
  {
    hide Safe, Apply;
    if run == [] {
    } else {
      SteppedIsSafe(s, run[0]);
      RunIsSafe(Stepped(s, run[0]), run[1..]);
    }
  }

  // ----- the lock file, and what can go wrong

  /** The lock file, once made, stays the one that every controller opens and locks. */
  lemma {:induction false} LockFileStays(s: State, run: seq<Move>)
    ensures s.lockFile.Some? ==> After(s, run).lockFile == s.lockFile
    decreases |run|
  {
    if run != [] {
      LockFileStays(Stepped(s, run[0]), run[1..]);
    }
  }

  /** A controller locks the file it has opened, while the path still names it and nobody holds
      the lock; and it creates a marker only where there is none, of a number not in use. */
  lemma OnlyTheseAreTaken(s: State, c: nat, ino: nat)
    requires c < |s.phases|
    ensures Apply(s, c, TakeLock).Some? <==>
      s.phases[c].Opened? && s.lockFile == Some(s.phases[c].lockIno) && s.owner == None
    ensures Apply(s, c, Create(ino)).Some? && Apply(s, c, Create(ino)).value.phases[c].Writing? <==>
      s.phases[c].Free? && s.marker == None
    ensures s.lockFile.Some? && s.phases[c].Idle? ==>
      Apply(s, c, OpenLock(ino)).Some?
      && Apply(s, c, OpenLock(ino)).value.phases[c] == Opened(s.lockFile.value)
  {
  }

  /** A controller may die in any phase, and its unlink may fail; both drop the lock if it is held,
      and leave the marker. It may give up before it has created one. */
  lemma FaultsArePossible(s: State, c: nat)
    requires c < |s.phases|
    ensures var owner := if s.owner == Some(c) then None else s.owner;
      && Apply(s, c, Die) == (if s.phases[c] == Dead then None
                              else Some(State(s.lockFile, owner, s.marker, s.phases[c := Dead])))
      && Apply(s, c, FailUnlink) == (if s.phases[c].Ending?
                                     then Some(State(s.lockFile, owner, s.marker, s.phases[c := Done(true)]))
                                     else None)
      && (Apply(s, c, GiveUp).Some? <==> !HasMarker(s.phases[c]) && !s.phases[c].Done? && !s.phases[c].Dead?)
  {
  }

  // ----- what the invariant means

  /** In every run of any number of controllers: at most one is inside the locked region; a
      complete marker whose author is alive belongs to the lock holder, unless that author
      has already failed to remove it. */
  lemma LeaseIsExclusive(n: nat, run: seq<Move>)
    ensures var s := After(Initial(n), run);
      && |s.phases| == n
      && (forall c, d :: 0 <= c < n && 0 <= d < n && Critical(s.phases[c]) && Critical(s.phases[d]) ==> c == d)
      && (s.marker.Some? ==>
            var author := s.marker.value.author;
            author < n && !(s.phases[author].Dead? || s.phases[author] == Done(true)) ==> s.owner == Some(author))
  {
    InitiallySafe(n);
    RunIsSafe(Initial(n), run);
    var s := After(Initial(n), run);
    forall c | 0 <= c < n ensures Critical(s.phases[c]) ==> s.owner == Some(c) {
      assert PhaseFits(s, c);
    }
  }

  /** In every run, a move that makes a marker disappear is made by its author, or retires,
      under the lock, a marker whose author is dead or failed to remove it. */
  lemma OnlyOrphansAreRetired(n: nat, run: seq<Move>, m: Move)
    ensures var s := After(Initial(n), run);
      s.marker.Some? && Stepped(s, m).marker.None? ==>
        var author := s.marker.value.author;
        && m.controller < n && author < n && s.owner == Some(m.controller)
        && (author == m.controller
            || (m.act.Retire? && (s.phases[author].Dead? || s.phases[author] == Done(true))))
  {
    InitiallySafe(n);
    RunIsSafe(Initial(n), run);
    var s := After(Initial(n), run);
    if s.marker.Some? && Stepped(s, m).marker.None? {
      assert PhaseFits(s, m.controller);
      assert PhaseFits(s, s.marker.value.author);
    }
  }

  // ----- the torn marker

  /** The author died, or failed to clean up, between creating the marker and giving it its
      final mode. */
  predicate Torn(s: State) {
    && s.marker.Some? && !s.marker.value.complete
    && s.marker.value.author < |s.phases|
    && (s.phases[s.marker.value.author].Dead? || s.phases[s.marker.value.author] == Done(true))
  }

  lemma TornStays(s: State, c: nat, a: Act)
    requires Safe(s) && Torn(s) && c < |s.phases| && Apply(s, c, a).Some?
    ensures Torn(Apply(s, c, a).value) && Apply(s, c, a).value.marker == s.marker
    ensures !Apply(s, c, a).value.phases[c].Leased?
  {
    assert PhaseFits(s, c);
    assert PhaseFits(s, s.marker.value.author);
  }

  lemma TornLeasesNobody(s: State)
    requires Safe(s) && Torn(s)
    ensures forall c :: 0 <= c < |s.phases| ==> !s.phases[c].Leased?
  {
    forall c | 0 <= c < |s.phases| ensures !s.phases[c].Leased? {
      assert PhaseFits(s, c);
    }
  }

  /** A torn marker is there for good: no run of controllers removes it, and none publishes a
      lease while it is there. */
  lemma {:induction false} TornBlocksForever(s: State, run: seq<Move>)
    requires Safe(s) && Torn(s)
    ensures var t := After(s, run);
      Torn(t) && t.marker == s.marker && forall c :: 0 <= c < |t.phases| ==> !t.phases[c].Leased?
    decreases |run|
  {
    hide Safe, Apply, Torn;
    if run == [] {
      TornLeasesNobody(s);
    } else {
      var m := run[0];
      SteppedIsSafe(s, m);
      if m.controller < |s.phases| && Apply(s, m.controller, m.act).Some? {
        TornStays(s, m.controller, m.act);
      }
      TornBlocksForever(Stepped(s, m), run[1..]);
    }
  }

  /** What a controller does when nothing fails. */
  function Publication(c: nat, orphan: bool, ino: nat): seq<Move> {
    if orphan then
      [Move(c, OpenLock(0)), Move(c, TakeLock), Move(c, Scan), Move(c, Match), Move(c, Retire),
       Move(c, Create(ino)), Move(c, Seal), Move(c, Publish)]
    else
      [Move(c, OpenLock(0)), Move(c, TakeLock), Move(c, Scan),
       Move(c, Create(ino)), Move(c, Seal), Move(c, Publish)]
  }

  lemma AfterFirst(s: State, run: seq<Move>)
    requires run != []
    ensures After(s, run) == After(Stepped(s, run[0]), run[1..])
  {
  }

  /** From the point where no marker is in the way, the lease gets published. */
  lemma CreationPublishes(s: State, c: nat, ino: nat)
    requires c < |s.phases| && s.phases[c].Free? && s.marker.None?
    ensures After(s, [Move(c, Create(ino)), Move(c, Seal), Move(c, Publish)]).phases[c] == Leased(ino)
  {
    var create, seal, publish := Move(c, Create(ino)), Move(c, Seal), Move(c, Publish);
    var s1 := Stepped(s, create);
    var s2 := Stepped(s1, seal);
    var s3 := Stepped(s2, publish);
    assert s1.phases[c] == Writing(ino) && s2.phases[c] == Sealed(ino) && s3.phases[c] == Leased(ino);
    assert [create, seal, publish][1..] == [seal, publish] && [seal, publish][1..] == [publish];
    assert [publish][1..] == [];
    AfterFirst(s, [create, seal, publish]);
    AfterFirst(s1, [seal, publish]);
    AfterFirst(s2, [publish]);
  }

  /** A controller that finds the lock free gets to look at the marker. */
  lemma EntryReachesScan(s: State, c: nat, rest: seq<Move>) returns (t: State)
    requires Safe(s) && c < |s.phases| && s.phases[c].Idle? && s.owner.None?
    ensures |t.phases| == |s.phases| && t.marker == s.marker
    ensures t.phases[c] == (if s.marker.None? then Free
                            else if s.marker.value.complete then Found(s.marker.value.ino) else Done(false))
    ensures After(s, [Move(c, OpenLock(0)), Move(c, TakeLock), Move(c, Scan)] + rest) == After(t, rest)
  {
    var open, take, scan := Move(c, OpenLock(0)), Move(c, TakeLock), Move(c, Scan);
    var s1 := Stepped(s, open);
    var s2 := Stepped(s1, take);
    t := Stepped(s2, scan);
    var run := [open, take, scan] + rest;
    assert run[1..] == [take, scan] + rest && run[1..][1..] == [scan] + rest && run[1..][1..][1..] == rest;
    AfterFirst(s, run);
    AfterFirst(s1, run[1..]);
    AfterFirst(s2, run[1..][1..]);
  }

  /** When the lock is free, a fresh controller left to itself publishes its lease exactly
      when no torn marker is in the way. */
  lemma PublishesIffNotTorn(s: State, c: nat, ino: nat)
    requires Safe(s) && c < |s.phases| && s.phases[c].Idle? && s.owner.None? && !InUse(s, ino)
    ensures After(s, Publication(c, s.marker.Some?, ino)).phases[c] == Leased(ino) <==> !Torn(s)
  {
    hide Safe;
    var create := [Move(c, Create(ino)), Move(c, Seal), Move(c, Publish)];
    var run := Publication(c, s.marker.Some?, ino);
    TornIffIncomplete(s);
    if Torn(s) {
      TornBlocksForever(s, run);
    } else if s.marker.None? {
      assert run == [Move(c, OpenLock(0)), Move(c, TakeLock), Move(c, Scan)] + create;
      var t := EntryReachesScan(s, c, create);
      CreationPublishes(t, c, ino);
    } else {
      var check, retire := Move(c, Match), Move(c, Retire);
      var rest := [check, retire] + create;
      assert run == [Move(c, OpenLock(0)), Move(c, TakeLock), Move(c, Scan)] + rest;
      var t := EntryReachesScan(s, c, rest);
      var t1 := Stepped(t, check);
      var t2 := Stepped(t1, retire);
      assert rest[1..] == [retire] + create && rest[1..][1..] == create;
      AfterFirst(t, rest);
      AfterFirst(t1, rest[1..]);
      CreationPublishes(t2, c, ino);
    }
  }

  /** With the lock free, an incomplete marker is a torn one. */
  lemma TornIffIncomplete(s: State)
    requires Safe(s) && s.owner.None?
    ensures Torn(s) <==> s.marker.Some? && !s.marker.value.complete
  {
    if s.marker.Some? {
      assert PhaseFits(s, s.marker.value.author);
    }
  }

  // ----- clearing the lease

  /** What the controller does once the gateway has exited and nothing fails. */
  function Clearing(c: nat): seq<Move> {
    [Move(c, BeginClear), Move(c, Unlink)]
  }

  lemma {:induction false} AfterBoth(s: State, first: seq<Move>, second: seq<Move>)
    ensures After(s, first + second) == After(After(s, first), second)
    decreases |first|
  {
    if first == [] {
      assert first + second == second;
    } else {
      assert (first + second)[1..] == first[1..] + second;
      AfterBoth(Stepped(s, first[0]), first[1..], second);
    }
  }

  /** A lease that is cleared leaves neither its marker nor the lock behind, and touches no other
      controller; so does one whose publication failed after its marker was created. */
  lemma ClearingRemovesOwn(s: State, c: nat)
    requires Safe(s) && c < |s.phases|
    requires s.phases[c].Writing? || s.phases[c].Sealed? || s.phases[c].Leased?
    ensures After(s, Clearing(c)) == State(s.lockFile, None, None, s.phases[c := Done(false)])
  {
    assert PhaseFits(s, c);
    var s1 := Stepped(s, Clearing(c)[0]);
    assert Clearing(c)[1..] == [Move(c, Unlink)] && [Move(c, Unlink)][1..] == [];
    AfterFirst(s, Clearing(c));
    AfterFirst(s1, [Move(c, Unlink)]);
  }

  /** The round trip: a fresh controller left to itself publishes and clears, and leaves no marker
      and no lock, also where it found an orphan; exactly unless a torn marker was in the way. */
  lemma LeaseRoundTripIff(s: State, c: nat, ino: nat)
    requires Safe(s) && c < |s.phases| && s.phases[c].Idle? && s.owner.None? && !InUse(s, ino)
    ensures var t := After(s, Publication(c, s.marker.Some?, ino) + Clearing(c));
      (t.marker.None? && t.owner.None? && t.phases[c] == Done(false)) <==> !Torn(s)
  {
    hide Safe, Apply;
    var run := Publication(c, s.marker.Some?, ino);
    var leased := After(s, run);
    RunIsSafe(s, run);
    AfterBoth(s, run, Clearing(c));
    PublishesIffNotTorn(s, c, ino);
    if Torn(s) {
      TornBlocksForever(s, run + Clearing(c));
      assert Torn(After(s, run + Clearing(c)));
    } else {
      ClearingRemovesOwn(leased, c);
    }
  }
}
