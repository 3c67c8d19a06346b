/** Stopping the gateway through a pidfd while processes exit, are reaped, and their pids
    are used again. */
module GatewaySignals {
  import opened Basics

  /** What procfs tells of a process, apart from its pid and whether it is a zombie. */
  datatype Attributes = Attributes(
    startTime: nat, parentPid: nat, uids: seq<nat>, namespacePid: nat, namespaceInode: Option<nat>,
    cmdline: seq<string>, procDevice: nat, procInode: nat)

  /** The stable key of a captured identity. */
  datatype Key = Key(pid: nat, zombie: bool, attributes: Attributes)

  /** A process; instance numbers are never used twice, unlike pids. */
  datatype Process = Process(instance: nat, zombie: bool, attributes: Attributes)

  type Table = map<nat, Process>

  datatype Signal = Term | Kill

  /** What can happen to the process table between two system calls of the controller. */
  datatype Event =
    | Exit(pid: nat)
    | Reap(pid: nat)
    | Spawn(pid: nat, attributes: Attributes)
    | Change(pid: nat, attributes: Attributes)

  datatype Reading = Missing | Inconsistent | Read(key: Key)

  /** Instance a has this pid in table t. */
  predicate Holds(t: Table, pid: nat, a: nat) {
    pid in t && t[pid].instance == a
  }

  /** The process with this pid shows exactly this key. */
  predicate Shows(t: Table, key: Key) {
    key.pid in t && t[key.pid].zombie == key.zombie && t[key.pid].attributes == key.attributes
  }

  predicate Gone(t: Table, a: nat) {
    forall pid :: pid in t && t[pid].instance == a ==> t[pid].zombie
  }

  /** The table after an event; the next spawn takes the given instance number. */
  function Happens(t: Table, next: nat, e: Event): Table {
    match e
    case Exit(pid) => if pid in t then t[pid := t[pid].(zombie := true)] else t
    case Reap(pid) => if pid in t && t[pid].zombie then t - {pid} else t
    case Spawn(pid, attributes) => if pid in t then t else t[pid := Process(next, false, attributes)]
    case Change(pid, attributes) => if pid in t then t[pid := t[pid].(attributes := attributes)] else t
  }

  /** What the world can do: any process may exit and then stays a zombie until it is reaped, which
      frees its pid; a free pid goes to a new instance; and a process may change its looks. */
  lemma EventsMean(t: Table, next: nat, pid: nat, a: Attributes)
    ensures pid in t ==> Happens(t, next, Exit(pid)) == t[pid := Process(t[pid].instance, true, t[pid].attributes)]
    ensures pid in t && t[pid].zombie ==> Happens(t, next, Reap(pid)) == t - {pid}
    ensures pid in t && !t[pid].zombie ==> Happens(t, next, Reap(pid)) == t
    ensures pid !in t ==> Happens(t, next, Spawn(pid, a)) == t[pid := Process(next, false, a)]
    ensures pid in t ==> Happens(t, next, Spawn(pid, a)) == t
    ensures pid in t ==> Happens(t, next, Change(pid, a)) == t[pid := Process(t[pid].instance, t[pid].zombie, a)]
  {
  }

  /** The table after a stretch of events. */
  function HappenAll(t: Table, next: nat, events: seq<Event>): Table {
    if events == [] then t
    else
      var last := |events| - 1;
      Happens(HappenAll(t, next, events[..last]), next + last, events[last])
  }

  lemma OneMoreHappens(t: Table, next: nat, events: seq<Event>, i: nat)
    requires i < |events|
    ensures HappenAll(t, next, events[..i + 1]) == Happens(HappenAll(t, next, events[..i]), next + i, events[i])
  {
    assert events[..i + 1][..i] == events[..i];
  }

  /** The tables so far are those of one machine: instance numbers below next, one pid per
      instance, and an instance that has lost its pid never gets it back. */
  ghost predicate Lawful(history: seq<Table>, next: nat) {
    && (forall i, pid :: 0 <= i < |history| && pid in history[i] ==> history[i][pid].instance < next)
    && (forall i, j, p, q, a | 0 <= i < |history| && 0 <= j < |history| ::
          Holds(history[i], p, a) && Holds(history[j], q, a) ==> p == q)
    && (forall i, j, k, p, a | 0 <= i <= j <= k < |history| ::
          Holds(history[i], p, a) && Holds(history[k], p, a) ==> Holds(history[j], p, a))
  }

  /** The past is only added to. */
  ghost predicate Extends(h: seq<Table>, longer: seq<Table>) {
    |h| <= |longer| && forall i :: 0 <= i < |h| ==> longer[i] == h[i]
  }

  lemma HistoryStaysLawful(history: seq<Table>, next: nat, e: Event)
    requires history != [] && Lawful(history, next)
    ensures Lawful(history + [Happens(history[|history| - 1], next, e)], next + 1)
  {
    var last := history[|history| - 1];
    var t := Happens(last, next, e);
    var h := history + [t];
    assert forall i :: 0 <= i < |history| ==> h[i] == history[i];
    forall p | p in t && t[p].instance != next
      ensures Holds(last, p, t[p].instance)
    {
    }
  }

  /** No two instances ever showed the same key: what the kernel's start times are for. */
  ghost predicate KeysIdentify(history: seq<Table>) {
    forall i, j, key | 0 <= i < |history| && 0 <= j < |history| ::
      Shows(history[i], key) && Shows(history[j], key)
      ==> history[i][key.pid].instance == history[j][key.pid].instance
  }

  /** The expected key could not be read at every one of these moments. */
  ghost predicate Unproven(history: seq<Table>, from: nat, key: Key) {
    exists k :: from <= k < |history| && !Shows(history[k], key)
  }

  /** More captures than that in a row find the process changing under them. */
  predicate FlakyBeyond(flaky: seq<bool>, retries: nat) {
    |flaky| > retries && forall i :: 0 <= i <= retries ==> flaky[i]
  }

  class Machine {
    var table: Table
    var next: nat
    /** What will happen before each further system call. */
    var world: seq<seq<Event>>
    /** Which captures will find the process changing under them. */
    var flaky: seq<bool>
    ghost var history: seq<Table>
    /** Every signal delivered, with the instance it reached. */
    ghost var sent: seq<(nat, Signal)>

    ghost predicate Valid()
      reads this
    {
      history != [] && history[|history| - 1] == table && Lawful(history, next)
    }

    constructor (table: Table, next: nat, world: seq<seq<Event>>, flaky: seq<bool>)
      requires Lawful([table], next)
      ensures Valid() && this.table == table && sent == []
    {
      this.table, this.next, this.world, this.flaky := table, next, world, flaky;
      history, sent := [table], [];
    }

    /** Time has passed and no signal was sent. */
    twostate predicate Onward()
      reads this
    {
      Extends(old(history), history) && sent == old(sent)
    }

    /** The events foreseen before one system call have happened, all of them, once. */
    twostate predicate OneInterval()
      reads this
    {
      if old(world) == [] then world == [] && table == old(table)
      else world == old(world)[1..] && table == HappenAll(old(table), old(next), old(world)[0])
    }

    /** One event happens. */
    method Advance(e: Event)
      requires Valid()
      modifies this
      ensures Valid() && Onward() && world == old(world) && flaky == old(flaky)
      ensures table == Happens(old(table), old(next), e) && next == old(next) + 1
    {
      hide Happens;
      HistoryStaysLawful(history, next, e);
      table := Happens(table, next, e);
      next := next + 1;
      history := history + [table];
    }

    /** Time passes until the next system call. */
    method Tick()
      requires Valid()
      modifies this
      ensures Valid() && Onward() && OneInterval() && flaky == old(flaky)
    {
      if world == [] {
        return;
      }
      hide Lawful, Happens;
      var events := world[0];
      world := world[1..];
      var i := 0;
      while i < |events|
        invariant 0 <= i <= |events| && Valid() && Onward()
        invariant world == old(world)[1..] && flaky == old(flaky) && next == old(next) + i
        invariant table == HappenAll(old(table), old(next), events[..i])
      {
        OneMoreHappens(old(table), old(next), events, i);
        Advance(events[i]);
        i := i + 1;
      }
      assert events[..i] == events;
    }

    /** pidfd_open: a handle on whichever instance has the pid now. */
    method PidfdOpen(pid: nat) returns (fd: Option<nat>)
      requires Valid()
      modifies this
      ensures Valid() && Onward() && OneInterval() && flaky == old(flaky)
      ensures fd.Some? ==> Holds(table, pid, fd.value)
      ensures fd.None? ==> pid !in table
    {
      Tick();
      return if pid in table then Some(table[pid].instance) else None;
    }

    /** ProcReader.capture: the key of whichever process has the pid now. */
    method Capture(pid: nat) returns (r: Reading)
      requires Valid()
      modifies this
      ensures Valid() && Onward() && OneInterval()
      ensures flaky == if pid in table && old(flaky) != [] then old(flaky)[1..] else old(flaky)
      ensures r.Inconsistent? <==> pid in table && old(flaky) != [] && old(flaky)[0]
      ensures r.Read? ==> r.key.pid == pid && Shows(table, r.key)
      ensures r.Missing? ==> pid !in table
    {
      Tick();
      if pid !in table {
        return Missing;
      }
      if flaky != [] {
        var inconsistent := flaky[0];
        flaky := flaky[1..];
        if inconsistent {
          return Inconsistent;
        }
      }
      return Read(Key(pid, table[pid].zombie, table[pid].attributes));
    }

    /** poll on the pidfd: readable once its instance has exited. */
    method Exited(fd: nat) returns (exited: bool)
      requires Valid()
      modifies this
      ensures Valid() && Onward() && OneInterval()
      ensures exited <==> Gone(table, fd)
    {
      Tick();
      exited := forall pid :: pid in table && table[pid].instance == fd ==> table[pid].zombie;
    }

    /** pidfd_send_signal: reaches the pinned instance or nobody. */
    method Send(fd: nat, signal: Signal) returns (delivered: bool)
      requires Valid()
      modifies this
      ensures Valid() && OneInterval()
      ensures Extends(old(history), history)
      ensures delivered ==> exists pid :: Holds(table, pid, fd)
      ensures !delivered ==> Gone(table, fd)
      ensures sent == if delivered then old(sent) + [(fd, signal)] else old(sent)
    {
      Tick();
      delivered := exists pid :: pid in table && table[pid].instance == fd;
      if delivered {
        sent := sent + [(fd, signal)];
        var pid :| pid in table && table[pid].instance == fd;
        assert Holds(table, pid, fd);
      }
    }

    /** _recapture_exact_identity: at is the moment at which the key was seen. */
    method Recapture(expected: Key, retries: nat) returns (ok: bool, ghost at: nat)
      requires Valid()
      modifies this
      ensures Valid() && Onward()
      ensures ok ==> |old(history)| - 1 <= at < |history| && Shows(history[at], expected)
      // It gives up only if the process was gone, showed another key, or never held still.
      ensures !ok ==> Unproven(history, |old(history)| - 1, expected) || FlakyBeyond(old(flaky), retries)
    {
      var left: nat := retries;
      at := 0;
      while true
        invariant Valid() && Onward() && left <= retries <= |old(flaky)| + left
        invariant flaky == old(flaky)[retries - left..]
        invariant forall i :: 0 <= i < retries - left ==> old(flaky)[i]
        decreases left
      {
        var r := Capture(expected.pid);
        at := |history| - 1;
        match r
        case Missing => return false, at;
        case Read(key) => return key == expected, at;
        case Inconsistent =>
          if left == 0 {
            return false, at;
          }
          left := left - 1;
      }
    }

    /** SIGTERM, a look, SIGKILL, a look: the instance had some pid at the moment now, when
        the first signal reached it. */
    method StopPinned(fd: nat) returns (ok: bool, ghost now: nat)
      requires Valid()
      modifies this
      ensures Valid() && Extends(old(history), history)
      ensures |old(history)| - 1 <= now < |history|
      ensures sent == old(sent) || sent == old(sent) + [(fd, Term)] || sent == old(sent) + [(fd, Term), (fd, Kill)]
      ensures sent != old(sent) ==> exists pid :: Holds(history[now], pid, fd)
      ensures sent == old(sent) ==> Gone(history[now], fd)
      // The second signal is for an instance that has survived the first.
      ensures |sent| == |old(sent)| + 2 ==> exists k :: now <= k < |history| && !Gone(history[k], fd)
      ensures ok <==> Gone(table, fd)
      ensures !ok ==> sent == old(sent) + [(fd, Term), (fd, Kill)]
    {
      hide Lawful, OneInterval, Happens, HappenAll;
      var delivered := Send(fd, Term);
      now := |history| - 1;
      if !delivered {
        return true, now;
      }
      ok := Exited(fd);
      if ok {
        return;
      }
      delivered := Send(fd, Kill);
      if !delivered {
        return true, now;
      }
      ok := Exited(fd);
    }

    /** _terminate_gateway. Every signal reaches one and the same instance, and that instance
        was seen with exactly the expected key while it held the pid. On success it has
        exited, or had already lost the pid when the call began. */
    method TerminateGateway(expected: Key, retries: nat) returns (ok: bool, ghost pinned: Option<nat>)
      requires Valid()
      modifies this
      ensures Valid()
      ensures Extends(old(history), history)
      ensures sent == old(sent) || (pinned.Some? && sent == old(sent) + [(pinned.value, Term)])
              || (pinned.Some? && sent == old(sent) + [(pinned.value, Term), (pinned.value, Kill)])
      ensures sent != old(sent) ==>
        exists k :: |old(history)| - 1 <= k < |history| && Shows(history[k], expected)
                    && Holds(history[k], expected.pid, pinned.value)
      // The instance signalled is the one whose key was captured, at whatever earlier moment.
      ensures sent != old(sent) && KeysIdentify(history) ==>
        forall before | 0 <= before < |history| && Shows(history[before], expected) ::
          Holds(history[before], expected.pid, pinned.value)
      ensures pinned.Some? ==> (ok <==> Gone(table, pinned.value))
      ensures !ok && sent != old(sent) ==> sent == old(sent) + [(pinned.value, Term), (pinned.value, Kill)]
      ensures pinned.None? ==> ok && expected.pid !in table
      ensures |sent| == |old(sent)| + 2 ==>
        pinned.Some? && exists k :: |old(history)| - 1 <= k < |history| && !Gone(history[k], pinned.value)
      // A gateway that shows the expected key throughout, and holds still long enough, is
      // signalled, unless it is gone by then.
      ensures sent == old(sent) ==>
        || Unproven(history, |old(history)| - 1, expected) || FlakyBeyond(old(flaky), retries)
        || (pinned.Some? && exists now :: |old(history)| - 1 <= now < |history| && Gone(history[now], pinned.value))
    {
      hide Lawful, OneInterval, Happens, HappenAll;
      var fd := PidfdOpen(expected.pid);
      pinned := fd;
      if fd.None? {
        return true, pinned;
      }
      ghost var start := |history| - 1;
      var proven, at := Recapture(expected, retries);
      if !proven {
        ok := Exited(fd.value);
        return;
      }
      ghost var now;
      ok, now := StopPinned(fd.value);
      if sent != old(sent) {
        PinnedIsProven(history, next, expected, fd.value, start, at, now);
      }
    }
  }

  /** The pidfd's instance had the pid when it was opened and is still there now; so it had
      the pid in between, when the key was read. */
  lemma PinnedIsProven(history: seq<Table>, next: nat, expected: Key, a: nat, start: nat, at: nat, now: nat)
    requires Lawful(history, next) && start <= at <= now < |history|
    requires Holds(history[start], expected.pid, a) && Shows(history[at], expected)
    requires exists pid :: Holds(history[now], pid, a)
    ensures Holds(history[at], expected.pid, a)
  {
    var pid :| Holds(history[now], pid, a);
    assert pid == expected.pid;
  }
}
