/** The machine the guard runs on. Each method of Host is one durable system call.
    Before a call takes effect the world may act: sandbox code may edit a directory
    it owns, the call may fail, or the guard process may be killed. */
module HostModel {
  import opened Basics
  import opened GuardTypes
  import opened RecoverySpec

  /** What sandbox code last did to the entries of the config directory. */
  datatype Edit = NoEdit | Edited(configFile: Entry, hashFile: Entry, persistent: Reserved)

  /** Stop ends the call: by death or by an error, before or after the effect. */
  datatype Fault = Proceed | Stop(killed: bool, applied: bool)

  datatype Event = Event(edit: Edit, fault: Fault)

  /** Entries may differ, everything the sandbox cannot own is the same. */
  predicate OnlyEntriesDiffer(a: Disk, b: Disk) {
    a.parent == b.parent && a.config == b.config && a.secondary == b.secondary
  }

  predicate SameEntries(a: Disk, b: Disk) {
    a.configFile == b.configFile && a.hashFile == b.hashFile && a.persistent == b.persistent
  }

  function WithEdit(d: Disk, e: Edit, filesOnly: bool): Disk
    requires e.Edited?
  {
    d.(configFile := e.configFile, hashFile := e.hashFile,
       persistent := if filesOnly then d.persistent else e.persistent)
  }

  predicate IsDirectory(r: Reserved) {
    r.Planted? && r.directory
  }

  /** The outcome of a call whose effect is or is not in place. */
  function Ending(fault: Fault): Outcome<()> {
    if fault == Proceed then Ok(()) else if fault.killed then Killed else Raised(OsError)
  }

  /** How the next call ends, if nothing but the world stands in its way. */
  function NextEnding(schedule: seq<Event>): Outcome<()> {
    if schedule == [] then Ok(()) else Ending(schedule[0].fault)
  }

  /** Whether the next call has its effect. */
  predicate NextApplies(schedule: seq<Event>) {
    schedule == [] || schedule[0].fault == Proceed || schedule[0].fault.applied
  }

  function AfterNext(schedule: seq<Event>): seq<Event> {
    if schedule == [] then [] else schedule[1..]
  }

  class Host {
    const facts: Facts
    /** Whether sandbox edits are confined to the two files. */
    const filesOnly: bool
    var disk: Disk
    /** What the world will do, call by call; when it runs out, every call proceeds. */
    var schedule: seq<Event>
    /** Whether the guard process is running; a dead one makes no further call. */
    ghost var alive: bool
    /** How many sandbox edits took effect. */
    ghost var edits: nat
    /** How many system calls failed or were the last. */
    ghost var faults: nat
    /** How many system calls failed and left the guard running. */
    ghost var errors: nat
    /** How many times the guard wrote a record to the reserved in-tree name. */
    ghost var records: nat
    /** How many times the guard itself wrote one of the two protected names. */
    ghost var installs: nat

    constructor (facts: Facts, filesOnly: bool, disk: Disk, schedule: seq<Event>)
      ensures this.facts == facts && this.filesOnly == filesOnly
      ensures this.disk == disk && this.schedule == schedule
      ensures alive && edits == 0 && faults == 0 && errors == 0 && installs == 0 && records == 0
    {
      this.facts := facts;
      this.filesOnly := filesOnly;
      this.disk := disk;
      this.schedule := schedule;
      alive, edits, faults, errors, installs, records := true, 0, 0, 0, 0, 0;
    }

    /** The guard is started once more. */
    ghost method Start()
      modifies this`alive
      ensures alive
    {
      alive := true;
    }

    /** Over any number of runs, counters only grow, every edit and every fault uses up an event,
        and a reserved name that neither side writes stays vacant. */
    twostate predicate Later()
      reads this
    {
      && edits >= old(edits) && errors >= old(errors)
      && faults >= old(faults) + (errors - old(errors))
      && installs >= old(installs) && records >= old(records)
      && edits + |schedule| <= old(edits) + |old(schedule)|
      && faults + |schedule| <= old(faults) + |old(schedule)|
      && (filesOnly && old(disk.persistent) == Vacant && records == old(records) ==>
            disk.persistent == Vacant)
    }

    /** The same in a single run, in which every fault but a last one is an error. */
    twostate predicate Onward()
      reads this
    {
      Later() && faults == old(faults) + (errors - old(errors)) + (if alive then 0 else 1)
    }

    /** The guard wrote neither a protected file nor an in-tree record. */
    twostate predicate HandsOff()
      reads this
    {
      installs == old(installs) && records == old(records)
    }

    /** The world acts, and decides how the next system call ends. */
    method World() returns (fault: Fault)
      requires alive
      modifies this
      ensures Onward()
      ensures alive <==> !Ending(fault).Killed?
      ensures faults == old(faults) + (if fault == Proceed then 0 else 1)
      ensures OnlyEntriesDiffer(old(disk), disk)
      ensures HandsOff()
      ensures edits == old(edits) ==> disk == old(disk)
      ensures !SandboxReaches(old(disk)) ==> edits == old(edits)
      ensures old(schedule) == [] ==> fault == Proceed && disk == old(disk)
      ensures old(schedule) != [] ==>
        var event := old(schedule)[0];
        && schedule == old(schedule)[1..] && fault == event.fault
        && disk == (if event.edit.Edited? && SandboxReaches(old(disk))
                    then WithEdit(old(disk), event.edit, filesOnly) else old(disk))
        && (event.edit.Edited? && SandboxReaches(old(disk)) ==> edits == old(edits) + 1)
      // The sandbox gets whatever it writes, in any directory it owns, and a call ends as foreseen.
      ensures old(schedule) != [] && old(schedule)[0].edit.Edited? && old(disk).config.user == Sandbox ==>
        var edit := old(schedule)[0].edit;
        && disk.configFile == edit.configFile && disk.hashFile == edit.hashFile
        && (!filesOnly ==> disk.persistent == edit.persistent)
      ensures old(schedule) != [] && old(schedule)[0].fault.Stop? ==>
        (if old(schedule)[0].fault.killed then !alive else alive && errors == old(errors) + 1)
    {
      if schedule == [] {
        return Proceed;
      }
      var event := schedule[0];
      schedule := schedule[1..];
      if event.edit.Edited? && SandboxReaches(disk) {
        disk := WithEdit(disk, event.edit, filesOnly);
        edits := edits + 1;
      }
      alive := !Ending(event.fault).Killed?;
      if event.fault != Proceed {
        faults := faults + 1;
        if alive {
          errors := errors + 1;
        }
      }
      return event.fault;
    }

    /** A step with no durable effect that can still fail: a read or an fsync. */
    method Observe() returns (r: Outcome<()>)
      requires alive
      modifies this
      ensures Onward()
      ensures alive <==> !r.Killed?
      ensures !r.Ok? ==> faults > old(faults)
      ensures r.Raised? ==> r.error == OsError
      ensures OnlyEntriesDiffer(old(disk), disk)
      ensures HandsOff()
      ensures edits == old(edits) ==> disk == old(disk)
      ensures !SandboxReaches(old(disk)) ==> edits == old(edits)
    {
      var fault := World();
      r := Ending(fault);
    }

    method ChownParent(user: Principal, group: Principal) returns (r: Outcome<()>)
      requires alive
      modifies this
      ensures Onward()
      ensures alive <==> !r.Killed?
      ensures !r.Ok? ==> faults > old(faults)
      ensures r.Raised? ==> r.error == OsError
      ensures r == NextEnding(old(schedule)) && schedule == AfterNext(old(schedule))
      ensures HandsOff()
      ensures !SandboxReaches(old(disk)) ==> edits == old(edits)
      ensures disk.config == old(disk.config) && disk.secondary == old(disk.secondary)
      ensures edits == old(edits) ==> SameEntries(old(disk), disk)
      ensures r.Ok? ==> disk.parent == Chowned(facts, old(disk.parent), user, group)
      ensures disk.parent == if NextApplies(old(schedule)) then Chowned(facts, old(disk.parent), user, group)
                             else old(disk.parent)
    {
      var fault := World();
      if fault == Proceed || fault.applied {
        disk := disk.(parent := Chowned(facts, disk.parent, user, group));
      }
      r := Ending(fault);
    }

    method ChmodParent(mode: nat) returns (r: Outcome<()>)
      requires alive
      modifies this
      ensures Onward()
      ensures alive <==> !r.Killed?
      ensures !r.Ok? ==> faults > old(faults)
      ensures r.Raised? ==> r.error == OsError
      ensures r == NextEnding(old(schedule)) && schedule == AfterNext(old(schedule))
      ensures HandsOff()
      ensures !SandboxReaches(old(disk)) ==> edits == old(edits)
      ensures disk.config == old(disk.config) && disk.secondary == old(disk.secondary)
      ensures edits == old(edits) ==> SameEntries(old(disk), disk)
      ensures r.Ok? ==> disk.parent == old(disk.parent).(mode := mode)
      ensures disk.parent == if NextApplies(old(schedule)) then old(disk.parent).(mode := mode) else old(disk.parent)
    {
      var fault := World();
      if fault == Proceed || fault.applied {
        disk := disk.(parent := disk.parent.(mode := mode));
      }
      r := Ending(fault);
    }

    method ChownConfig(user: Principal, group: Principal) returns (r: Outcome<()>)
      requires alive
      modifies this
      ensures Onward()
      ensures alive <==> !r.Killed?
      ensures !r.Ok? ==> faults > old(faults)
      ensures r.Raised? ==> r.error == OsError
      ensures HandsOff()
      ensures !SandboxReaches(old(disk)) ==> edits == old(edits)
      ensures disk.parent == old(disk.parent) && disk.secondary == old(disk.secondary)
      ensures edits == old(edits) ==> SameEntries(old(disk), disk)
      ensures r.Ok? ==> disk.config == Chowned(facts, old(disk.config), user, group)
      ensures disk.config == if NextApplies(old(schedule)) then Chowned(facts, old(disk.config), user, group)
                             else old(disk.config)
    {
      var fault := World();
      if fault == Proceed || fault.applied {
        disk := disk.(config := Chowned(facts, disk.config, user, group));
      }
      r := Ending(fault);
    }

    method ChmodConfig(mode: nat) returns (r: Outcome<()>)
      requires alive
      modifies this
      ensures Onward()
      ensures alive <==> !r.Killed?
      ensures !r.Ok? ==> faults > old(faults)
      ensures r.Raised? ==> r.error == OsError
      ensures HandsOff()
      ensures !SandboxReaches(old(disk)) ==> edits == old(edits)
      ensures disk.parent == old(disk.parent) && disk.secondary == old(disk.secondary)
      ensures edits == old(edits) ==> SameEntries(old(disk), disk)
      ensures r.Ok? ==> disk.config == old(disk.config).(mode := mode)
      ensures disk.config == if NextApplies(old(schedule)) then old(disk.config).(mode := mode) else old(disk.config)
    {
      var fault := World();
      if fault == Proceed || fault.applied {
        disk := disk.(config := disk.config.(mode := mode));
      }
      r := Ending(fault);
    }

    /** Atomic rename of a fully written temporary file over openclaw.json, which a
        directory at that name does not let happen; or renaming the name away. */
    method PublishConfig(entry: Entry) returns (r: Outcome<()>)
      requires alive
      modifies this
      ensures Onward()
      ensures alive <==> !r.Killed?
      ensures r.Killed? ==> faults > old(faults)
      ensures !r.Ok? ==> faults > old(faults)
                         || (entry != Absent && (edits > old(edits) || old(disk.configFile).Directory?))
      ensures r.Raised? ==> r.error == OsError
      ensures OnlyEntriesDiffer(old(disk), disk) && records == old(records)
      ensures !SandboxReaches(old(disk)) ==> edits == old(edits)
      ensures edits == old(edits) ==>
        && (r.Ok? ==> disk == old(disk).(configFile := entry))
        && disk == (if NextApplies(old(schedule)) && !(entry != Absent && old(disk.configFile).Directory?)
                    then old(disk).(configFile := entry) else old(disk))
        && (entry != Absent && old(disk.configFile).Directory? ==> !r.Ok?)
        && (installs == old(installs) ==> disk == old(disk))
      ensures r.Ok? ==> installs == old(installs) + 1
    {
      var fault := World();
      if entry != Absent && disk.configFile.Directory? {
        return if fault == Proceed then Raised(OsError) else Ending(fault);
      }
      if fault == Proceed || fault.applied {
        disk := disk.(configFile := entry);
        installs := installs + 1;
      }
      r := Ending(fault);
    }

    /** The same for .config-hash. */
    method PublishHash(entry: Entry) returns (r: Outcome<()>)
      requires alive
      modifies this
      ensures Onward()
      ensures alive <==> !r.Killed?
      ensures r.Killed? ==> faults > old(faults)
      ensures !r.Ok? ==> faults > old(faults)
                         || (entry != Absent && (edits > old(edits) || old(disk.hashFile).Directory?))
      ensures r.Raised? ==> r.error == OsError
      ensures OnlyEntriesDiffer(old(disk), disk) && records == old(records)
      ensures !SandboxReaches(old(disk)) ==> edits == old(edits)
      ensures edits == old(edits) ==>
        && (r.Ok? ==> disk == old(disk).(hashFile := entry))
        && disk == (if NextApplies(old(schedule)) && !(entry != Absent && old(disk.hashFile).Directory?)
                    then old(disk).(hashFile := entry) else old(disk))
        && (entry != Absent && old(disk.hashFile).Directory? ==> !r.Ok?)
        && (installs == old(installs) ==> disk == old(disk))
      ensures r.Ok? ==> installs == old(installs) + 1
    {
      var fault := World();
      if entry != Absent && disk.hashFile.Directory? {
        return if fault == Proceed then Raised(OsError) else Ending(fault);
      }
      if fault == Proceed || fault.applied {
        disk := disk.(hashFile := entry);
        installs := installs + 1;
      }
      r := Ending(fault);
    }

    /** Atomic replacement or removal of the root-only record under /etc. */
    method PutSecondary(record: Option<Record>) returns (r: Outcome<()>)
      requires alive
      modifies this
      ensures Onward()
      ensures alive <==> !r.Killed?
      ensures !r.Ok? ==> faults > old(faults)
      ensures r.Raised? ==> r.error == OsError
      ensures HandsOff()
      ensures !SandboxReaches(old(disk)) ==> edits == old(edits)
      ensures disk.parent == old(disk.parent) && disk.config == old(disk.config)
      ensures edits == old(edits) ==> SameEntries(old(disk), disk)
      ensures r.Ok? ==> disk.secondary == record
      ensures disk.secondary == if NextApplies(old(schedule)) then record else old(disk.secondary)
    {
      var fault := World();
      if fault == Proceed || fault.applied {
        disk := disk.(secondary := record);
      }
      r := Ending(fault);
    }

    /** Removal of the reserved in-tree name, by unlinking a file or renaming a directory
        away; or its atomic replacement, which no directory in the way lets happen. */
    method PutPersistent(entry: Reserved) returns (r: Outcome<()>)
      requires alive
      modifies this
      ensures Onward()
      ensures alive <==> !r.Killed?
      ensures r.Killed? ==> faults > old(faults)
      ensures !r.Ok? ==> faults > old(faults)
                         || (entry != Vacant && (edits > old(edits) || IsDirectory(old(disk.persistent))))
      ensures r.Raised? ==> r.error == OsError
      ensures installs == old(installs)
      ensures !SandboxReaches(old(disk)) ==> edits == old(edits)
      ensures OnlyEntriesDiffer(old(disk), disk)
      ensures entry == Vacant ==> records == old(records)
      ensures edits == old(edits) ==>
        disk.configFile == old(disk.configFile) && disk.hashFile == old(disk.hashFile)
      ensures edits == old(edits) && r.Ok? ==> disk.persistent == entry
      ensures edits == old(edits) ==>
        && disk.persistent == (if NextApplies(old(schedule)) && !(entry != Vacant && IsDirectory(old(disk.persistent)))
                               then entry else old(disk.persistent))
        && (entry != Vacant && IsDirectory(old(disk.persistent)) ==> !r.Ok?)
    {
      var fault := World();
      if entry != Vacant && IsDirectory(disk.persistent) {
        return if fault == Proceed then Raised(OsError) else Ending(fault);
      }
      if fault == Proceed || fault.applied {
        disk := disk.(persistent := entry);
        if entry != Vacant {
          records := records + 1;
        }
      }
      r := Ending(fault);
    }
  }
}
