/** What the durable state means to the guard: the posture tests, the captures, the
    journal that counts, and the fate that an undisturbed `recover` gives a disk. */
module RecoverySpec {
  import opened Basics
  import opened GuardTypes
  import HashRecord

  // ----- directory postures

  const MUTABLE_PARENT := Posture(Sandbox, Sandbox, MODE_0755)
  const MUTABLE_CONFIG := Posture(Sandbox, Sandbox, MODE_2770)
  const FROZEN_PARENT := Posture(Root, Sandbox, MODE_0755)
  const FROZEN_CONFIG := Posture(Root, Root, MODE_0700)
  const LOCKED_PARENT := Posture(Root, Sandbox, MODE_1775)
  const LOCKED_CONFIG := Posture(Root, Root, MODE_0755)
  const CLAMPED_CONFIG := Posture(Root, Root, MODE_0500)

  predicate IsMutable(d: Disk) {
    d.parent == MUTABLE_PARENT && d.config == MUTABLE_CONFIG
  }

  predicate IsLocked(d: Disk) {
    d.parent == LOCKED_PARENT && d.config == LOCKED_CONFIG
  }

  predicate IsClamped(d: Disk) {
    d.parent == LOCKED_PARENT && d.config == CLAMPED_CONFIG
  }

  predicate IsFrozen(d: Disk) {
    d.parent == FROZEN_PARENT && d.config == FROZEN_CONFIG
  }

  /** The freeze states recovery recognises without a journal; a root-owned parent
      or config directory is mandatory. */
  predicate IsPartial(d: Disk) {
    && !IsMutable(d)
    && (d.parent.user == Root || d.parent.user == Sandbox)
    && d.parent.group == Sandbox
    && (d.parent.mode == MODE_0555 || d.parent.mode == MODE_0755)
    && ((d.config.user == Root && d.config.group == Root
         && (d.config.mode == MODE_0000 || d.config.mode == MODE_0500
             || d.config.mode == MODE_0700 || d.config.mode == MODE_0770))
        || (d.config.user == Sandbox && d.config.group == Sandbox
            && (d.config.mode == MODE_0000 || d.config.mode == MODE_0500
                || d.config.mode == MODE_0770 || d.config.mode == MODE_2770)))
    && (d.parent.user == Root || d.config.user == Root)
  }

  /** Sandbox code can edit entries of a directory it owns. */
  predicate SandboxReaches(d: Disk) {
    d.config.user == Sandbox
  }

  /** Root owns the config directory and no mode bit lets the sandbox write to it. */
  predicate IsClosed(d: Disk) {
    d.config.user == Root && d.config.group == Root
    && (d.config.mode == MODE_0500 || d.config.mode == MODE_0700 || d.config.mode == MODE_0755)
  }

  // ----- file captures

  function Captured(e: Entry, maximum: nat): Option<Image> {
    if e.Regular? && e.links == 1 && |e.image.data| <= maximum then Some(e.image) else None
  }

  /** The pair a raw capture returns, when both names hold bounded regular files. */
  function RawPair(d: Disk): Option<Pair<Image>> {
    var c := Captured(d.configFile, MAX_CONFIG_BYTES);
    var h := Captured(d.hashFile, MAX_HASH_BYTES);
    if c.Some? && h.Some? then Some(Pair(c.value, h.value)) else None
  }

  /** Both names hold regular files with no other name, of at most 16 MiB and 64 KiB. */
  lemma RawPairIff(d: Disk, p: Pair<Image>)
    ensures RawPair(d) == Some(p) <==>
      && d.configFile == Regular(p.config, 1) && |p.config.data| <= 16777216
      && d.hashFile == Regular(p.hash, 1) && |p.hash.data| <= 65536
  {
  }

  predicate Bounded(p: Pair<Image>) {
    |p.config.data| <= MAX_CONFIG_BYTES && |p.hash.data| <= MAX_HASH_BYTES
  }

  predicate MutableImage(i: Image) {
    i.user == Sandbox && i.group == Sandbox && i.mode == MODE_0660
  }

  predicate MutableFiles(p: Pair<Image>) {
    MutableImage(p.config) && MutableImage(p.hash)
  }

  predicate LockedImage(i: Image) {
    i.user == Root && i.group == Root && i.mode == MODE_0444
  }

  predicate LockedFiles(p: Pair<Image>) {
    LockedImage(p.config) && LockedImage(p.hash)
  }

  /** The strict capture additionally demands a matching hash record. */
  predicate Coherent(facts: Facts, p: Pair<Image>) {
    HashRecord.Matches(facts, p.config.data, p.hash.data)
  }

  predicate Holds(d: Disk, p: Pair<Image>) {
    d.configFile == Regular(p.config, 1) && d.hashFile == Regular(p.hash, 1)
  }

  /** The same config bytes with a fresh record, owned for the requested posture. */
  function Canonical(facts: Facts, config: Bytes, locked: bool): Pair<Image> {
    var record := HashRecord.RecordFor(facts.sha256(config));
    if locked then Pair(Image(Root, Root, MODE_0444, config), Image(Root, Root, MODE_0444, record))
    else Pair(Image(Sandbox, Sandbox, MODE_0660, config), Image(Sandbox, Sandbox, MODE_0660, record))
  }

  lemma CanonicalIsCoherent(facts: Facts, config: Bytes, locked: bool)
    ensures Coherent(facts, Canonical(facts, config, locked))
    ensures |config| <= MAX_CONFIG_BYTES ==> Bounded(Canonical(facts, config, locked))
  {
    HashRecord.RecordForMatches(facts, config, facts.sha256(config));
  }

  // ----- journal records

  /** The checks made when a write-config record is decoded. */
  predicate DecodesWrite(facts: Facts, r: Record) {
    && r.Write?
    && facts.sha256(r.replacements.config.data) == r.digest
    && r.replacements.hash.data == HashRecord.RecordFor(r.digest)
    && Bounded(r.originals) && Bounded(r.replacements)
  }

  /** Recovery additionally demands the mutable posture of all four images. */
  predicate ValidWrite(facts: Facts, r: Record) {
    DecodesWrite(facts, r) && MutableFiles(r.originals) && MutableFiles(r.replacements)
  }

  /** The checks recovery makes on a restart-seal record. */
  predicate ValidRestart(facts: Facts, r: Record) {
    && r.Restart?
    && facts.sha256(r.originals.config.data) == r.digest
    && facts.json5Object(r.originals.config.data)
    && Bounded(r.originals)
    && (if r.originalLocked then LockedFiles(r.originals) else MutableFiles(r.originals))
  }

  /** What reading both journals yields. */
  datatype Pending =
    | NoJournal
    | Authoritative(record: Record)
    | Replayed            // an in-tree record with no peer in /etc, in an exposed tree
    | Untrusted           // an in-tree entry that is not a journal at all

  function ReadJournal(d: Disk): Pending {
    var exposed := IsMutable(d) || IsPartial(d);
    match d.persistent
    case Vacant => if d.secondary.Some? then Authoritative(d.secondary.value) else NoJournal
    case Planted(_, _, _) =>
      if exposed && d.secondary.Some? then Authoritative(d.secondary.value) else Untrusted
    case Journal(r) =>
      if !exposed then Authoritative(r)
      else if d.secondary.None? then Replayed
      else if r != d.secondary.value then Authoritative(d.secondary.value)
      else Authoritative(r)
  }

  /** An in-tree entry the sandbox may have left in an exposed tree. */
  predicate Disposable(r: Reserved) {
    r.Planted? && ((r.user == Sandbox && r.group == Sandbox)
                   || (r.directory && r.user == Root && r.group == Root))
  }

  /** An entry quarantine agrees to move: owned by the sandbox or by root. */
  predicate Quarantinable(r: Reserved) {
    r.Planted? ==> (r.user == Sandbox && r.group == Sandbox) || (r.user == Root && r.group == Root)
  }

  // ----- the fate of a disk

  /** HandedBack: the sandbox owns exactly this pair and no journal is left.
      LeftLocked: the tree is sealed over this pair and no journal is left.
      AsIs: recovery reports success and changes nothing.
      Refused: recovery reports an error. */
  datatype Fate = HandedBack(pair: Pair<Image>) | LeftLocked(pair: Pair<Image>) | AsIs | Refused

  function HandedBackDisk(p: Pair<Image>): Disk {
    Disk(MUTABLE_PARENT, MUTABLE_CONFIG, Regular(p.config, 1), Regular(p.hash, 1), None, Vacant)
  }

  function LockedDisk(p: Pair<Image>): Disk {
    Disk(LOCKED_PARENT, LOCKED_CONFIG, Regular(p.config, 1), Regular(p.hash, 1), None, Vacant)
  }

  /** Keep whatever mutable pair is visible, or refuse. */
  function KeepVisible(d: Disk): Fate {
    var p := RawPair(d);
    if p.Some? && MutableFiles(p.value) then HandedBack(p.value) else Refused
  }

  /** Overwrite a capturable pair with the given one, or refuse. */
  function Install(d: Disk, p: Pair<Image>): Fate {
    if RawPair(d).Some? then HandedBack(p) else Refused
  }

  function KeepLocked(facts: Facts, d: Disk): Fate {
    var p := RawPair(d);
    if p.Some? && Coherent(facts, p.value) && LockedFiles(p.value) && IsLocked(d)
    then LeftLocked(p.value) else Refused
  }

  function WriteFate(facts: Facts, d: Disk, r: Record): Fate
    requires r.Write?
  {
    if !ValidWrite(facts, r) then Refused
    else if r.phase == Prepared || (r.phase == Committed && IsMutable(d)) then KeepVisible(d)
    else Install(d, if r.phase == Committed then r.replacements else r.originals)
  }

  function RestartFate(facts: Facts, d: Disk, r: Record): Fate
    requires r.Restart?
  {
    if !ValidRestart(facts, r) then Refused
    else if r.originalLocked then KeepLocked(facts, d)
    else if r.restartPhase == SealPrepared || (r.restartPhase == UnsealCommitted && IsMutable(d)) then
      if !(IsMutable(d) || IsPartial(d)) then Refused
      else
        var p := RawPair(d);
        if p.Some? && facts.json5Object(p.value.config.data) then KeepVisible(d) else Refused
    else Install(d, Canonical(facts, r.originals.config.data, false))
  }

  function UnjournaledFate(facts: Facts, d: Disk): Fate {
    var p := RawPair(d);
    if IsLocked(d) then KeepLocked(facts, d)
    else if IsClamped(d) then
      if p.Some? && Coherent(facts, p.value) && LockedFiles(p.value) then AsIs else Refused
    else if IsPartial(d) then
      if p.None? then Refused
      else if MutableFiles(p.value) then HandedBack(p.value)
      else LeftLocked(Canonical(facts, p.value.config.data, true))
    else if IsMutable(d) && KeepVisible(d).HandedBack? then KeepVisible(d)
    else AsIs
  }

  /** An exposed tree whose reserved name holds something without authority. */
  function UntrustedFate(facts: Facts, d: Disk, pending: Pending): Fate {
    var config := Captured(d.configFile, MAX_CONFIG_BYTES);
    if d.secondary.Some? then Refused
    else if IsMutable(d) && (pending.Replayed? || Disposable(d.persistent)) then KeepVisible(d)
    else if IsPartial(d) && pending.Replayed? && config.Some? then
      LeftLocked(Canonical(facts, config.value.data, true))
    else Refused
  }

  /** What `recover`, run to completion without disturbance, makes of a disk. */
  function FateOf(facts: Facts, d: Disk): Fate {
    var pending := ReadJournal(d);
    match pending
    case NoJournal => UnjournaledFate(facts, d)
    case Authoritative(r) => if r.Write? then WriteFate(facts, d, r) else RestartFate(facts, d, r)
    case Replayed => UntrustedFate(facts, d, pending)
    case Untrusted => UntrustedFate(facts, d, pending)
  }

  // ----- the disk that recovery leaves

  /** Recovery of this record freezes the tree before it looks at the files. */
  predicate Freezes(d: Disk, r: Record) {
    if r.Write? then !(r.phase == Committed && IsMutable(d))
    else !r.originalLocked && r.restartPhase != SealPrepared
         && !(r.restartPhase == UnsealCommitted && IsMutable(d))
  }

  /** A record that recovery accepts before it touches the tree. */
  predicate Accepts(facts: Facts, r: Record) {
    if r.Write? then ValidWrite(facts, r) else ValidRestart(facts, r)
  }

  /** Root has taken both directories, the entries are as they were. */
  function Frozen(d: Disk): Disk {
    d.(parent := FROZEN_PARENT, config := FROZEN_CONFIG)
  }

  /** Locked, with neither protected file on its name. */
  const SEVERED_DISK := Disk(LOCKED_PARENT, LOCKED_CONFIG, Absent, Absent, None, Vacant)

  /** What a refused run leaves: the tree as it was, or as far as it had come. */
  function RefusedDisk(facts: Facts, d: Disk): Disk {
    match ReadJournal(d)
    case Authoritative(r) => if Accepts(facts, r) && Freezes(d, r) then Frozen(d) else d
    case Replayed => if IsMutable(d) then Frozen(d).(persistent := Vacant) else SEVERED_DISK
    case NoJournal => d
    case Untrusted => d
  }

  /** The disk that an undisturbed `recover` leaves, whether it reports success or an error. */
  function FinalDisk(facts: Facts, d: Disk): Disk {
    match FateOf(facts, d)
    case HandedBack(p) => HandedBackDisk(p)
    case LeftLocked(p) => LockedDisk(p)
    case AsIs => d
    case Refused => RefusedDisk(facts, d)
  }
}
