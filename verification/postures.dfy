/** What the postures of the config guard mean: which owners and mode bits let the sandbox
    read, write, or put another entry in place of one. */
module Postures {
  import opened GuardTypes
  import opened RecoverySpec

  predicate HasBit(mode: nat, bit: nat)
    requires bit > 0
  {
    mode / bit % 2 == 1
  }

  /** The kernel's check for the sandbox: 4 to read, 2 to write, 1 to enter or execute. */
  predicate Granted(user: Principal, group: Principal, mode: nat, want: nat)
    requires want > 0
  {
    if user == Sandbox then HasBit(mode, want * 64)
    else if group == Sandbox then HasBit(mode, want * 8)
    else HasBit(mode, want)
  }

  /** An owner can give himself any permission. */
  predicate Controls(user: Principal, group: Principal, mode: nat) {
    user == Sandbox || Granted(user, group, mode, 2)
  }

  predicate MayCreateIn(dir: Posture) {
    dir.user == Sandbox || (Granted(dir.user, dir.group, dir.mode, 2) && Granted(dir.user, dir.group, dir.mode, 1))
  }

  /** Renaming or removing needs more in a sticky directory: to own it or the entry. */
  predicate MayReplaceIn(dir: Posture, owner: Principal) {
    MayCreateIn(dir) && (dir.user == Sandbox || (HasBit(dir.mode, 512) ==> owner == Sandbox))
  }

  predicate MayEnter(dir: Posture) {
    dir.user == Sandbox || Granted(dir.user, dir.group, dir.mode, 1)
  }

  /** Neither file can be written, nor replaced, nor the directory they are in. */
  predicate OutOfReach(d: Disk) {
    && !MayReplaceIn(d.parent, d.config.user) && !MayCreateIn(d.config)
    && (d.configFile.Regular? ==>
          !Controls(d.configFile.image.user, d.configFile.image.group, d.configFile.image.mode))
    && (d.hashFile.Regular? ==>
          !Controls(d.hashFile.image.user, d.hashFile.image.group, d.hashFile.image.mode))
  }

  /** The sandbox can do all that, and read and write both files as they are. */
  predicate InReach(d: Disk) {
    && MayReplaceIn(d.parent, d.config.user) && MayCreateIn(d.config) && MayEnter(d.config)
    && d.configFile.Regular? && Usable(d.configFile.image) && d.hashFile.Regular? && Usable(d.hashFile.image)
  }

  predicate Usable(i: Image) {
    i.user == Sandbox && Granted(i.user, i.group, i.mode, 4) && Granted(i.user, i.group, i.mode, 2)
  }

  /** A closed config directory, on the bits: nobody but root can change an entry. */
  lemma ClosedOnTheBits(d: Disk)
    requires IsClosed(d)
    ensures !MayCreateIn(d.config) && forall owner :: !MayReplaceIn(d.config, owner)
    ensures !SandboxReaches(d)
  {
  }

  /** A sealed tree: out of the sandbox's reach, though it may enter and read, and may add other
      names beside the config directory. */
  lemma SealedOnTheBits(d: Disk, p: Pair<Image>)
    requires IsLocked(d) && Holds(d, p) && LockedFiles(p)
    ensures OutOfReach(d) && MayEnter(d.config) && MayCreateIn(d.parent)
    ensures Granted(p.config.user, p.config.group, p.config.mode, 4)
    ensures Granted(p.hash.user, p.hash.group, p.hash.mode, 4)
    ensures p.config.user == p.config.group == p.hash.user == p.hash.group == Root
    // Outsiders may pass through both directories and change neither.
    ensures HasBit(d.parent.mode, 1) && HasBit(d.config.mode, 1)
    ensures !HasBit(d.parent.mode, 2) && !HasBit(d.config.mode, 2)
  {
  }

  /** The same for a clamped one, which nobody but root may enter. */
  lemma ClampedOnTheBits(d: Disk, p: Pair<Image>)
    requires IsClamped(d) && Holds(d, p) && LockedFiles(p)
    ensures OutOfReach(d) && !MayEnter(d.config)
  {
  }

  /** A frozen tree cannot even be entered, nor the directory be moved away. */
  lemma FrozenOnTheBits(d: Disk)
    requires IsFrozen(d)
    ensures !MayEnter(d.config) && !MayCreateIn(d.config) && !MayReplaceIn(d.parent, d.config.user)
  {
  }

  /** A tree handed back is the sandbox's again. */
  lemma HandedBackOnTheBits(p: Pair<Image>)
    requires MutableFiles(p)
    ensures InReach(HandedBackDisk(p)) && SandboxReaches(HandedBackDisk(p))
    ensures p.config.user == p.config.group == p.hash.user == p.hash.group == Sandbox
  {
  }

  /** In every posture the guard recognises or sets, the sandbox of the model edits entries
      exactly where owners and bits let it. */
  lemma ReachOnTheBits(d: Disk)
    requires IsMutable(d) || IsPartial(d) || IsFrozen(d) || IsLocked(d) || IsClamped(d) || IsClosed(d)
    ensures SandboxReaches(d) <==> MayCreateIn(d.config)
  {
  }

  /** A half-frozen posture is never one that the sandbox has to itself, nor one that an
      outsider can change, and no other posture is taken for it. */
  lemma PartialOnTheBits(d: Disk)
    requires IsPartial(d)
    ensures d.parent.user == Root || d.config.user == Root
    ensures d.parent.user != Stranger && d.config.user != Stranger
    ensures !HasBit(d.parent.mode, 2) && !HasBit(d.config.mode, 2) && !HasBit(d.parent.mode, 16)
    ensures !IsMutable(d) && !IsLocked(d) && !IsClamped(d)
  {
  }
}
