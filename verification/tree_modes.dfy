/** The metadata contract of the state tree: what each policy expects of owners and mode
    bits, locked and unlocked, and how the two transitions compose. */
module TreeModes {
  import opened StateTree

  datatype Action = Lock | Unlock

  const MODE_0111: bv12 := 0x049
  const MODE_0700: bv12 := 0x1C0
  const MODE_0777: bv12 := 0x1FF
  const MODE_0755: bv12 := 0x1ED
  const MODE_0555: bv12 := 0x16D
  const MODE_0500: bv12 := 0x140
  const MODE_0022: bv12 := 0x012
  const MODE_0060: bv12 := 0x030
  const MODE_0010: bv12 := 0x008
  const MODE_0077: bv12 := 0x03F
  const MODE_0007: bv12 := 0x007
  const MODE_7000: bv12 := 0xE00
  const MODE_2770: bv12 := 0x5F8

  function ExpectedOwner(id: Identity, policy: Policy, action: Action): Owner {
    if action == Unlock then id.sandbox
    else if policy == Confidentiality then id.root
    else Owner(id.root.uid, id.sandbox.gid)
  }

  function ExpectedDirMode(policy: Policy, action: Action): bv12 {
    if action == Unlock then MODE_2770 else if policy == Confidentiality then MODE_0700 else MODE_0755
  }

  function ExpectedFileMode(policy: Policy, action: Action, oldMode: bv12): bv12 {
    var m := oldMode & MODE_0777;
    if action == Unlock then (m & MODE_0700) | MODE_0060 | (if m & MODE_0111 != 0 then MODE_0010 else 0)
    else if policy == Confidentiality then m & MODE_0700
    else m & !MODE_0022
  }

  /** What verification demands of a regular file's mode. */
  predicate FileModeOk(policy: Policy, action: Action, mode: bv12) {
    && mode & MODE_7000 == 0
    && (if action == Unlock then mode & MODE_0007 == 0 && mode & MODE_0060 == MODE_0060
        else if policy == Confidentiality then mode & MODE_0077 == 0
        else mode & MODE_0022 == 0)
  }

  function OwnerBits(mode: bv12): bv12 {
    mode & MODE_0700
  }

  /** Every transition sets a mode its own verification accepts, and keeps the owner's bits. */
  lemma TransitionMeetsVerification(policy: Policy, action: Action, mode: bv12)
    ensures FileModeOk(policy, action, ExpectedFileMode(policy, action, mode))
    ensures OwnerBits(ExpectedFileMode(policy, action, mode)) == OwnerBits(mode)
  {
  }

  /** What a transition does to each permission bit of a file, in octal 0400 for the owner to 0001
      for others. Locking takes the write bits of group and others, or under a confidentiality
      root all of theirs. Unlocking gives the group read and write, and execute if anybody had
      it, and takes all from others. No set-id or sticky bit survives, and the owner keeps his. */
  lemma TransitionOnTheBits(policy: Policy, mode: bv12)
    ensures ExpectedFileMode(HighRisk, Lock, mode) == mode & 0x1ED
    ensures ExpectedFileMode(Confidentiality, Lock, mode) == mode & 0x1C0
    ensures ExpectedFileMode(policy, Unlock, mode)
            == (mode & 0x1C0) | 0x030 | (if mode & 0x040 != 0 || mode & 0x008 != 0 || mode & 0x001 != 0
                                         then 0x008 else 0x000)
  {
  }

  function Unlocked(policy: Policy, mode: bv12): bv12 {
    ExpectedFileMode(policy, Unlock, mode)
  }

  function Relocked(policy: Policy, mode: bv12): bv12 {
    ExpectedFileMode(policy, Lock, mode)
  }

  /** Lock and unlock again gives the modes of the first unlock, for every file under a
      high-risk root. Under a confidentiality root it does so exactly for the files whose
      owner could execute them if anybody could: lock drops the group's execute bit. */
  lemma UnlockLockUnlock(policy: Policy, mode: bv12)
    ensures Unlocked(policy, Relocked(policy, Unlocked(policy, mode))) == Unlocked(policy, mode) <==>
            policy == HighRisk || mode & MODE_0111 == 0 || mode & 0x040 != 0
  {
  }
}
