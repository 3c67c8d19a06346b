/** The vocabulary of the OpenClaw config guard: who owns what, what a directory
    entry can be, what a journal record says, and what the durable state is. */
module GuardTypes {
  import opened Basics

  /** Users and groups. Root and sandbox ids are distinct in production; every
      other id is a stranger to the protocol. */
  datatype Principal = Root | Sandbox | Stranger

  /** Owner, group and permission bits of a directory. */
  datatype Posture = Posture(user: Principal, group: Principal, mode: nat)

  // Permission bits, octal in the source.
  const MODE_0000 := 0
  const MODE_0444 := 292
  const MODE_0500 := 320
  const MODE_0555 := 365
  const MODE_0660 := 432
  const MODE_0700 := 448
  const MODE_0755 := 493
  const MODE_0770 := 504
  const MODE_1775 := 1021
  const MODE_2770 := 1528
  const SETGID_BIT := 1024

  predicate IsLowerHex(c: char) {
    '0' <= c <= '9' || 'a' <= c <= 'f'
  }

  /** A SHA-256 digest in the lower-case hexadecimal form the guard stores. */
  type Digest = s: string | |s| == 64 && forall i :: 0 <= i < |s| ==> IsLowerHex(s[i])
    witness seq(64, i => '0')

  const MAX_CONFIG_BYTES := 16 * 1024 * 1024
  const MAX_HASH_BYTES := 64 * 1024

  /** What the journal keeps of a file, and what recovery compares. */
  datatype Image = Image(user: Principal, group: Principal, mode: nat, data: Bytes)

  /** What a name in the config directory can hold. */
  datatype Entry = Absent | Regular(image: Image, links: nat) | Directory | Special

  /** The two protected names, openclaw.json first and .config-hash second. */
  datatype Pair<+T> = Pair(config: T, hash: T)

  datatype WritePhase = Prepared | Applying | Committed

  datatype RestartPhase = SealPrepared | SealApplying | Sealed | Unsealing | UnsealCommitted

  /** A decoded journal record. */
  datatype Record =
    | Write(phase: WritePhase, expected: Digest, digest: Digest,
            originals: Pair<Image>, replacements: Pair<Image>)
    | Restart(restartPhase: RestartPhase, originalLocked: bool, digest: Digest,
              originals: Pair<Image>)

  /** The reserved in-tree journal name. Planted is any entry that fails the
      journal's own trust check: wrong owner, wrong mode, extra link, directory. */
  datatype Reserved =
    | Vacant
    | Journal(record: Record)
    | Planted(user: Principal, group: Principal, directory: bool)

  /** Everything that survives the death of the guard process. */
  datatype Disk = Disk(
    parent: Posture,
    config: Posture,
    configFile: Entry,
    hashFile: Entry,
    secondary: Option<Record>,
    persistent: Reserved)

  /** Facts about the platform that the protocol depends on but does not decide. */
  datatype Facts = Facts(
    sha256: Bytes -> Digest,
    json5Object: Bytes -> bool,
    strictJsonObject: Bytes -> bool,
    chownKeepsSetgid: bool)

  datatype Error = GuardError(code: string) | OsError | HandoffError

  /** How a helper ends: with a value, with an exception, or with the process. */
  datatype Outcome<+T> = Ok(value: T) | Raised(error: Error) | Killed {
    predicate IsFailure() {
      !Ok?
    }

    function PropagateFailure<U>(): Outcome<U>
      requires !Ok?
    {
      if Killed? then Killed else Raised(error)
    }

    function Extract(): T
      requires Ok?
    {
      value
    }
  }

  /** chown of a directory, which on some kernels clears the setgid bit. */
  function Chowned(facts: Facts, p: Posture, user: Principal, group: Principal): Posture {
    var mode := if !facts.chownKeepsSetgid && (p.mode / SETGID_BIT) % 2 == 1
                then p.mode - SETGID_BIT else p.mode;
    Posture(user, group, mode)
  }
}
