/** What owners and mode bits let a user do with an entry of the state tree, and what that
    has to be once the tree is locked or unlocked. */
module Permissions {
  import opened StateTree

  datatype Access = Read | Write | Enter

  function Bit(a: Access): bv12 {
    match a
    case Read => 4
    case Write => 2
    case Enter => 1
  }

  /** The kernel's check: the bits of the owner, of the group, or of everybody else count,
      whichever comes first. */
  predicate Granted(owner: Owner, mode: bv12, who: Owner, a: Access) {
    if who.uid == owner.uid then mode & (Bit(a) << 6) != 0
    else if who.gid == owner.gid then mode & (Bit(a) << 3) != 0
    else mode & Bit(a) != 0
  }

  predicate Owns(n: Node, who: Owner) {
    (n.Dir? || n.File? || n.Link?) && n.owner.uid == who.uid
  }

  predicate Allowed(n: Node, who: Owner, a: Access) {
    (n.Dir? || n.File?) && Granted(n.owner, n.mode, who, a)
  }

  /** An owner can give himself any permission. */
  predicate MayWrite(n: Node, who: Owner) {
    Owns(n, who) || Allowed(n, who, Write)
  }

  predicate MayRead(n: Node, who: Owner) {
    Owns(n, who) || Allowed(n, who, Read) || (n.Dir? && Allowed(n, who, Enter))
  }

  predicate IsConfidential(q: Path) {
    q != [] && (q[0] == "credentials" || q[0] == "identity" || q[0] == "pairing")
  }

  predicate IsHighRisk(q: Path) {
    q != [] &&
    (q[0] in {"agent", "agents", "canvas", "cron", "devices", "extensions", "hooks", "memory", "platforms",
              "plugins", "profiles", "skills", "skins", "telegram", "wechat", "weixin", "whatsapp", "workspace"}
     || (|q[0]| >= 10 && q[0][..10] == "workspace-"))
  }

  /** agents/<id>/sessions or below. */
  predicate InSessions(q: Path) {
    |q| >= 3 && q[0] == "agents" && q[1] != "" && q[1] != "." && q[1] != ".." && q[2] == "sessions"
  }

  /** A name of its own for the inode: no other name in the tree, none outside. */
  ghost predicate Alone(t: Tree, external: set<nat>, q: Path)
    requires q in t && HasInode(t[q])
  {
    t[q].ino !in external && forall x :: x in t && HasInode(t[x]) && t[x].ino == t[q].ino ==> x == q
  }

  /** The user can write nothing that is protected, and read nothing that is confidential; that
      is not even his group's. He keeps his group's way into the rest. No file has set-id or
      sticky bits, none another name, and no directory lies deeper than 256 levels. */
  ghost predicate ShutAt(t: Tree, external: set<nat>, who: Owner, q: Path)
    requires q in t
  {
    && !MayWrite(t[q], who) && (t[q].Dir? || t[q].File? || t[q].Link?)
    && (IsConfidential(q) ==> !MayRead(t[q], who) && t[q].owner.gid != who.gid)
    && (IsHighRisk(q) ==> t[q].owner.gid == who.gid)
    && (IsHighRisk(q) && t[q].Dir? ==> Allowed(t[q], who, Read) && Allowed(t[q], who, Enter))
    && (t[q].File? ==> t[q].mode & 0xE00 == 0) && (HasInode(t[q]) ==> Alone(t, external, q))
    && (t[q].Dir? ==> |q| <= 256)
  }

  ghost predicate ShutTo(t: Tree, external: set<nat>, who: Owner) {
    forall q :: q in t && (IsHighRisk(q) || IsConfidential(q)) && !InSessions(q) ==> ShutAt(t, external, who, q)
  }

  /** Every agent directory has its sessions entry, and a sessions directory is the user's. */
  ghost predicate SessionsOpenTo(t: Tree, who: Owner) {
    forall id :: ["agents", id] in t && t[["agents", id]].Dir? && id != "" && id != "." && id != ".." ==>
      var s := ["agents", id, "sessions"];
      && s in t && (t[s].Dir? || t[s].File?)
      && (t[s].Dir? ==> Owns(t[s], who) && forall a :: Allowed(t[s], who, a))
  }

  /** The user owns every protected entry, and has every directory to himself; no file or link
      there has another name. */
  ghost predicate OpenAt(t: Tree, external: set<nat>, who: Owner, q: Path)
    requires q in t
  {
    && Owns(t[q], who) && t[q].owner.gid == who.gid && (t[q].Dir? ==> forall a :: Allowed(t[q], who, a))
    && (t[q].File? ==> t[q].mode & 0xE00 == 0) && (HasInode(t[q]) ==> Alone(t, external, q))
    && (t[q].Dir? && !InSessions(q) ==> |q| <= 256)
  }

  ghost predicate OpenTo(t: Tree, external: set<nat>, who: Owner) {
    forall q :: q in t && (IsHighRisk(q) || IsConfidential(q)) && !(InSessions(q) && |q| > 3) ==>
      OpenAt(t, external, who, q)
  }

  predicate DistinctIds(id: Identity) {
    id.root.uid != id.sandbox.uid && id.root.gid != id.sandbox.gid
  }
}
