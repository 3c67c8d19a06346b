/** The tree the state-directory guard works on: one map from paths, relative to the config
    directory, to what is there. */
module StateTree {
  import opened Basics

  /** Components below the config directory; the empty path is the config directory itself. */
  type Path = seq<string>

  /** Owner, group and permission bits. */
  datatype Owner = Owner(uid: nat, gid: nat)

  /** Inode numbers are shared by all names of one object; a directory has one name. Foreign
      is anything on another file system, whatever its kind. */
  datatype Node =
    | Dir(owner: Owner, mode: bv12)
    | File(ino: nat, owner: Owner, mode: bv12, data: Bytes)
    | Link(ino: nat, owner: Owner, target: string)
    | Special(ino: nat)
    | Foreign

  type Tree = map<Path, Node>

  datatype Identity = Identity(root: Owner, sandbox: Owner)

  datatype Policy = HighRisk | Confidentiality

  /** What stays fixed during one run: where the config directory is, which of its children
      are protected and how, and which inodes have further names outside the config directory. */
  datatype Context = Context(configPath: Path, roots: map<string, Policy>, external: set<nat>, identity: Identity)

  predicate IsDir(t: Tree, p: Path) {
    p in t && t[p].Dir?
  }

  predicate HasInode(n: Node) {
    n.File? || n.Link? || n.Special?
  }

  function Parent(p: Path): Path
    requires p != []
  {
    p[..|p| - 1]
  }

  /** Every entry sits in a directory. */
  predicate WellFormed(t: Tree) {
    IsDir(t, []) && forall p :: p in t && p != [] ==> IsDir(t, Parent(p))
  }

  /** st_nlink == 1: the inode at p has no other name, inside or outside. */
  predicate Sole(ctx: Context, t: Tree, p: Path)
    requires p in t && HasInode(t[p])
  {
    && t[p].ino !in ctx.external
    && forall q :: q in t && q != p && HasInode(t[q]) ==> t[q].ino != t[p].ino
  }

  predicate Protected(ctx: Context, p: Path) {
    p != [] && p[0] in ctx.roots
  }

  /** agents/<id>/sessions, the writable carve-out, and everything below it. */
  predicate UnderCarveout(p: Path) {
    |p| >= 3 && p[0] == "agents" && p[1] != "" && p[1] != "." && p[1] != ".." && p[2] == "sessions"
  }

  predicate IsCarveout(p: Path) {
    |p| == 3 && UnderCarveout(p)
  }

  predicate IsCarveoutParent(p: Path) {
    |p| == 2 && p[0] == "agents" && p[1] != "" && p[1] != "." && p[1] != ".."
  }

  lemma CarveoutIsMonotone(p: Path, q: Path)
    requires UnderCarveout(p)
    ensures UnderCarveout(p + q)
  {
  }

  function Inodes(t: Tree): set<nat> {
    set p | p in t && HasInode(t[p]) :: t[p].ino
  }
}
