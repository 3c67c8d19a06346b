/** Single changes to the tree, and the contract the two traversals check: what each step
    keeps, and which entries are right for an action. */
module TreeSteps {
  import opened StateTree
  import opened LinkResolution
  import opened TreeModes

  // ----- relations between two trees

  /** Inside a carve-out nothing is demanded, and nothing touched. */
  predicate InsideCarveout(q: Path) {
    |q| > 3 && UnderCarveout(q)
  }

  /** Everything outside the subtree at p is the same. */
  ghost predicate OnlyUnder(t: Tree, u: Tree, p: Path) {
    forall q :: !(p <= q) ==> (q in t <==> q in u) && (q in t ==> u[q] == t[q])
  }

  /** Directories stay, regular files keep their path, bytes and owner bits, links keep their
      target or go, special entries stay what they are or go, and whatever is new is a
      carve-out directory. */
  ghost predicate Preserves(t: Tree, u: Tree) {
    && (forall q :: IsDir(t, q) ==> IsDir(u, q))
    && (forall q :: q in t && t[q].File? ==>
          q in u && u[q].File? && u[q].data == t[q].data && OwnerBits(u[q].mode) == OwnerBits(t[q].mode))
    && (forall q :: q in t && t[q].Link? && q in u ==>
          (u[q].Link? && u[q].target == t[q].target) || (IsCarveout(q) && IsDir(u, q)))
    && (forall q :: q in t && t[q].Special? && q in u ==> u[q] == t[q] || (IsCarveout(q) && IsDir(u, q)))
    && (forall q :: q in t && t[q].Foreign? ==> q in u && u[q].Foreign?)
    && (forall q :: q in u && q !in t ==> IsCarveout(q) && IsDir(u, q))
    && (forall q :: InsideCarveout(q) ==> (q in t <==> q in u) && (q in t ==> u[q] == t[q]))
  }

  lemma PreservesIsTransitive(t: Tree, u: Tree, v: Tree)
    requires Preserves(t, u) && Preserves(u, v)
    ensures Preserves(t, v)
  {
    hide IsCarveout, OwnerBits;
  }

  lemma OnlyUnderIsTransitive(t: Tree, u: Tree, v: Tree, p: Path, q: Path)
    requires OnlyUnder(t, u, p) && OnlyUnder(u, v, q) && p <= q
    ensures OnlyUnder(t, v, p)
  {
  }

  /** One stage of a traversal that has only touched the subtree at p. */
  ghost predicate Stage(ctx: Context, t: Tree, u: Tree, p: Path) {
    OnlyUnder(t, u, p) && Hardens(ctx, t, u) && Preserves(t, u) && WellFormed(u)
  }

  // ----- what an entry must look like afterwards

  /** The node at q is what verification of this action accepts. */
  predicate NodeOk(ctx: Context, action: Action, t: Tree, q: Path)
    requires q in t && Protected(ctx, q)
  {
    var policy := ctx.roots[q[0]];
    if InsideCarveout(q) then true
    else
      match t[q]
      case Dir(owner, mode) =>
        var expected := if IsCarveout(q) then Unlock else action;
        owner == ExpectedOwner(ctx.identity, policy, expected) && mode == ExpectedDirMode(policy, expected)
      case File(_, owner, mode, _) =>
        Sole(ctx, t, q) && owner == ExpectedOwner(ctx.identity, policy, action) && FileModeOk(policy, action, mode)
      case Link(_, owner, _) =>
        owner == ExpectedOwner(ctx.identity, policy, action) && IsAccepted(ctx, t, q)
      case Special(_) => false
      case Foreign => false
  }

  /** An agent directory has its sessions entry, a directory or else a locked file. */
  predicate HasSessions(t: Tree, p: Path) {
    var s := p + ["sessions"];
    s in t && (t[s].Dir? || t[s].File?)
  }

  /** The node at q is right, and a locked agent directory has its sessions entry. */
  predicate NodeDone(ctx: Context, action: Action, t: Tree, q: Path)
    requires q in t && Protected(ctx, q)
  {
    NodeOk(ctx, action, t, q) && (action == Lock && t[q].Dir? && IsCarveoutParent(q) ==> HasSessions(t, q))
  }

  ghost predicate AllOk(ctx: Context, action: Action, t: Tree, p: Path)
    requires Protected(ctx, p)
  {
    forall q :: q in t && p <= q ==> NodeDone(ctx, action, t, q)
  }

  /** Each regular file of t below p, carve-outs aside, has the mode the action gives it; locking
      put another inode in its place, unlocking did not. */
  ghost predicate Reset(ctx: Context, action: Action, t: Tree, u: Tree, p: Path)
    requires Protected(ctx, p)
  {
    forall q :: q in t && p <= q ==> ModeReset(ctx, action, t, u, q)
  }

  predicate ModeReset(ctx: Context, action: Action, t: Tree, u: Tree, q: Path)
    requires q in t && Protected(ctx, q)
  {
    t[q].File? && !InsideCarveout(q) ==>
      && q in u && u[q].File? && u[q].mode == ExpectedFileMode(ctx.roots[q[0]], action, t[q].mode)
      && (u[q].ino == t[q].ino <==> action == Unlock)
  }

  const MAX_TRAVERSAL_DEPTH := 256

  /** The node at q is nothing preflight of this action objects to. */
  predicate NodeClean(ctx: Context, action: Action, t: Tree, q: Path)
    requires q in t && q != []
  {
    InsideCarveout(q) ||
    match t[q]
    case Dir(_, _) => IsCarveout(q) || |q| <= MAX_TRAVERSAL_DEPTH
    case File(_, _, _, _) => action == Unlock ==> Sole(ctx, t, q)
    case Link(_, _, _) => action == Unlock ==> IsAccepted(ctx, t, q)
    case Special(_) => action == Lock
    case Foreign => false
  }

  ghost predicate Clean(ctx: Context, action: Action, t: Tree, p: Path)
    requires p != []
  {
    forall q :: q in t && p <= q ==> NodeClean(ctx, action, t, q)
  }

  // ----- later steps elsewhere keep what earlier steps achieved

  lemma NodeOkStays(ctx: Context, action: Action, t: Tree, u: Tree, q: Path)
    requires q in t && Protected(ctx, q) && NodeOk(ctx, action, t, q)
    requires Hardens(ctx, t, u) && q in u && u[q] == t[q]
    ensures NodeOk(ctx, action, u, q)
  {
    if t[q].Link? && !InsideCarveout(q) {
      AcceptedStaysAccepted(ctx, t, u, q);
    }
  }

  lemma NodeDoneStays(ctx: Context, action: Action, t: Tree, u: Tree, q: Path)
    requires q in t && Protected(ctx, q) && NodeDone(ctx, action, t, q)
    requires Hardens(ctx, t, u) && Preserves(t, u) && q in u && u[q] == t[q]
    ensures NodeDone(ctx, action, u, q)
  {
    hide NodeOk, Hardens, OwnerBits;
    NodeOkStays(ctx, action, t, u, q);
    if action == Lock && t[q].Dir? && IsCarveoutParent(q) {
      assert IsDir(t, q + ["sessions"]) ==> IsDir(u, q + ["sessions"]);
    }
  }

  /** A link or a special entry at the name of a carve-out is never right. */
  lemma SessionsAreThere(ctx: Context, t: Tree, p: Path)
    requires IsCarveoutParent(p) && p + ["sessions"] in t && Protected(ctx, p + ["sessions"])
    requires NodeOk(ctx, Lock, t, p + ["sessions"])
    ensures HasSessions(t, p)
  {
    hide Walk, Normalize;
    var s := p + ["sessions"];
    assert UnderCarveout(s) && !InsideCarveout(s);
  }

  lemma NodeCleanStays(ctx: Context, action: Action, t: Tree, u: Tree, q: Path)
    requires q in t && q != [] && NodeClean(ctx, action, t, q)
    requires Hardens(ctx, t, u) && q in u && u[q] == t[q]
    ensures NodeClean(ctx, action, u, q)
  {
    if action == Unlock && t[q].Link? && !InsideCarveout(q) {
      AcceptedStaysAccepted(ctx, t, u, q);
    }
  }

  lemma StageIsTransitive(ctx: Context, t: Tree, u: Tree, v: Tree, p: Path, q: Path)
    requires Stage(ctx, t, u, p) && Stage(ctx, u, v, q) && p <= q
    ensures Stage(ctx, t, v, p)
  {
    hide OnlyUnder, Hardens, Preserves, WellFormed;
    OnlyUnderIsTransitive(t, u, v, p, q);
    PreservesIsTransitive(t, u, v);
    HardensIsTransitive(ctx, t, u, v);
  }

  lemma StageIsReflexive(ctx: Context, t: Tree, p: Path)
    requires WellFormed(t)
    ensures Stage(ctx, t, t, p)
  {
    hide Resolve, IsPeerLink;
  }

  // ----- the single steps

  /** Only the entry at p differs. */
  predicate DiffersAt(t: Tree, u: Tree, p: Path) {
    && t - {p} == u - {p}
  }

  lemma DiffersAtEntry(t: Tree, u: Tree, p: Path, q: Path)
    requires DiffersAt(t, u, p) && q != p
    ensures (q in t <==> q in u) && (q in t ==> u[q] == t[q])
  {
    assert q in t - {p} <==> q in u - {p};
    assert q in t ==> (t - {p})[q] == (u - {p})[q];
  }

  /** The inode now at p, if any, is the one that was there or one nobody used. */
  predicate InodeIsOwn(ctx: Context, t: Tree, u: Tree, p: Path) {
    p in u && HasInode(u[p]) ==>
      || (p in t && HasInode(t[p]) && u[p].ino == t[p].ino)
      || (u[p].ino !in Inodes(t) && u[p].ino !in ctx.external)
  }

  lemma SoleStays(ctx: Context, t: Tree, u: Tree, p: Path, q: Path)
    requires DiffersAt(t, u, p) && InodeIsOwn(ctx, t, u, p)
    requires q in t && HasInode(t[q]) && q in u && HasInode(u[q]) && Sole(ctx, t, q)
    ensures Sole(ctx, u, q)
  {
    if q != p {
      DiffersAtEntry(t, u, p, q);
    }
    forall x | x in u && x != q && HasInode(u[x]) ensures u[x].ino != u[q].ino {
      if x != p {
        DiffersAtEntry(t, u, p, x);
      }
      assert t[q].ino in Inodes(t);
      assert x in t && HasInode(t[x]) ==> t[x].ino in Inodes(t);
    }
  }

  /** Same kind, same content: what may change in place at an entry. */
  predicate SameThing(a: Node, b: Node) {
    match a
    case Dir(_, _) => b.Dir?
    case File(_, _, mode, data) => b.File? && b.data == data && OwnerBits(b.mode) == OwnerBits(mode)
    case Link(_, _, target) => b.Link? && b.target == target
    case Special(_) => b == a
    case Foreign => b == a
  }

  /** The entry at p was altered in place, or removed because it was unsafe. */
  ghost predicate SafeChange(ctx: Context, t: Tree, u: Tree, p: Path)
    requires p in t
  {
    && !InsideCarveout(p)
    && (if p in u then SameThing(t[p], u[p])
        else t[p].Special? || (t[p].Link? && !IsAccepted(ctx, t, p)))
  }

  /** Every safe change of one entry is a stage. */
  lemma SafeChangeIsStage(ctx: Context, t: Tree, u: Tree, p: Path)
    requires WellFormed(t) && p in t
    requires DiffersAt(t, u, p) && InodeIsOwn(ctx, t, u, p) && SafeChange(ctx, t, u, p)
    ensures Stage(ctx, t, u, p)
  {
    ChangeHardens(ctx, t, u, p);
    ChangePreserves(ctx, t, u, p);
    ChangeIsWellFormed(ctx, t, u, p);
    forall q | !(p <= q) ensures (q in t <==> q in u) && (q in t ==> u[q] == t[q]) {
      DiffersAtEntry(t, u, p, q);
    }
  }

  lemma ChangePreserves(ctx: Context, t: Tree, u: Tree, p: Path)
    requires p in t && DiffersAt(t, u, p) && SafeChange(ctx, t, u, p)
    ensures Preserves(t, u)
  {
    hide IsAccepted, OwnerBits;
    forall q | q != p ensures (q in t <==> q in u) && (q in t ==> u[q] == t[q]) {
      DiffersAtEntry(t, u, p, q);
    }
  }

  lemma ChangeIsWellFormed(ctx: Context, t: Tree, u: Tree, p: Path)
    requires WellFormed(t) && p in t && DiffersAt(t, u, p) && SafeChange(ctx, t, u, p)
    ensures WellFormed(u)
  {
    hide IsAccepted, OwnerBits;
    forall q | q != p ensures (q in t <==> q in u) && (q in t ==> u[q] == t[q]) {
      DiffersAtEntry(t, u, p, q);
    }
    forall q | q in u && q != [] ensures IsDir(u, Parent(q)) {
      assert IsDir(t, Parent(q));
    }
  }

  lemma ChangeHardens(ctx: Context, t: Tree, u: Tree, p: Path)
    requires WellFormed(t) && p in t && DiffersAt(t, u, p) && InodeIsOwn(ctx, t, u, p)
    requires SafeChange(ctx, t, u, p)
    ensures Hardens(ctx, t, u)
  {
    hide Sole, InodeIsOwn, Resolve, IsPeerLink, WellFormed, DiffersAt;
    forall q | q in t && (q != p || p in u)
      ensures q in u && SameThing(t[q], u[q])
      ensures HasInode(t[q]) && Sole(ctx, t, q) ==> Sole(ctx, u, q)
    {
      if q != p {
        DiffersAtEntry(t, u, p, q);
      }
      if HasInode(t[q]) && Sole(ctx, t, q) {
        SoleStays(ctx, t, u, p, q);
      }
    }
  }

  lemma CarveoutStep(ctx: Context, t: Tree, p: Path, owner: Owner, mode: bv12)
    requires WellFormed(t) && IsDir(t, p) && IsCarveoutParent(p) && p + ["sessions"] !in t
    ensures Stage(ctx, t, t[p + ["sessions"] := Dir(owner, mode)], p)
    ensures IsCarveout(p + ["sessions"])
  {
    var s := p + ["sessions"];
    var u := t[s := Dir(owner, mode)];
    assert Parent(s) == p;
    forall q | q in u && q != [] ensures IsDir(u, Parent(q)) {
      assert q == s || IsDir(t, Parent(q));
    }
    assert t - {s} == u - {s};
    CarveoutHardens(ctx, t, u, s);
  }

  lemma CarveoutHardens(ctx: Context, t: Tree, u: Tree, s: Path)
    requires s !in t && s in u && u[s].Dir? && DiffersAt(t, u, s)
    ensures Hardens(ctx, t, u)
  {
    hide Sole, Resolve, IsPeerLink;
    forall q | q in t
      ensures q in u && u[q] == t[q] && (HasInode(t[q]) && Sole(ctx, t, q) ==> Sole(ctx, u, q))
    {
      DiffersAtEntry(t, u, s, q);
      if HasInode(t[q]) && Sole(ctx, t, q) {
        SoleStays(ctx, t, u, s, q);
      }
    }
  }

  /** Every ancestor of an entry is a directory in the tree. */
  lemma {:induction false} AncestorsAreDirs(t: Tree, q: Path, i: nat)
    requires WellFormed(t) && q in t && i < |q|
    ensures IsDir(t, q[..i])
    decreases |q| - i
  {
    if i + 1 == |q| {
      assert Parent(q) == q[..i];
    } else {
      AncestorsAreDirs(t, q, i + 1);
      assert Parent(q[..i + 1]) == q[..i];
    }
  }
}
