/** The recursive lock and unlock of the state tree: preflight, mutation, and the second,
    independent traversal that verifies the result. */
module TreeGuard {
  import opened StateTree
  import opened LinkResolution
  import opened TreeModes
  import opened TreeSteps

  // ----- subtrees and their children

  function ChildNames(t: Tree, p: Path): set<string> {
    set q | q in t && |q| == |p| + 1 && p <= q :: q[|p|]
  }

  lemma ChildIsNamed(t: Tree, p: Path, n: string)
    ensures n in ChildNames(t, p) <==> p + [n] in t
  {
    if n in ChildNames(t, p) {
      var q :| q in t && |q| == |p| + 1 && p <= q && q[|p|] == n;
      assert q == p + [n];
    }
    if p + [n] in t {
      assert (p + [n])[|p|] == n;
    }
  }

  /** Everything below p is at or below one of its children. */
  lemma DescendantIsUnderChild(t: Tree, p: Path, q: Path)
    requires WellFormed(t) && q in t && p <= q && p != q
    ensures p + [q[|p|]] <= q && q[|p|] in ChildNames(t, p)
    ensures IsDir(t, p)
  {
    var e := p + [q[|p|]];
    assert q[..|p| + 1] == e && q[..|p|] == p;
    if |q| > |p| + 1 {
      AncestorsAreDirs(t, q, |p| + 1);
    }
    AncestorsAreDirs(t, q, |p|);
    ChildIsNamed(t, p, q[|p|]);
  }

  lemma PrefixIsThere(t: Tree, e: Path, q: Path)
    requires WellFormed(t) && q in t && e <= q
    ensures e in t
  {
    if |e| < |q| {
      AncestorsAreDirs(t, q, |e|);
      assert q[..|e|] == e;
    } else {
      assert q == e;
    }
  }

  lemma LeafIsAlone(t: Tree, e: Path, q: Path)
    requires WellFormed(t) && e in t && !t[e].Dir? && q in t && e <= q
    ensures q == e
  {
    if q != e {
      DescendantIsUnderChild(t, e, q);
    }
  }

  // ----- bookkeeping of the loop over a directory's children

  /** Every entry below p, outside the children still to be done, is right. */
  ghost predicate ChildrenOk(ctx: Context, action: Action, t: Tree, p: Path, rest: set<string>)
    requires Protected(ctx, p)
  {
    forall q :: q in t && p <= q && p != q && q[|p|] !in rest ==> NodeDone(ctx, action, t, q)
  }

  /** The files below p, outside the children still to be done, have their new mode. */
  ghost predicate ChildrenReset(ctx: Context, action: Action, t: Tree, u: Tree, p: Path, rest: set<string>)
    requires Protected(ctx, p)
  {
    forall q :: q in t && p <= q && p != q && q[|p|] !in rest ==> ModeReset(ctx, action, t, u, q)
  }

  lemma EntryReset(ctx: Context, action: Action, t0: Tree, t: Tree, u: Tree, p: Path, n: string, rest: set<string>)
    requires Protected(ctx, p) && n in rest && OnlyUnder(t, u, p + [n]) && Untouched(t0, t, p, rest)
    requires ChildrenReset(ctx, action, t0, t, p, rest) && Reset(ctx, action, t, u, p + [n])
    ensures ChildrenReset(ctx, action, t0, u, p, rest - {n})
  {
    hide ExpectedFileMode;
    forall q | q in t0 && p <= q && p != q && q[|p|] !in rest - {n} ensures ModeReset(ctx, action, t0, u, q) {
      if q[|p|] == n {
        assert p + [n] <= q;
        assert q in t && t[q] == t0[q];
        assert ModeReset(ctx, action, t, u, q);
      } else {
        assert !(p + [n] <= q);
        assert ModeReset(ctx, action, t0, t, q);
      }
    }
  }

  lemma NoneResetYet(ctx: Context, action: Action, t: Tree, u: Tree, p: Path)
    requires WellFormed(t) && Protected(ctx, p) && p in u && u == t[p := u[p]]
    ensures ChildrenReset(ctx, action, t, u, p, ChildNames(u, p))
  {
    forall q | q in t && p <= q && p != q ensures q[|p|] in ChildNames(u, p) {
      DescendantIsUnderChild(t, p, q);
      ChildIsNamed(t, p, q[|p|]);
      ChildIsNamed(u, p, q[|p|]);
    }
  }

  lemma ChildrenMakeReset(ctx: Context, action: Action, t0: Tree, t: Tree, u: Tree, p: Path)
    requires Protected(ctx, p) && IsDir(t0, p) && ChildrenReset(ctx, action, t0, t, p, {})
    requires forall q :: q in t && t[q].File? ==> q in u && u[q] == t[q]
    ensures Reset(ctx, action, t0, u, p)
  {
    hide ExpectedFileMode;
    forall q | q in t0 && p <= q ensures ModeReset(ctx, action, t0, u, q) {
      if q != p {
        assert ModeReset(ctx, action, t0, t, q);
      }
    }
  }

  lemma LeafReset(ctx: Context, action: Action, t: Tree, u: Tree, e: Path)
    requires WellFormed(t) && Protected(ctx, e) && e in t && !t[e].Dir?
    requires ModeReset(ctx, action, t, u, e)
    ensures Reset(ctx, action, t, u, e)
  {
    forall q | q in t && e <= q ensures q == e {
      LeafIsAlone(t, e, q);
    }
  }

  lemma CarveoutReset(ctx: Context, action: Action, t: Tree, u: Tree, e: Path)
    requires Protected(ctx, e) && IsCarveout(e) && IsDir(t, e)
    ensures Reset(ctx, action, t, u, e)
  {
    forall q | q in t && e <= q && q != e ensures InsideCarveout(q) {
    }
  }

  /** The children still to be done are as they were. */
  ghost predicate Untouched(t: Tree, u: Tree, p: Path, rest: set<string>) {
    forall q :: p <= q && p != q && q[|p|] in rest ==> (q in t <==> q in u) && (q in t ==> u[q] == t[q])
  }

  lemma EntryDone(ctx: Context, action: Action, t: Tree, u: Tree, p: Path, n: string, rest: set<string>)
    requires Protected(ctx, p) && Stage(ctx, t, u, p + [n])
    requires ChildrenOk(ctx, action, t, p, rest) && AllOk(ctx, action, u, p + [n])
    ensures ChildrenOk(ctx, action, u, p, rest - {n})
  {
    hide NodeDone, Hardens, Preserves, WellFormed;
    forall q | q in u && p <= q && p != q && q[|p|] !in rest - {n} ensures NodeDone(ctx, action, u, q) {
      if q[|p|] == n {
        assert p + [n] <= q;
      } else {
        assert !(p + [n] <= q);
        NodeDoneStays(ctx, action, t, u, q);
      }
    }
  }

  lemma RestUntouched(t: Tree, u: Tree, v: Tree, p: Path, n: string, rest: set<string>)
    requires Untouched(t, u, p, rest) && OnlyUnder(u, v, p + [n])
    ensures Untouched(t, v, p, rest - {n})
  {
    forall q | p <= q && p != q && q[|p|] in rest - {n}
      ensures (q in t <==> q in v) && (q in t ==> v[q] == t[q])
    {
      assert !(p + [n] <= q);
    }
  }

  lemma EntryStillClean(ctx: Context, action: Action, t: Tree, u: Tree, p: Path, n: string, rest: set<string>)
    requires p != [] && Untouched(t, u, p, rest) && n in rest && Hardens(ctx, t, u)
    requires Clean(ctx, action, t, p)
    ensures Clean(ctx, action, u, p + [n])
  {
    hide NodeClean, Hardens;
    forall q | q in u && p + [n] <= q ensures NodeClean(ctx, action, u, q) {
      assert q[|p|] == n;
      NodeCleanStays(ctx, action, t, u, q);
    }
  }

  lemma ChildrenMakeAll(ctx: Context, action: Action, t: Tree, p: Path)
    requires Protected(ctx, p) && p in t
    requires ChildrenOk(ctx, action, t, p, {}) && NodeDone(ctx, action, t, p)
    ensures AllOk(ctx, action, t, p)
  {
    hide NodeDone;
  }

  lemma NothingBelowYet(ctx: Context, action: Action, t: Tree, p: Path)
    requires WellFormed(t) && Protected(ctx, p)
    ensures ChildrenOk(ctx, action, t, p, ChildNames(t, p))
  {
    forall q | q in t && p <= q && p != q ensures q[|p|] in ChildNames(t, p) {
      DescendantIsUnderChild(t, p, q);
    }
  }

  // ----- the mutating traversal

  class StateDir {
    var nodes: Tree
    /** The inode each replaced file had before. */
    var replaced: map<Path, nat>

    constructor (nodes: Tree)
      ensures this.nodes == nodes && replaced == map[]
    {
      this.nodes, replaced := nodes, map[];
    }

    /** No replaced file still has its old inode. */
    predicate Fresh()
      reads this
    {
      forall q :: q in replaced && q in nodes && nodes[q].File? ==> nodes[q].ino != replaced[q]
    }

    /** An inode number nothing uses. */
    method Allocate(used: set<nat>) returns (ino: nat)
      ensures ino !in used
    {
      var rest := used;
      ino := 0;
      while rest != {}
        invariant rest <= used
        invariant forall x :: x in used && x !in rest ==> x < ino
        decreases |rest|
      {
        var x :| x in rest;
        rest := rest - {x};
        if x >= ino {
          ino := x + 1;
        }
      }
    }

    /** _validate_symlink. */
    method ValidateSymlink(ctx: Context, e: Path) returns (verdict: Verdict)
      requires e != [] && e in nodes && nodes[e].Link?
      ensures verdict == Validate(ctx, nodes, e)
    {
      if !Sole(ctx, nodes, e) {
        return Rejected(Hardlinked);
      }
      if IsPeerLink(ctx, e, nodes[e].target) {
        return Accepted;
      }
      var passes;
      verdict, passes := ResolveInternalSymlink(ctx, nodes, e, nodes[e].target);
    }

    /** _copy_stable_file_to_temp and the rename: a fresh inode with the same bytes. */
    method ReplaceFile(ctx: Context, e: Path)
      requires WellFormed(nodes) && Protected(ctx, e) && !InsideCarveout(e)
      requires e in nodes && nodes[e].File? && Fresh()
      modifies this
      ensures Stage(ctx, old(nodes), nodes, e) && Fresh()
      ensures e in nodes && !nodes[e].Dir? && NodeOk(ctx, Lock, nodes, e)
      ensures ModeReset(ctx, Lock, old(nodes), nodes, e)
      ensures e in replaced && replaced[e] == old(nodes)[e].ino
    {
      hide IsPeerLink, Validate, Hardens, Preserves, OnlyUnder;
      var ino := Allocate(Inodes(nodes) + ctx.external);
      var policy, file := ctx.roots[e[0]], nodes[e];
      var owner := ExpectedOwner(ctx.identity, policy, Lock);
      var mode := ExpectedFileMode(policy, Lock, file.mode);
      TransitionMeetsVerification(policy, Lock, file.mode);
      ghost var before := nodes;
      assert file.ino in Inodes(nodes);
      nodes := nodes[e := File(ino, owner, mode, file.data)];
      replaced := replaced[e := file.ino];
      assert before - {e} == nodes - {e};
      SafeChangeIsStage(ctx, before, nodes, e);
      FreshIsSole(ctx, before, nodes, e);
    }

    /** _unlock_file: in place, and only if the file has no other name. */
    method UnlockFile(ctx: Context, e: Path) returns (ok: bool)
      requires WellFormed(nodes) && Protected(ctx, e) && !InsideCarveout(e)
      requires e in nodes && nodes[e].File? && Fresh()
      modifies this
      ensures Stage(ctx, old(nodes), nodes, e) && Fresh()
      ensures ok ==> e in nodes && !nodes[e].Dir? && NodeOk(ctx, Unlock, nodes, e)
      ensures ok ==> ModeReset(ctx, Unlock, old(nodes), nodes, e)
      ensures ok <==> Sole(ctx, old(nodes), e)
      ensures forall q :: q in old(nodes) ==> q in nodes
    {
      hide IsPeerLink, Validate, Hardens, Preserves, OnlyUnder;
      ghost var before := nodes;
      if !Sole(ctx, nodes, e) {
        StageIsReflexive(ctx, nodes, e);
        return false;
      }
      var policy, file := ctx.roots[e[0]], nodes[e];
      TransitionMeetsVerification(policy, Unlock, file.mode);
      nodes := nodes[e := file.(owner := ExpectedOwner(ctx.identity, policy, Unlock),
                               mode := ExpectedFileMode(policy, Unlock, file.mode))];
      assert before - {e} == nodes - {e};
      SafeChangeIsStage(ctx, before, nodes, e);
      SoleStays(ctx, before, nodes, e, e);
      return true;
    }

    /** _chown_symlink on a link that has just been validated. */
    method ChownSymlink(ctx: Context, e: Path, action: Action)
      requires WellFormed(nodes) && Protected(ctx, e) && !InsideCarveout(e)
      requires Fresh() && IsAccepted(ctx, nodes, e)
      modifies this
      ensures Stage(ctx, old(nodes), nodes, e) && Fresh()
      ensures e in nodes && nodes[e].Link? && NodeOk(ctx, action, nodes, e)
      ensures nodes.Keys == old(nodes).Keys
    {
      hide IsPeerLink, Validate, Hardens, Preserves, OnlyUnder, Sole;
      ghost var before := nodes;
      var owner := ExpectedOwner(ctx.identity, ctx.roots[e[0]], action);
      nodes := nodes[e := Link(nodes[e].ino, owner, nodes[e].target)];
      assert before - {e} == nodes - {e};
      SafeChangeIsStage(ctx, before, nodes, e);
      AcceptedStaysAccepted(ctx, before, nodes, e);
    }

    /** Unlinking an entry that cannot be kept. */
    method Unlink(ctx: Context, e: Path)
      requires WellFormed(nodes) && Protected(ctx, e) && !InsideCarveout(e) && Fresh() && e in nodes
      requires nodes[e].Special? || (nodes[e].Link? && !IsAccepted(ctx, nodes, e))
      modifies this
      ensures Stage(ctx, old(nodes), nodes, e) && Fresh()
      ensures e !in nodes
    {
      hide IsAccepted, Hardens, Preserves, OnlyUnder, Sole;
      ghost var before := nodes;
      nodes := nodes - {e};
      assert before - {e} == nodes - {e};
      SafeChangeIsStage(ctx, before, nodes, e);
    }

    /** fchown and fchmod of an open directory. */
    method SetDirMetadata(ctx: Context, p: Path, owner: Owner, mode: bv12)
      requires WellFormed(nodes) && Protected(ctx, p) && !InsideCarveout(p) && Fresh() && IsDir(nodes, p)
      modifies this
      ensures Stage(ctx, old(nodes), nodes, p) && Fresh()
      ensures nodes == old(nodes)[p := Dir(owner, mode)]
    {
      hide IsAccepted, Hardens, Preserves, OnlyUnder, Sole;
      ghost var before := nodes;
      nodes := nodes[p := Dir(owner, mode)];
      assert before - {p} == nodes - {p};
      SafeChangeIsStage(ctx, before, nodes, p);
    }

    /** One entry of the loop in _mutate_dir. */
    method MutateEntry(ctx: Context, p: Path, n: string, action: Action) returns (ok: bool)
      requires WellFormed(nodes) && Protected(ctx, p) && !UnderCarveout(p) && Fresh()
      requires |p| <= MAX_TRAVERSAL_DEPTH && p + [n] in nodes
      modifies this
      ensures Stage(ctx, old(nodes), nodes, p + [n]) && Fresh()
      ensures ok ==> AllOk(ctx, action, nodes, p + [n]) && Reset(ctx, action, old(nodes), nodes, p + [n])
      ensures Clean(ctx, action, old(nodes), p + [n]) ==> ok
      ensures action == Unlock ==> forall q :: q in old(nodes) ==> q in nodes
      decreases MAX_TRAVERSAL_DEPTH + 1 - |p|, 0
    {
      var e := p + [n];
      ghost var t := nodes;
      assert Protected(ctx, e) && !InsideCarveout(e);
      match nodes[e]
      case Foreign =>
        StageIsReflexive(ctx, nodes, e);
        return false;
      case Dir(_, _) =>
        if IsCarveout(e) {
          MutateCarveout(ctx, e);
          CarveoutReset(ctx, action, t, nodes, e);
          return true;
        }
        ok := MutateDir(ctx, e, action, false);
      case File(_, _, _, _) =>
        if action == Lock {
          ReplaceFile(ctx, e);
          ok := true;
        } else {
          ok := UnlockFile(ctx, e);
        }
        if ok {
          LeafIsRight(ctx, action, nodes, e);
          LeafReset(ctx, action, t, nodes, e);
        }
      case Link(_, _, _) =>
        ok := MutateLink(ctx, e, action);
        LeafReset(ctx, action, t, nodes, e);
      case Special(_) =>
        if action != Lock {
          StageIsReflexive(ctx, nodes, e);
          return false;
        }
        Unlink(ctx, e);
        GoneIsRight(ctx, action, nodes, e);
        LeafReset(ctx, action, t, nodes, e);
        return true;
    }

    /** The carve-out root gets its writable metadata; its contents are left alone. */
    method MutateCarveout(ctx: Context, e: Path)
      requires WellFormed(nodes) && Protected(ctx, e) && IsCarveout(e) && IsDir(nodes, e) && Fresh()
      modifies this
      ensures Stage(ctx, old(nodes), nodes, e) && Fresh()
      ensures forall action :: AllOk(ctx, action, nodes, e)
      ensures nodes.Keys == old(nodes).Keys
    {
      var policy := ctx.roots[e[0]];
      SetDirMetadata(ctx, e, ExpectedOwner(ctx.identity, policy, Unlock), ExpectedDirMode(policy, Unlock));
      forall action, q | q in nodes && e <= q ensures NodeDone(ctx, action, nodes, q) {
        assert q != e ==> InsideCarveout(q);
      }
    }

    /** A symlink: locking removes a rejected one, unlocking refuses it. */
    method MutateLink(ctx: Context, e: Path, action: Action) returns (ok: bool)
      requires WellFormed(nodes) && Protected(ctx, e) && !InsideCarveout(e)
      requires Fresh() && e in nodes && nodes[e].Link?
      modifies this
      ensures Stage(ctx, old(nodes), nodes, e) && Fresh()
      ensures ok ==> AllOk(ctx, action, nodes, e)
      ensures ok <==> action == Lock || IsAccepted(ctx, old(nodes), e)
      ensures action == Unlock ==> forall q :: q in old(nodes) ==> q in nodes
    {
      hide Hardens, Preserves, OnlyUnder, Sole, Resolve, IsPeerLink;
      var verdict := ValidateSymlink(ctx, e);
      if verdict == Accepted {
        ChownSymlink(ctx, e, action);
        LeafIsRight(ctx, action, nodes, e);
        return true;
      }
      if action == Unlock {
        StageIsReflexive(ctx, nodes, e);
        return false;
      }
      Unlink(ctx, e);
      GoneIsRight(ctx, action, nodes, e);
      return true;
    }

    /** The start of _mutate_dir: locking freezes the directory and takes it over, unlocking
        a root closes it for the time being. */
    method PrepareDir(ctx: Context, p: Path, action: Action, isRoot: bool)
      requires WellFormed(nodes) && Protected(ctx, p) && !UnderCarveout(p) && IsDir(nodes, p) && Fresh()
      modifies this
      ensures Stage(ctx, old(nodes), nodes, p) && Fresh()
      ensures IsDir(nodes, p) && nodes == old(nodes)[p := nodes[p]]
      ensures action == Lock ==> NodeOk(ctx, action, nodes, p)
      ensures action == Unlock && !isRoot ==> nodes == old(nodes)
      ensures action == Unlock && isRoot ==> nodes[p] == Dir(ctx.identity.root, MODE_0700)
    {
      hide Hardens, Preserves, OnlyUnder, WellFormed;
      ghost var t0 := nodes;
      var policy := ctx.roots[p[0]];
      if action == Lock {
        SetDirMetadata(ctx, p, nodes[p].owner, nodes[p].mode & MODE_0555);
        ghost var t1 := nodes;
        SetDirMetadata(ctx, p, ExpectedOwner(ctx.identity, policy, Lock), ExpectedDirMode(policy, Lock));
        StageIsTransitive(ctx, t0, t1, nodes, p, p);
      } else if isRoot {
        SetDirMetadata(ctx, p, nodes[p].owner, MODE_0700);
        ghost var t1 := nodes;
        SetDirMetadata(ctx, p, ctx.identity.root, MODE_0700);
        StageIsTransitive(ctx, t0, t1, nodes, p, p);
      } else {
        StageIsReflexive(ctx, nodes, p);
        assert nodes[p := nodes[p]] == nodes;
      }
    }

    /** The end of _mutate_dir: a locked agent directory gets its sessions carve-out, an
        unlocked directory its mutable metadata. */
    method FinishDir(ctx: Context, p: Path, action: Action)
      requires WellFormed(nodes) && Protected(ctx, p) && !UnderCarveout(p) && IsDir(nodes, p) && Fresh()
      requires ChildrenOk(ctx, action, nodes, p, {})
      requires action == Lock ==> NodeOk(ctx, action, nodes, p)
      modifies this
      ensures Stage(ctx, old(nodes), nodes, p) && Fresh()
      ensures AllOk(ctx, action, nodes, p) && forall q :: q in old(nodes) ==> q in nodes
      ensures forall q :: q in old(nodes) && old(nodes)[q].File? ==> q in nodes && nodes[q] == old(nodes)[q]
    {
      hide Hardens, Preserves, OnlyUnder, WellFormed, Sole, IsAccepted;
      var policy := ctx.roots[p[0]];
      ghost var t0 := nodes;
      var s := p + ["sessions"];
      if action == Lock && IsCarveoutParent(p) && s !in nodes {
        CarveoutStep(ctx, nodes, p, ExpectedOwner(ctx.identity, policy, Unlock), ExpectedDirMode(policy, Unlock));
        nodes := nodes[s := Dir(ExpectedOwner(ctx.identity, policy, Unlock), ExpectedDirMode(policy, Unlock))];
        ChildrenStayRight(ctx, action, t0, nodes, p, s);
      } else if action == Lock {
        StageIsReflexive(ctx, nodes, p);
        if IsCarveoutParent(p) {
          assert p <= s && s[|p|] == "sessions";
          SessionsAreThere(ctx, nodes, p);
        }
        ChildrenMakeAll(ctx, action, nodes, p);
      } else {
        SetDirMetadata(ctx, p, ExpectedOwner(ctx.identity, policy, Unlock), ExpectedDirMode(policy, Unlock));
        ChildrenStayRight(ctx, action, t0, nodes, p, p);
      }
    }

    /** _mutate_dir: false is the raised error that ends the whole transition. */
    method MutateDir(ctx: Context, p: Path, action: Action, isRoot: bool) returns (ok: bool)
      requires WellFormed(nodes) && Protected(ctx, p) && !UnderCarveout(p) && IsDir(nodes, p) && Fresh()
      modifies this
      ensures Stage(ctx, old(nodes), nodes, p) && Fresh()
      ensures ok ==> AllOk(ctx, action, nodes, p) && Reset(ctx, action, old(nodes), nodes, p)
      ensures Clean(ctx, action, old(nodes), p) ==> ok
      ensures action == Unlock ==> forall q :: q in old(nodes) ==> q in nodes
      decreases MAX_TRAVERSAL_DEPTH + 1 - |p|, 1
    {
      hide Hardens, Preserves, OnlyUnder, NodeOk, NodeClean, ModeReset;
      if |p| > MAX_TRAVERSAL_DEPTH {
        StageIsReflexive(ctx, nodes, p);
        TooDeepIsUnclean(ctx, action, nodes, p);
        return false;
      }
      ghost var t0 := nodes;
      PrepareDir(ctx, p, action, isRoot);
      NothingBelowYet(ctx, action, nodes, p);
      NoneResetYet(ctx, action, t0, nodes, p);
      UntouchedBelow(t0, nodes, p, ChildNames(nodes, p));
      var rest := ChildNames(nodes, p);
      while rest != {}
        invariant Stage(ctx, t0, nodes, p) && Fresh()
        invariant ChildrenOk(ctx, action, nodes, p, rest)
        invariant ChildrenReset(ctx, action, t0, nodes, p, rest)
        invariant Untouched(t0, nodes, p, rest)
        invariant forall n :: n in rest ==> p + [n] in nodes
        invariant action == Unlock ==> forall q :: q in t0 ==> q in nodes
        invariant IsDir(nodes, p) && (action == Lock ==> NodeOk(ctx, action, nodes, p))
        decreases |rest|
      {
        var n :| n in rest;
        ghost var t := nodes;
        ok := MutateEntry(ctx, p, n, action);
        StageIsTransitive(ctx, t0, t, nodes, p, p + [n]);
        if Clean(ctx, action, t0, p) {
          EntryStillClean(ctx, action, t0, t, p, n, rest);
        }
        if !ok {
          return false;
        }
        EntryDone(ctx, action, t, nodes, p, n, rest);
        EntryReset(ctx, action, t0, t, nodes, p, n, rest);
        RestUntouched(t0, t, nodes, p, n, rest);
        OthersStand(ctx, action, t, nodes, p, n);
        rest := rest - {n};
      }
      ghost var t := nodes;
      FinishDir(ctx, p, action);
      StageIsTransitive(ctx, t0, t, nodes, p, p);
      ChildrenMakeReset(ctx, action, t0, t, nodes, p);
      return true;
    }
  }

  lemma FreshIsSole(ctx: Context, t: Tree, u: Tree, e: Path)
    requires DiffersAt(t, u, e) && e in u && HasInode(u[e])
    requires u[e].ino !in Inodes(t) && u[e].ino !in ctx.external
    ensures Sole(ctx, u, e)
  {
    forall x | x in u && x != e && HasInode(u[x]) ensures u[x].ino != u[e].ino {
      DiffersAtEntry(t, u, e, x);
      assert t[x].ino in Inodes(t);
    }
  }

  lemma LeafIsRight(ctx: Context, action: Action, t: Tree, e: Path)
    requires WellFormed(t) && Protected(ctx, e) && e in t && !t[e].Dir? && NodeOk(ctx, action, t, e)
    ensures AllOk(ctx, action, t, e)
  {
    hide NodeOk, WellFormed;
    assert NodeDone(ctx, action, t, e);
    forall q | q in t && e <= q ensures q == e {
      LeafIsAlone(t, e, q);
    }
  }

  lemma GoneIsRight(ctx: Context, action: Action, t: Tree, e: Path)
    requires WellFormed(t) && Protected(ctx, e) && e !in t
    ensures AllOk(ctx, action, t, e)
  {
    hide NodeOk;
    forall q | q in t ensures !(e <= q) {
      if e <= q {
        PrefixIsThere(t, e, q);
      }
    }
  }

  lemma ChildrenStayRight(ctx: Context, action: Action, t: Tree, u: Tree, p: Path, x: Path)
    requires Protected(ctx, p) && p in t && Stage(ctx, t, u, p) && p <= x && p in u
    requires x in u && DiffersAt(t, u, x) && NodeDone(ctx, action, u, x)
    requires ChildrenOk(ctx, action, t, p, {}) && (x == p || NodeOk(ctx, action, t, p))
    requires x != p ==> x == p + ["sessions"] && u[x].Dir?
    ensures AllOk(ctx, action, u, p)
  {
    hide NodeOk, Hardens, Preserves, OnlyUnder, WellFormed;
    forall q | q in u && p <= q ensures NodeDone(ctx, action, u, q) {
      if q != x {
        DiffersAtEntry(t, u, x, q);
        NodeOkStays(ctx, action, t, u, q);
        if q != p {
          NodeDoneStays(ctx, action, t, u, q);
        }
      }
    }
  }

  lemma TooDeepIsUnclean(ctx: Context, action: Action, t: Tree, p: Path)
    requires IsDir(t, p) && |p| > MAX_TRAVERSAL_DEPTH && !UnderCarveout(p)
    ensures !Clean(ctx, action, t, p)
  {
    assert !NodeClean(ctx, action, t, p);
  }

  lemma UntouchedBelow(t: Tree, u: Tree, p: Path, rest: set<string>)
    requires p in u && u == t[p := u[p]]
    ensures Untouched(t, u, p, rest)
    ensures forall n :: n in ChildNames(u, p) ==> p + [n] in u
  {
    forall n | n in ChildNames(u, p) ensures p + [n] in u {
      ChildIsNamed(u, p, n);
    }
  }

  /** The directory itself and the other children are where they were. */
  lemma OthersStand(ctx: Context, action: Action, t: Tree, u: Tree, p: Path, n: string)
    requires Protected(ctx, p) && IsDir(t, p) && Stage(ctx, t, u, p + [n])
    ensures IsDir(u, p)
    ensures NodeOk(ctx, action, t, p) ==> NodeOk(ctx, action, u, p)
    ensures forall m :: m != n && p + [m] in t ==> p + [m] in u
  {
    hide NodeOk, Hardens, Preserves, WellFormed;
    assert !(p + [n] <= p);
    if NodeOk(ctx, action, t, p) {
      NodeOkStays(ctx, action, t, u, p);
    }
    forall m | m != n && p + [m] in t ensures p + [m] in u {
      assert (p + [m])[|p|] == m && (p + [n])[|p|] == n;
      assert !(p + [n] <= p + [m]);
    }
  }
}
