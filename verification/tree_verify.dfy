/** The two reading traversals: preflight before anything changes, and verification after. */
module TreeVerify {
  import opened StateTree
  import opened LinkResolution
  import opened TreeModes
  import opened TreeSteps
  import opened TreeGuard

  // ----- reading a whole subtree, child by child

  ghost predicate Everywhere(t: Tree, p: Path, good: Path -> bool) {
    forall q :: q in t && p <= q ==> good(q)
  }

  ghost predicate SoFar(t: Tree, p: Path, rest: set<string>, good: Path -> bool) {
    good(p) && forall q :: q in t && p <= q && p != q && q[|p|] !in rest ==> good(q)
  }

  lemma SoFarStarts(t: Tree, p: Path, good: Path -> bool)
    requires WellFormed(t) && p in t
    ensures SoFar(t, p, ChildNames(t, p), good) <==> good(p)
  {
    forall q | q in t && p <= q && p != q ensures q[|p|] in ChildNames(t, p) {
      DescendantIsUnderChild(t, p, q);
    }
  }

  lemma SoFarStep(t: Tree, p: Path, rest: set<string>, n: string, good: Path -> bool)
    requires n in rest
    ensures SoFar(t, p, rest - {n}, good) <==> SoFar(t, p, rest, good) && Everywhere(t, p + [n], good)
  {
    forall q | p <= q && p != q ensures q[|p|] == n <==> p + [n] <= q {
    }
  }

  lemma SoFarEnds(t: Tree, p: Path, good: Path -> bool)
    requires p in t
    ensures SoFar(t, p, {}, good) <==> Everywhere(t, p, good)
  {
  }

  lemma LeafEverywhere(t: Tree, e: Path, good: Path -> bool)
    requires WellFormed(t) && e in t && !t[e].Dir?
    ensures Everywhere(t, e, good) <==> good(e)
  {
    forall q | q in t && e <= q ensures q == e {
      LeafIsAlone(t, e, q);
    }
  }

  /** A carve-out whose contents cannot fail is as good as its root. */
  lemma CarveoutEverywhere(t: Tree, e: Path, good: Path -> bool)
    requires IsCarveout(e) && e in t
    requires forall q :: q in t && InsideCarveout(q) ==> good(q)
    ensures Everywhere(t, e, good) <==> good(e)
  {
    forall q | q in t && e <= q && q != e ensures InsideCarveout(q) {
    }
  }

  // ----- preflight

  ghost function CleanAt(ctx: Context, action: Action, t: Tree): Path -> bool {
    q => q in t && q != [] && NodeClean(ctx, action, t, q)
  }

  /** One entry of the loop in _scan_dir; the result lists the paths complained about. */
  method ScanEntry(ctx: Context, dir: StateDir, p: Path, n: string, action: Action) returns (issues: seq<Path>)
    requires WellFormed(dir.nodes) && p != [] && !UnderCarveout(p) && |p| <= MAX_TRAVERSAL_DEPTH
    requires p + [n] in dir.nodes
    ensures issues == [] <==> Everywhere(dir.nodes, p + [n], CleanAt(ctx, action, dir.nodes))
    decreases MAX_TRAVERSAL_DEPTH + 1 - |p|, 0
  {
    hide Validate, Sole;
    var e := p + [n];
    if !dir.nodes[e].Dir? {
      LeafEverywhere(dir.nodes, e, CleanAt(ctx, action, dir.nodes));
    }
    match dir.nodes[e]
    case Foreign =>
      return [e];
    case Dir(_, _) =>
      if IsCarveout(e) {
        CarveoutEverywhere(dir.nodes, e, CleanAt(ctx, action, dir.nodes));
        return [];
      }
      issues := ScanDir(ctx, dir, e, action);
    case File(_, _, _, _) =>
      return if action != Lock && !Sole(ctx, dir.nodes, e) then [e] else [];
    case Link(_, _, _) =>
      var verdict := dir.ValidateSymlink(ctx, e);
      return if action != Lock && verdict != Accepted then [e] else [];
    case Special(_) =>
      return if action != Lock then [e] else [];
  }

  /** _scan_dir. */
  method ScanDir(ctx: Context, dir: StateDir, p: Path, action: Action) returns (issues: seq<Path>)
    requires WellFormed(dir.nodes) && p != [] && !UnderCarveout(p) && IsDir(dir.nodes, p)
    ensures issues == [] <==> Everywhere(dir.nodes, p, CleanAt(ctx, action, dir.nodes))
    decreases MAX_TRAVERSAL_DEPTH + 1 - |p|, 1
  {
    ghost var good := CleanAt(ctx, action, dir.nodes);
    hide Everywhere, SoFar;
    SoFarStarts(dir.nodes, p, good);
    SoFarEnds(dir.nodes, p, good);
    if |p| > MAX_TRAVERSAL_DEPTH {
      assert !good(p);
      DeepIsBad(dir.nodes, p, good);
      return [p];
    }
    issues := [];
    var rest := ChildNames(dir.nodes, p);
    while rest != {}
      invariant rest <= ChildNames(dir.nodes, p)
      invariant issues == [] <==> SoFar(dir.nodes, p, rest, good)
      decreases |rest|
    {
      var n :| n in rest;
      ChildIsNamed(dir.nodes, p, n);
      SoFarStep(dir.nodes, p, rest, n, good);
      var found := ScanEntry(ctx, dir, p, n, action);
      issues := issues + found;
      rest := rest - {n};
    }
  }

  lemma DeepIsBad(t: Tree, p: Path, good: Path -> bool)
    requires p in t && !good(p)
    ensures !Everywhere(t, p, good)
  {
  }

  // ----- verification

  /** _verify_metadata. */
  predicate MetadataOk(ctx: Context, policy: Policy, action: Action, node: Node) {
    match node
    case Dir(owner, mode) =>
      owner == ExpectedOwner(ctx.identity, policy, action) && mode == ExpectedDirMode(policy, action)
    case File(_, owner, mode, _) =>
      owner == ExpectedOwner(ctx.identity, policy, action) && FileModeOk(policy, action, mode)
    case Link(_, owner, _) => owner == ExpectedOwner(ctx.identity, policy, action)
    case Special(_) => false
    case Foreign => false
  }

  /** Right for the action, not too deep, and not on the inode it had before a lock. */
  predicate NodeVerified(ctx: Context, action: Action, t: Tree, replaced: map<Path, nat>, q: Path)
    requires q in t && Protected(ctx, q)
  {
    && NodeOk(ctx, action, t, q)
    && (t[q].Dir? && !UnderCarveout(q) ==> |q| <= MAX_TRAVERSAL_DEPTH)
    && (action == Lock && t[q].File? && !InsideCarveout(q) && q in replaced ==> t[q].ino != replaced[q])
  }

  ghost function VerifiedAt(ctx: Context, action: Action, t: Tree, replaced: map<Path, nat>): Path -> bool {
    q => q in t && Protected(ctx, q) && NodeVerified(ctx, action, t, replaced, q)
  }

  lemma CarveoutVerified(ctx: Context, action: Action, t: Tree, replaced: map<Path, nat>, e: Path)
    requires IsCarveout(e) && IsDir(t, e) && Protected(ctx, e)
    ensures Everywhere(t, e, VerifiedAt(ctx, action, t, replaced)) <==> NodeOk(ctx, action, t, e)
  {
    var good := VerifiedAt(ctx, action, t, replaced);
    assert good(e) <==> NodeOk(ctx, action, t, e);
    forall q | q in t && e <= q && q != e ensures good(q) {
      assert InsideCarveout(q) && Protected(ctx, q);
      assert UnderCarveout(q);
    }
  }

  /** One entry of the loop in _verify_dir. */
  method VerifyEntry(ctx: Context, dir: StateDir, p: Path, n: string, action: Action) returns (issues: seq<Path>)
    requires WellFormed(dir.nodes) && Protected(ctx, p) && !UnderCarveout(p) && |p| <= MAX_TRAVERSAL_DEPTH
    requires p + [n] in dir.nodes
    ensures issues == [] <==>
      Everywhere(dir.nodes, p + [n], VerifiedAt(ctx, action, dir.nodes, dir.replaced))
    decreases MAX_TRAVERSAL_DEPTH + 1 - |p|, 0
  {
    hide Validate, Sole;
    var e := p + [n];
    var policy, node := ctx.roots[p[0]], dir.nodes[e];
    issues := [];
    if !node.Dir? {
      LeafEverywhere(dir.nodes, e, VerifiedAt(ctx, action, dir.nodes, dir.replaced));
    }
    match node
    case Foreign =>
      return [e];
    case Dir(_, _) =>
      if IsCarveout(e) {
        CarveoutVerified(ctx, action, dir.nodes, dir.replaced, e);
        return if MetadataOk(ctx, policy, Unlock, node) then [] else [e];
      }
      issues := VerifyDir(ctx, dir, e, action);
    case File(_, _, _, _) =>
      if !Sole(ctx, dir.nodes, e) {
        issues := issues + [e];
      }
      if !MetadataOk(ctx, policy, action, node) {
        issues := issues + [e];
      }
      if action == Lock && e in dir.replaced && node.ino == dir.replaced[e] {
        issues := issues + [e];
      }
    case Link(_, _, _) =>
      if !MetadataOk(ctx, policy, action, node) {
        issues := issues + [e];
      }
      var verdict := dir.ValidateSymlink(ctx, e);
      if verdict != Accepted {
        issues := issues + [e];
      }
    case Special(_) =>
      return [e];
  }

  /** _verify_dir: no issue is reported exactly when every entry is right. */
  method VerifyDir(ctx: Context, dir: StateDir, p: Path, action: Action) returns (issues: seq<Path>)
    requires WellFormed(dir.nodes) && Protected(ctx, p) && !UnderCarveout(p) && IsDir(dir.nodes, p)
    ensures issues == [] <==> Everywhere(dir.nodes, p, VerifiedAt(ctx, action, dir.nodes, dir.replaced))
    decreases MAX_TRAVERSAL_DEPTH + 1 - |p|, 1
  {
    ghost var good := VerifiedAt(ctx, action, dir.nodes, dir.replaced);
    hide Everywhere, SoFar;
    SoFarStarts(dir.nodes, p, good);
    SoFarEnds(dir.nodes, p, good);
    if |p| > MAX_TRAVERSAL_DEPTH {
      assert !good(p);
      DeepIsBad(dir.nodes, p, good);
      return [p];
    }
    issues := if MetadataOk(ctx, ctx.roots[p[0]], action, dir.nodes[p]) then [] else [p];
    assert good(p) <==> issues == [];
    var rest := ChildNames(dir.nodes, p);
    while rest != {}
      invariant rest <= ChildNames(dir.nodes, p)
      invariant issues == [] <==> SoFar(dir.nodes, p, rest, good)
      decreases |rest|
    {
      var n :| n in rest;
      ChildIsNamed(dir.nodes, p, n);
      SoFarStep(dir.nodes, p, rest, n, good);
      var found := VerifyEntry(ctx, dir, p, n, action);
      issues := issues + found;
      rest := rest - {n};
    }
  }

  /** What mutation leaves, verification accepts. */
  lemma MutatedIsVerified(ctx: Context, action: Action, dir: StateDir, p: Path)
    requires Protected(ctx, p) && dir.Fresh() && AllOk(ctx, action, dir.nodes, p)
    requires forall q :: IsDir(dir.nodes, q) && p <= q && !UnderCarveout(q) ==> |q| <= MAX_TRAVERSAL_DEPTH
    ensures Everywhere(dir.nodes, p, VerifiedAt(ctx, action, dir.nodes, dir.replaced))
  {
    hide NodeOk;
  }
}
