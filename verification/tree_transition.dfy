/** One whole guard action over the state tree: select the protected roots, preflight,
    mutate, verify. And what a lock followed by an unlock leaves. */
module TreeTransition {
  import opened Basics
  import opened StateTree
  import opened LinkResolution
  import opened TreeModes
  import opened TreeSteps
  import opened TreeGuard
  import opened TreeVerify
  import opened Permissions

  const HIGH_RISK_STATE_DIRS :=
    {"skills", "agent", "hooks", "cron", "agents", "extensions", "plugins", "workspace", "memory",
     "devices", "canvas", "telegram", "wechat", "whatsapp", "platforms", "weixin", "profiles", "skins"}

  const CONFIDENTIALITY_STATE_DIRS := {"credentials", "identity", "pairing"}

  /** _policy_for_root. */
  function PolicyFor(name: string): Option<Policy> {
    if name in CONFIDENTIALITY_STATE_DIRS then Some(Confidentiality)
    else if name in HIGH_RISK_STATE_DIRS || "workspace-" <= name then Some(HighRisk)
    else None
  }

  /** An entry at or below a name that must be a protected directory. */
  predicate Governed(q: Path) {
    q != [] && PolicyFor(q[0]).Some?
  }

  /** The protected roots a tree has. */
  function RootsOf(t: Tree): map<string, Policy> {
    map n | n in ChildNames(t, []) && PolicyFor(n).Some? && IsDir(t, [n]) :: PolicyFor(n).value
  }

  /** The context of an action, once the roots are known. */
  function ContextFor(base: Context, t: Tree): Context {
    base.(roots := RootsOf(t))
  }

  lemma RootIsListed(t: Tree, n: string)
    ensures n in RootsOf(t) <==> PolicyFor(n).Some? && IsDir(t, [n])
  {
    hide PolicyFor;
    ChildIsNamed(t, [], n);
    assert [] + [n] == [n];
  }

  /** Root names that are not directories, which locking removes. */
  predicate Unsupported(t: Tree, q: Path) {
    q in t && |q| == 1 && Governed(q) && !t[q].Dir?
  }

  function Cleared(t: Tree): Tree {
    map q | q in t && !Unsupported(t, q) :: t[q]
  }

  /** No data lost, except at root names that are not directories. */
  ghost predicate KeepsFiles(t: Tree, u: Tree) {
    forall q :: q in t && t[q].File? && !Unsupported(t, q) ==>
      q in u && u[q].File? && u[q].data == t[q].data && OwnerBits(u[q].mode) == OwnerBits(t[q].mode)
  }

  /** What lock can cope with: no foreign entry and no directory beyond the depth limit,
      carve-outs aside. */
  ghost predicate Lockable(base: Context, t: Tree) {
    forall q :: q in t && Governed(q) ==> NodeClean(base, Lock, t, q)
  }

  /** What unlock can cope with: roots that are directories, and below them only singly
      linked files, links it accepts, and shallow directories of this file system. */
  ghost predicate Unlockable(base: Context, t: Tree) {
    && (forall x :: !Unsupported(t, x))
    && (forall q :: q in t && Governed(q) ==> NodeClean(ContextFor(base, t), Unlock, t, q))
  }

  ghost predicate Ready(base: Context, action: Action, t: Tree) {
    if action == Lock then Lockable(base, t) else Unlockable(base, t)
  }

  /** Every governed entry lies under a protected root and is right for the action. */
  ghost predicate Right(ctx: Context, action: Action, t: Tree) {
    forall q :: q in t && Governed(q) ==> Protected(ctx, q) && NodeDone(ctx, action, t, q)
  }

  ghost predicate Shallow(t: Tree) {
    forall q :: IsDir(t, q) && Governed(q) && !UnderCarveout(q) ==> |q| <= MAX_TRAVERSAL_DEPTH
  }

  // ----- root selection

  /** _select_roots; the names it reports are no directories. */
  method SelectRoots(dir: StateDir) returns (roots: map<string, Policy>, issues: seq<Path>)
    ensures roots == RootsOf(dir.nodes)
    ensures issues == [] <==> forall q :: !Unsupported(dir.nodes, q)
  {
    hide PolicyFor;
    var rest := ChildNames(dir.nodes, []);
    roots, issues := map[], [];
    while rest != {}
      invariant rest <= ChildNames(dir.nodes, [])
      invariant roots == map n | n in ChildNames(dir.nodes, []) && n !in rest && PolicyFor(n).Some?
                                 && IsDir(dir.nodes, [n]) :: PolicyFor(n).value
      invariant issues == [] <==>
                forall n :: n in ChildNames(dir.nodes, []) && n !in rest ==> !Unsupported(dir.nodes, [n])
      decreases |rest|
    {
      var n :| n in rest;
      ChildIsNamed(dir.nodes, [], n);
      assert [] + [n] == [n];
      if PolicyFor(n).Some? {
        if dir.nodes[[n]].Dir? {
          roots := roots[n := PolicyFor(n).value];
        } else {
          issues := issues + [[n]];
        }
      }
      rest := rest - {n};
    }
    assert roots == RootsOf(dir.nodes);
    forall q | Unsupported(dir.nodes, q) ensures q[0] in ChildNames(dir.nodes, []) && q == [q[0]] {
      ChildIsNamed(dir.nodes, [], q[0]);
      assert [] + [q[0]] == q;
    }
  }

  /** Some root names that are no directories have been unlinked. */
  ghost predicate PartlyCleared(t: Tree, u: Tree) {
    && (forall q :: q in u ==> q in t && u[q] == t[q])
    && (forall q :: q in t && q !in u ==> Unsupported(t, q))
  }

  /** The loop below has dealt with every name outside rest. */
  ghost predicate Clearing(t: Tree, u: Tree, rest: set<string>) {
    && PartlyCleared(t, u) && WellFormed(u) && u[[]] == t[[]]
    && (forall n :: n in rest && [n] in t ==> [n] in u)
    && (forall n :: n !in rest && Unsupported(t, [n]) ==> !t[[n]].Foreign? && [n] !in u)
  }

  lemma ClearingStarts(t: Tree)
    requires WellFormed(t)
    ensures Clearing(t, t, ChildNames(t, []))
  {
    hide Governed;
    forall n ensures n in ChildNames(t, []) <==> [n] in t {
      NamedRoot(t, n);
    }
  }

  lemma ClearingSkips(t: Tree, u: Tree, rest: set<string>, n: string)
    requires Clearing(t, u, rest) && n in rest && !Unsupported(t, [n])
    ensures Clearing(t, u, rest - {n})
  {
    hide Governed, WellFormed;
  }

  lemma ClearingRemoves(t: Tree, u: Tree, rest: set<string>, n: string)
    requires Clearing(t, u, rest) && n in rest && Unsupported(t, [n]) && !t[[n]].Foreign?
    ensures Clearing(t, u - {[n]}, rest - {n})
  {
    assert [n] in u;
    RemoveLeaf(u, [n]);
    hide Governed, WellFormed;
  }

  lemma ClearingEnds(t: Tree, u: Tree)
    requires Clearing(t, u, {})
    ensures u == Cleared(t) && forall q :: Unsupported(t, q) ==> !t[q].Foreign?
  {
    hide Governed, WellFormed;
    forall q | Unsupported(t, q) ensures q !in u && !t[q].Foreign? {
      assert q == [q[0]];
    }
  }

  /** _remove_unsupported_root_entries_for_lock; false is the raised error. */
  method RemoveUnsupported(dir: StateDir) returns (ok: bool)
    requires WellFormed(dir.nodes)
    modifies dir
    ensures dir.replaced == old(dir.replaced) && WellFormed(dir.nodes)
    ensures dir.nodes[[]] == old(dir.nodes)[[]]
    ensures PartlyCleared(old(dir.nodes), dir.nodes)
    ensures ok ==> dir.nodes == Cleared(old(dir.nodes))
    ensures ok <==> forall q :: Unsupported(old(dir.nodes), q) ==> !old(dir.nodes)[q].Foreign?
  {
    ghost var t := dir.nodes;
    ClearingStarts(t);
    hide PartlyCleared, Governed;
    var rest := ChildNames(dir.nodes, []);
    while rest != {}
      invariant rest <= ChildNames(t, []) && dir.replaced == old(dir.replaced)
      invariant Clearing(t, dir.nodes, rest)
      decreases |rest|
    {
      var n :| n in rest;
      NamedRoot(t, n);
      if Unsupported(dir.nodes, [n]) {
        PartlySame(t, dir.nodes, [n]);
        if dir.nodes[[n]].Foreign? {
          return false;
        }
        ClearingRemoves(t, dir.nodes, rest, n);
        dir.nodes := dir.nodes - {[n]};
      } else {
        PartlySame(t, dir.nodes, [n]);
        ClearingSkips(t, dir.nodes, rest, n);
      }
      rest := rest - {n};
    }
    ClearingEnds(t, dir.nodes);
    return true;
  }

  lemma PartlySame(t: Tree, u: Tree, q: Path)
    requires PartlyCleared(t, u) && q in u
    ensures q in t && u[q] == t[q]
  {
  }

  lemma NamedRoot(t: Tree, n: string)
    ensures n in ChildNames(t, []) <==> [n] in t
  {
    ChildIsNamed(t, [], n);
    assert [] + [n] == [n];
  }

  lemma RemoveLeaf(t: Tree, e: Path)
    requires WellFormed(t) && e in t && !t[e].Dir? && e != []
    ensures WellFormed(t - {e})
  {
    var u := t - {e};
    forall q | q in u && q != [] ensures IsDir(u, Parent(q)) {
      assert IsDir(t, Parent(q));
    }
  }

  // ----- mutating and verifying every root

  /** The roots not in rest are done. */
  ghost predicate RootsDone(ctx: Context, action: Action, t0: Tree, t: Tree, rest: set<string>) {
    forall n :: n in ctx.roots && n !in rest ==> AllOk(ctx, action, t, [n]) && Reset(ctx, action, t0, t, [n])
  }

  /** Work under another root leaves this one right. */
  lemma OtherRootStands(ctx: Context, action: Action, t0: Tree, t: Tree, u: Tree, m: string, n: string)
    requires m in ctx.roots && m != n && Stage(ctx, t, u, [n])
    ensures AllOk(ctx, action, t, [m]) ==> AllOk(ctx, action, u, [m])
    ensures Reset(ctx, action, t0, t, [m]) ==> Reset(ctx, action, t0, u, [m])
    ensures IsDir(t, [m]) ==> IsDir(u, [m])
  {
    hide NodeDone, ExpectedFileMode, Hardens, Preserves, WellFormed;
    forall q | [m] <= q ensures !([n] <= q) && q != [] && q[0] == m {
    }
    if AllOk(ctx, action, t, [m]) {
      forall q | q in u && [m] <= q ensures NodeDone(ctx, action, u, q) {
        NodeDoneStays(ctx, action, t, u, q);
      }
    }
    if Reset(ctx, action, t0, t, [m]) {
      forall q | q in t0 && [m] <= q ensures ModeReset(ctx, action, t0, u, q) {
        assert ModeReset(ctx, action, t0, t, q);
      }
    }
  }

  lemma RootReset(ctx: Context, action: Action, t0: Tree, t: Tree, u: Tree, n: string, rest: set<string>)
    requires n in ctx.roots && n in rest && Untouched(t0, t, [], rest) && Reset(ctx, action, t, u, [n])
    ensures Reset(ctx, action, t0, u, [n])
  {
    hide ExpectedFileMode;
    forall q | q in t0 && [n] <= q ensures ModeReset(ctx, action, t0, u, q) {
      assert q[0] == n && q in t && t[q] == t0[q];
      assert ModeReset(ctx, action, t, u, q);
    }
  }

  lemma RootStep(ctx: Context, action: Action, t0: Tree, t: Tree, u: Tree, n: string, rest: set<string>)
    requires n in ctx.roots && n in rest && Untouched(t0, t, [], rest) && Stage(ctx, t, u, [n])
    requires RootsDone(ctx, action, t0, t, rest)
    requires AllOk(ctx, action, u, [n]) && Reset(ctx, action, t, u, [n])
    requires forall m :: m in rest ==> m in ctx.roots && IsDir(t, [m])
    ensures RootsDone(ctx, action, t0, u, rest - {n}) && Untouched(t0, u, [], rest - {n})
    ensures forall m :: m in rest - {n} ==> IsDir(u, [m])
  {
    hide AllOk, Reset, Hardens, Preserves, WellFormed, OnlyUnder;
    assert [] + [n] == [n];
    RestUntouched(t0, t, u, [], n, rest);
    RootReset(ctx, action, t0, t, u, n, rest);
    forall m | m in ctx.roots && m != n
      ensures AllOk(ctx, action, t, [m]) ==> AllOk(ctx, action, u, [m])
      ensures Reset(ctx, action, t0, t, [m]) ==> Reset(ctx, action, t0, u, [m])
      ensures IsDir(t, [m]) ==> IsDir(u, [m])
    {
      OtherRootStands(ctx, action, t0, t, u, m, n);
    }
  }

  lemma RootStillClean(ctx: Context, action: Action, t0: Tree, t: Tree, n: string, rest: set<string>)
    requires n in rest && Untouched(t0, t, [], rest) && Hardens(ctx, t0, t) && Clean(ctx, action, t0, [n])
    ensures Clean(ctx, action, t, [n])
  {
    hide NodeClean, Hardens;
    forall q | q in t && [n] <= q ensures NodeClean(ctx, action, t, q) {
      assert q[0] == n && q in t0 && t0[q] == t[q];
      NodeCleanStays(ctx, action, t0, t, q);
    }
  }

  /** Nothing outside the protected roots differs. */
  ghost predicate OutsideSame(ctx: Context, t: Tree, u: Tree) {
    forall q :: q == [] || q[0] !in ctx.roots ==> (q in t <==> q in u) && (q in t ==> u[q] == t[q])
  }

  lemma OutsideStaysSame(ctx: Context, t0: Tree, t: Tree, u: Tree, n: string)
    requires n in ctx.roots && OutsideSame(ctx, t0, t) && OnlyUnder(t, u, [n])
    ensures OutsideSame(ctx, t0, u)
  {
    forall q | q == [] || q[0] !in ctx.roots ensures !([n] <= q) {
    }
  }

  /** The mutation loop over the roots. */
  method MutateRoots(dir: StateDir, ctx: Context, action: Action) returns (ok: bool)
    requires WellFormed(dir.nodes) && dir.Fresh()
    requires forall n :: n in ctx.roots ==> IsDir(dir.nodes, [n])
    modifies dir
    ensures Stage(ctx, old(dir.nodes), dir.nodes, []) && dir.Fresh()
    ensures OutsideSame(ctx, old(dir.nodes), dir.nodes) && dir.nodes[[]] == old(dir.nodes)[[]]
    ensures ok ==> RootsDone(ctx, action, old(dir.nodes), dir.nodes, {})
    ensures (forall n :: n in ctx.roots ==> Clean(ctx, action, old(dir.nodes), [n])) ==> ok
  {
    hide AllOk, Reset, Hardens, Preserves, OnlyUnder, Clean;
    ghost var t0 := dir.nodes;
    StageIsReflexive(ctx, t0, []);
    var rest := ctx.roots.Keys;
    while rest != {}
      invariant rest <= ctx.roots.Keys && Stage(ctx, t0, dir.nodes, []) && dir.Fresh()
      invariant OutsideSame(ctx, t0, dir.nodes)
      invariant Untouched(t0, dir.nodes, [], rest) && RootsDone(ctx, action, t0, dir.nodes, rest)
      invariant forall m :: m in rest ==> IsDir(dir.nodes, [m])
      decreases |rest|
    {
      var n :| n in rest;
      ghost var t := dir.nodes;
      if Clean(ctx, action, t0, [n]) {
        RootStillClean(ctx, action, t0, t, n, rest);
      }
      ok := dir.MutateDir(ctx, [n], action, true);
      StageIsTransitive(ctx, t0, t, dir.nodes, [], [n]);
      OutsideStaysSame(ctx, t0, t, dir.nodes, n);
      if !ok {
        return false;
      }
      RootStep(ctx, action, t0, t, dir.nodes, n, rest);
      rest := rest - {n};
    }
    return true;
  }

  /** The preflight loop over the roots. */
  method ScanRoots(dir: StateDir, ctx: Context, action: Action) returns (issues: seq<Path>)
    requires WellFormed(dir.nodes) && forall n :: n in ctx.roots ==> IsDir(dir.nodes, [n])
    ensures issues == [] <==>
      forall n :: n in ctx.roots ==> Everywhere(dir.nodes, [n], CleanAt(ctx, action, dir.nodes))
  {
    hide Everywhere, CleanAt;
    var rest := ctx.roots.Keys;
    issues := [];
    while rest != {}
      invariant rest <= ctx.roots.Keys
      invariant issues == [] <==> forall n :: n in ctx.roots && n !in rest ==>
                  Everywhere(dir.nodes, [n], CleanAt(ctx, action, dir.nodes))
      decreases |rest|
    {
      var n :| n in rest;
      var found := ScanDir(ctx, dir, [n], action);
      issues := issues + found;
      rest := rest - {n};
    }
  }

  /** The verification loop over the roots. */
  method VerifyRoots(dir: StateDir, ctx: Context, action: Action) returns (issues: seq<Path>)
    requires WellFormed(dir.nodes) && forall n :: n in ctx.roots ==> IsDir(dir.nodes, [n])
    ensures issues == [] <==>
      forall n :: n in ctx.roots ==>
        Everywhere(dir.nodes, [n], VerifiedAt(ctx, action, dir.nodes, dir.replaced))
  {
    hide Everywhere, VerifiedAt;
    var rest := ctx.roots.Keys;
    issues := [];
    while rest != {}
      invariant rest <= ctx.roots.Keys
      invariant issues == [] <==> forall n :: n in ctx.roots && n !in rest ==>
                  Everywhere(dir.nodes, [n], VerifiedAt(ctx, action, dir.nodes, dir.replaced))
      decreases |rest|
    {
      var n :| n in rest;
      var found := VerifyDir(ctx, dir, [n], action);
      issues := issues + found;
      rest := rest - {n};
    }
  }

  // ----- what the pieces say together

  lemma GovernedUnderRoot(t: Tree, q: Path)
    requires WellFormed(t) && q in t && Governed(q) && forall x :: !Unsupported(t, x)
    ensures q[0] in RootsOf(t) && [q[0]] <= q
  {
    hide PolicyFor;
    PrefixIsThere(t, [q[0]], q);
    assert !Unsupported(t, [q[0]]);
    RootIsListed(t, q[0]);
  }

  /** Every root is clean exactly when every governed entry is. */
  lemma RootsCleanIff(base: Context, action: Action, t: Tree)
    requires WellFormed(t) && forall x :: !Unsupported(t, x)
    ensures var ctx := ContextFor(base, t);
      (forall n :: n in ctx.roots ==> Everywhere(t, [n], CleanAt(ctx, action, t))) <==>
      (forall q :: q in t && Governed(q) ==> NodeClean(ctx, action, t, q))
  {
    hide NodeClean, PolicyFor;
    var ctx := ContextFor(base, t);
    forall n | n in ctx.roots ensures PolicyFor(n).Some? {
      RootIsListed(t, n);
    }
    forall q | q in t && Governed(q) ensures q[0] in ctx.roots && [q[0]] <= q {
      GovernedUnderRoot(t, q);
    }
  }

  lemma CleanIsEverywhere(ctx: Context, action: Action, t: Tree, n: string)
    ensures Everywhere(t, [n], CleanAt(ctx, action, t)) <==> Clean(ctx, action, t, [n])
  {
    hide NodeClean;
  }

  /** Two trees that differ in the config directory's own metadata at most. */
  predicate SameBelow(t: Tree, u: Tree) {
    t - {[]} == u - {[]}
  }

  lemma SameBelowEntry(t: Tree, u: Tree, q: Path)
    requires SameBelow(t, u) && q != []
    ensures (q in t <==> q in u) && (q in t ==> u[q] == t[q])
  {
    DiffersAtEntry(t, u, [], q);
  }

  /** After the removal, what is left to object to is exactly what lock cannot cope with. */
  lemma LockableIff(base: Context, t0: Tree, t: Tree)
    requires WellFormed(t0) && WellFormed(t) && SameBelow(t0, t)
    ensures WellFormed(Cleared(t)) ==>
      var u := Cleared(t);
      (Lockable(base, t0) <==>
        && (forall q :: Unsupported(t, q) ==> !t[q].Foreign?)
        && (forall q :: q in u && Governed(q) ==> NodeClean(ContextFor(base, u), Lock, u, q)))
  {
    hide PolicyFor;
    forall q | q != [] ensures (q in t <==> q in t0) && (q in t ==> t0[q] == t[q]) {
      SameBelowEntry(t0, t, q);
    }
    var u := Cleared(t);
    forall q | q in t && Governed(q)
      ensures NodeClean(base, Lock, t0, q) <==> NodeClean(ContextFor(base, u), Lock, t, q)
      ensures Unsupported(t, q) && !t[q].Foreign? ==> NodeClean(base, Lock, t0, q)
      ensures q in u ==> (NodeClean(ContextFor(base, u), Lock, t, q) <==> NodeClean(ContextFor(base, u), Lock, u, q))
    {
    }
  }

  /** A name of length one is a directory after mutation exactly when it was one before. */
  lemma TopDirsStay(t: Tree, u: Tree, n: string)
    requires Preserves(t, u) && !Unsupported(t, [n]) && PolicyFor(n).Some?
    ensures IsDir(u, [n]) <==> IsDir(t, [n])
    ensures [n] in u ==> IsDir(u, [n])
  {
    hide PolicyFor, OwnerBits;
    assert !IsCarveout([n]);
    if [n] in u {
      assert [n] in t;
      assert IsDir(t, [n]);
    }
  }

  /** Mutation leaves the set of roots alone. */
  lemma RootsStay(ctx: Context, t: Tree, u: Tree)
    requires Preserves(t, u) && forall x :: !Unsupported(t, x)
    ensures RootsOf(u) == RootsOf(t) && forall x :: !Unsupported(u, x)
  {
    hide PolicyFor, Preserves;
    forall n ensures n in RootsOf(u) <==> n in RootsOf(t) {
      RootIsListed(t, n);
      RootIsListed(u, n);
      if PolicyFor(n).Some? {
        TopDirsStay(t, u, n);
      }
    }
    forall x | x in u && |x| == 1 && Governed(x) ensures u[x].Dir? {
      assert x == [x[0]];
      TopDirsStay(t, u, x[0]);
    }
  }

  /** Mutation creates no directory beyond the depth limit. */
  lemma StaysShallow(ctx: Context, action: Action, t: Tree, u: Tree, n: string)
    requires Preserves(t, u) && Clean(ctx, action, t, [n])
    ensures forall q :: IsDir(u, q) && [n] <= q && !UnderCarveout(q) ==> |q| <= MAX_TRAVERSAL_DEPTH
  {
    hide IsAccepted, Sole, OwnerBits;
    forall q | IsDir(u, q) && [n] <= q && !UnderCarveout(q) ensures |q| <= MAX_TRAVERSAL_DEPTH {
      assert q in t;
      assert NodeClean(ctx, action, t, q);
    }
  }

  // ----- a whole action

  /** Every protected file has the mode the action gives it. */
  ghost predicate AllReset(ctx: Context, action: Action, t: Tree, u: Tree) {
    forall q :: q in t && Protected(ctx, q) ==> ModeReset(ctx, action, t, u, q)
  }

  /** What a successful transition achieved. */
  ghost predicate Achieved(ctx: Context, action: Action, t: Tree, u: Tree) {
    Right(ctx, action, u) && Shallow(u) && AllReset(ctx, action, t, u) && forall x :: !Unsupported(u, x)
  }

  lemma DoneIsRight(base: Context, action: Action, t: Tree, u: Tree)
    requires WellFormed(u) && RootsOf(u) == RootsOf(t) && (forall x :: !Unsupported(u, x))
    requires RootsDone(ContextFor(base, t), action, t, u, {})
    ensures Right(ContextFor(base, u), action, u)
  {
    hide NodeDone, PolicyFor, Reset;
    var ctx := ContextFor(base, t);
    forall q | q in u && Governed(q) ensures Protected(ctx, q) && NodeDone(ctx, action, u, q) {
      GovernedUnderRoot(u, q);
      assert AllOk(ctx, action, u, [q[0]]);
    }
  }

  lemma DoneIsShallow(base: Context, action: Action, t: Tree, u: Tree)
    requires WellFormed(u) && RootsOf(u) == RootsOf(t) && (forall x :: !Unsupported(u, x))
    requires Preserves(t, u)
    requires forall n :: n in RootsOf(t) ==> Clean(ContextFor(base, t), action, t, [n])
    ensures Shallow(u)
  {
    hide PolicyFor, Clean, Preserves;
    forall q | IsDir(u, q) && Governed(q) && !UnderCarveout(q) ensures |q| <= MAX_TRAVERSAL_DEPTH {
      GovernedUnderRoot(u, q);
      StaysShallow(ContextFor(base, t), action, t, u, q[0]);
    }
  }

  lemma DoneIsReset(ctx: Context, action: Action, t: Tree, u: Tree)
    requires RootsDone(ctx, action, t, u, {})
    ensures AllReset(ctx, action, t, u)
  {
    hide ModeReset, AllOk;
    forall q | q in t && Protected(ctx, q) ensures ModeReset(ctx, action, t, u, q) {
      assert Reset(ctx, action, t, u, [q[0]]) && [q[0]] <= q;
    }
  }

  lemma DoneIsAchieved(base: Context, action: Action, t: Tree, u: Tree)
    requires WellFormed(u) && Preserves(t, u)
    requires RootsOf(u) == RootsOf(t) && (forall x :: !Unsupported(u, x))
    requires RootsDone(ContextFor(base, t), action, t, u, {})
    requires forall n :: n in RootsOf(t) ==> Clean(ContextFor(base, t), action, t, [n])
    ensures Achieved(ContextFor(base, u), action, t, u)
  {
    hide Right, Shallow, AllReset, RootsDone, Preserves, Clean, PolicyFor;
    DoneIsRight(base, action, t, u);
    DoneIsShallow(base, action, t, u);
    DoneIsReset(ContextFor(base, t), action, t, u);
  }

  /** What the mutation loop leaves, the verification loop accepts. */
  lemma DoneIsVerified(ctx: Context, action: Action, dir: StateDir, t: Tree)
    requires Preserves(t, dir.nodes) && dir.Fresh() && RootsDone(ctx, action, t, dir.nodes, {})
    requires forall n :: n in ctx.roots ==> Clean(ctx, action, t, [n])
    ensures forall n :: n in ctx.roots ==>
      Everywhere(dir.nodes, [n], VerifiedAt(ctx, action, dir.nodes, dir.replaced))
  {
    hide AllOk, Clean, Preserves, Everywhere, VerifiedAt, Reset;
    forall n | n in ctx.roots
      ensures Everywhere(dir.nodes, [n], VerifiedAt(ctx, action, dir.nodes, dir.replaced))
    {
      StaysShallow(ctx, action, t, dir.nodes, n);
      MutatedIsVerified(ctx, action, dir, [n]);
    }
  }

  lemma RootsAreDirs(t: Tree)
    ensures forall n :: n in RootsOf(t) ==> IsDir(t, [n])
  {
    hide PolicyFor;
    forall n | n in RootsOf(t) ensures IsDir(t, [n]) {
      RootIsListed(t, n);
    }
  }

  /** Preflight, mutation and verification over the selected roots. Mutation and verification
      agree: an issue is reported exactly when preflight already finds something. */
  method Transition(dir: StateDir, base: Context, action: Action) returns (issues: seq<Path>)
    requires WellFormed(dir.nodes) && dir.Fresh()
    modifies dir
    ensures var t, ctx := old(dir.nodes), ContextFor(base, old(dir.nodes));
      && WellFormed(dir.nodes) && Preserves(t, dir.nodes) && Hardens(ctx, t, dir.nodes)
      && OutsideSame(ctx, t, dir.nodes) && dir.nodes[[]] == t[[]]
      && (issues == [] <==>
            (forall x :: !Unsupported(t, x)) &&
            (forall q :: q in t && Governed(q) ==> NodeClean(ctx, action, t, q)))
      && (issues == [] ==> ContextFor(base, dir.nodes) == ctx && Achieved(ctx, action, t, dir.nodes))
  {
    hide Preserves, Hardens, OutsideSame, NodeClean, Achieved, PolicyFor, Governed, RootsOf, OnlyUnder,
      RootsDone, Everywhere;
    ghost var t := dir.nodes;
    var roots, bad := SelectRoots(dir);
    var ctx := base.(roots := roots);
    RootsAreDirs(t);
    var found := ScanRoots(dir, ctx, action);
    issues := bad + found;
    if forall x :: !Unsupported(t, x) {
      RootsCleanIff(base, action, t);
    }
    if issues != [] {
      StageIsReflexive(ctx, t, []);
      assert OutsideSame(ctx, t, t) by { OutsideReflexive(ctx, t); }
      return;
    }
    forall n | n in ctx.roots ensures Clean(ctx, action, t, [n]) {
      CleanIsEverywhere(ctx, action, t, n);
    }
    var ok := MutateRoots(dir, ctx, action);
    RootsStay(ctx, t, dir.nodes);
    DoneIsVerified(ctx, action, dir, t);
    DoneIsAchieved(base, action, t, dir.nodes);
    var again, more := SelectRoots(dir);
    if !ok || again != roots || more != [] {
      return [[]];
    }
    RootsAreDirs(dir.nodes);
    issues := VerifyRoots(dir, ctx, action);
  }

  lemma OutsideReflexive(ctx: Context, t: Tree)
    ensures OutsideSame(ctx, t, t)
  {
  }

  /** Changing the config directory's own metadata. */
  method SetConfigDir(dir: StateDir, owner: Owner, mode: bv12)
    requires WellFormed(dir.nodes)
    modifies dir
    ensures dir.nodes == old(dir.nodes)[[] := Dir(owner, mode)] && dir.replaced == old(dir.replaced)
    ensures WellFormed(dir.nodes) && SameBelow(old(dir.nodes), dir.nodes)
  {
    ghost var t := dir.nodes;
    dir.nodes := dir.nodes[[] := Dir(owner, mode)];
    assert t - {[]} == dir.nodes - {[]};
    forall q | q in dir.nodes && q != [] ensures IsDir(dir.nodes, Parent(q)) {
      assert IsDir(t, Parent(q));
    }
  }

  lemma SameBelowItself(t: Tree)
    ensures SameBelow(t, t)
  {
  }

  /** What a whole action may have done to a tree: it keeps every governed file but those at
      root names, and touches nothing inside a carve-out, and nothing that is not governed
      except the config directory's own metadata. */
  ghost predicate Bounded(t: Tree, u: Tree) {
    && KeepsFiles(t, u)
    && forall q :: q != [] && (!Governed(q) || InsideCarveout(q)) ==>
         (q in t <==> q in u) && (q in t ==> u[q] == t[q])
  }

  lemma StepsKeepFiles(t0: Tree, t1: Tree, t: Tree, u: Tree, v: Tree)
    requires WellFormed(t0) && SameBelow(t0, t1) && PartlyCleared(t1, t) && Preserves(t, u) && SameBelow(u, v)
    ensures KeepsFiles(t0, v)
  {
    hide PolicyFor, OwnerBits, IsCarveout;
    forall q | q in t0 && t0[q].File? && !Unsupported(t0, q)
      ensures q in v && v[q].File? && v[q].data == t0[q].data && OwnerBits(v[q].mode) == OwnerBits(t0[q].mode)
    {
      SameBelowEntry(t0, t1, q);
      assert !Unsupported(t1, q);
      SameBelowEntry(u, v, q);
    }
  }

  lemma StepsStayInside(ctx: Context, t0: Tree, t1: Tree, t: Tree, u: Tree, v: Tree)
    requires SameBelow(t0, t1) && PartlyCleared(t1, t) && OutsideSame(ctx, t, u) && Preserves(t, u)
    requires ctx.roots == RootsOf(t) && SameBelow(u, v)
    ensures forall q :: q != [] && (!Governed(q) || InsideCarveout(q)) ==>
              (q in t0 <==> q in v) && (q in t0 ==> v[q] == t0[q])
  {
    hide PolicyFor, OwnerBits, IsCarveout;
    forall q | q != [] && (!Governed(q) || InsideCarveout(q))
      ensures (q in t0 <==> q in v) && (q in t0 ==> v[q] == t0[q])
    {
      SameBelowEntry(t0, t1, q);
      SameBelowEntry(u, v, q);
      assert !Unsupported(t1, q);
      if !InsideCarveout(q) {
        RootIsListed(t, q[0]);
      }
    }
  }

  /** Unlock: the transition alone. */
  method RunUnlock(dir: StateDir, base: Context) returns (issues: seq<Path>)
    requires WellFormed(dir.nodes) && dir.Fresh()
    modifies dir
    ensures WellFormed(dir.nodes) && Bounded(old(dir.nodes), dir.nodes)
    ensures issues == [] <==> Unlockable(base, old(dir.nodes))
    ensures issues == [] ==> Achieved(ContextFor(base, dir.nodes), Unlock, Cleared(old(dir.nodes)), dir.nodes)
    ensures issues == [] ==> OpenTo(dir.nodes, base.external, base.identity.sandbox)
  {
    hide Preserves, Hardens, OutsideSame, NodeClean, Achieved, PolicyFor, Governed, RootsOf, Bounded, OpenTo;
    ghost var t := dir.nodes;
    issues := Transition(dir, base, Unlock);
    SameBelowItself(t);
    SameBelowItself(dir.nodes);
    AllBounded(ContextFor(base, t), t, t, t, dir.nodes, dir.nodes);
    ClearedIsSame(t);
    if issues == [] {
      AchievedIsOpen(base, Cleared(t), dir.nodes);
    }
  }

  lemma ClearedIsSame(t: Tree)
    ensures (forall x :: !Unsupported(t, x)) ==> Cleared(t) == t
  {
    hide Governed;
  }

  /** Lock: close the config directory, remove what cannot be a root, transition, reopen. */
  method RunLock(dir: StateDir, base: Context, failClosed: bool) returns (issues: seq<Path>)
    requires WellFormed(dir.nodes) && dir.Fresh()
    modifies dir
    ensures WellFormed(dir.nodes) && Bounded(old(dir.nodes), dir.nodes)
    ensures issues == [] <==> Lockable(base, old(dir.nodes))
    ensures issues == [] ==> Achieved(ContextFor(base, dir.nodes), Lock, Cleared(old(dir.nodes)), dir.nodes)
    // In terms of owners and mode bits alone.
    ensures issues == [] && DistinctIds(base.identity) ==> ShutTo(dir.nodes, base.external, base.identity.sandbox)
    ensures issues == [] ==> SessionsOpenTo(dir.nodes, base.identity.sandbox)
    ensures failClosed ==>
      dir.nodes[[]] == Dir(base.identity.root, if issues == [] then MODE_0755 else MODE_0500)
  {
    hide Preserves, Hardens, OutsideSame, NodeClean, Achieved, PolicyFor, Governed, RootsOf, Lockable, Bounded,
         ShutTo, SessionsOpenTo;
    ghost var t0 := dir.nodes;
    if failClosed {
      SetConfigDir(dir, base.identity.root, MODE_0500);
    }
    ghost var t1 := dir.nodes;
    var ok := RemoveUnsupported(dir);
    LockableIff(base, t0, t1);
    ghost var t := dir.nodes;
    if !ok {
      NothingBounded(base, t0, t1, t);
      return [[]];
    }
    NoneUnsupported(t1);
    issues := Transition(dir, base, Lock);
    ghost var u := dir.nodes;
    if failClosed && issues == [] {
      SetConfigDir(dir, base.identity.root, MODE_0755);
    }
    AllBounded(ContextFor(base, t), t0, t1, t, u, dir.nodes);
    if issues == [] {
      AchievedBelow(base, Lock, t, u, Cleared(t0), dir.nodes);
      AchievedIsShut(base, Cleared(t0), dir.nodes);
    }
  }

  // ----- in terms of owners and mode bits

  /** The names and policies of the two lists are those of the specification. */
  lemma NamesArePolicies(q: Path)
    requires q != []
    ensures IsConfidential(q) <==> PolicyFor(q[0]) == Some(Confidentiality)
    ensures IsHighRisk(q) <==> PolicyFor(q[0]) == Some(HighRisk)
  {
    var n := q[0];
    assert "workspace-" <= n <==> |n| >= 10 && n[..10] == "workspace-";
    if IsConfidential(q) {
      assert n[0] != 'w' && !("workspace-" <= n);
    }
  }

  lemma NamesAreNotEmpty(q: Path)
    requires IsHighRisk(q) || IsConfidential(q)
    ensures q != []
  {
  }

  lemma AchievedIsShut(base: Context, before: Tree, t: Tree)
    requires Achieved(ContextFor(base, t), Lock, before, t)
    ensures DistinctIds(base.identity) ==> ShutTo(t, base.external, base.identity.sandbox)
    ensures SessionsOpenTo(t, base.identity.sandbox)
  {
    hide Right, Shallow, ShutTo, SessionsOpenTo;
    LockedIsShut(base, t);
    LockedSessionsAreOpen(base, t);
  }

  lemma AchievedIsOpen(base: Context, before: Tree, t: Tree)
    requires Achieved(ContextFor(base, t), Unlock, before, t)
    ensures OpenTo(t, base.external, base.identity.sandbox)
  {
    hide Right, Shallow, OpenTo;
    UnlockedIsOpen(base, t);
  }

  lemma LockedNodeIsShut(id: Identity, policy: Policy, n: Node)
    requires DistinctIds(id) && (n.Dir? || n.File? || n.Link?)
    requires n.owner == ExpectedOwner(id, policy, Lock)
    requires n.Dir? ==> n.mode == ExpectedDirMode(policy, Lock)
    requires n.File? ==> FileModeOk(policy, Lock, n.mode)
    ensures !MayWrite(n, id.sandbox) && (n.File? ==> n.mode & 0xE00 == 0)
    ensures policy == Confidentiality ==> !MayRead(n, id.sandbox) && n.owner.gid != id.sandbox.gid
    ensures policy == HighRisk ==>
      && n.owner.gid == id.sandbox.gid
      && (n.Dir? ==> Allowed(n, id.sandbox, Read) && Allowed(n, id.sandbox, Enter))
  {
  }

  lemma SoleIsAlone(ctx: Context, t: Tree, q: Path)
    requires q in t && HasInode(t[q]) && Sole(ctx, t, q)
    ensures Alone(t, ctx.external, q)
  {
  }

  /** What is right is singly linked. */
  lemma RightIsAlone(ctx: Context, action: Action, t: Tree, q: Path)
    requires q in t && Protected(ctx, q) && NodeOk(ctx, action, t, q) && !InsideCarveout(q)
    ensures t[q].Dir? || t[q].File? || t[q].Link?
    ensures HasInode(t[q]) ==> Alone(t, ctx.external, q)
  {
    hide Sole, Alone, IsPeerLink, Resolve;
    if HasInode(t[q]) {
      SoleIsAlone(ctx, t, q);
    }
  }

  lemma LockedIsShut(base: Context, t: Tree)
    requires Right(ContextFor(base, t), Lock, t) && Shallow(t)
    ensures DistinctIds(base.identity) ==> ShutTo(t, base.external, base.identity.sandbox)
  {
    hide ShutAt;
    if DistinctIds(base.identity) {
      forall q | q in t && (IsHighRisk(q) || IsConfidential(q)) && !InSessions(q)
        ensures ShutAt(t, base.external, base.identity.sandbox, q)
      {
        LockedIsShutAt(base, t, q);
      }
    }
  }

  lemma LockedIsShutAt(base: Context, t: Tree, q: Path)
    requires Right(ContextFor(base, t), Lock, t) && Shallow(t) && DistinctIds(base.identity)
    requires q in t && (IsHighRisk(q) || IsConfidential(q)) && !InSessions(q)
    ensures ShutAt(t, base.external, base.identity.sandbox, q)
  {
    hide PolicyFor, MayWrite, MayRead, Allowed, Sole, Alone, IsAccepted, IsHighRisk, IsConfidential;
    PolicyOfEntry(base, t, q);
    assert NodeDone(ContextFor(base, t), Lock, t, q);
    RightIsAlone(ContextFor(base, t), Lock, t, q);
    LockedNodeIsShut(base.identity, PolicyFor(q[0]).value, t[q]);
  }

  /** A protected entry that is right has the policy of its root name. */
  lemma PolicyOfEntry(base: Context, t: Tree, q: Path)
    requires Right(ContextFor(base, t), Lock, t) || Right(ContextFor(base, t), Unlock, t)
    requires q in t && (IsHighRisk(q) || IsConfidential(q))
    ensures q != [] && Governed(q) && Protected(ContextFor(base, t), q)
    ensures RootsOf(t)[q[0]] == PolicyFor(q[0]).value
    ensures IsConfidential(q) <==> PolicyFor(q[0]) == Some(Confidentiality)
    ensures IsHighRisk(q) <==> PolicyFor(q[0]) == Some(HighRisk)
  {
    hide NodeDone;
    NamesAreNotEmpty(q);
    NamesArePolicies(q);
    RootIsListed(t, q[0]);
  }

  lemma OpenNodeIsOpen(id: Identity, policy: Policy, n: Node)
    requires n.Dir? || n.File? || n.Link?
    requires n.owner == ExpectedOwner(id, policy, Unlock)
    requires n.Dir? ==> n.mode == ExpectedDirMode(policy, Unlock)
    ensures Owns(n, id.sandbox) && n.owner.gid == id.sandbox.gid
    ensures n.Dir? ==> forall a :: Allowed(n, id.sandbox, a)
  {
  }

  lemma UnlockedIsOpen(base: Context, t: Tree)
    requires Right(ContextFor(base, t), Unlock, t) && Shallow(t)
    ensures OpenTo(t, base.external, base.identity.sandbox)
  {
    hide OpenAt;
    forall q | q in t && (IsHighRisk(q) || IsConfidential(q)) && !(InSessions(q) && |q| > 3)
      ensures OpenAt(t, base.external, base.identity.sandbox, q)
    {
      UnlockedIsOpenAt(base, t, q);
    }
  }

  lemma UnlockedIsOpenAt(base: Context, t: Tree, q: Path)
    requires Right(ContextFor(base, t), Unlock, t) && Shallow(t)
    requires q in t && (IsHighRisk(q) || IsConfidential(q)) && !(InSessions(q) && |q| > 3)
    ensures OpenAt(t, base.external, base.identity.sandbox, q)
  {
    hide PolicyFor, Owns, Allowed, Sole, Alone, IsAccepted, IsHighRisk, IsConfidential;
    PolicyOfEntry(base, t, q);
    assert NodeDone(ContextFor(base, t), Unlock, t, q);
    RightIsAlone(ContextFor(base, t), Unlock, t, q);
    OpenNodeIsOpen(base.identity, PolicyFor(q[0]).value, t[q]);
  }

  lemma LockedSessionsAreOpen(base: Context, t: Tree)
    requires Right(ContextFor(base, t), Lock, t)
    ensures SessionsOpenTo(t, base.identity.sandbox)
  {
    hide Owns, Allowed, Sole, IsAccepted;
    forall id | ["agents", id] in t && t[["agents", id]].Dir? && id != "" && id != "." && id != ".."
      ensures var s := ["agents", id, "sessions"];
        && s in t && (t[s].Dir? || t[s].File?)
        && (t[s].Dir? ==> Owns(t[s], base.identity.sandbox) && forall a :: Allowed(t[s], base.identity.sandbox, a))
    {
      var p := ["agents", id];
      var s := ["agents", id, "sessions"];
      assert p + ["sessions"] == s;
      assert IsCarveoutParent(p) && IsCarveout(s) && Governed(p) && Governed(s);
      assert NodeDone(ContextFor(base, t), Lock, t, p);
      assert NodeDone(ContextFor(base, t), Lock, t, s);
      if t[s].Dir? {
        OpenNodeIsOpen(base.identity, ContextFor(base, t).roots["agents"], t[s]);
      }
    }
  }

  lemma NoneUnsupported(t: Tree)
    ensures forall x :: !Unsupported(Cleared(t), x)
  {
    hide Governed;
  }

  lemma AllBounded(ctx: Context, t0: Tree, t1: Tree, t: Tree, u: Tree, v: Tree)
    requires WellFormed(t0) && SameBelow(t0, t1) && PartlyCleared(t1, t) && Preserves(t, u)
    requires OutsideSame(ctx, t, u) && ctx.roots == RootsOf(t) && SameBelow(u, v)
    ensures Bounded(t0, v)
  {
    hide Preserves, OutsideSame, PartlyCleared, SameBelow, KeepsFiles;
    StepsKeepFiles(t0, t1, t, u, v);
    StepsStayInside(ctx, t0, t1, t, u, v);
  }

  lemma NothingBounded(base: Context, t0: Tree, t1: Tree, t: Tree)
    requires WellFormed(t0) && WellFormed(t) && SameBelow(t0, t1) && PartlyCleared(t1, t)
    ensures Bounded(t0, t)
  {
    hide PartlyCleared, SameBelow, Bounded;
    StageIsReflexive(ContextFor(base, t), t, []);
    OutsideReflexive(ContextFor(base, t), t);
    SameBelowItself(t);
    AllBounded(ContextFor(base, t), t0, t1, t, t, t);
  }

  /** The achievement does not depend on the config directory's own metadata. */
  lemma AchievedBelow(base: Context, action: Action, t: Tree, u: Tree, t': Tree, v: Tree)
    requires Achieved(ContextFor(base, u), action, t, u) && WellFormed(u)
    requires SameBelow(t, t') && SameBelow(u, v) && IsDir(v, [])
    ensures Achieved(ContextFor(base, v), action, t', v)
  {
    hide Right, Shallow, AllReset, WellFormed, SameBelow, PolicyFor, RootsOf;
    SameRootsBelow(u, v);
    RightBelow(ContextFor(base, u), action, u, v);
    ShallowBelow(u, v);
    ResetBelow(ContextFor(base, u), action, t, u, t', v);
  }

  lemma SameRootsBelow(u: Tree, v: Tree)
    requires SameBelow(u, v)
    ensures RootsOf(u) == RootsOf(v)
  {
    hide PolicyFor;
    forall n ensures n in RootsOf(u) <==> n in RootsOf(v) {
      RootIsListed(u, n);
      RootIsListed(v, n);
      SameBelowEntry(u, v, [n]);
    }
  }

  lemma RightBelow(ctx: Context, action: Action, u: Tree, v: Tree)
    requires Right(ctx, action, u) && WellFormed(u) && SameBelow(u, v) && IsDir(v, [])
    ensures Right(ctx, action, v)
  {
    hide NodeDone, PolicyFor, Hardens, Preserves;
    ChangeHardens(ctx, u, v, []);
    ChangePreserves(ctx, u, v, []);
    forall q | q in v && Governed(q) ensures Protected(ctx, q) && NodeDone(ctx, action, v, q) {
      SameBelowEntry(u, v, q);
      NodeDoneStays(ctx, action, u, v, q);
    }
  }

  lemma ShallowBelow(u: Tree, v: Tree)
    requires Shallow(u) && SameBelow(u, v) && forall x :: !Unsupported(u, x)
    ensures Shallow(v) && forall x :: !Unsupported(v, x)
  {
    hide PolicyFor;
    forall x | x != [] ensures Unsupported(u, x) == Unsupported(v, x) {
      SameBelowEntry(u, v, x);
    }
    forall q | IsDir(v, q) && Governed(q) && !UnderCarveout(q) ensures |q| <= MAX_TRAVERSAL_DEPTH {
      SameBelowEntry(u, v, q);
      assert IsDir(u, q);
    }
  }

  lemma ResetBelow(ctx: Context, action: Action, t: Tree, u: Tree, t': Tree, v: Tree)
    requires AllReset(ctx, action, t, u) && SameBelow(t, t') && SameBelow(u, v)
    ensures AllReset(ctx, action, t', v)
  {
    hide ExpectedFileMode;
    forall q | q in t' && Protected(ctx, q) ensures ModeReset(ctx, action, t', v, q) {
      SameBelowEntry(t, t', q);
      SameBelowEntry(u, v, q);
      assert ModeReset(ctx, action, t, u, q);
    }
  }

  /** A transition removes nothing but special entries and links the guard rejects. */
  lemma OnlyUnsafeIsRemoved(ctx: Context, t: Tree, u: Tree, q: Path)
    requires Preserves(t, u) && Hardens(ctx, t, u) && q in t && q !in u
    ensures t[q].Special? || (t[q].Link? && !IsAccepted(ctx, t, q))
  {
    hide IsAccepted, OwnerBits, IsCarveout;
    assert !IsDir(t, q);
  }

  // ----- lock, then unlock

  /** What a successful lock leaves is always ready to be unlocked. */
  lemma LockedIsUnlockable(base: Context, t: Tree)
    requires Right(ContextFor(base, t), Lock, t) && Shallow(t)
    requires forall x :: !Unsupported(t, x)
    ensures Unlockable(base, t)
  {
    hide Sole, IsAccepted, FileModeOk, ExpectedOwner, ExpectedDirMode, PolicyFor;
    var ctx := ContextFor(base, t);
    forall q | q in t && Governed(q) ensures NodeClean(ctx, Unlock, t, q) {
      assert NodeOk(ctx, Lock, t, q);
    }
  }

  lemma RoundTripKeeps(t0: Tree, t1: Tree, t2: Tree)
    requires Bounded(t0, t1) && Bounded(t1, t2) && forall x :: !Unsupported(t1, x)
    ensures KeepsFiles(t0, t2)
  {
    hide Governed, OwnerBits;
  }

  /** The round trip: a lock that reports no issue is always undone by an unlock that reports
      none. No regular file loses its path, its bytes or its owner's permission bits, and
      nothing outside the governed names changes. */
  method LockThenUnlock(dir: StateDir, base: Context, failClosed: bool)
    returns (locked: seq<Path>, unlocked: seq<Path>)
    requires WellFormed(dir.nodes) && dir.Fresh()
    modifies dir
    ensures locked == [] <==> Lockable(base, old(dir.nodes))
    ensures locked == [] ==> unlocked == [] && KeepsFiles(old(dir.nodes), dir.nodes)
    ensures locked == [] ==> Right(ContextFor(base, dir.nodes), Unlock, dir.nodes)
  {
    hide Right, Shallow, AllReset, PolicyFor, Lockable, Unlockable, NodeOk, NodeClean, Bounded, KeepsFiles, Governed;
    ghost var t0 := dir.nodes;
    locked := RunLock(dir, base, failClosed);
    ghost var t1 := dir.nodes;
    if locked != [] {
      return locked, locked;
    }
    LockedIsUnlockable(base, t1);
    dir.replaced := map[];
    unlocked := RunUnlock(dir, base);
    RoundTripKeeps(t0, t1, dir.nodes);
  }

  // ----- unlock, lock, unlock

  /** A governed regular file that is neither at a root name nor inside a carve-out. */
  predicate Tracked(t: Tree, q: Path) {
    q in t && t[q].File? && Governed(q) && |q| > 1 && !InsideCarveout(q)
  }

  /** A successful action gives every such file the mode of its policy. */
  lemma TrackedIsReset(base: Context, action: Action, t: Tree, u: Tree, q: Path)
    requires WellFormed(t) && WellFormed(u) && Bounded(t, u) && Tracked(t, q)
    requires Achieved(ContextFor(base, u), action, Cleared(t), u)
    ensures Tracked(u, q) && u[q].mode == ExpectedFileMode(PolicyFor(q[0]).value, action, t[q].mode)
  {
    hide PolicyFor, ExpectedFileMode, Right, Shallow;
    assert !Unsupported(t, q);
    assert q in u && u[q].File?;
    AncestorsAreDirs(u, q, 1);
    assert q[..1] == [q[0]];
    RootIsListed(u, q[0]);
    assert ModeReset(ContextFor(base, u), action, Cleared(t), u, q);
  }

  /** What a successful unlock leaves is always ready to be locked. */
  lemma UnlockedIsLockable(base: Context, t: Tree)
    requires Right(ContextFor(base, t), Unlock, t) && Shallow(t)
    ensures Lockable(base, t)
  {
    hide Sole, IsAccepted, FileModeOk, ExpectedOwner, ExpectedDirMode, PolicyFor;
    var ctx := ContextFor(base, t);
    forall q | q in t && Governed(q) ensures NodeClean(base, Lock, t, q) {
      assert NodeOk(ctx, Unlock, t, q);
    }
  }

  /** unlock, lock, unlock. If the first reports no issue, neither do the others, and a regular
      file ends with the mode of the first unlock exactly if it lies under a high-risk root, or
      its owner could execute it if anybody could. */
  method UnlockLockUnlockTree(dir: StateDir, base: Context, failClosed: bool)
    returns (first: seq<Path>, second: seq<Path>, third: seq<Path>)
    requires WellFormed(dir.nodes) && dir.Fresh()
    modifies dir
    ensures first == [] <==> Unlockable(base, old(dir.nodes))
    ensures first == [] ==> second == [] && third == []
    ensures first == [] ==> forall q :: Tracked(old(dir.nodes), q) ==> ModeReturns(old(dir.nodes), dir.nodes, q)
  {
    hide Right, Shallow, AllReset, PolicyFor, Lockable, Unlockable, Bounded, KeepsFiles, Governed, Tracked,
         ModeReturns, Cleared, RootsOf;
    ghost var t := dir.nodes;
    first := RunUnlock(dir, base);
    if first != [] {
      return first, first, first;
    }
    ghost var u := dir.nodes;
    UnlockedIsLockable(base, u);
    dir.replaced := map[];
    second := RunLock(dir, base, failClosed);
    ghost var v := dir.nodes;
    LockedIsUnlockable(base, v);
    dir.replaced := map[];
    third := RunUnlock(dir, base);
    ThreeModes(base, t, u, v, dir.nodes);
  }

  lemma ThreeModes(base: Context, t: Tree, u: Tree, v: Tree, w: Tree)
    requires WellFormed(t) && WellFormed(u) && WellFormed(v) && WellFormed(w)
    requires Bounded(t, u) && Bounded(u, v) && Bounded(v, w)
    requires Achieved(ContextFor(base, u), Unlock, Cleared(t), u)
    requires Achieved(ContextFor(base, v), Lock, Cleared(u), v)
    requires Achieved(ContextFor(base, w), Unlock, Cleared(v), w)
    ensures forall q :: Tracked(t, q) ==> ModeReturns(t, w, q)
  {
    hide WellFormed, Bounded, Achieved, Tracked;
    forall q | Tracked(t, q) ensures ModeReturns(t, w, q) {
      TrackedIsReset(base, Unlock, t, u, q);
      TrackedIsReset(base, Lock, u, v, q);
      TrackedIsReset(base, Unlock, v, w, q);
      TrackedIsGoverned(t, q);
      TrackedIsGoverned(w, q);
      UnlockLockUnlock(PolicyFor(q[0]).value, t[q].mode);
    }
  }

  lemma TrackedIsGoverned(t: Tree, q: Path)
    requires Tracked(t, q)
    ensures q != [] && PolicyFor(q[0]).Some? && q in t && t[q].File?
  {
  }

  /** The file is still there, and has the mode of one unlock exactly under this condition. */
  predicate ModeReturns(t: Tree, u: Tree, q: Path)
    requires Tracked(t, q)
  {
    var policy := PolicyFor(q[0]).value;
    && q in u && u[q].File?
    && (u[q].mode == Unlocked(policy, t[q].mode) <==>
          policy == HighRisk || t[q].mode & MODE_0111 == 0 || t[q].mode & 0x040 != 0)
  }
}
