/** Pathname resolution as the kernel does it (section 4.13 of the POSIX.1-2017 Base
    Definitions), and when the guard's lexical walk agrees with it. */
module PosixResolution {
  import opened Basics
  import opened StateTree
  import opened LinkResolution

  predicate Plain(c: string) {
    c != "" && c != "." && c != ".."
  }

  predicate AllPlain(p: seq<string>) {
    forall c :: c in p ==> Plain(c)
  }

  /** What is known at an absolute path: the directories leading to the config directory,
      and the tree below it. */
  function Lookup(ctx: Context, t: Tree, q: Path): Option<Node> {
    if ctx.configPath <= q then
      var below := q[|ctx.configPath|..];
      if below in t then Some(t[below]) else None
    else if q <= ctx.configPath then Some(Dir(ctx.identity.root, 0))
    else None
  }

  /** The kernel at the directory at, with these components still to resolve and this many
      links still allowed. None is an error, or an object outside the known tree. */
  function Kernel(ctx: Context, t: Tree, at: Path, parts: seq<string>, left: nat): Option<Path>
    decreases left, |parts|
  {
    if parts == [] then Some(at)
    else
      var c, rest := parts[0], parts[1..];
      if c == "" || c == "." then Kernel(ctx, t, at, rest, left)
      else if c == ".." then Kernel(ctx, t, if at == [] then [] else Parent(at), rest, left)
      else
        var q := at + [c];
        var node :- Lookup(ctx, t, q);
        match node
        case Dir(_, _) => Kernel(ctx, t, q, rest, left)
        case File(_, _, _, _) => if rest == [] then Some(q) else None
        case Special(_) => if rest == [] then Some(q) else None
        case Foreign => None
        case Link(_, _, target) =>
          if left == 0 then None
          else Kernel(ctx, t, if IsAbsolute(target) then [] else at, Split(target) + rest, left - 1)
  }

  predicate StandsOn(ctx: Context, t: Tree, at: Path) {
    Lookup(ctx, t, at).Some? && Lookup(ctx, t, at).value.Dir?
  }

  /** What a target rests on, read from the directory at. Firm: every name with dots, or
      with a doubled or trailing slash, somewhere after it is a real directory. Otherwise the
      first name for which that fails is a link, or it is none. */
  datatype Footing = Firm | OnLink | Broken

  function FootingOf(ctx: Context, t: Tree, at: Path, parts: seq<string>): Footing
    decreases |parts|
  {
    if AllPlain(parts) then Firm
    else
      var c, rest := parts[0], parts[1..];
      if c == "" || c == "." then FootingOf(ctx, t, at, rest)
      else if c == ".." then FootingOf(ctx, t, if at == [] then [] else Parent(at), rest)
      else if StandsOn(ctx, t, at + [c]) then FootingOf(ctx, t, at + [c], rest)
      else if Lookup(ctx, t, at + [c]).Some? && Lookup(ctx, t, at + [c]).value.Link? then OnLink
      else Broken
  }

  /** Where the kernel stands when it starts on the target of a link in base. */
  function Origin(ctx: Context, base: Path, target: string): Path {
    if IsAbsolute(target) then [] else ctx.configPath + base
  }

  /** The footing of the targets expanded on the chain from x: of the first that is not firm. */
  function ChainFooting(ctx: Context, t: Tree, x: Path, left: nat): Footing
    requires x != []
    decreases left
  {
    var stop := Probe(ctx, t, x, 0);
    if stop.AtLink? && left > 0 then
      var target := t[x[..stop.index + 1]].target;
      var footing := FootingOf(ctx, t, Origin(ctx, x[..stop.index], target), Split(target));
      if footing == Firm && Expansion(ctx, t, x, stop.index).Some?
      then ChainFooting(ctx, t, Expansion(ctx, t, x, stop.index).value, left - 1) else footing
    else Firm
  }

  /** The object at which the walk comes to rest. */
  function Destination(ctx: Context, t: Tree, x: Path, left: nat): Path
    requires x != []
    decreases left
  {
    var stop := Probe(ctx, t, x, 0);
    if stop.AtLink? && left > 0 && Expansion(ctx, t, x, stop.index).Some?
    then Destination(ctx, t, Expansion(ctx, t, x, stop.index).value, left - 1)
    else x
  }

  /** What an accepted chain ends in. */
  predicate SafeObject(ctx: Context, t: Tree, f: Path) {
    && f in t && Protected(ctx, f) && !UnderCarveout(f)
    && (t[f].Dir? || (t[f].File? && Sole(ctx, t, f)))
  }

  lemma {:induction false} ProbeReached(ctx: Context, t: Tree, x: Path, i: nat)
    requires i < |x| && Probe(ctx, t, x, i) == Reached
    ensures x in t && (t[x].Dir? || (t[x].File? && Sole(ctx, t, x)))
    decreases |x| - i
  {
    if i + 1 < |x| {
      ProbeReached(ctx, t, x, i + 1);
    } else {
      assert x[..i + 1] == x;
    }
  }

  lemma {:induction false} DestinationIsSafe(ctx: Context, t: Tree, x: Path, seen: set<Path>, left: nat)
    requires x != [] && Protected(ctx, x) && !UnderCarveout(x)
    requires Walk(ctx, t, x, seen, left) == Accepted
    ensures SafeObject(ctx, t, Destination(ctx, t, x, left))
    decreases left
  {
    hide Sole, Normalize;
    var stop := Probe(ctx, t, x, 0);
    if stop.AtLink? {
      WalkAtLink(ctx, t, x, seen, left, stop.index);
      DestinationIsSafe(ctx, t, Expansion(ctx, t, x, stop.index).value, seen + {x}, left - 1);
    } else {
      ProbeReached(ctx, t, x, 0);
    }
  }

  // ----- lexical and physical steps agree on firm targets

  lemma {:induction false} CollapsePlain(base: Path, parts: seq<string>, absolute: bool)
    requires AllPlain(parts)
    ensures Collapse(base, parts, absolute) == Some(base + parts)
    decreases |parts|
  {
    if parts == [] {
      assert base + parts == base;
    } else {
      assert Plain(parts[0]);
      CollapsePlain(base + [parts[0]], parts[1..], absolute);
      assert base + [parts[0]] + parts[1..] == base + parts;
    }
  }

  lemma {:induction false} CollapseStaysPlain(base: Path, parts: seq<string>, absolute: bool)
    requires AllPlain(base)
    ensures Collapse(base, parts, absolute).Some? ==> AllPlain(Collapse(base, parts, absolute).value)
    decreases |parts|
  {
    if parts != [] {
      var c, rest := parts[0], parts[1..];
      if c == "" || c == "." {
        CollapseStaysPlain(base, rest, absolute);
      } else if c != ".." {
        CollapseStaysPlain(base + [c], rest, absolute);
      } else if base != [] {
        CollapseStaysPlain(Parent(base), rest, absolute);
      } else {
        CollapseStaysPlain([], rest, absolute);
      }
    }
  }

  lemma NormalizeStaysPlain(ctx: Context, parent: Path, target: string)
    requires AllPlain(parent)
    ensures Normalize(ctx, parent, target).Some? ==> AllPlain(Normalize(ctx, parent, target).value)
  {
    CollapseStaysPlain(parent, Split(target), false);
    CollapseStaysPlain([], Split(target), true);
  }

  /** Every directory on the way to at is known to be one. */
  predicate WayStands(ctx: Context, t: Tree, at: Path) {
    forall i :: 0 <= i <= |at| ==> StandsOn(ctx, t, at[..i])
  }

  /** A firm target: the kernel gets to stand on a real directory from where only plain
      components remain, and the lexical result says the same. */
  lemma {:induction false} FirmStepsAlike(ctx: Context, t: Tree, at: Path, parts: seq<string>, rest: Path, left: nat)
    returns (b: Path)
    requires FootingOf(ctx, t, at, parts) == Firm && WayStands(ctx, t, at)
    ensures Collapse(at, parts, true).Some? && b <= Collapse(at, parts, true).value && WayStands(ctx, t, b)
    ensures var e := Collapse(at, parts, true).value;
      Kernel(ctx, t, at, parts + rest, left) == Kernel(ctx, t, b, e[|b|..] + rest, left)
    decreases |parts|
  {
    if AllPlain(parts) {
      b := at;
      CollapsePlain(at, parts, true);
      assert (at + parts)[|at|..] == parts;
    } else {
      var c := parts[0];
      assert (parts + rest)[1..] == parts[1..] + rest;
      var to := if c == "" || c == "." then at
                else if c == ".." then if at == [] then [] else Parent(at)
                else at + [c];
      forall i | 0 <= i <= |to| ensures StandsOn(ctx, t, to[..i]) {
        assert to[..i] == if i <= |at| then at[..i] else at + [c];
      }
      b := FirmStepsAlike(ctx, t, to, parts[1..], rest, left);
    }
  }

  /** A target that breaks on a name that is no link is an error to the kernel. */
  lemma {:induction false} BrokenFails(ctx: Context, t: Tree, at: Path, parts: seq<string>, rest: Path, left: nat)
    requires FootingOf(ctx, t, at, parts) == Broken
    ensures Kernel(ctx, t, at, parts + rest, left) == None
    decreases |parts|
  {
    var c := parts[0];
    assert (parts + rest)[1..] == parts[1..] + rest;
    if c == "" || c == "." {
      BrokenFails(ctx, t, at, parts[1..], rest, left);
    } else if c == ".." {
      BrokenFails(ctx, t, if at == [] then [] else Parent(at), parts[1..], rest, left);
    } else if StandsOn(ctx, t, at + [c]) {
      BrokenFails(ctx, t, at + [c], parts[1..], rest, left);
    } else {
      assert parts == [c] + parts[1..];
    }
  }

  /** Collapsing below the config directory and collapsing the whole path are the same. */
  lemma {:induction false} CollapseBelow(c: Path, base: Path, parts: seq<string>)
    requires Collapse(base, parts, false).Some?
    ensures Collapse(c + base, parts, true) == Some(c + Collapse(base, parts, false).value)
    decreases |parts|
  {
    if parts != [] {
      var n, rest := parts[0], parts[1..];
      if n == "" || n == "." {
        CollapseBelow(c, base, rest);
      } else if n != ".." {
        assert c + base + [n] == c + (base + [n]);
        CollapseBelow(c, base + [n], rest);
      } else {
        assert Parent(c + base) == c + Parent(base);
        CollapseBelow(c, Parent(base), rest);
      }
    }
  }

  /** The kernel walks through directories it knows one name at a time. */
  lemma {:induction false} DescendsThrough(ctx: Context, t: Tree, at: Path, names: Path, rest: Path, left: nat)
    requires AllPlain(names)
    requires forall i :: 0 < i <= |names| ==>
      Lookup(ctx, t, at + names[..i]).Some? && Lookup(ctx, t, at + names[..i]).value.Dir?
    ensures Kernel(ctx, t, at, names + rest, left) == Kernel(ctx, t, at + names, rest, left)
    decreases |names|
  {
    if names == [] {
      assert names + rest == rest && at + names == at;
    } else {
      var at', tail := at + [names[0]], names[1..];
      assert names[..1] == [names[0]] && at + names[..1] == at' && Plain(names[0]);
      assert (names + rest)[1..] == tail + rest && at' + tail == at + names;
      forall i | 0 < i <= |tail|
        ensures Lookup(ctx, t, at' + tail[..i]).Some? && Lookup(ctx, t, at' + tail[..i]).value.Dir?
      {
        assert names[..i + 1] == [names[0]] + tail[..i];
        assert at' + tail[..i] == at + names[..i + 1];
      }
      DescendsThrough(ctx, t, at', tail, rest, left);
    }
  }

  /** From an ancestor of the config directory, the kernel passes into it. */
  lemma EntersConfig(ctx: Context, t: Tree, at: Path, e: Path, rest: Path, left: nat)
    requires AllPlain(ctx.configPath) && at <= ctx.configPath <= e && IsDir(t, [])
    ensures Kernel(ctx, t, at, e[|at|..] + rest, left)
            == Kernel(ctx, t, ctx.configPath, e[|ctx.configPath|..] + rest, left)
  {
    var c := ctx.configPath;
    var names, below := c[|at|..], e[|c|..] + rest;
    assert e[|at|..] + rest == names + below && at + names == c;
    ConfigStands(ctx, t);
    forall i | 0 < i <= |names|
      ensures Lookup(ctx, t, at + names[..i]).Some? && Lookup(ctx, t, at + names[..i]).value.Dir?
    {
      assert at + names[..i] == c[..|at| + i];
    }
    DescendsThrough(ctx, t, at, names, below, left);
  }

  lemma ConfigStands(ctx: Context, t: Tree)
    requires IsDir(t, [])
    ensures WayStands(ctx, t, ctx.configPath)
  {
    var c := ctx.configPath;
    forall i | 0 <= i <= |c| ensures StandsOn(ctx, t, c[..i]) {
      if i == |c| {
        assert c[..i] == c && c[|c|..] == [];
      } else {
        assert c[..i] <= c && |c[..i]| < |c|;
      }
    }
  }

  /** Below the config directory, what stands is a directory of the tree, and conversely. */
  lemma WayStandsBelow(ctx: Context, t: Tree, base: Path)
    requires IsDir(t, [])
    ensures WayStands(ctx, t, ctx.configPath + base) <==> DirsTo(t, base, |base|)
  {
    var c := ctx.configPath;
    ConfigStands(ctx, t);
    forall j | 0 <= j <= |base| ensures StandsOn(ctx, t, c + base[..j]) <==> IsDir(t, base[..j]) {
      assert c <= c + base[..j] && (c + base[..j])[|c|..] == base[..j];
    }
    if DirsTo(t, base, |base|) {
      forall i | 0 <= i <= |c + base| ensures StandsOn(ctx, t, (c + base)[..i]) {
        assert (c + base)[..i] == if i <= |c| then c[..i] else c + base[..i - |c|];
      }
    }
    if WayStands(ctx, t, c + base) {
      forall j | 0 <= j <= |base| ensures IsDir(t, base[..j]) {
        assert (c + base)[..|c| + j] == c + base[..j];
      }
    }
  }

  predicate DirsTo(t: Tree, x: Path, i: nat)
    requires i <= |x|
  {
    forall j :: 0 <= j <= i ==> IsDir(t, x[..j])
  }

  // ----- the agreement

  /** The kernel, standing anywhere along the real directories at the start of x, ends where
      the walk from x ends if the chain is firm, and fails if it breaks. */
  lemma {:induction false} KernelFollowsWalk(ctx: Context, t: Tree, x: Path, i: nat, seen: set<Path>, left: nat,
                                             allowed: nat)
    requires x != [] && i <= |x| && AllPlain(x) && AllPlain(ctx.configPath) && DirsTo(t, x, i)
    requires Walk(ctx, t, x, seen, left) == Accepted && ChainFooting(ctx, t, x, left) != OnLink && left <= allowed
    ensures Kernel(ctx, t, ctx.configPath + x[..i], x[i..], allowed)
            == if ChainFooting(ctx, t, x, left) == Firm then Some(ctx.configPath + Destination(ctx, t, x, left))
               else None
    decreases left, |x| - i
  {
    hide UnderCarveout, Normalize;
    ProbeSkipsDirs(ctx, t, x, i);
    if i == |x| {
      assert x[..i] == x;
    } else {
      var q := x[..i + 1];
      assert Plain(x[i]);
      KernelSteps(ctx, t, x, i, allowed);
      if IsDir(t, q) {
        assert DirsTo(t, x, i + 1);
        KernelFollowsWalk(ctx, t, x, i + 1, seen, left, allowed);
      } else if t[q].Link? {
        WalkAtLink(ctx, t, x, seen, left, i);
        KernelExpands(ctx, t, x, i, seen, left, allowed);
      } else {
        assert i + 1 == |x| && q == x;
      }
    }
  }

  /** One plain component: into a directory, or onto the last name. */
  lemma KernelSteps(ctx: Context, t: Tree, x: Path, i: nat, allowed: nat)
    requires i < |x| && Plain(x[i])
    ensures IsDir(t, x[..i + 1]) ==>
      Kernel(ctx, t, ctx.configPath + x[..i], x[i..], allowed)
      == Kernel(ctx, t, ctx.configPath + x[..i + 1], x[i + 1..], allowed)
    ensures i + 1 == |x| && x in t && t[x].File? ==>
      Kernel(ctx, t, ctx.configPath + x[..i], x[i..], allowed) == Some(ctx.configPath + x)
  {
    var c, q := ctx.configPath, x[..i + 1];
    assert c + x[..i] + [x[i]] == c + q && (c + q)[|c|..] == q;
    assert x[i..][0] == x[i] && x[i..][1..] == x[i + 1..];
    if i + 1 == |x| {
      assert q == x;
    }
  }

  lemma {:induction false} ProbeSkipsDirs(ctx: Context, t: Tree, x: Path, i: nat)
    requires x != [] && i <= |x| && DirsTo(t, x, i)
    ensures i < |x| ==> Probe(ctx, t, x, 0) == Probe(ctx, t, x, i)
    ensures i == |x| ==> Probe(ctx, t, x, 0) == Reached
  {
    if i > 0 {
      ProbeSkipsDirs(ctx, t, x, i - 1);
      assert IsDir(t, x[..i - 1 + 1]);
    }
  }

  /** Reading a link replaces it by its target, from the root or from where the link is. */
  lemma KernelReadsLink(ctx: Context, t: Tree, x: Path, i: nat, allowed: nat)
    requires i < |x| && Plain(x[i]) && x[..i + 1] in t && t[x[..i + 1]].Link? && allowed > 0
    ensures var target := t[x[..i + 1]].target;
      Kernel(ctx, t, ctx.configPath + x[..i], x[i..], allowed)
      == Kernel(ctx, t, if IsAbsolute(target) then [] else ctx.configPath + x[..i],
                Split(target) + x[i + 1..], allowed - 1)
  {
    var c, q := ctx.configPath, x[..i + 1];
    assert x[i..][0] == x[i] && x[i..][1..] == x[i + 1..];
    assert c + x[..i] + [x[i]] == c + q && (c + q)[|c|..] == q;
  }

  /** The step at a link. */
  lemma {:induction false} KernelExpands(ctx: Context, t: Tree, x: Path, i: nat, seen: set<Path>, left: nat,
                                         allowed: nat)
    requires i < |x| && AllPlain(x) && AllPlain(ctx.configPath) && DirsTo(t, x, i)
    requires Walk(ctx, t, x, seen, left) == Accepted && ChainFooting(ctx, t, x, left) != OnLink && left <= allowed
    requires Probe(ctx, t, x, 0) == AtLink(i) && left > 0
    ensures Kernel(ctx, t, ctx.configPath + x[..i], x[i..], allowed)
            == if ChainFooting(ctx, t, x, left) == Firm then Some(ctx.configPath + Destination(ctx, t, x, left))
               else None
    decreases left, |x| - i, 0
  {
    hide Kernel, Normalize, UnderCarveout, Sole, FootingOf;
    WalkAtLink(ctx, t, x, seen, left, i);
    assert Plain(x[i]);
    KernelReadsLink(ctx, t, x, i, allowed);
    var target := t[x[..i + 1]].target;
    NormalizeStaysPlain(ctx, x[..i], target);
    var next := Expansion(ctx, t, x, i).value;
    if FootingOf(ctx, t, Origin(ctx, x[..i], target), Split(target)) == Broken {
      BrokenFails(ctx, t, Origin(ctx, x[..i], target), Split(target), x[i + 1..], allowed - 1);
    } else {
      forall j | 0 <= j <= i ensures IsDir(t, x[..i][..j]) {
        assert x[..i][..j] == x[..j];
      }
      var b := LandsOnWalk(ctx, t, x[..i], target, x[i + 1..], allowed - 1);
      KernelFollowsWalk(ctx, t, next, |b|, seen + {x}, left - 1, allowed - 1);
    }
  }

  lemma NormalizeIsCollapse(ctx: Context, base: Path, target: string)
    requires Normalize(ctx, base, target).Some?
    ensures Collapse(Origin(ctx, base, target), Split(target), true)
            == Some(ctx.configPath + Normalize(ctx, base, target).value)
  {
    if IsAbsolute(target) {
      var whole := Collapse([], Split(target), true).value;
      assert whole == ctx.configPath + whole[|ctx.configPath|..];
    } else {
      CollapseBelow(ctx.configPath, base, Split(target));
    }
  }

  lemma ShortPrefix(landed: Path, c: Path, e: Path)
    requires landed <= c + e && |landed| <= |c|
    ensures landed <= c
  {
    assert landed == (c + e)[..|landed|];
  }

  /** A prefix of a path that is no prefix of the first part ends in the second. */
  lemma BelowConfig(landed: Path, c: Path, e: Path)
    requires landed <= c + e && !(landed <= c)
    ensures |c| <= |landed|
    ensures var b := landed[|c|..]; landed == c + b && b <= e && (c + e)[|landed|..] == e[|b|..]
  {
    if |landed| <= |c| {
      ShortPrefix(landed, c, e);
    }
    var b := landed[|c|..];
    assert landed == (c + e)[..|landed|] && landed[..|c|] == c;
    assert b == e[..|b|];
  }

  /** After reading a firm target the kernel gets to stand on a real directory along the path
      the walk restarts from. */
  lemma LandsOnWalk(ctx: Context, t: Tree, base: Path, target: string, rest: Path, left: nat) returns (b: Path)
    requires AllPlain(ctx.configPath) && DirsTo(t, base, |base|)
    requires FootingOf(ctx, t, Origin(ctx, base, target), Split(target)) == Firm
    requires Normalize(ctx, base, target).Some?
    ensures var next := Normalize(ctx, base, target).value + rest;
      && b <= next && DirsTo(t, next, |b|)
      && Kernel(ctx, t, Origin(ctx, base, target), Split(target) + rest, left)
         == Kernel(ctx, t, ctx.configPath + next[..|b|], next[|b|..], left)
  {
    hide Kernel, FootingOf, Split, Lookup, Normalize, Collapse;
    var c, at, parts := ctx.configPath, Origin(ctx, base, target), Split(target);
    var e := Normalize(ctx, base, target).value;
    var next := e + rest;
    assert base[..0] == [] && IsDir(t, []);
    OriginStands(ctx, t, base, target);
    var landed := FirmStepsAlike(ctx, t, at, parts, rest, left);
    NormalizeIsCollapse(ctx, base, target);
    if landed <= c {
      EntersConfig(ctx, t, landed, c + e, rest, left);
      b := [];
      assert (c + e)[|c|..] == e && next[..0] == [] && next[0..] == next && c + [] == c;
    } else {
      BelowConfig(landed, c, e);
      b := landed[|c|..];
      WayStandsBelow(ctx, t, b);
      assert next == b + (e[|b|..] + rest);
      forall j | 0 <= j <= |b| ensures IsDir(t, next[..j]) {
        assert next[..j] == b[..j];
      }
    }
  }

  lemma OriginStands(ctx: Context, t: Tree, base: Path, target: string)
    requires DirsTo(t, base, |base|)
    ensures WayStands(ctx, t, Origin(ctx, base, target))
  {
    assert base[..0] == [] && IsDir(t, []);
    ConfigStands(ctx, t);
    WayStandsBelow(ctx, t, base);
    assert ctx.configPath[..0] == [] && StandsOn(ctx, t, ctx.configPath[..0]);
  }

  /** The footing of a link's target and of the chain it starts. */
  function LinkFooting(ctx: Context, t: Tree, base: Path, target: string): Footing
    requires Normalize(ctx, base, target).Some? && Normalize(ctx, base, target).value != []
  {
    var footing := FootingOf(ctx, t, Origin(ctx, base, target), Split(target));
    if footing == Firm then ChainFooting(ctx, t, Normalize(ctx, base, target).value, MAX_SYMLINK_EXPANSIONS)
    else footing
  }

  /** Soundness of the resolver: when it accepts the target of a link at l, the object at which
      the walk ends is a directory or a singly linked regular file of this file system,
      protected, and not in a sessions carve-out. Unless some target on the chain has dots after
      a name that is a link, the kernel resolves the target to that very object, within the same
      number of links, exactly if every name with dots after it is a real directory, and to none
      otherwise. */
  lemma AcceptedLinkResolvesAlikeIff(ctx: Context, t: Tree, l: Path, target: string)
    requires l != [] && AllPlain(l) && AllPlain(ctx.configPath) && DirsTo(t, l, |l| - 1)
    requires Resolve(ctx, t, l, target) == Accepted
    requires LinkFooting(ctx, t, Parent(l), target) != OnLink
    ensures var f := Destination(ctx, t, Normalize(ctx, Parent(l), target).value, MAX_SYMLINK_EXPANSIONS);
      var end := Kernel(ctx, t, Origin(ctx, Parent(l), target), Split(target), 40);
      && SafeObject(ctx, t, f)
      && (end == Some(ctx.configPath + f) <==> LinkFooting(ctx, t, Parent(l), target) == Firm)
      && (end == None <==> LinkFooting(ctx, t, Parent(l), target) == Broken)
  {
    hide Kernel, FootingOf;
    var base, left := Parent(l), MAX_SYMLINK_EXPANSIONS;
    NormalizeStaysPlain(ctx, base, target);
    var x := Normalize(ctx, base, target).value;
    DestinationIsSafe(ctx, t, x, {}, left);
    forall j | 0 <= j <= |base| ensures IsDir(t, base[..j]) {
      assert base[..j] == l[..j];
    }
    assert Split(target) + [] == Split(target) && x + [] == x;
    if FootingOf(ctx, t, Origin(ctx, base, target), Split(target)) == Firm {
      var b := LandsOnWalk(ctx, t, base, target, [], left);
      KernelFollowsWalk(ctx, t, x, |b|, {}, left, left);
    } else {
      BrokenFails(ctx, t, Origin(ctx, base, target), Split(target), [], left);
    }
  }

  /** Dots only as a leading run: firm wherever the link is. */
  predicate Tidy(parts: seq<string>) {
    if parts == [] then true
    else if Plain(parts[0]) then AllPlain(parts)
    else Tidy(parts[1..])
  }

  lemma {:induction false} TidyIsFirm(ctx: Context, t: Tree, at: Path, parts: seq<string>)
    requires Tidy(parts)
    ensures FootingOf(ctx, t, at, parts) == Firm
    decreases |parts|
  {
    if parts != [] && !Plain(parts[0]) {
      TidyIsFirm(ctx, t, at, parts[1..]);
      if at != [] {
        TidyIsFirm(ctx, t, Parent(at), parts[1..]);
      }
    }
  }

  // ----- everything that is accepted

  /** A letter or digit by its ASCII code. */
  predicate IsLetterOrDigit(c: char) {
    65 <= c as int <= 90 || 97 <= c as int <= 122 || 48 <= c as int <= 57
  }

  /** A package directory name that no shell or path syntax can hide in. */
  predicate SafeId(id: string) {
    && id != "" && IsLetterOrDigit(id[0])
    && forall c :: c in id ==> IsLetterOrDigit(c) || c == '.' || c == '_' || c == '-'
  }

  /** extensions/<id>/node_modules/openclaw below a directory .openclaw, with one of the two
      image packages as its target, to the letter. */
  ghost predicate NamesImagePackage(ctx: Context, l: Path, target: string) {
    && (target == "/usr/local/lib/node_modules/openclaw"
        || target == "/usr/local/lib/nemoclaw/openclaw-runtime/node_modules/openclaw")
    && (exists up: Path :: ctx.configPath == up + [".openclaw"])
    && (exists id :: SafeId(id) && l == ["extensions", id, "node_modules", "openclaw"])
  }

  lemma PeerLinkIff(ctx: Context, l: Path, target: string)
    ensures IsPeerLink(ctx, l, target) <==> NamesImagePackage(ctx, l, target)
  {
    if IsPeerLink(ctx, l, target) {
      assert ctx.configPath == ctx.configPath[..|ctx.configPath| - 1] + [".openclaw"];
      assert SafeId(l[1]) && l == ["extensions", l[1], "node_modules", "openclaw"];
    }
  }

  /** Whatever link is accepted, and so kept by a lock: it is singly linked, and either its walk
      ends at a protected directory or a singly linked protected file outside every carve-out,
      or it names an image package. The second kind is accepted whatever the tree. */
  lemma AcceptedIff(ctx: Context, t: Tree, l: Path)
    requires l != [] && l in t && t[l].Link?
    ensures IsAccepted(ctx, t, l) <==>
      Sole(ctx, t, l) && (Resolve(ctx, t, l, t[l].target) == Accepted || NamesImagePackage(ctx, l, t[l].target))
    ensures Resolve(ctx, t, l, t[l].target) == Accepted ==>
      SafeObject(ctx, t, Destination(ctx, t, Normalize(ctx, Parent(l), t[l].target).value, MAX_SYMLINK_EXPANSIONS))
  {
    PeerLinkIff(ctx, l, t[l].target);
    if Resolve(ctx, t, l, t[l].target) == Accepted {
      DestinationIsSafe(ctx, t, Normalize(ctx, Parent(l), t[l].target).value, {}, MAX_SYMLINK_EXPANSIONS);
    }
  }

  // ----- where they part

  lemma SplitCons(c: char, s: string)
    ensures Split([c] + s) ==
            if c == '/' then [""] + Split(s) else [[c] + Split(s)[0]] + Split(s)[1..]
  {
    assert ([c] + s)[1..] == s;
  }

  /** A name after one leading "..". */
  lemma SplitUp(c: char)
    requires c != '/'
    ensures Split(['.', '.', '/', c]) == ["..", [c]]
  {
    SplitCons(c, "");
    assert [c] + "" == [c] && Split([c]) == [[c]];
    SplitCons('/', [c]);
    assert ['/'] + [c] == ['/', c] && Split(['/', c]) == ["", [c]];
    SplitCons('.', ['/', c]);
    assert ['.'] + "" == "." && ['.'] + ['/', c] == ['.', '/', c] && Split(['.', '/', c]) == [".", [c]];
    SplitCons('.', ['.', '/', c]);
    assert ['.'] + "." == ".." && ['.'] + ['.', '/', c] == ['.', '.', '/', c];
  }

  lemma SplitExamples()
    ensures Split("b/../c") == ["b", "..", "c"]
    ensures Split("../h") == ["..", "h"]
  {
    SplitUp('h');
    SplitUp('c');
    SplitCons('/', "../c");
    assert ['/'] + "../c" == "/../c" && Split("/../c") == ["", "..", "c"];
    SplitCons('b', "/../c");
    assert ['b'] + "/../c" == "b/../c" && ['b'] + "" == "b";
  }

  /** s/b leads to h, and a file c exists both beside s and h and inside s. */
  predicate Forked(ctx: Context, t: Tree) {
    && IsDir(t, []) && IsDir(t, ["s"]) && IsDir(t, ["h"])
    && ["s", "b"] in t && t[["s", "b"]].Link? && t[["s", "b"]].target == "../h"
    && ["s", "c"] in t && t[["s", "c"]].File? && Sole(ctx, t, ["s", "c"])
    && ["c"] in t && t[["c"]].File?
  }

  lemma ForkedNormalize(ctx: Context)
    requires ctx.roots.Keys == {"s", "h"}
    ensures Normalize(ctx, ["s"], "b/../c") == Some(["s", "c"])
  {
    SplitExamples();
    assert Parent(["s", "b"]) == ["s"];
    assert ["s"] + ["c"] == ["s", "c"] && ["s"] + ["b"] == ["s", "b"];
    assert Collapse(["s"], ["c"], false) == Some(["s", "c"]);
    assert Collapse(["s", "b"], ["..", "c"], false) == Some(["s", "c"]);
  }

  lemma ForkedWalk(ctx: Context, t: Tree)
    requires Forked(ctx, t) && ctx.roots.Keys == {"s", "h"}
    ensures Resolve(ctx, t, ["s", "a"], "b/../c") == Accepted
  {
    hide Normalize, Split;
    ForkedNormalize(ctx);
    assert Parent(["s", "a"]) == ["s"];
    assert ["s", "c"][..1] == ["s"] && ["s", "c"][..2] == ["s", "c"];
    assert Probe(ctx, t, ["s", "c"], 1) == Reached;
  }

  /** One component each: up, into a directory, and through a link below the config directory. */
  lemma KernelUp(ctx: Context, t: Tree, at: Path, rest: seq<string>, left: nat)
    requires at != []
    ensures Kernel(ctx, t, at, [".."] + rest, left) == Kernel(ctx, t, Parent(at), rest, left)
  {
    hide Split, Lookup;
    assert ([".."] + rest)[1..] == rest;
  }

  lemma KernelInto(ctx: Context, t: Tree, d: Path, c: string, rest: seq<string>, left: nat)
    requires Plain(c) && d + [c] in t && (t[d + [c]].Dir? || (t[d + [c]].File? && rest == []))
    ensures t[d + [c]].Dir? ==>
      Kernel(ctx, t, ctx.configPath + d, [c] + rest, left) == Kernel(ctx, t, ctx.configPath + (d + [c]), rest, left)
    ensures t[d + [c]].File? ==>
      Kernel(ctx, t, ctx.configPath + d, [c] + rest, left) == Some(ctx.configPath + (d + [c]))
  {
    hide Split;
    var q := ctx.configPath + (d + [c]);
    assert ([c] + rest)[1..] == rest && ctx.configPath + d + [c] == q && q[|ctx.configPath|..] == d + [c];
    assert ctx.configPath <= q;
  }

  lemma KernelThrough(ctx: Context, t: Tree, d: Path, c: string, rest: seq<string>, left: nat)
    requires Plain(c) && d + [c] in t && t[d + [c]].Link? && left > 0 && !IsAbsolute(t[d + [c]].target)
    ensures Kernel(ctx, t, ctx.configPath + d, [c] + rest, left)
            == Kernel(ctx, t, ctx.configPath + d, Split(t[d + [c]].target) + rest, left - 1)
  {
    hide Split;
    var q := ctx.configPath + (d + [c]);
    assert ([c] + rest)[1..] == rest && ctx.configPath + d + [c] == q && q[|ctx.configPath|..] == d + [c];
    assert ctx.configPath <= q;
  }

  lemma ForkedKernel(ctx: Context, t: Tree)
    requires Forked(ctx, t)
    ensures Kernel(ctx, t, ctx.configPath + ["s"], Split("b/../c"), MAX_SYMLINK_EXPANSIONS)
            == Some(ctx.configPath + ["c"])
  {
    hide Kernel, Split;
    SplitExamples();
    var c, left := ctx.configPath, MAX_SYMLINK_EXPANSIONS;
    assert Parent(c + ["s"]) == c && Parent(c + ["h"]) == c && c + [] == c;
    assert ["s"] + ["b"] == ["s", "b"] && [] + ["h"] == ["h"] && [] + ["c"] == ["c"];
    KernelThrough(ctx, t, ["s"], "b", ["..", "c"], left);
    assert ["b"] + ["..", "c"] == ["b", "..", "c"];
    KernelUp(ctx, t, c + ["s"], ["h", "..", "c"], left - 1);
    assert ["..", "h"] + ["..", "c"] == [".."] + ["h", "..", "c"];
    KernelInto(ctx, t, [], "h", ["..", "c"], left - 1);
    assert ["h", "..", "c"] == ["h"] + ["..", "c"];
    KernelUp(ctx, t, c + ["h"], ["c"], left - 1);
    assert ["..", "c"] == [".."] + ["c"];
    KernelInto(ctx, t, [], "c", [], left - 1);
    assert ["c"] + [] == ["c"];
  }

  /** With dots after a link the agreement can fail: for the target b/../c of a link in s, the
      walk accepts s/c while the kernel ends at c, outside every protected root. */
  lemma DotsAfterNameDiverge(ctx: Context, t: Tree)
    requires Forked(ctx, t) && ctx.roots.Keys == {"s", "h"}
    ensures FootingOf(ctx, t, ctx.configPath + ["s"], Split("b/../c")) == OnLink
    ensures Resolve(ctx, t, ["s", "a"], "b/../c") == Accepted
    ensures Kernel(ctx, t, ctx.configPath + ["s"], Split("b/../c"), MAX_SYMLINK_EXPANSIONS)
            == Some(ctx.configPath + ["c"])
    ensures !Protected(ctx, ["c"])
  {
    hide Kernel, Split;
    SplitExamples();
    assert ".." in ["b", "..", "c"];
    assert (ctx.configPath + ["s"] + ["b"])[|ctx.configPath|..] == ["s", "b"];
    ForkedWalk(ctx, t);
    ForkedKernel(ctx, t);
  }
}
