/** The symlink check: a walk that never lets the kernel follow a link, the loop that
    performs it, and why later hardening cannot spoil a link it has accepted. */
module LinkResolution {
  import opened Basics
  import opened StateTree

  const MAX_SYMLINK_EXPANSIONS := 40

  datatype Code =
    | OutsideProtectedRoot | CrossesCarveout | Cycle | TargetUnavailable | CrossDevice
    | Hardlinked | TooManyLinks | TargetInvalid | SpecialEntry

  datatype Verdict = Accepted | Rejected(code: Code)

  // ----- link targets

  function Split(s: string): (parts: seq<string>)
    ensures |parts| >= 1
    decreases |s|
  {
    if s == "" then [""]
    else
      var rest := Split(s[1..]);
      if s[0] == '/' then [""] + rest else [[s[0]] + rest[0]] + rest[1..]
  }

  /** Components with a slash between any two. */
  function Joined(parts: seq<string>): string {
    if |parts| == 0 then "" else if |parts| == 1 then parts[0] else parts[0] + "/" + Joined(parts[1..])
  }

  /** Splitting loses nothing and leaves no slash. */
  lemma {:induction false} SplitIsExact(s: string)
    ensures Joined(Split(s)) == s
    ensures forall part :: part in Split(s) ==> '/' !in part
    decreases |s|
  {
    if s != "" {
      var rest := Split(s[1..]);
      SplitIsExact(s[1..]);
      assert s == [s[0]] + s[1..];
      if s[0] == '/' {
        assert ([""] + rest)[1..] == rest;
      } else {
        var parts := [[s[0]] + rest[0]] + rest[1..];
        assert parts[1..] == rest[1..];
        assert [s[0]] + Joined(rest) == Joined(parts);
        assert rest == [rest[0]] + rest[1..];
      }
    }
  }

  predicate IsAbsolute(target: string) {
    target != "" && target[0] == '/'
  }

  /** normpath applied to base joined with parts. Above the top, an absolute path stays put
      and a relative one escapes for good. */
  function Collapse(base: Path, parts: seq<string>, absolute: bool): Option<Path>
    decreases |parts|
  {
    if parts == [] then Some(base)
    else
      var c, rest := parts[0], parts[1..];
      if c == "" || c == "." then Collapse(base, rest, absolute)
      else if c != ".." then Collapse(base + [c], rest, absolute)
      else if base != [] then Collapse(Parent(base), rest, absolute)
      else if absolute then Collapse([], rest, absolute)
      else None
  }

  /** _normalize_link_target: the path, below the config directory, that a target names
      lexically, provided it lies in a protected root. */
  function Normalize(ctx: Context, parent: Path, target: string): (r: Option<Path>)
    ensures r.Some? ==> Protected(ctx, r.value)
  {
    var relative :-
      if IsAbsolute(target) then
        var whole := Collapse([], Split(target), true);
        if whole.Some? && ctx.configPath <= whole.value
        then Some(whole.value[|ctx.configPath|..]) else None
      else Collapse(parent, Split(target), false);
    if Protected(ctx, relative) then Some(relative) else None
  }

  const IMAGE_PACKAGES :=
    {"/usr/local/lib/node_modules/openclaw",
     "/usr/local/lib/nemoclaw/openclaw-runtime/node_modules/openclaw"}

  predicate IsAlnum(c: char) {
    'a' <= c <= 'z' || 'A' <= c <= 'Z' || '0' <= c <= '9'
  }

  /** The one link that may leave the state tree: an extension's peer package. */
  predicate IsPeerLink(ctx: Context, p: Path, target: string) {
    && target in IMAGE_PACKAGES
    && ctx.configPath != [] && ctx.configPath[|ctx.configPath| - 1] == ".openclaw"
    && |p| == 4 && p[0] == "extensions" && p[1] != "" && IsAlnum(p[1][0])
    && (forall c :: c in p[1] ==> IsAlnum(c) || c == '.' || c == '_' || c == '-')
    && p[2] == "node_modules" && p[3] == "openclaw"
  }

  // ----- the walk

  /** Where one pass over a path's components comes to rest. */
  datatype Stop = Missing | Elsewhere | AtLink(index: nat) | NotADirectory | AtSpecial | SharedFile | Reached

  function Probe(ctx: Context, t: Tree, x: Path, i: nat): (s: Stop)
    requires i < |x|
    ensures s.AtLink? ==> i <= s.index < |x| && x[..s.index + 1] in t && t[x[..s.index + 1]].Link?
    decreases |x| - i
  {
    var q := x[..i + 1];
    if q !in t then Missing
    else
      match t[q]
      case Foreign => Elsewhere
      case Link(_, _, _) => AtLink(i)
      case Dir(_, _) => if i + 1 < |x| then Probe(ctx, t, x, i + 1) else Reached
      case File(_, _, _, _) =>
        if i + 1 < |x| then NotADirectory else if Sole(ctx, t, q) then Reached else SharedFile
      case Special(_) => if i + 1 < |x| then NotADirectory else AtSpecial
  }

  /** The chain of expansions from x; left is how many may still be made. An expanded
      target is protected by its first component, so the source's second protection check
      never fires and has no branch here. */
  function Walk(ctx: Context, t: Tree, x: Path, seen: set<Path>, left: nat): Verdict
    requires x != []
    decreases left
  {
    if x in seen then Rejected(Cycle)
    else
      match Probe(ctx, t, x, 0)
      case Missing => Rejected(TargetUnavailable)
      case Elsewhere => Rejected(CrossDevice)
      case NotADirectory => Rejected(TargetInvalid)
      case AtSpecial => Rejected(SpecialEntry)
      case SharedFile => Rejected(Hardlinked)
      case Reached => Accepted
      case AtLink(i) =>
        var q := x[..i + 1];
        if !Sole(ctx, t, q) then Rejected(Hardlinked)
        else if left == 0 then Rejected(TooManyLinks)
        else
          var expanded := Normalize(ctx, x[..i], t[q].target);
          if expanded.None? then Rejected(OutsideProtectedRoot)
          else
            var next := expanded.value + x[i + 1..];
            if UnderCarveout(next) then Rejected(CrossesCarveout)
            else Walk(ctx, t, next, seen + {x}, left - 1)
  }

  /** _resolve_internal_symlink. */
  function Resolve(ctx: Context, t: Tree, l: Path, target: string): Verdict
    requires l != []
  {
    var x := Normalize(ctx, Parent(l), target);
    if x.None? then Rejected(OutsideProtectedRoot)
    else if UnderCarveout(l) || UnderCarveout(x.value) then Rejected(CrossesCarveout)
    else Walk(ctx, t, x.value, {}, MAX_SYMLINK_EXPANSIONS)
  }

  /** _validate_symlink. */
  function Validate(ctx: Context, t: Tree, l: Path): Verdict
    requires l != [] && l in t && t[l].Link?
  {
    if !Sole(ctx, t, l) then Rejected(Hardlinked)
    else if IsPeerLink(ctx, l, t[l].target) then Accepted
    else Resolve(ctx, t, l, t[l].target)
  }

  predicate IsAccepted(ctx: Context, t: Tree, l: Path) {
    l != [] && l in t && t[l].Link? && Validate(ctx, t, l) == Accepted
  }

  // ----- the loop that performs the walk

  /** One pass over the components of x, opening one directory after another. */
  method ProbeComponents(ctx: Context, t: Tree, x: Path) returns (stop: Stop)
    requires x != []
    ensures stop == Probe(ctx, t, x, 0)
  {
    var i := 0;
    while i < |x|
      invariant 0 <= i <= |x|
      invariant i < |x| ==> Probe(ctx, t, x, i) == Probe(ctx, t, x, 0)
      invariant i == |x| ==> Probe(ctx, t, x, 0) == Reached
    {
      var q := x[..i + 1];
      if q !in t {
        return Missing;
      }
      var node := t[q];
      if node.Foreign? {
        return Elsewhere;
      }
      if node.Link? {
        return AtLink(i);
      }
      if i + 1 < |x| {
        if !node.Dir? {
          return NotADirectory;
        }
      } else if !node.Dir? && !node.File? {
        return AtSpecial;
      } else if node.File? && !Sole(ctx, t, q) {
        return SharedFile;
      }
      i := i + 1;
    }
    return Reached;
  }

  /** The resolver as it runs: restart from the config directory after every expansion. It
      stops within 41 passes. */
  method ResolveInternalSymlink(ctx: Context, t: Tree, l: Path, target: string)
    returns (verdict: Verdict, passes: nat)
    requires l != []
    ensures verdict == Resolve(ctx, t, l, target)
    ensures passes <= 41
  {
    passes := 0;
    var start := Normalize(ctx, Parent(l), target);
    if start.None? {
      return Rejected(OutsideProtectedRoot), passes;
    }
    if UnderCarveout(l) || UnderCarveout(start.value) {
      return Rejected(CrossesCarveout), passes;
    }
    var relative, seen, expansions: nat := start.value, {}, 0;
    while true
      invariant relative != [] && expansions <= MAX_SYMLINK_EXPANSIONS && passes == expansions
      invariant Walk(ctx, t, relative, seen, MAX_SYMLINK_EXPANSIONS - expansions) == Resolve(ctx, t, l, target)
      decreases MAX_SYMLINK_EXPANSIONS - expansions
    {
      if relative in seen {
        return Rejected(Cycle), passes;
      }
      passes := passes + 1;
      var stop := ProbeComponents(ctx, t, relative);
      match stop
      case Missing => return Rejected(TargetUnavailable), passes;
      case Elsewhere => return Rejected(CrossDevice), passes;
      case NotADirectory => return Rejected(TargetInvalid), passes;
      case AtSpecial => return Rejected(SpecialEntry), passes;
      case SharedFile => return Rejected(Hardlinked), passes;
      case Reached => return Accepted, passes;
      case AtLink(i) =>
        var q := relative[..i + 1];
        if !Sole(ctx, t, q) {
          return Rejected(Hardlinked), passes;
        }
        if expansions + 1 > MAX_SYMLINK_EXPANSIONS {
          return Rejected(TooManyLinks), passes;
        }
        var expanded := Normalize(ctx, relative[..i], t[q].target);
        if expanded.None? {
          return Rejected(OutsideProtectedRoot), passes;
        }
        var next := expanded.value + relative[i + 1..];
        if UnderCarveout(next) {
          return Rejected(CrossesCarveout), passes;
        }
        seen := seen + {relative};
        relative, expansions := next, expansions + 1;
    }
  }

  // ----- every link on an accepted chain is itself accepted

  /** A pass over a longer path sees what a pass over its prefix sees. */
  lemma {:induction false} ProbePrefix(ctx: Context, t: Tree, e: Path, rest: Path, i: nat)
    requires i < |e|
    ensures var long := Probe(ctx, t, e + rest, i);
      && (long.AtLink? && long.index < |e| ==> Probe(ctx, t, e, i) == long)
      && ((long.AtLink? && long.index >= |e|) || long == Reached ==> Probe(ctx, t, e, i) == Reached)
    decreases |e| - i
  {
    assert (e + rest)[..i + 1] == e[..i + 1];
    if e[..i + 1] in t && t[e[..i + 1]].Dir? && i + 1 < |e| {
      ProbePrefix(ctx, t, e, rest, i + 1);
    }
  }

  /** If the chain from e followed by rest is accepted, so is the chain from e alone. */
  lemma {:induction false} WalkPrefix(ctx: Context, t: Tree, e: Path, rest: Path, seen: set<Path>,
                                      shortSeen: set<Path>, left: nat, shortLeft: nat)
    requires e != [] && Walk(ctx, t, e + rest, seen, left) == Accepted
    requires left <= shortLeft
    requires forall y :: y in shortSeen ==> y + rest in seen
    ensures Walk(ctx, t, e, shortSeen, shortLeft) == Accepted
    decreases left
  {
    hide UnderCarveout, Sole, Normalize;
    var x := e + rest;
    ProbePrefix(ctx, t, e, rest, 0);
    var stop := Probe(ctx, t, x, 0);
    if stop.AtLink? && stop.index < |e| {
      var i := stop.index;
      assert x[..i + 1] == e[..i + 1] && x[..i] == e[..i];
      var expanded := Normalize(ctx, e[..i], t[e[..i + 1]].target).value;
      var next := expanded + e[i + 1..];
      assert expanded + x[i + 1..] == next + rest;
      if UnderCarveout(next) {
        CarveoutIsMonotone(next, rest);
      }
      WalkPrefix(ctx, t, next, rest, seen + {x}, shortSeen + {e}, left - 1, shortLeft - 1);
    }
  }

  /** Where an expansion at component i of x restarts. */
  function Expansion(ctx: Context, t: Tree, x: Path, i: nat): (next: Option<Path>)
    requires i < |x| && x[..i + 1] in t && t[x[..i + 1]].Link?
    ensures next.Some? ==> next.value != []
  {
    var expanded :- Normalize(ctx, x[..i], t[x[..i + 1]].target);
    Some(expanded + x[i + 1..])
  }

  /** What an accepted chain that meets a link at component i has to satisfy, and conversely. */
  lemma WalkAtLink(ctx: Context, t: Tree, x: Path, seen: set<Path>, left: nat, i: nat)
    requires x != [] && Probe(ctx, t, x, 0) == AtLink(i)
    ensures Walk(ctx, t, x, seen, left) == Accepted <==>
      && x !in seen && Sole(ctx, t, x[..i + 1]) && left > 0
      && Expansion(ctx, t, x, i).Some? && !UnderCarveout(Expansion(ctx, t, x, i).value)
      && Walk(ctx, t, Expansion(ctx, t, x, i).value, seen + {x}, left - 1) == Accepted
  {
  }

  lemma AcceptedByWalk(ctx: Context, t: Tree, q: Path, e: Path)
    requires q != [] && q in t && t[q].Link? && Sole(ctx, t, q) && !UnderCarveout(q)
    requires Normalize(ctx, Parent(q), t[q].target) == Some(e) && !UnderCarveout(e)
    requires Walk(ctx, t, e, {}, MAX_SYMLINK_EXPANSIONS) == Accepted
    ensures IsAccepted(ctx, t, q)
  {
  }

  /** The link at which an accepted chain restarts would be accepted on its own. */
  lemma LinkOnChainIsAccepted(ctx: Context, t: Tree, x: Path, seen: set<Path>, left: nat, i: nat)
    requires x != [] && left <= MAX_SYMLINK_EXPANSIONS && !UnderCarveout(x)
    requires Walk(ctx, t, x, seen, left) == Accepted && Probe(ctx, t, x, 0) == AtLink(i)
    ensures IsAccepted(ctx, t, x[..i + 1])
  {
    hide UnderCarveout, IsAccepted, Sole, Walk;
    WalkAtLink(ctx, t, x, seen, left, i);
    var q, rest := x[..i + 1], x[i + 1..];
    assert Parent(q) == x[..i] && q + rest == x;
    var e := Normalize(ctx, x[..i], t[q].target).value;
    if UnderCarveout(q) {
      CarveoutIsMonotone(q, rest);
    }
    if UnderCarveout(e) {
      CarveoutIsMonotone(e, rest);
    }
    WalkPrefix(ctx, t, e, rest, seen + {x}, {}, left - 1, MAX_SYMLINK_EXPANSIONS);
    AcceptedByWalk(ctx, t, q, e);
  }

  // ----- hardening keeps accepted links accepted

  /** What hardening a tree may do to what an accepted chain can lean on: directories stay,
      singly linked files stay so, and accepted links keep their target. */
  ghost predicate Hardens(ctx: Context, t: Tree, u: Tree) {
    && (forall q :: IsDir(t, q) ==> IsDir(u, q))
    && (forall q :: q in t && t[q].File? && Sole(ctx, t, q) ==> q in u && u[q].File? && Sole(ctx, u, q))
    && (forall q :: IsAccepted(ctx, t, q) ==>
          q in u && u[q].Link? && u[q].target == t[q].target && Sole(ctx, u, q))
  }

  lemma {:induction false} ProbeHardened(ctx: Context, t: Tree, u: Tree, x: Path, i: nat)
    requires i < |x| && Hardens(ctx, t, u)
    ensures var stop := Probe(ctx, t, x, i);
      && (stop == Reached ==> Probe(ctx, u, x, i) == Reached)
      && (stop.AtLink? && IsAccepted(ctx, t, x[..stop.index + 1]) ==> Probe(ctx, u, x, i) == stop)
    decreases |x| - i
  {
    hide Resolve, IsPeerLink, Sole;
    var q := x[..i + 1];
    if IsDir(t, q) {
      assert IsDir(u, q);
      if i + 1 < |x| {
        ProbeHardened(ctx, t, u, x, i + 1);
      }
    }
  }

  /** At a link that is accepted on its own, the hardened tree restarts at the same path. */
  lemma ExpansionHardened(ctx: Context, t: Tree, u: Tree, x: Path, i: nat)
    requires x != [] && Hardens(ctx, t, u) && Probe(ctx, t, x, 0) == AtLink(i)
    requires IsAccepted(ctx, t, x[..i + 1])
    ensures Probe(ctx, u, x, 0) == AtLink(i) && Sole(ctx, u, x[..i + 1])
    ensures Expansion(ctx, u, x, i) == Expansion(ctx, t, x, i)
  {
    ProbeHardened(ctx, t, u, x, 0);
  }

  lemma {:induction false} WalkHardened(ctx: Context, t: Tree, u: Tree, x: Path, seen: set<Path>, left: nat)
    requires x != [] && left <= MAX_SYMLINK_EXPANSIONS && !UnderCarveout(x)
    requires Hardens(ctx, t, u) && Walk(ctx, t, x, seen, left) == Accepted
    ensures Walk(ctx, u, x, seen, left) == Accepted
    decreases left
  {
    hide UnderCarveout, IsAccepted, Validate, Hardens, Probe, Sole, Normalize;
    var stop := Probe(ctx, t, x, 0);
    if stop.AtLink? {
      var i := stop.index;
      LinkOnChainIsAccepted(ctx, t, x, seen, left, i);
      WalkAtLink(ctx, t, x, seen, left, i);
      ExpansionHardened(ctx, t, u, x, i);
      WalkHardened(ctx, t, u, Expansion(ctx, t, x, i).value, seen + {x}, left - 1);
      WalkAtLink(ctx, u, x, seen, left, i);
    } else {
      ProbeHardened(ctx, t, u, x, 0);
    }
  }

  /** Removing what is unsafe, replacing files and adding carve-outs never turns an accepted
      link into a rejected one. */
  lemma AcceptedStaysAccepted(ctx: Context, t: Tree, u: Tree, l: Path)
    requires Hardens(ctx, t, u) && IsAccepted(ctx, t, l)
    ensures IsAccepted(ctx, u, l) && u[l].target == t[l].target
  {
    if !IsPeerLink(ctx, l, t[l].target) {
      WalkHardened(ctx, t, u, Normalize(ctx, Parent(l), t[l].target).value, {}, MAX_SYMLINK_EXPANSIONS);
    }
  }

  lemma HardensIsTransitive(ctx: Context, t: Tree, u: Tree, v: Tree)
    requires Hardens(ctx, t, u) && Hardens(ctx, u, v)
    ensures Hardens(ctx, t, v)
  {
    forall q | IsAccepted(ctx, t, q)
      ensures q in v && v[q].Link? && v[q].target == t[q].target && Sole(ctx, v, q)
    {
      AcceptedStaysAccepted(ctx, t, u, q);
    }
  }
}
