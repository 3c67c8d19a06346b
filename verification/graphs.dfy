/** Directed graphs of jobs, their paths and cycles, and the depth-first searches that walk
    them with sets updated in place. */
module Graphs {

  type Id = string

  type Graph = map<Id, seq<Id>>

  function Out(g: Graph, n: Id): seq<Id> {
    if n in g then g[n] else []
  }

  /** A finite set that holds n's world: closed under edges. */
  predicate Closed(g: Graph, universe: set<Id>) {
    forall n, v :: n in universe && v in Out(g, n) ==> v in universe
  }

  function Nodes(g: Graph): set<Id> {
    g.Keys + set n, i | n in g && 0 <= i < |g[n]| :: g[n][i]
  }

  lemma NodesAreClosed(g: Graph, start: Id)
    ensures Closed(g, Nodes(g)) && Closed(g, Nodes(g) + {start})
  {
    forall n, v | v in Out(g, n) ensures v in Nodes(g) {
      var i :| 0 <= i < |g[n]| && g[n][i] == v;
    }
  }

  // ----- paths

  predicate IsPath(g: Graph, p: seq<Id>) {
    |p| >= 1 && forall i :: 0 <= i < |p| - 1 ==> p[i + 1] in Out(g, p[i])
  }

  ghost predicate Reaches(g: Graph, a: Id, b: Id) {
    exists p :: IsPath(g, p) && p[0] == a && p[|p| - 1] == b
  }

  /** Reaches in at least one step. */
  ghost predicate Leads(g: Graph, a: Id, b: Id) {
    exists p :: IsPath(g, p) && |p| >= 2 && p[0] == a && p[|p| - 1] == b
  }

  ghost predicate Cyclic(g: Graph) {
    exists a :: Leads(g, a, a)
  }

  lemma EdgeLeads(g: Graph, a: Id, b: Id)
    requires b in Out(g, a)
    ensures Leads(g, a, b)
  {
    assert IsPath(g, [a, b]);
  }

  lemma LeadsOn(g: Graph, a: Id, b: Id, c: Id)
    requires Leads(g, a, b) && c in Out(g, b)
    ensures Leads(g, a, c)
  {
    var p :| IsPath(g, p) && |p| >= 2 && p[0] == a && p[|p| - 1] == b;
    assert IsPath(g, p + [c]);
  }

  /** Marks that lead to n lead to its child as well. */
  lemma AllLeadOn(g: Graph, marks: set<Id>, n: Id, child: Id)
    requires n in marks && child in Out(g, n)
    requires forall t :: t in marks && t != n ==> Leads(g, t, n)
    ensures forall t :: t in marks ==> Leads(g, t, child)
  {
    EdgeLeads(g, n, child);
    forall t | t in marks && t != n ensures Leads(g, t, child) {
      LeadsOn(g, t, n, child);
    }
  }

  lemma ReachesItself(g: Graph, a: Id)
    ensures Reaches(g, a, a)
  {
    assert IsPath(g, [a]);
  }

  /** A set closed under edges keeps whatever a member reaches. */
  lemma {:induction false} ClosedKeepsPath(g: Graph, s: set<Id>, p: seq<Id>)
    requires Closed(g, s) && IsPath(g, p) && p[0] in s
    ensures p[|p| - 1] in s
    decreases |p|
  {
    if |p| > 1 {
      var q := p[..|p| - 1];
      forall i | 0 <= i < |q| - 1 ensures q[i + 1] in Out(g, q[i]) {
      }
      ClosedKeepsPath(g, s, q);
    }
  }

  // ----- orders

  predicate NoRepeats(s: seq<Id>) {
    forall i, j :: 0 <= i < j < |s| ==> s[i] != s[j]
  }

  /** Every edge out of a listed node goes to a later one. */
  predicate Sorted(g: Graph, order: seq<Id>) {
    forall i, v :: 0 <= i < |order| && v in Out(g, order[i]) ==> v in order[i + 1..]
  }

  /** Every edge out of a listed node goes to an earlier one: the order of finishing. */
  predicate Finished(g: Graph, order: seq<Id>) {
    forall i, v :: 0 <= i < |order| && v in Out(g, order[i]) ==> v in order[..i]
  }

  /** A path through finished nodes runs strictly backwards in the order. */
  lemma {:induction false} PathRunsBack(g: Graph, order: seq<Id>, p: seq<Id>, i: nat) returns (j: nat)
    requires Finished(g, order) && IsPath(g, p) && i < |order| && order[i] == p[0]
    ensures j < |order| && order[j] == p[|p| - 1] && (|p| >= 2 ==> j < i) && j <= i
    decreases |p|
  {
    if |p| == 1 {
      j := i;
    } else {
      assert p[1] in Out(g, order[i]);
      assert p[1] in order[..i];
      var k :| 0 <= k < i && order[k] == p[1];
      var rest := p[1..];
      forall x | 0 <= x < |rest| - 1 ensures rest[x + 1] in Out(g, rest[x]) {
        assert p[x + 2] in Out(g, p[x + 1]);
      }
      j := PathRunsBack(g, order, rest, k);
    }
  }

  /** A graph all of whose edges leave finished nodes has no cycle. */
  lemma FinishedIsAcyclic(g: Graph, order: seq<Id>)
    requires Finished(g, order) && NoRepeats(order)
    requires forall n :: n in g ==> n in order
    ensures !Cyclic(g)
  {
    if Cyclic(g) {
      var a :| Leads(g, a, a);
      var p :| IsPath(g, p) && |p| >= 2 && p[0] == a && p[|p| - 1] == a;
      assert p[1] in Out(g, a);
      var i :| 0 <= i < |order| && order[i] == a;
      var j := PathRunsBack(g, order, p, i);
    }
  }

  // ----- topological sort

  /** The state shared by the nested visit of topological_sort. */
  class TopologicalSearch {
    const g: Graph
    ghost const universe: set<Id>
    var visited: set<Id>
    var tempMark: set<Id>
    var order: seq<Id>

    constructor (g: Graph)
      ensures this.g == g && universe == Nodes(g) && Valid()
      ensures visited == {} && tempMark == {} && order == []
    {
      this.g, this.universe := g, Nodes(g);
      visited, tempMark, order := {}, {}, [];
      new;
      NodesAreClosed(g, "");
    }

    ghost predicate Valid()
      reads this
    {
      && Closed(g, universe) && visited <= universe && tempMark <= universe && visited !! tempMark
      && NoRepeats(order) && (forall n :: n in visited <==> n in order)
      && (forall n, v :: n in visited && v in Out(g, n) ==> v in visited || v in tempMark)
      && (!Cyclic(g) ==> Sorted(g, order))
    }

    /** visit: everything reachable from n is put in front of what is there. */
    method Visit(n: Id) returns (unmarked: bool)
      requires Valid() && n in universe
      requires forall t :: t in tempMark ==> Leads(g, t, n)
      modifies this
      ensures Valid() && tempMark == old(tempMark)
      ensures old(visited) <= visited
      ensures unmarked <==> n !in old(tempMark)
      ensures unmarked ==> n in visited
      ensures forall x :: x in visited && x !in old(visited) ==> Reaches(g, n, x)
      decreases universe - visited - tempMark, 0
    {
      hide Sorted, NoRepeats, Leads, Reaches, Cyclic;
      if n in tempMark {
        return false;
      }
      if n !in visited {
        tempMark := tempMark + {n};
        assert universe - visited - tempMark < old(universe - visited - tempMark);
        VisitChildren(n);
        ReachesItself(g, n);
        Place(n);
      }
      return true;
    }

    /** The loop over the edges of a node that has just been marked. */
    method VisitChildren(n: Id)
      requires Valid() && n in tempMark
      requires forall t :: t in tempMark && t != n ==> Leads(g, t, n)
      modifies this
      ensures Valid() && tempMark == old(tempMark) && old(visited) <= visited
      ensures forall v :: v in Out(g, n) ==> v in visited || v in tempMark
      ensures forall x :: x in visited && x !in old(visited) ==> Reaches(g, n, x)
      decreases universe - visited - tempMark, 1
    {
      hide Sorted, NoRepeats, Leads, Reaches, Cyclic;
      var children := Out(g, n);
      var i := 0;
      while i < |children|
        invariant 0 <= i <= |children| && Valid() && tempMark == old(tempMark) && old(visited) <= visited
        invariant forall k :: 0 <= k < i ==> children[k] in visited || children[k] in tempMark
        invariant forall x :: x in visited && x !in old(visited) ==> Reaches(g, n, x)
      {
        AllLeadOn(g, tempMark, n, children[i]);
        assert universe - visited - tempMark <= old(universe - visited - tempMark);
        ghost var before := visited;
        var _ := Visit(children[i]);
        forall x | x in visited && x !in before ensures Reaches(g, n, x) {
          ReachesFrom(g, n, children[i], x);
        }
        i := i + 1;
      }
    }

    /** n is finished: off the stack, and to the front of the order. */
    method Place(n: Id)
      requires Valid() && n in tempMark
      requires forall t :: t in tempMark && t != n ==> Leads(g, t, n)
      requires forall v :: v in Out(g, n) ==> v in visited || v in tempMark
      modifies this
      ensures Valid() && tempMark == old(tempMark) - {n} && visited == old(visited) + {n}
    {
      ghost var before := order;
      tempMark := tempMark - {n};
      visited := visited + {n};
      order := [n] + order;
      if !Cyclic(g) {
        forall v | v in Out(g, n) ensures v in before {
          if v !in before {
            EdgeLeads(g, n, v);
            if v != n {
              LeadsOn(g, v, n, v);
            }
          }
        }
        forall i, v | 0 <= i < |order| && v in Out(g, order[i]) ensures v in order[i + 1..] {
          assert order[i + 1..] == before[i..];
          if i > 0 {
            assert v in before[i - 1 + 1..];
          }
        }
      }
    }
  }

  // ----- cycle search

  /** The state shared by the nested has_cycle of both validators. */
  class CycleSearch {
    const g: Graph
    ghost const universe: set<Id>
    var visited: set<Id>
    var tempMark: set<Id>
    /** The visited nodes in the order in which they were finished. */
    ghost var finished: seq<Id>

    constructor (g: Graph)
      ensures this.g == g && universe == Nodes(g) && Valid()
      ensures visited == {} && tempMark == {}
    {
      this.g, this.universe := g, Nodes(g);
      visited, tempMark, finished := {}, {}, [];
      new;
      NodesAreClosed(g, "");
    }

    ghost predicate Valid()
      reads this
    {
      && Closed(g, universe) && visited <= universe && tempMark <= universe && visited !! tempMark
      && NoRepeats(finished) && (forall n :: n in visited <==> n in finished)
      && Finished(g, finished)
    }

    /** The marks are those of the nodes on the way to n, or a cycle is known already. */
    ghost predicate OnTheWay(n: Id)
      reads this
    {
      Cyclic(g) || forall t :: t in tempMark ==> Leads(g, t, n)
    }

    /** has_cycle: true only if there is a cycle; false leaves n and all it reaches finished. */
    method HasCycle(n: Id) returns (r: bool)
      requires Valid() && n in universe && OnTheWay(n)
      modifies this
      ensures Valid() && old(visited) <= visited && old(tempMark) <= tempMark
      ensures r ==> Cyclic(g)
      ensures !r ==> tempMark == old(tempMark) && n in visited
      decreases universe - visited - tempMark, 0
    {
      hide NoRepeats, Finished, Leads;
      if n in tempMark {
        return true;
      }
      if n in visited {
        return false;
      }
      tempMark := tempMark + {n};
      assert universe - visited - tempMark < old(universe - visited - tempMark);
      r := AnyChildCyclic(n);
      if r {
        return true;
      }
      FinishLast(finished, n);
      tempMark := tempMark - {n};
      visited := visited + {n};
      finished := finished + [n];
      return false;
    }

    lemma FinishLast(finished: seq<Id>, n: Id)
      requires NoRepeats(finished) && Finished(g, finished) && n !in finished
      requires forall v :: v in Out(g, n) ==> v in finished
      ensures NoRepeats(finished + [n]) && Finished(g, finished + [n])
    {
      var f := finished + [n];
      forall i, v | 0 <= i < |f| && v in Out(g, f[i]) ensures v in f[..i] {
        if i == |finished| {
          assert f[..i] == finished;
        } else {
          assert v in finished[..i] && f[..i] == finished[..i];
        }
      }
    }

    /** The loop over the children of a node that has just been marked. */
    method AnyChildCyclic(n: Id) returns (r: bool)
      requires Valid() && n in tempMark
      requires Cyclic(g) || forall t :: t in tempMark && t != n ==> Leads(g, t, n)
      modifies this
      ensures Valid() && old(visited) <= visited && old(tempMark) <= tempMark
      ensures r ==> Cyclic(g)
      ensures !r ==> tempMark == old(tempMark) && forall v :: v in Out(g, n) ==> v in visited
      decreases universe - visited - tempMark, 1
    {
      hide NoRepeats, Finished, Leads, Cyclic;
      var children := Out(g, n);
      var i := 0;
      while i < |children|
        invariant 0 <= i <= |children| && Valid() && tempMark == old(tempMark) && old(visited) <= visited
        invariant forall k :: 0 <= k < i ==> children[k] in visited
      {
        if !Cyclic(g) {
          AllLeadOn(g, tempMark, n, children[i]);
        }
        assert universe - visited - tempMark <= old(universe - visited - tempMark);
        r := HasCycle(children[i]);
        if r {
          return true;
        }
        i := i + 1;
      }
      return false;
    }
  }

  // ----- reachability search

  /** The state shared by the nested dfs of get_descendants and get_ancestors. */
  class ReachSearch {
    const g: Graph
    ghost const universe: set<Id>
    var visited: set<Id>
    var order: seq<Id>

    constructor (g: Graph, start: Id)
      ensures this.g == g && universe == Nodes(g) + {start} && Valid()
      ensures visited == {} && order == []
    {
      this.g, this.universe := g, Nodes(g) + {start};
      visited, order := {}, [];
      new;
      NodesAreClosed(g, start);
    }

    ghost function Open(): set<Id>
      reads this
    {
      visited - set n | n in order
    }

    ghost predicate Valid()
      reads this
    {
      && Closed(g, universe) && visited <= universe && (forall n :: n in order ==> n in visited)
      && NoRepeats(order) && (forall n, v :: n in order && v in Out(g, n) ==> v in visited)
      && (!Cyclic(g) ==> Finished(g, order))
    }

    /** dfs: appends what n reaches and has not been visited, n last. */
    method Dfs(n: Id)
      requires Valid() && n in universe
      requires forall t :: t in Open() ==> Leads(g, t, n)
      modifies this
      ensures Valid() && Open() == old(Open()) && old(visited) <= visited && n in visited
      ensures n !in old(visited) ==> order != [] && order[|order| - 1] == n
      ensures forall x :: x in visited && x !in old(visited) ==> Reaches(g, n, x)
      decreases universe - visited, 0
    {
      hide NoRepeats, Finished, Leads, Reaches, Cyclic;
      if n in visited {
        return;
      }
      ghost var open := Open();
      visited := visited + {n};
      assert Open() == open + {n};
      assert universe - visited < old(universe - visited);
      DfsChildren(n);
      ReachesItself(g, n);
      Close(n);
    }

    /** The loop over the edges of a node that has just been visited. */
    method DfsChildren(n: Id)
      requires Valid() && n in Open()
      requires forall t :: t in Open() && t != n ==> Leads(g, t, n)
      modifies this
      ensures Valid() && Open() == old(Open()) && old(visited) <= visited
      ensures forall v :: v in Out(g, n) ==> v in visited
      ensures forall x :: x in visited && x !in old(visited) ==> Reaches(g, n, x)
      decreases universe - visited, 1
    {
      hide NoRepeats, Finished, Leads, Reaches, Cyclic;
      ghost var open := Open();
      var children := Out(g, n);
      var i := 0;
      while i < |children|
        invariant 0 <= i <= |children| && Valid() && Open() == open && old(visited) <= visited
        invariant forall k :: 0 <= k < i ==> children[k] in visited
        invariant forall x :: x in visited && x !in old(visited) ==> Reaches(g, n, x)
      {
        OpenLeads(open, n, children[i]);
        assert universe - visited <= old(universe - visited);
        ghost var before := visited;
        Dfs(children[i]);
        forall x | x in visited && x !in before ensures Reaches(g, n, x) {
          ReachesFrom(g, n, children[i], x);
        }
        i := i + 1;
      }
    }

    /** A search from start that has ended has visited exactly what start reaches. */
    lemma Complete(start: Id)
      requires Valid() && Open() == {} && start in visited
      requires forall x :: x in visited ==> Reaches(g, start, x)
      ensures forall x :: x in order <==> Reaches(g, start, x)
    {
      forall x ensures x in visited <==> x in order {
        assert x in Open() <==> x in visited && x !in order;
      }
      forall x | Reaches(g, start, x) ensures x in visited {
        var p :| IsPath(g, p) && p[0] == start && p[|p| - 1] == x;
        ClosedKeepsPath(g, visited, p);
      }
    }

    lemma OpenLeads(open: set<Id>, n: Id, child: Id)
      requires n in open && child in Out(g, n)
      requires forall t :: t in open && t != n ==> Leads(g, t, n)
      ensures forall t :: t in open ==> Leads(g, t, child)
    {
      EdgeLeads(g, n, child);
      forall t | t in open && t != n ensures Leads(g, t, child) {
        LeadsOn(g, t, n, child);
      }
    }

    /** n is finished: to the end of the order. */
    method Close(n: Id)
      requires Valid() && n in Open()
      requires forall t :: t in Open() && t != n ==> Leads(g, t, n)
      requires forall v :: v in Out(g, n) ==> v in visited
      modifies this
      ensures Valid() && visited == old(visited) && Open() == old(Open()) - {n}
      ensures order == old(order) + [n]
    {
      ghost var before := order;
      if !Cyclic(g) {
        forall v | v in Out(g, n) ensures v in before {
          if v !in before {
            EdgeLeads(g, n, v);
            if v != n {
              LeadsOn(g, v, n, v);
            }
          }
        }
      }
      order := order + [n];
      if !Cyclic(g) {
        forall i, v | 0 <= i < |order| && v in Out(g, order[i]) ensures v in order[..i] {
          if i == |before| {
            assert order[..i] == before;
          } else {
            assert v in before[..i] && order[..i] == before[..i];
          }
        }
      }
    }
  }

  function Reversed<T>(s: seq<T>): (r: seq<T>)
    ensures |r| == |s| && forall i :: 0 <= i < |s| ==> r[i] == s[|s| - 1 - i]
  {
    seq(|s|, i requires 0 <= i < |s| => s[|s| - 1 - i])
  }

  /** The finishing order, read backwards, sorts the graph. */
  lemma ReversedIsSorted(g: Graph, order: seq<Id>)
    ensures forall x :: x in order <==> x in Reversed(order)
    ensures NoRepeats(order) ==> NoRepeats(Reversed(order))
    ensures Finished(g, order) ==> Sorted(g, Reversed(order))
  {
    var r, n := Reversed(order), |order|;
    forall x ensures x in order <==> x in r {
      if x in order {
        var i :| 0 <= i < n && order[i] == x;
        assert r[n - 1 - i] == x;
      }
    }
    if Finished(g, order) {
      forall i, v | 0 <= i < n && v in Out(g, r[i]) ensures v in r[i + 1..] {
        var k := n - 1 - i;
        assert v in order[..k];
        var j :| 0 <= j < k && order[j] == v;
        assert r[i + 1..][n - 1 - j - (i + 1)] == v;
      }
    }
  }

  lemma ReachesFrom(g: Graph, a: Id, b: Id, c: Id)
    requires b in Out(g, a) && Reaches(g, b, c)
    ensures Reaches(g, a, c)
  {
    var p :| IsPath(g, p) && p[0] == b && p[|p| - 1] == c;
    var q := [a] + p;
    forall i | 0 <= i < |q| - 1 ensures q[i + 1] in Out(g, q[i]) {
      if i > 0 {
        assert p[i] in Out(g, p[i - 1]);
      }
    }
    assert IsPath(g, q);
  }
}
