/** The pipeline topology: loading jobs and dependencies, the searches over them, and the two
    validators that look for cycles. */
module TopologyModel {
  import opened Graphs

  datatype Job = Job(id: Id, domain: string, stage: string, schedule: string, durationSec: int, active: bool)

  datatype Edge = Edge(id: string, parent: Id, child: Id, required: bool)

  datatype Issue =
    | MissingParent(edge: string)
    | MissingChild(edge: string)
    | CycleAt(job: Id)

  // ----- what the rows of the input files mean

  function EdgesFrom(rows: seq<Edge>, parent: Id): seq<Edge> {
    if rows == [] then []
    else
      var rest := EdgesFrom(rows[..|rows| - 1], parent);
      if rows[|rows| - 1].parent == parent then rest + [rows[|rows| - 1]] else rest
  }

  function EdgesInto(rows: seq<Edge>, child: Id): seq<Edge> {
    if rows == [] then []
    else
      var rest := EdgesInto(rows[..|rows| - 1], child);
      if rows[|rows| - 1].child == child then rest + [rows[|rows| - 1]] else rest
  }

  lemma {:induction false} EdgesFromMembers(rows: seq<Edge>, parent: Id, e: Edge)
    ensures e in EdgesFrom(rows, parent) <==> e in rows && e.parent == parent
  {
    if rows != [] {
      EdgesFromMembers(rows[..|rows| - 1], parent, e);
      assert rows == rows[..|rows| - 1] + [rows[|rows| - 1]];
    }
  }

  lemma {:induction false} EdgesIntoMembers(rows: seq<Edge>, child: Id, e: Edge)
    ensures e in EdgesInto(rows, child) <==> e in rows && e.child == child
  {
    if rows != [] {
      EdgesIntoMembers(rows[..|rows| - 1], child, e);
      assert rows == rows[..|rows| - 1] + [rows[|rows| - 1]];
    }
  }

  function ChildIds(es: seq<Edge>): (ids: seq<Id>)
    ensures |ids| == |es| && forall v :: v in ids <==> exists e :: e in es && e.child == v
  {
    var ids := seq(|es|, i requires 0 <= i < |es| => es[i].child);
    assert forall i :: 0 <= i < |es| ==> ids[i] == es[i].child && es[i] in es;
    ids
  }

  function ParentIds(es: seq<Edge>): (ids: seq<Id>)
    ensures |ids| == |es| && forall v :: v in ids <==> exists e :: e in es && e.parent == v
  {
    var ids := seq(|es|, i requires 0 <= i < |es| => es[i].parent);
    assert forall i :: 0 <= i < |es| ==> ids[i] == es[i].parent && es[i] in es;
    ids
  }

  /** Every row names jobs that exist. */
  predicate Referential(jobs: set<Id>, rows: seq<Edge>) {
    forall e :: e in rows ==> e.parent in jobs && e.child in jobs
  }

  /** The job order lists each job once. */
  ghost predicate Listed(jobs: map<Id, Job>, order: seq<Id>) {
    && NoRepeats(order) && (forall j :: j in jobs <==> j in order)
    && (forall j :: j in jobs ==> jobs[j].id == j)
  }

  /** The adjacency lists are the rows, filed under the jobs that exist. */
  predicate Linked(jobs: set<Id>, children: map<Id, seq<Edge>>, parents: map<Id, seq<Edge>>, rows: seq<Edge>) {
    && children.Keys == jobs && parents.Keys == jobs
    && (forall j :: j in jobs ==> children[j] == EdgesFrom(rows, j) && parents[j] == EdgesInto(rows, j))
  }

  lemma ListedOnce(jobs: map<Id, Job>, order: seq<Id>, job: Job)
    requires Listed(jobs, order)
    ensures Listed(jobs[job.id := job], if job.id in jobs then order else order + [job.id])
  {
  }

  lemma NoRowsLink(jobs: set<Id>, children: map<Id, seq<Edge>>, parents: map<Id, seq<Edge>>, id: Id)
    requires Linked(jobs, children, parents, [])
    ensures Linked(jobs + {id}, children[id := []], parents[id := []], [])
  {
  }

  /** Filing one more row. */
  lemma RowLinks(jobs: set<Id>, children: map<Id, seq<Edge>>, parents: map<Id, seq<Edge>>, rows: seq<Edge>, e: Edge)
    requires Linked(jobs, children, parents, rows)
    ensures Linked(jobs,
                   if e.parent in children then children[e.parent := children[e.parent] + [e]] else children,
                   if e.child in parents then parents[e.child := parents[e.child] + [e]] else parents,
                   rows + [e])
  {
    var longer := rows + [e];
    assert longer[..|longer| - 1] == rows;
    forall j ensures EdgesFrom(longer, j) == EdgesFrom(rows, j) + if e.parent == j then [e] else [] {
    }
    forall j ensures EdgesInto(longer, j) == EdgesInto(rows, j) + if e.child == j then [e] else [] {
    }
  }

  // ----- the topology

  class Topology {
    var jobs: map<Id, Job>
    /** The ids in the order in which the job table lists them. */
    var jobOrder: seq<Id>
    /** One edge per edge id: a later row replaces an earlier one. */
    var edges: map<string, Edge>
    var children: map<Id, seq<Edge>>
    var parents: map<Id, seq<Edge>>
    /** The dependency rows that have been read. */
    ghost var rows: seq<Edge>

    ghost predicate Valid()
      reads this
    {
      Listed(jobs, jobOrder) && Linked(jobs.Keys, children, parents, rows)
    }

    constructor (jobRows: seq<Job>, edgeRows: seq<Edge>)
      ensures Valid() && rows == edgeRows
      ensures forall j :: j in jobs <==> exists r :: r in jobRows && r.id == j
      ensures forall e :: e in edges ==> edges[e] in edgeRows && edges[e].id == e
      ensures forall r :: r in edgeRows ==> r.id in edges
    {
      jobs, jobOrder, edges, children, parents, rows := map[], [], map[], map[], map[], [];
      new;
      assert Valid();
      LoadJobs(jobRows);
      LoadDependencies(edgeRows);
    }

    /** One row of the job table. */
    method AddJob(job: Job)
      requires Valid() && rows == []
      modifies this
      ensures Valid() && rows == [] && edges == old(edges)
      ensures jobs.Keys == old(jobs).Keys + {job.id}
    {
      hide Listed, Linked;
      ListedOnce(jobs, jobOrder, job);
      NoRowsLink(jobs.Keys, children, parents, job.id);
      if job.id !in jobs {
        jobOrder := jobOrder + [job.id];
      }
      assert jobs[job.id := job].Keys == jobs.Keys + {job.id};
      jobs := jobs[job.id := job];
      children := children[job.id := []];
      parents := parents[job.id := []];
    }

    /** _load_jobs. */
    method LoadJobs(jobRows: seq<Job>)
      requires Valid() && jobs == map[] && rows == [] && edges == map[]
      modifies this
      ensures Valid() && rows == [] && edges == map[]
      ensures forall j :: j in jobs <==> exists r :: r in jobRows && r.id == j
    {
      hide Listed, Linked;
      var i := 0;
      while i < |jobRows|
        invariant 0 <= i <= |jobRows| && Valid() && rows == [] && edges == map[]
        invariant jobs.Keys == set k | 0 <= k < i :: jobRows[k].id
      {
        AddJob(jobRows[i]);
        i := i + 1;
      }
      assert forall r :: r in jobRows ==> exists k :: 0 <= k < |jobRows| && jobRows[k] == r;
    }

    /** One row of the dependency table. */
    method AddEdge(edge: Edge)
      requires Valid()
      modifies this
      ensures Valid() && rows == old(rows) + [edge] && jobs == old(jobs)
      ensures edges == old(edges)[edge.id := edge]
    {
      hide Listed, Linked;
      RowLinks(jobs.Keys, children, parents, rows, edge);
      edges := edges[edge.id := edge];
      children := if edge.parent in children then children[edge.parent := children[edge.parent] + [edge]]
                  else children;
      parents := if edge.child in parents then parents[edge.child := parents[edge.child] + [edge]] else parents;
      rows := rows + [edge];
    }

    /** _load_dependencies. */
    method LoadDependencies(edgeRows: seq<Edge>)
      requires Valid() && rows == [] && edges == map[]
      modifies this
      ensures Valid() && rows == edgeRows && jobs == old(jobs)
      ensures forall e :: e in edges ==> edges[e] in edgeRows && edges[e].id == e
      ensures forall r :: r in edgeRows ==> r.id in edges
    {
      hide Listed, Linked;
      var i := 0;
      while i < |edgeRows|
        invariant 0 <= i <= |edgeRows| && Valid() && rows == edgeRows[..i] && jobs == old(jobs)
        invariant forall e :: e in edges ==> edges[e] in edgeRows[..i] && edges[e].id == e
        invariant forall r :: r in edgeRows[..i] ==> r.id in edges
      {
        AddEdge(edgeRows[i]);
        assert edgeRows[..i + 1] == edgeRows[..i] + [edgeRows[i]];
        i := i + 1;
      }
      assert edgeRows[..i] == edgeRows;
    }

    /** The graph that get_children shows. */
    function ChildGraph(): Graph
      reads this
    {
      map j | j in children :: ChildIds(children[j])
    }

    /** The graph that get_parents shows. */
    function ParentGraph(): Graph
      reads this
    {
      map j | j in parents :: ParentIds(parents[j])
    }

    lemma ChildEdges(u: Id, v: Id)
      requires Valid()
      ensures v in Out(ChildGraph(), u) <==> u in jobs && exists e :: e in rows && e.parent == u && e.child == v
    {
      if u in jobs {
        forall e ensures e in children[u] <==> e in rows && e.parent == u {
          EdgesFromMembers(rows, u, e);
        }
      }
    }

    lemma ParentEdges(u: Id, v: Id)
      requires Valid()
      ensures u in Out(ParentGraph(), v) <==> v in jobs && exists e :: e in rows && e.parent == u && e.child == v
    {
      if v in jobs {
        forall e ensures e in parents[v] <==> e in rows && e.child == v {
          EdgesIntoMembers(rows, v, e);
        }
      }
    }

    /** Without dangling rows each graph is the other one reversed. */
    lemma GraphsAreTransposed(u: Id, v: Id)
      requires Valid() && Referential(jobs.Keys, rows)
      ensures v in Out(ChildGraph(), u) <==> u in Out(ParentGraph(), v)
    {
      ChildEdges(u, v);
      ParentEdges(u, v);
    }

    lemma {:induction false} ReversedPath(p: seq<Id>) returns (q: seq<Id>)
      requires Valid() && Referential(jobs.Keys, rows) && IsPath(ParentGraph(), p)
      ensures IsPath(ChildGraph(), q) && q[0] == p[|p| - 1] && q[|q| - 1] == p[0]
      decreases |p|
    {
      hide Listed, Linked, Referential, ChildIds, ParentIds, Out;
      if |p| == 1 {
        q := p;
      } else {
        var rest := p[1..];
        forall i | 0 <= i < |rest| - 1 ensures rest[i + 1] in Out(ParentGraph(), rest[i]) {
          assert p[i + 2] in Out(ParentGraph(), p[i + 1]);
        }
        var r := ReversedPath(rest);
        assert p[1] in Out(ParentGraph(), p[0]);
        GraphsAreTransposed(p[1], p[0]);
        q := r + [p[0]];
      }
    }

    lemma {:induction false} UnreversedPath(p: seq<Id>) returns (q: seq<Id>)
      requires Valid() && Referential(jobs.Keys, rows) && IsPath(ChildGraph(), p)
      ensures IsPath(ParentGraph(), q) && q[0] == p[|p| - 1] && q[|q| - 1] == p[0]
      decreases |p|
    {
      hide Listed, Linked, Referential, ChildIds, ParentIds, Out;
      if |p| == 1 {
        q := p;
      } else {
        var rest := p[1..];
        forall i | 0 <= i < |rest| - 1 ensures rest[i + 1] in Out(ChildGraph(), rest[i]) {
          assert p[i + 2] in Out(ChildGraph(), p[i + 1]);
        }
        var r := UnreversedPath(rest);
        assert p[1] in Out(ChildGraph(), p[0]);
        GraphsAreTransposed(p[0], p[1]);
        q := r + [p[0]];
      }
    }

    /** topological_sort: each reachable id once, and in an acyclic graph every edge forward. */
    method TopologicalSort() returns (order: seq<Id>)
      requires Valid()
      ensures NoRepeats(order) && forall j :: j in jobs ==> j in order
      ensures Referential(jobs.Keys, rows) ==> forall j :: j in order ==> j in jobs
      ensures !Cyclic(ChildGraph()) ==> Sorted(ChildGraph(), order)
    {
      var search := new TopologicalSearch(ChildGraph());
      VisitJobs(search);
      return search.order;
    }

    /** The outer loop of topological_sort. */
    method VisitJobs(search: TopologicalSearch)
      requires Valid() && search.Valid() && search.g == ChildGraph() && search.universe == Nodes(search.g)
      requires search.visited == {} && search.tempMark == {}
      modifies search
      ensures search.Valid() && search.tempMark == {}
      ensures forall j :: j in jobs ==> j in search.visited
      ensures Referential(jobs.Keys, rows) ==> search.visited <= jobs.Keys
    {
      hide Reaches, Referential, Listed, Linked, Nodes, ChildGraph, NoRepeats, Sorted, Cyclic, Closed;
      JobsAreNodes();
      var i := 0;
      while i < |jobOrder|
        invariant 0 <= i <= |jobOrder| && search.Valid() && search.tempMark == {}
        invariant forall k :: 0 <= k < i ==> jobOrder[k] in search.visited
        invariant Referential(jobs.Keys, rows) ==> search.visited <= jobs.Keys
      {
        if jobOrder[i] !in search.visited {
          var _ := search.Visit(jobOrder[i]);
          if Referential(jobs.Keys, rows) {
            ReachedAreJobs(jobOrder[i]);
          }
        }
        i := i + 1;
      }
    }

    lemma JobsAreNodes()
      requires Valid()
      ensures forall k :: 0 <= k < |jobOrder| ==> jobOrder[k] in jobs && jobOrder[k] in Nodes(ChildGraph())
      ensures forall j :: j in jobs ==> j in jobOrder
    {
      hide ChildIds;
    }

    lemma ReachedAreJobs(start: Id)
      requires Valid() && Referential(jobs.Keys, rows) && start in jobs
      ensures forall x :: Reaches(ChildGraph(), start, x) ==> x in jobs
    {
      var g := ChildGraph();
      forall n, v | n in jobs && v in Out(g, n) ensures v in jobs {
        ChildEdges(n, v);
      }
      forall x | Reaches(g, start, x) ensures x in jobs {
        var p :| IsPath(g, p) && p[0] == start && p[|p| - 1] == x;
        ClosedKeepsPath(g, jobs.Keys, p);
      }
    }

    /** get_descendants: exactly what the job reaches, itself aside, and in an acyclic graph
        every edge goes forward. */
    method GetDescendants(job: Id) returns (r: seq<Id>)
      requires Valid()
      ensures NoRepeats([job] + r)
      ensures forall x :: x in [job] + r <==> Reaches(ChildGraph(), job, x)
      ensures !Cyclic(ChildGraph()) ==> Sorted(ChildGraph(), [job] + r)
    {
      hide Listed, Linked, Reaches, Closed, Nodes, Sorted, Finished, ChildGraph;
      var search := new ReachSearch(ChildGraph(), job);
      search.Dfs(job);
      search.Complete(job);
      var order := Reversed(search.order);
      ReversedIsSorted(ChildGraph(), search.order);
      assert order == [job] + order[1..];
      return order[1..];
    }

    /** get_ancestors: exactly what the parent edges lead to, itself aside, and in an acyclic
        graph parents first. These are the jobs that reach this one, if every row joins jobs. */
    method GetAncestors(job: Id) returns (r: seq<Id>)
      requires Valid()
      ensures NoRepeats(r + [job])
      ensures forall x :: x in r + [job] <==> Reaches(ParentGraph(), job, x)
      ensures Referential(jobs.Keys, rows) ==> forall x :: x in r + [job] <==> Reaches(ChildGraph(), x, job)
      ensures !Cyclic(ParentGraph()) ==> Finished(ParentGraph(), r + [job])
    {
      hide NoRepeats, Finished, Referential, Listed, Linked, Reaches, Closed, Nodes;
      var search := new ReachSearch(ParentGraph(), job);
      search.Dfs(job);
      search.Complete(job);
      var order := search.order;
      assert order == order[..|order| - 1] + [job];
      if Referential(jobs.Keys, rows) {
        forall x ensures Reaches(ParentGraph(), job, x) <==> Reaches(ChildGraph(), x, job) {
          ReachesReversed(job, x);
        }
      }
      return order[..|order| - 1];
    }

    lemma ReachesReversed(a: Id, b: Id)
      requires Valid() && Referential(jobs.Keys, rows)
      ensures Reaches(ParentGraph(), a, b) <==> Reaches(ChildGraph(), b, a)
    {
      if Reaches(ParentGraph(), a, b) {
        var p :| IsPath(ParentGraph(), p) && p[0] == a && p[|p| - 1] == b;
        var q := ReversedPath(p);
      }
      if Reaches(ChildGraph(), b, a) {
        var p :| IsPath(ChildGraph(), p) && p[0] == b && p[|p| - 1] == a;
        var q := UnreversedPath(p);
      }
    }

    /** The cycle search of validate, which stops at the first job that reaches a cycle. */
    method FirstCycle() returns (issues: seq<Issue>)
      requires Valid()
      ensures issues != [] <==> Cyclic(ChildGraph())
      ensures |issues| <= 1
    {
      var search := new CycleSearch(ChildGraph());
      issues := SearchJobs(search);
      if issues == [] {
        FinishedIsAcyclic(ChildGraph(), search.finished);
      }
    }

    /** The loop of that search over the jobs. */
    method SearchJobs(search: CycleSearch) returns (issues: seq<Issue>)
      requires Valid() && search.Valid() && search.g == ChildGraph() && search.universe == Nodes(search.g)
      requires search.visited == {} && search.tempMark == {}
      modifies search
      ensures search.Valid() && |issues| <= 1
      ensures issues != [] ==> Cyclic(search.g)
      ensures issues == [] ==> forall j :: j in jobs ==> j in search.visited
    {
      hide NoRepeats, Finished, Closed, Cyclic, ChildIds, EdgesFrom, EdgesInto;
      var i := 0;
      while i < |jobOrder|
        invariant 0 <= i <= |jobOrder| && search.Valid() && search.tempMark == {}
        invariant forall k :: 0 <= k < i ==> jobOrder[k] in search.visited
      {
        if jobOrder[i] !in search.visited {
          var cyclic := search.HasCycle(jobOrder[i]);
          if cyclic {
            return [CycleAt(jobOrder[i])];
          }
        }
        i := i + 1;
      }
      return [];
    }
  }

  // ----- the second validator

  /** The edges of a table without repeated ids, as validate_dag_integrity groups them. */
  function GroupedChildren(jobs: set<Id>, edges: seq<Edge>): Graph {
    map j | j in jobs :: ChildIds(EdgesFrom(edges, j))
  }

  /** validate_dag_integrity over the jobs and the edge table: it goes on after a cycle, with
      the marks of the abandoned search still set. */
  method ValidateDagIntegrity(jobs: seq<Id>, edges: seq<Edge>) returns (issues: seq<Issue>)
    ensures issues != [] <==> Cyclic(GroupedChildren((set j | j in jobs), edges))
  {
    var g := GroupedChildren((set j | j in jobs), edges);
    var search := new CycleSearch(g);
    issues := [];
    var i := 0;
    while i < |jobs|
      invariant 0 <= i <= |jobs| && search.Valid() && search.g == g && search.universe == Nodes(g)
      invariant issues != [] ==> Cyclic(g)
      invariant issues == [] ==> search.tempMark == {} && forall k :: 0 <= k < i ==> jobs[k] in search.visited
    {
      if jobs[i] !in search.visited {
        var cyclic := search.HasCycle(jobs[i]);
        if cyclic {
          issues := issues + [CycleAt(jobs[i])];
        }
      }
      i := i + 1;
    }
    if issues == [] {
      FinishedIsAcyclic(g, search.finished);
    }
  }

  /** The edge table of a topology: the last row of every edge id. */
  ghost predicate IsEdgeTable(t: Topology, edges: seq<Edge>)
    reads t
  {
    && (forall e :: e in edges <==> e.id in t.edges && t.edges[e.id] == e)
    && (forall i, j :: 0 <= i < j < |edges| ==> edges[i].id != edges[j].id)
  }

  /** No row's id is used again for another row. */
  ghost predicate DistinctIds(t: Topology)
    reads t
  {
    forall e :: e in t.rows ==> e.id in t.edges && t.edges[e.id] == e
  }

  /** Each edge of the table is a row, and each row is in the table if no id is repeated. */
  lemma TableEdgesAreRows(t: Topology, edges: seq<Edge>, u: Id, v: Id)
    requires t.Valid() && IsEdgeTable(t, edges)
    requires forall e :: e in t.edges ==> t.edges[e] in t.rows
    ensures v in Out(GroupedChildren(t.jobs.Keys, edges), u) ==> v in Out(t.ChildGraph(), u)
    ensures DistinctIds(t) && v in Out(t.ChildGraph(), u) ==> v in Out(GroupedChildren(t.jobs.Keys, edges), u)
  {
    t.ChildEdges(u, v);
    if u in t.jobs {
      forall e ensures e in EdgesFrom(edges, u) <==> e in edges && e.parent == u {
        EdgesFromMembers(edges, u, e);
      }
    }
  }

  lemma MoreEdgesMoreCycles(g: Graph, h: Graph)
    requires forall u, v :: v in Out(g, u) ==> v in Out(h, u)
    ensures Cyclic(g) ==> Cyclic(h)
  {
    if Cyclic(g) {
      var a :| Leads(g, a, a);
      var p :| IsPath(g, p) && |p| >= 2 && p[0] == a && p[|p| - 1] == a;
      assert IsPath(h, p);
      assert Leads(h, a, a);
    }
  }

  /** A cycle in the edge table is one in the rows, whatever the ids; both validators find a
      cycle in the same topologies as long as no edge id is repeated. */
  lemma ValidatorsAgree(t: Topology, edges: seq<Edge>)
    requires t.Valid() && IsEdgeTable(t, edges)
    requires forall e :: e in t.edges ==> t.edges[e] in t.rows
    ensures Cyclic(GroupedChildren(t.jobs.Keys, edges)) ==> Cyclic(t.ChildGraph())
    ensures DistinctIds(t) ==> (Cyclic(GroupedChildren(t.jobs.Keys, edges)) <==> Cyclic(t.ChildGraph()))
  {
    var table := GroupedChildren(t.jobs.Keys, edges);
    forall u, v
      ensures v in Out(table, u) ==> v in Out(t.ChildGraph(), u)
      ensures DistinctIds(t) && v in Out(t.ChildGraph(), u) ==> v in Out(table, u)
    {
      TableEdgesAreRows(t, edges, u, v);
    }
    MoreEdgesMoreCycles(table, t.ChildGraph());
    if DistinctIds(t) {
      MoreEdgesMoreCycles(t.ChildGraph(), table);
    }
  }

  /** With a repeated edge id they can disagree: the adjacency lists keep both rows, the edge
      table only the last. */
  lemma RepeatedIdsDisagree(t: Topology, a: Id, b: Id, x: Edge, y: Edge)
    requires t.Valid() && t.jobs.Keys == {a, b} && a != b && t.rows == [x, y]
    requires x.id == y.id && x.parent == a && x.child == b && y.parent == b && y.child == a
    ensures Cyclic(t.ChildGraph()) && !Cyclic(GroupedChildren(t.jobs.Keys, [y]))
  {
    BothRowsMakeACycle(t, a, b, x, y);
    LastRowAloneIsAcyclic(t.jobs.Keys, a, b, y);
  }

  lemma BothRowsMakeACycle(t: Topology, a: Id, b: Id, x: Edge, y: Edge)
    requires t.Valid() && a in t.jobs && b in t.jobs && t.rows == [x, y]
    requires x.parent == a && x.child == b && y.parent == b && y.child == a
    ensures Cyclic(t.ChildGraph())
  {
    hide Listed, Linked, ChildIds;
    var g := t.ChildGraph();
    assert x in t.rows && y in t.rows;
    t.ChildEdges(a, b);
    t.ChildEdges(b, a);
    EdgeLeads(g, a, b);
    LeadsOn(g, a, b, a);
  }

  lemma LastRowAloneIsAcyclic(jobs: set<Id>, a: Id, b: Id, y: Edge)
    requires jobs == {a, b} && a != b && y.parent == b && y.child == a
    ensures !Cyclic(GroupedChildren(jobs, [y]))
  {
    var h := GroupedChildren(jobs, [y]);
    forall u, v | v in Out(h, u) ensures u == b && v == a {
      var e :| e in EdgesFrom([y], u) && e.child == v;
      EdgesFromMembers([y], u, e);
    }
    assert [a, b][..1] == [a];
    assert Finished(h, [a, b]);
    FinishedIsAcyclic(h, [a, b]);
  }

  /** The edge and cycle checks of validate. */
  method Validate(t: Topology) returns (issues: seq<Issue>)
    requires t.Valid()
    ensures issues == [] <==>
      (forall e :: e in t.edges ==> t.edges[e].parent in t.jobs && t.edges[e].child in t.jobs)
      && !Cyclic(t.ChildGraph())
  {
    hide Cyclic;
    issues := [];
    var rest := t.edges.Keys;
    while rest != {}
      invariant rest <= t.edges.Keys
      invariant issues == [] <==> forall e :: e in t.edges && e !in rest ==>
                  t.edges[e].parent in t.jobs && t.edges[e].child in t.jobs
      decreases |rest|
    {
      var e :| e in rest;
      if t.edges[e].parent !in t.jobs {
        issues := issues + [MissingParent(e)];
      }
      if t.edges[e].child !in t.jobs {
        issues := issues + [MissingChild(e)];
      }
      rest := rest - {e};
    }
    var cycles := t.FirstCycle();
    issues := issues + cycles;
  }

  /** On a topology that validates and repeats no edge id, the sort is a permutation of the
      jobs in which every dependency goes forward. */
  method SortValidated(t: Topology) returns (issues: seq<Issue>, order: seq<Id>)
    requires t.Valid()
    ensures issues == [] && (forall e :: e in t.rows ==> e.id in t.edges && t.edges[e.id] == e) ==>
      && NoRepeats(order) && (forall j :: j in order <==> j in t.jobs)
      && forall e :: e in t.rows ==> exists i, k :: 0 <= i < k < |order| && order[i] == e.parent && order[k] == e.child
  {
    hide Sorted, Listed, Linked, Cyclic, NoRepeats;
    issues := Validate(t);
    order := t.TopologicalSort();
    if issues == [] && forall e :: e in t.rows ==> e.id in t.edges && t.edges[e.id] == e {
      forall e | e in t.rows
        ensures exists i, k :: 0 <= i < k < |order| && order[i] == e.parent && order[k] == e.child
      {
        DependencyGoesForward(t, order, e);
      }
    }
  }

  lemma DependencyGoesForward(t: Topology, order: seq<Id>, e: Edge)
    requires t.Valid() && Sorted(t.ChildGraph(), order)
    requires e in t.rows && e.parent in t.jobs && e.parent in order
    ensures exists i, k :: 0 <= i < k < |order| && order[i] == e.parent && order[k] == e.child
  {
    var i :| 0 <= i < |order| && order[i] == e.parent;
    t.ChildEdges(e.parent, e.child);
    assert e.child in order[i + 1..];
    var d :| 0 <= d < |order[i + 1..]| && order[i + 1..][d] == e.child;
    assert order[i + 1 + d] == e.child;
  }
}
