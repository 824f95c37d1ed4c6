/** Building the DAG from its declarations: from an intent tree, whose dependency
    lists may repeat names or name unknown nodes, and from a compose
    specification, whose dependencies are the keys of a map and were checked by
    the parser. */
module DagBuilding {
  import opened Names
  import opened Graph
  import opened DependencyDag

  datatype BuildError =
    | UnknownDependency(node: Name, dep: Name)
    | CycleFound(path: seq<Name>)

  datatype BuildResult = Built(dag: Dag) | Rejected(error: BuildError)

  /** `d` is the DAG of `deps`: the same nodes, the same dependencies sorted, and
      the downstream lists sorted. */
  ghost predicate IsDagOf(d: Dag, deps: Deps) {
    && d.nodes.Keys == deps.Keys
    && d.Consistent()
    && (forall n :: n in deps ==>
          && d.nodes[n].name == n
          && d.nodes[n].dependsOn == Sort(deps[n])
          && Sorted(d.nodes[n].dependedBy))
  }

  lemma SameEdges(d: Dag, deps: Deps)
    requires IsDagOf(d, deps)
    ensures forall u, v :: Edge(d.Deps(), u, v) <==> Edge(deps, u, v)
    ensures forall w :: Walk(d.Deps(), w) <==> Walk(deps, w)
    ensures Acyclic(d.Deps()) <==> Acyclic(deps)
    ensures Closed(deps)
  {
    hide Sort, Sorted, Dag.Consistent, Walk, ClosedWalk;
    var g := d.Deps();
    forall u, v ensures Edge(g, u, v) <==> Edge(deps, u, v) {
      if v in deps { SameElements(Sort(deps[v]), deps[v]); }
    }
    SameWalks(g, deps);
    ConsistentIsClosed(d);
  }

  lemma ConsistentIsClosed(d: Dag)
    requires d.Consistent()
    ensures Closed(d.Deps())
  {
  }

  lemma SameWalks(g: Deps, h: Deps)
    requires g.Keys == h.Keys && forall u, v :: Edge(g, u, v) <==> Edge(h, u, v)
    ensures forall w :: Walk(g, w) <==> Walk(h, w)
    ensures Acyclic(g) <==> Acyclic(h)
  {
    forall w ensures Walk(g, w) <==> Walk(h, w) {
      SameWalk(g, h, w);
      SameWalk(h, g, w);
    }
    assert forall w :: ClosedWalk(g, w) <==> ClosedWalk(h, w);
  }

  lemma SameWalk(g: Deps, h: Deps, w: seq<Name>)
    requires g.Keys == h.Keys && forall u, v :: Edge(g, u, v) <==> Edge(h, u, v)
    ensures Walk(g, w) ==> Walk(h, w)
  {
    if Walk(g, w) {
      forall i | 0 <= i < |w| - 1 ensures EdgeAt(h, w, i) {
        assert EdgeAt(g, w, i);
      }
    }
  }

  // --- the edges entered so far ------------------------------------------------

  /** The multiplicity with which `v` must stand in the downstream list of `u`
      once the nodes of `done` are entered and the first `i` entries of `id`. */
  ghost function Entered(deps: Deps, done: set<Name>, id: Name, i: nat, u: Name, v: Name): nat
    requires v in deps && (v == id ==> i <= |deps[v]|)
  {
    if v == id then multiset(deps[v][..i])[u]
    else if v in done then multiset(deps[v])[u]
    else 0
  }

  /** Names and upstream lists: sorted for the entered nodes, the first `i`
      entries for `id`, empty for the rest. */
  ghost predicate UpEntered(nodes: map<Name, DagNode>, deps: Deps, done: set<Name>, id: Name, i: nat)
    requires id in deps && i <= |deps[id]|
  {
    && nodes.Keys == deps.Keys
    && (forall n :: n in deps ==>
          nodes[n] == DagNode(n, Upstream(deps, done, id, i, n), nodes[n].dependedBy))
  }

  ghost function Upstream(deps: Deps, done: set<Name>, id: Name, i: nat, n: Name): seq<Name>
    requires n in deps && (n == id ==> i <= |deps[n]|)
  {
    if n == id then deps[n][..i]
    else if n in done then Sort(deps[n])
    else []
  }

  ghost predicate DownEntered(nodes: map<Name, DagNode>, deps: Deps, done: set<Name>, id: Name, i: nat)
    requires id in deps && i <= |deps[id]|
  {
    && nodes.Keys == deps.Keys
    && (forall n, d {:trigger d in nodes[n].dependedBy} :: n in nodes && d in nodes[n].dependedBy ==> d in deps)
    && (forall u, v {:trigger multiset(nodes[u].dependedBy)[v]} :: u in deps && v in deps ==>
          multiset(nodes[u].dependedBy)[v] == Entered(deps, done, id, i, u, v))
  }

  /** The assignments that enter one edge. */
  function AddEdge(nodes: map<Name, DagNode>, id: Name, dep: Name): map<Name, DagNode>
    requires id in nodes && dep in nodes
  {
    var nodes' := nodes[id := nodes[id].(dependsOn := nodes[id].dependsOn + [dep])];
    nodes'[dep := nodes'[dep].(dependedBy := nodes'[dep].dependedBy + [id])]
  }

  lemma AddEdgeUp(nodes: map<Name, DagNode>, deps: Deps, done: set<Name>, id: Name, i: nat)
    requires id in deps && i < |deps[id]| && deps[id][i] in deps
    requires UpEntered(nodes, deps, done, id, i)
    ensures UpEntered(AddEdge(nodes, id, deps[id][i]), deps, done, id, i + 1)
  {
    hide Sort;
    assert deps[id][..i + 1] == deps[id][..i] + [deps[id][i]];
  }

  lemma AddEdgeDown(nodes: map<Name, DagNode>, deps: Deps, done: set<Name>, id: Name, i: nat)
    requires id in deps && i < |deps[id]| && deps[id][i] in deps
    requires DownEntered(nodes, deps, done, id, i)
    ensures DownEntered(AddEdge(nodes, id, deps[id][i]), deps, done, id, i + 1)
  {
    hide Entered, AddEdge;
    var nodes' := AddEdge(nodes, id, deps[id][i]);
    AddEdgeAt(nodes, id, deps[id][i], id);
    forall u, v | u in deps && v in deps
      ensures multiset(nodes'[u].dependedBy)[v] == Entered(deps, done, id, i + 1, u, v)
    {
      OneMoreDown(nodes, deps, done, id, i, u, v);
    }
    forall n, d | n in nodes' && d in nodes'[n].dependedBy ensures d in deps {
      AddEdgeAt(nodes, id, deps[id][i], n);
      assert d in nodes[n].dependedBy || d == id;
    }
  }

  lemma OneMoreDown(nodes: map<Name, DagNode>, deps: Deps, done: set<Name>, id: Name, i: nat, u: Name, v: Name)
    requires id in deps && i < |deps[id]| && deps[id][i] in deps && u in deps && v in deps
    requires nodes.Keys == deps.Keys && multiset(nodes[u].dependedBy)[v] == Entered(deps, done, id, i, u, v)
    ensures AddEdge(nodes, id, deps[id][i]).Keys == deps.Keys
    ensures multiset(AddEdge(nodes, id, deps[id][i])[u].dependedBy)[v] == Entered(deps, done, id, i + 1, u, v)
  {
    hide Entered, AddEdge;
    AddEdgeAt(nodes, id, deps[id][i], u);
    EnteredNext(deps, done, id, i, u, v);
  }

  function Down(nodes: map<Name, DagNode>, id: Name, dep: Name, u: Name): seq<Name>
    requires u in nodes
  {
    if u == dep then nodes[u].dependedBy + [id] else nodes[u].dependedBy
  }

  lemma AddEdgeAt(nodes: map<Name, DagNode>, id: Name, dep: Name, u: Name)
    requires id in nodes && dep in nodes && u in nodes
    ensures AddEdge(nodes, id, dep).Keys == nodes.Keys
    ensures AddEdge(nodes, id, dep)[u].dependedBy == Down(nodes, id, dep, u)
  {
  }

  /** Taking in one more entry of `id` counts it once, for the name it is. */
  lemma EnteredNext(deps: Deps, done: set<Name>, id: Name, i: nat, u: Name, v: Name)
    requires id in deps && i < |deps[id]| && v in deps
    ensures Entered(deps, done, id, i + 1, u, v) ==
            Entered(deps, done, id, i, u, v) + if u == deps[id][i] && v == id then 1 else 0
  {
    assert deps[id][..i + 1] == deps[id][..i] + [deps[id][i]];
  }

  /** Enters the dependencies of one node. */
  method EnterNodeEdges(nodes: map<Name, DagNode>, deps: Deps, id: Name, ghost done: set<Name>)
    returns (nodes': map<Name, DagNode>, unknown: bool, dep: Name)
    requires id in deps && id !in done
    requires UpEntered(nodes, deps, done, id, 0) && DownEntered(nodes, deps, done, id, 0)
    ensures unknown ==> dep in deps[id] && dep !in deps
    ensures !unknown ==> forall u :: u in deps[id] ==> u in deps
    ensures !unknown ==> UpEntered(nodes', deps, done, id, |deps[id]|) && DownEntered(nodes', deps, done, id, |deps[id]|)
  {
    hide UpEntered, DownEntered;
    nodes' := nodes;
    for i := 0 to |deps[id]|
      invariant UpEntered(nodes', deps, done, id, i) && DownEntered(nodes', deps, done, id, i)
      invariant forall j :: 0 <= j < i ==> deps[id][j] in deps
    {
      dep := deps[id][i];
      if dep !in deps {
        return nodes', true, dep;
      }
      AddEdgeUp(nodes', deps, done, id, i);
      AddEdgeDown(nodes', deps, done, id, i);
      KeysEntered(nodes', deps, done, id, i);
      nodes' := AddEdge(nodes', id, dep);
    }
    return nodes', false, id;
  }

  lemma KeysEntered(nodes: map<Name, DagNode>, deps: Deps, done: set<Name>, id: Name, i: nat)
    requires id in deps && i <= |deps[id]| && UpEntered(nodes, deps, done, id, i)
    ensures nodes.Keys == deps.Keys
  {
  }

  /** Between two nodes: those of `done` are entered. */
  ghost predicate Entry(nodes: map<Name, DagNode>, deps: Deps, done: set<Name>) {
    && nodes.Keys == deps.Keys
    && (forall n :: n in deps ==>
          nodes[n] == DagNode(n, if n in done then Sort(deps[n]) else [], nodes[n].dependedBy))
    && (forall n, d {:trigger d in nodes[n].dependedBy} :: n in nodes && d in nodes[n].dependedBy ==> d in deps)
    && (forall u, v {:trigger multiset(nodes[u].dependedBy)[v]} :: u in deps && v in deps ==>
          multiset(nodes[u].dependedBy)[v] == if v in done then multiset(deps[v])[u] else 0)
  }

  lemma StartNode(nodes: map<Name, DagNode>, deps: Deps, done: set<Name>, id: Name)
    requires Entry(nodes, deps, done) && id in deps && id !in done
    ensures UpEntered(nodes, deps, done, id, 0) && DownEntered(nodes, deps, done, id, 0)
  {
    hide Sort;
  }

  lemma FinishNode(nodes: map<Name, DagNode>, deps: Deps, done: set<Name>, id: Name)
    requires id in deps && id !in done
    requires UpEntered(nodes, deps, done, id, |deps[id]|) && DownEntered(nodes, deps, done, id, |deps[id]|)
    ensures id in nodes
    ensures Entry(nodes[id := nodes[id].(dependsOn := Sort(nodes[id].dependsOn))], deps, done + {id})
  {
    hide Sort;
    assert deps[id][..|deps[id]|] == deps[id];
  }

  /** Sorts every downstream list. */
  function SortDownstream(nodes: map<Name, DagNode>): map<Name, DagNode> {
    map n | n in nodes :: nodes[n].(dependedBy := Sort(nodes[n].dependedBy))
  }

  lemma EntryIsDag(nodes: map<Name, DagNode>, deps: Deps)
    requires Entry(nodes, deps, deps.Keys) && Closed(deps)
    ensures IsDagOf(Dag(SortDownstream(nodes)), deps)
  {
    hide Sorted, Closed, Dag.Consistent;
    EntryIsConsistent(nodes, deps);
  }

  lemma EntryIsConsistent(nodes: map<Name, DagNode>, deps: Deps)
    requires Entry(nodes, deps, deps.Keys) && Closed(deps)
    ensures Dag(SortDownstream(nodes)).Consistent()
  {
    hide Sorted;
    var d := Dag(SortDownstream(nodes));
    forall n, x | n in d.nodes && x in d.nodes[n].dependsOn ensures x in d.nodes {
      SameElements(Sort(deps[n]), deps[n]);
      assert Edge(deps, x, n);
    }
    forall n, x | n in d.nodes && x in d.nodes[n].dependedBy ensures x in d.nodes {
      SameElements(Sort(nodes[n].dependedBy), nodes[n].dependedBy);
      assert x in nodes[n].dependedBy;
    }
    forall u, v | u in d.nodes && v in d.nodes
      ensures multiset(d.nodes[u].dependedBy)[v] == multiset(d.nodes[v].dependsOn)[u]
    {
      assert multiset(d.nodes[u].dependedBy) == multiset(nodes[u].dependedBy);
      assert multiset(nodes[u].dependedBy)[v] == multiset(deps[v])[u];
      assert multiset(Sort(deps[v])) == multiset(deps[v]);
    }
  }

  /** Builds the edge lists, visiting the nodes in any order. */
  method EnterEdges(deps: Deps) returns (result: BuildResult)
    ensures result.Built? ==> IsDagOf(result.dag, deps)
    ensures result.Rejected? ==>
              && !Closed(deps) && result.error.UnknownDependency?
              && Edge(deps, result.error.dep, result.error.node) && result.error.dep !in deps
  {
    hide Sort, Entry, UpEntered, DownEntered, IsDagOf;
    var nodes := map n | n in deps :: DagNode(n, [], []);
    var remaining := deps.Keys;
    ghost var done: set<Name> := {};
    EmptyEntry(deps, nodes);
    while remaining != {}
      invariant remaining <= deps.Keys && done == deps.Keys - remaining
      invariant Entry(nodes, deps, done)
      invariant forall u, v {:trigger Edge(deps, u, v)} :: v in done && Edge(deps, u, v) ==> u in deps
      decreases remaining
    {
      var id :| id in remaining;
      remaining := remaining - {id};
      StartNode(nodes, deps, done, id);
      var nodes', unknown, dep := EnterNodeEdges(nodes, deps, id, done);
      if unknown {
        assert Edge(deps, dep, id);
        return Rejected(UnknownDependency(id, dep));
      }
      FinishNode(nodes', deps, done, id);
      nodes := nodes'[id := nodes'[id].(dependsOn := Sort(nodes'[id].dependsOn))];
      done := done + {id};
    }
    assert done == deps.Keys;
    EntryIsDag(nodes, deps);
    return Built(Dag(SortDownstream(nodes)));
  }

  lemma EmptyEntry(deps: Deps, nodes: map<Name, DagNode>)
    requires nodes == map n | n in deps :: DagNode(n, [], [])
    ensures Entry(nodes, deps, {})
  {
  }

  /** Accepts exactly the closed acyclic trees; a rejection names a dependency on
      an unknown node, or a closed walk. */
  method BuildIntentDag(deps: Deps) returns (result: BuildResult)
    ensures result.Built? <==> Closed(deps) && Acyclic(deps)
    ensures result.Built? ==> IsDagOf(result.dag, deps)
    ensures result.Rejected? ==>
              match result.error
              case UnknownDependency(n, dep) => Edge(deps, dep, n) && dep !in deps
              case CycleFound(path) => Closed(deps) && ClosedWalk(deps, path)
  {
    hide Acyclic, Closed, Dag.Consistent, Sorted, Sort, Walk;
    result := EnterEdges(deps);
    if result.Built? {
      SameEdges(result.dag, deps);
      var path, found := DetectCycle(result.dag);
      if found {
        return Rejected(CycleFound(path));
      }
    }
  }

  /** A compose specification: each agent with the set of agents it depends on. */
  type ComposeDeps = map<Name, set<Name>>

  /** The keys of a dependency map, listed in the order the map yields them. */
  method ListKeys(keys: set<Name>) returns (names: seq<Name>)
    ensures Distinct(names) && forall n :: n in names <==> n in keys
  {
    names := [];
    var remaining := keys;
    while remaining != {}
      invariant remaining <= keys && Distinct(names)
      invariant forall n :: n in names <==> n in keys - remaining
      decreases remaining
    {
      var n :| n in remaining;
      remaining := remaining - {n};
      DistinctAppend(names, n);
      names := names + [n];
    }
  }

  /** Each agent's dependencies, listed once each in some order. */
  ghost predicate Lists(deps: Deps, spec: ComposeDeps) {
    && deps.Keys == spec.Keys
    && forall a {:trigger ListsOne(deps, spec, a)} :: a in spec ==> ListsOne(deps, spec, a)
  }

  ghost predicate ListsOne(deps: Deps, spec: ComposeDeps, a: Name) {
    && a in deps && a in spec
    && Distinct(deps[a]) && forall n :: n in deps[a] <==> n in spec[a]
  }

  lemma ListsAreClosed(deps: Deps, spec: ComposeDeps)
    requires Lists(deps, spec)
    requires forall a, b :: a in spec && b in spec[a] ==> b in spec
    ensures Closed(deps)
  {
    forall u, v | Edge(deps, u, v) ensures u in deps {
      assert ListsOne(deps, spec, v);
    }
  }

  /** The compose builder.  The parser has checked that every dependency is an
      agent, so only a cycle is left to reject. */
  method BuildComposeDag(spec: ComposeDeps) returns (result: BuildResult, ghost deps: Deps)
    requires forall a, b :: a in spec && b in spec[a] ==> b in spec
    ensures Lists(deps, spec)
    ensures result.Built? <==> Acyclic(deps)
    ensures result.Built? ==> IsDagOf(result.dag, deps) && BuiltFrom(result.dag, spec)
    ensures result.Rejected? ==> result.error.CycleFound? && ClosedWalk(deps, result.error.path)
  {
    hide Acyclic, Closed, IsDagOf, ClosedWalk, BuiltFrom;
    var lists: Deps := map[];
    var remaining := spec.Keys;
    while remaining != {}
      invariant remaining <= spec.Keys && lists.Keys == spec.Keys - remaining
      invariant forall a {:trigger ListsOne(lists, spec, a)} :: a in lists ==> ListsOne(lists, spec, a)
      decreases remaining
    {
      var a :| a in remaining;
      remaining := remaining - {a};
      var listed := ListKeys(spec[a]);
      ghost var before := lists;
      lists := lists[a := listed];
      forall b | b in lists ensures ListsOne(lists, spec, b) {
        assert b != a ==> ListsOne(before, spec, b);
      }
    }
    deps := lists;
    ListsAreClosed(deps, spec);
    result := BuildIntentDag(lists);
    if result.Rejected? && result.error.UnknownDependency? {
      UnknownIsOpen(deps, result.error.dep, result.error.node);
    }
    if result.Built? { BuiltFromLists(result.dag, deps, spec); }
  }

  /** The nodes are the agents, each with exactly the dependencies specified. */
  ghost predicate BuiltFrom(dag: Dag, spec: ComposeDeps) {
    && dag.nodes.Keys == spec.Keys
    && forall a, n :: a in spec ==> (n in dag.nodes[a].dependsOn <==> n in spec[a])
  }

  lemma BuiltFromLists(dag: Dag, deps: Deps, spec: ComposeDeps)
    requires IsDagOf(dag, deps) && Lists(deps, spec)
    ensures BuiltFrom(dag, spec)
  {
    forall a, n | a in spec ensures a in dag.nodes && (n in dag.nodes[a].dependsOn <==> n in spec[a]) {
      assert ListsOne(deps, spec, a);
      SameElements(Sort(deps[a]), deps[a]);
    }
  }

  lemma UnknownIsOpen(deps: Deps, u: Name, v: Name)
    requires Edge(deps, u, v) && u !in deps
    ensures !Closed(deps)
  {
  }
}
