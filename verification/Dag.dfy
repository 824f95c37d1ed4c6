/** The dependency DAG shared by intent trees and compose workflows: nodes with
    their sorted upstream and downstream lists, cycle detection by three-colour
    depth-first search, and layering by in-degree counting.  Dependency lists may
    repeat a name; the downstream lists then repeat it as often. */
module DependencyDag {
  import opened Names
  import opened Graph
  import opened Sets

  datatype DagNode = DagNode(name: Name, dependsOn: seq<Name>, dependedBy: seq<Name>)

  datatype Dag = Dag(nodes: map<Name, DagNode>) {
    /** The graph the nodes' upstream lists describe. */
    function Deps(): Deps {
      map n | n in nodes :: nodes[n].dependsOn
    }

    /** Upstream and downstream lists name nodes only and record the same edges,
        each as often as the other. */
    ghost predicate Consistent() {
      && (forall n, d {:trigger d in nodes[n].dependsOn} :: n in nodes && d in nodes[n].dependsOn ==> d in nodes)
      && (forall n, d {:trigger d in nodes[n].dependedBy} :: n in nodes && d in nodes[n].dependedBy ==> d in nodes)
      && (forall u, v {:trigger multiset(nodes[u].dependedBy)[v]} :: u in nodes && v in nodes ==>
            multiset(nodes[u].dependedBy)[v] == multiset(nodes[v].dependsOn)[u])
    }
  }

  lemma DownstreamIsEdge(d: Dag, u: Name, v: Name)
    requires d.Consistent() && u in d.nodes
    ensures v in d.nodes[u].dependedBy <==> v in d.nodes && Edge(d.Deps(), u, v)
  {
    if v in d.nodes {
      assert v in d.nodes[u].dependedBy <==> multiset(d.nodes[u].dependedBy)[v] > 0;
      assert u in d.nodes[v].dependsOn <==> multiset(d.nodes[v].dependsOn)[u] > 0;
    }
  }

  // ------------------------------------------------------------------------
  // Cycle detection
  // ------------------------------------------------------------------------

  datatype Color = White | Gray | Black

  /** `path` is a walk downstream, and each node on it is its successor's parent. */
  ghost predicate GrayPath(d: Dag, parent: map<Name, Name>, path: seq<Name>) {
    && Distinct(path)
    && (forall i :: 0 <= i < |path| ==> path[i] in d.nodes)
    && (forall i {:trigger LinkAt(d, parent, path, i)} :: 0 < i < |path| ==> LinkAt(d, parent, path, i))
  }

  ghost predicate LinkAt(d: Dag, parent: map<Name, Name>, path: seq<Name>, i: int)
    requires 0 < i < |path|
  {
    Link(d, parent, path[i - 1], path[i])
  }

  ghost predicate Link(d: Dag, parent: map<Name, Name>, u: Name, v: Name) {
    && u in d.nodes && v in d.nodes[u].dependedBy
    && v in parent && parent[v] == u
  }

  /** Everything downstream of a ranked node is ranked, and lower. */
  ghost predicate FinishOrder(d: Dag, rank: map<Name, int>) {
    && rank.Keys <= d.nodes.Keys
    && (forall n :: n in rank ==> rank[n] < |rank|)
    && (forall n, s {:trigger s in d.nodes[n].dependedBy} :: n in rank && s in d.nodes[n].dependedBy ==>
          s in rank && rank[s] < rank[n])
  }

  /** Grey nodes are the current path, black nodes the ranked ones. */
  ghost predicate Colored(color: map<Name, Color>, path: seq<Name>, rank: map<Name, int>) {
    && (forall n :: n in color && color[n] == Gray <==> n in path)
    && (forall n :: n in color && color[n] == Black <==> n in rank)
    && (forall n :: n in color ==> color[n] != White)
  }

  ghost predicate SearchInv(d: Dag, color: map<Name, Color>, parent: map<Name, Name>,
                            path: seq<Name>, rank: map<Name, int>)
  {
    && color.Keys <= d.nodes.Keys
    && GrayPath(d, parent, path) && FinishOrder(d, rank) && Colored(color, path, rank)
  }

  lemma EnterNode(d: Dag, color: map<Name, Color>, parent: map<Name, Name>,
                  path: seq<Name>, rank: map<Name, int>, node: Name)
    requires SearchInv(d, color, parent, path, rank)
    requires node in d.nodes && node !in color
    requires path != [] ==> Link(d, parent, path[|path| - 1], node)
    ensures SearchInv(d, color[node := Gray], parent, path + [node], rank)
  {
    var full := path + [node];
    assert forall n :: n in full <==> n in path || n == node;
    forall i | 0 < i < |full| ensures LinkAt(d, parent, full, i) {
      if i < |path| { assert LinkAt(d, parent, path, i); }
    }
  }

  lemma LeaveNode(d: Dag, color: map<Name, Color>, parent: map<Name, Name>,
                  path: seq<Name>, rank: map<Name, int>, node: Name)
    requires SearchInv(d, color, parent, path + [node], rank)
    requires forall s :: s in d.nodes[node].dependedBy ==> s in rank
    ensures SearchInv(d, color[node := Black], parent, path, rank[node := |rank|])
  {
    var full := path + [node];
    assert full[|path|] == node;
    assert node in full;
    assert forall n :: n in full <==> n in path || n == node;
    assert forall i :: 0 <= i < |path| ==> full[i] == path[i];
    forall i | 0 < i < |path| ensures LinkAt(d, parent, path, i) {
      assert LinkAt(d, parent, full, i);
    }
    assert node !in rank;
    assert |rank[node := |rank|]| == |rank| + 1;
  }

  lemma SetParent(d: Dag, color: map<Name, Color>, parent: map<Name, Name>,
                  path: seq<Name>, rank: map<Name, int>, node: Name, dep: Name)
    requires SearchInv(d, color, parent, path, rank) && dep !in color
    requires path != [] && path[|path| - 1] == node && dep in d.nodes[node].dependedBy
    ensures SearchInv(d, color, parent[dep := node], path, rank)
    ensures Link(d, parent[dep := node], node, dep)
  {
    var parent1 := parent[dep := node];
    forall i | 0 < i < |path| ensures LinkAt(d, parent1, path, i) {
      assert LinkAt(d, parent, path, i) && path[i] in path;
    }
  }

  lemma GrayPathCloses(d: Dag, parent: map<Name, Name>, path: seq<Name>, j: nat)
    requires d.Consistent() && GrayPath(d, parent, path)
    requires j < |path| && path[j] in d.nodes[path[|path| - 1]].dependedBy
    ensures ClosedWalk(d.Deps(), path[j..] + [path[j]])
  {
    var cycle := path[j..] + [path[j]];
    forall i | 0 <= i < |cycle| - 1 ensures EdgeAt(d.Deps(), cycle, i) {
      if i + 1 < |cycle| - 1 {
        assert LinkAt(d, parent, path, j + i + 1);
      }
      DownstreamIsEdge(d, cycle[i], cycle[i + 1]);
    }
  }

  /** The variables the depth-first search shares between its activations.
      `path` and `rank` are bookkeeping for the proof: the grey path from the
      root of the search, and the order in which nodes turned black. */
  class CycleSearch {
    const dag: Dag
    var color: map<Name, Color>
    var parent: map<Name, Name>
    var cyclePath: seq<Name>
    ghost var path: seq<Name>
    ghost var rank: map<Name, int>

    constructor (d: Dag)
      ensures dag == d && Inv() && path == []
    {
      dag := d;
      color, parent, cyclePath := map[], map[], [];
      path, rank := [], map[];
    }

    function ColorOf(n: Name): Color
      reads this
    {
      if n in color then color[n] else White
    }

    ghost predicate Inv()
      reads this
    {
      SearchInv(dag, color, parent, path, rank) == true
    }

    /** Explores everything downstream of the white node `node`.  Either reports
        a closed walk, or blackens `node` and leaves the grey path as it was. */
    method Dfs(node: Name) returns (found: bool)
      requires dag.Consistent() && Inv()
      requires node in dag.nodes && node !in color
      requires path != [] ==> Link(dag, parent, path[|path| - 1], node)
      modifies this
      ensures found ==> ClosedWalk(dag.Deps(), cyclePath)
      ensures !found ==> Inv() && path == old(path) && node in rank
      ensures !found ==> Extends(old(color), color) && Extends(old(rank), rank)
      decreases dag.nodes.Keys - color.Keys, 0
    {
      hide SearchInv;
      ghost var above := path;
      EnterNode(dag, color, parent, path, rank, node);
      InvFacts();
      color := color[node := Gray];
      path := above + [node];
      var downstream := dag.nodes[node].dependedBy;
      ghost var seen: set<Name> := {};
      var i := 0;
      while i < |downstream|
        invariant i <= |downstream|
        invariant Inv() && path == above + [node]
        invariant Extends(old(color), color) && Extends(old(rank), rank) && node in color
        invariant forall k :: 0 <= k < i ==> downstream[k] in seen
        invariant forall s :: s in seen ==> s in rank
      {
        InvFacts();
        var cyclic := Visit(node, downstream[i]);
        if cyclic {
          return true;
        }
        seen := seen + {downstream[i]};
        i := i + 1;
      }
      Blacken(node, above);
      return false;
    }

    /** Leaves a node whose downstream is finished. */
    method Blacken(node: Name, ghost above: seq<Name>)
      requires Inv() && path == above + [node] && node in dag.nodes
      requires forall s :: s in dag.nodes[node].dependedBy ==> s in rank
      modifies `color, `rank, `path
      ensures Inv() && path == above && node in rank
      ensures Extends(old(color), color) && Extends(old(rank), rank)
    {
      hide SearchInv;
      LeaveNode(dag, color, parent, above, rank, node);
      color := color[node := Black];
      rank := rank[node := |rank|];
      path := above;
    }

    lemma ColorFacts(n: Name)
      requires Inv()
      ensures n in color <==> ColorOf(n) != White
      ensures n in path <==> ColorOf(n) == Gray
      ensures n in rank <==> ColorOf(n) == Black
    {
    }

    lemma GrayIsPath()
      requires Inv()
      ensures GrayPath(dag, parent, path)
    {
    }

    lemma Finished()
      requires Inv()
      ensures FinishOrder(dag, rank)
    {
    }

    lemma InvFacts()
      requires Inv()
      ensures color.Keys <= dag.nodes.Keys
      ensures forall n :: n in path ==> n in dag.nodes
    {
    }

    /** One step of the search at the end `node` of the grey path: looks at the
        downstream node `dep`, exploring it when it is white. */
    method Visit(node: Name, dep: Name) returns (found: bool)
      requires dag.Consistent() && Inv()
      requires path != [] && path[|path| - 1] == node && dep in dag.nodes[node].dependedBy
      modifies this
      ensures found ==> ClosedWalk(dag.Deps(), cyclePath)
      ensures !found ==> Inv() && path == old(path) && dep in rank
      ensures !found ==> Extends(old(color), color) && Extends(old(rank), rank)
      decreases dag.nodes.Keys - color.Keys, 1
    {
      hide SearchInv, Link, ClosedWalk;
      InvFacts();
      ColorFacts(dep);
      if ColorOf(dep) == Gray {
        GrayIsPath();
        ghost var j :| 0 <= j < |path| && path[j] == dep;
        cyclePath := ReconstructCycle(dag, parent, node, dep, path, j);
        GrayPathCloses(dag, parent, path, j);
        return true;
      }
      if ColorOf(dep) == White {
        SetParent(dag, color, parent, path, rank, node, dep);
        parent := parent[dep := node];
        found := Dfs(dep);
        return;
      }
      return false;
    }
  }

  ghost predicate Extends<V>(m: map<Name, V>, m': map<Name, V>) {
    forall k :: k in m ==> k in m'
  }

  /** Follows parents from `from` back to `to`.  The grey path `path` witnesses
      that `to` is an ancestor, so the loop ends; the result is the part of the
      path from `to` on, closed by `to`. */
  method ReconstructCycle(ghost d: Dag, parent: map<Name, Name>, from: Name, to: Name,
                          ghost path: seq<Name>, ghost j: nat)
    returns (cycle: seq<Name>)
    requires GrayPath(d, parent, path)
    requires j < |path| && path[j] == to && path[|path| - 1] == from
    ensures cycle == path[j..] + [to]
  {
    cycle := [to];
    var cur := from;
    ghost var k := |path| - 1;
    while cur != to
      invariant j <= k < |path| && cur == path[k]
      invariant cycle == path[k + 1..] + [to]
      decreases k
    {
      assert LinkAt(d, parent, path, k);
      cycle := [cur] + cycle;
      cur := parent[cur];
      k := k - 1;
    }
    cycle := [to] + cycle;
  }

  lemma FinishedIsAcyclic(d: Dag, rank: map<Name, int>)
    requires d.Consistent() && FinishOrder(d, rank) && d.nodes.Keys <= rank.Keys
    ensures Acyclic(d.Deps())
  {
    var up := map n | n in d.nodes :: -rank[n];
    forall u, v | Edge(d.Deps(), u, v) && u in d.Deps() ensures u in up && v in up && up[u] < up[v] {
      DownstreamIsEdge(d, u, v);
    }
    RankedIsAcyclic(d.Deps(), up);
  }

  /** Reports a cycle exactly when there is one, and the path it returns is one. */
  method DetectCycle(d: Dag) returns (path: seq<Name>, found: bool)
    requires d.Consistent()
    ensures found <==> !Acyclic(d.Deps())
    ensures found ==> ClosedWalk(d.Deps(), path)
    ensures !found ==> path == []
  {
    hide SearchInv;
    var search := new CycleSearch(d);
    var names := SortedKeys(d.nodes.Keys);
    ghost var seen: set<Name> := {};
    for i := 0 to |names|
      invariant search.dag == d && search.Inv() && search.path == []
      invariant forall j :: 0 <= j < i ==> names[j] in seen
      invariant forall n :: n in seen ==> n in search.rank
    {
      search.ColorFacts(names[i]);
      if search.ColorOf(names[i]) == White {
        var cyclic := search.Dfs(names[i]);
        if cyclic {
          return search.cyclePath, true;
        }
      }
      search.ColorFacts(names[i]);
      seen := seen + {names[i]};
    }
    assert forall n :: n in d.nodes ==> n in names;
    search.Finished();
    FinishedIsAcyclic(d, search.rank);
    return [], false;
  }

  /** Collects the members of a set, visited in any order, and sorts them. */
  method SortedKeys(keys: set<Name>) returns (names: seq<Name>)
    ensures Sorted(names) && Distinct(names)
    ensures forall n :: n in names <==> n in keys
  {
    names := [];
    var remaining := keys;
    while remaining != {}
      invariant remaining <= keys
      invariant Distinct(names)
      invariant forall n :: n in names <==> n in keys - remaining
      decreases remaining
    {
      var n :| n in remaining;
      remaining := remaining - {n};
      assert n !in names;
      names := names + [n];
    }
    SortDistinct(names);
    SameElements(Sort(names), names);
    names := Sort(names);
  }

  // ------------------------------------------------------------------------
  // Layering
  // ------------------------------------------------------------------------

  /** How many entries of `deps` are not yet in `done`. */
  ghost function Open(deps: seq<Name>, done: set<Name>): (n: nat)
    ensures n == 0 <==> forall x :: x in deps ==> x in done
  {
    if deps == [] then 0
    else
      assert forall x :: x in deps <==> x == deps[0] || x in deps[1..];
      (if deps[0] in done then 0 else 1) + Open(deps[1..], done)
  }

  lemma {:induction false} OpenAfter(deps: seq<Name>, done: set<Name>, u: Name)
    requires u !in done
    ensures Open(deps, done) == Open(deps, done + {u}) + multiset(deps)[u]
  {
    if deps != [] {
      assert deps == [deps[0]] + deps[1..];
      OpenAfter(deps[1..], done, u);
    }
  }

  /** The layers partition the nodes, each layer is sorted, and a node stands in
      layer k exactly when its longest dependency chain has k + 1 nodes. */
  ghost predicate Layering(g: Deps, layers: seq<seq<Name>>) {
    && (forall k :: 0 <= k < |layers| ==> layers[k] != [] && Sorted(layers[k]) && Distinct(layers[k]))
    && (forall k, n :: 0 <= k < |layers| && n in layers[k] ==> n in g && LongestChain(g, n, k))
    && (forall n :: n in g ==> exists k :: 0 <= k < |layers| && n in layers[k])
  }

  lemma LayerIsUnique(g: Deps, layers: seq<seq<Name>>, n: Name, j: nat, k: nat)
    requires Layering(g, layers)
    requires j < |layers| && k < |layers| && n in layers[j] && n in layers[k]
    ensures j == k
  {
    DepthIsUnique(g, n, j, k);
  }

  // --- the state between two layers -----------------------------------------
  //
  // `level` gives the layer of every node placed so far; the nodes of `current`
  // are at level |layers|.

  ghost predicate Placed(d: Dag, layers: seq<seq<Name>>, current: seq<Name>, level: map<Name, int>) {
    && level.Keys <= d.nodes.Keys
    && Distinct(current) && Sorted(current)
    && (forall n :: n in current <==> n in level && level[n] == |layers|)
    && (forall k, n :: 0 <= k < |layers| ==> (n in layers[k] <==> n in level && level[n] == k))
    && (forall n :: n in level ==> 0 <= level[n] <= |layers|)
    && (forall k :: 0 <= k < |layers| ==> layers[k] != [] && Sorted(layers[k]) && Distinct(layers[k]))
  }

  /** In-degrees count the dependencies not yet done. */
  ghost predicate OpenCounts(d: Dag, inDegree: map<Name, int>, done: set<Name>) {
    && inDegree.Keys == d.nodes.Keys
    && (forall n :: n in d.nodes ==> inDegree[n] == Open(d.nodes[n].dependsOn, done))
  }

  /** In-degrees are zero exactly at the placed nodes and those of `next`. */
  ghost predicate ZeroIsKnown(d: Dag, inDegree: map<Name, int>, level: map<Name, int>, next: seq<Name>) {
    && inDegree.Keys == d.nodes.Keys && level.Keys <= d.nodes.Keys
    && Distinct(next)
    && (forall n :: n in next ==> n in d.nodes && n !in level)
    && (forall n :: n in d.nodes ==> (inDegree[n] == 0 <==> n in level || n in next))
  }

  /** Above all its dependencies and, unless at level zero, just above one. */
  ghost predicate Grounded(d: Dag, level: map<Name, int>, n: Name) {
    && n in d.nodes && n in level
    && (forall u :: u in d.nodes[n].dependsOn ==> u in level && level[u] < level[n])
    && (level[n] > 0 ==> exists u :: u in d.nodes[n].dependsOn && u in level && level[u] == level[n] - 1)
  }

  ghost predicate AllGrounded(d: Dag, level: map<Name, int>) {
    forall n {:trigger Grounded(d, level, n)} :: n in level ==> Grounded(d, level, n)
  }

  ghost predicate Between(d: Dag, inDegree: map<Name, int>, layers: seq<seq<Name>>,
                          current: seq<Name>, level: map<Name, int>)
  {
    && Placed(d, layers, current, level)
    && OpenCounts(d, inDegree, Before(level, |layers|))
    && ZeroIsKnown(d, inDegree, level, [])
    && AllGrounded(d, level)
  }

  ghost function Before(level: map<Name, int>, k: nat): set<Name> {
    set n | n in level && level[n] < k
  }

  ghost function Extend(level: map<Name, int>, next: seq<Name>, k: nat): map<Name, int> {
    map n | n in level.Keys + Elements(next) :: if n in level then level[n] else k
  }

  ghost function Elements<T>(s: seq<T>): set<T> {
    set x | x in s
  }

  // --- from the levels to the result -----------------------------------------

  lemma {:induction false} LevelIsChain(d: Dag, level: map<Name, int>, n: Name, k: nat)
    requires AllGrounded(d, level) && n in level && level[n] == k
    ensures exists w :: EndsIn(d.Deps(), w, n) && |w| == k + 1
    decreases k
  {
    var g := d.Deps();
    assert Grounded(d, level, n);
    if k == 0 {
      assert EndsIn(g, [n], n);
    } else {
      var u :| u in d.nodes[n].dependsOn && u in level && level[u] == k - 1;
      LevelIsChain(d, level, u, k - 1);
      var w :| EndsIn(g, w, u) && |w| == k;
      WalkAppend(g, w, n);
      assert EndsIn(g, w + [n], n);
    }
  }

  lemma GroundedRanks(d: Dag, level: map<Name, int>)
    requires AllGrounded(d, level) && level.Keys == d.nodes.Keys
    ensures Ranks(d.Deps(), level)
  {
    forall u, v | Edge(d.Deps(), u, v) ensures u in level && v in level && level[u] < level[v] {
      assert Grounded(d, level, v);
    }
  }

  lemma LevelsAreDepths(d: Dag, layers: seq<seq<Name>>, level: map<Name, int>)
    requires Placed(d, layers, [], level) && AllGrounded(d, level) && level.Keys == d.nodes.Keys
    ensures Acyclic(d.Deps()) && Layering(d.Deps(), layers)
  {
    hide EndsIn, Acyclic, Ranks, AllGrounded, Sorted, Distinct;
    var g := d.Deps();
    GroundedRanks(d, level);
    RankedIsAcyclic(g, level);
    forall k, n | 0 <= k < |layers| && n in layers[k] ensures LongestChain(g, n, k) {
      LevelIsChain(d, level, n, k);
      ChainBoundedByRank(g, level, n, k);
    }
    forall n | n in g ensures exists k :: 0 <= k < |layers| && n in layers[k] {
      assert n !in [];
      assert level[n] < |layers|;
      assert n in layers[level[n]];
    }
  }

  lemma StuckIsCyclic(d: Dag, inDegree: map<Name, int>, layers: seq<seq<Name>>, level: map<Name, int>)
    requires d.Consistent() && Between(d, inDegree, layers, [], level)
    requires level.Keys != d.nodes.Keys
    ensures !Acyclic(d.Deps())
  {
    hide *;
    var rest := d.nodes.Keys - level.Keys;
    Parts(d, inDegree, layers, [], level);
    Unplaced(d, layers, level);
    if Acyclic(d.Deps()) {
      var v := AcyclicHasSource(d.Deps(), rest);
      WaitsForUnplaced(d, inDegree, layers, level, v);
      assert false;
    }
  }

  lemma Unplaced(d: Dag, layers: seq<seq<Name>>, level: map<Name, int>)
    requires Placed(d, layers, [], level)
    ensures Before(level, |layers|) == level.Keys && level.Keys <= d.nodes.Keys && d.nodes.Keys == d.Deps().Keys
    ensures d.nodes.Keys - level.Keys == {} ==> level.Keys == d.nodes.Keys
  {
    hide Sorted, Distinct;
    forall n | n in level ensures level[n] < |layers| {
      assert n !in [];
    }
    if d.nodes.Keys - level.Keys == {} {
      forall n | n in d.nodes ensures n in level {
        assert n !in d.nodes.Keys - level.Keys;
      }
    }
  }

  lemma WaitsForUnplaced(d: Dag, inDegree: map<Name, int>, layers: seq<seq<Name>>, level: map<Name, int>, v: Name)
    requires d.Consistent() && Between(d, inDegree, layers, [], level)
    requires v in d.nodes && v !in level
    ensures exists u :: u in d.nodes.Keys - level.Keys && Edge(d.Deps(), u, v)
  {
    hide Sorted, Distinct, Open, AllGrounded, Before;
    Unplaced(d, layers, level);
    assert inDegree[v] != 0;
    OpenMeaning(d.nodes[v].dependsOn, Before(level, |layers|));
    var u :| u in d.nodes[v].dependsOn && u !in level;
    assert Edge(d.Deps(), u, v);
  }

  lemma OpenMeaning(deps: seq<Name>, done: set<Name>)
    ensures Open(deps, done) == 0 <==> forall x :: x in deps ==> x in done
  {
  }

  // --- one decrement, one node, one layer -------------------------------------

  /** In-degrees while the downstream list of `u` is being worked through: the
      first `j` of its entries have been subtracted. */
  ghost predicate Partial(d: Dag, inDegree: map<Name, int>, done: set<Name>, u: Name, j: nat)
    requires u in d.nodes && j <= |d.nodes[u].dependedBy|
  {
    && inDegree.Keys == d.nodes.Keys
    && (forall n :: n in d.nodes ==>
          inDegree[n] == Open(d.nodes[n].dependsOn, done) - multiset(d.nodes[u].dependedBy[..j])[n])
  }

  lemma PartialStep(d: Dag, inDegree: map<Name, int>, done: set<Name>, u: Name, j: nat)
    requires d.Consistent() && u in d.nodes && u !in done && j < |d.nodes[u].dependedBy|
    requires Partial(d, inDegree, done, u, j)
    ensures var n := d.nodes[u].dependedBy[j];
            n in d.nodes && inDegree[n] > 0
            && Partial(d, inDegree[n := inDegree[n] - 1], done, u, j + 1)
  {
    var down := d.nodes[u].dependedBy;
    var n := down[j];
    CountPrefix(down, j);
    assert n in down;
    assert multiset(d.nodes[n].dependsOn)[u] == multiset(down)[n];
    OpenAfter(d.nodes[n].dependsOn, done, u);
  }

  lemma CountPrefix<T>(s: seq<T>, j: nat)
    requires j < |s|
    ensures multiset(s[..j + 1]) == multiset(s[..j]) + multiset{s[j]}
    ensures multiset(s[..j])[s[j]] < multiset(s)[s[j]]
  {
    assert s[..j + 1] == s[..j] + [s[j]];
    assert s == s[..j] + ([s[j]] + s[j + 1..]);
    assert multiset(s) == multiset(s[..j]) + (multiset{s[j]} + multiset(s[j + 1..]));
  }

  lemma PartialDone(d: Dag, inDegree: map<Name, int>, done: set<Name>, u: Name)
    requires d.Consistent() && u in d.nodes && u !in done
    requires Partial(d, inDegree, done, u, |d.nodes[u].dependedBy|)
    ensures OpenCounts(d, inDegree, done + {u})
  {
    var down := d.nodes[u].dependedBy;
    assert down[..|down|] == down;
    forall n | n in d.nodes ensures inDegree[n] == Open(d.nodes[n].dependsOn, done + {u}) {
      OpenAfter(d.nodes[n].dependsOn, done, u);
    }
  }

  lemma ReleasedOne(d: Dag, inDegree: map<Name, int>, u: Name, j: nat, level: map<Name, int>, next: seq<Name>)
    requires u in d.nodes && j < |d.nodes[u].dependedBy| && ZeroIsKnown(d, inDegree, level, next)
    requires var n := d.nodes[u].dependedBy[j]; n in d.nodes && inDegree[n] > 0
    ensures var n := d.nodes[u].dependedBy[j];
            var less := inDegree[n := inDegree[n] - 1];
            ZeroIsKnown(d, less, level, if less[n] == 0 then next + [n] else next)
  {
    hide Distinct;
    var n := d.nodes[u].dependedBy[j];
    assert n !in next;
    DistinctAppend(next, n);
  }

  /** Subtracts the finished node `u` from the in-degree of everything downstream
      and appends what reaches zero to the next layer. */
  method ReleaseDownstream(d: Dag, inDegree: map<Name, int>, u: Name, next: seq<Name>,
                           ghost done: set<Name>, ghost level: map<Name, int>)
    returns (inDegree': map<Name, int>, next': seq<Name>)
    requires d.Consistent() && u in d.nodes && u !in done
    requires OpenCounts(d, inDegree, done) && ZeroIsKnown(d, inDegree, level, next)
    ensures OpenCounts(d, inDegree', done + {u}) && ZeroIsKnown(d, inDegree', level, next')
  {
    hide Dag.Consistent, OpenCounts, ZeroIsKnown, Partial;
    inDegree', next' := inDegree, next;
    var down := d.nodes[u].dependedBy;
    NothingSubtracted(d, inDegree, done, u);
    for j := 0 to |down|
      invariant Partial(d, inDegree', done, u, j)
      invariant ZeroIsKnown(d, inDegree', level, next')
    {
      PartialKeys(d, inDegree', done, u, j);
      PartialStep(d, inDegree', done, u, j);
      ReleasedOne(d, inDegree', u, j, level, next');
      var downstream := down[j];
      inDegree' := inDegree'[downstream := inDegree'[downstream] - 1];
      if inDegree'[downstream] == 0 {
        next' := next' + [downstream];
      }
    }
    PartialDone(d, inDegree', done, u);
  }

  lemma NothingSubtracted(d: Dag, inDegree: map<Name, int>, done: set<Name>, u: Name)
    requires u in d.nodes && OpenCounts(d, inDegree, done)
    ensures Partial(d, inDegree, done, u, 0)
  {
    hide Open;
  }

  lemma PartialKeys(d: Dag, inDegree: map<Name, int>, done: set<Name>, u: Name, j: nat)
    requires u in d.nodes && j <= |d.nodes[u].dependedBy| && Partial(d, inDegree, done, u, j)
    ensures inDegree.Keys == d.nodes.Keys
  {
  }

  lemma DistinctAppend<T>(s: seq<T>, x: T)
    requires Distinct(s) && x !in s
    ensures Distinct(s + [x])
  {
  }

  lemma FreshAt<T>(s: seq<T>, i: nat)
    requires Distinct(s) && i < |s|
    ensures s[i] !in s[..i] && s[i] in s
    ensures Elements(s[..i + 1]) == Elements(s[..i]) + {s[i]}
  {
    assert s[..i + 1] == s[..i] + [s[i]];
  }

  /** Releases everything downstream of a whole layer. */
  method ReleaseLayer(d: Dag, inDegree: map<Name, int>, current: seq<Name>,
                      ghost done: set<Name>, ghost level: map<Name, int>)
    returns (inDegree': map<Name, int>, next: seq<Name>)
    requires d.Consistent()
    requires Distinct(current) && forall n :: n in current ==> n in d.nodes && n !in done
    requires OpenCounts(d, inDegree, done) && ZeroIsKnown(d, inDegree, level, [])
    ensures OpenCounts(d, inDegree', done + Elements(current))
    ensures ZeroIsKnown(d, inDegree', level, next) && Sorted(next)
  {
    hide Dag.Consistent, Open, Distinct, Sorted, OpenCounts, ZeroIsKnown;
    var released: seq<Name>;
    inDegree', released := inDegree, [];
    assert done + Elements(current[..0]) == done;
    for i := 0 to |current|
      invariant OpenCounts(d, inDegree', done + Elements(current[..i]))
      invariant ZeroIsKnown(d, inDegree', level, released)
    {
      FreshAt(current, i);
      assert done + Elements(current[..i]) + {current[i]} == done + Elements(current[..i + 1]);
      inDegree', released := ReleaseDownstream(d, inDegree', current[i], released,
                                               done + Elements(current[..i]), level);
    }
    assert current[..|current|] == current;
    SortedIsKnown(d, inDegree', level, released);
    next := Sort(released);
  }

  lemma SortedIsKnown(d: Dag, inDegree: map<Name, int>, level: map<Name, int>, next: seq<Name>)
    requires ZeroIsKnown(d, inDegree, level, next)
    ensures ZeroIsKnown(d, inDegree, level, Sort(next)) && Sorted(Sort(next))
  {
    hide Distinct, Sorted;
    SortDistinct(next);
    SameElements(Sort(next), next);
  }

  // --- a finished layer: what it released is the next one -----------------------

  lemma NextBetween(d: Dag, inDegree: map<Name, int>, layers: seq<seq<Name>>, current: seq<Name>,
                    level: map<Name, int>, inDegree': map<Name, int>, next: seq<Name>)
    requires Between(d, inDegree, layers, current, level) && current != []
    requires OpenCounts(d, inDegree', Before(level, |layers|) + Elements(current))
    requires ZeroIsKnown(d, inDegree', level, next) && Sorted(next)
    ensures Between(d, inDegree', layers + [current], next, Extend(level, next, |layers| + 1))
    ensures |Extend(level, next, |layers| + 1)| == |level| + |next|
  {
    hide Placed, OpenCounts, ZeroIsKnown, AllGrounded, Sorted, Extend, Elements, Before;
    var level' := Extend(level, next, |layers| + 1);
    NextKnown(d, inDegree', level, next, |layers| + 1);
    NextPlaced(d, layers, current, level, next);
    NextGrounded(d, inDegree, layers, current, level, inDegree', next);
  }

  lemma NextKnown(d: Dag, inDegree: map<Name, int>, level: map<Name, int>, next: seq<Name>, k: nat)
    requires ZeroIsKnown(d, inDegree, level, next)
    ensures ZeroIsKnown(d, inDegree, Extend(level, next, k), [])
    ensures |Extend(level, next, k)| == |level| + |next|
    ensures Distinct(next) && forall n :: n in next ==> n in d.nodes && n !in level
  {
    hide Distinct;
    assert Distinct<Name>([]) by { hide *; DistinctNil<Name>(); }
    ExtendSize(level, next, k);
  }

  lemma DistinctNil<T>()
    ensures Distinct<T>([])
  {
  }

  lemma NextPlaced(d: Dag, layers: seq<seq<Name>>, current: seq<Name>, level: map<Name, int>, next: seq<Name>)
    requires Placed(d, layers, current, level) && current != []
    requires Distinct(next) && Sorted(next) && forall n :: n in next ==> n in d.nodes && n !in level
    ensures Placed(d, layers + [current], next, Extend(level, next, |layers| + 1))
    ensures Before(level, |layers|) + Elements(current) == Before(Extend(level, next, |layers| + 1), |layers| + 1)
  {
    hide Distinct, Sorted;
    var layers' := layers + [current];
    assert forall j :: 0 <= j < |layers| ==> layers'[j] == layers[j];
    assert layers'[|layers|] == current;
  }

  lemma ExtendSize(level: map<Name, int>, next: seq<Name>, k: nat)
    requires Distinct(next) && forall n :: n in next ==> n !in level
    ensures |Extend(level, next, k)| == |level| + |next|
  {
    var level' := Extend(level, next, k);
    DistinctSize(next);
    assert level'.Keys == level.Keys + Elements(next);
    assert level.Keys !! Elements(next);
    assert |level'| == |level'.Keys| && |level| == |level.Keys|;
  }

  lemma {:induction false} DistinctSize<T>(s: seq<T>)
    requires Distinct(s)
    ensures |Elements(s)| == |s|
  {
    if s != [] {
      var n := |s| - 1;
      DistinctSize(s[..n]);
      assert Elements(s) == Elements(s[..n]) + {s[n]};
    }
  }

  lemma NextGrounded(d: Dag, inDegree: map<Name, int>, layers: seq<seq<Name>>, current: seq<Name>,
                     level: map<Name, int>, inDegree': map<Name, int>, next: seq<Name>)
    requires Between(d, inDegree, layers, current, level)
    requires OpenCounts(d, inDegree', Before(level, |layers|) + Elements(current))
    requires ZeroIsKnown(d, inDegree', level, next)
    ensures AllGrounded(d, Extend(level, next, |layers| + 1))
  {
    hide Placed, OpenCounts, ZeroIsKnown, Grounded, Before, Between;
    var level' := Extend(level, next, |layers| + 1);
    forall n | n in level' ensures Grounded(d, level', n) {
      assert Between(d, inDegree, layers, current, level);
      if n in level {
        StaysGrounded(d, inDegree, layers, current, level, next, n);
      } else {
        assert n in next;
        ReleasedIsGrounded(d, inDegree, layers, current, level, inDegree', next, n);
      }
    }
  }

  lemma StaysGrounded(d: Dag, inDegree: map<Name, int>, layers: seq<seq<Name>>, current: seq<Name>,
                      level: map<Name, int>, next: seq<Name>, n: Name)
    requires Between(d, inDegree, layers, current, level) && n in level
    ensures Grounded(d, Extend(level, next, |layers| + 1), n)
  {
    hide Placed, OpenCounts, ZeroIsKnown, Before;
    var level' := Extend(level, next, |layers| + 1);
    assert Grounded(d, level, n);
    if level[n] > 0 {
      var u :| u in d.nodes[n].dependsOn && u in level && level[u] == level[n] - 1;
      assert u in level' && level'[u] == level'[n] - 1;
    }
  }

  lemma ReleasedIsGrounded(d: Dag, inDegree: map<Name, int>, layers: seq<seq<Name>>, current: seq<Name>,
                           level: map<Name, int>, inDegree': map<Name, int>, next: seq<Name>, n: Name)
    requires Between(d, inDegree, layers, current, level) && n in next
    requires OpenCounts(d, inDegree', Before(level, |layers|) + Elements(current))
    requires ZeroIsKnown(d, inDegree', level, next)
    ensures Grounded(d, Extend(level, next, |layers| + 1), n)
  {
    hide Distinct, Sorted, Open, Extend, Grounded, AllGrounded;
    var k := |layers|;
    var deps := d.nodes[n].dependsOn;
    OpenMeaning(deps, Before(level, k));
    OpenMeaning(deps, Before(level, k) + Elements(current));
    assert n !in level && inDegree[n] != 0 && inDegree'[n] == 0;
    var u :| u in deps && u !in Before(level, k);
    assert u in current && level[u] == k;
    assert forall v :: v in deps ==> v in level && level[v] <= k;
    GroundedAbove(d, level, next, k, n, u);
  }

  lemma GroundedAbove(d: Dag, level: map<Name, int>, next: seq<Name>, k: nat, n: Name, u: Name)
    requires n in d.nodes && n !in level && n in next
    requires u in d.nodes[n].dependsOn && u in level && level[u] == k
    requires forall v :: v in d.nodes[n].dependsOn ==> v in level && level[v] <= k
    ensures Grounded(d, Extend(level, next, k + 1), n)
  {
    var level' := Extend(level, next, k + 1);
    assert level'[u] == level'[n] - 1;
  }

  // --- the first layer ------------------------------------------------------------

  lemma FirstLayer(d: Dag, inDegree: map<Name, int>, current: seq<Name>, level: map<Name, int>)
    requires inDegree == map n | n in d.nodes :: |d.nodes[n].dependsOn|
    requires Sorted(current) && Distinct(current)
    requires forall n :: n in current <==> n in d.nodes && inDegree[n] == 0
    requires level == map n | n in current :: 0
    ensures Between(d, inDegree, [], current, level)
    ensures |level| == |current|
  {
    hide Sorted, Distinct, Placed, OpenCounts, AllGrounded;
    DistinctNil<Name>();
    DistinctSize(current);
    assert level.Keys == Elements(current);
    FirstPlaced(d, current, level);
    FirstCounts(d, inDegree, level);
    FirstGrounded(d, level);
  }

  lemma FirstPlaced(d: Dag, current: seq<Name>, level: map<Name, int>)
    requires Sorted(current) && Distinct(current) && forall n :: n in current ==> n in d.nodes
    requires level == map n | n in current :: 0
    ensures Placed(d, [], current, level)
  {
    hide Sorted, Distinct;
  }

  lemma FirstCounts(d: Dag, inDegree: map<Name, int>, level: map<Name, int>)
    requires inDegree == map n | n in d.nodes :: |d.nodes[n].dependsOn|
    requires forall n :: n in level ==> level[n] == 0
    ensures OpenCounts(d, inDegree, Before(level, 0))
  {
    hide Open;
    forall n | n in d.nodes ensures inDegree[n] == Open(d.nodes[n].dependsOn, Before(level, 0)) {
      OpenAll(d.nodes[n].dependsOn, Before(level, 0));
    }
  }

  lemma FirstGrounded(d: Dag, level: map<Name, int>)
    requires forall n :: n in level ==> level[n] == 0 && n in d.nodes && d.nodes[n].dependsOn == []
    ensures AllGrounded(d, level)
  {
    forall n | n in level ensures Grounded(d, level, n) {
    }
  }

  lemma {:induction false} OpenAll(deps: seq<Name>, done: set<Name>)
    requires done == {}
    ensures Open(deps, done) == |deps|
  {
    if deps != [] {
      OpenAll(deps[1..], done);
    }
  }

  lemma LevelBound(d: Dag, layers: seq<seq<Name>>, current: seq<Name>, level: map<Name, int>)
    requires Placed(d, layers, current, level)
    ensures |level| <= |d.nodes| && (|level| == |d.nodes| <==> level.Keys == d.nodes.Keys)
  {
    hide Sorted, Distinct;
    assert |level| == |level.Keys| && |d.nodes| == |d.nodes.Keys|;
    SubsetSize(level.Keys, d.nodes.Keys);
  }

  lemma LayerMembers(d: Dag, layers: seq<seq<Name>>, current: seq<Name>, level: map<Name, int>)
    requires Placed(d, layers, current, level)
    ensures Distinct(current) && forall n :: n in current ==> n in d.nodes && n !in Before(level, |layers|)
  {
  }

  /** Succeeds exactly on acyclic graphs; the layers of a success partition the
      nodes by the length of their longest dependency chain. */
  method TopologicalSort(d: Dag) returns (layers: seq<seq<Name>>, ok: bool)
    requires d.Consistent()
    ensures ok <==> Acyclic(d.Deps())
    ensures ok ==> Layering(d.Deps(), layers)
    ensures !ok ==> layers == []
  {
    hide Acyclic, Extend, Elements, Before, Dag.Consistent, Placed, OpenCounts, ZeroIsKnown, AllGrounded,
         Layering, Sorted, Distinct, Between;
    var inDegree := map n | n in d.nodes :: |d.nodes[n].dependsOn|;
    var current := SortedKeys(set n | n in inDegree && inDegree[n] == 0);
    ghost var level := map n | n in current :: 0;
    layers := [];
    var processed := 0;
    FirstLayer(d, inDegree, current, level);
    while |current| > 0
      invariant Between(d, inDegree, layers, current, level)
      invariant processed + |current| == |level|
      decreases |d.nodes| - processed
    {
      Parts(d, inDegree, layers, current, level);
      LayerMembers(d, layers, current, level);
      LevelBound(d, layers, current, level);
      var inDegree', next := ReleaseLayer(d, inDegree, current, Before(level, |layers|), level);
      NextBetween(d, inDegree, layers, current, level, inDegree', next);
      level := Extend(level, next, |layers| + 1);
      layers := layers + [current];
      processed := processed + |current|;
      inDegree, current := inDegree', next;
    }
    Parts(d, inDegree, layers, [], level);
    LevelBound(d, layers, [], level);
    if processed != |d.nodes| {
      StuckIsCyclic(d, inDegree, layers, level);
      return [], false;
    }
    LevelsAreDepths(d, layers, level);
    return layers, true;
  }

  lemma Parts(d: Dag, inDegree: map<Name, int>, layers: seq<seq<Name>>, current: seq<Name>, level: map<Name, int>)
    requires Between(d, inDegree, layers, current, level)
    ensures Placed(d, layers, current, level) && OpenCounts(d, inDegree, Before(level, |layers|))
    ensures ZeroIsKnown(d, inDegree, level, []) && AllGrounded(d, level)
  {
  }
}
