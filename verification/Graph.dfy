/** Dependency graphs as values: a map from each node to the list of nodes it
    depends on (the list may repeat a name).  An edge leads from a dependency to
    the node that depends on it, the direction `DependedBy` records. */
module Graph {
  import opened Names

  type Deps = map<Name, seq<Name>>

  predicate Edge(g: Deps, u: Name, v: Name) {
    v in g && u in g[v]
  }

  /** No node depends on a name that is not a node. */
  ghost predicate Closed(g: Deps) {
    forall u, v :: Edge(g, u, v) ==> u in g
  }

  ghost predicate Walk(g: Deps, w: seq<Name>) {
    && |w| >= 1
    && (forall i :: 0 <= i < |w| ==> w[i] in g)
    && (forall i {:trigger EdgeAt(g, w, i)} :: 0 <= i < |w| - 1 ==> EdgeAt(g, w, i))
  }

  predicate EdgeAt(g: Deps, w: seq<Name>, i: nat)
    requires i + 1 < |w|
  {
    Edge(g, w[i], w[i + 1])
  }

  ghost predicate ClosedWalk(g: Deps, w: seq<Name>) {
    |w| >= 2 && Walk(g, w) && w[0] == w[|w| - 1]
  }

  ghost predicate Acyclic(g: Deps) {
    forall w :: !ClosedWalk(g, w)
  }

  lemma WalkPrefix(g: Deps, w: seq<Name>, n: nat)
    requires Walk(g, w) && 1 <= n <= |w|
    ensures Walk(g, w[..n])
  {
    var p := w[..n];
    forall i | 0 <= i < |p| - 1 ensures EdgeAt(g, p, i) {
      assert EdgeAt(g, w, i);
    }
  }

  lemma WalkAppend(g: Deps, w: seq<Name>, v: Name)
    requires Walk(g, w) && Edge(g, w[|w| - 1], v)
    ensures Walk(g, w + [v])
  {
    var p := w + [v];
    forall i | 0 <= i < |p| - 1 ensures EdgeAt(g, p, i) {
      if i < |w| - 1 { assert EdgeAt(g, w, i); }
    }
  }

  lemma WalkPrepend(g: Deps, u: Name, w: seq<Name>)
    requires Walk(g, w) && u in g && Edge(g, u, w[0])
    ensures Walk(g, [u] + w)
  {
    var p := [u] + w;
    forall i | 0 <= i < |p| - 1 ensures EdgeAt(g, p, i) {
      if i > 0 { assert EdgeAt(g, w, i - 1); }
    }
  }

  /** `rank` strictly grows along every edge between nodes. */
  ghost predicate Ranks(g: Deps, rank: map<Name, int>) {
    forall u, v :: Edge(g, u, v) && u in g ==> u in rank && v in rank && rank[u] < rank[v]
  }

  lemma {:induction false} RankGrowsAlongWalk(g: Deps, rank: map<Name, int>, w: seq<Name>)
    requires Ranks(g, rank) && Walk(g, w) && |w| >= 2
    ensures w[0] in rank && w[|w| - 1] in rank
    ensures rank[w[0]] + |w| - 1 <= rank[w[|w| - 1]]
  {
    var n := |w| - 1;
    assert EdgeAt(g, w, n - 1);
    if n >= 2 {
      WalkPrefix(g, w, n);
      RankGrowsAlongWalk(g, rank, w[..n]);
    }
  }

  lemma RankedIsAcyclic(g: Deps, rank: map<Name, int>)
    requires Ranks(g, rank)
    ensures Acyclic(g)
  {
    forall w ensures !ClosedWalk(g, w) {
      if ClosedWalk(g, w) {
        RankGrowsAlongWalk(g, rank, w);
      }
    }
  }

  lemma {:induction false} DistinctFits(w: seq<Name>, r: set<Name>)
    requires Distinct(w) && forall i :: 0 <= i < |w| ==> w[i] in r
    ensures |w| <= |r|
  {
    if w != [] {
      var n := |w| - 1;
      DistinctFits(w[..n], r - {w[n]});
    }
  }

  ghost predicate HasDependencyIn(g: Deps, r: set<Name>, v: Name) {
    exists u :: u in r && Edge(g, u, v)
  }

  /** Walking backwards inside a finite set in which every node has a dependency
      must meet a node twice. */
  lemma {:induction false} WalkBackUntilRepeat(g: Deps, r: set<Name>, w: seq<Name>)
    requires r <= g.Keys
    requires forall v {:trigger HasDependencyIn(g, r, v)} :: v in r ==> HasDependencyIn(g, r, v)
    requires Walk(g, w) && Distinct(w) && forall i :: 0 <= i < |w| ==> w[i] in r
    ensures !Acyclic(g)
    decreases |r| - |w|
  {
    DistinctFits(w, r);
    assert HasDependencyIn(g, r, w[0]);
    var u :| u in r && Edge(g, u, w[0]);
    if i :| 0 <= i < |w| && w[i] == u {
      var c := [u] + w[..i + 1];
      WalkPrefix(g, w, i + 1);
      WalkPrepend(g, u, w[..i + 1]);
      assert ClosedWalk(g, c);
    } else {
      var longer := [u] + w;
      DistinctFits(longer, r);
      WalkPrepend(g, u, w);
      WalkBackUntilRepeat(g, r, longer);
    }
  }

  /** In an acyclic graph every nonempty set of nodes has a member none of whose
      dependencies is in the set. */
  lemma AcyclicHasSource(g: Deps, r: set<Name>) returns (v: Name)
    requires Acyclic(g) && r <= g.Keys && r != {}
    ensures v in r && forall u :: u in r ==> !Edge(g, u, v)
  {
    if v0 :| v0 in r && !HasDependencyIn(g, r, v0) {
      v := v0;
    } else {
      v :| v in r;
      WalkBackUntilRepeat(g, r, [v]);
    }
  }

  /** The longest dependency chain that ends in `n` has `d + 1` nodes. */
  ghost predicate LongestChain(g: Deps, n: Name, d: nat) {
    && (exists w :: EndsIn(g, w, n) && |w| == d + 1)
    && (forall w :: EndsIn(g, w, n) ==> |w| <= d + 1)
  }

  ghost predicate EndsIn(g: Deps, w: seq<Name>, n: Name) {
    Walk(g, w) && w[|w| - 1] == n
  }

  lemma DepthIsUnique(g: Deps, n: Name, j: nat, k: nat)
    requires LongestChain(g, n, j) && LongestChain(g, n, k)
    ensures j == k
  {
    hide EndsIn;
    var v :| EndsIn(g, v, n) && |v| == j + 1;
    var w :| EndsIn(g, w, n) && |w| == k + 1;
  }

  lemma ChainBoundedByRank(g: Deps, rank: map<Name, int>, n: Name, d: nat)
    requires Ranks(g, rank) && n in rank && rank[n] == d
    requires forall v :: v in rank ==> rank[v] >= 0
    ensures forall w :: EndsIn(g, w, n) ==> |w| <= d + 1
  {
    forall w | EndsIn(g, w, n) ensures |w| <= d + 1 {
      if |w| >= 2 {
        RankGrowsAlongWalk(g, rank, w);
      }
    }
  }

  /** `n` depends on `u`, directly or through other nodes. */
  ghost predicate DependsOn(g: Deps, n: Name, u: Name) {
    exists w :: ChainTo(g, n, u, w)
  }

  /** `w` leads from the dependency `u` to `n`; every step is an edge, and every
      name but possibly the first is a node. */
  ghost predicate ChainTo(g: Deps, n: Name, u: Name, w: seq<Name>) {
    && |w| >= 2 && w[0] == u && w[|w| - 1] == n
    && forall i {:trigger EdgeAt(g, w, i)} :: 0 <= i < |w| - 1 ==> EdgeAt(g, w, i)
  }

  /** Depending on `u` is depending on it directly, or on something that does. */
  lemma DependsOnUnfolds(g: Deps, n: Name, u: Name)
    ensures DependsOn(g, n, u) <==> n in g && (u in g[n] || exists d :: d in g[n] && DependsOn(g, d, u))
  {
    if DependsOn(g, n, u) {
      var w :| ChainTo(g, n, u, w);
      LastStep(g, n, u, w);
    }
    if n in g && u in g[n] {
      var w := [u, n];
      assert EdgeAt(g, w, 0);
      assert ChainTo(g, n, u, w);
    }
    if n in g && exists d :: d in g[n] && DependsOn(g, d, u) {
      var d :| d in g[n] && DependsOn(g, d, u);
      var w :| ChainTo(g, d, u, w);
      ChainGrows(g, d, u, w, n);
    }
  }

  lemma LastStep(g: Deps, n: Name, u: Name, w: seq<Name>)
    requires ChainTo(g, n, u, w)
    ensures n in g && (u in g[n] || exists d :: d in g[n] && DependsOn(g, d, u))
  {
    var k := |w| - 2;
    assert EdgeAt(g, w, k);
    if k > 0 {
      var p := w[..k + 1];
      forall i | 0 <= i < |p| - 1 ensures EdgeAt(g, p, i) {
        assert EdgeAt(g, w, i);
      }
      assert ChainTo(g, w[k], u, p);
    }
  }

  lemma ChainGrows(g: Deps, d: Name, u: Name, w: seq<Name>, n: Name)
    requires ChainTo(g, d, u, w) && Edge(g, d, n)
    ensures ChainTo(g, n, u, w + [n])
  {
    var p := w + [n];
    forall i | 0 <= i < |p| - 1 ensures EdgeAt(g, p, i) {
      if i < |w| - 1 { assert EdgeAt(g, w, i); }
    }
  }
}
