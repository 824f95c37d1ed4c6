/** Intent trees as values: what the fields of the nodes are, when a node may run,
    and what a failure does to the nodes downstream of it. */
module IntentTrees {
  import opened Names
  import opened Graph

  datatype NodeState = Pending | Decomposing | AwaitConfirm | Executing | Completed | Failed | Retrying

  datatype NodeView = NodeView(
    intent: string, agent: string, model: string, provider: string,
    dependsOn: seq<Name>, state: NodeState, pid: int, result: string, error: string,
    retryCount: int, maxRetries: int, timeout: int)

  type Tree = map<Name, NodeView>

  function DepsOf(t: Tree): Deps {
    map n | n in t :: t[n].dependsOn
  }

  predicate Live(t: Tree, n: Name) {
    n in t && t[n].state != Failed && t[n].state != Completed
  }

  /** Every node is completed or failed. */
  ghost predicate Terminal(t: Tree) {
    forall n :: n in t ==> !Live(t, n)
  }

  predicate Runnable(t: Tree, n: Name) {
    && n in t && (t[n].state == Pending || t[n].state == Retrying)
    && forall d :: d in t[n].dependsOn ==> d in t && t[d].state == Completed
  }

  /** What resetting a node keeps: its description, dependencies, retry limit and
      timeout. */
  function Reset(v: NodeView): NodeView {
    v.(state := Pending, error := "", pid := 0, result := "", retryCount := 0)
  }

  /** Every runnable node set executing. */
  function SpawnAll(t: Tree): Tree {
    map n | n in t :: if Runnable(t, n) then t[n].(state := Executing) else t[n]
  }

  function UpstreamError(x: Name): string {
    "upstream dependency failed: " + x.text
  }

  // --- downstream of a failure ---------------------------------------------------

  ghost predicate LiveStep(t: Tree, p: seq<Name>, i: nat)
    requires 0 < i < |p|
  {
    Live(t, p[i]) && p[i - 1] in t[p[i]].dependsOn
  }

  /** A chain of dependents from `f` to `n`, all of them (but `f`) live. */
  ghost predicate LivePath(t: Tree, f: Name, n: Name, p: seq<Name>) {
    && |p| >= 2 && p[0] == f && p[|p| - 1] == n
    && forall i {:trigger LiveStep(t, p, i)} :: 0 < i < |p| ==> LiveStep(t, p, i)
  }

  ghost predicate Downstream(t: Tree, f: Name, n: Name) {
    exists p :: LivePath(t, f, n, p)
  }

  lemma DirectlyDownstream(t: Tree, f: Name, n: Name)
    requires Live(t, n) && f in t[n].dependsOn
    ensures Downstream(t, f, n)
  {
    var p := [f, n];
    assert LiveStep(t, p, 1);
    assert LivePath(t, f, n, p);
  }

  lemma DownstreamIsLive(t: Tree, f: Name, n: Name)
    requires Downstream(t, f, n)
    ensures Live(t, n)
  {
    var p :| LivePath(t, f, n, p);
    assert LiveStep(t, p, |p| - 1);
  }

  lemma ThenDownstream(t: Tree, f: Name, m: Name, n: Name)
    requires Downstream(t, f, m) && Live(t, n) && m in t[n].dependsOn
    ensures Downstream(t, f, n)
  {
    var p :| LivePath(t, f, m, p);
    var q := p + [n];
    forall i | 0 < i < |q| ensures LiveStep(t, q, i) {
      if i < |p| { assert LiveStep(t, p, i); }
    }
    assert LivePath(t, f, n, q);
  }

  /** Downstream of `m` in a tree with fewer live nodes, and `m` downstream of
      `f`: downstream of `f`. */
  lemma {:induction false} DownstreamThrough(t: Tree, s: Tree, f: Name, m: Name, n: Name, p: seq<Name>)
    requires t.Keys == s.Keys && forall k :: Live(s, k) ==> Live(t, k) && s[k].dependsOn == t[k].dependsOn
    requires Downstream(t, f, m) && LivePath(s, m, n, p)
    ensures Downstream(t, f, n)
    decreases |p|
  {
    var k := |p| - 1;
    assert LiveStep(s, p, k);
    if k == 1 {
      ThenDownstream(t, f, m, n);
    } else {
      var q := p[..k];
      forall i | 0 < i < |q| ensures LiveStep(s, q, i) {
        assert LiveStep(s, p, i);
      }
      DownstreamThrough(t, s, f, m, p[k - 1], q);
      ThenDownstream(t, f, p[k - 1], n);
    }
  }

  // --- the cascade ---------------------------------------------------------------

  /** `n` was failed because its dependency `x` failed, `x` being `f` or itself
      downstream of `f`. */
  ghost predicate StruckBy(t: Tree, s: Tree, f: Name, n: Name, x: Name) {
    && n in t && n in s
    && x in t[n].dependsOn && (x == f || Downstream(t, f, x))
    && s[n] == t[n].(state := Failed, error := "upstream dependency failed: " + x.text)
  }

  ghost predicate Struck(t: Tree, s: Tree, f: Name, n: Name) {
    Downstream(t, f, n) && exists x :: StruckBy(t, s, f, n, x)
  }

  /** From `t` to `s` exactly the nodes downstream of `f` were failed. */
  ghost predicate Cascades(t: Tree, s: Tree, f: Name) {
    && s.Keys == t.Keys
    && forall n :: n in t ==> if Downstream(t, f, n) then Struck(t, s, f, n) else s[n] == t[n]
  }

  /** Part of the way: only nodes downstream of `f` were failed, with each of them
      all that live dependents of it, and all live dependents of `f` in `done`. */
  ghost predicate Cascading(t: Tree, s: Tree, f: Name, done: set<Name>) {
    && s.Keys == t.Keys
    && (forall n {:trigger Struck(t, s, f, n)} {:trigger s[n]} :: n in t ==> s[n] == t[n] || Struck(t, s, f, n))
    && (forall m, n {:trigger m in t[n].dependsOn} :: m in t && s[m] != t[m] && Live(t, n) && m in t[n].dependsOn ==>
          Struck(t, s, f, n))
    && (forall n :: n in done && Live(t, n) && f in t[n].dependsOn ==> Struck(t, s, f, n))
  }

  lemma StruckIsFailed(t: Tree, s: Tree, f: Name, n: Name)
    requires Struck(t, s, f, n)
    ensures n in t && n in s && s[n].state == Failed && Live(t, n) && s[n] != t[n]
    ensures s[n].dependsOn == t[n].dependsOn
  {
    DownstreamIsLive(t, f, n);
  }

  lemma {:induction false} PathIsStruck(t: Tree, s: Tree, f: Name, n: Name, p: seq<Name>)
    requires Cascading(t, s, f, t.Keys) && LivePath(t, f, n, p)
    ensures Struck(t, s, f, n)
    decreases |p|
  {
    var k := |p| - 1;
    assert LiveStep(t, p, k);
    if k > 1 {
      var q := p[..k];
      forall i | 0 < i < |q| ensures LiveStep(t, q, i) {
        assert LiveStep(t, p, i);
      }
      PathIsStruck(t, s, f, p[k - 1], q);
      StruckIsFailed(t, s, f, p[k - 1]);
    }
  }

  lemma CascadingIsDone(t: Tree, s: Tree, f: Name)
    requires Cascading(t, s, f, t.Keys)
    ensures Cascades(t, s, f)
  {
    hide LivePath, Struck;
    forall n | n in t
      ensures if Downstream(t, f, n) then Struck(t, s, f, n) else s[n] == t[n]
    {
      if Downstream(t, f, n) {
        var p :| LivePath(t, f, n, p);
        PathIsStruck(t, s, f, n, p);
      } else if s[n] != t[n] {
        assert Struck(t, s, f, n);
        StruckIsDownstream(t, s, f, n);
      }
    }
  }

  lemma StruckIsDownstream(t: Tree, s: Tree, f: Name, n: Name)
    requires Struck(t, s, f, n)
    ensures Downstream(t, f, n)
  {
  }

  lemma FewerLive(t: Tree, s: Tree, f: Name, done: set<Name>)
    requires Cascading(t, s, f, done)
    ensures forall k :: Live(s, k) ==> Live(t, k) && s[k].dependsOn == t[k].dependsOn
    ensures forall k :: k in t ==> s[k].dependsOn == t[k].dependsOn
    ensures forall k :: k in t && !Live(t, k) ==> s[k] == t[k]
  {
    forall k | k in t && s[k] != t[k] ensures s[k].state == Failed && Live(t, k) && s[k].dependsOn == t[k].dependsOn {
      StruckIsFailed(t, s, f, k);
    }
  }

  /** One iteration that strikes `m`: the state before is `s`, after the recursive
      cascade from `m` it is `u`. */
  lemma CascadeOnward(t: Tree, s: Tree, f: Name, done: set<Name>, m: Name, u: Tree)
    requires Cascading(t, s, f, done)
    requires Live(s, m) && f in s[m].dependsOn
    requires Cascades(Strike(s, m, f), u, m)
    ensures Cascading(t, u, f, done + {m})
  {
    hide Cascading, Cascades, Downstream, Struck;
    Facts(t, s, f, done);
    OnwardStruck(t, s, f, done, m, u, m);
    forall n | n in t ensures u[n] == t[n] || Struck(t, u, f, n) {
      OnwardStruck(t, s, f, done, m, u, n);
    }
    forall x, n | x in t && u[x] != t[x] && Live(t, n) && x in t[n].dependsOn ensures Struck(t, u, f, n) {
      OnwardClosed(t, s, f, done, m, u, x, n);
    }
    forall n | n in done + {m} && Live(t, n) && f in t[n].dependsOn ensures Struck(t, u, f, n) {
      OnwardDone(t, s, f, done, m, u, n);
    }
    MakeCascading(t, u, f, done + {m});
  }

  function Strike(s: Tree, m: Name, f: Name): Tree
    requires m in s
  {
    s[m := s[m].(state := Failed, error := UpstreamError(f))]
  }

  lemma OnwardStruck(t: Tree, s: Tree, f: Name, done: set<Name>, m: Name, u: Tree, n: Name)
    requires Cascading(t, s, f, done) && Live(s, m) && f in s[m].dependsOn
    requires Cascades(Strike(s, m, f), u, m)
    requires n in t
    ensures u.Keys == t.Keys && (u[n] == t[n] || Struck(t, u, f, n))
  {
    hide Downstream;
    var s1 := Strike(s, m, f);
    FewerLive(t, s, f, done);
    LiveUntouched(t, s, f, done, m);
    DirectlyDownstream(t, f, m);
    if n == m {
      if Downstream(s1, m, m) { DownstreamIsLive(s1, m, m); }
      assert StruckBy(t, u, f, m, f);
    } else if Downstream(s1, m, n) {
      DownstreamIsLive(s1, m, n);
      LiveUntouched(t, s, f, done, n);
      var x :| StruckBy(s1, u, m, n, x);
      OnwardDownstream(t, s, f, done, m, n);
      if x != m { OnwardDownstream(t, s, f, done, m, x); }
      assert StruckBy(t, u, f, n, x);
    } else if s[n] != t[n] {
      assert Struck(t, s, f, n);
      var x :| StruckBy(t, s, f, n, x);
      assert StruckBy(t, u, f, n, x);
    }
  }

  lemma LiveUntouched(t: Tree, s: Tree, f: Name, done: set<Name>, n: Name)
    requires Cascading(t, s, f, done) && Live(s, n)
    ensures n in t && s[n] == t[n]
  {
    if s[n] != t[n] {
      assert Struck(t, s, f, n);
      StruckIsFailed(t, s, f, n);
    }
  }

  lemma OnwardDownstream(t: Tree, s: Tree, f: Name, done: set<Name>, m: Name, n: Name)
    requires Cascading(t, s, f, done) && Live(s, m) && f in s[m].dependsOn
    requires Downstream(Strike(s, m, f), m, n)
    ensures Downstream(t, f, n)
  {
    hide LivePath, LiveStep, Struck;
    FewerLive(t, s, f, done);
    LiveUntouched(t, s, f, done, m);
    DirectlyDownstream(t, f, m);
    var p :| LivePath(Strike(s, m, f), m, n, p);
    DownstreamThrough(t, Strike(s, m, f), f, m, n, p);
  }

  /** A node live in `t` that the onward cascade finds, or leaves, failed. */
  lemma OnwardFailed(t: Tree, s: Tree, f: Name, done: set<Name>, m: Name, u: Tree, n: Name)
    requires Cascading(t, s, f, done) && Live(s, m) && f in s[m].dependsOn
    requires Cascades(Strike(s, m, f), u, m)
    requires Live(t, n)
    requires !Live(Strike(s, m, f), n) || Downstream(Strike(s, m, f), m, n)
    ensures Struck(t, u, f, n)
  {
    hide Downstream, LivePath;
    var s1 := Strike(s, m, f);
    OnwardStruck(t, s, f, done, m, u, n);
    if Downstream(s1, m, n) {
      StruckIsFailed(s1, u, m, n);
    } else {
      assert u[n] == s1[n];
    }
  }

  lemma OnwardClosed(t: Tree, s: Tree, f: Name, done: set<Name>, m: Name, u: Tree, x: Name, n: Name)
    requires Cascading(t, s, f, done) && Live(s, m) && f in s[m].dependsOn
    requires Cascades(Strike(s, m, f), u, m)
    requires x in t && x in u && u[x] != t[x] && Live(t, n) && x in t[n].dependsOn
    ensures Struck(t, u, f, n)
  {
    hide Downstream, LivePath;
    var s1 := Strike(s, m, f);
    if Live(s1, n) {
      LiveUntouched(t, s, f, done, n);
      if x == m {
        DirectlyDownstream(s1, m, n);
      } else if s[x] != t[x] {
        assert Struck(t, s, f, n);
        StruckIsFailed(t, s, f, n);
      } else {
        assert Downstream(s1, m, x);
        ThenDownstream(s1, m, x, n);
      }
    }
    OnwardFailed(t, s, f, done, m, u, n);
  }

  lemma OnwardDone(t: Tree, s: Tree, f: Name, done: set<Name>, m: Name, u: Tree, n: Name)
    requires Cascading(t, s, f, done) && Live(s, m) && f in s[m].dependsOn
    requires Cascades(Strike(s, m, f), u, m)
    requires n in done + {m} && Live(t, n) && f in t[n].dependsOn
    ensures Struck(t, u, f, n)
  {
    hide Downstream, LivePath;
    if n != m {
      StruckIsFailed(t, s, f, n);
    }
    OnwardFailed(t, s, f, done, m, u, n);
  }

  lemma Facts(t: Tree, s: Tree, f: Name, done: set<Name>)
    requires Cascading(t, s, f, done)
    ensures s.Keys == t.Keys && forall k :: Live(s, k) ==> k in t
  {
  }

  lemma MakeCascading(t: Tree, s: Tree, f: Name, done: set<Name>)
    requires s.Keys == t.Keys
    requires forall n :: n in t ==> s[n] == t[n] || Struck(t, s, f, n)
    requires forall m, n {:trigger m in t[n].dependsOn} :: m in t && s[m] != t[m] && Live(t, n) && m in t[n].dependsOn ==>
               Struck(t, s, f, n)
    requires forall n :: n in done && Live(t, n) && f in t[n].dependsOn ==> Struck(t, s, f, n)
    ensures Cascading(t, s, f, done)
  {
  }

  // --- marking a node failed -------------------------------------------------------

  /** The outcome of marking `id` failed: `id` itself, then the cascade from it. */
  ghost predicate MarkedFailed(t: Tree, s: Tree, id: Name, msg: string) {
    if id in t then Cascades(t[id := t[id].(state := Failed, error := msg)], s, id) else s == t
  }

  /** Exactly `id` and what was downstream of it beforehand has failed; nothing
      else has changed in any field. */
  lemma MarkFailedExact(t: Tree, s: Tree, id: Name, msg: string)
    requires id in t && MarkedFailed(t, s, id, msg)
    ensures s.Keys == t.Keys && s[id] == t[id].(state := Failed, error := msg)
    ensures forall n :: n in t && n != id && !Downstream(t, id, n) ==> s[n] == t[n]
    ensures forall n :: n in t && n != id && Downstream(t, id, n) ==>
              exists x :: StruckBy(t, s, id, n, x)
  {
    hide Downstream;
    var t1 := t[id := t[id].(state := Failed, error := msg)];
    if Downstream(t1, id, id) { DownstreamIsLive(t1, id, id); }
    forall n | n in t && n != id
      ensures if Downstream(t, id, n) then exists x :: StruckBy(t, s, id, n, x) else s[n] == t[n]
    {
      OthersDownstream(t, id, msg, n);
      if Downstream(t, id, n) {
        var x :| StruckBy(t1, s, id, n, x);
        OthersDownstream(t, id, msg, x);
        assert x != id ==> Downstream(t, id, x) by {
          if x == id && Downstream(t1, id, id) { DownstreamIsLive(t1, id, id); }
        }
        assert StruckBy(t, s, id, n, x);
      }
    }
  }

  /** Failing `id` first hides nothing: a chain that returns to `id` can be cut. */
  lemma OthersDownstream(t: Tree, id: Name, msg: string, n: Name)
    requires id in t
    ensures n != id ==>
              (Downstream(t, id, n) <==> Downstream(t[id := t[id].(state := Failed, error := msg)], id, n))
  {
    hide LiveStep;
    var t1 := t[id := t[id].(state := Failed, error := msg)];
    if n != id {
      if Downstream(t, id, n) {
        var p :| LivePath(t, id, n, p);
        CutReturns(t, t1, id, n, p);
      }
      if Downstream(t1, id, n) {
        var p :| LivePath(t1, id, n, p);
        LiveInBoth(t, id, msg, n, p);
      }
    }
  }

  lemma LiveInBoth(t: Tree, id: Name, msg: string, n: Name, p: seq<Name>)
    requires id in t && LivePath(t[id := t[id].(state := Failed, error := msg)], id, n, p)
    ensures LivePath(t, id, n, p)
  {
    var t1 := t[id := t[id].(state := Failed, error := msg)];
    forall i | 0 < i < |p| ensures LiveStep(t, p, i) {
      assert LiveStep(t1, p, i);
    }
  }

  lemma {:induction false} CutReturns(t: Tree, t1: Tree, id: Name, n: Name, p: seq<Name>)
    requires id in t && t1.Keys == t.Keys && n != id && LivePath(t, id, n, p)
    requires forall k :: k in t && k != id ==> t1[k] == t[k]
    ensures Downstream(t1, id, n)
    decreases |p|
  {
    if i :| 0 < i < |p| && p[i] == id {
      var q := p[i..];
      forall j | 0 < j < |q| ensures LiveStep(t, q, j) {
        assert LiveStep(t, p, i + j);
      }
      CutReturns(t, t1, id, n, q);
    } else {
      forall j | 0 < j < |p| ensures LiveStep(t1, p, j) {
        assert LiveStep(t, p, j);
      }
      assert LivePath(t1, id, n, p);
    }
  }
}
