/** Intent trees as the program holds them: heap nodes in a map, updated in place.
    Every method is specified by the tree its fields spell out before and after. */
module IntentTypes {
  import opened Names
  import opened IntentTrees
  import opened DependencyDag

  class IntentNode {
    const id: Name
    var intent: string
    var agent: string
    var model: string
    var provider: string
    var dependsOn: seq<Name>
    var state: NodeState
    var pid: int
    var result: string
    var error: string
    var retryCount: int
    var maxRetries: int
    var timeout: int

    constructor (id: Name, v: NodeView)
      ensures this.id == id && Fields() == v
    {
      this.id := id;
      intent, agent, model, provider := v.intent, v.agent, v.model, v.provider;
      dependsOn, state, pid, result, error := v.dependsOn, v.state, v.pid, v.result, v.error;
      retryCount, maxRetries, timeout := v.retryCount, v.maxRetries, v.timeout;
    }

    function Fields(): NodeView
      reads this
    {
      NodeView(intent, agent, model, provider, dependsOn, state, pid, result, error,
               retryCount, maxRetries, timeout)
    }

    predicate CanRetry()
      reads this
    {
      retryCount < maxRetries
    }

    /** The field writes of a reset. */
    method ClearResults()
      modifies this
      ensures Fields() == old(Fields()).(state := Pending, error := "", pid := 0, result := "", retryCount := 0)
    {
      state := Pending;
      error := "";
      pid := 0;
      result := "";
      retryCount := 0;
    }

    method WriteResult(text: string)
      modifies this
      ensures Fields() == old(Fields()).(state := Completed, result := text)
    {
      state := Completed;
      result := text;
    }

    method WriteFailure(msg: string)
      modifies this
      ensures Fields() == old(Fields()).(state := Failed, error := msg)
    {
      state := Failed;
      error := msg;
    }

    method Redefine(text: string, deps: seq<Name>)
      modifies this
      ensures Fields() == old(Fields()).(intent := text, dependsOn := deps)
    {
      intent := text;
      dependsOn := deps;
    }

    /** Writes back the fields a snapshot holds. */
    method WriteSaved(v: NodeView)
      modifies this
      ensures Fields() == old(Fields()).(intent := v.intent, dependsOn := v.dependsOn, state := v.state,
                error := v.error, pid := v.pid, result := v.result, retryCount := v.retryCount)
    {
      intent := v.intent;
      dependsOn := v.dependsOn;
      state := v.state;
      error := v.error;
      pid := v.pid;
      result := v.result;
      retryCount := v.retryCount;
    }

    method IncrRetry()
      modifies this
      ensures Fields() == old(Fields()).(retryCount := old(retryCount) + 1)
    {
      retryCount := retryCount + 1;
    }

    /** The field writes of a retry. */
    method WriteRetry()
      modifies this
      ensures Fields() == old(Fields()).(state := Retrying, error := "", pid := 0, result := "")
    {
      state := Retrying;
      error := "";
      pid := 0;
      result := "";
    }

    method SetState(st: NodeState)
      modifies this
      ensures Fields() == old(Fields()).(state := st)
    {
      state := st;
    }

    method SetPid(p: int)
      modifies this
      ensures Fields() == old(Fields()).(pid := p)
    {
      pid := p;
    }

    method DefaultRetries(default: int)
      modifies this
      ensures Fields() == if old(maxRetries) == 0 then old(Fields()).(maxRetries := default) else old(Fields())
    {
      if maxRetries == 0 {
        maxRetries := default;
      }
    }
  }

  class IntentTree {
    var nodes: map<Name, IntentNode>
    var state: NodeState
    var desired: map<Name, NodeState>

    /** Each node stands under its own id; so no node stands under two. */
    ghost predicate Valid()
      reads `nodes
    {
      forall n :: n in nodes ==> nodes[n].id == n
    }

    ghost function Objects(): set<IntentNode>
      reads `nodes
    {
      set n | n in nodes :: nodes[n]
    }

    ghost function View(): Tree
      reads `nodes, Objects()
    {
      map n | n in nodes :: nodes[n].Fields()
    }

    /** The ids of the runnable nodes, sorted. */
    method RunnableIds() returns (sorted: seq<Name>)
      requires Valid()
      ensures Sorted(sorted) && Distinct(sorted)
      ensures forall n :: n in sorted <==> Runnable(View(), n)
    {
      hide Sorted, Distinct;
      var ids: seq<Name> := [];
      DistinctNil<Name>();
      var remaining := nodes.Keys;
      while remaining != {}
        invariant remaining <= nodes.Keys && Distinct(ids)
        invariant forall n :: n in ids <==> n in nodes.Keys - remaining && Runnable(View(), n)
        decreases remaining
      {
        var n :| n in remaining;
        remaining := remaining - {n};
        var runs := IsRunnable(n);
        if runs {
          DistinctAppend(ids, n);
          ids := ids + [n];
        }
      }
      SortDistinct(ids);
      SameElements(Sort(ids), ids);
      return Sort(ids);
    }

    /** Lists the runnable nodes in the order of their ids. */
    method RunnableNodes() returns (runnable: seq<IntentNode>)
      requires Valid()
      ensures forall i, j {:trigger runnable[i].id, runnable[j].id} ::
                0 <= i < j < |runnable| ==> Leq(runnable[i].id, runnable[j].id) && runnable[i].id != runnable[j].id
      ensures forall i :: 0 <= i < |runnable| ==>
                runnable[i].id in nodes && nodes[runnable[i].id] == runnable[i] && Runnable(View(), runnable[i].id)
      ensures forall n :: Runnable(View(), n) ==> exists i :: 0 <= i < |runnable| && runnable[i].id == n
    {
      hide Leq;
      ghost var t := View();
      var sorted := RunnableIds();
      forall i | 0 <= i < |sorted| ensures Runnable(t, sorted[i]) {
        assert sorted[i] in sorted;
      }
      runnable := [];
      for i := 0 to |sorted|
        invariant |runnable| == i
        invariant forall j :: 0 <= j < i ==> runnable[j].id == sorted[j]
        invariant forall j :: 0 <= j < i ==> sorted[j] in nodes && nodes[sorted[j]] == runnable[j]
      {
        runnable := runnable + [nodes[sorted[i]]];
      }
      forall i, j | 0 <= i < j < |runnable|
        ensures Leq(runnable[i].id, runnable[j].id) && runnable[i].id != runnable[j].id
      {
        assert Leq(sorted[i], sorted[j]);
      }
      forall n | Runnable(View(), n) ensures exists i :: 0 <= i < |runnable| && runnable[i].id == n {
        var i :| 0 <= i < |sorted| && sorted[i] == n;
        assert runnable[i].id == n;
      }
    }

    /** The test on one node: pending or retrying, and no dependency missing or
        short of completed. */
    method IsRunnable(n: Name) returns (runs: bool)
      requires Valid() && n in nodes
      ensures runs <==> Runnable(View(), n)
      ensures runs <==>
                && (nodes[n].state == Pending || nodes[n].state == Retrying)
                && forall i :: 0 <= i < |nodes[n].dependsOn| ==>
                     nodes[n].dependsOn[i] in nodes && nodes[nodes[n].dependsOn[i]].state == Completed
    {
      var node := nodes[n];
      if node.state != Pending && node.state != Retrying {
        return false;
      }
      for i := 0 to |node.dependsOn|
        invariant forall j :: 0 <= j < i ==>
                    node.dependsOn[j] in nodes && nodes[node.dependsOn[j]].state == Completed
      {
        var dep := node.dependsOn[i];
        if dep !in nodes || nodes[dep].state != Completed {
          assert dep in node.dependsOn;
          return false;
        }
      }
      return true;
    }

    /** Whether every node is completed or failed. */
    method IsTerminal() returns (terminal: bool)
      requires Valid()
      ensures terminal <==> Terminal(View())
      ensures terminal <==> forall n :: n in nodes ==> nodes[n].state == Completed || nodes[n].state == Failed
    {
      var remaining := nodes.Keys;
      while remaining != {}
        invariant remaining <= nodes.Keys
        invariant forall n :: n in nodes && n !in remaining ==> !Live(View(), n)
        decreases remaining
      {
        var n :| n in remaining;
        remaining := remaining - {n};
        if nodes[n].state != Completed && nodes[n].state != Failed {
          assert Live(View(), n);
          return false;
        }
      }
      return true;
    }

    method MarkCompleted(n: Name, result: string)
      requires Valid()
      modifies if n in nodes then {nodes[n]} else {}
      ensures View() == if n in nodes then old(View())[n := old(View())[n].(state := Completed, result := result)]
                        else old(View())
    {
      if n !in nodes {
        return;
      }
      var node := nodes[n];
      node.WriteResult(result);
      assert forall k :: k in nodes && k != n ==> nodes[k] != node;
    }

    /** Fails a node and everything downstream of it. */
    method MarkFailed(n: Name, msg: string)
      requires Valid()
      modifies Objects()
      ensures nodes == old(nodes)
      ensures MarkedFailed(old(View()), View(), n, msg)
    {
      hide Cascades;
      if n !in nodes {
        return;
      }
      SetFailed(n, msg);
      CascadeFailure(n);
    }

    method ResetNode(n: Name)
      requires Valid()
      modifies if n in nodes then {nodes[n]} else {}
      ensures n !in nodes ==> View() == old(View())
      ensures n in nodes ==>
                View() == old(View())[n := old(View())[n].(state := Pending, error := "", pid := 0, result := "", retryCount := 0)]
    {
      if n !in nodes {
        return;
      }
      var node := nodes[n];
      node.ClearResults();
      assert forall k :: k in nodes && k != n ==> nodes[k] != node;
    }

    /** Writes the failure of one node. */
    method SetFailed(n: Name, msg: string)
      requires Valid() && n in nodes
      modifies nodes[n]
      ensures View() == old(View())[n := old(View())[n].(state := Failed, error := msg)]
    {
      var node := nodes[n];
      node.WriteFailure(msg);
      assert forall k :: k in nodes && k != n ==> nodes[k] != node;
    }

    /** Fails everything downstream of the failed node, whatever the order in
        which the map yields the nodes. */
    method CascadeFailure(failed: Name)
      requires Valid()
      modifies Objects()
      ensures nodes == old(nodes)
      ensures Cascades(old(View()), View(), failed)
      decreases LiveNodes(View()), 1
    {
      hide Cascading, Cascades, Live;
      ghost var before := View();
      var remaining := nodes.Keys;
      NothingYet(before, failed);
      assert nodes.Keys - remaining == {};
      while remaining != {}
        invariant remaining <= nodes.Keys
        invariant Cascading(before, View(), failed, nodes.Keys - remaining)
        invariant nodes == old(nodes)
        decreases remaining
      {
        var n :| n in remaining;
        ghost var done := nodes.Keys - remaining;
        remaining := remaining - {n};
        assert nodes.Keys - remaining == done + {n};
        VisitNode(n, failed, before, done);
      }
      assert nodes.Keys - remaining == before.Keys;
      CascadingIsDone(before, View(), failed);
    }

    /** One iteration of the cascade's loop. */
    method VisitNode(n: Name, failed: Name, ghost before: Tree, ghost done: set<Name>)
      requires Valid() && n in nodes && Cascading(before, View(), failed, done)
      modifies Objects()
      ensures nodes == old(nodes)
      ensures Cascading(before, View(), failed, done + {n})
      decreases LiveNodes(before), 0
    {
      hide Cascading, Cascades;
      var node := nodes[n];
      ghost var here := View();
      if node.state == Failed || node.state == Completed || failed !in node.dependsOn {
        Skip(before, here, failed, done, n);
      } else {
        SetFailed(n, UpstreamError(failed));
        FewerAfterStrike(before, here, failed, done, n);
        CascadeFailure(n);
        CascadeOnward(before, here, failed, done, n, View());
      }
    }
  }

  ghost function LiveNodes(t: Tree): set<Name> {
    set n | n in t && Live(t, n)
  }

  lemma NothingYet(t: Tree, f: Name)
    ensures Cascading(t, t, f, {})
  {
  }

  lemma Skip(t: Tree, s: Tree, f: Name, done: set<Name>, n: Name)
    requires Cascading(t, s, f, done) && n in s
    requires !Live(s, n) || f !in s[n].dependsOn
    ensures Cascading(t, s, f, done + {n})
  {
    hide Struck;
    FewerLive(t, s, f, done);
  }

  lemma FewerAfterStrike(t: Tree, s: Tree, f: Name, done: set<Name>, n: Name)
    requires Cascading(t, s, f, done) && Live(s, n)
    ensures LiveNodes(Strike(s, n, f)) < LiveNodes(t)
  {
    hide Struck;
    FewerLive(t, s, f, done);
    assert n in LiveNodes(t) && n !in LiveNodes(Strike(s, n, f));
  }
}
