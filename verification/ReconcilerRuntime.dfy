/** The reconciler as the program runs it: an object that owns the counter of
    in-flight workers and the event channel and updates the tree's nodes in place.
    Each of its methods is one atomic step of the protocol. */
module ReconcilerRuntime {
  import opened Names
  import opened Sums
  import opened Graph
  import opened IntentTrees
  import opened IntentTypes
  import opened ReconcilerProtocol
  import opened DependencyDag
  import opened DagBuilding
  import opened MergeRules
  import opened IntentMerge
  import opened ReconcilerMerges

  /** The tree with the nodes of `marked` executing. */
  ghost function Marked(t: Tree, marked: set<Name>): Tree {
    map n | n in t :: if n in marked then t[n].(state := Executing) else t[n]
  }

  lemma MarkedAll(t: Tree)
    ensures Marked(t, RunnableSet(t)) == SpawnAll(t)
    ensures Marked(t, {}) == t
  {
  }

  lemma LaunchedFields(t: Tree)
    ensures SpawnAll(t).Keys == t.Keys
    ensures forall n :: n in t ==> SpawnAll(t)[n] == if Runnable(t, n) then t[n].(state := Executing) else t[n]
  {
    hide Runnable;
  }

  /** The tree with the default retry limit for every node that has none. */
  ghost predicate Limited(t: Tree, u: Tree, default: int) {
    && u.Keys == t.Keys
    && forall n :: n in t ==> u[n] == t[n].(maxRetries := if t[n].maxRetries == 0 then default else t[n].maxRetries)
  }

  lemma DefaultedIsLimited(t: Tree, default: int)
    ensures Limited(t, Defaulted(t, default), default)
  {
  }

  /** Every node of `t` is still there as it was set up, with the default retry limit if
      it had none, and without a merge with its description and dependencies. */
  ghost predicate KeptFrom(t: Tree, u: Tree, default: int, unmerged: bool) {
    forall n :: n in t ==>
      && n in u && u[n].agent == t[n].agent && u[n].model == t[n].model && u[n].provider == t[n].provider
      && u[n].timeout == t[n].timeout && u[n].maxRetries == (if t[n].maxRetries == 0 then default else t[n].maxRetries)
      && (unmerged ==> u[n].intent == t[n].intent && u[n].dependsOn == t[n].dependsOn)
  }

  lemma KeptLimits(t: Tree, u: Tree, default: int, unmerged: bool)
    requires Kept(Defaulted(t, default), u, unmerged)
    ensures KeptFrom(t, u, default, unmerged)
  {
  }

  lemma MarkOne(t: Tree, marked: set<Name>, n: Name)
    requires n in t && n !in marked
    ensures Marked(t, marked)[n := Marked(t, marked)[n].(state := Executing)] == Marked(t, marked + {n})
    ensures multiset(marked + {n}) == multiset(marked) + multiset{n} && |marked + {n}| == |marked| + 1
  {
  }

  lemma RunnableMembers(t: Tree)
    ensures forall n :: n in RunnableSet(t) <==> Runnable(t, n)
    ensures forall n :: Runnable(t, n) ==> n in t
  {
  }

  datatype RunEnd = Ended | Cancelled | Crashed

  /** `context` is whether an execution context is stored; `starting` are the workers
      that have not stored a process id. */
  class Reconciler {
    const tree: IntentTree
    const defaultMaxRetries: int
    const capacity: nat
    var active: int
    var workers: multiset<Name>
    var queue: seq<Event>
    var running: bool
    var context: bool
    var starting: multiset<Name>
    ghost var spawns: multiset<Name>
    ghost var handled: nat

    constructor (tree: IntentTree, default: int)
      ensures this.tree == tree && defaultMaxRetries == default && capacity == |tree.nodes| * 3
      ensures workers == multiset{} && queue == [] && !running && !context && Started()
    {
      this.tree, defaultMaxRetries, capacity := tree, default, |tree.nodes| * 3;
      active, workers, queue, running, context, starting := 0, multiset{}, [], false, false, multiset{};
      spawns, handled := multiset{}, 0;
    }

    ghost function Abs(): RState
      reads this, tree, tree.Objects()
    {
      RState(tree.View(), tree.state, active, workers, queue, running, context, spawns, handled)
    }

    /** Whoever has yet to store a process id has yet to post. */
    ghost predicate Started()
      reads `starting, `workers
    {
      starting <= workers
    }

    /** Marks a node executing and starts its worker. */
    method Launch(node: IntentNode)
      requires tree.Valid() && Started() && node.id in tree.nodes && tree.nodes[node.id] == node
      modifies node, this`workers, this`spawns, this`starting
      ensures tree.View() == old(tree.View())[node.id := old(tree.View())[node.id].(state := Executing)]
      ensures workers == old(workers) + multiset{node.id} && spawns == old(spawns) + multiset{node.id}
      ensures Started()
    {
      MarkExecuting(node);
      label marked:
      starting := starting + multiset{node.id};
      workers := workers + multiset{node.id};
      spawns := spawns + multiset{node.id};
      assert tree.View() == old@marked(tree.View());
      hide IntentTree.View;
    }

    method MarkExecuting(node: IntentNode)
      requires tree.Valid() && node.id in tree.nodes && tree.nodes[node.id] == node
      modifies node
      ensures node.id in old(tree.View())
      ensures tree.View() == old(tree.View())[node.id := old(tree.View())[node.id].(state := Executing)]
    {
      node.SetState(Executing);
      assert forall k :: k in tree.nodes && k != node.id ==> tree.nodes[k] != node;
    }

    /** Launches every runnable node and returns how many there were. */
    method SpawnRunnable() returns (count: nat)
      requires tree.Valid() && Started()
      modifies tree.Objects(), this`workers, this`spawns, this`starting
      ensures Started()
      ensures var t := old(tree.View());
              && tree.View() == SpawnAll(t) && count == |RunnableSet(t)|
              && tree.View().Keys == t.Keys
              && (forall n :: n in t ==> tree.View()[n] == if Runnable(t, n) then t[n].(state := Executing) else t[n])
              && workers == old(workers) + multiset(RunnableSet(t))
              && spawns == old(spawns) + multiset(RunnableSet(t))
    {
      hide Runnable, SpawnAll, Marked, IntentTree.View, IntentNode.Fields, RunnableSet;
      ghost var t := tree.View();
      var runnable := tree.RunnableNodes();
      RunnableMembers(t);
      ghost var marked: set<Name> := {};
      MarkedAll(t);
      for i := 0 to |runnable|
        invariant tree.View() == Marked(t, marked) && |marked| == i
        invariant workers == old(workers) + multiset(marked) && spawns == old(spawns) + multiset(marked)
        invariant Started()
        invariant forall j :: 0 <= j < i ==> runnable[j].id in marked
        invariant forall j :: i <= j < |runnable| ==> runnable[j].id !in marked
        invariant marked <= RunnableSet(t)
      {
        MarkOne(t, marked, runnable[i].id);
        Launch(runnable[i]);
        marked := marked + {runnable[i].id};
      }
      assert marked == RunnableSet(t);
      LaunchedFields(t);
      return |runnable|;
    }

    /** Gives every node without a retry limit the default one. */
    method ApplyDefaults()
      requires tree.Valid()
      modifies tree.Objects()
      ensures tree.View() == Defaulted(old(tree.View()), defaultMaxRetries)
      ensures Limited(old(tree.View()), tree.View(), defaultMaxRetries)
    {
      hide Limited;
      ghost var t := tree.View();
      var remaining := tree.nodes.Keys;
      while remaining != {}
        invariant remaining <= tree.nodes.Keys
        invariant tree.View() == DefaultedBut(t, defaultMaxRetries, remaining)
        decreases remaining
      {
        var n :| n in remaining;
        DefaultOne(t, defaultMaxRetries, remaining, n);
        remaining := remaining - {n};
        SetDefault(n);
      }
      DefaultedDone(t, defaultMaxRetries);
      DefaultedIsLimited(t, defaultMaxRetries);
    }

    method SetDefault(n: Name)
      requires tree.Valid() && n in tree.nodes
      modifies tree.nodes[n]
      ensures tree.View() == old(tree.View())[n := WithDefault(old(tree.View())[n], defaultMaxRetries)]
      ensures tree.nodes[n].maxRetries ==
                if old(tree.nodes[n].maxRetries) == 0 then defaultMaxRetries else old(tree.nodes[n].maxRetries)
    {
      var node := tree.nodes[n];
      node.DefaultRetries(defaultMaxRetries);
      assert forall k :: k in tree.nodes && k != n ==> tree.nodes[k] != node;
    }

    /** Launches what is runnable and counts it as active. */
    method LaunchRunnable()
      requires tree.Valid() && Started()
      modifies tree.Objects(), this`workers, this`spawns, this`active, this`starting
      ensures Abs() == Spawn(old(Abs()))
      ensures Started()
    {
      hide SpawnAll, RunnableSet, Started, IntentTree.View, IntentTree.Valid;
      var count := SpawnRunnable();
      active := active + count;
    }

    /** The first part of execution: everything but the launches. */
    method Prepare()
      requires tree.Valid() && workers == multiset{} && queue == []
      modifies this, tree`state, tree`desired, tree.Objects()
      ensures Abs() == Prepared(old(tree.View()), defaultMaxRetries) && Started()
      ensures Limited(old(tree.View()), tree.View(), defaultMaxRetries) && tree.state == Executing && active == 0
      ensures running && context && workers == multiset{} && queue == []
      ensures tree.desired == map n | n in tree.nodes :: Completed
    {
      hide Defaulted, Limited, IntentTree.View, IntentTree.Valid;
      SetOff();
      ApplyDefaults();
    }

    /** Nothing is active, nothing has happened, and every node is desired completed. */
    method SetOff()
      modifies this, tree`state, tree`desired
      ensures running && context && active == 0 && starting == multiset{} && spawns == multiset{} && handled == 0
      ensures workers == old(workers) && queue == old(queue) && tree.state == Executing
      ensures tree.desired == map n | n in tree.nodes :: Completed
    {
      tree.state := Executing;
      tree.desired := map n | n in tree.nodes :: Completed;
      running, context := true, true;
      active, starting := 0, multiset{};
      spawns, handled := multiset{}, 0;
    }

    /** Execution up to its loop; returns whether there is a loop to enter. */
    method Start() returns (entered: bool)
      requires tree.Valid() && workers == multiset{} && queue == []
      modifies this, tree`state, tree`desired, tree.Objects()
      ensures Abs() == Begin(old(tree.View()), defaultMaxRetries) && entered == running
      ensures Started()
      ensures tree.desired == map n | n in tree.nodes :: Completed
    {
      hide Spawn, Prepared, Started, IntentTree.View, IntentTree.Valid;
      Prepare();
      LaunchRunnable();
      if active == 0 {
        tree.state := Completed;
        running := false;
      }
      return running;
    }

    /** A worker hands its event to the channel. */
    method PostEvent(ev: Event)
      requires ev.node in workers && |queue| < capacity
      modifies this`workers, this`queue, this`starting
      ensures Post(old(Abs()), Abs(), capacity, ev) && Started()
    {
      workers := workers - multiset{ev.node};
      starting := starting * workers;
      queue := queue + [ev];
      assert tree.View() == old(tree.View());
      hide IntentTree.View;
    }

    /** A worker stores the pid of the process it spawned. */
    method StoreNodePid(n: Name, pid: int)
      requires tree.Valid() && n in starting && n in workers && n in tree.nodes
      modifies tree.nodes[n], this`starting
      ensures StorePid(old(Abs()), Abs(), n, pid)
      ensures starting == old(starting) - multiset{n}
    {
      starting := starting - multiset{n};
      assert tree.View() == old(tree.View());
      hide IntentTree.View;
      WritePid(n, pid);
    }

    method WritePid(n: Name, pid: int)
      requires tree.Valid() && n in tree.nodes
      modifies tree.nodes[n]
      ensures n in old(tree.View()) && tree.View() == old(tree.View())[n := old(tree.View())[n].(pid := pid)]
    {
      var node := tree.nodes[n];
      node.SetPid(pid);
      assert forall k :: k in tree.nodes && k != n ==> tree.nodes[k] != node;
    }

    /** The effect of an event on the tree, before anything is launched. */
    method ApplyEvent(ev: Event) returns (retried: bool)
      requires tree.Valid()
      modifies tree.Objects()
      ensures EventEffect(old(tree.View()), tree.View(), ev)
      ensures retried == Retries(old(tree.View()), ev)
    {
      hide MarkedFailed, IntentTree.View;
      InTree(ev.node);
      if ev.kind == NodeCompleted {
        tree.MarkCompleted(ev.node, ev.text);
        return false;
      }
      if ev.node !in tree.nodes {
        return false;
      }
      retried := CountRetry(ev.node);
      if retried {
        MarkRetrying(ev.node);
      } else {
        tree.MarkFailed(ev.node, ev.text);
      }
    }

    lemma EmptyView()
      ensures |tree.nodes| == 0 ==> tree.View() == map[]
    {
    }

    lemma InTree(n: Name)
      ensures n in tree.View() <==> n in tree.nodes
    {
    }

    /** Counts a failure and tells whether the node may be tried again. */
    method CountRetry(n: Name) returns (again: bool)
      requires tree.Valid() && n in tree.nodes
      modifies tree.nodes[n]
      ensures tree.View() == old(tree.View())[n := old(tree.View())[n].(retryCount := old(tree.View())[n].retryCount + 1)]
      ensures again == (tree.View()[n].retryCount < tree.View()[n].maxRetries)
    {
      var node := tree.nodes[n];
      node.IncrRetry();
      assert forall k :: k in tree.nodes && k != n ==> tree.nodes[k] != node;
      return node.CanRetry();
    }

    method MarkRetrying(n: Name)
      requires tree.Valid() && n in tree.nodes
      modifies tree.nodes[n]
      ensures tree.View() ==
                old(tree.View())[n := old(tree.View())[n].(state := Retrying, error := "", pid := 0, result := "")]
    {
      var node := tree.nodes[n];
      node.WriteRetry();
      assert forall k :: k in tree.nodes && k != n ==> tree.nodes[k] != node;
    }

    method HasFailedNode() returns (hasFailed: bool)
      requires tree.Valid()
      ensures hasFailed <==> exists n :: n in tree.View() && tree.View()[n].state == Failed
    {
      ghost var t := tree.View();
      var remaining := tree.nodes.Keys;
      while remaining != {}
        invariant remaining <= tree.nodes.Keys
        invariant forall n :: n in t && n !in remaining ==> t[n].state != Failed
        decreases remaining
      {
        var n :| n in remaining;
        remaining := remaining - {n};
        if tree.nodes[n].state == Failed {
          assert t[n].state == Failed;
          return true;
        }
      }
      return false;
    }

    /** The loop ends: the tree is failed if some node is, else completed. */
    method FinalizeTreeState()
      requires tree.Valid()
      modifies tree`state, this`running
      ensures Abs() == Finalize(old(Abs()))
    {
      hide IntentNode.Fields;
      ghost var s := Abs();
      var hasFailed := HasFailedNode();
      assert tree.View() == s.tree;
      assert hasFailed <==> exists n :: n in s.tree && s.tree[n].state == Failed;
      tree.state := if hasFailed then Failed else Completed;
      running := false;
      assert tree.View() == s.tree;
    }

    /** Takes the event at the head of the channel and applies it to the tree. */
    method TakeEvent() returns (ev: Event, retried: bool)
      requires tree.Valid() && running && queue != []
      modifies this`queue, this`active, this`handled, tree.Objects()
      ensures ev == old(queue[0]) && retried == Retries(old(tree.View()), ev)
      ensures EventEffect(old(tree.View()), tree.View(), ev)
      ensures Abs() == Effected(old(Abs()), tree.View())
    {
      hide EventEffect, Retries, IntentTree.View, IntentTree.Valid;
      ev := queue[0];
      queue := queue[1..];
      active := active - 1;
      handled := handled + 1;
      retried := ApplyEvent(ev);
    }

    /** Launches what the event has made runnable, and ends the run if nothing is left
        to wait for. */
    method GoOn(ev: Event, retried: bool)
      requires tree.Valid() && Started() && (retried ==> ev.kind != NodeCompleted)
      modifies this, tree`state, tree.Objects()
      ensures Abs() == GoneOn(old(Abs()), ev.kind == NodeCompleted, retried) && Started()
    {
      hide Terminal, Spawn, Finalize, Started, IntentTree.View, IntentTree.Valid;
      ghost var s1 := Abs();
      if retried {
        LaunchRunnable();
      }
      SpawnAndEnd(s1);
      var terminal := tree.IsTerminal();
      if terminal {
        FinalizeTreeState();
        return;
      }
      if ev.kind == NodeCompleted {
        LaunchRunnable();
      }
      if active == 0 {
        FinalizeTreeState();
      }
    }

    /** Takes the event at the head of the channel and reacts to it: the body of
        the loop. */
    method HandleEvent()
      requires tree.Valid() && Started() && running && queue != []
      modifies this, tree`state, tree.Objects()
      ensures Handle(old(Abs()), Abs())
      ensures Started()
    {
      hide EventEffect, Retries, Terminal, Spawn, Started, IntentTree.View, IntentTree.Valid;
      ghost var s := Abs();
      InTree(queue[0].node);
      var ev, retried := TakeEvent();
      ghost var t' := tree.View();
      RetriesInTree(s.tree, ev);
      if ev.kind != NodeCompleted && ev.node !in tree.nodes {
        assert HandleTo(s, t', Abs());
        return;
      }
      GoOn(ev, retried);
      assert HandleTo(s, t', Abs());
    }

    /** Gives the nodes just added the default retry limit. */
    method DefaultNodes(added: seq<Name>)
      requires tree.Valid()
      modifies tree.Objects()
      ensures tree.View() == DefaultSome(old(tree.View()), added, defaultMaxRetries)
    {
      hide WithDefault, IntentTree.Valid;
      ghost var t := tree.View();
      assert added[..0] == [];
      for i := 0 to |added|
        invariant tree.View() == DefaultSome(t, added[..i], defaultMaxRetries)
      {
        DefaultNext(t, added, i, defaultMaxRetries);
        if added[i] in tree.nodes {
          SetDefault(added[i]);
        }
      }
      assert added[..|added|] == added;
    }

    /** Merges new nodes into the tree, and launches what has become runnable if an
        execution context is stored. */
    method MergeAndInject(batch: seq<NewNode>) returns (outcome: MergeOutcome)
      requires tree.Valid() && Started()
      modifies tree`nodes, tree`desired, tree.Objects(), this`workers, this`spawns, this`active, this`starting
      ensures tree.Valid() && fresh(tree.Objects() - old(tree.Objects()))
      ensures !outcome.Panicked? ==> MergeStep(old(Abs()), Abs(), batch, defaultMaxRetries)
      ensures outcome.Merged? ==> AddedAreSetUp(old(tree.View()), tree.View(), batch, defaultMaxRetries)
      ensures !outcome.Panicked? ==> Kept(old(tree.View()), tree.View(), false)
      ensures outcome.Panicked? <==>
                !Acceptable(EnterAll(old(tree.View()), batch).tree) && Conflicts(old(tree.View()), batch)
      ensures Started()
    {
      hide EnterAll, RollBack, Conflicts, Acceptable, IntentNode.Fields, Spawn, Started, Kept, AddedAreSetUp;
      ghost var s := Abs();
      ghost var m: Log;
      outcome, m := MergeIncremental(tree, batch);
      if outcome.Merged? {
        DefaultNodes(outcome.added);
        DefaultSorted(m, defaultMaxRetries);
        if context {
          LaunchRunnable();
        }
        AddedSetUp(s, Abs(), batch, defaultMaxRetries);
      }
      if !outcome.Panicked? {
        NothingChanged(s.tree);
        MergeKeeps(s.tree, s, Abs(), batch, defaultMaxRetries, true);
      }
    }

    /** Drives the tree to its end, with everything else running beside the loop: at
        every turn a worker may store its process id or post, the next of the batches
        may be merged in, the loop may handle an event, or the context may be
        cancelled.  Every schedule ends, whatever the tree and the batches.  A tree
        with nothing to launch is left as it was and reported completed; else
        `Reported` says what the report of an uncancelled run is worth. */
    method Execute(batches: seq<seq<NewNode>>) returns (end: RunEnd, merged: nat)
      requires tree.Valid() && workers == multiset{} && queue == []
      requires capacity > 0 || tree.nodes == map[]
      modifies this, tree`state, tree`desired, tree`nodes, tree.Objects()
      ensures tree.Valid() && merged <= |batches|
      ensures !end.Crashed? ==> !running && (context <==> end.Ended?)
      ensures end.Cancelled? ==> tree.state == Failed
      ensures end.Crashed? ==> merged < |batches| && Disagrees(batches[merged])
      ensures !end.Crashed? ==> KeptFrom(old(tree.View()), tree.View(), defaultMaxRetries, merged == 0)
      ensures end.Ended? ==>
                var t := old(tree.View());
                if RunnableSet(Defaulted(t, defaultMaxRetries)) == {}
                then tree.View() == Defaulted(t, defaultMaxRetries) && tree.state == Completed
                else Reported(Abs(), merged == 0 && Startable(t), AllAtRest(t))
    {
      hide Starts, Reported, Turning, Effort, Begin, RunnableSet, Defaulted, AllAtRest, Started, Disagrees, Kept, KeptFrom,
           IntentTree.View, IntentTree.Valid;
      ghost var t := tree.View();
      ghost var c := FromTree(t, defaultMaxRetries);
      AtStart(c, t, defaultMaxRetries);
      EmptyView();
      SomeNode(t, defaultMaxRetries);
      var entered := Start();
      if !entered {
        NothingChanged(Defaulted(t, defaultMaxRetries));
        KeptLimits(t, tree.View(), defaultMaxRetries, true);
        return Ended, 0;
      }
      end, merged := Drive(c, AllAtRest(t), batches);
      if !end.Crashed? { KeptLimits(t, tree.View(), defaultMaxRetries, merged == 0); }
    }

    /** The loop, with everything that goes on beside it. */
    method Drive(ghost c: Start, ghost atRest: bool, batches: seq<seq<NewNode>>) returns (end: RunEnd, merged: nat)
      requires tree.Valid() && running && capacity > 0 && Started() && Turning(c, atRest, true, Abs())
      modifies this, tree`state, tree`desired, tree`nodes, tree.Objects()
      ensures tree.Valid() && merged <= |batches|
      ensures !end.Crashed? ==> !running && (context <==> end.Ended?)
      ensures end.Cancelled? ==> tree.state == Failed
      ensures end.Crashed? ==> merged < |batches| && Disagrees(batches[merged])
      ensures !end.Crashed? ==> Kept(c.tree, tree.View(), merged == 0)
      ensures end.Ended? ==> Reported(Abs(), merged == 0 && c.sound, atRest)
    {
      hide Reported, Turning, Effort, Started, Disagrees, Kept, IntentTree.View, IntentTree.Valid;
      merged := 0;
      while running
        invariant tree.Valid() && fresh(tree.Objects() - old(tree.Objects()))
        invariant merged <= |batches| && Started()
        invariant Turning(c, atRest, merged == 0, Abs())
        decreases |batches| - merged, Effort(Abs()), |workers|, |starting|
      {
        var choice: nat := *;
        EffortNonNegative(Abs());
        HasWork(c, atRest, merged == 0, Abs());
        if choice == 0 {
          StillKept(c, atRest, merged == 0, Abs());
          tree.state := Failed;
          running, context := false, false;
          return Cancelled, merged;
        } else if choice == 1 && merged < |batches| {
          var crashed := MergeTurn(c, atRest, merged == 0, batches[merged]);
          if crashed { return RunEnd.Crashed, merged; }
          merged := merged + 1;
        } else if choice == 2 && starting != multiset{} {
          PidTurn(c, atRest, merged == 0);
        } else if queue != [] && (choice == 3 || workers == multiset{} || |queue| >= capacity) {
          LoopTurn(c, atRest, merged == 0);
        } else {
          WorkerTurn(c, atRest, merged == 0);
        }
      }
      HowItEnds(c, atRest, merged == 0, Abs());
      StillKept(c, atRest, merged == 0, Abs());
      return Ended, merged;
    }

    /** The next batch is merged in. */
    method MergeTurn(ghost c: Start, ghost atRest: bool, ghost unmerged: bool, batch: seq<NewNode>) returns (crashed: bool)
      requires tree.Valid() && running && Started() && Turning(c, atRest, unmerged, Abs())
      modifies tree`nodes, tree`desired, tree.Objects(), this`workers, this`spawns, this`active, this`starting
      ensures tree.Valid() && fresh(tree.Objects() - old(tree.Objects()))
      ensures crashed ==> Disagrees(batch)
      ensures !crashed ==> Turning(c, atRest, false, Abs()) && Started()
    {
      hide Attended, Tallied, RunInv, Reported, MergeStep, Conflicts, Acceptable, EnterAll, Started, Kept, IntentTree.View,
           IntentTree.Valid, AddedAreSetUp;
      ghost var s := Abs();
      var outcome := MergeAndInject(batch);
      crashed := outcome.Panicked?;
      if crashed {
        ConflictsDisagree(s.tree, batch);
      } else {
        MergedTurn(s, Abs(), batch, defaultMaxRetries);
        MergeKeeps(c.tree, s, Abs(), batch, defaultMaxRetries, unmerged);
      }
    }

    /** The loop handles one event. */
    method LoopTurn(ghost c: Start, ghost atRest: bool, ghost unmerged: bool)
      requires tree.Valid() && running && Started() && queue != [] && Turning(c, atRest, unmerged, Abs())
      modifies this, tree`state, tree.Objects()
      ensures Turning(c, atRest, unmerged, Abs()) && Effort(Abs()) < old(Effort(Abs()))
      ensures Started()
    {
      hide Attended, Tallied, RunInv, Reported, Handle, Effort, Started, Kept, IntentTree.View, IntentTree.Valid;
      ghost var s := Abs();
      HandleEvent();
      HandleEffort(s, Abs());
      HandleKeepsContext(s, Abs());
      HandledTurn(c, s, Abs(), capacity, unmerged, atRest);
      assert Step(s, Abs(), capacity);
      StepKeeps(c.tree, s, Abs(), capacity, unmerged);
    }

    /** Some worker stores the id of its process. */
    method PidTurn(ghost c: Start, ghost atRest: bool, ghost unmerged: bool)
      requires tree.Valid() && running && starting != multiset{} && Started() && Turning(c, atRest, unmerged, Abs())
      modifies tree.Objects(), this`starting
      ensures Started() && |starting| < |old(starting)| && Effort(Abs()) == old(Effort(Abs()))
      ensures Turning(c, atRest, unmerged, Abs())
    {
      hide RunInv, Attended, Tallied, Effort, Reported, Kept;
      ghost var s := Abs();
      var n :| n in starting;
      WorkersAreKnown(s, n);
      var pid: int := *;
      StoreNodePid(n, pid);
      PidTallies(s, Abs(), n, pid);
      PidEffort(s, Abs(), n, pid);
      PidKeeps(c.tree, s, Abs(), n, pid, unmerged);
      if unmerged { StorePidPreserves(c, s, Abs(), n, pid); }
    }

    /** Some worker posts, with whatever outcome. */
    method WorkerTurn(ghost c: Start, ghost atRest: bool, ghost unmerged: bool)
      requires tree.Valid() && running && workers != multiset{} && |queue| < capacity
      requires Turning(c, atRest, unmerged, Abs())
      modifies this`workers, this`queue, this`starting
      ensures Started() && |workers| < |old(workers)| && Effort(Abs()) == old(Effort(Abs()))
      ensures Turning(c, atRest, unmerged, Abs())
    {
      hide RunInv, Attended, Tallied, Effort, Reported, Kept;
      ghost var s := Abs();
      var n :| n in workers;
      var kind: EventKind, text: string := *, *;
      PostEvent(Event(n, kind, text));
      PostTurn(c, s, Abs(), capacity, Event(n, kind, text));
    }
  }

  /** What every turn of the loop keeps: the run's invariant until the first merge,
      after it what merges leave of it; a loop that runs waits for something. */
  ghost predicate Turning(c: Start, atRest: bool, unmerged: bool, s: RState) {
    && Attended(s) && s.context
    && (atRest ==> Tallied(s))
    && (unmerged ==> RunInv(c, s))
    && Kept(c.tree, s.tree, unmerged)
    && if s.running then s.active != 0 else Reported(s, unmerged && c.sound, atRest)
  }

  lemma StillKept(c: Start, atRest: bool, unmerged: bool, s: RState)
    requires Turning(c, atRest, unmerged, s)
    ensures Kept(c.tree, s.tree, unmerged)
  {
  }

  lemma NothingChanged(t: Tree)
    ensures Kept(t, t, true)
  {
  }

  /** Two entries of the batch give different intents for one id. */
  ghost predicate Disagrees(batch: seq<NewNode>) {
    exists i, j :: 0 <= i < j < |batch| && batch[i].id == batch[j].id && batch[i].intent != batch[j].intent
  }

  /** How an uncancelled loop ends: failed is reported exactly if some node is; when
      completed is, every node has completed exactly if the unfinished nodes form a
      DAG of known nodes.  Without merges, from a startable tree, every node is
      finished and nothing in flight. */
  ghost predicate Reported(s: RState, startable: bool, atRest: bool) {
    && (Terminal(s.tree) || s.active == 0)
    && s.treeState == (if AnyFailed(s.tree) then Failed else Completed)
    && (atRest && s.treeState == Completed ==> (AllCompleted(s.tree) <==> LiveDag(s.tree)))
    && (startable ==>
          && Terminal(s.tree) && s.active == 0 && s.workers == multiset{} && s.queue == []
          && (s.treeState == Completed <==> AllCompleted(s.tree)))
  }

  ghost function FromTree(t: Tree, default: int): (c: Start)
    ensures Starts(c, t, default) && c.sound == Startable(t)
  {
    Start(Defaulted(t, default), Startable(t), {})
  }

  lemma AtStart(c: Start, t: Tree, default: int)
    requires Starts(c, t, default)
    ensures var s := Begin(t, default);
            && (s.running <==> RunnableSet(Defaulted(t, default)) != {}) && (s.running ==> s.active != 0)
            && (!s.running ==> s.tree == Defaulted(t, default) && s.treeState == Completed)
            && s.context && (s.running ==> Turning(c, AllAtRest(t), true, s))
  {
    BeginInv(c, t, default);
    hide Runnable, RunInv, Starts, Tallied, AllAtRest, Kept;
    StartKeeps(t, default);
    SpawnCounts(t, default);
    if RunnableSet(Defaulted(t, default)) == {} { NothingToSpawn(t, default); }
    BeginAttended(t, default);
    if AllAtRest(t) { BeginTallied(t, default); }
  }

  lemma StartKeeps(t: Tree, default: int)
    ensures Kept(Defaulted(t, default), Begin(t, default).tree, true)
  {
    hide Runnable;
  }

  lemma SomeNode(t: Tree, default: int)
    ensures t == map[] ==> RunnableSet(Defaulted(t, default)) == {}
  {
  }

  lemma HasWork(c: Start, atRest: bool, unmerged: bool, s: RState)
    requires Turning(c, atRest, unmerged, s) && s.running
    ensures s.context && (s.queue == [] ==> s.workers != multiset{})
  {
    if s.queue == [] { assert InFlight(s) == s.workers; }
  }

  lemma HowItEnds(c: Start, atRest: bool, unmerged: bool, s: RState)
    requires Turning(c, atRest, unmerged, s) && !s.running
    ensures s.context && Reported(s, unmerged && c.sound, atRest)
  {
  }

  lemma WorkersAreKnown(s: RState, n: Name)
    requires Attended(s) && n in s.workers
    ensures n in s.tree
  {
    hide Posted;
    assert InFlight(s)[n] > 0;
  }

  lemma HandleKeepsContext(s: RState, s': RState)
    requires Handle(s, s')
    ensures s'.context == s.context
  {
    hide EventEffect, Terminal, Runnable, Posted;
  }

  lemma ConflictsDisagree(t: Tree, batch: seq<NewNode>)
    requires Conflicts(t, batch)
    ensures Disagrees(batch)
  {
  }

  /** A merge leaves a running loop with something to wait for. */
  lemma MergedTurn(s: RState, s': RState, batch: seq<NewNode>, default: int)
    requires MergeStep(s, s', batch, default)
    ensures Attended(s) ==> Attended(s')
    ensures Tallied(s) ==> Tallied(s')
    ensures s'.running == s.running && s'.context == s.context
    ensures Attended(s) && s.active != 0 ==> s'.active != 0
  {
    MergeTallies(s, s', batch, default);
    hide EnterAll, RollBack, Acceptable, Runnable, InFlight;
  }

  lemma PidKeeps(t: Tree, s: RState, s': RState, n: Name, pid: int, unmerged: bool)
    requires Kept(t, s.tree, unmerged) && StorePid(s, s', n, pid)
    ensures Kept(t, s'.tree, unmerged)
  {
    assert Step(s, s', 0);
    StepKeeps(t, s, s', 0, unmerged);
  }

  lemma PidEffort(s: RState, s': RState, n: Name, pid: int)
    requires StorePid(s, s', n, pid)
    ensures Effort(s') == Effort(s)
  {
    hide Sum, Posted;
    assert AllAttempts(s'.tree) == AllAttempts(s.tree);
    assert Waiting(s'.tree) == Waiting(s.tree);
    assert InFlight(s') == InFlight(s);
  }

  lemma PostTurn(c: Start, s: RState, s': RState, capacity: nat, ev: ReconcilerProtocol.Event)
    requires Post(s, s', capacity, ev)
    ensures Attended(s) ==> Attended(s')
    ensures Tallied(s) ==> Tallied(s')
    ensures RunInv(c, s) ==> RunInv(c, s')
    ensures |s'.workers| < |s.workers| && Effort(s') == Effort(s)
  {
    PostKeepsInFlight(s, s', capacity, ev);
    hide RunInv, Attended, Tallied, InFlight, Sum, AllAttempts, Waiting;
    SameTally(s, s');
    if RunInv(c, s) { SameFlight(c, s, s'); }
  }

  /** What a handled event leaves: a loop that waits for something, or a report. */
  lemma HandledTurn(c: Start, s: RState, s': RState, capacity: nat, unmerged: bool, atRest: bool)
    requires Attended(s) && Handle(s, s')
    requires atRest ==> Tallied(s)
    requires unmerged ==> RunInv(c, s)
    ensures Attended(s') && (atRest ==> Tallied(s')) && (unmerged ==> RunInv(c, s'))
    ensures if s'.running then s'.active != 0 else Reported(s', unmerged && c.sound, atRest)
  {
    hide Attended, Tallied, RunInv, Terminal, HandleTo, LiveDag, AllCompleted, AnyFailed;
    assert Step(s, s', capacity);
    StepTallies(s, s', capacity);
    if unmerged { StepPreserves(c, s, s', capacity); }
    var t' :| HandleTo(s, t', s');
    if s'.running {
      GoesOn(s, t', s');
    } else {
      EndReports(s, t', s');
      if atRest { ReportIsWorth(s, s'); }
      if unmerged { NormalEnd(c, s, s'); }
      assert unmerged && c.sound ==> (s'.treeState == Completed <==> AllCompleted(s'.tree)) by {
        hide Handle;
        CompletedIs(s'.tree);
      }
    }
  }

  lemma CompletedIs(t: Tree)
    ensures AllCompleted(t) <==> forall n :: n in t ==> t[n].state == Completed
  {
  }

  lemma GoesOn(s: RState, t': Tree, s': RState)
    requires Attended(s) && s.queue != [] && HandleTo(s, t', s') && s'.running
    ensures s'.active != 0
  {
    hide EventEffect, Terminal, Runnable, Posted, Attended;
    EffectAttends(s, t');
  }

  lemma BeginAttended(t: Tree, default: int)
    ensures Attended(Begin(t, default))
  {
    hide Spawn, Posted;
    var s := Prepared(t, default);
    EmptyFlight(t, default);
    assert Attended(s);
    hide Attended;
    SpawnAttends(s);
    EndTallies(Spawn(s), Begin(t, default));
  }

  /** Every node the batch has added has the agent and the model of the first entry that
      names it, the intent and the dependencies of the last, and the default limit. */
  ghost predicate AddedAreSetUp(t: Tree, u: Tree, batch: seq<NewNode>, default: int) {
    forall i: nat, j: nat :: FirstNamed(batch, i) && LastNamed(batch, j) && batch[i].id == batch[j].id && batch[i].id !in t ==>
      && batch[i].id in u
      && var v := u[batch[i].id];
         && v.agent == batch[i].agent && v.model == batch[i].model
         && v.intent == batch[j].intent && v.dependsOn == batch[j].dependsOn
         && v.maxRetries == default && v.retryCount == 0 && (v.state == Pending || v.state == Executing)
  }

  lemma AddedSetUp(s: RState, s': RState, batch: seq<NewNode>, default: int)
    requires MergeStep(s, s', batch, default) && Acceptable(EnterAll(s.tree, batch).tree)
    ensures AddedAreSetUp(s.tree, s'.tree, batch, default)
  {
    hide MergeStep, EnterAll, Acceptable, FirstNamed, LastNamed;
    forall i: nat, j: nat | FirstNamed(batch, i) && LastNamed(batch, j)
      ensures i < |batch| && j < |batch|
      ensures batch[i].id == batch[j].id && batch[i].id !in s.tree ==>
                && batch[i].id in s'.tree
                && var v := s'.tree[batch[i].id];
                   && v.agent == batch[i].agent && v.model == batch[i].model
                   && v.intent == batch[j].intent && v.dependsOn == batch[j].dependsOn
                   && v.maxRetries == default && v.retryCount == 0 && (v.state == Pending || v.state == Executing)
    {
      NamedInRange(batch, i, j);
      if batch[i].id == batch[j].id && batch[i].id !in s.tree { AddedIsSetUp(s, s', batch, default, i, j); }
    }
  }

  lemma NamedInRange(batch: seq<NewNode>, i: nat, j: nat)
    requires FirstNamed(batch, i) && LastNamed(batch, j)
    ensures i < |batch| && j < |batch|
  {
  }

  ghost function DefaultSome(t: Tree, added: seq<Name>, default: int): Tree {
    map n | n in t :: if n in added then WithDefault(t[n], default) else t[n]
  }

  lemma DefaultNext(t: Tree, added: seq<Name>, i: nat, default: int)
    requires i < |added|
    ensures var u := DefaultSome(t, added[..i], default);
            DefaultSome(t, added[..i + 1], default) ==
              if added[i] in u then u[added[i] := WithDefault(u[added[i]], default)] else u
  {
    assert added[..i + 1] == added[..i] + [added[i]];
  }

  lemma DefaultSorted(m: Log, default: int)
    ensures DefaultSome(m.tree, Sort(m.added), default) == DefaultAdded(m, default)
  {
    SameElements(Sort(m.added), m.added);
  }

  ghost function GoneOn(s: RState, completed: bool, retried: bool): RState {
    var u := if completed || retried then Spawn(s) else s;
    if Terminal(u.tree) || u.active == 0 then Finalize(u) else u
  }

  lemma RetriesInTree(t: Tree, ev: Event)
    ensures Retries(t, ev) ==> ev.kind != NodeCompleted && ev.node in t
  {
  }

  /** Launching does nothing in a terminal tree, and ends no tree's run. */
  lemma SpawnAndEnd(s: RState)
    ensures Terminal(s.tree) ==> Spawn(s) == s
    ensures Terminal(Spawn(s).tree) ==> Terminal(s.tree)
  {
    if Terminal(s.tree) {
      assert forall n :: Runnable(s.tree, n) ==> Live(s.tree, n);
      assert RunnableSet(s.tree) == {};
      assert SpawnAll(s.tree) == s.tree;
    }
    if Terminal(Spawn(s).tree) {
      forall n | n in s.tree ensures !Live(s.tree, n) {
        assert !Live(SpawnAll(s.tree), n);
      }
    }
  }

  ghost function DefaultedBut(t: Tree, default: int, remaining: set<Name>): Tree {
    map n | n in t :: if n in remaining then t[n] else WithDefault(t[n], default)
  }

  lemma DefaultOne(t: Tree, default: int, remaining: set<Name>, n: Name)
    requires n in remaining && n in t
    ensures var u := DefaultedBut(t, default, remaining);
            u[n := WithDefault(u[n], default)] == DefaultedBut(t, default, remaining - {n})
  {
  }

  lemma DefaultedDone(t: Tree, default: int)
    ensures DefaultedBut(t, default, {}) == Defaulted(t, default)
  {
  }
}
