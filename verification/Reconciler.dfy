/** The reconciler as a protocol over its atomic steps: a worker stores its pid, a
    worker posts its one event, the loop handles one event, the context is
    cancelled, new nodes are merged in.  Worker outcomes are arbitrary. */
module ReconcilerProtocol {
  import opened Names
  import opened Sets
  import opened Sums
  import opened Graph
  import opened IntentTrees

  datatype EventKind = NodeCompleted | NodeFailed | NodeTimeout

  datatype Event = Event(node: Name, kind: EventKind, text: string)

  /** `workers` are the goroutines that have not posted yet and `queue` the
      contents of the event channel; `running` is whether the loop is, `context`
      whether an execution context is stored, which a loop that ends by itself
      leaves behind; `spawns` and `handled` record history. */
  datatype RState = RState(
    tree: Tree, treeState: NodeState, active: int,
    workers: multiset<Name>, queue: seq<Event>, running: bool, context: bool,
    spawns: multiset<Name>, handled: nat)

  ghost function Posted(queue: seq<Event>): multiset<Name> {
    if queue == [] then multiset{}
    else multiset{queue[0].node} + Posted(queue[1..])
  }

  /** One entry per worker whose event has not been handled. */
  ghost function InFlight(s: RState): multiset<Name> {
    s.workers + Posted(s.queue)
  }

  ghost function RunnableSet(t: Tree): set<Name> {
    set n | n in t && Runnable(t, n)
  }

  /** Launching every runnable node. */
  ghost function Spawn(s: RState): RState {
    var r := RunnableSet(s.tree);
    s.(tree := SpawnAll(s.tree), workers := s.workers + multiset(r),
       active := s.active + |r|, spawns := s.spawns + multiset(r))
  }

  /** The state in which the run ends. */
  ghost function Finalize(s: RState): RState {
    s.(treeState := if exists n :: n in s.tree && s.tree[n].state == Failed then Failed else Completed,
       running := false)
  }

  function WithDefault(v: NodeView, default: int): NodeView {
    if v.maxRetries == 0 then v.(maxRetries := default) else v
  }

  function Defaulted(t: Tree, default: int): Tree {
    map n | n in t :: WithDefault(t[n], default)
  }

  /** Execution up to its first launches. */
  ghost function Prepared(t: Tree, default: int): RState {
    RState(Defaulted(t, default), Executing, 0, multiset{}, [], true, true, multiset{}, 0)
  }

  /** Execution up to its loop. */
  ghost function Begin(t: Tree, default: int): RState {
    var s := Spawn(Prepared(t, default));
    if s.active == 0 then s.(treeState := Completed, running := false) else s
  }

  ghost predicate Post(s: RState, s': RState, capacity: nat, ev: Event) {
    && ev.node in s.workers && |s.queue| < capacity
    && s' == s.(workers := s.workers - multiset{ev.node}, queue := s.queue + [ev])
  }

  ghost predicate StorePid(s: RState, s': RState, n: Name, pid: int) {
    && n in s.workers && n in s.tree
    && s' == s.(tree := s.tree[n := s.tree[n].(pid := pid)])
  }

  ghost predicate Cancel(s: RState, s': RState) {
    s.running && s' == s.(treeState := Failed, running := false, context := false)
  }

  function Counted(v: NodeView): NodeView {
    v.(retryCount := v.retryCount + 1)
  }

  function Retried(v: NodeView): NodeView {
    Counted(v).(state := Retrying, error := "", pid := 0, result := "")
  }

  predicate Retries(t: Tree, ev: Event) {
    ev.kind != NodeCompleted && ev.node in t && t[ev.node].retryCount + 1 < t[ev.node].maxRetries
  }

  /** The tree after an event, before anything is launched. */
  ghost predicate EventEffect(t: Tree, t': Tree, ev: Event) {
    if ev.node !in t then t' == t
    else if ev.kind == NodeCompleted then
      t' == t[ev.node := t[ev.node].(state := Completed, result := ev.text)]
    else if Retries(t, ev) then
      t' == t[ev.node := Retried(t[ev.node])]
    else
      MarkedFailed(t[ev.node := Counted(t[ev.node])], t', ev.node, ev.text)
  }

  /** The loop handles the event at the head of the channel.  A failure reported
      for an unknown node is dropped without any further check. */
  ghost predicate Handle(s: RState, s': RState) {
    s.running && s.queue != [] &&
    exists t' :: HandleTo(s, t', s')
  }

  ghost predicate HandleTo(s: RState, t': Tree, s': RState)
    requires s.queue != []
  {
    var ev := s.queue[0];
    var s1 := s.(tree := t', active := s.active - 1, queue := s.queue[1..], handled := s.handled + 1);
    var s2 := if ev.kind == NodeCompleted || Retries(s.tree, ev) then Spawn(s1) else s1;
    && EventEffect(s.tree, t', ev)
    && if ev.kind != NodeCompleted && ev.node !in s.tree then s' == s1
       else if Terminal(s2.tree) || s2.active == 0 then s' == Finalize(s2)
       else s' == s2
  }

  ghost predicate Step(s: RState, s': RState, capacity: nat) {
    || (exists ev :: Post(s, s', capacity, ev))
    || (exists n, pid :: StorePid(s, s', n, pid))
    || Handle(s, s')
    || Cancel(s, s')
  }

  // --- facts about launching ---------------------------------------------------------

  lemma NoneRunnableAfterSpawn(t: Tree)
    ensures forall n :: !Runnable(SpawnAll(t), n)
  {
    forall n ensures !Runnable(SpawnAll(t), n) {
      if Runnable(SpawnAll(t), n) {
        assert t[n] == SpawnAll(t)[n];
        forall d | d in t[n].dependsOn ensures d in t && t[d].state == Completed {
          assert d in SpawnAll(t)[n].dependsOn;
        }
        assert Runnable(t, n);
      }
    }
  }

  lemma SpawnKeepsDeps(t: Tree)
    ensures DepsOf(SpawnAll(t)) == DepsOf(t)
  {
  }

  lemma RunnableIsCounted(s: RState)
    ensures forall n :: InFlight(Spawn(s))[n] == InFlight(s)[n] + if Runnable(s.tree, n) then 1 else 0
    ensures |InFlight(Spawn(s))| == |InFlight(s)| + |RunnableSet(s.tree)|
  {
  }

  lemma {:induction false} PostedAppend(q: seq<Event>, ev: Event)
    ensures Posted(q + [ev]) == Posted(q) + multiset{ev.node}
  {
    if q == [] {
      assert q + [ev] == [ev];
      assert Posted([ev]) == multiset{ev.node} + Posted([ev][1..]);
    } else {
      assert (q + [ev])[1..] == q[1..] + [ev];
      PostedAppend(q[1..], ev);
    }
  }

  lemma {:induction false} PostedSize(q: seq<Event>)
    ensures |Posted(q)| == |q|
  {
    if q != [] {
      PostedSize(q[1..]);
    }
  }

  /** Posting moves a worker into the channel: the same nodes are in flight. */
  lemma PostKeepsInFlight(s: RState, s': RState, capacity: nat, ev: Event)
    requires Post(s, s', capacity, ev)
    ensures InFlight(s') == InFlight(s)
  {
    PostedAppend(s.queue, ev);
  }

  // --- a tree in which nothing moves is finished ------------------------------------------

  ghost predicate SettledStates(t: Tree) {
    forall n :: n in t ==> t[n].state != Decomposing && t[n].state != AwaitConfirm
  }

  /** Acyclicity, saturation and failure closure together exclude a stuck tree. */
  lemma NothingRunsMeansTerminal(t: Tree)
    requires Closed(DepsOf(t)) && Acyclic(DepsOf(t)) && SettledStates(t)
    requires forall n :: n in t ==> t[n].state != Executing && !Runnable(t, n)
    requires forall n, d :: Live(t, n) && d in t[n].dependsOn && d in t ==> t[d].state != Failed
    ensures Terminal(t)
  {
    hide Acyclic;
    var waiting := set n | n in t && Live(t, n);
    if waiting != {} {
      var v := AcyclicHasSource(DepsOf(t), waiting);
      forall d | d in t[v].dependsOn ensures d in t && t[d].state == Completed {
        assert Edge(DepsOf(t), d, v);
        assert d !in waiting;
      }
      assert false;
    }
    assert forall n :: n in t && Live(t, n) ==> n in waiting;
  }

  // --- runs without merges -----------------------------------------------------------------

  predicate Has(t: Tree, n: Name, st: NodeState) {
    n in t && t[n].state == st
  }

  ghost predicate DepsCompleted(t: Tree, n: Name)
    requires n in t
  {
    forall d :: d in t[n].dependsOn ==> Has(t, d, Completed)
  }

  ghost predicate HasFailedDependency(t: Tree, n: Name)
    requires n in t
  {
    exists d :: d in t[n].dependsOn && Has(t, d, Failed)
  }

  /** How often a node may be launched that was never tried. */
  function Limit(v: NodeView): int {
    if v.maxRetries < 1 then 1 else v.maxRetries
  }

  /** The launches a node may still use up. */
  function Worth(v: NodeView): int {
    if v.state == Failed || v.state == Completed then 0
    else if v.maxRetries - v.retryCount < 1 then 1 else v.maxRetries - v.retryCount
  }

  /** What a run starts from.  `sound` is whether nobody has left a node executing
      and nothing unfinished depends on a failed node; `rested` holds nodes that have
      not failed, have attempts left, and are not at odds with their dependencies. */
  datatype Start = Start(tree: Tree, sound: bool, rested: set<Name>)

  /** What every node satisfies, given the nodes in flight and the launches so far. */
  ghost predicate NodeInv(c: Start, t: Tree, flight: multiset<Name>, spawns: multiset<Name>, n: Name) {
    && flight[n] <= 1 && (flight[n] == 1 ==> Has(t, n, Executing))
    && (spawns[n] > 0 ==> n in t)
    && (n in t ==>
          && n in c.tree && History(c.tree[n], t, flight, spawns, n)
          && (c.sound ==> Sound(t, flight, n)) && (n in c.rested ==> Rested(t, n)))
  }

  ghost predicate History(v: NodeView, t: Tree, flight: multiset<Name>, spawns: multiset<Name>, n: Name)
    requires n in t
  {
    && (flight[n] > 0 ==> spawns[n] > 0)
    && (spawns[n] > 0 ==> DepsCompleted(t, n))
    && (spawns[n] == 0 ==> t[n].state == v.state || t[n].state == Failed)
    && spawns[n] + Worth(t[n]) - flight[n] <= Worth(v)
  }

  ghost predicate Sound(t: Tree, flight: multiset<Name>, n: Name)
    requires n in t
  {
    && t[n].state != Decomposing && t[n].state != AwaitConfirm
    && (t[n].state == Executing ==> flight[n] == 1)
    && (Live(t, n) ==> !HasFailedDependency(t, n))
  }

  ghost predicate Rested(t: Tree, n: Name)
    requires n in t
  {
    && 0 <= t[n].retryCount <= Limit(t[n])
    && (t[n].state != Failed ==> t[n].retryCount < Limit(t[n]))
    && (t[n].state == Failed ==> t[n].retryCount == Limit(t[n]) || HasFailedDependency(t, n))
    && (t[n].state == Completed ==> DepsCompleted(t, n))
    && (Live(t, n) ==> !HasFailedDependency(t, n))
  }

  ghost predicate AllNodes(c: Start, t: Tree, flight: multiset<Name>, spawns: multiset<Name>) {
    forall n {:trigger NodeInv(c, t, flight, spawns, n)} :: NodeInv(c, t, flight, spawns, n)
  }

  ghost predicate NoneRunnable(t: Tree) {
    forall n :: !Runnable(t, n)
  }

  /** The invariant of a run, but for saturation. */
  ghost predicate PreInv(c: Start, s: RState) {
    && (c.sound ==> Closed(DepsOf(s.tree)) && Acyclic(DepsOf(s.tree)))
    && s.active == |InFlight(s)|
    && AllNodes(c, s.tree, InFlight(s), s.spawns)
  }

  /** The invariant of a run without merges. */
  ghost predicate RunInv(c: Start, s: RState) {
    PreInv(c, s) && NoneRunnable(s.tree)
  }

  lemma SameFailures(t: Tree, u: Tree, n: Name)
    requires n in t && n in u && u[n].dependsOn == t[n].dependsOn
    requires forall d :: d in t[n].dependsOn ==> (Has(u, d, Failed) <==> Has(t, d, Failed))
    ensures HasFailedDependency(u, n) <==> HasFailedDependency(t, n)
  {
    if HasFailedDependency(t, n) {
      var d :| d in t[n].dependsOn && Has(t, d, Failed);
      assert Has(u, d, Failed);
    }
    if HasFailedDependency(u, n) {
      var d :| d in u[n].dependsOn && Has(u, d, Failed);
      assert Has(t, d, Failed);
    }
  }

  lemma SpawnNode(c: Start, t: Tree, flight: multiset<Name>, spawns: multiset<Name>, n: Name)
    requires AllNodes(c, t, flight, spawns)
    ensures NodeInv(c, SpawnAll(t), flight + multiset(RunnableSet(t)), spawns + multiset(RunnableSet(t)), n)
  {
    hide HasFailedDependency;
    assert NodeInv(c, t, flight, spawns, n);
    var u := SpawnAll(t);
    assert forall d :: (Has(u, d, Completed) <==> Has(t, d, Completed)) && (Has(u, d, Failed) <==> Has(t, d, Failed));
    if n in t { SameFailures(t, u, n); }
  }

  /** Launching restores saturation. */
  lemma SpawnRestores(c: Start, s: RState)
    requires PreInv(c, s)
    ensures RunInv(c, Spawn(s))
  {
    hide Closed, Acyclic, NodeInv, Runnable;
    var r := multiset(RunnableSet(s.tree));
    NoneRunnableAfterSpawn(s.tree);
    SpawnKeepsDeps(s.tree);
    RunnableIsCounted(s);
    forall n ensures NodeInv(c, SpawnAll(s.tree), InFlight(s) + r, s.spawns + r, n) {
      SpawnNode(c, s.tree, InFlight(s), s.spawns, n);
    }
    assert InFlight(Spawn(s)) == InFlight(s) + r;
  }

  lemma HeadIsExecuting(c: Start, s: RState)
    requires PreInv(c, s) && s.queue != []
    ensures var m := s.queue[0].node; Has(s.tree, m, Executing) && InFlight(s)[m] == 1
  {
    hide Closed, Acyclic;
    var m := s.queue[0].node;
    assert Posted(s.queue)[m] >= 1;
    assert NodeInv(c, s.tree, InFlight(s), s.spawns, m);
  }

  lemma HandledIsOut(s: RState)
    requires s.queue != []
    ensures s.workers + Posted(s.queue[1..]) == InFlight(s) - multiset{s.queue[0].node}
  {
  }

  // --- the three effects of an event ------------------------------------------------------

  lemma CompletedNode(c: Start, t: Tree, flight: multiset<Name>, spawns: multiset<Name>, m: Name, text: string, n: Name)
    requires AllNodes(c, t, flight, spawns) && flight[m] == 1
    ensures m in t && NodeInv(c, t[m := t[m].(state := Completed, result := text)], flight - multiset{m}, spawns, n)
  {
    hide HasFailedDependency;
    assert NodeInv(c, t, flight, spawns, n) && NodeInv(c, t, flight, spawns, m);
    var u := t[m := t[m].(state := Completed, result := text)];
    assert forall d :: Has(t, d, Completed) ==> Has(u, d, Completed);
    assert forall d :: Has(u, d, Failed) <==> Has(t, d, Failed);
    if n in t { SameFailures(t, u, n); }
  }

  lemma RetriedNode(c: Start, t: Tree, flight: multiset<Name>, spawns: multiset<Name>, m: Name, n: Name)
    requires AllNodes(c, t, flight, spawns) && flight[m] == 1
    requires m in t && t[m].retryCount + 1 < t[m].maxRetries
    ensures NodeInv(c, t[m := Retried(t[m])], flight - multiset{m}, spawns, n)
  {
    hide HasFailedDependency;
    assert NodeInv(c, t, flight, spawns, n) && NodeInv(c, t, flight, spawns, m);
    var u := t[m := Retried(t[m])];
    assert forall d :: (Has(u, d, Completed) <==> Has(t, d, Completed)) && (Has(u, d, Failed) <==> Has(t, d, Failed));
    if n in t { SameFailures(t, u, n); }
  }

  /** No node in flight is downstream of an unfinished one. */
  lemma DownstreamNotInFlight(c: Start, t: Tree, flight: multiset<Name>, spawns: multiset<Name>, t1: Tree, m: Name, n: Name)
    requires AllNodes(c, t, flight, spawns) && Has(t, m, Executing)
    requires t1 == t[m := Counted(t[m])] && Downstream(t1, m, n) && n != m
    ensures n in t && flight[n] == 0 && spawns[n] == 0
  {
    var p :| LivePath(t1, m, n, p);
    var k := |p| - 1;
    assert LiveStep(t1, p, k);
    if k > 1 { assert LiveStep(t1, p, k - 1); }
    var d := p[k - 1];
    assert d in t[n].dependsOn && !Has(t, d, Completed);
    assert NodeInv(c, t, flight, spawns, n);
  }

  lemma FailedNode(c: Start, t: Tree, flight: multiset<Name>, spawns: multiset<Name>, m: Name, msg: string, u: Tree, n: Name)
    requires AllNodes(c, t, flight, spawns) && flight[m] == 1 && m in t
    requires !(t[m].retryCount + 1 < t[m].maxRetries)
    requires MarkedFailed(t[m := Counted(t[m])], u, m, msg)
    ensures NodeInv(c, u, flight - multiset{m}, spawns, n)
  {
    hide Downstream, MarkedFailed, Cascades, HasFailedDependency;
    var t1 := t[m := Counted(t[m])];
    assert NodeInv(c, t, flight, spawns, n) && NodeInv(c, t, flight, spawns, m);
    MarkFailedExact(t1, u, m, msg);
    if n == m {
      CompletedStays(t, m, msg, u);
    } else if n in t && Downstream(t1, m, n) {
      StruckNode(c, t, flight, spawns, m, msg, u, n);
    } else if n in t {
      UntouchedNode(c, t, flight, spawns, m, msg, u, n);
    }
  }

  lemma CompletedStays(t: Tree, m: Name, msg: string, u: Tree)
    requires Has(t, m, Executing) && MarkedFailed(t[m := Counted(t[m])], u, m, msg)
    ensures forall d :: Has(t, d, Completed) ==> Has(u, d, Completed)
    ensures forall d :: Has(t, d, Failed) ==> Has(u, d, Failed)
    ensures u.Keys == t.Keys && forall n :: n in t ==> u[n].dependsOn == t[n].dependsOn
  {
    hide Downstream, MarkedFailed, Cascades;
    MarkedFailedFields(t[m := Counted(t[m])], u, m, msg);
  }

  lemma StruckNode(c: Start, t: Tree, flight: multiset<Name>, spawns: multiset<Name>, m: Name, msg: string, u: Tree, n: Name)
    requires AllNodes(c, t, flight, spawns) && Has(t, m, Executing)
    requires MarkedFailed(t[m := Counted(t[m])], u, m, msg)
    requires n != m && Downstream(t[m := Counted(t[m])], m, n)
    ensures NodeInv(c, u, flight - multiset{m}, spawns, n)
  {
    hide Downstream, MarkedFailed, Cascades;
    var t1 := t[m := Counted(t[m])];
    assert NodeInv(c, t, flight, spawns, n);
    DownstreamNotInFlight(c, t, flight, spawns, t1, m, n);
    DownstreamIsLive(t1, m, n);
    MarkFailedExact(t1, u, m, msg);
    var x :| StruckBy(t1, u, m, n, x);
    StruckDependencyFailed(t1, u, m, msg, x);
    assert Has(u, x, Failed);
    assert u[n].state == Failed && HasFailedDependency(u, n);
  }

  lemma StruckDependencyFailed(t: Tree, u: Tree, m: Name, msg: string, x: Name)
    requires m in t && MarkedFailed(t, u, m, msg)
    requires x == m || Downstream(t, m, x)
    ensures Has(u, x, Failed)
  {
    hide Downstream, MarkedFailed, Cascades;
    MarkFailedExact(t, u, m, msg);
    if x != m {
      DownstreamIsLive(t, m, x);
      var y :| StruckBy(t, u, m, x, y);
    }
  }

  /** A dependency of a live node that was not struck did not fail either. */
  lemma NoNewFailure(t: Tree, m: Name, msg: string, u: Tree, n: Name, d: Name)
    requires Has(t, m, Executing) && MarkedFailed(t[m := Counted(t[m])], u, m, msg)
    requires n in t && n != m && !Downstream(t[m := Counted(t[m])], m, n) && Live(t, n)
    requires d in t[n].dependsOn && Has(u, d, Failed)
    ensures Has(t, d, Failed)
  {
    hide MarkedFailed, Cascades, Downstream;
    var t1 := t[m := Counted(t[m])];
    MarkFailedExact(t1, u, m, msg);
    if d == m {
      DirectlyDownstream(t1, m, n);
    } else if Downstream(t1, m, d) {
      ThenDownstream(t1, m, d, n);
    }
  }

  lemma UntouchedNode(c: Start, t: Tree, flight: multiset<Name>, spawns: multiset<Name>, m: Name, msg: string, u: Tree, n: Name)
    requires AllNodes(c, t, flight, spawns) && Has(t, m, Executing)
    requires MarkedFailed(t[m := Counted(t[m])], u, m, msg)
    requires n in t && n != m && !Downstream(t[m := Counted(t[m])], m, n)
    ensures NodeInv(c, u, flight - multiset{m}, spawns, n)
  {
    hide Downstream, MarkedFailed, Cascades;
    var t1 := t[m := Counted(t[m])];
    assert NodeInv(c, t, flight, spawns, n);
    MarkFailedExact(t1, u, m, msg);
    CompletedStays(t, m, msg, u);
    assert u[n] == t[n];
    if Live(t, n) && HasFailedDependency(u, n) {
      var d :| d in u[n].dependsOn && Has(u, d, Failed);
      NoNewFailure(t, m, msg, u, n, d);
    }
    if HasFailedDependency(t, n) {
      var d :| d in t[n].dependsOn && Has(t, d, Failed);
      assert Has(u, d, Failed);
    }
  }

  // --- one handled event --------------------------------------------------------------------

  lemma EffectKeepsDeps(t: Tree, t': Tree, ev: Event)
    requires EventEffect(t, t', ev)
    ensures DepsOf(t') == DepsOf(t)
  {
    hide Downstream, Cascades;
    if ev.node in t && ev.kind != NodeCompleted && !Retries(t, ev) {
      var t1 := t[ev.node := Counted(t[ev.node])];
      MarkedFailedFields(t1, t', ev.node, ev.text);
    }
  }

  lemma MarkedFailedFields(t: Tree, u: Tree, m: Name, msg: string)
    requires m in t && MarkedFailed(t, u, m, msg)
    ensures u.Keys == t.Keys && forall n :: n in t ==> u[n].dependsOn == t[n].dependsOn
    ensures forall n :: n in t ==> u[n] == t[n] || u[n] == t[n].(state := Failed, error := u[n].error)
    ensures forall n :: n in t && n != m && u[n] != t[n] ==> Live(t, n)
    ensures u[m] == t[m].(state := Failed, error := msg)
  {
    hide Downstream, MarkedFailed, Cascades;
    MarkFailedExact(t, u, m, msg);
    forall n | n in t && n != m && Downstream(t, m, n)
      ensures Live(t, n) && u[n] == t[n].(state := Failed, error := u[n].error)
    {
      DownstreamIsLive(t, m, n);
      var x :| StruckBy(t, u, m, n, x);
    }
  }

  lemma EffectNode(c: Start, t: Tree, flight: multiset<Name>, spawns: multiset<Name>, ev: Event, t': Tree, n: Name)
    requires AllNodes(c, t, flight, spawns) && flight[ev.node] == 1 && ev.node in t && EventEffect(t, t', ev)
    ensures NodeInv(c, t', flight - multiset{ev.node}, spawns, n)
  {
    hide AllNodes, NodeInv, MarkedFailed;
    if ev.kind == NodeCompleted {
      CompletedNode(c, t, flight, spawns, ev.node, ev.text, n);
    } else if Retries(t, ev) {
      RetriedNode(c, t, flight, spawns, ev.node, n);
    } else {
      FailedNode(c, t, flight, spawns, ev.node, ev.text, t', n);
    }
  }

  /** Marking a node failed makes nothing runnable. */
  lemma FailureEnablesNothing(t: Tree, t': Tree, ev: Event)
    requires NoneRunnable(t) && EventEffect(t, t', ev)
    requires ev.kind != NodeCompleted && !Retries(t, ev)
    ensures NoneRunnable(t')
  {
    hide Downstream, Cascades;
    if ev.node in t {
      var t1 := t[ev.node := Counted(t[ev.node])];
      MarkedFailedFields(t1, t', ev.node, ev.text);
      forall n ensures !Runnable(t', n) {
        if Runnable(t', n) {
          RunnableBefore(t, t', n);
        }
      }
    }
  }

  lemma RunnableBefore(t: Tree, t': Tree, n: Name)
    requires t'.Keys == t.Keys && Runnable(t', n)
    requires forall k :: k in t && t'[k].state != Failed ==> t'[k] == t[k]
    ensures Runnable(t, n)
  {
    forall d | d in t[n].dependsOn ensures d in t && t[d].state == Completed {
      assert d in t'[n].dependsOn;
    }
  }

  lemma EffectPreInv(c: Start, s: RState, t': Tree)
    requires RunInv(c, s) && s.queue != [] && EventEffect(s.tree, t', s.queue[0])
    ensures PreInv(c, s.(tree := t', active := s.active - 1, queue := s.queue[1..], handled := s.handled + 1))
  {
    hide Closed, Acyclic, NodeInv, NoneRunnable, EventEffect, Posted;
    var ev := s.queue[0];
    var s1 := s.(tree := t', active := s.active - 1, queue := s.queue[1..], handled := s.handled + 1);
    HeadIsExecuting(c, s);
    HandledIsOut(s);
    EffectKeepsDeps(s.tree, t', ev);
    assert InFlight(s1) == InFlight(s) - multiset{ev.node};
    forall n ensures NodeInv(c, t', InFlight(s) - multiset{ev.node}, s.spawns, n) {
      EffectNode(c, s.tree, InFlight(s), s.spawns, ev, t', n);
    }
  }

  lemma HandlePreserves(c: Start, s: RState, t': Tree, s': RState)
    requires RunInv(c, s) && s.queue != [] && HandleTo(s, t', s')
    ensures RunInv(c, s')
  {
    hide PreInv, NoneRunnable, EventEffect, Posted, Runnable, Terminal;
    var ev := s.queue[0];
    EffectPreInv(c, s, t');
    HeadIsExecutingRun(c, s);
    var s1 := s.(tree := t', active := s.active - 1, queue := s.queue[1..], handled := s.handled + 1);
    if ev.kind == NodeCompleted || Retries(s.tree, ev) {
      SpawnRestores(c, s1);
      FinalizeKeeps(c, Spawn(s1));
    } else {
      FailureEnablesNothing(s.tree, t', ev);
      FinalizeKeeps(c, s1);
    }
  }

  lemma HeadIsExecutingRun(c: Start, s: RState)
    requires RunInv(c, s) && s.queue != []
    ensures Has(s.tree, s.queue[0].node, Executing) && s.queue[0].node in s.tree
  {
    HeadIsExecuting(c, s);
  }

  lemma FinalizeKeeps(c: Start, s: RState)
    requires RunInv(c, s)
    ensures RunInv(c, Finalize(s))
  {
    hide NoneRunnable, AllNodes, Posted;
    assert InFlight(Finalize(s)) == InFlight(s);
  }

  lemma StorePidPreserves(c: Start, s: RState, s': RState, n: Name, pid: int)
    requires RunInv(c, s) && StorePid(s, s', n, pid)
    ensures RunInv(c, s')
  {
    hide Closed, Acyclic, NodeInv, Posted;
    assert DepsOf(s'.tree) == DepsOf(s.tree);
    forall k ensures NodeInv(c, s'.tree, InFlight(s'), s'.spawns, k) {
      SamePidNode(c, s.tree, InFlight(s), s.spawns, n, pid, k);
    }
    forall k ensures !Runnable(s'.tree, k) {
      if Runnable(s'.tree, k) { SameRunnable(s.tree, n, pid, k); }
    }
  }

  lemma SameRunnable(t: Tree, n: Name, pid: int, k: Name)
    requires n in t && Runnable(t[n := t[n].(pid := pid)], k)
    ensures Runnable(t, k)
  {
    var u := t[n := t[n].(pid := pid)];
    forall d | d in t[k].dependsOn ensures d in t && t[d].state == Completed {
      assert d in u[k].dependsOn;
    }
  }

  lemma SamePidNode(c: Start, t: Tree, flight: multiset<Name>, spawns: multiset<Name>, n: Name, pid: int, k: Name)
    requires AllNodes(c, t, flight, spawns) && n in t
    ensures NodeInv(c, t[n := t[n].(pid := pid)], flight, spawns, k)
  {
    hide HasFailedDependency;
    var u := t[n := t[n].(pid := pid)];
    assert NodeInv(c, t, flight, spawns, k);
    assert forall d :: (Has(u, d, Completed) <==> Has(t, d, Completed)) && (Has(u, d, Failed) <==> Has(t, d, Failed));
    if k in t { SameFailures(t, u, k); }
  }

  /** Every step of a run keeps the invariant. */
  lemma StepPreserves(c: Start, s: RState, s': RState, capacity: nat)
    requires RunInv(c, s) && Step(s, s', capacity)
    ensures RunInv(c, s')
  {
    hide RunInv, EventEffect, Terminal, Posted;
    if ev :| Post(s, s', capacity, ev) {
      PostKeepsInFlight(s, s', capacity, ev);
      SameFlight(c, s, s');
    } else if n, pid :| StorePid(s, s', n, pid) {
      StorePidPreserves(c, s, s', n, pid);
    } else if Handle(s, s') {
      var t' :| HandleTo(s, t', s');
      HandlePreserves(c, s, t', s');
    } else {
      assert InFlight(s') == InFlight(s);
      SameFlight(c, s, s');
    }
  }

  lemma SameFlight(c: Start, s: RState, s': RState)
    requires RunInv(c, s)
    requires s'.tree == s.tree && s'.active == s.active && s'.spawns == s.spawns && InFlight(s') == InFlight(s)
    ensures RunInv(c, s')
  {
  }

  // --- the measure ------------------------------------------------------------------------

  function Worths(t: Tree): map<Name, int> {
    map n | n in t :: Worth(t[n])
  }

  ghost function Measure(t: Tree): int {
    Sum(Worths(t))
  }

  lemma EffectWorth(t: Tree, ev: Event, t': Tree, n: Name)
    requires Has(t, ev.node, Executing) && EventEffect(t, t', ev) && n in t
    ensures n in t' && Worth(t'[n]) <= Worth(t[n]) - if n == ev.node then 1 else 0
  {
    hide MarkedFailed;
    var m := ev.node;
    if ev.kind != NodeCompleted && !Retries(t, ev) {
      MarkedFailedFields(t[m := Counted(t[m])], t', m, ev.text);
    }
  }

  lemma EffectDrops(c: Start, s: RState, t': Tree)
    requires RunInv(c, s) && s.queue != [] && EventEffect(s.tree, t', s.queue[0])
    ensures Measure(t') <= Measure(s.tree) - 1
  {
    hide Closed, Acyclic, NoneRunnable, Posted, EventEffect, AllNodes, Sum, Worth;
    var t, ev := s.tree, s.queue[0];
    HeadIsExecuting(c, s);
    EffectKeepsDeps(t, t', ev);
    assert t'.Keys == DepsOf(t').Keys && t.Keys == DepsOf(t).Keys;
    forall n | n in t ensures Worth(t'[n]) <= Worth(t[n]) - if n == ev.node then 1 else 0 {
      EffectWorth(t, ev, t', n);
    }
    SumStrict(Worths(t'), Worths(t), ev.node);
  }

  lemma SpawnKeepsMeasure(t: Tree)
    ensures Measure(SpawnAll(t)) == Measure(t)
  {
    assert Worths(SpawnAll(t)) == Worths(t);
  }

  lemma HandleShape(s: RState, t': Tree, s': RState)
    requires s.queue != [] && HandleTo(s, t', s')
    ensures EventEffect(s.tree, t', s.queue[0]) && s'.handled == s.handled + 1
    ensures s'.tree == t' || s'.tree == SpawnAll(t')
  {
    hide EventEffect, Terminal, Runnable;
  }

  lemma {:induction false} WorthsNonNegative(m: map<Name, int>)
    requires forall n :: n in m ==> m[n] >= 0
    ensures Sum(m) >= 0
    decreases |m|
  {
    if m != map[] {
      var n :| n in m;
      SumPick(m, n);
      WorthsNonNegative(m - {n});
    }
  }

  lemma MeasureNonNegative(t: Tree)
    ensures Measure(t) >= 0
  {
    WorthsNonNegative(Worths(t));
  }

  /** Each handled event uses up at least one launch; no other step uses any. */
  lemma StepMeasure(c: Start, s: RState, s': RState, capacity: nat)
    requires RunInv(c, s) && Step(s, s', capacity)
    ensures Measure(s'.tree) + s'.handled <= Measure(s.tree) + s.handled
    ensures s'.handled > s.handled ==> Measure(s'.tree) < Measure(s.tree)
  {
    hide RunInv, EventEffect, Terminal, Posted, HandleTo, SpawnAll, Sum;
    if ev :| Post(s, s', capacity, ev) {
    } else if n, pid :| StorePid(s, s', n, pid) {
      assert Worths(s'.tree) == Worths(s.tree);
    } else if Handle(s, s') {
      var t' :| HandleTo(s, t', s');
      HandleShape(s, t', s');
      EffectDrops(c, s, t');
      SpawnKeepsMeasure(t');
    }
  }

  // --- whole runs ----------------------------------------------------------------------------

  /** A DAG of known nodes in which nobody has left a node executing or undecided,
      and nothing unfinished depends on a failed node. */
  ghost predicate Startable(t: Tree) {
    && Closed(DepsOf(t)) && Acyclic(DepsOf(t))
    && forall n :: n in t ==> !Abandoned(t, n)
  }

  /** A node that no run will ever finish by itself. */
  ghost predicate Abandoned(t: Tree, n: Name)
    requires n in t
  {
    || t[n].state == Executing || t[n].state == Decomposing || t[n].state == AwaitConfirm
    || (Live(t, n) && HasFailedDependency(t, n))
  }

  /** How many failures end a node, given the retry limit of the tree it is in: the
      default one if it has none, but at least one. */
  function Cap(v: NodeView, default: int): int {
    var limit := if v.maxRetries == 0 then default else v.maxRetries;
    if limit < 1 then 1 else limit
  }

  /** A node that has not failed, has attempts left, and is not at odds with its
      dependencies: if completed they are, and if unfinished none has failed. */
  ghost predicate Untroubled(t: Tree, default: int, n: Name) {
    && n in t && t[n].state != Failed && 0 <= t[n].retryCount < Cap(t[n], default)
    && (t[n].state == Completed ==> DepsCompleted(t, n))
    && (Live(t, n) ==> !HasFailedDependency(t, n))
  }

  ghost predicate Starts(c: Start, t: Tree, default: int) {
    && c.tree == Defaulted(t, default)
    && (c.sound ==> Startable(t)) && forall n :: n in c.rested ==> Untroubled(t, default, n)
  }

  lemma StartNode(c: Start, t: Tree, default: int, n: Name)
    requires Starts(c, t, default)
    ensures NodeInv(c, c.tree, multiset{}, multiset{}, n)
  {
    hide Closed, Acyclic, HasFailedDependency;
    assert forall d, st :: Has(c.tree, d, st) <==> Has(t, d, st);
    if n in t { SameFailures(t, c.tree, n); }
  }

  lemma PreparedInv(c: Start, t: Tree, default: int)
    requires Starts(c, t, default)
    ensures PreInv(c, Prepared(t, default))
  {
    hide Closed, Acyclic, NodeInv;
    var s := Prepared(t, default);
    assert DepsOf(s.tree) == DepsOf(t);
    assert InFlight(s) == multiset{};
    forall n ensures NodeInv(c, s.tree, multiset{}, multiset{}, n) {
      StartNode(c, t, default, n);
    }
  }

  lemma BeginInv(c: Start, t: Tree, default: int)
    requires Starts(c, t, default)
    ensures RunInv(c, Begin(t, default))
  {
    hide Starts, PreInv, RunInv, Spawn, Posted;
    PreparedInv(c, t, default);
    SpawnRestores(c, Prepared(t, default));
    SameFlight(c, Spawn(Prepared(t, default)), Begin(t, default));
  }

  ghost predicate RunStep(run: seq<RState>, capacity: nat, i: nat)
    requires i + 1 < |run|
  {
    Step(run[i], run[i + 1], capacity)
  }

  /** A run on the tree `t`: it begins as execution does, and every two
      neighbours are a step apart. */
  ghost predicate IsRun(run: seq<RState>, t: Tree, default: int, capacity: nat) {
    && run != [] && run[0] == Begin(t, default)
    && forall i {:trigger RunStep(run, capacity, i)} :: 0 <= i < |run| - 1 ==> RunStep(run, capacity, i)
  }

  lemma {:induction false} RunKeepsInv(c: Start, run: seq<RState>, t: Tree, default: int, capacity: nat, i: nat)
    requires Starts(c, t, default) && IsRun(run, t, default, capacity) && i < |run|
    ensures RunInv(c, run[i])
    ensures Measure(run[i].tree) + run[i].handled <= Measure(Defaulted(t, default))
  {
    hide RunInv, Starts, Step;
    if i == 0 {
      BeginInv(c, t, default);
      SpawnKeepsMeasure(Defaulted(t, default));
    } else {
      RunKeepsInv(c, run, t, default, capacity, i - 1);
      assert RunStep(run, capacity, i - 1);
      StepPreserves(c, run[i - 1], run[i], capacity);
      StepMeasure(c, run[i - 1], run[i], capacity);
    }
  }

  /** Whatever may be said of the tree a run starts from. */
  ghost function Any(t: Tree, default: int): Start {
    Start(Defaulted(t, default), false, {})
  }

  ghost function SoundStart(t: Tree, default: int): Start {
    Start(Defaulted(t, default), true, {})
  }

  /** From a startable tree: whenever nothing is in flight, every node is completed
      or failed. */
  lemma NoStuckRun(run: seq<RState>, t: Tree, default: int, capacity: nat, i: nat)
    requires Startable(t) && IsRun(run, t, default, capacity) && i < |run|
    requires run[i].active == 0
    ensures Terminal(run[i].tree)
  {
    hide Startable, IsRun, Step;
    var c := SoundStart(t, default);
    RunKeepsInv(c, run, t, default, capacity, i);
    IdleIsTerminal(c, run[i]);
  }

  lemma IdleIsTerminal(c: Start, s: RState)
    requires RunInv(c, s) && c.sound && s.active == 0
    ensures Terminal(s.tree)
  {
    hide Closed, Acyclic, Terminal, Runnable, HasFailedDependency;
    var t := s.tree;
    assert InFlight(s) == multiset{};
    forall n | n in t
      ensures t[n].state != Executing && t[n].state != Decomposing && t[n].state != AwaitConfirm
      ensures Live(t, n) ==> !HasFailedDependency(t, n)
    {
      assert NodeInv(c, t, InFlight(s), s.spawns, n);
    }
    forall n, d | Live(t, n) && d in t[n].dependsOn && d in t ensures t[d].state != Failed {
      if t[d].state == Failed {
        assert Has(t, d, Failed);
        FailedDependency(t, n, d);
      }
    }
    NothingRunsMeansTerminal(t);
  }

  lemma FailedDependency(t: Tree, n: Name, d: Name)
    requires n in t && d in t[n].dependsOn && Has(t, d, Failed)
    ensures HasFailedDependency(t, n)
  {
  }

  lemma IdleIsEmpty(c: Start, s: RState)
    requires RunInv(c, s) && s.active == 0
    ensures s.workers == multiset{} && s.queue == []
  {
    hide AllNodes, NoneRunnable, Closed, Acyclic;
    assert InFlight(s) == multiset{};
    PostedSize(s.queue);
  }

  /** The nodes in flight are executing, one worker each, and `active` counts them;
      from a startable tree no other node is executing. */
  lemma ExecutingIsInFlight(run: seq<RState>, t: Tree, default: int, capacity: nat, i: nat)
    requires IsRun(run, t, default, capacity) && i < |run|
    ensures var s := run[i];
            && s.active == |InFlight(s)|
            && (forall n :: InFlight(s)[n] <= 1 && (InFlight(s)[n] == 1 ==> Has(s.tree, n, Executing)))
            && (Startable(t) ==> InFlight(s) == multiset(set n | n in s.tree && s.tree[n].state == Executing))
  {
    hide Startable, IsRun, NoneRunnable, Posted, Closed, Acyclic;
    var s := run[i];
    var c := Any(t, default);
    RunKeepsInv(c, run, t, default, capacity, i);
    forall n ensures InFlight(s)[n] <= 1 && (InFlight(s)[n] == 1 ==> Has(s.tree, n, Executing)) {
      assert NodeInv(c, s.tree, InFlight(s), s.spawns, n);
    }
    if Startable(t) {
      RunKeepsInv(SoundStart(t, default), run, t, default, capacity, i);
      FlightIsExecuting(SoundStart(t, default), s);
    }
  }

  /** Whatever the tree: a node launched in the run has all its dependencies
      completed, then and ever after; and a node that is executing or completed, but
      was not when the run began, was launched. */
  lemma LaunchedAfterDependencies(run: seq<RState>, t: Tree, default: int, capacity: nat, i: nat, n: Name)
    requires IsRun(run, t, default, capacity) && i < |run| && n in run[i].tree
    ensures n in t
    ensures run[i].spawns[n] > 0 ==>
              forall d :: d in run[i].tree[n].dependsOn ==> d in run[i].tree && run[i].tree[d].state == Completed
    ensures run[i].tree[n].state == Executing || run[i].tree[n].state == Completed ==>
              run[i].tree[n].state == t[n].state || run[i].spawns[n] > 0
  {
    hide IsRun, Step, NoneRunnable, Posted;
    var c := Any(t, default);
    RunKeepsInv(c, run, t, default, capacity, i);
    var s := run[i];
    assert NodeInv(c, s.tree, InFlight(s), s.spawns, n);
    assert forall d :: Has(s.tree, d, Completed) ==> d in s.tree && s.tree[d].state == Completed;
  }

  /** How often a node may still be tried: not at all once finished, else as often as
      its retry limit, or the default one, exceeds the failures counted, but at least
      once. */
  function TriesLeft(v: NodeView, default: int): int {
    var limit := if v.maxRetries == 0 then default else v.maxRetries;
    if v.state == Completed || v.state == Failed then 0
    else if limit - v.retryCount < 1 then 1 else limit - v.retryCount
  }

  lemma TriesLeftIsWorth(v: NodeView, default: int)
    ensures Worth(WithDefault(v, default)) == TriesLeft(v, default)
  {
  }

  /** Whatever the tree: no node is launched more often than it has tries left when
      the run begins, and the loop handles no more events than those add up to. */
  lemma LaunchesAreBounded(run: seq<RState>, t: Tree, default: int, capacity: nat, i: nat)
    requires IsRun(run, t, default, capacity) && i < |run|
    ensures forall n :: n in t ==> run[i].spawns[n] <= TriesLeft(t[n], default)
    ensures run[i].handled <= Sum(map n | n in t :: TriesLeft(t[n], default))
  {
    hide IsRun, Step, NoneRunnable, Posted, Closed, Acyclic, Sum, WithDefault, Worth, TriesLeft;
    var c := Any(t, default);
    RunKeepsInv(c, run, t, default, capacity, i);
    MeasureNonNegative(run[i].tree);
    var s := run[i];
    TreeKeys(run, t, default, capacity, i);
    forall n | n in t ensures s.spawns[n] <= TriesLeft(t[n], default) && Worth(c.tree[n]) == TriesLeft(t[n], default) {
      assert NodeInv(c, s.tree, InFlight(s), s.spawns, n);
      TriesLeftIsWorth(t[n], default);
      WorthNonNegative(s.tree[n]);
    }
    assert Worths(c.tree) == map n | n in t :: TriesLeft(t[n], default);
  }

  lemma WorthNonNegative(v: NodeView)
    ensures Worth(v) >= 0 && (Worth(v) == 0 ==> v.state == Failed || v.state == Completed)
  {
  }

  // --- one event, node by node ---------------------------------------------------------------

  /** What handling an event does to each node: the node it is about completes with its
      result, or is retried with one more failure counted and nothing left of the last
      attempt, or fails; any other is left alone, launched once all it depends on has
      completed, or failed with a dependency that has. */
  ghost predicate HandledNode(t: Tree, u: Tree, ev: Event, n: Name)
    requires n in t && n in u
  {
    var v := t[n];
    if n == ev.node && ev.kind == NodeCompleted then u[n] == v.(state := Completed, result := ev.text)
    else if n == ev.node && v.retryCount + 1 < v.maxRetries then
      u[n] == v.(retryCount := v.retryCount + 1, error := "", pid := 0, result := "",
                 state := if forall d :: d in v.dependsOn ==> Has(u, d, Completed) then Executing else Retrying)
    else if n == ev.node then
      u[n] == v.(retryCount := v.retryCount + 1, state := Failed, error := ev.text)
    else
      || u[n] == v
      || (u[n] == v.(state := Executing) && (v.state == Pending || v.state == Retrying)
          && forall d :: d in v.dependsOn ==> Has(u, d, Completed))
      || (Live(t, n) && exists x :: FailedWith(u, v, n, x))
  }

  ghost predicate FailedWith(u: Tree, v: NodeView, n: Name, x: Name)
    requires n in u
  {
    x in v.dependsOn && Has(u, x, Failed) && u[n] == v.(state := Failed, error := "upstream dependency failed: " + x.text)
  }

  /** The same before anything is launched. */
  ghost predicate EffectOnNode(t: Tree, u: Tree, ev: Event, n: Name)
    requires n in t && n in u
  {
    var v := t[n];
    if n == ev.node && ev.kind == NodeCompleted then u[n] == v.(state := Completed, result := ev.text)
    else if n == ev.node && v.retryCount + 1 < v.maxRetries then
      u[n] == v.(retryCount := v.retryCount + 1, error := "", pid := 0, result := "", state := Retrying)
    else if n == ev.node then
      u[n] == v.(retryCount := v.retryCount + 1, state := Failed, error := ev.text)
    else u[n] == v || (Live(t, n) && exists x :: FailedWith(u, v, n, x))
  }

  lemma EffectOn(t: Tree, u: Tree, ev: Event, n: Name)
    requires EventEffect(t, u, ev) && n in t
    ensures n in u && EffectOnNode(t, u, ev, n)
  {
    hide MarkedFailed, Downstream, Live;
    if ev.node in t && ev.kind != NodeCompleted && !Retries(t, ev) {
      var t1 := t[ev.node := Counted(t[ev.node])];
      MarkedFailedFields(t1, u, ev.node, ev.text);
      if n != ev.node && u[n] != t[n] { StruckOn(t, u, ev, n); }
    }
  }

  lemma StruckOn(t: Tree, u: Tree, ev: Event, n: Name)
    requires ev.node in t && n in t && n != ev.node && n in u && u[n] != t[n]
    requires MarkedFailed(t[ev.node := Counted(t[ev.node])], u, ev.node, ev.text)
    ensures Live(t, n) && exists x :: FailedWith(u, t[n], n, x)
  {
    hide MarkedFailed, Downstream;
    var t1 := t[ev.node := Counted(t[ev.node])];
    MarkFailedExact(t1, u, ev.node, ev.text);
    assert Downstream(t1, ev.node, n);
    DownstreamIsLive(t1, ev.node, n);
    var x :| StruckBy(t1, u, ev.node, n, x);
    StruckDependencyFailed(t1, u, ev.node, ev.text, x);
    assert FailedWith(u, t[n], n, x);
  }

  lemma LaunchedOn(t: Tree, u: Tree, ev: Event, n: Name)
    requires n in t && n in u && EffectOnNode(t, u, ev, n)
    requires ev.kind == NodeCompleted || Retries(t, ev)
    ensures n in SpawnAll(u) && HandledNode(t, SpawnAll(u), ev, n)
  {
    hide Live;
    assert forall d, st :: st != Executing && Has(SpawnAll(u), d, st) ==> Has(u, d, st);
    assert forall d :: Has(u, d, Completed) ==> Has(SpawnAll(u), d, Completed);
    assert forall d :: Has(u, d, Failed) ==> Has(SpawnAll(u), d, Failed);
    if n != ev.node && u[n] != t[n] {
      var x :| FailedWith(u, t[n], n, x);
      assert FailedWith(SpawnAll(u), t[n], n, x);
    }
  }

  lemma HandledTree(s: RState, s': RState, n: Name)
    requires Handle(s, s') && n in s.tree
    ensures n in s'.tree && HandledNode(s.tree, s'.tree, s.queue[0], n)
  {
    hide EventEffect, Terminal, Runnable, Posted, HandledNode, EffectOnNode;
    var t' :| HandleTo(s, t', s');
    var ev := s.queue[0];
    EffectOn(s.tree, t', ev, n);
    if ev.kind == NodeCompleted || Retries(s.tree, ev) {
      LaunchedOn(s.tree, t', ev, n);
    } else {
      NotLaunched(s.tree, t', ev, n);
    }
  }

  lemma NotLaunched(t: Tree, u: Tree, ev: Event, n: Name)
    requires n in t && n in u && EffectOnNode(t, u, ev, n)
    requires ev.kind != NodeCompleted && !Retries(t, ev)
    ensures HandledNode(t, u, ev, n)
  {
    hide Live;
  }

  // --- what a run makes of a node ---------------------------------------------------------------

  /** The step after point `j` handles a failure or a timeout of the node. */
  ghost predicate FailsAt(run: seq<RState>, j: nat, n: Name)
    requires j + 1 < |run|
  {
    && run[j + 1].handled > run[j].handled
    && run[j].queue != [] && run[j].queue[0].node == n && run[j].queue[0].kind != NodeCompleted
  }

  /** The failures of the node handled up to point `i`. */
  ghost function FailuresOf(run: seq<RState>, i: nat, n: Name): set<nat>
    requires i < |run|
  {
    set j: nat | j < i && FailsAt(run, j, n)
  }

  lemma FailuresNext(run: seq<RState>, i: nat, n: Name)
    requires i + 1 < |run|
    ensures |FailuresOf(run, i + 1, n)| == |FailuresOf(run, i, n)| + if FailsAt(run, i, n) then 1 else 0
  {
    hide FailsAt;
    if FailsAt(run, i, n) {
      assert FailuresOf(run, i + 1, n) == FailuresOf(run, i, n) + {i};
    } else {
      assert FailuresOf(run, i + 1, n) == FailuresOf(run, i, n);
    }
  }

  /** How a node is configured: all but its state, its result and error, its process,
      and its failures. */
  ghost predicate SameNode(v: NodeView, u: NodeView) {
    && u.intent == v.intent && u.agent == v.agent && u.model == v.model && u.provider == v.provider
    && u.dependsOn == v.dependsOn && u.maxRetries == v.maxRetries && u.timeout == v.timeout
  }

  lemma StepOnNode(s: RState, s': RState, capacity: nat, n: Name)
    requires Step(s, s', capacity) && n in s.tree
    ensures n in s'.tree && SameNode(s.tree[n], s'.tree[n])
    ensures s'.tree[n].retryCount == s.tree[n].retryCount +
              if s'.handled > s.handled && s.queue != [] && s.queue[0].node == n && s.queue[0].kind != NodeCompleted then 1 else 0
  {
    hide EventEffect, Posted, Terminal, HandleTo, Live;
    if ev :| Post(s, s', capacity, ev) {
    } else if m, pid :| StorePid(s, s', m, pid) {
    } else if Handle(s, s') {
      HandledTree(s, s', n);
      var t' :| HandleTo(s, t', s');
      HandleShape(s, t', s');
    }
  }

  /** Whatever the tree: along the run a node keeps its description, its dependencies
      and its configuration, has its own retry limit or else the default one, and has
      counted exactly the failures of it that were handled. */
  lemma {:induction false} FailuresAreCounted(run: seq<RState>, t: Tree, default: int, capacity: nat, i: nat, n: Name)
    requires IsRun(run, t, default, capacity) && i < |run| && n in t
    ensures n in run[i].tree && var u := run[i].tree[n];
            && u.retryCount == t[n].retryCount + |FailuresOf(run, i, n)|
            && SameNode(t[n].(maxRetries := if t[n].maxRetries == 0 then default else t[n].maxRetries), u)
    decreases i
  {
    hide Step, Begin, FailuresOf;
    if i == 0 {
      assert FailuresOf(run, 0, n) == {} by { NoFailuresYet(run, n); }
      BeginNode(t, default, n);
    } else {
      FailuresAreCounted(run, t, default, capacity, i - 1, n);
      assert RunStep(run, capacity, i - 1);
      StepOnNode(run[i - 1], run[i], capacity, n);
      FailuresNext(run, i - 1, n);
    }
  }

  lemma NoFailuresYet(run: seq<RState>, n: Name)
    requires run != []
    ensures FailuresOf(run, 0, n) == {}
  {
  }

  lemma BeginNode(t: Tree, default: int, n: Name)
    requires n in t
    ensures n in Begin(t, default).tree && var u := Begin(t, default).tree[n];
            && u.retryCount == t[n].retryCount
            && SameNode(t[n].(maxRetries := if t[n].maxRetries == 0 then default else t[n].maxRetries), u)
  {
    hide Runnable;
  }

  /** Whatever the tree, at every point of a run: a node that was not failed, had
      attempts left and was not at odds with its dependencies is failed exactly if the
      failures counted before and in the run are as many as its retry limit allows, or
      a dependency of it has failed. */
  lemma FailedMeansExhausted(run: seq<RState>, t: Tree, default: int, capacity: nat, i: nat, n: Name)
    requires IsRun(run, t, default, capacity) && i < |run| && Untroubled(t, default, n)
    ensures n in run[i].tree
    ensures run[i].tree[n].state == Failed <==>
              || t[n].retryCount + |FailuresOf(run, i, n)| == Cap(t[n], default)
              || exists d :: d in t[n].dependsOn && Has(run[i].tree, d, Failed)
  {
    hide Untroubled, IsRun, Step, NoneRunnable, Posted, FailuresOf;
    var c := Start(Defaulted(t, default), false, {n});
    assert Starts(c, t, default);
    RunKeepsInv(c, run, t, default, capacity, i);
    KnownFromStart(t, default, n);
    FailuresAreCounted(run, t, default, capacity, i, n);
    var s := run[i];
    assert NodeInv(c, s.tree, InFlight(s), s.spawns, n);
    assert HasFailedDependency(s.tree, n) <==> exists d :: d in s.tree[n].dependsOn && Has(s.tree, d, Failed);
  }

  lemma KnownFromStart(t: Tree, default: int, n: Name)
    requires Untroubled(t, default, n)
    ensures n in t
  {
  }

  /** A node without a retry limit that nobody has tried, in any tree: as long as no
      dependency of it has failed, it is failed exactly if as many of its attempts have
      failed in the run as the default limit says, but at least one. */
  lemma DefaultLimit(run: seq<RState>, t: Tree, default: int, capacity: nat, i: nat, n: Name)
    requires IsRun(run, t, default, capacity) && i < |run| && n in t
    requires t[n].state == Pending && t[n].retryCount == 0 && t[n].maxRetries == 0
    requires forall d :: d in t[n].dependsOn ==> !Has(t, d, Failed) && !Has(run[i].tree, d, Failed)
    ensures n in run[i].tree
    ensures run[i].tree[n].state == Failed <==> |FailuresOf(run, i, n)| == if default < 1 then 1 else default
  {
    hide IsRun, Step, FailuresOf;
    assert Untroubled(t, default, n);
    FailedMeansExhausted(run, t, default, capacity, i, n);
  }

  lemma StepKeepsCompleted(c: Start, s: RState, s': RState, capacity: nat, n: Name)
    requires RunInv(c, s) && Step(s, s', capacity) && Has(s.tree, n, Completed)
    ensures Has(s'.tree, n, Completed)
  {
    hide RunInv, EventEffect, Posted, Terminal, HandleTo;
    if ev :| Post(s, s', capacity, ev) {
    } else if m, pid :| StorePid(s, s', m, pid) {
    } else if Handle(s, s') {
      var t' :| HandleTo(s, t', s');
      HandleShape(s, t', s');
      EffectKeepsCompleted(c, s, t', n);
    }
  }

  lemma EffectKeepsCompleted(c: Start, s: RState, t': Tree, n: Name)
    requires RunInv(c, s) && s.queue != [] && EventEffect(s.tree, t', s.queue[0]) && Has(s.tree, n, Completed)
    ensures Has(t', n, Completed)
  {
    hide NoneRunnable, Closed, Acyclic, MarkedFailed, Posted;
    var ev := s.queue[0];
    HeadIsExecuting(c, s);
    if ev.kind != NodeCompleted && !Retries(s.tree, ev) {
      MarkedFailedFields(s.tree[ev.node := Counted(s.tree[ev.node])], t', ev.node, ev.text);
    }
  }

  /** Once completed, a node stays completed, at every later point of the run. */
  lemma {:induction false} CompletedIsForever(run: seq<RState>, t: Tree, default: int, capacity: nat, i: nat, j: nat, n: Name)
    requires IsRun(run, t, default, capacity) && i <= j < |run| && Has(run[i].tree, n, Completed)
    ensures Has(run[j].tree, n, Completed)
    decreases j
  {
    hide RunInv, Begin, Step;
    if i < j {
      CompletedIsForever(run, t, default, capacity, i, j - 1, n);
      RunKeepsInv(Any(t, default), run, t, default, capacity, j - 1);
      assert RunStep(run, capacity, j - 1);
      StepKeepsCompleted(Any(t, default), run[j - 1], run[j], capacity, n);
    }
  }

  /** A run's loop ends, uncancelled, with the tree reported failed exactly if some
      node is; from a startable tree it ends only with every node terminal and no
      worker in flight, and reports completed exactly when every node completed. */
  lemma NormalEnd(c: Start, s: RState, s': RState)
    requires RunInv(c, s) && Handle(s, s') && !s'.running
    ensures s'.treeState == if exists n :: n in s'.tree && s'.tree[n].state == Failed then Failed else Completed
    ensures s'.active == 0 || Terminal(s'.tree)
    ensures s'.active == 0 ==> s'.workers == multiset{} && s'.queue == []
    ensures c.sound ==>
              && Terminal(s'.tree) && s'.active == 0
              && (s'.treeState == Completed <==> forall n :: n in s'.tree ==> s'.tree[n].state == Completed)
  {
    hide RunInv, EventEffect, Posted, Terminal;
    var t' :| HandleTo(s, t', s');
    HandlePreserves(c, s, t', s');
    HeadIsExecutingRun(c, s);
    if s'.active == 0 { IdleIsEmpty(c, s'); }
    if c.sound {
      if s'.active == 0 {
        IdleIsTerminal(c, s');
      } else {
        TerminalIsIdle(c, s');
      }
      FinalReport(s'.tree);
    }
  }

  /** A loop that goes on after an event still waits for a worker. */
  lemma LoopGoesOn(c: Start, s: RState, s': RState)
    requires RunInv(c, s) && Handle(s, s') && s'.running
    ensures s'.active != 0
  {
    hide EventEffect, Terminal, Posted, NoneRunnable, Closed, Acyclic;
    HeadIsExecuting(c, s);
  }

  lemma FinalReport(t: Tree)
    requires Terminal(t)
    ensures (exists n :: n in t && t[n].state == Failed) <==> !(forall n :: n in t ==> t[n].state == Completed)
  {
    forall n | n in t ensures t[n].state == Completed || t[n].state == Failed {
      assert !Live(t, n);
    }
  }

  lemma TerminalIsIdle(c: Start, s: RState)
    requires RunInv(c, s) && Terminal(s.tree)
    ensures s.active == 0 && s.workers == multiset{} && s.queue == []
  {
    hide Closed, Acyclic, NoneRunnable;
    forall n ensures InFlight(s)[n] == 0 {
      assert NodeInv(c, s.tree, InFlight(s), s.spawns, n);
      assert n in s.tree ==> !Live(s.tree, n);
    }
    assert InFlight(s) == multiset{};
    PostedSize(s.queue);
  }

  lemma FlightIsExecuting(c: Start, s: RState)
    requires RunInv(c, s) && c.sound
    ensures InFlight(s) == multiset(set n | n in s.tree && s.tree[n].state == Executing)
  {
    hide Closed, Acyclic, NoneRunnable, Posted;
    var ex := multiset(set n | n in s.tree && s.tree[n].state == Executing);
    forall n ensures InFlight(s)[n] == ex[n] {
      assert NodeInv(c, s.tree, InFlight(s), s.spawns, n);
    }
  }

  /** While a worker has yet to post, the channel holds fewer events than there
      are nodes. */
  lemma RoomToSend(c: Start, s: RState)
    requires RunInv(c, s) && s.workers != multiset{}
    ensures |s.queue| < |s.tree.Keys|
  {
    hide Posted, NoneRunnable, Closed, Acyclic;
    var ex := set n | n in s.tree && InFlight(s)[n] == 1;
    forall n ensures InFlight(s)[n] == multiset(ex)[n] {
      assert NodeInv(c, s.tree, InFlight(s), s.spawns, n);
    }
    assert InFlight(s) == multiset(ex);
    SubsetSize(ex, s.tree.Keys);
    PostedSize(s.queue);
    assert |InFlight(s)| == |s.workers| + |s.queue|;
  }

  /** Sends never block, whatever the tree: the channel holds three events per node,
      and no more events than nodes are ever pending. */
  lemma SendNeverBlocks(run: seq<RState>, t: Tree, default: int, i: nat)
    requires IsRun(run, t, default, |t| * 3) && i < |run|
    requires run[i].workers != multiset{}
    ensures |run[i].queue| < |t| * 3
  {
    hide IsRun, RunInv;
    RunKeepsInv(Any(t, default), run, t, default, |t| * 3, i);
    TreeKeys(run, t, default, |t| * 3, i);
    assert |t| == |t.Keys|;
    RoomToSend(Any(t, default), run[i]);
  }

  lemma {:induction false} TreeKeys(run: seq<RState>, t: Tree, default: int, capacity: nat, i: nat)
    requires IsRun(run, t, default, capacity) && i < |run|
    ensures run[i].tree.Keys == t.Keys
  {
    hide RunInv, Begin, Step;
    if i == 0 {
      BeginKeys(t, default);
    } else {
      TreeKeys(run, t, default, capacity, i - 1);
      assert RunStep(run, capacity, i - 1);
      StepKeepsKeys(run[i - 1], run[i], capacity);
    }
  }

  lemma BeginKeys(t: Tree, default: int)
    ensures Begin(t, default).tree.Keys == t.Keys
  {
    hide Runnable;
  }

  lemma StepKeepsKeys(s: RState, s': RState, capacity: nat)
    requires Step(s, s', capacity)
    ensures s'.tree.Keys == s.tree.Keys
  {
    hide EventEffect, Posted, Terminal, HandleTo;
    if ev :| Post(s, s', capacity, ev) {
    } else if m, pid :| StorePid(s, s', m, pid) {
    } else if Handle(s, s') {
      var t' :| HandleTo(s, t', s');
      HandleShape(s, t', s');
      EffectKeepsDeps(s.tree, t', s.queue[0]);
      assert DepsOf(t').Keys == t'.Keys && DepsOf(s.tree).Keys == s.tree.Keys;
    }
  }

  /** While the loop runs with a worker in flight, some step other than cancellation
      can be taken. */
  lemma RunningCanMove(c: Start, s: RState, capacity: nat)
    requires RunInv(c, s) && s.running && s.active != 0 && capacity > 0
    ensures s.queue != [] || exists n, s' :: Post(s, s', capacity, Event(n, NodeFailed, ""))
  {
    hide Acyclic, Closed;
    if s.queue == [] {
      assert InFlight(s) == s.workers;
      var n :| n in s.workers;
      var ev := Event(n, NodeFailed, "");
      assert Post(s, s.(workers := s.workers - multiset{n}, queue := s.queue + [ev]), capacity, ev);
    }
  }

  // --- runs that end before their loop ----------------------------------------------------

  lemma SpawnCounts(t: Tree, default: int)
    ensures Begin(t, default).running <==> RunnableSet(Defaulted(t, default)) != {}
  {
  }

  /** A run on a startable tree ends before its loop exactly if the tree is
      terminal already. */
  lemma ImmediateEndIsTerminal(t: Tree, default: int)
    requires Startable(t)
    ensures !Begin(t, default).running <==> Terminal(t)
  {
    hide Runnable, Startable, Spawn, RunInv, IsRun;
    SpawnCounts(t, default);
    var u := Defaulted(t, default);
    assert forall n :: Live(u, n) <==> Live(t, n);
    if Terminal(t) {
      assert forall n :: Runnable(u, n) ==> Live(u, n) by { RunnableIsLive(u); }
      assert RunnableSet(u) == {};
    } else if RunnableSet(u) == {} {
      NothingToSpawn(t, default);
      BeginInv(SoundStart(t, default), t, default);
      assert Begin(t, default).active == 0 by { NothingActive(t, default); }
      IdleIsTerminal(SoundStart(t, default), Begin(t, default));
    }
  }

  lemma RunnableIsLive(t: Tree)
    ensures forall n :: Runnable(t, n) ==> Live(t, n)
  {
  }

  lemma NothingActive(t: Tree, default: int)
    requires RunnableSet(Defaulted(t, default)) == {}
    ensures Begin(t, default).active == 0
  {
  }

  /** Nothing failed, executing or undecided. */
  ghost predicate Undisturbed(t: Tree) {
    forall n :: n in t ==> t[n].state == Pending || t[n].state == Retrying || t[n].state == Completed
  }

  lemma NothingRunnableDone(t: Tree)
    requires Closed(DepsOf(t)) && Acyclic(DepsOf(t)) && NoneRunnable(t)
    ensures (forall n :: n in t ==> t[n].state == Completed) <==> Undisturbed(t)
  {
    hide Closed, Acyclic;
    if Undisturbed(t) {
      NothingRunsMeansTerminal(t);
      forall n | n in t ensures t[n].state == Completed {
        assert !Live(t, n);
      }
    }
  }

  lemma EmptyRunnableSet(t: Tree)
    requires RunnableSet(t) == {}
    ensures NoneRunnable(t)
  {
    forall n ensures !Runnable(t, n) {
      assert n !in RunnableSet(t);
    }
  }

  /** Execution of any DAG of known nodes that ends before its loop reports it
      completed.  That is so exactly if no node had failed and none was left
      executing or undecided. */
  lemma ImmediateReport(t: Tree, default: int)
    requires Closed(DepsOf(t)) && Acyclic(DepsOf(t)) && !Begin(t, default).running
    ensures Begin(t, default).treeState == Completed
    ensures (forall n :: n in Begin(t, default).tree ==> Begin(t, default).tree[n].state == Completed) <==>
            (forall n :: n in t ==> t[n].state == Pending || t[n].state == Retrying || t[n].state == Completed)
  {
    hide Acyclic, Closed, NoneRunnable, Begin, RunnableSet;
    var u := Defaulted(t, default);
    SpawnCounts(t, default);
    NothingToSpawn(t, default);
    assert DepsOf(u) == DepsOf(t);
    EmptyRunnableSet(u);
    NothingRunnableDone(u);
    assert u.Keys == t.Keys && forall n :: n in t ==> u[n].state == t[n].state;
  }

  function Lone(st: NodeState): Tree {
    map[Name("a") := NodeView("", "", "", "", [], st, 0, "", "", 0, 0, 0)]
  }

  /** One node that a cancelled run left executing, or that failed before: the
      tree is reported completed, and the node has not completed. */
  lemma FalseReports(st: NodeState, default: int)
    requires st == Executing || st == Failed
    ensures Closed(DepsOf(Lone(st))) && Acyclic(DepsOf(Lone(st)))
    ensures !Begin(Lone(st), default).running && Begin(Lone(st), default).treeState == Completed
    ensures Has(Begin(Lone(st), default).tree, Name("a"), st)
  {
    RankedIsAcyclic(DepsOf(Lone(st)), map[]);
    hide Acyclic;
    assert RunnableSet(Defaulted(Lone(st), default)) == {};
    SpawnCounts(Lone(st), default);
    NothingToSpawn(Lone(st), default);
  }

  // --- runs from a tree that is not startable --------------------------------------------

  predicate Successes(queue: seq<Event>) {
    forall j :: 0 <= j < |queue| ==> queue[j].kind == NodeCompleted
  }

  /** No failure is posted up to point `i`. */
  ghost predicate OnlySuccesses(run: seq<RState>, i: nat)
    requires i < |run|
  {
    forall k :: 0 <= k <= i ==> Successes(run[k].queue)
  }

  ghost predicate StuckAt(s: RState, n: Name) {
    n in s.tree && Abandoned(s.tree, n) && Live(s.tree, n) && InFlight(s)[n] == 0
  }

  lemma AbandonedStays(t: Tree, u: Tree, n: Name)
    requires n in t && n in u && u[n] == t[n] && Abandoned(t, n) && Live(t, n)
    requires forall d :: Has(t, d, Failed) ==> Has(u, d, Failed)
    ensures Abandoned(u, n) && Live(u, n)
    ensures !Runnable(u, n) && SpawnAll(u)[n] == u[n]
  {
    if HasFailedDependency(t, n) {
      var d :| d in t[n].dependsOn && Has(t, d, Failed);
      assert Has(u, d, Failed);
    }
  }

  lemma SpawnKeepsStuck(s: RState, n: Name)
    requires StuckAt(s, n)
    ensures StuckAt(Spawn(s), n)
  {
    hide HasFailedDependency, Posted;
    AbandonedStays(s.tree, s.tree, n);
    RunnableIsCounted(s);
    assert SpawnAll(s.tree)[n] == s.tree[n];
    assert forall d :: Has(s.tree, d, Failed) ==> Has(SpawnAll(s.tree), d, Failed);
    AbandonedStays(s.tree, SpawnAll(s.tree), n);
  }

  lemma BeginStuck(t: Tree, default: int, n: Name)
    requires n in t && Abandoned(t, n)
    ensures StuckAt(Begin(t, default), n)
  {
    hide Spawn, HasFailedDependency;
    var s := Prepared(t, default);
    assert forall d, st :: Has(s.tree, d, st) <==> Has(t, d, st);
    SameFailures(t, s.tree, n);
    assert InFlight(s) == multiset{};
    SpawnKeepsStuck(s, n);
    assert InFlight(Begin(t, default)) == InFlight(Spawn(s));
  }

  /** A success changes nothing for an abandoned node. */
  lemma SuccessKeepsStuck(c: Start, s: RState, t': Tree, s': RState, n: Name)
    requires RunInv(c, s) && s.queue != [] && HandleTo(s, t', s')
    requires s.queue[0].kind == NodeCompleted && StuckAt(s, n)
    ensures StuckAt(s', n)
  {
    hide NoneRunnable, Closed, Acyclic, AllNodes, Terminal, Spawn, Posted, HasFailedDependency;
    HeadIsExecuting(c, s);
    HandledIsOut(s);
    var s1 := s.(tree := t', active := s.active - 1, queue := s.queue[1..], handled := s.handled + 1);
    assert forall d :: Has(s.tree, d, Failed) ==> Has(t', d, Failed);
    AbandonedStays(s.tree, t', n);
    assert InFlight(s1) == InFlight(s) - multiset{s.queue[0].node};
    SpawnKeepsStuck(s1, n);
    assert InFlight(s') == InFlight(Spawn(s1));
  }

  lemma StepKeepsStuck(c: Start, s: RState, s': RState, capacity: nat, n: Name)
    requires RunInv(c, s) && Step(s, s', capacity) && Successes(s.queue) && StuckAt(s, n)
    ensures StuckAt(s', n)
  {
    hide RunInv, EventEffect, Terminal, Posted, HandleTo, HasFailedDependency;
    if ev :| Post(s, s', capacity, ev) {
      PostKeepsInFlight(s, s', capacity, ev);
    } else if m, pid :| StorePid(s, s', m, pid) {
      assert m != n;
      assert forall d :: Has(s.tree, d, Failed) ==> Has(s'.tree, d, Failed);
      AbandonedStays(s.tree, s'.tree, n);
      assert InFlight(s') == InFlight(s);
    } else if Handle(s, s') {
      var t' :| HandleTo(s, t', s');
      SuccessKeepsStuck(c, s, t', s', n);
    } else {
      assert InFlight(s') == InFlight(s);
    }
  }

  lemma {:induction false} StuckForGood(run: seq<RState>, t: Tree, default: int, capacity: nat, i: nat, n: Name)
    requires IsRun(run, t, default, capacity) && i < |run| && OnlySuccesses(run, i)
    requires n in t && Abandoned(t, n)
    ensures StuckAt(run[i], n)
  {
    hide RunInv, Step, StuckAt, Begin, Successes;
    if i == 0 {
      BeginStuck(t, default, n);
    } else {
      StuckForGood(run, t, default, capacity, i - 1, n);
      RunKeepsInv(Any(t, default), run, t, default, capacity, i - 1);
      assert RunStep(run, capacity, i - 1);
      StepKeepsStuck(Any(t, default), run[i - 1], run[i], capacity, n);
    }
  }

  /** `Startable` is exactly what execution needs: a run on a DAG of known nodes in
      which every worker succeeds leaves every node finished if and only if the
      tree was startable. */
  lemma SuccessesFinishStartable(run: seq<RState>, t: Tree, default: int, capacity: nat, i: nat)
    requires Closed(DepsOf(t)) && Acyclic(DepsOf(t))
    requires IsRun(run, t, default, capacity) && i < |run| && OnlySuccesses(run, i)
    requires run[i].active == 0
    ensures Terminal(run[i].tree) <==> Startable(t)
  {
    hide IsRun, OnlySuccesses, Acyclic, Closed, Abandoned;
    if Startable(t) {
      NoStuckRun(run, t, default, capacity, i);
    } else {
      var n :| n in t && Abandoned(t, n);
      StuckForGood(run, t, default, capacity, i, n);
    }
  }

  lemma NothingToSpawn(t: Tree, default: int)
    requires RunnableSet(Defaulted(t, default)) == {}
    ensures Begin(t, default).tree == Defaulted(t, default) && Begin(t, default).treeState == Completed
  {
    EmptyRunnableSet(Defaulted(t, default));
    hide Runnable;
    assert SpawnAll(Defaulted(t, default)) == Defaulted(t, default);
  }
}
