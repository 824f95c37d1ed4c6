/** Runs of the reconciler into which new nodes are merged, at any time and with any
    batch.  A merge may reset a node that is executing, so a node can have several
    workers; and a refused one may leave behind a dependency that nothing will ever
    meet.  A run that reports completed has completed everything exactly if the
    nodes it leaves unfinished would form a DAG of known nodes; a merge that comes
    after the end makes the report untrue unless it changes no intent. */
module ReconcilerMerges {
  import opened Names
  import opened Sums
  import opened Sets
  import opened Graph
  import opened IntentTrees
  import opened ReconcilerProtocol
  import opened MergeRules

  /** Nodes just added get the default retry limit. */
  function DefaultAdded(m: Log, default: int): Tree {
    map n | n in m.tree :: if n in m.added then WithDefault(m.tree[n], default) else m.tree[n]
  }

  /** What is runnable is launched if an execution context is stored: not before the
      run or after its cancellation, but also after the loop has ended by itself. */
  ghost function Launched(s: RState): RState {
    if s.context then Spawn(s) else s
  }

  /** One merge under the reconciler's lock: launched if the result is acceptable,
      rolled back otherwise. */
  ghost predicate MergeStep(s: RState, s': RState, batch: seq<NewNode>, default: int) {
    var m := EnterAll(s.tree, batch);
    if Acceptable(m.tree) then s' == Launched(s.(tree := DefaultAdded(m, default)))
    else RollBack(m) == Rolled(s'.tree) && s' == s.(tree := s'.tree)
  }

  ghost predicate StepOrMerge(s: RState, s': RState, capacity: nat, default: int) {
    || Step(s, s', capacity)
    || exists batch :: MergeStep(s, s', batch, default)
  }

  // --- what no merge touches --------------------------------------------------------------

  /** How a node is set up to run. */
  ghost predicate SameConfig(v: NodeView, u: NodeView) {
    u.agent == v.agent && u.model == v.model && u.provider == v.provider && u.maxRetries == v.maxRetries && u.timeout == v.timeout
  }

  /** Every node of `t` is still there with its setup, and until the first merge with
      its description and its dependencies. */
  ghost predicate Kept(t: Tree, u: Tree, unmerged: bool) {
    forall n :: n in t ==> n in u && SameConfig(t[n], u[n]) && (unmerged ==> SameNode(t[n], u[n]))
  }

  lemma ExpectedConfig(t: Tree, batch: seq<NewNode>, n: Name)
    requires n in t
    ensures SameConfig(t[n], Expected(t, batch, n))
  {
    hide Mentions, LastOf, Agreed;
  }

  lemma MergeKeepsConfig(s: RState, s': RState, batch: seq<NewNode>, default: int, n: Name)
    requires MergeStep(s, s', batch, default) && n in s.tree
    ensures n in s'.tree && SameConfig(s.tree[n], s'.tree[n])
  {
    hide EnterAll, RollBack, Acceptable, Expected, Mentions, Conflict, Conflicts, LastChange, WithDefault, Runnable;
    var m := EnterAll(s.tree, batch);
    if Acceptable(m.tree) {
      MergeKeepsTheRest(s.tree, batch, n);
      RecordsAre(s.tree, batch, n);
      ExpectedConfig(s.tree, batch, n);
    } else {
      RollbackCrash(s.tree, batch);
      RolledNode(s.tree, batch, n);
      ExpectedConfig(s.tree, batch[..LastChange(s.tree, batch, n)], n);
    }
  }

  /** A node the batch has added has the agent and the model of its first entry, the
      intent and the dependencies of its last, and the default retry limit. */
  lemma AddedIsSetUp(s: RState, s': RState, batch: seq<NewNode>, default: int, i: nat, j: nat)
    requires MergeStep(s, s', batch, default) && Acceptable(EnterAll(s.tree, batch).tree)
    requires FirstNamed(batch, i) && LastNamed(batch, j) && batch[i].id == batch[j].id && batch[i].id !in s.tree
    ensures batch[i].id in s'.tree && var u := s'.tree[batch[i].id];
            && u.agent == batch[i].agent && u.model == batch[i].model && u.provider == "" && u.timeout == 0
            && u.intent == batch[j].intent && u.dependsOn == batch[j].dependsOn
            && u.maxRetries == default && u.retryCount == 0 && (u.state == Pending || u.state == Executing)
  {
    hide EnterAll, RollBack, Acceptable, Conflict, Runnable;
    var n, m := batch[i].id, EnterAll(s.tree, batch);
    assert Mentions(batch, n);
    MergeKeepsTheRest(s.tree, batch, n);
    RecordsAre(s.tree, batch, n);
    FirstIs(batch, n, i);
    LastIs(batch, n, j);
    hide Mentions, FirstOf, LastOf, Agreed;
  }

  lemma StepKeeps(t: Tree, s: RState, s': RState, capacity: nat, unmerged: bool)
    requires Kept(t, s.tree, unmerged) && Step(s, s', capacity)
    ensures Kept(t, s'.tree, unmerged)
  {
    hide Step;
    forall n | n in t ensures n in s'.tree && SameConfig(t[n], s'.tree[n]) && (unmerged ==> SameNode(t[n], s'.tree[n])) {
      StepOnNode(s, s', capacity, n);
    }
  }

  lemma MergeKeeps(t: Tree, s: RState, s': RState, batch: seq<NewNode>, default: int, unmerged: bool)
    requires Kept(t, s.tree, unmerged) && MergeStep(s, s', batch, default)
    ensures Kept(t, s'.tree, false)
  {
    hide MergeStep;
    forall n | n in t ensures n in s'.tree && SameConfig(t[n], s'.tree[n]) {
      MergeKeepsConfig(s, s', batch, default, n);
    }
  }

  // --- what every merge keeps ------------------------------------------------------------

  /** `active` counts the workers whose events have not been handled, and they work
      on nodes of the tree. */
  ghost predicate Attended(s: RState) {
    && s.active == |InFlight(s)|
    && forall n :: InFlight(s)[n] > 0 ==> n in s.tree
  }

  /** Besides, no node is undecided, and an executing node has a worker in flight. */
  ghost predicate Tallied(s: RState) {
    && Attended(s) && SettledStates(s.tree)
    && forall n :: Has(s.tree, n, Executing) ==> InFlight(s)[n] >= 1
  }

  /** Every node is pending or in the state it was in. */
  ghost predicate Resets(t: Tree, u: Tree) {
    && t.Keys <= u.Keys
    && forall n :: n in u ==> u[n].state == Pending || (n in t && u[n].state == t[n].state)
  }

  lemma SpawnAttends(s: RState)
    requires Attended(s)
    ensures Attended(Spawn(s))
  {
    hide Posted, Runnable;
    RunnableIsCounted(s);
    RunnableKnown(s.tree);
  }

  lemma RunnableKnown(t: Tree)
    ensures forall n :: Runnable(t, n) ==> n in t
    ensures SpawnAll(t).Keys == t.Keys
  {
  }

  lemma SpawnTallies(s: RState)
    requires Tallied(s)
    ensures Tallied(Spawn(s))
  {
    hide Posted, Attended;
    SpawnAttends(s);
    RunnableIsCounted(s);
    var s' := Spawn(s);
    forall n | Has(s'.tree, n, Executing) ensures InFlight(s')[n] >= 1 {
      assert Has(s.tree, n, Executing) || Runnable(s.tree, n);
    }
  }

  lemma EnteringResets(t: Tree, batch: seq<NewNode>, default: int)
    ensures Resets(t, DefaultAdded(EnterAll(t, batch), default))
  {
    hide EnterAll;
    var m := EnterAll(t, batch);
    forall n ensures n in t ==> n in m.tree
      ensures n in m.tree ==> m.tree[n].state == Pending || (n in t && m.tree[n].state == t[n].state)
    {
      MergedStates(t, batch, n);
    }
  }

  lemma RollbackResets(t: Tree, batch: seq<NewNode>)
    requires RollBack(EnterAll(t, batch)).Rolled?
    ensures Resets(t, RollBack(EnterAll(t, batch)).tree)
  {
    hide EnterAll, RollBack, Conflicts, LastChange, Expected;
    RollbackCrash(t, batch);
    RolledKeys(t, batch);
    var r := RollBack(EnterAll(t, batch)).tree;
    forall n | n in r ensures r[n].state == Pending || (n in t && r[n].state == t[n].state) {
      RolledNode(t, batch, n);
      MergeKeepsTheRest(t, batch[..LastChange(t, batch, n)], n);
      MergedStates(t, batch[..LastChange(t, batch, n)], n);
    }
  }

  lemma ResettingTallies(s: RState, u: Tree)
    requires Resets(s.tree, u)
    ensures Attended(s) ==> Attended(s.(tree := u))
    ensures Tallied(s) ==> Tallied(s.(tree := u))
  {
    hide Posted;
    assert InFlight(s.(tree := u)) == InFlight(s);
    forall n | Has(u, n, Executing) ensures Has(s.tree, n, Executing) {}
  }

  lemma MergeTallies(s: RState, s': RState, batch: seq<NewNode>, default: int)
    requires MergeStep(s, s', batch, default)
    ensures Attended(s) ==> Attended(s')
    ensures Tallied(s) ==> Tallied(s')
    ensures s'.running == s.running && s'.context == s.context && s'.treeState == s.treeState
    ensures s'.queue == s.queue && s.tree.Keys <= s'.tree.Keys
  {
    hide Attended, Tallied, EnterAll, RollBack, Acceptable, Spawn;
    var m := EnterAll(s.tree, batch);
    SpawnShape(s.(tree := DefaultAdded(m, default)));
    if Acceptable(m.tree) {
      EnteringResets(s.tree, batch, default);
      var s1 := s.(tree := DefaultAdded(m, default));
      ResettingTallies(s, s1.tree);
      if Attended(s1) { SpawnAttends(s1); }
      if Tallied(s1) { SpawnTallies(s1); }
    } else {
      RollbackResets(s.tree, batch);
      ResettingTallies(s, s'.tree);
    }
  }

  lemma SpawnShape(s: RState)
    ensures var u := Spawn(s);
            && u.running == s.running && u.context == s.context && u.treeState == s.treeState && u.queue == s.queue
            && u.tree.Keys == s.tree.Keys
  {
    hide Runnable;
  }

  // --- what every step keeps ---------------------------------------------------------------

  /** After its effect, an event's node is no longer executing and no other node
      has begun to. */
  lemma EffectStates(t: Tree, t': Tree, ev: Event, n: Name)
    requires EventEffect(t, t', ev) && SettledStates(t) && n in t
    ensures n in t' && t'[n].state != Decomposing && t'[n].state != AwaitConfirm
    ensures t'[n].state == Executing ==> n != ev.node && t[n].state == Executing
  {
    hide MarkedFailed;
    if ev.node in t && ev.kind != NodeCompleted && !Retries(t, ev) {
      MarkedFailedFields(t[ev.node := Counted(t[ev.node])], t', ev.node, ev.text);
    }
  }

  ghost function Effected(s: RState, t': Tree): RState
    requires s.queue != []
  {
    s.(tree := t', active := s.active - 1, queue := s.queue[1..], handled := s.handled + 1)
  }

  lemma EffectAttends(s: RState, t': Tree)
    requires Attended(s) && s.queue != [] && EventEffect(s.tree, t', s.queue[0])
    ensures t'.Keys == s.tree.Keys && s.queue[0].node in s.tree
    ensures InFlight(Effected(s, t')) == InFlight(s) - multiset{s.queue[0].node}
    ensures Attended(Effected(s, t'))
  {
    hide EventEffect;
    var ev := s.queue[0];
    HandledIsOut(s);
    HeadInFlight(s);
    EffectKeepsDeps(s.tree, t', ev);
    assert t'.Keys == DepsOf(t').Keys && s.tree.Keys == DepsOf(s.tree).Keys;
    hide Posted;
    assert InFlight(Effected(s, t')) == InFlight(s) - multiset{ev.node};
  }

  lemma EffectTallies(s: RState, t': Tree)
    requires Tallied(s) && s.queue != [] && EventEffect(s.tree, t', s.queue[0])
    ensures Tallied(Effected(s, t'))
  {
    hide EventEffect, Posted, InFlight;
    EffectAttends(s, t');
    var ev := s.queue[0];
    forall n | n in t' ensures t'[n].state != Decomposing && t'[n].state != AwaitConfirm
      ensures Has(t', n, Executing) ==> InFlight(Effected(s, t'))[n] >= 1
    {
      EffectStates(s.tree, t', ev, n);
      if Has(t', n, Executing) { assert Has(s.tree, n, Executing); }
    }
  }

  lemma HeadInFlight(s: RState)
    requires s.queue != []
    ensures InFlight(s)[s.queue[0].node] >= 1
  {
  }

  lemma SameTally(s: RState, s': RState)
    requires s'.tree == s.tree && s'.active == s.active && InFlight(s') == InFlight(s)
    ensures Attended(s) ==> Attended(s')
    ensures Tallied(s) ==> Tallied(s')
  {
  }

  lemma EndTallies(s: RState, s': RState)
    requires s'.tree == s.tree && s'.active == s.active && s'.workers == s.workers && s'.queue == s.queue
    ensures Attended(s) ==> Attended(s')
    ensures Tallied(s) ==> Tallied(s')
  {
    hide Attended, Tallied, Posted;
    assert InFlight(s') == InFlight(s);
    SameTally(s, s');
  }

  lemma HandleTallies(s: RState, t': Tree, s': RState)
    requires s.queue != [] && HandleTo(s, t', s')
    ensures Attended(s) ==> Attended(s')
    ensures Tallied(s) ==> Tallied(s')
  {
    hide Attended, Tallied, EventEffect, Posted, Runnable, Terminal;
    if Attended(s) { EffectAttends(s, t'); SpawnAttends(Effected(s, t')); }
    if Tallied(s) { EffectTallies(s, t'); SpawnTallies(Effected(s, t')); }
    var ev := s.queue[0];
    if ev.kind == NodeCompleted || Retries(s.tree, ev) {
      EndTallies(Spawn(Effected(s, t')), s');
    } else {
      EndTallies(Effected(s, t'), s');
    }
  }

  lemma PidTallies(s: RState, s': RState, n: Name, pid: int)
    requires StorePid(s, s', n, pid)
    ensures Attended(s) ==> Attended(s')
    ensures Tallied(s) ==> Tallied(s')
  {
    hide Posted;
    assert InFlight(s') == InFlight(s);
    assert forall k, st :: Has(s'.tree, k, st) <==> Has(s.tree, k, st);
  }

  lemma StepTallies(s: RState, s': RState, capacity: nat)
    requires Step(s, s', capacity)
    ensures Attended(s) ==> Attended(s')
    ensures Tallied(s) ==> Tallied(s')
  {
    hide Attended, Tallied, EventEffect, Posted, HandleTo;
    if ev :| Post(s, s', capacity, ev) {
      PostKeepsInFlight(s, s', capacity, ev);
      SameTally(s, s');
    } else if n, pid :| StorePid(s, s', n, pid) {
      PidTallies(s, s', n, pid);
    } else if Handle(s, s') {
      var t' :| HandleTo(s, t', s');
      HandleTallies(s, t', s');
    } else {
      EndTallies(s, s');
    }
  }

  lemma StepOrMergeTallies(s: RState, s': RState, capacity: nat, default: int)
    requires StepOrMerge(s, s', capacity, default)
    ensures Attended(s) ==> Attended(s')
    ensures Tallied(s) ==> Tallied(s')
  {
    hide Attended, Tallied, Step, MergeStep;
    if batch :| MergeStep(s, s', batch, default) {
      MergeTallies(s, s', batch, default);
    } else {
      StepTallies(s, s', capacity);
    }
  }

  // --- what a refusal can break -------------------------------------------------------------

  /** The tree is a DAG of known nodes, and nothing runnable waits. */
  ghost predicate MergeInv(s: RState) {
    Tallied(s) && Acceptable(s.tree) && NoneRunnable(s.tree)
  }

  /** A batch was refused, and the rollback did not restore the tree. */
  ghost predicate Unrestored(s: RState, s': RState) {
    && s'.tree != s.tree
    && exists batch :: !Acceptable(EnterAll(s.tree, batch).tree) && RollBack(EnterAll(s.tree, batch)) == Rolled(s'.tree)
  }

  lemma SpawnCovers(s: RState)
    requires Tallied(s) && Acceptable(s.tree)
    ensures MergeInv(Spawn(s))
  {
    hide Closed, Acyclic, Runnable, Tallied;
    SpawnTallies(s);
    NoneRunnableAfterSpawn(s.tree);
    SpawnKeepsDeps(s.tree);
  }

  lemma HandleKeepsMergeInv(s: RState, t': Tree, s': RState)
    requires MergeInv(s) && s.queue != [] && HandleTo(s, t', s')
    ensures MergeInv(s')
  {
    hide Tallied, NoneRunnable, EventEffect, Posted, Runnable, Terminal, Closed, Acyclic;
    var ev := s.queue[0];
    EffectTallies(s, t');
    EffectKeepsDeps(s.tree, t', ev);
    HandleTallies(s, t', s');
    if ev.kind == NodeCompleted || Retries(s.tree, ev) {
      SpawnCovers(Effected(s, t'));
    } else {
      FailureEnablesNothing(s.tree, t', ev);
    }
  }

  lemma PidKeepsMergeInv(s: RState, s': RState, n: Name, pid: int)
    requires MergeInv(s) && StorePid(s, s', n, pid)
    ensures MergeInv(s')
  {
    hide Closed, Acyclic, Tallied, Runnable;
    PidTallies(s, s', n, pid);
    assert DepsOf(s'.tree) == DepsOf(s.tree);
    forall k ensures !Runnable(s'.tree, k) {
      if Runnable(s'.tree, k) { SameRunnable(s.tree, n, pid, k); }
    }
  }

  lemma MergeKeepsMergeInv(s: RState, s': RState, batch: seq<NewNode>, default: int)
    requires MergeInv(s) && s.context && MergeStep(s, s', batch, default)
    ensures MergeInv(s') || Unrestored(s, s')
  {
    hide Closed, Acyclic, Tallied, NoneRunnable, EnterAll, RollBack;
    var m := EnterAll(s.tree, batch);
    if Acceptable(m.tree) {
      var s1 := s.(tree := DefaultAdded(m, default));
      assert DepsOf(s1.tree) == DepsOf(m.tree);
      EnteringResets(s.tree, batch, default);
      ResettingTallies(s, s1.tree);
      SpawnCovers(s1);
    }
  }

  /** While the loop runs, every step and every merge keeps the invariant, but for a
      refused merge whose rollback does not restore. */
  lemma StepKeepsMergeInv(s: RState, s': RState, capacity: nat, default: int)
    requires MergeInv(s) && s.context && StepOrMerge(s, s', capacity, default)
    ensures MergeInv(s') || Unrestored(s, s')
  {
    hide MergeInv, Unrestored, EventEffect, HandleTo, MergeStep, Posted;
    if batch :| MergeStep(s, s', batch, default) {
      MergeKeepsMergeInv(s, s', batch, default);
    } else if n, pid :| StorePid(s, s', n, pid) {
      PidKeepsMergeInv(s, s', n, pid);
    } else if Handle(s, s') {
      var t' :| HandleTo(s, t', s');
      HandleKeepsMergeInv(s, t', s');
    } else {
      SameTreeKeeps(s, s', capacity);
    }
  }

  lemma SameTreeKeeps(s: RState, s': RState, capacity: nat)
    requires MergeInv(s) && Step(s, s', capacity) && s'.tree == s.tree
    ensures MergeInv(s')
  {
    hide Tallied, NoneRunnable, Step;
    StepTallies(s, s', capacity);
  }

  // --- runs with merges ------------------------------------------------------------------

  /** No node is left executing or undecided. */
  ghost predicate AllAtRest(t: Tree) {
    SettledStates(t) && forall n :: n in t ==> t[n].state != Executing
  }

  lemma BeginTallied(t: Tree, default: int)
    requires AllAtRest(t)
    ensures Tallied(Begin(t, default))
  {
    hide Spawn, Posted;
    var s := Prepared(t, default);
    assert InFlight(s) == multiset{} by { EmptyFlight(t, default); }
    assert Tallied(s);
    hide Tallied;
    SpawnTallies(s);
    EndTallies(Spawn(s), Begin(t, default));
  }

  lemma EmptyFlight(t: Tree, default: int)
    ensures InFlight(Prepared(t, default)) == multiset{}
  {
  }

  ghost predicate MergeRunStep(run: seq<RState>, capacity: nat, default: int, i: nat)
    requires i + 1 < |run|
  {
    StepOrMerge(run[i], run[i + 1], capacity, default)
  }

  ghost predicate IsMergeRun(run: seq<RState>, t: Tree, default: int, capacity: nat) {
    && run != [] && run[0] == Begin(t, default)
    && forall i {:trigger MergeRunStep(run, capacity, default, i)} :: 0 <= i < |run| - 1 ==>
         MergeRunStep(run, capacity, default, i)
  }

  lemma {:induction false} MergeRunTallied(run: seq<RState>, t: Tree, default: int, capacity: nat, i: nat)
    requires AllAtRest(t) && IsMergeRun(run, t, default, capacity) && i < |run|
    ensures Tallied(run[i])
  {
    hide Tallied, AllAtRest, StepOrMerge, Begin;
    if i == 0 {
      BeginTallied(t, default);
    } else {
      MergeRunTallied(run, t, default, capacity, i - 1);
      assert MergeRunStep(run, capacity, default, i - 1);
      StepOrMergeTallies(run[i - 1], run[i], capacity, default);
    }
  }

  // --- the report at the end ------------------------------------------------------------------

  function LiveDeps(t: Tree): Deps {
    map n | n in t && Live(t, n) :: t[n].dependsOn
  }

  /** The unfinished nodes depend on known nodes only, and on one another without a
      cycle. */
  ghost predicate LiveDag(t: Tree) {
    && Acyclic(LiveDeps(t))
    && forall n :: Live(t, n) ==> KnownDeps(t, n)
  }

  ghost predicate KnownDeps(t: Tree, n: Name)
    requires n in t
  {
    forall d :: d in t[n].dependsOn ==> d in t
  }

  ghost predicate AllCompleted(t: Tree) {
    forall n :: n in t ==> t[n].state == Completed
  }

  ghost predicate AnyFailed(t: Tree) {
    exists n :: n in t && t[n].state == Failed
  }

  lemma AllCompletedIsLiveDag(t: Tree)
    requires AllCompleted(t)
    ensures LiveDag(t)
  {
    assert LiveDeps(t) == map[];
    RankedIsAcyclic(LiveDeps(t), map[]);
  }

  /** An unfinished node with no unfinished dependency can run. */
  lemma SourceIsRunnable(t: Tree, v: Name)
    requires AllAtRest(t) && !AnyFailed(t) && Live(t, v) && KnownDeps(t, v)
    requires forall d :: d in LiveDeps(t) ==> !Edge(LiveDeps(t), d, v)
    ensures Runnable(t, v)
  {
    forall d | d in t[v].dependsOn ensures d in t && t[d].state == Completed {
      assert Edge(LiveDeps(t), d, v);
      assert d !in LiveDeps(t);
    }
  }

  /** Nothing runs, nothing can, and nothing failed. */
  lemma StillMeansDone(t: Tree)
    requires AllAtRest(t) && NoneRunnable(t) && !AnyFailed(t) && LiveDag(t)
    ensures AllCompleted(t)
  {
    hide Acyclic, Runnable;
    var g := LiveDeps(t);
    if g.Keys != {} {
      var v := AcyclicHasSource(g, g.Keys);
      SourceIsRunnable(t, v);
    }
    forall n | n in t ensures t[n].state == Completed {
      assert n !in g;
    }
  }

  /** A loop that ends and reports completed has just launched what it could. */
  lemma EndReports(s: RState, t': Tree, s': RState)
    requires Attended(s) && s.running && s.queue != [] && HandleTo(s, t', s') && !s'.running
    ensures Terminal(s'.tree) || s'.active == 0
    ensures s'.treeState == if AnyFailed(s'.tree) then Failed else Completed
    ensures s'.treeState == Completed ==> NoneRunnable(s'.tree)
  {
    hide EventEffect, Runnable, Terminal, Posted, Attended;
    var ev := s.queue[0];
    if ev.kind == NodeCompleted || Retries(s.tree, ev) {
      NoneRunnableAfterSpawn(t');
    } else {
      EffectAttends(s, t');
      FailedHead(s.tree, t', ev);
    }
  }

  lemma FailedHead(t: Tree, t': Tree, ev: Event)
    requires EventEffect(t, t', ev) && ev.node in t && ev.kind != NodeCompleted && !Retries(t, ev)
    ensures AnyFailed(t')
  {
    hide MarkedFailed;
    MarkedFailedFields(t[ev.node := Counted(t[ev.node])], t', ev.node, ev.text);
    assert ev.node in t' && t'[ev.node].state == Failed;
  }

  lemma IdleAtRest(s: RState)
    requires Tallied(s) && s.active == 0
    ensures AllAtRest(s.tree)
  {
    hide Posted;
    assert InFlight(s) == multiset{};
    forall n | n in s.tree ensures s.tree[n].state != Executing {
      assert Has(s.tree, n, Executing) ==> InFlight(s)[n] >= 1;
    }
  }

  lemma TerminalUnfailed(t: Tree)
    requires Terminal(t) && !AnyFailed(t)
    ensures AllCompleted(t)
  {
    forall n | n in t ensures t[n].state == Completed {
      assert !Live(t, n);
    }
  }

  /** What a report is worth, whatever was merged: failed is reported exactly if some
      node is; when completed is, every node has completed exactly if the unfinished
      nodes form a DAG of known nodes. */
  lemma ReportIsWorth(s: RState, s': RState)
    requires Tallied(s) && Handle(s, s') && !s'.running
    ensures s'.treeState == if AnyFailed(s'.tree) then Failed else Completed
    ensures s'.treeState == Completed ==> (AllCompleted(s'.tree) <==> LiveDag(s'.tree))
  {
    hide Tallied, HandleTo, LiveDag, Posted;
    var t' :| HandleTo(s, t', s');
    HandleTallies(s, t', s');
    assert Attended(s) by { TallyAttends(s); }
    EndReports(s, t', s');
    if s'.treeState == Completed {
      if AllCompleted(s'.tree) { AllCompletedIsLiveDag(s'.tree); }
      if Terminal(s'.tree) {
        TerminalUnfailed(s'.tree);
      } else if LiveDag(s'.tree) {
        IdleAtRest(s');
        StillMeansDone(s'.tree);
      }
    }
  }

  lemma TallyAttends(s: RState)
    requires Tallied(s)
    ensures Attended(s)
  {
  }

  lemma CompletedReportExact(run: seq<RState>, t: Tree, default: int, capacity: nat, i: nat)
    requires AllAtRest(t) && IsMergeRun(run, t, default, capacity) && i + 1 < |run|
    requires Handle(run[i], run[i + 1]) && !run[i + 1].running
    ensures var s := run[i + 1];
            && s.treeState == (if AnyFailed(s.tree) then Failed else Completed)
            && (s.treeState == Completed ==> (AllCompleted(s.tree) <==> LiveDag(s.tree)))
  {
    hide AllAtRest, IsMergeRun, Tallied, Handle, LiveDag, AnyFailed, AllCompleted;
    MergeRunTallied(run, t, default, capacity, i);
    ReportIsWorth(run[i], run[i + 1]);
  }

  lemma SubgraphAcyclic(g: Deps, h: Deps)
    requires Acyclic(g) && h.Keys <= g.Keys && forall n :: n in h ==> h[n] == g[n]
    ensures Acyclic(h)
  {
    forall w ensures !ClosedWalk(h, w) {
      if ClosedWalk(h, w) {
        forall i | 0 <= i < |w| - 1 ensures EdgeAt(g, w, i) { assert EdgeAt(h, w, i); }
        assert ClosedWalk(g, w);
      }
    }
  }

  lemma DagIsLiveDag(t: Tree)
    requires Acceptable(t)
    ensures LiveDag(t)
  {
    SubgraphAcyclic(DepsOf(t), LiveDeps(t));
    forall n | Live(t, n) ensures KnownDeps(t, n) {
      forall d | d in t[n].dependsOn ensures d in t { assert Edge(DepsOf(t), d, n); }
    }
  }

  lemma MergeKeepsDag(s: RState, s': RState, batch: seq<NewNode>, default: int)
    requires Acceptable(s.tree) && MergeStep(s, s', batch, default)
    ensures Acceptable(s'.tree) || Unrestored(s, s')
  {
    hide Closed, Acyclic, EnterAll, RollBack;
    var m := EnterAll(s.tree, batch);
    if Acceptable(m.tree) {
      assert DepsOf(DefaultAdded(m, default)) == DepsOf(m.tree);
      SpawnKeepsDeps(DefaultAdded(m, default));
    }
  }

  lemma HandleKeepsDeps(s: RState, s': RState)
    requires Handle(s, s')
    ensures DepsOf(s'.tree) == DepsOf(s.tree)
  {
    hide EventEffect, Posted, HandleTo;
    var t' :| HandleTo(s, t', s');
    HandleShape(s, t', s');
    EffectKeepsDeps(s.tree, t', s.queue[0]);
    SpawnKeepsDeps(t');
  }

  lemma StepKeepsDag(s: RState, s': RState, capacity: nat, default: int)
    requires Acceptable(s.tree) && StepOrMerge(s, s', capacity, default)
    ensures Acceptable(s'.tree) || Unrestored(s, s')
  {
    hide Closed, Acyclic, MergeStep, Handle, Unrestored;
    if batch :| MergeStep(s, s', batch, default) {
      MergeKeepsDag(s, s', batch, default);
    } else if n, pid :| StorePid(s, s', n, pid) {
      assert DepsOf(s'.tree) == DepsOf(s.tree);
    } else if Handle(s, s') {
      HandleKeepsDeps(s, s');
    }
  }

  /** A refused batch leaves a DAG of known nodes, restored or not. */
  ghost predicate RefusalsLeaveDags(run: seq<RState>, i: nat)
    requires i < |run|
  {
    forall k :: 0 <= k < i && Unrestored(run[k], run[k + 1]) ==> Acceptable(run[k + 1].tree)
  }

  lemma {:induction false} DagsThroughout(run: seq<RState>, t: Tree, default: int, capacity: nat, i: nat)
    requires Acceptable(t) && IsMergeRun(run, t, default, capacity) && i < |run| && RefusalsLeaveDags(run, i)
    ensures Acceptable(run[i].tree)
  {
    hide Closed, Acyclic, StepOrMerge, Unrestored;
    if i == 0 {
      assert DepsOf(Defaulted(t, default)) == DepsOf(t);
      SpawnKeepsDeps(Defaulted(t, default));
    } else {
      DagsThroughout(run, t, default, capacity, i - 1);
      assert MergeRunStep(run, capacity, default, i - 1);
      StepKeepsDag(run[i - 1], run[i], capacity, default);
      assert run[i - 1 + 1] == run[i];
    }
  }

  /** From a DAG of known nodes at rest, with any batches merged at any time: if every
      refusal left a DAG of known nodes, a run whose loop reports completed has
      completed every node, merged ones included. */
  lemma CompletedReportIsTrue(run: seq<RState>, t: Tree, default: int, capacity: nat, i: nat)
    requires AllAtRest(t) && Acceptable(t) && IsMergeRun(run, t, default, capacity) && i + 1 < |run|
    requires RefusalsLeaveDags(run, i + 1)
    requires Handle(run[i], run[i + 1]) && !run[i + 1].running
    ensures var s := run[i + 1];
            && (s.treeState == Completed <==> AllCompleted(s.tree))
            && (s.treeState != Completed ==> s.treeState == Failed && AnyFailed(s.tree))
  {
    hide AllAtRest, IsMergeRun, Handle, LiveDag, Acceptable, RefusalsLeaveDags;
    CompletedReportExact(run, t, default, capacity, i);
    DagsThroughout(run, t, default, capacity, i + 1);
    DagIsLiveDag(run[i + 1].tree);
  }

  // --- merges after the end -------------------------------------------------------------------

  /** Every entry names a node of the tree and gives the intent that node has. */
  ghost predicate KeepsIntents(t: Tree, batch: seq<NewNode>) {
    forall i :: 0 <= i < |batch| ==> batch[i].id in t && batch[i].intent == t[batch[i].id].intent
  }

  lemma KeptNode(t: Tree, batch: seq<NewNode>, n: Name)
    requires AllCompleted(t) && KeepsIntents(t, batch) && n in EnterAll(t, batch).tree
    ensures EnterAll(t, batch).tree[n].state == Completed
  {
    hide EnterAll;
    MergeKeepsTheRest(t, batch, n);
    if Mentions(batch, n) { MentionedIsKnown(t, batch, n); }
  }

  lemma MentionedIsKnown(t: Tree, batch: seq<NewNode>, n: Name)
    requires KeepsIntents(t, batch) && Mentions(batch, n)
    ensures n in t && Agreed(batch, n, t[n].intent)
  {
  }

  lemma TouchedNode(t: Tree, batch: seq<NewNode>, i: nat)
    requires i < |batch| && !(batch[i].id in t && batch[i].intent == t[batch[i].id].intent)
    ensures var n := batch[i].id; n in EnterAll(t, batch).tree && EnterAll(t, batch).tree[n].state == Pending
  {
    hide EnterAll;
    assert Mentions(batch, batch[i].id);
    MergeKeepsTheRest(t, batch, batch[i].id);
  }

  /** A batch merged after the loop has ended and reported, with every node completed:
      the report stays, and every node is still completed exactly if each entry
      repeats the intent of a node there is. */
  lemma LateMerge(s: RState, s': RState, batch: seq<NewNode>, default: int)
    requires !s.running && AllCompleted(s.tree)
    requires Acceptable(EnterAll(s.tree, batch).tree) && MergeStep(s, s', batch, default)
    ensures !s'.running && s'.treeState == s.treeState
    ensures AllCompleted(s'.tree) <==> KeepsIntents(s.tree, batch)
  {
    hide EnterAll, Acceptable, InFlight, RunnableSet;
    var m := EnterAll(s.tree, batch);
    var u := DefaultAdded(m, default);
    if KeepsIntents(s.tree, batch) {
      forall n | n in m.tree ensures m.tree[n].state == Completed { KeptNode(s.tree, batch, n); }
    } else {
      var i :| 0 <= i < |batch| && !(batch[i].id in s.tree && batch[i].intent == s.tree[batch[i].id].intent);
      TouchedNode(s.tree, batch, i);
      var n := batch[i].id;
      assert n in u && u[n].state == Pending;
      assert n in s'.tree && s'.tree[n].state != Completed;
    }
  }

  /** A refused late batch leaves every node completed exactly if none had its intent
      changed before the last change of it. */
  lemma LateRefusal(s: RState, s': RState, batch: seq<NewNode>, default: int)
    requires !s.running && AllCompleted(s.tree)
    requires !Acceptable(EnterAll(s.tree, batch).tree) && MergeStep(s, s', batch, default)
    ensures !s'.running && s'.treeState == s.treeState
    ensures AllCompleted(s'.tree) <==>
              forall n :: n in s.tree ==> Agreed(batch[..LastChange(s.tree, batch, n)], n, s.tree[n].intent)
  {
    hide EnterAll, RollBack, Acceptable, Conflicts, LastChange, Agreed, Mentions;
    var t := s.tree;
    RollbackCrash(t, batch);
    RolledKeys(t, batch);
    forall n | n in t
      ensures s'.tree[n].state == Completed <==> Agreed(batch[..LastChange(t, batch, n)], n, t[n].intent)
    {
      RolledNode(t, batch, n);
      var prior := batch[..LastChange(t, batch, n)];
      if !Mentions(prior, n) { NoneDiffers(prior, n, t[n].intent); }
    }
  }

  lemma EndedStep(s: RState, s': RState, capacity: nat)
    requires !s.running && Step(s, s', capacity)
    ensures !s'.running && s'.treeState == s.treeState && SameStates(s.tree, s'.tree)
  {
    hide HandleTo, Posted, Terminal, InFlight;
    if ev :| Post(s, s', capacity, ev) {
    } else if n, pid :| StorePid(s, s', n, pid) {
    }
  }

  ghost predicate SameStates(t: Tree, u: Tree) {
    u.Keys == t.Keys && forall n :: n in t ==> u[n].state == t[n].state
  }

  /** Once the loop has ended, nothing that happens (other merges aside) changes the
      state of a node or the report: what a late merge launched works for nobody. */
  lemma {:induction false} NothingMovesAfterEnd(run: seq<RState>, capacity: nat, i: nat)
    requires i < |run| && !run[0].running
    requires forall k {:trigger RunStep(run, capacity, k)} :: 0 <= k < |run| - 1 ==> RunStep(run, capacity, k)
    ensures !run[i].running && run[i].treeState == run[0].treeState && SameStates(run[0].tree, run[i].tree)
  {
    hide Step;
    if i > 0 {
      NothingMovesAfterEnd(run, capacity, i - 1);
      assert RunStep(run, capacity, i - 1);
      EndedStep(run[i - 1], run[i], capacity);
    }
  }

  // --- a run that a refused merge misleads --------------------------------------------------

  const A := Name("a")
  const C := Name("c")
  const G := Name("g")

  function Node(intent: string, deps: seq<Name>, st: NodeState, result: string): NodeView {
    NodeView(intent, "", "", "", deps, st, 0, result, "", 0, 1, 0)
  }

  /** Node a in the given state, and a pending node c with the given dependency. */
  function Pair(st: NodeState, result: string, dep: Name): Tree {
    map[A := Node("i", [], st, result), C := Node("j", [dep], Pending, "")]
  }

  lemma NamesDiffer()
    ensures A != C && A != G && C != G
  {
    assert A.text[0] != C.text[0] && A.text[0] != G.text[0] && C.text[0] != G.text[0];
  }

  lemma PairRuns(st: NodeState, result: string, dep: Name)
    requires dep == G || (dep == A && st != Completed)
    ensures RunnableSet(Pair(st, result, dep)) == if st == Pending || st == Retrying then {A} else {}
    ensures SpawnAll(Pair(st, result, dep)) ==
              if st == Pending || st == Retrying then Pair(Executing, result, dep) else Pair(st, result, dep)
    ensures forall default :: Defaulted(Pair(st, result, dep), default) == Pair(st, result, dep)
  {
    NamesDiffer();
    var t := Pair(st, result, dep);
    assert dep in t[C].dependsOn;
    assert !Runnable(t, C);
    assert Runnable(t, A) <==> st == Pending || st == Retrying;
  }

  /** The batch repeats the intent of c with a dependency on an unknown node. */
  lemma PairRefused(st: NodeState, result: string)
    ensures var batch := [NewNode(C, "j", "", "", [G])];
            var m := EnterAll(Pair(st, result, A), batch);
            !Acceptable(m.tree) && RollBack(m) == Rolled(Pair(st, result, G))
  {
    NamesDiffer();
    var t, batch := Pair(st, result, A), [NewNode(C, "j", "", "", [G])];
    assert batch[..0] == [];
    assert EnterAll(t, batch) == Enter(EnterAll(t, []), batch[0]);
    var m := EnterAll(t, batch);
    assert m.tree == Pair(st, result, G) && m.added == [] && m.snaps == [];
    assert Edge(DepsOf(m.tree), G, C);
    assert (map n | n in m.tree && n !in m.added :: m.tree[n]) == m.tree;
  }

  lemma PairAcceptable()
    ensures AllAtRest(Pair(Pending, "", A)) && Acceptable(Pair(Pending, "", A))
  {
    NamesDiffer();
    RankedIsAcyclic(DepsOf(Pair(Pending, "", A)), map[A := 0, C := 1]);
  }

  ghost function Launching(default: int): RState {
    RState(Pair(Executing, "", A), Executing, 1, multiset{A}, [], true, true, multiset{A}, 0)
  }

  lemma PairBegins(default: int)
    ensures Begin(Pair(Pending, "", A), default) == Launching(default)
  {
    PairRuns(Pending, "", A);
    assert multiset({A}) == multiset{A};
  }

  lemma PairEnds(s: RState)
    requires s.tree == Pair(Executing, "", G) && s.active == 1 && s.running && s.queue == [Event(A, NodeCompleted, "r")]
    ensures HandleTo(s, Pair(Completed, "r", G),
                     s.(tree := Pair(Completed, "r", G), treeState := Completed, active := 0, queue := [], running := false,
                        handled := s.handled + 1))
  {
    NamesDiffer();
    PairRuns(Completed, "r", G);
    var t' := Pair(Completed, "r", G);
    assert t' == s.tree[A := s.tree[A].(state := Completed, result := "r")];
    var s1 := s.(tree := t', active := 0, queue := s.queue[1..], handled := s.handled + 1);
    assert s1.workers + multiset({}) == s1.workers && s1.spawns + multiset({}) == s1.spawns;
    assert Spawn(s1) == s1;
    assert forall n :: n in t' ==> t'[n].state != Failed;
  }

  /** A batch is refused while a executes; it leaves c waiting for an unknown node.
      When a completes the run ends and reports completed, and c is pending. */
  lemma UnrestoredRefusal(default: int) returns (t: Tree, run: seq<RState>)
    ensures AllAtRest(t) && Acceptable(t) && IsMergeRun(run, t, default, 6) && |run| == 4
    ensures Handle(run[2], run[3]) && !run[3].running && run[3].treeState == Completed
    ensures Has(run[3].tree, C, Pending)
  {
    hide Acceptable, EnterAll, RollBack, SpawnAll, Begin, HandleTo, AllAtRest;
    t := Pair(Pending, "", A);
    PairAcceptable();
    PairBegins(default);
    PairRefused(Executing, "");
    NamesDiffer();
    var ev := Event(A, NodeCompleted, "r");
    var s0 := Launching(default);
    var s1 := s0.(tree := Pair(Executing, "", G));
    var s2 := s1.(workers := s1.workers - multiset{A}, queue := s1.queue + [ev]);
    var s3 := s2.(tree := Pair(Completed, "r", G), treeState := Completed, active := 0, queue := [], running := false,
                  handled := 1);
    assert MergeStep(s0, s1, [NewNode(C, "j", "", "", [G])], default);
    assert Post(s1, s2, 6, ev);
    PairEnds(s2);
    assert Handle(s2, s3);
    run := [s0, s1, s2, s3];
    assert MergeRunStep(run, 6, default, 0) && MergeRunStep(run, 6, default, 1) && MergeRunStep(run, 6, default, 2);
  }

  // --- runs with merges end ----------------------------------------------------------------

  function AttemptsLeft(v: NodeView): int {
    if v.maxRetries > v.retryCount then v.maxRetries - v.retryCount else 0
  }

  function AllAttempts(t: Tree): map<Name, int> {
    map n | n in t :: AttemptsLeft(t[n])
  }

  ghost function Waiting(t: Tree): set<Name> {
    set n | n in t && (t[n].state == Pending || t[n].state == Retrying)
  }

  /** What handling events uses up, whatever was merged before. */
  ghost function Effort(s: RState): int {
    3 * Sum(AllAttempts(s.tree)) + 2 * |Waiting(s.tree)| + |InFlight(s)|
  }

  lemma EffortNonNegative(s: RState)
    ensures Effort(s) >= 0
  {
    hide Sum;
    WorthsNonNegative(AllAttempts(s.tree));
  }

  lemma SpawnWaiting(t: Tree)
    ensures Waiting(SpawnAll(t)) == Waiting(t) - RunnableSet(t) && RunnableSet(t) <= Waiting(t)
    ensures AllAttempts(SpawnAll(t)) == AllAttempts(t)
  {
  }

  lemma SpawnEffort(s: RState)
    ensures Effort(Spawn(s)) <= Effort(s)
  {
    hide Sum, InFlight, SpawnAll, RunnableSet, Waiting, AllAttempts;
    RunnableIsCounted(s);
    SpawnWaiting(s.tree);
    var w, r := Waiting(s.tree), RunnableSet(s.tree);
    assert w == (w - r) + r && |w| == |w - r| + |r|;
  }

  /** An event costs its node an attempt, or leaves it less to wait for. */
  lemma EffectNodeEffort(t: Tree, t': Tree, ev: Event, n: Name)
    requires EventEffect(t, t', ev) && n in t
    ensures n in t'
    ensures AttemptsLeft(t'[n]) <= AttemptsLeft(t[n]) - if n == ev.node && Retries(t, ev) then 1 else 0
    ensures n in Waiting(t') ==> n in Waiting(t) || (n == ev.node && Retries(t, ev))
  {
    hide MarkedFailed;
    if ev.node in t && ev.kind != NodeCompleted && !Retries(t, ev) {
      MarkedFailedFields(t[ev.node := Counted(t[ev.node])], t', ev.node, ev.text);
    }
  }

  lemma EffectEffort(s: RState, t': Tree)
    requires s.queue != [] && EventEffect(s.tree, t', s.queue[0])
    ensures Effort(Effected(s, t')) < Effort(s)
  {
    hide Sum, Posted, EventEffect, AttemptsLeft, InFlight;
    var t, ev := s.tree, s.queue[0];
    EffectKeepsDeps(t, t', ev);
    assert t'.Keys == DepsOf(t').Keys && t.Keys == DepsOf(t).Keys;
    forall n | n in t
      ensures AllAttempts(t')[n] <= AllAttempts(t)[n] - if n == ev.node && Retries(t, ev) then 1 else 0
      ensures n in Waiting(t') ==> n in Waiting(t) || (n == ev.node && Retries(t, ev))
    {
      EffectNodeEffort(t, t', ev, n);
    }
    FlightDrops(s, t');
    if Retries(t, ev) {
      SumStrict(AllAttempts(t'), AllAttempts(t), ev.node);
      SubsetSize(Waiting(t'), Waiting(t) + {ev.node});
      assert |Waiting(t) + {ev.node}| <= |Waiting(t)| + 1;
    } else {
      SumMonotone(AllAttempts(t'), AllAttempts(t));
      SubsetSize(Waiting(t'), Waiting(t));
    }
  }

  lemma FlightDrops(s: RState, t': Tree)
    requires s.queue != []
    ensures |InFlight(Effected(s, t'))| == |InFlight(s)| - 1
  {
    HandledIsOut(s);
    HeadInFlight(s);
  }

  /** Every handled event lessens the effort left, on any tree and after any merges. */
  lemma HandleEffort(s: RState, s': RState)
    requires Handle(s, s')
    ensures Effort(s') < Effort(s)
  {
    hide Effort, EventEffect, Posted, Runnable, Terminal;
    var t' :| HandleTo(s, t', s');
    EffectEffort(s, t');
    SpawnEffort(Effected(s, t'));
    var ev := s.queue[0];
    if ev.kind == NodeCompleted || Retries(s.tree, ev) {
      SameEffort(Spawn(Effected(s, t')), s');
    } else {
      SameEffort(Effected(s, t'), s');
    }
  }

  lemma SameEffort(s: RState, s': RState)
    requires s'.tree == s.tree && s'.workers == s.workers && s'.queue == s.queue
    ensures Effort(s') == Effort(s)
  {
    hide Posted, Sum;
  }
}
