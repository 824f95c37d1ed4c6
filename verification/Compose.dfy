/** Layered execution of a compose DAG: which nodes are attempted, what each one's
    result is, and when the budget stops the run.  What a node does once attempted
    is an arbitrary outcome. */
module ComposeRules {
  import opened Names
  import opened Sums
  import opened Graph
  import opened DependencyDag

  datatype Error = NoError | LoadFailed | SpawnFailed | ExitFailed | UpstreamFailed | BudgetExhausted

  datatype ScheduleResult = ScheduleResult(name: Name, pid: nat, error: Error, tokens: int)

  /** What attempting a node yields: its pid (0 if it never got one), its error if
      any, and the tokens it reports. */
  datatype Outcome = Outcome(pid: nat, failure: Error, tokens: int) {
    /** A process exists unless loading or spawning failed. */
    predicate Valid() {
      && (failure == NoError || failure == LoadFailed || failure == SpawnFailed || failure == ExitFailed)
      && (pid == 0 <==> failure == LoadFailed || failure == SpawnFailed)
      && (pid == 0 ==> tokens == 0)
    }
  }

  type Outcomes = map<Name, Outcome>

  ghost predicate Covers(outcomes: Outcomes, g: Deps) {
    g.Keys <= outcomes.Keys && forall n :: n in outcomes ==> outcomes[n].Valid()
  }

  type Results = map<Name, ScheduleResult>

  predicate DependencyFailed(deps: seq<Name>, results: Results) {
    exists d :: d in deps && d in results && results[d].error != NoError
  }

  /** The result of a node whose layer is reached. */
  function ResultOf(g: Deps, results: Results, outcomes: Outcomes, n: Name): ScheduleResult
    requires n in g && n in outcomes
  {
    if DependencyFailed(g[n], results) then ScheduleResult(n, 0, UpstreamFailed, 0)
    else ScheduleResult(n, outcomes[n].pid, outcomes[n].failure, outcomes[n].tokens)
  }

  function LayerResults(g: Deps, results: Results, outcomes: Outcomes, layer: seq<Name>): seq<ScheduleResult>
    requires Known(g, outcomes, layer)
  {
    if layer == [] then []
    else LayerResults(g, results, outcomes, layer[..|layer| - 1])
         + [ResultOf(g, results, outcomes, layer[|layer| - 1])]
  }

  function Exhausted(layer: seq<Name>): seq<ScheduleResult> {
    if layer == [] then []
    else Exhausted(layer[..|layer| - 1]) + [ScheduleResult(layer[|layer| - 1], 0, BudgetExhausted, 0)]
  }

  function Collect(results: Results, rs: seq<ScheduleResult>): Results {
    if rs == [] then results
    else
      var r := rs[|rs| - 1];
      Collect(results, rs[..|rs| - 1])[r.name := r]
  }

  /** Tokens are recorded for processes that got a pid and report a positive
      number. */
  function Spent(rs: seq<ScheduleResult>): nat {
    if rs == [] then 0
    else
      var r := rs[|rs| - 1];
      Spent(rs[..|rs| - 1]) + if r.pid != 0 && r.tokens > 0 then r.tokens else 0
  }

  /** `budget` is 0 when the workflow has none. */
  datatype RunState = RunState(results: Results, all: seq<ScheduleResult>, consumed: nat, stopped: bool)

  predicate OutOfBudget(budget: nat, consumed: nat) {
    budget > 0 && consumed >= budget
  }

  predicate Schedulable(g: Deps, layers: seq<seq<Name>>, outcomes: Outcomes) {
    forall i, n :: 0 <= i < |layers| && n in layers[i] ==> n in g && n in outcomes
  }

  predicate Known(g: Deps, outcomes: Outcomes, layer: seq<Name>) {
    forall n :: n in layer ==> n in g && n in outcomes
  }

  /** One layer: nothing in it runs once the budget is used up. */
  function Advance(g: Deps, s: RunState, layer: seq<Name>, outcomes: Outcomes, budget: nat): RunState
    requires Known(g, outcomes, layer)
  {
    var stop := s.stopped || OutOfBudget(budget, s.consumed);
    var rs := if stop then Exhausted(layer) else LayerResults(g, s.results, outcomes, layer);
    RunState(Collect(s.results, rs), s.all + rs, s.consumed + if stop then 0 else Spent(rs), stop)
  }

  /** The run after the first `k` layers. */
  function AfterLayers(g: Deps, layers: seq<seq<Name>>, outcomes: Outcomes, budget: nat, k: nat): RunState
    requires k <= |layers|
    requires Schedulable(g, layers, outcomes)
  {
    if k == 0 then RunState(map[], [], 0, false)
    else Advance(g, AfterLayers(g, layers, outcomes, budget, k - 1), layers[k - 1], outcomes, budget)
  }

  // --- the names in the results ----------------------------------------------------------

  function NamesOf(rs: seq<ScheduleResult>): seq<Name> {
    if rs == [] then [] else NamesOf(rs[..|rs| - 1]) + [rs[|rs| - 1].name]
  }

  function Flatten(layers: seq<seq<Name>>, k: nat): seq<Name>
    requires k <= |layers|
  {
    if k == 0 then [] else Flatten(layers, k - 1) + layers[k - 1]
  }

  lemma {:induction false} NamesAppend(a: seq<ScheduleResult>, b: seq<ScheduleResult>)
    ensures NamesOf(a + b) == NamesOf(a) + NamesOf(b)
  {
    if b == [] {
      assert a + b == a;
    } else {
      var k := |b| - 1;
      assert (a + b)[..|a + b| - 1] == a + b[..k];
      NamesAppend(a, b[..k]);
    }
  }

  lemma NamesMore(rs: seq<ScheduleResult>, r: ScheduleResult)
    ensures NamesOf(rs + [r]) == NamesOf(rs) + [r.name]
  {
    assert (rs + [r])[..|rs|] == rs;
  }

  lemma {:induction false} LayerNames(g: Deps, results: Results, outcomes: Outcomes, layer: seq<Name>)
    requires Known(g, outcomes, layer)
    ensures NamesOf(LayerResults(g, results, outcomes, layer)) == layer
    ensures NamesOf(Exhausted(layer)) == layer
  {
    hide ResultOf, NamesOf;
    if layer == [] {
      NoNames();
    } else {
      var k := |layer| - 1;
      LayerNames(g, results, outcomes, layer[..k]);
      ResultIsNamed(g, results, outcomes, layer[k]);
      NamesMore(LayerResults(g, results, outcomes, layer[..k]), ResultOf(g, results, outcomes, layer[k]));
      NamesMore(Exhausted(layer[..k]), ScheduleResult(layer[k], 0, BudgetExhausted, 0));
      assert layer == layer[..k] + [layer[k]];
    }
  }

  lemma NoNames()
    ensures NamesOf([]) == []
  {
  }

  lemma ResultIsNamed(g: Deps, results: Results, outcomes: Outcomes, n: Name)
    requires n in g && n in outcomes
    ensures ResultOf(g, results, outcomes, n).name == n
  {
  }

  lemma {:induction false} ResultNames(g: Deps, layers: seq<seq<Name>>, outcomes: Outcomes, budget: nat, k: nat)
    requires k <= |layers| && Schedulable(g, layers, outcomes)
    ensures NamesOf(AfterLayers(g, layers, outcomes, budget, k).all) == Flatten(layers, k)
  {
    hide Advance;
    if k > 0 {
      ResultNames(g, layers, outcomes, budget, k - 1);
      AdvanceNames(g, AfterLayers(g, layers, outcomes, budget, k - 1), layers[k - 1], outcomes, budget);
    }
  }

  lemma AdvanceNames(g: Deps, s: RunState, layer: seq<Name>, outcomes: Outcomes, budget: nat)
    requires Known(g, outcomes, layer)
    ensures NamesOf(Advance(g, s, layer, outcomes, budget).all) == NamesOf(s.all) + layer
  {
    hide LayerResults, Exhausted, Collect, NamesOf, Spent;
    LayerNames(g, s.results, outcomes, layer);
    NamesAppend(s.all, LayerResults(g, s.results, outcomes, layer));
    NamesAppend(s.all, Exhausted(layer));
  }

  lemma {:induction false} FlattenDistinct(g: Deps, layers: seq<seq<Name>>, k: nat)
    requires Layering(g, layers) && k <= |layers|
    ensures Distinct(Flatten(layers, k))
    ensures forall n :: n in Flatten(layers, k) <==> exists i :: 0 <= i < k && n in layers[i]
  {
    hide LongestChain, Sorted;
    if k > 0 {
      FlattenDistinct(g, layers, k - 1);
      var f, l := Flatten(layers, k - 1), layers[k - 1];
      forall n | n in f && n in l ensures false {
        var i :| 0 <= i < k - 1 && n in layers[i];
        LayerIsUnique(g, layers, n, i, k - 1);
      }
      DistinctConcat(f, l);
      forall n ensures n in Flatten(layers, k) <==> exists i :: 0 <= i < k && n in layers[i] {
        if i :| 0 <= i < k && n in layers[i] {
          if i == k - 1 { assert n in l; } else { assert n in f; }
        }
      }
    }
  }

  lemma DistinctConcat<T>(a: seq<T>, b: seq<T>)
    requires Distinct(a) && Distinct(b) && forall x :: x in a ==> x !in b
    ensures Distinct(a + b)
  {
    var c := a + b;
    forall i, j | 0 <= i < j < |c| ensures c[i] != c[j] {
      if i < |a| <= j { assert a[i] in a && b[j - |a|] in b; }
    }
  }

  /** Every node gets exactly one result, in the order of the layers. */
  lemma OneResultEach(g: Deps, layers: seq<seq<Name>>, outcomes: Outcomes, budget: nat)
    requires Layering(g, layers) && Covers(outcomes, g)
    ensures var names := NamesOf(AfterLayers(g, layers, outcomes, budget, |layers|).all);
            && names == Flatten(layers, |layers|) && Distinct(names)
            && forall n :: n in names <==> n in g
  {
    hide LongestChain, Sorted;
    ResultNames(g, layers, outcomes, budget, |layers|);
    FlattenDistinct(g, layers, |layers|);
  }

  // --- which nodes are attempted ---------------------------------------------------------

  /** Layer `k` was reached with the budget already used up. */
  ghost predicate StoppedAt(g: Deps, layers: seq<seq<Name>>, outcomes: Outcomes, budget: nat, k: nat)
    requires k < |layers|
    requires Schedulable(g, layers, outcomes)
  {
    AfterLayers(g, layers, outcomes, budget, k + 1).stopped
  }

  ghost predicate UpstreamFails(g: Deps, outcomes: Outcomes, n: Name)
    requires g.Keys <= outcomes.Keys
  {
    exists u :: u in g && DependsOn(g, n, u) && outcomes[u].failure != NoError
  }

  /** What the run reports for a node, from the outcomes alone. */
  ghost function Verdict(g: Deps, outcomes: Outcomes, stopped: bool, n: Name): ScheduleResult
    requires g.Keys <= outcomes.Keys && n in g
  {
    if stopped then ScheduleResult(n, 0, BudgetExhausted, 0)
    else if UpstreamFails(g, outcomes, n) then ScheduleResult(n, 0, UpstreamFailed, 0)
    else ScheduleResult(n, outcomes[n].pid, outcomes[n].failure, outcomes[n].tokens)
  }

  lemma UpstreamFailsThroughDependency(g: Deps, outcomes: Outcomes, n: Name)
    requires n in g && Closed(g) && g.Keys <= outcomes.Keys
    ensures UpstreamFails(g, outcomes, n) <==>
              exists d :: d in g[n] && d in g && (UpstreamFails(g, outcomes, d) || outcomes[d].failure != NoError)
  {
    hide DependsOn;
    if u :| u in g && DependsOn(g, n, u) && outcomes[u].failure != NoError {
      DependsOnUnfolds(g, n, u);
      if u !in g[n] {
        var d :| d in g[n] && DependsOn(g, d, u);
        assert Edge(g, d, n);
      }
    }
    if d :| d in g[n] && d in g && (UpstreamFails(g, outcomes, d) || outcomes[d].failure != NoError) {
      if UpstreamFails(g, outcomes, d) {
        var u :| u in g && DependsOn(g, d, u) && outcomes[u].failure != NoError;
        DependsOnUnfolds(g, n, u);
      } else {
        DependsOnUnfolds(g, n, d);
      }
    }
  }

  lemma {:induction false} LayerResultsAt(g: Deps, results: Results, outcomes: Outcomes, layer: seq<Name>,
          rs: seq<ScheduleResult>)
    requires Known(g, outcomes, layer)
    requires |rs| == |layer| && forall i :: 0 <= i < |layer| ==> rs[i] == ResultOf(g, results, outcomes, layer[i])
    ensures rs == LayerResults(g, results, outcomes, layer)
  {
    if layer != [] {
      LayerResultsAt(g, results, outcomes, layer[..|layer| - 1], rs[..|layer| - 1]);
    }
  }

  lemma {:induction false} CollectAt(results: Results, rs: seq<ScheduleResult>, n: Name)
    ensures n !in NamesOf(rs) ==> (n in Collect(results, rs) <==> n in results)
    ensures n !in NamesOf(rs) && n in results ==> Collect(results, rs)[n] == results[n]
    ensures n in NamesOf(rs) ==> n in Collect(results, rs) && Collect(results, rs)[n] in rs && Collect(results, rs)[n].name == n
  {
    if rs != [] {
      CollectAt(results, rs[..|rs| - 1], n);
      var names, last := NamesOf(rs[..|rs| - 1]), rs[|rs| - 1].name;
      assert n in names + [last] <==> n in names || n == last;
    }
  }

  lemma {:induction false} LayerEntry(g: Deps, results: Results, outcomes: Outcomes, layer: seq<Name>,
          r: ScheduleResult)
    requires Known(g, outcomes, layer)
    ensures r in LayerResults(g, results, outcomes, layer) ==> r.name in layer && r == ResultOf(g, results, outcomes, r.name)
    ensures r in Exhausted(layer) ==> r == ScheduleResult(r.name, 0, BudgetExhausted, 0)
  {
    if layer != [] {
      LayerEntry(g, results, outcomes, layer[..|layer| - 1], r);
    }
  }

  /** One layer writes a result for each of its nodes and leaves the others. */
  lemma AdvanceWrites(g: Deps, s: RunState, layer: seq<Name>, outcomes: Outcomes, budget: nat, n: Name)
    requires Known(g, outcomes, layer)
    ensures var t := Advance(g, s, layer, outcomes, budget);
            && (n !in layer ==> (n in t.results <==> n in s.results) && (n in s.results ==> t.results[n] == s.results[n]))
            && (n in layer ==>
                  && n in t.results
                  && t.results[n] == if t.stopped then ScheduleResult(n, 0, BudgetExhausted, 0)
                                     else ResultOf(g, s.results, outcomes, n))
  {
    hide LayerResults, Exhausted, Collect, ResultOf, NamesOf, Spent;
    var t := Advance(g, s, layer, outcomes, budget);
    var rs := if t.stopped then Exhausted(layer) else LayerResults(g, s.results, outcomes, layer);
    LayerNames(g, s.results, outcomes, layer);
    CollectAt(s.results, rs, n);
    if n in layer {
      LayerEntry(g, s.results, outcomes, layer, Collect(s.results, rs)[n]);
    }
  }

  lemma {:induction false} ResultKeys(g: Deps, layers: seq<seq<Name>>, outcomes: Outcomes, budget: nat, k: nat, n: Name)
    requires k <= |layers| && Schedulable(g, layers, outcomes)
    ensures n in AfterLayers(g, layers, outcomes, budget, k).results <==> n in Flatten(layers, k)
  {
    hide Advance, ResultOf;
    if k > 0 {
      ResultKeys(g, layers, outcomes, budget, k - 1, n);
      AdvanceWrites(g, AfterLayers(g, layers, outcomes, budget, k - 1), layers[k - 1], outcomes, budget, n);
    }
  }

  lemma {:induction false} StopsForGood(g: Deps, layers: seq<seq<Name>>, outcomes: Outcomes, budget: nat, j: nat,
          k: nat)
    requires j <= k <= |layers| && Schedulable(g, layers, outcomes)
    ensures AfterLayers(g, layers, outcomes, budget, j).stopped ==> AfterLayers(g, layers, outcomes, budget, k).stopped
  {
    hide Advance;
    if j < k {
      StopsForGood(g, layers, outcomes, budget, j, k - 1);
      AdvanceStops(g, AfterLayers(g, layers, outcomes, budget, k - 1), layers[k - 1], outcomes, budget);
    }
  }

  lemma AdvanceStops(g: Deps, s: RunState, layer: seq<Name>, outcomes: Outcomes, budget: nat)
    requires Known(g, outcomes, layer)
    ensures s.stopped ==> Advance(g, s, layer, outcomes, budget).stopped
  {
  }

  lemma ShorterChain(g: Deps, n: Name, k: nat, d: Name, j: nat)
    requires n in g && d in g && d in g[n] && LongestChain(g, n, k) && LongestChain(g, d, j)
    ensures j < k
  {
    assert Edge(g, d, n);
    var w :| EndsIn(g, w, d) && |w| == j + 1;
    WalkAppend(g, w, n);
    assert EndsIn(g, w + [n], n);
  }

  /** Every dependency of a node of layer `k` lies in an earlier layer. */
  lemma DependencyLayer(g: Deps, layers: seq<seq<Name>>, k: nat, n: Name, d: Name) returns (j: nat)
    requires Closed(g) && Layering(g, layers) && k < |layers| && n in layers[k] && d in g[n]
    ensures j < k && d in layers[j]
  {
    hide LongestChain, Sorted, Distinct;
    assert Edge(g, d, n);
    j :| 0 <= j < |layers| && d in layers[j];
    ShorterChain(g, n, k, d, j);
  }

  ghost predicate Settled(g: Deps, layers: seq<seq<Name>>, outcomes: Outcomes, budget: nat, k: nat, j: nat, n: Name)
    requires j < k <= |layers| && g.Keys <= outcomes.Keys && n in g
    requires Schedulable(g, layers, outcomes)
  {
    var s := AfterLayers(g, layers, outcomes, budget, k);
    n in s.results && s.results[n] == Verdict(g, outcomes, StoppedAt(g, layers, outcomes, budget, j), n)
  }

  lemma {:induction false} VerdictsAfter(g: Deps, layers: seq<seq<Name>>, outcomes: Outcomes, budget: nat,
          k: nat, j: nat, n: Name)
    requires Closed(g) && Layering(g, layers) && Covers(outcomes, g)
    requires j < k <= |layers| && n in layers[j]
    ensures Settled(g, layers, outcomes, budget, k, j, n)
    decreases k, 0
  {
    hide LongestChain, Sorted, Distinct, Advance, UpstreamFails, ResultOf;
    AdvanceWrites(g, AfterLayers(g, layers, outcomes, budget, k - 1), layers[k - 1], outcomes, budget, n);
    if j < k - 1 {
      if n in layers[k - 1] { LayerIsUnique(g, layers, n, j, k - 1); }
      VerdictsAfter(g, layers, outcomes, budget, k - 1, j, n);
    } else if !StoppedAt(g, layers, outcomes, budget, j) {
      FreshVerdict(g, layers, outcomes, budget, j, n);
    }
  }

  lemma {:induction false} FreshVerdict(g: Deps, layers: seq<seq<Name>>, outcomes: Outcomes, budget: nat, k: nat,
          n: Name)
    requires Closed(g) && Layering(g, layers) && Covers(outcomes, g)
    requires Schedulable(g, layers, outcomes) && n in g && n in outcomes
    requires k < |layers| && n in layers[k] && !StoppedAt(g, layers, outcomes, budget, k)
    ensures ResultOf(g, AfterLayers(g, layers, outcomes, budget, k).results, outcomes, n) == Verdict(g, outcomes, false, n)
    decreases k, 2
  {
    hide LongestChain, Sorted, Distinct, AfterLayers, UpstreamFails;
    var results := AfterLayers(g, layers, outcomes, budget, k).results;
    forall d | d in g[n]
      ensures d in g && d in results
      ensures results[d].error != NoError <==> UpstreamFails(g, outcomes, d) || outcomes[d].failure != NoError
    {
      DependencyVerdict(g, layers, outcomes, budget, k, n, d);
    }
    UpstreamFailsThroughDependency(g, outcomes, n);
  }

  lemma {:induction false} DependencyVerdict(g: Deps, layers: seq<seq<Name>>, outcomes: Outcomes, budget: nat,
          k: nat, n: Name, d: Name)
    requires Closed(g) && Layering(g, layers) && Covers(outcomes, g)
    requires k < |layers| && n in layers[k] && d in g[n] && !StoppedAt(g, layers, outcomes, budget, k)
    ensures var results := AfterLayers(g, layers, outcomes, budget, k).results;
            d in g && d in results
            && (results[d].error != NoError <==> UpstreamFails(g, outcomes, d) || outcomes[d].failure != NoError)
    decreases k, 1
  {
    hide LongestChain, Sorted, Distinct, AfterLayers, UpstreamFails;
    var j := DependencyLayer(g, layers, k, n, d);
    StopsForGood(g, layers, outcomes, budget, j + 1, k + 1);
    VerdictsAfter(g, layers, outcomes, budget, k, j, d);
  }

  // --- the list that is returned ------------------------------------------------------------

  lemma {:induction false} NamedIn(rs: seq<ScheduleResult>, r: ScheduleResult)
    requires r in rs
    ensures r.name in NamesOf(rs)
  {
    if r != rs[|rs| - 1] {
      NamedIn(rs[..|rs| - 1], r);
    }
  }

  /** A result once returned is the one the run goes on with. */
  lemma {:induction false} ReturnedIsKept(g: Deps, layers: seq<seq<Name>>, outcomes: Outcomes, budget: nat, k: nat,
          r: ScheduleResult)
    requires Layering(g, layers) && Covers(outcomes, g) && k <= |layers|
    requires r in AfterLayers(g, layers, outcomes, budget, k).all
    ensures var results := AfterLayers(g, layers, outcomes, budget, k).results; r.name in results && results[r.name] == r
  {
    hide LongestChain, Sorted, Distinct, Collect, ResultOf, NamesOf, Spent, LayerResults, Exhausted;
    if k > 0 {
      var s, layer := AfterLayers(g, layers, outcomes, budget, k - 1), layers[k - 1];
      AdvanceWrites(g, s, layer, outcomes, budget, r.name);
      if r in s.all {
        ReturnedIsKept(g, layers, outcomes, budget, k - 1, r);
        ResultKeys(g, layers, outcomes, budget, k - 1, r.name);
        NotAgain(g, layers, k - 1, r.name);
      } else {
        LayerEntry(g, s.results, outcomes, layer, r);
        LayerNames(g, s.results, outcomes, layer);
        NamedIn(if s.stopped || OutOfBudget(budget, s.consumed) then Exhausted(layer)
                else LayerResults(g, s.results, outcomes, layer), r);
      }
    }
  }

  lemma NotAgain(g: Deps, layers: seq<seq<Name>>, k: nat, n: Name)
    requires Layering(g, layers) && k < |layers| && n in Flatten(layers, k)
    ensures n !in layers[k]
  {
    hide LongestChain, Sorted, Distinct;
    FlattenDistinct(g, layers, k);
    var i :| 0 <= i < k && n in layers[i];
    if n in layers[k] { LayerIsUnique(g, layers, n, i, k); }
  }

  /** The positive numbers reported by processes that got a pid. */
  ghost function TokensOf(rs: seq<ScheduleResult>): map<nat, int> {
    map i: nat | i < |rs| && rs[i].pid != 0 && rs[i].tokens > 0 :: rs[i].tokens
  }

  lemma {:induction false} SpentIsSum(rs: seq<ScheduleResult>)
    ensures Spent(rs) == Sum(TokensOf(rs))
  {
    if rs == [] {
      SumOfNothing(TokensOf(rs));
    } else {
      var n: nat := |rs| - 1;
      var before := TokensOf(rs[..n]);
      SpentIsSum(rs[..n]);
      if rs[n].pid != 0 && rs[n].tokens > 0 {
        var t := rs[n].tokens;
        assert n !in before && TokensOf(rs) == before[n := t];
        SumInsert(before, n, t);
      } else {
        assert TokensOf(rs) == before;
      }
    }
  }

  lemma {:induction false} NamesCount(rs: seq<ScheduleResult>)
    ensures |NamesOf(rs)| == |rs|
  {
    if rs != [] {
      NamesCount(rs[..|rs| - 1]);
    }
  }

  // --- what a run is charged --------------------------------------------------------------

  function NodesBefore(layers: seq<seq<Name>>, k: nat): set<Name>
    requires k <= |layers|
  {
    set i, n | 0 <= i < k && n in layers[i] :: n
  }

  /** What attempting these nodes costs: the tokens each of them reports, whatever its
      own failure, and nothing for a node below a failure. */
  ghost function Costs(g: Deps, outcomes: Outcomes, ns: set<Name>): map<Name, int>
    requires g.Keys <= outcomes.Keys
  {
    map n | n in ns && n in g && !UpstreamFails(g, outcomes, n) :: if outcomes[n].tokens > 0 then outcomes[n].tokens else 0
  }

  /** Attempting the layers before `k` costs the whole budget. */
  ghost predicate UsedUp(g: Deps, layers: seq<seq<Name>>, outcomes: Outcomes, budget: nat, k: nat)
    requires g.Keys <= outcomes.Keys && k <= |layers|
  {
    budget > 0 && Sum(Costs(g, outcomes, NodesBefore(layers, k))) >= budget
  }

  /** The nodes of the layers reached before the budget is used up. */
  ghost function Reached(g: Deps, layers: seq<seq<Name>>, outcomes: Outcomes, budget: nat, k: nat): set<Name>
    requires g.Keys <= outcomes.Keys && k <= |layers|
  {
    set i, n | 0 <= i < k && n in layers[i] && !UsedUp(g, layers, outcomes, budget, i) :: n
  }

  lemma CostOf(g: Deps, outcomes: Outcomes, ns: set<Name>, n: Name)
    requires g.Keys <= outcomes.Keys && n in g && n !in ns
    ensures Sum(Costs(g, outcomes, ns + {n})) ==
              Sum(Costs(g, outcomes, ns)) + if UpstreamFails(g, outcomes, n) || outcomes[n].tokens <= 0 then 0 else outcomes[n].tokens
  {
    hide UpstreamFails;
    var before, after := Costs(g, outcomes, ns), Costs(g, outcomes, ns + {n});
    if UpstreamFails(g, outcomes, n) {
      assert after == before;
    } else {
      var c := if outcomes[n].tokens > 0 then outcomes[n].tokens else 0;
      assert after == before[n := c];
      SumInsert(before, n, c);
    }
  }

  /** More nodes cost no less. */
  lemma {:induction false} CostsGrow(g: Deps, outcomes: Outcomes, ns: set<Name>, more: set<Name>)
    requires g.Keys <= outcomes.Keys && ns <= more
    ensures Sum(Costs(g, outcomes, ns)) <= Sum(Costs(g, outcomes, more))
    decreases more - ns
  {
    hide UpstreamFails;
    if ns == more {
    } else {
      var n :| n in more && n !in ns;
      if n in g {
        CostOf(g, outcomes, ns, n);
      } else {
        assert Costs(g, outcomes, ns + {n}) == Costs(g, outcomes, ns);
      }
      CostsGrow(g, outcomes, ns + {n}, more);
    }
  }

  /** A layer that is attempted costs what its results report. */
  lemma {:induction false} LayerCosts(g: Deps, results: Results, outcomes: Outcomes, layer: seq<Name>, ns: set<Name>)
    requires Known(g, outcomes, layer) && Covers(outcomes, g) && Distinct(layer)
    requires forall n :: n in layer ==> n !in ns && ResultOf(g, results, outcomes, n) == Verdict(g, outcomes, false, n)
    ensures Sum(Costs(g, outcomes, ns + Elements(layer))) ==
              Sum(Costs(g, outcomes, ns)) + Spent(LayerResults(g, results, outcomes, layer))
  {
    hide UpstreamFails, ResultOf, Costs;
    if layer == [] {
      assert ns + Elements(layer) == ns;
    } else {
      var n, rest := layer[|layer| - 1], layer[..|layer| - 1];
      assert n !in rest;
      LayerCosts(g, results, outcomes, rest, ns);
      CostOf(g, outcomes, ns + Elements(rest), n);
      assert ns + Elements(layer) == ns + Elements(rest) + {n};
      var rs := LayerResults(g, results, outcomes, rest);
      assert (rs + [ResultOf(g, results, outcomes, n)])[..|rs|] == rs;
    }
  }

  lemma NodesNext(layers: seq<seq<Name>>, k: nat)
    requires k < |layers|
    ensures NodesBefore(layers, k + 1) == NodesBefore(layers, k) + Elements(layers[k])
    ensures NodesBefore(layers, 0) == {}
  {
  }

  lemma ReachedNext(g: Deps, layers: seq<seq<Name>>, outcomes: Outcomes, budget: nat, k: nat)
    requires g.Keys <= outcomes.Keys && k < |layers|
    ensures Reached(g, layers, outcomes, budget, k + 1) ==
              Reached(g, layers, outcomes, budget, k) + if UsedUp(g, layers, outcomes, budget, k) then {} else Elements(layers[k])
    ensures Reached(g, layers, outcomes, budget, k) <= NodesBefore(layers, k)
    ensures Reached(g, layers, outcomes, budget, 0) == {}
  {
    hide UsedUp;
  }

  lemma AttemptedLayer(g: Deps, layers: seq<seq<Name>>, outcomes: Outcomes, budget: nat, k: nat, ns: set<Name>)
    requires Closed(g) && Layering(g, layers) && Covers(outcomes, g) && k < |layers|
    requires ns <= NodesBefore(layers, k) && !StoppedAt(g, layers, outcomes, budget, k)
    ensures var s, t := AfterLayers(g, layers, outcomes, budget, k), AfterLayers(g, layers, outcomes, budget, k + 1);
            t.consumed - s.consumed == Sum(Costs(g, outcomes, ns + Elements(layers[k]))) - Sum(Costs(g, outcomes, ns))
  {
    hide LongestChain, Sorted, Distinct, Advance, UpstreamFails, ResultOf, Costs;
    var s := AfterLayers(g, layers, outcomes, budget, k);
    forall n | n in layers[k]
      ensures n !in ns && ResultOf(g, s.results, outcomes, n) == Verdict(g, outcomes, false, n)
    {
      if i :| 0 <= i < k && n in layers[i] { LayerIsUnique(g, layers, n, i, k); }
      FreshVerdict(g, layers, outcomes, budget, k, n);
    }
    LayerCosts(g, s.results, outcomes, layers[k], ns);
    LayerCharged(g, s, layers[k], outcomes, budget);
  }

  lemma LayerCharged(g: Deps, s: RunState, layer: seq<Name>, outcomes: Outcomes, budget: nat)
    requires Known(g, outcomes, layer)
    ensures var t := Advance(g, s, layer, outcomes, budget);
            && t.consumed == s.consumed + (if t.stopped then 0 else Spent(LayerResults(g, s.results, outcomes, layer)))
            && t.stopped == (s.stopped || OutOfBudget(budget, s.consumed))
  {
  }

  lemma {:induction false} ChargedSoFar(g: Deps, layers: seq<seq<Name>>, outcomes: Outcomes, budget: nat, k: nat)
    requires Closed(g) && Layering(g, layers) && Covers(outcomes, g) && k <= |layers|
    ensures var s, cost := AfterLayers(g, layers, outcomes, budget, k), Sum(Costs(g, outcomes, NodesBefore(layers, k)));
            if s.stopped then budget > 0 && budget <= s.consumed <= cost else s.consumed == cost
  {
    hide LongestChain, Sorted, Distinct, Advance, UpstreamFails, Costs;
    if k == 0 {
      NothingCharged(g, outcomes);
      assert NodesBefore(layers, 0) == {};
    } else {
      var j := k - 1;
      ChargedSoFar(g, layers, outcomes, budget, j);
      NodesNext(layers, j);
      LayerCharged(g, AfterLayers(g, layers, outcomes, budget, j), layers[j], outcomes, budget);
      CostsGrow(g, outcomes, NodesBefore(layers, j), NodesBefore(layers, k));
      if !StoppedAt(g, layers, outcomes, budget, j) {
        AttemptedLayer(g, layers, outcomes, budget, j, NodesBefore(layers, j));
      }
    }
  }

  lemma NothingCharged(g: Deps, outcomes: Outcomes)
    requires g.Keys <= outcomes.Keys
    ensures Sum(Costs(g, outcomes, {})) == 0
  {
    SumOfNothing(Costs(g, outcomes, {}));
  }

  /** A layer is not attempted exactly if attempting those before it costs the whole
      budget. */
  lemma StopsWhenSpent(g: Deps, layers: seq<seq<Name>>, outcomes: Outcomes, budget: nat, k: nat)
    requires Closed(g) && Layering(g, layers) && Covers(outcomes, g) && k < |layers|
    ensures StoppedAt(g, layers, outcomes, budget, k) <==> UsedUp(g, layers, outcomes, budget, k)
  {
    hide LongestChain, Sorted, Distinct, Advance, UpstreamFails, Costs;
    ChargedSoFar(g, layers, outcomes, budget, k);
    LayerCharged(g, AfterLayers(g, layers, outcomes, budget, k), layers[k], outcomes, budget);
  }

  /** What a run consumes is the tokens of the nodes attempted. */
  lemma {:induction false} ConsumedIs(g: Deps, layers: seq<seq<Name>>, outcomes: Outcomes, budget: nat, k: nat)
    requires Closed(g) && Layering(g, layers) && Covers(outcomes, g) && k <= |layers|
    ensures AfterLayers(g, layers, outcomes, budget, k).consumed ==
              Sum(Costs(g, outcomes, Reached(g, layers, outcomes, budget, k)))
  {
    hide LongestChain, Sorted, Distinct, Advance, UpstreamFails, Costs, UsedUp;
    if k == 0 {
      NothingCharged(g, outcomes);
      assert Reached(g, layers, outcomes, budget, 0) == {};
    } else {
      var j := k - 1;
      ConsumedIs(g, layers, outcomes, budget, j);
      ReachedNext(g, layers, outcomes, budget, j);
      StopsWhenSpent(g, layers, outcomes, budget, j);
      LayerCharged(g, AfterLayers(g, layers, outcomes, budget, j), layers[j], outcomes, budget);
      if StoppedAt(g, layers, outcomes, budget, j) {
        assert Reached(g, layers, outcomes, budget, k) == Reached(g, layers, outcomes, budget, j);
      } else {
        AttemptedLayer(g, layers, outcomes, budget, j, Reached(g, layers, outcomes, budget, j));
      }
    }
  }

  // --- the report ---------------------------------------------------------------------------

  lemma {:induction false} NamesAt(rs: seq<ScheduleResult>, i: nat)
    requires i < |rs|
    ensures |NamesOf(rs)| == |rs| && NamesOf(rs)[i] == rs[i].name
  {
    NamesCount(rs);
    if i < |rs| - 1 {
      NamesAt(rs[..|rs| - 1], i);
    }
  }

  /** Node `j` of layer `i` has its place after all nodes of the layers before. */
  lemma {:induction false} FlattenAt(layers: seq<seq<Name>>, k: nat, i: nat, j: nat)
    requires i < k <= |layers| && j < |layers[i]|
    ensures |Flatten(layers, i)| + j < |Flatten(layers, k)| && Flatten(layers, k)[|Flatten(layers, i)| + j] == layers[i][j]
    decreases k
  {
    if i < k - 1 {
      FlattenAt(layers, k - 1, i, j);
    }
  }

  /** The result of a node given whether its layer was reached. */
  ghost predicate Truthful(g: Deps, outcomes: Outcomes, usedUp: bool, r: ScheduleResult)
    requires g.Keys <= outcomes.Keys && r.name in g
  {
    if usedUp then r.error == BudgetExhausted && r.pid == 0 && r.tokens == 0
    else if exists u :: u in g && DependsOn(g, r.name, u) && outcomes[u].failure != NoError then
      r.error == UpstreamFailed && r.pid == 0 && r.tokens == 0
    else
      r.error == outcomes[r.name].failure && r.pid == outcomes[r.name].pid && r.tokens == outcomes[r.name].tokens
  }

  /** A list of results that holds one for each node, layer by layer, each of them
      true: exhausted if attempting the layers before costs the whole budget, failed
      upstream if some node it depends on, however far up, fails when attempted, and
      else what its own attempt yields. */
  ghost predicate Reported(g: Deps, layers: seq<seq<Name>>, outcomes: Outcomes, budget: nat, all: seq<ScheduleResult>)
    requires g.Keys <= outcomes.Keys
  {
    && |all| == |Flatten(layers, |layers|)| == |g|
    && (forall i, j :: 0 <= i < |layers| && 0 <= j < |layers[i]| ==> Placed(layers, all, i, j))
    && forall r :: r in all ==> r.name in g && forall k :: 0 <= k < |layers| && r.name in layers[k] ==>
         Truthful(g, outcomes, UsedUp(g, layers, outcomes, budget, k), r)
  }

  predicate Placed(layers: seq<seq<Name>>, all: seq<ScheduleResult>, i: nat, j: nat)
    requires i < |layers| && j < |layers[i]|
  {
    |Flatten(layers, i)| + j < |all| && all[|Flatten(layers, i)| + j].name == layers[i][j]
  }

  lemma DistinctCount<T>(s: seq<T>, m: set<T>)
    requires Distinct(s) && forall x :: x in s <==> x in m
    ensures |s| == |m|
    decreases |s|
  {
    if s == [] {
      assert m == {};
    } else {
      var n := |s| - 1;
      forall x ensures x in s[..n] <==> x in m - {s[n]} {
        if x in m - {s[n]} {
          var i :| 0 <= i < |s| && s[i] == x;
          assert s[..n][i] == x;
        }
      }
      DistinctCount(s[..n], m - {s[n]});
    }
  }

  lemma PlacesNamed(layers: seq<seq<Name>>, all: seq<ScheduleResult>, i: nat, j: nat)
    requires NamesOf(all) == Flatten(layers, |layers|) && i < |layers| && j < |layers[i]|
    ensures Placed(layers, all, i, j)
  {
    hide NamesOf;
    FlattenAt(layers, |layers|, i, j);
    NamesCount(all);
    NamesAt(all, |Flatten(layers, i)| + j);
  }

  /** A run reports truly. */
  lemma RunReports(g: Deps, layers: seq<seq<Name>>, outcomes: Outcomes, budget: nat)
    requires Closed(g) && Layering(g, layers) && Covers(outcomes, g)
    ensures Reported(g, layers, outcomes, budget, AfterLayers(g, layers, outcomes, budget, |layers|).all)
  {
    hide LongestChain, Sorted, AfterLayers, NamesOf, StoppedAt, UsedUp, DependsOn, Truthful, Placed;
    OneResultEach(g, layers, outcomes, budget);
    var all := AfterLayers(g, layers, outcomes, budget, |layers|).all;
    NamesCount(all);
    DistinctCount(NamesOf(all), g.Keys);
    forall i, j | 0 <= i < |layers| && 0 <= j < |layers[i]| ensures Placed(layers, all, i, j) { PlacesNamed(layers, all, i, j); }
    forall r | r in all
      ensures r.name in g
      ensures forall k :: 0 <= k < |layers| && r.name in layers[k] ==>
                Truthful(g, outcomes, UsedUp(g, layers, outcomes, budget, k), r)
    {
      NamedIn(all, r);
      forall k | 0 <= k < |layers| && r.name in layers[k]
        ensures Truthful(g, outcomes, UsedUp(g, layers, outcomes, budget, k), r)
      {
        ResultIsTrue(g, layers, outcomes, budget, r, k);
      }
    }
  }

  lemma ResultIsTrue(g: Deps, layers: seq<seq<Name>>, outcomes: Outcomes, budget: nat, r: ScheduleResult, k: nat)
    requires Closed(g) && Layering(g, layers) && Covers(outcomes, g)
    requires k < |layers| && r.name in layers[k] && r.name in g
    requires r in AfterLayers(g, layers, outcomes, budget, |layers|).all
    ensures Truthful(g, outcomes, UsedUp(g, layers, outcomes, budget, k), r)
  {
    hide LongestChain, Sorted, Distinct, AfterLayers, NamesOf, StoppedAt, UsedUp, DependsOn;
    ReturnedIsKept(g, layers, outcomes, budget, |layers|, r);
    VerdictsAfter(g, layers, outcomes, budget, |layers|, k, r.name);
    StopsWhenSpent(g, layers, outcomes, budget, k);
  }

  /** In the list returned, a node of layer `k` has been attempted exactly when
      attempting the layers before costs less than the budget and no node it depends
      on, however far up, fails when attempted. */
  lemma AttemptedExactly(g: Deps, layers: seq<seq<Name>>, outcomes: Outcomes, budget: nat, k: nat, r: ScheduleResult)
    requires Closed(g) && Layering(g, layers) && Covers(outcomes, g)
    requires k < |layers| && r.name in layers[k]
    requires r in AfterLayers(g, layers, outcomes, budget, |layers|).all
    ensures r.error != BudgetExhausted && r.error != UpstreamFailed <==>
              && !(budget > 0 && Sum(Costs(g, outcomes, NodesBefore(layers, k))) >= budget)
              && forall u :: u in g && DependsOn(g, r.name, u) ==> outcomes[u].failure == NoError
  {
    hide LongestChain, Sorted, Distinct, AfterLayers, DependsOn, NamesOf, Costs, Placed;
    RunReports(g, layers, outcomes, budget);
  }
}
