/** The compose engine itself: quotas, the goroutines of a layer, the collection of
    results, and the walk over a node's upstream. */
module ComposeEngine {
  import opened Names
  import opened Graph
  import opened Sums
  import opened DependencyDag
  import opened Budgets
  import opened ComposeRules

  datatype AgentSpec = AgentSpec(priority: Priority, maxTokens: int)

  /** The token limit an agent is spawned with; 0 means none. */
  function Capped(maxTokens: int, quota: int): int {
    if quota <= 0 then maxTokens
    else if maxTokens > 0 then if quota < maxTokens then quota else maxTokens
    else quota
  }

  function Priorities(specs: map<Name, AgentSpec>): map<Name, Priority> {
    map a | a in specs :: specs[a].priority
  }

  ghost function QuotaOf(specs: map<Name, AgentSpec>, budget: int, a: Name): int
    requires a in specs
  {
    if budget > 0 && Sum(AgentWeights(Priorities(specs))) > 0 then EngineQuotas(Priorities(specs), budget)[a] else 0
  }

  ghost function LimitOf(specs: map<Name, AgentSpec>, budget: int, a: Name): int
    requires a in specs
  {
    Capped(specs[a].maxTokens, QuotaOf(specs, budget, a))
  }

  ghost function Limits(specs: map<Name, AgentSpec>, budget: int): map<Name, int> {
    map a | a in specs :: LimitOf(specs, budget, a)
  }

  lemma {:induction false} AgentWeightsPositive<N>(agents: map<N, Priority>)
    requires agents != map[]
    ensures Sum(AgentWeights(agents)) > 0
    decreases |agents|
  {
    var a :| a in agents;
    SumPick(AgentWeights(agents), a);
    assert AgentWeights(agents) - {a} == AgentWeights(agents - {a});
    if agents - {a} == map[] {
      assert AgentWeights(agents - {a}) == map[];
    } else {
      AgentWeightsPositive(agents - {a});
    }
  }

  /** The agent's part of the budget is at least one token. */
  ghost predicate EarnsAToken(specs: map<Name, AgentSpec>, budget: nat, a: Name)
    requires a in specs
  {
    budget * specs[a].priority.Weight() >= Sum(AgentWeights(Priorities(specs)))
  }

  /** An agent is held to its quota exactly if its part of the budget does not round
      down to nothing; one that is not keeps its own setting, and runs without any
      limit if it has none. */
  lemma LimitedAgents(specs: map<Name, AgentSpec>, budget: nat, a: Name)
    requires a in specs
    ensures 0 < LimitOf(specs, budget, a) <= QuotaOf(specs, budget, a) <==> EarnsAToken(specs, budget, a)
    ensures !EarnsAToken(specs, budget, a) ==> LimitOf(specs, budget, a) == specs[a].maxTokens
    ensures EarnsAToken(specs, budget, a) ==>
              var own, quota := specs[a].maxTokens, QuotaOf(specs, budget, a);
              LimitOf(specs, budget, a) == if 0 < own < quota then own else quota
  {
    hide Sum, Share;
    var w, total := specs[a].priority.Weight(), Sum(AgentWeights(Priorities(specs)));
    assert a in Priorities(specs);
    AgentWeightsPositive(Priorities(specs));
    ShareBounds(budget, w, total);
    Divided(total, Share(budget, w, total), 0);
    Divided(total, 0, Share(budget, w, total) + 1);
    if Share(budget, w, total) >= 1 {
      TimesAtMost(total, 1, Share(budget, w, total));
    } else {
      TimesAtMost(total, Share(budget, w, total) + 1, 1);
    }
  }

  lemma TimesAtMost(total: int, a: int, b: int)
    requires total > 0 && a <= b
    ensures total * a <= total * b
  {
  }

  /** The limits of the agents that earn a token stay within the budget together,
      so all limits do if every agent earns one. */
  lemma LimitsFitTheBudget(specs: map<Name, AgentSpec>, budget: nat)
    requires specs != map[]
    ensures Sum(map a | a in specs :: if EarnsAToken(specs, budget, a) then LimitOf(specs, budget, a) else 0) <= budget
    ensures (forall a :: a in specs ==> EarnsAToken(specs, budget, a)) ==> Sum(Limits(specs, budget)) <= budget
  {
    hide Sum, Share, LimitOf, EarnsAToken;
    var agents := Priorities(specs);
    var w := AgentWeights(agents);
    var earned := map a | a in specs :: if EarnsAToken(specs, budget, a) then LimitOf(specs, budget, a) else 0;
    var a0 :| a0 in specs;
    assert a0 in agents;
    AgentWeightsPositive(agents);
    assert w.Keys == specs.Keys && a0 in w;
    var quotas := Shares(budget, w);
    forall a | a in specs ensures earned[a] <= quotas[a] {
      LimitedAgents(specs, budget, a);
      ShareIsQuota(specs, budget, a);
    }
    SharesFillTheBudget(budget, w);
    SumMonotone(earned, quotas);
    if forall a :: a in specs ==> EarnsAToken(specs, budget, a) {
      assert earned == Limits(specs, budget);
    }
  }

  lemma ShareIsQuota(specs: map<Name, AgentSpec>, budget: nat, a: Name)
    requires a in specs && Sum(AgentWeights(Priorities(specs))) > 0
    ensures var q := Shares(budget, AgentWeights(Priorities(specs))); a in q && 0 <= q[a] && QuotaOf(specs, budget, a) <= q[a]
  {
    hide Sum, Share;
    var w := AgentWeights(Priorities(specs));
    ShareBounds(budget, w[a], Sum(w));
    Divided(Sum(w), 0, Share(budget, w[a], Sum(w)) + 1);
  }

  /** Two agents without limits of their own and a budget of one token: neither
      earns a token, and both run without any limit. */
  lemma TinyBudget() returns (specs: map<Name, AgentSpec>)
    ensures |specs| == 2
    ensures forall a :: a in specs ==> QuotaOf(specs, 1, a) == 0 && LimitOf(specs, 1, a) == 0
  {
    var one, two := Name("a"), Name("b");
    assert one != two by { assert one.text[0] != two.text[0]; }
    specs := map[one := AgentSpec(Normal, 0), two := AgentSpec(Normal, 0)];
    var w := AgentWeights(Priorities(specs));
    assert w == map[one := 5, two := 5];
    SumPick(w, one);
    assert w - {one} == map[two := 5];
    SumPick(w - {one}, two);
    assert w - {one} - {two} == map[];
    assert forall a :: a in specs ==> Share(1, 5, 10) == 0;
  }

  /** What attempting a node with a given token limit yields. */
  type World = (Name, int) -> Outcome

  ghost function OutcomesUnder(world: World, specs: map<Name, AgentSpec>, budget: int): Outcomes {
    map a | a in specs :: world(a, LimitOf(specs, budget, a))
  }

  /** Every process has a pid of its own. */
  ghost predicate FreshPids(outcomes: Outcomes) {
    forall a, b :: a in outcomes && b in outcomes && a != b && outcomes[a].pid != 0 ==> outcomes[a].pid != outcomes[b].pid
  }

  datatype RunEnd = Finished | BudgetUsedUp | Cyclic

  class Engine {
    const dag: Dag
    const specs: map<Name, AgentSpec>
    const tokenBudget: int
    const pool: BudgetPool?
    const world: World

    constructor (dag: Dag, specs: map<Name, AgentSpec>, tokenBudget: int, world: World)
      requires dag.Consistent() && specs.Keys == dag.nodes.Keys
      requires Covers(OutcomesUnder(world, specs, tokenBudget), dag.Deps())
      ensures this.dag == dag && this.specs == specs && this.tokenBudget == tokenBudget && this.world == world
      ensures Valid() && Fresh()
      ensures pool != null ==> fresh(pool)
    {
      this.dag, this.specs, this.tokenBudget, this.world := dag, specs, tokenBudget, world;
      if tokenBudget > 0 {
        var p := new BudgetPool(tokenBudget);
        pool := p;
      } else {
        pool := null;
      }
    }

    ghost predicate Valid() {
      && dag.Consistent() && specs.Keys == dag.nodes.Keys
      && Covers(Outcomes(), dag.Deps())
      && (pool != null <==> tokenBudget > 0)
      && (pool != null ==> pool.totalBudget == tokenBudget)
    }

    ghost predicate Fresh()
      reads pool
    {
      pool != null ==> pool.consumed == 0 && pool.quotas == map[]
    }

    ghost function Outcomes(): ComposeRules.Outcomes {
      OutcomesUnder(world, specs, tokenBudget)
    }

    ghost function Budget(): nat {
      if tokenBudget > 0 then tokenBudget else 0
    }

    /** Every agent's weight, and their total. */
    method WeighAgents() returns (weights: map<Name, int>, total: int)
      ensures weights == AgentWeights(Priorities(specs)) && total == Sum(weights)
    {
      hide Sum, AgentWeights, Priorities;
      total, weights := 0, map[];
      var remaining := specs;
      while remaining != map[]
        invariant remaining.Keys <= specs.Keys && forall a :: a in remaining ==> remaining[a] == specs[a]
        invariant weights.Keys == specs.Keys - remaining.Keys
        invariant forall a :: a in weights ==> weights[a] == specs[a].priority.Weight()
        invariant total + Sum(AgentWeights(Priorities(remaining))) == Sum(AgentWeights(Priorities(specs)))
        decreases |remaining|
      {
        var name :| name in remaining;
        var weight := remaining[name].priority.Weight();
        WeightPicked(remaining, name);
        weights := weights[name := weight];
        total := total + weight;
        remaining := remaining - {name};
      }
      NoWeight(weights, specs);
    }

    /** The quota of every agent, or none without a pool. */
    method ComputeAgentQuotas() returns (quotas: map<Name, int>)
      requires Valid()
      ensures forall a :: a in specs ==> (if a in quotas then quotas[a] else 0) == QuotaOf(specs, tokenBudget, a)
    {
      hide Sum, Covers, Dag.Consistent;
      quotas := map[];
      if pool == null { return; }
      var weights, totalWeight := WeighAgents();
      if totalWeight > 0 {
        quotas := map a | a in weights :: tokenBudget * weights[a] / totalWeight;
      }
    }

    /** Whether no dependency has failed. */
    method DependenciesOk(deps: seq<Name>, results: Results) returns (ok: bool)
      ensures ok <==> !DependencyFailed(deps, results)
    {
      ok := true;
      for i := 0 to |deps|
        invariant ok <==> !DependencyFailed(deps[..i], results)
      {
        assert deps[..i + 1] == deps[..i] + [deps[i]];
        if deps[i] in results && results[deps[i]].error != NoError {
          ok := false;
          assert deps[i] in deps;
          break;
        }
      }
      assert ok ==> deps[..|deps|] == deps;
    }

    /** No node outside `done` has registered its process. */
    ghost predicate OnlyRegistered(done: set<Name>)
      reads pool
    {
      pool != null ==>
        forall a :: a in Outcomes() && a !in done && Outcomes()[a].pid != 0 ==> Outcomes()[a].pid !in pool.quotas
    }

    ghost predicate Accounts(consumed: int)
      reads pool
    {
      pool != null ==> pool.consumed == consumed && pool.Balanced()
    }

    ghost predicate Knows(pid: nat)
      reads pool
    {
      pool != null && pid != 0 ==> pid in pool.quotas
    }

    /** Runs one node to its end: spawns it with its token limit, registers its
        process with the pool, and waits. */
    method ExecuteNode(name: Name, quotas: map<Name, int>, ghost done: set<Name>, ghost consumed: int)
      returns (r: ScheduleResult)
      requires Valid() && FreshPids(Outcomes())
      requires name in specs && name !in done && OnlyRegistered(done) && Accounts(consumed)
      requires forall a :: a in specs ==> (if a in quotas then quotas[a] else 0) == QuotaOf(specs, tokenBudget, a)
      modifies if pool != null then {pool} else {}
      ensures r == ScheduleResult(name, Outcomes()[name].pid, Outcomes()[name].failure, Outcomes()[name].tokens)
      ensures OnlyRegistered(done + {name}) && Accounts(consumed) && Knows(r.pid)
      ensures pool != null ==> old(pool.quotas.Keys) <= pool.quotas.Keys
    {
      hide Covers, Dag.Consistent, QuotaOf, Sum;
      var maxTokens := specs[name].maxTokens;
      if name in quotas && quotas[name] > 0 {
        if maxTokens > 0 {
          if quotas[name] < maxTokens { maxTokens := quotas[name]; }
        } else {
          maxTokens := quotas[name];
        }
      }
      assert maxTokens == LimitOf(specs, tokenBudget, name);
      var o := world(name, maxTokens);
      assert o == Outcomes()[name];
      if o.pid != 0 && pool != null {
        assert o.pid !in pool.quotas;
        var quota := pool.AllocateQuota(o.pid, name.text, specs[name].priority);
      }
      r := ScheduleResult(name, o.pid, o.failure, o.tokens);
    }

    ghost predicate KnowsAll(rs: seq<ScheduleResult>)
      reads pool
    {
      forall i :: 0 <= i < |rs| ==> Knows(rs[i].pid)
    }

    ghost predicate Blocked(results: Results, n: Name)
      requires n in dag.nodes
    {
      DependencyFailed(dag.nodes[n].dependsOn, results)
    }

    /** `r` is the result of a node that did not have to run. */
    ghost predicate Filed(results: Results, n: Name, r: ScheduleResult)
      requires n in dag.nodes && n in Outcomes()
    {
      r == ResultOf(dag.Deps(), results, Outcomes(), n)
    }

    ghost predicate InDag(layer: seq<Name>) {
      Distinct(layer) && forall i :: 0 <= i < |layer| ==> layer[i] in dag.nodes && layer[i] in Outcomes()
    }

    /** Files a result for every node with a failed dependency; the others are
        pending. */
    method CheckUpstream(layer: seq<Name>, results: Results,
            layerResults: array<ScheduleResult>) returns (pending: set<nat>)
      requires InDag(layer) && layerResults.Length == |layer|
      modifies layerResults
      ensures forall j :: j in pending <==> 0 <= j < |layer| && !Blocked(results, layer[j])
      ensures forall j :: 0 <= j < |layer| && j !in pending ==>
                Filed(results, layer[j], layerResults[j]) && layerResults[j].pid == 0
    {
      hide DependencyFailed, Distinct, Outcomes, Filed;
      pending := {};
      for i := 0 to |layer|
        invariant forall j :: j in pending <==> 0 <= j < i && !Blocked(results, layer[j])
        invariant forall j :: 0 <= j < i && j !in pending ==>
                    Filed(results, layer[j], layerResults[j]) && layerResults[j].pid == 0
      {
        var allDepsOK := DependenciesOk(dag.nodes[layer[i]].dependsOn, results);
        if allDepsOK {
          pending := pending + {i};
        } else {
          layerResults[i] := ScheduleResult(layer[i], 0, UpstreamFailed, 0);
          FiledAsFailed(results, layer[i]);
        }
      }
    }

    lemma FiledAsFailed(results: Results, n: Name)
      requires n in dag.nodes && n in Outcomes() && Blocked(results, n)
      ensures Filed(results, n, ScheduleResult(n, 0, UpstreamFailed, 0))
    {
    }

    lemma FiledAsRun(results: Results, n: Name, r: ScheduleResult)
      requires n in dag.nodes && n in Outcomes() && !Blocked(results, n)
      requires r == ScheduleResult(n, Outcomes()[n].pid, Outcomes()[n].failure, Outcomes()[n].tokens)
      ensures Filed(results, n, r)
    {
    }

    ghost predicate Pending(layer: seq<Name>, results: Results, ran: set<Name>, j: nat)
      requires InDag(layer)
    {
      j < |layer| && !Blocked(results, layer[j]) && layer[j] !in ran
    }

    /** The nodes whose dependencies are in order run concurrently and finish in
        any order; the others get their result at once.  Either way the results
        come out in the order of the layer. */
    method RunLayer(layer: seq<Name>, results: Results, quotas: map<Name, int>, ghost done: set<Name>,
            ghost consumed: int)
      returns (rs: seq<ScheduleResult>)
      requires Valid() && FreshPids(Outcomes()) && InDag(layer)
      requires forall i :: 0 <= i < |layer| ==> layer[i] !in done
      requires OnlyRegistered(done) && Accounts(consumed)
      requires forall a :: a in specs ==> (if a in quotas then quotas[a] else 0) == QuotaOf(specs, tokenBudget, a)
      modifies if pool != null then {pool} else {}
      ensures |rs| == |layer| && KnowsAll(rs) && forall i :: 0 <= i < |layer| ==> Filed(results, layer[i], rs[i])
      ensures OnlyRegistered(done + Elements(layer)) && Accounts(consumed)
    {
      hide Covers, Dag.Consistent, QuotaOf, Blocked, FreshPids, Accounts, Filed, OnlyRegistered, Outcomes;
      var layerResults := new ScheduleResult[|layer|](_ => ScheduleResult(Name(""), 0, NoError, 0));
      var pending := CheckUpstream(layer, results, layerResults);
      ghost var ran: set<Name> := {};
      assert done + ran == done;
      while pending != {}
        invariant forall j :: j in pending ==> Pending(layer, results, ran, j)
        invariant forall j :: 0 <= j < |layer| && j !in pending ==>
                    Filed(results, layer[j], layerResults[j]) && Knows(layerResults[j].pid)
        invariant ran <= Elements(layer)
        invariant OnlyRegistered(done + ran) && Accounts(consumed)
        decreases pending
      {
        var i :| i in pending;
        assert Pending(layer, results, ran, i);
        var r := ExecuteNode(layer[i], quotas, done + ran, consumed);
        layerResults[i] := r;
        FiledAsRun(results, layer[i], r);
        pending := pending - {i};
        assert done + ran + {layer[i]} == done + (ran + {layer[i]});
        ran := ran + {layer[i]};
      }
      rs := layerResults[..];
      RegisteredFewer(done + ran, done + Elements(layer));
    }

    lemma RegisteredFewer(done: set<Name>, more: set<Name>)
      requires OnlyRegistered(done) && done <= more
      ensures OnlyRegistered(more)
    {
    }

    /** Takes the results of a layer over into the run's own, and records what was
        consumed. */
    method CollectLayer(rs: seq<ScheduleResult>, results: Results, all: seq<ScheduleResult>,
            ghost done: set<Name>, ghost consumed: int)
      returns (results': Results, all': seq<ScheduleResult>)
      requires OnlyRegistered(done) && Accounts(consumed) && KnowsAll(rs)
      modifies pool
      ensures results' == Collect(results, rs) && all' == all + rs
      ensures OnlyRegistered(done) && Accounts(consumed + Spent(rs)) && Accounts(consumed + Sum(TokensOf(rs)))
    {
      hide FreshPids, Sum, OutcomesUnder, TokensOf;
      SpentIsSum(rs);
      results', all' := results, all;
      for i := 0 to |rs|
        invariant results' == Collect(results, rs[..i]) && all' == all + rs[..i]
        invariant OnlyRegistered(done) && Accounts(consumed + Spent(rs[..i])) && KnowsAll(rs)
      {
        var r := rs[i];
        assert Knows(r.pid);
        assert rs[..i + 1][..i] == rs[..i] && rs[..i + 1][i] == r;
        if r.pid != 0 && r.tokens > 0 && pool != null {
          var known := pool.RecordUsage(r.pid, r.tokens);
        }
        all' := all' + [r];
        results' := results'[r.name := r];
      }
      assert rs[..|rs|] == rs;
    }

    // --- the whole run --------------------------------------------------------------

    ghost function After(layers: seq<seq<Name>>, k: nat): RunState
      requires k <= |layers| && Layered(layers)
    {
      AfterLayers(dag.Deps(), layers, Outcomes(), Budget(), k)
    }

    ghost predicate Layered(layers: seq<seq<Name>>) {
      Schedulable(dag.Deps(), layers, Outcomes())
    }

    lemma IsLayered(layers: seq<seq<Name>>)
      requires Valid() && Layering(dag.Deps(), layers)
      ensures Layered(layers)
      ensures forall k :: 0 <= k < |layers| ==> InDag(layers[k])
    {
      hide LongestChain, Sorted, Distinct, Valid, Outcomes, Dag.Deps;
      forall k, n | 0 <= k < |layers| && n in layers[k] ensures n in dag.nodes && n in Outcomes() {
        IsKnown(n);
      }
      forall k | 0 <= k < |layers| ensures InDag(layers[k]) {
        forall i | 0 <= i < |layers[k]| ensures layers[k][i] in dag.nodes && layers[k][i] in Outcomes() {
          assert layers[k][i] in layers[k];
        }
      }
    }

    lemma IsKnown(n: Name)
      requires Valid() && n in dag.Deps()
      ensures n in dag.nodes && n in Outcomes()
    {
      assert n in specs;
    }

    ghost function Done(layers: seq<seq<Name>>, k: nat): set<Name>
      requires k <= |layers|
    {
      Elements(Flatten(layers, k))
    }

    /** A node's layer comes only once. */
    lemma NotYetDone(layers: seq<seq<Name>>, k: nat, n: Name)
      requires Valid() && Layering(dag.Deps(), layers) && k < |layers| && n in layers[k] && Layered(layers)
      ensures n !in Done(layers, k) && n !in After(layers, k).results
    {
      hide LongestChain, Sorted, Distinct;
      FlattenDistinct(dag.Deps(), layers, k);
      ResultKeys(dag.Deps(), layers, Outcomes(), Budget(), k, n);
      if j :| 0 <= j < k && n in layers[j] {
        LayerIsUnique(dag.Deps(), layers, n, j, k);
      }
    }

    lemma LayerRan(layers: seq<seq<Name>>, k: nat, rs: seq<ScheduleResult>)
      requires Layered(layers) && k < |layers| && InDag(layers[k])
      requires !After(layers, k).stopped && !OutOfBudget(Budget(), After(layers, k).consumed)
      requires |rs| == |layers[k]|
      requires forall i :: 0 <= i < |rs| ==> Filed(After(layers, k).results, layers[k][i], rs[i])
      ensures var s, t := After(layers, k), After(layers, k + 1);
              && t.results == Collect(s.results, rs) && t.all == s.all + rs
              && t.consumed == s.consumed + Spent(rs) && !t.stopped
    {
      LayerResultsAt(dag.Deps(), After(layers, k).results, Outcomes(), layers[k], rs);
    }

    /** Every node of a layer that has no result gets the exhaustion error. */
    method FillLayer(layer: seq<Name>, results: Results, all: seq<ScheduleResult>) returns (results': Results,
            all': seq<ScheduleResult>)
      requires Distinct(layer) && forall n :: n in layer ==> n !in results
      ensures results' == Collect(results, Exhausted(layer)) && all' == all + Exhausted(layer)
    {
      hide Distinct, Exhausted, Collect;
      results', all' := results, all;
      NoneExhausted(results, layer);
      for i := 0 to |layer|
        invariant results' == Collect(results, Exhausted(layer[..i])) && all' == all + Exhausted(layer[..i])
        invariant forall j :: i <= j < |layer| ==> layer[j] !in results'
      {
        DiffersFromRest(layer, i);
        OneMoreExhausted(results, layer, i);
        var r := ScheduleResult(layer[i], 0, BudgetExhausted, 0);
        if layer[i] !in results' {
          all' := all' + [r];
          results' := results'[layer[i] := r];
        }
      }
      assert layer[..|layer|] == layer;
    }

    /** Runs every layer in turn.  The result equals a function of the outcomes, so
        the order in which goroutines finish does not show in it. */
    method Execute() returns (all: seq<ScheduleResult>, end: RunEnd, ghost layers: seq<seq<Name>>)
      requires Valid() && Fresh() && FreshPids(Outcomes())
      modifies if pool != null then {pool} else {}
      ensures end == Cyclic <==> !Acyclic(dag.Deps())
      ensures end == Cyclic ==> all == []
      ensures end != Cyclic ==>
                && Layering(dag.Deps(), layers) && Layered(layers)
                && all == After(layers, |layers|).all
                && Reported(dag.Deps(), layers, Outcomes(), Budget(), all)
                && (end == BudgetUsedUp <==>
                      layers != [] && UsedUp(dag.Deps(), layers, Outcomes(), Budget(), |layers| - 1))
                && Accounts(Sum(Costs(dag.Deps(), Outcomes(), Reached(dag.Deps(), layers, Outcomes(), Budget(), |layers|))))
    {
      hide Layering, Reported, UsedUp, Costs, Reached, Dag.Deps, AfterLayers, Layered, Sum, FreshPids, Outcomes, Filed,
           OnlyRegistered, Accounts, InDag, Acyclic, Covers, Dag.Consistent;
      var sorted, ok := TopologicalSort(dag);
      layers := sorted;
      if !ok { return [], Cyclic, layers; }
      IsLayered(sorted);
      all, end := RunLayers(sorted);
      ReportIs(sorted);
    }

    /** What the final list says, from the outcomes alone. */
    lemma ReportIs(layers: seq<seq<Name>>)
      requires Valid() && Layering(dag.Deps(), layers) && Layered(layers)
      ensures var all := After(layers, |layers|).all;
              && Reported(dag.Deps(), layers, Outcomes(), Budget(), all)
              && (After(layers, |layers|).stopped <==>
                    layers != [] && UsedUp(dag.Deps(), layers, Outcomes(), Budget(), |layers| - 1))
              && After(layers, |layers|).consumed ==
                   Sum(Costs(dag.Deps(), Outcomes(), Reached(dag.Deps(), layers, Outcomes(), Budget(), |layers|)))
    {
      hide Layering, Reported, UsedUp, Costs, Reached, Outcomes, Covers, Dag.Deps, Dag.Consistent, Advance;
      ClosedDag();
      RunReports(dag.Deps(), layers, Outcomes(), Budget());
      ConsumedIs(dag.Deps(), layers, Outcomes(), Budget(), |layers|);
      if layers != [] { StopsWhenSpent(dag.Deps(), layers, Outcomes(), Budget(), |layers| - 1); }
    }

    lemma ClosedDag()
      requires Valid()
      ensures Closed(dag.Deps())
    {
    }

    method RunLayers(layers: seq<seq<Name>>) returns (all: seq<ScheduleResult>, end: RunEnd)
      requires Valid() && Fresh() && FreshPids(Outcomes())
      requires Layering(dag.Deps(), layers) && Layered(layers) && forall k :: 0 <= k < |layers| ==> InDag(layers[k])
      modifies if pool != null then {pool} else {}
      ensures all == After(layers, |layers|).all
      ensures end == if After(layers, |layers|).stopped then BudgetUsedUp else Finished
      ensures Accounts(After(layers, |layers|).consumed)
    {
      hide Layering, AfterLayers, Layered, Sum, FreshPids, Outcomes, Filed, OnlyRegistered, InDag, Covers, Done,
           Dag.Consistent, QuotaOf;
      var quotas := ComputeAgentQuotas();
      var results: Results;
      results, all := map[], [];
      FirstState(layers);
      for layerIdx := 0 to |layers|
        invariant results == After(layers, layerIdx).results && all == After(layers, layerIdx).all
        invariant !After(layers, layerIdx).stopped
        invariant OnlyRegistered(Done(layers, layerIdx)) && Accounts(After(layers, layerIdx).consumed)
      {
        var layer := layers[layerIdx];
        forall i | 0 <= i < |layer| ensures layer[i] !in Done(layers, layerIdx) {
          NotYetDone(layers, layerIdx, layer[i]);
        }
        if pool != null && pool.IsExhausted() {
          all := FillRest(layers, layerIdx, results, all);
          return all, BudgetUsedUp;
        }
        var rs := RunLayer(layer, results, quotas, Done(layers, layerIdx), After(layers, layerIdx).consumed);
        LayerRan(layers, layerIdx, rs);
        DoneNext(layers, layerIdx);
        results, all := CollectLayer(rs, results, all, Done(layers, layerIdx + 1), After(layers, layerIdx).consumed);
      }
      end := Finished;
    }

    lemma FirstState(layers: seq<seq<Name>>)
      requires Layered(layers) && Fresh()
      ensures After(layers, 0) == RunState(map[], [], 0, false)
      ensures OnlyRegistered(Done(layers, 0)) && Accounts(0)
    {
    }

    lemma DoneNext(layers: seq<seq<Name>>, k: nat)
      requires k < |layers|
      ensures Done(layers, k + 1) == Done(layers, k) + Elements(layers[k])
    {
    }

    /** Gives every node of the layers from `from` on the exhaustion error. */
    method FillRest(layers: seq<seq<Name>>, from: nat, results: Results,
            all: seq<ScheduleResult>) returns (all': seq<ScheduleResult>)
      requires Valid() && from < |layers| && Layering(dag.Deps(), layers) && Layered(layers)
      requires forall k :: 0 <= k < |layers| ==> InDag(layers[k])
      requires results == After(layers, from).results && all == After(layers, from).all
      requires OutOfBudget(Budget(), After(layers, from).consumed)
      ensures all' == After(layers, |layers|).all
      ensures After(layers, |layers|).stopped && After(layers, |layers|).consumed == After(layers, from).consumed
    {
      hide Layering, AfterLayers, Layered, Outcomes, Covers, Dag.Consistent, Distinct;
      all' := all;
      var results' := results;
      for j := from to |layers|
        invariant results' == After(layers, j).results && all' == After(layers, j).all
        invariant After(layers, j).consumed == After(layers, from).consumed
        invariant j > from ==> After(layers, j).stopped
      {
        forall n | n in layers[j] ensures n !in results' {
          NotYetDone(layers, j, n);
        }
        LayerStopped(layers, j);
        results', all' := FillLayer(layers[j], results', all');
      }
    }

    lemma LayerStopped(layers: seq<seq<Name>>, k: nat)
      requires Layered(layers) && k < |layers|
      requires OutOfBudget(Budget(), After(layers, k).consumed)
      ensures var s, t := After(layers, k), After(layers, k + 1);
              && t.results == Collect(s.results, Exhausted(layers[k])) && t.all == s.all + Exhausted(layers[k])
              && t.consumed == s.consumed && t.stopped
    {
    }
  }

  lemma DiffersFromRest<T>(s: seq<T>, i: nat)
    requires Distinct(s) && i < |s|
    ensures forall j :: i < j < |s| ==> s[j] != s[i]
  {
  }

  lemma NoneExhausted(results: Results, layer: seq<Name>)
    ensures Exhausted(layer[..0]) == [] && Collect(results, []) == results
  {
  }

  lemma OneMoreExhausted(results: Results, layer: seq<Name>, i: nat)
    requires i < |layer|
    ensures var r, before := ScheduleResult(layer[i], 0, BudgetExhausted, 0), Exhausted(layer[..i]);
            && Exhausted(layer[..i + 1]) == before + [r]
            && Collect(results, before + [r]) == Collect(results, before)[layer[i] := r]
  {
    var r, before := ScheduleResult(layer[i], 0, BudgetExhausted, 0), Exhausted(layer[..i]);
    assert layer[..i + 1][..i] == layer[..i];
    assert (before + [r])[..|before|] == before;
  }

  lemma NoWeight(weights: map<Name, int>, specs: map<Name, AgentSpec>)
    requires weights.Keys == specs.Keys && forall a :: a in weights ==> weights[a] == specs[a].priority.Weight()
    ensures Sum(AgentWeights(Priorities(map[]))) == 0
    ensures weights == AgentWeights(Priorities(specs))
  {
    assert AgentWeights(Priorities(map[])) == map[];
  }

  lemma WeightPicked(agents: map<Name, AgentSpec>, name: Name)
    requires name in agents
    ensures Sum(AgentWeights(Priorities(agents))) ==
            agents[name].priority.Weight() + Sum(AgentWeights(Priorities(agents - {name})))
  {
    SumPick(AgentWeights(Priorities(agents)), name);
    assert AgentWeights(Priorities(agents)) - {name} == AgentWeights(Priorities(agents - {name}));
  }

  // --- the walk over a node's upstream -----------------------------------------------

  /** Every name some node depends on. */
  ghost function AllDependencies(g: Deps): set<Name> {
    set n, d | n in g && d in g[n] :: d
  }

  ghost predicate HasAllDependencies(g: Deps, out: set<Name>, n: Name) {
    n in g ==> forall d :: d in g[n] ==> d in out
  }

  class UpstreamWalk {
    const dag: Dag
    var out: set<Name>

    constructor (dag: Dag)
      ensures this.dag == dag && out == {}
    {
      this.dag, out := dag, {};
    }

    /** Adds what `name` depends on; every name it adds brings its own
        dependencies along. */
    method Walk(name: Name)
      requires out <= AllDependencies(dag.Deps())
      modifies this
      ensures old(out) <= out <= AllDependencies(dag.Deps())
      ensures HasAllDependencies(dag.Deps(), out, name)
      ensures forall x :: x in out && x !in old(out) ==> HasAllDependencies(dag.Deps(), out, x) && DependsOn(dag.Deps(), name, x)
      decreases AllDependencies(dag.Deps()) - out
    {
      hide DependsOn, AllDependencies;
      if name !in dag.nodes { return; }
      var deps := dag.nodes[name].dependsOn;
      for i := 0 to |deps|
        invariant old(out) <= out <= AllDependencies(dag.Deps())
        invariant forall j :: 0 <= j < i ==> deps[j] in out
        invariant forall x :: x in out && x !in old(out) ==> HasAllDependencies(dag.Deps(), out, x) && DependsOn(dag.Deps(), name, x)
      {
        var dep := deps[i];
        if dep !in out {
          ghost var before := out;
          IsDependency(dag.Deps(), name, dep);
          out := out + {dep};
          Walk(dep);
          forall x | x in out && x !in before ensures DependsOn(dag.Deps(), name, x) {
            if x != dep { DependsOnUnfolds(dag.Deps(), name, x); }
          }
        }
      }
    }
  }

  lemma IsDependency(g: Deps, n: Name, d: Name)
    requires n in g && d in g[n]
    ensures d in AllDependencies(g) && DependsOn(g, n, d)
  {
    DependsOnUnfolds(g, n, d);
  }

  /** A set that holds a node's dependencies and those of its members holds
      everything upstream. */
  lemma {:induction false} ClosedUpstream(g: Deps, out: set<Name>, n: Name, u: Name, w: seq<Name>)
    requires ChainTo(g, n, u, w) && HasAllDependencies(g, out, n)
    requires forall x :: x in out ==> HasAllDependencies(g, out, x)
    ensures u in out
    decreases |w|
  {
    var k := |w| - 2;
    assert EdgeAt(g, w, k);
    if k > 0 {
      var p := w[..k + 1];
      forall i | 0 <= i < |p| - 1 ensures EdgeAt(g, p, i) {
        assert EdgeAt(g, w, i);
      }
      ClosedUpstream(g, out, w[k], u, p);
    }
  }

  /** The set the walk collects is exactly what the target depends on, whatever
      the graph looks like. */
  method TransitiveUpstream(dag: Dag, target: Name) returns (out: set<Name>)
    ensures forall u :: u in out <==> DependsOn(dag.Deps(), target, u)
  {
    var walk := new UpstreamWalk(dag);
    walk.Walk(target);
    out := walk.out;
    forall u | DependsOn(dag.Deps(), target, u) ensures u in out {
      var w :| ChainTo(dag.Deps(), target, u, w);
      ClosedUpstream(dag.Deps(), out, target, u, w);
    }
  }
}
