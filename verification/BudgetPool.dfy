/** The token budget of a compose run: quotas in proportion to priorities, and the
    consumption recorded against them. */
module Budgets {
  import opened Sums

  datatype Priority = Low | Normal | High {
    function Weight(): int {
      match this
      case Low => 1
      case Normal => 5
      case High => 10
    }
  }

  datatype AgentQuota = AgentQuota(name: string, priority: Priority, quota: int, consumed: int)

  function Weights<K>(m: map<K, AgentQuota>): map<K, int> {
    map k | k in m :: m[k].priority.Weight()
  }

  function Consumptions<K>(m: map<K, AgentQuota>): map<K, int> {
    map k | k in m :: m[k].consumed
  }

  /** The share of `budget` that weight `w` earns out of `total`. */
  function Share(budget: nat, w: int, total: int): int
    requires total > 0
  {
    budget * w / total
  }

  ghost function Shares<K>(budget: nat, w: map<K, int>): map<K, int>
    requires Sum(w) > 0
  {
    map k | k in w :: Share(budget, w[k], Sum(w))
  }

  lemma ShareBounds(budget: nat, w: int, total: int)
    requires total > 0
    ensures total * Share(budget, w, total) <= budget * w < total * (Share(budget, w, total) + 1)
  {
  }

  lemma TimesLess(total: int, a: int, b: int)
    requires total > 0 && a < b
    ensures total * a < total * b
  {
  }

  lemma Divided(total: int, a: int, b: int)
    requires total > 0
    ensures total * a <= total * b ==> a <= b
    ensures total * a < total * b ==> a < b
  {
    if b < a { TimesLess(total, b, a); }
  }

  /** Rounding down loses less than one token per agent. */
  lemma SharesFillTheBudget<K>(budget: nat, w: map<K, int>)
    requires w != map[] && Sum(w) > 0
    ensures Sum(Shares(budget, w)) <= budget
    ensures Sum(Shares(budget, w)) > budget - |w|
  {
    hide Share, Sum;
    var total := Sum(w);
    var q := Shares(budget, w);
    assert q.Keys == w.Keys && |q| == |w| by { assert |q| == |q.Keys| && |w| == |w.Keys|; }
    SharesBelow(budget, w);
    SharesAbove(budget, w);
    Divided(total, Sum(q), budget);
    Divided(total, budget, Sum(q) + |w|);
  }

  lemma SharesBelow<K>(budget: nat, w: map<K, int>)
    requires w != map[] && Sum(w) > 0
    ensures Sum(w) * Sum(Shares(budget, w)) <= Sum(w) * budget
  {
    hide Share, Sum;
    var total := Sum(w);
    var q := Shares(budget, w);
    forall k | k in w ensures Scaled(q, total)[k] <= Scaled(w, budget)[k] {
      ShareBounds(budget, w[k], total);
    }
    SumMonotone(Scaled(q, total), Scaled(w, budget));
    SumScale(q, total);
    SumScale(w, budget);
  }

  lemma SharesAbove<K>(budget: nat, w: map<K, int>)
    requires w != map[] && Sum(w) > 0
    ensures Sum(w) * budget < Sum(w) * (Sum(Shares(budget, w)) + |w|)
  {
    hide Share, Sum;
    var total := Sum(w);
    var q := Shares(budget, w);
    var high := Scaled(Shifted(q, 1), total);
    forall k | k in w ensures Scaled(w, budget)[k] < high[k] {
      ShareBounds(budget, w[k], total);
    }
    var k :| k in w;
    SumStrict(Scaled(w, budget), high, k);
    SumScale(w, budget);
    SumScale(Shifted(q, 1), total);
    SumShift(q, 1);
    assert |q| == |w| by { assert q.Keys == w.Keys && |q| == |q.Keys| && |w| == |w.Keys|; }
  }

  lemma WeightsPositive<K>(m: map<K, AgentQuota>)
    requires m != map[]
    ensures Sum(Weights(m)) > 0
    decreases |m|
  {
    var k :| k in m;
    SumPick(Weights(m), k);
    assert Weights(m) - {k} == Weights(m - {k});
    if m - {k} == map[] {
      assert Weights(m - {k}) == map[];
    } else {
      WeightsPositive(m - {k});
    }
  }

  /** Every quota recomputed from the priorities registered. */
  ghost function Reallocated<K>(m: map<K, AgentQuota>, budget: nat): map<K, AgentQuota>
    requires m != map[] ==> Sum(Weights(m)) > 0
  {
    map k | k in m :: m[k].(quota := Share(budget, m[k].priority.Weight(), Sum(Weights(m))))
  }

  /** Every agent has the largest whole number of tokens that is no more than its part
      of the budget, and is otherwise as it was. */
  ghost predicate FairlyShared<K>(m: map<K, AgentQuota>, q: map<K, AgentQuota>, budget: nat) {
    q.Keys == m.Keys
    && forall k :: k in m ==>
         && q[k].name == m[k].name && q[k].priority == m[k].priority && q[k].consumed == m[k].consumed
         && Sum(Weights(m)) * q[k].quota <= budget * m[k].priority.Weight() < Sum(Weights(m)) * (q[k].quota + 1)
  }

  lemma ReallocatedIsFair<K>(m: map<K, AgentQuota>, budget: nat)
    requires m != map[] ==> Sum(Weights(m)) > 0
    ensures FairlyShared(m, Reallocated(m, budget), budget)
  {
    hide Sum, Share;
    forall k | k in m
      ensures var s := Share(budget, m[k].priority.Weight(), Sum(Weights(m)));
              Sum(Weights(m)) * s <= budget * m[k].priority.Weight() < Sum(Weights(m)) * (s + 1)
    {
      ShareBounds(budget, m[k].priority.Weight(), Sum(Weights(m)));
    }
  }

  class BudgetPool {
    const totalBudget: int
    var consumed: int
    var quotas: map<nat, AgentQuota>

    constructor (budget: int)
      ensures totalBudget == budget && consumed == 0 && quotas == map[]
    {
      totalBudget, consumed, quotas := budget, 0, map[];
    }

    /** The pool's total is the sum of what its agents consumed. */
    ghost predicate Balanced()
      reads this
    {
      consumed == Sum(Consumptions(quotas))
    }

    method TotalWeight() returns (total: int)
      ensures total == Sum(Weights(quotas))
    {
      total := 0;
      var remaining := quotas;
      while remaining != map[]
        invariant total + Sum(Weights(remaining)) == Sum(Weights(quotas))
        decreases |remaining|
      {
        var pid :| pid in remaining;
        SumPick(Weights(remaining), pid);
        assert Weights(remaining) - {pid} == Weights(remaining - {pid});
        total := total + remaining[pid].priority.Weight();
        remaining := remaining - {pid};
      }
      assert Weights(remaining) == map[];
    }

    /** Gives every agent its share of the budget. */
    method Recalc()
      requires totalBudget > 0 && quotas != map[]
      requires Sum(Weights(quotas)) > 0
      modifies this`quotas
      ensures quotas == Reallocated(old(quotas), totalBudget) && FairlyShared(old(quotas), quotas, totalBudget)
    {
      hide FairlyShared;
      ReallocatedIsFair(quotas, totalBudget);
      var total := TotalWeight();
      quotas := map k | k in quotas :: quotas[k].(quota := totalBudget * quotas[k].priority.Weight() / total);
    }

    /** Registers an agent and returns its quota.  Registering a pid again forgets
        what it had consumed, which is the one way to unbalance the pool. */
    method AllocateQuota(pid: nat, name: string, priority: Priority) returns (quota: int)
      modifies this`quotas
      ensures quotas.Keys == old(quotas.Keys) + {pid} && quota == quotas[pid].quota
      ensures totalBudget <= 0 ==> quotas == old(quotas)[pid := AgentQuota(name, priority, 0, 0)]
      ensures totalBudget > 0 ==>
                var m := old(quotas)[pid := AgentQuota(name, priority, 0, 0)];
                Sum(Weights(m)) > 0 && quotas == Reallocated(m, totalBudget) && FairlyShared(m, quotas, totalBudget)
      ensures old(Balanced()) ==> (Balanced() <==> pid !in old(quotas) || old(quotas)[pid].consumed == 0)
    {
      hide FairlyShared;
      ghost var before := quotas;
      quotas := quotas[pid := AgentQuota(name, priority, 0, 0)];
      RegistrationBalance(before, pid, quotas[pid]);
      if totalBudget <= 0 {
        return 0;
      }
      WeightsPositive(quotas);
      ghost var m := quotas;
      Recalc();
      assert Consumptions(quotas) == Consumptions(m);
      return quotas[pid].quota;
    }

    /** Records consumption; an unknown pid is an error and changes nothing. */
    method RecordUsage(pid: nat, tokens: int) returns (known: bool)
      modifies this
      ensures known <==> pid in old(quotas)
      ensures !known ==> quotas == old(quotas) && consumed == old(consumed)
      ensures known ==> quotas == old(quotas)[pid := old(quotas)[pid].(consumed := old(quotas)[pid].consumed + tokens)]
                        && consumed == old(consumed) + tokens
      ensures old(Balanced()) ==> Balanced()
    {
      if pid !in quotas {
        return false;
      }
      SumUpdate(Consumptions(quotas), pid, quotas[pid].consumed + tokens);
      assert Consumptions(quotas[pid := quotas[pid].(consumed := quotas[pid].consumed + tokens)]) ==
             Consumptions(quotas)[pid := quotas[pid].consumed + tokens];
      quotas := quotas[pid := quotas[pid].(consumed := quotas[pid].consumed + tokens)];
      consumed := consumed + tokens;
      return true;
    }

    /** A negative budget is never exhausted, a zero one always. */
    predicate IsExhausted()
      reads this
    {
      totalBudget >= 0 && consumed >= totalBudget
    }

    function Remaining(): (r: int)
      reads this
      ensures r >= 0 && r + consumed >= totalBudget && (r == 0 || r + consumed == totalBudget)
      ensures totalBudget >= 0 ==> (r == 0 <==> IsExhausted())
    {
      if totalBudget - consumed < 0 then 0 else totalBudget - consumed
    }
  }

  lemma RegistrationBalance<K>(m: map<K, AgentQuota>, k: K, q: AgentQuota)
    requires q.consumed == 0
    ensures Sum(Consumptions(m[k := q])) == Sum(Consumptions(m)) - if k in m then m[k].consumed else 0
  {
    assert Consumptions(m[k := q]) == Consumptions(m)[k := 0];
    if k in m {
      SumUpdate(Consumptions(m), k, 0);
    } else {
      SumInsert(Consumptions(m), k, 0);
    }
  }

  // --- the engine's own computation ------------------------------------------------------

  /** The quotas a compose engine computes for its agents before running any. */
  ghost function EngineQuotas<N>(agents: map<N, Priority>, budget: nat): map<N, int>
    requires agents != map[] ==> Sum(AgentWeights(agents)) > 0
  {
    map a | a in agents :: Share(budget, agents[a].Weight(), Sum(AgentWeights(agents)))
  }

  function AgentWeights<N>(agents: map<N, Priority>): map<N, int> {
    map a | a in agents :: agents[a].Weight()
  }

  lemma ThreeSummed<N>(w: map<N, int>, a: N, b: N, c: N)
    requires a != b && a != c && b != c && w.Keys == {a, b, c}
    ensures Sum(w) == w[a] + w[b] + w[c]
  {
    hide Sum;
    SumPick(w, a);
    SumPick(w - {a}, b);
    SumPick(w - {a} - {b}, c);
    SumOfNothing(w - {a} - {b} - {c});
  }

  /** Of three agents, the one of high priority gets ten times, and the one of normal
      priority five times, what the one of low priority gets, up to rounding. */
  lemma OneOfEach<N>(agents: map<N, Priority>, low: N, normal: N, high: N, budget: nat)
    requires low != normal && low != high && normal != high && agents.Keys == {low, normal, high}
    requires agents[low] == Low && agents[normal] == Normal && agents[high] == High
    ensures Sum(AgentWeights(agents)) == 16
    ensures var q := EngineQuotas(agents, budget);
            q[low] == budget / 16 && q[normal] == 5 * budget / 16 && q[high] == 10 * budget / 16
  {
    hide Sum;
    ThreeSummed(AgentWeights(agents), low, normal, high);
  }

  /** Once every agent has registered, in whatever order and under whatever pids,
      the pool's quotas are the ones the engine computed. */
  lemma PoolAgreesWithEngine<N>(agents: map<N, Priority>, pids: map<N, nat>, m: map<nat, AgentQuota>, budget: nat)
    requires agents != map[] && pids.Keys == agents.Keys && pids.Values == m.Keys
    requires forall a, b :: a in pids && b in pids && a != b ==> pids[a] != pids[b]
    requires forall a :: a in agents ==> pids[a] in m && m[pids[a]].priority == agents[a]
    ensures Sum(AgentWeights(agents)) == Sum(Weights(m)) > 0
    ensures forall a :: a in agents ==> Reallocated(m, budget)[pids[a]].quota == EngineQuotas(agents, budget)[a]
  {
    var a :| a in agents;
    assert pids[a] in m;
    WeightsPositive(m);
    SumRename(AgentWeights(agents), Weights(m), pids);
  }
}
