/** Mechanical pruning, as values: which messages are cold, which tool results are
    oversized, and what replacing them does to the token total. */
module Pruning {
  import opened Sums
  import opened Tokens

  const MIN_ACTIVE_WINDOW := 4
  const MIN_WARM_WINDOW := 6
  const LEAKED_THRESHOLD := 1000
  const DEFAULT_PRUNE_PLACEHOLDER := "[tool output cleared to free context]"

  function ActiveWindowSize(n: nat): nat {
    if n / 5 > MIN_ACTIVE_WINDOW then n / 5 else MIN_ACTIVE_WINDOW
  }

  function WarmWindowSize(n: nat): nat {
    if n * 3 / 10 > MIN_WARM_WINDOW then n * 3 / 10 else MIN_WARM_WINDOW
  }

  /** Messages before this index are cold. */
  function ColdZoneEnd(n: nat): (end: nat)
    ensures end <= n
  {
    var activeStart := if n - ActiveWindowSize(n) > 0 then n - ActiveWindowSize(n) else 0;
    if activeStart - WarmWindowSize(n) > 0 then activeStart - WarmWindowSize(n) else 0
  }

  /** Nothing is cold among up to ten messages; from twenty on about half are; and
      the boundary never moves back by more than one. */
  lemma ColdZone(n: nat)
    ensures n <= 10 <==> ColdZoneEnd(n) == 0
    ensures n >= 20 ==> n / 2 <= ColdZoneEnd(n) <= n / 2 + 2
    ensures ColdZoneEnd(n + 1) + 1 >= ColdZoneEnd(n)
    ensures ColdZoneEnd(n) == var kept := (if n < 20 then 4 else n / 5) + (if n < 24 then 6 else 3 * n / 10);
                              if n > kept then n - kept else 0
  {
  }

  predicate IsLeakedToolResult(m: Message) {
    m.role == ToolResult && Bytes(m.content) > LEAKED_THRESHOLD
  }

  predicate IsCandidate(m: Message, placeholder: string) {
    IsLeakedToolResult(m) && m.content != placeholder
  }

  function Cleared(m: Message, placeholder: string): Message {
    m.(content := placeholder)
  }

  /** What clearing a message takes off its weight; negative if it adds. */
  function Drop(m: Message, placeholder: string): int {
    Weight(m) - Weight(Cleared(m, placeholder))
  }

  function Gain(m: Message, placeholder: string): nat {
    if Drop(m, placeholder) > 0 then Drop(m, placeholder) else 0
  }

  /** The indices below `end` of messages to clear, in order. */
  function Candidates(ms: seq<Message>, placeholder: string, end: nat): (cs: seq<nat>)
    requires end <= |ms|
    ensures forall k :: 0 <= k < |cs| ==> cs[k] < end
  {
    if end == 0 then []
    else Candidates(ms, placeholder, end - 1) + if IsCandidate(ms[end - 1], placeholder) then [end - 1] else []
  }

  lemma {:induction false} CandidatesAre(ms: seq<Message>, placeholder: string, end: nat)
    requires end <= |ms|
    ensures var cs := Candidates(ms, placeholder, end);
            && (forall k :: 0 <= k < |cs| ==> cs[k] < end && IsCandidate(ms[cs[k]], placeholder))
            && (forall j, k :: 0 <= j < k < |cs| ==> cs[j] < cs[k])
            && (forall i :: 0 <= i < end && IsCandidate(ms[i], placeholder) ==> i in cs)
  {
    if end > 0 { CandidatesAre(ms, placeholder, end - 1); }
  }

  ghost predicate Indices(ms: seq<Message>, cs: seq<nat>) {
    && (forall k :: 0 <= k < |cs| ==> cs[k] < |ms|)
    && (forall j, k :: 0 <= j < k < |cs| ==> cs[j] < cs[k])
  }

  function WeightAt(ms: seq<Message>, cs: seq<nat>): nat
    requires forall k :: 0 <= k < |cs| ==> cs[k] < |ms|
  {
    if cs == [] then 0 else WeightAt(ms, cs[..|cs| - 1]) + Weight(ms[cs[|cs| - 1]])
  }

  function GainAt(ms: seq<Message>, cs: seq<nat>, placeholder: string): nat
    requires forall k :: 0 <= k < |cs| ==> cs[k] < |ms|
  {
    if cs == [] then 0 else GainAt(ms, cs[..|cs| - 1], placeholder) + Gain(ms[cs[|cs| - 1]], placeholder)
  }

  function DropAt(ms: seq<Message>, cs: seq<nat>, placeholder: string): int
    requires forall k :: 0 <= k < |cs| ==> cs[k] < |ms|
  {
    if cs == [] then 0 else DropAt(ms, cs[..|cs| - 1], placeholder) + Drop(ms[cs[|cs| - 1]], placeholder)
  }

  /** The history with the messages at `cs` cleared. */
  function ClearAll(ms: seq<Message>, cs: seq<nat>, placeholder: string): (r: seq<Message>)
    requires forall k :: 0 <= k < |cs| ==> cs[k] < |ms|
    ensures |r| == |ms|
  {
    if cs == [] then ms
    else
      var r := ClearAll(ms, cs[..|cs| - 1], placeholder);
      var i := cs[|cs| - 1];
      r[i := Cleared(ms[i], placeholder)]
  }

  /** Only the messages listed change, and only their content. */
  lemma {:induction false} ClearAllAt(ms: seq<Message>, cs: seq<nat>, placeholder: string, i: nat)
    requires Indices(ms, cs) && i < |ms|
    ensures ClearAll(ms, cs, placeholder)[i] == if i in cs then Cleared(ms[i], placeholder) else ms[i]
  {
    if cs != [] {
      var n := |cs| - 1;
      ClearAllAt(ms, cs[..n], placeholder, i);
      assert i in cs <==> i in cs[..n] || i == cs[n];
    }
  }

  /** The total falls by what each cleared message loses. */
  lemma {:induction false} ClearAllTotal(ms: seq<Message>, cs: seq<nat>, placeholder: string)
    requires Indices(ms, cs)
    ensures Total(ClearAll(ms, cs, placeholder)) == Total(ms) - DropAt(ms, cs, placeholder)
  {
    hide Weight, Total;
    if cs != [] {
      var n := |cs| - 1;
      ClearAllTotal(ms, cs[..n], placeholder);
      ClearAllAt(ms, cs[..n], placeholder, cs[n]);
      TotalReplaced(ClearAll(ms, cs[..n], placeholder), cs[n], Cleared(ms[cs[n]], placeholder));
    }
  }

  lemma {:induction false} GainBetween(ms: seq<Message>, cs: seq<nat>, placeholder: string)
    requires forall k :: 0 <= k < |cs| ==> cs[k] < |ms|
    ensures DropAt(ms, cs, placeholder) <= GainAt(ms, cs, placeholder) <= WeightAt(ms, cs)
    ensures DropAt(ms, cs, placeholder) == GainAt(ms, cs, placeholder) <==>
              forall k :: 0 <= k < |cs| ==> Drop(ms[cs[k]], placeholder) >= 0
  {
    hide Weight;
    if cs != [] {
      var n := |cs| - 1;
      GainBetween(ms, cs[..n], placeholder);
      assert forall k :: 0 <= k < n ==> cs[..n][k] == cs[k];
    }
  }

  lemma {:induction false} GainPrefix(ms: seq<Message>, cs: seq<nat>, placeholder: string, k: nat)
    requires k <= |cs| && forall k :: 0 <= k < |cs| ==> cs[k] < |ms|
    ensures GainAt(ms, cs[..k], placeholder) <= GainAt(ms, cs, placeholder)
    decreases |cs|
  {
    hide Gain;
    if k == |cs| {
      assert cs[..k] == cs;
    } else {
      ShorterPrefix(cs, k);
      GainPrefix(ms, cs[..|cs| - 1], placeholder, k);
    }
  }

  lemma ShorterPrefix<T>(s: seq<T>, k: nat)
    requires k < |s|
    ensures s[..|s| - 1][..k] == s[..k]
  {
  }

  /** A placeholder of at most 167 tokens never weighs more than what it replaces. */
  lemma SmallPlaceholderNeverGrows(m: Message, placeholder: string)
    requires m.role == ToolResult && Bytes(m.content) > 1000 && Estimate(placeholder) <= 167
    ensures Weight(m) - Weight(m.(content := placeholder)) == Estimate(m.content) - Estimate(placeholder) >= 0
  {
    hide Estimate;
    OversizedWeighs(m.content);
  }

  lemma CandidateNeverGrows(m: Message, placeholder: string)
    requires IsCandidate(m, placeholder) && Estimate(placeholder) <= 167
    ensures Drop(m, placeholder) >= 0
  {
    hide Weight, Estimate, Bytes;
    SmallPlaceholderNeverGrows(m, placeholder);
  }

  lemma DefaultPlaceholderWeight()
    ensures Estimate(DEFAULT_PRUNE_PLACEHOLDER) == 11
  {
    AllAscii(DEFAULT_PRUNE_PLACEHOLDER);
  }

  lemma {:induction false} AllAscii(s: string)
    requires forall i :: 0 <= i < |s| ==> IsAscii(s[i])
    ensures Ascii(s) == |s|
  {
    if s != [] { AllAscii(s[..|s| - 1]); }
  }

  // --- one call ---------------------------------------------------------------------------

  datatype PruneOpts = PruneOpts(targetTokens: int, minTokens: int, clearAtLeast: int, placeholder: string)

  const NO_PRUNE_OPTS := PruneOpts(0, 0, 0, "")

  datatype PruneResult = PruneResult(pruned: nat, tokensFreed: nat, candidateTokens: nat, releasableTokens: nat)

  function PlaceholderOf(o: PruneOpts): string {
    if o.placeholder == "" then DEFAULT_PRUNE_PLACEHOLDER else o.placeholder
  }

  function ColdCandidates(ms: seq<Message>, o: PruneOpts): (cs: seq<nat>)
    ensures forall k :: 0 <= k < |cs| ==> cs[k] < |ms|
  {
    Candidates(ms, PlaceholderOf(o), ColdZoneEnd(|ms|))
  }

  /** Whether the batch is worth a rewrite. */
  ghost predicate Admitted(ms: seq<Message>, o: PruneOpts) {
    var cs := ColdCandidates(ms, o);
    && (o.minTokens > 0 ==> WeightAt(ms, cs) >= o.minTokens)
    && (o.clearAtLeast > 0 ==> GainAt(ms, cs, PlaceholderOf(o)) >= o.clearAtLeast)
  }

  /** What is aimed at: the target, but never less than the floor. */
  function Aim(o: PruneOpts): int {
    if o.clearAtLeast > 0 && o.targetTokens > 0 && o.targetTokens < o.clearAtLeast then o.clearAtLeast else o.targetTokens
  }

  /** The call clears the first `r.pruned` candidates: none if the batch is
      declined, all without a target, else as few as reach it. */
  ghost predicate PruneOutcome(before: seq<Message>, after: seq<Message>, o: PruneOpts, r: PruneResult) {
    var cs, p := ColdCandidates(before, o), PlaceholderOf(o);
    && r.pruned <= |cs| && after == ClearAll(before, cs[..r.pruned], p)
    && r.candidateTokens == WeightAt(before, cs) && r.releasableTokens == GainAt(before, cs, p)
    && r.tokensFreed == GainAt(before, cs[..r.pruned], p)
    && (!Admitted(before, o) ==> r.pruned == 0)
    && (Admitted(before, o) && r.pruned < |cs| ==> Aim(o) > 0 && r.pruned > 0 && r.tokensFreed >= Aim(o))
    && (Aim(o) > 0 ==> forall k :: 0 < k < r.pruned ==> GainAt(before, cs[..k], p) < Aim(o))
  }

  /** Only cold oversized tool results change, and only their content. */
  lemma OnlyColdResultsChange(before: seq<Message>, after: seq<Message>, o: PruneOpts, r: PruneResult, i: nat)
    requires PruneOutcome(before, after, o, r) && i < |before|
    ensures |after| == |before|
    ensures after[i] != before[i] ==>
              var p := if o.placeholder == "" then DEFAULT_PRUNE_PLACEHOLDER else o.placeholder;
              && i < ColdZoneEnd(|before|) && before[i].role == ToolResult && Bytes(before[i].content) > 1000
              && before[i].content != p && after[i] == before[i].(content := p)
  {
    hide ColdZoneEnd, WeightAt, GainAt, Admitted, Bytes;
    var p := PlaceholderOf(o);
    CandidatesAre(before, p, ColdZoneEnd(|before|));
    ClearAllAt(before, ColdCandidates(before, o)[..r.pruned], p, i);
  }

  /** The cold oversized results that do not hold the placeholder already. */
  function Cold(ms: seq<Message>, placeholder: string, end: nat): set<nat> {
    set i: nat | i < |ms| && i < end && ms[i].role == ToolResult && Bytes(ms[i].content) > 1000 && ms[i].content != placeholder
  }

  /** What clearing each of them would free. */
  ghost function Gains(ms: seq<Message>, at: set<nat>, placeholder: string): map<nat, int> {
    map i: nat | i in at && i < |ms| ::
      if Estimate(ms[i].content) > Estimate(placeholder) then Estimate(ms[i].content) - Estimate(placeholder) else 0
  }

  ghost function WeightsAt(ms: seq<Message>, at: set<nat>): map<nat, int> {
    map i: nat | i in at && i < |ms| :: Weight(ms[i])
  }

  function Below(at: set<nat>, k: nat): set<nat> {
    set i | i in at && i < k
  }

  lemma ColdNext(ms: seq<Message>, placeholder: string, i: nat)
    requires i < |ms|
    ensures i !in Cold(ms, placeholder, i) && Cold(ms, placeholder, 0) == {}
    ensures Cold(ms, placeholder, i + 1) == Cold(ms, placeholder, i) + if IsCandidate(ms[i], placeholder) then {i} else {}
  {
    hide Bytes;
  }

  lemma NoneCold(ms: seq<Message>, placeholder: string)
    ensures Cold(ms, placeholder, 0) == {}
    ensures Sum(WeightsAt(ms, {})) == 0 && Sum(Gains(ms, {}, placeholder)) == 0
  {
    SumOfNothing(WeightsAt(ms, {}));
    SumOfNothing(Gains(ms, {}, placeholder));
  }

  lemma {:induction false} CandidatesAreCold(ms: seq<Message>, placeholder: string, end: nat)
    requires end <= |ms|
    ensures var cs, cold := Candidates(ms, placeholder, end), Cold(ms, placeholder, end);
            && |cs| == |cold|
            && WeightAt(ms, cs) == Sum(WeightsAt(ms, cold))
            && GainAt(ms, cs, placeholder) == Sum(Gains(ms, cold, placeholder))
  {
    hide Weight, Gain, IsCandidate, Cold, WeightsAt, Gains, Sum;
    var cs := Candidates(ms, placeholder, end);
    if end == 0 {
      NoneCold(ms, placeholder);
    } else {
      var i := end - 1;
      CandidatesAreCold(ms, placeholder, i);
      ColdNext(ms, placeholder, i);
      if IsCandidate(ms[i], placeholder) {
        assert cs[..|cs| - 1] == Candidates(ms, placeholder, i);
        OneMoreCold(ms, Cold(ms, placeholder, i), placeholder, i);
      } else {
        assert cs == Candidates(ms, placeholder, i);
        assert Cold(ms, placeholder, end) == Cold(ms, placeholder, i);
      }
    }
  }

  lemma OneMoreCold(ms: seq<Message>, at: set<nat>, placeholder: string, i: nat)
    requires i < |ms| && i !in at
    ensures Sum(WeightsAt(ms, at + {i})) == Sum(WeightsAt(ms, at)) + Weight(ms[i])
    ensures Sum(Gains(ms, at + {i}, placeholder)) == Sum(Gains(ms, at, placeholder)) + Gain(ms[i], placeholder)
  {
    hide Weight, Gain, WeightsAt, Gains;
    OneMoreWeight(ms, at, i);
    OneMoreGain(ms, at, placeholder, i);
    SumInsert(WeightsAt(ms, at), i, Weight(ms[i]));
    SumInsert(Gains(ms, at, placeholder), i, Gain(ms[i], placeholder));
  }

  lemma OneMoreWeight(ms: seq<Message>, at: set<nat>, i: nat)
    requires i < |ms| && i !in at
    ensures i !in WeightsAt(ms, at) && WeightsAt(ms, at + {i}) == WeightsAt(ms, at)[i := Weight(ms[i])]
  {
    hide Weight;
  }

  lemma OneMoreGain(ms: seq<Message>, at: set<nat>, placeholder: string, i: nat)
    requires i < |ms| && i !in at
    ensures i !in Gains(ms, at, placeholder)
    ensures Gains(ms, at + {i}, placeholder) == Gains(ms, at, placeholder)[i := Gain(ms[i], placeholder)]
  {
    DropIs(ms[i], placeholder);
    hide Weight, Estimate, Drop;
    assert Gain(ms[i], placeholder) ==
           if Estimate(ms[i].content) > Estimate(placeholder) then Estimate(ms[i].content) - Estimate(placeholder) else 0;
  }

  /** The first `n` candidates are the cold results below some index. */
  lemma {:induction false} FirstCandidates(ms: seq<Message>, placeholder: string, end: nat, n: nat) returns (k: nat)
    requires end <= |ms| && n <= |Candidates(ms, placeholder, end)|
    ensures k <= end && Candidates(ms, placeholder, end)[..n] == Candidates(ms, placeholder, k)
    ensures n == |Candidates(ms, placeholder, end)| ==> k == end
    ensures n < |Candidates(ms, placeholder, end)| ==> k < end && IsCandidate(ms[k], placeholder)
  {
    hide IsCandidate;
    var cs := Candidates(ms, placeholder, end);
    if n == |cs| {
      k := end;
      assert cs[..n] == cs;
    } else {
      var before := Candidates(ms, placeholder, end - 1);
      if n == |before| {
        k := end - 1;
        assert cs[..n] == before;
      } else {
        k := FirstCandidates(ms, placeholder, end - 1, n);
        assert cs[..n] == before[..n];
      }
    }
  }

  lemma {:induction false} EarlierCandidates(ms: seq<Message>, placeholder: string, end: nat, l: nat)
    requires l <= end <= |ms|
    ensures Candidates(ms, placeholder, l) <= Candidates(ms, placeholder, end)
    ensures l < end && IsCandidate(ms[l], placeholder) ==>
              |Candidates(ms, placeholder, l)| < |Candidates(ms, placeholder, end)|
    decreases end
  {
    hide IsCandidate;
    if l < end { EarlierCandidates(ms, placeholder, end - 1, l); }
  }

  lemma ColdBelow(ms: seq<Message>, placeholder: string, end: nat, k: nat)
    requires k <= end
    ensures Below(Cold(ms, placeholder, end), k) == Cold(ms, placeholder, k)
  {
    hide Bytes;
  }

  /** What the call leaves of a history that it clears below `k`. */
  ghost predicate ClearedBelow(before: seq<Message>, after: seq<Message>, placeholder: string, done: set<nat>) {
    && |after| == |before|
    && forall i: nat :: i < |before| ==> after[i] == if i in done then before[i].(content := placeholder) else before[i]
  }

  /** While clearing, what was freed stayed short of the aim until the last one. */
  ghost predicate NoneTooMany(before: seq<Message>, placeholder: string, done: set<nat>, aim: int) {
    forall l: nat :: l in done && Below(done, l) != {} ==> Sum(Gains(before, Below(done, l), placeholder)) < aim
  }

  lemma ColdIsCandidate(ms: seq<Message>, placeholder: string, end: nat, i: nat)
    ensures i in Cold(ms, placeholder, end) <==> i < |ms| && i < end && IsCandidate(ms[i], placeholder)
  {
    hide Bytes;
  }

  lemma ClearedAre(before: seq<Message>, placeholder: string, k: nat)
    requires k <= |before|
    ensures Indices(before, Candidates(before, placeholder, k))
    ensures ClearedBelow(before, ClearAll(before, Candidates(before, placeholder, k), placeholder), placeholder,
                         Cold(before, placeholder, k))
  {
    hide IsCandidate, Cold;
    var cs := Candidates(before, placeholder, k);
    CandidatesAre(before, placeholder, k);
    forall i: nat | i < |before|
      ensures ClearAll(before, cs, placeholder)[i] ==
              if i in Cold(before, placeholder, k) then before[i].(content := placeholder) else before[i]
    {
      ClearAllAt(before, cs, placeholder, i);
      ColdIsCandidate(before, placeholder, k, i);
      CandidatesInclude(before, placeholder, k, i);
    }
  }

  lemma AimNotReached(before: seq<Message>, placeholder: string, k: nat, aim: int)
    requires k <= |before|
    requires var cs := Candidates(before, placeholder, k);
             forall j :: 0 < j < |cs| ==> GainAt(before, cs[..j], placeholder) < aim
    ensures NoneTooMany(before, placeholder, Cold(before, placeholder, k), aim)
  {
    hide IsCandidate, Cold, GainAt, Gains;
    var cs, done := Candidates(before, placeholder, k), Cold(before, placeholder, k);
    forall l: nat | l in done && Below(done, l) != {} ensures Sum(Gains(before, Below(done, l), placeholder)) < aim {
      ColdIsCandidate(before, placeholder, k, l);
      EarlierCandidates(before, placeholder, k, l);
      ColdBelow(before, placeholder, k, l);
      CandidatesAreCold(before, placeholder, l);
      var j := |Candidates(before, placeholder, l)|;
      assert cs[..j] == Candidates(before, placeholder, l);
      assert |Cold(before, placeholder, l)| > 0;
    }
  }

  /** A call in terms of the messages alone: it clears the cold oversized results below
      some index, none of them if their weight or what clearing them frees misses a
      threshold, otherwise all of them without a target, and else as few as free the
      target or the floor, whichever is larger.  The figures are sums over them. */
  lemma PruneLaw(before: seq<Message>, after: seq<Message>, o: PruneOpts, r: PruneResult) returns (k: nat)
    requires PruneOutcome(before, after, o, r)
    ensures var p := if o.placeholder == "" then "[tool output cleared to free context]" else o.placeholder;
            var cold := Cold(before, p, ColdZoneEnd(|before|));
            var done := Below(cold, k);
            var worth := && (o.minTokens > 0 ==> r.candidateTokens >= o.minTokens)
                         && (o.clearAtLeast > 0 ==> r.releasableTokens >= o.clearAtLeast);
            var aim := if o.clearAtLeast > o.targetTokens then o.clearAtLeast else o.targetTokens;
            && ClearedBelow(before, after, p, done) && r.pruned == |done|
            && r.candidateTokens == Sum(WeightsAt(before, cold)) && r.releasableTokens == Sum(Gains(before, cold, p))
            && r.tokensFreed == Sum(Gains(before, done, p))
            && (!worth ==> done == {})
            && (worth && o.targetTokens <= 0 ==> done == cold)
            && (worth && o.targetTokens > 0 ==> done == cold || (done != {} && r.tokensFreed >= aim))
            && (o.targetTokens > 0 ==> NoneTooMany(before, p, done, aim))
  {
    hide IsCandidate, Cold, GainAt, WeightAt, Gains, WeightsAt, ColdZoneEnd, ClearAll, ClearedBelow, Weight, Candidates,
         NoneTooMany;
    var p, end := PlaceholderOf(o), ColdZoneEnd(|before|);
    var cs := Candidates(before, p, end);
    k := FirstCandidates(before, p, end, r.pruned);
    ColdBelow(before, p, end, k);
    CandidatesAreCold(before, p, end);
    CandidatesAreCold(before, p, k);
    ClearedAre(before, p, k);
    if Aim(o) > 0 {
      assert forall j :: 0 < j < r.pruned ==> cs[..r.pruned][..j] == cs[..j];
      AimNotReached(before, p, k, Aim(o));
    }
  }

  /** What was freed is at most what could be, which is at most what the candidates
      weigh; a declined batch changes nothing; an admitted one keeps its floor. */
  lemma PruneKeepsItsWord(before: seq<Message>, after: seq<Message>, o: PruneOpts, r: PruneResult)
    requires PruneOutcome(before, after, o, r)
    ensures r.tokensFreed <= r.releasableTokens <= r.candidateTokens
    ensures Admitted(before, o) && o.clearAtLeast > 0 ==> r.tokensFreed >= o.clearAtLeast
    ensures !Admitted(before, o) ==> after == before && r.tokensFreed == 0
  {
    hide Gain, Weight, ColdCandidates, PlaceholderOf;
    var p, cs := PlaceholderOf(o), ColdCandidates(before, o);
    GainPrefix(before, cs, p, r.pruned);
    GainBetween(before, cs, p);
    if r.pruned == |cs| { assert cs[..r.pruned] == cs; }
  }

  /** The number of candidates after which the aim is reached, from `k` on; at least
      one is cleared. */
  ghost function Reach(ms: seq<Message>, cs: seq<nat>, placeholder: string, aim: int, k: nat): (n: nat)
    requires k <= |cs| && forall k :: 0 <= k < |cs| ==> cs[k] < |ms|
    ensures k <= n <= |cs|
    decreases |cs| - k
  {
    if k == |cs| || (k > 0 && GainAt(ms, cs[..k], placeholder) >= aim) then k
    else Reach(ms, cs, placeholder, aim, k + 1)
  }

  /** The messages a call clears, from its inputs alone. */
  ghost function Chosen(ms: seq<Message>, o: PruneOpts): (chosen: seq<nat>)
    ensures forall k :: 0 <= k < |chosen| ==> chosen[k] < |ms|
  {
    var cs := ColdCandidates(ms, o);
    if !Admitted(ms, o) then []
    else if Aim(o) <= 0 then cs
    else cs[..Reach(ms, cs, PlaceholderOf(o), Aim(o), 0)]
  }

  lemma {:induction false} ReachIs(ms: seq<Message>, cs: seq<nat>, placeholder: string, aim: int, k: nat, n: nat)
    requires k <= n <= |cs| && forall k :: 0 <= k < |cs| ==> cs[k] < |ms|
    requires n < |cs| ==> n > 0 && GainAt(ms, cs[..n], placeholder) >= aim
    requires forall j :: 0 < j < n ==> GainAt(ms, cs[..j], placeholder) < aim
    ensures Reach(ms, cs, placeholder, aim, k) == n
    decreases n - k
  {
    hide GainAt;
    if k < n { ReachIs(ms, cs, placeholder, aim, k + 1, n); }
  }

  lemma ChosenAreCleared(before: seq<Message>, after: seq<Message>, o: PruneOpts, r: PruneResult)
    requires PruneOutcome(before, after, o, r)
    ensures Chosen(before, o) == ColdCandidates(before, o)[..r.pruned]
  {
    hide GainAt, WeightAt, Candidates, Admitted, ColdCandidates, ClearAll;
    var cs := ColdCandidates(before, o);
    if Admitted(before, o) && Aim(o) > 0 {
      ReachIs(before, cs, PlaceholderOf(o), Aim(o), 0, r.pruned);
    } else if r.pruned == |cs| {
      assert cs[..r.pruned] == cs;
    }
  }

  lemma DropIs(m: Message, placeholder: string)
    ensures Drop(m, placeholder) == Estimate(m.content) - Estimate(placeholder)
  {
  }

  /** The total falls by exactly what is reported unless the placeholder weighs more
      than some content the call replaces; without a target these are all oversized
      results of the cold zone. */
  lemma PruneIsExact(before: seq<Message>, after: seq<Message>, o: PruneOpts, r: PruneResult)
    requires PruneOutcome(before, after, o, r)
    ensures Total(after) >= Total(before) - r.tokensFreed
    ensures Total(after) == Total(before) - r.tokensFreed <==>
              forall i :: i in Chosen(before, o) ==> Estimate(PlaceholderOf(o)) <= Estimate(before[i].content)
    ensures Estimate(PlaceholderOf(o)) <= 167 ==> Total(after) == Total(before) - r.tokensFreed
  {
    hide Weight, Drop, Gain, Total, Estimate, IsCandidate, ColdZoneEnd, Admitted, Chosen, Candidates, ClearAll, DropAt, GainAt,
         WeightAt, Reach, Cleared;
    var p, cs := PlaceholderOf(o), ColdCandidates(before, o);
    CandidatesAre(before, p, ColdZoneEnd(|before|));
    ChosenAreCleared(before, after, o, r);
    var done := cs[..r.pruned];
    GainBetween(before, done, p);
    ClearAllTotal(before, done, p);
    forall k | 0 <= k < r.pruned
      ensures done[k] == cs[k]
      ensures Drop(before[done[k]], p) == Estimate(before[done[k]].content) - Estimate(p)
      ensures Estimate(p) <= 167 ==> Drop(before[done[k]], p) >= 0
    {
      DropIs(before[done[k]], p);
      if Estimate(p) <= 167 { CandidateNeverGrows(before[done[k]], p); }
    }
  }

  lemma UntargetedChosen(ms: seq<Message>, o: PruneOpts, i: nat)
    requires Admitted(ms, o) && Aim(o) <= 0
    ensures i in Chosen(ms, o) <==>
              && i < ColdZoneEnd(|ms|) && ms[i].role == ToolResult && Bytes(ms[i].content) > 1000
              && ms[i].content != PlaceholderOf(o)
  {
    hide Admitted, ColdZoneEnd, Aim, Bytes;
    CandidatesInclude(ms, PlaceholderOf(o), ColdZoneEnd(|ms|), i);
  }

  lemma {:induction false} CandidatesInclude(ms: seq<Message>, placeholder: string, end: nat, i: nat)
    requires end <= |ms|
    ensures i in Candidates(ms, placeholder, end) <==> i < end && IsCandidate(ms[i], placeholder)
  {
    hide IsCandidate;
    if end > 0 {
      CandidatesInclude(ms, placeholder, end - 1, i);
    }
  }

  lemma {:induction false} AsciiBytes(s: string)
    requires forall i :: 0 <= i < |s| ==> IsAscii(s[i])
    ensures Bytes(s) == |s|
  {
    if s != [] { AsciiBytes(s[..|s| - 1]); }
  }

  lemma LongTexts() returns (big: string, heavy: string)
    ensures Bytes(big) > 1000 && heavy != "" && big != heavy && Estimate(heavy) > Estimate(big)
  {
    big, heavy := seq(1001, _ => 'a'), seq(1101, _ => 'b');
    AllAscii(big);
    AllAscii(heavy);
    AsciiBytes(big);
    assert |big| != |heavy|;
  }

  /** The only cold message of eleven. */
  lemma OneCold(before: seq<Message>, placeholder: string)
    requires |before| == 11 && IsCandidate(before[0], placeholder)
    ensures ColdZoneEnd(11) == 1 && Candidates(before, placeholder, 1) == [0]
  {
    assert Candidates(before, placeholder, 0) == [];
  }

  /** An untargeted call on eleven messages whose one candidate weighs less than the
      placeholder. */
  lemma OneHeavy(before: seq<Message>, placeholder: string)
    requires |before| == 11 && IsCandidate(before[0], placeholder) && placeholder != ""
    requires Estimate(placeholder) > Estimate(before[0].content)
    ensures var o, after := NO_PRUNE_OPTS.(placeholder := placeholder), ClearAll(before, [0], placeholder);
            && PruneOutcome(before, after, o, PruneResult(1, 0, WeightAt(before, [0]), 0))
            && Total(after) > Total(before)
  {
    var o, after := NO_PRUNE_OPTS.(placeholder := placeholder), ClearAll(before, [0], placeholder);
    var r := PruneResult(1, 0, WeightAt(before, [0]), 0);
    OneCold(before, placeholder);
    DropIs(before[0], placeholder);
    assert [0][..0] == [] && [0][..1] == [0];
    assert GainAt(before, [0], placeholder) == 0 by { OneGain(before, placeholder); }
    hide Estimate, IsCandidate, Total, WeightAt, GainAt, ColdZoneEnd, Candidates, ClearAll, Gain, Drop;
    assert ColdCandidates(before, o) == [0];
    PruneIsExact(before, after, o, r);
    assert 0 in Chosen(before, o) by { UntargetedChosen(before, o, 0); }
  }

  lemma OneGain(ms: seq<Message>, placeholder: string)
    requires ms != [] && Drop(ms[0], placeholder) <= 0
    ensures GainAt(ms, [0], placeholder) == 0
  {
    hide Drop;
    assert [0][..0] == [];
  }

  function Small(n: nat): (ms: seq<Message>)
    ensures |ms| == n
  {
    if n == 0 then [] else Small(n - 1) + [PlainMessage(User, "")]
  }

  lemma BigResult(big: string, heavy: string)
    requires Bytes(big) > 1000 && big != heavy
    ensures var before := [PlainMessage(ToolResult, big)] + Small(10);
            |before| == 11 && before[0].content == big && IsCandidate(before[0], heavy)
  {
    hide Bytes, Small;
  }

  /** A result of 1,001 characters, ten messages ago, and a placeholder of 1,101: the
      call makes the history heavier and reports that nothing was freed. */
  lemma HeavyPlaceholder() returns (before: seq<Message>, after: seq<Message>, o: PruneOpts, r: PruneResult)
    ensures PruneOutcome(before, after, o, r) && Aim(o) <= 0
    ensures r.pruned == 1 && r.tokensFreed == 0 && Total(after) > Total(before)
  {
    var big, heavy := LongTexts();
    hide *;
    before := [PlainMessage(ToolResult, big)] + Small(10);
    BigResult(big, heavy);
    OneHeavy(before, heavy);
    o, after := NO_PRUNE_OPTS.(placeholder := heavy), ClearAll(before, [0], heavy);
    r := PruneResult(1, 0, WeightAt(before, [0]), 0);
    NoAim(heavy);
  }

  lemma NoAim(placeholder: string)
    ensures Aim(NO_PRUNE_OPTS.(placeholder := placeholder)) <= 0
  {
  }

  /** Once every candidate is cleared there is none left. */
  lemma NoCandidateLeft(before: seq<Message>, placeholder: string, i: nat)
    requires i < ColdZoneEnd(|before|)
    ensures !IsCandidate(ClearAll(before, Candidates(before, placeholder, ColdZoneEnd(|before|)), placeholder)[i], placeholder)
  {
    CandidatesAre(before, placeholder, ColdZoneEnd(|before|));
    ClearAllAt(before, Candidates(before, placeholder, ColdZoneEnd(|before|)), placeholder, i);
  }

  lemma {:induction false} NothingToClear(ms: seq<Message>, placeholder: string, end: nat)
    requires end <= |ms| && forall i :: 0 <= i < end ==> !IsCandidate(ms[i], placeholder)
    ensures Candidates(ms, placeholder, end) == []
  {
    if end > 0 { NothingToClear(ms, placeholder, end - 1); }
  }

  /** With no target, a second call finds nothing left to do. */
  lemma SecondPruneIsNoOp(before: seq<Message>, after: seq<Message>, after2: seq<Message>, o: PruneOpts, o2: PruneOpts,
                          r: PruneResult, r2: PruneResult)
    requires PruneOutcome(before, after, o, r) && Admitted(before, o) && Aim(o) <= 0
    requires PruneOutcome(after, after2, o2, r2) && PlaceholderOf(o2) == PlaceholderOf(o)
    ensures after2 == after && r2 == PruneResult(0, 0, 0, 0)
  {
    hide IsCandidate, ColdZoneEnd, Gain, Weight;
    var p, cs := PlaceholderOf(o), ColdCandidates(before, o);
    assert cs[..r.pruned] == cs;
    forall i | 0 <= i < ColdZoneEnd(|after|) ensures !IsCandidate(after[i], p) {
      NoCandidateLeft(before, p, i);
    }
    NothingToClear(after, p, ColdZoneEnd(|after|));
  }
}
