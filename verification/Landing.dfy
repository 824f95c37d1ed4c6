/** The kernel's side of reclamation: the floor a mechanical fallback is given, where
    it lands, and the latch that a failed automatic compaction sets. */
module Landing {
  import opened Sums
  import opened Tokens
  import opened Pruning
  import opened Rounds
  import opened Contexts
  import opened Compaction

  const COMPACT_HYSTERESIS_RATIO := 1.5
  const MIN_COMPACTION_FRACTION_PCT := 5

  /** Where usage should end up, in tokens. */
  function LandingTokens(limit: int, threshold: real): int {
    (limit as real * (threshold / COMPACT_HYSTERESIS_RATIO) / 100.0).Floor
  }

  function Percentage(used: int, limit: int): real
    requires limit > 0
  {
    used as real / limit as real * 100.0
  }

  /** Being at most the landing tokens is being at most the landing percentage, so
      the reported flag says what the floor aimed for. */
  lemma LandedMeansReported(used: int, limit: int, threshold: real)
    requires limit > 0
    ensures used <= LandingTokens(limit, threshold) <==> Percentage(used, limit) <= threshold / COMPACT_HYSTERESIS_RATIO
  {
    var pct := threshold / COMPACT_HYSTERESIS_RATIO;
    var l, u := limit as real, used as real;
    assert u <= l * pct / 100.0 <==> u * 100.0 <= l * pct;
    QuotientBelow(u * 100.0, l, pct);
    assert u / l * 100.0 == u * 100.0 / l;
  }

  lemma QuotientBelow(x: real, l: real, p: real)
    requires l > 0.0
    ensures x / l <= p <==> x <= l * p
  {
    var q := x / l;
    assert q * l == x;
    if q <= p { assert (p - q) * l >= 0.0; } else { assert (q - p) * l > 0.0; }
  }

  /** Usage is over `threshold` percent of the limit. */
  ghost predicate Over(used: int, limit: int, threshold: real) {
    100.0 * used as real > threshold * limit as real
  }

  lemma ThresholdPassed(used: int, limit: int, threshold: real)
    requires limit > 0
    ensures Percentage(used, limit) > threshold <==> Over(used, limit, threshold)
  {
    var l, u := limit as real, used as real;
    QuotientBelow(u * 100.0, l, threshold);
    assert u / l * 100.0 == u * 100.0 / l;
  }

  function ClearAtLeastForLanding(used: int, limit: int, landing: int): int {
    if limit <= 0 then 0 else if used - landing > 0 then used - landing else 0
  }

  /** What clearing every candidate with the default placeholder would free. */
  ghost function Releasable(ms: seq<Message>): nat {
    GainAt(ms, ColdCandidates(ms, NO_PRUNE_OPTS), DEFAULT_PRUNE_PLACEHOLDER)
  }

  datatype FallbackResult = FallbackResult(pruned: nat, tokensFreed: int, droppedRounds: nat, slotsFreed: int,
                                           releasableTokens: nat)

  /** Prunes tool results, all or nothing against the floor, and drops rounds only if
      slots are short.  What it reports is the true difference, and a paired history
      stays paired. */
  method RunMechanicalFallback(ctx: Context, needSlots: int, clearAtLeast: int) returns (r: FallbackResult,
          ghost mid: seq<Message>)
    modifies ctx`messages
    ensures Total(ctx.messages) == Total(old(ctx.messages)) - r.tokensFreed
    ensures |ctx.messages| == |old(ctx.messages)| - r.slotsFreed
    ensures Paired(old(ctx.messages)) ==> Paired(ctx.messages)
    ensures exists p :: PruneOutcome(old(ctx.messages), mid, NO_PRUNE_OPTS.(clearAtLeast := clearAtLeast), p)
                        && p.pruned == r.pruned && p.releasableTokens == r.releasableTokens
    ensures needSlots <= 0 ==> ctx.messages == mid && r.droppedRounds == 0 && r.slotsFreed == 0
    ensures needSlots > 0 ==> exists d :: DropOutcome(mid, ctx.messages, needSlots, 0, d)
                                          && d.droppedRounds == r.droppedRounds && d.slotsFreed == r.slotsFreed
  {
    hide PruneOutcome, DropOutcome, Paired, Total, Estimate;
    var o := PruneOpts(0, 0, clearAtLeast, "");
    ghost var before := ctx.messages;
    var p := ctx.PruneToolResults(o);
    mid := ctx.messages;
    DefaultPlaceholderWeight();
    PruneIsExact(before, mid, o, p);
    PrunedLength(before, mid, o, p);
    if Paired(before) { PruneKeepsPaired(before, mid, o, p); }
    r := FallbackResult(p.pruned, p.tokensFreed, 0, 0, p.releasableTokens);
    if needSlots > 0 {
      var d := ctx.DropOldestRounds(needSlots, 0);
      DropIsLawful(mid, ctx.messages, needSlots, 0, d);
      r := r.(droppedRounds := d.droppedRounds, slotsFreed := d.slotsFreed, tokensFreed := r.tokensFreed + d.tokensFreed);
    }
  }

  lemma PrunedLength(before: seq<Message>, after: seq<Message>, o: PruneOpts, r: PruneResult)
    requires PruneOutcome(before, after, o, r)
    ensures |after| == |before|
  {
  }

  lemma PruneKeepsPaired(before: seq<Message>, after: seq<Message>, o: PruneOpts, r: PruneResult)
    requires PruneOutcome(before, after, o, r) && Paired(before)
    ensures Paired(after)
  {
    hide PruneOutcome, Paired, IsCandidate;
    PrunedLength(before, after, o, r);
    forall i | 0 <= i < |before|
      ensures after[i].role == before[i].role && after[i].toolCallId == before[i].toolCallId
      ensures after[i].toolCalls == before[i].toolCalls
    {
      OnlyColdResultsChange(before, after, o, r, i);
    }
    SameShapePaired(before, after);
  }

  /** What the landing floor makes of a history, given the usage it was computed from:
      everything clearable goes if that brings this usage down to the landing point,
      and otherwise not a message is touched. */
  function LandedTotal(total: int, releasable: int, used: int, landing: int): int {
    if used - releasable <= landing then total - releasable else total
  }

  lemma FloorClears(before: seq<Message>, after: seq<Message>, used: int, limit: int, landing: int, p: PruneResult)
    requires limit > 0
    requires PruneOutcome(before, after, NO_PRUNE_OPTS.(clearAtLeast := ClearAtLeastForLanding(used, limit, landing)), p)
    ensures Total(after) == LandedTotal(Total(before), Releasable(before), used, landing)
    ensures used - Releasable(before) > landing ==> after == before
  {
    hide GainAt, WeightAt, Total, Estimate, ClearAll;
    var o := NO_PRUNE_OPTS.(clearAtLeast := ClearAtLeastForLanding(used, limit, landing));
    assert ColdCandidates(before, o) == ColdCandidates(before, NO_PRUNE_OPTS);
    DefaultPlaceholderWeight();
    PruneIsExact(before, after, o, p);
    PruneKeepsItsWord(before, after, o, p);
    if Admitted(before, o) {
      var cs := ColdCandidates(before, o);
      assert cs[..p.pruned] == cs;
    }
  }

  /** With the usage there is now: untouched or landed, and landed exactly when the
      cold zone can bring usage down to the landing point. */
  lemma FloorLands(before: seq<Message>, after: seq<Message>, base: nat, limit: int, landing: int, p: PruneResult)
    requires limit > 0
    requires PruneOutcome(before, after,
               NO_PRUNE_OPTS.(clearAtLeast := ClearAtLeastForLanding(base + Total(before), limit, landing)), p)
    ensures after == before || base + Total(after) <= landing
    ensures base + Total(after) <= landing <==> base + Total(before) - Releasable(before) <= landing
  {
    hide PruneOutcome, Total, Releasable;
    FloorClears(before, after, base + Total(before), limit, landing, p);
  }

  /** With a usage read before others went on appending: what was appended is counted
      by neither side of the floor, so usage lands exactly if clearing everything
      would land it even so. */
  lemma StaleFloorLands(before: seq<Message>, after: seq<Message>, base: nat, used: int, limit: int, landing: int,
          p: PruneResult)
    requires limit > 0 && used <= base + Total(before)
    requires PruneOutcome(before, after, NO_PRUNE_OPTS.(clearAtLeast := ClearAtLeastForLanding(used, limit, landing)), p)
    ensures base + Total(after) <= landing <==> base + Total(before) - Releasable(before) <= landing
    ensures after == before || base + Total(after) <= landing + (base + Total(before) - used)
  {
    hide PruneOutcome, Total, GainAt;
    FloorClears(before, after, used, limit, landing, p);
  }

  /** A stale floor can clear without landing: the usage read would have landed, the
      usage there is does not. */
  lemma StaleFloorMisses(before: seq<Message>, after: seq<Message>, base: nat, used: int, limit: int, landing: int,
          p: PruneResult)
    requires limit > 0 && used <= base + Total(before)
    requires PruneOutcome(before, after, NO_PRUNE_OPTS.(clearAtLeast := ClearAtLeastForLanding(used, limit, landing)), p)
    ensures Total(after) < Total(before) && base + Total(after) > landing <==>
              0 < Releasable(before) && used - Releasable(before) <= landing < base + Total(before) - Releasable(before)
  {
    hide PruneOutcome, Total, GainAt;
    FloorClears(before, after, used, limit, landing, p);
  }

  /** What the failure branch of an automatic compaction does to the history it finds,
      with a floor computed from the usage read before the model was asked. */
  method FallBackAfterFailure(ctx: Context, used: int, limit: int, landing: int) returns (r: FallbackResult)
    requires limit == ctx.Limit()
    modifies ctx`messages
    ensures ctx.Used() == LandedTotal(old(ctx.Used()), Releasable(old(ctx.messages)), used, landing)
    ensures used - Releasable(old(ctx.messages)) > landing ==> ctx.messages == old(ctx.messages)
    ensures ctx.Used() == old(ctx.Used()) - r.tokensFreed && |ctx.messages| == |old(ctx.messages)|
    ensures Paired(old(ctx.messages)) ==> Paired(ctx.messages)
  {
    hide PruneOutcome, Paired, Total, Estimate, Releasable;
    ghost var before := ctx.messages;
    var clearAtLeast := ClearAtLeastForLanding(used, limit, landing);
    ghost var mid;
    r, mid := RunMechanicalFallback(ctx, 0, clearAtLeast);
    ghost var p :| PruneOutcome(before, mid, NO_PRUNE_OPTS.(clearAtLeast := clearAtLeast), p);
    FloorClears(before, mid, used, limit, landing, p);
  }

  // --- automatic compaction ------------------------------------------------------------

  datatype Decision = NotNeeded | Declined | Rewrote | FellBack

  /** Less than a twentieth of what is not the system prompt would be gone after what
      a compaction puts back; if nothing is left but the prompt, one is attempted. */
  predicate LittleToGain(used: int, promptTokens: int, restoreTokens: int) {
    var reclaimable := if used - promptTokens > 0 then used - promptTokens else 0;
    var compressible := if reclaimable - restoreTokens > 0 then reclaimable - restoreTokens else 0;
    reclaimable > 0 && compressible * 100 < reclaimable * MIN_COMPACTION_FRACTION_PCT
  }

  /** The history is a boundary, what the model answered to the last of its requests,
      stripped, and what is put back. */
  ghost predicate AfterCompaction(o: CompactOpts, m: Summariser, before: seq<Message>, after: seq<Message>) {
    exists text, items, n, sent, requests ::
      && Answers(before, m, sent, requests, text)
      && Rewritten(o, m.boundary(Sum(Weights(before))), m.strip(text), items, n, after)
  }

  /** Nineteen twentieths of what is not the system prompt come back, or more. */
  lemma LittleToGainMeans(used: int, promptTokens: int, restoreTokens: int)
    ensures LittleToGain(used, promptTokens, restoreTokens) <==>
              used > promptTokens && 20 * restoreTokens > 19 * (used - promptTokens)
  {
  }

  /** There is too little to compact, or the model gives no answer. */
  ghost predicate CannotCompact(m: Summariser, before: seq<Message>) {
    |before| < MIN_MESSAGES_FOR_COMPACT || exists sent, requests :: NoAnswer(before, m, sent, requests)
  }

  /** Declined, or not, for what some order of the files puts back. */
  ghost predicate Weighed(o: CompactOpts, used: int, promptTokens: int, declined: bool) {
    exists t :: RestoresTokens(o, t) && (declined <==> LittleToGain(used, promptTokens, t))
  }

  lemma WeighedBy(o: CompactOpts, used: int, promptTokens: int, t: int)
    requires RestoresTokens(o, t)
    ensures Weighed(o, used, promptTokens, LittleToGain(used, promptTokens, t))
  {
    hide RestoresTokens;
  }

  lemma HistoryRewritten(o: CompactOpts, m: Summariser, before: seq<Message>, after: seq<Message>, text: string,
          items: seq<FileItem>, n: nat, sent: seq<Message>, requests: seq<seq<Message>>)
    requires Answers(before, m, sent, requests, text)
    requires Rewritten(o, m.boundary(Sum(Weights(before))), m.strip(text), items, n, after)
    ensures AfterCompaction(o, m, before, after)
  {
    hide Answers, Rewritten;
  }

  /** What can be released is what clearing the cold oversized results frees. */
  lemma ReleasableIsSum(ms: seq<Message>)
    ensures Releasable(ms) ==
              Sum(Gains(ms, Cold(ms, DEFAULT_PRUNE_PLACEHOLDER, ColdZoneEnd(|ms|)), DEFAULT_PRUNE_PLACEHOLDER))
  {
    hide GainAt, Gains, Cold, ColdZoneEnd;
    CandidatesAreCold(ms, DEFAULT_PRUNE_PLACEHOLDER, ColdZoneEnd(|ms|));
  }

  /** A step of the process: what it appends, and what a compaction would find; or a
      compaction asked for by hand.  `interim` is what others have made of the history
      when the model answers. */
  datatype Turn =
    | Step(role: Role, content: string, opts: CompactOpts, summariser: Summariser, interim: seq<Message>)
    | Manual(opts: CompactOpts, summariser: Summariser, interim: seq<Message>)

  class AutoCompactor {
    const ctx: Context
    const disabled: bool
    const threshold: real
    const processPromptTokens: int
    var latched: bool

    constructor (ctx: Context, disabled: bool, threshold: real, processPromptTokens: int)
      ensures this.ctx == ctx && this.disabled == disabled && this.threshold == threshold && !latched
    {
      this.ctx, this.disabled, this.threshold, this.processPromptTokens := ctx, disabled, threshold, processPromptTokens;
      latched := false;
    }

    function Landing(): int
      reads ctx
    {
      LandingTokens(ctx.Limit(), threshold)
    }

    /** Usage if the history were this one. */
    ghost function UsedBy(h: seq<Message>): int
      reads ctx
    {
      Estimate(ctx.systemPrompt) + Total(h)
    }

    /** The history a failed compaction of `before` leaves. */
    ghost function Left(before: seq<Message>, interim: seq<Message>): seq<Message> {
      if |before| < MIN_MESSAGES_FOR_COMPACT then before else interim
    }

    /** Compacts when usage is over the threshold.  The first failure falls back to
        pruning what is there by then, with a floor from the usage at the start, and
        latches: nothing is attempted after it. */
    method AutoCompactIfNeeded(o: CompactOpts, m: Summariser, interim: seq<Message>) returns (d: Decision)
      modifies this`latched, ctx`messages
      ensures d.NotNeeded? <==> disabled || old(latched) || !Over(old(ctx.Used()), ctx.Limit(), threshold)
      ensures !d.NotNeeded? ==> Weighed(o, old(ctx.Used()), processPromptTokens, d.Declined?)
      ensures d.NotNeeded? || d.Declined? ==> ctx.messages == old(ctx.messages) && latched == old(latched)
      ensures d.Rewrote? ==> !latched && AfterCompaction(o, m, old(ctx.messages), ctx.messages)
      ensures d.FellBack? ==> latched && CannotCompact(m, old(ctx.messages))
      ensures d.FellBack? ==>
                var h := Left(old(ctx.messages), interim);
                && ctx.Used() == LandedTotal(UsedBy(h), Releasable(h), old(ctx.Used()), Landing())
                && (old(ctx.Used()) - Releasable(h) > Landing() ==> ctx.messages == h)
                && |ctx.messages| == |h| && (Paired(h) ==> Paired(ctx.messages))
    {
      hide Total, Estimate, Paired, Releasable, Restores, Brings, Rewritten, Answers, NoAnswer, LandingTokens, LandedTotal,
           RestoresTokens, AfterCompaction, Percentage, Over, Weighed;
      d := NotNeeded;
      if disabled { return; }
      if latched { return; }
      var used, limit := ctx.TokenUsage();
      ThresholdPassed(used, limit, threshold);
      if Percentage(used, limit) <= threshold { return; }
      var declined := GainsLittle(o, used);
      if declined { return Declined; }
      var ok, pre, post, text, items, n, sent, requests := Compact(ctx, o, m, interim);
      if !ok {
        var fallback := FallBackAfterFailure(ctx, used, limit, LandingTokens(limit, threshold));
        latched := true;
        return FellBack;
      }
      HistoryRewritten(o, m, old(ctx.messages), ctx.messages, text, items, n, sent, requests);
      latched := false;
      d := Rewrote;
    }

    /** Whether a compaction could give back less than a twentieth. */
    method GainsLittle(o: CompactOpts, used: int) returns (declined: bool)
      ensures Weighed(o, used, processPromptTokens, declined)
    {
      hide RestoresTokens, Weighed;
      var reclaimable := if used - processPromptTokens > 0 then used - processPromptTokens else 0;
      var restoreTokens := EstimateRestoreTokens(o);
      WeighedBy(o, used, processPromptTokens, restoreTokens);
      var compressible := if reclaimable - restoreTokens > 0 then reclaimable - restoreTokens else 0;
      declined := reclaimable > 0 && compressible * 100 < reclaimable * MIN_COMPACTION_FRACTION_PCT;
    }

    /** A compaction asked for by hand; success clears the latch. */
    method CompactByHand(o: CompactOpts, m: Summariser, interim: seq<Message>) returns (ok: bool)
      modifies this`latched, ctx`messages
      ensures ok ==> !latched && AfterCompaction(o, m, old(ctx.messages), ctx.messages)
      ensures !ok ==> latched == old(latched) && CannotCompact(m, old(ctx.messages))
      ensures !ok ==> ctx.messages == Left(old(ctx.messages), interim)
    {
      hide Total, Restores, Brings, Rewritten, Answers, NoAnswer, AfterCompaction;
      var done, pre, post, text, items, n, sent, requests := Compact(ctx, o, m, interim);
      if done {
        HistoryRewritten(o, m, old(ctx.messages), ctx.messages, text, items, n, sent, requests);
        latched := false;
      }
      ok := done;
    }

    /** Over any number of turns, whatever is appended in between and whatever each
        compaction finds: an automatic compaction fails once, and once more for every
        time a manual one has cleared the latch. */
    method Steps(turns: seq<Turn>) returns (failures: nat, cleared: nat)
      modifies this`latched, ctx`messages
      ensures failures + (if old(latched) then 1 else 0) == cleared + if latched then 1 else 0
      ensures (forall i :: 0 <= i < |turns| ==> turns[i].Step?) ==> cleared == 0
    {
      failures, cleared := 0, 0;
      for i := 0 to |turns|
        invariant failures + (if old(latched) then 1 else 0) == cleared + if latched then 1 else 0
        invariant (forall j :: 0 <= j < i ==> turns[j].Step?) ==> cleared == 0
      {
        var before := latched;
        match turns[i]
        case Step(role, content, opts, summariser, interim) =>
          var ok := ctx.AppendMessage(role, content);
          var d := AutoCompactIfNeeded(opts, summariser, interim);
          if d.FellBack? { failures := failures + 1; }
        case Manual(opts, summariser, interim) =>
          var ok := CompactByHand(opts, summariser, interim);
          if before && ok { cleared := cleared + 1; }
      }
    }
  }
}
