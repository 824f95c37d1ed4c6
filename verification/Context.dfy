/** A context's message store: admission, token accounting, and the two mechanical
    ways of reclaiming room. */
module Contexts {
  import opened Sums
  import opened Tokens
  import opened Truncation
  import opened Pruning
  import opened Rounds

  const DEFAULT_TOKEN_LIMIT := 200000

  class Context {
    var systemPrompt: string
    var messages: seq<Message>
    var maxSize: int
    var tokenLimit: int

    constructor (systemPrompt: string, maxSize: int, tokenLimit: int)
      ensures this.systemPrompt == systemPrompt && messages == []
      ensures this.maxSize == maxSize && this.tokenLimit == tokenLimit
    {
      this.systemPrompt, messages, this.maxSize, this.tokenLimit := systemPrompt, [], maxSize, tokenLimit;
    }

    /** Whether `n` more messages may be appended; without a ceiling they always may. */
    predicate HasRoom(n: nat)
      reads `messages, `maxSize
    {
      maxSize <= 0 || |messages| + n <= maxSize
    }

    function Limit(): (limit: int)
      reads `tokenLimit
      ensures limit > 0
    {
      if tokenLimit > 0 then tokenLimit else DEFAULT_TOKEN_LIMIT
    }

    ghost function Used(): nat
      reads `systemPrompt, `messages
    {
      Estimate(systemPrompt) + Total(messages)
    }

    method TokenUsage() returns (used: int, limit: int)
      ensures used == Used() && limit == Limit()
      ensures used == Estimate(systemPrompt) + Sum(Weights(messages))
      ensures limit == if tokenLimit > 0 then tokenLimit else 200000
    {
      hide Estimate;
      used := EstimateTokens(systemPrompt);
      for i := 0 to |messages|
        invariant used == Estimate(systemPrompt) + Total(messages[..i])
      {
        assert messages[..i + 1][..i] == messages[..i];
        var t := EstimateMessageTokens(messages[i]);
        used := used + t;
      }
      assert messages[..|messages|] == messages;
      TotalIsSum(messages);
      limit := Limit();
    }

    method AppendMessage(role: Role, content: string) returns (ok: bool)
      modifies `messages
      ensures ok <==> maxSize <= 0 || |old(messages)| < maxSize
      ensures messages == if ok then old(messages) + [Message(role, content, "", [], [], "")] else old(messages)
    {
      if maxSize > 0 && |messages| >= maxSize { return false; }
      messages := messages + [PlainMessage(role, content)];
      ok := true;
    }

    method AppendToolResult(toolCallId: string, content: string) returns (ok: bool)
      modifies `messages
      ensures ok <==> maxSize <= 0 || |old(messages)| < maxSize
      ensures messages == if ok then old(messages) + [Message(ToolResult, content, toolCallId, [], [], "")] else old(messages)
    {
      if maxSize > 0 && |messages| >= maxSize { return false; }
      messages := messages + [ResultMessage(toolCallId, content)];
      ok := true;
    }

    /** Admitted only if every tool result of the turn will fit too. */
    method AppendAssistantWithToolCalls(content: string, reasoning: string, blocks: seq<ReasoningBlock>,
            calls: seq<ToolCall>)
      returns (ok: bool)
      modifies `messages
      ensures ok <==> maxSize <= 0 || |old(messages)| + 1 + |calls| <= maxSize
      ensures messages == if ok then old(messages) + [Message(Assistant, content, "", calls, blocks, reasoning)] else old(messages)
      ensures ok ==> HasRoom(|calls|)
    {
      var required := 1 + |calls|;
      if maxSize > 0 && |messages| + required > maxSize { return false; }
      messages := messages + [Message(Assistant, content, "", calls, blocks, reasoning)];
      ok := true;
    }

    /** One turn with its tool results: either all of it is appended, or nothing is
        and the turn was refused at its head.  A paired history stays paired. */
    method RecordTurn(content: string, reasoning: string, blocks: seq<ReasoningBlock>, calls: seq<ToolCall>,
            results: seq<string>)
      returns (ok: bool)
      requires |results| == |calls|
      modifies `messages
      ensures ok <==> maxSize <= 0 || |old(messages)| + 1 + |calls| <= maxSize
      ensures !ok ==> messages == old(messages)
      ensures ok ==>
                && |messages| == |old(messages)| + 1 + |calls| && messages[..|old(messages)|] == old(messages)
                && messages[|old(messages)|] == Message(Assistant, content, "", calls, blocks, reasoning)
                && forall i :: 0 <= i < |calls| ==>
                     messages[|old(messages)| + 1 + i] == Message(ToolResult, results[i], calls[i].id, [], [], "")
      ensures old(Paired(messages)) ==> Paired(messages)
    {
      hide Paired;
      ok := AppendAssistantWithToolCalls(content, reasoning, blocks, calls);
      if !ok { return; }
      ghost var head := Message(Assistant, content, "", calls, blocks, reasoning);
      for i := 0 to |calls|
        invariant messages == old(messages) + [head] + Results(calls, results, i) && HasRoom(|calls| - i)
      {
        var fits := AppendToolResult(calls[i].id, results[i]);
        assert fits;
      }
      assert messages == old(messages) + Turn(content, reasoning, blocks, calls, results);
      if old(Paired(messages)) {
        TurnKeepsPaired(old(messages), content, reasoning, blocks, calls, results);
      }
    }

    /** Clears cold oversized tool results. */
    method PruneToolResults(o: PruneOpts) returns (r: PruneResult)
      modifies `messages
      ensures PruneOutcome(old(messages), messages, o, r)
    {
      hide ColdZoneEnd, IsCandidate, Weight, Candidates, WeightAt, GainAt, Gain, ClearAll;
      var placeholder := if o.placeholder == "" then DEFAULT_PRUNE_PLACEHOLDER else o.placeholder;
      ghost var before := messages;
      var candidates, candidateTokens, releasableTokens := Scan(placeholder);
      r := PruneResult(0, 0, candidateTokens, releasableTokens);
      NoneCleared(before, placeholder, candidates);
      if o.minTokens > 0 && candidateTokens < o.minTokens { return; }
      if o.clearAtLeast > 0 && releasableTokens < o.clearAtLeast { return; }
      var target := o.targetTokens;
      if o.clearAtLeast > 0 && o.targetTokens > 0 && o.targetTokens < o.clearAtLeast {
        target := o.clearAtLeast;
      }
      var pruned, tokensFreed := Rewrite(candidates, placeholder, target);
      r := PruneResult(pruned, tokensFreed, candidateTokens, releasableTokens);
    }

    /** First pass: the candidates, what they weigh, and what clearing them frees. */
    method Scan(placeholder: string) returns (candidates: seq<nat>, candidateTokens: nat, releasableTokens: nat)
      ensures candidates == Candidates(messages, placeholder, ColdZoneEnd(|messages|))
      ensures candidateTokens == WeightAt(messages, candidates)
      ensures releasableTokens == GainAt(messages, candidates, placeholder)
    {
      hide ColdZoneEnd, Weight;
      var coldEnd := ColdZoneEnd(|messages|);
      candidates, candidateTokens, releasableTokens := [], 0, 0;
      for i := 0 to coldEnd
        invariant candidates == Candidates(messages, placeholder, i)
        invariant candidateTokens == WeightAt(messages, candidates)
        invariant releasableTokens == GainAt(messages, candidates, placeholder)
      {
        var msg := messages[i];
        if !IsLeakedToolResult(msg) { continue; }
        if msg.content == placeholder { continue; }
        assert (candidates + [i])[..|candidates|] == candidates;
        candidates := candidates + [i];
        var before := EstimateMessageTokens(msg);
        candidateTokens := candidateTokens + before;
        var after := EstimateMessageTokens(msg.(content := placeholder));
        if before - after > 0 {
          releasableTokens := releasableTokens + (before - after);
        }
      }
    }

    /** Second pass: clears candidates until the target, if there is one, is met. */
    method Rewrite(candidates: seq<nat>, placeholder: string, target: int) returns (pruned: nat, tokensFreed: nat)
      requires Indices(messages, candidates)
      modifies `messages
      ensures pruned <= |candidates| && messages == ClearAll(old(messages), candidates[..pruned], placeholder)
      ensures tokensFreed == GainAt(old(messages), candidates[..pruned], placeholder)
      ensures pruned < |candidates| ==> target > 0 && pruned > 0 && tokensFreed >= target
      ensures target > 0 ==> forall k :: 0 < k < pruned ==> GainAt(old(messages), candidates[..k], placeholder) < target
    {
      hide Weight, ClearAll, GainAt;
      pruned, tokensFreed := 0, 0;
      ghost var old0 := messages;
      NoneRewritten(old0, candidates, placeholder);
      while pruned < |candidates|
        invariant pruned <= |candidates| && messages == ClearAll(old0, candidates[..pruned], placeholder)
        invariant tokensFreed == GainAt(old0, candidates[..pruned], placeholder)
        invariant target > 0 ==> forall k :: 0 < k <= pruned ==> GainAt(old0, candidates[..k], placeholder) < target
      {
        var i := candidates[pruned];
        OneMoreCleared(old0, candidates, placeholder, pruned);
        var before := EstimateMessageTokens(messages[i]);
        messages := messages[i := messages[i].(content := placeholder)];
        var after := EstimateMessageTokens(messages[i]);
        pruned := pruned + 1;
        if before - after > 0 {
          tokensFreed := tokensFreed + (before - after);
        }
        if target > 0 && tokensFreed >= target { return; }
      }
    }

    /** Drops the oldest rounds until enough slots are free. */
    method DropOldestRounds(needSlots: int, keep: int) returns (r: DropResult)
      modifies `messages
      ensures DropOutcome(old(messages), messages, needSlots, keep, r)
    {
      hide Groups, Flatten, Weight, Total;
      r := NOTHING_DROPPED;
      if needSlots <= 0 { return; }
      var groups := GroupMessagesByApiRound(messages);
      if |groups| <= 1 { return; }
      var keepRounds := if keep > 1 then keep else 1;
      var dropUpTo, freed, tokensFreed := CountDroppable(groups, needSlots, keepRounds);
      if dropUpTo == 0 { return; }
      ghost var before := messages;
      DropDifference(before, dropUpTo);
      messages := FlattenGroups(groups[dropUpTo..]);
      var slots: int, tokens: int := freed, tokensFreed;
      if |messages| > 0 && messages[0].role != User {
        messages := [PlainMessage(User, DROPPED_HISTORY_MARKER)] + messages;
        slots := slots - 1;
        var t := EstimateMessageTokens(PlainMessage(User, DROPPED_HISTORY_MARKER));
        tokens := tokens - t;
      }
      r := DropResult(dropUpTo, slots, slots, tokens);
    }

    /** How many leading groups may and need go, and what they hold. */
    method CountDroppable(groups: seq<Group>, needSlots: int, keepRounds: nat) returns (dropUpTo: nat,
            freed: nat, tokensFreed: nat)
      requires groups == Groups(messages) && |groups| > 1 && keepRounds >= 1 && needSlots > 0
      ensures DropCount(groups, needSlots, keepRounds, dropUpTo)
      ensures freed == Size(groups, dropUpTo) && tokensFreed == Total(Flatten(groups[..dropUpTo]))
    {
      hide Groups, Flatten, Weight, Total;
      dropUpTo, freed, tokensFreed := 0, 0, 0;
      var total := |messages|;
      GroupsRoundTrip(messages);
      assert groups[..|groups|] == groups;
      NothingFlat(groups);
      while dropUpTo < |groups| - keepRounds
        invariant dropUpTo <= |groups| && freed == Size(groups, dropUpTo) && tokensFreed == Total(Flatten(groups[..dropUpTo]))
        invariant dropUpTo > 0 ==> dropUpTo + keepRounds <= |groups| && total - freed >= MIN_MESSAGES_FOR_COMPACT
        invariant forall j :: 0 < j <= dropUpTo ==> Size(groups, j) < needSlots
      {
        var group := groups[dropUpTo];
        SizeNext(groups, dropUpTo);
        if total - freed - |group| < MIN_MESSAGES_FOR_COMPACT { return; }
        for i := 0 to |group|
          invariant tokensFreed == Total(Flatten(groups[..dropUpTo])) + Total(group[..i])
        {
          TotalNext(group, i);
          var t := EstimateMessageTokens(group[i]);
          tokensFreed := tokensFreed + t;
        }
        assert group[..|group|] == group;
        freed := freed + |group|;
        dropUpTo := dropUpTo + 1;
        if freed >= needSlots { return; }
      }
    }
  }

  lemma NoneRewritten(ms: seq<Message>, cs: seq<nat>, placeholder: string)
    requires Indices(ms, cs)
    ensures ClearAll(ms, cs[..0], placeholder) == ms && GainAt(ms, cs[..0], placeholder) == 0
  {
  }

  lemma OneMoreCleared(ms: seq<Message>, cs: seq<nat>, placeholder: string, k: nat)
    requires Indices(ms, cs) && k < |cs|
    ensures var now, i := ClearAll(ms, cs[..k], placeholder), cs[k];
            && now[i] == ms[i] && ClearAll(ms, cs[..k + 1], placeholder) == now[i := Cleared(now[i], placeholder)]
            && GainAt(ms, cs[..k + 1], placeholder) == GainAt(ms, cs[..k], placeholder) + Gain(ms[i], placeholder)
  {
    hide Gain;
    assert cs[..k + 1][..k] == cs[..k];
    ClearAllAt(ms, cs[..k], placeholder, cs[k]);
  }

  function ResultMessage(toolCallId: string, content: string): Message {
    Message(ToolResult, content, toolCallId, [], [], "")
  }

  function Results(calls: seq<ToolCall>, results: seq<string>, n: nat): seq<Message>
    requires n <= |calls| == |results|
  {
    seq(n, i requires 0 <= i < n => ResultMessage(calls[i].id, results[i]))
  }

  function Turn(content: string, reasoning: string, blocks: seq<ReasoningBlock>, calls: seq<ToolCall>,
          results: seq<string>): seq<Message>
    requires |results| == |calls|
  {
    [Message(Assistant, content, "", calls, blocks, reasoning)] + Results(calls, results, |calls|)
  }

  lemma TurnKeepsPaired(ms: seq<Message>, content: string, reasoning: string, blocks: seq<ReasoningBlock>,
          calls: seq<ToolCall>, results: seq<string>)
    requires |results| == |calls| && Paired(ms)
    ensures Paired(ms + Turn(content, reasoning, blocks, calls, results))
  {
    var turn := Turn(content, reasoning, blocks, calls, results);
    var all, n := ms + turn, |ms|;
    assert all[n].role == Assistant && all[n].toolCalls == calls;
    forall i | n < i < |all| ensures SpeaksFor(all, n, i) && all[i] == ResultMessage(calls[i - n - 1].id, results[i - n - 1]) {}
    forall i | 0 <= i < |all| && all[i].role == ToolResult ensures ResultHasCall(all, i) {
      if i < n {
        OldResult(ms, turn, i);
      } else {
        assert calls[i - n - 1] in all[n].toolCalls;
        assert SpeaksFor(all, n, i) && Calls(all[n], all[i].toolCallId);
      }
    }
    forall j, c | 0 <= j < |all| && all[j].role == Assistant && c in all[j].toolCalls ensures CallHasResult(all, j, c) {
      if j < n {
        OldCall(ms, turn, j, c);
      } else {
        assert j == n;
        var k :| 0 <= k < |calls| && calls[k] == c;
        assert SpeaksFor(all, n, n + 1 + k) && all[n + 1 + k].toolCallId == c.id;
      }
    }
  }

  lemma OldResult(ms: seq<Message>, turn: seq<Message>, i: nat)
    requires Paired(ms) && i < |ms| && ms[i].role == ToolResult
    ensures ResultHasCall(ms + turn, i)
  {
    hide Calls;
    assert ResultHasCall(ms, i);
    var j :| SpeaksFor(ms, j, i) && Calls(ms[j], ms[i].toolCallId);
    assert SpeaksFor(ms + turn, j, i) && (ms + turn)[j] == ms[j];
  }

  lemma OldCall(ms: seq<Message>, turn: seq<Message>, j: nat, c: ToolCall)
    requires Paired(ms) && j < |ms| && ms[j].role == Assistant && c in ms[j].toolCalls
    ensures CallHasResult(ms + turn, j, c)
  {
    assert CallHasResult(ms, j, c);
    var i :| SpeaksFor(ms, j, i) && ms[i].role == ToolResult && ms[i].toolCallId == c.id;
    assert SpeaksFor(ms + turn, j, i) && (ms + turn)[i] == ms[i];
  }

  lemma NothingFlat(gs: seq<Group>)
    ensures Flatten(gs[..0]) == [] && Total([]) == 0 && Size(gs, 0) == 0
  {
  }

  lemma SizeNext(gs: seq<Group>, k: nat)
    requires k < |gs|
    ensures Size(gs, k + 1) == Size(gs, k) + |gs[k]|
    ensures Total(Flatten(gs[..k + 1])) == Total(Flatten(gs[..k])) + Total(gs[k])
    ensures Total(gs[k][..0]) == 0
  {
    assert gs[..k + 1][..k] == gs[..k];
    TotalConcat(Flatten(gs[..k]), gs[k]);
  }

  lemma TotalNext(ms: seq<Message>, i: nat)
    requires i < |ms|
    ensures Total(ms[..i + 1]) == Total(ms[..i]) + Weight(ms[i])
  {
    assert ms[..i + 1][..i] == ms[..i];
  }

  /** What dropping `k` groups takes away, the marker included. */
  lemma DropDifference(ms: seq<Message>, k: nat)
    requires 0 < k < |Groups(ms)|
    ensures var rest, gone := Flatten(Groups(ms)[k..]), Flatten(Groups(ms)[..k]);
            && |ms| == |gone| + |rest| && Total(ms) == Total(gone) + Total(rest)
            && Total([MARKER] + rest) == Weight(MARKER) + Total(rest)
            && Remaining(ms, k) == if |rest| > 0 && rest[0].role != User then [MARKER] + rest else rest
  {
    hide Weight, Groups, Flatten;
    var rest, gone := Flatten(Groups(ms)[k..]), Flatten(Groups(ms)[..k]);
    RestHead(ms, k);
    TotalConcat(gone, rest);
    TotalConcat([MARKER], rest);
    assert [MARKER][..0] == [];
  }

  lemma NoneCleared(ms: seq<Message>, placeholder: string, candidates: seq<nat>)
    requires candidates == Candidates(ms, placeholder, ColdZoneEnd(|ms|))
    ensures Indices(ms, candidates)
    ensures candidates[..0] == [] && ClearAll(ms, [], placeholder) == ms && GainAt(ms, [], placeholder) == 0
  {
    CandidatesAre(ms, placeholder, ColdZoneEnd(|ms|));
  }
}
