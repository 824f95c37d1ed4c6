/** API rounds: how a history splits at its assistant messages, which results answer
    which calls, and what dropping leading rounds leaves. */
module Rounds {
  import opened Tokens

  const DROPPED_HISTORY_MARKER := "[earlier conversation history dropped to free context]"
  const MIN_MESSAGES_FOR_COMPACT := 2

  type Group = seq<Message>

  /** A new group starts at every assistant message but a leading one. */
  function Groups(ms: seq<Message>): seq<Group> {
    if ms == [] then []
    else
      var gs, m := Groups(ms[..|ms| - 1]), ms[|ms| - 1];
      if gs == [] || m.role == Assistant then gs + [[m]]
      else gs[..|gs| - 1] + [gs[|gs| - 1] + [m]]
  }

  function Flatten(gs: seq<Group>): seq<Message> {
    if gs == [] then [] else Flatten(gs[..|gs| - 1]) + gs[|gs| - 1]
  }

  ghost predicate IsRound(g: Group, first: bool) {
    && g != []
    && (first || g[0].role == Assistant)
    && forall i :: 0 < i < |g| ==> g[i].role != Assistant
  }

  /** What grouping yields: nonempty groups, each later one headed by an assistant
      message and holding no other. */
  ghost predicate AreRounds(gs: seq<Group>) {
    forall k :: 0 <= k < |gs| ==> IsRound(gs[k], k == 0)
  }

  lemma {:induction false} FlattenConcat(a: seq<Group>, b: seq<Group>)
    ensures Flatten(a + b) == Flatten(a) + Flatten(b)
  {
    if b == [] {
      assert a + b == a;
    } else {
      var k := |b| - 1;
      assert (a + b)[..|a + b| - 1] == a + b[..k];
      FlattenConcat(a, b[..k]);
    }
  }

  lemma FlattenMore(gs: seq<Group>, g: Group)
    ensures Flatten(gs + [g]) == Flatten(gs) + g
  {
    assert (gs + [g])[..|gs|] == gs;
  }

  lemma LastGroupGrows(gs: seq<Group>, m: Message)
    requires gs != [] && AreRounds(gs) && m.role != Assistant
    ensures var now := gs[..|gs| - 1] + [gs[|gs| - 1] + [m]];
            AreRounds(now) && Flatten(now) == Flatten(gs) + [m]
  {
    hide Flatten;
    var last := gs[|gs| - 1];
    var now := gs[..|gs| - 1] + [last + [m]];
    FlattenMore(gs[..|gs| - 1], last + [m]);
    FlattenMore(gs[..|gs| - 1], last);
    assert gs == gs[..|gs| - 1] + [last];
    forall k | 0 <= k < |now| ensures IsRound(now[k], k == 0) {
      assert IsRound(gs[k], k == 0);
    }
  }

  lemma NewGroup(gs: seq<Group>, m: Message)
    requires AreRounds(gs) && (gs == [] || m.role == Assistant)
    ensures AreRounds(gs + [[m]]) && Flatten(gs + [[m]]) == Flatten(gs) + [m]
  {
    hide Flatten;
    FlattenMore(gs, [m]);
    forall k | 0 <= k < |gs| ensures IsRound((gs + [[m]])[k], k == 0) {
      assert IsRound(gs[k], k == 0);
    }
  }

  lemma GroupsUnfold(ms: seq<Message>)
    requires ms != []
    ensures var gs, m := Groups(ms[..|ms| - 1]), ms[|ms| - 1];
            Groups(ms) == if gs == [] || m.role == Assistant then gs + [[m]]
                          else gs[..|gs| - 1] + [gs[|gs| - 1] + [m]]
  {
  }

  /** Flattening the groups gives the history back. */
  lemma {:induction false} GroupsRoundTrip(ms: seq<Message>)
    ensures Flatten(Groups(ms)) == ms && AreRounds(Groups(ms))
    ensures ms != [] ==> Groups(ms) != []
  {
    if ms == [] {
      NoRounds();
    } else {
      hide *;
      var n := |ms| - 1;
      GroupsRoundTrip(ms[..n]);
      GroupsUnfold(ms);
      var gs, m := Groups(ms[..n]), ms[n];
      if gs == [] || m.role == Assistant {
        NewGroup(gs, m);
      } else {
        LastGroupGrows(gs, m);
      }
      assert ms == ms[..n] + [m];
      assert Flatten(Groups(ms)) == ms && AreRounds(Groups(ms)) && Groups(ms) != [];
    }
  }

  lemma NoRounds()
    ensures AreRounds([])
  {
  }

  /** Adding a message that heads no round of its own extends the last group. */
  lemma {:induction false} GroupsExtend(ms: seq<Message>, g: Group, i: nat)
    requires 1 <= i <= |g| && forall j :: 0 < j < |g| ==> g[j].role != Assistant
    requires g[0].role == Assistant || ms == []
    ensures Groups(ms + g[..i]) == Groups(ms) + [g[..i]]
  {
    hide Groups;
    var all := ms + g[..i];
    assert all[..|all| - 1] == ms + g[..i - 1] && all[|all| - 1] == g[i - 1];
    GroupsUnfold(all);
    if i == 1 {
      assert ms + g[..0] == ms && g[..1] == [g[0]];
      if ms == [] { NoGroups(); }
    } else {
      GroupsExtend(ms, g, i - 1);
      assert g[..i - 1] + [g[i - 1]] == g[..i];
      var gs := Groups(ms) + [g[..i - 1]];
      assert gs[..|gs| - 1] == Groups(ms) && gs[|gs| - 1] == g[..i - 1];
    }
  }

  lemma NoGroups()
    ensures Groups([]) == []
  {
  }

  /** Grouping is the only way to cut a history into rounds. */
  lemma {:induction false} GroupsUnique(gs: seq<Group>)
    requires AreRounds(gs)
    ensures Groups(Flatten(gs)) == gs
  {
    if gs != [] {
      var n := |gs| - 1;
      GroupsUnique(gs[..n]);
      var g := gs[n];
      assert IsRound(g, n == 0);
      assert g[..|g|] == g;
      GroupsExtend(Flatten(gs[..n]), g, |g|);
      assert gs == gs[..n] + [g];
    }
  }

  /** Leading groups leave as a whole: the rest groups as it did. */
  lemma SuffixGroups(ms: seq<Message>, k: nat)
    requires k <= |Groups(ms)|
    ensures Groups(Flatten(Groups(ms)[k..])) == Groups(ms)[k..]
    ensures ms == Flatten(Groups(ms)[..k]) + Flatten(Groups(ms)[k..])
  {
    GroupsRoundTrip(ms);
    var gs := Groups(ms);
    assert gs == gs[..k] + gs[k..];
    FlattenConcat(gs[..k], gs[k..]);
    assert AreRounds(gs[k..]);
    GroupsUnique(gs[k..]);
  }

  /** Computes the rounds in one pass: a round ends where the next assistant message
      begins. */
  method GroupMessagesByApiRound(messages: seq<Message>) returns (groups: seq<Group>)
    ensures groups == Groups(messages)
  {
    groups := [];
    var current: Group := [];
    for i := 0 to |messages|
      invariant current == [] ==> groups == [] && i == 0
      invariant Groups(messages[..i]) == if current == [] then groups else groups + [current]
    {
      var msg := messages[i];
      assert messages[..i + 1][..i] == messages[..i];
      if msg.role == Assistant && |current| > 0 {
        groups := groups + [current];
        current := [];
        assert [] + [msg] == [msg];
      } else if current != [] {
        ghost var gs := groups + [current];
        assert gs[..|gs| - 1] == groups && gs[|gs| - 1] == current;
      } else {
        assert Groups(messages[..i]) == [];
        assert [] + [msg] == [msg];
      }
      assert Groups(messages[..i + 1]) == groups + [current + [msg]];
      current := current + [msg];
    }
    assert messages[..|messages|] == messages;
    if |current| > 0 {
      groups := groups + [current];
    }
  }

  method FlattenGroups(groups: seq<Group>) returns (result: seq<Message>)
    ensures result == Flatten(groups)
  {
    result := [];
    for i := 0 to |groups|
      invariant result == Flatten(groups[..i])
    {
      assert groups[..i + 1][..i] == groups[..i];
      result := result + groups[i];
    }
    assert groups[..|groups|] == groups;
  }

  // --- pairing ----------------------------------------------------------------------------

  /** Message `j` is the last assistant message before `i`. */
  ghost predicate SpeaksFor(ms: seq<Message>, j: int, i: int) {
    && 0 <= j < i < |ms| && ms[j].role == Assistant
    && forall k :: j < k <= i ==> ms[k].role != Assistant
  }

  ghost predicate Calls(m: Message, id: string) {
    exists c :: c in m.toolCalls && c.id == id
  }

  /** Every tool result answers a call of the last assistant message before it, and
      every call is answered before the next assistant message. */
  ghost predicate Paired(ms: seq<Message>) {
    && (forall i :: 0 <= i < |ms| && ms[i].role == ToolResult ==> ResultHasCall(ms, i))
    && (forall j, c :: 0 <= j < |ms| && ms[j].role == Assistant && c in ms[j].toolCalls ==> CallHasResult(ms, j, c))
  }

  ghost predicate ResultHasCall(ms: seq<Message>, i: int)
    requires 0 <= i < |ms|
  {
    exists j :: SpeaksFor(ms, j, i) && Calls(ms[j], ms[i].toolCallId)
  }

  ghost predicate CallHasResult(ms: seq<Message>, j: int, c: ToolCall) {
    exists i :: SpeaksFor(ms, j, i) && ms[i].role == ToolResult && ms[i].toolCallId == c.id
  }

  lemma SpeaksForShifted(p: seq<Message>, ms: seq<Message>, j: int, i: int)
    requires 0 <= j
    ensures SpeaksFor(ms, j, i) <==> SpeaksFor(p + ms, |p| + j, |p| + i)
  {
    var all := p + ms;
    if SpeaksFor(ms, j, i) {
      forall k | |p| + j < k <= |p| + i ensures all[k].role != Assistant { assert all[k] == ms[k - |p|]; }
    }
    if SpeaksFor(all, |p| + j, |p| + i) {
      forall k | j < k <= i ensures ms[k].role != Assistant { assert ms[k] == all[|p| + k]; }
    }
  }

  /** Cutting a paired history at an assistant message leaves it paired. */
  lemma CutKeepsPaired(p: seq<Message>, ms: seq<Message>)
    requires Paired(p + ms) && (ms != [] ==> ms[0].role == Assistant)
    ensures Paired(ms)
  {
    hide Calls;
    var all := p + ms;
    forall i | 0 <= i < |ms| && ms[i].role == ToolResult ensures ResultHasCall(ms, i) {
      assert all[|p| + i] == ms[i];
      assert ResultHasCall(all, |p| + i);
      var j :| SpeaksFor(all, j, |p| + i) && Calls(all[j], ms[i].toolCallId);
      assert all[|p|] == ms[0];
      SpeaksForShifted(p, ms, j - |p|, i);
      assert all[j] == ms[j - |p|];
    }
    forall j, c | 0 <= j < |ms| && ms[j].role == Assistant && c in ms[j].toolCalls ensures CallHasResult(ms, j, c) {
      assert all[|p| + j] == ms[j];
      assert CallHasResult(all, |p| + j, c);
      var i :| SpeaksFor(all, |p| + j, i) && all[i].role == ToolResult && all[i].toolCallId == c.id;
      SpeaksForShifted(p, ms, j, i - |p|);
      assert all[i] == ms[i - |p|];
    }
  }

  /** Messages of the user's in front neither pair nor part anything. */
  lemma UsersInFront(h: seq<Message>, ms: seq<Message>)
    requires forall i :: 0 <= i < |h| ==> h[i].role == User
    ensures Paired(h + ms) <==> Paired(ms)
  {
    hide Calls, SpeaksFor;
    var all := h + ms;
    forall i | 0 <= i < |ms| ensures ResultHasCall(all, |h| + i) <==> ResultHasCall(ms, i) { SameCaller(h, ms, i); }
    forall j, c | 0 <= j < |ms| ensures CallHasResult(all, |h| + j, c) <==> CallHasResult(ms, j, c) {
      SameResult(h, ms, j, c);
    }
    hide ResultHasCall, CallHasResult;
    assert forall i :: 0 <= i < |ms| ==> all[|h| + i] == ms[i];
    if Paired(ms) {
      forall i | 0 <= i < |all| && all[i].role == ToolResult ensures ResultHasCall(all, i) {
        assert all[i] == ms[i - |h|];
        assert ResultHasCall(all, |h| + (i - |h|));
      }
      forall j, c | 0 <= j < |all| && all[j].role == Assistant && c in all[j].toolCalls ensures CallHasResult(all, j, c) {
        assert all[j] == ms[j - |h|];
        assert CallHasResult(all, |h| + (j - |h|), c);
      }
    }
  }

  lemma SameCaller(h: seq<Message>, ms: seq<Message>, i: int)
    requires 0 <= i < |ms| && forall k :: 0 <= k < |h| ==> h[k].role == User
    ensures ResultHasCall(h + ms, |h| + i) <==> ResultHasCall(ms, i)
  {
    hide Calls;
    var all := h + ms;
    if j :| SpeaksFor(ms, j, i) && Calls(ms[j], ms[i].toolCallId) {
      SpeaksForShifted(h, ms, j, i);
      assert all[|h| + j] == ms[j];
    }
    if j :| SpeaksFor(all, j, |h| + i) && Calls(all[j], all[|h| + i].toolCallId) {
      assert j >= |h|;
      SpeaksForShifted(h, ms, j - |h|, i);
      assert all[j] == ms[j - |h|];
    }
  }

  lemma SameResult(h: seq<Message>, ms: seq<Message>, j: int, c: ToolCall)
    requires 0 <= j < |ms|
    ensures CallHasResult(h + ms, |h| + j, c) <==> CallHasResult(ms, j, c)
  {
    var all := h + ms;
    if i :| SpeaksFor(ms, j, i) && ms[i].role == ToolResult && ms[i].toolCallId == c.id {
      SpeaksForShifted(h, ms, j, i);
      assert all[|h| + i] == ms[i];
    }
    if i :| SpeaksFor(all, |h| + j, i) && all[i].role == ToolResult && all[i].toolCallId == c.id {
      SpeaksForShifted(h, ms, j, i - |h|);
      assert all[i] == ms[i - |h|];
    }
  }

  // --- dropping the oldest rounds --------------------------------------------------------

  datatype DropResult = DropResult(droppedRounds: nat, droppedMessages: int, slotsFreed: int, tokensFreed: int)

  const NOTHING_DROPPED := DropResult(0, 0, 0, 0)

  const MARKER := PlainMessage(User, DROPPED_HISTORY_MARKER)

  /** What is left when the first `k` groups go: never headed by an assistant
      message. */
  function Remaining(ms: seq<Message>, k: nat): seq<Message>
    requires k <= |Groups(ms)|
  {
    var rest := Flatten(Groups(ms)[k..]);
    if |rest| > 0 && rest[0].role != User then [MARKER] + rest else rest
  }

  /** Messages in the first `k` groups. */
  function Size(gs: seq<Group>, k: nat): nat
    requires k <= |gs|
  {
    |Flatten(gs[..k])|
  }

  /** `k` leading groups go: as few as give the slots asked for, unless the rounds to
      keep, or the two messages always kept, stop it short. */
  ghost predicate DropCount(gs: seq<Group>, needSlots: int, keepRounds: nat, k: nat) {
    && k <= |gs|
    && (k > 0 ==> k + keepRounds <= |gs| && Size(gs, |gs|) - Size(gs, k) >= MIN_MESSAGES_FOR_COMPACT)
    && (forall j :: 0 < j < k ==> Size(gs, j) < needSlots)
    && (k + keepRounds < |gs| && (k == 0 || Size(gs, k) < needSlots) ==>
          Size(gs, |gs|) - Size(gs, k + 1) < MIN_MESSAGES_FOR_COMPACT)
  }

  ghost predicate DropOutcome(before: seq<Message>, after: seq<Message>, needSlots: int, keep: int, r: DropResult) {
    var gs, keepRounds := Groups(before), if keep > 1 then keep else 1;
    if needSlots <= 0 || |gs| <= 1 then after == before && r == NOTHING_DROPPED
    else
      && DropCount(gs, needSlots, keepRounds, r.droppedRounds)
      && (if r.droppedRounds == 0 then after == before && r == NOTHING_DROPPED
          else
            && after == Remaining(before, r.droppedRounds)
            && r.slotsFreed == r.droppedMessages == |before| - |after|
            && r.tokensFreed == Total(before) - Total(after))
  }

  /** What follows the first `k` rounds, from an assistant message on, after the marker. */
  ghost predicate CutAt(before: seq<Message>, after: seq<Message>, cut: nat, k: nat) {
    && 0 < cut < |before| && before[cut].role == Assistant
    && after == [Message(User, "[earlier conversation history dropped to free context]", "", [], [], "")] + before[cut..]
    && Groups(before[..cut]) + Groups(before[cut..]) == Groups(before) && |Groups(before[..cut])| == k
  }

  lemma DroppedAtCut(ms: seq<Message>, k: nat)
    requires 0 < k < |Groups(ms)|
    ensures CutAt(ms, Remaining(ms, k), Size(Groups(ms), k), k)
  {
    hide Groups, Flatten;
    GroupsRoundTrip(ms);
    RestHead(ms, k);
    SuffixGroups(ms, k);
    var gone, rest := Flatten(Groups(ms)[..k]), Flatten(Groups(ms)[k..]);
    assert AreRounds(Groups(ms)[..k]);
    GroupsUnique(Groups(ms)[..k]);
    assert ms[..|gone|] == gone && ms[|gone|..] == rest;
    assert Groups(ms)[..k] + Groups(ms)[k..] == Groups(ms);
  }

  /** A paired history stays paired, and if anything was dropped it is headed by a
      message of the user's.  The signed reports are the true differences. */
  lemma DropIsLawful(before: seq<Message>, after: seq<Message>, needSlots: int, keep: int, r: DropResult)
    requires DropOutcome(before, after, needSlots, keep, r)
    ensures Paired(before) ==> Paired(after)
    ensures r.droppedRounds > 0 ==> |after| >= 2 && after[0].role == User
    ensures |after| == |before| - r.slotsFreed && Total(after) == Total(before) - r.tokensFreed
    ensures r.droppedRounds > 0 ==> exists cut: nat :: CutAt(before, after, cut, r.droppedRounds)
    ensures r.droppedRounds == 0 ==> after == before && r == NOTHING_DROPPED
  {
    hide Paired, Total, Groups, Weight, CutAt;
    if needSlots > 0 && |Groups(before)| > 1 && r.droppedRounds > 0 {
      var k := r.droppedRounds;
      var rest := Flatten(Groups(before)[k..]);
      RestHead(before, k);
      var gone := Flatten(Groups(before)[..k]);
      assert before == gone + rest;
      assert Groups(before)[..|Groups(before)|] == Groups(before);
      DroppedAtCut(before, k);
      if Paired(before) {
        CutKeepsPaired(gone, rest);
        UsersInFront([MARKER], rest);
      }
    }
  }

  lemma {:induction false} FlattenHead(gs: seq<Group>)
    requires gs != [] && gs[0] != []
    ensures Flatten(gs) != [] && Flatten(gs)[0] == gs[0][0]
  {
    var n := |gs| - 1;
    if n == 0 {
      assert Flatten(gs[..0]) == [];
    } else {
      FlattenHead(gs[..n]);
    }
  }

  lemma RestHead(ms: seq<Message>, k: nat)
    requires 0 < k < |Groups(ms)|
    ensures var rest := Flatten(Groups(ms)[k..]); rest != [] && rest[0].role == Assistant
    ensures ms == Flatten(Groups(ms)[..k]) + Flatten(Groups(ms)[k..])
    ensures Flatten(Groups(ms)) == ms
  {
    hide Groups, Flatten;
    GroupsRoundTrip(ms);
    SuffixGroups(ms, k);
    assert IsRound(Groups(ms)[k], false);
    FlattenHead(Groups(ms)[k..]);
  }
}
