/** Compaction: the request and its retries, what is put back afterwards, and the
    accounting of the whole. */
module Compaction {
  import opened Sums
  import opened Tokens
  import opened Truncation
  import opened Pruning
  import opened Rounds
  import opened Contexts

  const MAX_RESTORE_FILES := 5
  const MAX_RESTORE_FILE_TOKENS := 50000
  const PER_FILE_TOKEN_LIMIT := 5000
  const MAX_SKILL_TOKENS := 25000
  const PER_SKILL_TOKEN_LIMIT := 5000
  const MAX_PTL_RETRIES := 3
  const COMPACT_TOOL_RESULT_TOKEN_LIMIT := 600

  // --- the request ------------------------------------------------------------------------

  datatype Reply = Summary(text: string) | PromptTooLong | Failed

  datatype Outcome = Compacted(summary: string) | GaveUp

  /** Request `k` is the conversation without its first `k` rounds. */
  ghost predicate RequestAt(requests: seq<seq<Message>>, conversation: seq<Message>, prompt: Message, k: nat)
    requires k < |requests| <= |Groups(conversation)|
  {
    requests[k] == Flatten(Groups(conversation)[k..]) + [prompt]
  }

  /** The requests made: at most three, each but the last refused as too long. */
  ghost predicate Attempts(requests: seq<seq<Message>>, conversation: seq<Message>, prompt: Message,
          llm: seq<Message> -> Reply) {
    && 1 <= |requests| <= MAX_PTL_RETRIES
    && |requests| <= |Groups(conversation)|
    && (forall k :: 0 <= k < |requests| ==> RequestAt(requests, conversation, prompt, k))
    && (forall k :: 0 <= k < |requests| - 1 ==> llm(requests[k]) == PromptTooLong)
  }

  lemma OneMoreAttempt(requests: seq<seq<Message>>, conversation: seq<Message>, prompt: Message,
          llm: seq<Message> -> Reply)
    requires |requests| < MAX_PTL_RETRIES && |requests| < |Groups(conversation)|
    requires requests != [] ==> Attempts(requests, conversation, prompt, llm) && llm(requests[|requests| - 1]) == PromptTooLong
    ensures Attempts(requests + [Flatten(Groups(conversation)[|requests|..]) + [prompt]], conversation, prompt, llm)
  {
    hide Groups, Flatten;
    var more := requests + [Flatten(Groups(conversation)[|requests|..]) + [prompt]];
    forall k | 0 <= k < |more| ensures RequestAt(more, conversation, prompt, k) {
      if k < |requests| { assert RequestAt(requests, conversation, prompt, k); }
    }
  }

  lemma FirstAttempt(conversation: seq<Message>)
    requires conversation != []
    ensures Groups(conversation) != [] && Flatten(Groups(conversation)[0..]) == conversation
  {
    GroupsRoundTrip(conversation);
    assert Groups(conversation)[0..] == Groups(conversation);
  }

  /** Retries without the oldest round while the prompt is too long. */
  method CompactWithPtlRetry(llm: seq<Message> -> Reply, conversation: seq<Message>, prompt: Message)
    returns (outcome: Outcome, ghost requests: seq<seq<Message>>)
    ensures conversation == [] ==> outcome == GaveUp
    ensures conversation != [] ==>
              && Attempts(requests, conversation, prompt, llm)
              && match llm(requests[|requests| - 1])
                 case Summary(text) => outcome == Compacted(text)
                 case Failed => outcome == GaveUp
                 case PromptTooLong =>
                   outcome == GaveUp && (|requests| == MAX_PTL_RETRIES || |requests| == |Groups(conversation)|)
  {
    hide Groups, Flatten, RequestAt;
    requests := [];
    if |conversation| < 1 { return GaveUp, requests; }
    var messages := conversation;
    FirstAttempt(conversation);
    for attempt := 0 to MAX_PTL_RETRIES
      invariant |requests| == attempt && attempt < |Groups(conversation)|
      invariant messages == Flatten(Groups(conversation)[attempt..])
      invariant attempt > 0 ==> Attempts(requests, conversation, prompt, llm) && llm(requests[attempt - 1]) == PromptTooLong
    {
      var request := messages + [prompt];
      OneMoreAttempt(requests, conversation, prompt, llm);
      requests := requests + [request];
      var reply := llm(request);
      if reply.Summary? { return Compacted(reply.text), requests; }
      if reply.Failed? { return GaveUp, requests; }
      var groups := GroupMessagesByApiRound(messages);
      SuffixGroups(conversation, attempt);
      if |groups| <= 1 { return GaveUp, requests; }
      assert groups[1..] == Groups(conversation)[attempt + 1..];
      messages := FlattenGroups(groups[1..]);
    }
    outcome := GaveUp;
  }

  /** Every retry is shorter than the request before it, and a paired conversation
      stays paired in all of them. */
  lemma RetriesShrink(requests: seq<seq<Message>>, conversation: seq<Message>, prompt: Message,
          llm: seq<Message> -> Reply, k: nat)
    requires Attempts(requests, conversation, prompt, llm) && k < |requests|
    ensures k > 0 ==> |requests[k]| < |requests[k - 1]|
    ensures requests[k] != [] && (Paired(conversation) ==> Paired(requests[k][..|requests[k]| - 1]))
    ensures exists n :: 0 <= n <= |conversation| && requests[k] == conversation[n..] + [prompt]
  {
    hide Groups, Flatten, Paired;
    GroupsRoundTrip(conversation);
    SuffixGroups(conversation, k);
    assert RequestAt(requests, conversation, prompt, k);
    var rest, gone := Flatten(Groups(conversation)[k..]), Flatten(Groups(conversation)[..k]);
    assert conversation[|gone|..] == rest;
    assert requests[k][..|requests[k]| - 1] == rest;
    if k > 0 {
      RestHead(conversation, k);
      if Paired(conversation) { CutKeepsPaired(gone, rest); }
      assert RequestAt(requests, conversation, prompt, k - 1);
      var gs := Groups(conversation)[k - 1..];
      assert gs == [gs[0]] + Groups(conversation)[k..];
      FlattenConcat([gs[0]], Groups(conversation)[k..]);
      OneGroup(gs[0]);
      assert IsRound(Groups(conversation)[k - 1], k - 1 == 0);
    } else {
      assert Groups(conversation)[0..] == Groups(conversation);
    }
  }

  lemma OneGroup(g: Group)
    ensures Flatten([g]) == g
  {
    assert [g][..0] == [];
  }

  /** What a message becomes in a request: a tool result of more than 600 tokens that
      is not the placeholder is cut to a prefix that fits, with a notice of its size
      after it; everything else stays. */
  ghost predicate Shrunk(before: Message, after: Message, guess: string -> nat, notice: int -> string) {
    if before.role == ToolResult && before.content != DEFAULT_PRUNE_PLACEHOLDER
       && Estimate(before.content) > COMPACT_TOOL_RESULT_TOKEN_LIMIT
    then exists r :: ShrunkTo(before, after, guess(before.content), notice, r)
    else after == before
  }

  ghost predicate ShrunkTo(before: Message, after: Message, guess: nat, notice: int -> string, r: string) {
    && CutTo(before.content, COMPACT_TOOL_RESULT_TOKEN_LIMIT, if guess < |before.content| then guess else |before.content|, r)
    && after == before.(content := r + notice(Estimate(before.content)))
  }

  ghost predicate ShrunkAll(before: seq<Message>, after: seq<Message>, guess: string -> nat, notice: int -> string) {
    |after| == |before| && forall i :: 0 <= i < |before| ==> Shrunk(before[i], after[i], guess, notice)
  }

  /** Trims long tool results out of a copy of the history. */
  method ShrinkToolResults(messages: seq<Message>,
          guess: string -> nat, notice: int -> string) returns (shrunk: seq<Message>)
    ensures |shrunk| == |messages| && ShrunkAll(messages, shrunk, guess, notice)
  {
    hide Estimate, CutTo;
    shrunk := messages;
    for i := 0 to |messages|
      invariant |shrunk| == |messages|
      invariant forall j :: 0 <= j < i ==> Shrunk(messages[j], shrunk[j], guess, notice)
      invariant forall j :: i <= j < |messages| ==> shrunk[j] == messages[j]
    {
      if shrunk[i].role == ToolResult && shrunk[i].content != DEFAULT_PRUNE_PLACEHOLDER {
        var originalTokens := EstimateTokens(shrunk[i].content);
        var trimmed, cut := TruncateResult(shrunk[i].content, COMPACT_TOOL_RESULT_TOKEN_LIMIT, guess(shrunk[i].content));
        if cut {
          shrunk := shrunk[i := shrunk[i].(content := trimmed + notice(originalTokens))];
          assert ShrunkTo(messages[i], shrunk[i], guess(messages[i].content), notice, trimmed);
        } else {
          NothingIsShort(messages[i].content);
        }
      }
    }
  }

  lemma NothingIsShort(content: string)
    ensures content == [] ==> Estimate(content) <= COMPACT_TOOL_RESULT_TOKEN_LIMIT
  {
    if content == [] { EmptyIsFree(content); }
  }

  /** Trimming contents moves no round boundary and breaks no pair. */
  lemma ShrunkKeepsPaired(before: seq<Message>, after: seq<Message>, guess: string -> nat, notice: int -> string)
    requires ShrunkAll(before, after, guess, notice) && Paired(before)
    ensures Paired(after)
  {
    hide Calls, Shrunk;
    forall i | 0 <= i < |before|
      ensures after[i].role == before[i].role && after[i].toolCallId == before[i].toolCallId
      ensures after[i].toolCalls == before[i].toolCalls
    {
      SameButContent(before[i], after[i], guess, notice);
    }
    SameShapePaired(before, after);
  }

  lemma SameButContent(before: Message, after: Message, guess: string -> nat, notice: int -> string)
    requires Shrunk(before, after, guess, notice)
    ensures after.role == before.role && after.toolCallId == before.toolCallId && after.toolCalls == before.toolCalls
  {
  }

  /** Pairing looks at roles and ids only. */
  lemma SameShapePaired(before: seq<Message>, after: seq<Message>)
    requires |after| == |before| && Paired(before)
    requires forall i :: 0 <= i < |before| ==>
               && after[i].role == before[i].role && after[i].toolCallId == before[i].toolCallId
               && after[i].toolCalls == before[i].toolCalls
    ensures Paired(after)
  {
    hide Calls;
    forall i | 0 <= i < |after| && after[i].role == ToolResult ensures ResultHasCall(after, i) {
      assert ResultHasCall(before, i);
      var j :| SpeaksFor(before, j, i) && Calls(before[j], before[i].toolCallId);
      assert SpeaksFor(after, j, i);
      assert Calls(after[j], after[i].toolCallId) by { SameCalls(before[j], after[j], before[i].toolCallId); }
    }
    forall j, c | 0 <= j < |after| && after[j].role == Assistant && c in after[j].toolCalls ensures CallHasResult(after, j, c) {
      assert c in before[j].toolCalls && CallHasResult(before, j, c);
      var i :| SpeaksFor(before, j, i) && before[i].role == ToolResult && before[i].toolCallId == c.id;
      assert SpeaksFor(after, j, i);
    }
  }

  lemma SameCalls(a: Message, b: Message, id: string)
    requires a.toolCalls == b.toolCalls && Calls(a, id)
    ensures Calls(b, id)
  {
  }

  // --- what is put back ------------------------------------------------------------------

  datatype FileEntry = FileEntry(content: string, timestamp: int)

  datatype FileItem = FileItem(path: string, entry: FileEntry)

  datatype SkillEntry = SkillEntry(name: string, content: string)

  /** The length of the longest prefix within a budget. */
  ghost function Longest(text: string, maxTokens: nat): nat {
    if text == [] || Estimate(text) <= maxTokens then |text| else Longest(text[..|text| - 1], maxTokens)
  }

  ghost function Clip(text: string, maxTokens: nat): string
  {
    LongestInRange(text, maxTokens);
    text[..Longest(text, maxTokens)]
  }

  lemma {:induction false} LongestInRange(text: string, maxTokens: nat)
    ensures LongestFit(text, Longest(text, maxTokens), maxTokens)
  {
    if text == [] || Estimate(text) <= maxTokens {
      assert text[..|text|] == text;
      if text == [] { EmptyIsFree(text); }
    } else {
      var shorter := text[..|text| - 1];
      LongestInRange(shorter, maxTokens);
      var k := Longest(shorter, maxTokens);
      assert shorter[..k] == text[..k] && text[..|text|] == text;
      forall j | k < j <= |text| ensures !Fits(text, j, maxTokens) {
        if j < |text| { assert shorter[..j] == text[..j] && !Fits(shorter, j, maxTokens); }
      }
    }
  }

  /** The paths of the state, most recent first. */
  ghost predicate ListsByRecency(items: seq<FileItem>, state: map<string, FileEntry>) {
    && (forall i :: 0 <= i < |items| ==> items[i].path in state && items[i].entry == state[items[i].path])
    && (forall p :: p in state ==> Listed(items, p))
    && (forall i, j :: 0 <= i < j < |items| ==> items[i].path != items[j].path)
    && (forall i, j :: 0 <= i < j < |items| ==> items[i].entry.timestamp >= items[j].entry.timestamp)
  }

  ghost predicate Listed(items: seq<FileItem>, p: string) {
    exists i :: 0 <= i < |items| && items[i].path == p
  }

  ghost predicate DistinctTimes(state: map<string, FileEntry>) {
    forall p, q :: p in state && q in state && p != q ==> state[p].timestamp != state[q].timestamp
  }

  lemma SameHead(a: seq<FileItem>, b: seq<FileItem>, state: map<string, FileEntry>)
    requires ListsByRecency(a, state) && ListsByRecency(b, state) && DistinctTimes(state)
    requires a != []
    ensures b != [] && a[0] == b[0]
  {
    assert Listed(b, a[0].path);
    var j :| 0 <= j < |b| && b[j].path == a[0].path;
    assert Listed(a, b[0].path);
    var i :| 0 <= i < |a| && a[i].path == b[0].path;
    assert a[0].entry.timestamp >= a[i].entry.timestamp;
    assert b[0].entry.timestamp >= b[j].entry.timestamp;
    assert state[a[0].path].timestamp == state[b[0].path].timestamp;
  }

  /** Without ties there is one order. */
  lemma {:induction false} OneListing(a: seq<FileItem>, b: seq<FileItem>, state: map<string, FileEntry>)
    requires ListsByRecency(a, state) && ListsByRecency(b, state) && DistinctTimes(state)
    ensures a == b
    decreases |a|
  {
    hide ListsByRecency;
    if a == [] {
      if b != [] { SameHead(b, a, state); }
    } else {
      SameHead(a, b, state);
      TailLists(a, state);
      TailLists(b, state);
      OneListing(a[1..], b[1..], state - {a[0].path});
      assert a == [a[0]] + a[1..] && b == [b[0]] + b[1..];
    }
  }

  lemma TailLists(a: seq<FileItem>, state: map<string, FileEntry>)
    requires ListsByRecency(a, state) && a != []
    ensures ListsByRecency(a[1..], state - {a[0].path})
  {
    forall p | p in state - {a[0].path} ensures Listed(a[1..], p) {
      assert Listed(a, p);
      var i :| 0 <= i < |a| && a[i].path == p;
      assert a[1..][i - 1].path == p;
    }
  }

  /** The files in some order of recency; equal times come in any order. */
  method SortByRecency(state: map<string, FileEntry>) returns (items: seq<FileItem>)
    ensures ListsByRecency(items, state) && |items| == |state|
  {
    items := [];
    var rest := state.Keys;
    while rest != {}
      invariant rest <= state.Keys && |items| + |rest| == |state.Keys|
      invariant ListsByRecency(items, map p | p in state && p !in rest :: state[p])
      invariant forall i, p :: 0 <= i < |items| && p in rest ==> items[i].entry.timestamp >= state[p].timestamp
      decreases |rest|
    {
      var latest := MostRecent(state, rest);
      ghost var before := items;
      items := items + [FileItem(latest, state[latest])];
      OneMoreListed(before, rest, latest, state);
      rest := rest - {latest};
    }
    assert state == map p | p in state && p !in rest :: state[p];
    assert |state| == |state.Keys|;
  }

  lemma OneMoreListed(before: seq<FileItem>, rest: set<string>, latest: string, state: map<string, FileEntry>)
    requires latest in rest && rest <= state.Keys
    requires ListsByRecency(before, map p | p in state && p !in rest :: state[p])
    requires forall i, p :: 0 <= i < |before| && p in rest ==> before[i].entry.timestamp >= state[p].timestamp
    ensures ListsByRecency(before + [FileItem(latest, state[latest])], map p | p in state && p !in rest - {latest} :: state[p])
  {
    var items := before + [FileItem(latest, state[latest])];
    var more := map p | p in state && p !in rest - {latest} :: state[p];
    forall p | p in more ensures Listed(items, p) {
      if p == latest {
        assert items[|before|].path == p;
      } else {
        assert Listed(before, p);
        var i :| 0 <= i < |before| && before[i].path == p;
        assert items[i].path == p;
      }
    }
  }

  method MostRecent(state: map<string, FileEntry>, among: set<string>) returns (latest: string)
    requires among != {} && among <= state.Keys
    ensures latest in among && forall p :: p in among ==> state[latest].timestamp >= state[p].timestamp
  {
    latest :| latest in among;
    var rest := among - {latest};
    while rest != {}
      invariant rest <= among && latest in among
      invariant forall p :: p in among && p !in rest ==> state[latest].timestamp >= state[p].timestamp
      decreases |rest|
    {
      var p :| p in rest;
      if state[p].timestamp > state[latest].timestamp { latest := p; }
      rest := rest - {p};
    }
  }

  /** `m` is the user's and names the file before the longest prefix of its content
      within the limit. */
  ghost predicate BringsFile(m: Message, item: FileItem) {
    exists k: nat :: LongestFit(item.entry.content, k, PER_FILE_TOKEN_LIMIT) && m ==
      Message(User, "[Post-compact restore: file] " + item.path + "\n" + item.entry.content[..k], "", [], [], "")
  }

  ghost function BodyTokens(items: seq<FileItem>): nat {
    if items == [] then 0
    else BodyTokens(items[..|items| - 1]) + Estimate(Clip(items[|items| - 1].entry.content, PER_FILE_TOKEN_LIMIT))
  }

  function FirstFiles(items: seq<FileItem>): seq<FileItem> {
    if |items| <= MAX_RESTORE_FILES then items else items[..MAX_RESTORE_FILES]
  }

  lemma {:induction false} BodiesBounded(items: seq<FileItem>)
    ensures BodyTokens(items) <= PER_FILE_TOKEN_LIMIT * |items|
  {
    hide Estimate;
    if items != [] {
      BodiesBounded(items[..|items| - 1]);
      LongestInRange(items[|items| - 1].entry.content, PER_FILE_TOKEN_LIMIT);
    }
  }

  /** Restores the five most recent files, each cut to its longest prefix of at most
      5,000 tokens; together the bodies never exceed 25,000, so the budget of 50,000
      never matters. */
  method RestoreFiles(state: map<string, FileEntry>) returns (messages: seq<Message>, ghost items: seq<FileItem>)
    ensures ListsByRecency(items, state) && |items| == |state|
    ensures |messages| == if |state| < MAX_RESTORE_FILES then |state| else MAX_RESTORE_FILES
    ensures forall i :: 0 <= i < |messages| ==> BringsFile(messages[i], items[i])
    ensures BodyTokens(FirstFiles(items)) <= 25000
  {
    hide Estimate, Clip, ListsByRecency, BringsFile;
    var sorted := SortByRecency(state);
    items := sorted;
    messages := [];
    var totalTokens, count := 0, 0;
    for i := 0 to |sorted|
      invariant count == i <= MAX_RESTORE_FILES && totalTokens <= PER_FILE_TOKEN_LIMIT * i
      invariant |messages| == i && forall j :: 0 <= j < i ==> BringsFile(messages[j], sorted[j])
    {
      if count >= MAX_RESTORE_FILES { break; }
      if totalTokens >= MAX_RESTORE_FILE_TOKENS { break; }
      var content := sorted[i].entry.content;
      var tokens := EstimateTokens(content);
      WholeFits(content, PER_FILE_TOKEN_LIMIT);
      if tokens > PER_FILE_TOKEN_LIMIT {
        content := TruncateToTokens(content, PER_FILE_TOKEN_LIMIT);
        tokens := PER_FILE_TOKEN_LIMIT;
      }
      if totalTokens + tokens > MAX_RESTORE_FILE_TOKENS { break; }
      FileBrought(sorted[i], content);
      messages := messages + [PlainMessage(User, "[Post-compact restore: file] " + sorted[i].path + "\n" + content)];
      totalTokens := totalTokens + tokens;
      count := count + 1;
    }
    BodiesBounded(FirstFiles(sorted));
  }

  lemma WholeFits(text: string, maxTokens: nat)
    ensures Estimate(text) <= maxTokens ==> LongestFit(text, |text|, maxTokens) && text[..|text|] == text
  {
    assert text[..|text|] == text;
  }

  lemma FileBrought(item: FileItem, content: string)
    requires LongestFit(item.entry.content, |content|, PER_FILE_TOKEN_LIMIT) && content == item.entry.content[..|content|]
    ensures BringsFile(PlainMessage(User, "[Post-compact restore: file] " + item.path + "\n" + content), item)
  {
    hide LongestFit;
  }

  /** What a skill is charged against the budget. */
  function Charge(s: SkillEntry): nat {
    if Estimate(s.content) > PER_SKILL_TOKEN_LIMIT then PER_SKILL_TOKEN_LIMIT else Estimate(s.content)
  }

  function Charges(skills: seq<SkillEntry>): nat {
    if skills == [] then 0 else Charges(skills[..|skills| - 1]) + Charge(skills[|skills| - 1])
  }

  const SKILL_NOTICE := "\n[... skill content truncated for compaction; use skill path if you need the full text]"

  /** `m` is the user's and names the skill before its content, or, if that exceeds
      the limit, before the longest prefix within it and the notice. */
  ghost predicate BringsSkill(m: Message, s: SkillEntry) {
    exists body: string :: SkillBody(s, body)
      && m == Message(User, "[Post-compact restore: skill] " + s.name + "\n" + body, "", [], [], "")
  }

  ghost predicate SkillBody(s: SkillEntry, body: string) {
    if Estimate(s.content) <= PER_SKILL_TOKEN_LIMIT then body == s.content
    else exists k: nat :: LongestFit(s.content, k, PER_SKILL_TOKEN_LIMIT) && body == s.content[..k] + SKILL_NOTICE
  }

  /** How many leading skills the budget holds: up to the first that would exceed
      it, and none once it is used up. */
  ghost predicate SkillsFit(skills: seq<SkillEntry>, n: nat) {
    && n <= |skills| && Charges(skills[..n]) <= MAX_SKILL_TOKENS
    && (forall k :: 0 < k < n ==> Charges(skills[..k]) < MAX_SKILL_TOKENS)
    && (n < |skills| ==> Charges(skills[..n]) >= MAX_SKILL_TOKENS || Charges(skills[..n + 1]) > MAX_SKILL_TOKENS)
  }

  lemma NoSkills(skills: seq<SkillEntry>)
    ensures Charges(skills[..0]) == 0
  {
  }

  /** One more skill costs its tokens, or the limit if it has more. */
  lemma OneMoreSkill(skills: seq<SkillEntry>, i: nat)
    requires i < |skills|
    ensures var tokens := Estimate(skills[i].content);
            Charges(skills[..i + 1]) == Charges(skills[..i]) + if tokens < 5000 then tokens else 5000
  {
    hide Estimate;
    assert skills[..i + 1][..i] == skills[..i];
  }

  lemma SkillBrought(s: SkillEntry, body: string)
    requires SkillBody(s, body)
    ensures BringsSkill(PlainMessage(User, "[Post-compact restore: skill] " + s.name + "\n" + body), s)
  {
    hide SkillBody;
  }

  method RestoreSkills(skills: seq<SkillEntry>) returns (messages: seq<Message>)
    ensures SkillsFit(skills, |messages|)
    ensures forall i :: 0 <= i < |messages| ==> BringsSkill(messages[i], skills[i])
  {
    hide Estimate, Charges, BringsSkill, LongestFit;
    messages := [];
    NoSkills(skills);
    var totalTokens := 0;
    for i := 0 to |skills|
      invariant |messages| == i && totalTokens == Charges(skills[..i]) <= MAX_SKILL_TOKENS
      invariant forall j :: 0 <= j < i ==> BringsSkill(messages[j], skills[j])
      invariant forall k :: 0 < k < i ==> Charges(skills[..k]) < MAX_SKILL_TOKENS
    {
      if totalTokens >= MAX_SKILL_TOKENS { return; }
      var content := skills[i].content;
      var tokens := EstimateTokens(content);
      OneMoreSkill(skills, i);
      if tokens > PER_SKILL_TOKEN_LIMIT {
        content := TruncateToTokens(content, PER_SKILL_TOKEN_LIMIT);
        content := content + SKILL_NOTICE;
        tokens := PER_SKILL_TOKEN_LIMIT;
      }
      if totalTokens + tokens > MAX_SKILL_TOKENS { return; }
      SkillBrought(skills[i], content);
      messages := messages + [PlainMessage(User, "[Post-compact restore: skill] " + skills[i].name + "\n" + content)];
      totalTokens := totalTokens + tokens;
    }
  }

  lemma {:induction false} ChargesGrow(skills: seq<SkillEntry>, i: nat, j: nat)
    requires i <= j <= |skills|
    ensures Charges(skills[..i]) <= Charges(skills[..j])
    decreases j
  {
    if i < j {
      assert skills[..j][..j - 1] == skills[..j - 1];
      ChargesGrow(skills, i, j - 1);
    }
  }

  lemma FewerDoNotFit(skills: seq<SkillEntry>, m: nat, n: nat)
    requires m < n
    ensures !(SkillsFit(skills, m) && SkillsFit(skills, n))
  {
    if n <= |skills| { ChargesGrow(skills, m + 1, n); }
  }

  /** The budget decides how many skills come back. */
  lemma SkillsFitUnique(skills: seq<SkillEntry>, m: nat, n: nat)
    requires SkillsFit(skills, m) && SkillsFit(skills, n)
    ensures m == n
  {
    if m < n { FewerDoNotFit(skills, m, n); }
    if n < m { FewerDoNotFit(skills, n, m); }
  }

  function PlanMessages(plan: string): seq<Message> {
    if plan == "" then [] else [PlainMessage(User, "[Post-compact restore: plan]\n" + plan)]
  }

  // --- the whole ----------------------------------------------------------------------------

  datatype CompactOpts = CompactOpts(readFileState: map<string, FileEntry>, activeSkills: seq<SkillEntry>, activePlan: string)

  /** What a compaction puts back, for one order of the files: up to five of them, the
      first `n` skills, and the plan if there is one. */
  ghost predicate Brings(o: CompactOpts, items: seq<FileItem>, n: nat, ms: seq<Message>)
    requires n <= |o.activeSkills|
  {
    var f := if |items| < 5 then |items| else 5;
    && |ms| == f + n + (if o.activePlan == "" then 0 else 1)
    && (forall i :: 0 <= i < f ==> BringsFile(ms[i], items[i]))
    && (forall i :: 0 <= i < n ==> BringsSkill(ms[f + i], o.activeSkills[i]))
    && (o.activePlan != "" ==>
          ms[f + n] == Message(User, "[Post-compact restore: plan]\n" + o.activePlan, "", [], [], ""))
  }

  lemma FileOnce(a: Message, b: Message, item: FileItem)
    requires BringsFile(a, item) && BringsFile(b, item)
    ensures a == b && a.role == User
  {
    hide Estimate;
    var text := item.entry.content;
    var j: nat :| LongestFit(text, j, PER_FILE_TOKEN_LIMIT) && a ==
      Message(User, "[Post-compact restore: file] " + item.path + "\n" + text[..j], "", [], [], "");
    var k: nat :| LongestFit(text, k, PER_FILE_TOKEN_LIMIT) && b ==
      Message(User, "[Post-compact restore: file] " + item.path + "\n" + text[..k], "", [], [], "");
    LongestFitUnique(text, j, k, PER_FILE_TOKEN_LIMIT);
  }

  lemma SkillOnce(a: Message, b: Message, s: SkillEntry)
    requires BringsSkill(a, s) && BringsSkill(b, s)
    ensures a == b && a.role == User
  {
    hide Estimate;
    var x :| SkillBody(s, x) && a == Message(User, "[Post-compact restore: skill] " + s.name + "\n" + x, "", [], [], "");
    var y :| SkillBody(s, y) && b == Message(User, "[Post-compact restore: skill] " + s.name + "\n" + y, "", [], [], "");
    if Estimate(s.content) > PER_SKILL_TOKEN_LIMIT {
      var j: nat :| LongestFit(s.content, j, PER_SKILL_TOKEN_LIMIT) && x == s.content[..j] + SKILL_NOTICE;
      var k: nat :| LongestFit(s.content, k, PER_SKILL_TOKEN_LIMIT) && y == s.content[..k] + SKILL_NOTICE;
      LongestFitUnique(s.content, j, k, PER_SKILL_TOKEN_LIMIT);
    }
  }

  /** The order of the files and the number of skills decide what is put back. */
  lemma BroughtOnce(o: CompactOpts, items: seq<FileItem>, n: nat, a: seq<Message>, b: seq<Message>)
    requires n <= |o.activeSkills| && Brings(o, items, n, a) && Brings(o, items, n, b)
    ensures a == b && forall i :: 0 <= i < |a| ==> a[i].role == User
  {
    hide BringsFile, BringsSkill;
    var f := if |items| < 5 then |items| else 5;
    forall i | 0 <= i < |a| ensures a[i] == b[i] && a[i].role == User {
      if i < f { FileOnce(a[i], b[i], items[i]); }
      else if i < f + n {
        assert a[f + (i - f)] == a[i] && b[f + (i - f)] == b[i];
        SkillOnce(a[i], b[i], o.activeSkills[i - f]);
      }
    }
  }

  lemma AllBrought(o: CompactOpts, items: seq<FileItem>, files: seq<Message>, skills: seq<Message>, plan: seq<Message>)
    requires |files| == (if |items| < 5 then |items| else 5) && |skills| <= |o.activeSkills|
    requires forall i :: 0 <= i < |files| ==> BringsFile(files[i], items[i])
    requires forall i :: 0 <= i < |skills| ==> BringsSkill(skills[i], o.activeSkills[i])
    requires plan == PlanMessages(o.activePlan)
    ensures Brings(o, items, |skills|, files + skills + plan)
  {
    hide BringsFile, BringsSkill;
    var ms := files + skills + plan;
    assert forall i :: 0 <= i < |files| ==> ms[i] == files[i];
    assert forall i :: 0 <= i < |skills| ==> ms[|files| + i] == skills[i];
  }

  ghost predicate Restores(o: CompactOpts, items: seq<FileItem>, n: nat) {
    ListsByRecency(items, o.readFileState) && SkillsFit(o.activeSkills, n)
  }

  /** Some order of the files puts back `t` tokens. */
  ghost predicate RestoresTokens(o: CompactOpts, t: int) {
    exists items, n, restored :: Restores(o, items, n) && Brings(o, items, n, restored) && t == Sum(Weights(restored))
  }

  lemma TokensRestored(o: CompactOpts, t: int, items: seq<FileItem>, n: nat, restored: seq<Message>)
    requires Restores(o, items, n) && Brings(o, items, n, restored) && t == Sum(Weights(restored))
    ensures RestoresTokens(o, t)
  {
    hide Restores, Brings;
  }

  /** How many tokens a compaction would put back. */
  method EstimateRestoreTokens(o: CompactOpts) returns (total: int)
    ensures RestoresTokens(o, total)
  {
    hide Total, Weight, BringsFile, BringsSkill, Brings, ListsByRecency, BodyTokens, Charges, RestoresTokens;
    var files, fileItems := RestoreFiles(o.readFileState);
    var skills := RestoreSkills(o.activeSkills);
    total := 0;
    total := AddWeights(total, files);
    total := AddWeights(total, skills);
    if o.activePlan != "" {
      total := AddWeights(total, PlanMessages(o.activePlan));
    } else {
      NoWeightAtAll();
    }
    TotalConcat(files, skills);
    TotalConcat(files + skills, PlanMessages(o.activePlan));
    ghost var restored := files + skills + PlanMessages(o.activePlan);
    AllBrought(o, fileItems, files, skills, PlanMessages(o.activePlan));
    TotalIsSum(restored);
    TokensRestored(o, total, fileItems, |skills|, restored);
  }

  lemma NoWeightAtAll()
    ensures Total([]) == 0
  {
  }

  method AddWeights(start: int, messages: seq<Message>) returns (total: int)
    ensures total == start + Total(messages)
  {
    hide Weight;
    total := start;
    for i := 0 to |messages|
      invariant total == start + Total(messages[..i])
    {
      assert messages[..i + 1][..i] == messages[..i];
      var t := EstimateMessageTokens(messages[i]);
      total := total + t;
    }
    assert messages[..|messages|] == messages;
  }

  /** With distinct file times the estimate is what a compaction adds, whichever
      order either of them found the files in. */
  lemma RestoreIsDetermined(o: CompactOpts, items: seq<FileItem>, n: nat, restored: seq<Message>,
          items2: seq<FileItem>, n2: nat, restored2: seq<Message>)
    requires Restores(o, items, n) && Restores(o, items2, n2) && DistinctTimes(o.readFileState)
    requires Brings(o, items, n, restored) && Brings(o, items2, n2, restored2)
    ensures restored == restored2
  {
    hide Brings;
    OneListing(items, items2, o.readFileState);
    SkillsFitUnique(o.activeSkills, n, n2);
    BroughtOnce(o, items, n, restored, restored2);
  }

  /** The history is a boundary and a summary, both the user's, and what is put back. */
  ghost predicate Rewritten(o: CompactOpts, boundary: string, summary: string, items: seq<FileItem>, n: nat, h: seq<Message>) {
    && |h| >= 2
    && h[0] == Message(User, boundary, "", [], [], "") && h[1] == Message(User, summary, "", [], [], "")
    && Restores(o, items, n) && Brings(o, items, n, h[2..])
  }

  /** The history after a compaction. */
  method Rebuilt(o: CompactOpts, boundary: string, summary: string) returns (messages: seq<Message>,
          ghost items: seq<FileItem>, ghost n: nat)
    ensures Rewritten(o, boundary, summary, items, n, messages)
  {
    hide ListsByRecency, Charges, BodyTokens, Brings, BringsFile, BringsSkill;
    messages := [PlainMessage(User, boundary)];
    messages := messages + [PlainMessage(User, summary)];
    var files, fileItems := RestoreFiles(o.readFileState);
    var skills := RestoreSkills(o.activeSkills);
    items, n := fileItems, |skills|;
    messages := messages + files;
    messages := messages + skills;
    if o.activePlan != "" {
      messages := messages + PlanMessages(o.activePlan);
    }
    AllBrought(o, items, files, skills, PlanMessages(o.activePlan));
    assert messages[2..] == files + skills + PlanMessages(o.activePlan);
  }

  /** The summary is the stripped answer to the last of the requests made. */
  ghost predicate Answers(before: seq<Message>, m: Summariser, sent: seq<Message>, requests: seq<seq<Message>>,
          summary: string) {
    && ShrunkAll(before, sent, m.guess, m.notice) && Attempts(requests, sent, m.prompt, m.llm)
    && m.llm(requests[|requests| - 1]) == Summary(summary)
  }

  /** The requests made end without an answer. */
  ghost predicate NoAnswer(before: seq<Message>, m: Summariser, sent: seq<Message>, requests: seq<seq<Message>>) {
    && ShrunkAll(before, sent, m.guess, m.notice) && Attempts(requests, sent, m.prompt, m.llm)
    && !m.llm(requests[|requests| - 1]).Summary?
  }

  /** The language model, the prompt that is sent with every request, and the texts
      made around it. */
  datatype Summariser = Summariser(llm: seq<Message> -> Reply, prompt: Message, guess: string -> nat, notice: int -> string,
                                   boundary: int -> string, strip: string -> string)

  /** Replaces the history with a boundary, a summary, and what is put back.  The
      lock is not held while the model answers: `interim` is the history as others
      have left it by then.  A failed call leaves that; a successful one replaces it,
      and nothing appended meanwhile survives. */
  method Compact(ctx: Context, o: CompactOpts, m: Summariser, interim: seq<Message>)
    returns (ok: bool, preTokens: int, postTokens: int, ghost text: string, ghost items: seq<FileItem>, ghost n: nat,
             ghost sent: seq<Message>, ghost requests: seq<seq<Message>>)
    modifies ctx`messages
    ensures |old(ctx.messages)| < MIN_MESSAGES_FOR_COMPACT ==> !ok && ctx.messages == old(ctx.messages)
    ensures |old(ctx.messages)| >= MIN_MESSAGES_FOR_COMPACT ==>
              if ok then Answers(old(ctx.messages), m, sent, requests, text)
              else NoAnswer(old(ctx.messages), m, sent, requests) && ctx.messages == interim
    ensures ok ==>
              && preTokens == Sum(Weights(old(ctx.messages))) && postTokens == Sum(Weights(ctx.messages))
              && Rewritten(o, m.boundary(preTokens), m.strip(text), items, n, ctx.messages)
  {
    hide Total, Attempts, ShrunkAll, Groups, Rewritten;
    ok, preTokens, postTokens, text, items, n, sent, requests := false, 0, 0, "", [], 0, [], [];
    if |ctx.messages| < MIN_MESSAGES_FOR_COMPACT { return; }
    preTokens := AddWeights(0, ctx.messages);
    TotalIsSum(ctx.messages);
    var request := ShrinkToolResults(ctx.messages, m.guess, m.notice);
    sent := request;
    var outcome;
    outcome, requests := CompactWithPtlRetry(m.llm, request, m.prompt);
    ctx.messages := interim;
    if outcome.GaveUp? { return; }
    text := outcome.summary;
    var messages;
    messages, items, n := Rebuilt(o, m.boundary(preTokens), m.strip(outcome.summary));
    ctx.messages := messages;
    postTokens := AddWeights(0, messages);
    TotalIsSum(messages);
    ok := true;
  }

  /** A compacted history with whatever is appended to it later is paired exactly if
      what is appended is paired by itself. */
  lemma PairedAfterCompaction(o: CompactOpts, boundary: string, summary: string, items: seq<FileItem>, n: nat,
          h: seq<Message>, later: seq<Message>)
    requires Rewritten(o, boundary, summary, items, n, h)
    ensures Paired(h + later) <==> Paired(later)
  {
    hide Paired;
    RewrittenByUser(o, boundary, summary, items, n, h);
    UsersInFront(h, later);
  }

  lemma RewrittenByUser(o: CompactOpts, boundary: string, summary: string, items: seq<FileItem>, n: nat, h: seq<Message>)
    requires Rewritten(o, boundary, summary, items, n, h)
    ensures forall i :: 0 <= i < |h| ==> h[i].role == User
  {
    hide ListsByRecency, Charges, Brings;
    BroughtOnce(o, items, n, h[2..], h[2..]);
    assert forall i :: 2 <= i < |h| ==> h[i] == h[2..][i - 2];
  }

  /** So the result of a call that was made while the model answered breaks the
      pairing, whatever follows it. */
  lemma LateResultIsOrphaned(o: CompactOpts, boundary: string, summary: string, items: seq<FileItem>, n: nat,
          h: seq<Message>, late: Message, more: seq<Message>)
    requires Rewritten(o, boundary, summary, items, n, h) && late.role == ToolResult
    ensures !Paired(h + ([late] + more))
  {
    hide Rewritten;
    PairedAfterCompaction(o, boundary, summary, items, n, h, [late] + more);
    assert ([late] + more)[0] == late;
    assert !ResultHasCall([late] + more, 0);
  }

  /** After a compaction the history weighs the boundary, the summary, and exactly
      what the estimate of the restore said. */
  lemma PostTokensAccounted(o: CompactOpts, boundary: string, summary: string, items: seq<FileItem>, n: nat,
          h: seq<Message>, items2: seq<FileItem>, n2: nat, restored: seq<Message>)
    requires Rewritten(o, boundary, summary, items, n, h)
    requires Restores(o, items2, n2) && Brings(o, items2, n2, restored) && DistinctTimes(o.readFileState)
    ensures h[2..] == restored
    ensures Sum(Weights(h)) == Estimate(boundary) + Estimate(summary) + Sum(Weights(restored))
  {
    hide Brings, ListsByRecency, Charges, Estimate;
    RestoreIsDetermined(o, items, n, h[2..], items2, n2, restored);
    PlainWeight(h[0]);
    PlainWeight(h[1]);
    hide Weight;
    assert h == [h[0], h[1]] + restored;
    TotalConcat([h[0], h[1]], restored);
    assert [h[0], h[1]][..1] == [h[0]] && [h[0]][..0] == [];
    assert Total([h[0]]) == Weight(h[0]);
    TotalIsSum(h);
    TotalIsSum(restored);
  }

  lemma PlainWeight(m: Message)
    requires m == Message(m.role, m.content, "", [], [], "")
    ensures Weight(m) == Estimate(m.content)
  {
  }

  /** Right after a compaction all messages are the user's: one round, which cannot
      be dropped. */
  lemma {:induction false} CompactedIsOneRound(ms: seq<Message>)
    requires ms != [] && forall i :: 0 <= i < |ms| ==> ms[i].role == User
    ensures Groups(ms) == [ms] && Paired(ms)
  {
    var n := |ms| - 1;
    if n == 0 {
      assert ms[..0] == [] && [ms[0]] == ms;
    } else {
      CompactedIsOneRound(ms[..n]);
      assert [ms[..n]][..0] == [] && ms[..n] + [ms[n]] == ms;
    }
  }
}
