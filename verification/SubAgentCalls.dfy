/** What is recorded of one tool call of a sub-agent, from the frame that starts it to
    the one that ends it, in terms of what the frames say. */
module SubAgentCalls {
  import opened SubAgentSteps

  // --- the assistant states an input ----------------------------------------------------

  /** The assistant's input is taken for a call whether it was waiting before or is
      opened by this block; a name is taken only if the call had none. */
  lemma UseStatesInput(c: Child, b: ToolUse)
    requires Conserved(c) && c.recording && b.id != NoCall
    ensures var d, waiting := Use(c, b), b.id in c.pending;
            var k := if waiting then c.pending[b.id] else c.driverStep + 1;
            var named := waiting && c.open[c.pending[b.id]].tool != "";
            && Conserved(d) && d.recording && d.written == c.written && b.id in d.pending && d.pending[b.id] == k
            && k in d.open && d.open[k].callId == b.id && d.open[k].step == k
            && d.open[k].tool == (if named then c.open[k].tool else b.name)
            && d.open[k].toolPath == (if named then c.open[k].toolPath else b.name)
            && d.open[k].input == (if waiting then c.open[k].input else "")
            && d.open[k].result == (if waiting then c.open[k].result else "")
            && (b.input.Readable? ==> Awaiting(d, b.id, k, d.open[k].tool, d.open[k].toolPath, b.input.json))
            && (b.input.Unreadable? ==> d.authInputs == c.authInputs)
  {
    UseConserves(c, b);
  }

  /** Block `i` is the last that states an input for this call. */
  predicate StatedLast(uses: seq<ToolUse>, i: nat, id: CallId) {
    && i < |uses| && uses[i].id == id && uses[i].input.Readable?
    && forall j :: i < j < |uses| && uses[j].id == id ==> uses[j].input.Unreadable?
  }

  predicate Silent(uses: seq<ToolUse>, id: CallId) {
    forall j :: 0 <= j < |uses| && uses[j].id == id ==> uses[j].input.Unreadable?
  }

  /** A block without a readable input, or about another call, leaves the input stated
      before. */
  lemma UseKeepsInput(c: Child, id: CallId, k: nat, tool: string, toolPath: string, input: string, b: ToolUse)
    requires Awaiting(c, id, k, tool, toolPath, input) && (b.id == id ==> b.input.Unreadable?)
    ensures var d := Use(c, b);
            k in d.open && Awaiting(d, id, k, d.open[k].tool, d.open[k].toolPath, input)
            && (tool != "" ==> d.open[k].tool == tool && d.open[k].toolPath == toolPath)
  {
    if b.id == id {
      UseStatesInput(c, b);
    } else {
      UseElsewhere(c, id, k, tool, toolPath, input, b);
    }
  }

  lemma {:induction false} UsesKeepInput(c: Child, id: CallId, k: nat, tool: string, toolPath: string, input: string,
          uses: seq<ToolUse>)
    requires Awaiting(c, id, k, tool, toolPath, input) && Silent(uses, id)
    ensures var d := UseAll(c, uses);
            k in d.open && Awaiting(d, id, k, d.open[k].tool, d.open[k].toolPath, input)
            && (tool != "" ==> d.open[k].tool == tool && d.open[k].toolPath == toolPath)
    decreases |uses|
  {
    hide Use;
    assert Awaiting(c, id, k, tool, toolPath, input);
    if uses != [] {
      var d := Use(c, uses[0]);
      UseKeepsInput(c, id, k, tool, toolPath, input, uses[0]);
      assert forall j :: 0 <= j < |uses[1..]| ==> uses[1..][j] == uses[j + 1];
      UsesKeepInput(d, id, k, d.open[k].tool, d.open[k].toolPath, input, uses[1..]);
    }
  }

  /** A call that is waiting waits on over an assistant frame; one that has a name
      keeps it. */
  lemma UseKeepsWaiting(c: Child, b: ToolUse, id: CallId)
    requires Conserved(c) && c.recording && id in c.pending
    ensures var d, k := Use(c, b), c.pending[id];
            && Conserved(d) && d.recording && id in d.pending && d.pending[id] == k && d.driverStep >= c.driverStep
            && k in c.open && k in d.open
            && (c.open[k].tool != "" ==> d.open[k].tool == c.open[k].tool && d.open[k].toolPath == c.open[k].toolPath)
  {
    UseConserves(c, b);
    IsWaiting(c, id);
    IsWaiting(c, b.id);
    hide Conserved;
    if b.id == id { UseStatesInput(c, b); }
  }

  lemma UseOpens(c: Child, b: ToolUse, id: CallId)
    requires Conserved(c) && c.recording && id !in c.pending && id != NoCall
    ensures var d := Use(c, b);
            && Conserved(d) && d.recording && d.driverStep >= c.driverStep
            && (b.id != id ==> id !in d.pending)
            && (b.id == id ==> id in d.pending && d.pending[id] > c.driverStep && d.open[d.pending[id]].tool == b.name
                               && d.open[d.pending[id]].toolPath == b.name)
  {
    UseConserves(c, b);
  }

  /** From any state, an assistant frame that states a readable input for a call leaves
      the call awaited with the last input stated, whether it was waiting before or
      not; a waiting call stays the step it was, with its name if it had one. */
  lemma {:induction false} FrameStatesInput(c: Child, uses: seq<ToolUse>, i: nat, id: CallId)
    requires Conserved(c) && c.recording && id != NoCall && StatedLast(uses, i, id)
    ensures var d := Feed(c, Assistant(uses));
            && id in d.pending && d.pending[id] in d.open
            && var t := d.open[d.pending[id]];
               && Awaiting(d, id, d.pending[id], t.tool, t.toolPath, uses[i].input.json)
               && (id !in c.pending ==> d.pending[id] > c.driverStep)
               && (id in c.pending ==>
                     && d.pending[id] == c.pending[id]
                     && (c.open[c.pending[id]].tool != "" ==>
                           t.tool == c.open[c.pending[id]].tool && t.toolPath == c.open[c.pending[id]].toolPath))
    decreases |uses|
  {
    hide Use, Conserved;
    var b, d := uses[0], Use(c, uses[0]);
    IsWaiting(c, id);
    assert forall j :: 0 <= j < |uses[1..]| ==> uses[1..][j] == uses[j + 1];
    if i == 0 {
      UseStatesInput(c, b);
      var k := d.pending[id];
      assert Silent(uses[1..], id);
      UsesKeepInput(d, id, k, d.open[k].tool, d.open[k].toolPath, b.input.json, uses[1..]);
    } else {
      if id in c.pending {
        UseKeepsWaiting(c, b, id);
      } else {
        UseOpens(c, b, id);
      }
      FrameStatesInput(d, uses[1..], i - 1, id);
    }
  }

  // --- the end of a call ------------------------------------------------------------------

  /** A completion writes the waiting call it names, or else the current one, with the
      input the assistant stated if it did and the streamed one if not, and with its own
      result, or the one known before if it has none. */
  lemma CompletionRecords(c: Child, id: CallId, result: string)
    requires Conserved(c) && c.recording
    ensures var d := Feed(c, Completed(id, result));
            var k := if id in c.pending then c.pending[id] else c.current;
            && (k == 0 ==> d == c)
            && (k != 0 ==>
                  && k in c.open
                  && var t := c.open[k];
                     var input := if t.callId != NoCall && t.callId in c.authInputs then c.authInputs[t.callId] else t.input;
                     && d.written == c.written + [Record(k, t.tool, t.toolPath, input, if result != "" then result else t.result)]
                     && d.open == c.open - {k} && d.pending == c.pending - {t.callId} && d.driverStep == c.driverStep)
  {
    var k := Completing(c, id);
    if k != 0 {
      var e := if result != "" then SetResult(c, k, result) else c;
      assert e.open[k] == c.open[k].(result := if result != "" then result else c.open[k].result);
      assert e.open - {k} == c.open - {k};
      if c.open[k].callId == NoCall { assert c.pending - {NoCall} == c.pending; }
    } else {
      NoStepZero(c);
    }
  }

  lemma NoStepZero(c: Child)
    requires Conserved(c)
    ensures 0 !in c.open
  {
    assert 0 in c.open || 0 !in c.open;
  }

  /** A result writes the waiting call it names, and otherwise changes nothing. */
  lemma ResultRecords(c: Child, id: CallId, content: string)
    requires Conserved(c) && c.recording
    ensures var d := Feed(c, User([ToolResult(id, content)]));
            && (id !in c.pending ==> d == c)
            && (id in c.pending ==>
                  var k := c.pending[id];
                  && k in c.open
                  && var t := c.open[k];
                     var input := if id in c.authInputs then c.authInputs[id] else t.input;
                     && d.written == c.written + [Record(k, t.tool, t.toolPath, input, content)]
                     && d.open == c.open - {k} && d.pending == c.pending - {id} && d.driverStep == c.driverStep)
  {
    var r := ToolResult(id, content);
    assert [r][1..] == [];
    assert ReportAll(c, [r]) == Report(c, r);
    if id in c.pending {
      var k := c.pending[id];
      assert SetResult(c, k, content).open - {k} == c.open - {k};
    }
  }

  // --- a whole call -----------------------------------------------------------------------

  function Joined(texts: seq<string>): string {
    if texts == [] then "" else Joined(texts[..|texts| - 1]) + texts[|texts| - 1]
  }

  function Deltas(texts: seq<string>): seq<Frame> {
    seq(|texts|, i requires 0 <= i < |texts| => InputDelta(texts[i]))
  }

  /** A start with the deltas that follow it. */
  function Streamed(c: Child, tool: string, path: string, command: string, id: CallId, texts: seq<string>): Child {
    FeedAll(Feed(c, Started(tool, path, command, id)), Deltas(texts))
  }

  lemma StartedCall(c: Child, tool: string, path: string, command: string, id: CallId)
    requires Conserved(c) && c.recording
    ensures var d, k := Feed(c, Started(tool, path, command, id)), c.driverStep + 1;
            && Conserved(d) && d.recording && d.written == c.written && d.driverStep == k && d.current == k && k in d.open
            && d.open[k] == Tool(k, tool, if path != "" then tool + ":" + path else tool,
                                 if command != "" then command else path, "", id)
            && d.authInputs == c.authInputs && (id != NoCall ==> id in d.pending && d.pending[id] == k)
  {
    FeedConserves(c, Started(tool, path, command, id));
    hide Conserved;
  }

  /** The streamed input is the command, or the path if there is none, and the deltas in
      their order. */
  lemma {:induction false} StreamedCall(c: Child, tool: string, path: string, command: string, id: CallId, texts: seq<string>)
    requires Conserved(c) && c.recording
    ensures var d, k := Streamed(c, tool, path, command, id, texts), c.driverStep + 1;
            && Conserved(d) && d.recording && d.written == c.written && d.driverStep == k && d.current == k && k in d.open
            && d.open[k].step == k && d.open[k].callId == id && d.open[k].result == "" && d.authInputs == c.authInputs
            && d.open[k].tool == tool && d.open[k].toolPath == (if path != "" then tool + ":" + path else tool)
            && d.open[k].input == (if command != "" then command else path) + Joined(texts)
            && (id != NoCall ==> id in d.pending && d.pending[id] == k)
    decreases |texts|
  {
    hide Conserved;
    if texts == [] {
      StartedCall(c, tool, path, command, id);
      assert Deltas(texts) == [];
      assert Joined(texts) == "";
    } else {
      var n := |texts| - 1;
      StreamedCall(c, tool, path, command, id, texts[..n]);
      var d := Streamed(c, tool, path, command, id, texts[..n]);
      assert Deltas(texts)[..n] == Deltas(texts[..n]) && Deltas(texts)[n] == InputDelta(texts[n]);
      FeedConserves(d, InputDelta(texts[n]));
      AppendAssociates(if command != "" then command else path, Joined(texts[..n]), texts[n]);
    }
  }

  lemma AppendAssociates(a: string, b: string, c: string)
    ensures (a + b) + c == a + (b + c)
  {
  }

  /** A start, any deltas, and a result: exactly one record, with the streamed input. */
  lemma CallWithoutStatedInput(c: Child, tool: string, path: string, command: string, id: CallId, texts: seq<string>,
          content: string)
    requires Conserved(c) && c.recording && id != NoCall && id !in c.pending
    ensures var d := Feed(Streamed(c, tool, path, command, id, texts), User([ToolResult(id, content)]));
            && d.written == c.written + [Record(c.driverStep + 1, tool, if path != "" then tool + ":" + path else tool,
                                                (if command != "" then command else path) + Joined(texts), content)]
            && c.driverStep + 1 !in d.open && id !in d.pending
  {
    hide Conserved, Streamed;
    StreamedCall(c, tool, path, command, id, texts);
    StatedWait(c);
    ResultRecords(Streamed(c, tool, path, command, id, texts), id, content);
  }

  /** The same ended by a completion, named or not. */
  lemma CallCompleted(c: Child, tool: string, path: string, command: string, id: CallId, texts: seq<string>, result: string)
    requires Conserved(c) && c.recording && id !in c.pending
    ensures var d := Feed(Streamed(c, tool, path, command, id, texts), Completed(id, result));
            && d.written == c.written + [Record(c.driverStep + 1, tool, if path != "" then tool + ":" + path else tool,
                                                (if command != "" then command else path) + Joined(texts), result)]
            && c.driverStep + 1 !in d.open
  {
    hide Conserved, Streamed;
    StreamedCall(c, tool, path, command, id, texts);
    StatedWait(c);
    var d := Streamed(c, tool, path, command, id, texts);
    if id == NoCall { NoPendingNoCall(d); }
    CompletionRecords(d, id, result);
  }

  lemma NoPendingNoCall(c: Child)
    requires Conserved(c)
    ensures NoCall !in c.pending
  {
  }

  /** The usual frames of a call: a start, any deltas, an assistant frame that states
      the input, any frames that do not name the call, and its result.  Unless a stray
      completion takes the call in between, exactly one record is added to what those
      frames add, and it holds the stated input and not the streamed one. */
  lemma StartedCallIsRecorded(c: Child, tool: string, path: string, command: string, id: CallId, texts: seq<string>,
          uses: seq<ToolUse>, i: nat, frames: seq<Frame>, content: string)
    requires Conserved(c) && c.recording && id != NoCall && tool != "" && StatedLast(uses, i, id) && Unnamed(frames, id)
    ensures var stated := Feed(Streamed(c, tool, path, command, id, texts), Assistant(uses));
            var before := FeedAll(stated, frames);
            var after := Feed(before, User([ToolResult(id, content)]));
            && stated.written == c.written
            && if Taken(stated, c.driverStep + 1, frames) then after == before
               else after.written == before.written +
                      [Record(c.driverStep + 1, tool, if path != "" then tool + ":" + path else tool, uses[i].input.json, content)]
  {
    hide Conserved, Streamed, Taken, FeedAll, Feed, Awaiting;
    StreamedCall(c, tool, path, command, id, texts);
    var d := Streamed(c, tool, path, command, id, texts);
    FrameStatesInput(d, uses, i, id);
    var stated := Feed(d, Assistant(uses));
    AssistantWritesNothing(d, uses);
    var k := c.driverStep + 1;
    CallIsRecorded(stated, id, k, stated.open[k].tool, stated.open[k].toolPath, uses[i].input.json, frames, content);
  }

  lemma AssistantWritesNothing(c: Child, uses: seq<ToolUse>)
    ensures Feed(c, Assistant(uses)).written == c.written
  {
    UseAllKeepsRecording(c, uses);
  }

  lemma NothingBetween(c: Child, k: nat)
    ensures FeedAll(c, []) == c && !Taken(c, k, [])
  {
  }

  /** With nothing in between, the log grows by that record. */
  lemma OrdinaryCall(c: Child, tool: string, path: string, command: string, id: CallId, texts: seq<string>,
          name: string, json: string, content: string)
    requires Conserved(c) && c.recording && id != NoCall && tool != ""
    ensures Feed(Feed(Streamed(c, tool, path, command, id, texts), Assistant([ToolUse(id, name, Readable(json))])),
                 User([ToolResult(id, content)])).written ==
              c.written + [Record(c.driverStep + 1, tool, if path != "" then tool + ":" + path else tool, json, content)]
  {
    hide Conserved, Streamed, Taken, FeedAll, Feed;
    var uses := [ToolUse(id, name, Readable(json))];
    StartedCallIsRecorded(c, tool, path, command, id, texts, uses, 0, [], content);
    NothingBetween(Feed(Streamed(c, tool, path, command, id, texts), Assistant(uses)), c.driverStep + 1);
  }
}
