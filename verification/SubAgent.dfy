/** The step accumulator of a reconstructed sub-agent, as values: which tool calls are
    open, which were written, and what each frame of the stream does to that. */
module SubAgentSteps {
  /** NoCall stands for a missing or empty call id. */
  datatype CallId = NoCall | Call(id: string)

  datatype Tool = Tool(step: nat, tool: string, toolPath: string, input: string, result: string, callId: CallId)

  datatype Record = Record(step: nat, tool: string, toolPath: string, input: string, result: string)

  datatype Input = Unreadable | Readable(json: string)

  datatype ToolUse = ToolUse(id: CallId, name: string, input: Input)

  datatype ToolResult = ToolResult(id: CallId, content: string)

  datatype Frame =
    | Started(tool: string, path: string, command: string, callId: CallId)
    | InputDelta(text: string)
    | Completed(callId: CallId, result: string)
    | Assistant(uses: seq<ToolUse>)
    | User(results: seq<ToolResult>)
    | Other

  /** Open calls by step number; `pending` finds an open call by its id, `current`
      is the one deltas go to (0 for none).  `recording` is whether there is a step
      writer. */
  datatype Child = Child(driverStep: nat, open: map<nat, Tool>, pending: map<CallId, nat>, current: nat,
                         authInputs: map<CallId, string>, written: seq<Record>, recording: bool)

  const FRESH := Child(0, map[], map[], 0, map[], [], true)

  function RecordOf(t: Tool, authInputs: map<CallId, string>): Record {
    Record(t.step, t.tool, t.toolPath,
           if t.callId != NoCall && t.callId in authInputs then authInputs[t.callId] else t.input, t.result)
  }

  /** Writes the open call `k` and forgets it.  Without a writer nothing happens. */
  function Flush(c: Child, k: nat): Child {
    if k !in c.open || !c.recording then c
    else
      var t := c.open[k];
      c.(open := c.open - {k},
         pending := if t.callId == NoCall then c.pending else c.pending - {t.callId},
         authInputs := if t.callId == NoCall then c.authInputs else c.authInputs - {t.callId},
         current := if c.current == k then 0 else c.current,
         written := c.written + [RecordOf(t, c.authInputs)])
  }

  function Open(c: Child, t: Tool): Child {
    c.(driverStep := t.step,
       open := c.open[t.step := t],
       pending := if t.callId == NoCall then c.pending else c.pending[t.callId := t.step],
       current := t.step)
  }

  function Start(c: Child, tool: string, path: string, command: string, id: CallId): Child {
    Open(c, Tool(c.driverStep + 1, tool, if path != "" then tool + ":" + path else tool,
                 if command != "" then command else path, "", id))
  }

  function Delta(c: Child, text: string): Child {
    if c.current in c.open then
      c.(open := c.open[c.current := c.open[c.current].(input := c.open[c.current].input + text)])
    else c
  }

  /** The call a completion is about: the one with its id, else the current one. */
  function Completing(c: Child, id: CallId): nat {
    if id != NoCall && id in c.pending then c.pending[id] else c.current
  }

  function SetResult(c: Child, k: nat, result: string): Child {
    if k in c.open then c.(open := c.open[k := c.open[k].(result := result)]) else c
  }

  function Complete(c: Child, id: CallId, result: string): Child {
    var k := Completing(c, id);
    Flush(if result != "" then SetResult(c, k, result) else c, k)
  }

  function SetName(c: Child, k: nat, name: string): Child {
    if k in c.open && c.open[k].tool == "" then
      c.(open := c.open[k := c.open[k].(tool := name, toolPath := name)])
    else c
  }

  function Use(c: Child, b: ToolUse): Child {
    if b.id == NoCall then c
    else
      var d := if b.input.Readable? then c.(authInputs := c.authInputs[b.id := b.input.json]) else c;
      if b.id !in c.pending then Open(d, Tool(c.driverStep + 1, b.name, b.name, "", "", b.id))
      else SetName(d, c.pending[b.id], b.name)
  }

  function Report(c: Child, r: ToolResult): Child {
    if r.id == NoCall || r.id !in c.pending then c
    else Flush(SetResult(c, c.pending[r.id], r.content), c.pending[r.id])
  }

  function UseAll(c: Child, uses: seq<ToolUse>): Child
    decreases |uses|
  {
    if uses == [] then c else UseAll(Use(c, uses[0]), uses[1..])
  }

  function ReportAll(c: Child, results: seq<ToolResult>): Child
    decreases |results|
  {
    if results == [] then c else ReportAll(Report(c, results[0]), results[1..])
  }

  function Feed(c: Child, f: Frame): Child {
    match f
    case Started(tool, path, command, id) => Start(c, tool, path, command, id)
    case InputDelta(text) => Delta(c, text)
    case Completed(id, result) => Complete(c, id, result)
    case Assistant(uses) => UseAll(c, uses)
    case User(results) => ReportAll(c, results)
    case Other => c
  }

  function FeedAll(c: Child, frames: seq<Frame>): Child {
    if frames == [] then c else Feed(FeedAll(c, frames[..|frames| - 1]), frames[|frames| - 1])
  }

  // --- conservation -----------------------------------------------------------------

  ghost predicate StepIn(written: seq<Record>, k: nat) {
    exists i :: 0 <= i < |written| && written[i].step == k
  }

  ghost predicate WrittenStep(c: Child, k: nat) {
    StepIn(c.written, k)
  }

  /** Every step number handed out is either open or written, never both, and none
      is written twice; the id map leads to the last call opened with an id, the cursor
      to the last call of all; and inputs are stated for waiting ids only. */
  ghost predicate Conserved(c: Child) {
    && (forall k: nat {:trigger k in c.open} {:trigger WrittenStep(c, k)} ::
          (1 <= k <= c.driverStep <==> k in c.open || WrittenStep(c, k)) && !(k in c.open && WrittenStep(c, k)))
    && (forall i, j :: 0 <= i < j < |c.written| ==> c.written[i].step != c.written[j].step)
    && (forall k :: k in c.open ==> c.open[k].step == k)
    && (forall id :: id in c.pending ==> id != NoCall && c.pending[id] in c.open && c.open[c.pending[id]].callId == id)
    && (c.current == 0 || (c.current == c.driverStep && c.current in c.open))
    && c.authInputs.Keys <= c.pending.Keys
    && (forall j :: j in c.open && c.open[j].callId in c.pending ==> j <= c.pending[c.open[j].callId])
  }

  lemma FreshConserved()
    ensures Conserved(FRESH)
  {
    forall k: nat ensures !WrittenStep(FRESH, k) {}
  }

  lemma FlushConserves(c: Child, k: nat)
    requires Conserved(c)
    ensures Conserved(Flush(c, k))
    ensures k in c.open && c.recording ==> Flush(c, k).open == c.open - {k}
  {
    if k in c.open && c.recording {
      var d := Flush(c, k);
      var n := |c.written|;
      assert d.written[n].step == k;
      forall j: nat ensures WrittenStep(d, j) <==> WrittenStep(c, j) || j == k {
        if WrittenStep(c, j) {
          var i :| 0 <= i < n && c.written[i].step == j;
          assert d.written[i].step == j;
        }
        if WrittenStep(d, j) && j != k {
          var i :| 0 <= i < |d.written| && d.written[i].step == j;
          assert i < n && c.written[i].step == j;
        }
      }
      forall i | 0 <= i < n ensures c.written[i].step != k {
        assert WrittenStep(c, c.written[i].step);
      }
      forall j: nat ensures (1 <= j <= d.driverStep <==> j in d.open || WrittenStep(d, j)) && !(j in d.open && WrittenStep(d, j)) {
        assert j in c.open || j !in c.open;
      }
    }
  }

  lemma OpenConserves(c: Child, t: Tool)
    requires Conserved(c) && t.step == c.driverStep + 1
    ensures Conserved(Open(c, t))
  {
    var d := Open(c, t);
    forall j: nat ensures (1 <= j <= d.driverStep <==> j in d.open || WrittenStep(d, j)) && !(j in d.open && WrittenStep(d, j)) {
      assert WrittenStep(d, j) <==> WrittenStep(c, j);
      assert j in c.open || j !in c.open;
    }
  }

  /** Changing an open call, other than its number and its id, changes nothing else. */
  lemma EditConserves(c: Child, k: nat, t: Tool, authInputs: map<CallId, string>)
    requires Conserved(c)
    requires k in c.open ==> t.step == k && t.callId == c.open[k].callId
    requires authInputs.Keys <= c.pending.Keys
    ensures Conserved(c.(authInputs := authInputs))
    ensures k in c.open ==> Conserved(c.(open := c.open[k := t], authInputs := authInputs))
  {
    var d := c.(open := c.open[k := t], authInputs := authInputs);
    forall j: nat ensures WrittenStep(d, j) <==> WrittenStep(c, j) {}
    var e := c.(authInputs := authInputs);
    forall j: nat ensures WrittenStep(e, j) <==> WrittenStep(c, j) {}
    if k in c.open {
      forall j: nat ensures (1 <= j <= d.driverStep <==> j in d.open || WrittenStep(d, j)) && !(j in d.open && WrittenStep(d, j)) {
        assert j in c.open || j !in c.open;
      }
    }
  }

  lemma SetResultConserves(c: Child, k: nat, result: string)
    requires Conserved(c)
    ensures Conserved(SetResult(c, k, result))
  {
    hide Conserved;
    if k in c.open {
      assert c.open[k].step == k by { StepOf(c, k); }
      StatedWait(c);
      EditConserves(c, k, c.open[k].(result := result), c.authInputs);
    }
  }

  lemma StatedWait(c: Child)
    requires Conserved(c)
    ensures c.authInputs.Keys <= c.pending.Keys
  {
  }

  lemma StepOf(c: Child, k: nat)
    requires Conserved(c) && k in c.open
    ensures c.open[k].step == k
  {
  }

  lemma UseConserves(c: Child, b: ToolUse)
    requires Conserved(c)
    ensures Conserved(Use(c, b))
  {
    hide Conserved, Open;
    if b.id != NoCall {
      var auth := if b.input.Readable? then c.authInputs[b.id := b.input.json] else c.authInputs;
      var d := c.(authInputs := auth);
      var blank := Tool(c.driverStep + 1, b.name, b.name, "", "", b.id);
      StatedWait(c);
      if b.id !in c.pending {
        OpenConserves(c, blank);
        OpenedInput(c, blank, auth);
        EditConserves(Open(c, blank), blank.step, blank, auth);
      } else {
        var k := c.pending[b.id];
        if k in c.open {
          StepOf(c, k);
          EditConserves(c, k, c.open[k].(tool := b.name, toolPath := b.name), auth);
        } else {
          EditConserves(c, k, blank, auth);
        }
      }
    }
  }

  lemma OpenedInput(c: Child, t: Tool, authInputs: map<CallId, string>)
    requires t.callId != NoCall
    ensures Open(c.(authInputs := authInputs), t) == Open(c, t).(authInputs := authInputs)
    ensures Open(c, t).pending.Keys == c.pending.Keys + {t.callId}
    ensures t.step in Open(c, t).open && Open(c, t).open[t.step] == t
  {
  }

  lemma NotOpenYet(c: Child)
    requires Conserved(c)
    ensures c.driverStep + 1 !in c.open
  {
  }

  lemma {:induction false} UseAllConserves(c: Child, uses: seq<ToolUse>)
    requires Conserved(c)
    ensures Conserved(UseAll(c, uses))
    decreases |uses|
  {
    hide Conserved, Use;
    if uses != [] {
      UseConserves(c, uses[0]);
      UseAllConserves(Use(c, uses[0]), uses[1..]);
    }
  }

  lemma {:induction false} ReportAllConserves(c: Child, results: seq<ToolResult>)
    requires Conserved(c)
    ensures Conserved(ReportAll(c, results))
    decreases |results|
  {
    hide Conserved, Flush, SetResult;
    if results != [] {
      var r := results[0];
      if r.id != NoCall && r.id in c.pending {
        SetResultConserves(c, c.pending[r.id], r.content);
        FlushConserves(SetResult(c, c.pending[r.id], r.content), c.pending[r.id]);
      }
      ReportAllConserves(Report(c, r), results[1..]);
    }
  }

  lemma FeedConserves(c: Child, f: Frame)
    requires Conserved(c)
    ensures Conserved(Feed(c, f))
  {
    hide Conserved, Flush, SetResult, Open, UseAll, ReportAll;
    match f
    case Started(tool, path, command, id) =>
      OpenConserves(c, Tool(c.driverStep + 1, tool, if path != "" then tool + ":" + path else tool,
                            if command != "" then command else path, "", id));
    case InputDelta(text) =>
      if c.current in c.open {
        StepOf(c, c.current);
        StatedWait(c);
        EditConserves(c, c.current, c.open[c.current].(input := c.open[c.current].input + text), c.authInputs);
      }
    case Completed(id, result) =>
      var k := Completing(c, id);
      SetResultConserves(c, k, result);
      FlushConserves(c, k);
      FlushConserves(SetResult(c, k, result), k);
    case Assistant(uses) => UseAllConserves(c, uses);
    case User(results) => ReportAllConserves(c, results);
    case Other =>
  }

  /** Over any stream of frames, the steps written and the calls still open are
      together exactly the step numbers handed out. */
  lemma {:induction false} StreamConserves(frames: seq<Frame>)
    ensures Conserved(FeedAll(FRESH, frames))
    ensures FeedAll(FRESH, frames).recording
  {
    hide Conserved, Feed;
    if frames == [] {
      FreshConserved();
    } else {
      var n := |frames| - 1;
      StreamConserves(frames[..n]);
      FeedConserves(FeedAll(FRESH, frames[..n]), frames[n]);
      FeedKeepsRecording(FeedAll(FRESH, frames[..n]), frames[n]);
    }
  }

  lemma {:induction false} UseAllKeepsRecording(c: Child, uses: seq<ToolUse>)
    ensures UseAll(c, uses).recording == c.recording && UseAll(c, uses).written == c.written
    decreases |uses|
  {
    if uses != [] { UseAllKeepsRecording(Use(c, uses[0]), uses[1..]); }
  }

  lemma {:induction false} ReportAllKeepsRecording(c: Child, results: seq<ToolResult>)
    ensures ReportAll(c, results).recording == c.recording && ReportAll(c, results).driverStep == c.driverStep
    decreases |results|
  {
    if results != [] { ReportAllKeepsRecording(Report(c, results[0]), results[1..]); }
  }

  lemma FeedKeepsRecording(c: Child, f: Frame)
    ensures Feed(c, f).recording == c.recording
  {
    match f
    case Assistant(uses) => UseAllKeepsRecording(c, uses);
    case User(results) => ReportAllKeepsRecording(c, results);
    case _ =>
  }

  // --- the end of the stream ------------------------------------------------------------

  ghost function Least(s: set<nat>): (k: nat)
    requires s != {}
    ensures k in s && forall j :: j in s ==> k <= j
  {
    LeastExists(s);
    var k :| LeastOf(s, k);
    k
  }

  predicate LeastOf(s: set<nat>, k: nat) {
    k in s && forall j :: j in s ==> k <= j
  }

  lemma LeastExists(s: set<nat>)
    requires s != {}
    ensures exists k :: LeastOf(s, k)
  {
    var k := FindLeast(s);
  }

  lemma {:induction false} FindLeast(s: set<nat>) returns (k: nat)
    requires s != {}
    ensures LeastOf(s, k)
    decreases |s|
  {
    var x :| x in s;
    k := x;
    var rest := s - {x};
    if rest != {} {
      var y := FindLeast(rest);
      if y < x { k := y; }
    }
    forall j | j in s ensures k <= j {
      if j != x { assert j in rest; }
    }
  }

  /** Flushes every open call, oldest first. */
  ghost function Drain(c: Child): Child
    decreases c.open
  {
    if c.open.Keys == {} || !c.recording then c.(current := 0)
    else
      var k := Least(c.open.Keys);
      assert k in c.open && Flush(c, k).open == c.open - {k};
      Drain(Flush(c, k))
  }

  /** The end writes every step number handed out exactly once. */
  lemma {:induction false} DrainWritesAll(c: Child)
    requires Conserved(c) && c.recording
    ensures var d := Drain(c);
            && d.open == map[] && d.driverStep == c.driverStep && c.written <= d.written
            && (forall k: nat :: 1 <= k <= d.driverStep <==> WrittenStep(d, k))
            && (forall i, j :: 0 <= i < j < |d.written| ==> d.written[i].step != d.written[j].step)
            && |d.written| == d.driverStep
    decreases c.open
  {
    if c.open.Keys == {} {
      assert c.open == map[];
      var d := Drain(c);
      forall k: nat ensures WrittenStep(d, k) <==> WrittenStep(c, k) {}
      forall k: nat ensures 1 <= k <= d.driverStep <==> StepIn(d.written, k) {
        assert k !in c.open && (WrittenStep(c, k) <==> StepIn(d.written, k));
      }
      CountSteps(d.written, d.driverStep);
    } else {
      hide Conserved;
      var k := Least(c.open.Keys);
      FlushConserves(c, k);
      DrainWritesAll(Flush(c, k));
    }
  }

  /** What the end writes are the calls still open, with their names and results and in
      the order of their steps. */
  lemma {:induction false} DrainOldestFirst(c: Child)
    requires Conserved(c) && c.recording
    ensures var d, n := Drain(c), |c.written|;
            && c.written <= d.written
            && (forall i :: n <= i < |d.written| ==> WritesOpen(c, d.written[i]))
            && (forall i, j :: n <= i < j < |d.written| ==> d.written[i].step < d.written[j].step)
    decreases c.open
  {
    if c.open.Keys != {} {
      hide Conserved;
      var k, n := Least(c.open.Keys), |c.written|;
      var e := Flush(c, k);
      FlushConserves(c, k);
      StepOf(c, k);
      DrainOldestFirst(e);
      var d := Drain(e);
      assert d.written[n] == e.written[n];
      forall i | n < i < |d.written| ensures WritesOpen(c, d.written[i]) && d.written[i].step > k {
        assert WritesOpen(e, d.written[i]);
      }
    }
  }

  ghost predicate WritesOpen(c: Child, r: Record) {
    r.step in c.open && var t := c.open[r.step]; r.tool == t.tool && r.toolPath == t.toolPath && r.result == t.result
  }

  /** Distinct numbers that are exactly 1 to n are n numbers. */
  lemma CountSteps(written: seq<Record>, n: nat)
    requires forall i, j :: 0 <= i < j < |written| ==> written[i].step != written[j].step
    requires forall k: nat :: 1 <= k <= n <==> StepIn(written, k)
    ensures |written| == n
  {
    StepsDistinct(written);
    OneTo(n);
    forall k: nat ensures k in Steps(written) <==> k in UpTo(n) {
      assert StepIn(written, k) <==> 1 <= k <= n;
    }
    assert Steps(written) == UpTo(n);
  }

  ghost function Steps(written: seq<Record>): (s: set<nat>)
    ensures forall k: nat :: k in s <==> StepIn(written, k)
  {
    set i | 0 <= i < |written| :: written[i].step
  }

  lemma StepInPrefix(written: seq<Record>, k: nat)
    requires written != []
    ensures StepIn(written, k) <==> StepIn(written[..|written| - 1], k) || k == written[|written| - 1].step
  {
    var n := |written| - 1;
    if i :| 0 <= i < |written| && written[i].step == k {
      if i < n { assert written[..n][i].step == k; }
    }
    if i :| 0 <= i < n && written[..n][i].step == k {
      assert written[i].step == k;
    }
  }

  lemma StepIsNew(written: seq<Record>)
    requires written != [] && forall i, j :: 0 <= i < j < |written| ==> written[i].step != written[j].step
    ensures !StepIn(written[..|written| - 1], written[|written| - 1].step)
  {
  }

  lemma {:induction false} StepsDistinct(written: seq<Record>)
    requires forall i, j :: 0 <= i < j < |written| ==> written[i].step != written[j].step
    ensures |Steps(written)| == |written|
  {
    if written != [] {
      var n := |written| - 1;
      StepsDistinct(written[..n]);
      var x := written[n].step;
      hide StepIn;
      forall k: nat ensures StepIn(written, k) <==> StepIn(written[..n], k) || k == x { StepInPrefix(written, k); }
      StepIsNew(written);
      assert Steps(written) == Steps(written[..n]) + {x};
    } else {
      assert Steps(written) == {};
    }
  }

  ghost function UpTo(n: nat): set<nat> {
    if n == 0 then {} else UpTo(n - 1) + {n}
  }

  lemma {:induction false} OneTo(n: nat)
    ensures |UpTo(n)| == n && forall k :: k in UpTo(n) <==> 1 <= k <= n
  {
    if n > 0 {
      OneTo(n - 1);
    }
  }

  // --- the life of one call -------------------------------------------------------------

  predicate Mentions(f: Frame, id: CallId) {
    match f
    case Started(_, _, _, i) => i == id
    case Completed(i, _) => i == id
    case Assistant(uses) => exists k :: 0 <= k < |uses| && uses[k].id == id
    case User(results) => exists k :: 0 <= k < |results| && results[k].id == id
    case _ => false
  }

  /** `k` is the open call that this id leads to, and its input has been stated. */
  ghost predicate Awaiting(c: Child, id: CallId, k: nat, tool: string, toolPath: string, input: string) {
    && Conserved(c) && c.recording && id != NoCall
    && id in c.pending && c.pending[id] == k && k in c.open && c.open[k].tool == tool && c.open[k].toolPath == toolPath
    && id in c.authInputs && c.authInputs[id] == input
  }

  lemma FlushElsewhere(c: Child, id: CallId, k: nat, tool: string, toolPath: string, input: string, j: nat)
    requires Awaiting(c, id, k, tool, toolPath, input) && j != k && (j in c.open ==> c.open[j].callId != id)
    ensures Awaiting(Flush(c, j), id, k, tool, toolPath, input)
  {
    FlushConserves(c, j);
  }

  lemma IsWaiting(c: Child, id: CallId)
    requires Conserved(c)
    ensures id in c.pending ==>
              && id != NoCall && c.pending[id] in c.open && c.open[c.pending[id]].callId == id
              && 1 <= c.pending[id] <= c.driverStep
  {
  }

  lemma UseElsewhere(c: Child, id: CallId, k: nat, tool: string, toolPath: string, input: string, b: ToolUse)
    requires Awaiting(c, id, k, tool, toolPath, input) && b.id != id
    ensures Awaiting(Use(c, b), id, k, tool, toolPath, input)
  {
    UseConserves(c, b);
    NotOpenYet(c);
    IsWaiting(c, id);
    IsWaiting(c, b.id);
    hide Conserved;
  }

  lemma {:induction false} UsesElsewhere(c: Child, id: CallId, k: nat, tool: string, toolPath: string,
          input: string, uses: seq<ToolUse>)
    requires Awaiting(c, id, k, tool, toolPath, input) && !Mentions(Assistant(uses), id)
    ensures Awaiting(UseAll(c, uses), id, k, tool, toolPath, input)
    decreases |uses|
  {
    hide Awaiting, Use;
    if uses != [] {
      assert uses[0].id != id;
      assert !Mentions(Assistant(uses[1..]), id) by {
        assert forall i :: 0 <= i < |uses[1..]| ==> uses[1..][i] == uses[i + 1];
      }
      UseElsewhere(c, id, k, tool, toolPath, input, uses[0]);
      UsesElsewhere(Use(c, uses[0]), id, k, tool, toolPath, input, uses[1..]);
    }
  }

  lemma ReportElsewhere(c: Child, id: CallId, k: nat, tool: string, toolPath: string, input: string, r: ToolResult)
    requires Awaiting(c, id, k, tool, toolPath, input) && r.id != id
    ensures Awaiting(Report(c, r), id, k, tool, toolPath, input)
  {
    if r.id != NoCall && r.id in c.pending {
      var j := c.pending[r.id];
      assert c.open[j].callId == r.id;
      SetResultConserves(c, j, r.content);
      FlushElsewhere(SetResult(c, j, r.content), id, k, tool, toolPath, input, j);
    }
  }

  lemma {:induction false} ReportsElsewhere(c: Child, id: CallId, k: nat, tool: string, toolPath: string,
          input: string, results: seq<ToolResult>)
    requires Awaiting(c, id, k, tool, toolPath, input) && !Mentions(User(results), id)
    ensures Awaiting(ReportAll(c, results), id, k, tool, toolPath, input)
    decreases |results|
  {
    hide Awaiting, Report;
    if results != [] {
      assert results[0].id != id;
      assert !Mentions(User(results[1..]), id) by {
        assert forall i :: 0 <= i < |results[1..]| ==> results[1..][i] == results[i + 1];
      }
      ReportElsewhere(c, id, k, tool, toolPath, input, results[0]);
      ReportsElsewhere(Report(c, results[0]), id, k, tool, toolPath, input, results[1..]);
    }
  }

  /** The call a completion is about, if not this one, does not share its id. */
  lemma OtherCall(c: Child, id: CallId, k: nat, i: CallId)
    requires Conserved(c) && id in c.pending && c.pending[id] == k && i != id && Completing(c, i) != k
    ensures Completing(c, i) in c.open ==> c.open[Completing(c, i)].callId != id
  {
    assert k in c.open;
  }

  /** A frame that does not name the call, and does not complete it as the current
      one, leaves it waiting. */
  lemma FrameElsewhere(c: Child, id: CallId, k: nat, tool: string, toolPath: string, input: string, f: Frame)
    requires Awaiting(c, id, k, tool, toolPath, input) && !Mentions(f, id)
    requires f.Completed? ==> Completing(c, f.callId) != k
    ensures Awaiting(Feed(c, f), id, k, tool, toolPath, input)
  {
    FeedConserves(c, f);
    match f
    case Assistant(uses) => UsesElsewhere(c, id, k, tool, toolPath, input, uses);
    case User(results) => ReportsElsewhere(c, id, k, tool, toolPath, input, results);
    case Completed(i, result) =>
      var j := Completing(c, i);
      OtherCall(c, id, k, i);
      SetResultConserves(c, j, result);
      FlushElsewhere(SetResult(c, j, result), id, k, tool, toolPath, input, j);
      FlushElsewhere(c, id, k, tool, toolPath, input, j);
    case Started(_, _, _, _) => NotOpenYet(c);
    case _ =>
  }

  // --- completions that name no waiting call --------------------------------------------

  predicate Closes(f: Frame, x: CallId) {
    match f
    case Completed(i, _) => i == x
    case User(_) => Mentions(f, x)
    case _ => false
  }

  /** A call with this id is waiting, and none of the first `i` frames closes it. */
  ghost predicate WaitsAt(c: Child, frames: seq<Frame>, i: nat, x: CallId)
    requires i <= |frames|
  {
    x in c.pending && forall j :: 0 <= j < i ==> !Closes(frames[j], x)
  }

  /** Frame `i` opens a call: a start always does, an assistant message does for an
      id that is not waiting. */
  ghost predicate OpensAt(c: Child, frames: seq<Frame>, i: nat)
    requires i < |frames|
  {
    match frames[i]
    case Started(_, _, _, _) => true
    case Assistant(uses) => exists b :: b in uses && b.id != NoCall && !WaitsAt(c, frames, i, b.id)
    case _ => false
  }

  /** Frame `i` is a completion that names no waiting call, and no call has been
      opened before it. */
  ghost predicate StrayAt(c: Child, frames: seq<Frame>, i: nat)
    requires i < |frames|
  {
    && frames[i].Completed? && !WaitsAt(c, frames, i, frames[i].callId)
    && forall j :: 0 <= j < i ==> !OpensAt(c, frames, j)
  }

  /** The call was opened last, and a stray completion comes before another one is. */
  ghost predicate Taken(c: Child, k: nat, frames: seq<Frame>) {
    c.current == k && exists i :: 0 <= i < |frames| && StrayAt(c, frames, i)
  }

  predicate Unnamed(frames: seq<Frame>, id: CallId) {
    forall i :: 0 <= i < |frames| ==> !Mentions(frames[i], id)
  }

  // --- the cursor and the waiting ids over one frame ----------------------------------------

  lemma {:induction false} UsesCursor(c: Child, uses: seq<ToolUse>)
    requires Conserved(c)
    ensures var d := UseAll(c, uses);
            && (d.current == c.current || d.current > c.driverStep) && d.driverStep >= c.driverStep
            && ((exists b :: b in uses && b.id != NoCall && b.id !in c.pending) ==> d.current > c.driverStep)
            && ((forall b :: b in uses ==> b.id == NoCall || b.id in c.pending) ==>
                  d.current == c.current && d.pending == c.pending)
    decreases |uses|
  {
    hide Conserved, SetName;
    if uses != [] {
      UseConserves(c, uses[0]);
      UseCursor(c, uses[0]);
      UsesCursor(Use(c, uses[0]), uses[1..]);
      assert forall b :: b in uses <==> b == uses[0] || b in uses[1..];
    }
  }

  lemma UseCursor(c: Child, b: ToolUse)
    ensures var d := Use(c, b);
            if b.id != NoCall && b.id !in c.pending
            then d.current == c.driverStep + 1 == d.driverStep
            else d.current == c.current && d.driverStep == c.driverStep && d.pending == c.pending
  {
  }

  lemma {:induction false} ReportsCursor(c: Child, results: seq<ToolResult>)
    requires Conserved(c) && c.recording
    ensures var d := ReportAll(c, results);
            && (d.current == c.current || d.current == 0)
            && (c.current in c.open && (forall r :: r in results ==> r.id != c.open[c.current].callId || r.id == NoCall) ==>
                  d.current == c.current)
            && (forall x :: x in d.pending <==> x in c.pending && !exists r :: r in results && r.id == x)
    decreases |results|
  {
    hide Conserved, Flush, SetResult;
    if results != [] {
      ReportCursor(c, results[0]);
      ReportsCursor(Report(c, results[0]), results[1..]);
      assert forall r :: r in results <==> r == results[0] || r in results[1..];
    }
  }

  lemma ReportCursor(c: Child, r: ToolResult)
    requires Conserved(c) && c.recording
    ensures var d := Report(c, r);
            && Conserved(d) && d.recording && (d.current == c.current || d.current == 0)
            && (c.current in c.open && (r.id != c.open[c.current].callId || r.id == NoCall) ==>
                  d.current == c.current && d.current in d.open && d.open[d.current].callId == c.open[c.current].callId)
            && (forall x :: x in d.pending <==> x in c.pending && x != r.id)
  {
    if r.id != NoCall && r.id in c.pending {
      var j := c.pending[r.id];
      SetResultConserves(c, j, r.content);
      FlushConserves(SetResult(c, j, r.content), j);
    }
  }

  /** Once the cursor has left a call it does not come back. */
  lemma CursorMovesOn(c: Child, f: Frame)
    requires Conserved(c) && c.recording
    ensures var d := Feed(c, f);
            d.current == c.current || d.current == 0 || d.current > c.driverStep
  {
    hide Conserved, UseAll, ReportAll;
    match f
    case Assistant(uses) => UsesCursor(c, uses);
    case User(results) => ReportsCursor(c, results);
    case _ =>
  }

  lemma AwaitedStep(c: Child, id: CallId, k: nat, tool: string, toolPath: string, input: string)
    requires Awaiting(c, id, k, tool, toolPath, input)
    ensures 1 <= k <= c.driverStep && Conserved(c) && c.recording && k in c.open && c.open[k].callId == id && id != NoCall
    ensures forall x :: x in c.pending && x != id ==> c.pending[x] != k
  {
  }

  /** Away from the cursor, a call that is not named keeps waiting. */
  lemma AwayFrame(c: Child, id: CallId, k: nat, tool: string, toolPath: string, input: string, f: Frame)
    requires Awaiting(c, id, k, tool, toolPath, input) && !Mentions(f, id) && c.current != k
    ensures Awaiting(Feed(c, f), id, k, tool, toolPath, input) && Feed(c, f).current != k
  {
    hide Awaiting, Feed;
    AwaitedStep(c, id, k, tool, toolPath, input);
    FrameElsewhere(c, id, k, tool, toolPath, input, f);
    CursorMovesOn(c, f);
  }

  /** A frame that opens a call takes the cursor away. */
  lemma OpeningFrame(c: Child, id: CallId, k: nat, tool: string, toolPath: string, input: string, f: Frame)
    requires Awaiting(c, id, k, tool, toolPath, input) && !Mentions(f, id)
    requires f.Started? || (f.Assistant? && exists b :: b in f.uses && b.id != NoCall && b.id !in c.pending)
    ensures Awaiting(Feed(c, f), id, k, tool, toolPath, input) && Feed(c, f).current != k
  {
    hide Awaiting, UseAll;
    AwaitedStep(c, id, k, tool, toolPath, input);
    FrameElsewhere(c, id, k, tool, toolPath, input, f);
    if f.Assistant? { UsesCursor(c, f.uses); }
  }

  /** A frame that neither opens a call nor strays leaves the cursor where it is. */
  lemma QuietFrame(c: Child, id: CallId, k: nat, tool: string, toolPath: string, input: string, f: Frame)
    requires Awaiting(c, id, k, tool, toolPath, input) && !Mentions(f, id) && c.current == k
    requires !f.Started? && (f.Assistant? ==> forall b :: b in f.uses ==> b.id == NoCall || b.id in c.pending)
    requires f.Completed? ==> f.callId in c.pending
    ensures var d := Feed(c, f);
            && Awaiting(d, id, k, tool, toolPath, input) && d.current == k
            && forall x :: x in d.pending <==> x in c.pending && !Closes(f, x)
  {
    hide Awaiting, UseAll, ReportAll, Conserved, Flush, SetResult;
    AwaitedStep(c, id, k, tool, toolPath, input);
    FrameElsewhere(c, id, k, tool, toolPath, input, f);
    match f
    case Assistant(uses) => UsesCursor(c, uses);
    case User(results) =>
      ReportsCursor(c, results);
      forall r | r in results ensures r.id != id {
        var i :| 0 <= i < |results| && results[i] == r;
      }
      forall x ensures Mentions(f, x) <==> exists r :: r in results && r.id == x { NamedResult(results, x); }
    case Completed(i, result) => ClosedByName(c, i, result);
    case _ =>
  }

  lemma NamedResult(results: seq<ToolResult>, x: CallId)
    ensures Mentions(User(results), x) <==> exists r :: r in results && r.id == x
  {
    if r :| r in results && r.id == x {
      var i :| 0 <= i < |results| && results[i] == r;
    }
  }

  lemma ClosedByName(c: Child, i: CallId, result: string)
    requires Conserved(c) && c.recording && i in c.pending
    ensures var d := Complete(c, i, result);
            && d.pending == c.pending - {i}
            && d.current == if c.current == c.pending[i] then 0 else c.current
  {
  }

  // --- the whole wait ---------------------------------------------------------------------

  /** As long as no call is opened and no completion strays, the cursor stays and the
      waiting ids are those not closed. */
  lemma {:induction false} QuietSoFar(c: Child, id: CallId, k: nat, tool: string, toolPath: string, input: string,
          frames: seq<Frame>, n: nat)
    requires Awaiting(c, id, k, tool, toolPath, input) && c.current == k && Unnamed(frames, id) && n <= |frames|
    requires forall i :: 0 <= i < n ==> !OpensAt(c, frames, i) && !StrayAt(c, frames, i)
    ensures var d := FeedAll(c, frames[..n]);
            && Awaiting(d, id, k, tool, toolPath, input) && d.current == k
            && forall x :: x in d.pending <==> WaitsAt(c, frames, n, x)
  {
    hide Awaiting, Feed, Mentions, Closes;
    if n > 0 {
      var m := n - 1;
      QuietSoFar(c, id, k, tool, toolPath, input, frames, m);
      assert frames[..n][..m] == frames[..m];
      var d := FeedAll(c, frames[..m]);
      assert !OpensAt(c, frames, m) && !StrayAt(c, frames, m);
      QuietFrame(d, id, k, tool, toolPath, input, frames[m]);
      forall x ensures WaitsAt(c, frames, n, x) <==> WaitsAt(c, frames, m, x) && !Closes(frames[m], x) {}
    }
  }

  /** Once the cursor has left it, the call waits on to the end. */
  lemma {:induction false} WaitsOn(c: Child, id: CallId, k: nat, tool: string, toolPath: string, input: string,
          frames: seq<Frame>, m: nat, n: nat)
    requires m <= n <= |frames| && Unnamed(frames, id)
    requires var d := FeedAll(c, frames[..m]); Awaiting(d, id, k, tool, toolPath, input) && d.current != k
    ensures var d := FeedAll(c, frames[..n]); Awaiting(d, id, k, tool, toolPath, input) && d.current != k
    decreases n
  {
    hide Awaiting, Feed, Mentions;
    if m < n {
      WaitsOn(c, id, k, tool, toolPath, input, frames, m, n - 1);
      assert frames[..n][..n - 1] == frames[..n - 1];
      AwayFrame(FeedAll(c, frames[..n - 1]), id, k, tool, toolPath, input, frames[n - 1]);
    }
  }

  /** The call has been written and its id forgotten. */
  ghost predicate Gone(c: Child, id: CallId, k: nat) {
    Conserved(c) && c.recording && id != NoCall && WrittenStep(c, k) && id !in c.pending
  }

  lemma StrayCloses(c: Child, id: CallId, k: nat, tool: string, toolPath: string, input: string, i: CallId, result: string)
    requires Awaiting(c, id, k, tool, toolPath, input) && c.current == k && i !in c.pending
    ensures Gone(Complete(c, i, result), id, k)
    ensures Complete(c, i, result).written ==
              c.written + [Record(k, tool, toolPath, input, if result != "" then result else c.open[k].result)]
  {
    FeedConserves(c, Completed(i, result));
    var d := Complete(c, i, result);
    assert d.written[|c.written|].step == k;
  }

  lemma {:induction false} UsesGone(c: Child, id: CallId, k: nat, uses: seq<ToolUse>)
    requires id != NoCall && id !in c.pending && !Mentions(Assistant(uses), id)
    ensures id !in UseAll(c, uses).pending
    decreases |uses|
  {
    if uses != [] {
      assert uses[0].id != id;
      assert !Mentions(Assistant(uses[1..]), id) by {
        assert forall i :: 0 <= i < |uses[1..]| ==> uses[1..][i] == uses[i + 1];
      }
      UsesGone(Use(c, uses[0]), id, k, uses[1..]);
    }
  }

  lemma {:induction false} ReportsGrow(c: Child, results: seq<ToolResult>)
    ensures c.written <= ReportAll(c, results).written
    ensures forall x :: x in ReportAll(c, results).pending ==> x in c.pending
    decreases |results|
  {
    if results != [] { ReportsGrow(Report(c, results[0]), results[1..]); }
  }

  lemma GoneFrame(c: Child, id: CallId, k: nat, f: Frame)
    requires Gone(c, id, k) && !Mentions(f, id)
    ensures Gone(Feed(c, f), id, k)
  {
    FeedConserves(c, f);
    FeedKeepsRecording(c, f);
    hide Conserved, UseAll, ReportAll, Complete, StepIn;
    match f
    case Assistant(uses) =>
      UsesGone(c, id, k, uses);
      UseAllKeepsRecording(c, uses);
      StepStays(c.written, UseAll(c, uses).written, k);
    case User(results) =>
      ReportsGrow(c, results);
      StepStays(c.written, ReportAll(c, results).written, k);
    case Completed(i, result) =>
      CompleteGrows(c, i, result);
      StepStays(c.written, Complete(c, i, result).written, k);
    case _ =>
  }

  lemma CompleteGrows(c: Child, id: CallId, result: string)
    ensures c.written <= Complete(c, id, result).written
    ensures forall x :: x in Complete(c, id, result).pending ==> x in c.pending
  {
  }

  lemma StepStays(before: seq<Record>, after: seq<Record>, k: nat)
    requires before <= after && StepIn(before, k)
    ensures StepIn(after, k)
  {
    var i :| 0 <= i < |before| && before[i].step == k;
    assert after[i].step == k;
  }

  lemma {:induction false} GoneForGood(c: Child, id: CallId, k: nat, frames: seq<Frame>, m: nat, n: nat)
    requires m <= n <= |frames| && Unnamed(frames, id) && Gone(FeedAll(c, frames[..m]), id, k)
    ensures Gone(FeedAll(c, frames[..n]), id, k)
    decreases n
  {
    hide Gone, Feed, Mentions;
    if m < n {
      GoneForGood(c, id, k, frames, m, n - 1);
      assert frames[..n][..n - 1] == frames[..n - 1];
      GoneFrame(FeedAll(c, frames[..n - 1]), id, k, frames[n - 1]);
    }
  }

  /** The first place where something happens to the cursor, if there is one. */
  lemma {:induction false} FirstMove(c: Child, frames: seq<Frame>, n: nat) returns (i: nat)
    requires n <= |frames|
    ensures i <= n && forall j :: 0 <= j < i ==> !OpensAt(c, frames, j) && !StrayAt(c, frames, j)
    ensures i < n ==> OpensAt(c, frames, i) || StrayAt(c, frames, i)
  {
    hide OpensAt, StrayAt;
    if n == 0 {
      i := 0;
    } else {
      i := FirstMove(c, frames, n - 1);
      if i == n - 1 && !OpensAt(c, frames, i) && !StrayAt(c, frames, i) { i := n; }
    }
  }

  lemma NothingStrays(c: Child, frames: seq<Frame>, i: nat)
    requires i < |frames| && OpensAt(c, frames, i) && forall j :: 0 <= j < i ==> !StrayAt(c, frames, j)
    ensures forall j :: 0 <= j < |frames| ==> !StrayAt(c, frames, j)
  {
    hide WaitsAt;
  }

  /** What becomes of an awaited call over frames that do not name it: it waits on,
      unless it was taken. */
  lemma AwaitedOrTaken(c: Child, id: CallId, k: nat, tool: string, toolPath: string, input: string, frames: seq<Frame>)
    requires Awaiting(c, id, k, tool, toolPath, input) && Unnamed(frames, id)
    ensures if Taken(c, k, frames) then Gone(FeedAll(c, frames), id, k)
            else Awaiting(FeedAll(c, frames), id, k, tool, toolPath, input)
  {
    hide Awaiting, Gone, Feed, Mentions, OpensAt, StrayAt;
    var n := |frames|;
    assert frames[..n] == frames && frames[..0] == [];
    if c.current != k {
      WaitsOn(c, id, k, tool, toolPath, input, frames, 0, n);
    } else {
      var i := FirstMove(c, frames, n);
      QuietSoFar(c, id, k, tool, toolPath, input, frames, i);
      if i < n {
        assert frames[..i + 1][..i] == frames[..i];
        MovingFrame(c, id, k, tool, toolPath, input, frames, i);
        if OpensAt(c, frames, i) {
          NothingStrays(c, frames, i);
          WaitsOn(c, id, k, tool, toolPath, input, frames, i + 1, n);
        } else {
          GoneForGood(c, id, k, frames, i + 1, n);
        }
      }
    }
  }

  lemma MovingFrame(c: Child, id: CallId, k: nat, tool: string, toolPath: string, input: string, frames: seq<Frame>, i: nat)
    requires i < |frames| && Unnamed(frames, id) && (OpensAt(c, frames, i) || StrayAt(c, frames, i))
    requires var d := FeedAll(c, frames[..i]);
             Awaiting(d, id, k, tool, toolPath, input) && d.current == k
             && forall x :: x in d.pending <==> WaitsAt(c, frames, i, x)
    ensures var e := Feed(FeedAll(c, frames[..i]), frames[i]);
            if OpensAt(c, frames, i) then Awaiting(e, id, k, tool, toolPath, input) && e.current != k
            else Gone(e, id, k)
  {
    hide Awaiting, Gone, Mentions, WaitsAt, Complete, UseAll, ReportAll;
    var d, f := FeedAll(c, frames[..i]), frames[i];
    if OpensAt(c, frames, i) {
      OpeningFrame(d, id, k, tool, toolPath, input, f);
    } else {
      StrayCloses(d, id, k, tool, toolPath, input, f.callId, f.result);
    }
  }

  /** A call whose input the assistant stated, over any frames that do not name it:
      its result is recorded with exactly that input, once, if and only if the call
      was not taken; if it was, the result is dropped. */
  lemma CallIsRecorded(c: Child, id: CallId, k: nat, tool: string, toolPath: string, input: string,
                       frames: seq<Frame>, content: string)
    requires Awaiting(c, id, k, tool, toolPath, input) && Unnamed(frames, id)
    ensures var before := FeedAll(c, frames);
            var after := Feed(before, User([ToolResult(id, content)]));
            if Taken(c, k, frames) then WrittenStep(before, k) && after == before
            else
              && !WrittenStep(before, k)
              && after.written == before.written + [Record(k, tool, toolPath, input, content)]
              && k !in after.open && id !in after.pending
  {
    AwaitedOrTaken(c, id, k, tool, toolPath, input, frames);
    hide Taken, Unnamed;
    var before := FeedAll(c, frames);
    var r := ToolResult(id, content);
    assert [r][1..] == [];
    assert ReportAll(before, [r]) == Report(before, r);
    if !Taken(c, k, frames) {
      assert k in before.open && before.open[k].step == k;
    }
  }

  /** The state after an assistant message that opens call x. */
  function OneOpen(): Child {
    var x := Call("x");
    Child(1, map[1 := Tool(1, "t", "t", "", "", x)], map[x := 1], 1, map[x := "{}"], [], true)
  }

  lemma OneOpenIs()
    ensures Feed(FRESH, Assistant([ToolUse(Call("x"), "t", Readable("{}"))])) == OneOpen()
    ensures Awaiting(OneOpen(), Call("x"), 1, "t", "t", "{}")
  {
    var b := ToolUse(Call("x"), "t", Readable("{}"));
    assert UseAll(FRESH, [b]) == UseAll(Use(FRESH, b), []);
    assert Use(FRESH, b) == OneOpen();
    FreshConserved();
    UseConserves(FRESH, b);
  }

  lemma StrayIsWritten(id: CallId, result: string)
    requires id != Call("x") && result != ""
    ensures Complete(OneOpen(), id, result) == Child(1, map[], map[], 0, map[], [Record(1, "t", "t", "{}", result)], true)
  {
    var c := OneOpen();
    assert Completing(c, id) == 1;
    var d := SetResult(c, 1, result);
    assert d.open[1] == Tool(1, "t", "t", "", result, Call("x"));
    assert d.open - {1} == map[] && d.pending - {Call("x")} == map[] && d.authInputs - {Call("x")} == map[];
  }

  /** A call that is taken: the completion names an unknown call, and the one just
      opened is recorded with its result; its own result is dropped. */
  lemma StrayCompletion(content: string)
    ensures var c := Feed(FRESH, Assistant([ToolUse(Call("x"), "t", Readable("{}"))]));
            var stray := Completed(Call("y"), "other");
            && Awaiting(c, Call("x"), 1, "t", "t", "{}") && Taken(c, 1, [stray])
            && Feed(c, stray).written == [Record(1, "t", "t", "{}", "other")]
            && Feed(Feed(c, stray), User([ToolResult(Call("x"), content)])) == Feed(c, stray)
  {
    var stray, r := Completed(Call("y"), "other"), ToolResult(Call("x"), content);
    OneOpenIs();
    assert "x"[0] != "y"[0] && Call("x") != Call("y");
    StrayIsWritten(Call("y"), "other");
    assert StrayAt(OneOpen(), [stray], 0);
    hide Awaiting, Use, Complete;
    var d := Feed(OneOpen(), stray);
    assert ReportAll(d, [r]) == ReportAll(Report(d, r), []);
  }
}
