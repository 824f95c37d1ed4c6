/** The accumulator as it is kept: objects for the open calls, shared by a map from
    call ids, a list in order of arrival, and a cursor.  Every method is shown to do
    what the value-level function of `SubAgentSteps` says. */
module SyntheticChildren {
  import opened SubAgentSteps

  class StepWriter {
    var records: seq<Record>

    constructor ()
      ensures records == []
    {
      records := [];
    }

    method WriteStep(r: Record)
      modifies this
      ensures records == old(records) + [r]
    {
      records := records + [r];
    }
  }

  class PendingChildTool {
    var step: nat
    var tool: string
    var toolPath: string
    var inputBuf: string
    var result: string
    const callId: CallId

    constructor (step: nat, tool: string, toolPath: string, input: string, callId: CallId)
      ensures Fields() == Tool(step, tool, toolPath, input, "", callId)
    {
      this.step, this.tool, this.toolPath, this.inputBuf, this.result, this.callId := step, tool, toolPath, input, "", callId;
    }

    ghost function Fields(): Tool
      reads this
    {
      Tool(step, tool, toolPath, inputBuf, result, callId)
    }

    method SetResult(r: string)
      modifies `result
      ensures Fields() == old(Fields()).(result := r)
    {
      result := r;
    }

    method AppendInput(text: string)
      modifies `inputBuf
      ensures Fields() == old(Fields()).(input := old(Fields()).input + text)
    {
      inputBuf := inputBuf + text;
    }

    method SetName(name: string)
      modifies `tool, `toolPath
      ensures Fields() == old(Fields()).(tool := name, toolPath := name)
    {
      tool, toolPath := name, name;
    }
  }

  /** Steps grow along the list, so no object occurs twice. */
  ghost predicate Ascending(order: seq<PendingChildTool>)
    reads order`step
  {
    forall i, j :: 0 <= i < j < |order| ==> order[i].step < order[j].step
  }

  ghost function OpenCalls(order: seq<PendingChildTool>): map<nat, Tool>
    requires Ascending(order)
    reads order
  {
    map i | 0 <= i < |order| :: order[i].step := order[i].Fields()
  }

  lemma InOpen(order: seq<PendingChildTool>, p: PendingChildTool)
    requires Ascending(order) && p in order
    ensures p.step in OpenCalls(order) && OpenCalls(order)[p.step] == p.Fields()
    ensures forall q :: q in order && q.step == p.step ==> q == p
  {
    var i :| 0 <= i < |order| && order[i] == p;
  }

  /** The id map as numbers. */
  ghost function StepsOf(pendings: map<CallId, PendingChildTool>): map<CallId, nat>
    reads pendings.Values`step
  {
    map id | id in pendings :: pendings[id].step
  }

  lemma PendingAt(pendings: map<CallId, PendingChildTool>, id: CallId)
    ensures id in StepsOf(pendings) <==> id in pendings
    ensures id in pendings ==> StepsOf(pendings)[id] == pendings[id].step
  {
  }

  lemma NothingOpen(c: Child, result: string)
    requires 0 !in c.open
    ensures Flush(c, 0) == c && SetResult(c, 0, result) == c
  {
  }

  lemma PendingAdded(pendings: map<CallId, PendingChildTool>, id: CallId, p: PendingChildTool)
    ensures StepsOf(pendings[id := p]) == StepsOf(pendings)[id := p.step]
  {
  }

  lemma PendingRemoved(pendings: map<CallId, PendingChildTool>, id: CallId)
    ensures StepsOf(pendings - {id}) == StepsOf(pendings) - {id}
  {
  }

  lemma NoStepZero(order: seq<PendingChildTool>)
    requires Ascending(order) && forall q :: q in order ==> 1 <= q.step
    ensures 0 !in OpenCalls(order)
  {
  }

  class SyntheticChild {
    var sw: StepWriter?
    var driverStep: nat
    var pendings: map<CallId, PendingChildTool>
    var order: seq<PendingChildTool>
    var current: PendingChildTool?
    var authInputs: map<CallId, string>
    var finalized: bool

    constructor (sw: StepWriter?)
      requires sw != null ==> sw.records == []
      ensures Valid() && this.sw == sw && !finalized && order == []
      ensures View() == FRESH.(recording := sw != null)
    {
      this.sw, driverStep, pendings, order, current, authInputs, finalized := sw, 0, map[], [], null, map[], false;
    }

    ghost predicate Valid()
      reads this, order
    {
      && Ascending(order)
      && (forall q :: q in order ==> 1 <= q.step <= driverStep)
      && (forall id :: id in pendings ==> id != NoCall && pendings[id] in order && pendings[id].callId == id)
      && (current != null ==> current in order)
    }

    /** What the objects amount to. */
    ghost function View(): Child
      requires Valid()
      reads this, order, sw, pendings.Values`step
    {
      Child(driverStep, OpenCalls(order), StepsOf(pendings),
            if current == null then 0 else current.step, authInputs,
            if sw == null then [] else sw.records, sw != null)
    }

    /** Takes `p` out of the list. */
    method Remove(p: PendingChildTool)
      requires Ascending(order) && p in order
      modifies this`order
      ensures Ascending(order) && p !in order
      ensures forall q :: q in order <==> q in old(order) && q != p
      ensures OpenCalls(order) == OpenCalls(old(order)) - {p.step} && |order| < |old(order)|
    {
      hide Ascending, OpenCalls, Without;
      for i := 0 to |order|
        invariant p !in order[..i]
        invariant order == old(order)
      {
        if order[i] == p {
          RestAscending(order, i);
          RestOpen(order, i);
          forall q ensures q in Without(order, i) <==> q in order && q != p { RestMembers(order, i, q); }
          WithoutIs(order, i);
          order := order[..i] + order[i + 1..];
          return;
        }
      }
    }

    /** Drops the call `p` from the map, the list and the cursor. */
    method Forget(p: PendingChildTool)
      requires Valid() && p in order
      modifies this`authInputs, this`pendings, this`order, this`current, p
      ensures Valid() && p !in order && |order| < |old(order)| && forall q :: q in order ==> q in old(order)
      ensures OpenCalls(order) == old(OpenCalls(order)) - {old(p.step)}
      ensures pendings == if p.callId == NoCall then old(pendings) else old(pendings) - {p.callId}
      ensures authInputs == if p.callId == NoCall then old(authInputs) else old(authInputs) - {p.callId}
      ensures current == if old(current) == p then null else old(current)
    {
      hide Ascending, OpenCalls;
      if p.callId != NoCall {
        authInputs := authInputs - {p.callId};
        pendings := pendings - {p.callId};
      }
      Remove(p);
      if current == p {
        current := null;
      }
      ghost var rest, before := OpenCalls(order), order;
      p.step := 0;
      assert order == before && OpenCalls(order) == rest && Ascending(order);
    }

    /** Writes the call `p` and forgets it, unless it was flushed before or nothing
        is being recorded. */
    method Flush(p: PendingChildTool?)
      requires Valid() && (p != null && p.step != 0 ==> p in order)
      modifies this`authInputs, this`pendings, this`order, this`current, p, sw
      ensures Valid() && View() == SubAgentSteps.Flush(old(View()), if p == null then 0 else old(p.step))
      ensures p != null && old(p.step) != 0 && sw != null ==> p !in order && |order| < |old(order)|
      ensures p == null || sw == null ==> order == old(order)
      ensures forall q :: q in order ==> q in old(order)
    {
      hide Ascending, OpenCalls, StepsOf;
      NoStepZero(order);
      if p == null || p.step == 0 || sw == null {
        return;
      }
      InOpen(order, p);
      PendingRemoved(pendings, p.callId);
      var toolInput := p.inputBuf;
      if p.callId != NoCall && p.callId in authInputs {
        toolInput := authInputs[p.callId];
      }
      sw.WriteStep(Record(p.step, p.tool, p.toolPath, toolInput, p.result));
      Forget(p);
    }

    /** Enters a call with the next step number into the map, the list and the
        cursor. */
    method AddCall(p: PendingChildTool)
      requires Valid() && p.step == driverStep + 1
      modifies this`driverStep, this`pendings, this`order, this`current
      ensures Valid() && View() == SubAgentSteps.Open(old(View()), p.Fields())
      ensures order == old(order) + [p]
    {
      hide Ascending, OpenCalls, StepsOf, HasStep;
      PendingAdded(pendings, p.callId, p);
      Appended(order, p);
      ghost var more := order + [p];
      assert forall q :: q in more <==> q in order || q == p;
      if p.callId != NoCall {
        pendings := pendings[p.callId := p];
      }
      driverStep, order, current := p.step, order + [p], p;
      assert order == more;
    }

    /** A new open call, with the next step number. */
    method OpenCall(tool: string, toolPath: string, input: string, id: CallId)
      requires Valid()
      modifies this`driverStep, this`pendings, this`order, this`current
      ensures Valid() && View() == SubAgentSteps.Open(old(View()), Tool(old(driverStep) + 1, tool, toolPath, input, "", id))
      ensures forall q :: q in order ==> q in old(order) || fresh(q)
    {
      hide Ascending, OpenCalls, StepsOf, HasStep, SubAgentSteps.Open;
      var p := new PendingChildTool(driverStep + 1, tool, toolPath, input, id);
      AddCall(p);
    }

    method Start(tool: string, path: string, command: string, id: CallId)
      requires Valid()
      modifies this`driverStep, this`pendings, this`order, this`current
      ensures Valid() && View() == SubAgentSteps.Start(old(View()), tool, path, command, id)
      ensures forall q :: q in order ==> q in old(order) || fresh(q)
    {
      var toolPath := tool;
      if path != "" {
        toolPath := tool + ":" + path;
      }
      OpenCall(tool, toolPath, if command != "" then command else path, id);
    }

    method Delta(text: string)
      requires Valid()
      modifies order`inputBuf
      ensures Valid() && View() == SubAgentSteps.Delta(old(View()), text)
    {
      hide Ascending, OpenCalls, StepsOf, HasStep;
      NoStepZero(order);
      if current != null {
        InOpen(order, current);
        ghost var before := OpenCalls(order);
        AllIn(order);
        current.AppendInput(text);
        Edited(order, before, current);
      }
    }

    /** Stores the result of a call. */
    method SetResult(p: PendingChildTool, result: string)
      requires Valid() && p in order
      modifies p`result
      ensures Valid() && View() == SubAgentSteps.SetResult(old(View()), p.step, result)
    {
      hide Ascending, OpenCalls, StepsOf, HasStep;
      InOpen(order, p);
      ghost var before := OpenCalls(order);
      AllIn(order);
      p.SetResult(result);
      Edited(order, before, p);
    }

    method Complete(id: CallId, result: string)
      requires Valid()
      modifies this`authInputs, this`pendings, this`order, this`current, order, sw
      ensures Valid() && View() == SubAgentSteps.Complete(old(View()), id, result)
      ensures forall q :: q in order ==> q in old(order)
    {
      hide Ascending, OpenCalls, StepsOf, HasStep, SubAgentSteps.Flush, SubAgentSteps.SetResult;
      NoStepZero(order);
      NothingOpen(View(), result);
      PendingAt(pendings, id);
      var p := current;
      if id != NoCall && id in pendings {
        p := pendings[id];
      }
      if p != null {
        if result != "" {
          SetResult(p, result);
        }
        Flush(p);
      }
    }

    /** One tool call block of an assistant frame. */
    method Use(b: ToolUse)
      requires Valid()
      modifies this`driverStep, this`pendings, this`order, this`current, this`authInputs, order
      ensures Valid() && View() == SubAgentSteps.Use(old(View()), b)
      ensures forall q :: q in order ==> q in old(order) || fresh(q)
    {
      hide Ascending, OpenCalls, StepsOf, HasStep, SubAgentSteps.Open;
      PendingAt(pendings, b.id);
      if b.id == NoCall {
        return;
      }
      if b.input.Readable? {
        authInputs := authInputs[b.id := b.input.json];
      }
      if b.id !in pendings {
        OpenCall(b.name, b.name, "", b.id);
      } else {
        var p := pendings[b.id];
        InOpen(order, p);
        if p.tool == "" {
          NameCall(p, b.name);
        }
      }
    }

    method NameCall(p: PendingChildTool, name: string)
      requires Valid() && p in order
      modifies p`tool, p`toolPath
      ensures Valid() && View() ==
                old(View()).(open := old(View()).open[p.step := old(p.Fields()).(tool := name, toolPath := name)])
    {
      hide Ascending, OpenCalls, StepsOf, HasStep;
      InOpen(order, p);
      ghost var before := OpenCalls(order);
      AllIn(order);
      p.SetName(name);
      Edited(order, before, p);
    }

    /** One result block of a user frame. */
    method Report(r: ToolResult)
      requires Valid()
      modifies this`authInputs, this`pendings, this`order, this`current, order, sw
      ensures Valid() && View() == SubAgentSteps.Report(old(View()), r)
      ensures forall q :: q in order ==> q in old(order)
    {
      hide Ascending, OpenCalls, StepsOf, HasStep, SubAgentSteps.Flush, SubAgentSteps.SetResult;
      PendingAt(pendings, r.id);
      if r.id != NoCall && r.id in pendings {
        var p := pendings[r.id];
        SetResult(p, r.content);
        Flush(p);
      }
    }

    method UseEach(uses: seq<ToolUse>)
      requires Valid()
      modifies this`driverStep, this`pendings, this`order, this`current, this`authInputs, order
      ensures Valid() && View() == UseAll(old(View()), uses)
      ensures forall q :: q in order ==> q in old(order) || fresh(q)
    {
      hide Ascending, OpenCalls, StepsOf, View, SubAgentSteps.Use;
      for i := 0 to |uses|
        invariant Valid() && UseAll(View(), uses[i..]) == UseAll(old(View()), uses)
        invariant forall q :: q in order ==> q in old(order) || fresh(q)
      {
        assert uses[i..][0] == uses[i] && uses[i..][1..] == uses[i + 1..];
        assert forall k :: 0 <= k < |order| ==> order[k] in old(order) || fresh(order[k]);
        Use(uses[i]);
      }
    }

    method ReportEach(results: seq<ToolResult>)
      requires Valid()
      modifies this`authInputs, this`pendings, this`order, this`current, order, sw
      ensures Valid() && View() == ReportAll(old(View()), results)
      ensures forall q :: q in order ==> q in old(order)
    {
      hide Ascending, OpenCalls, StepsOf, View, SubAgentSteps.Report;
      for i := 0 to |results|
        invariant Valid() && ReportAll(View(), results[i..]) == ReportAll(old(View()), results)
        invariant forall q :: q in order ==> q in old(order)
      {
        assert results[i..][0] == results[i] && results[i..][1..] == results[i + 1..];
        assert forall k :: 0 <= k < |order| ==> order[k] in old(order);
        Report(results[i]);
      }
    }

    /** One frame of the sub-agent's stream. */
    method Feed(f: Frame)
      requires Valid()
      modifies this`driverStep, this`authInputs, this`pendings, this`order, this`current, order, sw
      ensures Valid() && View() == SubAgentSteps.Feed(old(View()), f)
      ensures forall q :: q in order ==> q in old(order) || fresh(q)
    {
      hide Ascending, OpenCalls, StepsOf, View, SubAgentSteps.Use, SubAgentSteps.Report, SubAgentSteps.Start,
           SubAgentSteps.Delta, SubAgentSteps.Complete;
      match f {
        case Started(tool, path, command, id) => Start(tool, path, command, id);
        case InputDelta(text) => Delta(text);
        case Completed(id, result) => Complete(id, result);
        case Assistant(uses) => UseEach(uses);
        case User(results) => ReportEach(results);
        case Other =>
      }
    }

    /** Flushes every open call, oldest first.  `ends` is whether that comes to an
        end: without a writer a flush changes nothing, and the loop would go on. */
    method FlushAll() returns (ends: bool)
      requires Valid()
      modifies this`authInputs, this`pendings, this`order, this`current, order, sw
      ensures Valid() && (ends <==> sw != null || old(order) == [])
      ensures ends ==> order == [] && View() == Drain(old(View()))
      ensures !ends ==> View() == old(View())
    {
      hide Ascending, OpenCalls, StepsOf, SubAgentSteps.Flush;
      while |order| > 0
        invariant Valid() && Drain(View()) == Drain(old(View()))
        invariant forall q :: q in order ==> q in old(order)
        invariant sw == null ==> order == old(order) && View() == old(View())
        decreases |order|
      {
        if sw == null {
          return false;
        }
        OldestFirst(order);
        DrainOnce(View());
        Flush(order[0]);
      }
      NoCalls(order);
      DrainNothing(View());
      current := null;
      ends := true;
    }

    /** Ends the sub-agent: flushes what is open and closes the writer.  Only the
        first call does anything. */
    method Finalize() returns (ends: bool)
      requires Valid()
      modifies this, order, sw
      ensures Valid() && (ends <==> old(finalized) || old(sw) != null || old(order) == [])
      ensures old(finalized) ==> View() == old(View()) && sw == old(sw)
      ensures !old(finalized) && ends ==>
                finalized && sw == null && order == [] && (old(sw) != null ==> old(sw).records == Drain(old(View())).written)
    {
      hide Ascending, OpenCalls, StepsOf, Drain;
      if finalized {
        return true;
      }
      finalized := true;
      ends := FlushAll();
      if ends {
        assert sw != null ==> View().written == sw.records;
        sw := null;
      }
    }
  }

  /** A sub-agent from its first frame to its end: the log holds every step number
      from 1 to the last exactly once. */
  method Observe(frames: seq<Frame>) returns (records: seq<Record>)
    ensures records == Drain(FeedAll(FRESH, frames)).written
    ensures forall k: nat :: 1 <= k <= |records| <==> StepIn(records, k)
    ensures forall i, j :: 0 <= i < j < |records| ==> records[i].step != records[j].step
  {
    hide SyntheticChild.View, FeedAll, Conserved, Drain, Ascending, OpenCalls;
    var sw := new StepWriter();
    var child := new SyntheticChild(sw);
    NothingFed(frames);
    for i := 0 to |frames|
      invariant child.Valid() && child.sw == sw && !child.finalized
      invariant child.View() == FeedAll(FRESH, frames[..i])
      invariant fresh(child) && fresh(sw) && forall k :: 0 <= k < |child.order| ==> fresh(child.order[k])
    {
      FedOneMore(frames, i);
      child.Feed(frames[i]);
      assert forall k :: 0 <= k < |child.order| ==> child.order[k] in child.order;
    }
    assert frames[..|frames|] == frames;
    StreamConserves(frames);
    DrainWritesAll(FeedAll(FRESH, frames));
    var ends := child.Finalize();
    records := sw.records;
    forall k: nat ensures 1 <= k <= |records| <==> StepIn(records, k) {
      assert WrittenStep(Drain(FeedAll(FRESH, frames)), k) <==> StepIn(records, k);
    }
  }

  lemma NothingFed(frames: seq<Frame>)
    ensures FeedAll(FRESH, frames[..0]) == FRESH
  {
  }

  lemma FedOneMore(frames: seq<Frame>, i: nat)
    requires i < |frames|
    ensures FeedAll(FRESH, frames[..i + 1]) == Feed(FeedAll(FRESH, frames[..i]), frames[i])
  {
    assert frames[..i + 1][..i] == frames[..i];
  }

  lemma OldestFirst(order: seq<PendingChildTool>)
    requires Ascending(order) && order != []
    ensures order[0].step in OpenCalls(order) && Least(OpenCalls(order).Keys) == order[0].step
  {
    InOpen(order, order[0]);
    var k := Least(OpenCalls(order).Keys);
    var p := OpenKey(order, k);
    var i :| 0 <= i < |order| && order[i] == p;
  }

  lemma NoCalls(order: seq<PendingChildTool>)
    requires order == []
    ensures Ascending(order) && OpenCalls(order) == map[]
  {
  }

  lemma DrainOnce(c: Child)
    requires c.open.Keys != {} && c.recording
    ensures Drain(c) == Drain(SubAgentSteps.Flush(c, Least(c.open.Keys)))
  {
  }

  lemma DrainNothing(c: Child)
    requires c.open == map[]
    ensures Drain(c) == c.(current := 0)
  {
  }

  lemma AllIn(order: seq<PendingChildTool>)
    requires Ascending(order)
    ensures forall q :: q in order ==> q.step in OpenCalls(order) && OpenCalls(order)[q.step] == q.Fields()
    ensures forall k :: k in OpenCalls(order) ==> HasStep(order, k)
  {
    forall q | q in order
      ensures q.step in OpenCalls(order) && OpenCalls(order)[q.step] == q.Fields()
    {
      InOpen(order, q);
    }
    forall k | k in OpenCalls(order) ensures HasStep(order, k) {
      var p := OpenKey(order, k);
    }
  }

  ghost predicate HasStep(order: seq<PendingChildTool>, k: nat)
    reads order`step
  {
    exists q :: q in order && q.step == k
  }

  /** One call changed, but not its step; the others did not. */
  lemma Edited(order: seq<PendingChildTool>, before: map<nat, Tool>, p: PendingChildTool)
    requires Ascending(order) && p in order
    requires forall q :: q in order ==> q.step in before && (q != p ==> before[q.step] == q.Fields())
    requires forall k :: k in before ==> HasStep(order, k)
    ensures OpenCalls(order) == before[p.step := p.Fields()]
  {
    hide Ascending, OpenCalls;
    AllIn(order);
    var a, b := OpenCalls(order), before[p.step := p.Fields()];
    forall k | k in a ensures k in b && a[k] == b[k] {
      var q := OpenKey(order, k);
    }
    forall k | k in b ensures k in a {
      assert HasStep(order, k);
      var q :| q in order && q.step == k;
      InOpen(order, q);
    }
    assert a.Keys == b.Keys;
  }

  lemma LongerAscending(order: seq<PendingChildTool>, p: PendingChildTool)
    requires Ascending(order) && forall q :: q in order ==> q.step < p.step
    ensures Ascending(order + [p])
  {
    var longer := order + [p];
    forall i, j | 0 <= i < j < |longer| ensures longer[i].step < longer[j].step {
      assert longer[i] == order[i];
      if j < |order| { assert longer[j] == order[j]; }
    }
  }

  lemma Appended(order: seq<PendingChildTool>, p: PendingChildTool)
    requires Ascending(order) && forall q :: q in order ==> q.step < p.step
    ensures Ascending(order + [p]) && OpenCalls(order + [p]) == OpenCalls(order)[p.step := p.Fields()]
  {
    hide Ascending, OpenCalls;
    LongerAscending(order, p);
    var longer := order + [p];
    assert forall q :: q in longer <==> q in order || q == p;
    var a, b := OpenCalls(longer), OpenCalls(order)[p.step := p.Fields()];
    InOpen(longer, p);
    forall k | k in a ensures k in b && a[k] == b[k] {
      var q := OpenKey(longer, k);
      if q != p { InOpen(order, q); }
    }
    forall k | k in b ensures k in a {
      if k != p.step {
        var q := OpenKey(order, k);
        InOpen(longer, q);
      }
    }
    assert a.Keys == b.Keys;
  }

  // --- taking one call out of the list ------------------------------------------------

  function Without(order: seq<PendingChildTool>, i: nat): seq<PendingChildTool>
    requires i < |order|
  {
    order[..i] + order[i + 1..]
  }

  lemma WithoutIs(order: seq<PendingChildTool>, i: nat)
    requires i < |order|
    ensures order[..i] + order[i + 1..] == Without(order, i) && |Without(order, i)| == |order| - 1
  {
  }

  lemma RestAscending(order: seq<PendingChildTool>, i: nat)
    requires Ascending(order) && i < |order|
    ensures Ascending(Without(order, i)) && order[i] !in Without(order, i)
  {
    var rest := Without(order, i);
    assert forall j :: 0 <= j < |rest| ==> rest[j] == order[if j < i then j else j + 1];
  }

  lemma RestMembers(order: seq<PendingChildTool>, i: nat, q: PendingChildTool)
    requires Ascending(order) && i < |order|
    ensures q in Without(order, i) <==> q in order && q != order[i]
  {
    RestAscending(order, i);
    if q in order && q != order[i] {
      var j :| 0 <= j < |order| && order[j] == q;
      assert Without(order, i)[if j < i then j else j - 1] == q;
    }
  }

  lemma OpenKey(order: seq<PendingChildTool>, k: nat) returns (p: PendingChildTool)
    requires Ascending(order) && k in OpenCalls(order)
    ensures p in order && p.step == k && OpenCalls(order)[k] == p.Fields()
  {
    var i :| 0 <= i < |order| && order[i].step == k;
    p := order[i];
    InOpen(order, p);
  }

  lemma RestOpen(order: seq<PendingChildTool>, i: nat)
    requires Ascending(order) && i < |order|
    ensures Ascending(Without(order, i))
    ensures OpenCalls(Without(order, i)) == OpenCalls(order) - {order[i].step}
  {
    hide Ascending, OpenCalls, Without;
    RestAscending(order, i);
    var rest := Without(order, i);
    var a, b := OpenCalls(rest), OpenCalls(order) - {order[i].step};
    forall k | k in a ensures k in b && b[k] == a[k] {
      var p := OpenKey(rest, k);
      RestMembers(order, i, p);
      InOpen(order, p);
      InOpen(order, order[i]);
    }
    forall k | k in b ensures k in a {
      var p := OpenKey(order, k);
      RestMembers(order, i, p);
      InOpen(rest, p);
    }
    assert a.Keys == b.Keys;
  }
}
