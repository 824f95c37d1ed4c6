/** The rendezvous between a coroutine's goroutine and one sequential caller.  Both
    channels are unbuffered, so a send and its receive are one joint step; reads
    and writes under the coroutine's lock are atomic. */
module CoroutineProtocol {

  datatype CoState = Ready | Running | Suspended | Done

  /** Where the goroutine stands. */
  datatype Body =
    | Starting    // launched, has not set its state yet
    | Computing   // inside the function
    | Sending     // suspended, blocked on sending its value
    | Awaiting    // value taken, blocked on the resume signal
    | Resumed     // signal taken, has not set its state yet
    | Returned    // result stored, channel still open
    | Closed

  /** Where the caller stands. */
  datatype Caller<T> =
    | Idle
    | Signalling       // blocked on sending the resume signal
    | Receiving        // blocked on the yield channel
    | Received(value: T)
    | SawClose

  datatype Result<T> = NoResult | Result(value: T)

  /** `index` counts the yields the function is past; `returned` lists what the
      caller's successful calls returned; `registered` is false once the coroutine
      has been removed from its process. */
  datatype Co<T> = Co(state: CoState, consumed: bool, result: Result<T>, registered: bool,
                      body: Body, index: nat, caller: Caller<T>, returned: seq<T>)

  /** The function run by the coroutine: the values it yields and what it returns. */
  datatype Script<T> = Script(values: seq<T>, final: T) {
    function All(): seq<T> { values + [final] }
  }

  function Spawned<T>(): Co<T> {
    Co(Ready, false, NoResult, true, Starting, 0, Idle, [])
  }

  // --- steps of the goroutine ------------------------------------------------------

  ghost predicate Begin<T>(s: Co<T>, s': Co<T>) {
    s.body == Starting && s' == s.(state := Running, body := Computing)
  }

  ghost predicate Suspend<T>(f: Script<T>, s: Co<T>, s': Co<T>) {
    s.body == Computing && s.index < |f.values| && s' == s.(state := Suspended, body := Sending)
  }

  ghost predicate Return<T>(f: Script<T>, s: Co<T>, s': Co<T>) {
    s.body == Computing && s.index >= |f.values|
    && s' == s.(state := Done, result := Result(f.final), body := Returned)
  }

  ghost predicate Close<T>(s: Co<T>, s': Co<T>) {
    s.body == Returned && s' == s.(body := Closed)
  }

  ghost predicate GoOn<T>(s: Co<T>, s': Co<T>) {
    s.body == Resumed && s' == s.(state := Running, body := Computing, index := s.index + 1)
  }

  // --- steps of the caller ------------------------------------------------------------

  /** Whether a call made now would be let through. */
  predicate Accepts<T>(s: Co<T>) {
    s.registered && s.state == Suspended
  }

  /** A call reads the state once and is rejected, or starts on its exchange. */
  ghost predicate Call<T>(s: Co<T>, s': Co<T>) {
    s.caller == Idle &&
    if Accepts(s) then s' == s.(caller := if s.consumed then Signalling else Receiving)
    else s' == s
  }

  ghost predicate KeepValue<T>(s: Co<T>, s': Co<T>) {
    s.caller.Received?
    && s' == s.(consumed := true, caller := Idle, returned := s.returned + [s.caller.value])
  }

  ghost predicate KeepResult<T>(s: Co<T>, s': Co<T>) {
    s.caller == SawClose && s.result.Result?
    && s' == s.(registered := false, caller := Idle, returned := s.returned + [s.result.value])
  }

  // --- joint steps ------------------------------------------------------------------------

  ghost predicate Signal<T>(s: Co<T>, s': Co<T>) {
    s.caller == Signalling && s.body == Awaiting && s' == s.(caller := Receiving, body := Resumed)
  }

  ghost predicate HandOver<T>(f: Script<T>, s: Co<T>, s': Co<T>) {
    s.caller == Receiving && s.body == Sending && s.index < |f.values|
    && s' == s.(caller := Received(f.values[s.index]), body := Awaiting)
  }

  ghost predicate SeeClose<T>(s: Co<T>, s': Co<T>) {
    s.caller == Receiving && s.body == Closed && s' == s.(caller := SawClose)
  }

  /** Any step other than the start of a call. */
  ghost predicate Inner<T>(f: Script<T>, s: Co<T>, s': Co<T>) {
    || Begin(s, s') || Suspend(f, s, s') || Return(f, s, s') || Close(s, s') || GoOn(s, s')
    || KeepValue(s, s') || KeepResult(s, s')
    || Signal(s, s') || HandOver(f, s, s') || SeeClose(s, s')
  }

  ghost predicate Step<T>(f: Script<T>, s: Co<T>, s': Co<T>) {
    Inner(f, s, s') || Call(s, s')
  }

  // --- the invariant ------------------------------------------------------------------------

  ghost predicate StateMatches<T>(s: Co<T>) {
    match s.body
    case Starting => s.state == Ready
    case Computing => s.state == Running
    case Sending => s.state == Suspended
    case Awaiting => s.state == Suspended
    case Resumed => s.state == Suspended
    case Returned => s.state == Done
    case Closed => s.state == Done
  }

  /** How far the caller is, given where the goroutine is. */
  ghost predicate InStep<T>(f: Script<T>, s: Co<T>) {
    var k := |f.values|;
    var n := |s.returned|;
    match s.caller
    case Idle =>
      (s.body == Awaiting && s.consumed && n == s.index + 1 && s.registered)
      || (!s.consumed && n == 0 && s.index == 0 && s.registered && s.body != Awaiting && s.body != Resumed
          && ((s.body == Returned || s.body == Closed) ==> k == 0))
      || (s.body == Closed && k > 0 && n == k + 1 && !s.registered)
    case Signalling => s.body == Awaiting && s.consumed && n == s.index + 1 && s.registered
    case Receiving =>
      s.registered &&
      if s.consumed then
        match s.body
        case Resumed => n == s.index + 1
        case Computing => n == s.index > 0
        case Sending => n == s.index > 0
        case Returned => n == k > 0
        case Closed => n == k > 0
        case _ => false
      else s.body == Sending && s.index == 0 && n == 0
    case Received(v) => s.registered && s.body == Awaiting && n == s.index < k && v == f.values[s.index]
    case SawClose => s.registered && s.body == Closed && n == k > 0
  }

  ghost predicate Inv<T>(f: Script<T>, s: Co<T>) {
    && StateMatches(s)
    && (s.body == Starting ==> s.index == 0)
    && s.index <= |f.values|
    && (s.body == Sending || s.body == Awaiting || s.body == Resumed ==> s.index < |f.values|)
    && (s.body == Returned || s.body == Closed ==> s.index == |f.values| && s.result == Result(f.final))
    && InStep(f, s)
    && s.returned <= f.All()
  }

  lemma StepKeepsInv<T>(f: Script<T>, s: Co<T>, s': Co<T>)
    requires Inv(f, s) && Step(f, s, s')
    ensures Inv(f, s')
  {
  }

  // --- every interleaving ---------------------------------------------------------------------

  ghost predicate StepAt<T(!new)>(f: Script<T>, run: seq<Co<T>>, i: nat)
    requires i + 1 < |run|
  {
    Step(f, run[i], run[i + 1])
  }

  ghost predicate IsRun<T(!new)>(f: Script<T>, run: seq<Co<T>>) {
    && run != [] && run[0] == Spawned()
    && forall i {:trigger StepAt(f, run, i)} :: 0 <= i < |run| - 1 ==> StepAt(f, run, i)
  }

  lemma SpawnedInv<T>(f: Script<T>)
    ensures Inv(f, Spawned())
  {
  }

  lemma {:induction false} RunKeepsInv<T(!new)>(f: Script<T>, run: seq<Co<T>>, i: nat)
    requires IsRun(f, run) && i < |run|
    ensures Inv(f, run[i])
  {
    hide Inv, Step;
    if i == 0 {
      SpawnedInv(f);
    } else {
      RunKeepsInv(f, run, i - 1);
      assert StepAt(f, run, i - 1);
      StepKeepsInv(f, run[i - 1], run[i]);
    }
  }

  /** What successful calls return, in order, is what the function yields and then
      what it returns, and the coroutine is removed exactly when all of it has been
      returned. */
  lemma CallsReturnTheScript<T(!new)>(f: Script<T>, run: seq<Co<T>>, i: nat)
    requires IsRun(f, run) && i < |run|
    ensures run[i].returned <= f.All()
    ensures f.values != [] ==> (!run[i].registered <==> run[i].returned == f.All())
  {
    RunKeepsInv(f, run, i);
    var s := run[i];
    if |s.returned| == |f.All()| {
      assert s.returned == f.All()[..|s.returned|];
    }
  }

  /** From the first value to the result, no call is rejected. */
  lemma NoRejectionOnceStarted<T(!new)>(f: Script<T>, run: seq<Co<T>>, i: nat)
    requires IsRun(f, run) && i < |run|
    requires run[i].caller == Idle && run[i].returned != [] && run[i].registered
    ensures Accepts(run[i])
  {
    RunKeepsInv(f, run, i);
  }

  /** A rejected call changes nothing, and a call is rejected only before the first
      value or after the result. */
  lemma RejectionIsHarmless<T(!new)>(f: Script<T>, run: seq<Co<T>>, i: nat, s': Co<T>)
    requires IsRun(f, run) && i < |run| && Call(run[i], s') && !Accepts(run[i])
    ensures s' == run[i]
    ensures run[i].returned == [] || run[i].returned == f.All()
  {
    RunKeepsInv(f, run, i);
    if run[i].returned != [] {
      if run[i].registered { NoRejectionOnceStarted(f, run, i); }
      var s := run[i];
      assert s.returned == f.All()[..|s.returned|];
    }
  }

  /** Never are both sides blocked: a call in progress, or a goroutine that still
      has something to do, can always move; and a goroutine that waits for the
      caller will have its call accepted. */
  lemma NoDeadlock<T(!new)>(f: Script<T>, run: seq<Co<T>>, i: nat)
    requires IsRun(f, run) && i < |run|
    ensures var s := run[i];
            || (exists s' :: Inner(f, s, s'))
            || (s.caller == Idle && Accepts(s) && (s.body == Sending || s.body == Awaiting))
            || (s.caller == Idle && s.body == Closed && (s.returned == f.All() || f.values == []))
  {
    RunKeepsInv(f, run, i);
    var s := run[i];
    match s.body {
      case Starting => Moves(f, s, s.(state := Running, body := Computing));
      case Computing =>
        if s.index < |f.values| {
          Moves(f, s, s.(state := Suspended, body := Sending));
        } else {
          Moves(f, s, s.(state := Done, result := Result(f.final), body := Returned));
        }
      case Returned => Moves(f, s, s.(body := Closed));
      case Resumed => Moves(f, s, s.(state := Running, body := Computing, index := s.index + 1));
      case Sending =>
        if s.caller == Receiving {
          Moves(f, s, s.(caller := Received(f.values[s.index]), body := Awaiting));
        }
      case Awaiting =>
        if s.caller == Signalling {
          Moves(f, s, s.(caller := Receiving, body := Resumed));
        } else if s.caller.Received? {
          Moves(f, s, s.(consumed := true, caller := Idle, returned := s.returned + [s.caller.value]));
        }
      case Closed =>
        if s.caller == Receiving {
          Moves(f, s, s.(caller := SawClose));
        } else if s.caller == SawClose {
          Moves(f, s, s.(registered := false, caller := Idle, returned := s.returned + [s.result.value]));
        } else {
          CallsReturnTheScript(f, run, i);
        }
    }
  }

  lemma Moves<T(!new)>(f: Script<T>, s: Co<T>, s': Co<T>)
    requires Inner(f, s, s')
    ensures exists t :: Inner(f, s, t)
  {
  }

  // --- every accepted call returns --------------------------------------------------------------

  function BodyRank<T>(f: Script<T>, s: Co<T>): int {
    var left := 4 * (|f.values| - s.index);
    match s.body
    case Starting => left + 3
    case Computing => left + 2
    case Sending => left + 1
    case Awaiting => left
    case Resumed => left - 1
    case Returned => 1
    case Closed => 0
  }

  function CallerRank<T>(s: Co<T>): nat {
    match s.caller
    case Idle => 0
    case Signalling => 3
    case Receiving => 2
    case Received(_) => 1
    case SawClose => 1
  }

  /** The steps that are left before the next call, at most. */
  function Rank<T>(f: Script<T>, s: Co<T>): int {
    BodyRank(f, s) + CallerRank(s)
  }

  lemma InnerStepsRunOut<T>(f: Script<T>, s: Co<T>, s': Co<T>)
    requires Inv(f, s) && Inner(f, s, s')
    ensures 0 <= Rank(f, s') < Rank(f, s)
  {
    StepKeepsInv(f, s, s');
  }

  /** A function that never yields has its result thrown away: no call is ever
      accepted. */
  lemma ResultNeedsAYield<T(!new)>(f: Script<T>, run: seq<Co<T>>, i: nat)
    requires IsRun(f, run) && i < |run|
    requires f.values == []
    ensures run[i].returned == [] && !Accepts(run[i])
  {
    RunKeepsInv(f, run, i);
  }
}
