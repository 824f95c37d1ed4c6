/** Whole runs of the observing server against processes that start, write, die, are
    resumed, and have their indexes rebuilt: when the steps served are those of the
    log. */
module StepCacheRuns {
  import opened StepLog
  import opened Listing
  import opened StepIndex
  import opened StepCache

  /** A process's files, whether it is in the process table and has a step writer,
      and how many index rebuilds are under way.  `missing` is history: how many
      records the log held that its index was never given. */
  datatype Process = Process(files: Files, alive: bool, attached: bool, rebuilds: nat, missing: nat)

  type World = map<Path, Process>

  datatype Event =
    | Enter(p: Path)
    | Attach(p: Path)
    | Write(p: Path, line: string, entry: StepEntry)
    | Die(p: Path)
    | FinishRebuild(p: Path)
    | SkipRebuild(p: Path)
    | Request(p: Path)

  predicate Begun(files: Files) {
    files.idx.Some? && files.idx.value != ""
  }

  /** Opening the step writer, for a new process or a resumed one: missing files are
      created, and an empty index gets a header with the size of the log as it is,
      whatever that log holds. */
  function Opened(x: Process, codec: Codec): Process {
    var log := if x.files.jsonl.Some? then x.files.jsonl.value else "";
    if Begun(x.files) then x.(files := x.files.(jsonl := Some(log)), attached := true)
    else x.(files := Files(Some(log), Some(Fresh(log, codec))), attached := true, missing := FileView(log, codec.full).total)
  }

  /** A record is appended to the log, and its summary to the index. */
  function Written(x: Process, line: string, e: StepEntry, codec: Codec): Process
    requires x.files.jsonl.Some? && x.files.idx.Some?
  {
    x.(files := Files(Some(x.files.jsonl.value + (line + ['\n'])),
                      Some(x.files.idx.value + (codec.render(e) + ['\n']))))
  }

  /** What may happen next.  A rebuild that was started may also be skipped, because
      others are running, or fail, and leave the index alone.  A process comes back
      only when no rebuild of its index is still to happen. */
  predicate Possible(w: World, e: Event, codec: Codec) {
    e.p in w && var x := w[e.p];
    match e
    case Enter(p) => !x.alive && x.rebuilds == 0
    case Attach(p) => x.alive && !x.attached
    case Write(p, line, entry) =>
      && x.attached && x.files.jsonl.Some? && x.files.idx.Some?
      && OneLine(line) && codec.full(line + ['\n']) == Some(entry)
    case Die(p) => true
    case FinishRebuild(p) => x.rebuilds > 0 && x.files.jsonl.Some?
    case SkipRebuild(p) => x.rebuilds > 0
    case Request(p) => true
  }

  ghost function After(x: Process, e: Event, scanned: bool, codec: Codec): Process
    requires e.Write? || e.FinishRebuild? ==> x.files.jsonl.Some?
    requires e.Write? ==> x.files.idx.Some?
    requires e.FinishRebuild? || e.SkipRebuild? ==> x.rebuilds > 0
  {
    match e
    case Enter(p) => x.(alive := true)
    case Attach(p) => Opened(x, codec)
    case Write(p, line, entry) => Written(x, line, entry, codec)
    case Die(p) => x.(alive := false, attached := false)
    case FinishRebuild(p) =>
      x.(rebuilds := x.rebuilds - 1, files := x.files.(idx := Some(Rebuilt(x.files.jsonl.value, codec))), missing := 0)
    case SkipRebuild(p) => x.(rebuilds := x.rebuilds - 1)
    case Request(p) => if scanned && !x.alive then x.(rebuilds := x.rebuilds + 1) else x
  }

  /** What an event does to the files. */
  ghost predicate Happens(w: World, e: Event, w': World, scanned: bool, codec: Codec) {
    Possible(w, e, codec) && w' == w[e.p := After(w[e.p], e, scanned, codec)]
  }

  // --- what an answer should be ----------------------------------------------------------

  /** The answer holds the last record of every step in the log, in the order in which
      the steps were first recorded and with durations to the microsecond, and the
      number of records. */
  ghost predicate Agrees(jsonl: string, a: Answer, codec: Codec) {
    && a.Served? && Lists(Lines(jsonl), Rounded(a.entries), codec.full)
    && a.total == |Readable(Lines(jsonl), codec.full)|
  }

  /** Whether a request is answered from the index: if that is followed already, or
      may stand for the log. */
  predicate Indexed(x: Process, followed: bool, codec: Codec) {
    followed || IdxUsable(x.files, x.alive, codec)
  }

  /** What a request is answered with, given whether the index was followed before. */
  ghost predicate Exact(x: Process, a: Answer, followed: bool, codec: Codec) {
    var indexed := Indexed(x, followed, codec);
    && (a.Missed? <==> x.files.jsonl.None?)
    && (a.Served? ==>
          && (Agrees(x.files.jsonl.value, a, codec) <==> !indexed || x.missing == 0)
          && a.parseErrors == if indexed then 0 else |Malformed(Lines(x.files.jsonl.value), codec.full)|)
    && (indexed ==> Begun(x.files))
    && (Begun(x.files) && x.alive ==> indexed)
  }

  ghost predicate ShowsIndex(idx: string, a: Answer, codec: Codec) {
    WellFormed(IdxView(idx, codec)) && Shows(a, IdxView(idx, codec))
  }

  /** `a` shows a view that is the log's up to fractions of a microsecond in the
      durations. */
  ghost predicate ShowsLog(jsonl: string, v: View, a: Answer, codec: Codec) {
    WellFormed(v) && Shows(a, v) && Coarse(v) == FileView(jsonl, codec.full)
  }

  ghost predicate FromFiles(files: Files, a: Answer, indexed: bool, codec: Codec) {
    if a.Missed? then files.jsonl.None? && !indexed
    else if indexed then files.idx.Some? && files.idx.value != "" && ShowsIndex(files.idx.value, a, codec)
    else files.jsonl.Some? && exists v :: ShowsLog(files.jsonl.value, v, a, codec)
  }

  lemma ShownAgree(w: View, a: Answer, jsonl: string, codec: Codec)
    requires WellFormed(w) && Shows(a, w)
    ensures SameRecords(w, FileView(jsonl, codec.full)) ==> Agrees(jsonl, a, codec)
    ensures w.total != FileView(jsonl, codec.full).total ==> !Agrees(jsonl, a, codec)
    ensures FileView(jsonl, codec.full).parseErrors == |Malformed(Lines(jsonl), codec.full)|
  {
    hide Lists, Readable, Malformed, Fold, Lines, Rounded;
    var v := FileView(jsonl, codec.full);
    FileTells(Lines(jsonl), codec.full);
    RoundedEntries(w);
    if SameRecords(w, v) { assert Entries(Coarse(w)) == Entries(v); }
  }

  lemma IndexShown(x: Process, a: Answer, codec: Codec)
    requires Begun(x.files) && x.files.jsonl.Some? && ShowsIndex(x.files.idx.value, a, codec)
    requires Mirrors(x.files.jsonl.value, x.files.idx.value, x.missing, codec)
    ensures a.Served? && a.parseErrors == 0
    ensures Agrees(x.files.jsonl.value, a, codec) <==> x.missing == 0
  {
    hide WellFormed, FileView, IdxView, Agrees;
    ShownAgree(IdxView(x.files.idx.value, codec), a, x.files.jsonl.value, codec);
  }

  lemma LogShown(jsonl: string, v: View, a: Answer, codec: Codec)
    requires ShowsLog(jsonl, v, a, codec)
    ensures Agrees(jsonl, a, codec) && a.parseErrors == |Malformed(Lines(jsonl), codec.full)|
  {
    hide FileView, Agrees, Lines;
    ShownAgree(v, a, jsonl, codec);
  }

  lemma ExactlyAnswered(x: Process, followed: bool, a: Answer, codec: Codec)
    requires ProcessInv(x, followed, codec) && FromFiles(x.files, a, Indexed(x, followed, codec), codec)
    ensures Exact(x, a, followed, codec)
  {
    hide Agrees, ShowsIndex, ShowsLog, Mirrors, FileView, Whole, Usable, Malformed;
    var indexed := Indexed(x, followed, codec);
    if a.Served? && indexed { IndexShown(x, a, codec); }
    if a.Served? && !indexed {
      var v :| ShowsLog(x.files.jsonl.value, v, a, codec);
      LogShown(x.files.jsonl.value, v, a, codec);
    }
  }

  // --- the invariant ---------------------------------------------------------------------

  /** Both files of a process hold whole lines, and an index that has begun stands for
      all records of its log but the missing ones; while rebuilds are under way the
      index is either done already or neither usable nor followed. */
  ghost predicate ProcessInv(x: Process, followed: bool, codec: Codec) {
    && Whole(x.files)
    && (x.alive ==> x.rebuilds == 0)
    && (x.attached ==> x.alive && Begun(x.files))
    && (Begun(x.files) ==>
          && x.files.jsonl.Some? && IdxUsable(x.files, true, codec)
          && Mirrors(x.files.jsonl.value, x.files.idx.value, x.missing, codec))
    && (x.rebuilds > 0 ==>
          && x.files.jsonl.Some?
          && (x.files.idx == Some(Rebuilt(x.files.jsonl.value, codec))
              || (!followed && !IdxUsable(x.files, false, codec))))
  }

  /** What was read is still there. */
  ghost predicate Current(cs: CacheState, files: Files)
    reads cs`idxSize, cs`seen
  {
    if cs.idxSize >= 0 then files.idx.Some? && cs.seen <= files.idx.value && Grown(cs.seen, files.idx.value)
    else files.jsonl.Some? && cs.seen <= files.jsonl.value && Grown(cs.seen, files.jsonl.value)
  }

  ghost predicate WorldInv(s: Server, w: World)
    reads s, s.idxCache.Values
  {
    && s.Inv()
    && (forall p :: p in w ==> ProcessInv(w[p], s.InIdxMode(p), s.codec))
    && (forall p :: p in s.idxCache ==> p in w && Current(s.idxCache[p], w[p].files))
  }

  lemma GrownMore(before: string, now: string, more: string)
    requires before <= now && Grown(before, now) && Aligned(more) && NoBlank(Lines(more))
    ensures before <= now + more && Grown(before, now + more)
  {
    hide Lines, NoBlank, Aligned;
    var k := |before|;
    assert (now + more)[k..] == now[k..] + more;
    TailAligned(now, k);
    LinesAppend(now[k..], more);
    NoBlankConcat(Lines(now[k..]), Lines(more));
    AlignedConcat(now, more);
    PrefixConcat(before, now, more);
  }

  lemma NoBlankConcat(a: seq<string>, b: seq<string>)
    requires NoBlank(a) && NoBlank(b)
    ensures NoBlank(a + b)
  {
  }

  lemma AlignedConcat(a: string, b: string)
    requires Aligned(a) && Aligned(b)
    ensures Aligned(a + b)
  {
  }

  lemma PrefixConcat<T>(a: seq<T>, b: seq<T>, c: seq<T>)
    requires a <= b
    ensures a <= b + c
  {
  }

  lemma TailAligned(s: string, k: nat)
    requires Aligned(s) && k <= |s|
    ensures Aligned(s[k..])
  {
  }

  lemma NothingNew(s: string)
    requires Aligned(s)
    ensures Grown(s, s)
  {
  }

  // --- one event that is not a request ------------------------------------------------

  lemma EventKeepsInv(s: Server, w: World, e: Event, w': World)
    requires WorldInv(s, w) && !e.Request? && s.codec.Sound()
    requires Happens(w, e, w', false, s.codec)
    ensures WorldInv(s, w')
  {
    hide Server.Inv, Current, ProcessInv, Codec.Sound, After, Possible;
    PossibleIsKnown(w, e, s.codec);
    var p, x := e.p, w[e.p];
    assert ProcessInv(x, s.InIdxMode(p), s.codec);
    EventKeepsProcess(x, s.InIdxMode(p), e, s.codec, w);
    if p in s.idxCache {
      var cs := s.idxCache[p];
      assert Current(cs, x.files);
      EventKeepsCurrent(s, cs, w, e);
    }
    forall q | q in s.idxCache ensures q in w' && Current(s.idxCache[q], w'[q].files) {
      if q != p { assert w'[q] == w[q]; }
    }
    forall q | q in w' ensures ProcessInv(w'[q], s.InIdxMode(q), s.codec) {
      if q != p { assert w'[q] == w[q]; }
    }
  }

  /** A line as a writer appends it. */
  lemma WrittenLine(s: string)
    requires OneLine(s)
    ensures Aligned(s + ['\n']) && NoBlank(Lines(s + ['\n']))
  {
    LinesOfOneMore(s, []);
    assert s + ['\n'] + [] == s + ['\n'];
    assert Lines(s + ['\n']) == [s + ['\n']];
  }

  lemma UsableAppend(jsonl: string, idx: string, more: string, more2: string, codec: Codec)
    requires Usable(idx, |jsonl|, true, codec) && Aligned(idx)
    ensures Usable(idx + more2, |jsonl + more|, true, codec)
  {
    LinesAppend(idx, more2);
    BodyAppend(Lines(idx), Lines(more2));
  }

  lemma WriteKeepsProcess(x: Process, followed: bool, line: string, e: StepEntry, codec: Codec)
    requires ProcessInv(x, followed, codec) && codec.Sound() && x.attached
    requires OneLine(line) && codec.full(line + ['\n']) == Some(e)
    ensures x.files.jsonl.Some? && x.files.idx.Some? && ProcessInv(Written(x, line, e, codec), followed, codec)
  {
    hide Mirrors, Usable, Rebuilt;
    var log, idx := x.files.jsonl.value, x.files.idx.value;
    UsableAppend(log, idx, line + ['\n'], codec.render(e) + ['\n'], codec);
    MirrorKept(log, idx, line, e, x.missing, codec);
  }

  lemma OpeningKeepsProcess(x: Process, followed: bool, codec: Codec)
    requires ProcessInv(x, followed, codec) && codec.Sound() && x.alive
    ensures ProcessInv(Opened(x, codec), followed, codec)
  {
    hide Mirrors, Usable, Rebuilt, FileView, Codec.Sound;
    if !Begun(x.files) {
      var log := if x.files.jsonl.Some? then x.files.jsonl.value else "";
      hide NoBlank, IdxView;
      FreshShowsNothing(log, true, codec);
    }
  }

  lemma RebuildKeepsProcess(x: Process, followed: bool, codec: Codec)
    requires ProcessInv(x, followed, codec) && codec.Sound() && x.rebuilds > 0 && x.files.jsonl.Some?
    ensures ProcessInv(After(x, FinishRebuild(Path("")), false, codec), followed, codec)
  {
    hide Mirrors, Usable, FileView, IdxView, Codec.Sound;
    var log := x.files.jsonl.value;
    RebuiltIsFaithful(log, true, codec);
    RebuiltMirrors(log, codec);
    IndexOfAligned(Lines(log), codec);
  }

  lemma EventKeepsProcess(x: Process, followed: bool, e: Event, codec: Codec, w: World)
    requires e.p in w && w[e.p] == x && Possible(w, e, codec) && !e.Request? && codec.Sound()
    requires ProcessInv(x, followed, codec)
    ensures ProcessInv(After(x, e, false, codec), followed, codec)
  {
    hide Mirrors, Usable, FileView, IdxView, Codec.Sound, Rebuilt, Opened, Written;
    match e
    case Attach(p) => OpeningKeepsProcess(x, followed, codec);
    case Write(p, line, entry) => WriteKeepsProcess(x, followed, line, entry, codec);
    case FinishRebuild(p) => RebuildKeepsProcess(x, followed, codec);
    case _ =>
  }

  lemma EventKeepsCurrent(s: Server, cs: CacheState, w: World, e: Event)
    requires e.p in w && e.p in s.idxCache && cs == s.idxCache[e.p] && Current(cs, w[e.p].files)
    requires ProcessInv(w[e.p], s.InIdxMode(e.p), s.codec) && s.codec.Sound()
    requires !e.Request? && Possible(w, e, s.codec)
    ensures Current(cs, After(w[e.p], e, false, s.codec).files)
  {
    hide Grown, Aligned, NoBlank, IdxUsable, Whole, Rebuilt, Mirrors, Codec.Sound;
    var x := w[e.p];
    match e
    case Attach(p) =>
      if !Begun(x.files) && cs.idxSize >= 0 { BeganFrom(cs.seen, x, s.codec); }
    case Write(p, line, entry) =>
      RenderedLine(entry, s.codec);
      WrittenLine(line);
      WrittenLine(s.codec.render(entry));
      if cs.idxSize >= 0 {
        GrownMore(cs.seen, x.files.idx.value, s.codec.render(entry) + ['\n']);
      } else {
        GrownMore(cs.seen, x.files.jsonl.value, line + ['\n']);
      }
    case _ =>
  }

  lemma RenderedLine(e: StepEntry, codec: Codec)
    requires codec.Sound()
    ensures OneLine(codec.render(e))
  {
  }

  lemma BeganFrom(seen: string, x: Process, codec: Codec)
    requires codec.Sound() && !Begun(x.files) && x.files.idx.Some? && seen <= x.files.idx.value
    ensures var idx := Opened(x, codec).files.idx.value; seen <= idx && Grown(seen, idx)
  {
    hide Codec.Sound, Lines, FileView;
    var log := if x.files.jsonl.Some? then x.files.jsonl.value else "";
    FreshShowsNothing(log, true, codec);
    assert Fresh(log, codec)[0..] == Fresh(log, codec);
  }

  // --- a request ----------------------------------------------------------------------

  lemma ServesFromFiles(s: Server, p: Path, files: Files, a: Answer)
    requires s.Inv() && s.Serves(p, files, a)
    ensures FromFiles(files, a, s.InIdxMode(p), s.codec)
  {
    hide Stamped;
    var cs := s.idxCache[p];
    assert s.Entry(p);
    if cs.idxSize >= 0 {
      assert ShowsIndex(files.idx.value, a, s.codec);
    } else {
      assert ShowsLog(files.jsonl.value, cs.View(), a, s.codec);
    }
  }

  lemma ServedIsCurrent(s: Server, p: Path, files: Files, a: Answer)
    requires s.Inv() && s.Serves(p, files, a)
    ensures Current(s.idxCache[p], files)
  {
    hide Stamped;
    assert s.Entry(p);
    NothingNew(s.idxCache[p].seen);
  }

  /** The server's part of a request: an answer out of the files, and an entry that is
      current. */
  method Asked(s: Server, p: Path, files: Files, alive: bool) returns (a: Answer, scanned: bool, indexed: bool)
    requires s.Inv() && s.codec.Sound() && Whole(files) && (p in s.idxCache ==> s.idxCache[p].OnlyGrew(files))
    modifies s, if p in s.idxCache then {s.idxCache[p]} else {}
    ensures indexed == s.InIdxMode(p)
    ensures s.Inv() && s.OthersFrom(old(s.idxCache), p) && FromFiles(files, a, indexed, s.codec)
    ensures p in s.idxCache ==> Current(s.idxCache[p], files)
    ensures scanned ==> !s.InIdxMode(p) && files.jsonl.Some? && !IdxUsable(files, alive, s.codec)
    ensures s.InIdxMode(p) ==> old(s.InIdxMode(p)) || IdxUsable(files, alive, s.codec)
    ensures IdxUsable(files, alive, s.codec) || old(s.Follows(p, files)) ==> s.InIdxMode(p)
    ensures forall q :: q in s.idxCache ==>
              (q in old(s.idxCache) && s.idxCache[q] == old(s.idxCache[q])) || fresh(s.idxCache[q])
  {
    hide Server.Inv, IdxUsable, Whole, Codec.Sound, Server.Serves, Current, ShowsIndex, ShowsLog, CacheState.OnlyGrew;
    a, scanned := s.ListSteps(p, files, alive);
    indexed := p in s.idxCache && s.idxCache[p].idxSize >= 0;
    if !a.Missed? {
      ServesFromFiles(s, p, files, a);
      ServedIsCurrent(s, p, files, a);
    }
  }

  /** One request, seen from the world. */
  method Answered(s: Server, p: Path, w: World) returns (a: Answer, scanned: bool, followed: bool, w': World)
    requires WorldInv(s, w) && s.codec.Sound() && p in w
    modifies s, if p in s.idxCache then {s.idxCache[p]} else {}
    ensures WorldInv(s, w') && Happens(w, Request(p), w', scanned, s.codec)
    ensures followed == old(s.InIdxMode(p)) && s.InIdxMode(p) == Indexed(w[p], followed, s.codec)
    ensures Exact(w[p], a, followed, s.codec)
    ensures forall q :: q in s.idxCache ==>
              (q in old(s.idxCache) && s.idxCache[q] == old(s.idxCache[q])) || fresh(s.idxCache[q])
  {
    hide Server.Inv, IdxUsable, Whole, Codec.Sound, Current, Exact, FromFiles, ProcessInv, Server.OthersFrom,
         CacheState.OnlyGrew, Server.InIdxMode, Server.Follows, Happens, WorldInv, Rest;
    ghost var before, modes := s.idxCache, map q | q in w :: s.InIdxMode(q);
    RequestReady(s, p, w);
    RestBefore(s, p, w, modes);
    followed := p in s.idxCache && s.idxCache[p].idxSize >= 0;
    var indexed;
    a, scanned, indexed := Asked(s, p, w[p].files, w[p].alive);
    w' := if scanned && !w[p].alive then w[p := w[p].(rebuilds := w[p].rebuilds + 1)] else w;
    ProcessAfterRequest(w[p], modes[p], indexed, scanned, s.codec);
    ExactlyAnswered(w[p], followed, a, s.codec);
    RequestHappens(w, p, w', scanned, s.codec);
    Reassembled(s, w, w', p, before, modes);
  }

  /** All but `p` as it was before the request. */
  ghost predicate Rest(w: World, p: Path, before: map<Path, CacheState>, modes: map<Path, bool>, codec: Codec)
    reads set q | q in before && q != p :: before[q]
  {
    && modes.Keys == w.Keys
    && (forall q :: q in w && q != p ==> ProcessInv(w[q], modes[q], codec))
    && (forall q :: q in before && q != p ==> q in w && Current(before[q], w[q].files))
    && (forall q :: q in before && q in w && q != p && before[q].idxSize >= 0 ==> modes[q])
  }

  lemma RestBefore(s: Server, p: Path, w: World, modes: map<Path, bool>)
    requires WorldInv(s, w) && modes == map q | q in w :: s.InIdxMode(q)
    ensures Rest(w, p, s.idxCache, modes, s.codec)
    ensures p in w ==> ProcessInv(w[p], modes[p], s.codec)
  {
    hide Server.Inv, Current, ProcessInv;
  }

  lemma RequestHappens(w: World, p: Path, w': World, scanned: bool, codec: Codec)
    requires p in w && w' == if scanned && !w[p].alive then w[p := w[p].(rebuilds := w[p].rebuilds + 1)] else w
    ensures Happens(w, Request(p), w', scanned, codec)
  {
    assert w == w[p := w[p]];
  }

  /** The request changed one entry and one process; the invariant holds of all. */
  lemma Reassembled(s: Server, w: World, w': World, p: Path, before: map<Path, CacheState>, modes: map<Path, bool>)
    requires s.Inv() && p in w && w'.Keys == w.Keys
    requires Rest(w, p, before, modes, s.codec) && s.OthersFrom(before, p)
    requires forall q :: q in w && q != p ==> w'[q] == w[q]
    requires ProcessInv(w'[p], s.InIdxMode(p), s.codec)
    requires p in s.idxCache ==> Current(s.idxCache[p], w'[p].files)
    ensures WorldInv(s, w')
  {
    hide Server.Inv, Current, ProcessInv;
    forall q | q in w' ensures ProcessInv(w'[q], s.InIdxMode(q), s.codec) {
      if q != p { Unfollowed(w[q], modes[q], s.InIdxMode(q), s.codec); }
    }
  }

  lemma Unfollowed(x: Process, followed: bool, followed': bool, codec: Codec)
    requires ProcessInv(x, followed, codec) && (followed' ==> followed)
    ensures ProcessInv(x, followed', codec)
  {
    hide IdxUsable, Whole;
  }

  lemma RequestReady(s: Server, p: Path, w: World)
    requires WorldInv(s, w) && p in w
    ensures s.Inv() && Whole(w[p].files) && (p in s.idxCache ==> s.idxCache[p].OnlyGrew(w[p].files))
    ensures forall q :: q in s.idxCache && q != p && p in s.idxCache ==> s.idxCache[q] != s.idxCache[p]
    ensures s.InIdxMode(p) <==> s.Follows(p, w[p].files)
    ensures s.InIdxMode(p) <==> p in s.idxCache && s.idxCache[p].idxSize >= 0
  {
    hide Grown, IdxUsable, Whole;
    if p in s.idxCache { assert s.Entry(p) && Current(s.idxCache[p], w[p].files); }
    hide Server.Entry;
    assert ProcessInv(w[p], s.InIdxMode(p), s.codec);
    if p in s.idxCache { CurrentGrew(s.idxCache[p], w[p].files); }
  }

  lemma ProcessAfterRequest(x: Process, followed: bool, followed': bool, scanned: bool, codec: Codec)
    requires ProcessInv(x, followed, codec)
    requires scanned ==> !followed' && x.files.jsonl.Some? && !IdxUsable(x.files, x.alive, codec)
    requires followed' ==> followed || IdxUsable(x.files, x.alive, codec)
    ensures ProcessInv(if scanned && !x.alive then x.(rebuilds := x.rebuilds + 1) else x, followed', codec)
  {
    hide IdxUsable, Whole, Mirrors;
  }

  lemma CurrentGrew(cs: CacheState, files: Files)
    requires Current(cs, files)
    ensures cs.OnlyGrew(files)
  {
  }

  // --- runs -----------------------------------------------------------------------------

  method Apply(w: World, e: Event, codec: Codec) returns (w': World)
    requires Possible(w, e, codec) && !e.Request?
    ensures Happens(w, e, w', false, codec)
  {
    var x := w[e.p];
    match e
    case Enter(p) =>
      w' := w[p := x.(alive := true)];
    case Attach(p) =>
      w' := w[p := Opened(x, codec)];
    case Write(p, line, entry) =>
      w' := w[p := Written(x, line, entry, codec)];
    case Die(p) =>
      w' := w[p := x.(alive := false, attached := false)];
    case FinishRebuild(p) =>
      var rebuilt := RebuildIdx(x.files.jsonl.value, codec);
      w' := w[p := x.(rebuilds := x.rebuilds - 1, files := x.files.(idx := Some(rebuilt)), missing := 0)];
    case SkipRebuild(p) =>
      w' := w[p := x.(rebuilds := x.rebuilds - 1)];
  }

  /** A point of a run: the world as it was, the event, and, if that was a request,
      the answer, whether the log was read in full for it, and whether the index was
      followed before. */
  datatype Moment = Moment(world: World, event: Event, answer: Answer, scanned: bool, followed: bool)

  ghost predicate MomentAt(run: seq<Moment>, last: World, codec: Codec, k: nat)
    requires k < |run|
  {
    Happens(run[k].world, run[k].event, if k + 1 < |run| then run[k + 1].world else last, run[k].scanned, codec)
  }

  /** Every point of the run follows from the one before. */
  ghost predicate Connected(run: seq<Moment>, last: World, codec: Codec) {
    forall k {:trigger MomentAt(run, last, codec, k)} :: 0 <= k < |run| ==> MomentAt(run, last, codec, k)
  }

  ghost predicate AllExact(run: seq<Moment>, codec: Codec) {
    forall k :: 0 <= k < |run| && run[k].event.Request? ==> ExactAt(run[k], codec)
  }

  ghost predicate ExactAt(m: Moment, codec: Codec) {
    m.event.p in m.world && Exact(m.world[m.event.p], m.answer, m.followed, codec)
  }

  lemma ConnectedMore(run: seq<Moment>, last: World, codec: Codec, m: Moment, next: World)
    requires Connected(run, last, codec) && m.world == last && Happens(m.world, m.event, next, m.scanned, codec)
    ensures Connected(run + [m], next, codec)
  {
    hide Happens;
    var more := run + [m];
    forall k | 0 <= k < |more| ensures MomentAt(more, next, codec, k) {
      if k < |run| { assert MomentAt(run, last, codec, k); }
    }
  }

  /** Serves `n` events chosen by an environment that sees everything so far.  An
      event that cannot happen is passed over.  Every answer agrees with the log
      exactly if it was not given from the index, or the index misses no record. */
  method Serve(s: Server, world: World, choose: seq<Moment> -> Event, n: nat) returns (run: seq<Moment>, last: World)
    requires WorldInv(s, world) && s.codec.Sound()
    modifies s, s.idxCache.Values
    ensures Connected(run, last, s.codec) && WorldInv(s, last)
    ensures if run == [] then last == world else run[0].world == world
    ensures AllExact(run, s.codec)
  {
    hide WorldInv, Codec.Sound, Happens, Possible, Exact, MomentAt, ExactAt;
    run, last := [], world;
    for i := 0 to n
      invariant Connected(run, last, s.codec) && WorldInv(s, last) && AllExact(run, s.codec)
      invariant if run == [] then last == world else run[0].world == world
      invariant forall q :: q in s.idxCache ==> s.idxCache[q] in old(s.idxCache.Values) || fresh(s.idxCache[q])
    {
      var e := choose(run);
      if Possible(last, e, s.codec) {
        assert e.p in last by { PossibleIsKnown(last, e, s.codec); }
        var a, scanned, followed, next := Missed, false, false, last;
        if e.Request? {
          a, scanned, followed, next := Answered(s, e.p, last);
        } else {
          next := Apply(last, e, s.codec);
          EventKeepsInv(s, last, e, next);
        }
        var m := Moment(last, e, a, scanned, followed);
        ConnectedMore(run, last, s.codec, m, next);
        assert e.Request? ==> ExactAt(m, s.codec) by { if e.Request? { IsExact(m, s.codec); } }
        run, last := run + [m], next;
      }
    }
  }

  lemma PossibleIsKnown(w: World, e: Event, codec: Codec)
    requires Possible(w, e, codec)
    ensures e.p in w
  {
  }

  lemma IsExact(m: Moment, codec: Codec)
    requires m.event.p in m.world && Exact(m.world[m.event.p], m.answer, m.followed, codec)
    ensures ExactAt(m, codec)
  {
  }

  // --- when every answer agrees -------------------------------------------------------------

  /** The event begins an index beside a log that holds records already. */
  ghost predicate BeginsLate(w: World, e: Event, codec: Codec) {
    && e.Attach? && Possible(w, e, codec)
    && var files := w[e.p].files;
       !Begun(files) && files.jsonl.Some? && FileView(files.jsonl.value, codec.full).total > 0
  }

  ghost predicate NothingMissing(w: World) {
    forall p :: p in w ==> w[p].missing == 0
  }

  /** The index `p` has at point `k` was begun late and has not been rebuilt since. */
  ghost predicate LateAt(run: seq<Moment>, codec: Codec, k: nat, p: Path)
    requires k <= |run|
  {
    exists j :: 0 <= j < k && run[j].event == Attach(p) && BeginsLate(run[j].world, run[j].event, codec)
                && NotRebuilt(run, j + 1, k, p)
  }

  ghost predicate NotRebuilt(run: seq<Moment>, from: nat, to: nat, p: Path)
    requires to <= |run|
  {
    forall i :: from <= i < to ==> run[i].event != FinishRebuild(p)
  }

  ghost function WorldAt(run: seq<Moment>, last: World, k: nat): World
    requires k <= |run|
  {
    if k < |run| then run[k].world else last
  }

  /** What one event does to what is missing from the index of `p`. */
  lemma MissingAfter(w: World, e: Event, w': World, scanned: bool, codec: Codec, p: Path)
    requires Happens(w, e, w', scanned, codec) && p in w && (w[p].missing > 0 ==> Begun(w[p].files))
    ensures p in w' && (w'[p].missing > 0 ==> Begun(w'[p].files))
    ensures w'[p].missing > 0 <==>
              (e == Attach(p) && BeginsLate(w, e, codec)) || (w[p].missing > 0 && e != FinishRebuild(p))
  {
    NoLines(NOTHING, codec.full);
    hide Fold, Lines;
  }

  lemma LateMore(run: seq<Moment>, codec: Codec, k: nat, p: Path)
    requires k < |run|
    ensures LateAt(run, codec, k + 1, p) <==>
              (run[k].event == Attach(p) && BeginsLate(run[k].world, run[k].event, codec))
              || (LateAt(run, codec, k, p) && run[k].event != FinishRebuild(p))
  {
    hide BeginsLate;
    if LateAt(run, codec, k + 1, p) {
      var j :| 0 <= j < k + 1 && run[j].event == Attach(p) && BeginsLate(run[j].world, run[j].event, codec)
               && NotRebuilt(run, j + 1, k + 1, p);
      assert j < k ==> NotRebuilt(run, j + 1, k, p) && run[k].event != FinishRebuild(p);
    }
    if LateAt(run, codec, k, p) && run[k].event != FinishRebuild(p) {
      var j :| 0 <= j < k && run[j].event == Attach(p) && BeginsLate(run[j].world, run[j].event, codec)
               && NotRebuilt(run, j + 1, k, p);
      assert NotRebuilt(run, j + 1, k + 1, p);
    }
    assert NotRebuilt(run, k + 1, k + 1, p);
  }

  lemma {:induction false} MissingMeansLate(run: seq<Moment>, last: World, codec: Codec, k: nat, p: Path)
    requires Connected(run, last, codec) && k <= |run| && NothingMissing(WorldAt(run, last, 0))
    requires p in WorldAt(run, last, 0)
    ensures var w := WorldAt(run, last, k);
            && p in w && (w[p].missing > 0 ==> Begun(w[p].files))
            && (w[p].missing > 0 <==> LateAt(run, codec, k, p))
  {
    hide Begun, BeginsLate, Happens, LateAt;
    if k == 0 {
      assert !LateAt(run, codec, 0, p) by { NeverYet(run, codec, p); }
    } else {
      MissingMeansLate(run, last, codec, k - 1, p);
      assert MomentAt(run, last, codec, k - 1);
      LateMore(run, codec, k - 1, p);
      MissingAfter(run[k - 1].world, run[k - 1].event, WorldAt(run, last, k), run[k - 1].scanned, codec, p);
    }
  }

  lemma NeverYet(run: seq<Moment>, codec: Codec, p: Path)
    ensures !LateAt(run, codec, 0, p)
  {
  }

  // --- when the header still has the log's size ---------------------------------------------

  /** No index has been begun and no writer is open. */
  ghost predicate Pristine(w: World) {
    forall p :: p in w ==> !Begun(w[p].files) && !w[p].attached
  }

  /** The event gives `p` a header with the size its log has. */
  predicate BeginsIndex(w: World, e: Event, p: Path) {
    p in w && (e == FinishRebuild(p) || (e == Attach(p) && !Begun(w[p].files)))
  }

  ghost predicate Unwritten(run: seq<Moment>, from: nat, to: nat, p: Path)
    requires to <= |run|
  {
    forall i :: from <= i < to ==> !(run[i].event.Write? && run[i].event.p == p)
  }

  /** Nothing has been written since the index was begun or rebuilt. */
  ghost predicate UnwrittenSince(run: seq<Moment>, k: nat, p: Path)
    requires k <= |run|
  {
    exists j :: 0 <= j < k && BeginsIndex(run[j].world, run[j].event, p) && Unwritten(run, j + 1, k, p)
  }

  ghost predicate HeaderInv(x: Process, codec: Codec) {
    && (x.attached ==> Begun(x.files))
    && (Begun(x.files) ==> x.files.jsonl.Some? && Aligned(x.files.idx.value) && IdxUsable(x.files, true, codec))
  }

  lemma AppendOutdates(jsonl: string, idx: string, more: string, more2: string, codec: Codec)
    requires Usable(idx, |jsonl|, true, codec) && Aligned(idx) && more != ""
    ensures Usable(idx + more2, |jsonl + more|, true, codec) && !Usable(idx + more2, |jsonl + more|, false, codec)
  {
    LinesAppend(idx, more2);
    BodyAppend(Lines(idx), Lines(more2));
  }

  lemma WriteOutdates(x: Process, line: string, e: StepEntry, codec: Codec)
    requires codec.Sound() && HeaderInv(x, codec) && x.attached && x.files.jsonl.Some? && x.files.idx.Some?
    ensures HeaderInv(Written(x, line, e, codec), codec) && !IdxUsable(Written(x, line, e, codec).files, false, codec)
  {
    hide Usable, Codec.Sound;
    AppendOutdates(x.files.jsonl.value, x.files.idx.value, line + ['\n'], codec.render(e) + ['\n'], codec);
  }

  lemma NotBegunNotUsable(files: Files, codec: Codec)
    requires !Begun(files)
    ensures !IdxUsable(files, false, codec)
  {
  }

  lemma OpeningHeader(x: Process, codec: Codec)
    requires codec.Sound() && HeaderInv(x, codec)
    ensures HeaderInv(Opened(x, codec), codec)
    ensures IdxUsable(Opened(x, codec).files, false, codec) <==> !Begun(x.files) || IdxUsable(x.files, false, codec)
  {
    hide Usable, FileView, Codec.Sound, Lines, NoBlank, IdxView;
    if !Begun(x.files) {
      var log := if x.files.jsonl.Some? then x.files.jsonl.value else "";
      FreshShowsNothing(log, false, codec);
      FreshShowsNothing(log, true, codec);
    }
  }

  lemma RebuiltHeader(x: Process, codec: Codec)
    requires codec.Sound() && HeaderInv(x, codec) && x.rebuilds > 0 && x.files.jsonl.Some?
    ensures var y := After(x, FinishRebuild(Path("")), false, codec);
            HeaderInv(y, codec) && IdxUsable(y.files, false, codec)
  {
    hide Usable, FileView, Codec.Sound, Lines, IdxView;
    RebuiltIsFaithful(x.files.jsonl.value, true, codec);
    RebuiltIsFaithful(x.files.jsonl.value, false, codec);
    IndexOfAligned(Lines(x.files.jsonl.value), codec);
  }

  /** What one event does to the header of `p`. */
  lemma HeaderAfter(w: World, e: Event, w': World, scanned: bool, codec: Codec, p: Path)
    requires Happens(w, e, w', scanned, codec) && p in w && codec.Sound() && HeaderInv(w[p], codec)
    ensures p in w' && HeaderInv(w'[p], codec)
    ensures IdxUsable(w'[p].files, false, codec) <==>
              BeginsIndex(w, e, p) || (IdxUsable(w[p].files, false, codec) && !(e.Write? && e.p == p))
  {
    hide Usable, FileView, Codec.Sound, Rebuilt, Opened, Written, OneLine;
    if e.p == p {
      match e
      case Attach(_) => OpeningHeader(w[p], codec);
      case Write(_, line, entry) => WriteOutdates(w[p], line, entry, codec);
      case FinishRebuild(_) => RebuiltHeader(w[p], codec);
      case _ =>
    }
  }

  lemma UnwrittenMore(run: seq<Moment>, k: nat, p: Path)
    requires k < |run|
    ensures UnwrittenSince(run, k + 1, p) <==>
              BeginsIndex(run[k].world, run[k].event, p)
              || (UnwrittenSince(run, k, p) && !(run[k].event.Write? && run[k].event.p == p))
  {
    hide BeginsIndex;
    if UnwrittenSince(run, k + 1, p) {
      var j :| 0 <= j < k + 1 && BeginsIndex(run[j].world, run[j].event, p) && Unwritten(run, j + 1, k + 1, p);
      assert j < k ==> Unwritten(run, j + 1, k, p) && !(run[k].event.Write? && run[k].event.p == p);
    }
    if UnwrittenSince(run, k, p) && !(run[k].event.Write? && run[k].event.p == p) {
      var j :| 0 <= j < k && BeginsIndex(run[j].world, run[j].event, p) && Unwritten(run, j + 1, k, p);
      assert Unwritten(run, j + 1, k + 1, p);
    }
    assert Unwritten(run, k + 1, k + 1, p);
  }

  lemma PristineStart(w: World, p: Path, codec: Codec)
    requires Pristine(w) && p in w
    ensures HeaderInv(w[p], codec) && !IdxUsable(w[p].files, false, codec)
  {
    NotBegunNotUsable(w[p].files, codec);
  }

  /** From files without an index: the index may stand for the log of a dead process
      exactly if nothing has been written since it was begun or rebuilt. */
  lemma {:induction false} HeaderIsCurrent(run: seq<Moment>, last: World, codec: Codec, k: nat, p: Path)
    requires Connected(run, last, codec) && k <= |run| && codec.Sound()
    requires Pristine(WorldAt(run, last, 0)) && p in WorldAt(run, last, 0)
    ensures var w := WorldAt(run, last, k);
            && p in w && HeaderInv(w[p], codec)
            && (IdxUsable(w[p].files, false, codec) <==> UnwrittenSince(run, k, p))
  {
    hide HeaderInv, IdxUsable, Codec.Sound, Happens, Pristine, BeginsIndex;
    if k == 0 {
      PristineStart(WorldAt(run, last, 0), p, codec);
    } else {
      HeaderIsCurrent(run, last, codec, k - 1, p);
      assert MomentAt(run, last, codec, k - 1);
      UnwrittenMore(run, k - 1, p);
      HeaderAfter(run[k - 1].world, run[k - 1].event, WorldAt(run, last, k), run[k - 1].scanned, codec, p);
    }
  }

  /** Over whole runs: the steps served agree with a full reading of the log exactly
      if the index was not begun when the log held records already, or has been
      rebuilt since, or is neither followed nor fit to stand for the log when the
      request comes. */
  lemma AnswersAgree(run: seq<Moment>, last: World, codec: Codec, k: nat)
    requires Connected(run, last, codec) && AllExact(run, codec) && k < |run| && NothingMissing(run[0].world)
    requires run[k].event.Request? && run[k].event.p in run[0].world && run[k].answer.Served?
    ensures run[k].event.p in run[k].world && run[k].world[run[k].event.p].files.jsonl.Some?
    ensures var p := run[k].event.p; var x := run[k].world[p];
            && (Agrees(x.files.jsonl.value, run[k].answer, codec) <==>
                  !LateAt(run, codec, k, p) || !Indexed(x, run[k].followed, codec))
            && (x.alive ==> (Agrees(x.files.jsonl.value, run[k].answer, codec) <==> !LateAt(run, codec, k, p)))
  {
    hide Agrees, LateAt, Connected, Indexed;
    MissingMeansLate(run, last, codec, k, run[k].event.p);
    assert ExactAt(run[k], codec);
  }

  /** The same from files without an index, in terms of the events: of a dead process
      an index begun late still shows exactly if it was followed before the request
      or nothing has been written since it was begun. */
  lemma DeadAnswersAgree(run: seq<Moment>, last: World, codec: Codec, k: nat)
    requires Connected(run, last, codec) && AllExact(run, codec) && codec.Sound() && k < |run|
    requires NothingMissing(run[0].world) && Pristine(run[0].world)
    requires run[k].event.Request? && run[k].event.p in run[0].world && run[k].answer.Served?
    requires run[k].event.p in run[k].world && !run[k].world[run[k].event.p].alive
    ensures run[k].world[run[k].event.p].files.jsonl.Some?
    ensures var p, log := run[k].event.p, run[k].world[run[k].event.p].files.jsonl.value;
            Agrees(log, run[k].answer, codec) <==>
              !LateAt(run, codec, k, p) || (!run[k].followed && !UnwrittenSince(run, k, p))
  {
    hide Agrees, LateAt, Connected, UnwrittenSince, Codec.Sound, Pristine, HeaderInv, IdxUsable, AllExact;
    AnswersAgree(run, last, codec, k);
    HeaderIsCurrent(run, last, codec, k, run[k].event.p);
  }

  /** A resumed process whose log holds a record and which has no index yet: as soon
      as its writer is opened, the server shows no steps at all. */
  lemma ResumedWithoutIndex(x: Process, a: Answer, codec: Codec)
    requires codec.Sound() && x.files.jsonl.Some? && !Begun(x.files) && FileView(x.files.jsonl.value, codec.full).total > 0
    requires var y := Opened(x, codec); FromFiles(y.files, a, true, codec)
    ensures a == Served([], 0, 0) && !Agrees(x.files.jsonl.value, a, codec)
    ensures forall alive :: IdxUsable(Opened(x, codec).files, alive, codec)
  {
    var log := x.files.jsonl.value;
    hide FileView, IdxView, Usable, NoBlank, Aligned, Agrees;
    forall alive ensures IdxUsable(Opened(x, codec).files, alive, codec) {
      FreshShowsNothing(log, alive, codec);
    }
    FreshShowsNothing(log, true, codec);
    assert Opened(x, codec).files.idx == Some(Fresh(log, codec));
    assert Entries(NOTHING) == [];
    assert WellFormed(NOTHING);
    ShownAgree(NOTHING, a, log, codec);
  }
}
