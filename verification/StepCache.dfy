/** The step-index cache of the observing server: at most eight paths, each with a
    deduplicated view that is brought up to date by reading only what was appended. */
module StepCache {
  import opened StepLog
  import opened Listing
  import opened StepIndex
  import opened Sets

  datatype Files = Files(jsonl: Option<string>, idx: Option<string>)

  datatype Answer = Missed | Served(entries: seq<StepEntry>, total: nat, parseErrors: nat)

  predicate Shows(a: Answer, v: View)
    requires forall i :: 0 <= i < |v.order| ==> v.order[i] in v.last
  {
    a == Served(Entries(v), v.total, v.parseErrors)
  }

  /** Durations to the microsecond. */
  function Rounded(entries: seq<StepEntry>): seq<StepEntry> {
    seq(|entries|, i requires 0 <= i < |entries| => CoarseEntry(entries[i]))
  }

  /** The answer tells the index, or else the log with the durations rounded. */
  ghost predicate Told(files: Files, a: Answer, indexed: bool, codec: Codec) {
    && a.Served?
    && if indexed then
         files.idx.Some? && IdxTells(files.idx.value, a.entries, a.total, a.parseErrors, codec)
       else
         files.jsonl.Some? && Tells(Lines(files.jsonl.value), Rounded(a.entries), a.total, a.parseErrors, codec.full)
  }

  lemma RoundedEntries(v: View)
    requires WellFormed(v)
    ensures WellFormed(Coarse(v)) && Rounded(Entries(v)) == Entries(Coarse(v))
    ensures Coarse(v).total == v.total && Coarse(v).parseErrors == v.parseErrors
  {
  }

  /** What is cached for one path.  `idxSize` is the part of the index read so far,
      or -1 when the log itself is being followed; `seen` is what was read. */
  class CacheState {
    var last: map<int, StepEntry>
    var order: seq<int>
    var total: nat
    var parseErrors: nat
    var idxSize: int
    var jsonlSize: int
    var lastAccess: int
    ghost var seen: string

    constructor (entries: seq<StepEntry>, total: nat, parseErrors: nat, idxSize: int, jsonlSize: int, stamp: int,
                 ghost v: View, ghost seen: string)
      requires WellFormed(v) && entries == StepLog.Entries(v) && total == v.total && parseErrors == v.parseErrors
      ensures View() == v && this.seen == seen
      ensures this.idxSize == idxSize && this.jsonlSize == jsonlSize && lastAccess == stamp
    {
      this.total, this.parseErrors, this.idxSize, this.jsonlSize, lastAccess := total, parseErrors, idxSize, jsonlSize, stamp;
      this.seen := seen;
      last, order := map[], [];
      new;
      Load(entries, v);
    }

    method Load(entries: seq<StepEntry>, ghost v: View)
      requires WellFormed(v) && entries == StepLog.Entries(v)
      requires last == map[] && order == []
      modifies `last, `order
      ensures last == v.last && order == v.order
    {
      for i := 0 to |entries|
        invariant order == v.order[..i]
        invariant forall k :: k in last <==> k in v.order[..i]
        invariant forall k :: k in last ==> k in v.last && last[k] == v.last[k]
      {
        var e := entries[i];
        assert e.step == v.order[i] && e.step !in v.order[..i];
        assert v.order[..i + 1] == v.order[..i] + [v.order[i]];
        if e.step !in last {
          order := order + [e.step];
        }
        last := last[e.step := e];
      }
      assert v.order[..|entries|] == v.order;
      SameMap(last, v);
    }

    ghost function View(): View
      reads `last, `order, `total, `parseErrors
    {
      StepLog.View(last, order, total, parseErrors)
    }

    method ToEntries() returns (entries: seq<StepEntry>)
      requires WellFormed(View())
      ensures entries == StepLog.Entries(View())
    {
      entries := [];
      for i := 0 to |order|
        invariant |entries| == i && forall j :: 0 <= j < i ==> entries[j] == last[order[j]]
      {
        entries := entries + [last[order[i]]];
      }
    }

    /** Takes one line over into the view. */
    method MergeLine(line: string, parse: Parser)
      requires !Blank(line)
      modifies `last, `order, `total, `parseErrors
      ensures View() == AddLine(old(View()), line, parse)
    {
      hide Blank;
      match parse(line) {
        case None => parseErrors := parseErrors + 1;
        case Some(e) =>
          total := total + 1;
          if e.step !in last {
            order := order + [e.step];
          }
          last := last[e.step := e];
      }
    }

    /** Reads the lines after byte `from` into the view; `consumed` counts the bytes
        of the lines handed out, which leaves blank ones behind. */
    method MergeAppend(file: string, from: nat, parse: Parser) returns (consumed: nat)
      requires from <= |file|
      modifies `last, `order, `total, `parseErrors
      ensures View() == Fold(old(View()), Lines(file[from..]), parse)
      ensures consumed == Consumed(Lines(file[from..]))
      ensures forall before :: Law(before, old(View()), parse) ==> Law(before + Lines(file[from..]), View(), parse)
    {
      hide Fold, Lines, Consumed, Blank, View, Law;
      consumed := 0;
      var rest := file[from..];
      while rest != []
        invariant Fold(View(), Lines(rest), parse) == Fold(old(View()), Lines(file[from..]), parse)
        invariant consumed + Consumed(Lines(rest)) == Consumed(Lines(file[from..]))
        decreases |rest|
      {
        var n := LineEnd(rest);
        var line := rest[..n];
        FirstLine(View(), rest, parse);
        if !Blank(line) {
          consumed := consumed + |line|;
          MergeLine(line, parse);
        }
        rest := rest[n..];
      }
      NoLines(View(), parse);
      forall before | Law(before, old(View()), parse) ensures Law(before + Lines(file[from..]), View(), parse) {
        FoldKeepsLaw(before, old(View()), Lines(file[from..]), parse);
      }
    }

    /** The view is that of the part of the file read so far. */
    ghost predicate Tracks(codec: Codec)
      reads `last, `order, `total, `parseErrors, `idxSize, `jsonlSize, `seen
    {
      && WellFormed(View()) && Aligned(seen)
      && if idxSize >= 0 then
           idxSize == |seen| && HasHeader(Lines(seen)) && View() == IdxView(seen, codec)
         else
           idxSize == -1 && jsonlSize == |seen| && Coarse(View()) == FileView(seen, codec.full)
    }

    /** What is followed has been read to its end. */
    ghost predicate UpToDate(files: Files)
      reads this
    {
      if idxSize >= 0 then files.idx == Some(seen) else files.jsonl == Some(seen)
    }

    /** What has the size of what was read, and only grew, is what was read. */
    lemma ReadAll(s: string, codec: Codec)
      requires Tracks(codec) && Grown(seen, s) && |s| == if idxSize >= 0 then idxSize else jsonlSize
      ensures seen == s && WellFormed(View())
    {
    }

    /** Reads what the index gained since the last time. */
    method CatchUpIdx(idx: string, codec: Codec)
      requires Tracks(codec) && 0 <= idxSize <= |idx| && Grown(seen, idx)
      modifies this
      ensures Tracks(codec) && WellFormed(View()) && seen == idx && idxSize == |idx| && lastAccess == old(lastAccess)
    {
      hide Aligned, WellFormed, HasHeader;
      ghost var more := idx[|seen|..];
      assert idx == seen + more;
      IdxViewAppend(seen, more, codec);
      FoldWellFormed(View(), Lines(more), codec.idx);
      ConsumedAll(more);
      var consumed := MergeAppend(idx, idxSize, codec.idx);
      idxSize := idxSize + consumed;
      seen := idx;
    }

    /** Reads what the log gained since the last time. */
    method CatchUpLog(jsonl: string, codec: Codec)
      requires Tracks(codec) && codec.Sound() && idxSize < 0 && jsonlSize <= |jsonl| && Grown(seen, jsonl)
      modifies this
      ensures Tracks(codec) && WellFormed(View()) && seen == jsonl && idxSize == -1 && lastAccess == old(lastAccess)
    {
      hide Aligned, WellFormed, HasHeader, StepLog.Coarse;
      ghost var more := jsonl[|seen|..];
      assert jsonl == seen + more;
      FileViewAppend(seen, more, codec.full);
      CoarseFold(View(), Lines(more), codec.light, codec.full);
      FoldWellFormed(View(), Lines(more), codec.light);
      ConsumedAll(more);
      var consumed := MergeAppend(jsonl, jsonlSize, codec.light);
      jsonlSize := jsonlSize + consumed;
      seen := jsonl;
    }

    /** The file being followed has either been cut below what was read, or has
        only had whole nonblank lines appended. */
    ghost predicate OnlyGrew(files: Files)
      reads `idxSize, `seen
    {
      if idxSize >= 0 then files.idx.Some? ==> Grown(seen, files.idx.value)
      else files.jsonl.Some? ==> Grown(seen, files.jsonl.value)
    }
  }

  lemma SameMap(last: map<int, StepEntry>, v: View)
    requires WellFormed(v) && forall k :: k in last <==> k in v.order
    requires forall k :: k in last ==> k in v.last && last[k] == v.last[k]
    ensures last == v.last
  {
    forall k ensures k in last <==> k in v.last {
      if k in v.last { assert k in v.order; }
    }
    assert last.Keys == v.last.Keys;
    assert forall k :: k in last ==> last[k] == v.last[k];
    assert last == v.last;
  }

  ghost predicate Grown(before: string, now: string) {
    |before| <= |now| ==> before <= now && Aligned(now) && NoBlank(Lines(now[|before|..]))
  }

  /** Files hold whole lines. */
  ghost predicate Whole(files: Files) {
    (files.jsonl.Some? ==> Aligned(files.jsonl.value)) && (files.idx.Some? ==> Aligned(files.idx.value))
  }

  predicate IdxUsable(files: Files, alive: bool, codec: Codec) {
    files.jsonl.Some? && files.idx.Some? && Usable(files.idx.value, |files.jsonl.value|, alive, codec)
  }

  lemma UsableIsNotEmpty(files: Files, alive: bool, codec: Codec)
    ensures IdxUsable(files, alive, codec) ==> files.jsonl.Some? && files.idx.Some? && files.idx.value != ""
  {
  }

  /** Reads a whole log, keeping the last record of every step. */
  method ReadAllSteps(jsonl: string, full: Parser) returns (entries: seq<StepEntry>, total: nat, parseErrors: nat)
    ensures var v := FileView(jsonl, full);
            WellFormed(v) && entries == Entries(v) && total == v.total && parseErrors == v.parseErrors
    ensures Tells(Lines(jsonl), entries, total, parseErrors, full)
  {
    var last: map<int, StepEntry>, order: seq<int>;
    last, order, total, parseErrors := map[], [], 0, 0;
    var rest := jsonl;
    while rest != []
      invariant Fold(View(last, order, total, parseErrors), Lines(rest), full) == FileView(jsonl, full)
      invariant WellFormed(View(last, order, total, parseErrors))
      decreases |rest|
    {
      var n := LineEnd(rest);
      var line := rest[..n];
      assert Lines(rest)[0] == line && Lines(rest)[1..] == Lines(rest[n..]);
      AddKeepsWellFormed(View(last, order, total, parseErrors), line, full);
      if !Blank(line) {
        match full(line) {
          case None => parseErrors := parseErrors + 1;
          case Some(e) =>
            total := total + 1;
            if e.step !in last {
              order := order + [e.step];
            }
            last := last[e.step := e];
        }
      }
      rest := rest[n..];
    }
    entries := Entries(View(last, order, total, parseErrors));
    FileTells(Lines(jsonl), full);
  }

  datatype Path = Path(text: string)

  const CAPACITY := 8

  /** The stamp of a cached path is the position of its last access. */
  ghost predicate Stamped(history: seq<Path>, p: Path, stamp: int) {
    1 <= stamp <= |history| && history[stamp - 1] == p && p !in history[stamp..]
  }

  lemma StampStays(history: seq<Path>, p: Path, stamp: int, q: Path)
    requires Stamped(history, p, stamp) && p != q
    ensures Stamped(history + [q], p, stamp)
  {
    assert (history + [q])[stamp..] == history[stamp..] + [q];
  }

  lemma StampsDiffer(history: seq<Path>, p: Path, a: int, q: Path, b: int)
    requires Stamped(history, p, a) && Stamped(history, q, b) && a == b
    ensures p == q
  {
  }

  /** A path accessed later occurs after the last access of an earlier one. */
  lemma AccessedSince(history: seq<Path>, p: Path, a: int, q: Path, b: int)
    requires Stamped(history, p, a) && Stamped(history, q, b) && a < b
    ensures q in history[a..] && q != p
  {
    assert history[a..][b - 1 - a] == q;
  }

  lemma LastStamp(history: seq<Path>, p: Path)
    requires history != [] && history[|history| - 1] == p
    ensures Stamped(history, p, |history|)
  {
  }

  lemma StampRange(history: seq<Path>, p: Path, stamp: int)
    requires Stamped(history, p, stamp)
    ensures 1 <= stamp <= |history|
  {
  }

  ghost predicate Apart(m: map<Path, CacheState>) {
    forall p, q :: p in m && q in m && p != q ==> m[p] != m[q]
  }

  lemma FewerApart(m: map<Path, CacheState>, p: Path)
    requires Apart(m)
    ensures Apart(m - {p})
  {
  }

  class Server {
    const codec: Codec
    var idxCache: map<Path, CacheState>
    var idxClock: int
    ghost var history: seq<Path>

    constructor (codec: Codec)
      ensures Inv() && idxCache == map[] && this.codec == codec
    {
      this.codec, idxCache, idxClock, history := codec, map[], 0, [];
    }

    ghost predicate Distinct()
      reads this
    {
      Apart(idxCache)
    }

    ghost predicate Entry(p: Path)
      requires p in idxCache
      reads this, idxCache[p]
    {
      idxCache[p].Tracks(codec) && Stamped(history, p, idxCache[p].lastAccess)
    }

    ghost predicate Inv()
      reads this, idxCache.Values
    {
      && Distinct() && |idxCache| <= CAPACITY && idxClock == |history|
      && forall p :: p in idxCache ==> Entry(p)
    }

    /** The path cached that was accessed longest ago. */
    method Oldest() returns (oldest: Path)
      requires idxCache != map[]
      requires forall p :: p in idxCache ==> idxCache[p].lastAccess >= 0
      ensures oldest in idxCache
      ensures forall p :: p in idxCache ==> idxCache[oldest].lastAccess <= idxCache[p].lastAccess
    {
      var oldestStamp := -1;
      var rest := idxCache.Keys;
      oldest :| oldest in rest;
      while rest != {}
        invariant rest <= idxCache.Keys
        invariant oldestStamp < 0 ==> rest == idxCache.Keys
        invariant oldestStamp >= 0 ==> oldest in idxCache && idxCache[oldest].lastAccess == oldestStamp
        invariant oldestStamp >= 0 ==>
                    forall p :: p in idxCache && p !in rest ==> oldestStamp <= idxCache[p].lastAccess
        decreases rest
      {
        var k :| k in rest;
        if oldestStamp < 0 || idxCache[k].lastAccess < oldestStamp {
          oldest, oldestStamp := k, idxCache[k].lastAccess;
        }
        rest := rest - {k};
      }
    }

    /** Forgets the path accessed longest ago. */
    method DropOldest()
      requires Inv() && idxCache != map[]
      modifies this`idxCache
      ensures Inv() && idxCache.Keys <= old(idxCache.Keys) && |idxCache| == |old(idxCache)| - 1
      ensures forall p :: p in idxCache ==> idxCache[p] == old(idxCache)[p]
      ensures DroppedAreOldest(old(idxCache))
    {
      hide Stamped, CacheState.Tracks;
      StampsPositive();
      var oldest := Oldest();
      forall p | p in idxCache && p != oldest ensures idxCache[oldest].lastAccess < idxCache[p].lastAccess {
        assert Entry(p) && Entry(oldest);
        if idxCache[oldest].lastAccess == idxCache[p].lastAccess {
          StampsDiffer(history, p, idxCache[p].lastAccess, oldest, idxCache[oldest].lastAccess);
        }
      }
      RemoveSize(idxCache, oldest);
      ghost var before := idxCache;
      idxCache := idxCache - {oldest};
      forall p | p in idxCache ensures Entry(p) {
        assert before[p] == idxCache[p];
      }
    }

    /** Every path of `before` no longer cached was last accessed before all that
        still are. */
    ghost predicate DroppedAreOldest(before: map<Path, CacheState>)
      reads this, before.Values, idxCache.Values
    {
      forall v, p :: v in before && v !in idxCache && p in idxCache ==> before[v].lastAccess < idxCache[p].lastAccess
    }

    /** Makes room for one more path. */
    method EvictIdxCache()
      requires Inv()
      modifies this`idxCache
      ensures Inv() && |idxCache| < CAPACITY && idxCache.Keys <= old(idxCache.Keys)
      ensures forall p :: p in idxCache ==> idxCache[p] == old(idxCache)[p]
      ensures idxCache != old(idxCache) ==> |idxCache| == CAPACITY - 1 && DroppedAreOldest(old(idxCache))
    {
      hide Stamped, CacheState.Tracks, Entry;
      while |idxCache| >= CAPACITY
        invariant Inv()
        invariant idxCache != old(idxCache) ==> |idxCache| == CAPACITY - 1 && DroppedAreOldest(old(idxCache))
        invariant idxCache.Keys <= old(idxCache.Keys) && forall p :: p in idxCache ==> idxCache[p] == old(idxCache)[p]
        decreases |idxCache|
      {
        assert idxCache != map[];
        DropOldest();
      }
    }

    /** Gives `p` the next stamp. */
    method NextIdxClock(p: Path) returns (stamp: int)
      modifies this`idxClock, this`history
      ensures idxClock == old(idxClock) + 1 == stamp && history == old(history) + [p]
    {
      idxClock := idxClock + 1;
      history := history + [p];
      stamp := idxClock;
    }

    /** Everything but `p` is in order. */
    ghost predicate InvBut(p: Path)
      reads this, idxCache.Values
    {
      && Distinct() && |idxCache| <= CAPACITY && idxClock == |history|
      && forall q :: q in idxCache && q != p ==> Entry(q)
    }

    /** `v` was dropped for `CAPACITY` paths accessed since its own last access. */
    ghost predicate Outlived(v: Path)
      reads `history
    {
      exists a :: Stamped(history, v, a) && |PathsIn(history[a..])| >= CAPACITY
    }

    /** Caches a fresh view of `p`. */
    method Insert(p: Path, cs: CacheState)
      requires InvBut(p) && p !in idxCache && cs !in idxCache.Values
      requires cs.Tracks(codec) && history != [] && history[|history| - 1] == p && cs.lastAccess == |history|
      modifies this`idxCache
      ensures Inv() && p in idxCache && idxCache[p] == cs && idxCache.Keys <= old(idxCache.Keys) + {p}
      ensures forall q :: q in idxCache && q != p ==> idxCache[q] == old(idxCache)[q]
      ensures forall v :: v in old(idxCache) && v !in idxCache ==> Outlived(v)
    {
      hide CacheState.Tracks, Stamped, Outlived, DroppedAreOldest;
      ghost var before := idxCache;
      forall v | v in before ensures Stamped(history, v, before[v].lastAccess) { assert Entry(v); }
      EvictIdxCache();
      ghost var rest := idxCache;
      forall v | v in before && v !in rest ensures Outlived(v) {
        VictimOutlived(before, rest, v, p);
      }
      Put(p, cs);
    }

    lemma VictimOutlived(before: map<Path, CacheState>, rest: map<Path, CacheState>, v: Path, p: Path)
      requires v in before && v !in rest && v != p && p !in rest && rest == idxCache && rest != before
      requires |rest| == CAPACITY - 1 && DroppedAreOldest(before)
      requires Stamped(history, v, before[v].lastAccess) && history != [] && history[|history| - 1] == p
      requires forall q :: q in rest ==> Entry(q)
      ensures Outlived(v)
    {
      hide Stamped, CacheState.Tracks, Outlived;
      forall q | q in rest ensures Stamped(history, q, rest[q].lastAccess) { assert Entry(q); }
      SevenSince(rest, v, before[v], p);
    }

    method Put(p: Path, cs: CacheState)
      requires Inv() && |idxCache| < CAPACITY && p !in idxCache && cs !in idxCache.Values
      requires cs.Tracks(codec) && history != [] && history[|history| - 1] == p && cs.lastAccess == |history|
      modifies this`idxCache
      ensures Inv() && idxCache == old(idxCache)[p := cs]
    {
      hide CacheState.Tracks, Stamped;
      LastStamp(history, p);
      ghost var rest := idxCache;
      idxCache := idxCache[p := cs];
      InsertSize(rest, p, cs);
      forall q | q in idxCache ensures Entry(q) {
        if q != p { assert old(Entry(q)) && idxCache[q] == rest[q]; }
      }
    }

    /** The paths still cached, and the one about to be, were all accessed since. */
    lemma SevenSince(rest: map<Path, CacheState>, v: Path, cs: CacheState, p: Path)
      requires |rest| == CAPACITY - 1 && p !in rest && v != p
      requires Stamped(history, v, cs.lastAccess) && history[|history| - 1] == p
      requires forall q :: q in rest ==> Stamped(history, q, rest[q].lastAccess) && cs.lastAccess < rest[q].lastAccess
      ensures Outlived(v)
    {
      hide Stamped;
      var a := cs.lastAccess;
      StampRange(history, v, a);
      forall q | q in rest ensures q in history[a..] {
        AccessedSince(history, v, a, q, rest[q].lastAccess);
      }
      assert Stamped(history, p, |history|) by { LastStamp(history, p); }
      if a == |history| { StampsDiffer(history, v, a, p, |history|); }
      AccessedSince(history, v, a, p, |history|);
      var seen := PathsIn(history[a..]);
      assert rest.Keys + {p} <= seen;
      SubsetSize(rest.Keys + {p}, seen);
      assert |rest.Keys + {p}| == |rest.Keys| + 1 && |rest| == |rest.Keys|;
    }

    /** A hit: the path gets a new stamp. */
    method Touch(p: Path, cs: CacheState)
      requires Inv() && p in idxCache && idxCache[p] == cs
      modifies this`idxClock, this`history, cs`lastAccess
      ensures Inv() && history == old(history) + [p]
    {
      hide CacheState.Tracks, Stamped;
      ghost var before := history;
      forall q | q in idxCache ensures Stamped(history, q, idxCache[q].lastAccess) { assert Entry(q); }
      assert Entry(p);
      var stamp := NextIdxClock(p);
      cs.lastAccess := stamp;
      LastStamp(history, p);
      forall q | q in idxCache ensures Entry(q) {
        if q != p {
          assert old(Entry(q)) && idxCache[q] != cs;
          StampStays(before, q, idxCache[q].lastAccess, p);
        }
      }
    }

    /** The entry of `p`, if there is one, is forgotten. */
    method Drop(p: Path)
      requires InvBut(p)
      modifies this`idxCache
      ensures Inv() && idxCache == old(idxCache) - {p}
    {
      hide CacheState.Tracks, Stamped, Apart;
      if p in idxCache { RemoveSize(idxCache, p); }
      ghost var before := idxCache;
      idxCache := idxCache - {p};
      forall q | q in idxCache ensures Entry(q) {
        assert old(Entry(q)) && idxCache[q] == before[q];
      }
      FewerApart(before, p);
    }

    /** `p` is cached, read to the end of what it follows, and `a` shows it. */
    ghost predicate Serves(p: Path, files: Files, a: Answer)
      reads this, idxCache.Values
    {
      p in idxCache && idxCache[p].UpToDate(files) && WellFormed(idxCache[p].View()) && Shows(a, idxCache[p].View())
    }

    /** So the answer is the list of the steps in the file followed. */
    lemma ServedIsTold(p: Path, files: Files, a: Answer)
      requires Inv() && Serves(p, files, a)
      ensures Told(files, a, InIdxMode(p), codec)
    {
      hide Stamped, Tells, IdxTells, WellFormed, Coarse, Rounded;
      var cs := idxCache[p];
      assert Entry(p);
      if cs.idxSize >= 0 {
        IndexTells(files.idx.value, codec);
      } else {
        FileTells(Lines(files.jsonl.value), codec.full);
        RoundedEntries(cs.View());
      }
    }

    /** The other paths cached are those cached before, less the ones dropped. */
    ghost predicate OthersFrom(before: map<Path, CacheState>, p: Path)
      reads this`idxCache
    {
      forall q :: q in idxCache && q != p ==> q in before && idxCache[q] == before[q]
    }

    /** A hit in index mode: brings the entry up to date, or drops it when the index
        is gone or was cut. */
    method FollowIdx(p: Path, cs: CacheState, files: Files) returns (a: Answer, final: bool)
      requires Inv() && p in idxCache && idxCache[p] == cs && cs.idxSize >= 0 && cs.OnlyGrew(files)
      modifies this`idxCache, cs
      ensures Inv() && OthersFrom(old(idxCache), p) && idxCache.Keys <= old(idxCache.Keys)
      ensures if a.Missed? then p !in idxCache else p in idxCache && final && Serves(p, files, a)
      ensures forall q :: q in old(idxCache) && q != p ==> q in idxCache
      ensures p in idxCache ==> idxCache[p] == cs && cs.idxSize >= 0
      ensures final && a.Missed? ==> files.idx.None?
      ensures files.idx.Some? && |files.idx.value| >= old(cs.idxSize) ==> p in idxCache
    {
      hide CacheState.Tracks, Stamped, Grown;
      a, final := Missed, true;
      assert Entry(p);
      if files.idx.None? {
        Drop(p);
        return;
      }
      var size := |files.idx.value|;
      if size == cs.idxSize {
        cs.ReadAll(files.idx.value, codec);
        var entries := cs.ToEntries();
        return Served(entries, cs.total, cs.parseErrors), true;
      }
      if size > cs.idxSize {
        cs.CatchUpIdx(files.idx.value, codec);
        var entries := cs.ToEntries();
        forall q | q in idxCache && q != p ensures Entry(q) { assert old(Entry(q)) && idxCache[q] != cs; }
        return Served(entries, cs.total, cs.parseErrors), true;
      }
      Drop(p);
      final := false;
    }

    /** A hit while following the log: an index that has appeared since is preferred. */
    method FollowLog(p: Path, cs: CacheState, files: Files) returns (a: Answer, final: bool)
      requires Inv() && p in idxCache && idxCache[p] == cs && cs.idxSize < 0 && cs.OnlyGrew(files) && codec.Sound()
      modifies this`idxCache, cs
      ensures Inv() && OthersFrom(old(idxCache), p) && idxCache.Keys <= old(idxCache.Keys)
      ensures if a.Missed? then p !in idxCache else p in idxCache && final && Serves(p, files, a)
      ensures forall q :: q in old(idxCache) && q != p ==> q in idxCache
      ensures p in idxCache ==> idxCache[p] == cs && cs.idxSize < 0
      ensures final && a.Missed? ==> files.jsonl.None?
      ensures final ==> files.idx.None? || files.idx.value == ""
    {
      hide CacheState.Tracks, Stamped, Grown, Codec.Sound;
      a, final := Missed, true;
      assert Entry(p);
      if files.idx.Some? && |files.idx.value| > 0 {
        Drop(p);
        final := false;
        return;
      }
      if files.jsonl.None? {
        Drop(p);
        return;
      }
      var size := |files.jsonl.value|;
      if size == cs.jsonlSize {
        cs.ReadAll(files.jsonl.value, codec);
        var entries := cs.ToEntries();
        return Served(entries, cs.total, cs.parseErrors), true;
      }
      if size > cs.jsonlSize {
        cs.CatchUpLog(files.jsonl.value, codec);
        var entries := cs.ToEntries();
        forall q | q in idxCache && q != p ensures Entry(q) { assert old(Entry(q)) && idxCache[q] != cs; }
        return Served(entries, cs.total, cs.parseErrors), true;
      }
      Drop(p);
      final := false;
    }

    /** Stamps a path about to be cached. */
    method TickFor(p: Path) returns (stamp: int)
      requires Inv() && p !in idxCache
      modifies this`idxClock, this`history
      ensures InvBut(p) && history == old(history) + [p] && stamp == |history|
    {
      hide CacheState.Tracks, Stamped;
      ghost var before := history;
      forall q | q in idxCache ensures Stamped(before, q, idxCache[q].lastAccess) { assert Entry(q); }
      stamp := NextIdxClock(p);
      forall q | q in idxCache ensures Entry(q) {
        assert old(Entry(q));
        StampStays(before, q, idxCache[q].lastAccess, p);
      }
    }

    /** Caches what the index on disk shows, if it may be used. */
    method ReadIndex(p: Path, files: Files, alive: bool) returns (a: Answer)
      requires Inv() && p !in idxCache && Whole(files)
      modifies this`idxCache, this`idxClock, this`history
      ensures Inv() && OthersFrom(old(idxCache), p)
      ensures if a.Missed? then idxCache == old(idxCache) && !IdxUsable(files, alive, codec)
              else Serves(p, files, a) && fresh(idxCache[p]) && IdxUsable(files, alive, codec) && InIdxMode(p)
      ensures forall v :: v in old(idxCache) && v !in idxCache ==> Outlived(v)
    {
      hide CacheState.Tracks, Stamped, Outlived, Usable, WellFormed, Inv, Entry, Distinct, InvBut;
      var ok, entries, total, parseErrors := ReadStepsFromIdx(files.idx, files.jsonl, alive, codec);
      if !ok { return Missed; }
      var stamp := TickFor(p);
      var cs := new CacheState(entries, total, parseErrors, |files.idx.value|, 0, stamp,
                               IdxView(files.idx.value, codec), files.idx.value);
      FreshTracks(cs, files, alive);
      Insert(p, cs);
      var shown := cs.ToEntries();
      a := Served(shown, cs.total, cs.parseErrors);
    }

    lemma FreshTracks(cs: CacheState, files: Files, alive: bool)
      requires files.idx.Some? && files.jsonl.Some? && Usable(files.idx.value, |files.jsonl.value|, alive, codec) && Whole(files)
      requires cs.View() == IdxView(files.idx.value, codec) && cs.seen == files.idx.value && cs.idxSize == |files.idx.value|
      requires WellFormed(cs.View())
      ensures cs.Tracks(codec)
    {
    }

    ghost predicate InIdxMode(p: Path)
      reads this, idxCache.Values
    {
      p in idxCache && idxCache[p].idxSize >= 0
    }

    /** `p` is followed in its index, which is there and has not shrunk. */
    ghost predicate Follows(p: Path, files: Files)
      reads this, idxCache.Values
    {
      InIdxMode(p) && files.idx.Some? && idxCache[p].idxSize <= |files.idx.value|
    }

    /** Serves the steps of `p` from the cache, after reading what is new, or from
        the index on disk.  A miss leaves `p` uncached. */
    method ListStepsViaCache(p: Path, files: Files, alive: bool) returns (a: Answer)
      requires Inv() && codec.Sound() && Whole(files)
      requires p in idxCache ==> idxCache[p].OnlyGrew(files)
      modifies this, if p in idxCache then {idxCache[p]} else {}
      ensures Inv() && OthersFrom(old(idxCache), p)
      ensures if a.Missed? then p !in idxCache && !IdxUsable(files, alive, codec) else Serves(p, files, a)
      ensures !a.Missed? ==> Told(files, a, InIdxMode(p), codec)
      ensures InIdxMode(p) ==> old(InIdxMode(p)) || IdxUsable(files, alive, codec)
      ensures IdxUsable(files, alive, codec) || old(Follows(p, files)) ==> InIdxMode(p)
      ensures p in idxCache ==> (p in old(idxCache) && idxCache[p] == old(idxCache[p])) || fresh(idxCache[p])
      ensures a.Missed? ==> forall q :: q in old(idxCache) && q != p ==> q in idxCache
      ensures forall v :: v in old(idxCache) && v != p && v !in idxCache ==> Outlived(v)
    {
      hide CacheState.Tracks, Stamped, CacheState.OnlyGrew, Codec.Sound, Outlived, Entry, Distinct, Serves, Usable, Told;
      if p in idxCache {
        var cs := idxCache[p];
        Touch(p, cs);
        assert cs.OnlyGrew(files);
        var final: bool;
        if cs.idxSize >= 0 {
          a, final := FollowIdx(p, cs, files);
        } else {
          a, final := FollowLog(p, cs, files);
        }
        if final {
          UsableIsNotEmpty(files, alive, codec);
          if !a.Missed? { ServedIsTold(p, files, a); }
          return;
        }
      }
      a := ReadIndex(p, files, alive);
      if !a.Missed? { ServedIsTold(p, files, a); }
    }

    /** Caches the view a full read of the log gave. */
    method BackfillIdxCache(p: Path, entries: seq<StepEntry>, total: nat, parseErrors: nat, jsonl: string)
      requires Inv() && codec.Sound() && Aligned(jsonl) && p !in idxCache
      requires var v := FileView(jsonl, codec.full);
               WellFormed(v) && entries == StepLog.Entries(v) && total == v.total && parseErrors == v.parseErrors
      modifies this`idxCache, this`idxClock, this`history
      ensures Inv() && OthersFrom(old(idxCache), p)
      ensures p in idxCache && !InIdxMode(p) && idxCache[p].seen == jsonl && fresh(idxCache[p])
      ensures WellFormed(idxCache[p].View()) && idxCache[p].View() == FileView(jsonl, codec.full)
      ensures forall v :: v in old(idxCache) && v !in idxCache ==> Outlived(v)
    {
      hide CacheState.Tracks, Stamped, Outlived, WellFormed, Inv, Entry, Distinct, InvBut, Codec.Sound, FileView;
      ghost var v := FileView(jsonl, codec.full);
      var stamp := TickFor(p);
      var cs := new CacheState(entries, total, parseErrors, -1, |jsonl|, stamp, v, jsonl);
      BackfillTracks(cs, jsonl);
      Insert(p, cs);
    }

    lemma BackfillTracks(cs: CacheState, jsonl: string)
      requires codec.Sound() && Aligned(jsonl) && WellFormed(cs.View())
      requires cs.View() == FileView(jsonl, codec.full) && cs.seen == jsonl && cs.jsonlSize == |jsonl| && cs.idxSize == -1
      ensures cs.Tracks(codec)
    {
      assert Coarse(NOTHING).last == map[];
      FullIsCoarse(NOTHING, Lines(jsonl), codec.light, codec.full);
    }

    /** A list request: from the cache if possible, else from a full read of the
        log, which is then cached.  `scanned` is whether the log was read in full,
        the one case in which an index rebuild is started. */
    method ListSteps(p: Path, files: Files, alive: bool) returns (a: Answer, scanned: bool)
      requires Inv() && codec.Sound() && Whole(files)
      requires p in idxCache ==> idxCache[p].OnlyGrew(files)
      modifies this, if p in idxCache then {idxCache[p]} else {}
      ensures Inv() && OthersFrom(old(idxCache), p)
      ensures if a.Missed? then p !in idxCache && files.jsonl.None? && !scanned else Serves(p, files, a)
      ensures !a.Missed? ==> Told(files, a, InIdxMode(p), codec)
      ensures scanned ==> p in idxCache && !InIdxMode(p) && files.jsonl.Some? && !IdxUsable(files, alive, codec)
      ensures InIdxMode(p) ==> old(InIdxMode(p)) || IdxUsable(files, alive, codec)
      ensures IdxUsable(files, alive, codec) || old(Follows(p, files)) ==> InIdxMode(p)
      ensures p in idxCache ==> (p in old(idxCache) && idxCache[p] == old(idxCache[p])) || fresh(idxCache[p])
      ensures forall v :: v in old(idxCache) && v != p && v !in idxCache ==> Outlived(v)
    {
      hide CacheState.Tracks, Stamped, CacheState.OnlyGrew, Codec.Sound, Outlived, Inv, IdxUsable, WellFormed, Fold, Told, Tells;
      scanned := false;
      a := ListStepsViaCache(p, files, alive);
      if !a.Missed? || files.jsonl.None? { return; }
      var entries, total, parseErrors := ReadAllSteps(files.jsonl.value, codec.full);
      BackfillIdxCache(p, entries, total, parseErrors, files.jsonl.value);
      a, scanned := Served(entries, total, parseErrors), true;
      ServedIsTold(p, files, a);
    }

    lemma StampsPositive()
      requires Inv()
      ensures forall p :: p in idxCache ==> idxCache[p].lastAccess >= 1
    {
      forall p | p in idxCache ensures idxCache[p].lastAccess >= 1 {
        assert Entry(p);
      }
    }
  }

  lemma InsertSize<K, V>(m: map<K, V>, k: K, v: V)
    ensures |m[k := v]| <= |m| + 1
  {
    assert m[k := v].Keys == m.Keys + {k};
    assert |m| == |m.Keys| && |m[k := v]| == |m[k := v].Keys|;
  }

  ghost function PathsIn(history: seq<Path>): set<Path> {
    set p | p in history
  }

  lemma RemoveSize<K, V>(m: map<K, V>, k: K)
    requires k in m
    ensures |m - {k}| == |m| - 1
  {
    assert (m - {k}).Keys == m.Keys - {k};
    assert |m| == |m.Keys| && |m - {k}| == |(m - {k}).Keys|;
  }
}
