/** The sidecar index of a step log: reading it, and rebuilding it from the log. */
module StepIndex {
  import opened StepLog
  import opened Listing

  /** The text formats, taken as given. */
  datatype Codec = Codec(full: Parser, light: Parser, idx: Parser, header: string -> Option<Header>,
                         render: StepEntry -> string, renderHeader: nat -> string)
  {
    /** Index lines read back as written, and are one nonblank line each. */
    ghost predicate Sound() {
      && Refines(light, full)
      && (forall e {:trigger render(e)} :: idx(render(e) + ['\n']) == Some(e) && OneLine(render(e)))
      && (forall n: nat {:trigger renderHeader(n)} ::
            header(renderHeader(n) + ['\n']) == Some(Header(1, n)) && OneLine(renderHeader(n)))
    }
  }

  predicate OneLine(s: string) {
    !Blank(s) && forall i :: 0 <= i < |s| ==> s[i] != '\n'
  }

  predicate HasHeader(lines: seq<string>) {
    exists i :: 0 <= i < |lines| && !Blank(lines[i])
  }

  /** The first line that is not blank. */
  function HeaderLine(lines: seq<string>): string
    requires HasHeader(lines)
  {
    if Blank(lines[0]) then
      assert exists i :: 0 <= i < |lines[1..]| && !Blank(lines[1..][i]) by {
        var i :| 0 <= i < |lines| && !Blank(lines[i]);
        assert !Blank(lines[1..][i - 1]);
      }
      HeaderLine(lines[1..])
    else lines[0]
  }

  /** What follows the header. */
  function Body(lines: seq<string>): seq<string> {
    if lines == [] then [] else if Blank(lines[0]) then Body(lines[1..]) else lines[1..]
  }

  /** Line `h` is the first that is not blank. */
  predicate HeaderAt(lines: seq<string>, h: nat) {
    h < |lines| && !Blank(lines[h]) && forall i :: 0 <= i < h ==> Blank(lines[i])
  }

  lemma {:induction false} HeaderIsFirst(lines: seq<string>, h: nat)
    requires HeaderAt(lines, h)
    ensures HasHeader(lines) && HeaderLine(lines) == lines[h] && Body(lines) == lines[h + 1..]
    decreases h
  {
    if h > 0 {
      assert Blank(lines[0]);
      assert !Blank(lines[1..][h - 1]);
      assert HeaderAt(lines[1..], h - 1);
      HeaderIsFirst(lines[1..], h - 1);
    }
  }

  lemma {:induction false} HeaderExists(lines: seq<string>) returns (h: nat)
    requires HasHeader(lines)
    ensures HeaderAt(lines, h)
  {
    if Blank(lines[0]) {
      var i :| 0 <= i < |lines| && !Blank(lines[i]);
      assert !Blank(lines[1..][i - 1]);
      var g := HeaderExists(lines[1..]);
      h := g + 1;
      forall i | 0 <= i < h ensures Blank(lines[i]) {
        if i > 0 { assert Blank(lines[1..][i - 1]); }
      }
      assert lines[h] == lines[1..][g];
    } else {
      h := 0;
    }
  }

  /** What an index tells: the list of the lines after its header, which is its first
      line that is not blank. */
  ghost predicate IdxTells(idx: string, entries: seq<StepEntry>, total: nat, parseErrors: nat, codec: Codec) {
    exists h: nat :: HeaderAt(Lines(idx), h) && Tells(Lines(idx)[h + 1..], entries, total, parseErrors, codec.idx)
  }

  lemma IndexTells(idx: string, codec: Codec)
    requires HasHeader(Lines(idx))
    ensures var v := IdxView(idx, codec); WellFormed(v) && IdxTells(idx, Entries(v), v.total, v.parseErrors, codec)
  {
    hide Lines, Tells, WellFormed, Fold;
    var h := HeaderExists(Lines(idx));
    HeaderIsFirst(Lines(idx), h);
    FileTells(Body(Lines(idx)), codec.idx);
  }

  function IdxView(s: string, codec: Codec): View {
    Fold(NOTHING, Body(Lines(s)), codec.idx)
  }

  /** Whether an index may stand for a log of `size` bytes: it must not be ahead of
      the log, and may lag behind it only while a writer is alive. */
  predicate Usable(s: string, size: nat, alive: bool, codec: Codec) {
    && HasHeader(Lines(s))
    && var h := codec.header(HeaderLine(Lines(s)));
       h.Some? && h.value.version == 1 && h.value.jsonlSize <= size && (h.value.jsonlSize == size || alive)
  }

  lemma {:induction false} BodyAppend(a: seq<string>, b: seq<string>)
    requires HasHeader(a)
    ensures HasHeader(a + b) && HeaderLine(a + b) == HeaderLine(a) && Body(a + b) == Body(a) + b
    decreases |a|
  {
    var i :| 0 <= i < |a| && !Blank(a[i]);
    assert !Blank((a + b)[i]);
    assert (a + b)[0] == a[0] && (a + b)[1..] == a[1..] + b;
    if Blank(a[0]) {
      assert !Blank(a[1..][i - 1]);
      BodyAppend(a[1..], b);
    }
  }

  /** Appending to an index that has its header appends to its view. */
  lemma IdxViewAppend(a: string, b: string, codec: Codec)
    requires Aligned(a) && HasHeader(Lines(a))
    ensures HasHeader(Lines(a + b)) && IdxView(a + b, codec) == Fold(IdxView(a, codec), Lines(b), codec.idx)
  {
    LinesAppend(a, b);
    BodyAppend(Lines(a), Lines(b));
    FoldAppend(NOTHING, Body(Lines(a)), Lines(b), codec.idx);
  }

  /** The index has a header of version 1 that says the log's size, or, while a writer
      is alive, less than that. */
  ghost predicate Trusted(idx: string, size: nat, alive: bool, codec: Codec) {
    exists h: nat :: HeaderAt(Lines(idx), h) &&
      match codec.header(Lines(idx)[h])
      case None => false
      case Some(Header(version, jsonlSize)) => version == 1 && (jsonlSize == size || (alive && jsonlSize < size))
  }

  lemma UsableIsTrusted(idx: string, size: nat, alive: bool, codec: Codec)
    ensures Usable(idx, size, alive, codec) <==> Trusted(idx, size, alive, codec)
  {
    hide Lines;
    if HasHeader(Lines(idx)) {
      var h := HeaderExists(Lines(idx));
      HeaderIsFirst(Lines(idx), h);
      assert forall g: nat :: HeaderAt(Lines(idx), g) ==> g == h;
    } else {
      assert forall g: nat :: !HeaderAt(Lines(idx), g);
    }
  }

  // --- reading an index ----------------------------------------------------------------

  /** The deduplicated entries of an index, unless the log must be read instead. */
  method ReadStepsFromIdx(idx: Option<string>, jsonl: Option<string>, alive: bool, codec: Codec)
    returns (ok: bool, entries: seq<StepEntry>, total: nat, parseErrors: nat)
    ensures ok <==> jsonl.Some? && idx.Some? && Usable(idx.value, |jsonl.value|, alive, codec)
    ensures ok <==> jsonl.Some? && idx.Some? && Trusted(idx.value, |jsonl.value|, alive, codec)
    ensures ok ==> var v := IdxView(idx.value, codec);
                   WellFormed(v) && entries == Entries(v) && total == v.total && parseErrors == v.parseErrors
    ensures ok ==> IdxTells(idx.value, entries, total, parseErrors, codec)
  {
    hide Trusted, IdxTells, Blank, Lines;
    ok, entries, total, parseErrors := false, [], 0, 0;
    if jsonl.None? || idx.None? { return; }
    UsableIsTrusted(idx.value, |jsonl.value|, alive, codec);
    var lines := Lines(idx.value);
    var i := 0;
    while i < |lines| && Blank(lines[i])
      invariant i <= |lines| && forall j :: 0 <= j < i ==> Blank(lines[j])
      invariant HasHeader(lines) <==> HasHeader(lines[i..])
      invariant HasHeader(lines) ==> HeaderLine(lines) == HeaderLine(lines[i..])
      invariant Body(lines) == Body(lines[i..])
    {
      assert lines[i..][0] == lines[i] && lines[i..][1..] == lines[i + 1..];
      SkipBlank(lines[i..]);
      i := i + 1;
    }
    if i == |lines| { return; }
    assert lines[i..][0] == lines[i] && lines[i..][1..] == lines[i + 1..];
    assert HasHeader(lines) && HeaderLine(lines) == lines[i];
    var h := codec.header(lines[i]);
    if h.None? || h.value.version != 1 || h.value.jsonlSize > |jsonl.value| { return; }
    if h.value.jsonlSize < |jsonl.value| && !alive { return; }
    var v := NOTHING;
    ghost var body := lines[i + 1..];
    for k := i + 1 to |lines|
      invariant Fold(v, lines[k..], codec.idx) == Fold(NOTHING, body, codec.idx) && WellFormed(v)
    {
      assert lines[k..][0] == lines[k] && lines[k..][1..] == lines[k + 1..];
      AddKeepsWellFormed(v, lines[k], codec.idx);
      v := AddLine(v, lines[k], codec.idx);
    }
    ok, entries, total, parseErrors := true, Entries(v), v.total, v.parseErrors;
    IndexTells(idx.value, codec);
  }

  lemma SkipBlank(lines: seq<string>)
    requires lines != [] && Blank(lines[0])
    ensures HasHeader(lines) <==> HasHeader(lines[1..])
  {
    if i :| 0 <= i < |lines| && !Blank(lines[i]) {
      assert !Blank(lines[1..][i - 1]);
    }
    if i :| 0 <= i < |lines[1..]| && !Blank(lines[1..][i]) {
      assert !Blank(lines[i + 1]);
    }
  }

  // --- rebuilding it ---------------------------------------------------------------------

  /** One index line for every readable line of the log. */
  function IndexOf(lines: seq<string>, codec: Codec): string {
    if lines == [] then []
    else if Blank(lines[0]) || codec.light(lines[0]).None? then IndexOf(lines[1..], codec)
    else codec.render(codec.light(lines[0]).value) + ['\n'] + IndexOf(lines[1..], codec)
  }

  ghost function Rebuilt(jsonl: string, codec: Codec): string {
    codec.renderHeader(|jsonl|) + ['\n'] + IndexOf(Lines(jsonl), codec)
  }

  lemma {:induction false} IndexOfAligned(lines: seq<string>, codec: Codec)
    ensures Aligned(IndexOf(lines, codec))
  {
    if lines != [] {
      IndexOfAligned(lines[1..], codec);
    }
  }

  lemma {:induction false} LineEndOf(s: string, rest: string)
    requires forall i :: 0 <= i < |s| ==> s[i] != '\n'
    ensures LineEnd(s + ['\n'] + rest) == |s| + 1
    decreases |s|
  {
    var t := s + ['\n'] + rest;
    if s != [] {
      LineEndOf(s[1..], rest);
      assert t[1..] == s[1..] + ['\n'] + rest;
    }
  }

  lemma LinesOfOneMore(s: string, rest: string)
    requires OneLine(s)
    ensures Lines(s + ['\n'] + rest) == [s + ['\n']] + Lines(rest)
    ensures !Blank(s + ['\n'])
  {
    var t := s + ['\n'] + rest;
    LineEndOf(s, rest);
    assert t[..|s| + 1] == s + ['\n'] && t[|s| + 1..] == rest;
    var i :| 0 <= i < |s| && !IsSpace(s[i]);
    assert !IsSpace((s + ['\n'])[i]);
  }

  lemma {:induction false} IndexOfView(v: View, w: View, lines: seq<string>, codec: Codec)
    requires codec.Sound() && w == v.(parseErrors := 0)
    ensures Fold(w, Lines(IndexOf(lines, codec)), codec.idx) == Fold(v, lines, codec.light).(parseErrors := 0)
    decreases |lines|
  {
    if lines != [] {
      var line := lines[0];
      if Blank(line) || codec.light(line).None? {
        IndexOfView(AddLine(v, line, codec.light), w, lines[1..], codec);
      } else {
        var e := codec.light(line).value;
        var text, rest := codec.render(e), IndexOf(lines[1..], codec);
        LinesOfOneMore(text, rest);
        var ls := Lines(text + ['\n'] + rest);
        assert ls[0] == text + ['\n'] && ls[1..] == Lines(rest);
        assert AddLine(w, ls[0], codec.idx) == AddEntry(w, e);
        IndexOfView(AddEntry(v, e), AddEntry(w, e), lines[1..], codec);
      }
    }
  }

  /** A rebuilt index may stand for its log whether or not a writer is alive, and
      gives the log's view -- except that malformed lines are forgotten. */
  lemma RebuiltIsFaithful(jsonl: string, alive: bool, codec: Codec)
    requires codec.Sound()
    ensures Usable(Rebuilt(jsonl, codec), |jsonl|, alive, codec)
    ensures IdxView(Rebuilt(jsonl, codec), codec) == FileView(jsonl, codec.light).(parseErrors := 0)
    ensures Coarse(IdxView(Rebuilt(jsonl, codec), codec)) == FileView(jsonl, codec.full) <==>
              FileView(jsonl, codec.full).parseErrors == 0
  {
    var text, rest := codec.renderHeader(|jsonl|), IndexOf(Lines(jsonl), codec);
    LinesOfOneMore(text, rest);
    var ls := Lines(Rebuilt(jsonl, codec));
    assert ls[0] == text + ['\n'] && ls[1..] == Lines(rest);
    assert !Blank(ls[0]);
    IndexOfView(NOTHING, NOTHING, Lines(jsonl), codec);
    CoarseFold(NOTHING, Lines(jsonl), codec.light, codec.full);
    assert Coarse(NOTHING).last == map[];
  }

  /** Writes a new index for a log nobody appends to any more. */
  method RebuildIdx(jsonl: string, codec: Codec) returns (idx: string)
    ensures idx == Rebuilt(jsonl, codec)
  {
    idx := codec.renderHeader(|jsonl|) + ['\n'];
    var rest := jsonl;
    while rest != []
      invariant idx + IndexOf(Lines(rest), codec) == Rebuilt(jsonl, codec)
      decreases |rest|
    {
      var n := LineEnd(rest);
      var line := rest[..n];
      assert Lines(rest)[0] == line && Lines(rest)[1..] == Lines(rest[n..]);
      if !Blank(line) {
        var e := codec.light(line);
        if e.Some? {
          assert idx + (codec.render(e.value) + ['\n'] + IndexOf(Lines(rest[n..]), codec)) ==
                 idx + (codec.render(e.value) + ['\n']) + IndexOf(Lines(rest[n..]), codec);
          idx := idx + (codec.render(e.value) + ['\n']);
        }
      }
      rest := rest[n..];
    }
  }

  // --- what an index covers ----------------------------------------------------------------

  /** The same steps in the same order with the same number of records, durations to
      the microsecond; malformed lines are not compared. */
  ghost predicate SameRecords(w: View, v: View) {
    Coarse(w).last == v.last && w.order == v.order && w.total == v.total
  }

  /** The index holds the records of the log but for `missing` of them. */
  ghost predicate Mirrors(jsonl: string, idx: string, missing: nat, codec: Codec) {
    var w, v := IdxView(idx, codec), FileView(jsonl, codec.full);
    && HasHeader(Lines(idx)) && w.parseErrors == 0
    && v.total == w.total + missing
    && (missing == 0 ==> SameRecords(w, v))
  }

  lemma RebuiltMirrors(jsonl: string, codec: Codec)
    requires codec.Sound()
    ensures Mirrors(jsonl, Rebuilt(jsonl, codec), 0, codec)
  {
    RebuiltIsFaithful(jsonl, false, codec);
    CoarseFold(NOTHING, Lines(jsonl), codec.light, codec.full);
    assert Coarse(NOTHING).last == map[];
  }

  lemma {:induction false} OrderWithinTotal(v: View, lines: seq<string>, parse: Parser)
    requires |v.order| <= v.total
    ensures |Fold(v, lines, parse).order| <= Fold(v, lines, parse).total
    decreases |lines|
  {
    if lines != [] { OrderWithinTotal(AddLine(v, lines[0], parse), lines[1..], parse); }
  }

  /** A log without a readable record shows nothing. */
  lemma NoRecords(jsonl: string, parse: Parser)
    requires FileView(jsonl, parse).total == 0
    ensures FileView(jsonl, parse).last == map[] && FileView(jsonl, parse).order == []
  {
    OrderWithinTotal(NOTHING, Lines(jsonl), parse);
    FoldWellFormed(NOTHING, Lines(jsonl), parse);
    var v := FileView(jsonl, parse);
    assert forall k :: k in v.last ==> k in v.order;
    assert v.last.Keys == {};
  }

  /** What a writer starts an index with: the size of the log as it finds it, and
      not one of the records that log may hold. */
  function Fresh(jsonl: string, codec: Codec): string {
    codec.renderHeader(|jsonl|) + ['\n']
  }

  /** An index just begun may stand for its log, alive or dead, and shows nothing,
      whatever the log holds. */
  lemma FreshShowsNothing(jsonl: string, alive: bool, codec: Codec)
    requires codec.Sound()
    ensures Aligned(Fresh(jsonl, codec)) && NoBlank(Lines(Fresh(jsonl, codec)))
    ensures Usable(Fresh(jsonl, codec), |jsonl|, alive, codec)
    ensures IdxView(Fresh(jsonl, codec), codec) == NOTHING
    ensures Mirrors(jsonl, Fresh(jsonl, codec), FileView(jsonl, codec.full).total, codec)
  {
    var text := codec.renderHeader(|jsonl|);
    LinesOfOneMore(text, []);
    assert text + ['\n'] + [] == Fresh(jsonl, codec);
    assert Lines(Fresh(jsonl, codec)) == [text + ['\n']];
    assert [text + ['\n']][1..] == [] && !Blank([text + ['\n']][0]);
    if FileView(jsonl, codec.full).total == 0 {
      NoRecords(jsonl, codec.full);
      assert Coarse(NOTHING).last == map[];
    }
  }

  lemma MicrosTwice(ns: int)
    ensures Micros(Micros(ns)) == Micros(ns)
  {
    var m := if ns >= 0 then ns / 1000 else (-ns) / 1000;
    assert m * 1000 / 1000 == m;
  }

  lemma FullEntryIsCoarse(line: string, e: StepEntry, codec: Codec)
    requires Refines(codec.light, codec.full) && codec.full(line) == Some(e)
    ensures CoarseEntry(e) == e
  {
    hide Micros;
    assert codec.light(line) == codec.light(line);
    MicrosTwice(codec.light(line).value.durationNs);
  }

  /** A live writer appends a record to the log and its summary to the index: the
      index goes on missing exactly what it missed. */
  lemma MirrorKept(jsonl: string, idx: string, line: string, e: StepEntry, missing: nat, codec: Codec)
    requires codec.Sound() && Aligned(jsonl) && Aligned(idx) && Mirrors(jsonl, idx, missing, codec)
    requires OneLine(line) && codec.full(line + ['\n']) == Some(e)
    ensures Mirrors(jsonl + (line + ['\n']), idx + (codec.render(e) + ['\n']), missing, codec)
  {
    var text := codec.render(e);
    IdxViewAppend(idx, text + ['\n'], codec);
    FileViewAppend(jsonl, line + ['\n'], codec.full);
    LinesOfOneMore(text, []);
    LinesOfOneMore(line, []);
    assert text + ['\n'] + [] == text + ['\n'] && line + ['\n'] + [] == line + ['\n'];
    assert Lines(text + ['\n']) == [text + ['\n']] && Lines(line + ['\n']) == [line + ['\n']];
    FullEntryIsCoarse(line + ['\n'], e, codec);
    var w := IdxView(idx, codec);
    assert Coarse(AddEntry(w, e)).last == Coarse(w).last[e.step := e];
  }

  /** The log after these lines have been appended. */
  function Appended(jsonl: string, lines: seq<string>): string {
    if lines == [] then jsonl else Appended(jsonl, lines[..|lines| - 1]) + (lines[|lines| - 1] + ['\n'])
  }

  ghost predicate IsRecord(line: string, codec: Codec) {
    OneLine(line) && codec.full(line + ['\n']).Some?
  }

  lemma OneMoreRecord(jsonl: string, idx: string, missing: nat, line: string, codec: Codec)
    requires Aligned(jsonl) && IsRecord(line, codec) && Mirrors(jsonl, idx, missing, codec)
    ensures Aligned(jsonl + (line + ['\n'])) && Mirrors(jsonl + (line + ['\n']), idx, missing + 1, codec)
  {
    FileViewAppend(jsonl, line + ['\n'], codec.full);
    LinesOfOneMore(line, []);
    assert line + ['\n'] + [] == line + ['\n'];
    assert Lines(line + ['\n']) == [line + ['\n']];
  }

  /** A rebuild that replaces the index under a live writer: the writer goes on in the
      file that is gone, and the index that stands, still usable, lacks every record
      written from then on. */
  lemma {:induction false} LateRebuildFallsBehind(jsonl: string, lines: seq<string>, codec: Codec)
    requires codec.Sound() && Aligned(jsonl) && forall i :: 0 <= i < |lines| ==> IsRecord(lines[i], codec)
    ensures var idx, log := Rebuilt(jsonl, codec), Appended(jsonl, lines);
            && Aligned(log) && |jsonl| <= |log| && Usable(idx, |log|, true, codec) && Mirrors(log, idx, |lines|, codec)
    decreases |lines|
  {
    hide Mirrors, IsRecord, Codec.Sound, Aligned, Rebuilt;
    if lines == [] {
      RebuiltIsFaithful(jsonl, true, codec);
      RebuiltMirrors(jsonl, codec);
    } else {
      var n := |lines| - 1;
      LateRebuildFallsBehind(jsonl, lines[..n], codec);
      OneMoreRecord(Appended(jsonl, lines[..n]), Rebuilt(jsonl, codec), n, lines[n], codec);
    }
  }
}
