/** Step logs as text: how a file splits into lines, what folding its lines gives,
    and what appending to it does to that. */
module StepLog {
  datatype Option<T> = None | Some(value: T)

  datatype StepEntry = StepEntry(step: int, action: string, summary: string, toolPath: string, hasError: bool,
                                 durationNs: int, tokenCount: int, timestampMs: int)

  datatype Header = Header(version: int, jsonlSize: int)

  // --- lines --------------------------------------------------------------------------

  /** The length of the first line of a nonempty text, its newline included. */
  function LineEnd(s: string): (n: nat)
    requires s != []
    ensures 1 <= n <= |s|
  {
    if s[0] == '\n' || |s| == 1 then 1 else 1 + LineEnd(s[1..])
  }

  /** Lines with their newlines; the last one may lack it. */
  function Lines(s: string): seq<string> {
    if s == [] then [] else [s[..LineEnd(s)]] + Lines(s[LineEnd(s)..])
  }

  /** White space as Unicode has it. */
  predicate IsSpace(c: char) {
    || c == ' ' || '\t' <= c <= '\r' || c == '\U{85}' || c == '\U{a0}' || c == '\U{1680}'
    || '\U{2000}' <= c <= '\U{200a}' || c == '\U{2028}' || c == '\U{2029}' || c == '\U{202f}' || c == '\U{205f}'
    || c == '\U{3000}'
  }

  predicate Blank(line: string) {
    forall i :: 0 <= i < |line| ==> IsSpace(line[i])
  }

  predicate Aligned(s: string) {
    s == [] || s[|s| - 1] == '\n'
  }

  predicate NoBlank(lines: seq<string>) {
    forall i :: 0 <= i < |lines| ==> !Blank(lines[i])
  }

  /** The bytes of the lines a scan hands out. */
  function Consumed(lines: seq<string>): nat {
    if lines == [] then 0 else (if Blank(lines[0]) then 0 else |lines[0]|) + Consumed(lines[1..])
  }

  lemma {:induction false} AlignedLineEnd(a: string, b: string)
    requires a != [] && Aligned(a)
    ensures LineEnd(a + b) == LineEnd(a)
    decreases |a|
  {
    assert (a + b)[0] == a[0];
    if a[0] != '\n' && |a| > 1 {
      assert (a + b)[1..] == a[1..] + b;
      AlignedLineEnd(a[1..], b);
    }
  }

  lemma CutFirstLine(a: string, b: string)
    requires a != [] && Aligned(a)
    ensures (a + b)[..LineEnd(a)] == a[..LineEnd(a)]
    ensures (a + b)[LineEnd(a)..] == a[LineEnd(a)..] + b && Aligned(a[LineEnd(a)..])
  {
    hide LineEnd;
  }

  function Joined(lines: seq<string>): string {
    if lines == [] then [] else lines[0] + Joined(lines[1..])
  }

  /** A line is not empty, and has no newline but at its end. */
  predicate IsLine(line: string) {
    line != [] && forall i :: 0 <= i < |line| - 1 ==> line[i] != '\n'
  }

  lemma {:induction false} FirstLineIsLine(s: string)
    requires s != []
    ensures IsLine(s[..LineEnd(s)]) && (LineEnd(s) == |s| || s[LineEnd(s) - 1] == '\n')
    decreases |s|
  {
    if s[0] != '\n' && |s| > 1 {
      FirstLineIsLine(s[1..]);
      var line, rest := s[..LineEnd(s)], s[1..][..LineEnd(s[1..])];
      assert line == [s[0]] + rest;
      assert forall i :: 0 < i < |line| ==> line[i] == rest[i - 1];
    }
  }

  /** The lines of a text make it up, and every line but the last ends in a newline. */
  lemma {:induction false} LinesMakeUp(s: string)
    ensures Joined(Lines(s)) == s && AreLines(Lines(s))
    decreases |s|
  {
    if s == [] {
    } else {
      var line, rest := s[..LineEnd(s)], s[LineEnd(s)..];
      FirstLineIsLine(s);
      LinesMakeUp(rest);
      LinesUnfold(s);
      hide Lines, LineEnd, IsLine;
      assert s == line + rest;
      if rest == [] { NoTextNoLines(); }
      OneMoreLine(line, Lines(rest));
    }
  }

  /** Every line but the last ends in a newline. */
  predicate AreLines(lines: seq<string>) {
    && (forall i :: 0 <= i < |lines| ==> IsLine(lines[i]))
    && (forall i :: 0 <= i < |lines| - 1 ==> Ended(lines[i]))
  }

  predicate Ended(line: string) {
    line != [] && line[|line| - 1] == '\n'
  }

  lemma OneMoreLine(line: string, rest: seq<string>)
    requires IsLine(line) && AreLines(rest) && (rest != [] ==> Ended(line))
    ensures AreLines([line] + rest) && Joined([line] + rest) == line + Joined(rest)
  {
    hide IsLine, Ended;
    assert ([line] + rest)[1..] == rest;
  }

  lemma NoTextNoLines()
    ensures Lines([]) == []
  {
  }

  lemma LinesUnfold(s: string)
    requires s != []
    ensures Lines(s) == [s[..LineEnd(s)]] + Lines(s[LineEnd(s)..])
  {
  }

  /** Appending to a file of whole lines appends to its lines. */
  lemma {:induction false} LinesAppend(a: string, b: string)
    requires Aligned(a)
    ensures Lines(a + b) == Lines(a) + Lines(b)
    decreases |a|
  {
    hide Lines, LineEnd, Aligned;
    if a == [] {
      assert a + b == b;
      NoTextNoLines();
    } else {
      AlignedLineEnd(a, b);
      CutFirstLine(a, b);
      LinesAppend(a[LineEnd(a)..], b);
      LinesUnfold(a);
      LinesUnfold(a + b);
    }
  }

  lemma {:induction false} ConsumedAll(s: string)
    ensures Consumed(Lines(s)) <= |s|
    ensures Consumed(Lines(s)) == |s| <==> NoBlank(Lines(s))
    decreases |s|
  {
    if s != [] {
      var n := LineEnd(s);
      ConsumedAll(s[n..]);
      var first, rest := s[..n], Lines(s[n..]);
      assert Lines(s)[0] == first && Lines(s)[1..] == rest;
      assert NoBlank(Lines(s)) <==> !Blank(first) && NoBlank(rest) by {
        assert forall i :: 0 <= i < |rest| ==> rest[i] == Lines(s)[i + 1];
        assert forall i :: 0 < i < |Lines(s)| ==> Lines(s)[i] == rest[i - 1];
      }
    }
  }

  // --- the fold -----------------------------------------------------------------------

  /** Entries by step, steps in first-seen order, and the record and error counts. */
  datatype View = View(last: map<int, StepEntry>, order: seq<int>, total: nat, parseErrors: nat)

  const NOTHING := View(map[], [], 0, 0)

  type Parser = string -> Option<StepEntry>

  function AddEntry(v: View, e: StepEntry): View {
    View(v.last[e.step := e], if e.step in v.last then v.order else v.order + [e.step], v.total + 1, v.parseErrors)
  }

  function AddLine(v: View, line: string, parse: Parser): View {
    if Blank(line) then v
    else match parse(line)
         case None => v.(parseErrors := v.parseErrors + 1)
         case Some(e) => AddEntry(v, e)
  }

  function Fold(v: View, lines: seq<string>, parse: Parser): View
    decreases |lines|
  {
    if lines == [] then v else Fold(AddLine(v, lines[0], parse), lines[1..], parse)
  }

  /** The view of a whole file. */
  function FileView(s: string, parse: Parser): View {
    Fold(NOTHING, Lines(s), parse)
  }

  lemma FirstLine(v: View, s: string, parse: Parser)
    requires s != []
    ensures var line, rest := s[..LineEnd(s)], s[LineEnd(s)..];
            && Fold(v, Lines(s), parse) == Fold(AddLine(v, line, parse), Lines(rest), parse)
            && Consumed(Lines(s)) == (if Blank(line) then 0 else |line|) + Consumed(Lines(rest))
            && (Blank(line) ==> AddLine(v, line, parse) == v)
  {
    hide Blank;
    assert Lines(s)[0] == s[..LineEnd(s)] && Lines(s)[1..] == Lines(s[LineEnd(s)..]);
  }

  lemma NoLines(v: View, parse: Parser)
    ensures Fold(v, Lines([]), parse) == v && Consumed(Lines([])) == 0
  {
  }

  lemma {:induction false} FoldAppend(v: View, a: seq<string>, b: seq<string>, parse: Parser)
    ensures Fold(v, a + b, parse) == Fold(Fold(v, a, parse), b, parse)
    decreases |a|
  {
    if a == [] {
      assert a + b == b;
    } else {
      assert (a + b)[0] == a[0] && (a + b)[1..] == a[1..] + b;
      FoldAppend(AddLine(v, a[0], parse), a[1..], b, parse);
    }
  }

  /** Folding what was appended on top of the old view gives the new file's view. */
  lemma FileViewAppend(a: string, b: string, parse: Parser)
    requires Aligned(a)
    ensures FileView(a + b, parse) == Fold(FileView(a, parse), Lines(b), parse)
  {
    LinesAppend(a, b);
    FoldAppend(NOTHING, Lines(a), Lines(b), parse);
  }

  // --- views are deduplicated lists -------------------------------------------------

  ghost predicate WellFormed(v: View) {
    && (forall i :: 0 <= i < |v.order| ==> v.order[i] in v.last)
    && (forall k :: k in v.last ==> k in v.order && v.last[k].step == k)
    && (forall i, j :: 0 <= i < j < |v.order| ==> v.order[i] != v.order[j])
  }

  lemma AddKeepsWellFormed(v: View, line: string, parse: Parser)
    requires WellFormed(v)
    ensures WellFormed(AddLine(v, line, parse))
  {
    var w := AddLine(v, line, parse);
    forall k | k in w.last ensures k in w.order {
      if k in v.last { assert k in v.order; }
    }
  }

  lemma {:induction false} FoldWellFormed(v: View, lines: seq<string>, parse: Parser)
    requires WellFormed(v)
    ensures WellFormed(Fold(v, lines, parse))
    decreases |lines|
  {
    if lines != [] {
      AddKeepsWellFormed(v, lines[0], parse);
      FoldWellFormed(AddLine(v, lines[0], parse), lines[1..], parse);
    }
  }

  /** The entries in first-seen order. */
  function Entries(v: View): seq<StepEntry>
    requires forall i :: 0 <= i < |v.order| ==> v.order[i] in v.last
  {
    seq(|v.order|, i requires 0 <= i < |v.order| => v.last[v.order[i]])
  }

  // --- durations ----------------------------------------------------------------------

  /** A full read keeps durations to the microsecond, a light one to the
      nanosecond; the quotient truncates toward zero. */
  function Micros(ns: int): int {
    if ns >= 0 then ns / 1000 * 1000 else -((-ns) / 1000 * 1000)
  }

  /** The whole microseconds, in nanoseconds. */
  lemma MicrosAreWhole(ns: int)
    ensures Micros(ns) % 1000 == 0
    ensures ns >= 0 ==> 0 <= Micros(ns) <= ns < Micros(ns) + 1000
    ensures ns <= 0 ==> Micros(ns) - 1000 < ns <= Micros(ns) <= 0
  {
    var m := if ns >= 0 then ns / 1000 else -((-ns) / 1000);
    assert Micros(ns) == m * 1000;
  }

  function CoarseEntry(e: StepEntry): StepEntry {
    e.(durationNs := Micros(e.durationNs))
  }

  function Coarse(v: View): View {
    v.(last := map k | k in v.last :: CoarseEntry(v.last[k]))
  }

  /** A full read yields what a light one does, with coarser durations. */
  ghost predicate Refines(light: Parser, full: Parser) {
    forall line {:trigger light(line)} {:trigger full(line)} ::
      full(line) == if light(line).None? then None else Some(CoarseEntry(light(line).value))
  }

  lemma CoarseLine(v: View, line: string, light: Parser, full: Parser)
    requires Refines(light, full)
    ensures Coarse(AddLine(v, line, light)) == AddLine(Coarse(v), line, full)
  {
    assert light(line) == light(line);
    if !Blank(line) && light(line).Some? {
      var e := light(line).value;
      assert Coarse(AddEntry(v, e)).last == Coarse(v).last[e.step := CoarseEntry(e)];
    }
  }

  lemma {:induction false} CoarseFold(v: View, lines: seq<string>, light: Parser, full: Parser)
    requires Refines(light, full)
    ensures Coarse(Fold(v, lines, light)) == Fold(Coarse(v), lines, full)
    decreases |lines|
  {
    if lines != [] {
      CoarseLine(v, lines[0], light, full);
      CoarseFold(AddLine(v, lines[0], light), lines[1..], light, full);
    }
  }

  /** What a full read yields is already coarse. */
  lemma {:induction false} FullIsCoarse(v: View, lines: seq<string>, light: Parser, full: Parser)
    requires Refines(light, full) && Coarse(v) == v
    ensures Coarse(Fold(v, lines, full)) == Fold(v, lines, full)
    decreases |lines|
  {
    if lines != [] {
      CoarseLine(v, lines[0], light, full);
      CoarseStays(v, lines[0], light, full);
      FullIsCoarse(AddLine(v, lines[0], full), lines[1..], light, full);
    }
  }

  lemma CoarseStays(v: View, line: string, light: Parser, full: Parser)
    requires Refines(light, full) && Coarse(v) == v
    ensures Coarse(AddLine(v, line, full)) == AddLine(v, line, full)
  {
    assert full(line) == full(line);
    var w := AddLine(v, line, full);
    forall k | k in w.last ensures CoarseEntry(w.last[k]) == w.last[k] {
      if k in v.last { assert Coarse(v).last[k] == CoarseEntry(v.last[k]); }
    }
    assert Coarse(w).last == w.last;
  }

  // --- where agreement ends ---------------------------------------------------------------

  /** How many records and malformed lines a view has counted. */
  function Counted(v: View): nat {
    v.total + v.parseErrors
  }

  predicate OneFragment(x: string) {
    forall i :: 0 <= i < |x| ==> x[i] != '\n'
  }

  /** What is appended to an unfinished line continues it. */
  lemma {:induction false} LineContinues(x: string, b: string)
    requires OneFragment(x) && b != []
    ensures LineEnd(x + b) == |x| + LineEnd(b)
    decreases |x|
  {
    if x == [] {
      assert x + b == b;
    } else {
      assert (x + b)[1..] == x[1..] + b;
      LineContinues(x[1..], b);
    }
  }

  lemma BlankConcat(x: string, y: string)
    ensures Blank(x + y) <==> Blank(x) && Blank(y)
  {
    if Blank(x + y) {
      forall i | 0 <= i < |x| ensures IsSpace(x[i]) { assert IsSpace((x + y)[i]); }
      forall i | 0 <= i < |y| ensures IsSpace(y[i]) { assert IsSpace((x + y)[|x| + i]); }
    }
  }

  lemma FragmentLines(x: string, b: string)
    requires OneFragment(x) && b != []
    ensures var y, rest := b[..LineEnd(b)], Lines(b[LineEnd(b)..]);
            && Lines(b) == [y] + rest && Lines(x + b) == [x + y] + rest
            && Lines(x) == if x == [] then [] else [x]
  {
    LineContinues(x, b);
    if x != [] { OnlyLine(x); }
    assert (x + b)[..|x| + LineEnd(b)] == x + b[..LineEnd(b)];
    assert (x + b)[|x| + LineEnd(b)..] == b[LineEnd(b)..];
  }

  /** A log that ends in an unfinished line, read and then read on: whatever the
      parser, one record or malformed line too many is counted exactly if both the
      part already read and the part that finishes it are more than blank.  A record
      of which neither part can be read is lost. */
  lemma TornLineIsLost(a: string, x: string, b: string, parse: Parser)
    requires Aligned(a) && OneFragment(x) && b != []
    ensures var torn, whole := Fold(FileView(a + x, parse), Lines(b), parse), FileView(a + (x + b), parse);
            var y := b[..LineEnd(b)];
            && Counted(torn) == Counted(whole) + (if !Blank(x) && !Blank(y) then 1 else 0)
            && (!Blank(x) && !Blank(y) && parse(x).None? && parse(y).None? && parse(x + y).Some? ==>
                  torn.total == whole.total - 1 && torn.parseErrors == whole.parseErrors + 2)
  {
    var y, rest := b[..LineEnd(b)], Lines(b[LineEnd(b)..]);
    FragmentLines(x, b);
    BlankConcat(x, y);
    hide Lines, LineEnd, FileView, Blank;
    FileViewAppend(a, x, parse);
    FileViewAppend(a, x + b, parse);
    var v := FileView(a, parse);
    assert Blank([]) by { NothingIsBlank(); }
    var torn := AddLine(if x == [] then v else AddLine(v, x, parse), y, parse);
    var whole := AddLine(v, x + y, parse);
    assert Fold(v, Lines(x), parse) == if x == [] then v else AddLine(v, x, parse);
    FoldOne(Fold(v, Lines(x), parse), y, rest, parse);
    FoldOne(v, x + y, rest, parse);
    FoldSums(torn, rest, parse);
    FoldSums(whole, rest, parse);
    if x == [] { assert x + y == y; }
  }

  lemma NothingIsBlank()
    ensures Blank([])
  {
  }

  lemma FoldOne(v: View, line: string, rest: seq<string>, parse: Parser)
    ensures Fold(v, [line] + rest, parse) == Fold(AddLine(v, line, parse), rest, parse)
  {
    assert ([line] + rest)[1..] == rest;
  }

  /** Of the lines of a fold, which are records and which are malformed does not
      depend on the view it starts from. */
  lemma {:induction false} FoldSums(v: View, lines: seq<string>, parse: Parser)
    ensures Fold(v, lines, parse).total == v.total + Fold(NOTHING, lines, parse).total
    ensures Fold(v, lines, parse).parseErrors == v.parseErrors + Fold(NOTHING, lines, parse).parseErrors
    decreases |lines|
  {
    if lines != [] {
      FoldSums(AddLine(v, lines[0], parse), lines[1..], parse);
      FoldSums(AddLine(NOTHING, lines[0], parse), lines[1..], parse);
    }
  }

  lemma {:induction false} OnlyLine(s: string)
    requires s != [] && forall i :: 0 <= i < |s| - 1 ==> s[i] != '\n'
    ensures LineEnd(s) == |s| && Lines(s) == [s]
    decreases |s|
  {
    if |s| > 1 {
      OnlyLine(s[1..]);
    }
    assert s[..|s|] == s;
  }
}
