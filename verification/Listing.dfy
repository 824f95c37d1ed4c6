/** What a list of the steps in a log is: said of the lines and the parser alone. */
module Listing {
  import opened StepLog

  /** Line `i` can be read, and its step is `k`. */
  predicate Records(lines: seq<string>, i: int, k: int, parse: Parser) {
    0 <= i < |lines| && !Blank(lines[i]) && parse(lines[i]).Some? && parse(lines[i]).value.step == k
  }

  /** Line `i` is the last one of its step, and holds `e`. */
  ghost predicate LastAt(lines: seq<string>, i: int, e: StepEntry, parse: Parser) {
    && Records(lines, i, e.step, parse) && parse(lines[i]) == Some(e)
    && forall j :: i < j < |lines| ==> !Records(lines, j, e.step, parse)
  }

  ghost predicate LastOf(lines: seq<string>, e: StepEntry, parse: Parser) {
    exists i :: LastAt(lines, i, e, parse)
  }

  /** Step `k` is recorded before step `l` is for the first time. */
  ghost predicate Before(lines: seq<string>, k: int, l: int, parse: Parser) {
    forall j :: Records(lines, j, l, parse) ==> exists i :: i < j && Records(lines, i, k, parse)
  }

  predicate CanBeRead(line: string, parse: Parser) {
    !Blank(line) && parse(line).Some?
  }

  predicate CannotBeRead(line: string, parse: Parser) {
    !Blank(line) && parse(line).None?
  }

  function Readable(lines: seq<string>, parse: Parser): set<nat> {
    set i: nat | i < |lines| && CanBeRead(lines[i], parse)
  }

  function Malformed(lines: seq<string>, parse: Parser): set<nat> {
    set i: nat | i < |lines| && CannotBeRead(lines[i], parse)
  }

  /** `entries` holds of every step recorded the last record, in the order in which
      the steps were first recorded. */
  ghost predicate Lists(lines: seq<string>, entries: seq<StepEntry>, parse: Parser) {
    && (forall a :: 0 <= a < |entries| ==> LastOf(lines, entries[a], parse))
    && (forall i, k :: Records(lines, i, k, parse) ==> exists a :: 0 <= a < |entries| && entries[a].step == k)
    && (forall a, b :: 0 <= a < b < |entries| ==>
          entries[a].step != entries[b].step && Before(lines, entries[a].step, entries[b].step, parse))
  }

  /** A list with the number of records and of malformed lines. */
  ghost predicate Tells(lines: seq<string>, entries: seq<StepEntry>, total: nat, parseErrors: nat, parse: Parser) {
    && Lists(lines, entries, parse)
    && total == |Readable(lines, parse)| && parseErrors == |Malformed(lines, parse)|
  }

  /** The same of a view. */
  ghost predicate Law(lines: seq<string>, v: View, parse: Parser) {
    && WellFormed(v)
    && (forall k :: k in v.last ==> LastOf(lines, v.last[k], parse))
    && (forall i, k :: Records(lines, i, k, parse) ==> k in v.last)
    && (forall a, b :: 0 <= a < b < |v.order| ==> Before(lines, v.order[a], v.order[b], parse))
    && v.total == |Readable(lines, parse)| && v.parseErrors == |Malformed(lines, parse)|
  }

  lemma RecordsMore(lines: seq<string>, line: string, i: int, k: int, parse: Parser)
    ensures i < |lines| ==> (Records(lines + [line], i, k, parse) <==> Records(lines, i, k, parse))
    ensures Records(lines + [line], |lines|, k, parse) <==>
              !Blank(line) && parse(line).Some? && parse(line).value.step == k
  {
  }

  lemma ReadableMore(lines: seq<string>, line: string, parse: Parser)
    ensures |Readable(lines + [line], parse)| == |Readable(lines, parse)| + if CanBeRead(line, parse) then 1 else 0
  {
    hide CanBeRead;
    var n, more, before := |lines|, lines + [line], Readable(lines, parse);
    assert forall i: nat :: i < n ==> more[i] == lines[i];
    if CanBeRead(line, parse) {
      assert Readable(more, parse) == before + {n};
    } else {
      assert Readable(more, parse) == before;
    }
  }

  lemma MalformedMore(lines: seq<string>, line: string, parse: Parser)
    ensures |Malformed(lines + [line], parse)| == |Malformed(lines, parse)| + if CannotBeRead(line, parse) then 1 else 0
  {
    hide CannotBeRead;
    var n, more, before := |lines|, lines + [line], Malformed(lines, parse);
    assert forall i: nat :: i < n ==> more[i] == lines[i];
    if CannotBeRead(line, parse) {
      assert Malformed(more, parse) == before + {n};
    } else {
      assert Malformed(more, parse) == before;
    }
  }

  /** A later record of a step takes the place of the earlier ones. */
  lemma LastMore(lines: seq<string>, line: string, e: StepEntry, parse: Parser)
    ensures !Blank(line) && parse(line) == Some(e) ==> LastOf(lines + [line], e, parse)
    ensures LastOf(lines, e, parse) && !Records(lines + [line], |lines|, e.step, parse) ==> LastOf(lines + [line], e, parse)
  {
    hide Blank;
    var more := lines + [line];
    if !Blank(line) && parse(line) == Some(e) {
      assert LastAt(more, |lines|, e, parse);
    }
    if LastOf(lines, e, parse) && !Records(more, |lines|, e.step, parse) {
      var i :| LastAt(lines, i, e, parse);
      forall j | i < j < |more| ensures !Records(more, j, e.step, parse) {
        RecordsMore(lines, line, j, e.step, parse);
      }
      assert LastAt(more, i, e, parse);
    }
  }

  /** A step recorded already stays before the others. */
  lemma BeforeMore(lines: seq<string>, line: string, k: int, l: int, parse: Parser)
    requires Before(lines, k, l, parse) && exists i :: Records(lines, i, k, parse)
    ensures Before(lines + [line], k, l, parse)
  {
    hide Blank;
    var more := lines + [line];
    var i :| Records(lines, i, k, parse);
    forall j | Records(more, j, l, parse) ensures exists i :: i < j && Records(more, i, k, parse) {
      if j < |lines| {
        RecordsMore(lines, line, j, l, parse);
        var h :| h < j && Records(lines, h, k, parse);
        assert Records(more, h, k, parse);
      } else {
        assert i < j && Records(more, i, k, parse);
      }
    }
  }

  lemma AddKeepsLaw(lines: seq<string>, v: View, line: string, parse: Parser)
    requires Law(lines, v, parse)
    ensures Law(lines + [line], AddLine(v, line, parse), parse)
  {
    hide Blank, Readable, Malformed, LastOf, Before, WellFormed;
    var more, w := lines + [line], AddLine(v, line, parse);
    AddKeepsWellFormed(v, line, parse);
    ReadableMore(lines, line, parse);
    MalformedMore(lines, line, parse);
    AddKeepsEntries(lines, v, line, parse);
    AddKeepsOrder(lines, v, line, parse);
  }

  lemma AddKeepsEntries(lines: seq<string>, v: View, line: string, parse: Parser)
    requires Law(lines, v, parse)
    ensures var more, w := lines + [line], AddLine(v, line, parse);
            && (forall k :: k in w.last ==> LastOf(more, w.last[k], parse))
            && (forall i, k :: Records(more, i, k, parse) ==> k in w.last)
  {
    hide Blank, Readable, Malformed, LastOf, Before;
    var more, w := lines + [line], AddLine(v, line, parse);
    forall k | k in w.last ensures LastOf(more, w.last[k], parse) {
      LastMore(lines, line, w.last[k], parse);
      RecordsMore(lines, line, |lines|, k, parse);
    }
    forall i, k | Records(more, i, k, parse) ensures k in w.last {
      RecordsMore(lines, line, i, k, parse);
    }
  }

  lemma AddKeepsOrder(lines: seq<string>, v: View, line: string, parse: Parser)
    requires Law(lines, v, parse)
    ensures var more, w := lines + [line], AddLine(v, line, parse);
            forall a, b :: 0 <= a < b < |w.order| ==> Before(more, w.order[a], w.order[b], parse)
  {
    hide Blank, Readable, Malformed, Before;
    var more, w := lines + [line], AddLine(v, line, parse);
    forall a, b | 0 <= a < b < |w.order| ensures Before(more, w.order[a], w.order[b], parse) {
      var k := v.order[a];
      assert LastOf(lines, v.last[k], parse);
      var i :| LastAt(lines, i, v.last[k], parse);
      assert Records(lines, i, k, parse);
      if b < |v.order| {
        BeforeMore(lines, line, k, v.order[b], parse);
      } else {
        assert forall j :: !Records(lines, j, w.order[b], parse);
        FirstLast(lines, line, i, k, w.order[b], parse);
      }
    }
  }

  lemma FirstLast(lines: seq<string>, line: string, i: int, k: int, l: int, parse: Parser)
    requires Records(lines, i, k, parse) && forall j :: !Records(lines, j, l, parse)
    ensures Before(lines + [line], k, l, parse)
  {
    hide Blank;
    var more := lines + [line];
    forall j | Records(more, j, l, parse) ensures exists i :: i < j && Records(more, i, k, parse) {
      RecordsMore(lines, line, j, l, parse);
      assert i < j && Records(more, i, k, parse);
    }
  }

  /** Whatever the lines and the parser, their fold keeps of every step the last
      record, has the steps in the order in which they were first recorded, and
      counts the records and the malformed lines. */
  lemma {:induction false} FoldIsLawful(lines: seq<string>, parse: Parser)
    ensures Law(lines, Fold(NOTHING, lines, parse), parse)
    decreases |lines|
  {
    hide Blank, LastOf, Before;
    if lines == [] {
      assert Readable([], parse) == {} && Malformed([], parse) == {};
    } else {
      var n := |lines| - 1;
      var init, line := lines[..n], lines[n];
      assert lines == init + [line];
      FoldIsLawful(init, parse);
      AddKeepsLaw(init, Fold(NOTHING, init, parse), line, parse);
      FoldAppend(NOTHING, init, [line], parse);
      FoldOne(Fold(NOTHING, init, parse), line, [], parse);
      assert [line] + [] == [line];
    }
  }

  /** The entries of a lawful view are the list of the lines. */
  lemma LawLists(lines: seq<string>, v: View, parse: Parser)
    requires Law(lines, v, parse)
    ensures Lists(lines, Entries(v), parse)
  {
    hide Records, LastOf, Before, Readable, Malformed;
    var entries := Entries(v);
    assert forall a :: 0 <= a < |entries| ==> v.order[a] in v.last && entries[a] == v.last[v.order[a]];
    assert forall a :: 0 <= a < |entries| ==> entries[a].step == v.order[a];
    forall i, k | Records(lines, i, k, parse) ensures exists a :: 0 <= a < |entries| && entries[a].step == k {
      assert k in v.last && k in v.order;
      var a :| 0 <= a < |v.order| && v.order[a] == k;
      assert entries[a].step == k;
    }
  }

  /** Reading on keeps the law, whatever has been read before. */
  lemma {:induction false} FoldKeepsLaw(before: seq<string>, v: View, lines: seq<string>, parse: Parser)
    requires Law(before, v, parse)
    ensures Law(before + lines, Fold(v, lines, parse), parse)
    decreases |lines|
  {
    hide Law, AddLine;
    if lines == [] {
      assert before + lines == before;
    } else {
      AddKeepsLaw(before, v, lines[0], parse);
      FoldKeepsLaw(before + [lines[0]], AddLine(v, lines[0], parse), lines[1..], parse);
      assert before + [lines[0]] + lines[1..] == before + lines;
    }
  }

  /** What a whole file tells. */
  lemma FileTells(lines: seq<string>, parse: Parser)
    ensures var v := Fold(NOTHING, lines, parse);
            WellFormed(v) && Tells(lines, Entries(v), v.total, v.parseErrors, parse)
  {
    hide Lists, Readable, Malformed;
    FoldIsLawful(lines, parse);
    LawLists(lines, Fold(NOTHING, lines, parse), parse);
  }

  /** Of two steps recorded, one is first. */
  lemma {:induction false} OneIsFirst(lines: seq<string>, j: int, k: int, l: int, parse: Parser)
    requires Before(lines, k, l, parse) && Before(lines, l, k, parse)
    ensures !Records(lines, j, l, parse)
    decreases j
  {
    hide Blank;
    if Records(lines, j, l, parse) {
      var i :| i < j && Records(lines, i, k, parse);
      var h :| h < i && Records(lines, h, l, parse);
      OneIsFirst(lines, h, k, l, parse);
    }
  }

  lemma ListedInBoth(lines: seq<string>, a: seq<StepEntry>, b: seq<StepEntry>, i: nat, parse: Parser)
    requires Lists(lines, a, parse) && Lists(lines, b, parse) && i < |a|
    ensures a[i] in b
  {
    hide Blank, Before;
    assert LastOf(lines, a[i], parse);
    var m :| LastAt(lines, m, a[i], parse);
    var j :| 0 <= j < |b| && b[j].step == a[i].step;
    assert LastOf(lines, b[j], parse);
    var n :| LastAt(lines, n, b[j], parse);
    assert m == n && b[j] == a[i];
  }

  /** The lines have one list of their steps. */
  lemma {:induction false} ListedOnce(lines: seq<string>, a: seq<StepEntry>, b: seq<StepEntry>, n: nat, parse: Parser)
    requires Lists(lines, a, parse) && Lists(lines, b, parse) && n <= |a|
    ensures n <= |b| && a[..n] == b[..n]
    decreases n
  {
    hide Lists, Before;
    if n > 0 {
      var m := n - 1;
      ListedOnce(lines, a, b, m, parse);
      ListedInBoth(lines, a, b, m, parse);
      var j :| 0 <= j < |b| && b[j] == a[m];
      NotListedYet(lines, a, b, m, j, parse);
      if j > m {
        ListedInBoth(lines, b, a, m, parse);
        var i :| 0 <= i < |a| && a[i] == b[m];
        NotListedYet(lines, b, a, m, i, parse);
        Ordered(lines, a, b, m, i, j, parse);
      }
      assert a[..n] == a[..m] + [a[m]] && b[..n] == b[..m] + [b[m]];
    }
  }

  lemma NotListedYet(lines: seq<string>, a: seq<StepEntry>, b: seq<StepEntry>, m: nat, j: nat, parse: Parser)
    requires Lists(lines, a, parse) && m < |a| && m <= |b| && a[..m] == b[..m]
    requires j < |b| && b[j] == a[m]
    ensures m <= j
  {
    hide LastOf, Before, Records;
    forall i | 0 <= i < m ensures b[i] == a[i] && a[i].step != a[m].step {
      assert b[i] == b[..m][i] && a[i] == a[..m][i];
    }
  }

  lemma Ordered(lines: seq<string>, a: seq<StepEntry>, b: seq<StepEntry>, m: nat, i: nat, j: nat, parse: Parser)
    requires Lists(lines, a, parse) && Lists(lines, b, parse) && m < |a| && m < |b| && m <= i < |a| && m <= j < |b|
    requires b[j] == a[m] && a[i] == b[m]
    ensures j == m
  {
    hide Before, Records;
    if j > m {
      assert i > m;
      var k, l := a[m].step, b[m].step;
      assert Before(lines, k, l, parse) && Before(lines, l, k, parse);
      assert LastOf(lines, b[m], parse);
      var h :| LastAt(lines, h, b[m], parse);
      OneIsFirst(lines, h, k, l, parse);
    }
  }

  /** So whatever lists the steps of the lines is what folding them gives. */
  lemma ListsAreOne(lines: seq<string>, a: seq<StepEntry>, b: seq<StepEntry>, parse: Parser)
    requires Lists(lines, a, parse) && Lists(lines, b, parse)
    ensures a == b
  {
    hide Lists;
    ListedOnce(lines, a, b, |a|, parse);
    ListedOnce(lines, b, a, |b|, parse);
    assert a[..|a|] == a && b[..|b|] == b;
  }
}
