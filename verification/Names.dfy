/** Node names and their ordering.  The program orders names with the library
    routine that sorts strings; what matters to its callers is that the result is
    a sorted permutation, which `Sort` states. */
module Names {

  /** The id of a node. */
  datatype Name = Name(text: string)

  /** Lexicographic order on text. */
  predicate TextLeq(a: string, b: string) {
    if a == [] then true
    else if b == [] then false
    else a[0] < b[0] || (a[0] == b[0] && TextLeq(a[1..], b[1..]))
  }

  /** `a` begins `b`, or has the smaller character where they first differ. */
  lemma {:induction false} TextLeqIs(a: string, b: string)
    ensures TextLeq(a, b) <==>
              || a <= b
              || exists i :: 0 <= i < |a| && i < |b| && a[..i] == b[..i] && a[i] < b[i]
  {
    if a != [] && b != [] {
      var c, d := a[1..], b[1..];
      TextLeqIs(c, d);
      if a[0] == b[0] {
        Shifted(a, b);
      } else {
        forall i | 0 < i < |a| && i < |b| ensures a[..i] != b[..i] { assert a[..i][0] != b[..i][0]; }
        if a[0] < b[0] { assert a[..0] == b[..0]; }
      }
    }
  }

  lemma Shifted(a: string, b: string)
    requires a != [] && b != [] && a[0] == b[0]
    ensures a <= b <==> a[1..] <= b[1..]
    ensures (exists i :: 0 <= i < |a| && i < |b| && a[..i] == b[..i] && a[i] < b[i]) <==>
            (exists i :: 0 <= i < |a[1..]| && i < |b[1..]| && a[1..][..i] == b[1..][..i] && a[1..][i] < b[1..][i])
  {
    var c, d := a[1..], b[1..];
    assert a == [a[0]] + c && b == [b[0]] + d;
    if i :| 0 <= i < |a| && i < |b| && a[..i] == b[..i] && a[i] < b[i] {
      assert i > 0;
      assert c[..i - 1] == a[..i][1..] && d[..i - 1] == b[..i][1..];
    }
    if i :| 0 <= i < |c| && i < |d| && c[..i] == d[..i] && c[i] < d[i] {
      assert a[..i + 1] == [a[0]] + c[..i] && b[..i + 1] == [b[0]] + d[..i];
      assert a[i + 1] < b[i + 1];
    }
  }

  predicate Leq(a: Name, b: Name) {
    TextLeq(a.text, b.text)
  }

  lemma {:induction false} LeqTransitive(a: string, b: string, c: string)
    requires TextLeq(a, b) && TextLeq(b, c)
    ensures TextLeq(a, c)
  {
    if a != [] && a[0] == b[0] == c[0] {
      LeqTransitive(a[1..], b[1..], c[1..]);
    }
  }

  lemma {:induction false} LeqTotal(a: string, b: string)
    ensures TextLeq(a, b) || TextLeq(b, a)
  {
    if a != [] && b != [] && a[0] == b[0] {
      LeqTotal(a[1..], b[1..]);
    }
  }

  ghost predicate Sorted(s: seq<Name>) {
    forall i, j {:trigger Leq(s[i], s[j])} :: 0 <= i < j < |s| ==> Leq(s[i], s[j])
  }

  ghost predicate Distinct<T>(s: seq<T>) {
    forall i, j :: 0 <= i < j < |s| ==> s[i] != s[j]
  }

  function Insert(x: Name, s: seq<Name>): seq<Name> {
    if s == [] then [x]
    else if Leq(x, s[0]) then [x] + s
    else [s[0]] + Insert(x, s[1..])
  }

  lemma SortedCons(x: Name, s: seq<Name>)
    requires Sorted(s) && forall y :: y in s ==> Leq(x, y)
    ensures Sorted([x] + s)
  {
  }

  lemma LeastFirst(x: Name, s: seq<Name>)
    requires Sorted(s) && s != [] && Leq(x, s[0])
    ensures forall y :: y in s ==> Leq(x, y)
  {
    forall y | y in s ensures Leq(x, y) {
      var j :| 0 <= j < |s| && s[j] == y;
      if 0 < j {
        assert Leq(s[0], s[j]);
        LeqTransitive(x.text, s[0].text, s[j].text);
      }
    }
  }

  lemma {:induction false} InsertSorts(x: Name, s: seq<Name>)
    requires Sorted(s)
    ensures Sorted(Insert(x, s)) && multiset(Insert(x, s)) == multiset(s) + multiset{x}
  {
    hide Leq;
    if s != [] {
      assert s == [s[0]] + s[1..];
      if Leq(x, s[0]) {
        LeastFirst(x, s);
        SortedCons(x, s);
      } else {
        InsertSorts(x, s[1..]);
        AboveHead(x, s);
        SortedCons(s[0], Insert(x, s[1..]));
      }
    }
  }

  lemma AboveHead(x: Name, s: seq<Name>)
    requires Sorted(s) && s != [] && !Leq(x, s[0])
    requires multiset(Insert(x, s[1..])) == multiset(s[1..]) + multiset{x}
    ensures forall y :: y in Insert(x, s[1..]) ==> Leq(s[0], y)
  {
    LeqTotal(x.text, s[0].text);
    var t := Insert(x, s[1..]);
    forall y | y in t ensures Leq(s[0], y) {
      assert y in multiset(t);
      if y != x {
        assert y in s[1..];
        var j :| 0 <= j < |s[1..]| && s[1..][j] == y;
        assert Leq(s[0], s[j + 1]);
      }
    }
  }

  /** The sorted permutation of `s`. */
  function Sort(s: seq<Name>): (r: seq<Name>)
    ensures Sorted(r) && multiset(r) == multiset(s)
    ensures |r| == |s|
  {
    if s == [] then []
    else
      assert s == [s[0]] + s[1..];
      InsertSorts(s[0], Sort(s[1..]));
      var r := Insert(s[0], Sort(s[1..]));
      assert |multiset(r)| == |multiset(s)|;
      r
  }

  lemma SameElements(r: seq<Name>, s: seq<Name>)
    requires multiset(r) == multiset(s)
    ensures forall x :: x in r <==> x in s
  {
    forall x ensures x in r <==> x in s {
      assert x in r <==> x in multiset(r);
      assert x in s <==> x in multiset(s);
    }
  }

  lemma {:induction false} DistinctMultiset<T>(s: seq<T>)
    ensures Distinct(s) <==> forall x :: multiset(s)[x] <= 1
  {
    if s != [] {
      var t := s[..|s| - 1];
      var z := s[|s| - 1];
      assert s == t + [z];
      DistinctMultiset(t);
      assert multiset(s) == multiset(t) + multiset{z};
      if Distinct(s) {
        assert z !in t;
      } else {
        var i, j :| 0 <= i < j < |s| && s[i] == s[j];
        if j < |t| {
          assert t[i] == t[j];
          var x :| multiset(t)[x] > 1;
          assert multiset(s)[x] > 1;
        } else {
          assert t[i] == z;
          assert z in multiset(t);
          assert multiset(s)[z] >= 2;
        }
      }
    }
  }

  lemma SortDistinct(s: seq<Name>)
    requires Distinct(s)
    ensures Distinct(Sort(s))
  {
    DistinctMultiset(s);
    DistinctMultiset(Sort(s));
  }
}
