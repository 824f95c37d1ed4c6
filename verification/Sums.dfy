/** Finite sums over the entries of a map, independent of the order in which the
    entries are visited (the program sums over Go maps, whose iteration order is
    not fixed). */
module Sums {

  ghost function Sum<K>(m: map<K, int>): int
    decreases |m|
  {
    if m == map[] then 0
    else
      var k :| k in m;
      m[k] + Sum(m - {k})
  }

  /** Any entry may be taken out first. */
  lemma {:induction false} SumPick<K>(m: map<K, int>, k: K)
    requires k in m
    ensures Sum(m) == m[k] + Sum(m - {k})
    decreases |m|
  {
    var c :| c in m && Sum(m) == m[c] + Sum(m - {c});
    if c != k {
      SumPick(m - {c}, k);
      SumPick(m - {k}, c);
      assert m - {c} - {k} == m - {k} - {c};
    }
  }

  lemma SumUpdate<K>(m: map<K, int>, k: K, v: int)
    requires k in m
    ensures Sum(m[k := v]) == Sum(m) - m[k] + v
  {
    SumPick(m, k);
    SumPick(m[k := v], k);
    assert m[k := v] - {k} == m - {k};
  }

  lemma SumInsert<K>(m: map<K, int>, k: K, v: int)
    requires k !in m
    ensures Sum(m[k := v]) == Sum(m) + v
  {
    SumPick(m[k := v], k);
    assert m[k := v] - {k} == m;
  }

  /** The sum of the first `n + 1` entries of a list. */
  lemma SumOneMore(m: map<nat, int>, more: map<nat, int>, n: nat)
    requires n !in m && n in more && more == m[n := more[n]]
    ensures Sum(more) == Sum(m) + more[n]
  {
    SumInsert(m, n, more[n]);
  }

  lemma SumOfNothing<K>(m: map<K, int>)
    requires m.Keys == {}
    ensures Sum(m) == 0
  {
    assert m == map[];
  }

  /** Pointwise comparison, with one strict place giving a strict comparison. */
  lemma {:induction false} SumMonotone<K>(a: map<K, int>, b: map<K, int>)
    requires a.Keys == b.Keys
    requires forall k :: k in a ==> a[k] <= b[k]
    ensures Sum(a) <= Sum(b)
    decreases |a|
  {
    if a != map[] {
      var k :| k in a;
      SumPick(a, k);
      SumPick(b, k);
      SumMonotone(a - {k}, b - {k});
    } else {
      assert b == map[];
    }
  }

  lemma SumStrict<K>(a: map<K, int>, b: map<K, int>, k: K)
    requires a.Keys == b.Keys && k in a
    requires forall j :: j in a ==> a[j] <= b[j]
    ensures Sum(a) <= Sum(b) - (b[k] - a[k])
  {
    SumPick(a, k);
    SumPick(b, k);
    SumMonotone(a - {k}, b - {k});
  }

  ghost function Scaled<K>(m: map<K, int>, c: int): map<K, int> {
    map k | k in m :: c * m[k]
  }

  lemma ScaledRest<K>(m: map<K, int>, c: int, k: K)
    ensures Scaled(m, c) - {k} == Scaled(m - {k}, c)
    ensures k in m ==> k in Scaled(m, c) && Scaled(m, c)[k] == c * m[k]
  {
  }

  lemma ScaledNothing<K>(m: map<K, int>, c: int)
    requires m == map[]
    ensures Sum(m) == 0 && Sum(Scaled(m, c)) == 0
  {
    assert Scaled(m, c) == map[];
  }

  lemma {:induction false} SumScale<K>(m: map<K, int>, c: int)
    ensures Sum(Scaled(m, c)) == c * Sum(m)
    decreases |m|
  {
    hide Sum, Scaled;
    if m == map[] {
      ScaledNothing(m, c);
    } else {
      var k :| k in m;
      ScaledRest(m, c, k);
      SumPick(m, k);
      SumPick(Scaled(m, c), k);
      SumScale(m - {k}, c);
      Distribute(c, m[k], Sum(m - {k}));
    }
  }

  lemma Distribute(c: int, a: int, b: int)
    ensures c * (a + b) == c * a + c * b
  {
  }

  ghost function Shifted<K>(m: map<K, int>, c: int): map<K, int> {
    map k | k in m :: m[k] + c
  }

  lemma ShiftedRest<K>(m: map<K, int>, c: int, k: K)
    ensures Shifted(m, c) - {k} == Shifted(m - {k}, c)
    ensures k in m ==> k in Shifted(m, c) && Shifted(m, c)[k] == m[k] + c
  {
  }

  lemma ShiftedNothing<K>(m: map<K, int>, c: int)
    requires m == map[]
    ensures Sum(m) == 0 && Sum(Shifted(m, c)) == 0
  {
    assert Shifted(m, c) == map[];
  }

  lemma OneFewer<K>(m: map<K, int>, k: K)
    requires k in m
    ensures |m| == |m - {k}| + 1
  {
    assert m.Keys == (m - {k}).Keys + {k};
    assert |m| == |m.Keys| && |m - {k}| == |(m - {k}).Keys|;
  }

  lemma {:induction false} SumShift<K>(m: map<K, int>, c: int)
    ensures Sum(Shifted(m, c)) == Sum(m) + c * |m|
    decreases |m|
  {
    hide Sum, Shifted;
    if m == map[] {
      ShiftedNothing(m, c);
    } else {
      var k :| k in m;
      ShiftedRest(m, c, k);
      SumPick(m, k);
      SumPick(Shifted(m, c), k);
      SumShift(m - {k}, c);
      OneFewer(m, k);
      Distribute(c, |m - {k}|, 1);
    }
  }

  /** Renaming the keys one to one keeps the sum. */
  lemma {:induction false} SumRename<K, L>(a: map<K, int>, b: map<L, int>, f: map<K, L>)
    requires f.Keys == a.Keys && f.Values == b.Keys
    requires forall i, j :: i in f && j in f && i != j ==> f[i] != f[j]
    requires forall k :: k in a ==> f[k] in b && b[f[k]] == a[k]
    ensures Sum(a) == Sum(b)
    decreases |a|
  {
    if a != map[] {
      var k :| k in a;
      SumPick(a, k);
      SumPick(b, f[k]);
      var f' := f - {k};
      assert f'.Values == (b - {f[k]}).Keys by {
        forall l ensures l in f'.Values <==> l in (b - {f[k]}).Keys {
          if l in b && l != f[k] {
            assert l in f.Values;
            var j :| j in f && f[j] == l;
            assert j in f' && f'[j] == l;
          }
        }
      }
      SumRename(a - {k}, b - {f[k]}, f');
    } else {
      assert f == map[];
      assert b.Keys == {};
      assert b == map[];
    }
  }
}
