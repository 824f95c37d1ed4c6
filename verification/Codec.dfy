/** Formats as the step logs assume them exist. */
module Codecs {
  import opened StepLog
  import opened StepIndex

  function Repeat(c: char, n: nat): (s: string)
    ensures |s| == n && forall i :: 0 <= i < n ==> s[i] == c
  {
    seq(n, _ => c)
  }

  /** A number in unary, with its sign. */
  function Numeral(i: int): string {
    (if i >= 0 then Repeat('p', i) else Repeat('m', -i)) + [',']
  }

  function Numerals(ns: seq<int>): string {
    if ns == [] then [] else Numeral(ns[0]) + Numerals(ns[1..])
  }

  lemma NumeralPrefix(i: int, j: int, a: string, b: string)
    requires Numeral(i) + a == Numeral(j) + b
    ensures i == j && a == b
  {
    var s, t := Numeral(i) + a, Numeral(j) + b;
    var m, n := |Numeral(i)| - 1, |Numeral(j)| - 1;
    assert s[m] == ',' && t[n] == ',';
    assert forall k :: 0 <= k < m ==> s[k] == Numeral(i)[k] && s[k] != ',';
    assert forall k :: 0 <= k < n ==> t[k] == Numeral(j)[k] && t[k] != ',';
    assert m == n;
    if m > 0 { assert s[0] == t[0]; }
    assert a == s[m + 1..] && b == t[m + 1..];
  }

  lemma {:induction false} NumeralsInjective(a: seq<int>, b: seq<int>)
    requires Numerals(a) == Numerals(b)
    ensures a == b
    decreases |a|
  {
    hide Numeral;
    if a == [] || b == [] {
      NumeralNotEmpty(if a == [] then b else a);
    } else {
      NumeralPrefix(a[0], b[0], Numerals(a[1..]), Numerals(b[1..]));
      NumeralsInjective(a[1..], b[1..]);
      assert a == [a[0]] + a[1..] && b == [b[0]] + b[1..];
    }
  }

  lemma NumeralNotEmpty(a: seq<int>)
    ensures Numerals(a) == [] <==> a == []
  {
  }

  function Codes(s: string): (cs: seq<int>)
    ensures |cs| == |s| && forall i :: 0 <= i < |s| ==> cs[i] == s[i] as int
  {
    seq(|s|, i requires 0 <= i < |s| => s[i] as int)
  }

  lemma CodesInjective(s: string, t: string)
    requires Codes(s) == Codes(t)
    ensures s == t
  {
    assert |s| == |t|;
    forall i | 0 <= i < |s| ensures s[i] == t[i] {
      assert Codes(s)[i] == Codes(t)[i];
    }
  }

  function Numbers(e: StepEntry): seq<int> {
    [e.step, if e.hasError then 1 else 0, e.durationNs, e.tokenCount, e.timestampMs, |e.action|, |e.summary|]
    + Codes(e.action + e.summary + e.toolPath)
  }

  lemma NumbersInjective(d: StepEntry, e: StepEntry)
    requires Numbers(d) == Numbers(e)
    ensures d == e
  {
    var a, b := Numbers(d), Numbers(e);
    assert a[0] == b[0] && a[1] == b[1] && a[2] == b[2] && a[3] == b[3] && a[4] == b[4] && a[5] == b[5] && a[6] == b[6];
    assert a[7..] == Codes(d.action + d.summary + d.toolPath) && b[7..] == Codes(e.action + e.summary + e.toolPath);
    var s, t := d.action + d.summary + d.toolPath, e.action + e.summary + e.toolPath;
    CodesInjective(s, t);
    var m, n := |d.action|, |d.action| + |d.summary|;
    assert d.action == s[..m] && e.action == t[..m];
    assert d.summary == s[m..n] && e.summary == t[m..n];
    assert d.toolPath == s[n..] && e.toolPath == t[n..];
  }

  function Render(e: StepEntry): string {
    ['e'] + Numerals(Numbers(e))
  }

  ghost predicate Renders(e: StepEntry, line: string) {
    line == Render(e) + ['\n']
  }

  ghost function Parse(line: string): Option<StepEntry> {
    if exists e :: Renders(e, line) then
      var e :| Renders(e, line);
      Some(e)
    else None
  }

  ghost function ParseFully(line: string): Option<StepEntry> {
    if Parse(line).None? then None else Some(CoarseEntry(Parse(line).value))
  }

  function RenderHeader(n: nat): string {
    Repeat('h', n + 1)
  }

  function ParseHeader(line: string): Option<Header> {
    if |line| >= 2 then Some(Header(1, |line| - 2)) else None
  }

  lemma SameButLast(a: string, b: string, c: char)
    requires a + [c] == b + [c]
    ensures a == b
  {
    assert a == (a + [c])[..|a|] && b == (b + [c])[..|b|];
  }

  lemma SameRendering(d: StepEntry, e: StepEntry, line: string)
    requires Renders(d, line) && Renders(e, line)
    ensures Render(d) == Render(e)
  {
    hide Render;
    SameButLast(Render(d), Render(e), '\n');
  }

  lemma RenderedReads(e: StepEntry)
    ensures Parse(Render(e) + ['\n']) == Some(e)
  {
    hide Numerals, Numbers;
    var line := Render(e) + ['\n'];
    assert Renders(e, line);
    var d :| Renders(d, line) && Parse(line) == Some(d);
    assert Renders(d, line) && Renders(e, line);
    SameRendering(d, e, line);
    assert Numerals(Numbers(d)) == Render(d)[1..] && Numerals(Numbers(e)) == Render(e)[1..];
    NumeralsInjective(Numbers(d), Numbers(e));
    NumbersInjective(d, e);
  }

  lemma {:induction false} NumeralsOnOneLine(ns: seq<int>)
    ensures forall i :: 0 <= i < |Numerals(ns)| ==> Numerals(ns)[i] != '\n'
  {
    if ns != [] {
      NumeralsOnOneLine(ns[1..]);
    }
  }

  lemma RenderedOnOneLine(e: StepEntry)
    ensures OneLine(Render(e))
  {
    NumeralsOnOneLine(Numbers(e));
    hide Numerals, Numbers;
    assert !IsSpace(Render(e)[0]);
  }

  /** There are formats in which index lines and headers read back as written. */
  lemma SoundCodecExists()
    ensures exists codec: Codec :: codec.Sound()
  {
    var codec := Codec(ParseFully, Parse, Parse, ParseHeader, Render, RenderHeader);
    forall e ensures codec.idx(codec.render(e) + ['\n']) == Some(e) && OneLine(codec.render(e)) {
      RenderedReads(e);
      RenderedOnOneLine(e);
    }
    forall n: nat
      ensures codec.header(codec.renderHeader(n) + ['\n']) == Some(Header(1, n)) && OneLine(codec.renderHeader(n))
    {
      assert !IsSpace(RenderHeader(n)[0]);
    }
    assert codec.Sound();
  }
}
