/** Token estimates: 3.5 ASCII characters or 1.5 other characters to the token,
    rounded up once per text. */
module Tokens {
  import opened Sums

  predicate IsAscii(c: char) {
    c as int < 128
  }

  function Ascii(s: string): (n: nat)
    ensures n <= |s|
  {
    if s == [] then 0 else Ascii(s[..|s| - 1]) + if IsAscii(s[|s| - 1]) then 1 else 0
  }

  function Other(s: string): nat {
    |s| - Ascii(s)
  }

  /** The bytes a character takes in UTF-8. */
  function Width(c: char): nat {
    if c as int < 0x80 then 1 else if c as int < 0x800 then 2 else if c as int < 0x10000 then 3 else 4
  }

  function Bytes(s: string): nat {
    if s == [] then 0 else Bytes(s[..|s| - 1]) + Width(s[|s| - 1])
  }

  /** Six 21sts of a token for an ASCII character, fourteen for any other, rounded up. */
  function Estimate(s: string): nat {
    (6 * Ascii(s) + 14 * Other(s) + 20) / 21
  }

  /** The smallest integer not below `x`. */
  function Ceiling(x: real): int {
    -((-x).Floor)
  }

  /** Where the ASCII characters are. */
  function AsciiAt(s: string): set<nat> {
    set i: nat | i < |s| && s[i] as int < 128
  }

  lemma {:induction false} AsciiIsCount(s: string)
    ensures Ascii(s) == |AsciiAt(s)|
  {
    if s == [] {
      assert AsciiAt(s) == {};
    } else {
      var n := |s| - 1;
      AsciiIsCount(s[..n]);
      if s[n] as int < 128 {
        assert AsciiAt(s) == AsciiAt(s[..n]) + {n};
      } else {
        assert AsciiAt(s) == AsciiAt(s[..n]);
      }
    }
  }

  /** Where the characters from `least` on are. */
  function From(s: string, least: int): set<nat> {
    set i: nat | i < |s| && s[i] as int >= least
  }

  lemma OneMoreFrom(s: string, c: char, least: int)
    ensures |From(s + [c], least)| == |From(s, least)| + if c as int >= least then 1 else 0
  {
    var more := s + [c];
    assert forall i: nat :: i < |s| ==> more[i] == s[i];
    if c as int >= least {
      assert From(more, least) == From(s, least) + {|s|};
    } else {
      assert From(more, least) == From(s, least);
    }
  }

  /** One byte a character, one more from U+0080 on, and again from U+0800 and from
      U+10000 on. */
  lemma {:induction false} BytesAreCounted(s: string)
    ensures Bytes(s) == |s| + |From(s, 0x80)| + |From(s, 0x800)| + |From(s, 0x10000)|
  {
    hide From;
    if s == [] {
      NoneFrom();
    } else {
      var n := |s| - 1;
      var t, c := s[..n], s[n];
      assert s == t + [c];
      BytesAreCounted(t);
      OneMoreFrom(t, c, 0x80);
      OneMoreFrom(t, c, 0x800);
      OneMoreFrom(t, c, 0x10000);
    }
  }

  lemma NoneFrom()
    ensures forall least :: From([], least) == {}
  {
  }

  /** Counts the characters of either kind and rounds the real quotient up; that is
      the integer formula. */
  method EstimateTokens(text: string) returns (tokens: int)
    ensures tokens == Estimate(text)
    ensures var ascii := |AsciiAt(text)|;
            tokens as real - 1.0 < ascii as real / 3.5 + (|text| - ascii) as real / 1.5 <= tokens as real
  {
    AsciiIsCount(text);
    EstimateRoundsUp(text);
    if |text| == 0 { return 0; }
    var asciiBytes, nonASCIIRunes := 0, 0;
    for i := 0 to |text|
      invariant asciiBytes == Ascii(text[..i]) && nonASCIIRunes == Other(text[..i])
    {
      assert text[..i + 1][..i] == text[..i];
      if IsAscii(text[i]) {
        asciiBytes := asciiBytes + 1;
      } else {
        nonASCIIRunes := nonASCIIRunes + 1;
      }
    }
    assert text[..|text|] == text;
    CeilingIsQuotient(asciiBytes, nonASCIIRunes);
    tokens := Ceiling(asciiBytes as real / 3.5 + nonASCIIRunes as real / 1.5);
  }

  lemma EstimateRoundsUp(s: string)
    ensures Estimate(s) as real - 1.0 < Ascii(s) as real / 3.5 + Other(s) as real / 1.5 <= Estimate(s) as real
  {
    var a: int, n: int, k: int := Ascii(s), Other(s), Estimate(s);
    assert 21 * (k - 1) < 6 * a + 14 * n <= 21 * k;
    var x := a as real / 3.5 + n as real / 1.5;
    assert 21.0 * x == 6.0 * a as real + 14.0 * n as real;
  }

  lemma CeilingIsQuotient(a: nat, n: nat)
    ensures Ceiling(a as real / 3.5 + n as real / 1.5) == (6 * a + 14 * n + 20) / 21
  {
    var x := a as real / 3.5 + n as real / 1.5;
    var k := (6 * a + 14 * n + 20) / 21;
    assert 21.0 * x == 6.0 * a as real + 14.0 * n as real;
    assert 21 * (k - 1) < 6 * a + 14 * n <= 21 * k;
    assert (k - 1) as real < x <= k as real;
  }

  lemma {:induction false} AsciiConcat(a: string, b: string)
    ensures Ascii(a + b) == Ascii(a) + Ascii(b)
  {
    if b == [] {
      assert a + b == a;
    } else {
      var k := |b| - 1;
      assert (a + b)[..|a + b| - 1] == a + b[..k];
      AsciiConcat(a, b[..k]);
    }
  }

  /** Splitting a text never lowers its estimate, and raises it by at most one. */
  lemma Subadditive(a: string, b: string)
    ensures Estimate(a + b) <= Estimate(a) + Estimate(b) <= Estimate(a + b) + 1
  {
    AsciiConcat(a, b);
  }

  /** A longer prefix weighs no less. */
  lemma PrefixMonotone(s: string, i: nat, j: nat)
    requires i <= j <= |s|
    ensures Estimate(s[..i]) <= Estimate(s[..j])
  {
    assert s[..j] == s[..i] + s[i..j];
    AsciiConcat(s[..i], s[i..j]);
  }

  lemma {:induction false} BytesBound(s: string)
    ensures Bytes(s) <= Ascii(s) + 4 * Other(s)
  {
    if s != [] { BytesBound(s[..|s| - 1]); }
  }

  /** More than a thousand bytes weigh at least 167 tokens. */
  lemma OversizedWeighs(s: string)
    requires Bytes(s) > 1000
    ensures Estimate(s) >= 167
  {
    BytesBound(s);
  }

  // --- messages -------------------------------------------------------------------------

  datatype Role = User | Assistant | ToolResult | System

  /** A call's arguments, as they serialise. */
  datatype Input = NoInput | Unserialisable | Json(text: string)

  datatype ToolCall = ToolCall(id: string, name: string, input: Input)

  datatype ReasoningBlock = ReasoningBlock(kind: string, thinking: string, data: string)

  datatype Message = Message(role: Role, content: string, toolCallId: string, toolCalls: seq<ToolCall>,
                             reasoningBlocks: seq<ReasoningBlock>, reasoning: string)

  function PlainMessage(role: Role, content: string): Message {
    Message(role, content, "", [], [], "")
  }

  function CallTokens(c: ToolCall): nat {
    Estimate(c.id) + Estimate(c.name) + if c.input.Json? then Estimate(c.input.text) else 0
  }

  function CallsTokens(cs: seq<ToolCall>): nat {
    if cs == [] then 0 else CallsTokens(cs[..|cs| - 1]) + CallTokens(cs[|cs| - 1])
  }

  function BlockTokens(b: ReasoningBlock): nat {
    Estimate(b.kind) + Estimate(b.thinking) + Estimate(b.data)
  }

  function BlocksTokens(bs: seq<ReasoningBlock>): nat {
    if bs == [] then 0 else BlocksTokens(bs[..|bs| - 1]) + BlockTokens(bs[|bs| - 1])
  }

  /** Everything of a message that goes into a request. */
  function Weight(m: Message): nat {
    Estimate(m.content) + Estimate(m.reasoning) + Estimate(m.toolCallId) + CallsTokens(m.toolCalls)
    + BlocksTokens(m.reasoningBlocks)
  }

  function Total(ms: seq<Message>): nat {
    if ms == [] then 0 else Total(ms[..|ms| - 1]) + Weight(ms[|ms| - 1])
  }

  /** What the calls of a message weigh, each with its id, its name, and its input if
      that can be written out. */
  ghost function CallSums(cs: seq<ToolCall>): map<nat, int> {
    map i: nat | i < |cs| ::
      Estimate(cs[i].id) + Estimate(cs[i].name) + if cs[i].input.Json? then Estimate(cs[i].input.text) else 0
  }

  ghost function BlockSums(bs: seq<ReasoningBlock>): map<nat, int> {
    map i: nat | i < |bs| :: Estimate(bs[i].kind) + Estimate(bs[i].thinking) + Estimate(bs[i].data)
  }

  ghost function Weights(ms: seq<Message>): map<nat, int> {
    map i: nat | i < |ms| :: Weight(ms[i])
  }

  lemma {:induction false} CallsAreSummed(cs: seq<ToolCall>)
    ensures CallsTokens(cs) == Sum(CallSums(cs))
  {
    hide Estimate;
    if cs == [] {
      SumOfNothing(CallSums(cs));
    } else {
      var n := |cs| - 1;
      CallsAreSummed(cs[..n]);
      assert CallSums(cs) == CallSums(cs[..n])[n := CallSums(cs)[n]];
      SumOneMore(CallSums(cs[..n]), CallSums(cs), n);
    }
  }

  lemma {:induction false} BlocksAreSummed(bs: seq<ReasoningBlock>)
    ensures BlocksTokens(bs) == Sum(BlockSums(bs))
  {
    hide Estimate;
    if bs == [] {
      SumOfNothing(BlockSums(bs));
    } else {
      var n := |bs| - 1;
      BlocksAreSummed(bs[..n]);
      assert BlockSums(bs) == BlockSums(bs[..n])[n := BlockSums(bs)[n]];
      SumOneMore(BlockSums(bs[..n]), BlockSums(bs), n);
    }
  }

  /** The total of a history is the sum over its messages. */
  lemma {:induction false} TotalIsSum(ms: seq<Message>)
    ensures Total(ms) == Sum(Weights(ms))
  {
    hide Weight;
    if ms == [] {
      SumOfNothing(Weights(ms));
    } else {
      var n := |ms| - 1;
      TotalIsSum(ms[..n]);
      assert Weights(ms) == Weights(ms[..n])[n := Weights(ms)[n]];
      SumOneMore(Weights(ms[..n]), Weights(ms), n);
    }
  }

  method EstimateMessageTokens(m: Message) returns (total: int)
    ensures total == Weight(m)
    ensures total == Estimate(m.content) + Estimate(m.reasoning) + Estimate(m.toolCallId)
                     + Sum(CallSums(m.toolCalls)) + Sum(BlockSums(m.reasoningBlocks))
  {
    hide Estimate, CallSums, BlockSums;
    CallsAreSummed(m.toolCalls);
    BlocksAreSummed(m.reasoningBlocks);
    total := EstimateTokens(m.content);
    var t := EstimateTokens(m.reasoning);
    total := total + t;
    t := EstimateTokens(m.toolCallId);
    total := total + t;
    ghost var base := total;
    for i := 0 to |m.toolCalls|
      invariant total == base + CallsTokens(m.toolCalls[..i])
    {
      assert m.toolCalls[..i + 1][..i] == m.toolCalls[..i];
      t := EstimateTokens(m.toolCalls[i].id);
      total := total + t;
      t := EstimateTokens(m.toolCalls[i].name);
      total := total + t;
      if m.toolCalls[i].input.NoInput? { continue; }
      if m.toolCalls[i].input.Json? {
        t := EstimateTokens(m.toolCalls[i].input.text);
        total := total + t;
      }
    }
    assert m.toolCalls[..|m.toolCalls|] == m.toolCalls;
    for i := 0 to |m.reasoningBlocks|
      invariant total == base + CallsTokens(m.toolCalls) + BlocksTokens(m.reasoningBlocks[..i])
    {
      assert m.reasoningBlocks[..i + 1][..i] == m.reasoningBlocks[..i];
      t := EstimateTokens(m.reasoningBlocks[i].kind);
      total := total + t;
      t := EstimateTokens(m.reasoningBlocks[i].thinking);
      total := total + t;
      t := EstimateTokens(m.reasoningBlocks[i].data);
      total := total + t;
    }
    assert m.reasoningBlocks[..|m.reasoningBlocks|] == m.reasoningBlocks;
  }

  lemma {:induction false} TotalConcat(a: seq<Message>, b: seq<Message>)
    ensures Total(a + b) == Total(a) + Total(b)
  {
    hide Weight;
    if b == [] {
      assert a + b == a;
    } else {
      var k := |b| - 1;
      assert (a + b)[..|a + b| - 1] == a + b[..k];
      TotalConcat(a, b[..k]);
    }
  }

  /** Replacing one message changes the total by the difference of the two. */
  lemma TotalReplaced(ms: seq<Message>, i: nat, m: Message)
    requires i < |ms|
    ensures Total(ms[i := m]) == Total(ms) - Weight(ms[i]) + Weight(m)
  {
    hide Weight;
    assert ms == ms[..i] + ([ms[i]] + ms[i + 1..]);
    assert ms[i := m] == ms[..i] + ([m] + ms[i + 1..]);
    TotalConcat(ms[..i], [ms[i]] + ms[i + 1..]);
    TotalConcat([ms[i]], ms[i + 1..]);
    TotalConcat(ms[..i], [m] + ms[i + 1..]);
    TotalConcat([m], ms[i + 1..]);
    assert [m][..0] == [] && [ms[i]][..0] == [];
  }
}
