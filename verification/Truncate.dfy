/** Cutting a text down to a token budget. */
module Truncation {
  import opened Tokens

  ghost predicate Fits(text: string, k: nat, maxTokens: int)
    requires k <= |text|
  {
    Estimate(text[..k]) <= maxTokens
  }

  /** `k` is the length of the longest prefix within the budget. */
  ghost predicate LongestFit(text: string, k: nat, maxTokens: int) {
    && k <= |text| && Fits(text, k, maxTokens)
    && forall j :: k < j <= |text| ==> !Fits(text, j, maxTokens)
  }

  /** Binary search for the longest prefix within the budget. */
  method TruncateToTokens(text: string, maxTokens: int) returns (r: string)
    ensures maxTokens <= 0 ==> r == ""
    ensures maxTokens > 0 ==> LongestFit(text, |r|, maxTokens) && r == text[..|r|]
  {
    hide Estimate;
    if maxTokens <= 0 { return ""; }
    assert text[..|text|] == text;
    var whole := EstimateTokens(text);
    if whole <= maxTokens { return text; }
    var lo, hi := 0, |text|;
    assert Fits(text, 0, maxTokens) by { EmptyIsFree(text[..0]); }
    while lo < hi
      invariant 0 <= lo <= hi <= |text| && Fits(text, lo, maxTokens)
      invariant forall j :: hi < j <= |text| ==> !Fits(text, j, maxTokens)
    {
      var mid := (lo + hi + 1) / 2;
      var tokens := EstimateTokens(text[..mid]);
      if tokens <= maxTokens {
        lo := mid;
      } else {
        forall j | mid <= j <= |text| ensures !Fits(text, j, maxTokens) { PrefixMonotone(text, mid, j); }
        hi := mid - 1;
      }
    }
    r := text[..lo];
  }

  /** What is taken off a cut that does not fit. */
  function Trim(k: nat): (step: nat)
    ensures k > 0 ==> 0 < step <= k
  {
    if k / 10 > 1 then k / 10 else 1
  }

  /** `r` is a prefix that fits, no longer than guessed; it is the guessed one, or the
      prefix it was cut from, longer by a tenth but by one at least, does not fit. */
  ghost predicate CutTo(content: string, maxTokens: int, guess: nat, r: string) {
    && r <= content && Estimate(r) <= maxTokens && |r| <= guess
    && (|r| == guess || exists p :: |r| < p <= |content| && !Fits(content, p, maxTokens)
                                      && p - |r| == if p < 20 then 1 else p / 10)
  }

  /** Cuts at a guessed length and shrinks it by a tenth at a time until the rest
      fits.  `guess` is the estimate of the cut, whatever rounding produced it. */
  method TruncateResult(content: string, maxTokens: int, guess: nat) returns (r: string, cut: bool)
    ensures cut <==> maxTokens > 0 && content != [] && Estimate(content) > maxTokens
    ensures !cut ==> r == content
    ensures cut ==> CutTo(content, maxTokens, if guess < |content| then guess else |content|, r)
    ensures cut ==> forall k :: LongestFit(content, k, maxTokens) ==> |r| <= k
  {
    hide Estimate;
    if maxTokens <= 0 || |content| == 0 { return content, false; }
    var tokens := EstimateTokens(content);
    if tokens <= maxTokens { return content, false; }
    var cutIdx: nat := if guess < |content| then guess else |content|;
    ghost var first := cutIdx;
    r := content[..cutIdx];
    var now := EstimateTokens(r);
    while now > maxTokens && cutIdx > 0
      invariant cutIdx <= first <= |content| && r == content[..cutIdx] && now == Estimate(r)
      invariant cutIdx == first
                || exists p :: cutIdx < p <= |content| && p - Trim(p) == cutIdx && !Fits(content, p, maxTokens)
      decreases cutIdx
    {
      assert !Fits(content, cutIdx, maxTokens);
      cutIdx := cutIdx - Trim(cutIdx);
      r := content[..cutIdx];
      now := EstimateTokens(r);
    }
    if cutIdx == 0 { EmptyIsFree(r); }
    assert Fits(content, |r|, maxTokens);
    cut := true;
  }

  lemma EmptyIsFree(s: string)
    requires s == []
    ensures Estimate(s) == 0
  {
  }

  /** The longest fitting prefix is unique. */
  lemma LongestFitUnique(text: string, j: nat, k: nat, maxTokens: int)
    requires LongestFit(text, j, maxTokens) && LongestFit(text, k, maxTokens)
    ensures j == k
  {
  }
}
