/** The one token estimator and the prefix it allows (arslan/context_budget.py, `estimate_tokens` and `clip`). */
module Clip {

  /** Han, kana and Hangul. */
  predicate IsCjk(c: char) {
    '\U{4E00}' <= c <= '\U{9FFF}' || '\U{3040}' <= c <= '\U{30FF}' || '\U{AC00}' <= c <= '\U{D7AF}'
  }

  function CjkCount(text: string): (n: nat)
    ensures n <= |text|
  {
    if text == "" then 0 else CjkCount(text[..|text| - 1]) + if IsCjk(text[|text| - 1]) then 1 else 0
  }

  /** About one token for a CJK character, and one for four others. */
  function Estimate(text: string): nat {
    CjkCount(text) + (|text| - CjkCount(text)) / 4
  }

  /** A longer prefix never costs less, and one more character at most one token more. */
  lemma {:induction false} EstimateIsMonotone(text: string, i: nat, j: nat)
    requires i <= j <= |text|
    ensures Estimate(text[..i]) <= Estimate(text[..j]) <= Estimate(text[..i]) + (j - i)
    decreases j - i
  {
    if i < j {
      EstimateIsMonotone(text, i, j - 1);
      assert text[..j][..j - 1] == text[..j - 1];
    }
  }

  lemma {:induction false} CjkConcat(a: string, b: string)
    ensures CjkCount(a + b) == CjkCount(a) + CjkCount(b)
  {
    if b == "" {
      assert a + b == a;
    } else {
      assert (a + b)[..|a + b| - 1] == a + b[..|b| - 1];
      CjkConcat(a, b[..|b| - 1]);
    }
  }

  lemma {:induction false} NoneCjk(text: string)
    requires forall i :: 0 <= i < |text| ==> !IsCjk(text[i])
    ensures CjkCount(text) == 0
  {
    if text != "" { NoneCjk(text[..|text| - 1]); }
  }

  /** A CJK character costs a token wherever it stands, four others cost one, and fewer than four nothing yet. */
  lemma EstimateCounts(before: string, c: char, rest: string, other: string)
    requires forall i :: 0 <= i < |other| ==> !IsCjk(other[i])
    ensures IsCjk(c) ==> Estimate(before + [c] + rest) == Estimate(before + rest) + 1
    ensures |other| == 4 ==> Estimate(before + other + rest) == Estimate(before + rest) + 1
    ensures |other| < 4 ==> Estimate(other) == 0
  {
    CjkConcat(before + [c], rest);
    CjkConcat(before, [c]);
    CjkConcat(before + other, rest);
    CjkConcat(before, other);
    CjkConcat(before, rest);
    NoneCjk(other);
    assert CjkCount([c]) == if IsCjk(c) then 1 else 0 by { assert [c][..0] == ""; }
  }

  /** The largest prefix whose estimate is inside the budget. */
  ghost predicate LargestPrefix(text: string, budget: int, clipped: string) {
    && clipped <= text && Estimate(clipped) <= budget
    && forall n :: |clipped| < n <= |text| ==> Estimate(text[..n]) > budget
  }

  method Clip(text: string, budget: int) returns (clipped: string)
    ensures budget <= 0 ==> clipped == ""
    ensures budget > 0 ==> LargestPrefix(text, budget, clipped)
  {
    if budget <= 0 {
      return "";
    }
    assert text[..|text|] == text;
    if Estimate(text) <= budget {
      return text;
    }
    var low, high := 0, |text|;
    while low < high
      invariant 0 <= low <= high <= |text|
      invariant Estimate(text[..low]) <= budget
      invariant forall n :: high < n <= |text| ==> Estimate(text[..n]) > budget
    {
      var mid := (low + high + 1) / 2;
      if Estimate(text[..mid]) <= budget {
        low := mid;
      } else {
        forall n | mid <= n <= |text| ensures Estimate(text[..n]) > budget {
          EstimateIsMonotone(text, mid, n);
        }
        high := mid - 1;
      }
    }
    return text[..low];
  }

  /** That prefix is the only one, and it uses the budget up to a token whenever something was cut. */
  lemma LargestPrefixIsTight(text: string, budget: int, a: string, b: string)
    requires LargestPrefix(text, budget, a) && LargestPrefix(text, budget, b)
    ensures a == b
    ensures a != text ==> Estimate(a) == budget
  {
    assert a == text[..|a|] && b == text[..|b|];
    if a != text { EstimateIsMonotone(text, |a|, |a| + 1); }
  }
}
