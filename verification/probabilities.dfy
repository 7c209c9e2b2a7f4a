/**
 * The match-probability calculator behind the "Total Match Probability" line.
 *
 * Every quantity is an exact `real`: the deck sizes are the same small integers
 * the component divides, and rounding of IEEE doubles is not modelled.
 */
module Probabilities {
  import opened CardInterfaces

  const TotalCards: real := 52.0
  const TotalSuits: real := 4.0
  const TotalValues: real := 13.0

  function Min(a: real, b: real): (m: real) { if a <= b then a else b }

  function Max(a: real, b: real): (m: real) { if a >= b then a else b }

  /** Cards of the current suit still able to produce a suit match: a suit has 52 / 4 cards. */
  function SuitMatchesRemaining(m: Matches): (n: real)
    ensures n == 13.0 - m.suits as real
    ensures n <= 13.0
  {
    TotalCards / TotalSuits - m.suits as real
  }

  /** Cards of the current value still able to produce a value match: a value has 52 / 13 cards. */
  function ValueMatchesRemaining(m: Matches): (n: real)
    ensures n == 4.0 - m.values as real
    ensures n <= 4.0
  {
    TotalCards / TotalValues - m.values as real
  }

  /** `Math.max(0, Math.min(1, x))`: the nearest point of [0, 1] to `x`. */
  function Clamp(x: real): (r: real)
    ensures 0.0 <= r <= 1.0
    ensures 0.0 <= x <= 1.0 ==> r == x
    ensures x < 0.0 ==> r == 0.0
    ensures x > 1.0 ==> r == 1.0
  {
    Max(0.0, Min(1.0, x))
  }

  lemma DivAdd(a: real, b: real, r: real)
    requires r > 0.0
    ensures a / r + b / r == (a + b) / r
  {
    assert (a / r) * r == a && (b / r) * r == b && ((a + b) / r) * r == a + b;
  }

  lemma DivMonotone(a: real, b: real, r: real)
    requires r > 0.0 && a <= b
    ensures a / r <= b / r
  {
    assert (a / r) * r == a && (b / r) * r == b;
  }

  /**
   * The inclusion-exclusion estimate before clamping, from the suit and value
   * matches still possible and the cards left: suit probability plus value
   * probability minus an overlap term that is non-zero only when the two
   * remaining counts together exceed the cards left. That overlap term makes
   * the estimate exactly 1 whenever it applies; otherwise the estimate is the
   * plain sum of the two chances.
   */
  function CombinedProbability(suitMatchesRemaining: real, valueMatchesRemaining: real, r: real): (c: real)
    requires r > 0.0
    ensures suitMatchesRemaining + valueMatchesRemaining > r ==> c == 1.0
    ensures suitMatchesRemaining + valueMatchesRemaining <= r ==> c == (suitMatchesRemaining + valueMatchesRemaining) / r
  {
    var suitProbability := suitMatchesRemaining / r;
    var valueProbability := valueMatchesRemaining / r;
    var bothMatchesRemaining := suitMatchesRemaining + valueMatchesRemaining - r;
    var bothProbability := if bothMatchesRemaining > 0.0 then bothMatchesRemaining / r else 0.0;
    DivAdd(suitMatchesRemaining, valueMatchesRemaining, r);
    DivAdd(bothMatchesRemaining, r, r);
    suitProbability + valueProbability - bothProbability
  }

  /**
   * `calculateProbability`: the chance that the next card matches the current
   * one by value or by suit, for any counts. There is no guard against
   * division by zero: the caller must not ask at zero remaining cards.
   */
  function CalculateProbability(remainingCards: int, m: Matches): (p: real)
    requires remainingCards > 0
    ensures 0.0 <= p <= 1.0
  {
    Clamp(CombinedProbability(SuitMatchesRemaining(m), ValueMatchesRemaining(m), remainingCards as real))
  }

  /** When the two remaining counts together exceed the cards left, the estimate is exactly 1 before clamping. */
  lemma OverlapMakesCertain(remainingCards: int, m: Matches)
    requires remainingCards > 0
    requires SuitMatchesRemaining(m) + ValueMatchesRemaining(m) > remainingCards as real
    ensures CombinedProbability(SuitMatchesRemaining(m), ValueMatchesRemaining(m), remainingCards as real) == 1.0
    ensures CalculateProbability(remainingCards, m) == 1.0
  {
  }

  /** Without overlap the overlap term vanishes and the result is the clamped (17 - suits - values) / remainingCards. */
  lemma NoOverlapSumsTheTwoChances(remainingCards: int, m: Matches)
    requires remainingCards > 0
    requires SuitMatchesRemaining(m) + ValueMatchesRemaining(m) <= remainingCards as real
    ensures CombinedProbability(SuitMatchesRemaining(m), ValueMatchesRemaining(m), remainingCards as real)
         == (17.0 - m.suits as real - m.values as real) / remainingCards as real
    ensures CalculateProbability(remainingCards, m) == Clamp((17.0 - m.suits as real - m.values as real) / remainingCards as real)
  {
  }

  /** The clamped estimate is the capped and floored share (sr + vr) / r. */
  lemma ClampedClosedForm(sr: real, vr: real, r: real)
    requires r > 0.0
    ensures Clamp(CombinedProbability(sr, vr, r)) == Max(0.0, Min(sr + vr, r)) / r
  {
    var a := sr + vr;
    if a > r {
      assert Max(0.0, Min(a, r)) / r == r / r;
    } else if a < 0.0 {
      DivMonotone(a, 0.0, r);
      assert Max(0.0, Min(a, r)) / r == 0.0;
    } else {
      DivMonotone(a, r, r);
      assert Max(0.0, Min(a, r)) == a;
    }
  }

  /**
   * Closed form for any counts: the result is the share of the remaining cards
   * that can still match, capped by the remaining cards and floored at zero.
   */
  lemma ClosedForm(remainingCards: int, m: Matches)
    requires remainingCards > 0
    ensures CalculateProbability(remainingCards, m)
         == Max(0.0, Min(SuitMatchesRemaining(m) + ValueMatchesRemaining(m), remainingCards as real)) / remainingCards as real
  {
    ClampedClosedForm(SuitMatchesRemaining(m), ValueMatchesRemaining(m), remainingCards as real);
  }

  /** With the counts inside their nominal ranges, the result is min(sr + vr, r) / r. */
  lemma ClosedFormWithinNominalCounts(remainingCards: int, m: Matches)
    requires remainingCards > 0
    requires m.suits <= 13 && m.values <= 4
    ensures CalculateProbability(remainingCards, m)
         == Min(SuitMatchesRemaining(m) + ValueMatchesRemaining(m), remainingCards as real) / remainingCards as real
  {
    ClosedForm(remainingCards, m);
  }

  /** For a fixed number of remaining cards, more matches seen never raise the probability of another. */
  lemma MoreMatchesNeverRaiseProbability(remainingCards: int, m: Matches, m': Matches)
    requires remainingCards > 0
    requires m.suits <= m'.suits && m.values <= m'.values
    ensures CalculateProbability(remainingCards, m') <= CalculateProbability(remainingCards, m)
  {
    var r := remainingCards as real;
    var a := Max(0.0, Min(SuitMatchesRemaining(m) + ValueMatchesRemaining(m), r));
    var a' := Max(0.0, Min(SuitMatchesRemaining(m') + ValueMatchesRemaining(m'), r));
    ClosedForm(remainingCards, m);
    ClosedForm(remainingCards, m');
    DivMonotone(a', a, r);
  }

  /**
   * After the first draw of a fresh deck: 51 cards left, no matches yet. The
   * result is 17 / 51 = 1 / 3, which two-decimal percentage rounding shows as 33.33%.
   */
  lemma FirstDrawShowsOneThird()
    ensures CalculateProbability(51, NoMatches) == 1.0 / 3.0
    ensures 3332.5 <= CalculateProbability(51, NoMatches) * 10000.0 < 3333.5
  {
    NoOverlapSumsTheTwoChances(51, NoMatches);
  }

  /** 50 cards left after one value match: (13 + 3) / 50 = 0.32, shown as 32.00%. */
  lemma AfterOneValueMatch()
    ensures CalculateProbability(50, Matches(1, 0)) == 0.32
  {
    NoOverlapSumsTheTwoChances(50, Matches(1, 0));
  }
}
