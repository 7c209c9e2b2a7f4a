/**
 * The card table's game state: the previous and current card, the match
 * counters, the kind of the latest match, the number of cards drawn and the
 * number left in the deck, together with the choice between the probability
 * panel and the final totals.
 */
module CardTable {
  import opened CardInterfaces
  import opened Probabilities

  /** What one run of the match check produces: the new counters, and the match kind it reports, if any. */
  datatype MatchOutcome = MatchOutcome(counts: Matches, kind: Option<MatchType>)

  /**
   * `checkForMatches`: compare the current card with the previous one, value
   * first and suit only when the values differ, and bump at most one counter.
   * With either card missing nothing is compared and nothing is reported.
   */
  function CheckForMatches(previous: Option<Card>, current: Option<Card>, counts: Matches): (r: MatchOutcome)
    ensures r.kind == Some(ValueMatch)
        <==> previous.Some? && current.Some? && current.value.value == previous.value.value
    ensures r.kind == Some(SuitMatch)
        <==> previous.Some? && current.Some? && current.value.value != previous.value.value
             && current.value.suit == previous.value.suit
    ensures r.counts == match r.kind
                        case None => counts
                        case Some(ValueMatch) => counts.(values := counts.values + 1)
                        case Some(SuitMatch) => counts.(suits := counts.suits + 1)
    ensures counts.values <= r.counts.values && counts.suits <= r.counts.suits
    ensures r.counts.values + r.counts.suits <= counts.values + counts.suits + 1
  {
    if previous.None? || current.None? then
      MatchOutcome(counts, None)
    else if current.value.value == previous.value.value then
      MatchOutcome(counts.(values := counts.values + 1), Some(ValueMatch))
    else if current.value.suit == previous.value.suit then
      MatchOutcome(counts.(suits := counts.suits + 1), Some(SuitMatch))
    else
      MatchOutcome(counts, None)
  }

  /** The most recently drawn card, if any. */
  function LastOf(drawn: seq<Card>): (c: Option<Card>)
    ensures c.Some? <==> |drawn| > 0
  {
    if |drawn| == 0 then None else Some(drawn[|drawn| - 1])
  }

  /** The card drawn just before the most recent one, if any. */
  function PreviousOf(drawn: seq<Card>): (c: Option<Card>)
    ensures c.Some? <==> |drawn| > 1
  {
    if |drawn| < 2 then None else Some(drawn[|drawn| - 2])
  }

  /**
   * The counters after a whole sequence of draws, with the match check run once
   * after each draw on the two newest cards: the reference the table's
   * `counts` field is kept equal to.
   */
  function Tally(drawn: seq<Card>): (m: Matches)
    ensures |drawn| <= 1 ==> m == NoMatches
  {
    if |drawn| == 0 then NoMatches
    else CheckForMatches(PreviousOf(drawn), LastOf(drawn), Tally(drawn[..|drawn| - 1])).counts
  }

  /**
   * The match kind reported after the latest draw of a sequence: a value match
   * when the two newest cards share a value, a suit match when they share only
   * a suit, and nothing on the first draw or when they share neither.
   */
  function LatestMatch(drawn: seq<Card>): (kind: Option<MatchType>)
    ensures kind == Some(ValueMatch)
        <==> |drawn| >= 2 && drawn[|drawn| - 1].value == drawn[|drawn| - 2].value
    ensures kind == Some(SuitMatch)
        <==> |drawn| >= 2 && drawn[|drawn| - 1].value != drawn[|drawn| - 2].value
             && drawn[|drawn| - 1].suit == drawn[|drawn| - 2].suit
  {
    if |drawn| == 0 then None
    else CheckForMatches(PreviousOf(drawn), LastOf(drawn), Tally(drawn[..|drawn| - 1])).kind
  }

  /** Each draw after the first is one comparison, so n draws yield at most n - 1 matches in all. */
  lemma {:induction false} TallyBound(drawn: seq<Card>)
    ensures Tally(drawn).values + Tally(drawn).suits + 1 <= |drawn| || Tally(drawn) == NoMatches
  {
    if |drawn| > 0 {
      var front := drawn[..|drawn| - 1];
      TallyBound(front);
      if |front| == 0 {
        assert Tally(drawn) == NoMatches;
      }
    }
  }

  /** The counters never fall: the tally of any prefix of the draws is below the tally of all of them. */
  lemma {:induction false} TallyMonotone(drawn: seq<Card>, n: nat)
    requires n <= |drawn|
    ensures Tally(drawn[..n]).values <= Tally(drawn).values
    ensures Tally(drawn[..n]).suits <= Tally(drawn).suits
    decreases |drawn| - n
  {
    if n < |drawn| {
      var front := drawn[..|drawn| - 1];
      assert drawn[..n] == front[..n];
      TallyMonotone(front, n);
    } else {
      assert drawn[..n] == drawn;
    }
  }

  /** Which panel the table shows under the cards. */
  datatype Panel =
    | FinalMatchedValues(finalCounts: Matches)
    | ProbabilityPanel(remainingCards: nat, probability: real)

  /**
   * The branch on the remaining-card count: at zero the final totals, otherwise
   * the remaining count and the match probability. This guard is what keeps the
   * calculator away from a zero divisor.
   */
  function Render(remaining: nat, counts: Matches): (v: Panel)
    ensures v.FinalMatchedValues? <==> remaining == 0
    ensures v.FinalMatchedValues? ==> v.finalCounts == counts
    ensures v.ProbabilityPanel? ==> v.remainingCards == remaining > 0
    ensures v.ProbabilityPanel? ==> 0.0 <= v.probability <= 1.0
    ensures v.ProbabilityPanel? ==> v.probability == CalculateProbability(remaining, counts)
  {
    if remaining == 0 then FinalMatchedValues(counts)
    else ProbabilityPanel(remaining, CalculateProbability(remaining, counts))
  }

  /** `Probabilities.Min` works on the calculator's reals; the draw counter needs the same on naturals. */
  function MinNat(a: nat, b: nat): (m: nat) { if a <= b then a else b }

  /**
   * The card table's state once the shuffled deck has been stored. Each
   * successful draw response is followed by exactly one run of the match check.
   */
  class Table {
    var previous: Option<Card>
    var current: Option<Card>
    var counts: Matches
    var matchType: Option<MatchType>
    /** Draws counted so far, capped at the size of the shuffled deck. */
    var cardCount: nat
    /** Cards left in the deck, as the latest draw response reported it. */
    var remaining: nat
    /** The `remaining` of the shuffled deck, fixed once the deck is stored. */
    var deckRemaining: nat
    /** Every card drawn so far, oldest first. */
    ghost var drawn: seq<Card>

    ghost predicate Valid()
      reads this
    {
      && current == LastOf(drawn)
      && previous == PreviousOf(drawn)
      && counts == Tally(drawn)
      && matchType == LatestMatch(drawn)
      && cardCount == MinNat(|drawn|, deckRemaining)
    }

    /** Mounted table after the shuffle: no cards, zero counts, 52 shown as remaining. */
    constructor (shuffledRemaining: nat)
      ensures Valid()
      ensures drawn == [] && previous == None && current == None
      ensures counts == NoMatches && matchType == None
      ensures cardCount == 0 && remaining == 52 && deckRemaining == shuffledRemaining
    {
      previous, current := None, None;
      counts := NoMatches;
      matchType := None;
      cardCount := 0;
      remaining := 52;
      deckRemaining := shuffledRemaining;
      drawn := [];
    }

    /**
     * A successful draw: reset the match kind, shift the current card to
     * previous, show the drawn card, count it while the count is below the
     * deck size, store the reported remaining count, then run the match check.
     */
    method Draw(card: Card, newRemaining: nat)
      requires Valid()
      modifies this
      ensures Valid()
      ensures drawn == old(drawn) + [card]
      ensures previous == old(current) && current == Some(card)
      ensures remaining == newRemaining && deckRemaining == old(deckRemaining)
      ensures cardCount == if old(cardCount) < deckRemaining then old(cardCount) + 1 else old(cardCount)
      ensures cardCount <= deckRemaining
      ensures var outcome := CheckForMatches(old(current), Some(card), old(counts));
              counts == outcome.counts && matchType == outcome.kind
      ensures old(counts).values <= counts.values && old(counts).suits <= counts.suits
      ensures counts.values + counts.suits <= old(counts).values + old(counts).suits + 1
    {
      matchType := None;
      previous := current;
      current := Some(card);
      if cardCount < deckRemaining {
        cardCount := cardCount + 1;
      }
      remaining := newRemaining;
      drawn := drawn + [card];
      assert drawn[..|drawn| - 1] == old(drawn);

      // the effect that watches the two cards runs once after the draw
      var outcome := CheckForMatches(previous, current, counts);
      counts := outcome.counts;
      if outcome.kind.Some? {
        matchType := outcome.kind;
      }
    }
  }

  /**
   * Two draws of the same value on a fresh table: the first reports nothing,
   * the second is reported as a value match, and the panel then shows 50 cards
   * left with probability 0.32.
   */
  method SnapValueScenario(first: Card, second: Card) returns (firstKind: Option<MatchType>, secondKind: Option<MatchType>, panel: Panel)
    requires first.value == second.value
    ensures firstKind == None && secondKind == Some(ValueMatch)
    ensures panel == ProbabilityPanel(50, 0.32)
  {
    var table := new Table(52);
    table.Draw(first, 51);
    firstKind := table.matchType;
    table.Draw(second, 50);
    secondKind := table.matchType;
    assert table.counts == Matches(1, 0);
    AfterOneValueMatch();
    panel := Render(table.remaining, table.counts);
  }
}
