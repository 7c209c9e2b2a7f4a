# Snap card table: match counter and match-probability calculator

This project models the two pieces of logic in the Snap card-game front-end.

- **The match counter and draw state of the card table** (`CardTable.Table`). A successful draw works as follows:
  - it clears the reported match kind;
  - the current card becomes the previous card, and the drawn card becomes the current card;
  - the draw counter goes up, but only while it is below the shuffled deck's `remaining`;
  - the `remaining` count from the draw response is stored.

  The match check (`CardTable.CheckForMatches`) then runs once. It compares the two cards by value first, and by suit only when the values differ. It increments at most one of the two counters and reports `value`, `suit` or nothing. A ghost history of the drawn cards, together with the reference function `CardTable.Tally`, gives the counters as a function of everything drawn so far. The class invariant `Valid()` ties the two cards, the counters, the match kind and the draw counter to that history; `remaining` is simply the count the latest draw response reported, and `deckRemaining` is fixed when the table is built.
- **The probability calculator** (`Probabilities.CalculateProbability`). It computes three terms:
  - a suit chance, `(52/4 - suits) / remainingCards`;
  - a value chance, `(52/13 - values) / remainingCards`;
  - an overlap term. This term is non-zero only when the two remaining counts together exceed `remainingCards`.

  The result is suit chance + value chance − overlap, clamped to [0, 1]. It is computed in exact `real` arithmetic. The main proved fact is a closed form: for any counts the result is `max(0, min(sr + vr, r)) / r`, and with the counts in their nominal ranges it is `min(sr + vr, r) / r`.
- **The panel choice under the cards** (`CardTable.Render`). At zero remaining cards the table shows the final totals. Otherwise it shows the probability. This branch is the only guard that keeps the calculator, which has no zero check of its own, from dividing by zero.

Files: `card_interfaces.dfy` (card, counters, match kind), `probabilities.dfy`, `card_table.dfy`.

## Model

| member | source | states |
|---|---|---|
| `Probabilities.SuitMatchesRemaining` | src/components/Probabilities.tsx:9-13 | 52 cards over 4 suits leaves `13 - suits` possible suit matches, never more than 13 |
| `Probabilities.ValueMatchesRemaining` | src/components/Probabilities.tsx:9-16 | 52 cards over 13 values leaves `4 - values` possible value matches, never more than 4 |
| `Probabilities.Clamp` | src/components/Probabilities.tsx:27 | the result lies in [0, 1]; a value already in [0, 1] is kept, a value below is raised to 0 and a value above is lowered to 1 |
| `Probabilities.CalculateProbability` | src/components/Probabilities.tsx:8-28 | for every `remainingCards > 0` and any counts, including counts above 13 or 4, the probability lies in [0, 1] |
| `Probabilities.CombinedProbability` | src/components/Probabilities.tsx:14-25 | the inclusion-exclusion estimate before clamping (suit chance plus value chance minus the overlap term) is exactly 1 when `sr + vr > r`, and `(sr + vr) / r` otherwise, for all reals with `r > 0` |
| `Probabilities.OverlapMakesCertain` | src/components/Probabilities.tsx:19-25 | when the two remaining counts exceed the cards left, the combined value, and so the result, is exactly 1 |
| `Probabilities.NoOverlapSumsTheTwoChances` | src/components/Probabilities.tsx:19-27 | without overlap the overlap term is 0, and the result is the clamped `(17 - suits - values) / remainingCards` |
| `Probabilities.ClampedClosedForm` | src/components/Probabilities.tsx:19-27 | the clamped estimate equals `max(0, min(sr + vr, r)) / r` for any real inputs with `r > 0` |
| `Probabilities.ClosedForm` | src/components/Probabilities.tsx:8-28 | for any counts the probability equals `max(0, min(sr + vr, r)) / r` |
| `Probabilities.ClosedFormWithinNominalCounts` | src/components/Probabilities.tsx:13-27 | with `suits <= 13` and `values <= 4`, the probability equals `min(sr + vr, r) / r` |
| `Probabilities.MoreMatchesNeverRaiseProbability` | src/components/Probabilities.tsx:13-27 | for fixed `remainingCards`, larger counts never give a larger probability. This holds for all counts, not only nominal ones |
| `Probabilities.FirstDrawShowsOneThird` | src/__tests__/CardTable.test.tsx:101-127 | 51 cards left and no matches give exactly 1/3, which rounds to 33.33 percent at two decimals |
| `Probabilities.AfterOneValueMatch` | src/components/Probabilities.tsx:13-25 | 50 cards left and one value match give exactly 0.32 |
| `CardTable.CheckForMatches` | src/components/CardTable.tsx:92-110 | a value match is reported exactly when both cards exist and have equal values. A suit match is reported exactly when both exist, the values differ and the suits are equal. The counters change only as the reported kind says: `values + 1` for a value match, `suits + 1` for a suit match, otherwise unchanged, including when a card is missing. So one check never lowers a counter and raises `values + suits` by at most 1 |
| `CardTable.Tally` | src/components/CardTable.tsx:92-113 | the counters after a sequence of draws, with the match check run once after each draw on the two newest cards; after at most one draw they are both zero |
| `CardTable.LatestMatch` | src/components/CardTable.tsx:65-106 | the match kind shown after the latest draw: a value match exactly when the two newest cards share a value, a suit match exactly when they share only a suit, nothing otherwise (including the first draw) |
| `CardTable.TallyBound` | src/components/CardTable.tsx:91-113 | over a game of n draws, with the check run after each draw, the counters stay at zero or `values + suits <= n - 1` |
| `CardTable.TallyMonotone` | src/components/CardTable.tsx:97-108 | the counters after any prefix of the draws are at most the counters after all of them: match counts never decrease within a game |
| `CardTable.Render` | src/components/CardTable.tsx:188-195 | the final totals are shown exactly when `remaining == 0`. Otherwise the probability panel shows `remaining > 0` and a probability in [0, 1], computed by the calculator |
| `CardTable.Table.constructor` | src/components/CardTable.tsx:10-26 | the table starts with no cards, zero counts, no match kind, draw counter 0 and 52 shown as remaining, and keeps the deck's `remaining` |
| `CardTable.Table.Draw` | src/components/CardTable.tsx:63-113 | after a draw, `previous` is the old current card, `current` is the drawn card and `remaining` is the reported count. The draw counter rises only while it is below the deck's `remaining`, so it never exceeds it. The counters and match kind are the result of the check on the two newest cards; an unmatched draw leaves the kind cleared. The class invariant ties the two cards, the counters, the match kind and the draw counter to the draw history |
| `CardTable.SnapValueScenario` | src/__tests__/CardTable.test.tsx:130-156 | two draws of equal value on a fresh table: the first reports no match, the second reports a value match, and the panel shows 50 cards left with probability 0.32 |

## Left out

- The HTTP calls to the deck API are not modelled, and neither are their status checks. This covers both the shuffle request and the draw request. A draw is the method `Draw(card, newRemaining)`, called only for a successful response. The table is constructed after the shuffled deck's `remaining` has been stored. Until then the draw URL carries `null` as the deck id; the model assumes such a draw is not successful.
- Failure paths (toast notifications and `console.error`) are not modelled. They are user-interface side effects with no effect on the modelled state.
- The animation flag and its 250 ms reset timer are not modelled. They are timing and presentation only.
- React scheduling is not modelled. The match-check effect is taken to run exactly once after each successful draw, on the state that draw produced. The effect's run at mount, with both cards null, changes nothing and is not modelled separately.
- Draws are modelled one at a time: each response is handled before the next click. The source keeps the Draw button enabled while a request is in flight, and the click handler reads the current card and the draw counter from the render in which the click happened. With overlapping requests the source shifts the card captured at click time rather than the card shown, so the match check can compare a card with one that was never its predecessor, and both handlers can pass the counter test, pushing `cardCount` past the deck's `remaining`. The model does not capture these interleavings.
- `toFixed(2)` percentage formatting is not modelled. The probability is an exact rational, where the source uses IEEE doubles. `FirstDrawShowsOneThird` states the rounding bound for the 33.33 % example instead of modelling the string.
- The remaining-count sequence from the API is not constrained. The model stores whatever count the draw response reports and does not assume it falls by one per draw.
- Card values are integers, as the card interface declares. The deck API actually sends strings, but only equality between values is used, so the choice does not matter.
- The JSX of the probability panel, the final-values panel and the card images is not modelled. These are presentational.

The presentational components `App`, `Card` and `FinalMatchedValues`, the test harness and the Jest configuration are not part of this model.
