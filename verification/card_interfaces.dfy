/** The value types shared by the card table and the probability panel. */
module CardInterfaces {

  /** A reference that may be null, as `CardType | null` is in the component state. */
  datatype Option<+T> = None | Some(value: T)

  /** A drawn card: its rank, its suit name and the URL of its picture. */
  datatype Card = Card(image: string, value: int, suit: string)

  /** The running match counters: how many draws matched the previous card by value, and by suit. */
  datatype Matches = Matches(values: nat, suits: nat)

  /** The kind of match a draw produced; `Option<MatchType>` stands for `"value" | "suit" | null`. */
  datatype MatchType = ValueMatch | SuitMatch

  /** Counters at the start of a game. */
  const NoMatches: Matches := Matches(0, 0)
}
