/** The records of the game (types.ts): a question card, a card-set toggle and
    the view the app is showing. Optional TypeScript properties become Option. */
module Types {

  datatype Option<+T> = None | Some(value: T)

  /** A prompt card. `wildcard` and `category` are optional properties. */
  datatype Question = Question(id: int, text: string, wildcard: Option<bool>, category: Option<string>)

  /** One toggle of the card-set options screen. */
  datatype CardSetOption = CardSetOption(id: string, name: string, description: string, enabled: bool, icon: Option<string>)

  datatype ViewState = Splash | Game

  /** `if (q.category)` is a truthiness test: an absent category and the
      empty string both count as "no category". */
  predicate IsCategorised(q: Question)
  {
    q.category.Some? && q.category.value != ""
  }

  /** `card.wildcard && ...` shows the badge only for a present, true flag. */
  predicate IsWildcard(q: Question)
  {
    q.wildcard == Some(true)
  }
}
