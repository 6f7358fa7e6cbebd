/** The card component (components/GameCard.tsx): what it shows for a card
    or for `null`, and the text-size classes it picks from the text length.
    Theme colours and animation are not modelled. */
module GameCard {
  import opened Types

  /** The five size classes, largest text first. */
  const SizeClasses: seq<string> := [
    "text-lg md:text-3xl lg:text-4xl",
    "text-base md:text-2xl lg:text-3xl",
    "text-sm md:text-xl lg:text-2xl",
    "text-xs md:text-lg lg:text-xl",
    "text-xs md:text-base lg:text-lg"
  ]

  /** The length bounds of the first four classes, ascending. */
  const Thresholds: seq<int> := [40, 80, 120, 180]

  /** How many of the bounds `ts` a text of this length exceeds. */
  function Exceeded(textLength: int, ts: seq<int>): (n: nat)
    ensures n <= |ts|
  {
    if ts == [] then 0
    else (if textLength > ts[0] then 1 else 0) + Exceeded(textLength, ts[1..])
  }

  /** The size bucket of a text: the number of thresholds its length exceeds. */
  function SizeRank(textLength: int): (rank: nat)
    ensures rank < |SizeClasses|
  {
    Exceeded(textLength, Thresholds)
  }

  lemma UnfoldRank(textLength: int)
    ensures SizeRank(textLength) == (if textLength > 40 then 1 else 0) + (if textLength > 80 then 1 else 0)
                                  + (if textLength > 120 then 1 else 0) + (if textLength > 180 then 1 else 0)
  {
    var n := textLength;
    assert Exceeded(n, [180]) == (if n > 180 then 1 else 0) by { assert [180][1..] == []; }
    assert Exceeded(n, [120, 180]) == (if n > 120 then 1 else 0) + Exceeded(n, [180]) by { assert [120, 180][1..] == [180]; }
    assert Exceeded(n, [80, 120, 180]) == (if n > 80 then 1 else 0) + Exceeded(n, [120, 180]) by { assert [80, 120, 180][1..] == [120, 180]; }
    assert Exceeded(n, Thresholds) == (if n > 40 then 1 else 0) + Exceeded(n, [80, 120, 180]) by { assert Thresholds[1..] == [80, 120, 180]; }
  }

  /** `getFontSizeClass`: a chain of threshold tests. It is total and picks
      the class of the length's bucket. */
  function FontSizeClass(textLength: int): (c: string)
    ensures c == SizeClasses[SizeRank(textLength)]
  {
    UnfoldRank(textLength);
    if textLength <= 40 then "text-lg md:text-3xl lg:text-4xl"
    else if textLength <= 80 then "text-base md:text-2xl lg:text-3xl"
    else if textLength <= 120 then "text-sm md:text-xl lg:text-2xl"
    else if textLength <= 180 then "text-xs md:text-lg lg:text-xl"
    else "text-xs md:text-base lg:text-lg"
  }

  /** A longer text exceeds at least the bounds a shorter one does. */
  lemma {:induction false} ExceededMonotone(a: int, b: int, ts: seq<int>)
    requires a <= b
    ensures Exceeded(a, ts) <= Exceeded(b, ts)
  {
    if ts != [] {
      ExceededMonotone(a, b, ts[1..]);
    }
  }

  /** A longer text never gets a larger text size than a shorter one. */
  lemma FontSizeMonotone(a: int, b: int)
    requires a <= b
    ensures SizeRank(a) <= SizeRank(b)
    ensures FontSizeClass(a) == SizeClasses[SizeRank(a)] && FontSizeClass(b) == SizeClasses[SizeRank(b)]
  {
    ExceededMonotone(a, b, Thresholds);
  }

  /** What the component renders: the "End of Deck" placeholder, or a card
      face with its text, size class and wildcard badge. `textVisible` is
      the rotation: the text side faces the viewer when flipped. */
  datatype CardView =
    | EndOfDeck
    | Face(key: int, text: string, fontClass: string, wildcardBadge: bool, textVisible: bool)

  function Render(card: Option<Question>, isFlipped: bool): (v: CardView)
    ensures v.EndOfDeck? <==> card.None?
    ensures card.Some? ==> v.key == card.value.id && v.text == card.value.text
    ensures card.Some? ==> (v.wildcardBadge <==> card.value.wildcard == Some(true))
    ensures card.Some? ==> v.fontClass == SizeClasses[SizeRank(|card.value.text|)] && v.textVisible == isFlipped
  {
    match card
    case None => EndOfDeck
    case Some(q) => Face(q.id, q.text, FontSizeClass(|q.text|), IsWildcard(q), isFlipped)
  }

  /** Only a card face carries the click handler; the placeholder ignores
      clicks. */
  predicate HasFlipHandler(v: CardView)
  {
    v.Face?
  }
}
