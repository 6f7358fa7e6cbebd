/** The `App` component's game state (types.ts `GameState`, App.tsx) as an
    object whose fields the handlers update in place. React setters are
    sequential field assignments; `QUESTIONS` is the constant `questions`;
    `Math.random` is the `random` argument of the handlers that shuffle. */
module Session {
  import opened Types
  import opened Seqs
  import opened Shuffle
  import opened CardSets
  import opened Deck
  import GameCard

  /** `s` is a deal of `pool`: nothing on screen means nothing left to
      draw, and history, card on screen and deck together hold exactly the
      cards of the pool, each as often as in the pool. */
  predicate DealOf(s: DeckState, pool: seq<Question>)
  {
    Consistent(s)
    && multiset(s.history) + multiset(CurrentSeq(s.currentCard)) + multiset(s.deck) == multiset(pool)
  }

  /** A deal holds as many cards as its pool. */
  lemma DealSize(s: DeckState, pool: seq<Question>)
    requires DealOf(s, pool)
    ensures |s.history| + |CurrentSeq(s.currentCard)| + |s.deck| == |pool|
  {
    assert |multiset(s.history + CurrentSeq(s.currentCard) + s.deck)| == |pool|;
  }

  /** Dealing any arrangement of the pool deals the pool. */
  lemma InitDealsPool(dealt: seq<Question>, pool: seq<Question>)
    requires multiset(dealt) == multiset(pool)
    ensures DealOf(Init(dealt), pool)
  {
    if dealt != [] {
      assert dealt == dealt[..|dealt| - 1] + [dealt[|dealt| - 1]];
    }
  }

  /** `nextCard` moves a card from screen to history and from deck to
      screen without adding or losing one. */
  lemma NextKeepsDeal(s: DeckState, pool: seq<Question>)
    requires DealOf(s, pool)
    ensures DealOf(Next(s), pool)
  {
    if s.currentCard.Some? && s.deck != [] {
      var d := s.deck;
      assert d == d[..|d| - 1] + [d[|d| - 1]];
    }
  }

  /** `prevCard` moves a card from history to screen and from screen to
      deck without adding or losing one. */
  lemma PrevKeepsDeal(s: DeckState, pool: seq<Question>)
    requires DealOf(s, pool)
    ensures DealOf(Prev(s), pool)
  {
    if s.history != [] {
      var h := s.history;
      assert h == h[..|h| - 1] + [h[|h| - 1]];
    }
  }

  /** However many times "next" is pressed after a deal, the cards read
      in showing order (history, screen, then the stack from its top) are
      a rearrangement of the selected questions; when the question list
      has distinct ids, no card is shown twice. */
  lemma DealShowsEachQuestionOnce(questions: seq<Question>, sets: seq<CardSetOption>, random: seq<real>, k: nat)
    requires IsRandomSource(random) && |questions| <= |random| + 1
    ensures var pool := FilterQuestions(questions, sets);
      var s := NextN(Init(Shuffled(pool, random)), k);
      multiset(Timeline(s)) == multiset(pool)
      && |s.history| + |CurrentSeq(s.currentCard)| + |s.deck| == |pool|
      && (UniqueIds(questions) ==> UniqueIds(Timeline(s)))
  {
    var pool := FilterQuestions(questions, sets);
    var dealt := Shuffled(pool, random);
    var s := NextN(Init(dealt), k);
    ShuffledPermutes(pool, random);
    ReversePermutes(dealt);
    DrawsInOrder(dealt, k);
    assert |multiset(Timeline(s))| == |Timeline(s)|;
    if UniqueIds(questions) {
      FilterKeepsUniqueIds(questions, sets);
      SubCollectionKeepsUniqueIds(pool, Timeline(s));
    }
  }

  class GameState {
    const questions: seq<Question>
    var view: ViewState
    var cardSets: seq<CardSetOption>
    var deck: seq<Question>
    var history: seq<Question>
    var currentCard: Option<Question>
    var isFlipped: bool
    /** The questions the current deck was dealt from, in pool order. */
    ghost var pool: seq<Question>

    ghost function Snapshot(): DeckState
      reads this`deck, this`history, this`currentCard, this`isFlipped
    {
      DeckState(deck, history, currentCard, isFlipped)
    }

    /** The session is a deal of `pool`. */
    ghost predicate Valid()
      reads this`deck, this`history, this`currentCard, this`isFlipped, this`pool
    {
      DealOf(Snapshot(), pool)
    }

    /** The initial state: splash view, default options, no deck. */
    constructor (questions: seq<Question>)
      ensures Valid() && this.questions == questions
      ensures view == Splash && cardSets == DefaultCardSets
      ensures deck == [] && history == [] && currentCard == None && !isFlipped
    {
      this.questions := questions;
      view := Splash;
      cardSets := DefaultCardSets;
      deck := [];
      history := [];
      currentCard := None;
      isFlipped := false;
      pool := [];
      new;
      assert Snapshot() == Init([]);
      InitDealsPool([], []);
    }

    /** `initializeDeck`: filter by the enabled sets, shuffle, pop the first
        card; no history, face down. */
    method InitializeDeck(random: seq<real>)
      requires IsRandomSource(random) && |questions| <= |random| + 1
      modifies this`deck, this`history, this`currentCard, this`isFlipped, this`pool
      ensures Valid() && pool == FilterQuestions(questions, cardSets)
      ensures Snapshot() == Init(Shuffled(pool, random))
    {
      var enabledCategories := EnabledCategories(cardSets);
      var filtered := FilterBy(questions, enabledCategories);
      var shuffled := ShuffleArray(filtered, random);
      ghost var dealt := shuffled;
      var first: Option<Question> := None;
      if |shuffled| > 0 {
        first := Some(shuffled[|shuffled| - 1]);
        shuffled := shuffled[..|shuffled| - 1];
      }
      deck := shuffled;
      currentCard := first;
      history := [];
      isFlipped := false;
      pool := filtered;
      assert Snapshot() == Init(dealt);
      InitDealsPool(dealt, filtered);
    }

    /** `startGame`. */
    method StartGame(random: seq<real>)
      requires IsRandomSource(random) && |questions| <= |random| + 1
      modifies this`view, this`deck, this`history, this`currentCard, this`isFlipped, this`pool
      ensures Valid() && view == Game && pool == FilterQuestions(questions, cardSets)
      ensures Snapshot() == Init(Shuffled(pool, random))
    {
      InitializeDeck(random);
      ghost var dealt := Snapshot();
      view := Game;
      assert Snapshot() == dealt;
    }

    /** The settings button: back to the options screen, deck kept. */
    method OpenSettings()
      requires Valid()
      modifies this`view
      ensures Valid() && view == Splash
    {
      view := Splash;
    }

    /** `toggleCardSet` followed by the effect that rebuilds the deck when
        the options change during a game. `prev.map` always yields a new
        array, so the effect runs on every toggle made in game view. */
    method ToggleCardSet(id: string, random: seq<real>)
      requires Valid() && IsRandomSource(random) && |questions| <= |random| + 1
      modifies this`cardSets, this`deck, this`history, this`currentCard, this`isFlipped, this`pool
      ensures Valid() && cardSets == CardSets.ToggleCardSet(old(cardSets), id)
      ensures view == Game ==>
        pool == FilterQuestions(questions, cardSets) && Snapshot() == Init(Shuffled(pool, random))
      ensures view == Splash ==> Snapshot() == old(Snapshot()) && pool == old(pool)
    {
      cardSets := CardSets.ToggleCardSet(cardSets, id);
      if view == Game {
        InitializeDeck(random);
      }
    }

    /** `nextCard`. */
    method NextCard()
      requires Valid()
      modifies this`deck, this`history, this`currentCard, this`isFlipped
      ensures Valid() && Snapshot() == Next(old(Snapshot()))
      ensures Timeline(Snapshot()) == Timeline(old(Snapshot()))
    {
      ghost var before := Snapshot();
      if currentCard.None? {
        NextKeepsTimeline(before);
        return;
      }
      history := history + [currentCard.value];
      if |deck| > 0 {
        var nextDeck := deck;
        var next := nextDeck[|nextDeck| - 1];
        nextDeck := nextDeck[..|nextDeck| - 1];
        deck := nextDeck;
        currentCard := Some(next);
        isFlipped := false;
      } else {
        currentCard := None;
      }
      assert Snapshot() == Next(before);
      NextKeepsDeal(before, pool);
      NextKeepsTimeline(before);
    }

    /** `prevCard`. */
    method PrevCard()
      requires Valid()
      modifies this`deck, this`history, this`currentCard, this`isFlipped
      ensures Valid() && Snapshot() == Prev(old(Snapshot()))
      ensures Timeline(Snapshot()) == Timeline(old(Snapshot()))
    {
      ghost var before := Snapshot();
      if |history| == 0 {
        PrevKeepsTimeline(before);
        return;
      }
      var previousHistory := history;
      var previousCard := previousHistory[|previousHistory| - 1];
      previousHistory := previousHistory[..|previousHistory| - 1];
      history := previousHistory;
      if currentCard.Some? {
        deck := deck + [currentCard.value];
      }
      currentCard := Some(previousCard);
      isFlipped := false;
      assert Snapshot() == Prev(before);
      PrevKeepsDeal(before, pool);
      PrevKeepsTimeline(before);
    }

    /** The card's click handler: only a shown card can be flipped. */
    method Flip()
      requires Valid()
      modifies this`isFlipped
      ensures Valid()
      ensures isFlipped == if currentCard.Some? then !old(isFlipped) else old(isFlipped)
    {
      if GameCard.HasFlipHandler(GameCard.Render(currentCard, isFlipped)) {
        isFlipped := !isFlipped;
      }
    }

    /** The start button is enabled iff some set is enabled; when it is
        not, a deck dealt now would be empty. */
    function CanStart(): (b: bool)
      reads this
      ensures b <==> exists k :: 0 <= k < |cardSets| && cardSets[k].enabled
      ensures !b ==> FilterQuestions(questions, cardSets) == []
    {
      if HasEnabledCardSet(cardSets) then true
      else AllDisabledDealsNothing(questions, cardSets); false
    }

    /** The back button is enabled iff there is history; when it is not,
        `prevCard` changes nothing. */
    function CanGoBack(): (b: bool)
      reads this
      ensures !b ==> Prev(Snapshot()) == Snapshot()
      ensures b ==> |Prev(Snapshot()).history| < |history|
    {
      |history| != 0
    }

    /** The "Left" counter: the cards of the deal not yet shown. */
    function CardsLeft(): (n: nat)
      reads this
      requires Valid()
      ensures n == |pool| - |history| - |CurrentSeq(currentCard)|
    {
      DealSize(Snapshot(), pool);
      |deck|
    }
  }
}
