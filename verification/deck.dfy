/** The session deck of App.tsx as a value: `deck` is a stack whose top is
    its last element, `history` holds the cards already shown, oldest
    first, and `currentCard` is the card on screen (None for `null`).
    Init, Next and Prev are the transitions that `initializeDeck`,
    `nextCard` and `prevCard` make on these four pieces of state. */
module Deck {
  import opened Types
  import opened Seqs

  datatype DeckState = DeckState(deck: seq<Question>, history: seq<Question>, currentCard: Option<Question>, isFlipped: bool)

  function CurrentSeq(c: Option<Question>): seq<Question>
  {
    if c.Some? then [c.value] else []
  }

  /** Every card of the session in the order it is shown: the history, the
      card on screen, then the stack from its top down. */
  function Timeline(s: DeckState): seq<Question>
  {
    s.history + CurrentSeq(s.currentCard) + Reverse(s.deck)
  }

  /** A session with no card on screen has nothing left to draw. */
  predicate Consistent(s: DeckState)
  {
    s.currentCard.None? ==> s.deck == []
  }

  /** `initializeDeck` after the shuffle: pop the top card (or `null` when
      nothing is left), the rest is the deck, no history, face down. */
  function Init(shuffled: seq<Question>): (s: DeckState)
    ensures Consistent(s) && s.history == [] && !s.isFlipped
    ensures s.currentCard.None? <==> shuffled == []
    ensures Timeline(s) == Reverse(shuffled)
  {
    if shuffled == [] then DeckState([], [], None, false)
    else
      var n := |shuffled|;
      assert shuffled == shuffled[..n - 1] + [shuffled[n - 1]];
      DeckState(shuffled[..n - 1], [], Some(shuffled[n - 1]), false)
  }

  /** `nextCard`. */
  function Next(s: DeckState): DeckState
  {
    if s.currentCard.None? then s
    else
      var history := s.history + [s.currentCard.value];
      if |s.deck| > 0 then
        DeckState(s.deck[..|s.deck| - 1], history, Some(s.deck[|s.deck| - 1]), false)
      else
        s.(history := history, currentCard := None)
  }

  /** `prevCard`. */
  function Prev(s: DeckState): DeckState
  {
    if |s.history| == 0 then s
    else
      var h := s.history;
      var deck := if s.currentCard.Some? then s.deck + [s.currentCard.value] else s.deck;
      DeckState(deck, h[..|h| - 1], Some(h[|h| - 1]), false)
  }

  lemma ReverseSnoc(d: seq<Question>, x: Question)
    ensures Reverse(d + [x]) == [x] + Reverse(d)
  {
    var r := Reverse(d + [x]);
    assert forall k :: 0 <= k < |r| ==> r[k] == ([x] + Reverse(d))[k];
  }

  /** `nextCard` moves the cursor one card forward along a fixed order: the
      timeline is unchanged, one more card is in the history, and the
      session stays consistent. */
  lemma NextKeepsTimeline(s: DeckState)
    requires Consistent(s)
    ensures Consistent(Next(s)) && Timeline(Next(s)) == Timeline(s)
    ensures |Next(s).history| == |s.history| + |CurrentSeq(s.currentCard)|
  {
    if s.currentCard.Some? && |s.deck| > 0 {
      var d, c := s.deck, s.currentCard.value;
      var n := |d|;
      assert d == d[..n - 1] + [d[n - 1]];
      ReverseSnoc(d[..n - 1], d[n - 1]);
      assert Timeline(Next(s)) == s.history + [c] + [d[n - 1]] + Reverse(d[..n - 1]);
    }
  }

  /** `prevCard` moves the cursor one card back along the same order: the
      card on screen goes back on top of the stack, the last history card
      comes back on screen. */
  lemma PrevKeepsTimeline(s: DeckState)
    requires Consistent(s)
    ensures Consistent(Prev(s)) && Timeline(Prev(s)) == Timeline(s)
    ensures |Prev(s).history| == if s.history == [] then 0 else |s.history| - 1
    ensures s.history != [] ==> Prev(s).currentCard == Some(s.history[|s.history| - 1])
  {
    if s.history != [] {
      var h := s.history;
      assert h == h[..|h| - 1] + [h[|h| - 1]];
      if s.currentCard.Some? {
        ReverseSnoc(s.deck, s.currentCard.value);
      }
    }
  }

  /** Where the cursor is: the history is the start of the timeline, the
      card on screen the one after it, and the screen is empty exactly when
      every card has been shown. */
  lemma Cursor(s: DeckState)
    requires Consistent(s)
    ensures s.history == Timeline(s)[..|s.history|]
    ensures s.currentCard.None? <==> |s.history| == |Timeline(s)|
    ensures s.currentCard.Some? ==> s.currentCard.value == Timeline(s)[|s.history|]
  {
    assert Timeline(s) == s.history + (CurrentSeq(s.currentCard) + Reverse(s.deck));
  }

  /** Going forward then back restores deck, history and card; only the
      card ends up face down. */
  lemma PrevUndoesNext(s: DeckState)
    requires s.currentCard.Some?
    ensures Prev(Next(s)) == s.(isFlipped := false)
  {
    var h := s.history + [s.currentCard.value];
    assert h[..|h| - 1] == s.history;
    if |s.deck| > 0 {
      var d := s.deck;
      assert d[..|d| - 1] + [d[|d| - 1]] == d;
    }
  }

  /** Going back then forward restores deck, history and card as well. */
  lemma NextUndoesPrev(s: DeckState)
    requires Consistent(s) && s.history != []
    ensures Next(Prev(s)) == s.(isFlipped := false)
  {
    var h := s.history;
    assert h[..|h| - 1] + [h[|h| - 1]] == h;
    if s.currentCard.Some? {
      var d := s.deck + [s.currentCard.value];
      assert d[..|d| - 1] == s.deck;
    }
  }

  /** One `nextCard` press in cursor terms: the history grows by the next
      card of the timeline, unless every card has been shown already. */
  lemma NextStep(s: DeckState)
    requires Consistent(s)
    ensures Consistent(Next(s)) && Timeline(Next(s)) == Timeline(s)
    ensures Next(s).history == Timeline(s)[..Min(|s.history| + 1, |Timeline(s)|)]
    ensures Next(s).currentCard.None? <==> |Next(s).history| == |Timeline(s)|
  {
    NextKeepsTimeline(s);
    Cursor(s);
    Cursor(Next(s));
  }

  /** `nextCard` pressed k times. */
  function NextN(s: DeckState, k: nat): DeckState
  {
    if k == 0 then s else Next(NextN(s, k - 1))
  }

  lemma NextNUnfold(s: DeckState, k: nat)
    requires k > 0
    ensures NextN(s, k) == Next(NextN(s, k - 1))
  {
  }

  function Min(a: nat, b: nat): nat
  {
    if a < b then a else b
  }

  /** k presses of `nextCard` advance the cursor k cards, stopping at the
      end of the timeline. */
  lemma {:induction false} NextNAdvances(s: DeckState, k: nat)
    requires Consistent(s)
    ensures Consistent(NextN(s, k)) && Timeline(NextN(s, k)) == Timeline(s)
    ensures NextN(s, k).history == Timeline(s)[..Min(|s.history| + k, |Timeline(s)|)]
  {
    Cursor(s);
    if k > 0 {
      var p := NextN(s, k - 1);
      NextNAdvances(s, k - 1);
      NextStep(p);
      NextNUnfold(s, k);
    }
  }

  /** After dealing n shuffled cards, the k-th `nextCard` has put the first
      min(k, n) cards of the drawing order (top of the stack first) into
      the history; the screen is empty exactly from the n-th press on, with
      nothing left to draw. */
  lemma DrawsInOrder(shuffled: seq<Question>, k: nat)
    ensures Consistent(NextN(Init(shuffled), k))
    ensures Timeline(NextN(Init(shuffled), k)) == Reverse(shuffled)
    ensures NextN(Init(shuffled), k).history == Reverse(shuffled)[..Min(k, |shuffled|)]
    ensures NextN(Init(shuffled), k).currentCard.None? <==> k >= |shuffled|
    ensures k >= |shuffled| ==> NextN(Init(shuffled), k).deck == []
  {
    NextNAdvances(Init(shuffled), k);
    Cursor(NextN(Init(shuffled), k));
  }

  /** Once the deck is exhausted, further `nextCard` presses change nothing. */
  lemma ExhaustedIsFinal(shuffled: seq<Question>, k: nat)
    requires k >= |shuffled|
    ensures NextN(Init(shuffled), k + 1) == NextN(Init(shuffled), k)
  {
    DrawsInOrder(shuffled, k);
  }

  /** The cards in play are a rearrangement of the dealt cards: nothing is
      lost or duplicated, so the three places hold distinct ids when the
      dealt cards do. */
  lemma NoCardTwice(s: DeckState, dealt: seq<Question>)
    requires multiset(Timeline(s)) == multiset(dealt)
    requires UniqueIds(dealt)
    ensures UniqueIds(Timeline(s))
    ensures |s.history| + |CurrentSeq(s.currentCard)| + |s.deck| == |dealt|
  {
    SubCollectionKeepsUniqueIds(dealt, Timeline(s));
    assert |multiset(Timeline(s))| == |Timeline(s)|;
  }
}
