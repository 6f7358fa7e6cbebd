/** The card-set options (App.tsx): the default toggles, `toggleCardSet`,
    `hasEnabledCardSet` and the question filter inside `initializeDeck`. */
module CardSets {
  import opened Types
  import opened Seqs

  /** `DEFAULT_CARD_SETS`: six sets, all enabled. "Wildcard" is a category
      id like the others. */
  const DefaultCardSets: seq<CardSetOption> := [
    CardSetOption("Wildcard", "Wildcards", "Fun action prompts & dares", true, None),
    CardSetOption("Reflection", "Reflection", "Self-discovery questions", true, None),
    CardSetOption("Perception", "Perception", "How others see you", true, None),
    CardSetOption("Connection", "Connection", "Relationship & bonding", true, None),
    CardSetOption("Family", "Family", "Family-related questions", true, None),
    CardSetOption("Self-Love", "Self-Love", "Self-care & compassion", true, None)
  ]

  /** `cardSets.some((set) => set.enabled)`. */
  function HasEnabledCardSet(sets: seq<CardSetOption>): (b: bool)
    ensures b <==> exists k :: 0 <= k < |sets| && sets[k].enabled
  {
    if sets == [] then false
    else sets[0].enabled || HasEnabledCardSet(sets[1..])
  }

  /** `cardSets.filter((s) => s.enabled).map((s) => s.id)`. */
  function EnabledCategories(sets: seq<CardSetOption>): (ids: seq<string>)
    ensures |ids| <= |sets|
    ensures forall id :: id in ids <==> exists k :: 0 <= k < |sets| && sets[k].enabled && sets[k].id == id
  {
    if sets == [] then []
    else
      var rest := EnabledCategories(sets[1..]);
      assert forall k :: 0 < k < |sets| ==> sets[k] == sets[1..][k - 1];
      if sets[0].enabled then [sets[0].id] + rest else rest
  }

  /** The list of enabled ids is empty exactly when no set is enabled, which
      is also when the start button is disabled. */
  lemma EnabledCategoriesEmpty(sets: seq<CardSetOption>)
    ensures |EnabledCategories(sets)| == 0 <==> !HasEnabledCardSet(sets)
  {
    if HasEnabledCardSet(sets) {
      var k :| 0 <= k < |sets| && sets[k].enabled;
      assert sets[k].id in EnabledCategories(sets);
    }
  }

  /** The filter callback: a categorised question needs its category among
      the enabled ids, an uncategorised one needs at least one enabled id. */
  predicate Keeps(enabledIds: seq<string>, q: Question)
  {
    if IsCategorised(q) then q.category.value in enabledIds else |enabledIds| > 0
  }

  /** `QUESTIONS.filter(...)` with a fixed callback, in input order. */
  function FilterBy(questions: seq<Question>, enabledIds: seq<string>): (r: seq<Question>)
    ensures |r| <= |questions|
    ensures forall q :: q in r ==> q in questions && Keeps(enabledIds, q)
  {
    if questions == [] then []
    else (if Keeps(enabledIds, questions[0]) then [questions[0]] else []) + FilterBy(questions[1..], enabledIds)
  }

  /** The questions `initializeDeck` deals from. */
  function FilterQuestions(questions: seq<Question>, sets: seq<CardSetOption>): seq<Question>
  {
    FilterBy(questions, EnabledCategories(sets))
  }

  /** Eligibility stated directly on the toggles, without the intermediate
      id list. */
  predicate Eligible(sets: seq<CardSetOption>, q: Question)
  {
    if IsCategorised(q) then exists k :: 0 <= k < |sets| && sets[k].enabled && sets[k].id == q.category.value
    else exists k :: 0 <= k < |sets| && sets[k].enabled
  }

  lemma KeepsIffEligible(sets: seq<CardSetOption>, q: Question)
    ensures Keeps(EnabledCategories(sets), q) <==> Eligible(sets, q)
  {
    EnabledCategoriesEmpty(sets);
  }

  /** The filter keeps every copy of an eligible question and drops every
      copy of an ineligible one. */
  lemma {:induction false} FilterCounts(questions: seq<Question>, sets: seq<CardSetOption>, q: Question)
    ensures multiset(FilterQuestions(questions, sets))[q]
         == if Eligible(sets, q) then multiset(questions)[q] else 0
  {
    KeepsIffEligible(sets, q);
    FilterByCounts(questions, EnabledCategories(sets), q);
  }

  lemma {:induction false} FilterByCounts(questions: seq<Question>, ids: seq<string>, q: Question)
    ensures multiset(FilterBy(questions, ids))[q]
         == if Keeps(ids, q) then multiset(questions)[q] else 0
  {
    if questions != [] {
      FilterByCounts(questions[1..], ids, q);
      assert questions == [questions[0]] + questions[1..];
    }
  }

  /** A question is dealt iff it is in the pool and eligible. */
  lemma FilterMembership(questions: seq<Question>, sets: seq<CardSetOption>, q: Question)
    ensures q in FilterQuestions(questions, sets) <==> q in questions && Eligible(sets, q)
  {
    FilterCounts(questions, sets, q);
  }

  /** The filter works element by element and keeps the input order: the
      result for a concatenation is the concatenation of the results. */
  lemma {:induction false} FilterAppend(a: seq<Question>, b: seq<Question>, sets: seq<CardSetOption>)
    ensures FilterQuestions(a + b, sets) == FilterQuestions(a, sets) + FilterQuestions(b, sets)
  {
    FilterByAppend(a, b, EnabledCategories(sets));
  }

  lemma {:induction false} FilterByAppend(a: seq<Question>, b: seq<Question>, ids: seq<string>)
    ensures FilterBy(a + b, ids) == FilterBy(a, ids) + FilterBy(b, ids)
  {
    if a == [] {
      assert a + b == b;
    } else {
      assert (a + b)[1..] == a[1..] + b;
      FilterByAppend(a[1..], b, ids);
    }
  }

  /** With every set disabled no question is dealt, categorised or not. */
  lemma AllDisabledDealsNothing(questions: seq<Question>, sets: seq<CardSetOption>)
    requires !HasEnabledCardSet(sets)
    ensures FilterQuestions(questions, sets) == []
  {
    if FilterQuestions(questions, sets) != [] {
      var q := FilterQuestions(questions, sets)[0];
      FilterMembership(questions, sets, q);
    }
  }

  /** The filter only selects: every question is dealt at most as often
      as it occurs in the pool. */
  lemma FilterSelects(questions: seq<Question>, ids: seq<string>)
    ensures multiset(FilterBy(questions, ids)) <= multiset(questions)
  {
    forall q {
      FilterByCounts(questions, ids, q);
    }
  }

  /** Filtering never duplicates a card: distinct ids stay distinct. */
  lemma FilterKeepsUniqueIds(questions: seq<Question>, sets: seq<CardSetOption>)
    requires UniqueIds(questions)
    ensures UniqueIds(FilterQuestions(questions, sets))
  {
    FilterSelects(questions, EnabledCategories(sets));
    SubCollectionKeepsUniqueIds(questions, FilterQuestions(questions, sets));
  }

  /** `toggleCardSet(id)`: every set whose id matches has its `enabled`
      flag negated; order, ids, names, descriptions and all other sets
      are kept. */
  function ToggleCardSet(sets: seq<CardSetOption>, id: string): (r: seq<CardSetOption>)
    ensures |r| == |sets|
    ensures forall k :: 0 <= k < |sets| ==>
      r[k].id == sets[k].id && r[k].name == sets[k].name && r[k].description == sets[k].description
      && r[k].icon == sets[k].icon && r[k].enabled == (if sets[k].id == id then !sets[k].enabled else sets[k].enabled)
  {
    seq(|sets|, k requires 0 <= k < |sets| =>
      if sets[k].id == id then sets[k].(enabled := !sets[k].enabled) else sets[k])
  }

  /** Toggling an id that no set has changes nothing. */
  lemma ToggleUnknownIsNoOp(sets: seq<CardSetOption>, id: string)
    requires forall k :: 0 <= k < |sets| ==> sets[k].id != id
    ensures ToggleCardSet(sets, id) == sets
  {
    var r := ToggleCardSet(sets, id);
    assert forall k :: 0 <= k < |sets| ==> r[k] == sets[k];
  }

  /** Toggling the same id twice restores the options. */
  lemma ToggleTwice(sets: seq<CardSetOption>, id: string)
    ensures ToggleCardSet(ToggleCardSet(sets, id), id) == sets
  {
    var r := ToggleCardSet(ToggleCardSet(sets, id), id);
    assert forall k :: 0 <= k < |sets| ==> r[k] == sets[k];
  }
}
