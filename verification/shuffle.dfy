/** `shuffleArray` (App.tsx): a Fisher-Yates shuffle run on a copy of its
    input. `Math.random` is a parameter: `random[k]` is the value its k-th
    call returns, a real in [0, 1). The loop makes one call per index from
    the last down to 1, so an input of n elements uses n - 1 of them. */
module Shuffle {

  predicate IsRandomSource(random: seq<real>)
  {
    forall k :: 0 <= k < |random| ==> 0.0 <= random[k] < 1.0
  }

  /** `Math.floor(r * (i + 1))`: the partner of index i always lies in [0, i]. */
  function SwapIndex(r: real, i: nat): (j: nat)
    requires 0.0 <= r < 1.0
    ensures j <= i
  {
    var m := (i + 1) as real;
    assert 0.0 <= r * m < m by { ScaleBelow(r, m); }
    (r * m).Floor
  }

  lemma ScaleBelow(r: real, m: real)
    requires 0.0 <= r < 1.0 && 0.0 < m
    ensures 0.0 <= r * m < m
  {
    assert (1.0 - r) * m > 0.0;
  }

  /** `s` with the elements at i and j exchanged. */
  function Swap<T>(s: seq<T>, i: nat, j: nat): (r: seq<T>)
    requires i < |s| && j < |s|
    ensures |r| == |s|
    ensures r[i] == s[j] && r[j] == s[i]
    ensures forall k :: 0 <= k < |s| && k != i && k != j ==> r[k] == s[k]
  {
    seq(|s|, k requires 0 <= k < |s| => if k == i then s[j] else if k == j then s[i] else s[k])
  }

  lemma SwapPermutes<T>(s: seq<T>, i: nat, j: nat)
    requires i < |s| && j < |s|
    ensures multiset(Swap(s, i, j)) == multiset(s)
  {
    assert Swap(s, i, j) == s[i := s[j]][j := s[i]];
  }

  /** The copy after the first k turns of the loop: turn k works on index
      |s| - k and uses the k-th random value. */
  function Steps<T>(s: seq<T>, random: seq<real>, k: nat): (r: seq<T>)
    requires IsRandomSource(random)
    requires (k == 0 || k < |s|) && k <= |random|
    ensures |r| == |s|
  {
    if k == 0 then s
    else
      var i := |s| - k;
      Swap(Steps(s, random, k - 1), i, SwapIndex(random[k - 1], i))
  }

  /** The order `shuffleArray` returns for `s` and the random values. */
  function Shuffled<T>(s: seq<T>, random: seq<real>): seq<T>
    requires IsRandomSource(random) && |s| <= |random| + 1
  {
    Steps(s, random, if s == [] then 0 else |s| - 1)
  }

  lemma StepsNext<T>(s: seq<T>, random: seq<real>, k: nat, i: nat, j: nat)
    requires IsRandomSource(random)
    requires 0 < k < |s| && k <= |random|
    requires i == |s| - k && j == SwapIndex(random[k - 1], i)
    ensures Steps(s, random, k) == Swap(Steps(s, random, k - 1), i, j)
  {
  }

  /** Every turn of the loop only exchanges two elements, so each prefix of
      the loop leaves a permutation of the input. */
  lemma {:induction false} StepsPermute<T>(s: seq<T>, random: seq<real>, k: nat)
    requires IsRandomSource(random)
    requires (k == 0 || k < |s|) && k <= |random|
    ensures multiset(Steps(s, random, k)) == multiset(s)
  {
    if k > 0 {
      var before, i := Steps(s, random, k - 1), |s| - k;
      var j := SwapIndex(random[k - 1], i);
      calc {
        multiset(Steps(s, random, k));
      == { StepsNext(s, random, k, i, j); }
        multiset(Swap(before, i, j));
      == { SwapPermutes(before, i, j); }
        multiset(before);
      == { StepsPermute(s, random, k - 1); }
        multiset(s);
      }
    }
  }

  /** The shuffle result is a permutation of its input: same length, every
      element as often as in the input. */
  lemma ShuffledPermutes<T>(s: seq<T>, random: seq<real>)
    requires IsRandomSource(random) && |s| <= |random| + 1
    ensures |Shuffled(s, random)| == |s|
    ensures multiset(Shuffled(s, random)) == multiset(s)
  {
    StepsPermute(s, random, if s == [] then 0 else |s| - 1);
  }

  /** The destructuring swap `[a[i], a[j]] = [a[j], a[i]]`. */
  method Exchange<T>(a: array<T>, i: nat, j: nat)
    requires i < a.Length && j < a.Length
    modifies a
    ensures a[..] == Swap(old(a[..]), i, j)
  {
    a[i], a[j] := a[j], a[i];
  }

  /** Copies the input into a fresh array (`[...array]`) and runs the
      downward swap loop on the copy; the caller's sequence is a value and
      is left as it was. */
  method ShuffleArray<T>(input: seq<T>, random: seq<real>) returns (r: seq<T>)
    requires IsRandomSource(random) && |input| <= |random| + 1
    ensures r == Shuffled(input, random)
    ensures |r| == |input| && multiset(r) == multiset(input)
  {
    var a := new T[|input|](k requires 0 <= k < |input| => input[k]);
    assert a[..] == input;
    var i := a.Length - 1;
    var calls: nat := 0;
    while i > 0
      invariant -1 <= i < a.Length == |input|
      invariant a.Length > 0 ==> 0 <= i
      invariant calls == a.Length - 1 - i
      invariant a[..] == Steps(input, random, calls)
    {
      var j := SwapIndex(random[calls], i);
      StepsNext(input, random, calls + 1, i, j);
      Exchange(a, i, j);
      i, calls := i - 1, calls + 1;
    }
    r := a[..];
    ShuffledPermutes(input, random);
  }
}
