/** The in-place Fisher–Yates shuffle used to deal the deck, with the random
    number generator abstracted to an oracle of in-range draws. */
module Shuffle {

  /** The seeded generator: `r(seed, k, n)` is what the `k`-th call of
      `new Random(seed).Next(0, n)` returns, always in `[0, n)`. */
  type Rng = r: (int, nat, nat) -> nat | forall seed: int, k: nat, n: nat :: 0 < n ==> r(seed, k, n) < n
    witness (seed: int, k: nat, n: nat) => 0

  /** Exchange of the elements at `i` and `j`. */
  function Swap<T>(s: seq<T>, i: nat, j: nat): (r: seq<T>)
    requires i < |s| && j < |s|
    ensures |r| == |s|
  {
    s[i := s[j]][j := s[i]]
  }

  lemma SwapPermutes<T>(s: seq<T>, i: nat, j: nat)
    requires i < |s| && j < |s|
    ensures multiset(Swap(s, i, j)) == multiset(s)
  {
  }

  /** The shuffle's remaining iterations, from `index` down to 1; the draw at
      `index` is the generator's call number `|s| - 1 - index`. */
  function ShuffleDown<T>(s: seq<T>, index: nat, rng: Rng, seed: int): (r: seq<T>)
    requires index < |s|
    ensures |r| == |s|
    decreases index
  {
    if index == 0 then s
    else
      var j := rng(seed, |s| - 1 - index, index + 1);
      ShuffleDown(Swap(s, index, j), index - 1, rng, seed)
  }

  lemma {:induction false} ShuffleDownPermutes<T>(s: seq<T>, index: nat, rng: Rng, seed: int)
    requires index < |s|
    ensures multiset(ShuffleDown(s, index, rng, seed)) == multiset(s)
    decreases index
  {
    if index > 0 {
      var j := rng(seed, |s| - 1 - index, index + 1);
      SwapPermutes(s, index, j);
      ShuffleDownPermutes(Swap(s, index, j), index - 1, rng, seed);
    }
  }

  /** The complete shuffle of `s` under generator `rng` seeded with `seed`. */
  function Shuffled<T>(s: seq<T>, rng: Rng, seed: int): (r: seq<T>)
    ensures |r| == |s|
  {
    if |s| == 0 then s else ShuffleDown(s, |s| - 1, rng, seed)
  }

  /** The shuffle is a permutation: every element keeps its number of copies. */
  lemma ShuffledPermutes<T>(s: seq<T>, rng: Rng, seed: int)
    ensures multiset(Shuffled(s, rng, seed)) == multiset(s)
  {
    if |s| > 0 {
      ShuffleDownPermutes(s, |s| - 1, rng, seed);
    }
  }

  /** ShuffleInPlace, run on an array copy of `s`. */
  method ShuffleInPlace<T>(s: seq<T>, rng: Rng, seed: int) returns (r: seq<T>)
    ensures multiset(r) == multiset(s)
    ensures r == Shuffled(s, rng, seed)
  {
    if |s| == 0 {
      return s;
    }
    var a := new T[|s|](i requires 0 <= i < |s| => s[i]);
    assert a[..] == s;
    var index := |s| - 1;
    while index > 0
      invariant 0 <= index < a.Length == |s|
      invariant ShuffleDown(a[..], index, rng, seed) == Shuffled(s, rng, seed)
      decreases index
    {
      var j := rng(seed, |s| - 1 - index, index + 1);
      SwapInPlace(a, index, j);
      index := index - 1;
    }
    r := a[..];
    ShuffledPermutes(s, rng, seed);
  }

  /** One iteration's exchange, on the array. */
  method SwapInPlace<T>(a: array<T>, i: nat, j: nat)
    requires i < a.Length && j < a.Length
    modifies a
    ensures a[..] == Swap(old(a[..]), i, j)
  {
    var tmp := a[i];
    a[i] := a[j];
    a[j] := tmp;
  }

  /** A list whose elements are all equal, in particular one of length at most
      one, is left as it is. */
  lemma AllEqualUnchanged<T>(s: seq<T>, rng: Rng, seed: int)
    requires forall i, j :: 0 <= i < |s| && 0 <= j < |s| ==> s[i] == s[j]
    ensures Shuffled(s, rng, seed) == s
  {
    var r := Shuffled(s, rng, seed);
    ShuffledPermutes(s, rng, seed);
    forall k | 0 <= k < |r|
      ensures r[k] == s[k]
    {
      assert r[k] in multiset(r);
      assert r[k] in multiset(s);
      var i :| 0 <= i < |s| && s[i] == r[k];
    }
  }
}
