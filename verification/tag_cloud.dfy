/**
  The tag cloud's deterministic shuffle (`shuffled` in
  `client/src/pages/TagCloudPage.tsx`): a Fisher–Yates pass over a copy of
  the tag list, from the last position down to position 1, drawing each swap
  partner from a Park–Miller "minimal standard" generator seeded with the
  list's length.
 */
module TagCloud {
  import opened Seqs

  const Modulus: int := 2147483647
  const Multiplier: int := 16807

  /** The inverse of the multiplier modulo the modulus: 16807 * 1407677000 == 1 + 11017 * 2147483647. */
  const MultiplierInverse: int := 1407677000

  /** `seed = (seed * 16807 + 0) % 2147483647`; the seed is never negative, so `%` agrees with JavaScript's. */
  function NextSeed(seed: nat): (r: nat)
    ensures r < Modulus
  {
    (seed * Multiplier) % Modulus
  }

  /**
    `Math.floor(rand() * (i + 1))` with `rand() = (seed - 1) / 2147483646`,
    taken as the exact rational value.
   */
  function SwapIndex(seed: nat, i: nat): int {
    ((seed - 1) * (i + 1)) / (Modulus - 1)
  }

  /** A seed in `[1, 2147483646]` draws a partner in `[0, i]`. */
  lemma SwapIndexInRange(seed: nat, i: nat)
    requires 1 <= seed < Modulus
    ensures 0 <= SwapIndex(seed, i) <= i
  {
    var p := (seed - 1) * (i + 1);
    assert 0 <= p;
    assert p <= (Modulus - 2) * (i + 1) by {
      assert seed - 1 <= Modulus - 2;
    }
    assert p < (Modulus - 1) * (i + 1);
  }

  /** The multiplier is invertible modulo the prime modulus, so a seed not divisible by it never becomes 0. */
  lemma StepNonZero(seed: nat)
    requires seed % Modulus != 0
    ensures NextSeed(seed) != 0
  {
    if NextSeed(seed) == 0 {
      var q := (seed * Multiplier) / Modulus;
      assert seed * Multiplier == q * Modulus;
      assert Multiplier * MultiplierInverse == 1 + 11017 * Modulus;
      calc {
        seed;
        seed * (Multiplier * MultiplierInverse) - seed * 11017 * Modulus;
        (seed * Multiplier) * MultiplierInverse - seed * 11017 * Modulus;
        q * Modulus * MultiplierInverse - seed * 11017 * Modulus;
        (q * MultiplierInverse - seed * 11017) * Modulus;
      }
      ModulusDivides(seed, q * MultiplierInverse - seed * 11017);
    }
  }

  lemma ModulusDivides(seed: nat, k: int)
    requires seed == k * Modulus
    ensures seed % Modulus == 0
  {
  }

  /** `[copy[i], copy[j]] = [copy[j], copy[i]]`. */
  function Swap<T>(s: seq<T>, i: nat, j: nat): (r: seq<T>)
    requires i < |s| && j < |s|
    ensures |r| == |s|
  {
    s[i := s[j]][j := s[i]]
  }

  lemma SwapPermutes<T>(s: seq<T>, i: nat, j: nat)
    requires i < |s| && j < |s|
    ensures multiset(Swap(s, i, j)) == multiset(s)
  {
  }

  /** Swapping exchanges the two positions and leaves every other one alone. */
  lemma SwapExchanges<T>(s: seq<T>, i: nat, j: nat)
    requires i < |s| && j < |s|
    ensures Swap(s, i, j)[i] == s[j] && Swap(s, i, j)[j] == s[i]
    ensures forall k :: 0 <= k < |s| && k != i && k != j ==> Swap(s, i, j)[k] == s[k]
  {
  }

  /**
    The partners the loop draws from position `i` down to 1 when the
    generator's state before position `i` is `seed`: the partner of position
    `i` first, then those of `i - 1`, and so on.
   */
  function Draws(seed: nat, i: nat): (js: seq<nat>)
    requires i == 0 || seed % Modulus != 0
    ensures |js| == i
    ensures forall k :: 0 <= k < i ==> js[k] <= i - k
    decreases i
  {
    if i == 0 then []
    else
      var next := NextSeed(seed);
      StepNonZero(seed);
      SwapIndexInRange(next, i);
      [SwapIndex(next, i) as nat] + Draws(next, i - 1)
  }

  /** `js[k]` can be the partner of position `i - k`. */
  predicate Fits(js: seq<nat>, i: nat) {
    |js| == i && forall k :: 0 <= k < i ==> js[k] <= i - k
  }

  /** The swaps of the loop from position `i` down to 1 with the partners `js`. */
  function SwapDown<T>(copy: seq<T>, i: nat, js: seq<nat>): (r: seq<T>)
    requires i < |copy| && Fits(js, i)
    ensures |r| == |copy|
    decreases i
  {
    if i == 0 then copy
    else SwapDown(Swap(copy, i, js[0]), i - 1, js[1..])
  }

  /** Every swap keeps the elements, so the whole pass does. */
  lemma {:induction false} SwapDownPermutes<T>(copy: seq<T>, i: nat, js: seq<nat>)
    requires i < |copy| && Fits(js, i)
    ensures multiset(SwapDown(copy, i, js)) == multiset(copy)
    decreases i
  {
    if i > 0 {
      SwapPermutes(copy, i, js[0]);
      SwapDownPermutes(Swap(copy, i, js[0]), i - 1, js[1..]);
    }
  }

  /**
    Lists whose length is a non-zero multiple of the modulus are excluded: the
    seed starts at 0 there, every draw is -1 and the swap writes outside the
    list.
   */
  predicate Shufflable(n: nat) {
    n <= 1 || n % Modulus != 0
  }

  /** The partners drawn for a list of length `n`: the seed starts at the length and the loop at the last position. */
  function Partners(n: nat): (js: seq<nat>)
    requires Shufflable(n) && n > 0
    ensures Fits(js, n - 1)
  {
    Draws(n, n - 1)
  }

  /** `shuffled(arr)`: a reordering of the list whose swaps are fixed by its length alone. */
  function Shuffled<T>(arr: seq<T>): (r: seq<T>)
    requires Shufflable(|arr|)
    ensures |r| == |arr|
  {
    if |arr| == 0 then [] else SwapDown(arr, |arr| - 1, Partners(|arr|))
  }

  /** The shuffle is a permutation: every tag comes back exactly as often as it went in. */
  lemma ShuffledPermutes<T>(arr: seq<T>)
    requires Shufflable(|arr|)
    ensures multiset(Shuffled(arr)) == multiset(arr)
  {
    if |arr| > 0 {
      SwapDownPermutes(arr, |arr| - 1, Partners(|arr|));
    }
  }

  lemma ShuffledUnfold<T>(arr: seq<T>)
    requires Shufflable(|arr|) && |arr| > 0
    ensures Shuffled(arr) == SwapDown(arr, |arr| - 1, Partners(|arr|))
  {
  }

  /** The seed after `k` draws from a list of length `n`. */
  function SeedAfter(n: nat, k: nat): nat {
    if k == 0 then n else NextSeed(SeedAfter(n, k - 1))
  }

  /** Every seed a draw uses lies in `[1, 2147483646]`, so every partner lies in `[0, i]`. */
  lemma {:induction false} SeedsInRange(n: nat, k: nat, i: nat)
    requires n % Modulus != 0 && k >= 1
    ensures 1 <= SeedAfter(n, k) < Modulus
    ensures 0 <= SwapIndex(SeedAfter(n, k), i) <= i
  {
    if k == 1 {
      StepNonZero(n);
    } else {
      SeedsInRange(n, k - 1, i);
      StepNonZero(SeedAfter(n, k - 1));
    }
    SwapIndexInRange(SeedAfter(n, k), i);
  }

  /** One iteration of the loop: step the seed, draw a partner in `[0, i]` and swap; the rest of the loop continues from there. */
  method Step<T>(copy: seq<T>, i: nat, seed: nat) returns (swapped: seq<T>, next: nat)
    requires 0 < i < |copy| && seed % Modulus != 0
    ensures |swapped| == |copy| && next % Modulus != 0
    ensures SwapDown(copy, i, Draws(seed, i)) == SwapDown(swapped, i - 1, Draws(next, i - 1))
  {
    StepNonZero(seed);
    next := NextSeed(seed);
    SwapIndexInRange(next, i);
    var j := SwapIndex(next, i);
    swapped := Swap(copy, i, j);
  }

  /** With no position left the loop leaves the list as it is. */
  lemma ShuffleDone<T>(copy: seq<T>, seed: nat)
    requires 0 < |copy|
    ensures SwapDown(copy, 0, Draws(seed, 0)) == copy
  {
  }

  /** The loop as written, over a copy of the input. */
  method Shuffle<T>(arr: seq<T>) returns (copy: seq<T>)
    requires Shufflable(|arr|)
    ensures multiset(copy) == multiset(arr)
    ensures copy == Shuffled(arr)
  {
    copy := arr;
    if |arr| == 0 {
      return;
    }
    var seed: nat := |arr|;
    var i := |arr| - 1;
    while i > 0
      invariant 0 <= i < |copy| == |arr|
      invariant i == 0 || seed % Modulus != 0
      invariant SwapDown(copy, i, Draws(seed, i)) == Shuffled(arr)
      decreases i
    {
      copy, seed := Step(copy, i, seed);
      i := i - 1;
    }
    ShuffleDone(copy, seed);
    ShuffledPermutes(arr);
  }

  /** Relabelling commutes with overwriting one position. */
  lemma MapUpdate<A, B>(s: seq<A>, i: nat, x: A, f: A -> B)
    requires i < |s|
    ensures Map(s[i := x], f) == Map(s, f)[i := f(x)]
  {
    var l, r := Map(s[i := x], f), Map(s, f)[i := f(x)];
    assert |l| == |r|;
    forall k | 0 <= k < |s|
      ensures l[k] == r[k]
    {
    }
  }

  /** Relabelling the elements before or after a swap gives the same list. */
  lemma SwapMap<A, B>(s: seq<A>, i: nat, j: nat, f: A -> B)
    requires i < |s| && j < |s|
    ensures Swap(Map(s, f), i, j) == Map(Swap(s, i, j), f)
  {
    MapUpdate(s, i, s[j], f);
    MapUpdate(s[i := s[j]], j, s[i], f);
    calc {
      Map(Swap(s, i, j), f);
      Map(s[i := s[j]][j := s[i]], f);
      Map(s[i := s[j]], f)[j := f(s[i])];
      Map(s, f)[i := f(s[j])][j := f(s[i])];
      Swap(Map(s, f), i, j);
    }
  }

  lemma {:induction false} SwapDownMap<A, B>(s: seq<A>, i: nat, js: seq<nat>, f: A -> B)
    requires i < |s| && Fits(js, i)
    ensures SwapDown(Map(s, f), i, js) == Map(SwapDown(s, i, js), f)
    decreases i
  {
    if i > 0 {
      SwapMap(s, i, js[0], f);
      SwapDownMap(Swap(s, i, js[0]), i - 1, js[1..], f);
    }
  }

  /**
    Where the shuffle moves each element depends only on the list's length:
    shuffling relabelled elements is relabelling the shuffled ones.
   */
  lemma ShuffleOnlyMovesPositions<A, B>(arr: seq<A>, f: A -> B)
    requires Shufflable(|arr|)
    ensures Shuffled(Map(arr, f)) == Map(Shuffled(arr), f)
  {
    if |arr| > 0 {
      var mapped := Map(arr, f);
      var n := |arr|;
      var js := Partners(n);
      assert |mapped| == n;
      ShuffledUnfold(mapped);
      ShuffledUnfold(arr);
      assert Shuffled(mapped) == SwapDown(mapped, n - 1, js);
      assert Shuffled(arr) == SwapDown(arr, n - 1, js);
      SwapDownMap(arr, n - 1, js, f);
    }
  }

  /** Lists of at most one tag come back as they are. */
  lemma ShortListsUnchanged<T>(arr: seq<T>)
    requires |arr| <= 1
    ensures Shufflable(|arr|) && Shuffled(arr) == arr
  {
  }

  /** Two tags always come back swapped: seed 2 steps to 33614, which draws partner 0 for position 1. */
  lemma TwoTagsSwap<T>(a: T, b: T)
    ensures Shuffled([a, b]) == [b, a]
  {
    assert NextSeed(2) == 33614;
    assert SwapIndex(33614, 1) == 0;
    assert Partners(2) == [0];
    assert Swap([a, b], 1, 0) == [b, a];
  }
}
