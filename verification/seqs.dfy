/** Sequence helpers shared by the aggregations: filtering, flattening, counting, sums. */
module Seqs {

  /** The elements of `s` that satisfy `p`, in their original order (`Array.prototype.filter`). */
  function Filter<T>(s: seq<T>, p: T -> bool): (r: seq<T>)
    ensures |r| <= |s|
    ensures forall i :: 0 <= i < |r| ==> p(r[i])
    ensures multiset(r) <= multiset(s)
  {
    if |s| == 0 then []
    else
      assert s == [s[0]] + s[1..];
      (if p(s[0]) then [s[0]] else []) + Filter(s[1..], p)
  }

  /** An element is kept exactly when it occurs and satisfies the predicate. */
  lemma FilterMembers<T>(s: seq<T>, p: T -> bool, x: T)
    ensures x in Filter(s, p) <==> x in s && p(x)
  {
    if |s| > 0 {
      FilterMembers(s[1..], p, x);
      assert s == [s[0]] + s[1..];
    }
  }

  /** Filtering a non-empty sequence: its front filtered, then the last element if it passes. */
  lemma FilterLast<T>(s: seq<T>, p: T -> bool)
    requires |s| > 0
    ensures Filter(s, p) == Filter(s[..|s| - 1], p) + (if p(s[|s| - 1]) then [s[|s| - 1]] else [])
  {
    SplitLast(s);
    FilterConcat(s[..|s| - 1], [s[|s| - 1]], p);
    FilterSingle(s[|s| - 1], p);
  }

  lemma SplitHead<T>(s: seq<T>)
    requires |s| > 0
    ensures [s[0]] + s[1..] == s
  {
  }

  lemma PrefixOfConcat<T>(a: seq<T>, b: seq<T>, k: nat)
    requires k <= |a|
    ensures (a + b)[..k] == a[..k]
  {
  }

  /** An element found at two positions occurs at least twice. */
  lemma RepeatedCount<T>(s: seq<T>, i: nat, j: nat)
    requires i < j < |s|
    ensures s[i] == s[j] ==> multiset(s)[s[i]] >= 2
  {
    var pre := s[..j];
    assert s == pre + [s[j]] + s[j + 1..];
    assert pre[i] == s[i];
    assert multiset(pre)[s[i]] >= 1;
  }

  lemma ConsSnoc<T>(x: T, s: seq<T>, y: T)
    ensures [x] + (s + [y]) == ([x] + s) + [y]
  {
  }

  lemma SplitLast<T>(s: seq<T>)
    requires |s| > 0
    ensures s[..|s| - 1] + [s[|s| - 1]] == s
  {
  }

  lemma FilterSingle<T>(x: T, p: T -> bool)
    ensures Filter([x], p) == if p(x) then [x] else []
  {
    assert Filter([x], p) == (if p(x) then [x] else []) + Filter([x][1..], p);
  }

  lemma FilterConcat<T>(a: seq<T>, b: seq<T>, p: T -> bool)
    ensures Filter(a + b, p) == Filter(a, p) + Filter(b, p)
  {
    if |a| == 0 {
      assert a + b == b;
    } else {
      assert (a + b)[1..] == a[1..] + b;
      FilterConcat(a[1..], b, p);
    }
  }

  lemma FilterAll<T>(s: seq<T>, p: T -> bool)
    requires forall i :: 0 <= i < |s| ==> p(s[i])
    ensures Filter(s, p) == s
  {
    if |s| > 0 {
      FilterAll(s[1..], p);
    }
  }

  lemma FilterNone<T>(s: seq<T>, p: T -> bool)
    requires forall i :: 0 <= i < |s| ==> !p(s[i])
    ensures Filter(s, p) == []
  {
    if |s| > 0 {
      FilterNone(s[1..], p);
    }
  }

  /** Number of elements of `s` satisfying `p`. */
  function CountIf<T>(s: seq<T>, p: T -> bool): nat {
    |Filter(s, p)|
  }

  /** Number of occurrences of `x` in `s`. */
  function Occurrences<T(==)>(s: seq<T>, x: T): nat {
    multiset(s)[x]
  }

  /** Concatenation of a sequence of sequences (`flat()`). */
  function Flatten<T>(ss: seq<seq<T>>): seq<T> {
    if |ss| == 0 then [] else ss[0] + Flatten(ss[1..])
  }

  lemma FlattenConcat<T>(a: seq<seq<T>>, b: seq<seq<T>>)
    ensures Flatten(a + b) == Flatten(a) + Flatten(b)
  {
    if |a| == 0 {
      assert a + b == b;
    } else {
      assert (a + b)[1..] == a[1..] + b;
      FlattenConcat(a[1..], b);
    }
  }

  lemma FlattenSnoc<T>(a: seq<seq<T>>, x: seq<T>)
    ensures Flatten(a + [x]) == Flatten(a) + x
  {
    FlattenConcat(a, [x]);
    assert Flatten([x]) == x + Flatten([]);
  }

  /** An element of a flattening comes from one of the parts, and every part's elements are in it. */
  lemma {:induction false} FlattenMembers<T>(ss: seq<seq<T>>, x: T)
    ensures x in Flatten(ss) <==> exists k :: 0 <= k < |ss| && x in ss[k]
  {
    if |ss| > 0 {
      FlattenMembers(ss[1..], x);
      if x in Flatten(ss[1..]) {
        var k :| 0 <= k < |ss[1..]| && x in ss[1..][k];
        assert x in ss[k + 1];
      }
      if exists k :: 0 <= k < |ss| && x in ss[k] {
        var k :| 0 <= k < |ss| && x in ss[k];
        if k > 0 {
          assert x in ss[1..][k - 1];
        }
      }
    }
  }

  /** The occurrences in a flattening are the occurrences in its parts, added up. */
  lemma {:induction false} OccurrencesFlatten<T>(ss: seq<seq<T>>, x: T)
    ensures Occurrences(Flatten(ss), x) == Sum(Map(ss, (s: seq<T>) => Occurrences(s, x) as int))
  {
    if |ss| > 0 {
      OccurrencesFlatten(ss[1..], x);
      assert Map(ss, (s: seq<T>) => Occurrences(s, x) as int)[1..] == Map(ss[1..], (s: seq<T>) => Occurrences(s, x) as int);
      assert multiset(ss[0] + Flatten(ss[1..])) == multiset(ss[0]) + multiset(Flatten(ss[1..]));
    }
  }

  /** Sum of a sequence of integers (`reduce((s, v) => s + v, 0)`). */
  function Sum(s: seq<int>): int {
    if |s| == 0 then 0 else s[0] + Sum(s[1..])
  }

  lemma SumConcat(a: seq<int>, b: seq<int>)
    ensures Sum(a + b) == Sum(a) + Sum(b)
  {
    if |a| == 0 {
      assert a + b == b;
    } else {
      assert (a + b)[1..] == a[1..] + b;
      SumConcat(a[1..], b);
    }
  }

  /** No element occurs twice. */
  predicate NoDup<T(==)>(s: seq<T>) {
    forall i, j :: 0 <= i < j < |s| ==> s[i] != s[j]
  }

  /** Appending an element not yet present keeps the elements distinct. */
  lemma NoDupSnoc<T>(s: seq<T>, x: T)
    requires NoDup(s) && x !in s
    ensures NoDup(s + [x])
  {
  }

  /** The occurrences in a non-empty sequence: those in its front, plus one if the last element matches. */
  lemma OccurrencesLast<T>(s: seq<T>, x: T)
    requires |s| > 0
    ensures Occurrences(s, x) == Occurrences(s[..|s| - 1], x) + (if s[|s| - 1] == x then 1 else 0)
    ensures x in s <==> x in s[..|s| - 1] || s[|s| - 1] == x
  {
    SplitLast(s);
    assert multiset(s) == multiset(s[..|s| - 1]) + multiset{s[|s| - 1]};
  }

  /** Index of the first occurrence of `x` in `s`. */
  function IndexOf<T(==)>(s: seq<T>, x: T): (i: nat)
    requires x in s
    ensures i < |s| && s[i] == x
    ensures forall k :: 0 <= k < i ==> s[k] != x
  {
    if s[0] == x then 0 else 1 + IndexOf(s[1..], x)
  }

  /** Past a head that differs, the first occurrence is one further along in the tail. */
  lemma IndexOfPastHead<T>(s: seq<T>, x: T)
    requires |s| > 0 && s[0] != x
    ensures x in s <==> x in s[1..]
    ensures x in s ==> IndexOf(s, x) == 1 + IndexOf(s[1..], x)
  {
    if x in s {
      var i :| 0 <= i < |s| && s[i] == x;
      assert s[1..][i - 1] == x;
    }
  }

  /** A rearrangement holds the same elements. */
  lemma PermutationMembers<T>(a: seq<T>, b: seq<T>, x: T)
    requires multiset(a) == multiset(b) && x in a
    ensures x in b
  {
    assert x in multiset(a);
  }

  /** `[...new Set(s)]`: the distinct elements of `s`, each at its first occurrence. */
  function Dedup<T(==)>(s: seq<T>): (r: seq<T>)
    ensures NoDup(r)
    ensures forall i :: 0 <= i < |r| ==> r[i] in s
    ensures forall i :: 0 <= i < |s| ==> s[i] in r
    ensures forall i, j :: 0 <= i < j < |r| ==> IndexOf(s, r[i]) < IndexOf(s, r[j])
    ensures |r| <= |s|
  {
    if |s| == 0 then []
    else
      var init := s[..|s| - 1];
      var x := s[|s| - 1];
      var p := Dedup(init);
      assert s == init + [x];
      forall y | y in init
        ensures IndexOf(s, y) == IndexOf(init, y)
      {
        IndexOfPrefix(init, x, y);
      }
      if x in p then
        p
      else
        assert x !in init;
        assert IndexOf(s, x) == |s| - 1;
        p + [x]
  }

  lemma IndexOfPrefix<T>(init: seq<T>, x: T, y: T)
    requires y in init
    ensures IndexOf(init + [x], y) == IndexOf(init, y)
  {
    if init[0] != y {
      assert (init + [x])[1..] == init[1..] + [x];
      IndexOfPrefix(init[1..], x, y);
    }
  }

  /** `s.map(f)`. */
  function Map<A, B>(s: seq<A>, f: A -> B): (r: seq<B>)
    ensures |r| == |s|
    ensures forall i :: 0 <= i < |s| ==> r[i] == f(s[i])
  {
    if |s| == 0 then [] else [f(s[0])] + Map(s[1..], f)
  }
  lemma MapOfPair<A, B>(a: A, b: A, f: A -> B)
    ensures Map([a, b], f) == [f(a), f(b)]
  {
  }

  /** A value listed twice deduplicates to one. */
  lemma DedupOfTwin<T>(x: T)
    ensures Dedup([x, x]) == [x]
  {
    DedupConstant([x, x], x);
  }

  /** A non-empty sequence of one repeated value deduplicates to that value. */
  lemma DedupConstant<T>(s: seq<T>, x: T)
    requires |s| > 0 && forall i :: 0 <= i < |s| ==> s[i] == x
    ensures Dedup(s) == [x]
  {
    var r := Dedup(s);
    assert s[0] in r;
    forall k | 0 <= k < |r|
      ensures r[k] == x
    {
      assert r[k] in s;
    }
  }

  /** The distinct images of `s` under `f`: each is the image of some element, and every image appears. */
  lemma DedupMap<A, B>(s: seq<A>, f: A -> B)
    ensures forall k :: 0 <= k < |Dedup(Map(s, f))| ==> exists i :: 0 <= i < |s| && Dedup(Map(s, f))[k] == f(s[i])
    ensures forall i :: 0 <= i < |s| ==> f(s[i]) in Dedup(Map(s, f))
    ensures |s| > 0 <==> |Dedup(Map(s, f))| > 0
  {
    var m := Map(s, f);
    var r := Dedup(m);
    forall k | 0 <= k < |r|
      ensures exists i :: 0 <= i < |s| && r[k] == f(s[i])
    {
      var i :| 0 <= i < |m| && m[i] == r[k];
      assert r[k] == f(s[i]);
    }
    assert |s| > 0 ==> m[0] in r;
  }


  lemma MapConcat<A, B>(a: seq<A>, b: seq<A>, f: A -> B)
    ensures Map(a + b, f) == Map(a, f) + Map(b, f)
  {
  }

  /** Filtering and mapping one more element appends its image when it is kept. */
  lemma MapFilterSnoc<A, B>(s: seq<A>, x: A, p: A -> bool, f: A -> B)
    ensures Map(Filter(s + [x], p), f) == Map(Filter(s, p), f) + (if p(x) then [f(x)] else [])
  {
    FilterConcat(s, [x], p);
    assert Filter([x], p) == if p(x) then [x] else [];
    MapConcat(Filter(s, p), Filter([x], p), f);
  }

  /** The prefix form of `MapFilterSnoc`, for loops that walk `s` by index. */
  lemma MapFilterPrefix<A, B>(s: seq<A>, i: nat, p: A -> bool, f: A -> B)
    requires i < |s|
    ensures Map(Filter(s[..i + 1], p), f) == Map(Filter(s[..i], p), f) + (if p(s[i]) then [f(s[i])] else [])
  {
    assert s[..i + 1] == s[..i] + [s[i]];
    MapFilterSnoc(s[..i], s[i], p, f);
  }

  /** Two tests that never both hold keep at most `|s|` elements between them. */
  lemma {:induction false} FilterDisjointLength<T>(s: seq<T>, p: T -> bool, q: T -> bool)
    requires forall i :: 0 <= i < |s| ==> !(p(s[i]) && q(s[i]))
    ensures |Filter(s, p)| + |Filter(s, q)| <= |s|
  {
    if |s| > 0 {
      FilterDisjointLength(s[1..], p, q);
    }
  }

  /** Filtering keeps every copy of an element that passes and none of one that fails. */
  lemma {:induction false} FilterOccurrences<T>(s: seq<T>, p: T -> bool, x: T)
    ensures Occurrences(Filter(s, p), x) == if p(x) then Occurrences(s, x) else 0
  {
    if |s| > 0 {
      FilterOccurrences(s[1..], p, x);
      assert s == [s[0]] + s[1..];
      assert multiset(s) == multiset{s[0]} + multiset(s[1..]);
      assert Filter(s, p) == (if p(s[0]) then [s[0]] else []) + Filter(s[1..], p);
      assert multiset(Filter(s, p)) == multiset(if p(s[0]) then [s[0]] else []) + multiset(Filter(s[1..], p));
    }
  }

  /** A sum whose terms are all zero but one is that term. */
  lemma {:induction false} SumOneTerm(s: seq<int>, i: nat)
    requires i < |s|
    requires forall k :: 0 <= k < |s| && k != i ==> s[k] == 0
    ensures Sum(s) == s[i]
  {
    if i == 0 {
      SumZero(s[1..]);
    } else {
      SumOneTerm(s[1..], i - 1);
    }
  }

  /** A sum of zeros is zero. */
  lemma {:induction false} SumZero(s: seq<int>)
    requires forall k :: 0 <= k < |s| ==> s[k] == 0
    ensures Sum(s) == 0
  {
    if |s| > 0 {
      SumZero(s[1..]);
    }
  }

  /** An element of a sequence without repeats occurs once. */
  lemma {:induction false} NoDupOnce<T>(s: seq<T>, p: nat)
    requires p < |s| && NoDup(s)
    ensures multiset(s)[s[p]] == 1
  {
    assert s == [s[0]] + s[1..];
    if p == 0 {
      assert s[0] !in s[1..];
    } else {
      NoDupOnce(s[1..], p - 1);
    }
  }

  /** A reordering of a sequence without repeats has none either. */
  lemma NoDupPermutation<T>(a: seq<T>, b: seq<T>)
    requires multiset(a) == multiset(b) && NoDup(a)
    ensures NoDup(b)
  {
    forall i, j | 0 <= i < j < |b|
      ensures b[i] != b[j]
    {
      if b[i] == b[j] {
        assert b == b[..i] + [b[i]] + b[i + 1..j] + [b[j]] + b[j + 1..];
        assert multiset(b)[b[i]] >= 2;
        assert b[i] in multiset(a);
        var p :| 0 <= p < |a| && a[p] == b[i];
        NoDupOnce(a, p);
        assert false;
      }
    }
  }
}
