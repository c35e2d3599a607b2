/**
  A stable insertion sort standing in for `Array.prototype.sort`, which is stable.
  A comparator `cmp` of the source becomes the relation `le(a, b) == (cmp(a, b) <= 0)`;
  sortedness and permutation are proved whenever `le` is a total preorder.
 */
module Sorting {
  import Text
  import Seqs

  ghost predicate TotalPreorder<T(!new)>(le: (T, T) -> bool) {
    && (forall a, b :: le(a, b) || le(b, a))
    && (forall a, b, c :: le(a, b) && le(b, c) ==> le(a, c))
  }

  /** One broken chain is enough to rule out a preorder. */
  lemma NotTransitive<T(!new)>(le: (T, T) -> bool, a: T, b: T, c: T)
    requires le(a, b) && le(b, c) && !le(a, c)
    ensures !TotalPreorder(le)
  {
  }

  predicate SortedBy<T>(s: seq<T>, le: (T, T) -> bool) {
    forall i, j :: 0 <= i < j < |s| ==> le(s[i], s[j])
  }

  /** Inserts `x` after every leading element that is `le` to it, so equal elements keep their order. */
  function Insert<T>(x: T, s: seq<T>, le: (T, T) -> bool): (r: seq<T>)
    ensures |r| == |s| + 1
    ensures multiset(r) == multiset(s) + multiset{x}
  {
    if |s| == 0 then [x]
    else if !le(s[0], x) then [x] + s
    else
      assert s == [s[0]] + s[1..];
      [s[0]] + Insert(x, s[1..], le)
  }

  lemma {:induction false} InsertSorted<T(!new)>(x: T, s: seq<T>, le: (T, T) -> bool)
    requires TotalPreorder(le)
    requires SortedBy(s, le)
    ensures SortedBy(Insert(x, s, le), le)
  {
    if |s| == 0 {
    } else if !le(s[0], x) {
      assert le(x, s[0]);
      var r := [x] + s;
      forall i, j | 0 <= i < j < |r|
        ensures le(r[i], r[j])
      {
        if i == 0 {
          assert le(s[0], s[j - 1]) || j == 1;
        }
      }
    } else {
      assert le(s[0], x);
      InsertSorted(x, s[1..], le);
      var tail := Insert(x, s[1..], le);
      var r := [s[0]] + tail;
      forall k | 0 <= k < |tail|
        ensures le(s[0], tail[k])
      {
        assert tail[k] in multiset(tail);
        assert tail[k] in multiset(s[1..]) + multiset{x};
        if tail[k] != x {
          assert tail[k] in multiset(s[1..]);
          assert tail[k] in s[1..];
          var m :| 0 <= m < |s[1..]| && s[1..][m] == tail[k];
          assert le(s[0], s[m + 1]);
        }
      }
      forall i, j | 0 <= i < j < |r|
        ensures le(r[i], r[j])
      {
        if i == 0 {
          assert r[j] == tail[j - 1];
        } else {
          assert r[i] == tail[i - 1] && r[j] == tail[j - 1];
        }
      }
    }
  }

  /** `s` sorted by `le`; elements that compare equal keep their input order. */
  function SortBy<T(!new)>(s: seq<T>, le: (T, T) -> bool): (r: seq<T>)
    requires TotalPreorder(le)
    ensures multiset(r) == multiset(s)
    ensures |r| == |s|
    ensures SortedBy(r, le)
  {
    if |s| == 0 then []
    else
      var rest := SortBy(s[..|s| - 1], le);
      assert s == s[..|s| - 1] + [s[|s| - 1]];
      InsertSorted(s[|s| - 1], rest, le);
      Insert(s[|s| - 1], rest, le)
  }

  /** Sorting keeps exactly the elements of the input: membership in both directions. */
  lemma SortByMembers<T(!new)>(s: seq<T>, le: (T, T) -> bool, x: T)
    requires TotalPreorder(le)
    ensures x in SortBy(s, le) <==> x in s
  {
    var r := SortBy(s, le);
    assert x in r <==> x in multiset(r);
    assert x in s <==> x in multiset(s);
  }

  /** Code-point string order (`localeCompare` and the default sort) is a total preorder. */
  lemma LexLeIsTotalPreorder()
    ensures TotalPreorder(Text.LexLe)
  {
    forall a, b
      ensures Text.LexLe(a, b) || Text.LexLe(b, a)
    {
      Text.LexLeTotal(a, b);
    }
    forall a, b, c | Text.LexLe(a, b) && Text.LexLe(b, c)
      ensures Text.LexLe(a, c)
    {
      Text.LexLeTransitive(a, b, c);
    }
  }

  /** Keeping some elements of a sorted sequence keeps it sorted. */
  lemma {:induction false} FilterSorted<T>(s: seq<T>, p: T -> bool, le: (T, T) -> bool)
    requires SortedBy(s, le)
    ensures SortedBy(Seqs.Filter(s, p), le)
  {
    if |s| > 0 {
      FilterSorted(s[1..], p, le);
      var tail := Seqs.Filter(s[1..], p);
      forall k | 0 <= k < |tail|
        ensures le(s[0], tail[k])
      {
        Seqs.FilterMembers(s[1..], p, tail[k]);
        HeadBeforeTail(s, le, tail[k]);
      }
      if p(s[0]) {
        ConsSorted(s[0], tail, le);
      }
    }
  }

  /** In a sorted sequence the head comes before everything in the tail. */
  lemma HeadBeforeTail<T>(s: seq<T>, le: (T, T) -> bool, y: T)
    requires |s| > 0 && SortedBy(s, le) && y in s[1..]
    ensures le(s[0], y)
  {
    var m :| 0 <= m < |s[1..]| && s[1..][m] == y;
    assert s[m + 1] == y;
  }

  /** Putting a least element in front of a sorted sequence keeps it sorted. */
  lemma ConsSorted<T>(x: T, t: seq<T>, le: (T, T) -> bool)
    requires SortedBy(t, le) && forall k :: 0 <= k < |t| ==> le(x, t[k])
    ensures SortedBy([x] + t, le)
  {
    var r := [x] + t;
    forall i, j | 0 <= i < j < |r|
      ensures le(r[i], r[j])
    {
      if i == 0 {
        assert r[j] == t[j - 1];
      } else {
        assert r[i] == t[i - 1] && r[j] == t[j - 1];
      }
    }
  }

  /** The head of a list sorted in code-point order is its least element. */
  lemma FirstIsLeast(s: seq<string>)
    requires |s| > 0 && SortedBy(s, Text.LexLe)
    ensures forall g :: g in s ==> Text.LexLe(s[0], g)
  {
    Text.LexLeTotal(s[0], s[0]);
  }

  /** Mapping a sorted sequence through a monotone `f` gives a sorted sequence. */
  lemma MapSorted<A, B>(s: seq<A>, f: A -> B, leA: (A, A) -> bool, leB: (B, B) -> bool)
    requires SortedBy(s, leA)
    requires forall i, j :: 0 <= i < j < |s| && leA(s[i], s[j]) ==> leB(f(s[i]), f(s[j]))
    ensures SortedBy(Seqs.Map(s, f), leB)
  {
  }

  /** The order `le` read through `f`. */
  function Pullback<A, B>(le: (B, B) -> bool, f: A -> B): (A, A) -> bool {
    (a: A, b: A) => le(f(a), f(b))
  }

  lemma PullbackIsTotalPreorder<A(!new), B(!new)>(le: (B, B) -> bool, f: A -> B)
    requires TotalPreorder(le)
    ensures TotalPreorder(Pullback(le, f))
  {
  }

  lemma {:induction false} InsertMap<A, B>(x: A, s: seq<A>, le: (B, B) -> bool, f: A -> B)
    ensures Insert(f(x), Seqs.Map(s, f), le) == Seqs.Map(Insert(x, s, Pullback(le, f)), f)
  {
    if |s| > 0 {
      InsertMap(x, s[1..], le, f);
      assert Seqs.Map(s, f)[1..] == Seqs.Map(s[1..], f);
    }
  }

  /** Sorting the images of `f` is sorting by the pulled-back order and then applying `f`. */
  lemma {:induction false} SortByMap<A(!new), B(!new)>(s: seq<A>, le: (B, B) -> bool, f: A -> B)
    requires TotalPreorder(le)
    ensures TotalPreorder(Pullback(le, f))
    ensures SortBy(Seqs.Map(s, f), le) == Seqs.Map(SortBy(s, Pullback(le, f)), f)
  {
    PullbackIsTotalPreorder(le, f);
    if |s| > 0 {
      var init := s[..|s| - 1];
      SortByMap(init, le, f);
      assert Seqs.Map(s, f)[..|s| - 1] == Seqs.Map(init, f);
      InsertMap(s[|s| - 1], SortBy(init, Pullback(le, f)), le, f);
    }
  }

  /**
    Inserting into a sorted sequence keeps, among elements that all compare
    equal, the inserted one after the ones already there.
   */
  lemma InsertFilter<T(!new)>(x: T, t: seq<T>, le: (T, T) -> bool, p: T -> bool)
    requires TotalPreorder(le) && SortedBy(t, le)
    requires forall a, b :: p(a) && p(b) ==> le(a, b)
    ensures Seqs.Filter(Insert(x, t, le), p) == Seqs.Filter(t, p) + (if p(x) then [x] else [])
  {
    if p(x) {
      forall j, k | 0 <= j <= k < |t| && p(t[k])
        ensures le(t[j], x)
      {
        assert le(t[k], x);
        if j < k {
          assert le(t[j], t[k]);
        }
      }
    }
    InsertFilterUpTo(x, t, le, p);
  }

  /**
    When `x` passes `p`, every element up to one that passes `p` sorts before
    `x`: then inserting `x` lands it after every element that passes `p`.
   */
  predicate BeforeMatches<T>(x: T, t: seq<T>, le: (T, T) -> bool, p: T -> bool) {
    p(x) ==> forall j, k :: 0 <= j <= k < |t| && p(t[k]) ==> le(t[j], x)
  }

  lemma {:induction false} InsertFilterUpTo<T>(x: T, t: seq<T>, le: (T, T) -> bool, p: T -> bool)
    requires BeforeMatches(x, t, le, p)
    ensures Seqs.Filter(Insert(x, t, le), p) == Seqs.Filter(t, p) + (if p(x) then [x] else [])
  {
    if |t| == 0 {
      Seqs.FilterSingle(x, p);
    } else if !le(t[0], x) {
      InsertFrontFilter(x, t, le, p);
    } else {
      BeforeMatchesTail(x, t, le, p);
      InsertFilterUpTo(x, t[1..], le, p);
      InsertSkipFilter(x, t, le, p);
    }
  }

  /** Inserted in front, `x` comes after the matches only when there are none. */
  lemma InsertFrontFilter<T>(x: T, t: seq<T>, le: (T, T) -> bool, p: T -> bool)
    requires |t| > 0 && !le(t[0], x) && BeforeMatches(x, t, le, p)
    ensures Seqs.Filter(Insert(x, t, le), p) == Seqs.Filter(t, p) + (if p(x) then [x] else [])
  {
    InsertFront(x, t, le, p);
    if p(x) {
      forall k | 0 <= k < |t|
        ensures !p(t[k])
      {
      }
      Seqs.FilterNone(t, p);
    }
  }

  lemma BeforeMatchesTail<T>(x: T, t: seq<T>, le: (T, T) -> bool, p: T -> bool)
    requires |t| > 0 && BeforeMatches(x, t, le, p)
    ensures BeforeMatches(x, t[1..], le, p)
  {
    if p(x) {
      forall j, k | 0 <= j <= k < |t[1..]| && p(t[1..][k])
        ensures le(t[1..][j], x)
      {
        assert t[1..][k] == t[k + 1] && t[1..][j] == t[j + 1];
      }
    }
  }

  /** Past the head, the filter of the insertion into the tail carries over to the whole. */
  lemma InsertSkipFilter<T>(x: T, t: seq<T>, le: (T, T) -> bool, p: T -> bool)
    requires |t| > 0 && le(t[0], x)
    requires Seqs.Filter(Insert(x, t[1..], le), p) == Seqs.Filter(t[1..], p) + (if p(x) then [x] else [])
    ensures Seqs.Filter(Insert(x, t, le), p) == Seqs.Filter(t, p) + (if p(x) then [x] else [])
  {
    InsertSkip(x, t, le, p);
    var p0, px := if p(t[0]) then [t[0]] else [], if p(x) then [x] else [];
    Regroup(Seqs.Filter(Insert(x, t, le), p), p0, Seqs.Filter(t[1..], p), px);
  }

  /** Concatenation regrouped, kept apart so that the step above stays cheap. */
  lemma Regroup<T>(a: seq<T>, p0: seq<T>, f: seq<T>, px: seq<T>)
    requires a == p0 + (f + px)
    ensures a == (p0 + f) + px
  {
  }

  /** Inserting before the head puts `x` first. */
  lemma InsertFront<T>(x: T, t: seq<T>, le: (T, T) -> bool, p: T -> bool)
    requires |t| > 0 && !le(t[0], x)
    ensures Seqs.Filter(Insert(x, t, le), p) == (if p(x) then [x] else []) + Seqs.Filter(t, p)
  {
    var r := Insert(x, t, le);
    assert r == [x] + t;
    assert r[1..] == t;
  }

  /** Inserting past the head keeps the head first. */
  lemma InsertSkip<T>(x: T, t: seq<T>, le: (T, T) -> bool, p: T -> bool)
    requires |t| > 0 && le(t[0], x)
    ensures var p0 := if p(t[0]) then [t[0]] else [];
      && Seqs.Filter(Insert(x, t, le), p) == p0 + Seqs.Filter(Insert(x, t[1..], le), p)
      && Seqs.Filter(t, p) == p0 + Seqs.Filter(t[1..], p)
  {
    var rest := Insert(x, t[1..], le);
    assert Insert(x, t, le) == [t[0]] + rest;
    assert ([t[0]] + rest)[1..] == rest;
  }

  /**
    The sort is stable: elements that all compare equal come out in the order
    they went in.
   */
  lemma {:induction false} SortStable<T(!new)>(s: seq<T>, le: (T, T) -> bool, p: T -> bool)
    requires TotalPreorder(le)
    requires forall a, b :: p(a) && p(b) ==> le(a, b)
    ensures Seqs.Filter(SortBy(s, le), p) == Seqs.Filter(s, p)
  {
    if |s| > 0 {
      var init := s[..|s| - 1];
      var x := s[|s| - 1];
      SortStable(init, le, p);
      assert SortBy(s, le) == Insert(x, SortBy(init, le), le);
      InsertFilter(x, SortBy(init, le), le, p);
      Seqs.FilterLast(s, p);
    }
  }
}
