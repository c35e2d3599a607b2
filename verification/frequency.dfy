/**
  Frequency maps as the routes build them: a JavaScript `Map<string, number>`
  is a list of entries in insertion order, one per key, and
  `map.set(k, (map.get(k) || 0) + 1)` bumps a key's count or appends it with
  count 1. Sorting by count is the stable sort of `b.count - a.count`.
 */
module Frequency {
  import opened Seqs
  import opened Sorting

  /** One `[key, count]` entry. */
  datatype Count = Count(name: string, count: nat)

  /** The keys in insertion order. */
  function Keys(m: seq<Count>): (r: seq<string>)
    ensures |r| == |m|
    ensures forall i :: 0 <= i < |m| ==> r[i] == m[i].name
  {
    Map(m, (c: Count) => c.name)
  }

  /** `map.get(k) || 0`: the count of the first entry for `k`, else 0. */
  function Get(m: seq<Count>, k: string): (r: nat)
    ensures k !in Keys(m) ==> r == 0
    ensures k in Keys(m) ==> r == m[IndexOf(Keys(m), k)].count
  {
    if |m| == 0 then 0
    else
      KeysTail(m);
      if m[0].name == k then m[0].count
      else
        IndexOfPastHead(Keys(m), k);
        Get(m[1..], k)
  }

  lemma KeysTail(m: seq<Count>)
    requires |m| > 0
    ensures Keys(m)[0] == m[0].name && Keys(m[1..]) == Keys(m)[1..]
  {
    var l := Keys(m)[1..];
    assert forall i :: 0 <= i < |l| ==> l[i] == m[1..][i].name;
  }

  /** `map.set(k, (map.get(k) || 0) + 1)`. */
  function Bump(m: seq<Count>, k: string): (r: seq<Count>)
    ensures Get(r, k) == Get(m, k) + 1
    ensures forall j :: j != k ==> Get(r, j) == Get(m, j)
  {
    if |m| == 0 then [Count(k, 1)]
    else if m[0].name == k then [Count(k, m[0].count + 1)] + m[1..]
    else [m[0]] + Bump(m[1..], k)
  }

  /** Bumping a present key keeps the keys; bumping a new one appends it. */
  lemma {:induction false} BumpKeys(m: seq<Count>, k: string)
    ensures Keys(Bump(m, k)) == if k in Keys(m) then Keys(m) else Keys(m) + [k]
  {
    if |m| > 0 {
      var tail := m[1..];
      SplitHead(m);
      KeysCons(m[0], tail);
      if m[0].name != k {
        BumpKeys(tail, k);
        KeysCons(m[0], Bump(tail, k));
        if k !in Keys(tail) {
          ConsSnoc(m[0].name, Keys(tail), k);
        }
      } else {
        KeysCons(Count(k, m[0].count + 1), tail);
      }
    }
  }

  lemma KeysCons(c: Count, m: seq<Count>)
    ensures Keys([c] + m) == [c.name] + Keys(m)
  {
    var l := Keys([c] + m);
    assert forall i :: 1 <= i < |l| ==> l[i] == m[i - 1].name;
  }

  /** The map after bumping every key of `keys` in order, starting empty. */
  function Tally(keys: seq<string>): seq<Count> {
    if |keys| == 0 then [] else Bump(Tally(keys[..|keys| - 1]), keys[|keys| - 1])
  }

  /**
    A tally counts each key as often as it occurs, holds one entry per distinct
    key and nothing else.
   */
  lemma {:induction false} TallyCounts(keys: seq<string>)
    ensures forall k :: Get(Tally(keys), k) == Occurrences(keys, k)
    ensures NoDup(Keys(Tally(keys)))
    ensures forall k :: k in Keys(Tally(keys)) <==> k in keys
  {
    if |keys| > 0 {
      var init := keys[..|keys| - 1];
      var x := keys[|keys| - 1];
      TallyCounts(init);
      var before := Tally(init);
      assert Tally(keys) == Bump(before, x);
      forall k
        ensures Get(Tally(keys), k) == Occurrences(keys, k)
        ensures k in keys <==> k in init || k == x
      {
        OccurrencesLast(keys, k);
      }
      BumpKeys(before, x);
      if x !in Keys(before) {
        NoDupSnoc(Keys(before), x);
      }
    }
  }

  /** Appending keys bumps them one after another. */
  lemma TallySnoc(keys: seq<string>, x: string)
    ensures Tally(keys + [x]) == Bump(Tally(keys), x)
  {
    assert (keys + [x])[..|keys|] == keys;
  }

  /** `(a, b) => b.count - a.count` as an order: `a` may come first when its count is at least `b`'s. */
  predicate ByCountDesc(a: Count, b: Count) {
    a.count >= b.count
  }

  lemma ByCountDescIsTotalPreorder()
    ensures TotalPreorder(ByCountDesc)
  {
  }

  /** `mapToSorted`: the entries, most frequent first, equal counts in insertion order. */
  function ToSorted(m: seq<Count>): (r: seq<Count>)
    ensures multiset(r) == multiset(m)
    ensures forall i, j :: 0 <= i < j < |r| ==> r[i].count >= r[j].count
  {
    ByCountDescIsTotalPreorder();
    SortBy(m, ByCountDesc)
  }

  /** The entries holding count `c`, as a filter test. */
  function CountIs(c: int): Count -> bool {
    (e: Count) => e.count == c
  }

  /** The sort is stable: entries with equal counts keep their insertion order. */
  lemma ToSortedStable(m: seq<Count>, c: int)
    ensures Filter(ToSorted(m), CountIs(c)) == Filter(m, CountIs(c))
  {
    ByCountDescIsTotalPreorder();
    SortStable(m, ByCountDesc, CountIs(c));
  }

  /**
    `r` lists `keys` by frequency: one entry per distinct key, each holding
    its number of occurrences, and nothing else.
   */
  predicate Lists(r: seq<Count>, keys: seq<string>) {
    && (forall i :: 0 <= i < |r| ==> r[i].count == Occurrences(keys, r[i].name) && r[i].name in keys)
    && (forall k :: k in keys ==> Count(k, Occurrences(keys, k)) in r)
    && (forall i, j :: 0 <= i < j < |r| ==> r[i].name != r[j].name)
  }

  /** Any reordering of a tally lists its keys. */
  lemma PermutedTally(keys: seq<string>, r: seq<Count>)
    requires multiset(r) == multiset(Tally(keys))
    ensures Lists(r, keys)
  {
    var m := Tally(keys);
    TallyCounts(keys);
    forall i | 0 <= i < |r|
      ensures r[i].count == Occurrences(keys, r[i].name) && r[i].name in keys
    {
      assert r[i] in multiset(m);
      var p :| 0 <= p < |m| && m[p] == r[i];
      EntryCount(m, p);
      assert Keys(m)[p] == r[i].name;
    }
    forall k | k in keys
      ensures Count(k, Occurrences(keys, k)) in r
    {
      var p := IndexOf(Keys(m), k);
      EntryCount(m, p);
      assert m[p] in multiset(r);
    }
    forall i, j | 0 <= i < j < |r|
      ensures r[i].name != r[j].name
    {
      DistinctAfterPermutation(m, r, i, j);
    }
  }

  /** Sorting a tally keeps one entry per distinct key, each with its number of occurrences. */
  lemma SortedTally(keys: seq<string>)
    ensures Lists(ToSorted(Tally(keys)), keys)
  {
    PermutedTally(keys, ToSorted(Tally(keys)));
  }

  /** In a map without repeated keys every entry holds its key's count. */
  lemma EntryCount(m: seq<Count>, p: nat)
    requires p < |m| && NoDup(Keys(m))
    ensures Get(m, m[p].name) == m[p].count
  {
    var ks := Keys(m);
    assert ks[p] in ks;
    var ix := IndexOf(ks, ks[p]);
    assert ks[ix] == ks[p];
    assert ix == p;
  }

  /** A permutation of a map without repeated keys has none either. */
  lemma DistinctAfterPermutation(m: seq<Count>, r: seq<Count>, i: nat, j: nat)
    requires multiset(r) == multiset(m) && NoDup(Keys(m))
    requires i < j < |r|
    ensures r[i].name != r[j].name
  {
    assert r[i] in multiset(m) && r[j] in multiset(m);
    var p :| 0 <= p < |m| && m[p] == r[i];
    var q :| 0 <= q < |m| && m[q] == r[j];
    SingleEntry(m, p);
    RepeatedCount(r, i, j);
    assert p != q;
    assert Keys(m)[p] != Keys(m)[q];
  }

  /** An entry of a map without repeated keys occurs once. */
  lemma SingleEntry(m: seq<Count>, p: nat)
    requires p < |m| && NoDup(Keys(m))
    ensures multiset(m)[m[p]] == 1
  {
    forall i, j | 0 <= i < j < |m|
      ensures m[i] != m[j]
    {
      assert Keys(m)[i] != Keys(m)[j];
    }
    NoDupOnce(m, p);
  }
}
