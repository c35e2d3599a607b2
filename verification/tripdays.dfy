/**
  Trip-day grouping (`client/src/utils/tripDays.ts`): an album's photos split
  by the calendar day they were taken, days in ascending date order and
  numbered from 1, photos without a usable date in a final "Unknown Date"
  group. Date parsing and formatting are parameters: `dateKeyOf` stands for
  `new Date(s.replace(' at ', ' ')).toISOString().split('T')[0]`, None when the
  date is invalid, and `labelOf` for the long `en-US` date label.
 */
module TripDays {
  import opened Wrappers
  import opened Seqs
  import opened Sorting
  import opened Text
  import opened Types

  datatype DayGroup = DayGroup(dayNumber: nat, dateLabel: string, dateKey: string, images: seq<ImageInfo>)

  const UnknownKey: string := "unknown"
  const UnknownLabel: string := "Unknown Date"

  /** `getDateKey(img.exif?.dateTaken)` as the grouping tests it: a missing, empty or unparsable date gives none. */
  function DayKey(img: ImageInfo, dateKeyOf: string -> Option<string>): (k: Option<string>)
    ensures k.Some? ==> k.value != "" && DateTakenOf(img).Some? && dateKeyOf(DateTakenOf(img).value) == k
  {
    var d := DateTakenOf(img);
    if d.None? || d.value == "" then None
    else
      var k := dateKeyOf(d.value);
      if k.None? || k.value == "" then None else k
  }

  function Dated(dateKeyOf: string -> Option<string>): ImageInfo -> bool {
    (img: ImageInfo) => DayKey(img, dateKeyOf).Some?
  }

  function Undated(dateKeyOf: string -> Option<string>): ImageInfo -> bool {
    (img: ImageInfo) => DayKey(img, dateKeyOf).None?
  }

  function OnDay(dateKeyOf: string -> Option<string>, key: string): ImageInfo -> bool {
    (img: ImageInfo) => DayKey(img, dateKeyOf) == Some(key)
  }

  function KeyOf(dateKeyOf: string -> Option<string>): ImageInfo -> string {
    (img: ImageInfo) => DayKey(img, dateKeyOf).GetOr("")
  }

  /** `groups.keys()`: the distinct day keys in the order their first photo appears. */
  function FirstSeenKeys(images: seq<ImageInfo>, dateKeyOf: string -> Option<string>): seq<string> {
    Dedup(Map(Filter(images, Dated(dateKeyOf)), KeyOf(dateKeyOf)))
  }

  /** `Array.from(groups.keys()).sort()`. */
  function SortedKeys(images: seq<ImageInfo>, dateKeyOf: string -> Option<string>): (r: seq<string>)
    ensures multiset(r) == multiset(FirstSeenKeys(images, dateKeyOf))
    ensures forall i, j :: 0 <= i < j < |r| ==> LexLt(r[i], r[j])
  {
    LexLeIsTotalPreorder();
    var r := SortBy(FirstSeenKeys(images, dateKeyOf), LexLe);
    NoDupPermutation(FirstSeenKeys(images, dateKeyOf), r);
    r
  }

  /** A day's group: its number, label, key and the photos taken that day in input order. */
  function DayOf(images: seq<ImageInfo>, dateKeyOf: string -> Option<string>, labelOf: string -> string,
                 keys: seq<string>, i: nat): DayGroup
    requires i < |keys|
  {
    DayGroup(i + 1, labelOf(keys[i]), keys[i], Filter(images, OnDay(dateKeyOf, keys[i])))
  }

  function DayGroups(images: seq<ImageInfo>, dateKeyOf: string -> Option<string>, labelOf: string -> string,
                     keys: seq<string>, n: nat): (r: seq<DayGroup>)
    requires n <= |keys|
    ensures |r| == n
    ensures forall i :: 0 <= i < n ==> r[i] == DayOf(images, dateKeyOf, labelOf, keys, i)
  {
    if n == 0 then [] else DayGroups(images, dateKeyOf, labelOf, keys, n - 1) + [DayOf(images, dateKeyOf, labelOf, keys, n - 1)]
  }

  /**
    `groupImagesByDay`: one group per day in ascending key order, numbered
    from 1, holding that day's photos in input order, then the undated photos
    in a last group when there are any.
   */
  function GroupImagesByDay(images: seq<ImageInfo>, dateKeyOf: string -> Option<string>, labelOf: string -> string)
    : (r: seq<DayGroup>)
    ensures var keys := SortedKeys(images, dateKeyOf);
      && |r| == |keys| + (if CountIf(images, Undated(dateKeyOf)) > 0 then 1 else 0)
      && (forall i :: 0 <= i < |keys| ==> r[i] == DayOf(images, dateKeyOf, labelOf, keys, i))
      && (CountIf(images, Undated(dateKeyOf)) > 0 ==>
            r[|keys|] == DayGroup(|keys| + 1, UnknownLabel, UnknownKey, Filter(images, Undated(dateKeyOf))))
  {
    var keys := SortedKeys(images, dateKeyOf);
    var days := DayGroups(images, dateKeyOf, labelOf, keys, |keys|);
    var unknown := Filter(images, Undated(dateKeyOf));
    if |unknown| > 0 then days + [DayGroup(|days| + 1, UnknownLabel, UnknownKey, unknown)] else days
  }

  /** Days are numbered from 1 in list order, the unknown group included. */
  lemma DaysNumbered(images: seq<ImageInfo>, dateKeyOf: string -> Option<string>, labelOf: string -> string)
    ensures var r := GroupImagesByDay(images, dateKeyOf, labelOf);
      forall i :: 0 <= i < |r| ==> r[i].dayNumber == i + 1
  {
    var r := GroupImagesByDay(images, dateKeyOf, labelOf);
    var keys := SortedKeys(images, dateKeyOf);
    forall i | 0 <= i < |r|
      ensures r[i].dayNumber == i + 1
    {
      if i < |keys| {
        assert r[i] == DayOf(images, dateKeyOf, labelOf, keys, i);
      }
    }
  }

  /** The unknown group exists exactly when some photo has no usable date, and then it is the last group. */
  lemma UnknownLast(images: seq<ImageInfo>, dateKeyOf: string -> Option<string>, labelOf: string -> string)
    ensures var r := GroupImagesByDay(images, dateKeyOf, labelOf);
      (exists i :: 0 <= i < |images| && DayKey(images[i], dateKeyOf).None?) <==>
        |r| > 0 && r[|r| - 1] == DayGroup(|r|, UnknownLabel, UnknownKey, Filter(images, Undated(dateKeyOf)))
  {
    var r := GroupImagesByDay(images, dateKeyOf, labelOf);
    var keys := SortedKeys(images, dateKeyOf);
    var unknown := Filter(images, Undated(dateKeyOf));
    if exists i :: 0 <= i < |images| && DayKey(images[i], dateKeyOf).None? {
      var i :| 0 <= i < |images| && DayKey(images[i], dateKeyOf).None?;
      FilterMembers(images, Undated(dateKeyOf), images[i]);
    } else {
      FilterNone(images, Undated(dateKeyOf));
      if |r| > 0 {
        DayNonEmpty(images, dateKeyOf, keys[|r| - 1]);
      }
    }
  }

  /** Every day listed has at least one photo. */
  lemma DayNonEmpty(images: seq<ImageInfo>, dateKeyOf: string -> Option<string>, key: string)
    requires key in SortedKeys(images, dateKeyOf)
    ensures |Filter(images, OnDay(dateKeyOf, key))| > 0
  {
    PermutationMembers(SortedKeys(images, dateKeyOf), FirstSeenKeys(images, dateKeyOf), key);
    var x := FirstSeenKeyHasImage(images, dateKeyOf, key);
    FilterMembers(images, OnDay(dateKeyOf, key), x);
  }

  /** A first-seen key comes from some photo taken that day. */
  lemma FirstSeenKeyHasImage(images: seq<ImageInfo>, dateKeyOf: string -> Option<string>, key: string)
    returns (x: ImageInfo)
    requires key in FirstSeenKeys(images, dateKeyOf)
    ensures x in images && DayKey(x, dateKeyOf) == Some(key)
  {
    var dated := Filter(images, Dated(dateKeyOf));
    var mapped := Map(dated, KeyOf(dateKeyOf));
    var first := Dedup(mapped);
    var j :| 0 <= j < |first| && first[j] == key;
    var i :| 0 <= i < |mapped| && mapped[i] == key;
    x := dated[i];
    FilterMembers(images, Dated(dateKeyOf), x);
  }

  /** The dated groups come in strictly ascending key order, so no day appears twice. */
  lemma DaysAscending(images: seq<ImageInfo>, dateKeyOf: string -> Option<string>, labelOf: string -> string)
    ensures var r := GroupImagesByDay(images, dateKeyOf, labelOf);
      forall i, j :: 0 <= i < j < |SortedKeys(images, dateKeyOf)| ==> LexLt(r[i].dateKey, r[j].dateKey)
  {
  }

  /** The day entry `getDayKeys` reports for each group. */
  datatype DayKeyEntry = DayKeyEntry(dateKey: string, dateLabel: string, dayNumber: nat)

  /** `getDayKeys`: the groups' keys, labels and numbers, in the groups' order. */
  function GetDayKeys(images: seq<ImageInfo>, dateKeyOf: string -> Option<string>, labelOf: string -> string)
    : (r: seq<DayKeyEntry>)
    ensures var g := GroupImagesByDay(images, dateKeyOf, labelOf);
      |r| == |g| && forall i :: 0 <= i < |r| ==> r[i] == DayKeyEntry(g[i].dateKey, g[i].dateLabel, g[i].dayNumber)
  {
    Map(GroupImagesByDay(images, dateKeyOf, labelOf), (g: DayGroup) => DayKeyEntry(g.dateKey, g.dateLabel, g.dayNumber))
  }

  function GroupImages(g: DayGroup): seq<ImageInfo> {
    g.images
  }

  /** The photos of all groups, group after group: what the grid shows and the lightbox walks. */
  function Concat(groups: seq<DayGroup>): seq<ImageInfo> {
    Flatten(Map(groups, GroupImages))
  }

  /** A dated photo's day is among the sorted keys. */
  lemma DayKeyListed(images: seq<ImageInfo>, dateKeyOf: string -> Option<string>, x: ImageInfo)
    requires x in images && DayKey(x, dateKeyOf).Some?
    ensures DayKey(x, dateKeyOf).value in SortedKeys(images, dateKeyOf)
  {
    var dated := Filter(images, Dated(dateKeyOf));
    FilterMembers(images, Dated(dateKeyOf), x);
    var i :| 0 <= i < |dated| && dated[i] == x;
    var mapped := Map(dated, KeyOf(dateKeyOf));
    assert mapped[i] == DayKey(x, dateKeyOf).value;
    var first := FirstSeenKeys(images, dateKeyOf);
    assert mapped[i] in first;
    assert mapped[i] in multiset(SortedKeys(images, dateKeyOf));
  }

  /** How often a photo occurs in group `k`: all its copies in its own day's group (or the unknown group), none elsewhere. */
  lemma GroupOccurrences(images: seq<ImageInfo>, dateKeyOf: string -> Option<string>, labelOf: string -> string,
                         k: nat, x: ImageInfo)
    requires k < |GroupImagesByDay(images, dateKeyOf, labelOf)|
    ensures var keys := SortedKeys(images, dateKeyOf);
      Occurrences(GroupImagesByDay(images, dateKeyOf, labelOf)[k].images, x) ==
        if k < |keys| then (if DayKey(x, dateKeyOf) == Some(keys[k]) then Occurrences(images, x) else 0)
        else (if DayKey(x, dateKeyOf).None? then Occurrences(images, x) else 0)
  {
    var keys := SortedKeys(images, dateKeyOf);
    var g := GroupImagesByDay(images, dateKeyOf, labelOf)[k];
    var p := if k < |keys| then OnDay(dateKeyOf, keys[k]) else Undated(dateKeyOf);
    assert g.images == Filter(images, p);
    assert p(x) == if k < |keys| then DayKey(x, dateKeyOf) == Some(keys[k]) else DayKey(x, dateKeyOf).None?;
    FilterOccurrences(images, p, x);
  }

  /** A photo held by group `k` alone occurs in the concatenation as often as in that group. */
  lemma OneGroupHolds(r: seq<DayGroup>, x: ImageInfo, k: nat)
    requires k < |r|
    requires forall m :: 0 <= m < |r| && m != k ==> Occurrences(r[m].images, x) == 0
    ensures Occurrences(Concat(r), x) == Occurrences(r[k].images, x)
  {
    var parts := Map(r, GroupImages);
    var counts := Map(parts, (s: seq<ImageInfo>) => Occurrences(s, x) as int);
    OccurrencesFlatten(parts, x);
    SumOneTerm(counts, k);
  }

  /** A photo held by no group does not occur in the concatenation. */
  lemma NoGroupHolds(r: seq<DayGroup>, x: ImageInfo)
    requires forall m :: 0 <= m < |r| ==> Occurrences(r[m].images, x) == 0
    ensures Occurrences(Concat(r), x) == 0
  {
    var parts := Map(r, GroupImages);
    var counts := Map(parts, (s: seq<ImageInfo>) => Occurrences(s, x) as int);
    OccurrencesFlatten(parts, x);
    SumZero(counts);
  }

  /** Each photo occurs in the groups, taken together, as often as in the input. */
  lemma ImageOccurrences(images: seq<ImageInfo>, dateKeyOf: string -> Option<string>, labelOf: string -> string, x: ImageInfo)
    ensures Occurrences(Concat(GroupImagesByDay(images, dateKeyOf, labelOf)), x) == Occurrences(images, x)
  {
    if x !in images {
      AbsentImageOccurrences(images, dateKeyOf, labelOf, x);
    } else if DayKey(x, dateKeyOf).None? {
      UndatedImageOccurrences(images, dateKeyOf, labelOf, x);
    } else {
      DatedImageOccurrences(images, dateKeyOf, labelOf, x);
    }
  }

  lemma AbsentImageOccurrences(images: seq<ImageInfo>, dateKeyOf: string -> Option<string>, labelOf: string -> string,
                               x: ImageInfo)
    requires x !in images
    ensures Occurrences(Concat(GroupImagesByDay(images, dateKeyOf, labelOf)), x) == Occurrences(images, x)
  {
    var r := GroupImagesByDay(images, dateKeyOf, labelOf);
    forall m | 0 <= m < |r|
      ensures Occurrences(r[m].images, x) == 0
    {
      GroupOccurrences(images, dateKeyOf, labelOf, m, x);
    }
    NoGroupHolds(r, x);
  }

  lemma UndatedImageOccurrences(images: seq<ImageInfo>, dateKeyOf: string -> Option<string>, labelOf: string -> string,
                                x: ImageInfo)
    requires x in images && DayKey(x, dateKeyOf).None?
    ensures Occurrences(Concat(GroupImagesByDay(images, dateKeyOf, labelOf)), x) == Occurrences(images, x)
  {
    var r := GroupImagesByDay(images, dateKeyOf, labelOf);
    FilterMembers(images, Undated(dateKeyOf), x);
    var k := |SortedKeys(images, dateKeyOf)|;
    forall m | 0 <= m < |r| && m != k
      ensures Occurrences(r[m].images, x) == 0
    {
      GroupOccurrences(images, dateKeyOf, labelOf, m, x);
    }
    GroupOccurrences(images, dateKeyOf, labelOf, k, x);
    OneGroupHolds(r, x, k);
  }

  lemma DatedImageOccurrences(images: seq<ImageInfo>, dateKeyOf: string -> Option<string>, labelOf: string -> string,
                              x: ImageInfo)
    requires x in images && DayKey(x, dateKeyOf).Some?
    ensures Occurrences(Concat(GroupImagesByDay(images, dateKeyOf, labelOf)), x) == Occurrences(images, x)
  {
    var r := GroupImagesByDay(images, dateKeyOf, labelOf);
    var keys := SortedKeys(images, dateKeyOf);
    DayKeyListed(images, dateKeyOf, x);
    var k :| 0 <= k < |keys| && keys[k] == DayKey(x, dateKeyOf).value;
    forall m | 0 <= m < |r| && m != k
      ensures Occurrences(r[m].images, x) == 0
    {
      GroupOccurrences(images, dateKeyOf, labelOf, m, x);
      if m < |keys| {
        assert keys[m] != keys[k] by {
          if m < k { assert LexLt(keys[m], keys[k]); } else { assert LexLt(keys[k], keys[m]); }
        }
      }
    }
    GroupOccurrences(images, dateKeyOf, labelOf, k, x);
    OneGroupHolds(r, x, k);
  }

  /**
    Every photo lands in exactly one group, as often as it occurs in the
    input: the groups' photos are a rearrangement of the input.
   */
  lemma EveryImageOnce(images: seq<ImageInfo>, dateKeyOf: string -> Option<string>, labelOf: string -> string)
    ensures multiset(Concat(GroupImagesByDay(images, dateKeyOf, labelOf))) == multiset(images)
  {
    var c := Concat(GroupImagesByDay(images, dateKeyOf, labelOf));
    forall x
      ensures multiset(c)[x] == multiset(images)[x]
    {
      ImageOccurrences(images, dateKeyOf, labelOf, x);
    }
  }
}

/**
  The trip-days grid (`client/src/components/TripDaysGrid.tsx`): where each
  day's photos start in the list the lightbox walks, and how a click on a
  photo of a day becomes an index into that list.
 */
module TripDaysGrid {
  import opened Wrappers
  import opened Seqs
  import opened Sorting
  import opened Text
  import opened Types
  import opened TripDays

  /** `indices[k]` is the number of photos in the days before day `k`. */
  predicate StartsOf(indices: seq<nat>, groups: seq<DayGroup>) {
    |indices| == |groups| && forall k :: 0 <= k < |groups| ==> indices[k] == |Concat(groups[..k])|
  }

  /** One more day adds its photos to the concatenation. */
  lemma ConcatSnoc(groups: seq<DayGroup>, k: nat)
    requires k < |groups|
    ensures Concat(groups[..k + 1]) == Concat(groups[..k]) + groups[k].images
  {
    assert groups[..k + 1] == groups[..k] + [groups[k]];
    MapConcat(groups[..k], [groups[k]], GroupImages);
    assert Map([groups[k]], GroupImages) == [groups[k].images];
    FlattenSnoc(Map(groups[..k], GroupImages), groups[k].images);
  }

  /** `groupStartIndices`: a running total of the group sizes, starting at 0. */
  method GroupStartIndices(groups: seq<DayGroup>) returns (indices: seq<nat>)
    ensures StartsOf(indices, groups)
    ensures |groups| > 0 ==> indices[0] == 0
    ensures forall k :: 0 <= k < |groups| - 1 ==> indices[k + 1] == indices[k] + |groups[k].images|
  {
    indices := [];
    var currentIndex := 0;
    for i := 0 to |groups|
      invariant |indices| == i
      invariant currentIndex == |Concat(groups[..i])|
      invariant forall k :: 0 <= k < i ==> indices[k] == |Concat(groups[..k])|
    {
      indices := indices + [currentIndex];
      ConcatSnoc(groups, i);
      currentIndex := currentIndex + |groups[i].images|;
    }
    forall k | 0 <= k < |groups| - 1
      ensures indices[k + 1] == indices[k] + |groups[k].images|
    {
      ConcatSnoc(groups, k);
    }
  }

  /** `handlePhotoClick`: the start of the clicked photo's day plus its place within the day. */
  function GlobalIndex(indices: seq<nat>, groupIndex: nat, photoIndexInGroup: nat): nat
    requires groupIndex < |indices|
  {
    indices[groupIndex] + photoIndexInGroup
  }

  /** The prefix of a concatenation before day `k` followed by day `k`'s photos is a prefix of it. */
  lemma {:induction false} ConcatPrefix(groups: seq<DayGroup>, k: nat)
    requires k < |groups|
    ensures |Concat(groups[..k]) + groups[k].images| <= |Concat(groups)|
    ensures Concat(groups)[..|Concat(groups[..k]) + groups[k].images|] == Concat(groups[..k]) + groups[k].images
  {
    ConcatSnoc(groups, k);
    assert groups == groups[..k + 1] + groups[k + 1..];
    MapConcat(groups[..k + 1], groups[k + 1..], GroupImages);
    FlattenConcat(Map(groups[..k + 1], GroupImages), Map(groups[k + 1..], GroupImages));
  }

  /**
    A click on a photo inside its day gives an index into the concatenated
    days, and that index shows the photo that was clicked.
   */
  lemma ClickShowsClicked(groups: seq<DayGroup>, indices: seq<nat>, groupIndex: nat, photoIndexInGroup: nat)
    requires StartsOf(indices, groups)
    requires groupIndex < |groups| && photoIndexInGroup < |groups[groupIndex].images|
    ensures GlobalIndex(indices, groupIndex, photoIndexInGroup) < |Concat(groups)|
    ensures Concat(groups)[GlobalIndex(indices, groupIndex, photoIndexInGroup)] == groups[groupIndex].images[photoIndexInGroup]
  {
    ConcatPrefix(groups, groupIndex);
    var pre := Concat(groups[..groupIndex]) + groups[groupIndex].images;
    assert pre[|Concat(groups[..groupIndex])| + photoIndexInGroup] == groups[groupIndex].images[photoIndexInGroup];
  }

  /**
    The index is into the days' concatenation, not the album's own order: two
    photos listed later day first come out earlier day first.
   */
  lemma ReorderedByDay(a: ImageInfo, b: ImageInfo, dateKeyOf: string -> Option<string>, labelOf: string -> string)
    requires DayKey(a, dateKeyOf).Some? && DayKey(b, dateKeyOf).Some?
    requires LexLt(DayKey(b, dateKeyOf).value, DayKey(a, dateKeyOf).value)
    ensures Concat(GroupImagesByDay([a, b], dateKeyOf, labelOf)) == [b, a]
  {
    PairGroups(a, b, dateKeyOf, labelOf);
    FlattenPair([b], [a]);
  }

  lemma PairGroups(a: ImageInfo, b: ImageInfo, dateKeyOf: string -> Option<string>, labelOf: string -> string)
    requires DayKey(a, dateKeyOf).Some? && DayKey(b, dateKeyOf).Some?
    requires LexLt(DayKey(b, dateKeyOf).value, DayKey(a, dateKeyOf).value)
    ensures Map(GroupImagesByDay([a, b], dateKeyOf, labelOf), GroupImages) == [[b], [a]]
  {
    PairDay(a, b, dateKeyOf, labelOf, 0);
    PairDay(a, b, dateKeyOf, labelOf, 1);
    MapPair(GroupImagesByDay([a, b], dateKeyOf, labelOf), [b], [a]);
  }

  lemma MapPair(r: seq<DayGroup>, x: seq<ImageInfo>, y: seq<ImageInfo>)
    requires |r| == 2 && r[0].images == x && r[1].images == y
    ensures Map(r, GroupImages) == [x, y]
  {
  }

  /** Day `i` of the pair holds the photo whose key is `i`-th in date order, and there is no unknown day. */
  lemma PairDay(a: ImageInfo, b: ImageInfo, dateKeyOf: string -> Option<string>, labelOf: string -> string, i: nat)
    requires DayKey(a, dateKeyOf).Some? && DayKey(b, dateKeyOf).Some?
    requires LexLt(DayKey(b, dateKeyOf).value, DayKey(a, dateKeyOf).value)
    requires i < 2
    ensures |GroupImagesByDay([a, b], dateKeyOf, labelOf)| == 2
    ensures GroupImagesByDay([a, b], dateKeyOf, labelOf)[i].images == if i == 0 then [b] else [a]
  {
    var keys := SortedKeys([a, b], dateKeyOf);
    PairKeys(a, b, dateKeyOf);
    var ka, kb := DayKey(a, dateKeyOf).value, DayKey(b, dateKeyOf).value;
    assert |keys| == 2 && keys[0] == kb && keys[1] == ka;
    FilterPair(a, b, Undated(dateKeyOf));
    assert CountIf([a, b], Undated(dateKeyOf)) == 0;
    var r := GroupImagesByDay([a, b], dateKeyOf, labelOf);
    assert r[i] == DayOf([a, b], dateKeyOf, labelOf, keys, i);
    assert ka != kb;
    var onDay := OnDay(dateKeyOf, keys[i]);
    assert onDay(a) <==> i == 1;
    assert onDay(b) <==> i == 0;
    FilterPairOne(a, b, onDay);
  }

  /** Filtering a pair where exactly one element passes keeps that one. */
  lemma FilterPairOne<T>(a: T, b: T, p: T -> bool)
    requires p(a) != p(b)
    ensures Filter([a, b], p) == if p(a) then [a] else [b]
  {
    FilterPair(a, b, p);
    if p(a) {
      assert [a] + [] == [a];
    } else {
      assert [] + [b] == [b];
    }
  }

  lemma FlattenPair<T>(x: seq<T>, y: seq<T>)
    ensures Flatten([x, y]) == x + y
  {
    assert [x, y][1..] == [y];
    assert Flatten([y]) == y + Flatten([y][1..]);
  }

  /** Filtering a pair tests each element in turn. */
  lemma FilterPair<T>(a: T, b: T, p: T -> bool)
    ensures Filter([a, b], p) == (if p(a) then [a] else []) + (if p(b) then [b] else [])
  {
    assert [a, b][1..] == [b];
  }

  /** Two photos dated on different days, the later listed first, give their days in date order. */
  lemma PairKeys(a: ImageInfo, b: ImageInfo, dateKeyOf: string -> Option<string>)
    requires DayKey(a, dateKeyOf).Some? && DayKey(b, dateKeyOf).Some?
    requires LexLt(DayKey(b, dateKeyOf).value, DayKey(a, dateKeyOf).value)
    ensures SortedKeys([a, b], dateKeyOf) == [DayKey(b, dateKeyOf).value, DayKey(a, dateKeyOf).value]
  {
    var ka := DayKey(a, dateKeyOf).value;
    var kb := DayKey(b, dateKeyOf).value;
    FirstSeenPair(a, b, dateKeyOf);
    SortPair(ka, kb);
  }

  lemma FirstSeenPair(a: ImageInfo, b: ImageInfo, dateKeyOf: string -> Option<string>)
    requires DayKey(a, dateKeyOf).Some? && DayKey(b, dateKeyOf).Some?
    requires DayKey(a, dateKeyOf) != DayKey(b, dateKeyOf)
    ensures FirstSeenKeys([a, b], dateKeyOf) == [DayKey(a, dateKeyOf).value, DayKey(b, dateKeyOf).value]
  {
    var ka := DayKey(a, dateKeyOf).value;
    var kb := DayKey(b, dateKeyOf).value;
    FilterPair(a, b, Dated(dateKeyOf));
    assert Map([a, b], KeyOf(dateKeyOf)) == [ka, kb];
    DedupPair(ka, kb);
  }

  lemma DedupPair(x: string, y: string)
    requires x != y
    ensures Dedup([x, y]) == [x, y]
  {
    assert [x, y][..1] == [x];
    assert Dedup([x]) == [x];
  }

  /** Sorting two keys listed in descending order swaps them. */
  lemma SortPair(ka: string, kb: string)
    requires LexLt(kb, ka)
    ensures TotalPreorder(LexLe) && SortBy([ka, kb], LexLe) == [kb, ka]
  {
    LexLeIsTotalPreorder();
    assert !LexLe(ka, kb) by {
      if LexLe(ka, kb) {
        LexLeAntisymmetric(ka, kb);
      }
    }
    assert [ka, kb][..1] == [ka];
    assert SortBy([ka], LexLe) == [ka];
  }
}
