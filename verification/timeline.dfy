/**
  `GET /api/timeline` (`server/src/routes/timeline.ts`): every counted image,
  newest first with undated images last, served a page at a time from a list
  cached for five minutes.
 */
module TimelineRoute {
  import opened Wrappers
  import opened Seqs
  import opened Sorting
  import opened Types
  import opened Collection

  const CacheTtl: int := 5 * 60 * 1000

  /**
    `parseDate(img.exif?.dateTaken)` when it is truthy, else None: a missing or
    empty date gives 0, and `timeOf` stands for
    `new Date(s.replace(' at ', ' ')).getTime()`, None for NaN. Both 0 and
    NaN are falsy, so both count as undated.
   */
  function TimeKey(img: ImageInfo, timeOf: string -> Option<int>): (k: Option<int>)
    ensures k.Some? ==> k.value != 0 && DateTakenOf(img).Some? && timeOf(DateTakenOf(img).value) == k
    ensures (DateTakenOf(img).Some? && DateTakenOf(img).value != "" && timeOf(DateTakenOf(img).value).Some?
             && timeOf(DateTakenOf(img).value).value != 0) ==> k == timeOf(DateTakenOf(img).value)
  {
    var d := DateTakenOf(img);
    if d.None? || d.value == "" then None
    else
      var t := timeOf(d.value);
      if t.None? || t.value == 0 then None else t
  }

  /**
    The comparator as an order: `b - a` for two dated images, undated after
    dated, and two undated images equal.
   */
  predicate NewestFirst(a: Option<int>, b: Option<int>) {
    b.None? || (a.Some? && a.value >= b.value)
  }

  function ByDate(timeOf: string -> Option<int>): (ImageInfo, ImageInfo) -> bool {
    (x: ImageInfo, y: ImageInfo) => NewestFirst(TimeKey(x, timeOf), TimeKey(y, timeOf))
  }

  lemma ByDateIsTotalPreorder(timeOf: string -> Option<int>)
    ensures TotalPreorder(ByDate(timeOf))
  {
  }

  /** The images the timeline shows: the portfolio unless it is ignored, and every album not ignored. */
  function Collected(portfolio: seq<ImageInfo>, portfolioIgnored: bool, tree: AlbumTree,
                     imagesOf: string -> seq<ImageInfo>, ignored: string -> bool): seq<ImageInfo> {
    AllImages(Sources(if portfolioIgnored then None else Some(portfolio), tree, imagesOf, ignored))
  }

  /** The sorted timeline: the collected images, dated ones first and newest first, undated ones last. */
  function Timeline(images: seq<ImageInfo>, timeOf: string -> Option<int>): (r: seq<ImageInfo>)
    ensures multiset(r) == multiset(images)
    ensures forall i, j :: 0 <= i < j < |r| && TimeKey(r[j], timeOf).Some? ==> TimeKey(r[i], timeOf).Some?
    ensures forall i, j :: 0 <= i < j < |r| && TimeKey(r[i], timeOf).Some? && TimeKey(r[j], timeOf).Some? ==>
      TimeKey(r[i], timeOf).value >= TimeKey(r[j], timeOf).value
  {
    ByDateIsTotalPreorder(timeOf);
    var r := SortBy(images, ByDate(timeOf));
    assert forall i, j :: 0 <= i < j < |r| ==> ByDate(timeOf)(r[i], r[j]);
    r
  }

  /** Undated images keep the order they were collected in. */
  lemma UndatedKeepOrder(images: seq<ImageInfo>, timeOf: string -> Option<int>)
    requires forall i :: 0 <= i < |images| ==> TimeKey(images[i], timeOf).None?
    ensures Timeline(images, timeOf) == images
  {
    ByDateIsTotalPreorder(timeOf);
    SortUndated(images, timeOf);
  }

  lemma {:induction false} SortUndated(images: seq<ImageInfo>, timeOf: string -> Option<int>)
    requires TotalPreorder(ByDate(timeOf))
    requires forall i :: 0 <= i < |images| ==> TimeKey(images[i], timeOf).None?
    ensures SortBy(images, ByDate(timeOf)) == images
  {
    if |images| > 0 {
      var init := images[..|images| - 1];
      var x := images[|images| - 1];
      assert forall i :: 0 <= i < |init| ==> init[i] == images[i];
      SortUndated(init, timeOf);
      assert SortBy(images, ByDate(timeOf)) == Insert(x, init, ByDate(timeOf));
      InsertAfterEqual(x, init, timeOf);
      Seqs.SplitLast(images);
    }
  }

  lemma {:induction false} InsertAfterEqual(x: ImageInfo, s: seq<ImageInfo>, timeOf: string -> Option<int>)
    requires TimeKey(x, timeOf).None?
    requires forall i :: 0 <= i < |s| ==> TimeKey(s[i], timeOf).None?
    ensures Insert(x, s, ByDate(timeOf)) == s + [x]
  {
    if |s| > 0 {
      assert forall i :: 0 <= i < |s[1..]| ==> s[1..][i] == s[i + 1];
      InsertAfterEqual(x, s[1..], timeOf);
      assert ByDate(timeOf)(s[0], x);
      assert Insert(x, s, ByDate(timeOf)) == [s[0]] + (s[1..] + [x]);
      Seqs.SplitHead(s);
      Text.Reassociate(Insert(x, s, ByDate(timeOf)), [s[0]], s[1..], [x]);
    }
  }

  // ----------------------------------------------------------------- pages

  /** `parseInt(v) || d`: a missing, unparsable (None) or zero parameter falls back to `d`. */
  function OrDefault(parsed: Option<int>, d: int): (r: int)
    ensures r != 0 || d == 0
  {
    if parsed.None? || parsed.value == 0 then d else parsed.value
  }

  /** How `Array.prototype.slice` reads an index: negative counts from the end, and both are clamped. */
  function SliceIndex(i: int, len: nat): (r: nat)
    ensures r <= len
    ensures 0 <= i <= len ==> r == i
  {
    if i < 0 then (if len + i < 0 then 0 else len + i) else if i > len then len else i
  }

  /** `s.slice(start, end)`. */
  function Slice<T>(s: seq<T>, start: int, end: int): seq<T> {
    var a := SliceIndex(start, |s|);
    var b := SliceIndex(end, |s|);
    if a < b then s[a..b] else []
  }

  datatype Page = Page(images: seq<ImageInfo>, total: nat, hasMore: bool)

  function Offset(page: int, limit: int): int {
    (page - 1) * limit
  }

  /** The response for the `page` and `limit` query parameters, as `parseInt` read them. */
  function GetPage(all: seq<ImageInfo>, page: Option<int>, limit: Option<int>): (r: Page)
    ensures r.total == |all|
    ensures var p := OrDefault(page, 1);
      var l := OrDefault(limit, 50);
      && (r.hasMore <==> Offset(p, l) + l < |all|)
      && (p >= 1 && l >= 1 ==>
            r.images == all[Min(Offset(p, l), |all|)..Min(Offset(p, l) + l, |all|)])
  {
    var p := OrDefault(page, 1);
    var l := OrDefault(limit, 50);
    var offset := Offset(p, l);
    OffsetFromFirst(p, l);
    SliceForward(all, offset, offset + l);
    Page(Slice(all, offset, offset + l), |all|, offset + l < |all|)
  }

  /** A slice between two non-negative indices in order is the clamped subsequence. */
  lemma SliceForward<T>(s: seq<T>, a: int, b: int)
    ensures 0 <= a <= b ==> Slice(s, a, b) == s[Min(a, |s|)..Min(b, |s|)]
  {
  }

  /** Pages from the first on start at or after the first image. */
  lemma OffsetFromFirst(p: int, l: int)
    ensures p >= 1 && l >= 1 ==> Offset(p, l) >= 0
  {
    if p >= 1 && l >= 1 {
      assert (p - 1) * l >= 0;
    }
  }

  function Min(a: int, b: int): int {
    if a <= b then a else b
  }

  /** With no parameters the first fifty images are served. */
  lemma DefaultFirstPage(all: seq<ImageInfo>)
    ensures GetPage(all, None, None).images == all[..Min(50, |all|)]
    ensures GetPage(all, None, None).hasMore <==> |all| > 50
  {
  }

  /** There are more images exactly when the next page is not empty. */
  lemma HasMoreIffNextPage(all: seq<ImageInfo>, p: int, l: int)
    requires p >= 1 && l >= 1
    ensures GetPage(all, Some(p), Some(l)).hasMore <==> |GetPage(all, Some(p + 1), Some(l)).images| > 0
  {
    OffsetNext(p, l);
    OffsetFromFirst(p, l);
    var here := GetPage(all, Some(p), Some(l));
    var next := GetPage(all, Some(p + 1), Some(l));
    assert here.hasMore <==> Offset(p, l) + l < |all|;
    assert next.images == all[Min(Offset(p, l) + l, |all|)..Min(Offset(p, l) + l + l, |all|)];
  }

  /** The next page starts one limit further on. */
  lemma OffsetNext(p: int, l: int)
    ensures Offset(p + 1, l) == Offset(p, l) + l
  {
    calc {
      Offset(p + 1, l);
      p * l;
      (p - 1) * l + l;
    }
  }

  /** Pages 1 to `n` in a row, for one limit. */
  function FirstPages(all: seq<ImageInfo>, n: nat, l: int): seq<ImageInfo>
    requires l >= 1
  {
    if n == 0 then [] else FirstPages(all, n - 1, l) + GetPage(all, Some(n), Some(l)).images
  }

  /** Reading pages 1, 2, … in turn reads the timeline in order, without gaps or repeats. */
  lemma {:induction false} PagesTile(all: seq<ImageInfo>, n: nat, l: int)
    requires l >= 1
    ensures FirstPages(all, n, l) == all[..Min(n * l, |all|)]
  {
    if n > 0 {
      PagesTile(all, n - 1, l);
      var off := Offset(n, l);
      PageEnds(n, l);
      var a := Min(off, |all|);
      var b := Min(off + l, |all|);
      assert GetPage(all, Some(n), Some(l)).images == all[a..b];
      SliceJoin(all, a, b);
    }
  }

  /** Page `n` starts where page `n - 1` ends and ends at `n * l`. */
  lemma PageEnds(n: nat, l: int)
    requires n > 0 && l >= 1
    ensures Offset(n, l) == (n - 1) * l && Offset(n, l) >= 0 && Offset(n, l) + l == n * l
  {
    OffsetFromFirst(n, l);
    OffsetNext(n - 1, l);
    assert Offset(n, l) == Offset(n - 1, l) + l;
    assert Offset(n - 1, l) == (n - 1 - 1) * l;
    assert n * l == (n - 1) * l + l;
  }

  lemma SliceJoin<T>(s: seq<T>, a: nat, b: nat)
    requires a <= b <= |s|
    ensures s[..a] + s[a..b] == s[..b]
  {
  }

  // ----------------------------------------------------------------- cache

  /** The module-level `cachedTimeline` and `lastCacheTime`. */
  datatype Cache = Cache(timeline: Option<seq<ImageInfo>>, lastCacheTime: int)

  const InitialCache: Cache := Cache(None, 0)

  /** The cached list is reused while it exists and is younger than the time to live. */
  predicate Fresh(c: Cache, now: int) {
    c.timeline.Some? && now - c.lastCacheTime < CacheTtl
  }

  /**
    `getFullTimeline` at clock reading `now`: the cached list while fresh,
    else `computed`, stored with the time `stamp` read after computing it.
   */
  function GetFullTimeline(c: Cache, now: int, stamp: int, computed: seq<ImageInfo>)
    : (r: (seq<ImageInfo>, Cache))
    ensures Fresh(c, now) ==> r.0 == c.timeline.value && r.1 == c
    ensures !Fresh(c, now) ==> r.0 == computed && r.1 == Cache(Some(computed), stamp)
    ensures r.1.timeline == Some(r.0)
  {
    if Fresh(c, now) then (c.timeline.value, c) else (computed, Cache(Some(computed), stamp))
  }

  /** A list computed at `stamp` is served, whatever a new scan would give, to every request before it expires. */
  lemma RecomputedThenReused(c: Cache, now: int, stamp: int, computed: seq<ImageInfo>,
                             later: int, laterStamp: int, recomputed: seq<ImageInfo>)
    requires !Fresh(c, now)
    requires later - stamp < CacheTtl
    ensures var (first, c1) := GetFullTimeline(c, now, stamp, computed);
      GetFullTimeline(c1, later, laterStamp, recomputed) == (first, c1)
  {
  }

  /** Once five minutes have passed since the stamp, the next request scans again. */
  lemma ExpiredRecomputes(c: Cache, now: int, recomputed: seq<ImageInfo>, stamp: int)
    requires c.timeline.Some? && now - c.lastCacheTime >= CacheTtl
    ensures GetFullTimeline(c, now, stamp, recomputed) == (recomputed, Cache(Some(recomputed), stamp))
  {
  }

  /** The first request always scans. */
  lemma FirstRequestScans(now: int, stamp: int, computed: seq<ImageInfo>)
    ensures GetFullTimeline(InitialCache, now, stamp, computed).0 == computed
  {
  }

  /** The route: the page of the (possibly cached) timeline, and the cache afterwards. */
  function Respond(c: Cache, now: int, stamp: int, computed: seq<ImageInfo>, page: Option<int>, limit: Option<int>)
    : (r: (Page, Cache))
    ensures r.0 == GetPage(GetFullTimeline(c, now, stamp, computed).0, page, limit)
    ensures r.1 == GetFullTimeline(c, now, stamp, computed).1
  {
    var (all, c1) := GetFullTimeline(c, now, stamp, computed);
    (GetPage(all, page, limit), c1)
  }
}
