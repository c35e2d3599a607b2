/**
  The view counters of `server/src/services/analytics.ts`: album and photo
  view counts (insertion-ordered maps), the set of visitor IPs, and a dirty
  flag that says whether the counters changed since the last successful
  write. The module's globals become one immutable state value; the disk
  write is a parameter that either succeeds or fails.
 */
module Analytics {
  import opened Wrappers
  import opened Seqs
  import opened Frequency

  datatype Analytics = Analytics(albumViews: seq<Count>, photoViews: seq<Count>, uniqueIPs: seq<string>, dirty: bool)

  /** The state before anything is loaded or recorded. */
  const Initial: Analytics := Analytics([], [], [], false)

  /** Each map holds one entry per key and the IP set holds each address once. */
  predicate Valid(a: Analytics) {
    NoDup(Keys(a.albumViews)) && NoDup(Keys(a.photoViews)) && NoDup(a.uniqueIPs)
  }

  /** Bumping keeps a map free of repeated keys. */
  lemma BumpNoDup(m: seq<Count>, k: string)
    requires NoDup(Keys(m))
    ensures NoDup(Keys(Bump(m, k)))
  {
    BumpKeys(m, k);
  }

  /** `recordAlbumView`: that album's count goes up by one, nothing else changes, and the state is dirty. */
  function RecordAlbumView(a: Analytics, albumPath: string): (r: Analytics)
    ensures Get(r.albumViews, albumPath) == Get(a.albumViews, albumPath) + 1
    ensures forall k :: k != albumPath ==> Get(r.albumViews, k) == Get(a.albumViews, k)
    ensures r.photoViews == a.photoViews && r.uniqueIPs == a.uniqueIPs
    ensures r.dirty
    ensures Valid(a) ==> Valid(r)
  {
    if Valid(a) then BumpNoDup(a.albumViews, albumPath); a.(albumViews := Bump(a.albumViews, albumPath), dirty := true)
    else a.(albumViews := Bump(a.albumViews, albumPath), dirty := true)
  }

  /** `recordPhotoView`: that photo's count goes up by one, nothing else changes, and the state is dirty. */
  function RecordPhotoView(a: Analytics, photoPath: string): (r: Analytics)
    ensures Get(r.photoViews, photoPath) == Get(a.photoViews, photoPath) + 1
    ensures forall k :: k != photoPath ==> Get(r.photoViews, k) == Get(a.photoViews, k)
    ensures r.albumViews == a.albumViews && r.uniqueIPs == a.uniqueIPs
    ensures r.dirty
    ensures Valid(a) ==> Valid(r)
  {
    if Valid(a) then BumpNoDup(a.photoViews, photoPath); a.(photoViews := Bump(a.photoViews, photoPath), dirty := true)
    else a.(photoViews := Bump(a.photoViews, photoPath), dirty := true)
  }

  /**
    `recordIP`: the address joins the set; the state turns dirty only when the
    address is new, and a known address changes nothing.
   */
  function RecordIP(a: Analytics, ip: string): (r: Analytics)
    ensures forall x :: x in r.uniqueIPs <==> x in a.uniqueIPs || x == ip
    ensures ip in a.uniqueIPs ==> r == a
    ensures ip !in a.uniqueIPs ==> r.dirty && |r.uniqueIPs| == |a.uniqueIPs| + 1
    ensures r.dirty <==> a.dirty || ip !in a.uniqueIPs
    ensures r.albumViews == a.albumViews && r.photoViews == a.photoViews
    ensures Valid(a) ==> Valid(r)
  {
    if ip in a.uniqueIPs then a else a.(uniqueIPs := a.uniqueIPs + [ip], dirty := true)
  }

  /** Recording the same address twice is recording it once. */
  lemma RecordIPIdempotent(a: Analytics, ip: string)
    ensures RecordIP(RecordIP(a, ip), ip) == RecordIP(a, ip)
  {
  }

  /** The JSON document `flushToDisk` writes. */
  datatype Stored = Stored(albumViews: seq<Count>, photoViews: seq<Count>, uniqueIPs: seq<string>)

  /** The state after a flush, and the document the file holds afterwards if this flush wrote one. */
  datatype Flushed = Flushed(state: Analytics, written: Option<Stored>)

  /**
    `flushToDisk`: a clean state is left alone and nothing is written; a dirty
    one is written and turns clean when the write succeeds (`writeOk`), and
    stays dirty when it throws.
   */
  function Flush(a: Analytics, writeOk: bool): (r: Flushed)
    ensures r.state.albumViews == a.albumViews && r.state.photoViews == a.photoViews && r.state.uniqueIPs == a.uniqueIPs
    ensures !a.dirty ==> r.state == a && r.written.None?
    ensures a.dirty && writeOk ==> !r.state.dirty && r.written == Some(Stored(a.albumViews, a.photoViews, a.uniqueIPs))
    ensures a.dirty && !writeOk ==> r.state == a && r.written.None?
  {
    if !a.dirty then Flushed(a, None)
    else if writeOk then Flushed(a.(dirty := false), Some(Stored(a.albumViews, a.photoViews, a.uniqueIPs)))
    else Flushed(a, None)
  }

  /** After a successful flush the next one writes nothing until something is recorded. */
  lemma FlushSettles(a: Analytics, ok: bool)
    requires a.dirty
    ensures Flush(Flush(a, true).state, ok).written.None?
    ensures Flush(Flush(a, true).state, ok).state == Flush(a, true).state
  {
  }

  /** Sum of a map's counts (`values().reduce((s, v) => s + v, 0)`). */
  function Total(m: seq<Count>): nat {
    if |m| == 0 then 0 else m[0].count + Total(m[1..])
  }

  /** A bump adds exactly one view to the total. */
  lemma {:induction false} TotalBump(m: seq<Count>, k: string)
    ensures Total(Bump(m, k)) == Total(m) + 1
  {
    if |m| > 0 && m[0].name != k {
      TotalBump(m[1..], k);
      assert Bump(m, k)[1..] == Bump(m[1..], k);
    }
  }

  /** The ten most viewed entries, in descending order of count (`sort(...).slice(0, 10)`). */
  function Top(m: seq<Count>): (r: seq<Count>)
    ensures |r| == if |m| < 10 then |m| else 10
    ensures multiset(r) <= multiset(m)
    ensures forall i, j :: 0 <= i < j < |r| ==> r[i].count >= r[j].count
  {
    var s := ToSorted(m);
    var n := if |s| < 10 then |s| else 10;
    assert s == s[..n] + s[n..];
    assert multiset(s) == multiset(s[..n]) + multiset(s[n..]);
    s[..n]
  }

  /** Every entry left out of the top ten has a count no greater than any that made it. */
  lemma TopIsTop(m: seq<Count>)
    ensures forall c, i :: c in m && c !in Top(m) && 0 <= i < |Top(m)| ==> Top(m)[i].count >= c.count
  {
    var s := ToSorted(m);
    var t := Top(m);
    forall c, i | c in m && c !in t && 0 <= i < |t|
      ensures t[i].count >= c.count
    {
      assert c in multiset(s);
      var j :| 0 <= j < |s| && s[j] == c;
      assert j >= |t|;
    }
  }

  datatype Summary = Summary(totalViews: nat, uniqueVisitors: nat, uniqueIPList: seq<string>, topAlbums: seq<Count>, topPhotos: seq<Count>)

  /**
    `getAnalyticsSummary`: every recorded view counted once, one visitor per
    address, and the ten most viewed albums and photos drawn from the maps.
   */
  function GetSummary(a: Analytics): (r: Summary)
    ensures r.totalViews == Total(a.albumViews) + Total(a.photoViews)
    ensures r.uniqueVisitors == |r.uniqueIPList| && r.uniqueIPList == a.uniqueIPs
    ensures |r.topAlbums| <= 10 && multiset(r.topAlbums) <= multiset(a.albumViews)
    ensures |r.topPhotos| <= 10 && multiset(r.topPhotos) <= multiset(a.photoViews)
    ensures forall i, j :: 0 <= i < j < |r.topAlbums| ==> r.topAlbums[i].count >= r.topAlbums[j].count
    ensures forall i, j :: 0 <= i < j < |r.topPhotos| ==> r.topPhotos[i].count >= r.topPhotos[j].count
  {
    Summary(Total(a.albumViews) + Total(a.photoViews), |a.uniqueIPs|, a.uniqueIPs, Top(a.albumViews), Top(a.photoViews))
  }

  /** An address set without repeats has as many visitors as distinct addresses. */
  lemma {:induction false} DistinctCount(s: seq<string>)
    requires NoDup(s)
    ensures |set x | x in s| == |s|
  {
    if |s| > 0 {
      DistinctCount(s[1..]);
      assert (set x | x in s) == (set x | x in s[1..]) + {s[0]};
      assert s[0] !in s[1..];
    }
  }

  /** What the routes record: an album view, a photo view or a visitor's address. */
  datatype Event = AlbumView(path: string) | PhotoView(path: string) | Visit(ip: string)

  function Apply(a: Analytics, e: Event): Analytics {
    match e
    case AlbumView(p) => RecordAlbumView(a, p)
    case PhotoView(p) => RecordPhotoView(a, p)
    case Visit(ip) => RecordIP(a, ip)
  }

  /** The state after recording `es` in order. */
  function Replay(a: Analytics, es: seq<Event>): Analytics {
    if |es| == 0 then a else Apply(Replay(a, es[..|es| - 1]), es[|es| - 1])
  }

  predicate IsAlbumView(e: Event) { e.AlbumView? }
  predicate IsPhotoView(e: Event) { e.PhotoView? }
  predicate IsVisit(e: Event) { e.Visit? }
  predicate IsView(e: Event) { e.AlbumView? || e.PhotoView? }

  function PathOf(e: Event): string {
    if e.Visit? then e.ip else e.path
  }

  /** The albums viewed, photos viewed and addresses seen, in order. */
  function AlbumPaths(es: seq<Event>): seq<string> { Map(Filter(es, IsAlbumView), PathOf) }
  function PhotoPaths(es: seq<Event>): seq<string> { Map(Filter(es, IsPhotoView), PathOf) }
  function Visitors(es: seq<Event>): seq<string> { Map(Filter(es, IsVisit), PathOf) }

  /** Deduplicating one more element appends it only when it is new. */
  lemma DedupSnoc(s: seq<string>, x: string)
    ensures Dedup(s + [x]) == if x in s then Dedup(s) else Dedup(s) + [x]
  {
    assert (s + [x])[..|s|] == s;
    assert x in s <==> x in Dedup(s);
  }

  /** The views of one alternative that one more event adds. */
  lemma PathsSnoc(es: seq<Event>, e: Event, p: Event -> bool)
    ensures Map(Filter(es + [e], p), PathOf) == Map(Filter(es, p), PathOf) + (if p(e) then [PathOf(e)] else [])
  {
    MapFilterSnoc(es, e, p, PathOf);
  }

  /** What one event does to each part of the state. */
  lemma ApplyParts(a: Analytics, e: Event)
    ensures Apply(a, e).albumViews == if e.AlbumView? then Bump(a.albumViews, e.path) else a.albumViews
    ensures Apply(a, e).photoViews == if e.PhotoView? then Bump(a.photoViews, e.path) else a.photoViews
    ensures Apply(a, e).uniqueIPs == if e.Visit? && e.ip !in a.uniqueIPs then a.uniqueIPs + [e.ip] else a.uniqueIPs
    ensures Apply(a, e).dirty <==> a.dirty || !e.Visit? || e.ip !in a.uniqueIPs
    ensures Valid(a) ==> Valid(Apply(a, e))
  {
  }

  /** Recording from the initial state builds the album map as the tally of the album views. */
  lemma {:induction false} ReplayAlbums(es: seq<Event>)
    ensures Replay(Initial, es).albumViews == Tally(AlbumPaths(es))
  {
    if |es| > 0 {
      var init := es[..|es| - 1];
      var e := es[|es| - 1];
      assert es == init + [e];
      ReplayAlbums(init);
      var before := Replay(Initial, init);
      assert Replay(Initial, es) == Apply(before, e);
      ApplyParts(before, e);
      PathsSnoc(init, e, IsAlbumView);
      assert AlbumPaths(es) == AlbumPaths(init) + (if e.AlbumView? then [PathOf(e)] else []);
      if e.AlbumView? {
        TallySnoc(AlbumPaths(init), PathOf(e));
      } else {
        assert AlbumPaths(es) == AlbumPaths(init);
      }
    }
  }

  /** Recording from the initial state builds the photo map as the tally of the photo views. */
  lemma {:induction false} ReplayPhotos(es: seq<Event>)
    ensures Replay(Initial, es).photoViews == Tally(PhotoPaths(es))
  {
    if |es| > 0 {
      var init := es[..|es| - 1];
      var e := es[|es| - 1];
      assert es == init + [e];
      ReplayPhotos(init);
      var before := Replay(Initial, init);
      assert Replay(Initial, es) == Apply(before, e);
      ApplyParts(before, e);
      PathsSnoc(init, e, IsPhotoView);
      assert PhotoPaths(es) == PhotoPaths(init) + (if e.PhotoView? then [PathOf(e)] else []);
      if e.PhotoView? {
        TallySnoc(PhotoPaths(init), PathOf(e));
      } else {
        assert PhotoPaths(es) == PhotoPaths(init);
      }
    }
  }

  /** Recording from the initial state lists the distinct visitors in arrival order. */
  lemma {:induction false} ReplayVisitors(es: seq<Event>)
    ensures Replay(Initial, es).uniqueIPs == Dedup(Visitors(es))
  {
    if |es| > 0 {
      var init := es[..|es| - 1];
      var e := es[|es| - 1];
      assert es == init + [e];
      ReplayVisitors(init);
      var before := Replay(Initial, init);
      assert Replay(Initial, es) == Apply(before, e);
      ApplyParts(before, e);
      PathsSnoc(init, e, IsVisit);
      assert Visitors(es) == Visitors(init) + (if e.Visit? then [PathOf(e)] else []);
      if e.Visit? {
        DedupSnoc(Visitors(init), PathOf(e));
        assert PathOf(e) in Visitors(init) <==> PathOf(e) in before.uniqueIPs;
      } else {
        assert Visitors(es) == Visitors(init);
      }
    }
  }

  /** Recording from the initial state keeps the state valid, and it is dirty as soon as anything was recorded. */
  lemma {:induction false} ReplayDirty(es: seq<Event>)
    ensures Replay(Initial, es).dirty <==> |es| > 0
    ensures Valid(Replay(Initial, es))
  {
    if |es| > 0 {
      var init := es[..|es| - 1];
      var e := es[|es| - 1];
      assert es == init + [e];
      ReplayDirty(init);
      ApplyParts(Replay(Initial, init), e);
    }
  }

  /**
    The summary's totals from the initial state: the total is the number of
    views recorded, each album and photo holds its own number of views, and
    the visitor count is the number of distinct addresses seen.
   */
  lemma ReplaySummary(es: seq<Event>)
    ensures GetSummary(Replay(Initial, es)).totalViews == CountIf(es, IsView)
    ensures forall p :: Get(Replay(Initial, es).albumViews, p) == Occurrences(AlbumPaths(es), p)
    ensures forall p :: Get(Replay(Initial, es).photoViews, p) == Occurrences(PhotoPaths(es), p)
    ensures GetSummary(Replay(Initial, es)).uniqueVisitors == |set x | x in Visitors(es)|
  {
    ReplayAlbums(es);
    ReplayPhotos(es);
    TallyCounts(AlbumPaths(es));
    TallyCounts(PhotoPaths(es));
    ReplayTotalViews(es);
    ReplayVisitorCount(es);
  }

  lemma ReplayTotalViews(es: seq<Event>)
    ensures GetSummary(Replay(Initial, es)).totalViews == CountIf(es, IsView)
  {
    ReplayAlbums(es);
    ReplayPhotos(es);
    TallyTotal(AlbumPaths(es));
    TallyTotal(PhotoPaths(es));
    ViewsSplit(es);
  }

  lemma ReplayVisitorCount(es: seq<Event>)
    ensures GetSummary(Replay(Initial, es)).uniqueVisitors == |set x | x in Visitors(es)|
  {
    ReplayVisitors(es);
    var d := Dedup(Visitors(es));
    DistinctCount(d);
    assert (set x | x in d) == (set x | x in Visitors(es));
  }

  /** A tally's counts add up to the number of keys tallied. */
  lemma {:induction false} TallyTotal(keys: seq<string>)
    ensures Total(Tally(keys)) == |keys|
  {
    if |keys| > 0 {
      TallyTotal(keys[..|keys| - 1]);
      TotalBump(Tally(keys[..|keys| - 1]), keys[|keys| - 1]);
    }
  }

  /** Every view is an album view or a photo view, never both. */
  lemma {:induction false} ViewsSplit(es: seq<Event>)
    ensures |Filter(es, IsAlbumView)| + |Filter(es, IsPhotoView)| == CountIf(es, IsView)
  {
    if |es| > 0 {
      ViewsSplit(es[1..]);
    }
  }
}
