/**
  The timeline page's month headings (`client/src/pages/TimelinePage.tsx`):
  the loaded photos, in the order the server sent them, cut into runs of
  consecutive photos that share a month title, each run remembering where
  it starts in the full list so that a click opens the lightbox on the right
  photo. Date parsing and formatting are parameters: `timeOf` stands for
  `new Date(s.replace(' at ', ' ')).getTime()`, None for NaN, and
  `monthLabel` for the `en-US` long month-and-year label of a valid time.
 */
module TimelinePage {
  import opened Wrappers
  import opened Seqs
  import opened Types

  const UndatedTitle: string := "Undated"

  /** What `toLocaleDateString` gives for an invalid date. */
  const InvalidDateTitle: string := "Invalid Date"

  /**
    `getMonthYear(dateStr)`: a missing or empty date parses as `new Date(0)`,
    and time 0 is titled "Undated" whichever way it was reached.
   */
  function MonthYear(dateTaken: Option<string>, timeOf: string -> Option<int>, monthLabel: int -> string): (r: string)
    ensures dateTaken.None? || dateTaken == Some("") ==> r == UndatedTitle
    ensures dateTaken.Some? && dateTaken.value != "" && timeOf(dateTaken.value) == Some(0) ==> r == UndatedTitle
    ensures dateTaken.Some? && dateTaken.value != "" && timeOf(dateTaken.value).None? ==> r == InvalidDateTitle
    ensures dateTaken.Some? && dateTaken.value != "" && timeOf(dateTaken.value).Some? && timeOf(dateTaken.value).value != 0
      ==> r == monthLabel(timeOf(dateTaken.value).value)
  {
    var t := if dateTaken.None? || dateTaken.value == "" then Some(0) else timeOf(dateTaken.value);
    if t.None? then InvalidDateTitle
    else if t.value == 0 then UndatedTitle
    else monthLabel(t.value)
  }

  /** A heading, its photos, and the index of its first photo in the full list. */
  datatype MonthGroup = MonthGroup(title: string, images: seq<ImageInfo>, startIndex: nat)

  function GroupImages(g: MonthGroup): seq<ImageInfo> {
    g.images
  }

  /** The groups' photos, group after group. */
  function Concat(gs: seq<MonthGroup>): seq<ImageInfo> {
    Flatten(Map(gs, GroupImages))
  }

  /**
    `groupedImages`: walks the photos in order, starting a new group whenever
    the title differs from the current group's, else adding to it.
   */
  function GroupedImages(images: seq<ImageInfo>, titleOf: ImageInfo -> string): seq<MonthGroup> {
    if |images| == 0 then []
    else
      var groups := GroupedImages(images[..|images| - 1], titleOf);
      var img := images[|images| - 1];
      if |groups| > 0 && groups[|groups| - 1].title == titleOf(img) then
        var current := groups[|groups| - 1];
        groups[..|groups| - 1] + [current.(images := current.images + [img])]
      else
        groups + [MonthGroup(titleOf(img), [img], |images| - 1)]
  }

  /**
    `gs` cuts `s` into runs: the runs concatenate to `s`, none is empty, each
    starts where the runs before it end, every photo carries its run's title,
    and neighbouring runs have different titles.
   */
  predicate Runs(gs: seq<MonthGroup>, s: seq<ImageInfo>, titleOf: ImageInfo -> string) {
    && Concat(gs) == s
    && (forall k :: 0 <= k < |gs| ==> |gs[k].images| > 0 && gs[k].startIndex == |Concat(gs[..k])|)
    && (forall k, j :: 0 <= k < |gs| && 0 <= j < |gs[k].images| ==> titleOf(gs[k].images[j]) == gs[k].title)
    && (forall k :: 0 <= k < |gs| - 1 ==> gs[k].title != gs[k + 1].title)
  }

  lemma ConcatSnoc(gs: seq<MonthGroup>, g: MonthGroup)
    ensures Concat(gs + [g]) == Concat(gs) + g.images
  {
    MapConcat(gs, [g], GroupImages);
    assert Map([g], GroupImages) == [g.images];
    FlattenSnoc(Map(gs, GroupImages), g.images);
  }

  /** Starting a new run after the last one keeps the runs. */
  lemma NewRun(gs: seq<MonthGroup>, s: seq<ImageInfo>, titleOf: ImageInfo -> string, img: ImageInfo)
    requires Runs(gs, s, titleOf)
    requires |gs| == 0 || gs[|gs| - 1].title != titleOf(img)
    ensures Runs(gs + [MonthGroup(titleOf(img), [img], |s|)], s + [img], titleOf)
  {
    var g := MonthGroup(titleOf(img), [img], |s|);
    var gs' := gs + [g];
    ConcatSnoc(gs, g);
    forall k | 0 <= k < |gs'|
      ensures |gs'[k].images| > 0 && gs'[k].startIndex == |Concat(gs'[..k])|
    {
      PrefixOfConcat(gs, [g], k);
      if k == |gs| {
        assert gs[..k] == gs;
      }
    }
    forall k, j | 0 <= k < |gs'| && 0 <= j < |gs'[k].images|
      ensures titleOf(gs'[k].images[j]) == gs'[k].title
    {
      if k < |gs| {
        assert gs'[k] == gs[k];
      }
    }
    forall k | 0 <= k < |gs'| - 1
      ensures gs'[k].title != gs'[k + 1].title
    {
      assert gs'[k] == gs[k];
    }
  }

  /** Adding a photo with the last run's title to that run keeps the runs. */
  lemma ExtendRun(gs: seq<MonthGroup>, s: seq<ImageInfo>, titleOf: ImageInfo -> string, img: ImageInfo)
    requires Runs(gs, s, titleOf)
    requires |gs| > 0 && gs[|gs| - 1].title == titleOf(img)
    ensures var last := gs[|gs| - 1];
      Runs(gs[..|gs| - 1] + [last.(images := last.images + [img])], s + [img], titleOf)
  {
    var n := |gs| - 1;
    var last := gs[n];
    var ext := last.(images := last.images + [img]);
    var gs' := gs[..n] + [ext];
    assert gs == gs[..n] + [last];
    ConcatSnoc(gs[..n], last);
    ConcatSnoc(gs[..n], ext);
    forall k | 0 <= k < |gs'|
      ensures gs'[k].startIndex == |Concat(gs'[..k])|
    {
      assert gs'[..k] == gs[..k];
    }
    forall k, j | 0 <= k < |gs'| && 0 <= j < |gs'[k].images|
      ensures titleOf(gs'[k].images[j]) == gs'[k].title
    {
      if k == n && j == |last.images| {
      } else if k == n {
        assert gs'[k].images[j] == last.images[j];
      }
    }
  }

  /** The grouping cuts the photos into runs of one title each. */
  lemma {:induction false} GroupedImagesRuns(images: seq<ImageInfo>, titleOf: ImageInfo -> string)
    ensures Runs(GroupedImages(images, titleOf), images, titleOf)
  {
    if |images| > 0 {
      var init := images[..|images| - 1];
      var img := images[|images| - 1];
      assert images == init + [img];
      GroupedImagesRuns(init, titleOf);
      var gs := GroupedImages(init, titleOf);
      if |gs| > 0 && gs[|gs| - 1].title == titleOf(img) {
        ExtendRun(gs, init, titleOf, img);
      } else {
        NewRun(gs, init, titleOf, img);
      }
    }
  }

  /** Cutting the photos into runs loses and reorders nothing: the runs put back together are the photos. */
  lemma GroupsRebuildImages(images: seq<ImageInfo>, titleOf: ImageInfo -> string)
    ensures Concat(GroupedImages(images, titleOf)) == images
    ensures |GroupedImages(images, titleOf)| <= |images|
  {
    GroupedImagesRuns(images, titleOf);
    RunsFewer(GroupedImages(images, titleOf), images);
  }

  /** Runs are never empty, so there are no more runs than photos. */
  lemma {:induction false} RunsFewer(gs: seq<MonthGroup>, s: seq<ImageInfo>)
    requires forall k :: 0 <= k < |gs| ==> |gs[k].images| > 0
    requires Concat(gs) == s
    ensures |gs| <= |s|
  {
    if |gs| > 0 {
      var n := |gs| - 1;
      assert gs == gs[..n] + [gs[n]];
      ConcatSnoc(gs[..n], gs[n]);
      RunsFewer(gs[..n], Concat(gs[..n]));
    }
  }

  /** The photos of the runs before run `k`, then run `k`'s, form a prefix of the whole list. */
  lemma {:induction false} ConcatPrefix(gs: seq<MonthGroup>, k: nat)
    requires k < |gs|
    ensures |Concat(gs[..k]) + gs[k].images| <= |Concat(gs)|
    ensures Concat(gs)[..|Concat(gs[..k]) + gs[k].images|] == Concat(gs[..k]) + gs[k].images
  {
    assert gs[..k + 1] == gs[..k] + [gs[k]];
    ConcatSnoc(gs[..k], gs[k]);
    assert gs == gs[..k + 1] + gs[k + 1..];
    MapConcat(gs[..k + 1], gs[k + 1..], GroupImages);
    FlattenConcat(Map(gs[..k + 1], GroupImages), Map(gs[k + 1..], GroupImages));
  }

  /** `onPhotoClick`: a click on photo `idx` of a run opens the lightbox at `startIndex + idx`. */
  function ClickIndex(g: MonthGroup, idx: nat): nat {
    g.startIndex + idx
  }

  /** The index a click opens is the clicked photo's position in the full list. */
  lemma ClickOpensClicked(images: seq<ImageInfo>, titleOf: ImageInfo -> string, k: nat, idx: nat)
    requires k < |GroupedImages(images, titleOf)| && idx < |GroupedImages(images, titleOf)[k].images|
    ensures var g := GroupedImages(images, titleOf)[k];
      ClickIndex(g, idx) < |images| && images[ClickIndex(g, idx)] == g.images[idx]
  {
    GroupedImagesRuns(images, titleOf);
    RunIndex(GroupedImages(images, titleOf), images, titleOf, k, idx);
  }

  /** Photo `idx` of run `k` sits at the run's start plus `idx` in the full list. */
  lemma RunIndex(gs: seq<MonthGroup>, s: seq<ImageInfo>, titleOf: ImageInfo -> string, k: nat, idx: nat)
    requires Runs(gs, s, titleOf) && k < |gs| && idx < |gs[k].images|
    ensures gs[k].startIndex + idx < |s| && s[gs[k].startIndex + idx] == gs[k].images[idx]
  {
    ConcatPrefix(gs, k);
    var before := Concat(gs[..k]);
    var pre := before + gs[k].images;
    assert gs[k].startIndex == |before|;
    assert s[..|pre|] == pre;
    assert pre[|before| + idx] == gs[k].images[idx];
    assert s[|before| + idx] == s[..|pre|][|before| + idx];
  }
}
