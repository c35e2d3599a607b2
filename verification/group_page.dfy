/**
  The photo order on the album and group page (`client/src/pages/GroupPage.tsx`):
  `sortImages` sorts a copy of the album's photos by file name either way, or
  by date taken either way with undated photos last. `timeOf` stands for
  `new Date(s.replace(' at ', ' ')).getTime()`, None for NaN.
 */
module GroupPage {
  import opened Wrappers
  import opened Seqs
  import opened Sorting
  import opened Text
  import opened Types

  datatype SortOption = FilenameAsc | FilenameDesc | DateDesc | DateAsc

  /**
    `a.exif?.dateTaken ? parseDateTaken(a.exif.dateTaken) : null`: a missing,
    empty or unparsable date is none. Time 0 is a date here.
   */
  function TakenAt(img: ImageInfo, timeOf: string -> Option<int>): (r: Option<int>)
    ensures DateTakenOf(img).None? || DateTakenOf(img) == Some("") ==> r.None?
    ensures DateTakenOf(img).Some? && DateTakenOf(img).value != "" ==> r == timeOf(DateTakenOf(img).value)
  {
    var d := DateTakenOf(img);
    if d.None? || d.value == "" then None else timeOf(d.value)
  }

  /**
    The date comparators as an order: two undated photos compare equal, an
    undated one goes after a dated one, and two dated ones compare by time,
    latest first when `newestFirst`.
   */
  predicate DateLe(da: Option<int>, db: Option<int>, newestFirst: bool) {
    db.None? || (da.Some? && (if newestFirst then da.value >= db.value else da.value <= db.value))
  }

  /** The comparator of each option, `le(a, b)` meaning `cmp(a, b) <= 0`. */
  function Order(sort: SortOption, timeOf: string -> Option<int>): (ImageInfo, ImageInfo) -> bool {
    match sort
    case FilenameAsc => (a: ImageInfo, b: ImageInfo) => LexLe(a.filename, b.filename)
    case FilenameDesc => (a: ImageInfo, b: ImageInfo) => LexLe(b.filename, a.filename)
    case DateDesc => (a: ImageInfo, b: ImageInfo) => DateLe(TakenAt(a, timeOf), TakenAt(b, timeOf), true)
    case DateAsc => (a: ImageInfo, b: ImageInfo) => DateLe(TakenAt(a, timeOf), TakenAt(b, timeOf), false)
  }

  lemma OrderIsTotalPreorder(sort: SortOption, timeOf: string -> Option<int>)
    ensures TotalPreorder(Order(sort, timeOf))
  {
    LexLeIsTotalPreorder();
  }

  /**
    `sortImages`: the same photos, in file-name order or its reverse, or with
    every dated photo before every undated one and the dated ones by time.
   */
  function SortImages(images: seq<ImageInfo>, sort: SortOption, timeOf: string -> Option<int>): (r: seq<ImageInfo>)
    ensures multiset(r) == multiset(images)
    ensures sort == FilenameAsc ==> forall i, j :: 0 <= i < j < |r| ==> LexLe(r[i].filename, r[j].filename)
    ensures sort == FilenameDesc ==> forall i, j :: 0 <= i < j < |r| ==> LexLe(r[j].filename, r[i].filename)
    ensures sort.DateDesc? || sort.DateAsc? ==>
      forall i, j :: 0 <= i < j < |r| && TakenAt(r[j], timeOf).Some? ==> TakenAt(r[i], timeOf).Some?
    ensures sort == DateDesc ==> forall i, j :: 0 <= i < j < |r| && TakenAt(r[j], timeOf).Some? ==>
      TakenAt(r[i], timeOf).value >= TakenAt(r[j], timeOf).value
    ensures sort == DateAsc ==> forall i, j :: 0 <= i < j < |r| && TakenAt(r[j], timeOf).Some? ==>
      TakenAt(r[i], timeOf).value <= TakenAt(r[j], timeOf).value
  {
    OrderIsTotalPreorder(sort, timeOf);
    var r := SortBy(images, Order(sort, timeOf));
    assert forall i, j :: 0 <= i < j < |r| ==> Order(sort, timeOf)(r[i], r[j]);
    r
  }

  function IsUndated(timeOf: string -> Option<int>): ImageInfo -> bool {
    (img: ImageInfo) => TakenAt(img, timeOf).None?
  }

  /** In both date orders the undated photos come last in their album order. */
  lemma UndatedKeepOrder(images: seq<ImageInfo>, sort: SortOption, timeOf: string -> Option<int>)
    requires sort.DateDesc? || sort.DateAsc?
    ensures Filter(SortImages(images, sort, timeOf), IsUndated(timeOf)) == Filter(images, IsUndated(timeOf))
  {
    OrderIsTotalPreorder(sort, timeOf);
    SortStable(images, Order(sort, timeOf), IsUndated(timeOf));
  }

  /** Photos with the same file name keep their album order under the file-name sorts. */
  lemma SameNameKeepOrder(images: seq<ImageInfo>, sort: SortOption, timeOf: string -> Option<int>, name: string)
    requires sort.FilenameAsc? || sort.FilenameDesc?
    ensures Filter(SortImages(images, sort, timeOf), (img: ImageInfo) => img.filename == name)
         == Filter(images, (img: ImageInfo) => img.filename == name)
  {
    OrderIsTotalPreorder(sort, timeOf);
    LexLeTotal(name, name);
    SortStable(images, Order(sort, timeOf), (img: ImageInfo) => img.filename == name);
  }

  /** An unparsable date sorts exactly like a missing one: after every dated photo. */
  lemma UnparsableIsUndated(img: ImageInfo, other: ImageInfo, sort: SortOption, timeOf: string -> Option<int>)
    requires sort.DateDesc? || sort.DateAsc?
    requires DateTakenOf(img).Some? && DateTakenOf(img).value != "" && timeOf(DateTakenOf(img).value).None?
    requires TakenAt(other, timeOf).Some?
    ensures TakenAt(img, timeOf).None?
    ensures Order(sort, timeOf)(other, img) && !Order(sort, timeOf)(img, other)
  {
  }
}
