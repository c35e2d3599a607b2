/**
  The gallery tree derived from the photos directory (`server/src/services/scanner.ts`):
  which names are hidden or images, how album directories are ordered, which
  directory is an album and which a group, and what an album's summary shows.
 */
module Scanner {
  import opened Wrappers
  import opened Text
  import opened Seqs
  import opened Sorting
  import opened FileSystem
  import Paths
  import Config
  import opened Types

  /**
    `isHiddenDir` as written: dot-names and the Synology metadata folder, but
    matched in exactly two spellings, neither of which is the `@eaDir` that
    Synology creates.
   */
  predicate IsHiddenNameAsWritten(name: string) {
    StartsWith(name, ".") || name == "@eadir" || name == "@EaDir"
  }

  /** Hidden names as evidently intended: dot-names and `@eadir` in any letter case. */
  predicate IsHiddenName(name: string) {
    StartsWith(name, ".") || Lower(name) == "@eadir"
  }

  /** `isImageFile`: the lower-cased extension is one of the configured image extensions. */
  predicate IsImageFile(name: string) {
    Lower(Paths.ExtName(name)) in Config.ImageExtensions
  }

  /** The names `listImageFiles` keeps. */
  predicate IsListedImage(name: string) {
    IsImageFile(name) && !IsHiddenName(name)
  }

  /** The written check misses Synology's own spelling; the corrected one catches it. */
  lemma SynologySpellingMissed()
    ensures !IsHiddenNameAsWritten("@eaDir")
    ensures IsHiddenName("@eaDir")
  {
    assert "@eaDir"[0] == '@';
    assert "@eaDir"[3] != "@eadir"[3];
    assert "@eaDir"[1] != "@EaDir"[1];
    assert Lower("@eaDir") == "@eadir";
  }

  /** The correction hides everything the written check hides, and more only for case variants of `@eadir`. */
  lemma HiddenNameExtends(name: string)
    ensures IsHiddenNameAsWritten(name) ==> IsHiddenName(name)
    ensures IsHiddenName(name) && !IsHiddenNameAsWritten(name) ==> Lower(name) == "@eadir"
  {
    if name == "@EaDir" {
      assert Lower(name) == "@eadir";
    }
    if name == "@eadir" {
      assert Lower(name) == "@eadir";
    }
  }

  /** Extensions match without regard to case. */
  lemma UpperCaseExtensionIsImage()
    ensures IsImageFile("photo.JPG")
  {
    assert "photo.JPG"[5] == '.';
    assert Paths.ExtName("photo.JPG") == ".JPG";
    assert Lower(".JPG") == ".jpg";
  }

  /** A dot-file has no extension, so `.jpg` alone is not an image. */
  lemma DotFileIsNotImage()
    ensures !IsImageFile(".jpg")
  {
    assert Paths.ExtName(".jpg") == "";
  }

  /**
    `listImageFiles(dir)`: the non-hidden image names of a directory in code-point
    order, and nothing for a directory that is not there.
   */
  function ListImageFiles(dir: Option<Node>): (r: seq<string>)
    ensures Listing(dir).None? ==> r == []
    ensures Listing(dir).Some? ==> multiset(r) == multiset(Filter(Names(Listing(dir).value), IsListedImage))
    ensures forall f :: f in r <==> Listing(dir).Some? && f in Names(Listing(dir).value) && IsListedImage(f)
    ensures SortedBy(r, LexLe)
  {
    match Listing(dir)
    case None => []
    case Some(entries) =>
      LexLeIsTotalPreorder();
      var kept := Filter(Names(entries), IsListedImage);
      var r := SortBy(kept, LexLe);
      forall f
        ensures f in r <==> f in Names(entries) && IsListedImage(f)
      {
        SortByMembers(kept, LexLe, f);
        FilterMembers(Names(entries), IsListedImage, f);
      }
      r
  }

  /** `hasDirectImages`: some entry, hidden or not, file or directory, has an image extension. */
  predicate HasDirectImages(dir: Option<Node>) {
    match Listing(dir)
    case None => false
    case Some(entries) => exists i :: 0 <= i < |entries| && IsImageFile(entries[i].name)
  }

  /** A directory entry the album scan looks at: a directory with a non-hidden name. */
  predicate IsVisibleDir(e: Entry) {
    e.node.Dir? && !IsHiddenName(e.name)
  }

  /** `hasSubdirectories`: some entry is a directory with a non-hidden name. */
  predicate HasSubdirectories(dir: Option<Node>) {
    match Listing(dir)
    case None => false
    case Some(entries) => exists i :: 0 <= i < |entries| && IsVisibleDir(entries[i])
  }

  /**
    A directory whose only image is a hidden one (a `._IMG.jpg` resource fork, say)
    counts as having direct images, yet lists none.
   */
  lemma HiddenImageOnlyDirectory()
    ensures var d := Some(Dir(0, [Entry("._a.jpg", File(0, ""))]));
      HasDirectImages(d) && ListImageFiles(d) == []
  {
    HiddenForkIsImage();
    HiddenImageOnly("._a.jpg");
  }

  lemma HiddenForkIsImage()
    ensures IsImageFile("._a.jpg") && IsHiddenName("._a.jpg")
  {
    Paths.ExtNameAfter("._a", "jpg");
    assert "._a" + "." + "jpg" == "._a.jpg";
    assert Lower(".jpg") == Config.ImageExtensions[0];
  }

  /** A directory holding one hidden image file has direct images but lists none. */
  lemma HiddenImageOnly(name: string)
    requires IsImageFile(name) && IsHiddenName(name)
    ensures var d := Some(Dir(0, [Entry(name, File(0, ""))]));
      HasDirectImages(d) && ListImageFiles(d) == []
  {
    var d := Some(Dir(0, [Entry(name, File(0, ""))]));
    assert IsImageFile(Listing(d).value[0].name);
  }

  // ---------------------------------------------------------------------------
  // Album order

  /** `/^\d{8}/`: the name starts with eight ASCII digits. */
  predicate DatePrefixed(s: string) {
    |s| >= 8 && forall i :: 0 <= i < 8 ==> IsDigit(s[i])
  }

  /**
    `albumSort(a, b) <= 0` as written: two date-prefixed names compare in reverse,
    every other pair in forward order.
   */
  predicate AlbumSortLe(a: string, b: string) {
    if DatePrefixed(a) && DatePrefixed(b) then LexLe(b, a) else LexLe(a, b)
  }

  /**
    The comparator as written is not a preorder: a name with a shorter digit run
    sits between two dated names and closes a cycle, so the order `sort` produces
    depends on the order `readdirSync` returned.
   */
  lemma AlbumSortNotTransitive()
    ensures AlbumSortLe("20240101", "202402")
    ensures AlbumSortLe("202402", "20240301")
    ensures AlbumSortLe("20240301", "20240101")
    ensures !AlbumSortLe("20240101", "20240301")
    ensures !TotalPreorder(AlbumSortLe)
  {
    assert DatePrefixed("20240101") && DatePrefixed("20240301") && !DatePrefixed("202402");
    LexFirstDifference("20240101", "202402", 5);
    LexFirstDifference("202402", "20240301", 5);
    LexFirstDifference("20240101", "20240301", 5);
    AlbumSortCycle("20240101", "202402", "20240301");
  }

  /** Two dated names in forward order with an undated name between them close a cycle. */
  lemma AlbumSortCycle(a: string, b: string, c: string)
    requires DatePrefixed(a) && !DatePrefixed(b) && DatePrefixed(c)
    requires LexLe(a, b) && LexLe(b, c) && !LexLe(c, a)
    ensures AlbumSortLe(a, b) && AlbumSortLe(b, c) && AlbumSortLe(c, a) && !AlbumSortLe(a, c)
    ensures !TotalPreorder(AlbumSortLe)
  {
    LexLeTotal(a, c);
    assert AlbumSortLe(a, b) && AlbumSortLe(b, c) && !AlbumSortLe(a, c);
    NotTransitive(AlbumSortLe, a, b, c);
  }

  /**
    The intended album order: date-prefixed names first, newest first, then the
    other names in ascending order.
   */
  predicate AlbumOrderLe(a: string, b: string) {
    if DatePrefixed(a) && DatePrefixed(b) then LexLe(b, a)
    else if DatePrefixed(a) then true
    else if DatePrefixed(b) then false
    else LexLe(a, b)
  }

  lemma AlbumOrderIsTotalPreorder()
    ensures TotalPreorder(AlbumOrderLe)
  {
    forall a, b
      ensures AlbumOrderLe(a, b) || AlbumOrderLe(b, a)
    {
      LexLeTotal(a, b);
    }
    forall a, b, c | AlbumOrderLe(a, b) && AlbumOrderLe(b, c)
      ensures AlbumOrderLe(a, c)
    {
      if DatePrefixed(a) && DatePrefixed(b) && DatePrefixed(c) {
        LexLeTransitive(c, b, a);
      } else if !DatePrefixed(a) && !DatePrefixed(b) && !DatePrefixed(c) {
        LexLeTransitive(a, b, c);
      }
    }
  }

  /** A name that starts with a character after '9' (a letter, say). */
  predicate StartsAfterDigits(s: string) {
    |s| > 0 && s[0] > '9'
  }

  /**
    The intended order agrees with the comparator as written on every pair of the
    same kind, and on a dated name against one that starts with a letter.
   */
  lemma AlbumOrderAgrees(a: string, b: string)
    requires DatePrefixed(a) == DatePrefixed(b)
      || (DatePrefixed(a) && StartsAfterDigits(b))
      || (DatePrefixed(b) && StartsAfterDigits(a))
    ensures AlbumOrderLe(a, b) == AlbumSortLe(a, b)
  {
    if DatePrefixed(a) && !DatePrefixed(b) {
      assert a[0] < b[0];
    } else if DatePrefixed(b) && !DatePrefixed(a) {
      assert b[0] < a[0];
      assert !LexLe(a, b);
    }
  }

  // ---------------------------------------------------------------------------
  // Album summary

  /**
    `getCoverImage`: the trimmed cover.txt name when it is one of the images, else
    the first image; nothing only when there are no images.
   */
  function GetCoverImage(coverTxt: Option<string>, images: seq<string>): (r: Option<string>)
    ensures r.Some? <==> |images| > 0
    ensures r.Some? ==> r.value in images
    ensures coverTxt.Some? && Trim(coverTxt.value) != "" && Trim(coverTxt.value) in images
      ==> r == Some(Trim(coverTxt.value))
    ensures (coverTxt.None? || Trim(coverTxt.value) == "" || Trim(coverTxt.value) !in images) && |images| > 0
      ==> r == Some(images[0])
  {
    if coverTxt.Some? && Trim(coverTxt.value) != "" && Trim(coverTxt.value) in images then
      Some(Trim(coverTxt.value))
    else if |images| > 0 then Some(images[0])
    else None
  }

  /** The modification times of the images that `statSync` finds in `dir`. */
  function ImageMTimes(dir: Option<Node>, images: seq<string>): (r: seq<int>)
    ensures |r| <= |images|
    ensures forall i :: 0 <= i < |images| && Child(dir, images[i]).Some? ==> Child(dir, images[i]).value.mtime in r
    ensures forall m :: m in r ==> exists i :: 0 <= i < |images| && Child(dir, images[i]).Some? && Child(dir, images[i]).value.mtime == m
  {
    if |images| == 0 then []
    else
      var c := Child(dir, images[0]);
      (if c.Some? then [c.value.mtime] else []) + ImageMTimes(dir, images[1..])
  }

  /** `getAlbumUpdatedAt`: the largest modification time, or 0 when none is positive. */
  function MaxMTime(mtimes: seq<int>): (m: int)
    ensures m >= 0
    ensures forall i :: 0 <= i < |mtimes| ==> mtimes[i] <= m
    ensures m == 0 || m in mtimes
  {
    if |mtimes| == 0 then 0
    else
      var rest := MaxMTime(mtimes[1..]);
      if mtimes[0] > rest then mtimes[0] else rest
  }

  /**
    `updatedAt || undefined` for `updatedAt = getAlbumUpdatedAt(...)`: the largest
    modification time of the images found, absent when none is positive.
   */
  function UpdatedAt(dir: Option<Node>, images: seq<string>): (u: Option<int>)
    ensures u.Some? ==> u.value > 0 && u.value in ImageMTimes(dir, images)
    ensures u.None? ==> forall m :: m in ImageMTimes(dir, images) ==> m <= 0
    ensures forall f :: (f in images && Child(dir, f).Some? && Child(dir, f).value.mtime > 0
      ==> u.Some? && Child(dir, f).value.mtime <= u.value)
  {
    var mtimes := ImageMTimes(dir, images);
    var m := MaxMTime(mtimes);
    forall f | f in images && Child(dir, f).Some?
      ensures Child(dir, f).value.mtime <= m
    {
      var i :| 0 <= i < |images| && images[i] == f;
      var k :| 0 <= k < |mtimes| && mtimes[k] == Child(dir, f).value.mtime;
    }
    if m == 0 then None else Some(m)
  }

  /** The width and height of an image, as the metadata reader reports them. */
  datatype Dims = Dims(width: nat, height: nat)

  /** The thumbnail URL of an image of an album. */
  function ThumbnailUrl(albumPath: string, file: string): string {
    "/api/images/thumbnail/" + albumPath + "/" + file
  }

  /**
    `buildAlbumInfo` for the directory `dir` named `slug`, reachable as `albumPath`.
    `coverDims(f)` is what the metadata reader yields for the image `f`, or None when it fails.
   */
  function BuildAlbumInfo(dir: Option<Node>, slug: string, albumPath: string,
                          coverDims: string -> Option<Dims>): (r: AlbumInfo)
    ensures r.name == FormatName(slug) && r.slug == slug && r.path == albumPath
    ensures r.hasPassword <==> Exists(dir, "password.txt")
    ensures r.hasPassword ==> r.coverImage.None? && r.coverWidth.None? && r.coverHeight.None?
    ensures r.coverImage.Some? <==> !r.hasPassword && |ListImageFiles(dir)| > 0
    ensures r.coverImage.Some? ==>
      exists i :: 0 <= i < |ListImageFiles(dir)| && r.coverImage.value == ThumbnailUrl(albumPath, ListImageFiles(dir)[i])
    ensures r.coverWidth.Some? <==> r.coverHeight.Some?
    ensures r.coverWidth.Some? ==> r.coverImage.Some?
    ensures r.imageCount == |ListImageFiles(dir)|
    ensures r.readme.None?
    ensures r.updatedAt == UpdatedAt(dir, ListImageFiles(dir))
    ensures r.coverImage.Some? ==>
      r.coverImage.value == ThumbnailUrl(albumPath, GetCoverImage(ReadText(dir, "cover.txt"), ListImageFiles(dir)).value)
    ensures r.coverImage.Some? ==>
      var d := coverDims(GetCoverImage(ReadText(dir, "cover.txt"), ListImageFiles(dir)).value);
      r.coverWidth == (if d.Some? then Some(d.value.width) else None)
      && r.coverHeight == (if d.Some? then Some(d.value.height) else None)
  {
    var images := ListImageFiles(dir);
    var hasPassword := Exists(dir, "password.txt");
    var cover := if |images| > 0 then GetCoverImage(ReadText(dir, "cover.txt"), images) else None;
    var dims := if cover.Some? && !hasPassword then coverDims(cover.value) else None;
    var r := AlbumInfo(
      FormatName(slug), slug, albumPath,
      if cover.Some? && !hasPassword then Some(ThumbnailUrl(albumPath, cover.value)) else None,
      if dims.Some? then Some(dims.value.width) else None,
      if dims.Some? then Some(dims.value.height) else None,
      |images|, hasPassword, None,
      UpdatedAt(dir, images));
    assert r.coverImage.Some? ==> var i := IndexOf(images, cover.value);
      r.coverImage.value == ThumbnailUrl(albumPath, images[i]);
    r
  }

  // ---------------------------------------------------------------------------
  // The album tree

  /** Directory entries in the album order, compared by name. */
  predicate EntryOrderLe(a: Entry, b: Entry) {
    AlbumOrderLe(a.name, b.name)
  }

  lemma EntryOrderIsTotalPreorder()
    ensures TotalPreorder(EntryOrderLe)
  {
    AlbumOrderIsTotalPreorder();
  }

  /** The non-hidden subdirectories of `dir`, in album order. */
  function SortedSubdirs(dir: Option<Node>): (r: seq<Entry>)
    ensures forall i :: 0 <= i < |r| ==> IsVisibleDir(r[i])
    ensures SortedBy(r, EntryOrderLe)
    ensures Listing(dir).Some? ==> multiset(r) == multiset(Filter(Listing(dir).value, IsVisibleDir))
    ensures Listing(dir).None? ==> r == []
  {
    match Listing(dir)
    case None => []
    case Some(entries) =>
      EntryOrderIsTotalPreorder();
      var r := SortBy(Filter(entries, IsVisibleDir), EntryOrderLe);
      forall i | 0 <= i < |r|
        ensures IsVisibleDir(r[i])
      {
        assert r[i] in multiset(r);
      }
      r
  }

  /** A top-level album: an entry with direct images. */
  predicate IsAlbumEntry(e: Entry) {
    HasDirectImages(Some(e.node))
  }

  /** The summary of the top-level album `e`. */
  function TopAlbum(e: Entry, coverDims: string -> Option<Dims>): AlbumInfo {
    BuildAlbumInfo(Some(e.node), e.name, "albums/" + e.name, coverDims)
  }

  /** The sub-albums of the group entry `e`: its subdirectories that have direct images, in album order. */
  function GroupAlbumEntries(e: Entry): seq<Entry> {
    Filter(SortedSubdirs(Some(e.node)), IsAlbumEntry)
  }

  /** Every sub-album of a group is a visible subdirectory with direct images, and they come in album order. */
  lemma GroupAlbumEntriesShape(e: Entry)
    ensures forall i :: 0 <= i < |GroupAlbumEntries(e)| ==>
      IsVisibleDir(GroupAlbumEntries(e)[i]) && IsAlbumEntry(GroupAlbumEntries(e)[i])
    ensures SortedBy(GroupAlbumEntries(e), EntryOrderLe)
  {
    var subs := SortedSubdirs(Some(e.node));
    FilterSorted(subs, IsAlbumEntry, EntryOrderLe);
    var r := Filter(subs, IsAlbumEntry);
    forall i | 0 <= i < |r|
      ensures IsVisibleDir(r[i])
    {
      FilterMembers(subs, IsAlbumEntry, r[i]);
    }
  }

  /** A group: no direct images, and at least one subdirectory that is an album. */
  predicate IsGroupEntry(e: Entry) {
    !IsAlbumEntry(e) && HasSubdirectories(Some(e.node)) && |GroupAlbumEntries(e)| > 0
  }

  /** A group with a sub-album always has a visible subdirectory, so the second test is implied. */
  lemma GroupEntryNeedsAnAlbum(e: Entry)
    ensures IsGroupEntry(e) <==> !IsAlbumEntry(e) && |GroupAlbumEntries(e)| > 0
  {
    var g := GroupAlbumEntries(e);
    var subs := SortedSubdirs(Some(e.node));
    if |g| > 0 {
      FilterMembers(subs, IsAlbumEntry, g[0]);
      SubdirectoryWitness(Some(e.node), g[0]);
    }
  }

  lemma SubdirectoryWitness(dir: Option<Node>, x: Entry)
    requires x in SortedSubdirs(dir)
    ensures HasSubdirectories(dir)
  {
    var entries := Listing(dir).value;
    assert x in multiset(SortedSubdirs(dir));
    FilterMembers(entries, IsVisibleDir, x);
    var i :| 0 <= i < |entries| && entries[i] == x;
    assert IsVisibleDir(entries[i]);
  }

  /** The summary of the group entry `e`. */
  function GroupOf(e: Entry, coverDims: string -> Option<Dims>): GroupInfo {
    GroupInfo(FormatName(e.name), e.name,
      Map(GroupAlbumEntries(e), (sub: Entry) => BuildAlbumInfo(Some(sub.node), sub.name, "albums/" + e.name + "/" + sub.name, coverDims)))
  }

  /** The album root's visible directories in album order, as `scanAlbums` visits them. */
  function AlbumRootEntries(root: Node): seq<Entry> {
    SortedSubdirs(Lookup(root, Config.AlbumsDir))
  }

  /** The top-level albums among `es`, in order. */
  function TopAlbums(es: seq<Entry>, coverDims: string -> Option<Dims>): seq<AlbumInfo> {
    Map(Filter(es, IsAlbumEntry), (e: Entry) => TopAlbum(e, coverDims))
  }

  /** The groups among `es`, in order. */
  function Groups(es: seq<Entry>, coverDims: string -> Option<Dims>): seq<GroupInfo> {
    Map(Filter(es, IsGroupEntry), (e: Entry) => GroupOf(e, coverDims))
  }

  /** The group test as `scanAlbums` performs it, one condition after another. */
  lemma GroupEntryTest(e: Entry, coverDims: string -> Option<Dims>)
    ensures IsGroupEntry(e) <==>
      !HasDirectImages(Some(e.node)) && HasSubdirectories(Some(e.node)) && |GroupOf(e, coverDims).albums| > 0
    ensures IsAlbumEntry(e) <==> HasDirectImages(Some(e.node))
  {
  }

  lemma TopAlbumsSnoc(es: seq<Entry>, e: Entry, coverDims: string -> Option<Dims>)
    ensures TopAlbums(es + [e], coverDims)
      == TopAlbums(es, coverDims) + (if IsAlbumEntry(e) then [TopAlbum(e, coverDims)] else [])
  {
    MapFilterSnoc(es, e, IsAlbumEntry, (e: Entry) => TopAlbum(e, coverDims));
  }

  lemma GroupsSnoc(es: seq<Entry>, e: Entry, coverDims: string -> Option<Dims>)
    ensures Groups(es + [e], coverDims)
      == Groups(es, coverDims) + (if IsGroupEntry(e) then [GroupOf(e, coverDims)] else [])
  {
    MapFilterSnoc(es, e, IsGroupEntry, (e: Entry) => GroupOf(e, coverDims));
  }

  /**
    `scanAlbums`: every visited entry with direct images becomes a top-level album;
    otherwise one whose subdirectories include albums becomes a group of those;
    the rest are dropped.
   */
  method ScanAlbums(root: Node, coverDims: string -> Option<Dims>) returns (tree: AlbumTree)
    ensures !IsDirectory(Lookup(root, Config.AlbumsDir)) ==> tree == AlbumTree([], [])
    ensures tree.albums == TopAlbums(AlbumRootEntries(root), coverDims)
    ensures tree.groups == Groups(AlbumRootEntries(root), coverDims)
    ensures forall g :: g in tree.groups ==> |g.albums| > 0
    ensures |tree.albums| + |tree.groups| <= |AlbumRootEntries(root)|
  {
    var entries := AlbumRootEntries(root);
    forall i | 0 <= i < |entries|
      ensures !(IsAlbumEntry(entries[i]) && IsGroupEntry(entries[i]))
    {
      AlbumsAndGroupsDisjoint(entries[i]);
    }
    var top, groups := ClassifyEntries(entries, IsAlbumEntry, IsGroupEntry,
      (e: Entry) => TopAlbum(e, coverDims), (e: Entry) => GroupOf(e, coverDims));
    FilterDisjointLength(entries, IsAlbumEntry, IsGroupEntry);
    forall g | g in groups
      ensures |g.albums| > 0
    {
      var k :| 0 <= k < |groups| && groups[k] == g;
      var gs := Filter(entries, IsGroupEntry);
      assert IsGroupEntry(gs[k]);
    }
    tree := AlbumTree(groups, top);
  }

  /**
    The loop of `scanAlbums` over the visited entries, for any album and group
    tests that exclude each other: an album is appended to the first list, a
    group to the second, anything else is skipped.
   */
  method ClassifyEntries<E, A, G>(entries: seq<E>, isAlbum: E -> bool, isGroup: E -> bool,
                                  album: E -> A, group: E -> G) returns (top: seq<A>, groups: seq<G>)
    requires forall i :: 0 <= i < |entries| ==> !(isAlbum(entries[i]) && isGroup(entries[i]))
    ensures top == Map(Filter(entries, isAlbum), album)
    ensures groups == Map(Filter(entries, isGroup), group)
  {
    top := [];
    groups := [];
    var i := 0;
    while i < |entries|
      invariant 0 <= i <= |entries|
      invariant top == Map(Filter(entries[..i], isAlbum), album)
      invariant groups == Map(Filter(entries[..i], isGroup), group)
    {
      var e := entries[i];
      MapFilterPrefix(entries, i, isAlbum, album);
      MapFilterPrefix(entries, i, isGroup, group);
      if isAlbum(e) {
        top := top + [album(e)];
      } else if isGroup(e) {
        groups := groups + [group(e)];
      }
      i := i + 1;
    }
    assert entries[..i] == entries;
  }

  /** Top-level albums come out in album order: dated ones newest first, then the rest by name. */
  lemma ScanAlbumsOrder(root: Node, coverDims: string -> Option<Dims>)
    ensures SortedBy(Map(TopAlbums(AlbumRootEntries(root), coverDims), (a: AlbumInfo) => a.slug), AlbumOrderLe)
  {
    TopAlbumsOrdered(AlbumRootEntries(root), coverDims);
  }

  lemma TopAlbumsOrdered(es: seq<Entry>, coverDims: string -> Option<Dims>)
    requires SortedBy(es, EntryOrderLe)
    ensures SortedBy(Map(TopAlbums(es, coverDims), (a: AlbumInfo) => a.slug), AlbumOrderLe)
  {
    FilterSorted(es, IsAlbumEntry, EntryOrderLe);
    var albums := Filter(es, IsAlbumEntry);
    var infos := TopAlbums(es, coverDims);
    var slugs := Map(infos, (a: AlbumInfo) => a.slug);
    forall i, j | 0 <= i < j < |slugs|
      ensures AlbumOrderLe(slugs[i], slugs[j])
    {
      assert slugs[i] == infos[i].slug == albums[i].name;
      assert slugs[j] == infos[j].slug == albums[j].name;
      assert EntryOrderLe(albums[i], albums[j]);
    }
  }

  /** A group's slug is never also a top-level album's slug. */
  lemma AlbumsAndGroupsDisjoint(e: Entry)
    ensures !(IsAlbumEntry(e) && IsGroupEntry(e))
  {
  }
}
