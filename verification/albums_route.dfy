/**
  `GET /api/albums/<path>` (`server/src/routes/albums.ts`): the detail of one
  directory under `albums/`, which is an album when it holds any image-named
  entry, a group when it holds a visible subdirectory instead, and an error
  otherwise. Unlike the tree scan, this route hides only dot-names and lists
  every subdirectory of a group, images or not.
 */
module AlbumsRoute {
  import opened Wrappers
  import opened Text
  import opened Seqs
  import opened Sorting
  import opened FileSystem
  import opened Types
  import Paths
  import Config
  import Scanner
  import Password

  /** One sub-album as a group's detail lists it. */
  datatype SubAlbum = SubAlbum(
    name: string,
    slug: string,
    path: string,
    coverImage: Option<string>,
    imageCount: nat,
    hasPassword: bool)

  datatype Detail =
    | InvalidPath     // 400: the path resolves outside the albums directory
    | NotFound        // 404: nothing there, or not a directory
    | EmptyDirectory  // 404: neither images nor subdirectories
    | LockedAlbum(name: string, slug: string, path: string, imageCount: nat)
    | OpenAlbum(name: string, slug: string, path: string, hasPassword: bool,
                images: seq<ImageInfo>, readme: Option<string>, imageCount: nat)
    | Group(name: string, slug: string, albums: seq<SubAlbum>)

  /** `path.basename(resolved)`: the last non-empty segment, or `albums` for the directory itself. */
  function SlugOf(pathStr: string): string {
    var segs := Paths.Segments(pathStr);
    if |segs| == 0 then Config.AlbumsDir else segs[|segs| - 1]
  }

  /** The entry names this route treats as sub-albums: directories whose name does not start with `.`. */
  predicate IsSubAlbumName(dir: Option<Node>, f: string) {
    var c := Child(dir, f);
    c.Some? && c.value.Dir? && !StartsWith(f, ".")
  }

  /** `entries.filter(f => IMAGE_EXTENSIONS.includes(...)).sort()`: image-named entries, hidden ones included. */
  function SortedImageNames(dir: Option<Node>): (r: seq<string>)
    ensures Listing(dir).None? ==> r == []
    ensures Listing(dir).Some? ==> multiset(r) == multiset(Filter(Names(Listing(dir).value), Scanner.IsImageFile))
    ensures forall f :: f in r <==> Listing(dir).Some? && f in Names(Listing(dir).value) && Scanner.IsImageFile(f)
    ensures SortedBy(r, LexLe)
  {
    match Listing(dir)
    case None => []
    case Some(entries) =>
      LexLeIsTotalPreorder();
      var kept := Filter(Names(entries), Scanner.IsImageFile);
      var r := SortBy(kept, LexLe);
      forall f
        ensures f in r <==> f in Names(entries) && Scanner.IsImageFile(f)
      {
        SortByMembers(kept, LexLe, f);
        FilterMembers(Names(entries), Scanner.IsImageFile, f);
      }
      r
  }

  /** `IsSubAlbumName` for the entries of `dir`, as a filter test. */
  function SubAlbumTest(dir: Option<Node>): string -> bool {
    (f: string) => IsSubAlbumName(dir, f)
  }

  /** The sub-album names of a group directory, in code-point order. */
  function SortedSubAlbumNames(dir: Option<Node>): (r: seq<string>)
    ensures Listing(dir).None? ==> r == []
    ensures Listing(dir).Some? ==> multiset(r) == multiset(Filter(Names(Listing(dir).value), SubAlbumTest(dir)))
    ensures forall f :: f in r <==> Listing(dir).Some? && f in Names(Listing(dir).value) && IsSubAlbumName(dir, f)
    ensures SortedBy(r, LexLe)
  {
    match Listing(dir)
    case None => []
    case Some(entries) =>
      LexLeIsTotalPreorder();
      var p := SubAlbumTest(dir);
      var kept := Filter(Names(entries), p);
      var r := SortBy(kept, LexLe);
      forall f
        ensures f in r <==> f in Names(entries) && IsSubAlbumName(dir, f)
      {
        SortByMembers(kept, LexLe, f);
        FilterMembers(Names(entries), p, f);
      }
      r
  }

  /** One sub-album of the group at `albumPath`: its first image in code-point order is the cover. */
  function SubAlbumOf(dir: Option<Node>, albumPath: string, sub: string): (r: SubAlbum)
    ensures r.slug == sub && r.name == FormatName(sub) && r.path == albumPath + "/" + sub
    ensures r.imageCount == |SortedImageNames(Child(dir, sub))|
    ensures r.coverImage.Some? <==> r.imageCount > 0
    ensures r.coverImage.Some? ==>
      exists f :: (f in SortedImageNames(Child(dir, sub))
                   && r.coverImage.value == Scanner.ThumbnailUrl(r.path, f)
                   && forall g :: g in SortedImageNames(Child(dir, sub)) ==> LexLe(f, g))
    ensures r.hasPassword <==> Exists(Child(dir, sub), Password.PasswordFile)
  {
    var subDir := Child(dir, sub);
    var images := SortedImageNames(subDir);
    var subPath := albumPath + "/" + sub;
    var r := SubAlbum(FormatName(sub), sub, subPath,
      if |images| > 0 then Some(Scanner.ThumbnailUrl(subPath, images[0])) else None,
      |images|, Exists(subDir, Password.PasswordFile));
    if |images| > 0 then
      CoverIsLeast(images, subPath);
      r
    else r
  }

  lemma CoverIsLeast(images: seq<string>, path: string)
    requires |images| > 0 && SortedBy(images, LexLe)
    ensures exists f :: (f in images && Scanner.ThumbnailUrl(path, images[0]) == Scanner.ThumbnailUrl(path, f)
                         && forall g :: g in images ==> LexLe(f, g))
  {
    FirstIsLeast(images);
    assert images[0] in images;
  }

  /**
    The detail for the request path `pathStr`; `insideAlbums` is whether
    `path.resolve(ALBUMS_DIR, pathStr)` stays under the albums directory,
    `images` is what `scanAlbumImages` yields for the album and `readme` its
    rendered `README.md`.
   */
  function AlbumDetail(root: Node, session: Session, pathStr: string, insideAlbums: bool,
                       images: seq<ImageInfo>, readme: Option<string>): (r: Detail)
    ensures r == InvalidPath <==> !insideAlbums
    ensures r == NotFound <==> insideAlbums && !IsDirectory(Lookup(root, "albums/" + pathStr))
    ensures var dir := Lookup(root, "albums/" + pathStr);
      var albumPath := "albums/" + pathStr;
      && (r.LockedAlbum? <==>
            (insideAlbums && IsDirectory(dir) && Scanner.HasDirectImages(dir)
             && !Password.IsAlbumUnlocked(root, session, albumPath)))
      && (r.OpenAlbum? <==>
            (insideAlbums && IsDirectory(dir) && Scanner.HasDirectImages(dir)
             && Password.IsAlbumUnlocked(root, session, albumPath)))
      && (r.Group? <==>
            (insideAlbums && IsDirectory(dir) && !Scanner.HasDirectImages(dir)
             && exists f :: f in Names(Listing(dir).value) && IsSubAlbumName(dir, f)))
      && (r == EmptyDirectory <==>
            (insideAlbums && IsDirectory(dir) && !Scanner.HasDirectImages(dir)
             && forall f :: f in Names(Listing(dir).value) ==> !IsSubAlbumName(dir, f)))
    ensures r.LockedAlbum? ==>
      (r.path == "albums/" + pathStr && r.slug == SlugOf(pathStr) && r.name == FormatName(r.slug)
       && r.imageCount == |Filter(Names(Listing(Lookup(root, "albums/" + pathStr)).value), Scanner.IsImageFile)|)
    ensures r.OpenAlbum? ==>
      (r.path == "albums/" + pathStr && r.slug == SlugOf(pathStr) && r.name == FormatName(r.slug)
       && r.images == images && r.imageCount == |images| && r.readme == readme
       && r.hasPassword == Password.HasPassword(root, "albums/" + pathStr))
    ensures r.Group? ==>
      (r.slug == SlugOf(pathStr) && r.name == FormatName(r.slug)
       && var names := SortedSubAlbumNames(Lookup(root, "albums/" + pathStr));
          |r.albums| == |names|
          && forall i :: 0 <= i < |names| ==>
               r.albums[i] == SubAlbumOf(Lookup(root, "albums/" + pathStr), "albums/" + pathStr, names[i]))
  {
    var albumPath := "albums/" + pathStr;
    var dir := Lookup(root, albumPath);
    var slug := SlugOf(pathStr);
    if !insideAlbums then InvalidPath
    else if !IsDirectory(dir) then NotFound
    else if Scanner.HasDirectImages(dir) then
      AlbumWithImages(root, session, albumPath, slug, dir.value.entries, images, readme)
    else
      GroupOrEmpty(dir, albumPath, slug)
  }

  /** A directory with images: locked behind its password unless unlocked, else its photos and README. */
  function AlbumWithImages(root: Node, session: Session, albumPath: string, slug: string, entries: seq<Entry>,
                           images: seq<ImageInfo>, readme: Option<string>): (r: Detail)
    ensures r.LockedAlbum? || r.OpenAlbum?
    ensures r.LockedAlbum? <==> !Password.IsAlbumUnlocked(root, session, albumPath)
    ensures r.LockedAlbum? ==>
      (r.path == albumPath && r.slug == slug && r.name == FormatName(slug)
       && r.imageCount == |Filter(Names(entries), Scanner.IsImageFile)|)
    ensures r.OpenAlbum? ==>
      (r.path == albumPath && r.slug == slug && r.name == FormatName(slug)
       && r.images == images && r.imageCount == |images| && r.readme == readme
       && r.hasPassword == Password.HasPassword(root, albumPath))
  {
    var password := Password.GetAlbumPassword(root, albumPath);
    if password.Some? && password.value != "" && !Password.IsAlbumUnlocked(root, session, albumPath) then
      LockedAlbum(FormatName(slug), slug, albumPath, |Filter(Names(entries), Scanner.IsImageFile)|)
    else
      OpenAlbum(FormatName(slug), slug, albumPath, password.Some? && password.value != "",
                images, readme, |images|)
  }

  /** A directory without images: its sub-albums in name order, or 404 when it has none. */
  function GroupOrEmpty(dir: Option<Node>, albumPath: string, slug: string): (r: Detail)
    requires IsDirectory(dir)
    ensures r.Group? || r == EmptyDirectory
    ensures r.Group? <==> exists f :: f in Names(Listing(dir).value) && IsSubAlbumName(dir, f)
    ensures r.Group? ==>
      (r.slug == slug && r.name == FormatName(slug)
       && var names := SortedSubAlbumNames(dir);
          |r.albums| == |names| && forall i :: 0 <= i < |names| ==> r.albums[i] == SubAlbumOf(dir, albumPath, names[i]))
  {
    var names := SortedSubAlbumNames(dir);
    if |names| > 0 then
      assert names[0] in names;
      Group(FormatName(slug), slug, Map(names, (sub: string) => SubAlbumOf(dir, albumPath, sub)))
    else
      EmptyDirectory
  }

  /**
    A directory holding an image is an album even when it also holds
    subdirectories.
   */
  lemma ImagesWinOverSubdirectories(root: Node, session: Session, pathStr: string,
                                    images: seq<ImageInfo>, readme: Option<string>)
    requires IsDirectory(Lookup(root, "albums/" + pathStr))
    requires Scanner.HasDirectImages(Lookup(root, "albums/" + pathStr))
    ensures var r := AlbumDetail(root, session, pathStr, true, images, readme);
      r.LockedAlbum? || r.OpenAlbum?
  {
  }

  /** The `@eadir` folder that the tree scan hides counts here as a sub-album. */
  lemma SynologyFolderIsSubAlbum(dir: Option<Node>)
    requires Child(dir, "@eadir").Some? && Child(dir, "@eadir").value.Dir?
    ensures IsSubAlbumName(dir, "@eadir")
    ensures Scanner.IsHiddenName("@eadir")
  {
    assert "@eadir"[0] != '.';
  }

  /** A locked album's count is of image-named entries, which may exceed what the album would list once open. */
  lemma LockedCountIncludesHidden()
    ensures var d := Some(Dir(0, [Entry("._a.jpg", File(0, ""))]));
      |Filter(Names(Listing(d).value), Scanner.IsImageFile)| == 1 && Scanner.ListImageFiles(d) == []
  {
    var d := Some(Dir(0, [Entry("._a.jpg", File(0, ""))]));
    Scanner.HiddenImageOnlyDirectory();
    var ns := Names(Listing(d).value);
    assert ns == ["._a.jpg"];
    assert Scanner.IsImageFile(ns[0]);
    assert Filter(ns, Scanner.IsImageFile) == [ns[0]] + Filter(ns[1..], Scanner.IsImageFile);
  }
}
