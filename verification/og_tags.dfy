/**
  The Open Graph tags the server injects into `index.html` for shared links
  (`buildOgTags` in `server/src/index.ts`): for `?image=X` the tags name the
  image's thumbnail, and for `/albums/<slug>` they name the album's cover.
 */
module OgTags {
  import opened Wrappers
  import opened Text
  import opened Seqs
  import opened Sorting
  import opened FileSystem
  import Paths
  import Scanner
  import AlbumsRoute
  import Config

  const ThumbnailRoute: string := "/api/images/thumbnail/"

  datatype Tags =
    | NoTags
    | ImageTags(title: string, thumbUrl: string)
    | AlbumTags(title: string, description: string, thumbUrl: string)

  /** `urlPath.replace(/^\//, '')`. */
  function StripLeadingSlash(p: string): (r: string)
    ensures StartsWith(p, "/") ==> p == "/" + r
    ensures !StartsWith(p, "/") ==> r == p
  {
    if StartsWith(p, "/") then p[1..] else p
  }

  /** The photos-relative path of the image `?image=` names on the page `urlPath`. */
  function ImagePath(urlPath: string, image: string): (r: string)
    ensures urlPath == "/" || urlPath == "" ==> r == "portfolio/" + image
    ensures urlPath != "/" && urlPath != "" ==> r == StripLeadingSlash(urlPath) + "/" + image
    ensures EndsWith(r, "/" + image)
  {
    var r := if urlPath == "/" || urlPath == "" then "portfolio/" + image
             else StripLeadingSlash(urlPath) + "/" + image;
    assert r[|r| - |"/" + image|..] == "/" + image;
    r
  }

  /** `name.replace(/\.[^.]+$/, '')`: drops a final `.` and the non-dot characters after it, if any. */
  function StripLastExtension(name: string): (r: string)
    ensures StartsWith(name, r)
    ensures r != name ==> name[|r|] == '.' && |name| - |r| >= 2 && '.' !in name[|r| + 1..]
    ensures r == name ==> |name| == 0 || name[|name| - 1] == '.' || '.' !in name
  {
    var k := LastIndexOf(name, '.');
    if k >= 0 && k + 1 < |name| then
      assert name[k + 1..] == name[k + 1..|name|];
      name[..k]
    else
      assert k < 0 ==> forall i :: 0 <= i < |name| ==> name[i] != '.';
      name
  }

  /** The image title: the name without its extension, with `-` and `_` as spaces. */
  function ImageTitle(image: string): (r: string)
    ensures |r| <= |image|
    ensures forall i :: 0 <= i < |r| ==> r[i] != '-' && r[i] != '_'
    ensures |r| == |StripLastExtension(image)|
    ensures StripLastExtension(image) == image ==> |r| == |image|
    ensures forall i :: 0 <= i < |r| && image[i] != '-' && image[i] != '_' ==> r[i] == image[i]
    ensures forall i :: 0 <= i < |r| && (image[i] == '-' || image[i] == '_') ==> r[i] == ' '
  {
    SeparatorsToSpaces(StripLastExtension(image))
  }

  /** `${n} photo${n !== 1 ? 's' : ''}`: the count, then "photo", plural for every count but one. */
  function PhotoCount(n: nat): (r: string)
    ensures StartsWith(r, NatToString(n) + " photo")
    ensures |r| == |NatToString(n)| + (if n == 1 then 6 else 7)
    ensures EndsWith(r, "s") <==> n != 1
  {
    var r := NatToString(n) + " photo" + (if n != 1 then "s" else "");
    assert r[|r| - 1..] == [r[|r| - 1]];
    assert r[|r| - 1] == if n != 1 then 's' else 'o';
    r
  }

  /** The digits in front of the description read back as the photo count. */
  lemma PhotoCountReadsBack(n: nat)
    ensures var k := |NatToString(n)|;
      k < |PhotoCount(n)| && AllDigits(PhotoCount(n)[..k]) && DigitsValue(PhotoCount(n)[..k]) == n
  {
    var k := |NatToString(n)|;
    assert PhotoCount(n)[..k] == NatToString(n);
    DigitsValueOfNatToString(n);
  }

  /** `albumSlug.split('/').pop()`, formatted as a name. */
  function AlbumTitle(slug: string): string {
    var parts := Split(slug, '/');
    FormatName(parts[|parts| - 1])
  }

  /**
    The album's cover for the tags: the trimmed `cover.txt` text as it stands,
    else the first image-named entry in code-point order.
   */
  function OgCover(dir: Option<Node>): (r: Option<string>)
    ensures ReadText(dir, "cover.txt").Some? && Trim(ReadText(dir, "cover.txt").value) != ""
      ==> r == Some(Trim(ReadText(dir, "cover.txt").value))
    ensures (ReadText(dir, "cover.txt").None? || Trim(ReadText(dir, "cover.txt").value) == "")
      ==> (r.Some? <==> |AlbumsRoute.SortedImageNames(dir)| > 0)
    ensures (ReadText(dir, "cover.txt").None? || Trim(ReadText(dir, "cover.txt").value) == "") && r.Some? ==>
      (r.value in AlbumsRoute.SortedImageNames(dir)
       && forall g :: g in AlbumsRoute.SortedImageNames(dir) ==> LexLe(r.value, g))
  {
    var text := ReadText(dir, "cover.txt");
    var cover := if text.Some? then Trim(text.value) else "";
    var images := AlbumsRoute.SortedImageNames(dir);
    if cover != "" then Some(cover)
    else if |images| > 0 then
      FirstIsLeast(images);
      Some(images[0])
    else None
  }

  /** `buildOgTags` for a request to `urlPath` with the query parameter `image`, served at `host`. */
  function BuildOgTags(root: Node, host: string, urlPath: string, image: Option<string>): (t: Tags)
    ensures image.Some? && image.value != "" ==>
      t == ImageTags(ImageTitle(image.value), host + ThumbnailRoute + ImagePath(urlPath, image.value))
    ensures (image.None? || image.value == "") && !StartsWith(urlPath, "/albums/") ==> t == NoTags
    ensures t.AlbumTags? ==>
      (StartsWith(urlPath, "/albums/") && |urlPath| > 8
       && IsDirectory(Lookup(root, "albums/" + urlPath[8..]))
       && var dir := Lookup(root, "albums/" + urlPath[8..]);
          OgCover(dir).Some?
          && t.thumbUrl == host + ThumbnailRoute + "albums/" + urlPath[8..] + "/" + OgCover(dir).value
          && t.description == PhotoCount(|AlbumsRoute.SortedImageNames(dir)|)
          && t.title == AlbumTitle(urlPath[8..]))
    ensures (image.None? || image.value == "") && StartsWith(urlPath, "/albums/") && |urlPath| > 8
      && IsDirectory(Lookup(root, "albums/" + urlPath[8..])) && OgCover(Lookup(root, "albums/" + urlPath[8..])).Some?
      ==> t.AlbumTags?
    ensures t.ImageTags? ==> image.Some? && image.value != ""
    ensures ((image.None? || image.value == "")
             && !(StartsWith(urlPath, "/albums/") && |urlPath| > 8
                  && IsDirectory(Lookup(root, "albums/" + urlPath[8..]))
                  && OgCover(Lookup(root, "albums/" + urlPath[8..])).Some?))
      ==> t == NoTags
  {
    if image.Some? && image.value != "" then
      ImageTags(ImageTitle(image.value), host + ThumbnailRoute + ImagePath(urlPath, image.value))
    else if StartsWith(urlPath, "/albums/") then
      var slug := urlPath[8..];
      var dir := Lookup(root, "albums/" + slug);
      if slug != "" && IsDirectory(dir) then
        var cover := OgCover(dir);
        if cover.Some? then
          AlbumTags(AlbumTitle(slug), PhotoCount(|AlbumsRoute.SortedImageNames(dir)|),
                    host + ThumbnailRoute + "albums/" + slug + "/" + cover.value)
        else NoTags
      else NoTags
    else NoTags
  }

  /** A directory holding only a `cover.txt` naming `name`. */
  function CoverOnly(name: string): Option<Node> {
    Some(Dir(0, [Entry("cover.txt", File(0, name))]))
  }

  /** A directory holding only a `cover.txt` naming `missing.jpg`. */
  function CoverOnlyDir(): Option<Node> {
    CoverOnly("missing.jpg")
  }

  /** `cover.txt` has the extension `.txt`, which is not an image extension. */
  lemma CoverTextIsNotImage()
    ensures !Scanner.IsImageFile("cover.txt")
  {
    var n, x := "cover", "txt";
    assert n + "." + x == "cover.txt";
    assert '.' !in n && '.' !in x by {
      assert forall i :: 0 <= i < |n| ==> n[i] != '.';
      assert forall i :: 0 <= i < |x| ==> x[i] != '.';
    }
    Paths.ExtNameOfDotted(n, x);
    var e := Lower("." + x);
    assert e == ".txt" by {
      assert forall i :: 0 <= i < 4 ==> e[i] == LowerChar(("." + x)[i]);
    }
    assert e !in Config.ImageExtensions by {
      assert e[2] == 'x';
      assert forall i :: 0 <= i < |Config.ImageExtensions| ==> |Config.ImageExtensions[i]| != 4 || Config.ImageExtensions[i][2] != 'x';
    }
  }

  /** The only entry is `cover.txt`, so no entry is an image name. */
  lemma CoverOnlyHasNoImages(name: string)
    ensures AlbumsRoute.SortedImageNames(CoverOnly(name)) == []
  {
    var ns := Names(Listing(CoverOnly(name)).value);
    assert ns == ["cover.txt"];
    CoverTextIsNotImage();
    assert Filter(ns, Scanner.IsImageFile) == Filter(ns[1..], Scanner.IsImageFile);
  }

  lemma CoverOnlyDirHasNoImages()
    ensures AlbumsRoute.SortedImageNames(CoverOnlyDir()) == []
  {
    CoverOnlyHasNoImages("missing.jpg");
  }

  /** A cover name without surrounding space is taken as the cover, listed or not. */
  lemma CoverOnlyCover(name: string)
    requires |name| > 0 && !IsSpace(name[0]) && !IsSpace(name[|name| - 1])
    ensures OgCover(CoverOnly(name)) == Some(name)
  {
    assert Child(CoverOnly(name), "cover.txt") == Some(File(0, name));
    TrimOfUnpadded(name);
  }

  lemma CoverOnlyDirCover()
    ensures OgCover(CoverOnlyDir()) == Some("missing.jpg")
  {
    CoverOnlyCover("missing.jpg");
  }

  /** The cover for the tags is `cover.txt` taken at its word: it need not be one of the album's images. */
  lemma CoverTextNotChecked()
    ensures OgCover(CoverOnlyDir()) == Some("missing.jpg") && AlbumsRoute.SortedImageNames(CoverOnlyDir()) == []
  {
    CoverOnlyDirHasNoImages();
    CoverOnlyDirCover();
  }

  /** One photo is "1 photo"; any other count is plural. */
  lemma PhotoCountExamples()
    ensures PhotoCount(1) == "1 photo"
    ensures PhotoCount(0) == "0 photos"
  {
  }
}

/**
  The share link the client builds (`buildShareUrl` in
  `client/src/components/ShareButton.tsx`), and its round trip through the
  server's image-path derivation.
 */
module Share {
  import opened Text
  import OgTags

  datatype Target = AlbumTarget | ImageTarget

  /**
    A share URL in parts: the page path after the origin and, for an image,
    the file name the `image` query parameter carries (before percent-encoding).
   */
  datatype ShareUrl = ShareUrl(pagePath: string, image: string, hasImage: bool)

  /** `targetPath.substring(0, lastSlash)`; `substring` clamps -1 to 0. */
  function ParentPath(p: string): (r: string)
    ensures '/' !in p ==> r == ""
    ensures '/' in p ==> p == r + "/" + AfterLast(p, '/')
  {
    var k := LastIndexOf(p, '/');
    if k < 0 then
      assert forall i :: 0 <= i < |p| ==> p[i] != '/';
      ""
    else
      assert p == p[..k] + "/" + p[k + 1..];
      p[..k]
  }

  function BuildShareUrl(t: Target, targetPath: string): (u: ShareUrl)
    ensures t == AlbumTarget ==> u == ShareUrl("/" + targetPath, "", false)
    ensures t == ImageTarget ==>
      (u.hasImage && u.image == AfterLast(targetPath, '/')
       && u.pagePath == (if ParentPath(targetPath) == "portfolio" then "" else "/" + ParentPath(targetPath)))
  {
    if t == AlbumTarget then ShareUrl("/" + targetPath, "", false)
    else
      var parent := ParentPath(targetPath);
      ShareUrl(if parent == "portfolio" then "" else "/" + parent, AfterLast(targetPath, '/'), true)
  }

  /** The request path a browser sends for the page path: the bare origin is `/`. */
  function RequestPath(pagePath: string): string {
    if pagePath == "" then "/" else pagePath
  }

  /**
    Opening a shared image link makes the server derive the image path that was
    shared, for any image below a named folder.
   */
  lemma ShareRoundTrip(targetPath: string)
    requires '/' in targetPath
    requires ParentPath(targetPath) != ""
    requires AfterLast(targetPath, '/') != ""
    ensures var u := BuildShareUrl(ImageTarget, targetPath);
      OgTags.ImagePath(RequestPath(u.pagePath), u.image) == targetPath
  {
    var parent := ParentPath(targetPath);
    var u := BuildShareUrl(ImageTarget, targetPath);
    if parent != "portfolio" {
      assert RequestPath(u.pagePath) == "/" + parent;
      assert ("/" + parent)[1..] == parent;
      assert StartsWith("/" + parent, "/");
    }
  }

  /** An image at the top of the tree has an empty parent, and its link points into the portfolio instead. */
  lemma RootImageLandsInPortfolio()
    ensures var u := BuildShareUrl(ImageTarget, "/a.jpg");
      OgTags.ImagePath(RequestPath(u.pagePath), u.image) == "portfolio/a.jpg"
  {
    var p := "/a.jpg";
    assert p[0] == '/';
    assert LastIndexOf(p, '/') == 0;
    assert ParentPath(p) == "";
    assert AfterLast(p, '/') == "a.jpg";
  }
}
