/**
  Cached derived files (`server/src/services/thumbnail.ts`): a thumbnail lives
  at `.thumbnails/<dir>/<name>.jpg` and is rebuilt only when it is missing or
  older than its source. Video thumbnails and social exports reuse the same
  freshness rule, so it is stated once here as `EnsureOutput`.
 */
module Thumbnail {
  import opened Wrappers
  import opened Text
  import opened FileSystem
  import Paths
  import Config

  /** `getThumbnailPath`: the thumbnail of `rel` is a JPEG named after its stem, whatever its extension. */
  function ThumbnailPath(rel: string): (t: string)
    ensures t == Config.ThumbnailsDir + "/" + Paths.Join([Paths.DirName(rel), Paths.StemName(rel) + ".jpg"])
    ensures Paths.BaseName(t) == Paths.StemName(rel) + ".jpg"
  {
    JoinUnder(Config.ThumbnailsDir, Paths.DirName(rel), Paths.StemName(rel) + ".jpg");
    Paths.Join([Config.ThumbnailsDir, Paths.DirName(rel), Paths.StemName(rel) + ".jpg"])
  }

  /** `Join([top, d, s])` is `s` in `d` in `top`. */
  lemma JoinUnder(top: string, d: string, s: string)
    requires top != "" && s != "" && '/' !in s
    ensures Paths.Join([top, d, s]) == top + "/" + Paths.Join([d, s])
    ensures Paths.BaseName(Paths.Join([top, d, s])) == s
  {
    Paths.JoinThree(top, d, s);
    UnderDirectory(top, d, s);
  }

  /** `top/Join([d, s])` ends with the base name `s`. */
  lemma UnderDirectory(top: string, d: string, s: string)
    requires s != "" && '/' !in s
    ensures Paths.BaseName(top + "/" + Paths.Join([d, s])) == s
  {
    Paths.JoinTwo(d, s);
    if d == "" {
      LastIndexOfJoined(top, '/', s);
    } else {
      assert top + "/" + (d + "/" + s) == (top + "/" + d) + "/" + s;
      LastIndexOfJoined(top + "/" + d, '/', s);
    }
  }

  /** `Join([d, s])` for a base name `s` without `/` determines `d`. */
  lemma JoinDeterminesDir(d1: string, d2: string, s: string)
    requires s != "" && '/' !in s
    requires Paths.Join([d1, s]) == Paths.Join([d2, s])
    ensures d1 == d2
  {
    Paths.JoinTwo(d1, s);
    Paths.JoinTwo(d2, s);
    if d1 != "" && d2 != "" {
      CancelRight(d1 + "/", d2 + "/", s);
      CancelRight(d1, d2, "/");
    }
  }

  /** Two images share a thumbnail exactly when they share a directory and a stem. */
  lemma ThumbnailPathsCoincide(a: string, b: string)
    ensures ThumbnailPath(a) == ThumbnailPath(b) <==>
      Paths.DirName(a) == Paths.DirName(b) && Paths.StemName(a) == Paths.StemName(b)
  {
    if ThumbnailPath(a) == ThumbnailPath(b) {
      var sa := Paths.StemName(a);
      var sb := Paths.StemName(b);
      var top := Config.ThumbnailsDir + "/";
      var ja := Paths.Join([Paths.DirName(a), sa + ".jpg"]);
      var jb := Paths.Join([Paths.DirName(b), sb + ".jpg"]);
      CancelLeft(top, ja, jb);
      CancelRight(sa, sb, ".jpg");
      JoinDeterminesDir(Paths.DirName(a), Paths.DirName(b), sa + ".jpg");
    }
  }

  /** The directory and stem of `d/n.x` for a dot-free name `n`. */
  lemma DirAndStem(d: string, n: string, x: string)
    requires n != "" && '.' !in n && '/' !in n && '.' !in x && '/' !in x
    ensures Paths.DirName(d + "/" + n + "." + x) == d
    ensures Paths.StemName(d + "/" + n + "." + x) == n
  {
    var b := n + "." + x;
    Reassociate(d + "/" + n + "." + x, d + "/", n + ".", x);
    Reassociate(d + "/" + n + "." + x, d + "/", n, "." + x);
    Reassociate(b, n, ".", x);
    Paths.DirAndBaseOfJoined(d, b);
    Paths.ExtNameOfDotted(n, x);
    assert b[..|n|] == n;
  }

  /**
    `photo.png` and `photo.jpg` side by side share one thumbnail, so whichever is
    written last wins.
   */
  lemma ExtensionsShareThumbnail(d: string, n: string, x1: string, x2: string)
    requires n != "" && '.' !in n && '/' !in n
    requires '.' !in x1 && '/' !in x1 && '.' !in x2 && '/' !in x2
    ensures ThumbnailPath(d + "/" + n + "." + x1) == ThumbnailPath(d + "/" + n + "." + x2)
  {
    DirAndStem(d, n, x1);
    DirAndStem(d, n, x2);
  }

  /** The output is there and not older than its source (`out.mtimeMs >= src.mtimeMs`). */
  predicate UpToDate(out: Option<Node>, src: Node) {
    out.Some? && out.value.mtime >= src.mtime
  }

  datatype Ensured =
    | Cached(path: string)               // the existing output is fresh
    | Written(path: string, root: Node)  // the output was produced; `root` is the tree afterwards
    | Failed                             // a stat, the producer or the write threw

  /**
    The shared shape of `ensureThumbnail`, `ensureVideoThumbnail` and
    `ensureSocialExport`: keep a fresh output at `outPath`, else produce it from
    the source at `srcPath` and write it with the time `now`. `produce` stands for
    the image library (None when it cannot read the source).
   */
  function EnsureOutput(root: Node, srcPath: string, outPath: string,
                        produce: Node -> Option<string>, now: int): (r: Ensured)
    ensures var src := Lookup(root, srcPath);
      r.Cached? <==> src.Some? && UpToDate(Lookup(root, outPath), src.value)
    ensures !r.Failed? ==> r.path == outPath
    ensures r.Failed? <==>
      var src := Lookup(root, srcPath);
      src.None?
      || (!UpToDate(Lookup(root, outPath), src.value)
          && (produce(src.value).None? || WriteFile(root, outPath, File(now, produce(src.value).value), now).None?))
    ensures r.Written? ==>
      var src := Lookup(root, srcPath);
      src.Some? && produce(src.value).Some?
      && Lookup(r.root, outPath) == Some(File(now, produce(src.value).value))
  {
    var src := Lookup(root, srcPath);
    if src.None? then Failed
    else if UpToDate(Lookup(root, outPath), src.value) then Cached(outPath)
    else
      var bytes := produce(src.value);
      if bytes.None? then Failed
      else
        var after := WriteFile(root, outPath, File(now, bytes.value), now);
        if after.None? then Failed else Written(outPath, after.value)
  }

  /**
    Once written at a time no earlier than its source's, an output is fresh: the
    next request takes the fast path, provided output and source lie under
    different top-level directories.
   */
  lemma WrittenThenCached(root: Node, srcPath: string, outPath: string,
                          produce: Node -> Option<string>, now: int, later: int)
    requires EnsureOutput(root, srcPath, outPath, produce, now).Written?
    requires now >= Lookup(root, srcPath).value.mtime
    requires |Paths.Segments(srcPath)| > 0 && |Paths.Segments(outPath)| > 0
    requires Paths.Segments(srcPath)[0] != Paths.Segments(outPath)[0]
    ensures var r := EnsureOutput(root, srcPath, outPath, produce, now);
      EnsureOutput(r.root, srcPath, outPath, produce, later) == Cached(outPath)
  {
    var src := Lookup(root, srcPath).value;
    var n := File(now, produce(src).value);
    WriteFileElsewhere(root, outPath, srcPath, n, now);
  }

  /** Producing an output changes nothing outside the output's top-level directory. */
  lemma WrittenElsewhereUnchanged(root: Node, srcPath: string, outPath: string,
                                  produce: Node -> Option<string>, now: int, q: string)
    requires EnsureOutput(root, srcPath, outPath, produce, now).Written?
    requires |Paths.Segments(outPath)| > 0 && |Paths.Segments(q)| > 0
    requires Paths.Segments(outPath)[0] != Paths.Segments(q)[0]
    ensures Lookup(EnsureOutput(root, srcPath, outPath, produce, now).root, q) == Lookup(root, q)
  {
    var src := Lookup(root, srcPath).value;
    WriteFileElsewhere(root, outPath, q, File(now, produce(src).value), now);
  }

  /** The first segment of a thumbnail path is the thumbnails directory. */
  lemma ThumbnailSegments(rel: string)
    ensures |Paths.Segments(ThumbnailPath(rel))| > 0
    ensures Paths.Segments(ThumbnailPath(rel))[0] == Config.ThumbnailsDir
  {
    var d := Paths.DirName(rel);
    var s := Paths.StemName(rel) + ".jpg";
    Paths.SegmentsUnder(Config.ThumbnailsDir, Paths.Join([d, s]));
  }

  /** `ensureThumbnail`; `render` stands for sharp's resize to JPEG, None when it cannot decode the source. */
  function EnsureThumbnail(root: Node, rel: string, render: string -> Option<string>, now: int): (r: Ensured)
    ensures !r.Failed? ==> r.path == ThumbnailPath(rel)
    ensures r.Cached? <==>
      Lookup(root, rel).Some? && UpToDate(Lookup(root, ThumbnailPath(rel)), Lookup(root, rel).value)
    ensures r.Written? ==>
      var src := Lookup(root, rel);
      src.Some? && src.value.File? && render(src.value.content).Some?
      && Lookup(r.root, ThumbnailPath(rel)) == Some(File(now, render(src.value.content).value))
  {
    EnsureOutput(root, rel, ThumbnailPath(rel), (n: Node) => if n.File? then render(n.content) else None, now)
  }

  /** A thumbnail written for a source outside the thumbnails directory is served from cache afterwards. */
  lemma ThumbnailThenCached(root: Node, rel: string, render: string -> Option<string>, now: int, later: int)
    requires EnsureThumbnail(root, rel, render, now).Written?
    requires now >= Lookup(root, rel).value.mtime
    requires |Paths.Segments(rel)| > 0 && Paths.Segments(rel)[0] != Config.ThumbnailsDir
    ensures EnsureThumbnail(EnsureThumbnail(root, rel, render, now).root, rel, render, later)
      == Cached(ThumbnailPath(rel))
  {
    ThumbnailSegments(rel);
    WrittenThenCached(root, rel, ThumbnailPath(rel),
                      (n: Node) => if n.File? then render(n.content) else None, now, later);
  }

  /** Writing a thumbnail changes nothing outside the thumbnails directory. */
  lemma ThumbnailWritesStayInside(root: Node, rel: string, render: string -> Option<string>, now: int, q: string)
    requires EnsureThumbnail(root, rel, render, now).Written?
    requires |Paths.Segments(q)| > 0 && Paths.Segments(q)[0] != Config.ThumbnailsDir
    ensures Lookup(EnsureThumbnail(root, rel, render, now).root, q) == Lookup(root, q)
  {
    ThumbnailSegments(rel);
    WrittenElsewhereUnchanged(root, rel, ThumbnailPath(rel),
                              (n: Node) => if n.File? then render(n.content) else None, now, q);
  }
}

/**
  Start-up pre-generation (`server/src/services/thumbnailQueue.ts`): collect
  every image of the portfolio and, recursively, of the albums, keep those whose
  thumbnail is missing or stale, and ensure each one's thumbnail.
 */
module ThumbnailQueue {
  import opened Wrappers
  import opened Text
  import opened Seqs
  import opened FileSystem
  import Paths
  import Config
  import Scanner
  import Thumbnail

  /** An image to pre-generate: its photos-relative path and its source's `mtimeMs`. */
  datatype ImageEntry = ImageEntry(relativePath: string, mtime: int)

  /** The `mtimeMs` of the entry `name` of `dir` (0 when absent, which the collection never asks for). */
  function MTimeOf(dir: Option<Node>, name: string): int {
    var c := Child(dir, name);
    if c.Some? then c.value.mtime else 0
  }

  /** The portfolio's part: what `listImageFiles` lists there, as `portfolio/<name>`. */
  function PortfolioImages(root: Node): seq<ImageEntry> {
    var dir := Lookup(root, Config.PortfolioDir);
    Map(Scanner.ListImageFiles(dir), (f: string) => ImageEntry(Config.PortfolioDir + "/" + f, MTimeOf(dir, f)))
  }

  /**
    `walkAlbums` over the listing `es` of the directory at `base`, in directory
    order: dot-names are skipped, image-named files are collected, other
    directories are entered.
   */
  function WalkAlbums(es: seq<Entry>, base: string): seq<ImageEntry>
    decreases es
  {
    if |es| == 0 then []
    else
      var e := es[0];
      var path := base + "/" + e.name;
      (if StartsWith(e.name, ".") then []
       else if e.node.File? && Scanner.IsImageFile(e.name) then [ImageEntry(path, e.node.mtime)]
       else if e.node.Dir? then WalkAlbums(e.node.entries, path)
       else [])
      + WalkAlbums(es[1..], base)
  }

  /** `collectAllImages`: the portfolio's images, then the albums' images. */
  function CollectAllImages(root: Node): seq<ImageEntry> {
    var albums := Listing(Lookup(root, Config.AlbumsDir));
    PortfolioImages(root) + (if albums.Some? then WalkAlbums(albums.value, Config.AlbumsDir) else [])
  }

  /** A collected image is found at its path with its recorded time, and is image-named. */
  predicate Resolves(root: Node, x: ImageEntry) {
    var n := Lookup(root, x.relativePath);
    n.Some? && n.value.mtime == x.mtime && Scanner.IsImageFile(Paths.BaseName(x.relativePath))
  }

  lemma {:induction false} WalkAlbumsSound(root: Node, base: string, es: seq<Entry>)
    requires WellFormedEntries(es)
    requires forall i :: 0 <= i < |es| ==> Child(Lookup(root, base), es[i].name) == Some(es[i].node)
    ensures forall x :: x in WalkAlbums(es, base) ==> Resolves(root, x) && Lookup(root, x.relativePath).value.File?
    decreases es
  {
    if |es| > 0 {
      var e := es[0];
      var path := base + "/" + e.name;
      var head := if StartsWith(e.name, ".") then []
        else if e.node.File? && Scanner.IsImageFile(e.name) then [ImageEntry(path, e.node.mtime)]
        else if e.node.Dir? then WalkAlbums(e.node.entries, path)
        else [];
      assert WalkAlbums(es, base) == head + WalkAlbums(es[1..], base);
      if !StartsWith(e.name, ".") && e.node.File? && Scanner.IsImageFile(e.name) {
        ImageFileResolves(root, base, e);
      } else if !StartsWith(e.name, ".") && e.node.Dir? {
        SubdirectoryListed(root, base, es);
        WalkAlbumsSound(root, path, e.node.entries);
      }
      TailListed(root, base, es);
      WalkAlbumsSound(root, base, es[1..]);
    }
  }

  lemma ImageFileResolves(root: Node, base: string, e: Entry)
    requires ValidName(e.name) && e.node.File? && Scanner.IsImageFile(e.name)
    requires Child(Lookup(root, base), e.name) == Some(e.node)
    ensures var x := ImageEntry(base + "/" + e.name, e.node.mtime);
      Resolves(root, x) && Lookup(root, x.relativePath).value.File?
  {
    LookupChild(root, base, e.name);
    Paths.DirAndBaseOfJoined(base, e.name);
  }

  lemma SubdirectoryListed(root: Node, base: string, es: seq<Entry>)
    requires |es| > 0 && es[0].node.Dir? && WellFormedEntries(es)
    requires Child(Lookup(root, base), es[0].name) == Some(es[0].node)
    ensures WellFormedEntries(es[0].node.entries)
    ensures forall i :: 0 <= i < |es[0].node.entries| ==>
      Child(Lookup(root, base + "/" + es[0].name), es[0].node.entries[i].name) == Some(es[0].node.entries[i].node)
  {
    LookupChild(root, base, es[0].name);
    ChildrenOfListing(Some(es[0].node));
  }

  lemma TailListed(root: Node, base: string, es: seq<Entry>)
    requires |es| > 0 && WellFormedEntries(es)
    requires forall i :: 0 <= i < |es| ==> Child(Lookup(root, base), es[i].name) == Some(es[i].node)
    ensures WellFormedEntries(es[1..])
    ensures forall i :: 0 <= i < |es[1..]| ==> Child(Lookup(root, base), es[1..][i].name) == Some(es[1..][i].node)
  {
    var tail := es[1..];
    assert forall i :: 0 <= i < |tail| ==> tail[i] == es[i + 1];
    assert WellFormedEntries(tail);
  }

  /**
    Nothing visible is missed: at every level, an image-named file whose name
    does not start with `.` is collected, and so is everything below such a directory.
   */
  lemma {:induction false} WalkAlbumsComplete(es: seq<Entry>, base: string, i: nat)
    requires i < |es| && !StartsWith(es[i].name, ".")
    ensures es[i].node.File? && Scanner.IsImageFile(es[i].name) ==>
      ImageEntry(base + "/" + es[i].name, es[i].node.mtime) in WalkAlbums(es, base)
    ensures es[i].node.Dir? ==>
      forall x :: x in WalkAlbums(es[i].node.entries, base + "/" + es[i].name) ==> x in WalkAlbums(es, base)
    decreases i
  {
    var e := es[0];
    var head := if StartsWith(e.name, ".") then []
      else if e.node.File? && Scanner.IsImageFile(e.name) then [ImageEntry(base + "/" + e.name, e.node.mtime)]
      else if e.node.Dir? then WalkAlbums(e.node.entries, base + "/" + e.name)
      else [];
    assert WalkAlbums(es, base) == head + WalkAlbums(es[1..], base);
    if i > 0 {
      assert es[1..][i - 1] == es[i];
      WalkAlbumsComplete(es[1..], base, i - 1);
    }
  }

  lemma TopNamesValid()
    ensures ValidName(Config.PortfolioDir) && ValidName(Config.AlbumsDir)
  {
  }

  lemma PortfolioImagesResolve(root: Node)
    requires root.Dir? && WellFormedEntries(root.entries)
    ensures forall x :: x in PortfolioImages(root) ==> Resolves(root, x)
  {
    TopNamesValid();
    LookupTop(root, Config.PortfolioDir);
    var portfolio := Lookup(root, Config.PortfolioDir);
    var files := Scanner.ListImageFiles(portfolio);
    forall k | 0 <= k < |files|
      ensures Resolves(root, PortfolioImages(root)[k])
    {
      PortfolioImageResolves(root, files[k]);
    }
  }

  lemma PortfolioImageResolves(root: Node, f: string)
    requires root.Dir? && WellFormedEntries(root.entries)
    requires f in Scanner.ListImageFiles(Lookup(root, Config.PortfolioDir))
    ensures var p := Config.PortfolioDir + "/" + f;
      Lookup(root, p).Some? && Lookup(root, p).value.mtime == MTimeOf(Lookup(root, Config.PortfolioDir), f)
      && Scanner.IsImageFile(Paths.BaseName(p))
  {
    TopNamesValid();
    LookupTop(root, Config.PortfolioDir);
    var portfolio := Lookup(root, Config.PortfolioDir);
    assert Listing(portfolio).Some? && f in Names(Listing(portfolio).value) && Scanner.IsListedImage(f);
    WellFormedChild(root.entries, Config.PortfolioDir);
    var es := Listing(portfolio).value;
    var j :| 0 <= j < |es| && es[j].name == f;
    assert ValidName(f);
    FindDistinct(es, j);
    assert Child(portfolio, f) == Some(es[j].node);
    LookupChild(root, Config.PortfolioDir, f);
    Paths.DirAndBaseOfJoined(Config.PortfolioDir, f);
  }

  /** Every collected image resolves in a well-formed tree, portfolio and albums alike. */
  lemma CollectedImagesResolve(root: Node)
    requires root.Dir? && WellFormedEntries(root.entries)
    ensures forall x :: x in CollectAllImages(root) ==> Resolves(root, x)
  {
    PortfolioImagesResolve(root);
    TopNamesValid();
    LookupTop(root, Config.AlbumsDir);
    var albums := Listing(Lookup(root, Config.AlbumsDir));
    if albums.Some? {
      WellFormedChild(root.entries, Config.AlbumsDir);
      ChildrenOfListing(Lookup(root, Config.AlbumsDir));
      WalkAlbumsSound(root, Config.AlbumsDir, albums.value);
    }
  }

  /**
    The albums walk hides only dot-names, so images inside a Synology `@eaDir`
    folder are collected for pre-generation.
   */
  lemma SynologyImagesCollected(f: string, m: int)
    requires Scanner.IsImageFile(f) && !StartsWith(f, ".")
    ensures WalkAlbums([Entry("@eaDir", Dir(0, [Entry(f, File(m, ""))]))], "albums")
      == [ImageEntry("albums/@eaDir/" + f, m)]
  {
    assert "@eaDir"[0] != '.';
    WalkNestedImage("albums", "@eaDir", f, m);
    EaDirPath(f);
  }

  lemma EaDirPath(f: string)
    ensures "albums" + "/" + "@eaDir" + "/" + f == "albums/@eaDir/" + f
  {
    assert "albums" + "/" + "@eaDir" + "/" == "albums/@eaDir/";
  }

  lemma WalkNestedImage(base: string, d: string, f: string, m: int)
    requires Scanner.IsImageFile(f) && !StartsWith(f, ".") && !StartsWith(d, ".")
    ensures WalkAlbums([Entry(d, Dir(0, [Entry(f, File(m, ""))]))], base) == [ImageEntry(base + "/" + d + "/" + f, m)]
  {
    WalkOneDirectory(base, d, [Entry(f, File(m, ""))]);
    WalkOneFile(base + "/" + d, f, m);
  }

  lemma WalkOneFile(base: string, f: string, m: int)
    requires Scanner.IsImageFile(f) && !StartsWith(f, ".")
    ensures WalkAlbums([Entry(f, File(m, ""))], base) == [ImageEntry(base + "/" + f, m)]
  {
    assert [Entry(f, File(m, ""))][1..] == [];
  }

  lemma WalkOneDirectory(base: string, d: string, es: seq<Entry>)
    requires !StartsWith(d, ".")
    ensures WalkAlbums([Entry(d, Dir(0, es))], base) == WalkAlbums(es, base + "/" + d)
  {
    assert [Entry(d, Dir(0, es))][1..] == [];
  }

  /** `needsThumbnail`: no thumbnail yet, or one older than the source. */
  predicate NeedsThumbnail(root: Node, x: ImageEntry) {
    var t := Lookup(root, Thumbnail.ThumbnailPath(x.relativePath));
    t.None? || t.value.mtime < x.mtime
  }

  /** The queue's test is the exact complement of the thumbnail service's fast path. */
  lemma NeedsThumbnailIffNotCached(root: Node, x: ImageEntry, render: string -> Option<string>, now: int)
    requires Resolves(root, x)
    ensures NeedsThumbnail(root, x) <==> !Thumbnail.EnsureThumbnail(root, x.relativePath, render, now).Cached?
  {
    var src := Lookup(root, x.relativePath);
    var t := Lookup(root, Thumbnail.ThumbnailPath(x.relativePath));
    var r := Thumbnail.EnsureThumbnail(root, x.relativePath, render, now);
    CachedIffFresh(r, src, t, x.mtime);
  }

  lemma CachedIffFresh(r: Thumbnail.Ensured, src: Option<Node>, t: Option<Node>, mtime: int)
    requires src.Some? && src.value.mtime == mtime
    requires r.Cached? <==> Thumbnail.UpToDate(t, src.value)
    ensures (t.None? || t.value.mtime < mtime) <==> !r.Cached?
  {
  }

  /** `allImages.filter(needsThumbnail)`. */
  function Pending(root: Node, all: seq<ImageEntry>): seq<ImageEntry> {
    Filter(all, (x: ImageEntry) => NeedsThumbnail(root, x))
  }

  lemma PendingMembers(root: Node, all: seq<ImageEntry>, x: ImageEntry)
    ensures x in Pending(root, all) <==> x in all && NeedsThumbnail(root, x)
  {
    FilterMembers(all, (x: ImageEntry) => NeedsThumbnail(root, x), x);
  }

  /**
    `preGenerateThumbnails`, one entry after another in queue order: every
    pending image is either completed or failed, and nothing outside the
    thumbnails directory changes.
   */
  method PreGenerate(root: Node, render: string -> Option<string>, now: int)
    returns (after: Node, completed: nat, failed: nat)
    ensures var pending := Pending(root, CollectAllImages(root));
      completed + failed == |pending|
      && (pending == [] ==> after == root)
    ensures forall q :: |Paths.Segments(q)| > 0 && Paths.Segments(q)[0] != Config.ThumbnailsDir ==>
      Lookup(after, q) == Lookup(root, q)
  {
    var pending := Pending(root, CollectAllImages(root));
    after, completed, failed := root, 0, 0;
    if |pending| == 0 {
      return;
    }
    var i := 0;
    while i < |pending|
      invariant i <= |pending|
      invariant completed + failed == i
      invariant forall q :: |Paths.Segments(q)| > 0 && Paths.Segments(q)[0] != Config.ThumbnailsDir ==>
        Lookup(after, q) == Lookup(root, q)
    {
      var rel := pending[i].relativePath;
      var r := Thumbnail.EnsureThumbnail(after, rel, render, now);
      if r.Failed? {
        failed := failed + 1;
      } else {
        if r.Written? {
          forall q | |Paths.Segments(q)| > 0 && Paths.Segments(q)[0] != Config.ThumbnailsDir
            ensures Lookup(r.root, q) == Lookup(root, q)
          {
            Thumbnail.ThumbnailWritesStayInside(after, rel, render, now, q);
          }
          after := r.root;
        }
        completed := completed + 1;
      }
      i := i + 1;
    }
  }
}
