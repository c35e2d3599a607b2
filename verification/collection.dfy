/**
  The image lists the aggregation routes walk: the portfolio, then every
  top-level album, then every album of every group, in the scan's order. The
  routes label an image with its album: `Portfolio`, the album's name, or
  `<group> / <album>`. `imagesOf` stands for `scanAlbumImages` and `skip` for
  the `ignorestats` marker check of an album path.
 */
module Collection {
  import opened Wrappers
  import opened Seqs
  import opened Types
  import Config

  /** An album (or the portfolio) as a route visits it. */
  datatype Source = Source(albumName: string, albumPath: string, images: seq<ImageInfo>)

  /** An image with the album label the map and search routes attach (`{ ...img, albumName, albumPath }`). */
  datatype Labelled = Labelled(image: ImageInfo, albumName: string, albumPath: string)

  function PortfolioSource(images: seq<ImageInfo>): Source {
    Source("Portfolio", Config.PortfolioDir, images)
  }

  function TopSource(a: AlbumInfo, imagesOf: string -> seq<ImageInfo>): Source {
    Source(a.name, a.path, imagesOf(a.path))
  }

  function GroupedSource(g: GroupInfo, a: AlbumInfo, imagesOf: string -> seq<ImageInfo>): Source {
    Source(g.name + " / " + a.name, a.path, imagesOf(a.path))
  }

  function TopSources(tree: AlbumTree, imagesOf: string -> seq<ImageInfo>): seq<Source> {
    Map(tree.albums, (a: AlbumInfo) => TopSource(a, imagesOf))
  }

  function GroupSources(g: GroupInfo, imagesOf: string -> seq<ImageInfo>): seq<Source> {
    Map(g.albums, (a: AlbumInfo) => GroupedSource(g, a, imagesOf))
  }

  function GroupedSources(tree: AlbumTree, imagesOf: string -> seq<ImageInfo>): seq<Source> {
    Flatten(Map(tree.groups, (g: GroupInfo) => GroupSources(g, imagesOf)))
  }

  /** Whether a route keeps the album at `path`. */
  function Kept(skip: string -> bool): Source -> bool {
    (s: Source) => !skip(s.albumPath)
  }

  /**
    The sources a route visits, in order: the portfolio when it is included,
    the top-level albums, then each group's albums, leaving out the albums
    `skip` names.
   */
  function Sources(portfolio: Option<seq<ImageInfo>>, tree: AlbumTree, imagesOf: string -> seq<ImageInfo>,
                   skip: string -> bool): seq<Source> {
    (if portfolio.Some? then [PortfolioSource(portfolio.value)] else [])
      + Filter(TopSources(tree, imagesOf), Kept(skip))
      + Filter(GroupedSources(tree, imagesOf), Kept(skip))
  }

  /** A route visits the portfolio (when included), and exactly the albums of the tree that it does not skip. */
  lemma SourcesMembers(portfolio: Option<seq<ImageInfo>>, tree: AlbumTree, imagesOf: string -> seq<ImageInfo>,
                       skip: string -> bool, s: Source)
    ensures s in Sources(portfolio, tree, imagesOf, skip) <==>
      (portfolio.Some? && s == PortfolioSource(portfolio.value))
      || (!skip(s.albumPath) && exists a :: a in tree.albums && s == TopSource(a, imagesOf))
      || (!skip(s.albumPath) && exists g, a :: g in tree.groups && a in g.albums && s == GroupedSource(g, a, imagesOf))
  {
    var tops := TopSources(tree, imagesOf);
    var grouped := GroupedSources(tree, imagesOf);
    FilterMembers(tops, Kept(skip), s);
    FilterMembers(grouped, Kept(skip), s);
    assert s in tops <==> exists a :: a in tree.albums && s == TopSource(a, imagesOf) by {
      if s in tops {
        var i :| 0 <= i < |tops| && tops[i] == s;
        assert tree.albums[i] in tree.albums;
      }
    }
    GroupedMembers(tree, imagesOf, s);
  }

  lemma GroupedMembers(tree: AlbumTree, imagesOf: string -> seq<ImageInfo>, s: Source)
    ensures s in GroupedSources(tree, imagesOf) <==>
      exists g, a :: g in tree.groups && a in g.albums && s == GroupedSource(g, a, imagesOf)
  {
    if s in GroupedSources(tree, imagesOf) {
      GroupedFromGroup(tree, imagesOf, s);
    }
    if exists g, a :: g in tree.groups && a in g.albums && s == GroupedSource(g, a, imagesOf) {
      var g, a :| g in tree.groups && a in g.albums && s == GroupedSource(g, a, imagesOf);
      GroupAlbumIsGrouped(tree, imagesOf, g, a);
    }
  }

  lemma GroupedFromGroup(tree: AlbumTree, imagesOf: string -> seq<ImageInfo>, s: Source)
    requires s in GroupedSources(tree, imagesOf)
    ensures exists g, a :: g in tree.groups && a in g.albums && s == GroupedSource(g, a, imagesOf)
  {
    var parts := Map(tree.groups, (g: GroupInfo) => GroupSources(g, imagesOf));
    FlattenMembers(parts, s);
    var k :| 0 <= k < |parts| && s in parts[k];
    var g := tree.groups[k];
    assert parts[k] == GroupSources(g, imagesOf);
    var i :| 0 <= i < |g.albums| && GroupSources(g, imagesOf)[i] == s;
    assert s == GroupedSource(g, g.albums[i], imagesOf);
    assert g in tree.groups && g.albums[i] in g.albums;
  }

  lemma GroupAlbumIsGrouped(tree: AlbumTree, imagesOf: string -> seq<ImageInfo>, g: GroupInfo, a: AlbumInfo)
    requires g in tree.groups && a in g.albums
    ensures GroupedSource(g, a, imagesOf) in GroupedSources(tree, imagesOf)
  {
    var s := GroupedSource(g, a, imagesOf);
    var parts := Map(tree.groups, (g: GroupInfo) => GroupSources(g, imagesOf));
    var k :| 0 <= k < |tree.groups| && tree.groups[k] == g;
    var i :| 0 <= i < |g.albums| && g.albums[i] == a;
    assert parts[k] == GroupSources(g, imagesOf);
    assert parts[k][i] == s;
    FlattenMembers(parts, s);
  }

  /** Every image of the visited sources, source by source (`allImages.push(...images)`). */
  function AllImages(sources: seq<Source>): seq<ImageInfo> {
    Flatten(Map(sources, (s: Source) => s.images))
  }

  /** The images of one source that pass `keep`, labelled with the source. */
  function LabelAll(s: Source, keep: ImageInfo -> bool): seq<Labelled> {
    Map(Filter(s.images, keep), (img: ImageInfo) => Labelled(img, s.albumName, s.albumPath))
  }

  /** The images that pass `keep`, labelled, source after source, each in scan order. */
  function Pick(sources: seq<Source>, keep: ImageInfo -> bool): seq<Labelled> {
    Flatten(Map(sources, (s: Source) => LabelAll(s, keep)))
  }

  /** A labelled image is picked exactly when it passes and one visited source holds it under that label. */
  lemma PickMembers(sources: seq<Source>, keep: ImageInfo -> bool, x: Labelled)
    ensures x in Pick(sources, keep) <==>
      keep(x.image) && exists s :: s in sources && x.image in s.images
                                   && x.albumName == s.albumName && x.albumPath == s.albumPath
  {
    if x in Pick(sources, keep) {
      PickedFromSource(sources, keep, x);
    }
    if keep(x.image) && exists s :: s in sources && x.image in s.images
                                    && x.albumName == s.albumName && x.albumPath == s.albumPath {
      var s :| s in sources && x.image in s.images && x.albumName == s.albumName && x.albumPath == s.albumPath;
      HeldIsPicked(sources, keep, x, s);
    }
  }

  lemma PickedFromSource(sources: seq<Source>, keep: ImageInfo -> bool, x: Labelled)
    requires x in Pick(sources, keep)
    ensures keep(x.image) && exists s :: s in sources && x.image in s.images
                                         && x.albumName == s.albumName && x.albumPath == s.albumPath
  {
    var parts := Map(sources, (s: Source) => LabelAll(s, keep));
    FlattenMembers(parts, x);
    var k :| 0 <= k < |parts| && x in parts[k];
    var s := sources[k];
    var kept := Filter(s.images, keep);
    assert parts[k] == LabelAll(s, keep);
    var i :| 0 <= i < |parts[k]| && parts[k][i] == x;
    assert x == Labelled(kept[i], s.albumName, s.albumPath);
    FilterMembers(s.images, keep, x.image);
    assert s in sources;
  }

  lemma HeldIsPicked(sources: seq<Source>, keep: ImageInfo -> bool, x: Labelled, s: Source)
    requires s in sources && keep(x.image) && x.image in s.images
    requires x.albumName == s.albumName && x.albumPath == s.albumPath
    ensures x in Pick(sources, keep)
  {
    var parts := Map(sources, (s: Source) => LabelAll(s, keep));
    var k :| 0 <= k < |sources| && sources[k] == s;
    FilterMembers(s.images, keep, x.image);
    var kept := Filter(s.images, keep);
    var i :| 0 <= i < |kept| && kept[i] == x.image;
    assert parts[k] == LabelAll(s, keep);
    assert parts[k][i] == x;
    FlattenMembers(parts, x);
  }

  /** Picking from two runs of sources is picking from each, one after the other. */
  lemma PickConcat(a: seq<Source>, b: seq<Source>, keep: ImageInfo -> bool)
    ensures Pick(a + b, keep) == Pick(a, keep) + Pick(b, keep)
  {
    var f := (s: Source) => LabelAll(s, keep);
    MapConcat(a, b, f);
    FlattenConcat(Map(a, f), Map(b, f));
  }

  /**
    The results come portfolio first, then the top-level albums, then the
    grouped albums.
   */
  lemma PickOrder(portfolio: Option<seq<ImageInfo>>, tree: AlbumTree, imagesOf: string -> seq<ImageInfo>,
                  skip: string -> bool, keep: ImageInfo -> bool)
    ensures Pick(Sources(portfolio, tree, imagesOf, skip), keep)
      == (if portfolio.Some? then LabelAll(PortfolioSource(portfolio.value), keep) else [])
         + Pick(Filter(TopSources(tree, imagesOf), Kept(skip)), keep)
         + Pick(Filter(GroupedSources(tree, imagesOf), Kept(skip)), keep)
  {
    var first := if portfolio.Some? then [PortfolioSource(portfolio.value)] else [];
    var tops := Filter(TopSources(tree, imagesOf), Kept(skip));
    var grouped := Filter(GroupedSources(tree, imagesOf), Kept(skip));
    PickConcat(first + tops, grouped, keep);
    PickConcat(first, tops, keep);
    if portfolio.Some? {
      assert Pick(first, keep) == LabelAll(PortfolioSource(portfolio.value), keep) + Flatten([]);
    }
  }
}

/** `GET /api/tags` (`server/src/routes/tags.ts`): every keyword with the number of times it is used. */
module TagsRoute {
  import opened Wrappers
  import opened Seqs
  import opened Types
  import opened Frequency
  import opened Collection

  /** `img.exif?.keywords`, or nothing. */
  function Keywords(img: ImageInfo): seq<string> {
    var k := KeywordsOf(img);
    if k.Some? then k.value else []
  }

  /** Every keyword use, image after image; a keyword repeated within an image is used twice. */
  function KeywordUses(images: seq<ImageInfo>): seq<string> {
    Flatten(Map(images, Keywords))
  }

  /** The images the tag cloud counts: the portfolio unless it is ignored, and every album not ignored. */
  function Counted(portfolio: seq<ImageInfo>, portfolioIgnored: bool, tree: AlbumTree,
                   imagesOf: string -> seq<ImageInfo>, ignored: string -> bool): seq<ImageInfo> {
    AllImages(Sources(if portfolioIgnored then None else Some(portfolio), tree, imagesOf, ignored))
  }

  /** The response's `tags`: one entry per keyword, most used first. */
  function Tags(portfolio: seq<ImageInfo>, portfolioIgnored: bool, tree: AlbumTree,
                imagesOf: string -> seq<ImageInfo>, ignored: string -> bool): (r: seq<Count>)
    ensures forall i, j :: 0 <= i < j < |r| ==> r[i].count >= r[j].count
  {
    ToSorted(Tally(KeywordUses(Counted(portfolio, portfolioIgnored, tree, imagesOf, ignored))))
  }

  /**
    Each tag is a used keyword counted once per use, summed over the counted
    images; every used keyword has an entry, and no keyword has two.
   */
  lemma TagCounts(portfolio: seq<ImageInfo>, portfolioIgnored: bool, tree: AlbumTree,
                  imagesOf: string -> seq<ImageInfo>, ignored: string -> bool)
    ensures var images := Counted(portfolio, portfolioIgnored, tree, imagesOf, ignored);
      var r := Tags(portfolio, portfolioIgnored, tree, imagesOf, ignored);
      && (forall i :: 0 <= i < |r| ==>
            r[i].count == Sum(Map(Map(images, Keywords), (s: seq<string>) => Occurrences(s, r[i].name) as int))
            && r[i].count > 0)
      && (forall k :: k in KeywordUses(images) ==> exists i :: 0 <= i < |r| && r[i].name == k)
      && (forall i, j :: 0 <= i < j < |r| ==> r[i].name != r[j].name)
  {
    var images := Counted(portfolio, portfolioIgnored, tree, imagesOf, ignored);
    var uses := KeywordUses(images);
    var r := Tags(portfolio, portfolioIgnored, tree, imagesOf, ignored);
    SortedTally(uses);
    forall i | 0 <= i < |r|
      ensures r[i].count == Sum(Map(Map(images, Keywords), (s: seq<string>) => Occurrences(s, r[i].name) as int))
      ensures r[i].count > 0
    {
      OccurrencesFlatten(Map(images, Keywords), r[i].name);
      assert r[i].name in multiset(uses);
    }
    forall k | k in uses
      ensures exists i :: 0 <= i < |r| && r[i].name == k
    {
      var i :| 0 <= i < |r| && r[i] == Count(k, Occurrences(uses, k));
    }
  }
}

/** `GET /api/search?q=` (`server/src/routes/search.ts`): images with a keyword containing the query. */
module SearchRoute {
  import opened Wrappers
  import opened Text
  import opened Seqs
  import opened Types
  import opened Collection

  /** `(q || '').toLowerCase().trim()`. */
  function Query(q: Option<string>): string {
    Trim(Lower(q.GetOr("")))
  }

  /** `img.exif?.keywords?.some(k => k.toLowerCase().includes(query))`. */
  predicate Matches(img: ImageInfo, query: string) {
    var kws := KeywordsOf(img);
    kws.Some? && exists i :: 0 <= i < |kws.value| && Contains(Lower(kws.value[i]), query)
  }

  function Matching(query: string): ImageInfo -> bool {
    (img: ImageInfo) => Matches(img, query)
  }

  /** The response's `results`: nothing for a blank query, else the matching images, labelled. */
  function Search(q: Option<string>, portfolio: seq<ImageInfo>, portfolioIgnored: bool, tree: AlbumTree,
                  imagesOf: string -> seq<ImageInfo>, ignored: string -> bool): (r: seq<Labelled>)
    ensures Query(q) == "" ==> r == []
    ensures forall i :: 0 <= i < |r| ==> Matches(r[i].image, Query(q))
  {
    var query := Query(q);
    if query == "" then []
    else
      var sources := Sources(if portfolioIgnored then None else Some(portfolio), tree, imagesOf, ignored);
      var r := Pick(sources, Matching(query));
      forall i | 0 <= i < |r|
        ensures Matches(r[i].image, query)
      {
        PickMembers(sources, Matching(query), r[i]);
      }
      r
  }

  /**
    A labelled image is a result exactly when the query is not blank, the
    image matches it, and a visited album holds the image under that label.
   */
  lemma SearchMembers(q: Option<string>, portfolio: seq<ImageInfo>, portfolioIgnored: bool, tree: AlbumTree,
                      imagesOf: string -> seq<ImageInfo>, ignored: string -> bool, x: Labelled)
    ensures x in Search(q, portfolio, portfolioIgnored, tree, imagesOf, ignored) <==>
      Query(q) != "" && Matches(x.image, Query(q))
      && exists s :: s in Sources(if portfolioIgnored then None else Some(portfolio), tree, imagesOf, ignored)
                     && x.image in s.images && x.albumName == s.albumName && x.albumPath == s.albumPath
  {
    if Query(q) != "" {
      PickMembers(Sources(if portfolioIgnored then None else Some(portfolio), tree, imagesOf, ignored),
                  Matching(Query(q)), x);
    }
  }
}

/** `GET /api/map` (`server/src/routes/map.ts`): every geotagged image, labelled. */
module MapRoute {
  import opened Wrappers
  import opened Seqs
  import opened Types
  import opened Collection

  /** `img.exif?.gps`. */
  predicate HasGps(img: ImageInfo) {
    img.exif.Some? && img.exif.value.gps.Some?
  }

  /** Albums are never skipped here: the route has no `ignorestats` check. */
  function NoSkip(): string -> bool {
    (p: string) => false
  }

  /** The response's `images`. */
  function MapImages(portfolio: seq<ImageInfo>, tree: AlbumTree, imagesOf: string -> seq<ImageInfo>)
    : (r: seq<Labelled>)
    ensures forall i :: 0 <= i < |r| ==> HasGps(r[i].image)
  {
    var sources := Sources(Some(portfolio), tree, imagesOf, NoSkip());
    var r := Pick(sources, HasGps);
    forall i | 0 <= i < |r|
      ensures HasGps(r[i].image)
    {
      PickMembers(sources, HasGps, r[i]);
    }
    r
  }

  /** Every geotagged image of the portfolio, of any album and of any group's album is on the map, labelled. */
  lemma EveryGeotaggedImageShown(portfolio: seq<ImageInfo>, tree: AlbumTree, imagesOf: string -> seq<ImageInfo>,
                                 s: Source, img: ImageInfo)
    requires s == PortfolioSource(portfolio)
      || (exists a :: a in tree.albums && s == TopSource(a, imagesOf))
      || (exists g, a :: g in tree.groups && a in g.albums && s == GroupedSource(g, a, imagesOf))
    requires img in s.images && HasGps(img)
    ensures Labelled(img, s.albumName, s.albumPath) in MapImages(portfolio, tree, imagesOf)
  {
    var sources := Sources(Some(portfolio), tree, imagesOf, NoSkip());
    SourcesMembers(Some(portfolio), tree, imagesOf, NoSkip(), s);
    PickMembers(sources, HasGps, Labelled(img, s.albumName, s.albumPath));
  }

  /** The portfolio's geotagged images come first, labelled `Portfolio`. */
  lemma PortfolioFirst(portfolio: seq<ImageInfo>, tree: AlbumTree, imagesOf: string -> seq<ImageInfo>)
    ensures var p := LabelAll(PortfolioSource(portfolio), HasGps);
      MapImages(portfolio, tree, imagesOf)[..|p|] == p
  {
    PickOrder(Some(portfolio), tree, imagesOf, NoSkip(), HasGps);
  }
}
