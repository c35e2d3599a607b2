/**
  Video poster frames (`server/src/services/videoThumbnail.ts`): the frame is
  taken a configured number of seconds in, or at the start of a shorter video,
  and stored where an image's thumbnail would be.
 */
module VideoThumbnail {
  import opened Wrappers
  import opened Text
  import opened FileSystem
  import Paths
  import Config
  import Scanner
  import Thumbnail

  const VideoExtensions: seq<string> := [".mp4", ".mov", ".webm", ".m4v", ".mkv"]

  /** `isVideoFile`: the lower-cased extension is a video extension. */
  predicate IsVideoFile(name: string) {
    Lower(Paths.ExtName(name)) in VideoExtensions
  }

  /** No name is both a video and an image. */
  lemma VideoIsNotImage(name: string)
    ensures !(IsVideoFile(name) && Scanner.IsImageFile(name))
  {
    ExtensionListsDisjoint(Lower(Paths.ExtName(name)));
  }

  lemma ExtensionListsDisjoint(e: string)
    ensures !(e in VideoExtensions && e in Config.ImageExtensions)
  {
    if e in VideoExtensions {
      // Every video extension has `m` second or ends in `m` after `.web`; no image extension does.
      assert forall i :: 0 <= i < |VideoExtensions| ==>
        |VideoExtensions[i]| >= 4 && (VideoExtensions[i][1] == 'm' || (|VideoExtensions[i]| == 5 && VideoExtensions[i][4] == 'm'));
      assert forall i :: 0 <= i < |Config.ImageExtensions| ==>
        |Config.ImageExtensions[i]| >= 4 && Config.ImageExtensions[i][1] != 'm'
        && (|Config.ImageExtensions[i]| == 5 ==> Config.ImageExtensions[i][4] != 'm');
    }
  }

  /** One entry of ffprobe's `streams`. */
  datatype Stream = Stream(codecType: string, width: Option<int>, height: Option<int>)

  /** ffprobe's answer: None when it failed or printed no JSON; otherwise `streams` and `format.duration`. */
  datatype Probe =
    | ProbeFailed
    | Probed(streams: Option<seq<Stream>>, duration: Option<string>)

  /** The probed size and duration; a duration of None stands for NaN. */
  datatype VideoMetadata = VideoMetadata(width: int, height: int, duration: Option<real>)

  /** `streams.find(s => s.codec_type === 'video')`. */
  function FindVideoStream(streams: seq<Stream>): (r: Option<Stream>)
    ensures r.None? <==> forall i :: 0 <= i < |streams| ==> streams[i].codecType != "video"
    ensures r.Some? ==>
      exists i :: 0 <= i < |streams| && streams[i] == r.value && r.value.codecType == "video"
                  && forall j :: 0 <= j < i ==> streams[j].codecType != "video"
  {
    if |streams| == 0 then None
    else if streams[0].codecType == "video" then Some(streams[0])
    else
      var r := FindVideoStream(streams[1..]);
      assert r.Some? ==> (exists i :: 1 <= i < |streams| && streams[i] == r.value && r.value.codecType == "video"
                                    && forall j :: 0 <= j < i ==> streams[j].codecType != "video") by {
        if r.Some? {
          var k :| 0 <= k < |streams[1..]| && streams[1..][k] == r.value && r.value.codecType == "video"
                   && forall j :: 0 <= j < k ==> streams[1..][j].codecType != "video";
          assert streams[k + 1] == r.value;
        }
      }
      r
  }

  /** `value || 0` for a JSON number: absent and zero both give 0. */
  function OrZero(v: Option<int>): int {
    if v.Some? then v.value else 0
  }

  /**
    `getVideoMetadata`: the first video stream's size and the container's
    duration, each 0 when missing; all 0 when ffprobe fails. `parseFloat` is
    JavaScript's, applied only to a non-empty duration (`parseFloat('0')` is 0),
    None for NaN (ffprobe prints `N/A` for an unknown duration).
   */
  function GetVideoMetadata(probe: Probe, parseFloat: string -> Option<real>): (m: VideoMetadata)
    ensures probe.ProbeFailed? ==> m == VideoMetadata(0, 0, Some(0.0))
    ensures probe.Probed? && (probe.streams.None? || FindVideoStream(probe.streams.value).None?) ==>
      m.width == 0 && m.height == 0
    ensures probe.Probed? && probe.streams.Some? && FindVideoStream(probe.streams.value).Some? ==>
      var v := FindVideoStream(probe.streams.value).value;
      v.codecType == "video" && m.width == OrZero(v.width) && m.height == OrZero(v.height)
    ensures probe.Probed? && (probe.duration.None? || probe.duration.value == "") ==> m.duration == Some(0.0)
    ensures probe.Probed? && probe.duration.Some? && probe.duration.value != "" ==>
      m.duration == parseFloat(probe.duration.value)
  {
    match probe
    case ProbeFailed => VideoMetadata(0, 0, Some(0.0))
    case Probed(streams, duration) =>
      var v := if streams.Some? then FindVideoStream(streams.value) else None;
      var width := if v.Some? then OrZero(v.value.width) else 0;
      var height := if v.Some? then OrZero(v.value.height) else 0;
      var d := if duration.None? || duration.value == "" then Some(0.0) else parseFloat(duration.value);
      VideoMetadata(width, height, d)
  }

  /**
    The seek offset: the configured one, or the start when the video is shorter.
    A NaN duration is not shorter than anything, so it keeps the configured offset.
   */
  function FrameOffset(duration: Option<real>, configured: real): (o: real)
    ensures duration.None? ==> o == configured
    ensures duration.Some? ==> (o == configured <==> duration.value >= configured || configured == 0.0)
    ensures o == 0.0 || o == configured
    ensures duration.Some? && 0.0 <= duration.value && 0.0 <= configured ==> 0.0 <= o <= duration.value
  {
    if duration.Some? && duration.value < configured then 0.0 else configured
  }

  /** A video whose duration ffprobe could not tell is captured from its first frame. */
  lemma UnknownDurationSeeksToStart(parseFloat: string -> Option<real>, configured: real)
    ensures FrameOffset(GetVideoMetadata(ProbeFailed, parseFloat).duration, configured) == 0.0
      || configured <= 0.0
    ensures FrameOffset(GetVideoMetadata(Probed(None, None), parseFloat).duration, configured) == 0.0
      || configured <= 0.0
  {
  }

  /**
    A duration text that `parseFloat` cannot read (ffprobe's `N/A`) gives NaN,
    and the poster is then taken at the configured offset, not at the start.
   */
  lemma UnparsableDurationKeepsOffset(parseFloat: string -> Option<real>, configured: real, text: string)
    requires text != "" && parseFloat(text).None?
    ensures FrameOffset(GetVideoMetadata(Probed(None, Some(text)), parseFloat).duration, configured) == configured
  {
  }

  /** The poster's path as `ensureVideoThumbnail` builds it: `join(join(THUMBNAILS_DIR, dir), name + '.jpg')`. */
  function VideoThumbnailPath(rel: string): (t: string)
    ensures t == Thumbnail.ThumbnailPath(rel)
  {
    NestedJoin(Config.ThumbnailsDir, Paths.DirName(rel), Paths.StemName(rel) + ".jpg");
    Paths.Join([Paths.Join([Config.ThumbnailsDir, Paths.DirName(rel)]), Paths.StemName(rel) + ".jpg"])
  }

  /** Joining in two steps is joining at once. */
  lemma NestedJoin(top: string, d: string, s: string)
    requires top != "" && s != ""
    ensures Paths.Join([Paths.Join([top, d]), s]) == top + "/" + Paths.Join([d, s])
  {
    Paths.JoinTwo(top, d);
    if d == "" {
      Paths.JoinTwo(top, s);
      Paths.JoinTwo(d, s);
    } else {
      NestedJoinBelow(top, d, s);
    }
  }

  lemma NestedJoinBelow(top: string, d: string, s: string)
    requires top != "" && d != "" && s != ""
    ensures Paths.Join([top + "/" + d, s]) == top + "/" + Paths.Join([d, s])
  {
    Paths.JoinTwo(top + "/" + d, s);
    Paths.JoinTwo(d, s);
    JoinAssoc(top, d, s);
  }

  lemma JoinAssoc(top: string, d: string, s: string)
    ensures (top + "/" + d) + "/" + s == top + "/" + (d + "/" + s)
  {
  }

  /** ffmpeg's frame for the source `n`, taken at the offset its probed duration allows. */
  function PosterFrame(n: Node, probeOf: Node -> Probe, parseFloat: string -> Option<real>,
                       extract: (Node, real) -> Option<string>, configured: real): Option<string> {
    extract(n, FrameOffset(GetVideoMetadata(probeOf(n), parseFloat).duration, configured))
  }

  /**
    `ensureVideoThumbnail`: `probeOf` stands for ffprobe on the source and
    `extract` for ffmpeg's capture of one frame at an offset.
   */
  function EnsureVideoThumbnail(root: Node, rel: string, probeOf: Node -> Probe, parseFloat: string -> Option<real>,
                                extract: (Node, real) -> Option<string>, configured: real, now: int)
    : (r: Thumbnail.Ensured)
    ensures !r.Failed? ==> r.path == Thumbnail.ThumbnailPath(rel)
    ensures r.Cached? <==>
      Lookup(root, rel).Some? && Thumbnail.UpToDate(Lookup(root, Thumbnail.ThumbnailPath(rel)), Lookup(root, rel).value)
    ensures r.Written? ==>
      var src := Lookup(root, rel);
      src.Some? && PosterFrame(src.value, probeOf, parseFloat, extract, configured).Some?
      && Lookup(r.root, Thumbnail.ThumbnailPath(rel))
         == Some(File(now, PosterFrame(src.value, probeOf, parseFloat, extract, configured).value))
  {
    var produce := (n: Node) => PosterFrame(n, probeOf, parseFloat, extract, configured);
    var t := VideoThumbnailPath(rel);
    assert t == Thumbnail.ThumbnailPath(rel);
    Thumbnail.EnsureOutput(root, rel, t, produce, now)
  }
}

/**
  Social-media exports (`server/src/services/socialExport.ts`): seven presets,
  a centre crop to the preset's aspect (or a fit inside a square for the one
  preset without a height), and the same freshness rule as thumbnails.
 */
module SocialExport {
  import opened Wrappers
  import opened Text
  import opened FileSystem
  import opened Numbers
  import Paths
  import Thumbnail

  datatype Format = Jpeg | Png

  datatype Preset = Preset(
    id: string,
    name: string,
    platform: string,
    width: nat,
    height: Option<nat>,   // None: fit within a square instead of cropping
    aspectRatio: string,
    format: Format,
    quality: nat,
    crop: bool)

  const Presets: seq<Preset> := [
    Preset("instagram-square", "Square", "Instagram", 1080, Some(1080), "1:1", Jpeg, 95, true),
    Preset("instagram-portrait", "Portrait", "Instagram", 1080, Some(1350), "4:5", Jpeg, 95, true),
    Preset("instagram-landscape", "Landscape", "Instagram", 1080, Some(566), "1.91:1", Jpeg, 95, true),
    Preset("instagram-stories", "Stories", "Instagram", 1080, Some(1920), "9:16", Jpeg, 95, true),
    Preset("facebook-optimized", "Optimized", "Facebook", 2048, None, "original", Png, 100, false),
    Preset("twitter-16x9", "16:9", "Twitter/X", 1600, Some(900), "16:9", Jpeg, 95, true),
    Preset("linkedin-post", "Post", "LinkedIn", 1200, Some(627), "1.91:1", Jpeg, 95, true)
  ]

  /** Preset ids are unique, so a lookup by id is unambiguous. */
  lemma PresetIdsDistinct()
    ensures forall i, j :: 0 <= i < j < |Presets| ==> Presets[i].id != Presets[j].id
  {
    var ids := ["instagram-square", "instagram-portrait", "instagram-landscape", "instagram-stories",
                "facebook-optimized", "twitter-16x9", "linkedin-post"];
    assert forall i :: 0 <= i < |Presets| ==> Presets[i].id == ids[i];
    // the lengths differ except for the portrait and Facebook ids, whose first letters do
    assert |ids[0]| == 16 && |ids[1]| == 18 && |ids[2]| == 19 && |ids[3]| == 17;
    assert |ids[4]| == 18 && |ids[5]| == 12 && |ids[6]| == 13;
    assert ids[1][0] == 'i' && ids[4][0] == 'f';
  }

  /** `find(p => p.id === id)` over `ps`. */
  function FindPreset(ps: seq<Preset>, id: string): (r: Option<Preset>)
    ensures r.Some? ==> r.value in ps && r.value.id == id
    ensures r.None? <==> forall i :: 0 <= i < |ps| ==> ps[i].id != id
  {
    if |ps| == 0 then None
    else if ps[0].id == id then Some(ps[0])
    else FindPreset(ps[1..], id)
  }

  /** `getPresetById`. */
  function GetPresetById(id: string): (r: Option<Preset>)
    ensures r.Some? ==> r.value in Presets && r.value.id == id
    ensures r.None? <==> forall i :: 0 <= i < |Presets| ==> Presets[i].id != id
  {
    FindPreset(Presets, id)
  }

  lemma {:induction false} FindPresetDistinct(ps: seq<Preset>, i: nat)
    requires i < |ps|
    requires forall a, b :: 0 <= a < b < |ps| ==> ps[a].id != ps[b].id
    ensures FindPreset(ps, ps[i].id) == Some(ps[i])
  {
    if i > 0 {
      assert ps[0].id != ps[i].id;
      FindPresetDistinct(ps[1..], i - 1);
    }
  }

  /** Every preset is found again by its own id. */
  lemma PresetLookupRoundTrip(i: nat)
    requires i < |Presets|
    ensures GetPresetById(Presets[i].id) == Some(Presets[i])
  {
    PresetIdsDistinct();
    FindPresetDistinct(Presets, i);
  }

  function Extension(p: Preset): string {
    if p.format == Png then "png" else "jpg"
  }

  /** `getSocialExportPath`: `<exports>/<dir>/<name>-<preset id>.<png|jpg>`. */
  function ExportPath(socialDir: string, rel: string, p: Preset): (t: string)
    ensures socialDir != "" && '/' !in p.id ==>
      Paths.BaseName(t) == Paths.StemName(rel) + "-" + p.id + "." + Extension(p)
      && t == socialDir + "/" + Paths.Join([Paths.DirName(rel), Paths.StemName(rel) + "-" + p.id + "." + Extension(p)])
  {
    var s := Paths.StemName(rel) + "-" + p.id + "." + Extension(p);
    if socialDir != "" && '/' !in p.id then
      ExportName(Paths.StemName(rel), p);
      Thumbnail.JoinUnder(socialDir, Paths.DirName(rel), s);
      Paths.Join([socialDir, Paths.DirName(rel), s])
    else
      Paths.Join([socialDir, Paths.DirName(rel), s])
  }

  lemma ExportName(stem: string, p: Preset)
    requires '/' !in stem && '/' !in p.id
    ensures '/' !in stem + "-" + p.id + "." + Extension(p)
    ensures stem + "-" + p.id + "." + Extension(p) != ""
  {
    assert '/' !in Extension(p);
  }

  /** No preset id holds a `/`. */
  lemma PresetIdsPlain()
    ensures forall i :: 0 <= i < |Presets| ==> '/' !in Presets[i].id
  {
    forall i | 0 <= i < |Presets|
      ensures '/' !in Presets[i].id
    {
      NoSlashIn(Presets[i].id);
    }
  }

  /** A string of lower-case letters, digits and dashes holds no slash. */
  lemma NoSlashIn(s: string)
    requires forall k :: 0 <= k < |s| ==> 'a' <= s[k] <= 'z' || '0' <= s[k] <= '9' || s[k] == '-'
    ensures '/' !in s
  {
  }

  /** Export names of one stem with extensions of one length tell their preset ids apart. */
  lemma ExportNameDeterminesId(stem: string, id1: string, e1: string, id2: string, e2: string)
    requires |e1| == |e2|
    requires stem + "-" + id1 + "." + e1 == stem + "-" + id2 + "." + e2
    ensures id1 == id2
  {
    var a := stem + "-" + id1 + "." + e1;
    var b := stem + "-" + id2 + "." + e2;
    assert |id1| == |id2|;
    assert id1 == a[|stem| + 1..|stem| + 1 + |id1|];
    assert id2 == b[|stem| + 1..|stem| + 1 + |id2|];
  }

  /** Presets with different plain ids write different export files for one image. */
  lemma DifferentIdsDifferentExports(socialDir: string, rel: string, p: Preset, q: Preset)
    requires socialDir != "" && '/' !in p.id && '/' !in q.id && p.id != q.id
    ensures ExportPath(socialDir, rel, p) != ExportPath(socialDir, rel, q)
  {
    if ExportPath(socialDir, rel, p) == ExportPath(socialDir, rel, q) {
      assert |Extension(p)| == |Extension(q)|;
      ExportNameDeterminesId(Paths.StemName(rel), p.id, Extension(p), q.id, Extension(q));
    }
  }

  /** Two presets never write over each other's export of the same image. */
  lemma ExportPathsDistinct(socialDir: string, rel: string, i: nat, j: nat)
    requires socialDir != "" && i < |Presets| && j < |Presets| && i != j
    ensures ExportPath(socialDir, rel, Presets[i]) != ExportPath(socialDir, rel, Presets[j])
  {
    PresetIdsPlain();
    PresetIdsDistinct();
    assert Presets[i].id != Presets[j].id;
    DifferentIdsDifferentExports(socialDir, rel, Presets[i], Presets[j]);
  }

  // --------------------------------------------------------------- the pipeline

  datatype Plan =
    | CropResize(left: int, top: int, width: int, height: int, outWidth: nat, outHeight: nat)
    | FitInside(box: nat)   // resize to fit a `box`-pixel square, never enlarging, in sRGB

  /** A preset whose aspect is defined: a positive width and, when it has one, a positive height. */
  predicate Proper(p: Preset) {
    p.width > 0 && (p.height.Some? ==> p.height.value > 0)
  }

  /** A dimension sharp reported (`!metadata.width` rejects a missing one and 0). */
  predicate Known(d: Option<nat>) {
    d.Some? && d.value > 0
  }

  /** The extracted region lies within the `w` by `h` image. */
  predicate Inside(c: Plan, w: int, h: int)
    requires c.CropResize?
  {
    0 <= c.left && c.left + c.width <= w && 0 <= c.top && c.top + c.height <= h
  }

  /** The region is centred: the margins on either side differ by at most one pixel. */
  predicate Centred(c: Plan, w: int, h: int)
    requires c.CropResize?
  {
    -1 <= 2 * c.left - (w - c.width) <= 1 && -1 <= 2 * c.top - (h - c.height) <= 1
  }

  lemma ScaledBelow(x: real, k: real, y: real)
    requires x > 0.0 && k > 0.0 && y / x > k
    ensures x * k < y
  {
    assert y == (y / x) * x;
  }

  lemma ScaledAtMost(x: real, k: real, y: real)
    requires x > 0.0 && k > 0.0 && y / x <= k
    ensures y / k <= x
  {
    assert y == (y / x) * x;
    assert y / k == ((y / x) * x) / k;
  }

  /** `Math.round(d / 2)` of a slack `d >= 0` leaves a centred margin within the slack. */
  lemma HalfMargin(d: int)
    requires d >= 0
    ensures 0 <= Round(d as real / 2.0) <= d
    ensures -1 <= 2 * Round(d as real / 2.0) - d <= 1
  {
    RoundBetween(d as real / 2.0, 0, d);
  }

  /** The rounded side of the crop fits within the image. */
  lemma SidesWithin(w: nat, h: nat, target: real)
    requires w > 0 && h > 0 && target > 0.0
    ensures w as real / h as real > target ==> 0 <= Round(h as real * target) <= w
    ensures !(w as real / h as real > target) ==> 0 <= Round(w as real / target) <= h
  {
    if w as real / h as real > target {
      ScaledBelow(h as real, target, w as real);
      RoundBetween(h as real * target, 0, w);
    } else {
      ScaledAtMost(h as real, target, w as real);
      RoundBetween(w as real / target, 0, h);
    }
  }

  /**
    The centre crop of a `w` by `h` image to the aspect `pw / ph`: the whole
    height of a wider image, the whole width of a taller one, the other side
    rounded.
   */
  function CropPlan(w: nat, h: nat, pw: nat, ph: nat): (c: Plan)
    requires w > 0 && h > 0 && pw > 0 && ph > 0
    ensures c.CropResize? && c.outWidth == pw && c.outHeight == ph
    ensures Inside(c, w, h) && Centred(c, w, h)
    ensures var target := pw as real / ph as real;
      if w as real / h as real > target then
        c.height == h && h as real * target - 0.5 < c.width as real <= h as real * target + 0.5
      else
        c.width == w && w as real / target - 0.5 < c.height as real <= w as real / target + 0.5
  {
    var target := pw as real / ph as real;
    var source := w as real / h as real;
    var ew: int, eh: int :=
      if source > target then Round(h as real * target) else w,
      if source > target then h else Round(w as real / target);
    SidesWithin(w, h, target);
    HalfMargin(w - ew);
    HalfMargin(h - eh);
    CropResize(Round((w - ew) as real / 2.0), Round((h - eh) as real / 2.0), ew, eh, pw, ph)
  }

  /**
    The resize pipeline `generateSocialExport` builds for an image sharp
    measured as `width` by `height`: None for the error "Could not read image
    dimensions".
   */
  function PlanExport(p: Preset, width: Option<nat>, height: Option<nat>): (r: Option<Plan>)
    requires Proper(p)
    ensures r.None? <==> !Known(width) || !Known(height)
    ensures r.Some? && !(p.crop && p.height.Some?) ==> r.value == FitInside(p.width)
    ensures r.Some? && p.crop && p.height.Some? ==>
      r.value == CropPlan(width.value, height.value, p.width, p.height.value)
  {
    if !Known(width) || !Known(height) then None
    else if p.crop && p.height.Some? then Some(CropPlan(width.value, height.value, p.width, p.height.value))
    else Some(FitInside(p.width))
  }

  /** Every preset has a defined aspect. */
  lemma PresetsProper()
    ensures forall i :: 0 <= i < |Presets| ==> Proper(Presets[i])
  {
  }

  /**
    `generateSocialExport` for the source `n`: `measure` stands for sharp's
    metadata (width, height) and `encode` for running the planned pipeline to a
    JPEG at the preset's quality or a PNG. None is the thrown "Could not read
    image dimensions".
   */
  function GenerateExport(n: Node, p: Preset, measure: Node -> (Option<nat>, Option<nat>),
                          encode: (Node, Plan, Format, nat) -> string): (r: Option<string>)
    requires Proper(p)
    ensures r.None? <==> !Known(measure(n).0) || !Known(measure(n).1)
    ensures r.Some? ==>
      var plan := PlanExport(p, measure(n).0, measure(n).1);
      plan.Some? && r.value == encode(n, plan.value, p.format, p.quality)
  {
    var plan := PlanExport(p, measure(n).0, measure(n).1);
    if plan.None? then None else Some(encode(n, plan.value, p.format, p.quality))
  }

  /**
    `ensureSocialExport` of the image at `srcPath` (photos-relative path `rel`)
    for the preset `p`, exports kept under `socialDir`.
   */
  function EnsureSocialExport(root: Node, srcPath: string, socialDir: string, rel: string, p: Preset,
                              measure: Node -> (Option<nat>, Option<nat>),
                              encode: (Node, Plan, Format, nat) -> string, now: int)
    : (r: Thumbnail.Ensured)
    requires Proper(p)
    ensures !r.Failed? ==> r.path == ExportPath(socialDir, rel, p)
    ensures r.Cached? <==>
      Lookup(root, srcPath).Some?
      && Thumbnail.UpToDate(Lookup(root, ExportPath(socialDir, rel, p)), Lookup(root, srcPath).value)
    ensures r.Written? ==>
      var src := Lookup(root, srcPath);
      src.Some? && GenerateExport(src.value, p, measure, encode).Some?
      && Lookup(r.root, ExportPath(socialDir, rel, p))
         == Some(File(now, GenerateExport(src.value, p, measure, encode).value))
  {
    var produce := (n: Node) => GenerateExport(n, p, measure, encode);
    var t := ExportPath(socialDir, rel, p);
    Thumbnail.EnsureOutput(root, srcPath, t, produce, now)
  }

  /** A stale or missing export of a source whose dimensions sharp cannot read is not produced. */
  lemma UnknownDimensionsFail(root: Node, srcPath: string, socialDir: string, rel: string, p: Preset,
                              measure: Node -> (Option<nat>, Option<nat>),
                              encode: (Node, Plan, Format, nat) -> string, now: int)
    requires Proper(p)
    requires Lookup(root, srcPath).Some?
    requires !Thumbnail.UpToDate(Lookup(root, ExportPath(socialDir, rel, p)), Lookup(root, srcPath).value)
    requires !Known(measure(Lookup(root, srcPath).value).0) || !Known(measure(Lookup(root, srcPath).value).1)
    ensures EnsureSocialExport(root, srcPath, socialDir, rel, p, measure, encode, now).Failed?
  {
    var r := EnsureSocialExport(root, srcPath, socialDir, rel, p, measure, encode, now);
    assert GenerateExport(Lookup(root, srcPath).value, p, measure, encode).None?;
    assert !r.Cached? && !r.Written?;
  }

  /** The first segment of an export path under a plain directory name is that directory. */
  lemma ExportSegments(socialDir: string, rel: string, p: Preset)
    requires socialDir != "" && '/' !in socialDir && '/' !in p.id
    ensures |Paths.Segments(ExportPath(socialDir, rel, p))| > 0
    ensures Paths.Segments(ExportPath(socialDir, rel, p))[0] == socialDir
  {
    var s := Paths.StemName(rel) + "-" + p.id + "." + Extension(p);
    Paths.SegmentsUnder(socialDir, Paths.Join([Paths.DirName(rel), s]));
  }

  /** An export written no earlier than its source is returned from cache on the next request. */
  lemma ExportThenCached(root: Node, srcPath: string, socialDir: string, rel: string, p: Preset,
                         measure: Node -> (Option<nat>, Option<nat>),
                         encode: (Node, Plan, Format, nat) -> string, now: int, later: int)
    requires Proper(p) && socialDir != "" && '/' !in socialDir && '/' !in p.id
    requires EnsureSocialExport(root, srcPath, socialDir, rel, p, measure, encode, now).Written?
    requires now >= Lookup(root, srcPath).value.mtime
    requires |Paths.Segments(srcPath)| > 0 && Paths.Segments(srcPath)[0] != socialDir
    ensures var r := EnsureSocialExport(root, srcPath, socialDir, rel, p, measure, encode, now);
      EnsureSocialExport(r.root, srcPath, socialDir, rel, p, measure, encode, later)
      == Thumbnail.Cached(ExportPath(socialDir, rel, p))
  {
    ExportSegments(socialDir, rel, p);
    Thumbnail.WrittenThenCached(root, srcPath, ExportPath(socialDir, rel, p),
                                (n: Node) => GenerateExport(n, p, measure, encode), now, later);
  }

  /** Every preset's crop, when it applies, has the preset's aspect up to rounding and stays inside the source. */
  lemma CropFitsSource(i: nat, w: nat, h: nat)
    requires i < |Presets| && w > 0 && h > 0
    requires Presets[i].crop && Presets[i].height.Some?
    ensures var c := PlanExport(Presets[i], Some(w), Some(h));
      c.Some? && c.value.CropResize? && Inside(c.value, w, h)
      && c.value.outWidth == Presets[i].width && c.value.outHeight == Presets[i].height.value
  {
    PresetsProper();
  }
}
