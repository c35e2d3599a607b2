/**
  The album README renderer (`server/src/services/markdown.ts`): when the
  README belongs to an album, every image whose URL is relative is shown
  through the album's thumbnail route and tagged for the lightbox, and a
  titled image becomes a captioned figure. Markdown parsing itself, heading
  ids and code highlighting belong to the `marked` library and are parameters
  here.
 */
module Markdown {
  import opened Wrappers
  import opened Text

  const ThumbnailRoute: string := "/api/images/thumbnail/"

  /** `isRelativeUrl`: not an `http://`, `https://`, root-relative or `data:` URL. */
  predicate IsRelativeUrl(url: string) {
    !StartsWith(url, "http://") && !StartsWith(url, "https://") && !StartsWith(url, "/") && !StartsWith(url, "data:")
  }

  /** An image token as the parser hands it to the renderer. */
  datatype ImageToken = ImageToken(href: string, title: Option<string>, text: Option<string>)

  /** The lightbox anchor around an `<img>`: the lightbox attribute, if any, and the image's `src` and `alt`. */
  datatype Img = Img(lightbox: Option<string>, src: string, alt: string)

  /** What `renderer.image` returns: the bare anchor, or the anchor in a figure with a caption. */
  datatype Figure = Plain(img: Img) | Captioned(img: Img, caption: string)

  /** A string-valued field is truthy when present and not empty. */
  predicate Truthy(v: Option<string>) {
    v.Some? && v.value != ""
  }

  /** The custom `renderer.image` for the album at `albumPath`. */
  function RenderImage(albumPath: string, t: ImageToken): (r: Figure)
    ensures IsRelativeUrl(t.href) ==> r.img.src == ThumbnailRoute + albumPath + "/" + t.href
    ensures !IsRelativeUrl(t.href) ==> r.img.src == t.href
    ensures r.img.lightbox.Some? <==> IsRelativeUrl(t.href)
    ensures r.img.lightbox.Some? ==> r.img.lightbox.value == t.href
    ensures r.img.alt == (if t.text.Some? then t.text.value else "")
    ensures r.Captioned? <==> Truthy(t.title)
    ensures r.Captioned? ==> r.caption == t.title.value
  {
    var local := IsRelativeUrl(t.href);
    var img := Img(if local then Some(t.href) else None,
                   if local then ThumbnailRoute + albumPath + "/" + t.href else t.href,
                   t.text.GetOr(""));
    if Truthy(t.title) then Captioned(img, t.title.value) else Plain(img)
  }

  const AnchorOpen: string := "<a href=\"#\""
  const LightboxAttr: string := " data-lightbox-image=\""

  /** The anchor's markup. */
  function ImgHtml(i: Img): string {
    AnchorOpen + AnchorTail(i)
  }

  /** The anchor's markup after `<a href="#"`: the lightbox attribute, if any, then the class and the image. */
  function AnchorTail(i: Img): string {
    var attr := if i.lightbox.Some? then LightboxAttr + i.lightbox.value + "\"" else "";
    attr + " class=\"readme-lightbox\"><img src=\"" + i.src + "\" alt=\"" + i.alt + "\" loading=\"lazy\"></a>"
  }

  /** The figure's markup. */
  function FigureHtml(f: Figure): string {
    match f
    case Plain(i) => ImgHtml(i)
    case Captioned(i, c) => "<figure>" + ImgHtml(i) + "<figcaption>" + c + "</figcaption></figure>"
  }

  /**
    How an image token renders when the README is for `albumPath`: the custom
    renderer when the album path is truthy, else `marked`'s own `defaultImage`.
   */
  function ImageMarkup(albumPath: Option<string>, t: ImageToken, defaultImage: ImageToken -> string): (r: string)
    ensures Truthy(albumPath) ==> r == FigureHtml(RenderImage(albumPath.value, t))
    ensures !Truthy(albumPath) ==> r == defaultImage(t)
  {
    if Truthy(albumPath) then FigureHtml(RenderImage(albumPath.value, t)) else defaultImage(t)
  }

  /** The markup is a figure exactly when the token has a title. */
  lemma FigureIffTitled(albumPath: string, t: ImageToken)
    ensures StartsWith(FigureHtml(RenderImage(albumPath, t)), "<figure>") <==> Truthy(t.title)
  {
    var r := RenderImage(albumPath, t);
    var h := FigureHtml(r);
    if !Truthy(t.title) {
      assert h[1] == 'a' && "<figure>"[1] == 'f';
    }
  }

  /** The tail starts with the lightbox attribute exactly when the anchor has one. */
  lemma AnchorTailLightbox(i: Img)
    ensures StartsWith(AnchorTail(i), LightboxAttr) <==> i.lightbox.Some?
  {
    var tail := AnchorTail(i);
    if i.lightbox.None? {
      assert tail[1] == 'c' && LightboxAttr[1] == 'd';
    } else {
      assert tail[..|LightboxAttr|] == LightboxAttr;
    }
  }

  /** The anchor carries the lightbox attribute, right after `href="#"`, exactly when the image is local. */
  lemma LightboxAttributeIffLocal(albumPath: string, t: ImageToken)
    ensures var h := ImgHtml(RenderImage(albumPath, t).img);
      |h| >= |AnchorOpen| && (StartsWith(h[|AnchorOpen|..], LightboxAttr) <==> IsRelativeUrl(t.href))
  {
    var i := RenderImage(albumPath, t).img;
    assert ImgHtml(i)[|AnchorOpen|..] == AnchorTail(i);
    AnchorTailLightbox(i);
  }

  /** For a local image the lightbox names the same file the thumbnail source points at. */
  lemma LightboxMatchesSource(albumPath: string, t: ImageToken)
    requires IsRelativeUrl(t.href)
    ensures var i := RenderImage(albumPath, t).img;
      i.lightbox.Some? && i.src == ThumbnailRoute + albumPath + "/" + i.lightbox.value
  {
  }

  /** A rewritten source is never rewritten again: it is root-relative. */
  lemma RewriteOnce(albumPath: string, t: ImageToken)
    requires IsRelativeUrl(t.href)
    ensures !IsRelativeUrl(RenderImage(albumPath, t).img.src)
    ensures RenderImage(albumPath, ImageToken(RenderImage(albumPath, t).img.src, t.title, t.text)).img.src
      == RenderImage(albumPath, t).img.src
  {
    var s := RenderImage(albumPath, t).img.src;
    assert s[0] == '/';
  }

  /** Protocol-relative URLs start with `/` and are left alone; an upper-case scheme counts as relative. */
  lemma SchemeChecksAreLiteral()
    ensures !IsRelativeUrl("//cdn.example/a.jpg")
    ensures IsRelativeUrl("HTTPS://example.com/a.jpg")
  {
    RootedNotRelative("//cdn.example/a.jpg");
    UncommonFirstIsRelative("HTTPS://example.com/a.jpg");
  }

  lemma RootedNotRelative(url: string)
    requires |url| > 0 && url[0] == '/'
    ensures !IsRelativeUrl(url)
  {
    assert url[..1] == "/";
  }

  /** A URL whose first character starts none of the four prefixes is relative. */
  lemma UncommonFirstIsRelative(url: string)
    requires |url| > 0 && url[0] != 'h' && url[0] != '/' && url[0] != 'd'
    ensures IsRelativeUrl(url)
  {
  }
}
