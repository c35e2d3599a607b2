/**
  Image metadata as `getImageMetadata` derives it (`server/src/services/scanner.ts`):
  the aspect-ratio label, the keyword sources, the EXIF display fields, and the
  cache keyed by file path that is valid while the file's mtime is unchanged.
  What the image libraries decode is an input (`Decoded`); numbers are rendered
  to text by functions passed in (`NumberText`).
 */
module Metadata {
  import opened Wrappers
  import opened Text
  import opened Seqs
  import opened Types
  import opened Numbers

  // ---------------------------------------------------------------------------
  // Aspect ratio

  predicate Divides(d: nat, n: nat) {
    d > 0 && n % d == 0
  }

  /** `gcd(a, b)`: Euclid's algorithm. */
  function Gcd(a: nat, b: nat): (g: nat)
    ensures g == 0 <==> a == 0 && b == 0
    decreases b
  {
    if b == 0 then a else Gcd(b, a % b)
  }

  lemma MulMonotone(g: nat, k: int)
    requires k >= 1
    ensures g * k >= g
  {
    assert g * k == g + g * (k - 1);
  }

  lemma MultipleMod(g: nat, m: int)
    requires g > 0
    ensures (g * m) % g == 0
  {
    var q, r := (g * m) / g, (g * m) % g;
    assert g * m == g * q + r;
    assert g * (m - q) == r;
    if m - q >= 1 {
      MulMonotone(g, m - q);
    } else if m - q <= -1 {
      MulMonotone(g, q - m);
    }
  }

  lemma DivMod(a: nat, b: nat)
    requires b > 0
    ensures a == (a / b) * b + a % b
  {
  }

  lemma SmallMod(x: nat, m: nat)
    requires x < m
    ensures x % m == x
  {
    var q := x / m;
    DivMod(x, m);
    if q >= 1 {
      MulMonotone(m, q);
    }
  }

  lemma DivisorForm(d: nat, x: nat) returns (k: nat)
    requires Divides(d, x)
    ensures x == d * k
  {
    k := x / d;
  }

  lemma DividesCombination(d: nat, x: nat, y: nat, q: int)
    requires Divides(d, x) && Divides(d, y) && q * x + y >= 0
    ensures Divides(d, q * x + y)
  {
    var kx := DivisorForm(d, x);
    var ky := DivisorForm(d, y);
    assert q * x + y == d * (q * kx + ky);
    MultipleMod(d, q * kx + ky);
  }

  /** The result divides both arguments. */
  lemma {:induction false} GcdDivides(a: nat, b: nat)
    requires a > 0 || b > 0
    ensures Divides(Gcd(a, b), a) && Divides(Gcd(a, b), b)
    decreases b
  {
    if b > 0 {
      GcdDivides(b, a % b);
      DivMod(a, b);
      DividesCombination(Gcd(b, a % b), b, a % b, a / b);
    }
  }

  /** Every common divisor divides the result. */
  lemma {:induction false} GcdGreatest(a: nat, b: nat, d: nat)
    requires Divides(d, a) && Divides(d, b)
    ensures Divides(d, Gcd(a, b))
    decreases b
  {
    if b > 0 {
      DividesRemainder(d, a, b);
      GcdGreatest(b, a % b, d);
    }
  }

  /** A common divisor of `a` and `b` divides `a % b`. */
  lemma DividesRemainder(d: nat, a: nat, b: nat)
    requires b > 0 && Divides(d, a) && Divides(d, b)
    ensures Divides(d, a % b)
  {
    var q := a / b;
    DivMod(a, b);
    assert (-q) * b + a == a % b by {
      assert (-q) * b == -(q * b);
    }
    DividesCombination(d, b, a, -q);
  }

  /** A positive width and height divided by their greatest common divisor. */
  datatype Ratio = Ratio(w: nat, h: nat)

  function Reduce(width: nat, height: nat): (r: Ratio)
    requires width > 0 && height > 0
    ensures r.w > 0 && r.h > 0
    ensures r.w * Gcd(width, height) == width && r.h * Gcd(width, height) == height
  {
    GcdDivides(width, height);
    var g := Gcd(width, height);
    DivMod(width, g);
    DivMod(height, g);
    Ratio(width / g, height / g)
  }

  /** The reduced terms share no divisor but 1. */
  lemma ReduceCoprime(width: nat, height: nat, d: nat)
    requires width > 0 && height > 0
    requires Divides(d, Reduce(width, height).w) && Divides(d, Reduce(width, height).h)
    ensures d == 1
  {
    var r := Reduce(width, height);
    var g := Gcd(width, height);
    ScaledDivides(width, g, r.w, d);
    ScaledDivides(height, g, r.h, d);
    GcdGreatest(width, height, d * g);
    if d > 1 {
      MulMonotone(g, d);
      SmallMod(g, d * g);
    }
  }

  /** If `d` divides `x / g`, then `d * g` divides `x`. */
  lemma ScaledDivides(x: nat, g: nat, q: nat, d: nat)
    requires g > 0 && q * g == x && Divides(d, q)
    ensures Divides(d * g, x)
  {
    var k := DivisorForm(d, q);
    assert x == (d * g) * k by {
      assert q * g == (d * k) * g;
    }
    MultipleMod(d * g, k);
  }

  /** The labels of the common ratios, whichever way round the image is. */
  function CommonLabel(r: Ratio): Option<string> {
    if r == Ratio(3, 2) || r == Ratio(2, 3) then Some("3:2")
    else if r == Ratio(4, 3) || r == Ratio(3, 4) then Some("4:3")
    else if r == Ratio(16, 9) || r == Ratio(9, 16) then Some("16:9")
    else if r == Ratio(1, 1) then Some("1:1")
    else None
  }

  function Abs(x: real): real {
    if x < 0.0 then -x else x
  }

  /** The label a ratio close to a common one receives, trying landscape shapes before portrait ones. */
  function ApproximateLabel(x: real): Option<string> {
    if Abs(x - 1.5) < 0.05 then Some("3:2")
    else if Abs(x - 1.33) < 0.05 then Some("4:3")
    else if Abs(x - 1.78) < 0.05 then Some("16:9")
    else if Abs(x - 0.67) < 0.05 then Some("2:3")
    else if Abs(x - 0.75) < 0.05 then Some("3:4")
    else if Abs(x - 0.56) < 0.05 then Some("9:16")
    else None
  }

  /** The reduced ratio written out as `w:h`. */
  function RatioText(r: Ratio): string {
    NatToString(r.w) + ":" + NatToString(r.h)
  }

  /**
    `formatAspectRatio`: a common reduced ratio gets its label; a ratio with a
    reduced term above 20 may be approximated from `width / height`; any other
    ratio is written out reduced.
   */
  function FormatAspectRatio(width: nat, height: nat): (s: string)
    requires width > 0 && height > 0
    ensures CommonLabel(Reduce(width, height)).Some? ==> s == CommonLabel(Reduce(width, height)).value
    ensures CommonLabel(Reduce(width, height)).None? && Reduce(width, height).w <= 20 && Reduce(width, height).h <= 20
      ==> s == RatioText(Reduce(width, height))
    ensures (CommonLabel(Reduce(width, height)).None? && (Reduce(width, height).w > 20 || Reduce(width, height).h > 20)
             && ApproximateLabel(width as real / height as real).Some?) ==> s == ApproximateLabel(width as real / height as real).value
    ensures CommonLabel(Reduce(width, height)).None? && ApproximateLabel(width as real / height as real).None?
      ==> s == RatioText(Reduce(width, height))
    ensures s in {"3:2", "4:3", "16:9", "1:1", "2:3", "3:4", "9:16"} || s == RatioText(Reduce(width, height))
  {
    var r := Reduce(width, height);
    if CommonLabel(r).Some? then CommonLabel(r).value
    else if r.w > 20 || r.h > 20 then
      match ApproximateLabel(width as real / height as real)
      case Some(approx) => approx
      case None => RatioText(r)
    else RatioText(r)
  }

  lemma AspectRatioExamples()
    ensures FormatAspectRatio(1920, 1080) == "16:9"
    ensures FormatAspectRatio(3000, 2000) == "3:2"
    ensures FormatAspectRatio(100, 100) == "1:1"
  {
    assert Gcd(1920, 1080) == 120;
    assert Reduce(1920, 1080) == Ratio(16, 9);
    assert Gcd(3000, 2000) == 1000;
    assert Reduce(3000, 2000) == Ratio(3, 2);
    assert Gcd(100, 100) == 100;
    assert Reduce(100, 100) == Ratio(1, 1);
  }

  /**
    An exact 2:3 portrait is labelled like a landscape ("3:2"), while a portrait
    only close to 2:3 keeps its orientation ("2:3").
   */
  lemma PortraitLabels()
    ensures FormatAspectRatio(2000, 3000) == "3:2"
    ensures FormatAspectRatio(2001, 3000) == "2:3"
  {
    assert Gcd(2000, 3000) == 1000;
    assert Reduce(2000, 3000) == Ratio(2, 3);
    assert Gcd(2001, 3000) == 3;
    assert Reduce(2001, 3000) == Ratio(667, 1000);
    assert ApproximateLabel(2001.0 / 3000.0) == Some("2:3");
  }

  // ---------------------------------------------------------------------------
  // Keywords

  /** The `keywords` field of an IPTC block: a list, or a single string. */
  datatype IptcKeywords = KeywordList(items: seq<string>) | KeywordText(text: string)

  /**
    What the XMP packet holds: for each of `dc:subject` and `lr:hierarchicalSubject`,
    when its element is present, the texts of the `rdf:li` items inside it.
   */
  datatype Xmp = Xmp(subject: Option<seq<string>>, hierarchicalSubject: Option<seq<string>>)

  /** The IPTC keywords when there is at least one. */
  function IptcKeywordsOf(iptc: Option<IptcKeywords>): (r: Option<seq<string>>)
    ensures r.Some? ==> |r.value| > 0
  {
    match iptc
    case None => None
    case Some(KeywordList(items)) => if |items| > 0 then Some(items) else None
    case Some(KeywordText(text)) => if text != "" then Some([text]) else None
  }

  /** The last `|`-separated level of a hierarchical keyword, trimmed. */
  function LeafKeyword(v: string): string {
    Trim(AfterLast(v, '|'))
  }

  /** The hierarchical keywords: each item's leaf, first occurrences only. */
  function HierarchicalKeywords(items: seq<string>): (r: seq<string>)
    ensures NoDup(r)
    ensures forall i :: 0 <= i < |items| ==> LeafKeyword(items[i]) in r
    ensures forall k :: 0 <= k < |r| ==> exists i :: 0 <= i < |items| && r[k] == LeafKeyword(items[i])
    ensures |items| > 0 <==> |r| > 0
  {
    DedupMap(items, LeafKeyword);
    Dedup(Map(items, LeafKeyword))
  }

  /**
    The keywords of an image: IPTC first; failing that the trimmed `dc:subject`
    items; failing that the hierarchical keywords.
   */
  function SelectKeywords(iptc: Option<IptcKeywords>, xmp: Option<Xmp>): (r: Option<seq<string>>)
    ensures r.Some? ==> |r.value| > 0
    ensures IptcKeywordsOf(iptc).Some? ==> r == IptcKeywordsOf(iptc)
    ensures IptcKeywordsOf(iptc).None? && xmp.Some? && xmp.value.subject.Some? && |xmp.value.subject.value| > 0
      ==> (r.Some? && |r.value| == |xmp.value.subject.value|
           && forall i :: 0 <= i < |r.value| ==> r.value[i] == Trim(xmp.value.subject.value[i]))
    ensures IptcKeywordsOf(iptc).None? && xmp.Some? && (xmp.value.subject.None? || |xmp.value.subject.value| == 0)
      && xmp.value.hierarchicalSubject.Some?
      ==> r == (if |xmp.value.hierarchicalSubject.value| > 0
                then Some(HierarchicalKeywords(xmp.value.hierarchicalSubject.value)) else None)
    ensures r.None? <==>
      (IptcKeywordsOf(iptc).None? && (xmp.None? ||
        ((xmp.value.subject.None? || |xmp.value.subject.value| == 0)
         && (xmp.value.hierarchicalSubject.None? || |xmp.value.hierarchicalSubject.value| == 0))))
  {
    var fromIptc := IptcKeywordsOf(iptc);
    if fromIptc.Some? then fromIptc
    else if xmp.None? then None
    else if xmp.value.subject.Some? && |xmp.value.subject.value| > 0 then
      Some(Map(xmp.value.subject.value, Trim))
    else if xmp.value.hierarchicalSubject.Some? && |xmp.value.hierarchicalSubject.value| > 0 then
      Some(HierarchicalKeywords(xmp.value.hierarchicalSubject.value))
    else None
  }

  lemma LeafOfPath()
    ensures LeafKeyword("Travel|Europe|Paris") == "Paris"
  {
    var v := "Travel|Europe|Paris";
    assert v[13] == '|';
    assert AfterLast(v, '|') == "Paris";
    TrimOfUnpadded("Paris");
  }

  /** A keyword without `|` is its own leaf, trimmed. */
  lemma LeafOfFlat(v: string)
    requires '|' !in v
    ensures LeafKeyword(v) == Trim(v)
  {
    LastIndexOfAbsent(v, '|');
  }

  lemma NoBarInPadded()
    ensures '|' !in " Paris "
  {
    var v := " Paris ";
    assert forall i :: 0 <= i < |v| ==> v[i] in {' ', 'P', 'a', 'r', 'i', 's'};
  }

  lemma TrimStartPadded()
    ensures TrimStart(" Paris ") == "Paris "
  {
    assert !IsSpace('P') && IsSpace(' ');
    assert TrimStart("Paris ") == "Paris ";
    assert " Paris "[1..] == "Paris ";
  }

  lemma TrimEndPadded()
    ensures TrimEnd("Paris ") == "Paris"
  {
    assert !IsSpace('s') && IsSpace(' ');
    assert "Paris "[..5] == "Paris";
  }

  lemma TrimPadded()
    ensures Trim(" Paris ") == "Paris"
  {
    TrimStartPadded();
    TrimEndPadded();
  }

  /** Two keywords with the same leaf yield that leaf once. */
  lemma SameLeafKeptOnce(a: string, b: string)
    requires LeafKeyword(a) == LeafKeyword(b)
    ensures HierarchicalKeywords([a, b]) == [LeafKeyword(a)]
  {
    MapOfPair(a, b, LeafKeyword);
    DedupOfTwin(LeafKeyword(a));
  }

  /** `Travel|Europe|Paris` and ` Paris ` both become `Paris`, which is kept once. */
  lemma HierarchicalExample()
    ensures HierarchicalKeywords(["Travel|Europe|Paris", " Paris "]) == ["Paris"]
  {
    LeafOfPath();
    NoBarInPadded();
    LeafOfFlat(" Paris ");
    TrimPadded();
    SameLeafKeptOnce("Travel|Europe|Paris", " Paris ");
  }

  // ---------------------------------------------------------------------------
  // Date taken

  /** The UTC fields of the `DateTimeOriginal` date. */
  datatype DateTime = DateTime(year: int, month: nat, day: nat, hours: nat, minutes: nat)

  predicate ValidClock(d: DateTime) {
    d.month < 12 && 1 <= d.day <= 31 && d.hours < 24 && d.minutes < 60
  }

  const MonthNames: seq<string> :=
    ["Jan", "Feb", "Mar", "Apr", "May", "Jun", "Jul", "Aug", "Sep", "Oct", "Nov", "Dec"]

  /** `hours % 12 || 12`. */
  function Hour12(hours: nat): (h: nat)
    ensures 1 <= h <= 12
    ensures h % 12 == hours % 12
  {
    if hours % 12 == 0 then 12 else hours % 12
  }

  /** `minutes.toString().padStart(2, '0')`. */
  function Pad2(n: nat): (s: string)
    ensures n < 100 ==> |s| == 2 && AllDigits(s) && DigitsValue(s) == n
  {
    DigitsValueOfNatToString(n);
    if n < 10 then
      var s := "0" + NatToString(n);
      assert s[..1] == "0";
      s
    else NatToString(n)
  }

  function Meridiem(hours: nat): string {
    if hours >= 12 then "PM" else "AM"
  }

  /** `Mon D, YYYY at h:mm AM|PM`, the scanner's `dateTaken` text. */
  function FormatDateTaken(d: DateTime): (s: string)
    requires ValidClock(d)
    ensures s == MonthNames[d.month] + " " + NatToString(d.day) + ", " + IntToString(d.year)
      + " at " + NatToString(Hour12(d.hours)) + ":" + Pad2(d.minutes) + " " + Meridiem(d.hours)
  {
    MonthNames[d.month] + " " + NatToString(d.day) + ", " + IntToString(d.year)
      + " at " + NatToString(Hour12(d.hours)) + ":" + Pad2(d.minutes) + " " + Meridiem(d.hours)
  }

  // ---------------------------------------------------------------------------
  // EXIF display fields

  /** Number-to-text renderings the display fields use (`String(x)`, `toFixed(1)`, `toFixed(0)`). */
  datatype NumberText = NumberText(show: real -> string, fixed1: real -> string, fixed0: real -> string)

  /** `ISOSpeedRatings` as `exif-reader` decodes it: a number, or a list of numbers. */
  datatype IsoTag = IsoNumber(n: int) | IsoList(items: seq<int>)

  /** `if (parsed.Photo?.ISOSpeedRatings)`: a number is truthy unless it is 0; a list always is, even `[]` or `[0]`. */
  predicate IsoTruthy(tag: IsoTag) {
    tag.IsoList? || tag.n != 0
  }

  /**
    What `exif.iso` is set to: the number itself, or the list's first item, which
    is `undefined` (None) for an empty list.
   */
  function IsoValue(tag: IsoTag): Option<int> {
    match tag
    case IsoNumber(n) => Some(n)
    case IsoList(items) => if |items| > 0 then Some(items[0]) else None
  }

  /** The EXIF tags `exif-reader` decodes, each absent when the tag is. */
  datatype ExifTags = ExifTags(
    make: Option<string>,
    model: Option<string>,
    lensModel: Option<string>,
    focalLength: Option<real>,
    fNumber: Option<real>,
    exposureTime: Option<real>,
    iso: Option<IsoTag>,
    dateTimeOriginal: Option<DateTime>,
    exposureBias: Option<real>,
    whiteBalance: Option<int>,
    flash: Option<int>,
    gps: Option<Gps>)

  /** What the image libraries report for one file. */
  datatype Decoded = Decoded(
    width: nat,
    height: nat,
    iptc: Option<IptcKeywords>,
    xmp: Option<Xmp>,
    space: Option<string>,
    exif: Option<ExifTags>)

  /** A JavaScript truthy string. */
  predicate Present(s: Option<string>) {
    s.Some? && s.value != ""
  }

  predicate PresentNumber(x: Option<real>) {
    x.Some? && x.value != 0.0
  }

  /** The trimmed text of an optional tag, or "". */
  function TrimmedOr(s: Option<string>): string {
    if s.Some? then Trim(s.value) else ""
  }

  /** The camera: the model alone when it already starts with the make, else make and model. */
  function CameraName(make: string, model: string): (r: string)
    requires make == Trim(make) && model == Trim(model)
    ensures make == "" ==> r == model
    ensures StartsWith(model, make) ==> r == model
    ensures !StartsWith(model, make) && model != "" ==> r == make + " " + model
    ensures !StartsWith(model, make) && model == "" ==> r == make
  {
    if StartsWith(model, make) then model
    else
      TrimJoined(make, model);
      Trim(make + " " + model)
  }

  /** The camera field: set when the make or the model is a non-empty string. */
  function Camera(t: ExifTags): (r: Option<string>)
    ensures r.Some? <==> Present(t.make) || Present(t.model)
  {
    if Present(t.make) || Present(t.model) then
      var make := TrimmedOr(t.make);
      var model := TrimmedOr(t.model);
      TrimmedOrTrimmed(t.make);
      TrimmedOrTrimmed(t.model);
      Some(CameraName(make, model))
    else None
  }

  lemma TrimmedOrTrimmed(s: Option<string>)
    ensures Trim(TrimmedOr(s)) == TrimmedOr(s)
  {
    if s.Some? {
      TrimIdempotent(s.value);
    }
  }

  lemma TrimJoined(make: string, model: string)
    requires make == Trim(make) && model == Trim(model) && make != ""
    ensures Trim(make + " " + model) == if model != "" then make + " " + model else make
  {
    if model != "" {
      var joined := make + " " + model;
      TrimOfUnpadded(make);
      TrimOfUnpadded(model);
      assert joined[0] == make[0] && joined[|joined| - 1] == model[|model| - 1];
      TrimOfUnpadded(joined);
    } else {
      assert make + " " + model == make + " ";
      TrimTrailingSpace(make);
    }
  }

  lemma TrimTrailingSpace(s: string)
    requires s == Trim(s) && s != ""
    ensures Trim(s + " ") == s
  {
    TrimIdempotent(s);
    assert !IsSpace(s[0]) && !IsSpace(s[|s| - 1]);
    var t := s + " ";
    assert TrimStart(t) == t;
    assert TrimEnd(t) == s by {
      assert t[..|s|] == s;
    }
  }

  function ShutterText(e: real, fmt: NumberText): string
    requires e != 0.0
  {
    if e >= 1.0 then fmt.show(e) + "s" else "1/" + IntToString(Round(1.0 / e)) + "s"
  }

  function ExposureCompText(ev: real, fmt: NumberText): string {
    if ev == 0.0 then "\U{B1}0 EV"
    else if ev > 0.0 then "+" + fmt.fixed1(ev) + " EV"
    else fmt.fixed1(ev) + " EV"
  }

  function MegapixelsText(width: nat, height: nat, fmt: NumberText): string {
    var mp := (width * height) as real / 1000000.0;
    if mp >= 1.0 then fmt.fixed1(mp) + " MP" else fmt.fixed0(mp * 1000.0) + " KP"
  }

  /** `flash & 1`: bit 0 of the two's-complement value. */
  function FlashText(flash: int): string {
    if flash % 2 == 1 then "Fired" else "Off"
  }

  /** The EXIF tags that set no display field. */
  predicate SetsNothing(t: ExifTags) {
    && !Present(t.make) && !Present(t.model) && !Present(t.lensModel)
    && !PresentNumber(t.focalLength) && !PresentNumber(t.fNumber) && !PresentNumber(t.exposureTime)
    && (t.iso.None? || !IsoTruthy(t.iso.value)) && t.dateTimeOriginal.None?
    && t.exposureBias.None? && t.whiteBalance.None? && t.flash.None? && t.gps.None?
  }

  /** The display fields `getImageMetadata` fills in, before deciding whether to keep them. */
  function ExifFields(d: Decoded, fmt: NumberText): (e: ExifData)
    requires d.exif.Some? && d.exif.value.dateTimeOriginal.Some? ==> ValidClock(d.exif.value.dateTimeOriginal.value)
    ensures e.keywords == SelectKeywords(d.iptc, d.xmp)
    ensures e.dimensions.Some? <==> d.width > 0 && d.height > 0
    ensures e.aspectRatio.Some? <==> d.width > 0 && d.height > 0
    ensures e.aspectRatio.Some? ==> e.aspectRatio.value == FormatAspectRatio(d.width, d.height)
    ensures e.colorSpace.Some? <==> Present(d.space)
    ensures Present(d.space) ==> e.colorSpace.value == Upper(d.space.value)
    ensures e.camera.Some? <==> d.exif.Some? && (Present(d.exif.value.make) || Present(d.exif.value.model))
    ensures e.whiteBalance.Some? ==> e.whiteBalance.value == "Auto" || e.whiteBalance.value == "Manual"
    ensures e.dateTaken.Some? ==>
      (d.exif.Some? && d.exif.value.dateTimeOriginal.Some?
       && e.dateTaken.value == FormatDateTaken(d.exif.value.dateTimeOriginal.value))
    ensures d.exif.None? ==> e.camera.None? && e.lens.None? && e.iso.None? && e.dateTaken.None? && e.gps.None?
  {
    var sized := d.width > 0 && d.height > 0;
    TagFields(d.exif, fmt).(
      dimensions := if sized then Some(NatToString(d.width) + " \U{D7} " + NatToString(d.height)) else None,
      aspectRatio := if sized then Some(FormatAspectRatio(d.width, d.height)) else None,
      megapixels := if sized then Some(MegapixelsText(d.width, d.height, fmt)) else None,
      colorSpace := if Present(d.space) then Some(Upper(d.space.value)) else None,
      keywords := SelectKeywords(d.iptc, d.xmp))
  }

  /** The fields read from the EXIF tags alone; the others are left unset. */
  function TagFields(t: Option<ExifTags>, fmt: NumberText): (e: ExifData)
    requires t.Some? && t.value.dateTimeOriginal.Some? ==> ValidClock(t.value.dateTimeOriginal.value)
    ensures e.camera.Some? <==> t.Some? && (Present(t.value.make) || Present(t.value.model))
    ensures e.whiteBalance.Some? ==> e.whiteBalance.value == "Auto" || e.whiteBalance.value == "Manual"
    ensures e.dateTaken.Some? ==>
      (t.Some? && t.value.dateTimeOriginal.Some? && e.dateTaken.value == FormatDateTaken(t.value.dateTimeOriginal.value))
    ensures t.None? ==> e.camera.None? && e.lens.None? && e.iso.None? && e.dateTaken.None? && e.gps.None?
    ensures e.iso.Some? <==> t.Some? && t.value.iso.Some? && IsoTruthy(t.value.iso.value)
    ensures e.iso.Some? && t.value.iso.value.IsoNumber? ==> e.iso.value == Some(t.value.iso.value.n)
    ensures e.iso.Some? && t.value.iso.value.IsoList? ==>
      (e.iso.value.None? <==> |t.value.iso.value.items| == 0)
      && (e.iso.value.Some? ==> e.iso.value.value == t.value.iso.value.items[0])
  {
    ExifData(
      camera := if t.Some? then Camera(t.value) else None,
      lens := if t.Some? && Present(t.value.lensModel) then t.value.lensModel else None,
      focalLength := if t.Some? && PresentNumber(t.value.focalLength)
        then Some(fmt.show(t.value.focalLength.value) + "mm") else None,
      aperture := if t.Some? && PresentNumber(t.value.fNumber)
        then Some("f/" + fmt.show(t.value.fNumber.value)) else None,
      shutterSpeed := if t.Some? && PresentNumber(t.value.exposureTime)
        then Some(ShutterText(t.value.exposureTime.value, fmt)) else None,
      iso := if t.Some? && t.value.iso.Some? && IsoTruthy(t.value.iso.value) then Some(IsoValue(t.value.iso.value)) else None,
      dateTaken := if t.Some? && t.value.dateTimeOriginal.Some?
        then Some(FormatDateTaken(t.value.dateTimeOriginal.value)) else None,
      dimensions := None,
      aspectRatio := None,
      megapixels := None,
      exposureComp := if t.Some? && t.value.exposureBias.Some?
        then Some(ExposureCompText(t.value.exposureBias.value, fmt)) else None,
      whiteBalance := if t.Some? && t.value.whiteBalance.Some?
        then Some(if t.value.whiteBalance.value == 0 then "Auto" else "Manual") else None,
      flash := if t.Some? && t.value.flash.Some? then Some(FlashText(t.value.flash.value)) else None,
      colorSpace := None,
      keywords := None,
      gps := if t.Some? then t.value.gps else None)
  }

  /** `exif` is kept only when some field was set. */
  function BuildExif(d: Decoded, fmt: NumberText): (r: Option<ExifData>)
    requires d.exif.Some? && d.exif.value.dateTimeOriginal.Some? ==> ValidClock(d.exif.value.dateTimeOriginal.value)
    ensures r.None? <==>
      && SelectKeywords(d.iptc, d.xmp).None?
      && (d.width == 0 || d.height == 0)
      && !Present(d.space)
      && (d.exif.None? || SetsNothing(d.exif.value))
    ensures r.Some? ==> !r.value.IsEmpty() && r.value == ExifFields(d, fmt)
  {
    var e := ExifFields(d, fmt);
    if e.IsEmpty() then None else Some(e)
  }

  /**
    An `ISOSpeedRatings` list, even `[]` or `[0]`, passes the truthiness test and
    sets the `iso` key, so the image keeps its `exif` whatever else it lacks.
   */
  lemma IsoListKeepsExif(d: Decoded, fmt: NumberText, items: seq<int>)
    requires d.exif.Some? && d.exif.value.iso == Some(IsoList(items))
    requires d.exif.value.dateTimeOriginal.Some? ==> ValidClock(d.exif.value.dateTimeOriginal.value)
    ensures BuildExif(d, fmt).Some?
    ensures BuildExif(d, fmt).value.iso == Some(if |items| > 0 then Some(items[0]) else None)
  {
    assert !SetsNothing(d.exif.value);
  }

  // ---------------------------------------------------------------------------
  // The metadata cache

  datatype ImageMetadata = ImageMetadata(width: nat, height: nat, exif: Option<ExifData>)

  datatype CachedMetadata = CachedMetadata(mtimeMs: int, meta: ImageMetadata)

  /** The in-memory cache, keyed by file path. */
  type Cache = map<string, CachedMetadata>

  /** What a fresh read of a file yields. */
  function Extract(d: Decoded, fmt: NumberText): ImageMetadata
    requires d.exif.Some? && d.exif.value.dateTimeOriginal.Some? ==> ValidClock(d.exif.value.dateTimeOriginal.value)
  {
    ImageMetadata(d.width, d.height, BuildExif(d, fmt))
  }

  /** A stored entry is valid exactly when it was made at the file's current mtime. */
  predicate CacheHit(cache: Cache, path: string, mtimeMs: int) {
    path in cache && cache[path].mtimeMs == mtimeMs
  }

  /**
    `getImageMetadata(path)` for a file whose current mtime is `mtimeMs` and whose
    content decodes to `d`: the stored value while it is valid, else a fresh read
    that replaces the entry.
   */
  function GetImageMetadata(cache: Cache, path: string, mtimeMs: int, d: Decoded, fmt: NumberText)
    : (r: (ImageMetadata, Cache))
    requires d.exif.Some? && d.exif.value.dateTimeOriginal.Some? ==> ValidClock(d.exif.value.dateTimeOriginal.value)
    ensures CacheHit(cache, path, mtimeMs) ==> r.0 == cache[path].meta && r.1 == cache
    ensures !CacheHit(cache, path, mtimeMs) ==> r.0 == Extract(d, fmt)
    ensures path in r.1 && r.1[path] == CachedMetadata(mtimeMs, r.0)
    ensures r.1.Keys == cache.Keys + {path}
    ensures forall p :: p in cache && p != path ==> r.1[p] == cache[p]
  {
    if CacheHit(cache, path, mtimeMs) then (cache[path].meta, cache)
    else
      var meta := Extract(d, fmt);
      (meta, cache[path := CachedMetadata(mtimeMs, meta)])
  }

  /** Asking again for an unchanged file returns the same value from the cache, whatever the file decodes to. */
  lemma SecondReadHits(cache: Cache, path: string, mtimeMs: int, d: Decoded, d': Decoded, fmt: NumberText)
    requires d.exif.Some? && d.exif.value.dateTimeOriginal.Some? ==> ValidClock(d.exif.value.dateTimeOriginal.value)
    requires d'.exif.Some? && d'.exif.value.dateTimeOriginal.Some? ==> ValidClock(d'.exif.value.dateTimeOriginal.value)
    ensures var (m, c) := GetImageMetadata(cache, path, mtimeMs, d, fmt);
      CacheHit(c, path, mtimeMs) && GetImageMetadata(c, path, mtimeMs, d', fmt) == (m, c)
  {
  }

  /** Once the file's mtime changes, the stored value is not used. */
  lemma ChangedFileIsReread(cache: Cache, path: string, mtimeMs: int, d: Decoded, fmt: NumberText)
    requires d.exif.Some? && d.exif.value.dateTimeOriginal.Some? ==> ValidClock(d.exif.value.dateTimeOriginal.value)
    requires path in cache && cache[path].mtimeMs != mtimeMs
    ensures GetImageMetadata(cache, path, mtimeMs, d, fmt).0 == Extract(d, fmt)
  {
  }

  /**
    The pre-warm filter: a file needs parsing when it cannot be stat'ed
    (`mtimeMs` is None) or its entry is missing or stale.
   */
  predicate NeedsParsing(cache: Cache, path: string, mtimeMs: Option<int>) {
    mtimeMs.None? || !(path in cache && cache[path].mtimeMs == mtimeMs.value)
  }

  /** For a file that can be stat'ed, the pre-warm filter is exactly a cache miss. */
  lemma NeedsParsingIsMiss(cache: Cache, path: string, mtimeMs: int)
    ensures NeedsParsing(cache, path, Some(mtimeMs)) <==> !CacheHit(cache, path, mtimeMs)
  {
  }

  /** The files of `paths` the pre-warm pass parses, in order. */
  function Pending(cache: Cache, paths: seq<string>, statOf: string -> Option<int>): (r: seq<string>)
    ensures |r| <= |paths|
    ensures forall i :: 0 <= i < |r| ==> NeedsParsing(cache, r[i], statOf(r[i]))
    ensures forall i :: 0 <= i < |paths| && NeedsParsing(cache, paths[i], statOf(paths[i])) ==> paths[i] in r
  {
    var r := Filter(paths, (p: string) => NeedsParsing(cache, p, statOf(p)));
    forall i | 0 <= i < |paths| && NeedsParsing(cache, paths[i], statOf(paths[i]))
      ensures paths[i] in r
    {
      FilterMembers(paths, (p: string) => NeedsParsing(cache, p, statOf(p)), paths[i]);
    }
    r
  }

  /** Parsing a pending file takes it off the pending list while its mtime stays the same. */
  lemma ParsedFileNoLongerPending(cache: Cache, path: string, mtimeMs: int, d: Decoded, fmt: NumberText)
    requires d.exif.Some? && d.exif.value.dateTimeOriginal.Some? ==> ValidClock(d.exif.value.dateTimeOriginal.value)
    ensures !NeedsParsing(GetImageMetadata(cache, path, mtimeMs, d, fmt).1, path, Some(mtimeMs))
  {
  }
}
