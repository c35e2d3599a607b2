/**
  `GET /api/stats` (`server/src/routes/stats.ts`): totals, frequency tables of
  the camera settings, photos per year and per hour of the day, read from the
  `dateTaken` text the scanner writes (`Jan 15, 2025 at 3:30 PM`).
 */
module Stats {
  import opened Wrappers
  import opened Seqs
  import opened Sorting
  import opened Text
  import opened Types
  import opened Metadata
  import opened Frequency
  import opened Collection
  import MapRoute

  // ------------------------------------------------------------------ parseYear

  /** The first run of four digits in `s`: the regular expression `(\d{4})`. */
  function FirstYear(s: string): (r: Option<string>)
    ensures r.Some? ==> |r.value| == 4 && AllDigits(r.value)
    decreases |s|
  {
    if |s| < 4 then None
    else if AllDigits(s[..4]) then Some(s[..4])
    else FirstYear(s[1..])
  }

  /** `parseYear`: null for a missing or empty date, else the first four-digit run. */
  function ParseYear(dateTaken: Option<string>): (r: Option<string>)
    ensures r.Some? ==> Present(dateTaken) && |r.value| == 4 && AllDigits(r.value)
  {
    if !Present(dateTaken) then None else FirstYear(dateTaken.value)
  }

  /** Four digits in a row start at `i`. */
  predicate DigitsAt(w: string, i: nat) {
    i + 4 <= |w| && AllDigits(w[i..i + 4])
  }

  /** A prefix ending in a non-digit and holding no four digits in a row hides no year. */
  lemma {:induction false} YearAfter(pre: string, rest: string)
    requires |pre| > 0 && !IsDigit(pre[|pre| - 1])
    requires forall i: nat :: !DigitsAt(pre, i)
    ensures FirstYear(pre + rest) == FirstYear(rest)
  {
    var s := pre + rest;
    if |s| >= 4 {
      if |pre| >= 4 {
        assert s[..4] == pre[0..4];
        assert !DigitsAt(pre, 0);
      } else {
        assert s[..4][|pre| - 1] == pre[|pre| - 1];
      }
      assert !AllDigits(s[..4]);
      if |pre| > 1 {
        var tail := pre[1..];
        forall i: nat
          ensures !DigitsAt(tail, i)
        {
          if i + 4 <= |tail| {
            assert tail[i..i + 4] == pre[i + 1..i + 5];
            assert !DigitsAt(pre, i + 1);
          }
        }
        assert s[1..] == tail + rest;
        YearAfter(tail, rest);
      } else {
        assert s[1..] == rest;
      }
    } else {
      assert |rest| < 4;
    }
  }

  /** A four-digit year is rendered with four digits. */
  lemma FourDigitYear(y: int)
    requires 1000 <= y <= 9999
    ensures |IntToString(y)| == 4
  {
    var n: nat := y;
    var a := n / 10;
    var b := a / 10;
    var c := b / 10;
    assert 100 <= a <= 999 && 10 <= b <= 99 && 1 <= c <= 9;
    assert |NatToString(c)| == 1;
    assert NatToString(b) == NatToString(c) + [DigitChar(b % 10)];
    assert NatToString(a) == NatToString(b) + [DigitChar(a % 10)];
    assert NatToString(n) == NatToString(a) + [DigitChar(n % 10)];
  }

  /** The year of a scanner date is its year, for years written with four digits. */
  lemma ParseYearOfFormatted(d: DateTime)
    requires ValidClock(d) && 1000 <= d.year <= 9999
    ensures ParseYear(Some(FormatDateTaken(d))) == Some(IntToString(d.year))
  {
    var month := MonthNames[d.month];
    var day := NatToString(d.day);
    var year := IntToString(d.year);
    var pre := month + " " + day + ", ";
    var rest := " at " + NatToString(Hour12(d.hours)) + ":" + Pad2(d.minutes) + " " + Meridiem(d.hours);
    var s := FormatDateTaken(d);
    assert s == pre + (year + rest);
    assert |day| <= 2 by {
      assert d.day / 10 < 10;
    }
    MonthLetters(d.month);
    DatePrefixHidesYear(month, day);
    FourDigitYear(d.year);
    YearFollowsPrefix(pre, year, rest);
  }

  /** Four digits right after a prefix that hides no year are the first year. */
  lemma YearFollowsPrefix(pre: string, year: string, rest: string)
    requires |pre| > 0 && !IsDigit(pre[|pre| - 1]) && forall i: nat :: !DigitsAt(pre, i)
    requires |year| == 4 && AllDigits(year)
    ensures FirstYear(pre + (year + rest)) == Some(year)
  {
    YearAfter(pre, year + rest);
    assert (year + rest)[..4] == year;
  }

  /** `Mmm d, ` or `Mmm dd, ` holds no four digits in a row and ends in a non-digit. */
  lemma DatePrefixHidesYear(month: string, day: string)
    requires |month| == 3 && !IsDigit(month[0]) && !IsDigit(month[1]) && !IsDigit(month[2])
    requires 1 <= |day| <= 2
    ensures var pre := month + " " + day + ", ";
      |pre| > 0 && !IsDigit(pre[|pre| - 1]) && forall i: nat :: !DigitsAt(pre, i)
  {
    var pre := month + " " + day + ", ";
    forall k | 0 <= k < |pre|
      ensures IsDigit(pre[k]) ==> 4 <= k < 4 + |day|
    {
      if k < 3 {
        assert pre[k] == month[k];
      }
    }
    forall i: nat
      ensures !DigitsAt(pre, i)
    {
      if i + 4 <= |pre| {
        if i < 4 {
          assert pre[i..i + 4][0] == pre[i];
        } else {
          assert pre[i..i + 4][2] == pre[i + 2];
        }
      }
    }
  }

  /** Month abbreviations are three letters, none of them a digit. */
  lemma MonthLetters(m: nat)
    requires m < 12
    ensures var w := MonthNames[m];
      && |w| == 3 && !IsDigit(w[0]) && !IsDigit(w[1]) && !IsDigit(w[2])
      && LowerChar(w[2]) != 'a'
      && (LowerChar(w[0]) == 'a' ==> LowerChar(w[1]) != 't')
      && (LowerChar(w[1]) == 'a' ==> LowerChar(w[2]) != 't')
  {
    if m < 6 {
      if m < 3 {
        assert m == 0 || m == 1 || m == 2;
      } else {
        assert m == 3 || m == 4 || m == 5;
      }
    } else if m < 9 {
      assert m == 6 || m == 7 || m == 8;
    } else {
      assert m == 9 || m == 10 || m == 11;
    }
  }

  // ------------------------------------------------------------------ parseHour

  /** The captured hour digits and `AM`/`PM` of a match of `at (\d{1,2}):(\d{2}) (AM|PM)`. */
  datatype HourMatch = HourMatch(hour: string, meridiem: string)

  /** `AM` or `PM` in either case, as the `i` flag reads it. */
  predicate IsMeridiem(m: string) {
    |m| == 2 && (UpperChar(m[0]) == 'A' || UpperChar(m[0]) == 'P') && UpperChar(m[1]) == 'M'
  }

  /** `:(\d{2}) (AM|PM)` at the start of `v`. */
  predicate TailHere(v: string) {
    |v| >= 6 && v[0] == ':' && IsDigit(v[1]) && IsDigit(v[2]) && v[3] == ' ' && IsMeridiem(v[4..6])
  }

  /**
    The pattern anchored at the start of `t`: `at ` in either case, then two
    hour digits when the rest still matches after them, else one.
   */
  function MatchHere(t: string): (r: Option<HourMatch>)
    ensures r.Some? ==> 1 <= |r.value.hour| <= 2 && AllDigits(r.value.hour) && IsMeridiem(r.value.meridiem)
  {
    if |t| < 3 || LowerChar(t[0]) != 'a' || LowerChar(t[1]) != 't' || t[2] != ' ' then None
    else
      var u := t[3..];
      if |u| >= 2 && IsDigit(u[0]) && IsDigit(u[1]) && TailHere(u[2..]) then Some(HourMatch(u[..2], u[2..][4..6]))
      else if |u| >= 1 && IsDigit(u[0]) && TailHere(u[1..]) then Some(HourMatch(u[..1], u[1..][4..6]))
      else None
  }

  /** The leftmost match in `t`. */
  function FirstHourMatch(t: string): (r: Option<HourMatch>)
    ensures r.Some? ==> 1 <= |r.value.hour| <= 2 && AllDigits(r.value.hour) && IsMeridiem(r.value.meridiem)
  {
    if |t| == 0 then None
    else if MatchHere(t).Some? then MatchHere(t)
    else FirstHourMatch(t[1..])
  }

  /** The 12-hour clock read into 0..23 the way the source does: 12 AM is 0, other PM hours add 12. */
  function ToHour24(hour: nat, ampm: string): int {
    if ampm == "AM" && hour == 12 then 0
    else if ampm == "PM" && hour != 12 then hour + 12
    else hour
  }

  /** One or two digits are worth less than a hundred. */
  lemma TwoDigitsBound(s: string)
    requires |s| <= 2 && AllDigits(s)
    ensures DigitsValue(s) < 100
  {
    if |s| > 0 {
      assert DigitsValue(s[..|s| - 1]) < 10;
    }
  }

  /** `parseHour` as written: whatever one or two digits the pattern captured. */
  function ParseHourAsWritten(dateTaken: Option<string>): (r: Option<int>)
    ensures r.Some? ==> Present(dateTaken) && 0 <= r.value <= 111
  {
    if !Present(dateTaken) then None
    else
      var m := FirstHourMatch(dateTaken.value);
      if m.None? then None
      else
        TwoDigitsBound(m.value.hour);
        Some(ToHour24(DigitsValue(m.value.hour), Upper(m.value.meridiem)))
  }

  /**
    The source indexes the 24 hourly buckets with this value, but the pattern
    also accepts hours a 12-hour clock never shows: `13:30 PM` reads as 25.
   */
  lemma HourOutOfRange()
    ensures ParseHourAsWritten(Some("at 13:30 PM")) == Some(25)
    ensures ParseHour(Some("at 13:30 PM")) == None
  {
    var t := "at 13:30 PM";
    var u := t[3..];
    assert u == "13:30 PM";
    assert u[2..] == ":30 PM" && u[2..][4..6] == "PM" && u[..2] == "13";
    assert TailHere(u[2..]);
    assert MatchHere(t) == Some(HourMatch("13", "PM"));
    assert DigitsValue("13") == 13 by {
      assert "13"[..1] == "1";
    }
  }

  /**
    `parseHour` restricted to the hours a 12-hour clock shows, 1 to 12, so the
    result always names one of the 24 buckets.
   */
  function ParseHour(dateTaken: Option<string>): (r: Option<int>)
    ensures r.Some? ==> 0 <= r.value < 24
    ensures r.Some? ==> r == ParseHourAsWritten(dateTaken)
    ensures r.None? && ParseHourAsWritten(dateTaken).Some? ==>
      var m := FirstHourMatch(dateTaken.value);
      !(1 <= DigitsValue(m.value.hour) <= 12)
  {
    if !Present(dateTaken) then None
    else
      var m := FirstHourMatch(dateTaken.value);
      if m.None? then None
      else
        var h := DigitsValue(m.value.hour);
        if 1 <= h <= 12 then Some(ToHour24(h, Upper(m.value.meridiem))) else None
  }

  /** Every `a` of `w` is followed, inside `w`, by something other than `t`: no match can start in `w`. */
  predicate Clean(w: string) {
    forall i :: 0 <= i < |w| && LowerChar(w[i]) == 'a' ==> i + 1 < |w| && LowerChar(w[i + 1]) != 't'
  }

  /** A string without the letter `a` in either case is clean. */
  lemma CleanWithoutA(w: string)
    requires forall i :: 0 <= i < |w| ==> LowerChar(w[i]) != 'a'
    ensures Clean(w)
  {
  }

  lemma CleanConcat(a: string, b: string)
    requires Clean(a) && Clean(b)
    ensures Clean(a + b)
  {
    forall i | 0 <= i < |a + b| && LowerChar((a + b)[i]) == 'a'
      ensures i + 1 < |a + b| && LowerChar((a + b)[i + 1]) != 't'
    {
      if i < |a| {
        assert (a + b)[i] == a[i];
        assert (a + b)[i + 1] == a[i + 1];
      } else {
        assert (a + b)[i] == b[i - |a|];
        assert (a + b)[i + 1] == b[i + 1 - |a|];
      }
    }
  }

  /** No match starts in a clean prefix, so the leftmost match is the rest's. */
  lemma {:induction false} HourAfter(pre: string, rest: string)
    requires Clean(pre)
    ensures FirstHourMatch(pre + rest) == FirstHourMatch(rest)
  {
    if |pre| > 0 {
      var s := pre + rest;
      assert s[0] == pre[0];
      if LowerChar(pre[0]) == 'a' {
        assert s[1] == pre[1];
      }
      assert MatchHere(s).None?;
      assert s[1..] == pre[1..] + rest;
      HourAfter(pre[1..], rest);
    } else {
      assert pre + rest == rest;
    }
  }

  /** The scanner's clock text matches at its start, capturing the hour digits and the meridiem. */
  lemma MatchClock(h: string, mm: string, ap: string)
    requires 1 <= |h| <= 2 && AllDigits(h) && |mm| == 2 && AllDigits(mm)
    requires ap == "AM" || ap == "PM"
    ensures MatchHere("at " + h + ":" + mm + " " + ap) == Some(HourMatch(h, ap))
  {
    var t := "at " + h + ":" + mm + " " + ap;
    var v := ":" + mm + " " + ap;
    ClockTail(mm, ap);
    var u := t[3..];
    assert t[..3] == "at ";
    assert u == h + v;
    if |h| == 2 {
      assert u[2..] == v;
      assert u[..2] == h;
    } else {
      assert u[1..] == v;
      assert u[..1] == h;
    }
  }

  /** The minutes and meridiem after the hour: `:(\d{2}) (AM|PM)` matches and captures the meridiem. */
  lemma ClockTail(mm: string, ap: string)
    requires |mm| == 2 && AllDigits(mm)
    requires ap == "AM" || ap == "PM"
    ensures var v := ":" + mm + " " + ap;
      TailHere(v) && v[4..6] == ap && !IsDigit(v[0])
  {
    var v := ":" + mm + " " + ap;
    assert v[1] == mm[0] && v[2] == mm[1];
    assert v[4..6] == ap;
  }

  /** The text before ` at ` in a scanner date is clean. */
  lemma DatePartClean(d: DateTime)
    requires ValidClock(d)
    ensures Clean(MonthNames[d.month] + " " + NatToString(d.day) + ", " + IntToString(d.year) + " ")
  {
    var month := MonthNames[d.month];
    MonthLetters(d.month);
    var rest := " " + NatToString(d.day) + ", " + IntToString(d.year) + " ";
    forall i | 0 <= i < |rest|
      ensures LowerChar(rest[i]) != 'a'
    {
      assert rest[i] == ' ' || rest[i] == ',' || rest[i] == '-' || IsDigit(rest[i]);
    }
    CleanWithoutA(rest);
    CleanConcat(month, rest);
    assert month + rest == MonthNames[d.month] + " " + NatToString(d.day) + ", " + IntToString(d.year) + " ";
  }

  /** The 12-hour rendering and its meridiem read back as the hour of the day. */
  lemma Hour24OfHour12(hours: nat)
    requires hours < 24
    ensures ToHour24(Hour12(hours), Meridiem(hours)) == hours
  {
  }

  /** The hour of a scanner date is its hour: `parseHour` inverts the scanner's `h:mm AM|PM`. */
  lemma ParseHourOfFormatted(d: DateTime)
    requires ValidClock(d)
    ensures ParseHour(Some(FormatDateTaken(d))) == Some(d.hours)
    ensures ParseHourAsWritten(Some(FormatDateTaken(d))) == Some(d.hours)
  {
    var pre := MonthNames[d.month] + " " + NatToString(d.day) + ", " + IntToString(d.year) + " ";
    var h := NatToString(Hour12(d.hours));
    var ap := Meridiem(d.hours);
    var clock := "at " + h + ":" + Pad2(d.minutes) + " " + ap;
    var s := FormatDateTaken(d);
    assert s == pre + clock;
    DatePartClean(d);
    HourAfter(pre, clock);
    assert |h| <= 2;
    MatchClock(h, Pad2(d.minutes), ap);
    assert clock != [];
    assert FirstHourMatch(clock) == Some(HourMatch(h, ap));
    DigitsValueOfNatToString(Hour12(d.hours));
    assert Upper(ap) == ap;
    Hour24OfHour12(d.hours);
  }

  // ------------------------------------------------------------------ tallies

  function CameraOf(img: ImageInfo): Option<string> {
    if img.exif.Some? then img.exif.value.camera else None
  }

  function LensOf(img: ImageInfo): Option<string> {
    if img.exif.Some? then img.exif.value.lens else None
  }

  function FocalLengthOf(img: ImageInfo): Option<string> {
    if img.exif.Some? then img.exif.value.focalLength else None
  }

  function ApertureOf(img: ImageInfo): Option<string> {
    if img.exif.Some? then img.exif.value.aperture else None
  }

  /** `String(exif.iso)` when `exif.iso !== undefined`: a key holding `undefined` counts as unset. */
  function IsoOf(img: ImageInfo): Option<string> {
    if img.exif.Some? && img.exif.value.iso.Some? && img.exif.value.iso.value.Some?
    then Some(IntToString(img.exif.value.iso.value.value)) else None
  }

  function YearOf(img: ImageInfo): Option<string> {
    ParseYear(DateTakenOf(img))
  }

  function HourOf(img: ImageInfo): Option<int> {
    ParseHour(DateTakenOf(img))
  }

  /** The image was taken in hour `h` of the day. */
  function TakenIn(h: int): ImageInfo -> bool {
    (img: ImageInfo) => HourOf(img) == Some(h)
  }

  predicate HasHour(img: ImageInfo) {
    HourOf(img).Some?
  }

  /** `exif.gps` is set. */
  predicate Geotagged(img: ImageInfo) {
    img.exif.Some? && img.exif.value.gps.Some?
  }

  /** `exif.keywords` is set and not empty. */
  predicate Keyworded(img: ImageInfo) {
    img.exif.Some? && img.exif.value.keywords.Some? && |img.exif.value.keywords.value| > 0
  }

  /** The keys `addToMap` counts for `images`, in order: the truthy values of `key`. */
  function Values(images: seq<ImageInfo>, key: ImageInfo -> Option<string>): seq<string> {
    if |images| == 0 then []
    else
      var last := key(images[|images| - 1]);
      Values(images[..|images| - 1], key) + (if Present(last) then [last.value] else [])
  }

  /** `addToMap`: a falsy key is ignored. */
  function AddToMap(m: seq<Count>, key: Option<string>): seq<Count> {
    if Present(key) then Bump(m, key.value) else m
  }

  /** The running counters of the route handler. */
  datatype Tallies = Tallies(
    totalPhotos: nat,
    cameras: seq<Count>,
    lenses: seq<Count>,
    focalLengths: seq<Count>,
    apertures: seq<Count>,
    isos: seq<Count>,
    years: seq<Count>,
    byHour: seq<int>,
    geotaggedCount: nat,
    keywordedCount: nat)

  /** `new Array(n).fill(0)`. */
  function Zeros(n: nat): (r: seq<int>)
    ensures |r| == n && forall h :: 0 <= h < n ==> r[h] == 0
  {
    if n == 0 then [] else [0] + Zeros(n - 1)
  }

  const Start: Tallies := Tallies(0, [], [], [], [], [], [], Zeros(24), 0, 0)

  /** One pass of the loop body of `processImages`: every image counts, only those with EXIF data add the rest. */
  function Step(t: Tallies, img: ImageInfo): Tallies
    requires |t.byHour| == 24
  {
    var counted := t.(totalPhotos := t.totalPhotos + 1);
    if img.exif.None? then counted
    else
      var e := img.exif.value;
      var h := HourOf(img);
      counted.(
        cameras := AddToMap(t.cameras, e.camera),
        lenses := AddToMap(t.lenses, e.lens),
        focalLengths := AddToMap(t.focalLengths, e.focalLength),
        apertures := AddToMap(t.apertures, e.aperture),
        isos := AddToMap(t.isos, IsoOf(img)),
        geotaggedCount := t.geotaggedCount + (if e.gps.Some? then 1 else 0),
        keywordedCount := t.keywordedCount + (if e.keywords.Some? && |e.keywords.value| > 0 then 1 else 0),
        years := AddToMap(t.years, ParseYear(e.dateTaken)),
        byHour := if h.Some? then t.byHour[h.value := t.byHour[h.value] + 1] else t.byHour)
  }

  /** The loop body field by field, each counter moved by the image's own key. */
  lemma StepFields(t: Tallies, img: ImageInfo)
    requires |t.byHour| == 24
    ensures var s := Step(t, img);
      && s.totalPhotos == t.totalPhotos + 1
      && s.cameras == AddToMap(t.cameras, CameraOf(img))
      && s.lenses == AddToMap(t.lenses, LensOf(img))
      && s.focalLengths == AddToMap(t.focalLengths, FocalLengthOf(img))
      && s.apertures == AddToMap(t.apertures, ApertureOf(img))
      && s.isos == AddToMap(t.isos, IsoOf(img))
      && s.years == AddToMap(t.years, YearOf(img))
      && s.byHour == (if HasHour(img) then t.byHour[HourOf(img).value := t.byHour[HourOf(img).value] + 1] else t.byHour)
      && s.geotaggedCount == t.geotaggedCount + (if Geotagged(img) then 1 else 0)
      && s.keywordedCount == t.keywordedCount + (if Keyworded(img) then 1 else 0)
  {
  }

  /**
    The counters after `images`: one photo each, each field's table the tally
    of its truthy values, each hour's bucket the number of photos taken in it.
   */
  predicate Summarises(t: Tallies, images: seq<ImageInfo>) {
    && t.totalPhotos == |images|
    && t.cameras == Tally(Values(images, CameraOf))
    && t.lenses == Tally(Values(images, LensOf))
    && t.focalLengths == Tally(Values(images, FocalLengthOf))
    && t.apertures == Tally(Values(images, ApertureOf))
    && t.isos == Tally(Values(images, IsoOf))
    && t.years == Tally(Values(images, YearOf))
    && |t.byHour| == 24
    && (forall h :: 0 <= h < 24 ==> t.byHour[h] == CountIf(images, TakenIn(h)))
    && t.geotaggedCount == CountIf(images, Geotagged)
    && t.keywordedCount == CountIf(images, Keyworded)
  }

  /** The count over a list is the count over all but its last element, plus that element. */
  lemma CountIfLast<T>(s: seq<T>, p: T -> bool)
    requires |s| > 0
    ensures CountIf(s, p) == CountIf(s[..|s| - 1], p) + (if p(s[|s| - 1]) then 1 else 0)
  {
    var init := s[..|s| - 1];
    assert s == init + [s[|s| - 1]];
    FilterConcat(init, [s[|s| - 1]], p);
    assert Filter([s[|s| - 1]], p) == (if p(s[|s| - 1]) then [s[|s| - 1]] else []) + Filter([], p);
  }

  /** The last image adds its truthy value, if any, to a field's tally. */
  lemma TallyValuesLast(images: seq<ImageInfo>, key: ImageInfo -> Option<string>)
    requires |images| > 0
    ensures Tally(Values(images, key)) == AddToMap(Tally(Values(images[..|images| - 1], key)), key(images[|images| - 1]))
  {
    var last := key(images[|images| - 1]);
    var vs := Values(images[..|images| - 1], key);
    assert Values(images, key) == vs + (if Present(last) then [last.value] else []);
    if Present(last) {
      TallySnoc(vs, last.value);
    } else {
      assert Values(images, key) == vs;
    }
  }

  /** The hourly buckets after the last image. */
  lemma HoursLast(t: Tallies, images: seq<ImageInfo>)
    requires |images| > 0 && |t.byHour| == 24
    requires forall h :: 0 <= h < 24 ==> t.byHour[h] == CountIf(images[..|images| - 1], TakenIn(h))
    ensures forall h :: 0 <= h < 24 ==> Step(t, images[|images| - 1]).byHour[h] == CountIf(images, TakenIn(h))
  {
    StepFields(t, images[|images| - 1]);
    forall h | 0 <= h < 24
      ensures Step(t, images[|images| - 1]).byHour[h] == CountIf(images, TakenIn(h))
    {
      CountIfLast(images, TakenIn(h));
    }
  }

  /** The loop body on the last image keeps the counters summarising the images seen so far. */
  lemma StepSummarises(t: Tallies, images: seq<ImageInfo>)
    requires |images| > 0 && Summarises(t, images[..|images| - 1])
    ensures Summarises(Step(t, images[|images| - 1]), images)
  {
    StepFields(t, images[|images| - 1]);
    TallyValuesLast(images, CameraOf);
    TallyValuesLast(images, LensOf);
    TallyValuesLast(images, FocalLengthOf);
    TallyValuesLast(images, ApertureOf);
    TallyValuesLast(images, IsoOf);
    TallyValuesLast(images, YearOf);
    HoursLast(t, images);
    CountIfLast(images, Geotagged);
    CountIfLast(images, Keyworded);
  }

  /** Empty buckets add up to nothing. */
  lemma {:induction false} SumZeros(n: nat)
    ensures Sum(Zeros(n)) == 0
  {
    if n > 0 {
      SumZeros(n - 1);
    }
  }

  /** Adding one to a bucket adds one to the total. */
  lemma {:induction false} SumBump(s: seq<int>, h: nat)
    requires h < |s|
    ensures Sum(s[h := s[h] + 1]) == Sum(s) + 1
  {
    if h > 0 {
      SumBump(s[1..], h - 1);
      assert s[h := s[h] + 1][1..] == s[1..][h - 1 := s[1..][h - 1] + 1];
    }
  }

  /** Before any image every counter is zero. */
  lemma StartSummarises()
    ensures Summarises(Start, []) && Sum(Start.byHour) == 0
  {
    SumZeros(24);
    NoValues(CameraOf);
    NoValues(LensOf);
    NoValues(FocalLengthOf);
    NoValues(ApertureOf);
    NoValues(IsoOf);
    NoValues(YearOf);
    forall h | 0 <= h < 24
      ensures Start.byHour[h] == CountIf([], TakenIn(h))
    {
      assert Filter([], TakenIn(h)) == [];
    }
  }

  lemma NoValues(key: ImageInfo -> Option<string>)
    ensures Tally(Values([], key)) == []
  {
  }

  /** The loop body on the last image keeps the buckets adding up to the photos with a readable hour. */
  lemma StepSum(t: Tallies, images: seq<ImageInfo>)
    requires |images| > 0 && |t.byHour| == 24 && Sum(t.byHour) == CountIf(images[..|images| - 1], HasHour)
    ensures Sum(Step(t, images[|images| - 1]).byHour) == CountIf(images, HasHour)
  {
    var img := images[|images| - 1];
    StepFields(t, img);
    CountIfLast(images, HasHour);
    if HasHour(img) {
      SumBump(t.byHour, HourOf(img).value);
    }
  }

  /** The counters after feeding `images` to the loop body one by one, from zero. */
  function Fold(images: seq<ImageInfo>): (t: Tallies)
    ensures |t.byHour| == 24
  {
    if |images| == 0 then Start
    else
      var before := Fold(images[..|images| - 1]);
      Step(before, images[|images| - 1])
  }

  /** The folded counters summarise the images. */
  lemma {:induction false} FoldSummarises(images: seq<ImageInfo>)
    ensures Summarises(Fold(images), images)
    ensures Sum(Fold(images).byHour) == CountIf(images, HasHour)
  {
    if |images| == 0 {
      StartSummarises();
    } else {
      FoldSummarises(images[..|images| - 1]);
      StepSummarises(Fold(images[..|images| - 1]), images);
      StepSum(Fold(images[..|images| - 1]), images);
    }
  }

  /**
    `processImages` over every image in turn (the portfolio's, then each
    album's: one call per list adds up the same as one call on their
    concatenation).
   */
  method ProcessImages(images: seq<ImageInfo>) returns (t: Tallies)
    ensures Summarises(t, images)
    ensures Sum(t.byHour) == CountIf(images, HasHour) <= |images|
  {
    t := Start;
    var i := 0;
    while i < |images|
      invariant 0 <= i <= |images|
      invariant t == Fold(images[..i])
    {
      assert images[..i + 1][..i] == images[..i];
      t := Step(t, images[i]);
      i := i + 1;
    }
    assert images[..i] == images;
    FoldSummarises(images);
  }

  // ------------------------------------------------------------------- report

  /** One `{ year, count }` entry of `byYear`. */
  datatype YearCount = YearCount(year: string, count: nat)

  function ToYearCount(c: Count): YearCount {
    YearCount(c.name, c.count)
  }

  /** `a.year.localeCompare(b.year)` as an order. */
  predicate YearLe(a: YearCount, b: YearCount) {
    LexLe(a.year, b.year)
  }

  lemma YearLeIsTotalPreorder()
    ensures TotalPreorder(YearLe)
  {
    LexLeIsTotalPreorder();
  }

  /** `byYear`: the year table renamed to `{ year, count }` and sorted by year. */
  function ByYear(years: seq<Count>): (r: seq<YearCount>)
    ensures |r| == |years|
    ensures forall i, j :: 0 <= i < j < |r| ==> LexLe(r[i].year, r[j].year)
  {
    YearLeIsTotalPreorder();
    SortBy(Map(years, ToYearCount), YearLe)
  }

  /** Every counted year is four digits. */
  lemma {:induction false} YearValuesDigits(images: seq<ImageInfo>)
    ensures forall i :: 0 <= i < |Values(images, YearOf)| ==>
      |Values(images, YearOf)[i]| == 4 && AllDigits(Values(images, YearOf)[i])
  {
    if |images| > 0 {
      YearValuesDigits(images[..|images| - 1]);
    }
  }

  /** Two different four-digit years compare numerically. */
  lemma YearsOrdered(a: string, b: string)
    requires |a| == 4 && |b| == 4 && AllDigits(a) && AllDigits(b)
    requires LexLe(a, b) && a != b
    ensures DigitsValue(a) < DigitsValue(b)
  {
    LexLeDigits(a, b);
    if DigitsValue(a) == DigitsValue(b) {
      LexLeDigits(b, a);
      LexLeAntisymmetric(a, b);
    }
  }

  /** Sorting the renamed entries is renaming the entries sorted by name. */
  lemma ByYearRenamesSort(m: seq<Count>)
    ensures TotalPreorder(Pullback(YearLe, ToYearCount))
    ensures ByYear(m) == Map(SortBy(m, Pullback(YearLe, ToYearCount)), ToYearCount)
  {
    YearLeIsTotalPreorder();
    SortByMap(m, YearLe, ToYearCount);
  }

  /** Renaming a listing of the years keeps it a listing. */
  lemma RenamedListing(q: seq<Count>, vs: seq<string>)
    requires Lists(q, vs)
    ensures var r := Map(q, ToYearCount);
      && (forall i :: 0 <= i < |r| ==> r[i].year in vs && r[i].count == Occurrences(vs, r[i].year))
      && (forall y :: y in vs ==> YearCount(y, Occurrences(vs, y)) in r)
      && (forall i, j :: 0 <= i < j < |r| ==> r[i].year != r[j].year)
  {
    var r := Map(q, ToYearCount);
    forall y | y in vs
      ensures YearCount(y, Occurrences(vs, y)) in r
    {
      var k :| 0 <= k < |q| && q[k] == Count(y, Occurrences(vs, y));
      assert r[k] == YearCount(y, Occurrences(vs, y));
    }
  }

  /** Distinct four-digit years in code-point order are in increasing numeric order. */
  lemma Chronological(r: seq<YearCount>, vs: seq<string>)
    requires forall i :: 0 <= i < |vs| ==> |vs[i]| == 4 && AllDigits(vs[i])
    requires forall i :: 0 <= i < |r| ==> r[i].year in vs
    requires forall i, j :: 0 <= i < j < |r| ==> LexLe(r[i].year, r[j].year) && r[i].year != r[j].year
    ensures forall i, j :: 0 <= i < j < |r| ==> DigitsValue(r[i].year) < DigitsValue(r[j].year)
  {
    forall i, j | 0 <= i < j < |r|
      ensures DigitsValue(r[i].year) < DigitsValue(r[j].year)
    {
      assert r[i].year in vs && r[j].year in vs;
      YearsOrdered(r[i].year, r[j].year);
    }
  }

  /** A `byYear` entry: a four-digit year of `vs` with its number of occurrences. */
  predicate YearEntry(e: YearCount, vs: seq<string>) {
    e.year in vs && |e.year| == 4 && AllDigits(e.year) && e.count == Occurrences(vs, e.year)
  }

  /** The sorted table of four-digit years lists each once, with its count, in increasing order. */
  lemma YearTable(vs: seq<string>)
    requires forall i :: 0 <= i < |vs| ==> |vs[i]| == 4 && AllDigits(vs[i])
    ensures var r := ByYear(Tally(vs));
      && (forall i :: 0 <= i < |r| ==> YearEntry(r[i], vs))
      && (forall y :: y in vs ==> YearCount(y, Occurrences(vs, y)) in r)
      && (forall i, j :: 0 <= i < j < |r| ==> DigitsValue(r[i].year) < DigitsValue(r[j].year))
  {
    var m := Tally(vs);
    ByYearRenamesSort(m);
    var q := SortBy(m, Pullback(YearLe, ToYearCount));
    var r := ByYear(m);
    PermutedTally(vs, q);
    RenamedListing(q, vs);
    assert r == Map(q, ToYearCount);
    Chronological(r, vs);
    forall i | 0 <= i < |r|
      ensures YearEntry(r[i], vs)
    {
      var k :| 0 <= k < |vs| && vs[k] == r[i].year;
    }
  }

  /**
    `byYear` holds each year of the photos once, with the number of photos
    taken in it, in chronological order.
   */
  lemma ByYearChronological(images: seq<ImageInfo>)
    ensures var vs := Values(images, YearOf);
      var r := ByYear(Tally(vs));
      && (forall i :: 0 <= i < |r| ==> YearEntry(r[i], vs))
      && (forall y :: y in vs ==> YearCount(y, Occurrences(vs, y)) in r)
      && (forall i, j :: 0 <= i < j < |r| ==> DigitsValue(r[i].year) < DigitsValue(r[j].year))
  {
    YearValuesDigits(images);
    YearTable(Values(images, YearOf));
  }

  /** A frequency table of the route: `keys` listed, most frequent first. */
  predicate Ranked(r: seq<Count>, keys: seq<string>) {
    Lists(r, keys) && forall i, j :: 0 <= i < j < |r| ==> r[i].count >= r[j].count
  }

  lemma RankedTally(keys: seq<string>)
    ensures Ranked(ToSorted(Tally(keys)), keys)
  {
    SortedTally(keys);
  }

  /** `totalAlbums += group.albums.length` over the groups. */
  function GroupAlbums(groups: seq<GroupInfo>): nat {
    if |groups| == 0 then 0 else |groups[0].albums| + GroupAlbums(groups[1..])
  }

  /** `totalAlbums`: the top-level albums plus each group's albums. */
  function TotalAlbums(tree: AlbumTree): nat {
    |tree.albums| + GroupAlbums(tree.groups)
  }

  lemma {:induction false} GroupedCount(groups: seq<GroupInfo>, imagesOf: string -> seq<ImageInfo>)
    ensures |Flatten(Map(groups, (g: GroupInfo) => GroupSources(g, imagesOf)))| == GroupAlbums(groups)
  {
    if |groups| > 0 {
      GroupedCount(groups[1..], imagesOf);
      assert Map(groups, (g: GroupInfo) => GroupSources(g, imagesOf))[1..]
        == Map(groups[1..], (g: GroupInfo) => GroupSources(g, imagesOf));
    }
  }

  /** `totalAlbums` is the number of albums the route reads. */
  lemma AlbumsCounted(tree: AlbumTree, imagesOf: string -> seq<ImageInfo>)
    ensures TotalAlbums(tree) == |Sources(None, tree, imagesOf, MapRoute.NoSkip())|
  {
    GroupedCount(tree.groups, imagesOf);
    FilterAll(TopSources(tree, imagesOf), Kept(MapRoute.NoSkip()));
    FilterAll(GroupedSources(tree, imagesOf), Kept(MapRoute.NoSkip()));
  }

  /** The images the route reads: the portfolio and every album, none skipped. */
  function StatsImages(portfolio: seq<ImageInfo>, tree: AlbumTree, imagesOf: string -> seq<ImageInfo>)
    : seq<ImageInfo>
  {
    AllImages(Sources(Some(portfolio), tree, imagesOf, MapRoute.NoSkip()))
  }

  /** The response, without `diskUsageBytes`. */
  datatype Summary = Summary(
    totalPhotos: nat,
    totalAlbums: nat,
    totalGroups: nat,
    cameras: seq<Count>,
    lenses: seq<Count>,
    focalLengths: seq<Count>,
    apertures: seq<Count>,
    isos: seq<Count>,
    byYear: seq<YearCount>,
    byHour: seq<int>,
    geotaggedCount: nat,
    keywordedCount: nat)

  /** The route handler: one pass over every image, then the totals and the sorted tables. */
  method GetStats(portfolio: seq<ImageInfo>, tree: AlbumTree, imagesOf: string -> seq<ImageInfo>)
    returns (r: Summary)
    ensures var images := StatsImages(portfolio, tree, imagesOf);
      && r.totalPhotos == |images|
      && r.totalGroups == |tree.groups|
      && r.totalAlbums == |Sources(None, tree, imagesOf, MapRoute.NoSkip())|
      && r.geotaggedCount == CountIf(images, Geotagged)
      && r.keywordedCount == CountIf(images, Keyworded)
    ensures var images := StatsImages(portfolio, tree, imagesOf);
      && |r.byHour| == 24
      && (forall h :: 0 <= h < 24 ==> r.byHour[h] == CountIf(images, TakenIn(h)))
      && Sum(r.byHour) <= r.totalPhotos
    ensures var images := StatsImages(portfolio, tree, imagesOf);
      && Ranked(r.cameras, Values(images, CameraOf))
      && Ranked(r.lenses, Values(images, LensOf))
      && Ranked(r.focalLengths, Values(images, FocalLengthOf))
      && Ranked(r.apertures, Values(images, ApertureOf))
      && Ranked(r.isos, Values(images, IsoOf))
    ensures var vs := Values(StatsImages(portfolio, tree, imagesOf), YearOf);
      && (forall i :: 0 <= i < |r.byYear| ==> YearEntry(r.byYear[i], vs))
      && (forall y :: y in vs ==> YearCount(y, Occurrences(vs, y)) in r.byYear)
      && (forall i, j :: 0 <= i < j < |r.byYear| ==> DigitsValue(r.byYear[i].year) < DigitsValue(r.byYear[j].year))
  {
    var images := StatsImages(portfolio, tree, imagesOf);
    var t := ProcessImages(images);
    AlbumsCounted(tree, imagesOf);
    RankedTally(Values(images, CameraOf));
    RankedTally(Values(images, LensOf));
    RankedTally(Values(images, FocalLengthOf));
    RankedTally(Values(images, ApertureOf));
    RankedTally(Values(images, IsoOf));
    var years := Values(images, YearOf);
    assert t.years == Tally(years);
    YearValuesDigits(images);
    YearTable(years);
    r := Summary(t.totalPhotos, TotalAlbums(tree), |tree.groups|,
                 ToSorted(t.cameras), ToSorted(t.lenses), ToSorted(t.focalLengths),
                 ToSorted(t.apertures), ToSorted(t.isos), ByYear(t.years), t.byHour,
                 t.geotaggedCount, t.keywordedCount);
  }
}
