/**
  String primitives with the semantics of the JavaScript operations the source uses:
  `startsWith`, `includes`, `trim`, `toLowerCase` (ASCII letters), `lastIndexOf`,
  decimal rendering of integers, code-point ordering of strings, and the
  `replace(/[-_]/g, ' ').replace(/\b\w/g, upper)` name formatter.
 */
module Text {

  // ---------------------------------------------------------------- characters

  predicate IsDigit(c: char) { '0' <= c <= '9' }

  predicate IsAsciiUpper(c: char) { 'A' <= c <= 'Z' }

  predicate IsAsciiLower(c: char) { 'a' <= c <= 'z' }

  /** The regular-expression class `\w` (ASCII letters, digits and `_`). */
  predicate IsWordChar(c: char) {
    IsAsciiUpper(c) || IsAsciiLower(c) || IsDigit(c) || c == '_'
  }

  function LowerChar(c: char): char {
    if IsAsciiUpper(c) then (c as int + 32) as char else c
  }

  function UpperChar(c: char): char {
    if IsAsciiLower(c) then (c as int - 32) as char else c
  }

  function Lower(s: string): (r: string)
    ensures |r| == |s|
    ensures forall i :: 0 <= i < |s| ==> r[i] == LowerChar(s[i])
  {
    if |s| == 0 then [] else [LowerChar(s[0])] + Lower(s[1..])
  }

  /** `s.toUpperCase()` on ASCII letters; other characters are kept. */
  function Upper(s: string): (r: string)
    ensures |r| == |s|
    ensures forall i :: 0 <= i < |s| ==> r[i] == UpperChar(s[i])
  {
    if |s| == 0 then [] else [UpperChar(s[0])] + Upper(s[1..])
  }

  /** White space as removed by `String.prototype.trim`. */
  predicate IsSpace(c: char) {
    || c == ' ' || c == '\t' || c == '\n' || c == '\r' || c == '\U{0B}' || c == '\U{0C}'
    || c == '\U{A0}' || c == '\U{1680}' || ('\U{2000}' <= c <= '\U{200A}')
    || c == '\U{2028}' || c == '\U{2029}' || c == '\U{202F}' || c == '\U{205F}'
    || c == '\U{3000}' || c == '\U{FEFF}'
  }

  // ------------------------------------------------------------------- prefixes

  predicate StartsWith(s: string, p: string) {
    |p| <= |s| && s[..|p|] == p
  }

  predicate EndsWith(s: string, p: string) {
    |p| <= |s| && s[|s| - |p|..] == p
  }

  /** `s.includes(t)`: `t` occurs in `s` at some position. */
  predicate Contains(s: string, t: string)
    decreases |s|
  {
    StartsWith(s, t) || (|s| > 0 && Contains(s[1..], t))
  }

  lemma ContainsAt(s: string, t: string, i: nat)
    requires i + |t| <= |s| && s[i..i + |t|] == t
    ensures Contains(s, t)
  {
    if i > 0 {
      assert s[1..][i - 1..i - 1 + |t|] == t;
      ContainsAt(s[1..], t, i - 1);
    }
  }

  // ------------------------------------------------------------------- trimming

  function TrimStart(s: string): (r: string)
    ensures |r| <= |s| && r == s[|s| - |r|..]
    ensures |r| > 0 ==> !IsSpace(r[0])
    ensures forall i :: 0 <= i < |s| - |r| ==> IsSpace(s[i])
  {
    if |s| > 0 && IsSpace(s[0]) then TrimStart(s[1..]) else s
  }

  function TrimEnd(s: string): (r: string)
    ensures |r| <= |s| && r == s[..|r|]
    ensures |r| > 0 ==> !IsSpace(r[|r| - 1])
    ensures forall i :: |r| <= i < |s| ==> IsSpace(s[i])
  {
    if |s| > 0 && IsSpace(s[|s| - 1]) then TrimEnd(s[..|s| - 1]) else s
  }

  /** `s.trim()`: `s` without leading and trailing white space. */
  function Trim(s: string): (r: string)
    ensures |r| <= |s|
    ensures |r| > 0 ==> !IsSpace(r[0]) && !IsSpace(r[|r| - 1])
    ensures Contains(s, r)
  {
    var a := TrimStart(s);
    var r := TrimEnd(a);
    assert s[|s| - |a|..][..|r|] == s[|s| - |a|..|s| - |a| + |r|];
    ContainsAt(s, r, |s| - |a|);
    r
  }

  lemma TrimOfUnpadded(s: string)
    requires |s| > 0 ==> !IsSpace(s[0]) && !IsSpace(s[|s| - 1])
    ensures Trim(s) == s
  {
  }

  /** Trimming is idempotent. */
  lemma TrimIdempotent(s: string)
    ensures Trim(Trim(s)) == Trim(s)
  {
    TrimOfUnpadded(Trim(s));
  }

  // ------------------------------------------------------------------- searching

  /** `s.lastIndexOf(c)`: the last position of `c`, or -1. */
  function LastIndexOf(s: string, c: char): (k: int)
    ensures -1 <= k < |s|
    ensures k >= 0 ==> s[k] == c
    ensures forall i :: k < i < |s| ==> s[i] != c
  {
    if |s| == 0 then -1
    else if s[|s| - 1] == c then |s| - 1
    else LastIndexOf(s[..|s| - 1], c)
  }

  /** The part of `s` after its last `c` (the whole of `s` when there is none): `s.split(c).pop()`. */
  function AfterLast(s: string, c: char): (r: string)
    ensures c !in r
    ensures EndsWith(s, r)
  {
    s[LastIndexOf(s, c) + 1..]
  }

  /** `s.split(c)`. */
  function Split(s: string, c: char): (r: seq<string>)
    ensures |r| >= 1
    ensures forall i :: 0 <= i < |r| ==> c !in r[i]
    decreases |s|
  {
    var k := LastIndexOf(s, c);
    if k < 0 then [s] else Split(s[..k], c) + [s[k + 1..]]
  }

  /** The last `c` of `x + [c] + y` is the joining one when `y` holds no `c`. */
  lemma {:induction false} LastIndexOfJoined(x: string, c: char, y: string)
    requires c !in y
    ensures LastIndexOf(x + [c] + y, c) == |x|
    ensures AfterLast(x + [c] + y, c) == y
    decreases |y|
  {
    var s := x + [c] + y;
    if |y| == 0 {
      assert s == x + [c];
    } else {
      var y' := y[..|y| - 1];
      assert s[..|s| - 1] == x + [c] + y';
      assert s[|s| - 1] == y[|y| - 1];
      LastIndexOfJoined(x, c, y');
    }
    assert s[|x| + 1..] == y;
  }

  lemma LastIndexOfAbsent(a: string, c: char)
    requires c !in a
    ensures LastIndexOf(a, c) == -1
  {
  }

  lemma {:induction false} LastIndexOfInSuffix(x: string, y: string, c: char)
    requires LastIndexOf(y, c) >= 0
    ensures LastIndexOf(x + y, c) == |x| + LastIndexOf(y, c)
    decreases |y|
  {
    var s := x + y;
    assert s[|s| - 1] == y[|y| - 1];
    if y[|y| - 1] != c {
      var y' := y[..|y| - 1];
      assert s[..|s| - 1] == x + y';
      LastIndexOfInSuffix(x, y', c);
    }
  }

  lemma SplitFirstLast(a: string, c: char, b: string)
    requires c !in a && c !in b
    ensures Split(a + [c] + b, c) == [a, b]
  {
    var s := a + [c] + b;
    LastIndexOfAbsent(a, c);
    LastIndexOfJoined(a, c, b);
    assert s[..|a|] == a;
  }

  /** Splitting at a first `c` splits off the text before it. */
  lemma {:induction false} SplitFirst(a: string, c: char, b: string)
    requires c !in a
    ensures Split(a + [c] + b, c) == [a] + Split(b, c)
    decreases |b|
  {
    var kb := LastIndexOf(b, c);
    if kb < 0 {
      LastIndexOfAbsent(b, c);
      SplitFirstLast(a, c, b);
    } else {
      var s := a + [c] + b;
      LastIndexOfInSuffix(a + [c], b, c);
      var k := LastIndexOf(s, c);
      assert k == |a| + 1 + kb;
      SplitUnfold(s, c);
      SplitUnfold(b, c);
      JoinedSlices(a, c, b, kb);
      SplitFirst(a, c, b[..kb]);
      assert Split(s[..k], c) == [a] + Split(b[..kb], c);
      Reassociate(Split(s, c), [a], Split(b[..kb], c), [b[kb + 1..]]);
    }
  }

  lemma SplitUnfold(s: string, c: char)
    requires LastIndexOf(s, c) >= 0
    ensures Split(s, c) == Split(s[..LastIndexOf(s, c)], c) + [s[LastIndexOf(s, c) + 1..]]
  {
  }

  lemma JoinedSlices(a: string, c: char, b: string, kb: nat)
    requires kb < |b|
    ensures (a + [c] + b)[..|a| + 1 + kb] == a + [c] + b[..kb]
    ensures (a + [c] + b)[|a| + 1 + kb + 1..] == b[kb + 1..]
  {
  }

  lemma Reassociate<T>(r: seq<T>, x: seq<T>, y: seq<T>, z: seq<T>)
    requires r == (x + y) + z
    ensures r == x + (y + z)
  {
  }

  /** A common suffix cancels. */
  lemma CancelRight<T>(a: seq<T>, b: seq<T>, t: seq<T>)
    requires a + t == b + t
    ensures a == b
  {
    assert |a| == |b|;
    assert a == (a + t)[..|a|];
    assert b == (b + t)[..|b|];
  }

  /** A common prefix cancels. */
  lemma CancelLeft<T>(t: seq<T>, a: seq<T>, b: seq<T>)
    requires t + a == t + b
    ensures a == b
  {
    assert a == (t + a)[|t|..];
    assert b == (t + b)[|t|..];
  }

  // --------------------------------------------------------- decimal numbers

  function DigitChar(d: nat): char
    requires d < 10
  {
    ('0' as int + d) as char
  }

  function DigitValue(c: char): nat
    requires IsDigit(c)
  {
    c as int - '0' as int
  }

  predicate AllDigits(s: string) {
    forall i :: 0 <= i < |s| ==> IsDigit(s[i])
  }

  /** `${n}` for a non-negative integer `n`. */
  function NatToString(n: nat): (r: string)
    ensures |r| >= 1 && AllDigits(r)
    ensures |r| == 1 <==> n < 10
    ensures n >= 10 ==> r[0] != '0'
  {
    if n < 10 then [DigitChar(n)]
    else NatToString(n / 10) + [DigitChar(n % 10)]
  }

  /** Value of a string of decimal digits (`parseInt(s, 10)` on such a string). */
  function DigitsValue(s: string): nat
    requires AllDigits(s)
  {
    if |s| == 0 then 0 else 10 * DigitsValue(s[..|s| - 1]) + DigitValue(s[|s| - 1])
  }

  /** Reading back a rendered number gives the number. */
  lemma {:induction false} DigitsValueOfNatToString(n: nat)
    ensures DigitsValue(NatToString(n)) == n
  {
    if n >= 10 {
      var r := NatToString(n);
      assert r[..|r| - 1] == NatToString(n / 10);
      DigitsValueOfNatToString(n / 10);
    }
  }

  /** Two numbers render identically only if they are equal. */
  lemma NatToStringInjective(a: nat, b: nat)
    requires NatToString(a) == NatToString(b)
    ensures a == b
  {
    DigitsValueOfNatToString(a);
    DigitsValueOfNatToString(b);
  }

  function Pow10(n: nat): (p: nat)
    ensures p >= 1
  {
    if n == 0 then 1 else 10 * Pow10(n - 1)
  }

  /** `n` digits are worth less than `10^n`. */
  lemma {:induction false} DigitsValueBound(s: string)
    requires AllDigits(s)
    ensures DigitsValue(s) < Pow10(|s|)
  {
    if |s| > 0 {
      DigitsValueBound(s[..|s| - 1]);
    }
  }

  /** The leading digit is worth its value times `10^(n-1)`. */
  lemma {:induction false} DigitsValueFront(s: string)
    requires AllDigits(s) && |s| > 0
    ensures DigitsValue(s) == DigitValue(s[0]) * Pow10(|s| - 1) + DigitsValue(s[1..])
  {
    if |s| > 1 {
      var init := s[..|s| - 1];
      DigitsValueFront(init);
      DigitsValueOfTail(s);
      ShiftDigit(DigitsValue(s), DigitValue(s[0]), Pow10(|s| - 2), DigitsValue(init[1..]), DigitValue(s[|s| - 1]));
    }
  }

  /** The value of all but the first digit, read as the value of the middle digits and the last one. */
  lemma DigitsValueOfTail(s: string)
    requires AllDigits(s) && |s| > 1
    ensures DigitsValue(s[1..]) == 10 * DigitsValue(s[..|s| - 1][1..]) + DigitValue(s[|s| - 1])
  {
    assert s[1..][..|s| - 2] == s[..|s| - 1][1..];
  }

  lemma ShiftDigit(v: int, d0: int, p: int, middle: int, last: int)
    requires v == 10 * (d0 * p + middle) + last
    ensures v == d0 * (10 * p) + (10 * middle + last)
  {
    assert 10 * (d0 * p) == d0 * (10 * p);
  }

  /** Among digit strings of one length, code-point order is numeric order. */
  lemma {:induction false} LexLeDigits(a: string, b: string)
    requires |a| == |b| && AllDigits(a) && AllDigits(b)
    ensures LexLe(a, b) <==> DigitsValue(a) <= DigitsValue(b)
  {
    if |a| > 0 {
      DigitsValueFront(a);
      DigitsValueFront(b);
      DigitsValueBound(a[1..]);
      DigitsValueBound(b[1..]);
      var p := Pow10(|a| - 1);
      var x := DigitValue(a[0]);
      var y := DigitValue(b[0]);
      if x < y {
        LeadingDigitDecides(x, y, p, DigitsValue(a[1..]), DigitsValue(b[1..]));
      } else if y < x {
        LeadingDigitDecides(y, x, p, DigitsValue(b[1..]), DigitsValue(a[1..]));
      } else {
        assert a[0] == b[0];
        LexLeDigits(a[1..], b[1..]);
      }
    }
  }

  lemma LeadingDigitDecides(x: nat, y: nat, p: nat, ra: nat, rb: nat)
    requires x < y && ra < p && rb < p
    ensures x * p + ra < y * p + rb
  {
    assert (x + 1) * p <= y * p;
  }

  /** `String(i)` for an integer. */
  function IntToString(i: int): string {
    if i < 0 then "-" + NatToString(-i) else NatToString(i)
  }

  // ------------------------------------------------------------------- ordering

  /**
    Code-point ordering of strings. It stands in for the default
    `Array.prototype.sort`, which compares UTF-16 code units, and for
    `localeCompare`; the code-unit order differs only for characters above U+FFFF.
   */
  predicate LexLe(a: string, b: string) {
    if |a| == 0 then true
    else if |b| == 0 then false
    else if a[0] != b[0] then a[0] < b[0]
    else LexLe(a[1..], b[1..])
  }

  /** Strings that agree up to `k` and differ there are ordered by that character. */
  lemma {:induction false} LexFirstDifference(a: string, b: string, k: nat)
    requires k < |a| && k < |b| && a[..k] == b[..k] && a[k] < b[k]
    ensures LexLe(a, b) && !LexLe(b, a)
  {
    if k > 0 {
      assert a[0] == a[..k][0] == b[..k][0] == b[0];
      assert a[1..][..k - 1] == a[..k][1..];
      assert b[1..][..k - 1] == b[..k][1..];
      LexFirstDifference(a[1..], b[1..], k - 1);
    }
  }

  lemma LexLeTotal(a: string, b: string)
    ensures LexLe(a, b) || LexLe(b, a)
  {
  }

  lemma LexLeAntisymmetric(a: string, b: string)
    requires LexLe(a, b) && LexLe(b, a)
    ensures a == b
  {
    if |a| > 0 && |b| > 0 && a[0] == b[0] {
      LexLeAntisymmetric(a[1..], b[1..]);
      assert a == [a[0]] + a[1..] && b == [b[0]] + b[1..];
    }
  }

  lemma LexLeTransitive(a: string, b: string, c: string)
    requires LexLe(a, b) && LexLe(b, c)
    ensures LexLe(a, c)
  {
    if |a| > 0 && |b| > 0 && |c| > 0 && a[0] == b[0] && b[0] == c[0] {
      LexLeTransitive(a[1..], b[1..], c[1..]);
    }
  }

  /** Strict code-point order. */
  predicate LexLt(a: string, b: string) {
    LexLe(a, b) && a != b
  }

  // --------------------------------------------------------------- name format

  /** `s.replace(/[-_]/g, ' ')`. */
  function SeparatorsToSpaces(s: string): (r: string)
    ensures |r| == |s|
    ensures forall i :: 0 <= i < |s| ==> r[i] == (if s[i] == '-' || s[i] == '_' then ' ' else s[i])
  {
    if |s| == 0 then [] else [if s[0] == '-' || s[0] == '_' then ' ' else s[0]] + SeparatorsToSpaces(s[1..])
  }

  /** Position `i` of `s` is matched by `\b\w`: a word character not preceded by one. */
  predicate WordStart(s: string, i: nat)
    requires i < |s|
  {
    IsWordChar(s[i]) && (i == 0 || !IsWordChar(s[i - 1]))
  }

  /** `s.replace(/\b\w/g, c => c.toUpperCase())`. */
  function CapitalizeWords(s: string): (r: string)
    ensures |r| == |s|
    ensures forall i :: 0 <= i < |s| ==> r[i] == (if WordStart(s, i) then UpperChar(s[i]) else s[i])
  {
    CapitalizeFrom(s, 0)
  }

  function CapitalizeFrom(s: string, i: nat): (r: string)
    requires i <= |s|
    ensures |r| == |s| - i
    ensures forall k :: i <= k < |s| ==> r[k - i] == (if WordStart(s, k) then UpperChar(s[k]) else s[k])
    decreases |s| - i
  {
    if i == |s| then []
    else [if WordStart(s, i) then UpperChar(s[i]) else s[i]] + CapitalizeFrom(s, i + 1)
  }

  /**
    The display name of a directory (`formatAlbumName` / `formatName`):
    separators become spaces and every word-initial letter is upper-cased.
   */
  function FormatName(s: string): string {
    CapitalizeWords(SeparatorsToSpaces(s))
  }

  lemma UpperKeepsWordChar(c: char)
    ensures IsWordChar(UpperChar(c)) <==> IsWordChar(c)
  {
  }

  /**
    What a formatted name looks like: the same length, no `-` or `_` left,
    every word-initial character upper-case, every other character unchanged
    (apart from separators becoming spaces).
   */
  lemma FormatNameShape(s: string)
    ensures |FormatName(s)| == |s|
    ensures forall i :: 0 <= i < |s| ==> FormatName(s)[i] != '-' && FormatName(s)[i] != '_'
    ensures forall i :: 0 <= i < |s| && (s[i] == '-' || s[i] == '_') ==> FormatName(s)[i] == ' '
    ensures forall i :: 0 <= i < |s| && WordStart(SeparatorsToSpaces(s), i) ==> !IsAsciiLower(FormatName(s)[i])
    ensures forall i :: 0 <= i < |s| && !WordStart(SeparatorsToSpaces(s), i) ==> FormatName(s)[i] == SeparatorsToSpaces(s)[i]
  {
  }

  /** Formatting an already formatted name changes nothing. */
  lemma {:induction false} FormatNameIdempotent(s: string)
    ensures FormatName(FormatName(s)) == FormatName(s)
  {
    var t := SeparatorsToSpaces(s);
    var f := FormatName(s);
    assert SeparatorsToSpaces(f) == f;
    forall i | 0 <= i < |f|
      ensures IsWordChar(f[i]) <==> IsWordChar(t[i])
    {
      UpperKeepsWordChar(t[i]);
    }
    forall i | 0 <= i < |f|
      ensures CapitalizeWords(f)[i] == f[i]
    {
      if WordStart(f, i) {
        assert WordStart(t, i);
      }
    }
  }
}
