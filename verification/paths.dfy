/**
  The parts of Node's `path` module the core relies on, for slash-separated
  relative paths: `extname`, `parse` (dir / name) and `join`.
 */
module Paths {
  import opened Text
  import Seqs

  /**
    `path.extname(name)` for a name without `/`: from the last `.` to the end,
    except that a name whose only dot is its first character, or the name `..`,
    has no extension.
   */
  function ExtName(name: string): (e: string)
    ensures e == "" || (e[0] == '.' && EndsWith(name, e) && '.' !in e[1..])
    ensures e == "" <==> LastIndexOf(name, '.') <= 0 || name == ".."
  {
    var k := LastIndexOf(name, '.');
    if k <= 0 || name == ".." then "" else name[k..]
  }

  /** `path.parse(p).base`: the last segment. */
  function BaseName(p: string): (b: string)
    ensures '/' !in b
  {
    AfterLast(p, '/')
  }

  /** `path.parse(p).dir`: everything before the last `/`, or "" when there is none. */
  function DirName(p: string): (d: string)
    ensures |d| < |p| || p == ""
  {
    var k := LastIndexOf(p, '/');
    if k < 0 then "" else p[..k]
  }

  /** `path.parse(p).name`: the base name without its extension. */
  function StemName(p: string): (n: string)
    ensures BaseName(p) == n + ExtName(BaseName(p))
    ensures '/' !in n
  {
    var b := BaseName(p);
    var e := ExtName(b);
    var n := b[..|b| - |e|];
    WithoutSuffix(b, e);
    n
  }

  /** Cutting a suffix off a name without `/` leaves a prefix that puts it back, still without `/`. */
  lemma WithoutSuffix(b: string, e: string)
    requires EndsWith(b, e) && '/' !in b
    ensures b == b[..|b| - |e|] + e && '/' !in b[..|b| - |e|]
  {
    assert b == b[..|b| - |e|] + b[|b| - |e|..];
    assert forall i :: 0 <= i < |b| - |e| ==> b[..|b| - |e|][i] == b[i];
  }

  /** A relative path is its directory, a slash, and its base name. */
  lemma DirAndBase(p: string)
    requires '/' in p
    ensures p == DirName(p) + "/" + BaseName(p)
  {
  }

  /** The directory and base name of `d/b` for a name `b` without `/`. */
  lemma DirAndBaseOfJoined(d: string, b: string)
    requires '/' !in b
    ensures DirName(d + "/" + b) == d && BaseName(d + "/" + b) == b
  {
    LastIndexOfJoined(d, '/', b);
    assert (d + "/" + b)[..|d|] == d;
  }

  /** The extension of `n.x` for a non-empty dot-free `n` and a dot-free `x` is `.x`. */
  /** The extension of `n.x` is `.x` whatever dots `n` holds, as long as `n` is not empty. */
  lemma ExtNameAfter(n: string, x: string)
    requires n != "" && x != "" && '.' !in x
    ensures ExtName(n + "." + x) == "." + x
  {
    var b := n + "." + x;
    LastIndexOfJoined(n, '.', x);
    assert b[|n|..] == "." + x;
  }

  lemma ExtNameOfDotted(n: string, x: string)
    requires n != "" && '.' !in n && '.' !in x
    ensures ExtName(n + "." + x) == "." + x
  {
    var b := n + "." + x;
    LastIndexOfJoined(n, '.', x);
    assert b[0] == n[0] && n[0] in n;
    assert b[|n|..] == "." + x;
  }

  /** `path.join` of relative parts: empty parts vanish, the others are separated by `/`. */
  function Join(parts: seq<string>): string {
    JoinNonEmpty(Seqs.Filter(parts, NonEmpty))
  }

  predicate NonEmpty(s: string) {
    s != ""
  }

  function JoinNonEmpty(parts: seq<string>): string {
    if |parts| == 0 then ""
    else if |parts| == 1 then parts[0]
    else parts[0] + "/" + JoinNonEmpty(parts[1..])
  }

  /** The non-empty `/`-separated segments of a path, as a directory walk visits them. */
  function Segments(p: string): (r: seq<string>)
    ensures forall i :: 0 <= i < |r| ==> r[i] != "" && '/' !in r[i]
  {
    var parts := Split(p, '/');
    var r := Seqs.Filter(parts, NonEmpty);
    forall i | 0 <= i < |r|
      ensures '/' !in r[i]
    {
      Seqs.FilterMembers(parts, NonEmpty, r[i]);
    }
    r
  }

  /** Joining two parts: an empty part vanishes. */
  lemma JoinTwo(a: string, b: string)
    ensures Join([a, b]) == if a == "" then b else if b == "" then a else a + "/" + b
  {
    assert [a, b][1..] == [b];
    assert Seqs.Filter([b], NonEmpty) == (if b == "" then [] else [b]);
    assert Seqs.Filter([a, b], NonEmpty) == (if a == "" then [] else [a]) + Seqs.Filter([b], NonEmpty);
    if a != "" && b != "" {
      assert Seqs.Filter([a, b], NonEmpty) == [a, b];
      assert JoinNonEmpty([a, b]) == a + "/" + JoinNonEmpty([b]);
    }
  }

  /** Joining three parts, the first non-empty: `a/b/c`, with an empty middle part dropped. */
  lemma JoinThree(a: string, b: string, c: string)
    requires a != "" && c != ""
    ensures Join([a, b, c]) == a + "/" + Join([b, c])
  {
    var parts := [a, b, c];
    assert parts[1..] == [b, c];
    assert [b, c][1..] == [c];
    assert Seqs.Filter([c], NonEmpty) == [c];
    if b == "" {
      JoinTwo(c, "");
    } else {
      JoinTwo(b, c);
    }
  }

  /** A single name is a single segment. */
  lemma SegmentsOfName(n: string)
    requires n != "" && '/' !in n
    ensures Segments(n) == [n]
  {
    LastIndexOfAbsent(n, '/');
    assert Seqs.Filter([n], NonEmpty) == [n];
  }

  /** A leading segment `a` (non-empty, without `/`) stays the first segment. */
  lemma SegmentsUnder(a: string, rest: string)
    requires a != "" && '/' !in a
    ensures Segments(a + "/" + rest) == [a] + Segments(rest)
  {
    SplitFirst(a, '/', rest);
    Seqs.FilterConcat([a], Split(rest, '/'), NonEmpty);
  }

  /** A trailing name `n` (non-empty, without `/`) is the last segment. */
  lemma SegmentsSnoc(p: string, n: string)
    requires n != "" && '/' !in n
    ensures Segments(p + "/" + n) == Segments(p) + [n]
  {
    var s := p + "/" + n;
    LastIndexOfJoined(p, '/', n);
    assert s[..|p|] == p;
    assert Split(s, '/') == Split(p, '/') + [n];
    Seqs.FilterConcat(Split(p, '/'), [n], NonEmpty);
  }
}
