/**
  A snapshot of the photos directory. Every path of the model is relative to
  `config.photosDir`; a directory lists its entries in the order `readdirSync`
  returns them, and every node carries the `mtimeMs` that `statSync` reports.
 */
module FileSystem {
  import opened Wrappers
  import Paths

  datatype Node =
    | File(mtime: int, content: string)
    | Dir(mtime: int, entries: seq<Entry>)

  datatype Entry = Entry(name: string, node: Node)

  /** `fs.readdirSync(dir)`: the entry names in directory order. */
  function Names(entries: seq<Entry>): (r: seq<string>)
    ensures |r| == |entries|
    ensures forall i :: 0 <= i < |entries| ==> r[i] == entries[i].name
  {
    if |entries| == 0 then [] else [entries[0].name] + Names(entries[1..])
  }

  /** The entries of `o` when it is a directory. */
  function Listing(o: Option<Node>): Option<seq<Entry>> {
    if o.Some? && o.value.Dir? then Some(o.value.entries) else None
  }

  /** The node named `name` inside `entries` (the first one, should names repeat). */
  function Find(entries: seq<Entry>, name: string): (r: Option<Node>)
    ensures r.Some? <==> name in Names(entries)
  {
    if |entries| == 0 then None
    else if entries[0].name == name then Some(entries[0].node)
    else Find(entries[1..], name)
  }

  /** The child `name` of `o`, if `o` is a directory holding one. */
  function Child(o: Option<Node>, name: string): Option<Node> {
    match Listing(o)
    case None => None
    case Some(entries) => Find(entries, name)
  }

  /** The node reached from `root` along `segs`. */
  function Walk(root: Option<Node>, segs: seq<string>): Option<Node>
    decreases |segs|
  {
    if |segs| == 0 then root else Walk(Child(root, segs[0]), segs[1..])
  }

  /** `statSync(photosDir/p)` as a node, or None when nothing is there. */
  function Lookup(root: Node, p: string): Option<Node> {
    Walk(Some(root), Paths.Segments(p))
  }

  /** `fs.existsSync(dir/name)`. */
  predicate Exists(dir: Option<Node>, name: string) {
    Child(dir, name).Some?
  }

  /** `fs.readFileSync(dir/name, 'utf-8')` when `dir/name` is a regular file. */
  function ReadText(dir: Option<Node>, name: string): Option<string> {
    var c := Child(dir, name);
    if c.Some? && c.value.File? then Some(c.value.content) else None
  }

  predicate IsDirectory(o: Option<Node>) {
    o.Some? && o.value.Dir?
  }

  // ------------------------------------------------------------- well-formed trees

  /** A name `readdirSync` can return: non-empty and without `/`. */
  predicate ValidName(name: string) {
    name != "" && '/' !in name
  }

  /** Every directory below holds validly and distinctly named entries. */
  predicate WellFormedEntries(es: seq<Entry>)
    decreases es
  {
    && (forall i :: 0 <= i < |es| ==> ValidName(es[i].name))
    && (forall i, j :: 0 <= i < j < |es| ==> es[i].name != es[j].name)
    && (forall i :: 0 <= i < |es| && es[i].node.Dir? ==> WellFormedEntries(es[i].node.entries))
  }

  /** With distinct names, looking an entry up by its name finds that entry. */
  lemma FindDistinct(es: seq<Entry>, i: nat)
    requires i < |es|
    requires forall a, b :: 0 <= a < b < |es| ==> es[a].name != es[b].name
    ensures Find(es, es[i].name) == Some(es[i].node)
  {
    if i > 0 {
      FindDistinct(es[1..], i - 1);
    }
  }

  lemma WalkNone(segs: seq<string>)
    ensures Walk(None, segs) == None
    decreases |segs|
  {
    if |segs| > 0 {
      WalkNone(segs[1..]);
    }
  }

  lemma {:induction false} WalkSnoc(o: Option<Node>, segs: seq<string>, name: string)
    ensures Walk(o, segs + [name]) == Child(Walk(o, segs), name)
    decreases |segs|
  {
    if |segs| == 0 {
      assert segs + [name] == [name];
    } else {
      assert (segs + [name])[1..] == segs[1..] + [name];
      WalkSnoc(Child(o, segs[0]), segs[1..], name);
    }
  }

  /** The node at `base/name` is the child `name` of the node at `base`. */
  lemma LookupChild(root: Node, base: string, name: string)
    requires ValidName(name)
    ensures Lookup(root, base + "/" + name) == Child(Lookup(root, base), name)
  {
    Paths.SegmentsSnoc(base, name);
    WalkSnoc(Some(root), Paths.Segments(base), name);
  }

  /** A top-level name is the root's child of that name. */
  lemma LookupTop(root: Node, name: string)
    requires ValidName(name)
    ensures Lookup(root, name) == Child(Some(root), name)
  {
    Paths.SegmentsOfName(name);
    assert Walk(Some(root), [name]) == Walk(Child(Some(root), name), []);
  }

  /** What `Find` returns is the node of some entry of that name. */
  lemma FindIndex(es: seq<Entry>, name: string) returns (i: nat)
    requires Find(es, name).Some?
    ensures i < |es| && es[i].name == name && es[i].node == Find(es, name).value
  {
    if es[0].name == name {
      i := 0;
    } else {
      var k := FindIndex(es[1..], name);
      i := k + 1;
    }
  }

  /** A directory found in a well-formed listing is well-formed. */
  lemma WellFormedChild(es: seq<Entry>, name: string)
    requires WellFormedEntries(es)
    requires Find(es, name).Some? && Find(es, name).value.Dir?
    ensures WellFormedEntries(Find(es, name).value.entries)
  {
    var i := FindIndex(es, name);
  }

  /** In a well-formed listing, every entry is the child of its name. */
  lemma ChildrenOfListing(o: Option<Node>)
    requires Listing(o).Some? && WellFormedEntries(Listing(o).value)
    ensures forall i :: 0 <= i < |Listing(o).value| ==> Child(o, Listing(o).value[i].name) == Some(Listing(o).value[i].node)
  {
    var es := Listing(o).value;
    forall i | 0 <= i < |es|
      ensures Child(o, es[i].name) == Some(es[i].node)
    {
      FindDistinct(es, i);
    }
  }

  // ----------------------------------------------------------------- writing

  /** The entries with the first one named `name` now holding `n`, or `n` appended under that name. */
  function Replace(es: seq<Entry>, name: string, n: Node): (r: seq<Entry>)
    ensures Find(r, name) == Some(n)
    ensures forall other :: other != name ==> Find(r, other) == Find(es, other)
  {
    if |es| == 0 then [Entry(name, n)]
    else if es[0].name == name then
      assert ([Entry(name, n)] + es[1..])[1..] == es[1..];
      [Entry(name, n)] + es[1..]
    else
      var rest := Replace(es[1..], name, n);
      assert ([es[0]] + rest)[1..] == rest;
      [es[0]] + rest
  }

  /**
    The tree `o` after `mkdirSync(dir, {recursive: true})` and a write of `n` at
    the path `segs`: None when a file stands where a directory is needed or a
    directory stands where the file goes. Directories it creates carry the time `now`.
   */
  function PutAt(o: Option<Node>, segs: seq<string>, n: Node, now: int): (r: Option<Node>)
    ensures r.Some? ==> Walk(r, segs) == Some(n)
    decreases |segs|
  {
    if |segs| == 0 then
      if o.Some? && o.value.Dir? then None else Some(n)
    else if o.Some? && o.value.File? then None
    else
      var entries := if o.Some? then o.value.entries else [];
      var c := PutAt(Find(entries, segs[0]), segs[1..], n, now);
      if c.None? then None
      else Some(Dir(if o.Some? then o.value.mtime else now, Replace(entries, segs[0], c.value)))
  }

  /** A write below `segs[0]` leaves every path starting elsewhere as it was. */
  lemma PutAtElsewhere(o: Option<Node>, segs: seq<string>, n: Node, now: int, other: seq<string>)
    requires |segs| > 0 && |other| > 0 && segs[0] != other[0]
    requires PutAt(o, segs, n, now).Some?
    ensures Walk(PutAt(o, segs, n, now), other) == Walk(o, other)
  {
    if o.None? {
      WalkNone(other[1..]);
    }
  }

  /** `fs.writeFileSync(photosDir/p, ...)` after creating the directories on the way. */
  function WriteFile(root: Node, p: string, n: Node, now: int): (r: Option<Node>)
    ensures r.Some? ==> Lookup(r.value, p) == Some(n)
  {
    PutAt(Some(root), Paths.Segments(p), n, now)
  }

  /** A write leaves alone every path whose first segment differs from the written one. */
  lemma WriteFileElsewhere(root: Node, p: string, q: string, n: Node, now: int)
    requires |Paths.Segments(p)| > 0 && |Paths.Segments(q)| > 0
    requires Paths.Segments(p)[0] != Paths.Segments(q)[0]
    requires WriteFile(root, p, n, now).Some?
    ensures Lookup(WriteFile(root, p, n, now).value, q) == Lookup(root, q)
  {
    PutAtElsewhere(Some(root), Paths.Segments(p), n, now, Paths.Segments(q));
  }
}
