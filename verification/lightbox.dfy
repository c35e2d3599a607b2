/**
  The lightbox index state machine of `client/src/hooks/useLightbox.ts`: the
  index of the photo shown, or none while the lightbox is closed, over an
  image list of length `len`, and the keyboard handler attached while it is
  open.
 */
module Lightbox {
  import opened Wrappers

  /** `currentIndex`: `None` is `null`, the lightbox closed. */
  datatype Lightbox = Lightbox(current: Option<int>)

  const Closed: Lightbox := Lightbox(None)

  /** `isOpen`. */
  predicate IsOpen(s: Lightbox) {
    s.current.Some?
  }

  /** `hasNext`: open and before the last image. */
  predicate HasNext(s: Lightbox, len: nat) {
    s.current.Some? && s.current.value < len - 1
  }

  /** `hasPrev`: open and after the first image. */
  predicate HasPrev(s: Lightbox) {
    s.current.Some? && s.current.value > 0
  }

  /** The index is absent or addresses an image. */
  predicate InRange(s: Lightbox, len: nat) {
    s.current.Some? ==> 0 <= s.current.value < len
  }

  /** `open(index)`: shows that index, unchecked. */
  function Open(index: int): (r: Lightbox)
    ensures IsOpen(r) && r.current.value == index
  {
    Lightbox(Some(index))
  }

  /** `close`. */
  function Close(s: Lightbox): (r: Lightbox)
    ensures !IsOpen(r)
  {
    Closed
  }

  /** `next`: one image on when there is one, otherwise nothing happens. */
  function Next(s: Lightbox, len: nat): (r: Lightbox)
    ensures HasNext(s, len) ==> r.current == Some(s.current.value + 1)
    ensures !HasNext(s, len) ==> r == s
  {
    if s.current.Some? && s.current.value < len - 1 then Lightbox(Some(s.current.value + 1)) else s
  }

  /** `prev`: one image back when there is one, otherwise nothing happens. */
  function Prev(s: Lightbox): (r: Lightbox)
    ensures HasPrev(s) ==> r.current == Some(s.current.value - 1)
    ensures !HasPrev(s) ==> r == s
  {
    if s.current.Some? && s.current.value > 0 then Lightbox(Some(s.current.value - 1)) else s
  }

  /** `navigateTo(index)`: jumps there only when the index addresses an image, open or not. */
  function NavigateTo(s: Lightbox, len: nat, index: int): (r: Lightbox)
    ensures 0 <= index < len ==> r.current == Some(index)
    ensures !(0 <= index < len) ==> r == s
  {
    if index >= 0 && index < len then Lightbox(Some(index)) else s
  }

  /** `currentImage`: the image at the index; `null` when closed and `undefined` off the end both read as none. */
  function CurrentImage<T>(s: Lightbox, images: seq<T>): (r: Option<T>)
    ensures r.Some? <==> IsOpen(s) && InRange(s, |images|)
    ensures r.Some? ==> r.value == images[s.current.value]
  {
    if s.current.Some? && 0 <= s.current.value < |images| then Some(images[s.current.value]) else None
  }

  /** Moving never leaves the image list once the index is in it. */
  lemma StaysInRange(s: Lightbox, len: nat, index: int)
    requires InRange(s, len)
    ensures InRange(Next(s, len), len)
    ensures InRange(Prev(s), len)
    ensures InRange(NavigateTo(s, len, index), len)
    ensures InRange(Close(s), len)
  {
  }

  /** `open` alone does not keep the index in range: one past the end is shown as is. */
  lemma OpenUnchecked(len: nat)
    ensures !InRange(Open(len), len)
    ensures CurrentImage(Open(len), seq(len, i => 0)).None?
  {
  }

  /** A step is taken exactly when `hasNext` / `hasPrev` says one is possible. */
  lemma MovesIffPossible(s: Lightbox, len: nat)
    ensures Next(s, len) != s <==> HasNext(s, len)
    ensures Prev(s) != s <==> HasPrev(s)
  {
  }

  /** Inside the list `prev` undoes `next` and `next` undoes `prev`; an index opened below zero cannot come back. */
  lemma NextPrevInverse(s: Lightbox, len: nat)
    ensures HasNext(s, len) && InRange(s, len) ==> Prev(Next(s, len)) == s
    ensures HasPrev(s) && InRange(s, len) ==> Next(Prev(s), len) == s
    ensures Prev(Next(Open(-1), len)) != Open(-1) <==> len >= 1
  {
  }

  /** The keyboard listener, attached only while the lightbox is open. */
  function HandleKey(s: Lightbox, len: nat, key: string): (r: Lightbox)
    ensures !IsOpen(s) ==> r == s
    ensures IsOpen(s) && key == "Escape" ==> !IsOpen(r)
    ensures IsOpen(s) && key == "ArrowRight" ==> r == Next(s, len)
    ensures IsOpen(s) && key == "ArrowLeft" ==> r == Prev(s)
    ensures key != "Escape" && key != "ArrowRight" && key != "ArrowLeft" ==> r == s
  {
    if s.current.None? then s
    else if key == "Escape" then Close(s)
    else if key == "ArrowRight" then Next(s, len)
    else if key == "ArrowLeft" then Prev(s)
    else s
  }

  /** The state after pressing `key` `n` times. */
  function Press(s: Lightbox, len: nat, key: string, n: nat): Lightbox {
    if n == 0 then s else HandleKey(Press(s, len, key, n - 1), len, key)
  }

  /** Holding the right arrow walks forward one image per press and stops at the last image. */
  lemma {:induction false} HoldRight(i: nat, len: nat, n: nat)
    requires i < len
    ensures Press(Open(i), len, "ArrowRight", n) == Open(if i + n < len then i + n else len - 1)
  {
    if n > 0 {
      HoldRight(i, len, n - 1);
    }
  }

  /** Holding the left arrow walks back one image per press and stops at the first image. */
  lemma {:induction false} HoldLeft(i: nat, len: nat, n: nat)
    requires i < len
    ensures Press(Open(i), len, "ArrowLeft", n) == Open(if n <= i then i - n else 0)
  {
    if n > 0 {
      HoldLeft(i, len, n - 1);
    }
  }
}
