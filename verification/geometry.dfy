/** Plane geometry of an image context: sizes, destination rectangles and
    what it means for a list of rectangles to tile a canvas exactly.
    Coordinates are whole points with the origin at the top-left corner and
    the y axis pointing down, as in a UIKit image context of scale 1. */
module Geometry {

  /** The `(width, height)` of an image or of a drawing context. */
  datatype Size = Size(width: nat, height: nat)

  /** A destination rectangle handed to `draw(in:)`. */
  datatype Rect = Rect(x: nat, y: nat, width: nat, height: nat)

  function Right(r: Rect): nat { r.x + r.width }

  function Bottom(r: Rect): nat { r.y + r.height }

  /** The size an image takes on when it is drawn into `r`. */
  function Extent(r: Rect): Size { Size(r.width, r.height) }

  function Area(s: Size): nat { s.width * s.height }

  /** The pixel whose top-left corner is `(px, py)` lies in `r` (half-open). */
  predicate Contains(r: Rect, px: int, py: int)
  {
    r.x <= px < Right(r) && r.y <= py < Bottom(r)
  }

  /** The pixel `(px, py)` lies on a canvas of size `c`. */
  predicate OnCanvas(c: Size, px: int, py: int)
  {
    0 <= px < c.width && 0 <= py < c.height
  }

  /** `r` does not reach past the right or bottom edge of the canvas. */
  predicate Inside(c: Size, r: Rect)
  {
    Right(r) <= c.width && Bottom(r) <= c.height
  }

  /** Every pixel of the canvas lies in at least one rectangle. */
  ghost predicate Covers(c: Size, rs: seq<Rect>)
  {
    forall px, py :: OnCanvas(c, px, py) ==>
      exists i :: 0 <= i < |rs| && Contains(rs[i], px, py)
  }

  /** No pixel lies in two different rectangles. */
  ghost predicate Disjoint(rs: seq<Rect>)
  {
    forall i, j, px, py :: 0 <= i < j < |rs| && Contains(rs[i], px, py) ==> !Contains(rs[j], px, py)
  }

  /** The rectangles partition the canvas: all inside it, no overlap, no gap. */
  ghost predicate Tiles(c: Size, rs: seq<Rect>)
  {
    && (forall i :: 0 <= i < |rs| ==> Inside(c, rs[i]))
    && Disjoint(rs)
    && Covers(c, rs)
  }

  /** Swapping the roles of the two axes. */
  function Transpose(s: Size): Size
  {
    Size(s.height, s.width)
  }

  /** Swapping the axes twice gives back the original size. */
  lemma TransposeInvolutive(s: Size)
    ensures Transpose(Transpose(s)) == s
  {
  }

  /** The mirror image of `r` in the main diagonal: it holds pixel `(x, y)`
      exactly when `r` holds pixel `(y, x)`, and has the transposed extent. */
  function TransposeRect(r: Rect): (t: Rect)
    ensures forall x, y :: Contains(t, x, y) <==> Contains(r, y, x)
    ensures Extent(t) == Transpose(Extent(r))
  {
    Rect(r.y, r.x, r.height, r.width)
  }
}
