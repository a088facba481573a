/** The two collage strategies of `Template.swift`. Each takes the sizes of
    the images it was given and returns, unless the count guard rejects the
    input, the size of the image context it opens and the rectangle each
    input image is drawn into, in draw order (image 0 first). */
module Template {
  import opened Wrappers
  import opened Geometry

  /** The geometry of one composited image: the context size and one
      destination rectangle per input image. */
  datatype Composite = Composite(canvas: Size, rects: seq<Rect>)

  /** `VerticalTemplate.generateCollage`: the first image on top, the second
      stacked below it; both are drawn at the first image's width. */
  function VerticalCollage(images: seq<Size>): (r: Option<Composite>)
    ensures r.None? <==> |images| != 2
    ensures r.Some? ==> |r.value.rects| == |images|
    // each image keeps its own height and spans the whole canvas width
    ensures r.Some? ==> forall i :: 0 <= i < 2 ==>
      r.value.rects[i].x == 0 && r.value.rects[i].width == r.value.canvas.width &&
      r.value.rects[i].height == images[i].height
    // stacked flush: top edge, shared edge, bottom edge
    ensures r.Some? ==> r.value.rects[0].y == 0
    ensures r.Some? ==> r.value.rects[1].y == Bottom(r.value.rects[0])
    ensures r.Some? ==> Bottom(r.value.rects[1]) == r.value.canvas.height
  {
    if |images| != 2 then None
    else
      var size := Size(images[0].width, images[0].height + images[1].height);
      Some(Composite(size, [
        Rect(0, 0, size.width, images[0].height),
        Rect(0, images[0].height, size.width, images[1].height)]))
  }

  /** `HorizontalTemplate.generateCollage`: the first image on the left, the
      second to its right; both are drawn at the first image's height. */
  function HorizontalCollage(images: seq<Size>): (r: Option<Composite>)
    ensures r.None? <==> |images| != 2
    ensures r.Some? ==> |r.value.rects| == |images|
    // each image keeps its own width and spans the whole canvas height
    ensures r.Some? ==> forall i :: 0 <= i < 2 ==>
      r.value.rects[i].y == 0 && r.value.rects[i].height == r.value.canvas.height &&
      r.value.rects[i].width == images[i].width
    // side by side flush: left edge, shared edge, right edge
    ensures r.Some? ==> r.value.rects[0].x == 0
    ensures r.Some? ==> r.value.rects[1].x == Right(r.value.rects[0])
    ensures r.Some? ==> Right(r.value.rects[1]) == r.value.canvas.width
  {
    if |images| != 2 then None
    else
      var size := Size(images[0].width + images[1].width, images[0].height);
      Some(Composite(size, [
        Rect(0, 0, images[0].width, size.height),
        Rect(images[0].width, 0, images[1].width, size.height)]))
  }

  /** The vertical canvas is as wide as the first image and as tall as both
      images together. */
  lemma VerticalCanvas(images: seq<Size>)
    requires |images| == 2
    ensures VerticalCollage(images).Some?
    ensures VerticalCollage(images).value.canvas
         == Size(images[0].width, images[0].height + images[1].height)
  {
  }

  /** The horizontal canvas is as wide as both images together and as tall as
      the first image. */
  lemma HorizontalCanvas(images: seq<Size>)
    requires |images| == 2
    ensures HorizontalCollage(images).Some?
    ensures HorizontalCollage(images).value.canvas
         == Size(images[0].width + images[1].width, images[0].height)
  {
  }

  /** The two vertical destinations partition the canvas exactly. */
  lemma VerticalTiles(images: seq<Size>)
    ensures VerticalCollage(images).Some? ==>
      Tiles(VerticalCollage(images).value.canvas, VerticalCollage(images).value.rects)
  {
  }

  /** The two horizontal destinations partition the canvas exactly. */
  lemma HorizontalTiles(images: seq<Size>)
    ensures HorizontalCollage(images).Some? ==>
      Tiles(HorizontalCollage(images).value.canvas, HorizontalCollage(images).value.rects)
  {
  }

  /** No area is lost or drawn twice: the canvas area is the sum of the
      destination areas. A corollary of `VerticalTiles`; for two stacked
      rectangles of one width it comes down to distributivity. */
  lemma VerticalArea(images: seq<Size>)
    requires |images| == 2
    ensures var c := VerticalCollage(images).value;
      Area(c.canvas) == Area(Extent(c.rects[0])) + Area(Extent(c.rects[1]))
  {
  }

  /** The horizontal counterpart of `VerticalArea`, a corollary of
      `HorizontalTiles`. */
  lemma HorizontalArea(images: seq<Size>)
    requires |images| == 2
    ensures var c := HorizontalCollage(images).value;
      Area(c.canvas) == Area(Extent(c.rects[0])) + Area(Extent(c.rects[1]))
  {
  }

  /** The vertical layout draws every image at its own size exactly when the
      two images are equally wide; otherwise the second image is stretched or
      squeezed to the first image's width. */
  lemma VerticalKeepsSizesIff(images: seq<Size>)
    requires |images| == 2
    ensures (forall i :: 0 <= i < 2 ==> Extent(VerticalCollage(images).value.rects[i]) == images[i])
        <==> images[0].width == images[1].width
  {
  }

  /** The horizontal layout draws every image at its own size exactly when the
      two images are equally tall. */
  lemma HorizontalKeepsSizesIff(images: seq<Size>)
    requires |images| == 2
    ensures (forall i :: 0 <= i < 2 ==> Extent(HorizontalCollage(images).value.rects[i]) == images[i])
        <==> images[0].height == images[1].height
  {
  }

  /** Every size with its axes swapped; swapping back recovers the input. */
  function TransposeAll(images: seq<Size>): (t: seq<Size>)
    ensures |t| == |images|
    ensures forall i :: 0 <= i < |images| ==> Transpose(t[i]) == images[i]
  {
    seq(|images|, i requires 0 <= i < |images| => Transpose(images[i]))
  }

  function TransposeComposite(c: Composite): Composite
  {
    Composite(Transpose(c.canvas),
      seq(|c.rects|, i requires 0 <= i < |c.rects| => TransposeRect(c.rects[i])))
  }

  function TransposeResult(r: Option<Composite>): Option<Composite>
  {
    match r
    case None => None
    case Some(c) => Some(TransposeComposite(c))
  }

  /** The two strategies are mirror images of each other: the horizontal
      collage of some images is the vertical collage of the same images with
      their axes swapped, with the result's axes swapped back. */
  lemma HorizontalIsTransposedVertical(images: seq<Size>)
    ensures HorizontalCollage(images) == TransposeResult(VerticalCollage(TransposeAll(images)))
  {
    if |images| == 2 {
      var h := HorizontalCollage(images).value;
      var v := TransposeComposite(VerticalCollage(TransposeAll(images)).value);
      assert h.rects == v.rects;
    }
  }
}
