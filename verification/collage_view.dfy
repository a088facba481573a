/** The template picker of `CollageView.swift`: a two-case tag that selects
    one of the strategies, and the "Save Collage" path that asks the selected
    strategy for a composited image. */
module CollageView {
  import opened Wrappers
  import opened Geometry
  import opened Template
  import opened Canvas

  /** `CollageView.TemplateType`. */
  datatype TemplateType = Vertical | Horizontal

  /** `selectedTemplate.template.generateCollage(images:)`: geometry only. */
  function Collage(layout: TemplateType, images: seq<Size>): (r: Option<Composite>)
    ensures r.None? <==> |images| != 2
    ensures r.Some? ==> |r.value.rects| == |images| && Tiles(r.value.canvas, r.value.rects)
    ensures layout.Vertical? ==> r == VerticalCollage(images)
    ensures layout.Horizontal? ==> r == HorizontalCollage(images)
  {
    VerticalTiles(images);
    HorizontalTiles(images);
    match layout
    case Vertical => VerticalCollage(images)
    case Horizontal => HorizontalCollage(images)
  }

  /** Which input image a pixel of the composited image shows, read off the
      layout directly: the upper band belongs to the first image in the
      vertical layout, the left band in the horizontal one. */
  function Source(layout: TemplateType, images: seq<Size>, px: int, py: int): nat
    requires |images| == 2
  {
    match layout
    case Vertical => if py < images[0].height then 0 else 1
    case Horizontal => if px < images[0].width then 0 else 1
  }

  /** The whole `generateCollage` call: guard, context, two draw calls. The
      result says, for every pixel of the composited image, which input
      image it came from. */
  method GenerateCollage(layout: TemplateType, images: seq<Size>) returns (out: Option<Grid>)
    ensures out.None? <==> |images| != 2
    ensures out.Some? ==> HasSize(out.value, Collage(layout, images).value.canvas)
    ensures out.Some? ==> forall y, x :: 0 <= y < |out.value| && 0 <= x < |out.value[y]| ==>
      out.value[y][x] == Some(Source(layout, images, x, y))
  {
    var r := Collage(layout, images);
    if r.None? {
      return None;
    }
    var c := r.value;
    var g := Paint(c.canvas, c.rects);
    forall y, x | 0 <= y < |g| && 0 <= x < |g[y]|
      ensures g[y][x] == Some(Source(layout, images, x, y))
    {
      TiledPainter(c.canvas, c.rects, x, y);
      var i := Source(layout, images, x, y);
      assert Contains(c.rects[i], x, y);
    }
    out := Some(g);
  }
}
