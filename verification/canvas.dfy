/** What the draw calls leave in the image context. Each `draw(in:)` paints
    its image over every context pixel inside the destination rectangle
    (clipped to the context), covering whatever an earlier call painted
    there. The model records, for every pixel, the index of the image that
    painted it last, or `None` when no call touched it. */
module Canvas {
  import opened Wrappers
  import opened Geometry

  /** A context's pixels, row by row: `grid[y][x]` is the owner of pixel
      `(x, y)`, `Some(k)` for input image `k` or `None` for a blank pixel. */
  type Grid = seq<seq<Option<nat>>>

  predicate HasSize(g: Grid, c: Size)
  {
    |g| == c.height && forall y :: 0 <= y < |g| ==> |g[y]| == c.width
  }

  /** The index of the last rectangle in draw order that contains the pixel,
      or `None` when none does. */
  function LastPainter(rs: seq<Rect>, px: int, py: int): (k: Option<nat>)
    ensures k.Some? ==> k.value < |rs| && Contains(rs[k.value], px, py)
    ensures forall j :: 0 <= j < |rs| && (k.None? || k.value < j) ==> !Contains(rs[j], px, py)
    decreases |rs|
  {
    if |rs| == 0 then None
    else if Contains(rs[|rs| - 1], px, py) then Some(|rs| - 1)
    else LastPainter(rs[..|rs| - 1], px, py)
  }

  /** One `draw(in: r)` call painting with image `k`, as an opaque overwrite:
      the pixels inside `r` now belong to image `k`, all others keep their
      owner, and the context keeps its shape. */
  function DrawRect(g: Grid, r: Rect, k: nat): (g': Grid)
    ensures |g'| == |g| && forall y :: 0 <= y < |g| ==> |g'[y]| == |g[y]|
    ensures forall y, x :: 0 <= y < |g| && 0 <= x < |g[y]| && Contains(r, x, y) ==> g'[y][x] == Some(k)
    ensures forall y, x :: 0 <= y < |g| && 0 <= x < |g[y]| && !Contains(r, x, y) ==> g'[y][x] == g[y][x]
  {
    seq(|g|, y requires 0 <= y < |g| =>
      seq(|g[y]|, x requires 0 <= x < |g[y]| =>
        if Contains(r, x, y) then Some(k) else g[y][x]))
  }

  /** Opens a blank context of size `c` and draws into it once per
      rectangle, in order; every pixel ends up owned by its last painter. */
  method Paint(c: Size, rs: seq<Rect>) returns (g: Grid)
    ensures HasSize(g, c)
    ensures forall y, x :: OnCanvas(c, x, y) ==> g[y][x] == LastPainter(rs, x, y)
  {
    g := seq(c.height, _ => seq(c.width, _ => None));
    for k := 0 to |rs|
      invariant HasSize(g, c)
      invariant forall y, x :: OnCanvas(c, x, y) ==> g[y][x] == LastPainter(rs[..k], x, y)
    {
      assert rs[..k + 1][..k] == rs[..k];
      g := DrawRect(g, rs[k], k);
    }
    assert rs[..|rs|] == rs;
  }

  /** On a tiled canvas no pixel is left blank, and the image that paints a
      pixel last is the one whose rectangle contains it. */
  lemma TiledPainter(c: Size, rs: seq<Rect>, px: int, py: int)
    requires Tiles(c, rs)
    requires OnCanvas(c, px, py)
    ensures LastPainter(rs, px, py).Some?
    ensures forall i :: 0 <= i < |rs| ==> (Contains(rs[i], px, py) <==> Some(i) == LastPainter(rs, px, py))
  {
  }
}
