# Postick collage layouts in Dafny

Postick is an iOS photo app. One of its features composes two photos into a
collage, using a layout template the user picks: **vertical** (the first
photo on top of the second) or **horizontal** (the first photo left of the
second). This project models that compositor, `VerticalTemplate` and
`HorizontalTemplate` in `Template.swift`, together with the `TemplateType`
tag of `CollageView.swift` that selects one of them.

An image is represented only by its size `(width, height)` in whole points.
A strategy's result is `None` (Swift's `nil`) or a `Composite`: the size of
the image context it opens, plus the destination rectangle of each
`draw(in:)` call, in draw order. The draw calls themselves are modelled as a
grid that records, for each pixel of the context, which input image painted
it last (`Some(k)`), or that no image painted it (`None`).

Modules:

- `Wrappers`: the `Option` type.
- `Geometry`: sizes, rectangles, pixel containment, and `Tiles`. `Tiles` says
  a list of rectangles partitions a canvas: every rectangle is inside it, no
  pixel is in two rectangles, and no pixel is left uncovered.
- `Template`: the two strategies, and lemmas about canvas size, exact tiling,
  area, the stretching quirk and the mirror symmetry between them.
- `Canvas`: painting the rectangles in order into a blank context.
- `CollageView`: the template tag, the dispatcher `Collage(layout, sizes)`,
  and `GenerateCollage`, which runs the whole call down to pixel ownership.

Both strategies draw the second image across the cross axis of the first.
The vertical layout draws it at the first image's width. The horizontal
layout draws it at the first image's height. So the destinations always tile
the canvas exactly. The second image keeps its own size only when the two
images match along that axis (`VerticalKeepsSizesIff`,
`HorizontalKeepsSizesIff`); otherwise it is stretched or squeezed.

The count guard is `images.count == 2`. So both fewer than two images and
more than two images give `nil`.

## Model

| member | source | states |
|---|---|---|
| Template.VerticalCollage | Postick/Template.swift:16-23 | nil exactly when the count is not two. Otherwise there is one destination per image, in input order. Each destination spans the full canvas width and keeps its image's height. The first starts at the top edge, the second starts where the first ends, and the second ends at the bottom edge. |
| Template.HorizontalCollage | Postick/Template.swift:32-39 | nil exactly when the count is not two. Otherwise there is one destination per image, in input order. Each destination spans the full canvas height and keeps its image's width. The first starts at the left edge, the second starts where the first ends, and the second ends at the right edge. |
| Template.VerticalCanvas | Postick/Template.swift:19 | for two images, the context is as wide as the first image and as tall as both heights added together |
| Template.HorizontalCanvas | Postick/Template.swift:35 | for two images, the context is as wide as both widths added together and as tall as the first image |
| Template.VerticalTiles | Postick/Template.swift:19-23 | the two vertical destinations partition the context: both are inside it, they do not overlap, and they leave no gap |
| Template.HorizontalTiles | Postick/Template.swift:35-39 | the two horizontal destinations partition the context: both are inside it, they do not overlap, and they leave no gap |
| Template.VerticalArea | Postick/Template.swift:19-23 | the context's area is the sum of the two destination areas |
| Template.HorizontalArea | Postick/Template.swift:35-39 | the context's area is the sum of the two destination areas |
| Template.VerticalKeepsSizesIff | Postick/Template.swift:22-23 | each image is drawn at its own size if and only if the two widths are equal, because the second image is drawn at the first image's width |
| Template.HorizontalKeepsSizesIff | Postick/Template.swift:38-39 | each image is drawn at its own size if and only if the two heights are equal, because the second image is drawn at the first image's height |
| Template.HorizontalIsTransposedVertical | Postick/Template.swift:15-45 | for every input list, the horizontal result is the vertical result on the axis-swapped sizes, with its axes swapped back. This includes the nil case. |
| Canvas.LastPainter | Postick/Template.swift:22-23 | the index returned contains the pixel, no later rectangle contains it, and the result is `None` (blank) only when no rectangle contains it |
| Canvas.DrawRect | Postick/Template.swift:22-23 | one `draw(in:)` call, modelled as an opaque overwrite: every context pixel inside the rectangle is now owned by that image, every other pixel keeps its owner, and the context keeps its size. The horizontal draws at lines 38-39 are the same call. |
| Canvas.Paint | Postick/Template.swift:20-25 | after drawing into a blank context in order, the grid has the context's size and each pixel is owned by its last painter |
| Canvas.TiledPainter | Postick/Template.swift:20-25 | on a tiled context, no pixel stays blank, and the last painter of a pixel is exactly the one rectangle that contains it |
| CollageView.Collage | Postick/CollageView.swift:21-28 | the vertical tag runs the vertical strategy and the horizontal tag runs the horizontal one. The result is nil exactly when the count is not two, and otherwise its destinations tile the context. |
| CollageView.GenerateCollage | Postick/CollageView.swift:69 | nil exactly when the count is not two. Otherwise the composited image has the selected layout's context size, and each of its pixels shows the image the layout assigns to it. In the vertical layout that is the first image above the first image's height and the second below it. In the horizontal layout it is the first image left of the first image's width and the second to its right. |

## Left out

- Pixel contents: `draw(in:)` scales an image into its rectangle and blends it. The model records only which image paints each pixel, so it assumes opaque images and ignores the scaling of pixels inside a rectangle.
- `UIGraphicsGetImageFromCurrentImageContext` returning `nil`: a foreign graphics call. The model's result is `None` only through the count guard.
- Fractional `CGFloat` sizes and rounding: sizes are whole points in a context of scale 1.
- Saving to the photo library, the success alert, the SwiftUI preview stacks in `CollageView.swift`, and the "Please select two images." message: these are UI and I/O.
- `PhotoPicker.swift` (asynchronous loading joined by a dispatch group, capped at two results), `ARViewContainer.swift`, `ContentView.swift` and `SheetView.swift`: AR and UI framework glue with no logic of their own to state.
