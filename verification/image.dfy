/** The slice of Go's `image` and `image/draw` the avatar code touches.
    Pixels are not modelled: a canvas is its bounds plus the ordered list of
    source images drawn onto it with `draw.Over`. Since source-over blending
    onto a freshly allocated (all-transparent) canvas is deterministic, that
    list fixes every pixel. */
module Image {

  datatype Point = Point(x: int, y: int)

  /** `image.Rectangle`: the half-open box `[min.x, max.x) x [min.y, max.y)`. */
  datatype Rectangle = Rectangle(min: Point, max: Point) {
    function Dx(): int { max.x - min.x }
    function Dy(): int { max.y - min.y }
    predicate Empty() { min.x >= max.x || min.y >= max.y }
  }

  /** `image.Rect(x0, y0, x1, y1)`, which swaps coordinates given in the
      wrong order so that the result is well-formed. */
  function Rect(x0: int, y0: int, x1: int, y1: int): (r: Rectangle)
    ensures r.min.x <= r.max.x && r.min.y <= r.max.y
    ensures r.Dx() == if x0 <= x1 then x1 - x0 else x0 - x1
    ensures r.Dy() == if y0 <= y1 then y1 - y0 else y0 - y1
  {
    var (lx, hx) := if x0 <= x1 then (x0, x1) else (x1, x0);
    var (ly, hy) := if y0 <= y1 then (y0, y1) else (y1, y0);
    Rectangle(Point(lx, ly), Point(hx, hy))
  }

  /** A drawable image: its bounds and the sources drawn onto it, oldest
      first. */
  datatype Canvas<Img> = Canvas(bounds: Rectangle, layers: seq<Img>)

  /** `image.NewRGBA(r)`: a transparent canvas with bounds `r`. */
  function NewRGBA<Img>(r: Rectangle): (c: Canvas<Img>)
    ensures c.bounds == r
    ensures |c.layers| == 0
  {
    Canvas(r, [])
  }

  /** `draw.Draw(dst, dst.Bounds(), src, image.Point{0, 0}, draw.Over)`:
      blend `src` over the whole of `dst`; the bounds of `dst` stay. */
  function DrawOver<Img>(dst: Canvas<Img>, src: Img): (c: Canvas<Img>)
    ensures c.bounds == dst.bounds
    ensures |c.layers| == |dst.layers| + 1
    ensures c.layers[..|dst.layers|] == dst.layers
    ensures c.layers[|dst.layers|] == src
  {
    dst.(layers := dst.layers + [src])
  }

  /** Coordinates given in order are kept as they are. */
  lemma RectOfOrdered(x0: int, y0: int, x1: int, y1: int)
    requires x0 <= x1 && y0 <= y1
    ensures Rect(x0, y0, x1, y1) == Rectangle(Point(x0, y0), Point(x1, y1))
  {
  }

  /** Swapping the corners gives the same rectangle. */
  lemma RectSymmetric(x0: int, y0: int, x1: int, y1: int)
    ensures Rect(x0, y0, x1, y1) == Rect(x1, y1, x0, y0)
  {
  }

  /** A run of `draw.Draw(..., draw.Over)` calls, one per source, in order. */
  function DrawAllOver<Img>(dst: Canvas<Img>, srcs: seq<Img>): Canvas<Img>
    decreases |srcs|
  {
    if |srcs| == 0 then dst else DrawAllOver(DrawOver(dst, srcs[0]), srcs[1..])
  }

  /** Drawing sources one by one keeps the bounds and stacks the sources on
      top of what was there, in drawing order. */
  lemma {:induction false} DrawAllOverStacks<Img>(dst: Canvas<Img>, srcs: seq<Img>)
    ensures DrawAllOver(dst, srcs) == Canvas(dst.bounds, dst.layers + srcs)
    decreases |srcs|
  {
    if |srcs| > 0 {
      DrawAllOverStacks(DrawOver(dst, srcs[0]), srcs[1..]);
      assert (dst.layers + [srcs[0]]) + srcs[1..] == dst.layers + srcs;
    }
  }
}
