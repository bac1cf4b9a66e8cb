/**
 * The canvas element as a grid of pixels. Only the three colours the page
 * ever produces are distinguished: the "#fff" background, the "#111"
 * foreground, and the transparent black a cleared or resized canvas holds.
 */
module Canvas {

  datatype Pixel = Transparent | White | Dark

  /** A raster of `height` rows of `width` pixels, indexed `pixels[y][x]`. */
  datatype Surface = Surface(width: nat, height: nat, pixels: seq<seq<Pixel>>)
  {
    predicate WellFormed()
    {
      |pixels| == height && forall y | 0 <= y < |pixels| :: |pixels[y]| == width
    }
  }

  type Raster = s: Surface | s.WellFormed() witness Surface(0, 0, [])

  /** One axis of a rectangle: a negative extent reaches back from the origin. */
  predicate InSpan(p: int, origin: int, extent: int)
  {
    if extent >= 0 then origin <= p < origin + extent else origin + extent <= p < origin
  }

  /**
   * Pixel `(px, py)` lies in the rectangle at `(x, y)` of size `w` x `h`;
   * as in the canvas API, negative sizes are normalised first.
   */
  predicate InRect(px: int, py: int, x: int, y: int, w: int, h: int)
  {
    InSpan(px, x, w) && InSpan(py, y, h)
  }

  /** Every pixel of `c` has colour `p`. */
  predicate Uniform(c: Raster, p: Pixel)
  {
    forall py, px | 0 <= py < c.height && 0 <= px < c.width :: c.pixels[py][px] == p
  }

  /** `ctx.clearRect(x, y, w, h)`, clipped to the surface. */
  function ClearRect(c: Raster, x: int, y: int, w: int, h: int): (r: Raster)
    ensures r.width == c.width && r.height == c.height
    ensures forall py, px | 0 <= py < c.height && 0 <= px < c.width ::
      r.pixels[py][px] == (if InRect(px, py, x, y, w, h) then Transparent else c.pixels[py][px])
  {
    Surface(c.width, c.height,
      seq(c.height, py requires 0 <= py < c.height =>
        seq(c.width, px requires 0 <= px < c.width =>
          if InRect(px, py, x, y, w, h) then Transparent else c.pixels[py][px])))
  }

  /**
   * `clearCanvas`: clears the whole surface. The dimensions stay those of
   * the previous render; only the contents go.
   */
  function ClearCanvas(c: Raster): (r: Raster)
    ensures r.width == c.width && r.height == c.height
    ensures Uniform(r, Transparent)
  {
    ClearRect(c, 0, 0, c.width, c.height)
  }

  /**
   * `ctx.fillRect(x, y, w, h)` with fill colour `p` on a pixel array whose
   * first index is the row: the pixels inside the rectangle take `p`, all
   * others keep their colour. A negative width or height spans back from
   * `x` or `y`, and the rectangle is clipped to the array.
   */
  method FillRect(a: array2<Pixel>, x: int, y: int, w: int, h: int, p: Pixel)
    modifies a
    ensures forall py, px | 0 <= py < a.Length0 && 0 <= px < a.Length1 ::
      a[py, px] == (if InRect(px, py, x, y, w, h) then p else old(a[py, px]))
  {
    var y0, y1 := if h >= 0 then y else y + h, if h >= 0 then y + h else y;
    var x0, x1 := if w >= 0 then x else x + w, if w >= 0 then x + w else x;
    var top := if y0 < 0 then 0 else y0;
    var bottom := if y1 > a.Length0 then a.Length0 else y1;
    var left := if x0 < 0 then 0 else x0;
    var right := if x1 > a.Length1 then a.Length1 else x1;
    var row := top;
    while row < bottom
      invariant top <= row && (top <= bottom ==> row <= bottom)
      invariant forall py, px | 0 <= py < a.Length0 && 0 <= px < a.Length1 ::
        a[py, px] == (if InRect(px, py, x, y, w, h) && py < row then p else old(a[py, px]))
    {
      var col := left;
      while col < right
        invariant left <= col && (left <= right ==> col <= right)
        invariant forall py, px | 0 <= py < a.Length0 && 0 <= px < a.Length1 ::
          a[py, px] == (if InRect(px, py, x, y, w, h) && (py < row || (py == row && px < col)) then p
                        else old(a[py, px]))
      {
        a[row, col] := p;
        col := col + 1;
      }
      row := row + 1;
    }
  }
}
