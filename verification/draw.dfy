/**
 * `drawCanvas`: rasterises a symbol. Each module becomes an exact
 * `scale` x `scale` block, offset by `margin` modules of white border.
 */
module Draw {

  import opened Symbol
  import opened Canvas

  /** Side of the raster in pixels: `(qr.size + margin * 2) * scale`. */
  function Side(size: nat, scale: nat, margin: nat): nat
  {
    (size + margin * 2) * scale
  }

  /** Products grow by at least one factor `s` per unit of the other. */
  lemma {:induction false} MulStep(a: int, b: int, s: int)
    requires s > 0 && a < b
    ensures a * s + s <= b * s
    decreases b - a
  {
    assert (b - 1) * s + s == b * s;
    if a < b - 1 {
      MulStep(a, b - 1, s);
    }
  }

  /** Pixel coordinate `p` lies in block number `k` exactly when `p / s == k`. */
  lemma DivBlock(p: int, k: int, s: int)
    requires s > 0
    ensures p / s == k <==> k * s <= p < k * s + s
  {
    var d := p / s;
    var m := p % s;
    assert p == d * s + m && 0 <= m < s;
    if d < k {
      MulStep(d, k, s);
    } else if d > k {
      MulStep(k, d, s);
    }
  }

  /** Which side of block boundary `k * s` a pixel coordinate lies on. */
  lemma DivBounds(p: int, k: int, s: int)
    requires s > 0
    ensures p < k * s ==> p / s < k
    ensures p >= k * s ==> p / s >= k
  {
    var d := p / s;
    assert p == d * s + p % s && 0 <= p % s < s;
    if p < k * s && d >= k {
      if d > k { MulStep(k, d, s); }
    }
    if p >= k * s && d < k {
      MulStep(d, k, s);
    }
  }

  /** A multiple of `s` divides back exactly. */
  lemma MulDiv(a: int, s: int)
    requires s > 0
    ensures (a * s) / s == a && (a * s) % s == 0
  {
    DivBlock(a * s, a, s);
    assert a * s == ((a * s) / s) * s + (a * s) % s;
  }

  /** Block `k` of width `s` ends inside a raster of `n` blocks when `k < n`. */
  lemma BlockInside(k: int, n: int, s: int, i: int)
    requires s > 0 && 0 <= k < n && 0 <= i < s
    ensures 0 <= k * s + i < n * s
  {
    MulStep(k, n, s);
    assert k * s >= 0 * s;
  }

  /**
   * The module coordinate pixel `(px, py)` falls in, and whether that
   * module is set: dark pixels are exactly those.
   */
  predicate DarkAt(q: QrCode, scale: nat, margin: nat, px: int, py: int)
    requires scale > 0
  {
    var mx := px / scale - margin;
    var my := py / scale - margin;
    0 <= mx < q.size && 0 <= my < q.size && q.Module(mx, my)
  }

  /**
   * `c` is the picture of `q` at `scale` and `margin`: square with side
   * `(size + 2*margin)*scale`, a pixel is dark exactly when it lies in a
   * set module's block, and white otherwise.
   */
  predicate Depicts(c: Raster, q: QrCode, scale: nat, margin: nat)
    requires scale > 0
  {
    && c.width == Side(q.size, scale, margin)
    && c.height == Side(q.size, scale, margin)
    && forall py, px | 0 <= py < c.height && 0 <= px < c.width ::
         c.pixels[py][px] == (if DarkAt(q, scale, margin, px, py) then Dark else White)
  }

  /** The drawing loop's progress: modules before `(x, y)` in row order are drawn. */
  ghost function Drawn(q: QrCode, scale: nat, margin: nat, y: int, x: int, px: int, py: int): Pixel
    requires scale > 0
  {
    var mx := px / scale - margin;
    var my := py / scale - margin;
    if DarkAt(q, scale, margin, px, py) && (my < y || (my == y && mx < x)) then Dark else White
  }

  /** Drawing module `(x, y)` paints its block and touches nothing else. */
  lemma DrawnStep(q: QrCode, scale: nat, margin: nat, y: nat, x: nat, px: int, py: int)
    requires scale > 0 && x < q.size && y < q.size
    ensures Drawn(q, scale, margin, y, x + 1, px, py)
         == (if q.Module(x, y) && InRect(px, py, (margin + x) * scale, (margin + y) * scale, scale, scale)
             then Dark else Drawn(q, scale, margin, y, x, px, py))
  {
    DivBlock(px, margin + x, scale);
    DivBlock(py, margin + y, scale);
  }

  /**
   * `drawCanvas(qr, canvas, scale, margin)`: resizes the surface (which
   * clears it), fills it white, then fills one dark block per set module,
   * visiting rows `y` and, within them, columns `x` in increasing order.
   */
  method DrawCanvas(q: QrCode, scale: nat, margin: nat) returns (c: Raster)
    requires scale > 0
    ensures Depicts(c, q, scale, margin)
  {
    var side := Side(q.size, scale, margin);
    var a := new Pixel[side, side]((_, _) => Transparent);
    FillRect(a, 0, 0, side, side, White);
    var y := 0;
    while y < q.size
      invariant y <= q.size
      invariant forall py, px | 0 <= py < side && 0 <= px < side ::
        a[py, px] == Drawn(q, scale, margin, y, 0, px, py)
    {
      var x := 0;
      while x < q.size
        invariant x <= q.size
        invariant forall py, px | 0 <= py < side && 0 <= px < side ::
          a[py, px] == Drawn(q, scale, margin, y, x, px, py)
      {
        if q.Module(x, y) {
          FillRect(a, (margin + x) * scale, (margin + y) * scale, scale, scale, Dark);
        }
        forall py, px | 0 <= py < side && 0 <= px < side
          ensures a[py, px] == Drawn(q, scale, margin, y, x + 1, px, py)
        {
          DrawnStep(q, scale, margin, y, x, px, py);
        }
        x := x + 1;
      }
      y := y + 1;
    }
    c := Surface(side, side,
      seq(side, py requires 0 <= py < side reads a =>
        seq(side, px requires 0 <= px < side reads a => a[py, px])));
  }

  /** Pixels of the quiet zone around the symbol, `margin` modules wide. */
  predicate InBorder(size: nat, scale: nat, margin: nat, px: int, py: int)
  {
    || px < margin * scale || py < margin * scale
    || px >= (margin + size) * scale || py >= (margin + size) * scale
  }

  /** The whole margin border of a depiction is white. */
  lemma BorderIsWhite(c: Raster, q: QrCode, scale: nat, margin: nat, px: int, py: int)
    requires scale > 0 && Depicts(c, q, scale, margin)
    requires 0 <= py < c.height && 0 <= px < c.width
    requires InBorder(q.size, scale, margin, px, py)
    ensures c.pixels[py][px] == White
  {
    DivBounds(px, margin, scale);
    DivBounds(py, margin, scale);
    DivBounds(px, margin + q.size, scale);
    DivBounds(py, margin + q.size, scale);
  }

  /**
   * Every pixel of the block of module `(mx, my)` lies inside the raster
   * and carries that module's colour: blocks are exact `scale` x `scale`
   * squares at `((margin + mx) * scale, (margin + my) * scale)`.
   */
  lemma BlockIsExact(c: Raster, q: QrCode, scale: nat, margin: nat, mx: nat, my: nat, i: nat, j: nat)
    requires scale > 0 && Depicts(c, q, scale, margin)
    requires mx < q.size && my < q.size && i < scale && j < scale
    ensures (margin + my) * scale + j < c.height && (margin + mx) * scale + i < c.width
    ensures c.pixels[(margin + my) * scale + j][(margin + mx) * scale + i]
         == (if q.Module(mx, my) then Dark else White)
  {
    BlockInside(margin + mx, q.size + margin * 2, scale, i);
    BlockInside(margin + my, q.size + margin * 2, scale, j);
    DivBlock((margin + mx) * scale + i, margin + mx, scale);
    DivBlock((margin + my) * scale + j, margin + my, scale);
  }

  /**
   * Reads the module pattern back off a square raster by sampling the
   * top-left pixel of every block; the symbol size follows from the side.
   */
  function Recover(c: Raster, scale: nat, margin: nat): (m: seq<seq<bool>>)
    requires scale > 0 && c.width == c.height
    requires c.width % scale == 0 && c.width / scale >= 2 * margin
    ensures |m| == c.width / scale - 2 * margin
  {
    var blocks := c.width / scale;
    var n := blocks - 2 * margin;
    assert c.width == blocks * scale;
    seq(n, my requires 0 <= my < n =>
      seq(n, mx requires 0 <= mx < n =>
        BlockInside(margin + my, blocks, scale, 0);
        BlockInside(margin + mx, blocks, scale, 0);
        c.pixels[(margin + my) * scale][(margin + mx) * scale] == Dark))
  }

  /** The pattern is recoverable from any depiction of the symbol. */
  lemma RecoverModules(c: Raster, q: QrCode, scale: nat, margin: nat)
    requires scale > 0 && Depicts(c, q, scale, margin)
    ensures c.width == c.height && c.width % scale == 0 && c.width / scale >= 2 * margin
    ensures Recover(c, scale, margin) == q.modules
  {
    MulDiv(q.size + margin * 2, scale);
    var m := Recover(c, scale, margin);
    forall my | 0 <= my < q.size
      ensures m[my] == q.modules[my]
    {
      forall mx | 0 <= mx < q.size
        ensures m[my][mx] == q.modules[my][mx]
      {
        BlockIsExact(c, q, scale, margin, mx, my, 0, 0);
      }
    }
  }

  /**
   * Scale and margin change only the geometry: two depictions of the same
   * symbol at any scales and margins carry the same module pattern.
   */
  lemma PatternIndependentOfGeometry(c1: Raster, c2: Raster, q: QrCode,
                                     scale1: nat, margin1: nat, scale2: nat, margin2: nat)
    requires scale1 > 0 && Depicts(c1, q, scale1, margin1)
    requires scale2 > 0 && Depicts(c2, q, scale2, margin2)
    ensures c1.width == c1.height && c1.width % scale1 == 0 && c1.width / scale1 >= 2 * margin1
    ensures c2.width == c2.height && c2.width % scale2 == 0 && c2.width / scale2 >= 2 * margin2
    ensures Recover(c1, scale1, margin1) == Recover(c2, scale2, margin2)
  {
    RecoverModules(c1, q, scale1, margin1);
    RecoverModules(c2, q, scale2, margin2);
  }

  /**
   * A depiction is determined by symbol, scale and margin alone, so a
   * render never shows anything of the raster it replaces.
   */
  lemma DepictionUnique(c1: Raster, c2: Raster, q: QrCode, scale: nat, margin: nat)
    requires scale > 0 && Depicts(c1, q, scale, margin) && Depicts(c2, q, scale, margin)
    ensures c1 == c2
  {
    forall py | 0 <= py < c1.height
      ensures c1.pixels[py] == c2.pixels[py]
    {
    }
  }
}
