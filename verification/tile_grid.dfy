/** Tile-grid layout of the location widget: which map tiles around the point's
    own tile fill the widget's grid, in which order they are drawn, and where the
    point lands on the canvas.

    The web-mercator projection itself (floating-point logarithms and tangents) is
    not modelled: a `Projection` carries its results, the point's tile and the
    point's fractional position inside that tile, as exact reals. */
module TileGrid {
  import opened Numerals

  datatype TileCoords = TileCoords(x: int, y: int, z: int)

  /** A grid position, or a displacement between grid positions, in tiles. */
  datatype Offset = Offset(dx: int, dy: int)

  /** What projecting the point at one zoom level yields. */
  datatype Projection = Projection(tile: TileCoords, xRemainder: real, yRemainder: real)

  /** The point's normalised position on the whole canvas. */
  datatype PointOffset = PointOffset(x: real, y: real)

  predicate ValidRemainders(p: Projection) {
    0.0 <= p.xRemainder < 1.0 && 0.0 <= p.yRemainder < 1.0
  }

  /** Grid dimensions, in tiles; the widget sizes are always even. */
  predicate ValidGrid(h: int, v: int) {
    h >= 2 && v >= 2 && h % 2 == 0 && v % 2 == 0
  }

  datatype WidgetFamily = Small | Medium | Large

  /** `config.widgetFamily`: "medium" and "large" are recognised, anything else
      (including the in-app preview) is treated as small. */
  function FamilyOf(name: string): WidgetFamily {
    if name == "medium" then Medium else if name == "large" then Large else Small
  }

  /** Tiles per row and per column for each widget family. */
  function GridSize(f: WidgetFamily): (hv: (int, int))
    ensures ValidGrid(hv.0, hv.1)
    ensures hv.0 == (if f == Small then 2 else 4)
    ensures hv.1 == (if f == Large then 4 else 2)
  {
    match f
    case Small => (2, 2)
    case Medium => (4, 2)
    case Large => (4, 4)
  }

  /** Grid cell of the point's own tile: one of the central 2×2 cells, chosen by
      rounding the remainders so that the point ends up nearest the centre. */
  function Anchor(p: Projection, h: int, v: int): (a: Offset)
    requires ValidRemainders(p) && ValidGrid(h, v)
    ensures 0 <= a.dx < h && 0 <= a.dy < v
    ensures a.dx == (if p.xRemainder < 0.5 then h / 2 else h / 2 - 1)
    ensures a.dy == (if p.yRemainder < 0.5 then v / 2 else v / 2 - 1)
  {
    Offset(1 - JsRound(p.xRemainder) + (h - 2) / 2, 1 - JsRound(p.yRemainder) + (v - 2) / 2)
  }

  /** The displacements -(n-1) .. n-1, in increasing order. */
  function RelativeCoords(n: int): (r: seq<int>)
    requires n >= 1
    ensures |r| == 2 * n - 1
  {
    seq(2 * (n - 1) + 1, i => i - (n - 1))
  }

  function Row(xs: seq<int>, y: int): (r: seq<Offset>)
    ensures |r| == |xs|
  {
    seq(|xs|, i requires 0 <= i < |xs| => Offset(xs[i], y))
  }

  /** All pairs, `ys` in the outer position and `xs` in the inner one. */
  function Rows(xs: seq<int>, ys: seq<int>): (r: seq<Offset>)
    ensures |r| == |xs| * |ys|
  {
    if ys == [] then [] else Row(xs, ys[0]) + Rows(xs, ys[1..])
  }

  /** Every displacement that could land inside an `h`×`v` grid. */
  function PotentiallyVisible(h: int, v: int): seq<Offset>
    requires h >= 1 && v >= 1
  {
    Rows(RelativeCoords(h), RelativeCoords(v))
  }

  predicate Visible(c: Offset, a: Offset, h: int, v: int) {
    c.dx + a.dx >= 0 && c.dx + a.dx < h && c.dy + a.dy >= 0 && c.dy + a.dy < v
  }

  /** The elements of `cs` that land inside the grid from anchor `a`, in order. */
  function KeepVisible(cs: seq<Offset>, a: Offset, h: int, v: int): (r: seq<Offset>)
    ensures |r| <= |cs|
    ensures forall i :: 0 <= i < |r| ==> Visible(r[i], a, h, v)
  {
    if cs == [] then []
    else if Visible(cs[0], a, h, v) then [cs[0]] + KeepVisible(cs[1..], a, h, v)
    else KeepVisible(cs[1..], a, h, v)
  }

  /** The displacements of the tiles actually shown, relative to the point's tile. */
  function VisibleRelative(a: Offset, h: int, v: int): seq<Offset>
    requires h >= 1 && v >= 1
  {
    KeepVisible(PotentiallyVisible(h, v), a, h, v)
  }

  /** The cell the i-th loaded tile is drawn into: column i % h, row i / h. */
  function DrawCell(i: nat, h: int): (c: Offset)
    requires h >= 1
  {
    Offset(i % h, i / h)
  }

  /** Layout of one zoom level: anchor cell, the tiles to load in drawing order,
      and the point's offset on the canvas. */
  datatype Layout = Layout(anchor: Offset, tiles: seq<TileCoords>, offset: PointOffset)

  function GridLayout(p: Projection, zoom: int, h: int, v: int): (g: Layout)
    requires ValidRemainders(p) && ValidGrid(h, v)
    ensures g.anchor == Anchor(p, h, v)
    ensures |g.tiles| == h * v
    ensures forall i :: 0 <= i < h * v ==>
      g.tiles[i] == TileCoords(p.tile.x + i % h - g.anchor.dx, p.tile.y + i / h - g.anchor.dy, zoom)
    ensures g.offset == PointAt(p, g.anchor, h, v)
  {
    var a := Anchor(p, h, v);
    var rel := VisibleRelative(a, h, v);
    VisibleRelativeIsRowMajor(a, h, v);
    var tiles := seq(|rel|, i requires 0 <= i < |rel| =>
      TileCoords(p.tile.x + rel[i].dx, p.tile.y + rel[i].dy, zoom));
    Layout(a, tiles, PointAt(p, a, h, v))
  }

  /** `((xRemainder + ax) / h, (yRemainder + ay) / v)`. */
  function PointAt(p: Projection, a: Offset, h: int, v: int): (o: PointOffset)
    requires ValidRemainders(p) && h >= 1 && v >= 1
    requires 0 <= a.dx < h && 0 <= a.dy < v
    ensures a.dx as real / h as real <= o.x < (a.dx + 1) as real / h as real
    ensures a.dy as real / v as real <= o.y < (a.dy + 1) as real / v as real
    ensures 0.0 <= o.x < 1.0 && 0.0 <= o.y < 1.0
  {
    CellShare(p.xRemainder, a.dx, h);
    CellShare(p.yRemainder, a.dy, v);
    PointOffset((p.xRemainder + a.dx as real) / h as real, (p.yRemainder + a.dy as real) / v as real)
  }

  lemma CellShare(rem: real, k: int, n: int)
    requires 0.0 <= rem < 1.0 && 0 <= k < n
    ensures k as real / n as real <= (rem + k as real) / n as real < (k + 1) as real / n as real
    ensures 0.0 <= (rem + k as real) / n as real < 1.0
  {
    var nr := n as real;
    DivOrdered(k as real, rem + k as real, nr);
    DivOrdered(rem + k as real, (k + 1) as real, nr);
    DivOrdered((k + 1) as real, nr, nr);
    DivOrdered(0.0, k as real, nr);
  }

  /** Dividing by a positive number keeps order. */
  lemma DivOrdered(a: real, b: real, n: real)
    requires n > 0.0 && a <= b
    ensures a / n <= b / n
    ensures a < b ==> a / n < b / n
    ensures 0.0 / n == 0.0 && n / n == 1.0
  {
    assert b / n - a / n == (b - a) / n;
  }

  // ---------------------------------------------------------------------------
  // The filtered list is the grid in row-major order.

  /** The visible displacements are exactly the grid cells, rows outer and columns
      inner: the i-th one puts its tile into cell (i % h, i / h). */
  lemma VisibleRelativeIsRowMajor(a: Offset, h: int, v: int)
    requires h >= 1 && v >= 1 && 0 <= a.dx < h && 0 <= a.dy < v
    ensures |VisibleRelative(a, h, v)| == h * v
    ensures forall i :: 0 <= i < h * v ==>
      VisibleRelative(a, h, v)[i] == Offset(i % h - a.dx, i / h - a.dy)
  {
    VisibleAreRanges(a, h, v);
    RowsOfRanges(-a.dx, h, -a.dy, v);
  }

  /** The visible displacements are the pairs of the two in-grid ranges. */
  lemma VisibleAreRanges(a: Offset, h: int, v: int)
    requires h >= 1 && v >= 1 && 0 <= a.dx < h && 0 <= a.dy < v
    ensures VisibleRelative(a, h, v) == Rows(Range(-a.dx, -a.dx + h), Range(-a.dy, -a.dy + v))
  {
    var xs, ys := RelativeCoords(h), RelativeCoords(v);
    KeepVisibleRows(xs, ys, a, h, v);
    CoordsInGrid(h, a.dx);
    CoordsInGrid(v, a.dy);
  }

  /** The displacements that keep a coordinate `k` inside [0, n) are -k .. n-1-k. */
  lemma CoordsInGrid(n: int, k: int)
    requires 0 <= k < n
    ensures KeepIn(RelativeCoords(n), -k, n - k) == Range(-k, -k + n)
  {
    assert RelativeCoords(n) == Range(-(n - 1), n);
    KeepInRange(-(n - 1), n, -k, n - k);
  }

  /** lo, lo+1, ..., hi-1. */
  function Range(lo: int, hi: int): (r: seq<int>)
    requires lo <= hi
    ensures |r| == hi - lo
  {
    seq(hi - lo, i => lo + i)
  }

  /** The elements of `s` in [lo, hi), in order. */
  function KeepIn(s: seq<int>, lo: int, hi: int): seq<int> {
    if s == [] then []
    else if lo <= s[0] < hi then [s[0]] + KeepIn(s[1..], lo, hi)
    else KeepIn(s[1..], lo, hi)
  }

  lemma {:induction false} KeepVisibleAppend(s: seq<Offset>, t: seq<Offset>, a: Offset, h: int, v: int)
    ensures KeepVisible(s + t, a, h, v) == KeepVisible(s, a, h, v) + KeepVisible(t, a, h, v)
    decreases |s|
  {
    if s == [] {
      assert s + t == t;
    } else {
      assert (s + t)[1..] == s[1..] + t;
      KeepVisibleAppend(s[1..], t, a, h, v);
    }
  }

  /** A row survives the filter as a whole row of its in-grid columns, or not at all. */
  lemma {:induction false} KeepVisibleRow(xs: seq<int>, y: int, a: Offset, h: int, v: int)
    ensures KeepVisible(Row(xs, y), a, h, v)
         == if 0 <= y + a.dy < v then Row(KeepIn(xs, -a.dx, h - a.dx), y) else []
    decreases |xs|
  {
    if xs != [] {
      var x, rest := xs[0], xs[1..];
      var row := Row(xs, y);
      RowCons(x, rest, y);
      assert xs == [x] + rest;
      assert row[0] == Offset(x, y) && row[1..] == Row(rest, y);
      KeepVisibleRow(rest, y, a, h, v);
      if 0 <= y + a.dy < v && -a.dx <= x < h - a.dx {
        RowCons(x, KeepIn(rest, -a.dx, h - a.dx), y);
      }
    }
  }

  lemma RowCons(x: int, xs: seq<int>, y: int)
    ensures Row([x] + xs, y) == [Offset(x, y)] + Row(xs, y)
  {
    var l, r := Row([x] + xs, y), [Offset(x, y)] + Row(xs, y);
    forall i | 0 <= i < |l|
      ensures l[i] == r[i]
    {
      if i > 0 {
        assert ([x] + xs)[i] == xs[i - 1];
      }
    }
  }

  lemma {:induction false} KeepVisibleRows(xs: seq<int>, ys: seq<int>, a: Offset, h: int, v: int)
    ensures KeepVisible(Rows(xs, ys), a, h, v)
         == Rows(KeepIn(xs, -a.dx, h - a.dx), KeepIn(ys, -a.dy, v - a.dy))
    decreases |ys|
  {
    if ys != [] {
      KeepVisibleAppend(Row(xs, ys[0]), Rows(xs, ys[1..]), a, h, v);
      KeepVisibleRow(xs, ys[0], a, h, v);
      KeepVisibleRows(xs, ys[1..], a, h, v);
    }
  }

  /** Filtering a range to a window that ends inside it leaves the part of the
      range from the window's start (or the range's, if later) to the window's end. */
  lemma {:induction false} KeepInRange(lo: int, hi: int, a: int, b: int)
    requires lo <= b <= hi && a <= b
    ensures KeepIn(Range(lo, hi), a, b) == Range(if a < lo then lo else a, b)
    decreases hi - lo
  {
    if lo < hi {
      assert Range(lo, hi)[1..] == Range(lo + 1, hi);
      if lo < a {
        KeepInRange(lo + 1, hi, a, b);
      } else if lo < b {
        KeepInRange(lo + 1, hi, a, b);
        assert Range(lo, b) == [lo] + Range(lo + 1, b);
      } else {
        KeepInNothingAbove(lo + 1, hi, b);
      }
    }
  }

  lemma {:induction false} KeepInNothingAbove(lo: int, hi: int, b: int)
    requires b <= lo <= hi
    ensures forall a :: KeepIn(Range(lo, hi), a, b) == []
    decreases hi - lo
  {
    if lo < hi {
      assert Range(lo, hi)[1..] == Range(lo + 1, hi);
      KeepInNothingAbove(lo + 1, hi, b);
    }
  }

  /** The pairs of two ranges, rows outer, in row-major order. */
  lemma {:induction false} RowsOfRanges(a: int, h: int, b: int, k: int)
    requires h >= 1 && k >= 0
    ensures |Rows(Range(a, a + h), Range(b, b + k))| == h * k
    ensures forall i :: 0 <= i < h * k ==>
      Rows(Range(a, a + h), Range(b, b + k))[i] == Offset(a + i % h, b + i / h)
    decreases k
  {
    if k > 0 {
      var xs := Range(a, a + h);
      var ys := Range(b, b + k);
      assert ys[0] == b;
      assert ys[1..] == Range(b + 1, (b + 1) + (k - 1));
      RowsOfRanges(a, h, b + 1, k - 1);
      var r := Rows(xs, ys);
      assert r == Row(xs, b) + Rows(xs, Range(b + 1, (b + 1) + (k - 1)));
      assert h * k == h + h * (k - 1);
      forall i | 0 <= i < h * k
        ensures r[i] == Offset(a + i % h, b + i / h)
      {
        if i < h {
          DivModSmall(i, h);
        } else {
          DivModShift(i, h);
        }
      }
    }
  }

  lemma DivModSmall(i: int, h: int)
    requires 0 <= i < h
    ensures i % h == i && i / h == 0
  {
  }

  lemma DivModShift(i: int, h: int)
    requires 0 < h <= i
    ensures (i - h) % h == i % h && (i - h) / h == i / h - 1
  {
    var q, r := i / h, i % h;
    assert i - h == h * (q - 1) + r;
    DivModUnique(i - h, h, q - 1, r);
  }

  lemma DivModUnique(n: int, h: int, q: int, r: int)
    requires h > 0 && 0 <= r < h && n == h * q + r
    ensures n / h == q && n % h == r
  {
    var q', r' := n / h, n % h;
    assert h * q + r == h * q' + r';
    if q < q' {
      MulMonotone(h, q + 1, q');
      assert false;
    } else if q' < q {
      MulMonotone(h, q' + 1, q);
      assert false;
    }
  }

  // ---------------------------------------------------------------------------
  // Properties of the layout.

  /** Drawing the i-th tile at cell (i % h, i / h) puts it at anchor plus its
      displacement from the point's tile, and every grid cell gets exactly the
      tile with index row * h + column. */
  lemma DrawOrderMatchesLayout(p: Projection, zoom: int, h: int, v: int, i: nat)
    requires ValidRemainders(p) && ValidGrid(h, v) && i < h * v
    ensures var g := GridLayout(p, zoom, h, v);
      var c := DrawCell(i, h);
      && 0 <= c.dx < h && 0 <= c.dy < v
      && g.tiles[i] == TileCoords(p.tile.x + c.dx - g.anchor.dx, p.tile.y + c.dy - g.anchor.dy, zoom)
      && c.dy * h + c.dx == i
  {
    CellOfIndex(i, h, v);
  }

  /** Index i of an h×v grid lies in column i % h and row i / h. */
  lemma CellOfIndex(i: int, h: int, v: int)
    requires 0 <= i < h * v && h >= 1
    ensures 0 <= i % h < h && 0 <= i / h < v
    ensures (i / h) * h + i % h == i
  {
    DivBelowPow(i, h, v);
  }

  lemma CellIndex(cx: int, cy: int, h: int, v: int)
    requires 0 <= cx < h && 0 <= cy < v
    ensures 0 <= cy * h + cx < h * v
    ensures DrawCell(cy * h + cx, h) == Offset(cx, cy)
  {
    DivModUnique(cy * h + cx, h, cy, cx);
    MulMonotone(h, cy + 1, v);
  }

  /** The point's own tile is the one drawn in the anchor cell. */
  lemma AnchorCellHoldsPointTile(p: Projection, zoom: int, h: int, v: int)
    requires ValidRemainders(p) && ValidGrid(h, v)
    ensures var g := GridLayout(p, zoom, h, v);
      var i := g.anchor.dy * h + g.anchor.dx;
      0 <= i < h * v && g.tiles[i] == TileCoords(p.tile.x, p.tile.y, zoom)
  {
    var g := GridLayout(p, zoom, h, v);
    CellIndex(g.anchor.dx, g.anchor.dy, h, v);
  }

  /** Different indices hold different tiles: no tile is loaded twice. */
  lemma LayoutTilesDistinct(p: Projection, zoom: int, h: int, v: int, i: nat, j: nat)
    requires ValidRemainders(p) && ValidGrid(h, v)
    requires i < h * v && j < h * v && i != j
    ensures GridLayout(p, zoom, h, v).tiles[i] != GridLayout(p, zoom, h, v).tiles[j]
  {
    CellOfIndex(i, h, v);
    CellOfIndex(j, h, v);
    if i % h == j % h {
      assert i / h != j / h;
    }
  }

  /** A point at 10% across and 90% down its tile, on a 2×2 grid, sits in the
      top-right cell. */
  lemma AnchorExample()
    ensures Anchor(Projection(TileCoords(0, 0, 0), 0.1, 0.9), 2, 2) == Offset(1, 0)
  {
  }
}
