/** The coordinate helpers of scripts/Utils.js: snapping a position to a tile
    boundary, and the grid lines drawn over the map and the sprite sheet. */
module GridMath {
  import opened Common
  import Arith

  /** A position measured in tiles of edge `tileSize` shown at zoom `scale`. */
  function InTiles(pos: real, tileSize: nat, scale: real): real
    requires tileSize > 0 && scale > 0.0
  {
    pos / (tileSize as real * scale)
  }

  /** The number of the tile (column or row) that `pos` falls in; rounds
      toward negative infinity, so positions left of or above the origin fall
      in negative tiles. */
  function GridCell(pos: real, tileSize: nat, scale: real): int
    requires tileSize > 0 && scale > 0.0
  {
    InTiles(pos, tileSize, scale).Floor
  }

  /** `toGridPos`, `Math.floor(pos / tileSize / scale) * tileSize`: the
      unscaled coordinate of the boundary of the tile under `pos`, which is
      `tileSize` times that tile's number. */
  function ToGridPos(pos: real, tileSize: nat, scale: real): (r: real)
    requires tileSize > 0 && scale > 0.0
    ensures r == GridCell(pos, tileSize, scale) as real * tileSize as real
  {
    var ts := tileSize as real;
    assert pos / ts / scale == InTiles(pos, tileSize, scale);
    (pos / ts / scale).Floor as real * ts
  }

  /** The bounds of the snap, in tile units: the snapped position divided by
      `tileSize` is the floor of the position measured in scaled tiles. */
  lemma ToGridPosBounds(pos: real, tileSize: nat, scale: real)
    requires tileSize > 0 && scale > 0.0
    ensures var r, ts := ToGridPos(pos, tileSize, scale), tileSize as real;
      r / ts <= pos / (ts * scale) < r / ts + 1.0
  {
    var ts := tileSize as real;
    var k := GridCell(pos, tileSize, scale);
    Arith.DivOfMultiple(ToGridPos(pos, tileSize, scale), k as real, ts);
    Arith.FloorOf(InTiles(pos, tileSize, scale));
    assert InTiles(pos, tileSize, scale) == pos / (ts * scale);
  }

  /** The position lies in the scaled extent of the tile it snaps to. */
  lemma ToGridPosContains(pos: real, tileSize: nat, scale: real)
    requires tileSize > 0 && scale > 0.0
    ensures var r := ToGridPos(pos, tileSize, scale);
      r * scale <= pos < (r + tileSize as real) * scale
  {
    var ts := tileSize as real;
    var q := InTiles(pos, tileSize, scale);
    var k := q.Floor as real;
    Arith.FloorOf(q);
    assert q * (ts * scale) == pos;
    Arith.ScaledBounds(k, q, ts, scale, pos, ToGridPos(pos, tileSize, scale));
  }

  /** A larger position never falls in an earlier tile. */
  lemma GridCellMonotone(p: real, q: real, tileSize: nat, scale: real)
    requires tileSize > 0 && scale > 0.0
    requires p <= q
    ensures GridCell(p, tileSize, scale) <= GridCell(q, tileSize, scale)
  {
    Arith.DivMonotone(p, q, tileSize as real * scale);
    Arith.FloorMonotone(InTiles(p, tileSize, scale), InTiles(q, tileSize, scale));
  }

  /** Snapping never moves a larger position to a smaller boundary. */
  lemma ToGridPosMonotone(p: real, q: real, tileSize: nat, scale: real)
    requires tileSize > 0 && scale > 0.0
    requires p <= q
    ensures ToGridPos(p, tileSize, scale) <= ToGridPos(q, tileSize, scale)
  {
    GridCellMonotone(p, q, tileSize, scale);
    Arith.MultipleOrder(ToGridPos(p, tileSize, scale), ToGridPos(q, tileSize, scale),
      GridCell(p, tileSize, scale), GridCell(q, tileSize, scale), tileSize as real);
  }

  /** `v` is a whole multiple of `tileSize`: the corner of some tile. */
  predicate OnLattice(v: real, tileSize: nat)
    requires tileSize > 0
  {
    v == (v / tileSize as real).Floor as real * tileSize as real
  }

  /** Whatever the position and the zoom, the snapped position is a tile corner. */
  lemma SnappedOnLattice(pos: real, tileSize: nat, scale: real)
    requires tileSize > 0 && scale > 0.0
    ensures OnLattice(ToGridPos(pos, tileSize, scale), tileSize)
  {
    var ts := tileSize as real;
    var r := ToGridPos(pos, tileSize, scale);
    var k := GridCell(pos, tileSize, scale);
    Arith.DivOfMultiple(r, k as real, ts);
    assert (r / ts).Floor == k;
    Arith.DivCancel(r, ts);
  }

  /** Positions in the first tile of a row or column snap to 0. */
  lemma FirstTileSnapsToZero(pos: real, tileSize: nat, scale: real)
    requires tileSize > 0 && scale > 0.0
    requires 0.0 <= pos < tileSize as real * scale
    ensures ToGridPos(pos, tileSize, scale) == 0.0
  {
    InExtentIffCellInRange(pos, 1, tileSize, scale);
    assert GridCell(pos, tileSize, scale) == 0;
  }

  /** At the default zoom 1, snapping a snapped position changes nothing. */
  lemma ToGridPosIdempotent(pos: real, tileSize: nat)
    requires tileSize > 0
    ensures ToGridPos(ToGridPos(pos, tileSize, 1.0), tileSize, 1.0) == ToGridPos(pos, tileSize, 1.0)
  {
    var ts := tileSize as real;
    var r := ToGridPos(pos, tileSize, 1.0);
    var k := GridCell(pos, tileSize, 1.0);
    assert r == k as real * ts;
    assert InTiles(r, tileSize, 1.0) == k as real;
  }

  /** A position lies in `[0, n * tileSize * scale)` exactly when the tile it
      snaps to is one of the tiles `0 .. n-1`. */
  lemma InExtentIffCellInRange(pos: real, n: nat, tileSize: nat, scale: real)
    requires tileSize > 0 && scale > 0.0
    ensures 0.0 <= pos < (n * tileSize) as real * scale
        <==> 0 <= GridCell(pos, tileSize, scale) < n
  {
    var d := tileSize as real * scale;
    var q := InTiles(pos, tileSize, scale);
    assert pos == q * d;
    assert (n * tileSize) as real * scale == n as real * d;
    Arith.MulIff(0.0, q, d);
    Arith.MulIff(q, n as real, d);
    Arith.FloorIff(q, 0);
    Arith.FloorIff(q, n);
  }

  // ---------------------------------------------------------------------------
  // drawGrid

  /** One line segment of the grid, from `(x0, y0)` to `(x1, y1)`. */
  datatype Line = Line(x0: nat, y0: nat, x1: nat, y1: nat)

  /** What `drawGrid` draws: the dash length (`None` for solid lines), the grid
      lines in the order they are emitted, and the size of the bounding rectangle. */
  datatype GridDrawing = GridDrawing(dash: Option<real>, lines: seq<Line>, borderWidth: nat, borderHeight: nat)

  /** The values a loop `for (v = from; v < limit; v += step)` visits. */
  function StepsFrom(from: nat, step: nat, limit: nat): seq<nat>
    requires step > 0
    decreases limit - from
  {
    if limit <= from then [] else [from] + StepsFrom(from + step, step, limit)
  }

  /** The loop visits `from`, `from + step`, `from + 2 * step`, ... in turn, all
      below `limit`, and stops at the first step that reaches `limit`. */
  lemma {:induction false} StepsFromAt(from: nat, step: nat, limit: nat)
    requires step > 0
    ensures var r := StepsFrom(from, step, limit);
      && (forall i | 0 <= i < |r| :: r[i] == from + i * step && r[i] < limit)
      && limit <= from + |r| * step
    decreases limit - from
  {
    if from < limit {
      StepsFromAt(from + step, step, limit);
      var r, rest := StepsFrom(from, step, limit), StepsFrom(from + step, step, limit);
      assert r == [from] + rest;
      forall i | 1 <= i < |r|
        ensures r[i] == from + i * step
      {
        assert r[i] == rest[i - 1] == from + step + (i - 1) * step;
      }
      assert from + |r| * step == from + step + |rest| * step;
    }
  }

  /** The vertical lines at the given x positions, each spanning the height. */
  function Verticals(xs: seq<nat>, height: nat): seq<Line>
  {
    if xs == [] then [] else [Line(xs[0], 0, xs[0], height)] + Verticals(xs[1..], height)
  }

  /** The horizontal lines at the given y positions, each spanning the width. */
  function Horizontals(ys: seq<nat>, width: nat): seq<Line>
  {
    if ys == [] then [] else [Line(0, ys[0], width, ys[0])] + Horizontals(ys[1..], width)
  }

  lemma {:induction false} VerticalsAt(xs: seq<nat>, height: nat)
    ensures |Verticals(xs, height)| == |xs|
    ensures forall i | 0 <= i < |xs| :: Verticals(xs, height)[i] == Line(xs[i], 0, xs[i], height)
  {
    if xs != [] {
      VerticalsAt(xs[1..], height);
    }
  }

  lemma {:induction false} HorizontalsAt(ys: seq<nat>, width: nat)
    ensures |Horizontals(ys, width)| == |ys|
    ensures forall i | 0 <= i < |ys| :: Horizontals(ys, width)[i] == Line(0, ys[i], width, ys[i])
  {
    if ys != [] {
      HorizontalsAt(ys[1..], width);
    }
  }

  lemma VerticalsStep(x: nat, tileSize: nat, width: nat, height: nat)
    requires tileSize > 0 && x < width
    ensures Verticals(StepsFrom(x, tileSize, width), height)
         == [Line(x, 0, x, height)] + Verticals(StepsFrom(x + tileSize, tileSize, width), height)
  {
    var rest := StepsFrom(x + tileSize, tileSize, width);
    assert ([x] + rest)[1..] == rest;
  }

  lemma HorizontalsStep(y: nat, tileSize: nat, height: nat, width: nat)
    requires tileSize > 0 && y < height
    ensures Horizontals(StepsFrom(y, tileSize, height), width)
         == [Line(0, y, width, y)] + Horizontals(StepsFrom(y + tileSize, tileSize, height), width)
  {
    var rest := StepsFrom(y + tileSize, tileSize, height);
    assert ([y] + rest)[1..] == rest;
  }

  lemma AppendStep(done: seq<Line>, next: Line, rest: seq<Line>)
    ensures done + ([next] + rest) == (done + [next]) + rest
  {
  }

  /** The picture `drawGrid(ctx, tileSize, width, height, dashed)` draws:
      vertical lines first, then horizontal ones, then the border. */
  function Grid(tileSize: nat, width: nat, height: nat, dashed: bool): GridDrawing
    requires tileSize > 0
  {
    GridDrawing(
      if dashed then Some(tileSize as real / 8.0) else None,
      Verticals(StepsFrom(0, tileSize, width), height) + Horizontals(StepsFrom(0, tileSize, height), width),
      width, height)
  }

  /** `drawGrid` with its two loops, emitting one line per step. */
  method DrawGrid(tileSize: nat, width: nat, height: nat, dashed: bool) returns (g: GridDrawing)
    requires tileSize > 0
    ensures g == Grid(tileSize, width, height, dashed)
  {
    var dash: Option<real> := if dashed then Some(tileSize as real / 8.0) else None;
    ghost var verticals := Verticals(StepsFrom(0, tileSize, width), height);
    ghost var horizontals := Horizontals(StepsFrom(0, tileSize, height), width);
    var lines: seq<Line> := [];
    var x: nat := 0;
    while x < width
      invariant verticals == lines + Verticals(StepsFrom(x, tileSize, width), height)
      decreases width - x
    {
      VerticalsStep(x, tileSize, width, height);
      ghost var rest := Verticals(StepsFrom(x + tileSize, tileSize, width), height);
      AppendStep(lines, Line(x, 0, x, height), rest);
      lines := lines + [Line(x, 0, x, height)];
      x := x + tileSize;
    }
    assert StepsFrom(x, tileSize, width) == [];
    var y: nat := 0;
    while y < height
      invariant verticals + horizontals == lines + Horizontals(StepsFrom(y, tileSize, height), width)
      decreases height - y
    {
      HorizontalsStep(y, tileSize, height, width);
      ghost var rest := Horizontals(StepsFrom(y + tileSize, tileSize, height), width);
      AppendStep(lines, Line(0, y, width, y), rest);
      lines := lines + [Line(0, y, width, y)];
      y := y + tileSize;
    }
    assert StepsFrom(y, tileSize, height) == [];
    g := GridDrawing(dash, lines, width, height);
  }

  /** The first lines of the grid are vertical, one at every multiple of
      `tileSize` below the width and none elsewhere, from left to right; the
      rest are horizontal, one at every multiple of `tileSize` below the height. */
  lemma GridLinesAtMultiples(tileSize: nat, width: nat, height: nat, dashed: bool)
    requires tileSize > 0
    ensures var g := Grid(tileSize, width, height, dashed);
      var nv := |StepsFrom(0, tileSize, width)|;
      var nh := |StepsFrom(0, tileSize, height)|;
      && |g.lines| == nv + nh
      && (forall i | 0 <= i < nv :: g.lines[i] == Line(i * tileSize, 0, i * tileSize, height) && i * tileSize < width)
      && width <= nv * tileSize
      && (forall i | 0 <= i < nh :: g.lines[nv + i] == Line(0, i * tileSize, width, i * tileSize) && i * tileSize < height)
      && height <= nh * tileSize
  {
    StepsFromAt(0, tileSize, width);
    StepsFromAt(0, tileSize, height);
    VerticalsAt(StepsFrom(0, tileSize, width), height);
    HorizontalsAt(StepsFrom(0, tileSize, height), width);
  }

  /** The vertical lines go strictly from left to right. */
  lemma VerticalLinesIncreasing(tileSize: nat, width: nat, height: nat, dashed: bool)
    requires tileSize > 0
    ensures var g := Grid(tileSize, width, height, dashed);
      var nv := |StepsFrom(0, tileSize, width)|;
      nv <= |g.lines| && forall i, j | 0 <= i < j < nv :: g.lines[i].x0 < g.lines[j].x0
  {
    var g := Grid(tileSize, width, height, dashed);
    var nv := |StepsFrom(0, tileSize, width)|;
    GridLinesAtMultiples(tileSize, width, height, dashed);
    forall i, j | 0 <= i < j < nv
      ensures g.lines[i].x0 < g.lines[j].x0
    {
      assert g.lines[i].x0 == i * tileSize && g.lines[j].x0 == j * tileSize;
      Arith.NatMulLt(i, j, tileSize);
    }
  }
}
