/** The tile map of scripts/Map.js: a stack of fixed-length layers of optional
    tile references over a grid of `rows` by `cols` cells, the point-to-cell
    queries, and the walk that renders the active layer. */
module TileMap {
  import opened Common
  import GridMath
  import Arith

  /** One layer: a row-major array of optional tile references. */
  type Layer = seq<Option<Tile>>

  /** `Array(n)`: a layer of `n` empty cells. */
  function EmptyLayer(n: nat): (l: Layer)
    ensures |l| == n
    ensures forall i | 0 <= i < n :: l[i] == None
  {
    seq(n, _ => None)
  }

  /** `get width()`: the map's pixel width is `rows * tileSize` (the source
      counts `rows` along the x axis). */
  function Width(rows: nat, tileSize: nat): nat
  {
    rows * tileSize
  }

  /** `get height()`: the map's pixel height is `cols * tileSize`. */
  function Height(cols: nat, tileSize: nat): nat
  {
    cols * tileSize
  }

  // ---------------------------------------------------------------------------
  // Point to cell

  /** Rounds toward zero, as JavaScript's `%` does with its quotient. */
  function Trunc(q: real): int
  {
    if q >= 0.0 then q.Floor else -((-q).Floor)
  }

  /** JavaScript's `a % b` on numbers: `a` minus `b` times the quotient
      rounded toward zero, so the result takes the sign of `a`, and it is `a`
      itself when `0 <= a < b`. */
  function JsRem(a: real, b: real): (r: real)
    requires b > 0.0
    ensures 0.0 <= a ==> 0.0 <= r
    ensures a <= 0.0 ==> r <= 0.0
    ensures 0.0 <= a < b ==> r == a
    ensures -b < r < b
  {
    JsRemFacts(a, b, a / b);
    a - b * Trunc(a / b) as real
  }

  lemma JsRemFacts(a: real, b: real, q: real)
    requires b > 0.0 && q == a / b
    ensures 0.0 <= a ==> 0.0 <= a - b * Trunc(q) as real
    ensures a <= 0.0 ==> a - b * Trunc(q) as real <= 0.0
    ensures 0.0 <= a < b ==> Trunc(q) == 0
    ensures -b < a - b * Trunc(q) as real < b
  {
    var t := Trunc(q) as real;
    Arith.FloorOf(q);
    Arith.FloorOf(-q);
    assert q * b == a;
    assert t - 1.0 < q < t + 1.0;
    Arith.RemUpper(a, b, q, t);
    Arith.RemLower(a, b, q, t);
    if 0.0 <= a {
      Arith.MulIff(0.0, q, b);
      Arith.MulMonotone(t, q, b);
      assert b * t <= a;
      if a < b {
        Arith.DivStrict(a, b, b);
        assert b / b == 1.0;
      }
    }
    if a <= 0.0 {
      Arith.MulIff(q, 0.0, b);
      Arith.MulMonotone(q, t, b);
      assert a <= b * t;
    }
  }

  /** `getTileIndexByPos(relX, relY)`: wraps the point into the map with `%`,
      measures it in tiles and combines the two as `y * rows + x`. The result
      is a number, fractional when the point is not on a tile boundary. */
  function TileIndexByPos(relX: real, relY: real, rows: nat, cols: nat, tileSize: nat): real
    requires rows > 0 && cols > 0 && tileSize > 0
  {
    var ts := tileSize as real;
    var x := JsRem(relX, Width(rows, tileSize) as real) / ts;
    var y := JsRem(relY, Height(cols, tileSize) as real) / ts;
    y * rows as real + x
  }

  /** `isPosInMap(x, y)`: the point lies in the map as drawn at zoom `scale`. */
  predicate IsPosInMap(x: real, y: real, rows: nat, cols: nat, tileSize: nat, scale: real)
  {
    && 0.0 <= x < Width(rows, tileSize) as real * scale
    && 0.0 <= y < Height(cols, tileSize) as real * scale
  }

  /** The x position at which `renderMap` draws cell `i`. */
  function CellX(i: nat, rows: nat, tileSize: nat): nat
    requires rows > 0
  {
    (i % rows) * tileSize
  }

  /** The y position at which `renderMap` draws cell `i`. */
  function CellY(i: nat, rows: nat, tileSize: nat): nat
    requires rows > 0
  {
    (i / rows) * tileSize
  }

  /** Round trip: cell `i` of a layer is drawn at `(CellX(i), CellY(i))`, and
      `getTileIndexByPos` of that point is `i` again. */
  lemma TileIndexRoundTrip(i: nat, rows: nat, cols: nat, tileSize: nat)
    requires rows > 0 && cols > 0 && tileSize > 0
    requires i < rows * cols
    ensures TileIndexByPos(CellX(i, rows, tileSize) as real, CellY(i, rows, tileSize) as real, rows, cols, tileSize) == i as real
  {
    var col, row := i % rows, i / rows;
    assert i == row * rows + col;
    assert row < cols by {
      if cols <= row {
        Arith.NatMulLe(cols, row, rows);
      }
    }
    CellIndex(col, row, rows, cols, tileSize);
  }

  /** The point at column `col` and row `row` of the grid: `getTileIndexByPos`
      gives `row * rows + col`. */
  lemma CellIndex(col: nat, row: nat, rows: nat, cols: nat, tileSize: nat)
    requires col < rows && row < cols && tileSize > 0
    ensures TileIndexByPos((col * tileSize) as real, (row * tileSize) as real, rows, cols, tileSize)
         == (row * rows + col) as real
  {
    var ts := tileSize as real;
    var x, y := (col * tileSize) as real, (row * tileSize) as real;
    var xt, yt := JsRem(x, Width(rows, tileSize) as real) / ts, JsRem(y, Height(cols, tileSize) as real) / ts;
    WrapInTiles(col, rows, Width(rows, tileSize), tileSize);
    WrapInTiles(row, cols, Height(cols, tileSize), tileSize);
    IndexFromParts(x, y, rows, cols, tileSize, xt, yt);
    RowMajor(xt, yt, col, row, rows);
  }

  lemma IndexFromParts(relX: real, relY: real, rows: nat, cols: nat, tileSize: nat, xt: real, yt: real)
    requires rows > 0 && cols > 0 && tileSize > 0
    requires xt == JsRem(relX, Width(rows, tileSize) as real) / tileSize as real
    requires yt == JsRem(relY, Height(cols, tileSize) as real) / tileSize as real
    ensures TileIndexByPos(relX, relY, rows, cols, tileSize) == yt * rows as real + xt
  {
  }

  lemma RowMajor(xt: real, yt: real, col: nat, row: nat, rows: nat)
    requires xt == col as real && yt == row as real
    ensures yt * rows as real + xt == (row * rows + col) as real
  {
    Arith.CastMul(row, rows);
  }

  /** A cell offset `k * tileSize` inside an extent of `n` tiles is left alone
      by `%` and measures `k` tiles. */
  lemma WrapInTiles(k: nat, n: nat, extent: nat, tileSize: nat)
    requires k < n && tileSize > 0 && extent == n * tileSize
    ensures JsRem((k * tileSize) as real, extent as real) / tileSize as real == k as real
  {
    Arith.NatMulLt(k, n, tileSize);
    Arith.CastMul(k, tileSize);
    Arith.DivOfMultiple((k * tileSize) as real, k as real, tileSize as real);
  }

  /** The coordinate `v` is the boundary of one of the tiles `0 .. n-1`. */
  predicate OnGrid(v: real, tileSize: nat, n: nat)
    requires tileSize > 0
  {
    var k := (v / tileSize as real).Floor;
    0 <= k < n && v == k as real * tileSize as real
  }

  /** The other direction of the round trip: for a point on the boundary of a
      cell of the map, `getTileIndexByPos` is a whole number below
      `rows * cols`, and that cell is drawn exactly at the point. */
  lemma OnGridIndex(x: real, y: real, rows: nat, cols: nat, tileSize: nat)
    requires rows > 0 && cols > 0 && tileSize > 0
    requires OnGrid(x, tileSize, rows) && OnGrid(y, tileSize, cols)
    ensures var idx := TileIndexByPos(x, y, rows, cols, tileSize);
      && idx == idx.Floor as real
      && 0 <= idx.Floor < rows * cols
      && CellX(idx.Floor, rows, tileSize) as real == x
      && CellY(idx.Floor, rows, tileSize) as real == y
  {
    var col: nat := (x / tileSize as real).Floor;
    var row: nat := (y / tileSize as real).Floor;
    var i := row * rows + col;
    assert (col * tileSize) as real == x && (row * tileSize) as real == y by {
      Arith.CastMul(col, tileSize);
      Arith.CastMul(row, tileSize);
    }
    assert i < rows * cols by {
      Arith.NatMulLe(row + 1, cols, rows);
    }
    assert CellX(i, rows, tileSize) == col * tileSize && CellY(i, rows, tileSize) == row * tileSize by {
      Arith.DivModUnique(i, rows, row, col);
    }
    CornerIndex(x, y, rows, cols, tileSize);
  }

  /** For a point on a cell corner of the map, `getTileIndexByPos` is the
      row-major number of that cell: its row times `rows` plus its column. */
  lemma CornerIndex(x: real, y: real, rows: nat, cols: nat, tileSize: nat)
    requires rows > 0 && cols > 0 && tileSize > 0
    requires OnGrid(x, tileSize, rows) && OnGrid(y, tileSize, cols)
    ensures TileIndexByPos(x, y, rows, cols, tileSize)
         == ((y / tileSize as real).Floor * rows + (x / tileSize as real).Floor) as real
  {
    var col: nat := (x / tileSize as real).Floor;
    var row: nat := (y / tileSize as real).Floor;
    assert x == (col * tileSize) as real by {
      Arith.CastMul(col, tileSize);
    }
    assert y == (row * tileSize) as real by {
      Arith.CastMul(row, tileSize);
    }
    assert TileIndexByPos((col * tileSize) as real, (row * tileSize) as real, rows, cols, tileSize) == (row * rows + col) as real by {
      CellIndex(col, row, rows, cols, tileSize);
    }
  }

  /** A pointer position is in the map exactly when both of its snapped
      coordinates are boundaries of cells of the map. */
  lemma InMapIffSnappedOnGrid(relX: real, relY: real, rows: nat, cols: nat, tileSize: nat, scale: real)
    requires tileSize > 0 && scale > 0.0
    ensures IsPosInMap(relX, relY, rows, cols, tileSize, scale) <==>
      && OnGrid(GridMath.ToGridPos(relX, tileSize, scale), tileSize, rows)
      && OnGrid(GridMath.ToGridPos(relY, tileSize, scale), tileSize, cols)
  {
    var kx, ky := GridMath.GridCell(relX, tileSize, scale), GridMath.GridCell(relY, tileSize, scale);
    assert 0.0 <= relX < Width(rows, tileSize) as real * scale <==> 0 <= kx < rows by {
      GridMath.InExtentIffCellInRange(relX, rows, tileSize, scale);
    }
    assert 0.0 <= relY < Height(cols, tileSize) as real * scale <==> 0 <= ky < cols by {
      GridMath.InExtentIffCellInRange(relY, cols, tileSize, scale);
    }
    SnappedOnGrid(relX, rows, tileSize, scale);
    SnappedOnGrid(relY, cols, tileSize, scale);
  }

  lemma SnappedOnGrid(pos: real, n: nat, tileSize: nat, scale: real)
    requires tileSize > 0 && scale > 0.0
    ensures OnGrid(GridMath.ToGridPos(pos, tileSize, scale), tileSize, n)
        <==> 0 <= GridMath.GridCell(pos, tileSize, scale) < n
  {
    var r := GridMath.ToGridPos(pos, tileSize, scale);
    var k := GridMath.GridCell(pos, tileSize, scale);
    Arith.DivOfMultiple(r, k as real, tileSize as real);
    assert (r / tileSize as real).Floor == k;
  }

  // ---------------------------------------------------------------------------
  // Editing a layer

  /** `layers[a][idx] = v` (and `delete layers[a][idx]`, with `v = None`):
      the stack of layers with one cell of one layer replaced. */
  function SetCell(layers: seq<Layer>, a: nat, idx: nat, v: Option<Tile>): seq<Layer>
    requires a < |layers| && idx < |layers[a]|
  {
    layers[a := layers[a][idx := v]]
  }

  /** Setting a cell changes that cell of that layer and nothing else: every
      layer keeps its length, and every other cell keeps its content. */
  lemma SetCellFrame(layers: seq<Layer>, a: nat, idx: nat, v: Option<Tile>)
    requires a < |layers| && idx < |layers[a]|
    ensures var r := SetCell(layers, a, idx, v);
      && |r| == |layers|
      && (forall l | 0 <= l < |r| :: |r[l]| == |layers[l]|)
      && r[a][idx] == v
      && (forall l, j | 0 <= l < |r| && 0 <= j < |r[l]| && (l != a || j != idx) :: r[l][j] == layers[l][j])
  {
  }

  /** Setting the same cell to the same value twice is setting it once; in
      particular erasing a cell twice equals erasing it once. */
  lemma SetCellIdempotent(layers: seq<Layer>, a: nat, idx: nat, v: Option<Tile>)
    requires a < |layers| && idx < |layers[a]|
    ensures SetCell(SetCell(layers, a, idx, v), a, idx, v) == SetCell(layers, a, idx, v)
  {
    var once := SetCell(layers, a, idx, v);
    assert once[a][idx := v] == once[a];
  }

  // ---------------------------------------------------------------------------
  // renderMap

  /** One `drawImage` of the render: the tile's source rectangle drawn at `(x, y)`. */
  datatype Blit = Blit(tile: Tile, x: nat, y: nat)

  /** What drawing cell `i` adds: a blit at the cell's position when it holds a
      tile, nothing when it is empty. */
  function CellBlits(cell: Option<Tile>, i: nat, rows: nat, tileSize: nat): seq<Blit>
    requires rows > 0
  {
    match cell
    case None => []
    case Some(t) => [Blit(t, CellX(i, rows, tileSize), CellY(i, rows, tileSize))]
  }

  /** The blits for the first `n` cells of a layer, in cell order. */
  function RenderPrefix(layer: Layer, n: nat, rows: nat, tileSize: nat): seq<Blit>
    requires n <= |layer| && rows > 0
  {
    if n == 0 then [] else RenderPrefix(layer, n - 1, rows, tileSize) + CellBlits(layer[n - 1], n - 1, rows, tileSize)
  }

  /** Everything `renderMap` draws for a layer, in drawing order. */
  function Render(layer: Layer, rows: nat, tileSize: nat): seq<Blit>
    requires rows > 0
  {
    RenderPrefix(layer, |layer|, rows, tileSize)
  }

  /** Walking from cell `i` to cell `i + 1` moves one tile to the right, or,
      after the last column, back to the left edge one row down: the update
      `renderMap` makes to its `x` and `y` counters. */
  lemma CellStep(i: nat, rows: nat, tileSize: nat)
    requires rows > 0
    ensures (i + 1) % rows == 0 ==>
      CellX(i + 1, rows, tileSize) == 0 && CellY(i + 1, rows, tileSize) == CellY(i, rows, tileSize) + tileSize
    ensures (i + 1) % rows != 0 ==>
      CellX(i + 1, rows, tileSize) == CellX(i, rows, tileSize) + tileSize && CellY(i + 1, rows, tileSize) == CellY(i, rows, tileSize)
  {
    var q, m := i / rows, i % rows;
    assert i == q * rows + m;
    if m + 1 == rows {
      assert i + 1 == (q + 1) * rows + 0;
      Arith.DivModUnique(i + 1, rows, q + 1, 0);
    } else {
      Arith.DivModUnique(i + 1, rows, q, m + 1);
    }
  }

  lemma {:induction false} RenderPrefixGrows(layer: Layer, n: nat, m: nat, rows: nat, tileSize: nat)
    requires n <= m <= |layer| && rows > 0
    ensures RenderPrefix(layer, n, rows, tileSize) <= RenderPrefix(layer, m, rows, tileSize)
    decreases m - n
  {
    if n < m {
      RenderPrefixGrows(layer, n, m - 1, rows, tileSize);
    }
  }

  /** Every tile of the layer is drawn, at its cell's position. */
  lemma RenderDrawsEveryTile(layer: Layer, rows: nat, tileSize: nat, i: nat)
    requires rows > 0 && i < |layer| && layer[i].Some?
    ensures Blit(layer[i].value, CellX(i, rows, tileSize), CellY(i, rows, tileSize)) in Render(layer, rows, tileSize)
  {
    RenderPrefixGrows(layer, i + 1, |layer|, rows, tileSize);
    var b := Blit(layer[i].value, CellX(i, rows, tileSize), CellY(i, rows, tileSize));
    assert b in RenderPrefix(layer, i + 1, rows, tileSize);
  }

  /** Every blit of the first `n` cells comes from a cell holding that tile and
      is drawn at that cell's position. */
  lemma {:induction false} RenderPrefixSource(layer: Layer, n: nat, rows: nat, tileSize: nat, b: Blit) returns (i: nat)
    requires n <= |layer| && rows > 0
    requires b in RenderPrefix(layer, n, rows, tileSize)
    ensures i < n && layer[i] == Some(b.tile)
    ensures b.x == CellX(i, rows, tileSize) && b.y == CellY(i, rows, tileSize)
  {
    if b in RenderPrefix(layer, n - 1, rows, tileSize) {
      i := RenderPrefixSource(layer, n - 1, rows, tileSize, b);
    } else {
      i := n - 1;
    }
  }

  /** Round trip between drawing and picking: every blit `renderMap` makes lies
      at a point whose `getTileIndexByPos` is a whole index into the layer,
      and the cell at that index holds the blit's tile. Empty cells are never
      drawn. */
  lemma RenderRoundTrip(layer: Layer, rows: nat, cols: nat, tileSize: nat, b: Blit)
    requires rows > 0 && cols > 0 && tileSize > 0
    requires |layer| == rows * cols
    requires b in Render(layer, rows, tileSize)
    ensures var idx := TileIndexByPos(b.x as real, b.y as real, rows, cols, tileSize);
      && idx == idx.Floor as real
      && 0 <= idx.Floor < |layer|
      && layer[idx.Floor] == Some(b.tile)
  {
    var i := RenderPrefixSource(layer, |layer|, rows, tileSize, b);
    TileIndexRoundTrip(i, rows, cols, tileSize);
  }

  // ---------------------------------------------------------------------------
  // The map object

  /** `class Map`: the layers, the active-layer index, the zoom and the
      off-screen canvas that `renderMap` paints. */
  class Map {
    const tileSize: nat := 64
    const rows: nat := 10
    const cols: nat := 10
    const minScale: real := 0.5
    const maxScale: real := 4.0

    var layers: seq<Layer>
    var activeLayerIndex: int
    /** `_scale`, read through the `scale` getter. */
    var scale: real
    /** The off-screen canvas: the blits of the last `renderMap`, in order. */
    var buffer: seq<Blit>

    /** Every layer has one cell per grid cell, and the zoom is within its
        bounds. The active-layer index is not part of it: removing a layer
        does not adjust it. */
    ghost predicate Valid()
      reads this
    {
      && (forall l | l in layers :: |l| == rows * cols)
      && minScale <= scale <= maxScale
    }

    /** The active-layer index names an existing layer. */
    predicate HasActiveLayer()
      reads this
    {
      0 <= activeLayerIndex < |layers|
    }

    /** `getActiveLayer()`. */
    function ActiveLayer(): (l: Layer)
      reads this
      requires HasActiveLayer()
      ensures l in layers
      ensures Valid() ==> |l| == rows * cols
    {
      layers[activeLayerIndex]
    }

    /** A fresh map has one empty layer, which is active, and zoom 1. */
    constructor ()
      ensures Valid() && HasActiveLayer()
      ensures layers == [EmptyLayer(rows * cols)] && activeLayerIndex == 0
      ensures scale == 1.0 && buffer == []
    {
      layers := [];
      activeLayerIndex := 0;
      scale := 1.0;
      buffer := [];
      new;
      AddNewLayer();
    }

    /** `addNewLayer()`: appends an empty layer and leaves the others alone. */
    method AddNewLayer()
      requires Valid()
      modifies this`layers
      ensures Valid()
      ensures layers == old(layers) + [EmptyLayer(cols * rows)]
    {
      layers := layers + [EmptyLayer(cols * rows)];
    }

    /** `removeLayerByIndex(idx)`: `splice(idx, 1)` removes the layer at `idx`
        and keeps the others in order; an index past the end removes nothing.
        The active-layer index is left as it was. */
    method RemoveLayerByIndex(idx: nat)
      requires Valid()
      modifies this`layers
      ensures Valid()
      ensures idx < |old(layers)| ==> layers == old(layers)[..idx] + old(layers)[idx + 1..]
      ensures |old(layers)| <= idx ==> layers == old(layers)
    {
      if idx < |layers| {
        layers := layers[..idx] + layers[idx + 1..];
      }
    }

    /** `setActiveLayerIndex(idx)`. */
    method SetActiveLayerIndex(idx: int)
      modifies this`activeLayerIndex
      ensures activeLayerIndex == idx
    {
      activeLayerIndex := idx;
    }

    /** The `scale` setter: `map.scale = value` adds `value` to the zoom and
        clamps the sum to `[minScale, maxScale]`. */
    method SetScale(value: real)
      requires Valid()
      modifies this`scale
      ensures Valid()
      ensures scale == Clamp(old(scale) + value, minScale, maxScale)
    {
      scale := scale + value;
      scale := Clamp(scale, minScale, maxScale);
    }

    /** `fillTileByIndex(idx, val)`: puts `val` in cell `idx` of the active
        layer, then re-renders. */
    method FillTileByIndex(idx: nat, val: Option<Tile>)
      requires Valid() && HasActiveLayer() && idx < rows * cols
      modifies this`layers, this`buffer
      ensures Valid() && HasActiveLayer()
      ensures layers == SetCell(old(layers), activeLayerIndex, idx, val)
      ensures buffer == Render(ActiveLayer(), rows, tileSize)
    {
      layers := layers[activeLayerIndex := layers[activeLayerIndex][idx := val]];
      RenderMap();
    }

    /** `removeTileByIndex(idx)`: `delete` empties cell `idx` of the active
        layer, then re-renders. */
    method RemoveTileByIndex(idx: nat)
      requires Valid() && HasActiveLayer() && idx < rows * cols
      modifies this`layers, this`buffer
      ensures Valid() && HasActiveLayer()
      ensures layers == SetCell(old(layers), activeLayerIndex, idx, None)
      ensures buffer == Render(ActiveLayer(), rows, tileSize)
    {
      layers := layers[activeLayerIndex := layers[activeLayerIndex][idx := None]];
      RenderMap();
    }

    /** `renderMap()`: clears the off-screen canvas, then walks the active layer
        with an `x`/`y` pair of counters, drawing each tile it finds. */
    method RenderMap()
      requires HasActiveLayer()
      modifies this`buffer
      ensures buffer == Render(ActiveLayer(), rows, tileSize)
    {
      buffer := [];
      var lay := ActiveLayer();
      var x: nat, y: nat := 0, 0;
      var i := 0;
      while i < |lay|
        invariant 0 <= i <= |lay|
        invariant x == CellX(i, rows, tileSize) && y == CellY(i, rows, tileSize)
        invariant buffer == RenderPrefix(lay, i, rows, tileSize)
      {
        if lay[i].Some? {
          buffer := buffer + [Blit(lay[i].value, x, y)];
        }
        x := x + tileSize;
        CellStep(i, rows, tileSize);
        if (i + 1) % rows == 0 {
          y := y + tileSize;
          x := 0;
        }
        i := i + 1;
      }
    }
  }
}
