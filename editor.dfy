/** The editor of scripts/App.js: the pointer cursor over the map canvas, the
    tile chosen in the sprite picker, and the fill/erase rule applied before
    each frame. */
module Editor {
  import opened Common
  import opened GridMath
  import opened TileMap

  /** The button mask a click handler forwards to the move handler: 2 for a
      right click, 1 for everything else; exactly one button is then held. */
  function ClickButtons(buttons: int): (b: int)
    ensures PrimaryOnly(b) != SecondaryOnly(b)
    ensures SecondaryOnly(b) <==> buttons == 2
  {
    if buttons == 2 then 2 else 1
  }

  /** The cursor after a pointer move to `(relX, relY)` (canvas pixels relative
      to the map origin) with `buttons` held, at zoom `scale`: the snapped
      position, the button flags and whether the point is over the map. */
  function Moved(c: Cursor, relX: real, relY: real, buttons: int, rows: nat, cols: nat, tileSize: nat, scale: real): Cursor
    requires tileSize > 0 && scale > 0.0
  {
    c.(inMap := IsPosInMap(relX, relY, rows, cols, tileSize, scale),
       x := ToGridPos(relX, tileSize, scale),
       y := ToGridPos(relY, tileSize, scale),
       rightPressed := SecondaryOnly(buttons),
       pressed := PrimaryOnly(buttons))
  }

  /** A cursor the editor can act on: never both buttons at once, and when it
      is over the map its position is the corner of one of the map's cells. */
  ghost predicate CursorValid(c: Cursor, rows: nat, cols: nat, tileSize: nat)
    requires tileSize > 0
  {
    && !(c.pressed && c.rightPressed)
    && (c.inMap ==> OnGrid(c.x, tileSize, rows) && OnGrid(c.y, tileSize, cols))
  }

  /** Every move leaves a valid cursor whose visibility is untouched, and the
      cursor is over the map exactly when its snapped position is a cell
      corner of the map. */
  lemma MovedCursorValid(c: Cursor, relX: real, relY: real, buttons: int, rows: nat, cols: nat, tileSize: nat, scale: real)
    requires tileSize > 0 && scale > 0.0
    ensures var m := Moved(c, relX, relY, buttons, rows, cols, tileSize, scale);
      && CursorValid(m, rows, cols, tileSize)
      && m.visible == c.visible
      && (m.inMap <==> OnGrid(m.x, tileSize, rows) && OnGrid(m.y, tileSize, cols))
  {
    InMapIffSnappedOnGrid(relX, relY, rows, cols, tileSize, scale);
  }

  /** The cell whose top-left corner is the cursor: row `y / tileSize` and
      column `x / tileSize`, numbered row-major with `rows` cells per row. It
      is a cell of the map, and it is drawn exactly at the cursor. */
  function CursorCell(x: real, y: real, rows: nat, cols: nat, tileSize: nat): (i: nat)
    requires rows > 0 && cols > 0 && tileSize > 0
    requires OnGrid(x, tileSize, rows) && OnGrid(y, tileSize, cols)
    ensures i < rows * cols
    ensures CellX(i, rows, tileSize) as real == x && CellY(i, rows, tileSize) as real == y
  {
    OnGridIndex(x, y, rows, cols, tileSize);
    CornerIndex(x, y, rows, cols, tileSize);
    (y / tileSize as real).Floor * rows + (x / tileSize as real).Floor
  }

  /** For an in-map cursor `getTileIndexByPos` is a whole number: the index of
      the cell under the cursor. */
  lemma CursorCellIsTileIndex(x: real, y: real, rows: nat, cols: nat, tileSize: nat)
    requires rows > 0 && cols > 0 && tileSize > 0
    requires OnGrid(x, tileSize, rows) && OnGrid(y, tileSize, cols)
    ensures TileIndexByPos(x, y, rows, cols, tileSize) == CursorCell(x, y, rows, cols, tileSize) as real
  {
    CornerIndex(x, y, rows, cols, tileSize);
  }

  /** `pos` lies in the tile whose unscaled corner is `corner`, as drawn at
      zoom `scale`. */
  predicate InScaledTile(pos: real, corner: real, tileSize: nat, scale: real)
  {
    corner * scale <= pos < (corner + tileSize as real) * scale
  }

  /** A pointer over the map lands in the cell whose scaled square contains
      it: the cell the fill/erase rule edits is the one under the pointer. */
  lemma PointerCell(relX: real, relY: real, rows: nat, cols: nat, tileSize: nat, scale: real)
    requires rows > 0 && cols > 0 && tileSize > 0 && scale > 0.0
    requires IsPosInMap(relX, relY, rows, cols, tileSize, scale)
    ensures OnGrid(ToGridPos(relX, tileSize, scale), tileSize, rows)
    ensures OnGrid(ToGridPos(relY, tileSize, scale), tileSize, cols)
    ensures var i := CursorCell(ToGridPos(relX, tileSize, scale), ToGridPos(relY, tileSize, scale), rows, cols, tileSize);
      && InScaledTile(relX, CellX(i, rows, tileSize) as real, tileSize, scale)
      && InScaledTile(relY, CellY(i, rows, tileSize) as real, tileSize, scale)
  {
    var gx, gy := ToGridPos(relX, tileSize, scale), ToGridPos(relY, tileSize, scale);
    assert OnGrid(gx, tileSize, rows) && OnGrid(gy, tileSize, cols) by {
      InMapIffSnappedOnGrid(relX, relY, rows, cols, tileSize, scale);
    }
    var i := CursorCell(gx, gy, rows, cols, tileSize);
    SnapInScaledTile(relX, CellX(i, rows, tileSize) as real, tileSize, scale);
    SnapInScaledTile(relY, CellY(i, rows, tileSize) as real, tileSize, scale);
  }

  lemma SnapInScaledTile(pos: real, corner: real, tileSize: nat, scale: real)
    requires tileSize > 0 && scale > 0.0
    requires corner == ToGridPos(pos, tileSize, scale)
    ensures InScaledTile(pos, corner, tileSize, scale)
  {
    ToGridPosContains(pos, tileSize, scale);
  }

  /** The layers after `onBeforeUpdate`: outside the map nothing changes;
      over the map the primary button fills the cell under the cursor with the
      chosen tile, then the secondary button erases it. */
  function Painted(layers: seq<Layer>, a: nat, c: Cursor, tile: Option<Tile>, rows: nat, cols: nat, tileSize: nat): seq<Layer>
    requires rows > 0 && cols > 0 && tileSize > 0
    requires a < |layers| && |layers[a]| == rows * cols
    requires c.inMap ==> OnGrid(c.x, tileSize, rows) && OnGrid(c.y, tileSize, cols)
  {
    if !c.inMap then layers
    else
      var i := CursorCell(c.x, c.y, rows, cols, tileSize);
      var filled := if c.pressed then SetCell(layers, a, i, tile) else layers;
      if c.rightPressed then SetCell(filled, a, i, None) else filled
  }

  /** What the fill/erase rule does cell by cell: only the cell under the
      cursor in the active layer can change; it is emptied by the secondary
      button, takes the chosen tile with the primary button, and is kept
      otherwise. Outside the map the layers are untouched. */
  lemma PaintedCell(layers: seq<Layer>, a: nat, c: Cursor, tile: Option<Tile>, rows: nat, cols: nat, tileSize: nat)
    requires rows > 0 && cols > 0 && tileSize > 0
    requires a < |layers| && |layers[a]| == rows * cols
    requires c.inMap ==> OnGrid(c.x, tileSize, rows) && OnGrid(c.y, tileSize, cols)
    ensures var r := Painted(layers, a, c, tile, rows, cols, tileSize);
      && |r| == |layers|
      && (forall l | 0 <= l < |r| :: |r[l]| == |layers[l]|)
      && (!c.inMap ==> r == layers)
      && (c.inMap ==>
            var i := CursorCell(c.x, c.y, rows, cols, tileSize);
            && r[a][i] == (if c.rightPressed then None else if c.pressed then tile else layers[a][i])
            && (forall l, j | 0 <= l < |r| && 0 <= j < |r[l]| && (l != a || j != i) :: r[l][j] == layers[l][j]))
  {
    if c.inMap {
      var i := CursorCell(c.x, c.y, rows, cols, tileSize);
      var filled := if c.pressed then SetCell(layers, a, i, tile) else layers;
      if c.pressed {
        SetCellFrame(layers, a, i, tile);
      }
      if c.rightPressed {
        SetCellFrame(filled, a, i, None);
      }
    }
  }

  /** `class App`: the map, the tile chosen in the sprite picker and the cursor
      over the map canvas. */
  class App {
    const tileMap: Map
    /** The tile the next fill puts down; `None` until one is picked. */
    var tile: Option<Tile>
    var cursor: Cursor

    ghost predicate Valid()
      reads this, tileMap
    {
      && tileMap.Valid() && tileMap.HasActiveLayer()
      && CursorValid(cursor, tileMap.rows, tileMap.cols, tileMap.tileSize)
    }

    /** A fresh editor: a fresh map, no tile chosen, the initial cursor. */
    constructor ()
      ensures Valid() && fresh(tileMap)
      ensures tile == None && cursor == InitialCursor
      ensures tileMap.layers == [EmptyLayer(tileMap.rows * tileMap.cols)] && tileMap.activeLayerIndex == 0 && tileMap.scale == 1.0
    {
      tileMap := new Map();
      tile := None;
      cursor := InitialCursor;
    }

    /** `onCanvasMouseMove`: snaps the pointer to the grid at the current zoom
        and records the buttons and whether the pointer is over the map. */
    method OnCanvasMouseMove(relX: real, relY: real, buttons: int)
      requires Valid()
      modifies this`cursor
      ensures Valid()
      ensures cursor == Moved(old(cursor), relX, relY, buttons, tileMap.rows, tileMap.cols, tileMap.tileSize, tileMap.scale)
    {
      var tileSize := tileMap.tileSize;
      var scale := tileMap.scale;
      MovedCursorValid(cursor, relX, relY, buttons, tileMap.rows, tileMap.cols, tileSize, scale);
      cursor := cursor.(inMap := IsPosInMap(relX, relY, tileMap.rows, tileMap.cols, tileSize, scale));
      cursor := cursor.(x := ToGridPos(relX, tileSize, scale));
      cursor := cursor.(y := ToGridPos(relY, tileSize, scale));
      cursor := cursor.(rightPressed := buttons == 2);
      cursor := cursor.(pressed := buttons == 1);
    }

    /** `onCanvasClick` (also the context-menu handler): a move with the
        button mask reduced to exactly one button. */
    method OnCanvasClick(relX: real, relY: real, buttons: int)
      requires Valid()
      modifies this`cursor
      ensures Valid()
      ensures cursor == Moved(old(cursor), relX, relY, ClickButtons(buttons), tileMap.rows, tileMap.cols, tileMap.tileSize, tileMap.scale)
      ensures cursor.pressed != cursor.rightPressed
      ensures cursor.rightPressed <==> buttons == 2
    {
      OnCanvasMouseMove(relX, relY, if buttons == 2 then 2 else 1);
    }

    /** `onCanvasWheel`: zooms the map by `deltaY * -0.001`, clamped, then
        re-snaps the cursor at the new zoom. */
    method OnCanvasWheel(relX: real, relY: real, deltaY: real, buttons: int)
      requires Valid()
      modifies this`cursor, tileMap`scale
      ensures Valid()
      ensures tileMap.scale == Clamp(old(tileMap.scale) + deltaY * -0.001, tileMap.minScale, tileMap.maxScale)
      ensures cursor == Moved(old(cursor), relX, relY, buttons, tileMap.rows, tileMap.cols, tileMap.tileSize, tileMap.scale)
    {
      tileMap.SetScale(deltaY * -0.001);
      OnCanvasMouseMove(relX, relY, buttons);
    }

    /** `onCanvasMouseOut`: the cursor is hidden; nothing else changes. */
    method OnCanvasMouseOut()
      requires Valid()
      modifies this`cursor
      ensures Valid()
      ensures cursor == old(cursor).(visible := false)
    {
      cursor := cursor.(visible := false);
    }

    /** The `onmouseenter` handler: the cursor is shown; nothing else changes. */
    method OnMouseEnter()
      requires Valid()
      modifies this`cursor
      ensures Valid()
      ensures cursor == old(cursor).(visible := true)
    {
      cursor := cursor.(visible := true);
    }

    /** `setTile(bitmap)`: the tile chosen in the sprite picker. */
    method SetTile(bitmap: Option<Tile>)
      modifies this`tile
      ensures tile == bitmap
    {
      tile := bitmap;
    }

    /** `onBeforeUpdate`: over the map, fills (primary button) or erases
        (secondary button) the cell under the cursor in the active layer, each
        edit re-rendering the map; otherwise does nothing. */
    method OnBeforeUpdate()
      requires Valid()
      modifies tileMap`layers, tileMap`buffer
      ensures Valid()
      ensures tileMap.layers == Painted(old(tileMap.layers), tileMap.activeLayerIndex, cursor, tile, tileMap.rows, tileMap.cols, tileMap.tileSize)
      ensures cursor.inMap && (cursor.pressed || cursor.rightPressed) ==>
        tileMap.buffer == Render(tileMap.ActiveLayer(), tileMap.rows, tileMap.tileSize)
      ensures !(cursor.inMap && (cursor.pressed || cursor.rightPressed)) ==> tileMap.buffer == old(tileMap.buffer)
    {
      if !cursor.inMap {
        return;
      }
      var tileIndex := TileIndexByPos(cursor.x, cursor.y, tileMap.rows, tileMap.cols, tileMap.tileSize);
      CursorCellIsTileIndex(cursor.x, cursor.y, tileMap.rows, tileMap.cols, tileMap.tileSize);
      var idx := tileIndex.Floor;
      if cursor.pressed {
        tileMap.FillTileByIndex(idx, tile);
      }
      if cursor.rightPressed {
        tileMap.RemoveTileByIndex(idx);
      }
    }
  }
}
