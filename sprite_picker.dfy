/** The sprite picker of scripts/SpriteSheetContainer.js: a zoomable view of
    the sprite sheet with a snapped cursor, where a click selects the tile
    under the cursor and hands it to the listener. */
module SpritePicker {
  import opened Common
  import opened GridMath

  /** The zoom range of the sheet view, and the zoom it starts at. */
  const MinScale: real := 0.3
  const MaxScale: real := 1.5
  const InitialScale: real := 0.3

  /** The grid size used when the constructor is given none. */
  const DefaultGridSize: nat := 32

  /** The highlight test of `drawCanvas` as written, `if(selectedTile.x)`: a
      JavaScript number is falsy when it is 0, so a selection in the first
      column (x = 0) is never highlighted. */
  predicate HighlightAsWritten(selected: Option<Tile>)
  {
    selected.Some? && selected.value.x != 0.0
  }

  /** The highlight test as intended: a tile has been selected. */
  predicate Highlight(selected: Option<Tile>)
  {
    selected.Some?
  }

  /** A selection in the first column: the click lands on tile corner 0, a tile
      is selected, and the test as written does not highlight it while the
      intended test does. */
  lemma FirstColumnNotHighlighted(pos: real, y: real, gridSize: nat, scale: real)
    requires gridSize > 0 && scale > 0.0
    requires 0.0 <= pos < gridSize as real * scale
    ensures var selected := Some(Tile(ToGridPos(pos, gridSize, scale), y));
      && !HighlightAsWritten(selected)
      && Highlight(selected)
  {
    FirstTileSnapsToZero(pos, gridSize, scale);
  }

  /** `class SpriteSheetContainer`, without its canvas and image handling. */
  class SpriteSheetContainer {
    const gridSize: nat
    var scale: real
    /** Whether an `onSelected` listener is installed (it starts as `null`). */
    var hasOnSelected: bool
    /** The last selected tile; `None` while `selectedTile` is still `{}`. */
    var selectedTile: Option<Tile>
    var cursor: Cursor

    /** The zoom is within its range; the cursor's coordinates are whole
        multiples of `gridSize` (possibly negative or beyond the image, as the
        pointer can be), the cursor never has both buttons, and any selected
        tile's coordinates are whole multiples of `gridSize` too. */
    ghost predicate Valid()
      reads this
    {
      && gridSize > 0
      && MinScale <= scale <= MaxScale
      && OnLattice(cursor.x, gridSize) && OnLattice(cursor.y, gridSize)
      && !(cursor.pressed && cursor.rightPressed)
      && (selectedTile.Some? ==> OnLattice(selectedTile.value.x, gridSize) && OnLattice(selectedTile.value.y, gridSize))
    }

    /** `new SpriteSheetContainer(gridSize)`, with `gridSize` defaulting to
        `DefaultGridSize`. */
    constructor (gridSize: nat := DefaultGridSize)
      requires gridSize > 0
      ensures Valid()
      ensures this.gridSize == gridSize && scale == InitialScale
      ensures !hasOnSelected && selectedTile == None && cursor == InitialCursor
    {
      this.gridSize := gridSize;
      scale := InitialScale;
      hasOnSelected := false;
      selectedTile := None;
      cursor := InitialCursor;
    }

    /** `onCanvasMouseMove`: snaps the pointer, given relative to the sheet's
        top-left corner, to the sheet's grid at the current zoom, and records
        the buttons. */
    method OnCanvasMouseMove(relX: real, relY: real, buttons: int)
      requires Valid()
      modifies this`cursor
      ensures Valid()
      ensures cursor == old(cursor).(x := ToGridPos(relX, gridSize, scale), y := ToGridPos(relY, gridSize, scale),
                                     rightPressed := SecondaryOnly(buttons), pressed := PrimaryOnly(buttons))
    {
      SnappedOnLattice(relX, gridSize, scale);
      SnappedOnLattice(relY, gridSize, scale);
      cursor := cursor.(x := ToGridPos(relX, gridSize, scale));
      cursor := cursor.(y := ToGridPos(relY, gridSize, scale));
      cursor := cursor.(rightPressed := buttons == 2);
      cursor := cursor.(pressed := buttons == 1);
    }

    /** `onCanvasWheel`: zooms by `deltaY * -0.001`, clamped to
        `[MinScale, MaxScale]`, then re-snaps the cursor at the new zoom. */
    method OnCanvasWheel(relX: real, relY: real, deltaY: real, buttons: int)
      requires Valid()
      modifies this`scale, this`cursor
      ensures Valid()
      ensures scale == Clamp(old(scale) + deltaY * -0.001, MinScale, MaxScale)
      ensures cursor == old(cursor).(x := ToGridPos(relX, gridSize, scale), y := ToGridPos(relY, gridSize, scale),
                                     rightPressed := SecondaryOnly(buttons), pressed := PrimaryOnly(buttons))
    {
      scale := scale + deltaY * -0.001;
      scale := Clamp(scale, MinScale, MaxScale);
      OnCanvasMouseMove(relX, relY, buttons);
    }

    /** `onCanvasMouseOut`: the cursor is hidden; nothing else changes. */
    method OnCanvasMouseOut()
      requires Valid()
      modifies this`cursor
      ensures Valid()
      ensures cursor == old(cursor).(visible := false)
    {
      cursor := cursor.(visible := false);
    }

    /** The `onmouseenter` handler: the cursor is shown; nothing else changes. */
    method OnMouseEnter()
      requires Valid()
      modifies this`cursor
      ensures Valid()
      ensures cursor == old(cursor).(visible := true)
    {
      cursor := cursor.(visible := true);
    }

    /** `onCanvasClick`: without a listener nothing happens and nothing is
        handed out; with one, the tile under the cursor becomes the selection
        and the same tile is handed to the listener (`emitted`). */
    method OnCanvasClick() returns (emitted: Option<Tile>)
      requires Valid()
      modifies this`selectedTile
      ensures Valid()
      ensures !hasOnSelected ==> emitted == None && selectedTile == old(selectedTile)
      ensures hasOnSelected ==> emitted == Some(Tile(cursor.x, cursor.y)) && selectedTile == emitted
      ensures hasOnSelected ==> Highlight(selectedTile)
    {
      if !hasOnSelected {
        return None;
      }
      var cursorX := cursor.x;
      var cursorY := cursor.y;
      selectedTile := Some(Tile(cursorX, cursorY));
      emitted := Some(Tile(cursorX, cursorY));
    }
  }
}
