# Tile-map editor model

This project models a small browser tile-map editor in Dafny and proves what it promises. In the editor a user picks a tile from a sprite-sheet picker and paints it onto a grid map: the left button fills, the right button erases. The map is a stack of fixed-length layers of optional tile references. One layer is active.

The model covers the state and arithmetic behind the canvas, in five modules:

- `Common` (common.dfy): values shared by both canvases:
  - `Option` stands for `null`, `undefined` and a `delete`d array slot;
  - the tile reference `Tile`;
  - the pointer `Cursor` record;
  - `Clamp`, which is `Math.min(Math.max(v, lo), hi)`.
- `GridMath` (grid_math.dfy), from scripts/Utils.js:
  - `toGridPos` as `ToGridPos`, with its floor and bounds lemmas;
  - the lines `drawGrid` emits, as the pure value `Grid` and as the two-loop method `DrawGrid`, proved equal to it.
- `TileMap` (tile_map.dfy), from scripts/Map.js:
  - pure functions: `Width`, `Height`, `EmptyLayer`, JavaScript's `%` (`JsRem`), `getTileIndexByPos` (`TileIndexByPos`) and `isPosInMap` (`IsPosInMap`);
  - the placement `renderMap` gives each cell (`CellX`, `CellY`) and what it draws (`Render`);
  - the class `Map`, whose methods update the layers, the active index, the zoom and the off-screen buffer in place. `ActiveLayer` is `getActiveLayer`.
- `Editor` (editor.dfy), from scripts/App.js: the class `App` with its pointer handlers and the fill/erase rule `onBeforeUpdate`.
- `SpritePicker` (sprite_picker.dfy), from scripts/SpriteSheetContainer.js: the class `SpriteSheetContainer` with its zoom, cursor, selection and the highlight test.
- `Arith` (arith.dfy): helper lemmas on real and natural arithmetic used by the proofs.

Numbers are modelled as follows:
- Positions, zoom and scale deltas are `real`.
- Tile size, rows, columns and indices are `nat`.
- `Math.floor` is `.Floor`.
- JavaScript's `%` rounds its quotient toward zero. It is written out as `JsRem`.

The model follows the code as written in places where a reader might expect otherwise:
- The map's width is `rows * tileSize` and its height `cols * tileSize`.
- `getTileIndexByPos` combines the two coordinates as `y * rows + x`.
- The active index is not adjusted when a layer is removed. So "the active index names a layer" is not a `Map` invariant. It is part of `App.Valid`, since the editor never removes layers.
- A snapped position `r` satisfies `r * scale <= pos < (r + tileSize) * scale` (`ToGridPosContains`), not `r <= pos < r + tileSize * scale`.

## Model

| member | source | states |
|---|---|---|
| Common.Clamp | scripts/Map.js:118 | the result lies in `[lo, hi]` when `lo <= hi`; it is `v` inside the range, `lo` below it and `hi` above it |
| GridMath.ToGridPos | scripts/Utils.js:35-37 | the snapped position is the tile size times the number of the tile under `pos`, the floor of `pos / (tileSize * scale)` |
| GridMath.ToGridPosBounds | scripts/Utils.js:36 | `r / ts <= pos / (ts * scale) < r / ts + 1`, rounding toward negative infinity for negative positions |
| GridMath.ToGridPosContains | scripts/Utils.js:35-37 | the position lies in the scaled square of the tile it snaps to: `r * scale <= pos < (r + ts) * scale` |
| GridMath.GridCellMonotone | scripts/Utils.js:36 | a larger position never falls in an earlier tile |
| GridMath.ToGridPosMonotone | scripts/Utils.js:35-37 | snapping is monotone in the position |
| GridMath.ToGridPosIdempotent | scripts/Utils.js:35-37 | at the default zoom 1, snapping twice equals snapping once |
| GridMath.SnappedOnLattice | scripts/Utils.js:36 | the snapped position is a whole multiple of the tile size, at any zoom |
| GridMath.FirstTileSnapsToZero | scripts/Utils.js:36 | positions inside the first scaled tile snap to 0 |
| GridMath.InExtentIffCellInRange | scripts/Utils.js:35-37 | a position lies in `[0, n * ts * scale)` exactly when its tile number is one of `0 .. n-1` |
| GridMath.StepsFromAt | scripts/Utils.js:15 | a `for (v = from; v < limit; v += step)` loop visits `from + i * step` for each step `i`, all below `limit`, and stops at the first value that reaches `limit` |
| GridMath.VerticalsAt | scripts/Utils.js:15-18 | one vertical line per x position, in order, spanning the height |
| GridMath.HorizontalsAt | scripts/Utils.js:20-23 | one horizontal line per y position, in order, spanning the width |
| GridMath.Grid | scripts/Utils.js:7-30 | defined as the lines `drawGrid` strokes: a vertical line at each x the first loop visits, then a horizontal line at each y the second loop visits, with the dash `tileSize / 8` only when dashed and the border the full `mapWidth` by `mapHeight`; `GridLinesAtMultiples` and `VerticalLinesIncreasing` state which lines these are, and `DrawGrid` is proved to emit exactly them |
| GridMath.DrawGrid | scripts/Utils.js:7-30 | the two loops emit exactly the lines of `Grid`, vertical first, with the dash `tileSize / 8` when dashed and the border at the full size |
| GridMath.GridLinesAtMultiples | scripts/Utils.js:15-23 | the vertical lines lie at exactly the multiples of the tile size in `[0, width)`, and the horizontal lines at exactly the multiples in `[0, height)` |
| GridMath.VerticalLinesIncreasing | scripts/Utils.js:15-18 | the vertical lines go strictly from left to right |
| TileMap.EmptyLayer | scripts/Map.js:76 | a new layer has `n` cells, all empty |
| TileMap.Width | scripts/Map.js:121-123 | defined as `rows * tileSize`, the map's horizontal extent; `InMapIffSnappedOnGrid` shows a pointer is within it (at zoom `scale`) exactly when its snapped x is the corner of one of the `rows` columns |
| TileMap.Height | scripts/Map.js:125-127 | defined as `cols * tileSize`, the map's vertical extent; `InMapIffSnappedOnGrid` shows a pointer is within it exactly when its snapped y is the corner of one of the `cols` rows |
| TileMap.JsRem | scripts/Map.js:24-25 | `%` keeps the sign of the dividend, lies strictly between `-b` and `b`, and is the identity on `[0, b)` |
| TileMap.TileIndexByPos | scripts/Map.js:23-28 | defined as `(y % height) / tileSize * rows + (x % width) / tileSize`; `TileIndexRoundTrip` shows it inverts the placement of every cell by `renderMap`, and `OnGridIndex` and `CornerIndex` that at any cell corner of the map it is that cell's whole index `row * rows + col` |
| TileMap.IsPosInMap | scripts/Map.js:30-37 | defined as `0 <= x < width * scale` and `0 <= y < height * scale`; `InMapIffSnappedOnGrid` shows it holds exactly when both snapped coordinates are cell corners of the map |
| TileMap.CellX | scripts/Map.js:50-71 | defined as `(i % rows) * tileSize`, the column offset of cell `i`; `CellStep` shows it changes from cell to cell as `renderMap`'s `x` counter does, and `Map.RenderMap` keeps the counter equal to it, and `TileIndexRoundTrip` that `getTileIndexByPos` maps the cell's position back to `i` |
| TileMap.CellY | scripts/Map.js:50-71 | defined as `(i / rows) * tileSize`, the row offset of cell `i`; `CellStep` shows it changes from cell to cell as `renderMap`'s `y` counter does, and `Map.RenderMap` keeps the counter equal to it, and `TileIndexRoundTrip` that `getTileIndexByPos` maps the cell's position back to `i` |

| TileMap.TileIndexRoundTrip | scripts/Map.js:23-28 | for every cell `i < rows * cols`, `getTileIndexByPos` of the point where `renderMap` draws the cell is `i` |
| TileMap.CellIndex | scripts/Map.js:23-28 | the point at column `col` and row `row` maps to index `row * rows + col` |
| TileMap.OnGridIndex | scripts/Map.js:23-28 | for a point on a cell corner of the map, `getTileIndexByPos` is a whole index below `rows * cols`, and that cell is drawn at that point |
| TileMap.CornerIndex | scripts/Map.js:23-28 | for a point on a cell corner of the map, `getTileIndexByPos` is that cell's row times `rows` plus its column |
| TileMap.InMapIffSnappedOnGrid | scripts/Map.js:30-37 | `isPosInMap` holds exactly when both snapped coordinates are corners of cells of the map (width from `rows`, height from `cols`) |
| TileMap.SnappedOnGrid | scripts/Map.js:30-37 | a snapped coordinate is a cell corner of the map exactly when its tile number is in range |
| TileMap.SetCellFrame | scripts/Map.js:84-94 | setting a cell changes that cell of that layer to the new value; every layer keeps its length and every other cell its content |
| TileMap.SetCellIdempotent | scripts/Map.js:90-94 | setting, and so erasing, the same cell twice equals doing it once |
| TileMap.CellStep | scripts/Map.js:66-71 | moving from cell `i` to `i + 1` moves the counters one tile right, or back to `x = 0` one row down after the last column |
| TileMap.RenderPrefixGrows | scripts/Map.js:53-72 | the blits drawn for a prefix of the layer are a prefix of those drawn for a longer one |
| TileMap.RenderDrawsEveryTile | scripts/Map.js:53-63 | every non-empty cell is drawn, with its tile, at its cell position |
| TileMap.RenderPrefixSource | scripts/Map.js:53-63 | every blit comes from a non-empty cell holding that tile, drawn at that cell's position |
| TileMap.RenderRoundTrip | scripts/Map.js:23-28 | every blit's position maps back through `getTileIndexByPos` to a whole index whose cell holds the blit's tile |
| TileMap.Render | scripts/Map.js:53-72 | defined as one blit per non-empty cell, in cell order, at `(CellX(i), CellY(i))`; `RenderDrawsEveryTile`, `RenderPrefixSource` and `RenderRoundTrip` characterise it, and `Map.RenderMap` is proved to draw exactly it |
| TileMap.Map.constructor | scripts/Map.js:2-21 | a fresh map has exactly one all-empty layer of `cols * rows` cells, active index 0 and zoom 1 |
| TileMap.Map.AddNewLayer | scripts/Map.js:75-78 | appends one all-empty layer of `cols * rows` cells and leaves the existing layers unchanged |
| TileMap.Map.RemoveLayerByIndex | scripts/Map.js:80-82 | removes exactly layer `idx` and keeps the others in order; an index past the end removes nothing; the active index is untouched |
| TileMap.Map.SetActiveLayerIndex | scripts/Map.js:100-102 | the active index becomes `idx` |
| TileMap.Map.ActiveLayer | scripts/Map.js:104-106 | `getActiveLayer` returns one of the map's layers, which has one cell per grid cell when the map is valid |
| TileMap.Map.SetScale | scripts/Map.js:112-119 | the new zoom is `clamp(old + value, minScale, maxScale)`, so `0.5 <= scale <= 4` holds after every assignment |
| TileMap.Map.FillTileByIndex | scripts/Map.js:84-88 | cell `idx` of the active layer becomes `val`, no other cell or layer changes, and the buffer is re-rendered from the active layer |
| TileMap.Map.RemoveTileByIndex | scripts/Map.js:90-94 | cell `idx` of the active layer becomes empty, no other cell or layer changes, and the buffer is re-rendered |
| TileMap.Map.RenderMap | scripts/Map.js:43-72 | the loop with its `x`/`y` counters draws exactly `Render` of the active layer |
| Editor.ClickButtons | scripts/App.js:96-100 | a click is forwarded with exactly one button held, the secondary one exactly when the event's mask was 2 |
| Editor.MovedCursorValid | scripts/App.js:75-79 | after any move `pressed` and `rightPressed` are never both set, visibility is kept, and `inMap` holds exactly when the snapped position is a cell corner of the map |
| Editor.CursorCell | scripts/App.js:164 | the cell whose corner is the cursor: an index below `rows * cols`, drawn exactly at the cursor |
| Editor.CursorCellIsTileIndex | scripts/App.js:164 | the index the editor fills or erases equals the value `getTileIndexByPos` computes at the cursor |
| Editor.PointerCell | scripts/App.js:75-77 | for a pointer over the map, the edited cell is the one whose scaled square contains the pointer |
| Editor.PaintedCell | scripts/App.js:161-173 | outside the map nothing changes; over it only the cursor's cell in the active layer changes, emptied by the secondary button and set to the current tile by the primary one |
| Editor.App.constructor | scripts/App.js:8-21 | a fresh editor has a fresh map, no tile and the initial cursor |
| Editor.App.OnCanvasMouseMove | scripts/App.js:66-82 | the cursor takes the snapped position, `inMap` from `isPosInMap` and the flags `buttons == 2` and `buttons == 1`; the editor stays valid |
| Editor.App.OnCanvasClick | scripts/App.js:90-101 | a move with `ClickButtons(buttons)`, after which exactly one of `pressed` and `rightPressed` holds |
| Editor.App.OnCanvasWheel | scripts/App.js:57-64 | the map's zoom becomes `clamp(old - 0.001 * deltaY, 0.5, 4)`, then the cursor is re-snapped at the new zoom |
| Editor.App.OnCanvasMouseOut | scripts/App.js:84-88 | the cursor is hidden and nothing else changes |
| Editor.App.OnMouseEnter | scripts/App.js:31 | the cursor is shown and nothing else changes |
| Editor.App.SetTile | scripts/App.js:103-105 | the current tile becomes the given one |
| Editor.App.OnBeforeUpdate | scripts/App.js:161-173 | the layers become `Painted` of the cursor and tile, so nothing changes outside the map; the buffer is re-rendered exactly when an edit happened |
| SpritePicker.FirstColumnNotHighlighted | scripts/SpriteSheetContainer.js:164-167 | a selection in the first column has `x = 0`, so the test as written does not highlight it, while the intended test does |
| SpritePicker.HighlightAsWritten | scripts/SpriteSheetContainer.js:164 | defined as the test `if(selectedTile.x)`: a selection exists and its x is not 0 (0 is falsy); `FirstColumnNotHighlighted` shows it fails for every first-column selection |
| SpritePicker.Highlight | scripts/SpriteSheetContainer.js:164 | the intended test: a tile has been selected; `SpriteSheetContainer.OnCanvasClick` ensures it after every selection |
| SpritePicker.SpriteSheetContainer.constructor | scripts/SpriteSheetContainer.js:14-39 | the grid size is the argument, 32 when omitted; the zoom starts at 0.3, with no listener, no selection and the initial cursor |
| SpritePicker.SpriteSheetContainer.OnCanvasMouseMove | scripts/SpriteSheetContainer.js:41-57 | the cursor takes the position snapped to `gridSize` and the exclusive button flags; its coordinates stay whole multiples of `gridSize` (negative or beyond the image when the pointer is) |
| SpritePicker.SpriteSheetContainer.OnCanvasWheel | scripts/SpriteSheetContainer.js:59-64 | the zoom becomes `clamp(old - 0.001 * deltaY, 0.3, 1.5)`, then the cursor is re-snapped |
| SpritePicker.SpriteSheetContainer.OnCanvasMouseOut | scripts/SpriteSheetContainer.js:66-70 | the cursor is hidden and nothing else changes |
| SpritePicker.SpriteSheetContainer.OnMouseEnter | scripts/SpriteSheetContainer.js:34 | the cursor is shown and nothing else changes |
| SpritePicker.SpriteSheetContainer.OnCanvasClick | scripts/SpriteSheetContainer.js:72-87 | without a listener nothing changes and nothing is handed out; with one, the selection becomes the cursor's tile, and exactly that tile is handed to the listener |

## Left out

- Canvas drawing is not modelled: `drawImage`, strokes, fills, transforms, the off-screen canvas and `draw`/`drawCursor`/`drawCanvas`. A `Blit` records only the tile and its destination. A `GridDrawing` records the lines, the dash length and the border size.
- DOM plumbing and scheduling are not modelled: `querySelector`, `getBoundingClientRect`, `resizeCanvas`, `updateCanvas`/`requestAnimationFrame`, handler registration and `preventDefault`. The handlers' redraw requests are not modelled.
- Pointer coordinates come in as `relX`/`relY` parameters, already relative to the map (or sheet) origin. The `PIXEL_RATIO`, scroll, canvas-centre and image-centre offsets that produce them are host values.
- Image loading is not modelled: `loadFromUrl`, `setSpriteImage`, `onImageLoaded` and `setImageSource`. Neither is the start-up wiring in main.js, which passes the map's tile size 64 as the picker's grid size.
- The `onSelected` callback's own effect (in main.js it calls `setTile`) is outside the picker. `OnCanvasClick` returns the tile it hands over, and `hasOnSelected` says whether a listener is installed.
- Numbers are reals, not IEEE doubles. Rounding (for example in repeated `0.001` zoom steps) and `NaN` are not modelled.
- `toGridPos` divides by the tile size and then by the zoom. The contracts speak of `pos / (tileSize * scale)`, which equals it over the reals.
- TileMap.TileIndexByPos: only whole, in-range inputs get lemmas (points on cell corners of the map). Fractional and negative results for other points are computed but not characterised.
- TileMap.Map.FillTileByIndex: requires `idx < rows * cols` and an existing active layer. In JavaScript a write past the end grows the array, and a dangling active index throws; both are excluded by the precondition. The same holds for `RemoveTileByIndex`.
- TileMap.Map.RemoveLayerByIndex: takes a `nat`, so `splice` with a negative index (which counts from the end) is not modelled.
- Editor.App.OnBeforeUpdate: passes the cell index as the integer `getTileIndexByPos` evaluates to. JavaScript passes the same number as a double.
- SpritePicker.SpriteSheetContainer.constructor: requires a positive grid size. A grid size of 0 would make `toGridPos` divide by zero.
- The picker's mouse move reads the image size before an image is loaded, which throws in JavaScript. The model takes positions relative to the image and does not model that case.

## Findings

| source | as written | input that shows it | evidently intended | confidence | as-written member | corrected member |
|---|---|---|---|---|---|---|
| scripts/SpriteSheetContainer.js:164 | the selection highlight is drawn only when `selectedTile.x` is truthy, and the number 0 is falsy | select any tile in the first column: a click at sheet position `(5, 40)` with grid size 32 and zoom 1 selects `(0, 32)`, and no highlight is drawn | highlight whenever a tile has been selected | high (not executed) | SpritePicker.HighlightAsWritten (shown by SpritePicker.FirstColumnNotHighlighted) | SpritePicker.Highlight (SpritePicker.SpriteSheetContainer.OnCanvasClick ensures it holds after a selection) |
