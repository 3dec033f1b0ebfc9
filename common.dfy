/** Values shared by the map editor and the sprite picker: optional values, tile
    references, the pointer cursor record and the clamp both canvases use. */
module Common {

  /** An optional value; `None` stands for JavaScript's `null`, `undefined` and
      for an array slot removed with `delete`. */
  datatype Option<+T> = None | Some(value: T)

  /** A tile reference: the top-left pixel offset of one tile inside the
      sprite-sheet image (its edge is the global tile size). */
  datatype Tile = Tile(x: real, y: real)

  /** The pointer state each canvas keeps: the snapped grid position, the button
      flags, whether the pointer is over the canvas and whether it is over the map. */
  datatype Cursor = Cursor(x: real, y: real, rightPressed: bool, visible: bool, pressed: bool, inMap: bool)

  /** The cursor record both canvases start with. */
  const InitialCursor := Cursor(0.0, 0.0, false, false, false, false)

  /** `Math.min(Math.max(v, lo), hi)`. */
  function Clamp(v: real, lo: real, hi: real): (r: real)
    ensures r <= hi
    ensures lo <= hi ==> lo <= r
    ensures lo <= v <= hi ==> r == v
    ensures lo <= hi && v < lo ==> r == lo
    ensures hi < v ==> r == hi
  {
    var atLeast := if v < lo then lo else v;
    if atLeast < hi then atLeast else hi
  }

  /** `ev.buttons === 1`: only the primary button is held. */
  predicate PrimaryOnly(buttons: int) { buttons == 1 }

  /** `ev.buttons === 2`: only the secondary button is held. */
  predicate SecondaryOnly(buttons: int) { buttons == 2 }
}
