/** The default behaviour every widget shares: placing its coordinates on the
    screen according to its alignment, and the debug backdrop it is drawn on. */
module Widgets {
  import Primitives
  import opened ResourceLocations
  import opened Render

  /** Where a widget is anchored on the screen. */
  datatype Alignment = Left | Right | Top | Bottom | Centre | None

  /** `Alignment::parse`: lower-cases its input and recognises the five
      anchor names; any other string gives `None`. */
  function ParseAlignment(val: string): (a: Alignment)
    ensures a == Left <==> Primitives.ToLower(val) == "left"
    ensures a == Right <==> Primitives.ToLower(val) == "right"
    ensures a == Top <==> Primitives.ToLower(val) == "top"
    ensures a == Bottom <==> Primitives.ToLower(val) == "bottom"
    ensures a == Centre <==> Primitives.ToLower(val) == "centre"
  {
    match Primitives.ToLower(val)
    case "left" => Left
    case "right" => Right
    case "top" => Top
    case "bottom" => Bottom
    case "centre" => Centre
    case _ => None
  }

  /** Every anchor name parses back to its alignment, whatever its case. */
  lemma ParseAlignmentIgnoresCase(val: string)
    ensures ParseAlignment(Primitives.ToLower(val)) == ParseAlignment(val)
  {
    Primitives.ToLowerIdempotent(val);
  }

  /** `Widget::correct_coords`: turns widget coordinates into screen
      coordinates for a screen of `dims` pixels. Every anchored alignment
      flips the y axis except `Top`; `None` leaves the coordinates alone. */
  function CorrectCoords(alignment: Alignment, coords: (int, int), dims: (Primitives.u32, Primitives.u32)): (r: (int, int))
    ensures alignment == None ==> r == coords
    ensures alignment == Left ==> r == (coords.0, dims.1 / 2 - coords.1)
    ensures alignment == Right ==> r == (Primitives.U32AsI32(dims.0) + coords.0, dims.1 / 2 - coords.1)
    ensures alignment == Top ==> r == (dims.0 / 2 + coords.0, coords.1)
    ensures alignment == Bottom ==> r == (dims.0 / 2 + coords.0, Primitives.U32AsI32(dims.1) - coords.1)
    ensures alignment == Centre ==> r == (dims.0 / 2 + coords.0, dims.1 / 2 - coords.1)
  {
    var (x, y) := coords;
    match alignment
    case Right => (Primitives.U32AsI32(dims.0) + x, dims.1 / 2 - y)
    case Top => (dims.0 / 2 + x, y)
    case Bottom => (dims.0 / 2 + x, Primitives.U32AsI32(dims.1) - y)
    case Centre => (dims.0 / 2 + x, dims.1 / 2 - y)
    case Left => (x, dims.1 / 2 - y)
    case None => coords
  }

  /** Moving a widget by (dx, dy) moves it on screen by dx horizontally and
      by dy vertically, upward for the alignments that flip the y axis. */
  lemma CorrectCoordsShift(alignment: Alignment, coords: (int, int), dx: int, dy: int, dims: (Primitives.u32, Primitives.u32))
    ensures var before := CorrectCoords(alignment, coords, dims);
      var after := CorrectCoords(alignment, (coords.0 + dx, coords.1 + dy), dims);
      && after.0 == before.0 + dx
      && after.1 == before.1 + (if alignment in {Top, None} then dy else -dy)
  {
  }

  /** A centred widget at the origin sits in the middle of the screen. */
  lemma CentredOriginIsScreenMiddle(dims: (Primitives.u32, Primitives.u32))
    ensures CorrectCoords(Centre, (0, 0), dims) == (dims.0 / 2, dims.1 / 2)
  {
  }

  /** `Widget::get_debug_asset_data`: the widget's sprite size, cut from the
      corner of the debug background texture. The source unwraps the sprite
      rectangle, so it must be present. */
  function DebugAssetData(ass: AssetData): (r: AssetData)
    requires ass.uv.Some?
    ensures r.uv.Some? && r.uv.value.x == 0 && r.uv.value.y == 0
    ensures r.uv.value.width == ass.uv.value.width && r.uv.value.height == ass.uv.value.height
    ensures r.origin == ass.origin
    ensures r.resourceLocation == New("game", "gui/widgets/debug_background.png")
  {
    var uv := ass.uv.value;
    ass.(uv := Primitives.Some(Rect(0, 0, uv.width, uv.height)),
         resourceLocation := New("game", "gui/widgets/debug_background.png"))
  }
}
