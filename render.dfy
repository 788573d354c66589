/** The drawing data a tile or widget hands to the renderer. Only the record
    is modelled; drawing itself is not. */
module Render {
  import opened Primitives
  import opened ResourceLocations

  /** SDL's `Rect`: a signed corner and an unsigned size. */
  datatype Rect = Rect(x: int, y: int, width: u32, height: u32)

  /** `AssetData`: which part of which texture to draw, and its origin. */
  datatype AssetData = AssetData(uv: Option<Rect>, origin: (int, int), resourceLocation: ResourceLocation)
}
