/** Tile value types: what a tile is made of (wall or floor), its size class,
    and the tile record with its three constructors. */
module Tiles {
  import opened Primitives
  import opened ResourceLocations
  import opened Render

  /** Whether a tile is a wall (has a hitbox) or a floor. */
  datatype TileType = Wall | Floor

  /** `TileType::parse`: only the exact string "wall" is a wall; anything
      else, including "Wall", defaults to floor. */
  function ParseTileType(s: string): (t: TileType)
    ensures t == Wall <==> s == "wall"
  {
    if s == "wall" then Wall else Floor
  }

  /** `TileType::as_int`. */
  function TileTypeAsInt(t: TileType): (n: u32)
    ensures n == 0 <==> t == Wall
    ensures n == 1 <==> t == Floor
  {
    match t
    case Wall => 0
    case Floor => 1
  }

  /** `PartialEq for TileType`: two types are equal when their integers are,
      which is exactly when they are the same variant. */
  function TileTypeEq(a: TileType, b: TileType): (r: bool)
    ensures r <==> a == b
  {
    TileTypeAsInt(a) == TileTypeAsInt(b)
  }

  /** The three tile size classes. */
  datatype TileSize = Big | Medium | Small
  {
    /** `TileSize::get`: the side lengths in world units. */
    function Get(): (dims: (u32, u32))
      ensures dims.0 == dims.1
      ensures this == Big ==> dims == (64, 64)
      ensures this == Medium ==> dims == (32, 32)
      ensures this == Small ==> dims == (16, 16)
    {
      match this
      case Big => (64, 64)
      case Medium => (32, 32)
      case Small => (16, 16)
    }

    /** The side length, which the tile graph uses as its scale factor. */
    function Side(): (sf: int)
      ensures sf == Get().0 && sf > 0
    {
      Get().0
    }

    /** `get_as_string`: the names that `ParseTileSize` accepts. */
    function GetAsString(): (s: string)
      ensures ParseTileSize(s) == this
    {
      var s := match this
        case Big => "big"
        case Medium => "medium"
        case Small => "small";
      ToLowerOfLower(s);
      s
    }

    /** `count`: the number of size classes. */
    function Count(): (n: nat)
      ensures n == 3
    {
      3
    }

    /** `name`: the name of the enumeration, used to build widget textures;
        it is one non-empty path segment, the same for every value. */
    function Name(): (r: string)
      ensures r != [] && '/' !in r && ':' !in r
    {
      "tile_size"
    }
  }

  /** `TileSize::parse`: lower-cases its input; "small" and "medium" name
      their classes and everything else defaults to big. */
  function ParseTileSize(s: string): (t: TileSize)
    ensures t == Small <==> ToLower(s) == "small"
    ensures t == Medium <==> ToLower(s) == "medium"
  {
    var lower := ToLower(s);
    if lower == "small" then Small
    else if lower == "medium" then Medium
    else Big
  }

  /** Parsing ignores letter case. */
  lemma ParseTileSizeIgnoresCase(s: string)
    ensures ParseTileSize(ToLower(s)) == ParseTileSize(s)
  {
    ToLowerIdempotent(s);
  }

  /** `get_from_index`: 1 is medium, 2 is big, and every other index
      (0 included) is small. */
  function GetFromIndex(index: nat): (t: TileSize)
    ensures t == Medium <==> index == 1
    ensures t == Big <==> index == 2
    ensures t == Small <==> index != 1 && index != 2
  {
    match index
    case 1 => Medium
    case 2 => Big
    case _ => Small
  }

  /** Every size class is reached by an index below `Count()`. */
  lemma GetFromIndexCoversAll(t: TileSize)
    ensures exists i :: 0 <= i < t.Count() && GetFromIndex(i) == t
  {
    var i := match t case Small => 0 case Medium => 1 case Big => 2;
    assert GetFromIndex(i) == t;
  }

  /** `PartialEq for TileSize`: compares the side lengths, which are distinct,
      so it holds exactly when the variants are the same. */
  function TileSizeEq(a: TileSize, b: TileSize): (r: bool)
    ensures r <==> a == b
  {
    a.Get().0 == b.Get().0
  }

  /** A tile: its names, kind, size class, sprite origin, collision facts and
      the sprite it is drawn with. The getters of the source are the field
      selectors `name`, `resourceLocation`, `size` and `tileType`. */
  datatype Tile = Tile(
    name: string,
    resourceLocation: ResourceLocation,
    tileType: TileType,
    size: TileSize,
    origin: (int, int),
    collision: bool,
    collisionBox: Option<(u32, u32)>,
    assetData: AssetData)

  /** `Tile::create`: keeps every argument and cuts a sprite of the size
      class's dimensions out of `texture` at `uv`. */
  function CreateTile(
    name: string, resourceLocation: ResourceLocation, texture: ResourceLocation,
    uv: (u32, u32), tileType: TileType, size: TileSize, origin: (int, int),
    collision: bool, collisionBox: Option<(u32, u32)>): (t: Tile)
    ensures t.name == name && t.resourceLocation == resourceLocation
    ensures t.tileType == tileType && t.size == size && t.origin == origin
    ensures t.collision == collision && t.collisionBox == collisionBox
    ensures t.assetData.uv.Some?
    ensures (t.assetData.uv.value.width, t.assetData.uv.value.height) == size.Get()
    ensures t.assetData.uv.value.x == U32AsI32(uv.0) && t.assetData.uv.value.y == U32AsI32(uv.1)
    ensures t.assetData.origin == origin && t.assetData.resourceLocation == texture
  {
    var s := size.Get();
    Tile(name, resourceLocation, tileType, size, origin, collision, collisionBox,
         AssetData(Some(Rect(U32AsI32(uv.0), U32AsI32(uv.1), s.0, s.1)), origin, texture))
  }

  /** `Tile::create_none`: the wall returned for coordinates that hold no tile. */
  function CreateNone(size: TileSize): (t: Tile)
    ensures t.name == "None"
    ensures t.tileType == Wall && t.size == size
    ensures !t.collision && t.collisionBox.None?
    ensures t.origin == (0, 0)
    ensures t.resourceLocation == New("game", "tiles/none")
    ensures t.assetData.uv == Some(Rect(0, 0, size.Get().0, size.Get().1))
    ensures t.assetData.resourceLocation == Empty()
  {
    var s := size.Get();
    Tile("None", New("game", "tiles/none"), Wall, size, (0, 0), false, None,
         AssetData(Some(Rect(0, 0, s.0, s.1)), (0, 0), Empty()))
  }

  /** `Tile::create_nav`: the small floor tile of the navigation layer. */
  function CreateNav(): (t: Tile)
    ensures t.name == "nav" && t.resourceLocation == New("game", "tiles/nav")
    ensures t.tileType == Floor && t.size == Small
    ensures !t.collision && t.collisionBox.None?
    ensures t.origin == (0, 0)
    ensures t.assetData.uv == Some(Rect(0, 0, 16, 16))
    ensures t.assetData.resourceLocation == New("game", "tiles/nav.png")
  {
    Tile("nav", New("game", "tiles/nav"), Floor, Small, (0, 0), false, None,
         AssetData(Some(Rect(0, 0, 16, 16)), (0, 0), New("game", "tiles/nav.png")))
  }

  /** The nav tile's sprite has the size of its size class. */
  lemma NavSpriteMatchesSize()
    ensures var uv := CreateNav().assetData.uv.value;
      (uv.width, uv.height) == CreateNav().size.Get()
  {
  }
}
