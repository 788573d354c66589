/** A menu button that cycles through the values of an enumeration each time
    it is clicked, here instantiated with the tile size classes. */
module EnumWidgets {
  import Primitives
  import opened ResourceLocations
  import opened Render
  import opened Tiles
  import opened Widgets

  /** The index that follows `i` when there are `count` values: back to 0
      after the last one, otherwise one further. */
  function NextIndex(i: nat, count: nat): (j: nat)
    requires count > 0
    ensures i < count ==> j == (i + 1) % count && j < count
  {
    if i == count - 1 then 0 else i + 1
  }

  /** The index after `clicks` clicks starting from `i`. */
  function AfterClicks(i: nat, count: nat, clicks: nat): (j: nat)
    requires count > 0
  {
    if clicks == 0 then i else NextIndex(AfterClicks(i, count, clicks - 1), count)
  }

  /** After k clicks the index has advanced by k, modulo `count`. */
  lemma {:induction false} AfterClicksIsModular(i: nat, count: nat, clicks: nat)
    requires 0 < count && i < count
    ensures AfterClicks(i, count, clicks) == (i + clicks) % count
  {
    if clicks > 0 {
      AfterClicksIsModular(i, count, clicks - 1);
      ModSucc(i + clicks - 1, count);
    }
  }

  lemma ModSucc(n: nat, count: nat)
    requires count > 0
    ensures ((n % count) + 1) % count == (n + 1) % count
  {
    var q, r := n / count, n % count;
    if r + 1 < count {
      Primitives.DivModUnique(n + 1, count, q, r + 1);
      Primitives.DivModUnique(r + 1, count, 0, r + 1);
    } else {
      assert (q + 1) * count == q * count + count;
      Primitives.DivModUnique(n + 1, count, q + 1, 0);
      Primitives.DivModUnique(r + 1, count, 1, 0);
    }
  }

  /** `count` clicks bring the widget back to the value it started on. */
  lemma FullCycle(i: nat, count: nat)
    requires 0 < count && i < count
    ensures AfterClicks(i, count, count) == i
  {
    AfterClicksIsModular(i, count, count);
    Primitives.DivModUnique(i + count, count, 1, i);
  }

  /** The texture path of one value: `gui/widgets/enum/{name}/{value}.png`. */
  function EnumTexture(t: TileSize): (r: ResourceLocation)
    ensures r.namespace == "game"
    ensures r.path == "gui/widgets/enum/" + t.Name() + "/" + t.GetAsString() + ".png"
  {
    New("game", "gui/widgets/enum/" + t.Name() + "/" + t.GetAsString() + ".png")
  }

  /** Different size classes are drawn with different textures: the value's
      name can be read back out of the texture path. */
  lemma EnumTextureInjective(a: TileSize, b: TileSize)
    ensures EnumTexture(a) == EnumTexture(b) ==> a == b
  {
    var n := |"gui/widgets/enum/tile_size/"|;
    var pa, pb := EnumTexture(a).path, EnumTexture(b).path;
    assert pa[n..|pa| - 4] == a.GetAsString();
    assert pb[n..|pb| - 4] == b.GetAsString();
  }

  /** `EnumWidget<TileSize>`. The index and the displayed value are two
      fields: the constructor sets the index to 0 whatever value it is given,
      and only a click brings them in line. */
  class EnumWidget {
    var enumType: TileSize
    var currentIndx: nat
    var selected: bool
    var alignment: Alignment
    var coords: (int, int)
    var assetData: AssetData
    var assetDataSelected: AssetData

    /** The index always names one of the values. */
    ghost predicate Valid()
      reads this
    {
      currentIndx < enumType.Count()
    }

    /** `EnumWidget::create`: index 0, not selected, blank textures. */
    constructor Create(alignment: Alignment, x: int, y: int, enumt: TileSize)
      ensures Valid()
      ensures enumType == enumt && currentIndx == 0 && !selected
      ensures this.alignment == alignment && coords == (x, y)
      ensures assetData == AssetData(Primitives.Some(Rect(0, 0, 20, 20)), (0, 0), Empty())
      ensures assetDataSelected == AssetData(Primitives.Some(Rect(0, 20, 20, 20)), (0, 0), Empty())
    {
      enumType := enumt;
      currentIndx := 0;
      selected := false;
      assetData := AssetData(Primitives.Some(Rect(0, 0, 20, 20)), (0, 0), Empty());
      assetDataSelected := AssetData(Primitives.Some(Rect(0, 20, 20, 20)), (0, 0), Empty());
      this.alignment := alignment;
      coords := (x, y);
    }

    /** `on_click`: advance the index cyclically and show the value it names. */
    method OnClick()
      requires Valid()
      modifies this`currentIndx, this`enumType
      ensures Valid()
      ensures currentIndx == NextIndex(old(currentIndx), old(enumType.Count()))
      ensures currentIndx == (old(currentIndx) + 1) % enumType.Count()
      ensures enumType == GetFromIndex(currentIndx)
    {
      if currentIndx == enumType.Count() - 1 {
        currentIndx := 0;
      } else {
        currentIndx := currentIndx + 1;
      }
      enumType := GetFromIndex(currentIndx);
    }

    /** `get_selected`. */
    function GetSelected(): bool
      reads this
    {
      selected
    }

    /** `set_selected`: what `GetSelected` reports from now on. */
    method SetSelected(tf: bool)
      modifies this`selected
      ensures GetSelected() == tf
    {
      selected := tf;
    }

    /** `get_screen_coordinates`. */
    function GetScreenCoordinates(): (int, int)
      reads this
    {
      coords
    }

    /** `set_screen_coordinates`. */
    method SetScreenCoordinates(x: int, y: int)
      modifies this`coords
      ensures GetScreenCoordinates() == (x, y)
    {
      coords := (x, y);
    }

    /** `get_allignment`. */
    function GetAllignment(): Alignment
      reads this
    {
      alignment
    }

    /** `set_allignment`. */
    method SetAllignment(a: Alignment)
      modifies this`alignment
      ensures GetAllignment() == a
    {
      alignment := a;
    }

    /** `set_asset_data`: replaces the unselected sprite only. */
    method SetAssetData(ass: AssetData)
      modifies this`assetData
      ensures assetData == ass
    {
      assetData := ass;
    }

    /** `get_asset_data`: points both sprites at the texture of the current
      value, then returns the selected one exactly when the widget is
      selected. */
    method GetAssetData() returns (r: AssetData)
      modifies this`assetData, this`assetDataSelected
      ensures assetData == old(assetData).(resourceLocation := EnumTexture(enumType))
      ensures assetDataSelected == old(assetDataSelected).(resourceLocation := EnumTexture(enumType))
      ensures r == if selected then assetDataSelected else assetData
      ensures r.resourceLocation == EnumTexture(enumType)
    {
      var rl := EnumTexture(enumType);
      assetData := assetData.(resourceLocation := rl);
      assetDataSelected := assetDataSelected.(resourceLocation := rl);
      if selected {
        r := assetDataSelected;
      } else {
        r := assetData;
      }
    }

    /** The default `get_debug_asset_data`, on top of this widget's
      `get_asset_data`. */
    method GetDebugAssetData() returns (r: AssetData)
      requires (if selected then assetDataSelected else assetData).uv.Some?
      modifies this`assetData, this`assetDataSelected
      ensures assetData == old(assetData).(resourceLocation := EnumTexture(enumType))
      ensures assetDataSelected == old(assetDataSelected).(resourceLocation := EnumTexture(enumType))
      ensures r == DebugAssetData(if selected then assetDataSelected else assetData)
    {
      var ass := GetAssetData();
      r := DebugAssetData(ass);
    }

    /** `get_resource_location`: `game:widgets/enum/{name}`. */
    function GetResourceLocation(): (r: ResourceLocation)
      reads this
      ensures r == New("game", "widgets/enum/tile_size")
    {
      New("game", "widgets/enum/" + enumType.Name())
    }

    /** `return_enum_int`: always the current index. */
    function ReturnEnumInt(): (r: Primitives.Option<nat>)
      reads this
      ensures r.Some? && r.value == currentIndx
    {
      Primitives.Some(currentIndx)
    }

    /** The default `correct_coords`, with the screen size passed in: the
        point where the alignment puts (0, 0), moved across by the widget's x
        and down by its y, or up by it when the alignment flips the y axis. */
    function CorrectedCoords(dims: (Primitives.u32, Primitives.u32)): (r: (int, int))
      reads this
      ensures var anchor := CorrectCoords(alignment, (0, 0), dims);
        r == (anchor.0 + coords.0, anchor.1 + (if alignment in {Top, None} then coords.1 else -coords.1))
    {
      CorrectCoordsShift(alignment, (0, 0), coords.0, coords.1, dims);
      CorrectCoords(alignment, coords, dims)
    }
  }
}
