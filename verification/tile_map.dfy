/**
 * Tile-grid entity bookkeeping (src/core/entity/map.hpp).
 *
 * The map is a row-major grid of tiles; tile (x, y) lives at index
 * `x + y * width`. A tile may hold an entity and a building (pointers in the
 * source, identities here), an explored bit and a field-of-view bit.
 * The `MapBuilder` the map consults is a value of `Builder` holding its three
 * queries as functions, so every property below holds for any builder. The
 * callbacks the map fires on entities are appended to a log instead.
 */
module TileMap {
  import opened Options

  type EntityId = nat
  type BuildingId = nat

  datatype Tile = Tile(entity: Option<EntityId>, building: Option<BuildingId>, explored: bool, inFov: bool)

  /** A tile as the map's constructor creates it. */
  const EmptyTile: Tile := Tile(None, None, false, false)

  datatype Grid = Grid(width: nat, height: nat, tiles: seq<Tile>) {
    predicate Valid() {
      |tiles| == width * height
    }
  }

  /** The `MapBuilder` queries the map delegates to. */
  datatype Builder = Builder(canPlace: (int, int) -> bool, inFov: (int, int) -> bool, isWall: (int, int) -> bool)

  /** An entity's identity and its own position data (`MapData`). */
  datatype Entity = Entity(id: EntityId, x: int, y: int)

  datatype Building = Building(id: BuildingId, x: int, y: int, w: int, h: int)

  /** Calls the map makes on entities: `move_callback` and `click_callback`. */
  datatype Callback =
    | Moved(id: EntityId, fromX: int, fromY: int, toX: int, toY: int)
    | Clicked(id: EntityId, x: int, y: int)

  predicate InBounds(g: Grid, x: int, y: int) {
    0 <= x < g.width && 0 <= y < g.height
  }

  predicate SameShape(g: Grid, g': Grid) {
    g'.Valid() && g'.width == g.width && g'.height == g.height
  }

  lemma IndexBound(w: nat, h: nat, x: int, y: int)
    requires 0 <= x < w && 0 <= y < h
    ensures 0 <= x + y * w < w * h
  {
    assert y * w <= (h - 1) * w by {
      assert (h - 1) * w - y * w == (h - 1 - y) * w;
    }
  }

  /** Distinct in-bounds coordinates have distinct tile indices. */
  lemma IndexInjective(w: nat, x1: int, y1: int, x2: int, y2: int)
    requires 0 <= x1 < w && 0 <= x2 < w && 0 <= y1 && 0 <= y2
    requires x1 + y1 * w == x2 + y2 * w
    ensures x1 == x2 && y1 == y2
  {
    if y1 < y2 {
      RowsApart(w, y1, y2);
    } else if y2 < y1 {
      RowsApart(w, y2, y1);
    }
  }

  /** Row starts at least one row apart are at least a whole row apart. */
  lemma RowsApart(w: nat, lo: int, hi: int)
    requires lo < hi
    ensures hi * w - lo * w >= w
  {
    var d := hi - lo;
    assert hi * w == lo * w + d * w;
    assert d * w >= w by {
      assert d * w == (d - 1) * w + w;
    }
  }

  /** `get_tile` indexing: the row-major index of an in-bounds tile lies inside the tile list. */
  function Index(g: Grid, x: int, y: int): (i: nat)
    requires g.Valid() && InBounds(g, x, y)
    ensures i < |g.tiles|
  {
    IndexBound(g.width, g.height, x, y);
    x + y * g.width
  }

  function At(g: Grid, x: int, y: int): Tile
    requires g.Valid() && InBounds(g, x, y)
  {
    g.tiles[Index(g, x, y)]
  }

  /** The tile list `Map`'s constructor allocates: `width * height` empty tiles. */
  function Fresh(width: nat, height: nat): (g: Grid)
    ensures g.Valid() && g.width == width && g.height == height
    ensures forall x, y | InBounds(g, x, y) :: At(g, x, y) == EmptyTile
  {
    Grid(width, height, seq(width * height, _ => EmptyTile))
  }

  /** Replaces one tile; every other tile is left as it was. */
  function Update(g: Grid, x: int, y: int, t: Tile): (g': Grid)
    requires g.Valid() && InBounds(g, x, y)
    ensures SameShape(g, g')
    ensures At(g', x, y) == t
    ensures forall x2, y2 | InBounds(g, x2, y2) && (x2 != x || y2 != y) :: At(g', x2, y2) == At(g, x2, y2)
  {
    var g' := g.(tiles := g.tiles[Index(g, x, y) := t]);
    forall x2, y2 | InBounds(g, x2, y2) && (x2 != x || y2 != y)
      ensures At(g', x2, y2) == At(g, x2, y2)
    {
      if Index(g, x2, y2) == Index(g, x, y) {
        IndexInjective(g.width, x2, y2, x, y);
      }
    }
    g'
  }

  /** `set_entity` */
  function SetEntity(g: Grid, x: int, y: int, e: Option<EntityId>): (g': Grid)
    requires g.Valid() && InBounds(g, x, y)
    ensures SameShape(g, g')
  {
    Update(g, x, y, At(g, x, y).(entity := e))
  }

  /**
   * `can_place`, checked against the grid first: a tile off the grid is never
   * free. The source reads the tile before any bounds check; see
   * `CanPlaceAsWritten`.
   */
  function CanPlace(g: Grid, b: Builder, x: int, y: int): (ok: bool)
    requires g.Valid()
    ensures ok ==> InBounds(g, x, y)
  {
    InBounds(g, x, y) && At(g, x, y).entity.None? && b.canPlace(x, y)
  }

  /**
   * `can_place` exactly as the source writes it: the tile at raw index
   * `x + y * width` is read whatever `x` is, so only the tile list's own
   * bound stands between the caller and an out-of-range read.
   */
  function CanPlaceAsWritten(g: Grid, b: Builder, x: int, y: int): (ok: bool)
    requires g.Valid() && 0 <= x + y * g.width < |g.tiles|
    ensures InBounds(g, x, y) ==> (ok <==> At(g, x, y).entity.None? && b.canPlace(x, y))
  {
    g.tiles[x + y * g.width].entity.None? && b.canPlace(x, y)
  }

  /** On the grid, `CanPlace` is the source's test: no entity on the tile and the builder permits it. */
  lemma CanPlaceAgreesOnGrid(g: Grid, b: Builder, x: int, y: int)
    requires g.Valid() && InBounds(g, x, y)
    ensures CanPlace(g, b, x, y) <==> At(g, x, y).entity.None? && b.canPlace(x, y)
    ensures CanPlace(g, b, x, y) == CanPlaceAsWritten(g, b, x, y)
  {
  }

  /**
   * The discrepancy: asked about (width, 0), one column past the right edge,
   * the source's test consults the tile (0, 1) of the next row, while the
   * corrected test answers false.
   */
  lemma AsWrittenAliasesNextRow(g: Grid, b: Builder)
    requires g.Valid() && g.width >= 1 && g.height >= 2
    ensures CanPlaceAsWritten(g, b, g.width, 0) == (At(g, 0, 1).entity.None? && b.canPlace(g.width, 0))
    ensures !CanPlace(g, b, g.width, 0)
  {
    assert Index(g, 0, 1) == g.width;
  }

  /** `add_entity`: registers the entity on the tile of its own position. */
  function AddEntity(g: Grid, e: Entity): (g': Grid)
    requires g.Valid() && InBounds(g, e.x, e.y)
    ensures SameShape(g, g')
    ensures At(g', e.x, e.y) == At(g, e.x, e.y).(entity := Some(e.id))
    ensures forall x, y | InBounds(g, x, y) && (x != e.x || y != e.y) :: At(g', x, y) == At(g, x, y)
  {
    SetEntity(g, e.x, e.y, Some(e.id))
  }

  /** `remove_entity`: clears the tile of the entity's own position, whatever it held. */
  function RemoveEntity(g: Grid, e: Entity): (g': Grid)
    requires g.Valid() && InBounds(g, e.x, e.y)
    ensures SameShape(g, g')
    ensures At(g', e.x, e.y) == At(g, e.x, e.y).(entity := None)
    ensures forall x, y | InBounds(g, x, y) && (x != e.x || y != e.y) :: At(g', x, y) == At(g, x, y)
  {
    SetEntity(g, e.x, e.y, None)
  }

  /**
   * Adding an entity puts it on its tile and touches nothing else; removing it
   * again clears that tile, and restores the grid when the tile was empty.
   */
  lemma AddThenRemove(g: Grid, e: Entity)
    requires g.Valid() && InBounds(g, e.x, e.y)
    ensures At(AddEntity(g, e), e.x, e.y) == At(g, e.x, e.y).(entity := Some(e.id))
    ensures forall x, y | InBounds(g, x, y) && (x != e.x || y != e.y) :: At(AddEntity(g, e), x, y) == At(g, x, y)
    ensures At(RemoveEntity(AddEntity(g, e), e), e.x, e.y).entity == None
    ensures At(g, e.x, e.y).entity == None ==> RemoveEntity(AddEntity(g, e), e) == g
  {
    var i := Index(g, e.x, e.y);
    if At(g, e.x, e.y).entity == None {
      assert RemoveEntity(AddEntity(g, e), e).tiles == g.tiles[i := g.tiles[i].(entity := Some(e.id))][i := g.tiles[i]];
      assert g.tiles[i := g.tiles[i].(entity := Some(e.id))][i := g.tiles[i]] == g.tiles;
    }
  }

  datatype MoveResult = MoveResult(moved: bool, grid: Grid, entity: Entity, log: seq<Callback>)

  /**
   * `move_entity`: if the destination can be placed on, registers the entity
   * there, then clears the tile of its old position, updates its position and
   * fires its move callback with old and new coordinates. The source indexes
   * the old position only on that path, so only there must it be on the grid.
   */
  function MoveEntity(g: Grid, b: Builder, e: Entity, dx: int, dy: int, log: seq<Callback>): (r: MoveResult)
    requires g.Valid()
    requires CanPlace(g, b, e.x + dx, e.y + dy) ==> InBounds(g, e.x, e.y)
    ensures SameShape(g, r.grid)
    ensures r.moved <==> CanPlace(g, b, e.x + dx, e.y + dy)
    ensures !r.moved ==> r.grid == g && r.entity == e && r.log == log
    ensures r.moved ==> r.entity == Entity(e.id, e.x + dx, e.y + dy)
    ensures r.moved ==> r.log == log + [Moved(e.id, e.x, e.y, e.x + dx, e.y + dy)]
    ensures r.moved ==> At(r.grid, e.x, e.y).entity == None
    ensures r.moved && (dx != 0 || dy != 0) ==> At(r.grid, e.x + dx, e.y + dy).entity == Some(e.id)
    ensures forall x, y | InBounds(g, x, y) :: At(r.grid, x, y).(entity := None) == At(g, x, y).(entity := None)
    ensures forall x, y | InBounds(g, x, y) && (x != e.x || y != e.y) && (x != e.x + dx || y != e.y + dy) ::
      At(r.grid, x, y) == At(g, x, y)
  {
    var nx := e.x + dx;
    var ny := e.y + dy;
    if !CanPlace(g, b, nx, ny) then MoveResult(false, g, e, log)
    else
      var g1 := SetEntity(g, nx, ny, Some(e.id));
      var g2 := RemoveEntity(g1, e);
      MoveResult(true, g2, Entity(e.id, nx, ny), log + [Moved(e.id, e.x, e.y, nx, ny)])
  }

  /** The tile indices that hold entity `id`. */
  ghost function TilesOf(g: Grid, id: EntityId): set<nat> {
    set i: nat | i < |g.tiles| && g.tiles[i].entity == Some(id)
  }

  /** The entity is registered on the tile of its own position and on no other. */
  ghost predicate RegisteredOnlyAt(g: Grid, e: Entity)
    requires g.Valid() && InBounds(g, e.x, e.y)
  {
    TilesOf(g, e.id) == {Index(g, e.x, e.y)}
  }

  /** A move, successful or not, keeps an entity registered on exactly the tile of its position. */
  lemma MoveKeepsSingleTile(g: Grid, b: Builder, e: Entity, dx: int, dy: int, log: seq<Callback>)
    requires g.Valid() && InBounds(g, e.x, e.y) && RegisteredOnlyAt(g, e)
    ensures var r := MoveEntity(g, b, e, dx, dy, log);
      InBounds(r.grid, r.entity.x, r.entity.y) && RegisteredOnlyAt(r.grid, r.entity)
  {
    var r := MoveEntity(g, b, e, dx, dy, log);
    if r.moved {
      var i := Index(g, e.x, e.y);
      var j := Index(g, e.x + dx, e.y + dy);
      assert i in TilesOf(g, e.id);
      if i == j {
        IndexInjective(g.width, e.x, e.y, e.x + dx, e.y + dy);
        assert false;
      }
      assert r.grid.tiles == g.tiles[j := g.tiles[j].(entity := Some(e.id))][i := g.tiles[i].(entity := None)];
      forall k: nat | k < |r.grid.tiles|
        ensures r.grid.tiles[k].entity == Some(e.id) <==> k == j
      {
        if k != i && k != j {
          assert k !in TilesOf(g, e.id);
        }
      }
      assert TilesOf(r.grid, e.id) == {j};
    }
  }

  /** A move by (0, 0) of a registered entity always fails: its own tile is occupied. */
  lemma StandStillFails(g: Grid, b: Builder, e: Entity, log: seq<Callback>)
    requires g.Valid() && InBounds(g, e.x, e.y) && At(g, e.x, e.y).entity == Some(e.id)
    ensures !MoveEntity(g, b, e, 0, 0, log).moved
  {
  }

  predicate InFootprint(bld: Building, x: int, y: int) {
    bld.x <= x < bld.x + bld.w && bld.y <= y < bld.y + bld.h
  }

  /** `get_building`: the building on the tile the entity stands on. */
  function GetBuilding(g: Grid, e: Entity): Option<BuildingId>
    requires g.Valid() && InBounds(g, e.x, e.y)
  {
    At(g, e.x, e.y).building
  }

  /**
   * `add_building`: stamps the building on every tile of its footprint, column
   * by column. The source indexes every footprint tile, so a non-empty
   * footprint must lie on the grid.
   */
  method AddBuilding(g: Grid, bld: Building) returns (r: Grid)
    requires g.Valid()
    requires bld.w > 0 && bld.h > 0 ==>
      0 <= bld.x && bld.x + bld.w <= g.width && 0 <= bld.y && bld.y + bld.h <= g.height
    ensures SameShape(g, r)
    ensures forall x, y | InBounds(g, x, y) ::
      At(r, x, y) == if InFootprint(bld, x, y) then At(g, x, y).(building := Some(bld.id)) else At(g, x, y)
    ensures forall e: Entity | InBounds(g, e.x, e.y) ::
      GetBuilding(r, e) == if InFootprint(bld, e.x, e.y) then Some(bld.id) else GetBuilding(g, e)
  {
    r := g;
    var x := bld.x;
    while x < bld.x + bld.w
      invariant bld.x <= x && (x <= bld.x + bld.w || x == bld.x)
      invariant SameShape(g, r)
      invariant forall x2, y2 | InBounds(g, x2, y2) ::
        At(r, x2, y2) == if bld.x <= x2 < x && bld.y <= y2 < bld.y + bld.h
          then At(g, x2, y2).(building := Some(bld.id)) else At(g, x2, y2)
    {
      var y := bld.y;
      while y < bld.y + bld.h
        invariant bld.y <= y && (y <= bld.y + bld.h || y == bld.y)
        invariant SameShape(g, r)
        invariant forall x2, y2 | InBounds(g, x2, y2) ::
          At(r, x2, y2) == if (bld.x <= x2 < x && bld.y <= y2 < bld.y + bld.h) || (x2 == x && bld.y <= y2 < y)
            then At(g, x2, y2).(building := Some(bld.id)) else At(g, x2, y2)
      {
        r := Update(r, x, y, At(r, x, y).(building := Some(bld.id)));
        y := y + 1;
      }
      x := x + 1;
    }
  }

  /** `in_fov` */
  function InFov(g: Grid, x: int, y: int): bool
    requires g.Valid() && InBounds(g, x, y)
  {
    At(g, x, y).inFov
  }

  /** `is_explored` */
  function IsExplored(g: Grid, x: int, y: int): bool
    requires g.Valid() && InBounds(g, x, y)
  {
    At(g, x, y).explored
  }

  /** `is_wall`: answered by the builder alone. */
  function IsWall(b: Builder, x: int, y: int): bool {
    b.isWall(x, y)
  }

  /**
   * `explore`: marks the tile explored when it is in view and is a no-op
   * otherwise. No explored bit is ever cleared and no other field changes.
   */
  function Explore(g: Grid, x: int, y: int): (r: Grid)
    requires g.Valid() && InBounds(g, x, y)
    ensures SameShape(g, r)
    ensures IsExplored(r, x, y) <==> IsExplored(g, x, y) || InFov(g, x, y)
    ensures !InFov(g, x, y) ==> r == g
    ensures forall x2, y2 | InBounds(g, x2, y2) :: IsExplored(g, x2, y2) ==> IsExplored(r, x2, y2)
    ensures forall x2, y2 | InBounds(g, x2, y2) :: At(r, x2, y2).(explored := false) == At(g, x2, y2).(explored := false)
    ensures forall x2, y2 | InBounds(g, x2, y2) && (x2 != x || y2 != y) :: At(r, x2, y2) == At(g, x2, y2)
  {
    if !At(g, x, y).inFov then g
    else Update(g, x, y, At(g, x, y).(explored := true))
  }

  /**
   * `update_fov`: copies the builder's view into every tile, column by column;
   * entities, buildings and explored bits are untouched.
   */
  method UpdateFov(g: Grid, b: Builder) returns (r: Grid)
    requires g.Valid()
    ensures SameShape(g, r)
    ensures forall x, y | InBounds(g, x, y) :: InFov(r, x, y) == b.inFov(x, y)
    ensures forall x, y | InBounds(g, x, y) :: At(r, x, y).(inFov := false) == At(g, x, y).(inFov := false)
  {
    r := g;
    var x := 0;
    while x < g.width
      invariant 0 <= x <= g.width
      invariant SameShape(g, r)
      invariant forall x2, y2 | InBounds(g, x2, y2) ::
        At(r, x2, y2) == if x2 < x then At(g, x2, y2).(inFov := b.inFov(x2, y2)) else At(g, x2, y2)
    {
      var y := 0;
      while y < g.height
        invariant 0 <= y <= g.height
        invariant SameShape(g, r)
        invariant forall x2, y2 | InBounds(g, x2, y2) ::
          At(r, x2, y2) == if x2 < x || (x2 == x && y2 < y) then At(g, x2, y2).(inFov := b.inFov(x2, y2)) else At(g, x2, y2)
      {
        r := Update(r, x, y, At(r, x, y).(inFov := b.inFov(x, y)));
        y := y + 1;
      }
      x := x + 1;
    }
  }

  datatype ClickResult = ClickResult(handled: bool, log: seq<Callback>)

  /** `click`: fires the click callback of the entity on the tile, if there is one. */
  function Click(g: Grid, x: int, y: int, log: seq<Callback>): (r: ClickResult)
    requires g.Valid() && InBounds(g, x, y)
    ensures r.handled <==> At(g, x, y).entity.Some?
    ensures !r.handled ==> r.log == log
    ensures r.handled ==> r.log == log + [Clicked(At(g, x, y).entity.value, x, y)]
  {
    match At(g, x, y).entity
    case None => ClickResult(false, log)
    case Some(id) => ClickResult(true, log + [Clicked(id, x, y)])
  }

  /**
   * After a successful move by a non-zero delta, a click on the new position
   * reaches the moved entity and a click on the old position reaches nobody.
   */
  lemma ClickFollowsMove(g: Grid, b: Builder, e: Entity, dx: int, dy: int, log: seq<Callback>, clicks: seq<Callback>)
    requires g.Valid() && InBounds(g, e.x, e.y) && (dx != 0 || dy != 0)
    requires MoveEntity(g, b, e, dx, dy, log).moved
    ensures var m := MoveEntity(g, b, e, dx, dy, log);
      && Click(m.grid, e.x + dx, e.y + dy, clicks) == ClickResult(true, clicks + [Clicked(e.id, e.x + dx, e.y + dy)])
      && Click(m.grid, e.x, e.y, clicks) == ClickResult(false, clicks)
  {
  }
}
