/**
  The 18 by 14 tile grid of `src/grid.rs`: the column-major lookup of a
  tile entity, the tiles `setup` spawns with their checkerboard colours, and
  the four per-frame systems that move a tile between `None`, `Hovered` and
  `Clicked` and mark clicked tiles with `Selection`.

  Tile components are held in a `World` map from entity to tile state. The
  engine's deferred commands (inserting and removing `Selection`) are
  returned by the systems as entity sets and applied at the end of the
  frame, in system order.
 */
module Grid {
  import Options
  import PathGeometry

  const GRID_WIDTH: nat := 18
  const GRID_HEIGHT: nat := 14
  /** Number of tiles `setup` spawns. */
  const TILE_COUNT: nat := 252

  /** An engine entity id. */
  type Entity = nat

  datatype Colour = Rgb(red: nat, green: nat, blue: nat) | MidnightBlue | AliceBlue

  /** Base colour of the tiles whose coordinates have an even sum (#3e8948). */
  const DARK: Colour := Rgb(0x3e, 0x89, 0x48)
  /** Base colour of the tiles whose coordinates have an odd sum (#63c74d). */
  const LIGHT: Colour := Rgb(0x63, 0xc7, 0x4d)

  /** The `Tile` component: the sprite colours for each interaction state. */
  datatype Tile = Tile(colour: Colour, selection: Colour, hover: Colour)

  /** The engine's `Interaction` component as the tile systems use it. */
  datatype Interaction = None | Hovered | Clicked

  /**
    Everything the tile systems read or write on one tile entity: its `Tile`
    and `Interaction` components, whether it carries the `Selection` marker,
    and the colour of its sprite.
   */
  datatype TileState = TileState(tile: Tile, interaction: Interaction, selected: bool, sprite: Colour)

  type World = map<Entity, TileState>

  // ---------------------------------------------------------------------------
  // Lookup
  // ---------------------------------------------------------------------------

  /** Position of tile `(x, y)` in the tile list: all of column 0, then column 1, ... */
  function TileIndex(x: nat, y: nat): nat {
    x * GRID_HEIGHT + y
  }

  /**
    An in-bounds pair lands in `[0, 252)` and can be decoded back by
    division, so distinct pairs never share an index.
   */
  lemma TileIndexRoundTrip(x: nat, y: nat)
    requires x < GRID_WIDTH && y < GRID_HEIGHT
    ensures TileIndex(x, y) < TILE_COUNT
    ensures TileIndex(x, y) / GRID_HEIGHT == x && TileIndex(x, y) % GRID_HEIGHT == y
  {
    PathGeometry.IndexInBounds(x, y, GRID_WIDTH, GRID_HEIGHT);
    PathGeometry.IndexRoundTrip(x, y, GRID_HEIGHT);
  }

  /** Distinct in-bounds pairs have distinct indices. */
  lemma TileIndexInjective(x1: nat, y1: nat, x2: nat, y2: nat)
    requires x1 < GRID_WIDTH && y1 < GRID_HEIGHT && x2 < GRID_WIDTH && y2 < GRID_HEIGHT
    ensures TileIndex(x1, y1) == TileIndex(x2, y2) <==> x1 == x2 && y1 == y2
  {
    TileIndexRoundTrip(x1, y1);
    TileIndexRoundTrip(x2, y2);
  }

  /** Every index below 252 is the index of exactly the pair its quotient and remainder name. */
  lemma TileIndexCovers(k: nat)
    requires k < TILE_COUNT
    ensures k / GRID_HEIGHT < GRID_WIDTH && k % GRID_HEIGHT < GRID_HEIGHT
    ensures TileIndex(k / GRID_HEIGHT, k % GRID_HEIGHT) == k
  {
  }

  /**
    `Grid::get_xy`: the entity of tile `(x, y)`. Out-of-bounds coordinates
    give `None` whatever the list holds; in-bounds ones give the list entry
    at the column-major index, or `None` while the list is still too short.
   */
  function GetXY(tiles: seq<Entity>, x: nat, y: nat): (r: Options.Option<Entity>)
    ensures x >= GRID_WIDTH || y >= GRID_HEIGHT ==> r.None?
    ensures r.Some? <==> x < GRID_WIDTH && y < GRID_HEIGHT && TileIndex(x, y) < |tiles|
    ensures r.Some? ==> r.value == tiles[TileIndex(x, y)]
  {
    if x >= GRID_WIDTH || y >= GRID_HEIGHT then Options.None
    else if TileIndex(x, y) < |tiles| then Options.Some(tiles[TileIndex(x, y)])
    else Options.None
  }

  // ---------------------------------------------------------------------------
  // Setup
  // ---------------------------------------------------------------------------

  /** Checkerboard colouring: dark where `x + y` is even, light where it is odd. */
  function BaseColour(x: nat, y: nat): Colour {
    if (x + y) % 2 == 0 then DARK else LIGHT
  }

  /** Two tiles get the same base colour exactly when their coordinate sums have the same parity. */
  lemma SameColourIffSameParity(x1: nat, y1: nat, x2: nat, y2: nat)
    ensures BaseColour(x1, y1) == BaseColour(x2, y2) <==> (x1 + y1) % 2 == (x2 + y2) % 2
  {
    assert DARK != LIGHT;
  }

  /** Orthogonally adjacent tiles always have different base colours. */
  lemma AdjacentTilesDiffer(x: nat, y: nat)
    ensures BaseColour(x, y) != BaseColour(x + 1, y)
    ensures BaseColour(x, y) != BaseColour(x, y + 1)
  {
    SameColourIffSameParity(x, y, x + 1, y);
    SameColourIffSameParity(x, y, x, y + 1);
  }

  /** The state of the tile `setup` spawns at `(x, y)`: base colour shown, no interaction, not selected. */
  function Spawned(x: nat, y: nat): TileState {
    var colour := BaseColour(x, y);
    TileState(Tile(colour, MidnightBlue, AliceBlue), None, false, colour)
  }

  /**
    `setup`: spawns the 252 tiles column by column into an empty grid and
    pushes each entity onto the tile list. The engine's entity allocator is
    modelled as handing out `firstEntity`, `firstEntity + 1`, ... in spawn
    order. Afterwards `GetXY` finds, for every in-bounds pair, the entity
    spawned for exactly that pair.
   */
  method Setup(firstEntity: Entity) returns (tiles: seq<Entity>, world: World)
    ensures |tiles| == TILE_COUNT
    ensures forall x: nat, y: nat | x < GRID_WIDTH && y < GRID_HEIGHT ::
              GetXY(tiles, x, y) == Options.Some(firstEntity + TileIndex(x, y))
    ensures forall x: nat, y: nat | x < GRID_WIDTH && y < GRID_HEIGHT ::
              firstEntity + TileIndex(x, y) in world && world[firstEntity + TileIndex(x, y)] == Spawned(x, y)
    ensures forall e :: e in world <==> firstEntity <= e < firstEntity + TILE_COUNT
  {
    tiles, world := [], map[];
    var i := 0;
    while i < GRID_WIDTH
      invariant i <= GRID_WIDTH
      invariant |tiles| == i * GRID_HEIGHT
      invariant forall k | 0 <= k < |tiles| :: tiles[k] == firstEntity + k
      invariant forall e :: e in world <==> firstEntity <= e < firstEntity + |tiles|
      invariant forall k | 0 <= k < |tiles| :: world[firstEntity + k] == Spawned(k / GRID_HEIGHT, k % GRID_HEIGHT)
    {
      var j := 0;
      while j < GRID_HEIGHT
        invariant j <= GRID_HEIGHT
        invariant |tiles| == i * GRID_HEIGHT + j
        invariant forall k | 0 <= k < |tiles| :: tiles[k] == firstEntity + k
        invariant forall e :: e in world <==> firstEntity <= e < firstEntity + |tiles|
        invariant forall k | 0 <= k < |tiles| :: world[firstEntity + k] == Spawned(k / GRID_HEIGHT, k % GRID_HEIGHT)
      {
        TileIndexRoundTrip(i, j);
        var entity := firstEntity + |tiles|;
        world := world[entity := Spawned(i, j)];
        tiles := tiles + [entity];
        j := j + 1;
      }
      i := i + 1;
    }
    forall x: nat, y: nat | x < GRID_WIDTH && y < GRID_HEIGHT
      ensures firstEntity + TileIndex(x, y) in world && world[firstEntity + TileIndex(x, y)] == Spawned(x, y)
    {
      TileIndexRoundTrip(x, y);
    }
  }

  // ---------------------------------------------------------------------------
  // Per-frame systems
  // ---------------------------------------------------------------------------

  /** What `clear_interaction` does to one tile. */
  function Cleared(t: TileState): TileState {
    match t.interaction
    case Clicked => if t.selected then t else t.(interaction := None)
    case Hovered => t.(interaction := None)
    case None => t
  }

  /**
    `clear_interaction`: forgets last frame's hover, and the click of every
    tile that did not get selected. Only the interaction changes; afterwards
    no tile is hovered, and a tile is clicked exactly when it was clicked and
    selected.
   */
  function ClearInteraction(world: World): (r: World)
    ensures r.Keys == world.Keys
    ensures forall e | e in r :: r[e] == world[e].(interaction := r[e].interaction)
    ensures forall e | e in r :: r[e].interaction != Hovered
    ensures forall e | e in r :: r[e].interaction == Clicked <==> world[e].interaction == Clicked && world[e].selected
  {
    map e | e in world :: Cleared(world[e])
  }

  /** What `interaction` does to the tile under the mouse. */
  function Pointed(i: Interaction, justPressed: bool): Interaction {
    match i
    case Clicked => Clicked
    case Hovered => if justPressed then Clicked else Hovered
    case None => if justPressed then Clicked else Hovered
  }

  /**
    `interaction`: the tile under the mouse (`hovered`, the tile the float
    conversion `get_vec2` found, if any) becomes hovered, or clicked when the
    left button was just pressed; a clicked tile stays clicked. Every other
    entity, and an entity that is not a tile, is left alone.
   */
  function UpdateInteraction(world: World, hovered: Options.Option<Entity>, justPressed: bool): (r: World)
    ensures r.Keys == world.Keys
    ensures forall e | e in world && hovered != Options.Some(e) :: r[e] == world[e]
    ensures forall e | e in world && hovered == Options.Some(e) ::
              && r[e] == world[e].(interaction := r[e].interaction)
              && r[e].interaction != None
              && (r[e].interaction == Clicked <==> world[e].interaction == Clicked || justPressed)
  {
    if hovered.Some? && hovered.value in world then
      var t := world[hovered.value];
      world[hovered.value := t.(interaction := Pointed(t.interaction, justPressed))]
    else
      world
  }

  /** `interaction` with its `Hovered` branch deleted: a hovered tile is left alone. */
  function UpdateInteractionWithoutHoveredBranch(world: World, hovered: Options.Option<Entity>, justPressed: bool): World {
    if hovered.Some? && hovered.value in world then
      var t := world[hovered.value];
      match t.interaction
      case Clicked => world
      case Hovered => world
      case None => world[hovered.value := t.(interaction := if justPressed then Clicked else Hovered)]
    else
      world
  }

  /**
    Because `clear_interaction` runs first, no tile is hovered when
    `interaction` runs, so its `Hovered` branch can be deleted without
    changing what the frame does.
   */
  lemma HoveredBranchUnreachable(world: World, hovered: Options.Option<Entity>, justPressed: bool)
    ensures var cleared := ClearInteraction(world);
            UpdateInteraction(cleared, hovered, justPressed)
            == UpdateInteractionWithoutHoveredBranch(cleared, hovered, justPressed)
  {
    var cleared := ClearInteraction(world);
    if hovered.Some? && hovered.value in cleared {
      assert cleared[hovered.value].interaction != Hovered;
    }
  }

  /** The sprite colour `tile_interaction` shows for a tile. */
  function Shown(t: TileState): Colour {
    match t.interaction
    case Clicked => t.tile.selection
    case Hovered => t.tile.hover
    case None => t.tile.colour
  }

  /** A world after a system has run, with the `Selection` commands it queued. */
  datatype Painted = Painted(world: World, inserts: set<Entity>)

  /**
    `tile_interaction`: every tile's sprite shows the colour its `Tile`
    holds for its interaction state, and an insertion of `Selection` is
    queued for exactly the clicked tiles. Nothing else changes.
   */
  function TileInteraction(world: World): (r: Painted)
    ensures r.world.Keys == world.Keys
    ensures forall e | e in world :: r.world[e] == world[e].(sprite := r.world[e].sprite)
    ensures forall e | e in world ::
              && (world[e].interaction == Clicked ==> r.world[e].sprite == world[e].tile.selection)
              && (world[e].interaction == Hovered ==> r.world[e].sprite == world[e].tile.hover)
              && (world[e].interaction == None ==> r.world[e].sprite == world[e].tile.colour)
    ensures forall e :: e in r.inserts <==> e in world && world[e].interaction == Clicked
  {
    Painted(map e | e in world :: world[e].(sprite := Shown(world[e])),
            set e | e in world && world[e].interaction == Clicked)
  }

  /** What `clear_selection` queues, and the clear events left pending. */
  datatype Unselected = Unselected(removes: set<Entity>, pendingClears: nat)

  /**
    `clear_selection`: when Space was just pressed or a clear event is
    pending, the events are consumed and a removal of `Selection` is queued
    for every selected tile; otherwise nothing happens.
   */
  function ClearSelection(world: World, spacePressed: bool, pendingClears: nat): (r: Unselected)
    ensures spacePressed || pendingClears > 0 ==> r.pendingClears == 0
    ensures !spacePressed && pendingClears == 0 ==> r.pendingClears == pendingClears && r.removes == {}
    ensures forall e :: e in r.removes <==> (spacePressed || pendingClears > 0) && e in world && world[e].selected
  {
    if spacePressed || pendingClears > 0 then
      Unselected(set e | e in world && world[e].selected, 0)
    else
      Unselected({}, pendingClears)
  }

  /** Applies the queued insertions of `Selection`, then the queued removals. */
  function ApplyCommands(world: World, inserts: set<Entity>, removes: set<Entity>): World {
    map e | e in world :: world[e].(selected := (world[e].selected || e in inserts) && e !in removes)
  }

  datatype Frame = Frame(world: World, pendingClears: nat)

  /**
    One frame of the four systems in their scheduled order
    (`clear_interaction`, `interaction`, `tile_interaction`,
    `clear_selection`), with the queued `Selection` commands applied at the
    end of the frame in that order. `clear_selection` sees the selections as
    they were when the frame began.
   */
  function RunFrame(world: World, hovered: Options.Option<Entity>, justPressed: bool,
                    spacePressed: bool, pendingClears: nat): (r: Frame)
    ensures r.world.Keys == world.Keys
    ensures r.pendingClears == 0
    ensures forall e | e in world :: r.world[e].tile == world[e].tile
  {
    var pointed := UpdateInteraction(ClearInteraction(world), hovered, justPressed);
    var painted := TileInteraction(pointed);
    var unselected := ClearSelection(pointed, spacePressed, pendingClears);
    Frame(ApplyCommands(painted.world, painted.inserts, unselected.removes), unselected.pendingClears)
  }

  /**
    After a frame a tile is selected exactly when either it was selected and
    no clear was requested, or it was not selected and ends the frame
    clicked. A tile is clicked only if it was clicked and selected before or
    the mouse is on it and the button was just pressed; only the tile under
    the mouse can be hovered. Clear requests are consumed.
   */
  lemma FrameOutcome(world: World, hovered: Options.Option<Entity>, justPressed: bool,
                     spacePressed: bool, pendingClears: nat)
    ensures var r := RunFrame(world, hovered, justPressed, spacePressed, pendingClears);
            && r.world.Keys == world.Keys
            && (spacePressed || pendingClears > 0 ==> r.pendingClears == 0)
            && (forall e | e in world ::
                  r.world[e].selected
                  <==> if world[e].selected then !(spacePressed || pendingClears > 0)
                       else r.world[e].interaction == Clicked)
            && (forall e | e in world && r.world[e].interaction == Clicked ::
                  (world[e].interaction == Clicked && world[e].selected)
                  || (hovered == Options.Some(e) && justPressed))
            && (forall e | e in world && r.world[e].interaction == Hovered :: hovered == Options.Some(e))
  {
    var cleared := ClearInteraction(world);
    var pointed := UpdateInteraction(cleared, hovered, justPressed);
    var painted := TileInteraction(pointed);
    var unselected := ClearSelection(pointed, spacePressed, pendingClears);
    var r := RunFrame(world, hovered, justPressed, spacePressed, pendingClears);
    assert r.world == ApplyCommands(painted.world, painted.inserts, unselected.removes);
    forall e | e in world
      ensures r.world[e].interaction == pointed[e].interaction
      ensures pointed[e].selected == world[e].selected
    {
    }
  }

  /** A clicked and selected tile stays clicked and selected through a frame without a clear request. */
  lemma SelectedClickPersists(world: World, e: Entity, hovered: Options.Option<Entity>, justPressed: bool)
    requires e in world && world[e].interaction == Clicked && world[e].selected
    ensures var r := RunFrame(world, hovered, justPressed, false, 0);
            e in r.world && r.world[e].interaction == Clicked && r.world[e].selected
  {
    FrameOutcome(world, hovered, justPressed, false, 0);
    var cleared := ClearInteraction(world);
    assert cleared[e].interaction == Clicked;
    assert UpdateInteraction(cleared, hovered, justPressed)[e].interaction == Clicked;
  }

  /**
    Pressing the button on a tile that is not both selected and being
    cleared leaves it clicked and selected at the end of the frame.
   */
  lemma ClickSelects(world: World, e: Entity, spacePressed: bool, pendingClears: nat)
    requires e in world
    requires !(world[e].selected && (spacePressed || pendingClears > 0))
    ensures var r := RunFrame(world, Options.Some(e), true, spacePressed, pendingClears);
            e in r.world && r.world[e].interaction == Clicked && r.world[e].selected
  {
    FrameOutcome(world, Options.Some(e), true, spacePressed, pendingClears);
    var cleared := ClearInteraction(world);
    assert UpdateInteraction(cleared, Options.Some(e), true)[e].interaction == Clicked;
  }
}
