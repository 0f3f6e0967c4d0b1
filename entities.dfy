/** The game's entities as values: points on the 20x20 grid, walls, water,
    tanks and the two kinds of pickup, and the grid occupant that wraps any
    of them. */
module Entities {
  import opened Wrappers

  /** Side length of the square game grid (`new IGridItem[20, 20]`). */
  const GridSize: int := 20

  datatype Point = Point(x: int, y: int)

  /** The C# grid is indexed `[X, Y]`; any other point throws. */
  predicate InGrid(p: Point) {
    0 <= p.x < GridSize && 0 <= p.y < GridSize
  }

  /** `(Direction) n` performs no range check, so a direction is the raw wire integer. */
  type Direction = int

  datatype BrickWall = BrickWall(health: int, location: Point)
  datatype StoneWall = StoneWall(location: Point)
  datatype Water = Water(location: Point)
  datatype Tank = Tank(location: Point, health: int, direction: Direction, points: int,
                       coins: int, playerNumber: int, isShot: bool, isControlled: bool)
  datatype Coinpack = Coinpack(location: Point, coinValue: int, timeToDisappear: int)
  datatype Lifepack = Lifepack(location: Point, healthValue: int, timeToDisappear: int)

  /** An occupant of one grid cell (the C# `IGridItem`). */
  datatype GridItem =
    | BrickItem(brick: BrickWall)
    | StoneItem(stone: StoneWall)
    | WaterItem(water: Water)
    | TankItem(tank: Tank)
    | CoinpackItem(coinpack: Coinpack)
    | LifepackItem(lifepack: Lifepack)
  {
    function Location(): Point {
      match this
      case BrickItem(b) => b.location
      case StoneItem(s) => s.location
      case WaterItem(w) => w.location
      case TankItem(t) => t.location
      case CoinpackItem(c) => c.location
      case LifepackItem(l) => l.location
    }
  }

  /** The field values that the shorter constructors `new BrickWall(point)`,
      `new Tank(location, direction, number, isShot, isControlled)`,
      `new Tank(location, health, direction, points, coins, number)` and
      `new Lifepack(location, time)` fill in. The entity classes are not part
      of this model, so these values are parameters of the operations that
      use those constructors. */
  datatype ConstructorDefaults = ConstructorDefaults(
    brickHealth: int,
    tankHealth: int, tankPoints: int, tankCoins: int,
    tankIsShot: bool, tankIsControlled: bool,
    lifepackHealthValue: int)

  /** A grid cell: `None` is the C# null. */
  type Cell = Option<GridItem>

  function BrickItems(bs: seq<BrickWall>): (r: seq<GridItem>)
    ensures |r| == |bs| && forall i :: 0 <= i < |bs| ==> r[i] == BrickItem(bs[i])
    decreases |bs|
  {
    if |bs| == 0 then [] else [BrickItem(bs[0])] + BrickItems(bs[1..])
  }

  function StoneItems(ss: seq<StoneWall>): (r: seq<GridItem>)
    ensures |r| == |ss| && forall i :: 0 <= i < |ss| ==> r[i] == StoneItem(ss[i])
    decreases |ss|
  {
    if |ss| == 0 then [] else [StoneItem(ss[0])] + StoneItems(ss[1..])
  }

  function WaterItems(ws: seq<Water>): (r: seq<GridItem>)
    ensures |r| == |ws| && forall i :: 0 <= i < |ws| ==> r[i] == WaterItem(ws[i])
    decreases |ws|
  {
    if |ws| == 0 then [] else [WaterItem(ws[0])] + WaterItems(ws[1..])
  }

  function TankItems(ts: seq<Tank>): (r: seq<GridItem>)
    ensures |r| == |ts| && forall i :: 0 <= i < |ts| ==> r[i] == TankItem(ts[i])
    decreases |ts|
  {
    if |ts| == 0 then [] else [TankItem(ts[0])] + TankItems(ts[1..])
  }

  function CoinpackItems(cs: seq<Coinpack>): (r: seq<GridItem>)
    ensures |r| == |cs| && forall i :: 0 <= i < |cs| ==> r[i] == CoinpackItem(cs[i])
    decreases |cs|
  {
    if |cs| == 0 then [] else [CoinpackItem(cs[0])] + CoinpackItems(cs[1..])
  }

  function LifepackItems(ls: seq<Lifepack>): (r: seq<GridItem>)
    ensures |r| == |ls| && forall i :: 0 <= i < |ls| ==> r[i] == LifepackItem(ls[i])
    decreases |ls|
  {
    if |ls| == 0 then [] else [LifepackItem(ls[0])] + LifepackItems(ls[1..])
  }

  predicate ItemsInGrid(items: seq<GridItem>) {
    forall i :: 0 <= i < |items| ==> InGrid(items[i].Location())
  }

  /** What cell `p` holds after `foreach (var item in items) grid[item.X, item.Y] = item`
      ran over a cell that held `under`: the last item located at `p`, if any. */
  function Overlay(under: Cell, items: seq<GridItem>, p: Point): (c: Cell)
    ensures c != under ==> c.Some? && c.value.Location() == p && c.value in items
    ensures c == under || exists i :: 0 <= i < |items| && items[i].Location() == p
  {
    if items == [] then under
    else if items[|items| - 1].Location() == p then Some(items[|items| - 1])
    else Overlay(under, items[..|items| - 1], p)
  }

  /** Some item of `items` stands on `p`. */
  predicate HasAt(items: seq<GridItem>, p: Point) {
    exists i :: 0 <= i < |items| && items[i].Location() == p
  }

  /** Where no item stands on `p`, painting leaves the cell as it was. */
  lemma {:induction false} OverlayMissing(under: Cell, items: seq<GridItem>, p: Point)
    requires !HasAt(items, p)
    ensures Overlay(under, items, p) == under
    decreases |items|
  {
    if items != [] {
      var n := |items| - 1;
      assert forall i :: 0 <= i < n ==> items[..n][i] == items[i];
      OverlayMissing(under, items[..n], p);
    }
  }

  /** The grid writes of a C# `foreach (var item in items) grid[X, Y] = item`
      loop: each item is stored at its own location, in order. */
  method Paint(grid: array2<Cell>, items: seq<GridItem>)
    requires grid.Length0 == GridSize && grid.Length1 == GridSize && ItemsInGrid(items)
    modifies grid
    ensures forall x, y :: 0 <= x < GridSize && 0 <= y < GridSize ==>
              grid[x, y] == Overlay(old(grid[x, y]), items, Point(x, y))
  {
    var i := 0;
    while i < |items|
      invariant 0 <= i <= |items|
      invariant forall x, y :: 0 <= x < GridSize && 0 <= y < GridSize ==>
                  grid[x, y] == Overlay(old(grid[x, y]), items[..i], Point(x, y))
    {
      var p := items[i].Location();
      grid[p.x, p.y] := Some(items[i]);
      assert items[..i + 1][..i] == items[..i];
      i := i + 1;
    }
    assert items[..|items|] == items;
  }

  /** Where some item stands on `p`, the painted cell is the last such item,
      whatever the cell held before. */
  lemma {:induction false} OverlayCovers(under: Cell, items: seq<GridItem>, p: Point)
    requires HasAt(items, p)
    ensures Overlay(under, items, p) == Overlay(None, items, p)
    ensures Overlay(None, items, p).Some? && Overlay(None, items, p).value in items
    ensures Overlay(None, items, p).value.Location() == p
    decreases |items|
  {
    var n := |items| - 1;
    if items[n].Location() != p {
      var i :| 0 <= i < |items| && items[i].Location() == p;
      assert items[..n][i] == items[i];
      OverlayCovers(under, items[..n], p);
      assert items[..n][i] in items;
    }
  }

  /** Painting one more item changes only the cell it stands on. */
  lemma OverlaySnoc(under: Cell, items: seq<GridItem>, x: GridItem, p: Point)
    ensures Overlay(under, items + [x], p) == if x.Location() == p then Some(x) else Overlay(under, items, p)
  {
    assert (items + [x])[..|items|] == items;
  }
}
