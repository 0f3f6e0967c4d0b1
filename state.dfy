/** The mutable game state of `State.cs`: one grid of occupants and the entity
    lists, changed in place by the per-second broadcast and by the pickup
    announcements. Entities are values here; where the C# grid and a list
    share one object, the model writes the new value into the grid cell that
    still holds the old one. */
module StateModel {
  import opened Wrappers
  import opened Entities
  import opened Messages
  import opened Parsing
  import opened WorldModel

  /** `new BrickWall(4, point)` in the constructor. */
  const InitialBrickHealth: int := 4
  /** `new Lifepack(location, 5, remainingTime)` in `ShowLifepack`. */
  const ShownLifepackHealth: int := 5

  /** What one call of a pickup's `Tick()` does: whether it reports expiry,
      and the remaining time it leaves behind. The clock behind it is not
      part of this model, so a tick is a parameter of `Update`. */
  datatype Tick = Tick(expired: bool, timeToDisappear: int)

  /** C# `int` arithmetic is unchecked: a result wraps into 32 bits. */
  function Wrap32(n: int): (r: int)
    ensures IsInt32(r)
    ensures IsInt32(n) ==> r == n
  {
    (n - Int32Min) % 0x1_0000_0000 + Int32Min
  }

  /** `brick.Health = 4 - damageDetails.DamageLevel`: the health reaches 0
      exactly at damage level 4, whatever the level's sign or size. */
  function DamagedHealth(level: int): (h: int)
    ensures IsInt32(h)
    ensures IsInt32(level) ==> (h == 0 <==> level == 4)
    ensures IsInt32(4 - level) ==> h == 4 - level
  {
    Wrap32(4 - level)
  }

  // ---------------------------------------------------------------- player records

  /** `Tanks.Where(t => t.PlayerNumber == n).First()`: the index of the first
      tank with the number, or none. */
  function FirstTank(tanks: seq<Tank>, n: int): (r: Option<nat>)
    ensures r.Some? ==> r.value < |tanks| && tanks[r.value].playerNumber == n
    ensures r.Some? ==> forall j :: 0 <= j < r.value ==> tanks[j].playerNumber != n
    ensures r.None? <==> forall j :: 0 <= j < |tanks| ==> tanks[j].playerNumber != n
    decreases |tanks|
  {
    if |tanks| == 0 then None
    else if tanks[0].playerNumber == n then Some(0)
    else match FirstTank(tanks[1..], n)
      case None => None
      case Some(i) => Some(i + 1)
  }

  /** The five assignments `tank.Location = …` to `tank.Points = …`. */
  function Moved(t: Tank, d: PlayerDetails): Tank {
    t.(location := d.location, health := d.health, coins := d.coins,
       direction := d.facingDirection, points := d.points)
  }

  /** The tank a player record leaves on the grid: the player's first tank,
      moved, or a fresh one when the player has none in `Tanks`. */
  function RecordTank(tanks: seq<Tank>, d: PlayerDetails, defaults: ConstructorDefaults): Tank {
    match FirstTank(tanks, d.playerNumber)
    case Some(i) => Moved(tanks[i], d)
    case None => Tank(d.location, d.health, d.facingDirection, d.points, d.coins, d.playerNumber,
                      defaults.tankIsShot, defaults.tankIsControlled)
  }

  /** `Tanks` after one player record: only an existing tank is updated; a
      freshly made one is never added. */
  function TanksAfterRecord(tanks: seq<Tank>, d: PlayerDetails): seq<Tank> {
    match FirstTank(tanks, d.playerNumber)
    case Some(i) => tanks[i := Moved(tanks[i], d)]
    case None => tanks
  }

  /** The cell at `p` after one player record: the tank's old cell is
      nulled, then the tank is written at its new location. */
  function CellAfterRecord(tanks: seq<Tank>, d: PlayerDetails, defaults: ConstructorDefaults, p: Point, c: Cell): Cell {
    var cleared := match FirstTank(tanks, d.playerNumber)
                   case Some(i) => if tanks[i].location == p then None else c
                   case None => c;
    if d.location == p then Some(TankItem(RecordTank(tanks, d, defaults))) else cleared
  }

  /** `Tanks` after the records, applied in order. Every tank keeps its
      place, its player number and its two flags. */
  function AfterPlayers(tanks: seq<Tank>, players: seq<PlayerDetails>): (r: seq<Tank>)
    ensures |r| == |tanks|
    ensures forall i :: 0 <= i < |tanks| ==>
              && r[i].playerNumber == tanks[i].playerNumber
              && r[i].isShot == tanks[i].isShot && r[i].isControlled == tanks[i].isControlled
    decreases |players|
  {
    if |players| == 0 then tanks
    else TanksAfterRecord(AfterPlayers(tanks, players[..|players| - 1]), players[|players| - 1])
  }

  /** The cell at `p` after the records, applied in order to a cell that held `c`. */
  function PlayersCell(tanks: seq<Tank>, players: seq<PlayerDetails>, defaults: ConstructorDefaults,
                       p: Point, c: Cell): Cell
    decreases |players|
  {
    if |players| == 0 then c
    else
      var before := players[..|players| - 1];
      CellAfterRecord(AfterPlayers(tanks, before), players[|players| - 1], defaults, p,
                      PlayersCell(tanks, before, defaults, p, c))
  }

  // ---------------------------------------------------------------- damage records

  predicate HasBrick(bricks: seq<BrickWall>, p: Point) {
    exists i :: 0 <= i < |bricks| && bricks[i].location == p
  }

  /** `BrickWalls.First(b => b.Location == p)`: the first brick on `p`. */
  function FirstBrick(bricks: seq<BrickWall>, p: Point): (r: nat)
    requires HasBrick(bricks, p)
    ensures r < |bricks| && bricks[r].location == p
    ensures forall j :: 0 <= j < r ==> bricks[j].location != p
    decreases |bricks|
  {
    if bricks[0].location == p then 0
    else
      assert HasBrick(bricks[1..], p) by {
        var i :| 0 <= i < |bricks| && bricks[i].location == p;
        assert bricks[1..][i - 1] == bricks[i];
      }
      FirstBrick(bricks[1..], p) + 1
  }

  /** `BrickWalls` after one damage record: the first brick on the reported
      location gets its new health, and is removed when that health is 0.
      A record with no brick under it makes `First` throw; `Update`
      requires that this never happens, and the list is then left as it is. */
  function BricksAfterDamage(bricks: seq<BrickWall>, d: DamageDetails): seq<BrickWall> {
    if !HasBrick(bricks, d.location) then bricks
    else
      var i := FirstBrick(bricks, d.location);
      var damaged := bricks[i].(health := DamagedHealth(d.damageLevel));
      if damaged.health == 0 then bricks[..i] + bricks[i + 1..] else bricks[i := damaged]
  }

  /** The cell at `p` after one damage record: a broken brick's cell is
      nulled; a damaged brick still shown there is shown with its new health. */
  function CellAfterDamage(bricks: seq<BrickWall>, d: DamageDetails, p: Point, c: Cell): Cell {
    if !HasBrick(bricks, d.location) || d.location != p then c
    else
      var brick := bricks[FirstBrick(bricks, d.location)];
      var damaged := brick.(health := DamagedHealth(d.damageLevel));
      if damaged.health == 0 then None
      else if c == Some(BrickItem(brick)) then Some(BrickItem(damaged))
      else c
  }

  function AfterDamages(bricks: seq<BrickWall>, damages: seq<DamageDetails>): (r: seq<BrickWall>)
    ensures |r| <= |bricks|
    decreases |damages|
  {
    if |damages| == 0 then bricks
    else BricksAfterDamage(AfterDamages(bricks, damages[..|damages| - 1]), damages[|damages| - 1])
  }

  function DamagesCell(bricks: seq<BrickWall>, damages: seq<DamageDetails>, p: Point, c: Cell): Cell
    decreases |damages|
  {
    if |damages| == 0 then c
    else
      var before := damages[..|damages| - 1];
      CellAfterDamage(AfterDamages(bricks, before), damages[|damages| - 1], p, DamagesCell(bricks, before, p, c))
  }

  /** Each record, when its turn comes, finds a brick on its location. */
  predicate DamagesApplicable(bricks: seq<BrickWall>, damages: seq<DamageDetails>)
    decreases |damages|
  {
    |damages| == 0 ||
    (DamagesApplicable(bricks, damages[..|damages| - 1])
     && HasBrick(AfterDamages(bricks, damages[..|damages| - 1]), damages[|damages| - 1].location))
  }

  // ---------------------------------------------------------------- pickup clocks

  function TickedCoinpacks(cs: seq<Coinpack>, tick: Coinpack -> Tick): seq<Coinpack>
    decreases |cs|
  {
    if |cs| == 0 then []
    else
      var c := cs[|cs| - 1];
      var kept := TickedCoinpacks(cs[..|cs| - 1], tick);
      if tick(c).expired then kept else kept + [c.(timeToDisappear := tick(c).timeToDisappear)]
  }

  /** `Coinpacks.ForEach(...)` as written: `List<T>.ForEach` stops and
      throws `InvalidOperationException` once the action has changed the
      list, so the first expired pack (removed by the action) ends the loop
      with that exception; without an expiry every pack is ticked. */
  function CoinpacksForEachAsWritten(cs: seq<Coinpack>, tick: Coinpack -> Tick): (r: Result<seq<Coinpack>, Exception>)
    ensures r.Failure? <==> exists i :: 0 <= i < |cs| && tick(cs[i]).expired
    ensures r.Failure? ==> r.error == InvalidOperationException
    ensures r.Success? ==> |r.value| == |cs|
    decreases |cs|
  {
    if |cs| == 0 then Success([])
    else if tick(cs[0]).expired then Failure(InvalidOperationException)
    else
      var rest := CoinpacksForEachAsWritten(cs[1..], tick);
      assert forall i :: 1 <= i < |cs| ==> cs[i] == cs[1..][i - 1];
      if rest.Failure? then rest
      else Success([cs[0].(timeToDisappear := tick(cs[0]).timeToDisappear)] + rest.value)
  }

  /** The cell at `p` after the coin packs' clocks run: an expired pack's
      cell is nulled; a surviving pack still shown is shown with its new time. */
  function CoinpacksTickCell(cs: seq<Coinpack>, tick: Coinpack -> Tick, p: Point, cell: Cell): Cell
    decreases |cs|
  {
    if |cs| == 0 then cell
    else
      var c := cs[|cs| - 1];
      var before := CoinpacksTickCell(cs[..|cs| - 1], tick, p, cell);
      if c.location != p then before
      else if tick(c).expired then None
      else if before == Some(CoinpackItem(c)) then Some(CoinpackItem(c.(timeToDisappear := tick(c).timeToDisappear)))
      else before
  }

  function TickedLifepacks(ls: seq<Lifepack>, tick: Lifepack -> Tick): seq<Lifepack>
    decreases |ls|
  {
    if |ls| == 0 then []
    else
      var l := ls[|ls| - 1];
      var kept := TickedLifepacks(ls[..|ls| - 1], tick);
      if tick(l).expired then kept else kept + [l.(timeToDisappear := tick(l).timeToDisappear)]
  }

  function LifepacksTickCell(ls: seq<Lifepack>, tick: Lifepack -> Tick, p: Point, cell: Cell): Cell
    decreases |ls|
  {
    if |ls| == 0 then cell
    else
      var l := ls[|ls| - 1];
      var before := LifepacksTickCell(ls[..|ls| - 1], tick, p, cell);
      if l.location != p then before
      else if tick(l).expired then None
      else if before == Some(LifepackItem(l)) then Some(LifepackItem(l.(timeToDisappear := tick(l).timeToDisappear)))
      else before
  }

  // ---------------------------------------------------------------- initial grid

  /** The cell at `p` once the constructor has written the bricks, then the
      stones, then the water. */
  function InitialCell(bricks: seq<Point>, stones: seq<Point>, waters: seq<Point>, p: Point): Cell {
    Overlay(Overlay(Overlay(None, BrickItems(NewBricks(bricks, InitialBrickHealth)), p),
                    StoneItems(NewStones(stones)), p),
            WaterItems(NewWaters(waters)), p)
  }

  predicate AllInGrid(points: seq<Point>) {
    forall i :: 0 <= i < |points| ==> InGrid(points[i])
  }

  predicate InBounds(x: int, y: int) {
    0 <= x < GridSize && 0 <= y < GridSize
  }

  class State {
    const GridItems: array2<Cell>
    var BrickWalls: seq<BrickWall>
    var StoneWalls: seq<StoneWall>
    var Waters: seq<Water>
    var Tanks: seq<Tank>
    var Coinpacks: seq<Coinpack>
    var Lifepacks: seq<Lifepack>

    /** The grid is 20 by 20 and every entity stands on it, so that writing
        an entity's cell never throws. */
    ghost predicate Valid()
      reads this
    {
      && GridItems.Length0 == GridSize && GridItems.Length1 == GridSize
      && (forall i :: 0 <= i < |BrickWalls| ==> InGrid(BrickWalls[i].location))
      && (forall i :: 0 <= i < |StoneWalls| ==> InGrid(StoneWalls[i].location))
      && (forall i :: 0 <= i < |Waters| ==> InGrid(Waters[i].location))
      && (forall i :: 0 <= i < |Tanks| ==> InGrid(Tanks[i].location))
      && (forall i :: 0 <= i < |Coinpacks| ==> InGrid(Coinpacks[i].location))
      && (forall i :: 0 <= i < |Lifepacks| ==> InGrid(Lifepacks[i].location))
    }

    /** One brick of health 4 per brick point, one stone and one water per
        point, in input order, each written into its cell; no tanks or pickups. */
    constructor (bricks: seq<Point>, stones: seq<Point>, waters: seq<Point>)
      requires AllInGrid(bricks) && AllInGrid(stones) && AllInGrid(waters)
      ensures Valid() && fresh(GridItems)
      ensures BrickWalls == NewBricks(bricks, InitialBrickHealth)
      ensures StoneWalls == NewStones(stones) && Waters == NewWaters(waters)
      ensures Tanks == [] && Coinpacks == [] && Lifepacks == []
      ensures forall x, y :: InBounds(x, y) ==> GridItems[x, y] == InitialCell(bricks, stones, waters, Point(x, y))
    {
      GridItems := new Cell[GridSize, GridSize]((x, y) => None);
      BrickWalls := NewBricks(bricks, InitialBrickHealth);
      StoneWalls := NewStones(stones);
      Waters := NewWaters(waters);
      Tanks := [];
      Coinpacks := [];
      Lifepacks := [];
      new;
      Paint(GridItems, BrickItems(BrickWalls));
      Paint(GridItems, StoneItems(StoneWalls));
      Paint(GridItems, WaterItems(Waters));
    }

    /** The broadcast: player records, then damage records, then the two
        pickup clocks, each phase as its own loop below. */
    method Update(players: seq<PlayerDetails>, damages: seq<DamageDetails>, defaults: ConstructorDefaults,
                  coinTick: Coinpack -> Tick, lifeTick: Lifepack -> Tick)
      requires Valid()
      requires forall i :: 0 <= i < |players| ==> InGrid(players[i].location)
      requires DamagesApplicable(BrickWalls, damages)
      modifies this`Tanks, this`BrickWalls, this`Coinpacks, this`Lifepacks, GridItems
      ensures Valid()
      ensures Tanks == AfterPlayers(old(Tanks), players)
      ensures BrickWalls == AfterDamages(old(BrickWalls), damages)
      ensures Coinpacks == TickedCoinpacks(old(Coinpacks), coinTick)
      ensures Lifepacks == TickedLifepacks(old(Lifepacks), lifeTick)
      ensures forall x, y :: InBounds(x, y) ==>
                GridItems[x, y] ==
                  LifepacksTickCell(old(Lifepacks), lifeTick, Point(x, y),
                    CoinpacksTickCell(old(Coinpacks), coinTick, Point(x, y),
                      DamagesCell(old(BrickWalls), damages, Point(x, y),
                        PlayersCell(old(Tanks), players, defaults, Point(x, y), old(GridItems[x, y])))))
    {
      ApplyPlayers(players, defaults);
      ApplyDamages(damages);
      TickCoinpacks(coinTick);
      TickLifepacks(lifeTick);
    }

    /** The loop over the player records. */
    method ApplyPlayers(players: seq<PlayerDetails>, defaults: ConstructorDefaults)
      requires Valid()
      requires forall i :: 0 <= i < |players| ==> InGrid(players[i].location)
      modifies this`Tanks, GridItems
      ensures Valid()
      ensures Tanks == AfterPlayers(old(Tanks), players)
      ensures forall x, y :: InBounds(x, y) ==>
                GridItems[x, y] == PlayersCell(old(Tanks), players, defaults, Point(x, y), old(GridItems[x, y]))
    {
      ghost var tanks0 := Tanks;
      var k := 0;
      while k < |players|
        invariant 0 <= k <= |players|
        invariant Valid()
        invariant Tanks == AfterPlayers(tanks0, players[..k])
        invariant forall x, y :: InBounds(x, y) ==>
                    GridItems[x, y] == PlayersCell(tanks0, players[..k], defaults, Point(x, y), old(GridItems[x, y]))
      {
        ApplyRecord(players[k], defaults);
        assert players[..k + 1][..k] == players[..k];
        k := k + 1;
      }
      assert players[..k] == players;
    }

    /** The loop over the damage records. */
    method ApplyDamages(damages: seq<DamageDetails>)
      requires Valid()
      requires DamagesApplicable(BrickWalls, damages)
      modifies this`BrickWalls, GridItems
      ensures Valid()
      ensures BrickWalls == AfterDamages(old(BrickWalls), damages)
      ensures forall x, y :: InBounds(x, y) ==>
                GridItems[x, y] == DamagesCell(old(BrickWalls), damages, Point(x, y), old(GridItems[x, y]))
    {
      ghost var bricks0 := BrickWalls;
      var k := 0;
      while k < |damages|
        invariant 0 <= k <= |damages|
        invariant Valid()
        invariant BrickWalls == AfterDamages(bricks0, damages[..k])
        invariant forall x, y :: InBounds(x, y) ==>
                    GridItems[x, y] == DamagesCell(bricks0, damages[..k], Point(x, y), old(GridItems[x, y]))
      {
        ApplicablePrefix(bricks0, damages, k);
        ApplyDamage(damages[k]);
        assert damages[..k + 1][..k] == damages[..k];
        k := k + 1;
      }
      assert damages[..k] == damages;
    }

    /** The body of the loop over the player records. */
    method ApplyRecord(d: PlayerDetails, defaults: ConstructorDefaults)
      requires Valid() && InGrid(d.location)
      modifies this`Tanks, GridItems
      ensures Valid()
      ensures Tanks == TanksAfterRecord(old(Tanks), d)
      ensures forall x, y :: InBounds(x, y) ==>
                GridItems[x, y] == CellAfterRecord(old(Tanks), d, defaults, Point(x, y), old(GridItems[x, y]))
    {
      var found := FirstTank(Tanks, d.playerNumber);
      var tank;
      if found.None? {
        tank := Tank(d.location, d.health, d.facingDirection, d.points, d.coins, d.playerNumber,
                     defaults.tankIsShot, defaults.tankIsControlled);
      } else {
        tank := Tanks[found.value];
        GridItems[tank.location.x, tank.location.y] := None;
      }
      tank := tank.(location := d.location);
      tank := tank.(health := d.health);
      tank := tank.(coins := d.coins);
      tank := tank.(direction := d.facingDirection);
      tank := tank.(points := d.points);
      if found.Some? {
        Tanks := Tanks[found.value := tank];
      }
      GridItems[tank.location.x, tank.location.y] := Some(TankItem(tank));
    }

    /** The body of the loop over the damage records. */
    method ApplyDamage(d: DamageDetails)
      requires Valid() && HasBrick(BrickWalls, d.location)
      modifies this`BrickWalls, GridItems
      ensures Valid()
      ensures BrickWalls == BricksAfterDamage(old(BrickWalls), d)
      ensures forall x, y :: InBounds(x, y) ==>
                GridItems[x, y] == CellAfterDamage(old(BrickWalls), d, Point(x, y), old(GridItems[x, y]))
    {
      var i := FirstBrick(BrickWalls, d.location);
      var brick := BrickWalls[i];
      var damaged := brick.(health := DamagedHealth(d.damageLevel));
      if damaged.health != 0 {
        BrickWalls := BrickWalls[i := damaged];
        if GridItems[brick.location.x, brick.location.y] == Some(BrickItem(brick)) {
          GridItems[brick.location.x, brick.location.y] := Some(BrickItem(damaged));
        }
      } else {
        BrickWalls := BrickWalls[..i] + BrickWalls[i + 1..];
        GridItems[brick.location.x, brick.location.y] := None;
      }
    }

    /** The coin packs' clocks, as a filter over the list. */
    method TickCoinpacks(tick: Coinpack -> Tick)
      requires Valid()
      modifies this`Coinpacks, GridItems
      ensures Valid()
      ensures Coinpacks == TickedCoinpacks(old(Coinpacks), tick)
      ensures forall x, y :: InBounds(x, y) ==>
                GridItems[x, y] == CoinpacksTickCell(old(Coinpacks), tick, Point(x, y), old(GridItems[x, y]))
    {
      var all := Coinpacks;
      var kept := [];
      var k := 0;
      while k < |all|
        invariant 0 <= k <= |all|
        invariant kept == TickedCoinpacks(all[..k], tick)
        invariant forall i :: 0 <= i < |kept| ==> InGrid(kept[i].location)
        invariant forall x, y :: InBounds(x, y) ==>
                    GridItems[x, y] == CoinpacksTickCell(all[..k], tick, Point(x, y), old(GridItems[x, y]))
      {
        var c := all[k];
        var t := tick(c);
        if t.expired {
          GridItems[c.location.x, c.location.y] := None;
        } else {
          var ticked := c.(timeToDisappear := t.timeToDisappear);
          kept := kept + [ticked];
          if GridItems[c.location.x, c.location.y] == Some(CoinpackItem(c)) {
            GridItems[c.location.x, c.location.y] := Some(CoinpackItem(ticked));
          }
        }
        assert all[..k + 1][..k] == all[..k];
        k := k + 1;
      }
      assert all[..k] == all;
      Coinpacks := kept;
    }

    /** The life packs' clocks, as a filter over the list. */
    method TickLifepacks(tick: Lifepack -> Tick)
      requires Valid()
      modifies this`Lifepacks, GridItems
      ensures Valid()
      ensures Lifepacks == TickedLifepacks(old(Lifepacks), tick)
      ensures forall x, y :: InBounds(x, y) ==>
                GridItems[x, y] == LifepacksTickCell(old(Lifepacks), tick, Point(x, y), old(GridItems[x, y]))
    {
      var all := Lifepacks;
      var kept := [];
      var k := 0;
      while k < |all|
        invariant 0 <= k <= |all|
        invariant kept == TickedLifepacks(all[..k], tick)
        invariant forall i :: 0 <= i < |kept| ==> InGrid(kept[i].location)
        invariant forall x, y :: InBounds(x, y) ==>
                    GridItems[x, y] == LifepacksTickCell(all[..k], tick, Point(x, y), old(GridItems[x, y]))
      {
        var l := all[k];
        var t := tick(l);
        if t.expired {
          GridItems[l.location.x, l.location.y] := None;
        } else {
          var ticked := l.(timeToDisappear := t.timeToDisappear);
          kept := kept + [ticked];
          if GridItems[l.location.x, l.location.y] == Some(LifepackItem(l)) {
            GridItems[l.location.x, l.location.y] := Some(LifepackItem(ticked));
          }
        }
        assert all[..k + 1][..k] == all[..k];
        k := k + 1;
      }
      assert all[..k] == all;
      Lifepacks := kept;
    }

    /** A life pack of health value 5 is appended and shown on its cell. */
    method ShowLifepack(location: Point, remainingTime: int)
      requires Valid() && InGrid(location)
      modifies this`Lifepacks, GridItems
      ensures Valid()
      ensures Lifepacks == old(Lifepacks) + [Lifepack(location, ShownLifepackHealth, remainingTime)]
      ensures GridItems[location.x, location.y] == Some(LifepackItem(Lifepack(location, ShownLifepackHealth, remainingTime)))
      ensures forall x, y :: InBounds(x, y) && Point(x, y) != location ==> GridItems[x, y] == old(GridItems[x, y])
    {
      var lifepack := Lifepack(location, ShownLifepackHealth, remainingTime);
      Lifepacks := Lifepacks + [lifepack];
      GridItems[location.x, location.y] := Some(LifepackItem(lifepack));
    }

    /** A coin pack is appended and shown on its cell. */
    method ShowCoinpack(location: Point, coinValue: int, remainingTime: int)
      requires Valid() && InGrid(location)
      modifies this`Coinpacks, GridItems
      ensures Valid()
      ensures Coinpacks == old(Coinpacks) + [Coinpack(location, coinValue, remainingTime)]
      ensures GridItems[location.x, location.y] == Some(CoinpackItem(Coinpack(location, coinValue, remainingTime)))
      ensures forall x, y :: InBounds(x, y) && Point(x, y) != location ==> GridItems[x, y] == old(GridItems[x, y])
    {
      var coinpack := Coinpack(location, coinValue, remainingTime);
      Coinpacks := Coinpacks + [coinpack];
      GridItems[location.x, location.y] := Some(CoinpackItem(coinpack));
    }

    /** The client's own tank is appended and shown on its cell. */
    method SetMyTank(myTank: Tank)
      requires Valid() && InGrid(myTank.location)
      modifies this`Tanks, GridItems
      ensures Valid()
      ensures Tanks == old(Tanks) + [myTank]
      ensures GridItems[myTank.location.x, myTank.location.y] == Some(TankItem(myTank))
      ensures forall x, y :: InBounds(x, y) && Point(x, y) != myTank.location ==> GridItems[x, y] == old(GridItems[x, y])
    {
      Tanks := Tanks + [myTank];
      GridItems[myTank.location.x, myTank.location.y] := Some(TankItem(myTank));
    }
  }

  /** Applicability of a list of records carries over to its prefixes, and
      the next record finds its brick. */
  lemma {:induction false} ApplicablePrefix(bricks: seq<BrickWall>, damages: seq<DamageDetails>, k: nat)
    requires DamagesApplicable(bricks, damages) && k < |damages|
    ensures DamagesApplicable(bricks, damages[..k])
    ensures HasBrick(AfterDamages(bricks, damages[..k]), damages[k].location)
    decreases |damages|
  {
    var n := |damages|;
    if k == n - 1 {
      assert damages[..n - 1] == damages[..k];
    } else {
      ApplicablePrefix(bricks, damages[..n - 1], k);
      assert damages[..n - 1][..k] == damages[..k];
      assert damages[..n - 1][k] == damages[k];
    }
  }
}
