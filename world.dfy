/** The immutable world snapshot of `Engine/World.cs`. A snapshot is its
    player number and six collections; its `GridItems` array is painted from
    them when the snapshot is built and never changes afterwards. The pure
    functions below say what each `From*Message` builds; the `World` class
    builds it the way the C# object initialisers do, setter by setter. */
module WorldModel {
  import opened Wrappers
  import opened Entities
  import opened Messages
  import Parsing

  /** The collections of a `World`, in the order its object initialisers assign them. */
  datatype WorldContents = WorldContents(
    playerNumber: int,
    bricks: seq<BrickWall>,
    stones: seq<StoneWall>,
    waters: seq<Water>,
    tanks: seq<Tank>,
    coinpacks: seq<Coinpack>,
    lifepacks: seq<Lifepack>)

  /** The cell `GridItems[p.X, p.Y]` of a snapshot with these collections:
      the setters paint the collections one after the other, so a later
      collection overwrites an earlier one where both have an item. */
  function CellAt(w: WorldContents, p: Point): Cell {
    Overlay(Overlay(CellBelowPickups(w, p), CoinpackItems(w.coinpacks), p), LifepackItems(w.lifepacks), p)
  }

  /** The cell once the walls and water have been painted. */
  function CellBelowTanks(w: WorldContents, p: Point): Cell {
    Overlay(Overlay(Overlay(None, BrickItems(w.bricks), p), StoneItems(w.stones), p), WaterItems(w.waters), p)
  }

  /** The cell once the tanks have been painted too. */
  function CellBelowPickups(w: WorldContents, p: Point): Cell {
    Overlay(CellBelowTanks(w, p), TankItems(w.tanks), p)
  }

  predicate PointsInGrid(ps: seq<Point>) {
    forall i :: 0 <= i < |ps| ==> InGrid(ps[i])
  }

  /** Every entity stands inside the grid, so painting it does not throw. */
  predicate WellPlaced(w: WorldContents) {
    && (forall i :: 0 <= i < |w.bricks| ==> InGrid(w.bricks[i].location))
    && (forall i :: 0 <= i < |w.stones| ==> InGrid(w.stones[i].location))
    && (forall i :: 0 <= i < |w.waters| ==> InGrid(w.waters[i].location))
    && (forall i :: 0 <= i < |w.tanks| ==> InGrid(w.tanks[i].location))
    && (forall i :: 0 <= i < |w.coinpacks| ==> InGrid(w.coinpacks[i].location))
    && (forall i :: 0 <= i < |w.lifepacks| ==> InGrid(w.lifepacks[i].location))
  }

  /** A tank is the client's own exactly when it carries the snapshot's player number. */
  predicate ControlFlagsAgree(w: WorldContents) {
    forall i :: 0 <= i < |w.tanks| ==> (w.tanks[i].isControlled <==> w.tanks[i].playerNumber == w.playerNumber)
  }

  // ---------------------------------------------------------------- initiation

  function NewBricks(points: seq<Point>, health: int): (r: seq<BrickWall>)
    ensures |r| == |points| && forall i :: 0 <= i < |points| ==> r[i] == BrickWall(health, points[i])
    decreases |points|
  {
    if |points| == 0 then [] else [BrickWall(health, points[0])] + NewBricks(points[1..], health)
  }

  function NewStones(points: seq<Point>): (r: seq<StoneWall>)
    ensures |r| == |points| && forall i :: 0 <= i < |points| ==> r[i] == StoneWall(points[i])
    decreases |points|
  {
    if |points| == 0 then [] else [StoneWall(points[0])] + NewStones(points[1..])
  }

  function NewWaters(points: seq<Point>): (r: seq<Water>)
    ensures |r| == |points| && forall i :: 0 <= i < |points| ==> r[i] == Water(points[i])
    decreases |points|
  {
    if |points| == 0 then [] else [Water(points[0])] + NewWaters(points[1..])
  }

  /** `FromInitiationMessage`: the player number comes from the message, one
      brick, stone or water stands on each of its points, and there are no
      tanks and no pickups. */
  function InitiationWorld(message: Message, defaults: ConstructorDefaults): (r: WorldContents)
    requires message.Initiation?
    ensures r.playerNumber == message.playerNumber
    ensures |r.bricks| == |message.bricks| && |r.stones| == |message.stones| && |r.waters| == |message.waters|
    ensures forall i :: 0 <= i < |message.bricks| ==> r.bricks[i].location == message.bricks[i]
    ensures forall i :: 0 <= i < |message.stones| ==> r.stones[i].location == message.stones[i]
    ensures forall i :: 0 <= i < |message.waters| ==> r.waters[i].location == message.waters[i]
    ensures r.tanks == [] && r.coinpacks == [] && r.lifepacks == []
  {
    WorldContents(message.playerNumber, NewBricks(message.bricks, defaults.brickHealth),
                  NewStones(message.stones), NewWaters(message.waters), [], [], [])
  }

  // ---------------------------------------------------------------- join

  function JoinTanks(details: seq<JoinDetails>, playerNumber: int, defaults: ConstructorDefaults): (r: seq<Tank>)
    ensures |r| == |details|
    ensures forall i :: 0 <= i < |details| ==>
              r[i] == Tank(details[i].location, defaults.tankHealth, details[i].facingDirection,
                           defaults.tankPoints, defaults.tankCoins, details[i].playerNumber,
                           false, details[i].playerNumber == playerNumber)
    decreases |details|
  {
    if |details| == 0 then []
    else
      [Tank(details[0].location, defaults.tankHealth, details[0].facingDirection,
            defaults.tankPoints, defaults.tankCoins, details[0].playerNumber,
            false, details[0].playerNumber == playerNumber)]
      + JoinTanks(details[1..], playerNumber, defaults)
  }

  /** `FromJoinMessage`: the walls, water and player number carry over, there
      is one unshot tank per joined player, controlled exactly when it is the
      client's own, and no pickups. */
  function JoinWorld(prev: WorldContents, message: Message, defaults: ConstructorDefaults): (r: WorldContents)
    requires message.Join?
    ensures r.playerNumber == prev.playerNumber
    ensures r.bricks == prev.bricks && r.stones == prev.stones && r.waters == prev.waters
    ensures |r.tanks| == |message.tanksDetails|
    ensures forall i :: 0 <= i < |r.tanks| ==>
              && r.tanks[i].location == message.tanksDetails[i].location
              && r.tanks[i].playerNumber == message.tanksDetails[i].playerNumber
              && r.tanks[i].direction == message.tanksDetails[i].facingDirection
              && !r.tanks[i].isShot
              && (r.tanks[i].isControlled <==> message.tanksDetails[i].playerNumber == prev.playerNumber)
    ensures r.coinpacks == [] && r.lifepacks == []
  {
    WorldContents(prev.playerNumber, prev.bricks, prev.stones, prev.waters,
                  JoinTanks(message.tanksDetails, prev.playerNumber, defaults), [], [])
  }

  // ---------------------------------------------------------------- broadcast

  /** What `Debug.Assert(oldBrickWall != null)` demands: each damage record
      names a cell of the old grid that holds a brick wall. */
  predicate DamagesOnBricks(prev: WorldContents, damages: seq<DamageDetails>) {
    forall i :: 0 <= i < |damages| ==>
      CellAt(prev, damages[i].location).Some? && CellAt(prev, damages[i].location).value.BrickItem?
  }

  /** The new brick collection: one copy of the old brick per damage record. */
  function DamagedBricks(prev: WorldContents, damages: seq<DamageDetails>): (r: seq<BrickWall>)
    requires DamagesOnBricks(prev, damages)
    ensures |r| == |damages|
    ensures forall i :: 0 <= i < |damages| ==>
              && r[i].location == damages[i].location
              && r[i].health == CellAt(prev, damages[i].location).value.brick.health
    decreases |damages|
  {
    if |damages| == 0 then []
    else
      var oldBrick := CellAt(prev, damages[0].location).value.brick;
      assert forall i :: 0 <= i < |damages| - 1 ==> damages[1..][i] == damages[i + 1];
      [BrickWall(oldBrick.health, oldBrick.location)] + DamagedBricks(prev, damages[1..])
  }

  function BroadcastTanks(details: seq<PlayerDetails>, playerNumber: int): (r: seq<Tank>)
    ensures |r| == |details|
    ensures forall i :: 0 <= i < |details| ==>
              r[i] == Tank(details[i].location, details[i].health, details[i].facingDirection,
                           details[i].points, details[i].coins, details[i].playerNumber,
                           details[i].isShot, details[i].playerNumber == playerNumber)
    decreases |details|
  {
    if |details| == 0 then []
    else
      [Tank(details[0].location, details[0].health, details[0].facingDirection,
            details[0].points, details[0].coins, details[0].playerNumber,
            details[0].isShot, details[0].playerNumber == playerNumber)]
      + BroadcastTanks(details[1..], playerNumber)
  }

  /** `tanks.Select(tank => tank.Location).Contains(p)` */
  predicate OnTank(p: Point, tanks: seq<Tank>) {
    exists i :: 0 <= i < |tanks| && tanks[i].location == p
  }

  predicate CoinpackSurvives(c: Coinpack, tanks: seq<Tank>) {
    c.timeToDisappear > 1 && !OnTank(c.location, tanks)
  }

  predicate LifepackSurvives(l: Lifepack, tanks: seq<Tank>) {
    l.timeToDisappear > 1 && !OnTank(l.location, tanks)
  }

  function TickedCoinpack(c: Coinpack): Coinpack {
    Coinpack(c.location, c.coinValue, c.timeToDisappear - 1)
  }

  function TickedLifepack(l: Lifepack): Lifepack {
    Lifepack(l.location, l.healthValue, l.timeToDisappear - 1)
  }

  /** The broadcast's decay of the coin packs: no survivor has run out or
      stands under a tank. */
  function DecayCoinpacks(cs: seq<Coinpack>, tanks: seq<Tank>): (r: seq<Coinpack>)
    ensures |r| <= |cs|
    ensures forall k :: 0 <= k < |r| ==> r[k].timeToDisappear >= 1 && !OnTank(r[k].location, tanks)
    decreases |cs|
  {
    if |cs| == 0 then []
    else (if CoinpackSurvives(cs[0], tanks) then [TickedCoinpack(cs[0])] else []) + DecayCoinpacks(cs[1..], tanks)
  }

  /** The broadcast's decay of the life packs, as for coin packs. */
  function DecayLifepacks(ls: seq<Lifepack>, tanks: seq<Tank>): (r: seq<Lifepack>)
    ensures |r| <= |ls|
    ensures forall k :: 0 <= k < |r| ==> r[k].timeToDisappear >= 1 && !OnTank(r[k].location, tanks)
    decreases |ls|
  {
    if |ls| == 0 then []
    else (if LifepackSurvives(ls[0], tanks) then [TickedLifepack(ls[0])] else []) + DecayLifepacks(ls[1..], tanks)
  }

  /** `FromBroadcastMessage`: stones, water and the player number carry over;
      the tanks are rebuilt from the player records with the control flag
      recomputed; the bricks are one per damage record, each keeping the old
      brick's health; the pickups decay. */
  function BroadcastWorld(prev: WorldContents, message: Message): (r: WorldContents)
    requires message.Broadcast? && DamagesOnBricks(prev, message.damagesDetails)
    ensures r.playerNumber == prev.playerNumber && r.stones == prev.stones && r.waters == prev.waters
    ensures |r.bricks| == |message.damagesDetails|
    ensures forall i :: 0 <= i < |r.bricks| ==>
              && r.bricks[i].location == message.damagesDetails[i].location
              && r.bricks[i].health == CellAt(prev, message.damagesDetails[i].location).value.brick.health
    ensures r.bricks == DamagedBricks(prev, message.damagesDetails)
    ensures |r.tanks| == |message.playersDetails|
    ensures forall i :: 0 <= i < |r.tanks| ==>
              var d := message.playersDetails[i];
              r.tanks[i] == Tank(d.location, d.health, d.facingDirection, d.points, d.coins, d.playerNumber,
                                 d.isShot, d.playerNumber == prev.playerNumber)
    ensures r.tanks == BroadcastTanks(message.playersDetails, prev.playerNumber)
    ensures r.coinpacks == DecayCoinpacks(prev.coinpacks, r.tanks)
    ensures r.lifepacks == DecayLifepacks(prev.lifepacks, r.tanks)
  {
    var tanks := BroadcastTanks(message.playersDetails, prev.playerNumber);
    WorldContents(prev.playerNumber, DamagedBricks(prev, message.damagesDetails), prev.stones, prev.waters,
                  tanks, DecayCoinpacks(prev.coinpacks, tanks), DecayLifepacks(prev.lifepacks, tanks))
  }

  // ---------------------------------------------------------------- pickups appearing

  /** `FromCoinpackMessage`: the coin pack is appended, everything else carries over. */
  function CoinpackWorld(prev: WorldContents, message: Message): (r: WorldContents)
    requires message.CoinpackAppeared?
    ensures r.coinpacks == prev.coinpacks + [Coinpack(message.location, message.coinValue, message.remainingTime)]
    ensures r == prev.(coinpacks := r.coinpacks)
  {
    prev.(coinpacks := prev.coinpacks + [Coinpack(message.location, message.coinValue, message.remainingTime)])
  }

  /** `FromLifepackMessage`: the life pack is appended, everything else carries over. */
  function LifepackWorld(prev: WorldContents, message: Message, defaults: ConstructorDefaults): (r: WorldContents)
    requires message.LifepackAppeared?
    ensures r.lifepacks == prev.lifepacks + [Lifepack(message.location, defaults.lifepackHealthValue, message.remainingTime)]
    ensures r == prev.(lifepacks := r.lifepacks)
  {
    prev.(lifepacks := prev.lifepacks + [Lifepack(message.location, defaults.lifepackHealthValue, message.remainingTime)])
  }

  // ---------------------------------------------------------------- dispatch

  /** What `FromMessage` demands beyond the message itself: only a broadcast
      reads the old grid. `None` is a null message. */
  predicate Applicable(prev: WorldContents, message: Option<Message>) {
    message.Some? && message.value.Broadcast? ==> DamagesOnBricks(prev, message.value.damagesDetails)
  }

  /** `FromMessage`: the snapshot that follows `prev` on `message`. Failures and
      unknown (null) messages leave the snapshot as it is; only an initiation
      changes the player number, the stones or the water. */
  function NextWorld(prev: WorldContents, message: Option<Message>, defaults: ConstructorDefaults): (r: WorldContents)
    requires Applicable(prev, message)
    ensures (message.None? || message.value.JoinFail? || message.value.CommandFail?) ==> r == prev
    ensures r.playerNumber == (if message.Some? && message.value.Initiation? then message.value.playerNumber
                               else prev.playerNumber)
    ensures !(message.Some? && message.value.Initiation?) ==> r.stones == prev.stones && r.waters == prev.waters
  {
    match message
    case None => prev
    case Some(m) =>
      match m
      case Initiation(_, _, _, _) => InitiationWorld(m, defaults)
      case Join(_) => JoinWorld(prev, m, defaults)
      case JoinFail(_) => prev
      case Broadcast(_, _) => BroadcastWorld(prev, m)
      case LifepackAppeared(_, _) => LifepackWorld(prev, m, defaults)
      case CoinpackAppeared(_, _, _) => CoinpackWorld(prev, m)
      case CommandFail(_) => prev
  }

  // ---------------------------------------------------------------- the grid

  /** Every point a message asks the setters to paint, or asks the broadcast
      to look up, lies inside the 20x20 grid; indexing `GridItems` at any
      other point throws. */
  predicate MessageFits(message: Option<Message>) {
    message.Some? ==>
      match message.value
      case Initiation(_, bricks, stones, waters) => PointsInGrid(bricks) && PointsInGrid(stones) && PointsInGrid(waters)
      case Join(details) => forall i :: 0 <= i < |details| ==> InGrid(details[i].location)
      case Broadcast(players, damages) =>
        && (forall i :: 0 <= i < |players| ==> InGrid(players[i].location))
        && (forall i :: 0 <= i < |damages| ==> InGrid(damages[i].location))
      case LifepackAppeared(location, _) => InGrid(location)
      case CoinpackAppeared(location, _, _) => InGrid(location)
      case JoinFail(_) => true
      case CommandFail(_) => true
  }

  lemma {:induction false} DecayCoinpacksPlaced(cs: seq<Coinpack>, tanks: seq<Tank>)
    requires forall i :: 0 <= i < |cs| ==> InGrid(cs[i].location)
    ensures forall k :: 0 <= k < |DecayCoinpacks(cs, tanks)| ==> InGrid(DecayCoinpacks(cs, tanks)[k].location)
    decreases |cs|
  {
    if |cs| > 0 {
      DecayCoinpacksPlaced(cs[1..], tanks);
    }
  }

  lemma {:induction false} DecayLifepacksPlaced(ls: seq<Lifepack>, tanks: seq<Tank>)
    requires forall i :: 0 <= i < |ls| ==> InGrid(ls[i].location)
    ensures forall k :: 0 <= k < |DecayLifepacks(ls, tanks)| ==> InGrid(DecayLifepacks(ls, tanks)[k].location)
    decreases |ls|
  {
    if |ls| > 0 {
      DecayLifepacksPlaced(ls[1..], tanks);
    }
  }

  lemma InitiationWellPlaced(message: Message, defaults: ConstructorDefaults)
    requires message.Initiation? && MessageFits(Some(message))
    ensures WellPlaced(InitiationWorld(message, defaults))
  {
  }

  lemma JoinWellPlaced(prev: WorldContents, message: Message, defaults: ConstructorDefaults)
    requires WellPlaced(prev) && message.Join? && MessageFits(Some(message))
    ensures WellPlaced(JoinWorld(prev, message, defaults))
  {
  }

  lemma BroadcastWellPlaced(prev: WorldContents, message: Message)
    requires WellPlaced(prev) && message.Broadcast? && MessageFits(Some(message))
    requires DamagesOnBricks(prev, message.damagesDetails)
    ensures WellPlaced(BroadcastWorld(prev, message))
  {
    var r := BroadcastWorld(prev, message);
    DecayCoinpacksPlaced(prev.coinpacks, r.tanks);
    DecayLifepacksPlaced(prev.lifepacks, r.tanks);
  }

  lemma PackWellPlaced(prev: WorldContents, message: Message, defaults: ConstructorDefaults)
    requires WellPlaced(prev) && (message.CoinpackAppeared? || message.LifepackAppeared?) && MessageFits(Some(message))
    ensures message.CoinpackAppeared? ==> WellPlaced(CoinpackWorld(prev, message))
    ensures message.LifepackAppeared? ==> WellPlaced(LifepackWorld(prev, message, defaults))
  {
  }

  /** A snapshot built from a well-placed one by a message whose points all
      fit is well placed again, so the setters never index outside the grid. */
  lemma NextWorldWellPlaced(prev: WorldContents, message: Option<Message>, defaults: ConstructorDefaults)
    requires Applicable(prev, message) && MessageFits(message)
    requires (message.Some? && !message.value.Initiation?) ==> WellPlaced(prev)
    ensures message.Some? ==> WellPlaced(NextWorld(prev, message, defaults))
  {
    if message.Some? {
      match message.value
      case Initiation(_, _, _, _) => InitiationWellPlaced(message.value, defaults);
      case Join(_) => JoinWellPlaced(prev, message.value, defaults);
      case Broadcast(_, _) => BroadcastWellPlaced(prev, message.value);
      case LifepackAppeared(_, _) => PackWellPlaced(prev, message.value, defaults);
      case CoinpackAppeared(_, _, _) => PackWellPlaced(prev, message.value, defaults);
      case JoinFail(_) =>
      case CommandFail(_) =>
    }
  }

  /** A message that builds a fresh snapshot from the old one, as opposed to
      an initiation (which needs no old snapshot) or a failure or null
      (which hand the old one back). */
  predicate Rebuilds(message: Option<Message>) {
    message.Some? && (message.value.Join? || message.value.Broadcast?
                      || message.value.LifepackAppeared? || message.value.CoinpackAppeared?)
  }

  /** A `World` object. Its collections are assigned once, by the private
      setters of an object initialiser, and each setter paints its
      collection onto `GridItems`. */
  class World {
    const PlayerNumber: int
    const GridItems: array2<Cell>
    var BrickWalls: seq<BrickWall>
    var StoneWalls: seq<StoneWall>
    var Waters: seq<Water>
    var Tanks: seq<Tank>
    var Coinpacks: seq<Coinpack>
    var Lifepacks: seq<Lifepack>

    function Contents(): WorldContents
      reads this
    {
      WorldContents(PlayerNumber, BrickWalls, StoneWalls, Waters, Tanks, Coinpacks, Lifepacks)
    }

    predicate HasGrid() {
      GridItems.Length0 == GridSize && GridItems.Length1 == GridSize
    }

    /** The grid is the projection of the collections: each cell holds the
        last item, in initialiser order, that stands on it, and null if none does. */
    ghost predicate Projects()
      reads this, GridItems
    {
      && HasGrid()
      && forall x, y :: 0 <= x < GridSize && 0 <= y < GridSize ==>
           GridItems[x, y] == CellAt(Contents(), Point(x, y))
    }

    ghost predicate Valid()
      reads this, GridItems
    {
      Projects() && WellPlaced(Contents())
    }

    /** `private World(int playerNumber)`: a fresh empty grid and empty collections. */
    constructor (playerNumber: int)
      ensures PlayerNumber == playerNumber && Contents() == WorldContents(playerNumber, [], [], [], [], [], [])
      ensures Projects() && fresh(GridItems)
    {
      PlayerNumber := playerNumber;
      GridItems := new Cell[GridSize, GridSize]((x, y) => None);
      BrickWalls, StoneWalls, Waters := [], [], [];
      Tanks, Coinpacks, Lifepacks := [], [], [];
    }

    /** The private setters: each assigns its collection and paints it onto
        the grid. They are called only from object initialisers, in this
        order, on a fresh `World`, so the collections after theirs are still
        empty and the grid stays the projection of the collections. */
    method SetBrickWalls(value: seq<BrickWall>)
      requires Projects() && BrickWalls == [] && StoneWalls == [] && Waters == [] && Tanks == [] && Coinpacks == [] && Lifepacks == []
      requires forall i :: 0 <= i < |value| ==> InGrid(value[i].location)
      modifies this`BrickWalls, GridItems
      ensures BrickWalls == value && Projects()
    {
      BrickWalls := value;
      Paint(GridItems, BrickItems(value));
    }

    method SetStoneWalls(value: seq<StoneWall>)
      requires Projects() && StoneWalls == [] && Waters == [] && Tanks == [] && Coinpacks == [] && Lifepacks == []
      requires forall i :: 0 <= i < |value| ==> InGrid(value[i].location)
      modifies this`StoneWalls, GridItems
      ensures StoneWalls == value && Projects()
    {
      StoneWalls := value;
      Paint(GridItems, StoneItems(value));
    }

    method SetWaters(value: seq<Water>)
      requires Projects() && Waters == [] && Tanks == [] && Coinpacks == [] && Lifepacks == []
      requires forall i :: 0 <= i < |value| ==> InGrid(value[i].location)
      modifies this`Waters, GridItems
      ensures Waters == value && Projects()
    {
      Waters := value;
      Paint(GridItems, WaterItems(value));
    }

    method SetTanks(value: seq<Tank>)
      requires Projects() && Tanks == [] && Coinpacks == [] && Lifepacks == []
      requires forall i :: 0 <= i < |value| ==> InGrid(value[i].location)
      modifies this`Tanks, GridItems
      ensures Tanks == value && Projects()
    {
      Tanks := value;
      Paint(GridItems, TankItems(value));
    }

    method SetCoinpacks(value: seq<Coinpack>)
      requires Projects() && Coinpacks == [] && Lifepacks == []
      requires forall i :: 0 <= i < |value| ==> InGrid(value[i].location)
      modifies this`Coinpacks, GridItems
      ensures Coinpacks == value && Projects()
    {
      Coinpacks := value;
      Paint(GridItems, CoinpackItems(value));
    }

    method SetLifepacks(value: seq<Lifepack>)
      requires Projects() && Lifepacks == []
      requires forall i :: 0 <= i < |value| ==> InGrid(value[i].location)
      modifies this`Lifepacks, GridItems
      ensures Lifepacks == value && Projects()
    {
      Lifepacks := value;
      Paint(GridItems, LifepackItems(value));
    }

    /** An object initialiser `new World(n) { BrickWalls = ..., ..., Lifepacks = ... }`.
        An initialiser that leaves a collection out keeps the empty set of
        its field initialiser; here it is assigned empty, which paints nothing. */
    static method Build(contents: WorldContents) returns (w: World)
      requires WellPlaced(contents)
      ensures fresh(w) && fresh(w.GridItems) && w.Valid() && w.Contents() == contents
    {
      w := new World(contents.playerNumber);
      w.SetBrickWalls(contents.bricks);
      w.SetStoneWalls(contents.stones);
      w.SetWaters(contents.waters);
      w.SetTanks(contents.tanks);
      w.SetCoinpacks(contents.coinpacks);
      w.SetLifepacks(contents.lifepacks);
    }

    static method FromInitiationMessage(message: Message, defaults: ConstructorDefaults) returns (w: World)
      requires message.Initiation? && MessageFits(Some(message))
      ensures fresh(w) && fresh(w.GridItems) && w.Valid()
      ensures w.Contents() == InitiationWorld(message, defaults)
    {
      var next := InitiationWorld(message, defaults);
      InitiationWellPlaced(message, defaults);
      w := Build(next);
    }

    static method FromJoinMessage(oldWorld: World, message: Message, defaults: ConstructorDefaults) returns (w: World)
      requires oldWorld.Valid() && message.Join? && MessageFits(Some(message))
      ensures fresh(w) && fresh(w.GridItems) && w.Valid()
      ensures w.Contents() == JoinWorld(oldWorld.Contents(), message, defaults)
    {
      var next := JoinWorld(oldWorld.Contents(), message, defaults);
      JoinWellPlaced(oldWorld.Contents(), message, defaults);
      w := Build(next);
    }

    static method FromBroadcastMessage(oldWorld: World, message: Message) returns (w: World)
      requires oldWorld.Valid() && message.Broadcast? && MessageFits(Some(message))
      requires DamagesOnBricks(oldWorld.Contents(), message.damagesDetails)
      ensures fresh(w) && fresh(w.GridItems) && w.Valid()
      ensures w.Contents() == BroadcastWorld(oldWorld.Contents(), message)
    {
      var next := BroadcastWorld(oldWorld.Contents(), message);
      BroadcastWellPlaced(oldWorld.Contents(), message);
      w := Build(next);
    }

    static method FromCoinpackMessage(oldWorld: World, message: Message) returns (w: World)
      requires oldWorld.Valid() && message.CoinpackAppeared? && MessageFits(Some(message))
      ensures fresh(w) && fresh(w.GridItems) && w.Valid()
      ensures w.Contents() == CoinpackWorld(oldWorld.Contents(), message)
    {
      var next := CoinpackWorld(oldWorld.Contents(), message);
      PackWellPlaced(oldWorld.Contents(), message, ConstructorDefaults(0, 0, 0, 0, false, false, 0));
      w := Build(next);
    }

    static method FromLifepackMessage(oldWorld: World, message: Message, defaults: ConstructorDefaults) returns (w: World)
      requires oldWorld.Valid() && message.LifepackAppeared? && MessageFits(Some(message))
      ensures fresh(w) && fresh(w.GridItems) && w.Valid()
      ensures w.Contents() == LifepackWorld(oldWorld.Contents(), message, defaults)
    {
      var next := LifepackWorld(oldWorld.Contents(), message, defaults);
      PackWellPlaced(oldWorld.Contents(), message, defaults);
      w := Build(next);
    }

    /** `FromMessage`: an initiation needs no old world; a failure or a null
        message hands the old world itself back; every other message builds
        a new world from the old one, and reading the player number of a
        null old world throws. */
    static method FromMessage(oldWorld: World?, message: Option<Message>, defaults: ConstructorDefaults)
      returns (r: Result<World?, Parsing.Exception>)
      requires MessageFits(message)
      requires Rebuilds(message) && oldWorld != null ==>
                 oldWorld.Valid() && Applicable(oldWorld.Contents(), message)
      ensures message.Some? && message.value.Initiation? ==>
                r.Success? && r.value != null && fresh(r.value) && r.value.Valid()
                && r.value.Contents() == InitiationWorld(message.value, defaults)
      ensures Rebuilds(message) && oldWorld == null ==> r == Failure(Parsing.NullReferenceException)
      ensures Rebuilds(message) && oldWorld != null ==>
                r.Success? && r.value != null && fresh(r.value) && r.value.Valid()
                && r.value.Contents() == NextWorld(oldWorld.Contents(), message, defaults)
      ensures (message.None? || message.value.JoinFail? || message.value.CommandFail?) ==> r == Success(oldWorld)
    {
      if message.None? {
        return Success(oldWorld);
      }
      if Rebuilds(message) && oldWorld == null {
        // every From* below starts with `new World(oldWorld.PlayerNumber)`
        return Failure(Parsing.NullReferenceException);
      }
      var w: World?;
      match message.value {
      case Initiation(_, _, _, _) =>
        w := FromInitiationMessage(message.value, defaults);
      case Join(_) =>
        w := FromJoinMessage(oldWorld, message.value, defaults);
      case JoinFail(_) =>
        w := oldWorld;
      case Broadcast(_, _) =>
        w := FromBroadcastMessage(oldWorld, message.value);
      case LifepackAppeared(_, _) =>
        w := FromLifepackMessage(oldWorld, message.value, defaults);
      case CoinpackAppeared(_, _, _) =>
        w := FromCoinpackMessage(oldWorld, message.value);
      case CommandFail(_) =>
        w := oldWorld;
      }
      r := Success(w);
    }
  }
}
