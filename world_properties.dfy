/** What the snapshot transitions of `World.cs` guarantee: which entity a
    grid cell shows, how pickups decay and vanish under tanks, what a
    broadcast does to the brick walls, and what `FromMessage` keeps. */
module WorldProperties {
  import opened Wrappers
  import opened Entities
  import opened Messages
  import opened WorldModel

  // ---------------------------------------------------------------- the projection

  /** The cell at `p` shows an item standing on `p`, taken from the last
      collection in initialiser order (bricks, stones, water, tanks, coin
      packs, life packs) that has one there; it is null when none has. */
  lemma CellAtLaterWins(w: WorldContents, p: Point)
    ensures var cell := CellAt(w, p);
      && (cell.Some? ==> cell.value.Location() == p)
      && (HasAt(LifepackItems(w.lifepacks), p) ==>
            cell.Some? && cell.value in LifepackItems(w.lifepacks))
      && (!HasAt(LifepackItems(w.lifepacks), p) && HasAt(CoinpackItems(w.coinpacks), p) ==>
            cell.Some? && cell.value in CoinpackItems(w.coinpacks))
      && (!HasAt(LifepackItems(w.lifepacks), p) && !HasAt(CoinpackItems(w.coinpacks), p)
          && HasAt(TankItems(w.tanks), p) ==>
            cell.Some? && cell.value in TankItems(w.tanks))
      && (!HasAt(LifepackItems(w.lifepacks), p) && !HasAt(CoinpackItems(w.coinpacks), p)
          && !HasAt(TankItems(w.tanks), p) && HasAt(WaterItems(w.waters), p) ==>
            cell.Some? && cell.value in WaterItems(w.waters))
      && (!HasAt(LifepackItems(w.lifepacks), p) && !HasAt(CoinpackItems(w.coinpacks), p)
          && !HasAt(TankItems(w.tanks), p) && !HasAt(WaterItems(w.waters), p)
          && HasAt(StoneItems(w.stones), p) ==>
            cell.Some? && cell.value in StoneItems(w.stones))
      && (!HasAt(LifepackItems(w.lifepacks), p) && !HasAt(CoinpackItems(w.coinpacks), p)
          && !HasAt(TankItems(w.tanks), p) && !HasAt(WaterItems(w.waters), p)
          && !HasAt(StoneItems(w.stones), p) && HasAt(BrickItems(w.bricks), p) ==>
            cell.Some? && cell.value in BrickItems(w.bricks))
      && (!HasAt(LifepackItems(w.lifepacks), p) && !HasAt(CoinpackItems(w.coinpacks), p)
          && !HasAt(TankItems(w.tanks), p) && !HasAt(WaterItems(w.waters), p)
          && !HasAt(StoneItems(w.stones), p) && !HasAt(BrickItems(w.bricks), p) ==>
            cell == None)
  {
    var afterBricks := Overlay(None, BrickItems(w.bricks), p);
    var afterStones := Overlay(afterBricks, StoneItems(w.stones), p);
    LayerLemma(None, BrickItems(w.bricks), p);
    LayerLemma(afterBricks, StoneItems(w.stones), p);
    LayerLemma(afterStones, WaterItems(w.waters), p);
    LayerLemma(CellBelowTanks(w, p), TankItems(w.tanks), p);
    LayerLemma(CellBelowPickups(w, p), CoinpackItems(w.coinpacks), p);
    LayerLemma(Overlay(CellBelowPickups(w, p), CoinpackItems(w.coinpacks), p), LifepackItems(w.lifepacks), p);
  }

  /** One layer of the projection: it covers the cell where it has an item
      and lets the cell below show through elsewhere. */
  lemma LayerLemma(under: Cell, items: seq<GridItem>, p: Point)
    ensures HasAt(items, p) ==>
              && Overlay(under, items, p).Some? && Overlay(under, items, p).value in items
              && Overlay(under, items, p).value.Location() == p
    ensures !HasAt(items, p) ==> Overlay(under, items, p) == under
  {
    if HasAt(items, p) {
      OverlayCovers(under, items, p);
    } else {
      OverlayMissing(under, items, p);
    }
  }

  /** After an initiation a cell shows the water on it, else the stone, else
      the brick, and is null when the message put nothing there. */
  lemma InitiationCells(message: Message, defaults: ConstructorDefaults, p: Point)
    requires message.Initiation?
    ensures var cell := CellAt(InitiationWorld(message, defaults), p);
      && (p in message.waters ==> cell == Some(WaterItem(Water(p))))
      && (p !in message.waters && p in message.stones ==> cell == Some(StoneItem(StoneWall(p))))
      && (p !in message.waters && p !in message.stones && p in message.bricks ==>
            cell == Some(BrickItem(BrickWall(defaults.brickHealth, p))))
      && (p !in message.waters && p !in message.stones && p !in message.bricks ==> cell == None)
  {
    var w := InitiationWorld(message, defaults);
    assert CellAt(w, p) == CellBelowTanks(w, p);
    var afterBricks := Overlay(None, BrickItems(w.bricks), p);
    BrickLayer(None, message.bricks, defaults.brickHealth, p);
    StoneLayer(afterBricks, message.stones, p);
    WaterLayer(Overlay(afterBricks, StoneItems(w.stones), p), message.waters, p);
  }

  /** The layer of bricks an initiation lays on `points`. */
  lemma BrickLayer(under: Cell, points: seq<Point>, health: int, p: Point)
    ensures p in points ==> Overlay(under, BrickItems(NewBricks(points, health)), p) == Some(BrickItem(BrickWall(health, p)))
    ensures p !in points ==> Overlay(under, BrickItems(NewBricks(points, health)), p) == under
  {
    var items := BrickItems(NewBricks(points, health));
    assert forall i :: 0 <= i < |items| ==> items[i] == BrickItem(BrickWall(health, points[i]));
    LayerLemma(under, items, p);
    if p in points {
      var i :| 0 <= i < |points| && points[i] == p;
      assert items[i].Location() == p;
    }
  }

  /** The layer of stones an initiation lays on `points`. */
  lemma StoneLayer(under: Cell, points: seq<Point>, p: Point)
    ensures p in points ==> Overlay(under, StoneItems(NewStones(points)), p) == Some(StoneItem(StoneWall(p)))
    ensures p !in points ==> Overlay(under, StoneItems(NewStones(points)), p) == under
  {
    var items := StoneItems(NewStones(points));
    assert forall i :: 0 <= i < |items| ==> items[i] == StoneItem(StoneWall(points[i]));
    LayerLemma(under, items, p);
    if p in points {
      var i :| 0 <= i < |points| && points[i] == p;
      assert items[i].Location() == p;
    }
  }

  /** The layer of water an initiation lays on `points`. */
  lemma WaterLayer(under: Cell, points: seq<Point>, p: Point)
    ensures p in points ==> Overlay(under, WaterItems(NewWaters(points)), p) == Some(WaterItem(Water(p)))
    ensures p !in points ==> Overlay(under, WaterItems(NewWaters(points)), p) == under
  {
    var items := WaterItems(NewWaters(points));
    assert forall i :: 0 <= i < |items| ==> items[i] == WaterItem(Water(points[i]));
    LayerLemma(under, items, p);
    if p in points {
      var i :| 0 <= i < |points| && points[i] == p;
      assert items[i].Location() == p;
    }
  }

  // ---------------------------------------------------------------- broadcast: pickups

  /** A coin pack comes through a broadcast, one tick older, exactly when it
      has more than one tick left and no new tank stands on it. */
  lemma {:induction false} DecayCoinpacksMembers(cs: seq<Coinpack>, tanks: seq<Tank>, c: Coinpack)
    ensures TickedCoinpack(c) in DecayCoinpacks(cs, tanks) <==> c in cs && CoinpackSurvives(c, tanks)
    decreases |cs|
  {
    if |cs| > 0 {
      DecayCoinpacksMembers(cs[1..], tanks, c);
      assert c in cs <==> c == cs[0] || c in cs[1..];
    }
  }

  /** A life pack comes through a broadcast, one tick older, exactly when it
      has more than one tick left and no new tank stands on it. */
  lemma {:induction false} DecayLifepacksMembers(ls: seq<Lifepack>, tanks: seq<Tank>, l: Lifepack)
    ensures TickedLifepack(l) in DecayLifepacks(ls, tanks) <==> l in ls && LifepackSurvives(l, tanks)
    decreases |ls|
  {
    if |ls| > 0 {
      DecayLifepacksMembers(ls[1..], tanks, l);
      assert l in ls <==> l == ls[0] || l in ls[1..];
    }
  }

  /** A life pack with two ticks left that no tank covers survives exactly
      one more broadcast, with one tick left, and is gone after the next. */
  lemma LifepackLifecycle(ls: seq<Lifepack>, tanks1: seq<Tank>, tanks2: seq<Tank>, l: Lifepack)
    requires l in ls && l.timeToDisappear == 2 && !OnTank(l.location, tanks1)
    ensures TickedLifepack(l) in DecayLifepacks(ls, tanks1) && TickedLifepack(l).timeToDisappear == 1
    ensures TickedLifepack(TickedLifepack(l)) !in DecayLifepacks(DecayLifepacks(ls, tanks1), tanks2)
  {
    DecayLifepacksMembers(ls, tanks1, l);
    DecayLifepacksMembers(DecayLifepacks(ls, tanks1), tanks2, TickedLifepack(l));
  }

  /** The same lifecycle for coin packs. */
  lemma CoinpackLifecycle(cs: seq<Coinpack>, tanks1: seq<Tank>, tanks2: seq<Tank>, c: Coinpack)
    requires c in cs && c.timeToDisappear == 2 && !OnTank(c.location, tanks1)
    ensures TickedCoinpack(c) in DecayCoinpacks(cs, tanks1) && TickedCoinpack(c).timeToDisappear == 1
    ensures TickedCoinpack(TickedCoinpack(c)) !in DecayCoinpacks(DecayCoinpacks(cs, tanks1), tanks2)
  {
    DecayCoinpacksMembers(cs, tanks1, c);
    DecayCoinpacksMembers(DecayCoinpacks(cs, tanks1), tanks2, TickedCoinpack(c));
  }

  /** After a broadcast every tank's cell shows a tank: a pickup under a tank
      has been dropped, and the walls and water are painted before the tanks. */
  lemma BroadcastTankCells(prev: WorldContents, message: Message, p: Point)
    requires message.Broadcast? && DamagesOnBricks(prev, message.damagesDetails)
    requires OnTank(p, BroadcastWorld(prev, message).tanks)
    ensures var r := BroadcastWorld(prev, message);
            CellAt(r, p).Some? && CellAt(r, p).value.TankItem? && CellAt(r, p).value.tank in r.tanks
  {
    TankOnTop(BroadcastWorld(prev, message), p);
  }

  /** A tank's cell shows a tank when no pickup shares a cell with a tank. */
  lemma TankOnTop(w: WorldContents, p: Point)
    requires OnTank(p, w.tanks)
    requires forall k :: 0 <= k < |w.coinpacks| ==> !OnTank(w.coinpacks[k].location, w.tanks)
    requires forall k :: 0 <= k < |w.lifepacks| ==> !OnTank(w.lifepacks[k].location, w.tanks)
    ensures CellAt(w, p).Some? && CellAt(w, p).value.TankItem? && CellAt(w, p).value.tank in w.tanks
  {
    var i :| 0 <= i < |w.tanks| && w.tanks[i].location == p;
    assert TankItems(w.tanks)[i].Location() == p;
    LayerLemma(CellBelowTanks(w, p), TankItems(w.tanks), p);
    NoPickupUnderTanks(w.coinpacks, w.lifepacks, w.tanks, p);
    LayerLemma(CellBelowPickups(w, p), CoinpackItems(w.coinpacks), p);
    LayerLemma(Overlay(CellBelowPickups(w, p), CoinpackItems(w.coinpacks), p), LifepackItems(w.lifepacks), p);
  }

  lemma NoPickupUnderTanks(cs: seq<Coinpack>, ls: seq<Lifepack>, tanks: seq<Tank>, p: Point)
    requires OnTank(p, tanks)
    requires forall k :: 0 <= k < |cs| ==> !OnTank(cs[k].location, tanks)
    requires forall k :: 0 <= k < |ls| ==> !OnTank(ls[k].location, tanks)
    ensures !HasAt(CoinpackItems(cs), p) && !HasAt(LifepackItems(ls), p)
  {
  }

  // ---------------------------------------------------------------- broadcast: bricks

  /** The reported damage level plays no part in the new world: two
      broadcasts that differ only in their damage levels give the same one. */
  lemma BroadcastIgnoresDamageLevel(prev: WorldContents, message1: Message, message2: Message)
    requires message1.Broadcast? && message2.Broadcast?
    requires message1.playersDetails == message2.playersDetails
    requires |message1.damagesDetails| == |message2.damagesDetails|
    requires forall i :: 0 <= i < |message1.damagesDetails| ==>
               message1.damagesDetails[i].location == message2.damagesDetails[i].location
    requires DamagesOnBricks(prev, message1.damagesDetails)
    ensures DamagesOnBricks(prev, message2.damagesDetails)
    ensures BroadcastWorld(prev, message1) == BroadcastWorld(prev, message2)
  {
    var r1 := BroadcastWorld(prev, message1);
    var r2 := BroadcastWorld(prev, message2);
    assert r1.bricks == r2.bricks by {
      forall i | 0 <= i < |r1.bricks| ensures r1.bricks[i] == r2.bricks[i] {
      }
    }
  }

  /** A brick no damage record names is gone after a broadcast, however
      healthy it was. */
  lemma BroadcastDropsUnreportedBricks(prev: WorldContents, message: Message, p: Point)
    requires message.Broadcast? && DamagesOnBricks(prev, message.damagesDetails)
    requires forall i :: 0 <= i < |message.damagesDetails| ==> message.damagesDetails[i].location != p
    ensures forall i :: 0 <= i < |BroadcastWorld(prev, message).bricks| ==>
              BroadcastWorld(prev, message).bricks[i].location != p
  {
  }

  // ---------------------------------------------------------------- pickups appearing

  /** A new coin pack shows on its cell unless a life pack is already there
      (even over a tank: no check is made); no other cell changes. */
  lemma CoinpackShown(prev: WorldContents, message: Message, p: Point)
    requires message.CoinpackAppeared?
    ensures var c := Coinpack(message.location, message.coinValue, message.remainingTime);
            !HasAt(LifepackItems(prev.lifepacks), message.location) ==>
              CellAt(CoinpackWorld(prev, message), message.location) == Some(CoinpackItem(c))
    ensures p != message.location ==> CellAt(CoinpackWorld(prev, message), p) == CellAt(prev, p)
  {
    var r := CoinpackWorld(prev, message);
    var c := Coinpack(message.location, message.coinValue, message.remainingTime);
    assert CoinpackItems(r.coinpacks) == CoinpackItems(prev.coinpacks) + [CoinpackItem(c)];
    var q := message.location;
    OverlaySnoc(CellBelowPickups(prev, q), CoinpackItems(prev.coinpacks), CoinpackItem(c), q);
    if !HasAt(LifepackItems(prev.lifepacks), q) {
      OverlayMissing(Some(CoinpackItem(c)), LifepackItems(prev.lifepacks), q);
    }
    OverlaySnoc(CellBelowPickups(prev, p), CoinpackItems(prev.coinpacks), CoinpackItem(c), p);
  }

  /** A new life pack always shows on its cell, over anything there; no other
      cell changes. */
  lemma LifepackShown(prev: WorldContents, message: Message, defaults: ConstructorDefaults, p: Point)
    requires message.LifepackAppeared?
    ensures CellAt(LifepackWorld(prev, message, defaults), message.location)
              == Some(LifepackItem(Lifepack(message.location, defaults.lifepackHealthValue, message.remainingTime)))
    ensures p != message.location ==> CellAt(LifepackWorld(prev, message, defaults), p) == CellAt(prev, p)
  {
    var r := LifepackWorld(prev, message, defaults);
    var l := Lifepack(message.location, defaults.lifepackHealthValue, message.remainingTime);
    assert LifepackItems(r.lifepacks) == LifepackItems(prev.lifepacks) + [LifepackItem(l)];
    var q := message.location;
    OverlaySnoc(Overlay(CellBelowPickups(prev, q), CoinpackItems(prev.coinpacks), q), LifepackItems(prev.lifepacks), LifepackItem(l), q);
    OverlaySnoc(Overlay(CellBelowPickups(prev, p), CoinpackItems(prev.coinpacks), p), LifepackItems(prev.lifepacks), LifepackItem(l), p);
  }

  // ---------------------------------------------------------------- dispatch

  /** An initiation builds the same world whatever world came before. */
  lemma InitiationIgnoresOld(prev1: WorldContents, prev2: WorldContents, message: Message, defaults: ConstructorDefaults)
    requires message.Initiation?
    ensures NextWorld(prev1, Some(message), defaults) == NextWorld(prev2, Some(message), defaults)
  {
  }

  /** Every transition keeps "a tank is controlled exactly when it is the
      client's own". */
  lemma NextWorldKeepsControlFlags(prev: WorldContents, message: Option<Message>, defaults: ConstructorDefaults)
    requires Applicable(prev, message) && ControlFlagsAgree(prev)
    ensures ControlFlagsAgree(NextWorld(prev, message, defaults))
  {
  }
}
