/** What `State.Update` and the constructor of `State.cs` guarantee: which
    tank a player record moves, that a player without a tank in the list
    never gets one added, which bricks and cells the damage records leave
    alone, and which pickups the clocks keep. */
module StateProperties {
  import opened Wrappers
  import opened Entities
  import opened Messages
  import opened Parsing
  import opened WorldModel
  import opened WorldProperties
  import opened StateModel

  // ---------------------------------------------------------------- constructor

  /** After the constructor a cell shows the water on it, else the stone,
      else a brick of health 4, and is null when no point names it. */
  lemma ConstructorCells(bricks: seq<Point>, stones: seq<Point>, waters: seq<Point>, p: Point)
    ensures var cell := InitialCell(bricks, stones, waters, p);
      && (p in waters ==> cell == Some(WaterItem(Water(p))))
      && (p !in waters && p in stones ==> cell == Some(StoneItem(StoneWall(p))))
      && (p !in waters && p !in stones && p in bricks ==>
            cell == Some(BrickItem(BrickWall(InitialBrickHealth, p))))
      && (p !in waters && p !in stones && p !in bricks ==> cell == None)
  {
    var afterBricks := Overlay(None, BrickItems(NewBricks(bricks, InitialBrickHealth)), p);
    BrickLayer(None, bricks, InitialBrickHealth, p);
    StoneLayer(afterBricks, stones, p);
    WaterLayer(Overlay(afterBricks, StoneItems(NewStones(stones)), p), waters, p);
  }

  /** The state built from an initiation message shows, cell for cell, the
      same grid as the snapshot `World.FromInitiationMessage` builds when a
      brick's default health is 4. */
  lemma ConstructorAgreesWithWorld(message: Message, defaults: ConstructorDefaults, p: Point)
    requires message.Initiation? && defaults.brickHealth == InitialBrickHealth
    ensures InitialCell(message.bricks, message.stones, message.waters, p)
              == CellAt(InitiationWorld(message, defaults), p)
  {
    ConstructorCells(message.bricks, message.stones, message.waters, p);
    InitiationCells(message, defaults, p);
  }

  // ---------------------------------------------------------------- player records

  /** The first tank with a number depends on the player numbers alone. */
  lemma {:induction false} FirstTankByNumbers(a: seq<Tank>, b: seq<Tank>, n: int)
    requires |a| == |b| && forall i :: 0 <= i < |a| ==> a[i].playerNumber == b[i].playerNumber
    ensures FirstTank(a, n) == FirstTank(b, n)
    decreases |a|
  {
    if |a| > 0 {
      FirstTankByNumbers(a[1..], b[1..], n);
    }
  }

  /** Records leave the first tank of every player where it was in the list. */
  lemma FirstTankKept(tanks: seq<Tank>, players: seq<PlayerDetails>, n: int)
    ensures FirstTank(AfterPlayers(tanks, players), n) == FirstTank(tanks, n)
  {
    FirstTankByNumbers(AfterPlayers(tanks, players), tanks, n);
  }

  /** The last record of a player decides its tank: the player's first tank
      ends with that record's location, health, coins, direction and points,
      and keeps its number and flags. */
  lemma {:induction false} LastRecordWins(tanks: seq<Tank>, players: seq<PlayerDetails>, k: nat)
    requires k < |players| && FirstTank(tanks, players[k].playerNumber).Some?
    requires forall j :: k < j < |players| ==> players[j].playerNumber != players[k].playerNumber
    ensures var i := FirstTank(tanks, players[k].playerNumber).value;
            AfterPlayers(tanks, players)[i] == Moved(tanks[i], players[k])
    decreases |players|
  {
    var n := |players|;
    var number := players[k].playerNumber;
    var i := FirstTank(tanks, number).value;
    var before := players[..n - 1];
    var prior := AfterPlayers(tanks, before);
    FirstTankKept(tanks, before, number);
    if k == n - 1 {
      assert prior[i].playerNumber == tanks[i].playerNumber;
    } else {
      assert before[k] == players[k];
      forall j | k < j < |before| ensures before[j].playerNumber != number {
        assert before[j] == players[j];
      }
      LastRecordWins(tanks, before, k);
      FirstTankKept(tanks, before, players[n - 1].playerNumber);
    }
  }

  /** A tank whose player sends no record comes through unchanged. */
  lemma {:induction false} UnreportedTankUnchanged(tanks: seq<Tank>, players: seq<PlayerDetails>, i: nat)
    requires i < |tanks| && forall j :: 0 <= j < |players| ==> players[j].playerNumber != tanks[i].playerNumber
    ensures AfterPlayers(tanks, players)[i] == tanks[i]
    decreases |players|
  {
    var n := |players|;
    if n > 0 {
      var before := players[..n - 1];
      forall j | 0 <= j < |before| ensures before[j].playerNumber != tanks[i].playerNumber {
        assert before[j] == players[j];
      }
      UnreportedTankUnchanged(tanks, before, i);
    }
  }

  /** A record for a player with no tank in the list creates a tank with the
      record's values and the default flags and shows it on the record's
      cell, but does not add it to the list. */
  lemma FreshTankOnGridOnly(tanks: seq<Tank>, players: seq<PlayerDetails>, defaults: ConstructorDefaults, c: Cell)
    requires |players| > 0
    requires forall i :: 0 <= i < |tanks| ==> tanks[i].playerNumber != players[|players| - 1].playerNumber
    ensures var d := players[|players| - 1];
            && AfterPlayers(tanks, players) == AfterPlayers(tanks, players[..|players| - 1])
            && PlayersCell(tanks, players, defaults, d.location, c)
                 == Some(TankItem(Tank(d.location, d.health, d.facingDirection, d.points, d.coins,
                                       d.playerNumber, defaults.tankIsShot, defaults.tankIsControlled)))
  {
    FirstTankKept(tanks, players[..|players| - 1], players[|players| - 1].playerNumber);
  }

  /** No record moves a tank onto `p` when no record names `p`. */
  lemma {:induction false} TanksStayOff(tanks: seq<Tank>, players: seq<PlayerDetails>, p: Point)
    requires !OnTank(p, tanks) && forall j :: 0 <= j < |players| ==> players[j].location != p
    ensures !OnTank(p, AfterPlayers(tanks, players))
    decreases |players|
  {
    var n := |players|;
    if n > 0 {
      var before := players[..n - 1];
      forall j | 0 <= j < |before| ensures before[j].location != p {
        assert before[j] == players[j];
      }
      TanksStayOff(tanks, before, p);
    }
  }

  /** A cell no record names and no listed tank stands on keeps its
      occupant through the player records. */
  lemma {:induction false} PlayersCellUntouched(tanks: seq<Tank>, players: seq<PlayerDetails>,
                                                defaults: ConstructorDefaults, p: Point, c: Cell)
    requires !OnTank(p, tanks) && forall j :: 0 <= j < |players| ==> players[j].location != p
    ensures PlayersCell(tanks, players, defaults, p, c) == c
    decreases |players|
  {
    var n := |players|;
    if n > 0 {
      var before := players[..n - 1];
      forall j | 0 <= j < |before| ensures before[j].location != p {
        assert before[j] == players[j];
      }
      PlayersCellUntouched(tanks, before, defaults, p, c);
      TanksStayOff(tanks, before, p);
    }
  }

  // ---------------------------------------------------------------- damage records

  /** One record: level 4 removes the first brick on its location and nulls
      the cell; any other 32-bit level gives that brick health `4 - level`
      and keeps the list's length. */
  lemma DamageOnBrick(bricks: seq<BrickWall>, d: DamageDetails, c: Cell)
    requires HasBrick(bricks, d.location) && IsInt32(d.damageLevel)
    ensures var i := FirstBrick(bricks, d.location);
            var r := BricksAfterDamage(bricks, d);
            && (d.damageLevel == 4 ==>
                  r == bricks[..i] + bricks[i + 1..] && CellAfterDamage(bricks, d, d.location, c) == None)
            && (d.damageLevel != 4 ==>
                  |r| == |bricks| && r[i] == BrickWall(DamagedHealth(d.damageLevel), d.location)
                  && forall j :: 0 <= j < |r| && j != i ==> r[j] == bricks[j])
  {
  }

  /** A brick is kept by a record for another location. */
  lemma BrickKept(bricks: seq<BrickWall>, d: DamageDetails, b: BrickWall)
    requires b in bricks && b.location != d.location
    ensures b in BricksAfterDamage(bricks, d)
  {
    if HasBrick(bricks, d.location) {
      var i := FirstBrick(bricks, d.location);
      var j :| 0 <= j < |bricks| && bricks[j] == b;
      assert j != i;
      var r := BricksAfterDamage(bricks, d);
      if r == bricks[..i] + bricks[i + 1..] {
        if j < i {
          assert r[j] == b;
        } else {
          assert r[j - 1] == b;
        }
      } else {
        assert r[j] == b;
      }
    }
  }

  /** A brick on a location no damage record names is untouched. */
  lemma {:induction false} UnnamedBrickKept(bricks: seq<BrickWall>, damages: seq<DamageDetails>, b: BrickWall)
    requires b in bricks && forall j :: 0 <= j < |damages| ==> damages[j].location != b.location
    ensures b in AfterDamages(bricks, damages)
    decreases |damages|
  {
    var n := |damages|;
    if n > 0 {
      var before := damages[..n - 1];
      forall j | 0 <= j < |before| ensures before[j].location != b.location {
        assert before[j] == damages[j];
      }
      UnnamedBrickKept(bricks, before, b);
      BrickKept(AfterDamages(bricks, before), damages[n - 1], b);
    }
  }

  /** A cell no damage record names keeps its occupant. */
  lemma {:induction false} DamagesCellUntouched(bricks: seq<BrickWall>, damages: seq<DamageDetails>, p: Point, c: Cell)
    requires forall j :: 0 <= j < |damages| ==> damages[j].location != p
    ensures DamagesCell(bricks, damages, p, c) == c
    decreases |damages|
  {
    var n := |damages|;
    if n > 0 {
      var before := damages[..n - 1];
      forall j | 0 <= j < |before| ensures before[j].location != p {
        assert before[j] == damages[j];
      }
      DamagesCellUntouched(bricks, before, p, c);
    }
  }

  // ---------------------------------------------------------------- pickup clocks

  /** A coin pack stays, with the time its tick leaves, exactly when its
      tick does not report expiry; nothing else is in the list. */
  lemma {:induction false} TickedCoinpacksMembers(cs: seq<Coinpack>, tick: Coinpack -> Tick, x: Coinpack)
    ensures x in TickedCoinpacks(cs, tick) <==>
              exists i :: 0 <= i < |cs| && !tick(cs[i]).expired
                          && x == cs[i].(timeToDisappear := tick(cs[i]).timeToDisappear)
    decreases |cs|
  {
    var n := |cs|;
    if n > 0 {
      var before := cs[..n - 1];
      TickedCoinpacksMembers(before, tick, x);
      if x in TickedCoinpacks(before, tick) {
        var i :| 0 <= i < |before| && !tick(before[i]).expired
                 && x == before[i].(timeToDisappear := tick(before[i]).timeToDisappear);
        assert cs[i] == before[i];
      }
      if exists i :: 0 <= i < |cs| && !tick(cs[i]).expired && x == cs[i].(timeToDisappear := tick(cs[i]).timeToDisappear) {
        var i :| 0 <= i < |cs| && !tick(cs[i]).expired && x == cs[i].(timeToDisappear := tick(cs[i]).timeToDisappear);
        if i < n - 1 {
          assert before[i] == cs[i];
        }
      }
    }
  }

  /** One coin pack whose tick reports expiry: the loop as written throws,
      where the intended filter simply drops the pack. */
  lemma ForEachRemoveThrows(c: Coinpack, tick: Coinpack -> Tick)
    requires tick(c).expired
    ensures CoinpacksForEachAsWritten([c], tick) == Failure(InvalidOperationException)
    ensures TickedCoinpacks([c], tick) == []
  {
    assert [c][..0] == [];
  }

  /** The cell of an expired coin pack ends up null, whatever later coin
      packs on the same cell do. */
  lemma {:induction false} ExpiredCoinpackCleared(cs: seq<Coinpack>, tick: Coinpack -> Tick, k: nat, cell: Cell)
    requires k < |cs| && tick(cs[k]).expired
    ensures CoinpacksTickCell(cs, tick, cs[k].location, cell) == None
    decreases |cs|
  {
    var n := |cs|;
    if k < n - 1 {
      assert cs[..n - 1][k] == cs[k];
      ExpiredCoinpackCleared(cs[..n - 1], tick, k, cell);
    }
  }

  /** A cell no coin pack stands on is left alone by the clocks. */
  lemma {:induction false} CoinpacksTickCellUntouched(cs: seq<Coinpack>, tick: Coinpack -> Tick, p: Point, cell: Cell)
    requires forall i :: 0 <= i < |cs| ==> cs[i].location != p
    ensures CoinpacksTickCell(cs, tick, p, cell) == cell
    decreases |cs|
  {
    var n := |cs|;
    if n > 0 {
      assert forall i :: 0 <= i < n - 1 ==> cs[..n - 1][i] == cs[i];
      CoinpacksTickCellUntouched(cs[..n - 1], tick, p, cell);
    }
  }

  /** The same for life packs. */
  lemma {:induction false} TickedLifepacksMembers(ls: seq<Lifepack>, tick: Lifepack -> Tick, x: Lifepack)
    ensures x in TickedLifepacks(ls, tick) <==>
              exists i :: 0 <= i < |ls| && !tick(ls[i]).expired
                          && x == ls[i].(timeToDisappear := tick(ls[i]).timeToDisappear)
    decreases |ls|
  {
    var n := |ls|;
    if n > 0 {
      var before := ls[..n - 1];
      TickedLifepacksMembers(before, tick, x);
      if x in TickedLifepacks(before, tick) {
        var i :| 0 <= i < |before| && !tick(before[i]).expired
                 && x == before[i].(timeToDisappear := tick(before[i]).timeToDisappear);
        assert ls[i] == before[i];
      }
      if exists i :: 0 <= i < |ls| && !tick(ls[i]).expired && x == ls[i].(timeToDisappear := tick(ls[i]).timeToDisappear) {
        var i :| 0 <= i < |ls| && !tick(ls[i]).expired && x == ls[i].(timeToDisappear := tick(ls[i]).timeToDisappear);
        if i < n - 1 {
          assert before[i] == ls[i];
        }
      }
    }
  }

  lemma {:induction false} ExpiredLifepackCleared(ls: seq<Lifepack>, tick: Lifepack -> Tick, k: nat, cell: Cell)
    requires k < |ls| && tick(ls[k]).expired
    ensures LifepacksTickCell(ls, tick, ls[k].location, cell) == None
    decreases |ls|
  {
    var n := |ls|;
    if k < n - 1 {
      assert ls[..n - 1][k] == ls[k];
      ExpiredLifepackCleared(ls[..n - 1], tick, k, cell);
    }
  }

  lemma {:induction false} LifepacksTickCellUntouched(ls: seq<Lifepack>, tick: Lifepack -> Tick, p: Point, cell: Cell)
    requires forall i :: 0 <= i < |ls| ==> ls[i].location != p
    ensures LifepacksTickCell(ls, tick, p, cell) == cell
    decreases |ls|
  {
    var n := |ls|;
    if n > 0 {
      assert forall i :: 0 <= i < n - 1 ==> ls[..n - 1][i] == ls[i];
      LifepacksTickCellUntouched(ls[..n - 1], tick, p, cell);
    }
  }
}
