/** The messages the server sends, as decoded values, and the two closed sets
    of failure reasons a short-code frame can name. */
module Messages {
  import opened Wrappers
  import opened Entities

  /** Reasons the server gives for refusing a move or shot. */
  datatype CommandFailState =
    | Obstacle | CellOccupied | Dead | TooQuick | InvalidCell
    | GameHasFinished | GameNotStartedYet | NotAValidContestant

  /** Reasons the server gives for refusing a join request. */
  datatype JoinFailState = PlayersFull | AlreadyAdded | GameAlreadyStarted

  /** The identifier of each reason (what `Enum.GetNames` lists). */
  function CommandFailName(s: CommandFailState): string {
    match s
    case Obstacle => "Obstacle"
    case CellOccupied => "CellOccupied"
    case Dead => "Dead"
    case TooQuick => "TooQuick"
    case InvalidCell => "InvalidCell"
    case GameHasFinished => "GameHasFinished"
    case GameNotStartedYet => "GameNotStartedYet"
    case NotAValidContestant => "NotAValidContestant"
  }

  function JoinFailName(s: JoinFailState): string {
    match s
    case PlayersFull => "PlayersFull"
    case AlreadyAdded => "AlreadyAdded"
    case GameAlreadyStarted => "GameAlreadyStarted"
  }

  /** `Enum.GetNames(typeof(CommandFailState)).Contains(name)` followed by
      `Enum.Parse`: the reason whose identifier is exactly `name`, if any. */
  function CommandFailByName(name: string): (r: Option<CommandFailState>)
    ensures r.Some? ==> CommandFailName(r.value) == name
    ensures r.None? ==> forall s: CommandFailState :: CommandFailName(s) != name
  {
    if name == "Obstacle" then Some(Obstacle)
    else if name == "CellOccupied" then Some(CellOccupied)
    else if name == "Dead" then Some(Dead)
    else if name == "TooQuick" then Some(TooQuick)
    else if name == "InvalidCell" then Some(InvalidCell)
    else if name == "GameHasFinished" then Some(GameHasFinished)
    else if name == "GameNotStartedYet" then Some(GameNotStartedYet)
    else if name == "NotAValidContestant" then Some(NotAValidContestant)
    else None
  }

  function JoinFailByName(name: string): (r: Option<JoinFailState>)
    ensures r.Some? ==> JoinFailName(r.value) == name
    ensures r.None? ==> forall s: JoinFailState :: JoinFailName(s) != name
  {
    if name == "PlayersFull" then Some(PlayersFull)
    else if name == "AlreadyAdded" then Some(AlreadyAdded)
    else if name == "GameAlreadyStarted" then Some(GameAlreadyStarted)
    else None
  }

  /** One tank of an accepted join (`JoinMessage.TanksDetails`). */
  datatype JoinDetails = JoinDetails(playerNumber: int, location: Point, facingDirection: Direction)

  /** One player record of a global broadcast (`BroadcastMessage.PlayerDetails`). */
  datatype PlayerDetails = PlayerDetails(playerNumber: int, location: Point, facingDirection: Direction,
                                         isShot: bool, health: int, coins: int, points: int)

  /** One damaged brick of a global broadcast (`BroadcastMessage.DamageDetails`). */
  datatype DamageDetails = DamageDetails(location: Point, damageLevel: int)

  datatype Message =
    | Join(tanksDetails: seq<JoinDetails>)
    | Initiation(playerNumber: int, bricks: seq<Point>, stones: seq<Point>, waters: seq<Point>)
    | Broadcast(playersDetails: seq<PlayerDetails>, damagesDetails: seq<DamageDetails>)
    | LifepackAppeared(location: Point, remainingTime: int)
    | CoinpackAppeared(location: Point, remainingTime: int, coinValue: int)
    | JoinFail(joinReason: JoinFailState)
    | CommandFail(commandReason: CommandFailState)
}
