/** The decoder: one raw frame to one message, to null (`Success(None)`) for an
    unknown tag or code, or to the exception the C# code would throw. */
module MessageFactory {
  import opened Wrappers
  import opened Entities
  import opened Messages
  import opened InputConvertors
  import opened Parsing

  /** What `GetMessage` hands back: a message, null, or a thrown exception. */
  type Reply = Result<Option<Message>, Exception>

  /** What every split result satisfies: no piece is empty. */
  predicate NonEmptyPieces(pieces: seq<string>) {
    forall i :: 0 <= i < |pieces| ==> |pieces[i]| > 0
  }

  /** `SplitByComma(s).Select(int.Parse).ToArray()`. */
  function ParseCommaInts(s: string): Result<seq<int>, Exception> {
    ParseInts(SplitByComma(s))
  }

  /** `int.Parse(token.Substring(1))`: the number after the leading `P`. */
  function ParsePlayerNumber(token: string): Result<int, Exception>
    requires |token| > 0
  {
    ParseInt(token[1..])
  }

  /** `S:P<n>;<x>,<y>;<d>#`: the three parts sit in colon field 1, split by `;`. */
  function DecodeJoin(fields: seq<string>): (r: Result<Message, Exception>)
    ensures r.Success? ==> r.value.Join? && |r.value.tanksDetails| == 1
  {
    var field :- At(fields, 1);
    DecodeJoinParts(SplitBySemicolon(field))
  }

  /** The three `;`-parts of the join reply's field. */
  function DecodeJoinParts(parts: seq<string>): (r: Result<Message, Exception>)
    requires NonEmptyPieces(parts)
    ensures r.Success? ==> r.value.Join? && |r.value.tanksDetails| == 1
  {
    var part0 :- At(parts, 0);
    var playerNumber :- ParsePlayerNumber(part0);
    var part1 :- At(parts, 1);
    var location :- ParseCommaInts(part1);
    var part2 :- At(parts, 2);
    var direction :- ParseInt(part2);
    var x :- At(location, 0);
    var y :- At(location, 1);
    Success(Join([JoinDetails(playerNumber, Point(x, y), direction)]))
  }

  /** `SplitBySemicolon(field).Select(pointStr => SplitByComma(pointStr).Select(int.Parse).ToArray()).ToArray()`. */
  function ParsePointArrays(pieces: seq<string>): (r: Result<seq<seq<int>>, Exception>)
    ensures r.Success? ==> |r.value| == |pieces|
    decreases |pieces|
  {
    if pieces == [] then Success([])
    else
      var head :- ParseCommaInts(pieces[0]);
      var tail :- ParsePointArrays(pieces[1..]);
      Success([head] + tail)
  }

  /** `.Select(b => new Point(b[0], b[1])).ToList()`. */
  function ToPoints(arrays: seq<seq<int>>): (r: Result<seq<Point>, Exception>)
    ensures r.Success? ==> |r.value| == |arrays|
    decreases |arrays|
  {
    if arrays == [] then Success([])
    else
      var x :- At(arrays[0], 0);
      var y :- At(arrays[0], 1);
      var tail :- ToPoints(arrays[1..]);
      Success([Point(x, y)] + tail)
  }

  /** `I:P<n>:<bricks>:<stones>:<waters>#`, each list `<x>,<y>;<x>,<y>;...`. */
  function DecodeInitiation(fields: seq<string>): (r: Result<Message, Exception>)
    requires NonEmptyPieces(fields)
    ensures r.Success? ==> r.value.Initiation?
  {
    var field1 :- At(fields, 1);
    var playerNumber :- ParsePlayerNumber(field1);
    var field2 :- At(fields, 2);
    var bricks :- ParsePointArrays(SplitBySemicolon(field2));
    var field3 :- At(fields, 3);
    var stones :- ParsePointArrays(SplitBySemicolon(field3));
    var field4 :- At(fields, 4);
    var waters :- ParsePointArrays(SplitBySemicolon(field4));
    var brickPoints :- ToPoints(bricks);
    var stonePoints :- ToPoints(stones);
    var waterPoints :- ToPoints(waters);
    Success(Initiation(playerNumber, brickPoints, stonePoints, waterPoints))
  }

  /** `colonSplitted.Skip(1).Take(colonSplitted.Length - 2)`: the fields strictly
      between the tag and the last field (none when there are fewer than three). */
  function PlayerRecords(fields: seq<string>): (r: seq<string>)
    ensures |fields| >= 2 ==> r == fields[1..|fields| - 1]
    ensures |fields| < 2 ==> r == []
  {
    if |fields| >= 2 then fields[1..|fields| - 1] else []
  }

  /** One record `P<n>;<x>,<y>;<d>;<shot>;<health>;<coins>;<points>`. */
  function DecodePlayerDetails(record: string): Result<PlayerDetails, Exception> {
    DecodePlayerParts(SplitBySemicolon(record))
  }

  /** The seven `;`-parts of a player record, read in the order the C# code reads them. */
  function DecodePlayerParts(parts: seq<string>): Result<PlayerDetails, Exception>
    requires NonEmptyPieces(parts)
  {
    var part0 :- At(parts, 0);
    var playerNumber :- ParsePlayerNumber(part0);
    var part1 :- At(parts, 1);
    var location :- ParseCommaInts(part1);
    var part2 :- At(parts, 2);
    var direction :- ParseInt(part2);
    var part3 :- At(parts, 3);
    var isShot := part3 == "1";
    var part4 :- At(parts, 4);
    var health :- ParseInt(part4);
    var part5 :- At(parts, 5);
    var coins :- ParseInt(part5);
    var part6 :- At(parts, 6);
    var points :- ParseInt(part6);
    var x :- At(location, 0);
    var y :- At(location, 1);
    Success(PlayerDetails(playerNumber, Point(x, y), direction, isShot, health, coins, points))
  }

  function DecodePlayers(records: seq<string>): (r: Result<seq<PlayerDetails>, Exception>)
    ensures r.Success? ==> |r.value| == |records|
    decreases |records|
  {
    if records == [] then Success([])
    else
      var head :- DecodePlayerDetails(records[0]);
      var tail :- DecodePlayers(records[1..]);
      Success([head] + tail)
  }

  /** One damage item `<x>,<y>,<damage-level>`. */
  function DecodeDamageDetails(item: string): Result<DamageDetails, Exception> {
    var numbers :- ParseCommaInts(item);
    var x :- At(numbers, 0);
    var y :- At(numbers, 1);
    var level :- At(numbers, 2);
    Success(DamageDetails(Point(x, y), level))
  }

  function DecodeDamages(items: seq<string>): (r: Result<seq<DamageDetails>, Exception>)
    ensures r.Success? ==> |r.value| == |items|
    decreases |items|
  {
    if items == [] then Success([])
    else
      var head :- DecodeDamageDetails(items[0]);
      var tail :- DecodeDamages(items[1..]);
      Success([head] + tail)
  }

  /** `G:<record>:...:<record>:<damages>#`. */
  function DecodeBroadcast(fields: seq<string>): (r: Result<Message, Exception>)
    requires |fields| >= 1
    ensures r.Success? ==> r.value.Broadcast?
  {
    var players :- DecodePlayers(PlayerRecords(fields));
    var damages :- DecodeDamages(SplitBySemicolon(fields[|fields| - 1]));
    Success(Broadcast(players, damages))
  }

  /** `L:<x>,<y>:<LT>#`. */
  function DecodeLifepack(fields: seq<string>): (r: Result<Message, Exception>)
    ensures r.Success? ==> r.value.LifepackAppeared?
  {
    var field1 :- At(fields, 1);
    var location :- ParseCommaInts(field1);
    var x :- At(location, 0);
    var y :- At(location, 1);
    var field2 :- At(fields, 2);
    var remainingTime :- ParseInt(field2);
    Success(LifepackAppeared(Point(x, y), remainingTime))
  }

  /** `C:<x>,<y>:<LT>:<Val>#`. */
  function DecodeCoinpack(fields: seq<string>): (r: Result<Message, Exception>)
    ensures r.Success? ==> r.value.CoinpackAppeared?
  {
    var field1 :- At(fields, 1);
    var location :- ParseCommaInts(field1);
    var x :- At(location, 0);
    var y :- At(location, 1);
    var field2 :- At(fields, 2);
    var remainingTime :- ParseInt(field2);
    var field3 :- At(fields, 3);
    var coinValue :- ParseInt(field3);
    Success(CoinpackAppeared(Point(x, y), remainingTime, coinValue))
  }

  /** The tag of each long-form message. */
  function TagOf(m: Message): string {
    match m
    case Join(_) => "S"
    case Initiation(_, _, _, _) => "I"
    case Broadcast(_, _) => "G"
    case LifepackAppeared(_, _) => "L"
    case CoinpackAppeared(_, _, _) => "C"
    case JoinFail(_) => ""
    case CommandFail(_) => ""
  }

  predicate IsLongForm(m: Message) {
    m.Join? || m.Initiation? || m.Broadcast? || m.LifepackAppeared? || m.CoinpackAppeared?
  }

  /** The long form dispatched on its tag. */
  function DecodeLongForm(fields: seq<string>): (r: Reply)
    requires |fields| >= 1 && NonEmptyPieces(fields)
    ensures r.Success? && r.value.Some? ==> IsLongForm(r.value.value) && TagOf(r.value.value) == fields[0]
    ensures fields[0] !in {"S", "I", "G", "L", "C"} ==> r == Success(None)
  {
    var tag := fields[0];
    if tag == "S" then
      var m :- DecodeJoin(fields); Success(Some(m))
    else if tag == "I" then
      var m :- DecodeInitiation(fields); Success(Some(m))
    else if tag == "G" then
      var m :- DecodeBroadcast(fields); Success(Some(m))
    else if tag == "L" then
      var m :- DecodeLifepack(fields); Success(Some(m))
    else if tag == "C" then
      var m :- DecodeCoinpack(fields); Success(Some(m))
    else Success(None)
  }

  /** A frame without `:`: the first `;`-piece, canonicalised, names a command
      failure or else a join failure; `OBSTACLE;25#` carries a suffix to drop. */
  function DecodeShortCode(message: string): (r: Reply)
    ensures r.Success? && r.value.Some? ==> r.value.value.JoinFail? || r.value.value.CommandFail?
  {
    var pieces := SplitBySemicolon(TrimHash(message));
    if |pieces| == 0 then Failure(InvalidOperationException)
    else
      var code := ScreamingSnakeCaseToCamelCase(pieces[0]);
      match CommandFailByName(code)
      case Some(reason) => Success(Some(CommandFail(reason)))
      case None =>
        match JoinFailByName(code)
        case Some(reason) => Success(Some(JoinFail(reason)))
        case None => Success(None)
  }

  /** `MessageFactory.GetMessage`. The long-form/short-code choice looks at the
      raw frame; the tag is the first colon piece of the stripped frame. */
  function GetMessage(message: string): (r: Reply)
    ensures ':' in message && r.Success? && r.value.Some? ==>
              IsLongForm(r.value.value)
              && var fields := SplitByColon(TrimHash(message));
                 |fields| > 0 && fields[0] == TagOf(r.value.value)
    ensures ':' !in message && r.Success? && r.value.Some? ==>
              r.value.value.JoinFail? || r.value.value.CommandFail?
    ensures ':' in message && SplitByColon(TrimHash(message)) == [] ==> r == Failure(IndexOutOfRangeException)
    ensures (':' in message && |SplitByColon(TrimHash(message))| > 0
             && SplitByColon(TrimHash(message))[0] !in {"S", "I", "G", "L", "C"}) ==> r == Success(None)
  {
    if ':' in message then
      var fields := SplitByColon(TrimHash(message));
      var _ :- At(fields, 0);
      DecodeLongForm(fields)
    else DecodeShortCode(message)
  }
}
