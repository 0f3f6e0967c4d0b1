/** What the decoder promises: every long-form message the server can write
    decodes back to itself, every failure code names its reason (with or
    without the `;<n>` suffix), and the frames of the protocol's own examples
    decode as documented. */
module MessageFactoryProperties {
  import opened Wrappers
  import opened Entities
  import opened Messages
  import opened InputConvertors
  import opened Parsing
  import opened MessageFactory

  // ---------------------------------------------------------------------------
  // Fields that survive splitting

  predicate Avoids(s: string, cs: set<char>) {
    forall i :: 0 <= i < |s| ==> s[i] !in cs
  }

  /** Non-empty, trimmed, and free of the characters in `cs`. */
  predicate IsPlain(s: string, cs: set<char>) {
    |s| > 0 && IsTrimmed(s) && Avoids(s, cs)
  }

  lemma AvoidsNotIn(s: string, cs: set<char>, c: char)
    requires Avoids(s, cs) && c in cs
    ensures c !in s
  {
  }

  /** Joining plain pieces with a delimiter they avoid gives a plain string that contains it. */
  lemma {:induction false} JoinWithPlain(pieces: seq<string>, d: char, cs: set<char>)
    requires |pieces| >= 1 && !IsWhiteSpace(d) && d !in cs
    requires forall i :: 0 <= i < |pieces| ==> IsPlain(pieces[i], cs + {d})
    ensures IsPlain(JoinWith(pieces, d), cs)
    ensures |pieces| >= 2 ==> d in JoinWith(pieces, d)
    decreases |pieces|
  {
    if |pieces| >= 2 {
      JoinWithPlain(pieces[1..], d, cs);
      var head, rest := pieces[0], JoinWith(pieces[1..], d);
      var s := head + [d] + rest;
      assert s[|head|] == d;
      forall i | 0 <= i < |s| ensures s[i] !in cs {
        if i < |head| { assert s[i] == head[i]; }
        else if i > |head| { assert s[i] == rest[i - |head| - 1]; }
      }
    }
  }

  /** `SplitJoinWith` for pieces given as plain strings. */
  lemma SplitPlain(pieces: seq<string>, d: char, cs: set<char>)
    requires d in cs
    requires forall i :: 0 <= i < |pieces| ==> IsPlain(pieces[i], cs)
    ensures Split(JoinWith(pieces, d), d) == pieces
  {
    forall i | 0 <= i < |pieces| ensures d !in pieces[i] {
      AvoidsNotIn(pieces[i], cs, d);
    }
    SplitJoinWith(pieces, d);
  }

  /** The characters no numeral contains. */
  const Delimiters: set<char> := {':', ';', ',', '#'}

  lemma NumeralPlain(n: int)
    requires IsInt32(n)
    ensures IsPlain(IntToString(n), Delimiters)
  {
    ParseIntToString(n);
    NumeralIsPlain(IntToString(n));
  }

  lemma NumeralParses(n: int)
    requires IsInt32(n)
    ensures ParseInt(IntToString(n)) == Success(n)
  {
    ParseIntToString(n);
  }

  // ---------------------------------------------------------------------------
  // The server's side: writing messages

  predicate AllInt32(ns: seq<int>) {
    forall i :: 0 <= i < |ns| ==> IsInt32(ns[i])
  }

  function Numerals(ns: seq<int>): (r: seq<string>)
    ensures |r| == |ns| && forall i :: 0 <= i < |ns| ==> r[i] == IntToString(ns[i])
    decreases |ns|
  {
    if |ns| == 0 then [] else [IntToString(ns[0])] + Numerals(ns[1..])
  }

  /** `<n>,<n>,...`. */
  function EncodeInts(ns: seq<int>): string {
    JoinWith(Numerals(ns), ',')
  }

  function EncodePoint(p: Point): string {
    EncodeInts([p.x, p.y])
  }

  function PointPieces(ps: seq<Point>): (r: seq<string>)
    ensures |r| == |ps| && forall i :: 0 <= i < |ps| ==> r[i] == EncodePoint(ps[i])
    decreases |ps|
  {
    if |ps| == 0 then [] else [EncodePoint(ps[0])] + PointPieces(ps[1..])
  }

  function EncodePoints(ps: seq<Point>): string {
    JoinWith(PointPieces(ps), ';')
  }

  function EncodePlayerNumber(n: int): string {
    "P" + IntToString(n)
  }

  /** `P<n>;<x>,<y>;<d>`, as three `;`-parts. */
  function JoinParts(d: JoinDetails): seq<string> {
    [EncodePlayerNumber(d.playerNumber), EncodePoint(d.location), IntToString(d.facingDirection)]
  }

  function EncodeJoinDetails(d: JoinDetails): string {
    JoinWith(JoinParts(d), ';')
  }

  /** `P<n>;<x>,<y>;<d>;<shot>;<health>;<coins>;<points>`, as seven `;`-parts. */
  function PlayerParts(d: PlayerDetails): seq<string> {
    [EncodePlayerNumber(d.playerNumber), EncodePoint(d.location), IntToString(d.facingDirection),
     if d.isShot then "1" else "0", IntToString(d.health), IntToString(d.coins), IntToString(d.points)]
  }

  function EncodePlayerDetails(d: PlayerDetails): string {
    JoinWith(PlayerParts(d), ';')
  }

  function EncodeDamage(d: DamageDetails): string {
    EncodeInts([d.location.x, d.location.y, d.damageLevel])
  }

  function DamagePieces(ds: seq<DamageDetails>): (r: seq<string>)
    ensures |r| == |ds| && forall i :: 0 <= i < |ds| ==> r[i] == EncodeDamage(ds[i])
    decreases |ds|
  {
    if |ds| == 0 then [] else [EncodeDamage(ds[0])] + DamagePieces(ds[1..])
  }

  function EncodeDamages(ds: seq<DamageDetails>): string {
    JoinWith(DamagePieces(ds), ';')
  }

  function PlayerPieces(ps: seq<PlayerDetails>): (r: seq<string>)
    ensures |r| == |ps| && forall i :: 0 <= i < |ps| ==> r[i] == EncodePlayerDetails(ps[i])
    decreases |ps|
  {
    if |ps| == 0 then [] else [EncodePlayerDetails(ps[0])] + PlayerPieces(ps[1..])
  }

  /** The colon fields of a long-form message, tag first. */
  function Fields(m: Message): seq<string>
    requires IsLongForm(m) && (m.Join? ==> |m.tanksDetails| == 1)
  {
    match m
    case Join(ds) => ["S", EncodeJoinDetails(ds[0])]
    case Initiation(n, bricks, stones, waters) =>
      ["I", EncodePlayerNumber(n), EncodePoints(bricks), EncodePoints(stones), EncodePoints(waters)]
    case Broadcast(players, damages) =>
      ["G"] + PlayerPieces(players) + [EncodeDamages(damages)]
    case LifepackAppeared(p, t) => ["L", EncodePoint(p), IntToString(t)]
    case CoinpackAppeared(p, t, v) => ["C", EncodePoint(p), IntToString(t), IntToString(v)]
  }

  /** The frame the server writes for a long-form message. */
  function Encode(m: Message): string
    requires IsLongForm(m) && (m.Join? ==> |m.tanksDetails| == 1)
  {
    JoinWith(Fields(m), ':') + "#"
  }

  predicate PointInt32(p: Point) {
    IsInt32(p.x) && IsInt32(p.y)
  }

  predicate PointsInt32(ps: seq<Point>) {
    forall i :: 0 <= i < |ps| ==> PointInt32(ps[i])
  }

  predicate JoinDetailsInt32(d: JoinDetails) {
    IsInt32(d.playerNumber) && PointInt32(d.location) && IsInt32(d.facingDirection)
  }

  predicate PlayerDetailsInt32(d: PlayerDetails) {
    IsInt32(d.playerNumber) && PointInt32(d.location) && IsInt32(d.facingDirection)
    && IsInt32(d.health) && IsInt32(d.coins) && IsInt32(d.points)
  }

  predicate DamageInt32(d: DamageDetails) {
    PointInt32(d.location) && IsInt32(d.damageLevel)
  }

  /** The messages the wire can carry: 32-bit numbers, one tank per join reply,
      and no empty list where an empty field would vanish in the colon split. */
  predicate Encodable(m: Message) {
    match m
    case Join(ds) => |ds| == 1 && JoinDetailsInt32(ds[0])
    case Initiation(n, bricks, stones, waters) =>
      IsInt32(n) && |bricks| > 0 && |stones| > 0 && |waters| > 0
      && PointsInt32(bricks) && PointsInt32(stones) && PointsInt32(waters)
    case Broadcast(players, damages) =>
      |damages| > 0
      && (forall i :: 0 <= i < |players| ==> PlayerDetailsInt32(players[i]))
      && (forall i :: 0 <= i < |damages| ==> DamageInt32(damages[i]))
    case LifepackAppeared(p, t) => PointInt32(p) && IsInt32(t)
    case CoinpackAppeared(p, t, v) => PointInt32(p) && IsInt32(t) && IsInt32(v)
    case JoinFail(_) => false
    case CommandFail(_) => false
  }

  // ---------------------------------------------------------------------------
  // The client's side: reading them back

  /** What a `;`-part avoids, and what a colon field avoids. */
  const PartDelimiters: set<char> := {':', ';', '#'}
  const FieldDelimiters: set<char> := {':', '#'}

  lemma PlainWeaken(s: string, big: set<char>, small: set<char>)
    requires IsPlain(s, big) && small <= big
    ensures IsPlain(s, small)
  {
  }

  lemma NumeralPart(n: int)
    requires IsInt32(n)
    ensures IsPlain(IntToString(n), PartDelimiters)
  {
    NumeralPlain(n);
  }

  lemma NumeralField(n: int)
    requires IsInt32(n)
    ensures IsPlain(IntToString(n), FieldDelimiters)
  {
    NumeralPlain(n);
  }

  lemma PlayerNumberPlain(n: int)
    requires IsInt32(n)
    ensures IsPlain(EncodePlayerNumber(n), PartDelimiters)
  {
    NumeralPlain(n);
    var s := EncodePlayerNumber(n);
    assert s[|s| - 1] == IntToString(n)[|IntToString(n)| - 1];
    forall i | 0 <= i < |s| ensures s[i] !in PartDelimiters {
      if i > 0 { assert s[i] == IntToString(n)[i - 1]; }
    }
  }

  lemma PlayerNumberField(n: int)
    requires IsInt32(n)
    ensures IsPlain(EncodePlayerNumber(n), FieldDelimiters)
  {
    PlayerNumberPlain(n);
  }

  lemma PlayerNumberParses(n: int)
    requires IsInt32(n)
    ensures |EncodePlayerNumber(n)| > 0 && ParsePlayerNumber(EncodePlayerNumber(n)) == Success(n)
  {
    NumeralParses(n);
    assert EncodePlayerNumber(n)[1..] == IntToString(n);
  }

  lemma NumeralsPlain(ns: seq<int>)
    requires AllInt32(ns)
    ensures forall i :: 0 <= i < |ns| ==> IsPlain(Numerals(ns)[i], Delimiters)
  {
    forall i | 0 <= i < |ns| ensures IsPlain(Numerals(ns)[i], Delimiters) {
      NumeralPlain(ns[i]);
    }
  }

  lemma ParseNumerals(ns: seq<int>)
    requires AllInt32(ns)
    ensures ParseInts(Numerals(ns)) == Success(ns)
  {
    forall i | 0 <= i < |ns| ensures ParseInt(Numerals(ns)[i]) == Success(ns[i]) {
      NumeralParses(ns[i]);
    }
    var r := ParseInts(Numerals(ns));
    assert r.Success?;
    assert r.value == ns;
  }

  lemma EncodeIntsPlain(ns: seq<int>)
    requires |ns| >= 1 && AllInt32(ns)
    ensures IsPlain(EncodeInts(ns), PartDelimiters)
  {
    NumeralsPlain(ns);
    assert PartDelimiters + {','} == Delimiters;
    JoinWithPlain(Numerals(ns), ',', PartDelimiters);
  }

  lemma EncodeIntsSplit(ns: seq<int>)
    requires |ns| >= 1 && AllInt32(ns)
    ensures SplitByComma(EncodeInts(ns)) == Numerals(ns)
  {
    NumeralsPlain(ns);
    SplitPlain(Numerals(ns), ',', Delimiters);
  }

  /** `<n>,<n>,...` reads back as the same numbers. */
  lemma EncodeIntsParses(ns: seq<int>)
    requires |ns| >= 1 && AllInt32(ns)
    ensures ParseCommaInts(EncodeInts(ns)) == Success(ns)
  {
    EncodeIntsSplit(ns);
    ParseNumerals(ns);
  }

  lemma EncodePointPlain(p: Point)
    requires PointInt32(p)
    ensures IsPlain(EncodePoint(p), PartDelimiters)
  {
    EncodeIntsPlain([p.x, p.y]);
  }

  lemma EncodePointField(p: Point)
    requires PointInt32(p)
    ensures IsPlain(EncodePoint(p), FieldDelimiters)
  {
    EncodePointPlain(p);
  }

  lemma EncodePointParses(p: Point)
    requires PointInt32(p)
    ensures ParseCommaInts(EncodePoint(p)) == Success([p.x, p.y])
  {
    EncodeIntsParses([p.x, p.y]);
  }

  /** Plain `;`-parts joined with `;` form a plain colon field. */
  lemma SemicolonJoinPlain(parts: seq<string>)
    requires |parts| >= 1 && forall i :: 0 <= i < |parts| ==> IsPlain(parts[i], PartDelimiters)
    ensures IsPlain(JoinWith(parts, ';'), FieldDelimiters)
  {
    assert FieldDelimiters + {';'} == PartDelimiters;
    JoinWithPlain(parts, ';', FieldDelimiters);
  }

  /** ... which splits back into them. */
  lemma SemicolonJoinSplit(parts: seq<string>)
    requires forall i :: 0 <= i < |parts| ==> IsPlain(parts[i], PartDelimiters)
    ensures SplitBySemicolon(JoinWith(parts, ';')) == parts
  {
    SplitPlain(parts, ';', PartDelimiters);
  }

  function PointPairs(ps: seq<Point>): (r: seq<seq<int>>)
    ensures |r| == |ps| && forall i :: 0 <= i < |ps| ==> r[i] == [ps[i].x, ps[i].y]
    decreases |ps|
  {
    if |ps| == 0 then [] else [[ps[0].x, ps[0].y]] + PointPairs(ps[1..])
  }

  // The decoders, read over pieces whose own readings are known.

  lemma {:induction false} ParsePointArraysOf(pieces: seq<string>, pairs: seq<seq<int>>)
    requires |pieces| == |pairs|
    requires forall i :: 0 <= i < |pieces| ==> ParseCommaInts(pieces[i]) == Success(pairs[i])
    ensures ParsePointArrays(pieces) == Success(pairs)
    decreases |pieces|
  {
    if pieces != [] {
      assert ParseCommaInts(pieces[0]) == Success(pairs[0]);
      forall i | 0 <= i < |pieces| - 1 ensures ParseCommaInts(pieces[1..][i]) == Success(pairs[1..][i]) {
        assert pieces[1..][i] == pieces[i + 1];
      }
      ParsePointArraysOf(pieces[1..], pairs[1..]);
      assert [pairs[0]] + pairs[1..] == pairs;
    }
  }

  lemma {:induction false} ToPointsOfPairs(ps: seq<Point>)
    ensures ToPoints(PointPairs(ps)) == Success(ps)
    decreases |ps|
  {
    if ps != [] {
      var pairs := PointPairs(ps);
      assert At(pairs[0], 0) == Success(ps[0].x);
      assert At(pairs[0], 1) == Success(ps[0].y);
      ToPointsOfPairs(ps[1..]);
      assert pairs[1..] == PointPairs(ps[1..]);
      assert [ps[0]] + ps[1..] == ps;
    }
  }

  lemma {:induction false} DecodePlayersOf(records: seq<string>, ps: seq<PlayerDetails>)
    requires |records| == |ps|
    requires forall i :: 0 <= i < |records| ==> DecodePlayerDetails(records[i]) == Success(ps[i])
    ensures DecodePlayers(records) == Success(ps)
    decreases |records|
  {
    if records != [] {
      assert DecodePlayerDetails(records[0]) == Success(ps[0]);
      forall i | 0 <= i < |records| - 1 ensures DecodePlayerDetails(records[1..][i]) == Success(ps[1..][i]) {
        assert records[1..][i] == records[i + 1];
      }
      DecodePlayersOf(records[1..], ps[1..]);
      assert [ps[0]] + ps[1..] == ps;
    }
  }

  lemma {:induction false} DecodeDamagesOf(items: seq<string>, ds: seq<DamageDetails>)
    requires |items| == |ds|
    requires forall i :: 0 <= i < |items| ==> DecodeDamageDetails(items[i]) == Success(ds[i])
    ensures DecodeDamages(items) == Success(ds)
    decreases |items|
  {
    if items != [] {
      assert DecodeDamageDetails(items[0]) == Success(ds[0]);
      forall i | 0 <= i < |items| - 1 ensures DecodeDamageDetails(items[1..][i]) == Success(ds[1..][i]) {
        assert items[1..][i] == items[i + 1];
      }
      DecodeDamagesOf(items[1..], ds[1..]);
      assert [ds[0]] + ds[1..] == ds;
    }
  }

  lemma DecodeJoinPartsOf(parts: seq<string>, d: JoinDetails)
    requires |parts| == 3 && NonEmptyPieces(parts)
    requires ParsePlayerNumber(parts[0]) == Success(d.playerNumber)
    requires ParseCommaInts(parts[1]) == Success([d.location.x, d.location.y])
    requires ParseInt(parts[2]) == Success(d.facingDirection)
    ensures DecodeJoinParts(parts) == Success(Join([d]))
  {
    var location := [d.location.x, d.location.y];
    assert At(parts, 0) == Success(parts[0]);
    assert At(parts, 1) == Success(parts[1]);
    assert At(parts, 2) == Success(parts[2]);
    assert At(location, 0) == Success(d.location.x);
    assert At(location, 1) == Success(d.location.y);
  }

  lemma DecodePlayerPartsOf(parts: seq<string>, d: PlayerDetails)
    requires |parts| == 7 && NonEmptyPieces(parts)
    requires ParsePlayerNumber(parts[0]) == Success(d.playerNumber)
    requires ParseCommaInts(parts[1]) == Success([d.location.x, d.location.y])
    requires ParseInt(parts[2]) == Success(d.facingDirection)
    requires (parts[3] == "1") == d.isShot
    requires ParseInt(parts[4]) == Success(d.health)
    requires ParseInt(parts[5]) == Success(d.coins)
    requires ParseInt(parts[6]) == Success(d.points)
    ensures DecodePlayerParts(parts) == Success(d)
  {
    var location := [d.location.x, d.location.y];
    assert At(parts, 0) == Success(parts[0]);
    assert At(parts, 1) == Success(parts[1]);
    assert At(parts, 2) == Success(parts[2]);
    assert At(parts, 3) == Success(parts[3]);
    assert At(parts, 4) == Success(parts[4]);
    assert At(parts, 5) == Success(parts[5]);
    assert At(parts, 6) == Success(parts[6]);
    assert At(location, 0) == Success(d.location.x);
    assert At(location, 1) == Success(d.location.y);
  }

  lemma DecodeDamageDetailsOf(item: string, d: DamageDetails)
    requires ParseCommaInts(item) == Success([d.location.x, d.location.y, d.damageLevel])
    ensures DecodeDamageDetails(item) == Success(d)
  {
    var numbers := [d.location.x, d.location.y, d.damageLevel];
    assert At(numbers, 0) == Success(d.location.x);
    assert At(numbers, 1) == Success(d.location.y);
    assert At(numbers, 2) == Success(d.damageLevel);
  }

  lemma DecodeInitiationOf(fields: seq<string>, m: Message)
    requires m.Initiation? && |fields| == 5 && NonEmptyPieces(fields)
    requires ParsePlayerNumber(fields[1]) == Success(m.playerNumber)
    requires ParsePointArrays(SplitBySemicolon(fields[2])) == Success(PointPairs(m.bricks))
    requires ParsePointArrays(SplitBySemicolon(fields[3])) == Success(PointPairs(m.stones))
    requires ParsePointArrays(SplitBySemicolon(fields[4])) == Success(PointPairs(m.waters))
    requires ToPoints(PointPairs(m.bricks)) == Success(m.bricks)
    requires ToPoints(PointPairs(m.stones)) == Success(m.stones)
    requires ToPoints(PointPairs(m.waters)) == Success(m.waters)
    ensures DecodeInitiation(fields) == Success(m)
  {
    assert At(fields, 1) == Success(fields[1]);
    assert At(fields, 2) == Success(fields[2]);
    assert At(fields, 3) == Success(fields[3]);
    assert At(fields, 4) == Success(fields[4]);
  }

  lemma DecodeBroadcastOf(fields: seq<string>, m: Message)
    requires m.Broadcast? && |fields| >= 1
    requires DecodePlayers(PlayerRecords(fields)) == Success(m.playersDetails)
    requires DecodeDamages(SplitBySemicolon(fields[|fields| - 1])) == Success(m.damagesDetails)
    ensures DecodeBroadcast(fields) == Success(m)
  {
  }

  lemma DecodeLifepackOf(fields: seq<string>, m: Message)
    requires m.LifepackAppeared? && |fields| == 3
    requires ParseCommaInts(fields[1]) == Success([m.location.x, m.location.y])
    requires ParseInt(fields[2]) == Success(m.remainingTime)
    ensures DecodeLifepack(fields) == Success(m)
  {
    var location := [m.location.x, m.location.y];
    assert At(fields, 1) == Success(fields[1]);
    assert At(location, 0) == Success(m.location.x);
    assert At(location, 1) == Success(m.location.y);
    assert At(fields, 2) == Success(fields[2]);
  }

  lemma DecodeCoinpackOf(fields: seq<string>, m: Message)
    requires m.CoinpackAppeared? && |fields| == 4
    requires ParseCommaInts(fields[1]) == Success([m.location.x, m.location.y])
    requires ParseInt(fields[2]) == Success(m.remainingTime)
    requires ParseInt(fields[3]) == Success(m.coinValue)
    ensures DecodeCoinpack(fields) == Success(m)
  {
    var location := [m.location.x, m.location.y];
    assert At(fields, 1) == Success(fields[1]);
    assert At(location, 0) == Success(m.location.x);
    assert At(location, 1) == Success(m.location.y);
    assert At(fields, 2) == Success(fields[2]);
    assert At(fields, 3) == Success(fields[3]);
  }

  /** A decoder's result as a reply. */
  function Lift(r: Result<Message, Exception>): (reply: Reply)
    ensures r.Success? <==> reply.Success? && reply.value.Some?
    ensures r.Success? ==> reply.value.value == r.value
    ensures r.Failure? ==> reply == Failure(r.error)
  {
    match r
    case Success(m) => Success(Some(m))
    case Failure(e) => Failure(e)
  }

  /** The tag picks the decoder. */
  lemma DispatchJoin(fields: seq<string>)
    requires |fields| >= 1 && NonEmptyPieces(fields) && fields[0] == "S"
    ensures DecodeLongForm(fields) == Lift(DecodeJoin(fields))
  {
  }

  lemma DispatchInitiation(fields: seq<string>)
    requires |fields| >= 1 && NonEmptyPieces(fields) && fields[0] == "I"
    ensures DecodeLongForm(fields) == Lift(DecodeInitiation(fields))
  {
  }

  lemma DispatchBroadcast(fields: seq<string>)
    requires |fields| >= 1 && NonEmptyPieces(fields) && fields[0] == "G"
    ensures DecodeLongForm(fields) == Lift(DecodeBroadcast(fields))
  {
  }

  lemma DispatchLifepack(fields: seq<string>)
    requires |fields| >= 1 && NonEmptyPieces(fields) && fields[0] == "L"
    ensures DecodeLongForm(fields) == Lift(DecodeLifepack(fields))
  {
  }

  lemma DispatchCoinpack(fields: seq<string>)
    requires |fields| >= 1 && NonEmptyPieces(fields) && fields[0] == "C"
    ensures DecodeLongForm(fields) == Lift(DecodeCoinpack(fields))
  {
  }

  // The encodings, read back piece by piece.

  lemma PointPiecesPlain(ps: seq<Point>)
    requires PointsInt32(ps)
    ensures forall i :: 0 <= i < |ps| ==> IsPlain(PointPieces(ps)[i], PartDelimiters)
  {
    forall i | 0 <= i < |ps| ensures IsPlain(PointPieces(ps)[i], PartDelimiters) {
      EncodePointPlain(ps[i]);
    }
  }

  lemma PointPiecesParse(ps: seq<Point>)
    requires PointsInt32(ps)
    ensures forall i :: 0 <= i < |ps| ==> ParseCommaInts(PointPieces(ps)[i]) == Success(PointPairs(ps)[i])
  {
    forall i | 0 <= i < |ps| ensures ParseCommaInts(PointPieces(ps)[i]) == Success(PointPairs(ps)[i]) {
      EncodePointParses(ps[i]);
    }
  }

  lemma EncodePointsPlain(ps: seq<Point>)
    requires |ps| >= 1 && PointsInt32(ps)
    ensures IsPlain(EncodePoints(ps), FieldDelimiters)
  {
    PointPiecesPlain(ps);
    SemicolonJoinPlain(PointPieces(ps));
  }

  lemma EncodePointsSplit(ps: seq<Point>)
    requires PointsInt32(ps)
    ensures SplitBySemicolon(EncodePoints(ps)) == PointPieces(ps)
  {
    PointPiecesPlain(ps);
    SemicolonJoinSplit(PointPieces(ps));
  }

  /** A point list field reads back as its points. */
  lemma EncodePointsParses(ps: seq<Point>)
    requires PointsInt32(ps)
    ensures ParsePointArrays(SplitBySemicolon(EncodePoints(ps))) == Success(PointPairs(ps))
  {
    EncodePointsSplit(ps);
    PointPiecesParse(ps);
    ParsePointArraysOf(PointPieces(ps), PointPairs(ps));
  }

  lemma JoinPartsPlain(d: JoinDetails)
    requires JoinDetailsInt32(d)
    ensures forall i :: 0 <= i < |JoinParts(d)| ==> IsPlain(JoinParts(d)[i], PartDelimiters)
  {
    PlayerNumberPlain(d.playerNumber);
    EncodePointPlain(d.location);
    NumeralPart(d.facingDirection);
  }

  lemma EncodeJoinDetailsPlain(d: JoinDetails)
    requires JoinDetailsInt32(d)
    ensures IsPlain(EncodeJoinDetails(d), FieldDelimiters)
  {
    JoinPartsPlain(d);
    SemicolonJoinPlain(JoinParts(d));
  }

  lemma EncodeJoinDetailsSplit(d: JoinDetails)
    requires JoinDetailsInt32(d)
    ensures SplitBySemicolon(EncodeJoinDetails(d)) == JoinParts(d)
  {
    JoinPartsPlain(d);
    SemicolonJoinSplit(JoinParts(d));
  }

  /** The three parts of a join reply read back as its number, location and direction. */
  lemma JoinPartsRead(d: JoinDetails)
    requires JoinDetailsInt32(d)
    ensures |JoinParts(d)| == 3 && |JoinParts(d)[0]| > 0
    ensures ParsePlayerNumber(JoinParts(d)[0]) == Success(d.playerNumber)
    ensures ParseCommaInts(JoinParts(d)[1]) == Success([d.location.x, d.location.y])
    ensures ParseInt(JoinParts(d)[2]) == Success(d.facingDirection)
  {
    PlayerNumberParses(d.playerNumber);
    EncodePointParses(d.location);
    NumeralParses(d.facingDirection);
  }

  /** The join reply's field reads back as the one tank it describes. */
  lemma EncodeJoinDetailsParses(d: JoinDetails)
    requires JoinDetailsInt32(d)
    ensures DecodeJoin(["S", EncodeJoinDetails(d)]) == Success(Join([d]))
  {
    EncodeJoinDetailsSplit(d);
    JoinPartsRead(d);
    DecodeJoinPartsOf(JoinParts(d), d);
    assert At(["S", EncodeJoinDetails(d)], 1) == Success(EncodeJoinDetails(d));
  }

  lemma PlayerPartPlain(d: PlayerDetails, k: nat)
    requires PlayerDetailsInt32(d) && k < 7
    ensures IsPlain(PlayerParts(d)[k], PartDelimiters)
  {
    if k == 0 {
      PlayerNumberPlain(d.playerNumber);
    } else if k == 1 {
      EncodePointPlain(d.location);
    } else if k == 2 {
      NumeralPart(d.facingDirection);
    } else if k == 4 {
      NumeralPart(d.health);
    } else if k == 5 {
      NumeralPart(d.coins);
    } else if k == 6 {
      NumeralPart(d.points);
    }
  }

  lemma PlayerPartsPlain(d: PlayerDetails)
    requires PlayerDetailsInt32(d)
    ensures forall i :: 0 <= i < |PlayerParts(d)| ==> IsPlain(PlayerParts(d)[i], PartDelimiters)
  {
    forall i | 0 <= i < |PlayerParts(d)| ensures IsPlain(PlayerParts(d)[i], PartDelimiters) {
      PlayerPartPlain(d, i);
    }
  }

  lemma EncodePlayerDetailsPlain(d: PlayerDetails)
    requires PlayerDetailsInt32(d)
    ensures IsPlain(EncodePlayerDetails(d), FieldDelimiters)
  {
    PlayerPartsPlain(d);
    SemicolonJoinPlain(PlayerParts(d));
  }

  lemma EncodePlayerDetailsSplit(d: PlayerDetails)
    requires PlayerDetailsInt32(d)
    ensures SplitBySemicolon(EncodePlayerDetails(d)) == PlayerParts(d)
  {
    PlayerPartsPlain(d);
    SemicolonJoinSplit(PlayerParts(d));
  }

  /** The shot flag is written `1` or `0` and read as "is `1`". */
  lemma ShotFlag(isShot: bool)
    ensures ((if isShot then "1" else "0") == "1") == isShot
  {
    assert "0"[0] != "1"[0];
  }

  /** The first part of a player record reads back as its player number. */
  lemma PlayerPartNumber(d: PlayerDetails)
    requires PlayerDetailsInt32(d)
    ensures |PlayerParts(d)[0]| > 0 && ParsePlayerNumber(PlayerParts(d)[0]) == Success(d.playerNumber)
  {
    PlayerNumberParses(d.playerNumber);
  }

  /** The second part reads back as its location. */
  lemma PlayerPartLocation(d: PlayerDetails)
    requires PlayerDetailsInt32(d)
    ensures ParseCommaInts(PlayerParts(d)[1]) == Success([d.location.x, d.location.y])
  {
    EncodePointParses(d.location);
  }

  /** Parts 2, 4, 5 and 6 read back as direction, health, coins and points. */
  lemma PlayerPartNumeral(d: PlayerDetails, k: nat, n: int)
    requires PlayerDetailsInt32(d) && k in {2, 4, 5, 6}
    requires n == (if k == 2 then d.facingDirection else if k == 4 then d.health
                   else if k == 5 then d.coins else d.points)
    ensures ParseInt(PlayerParts(d)[k]) == Success(n)
  {
    assert PlayerParts(d)[k] == IntToString(n);
    NumeralParses(n);
  }

  /** The seven parts of a player record read back as the details' fields. */
  lemma PlayerPartsRead(d: PlayerDetails)
    requires PlayerDetailsInt32(d)
    ensures |PlayerParts(d)| == 7 && |PlayerParts(d)[0]| > 0
    ensures ParsePlayerNumber(PlayerParts(d)[0]) == Success(d.playerNumber)
    ensures ParseCommaInts(PlayerParts(d)[1]) == Success([d.location.x, d.location.y])
    ensures ParseInt(PlayerParts(d)[2]) == Success(d.facingDirection)
    ensures (PlayerParts(d)[3] == "1") == d.isShot
    ensures ParseInt(PlayerParts(d)[4]) == Success(d.health)
    ensures ParseInt(PlayerParts(d)[5]) == Success(d.coins)
    ensures ParseInt(PlayerParts(d)[6]) == Success(d.points)
  {
    PlayerPartNumber(d);
    PlayerPartLocation(d);
    PlayerPartNumeral(d, 2, d.facingDirection);
    ShotFlag(d.isShot);
    PlayerPartNumeral(d, 4, d.health);
    PlayerPartNumeral(d, 5, d.coins);
    PlayerPartNumeral(d, 6, d.points);
  }

  /** A broadcast player record reads back as the details it encodes, the shot flag included. */
  lemma EncodePlayerDetailsParses(d: PlayerDetails)
    requires PlayerDetailsInt32(d)
    ensures DecodePlayerDetails(EncodePlayerDetails(d)) == Success(d)
  {
    EncodePlayerDetailsSplit(d);
    PlayerPartsRead(d);
    DecodePlayerPartsOf(PlayerParts(d), d);
  }

  lemma PlayersParse(ps: seq<PlayerDetails>)
    requires forall i :: 0 <= i < |ps| ==> PlayerDetailsInt32(ps[i])
    ensures DecodePlayers(PlayerPieces(ps)) == Success(ps)
  {
    forall i | 0 <= i < |ps| ensures DecodePlayerDetails(PlayerPieces(ps)[i]) == Success(ps[i]) {
      EncodePlayerDetailsParses(ps[i]);
    }
    DecodePlayersOf(PlayerPieces(ps), ps);
  }

  lemma EncodeDamagePlain(d: DamageDetails)
    requires DamageInt32(d)
    ensures IsPlain(EncodeDamage(d), PartDelimiters)
  {
    EncodeIntsPlain([d.location.x, d.location.y, d.damageLevel]);
  }

  lemma EncodeDamageParses(d: DamageDetails)
    requires DamageInt32(d)
    ensures DecodeDamageDetails(EncodeDamage(d)) == Success(d)
  {
    EncodeIntsParses([d.location.x, d.location.y, d.damageLevel]);
    DecodeDamageDetailsOf(EncodeDamage(d), d);
  }

  lemma DamagePiecesPlain(ds: seq<DamageDetails>)
    requires forall i :: 0 <= i < |ds| ==> DamageInt32(ds[i])
    ensures forall i :: 0 <= i < |ds| ==> IsPlain(DamagePieces(ds)[i], PartDelimiters)
  {
    forall i | 0 <= i < |ds| ensures IsPlain(DamagePieces(ds)[i], PartDelimiters) {
      EncodeDamagePlain(ds[i]);
    }
  }

  lemma EncodeDamagesPlain(ds: seq<DamageDetails>)
    requires |ds| >= 1 && forall i :: 0 <= i < |ds| ==> DamageInt32(ds[i])
    ensures IsPlain(EncodeDamages(ds), FieldDelimiters)
  {
    DamagePiecesPlain(ds);
    SemicolonJoinPlain(DamagePieces(ds));
  }

  /** The damage field reads back as its damage items. */
  lemma EncodeDamagesParses(ds: seq<DamageDetails>)
    requires forall i :: 0 <= i < |ds| ==> DamageInt32(ds[i])
    ensures DecodeDamages(SplitBySemicolon(EncodeDamages(ds))) == Success(ds)
  {
    DamagePiecesPlain(ds);
    SemicolonJoinSplit(DamagePieces(ds));
    forall i | 0 <= i < |ds| ensures DecodeDamageDetails(DamagePieces(ds)[i]) == Success(ds[i]) {
      EncodeDamageParses(ds[i]);
    }
    DecodeDamagesOf(DamagePieces(ds), ds);
  }

  // Colon fields.

  predicate PlainFields(fields: seq<string>) {
    forall i :: 0 <= i < |fields| ==> IsPlain(fields[i], FieldDelimiters)
  }

  lemma PlainFieldsNonEmpty(fields: seq<string>)
    requires PlainFields(fields)
    ensures NonEmptyPieces(fields)
  {
  }

  lemma PlainTag(tag: string)
    requires tag in {"S", "I", "G", "L", "C"}
    ensures IsPlain(tag, FieldDelimiters)
  {
  }

  lemma PlainFieldsOf(fields: seq<string>)
    requires |fields| >= 1 && fields[0] in {"S", "I", "G", "L", "C"}
    requires forall i :: 1 <= i < |fields| ==> IsPlain(fields[i], FieldDelimiters)
    ensures PlainFields(fields)
  {
    PlainTag(fields[0]);
  }

  lemma PlainFieldsAround(tag: string, middle: seq<string>, last: string)
    requires tag in {"S", "I", "G", "L", "C"} && PlainFields(middle) && IsPlain(last, FieldDelimiters)
    ensures PlainFields([tag] + middle + [last])
  {
    var fields := [tag] + middle + [last];
    forall i | 1 <= i < |fields| ensures IsPlain(fields[i], FieldDelimiters) {
      if i < |fields| - 1 { assert fields[i] == middle[i - 1]; }
    }
    PlainFieldsOf(fields);
  }

  lemma PlayerPiecesPlain(ps: seq<PlayerDetails>)
    requires forall i :: 0 <= i < |ps| ==> PlayerDetailsInt32(ps[i])
    ensures PlainFields(PlayerPieces(ps))
  {
    forall i | 0 <= i < |ps| ensures IsPlain(PlayerPieces(ps)[i], FieldDelimiters) {
      EncodePlayerDetailsPlain(ps[i]);
    }
  }

  lemma JoinFieldsPlain(m: Message)
    requires m.Join? && Encodable(m)
    ensures |Fields(m)| >= 2 && PlainFields(Fields(m))
  {
    EncodeJoinDetailsPlain(m.tanksDetails[0]);
    PlainFieldsOf(Fields(m));
  }

  lemma InitiationFieldsPlain(m: Message)
    requires m.Initiation? && Encodable(m)
    ensures |Fields(m)| >= 2 && PlainFields(Fields(m))
  {
    PlayerNumberField(m.playerNumber);
    EncodePointsPlain(m.bricks);
    EncodePointsPlain(m.stones);
    EncodePointsPlain(m.waters);
    PlainFieldsOf(Fields(m));
  }

  lemma BroadcastFieldsPlain(m: Message)
    requires m.Broadcast? && Encodable(m)
    ensures |Fields(m)| >= 2 && PlainFields(Fields(m))
  {
    PlayerPiecesPlain(m.playersDetails);
    EncodeDamagesPlain(m.damagesDetails);
    PlainFieldsAround("G", PlayerPieces(m.playersDetails), EncodeDamages(m.damagesDetails));
  }

  lemma PackFieldsPlain(m: Message)
    requires (m.LifepackAppeared? || m.CoinpackAppeared?) && Encodable(m)
    ensures |Fields(m)| >= 2 && PlainFields(Fields(m))
  {
    EncodePointField(m.location);
    NumeralField(m.remainingTime);
    if m.CoinpackAppeared? {
      NumeralField(m.coinValue);
    }
    PlainFieldsOf(Fields(m));
  }

  /** Every colon field of an encodable message is plain. */
  lemma FieldsPlain(m: Message)
    requires Encodable(m)
    ensures |Fields(m)| >= 2 && PlainFields(Fields(m)) && NonEmptyPieces(Fields(m))
  {
    if m.Join? {
      JoinFieldsPlain(m);
    } else if m.Initiation? {
      InitiationFieldsPlain(m);
    } else if m.Broadcast? {
      BroadcastFieldsPlain(m);
    } else {
      PackFieldsPlain(m);
    }
    PlainFieldsNonEmpty(Fields(m));
  }

  // Each decoder reads the fields of an encodable message of its kind back as that message.

  lemma JoinDecodes(m: Message)
    requires m.Join? && Encodable(m)
    ensures DecodeJoin(Fields(m)) == Success(m)
  {
    EncodeJoinDetailsParses(m.tanksDetails[0]);
    assert [m.tanksDetails[0]] == m.tanksDetails;
  }

  /** The fields of an initiation message read back as its player number and point lists. */
  lemma InitiationFieldsRead(m: Message)
    requires m.Initiation? && Encodable(m)
    ensures |Fields(m)| == 5 && NonEmptyPieces(Fields(m))
    ensures ParsePlayerNumber(Fields(m)[1]) == Success(m.playerNumber)
    ensures ParsePointArrays(SplitBySemicolon(Fields(m)[2])) == Success(PointPairs(m.bricks))
    ensures ParsePointArrays(SplitBySemicolon(Fields(m)[3])) == Success(PointPairs(m.stones))
    ensures ParsePointArrays(SplitBySemicolon(Fields(m)[4])) == Success(PointPairs(m.waters))
  {
    InitiationFieldsNonEmpty(m);
    PlayerNumberParses(m.playerNumber);
    PointsFieldRead(Fields(m), 2, m.bricks);
    PointsFieldRead(Fields(m), 3, m.stones);
    PointsFieldRead(Fields(m), 4, m.waters);
  }

  lemma PointsFieldRead(fields: seq<string>, k: nat, ps: seq<Point>)
    requires k < |fields| && fields[k] == EncodePoints(ps) && PointsInt32(ps)
    ensures ParsePointArrays(SplitBySemicolon(fields[k])) == Success(PointPairs(ps))
  {
    EncodePointsParses(ps);
  }

  lemma InitiationFieldsNonEmpty(m: Message)
    requires m.Initiation? && Encodable(m)
    ensures |Fields(m)| == 5 && NonEmptyPieces(Fields(m))
  {
    FieldsPlain(m);
  }

  lemma InitiationDecodes(m: Message)
    requires m.Initiation? && Encodable(m)
    ensures DecodeInitiation(Fields(m)) == Success(m)
  {
    InitiationFieldsRead(m);
    ToPointsOfPairs(m.bricks);
    ToPointsOfPairs(m.stones);
    ToPointsOfPairs(m.waters);
    DecodeInitiationOf(Fields(m), m);
  }

  lemma BroadcastDecodes(m: Message)
    requires m.Broadcast? && Encodable(m)
    ensures DecodeBroadcast(Fields(m)) == Success(m)
  {
    var fields := Fields(m);
    PlayersParse(m.playersDetails);
    EncodeDamagesParses(m.damagesDetails);
    assert PlayerRecords(fields) == PlayerPieces(m.playersDetails);
    assert fields[|fields| - 1] == EncodeDamages(m.damagesDetails);
    DecodeBroadcastOf(fields, m);
  }

  /** The fields of a life pack message read back as its numbers. */
  lemma LifepackFieldsRead(m: Message)
    requires m.LifepackAppeared? && Encodable(m)
    ensures |Fields(m)| == 3
    ensures ParseCommaInts(Fields(m)[1]) == Success([m.location.x, m.location.y])
    ensures ParseInt(Fields(m)[2]) == Success(m.remainingTime)
  {
    EncodePointParses(m.location);
    NumeralParses(m.remainingTime);
  }

  lemma LifepackDecodes(m: Message)
    requires m.LifepackAppeared? && Encodable(m)
    ensures DecodeLifepack(Fields(m)) == Success(m)
  {
    LifepackFieldsRead(m);
    DecodeLifepackOf(Fields(m), m);
  }

  /** The fields of a coin pack message read back as its numbers. */
  lemma CoinpackFieldsRead(m: Message)
    requires m.CoinpackAppeared? && Encodable(m)
    ensures |Fields(m)| == 4
    ensures ParseCommaInts(Fields(m)[1]) == Success([m.location.x, m.location.y])
    ensures ParseInt(Fields(m)[2]) == Success(m.remainingTime)
    ensures ParseInt(Fields(m)[3]) == Success(m.coinValue)
  {
    EncodePointParses(m.location);
    NumeralParses(m.remainingTime);
    NumeralParses(m.coinValue);
  }

  lemma CoinpackDecodes(m: Message)
    requires m.CoinpackAppeared? && Encodable(m)
    ensures DecodeCoinpack(Fields(m)) == Success(m)
  {
    CoinpackFieldsRead(m);
    DecodeCoinpackOf(Fields(m), m);
  }

  /** Reading the fields of an encodable message with its tag's decoder gives the message back. */
  lemma FieldsDecode(m: Message)
    requires Encodable(m)
    ensures DecodeLongForm(Fields(m)) == Success(Some(m))
  {
    var fields := Fields(m);
    FieldsPlain(m);
    match m
    case Join(_) =>
      JoinDecodes(m);
      DispatchJoin(fields);
    case Initiation(_, _, _, _) =>
      InitiationDecodes(m);
      DispatchInitiation(fields);
    case Broadcast(_, _) =>
      BroadcastDecodes(m);
      DispatchBroadcast(fields);
    case LifepackAppeared(_, _) =>
      LifepackDecodes(m);
      DispatchLifepack(fields);
    case CoinpackAppeared(_, _, _) =>
      CoinpackDecodes(m);
      DispatchCoinpack(fields);
  }

  // The frame.

  /** `GetMessage` on a frame with `:` whose stripped form splits into `fields`. */
  lemma GetMessageOfFrame(frame: string, fields: seq<string>)
    requires ':' in frame && SplitByColon(TrimHash(frame)) == fields && |fields| >= 1
    requires NonEmptyPieces(fields)
    ensures GetMessage(frame) == DecodeLongForm(fields)
  {
    assert At(fields, 0) == Success(fields[0]);
  }

  lemma JoinColonPlain(fields: seq<string>)
    requires |fields| >= 2 && PlainFields(fields)
    ensures IsPlain(JoinWith(fields, ':'), {'#'}) && ':' in JoinWith(fields, ':')
  {
    assert {'#'} + {':'} == FieldDelimiters;
    JoinWithPlain(fields, ':', {'#'});
  }

  lemma ColonSplit(fields: seq<string>)
    requires PlainFields(fields)
    ensures SplitByColon(JoinWith(fields, ':')) == fields
  {
    SplitPlain(fields, ':', FieldDelimiters);
  }

  /** Stripping the terminator of `<body>#` gives the body back, and the frame keeps the body's `:`. */
  lemma TrimHashOfFrame(body: string)
    requires IsPlain(body, {'#'}) && ':' in body
    ensures TrimHash(body + "#") == body && ':' in body + "#"
  {
    assert body[|body| - 1] != '#';
    TrimHashOfTerminated(body, 0);
    assert Hashes(1) == "#";
    var i :| 0 <= i < |body| && body[i] == ':';
    assert (body + "#")[i] == ':';
  }

  /** A frame of two or more plain colon fields is dispatched on its fields as they are. */
  lemma GetMessageOfFields(fields: seq<string>)
    requires |fields| >= 2 && PlainFields(fields)
    ensures GetMessage(JoinWith(fields, ':') + "#") == DecodeLongForm(fields)
  {
    var body := JoinWith(fields, ':');
    JoinColonPlain(fields);
    TrimHashOfFrame(body);
    ColonSplit(fields);
    PlainFieldsNonEmpty(fields);
    GetMessageOfFrame(body + "#", fields);
  }

  /** Round trip: every long-form frame the server writes decodes to the message it encodes. */
  lemma GetMessageOfEncode(m: Message)
    requires Encodable(m)
    ensures GetMessage(Encode(m)) == Success(Some(m))
  {
    FieldsPlain(m);
    FieldsDecode(m);
    GetMessageOfFields(Fields(m));
  }

  // ---------------------------------------------------------------------------
  // The protocol's own example frames

  /** `I:P1:0,0;1,1:2,2:3,3#`: player 1, bricks at (0,0) and (1,1), a stone at
      (2,2) and water at (3,3). */
  lemma InitiationExample()
    ensures GetMessage("I:P1:0,0;1,1:2,2:3,3#")
            == Success(Some(Initiation(1, [Point(0, 0), Point(1, 1)], [Point(2, 2)], [Point(3, 3)])))
  {
    var m := Initiation(1, [Point(0, 0), Point(1, 1)], [Point(2, 2)], [Point(3, 3)]);
    InitiationExampleFrame();
    SmallInitiationEncodable(1, Point(0, 0), Point(1, 1), Point(2, 2), Point(3, 3));
    GetMessageOfEncode(m);
  }

  lemma SmallInitiationEncodable(n: int, brick0: Point, brick1: Point, stone: Point, water: Point)
    requires IsInt32(n) && PointInt32(brick0) && PointInt32(brick1) && PointInt32(stone) && PointInt32(water)
    ensures Encodable(Initiation(n, [brick0, brick1], [stone], [water]))
  {
  }

  lemma InitiationExampleFrame()
    ensures Encode(Initiation(1, [Point(0, 0), Point(1, 1)], [Point(2, 2)], [Point(3, 3)]))
            == "I:P1:0,0;1,1:2,2:3,3#"
  {
    DigitInitiationFrame(1, 0, 1, 2, 3);
    assert DigitChar(0) == '0' && DigitChar(1) == '1' && DigitChar(2) == '2' && DigitChar(3) == '3';
  }

  /** The frame of an initiation whose numbers are all single digits, with two
      bricks, one stone and one water on the diagonal. */
  lemma DigitInitiationFrame(n: int, a: int, b: int, c: int, d: int)
    requires 0 <= n < 10 && 0 <= a < 10 && 0 <= b < 10 && 0 <= c < 10 && 0 <= d < 10
    ensures Encode(Initiation(n, [Point(a, a), Point(b, b)], [Point(c, c)], [Point(d, d)]))
            == ['I', ':', 'P', DigitChar(n), ':', DigitChar(a), ',', DigitChar(a), ';', DigitChar(b), ',', DigitChar(b),
                ':', DigitChar(c), ',', DigitChar(c), ':', DigitChar(d), ',', DigitChar(d), '#']
  {
    DiagonalPoint(a);
    DiagonalPoint(b);
    DiagonalPoint(c);
    DiagonalPoint(d);
    var na, nb, nc, nd := DigitChar(a), DigitChar(b), DigitChar(c), DigitChar(d);
    assert IntToString(n) == [DigitChar(n)];
    assert EncodePlayerNumber(n) == ['P', DigitChar(n)];
    var pieces := PointPieces([Point(a, a), Point(b, b)]);
    assert pieces == [[na, ',', na], [nb, ',', nb]];
    assert pieces[1..] == [[nb, ',', nb]];
    assert JoinWith(pieces, ';') == pieces[0] + [';'] + JoinWith(pieces[1..], ';');
    var bricks := [na, ',', na, ';', nb, ',', nb];
    assert EncodePoints([Point(a, a), Point(b, b)]) == bricks;
    assert EncodePoints([Point(c, c)]) == EncodePoint(Point(c, c));
    assert EncodePoints([Point(d, d)]) == EncodePoint(Point(d, d));
    var fields := Fields(Initiation(n, [Point(a, a), Point(b, b)], [Point(c, c)], [Point(d, d)]));
    assert fields == ["I", ['P', DigitChar(n)], bricks, [nc, ',', nc], [nd, ',', nd]];
    JoinFive("I", ['P', DigitChar(n)], bricks, [nc, ',', nc], [nd, ',', nd], ':');
    var s1 := "I" + [':'] + ['P', DigitChar(n)];
    assert s1 == ['I', ':', 'P', DigitChar(n)];
    var s2 := s1 + [':'] + bricks;
    assert s2 == ['I', ':', 'P', DigitChar(n), ':', na, ',', na, ';', nb, ',', nb];
    var s3 := s2 + [':'] + [nc, ',', nc];
    assert s3 == ['I', ':', 'P', DigitChar(n), ':', na, ',', na, ';', nb, ',', nb, ':', nc, ',', nc];
    var s4 := s3 + [':'] + [nd, ',', nd];
    assert s4 == ['I', ':', 'P', DigitChar(n), ':', na, ',', na, ';', nb, ',', nb, ':', nc, ',', nc, ':', nd, ',', nd];
  }

  lemma JoinFive(a: string, b: string, c: string, d: string, e: string, delimiter: char)
    ensures JoinWith([a, b, c, d, e], delimiter)
            == a + [delimiter] + b + [delimiter] + c + [delimiter] + d + [delimiter] + e
  {
    assert [d, e][1..] == [e];
    assert JoinWith([d, e], delimiter) == d + [delimiter] + e;
    assert [c, d, e][1..] == [d, e];
    assert JoinWith([c, d, e], delimiter) == c + [delimiter] + JoinWith([d, e], delimiter);
    assert [b, c, d, e][1..] == [c, d, e];
    assert JoinWith([b, c, d, e], delimiter) == b + [delimiter] + JoinWith([c, d, e], delimiter);
    assert [a, b, c, d, e][1..] == [b, c, d, e];
    assert JoinWith([a, b, c, d, e], delimiter) == a + [delimiter] + JoinWith([b, c, d, e], delimiter);
  }

  /** `<k>,<k>` for a one-digit `k`. */
  lemma DiagonalPoint(k: int)
    requires 0 <= k < 10
    ensures EncodePoint(Point(k, k)) == [DigitChar(k), ',', DigitChar(k)]
  {
    assert IntToString(k) == [DigitChar(k)];
    var ns := Numerals([k, k]);
    assert ns == [[DigitChar(k)], [DigitChar(k)]];
    assert JoinWith(ns[1..], ',') == [DigitChar(k)];
    assert JoinWith(ns, ',') == ns[0] + [','] + JoinWith(ns[1..], ',');
  }

  /** `S:P1;0,0;0#`: the join reply for player 1 at (0,0) facing north (0). */
  lemma JoinExample()
    ensures GetMessage("S:P1;0,0;0#") == Success(Some(Join([JoinDetails(1, Point(0, 0), 0)])))
  {
    var m := Join([JoinDetails(1, Point(0, 0), 0)]);
    assert Encode(m) == "S:P1;0,0;0#";
    GetMessageOfEncode(m);
  }
}
