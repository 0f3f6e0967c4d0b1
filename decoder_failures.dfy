/** How the decoder fails: a missing part or number is an
    `IndexOutOfRangeException`, a malformed number the exception `int.Parse`
    throws, and a frame with no piece at all an `InvalidOperationException`;
    a failed frame never yields a partly filled message. */
module DecoderFailures {
  import opened Wrappers
  import opened Entities
  import opened Messages
  import opened InputConvertors
  import opened Parsing
  import opened MessageFactory

  /** A join reply whose field lacks the direction part is rejected, not defaulted. */
  lemma JoinMissingDirection(parts: seq<string>)
    requires |parts| == 2 && NonEmptyPieces(parts)
    requires ParsePlayerNumber(parts[0]).Success? && ParseCommaInts(parts[1]).Success?
    ensures DecodeJoinParts(parts) == Failure(IndexOutOfRangeException)
  {
    assert At(parts, 0) == Success(parts[0]);
    assert At(parts, 1) == Success(parts[1]);
  }

  /** A join reply with no field after the tag is rejected. */
  lemma JoinMissingField(fields: seq<string>)
    requires |fields| < 2
    ensures DecodeJoin(fields) == Failure(IndexOutOfRangeException)
  {
  }

  /** A location with a single number is rejected when its `y` is read. */
  lemma LifepackShortLocation(fields: seq<string>, x: int)
    requires |fields| >= 3 && ParseCommaInts(fields[1]) == Success([x])
    ensures DecodeLifepack(fields) == Failure(IndexOutOfRangeException)
  {
    assert At(fields, 1) == Success(fields[1]);
    assert At([x], 0) == Success(x);
  }

  /** A malformed remaining time fails with the exception `int.Parse` throws. */
  lemma LifepackBadTime(fields: seq<string>, x: int, y: int)
    requires |fields| >= 3 && ParseCommaInts(fields[1]) == Success([x, y])
    requires ParseInt(fields[2]).Failure?
    ensures DecodeLifepack(fields) == Failure(ParseInt(fields[2]).error)
    ensures DecodeLifepack(fields).error == FormatException || DecodeLifepack(fields).error == OverflowException
  {
    assert At(fields, 1) == Success(fields[1]);
    assert At([x, y], 0) == Success(x);
    assert At([x, y], 1) == Success(y);
    assert At(fields, 2) == Success(fields[2]);
  }

  /** A coin pack frame without its value field is rejected. */
  lemma CoinpackMissingValue(fields: seq<string>, x: int, y: int)
    requires |fields| == 3 && ParseCommaInts(fields[1]) == Success([x, y])
    requires ParseInt(fields[2]).Success?
    ensures DecodeCoinpack(fields) == Failure(IndexOutOfRangeException)
  {
    assert At(fields, 1) == Success(fields[1]);
    assert At([x, y], 0) == Success(x);
    assert At([x, y], 1) == Success(y);
    assert At(fields, 2) == Success(fields[2]);
  }

  /** One bad player record makes the whole broadcast fail with its exception. */
  lemma {:induction false} PlayersFailOn(records: seq<string>, k: nat)
    requires k < |records| && DecodePlayerDetails(records[k]).Failure?
    requires forall i :: 0 <= i < k ==> DecodePlayerDetails(records[i]).Success?
    ensures DecodePlayers(records) == Failure(DecodePlayerDetails(records[k]).error)
    decreases k
  {
    if k > 0 {
      assert DecodePlayerDetails(records[0]).Success?;
      forall i | 0 <= i < k - 1 ensures DecodePlayerDetails(records[1..][i]).Success? {
        assert records[1..][i] == records[i + 1];
      }
      assert records[1..][k - 1] == records[k];
      PlayersFailOn(records[1..], k - 1);
    }
  }

  /** A bad damage item makes the whole broadcast fail, whatever the player records. */
  lemma {:induction false} DamagesFailOn(items: seq<string>, k: nat)
    requires k < |items| && DecodeDamageDetails(items[k]).Failure?
    requires forall i :: 0 <= i < k ==> DecodeDamageDetails(items[i]).Success?
    ensures DecodeDamages(items) == Failure(DecodeDamageDetails(items[k]).error)
    decreases k
  {
    if k > 0 {
      assert DecodeDamageDetails(items[0]).Success?;
      forall i | 0 <= i < k - 1 ensures DecodeDamageDetails(items[1..][i]).Success? {
        assert items[1..][i] == items[i + 1];
      }
      assert items[1..][k - 1] == items[k];
      DamagesFailOn(items[1..], k - 1);
    }
  }

  /** A frame without `:` whose stripped form has no non-blank `;`-piece throws from `.First()`. */
  lemma BlankShortFrame(message: string)
    requires ':' !in message && SplitBySemicolon(TrimHash(message)) == []
    ensures GetMessage(message) == Failure(InvalidOperationException)
  {
  }
}
