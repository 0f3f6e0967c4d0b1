/** The .NET primitives the decoder relies on: `int.Parse`, array indexing and
    the exceptions they throw. */
module Parsing {
  import opened Wrappers
  import InputConvertors

  /** The exceptions the modelled code can throw. */
  datatype Exception =
    | FormatException            // int.Parse on a malformed numeral
    | OverflowException          // int.Parse on a numeral outside 32 bits
    | IndexOutOfRangeException   // indexing past the end of a split result
    | InvalidOperationException  // .First() of an empty sequence, a list changed during ForEach
    | NullReferenceException     // a member read through a null world

  const Int32Min: int := -0x8000_0000
  const Int32Max: int := 0x7fff_ffff

  predicate IsInt32(n: int) {
    Int32Min <= n <= Int32Max
  }

  /** `a[i]` on a C# array: the element, or an `IndexOutOfRangeException`. */
  function At<T>(a: seq<T>, i: nat): (r: Result<T, Exception>)
    ensures r.Success? <==> i < |a|
    ensures r.Success? ==> r.value == a[i]
    ensures r.Failure? ==> r.error == IndexOutOfRangeException
  {
    if i < |a| then Success(a[i]) else Failure(IndexOutOfRangeException)
  }

  /** The white space `NumberStyles.Integer` allows around a numeral. */
  predicate IsNumberWhite(c: char) {
    c == ' ' || '\t' <= c <= '\r'
  }

  predicate IsDigit(c: char) {
    '0' <= c <= '9'
  }

  predicate AllDigits(s: string) {
    forall i :: 0 <= i < |s| ==> IsDigit(s[i])
  }

  function DigitsValue(s: string): nat
    requires AllDigits(s)
    decreases |s|
  {
    if s == [] then 0 else DigitsValue(s[..|s| - 1]) * 10 + (s[|s| - 1] as int - '0' as int)
  }

  function TrimNumberWhite(s: string): (r: string)
    ensures r == [] || (!IsNumberWhite(r[0]) && !IsNumberWhite(r[|r| - 1]))
    decreases |s|
  {
    if |s| > 0 && IsNumberWhite(s[0]) then TrimNumberWhite(s[1..])
    else if |s| > 0 && IsNumberWhite(s[|s| - 1]) then TrimNumberWhite(s[..|s| - 1])
    else s
  }

  /** `int.Parse(s)`: optional white space, an optional `+` or `-`, one or more
      ASCII digits, optional white space; the value must fit in 32 bits. */
  function ParseInt(s: string): (r: Result<int, Exception>)
    ensures r.Success? ==> IsInt32(r.value)
    ensures r.Failure? ==> r.error == FormatException || r.error == OverflowException
  {
    var t := TrimNumberWhite(s);
    var signed := |t| > 0 && (t[0] == '-' || t[0] == '+');
    var digits := if signed then t[1..] else t;
    if |digits| == 0 || !AllDigits(digits) then Failure(FormatException)
    else
      var magnitude: int := DigitsValue(digits);
      var v: int := if signed && t[0] == '-' then -magnitude else magnitude;
      if IsInt32(v) then Success(v) else Failure(OverflowException)
  }

  /** `pieces.Select(int.Parse).ToArray()`: parsed left to right, the first failure is thrown. */
  function ParseInts(pieces: seq<string>): (r: Result<seq<int>, Exception>)
    ensures r.Success? ==> |r.value| == |pieces|
    ensures r.Success? <==> forall i :: 0 <= i < |pieces| ==> ParseInt(pieces[i]).Success?
    ensures r.Success? ==> forall i :: 0 <= i < |pieces| ==> r.value[i] == ParseInt(pieces[i]).value
    decreases |pieces|
  {
    if pieces == [] then Success([])
    else
      var head :- ParseInt(pieces[0]);
      var tail :- ParseInts(pieces[1..]);
      assert forall i :: 1 <= i < |pieces| ==> pieces[i] == pieces[1..][i - 1];
      Success([head] + tail)
  }

  // ---------------------------------------------------------------------------
  // Printing integers, the inverse of int.Parse

  function DigitChar(k: nat): char
    requires k < 10
  {
    ('0' as int + k) as char
  }

  function NatToDigits(k: nat): (r: string)
    ensures |r| > 0 && AllDigits(r)
    decreases k
  {
    if k < 10 then [DigitChar(k)] else NatToDigits(k / 10) + [DigitChar(k % 10)]
  }

  /** The decimal numeral of `n`, as the server writes it. */
  function IntToString(n: int): (r: string)
    ensures |r| > 0
  {
    if n < 0 then "-" + NatToDigits(-n) else NatToDigits(n)
  }

  lemma {:induction false} NatToDigitsValue(k: nat)
    ensures DigitsValue(NatToDigits(k)) == k
    decreases k
  {
    if k >= 10 {
      NatToDigitsValue(k / 10);
      var r := NatToDigits(k);
      assert r[..|r| - 1] == NatToDigits(k / 10);
    }
  }

  /** A numeral is made of digits and a minus sign only: no delimiter, no white space. */
  predicate IsNumeral(s: string) {
    |s| > 0 && IsDigit(s[|s| - 1]) && (IsDigit(s[0]) || s[0] == '-')
    && forall i :: 0 <= i < |s| ==> IsDigit(s[i]) || s[i] == '-'
  }

  lemma NumeralIsPlain(s: string)
    requires IsNumeral(s)
    ensures InputConvertors.IsTrimmed(s)
    ensures ':' !in s && ';' !in s && ',' !in s && '#' !in s && '_' !in s
  {
  }

  /** Printing then parsing gives back every 32-bit integer. */
  lemma ParseIntToString(n: int)
    requires IsInt32(n)
    ensures IsNumeral(IntToString(n))
    ensures ParseInt(IntToString(n)) == Success(n)
  {
    var s := IntToString(n);
    assert !IsNumberWhite(s[0]) && !IsNumberWhite(s[|s| - 1]);
    assert TrimNumberWhite(s) == s;
    if n < 0 {
      var m := NatToDigits(-n);
      NatToDigitsValue(-n);
      assert s == "-" + m && s[1..] == m;
      assert !IsDigit(s[0]);
    } else {
      NatToDigitsValue(n);
      assert IsDigit(s[0]);
    }
  }
}
