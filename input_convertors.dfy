/** The tokenizer: strip the `#` frame terminator, split on one delimiter
    level (`:`, `;` or `,`), and turn a SCREAMING_SNAKE short code into the
    identifier of a failure reason. */
module InputConvertors {

  /** `char.IsWhiteSpace`, the set `string.Trim()` removes. */
  predicate IsWhiteSpace(c: char) {
    c == ' ' || ('\t' <= c <= '\r') || c == '\U{85}' || c == '\U{A0}' || c == '\U{1680}'
    || ('\U{2000}' <= c <= '\U{200A}') || c == '\U{2028}' || c == '\U{2029}'
    || c == '\U{202F}' || c == '\U{205F}' || c == '\U{3000}'
  }

  /** Neither starts nor ends with whitespace. */
  predicate IsTrimmed(s: string) {
    |s| == 0 || (!IsWhiteSpace(s[0]) && !IsWhiteSpace(s[|s| - 1]))
  }

  function TrimStart(s: string): (r: string)
    ensures |r| == 0 || !IsWhiteSpace(r[0])
    decreases |s|
  {
    if |s| > 0 && IsWhiteSpace(s[0]) then TrimStart(s[1..]) else s
  }

  /** `TrimStart` keeps a suffix of its input. */
  lemma {:induction false} TrimStartSuffix(s: string)
    ensures |TrimStart(s)| <= |s| && TrimStart(s) == s[|s| - |TrimStart(s)|..]
    decreases |s|
  {
    if |s| > 0 && IsWhiteSpace(s[0]) {
      TrimStartSuffix(s[1..]);
    }
  }

  /** `s.TrimEnd()`: removes every trailing whitespace character. */
  function TrimEnd(s: string): (r: string)
    ensures |r| == 0 || !IsWhiteSpace(r[|r| - 1])
    decreases |s|
  {
    if |s| > 0 && IsWhiteSpace(s[|s| - 1]) then TrimEnd(s[..|s| - 1]) else s
  }

  /** `TrimEnd` keeps a prefix of its input. */
  lemma {:induction false} TrimEndPrefix(s: string)
    ensures |TrimEnd(s)| <= |s| && TrimEnd(s) == s[..|TrimEnd(s)|]
    decreases |s|
  {
    if |s| > 0 && IsWhiteSpace(s[|s| - 1]) {
      TrimEndPrefix(s[..|s| - 1]);
    }
  }

  /** `s.TrimEnd('#')`: removes every trailing `#`. */
  function TrimEndHash(s: string): (r: string)
    ensures |r| == 0 || r[|r| - 1] != '#'
    decreases |s|
  {
    if |s| > 0 && s[|s| - 1] == '#' then TrimEndHash(s[..|s| - 1]) else s
  }

  /** `TrimEndHash` keeps a prefix of its input. */
  lemma {:induction false} TrimEndHashPrefix(s: string)
    ensures |TrimEndHash(s)| <= |s| && TrimEndHash(s) == s[..|TrimEndHash(s)|]
    decreases |s|
  {
    if |s| > 0 && s[|s| - 1] == '#' {
      TrimEndHashPrefix(s[..|s| - 1]);
    }
  }

  /** `s.Trim()`. */
  function Trim(s: string): (r: string)
    ensures IsTrimmed(r)
  {
    var t := TrimStart(s);
    var r := TrimEnd(t);
    TrimEndPrefix(t);
    assert |r| > 0 ==> r[0] == t[0];
    r
  }

  /** Trimming only removes characters. */
  lemma TrimKeepsOut(s: string, c: char)
    ensures c !in s ==> c !in Trim(s)
  {
    var t := TrimStart(s);
    TrimStartSuffix(s);
    assert forall k :: 0 <= k < |t| ==> t[k] == s[|s| - |t| + k];
    var r := TrimEnd(t);
    TrimEndPrefix(t);
    assert forall k :: 0 <= k < |r| ==> r[k] == t[k];
  }

  lemma TrimOfTrimmed(s: string)
    requires IsTrimmed(s)
    ensures Trim(s) == s
  {
  }

  /** `strWithHash.Trim().TrimEnd('#')`: surrounding whitespace, then every trailing `#`. */
  function TrimHash(strWithHash: string): (r: string)
    ensures |r| == 0 || !IsWhiteSpace(r[0])
    ensures |r| == 0 || r[|r| - 1] != '#'
  {
    var t := Trim(strWithHash);
    var r := TrimEndHash(t);
    TrimEndHashPrefix(t);
    assert |r| > 0 ==> r[0] == t[0];
    r
  }

  /** `str.Split(d)`: the pieces between occurrences of `d`, empty ones included. */
  function Segments(s: string, d: char): (r: seq<string>)
    ensures |r| >= 1
    ensures forall i :: 0 <= i < |r| ==> d !in r[i]
    decreases |s|
  {
    if |s| == 0 then [""]
    else
      var rest := Segments(s[1..], d);
      if s[0] == d then [""] + rest
      else [[s[0]] + rest[0]] + rest[1..]
  }

  /** `string.Join(d, pieces)`. */
  function JoinWith(pieces: seq<string>, d: char): string
    decreases |pieces|
  {
    if |pieces| == 0 then ""
    else if |pieces| == 1 then pieces[0]
    else pieces[0] + [d] + JoinWith(pieces[1..], d)
  }

  /** `.Select(s => s.Trim()).Where(s => s.Length > 0)`. */
  function TrimmedPieces(segments: seq<string>, ghost d: char): (r: seq<string>)
    ensures forall i :: 0 <= i < |r| ==> |r[i]| > 0 && IsTrimmed(r[i])
    ensures (forall j :: 0 <= j < |segments| ==> d !in segments[j]) ==> forall i :: 0 <= i < |r| ==> d !in r[i]
    ensures |r| <= |segments|
  {
    if |segments| == 0 then []
    else
      var t := Trim(segments[0]);
      TrimKeepsOut(segments[0], d);
      var rest := TrimmedPieces(segments[1..], d);
      if |t| == 0 then rest else [t] + rest
  }

  function Split(str: string, d: char): (r: seq<string>)
    ensures forall i :: 0 <= i < |r| ==> |r[i]| > 0 && IsTrimmed(r[i]) && d !in r[i]
  {
    TrimmedPieces(Segments(str, d), d)
  }

  function SplitByColon(str: string): seq<string> { Split(str, ':') }
  function SplitBySemicolon(str: string): seq<string> { Split(str, ';') }
  function SplitByComma(str: string): seq<string> { Split(str, ',') }

  /** `ToLower` on the ASCII letters; every other character is left alone. */
  function ToLowerChar(c: char): char {
    if 'A' <= c <= 'Z' then (c as int + 32) as char else c
  }

  function ToLower(s: string): (r: string)
    ensures |r| == |s| && forall i :: 0 <= i < |s| ==> r[i] == ToLowerChar(s[i])
    decreases |s|
  {
    if |s| == 0 then "" else [ToLowerChar(s[0])] + ToLower(s[1..])
  }

  /** `word.Length < 1 ? "" : word[0] + word.Substring(1).ToLower()`. */
  function CapitalizedWord(word: string): string {
    if |word| < 1 then "" else [word[0]] + ToLower(word[1..])
  }

  function ConcatWords(words: seq<string>): string
    decreases |words|
  {
    if words == [] then "" else CapitalizedWord(words[0]) + ConcatWords(words[1..])
  }

  function ScreamingSnakeCaseToCamelCase(snakeCaseString: string): string {
    ConcatWords(Segments(snakeCaseString, '_'))
  }

  /** Number of occurrences of `c` in `s`. */
  function CountChar(s: string, c: char): nat
    decreases |s|
  {
    if s == [] then 0 else (if s[0] == c then 1 else 0) + CountChar(s[1..], c)
  }

  function SumLengths(words: seq<string>): nat
    decreases |words|
  {
    if words == [] then 0 else |words[0]| + SumLengths(words[1..])
  }

  // ---------------------------------------------------------------------------
  // TrimHash

  /** `TrimHash` is idempotent exactly when no whitespace sits before the `#`s it
      removed: `"a #"` becomes `"a "`, which a second call turns into `"a"`. */
  lemma TrimHashIdempotentIff(s: string)
    ensures var r := TrimHash(s);
            TrimHash(r) == r <==> (|r| == 0 || !IsWhiteSpace(r[|r| - 1]))
  {
    var r := TrimHash(s);
    if |r| > 0 && !IsWhiteSpace(r[|r| - 1]) {
      TrimOfTrimmed(r);
    } else if |r| > 0 {
      assert TrimStart(r) == r;
      assert TrimEnd(r) == TrimEnd(r[..|r| - 1]);
      TrimEndPrefix(r[..|r| - 1]);
      TrimEndHashPrefix(Trim(r));
      assert |TrimHash(r)| < |r|;
    }
  }

  lemma TrimHashNotIdempotentExample()
    ensures TrimHash("a #") == "a "
    ensures TrimHash(TrimHash("a #")) == "a"
  {
    assert TrimStart("a #") == "a #";
    assert Trim("a #") == "a #";
    assert TrimEndHash("a #") == "a ";
    assert TrimStart("a ") == "a ";
    assert TrimEnd("a ") == "a";
    assert Trim("a ") == "a";
    assert TrimEndHash("a") == "a";
  }

  /** `n` frame terminators. */
  function Hashes(n: nat): (r: string)
    ensures |r| == n && forall i :: 0 <= i < n ==> r[i] == '#'
  {
    if n == 0 then "" else Hashes(n - 1) + "#"
  }

  lemma {:induction false} TrimEndHashOfTerminated(body: string, hashes: nat)
    requires |body| == 0 || body[|body| - 1] != '#'
    ensures TrimEndHash(body + Hashes(hashes)) == body
    decreases hashes
  {
    var s := body + Hashes(hashes);
    if hashes == 0 {
      assert s == body;
    } else {
      assert s[..|s| - 1] == body + Hashes(hashes - 1);
      TrimEndHashOfTerminated(body, hashes - 1);
    }
  }

  /** A frame that already is stripped content followed by `#`s gives that content back. */
  lemma TrimHashOfTerminated(body: string, hashes: nat)
    requires |body| > 0 && IsTrimmed(body) && body[|body| - 1] != '#'
    ensures TrimHash(body + Hashes(hashes + 1)) == body
  {
    var s := body + Hashes(hashes + 1);
    assert s[0] == body[0] && s[|s| - 1] == '#';
    TrimOfTrimmed(s);
    TrimEndHashOfTerminated(body, hashes + 1);
  }

  // ---------------------------------------------------------------------------
  // Segments and JoinWith are inverse to each other

  lemma {:induction false} SegmentsNoDelimiter(w: string, d: char)
    requires d !in w
    ensures Segments(w, d) == [w]
    decreases |w|
  {
    if w != [] {
      SegmentsNoDelimiter(w[1..], d);
      assert [w[0]] + w[1..] == w;
    }
  }

  /** Splitting around one delimiter splits each side independently. */
  lemma {:induction false} SegmentsConcat(a: string, b: string, d: char)
    ensures Segments(a + [d] + b, d) == Segments(a, d) + Segments(b, d)
    decreases |a|
  {
    var s := a + [d] + b;
    if a == [] {
      assert s[0] == d && s[1..] == b;
    } else {
      assert s[0] == a[0] && s[1..] == a[1..] + [d] + b;
      SegmentsConcat(a[1..], b, d);
    }
  }

  lemma {:induction false} SegmentsJoinWith(s: string, d: char)
    ensures JoinWith(Segments(s, d), d) == s
    decreases |s|
  {
    if s != [] {
      var rest := Segments(s[1..], d);
      SegmentsJoinWith(s[1..], d);
      if s[0] == d {
        assert [""] + rest != [] && |[""] + rest| > 1;
        assert ([""] + rest)[1..] == rest;
        assert s == [d] + s[1..];
      } else if |rest| == 1 {
        assert s == [s[0]] + rest[0];
      } else {
        var r := [[s[0]] + rest[0]] + rest[1..];
        assert r[1..] == rest[1..];
        assert JoinWith(rest, d) == rest[0] + [d] + JoinWith(rest[1..], d);
        assert s == [s[0]] + s[1..];
      }
    }
  }

  lemma {:induction false} JoinWithSegments(pieces: seq<string>, d: char)
    requires |pieces| >= 1
    requires forall i :: 0 <= i < |pieces| ==> d !in pieces[i]
    ensures Segments(JoinWith(pieces, d), d) == pieces
    decreases |pieces|
  {
    if |pieces| == 1 {
      SegmentsNoDelimiter(pieces[0], d);
    } else {
      JoinWithSegments(pieces[1..], d);
      SegmentsNoDelimiter(pieces[0], d);
      SegmentsConcat(pieces[0], JoinWith(pieces[1..], d), d);
      assert [pieces[0]] + pieces[1..] == pieces;
    }
  }

  // ---------------------------------------------------------------------------
  // Split

  lemma {:induction false} TrimmedPiecesConcat(xs: seq<string>, ys: seq<string>, d: char)
    ensures TrimmedPieces(xs + ys, d) == TrimmedPieces(xs, d) + TrimmedPieces(ys, d)
    decreases |xs|
  {
    if xs != [] {
      assert (xs + ys)[0] == xs[0] && (xs + ys)[1..] == xs[1..] + ys;
      TrimmedPiecesConcat(xs[1..], ys, d);
    } else {
      assert xs + ys == ys;
    }
  }

  lemma {:induction false} TrimmedPiecesOfPieces(pieces: seq<string>, d: char)
    requires forall i :: 0 <= i < |pieces| ==> |pieces[i]| > 0 && IsTrimmed(pieces[i])
    ensures TrimmedPieces(pieces, d) == pieces
    decreases |pieces|
  {
    if pieces != [] {
      TrimOfTrimmed(pieces[0]);
      TrimmedPiecesOfPieces(pieces[1..], d);
      assert [pieces[0]] + pieces[1..] == pieces;
    }
  }

  /** Wire order is kept: the pieces left of a delimiter come first. */
  lemma SplitConcat(a: string, b: string, d: char)
    ensures Split(a + [d] + b, d) == Split(a, d) + Split(b, d)
  {
    SegmentsConcat(a, b, d);
    TrimmedPiecesConcat(Segments(a, d), Segments(b, d), d);
  }

  /** Splitting gives back the non-blank, trimmed, delimiter-free pieces it was joined from. */
  lemma SplitJoinWith(pieces: seq<string>, d: char)
    requires forall i :: 0 <= i < |pieces| ==> |pieces[i]| > 0 && IsTrimmed(pieces[i]) && d !in pieces[i]
    ensures Split(JoinWith(pieces, d), d) == pieces
  {
    if pieces == [] {
      assert Segments("", d) == [""];
    } else {
      JoinWithSegments(pieces, d);
      TrimmedPiecesOfPieces(pieces, d);
    }
  }

  /** A string without the delimiter and with non-blank content is one piece. */
  lemma SplitSingle(s: string, d: char)
    requires d !in s && |Trim(s)| > 0
    ensures Split(s, d) == [Trim(s)]
  {
    SegmentsNoDelimiter(s, d);
  }

  // ---------------------------------------------------------------------------
  // ScreamingSnakeCaseToCamelCase

  lemma {:induction false} SegmentsLengths(s: string, d: char)
    ensures SumLengths(Segments(s, d)) == |s| - CountChar(s, d)
    decreases |s|
  {
    if s != [] {
      SegmentsLengths(s[1..], d);
      var rest := Segments(s[1..], d);
      if s[0] == d {
        assert ([""] + rest)[1..] == rest;
      } else {
        var r := [[s[0]] + rest[0]] + rest[1..];
        assert r[1..] == rest[1..];
      }
    }
  }

  lemma {:induction false} ConcatWordsLength(words: seq<string>)
    ensures |ConcatWords(words)| == SumLengths(words)
    decreases |words|
  {
    if words != [] {
      ConcatWordsLength(words[1..]);
    }
  }

  lemma {:induction false} ConcatWordsNoUnderscore(words: seq<string>)
    requires forall i :: 0 <= i < |words| ==> '_' !in words[i]
    ensures '_' !in ConcatWords(words)
    decreases |words|
  {
    if words != [] {
      ConcatWordsNoUnderscore(words[1..]);
      var w := words[0];
      if |w| > 0 {
        var l := ToLower(w[1..]);
        forall i | 0 <= i < |l| ensures l[i] != '_' {
          assert w[1..][i] == w[i + 1];
        }
      }
    }
  }

  /** The identifier never contains `_`, and it is as long as the code without its underscores. */
  lemma CamelCaseShape(s: string)
    ensures '_' !in ScreamingSnakeCaseToCamelCase(s)
    ensures |ScreamingSnakeCaseToCamelCase(s)| == |s| - CountChar(s, '_')
  {
    ConcatWordsNoUnderscore(Segments(s, '_'));
    ConcatWordsLength(Segments(s, '_'));
    SegmentsLengths(s, '_');
  }

  lemma {:induction false} ConcatWordsAppend(xs: seq<string>, ys: seq<string>)
    ensures ConcatWords(xs + ys) == ConcatWords(xs) + ConcatWords(ys)
    decreases |xs|
  {
    if xs == [] {
      assert xs + ys == ys;
    } else {
      assert (xs + ys)[0] == xs[0] && (xs + ys)[1..] == xs[1..] + ys;
      ConcatWordsAppend(xs[1..], ys);
    }
  }

  /** The words on either side of an `_` are canonicalised independently, left to right. */
  lemma CamelCaseConcat(a: string, b: string)
    ensures ScreamingSnakeCaseToCamelCase(a + "_" + b)
            == ScreamingSnakeCaseToCamelCase(a) + ScreamingSnakeCaseToCamelCase(b)
  {
    assert a + "_" + b == a + ['_'] + b;
    SegmentsConcat(a, b, '_');
    ConcatWordsAppend(Segments(a, '_'), Segments(b, '_'));
  }

  /** A single word keeps its first character and lower-cases the rest. */
  lemma CamelCaseWord(w: string)
    requires '_' !in w
    ensures ScreamingSnakeCaseToCamelCase(w) == CapitalizedWord(w)
  {
    SegmentsNoDelimiter(w, '_');
    assert ConcatWords([w]) == CapitalizedWord(w) + ConcatWords([]);
  }

  /** Each `_`-separated word keeps its first character as it is and lower-cases the rest. */
  lemma CamelCaseOfWords(words: seq<string>)
    requires |words| >= 1
    requires forall i :: 0 <= i < |words| ==> '_' !in words[i]
    ensures ScreamingSnakeCaseToCamelCase(JoinWith(words, '_')) == ConcatWords(words)
    ensures forall i :: 0 <= i < |words| && |words[i]| > 0 ==>
              CapitalizedWord(words[i])[0] == words[i][0]
  {
    JoinWithSegments(words, '_');
  }
}
