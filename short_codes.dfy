/** Short-code frames: a code, possibly followed by `;`-separated extras such
    as the `25` of `OBSTACLE;25#`, decodes by its first piece alone, looked up
    among the command failures first and the join failures second. */
module ShortCodeProperties {
  import opened Wrappers
  import opened Messages
  import opened InputConvertors
  import opened Parsing
  import opened MessageFactory
  import opened MessageFactoryProperties

  /** The frame the server writes for a short code and its extras. */
  function ShortFrame(pieces: seq<string>): string {
    JoinWith(pieces, ';') + "#"
  }

  predicate PlainPieces(pieces: seq<string>) {
    |pieces| >= 1 && forall i :: 0 <= i < |pieces| ==> IsPlain(pieces[i], PartDelimiters)
  }

  /** A short frame has no `:`, and stripping and splitting it gives its pieces back. */
  lemma ShortFrameSplits(pieces: seq<string>)
    requires PlainPieces(pieces)
    ensures ':' !in ShortFrame(pieces)
    ensures SplitBySemicolon(TrimHash(ShortFrame(pieces))) == pieces
  {
    var body := JoinWith(pieces, ';');
    SemicolonJoinPlain(pieces);
    assert body[|body| - 1] != '#';
    TrimHashOfTerminated(body, 0);
    assert Hashes(1) == "#";
    SemicolonJoinSplit(pieces);
    forall i | 0 <= i < |body + "#"| ensures (body + "#")[i] != ':' {
      if i < |body| {
        assert (body + "#")[i] == body[i];
      }
    }
  }

  /** The first piece names the reason: a command failure wins over a join
      failure, and a code that names neither gives null. Extra pieces are ignored. */
  lemma GetMessageOfShortFrame(pieces: seq<string>)
    requires PlainPieces(pieces)
    ensures var name := ScreamingSnakeCaseToCamelCase(pieces[0]);
            var r := GetMessage(ShortFrame(pieces));
            && (CommandFailByName(name).Some? ==> r == Success(Some(CommandFail(CommandFailByName(name).value))))
            && (CommandFailByName(name).None? && JoinFailByName(name).Some? ==>
                  r == Success(Some(JoinFail(JoinFailByName(name).value))))
            && (CommandFailByName(name).None? && JoinFailByName(name).None? ==> r == Success(None))
  {
    ShortFrameSplits(pieces);
  }

  /** `<code>;<n>#` decodes exactly as `<code>#`. */
  lemma ShortFrameSuffixIgnored(code: string, extras: seq<string>)
    requires PlainPieces([code] + extras)
    ensures GetMessage(ShortFrame([code] + extras)) == GetMessage(ShortFrame([code]))
  {
    assert ([code] + extras)[0] == code;
    GetMessageOfShortFrame([code] + extras);
    GetMessageOfShortFrame([code]);
  }

  /** The code of a reason decodes to that reason. */
  lemma CommandFailFrame(reason: CommandFailState, pieces: seq<string>)
    requires PlainPieces(pieces) && ScreamingSnakeCaseToCamelCase(pieces[0]) == CommandFailName(reason)
    ensures GetMessage(ShortFrame(pieces)) == Success(Some(CommandFail(reason)))
  {
    GetMessageOfShortFrame(pieces);
    CommandFailNameInjective(reason);
  }

  lemma CommandFailNameInjective(reason: CommandFailState)
    ensures CommandFailByName(CommandFailName(reason)) == Some(reason)
  {
  }

  lemma JoinFailNameInjective(reason: JoinFailState)
    ensures JoinFailByName(JoinFailName(reason)) == Some(reason)
  {
  }

  /** No join-failure identifier is also a command-failure identifier, so the
      lookup order never hides a join failure. */
  lemma JoinFailNameNotCommand(reason: JoinFailState)
    ensures CommandFailByName(JoinFailName(reason)) == None
  {
  }

  lemma JoinFailFrame(reason: JoinFailState, pieces: seq<string>)
    requires PlainPieces(pieces) && ScreamingSnakeCaseToCamelCase(pieces[0]) == JoinFailName(reason)
    ensures GetMessage(ShortFrame(pieces)) == Success(Some(JoinFail(reason)))
  {
    GetMessageOfShortFrame(pieces);
    JoinFailNameNotCommand(reason);
    JoinFailNameInjective(reason);
  }

  /** `OBSTACLE;25#`, the frame the server actually writes for a blocked move,
      is the command failure `Obstacle`; the `25` is ignored. */
  lemma ObstacleExample()
    ensures GetMessage("OBSTACLE;25#") == Success(Some(CommandFail(Obstacle)))
  {
    ObstaclePieces();
    CommandFailFrame(Obstacle, ["OBSTACLE", "25"]);
  }

  lemma ObstaclePieces()
    ensures PlainPieces(["OBSTACLE", "25"])
    ensures ShortFrame(["OBSTACLE", "25"]) == "OBSTACLE;25#"
    ensures ScreamingSnakeCaseToCamelCase("OBSTACLE") == CommandFailName(Obstacle)
  {
    assert PlainPieces(["OBSTACLE", "25"]);
    assert ShortFrame(["OBSTACLE", "25"]) == "OBSTACLE;25#";
    ObstacleName();
  }

  lemma ObstacleName()
    ensures ScreamingSnakeCaseToCamelCase("OBSTACLE") == "Obstacle"
  {
    LowerBstacle();
    CodeOfWord("OBSTACLE", "Obstacle");
  }

  /** A code without `_` converts to its first character and the rest lower-cased. */
  lemma CodeOfWord(code: string, name: string)
    requires '_' !in code && |code| > 0 && [code[0]] + ToLower(code[1..]) == name
    ensures ScreamingSnakeCaseToCamelCase(code) == name
  {
    CamelCaseWord(code);
  }

  lemma LowerBstacle()
    ensures ToLower("BSTACLE") == "bstacle"
  {
    var r := ToLower("BSTACLE");
    assert ToLowerChar('B') == 'b' && ToLowerChar('S') == 's' && ToLowerChar('T') == 't';
    assert ToLowerChar('A') == 'a' && ToLowerChar('C') == 'c' && ToLowerChar('L') == 'l' && ToLowerChar('E') == 'e';
    assert forall i :: 0 <= i < 7 ==> r[i] == "bstacle"[i];
  }
}
