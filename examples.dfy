/**
 * Concrete instances of the codec and of the move generator: the cases the
 * repository's own unit tests check, stated as lemmas about the model.
 */
module Examples {
  import opened Wrappers
  import opened Decimal
  import opened Seqs
  import opened Types
  import opened Moves

  // ---------------------------------------------------------------------
  // Positions and moves
  // ---------------------------------------------------------------------

  /** The four corners print as `a11`, `k11`, `k1` and `a1`, and their indices read back. */
  lemma CornerTexts()
    ensures PositionText(FromIndices(0, 0)) == "a11"
    ensures PositionText(FromIndices(10, 0)) == "k11"
    ensures PositionText(FromIndices(10, 10)) == "k1"
    ensures PositionText(FromIndices(0, 10)) == "a1"
    ensures ToIndices(FromIndices(0, 0)) == (0, 0)
    ensures ToIndices(FromIndices(10, 10)) == (10, 10)
    ensures ToIndices(FromIndices(0, 10)) == (0, 10)
  {
  }

  /** The move from `a11` to `b1` is written `a11b1` and reads back from it. */
  lemma MoveText()
    ensures EncodeMove(Move(Position('a', 11), Position('b', 1))) == "a11b1"
    ensures ParseMove("a11b1") == Some(Move(Position('a', 11), Position('b', 1)))
  {
    MoveRoundTrip(Move(Position('a', 11), Position('b', 1)));
  }

  /** Texts outside the move pattern do not parse. */
  lemma MoveTextRejected()
    ensures ParseMove("a11b") == None
    ensures ParseMove("l1b1") == None
    ensures ParseMove("a123b1") == None
    ensures ParseMove("") == None
  {
  }

  // ---------------------------------------------------------------------
  // Ranks
  // ---------------------------------------------------------------------

  /** The rank whose groups are `gs` encodes as their text and decodes back. */
  lemma RankText(gs: seq<Group>, text: string)
    requires Canonical(gs) && Width(gs) == 11 && Render(gs) == text
    ensures EncodeRank(Rank(Expand(gs))) == text
    ensures DecodeRank(text) == Some(Rank(Expand(gs)))
  {
    CanonicalRoundTrip(gs);
  }

  /** The ranks of the unit tests: `11`, `10K`, `a9K`, `a4h4K` and `K10`. */
  lemma EmptyRankText()
    ensures EncodeRank(Rank(Expand([Number(11)]))) == "11"
  {
    RankText([Number(11)], "11");
  }

  lemma KingLastText()
    ensures EncodeRank(Rank(Expand([Number(10), Character(King)]))) == "10K"
  {
    RankText([Number(10), Character(King)], "10K");
  }

  lemma BlackFirstText()
    ensures EncodeRank(Rank(Expand([Character(Normal(Black)), Number(9), Character(King)]))) == "a9K"
  {
    RankText([Character(Normal(Black)), Number(9), Character(King)], "a9K");
  }

  lemma WhiteMiddleText()
    ensures EncodeRank(Rank(Expand([Character(Normal(Black)), Number(4), Character(Normal(White)), Number(4), Character(King)]))) == "a4h4K"
  {
    RankText([Character(Normal(Black)), Number(4), Character(Normal(White)), Number(4), Character(King)], "a4h4K");
  }

  lemma KingFirstText()
    ensures DecodeRank("K10") == Some(Rank(Expand([Character(King), Number(10)])))
    ensures EncodeRank(Rank(Expand([Character(King), Number(10)]))) == "K10"
  {
    RankText([Character(King), Number(10)], "K10");
  }

  /** Tokenizing one more character. */
  lemma LexPush(s: string, c: char, t: string, gs: seq<Group>, next: seq<Group>)
    requires t == s + [c] && Lex(s) == Some(gs)
    requires LexStep(gs, c).Some? && LexStep(gs, c).value == next
    ensures Lex(t) == Some(next)
  {
    LexSnoc(s, c);
  }

  /** Zero counts and runs of digits are read leniently, and the encoding normalises them. */
  lemma LeadingZerosRank()
    ensures DecodeRank("00011").Some? && EncodeRank(DecodeRank("00011").value) == "11"
  {
    LexLeadingZeros();
    RankText([Number(11)], "11");
  }

  /** The digits of `00011` accumulate into one count of eleven. */
  lemma LexLeadingZeros()
    ensures Lex("00011") == Some([Number(11)])
  {
    LexPush("", '0', "0", [], [Number(0)]);
    LexPush("0", '0', "00", [Number(0)], [Number(0)]);
    LexPush("00", '0', "000", [Number(0)], [Number(0)]);
    LexPush("000", '1', "0001", [Number(0)], [Number(1)]);
    LexPush("0001", '1', "00011", [Number(1)], [Number(11)]);
  }

  lemma ZeroCountsRank()
    ensures DecodeRank("0a09a0").Some? && EncodeRank(DecodeRank("0a09a0").value) == "a9a"
  {
    LexZeroCounts();
    assert Expand([Number(0), Character(Normal(Black)), Number(9), Character(Normal(Black)), Number(0)])
        == Expand([Character(Normal(Black)), Number(9), Character(Normal(Black))]);
    RankText([Character(Normal(Black)), Number(9), Character(Normal(Black))], "a9a");
  }

  /** `0a09a0` keeps its zero counts as groups of their own. */
  lemma LexZeroCounts()
    ensures Lex("0a09a0") == Some([Number(0), Character(Normal(Black)), Number(9), Character(Normal(Black)), Number(0)])
  {
    LexPush("", '0', "0", [], [Number(0)]);
    LexPush("0", 'a', "0a", [Number(0)], [Number(0), Character(Normal(Black))]);
    LexPush("0a", '0', "0a0", [Number(0), Character(Normal(Black))],
      [Number(0), Character(Normal(Black)), Number(0)]);
    LexPush("0a0", '9', "0a09", [Number(0), Character(Normal(Black)), Number(0)],
      [Number(0), Character(Normal(Black)), Number(9)]);
    LexPush("0a09", 'a', "0a09a", [Number(0), Character(Normal(Black)), Number(9)],
      [Number(0), Character(Normal(Black)), Number(9), Character(Normal(Black))]);
    LexPush("0a09a", '0', "0a09a0", [Number(0), Character(Normal(Black)), Number(9), Character(Normal(Black))],
      [Number(0), Character(Normal(Black)), Number(9), Character(Normal(Black)), Number(0)]);
  }

  /** Rank texts that cover fewer or more than eleven cells do not decode. */
  lemma WrongWidthRanks()
    ensures DecodeRank("10") == None
    ensures DecodeRank("12") == None
  {
    LexPush("", '1', "1", [], [Number(1)]);
    LexPush("1", '0', "10", [Number(1)], [Number(10)]);
    LexPush("1", '2', "12", [Number(1)], [Number(12)]);
  }

  /** A rank fails when its groups cover twelve cells (`a11`) or when a letter is no piece (`10x`). */
  lemma BadRanks()
    ensures DecodeRank("a11") == None
    ensures DecodeRank("10x") == None
  {
    LexPush("", '1', "1", [], [Number(1)]);
    LexPush("", 'a', "a", [], [Character(Normal(Black))]);
    LexPush("a", '1', "a1", [Character(Normal(Black))], [Character(Normal(Black)), Number(1)]);
    LexPush("a1", '1', "a11", [Character(Normal(Black)), Number(1)], [Character(Normal(Black)), Number(11)]);
    LexPush("1", '0', "10", [Number(1)], [Number(10)]);
    LexSnoc("10", 'x');
    assert "10" + ['x'] == "10x";
  }

  /** A piece written after the eleventh cell makes the rank fail. */
  lemma OverfullRank()
    ensures DecodeRank("11a") == None
  {
    LexPush("", '1', "1", [], [Number(1)]);
    LexPush("1", '1', "11", [Number(1)], [Number(11)]);
    LexPush("11", 'a', "11a", [Number(11)], [Number(11), Character(Normal(Black))]);
  }

  // ---------------------------------------------------------------------
  // Boards
  // ---------------------------------------------------------------------

  const EMPTY_RANK: Rank := Rank(EMPTY_CELLS)

  /** The text of a board whose ranks encode as `texts`, with `next` to move, decodes back to that board. */
  lemma BoardText(b: Board, texts: seq<string>, text: string)
    requires |texts| == 11 && forall i :: 0 <= i < 11 ==> EncodeRank(b.ranks[i]) == texts[i]
    requires text == Join(texts, RANK_SEP) + " " + PlayerToken(b.next)
    ensures EncodeBoard(b) == text
    ensures DecodeBoard(text) == Some(b)
  {
    assert RankTexts(b.ranks) == texts;
    BoardRoundTrip(b);
  }

  /** The rank with groups `gs` is canonical, eleven cells wide, and written `text`. */
  ghost predicate RankOk(gs: seq<Group>, text: string) {
    Canonical(gs) && Width(gs) == 11 && Render(gs) == text
  }

  // The groups of the six distinct ranks of the starting position, outer rank first.
  const START_1: seq<Group> := [Number(3), Character(Normal(Black)), Character(Normal(Black)), Character(Normal(Black)),
                                Character(Normal(Black)), Character(Normal(Black)), Number(3)]
  const START_2: seq<Group> := [Number(5), Character(Normal(Black)), Number(5)]
  const START_3: seq<Group> := [Number(11)]
  const START_4: seq<Group> := [Character(Normal(Black)), Number(4), Character(Normal(White)), Number(4), Character(Normal(Black))]
  const START_5: seq<Group> := [Character(Normal(Black)), Number(3), Character(Normal(White)), Character(Normal(White)),
                                Character(Normal(White)), Number(3), Character(Normal(Black))]
  const CENTRE_LEFT: seq<Group> := [Character(Normal(Black)), Character(Normal(Black)), Number(1), Character(Normal(White)),
                                    Character(Normal(White))]
  const CENTRE_RIGHT: seq<Group> := [Character(Normal(White)), Character(Normal(White)), Number(1), Character(Normal(Black)),
                                     Character(Normal(Black))]
  const START_6: seq<Group> := CENTRE_LEFT + [Character(King)] + CENTRE_RIGHT

  /** The text of the king's rank, `aa1hhKhh1aa`: the king and the two halves either side of it. */
  const CENTRE_TEXT: string := "aa1hh" + "K" + "hh1aa"

  lemma Start1() ensures RankOk(START_1, "3aaaaa3") { }
  lemma Start2() ensures RankOk(START_2, "5a5") { }
  lemma Start3() ensures RankOk(START_3, "11") { }
  lemma Start4() ensures RankOk(START_4, "a4h4a") { }
  lemma Start5() ensures RankOk(START_5, "a3hhh3a") { }
  lemma Start6()
    ensures RankOk(START_6, CENTRE_TEXT)
  {
    Start6Canonical();
    Start6Width();
    Start6Render();
  }

  lemma Start6Canonical() ensures Canonical(START_6) { }
  lemma Start6Width() ensures Width(START_6) == 11 {
    assert START_6 == CENTRE_LEFT + [Character(King)] + CENTRE_RIGHT;
    ExpandAppend(CENTRE_LEFT + [Character(King)], CENTRE_RIGHT);
    ExpandAppend(CENTRE_LEFT, [Character(King)]);
    assert Width(CENTRE_LEFT) == 5 && Width([Character(King)]) == 1 && Width(CENTRE_RIGHT) == 5;
  }
  lemma Start6Render() ensures Render(START_6) == CENTRE_TEXT {
    assert START_6 == CENTRE_LEFT + [Character(King)] + CENTRE_RIGHT;
    RenderAppend(CENTRE_LEFT + [Character(King)], CENTRE_RIGHT);
    RenderAppend(CENTRE_LEFT, [Character(King)]);
    Start6RenderLeft();
    Start6RenderRight();
    assert Render([Character(King)]) == "K";
    assert CENTRE_TEXT == "aa1hh" + "K" + "hh1aa";
  }

  lemma Start6RenderLeft() ensures Render(CENTRE_LEFT) == "aa1hh" { }
  lemma Start6RenderRight() ensures Render(CENTRE_RIGHT) == "hh1aa" { }

  /** The groups of the starting position, rank by rank. */
  function StartGroups(): seq<seq<Group>> {
    [START_1, START_2, START_3, START_4, START_5, START_6, START_5, START_4, START_3, START_2, START_1]
  }

  /** The texts of the ranks of the starting position. */
  const START_TEXTS: seq<string> :=
    ["3aaaaa3", "5a5", "11", "a4h4a", "a3hhh3a", CENTRE_TEXT, "a3hhh3a", "a4h4a", "11", "5a5", "3aaaaa3"]

  /**
   * The starting string `3aaaaa3/5a5/11/a4h4a/a3hhh3a/aa1hhKhh1aa/a3hhh3a/a4h4a/11/5a5/3aaaaa3 a`,
   * spelled as its rank texts joined by `/`, then a space and the side to move.
   */
  const DEFAULT_START: string := Join(START_TEXTS, RANK_SEP) + " a"

  /**
   * The board whose ranks have the groups `gss`, with `next` to move, is the
   * decoding of the text made of the groups' texts; encoding it gives that
   * text back.
   */
  lemma BoardOfGroups(gss: seq<seq<Group>>, texts: seq<string>, next: Player, text: string)
    requires |gss| == 11 && |texts| == 11
    requires forall i :: 0 <= i < 11 ==> RankOk(gss[i], texts[i])
    requires text == Join(texts, RANK_SEP) + " " + PlayerToken(next)
    ensures DecodeBoard(text).Some? && EncodeBoard(DecodeBoard(text).value) == text
    ensures forall i :: 0 <= i < 11 ==> DecodeBoard(text).value.ranks[i].fields == Expand(gss[i])
    ensures DecodeBoard(text).value.next == next
  {
    var ranks := RanksText(gss, texts);
    BoardText(Board(ranks, next), texts, text);
  }

  /** Rank by rank, the groups give a rank that encodes as the rank's text. */
  lemma RanksText(gss: seq<seq<Group>>, texts: seq<string>) returns (ranks: Ranks)
    requires |gss| == 11 && |texts| == 11
    requires forall i :: 0 <= i < 11 ==> RankOk(gss[i], texts[i])
    ensures forall i :: 0 <= i < 11 ==> ranks[i].fields == Expand(gss[i]) && EncodeRank(ranks[i]) == texts[i]
  {
    forall i | 0 <= i < 11 ensures |Expand(gss[i])| == 11 && EncodeRank(Rank(Expand(gss[i]))) == texts[i] {
      RankText(gss[i], texts[i]);
    }
    ranks := seq(11, i requires 0 <= i < 11 => Rank(Expand(gss[i])));
  }

  /** The first six ranks of the starting position are canonical, eleven cells wide and render as their texts. */
  lemma StartRank(i: nat)
    requires i <= 5
    ensures RankOk(StartGroups()[i], START_TEXTS[i])
  {
    var gs, text := StartGroups()[i], START_TEXTS[i];
    if i == 0 {
      assert gs == START_1 && text == "3aaaaa3";
      Start1();
    } else if i == 1 {
      assert gs == START_2 && text == "5a5";
      Start2();
    } else if i == 2 {
      assert gs == START_3 && text == "11";
      Start3();
    } else if i == 3 {
      assert gs == START_4 && text == "a4h4a";
      Start4();
    } else if i == 4 {
      assert gs == START_5 && text == "a3hhh3a";
      Start5();
    } else {
      assert gs == START_6 && text == CENTRE_TEXT;
      Start6();
    }
  }

  /** The last five ranks mirror the first five. */
  lemma StartRankMirror(i: nat)
    requires 5 < i < 11
    ensures RankOk(StartGroups()[i], START_TEXTS[i])
  {
    assert StartGroups()[i] == StartGroups()[10 - i] && START_TEXTS[i] == START_TEXTS[10 - i];
    StartRank(10 - i);
  }

  /**
   * Every rank text of the starting position decodes to the rank its groups
   * describe, and that rank encodes back to the same text.
   */
  lemma StartRanks()
    ensures forall i :: 0 <= i < 11 ==>
      |Expand(StartGroups()[i])| == 11 &&
      DecodeRank(START_TEXTS[i]) == Some(Rank(Expand(StartGroups()[i]))) &&
      EncodeRank(Rank(Expand(StartGroups()[i]))) == START_TEXTS[i]
  {
    forall i | 0 <= i < 11
      ensures |Expand(StartGroups()[i])| == 11
      ensures DecodeRank(START_TEXTS[i]) == Some(Rank(Expand(StartGroups()[i])))
      ensures EncodeRank(Rank(Expand(StartGroups()[i]))) == START_TEXTS[i]
    {
      StartRankOk(i);
      RankText(StartGroups()[i], START_TEXTS[i]);
    }
  }

  /** Every rank of the starting position has canonical groups, eleven cells wide, that render as its text. */
  lemma StartRanksOk()
    ensures forall i :: 0 <= i < 11 ==> RankOk(StartGroups()[i], START_TEXTS[i])
  {
    forall i | 0 <= i < 11 ensures RankOk(StartGroups()[i], START_TEXTS[i]) {
      StartRankOk(i);
    }
  }

  lemma StartRankOk(i: nat)
    requires i < 11
    ensures RankOk(StartGroups()[i], START_TEXTS[i])
  {
    if i <= 5 { StartRank(i); } else { StartRankMirror(i); }
  }

  /** The starting string decodes, and encoding the board it describes gives the same string back. */
  lemma DefaultStartRoundTrip()
    ensures DecodeBoard(DEFAULT_START).Some?
    ensures EncodeBoard(DecodeBoard(DEFAULT_START).value) == DEFAULT_START
    ensures DecodeBoard(DEFAULT_START).value.next == Black
  {
    StartRanksOk();
    BoardOfGroups(StartGroups(), START_TEXTS, Black, DEFAULT_START);
  }

  // ---------------------------------------------------------------------
  // Move counts
  // ---------------------------------------------------------------------

  /** Squares `k` up to `k2` (row-major) hold nothing of `side`: listing the pieces skips them. */
  lemma {:induction false} PiecesSkip(b: Board, side: Player, k: nat, k2: nat)
    requires k <= k2 <= 121
    requires forall j :: k <= j < k2 ==> !Owns(side, b.ranks[j / 11].fields[j % 11])
    ensures PiecesFrom(b, side, k) == PiecesFrom(b, side, k2)
    decreases k2 - k
  {
    if k < k2 {
      PiecesSkip(b, side, k + 1, k2);
    }
  }

  /** A side whose only piece stands on square `k` has exactly that piece. */
  lemma SinglePiece(b: Board, side: Player, x: nat, y: nat)
    requires x < 11 && y < 11
    requires Owns(side, b.ranks[y].fields[x])
    requires forall j :: 0 <= j < y * 11 + x ==> !Owns(side, b.ranks[j / 11].fields[j % 11])
    requires forall j :: y * 11 + x < j < 121 ==> !Owns(side, b.ranks[j / 11].fields[j % 11])
    ensures Pieces(b, side) == [FromIndices(x, y)]
  {
    var k := y * 11 + x;
    assert k % 11 == x && k / 11 == y;
    PiecesSkip(b, side, 0, k);
    PiecesSkip(b, side, k + 1, 121);
  }

  /** With a single piece to move, the generated moves are that piece's. */
  lemma SingleMover(b: Board, p: Position)
    requires Pieces(b, b.next) == [p]
    ensures OnBoard(p)
    ensures MovesOf(b) == MovesFrom(b, p)
  {
    var parts := PieceMoves(b, [p]);
    FlattenSnoc(parts, 0);
    assert parts[..1] == parts && parts[..0] == [];
  }

  /** Four parts flatten to their concatenation. */
  lemma FlattenFour<T>(parts: seq<seq<T>>)
    requires |parts| == 4
    ensures |Flatten(parts)| == |parts[0]| + |parts[1]| + |parts[2]| + |parts[3]|
  {
    FlattenSnoc(parts, 0);
    FlattenSnoc(parts, 1);
    FlattenSnoc(parts, 2);
    FlattenSnoc(parts, 3);
    assert parts[..4] == parts && parts[..0] == [];
  }

  /** The moves of one piece are its four scans, one after the other. */
  lemma FourScans(b: Board, x: nat, y: nat)
    requires x < 11 && y < 11
    ensures var p, king := FromIndices(x, y), b.ranks[y].fields[x] == Some(King);
      |MovesFrom(b, p)| == |Scan(b, p, x, y, king, Up, 1)| + |Scan(b, p, x, y, king, Down, 1)|
                         + |Scan(b, p, x, y, king, Left, 1)| + |Scan(b, p, x, y, king, Right, 1)|
  {
    var p := FromIndices(x, y);
    GetAt(b, x, y);
    var t := ToIndices(p);
    assert t == (x, y);
    var scans := ScanDirs(b, p, t.0, t.1, IsKingAt(b, p), Card());
    assert MovesFrom(b, p) == Flatten(scans);
    FlattenFour(scans);
  }

  /** A step that can be passed adds one move if it can be landed on, and the scan goes on. */
  lemma ScanPass(b: Board, from: Position, x: int, y: int, isKing: bool, d: Direction, length: nat)
    requires 1 <= length <= 10
    requires Passable(b, x, y, isKing, d, length)
    ensures |Scan(b, from, x, y, isKing, d, length)| ==
      (if Landable(b, x, y, isKing, d, length) then 1 else 0) + |Scan(b, from, x, y, isKing, d, length + 1)|
  {
    ScanUnfold(b, from, x, y, isKing, d, length);
  }

  /** A step that can be neither passed nor landed on ends the scan. */
  lemma ScanStop(b: Board, from: Position, x: int, y: int, isKing: bool, d: Direction, length: nat)
    requires 1 <= length <= 10
    requires !Passable(b, x, y, isKing, d, length) && !Landable(b, x, y, isKing, d, length)
    ensures Scan(b, from, x, y, isKing, d, length) == []
  {
    ScanUnfold(b, from, x, y, isKing, d, length);
  }

  /**
   * The length of a scan along a line whose steps up to `stop` can all be
   * passed and, but for step `skip`, landed on, and whose step `stop` (if
   * any) ends the scan.
   */
  lemma {:induction false} ScanCount(b: Board, from: Position, x: int, y: int, isKing: bool, d: Direction,
                                     length: nat, stop: nat, skip: int)
    requires 1 <= length <= stop <= 11
    requires forall k :: length <= k < stop ==>
      Passable(b, x, y, isKing, d, k) && (Landable(b, x, y, isKing, d, k) <==> k != skip)
    requires stop < 11 ==> !Passable(b, x, y, isKing, d, stop) && !Landable(b, x, y, isKing, d, stop)
    ensures |Scan(b, from, x, y, isKing, d, length)| == stop - length - (if length <= skip < stop then 1 else 0)
    decreases stop - length
  {
    if length == stop {
      if length < 11 {
        ScanStop(b, from, x, y, isKing, d, length);
      }
    } else {
      ScanPass(b, from, x, y, isKing, d, length);
      ScanCount(b, from, x, y, isKing, d, length + 1, stop, skip);
    }
  }

  /** A piece on an edge has no moves across it. */
  lemma EdgeScans(b: Board, from: Position, x: int, y: int, isKing: bool)
    ensures x == 0 ==> Scan(b, from, x, y, isKing, Up, 1) == []
    ensures x == 10 ==> Scan(b, from, x, y, isKing, Down, 1) == []
    ensures y == 0 ==> Scan(b, from, x, y, isKing, Left, 1) == []
    ensures y == 10 ==> Scan(b, from, x, y, isKing, Right, 1) == []
  {
  }

  /** A scan whose first step meets a piece yields nothing. */
  lemma ScanBlocked(b: Board, from: Position, x: int, y: int, isKing: bool, d: Direction)
    requires var t := Target(x, y, d, 1); InBoard(t.0, t.1) && b.ranks[t.1].fields[t.0].Some?
    requires var t := Target(x, y, d, 1); isKing || !IsCastle(t.0, t.1)
    ensures Scan(b, from, x, y, isKing, d, 1) == []
  {
    var t := Target(x, y, d, 1);
    GetAt(b, t.0, t.1);
  }

  /** The board with nothing on it. */
  function EmptyBoard(next: Player): Board {
    Board(seq(11, _ => EMPTY_RANK), next)
  }

  /** On the empty board there is nothing to move. */
  lemma EmptyBoardMoves(next: Player)
    ensures Pieces(EmptyBoard(next), next) == []
    ensures MovesOf(EmptyBoard(next)) == []
  {
    PiecesSkip(EmptyBoard(next), next, 0, 121);
  }

  /**
   * The board with one piece of `side` on `a11` and `side` to move:
   * `h10/11/11/11/11/11/11/11/11/11/11 h` for White.
   */
  function CornerBoard(side: Player): Board {
    Board(seq(11, y => if y == 0 then Rank(EMPTY_CELLS[0 := Some(Normal(side))]) else EMPTY_RANK), side)
  }

  /** Along its rank the corner piece has nine moves: the far corner is barred. */
  lemma CornerAlongRank(side: Player)
    ensures |Scan(CornerBoard(side), FromIndices(0, 0), 0, 0, false, Down, 1)| == 9
  {
    var b := CornerBoard(side);
    forall k | 1 <= k < 10
      ensures Passable(b, 0, 0, false, Down, k) && Landable(b, 0, 0, false, Down, k)
    {
      GetAt(b, k, 0);
    }
    ScanCount(b, FromIndices(0, 0), 0, 0, false, Down, 1, 10, 0);
  }

  /** Down its file the corner piece has nine moves: the far corner is barred. */
  lemma CornerAlongFile(side: Player)
    ensures |Scan(CornerBoard(side), FromIndices(0, 0), 0, 0, false, Right, 1)| == 9
  {
    var b := CornerBoard(side);
    forall k | 1 <= k < 10
      ensures Passable(b, 0, 0, false, Right, k) && Landable(b, 0, 0, false, Right, k)
    {
      GetAt(b, 0, k);
    }
    ScanCount(b, FromIndices(0, 0), 0, 0, false, Right, 1, 10, 0);
  }

  /** The corner piece is the only piece of its side. */
  lemma CornerPieces(side: Player)
    ensures Pieces(CornerBoard(side), side) == [FromIndices(0, 0)]
  {
    SinglePiece(CornerBoard(side), side, 0, 0);
  }

  /** The corner piece has nine moves along its rank, nine down its file, and none off the board. */
  lemma CornerScans(side: Player)
    ensures |MovesFrom(CornerBoard(side), FromIndices(0, 0))| == 18
  {
    var b, p := CornerBoard(side), FromIndices(0, 0);
    assert b.ranks[0].fields[0] == Some(Normal(side));
    FourScans(b, 0, 0);
    assert |MovesFrom(b, p)| == |Scan(b, p, 0, 0, false, Up, 1)| + |Scan(b, p, 0, 0, false, Down, 1)|
                         + |Scan(b, p, 0, 0, false, Left, 1)| + |Scan(b, p, 0, 0, false, Right, 1)|;
    EdgeScans(b, p, 0, 0, false);
    assert |Scan(b, p, 0, 0, false, Up, 1)| == 0;
    assert |Scan(b, p, 0, 0, false, Left, 1)| == 0;
    CornerAlongRank(side);
    CornerAlongFile(side);
  }

  /** A lone ordinary piece on `a11` has eighteen moves, whichever side it belongs to. */
  lemma CornerPieceMoves(side: Player)
    ensures |MovesOf(CornerBoard(side))| == 18
  {
    CornerPieces(side);
    SingleMover(CornerBoard(side), FromIndices(0, 0));
    CornerScans(side);
  }

  /**
   * The board with `inner` on `a6`, `outer` on `a7` and `a5` above and
   * below it, and `next` to move: `11/11/11/11/h10/a10/h10/11/11/11/11 a`
   * for a black piece between two white ones.
   */
  function StackBoard(outer: Piece, inner: Piece, next: Player): Board {
    Board(seq(11, y => if y == 4 || y == 6 then Rank(EMPTY_CELLS[0 := Some(outer)])
                       else if y == 5 then Rank(EMPTY_CELLS[0 := Some(inner)])
                       else EMPTY_RANK), next)
  }

  /** The other side. */
  function Opponent(side: Player): Player {
    if side == White then Black else White
  }

  /** The piece between the two guards is the only piece of the side to move. */
  lemma StackPieces(outer: Piece, inner: Piece, side: Player)
    requires Owns(side, Some(inner)) && !Owns(side, Some(outer))
    ensures Pieces(StackBoard(outer, inner, side), side) == [FromIndices(0, 5)]
  {
    SinglePiece(StackBoard(outer, inner, side), side, 0, 5);
  }

  /**
   * The piece between the guards slides along its rank only: a non-king
   * passes over the centre without stopping there, the king may stop on it.
   */
  lemma StackAlongRank(outer: Piece, inner: Piece, side: Player)
    ensures var king := inner == King;
      |Scan(StackBoard(outer, inner, side), FromIndices(0, 5), 0, 5, king, Down, 1)| == if king then 10 else 9
  {
    var b, king := StackBoard(outer, inner, side), inner == King;
    forall k | 1 <= k < 11
      ensures Passable(b, 0, 5, king, Down, k) && (Landable(b, 0, 5, king, Down, k) <==> king || k != 5)
    {
      StackStep(outer, inner, side, k);
    }
    ScanCount(b, FromIndices(0, 5), 0, 5, king, Down, 1, 11, if king then -1 else 5);
  }

  /** Step `k` along the middle rank: an empty square, which only a non-king may not stop on when it is the centre. */
  lemma StackStep(outer: Piece, inner: Piece, side: Player, k: nat)
    requires 1 <= k < 11
    ensures var b, king := StackBoard(outer, inner, side), inner == King;
      Passable(b, 0, 5, king, Down, k) && (Landable(b, 0, 5, king, Down, k) <==> king || k != 5)
  {
    var b := StackBoard(outer, inner, side);
    GetAt(b, k, 5);
    assert b.ranks[5].fields[k].None?;
  }

  /** Its other three scans are empty: the edge, and a guard on either side. */
  lemma StackScans(outer: Piece, inner: Piece, side: Player)
    ensures var king := inner == King;
      |MovesFrom(StackBoard(outer, inner, side), FromIndices(0, 5))| == if king then 10 else 9
  {
    var b, p, king := StackBoard(outer, inner, side), FromIndices(0, 5), inner == King;
    assert b.ranks[5].fields[0] == Some(inner);
    FourScans(b, 0, 5);
    assert |MovesFrom(b, p)| == |Scan(b, p, 0, 5, king, Up, 1)| + |Scan(b, p, 0, 5, king, Down, 1)|
                         + |Scan(b, p, 0, 5, king, Left, 1)| + |Scan(b, p, 0, 5, king, Right, 1)|;
    StackBlocked(outer, inner, side);
    StackAlongRank(outer, inner, side);
  }

  /** The piece between the guards cannot move across the edge, nor onto either guard. */
  lemma StackBlocked(outer: Piece, inner: Piece, side: Player)
    ensures var b, p, king := StackBoard(outer, inner, side), FromIndices(0, 5), inner == King;
      Scan(b, p, 0, 5, king, Up, 1) == [] && Scan(b, p, 0, 5, king, Left, 1) == [] &&
      Scan(b, p, 0, 5, king, Right, 1) == []
  {
    var b, p, king := StackBoard(outer, inner, side), FromIndices(0, 5), inner == King;
    EdgeScans(b, p, 0, 5, king);
    assert b.ranks[4].fields[0].Some? && b.ranks[6].fields[0].Some?;
    ScanBlocked(b, p, 0, 5, king, Left);
    ScanBlocked(b, p, 0, 5, king, Right);
  }

  /** A piece of either side held between two enemy pieces on the `a` file has nine moves. */
  lemma StackedPieceMoves(side: Player)
    ensures |MovesOf(StackBoard(Normal(Opponent(side)), Normal(side), side))| == 9
  {
    var outer, inner := Normal(Opponent(side)), Normal(side);
    StackPieces(outer, inner, side);
    SingleMover(StackBoard(outer, inner, side), FromIndices(0, 5));
    StackScans(outer, inner, side);
  }

  /**
   * The king in the same place (`11/11/11/11/a10/K10/a10/11/11/11/11 h`)
   * has ten: it may stop on the centre square, which is one of them.
   */
  lemma StackedKingMoves()
    ensures |MovesOf(StackBoard(Normal(Black), King, White))| == 10
    ensures Move(FromIndices(0, 5), FromIndices(5, 5)) in MovesOf(StackBoard(Normal(Black), King, White))
  {
    var b := StackBoard(Normal(Black), King, White);
    StackPieces(Normal(Black), King, White);
    SingleMover(b, FromIndices(0, 5));
    StackScans(Normal(Black), King, White);
    KingOnCentre(Normal(Black));
  }

  /** The king's slide to the centre is among the generated moves, whatever guards it. */
  lemma KingOnCentre(outer: Piece)
    requires outer != King
    ensures Move(FromIndices(0, 5), FromIndices(5, 5)) in MovesOf(StackBoard(outer, King, White))
  {
    var b, p := StackBoard(outer, King, White), FromIndices(0, 5);
    GetAt(b, 0, 5);
    assert Owns(b.next, Get(b, p));
    KingSlide(outer);
    MovesOfMembers(b, Move(p, FromIndices(5, 5)));
  }

  /** The king passes four empty squares along its rank and may stop on the fifth, the centre. */
  lemma KingSlide(outer: Piece)
    ensures Slide(StackBoard(outer, King, White), FromIndices(0, 5), Down, 4, FromIndices(5, 5))
  {
    var b, p := StackBoard(outer, King, White), FromIndices(0, 5);
    GetAt(b, 0, 5);
    assert IsKingAt(b, p);
    assert ToIndices(p) == (0, 5);
    var line := Line(b, p, 0, 5, true, Down);
    forall k | 0 <= k < 5
      ensures line[k].pass && line[k].land
    {
      StackStep(outer, King, White, k + 1);
    }
    assert line[4].square == FromIndices(5, 5);
    assert Reaches(line, 4, FromIndices(5, 5));
  }

  // ---------------------------------------------------------------------
  // The texts of the example boards
  // ---------------------------------------------------------------------

  /** A rank holding only `p`, on its first field, is written with the piece's letter and then `10`. */
  lemma FirstFieldText(p: Piece)
    ensures EncodeRank(Rank(EMPTY_CELLS[0 := Some(p)])) == PieceToken(p) + "10"
  {
    var gs := [Character(p), Number(10)];
    assert gs[1..] == [Number(10)] && gs[1..][1..] == [];
    assert Expand([Number(10)]) == seq(10, _ => None) + [];
    assert Expand(gs) == [Some(p)] + Expand([Number(10)]);
    assert Expand(gs) == EMPTY_CELLS[0 := Some(p)];
    assert Render([Number(10)]) == Show(10) + "";
    assert Render(gs) == PieceToken(p) + Render([Number(10)]);
    assert Show(10) == "10";
    RankText(gs, PieceToken(p) + "10");
  }

  /** The empty rank is written `11`. */
  lemma EmptyRankEncodes()
    ensures EncodeRank(EMPTY_RANK) == "11"
  {
    assert Expand([Number(11)]) == EMPTY_CELLS;
    EmptyRankText();
  }

  /** The ranks of a board encode as `texts`: with no side token, the joined texts decode to the board with Black to move. */
  lemma BoardTextNoSide(b: Board, texts: seq<string>)
    requires b.next == Black
    requires |texts| == 11 && forall i :: 0 <= i < 11 ==> EncodeRank(b.ranks[i]) == texts[i]
    ensures DecodeBoard(Join(texts, RANK_SEP)) == Some(b)
  {
    assert RankTexts(b.ranks) == texts;
    DecodeBoardDefaultSide(b.ranks);
  }

  /** The rank texts of the empty board. */
  function EmptyRankTexts(): seq<string> {
    seq(11, _ => "11")
  }

  /** The rank texts of the corner board: `p` then ten empty squares, then ten empty ranks. */
  function CornerRankTexts(p: Piece): seq<string> {
    seq(11, y => if y == 0 then PieceToken(p) + "10" else "11")
  }

  /** The rank texts of the stack boards. */
  function StackRankTexts(outer: Piece, inner: Piece): seq<string> {
    seq(11, y => if y == 4 || y == 6 then PieceToken(outer) + "10"
                 else if y == 5 then PieceToken(inner) + "10" else "11")
  }

  /** `11/11/11/11/11/11/11/11/11/11/11`, with no side token, is the empty board with Black to move. */
  lemma EmptyBoardText()
    ensures DecodeBoard(Join(EmptyRankTexts(), RANK_SEP)) == Some(EmptyBoard(Black))
  {
    var b := EmptyBoard(Black);
    forall y | 0 <= y < 11
      ensures EncodeRank(b.ranks[y]) == EmptyRankTexts()[y]
    {
      EmptyRankEncodes();
    }
    BoardTextNoSide(b, EmptyRankTexts());
  }

  /**
   * `h10/11/11/11/11/11/11/11/11/11/11 h` is the white corner board, and
   * `a10/11/11/11/11/11/11/11/11/11/11`, with no side token, the black one.
   */
  lemma CornerBoardText(side: Player)
    ensures side == White ==>
      DecodeBoard(Join(CornerRankTexts(Normal(side)), RANK_SEP) + " " + WHITE) == Some(CornerBoard(side))
    ensures side == Black ==> DecodeBoard(Join(CornerRankTexts(Normal(side)), RANK_SEP)) == Some(CornerBoard(side))
  {
    var texts := CornerRankTexts(Normal(side));
    var b := CornerBoard(side);
    forall y | 0 <= y < 11
      ensures EncodeRank(b.ranks[y]) == texts[y]
    {
      if y == 0 {
        FirstFieldText(Normal(side));
      } else {
        EmptyRankEncodes();
      }
    }
    if side == White {
      BoardText(b, texts, Join(texts, RANK_SEP) + " " + WHITE);
    } else {
      BoardTextNoSide(b, texts);
    }
  }

  /**
   * `11/11/11/11/h10/a10/h10/11/11/11/11` (no side token, so Black to move),
   * `11/11/11/11/a10/h10/a10/11/11/11/11 h` and
   * `11/11/11/11/a10/K10/a10/11/11/11/11 h` are the stack boards.
   */
  lemma StackBoardText(outer: Piece, inner: Piece, next: Player)
    ensures DecodeBoard(Join(StackRankTexts(outer, inner), RANK_SEP) + " " + PlayerToken(next)) ==
      Some(StackBoard(outer, inner, next))
    ensures next == Black ==> DecodeBoard(Join(StackRankTexts(outer, inner), RANK_SEP)) == Some(StackBoard(outer, inner, next))
  {
    var texts := StackRankTexts(outer, inner);
    var b := StackBoard(outer, inner, next);
    forall y | 0 <= y < 11
      ensures EncodeRank(b.ranks[y]) == texts[y]
    {
      if y == 4 || y == 6 {
        FirstFieldText(outer);
      } else if y == 5 {
        FirstFieldText(inner);
      } else {
        EmptyRankEncodes();
      }
    }
    BoardText(b, texts, Join(texts, RANK_SEP) + " " + PlayerToken(next));
    if next == Black {
      BoardTextNoSide(b, texts);
    }
  }

  // ---------------------------------------------------------------------
  // The move counts of the unit tests, from the texts
  // ---------------------------------------------------------------------

  /** The empty board, written without a side token, has no moves. */
  lemma EmptyBoardCount()
    ensures var d := DecodeBoard(Join(EmptyRankTexts(), RANK_SEP)); d.Some? && |MovesOf(d.value)| == 0
  {
    EmptyBoardText();
    EmptyBoardMoves(Black);
  }

  /** `h10/11/11/11/11/11/11/11/11/11/11 h` and `a10/11/11/11/11/11/11/11/11/11/11` have eighteen moves each. */
  lemma CornerBoardCounts()
    ensures var d := DecodeBoard(Join(CornerRankTexts(Normal(White)), RANK_SEP) + " " + WHITE);
      d.Some? && |MovesOf(d.value)| == 18
    ensures var d := DecodeBoard(Join(CornerRankTexts(Normal(Black)), RANK_SEP));
      d.Some? && |MovesOf(d.value)| == 18
  {
    CornerBoardText(White);
    CornerBoardText(Black);
    CornerPieceMoves(White);
    CornerPieceMoves(Black);
  }

  /** `11/11/11/11/h10/a10/h10/11/11/11/11` and `11/11/11/11/a10/h10/a10/11/11/11/11 h` have nine moves each. */
  lemma StackBoardCounts()
    ensures var d := DecodeBoard(Join(StackRankTexts(Normal(White), Normal(Black)), RANK_SEP));
      d.Some? && |MovesOf(d.value)| == 9
    ensures var d := DecodeBoard(Join(StackRankTexts(Normal(Black), Normal(White)), RANK_SEP) + " " + WHITE);
      d.Some? && |MovesOf(d.value)| == 9
  {
    StackBoardText(Normal(White), Normal(Black), Black);
    StackBoardText(Normal(Black), Normal(White), White);
    StackedPieceMoves(Black);
    StackedPieceMoves(White);
  }

  /** `11/11/11/11/a10/K10/a10/11/11/11/11 h` has ten moves, one of them the king's to the centre. */
  lemma KingBoardCount()
    ensures var d := DecodeBoard(Join(StackRankTexts(Normal(Black), King), RANK_SEP) + " " + WHITE);
      d.Some? && |MovesOf(d.value)| == 10 && Move(FromIndices(0, 5), FromIndices(5, 5)) in MovesOf(d.value)
  {
    StackBoardText(Normal(Black), King, White);
    StackedKingMoves();
  }
}
