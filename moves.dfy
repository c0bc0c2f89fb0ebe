/**
 * Board coordinates, move notation and the sliding-move generator.
 *
 * A square is addressed either by grid indices `(x, y)`, where `x` selects a
 * field within a rank and `y` selects a rank from the top (`y == 0` is the
 * first rank of the board text), or by a `Position`: a column letter and a
 * rank number counted from the bottom, so that index `(0, 0)` prints as
 * `a11`.
 */
module Moves {
  import opened Wrappers
  import opened Decimal
  import opened Types
  import opened Seqs

  /** An unsigned byte, the width of a position's rank. */
  type u8 = x: int | 0 <= x < 256

  datatype Position = Position(column: char, rank: u8)

  datatype Move = Move(from: Position, to: Position)

  // ---------------------------------------------------------------------
  // Grid indices
  // ---------------------------------------------------------------------

  /** `n as u8`: the low eight bits of `n`. */
  function AsU8(n: nat): u8 {
    n % 256
  }

  /** `u8` addition, wrapping around past 255. */
  function WrappingAdd(a: u8, b: u8): u8 {
    if a + b < 256 then a + b else a + b - 256
  }

  /** `u8` subtraction, wrapping around below 0. */
  function WrappingSub(a: u8, b: u8): u8 {
    if a >= b then a - b else a - b + 256
  }

  /**
   * `Position::from_indices`: the column is `b'a'` plus the column index and
   * the rank is 11 minus the rank index, both indices cut to a byte (`as u8`)
   * and the byte arithmetic wrapping around, as in a release build.
   */
  function FromIndices(x: nat, y: nat): (p: Position)
    ensures ToIndices(p) == (AsU8(x), AsU8(y))
    ensures x < 11 && y < 11 ==> OnBoard(p)
  {
    Position(WrappingAdd('a' as int, AsU8(x)) as char, WrappingSub(11, AsU8(y)))
  }

  /** `Position::to_indices`: the column byte minus `b'a'`, and 11 minus the rank, both wrapping. */
  function ToIndices(p: Position): (nat, nat) {
    (WrappingSub(AsU8(p.column as int), 'a' as int), WrappingSub(11, p.rank))
  }

  /** The positions that name one of the 121 squares: columns `a` to `k`, ranks 1 to 11. */
  predicate OnBoard(p: Position) {
    'a' <= p.column <= 'k' && 1 <= p.rank <= 11
  }

  /** Converting to indices and back gives the same position for every single-byte column. */
  lemma PositionRoundTrip(p: Position)
    requires p.column as int < 256
    ensures FromIndices(ToIndices(p).0, ToIndices(p).1) == p
  {
  }

  /** The indices of a square on the board lie in `0..11`, and the squares are exactly the in-board index pairs. */
  lemma OnBoardIndices(p: Position)
    ensures OnBoard(p) ==> InBoard(ToIndices(p).0, ToIndices(p).1)
    ensures OnBoard(p) ==> FromIndices(ToIndices(p).0, ToIndices(p).1) == p
  {
  }

  // ---------------------------------------------------------------------
  // Move notation
  // ---------------------------------------------------------------------

  /** `Display for Position`: the column letter followed by the rank in decimal. */
  function PositionText(p: Position): string {
    [p.column] + Show(p.rank)
  }

  /** A position's text is its column letter and then the decimal digits of its rank, without leading zeros. */
  lemma PositionTextParts(p: Position)
    ensures var s := PositionText(p);
      |s| >= 2 && s[0] == p.column &&
      AllDigits(s[1..]) && Value(s[1..]) == p.rank && (s[1] == '0' ==> p.rank == 0)
  {
    assert PositionText(p)[1..] == Show(p.rank);
  }

  /** `Move::as_hnfen`: the origin's text followed by the destination's. */
  function EncodeMove(m: Move): string {
    PositionText(m.from) + PositionText(m.to)
  }

  predicate IsColumn(c: char) {
    'a' <= c <= 'k'
  }

  /** The length of the run of digits that starts `s`. */
  function LeadingDigits(s: string): (n: nat)
    ensures n <= |s| && AllDigits(s[..n])
    ensures n < |s| ==> !IsDigit(s[n])
  {
    if s == [] || !IsDigit(s[0]) then 0
    else
      var n := 1 + LeadingDigits(s[1..]);
      assert s[..n] == [s[0]] + s[1..][..n - 1];
      n
  }

  /**
   * `Move::from_hnfen`: the text must match `[a-k][0-9]{1,2}[a-k][0-9]{1,2}`
   * in full.  The first digit run ends at the first letter, so the split is
   * unique; each run is read as a decimal number.
   */
  function ParseMove(s: string): (r: Option<Move>) {
    if |s| == 0 || !IsColumn(s[0]) then None
    else
      var n1 := LeadingDigits(s[1..]);
      if n1 < 1 || n1 > 2 || 1 + n1 >= |s| || !IsColumn(s[1 + n1]) then None
      else
        var first := s[1..1 + n1];
        var second := s[2 + n1..];
        assert first == s[1..][..n1];
        if |second| < 1 || |second| > 2 || !AllDigits(second) then None
        else
          SmallValue(first);
          SmallValue(second);
          Some(Move(Position(s[0], Value(first)), Position(s[1 + n1], Value(second))))
  }

  /** The text has a column letter, `n1` digits, a column letter and `n2` digits. */
  ghost predicate Shape(s: string, n1: nat, n2: nat) {
    |s| == 2 + n1 + n2 && IsColumn(s[0]) && AllDigits(s[1..1 + n1])
    && IsColumn(s[1 + n1]) && AllDigits(s[2 + n1..])
  }

  /** The move pattern `^([a-k])(\d{1,2})([a-k])(\d{1,2})$`, each digit group one or two long. */
  ghost predicate MovePattern(s: string) {
    Shape(s, 1, 1) || Shape(s, 1, 2) || Shape(s, 2, 1) || Shape(s, 2, 2)
  }

  /** A digit run followed by a non-digit is exactly as long as the run. */
  lemma {:induction false} LeadingDigitsOf(ds: string, rest: string)
    requires AllDigits(ds)
    requires rest == [] || !IsDigit(rest[0])
    ensures LeadingDigits(ds + rest) == |ds|
  {
    if ds != [] {
      assert (ds + rest)[0] == ds[0];
      assert (ds + rest)[1..] == ds[1..] + rest;
      LeadingDigitsOf(ds[1..], rest);
    } else {
      assert ds + rest == rest;
    }
  }

  /** The first digit run of a text that matches the pattern is `n1` long. */
  ghost predicate SplitAt(s: string, n1: nat) {
    1 <= n1 <= 2 && 3 + n1 <= |s| <= 4 + n1 && Shape(s, n1, |s| - 2 - n1)
  }

  /**
   * Parsing succeeds exactly on the texts the pattern matches, and then the
   * columns are the two letters and the ranks the values of the two digit runs.
   */
  lemma ParseMoveMatches(s: string)
    ensures ParseMove(s).Some? <==> MovePattern(s)
    ensures ParseMove(s).Some? ==>
      exists n1: nat {:trigger SplitAt(s, n1)} :: SplitAt(s, n1)
        && ParseMove(s).value == Move(Position(s[0], Value(s[1..1 + n1])), Position(s[1 + n1], Value(s[2 + n1..])))
  {
    if MovePattern(s) {
      var n1: nat := if Shape(s, 1, 1) || Shape(s, 1, 2) then 1 else 2;
      PatternParses(s, n1);
    }
    if ParseMove(s).Some? {
      ParsedSplit(s);
    }
  }

  /** A text split as the pattern demands parses to its two letters and two digit runs. */
  lemma PatternParses(s: string, n1: nat)
    requires SplitAt(s, n1)
    ensures ParseMove(s).Some?
    ensures ParseMove(s).value.from.column == s[0] && ParseMove(s).value.from.rank == Value(s[1..1 + n1])
    ensures ParseMove(s).value.to.column == s[1 + n1] && ParseMove(s).value.to.rank == Value(s[2 + n1..])
  {
    SliceSplit(s, 1, 1 + n1);
    LeadingDigitsOf(s[1..1 + n1], s[1 + n1..]);
    assert s[1..1 + n1] == s[1..][..n1];
  }

  /** A text that parses splits after its first digit run as the pattern demands. */
  lemma ParsedSplit(s: string)
    requires ParseMove(s).Some?
    ensures SplitAt(s, LeadingDigits(s[1..]))
  {
    var n1 := LeadingDigits(s[1..]);
    assert s[1..1 + n1] == s[1..][..n1];
  }

  /** Every move whose columns are `a` to `k` and whose ranks have at most two digits reads back from its text. */
  lemma MoveRoundTrip(m: Move)
    requires IsColumn(m.from.column) && IsColumn(m.to.column)
    requires m.from.rank < 100 && m.to.rank < 100
    ensures ParseMove(EncodeMove(m)) == Some(m)
  {
    var r1, r2 := Show(m.from.rank), Show(m.to.rank);
    var s := EncodeMove(m);
    assert s == [m.from.column] + r1 + [m.to.column] + r2;
    assert s[1..] == r1 + ([m.to.column] + r2);
    LeadingDigitsOf(r1, [m.to.column] + r2);
    assert s[1..1 + |r1|] == r1;
    assert s[2 + |r1|..] == r2;
  }

  // ---------------------------------------------------------------------
  // Directions and board geometry
  // ---------------------------------------------------------------------

  datatype Direction = Up | Down | Left | Right {
    /** `Direction::vector`: the `(x, y)` offset of a step of the given length. */
    function Vector(length: nat): (v: (int, int))
      ensures v.0 == 0 || v.1 == 0
      ensures Abs(v.0) + Abs(v.1) == length
    {
      match this
      case Up => (-(length as int), 0)
      case Down => (length, 0)
      case Left => (0, -(length as int))
      case Right => (0, length)
    }
  }

  function Abs(n: int): nat {
    if n < 0 then -n else n
  }

  /** `Direction::card`: the four directions, each once. */
  function Card(): (ds: seq<Direction>)
    ensures |ds| == 4
    ensures forall i, j :: 0 <= i < j < |ds| ==> ds[i] != ds[j]
  {
    [Up, Down, Left, Right]
  }

  /** Every direction is among those of `Card`. */
  lemma CardComplete(d: Direction)
    ensures d in Card()
  {
    match d
    case Up => assert Card()[0] == d;
    case Down => assert Card()[1] == d;
    case Left => assert Card()[2] == d;
    case Right => assert Card()[3] == d;
  }

  /** `is_corner`: both indices on an outer line. */
  predicate IsCorner(x: int, y: int) {
    (x == 0 || x == 10) && (y == 0 || y == 10)
  }

  /** `is_castle`: a corner or the centre square. */
  predicate IsCastle(x: int, y: int) {
    IsCorner(x, y) || (x == 5 && y == 5)
  }

  /** `in_board`. */
  predicate InBoard(x: int, y: int) {
    0 <= x < 11 && 0 <= y < 11
  }

  /** The corners are exactly the four squares `(0, 0)`, `(0, 10)`, `(10, 0)` and `(10, 10)`; the castles add the centre. */
  lemma CornersAndCastles(x: int, y: int)
    ensures IsCorner(x, y) <==> (x, y) in {(0, 0), (0, 10), (10, 0), (10, 10)}
    ensures IsCastle(x, y) <==> (x, y) in {(0, 0), (0, 10), (10, 0), (10, 10), (5, 5)}
    ensures IsCastle(x, y) ==> InBoard(x, y)
  {
  }

  // ---------------------------------------------------------------------
  // Board access
  // ---------------------------------------------------------------------

  /** `Board::get`: the field `x` of rank `y`, at the position's indices. */
  function Get(b: Board, p: Position): Option<Piece>
    requires OnBoard(p)
  {
    var (x, y) := ToIndices(p);
    b.ranks[y].fields[x]
  }

  /** Looking up the position of indices `(x, y)` reads field `x` of rank `y`. */
  lemma GetAt(b: Board, x: nat, y: nat)
    requires x < 11 && y < 11
    ensures Get(b, FromIndices(x, y)) == b.ranks[y].fields[x]
  {
  }

  /** A cell holds a piece of `side`: its own normal pieces, and the king for White. */
  predicate Owns(side: Player, c: Option<Piece>) {
    c == Some(Normal(side)) || (side == White && c == Some(King))
  }

  /**
   * `Board::pieces` from the square of row-major number `k` on: the
   * positions of `side`'s pieces in rank order, then field order.
   */
  function PiecesFrom(b: Board, side: Player, k: nat): (ps: seq<Position>)
    requires k <= 121
    ensures forall i :: 0 <= i < |ps| ==> OnBoard(ps[i])
    decreases 121 - k
  {
    if k == 121 then []
    else
      var x, y := k % 11, k / 11;
      var rest := PiecesFrom(b, side, k + 1);
      if Owns(side, b.ranks[y].fields[x]) then [FromIndices(x, y)] + rest else rest
  }

  function Pieces(b: Board, side: Player): (ps: seq<Position>)
    ensures forall i :: 0 <= i < |ps| ==> OnBoard(ps[i])
  {
    PiecesFrom(b, side, 0)
  }

  /** The row-major number of a square. */
  function SquareNumber(p: Position): nat {
    ToIndices(p).1 * 11 + ToIndices(p).0
  }

  /** Row-major numbering is a bijection between in-board index pairs and `0..121`. */
  lemma SquareNumbering(x: nat, y: nat)
    requires x < 11 && y < 11
    ensures (y * 11 + x) / 11 == y && (y * 11 + x) % 11 == x && y * 11 + x < 121
  {
  }

  /** The square of row-major number `k` is the position of indices `(k % 11, k / 11)`. */
  lemma SquareAt(k: nat, p: Position)
    requires k < 121
    ensures OnBoard(p) && SquareNumber(p) == k <==> p == FromIndices(k % 11, k / 11)
  {
    var x, y := k % 11, k / 11;
    SquareNumbering(x, y);
    assert SquareNumber(FromIndices(x, y)) == k;
    if OnBoard(p) && SquareNumber(p) == k {
      OnBoardIndices(p);
      SquareNumbering(ToIndices(p).0, ToIndices(p).1);
    }
  }

  /** One step of `PiecesFrom`: the square `k` itself, then the squares after it. */
  lemma PiecesFromStep(b: Board, side: Player, k: nat, p: Position)
    requires k < 121
    ensures p in PiecesFrom(b, side, k) <==>
      (OnBoard(p) && Owns(side, Get(b, p)) && SquareNumber(p) == k) || p in PiecesFrom(b, side, k + 1)
  {
    SquareAt(k, p);
    GetAt(b, k % 11, k / 11);
  }

  lemma {:induction false} PiecesFromMembers(b: Board, side: Player, k: nat, p: Position)
    requires k <= 121
    ensures p in PiecesFrom(b, side, k) <==> OnBoard(p) && Owns(side, Get(b, p)) && SquareNumber(p) >= k
    decreases 121 - k
  {
    if k < 121 {
      PiecesFromMembers(b, side, k + 1, p);
      PiecesFromStep(b, side, k, p);
    }
  }

  /** The pieces of a side are exactly the squares holding its pieces. */
  lemma PiecesMembers(b: Board, side: Player, p: Position)
    ensures p in Pieces(b, side) <==> OnBoard(p) && Owns(side, Get(b, p))
  {
    PiecesFromMembers(b, side, 0, p);
  }

  // ---------------------------------------------------------------------
  // The move generator
  // ---------------------------------------------------------------------

  /** The indices `length` steps from `(x, y)` in direction `d`; possibly off the board. */
  function Target(x: int, y: int, d: Direction, length: nat): (int, int) {
    var v := d.Vector(length);
    (x + v.0, y + v.1)
  }

  /** `matches!(board.get(p), Some(Piece::King))`. */
  predicate IsKingAt(b: Board, p: Position)
    requires OnBoard(p)
  {
    Get(b, p) == Some(King)
  }

  /**
   * The scan of `possible_moves` for the piece on `from`, at indices
   * `(x, y)`, along `d`, from step `length` up to step 10: stop off the
   * board, stop (non-king) at a corner, step over the centre (non-king)
   * without looking at it, stop at an occupied square, and otherwise emit a
   * move and go on.
   */
  function Scan(b: Board, from: Position, x: int, y: int, isKing: bool, d: Direction, length: nat): seq<Move>
    requires 1 <= length <= 11
    decreases 11 - length
  {
    if length == 11 then []
    else
      var (nx, ny) := Target(x, y, d, length);
      if !InBoard(nx, ny) then []
      else if !isKing && IsCorner(nx, ny) then []
      else if !isKing && nx == 5 && ny == 5 then Scan(b, from, x, y, isKing, d, length + 1)
      else if Get(b, FromIndices(nx, ny)).Some? then []
      else [Move(from, FromIndices(nx, ny))] + Scan(b, from, x, y, isKing, d, length + 1)
  }

  /**
   * The scan may pass step `k`: the square is on the board, is not a corner
   * for a non-king, and is empty, unless a non-king is stepping over the
   * centre, whose occupancy the scan does not look at.
   */
  predicate Passable(b: Board, x: int, y: int, isKing: bool, d: Direction, k: nat) {
    var t := Target(x, y, d, k);
    InBoard(t.0, t.1) && (isKing || !IsCorner(t.0, t.1)) &&
    ((!isKing && t.0 == 5 && t.1 == 5) || Get(b, FromIndices(t.0, t.1)).None?)
  }

  /** The piece may stop at step `k`: an empty square on the board, and no castle for a non-king. */
  predicate Landable(b: Board, x: int, y: int, isKing: bool, d: Direction, k: nat) {
    var t := Target(x, y, d, k);
    InBoard(t.0, t.1) && (isKing || !IsCastle(t.0, t.1)) && Get(b, FromIndices(t.0, t.1)).None?
  }

  /** One step of `Scan` in terms of the two questions it asks: may the piece stop here, and may it go on? */
  lemma ScanUnfold(b: Board, from: Position, x: int, y: int, isKing: bool, d: Direction, length: nat)
    requires 1 <= length <= 10
    ensures var t := Target(x, y, d, length);
      Scan(b, from, x, y, isKing, d, length) ==
        (if Landable(b, x, y, isKing, d, length) then [Move(from, FromIndices(t.0, t.1))] else []) +
        (if Passable(b, x, y, isKing, d, length) then Scan(b, from, x, y, isKing, d, length + 1) else [])
  {
  }

  /** One step of the scan as the piece sees it: may it stop here, may it go on, and which square this is. */
  datatype Step = Step(land: bool, pass: bool, square: Position)

  /** Step `k` along `d` from `(x, y)`; off the board the square is never used, so it is `from`. */
  function StepAt(b: Board, from: Position, x: int, y: int, isKing: bool, d: Direction, k: nat): Step {
    var t := Target(x, y, d, k);
    Step(Landable(b, x, y, isKing, d, k), Passable(b, x, y, isKing, d, k),
         if InBoard(t.0, t.1) then FromIndices(t.0, t.1) else from)
  }

  /** The ten steps of a scan along `d`: element `k` is step `k + 1`. */
  function Line(b: Board, from: Position, x: int, y: int, isKing: bool, d: Direction): (line: seq<Step>)
    ensures |line| == 10
    ensures forall k :: 0 <= k < 10 ==> line[k] == StepAt(b, from, x, y, isKing, d, k + 1)
  {
    seq(10, k requires 0 <= k < 10 => StepAt(b, from, x, y, isKing, d, k + 1))
  }

  /** The moves a line of steps yields: a move to each landable step, up to the first step that cannot be passed. */
  function Emit(from: Position, line: seq<Step>): seq<Move> {
    if line == [] then []
    else
      (if line[0].land then [Move(from, line[0].square)] else []) +
      (if line[0].pass then Emit(from, line[1..]) else [])
  }

  /** Step `L` of the line is reached (every earlier step can be passed) and the piece can stop there, on `to`. */
  ghost predicate Reaches(line: seq<Step>, L: nat, to: Position) {
    L < |line| && (forall k :: 0 <= k < L ==> line[k].pass) && line[L].land && line[L].square == to
  }

  /** The moves a line yields are exactly the moves to its reachable landing squares. */
  lemma {:induction false} EmitMembers(from: Position, line: seq<Step>, m: Move)
    ensures m in Emit(from, line) <==> m.from == from && exists L :: Reaches(line, L, m.to)
    decreases |line|
  {
    if line != [] {
      EmitMembers(from, line[1..], m);
      if m in Emit(from, line) {
        if line[0].land && m == Move(from, line[0].square) {
          assert Reaches(line, 0, m.to);
        } else {
          var L: nat :| Reaches(line[1..], L, m.to);
          forall k | 0 <= k < L + 1 ensures line[k].pass {
            if k > 0 {
              assert line[k] == line[1..][k - 1];
            }
          }
          assert Reaches(line, L + 1, m.to);
        }
      }
      if m.from == from && exists L :: Reaches(line, L, m.to) {
        var L: nat :| Reaches(line, L, m.to);
        if L > 0 {
          assert Reaches(line[1..], L - 1, m.to);
        }
      }
    }
  }

  /** The scan from step `length` yields what the line from that step yields. */
  lemma {:induction false} ScanIsEmit(b: Board, from: Position, x: int, y: int, isKing: bool, d: Direction, length: nat)
    requires 1 <= length <= 11
    ensures Scan(b, from, x, y, isKing, d, length) == Emit(from, Line(b, from, x, y, isKing, d)[length - 1..])
    decreases 11 - length
  {
    var line := Line(b, from, x, y, isKing, d);
    if length <= 10 {
      ScanUnfold(b, from, x, y, isKing, d, length);
      ScanIsEmit(b, from, x, y, isKing, d, length + 1);
      assert line[length - 1..][1..] == line[length..];
    } else {
      assert line[length - 1..] == [];
    }
  }

  /**
   * The moves of a scan are exactly the moves from the scanned square to a
   * landing square that the piece reaches by passing every earlier step.
   */
  lemma ScanMembers(b: Board, from: Position, x: int, y: int, isKing: bool, d: Direction, m: Move)
    ensures m in Scan(b, from, x, y, isKing, d, 1) <==>
      m.from == from && exists L :: Reaches(Line(b, from, x, y, isKing, d), L, m.to)
  {
    var line := Line(b, from, x, y, isKing, d);
    ScanIsEmit(b, from, x, y, isKing, d, 1);
    assert line[0..] == line;
    EmitMembers(from, line, m);
  }

  /** The scans along each direction of `ds`: element `i` holds the moves of the scan along `ds[i]`. */
  function ScanDirs(b: Board, from: Position, x: int, y: int, isKing: bool, ds: seq<Direction>): (scans: seq<seq<Move>>)
    ensures |scans| == |ds|
    ensures forall i :: 0 <= i < |ds| ==> scans[i] == Scan(b, from, x, y, isKing, ds[i], 1)
  {
    seq(|ds|, i requires 0 <= i < |ds| => Scan(b, from, x, y, isKing, ds[i], 1))
  }

  /** The moves of the piece on `from`, along the four directions of `Card`. */
  function MovesFrom(b: Board, from: Position): seq<Move>
    requires OnBoard(from)
  {
    var (x, y) := ToIndices(from);
    Flatten(ScanDirs(b, from, x, y, IsKingAt(b, from), Card()))
  }

  /** The moves of each piece on `locs`: element `i` holds the moves of the piece on `locs[i]`. */
  function PieceMoves(b: Board, locs: seq<Position>): (parts: seq<seq<Move>>)
    requires forall i :: 0 <= i < |locs| ==> OnBoard(locs[i])
    ensures |parts| == |locs|
    ensures forall i :: 0 <= i < |locs| ==> parts[i] == MovesFrom(b, locs[i])
  {
    seq(|locs|, i requires 0 <= i < |locs| => MovesFrom(b, locs[i]))
  }

  // ---------------------------------------------------------------------
  // What the generator yields
  // ---------------------------------------------------------------------

  /**
   * The piece on `from` reaches `to` by sliding along `d` and stopping at
   * step `L + 1`, with the king's freedoms if it is the king.
   */
  ghost predicate Slide(b: Board, from: Position, d: Direction, L: nat, to: Position)
    requires OnBoard(from)
  {
    Reaches(Line(b, from, ToIndices(from).0, ToIndices(from).1, IsKingAt(b, from), d), L, to)
  }

  /** The moves of one piece are exactly its slides, in any of the four directions. */
  lemma MovesFromMembers(b: Board, from: Position, m: Move)
    requires OnBoard(from)
    ensures m in MovesFrom(b, from) <==> m.from == from && exists d, L :: Slide(b, from, d, L, m.to)
  {
    if m in MovesFrom(b, from) {
      var d, L := MovesFromSlide(b, from, m);
    }
    if m.from == from && exists d, L :: Slide(b, from, d, L, m.to) {
      var d, L :| Slide(b, from, d, L, m.to);
      SlideMovesFrom(b, from, d, L, m);
    }
  }

  /** A move of the piece on `from` is one of its slides. */
  lemma MovesFromSlide(b: Board, from: Position, m: Move) returns (d: Direction, L: nat)
    requires OnBoard(from) && m in MovesFrom(b, from)
    ensures m.from == from && Slide(b, from, d, L, m.to)
  {
    var x, y, isKing := ToIndices(from).0, ToIndices(from).1, IsKingAt(b, from);
    var ds := Card();
    var scans := ScanDirs(b, from, x, y, isKing, ds);
    FlattenMembers(scans, m);
    var i :| 0 <= i < |scans| && m in scans[i];
    d := ds[i];
    ScanMembers(b, from, x, y, isKing, d, m);
    L :| Reaches(Line(b, from, x, y, isKing, d), L, m.to);
  }

  /** Every slide of the piece on `from` is one of its moves. */
  lemma SlideMovesFrom(b: Board, from: Position, d: Direction, L: nat, m: Move)
    requires OnBoard(from) && m.from == from && Slide(b, from, d, L, m.to)
    ensures m in MovesFrom(b, from)
  {
    var x, y, isKing := ToIndices(from).0, ToIndices(from).1, IsKingAt(b, from);
    var ds := Card();
    var scans := ScanDirs(b, from, x, y, isKing, ds);
    CardComplete(d);
    var i :| 0 <= i < 4 && ds[i] == d;
    ScanMembers(b, from, x, y, isKing, d, m);
    assert m in scans[i];
    FlattenComplete(scans, i, m);
  }

  /**
   * Where a slide ends: an empty square on the board, on the same rank or
   * the same column as the piece and 1 to 10 squares away, and never a
   * castle unless the piece is the king.
   */
  lemma SlideLands(b: Board, from: Position, d: Direction, L: nat, to: Position)
    requires OnBoard(from) && Slide(b, from, d, L, to)
    ensures OnBoard(to) && Get(b, to).None?
    ensures var f, t := ToIndices(from), ToIndices(to);
      (f.0 == t.0 && 1 <= Abs(f.1 - t.1) <= 10) || (f.1 == t.1 && 1 <= Abs(f.0 - t.0) <= 10)
    ensures !IsKingAt(b, from) ==> !IsCastle(ToIndices(to).0, ToIndices(to).1)
    ensures ToIndices(to) == Target(ToIndices(from).0, ToIndices(from).1, d, L + 1)
  {
    var x, y, isKing := ToIndices(from).0, ToIndices(from).1, IsKingAt(b, from);
    ReachedStep(b, from, x, y, isKing, d, L, to);
    LandingSquare(b, x, y, isKing, d, L + 1);
    TargetOnLine(x, y, d, L + 1);
  }

  /** A reached step is one the piece may stop on, and its square is the destination. */
  lemma ReachedStep(b: Board, from: Position, x: int, y: int, isKing: bool, d: Direction, L: nat, to: Position)
    requires Reaches(Line(b, from, x, y, isKing, d), L, to)
    ensures L < 10 && Landable(b, x, y, isKing, d, L + 1)
    ensures to == FromIndices(Target(x, y, d, L + 1).0, Target(x, y, d, L + 1).1)
  {
    var line := Line(b, from, x, y, isKing, d);
    assert line[L] == StepAt(b, from, x, y, isKing, d, L + 1);
  }

  /** A step the piece may stop on is an empty square whose indices convert back unchanged. */
  lemma LandingSquare(b: Board, x: int, y: int, isKing: bool, d: Direction, k: nat)
    requires Landable(b, x, y, isKing, d, k)
    ensures var t := Target(x, y, d, k);
      InBoard(t.0, t.1) && OnBoard(FromIndices(t.0, t.1)) &&
      ToIndices(FromIndices(t.0, t.1)) == t &&
      Get(b, FromIndices(t.0, t.1)).None? && (isKing || !IsCastle(t.0, t.1))
  {
  }

  /** The square `k` steps away shares a rank or a column with the start and is `k` squares from it. */
  lemma TargetOnLine(x: int, y: int, d: Direction, k: nat)
    ensures var t := Target(x, y, d, k);
      (t.0 == x && Abs(t.1 - y) == k) || (t.1 == y && Abs(t.0 - x) == k)
  {
  }

  /** Two numbers with a third strictly between them. */
  predicate StrictlyBetween(a: int, c: int, b: int) {
    a < c < b || b < c < a
  }

  /** `(cx, cy)` lies strictly between `(fx, fy)` and `(tx, ty)` on the line through both. */
  predicate Between(fx: int, fy: int, tx: int, ty: int, cx: int, cy: int) {
    (cx == fx && fx == tx && StrictlyBetween(fy, cy, ty)) ||
    (cy == fy && fy == ty && StrictlyBetween(fx, cx, tx))
  }

  /**
   * Every square a slide passes over is on the board and empty, except the
   * centre, which a non-king passes over without regard to what stands on it.
   */
  lemma SlidePath(b: Board, from: Position, d: Direction, L: nat, to: Position, cx: int, cy: int)
    requires OnBoard(from) && Slide(b, from, d, L, to)
    requires Between(ToIndices(from).0, ToIndices(from).1, ToIndices(to).0, ToIndices(to).1, cx, cy)
    ensures InBoard(cx, cy)
    ensures Get(b, FromIndices(cx, cy)).None? || (!IsKingAt(b, from) && cx == 5 && cy == 5)
  {
    var x, y, isKing := ToIndices(from).0, ToIndices(from).1, IsKingAt(b, from);
    SlideLands(b, from, d, L, to);
    var k := StepBetween(x, y, d, L + 1, cx, cy);
    var line := Line(b, from, x, y, isKing, d);
    assert line[k - 1] == StepAt(b, from, x, y, isKing, d, k);
    PassedSquare(b, x, y, isKing, d, k);
  }

  /** A square strictly between the start and the square `n` steps away is `k` steps away for some `k` below `n`. */
  lemma StepBetween(x: int, y: int, d: Direction, n: nat, cx: int, cy: int) returns (k: nat)
    requires Between(x, y, Target(x, y, d, n).0, Target(x, y, d, n).1, cx, cy)
    ensures 1 <= k < n && Target(x, y, d, k).0 == cx && Target(x, y, d, k).1 == cy
  {
    k := match d
      case Up => x - cx
      case Down => cx - x
      case Left => y - cy
      case Right => cy - y;
  }

  /** A step the scan may pass is on the board and empty, or is the centre passed by a non-king. */
  lemma PassedSquare(b: Board, x: int, y: int, isKing: bool, d: Direction, k: nat)
    requires Passable(b, x, y, isKing, d, k)
    ensures var t := Target(x, y, d, k);
      InBoard(t.0, t.1) && (Get(b, FromIndices(t.0, t.1)).None? || (!isKing && t.0 == 5 && t.1 == 5))
  {
  }

  /** Every move of one piece starts on that piece. */
  lemma MovesFromOrigin(b: Board, from: Position, m: Move)
    requires OnBoard(from) && m in MovesFrom(b, from)
    ensures m.from == from
  {
    MovesFromMembers(b, from, m);
  }

  /** Every move of the side to move, piece by piece. */
  function MovesOf(b: Board): seq<Move> {
    Flatten(PieceMoves(b, Pieces(b, b.next)))
  }

  /**
   * The generator is sound and complete: a move is generated exactly when
   * it starts on a piece of the side to move and is one of that piece's
   * slides.
   */
  lemma MovesOfMembers(b: Board, m: Move)
    ensures m in MovesOf(b) <==>
      OnBoard(m.from) && Owns(b.next, Get(b, m.from)) && exists d, L :: Slide(b, m.from, d, L, m.to)
  {
    var own := Pieces(b, b.next);
    var parts := PieceMoves(b, own);
    FlattenMembers(parts, m);
    PiecesMembers(b, b.next, m.from);
    if m in MovesOf(b) {
      var i :| 0 <= i < |parts| && m in parts[i];
      MovesFromOrigin(b, own[i], m);
    }
    if OnBoard(m.from) {
      MovesFromMembers(b, m.from, m);
      if m.from in own {
        var i :| 0 <= i < |own| && own[i] == m.from;
        assert parts[i] == MovesFrom(b, m.from);
      }
    }
  }

  /**
   * Every generated move starts on a piece of the side to move and ends on
   * an empty square of the board, on the same rank or column, 1 to 10
   * squares away; only the king ends on a castle.
   */
  lemma GeneratedMove(b: Board, m: Move)
    requires m in MovesOf(b)
    ensures OnBoard(m.from) && Owns(b.next, Get(b, m.from))
    ensures OnBoard(m.to) && Get(b, m.to).None?
    ensures var f, t := ToIndices(m.from), ToIndices(m.to);
      (f.0 == t.0 && 1 <= Abs(f.1 - t.1) <= 10) || (f.1 == t.1 && 1 <= Abs(f.0 - t.0) <= 10)
    ensures !IsKingAt(b, m.from) ==> !IsCastle(ToIndices(m.to).0, ToIndices(m.to).1)
  {
    MovesOfMembers(b, m);
    var d, L :| Slide(b, m.from, d, L, m.to);
    SlideLands(b, m.from, d, L, m.to);
  }

  /**
   * Every square a generated move passes over is empty, except the centre,
   * which a non-king passes over whatever stands on it.
   */
  lemma GeneratedPath(b: Board, m: Move, cx: int, cy: int)
    requires m in MovesOf(b)
    requires Between(ToIndices(m.from).0, ToIndices(m.from).1, ToIndices(m.to).0, ToIndices(m.to).1, cx, cy)
    ensures OnBoard(m.from) && InBoard(cx, cy)
    ensures Get(b, FromIndices(cx, cy)).None? || (!IsKingAt(b, m.from) && cx == 5 && cy == 5)
  {
    MovesOfMembers(b, m);
    var d, L :| Slide(b, m.from, d, L, m.to);
    SlidePath(b, m.from, d, L, m.to, cx, cy);
  }

  /**
   * `possible_moves`: for each piece of the side to move, in the order of
   * `Pieces`, and each direction of `Card`, the moves of one scan.
   */
  method PossibleMoves(b: Board) returns (moves: seq<Move>)
    ensures moves == MovesOf(b)
  {
    moves := [];
    var own := Pieces(b, b.next);
    ghost var parts := PieceMoves(b, own);
    for i := 0 to |own|
      invariant moves == Flatten(parts[..i])
    {
      var loc := own[i];
      var (currX, currY) := ToIndices(loc);
      var isKing := Get(b, loc) == Some(King);
      var dirs := Card();
      ghost var scans := ScanDirs(b, loc, currX, currY, isKing, dirs);
      for j := 0 to |dirs|
        invariant moves == Flatten(parts[..i]) + Flatten(scans[..j])
      {
        var found := ScanDirection(b, loc, currX, currY, isKing, dirs[j]);
        FlattenSnoc(scans, j);
        AppendAssoc(Flatten(parts[..i]), Flatten(scans[..j]), found);
        moves := moves + found;
      }
      assert scans[..|scans|] == scans;
      FlattenSnoc(parts, i);
    }
    assert parts[..|parts|] == parts;
  }

  /**
   * The loop over step lengths 1 to 10 in `possible_moves`, for the piece on
   * `loc` at indices `(currX, currY)` and one direction: it stops at the edge,
   * at a corner for a non-king, and at an occupied square, and steps over the
   * centre for a non-king without looking at it.
   */
  method ScanDirection(b: Board, loc: Position, currX: int, currY: int, isKing: bool, dir: Direction)
    returns (moves: seq<Move>)
    ensures moves == Scan(b, loc, currX, currY, isKing, dir, 1)
  {
    moves := [];
    // The first step is bound to a variable rather than written as a
    // literal, so that the verifier does not unroll the whole scan up front.
    var start := 1;
    ghost var all := Scan(b, loc, currX, currY, isKing, dir, start);
    for length := start to 11
      invariant moves + Scan(b, loc, currX, currY, isKing, dir, length) == all
    {
      var (diffX, diffY) := dir.Vector(length);
      var newX, newY := currX + diffX, currY + diffY;
      ScanAdvance(b, loc, currX, currY, isKing, dir, length, newX, newY, moves, all);
      if !InBoard(newX, newY) {
        assert moves == all;
        break;
      }
      if !isKing {
        if IsCorner(newX, newY) {
          assert moves == all;
          break;
        }
        if newX == 5 && newY == 5 {
          continue;
        }
      }
      if Get(b, FromIndices(newX, newY)).Some? {
        assert moves == all;
        break;
      }
      moves := moves + [Move(loc, FromIndices(newX, newY))];
    }
    assert moves == all;
  }

  /** One step of `Scan`, at the indices `(nx, ny)` that are `length` steps away. */
  lemma ScanStep(b: Board, from: Position, x: int, y: int, isKing: bool, d: Direction, length: nat, nx: int, ny: int)
    requires 1 <= length <= 10
    requires nx == x + d.Vector(length).0 && ny == y + d.Vector(length).1
    ensures !InBoard(nx, ny) ==> Scan(b, from, x, y, isKing, d, length) == []
    ensures InBoard(nx, ny) && !isKing && IsCorner(nx, ny) ==> Scan(b, from, x, y, isKing, d, length) == []
    ensures InBoard(nx, ny) && !isKing && !IsCorner(nx, ny) && nx == 5 && ny == 5 ==>
      Scan(b, from, x, y, isKing, d, length) == Scan(b, from, x, y, isKing, d, length + 1)
    ensures InBoard(nx, ny) && (isKing || (!IsCorner(nx, ny) && !(nx == 5 && ny == 5))) ==>
      Scan(b, from, x, y, isKing, d, length) ==
        if Get(b, FromIndices(nx, ny)).Some? then []
        else [Move(from, FromIndices(nx, ny))] + Scan(b, from, x, y, isKing, d, length + 1)
  {
    assert Target(x, y, d, length) == (nx, ny);
    if InBoard(nx, ny) && (isKing || (!IsCorner(nx, ny) && !(nx == 5 && ny == 5))) {
      assert Scan(b, from, x, y, isKing, d, length) ==
        if Get(b, FromIndices(nx, ny)).Some? then []
        else [Move(from, FromIndices(nx, ny))] + Scan(b, from, x, y, isKing, d, length + 1);
    }
  }

  /** One step of `ScanDirection`: what the moves found so far become at step `length`. */
  lemma ScanAdvance(b: Board, from: Position, x: int, y: int, isKing: bool, d: Direction, length: nat, nx: int, ny: int,
                    done: seq<Move>, all: seq<Move>)
    requires 1 <= length <= 10
    requires nx == x + d.Vector(length).0 && ny == y + d.Vector(length).1
    requires done + Scan(b, from, x, y, isKing, d, length) == all
    ensures !InBoard(nx, ny) ==> done == all
    ensures InBoard(nx, ny) && !isKing && IsCorner(nx, ny) ==> done == all
    ensures InBoard(nx, ny) && !isKing && !IsCorner(nx, ny) && nx == 5 && ny == 5 ==>
      done + Scan(b, from, x, y, isKing, d, length + 1) == all
    ensures InBoard(nx, ny) && (isKing || (!IsCorner(nx, ny) && !(nx == 5 && ny == 5))) ==>
      if Get(b, FromIndices(nx, ny)).Some? then done == all
      else (done + [Move(from, FromIndices(nx, ny))]) + Scan(b, from, x, y, isKing, d, length + 1) == all
  {
    ScanStep(b, from, x, y, isKing, d, length, nx, ny);
    AppendNil(done);
    if InBoard(nx, ny) {
      AppendAssoc(done, [Move(from, FromIndices(nx, ny))], Scan(b, from, x, y, isKing, d, length + 1));
    }
  }
}
