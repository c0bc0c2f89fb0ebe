/**
 * The board state of an 11x11 Hnefatafl game and its HNFEN text notation:
 * players, pieces, ranks of eleven optional cells, and the whole board with
 * the side to move.
 */
module Types {
  import opened Wrappers
  import opened Decimal
  import opened Seqs

  /** A side.  Black starts and attacks; White defends. */
  datatype Player = Black | White

  /** What can stand on a cell: an ordinary piece of one side, or the king. */
  datatype Piece = Normal(player: Player) | King

  const WHITE: string := "h"
  const BLACK: string := "a"
  const KING: string := "K"
  const RANK_SEP: char := '/'

  /** The eleven cells of one rank, left to right; `None` is an empty cell. */
  type Cells = s: seq<Option<Piece>> | |s| == 11 witness EMPTY_CELLS

  const EMPTY_CELLS: seq<Option<Piece>> := seq(11, _ => None)

  datatype Rank = Rank(fields: Cells)

  /** The eleven ranks of a board, top (rank 11) first. */
  type Ranks = s: seq<Rank> | |s| == 11 witness seq(11, _ => Rank(EMPTY_CELLS))

  datatype Board = Board(ranks: Ranks, next: Player)

  // ---------------------------------------------------------------------------
  // Player and piece tokens

  /** The one-letter token of a side. */
  function PlayerToken(p: Player): string {
    match p
    case Black => BLACK
    case White => WHITE
  }

  /** Reads a side token; anything other than `a` or `h` is rejected. */
  function DecodePlayer(s: string): (r: Option<Player>)
    ensures r.Some? <==> |s| == 1 && (s[0] == 'a' || s[0] == 'h')
    ensures r.Some? ==> PlayerToken(r.value) == s
  {
    if s == BLACK then Some(Black)
    else if s == WHITE then Some(White)
    else None
  }

  lemma PlayerRoundTrip(p: Player)
    ensures DecodePlayer(PlayerToken(p)) == Some(p)
  {
  }

  /** The one-letter token of a piece: the side's letter for an ordinary piece, `K` for the king. */
  function PieceToken(p: Piece): string {
    match p
    case Normal(Black) => BLACK
    case Normal(White) => WHITE
    case King => KING
  }

  /** Reads a piece token; anything other than `a`, `h` or `K` is rejected. */
  function DecodePiece(s: string): (r: Option<Piece>)
    ensures r.Some? <==> |s| == 1 && (s[0] == 'a' || s[0] == 'h' || s[0] == 'K')
    ensures r.Some? ==> PieceToken(r.value) == s
  {
    if s == BLACK then Some(Normal(Black))
    else if s == WHITE then Some(Normal(White))
    else if s == KING then Some(King)
    else None
  }

  lemma PieceRoundTrip(p: Piece)
    ensures DecodePiece(PieceToken(p)) == Some(p)
  {
  }

  // ---------------------------------------------------------------------------
  // Groups: the token structure of a rank text

  /** One token of a rank text: a count of empty cells, or a single piece. */
  datatype Group = Number(count: nat) | Character(piece: Piece)

  /** The cells a group stands for. */
  function ExpandGroup(g: Group): seq<Option<Piece>> {
    match g
    case Number(n) => seq(n, _ => None)
    case Character(p) => [Some(p)]
  }

  /** The cells a sequence of groups stands for, left to right. */
  function Expand(gs: seq<Group>): seq<Option<Piece>> {
    if gs == [] then [] else ExpandGroup(gs[0]) + Expand(gs[1..])
  }

  /** The number of cells a sequence of groups covers: the sum of its counts plus its number of pieces. */
  function Width(gs: seq<Group>): (w: nat)
    ensures w == |Expand(gs)|
  {
    if gs == [] then 0
    else (match gs[0] case Number(n) => n case Character(_) => 1) + Width(gs[1..])
  }

  /** No count is zero and no two counts are adjacent: the shape the encoder produces. */
  ghost predicate Canonical(gs: seq<Group>) {
    NoAdjacentNumbers(gs) &&
    forall i :: 0 <= i < |gs| && gs[i].Number? ==> gs[i].count > 0
  }

  ghost predicate NoAdjacentNumbers(gs: seq<Group>) {
    forall i :: 0 <= i < |gs| - 1 ==> !(gs[i].Number? && gs[i + 1].Number?)
  }

  lemma {:induction false} ExpandAppend(a: seq<Group>, b: seq<Group>)
    ensures Expand(a + b) == Expand(a) + Expand(b)
    decreases |a|
  {
    if a == [] {
      assert a + b == b;
    } else {
      assert (a + b)[1..] == a[1..] + b;
      ExpandAppend(a[1..], b);
    }
  }

  // ---------------------------------------------------------------------------
  // Rank encoding

  /** The length of the run of empty cells that starts the sequence. */
  function LeadingEmpty(cells: seq<Option<Piece>>): (n: nat)
    ensures n <= |cells|
    ensures n < |cells| ==> cells[n].Some?
  {
    if cells == [] || cells[0].Some? then 0 else 1 + LeadingEmpty(cells[1..])
  }

  /** Every cell of the leading run is empty. */
  lemma {:induction false} LeadingEmptyNone(cells: seq<Option<Piece>>)
    ensures forall i :: 0 <= i < LeadingEmpty(cells) ==> cells[i].None?
    decreases |cells|
  {
    if cells != [] && cells[0].None? {
      LeadingEmptyNone(cells[1..]);
      forall i | 1 <= i < LeadingEmpty(cells) ensures cells[i].None? {
        assert cells[i] == cells[1..][i - 1];
      }
    }
  }

  /** `n` empty cells followed by a piece or the end: the leading run has length `n`. */
  lemma {:induction false} LeadingEmptyIs(cells: seq<Option<Piece>>, n: nat)
    requires n <= |cells| && forall k :: 0 <= k < n ==> cells[k].None?
    requires n < |cells| ==> cells[n].Some?
    ensures LeadingEmpty(cells) == n
    decreases n
  {
    if n > 0 {
      var rest := cells[1..];
      assert forall k :: 0 <= k < n - 1 ==> rest[k] == cells[k + 1];
      LeadingEmptyIs(rest, n - 1);
    }
  }

  /**
   * The groups of a rank, left to right: each piece as itself and each
   * maximal run of empty cells as its length.
   */
  function Groups(cells: seq<Option<Piece>>): (gs: seq<Group>)
    decreases |cells|
  {
    if cells == [] then []
    else if cells[0].Some? then [Character(cells[0].value)] + Groups(cells[1..])
    else
      var n := LeadingEmpty(cells);
      [Number(n)] + Groups(cells[n..])
  }

  /** The groups of a rank expand back to its cells. */
  lemma {:induction false} GroupsExpandBack(cells: seq<Option<Piece>>)
    ensures Expand(Groups(cells)) == cells
    decreases |cells|
  {
    if cells != [] {
      var n := if cells[0].Some? then 1 else LeadingEmpty(cells);
      var rest := cells[n..];
      var g := if cells[0].Some? then Character(cells[0].value) else Number(n);
      assert Groups(cells) == [g] + Groups(rest);
      GroupsExpandBack(rest);
      assert Expand([g] + Groups(rest)) == ExpandGroup(g) + Expand(Groups(rest)) by {
        assert ([g] + Groups(rest))[1..] == Groups(rest);
      }
      assert ExpandGroup(g) == cells[..n] by {
        LeadingEmptyNone(cells);
      }
      assert cells == cells[..n] + rest;
    }
  }

  /** The groups of a rank are canonical: every run is non-empty and maximal, so no two counts touch. */
  lemma {:induction false} GroupsCanonical(cells: seq<Option<Piece>>)
    ensures Canonical(Groups(cells))
    ensures Groups(cells) != [] ==> (Groups(cells)[0].Character? <==> cells[0].Some?)
    decreases |cells|
  {
    if cells != [] {
      var gs := Groups(cells);
      var n := if cells[0].Some? then 1 else LeadingEmpty(cells);
      var rest := cells[n..];
      GroupsCanonical(rest);
      assert gs == [gs[0]] + Groups(rest);
      assert cells[0].None? && rest != [] ==> rest[0].Some?;
      assert cells[0].None? && Groups(rest) != [] ==> Groups(rest)[0].Character?;
    }
  }

  /** The text of one group: a count in decimal, a piece as its token. */
  function RenderGroup(g: Group): string {
    match g
    case Number(n) => Show(n)
    case Character(p) => PieceToken(p)
  }

  /** The texts of the groups, concatenated. */
  function Render(gs: seq<Group>): string {
    if gs == [] then "" else RenderGroup(gs[0]) + Render(gs[1..])
  }

  lemma {:induction false} RenderAppend(a: seq<Group>, b: seq<Group>)
    ensures Render(a + b) == Render(a) + Render(b)
    decreases |a|
  {
    if a == [] {
      assert a + b == b;
    } else {
      assert (a + b)[1..] == a[1..] + b;
      RenderAppend(a[1..], b);
    }
  }

  /** `Rank::as_hnfen`, as a value: the rendered groups of the rank's cells. */
  function EncodeRank(r: Rank): string {
    Render(Groups(r.fields))
  }

  /** `Rank::as_hnfen`: a running count of empty cells is flushed before each piece and at the end. */
  method RankAsHnfen(rank: Rank) returns (buf: string)
    ensures buf == EncodeRank(rank)
  {
    var cells: seq<Option<Piece>> := rank.fields;
    var emptyPrec := 0;
    buf := "";
    ghost var start := 0;
    for i := 0 to |cells|
      invariant start == i - emptyPrec
      invariant EmptyRun(cells, start, i)
      invariant buf == Render(Groups(cells[..start]))
    {
      if cells[i].Some? {
        FlushRun(cells, start, i);
        if emptyPrec > 0 {
          buf := buf + Show(emptyPrec);
          emptyPrec := 0;
        } else {
          assert buf + "" == buf;
        }
        buf := buf + PieceToken(cells[i].value);
        start := i + 1;
      } else {
        emptyPrec := emptyPrec + 1;
      }
    }
    if emptyPrec > 0 {
      GroupsOfRun(cells, start);
      buf := buf + Show(emptyPrec);
    } else {
      assert cells[..|cells|] == cells;
    }
  }

  /** The cells from `start` up to `i` are empty, and the cell before `start` (if any) holds a piece. */
  ghost predicate EmptyRun(cells: seq<Option<Piece>>, start: nat, i: nat) {
    start <= i <= |cells| &&
    (start == 0 || cells[start - 1].Some?) &&
    forall k :: start <= k < i ==> cells[k].None?
  }

  /** Groups of a prefix ending in a piece extend by the run before it (if any) and the piece. */
  lemma FlushRun(cells: seq<Option<Piece>>, start: nat, i: nat)
    requires EmptyRun(cells, start, i) && i < |cells|
    requires cells[i].Some?
    ensures Render(Groups(cells[..i + 1])) ==
            Render(Groups(cells[..start])) +
            (if i - start > 0 then Show(i - start) else "") +
            PieceToken(cells[i].value)
  {
    PrefixSplit(cells, start, i + 1);
    RunBeforePiece(cells, start, i);
    AfterPiece(cells[..start], cells[start..i + 1]);
  }

  /** The slice from the start of an empty run up to the piece after it is a run followed by that piece. */
  lemma RunBeforePiece(cells: seq<Option<Piece>>, start: nat, i: nat)
    requires EmptyRun(cells, start, i) && i < |cells|
    requires cells[i].Some?
    ensures var head, tail := cells[..start], cells[start..i + 1];
      (head == [] || head[|head| - 1].Some?) &&
      |tail| == i - start + 1 && tail[|tail| - 1] == cells[i] &&
      forall k :: 0 <= k < |tail| - 1 ==> tail[k].None?
  {
  }

  /** A prefix that ends in a piece, then a run of empty cells and one more piece: the run and the piece render after the prefix. */
  lemma AfterPiece(head: seq<Option<Piece>>, tail: seq<Option<Piece>>)
    requires head == [] || head[|head| - 1].Some?
    requires |tail| >= 1 && tail[|tail| - 1].Some?
    requires forall k :: 0 <= k < |tail| - 1 ==> tail[k].None?
    ensures Render(Groups(head + tail)) ==
            Render(Groups(head)) +
            (if |tail| > 1 then Show(|tail| - 1) else "") +
            PieceToken(tail[|tail| - 1].value)
  {
    var run := if |tail| > 1 then Show(|tail| - 1) else "";
    GroupsAppend(head, tail);
    RunThenPiece(tail);
    RenderAppend(Groups(head), Groups(tail));
    AppendAssoc(Render(Groups(head)), run, PieceToken(tail[|tail| - 1].value));
  }

  /** A run of empty cells followed by one piece renders as the run's count (if any) and the piece's token. */
  lemma RunThenPiece(tail: seq<Option<Piece>>)
    requires |tail| >= 1 && tail[|tail| - 1].Some?
    requires forall k :: 0 <= k < |tail| - 1 ==> tail[k].None?
    ensures Render(Groups(tail)) ==
            (if |tail| > 1 then Show(|tail| - 1) else "") + PieceToken(tail[|tail| - 1].value)
  {
    var p := tail[|tail| - 1].value;
    LonePiece(p);
    if |tail| > 1 {
      GroupsRunThenPiece(tail);
      assert Render([Number(|tail| - 1), Character(p)]) == Show(|tail| - 1) + Render([Character(p)]);
    } else {
      assert tail == [Some(p)];
    }
  }

  /** A single piece groups and renders as itself. */
  lemma LonePiece(p: Piece)
    ensures Groups([Some(p)]) == [Character(p)]
    ensures Render([Character(p)]) == PieceToken(p)
  {
    assert [Some(p)][1..] == [];
    assert [Character(p)][1..] == [];
  }

  /** A nonempty run of empty cells followed by one piece makes one count and the piece. */
  lemma GroupsRunThenPiece(tail: seq<Option<Piece>>)
    requires |tail| > 1 && tail[|tail| - 1].Some?
    requires forall k :: 0 <= k < |tail| - 1 ==> tail[k].None?
    ensures Groups(tail) == [Number(|tail| - 1), Character(tail[|tail| - 1].value)]
  {
    var n := |tail| - 1;
    var p := tail[n].value;
    LeadingEmptyIs(tail, n);
    assert tail[n..] == [Some(p)];
    LonePiece(p);
  }

  /** A final run of empty cells contributes one count at the end. */
  lemma GroupsOfRun(cells: seq<Option<Piece>>, start: nat)
    requires EmptyRun(cells, start, |cells|) && start < |cells|
    ensures Render(Groups(cells)) == Render(Groups(cells[..start])) + Show(|cells| - start)
  {
    var head := cells[..start];
    var tail := cells[start..];
    assert cells == head + tail;
    GroupsAppend(head, tail);
    LeadingEmptyIs(tail, |tail|);
    assert Groups(tail) == [Number(|tail|)] + Groups([]);
    RenderAppend(Groups(head), Groups(tail));
  }

  /** Grouping splits after a piece: the runs on either side cannot merge. */
  lemma {:induction false} GroupsAppend(a: seq<Option<Piece>>, b: seq<Option<Piece>>)
    requires a == [] || a[|a| - 1].Some?
    ensures Groups(a + b) == Groups(a) + Groups(b)
    decreases |a|, 1
  {
    if a == [] {
      assert a + b == b;
    } else if a[0].Some? {
      GroupsAppendPiece(a, b);
    } else {
      GroupsAppendRun(a, b);
    }
  }

  /** `GroupsAppend` when `a` starts with a piece. */
  lemma {:induction false} GroupsAppendPiece(a: seq<Option<Piece>>, b: seq<Option<Piece>>)
    requires a != [] && a[0].Some? && a[|a| - 1].Some?
    ensures Groups(a + b) == Groups(a) + Groups(b)
    decreases |a|, 0
  {
    var ab := a + b;
    var g := Character(a[0].value);
    assert ab[0] == a[0];
    assert Groups(ab) == [g] + Groups(ab[1..]);
    assert Groups(a) == [g] + Groups(a[1..]);
    assert ab[1..] == a[1..] + b;
    GroupsAppend(a[1..], b);
    AppendAssoc([g], Groups(a[1..]), Groups(b));
  }

  /** `GroupsAppend` when `a` starts with a run of empty cells. */
  lemma {:induction false} GroupsAppendRun(a: seq<Option<Piece>>, b: seq<Option<Piece>>)
    requires a != [] && a[0].None? && a[|a| - 1].Some?
    ensures Groups(a + b) == Groups(a) + Groups(b)
    decreases |a|, 0
  {
    var n := LeadingEmpty(a);
    var ab := a + b;
    LeadingEmptyNone(a);
    LeadingEmptyAppend(a, b);
    assert ab[0].None?;
    assert Groups(ab) == [Number(n)] + Groups(ab[n..]);
    assert Groups(a) == [Number(n)] + Groups(a[n..]);
    assert ab[n..] == a[n..] + b;
    GroupsAppend(a[n..], b);
    AppendAssoc([Number(n)], Groups(a[n..]), Groups(b));
  }

  /** A run of empty cells that ends inside `a` is not lengthened by what follows `a`. */
  lemma LeadingEmptyAppend(a: seq<Option<Piece>>, b: seq<Option<Piece>>)
    requires LeadingEmpty(a) < |a|
    ensures LeadingEmpty(a + b) == LeadingEmpty(a)
  {
    var n := LeadingEmpty(a);
    LeadingEmptyNone(a);
    assert forall k :: 0 <= k <= n ==> (a + b)[k] == a[k];
    LeadingEmptyIs(a + b, n);
  }

  // ---------------------------------------------------------------------------
  // Rank decoding

  /** `Piece::from_hnfen` applied to a one-character string, as rank decoding calls it. */
  function PieceFromChar(c: char): Option<Piece> {
    match c
    case 'a' => Some(Normal(Black))
    case 'h' => Some(Normal(White))
    case 'K' => Some(King)
    case _ => None
  }

  lemma PieceFromCharAgrees(c: char)
    ensures PieceFromChar(c) == DecodePiece([c])
  {
  }

  /** A piece token is one non-digit character that reads back as the piece. */
  lemma PieceTokenChar(p: Piece)
    ensures |PieceToken(p)| == 1
    ensures !IsDigit(PieceToken(p)[0])
    ensures PieceFromChar(PieceToken(p)[0]) == Some(p)
  {
  }

  /** A character a rank text may hold: an ASCII digit or a piece token. */
  predicate IsRankChar(c: char) {
    IsDigit(c) || c == 'a' || c == 'h' || c == 'K'
  }

  /**
   * One step of the tokenizer: a digit extends a count that ends the group
   * list (multi-digit counts accumulate) or starts a new one; any other
   * character must be a piece token.
   */
  function LexStep(gs: seq<Group>, c: char): Option<seq<Group>> {
    if IsDigit(c) then
      if |gs| > 0 && gs[|gs| - 1].Number? then
        Some(gs[..|gs| - 1] + [Number(gs[|gs| - 1].count * 10 + DigitValue(c))])
      else
        Some(gs + [Number(DigitValue(c))])
    else
      match PieceFromChar(c)
      case None => None
      case Some(p) => Some(gs + [Character(p)])
  }

  /** The groups of a rank text, built character by character from the left. */
  function Lex(s: string): Option<seq<Group>> {
    if s == [] then Some([])
    else
      match Lex(s[..|s| - 1])
      case None => None
      case Some(gs) => LexStep(gs, s[|s| - 1])
  }

  /**
   * `Rank::from_hnfen`, as a value: the text's groups must cover exactly
   * eleven cells.
   */
  function DecodeRank(s: string): Option<Rank> {
    match Lex(s)
    case None => None
    case Some(gs) => if Width(gs) == 11 then Some(Rank(Expand(gs))) else None
  }

  lemma LexSnoc(s: string, c: char)
    ensures Lex(s + [c]) == (match Lex(s) case None => None case Some(gs) => LexStep(gs, c))
  {
    assert (s + [c])[..|s|] == s;
  }

  /** Once a prefix fails to tokenize, the whole text does. */
  lemma {:induction false} LexNonePrefix(s: string, i: nat)
    requires i <= |s|
    requires Lex(s[..i]) == None
    ensures Lex(s) == None
    decreases |s| - i
  {
    if i < |s| {
      LexSnoc(s[..i], s[i]);
      assert s[..i] + [s[i]] == s[..i + 1];
      LexNonePrefix(s, i + 1);
    } else {
      assert s[..i] == s;
    }
  }

  /** Tokenizing fails exactly when the text holds a character that is neither a digit nor a piece token. */
  lemma {:induction false} LexFails(s: string)
    ensures Lex(s).None? <==> exists i :: 0 <= i < |s| && !IsRankChar(s[i])
    decreases |s|
  {
    if s != [] {
      var init := s[..|s| - 1];
      LexFails(init);
      assert forall i :: 0 <= i < |init| ==> init[i] == s[i];
      if Lex(init).None? {
        var i :| 0 <= i < |init| && !IsRankChar(init[i]);
        assert !IsRankChar(s[i]);
      } else if !IsRankChar(s[|s| - 1]) {
        assert Lex(s).None?;
      } else {
        assert Lex(s).Some?;
        forall i | 0 <= i < |s| ensures IsRankChar(s[i]) {
          if i < |init| {
            assert init[i] == s[i];
          }
        }
      }
    }
  }

  /** A digit after a count extends that count by one decimal place. */
  lemma LexDigitExtends(t: string, c: char, gs: seq<Group>, v: nat)
    requires Lex(t) == Some(gs + [Number(v)]) && IsDigit(c)
    ensures Lex(t + [c]) == Some(gs + [Number(v * 10 + DigitValue(c))])
  {
    LexSnoc(t, c);
    var gs' := gs + [Number(v)];
    assert gs'[..|gs'| - 1] == gs;
  }

  /** A digit after a piece, or at the start, opens a new count. */
  lemma LexDigitOpens(t: string, c: char, gs: seq<Group>)
    requires Lex(t) == Some(gs) && IsDigit(c)
    requires gs == [] || !gs[|gs| - 1].Number?
    ensures Lex(t + [c]) == Some(gs + [Number(DigitValue(c))])
  {
    LexSnoc(t, c);
  }

  /** Appending a digit string after a piece (or at the start) adds one count holding its value. */
  lemma {:induction false} LexDigits(s: string, ds: string, gs: seq<Group>)
    requires Lex(s) == Some(gs)
    requires gs == [] || !gs[|gs| - 1].Number?
    requires |ds| >= 1 && AllDigits(ds)
    ensures Lex(s + ds) == Some(gs + [Number(Value(ds))])
    decreases |ds|
  {
    var init, c := ds[..|ds| - 1], ds[|ds| - 1];
    SnocSplit(s, ds);
    if |ds| == 1 {
      LexDigitOpens(s, c, gs);
    } else {
      LexDigits(s, init, gs);
      LexDigitExtends(s + init, c, gs, Value(init));
    }
  }

  /** Tokenizing the rendering of groups with no adjacent counts gives the groups back. */
  lemma {:induction false} LexRender(gs: seq<Group>)
    requires NoAdjacentNumbers(gs)
    ensures Lex(Render(gs)) == Some(gs)
    decreases |gs|
  {
    if gs != [] {
      var init := gs[..|gs| - 1];
      var g := gs[|gs| - 1];
      assert gs == init + [g];
      assert NoAdjacentNumbers(init);
      LexRender(init);
      RenderAppend(init, [g]);
      assert Render([g]) == RenderGroup(g);
      match g
      case Number(n) =>
        LexDigits(Render(init), Show(n), init);
      case Character(p) =>
        PieceTokenChar(p);
        assert RenderGroup(g) == [PieceToken(p)[0]];
        LexSnoc(Render(init), PieceToken(p)[0]);
    }
  }

  /** Canonical groups are exactly the grouping of the cells they expand to. */
  lemma {:induction false} GroupsExpand(gs: seq<Group>)
    requires Canonical(gs)
    ensures Groups(Expand(gs)) == gs
    decreases |gs|
  {
    if gs != [] {
      var rest := gs[1..];
      assert Canonical(rest);
      GroupsExpand(rest);
      var cells := Expand(gs);
      assert cells == ExpandGroup(gs[0]) + Expand(rest);
      match gs[0]
      case Character(p) =>
        assert cells[0] == Some(p);
        assert cells[1..] == Expand(rest);
      case Number(n) =>
        assert n > 0;
        var tail := Expand(rest);
        assert rest != [] ==> rest[0].Character?;
        assert tail != [] ==> tail[0].Some? by {
          if rest != [] {
            assert tail == ExpandGroup(rest[0]) + Expand(rest[1..]);
          }
        }
        assert cells[0] == None;
        assert forall i :: 0 <= i < n ==> cells[i].None?;
        assert n < |cells| ==> cells[n] == tail[0];
        LeadingEmptyIs(cells, n);
        assert cells[n..] == tail;
    }
  }

  /** Every rank survives encoding then decoding. */
  lemma RankRoundTrip(r: Rank)
    ensures DecodeRank(EncodeRank(r)) == Some(r)
  {
    EncodeRankTokens(r);
    GroupsExpandBack(r.fields);
  }

  /** The encoding's counts plus its pieces cover exactly the eleven cells of the rank. */
  lemma EncodeRankTokens(r: Rank)
    ensures Lex(EncodeRank(r)) == Some(Groups(r.fields))
    ensures Width(Groups(r.fields)) == 11
  {
    GroupsCanonical(r.fields);
    GroupsExpandBack(r.fields);
    LexRender(Groups(r.fields));
  }

  /**
   * A canonical rank text (no zero count, no adjacent counts, eleven cells)
   * decodes to the cells it describes and re-encodes to itself.
   */
  lemma CanonicalRoundTrip(gs: seq<Group>)
    requires Canonical(gs) && Width(gs) == 11
    ensures DecodeRank(Render(gs)) == Some(Rank(Expand(gs)))
    ensures EncodeRank(Rank(Expand(gs))) == Render(gs)
  {
    LexRender(gs);
    GroupsExpand(gs);
  }

  /**
   * The first loop of `Rank::from_hnfen`: each digit extends a trailing
   * count or starts a new one, and every other character must be a piece
   * token (`Piece::from_hnfen` panics on anything else).
   */
  method LexRank(hnfen: string) returns (lexed: Option<seq<Group>>)
    ensures lexed == Lex(hnfen)
  {
    var groups: seq<Group> := [];
    for i := 0 to |hnfen|
      invariant Lex(hnfen[..i]) == Some(groups)
    {
      var k := hnfen[i];
      LexPrefixStep(hnfen, i, groups);
      if IsDigit(k) {
        if |groups| > 0 && groups[|groups| - 1].Number? {
          groups := groups[..|groups| - 1] + [Number(groups[|groups| - 1].count * 10 + DigitValue(k))];
        } else {
          groups := groups + [Number(DigitValue(k))];
        }
      } else {
        var piece := DecodePiece([k]);
        PieceFromCharAgrees(k);
        if piece.None? {
          LexNonePrefix(hnfen, i + 1);
          return None;
        }
        groups := groups + [Character(piece.value)];
      }
    }
    assert hnfen[..|hnfen|] == hnfen;
    lexed := Some(groups);
  }

  /** `Rank::from_hnfen`: tokenize into `groups`, then place them with a cursor into an eleven-cell array. */
  method RankFromHnfen(hnfen: string) returns (rank: Option<Rank>)
    ensures rank == DecodeRank(hnfen)
  {
    var lexed := LexRank(hnfen);
    if lexed.None? {
      return None;
    }
    var groups := lexed.value;

    var fields := new Option<Piece>[11](_ => None);
    var cIndex := 0;
    ghost var placed: seq<Option<Piece>> := [];
    assert fields[..] == Fill(placed);
    for j := 0 to |groups|
      invariant placed == Expand(groups[..j]) && cIndex == |placed|
      invariant fields[..] == Fill(placed)
    {
      ExpandPrefixStep(groups, j);
      match groups[j] {
        case Number(k) =>
          FillRun(placed, k);
          cIndex := cIndex + k;
        case Character(p) =>
          if cIndex >= 11 {
            // writing past the last cell: `Rank::from_hnfen` indexes out of bounds
            WidthPrefix(groups, j + 1);
            return None;
          }
          FillPiece(placed, p);
          fields[cIndex] := Some(p);
          cIndex := cIndex + 1;
      }
      placed := placed + ExpandGroup(groups[j]);
    }
    assert groups[..|groups|] == groups;

    if cIndex != 11 {
      return None;
    }
    assert Fill(placed) == placed;
    rank := Some(Rank(fields[..]));
  }

  /** The eleven cells of a rank after the cells `placed` are written from the left; the rest stay empty. */
  ghost function Fill(placed: seq<Option<Piece>>): seq<Option<Piece>> {
    seq(11, k requires 0 <= k < 11 => if k < |placed| then placed[k] else None)
  }

  lemma FillRun(placed: seq<Option<Piece>>, n: nat)
    ensures Fill(placed + seq(n, _ => None)) == Fill(placed)
  {
  }

  lemma FillPiece(placed: seq<Option<Piece>>, p: Piece)
    requires |placed| < 11
    ensures Fill(placed + [Some(p)]) == Fill(placed)[|placed| := Some(p)]
  {
  }

  lemma LexPrefixStep(s: string, i: nat, gs: seq<Group>)
    requires i < |s| && Lex(s[..i]) == Some(gs)
    ensures Lex(s[..i + 1]) == LexStep(gs, s[i])
  {
    assert s[..i + 1] == s[..i] + [s[i]];
    LexSnoc(s[..i], s[i]);
  }

  lemma ExpandPrefixStep(gs: seq<Group>, j: nat)
    requires j < |gs|
    ensures Expand(gs[..j + 1]) == Expand(gs[..j]) + ExpandGroup(gs[j])
    ensures Width(gs[..j + 1]) == Width(gs[..j]) + |ExpandGroup(gs[j])|
  {
    assert gs[..j + 1] == gs[..j] + [gs[j]];
    ExpandAppend(gs[..j], [gs[j]]);
    assert Expand([gs[j]]) == ExpandGroup(gs[j]) + Expand([]);
  }

  /** A prefix of the groups never covers more cells than all of them. */
  lemma WidthPrefix(gs: seq<Group>, j: nat)
    requires j <= |gs|
    ensures Width(gs[..j]) <= Width(gs)
  {
    assert gs == gs[..j] + gs[j..];
    ExpandAppend(gs[..j], gs[j..]);
  }

  // ---------------------------------------------------------------------------
  // Text helpers: `str::split`, `str::split_whitespace` and `join`

  /** `slice.join(sep)`: the parts with one separator between consecutive parts. */
  function Join(parts: seq<string>, sep: char): string {
    if |parts| == 0 then ""
    else if |parts| == 1 then parts[0]
    else parts[0] + [sep] + Join(parts[1..], sep)
  }

  /** `str::split(sep)`: the maximal separator-free pieces, empty ones included; never empty. */
  function Split(s: string, sep: char): (parts: seq<string>)
    ensures |parts| >= 1
    ensures Join(parts, sep) == s
    ensures forall i :: 0 <= i < |parts| ==> sep !in parts[i]
    decreases |s|
  {
    if s == [] then [""]
    else
      var rest := Split(s[1..], sep);
      if s[0] == sep then
        var parts := [""] + rest;
        assert parts[1..] == rest;
        parts
      else
        var parts := [[s[0]] + rest[0]] + rest[1..];
        assert |rest| > 1 ==> rest[1..][1..] == rest[2..];
        assert |rest| > 1 ==> Join(rest, sep) == rest[0] + [sep] + Join(rest[1..], sep);
        assert s == [s[0]] + s[1..];
        parts
  }

  lemma {:induction false} SplitPrefix(p: string, t: string, sep: char)
    requires sep !in p
    ensures Split(p + t, sep) == [p + Split(t, sep)[0]] + Split(t, sep)[1..]
    decreases |p|
  {
    var st := Split(t, sep);
    if p == [] {
      assert p + t == t;
      assert p + st[0] == st[0];
      assert st == [st[0]] + st[1..];
    } else {
      assert (p + t)[1..] == p[1..] + t;
      assert (p + t)[0] == p[0];
      SplitPrefix(p[1..], t, sep);
      var rest := Split(p[1..] + t, sep);
      assert rest[0] == p[1..] + st[0];
      assert rest[1..] == st[1..];
      assert [p[0]] + (p[1..] + st[0]) == p + st[0];
    }
  }

  /** Splitting a join whose parts hold no separator gives the parts back. */
  lemma {:induction false} SplitJoin(parts: seq<string>, sep: char)
    requires |parts| >= 1
    requires forall i :: 0 <= i < |parts| ==> sep !in parts[i]
    ensures Split(Join(parts, sep), sep) == parts
    decreases |parts|
  {
    SplitPrefix(parts[0], if |parts| == 1 then "" else [sep] + Join(parts[1..], sep), sep);
    if |parts| == 1 {
      assert parts[0] + "" == parts[0];
    } else {
      SplitJoin(parts[1..], sep);
      var t := [sep] + Join(parts[1..], sep);
      assert t[1..] == Join(parts[1..], sep);
      assert Split(t, sep) == [""] + parts[1..];
      assert Split(t, sep)[0] == "" && Split(t, sep)[1..] == parts[1..];
      assert parts[0] + "" == parts[0];
      assert parts == [parts[0]] + parts[1..];
      assert parts[0] + [sep] + Join(parts[1..], sep) == parts[0] + t;
    }
  }

  /** `char::is_whitespace`: the characters with the Unicode White_Space property. */
  predicate IsWhitespace(c: char) {
    var n := c as int;
    (0x09 <= n <= 0x0D) || n == 0x20 || n == 0x85 || n == 0xA0 || n == 0x1680 ||
    (0x2000 <= n <= 0x200A) || n == 0x2028 || n == 0x2029 || n == 0x202F ||
    n == 0x205F || n == 0x3000
  }

  /** The length of the leading run of non-whitespace characters. */
  function WordLength(s: string): (n: nat)
    ensures n <= |s|
    ensures forall i :: 0 <= i < n ==> !IsWhitespace(s[i])
    ensures n < |s| ==> IsWhitespace(s[n])
  {
    if s == [] || IsWhitespace(s[0]) then 0 else 1 + WordLength(s[1..])
  }

  ghost predicate IsWord(w: string) {
    |w| > 0 && forall i :: 0 <= i < |w| ==> !IsWhitespace(w[i])
  }

  /** `str::split_whitespace`: the maximal non-empty runs of non-whitespace characters. */
  function SplitWhitespace(s: string): (words: seq<string>)
    ensures forall i :: 0 <= i < |words| ==> IsWord(words[i])
    decreases |s|
  {
    if s == [] then []
    else if IsWhitespace(s[0]) then SplitWhitespace(s[1..])
    else
      var n := WordLength(s);
      [s[..n]] + SplitWhitespace(s[n..])
  }

  lemma SplitWhitespaceWord(w: string, rest: string)
    requires IsWord(w)
    requires rest == [] || IsWhitespace(rest[0])
    ensures SplitWhitespace(w + rest) == [w] + SplitWhitespace(rest)
  {
    var s := w + rest;
    assert !IsWhitespace(s[0]);
    assert forall i :: 0 <= i < |w| ==> s[i] == w[i];
    assert |w| < |s| ==> s[|w|] == rest[0];
    assert WordLength(s) == |w|;
    assert s[..|w|] == w;
    assert s[|w|..] == rest;
  }

  /** Every whitespace character of `s` replaced by a space. */
  function Blank(s: string): (t: string)
    ensures |t| == |s|
    ensures forall i :: 0 <= i < |s| ==> t[i] == (if IsWhitespace(s[i]) then ' ' else s[i])
  {
    seq(|s|, i requires 0 <= i < |s| => if IsWhitespace(s[i]) then ' ' else s[i])
  }

  /** The non-empty parts, in order. */
  function NonEmpty(parts: seq<string>): (r: seq<string>)
    ensures forall i :: 0 <= i < |r| ==> r[i] != ""
  {
    if parts == [] then []
    else (if parts[0] == "" then [] else [parts[0]]) + NonEmpty(parts[1..])
  }

  /**
   * The words of `s` are its pieces between whitespace characters, with the
   * empty pieces dropped: splitting at every whitespace character and
   * filtering out the empty strings, which is how the Rust standard library
   * defines `str::split_whitespace`.
   */
  lemma {:induction false} SplitWhitespaceRuns(s: string)
    ensures SplitWhitespace(s) == NonEmpty(Split(Blank(s), ' '))
    decreases |s|
  {
    var t := Blank(s);
    if s == [] {
      assert t == "";
    } else if IsWhitespace(s[0]) {
      SplitWhitespaceRuns(s[1..]);
      assert t[0] == ' ' && t[1..] == Blank(s[1..]);
      var parts := Split(t, ' ');
      assert parts == [""] + Split(Blank(s[1..]), ' ');
      assert parts[1..] == Split(Blank(s[1..]), ' ');
    } else {
      var n := WordLength(s);
      var w, rest := s[..n], s[n..];
      SplitWhitespaceRuns(rest);
      assert IsWhitespace(' ');
      assert t == w + Blank(rest);
      SplitPrefix(w, Blank(rest), ' ');
      var st := Split(Blank(rest), ' ');
      assert st[0] == "" by {
        if rest != [] {
          assert Blank(rest)[0] == ' ';
        }
      }
      assert w + st[0] == w;
      var parts := [w] + st[1..];
      assert Split(t, ' ') == parts;
      assert parts[1..] == st[1..];
      assert st == [st[0]] + st[1..];
    }
  }

  /** Two words separated by one space split back into the two words. */
  lemma SplitWhitespacePair(a: string, b: string)
    requires IsWord(a) && IsWord(b)
    ensures SplitWhitespace(a + " " + b) == [a, b]
  {
    SplitWhitespaceWord(a, " " + b);
    assert a + " " + b == a + (" " + b);
    assert (" " + b)[1..] == b;
    SplitWhitespaceWord(b, "");
    assert b + "" == b;
  }

  // ---------------------------------------------------------------------------
  // Board codec

  /** `Board::as_hnfen`: the eleven rank texts joined by `/`, a space, and the side to move. */
  function EncodeBoard(b: Board): string {
    Join(RankTexts(b.ranks), RANK_SEP) + " " + PlayerToken(b.next)
  }

  /** The encoding of each rank, in order. */
  function RankTexts(ranks: seq<Rank>): (texts: seq<string>)
    ensures |texts| == |ranks|
    ensures forall i :: 0 <= i < |ranks| ==> texts[i] == EncodeRank(ranks[i])
  {
    if ranks == [] then [] else [EncodeRank(ranks[0])] + RankTexts(ranks[1..])
  }

  /** Decodes every text as a rank; fails as soon as one of them does. */
  function DecodeRanks(texts: seq<string>): (r: Option<seq<Rank>>)
    ensures r.Some? <==> forall i :: 0 <= i < |texts| ==> DecodeRank(texts[i]).Some?
    ensures r.Some? ==> |r.value| == |texts| &&
                        forall i :: 0 <= i < |texts| ==> DecodeRank(texts[i]) == Some(r.value[i])
  {
    if texts == [] then Some([])
    else
      match DecodeRank(texts[0])
      case None => None
      case Some(first) =>
        match DecodeRanks(texts[1..])
        case None => None
        case Some(rest) => Some([first] + rest)
  }

  /**
   * `Board::from_hnfen`: the first whitespace-separated field holds the ranks
   * separated by `/` (exactly eleven, each a valid rank); the second field, if
   * any, is the side to move, Black when it is absent; further fields are ignored.
   */
  function DecodeBoard(s: string): (r: Option<Board>)
    ensures r.Some? ==>
      var fields := SplitWhitespace(s);
      |fields| >= 1 &&
      var texts := Split(fields[0], RANK_SEP);
      |texts| == 11 &&
      (forall i :: 0 <= i < 11 ==> DecodeRank(texts[i]) == Some(r.value.ranks[i])) &&
      (if |fields| == 1 then r.value.next == Black else DecodePlayer(fields[1]) == Some(r.value.next))
    ensures
      var fields := SplitWhitespace(s);
      (|fields| >= 1 &&
       |Split(fields[0], RANK_SEP)| == 11 &&
       (forall i :: 0 <= i < 11 ==> DecodeRank(Split(fields[0], RANK_SEP)[i]).Some?) &&
       (|fields| == 1 || DecodePlayer(fields[1]).Some?))
      ==> r.Some?
  {
    var fields := SplitWhitespace(s);
    if |fields| == 0 then None
    else
      match DecodeRanks(Split(fields[0], RANK_SEP))
      case None => None
      case Some(ranks) =>
        if |ranks| != 11 then None
        else
          var next := if |fields| > 1 then DecodePlayer(fields[1]) else Some(Black);
          if next.None? then None else Some(Board(ranks, next.value))
  }

  /** Decoding fails when the first field does not split into exactly eleven ranks. */
  lemma DecodeBoardRankCount(s: string)
    requires |SplitWhitespace(s)| >= 1
    requires |Split(SplitWhitespace(s)[0], RANK_SEP)| != 11
    ensures DecodeBoard(s) == None
  {
  }

  /** Every character of a rank's encoding is a digit or a piece token, and there is at least one. */
  lemma EncodeRankChars(r: Rank)
    ensures |EncodeRank(r)| > 0
    ensures forall i :: 0 <= i < |EncodeRank(r)| ==> IsRankChar(EncodeRank(r)[i])
  {
    RenderChars(Groups(r.fields));
    assert Groups(r.fields) != [];
    assert Render(Groups(r.fields)) == RenderGroup(Groups(r.fields)[0]) + Render(Groups(r.fields)[1..]);
  }

  lemma {:induction false} RenderChars(gs: seq<Group>)
    ensures forall i :: 0 <= i < |Render(gs)| ==> IsRankChar(Render(gs)[i])
    decreases |gs|
  {
    if gs != [] {
      RenderChars(gs[1..]);
      var head := RenderGroup(gs[0]);
      assert forall i :: 0 <= i < |head| ==> IsRankChar(head[i]);
    }
  }

  lemma {:induction false} JoinChars(parts: seq<string>, sep: char)
    requires forall i :: 0 <= i < |parts| ==> forall j :: 0 <= j < |parts[i]| ==> IsRankChar(parts[i][j])
    ensures forall j :: 0 <= j < |Join(parts, sep)| ==> IsRankChar(Join(parts, sep)[j]) || Join(parts, sep)[j] == sep
    decreases |parts|
  {
    if |parts| > 1 {
      JoinChars(parts[1..], sep);
      var s := Join(parts, sep);
      assert s == parts[0] + [sep] + Join(parts[1..], sep);
      forall j | 0 <= j < |s| ensures IsRankChar(s[j]) || s[j] == sep {
        if j < |parts[0]| {
          assert s[j] == parts[0][j];
        } else if j > |parts[0]| {
          assert s[j] == Join(parts[1..], sep)[j - |parts[0]| - 1];
        }
      }
    }
  }

  /** The rank texts of a board: each is a non-empty run of digits and piece tokens. */
  lemma RankTextsChars(ranks: seq<Rank>)
    ensures forall i :: 0 <= i < |ranks| ==> |RankTexts(ranks)[i]| > 0
    ensures forall i :: 0 <= i < |ranks| ==>
      forall j :: 0 <= j < |RankTexts(ranks)[i]| ==> IsRankChar(RankTexts(ranks)[i][j])
  {
    forall i | 0 <= i < |ranks|
      ensures |RankTexts(ranks)[i]| > 0
      ensures forall j :: 0 <= j < |RankTexts(ranks)[i]| ==> IsRankChar(RankTexts(ranks)[i][j])
    {
      EncodeRankChars(ranks[i]);
    }
  }

  /** The joined rank texts of a board are one whitespace-free word, which splits at `/` into the rank texts. */
  lemma JoinedRanks(ranks: Ranks)
    ensures IsWord(Join(RankTexts(ranks), RANK_SEP))
    ensures Split(Join(RankTexts(ranks), RANK_SEP), RANK_SEP) == RankTexts(ranks)
  {
    JoinedRanksWord(ranks);
    var texts := RankTexts(ranks);
    RankTextsChars(ranks);
    forall i | 0 <= i < |texts| ensures RANK_SEP !in texts[i] {
      assert forall j :: 0 <= j < |texts[i]| ==> texts[i][j] != RANK_SEP;
    }
    SplitJoin(texts, RANK_SEP);
  }

  lemma JoinedRanksWord(ranks: Ranks)
    ensures IsWord(Join(RankTexts(ranks), RANK_SEP))
  {
    var texts := RankTexts(ranks);
    RankTextsChars(ranks);
    JoinChars(texts, RANK_SEP);
    var joined := Join(texts, RANK_SEP);
    assert joined == texts[0] + [RANK_SEP] + Join(texts[1..], RANK_SEP);
    assert |joined| > 0;
  }

  /** A board's text splits into the joined ranks and the side token, and the joined ranks split into the rank texts. */
  lemma BoardTextFields(b: Board)
    ensures SplitWhitespace(EncodeBoard(b)) == [Join(RankTexts(b.ranks), RANK_SEP), PlayerToken(b.next)]
    ensures Split(Join(RankTexts(b.ranks), RANK_SEP), RANK_SEP) == RankTexts(b.ranks)
  {
    JoinedRanks(b.ranks);
    SplitWhitespacePair(Join(RankTexts(b.ranks), RANK_SEP), PlayerToken(b.next));
  }

  /** The rank texts of any ranks decode back to those ranks. */
  lemma DecodeRankTexts(ranks: seq<Rank>)
    ensures DecodeRanks(RankTexts(ranks)) == Some(ranks)
  {
    var texts := RankTexts(ranks);
    forall i | 0 <= i < |ranks| ensures DecodeRank(texts[i]) == Some(ranks[i]) {
      RankRoundTrip(ranks[i]);
    }
    var r := DecodeRanks(texts);
    assert r.Some?;
    assert forall i :: 0 <= i < |ranks| ==> Some(r.value[i]) == Some(ranks[i]);
    assert r.value == ranks;
  }

  /** Every board survives encoding then decoding. */
  lemma BoardRoundTrip(b: Board)
    ensures DecodeBoard(EncodeBoard(b)) == Some(b)
  {
    BoardTextFields(b);
    DecodeRankTexts(b.ranks);
    PlayerRoundTrip(b.next);
  }

  /** Without a side token, the text of the ranks alone decodes to the board with Black to move. */
  lemma DecodeBoardDefaultSide(ranks: Ranks)
    ensures DecodeBoard(Join(RankTexts(ranks), RANK_SEP)) == Some(Board(ranks, Black))
  {
    var joined := Join(RankTexts(ranks), RANK_SEP);
    JoinedRanks(ranks);
    SplitWhitespaceWord(joined, []);
    assert joined + [] == joined;
    DecodeRankTexts(ranks);
  }
}
