# HNFEN: Hnefatafl board notation and sliding moves

A model of the `hnfen` Rust crate, which handles 11x11 Hnefatafl positions.
The model covers two parts of the crate.

The first part is the HNFEN text notation:

- players and pieces are one-letter tokens: `a` is Black, `h` is White, `K` is the king;
- a rank of eleven cells is written with runs of empty cells as decimal counts, e.g. `a4h4K`;
- a board is its eleven ranks joined by `/`, then a space and the side to move;
- a move is two positions, each a column letter and a rank number, e.g. `a11b1`.

The second part is `possible_moves`. It lists every move of the side to move.
Each piece slides in the four directions until it meets the edge, a piece or a
forbidden square. Only the king may stop on the four corners or on the centre
(5, 5). Other pieces may pass over the centre without stopping there.

Files:

- `wrappers.dfy`: `Option`.
- `decimal.dfy`: ASCII decimal digits and the decimal text of a natural number.
- `seqs.dfy`: sequence lemmas and `Flatten`.
- `types.dfy` (module `Types`): the notation of players, pieces, ranks and boards.
- `moves.dfy` (module `Moves`): positions, the notation of moves, directions and the move generator.
- `examples.dfy` (module `Examples`): the crate's own test cases, stated and proved as lemmas.

The two loops of `Rank::as_hnfen` and `Rank::from_hnfen` are methods.
So is the loop nest of `possible_moves`.
Each method is proved equal to a function: `EncodeRank`, `Lex`, `DecodeRank`, `MovesOf` or `Scan`.
The properties are then proved about those functions.
Code that panics is modelled as returning `None`: an unknown token, an overfull or short rank, a wrong rank count, or a move text that does not match the pattern.

## Model

| member | source | states |
|---|---|---|
| Types.DecodePlayer | src/types.rs:47-53 | Decoding succeeds exactly on `a` and `h`, and the decoded player's token is the input; any other text fails where `Player::from_hnfen` panics |
| Types.PlayerToken | src/types.rs:39-45 | Computes a player's token, `a` or `h`; `DecodePlayer` and `PlayerRoundTrip` state that it is decoded back |
| Types.PlayerRoundTrip | src/types.rs:38-54 | Decoding a player's token gives the player back |
| Types.DecodePiece | src/types.rs:66-73 | Decoding succeeds exactly on `a`, `h` and `K`, and the decoded piece's token is the input; any other text fails where `Piece::from_hnfen` panics |
| Types.PieceToken | src/types.rs:57-64 | Computes a piece's token, `a`, `h` or `K`; `DecodePiece` and `PieceRoundTrip` state that it is decoded back |
| Types.PieceRoundTrip | src/types.rs:56-74 | Decoding a piece's token gives the piece back |
| Types.EncodeRank | src/types.rs:76-95 | The value form of `Rank::as_hnfen`: the rendering of the rank's run-length groups; `RankAsHnfen` is proved equal to it, and `GroupsExpandBack`, `GroupsCanonical`, `EncodeRankTokens` and `RankRoundTrip` state its properties |
| Types.RankAsHnfen | src/types.rs:76-95 | The loop that counts empty cells and flushes the count before each piece and at the end builds exactly `EncodeRank(rank)`, the rendering of the rank's run-length groups |
| Types.GroupsExpandBack | src/types.rs:78-93 | The groups written for a rank expand back to its cells, so the encoding loses nothing |
| Types.GroupsCanonical | src/types.rs:78-93 | The groups written are canonical: no zero counts and no two counts side by side; the first group is a piece exactly when the first cell holds one |
| Types.EncodeRankTokens | src/types.rs:76-95 | Lexing a rank's text gives back its groups, and they cover eleven cells |
| Types.LexRank | src/types.rs:106-119 | The character loop that extends the last count with each digit or pushes a piece builds exactly `Lex(hnfen)` |
| Types.LexFails | src/types.rs:108-119 | Lexing fails exactly when some character is neither a digit nor a piece letter |
| Types.LexDigits | src/types.rs:110-116 | A run of digits after a piece or at the start becomes one count whose value is the run read in decimal |
| Types.LexRender | src/types.rs:108-119 | Groups with no two counts side by side lex back from their rendering |
| Types.GroupsExpand | src/types.rs:121-132 | Filling cells from canonical groups and regrouping the cells gives the groups back |
| Types.DecodeRank | src/types.rs:97-139 | The value form of `Rank::from_hnfen`: lex the text, fill the cells from the groups, and fail on a piece past the last cell or a width other than 11; `RankFromHnfen` is proved equal to it, and `RankRoundTrip`, `CanonicalRoundTrip` and `LexFails` state its properties |
| Types.RankFromHnfen | src/types.rs:97-139 | The method (lex, place each piece after the counted empty cells, insist on exactly eleven cells) returns exactly `DecodeRank(hnfen)`; a piece past the eleventh cell or a total width other than 11 fails |
| Types.RankRoundTrip | src/types.rs:76-139 | Decoding a rank's text gives the rank back |
| Types.CanonicalRoundTrip | src/types.rs:76-139 | A canonical group sequence of width 11 decodes to its expansion, and that rank encodes back to the same text |
| Types.Split | src/types.rs:167-168 | `split('/')` yields at least one part, the parts joined by `/` give the input back, and no part holds `/` |
| Types.SplitJoin | src/types.rs:157-168 | Splitting the joined texts of `/`-free parts gives the parts back |
| Types.SplitWhitespace | src/types.rs:165 | Every field produced by `split_whitespace` is non-empty and holds no whitespace |
| Types.SplitWhitespaceRuns | src/types.rs:165 | The fields are exactly the pieces of the text between whitespace characters, in order, with the empty pieces dropped: `split` at every whitespace character followed by a filter of the empty strings |
| Types.SplitWhitespacePair | src/types.rs:159-165 | Two words separated by one space split into exactly those two words |
| Types.RankTexts | src/types.rs:152-156 | The rank texts are the encodings of the ranks, one per rank |
| Types.DecodeRanks | src/types.rs:167-170 | Decoding the rank texts succeeds exactly when every text decodes, and then gives each text's rank in order |
| Types.DecodeBoard | src/types.rs:164-179 | Decoding succeeds exactly when the first whitespace field splits on `/` into eleven texts that each decode as a rank, and the second field is absent or a player token; the board's ranks are those texts' ranks, and its side is the second field's player, or Black when there is no second field |
| Types.DecodeBoardRankCount | src/types.rs:167-172 | A first field that does not split into eleven ranks fails to decode |
| Types.DecodeBoardDefaultSide | src/types.rs:173-177 | The ranks' text with no side token decodes to those ranks with Black to move |
| Types.JoinedRanks | src/types.rs:151-157 | The joined rank texts form one whitespace-free word, and splitting it on `/` gives the rank texts back |
| Types.EncodeBoard | src/types.rs:148-162 | Computes the joined rank texts, a space and the side's token; `BoardTextFields` and `BoardRoundTrip` state its properties |
| Types.BoardTextFields | src/types.rs:148-162 | A board's text has two whitespace fields, the joined rank texts and the side's token |
| Types.DecodeRankTexts | src/types.rs:167-170 | The texts of any ranks decode to those ranks |
| Types.BoardRoundTrip | src/types.rs:148-179 | Decoding a board's text gives the board back |
| Decimal.Show | src/types.rs:83 | The decimal text of a count is non-empty, all digits and reads back as the count; it has one digit below 10 and two from 10 to 99 |
| Moves.FromIndices | src/moves.rs:20-25 | The position made from indices converts back to the indices cut to a byte; in-range indices give a square on the board |
| Moves.ToIndices | src/moves.rs:28-33 | Computes the column byte minus `a` and 11 minus the rank, both wrapping; `OnBoardIndices` and `PositionRoundTrip` state its properties |
| Moves.PositionRoundTrip | src/moves.rs:19-33 | Converting a position with a one-byte column to indices and back gives the same position |
| Moves.OnBoardIndices | src/moves.rs:19-33 | A square on the board has in-board indices and is rebuilt from them |
| Moves.PositionTextParts | src/moves.rs:13-17 | A position's text is its column letter followed by at least one decimal digit, with no leading zero, that reads back as its rank |
| Moves.EncodeMove | src/moves.rs:48-51 | Computes the origin's text followed by the destination's; `MoveRoundTrip` states that it parses back |
| Moves.ParseMove | src/moves.rs:53-65 | The value form of `Move::from_hnfen`, with `None` where `Move::from_hnfen` panics or returns `None`; `ParseMoveMatches`, `PatternParses` and `MoveRoundTrip` state its properties |
| Moves.ParseMoveMatches | src/moves.rs:53-65 | Parsing succeeds exactly on texts matching `[a-k][0-9]{1,2}[a-k][0-9]{1,2}`, and the move's columns and ranks are the matched letters and numbers |
| Moves.PatternParses | src/moves.rs:53-65 | A text of that shape, split after any one or two digits, parses to the move read from that split |
| Moves.MoveRoundTrip | src/moves.rs:48-65 | Parsing a move's text gives the move back, for board columns and ranks below 100 |
| Moves.Direction.Vector | src/moves.rs:78-86 | Each direction's vector moves along one axis only, by exactly the given length |
| Moves.Card | src/moves.rs:88-95 | There are four distinct cardinal directions |
| Moves.CardComplete | src/moves.rs:88-95 | Every direction is among them |
| Moves.IsCorner | src/moves.rs:98-100 | The four corner squares; `CornersAndCastles` states the set |
| Moves.IsCastle | src/moves.rs:102-104 | The corners and the centre; `CornersAndCastles` states the set |
| Moves.InBoard | src/moves.rs:106-108 | Both indices in `0..11`; `OnBoardIndices` ties it to positions |
| Moves.CornersAndCastles | src/moves.rs:98-108 | The corners are exactly the four corner squares; the castles are those plus the centre (5, 5); every castle is on the board |
| Moves.Get | src/moves.rs:117-139 | The content of the square at the position's indices, as `board.get` is used at its two call sites; `GetAt` states it for index pairs |
| Moves.Pieces | src/moves.rs:113 | Every listed position of a side's pieces is on the board |
| Moves.PiecesMembers | src/moves.rs:113 | A position is listed exactly when it is on the board and holds a piece of that side (the king counts for White) |
| Moves.ScanDirection | src/moves.rs:119-149 | The loop over lengths 1 to 10 in one direction returns exactly `Scan`: it stops at the edge, at a corner for a non-king, or at a piece, and it skips the centre for a non-king |
| Moves.ScanStep | src/moves.rs:120-147 | One step of a scan, case by case: off the board, a corner for a non-king, the centre for a non-king, and an occupied or empty square |
| Moves.Scan | src/moves.rs:119-149 | The moves of one direction from length `length` on; `ScanDirection` is proved equal to it, and `ScanStep`, `ScanMembers` and `SlideLands` state its properties |
| Moves.ScanMembers | src/moves.rs:119-149 | A move is in a scan exactly when it starts at the piece and reaches a landing square along that direction's line |
| Moves.MovesFromMembers | src/moves.rs:114-150 | The moves of one piece are exactly those that start there and slide in some direction to some landing square |
| Moves.SlideLands | src/moves.rs:119-149 | A slide ends on an empty board square in the same rank or column, 1 to 10 squares away along the direction; a non-king never ends on a castle |
| Moves.SlidePath | src/moves.rs:127-144 | Every square strictly between the start and the end of a slide is on the board and empty, except that a non-king may pass over the centre |
| Moves.MovesOf | src/moves.rs:110-152 | The scans of every piece of the side to move, concatenated; `PossibleMoves` is proved equal to it, and `MovesOfMembers`, `GeneratedMove` and `GeneratedPath` state its properties |
| Moves.MovesOfMembers | src/moves.rs:110-152 | A move is generated exactly when its origin holds a piece of the side to move and it slides from there to its destination |
| Moves.GeneratedMove | src/moves.rs:110-152 | Every generated move starts on a piece of the side to move and ends on an empty square in the same rank or column, 1 to 10 squares away; a non-king never ends on a castle |
| Moves.GeneratedPath | src/moves.rs:110-152 | Every square a generated move passes over is empty, or it is the centre and the mover is not the king |
| Moves.PossibleMoves | src/moves.rs:110-152 | The loop nest returns exactly `MovesOf(board)`: the scans of every own piece, in row-major piece order and direction order |
| Examples.CornerTexts | src/moves.rs:190-199 | The corner indices print as `a11`, `k11`, `k1` and `a1` and convert back to their indices |
| Examples.MoveText | src/moves.rs:160-187 | The move from `a11` to `b1` prints as `a11b1` and parses back |
| Examples.MoveTextRejected | src/moves.rs:53-55 | Texts outside the move pattern fail to parse: a missing rank, a column past `k`, three digits, the empty text |
| Examples.EmptyRankText | src/types.rs:188-190 | An empty rank encodes as `11` |
| Examples.KingLastText | src/types.rs:191-192 | A king in the last cell gives `10K` |
| Examples.BlackFirstText | src/types.rs:193-194 | Adding a black piece in the first cell gives `a9K` |
| Examples.WhiteMiddleText | src/types.rs:195-196 | Adding a white piece in the middle gives `a4h4K` |
| Examples.KingFirstText | src/types.rs:201-210 | `K10` decodes and encodes back to itself |
| Examples.LeadingZerosRank | src/types.rs:213 | `00011` decodes, and its rank encodes as `11` |
| Examples.ZeroCountsRank | src/types.rs:214 | `0a09a0` decodes, and its rank encodes as `a9a` |
| Examples.WrongWidthRanks | src/types.rs:134-136 | `10` and `12` fail to decode: they are not eleven cells wide |
| Examples.BadRanks | src/types.rs:117-136 | `a11` (twelve cells) and `10x` (an unknown letter) fail to decode |
| Examples.OverfullRank | src/types.rs:127-129 | `11a`, whose piece falls after the eleventh cell, fails to decode where the write indexes out of bounds |
| Examples.StartRanks | src/types.rs:201-210 | Each rank text of the starting position decodes, and its rank encodes back to it |
| Examples.DefaultStartRoundTrip | src/types.rs:218-223 | The starting string decodes with Black to move, and the board encodes back to the same string |
| Examples.BoardOfGroups | src/types.rs:148-179 | Ranks given by canonical groups and a side decode from, and encode to, the joined rank texts and side token |
| Examples.BoardTextNoSide | src/types.rs:173-177 | A board with Black to move decodes from its joined rank texts alone |
| Examples.EmptyBoardMoves | src/moves.rs:211-212 | An empty board has no pieces and no moves, whichever side is to move |
| Examples.EmptyBoardCount | src/moves.rs:211-212 | The text of the empty board decodes, and the decoded board has no moves |
| Examples.CornerPieceMoves | src/moves.rs:214-218 | A lone normal piece on the corner `a11` has 18 moves: 9 along its rank and 9 along its column, with the far corners `k11` and `a1` excluded |
| Examples.CornerBoardCounts | src/moves.rs:214-218 | `h10/11/…/11 h` and `a10/11/…/11` decode, and each gives 18 moves |
| Examples.StackedPieceMoves | src/moves.rs:220-224 | A piece between two enemy pieces on the left edge of the middle rank has 9 moves: the centre is skipped |
| Examples.StackBoardCounts | src/moves.rs:220-224 | `11/11/11/11/h10/a10/h10/11/11/11/11` and its colour swap with `h` to move decode, and each gives 9 moves |
| Examples.StackedKingMoves | src/moves.rs:226-227 | The king in the same place has 10 moves, including the move onto the centre |
| Examples.KingBoardCount | src/moves.rs:226-227 | `11/11/11/11/a10/K10/a10/11/11/11/11 h` decodes, and gives 10 moves, among them the one to the centre |
| Examples.KingOnCentre | src/moves.rs:127-135 | Whatever stands beside it, the king may stop on the centre |
| Examples.ScanBlocked | src/moves.rs:140-143 | A scan whose first square is occupied and allowed for the mover yields nothing |

## Left out

- `Board::get` and `Board::pieces`, which `possible_moves` calls, and `Board::default`, which the move-count test calls, are defined outside the modelled files. `Get` and `Pieces` are modelled from their call sites. `Get` reads `ranks[y].fields[x]`. `Pieces` lists the squares of a side in row-major order, with the king counted as White's. The default board is modelled only through its text, `src/lib.rs:5-6`.
- Examples.DefaultStartRoundTrip: the move counts of the starting position, 116 for Black and 60 for White (`src/moves.rs:201-209`), are not proved. Evaluating the generator over 121 squares and 37 pieces is beyond what the verifier can do at this size.
- Examples.DefaultStartRoundTrip: the starting string is written as its rank texts joined by `/`, and the king's rank text is written in two halves around the `K`. The characters are those of `src/lib.rs:5-6`.
- Panics are modelled as `None`. This covers `panic!` on an unknown token, the out-of-bounds write when a rank overfills, the `try_into().unwrap()` on a wrong rank count, and the `unwrap()` of a failed regex match. The tests call `.unwrap()` on the result of `Board::from_hnfen`; the model reads that as the decoding having succeeded.
- Types.LexFails: `char::is_numeric` accepts non-ASCII numerals, and `to_digit(10).unwrap()` then panics. The model treats any non-ASCII character as an error, which gives the same outcome.
- Types.RankFromHnfen: counts and the cell cursor are unbounded naturals, so `usize` wrap-around is not modelled. A debug build panics on that overflow, and the model's `None` agrees with it. A release build wraps instead, in `*c * 10 + d` (`src/types.rs:112`) and in `c_index += k` (`src/types.rs:125`). So a text such as `18446744073709551627` (2^64 + 11) decodes there as an empty rank, while `DecodeRank` rejects it. `Moves.FromIndices` follows the release build, so the two parts of the model differ on this point.
- Moves.FromIndices: the `u8` casts and the `u8` arithmetic wrap, as in a release build; a debug build's overflow panic is not modelled.
- Moves.ParseMoveMatches: the regular expression is replaced by a direct matcher for the same pattern. `\d` is Unicode-aware in the `regex` crate, but a non-ASCII digit then fails `parse::<u8>()`, so both give `None`.
- Moves.MoveRoundTrip: holds only for ranks below 100, because the pattern allows at most two digits. A `Position` with a wider rank prints a text that does not parse.
- `Display for Position` and `Display for Move` are modelled as string concatenation (`PositionText`, `EncodeMove`); the formatter machinery is not modelled.
- Serde derives, `Debug`, `Clone`, `Hash` and the `Hnfen` trait itself are not modelled.
- Types.SplitWhitespace: whitespace is the Unicode White_Space set that `str::split_whitespace` uses. `split_ascii_whitespace`, used in one test, agrees with it on the crate's strings.
