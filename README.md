# Chess analyzer core in Dafny

A verified model of the core of a browser chess-analysis extension. It covers three parts:

- **The position engine of `lib/chess.js`.** This is Forsyth–Edwards (FEN) decoding and encoding, as in section 16.1 of the PGN Standard:
  - square addressing;
  - the square–piece binding;
  - the pseudo-legal destinations of each piece kind, and the absolute-pin scan;
  - the short-notation (SAN, section 8.2.3 of the PGN Standard) move reader;
  - the mutating `Board.move`.
- **The UCI message `Parser` of `lib/engine.js`.**
- **The option list of `lib/storage.js`.**

The model follows the JavaScript as written, quirks included:

- The pawn's unconditional first push.
- The castling scan that starts on the king's own square, so castling is never listed.
- The pin scan that keeps going after a pin.
- A leading lower-case letter read as a piece.
- `king.file` being undefined, so every rook move clears only the queen-side right.
- Promoted pieces never joining `_pieces`.
- The lenient decoder.

Each thrown JavaScript error is an `Outcome` failure. Where the source mutates the board before it throws, the failure carries the partially mutated state.

Layout (one module per file):

- `util.dfy` (`Util`): JavaScript string semantics the source relies on: `substring`, `split`, `join`, `indexOf`, `replaceAll`, `parseInt`, `toLowerCase`/`toUpperCase` on ASCII, and `Option`/`Outcome`.
- `squares.dfy` (`Squares`): `Coordinate`'s `id`/`row`/`column`/`key`, `isValidPosition` and both forms of `getCoordinate`.
- `pieces.dfy` (`Pieces`): sides, kinds, symbols, `isValidPiece` and `Piece.createFromSymbol`.
- `board_state.dfy` (`BoardState`): the whole board as a value `State`.
  - It holds the 64 squares' occupants, the piece arena with back-links and pin links, the `_pieces` prefix, the turn, castling flags, en passant, clocks, move history, the changed flag and the cached placement.
  - It states the binding invariant `Valid` and defines the four `bind`/`unbind` operations on it.
- `move_gen.dfy` (`MoveGen`): `iterateMove` and every piece kind's `availableMoves` as functions, with the ray-to-first-blocker characterisation.
- `pins.dfy` (`Pins`): `setPinningPiece` as a scan over the eight rays, its soundness and completeness, `findKing`, and the pin reset in `move`.
- `notation.dfy` (`Notation`): `Castling` and the `Move` constructor.
- `apply.dfy` (`Apply`): `Board.move` as a function of the state, and its placement and bookkeeping properties.
- `placement.dfy` (`Placement`): reading the placement field (the constructor's row loop) and writing it (`fenstring`'s run-length compression), with the round trip.
- `fen.dfy` (`Fen`): the constructor's field checks, `fenstring`, `fromPieces` and the whole-string round trips.
- `chess.dfy` (`Chess`): the mutable `Board` class.
  - It has a 64-cell `squares` array and the other fields as sequences and values.
  - Each loop of the source is a method here, proved equal to the functions above on `Snapshot()`: `iterateMove`, the slider loops, the castling scans, `setPinningPiece`, the constructor's placement loop, `move` and `fenstring`.
- `engine.dfy` (`Engine`): `parseId`, `parseOption` (a method with its `while` loop), `parseInfo` (a method with its loop over passes) and `parseBestMove`.
- `storage.dfy` (`OptionStore`): the `Storage` class with `getOption`, `getOptions` and `setOption`, and the upsert laws.

## Model

| member | source | states |
|---|---|---|
| Squares.Lookup | lib/chess.js:842-858 | a key is found iff it matches `^[a-h][1-8]$`; the square found has that key; any other key fails with `Invalid position` |
| Squares.At | lib/chess.js:846-851 | `getCoordinate([r, c])` gives a square iff both are in 0..7, and that square has row `r` and column `c` |
| Squares.KeyRoundTrip | lib/chess.js:70-75 | looking up a square's own key (`file + rank`, from `id = 8·(8−rank) + file`) gives the square back |
| Squares.AtRoundTrip | lib/chess.js:80-89 | `getCoordinate([row, column])` of a square is the square itself |
| Squares.KeyInjective | lib/chess.js:73-75 | distinct squares have distinct keys |
| Squares.CreateCoordinates | lib/chess.js:905-909 | the nested loop over `87654321` and `abcdefgh` creates 64 squares, each at the index equal to its id |
| Pieces.Symbol | lib/chess.js:195-201 | a black piece's symbol is lower-case, a white one upper-case, and it is a valid piece letter of its kind |
| Pieces.CreateFromSymbol | lib/chess.js:203-217 | succeeds iff the letter is in `rnbqkpRNBQKP`, with the piece whose symbol is that letter; otherwise fails with `Invalid parameter` |
| Pieces.SymbolRoundTrip | lib/chess.js:195-217 | creating a piece from a piece's symbol gives that piece back |
| Pieces.Opposite | lib/chess.js:235-237 | the opposite side differs from the side |
| BoardState.NextTurn | lib/chess.js:860-862 | `changeTurns` always yields `b` or `w`, and changes the turn unless it was the accepted `bw` |
| BoardState.NextTurnTwice | lib/chess.js:860-862 | two changes restore `b` or `w`; `bw` becomes `b` and then `w` |
| BoardState.BindingInjective | lib/chess.js:101-114 | under the binding invariant no piece is on two squares |
| BoardState.UnbindSquare | lib/chess.js:109-114 | `Coordinate.unbind` empties the square, clears its piece's back-link and keeps the invariant and every other field |
| BoardState.BindSquare | lib/chess.js:101-107 | `Coordinate.bind` unbinds the previous occupant, links square and piece both ways and changes no other link |
| BoardState.UnbindPiece | lib/chess.js:228-232 | `Piece.unbind` clears the piece's position and empties its square, if any |
| BoardState.BindPiece | lib/chess.js:221-226 | `Piece.bind` leaves the piece on the square, with its old square emptied and every other square as before |
| BoardState.ClearRight | lib/chess.js:1029-1031 | clearing one castling flag leaves the other three as they were |
| Chess.Board.Empty | lib/chess.js:779-840 | a new board has 64 empty squares and no pieces |
| Chess.Board.ChangeTurns | lib/chess.js:860-862 | only the turn changes, to `NextTurn` of the old one |
| Chess.Board.UnbindSquare | lib/chess.js:109-114 | the new board state is `BoardState.UnbindSquare` of the old one |
| Chess.Board.BindSquare | lib/chess.js:101-107 | the new board state is `BoardState.BindSquare` of the old one |
| Chess.Board.UnbindPiece | lib/chess.js:228-232 | the new board state is `BoardState.UnbindPiece` of the old one |
| Chess.Board.BindPiece | lib/chess.js:221-226 | the new board state is `BoardState.BindPiece` of the old one |
| Chess.Board.FindKing | lib/chess.js:970-972 | the loop returns the first placed king of the side in `_pieces` order, as `Pins.FindKing` |
| Chess.Board.ResetPins | lib/chess.js:975 | every piece of `_pieces` loses its pin; promoted pieces keep theirs |
| Chess.Board.IterateMove | lib/chess.js:704-724 | an unplaced piece gets nothing; otherwise the moves are the step targets and the array keeps exactly the live directions |
| Chess.Board.StepDirection | lib/chess.js:711-721 | one direction: its hit and whether it stays live; every other array entry is unchanged |
| Chess.Board.SlideAll | lib/chess.js:320-324 | the distance loop with its early break returns `Slide` from distance 1 |
| Chess.Board.SlidingMoves | lib/chess.js:317-375 | the bishop, rook and queen getters equal `MoveGen.SliderMoves` |
| Chess.Board.PinRestrictList | lib/chess.js:304-306 | the pinned-piece filter equals `PinRestrict` |
| Chess.Board.KnightMoves | lib/chess.js:296-309 | the knight getter equals `MoveGen.KnightMoves` |
| Chess.Board.FindRook | lib/chess.js:398-403 | the `find` over `_pieces` for a castling rook equals `FindRookFrom` |
| Chess.Board.ScanPath | lib/chess.js:405-412 | the castling path loop's verdict equals `PathClear` |
| Chess.Board.CastleTarget | lib/chess.js:397-417 | one wing of the king's castling code equals `MoveGen.CastleTarget`, including the failure when no rook exists |
| Chess.Board.KingMoves | lib/chess.js:383-441 | the king getter equals `MoveGen.KingMoves` |
| Chess.Board.SetPinningPiece | lib/chess.js:729-768 | no king throws on `king.position` and an unplaced one on `position.row`, with nothing changed; otherwise only the pin links change, to `ScanKing` |
| Chess.Board.ScanPins | lib/chess.js:736-767 | the distance loop over the eight rays computes `ScanKing` |
| Chess.Board.ScanDistance | lib/chess.js:737-766 | one distance over all rays equals `ScanRays` |
| Chess.Board.ScanRay | lib/chess.js:738-765 | one ray at one distance: the ray's new state is `NextScan` and the pin written is `WritePin` |
| Chess.Board.ComputePins | lib/chess.js:975-977 | reset and both kings' scans equal `Pins.ComputePins`, with the thrown error when a king is missing |
| Chess.Board.PinSide | lib/chess.js:976-977 | one side's scan: fails with the state unchanged iff `PinFor` fails, otherwise matches it |
| Chess.Board.ReadMove | lib/chess.js:596-700 | the `Move` constructor on the board equals `ParseMove` |
| Chess.Board.Relocate | lib/chess.js:980-985 | the captured piece, source and destination updates equal `Apply.Relocate` |
| Chess.Board.AddPromoted | lib/chess.js:688-693 | the promoted piece is created outside `_pieces`, as `AddPiece` |
| Chess.Board.MoveRook | lib/chess.js:987-997 | the castling rook's rebinding equals `Apply.MoveRook`, including the throw when there is no rook |
| Chess.Board.CastlingKing | lib/chess.js:466-471 | the `find` for the mover's king equals `CastlingKingFrom` |
| Chess.Board.UpdateClocks | lib/chess.js:999-1011 | the clock updates and the en-passant reset equal `Clocks` |
| Chess.Board.UpdateFlags | lib/chess.js:1012-1031 | the castling and en-passant updates equal `Flags`, including the throw when a rook moves and no king is found |
| Chess.Board.Complete | lib/chess.js:987-1037 | everything after relocation equals `Apply.Complete` |
| Chess.Board.Record | lib/chess.js:1034-1037 | the turn toggles, the board is marked changed and the move is appended |
| Chess.Board.Move | lib/chess.js:974-1040 | the new board state is `ApplyMove` of the old one; the result is the move read, or the error thrown |
| Chess.Board.Fenstring | lib/chess.js:954-968 | returns `FenOf` of the old state and refreshes the cached placement, as `Refresh` |
| Chess.Board.Register | lib/chess.js:918-924 | a decoded piece is created, bound to its square and pushed to `_pieces`, as `Placement.Register` |
| Chess.Board.ReadChar | lib/chess.js:919-931 | one character of a rank succeeds iff `PlaceChar` does, and places what it lists |
| Chess.Board.ReadRow | lib/chess.js:916-933 | one rank succeeds iff `PlaceRow` does, and places what it lists |
| Chess.Board.ReadRows | lib/chess.js:911-934 | the eight ranks succeed iff `PlaceRows` does, and the board is `Build` of its placements |
| Chess.Board.ReadBoard | lib/chess.js:904-934 | a fresh board from a placement field exists iff `ReadPlacement` accepts it, and equals it |
| Chess.Board.FromFields | lib/chess.js:884-946 | the constructor's checks on six fields fail iff `DecodeFields` fails, with the invalid-fenstring error; otherwise the board equals it |
| Chess.Board.SetFields | lib/chess.js:941-946 | the final assignments set exactly the placement, turn, rights, en passant and clocks |
| Chess.Board.Create | lib/chess.js:868-947 | the constructor fails iff `Decode` fails, with the same error; otherwise the fresh board equals `Decode` |
| Chess.Board.FromPieces | lib/chess.js:949-952 | `fromPieces` fails iff `Fen.FromPieces` fails; otherwise the board equals it |
| MoveGen.StepOne | lib/chess.js:712-721 | a direction yields a square iff it is live, on the board, and empty or enemy-held |
| MoveGen.StepTargets | lib/chess.js:704-724 | `iterateMove` lists exactly the squares that some direction hits at that distance |
| MoveGen.StepAlive | lib/chess.js:711-716 | after one distance of `iterateMove`, a direction is still live iff it was live and its square at that distance is on the board and empty; a live one is kept unchanged |
| MoveGen.SurvivorsStep | lib/chess.js:704-722 | stepping the directions live at distance `i` leaves exactly those whose squares up to and including distance `i` are all on the board and empty |
| MoveGen.SlideFrom | lib/chess.js:320-324 | the loop from distance `i` lists a square iff some direction reaches it at distance `i` or more |
| MoveGen.SlideMembers | lib/chess.js:317-375 | each ray runs to its first blocker: a square is listed iff it is on a ray, every square before it is empty, and it is empty or enemy-held |
| MoveGen.SliderDestinations | lib/chess.js:313-375 | for an unpinned bishop, rook or queen the destinations are exactly those ray squares |
| MoveGen.PinRestrict | lib/chess.js:283-285 | an unpinned piece keeps its moves; a pinned one keeps at most the pinner's square, and only if it was listed |
| MoveGen.PinnedDestinations | lib/chess.js:304-306 | a pinned non-king piece can move only to its pinner's square |
| MoveGen.PawnCapture | lib/chess.js:271-281 | a diagonal is a capture iff it holds an enemy piece or is the en-passant square |
| MoveGen.PawnDestinations | lib/chess.js:250-288 | the first entry is the forward square, listed unconditionally; every capture is listed; an entry past the second is a capture or follows a second forward entry whose square is empty |
| MoveGen.FindRookFrom | lib/chess.js:398-403 | the first rook of the side, placed and on the right side of the king, in `_pieces` order |
| MoveGen.CastleSquare | lib/chess.js:415-416 | the castling destination is on the king's row at column 6 or 2 |
| MoveGen.KingNeverCastles | lib/chess.js:383-441 | the king's moves are exactly its adjacent steps, because each scan starts on the king; they fail iff a set castling flag finds no rook |
| Pins.Views | lib/chess.js:730-740 | the eight rays' squares at each distance, straight or diagonal as in the table |
| Pins.ScanRays | lib/chess.js:737-766 | one distance: every ray from `d` on advances by `NextScan`, the earlier ones are untouched |
| Pins.ScanKing | lib/chess.js:729-768 | the pin links after the scan keep the arena's length; which links it writes is stated by `Pins.PinSound`, `Pins.PinComplete` and `Pins.PinFarthest` |
| Pins.CandidateIsFirst | lib/chess.js:745-747 | an open ray's candidate is the first piece on it, of the king's side |
| Pins.OpenWhileClear | lib/chess.js:738-742 | a ray with only empty squares so far is open, with no candidate |
| Pins.FirstStaysCandidate | lib/chess.js:745-758 | the first friendly piece stays the candidate while the squares after it are passed through |
| Pins.PinSound | lib/chess.js:736-766 | every link the scan changes goes from the first piece on a ray, of the king's side, to an enemy queen, straight rook or diagonal bishop farther along that ray, with every square between empty or holding another such enemy piece |
| Pins.PinComplete | lib/chess.js:736-766 | the first friendly piece on a ray is pinned when an enemy pinner of the ray's kind follows it with every square between empty or holding another such pinner |
| Pins.CandidatePassed | lib/chess.js:736-766 | while the first friendly piece is still the ray's candidate, every square after it was empty or an enemy pinner |
| Pins.PinFarthest | lib/chess.js:736-766 | the candidate's pinner is exactly the farthest enemy pinner the ray reaches, nearer ones being overwritten, when only empty squares follow it up to the board's edge or to a square that stops the ray |
| Pins.ScanKingValid | lib/chess.js:729-768 | the links written keep the board invariant |
| Pins.FindKingFrom | lib/chess.js:970-972 | the first placed king of the side in `_pieces` order, or none |
| Pins.ResetPins | lib/chess.js:975 | the pins of `_pieces` are cleared and promoted pieces keep theirs |
| Pins.PinFor | lib/chess.js:976-977 | one king's scan fails iff there is no king of that side, and changes only pin links |
| Pins.ComputePins | lib/chess.js:975-977 | only pin links change; it succeeds iff both kings exist; a missing black king throws after the reset |
| Notation.CastlingKingFrom | lib/chess.js:466-471 | the first placed king of the side to move, in `_pieces` order |
| Notation.CastlingRookFrom | lib/chess.js:473-484 | the first rook of the mover on its home rank, on the chosen side of the king |
| Notation.FindSourceFirst | lib/chess.js:653-666 | a found source is the first square in id order with a candidate that lists the destination |
| Notation.FindSourceNone | lib/chess.js:653-666 | when none is found, no candidate lists the destination |
| Notation.FindSourceFail | lib/chess.js:653-666 | a failed search failed on some candidate's move list |
| Notation.EnPassantVictim | lib/chess.js:679-684 | the en-passant victim is on the destination's file, rank 4 when black moves and 5 when white does |
| Notation.Source | lib/chess.js:650-676 | a two-letter hint is looked up, a longer one fails, and a shorter one is searched for |
| Notation.Finish | lib/chess.js:672-699 | the move takes the source and destination it was given; it is en passant iff capture-marked onto an empty square by a pawn, and then takes the en-passant victim; otherwise a marked capture takes what is on the destination and an unmarked move nothing; it promotes iff a promotion letter was given |
| Notation.ParseSquares | lib/chess.js:620-699 | a non-castling move read records the notation, the turn and the check marker |
| Notation.ParseCastlingWord | lib/chess.js:606-618 | any word but `O-O` and `O-O-O` fails with `Unable to process notation`; those two castle on the king or queen side, succeeding iff the mover has a placed king, and record the notation, the turn and the check marker |
| Notation.ParseMove | lib/chess.js:596-700 | a move read records the notation and turn, keeps as check state the last character iff it is `+` or `#`, and fits the board |
| Notation.DestinationFromNotation | lib/chess.js:626-628 | the destination is the square named by the last two characters |
| Notation.ExplicitSourceUnchecked | lib/chess.js:650-652 | a two-square move is accepted with that source, whatever is on it |
| Notation.BFileSourceMisread | lib/chess.js:637-666 | `b` followed by a rank is read as a pawn move searched on that rank |
| Notation.LowerCaseLetterDropped | lib/chess.js:637-648 | a leading lower-case piece letter is dropped, leaving the pawn move |
| Notation.CaptureFileDropped | lib/chess.js:630-648 | `bx` and `x` before a square read the same move |
| Notation.SearchedSourceIsFirst | lib/chess.js:653-666 | a piece move takes the first matching piece of the mover that lists the destination |
| Notation.CastlingSpellings | lib/chess.js:601-618 | every notation whose hyphenated word is spelt with `O`, `o` or `0` as `O-O` (`O-O-O`) castles on the king (queen) side with its check marker, and succeeds iff the mover has a placed king |
| Notation.SpelledCastlingWord | lib/chess.js:607-608 | replacing `0` by `O` and upper-casing gives `O-O` (`O-O-O`) iff the word is two (three) letters `O`, `o` or `0` joined by hyphens |
| Notation.HyphenatedRefused | lib/chess.js:606-610 | every other notation with a hyphen before the check marker fails with `Unable to process notation` |
| Notation.CaptureRead | lib/chess.js:629-686 | a non-castling move read is en passant iff an `x` marks a capture onto an empty square by a pawn; it then takes the en-passant victim, a marked capture otherwise what is on the destination, and an unmarked move nothing |
| Notation.CastlingMovesKing | lib/chess.js:612-618 | castling moves the mover's king along its row to column 6 or 2 |
| Apply.Vacate | lib/chess.js:980-984 | the source and the captured square end empty, every other square as before |
| Apply.AddPiece | lib/chess.js:688-693 | the promoted piece joins the arena unplaced; the other pieces keep their squares |
| Apply.Relocate | lib/chess.js:980-985 | the destination holds `promotesTo ?? piece`, every other square is as after vacating, and it throws iff there is no piece to place on a still-occupied destination |
| Apply.RookHome | lib/chess.js:991-994 | the rook's castling square is on row 0 for black and 7 for white, at column 5 or 3 |
| Apply.MoveRook | lib/chess.js:987-997 | it throws with nothing changed iff there is no rook; otherwise the rook stands on its castling square |
| Apply.DoubleStepSquare | lib/chess.js:1020-1026 | a target exists iff the move went from rank 2 to 4 or from 7 to 5; it is on the source file at rank 3 or 6 |
| Apply.Record | lib/chess.js:1034-1037 | the turn toggles, the board is changed and the move is appended |
| Apply.Play | lib/chess.js:979-1039 | applying a read move keeps the invariant, the `_pieces` count and the cached placement, and the old pieces stay a prefix of the arena |
| Apply.ApplyMove | lib/chess.js:974-1040 | `move` keeps the invariant, the `_pieces` count and the cached placement, whether or not it throws |
| Apply.CompletedMoveStages | lib/chess.js:974-978 | a move that throws nothing found both kings and read its notation |
| Apply.MissingKingThrows | lib/chess.js:975-977 | without both kings every move throws, changing only pin links |
| Apply.UnreadableMoveChangesNothing | lib/chess.js:978 | a notation that fails to parse leaves the board with only its pins recomputed |
| Apply.MoveBookkeeping | lib/chess.js:999-1037 | the turn toggles, history grows by the move, fullmove rises only after black, and halfmove is 0 after a capture or pawn move and rises by 1 otherwise |
| Apply.MoveRelocates | lib/chess.js:980-985 | a non-castling move leaves the destination with the moved or promoted piece, and the source and captured squares empty |
| Apply.CastlingPlacesBoth | lib/chess.js:984-997 | castling puts the rook on its square and the king on its destination |
| Apply.FlagsAfterMove | lib/chess.js:1011-1031 | a rook move clears only the queen-side flag and a king move both; en passant is set only by a pawn's double step |
| Placement.EmptyBoard | lib/chess.js:904-909 | the board before decoding has 64 empty squares and no pieces |
| Placement.Blanks | lib/chess.js:926-930 | a blank count is 1 to 8 |
| Placement.BlanksParseInt | lib/chess.js:926-930 | the blank count is `parseInt` of the character when that is 1 to 8 |
| Placement.Register | lib/chess.js:918-924 | a decoded piece joins `_pieces` on its square, the pin list grows by an empty link, nothing else changes |
| Placement.Build | lib/chess.js:916-933 | registering a list of placements adds that many pieces to `_pieces` |
| Placement.ReadPlacement | lib/chess.js:911-934 | a decoded placement is a valid board whose pieces are all in `_pieces` |
| Placement.Cells | lib/chess.js:956 | one character per square, in square order: the symbol or `1` |
| Placement.Chunks | lib/chess.js:956 | `match(/.{8}/g)` cuts the 64 characters into ranks of 8 |
| Placement.ExpandCompress | lib/chess.js:957-959 | the `replaceAll` passes from 8 down to 2 never change what the field spells out square by square |
| Placement.ReplaceAllRows | lib/chess.js:957-959 | a run of `1`s never crosses a `/`, so replacing on the joined field is replacing rank by rank |
| Placement.PlaceExpand | lib/chess.js:916-933 | reading a rank with its digits spelled out as `1`s places the same pieces |
| Placement.PlacementRoundTrip | lib/chess.js:954-962 | reading back the rebuilt placement gives a board with the same occupant on every square |
| Fen.ReadClock | lib/chess.js:935-939 | an accepted clock is not negative |
| Fen.DecodeFields | lib/chess.js:884-946 | every failure is the invalid-fenstring error for the input text |
| Fen.Decode | lib/chess.js:868-947 | a decoded board is consistent, unchanged, with no history, every piece in `_pieces` and no pins; a failure is the invalid-fenstring error for the input or `undefined` |
| Fen.Refresh | lib/chess.js:954-962 | refreshing keeps the invariant, clears the changed flag and changes nothing but the cached placement |
| Fen.BwIncludes | lib/chess.js:888 | `'bw'.includes(t)` holds iff `t` is `b`, `w` or `bw` |
| Fen.TurnAccepted | lib/chess.js:887-890 | a turn field is accepted iff its lower-case form is `b`, `w` or `bw` |
| Fen.TurnRoundTrip | lib/chess.js:887-890 | an accepted turn reads back as itself |
| Fen.SetFlagsMembers | lib/chess.js:964-965 | the castling field lists exactly the set flags, in `KQkq` order |
| Fen.RightsRoundTrip | lib/chess.js:892-896 | the written castling field matches the pattern and reads back as the same four flags |
| Fen.EnPassantRoundTrip | lib/chess.js:898-903 | the written en-passant field reads back as the same square or none |
| Fen.ClockRoundTrip | lib/chess.js:935-939 | a written clock reads back as the same number |
| Fen.RejoinedFields | lib/chess.js:874-880 | fields without spaces, joined by single spaces, split back into themselves |
| Fen.DecodeFieldsCoherent | lib/chess.js:884-946 | a decoded board is consistent, unchanged, with no history and no pins |
| Fen.DecodeFieldsAccepts | lib/chess.js:884-946 | six fields that each pass their check decode to the board read from them |
| Fen.DecodedShape | lib/chess.js:911-946 | a decoded board is the placement read with the other five fields set |
| Fen.WrittenStateFields | lib/chess.js:963-967 | every written field after the placement reads back as the state's own value |
| Fen.DecodeWritten | lib/chess.js:954-967 | decoding the written fields gives the written placement with the state's other fields, and the same occupants |
| Fen.FenRoundTrip | lib/chess.js:868-968 | decoding `fenstring` succeeds, restores turn, rights, en passant and clocks, and puts the same piece on every square |
| Fen.DecodeCanonical | lib/chess.js:868-968 | decoding the `fenstring` of a decoded board gives that board again |
| Fen.DefaultBoard | lib/chess.js:871-873 | with no argument the board has 32 pieces, white to move, all castling rights, no en passant and clocks 0 and 1 |
| Fen.FromPiecesBoard | lib/chess.js:949-952 | `fromPieces` succeeds iff its back-rank placement reads, with white to move, all rights, no en passant, clocks 0 and 1 and that placement |
| Engine.IdOfWords | lib/engine.js:14-20 | the key is the second word and the value everything after `id <key> ` |
| Engine.IdWithoutValue | lib/engine.js:14-20 | with no value after the key the value is empty |
| Engine.IdOfOneWord | lib/engine.js:14-20 | a message of one word throws, since `key` is undefined |
| Engine.Attribute | lib/engine.js:39-83 | one pass either consumes tokens or leaves everything as it was; key and type never change |
| Engine.Attributes | lib/engine.js:38-84 | the attribute loop never changes the key or the type |
| Engine.ParseOption | lib/engine.js:27-87 | the `while` loop computes `OptionOf` |
| Engine.OptionKeyOf | lib/engine.js:28-31 | the key is the text between `option name ` and the first ` type `, and the type starts after it |
| Engine.OptionWordsOf | lib/engine.js:33-34 | the words after ` type ` are split on single spaces |
| Engine.OptionShape | lib/engine.js:27-36 | a message reads as its key and type with its attributes applied in order |
| Engine.StringDefault | lib/engine.js:41-48 | a `string` default takes all remaining words joined by spaces, `<empty>` meaning empty, and ends the parse |
| Engine.WordAttributes | lib/engine.js:49-71 | a `check` default is true iff the word is `true`; `spin`, `min` and `max` are `parseInt`'d; a `combo` default is one word |
| Engine.OtherDefault | lib/engine.js:41-61 | a `default` for any other type consumes only the keyword |
| Engine.VarsInOrder | lib/engine.js:73-80 | each `var` appends its word, in order |
| Engine.UnknownAttributeStops | lib/engine.js:82-83 | a pass that consumes nothing ends the loop |
| Engine.Pass | lib/engine.js:105-141 | the field a pass reports is the last one read; a pass that reads nothing leaves the message alone |
| Engine.Remove | lib/engine.js:147 | deleting a field present removes exactly one |
| Engine.ParseInfo | lib/engine.js:93-152 | the `while` loop over passes computes `InfoOf` |
| Engine.ScalarRead | lib/engine.js:135-139 | a plain field stores its next word as text and consumes `field value ` |
| Engine.TextRead | lib/engine.js:109-112 | `string` takes the rest of the message and leaves nothing |
| Engine.LineRead | lib/engine.js:114-118 | `pv`, `refutation` and `currline` take every remaining word as a list |
| Engine.ScoreRead | lib/engine.js:120-133 | `score` stores its type and value and the `upper`/`lower` bound when one follows |
| Engine.ScoreAtEnd | lib/engine.js:120-133 | a score at the end of the message has no bound and leaves nothing |
| Engine.ScoreWithoutValue | lib/engine.js:121-123 | a score without a value throws on `value.length` |
| Engine.NoFieldStuck | lib/engine.js:103-149 | a message that starts with no remaining field makes the loop spin forever with nothing consumed |
| Engine.DepthThenStuck | lib/engine.js:103-149 | after `depth <v>` is consumed, a rest starting with `d`, which no other field can start, keeps depth and spins forever |
| Engine.RepeatedFieldSpins | lib/engine.js:103-149 | `info depth 2 depth 3` keeps depth 2 and then spins on `depth 3` |
| Engine.BestMoveAlone | lib/engine.js:158-162 | `bestmove <m>` gives the move and no ponder |
| Engine.BestMoveWithPonder | lib/engine.js:158-162 | `bestmove <m> ponder <p>` gives both |
| OptionStore.FindFrom | lib/storage.js:24 | `find` gives the first index with the name, or none when no entry has it |
| OptionStore.Storage.GetOptions | lib/storage.js:31-33 | the list, or `[]` when there is none |
| OptionStore.Storage.GetOption | lib/storage.js:20-29 | the loop returns the value of the first entry with the name, or `null` when no list or entry exists |
| OptionStore.Storage.SetOption | lib/storage.js:35-44 | the list, created if missing, becomes its upsert |
| OptionStore.FindIsFirst | lib/storage.js:24 | `find` fails iff the name is absent, and otherwise gives its least index |
| OptionStore.ReadBack | lib/storage.js:20-44 | after setting a name, looking it up gives the value set |
| OptionStore.OthersUnchanged | lib/storage.js:35-44 | setting one name leaves every other name's lookup as it was |
| OptionStore.OverwriteInPlace | lib/storage.js:39-43 | for a present name the length stays and only the first entry with it changes, to the new value |
| OptionStore.AppendWhenNew | lib/storage.js:39-41 | for a new name the entry goes at the end and every earlier one stays |
| OptionStore.UpsertNames | lib/storage.js:35-44 | the names afterwards are the names before plus the one set |
| OptionStore.UpsertKeepsDistinct | lib/storage.js:35-44 | setting never creates a second entry with the same name |
| OptionStore.UpsertIdempotent | lib/storage.js:35-44 | setting the same value twice is setting it once |
| OptionStore.EmptyStore | lib/storage.js:20-41 | with no list nothing is found, and the first set makes a one-entry list |

## Left out

- The `Engine` class of `lib/engine.js` is left out. It is native-messaging port I/O, promises and listeners. Only `Parser` is modelled.
- The localStorage load and save and the JSON parsing in `lib/storage.js` are left out. They are a browser API. The `Storage` constructor takes the saved list as a parameter instead.
- `OptionStore.Storage.GetOptions`: returns the list as a value, so the aliasing in the source, where callers can mutate the live list, is not modelled.
- `Board.renderString` and `Coordinate.threats` are display and analysis helpers outside the modelled core.
- Case mapping (`toLowerCase`/`toUpperCase`) is modelled on ASCII letters only.
- Clocks are modelled as unbounded integers. JavaScript numbers are floating point, and `parseInt` truncation of large values is not modelled.
- Non-string arguments to the constructor, other than "no argument", are not modelled. Fields that are not strings are left out as well.
- `Engine.ParseInfo`: a pass that reads no field makes the source loop forever. The model returns an explicit `Stuck` result carrying the message and the values so far, instead of not terminating.
- `Chess.Board.BindSquare`: requires that the piece be unbound or already on that square. Every caller in the source meets this, and binding a piece that sits elsewhere through `Coordinate.bind` leaves a stale link in the source.
- `Chess.Board.UpdateFlags`: requires the en-passant square to be clear on entry, which `Clocks` guarantees just before it. The source resets en passant first.
- `Chess.Board.SetPinningPiece`: collects the pins in a local sequence and writes the field once after the scan. Nothing in the scan reads the pin links, so the final state is the same.
- Pawn moves (`lib/chess.js:250-288`) stay a function (`MoveGen.PawnMoves`), because the getter has no loop.
- `MoveGen.PawnDestinations`: states the membership of the pawn's list rather than the list itself. The list equals `MoveGen.PawnMoves` by definition.
- The concrete example after `move('e4')` from the start position is not evaluated as a lemma. Its parts are covered by `Apply.MoveBookkeeping`, `Apply.FlagsAfterMove` and `Fen.FenRoundTrip`.
- `Placement.ExpandCompress`: proves that compression preserves the squares spelled out and the token shape. It does not prove that no two digits end up adjacent.
- Check and mate detection is absent from the source. The check marker of the notation is only recorded.
