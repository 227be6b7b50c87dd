/**
 * Playing one move on a position (`Board.move`): the pin analysis, the
 * reading of the notation, the relocation of the pieces, the castling rook,
 * the clocks, the en-passant square and castling flags, the change of turn
 * and the move history. Each step that can throw leaves the state as far as
 * it got.
 */
module Apply {
  import opened Util
  import opened Squares
  import opened Pieces
  import opened BoardState
  import opened Pins
  import opened Notation

  /** The piece a move puts on its destination: the promotion piece (appended to the arena) or the mover. */
  function Placed(st: State, m: MoveRec): Option<nat> {
    if m.promotesTo.Some? then Some(|st.pieces|) else m.piece
  }

  /** The square a piece is cleared from when the move captures it. */
  function CapturedSquare(st: State, m: MoveRec): Option<SquareId>
    requires Valid(st) && Fits(st, m)
  {
    if m.captured.Some? then st.positions[m.captured.value] else None
  }

  /** The captured piece and the source square are cleared. */
  function Vacate(st: State, m: MoveRec): (r: State)
    requires Valid(st) && Fits(st, m)
    ensures Valid(r)
    ensures r == st.(occ := r.occ, positions := r.positions)
    ensures forall s :: 0 <= s < 64 ==>
              r.occ[s] == (if s == m.from || CapturedSquare(st, m) == Some(s) then None else st.occ[s])
    ensures m.piece.Some? ==> r.positions[m.piece.value] == None
  {
    var st1 := if m.captured.Some? then UnbindPiece(st, m.captured.value) else st;
    assert m.piece.Some? && m.captured != m.piece ==> st1.occ[m.from] == m.piece;
    UnbindSquare(st1, m.from)
  }

  /** A new piece joins the arena, unbound and unpinned, outside the board's own list. */
  function AddPiece(st: State, pc: Piece): (r: State)
    requires Valid(st)
    ensures Valid(r)
    ensures r == st.(pieces := r.pieces, positions := r.positions, pinning := r.pinning)
    ensures r.pieces == st.pieces + [pc] && r.positions[|st.pieces|] == None
    ensures forall p :: 0 <= p < |st.pieces| ==> r.positions[p] == st.positions[p]
  {
    var r := st.(pieces := st.pieces + [pc], positions := st.positions + [None], pinning := st.pinning + [None]);
    assert forall p :: 0 <= p < |st.pieces| ==> r.positions[p] == st.positions[p] && r.pinning[p] == st.pinning[p];
    r
  }

  /**
   * The captured piece leaves the board, the source square is emptied and
   * the destination takes the promotion piece or the mover; with neither
   * (an empty explicit source) an occupied destination is emptied and the
   * binding of nothing throws.
   */
  function Relocate(st: State, m: MoveRec): (r: Run)
    requires Valid(st) && Fits(st, m)
    ensures Valid(r.state)
    ensures r.state == st.(occ := r.state.occ, pieces := r.state.pieces, positions := r.state.positions,
                           pinning := r.state.pinning)
    ensures r.state.pieces == st.pieces + (if m.promotesTo.Some? then [m.promotesTo.value] else [])
    ensures r.thrown.Some? <==> (Placed(st, m).None? && Vacate(st, m).occ[m.to].Some?)
    ensures r.state.occ[m.to] == Placed(st, m)
    ensures forall s :: 0 <= s < 64 && s != m.to ==> r.state.occ[s] == Vacate(st, m).occ[s]
  {
    var st2 := Vacate(st, m);
    match m.promotesTo
    case Some(pc) => Run(BindSquare(AddPiece(st2, pc), m.to, |st2.pieces|), None)
    case None =>
      match m.piece
      case Some(p) => Run(BindSquare(st2, m.to, p), None)
      case None =>
        if st2.occ[m.to].Some? then Run(UnbindSquare(st2, m.to), Some(TypeError("piece._position")))
        else Run(st2, None)
  }

  /** The home square of the castling rook: row 0 for black, 7 otherwise; column 5 on the king side, 3 on the queen side. */
  function RookHome(turn: string, wing: Wing): (s: SquareId)
    ensures Row(s) == (if turn == "b" then 0 else 7)
    ensures Column(s) == (if wing == KingSide then 5 else 3)
  {
    (if turn == "b" then 0 else 7) * 8 + (if wing == KingSide then 5 else 3)
  }

  /** The castling rook moves next to the king; a castling that found no rook throws. */
  function MoveRook(st: State, c: Castle): (r: Run)
    requires Valid(st) && (c.rook.Some? ==> c.rook.value < |st.pieces|)
    ensures Valid(r.state)
    ensures r.state == st.(occ := r.state.occ, positions := r.state.positions)
    ensures r.thrown.Some? <==> c.rook.None?
    ensures r.thrown.Some? ==> r.state == st
    ensures c.rook.Some? ==> r.state.occ[RookHome(st.turn, c.wing)] == c.rook &&
                             r.state.positions[c.rook.value] == Some(RookHome(st.turn, c.wing))
  {
    match c.rook
    case None => Run(st, Some(TypeError("rook.unbind")))
    case Some(rook) => Run(BindPiece(UnbindPiece(st, rook), rook, RookHome(st.turn, c.wing)), None)
  }

  /** The move counters: the full-move number grows after black's move; the half-move clock restarts on a capture or a pawn move. */
  function Clocks(st: State, m: MoveRec): (r: State)
    requires Valid(st) && (m.piece.Some? ==> m.piece.value < |st.pieces|)
    ensures Valid(r) && r == st.(fullmove := r.fullmove, halfmove := r.halfmove, enPassant := None)
  {
    var pawn := m.piece.Some? && st.pieces[m.piece.value].kind == Pawn;
    st.(fullmove := if st.turn == "b" then st.fullmove + 1 else st.fullmove,
        halfmove := if m.captured.Some? || pawn then 0 else st.halfmove + 1,
        enPassant := None)
  }

  /** The square a pawn's double step passes over, when its move goes from rank 2 to 4 or from rank 7 to 5. */
  function DoubleStepSquare(m: MoveRec): (r: Option<SquareId>)
    ensures r.Some? ==> FileOf(r.value) == FileOf(m.from)
    ensures r.Some? <==> (RankOf(m.from) == '2' && RankOf(m.to) == '4') || (RankOf(m.from) == '7' && RankOf(m.to) == '5')
    ensures r.Some? ==> RankOf(r.value) == (if RankOf(m.from) == '2' then '3' else '6')
  {
    if RankOf(m.from) == '2' && RankOf(m.to) == '4' then Some(Lookup([FileOf(m.from), '3']).value)
    else if RankOf(m.from) == '7' && RankOf(m.to) == '5' then Some(Lookup([FileOf(m.from), '6']).value)
    else None
  }

  /**
   * The flags after the move: a king move clears both of the side's flags, a
   * rook move only the queen-side one (the comparison with the king's file
   * reads a property pieces do not have), after looking up the rook's square
   * and the side's king, either of which may be missing; a pawn's double step
   * records the square it passed.
   */
  function Flags(st: State, m: MoveRec): (r: Run)
    requires Valid(st) && (m.piece.Some? ==> m.piece.value < |st.pieces|)
    ensures Valid(r.state) && r.state == st.(castling := r.state.castling, enPassant := r.state.enPassant)
  {
    match m.piece
    case None => Run(st, None)
    case Some(p) =>
      var side := TurnSide(st.turn);
      match st.pieces[p].kind
      case King => Run(st.(castling := ClearRight(ClearRight(st.castling, side, KingSide), side, QueenSide)), None)
      case Rook =>
        if st.positions[p].None? then Run(st, Some(TypeError("rook.position")))
        else if CastlingKingFrom(st, 0).None? then Run(st, Some(TypeError("king.file")))
        else Run(st.(castling := ClearRight(st.castling, side, QueenSide)), None)
      case Pawn => Run(st.(enPassant := DoubleStepSquare(m)), None)
      case _ => Run(st, None)
  }

  /** The end of a completed move: the turn changes, the placement goes stale, the move is recorded. */
  function Record(st: State, m: MoveRec): (r: State)
    requires Valid(st)
    ensures Valid(r) && r == st.(turn := NextTurn(st.turn), changed := true, history := st.history + [m])
  {
    st.(turn := NextTurn(st.turn), changed := true, history := st.history + [m])
  }

  /** What follows the relocation: the castling rook, clocks and flags, and the record of the move. */
  function Complete(st: State, m: MoveRec): (r: Run)
    requires Valid(st) && (m.piece.Some? ==> m.piece.value < |st.pieces|)
    requires m.castling.Some? && m.castling.value.rook.Some? ==> m.castling.value.rook.value < |st.pieces|
    ensures Valid(r.state)
    ensures r.state.registered == st.registered && r.state.placement == st.placement && r.state.pieces == st.pieces
  {
    var castled := if m.castling.Some? then MoveRook(st, m.castling.value) else Run(st, None);
    if castled.thrown.Some? then castled
    else
      var flagged := Flags(Clocks(castled.state, m), m);
      if flagged.thrown.Some? then flagged
      else Run(Record(flagged.state, m), None)
  }

  /** The part of `Board.move` after the move is read: pieces, rook, clocks, flags, turn and history. */
  function Play(st: State, m: MoveRec): (r: Run)
    requires Valid(st) && Fits(st, m)
    ensures Valid(r.state)
    ensures r.state.registered == st.registered && r.state.placement == st.placement
    ensures |r.state.pieces| >= |st.pieces| && r.state.pieces[..|st.pieces|] == st.pieces
  {
    var moved := Relocate(st, m);
    assert moved.state.pieces[..|st.pieces|] == st.pieces;
    if moved.thrown.Some? then moved else Complete(moved.state, m)
  }

  /** `Board.move(notation)`: the state it leaves and the error it throws, if any. */
  function ApplyMove(st: State, notation: string): (r: Run)
    requires Valid(st)
    ensures Valid(r.state)
    ensures r.state.registered == st.registered && r.state.placement == st.placement
  {
    var pins := ComputePins(st);
    if pins.thrown.Some? then pins
    else
      match ParseMove(pins.state, notation)
      case Fail(e) => Run(pins.state, Some(e))
      case Ok(m) => Play(pins.state, m)
  }

  // ---------------------------------------------------------------- properties

  /** The position the move is read against: the pin analysis done. */
  function Pinned(st: State): (r: State)
    requires Valid(st)
    ensures Valid(r) && r == st.(pinning := r.pinning)
  {
    ComputePins(st).state
  }

  /** The move a notation stands for in a position, once the pins are known. */
  function Parsed(st: State, notation: string): (r: Outcome<MoveRec>)
    requires Valid(st)
    ensures r.Ok? ==> Fits(Pinned(st), r.value)
  {
    ParseMove(Pinned(st), notation)
  }

  /** A completed move went through all three stages: pins, reading, playing. */
  lemma {:induction false} CompletedMoveStages(st: State, notation: string)
    requires Valid(st) && ApplyMove(st, notation).thrown.None?
    ensures ComputePins(st).thrown.None? && Parsed(st, notation).Ok?
    ensures ApplyMove(st, notation) == Play(Pinned(st), Parsed(st, notation).value)
  {
  }

  /** A position lacking a king of either side refuses every move before reading it. */
  lemma {:induction false} MissingKingThrows(st: State, notation: string)
    requires Valid(st)
    requires FindKing(st, Black).None? || FindKing(st, White).None?
    ensures ApplyMove(st, notation).thrown.Some?
    ensures ApplyMove(st, notation).state == st.(pinning := ApplyMove(st, notation).state.pinning)
  {
  }

  /** A notation that cannot be read leaves the position as it was, pins apart. */
  lemma {:induction false} UnreadableMoveChangesNothing(st: State, notation: string)
    requires Valid(st) && ComputePins(st).thrown.None? && Parsed(st, notation).Fail?
    ensures ApplyMove(st, notation) == Run(Pinned(st), Some(Parsed(st, notation).error))
  {
  }

  // What the steps after the relocation do, one lemma each.

  lemma {:induction false} CompleteBookkeeping(st: State, m: MoveRec)
    requires Valid(st) && (m.piece.Some? ==> m.piece.value < |st.pieces|)
    requires m.castling.Some? && m.castling.value.rook.Some? ==> m.castling.value.rook.value < |st.pieces|
    requires Complete(st, m).thrown.None?
    ensures var r := Complete(st, m).state;
      && r.turn == NextTurn(st.turn) && r.history == st.history + [m] && r.changed
      && r.fullmove == (if st.turn == "b" then st.fullmove + 1 else st.fullmove)
      && r.halfmove == (if m.captured.Some? || (m.piece.Some? && st.pieces[m.piece.value].kind == Pawn) then 0
                        else st.halfmove + 1)
  {
    var castled := if m.castling.Some? then MoveRook(st, m.castling.value) else Run(st, None);
    assert castled.thrown.None?;
    var clocked := Clocks(castled.state, m);
    var flagged := Flags(clocked, m);
    assert flagged.thrown.None?;
    assert Complete(st, m).state == Record(flagged.state, m);
  }

  lemma {:induction false} CompleteFlags(st: State, m: MoveRec)
    requires Valid(st) && m.piece.Some? && m.piece.value < |st.pieces|
    requires m.castling.Some? && m.castling.value.rook.Some? ==> m.castling.value.rook.value < |st.pieces|
    requires Complete(st, m).thrown.None?
    ensures var r := Complete(st, m).state;
      var side := TurnSide(st.turn);
      && (st.pieces[m.piece.value].kind == Rook ==>
            !HasRight(r.castling, side, QueenSide) &&
            HasRight(r.castling, side, KingSide) == HasRight(st.castling, side, KingSide))
      && (st.pieces[m.piece.value].kind == King ==>
            !HasRight(r.castling, side, QueenSide) && !HasRight(r.castling, side, KingSide))
      && r.enPassant == (if st.pieces[m.piece.value].kind == Pawn then DoubleStepSquare(m) else None)
  {
    var castled := if m.castling.Some? then MoveRook(st, m.castling.value) else Run(st, None);
    assert castled.thrown.None?;
    var clocked := Clocks(castled.state, m);
    assert clocked.castling == st.castling && clocked.turn == st.turn && clocked.pieces == st.pieces;
    var flagged := Flags(clocked, m);
    assert flagged.thrown.None?;
    assert Complete(st, m).state == Record(flagged.state, m);
  }

  lemma {:induction false} CompleteCastles(st: State, m: MoveRec)
    requires Valid(st) && m.castling.Some? && m.piece == Some(m.castling.value.king)
    requires m.castling.value.king < |st.pieces| && m.castling.value.rook != m.piece
    requires m.castling.value.rook.Some? ==> m.castling.value.rook.value < |st.pieces|
    requires Complete(st, m).thrown.None? && st.occ[m.to] == m.piece
    ensures var r := Complete(st, m).state;
      && m.castling.value.rook.Some?
      && r.occ[RookHome(st.turn, m.castling.value.wing)] == m.castling.value.rook
      && (RookHome(st.turn, m.castling.value.wing) != m.to ==> r.occ[m.to] == m.piece)
  {
    var c := m.castling.value;
    var castled := MoveRook(st, c);
    assert castled.thrown.None?;
    var rook := c.rook.value;
    assert st.positions[rook] != Some(m.to);
    var clocked := Clocks(castled.state, m);
    var flagged := Flags(clocked, m);
    assert flagged.thrown.None?;
    assert Complete(st, m).state.occ == flagged.state.occ == castled.state.occ;
  }

  /**
   * A completed move hands the turn over, is appended to the history, marks
   * the placement stale and advances the clocks: the full-move number after
   * black's move, the half-move clock reset by a capture or a pawn move.
   */
  lemma {:induction false} MoveBookkeeping(st: State, m: MoveRec)
    requires Valid(st) && Fits(st, m) && Play(st, m).thrown.None?
    ensures var r := Play(st, m).state;
      && r.turn == NextTurn(st.turn)
      && r.history == st.history + [m]
      && r.changed
      && r.fullmove == (if st.turn == "b" then st.fullmove + 1 else st.fullmove)
      && r.halfmove == (if m.captured.Some? || (m.piece.Some? && st.pieces[m.piece.value].kind == Pawn) then 0
                        else st.halfmove + 1)
  {
    var moved := Relocate(st, m);
    assert moved.state.pieces[..|st.pieces|] == st.pieces;
    assert moved.thrown.None?;
    CompleteBookkeeping(moved.state, m);
  }

  /**
   * A completed ordinary move (no castling) puts the mover, or its
   * promotion piece, on the destination, empties the source and the
   * captured piece's square, and leaves every other square as it was.
   */
  lemma {:induction false} MoveRelocates(st: State, m: MoveRec)
    requires Valid(st) && Fits(st, m) && Play(st, m).thrown.None? && m.castling.None?
    ensures var r := Play(st, m).state;
      && r.occ[m.to] == Placed(st, m)
      && forall s :: 0 <= s < 64 && s != m.to ==>
           r.occ[s] == (if s == m.from || CapturedSquare(st, m) == Some(s) then None else st.occ[s])
  {
    var moved := Relocate(st, m);
    assert moved.thrown.None?;
  }

  /** Castling puts the king on its destination and the rook next to it, on the turn's home row. */
  lemma {:induction false} CastlingPlacesBoth(st: State, m: MoveRec)
    requires Valid(st) && Fits(st, m) && Play(st, m).thrown.None? && m.castling.Some?
    ensures var r := Play(st, m).state;
      && m.castling.value.rook.Some?
      && r.occ[RookHome(st.turn, m.castling.value.wing)] == m.castling.value.rook
      && (RookHome(st.turn, m.castling.value.wing) != m.to ==> r.occ[m.to] == Some(m.castling.value.king))
  {
    var moved := Relocate(st, m);
    assert moved.thrown.None?;
    assert moved.state.occ[m.to] == m.piece;
    CompleteCastles(moved.state, m);
  }

  /**
   * A completed rook move clears the side's queen-side flag and never the
   * king-side one, whichever wing the rook stood on; a king move clears both.
   * A pawn move from rank 2 to 4 or 7 to 5 records the square passed as the
   * en-passant target; any other move clears it.
   */
  lemma {:induction false} FlagsAfterMove(st: State, m: MoveRec)
    requires Valid(st) && Fits(st, m) && Play(st, m).thrown.None? && m.piece.Some?
    ensures var r := Play(st, m).state;
      var side := TurnSide(st.turn);
      && (st.pieces[m.piece.value].kind == Rook ==>
            !HasRight(r.castling, side, QueenSide) &&
            HasRight(r.castling, side, KingSide) == HasRight(st.castling, side, KingSide))
      && (st.pieces[m.piece.value].kind == King ==>
            !HasRight(r.castling, side, QueenSide) && !HasRight(r.castling, side, KingSide))
      && r.enPassant == (if st.pieces[m.piece.value].kind == Pawn then DoubleStepSquare(m) else None)
  {
    var moved := Relocate(st, m);
    assert moved.state.pieces[..|st.pieces|] == st.pieces;
    assert moved.thrown.None?;
    assert moved.state.pieces[m.piece.value] == st.pieces[m.piece.value];
    CompleteFlags(moved.state, m);
  }
}
