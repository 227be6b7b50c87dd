/**
 * The position state of a `Board` as a value: the 64 square slots, the arena
 * of every piece ever created (pieces are never destroyed, only unbound), the
 * two-way square/piece binding, the pin cache and the per-game bookkeeping.
 * The `Chess.Board` class holds the same data in mutable fields.
 */
module BoardState {
  import opened Util
  import opened Squares
  import opened Pieces

  /** Castling availability, the `K`, `Q`, `k` and `q` flags. */
  datatype Rights = Rights(whiteKing: bool, whiteQueen: bool, blackKing: bool, blackQueen: bool)

  datatype Wing = KingSide | QueenSide

  /** The castling part of a move: the wing, the rook it found (possibly none) and the king. */
  datatype Castle = Castle(wing: Wing, rook: Option<nat>, king: nat)

  /**
   * A resolved move (the `Move` class): who moved, from and to which
   * squares, the moving piece (none when an explicit source square is
   * empty), the captured piece, the en-passant flag, the promotion piece
   * (created by the move, so recorded by value), the castling part, the
   * trailing check marker and the notation as given.
   */
  datatype MoveRec = MoveRec(
    turns: string,
    from: SquareId,
    to: SquareId,
    piece: Option<nat>,
    captured: Option<nat>,
    isEnPassant: bool,
    promotesTo: Option<Piece>,
    castling: Option<Castle>,
    checkState: Option<char>,
    notation: string)

  /**
   * `occ[s]` is the index of the piece on square s (`Coordinate._piece`);
   * `pieces`, `positions` and `pinning` are indexed by piece
   * (`_symbol`/`_side`, `_position`, `pinningPiece`); the first `registered`
   * pieces are the board's piece list `_pieces`, the rest are promotion
   * pieces, which are bound to squares but never enter that list.
   * `turn` is the raw turn string, `placement` the cached placement field
   * and `changed` whether that cache is stale.
   */
  datatype State = State(
    occ: seq<Option<nat>>,
    pieces: seq<Piece>,
    positions: seq<Option<SquareId>>,
    pinning: seq<Option<nat>>,
    registered: nat,
    turn: string,
    castling: Rights,
    enPassant: Option<SquareId>,
    halfmove: int,
    fullmove: int,
    history: seq<MoveRec>,
    changed: bool,
    placement: string)

  /**
   * The outcome of an operation that may throw part-way: the state as the
   * operation left it, and the error it threw, if any.
   */
  datatype Run = Run(state: State, thrown: Option<Error>)

  /** The well-formedness of a state: sizes, and the binding is mutually consistent. */
  predicate Valid(st: State) {
    && |st.occ| == 64
    && |st.positions| == |st.pieces|
    && |st.pinning| == |st.pieces|
    && st.registered <= |st.pieces|
    && (forall s :: 0 <= s < 64 && st.occ[s].Some? ==>
          st.occ[s].value < |st.pieces| && st.positions[st.occ[s].value] == Some(s))
    && (forall p :: 0 <= p < |st.pieces| && st.positions[p].Some? ==>
          st.occ[st.positions[p].value] == Some(p))
    && (forall p :: 0 <= p < |st.pieces| && st.pinning[p].Some? ==>
          st.pinning[p].value < |st.pieces|)
  }

  /** Validity depends on the squares, the pieces, their positions and pins, and the registered count alone. */
  lemma ValidSameBoard(st: State, r: State)
    requires Valid(st)
    requires r.occ == st.occ && r.pieces == st.pieces && r.positions == st.positions
    requires r.pinning == st.pinning && r.registered == st.registered
    ensures Valid(r)
  {
  }

  /**
   * A move fits a state when its moving piece is what stands on its source
   * square and every piece it names is one of the state's.
   */
  predicate Fits(st: State, m: MoveRec)
    requires Valid(st)
  {
    && m.piece == st.occ[m.from]
    && (m.captured.Some? ==> m.captured.value < |st.pieces|)
    && (m.castling.Some? ==> m.castling.value.king < |st.pieces| && m.piece == Some(m.castling.value.king))
    && (m.castling.Some? ==> m.castling.value.rook != Some(m.castling.value.king) && m.promotesTo.None?)
    && (m.castling.Some? && m.castling.value.rook.Some? ==> m.castling.value.rook.value < |st.pieces|)
  }

  /** `changeTurns`: black hands over to white, anything else to black. */
  function NextTurn(turn: string): (r: string)
    ensures r == "b" || r == "w"
    ensures r != turn || turn == "bw"
  {
    if turn == "b" then "w" else "b"
  }

  /** Two changes of turn restore `b` and `w`, but turn `bw` into `w`. */
  lemma NextTurnTwice(turn: string)
    ensures turn == "b" || turn == "w" ==> NextTurn(NextTurn(turn)) == turn
    ensures turn == "bw" ==> NextTurn(turn) == "b" && NextTurn(NextTurn(turn)) == "w"
  {
  }

  /** The piece standing on a square. */
  function Occupant(st: State, s: SquareId): Option<Piece>
    requires Valid(st)
  {
    match st.occ[s]
    case None => None
    case Some(p) => Some(st.pieces[p])
  }

  /** A square holds at most one piece, and a piece stands on at most one square. */
  lemma BindingInjective(st: State, s: SquareId, t: SquareId)
    requires Valid(st)
    requires st.occ[s].Some? && st.occ[s] == st.occ[t]
    ensures s == t
  {
  }

  // ------------------------------------------------------------ binding

  /** `Coordinate.unbind`: empties the square and clears its piece's position. */
  function UnbindSquare(st: State, s: SquareId): (r: State)
    requires Valid(st)
    ensures Valid(r)
    ensures r.occ == st.occ[s := None]
    ensures st.occ[s].Some? ==> r.positions == st.positions[st.occ[s].value := None]
    ensures st.occ[s].None? ==> r == st
    ensures r == st.(occ := r.occ, positions := r.positions)
  {
    match st.occ[s]
    case None => st
    case Some(p) => st.(occ := st.occ[s := None], positions := st.positions[p := None])
  }

  /**
   * `Coordinate.bind(piece)` for a piece that is unbound or already on the
   * square: the previous occupant, if another piece, loses its position, and
   * the two links are set.
   */
  function BindSquare(st: State, s: SquareId, p: nat): (r: State)
    requires Valid(st)
    requires p < |st.pieces|
    requires st.positions[p] == None || st.positions[p] == Some(s)
    ensures Valid(r)
    ensures r.occ == st.occ[s := Some(p)]
    ensures |r.positions| == |st.positions| && r.positions[p] == Some(s)
    ensures forall q :: 0 <= q < |st.pieces| && q != p ==>
              r.positions[q] == (if st.occ[s] == Some(q) then None else st.positions[q])
    ensures r == st.(occ := r.occ, positions := r.positions)
  {
    if st.occ[s] == Some(p) then st
    else
      var st1 := UnbindSquare(st, s);
      assert st1.positions[p].None?;
      LinkValid(st1, s, p);
      st1.(occ := st1.occ[s := Some(p)], positions := st1.positions[p := Some(s)])
  }

  /** Linking an unbound piece and an empty square keeps the links consistent. */
  lemma LinkValid(st: State, s: SquareId, p: nat)
    requires Valid(st) && p < |st.pieces| && st.occ[s].None? && st.positions[p].None?
    ensures Valid(st.(occ := st.occ[s := Some(p)], positions := st.positions[p := Some(s)]))
  {
    var r := st.(occ := st.occ[s := Some(p)], positions := st.positions[p := Some(s)]);
    forall t | 0 <= t < 64 && r.occ[t].Some?
      ensures r.occ[t].value < |r.pieces| && r.positions[r.occ[t].value] == Some(t)
    {
      if t != s {
        assert r.occ[t] == st.occ[t] && r.occ[t].value != p;
      }
    }
    forall q | 0 <= q < |r.pieces| && r.positions[q].Some? ensures r.occ[r.positions[q].value] == Some(q) {
      if q != p {
        assert r.positions[q] == st.positions[q] && r.positions[q].value != s;
      }
    }
  }

  /** `Piece.unbind`: empties the piece's square, if it has one. */
  function UnbindPiece(st: State, p: nat): (r: State)
    requires Valid(st)
    requires p < |st.pieces|
    ensures Valid(r)
    ensures r.positions == st.positions[p := None]
    ensures st.positions[p].Some? ==> r.occ == st.occ[st.positions[p].value := None]
    ensures st.positions[p].None? ==> r == st
    ensures r == st.(occ := r.occ, positions := r.positions)
  {
    match st.positions[p]
    case None => st
    case Some(s) => UnbindSquare(st, s)
  }

  /**
   * `Piece.bind(square)`: the piece leaves its old square (if any) and is
   * bound to the new one, whose previous occupant is unbound.
   */
  function BindPiece(st: State, p: nat, s: SquareId): (r: State)
    requires Valid(st)
    requires p < |st.pieces|
    ensures Valid(r)
    ensures r.occ[s] == Some(p) && r.positions[p] == Some(s)
    ensures forall t :: 0 <= t < 64 && t != s ==>
              r.occ[t] == (if st.positions[p] == Some(t) then None else st.occ[t])
    ensures r == st.(occ := r.occ, positions := r.positions)
  {
    if st.positions[p] == Some(s) then st
    else BindSquare(UnbindPiece(st, p), s, p)
  }

  // ------------------------------------------------------------ castling flags

  function HasRight(rights: Rights, side: Side, wing: Wing): bool {
    match (side, wing)
    case (White, KingSide) => rights.whiteKing
    case (White, QueenSide) => rights.whiteQueen
    case (Black, KingSide) => rights.blackKing
    case (Black, QueenSide) => rights.blackQueen
  }

  /** The flags with one of them cleared. */
  function ClearRight(rights: Rights, side: Side, wing: Wing): (r: Rights)
    ensures !HasRight(r, side, wing)
    ensures forall sd: Side, w: Wing :: (sd, w) != (side, wing) ==> HasRight(r, sd, w) == HasRight(rights, sd, w)
  {
    match (side, wing)
    case (White, KingSide) => rights.(whiteKing := false)
    case (White, QueenSide) => rights.(whiteQueen := false)
    case (Black, KingSide) => rights.(blackKing := false)
    case (Black, QueenSide) => rights.(blackQueen := false)
  }
}
