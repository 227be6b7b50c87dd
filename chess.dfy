/**
 * The `Board` class of lib/chess.js with its mutable state: the 64 square
 * slots in an array, the pieces' sides, positions and pins in sequences the
 * methods reassign, and the per-game fields. Each method does what the
 * source's code does, step by step, and is proved to leave the state (or to
 * return the value) that the functions of the other modules describe; the
 * properties of those functions are proved there.
 */
module Chess {
  import opened Util
  import opened Squares
  import opened Pieces
  import opened BoardState
  import opened MoveGen
  import opened Pins
  import opened Notation
  import opened Apply
  import opened Placement
  import opened Fen

  class Board {
    /** `Coordinate._piece` of each square, by square id. */
    var squares: array<Option<nat>>
    /** Side and kind of every piece created, by piece index. */
    var pieces: seq<Piece>
    /** `Piece._position` of every piece. */
    var positions: seq<Option<SquareId>>
    /** `Piece.pinningPiece` of every piece. */
    var pinning: seq<Option<nat>>
    /** The length of `_pieces`: the pieces the constructor created. */
    var registered: nat
    var turn: string
    var castling: Rights
    var enPassant: Option<SquareId>
    var halfmove: int
    var fullmove: int
    /** `_moves`. */
    var history: seq<MoveRec>
    /** `_changed` and the cached placement field `#placement`. */
    var changed: bool
    var placement: string

    /** The board's data as a position value. */
    function Snapshot(): State
      reads this, squares
    {
      State(SquareArray(squares), pieces, positions, pinning, registered, turn, castling, enPassant,
            halfmove, fullmove, history, changed, placement)
    }

    predicate Valid()
      reads this, squares
    {
      squares.Length == 64 && BoardState.Valid(Snapshot())
    }

    /** A board of 64 empty squares and no pieces, before the constructor reads its string. */
    constructor Empty()
      ensures Valid() && Snapshot() == EmptyBoard() && fresh(squares)
    {
      squares := new Option<nat>[64](_ => None);
      pieces, positions, pinning, registered := [], [], [], 0;
      turn, castling, enPassant := "w", Rights(false, false, false, false), None;
      halfmove, fullmove, history, changed, placement := 0, 0, [], false, "";
      new;
      assert squares[..] == EmptyBoard().occ;
    }

    // ---------------------------------------------------------------- turns

    /** `changeTurns`. */
    method ChangeTurns()
      modifies this
      ensures squares == old(squares)
      ensures Snapshot() == old(Snapshot()).(turn := NextTurn(old(turn)))
    {
      ghost var st := Snapshot();
      turn := if turn == "b" then "w" else "b";
      assert SquareArray(squares) == st.occ;
      assert Snapshot() == st.(turn := NextTurn(st.turn));
    }

    // ---------------------------------------------------------------- binding

    /** `Coordinate.unbind`: the square's piece, if any, loses its position, and the square empties. */
    method UnbindSquare(s: SquareId)
      requires Valid()
      modifies this, squares
      ensures squares == old(squares)
      ensures Snapshot() == BoardState.UnbindSquare(old(Snapshot()), s)
    {
      ghost var st := Snapshot();
      if squares[s].Some? {
        positions := positions[squares[s].value := None];
        squares[s] := None;
        assert Snapshot() == st.(occ := st.occ[s := None], positions := st.positions[st.occ[s].value := None]);
      }
    }

    /** `Coordinate.bind(piece)` for a piece that is unbound or already there. */
    method BindSquare(s: SquareId, p: nat)
      requires Valid() && p < |pieces|
      requires positions[p] == None || positions[p] == Some(s)
      modifies this, squares
      ensures squares == old(squares)
      ensures Snapshot() == BoardState.BindSquare(old(Snapshot()), s, p)
    {
      ghost var st := Snapshot();
      if squares[s] != Some(p) {
        UnbindSquare(s);
        ghost var st1 := BoardState.UnbindSquare(st, s);
        squares[s] := Some(p);
        positions := positions[p := Some(s)];
        assert Snapshot() == st1.(occ := st1.occ[s := Some(p)], positions := st1.positions[p := Some(s)]);
      }
    }

    /** `Piece.unbind`: the piece's square, if it has one, is unbound. */
    method UnbindPiece(p: nat)
      requires Valid() && p < |pieces|
      modifies this, squares
      ensures squares == old(squares)
      ensures Snapshot() == BoardState.UnbindPiece(old(Snapshot()), p)
    {
      if positions[p].Some? {
        UnbindSquare(positions[p].value);
      }
    }

    /** `Piece.bind(square)`: unless already there, the piece is unbound and the square binds it. */
    method BindPiece(p: nat, s: SquareId)
      requires Valid() && p < |pieces|
      modifies this, squares
      ensures squares == old(squares)
      ensures Snapshot() == BoardState.BindPiece(old(Snapshot()), p, s)
    {
      if positions[p] != Some(s) {
        UnbindPiece(p);
        BindSquare(s, p);
      }
    }

    // ---------------------------------------------------------------- kings and pins

    /** `findKing(side)`: the first of the board's pieces that is a king of the side on the board. */
    method FindKing(side: Side) returns (r: Option<nat>)
      requires Valid()
      ensures r == Pins.FindKing(Snapshot(), side)
    {
      var i := 0;
      while i < registered
        invariant 0 <= i <= registered
        invariant FindKingFrom(Snapshot(), side, i) == Pins.FindKing(Snapshot(), side)
      {
        if positions[i].Some? && pieces[i].side == side && pieces[i].kind == King {
          return Some(i);
        }
        i := i + 1;
      }
      return None;
    }

    /** The reset at the start of `move`: every piece of `_pieces` loses its pinner. */
    method ResetPins()
      requires Valid()
      modifies this
      ensures squares == old(squares)
      ensures Snapshot() == Pins.ResetPins(old(Snapshot()))
    {
      var p := 0;
      while p < registered
        invariant 0 <= p <= registered && |pinning| == |old(pinning)|
        invariant forall q :: 0 <= q < |pinning| ==> pinning[q] == (if q < p then None else old(pinning)[q])
        invariant squares == old(squares) && Snapshot() == old(Snapshot()).(pinning := pinning)
      {
        pinning := pinning[p := None];
        p := p + 1;
      }
      assert pinning == Pins.ResetPins(old(Snapshot())).pinning;
    }

    // ---------------------------------------------------------------- destinations

    /**
     * `iterateMove(piece, directions, distance)`: for each live direction,
     * the square `distance` steps away is listed when it is on the board and
     * empty or held by the other side, and the direction is nulled in place
     * when that square is off the board or occupied.
     */
    method IterateMove(p: nat, directions: array<Option<Dir>>, distance: int) returns (moves: seq<SquareId>)
      requires Valid() && p < |pieces|
      modifies directions
      ensures positions[p].None? ==> moves == [] && directions[..] == old(directions[..])
      ensures positions[p].Some? ==>
        moves == StepTargets(Snapshot(), pieces[p].side, positions[p].value, old(directions[..]), distance) &&
        directions[..] == StepAlive(Snapshot(), positions[p].value, old(directions[..]), distance)
    {
      moves := [];
      if positions[p].None? {
        return;
      }
      var from := positions[p].value;
      var side := pieces[p].side;
      ghost var st := Snapshot();
      ghost var dirs := directions[..];
      var d := 0;
      while d < directions.Length
        invariant 0 <= d <= directions.Length && Snapshot() == st
        invariant moves == StepTargets(st, side, from, dirs[..d], distance)
        invariant forall j :: 0 <= j < d ==> directions[j] == KeepAlive(st, from, dirs[j], distance)
        invariant forall j :: d <= j < directions.Length ==> directions[j] == dirs[j]
      {
        var hit := StepDirection(from, side, directions, d, distance);
        moves := moves + hit;
        StepTargetsSnoc(st, side, from, dirs, d, distance);
        d := d + 1;
      }
      assert dirs[..d] == dirs;
      assert directions[..] == StepAlive(st, from, dirs, distance);
    }

    /** One round of `iterateMove`'s loop: direction `d`, if live, looks at its square. */
    method StepDirection(from: SquareId, side: Side, directions: array<Option<Dir>>, d: nat, distance: int)
      returns (hit: seq<SquareId>)
      requires Valid() && d < directions.Length
      modifies directions
      ensures hit == StepOne(Snapshot(), side, from, old(directions[d]), distance)
      ensures directions[d] == KeepAlive(Snapshot(), from, old(directions[d]), distance)
      ensures forall j :: 0 <= j < directions.Length && j != d ==> directions[j] == old(directions[j])
    {
      hit := [];
      if directions[d].Some? {
        var pos := Target(from, directions[d].value, distance);
        if pos.None? || squares[pos.value].Some? {
          directions[d] := None;
        }
        if pos.Some? && (squares[pos.value].None? || pieces[squares[pos.value].value].side == Opposite(side)) {
          hit := [pos.value];
        }
      }
    }

    /** `availableMoves` of a bishop, rook or queen: the distance loop over `iterateMove`, then the pin restriction. */
    method SlidingMoves(p: nat, dirs: seq<Option<Dir>>) returns (r: seq<SquareId>)
      requires Valid() && p < |pieces|
      ensures r == MoveGen.SliderMoves(Snapshot(), p, dirs)
    {
      var moves := [];
      if positions[p].Some? {
        var directions := new Option<Dir>[|dirs|](j requires 0 <= j < |dirs| => dirs[j]);
        assert directions[..] == dirs;
        moves := SlideAll(p, directions);
      }
      r := PinRestrictList(p, moves);
    }

    /** The distance loop of a bound slider: `iterateMove` at distances one to seven, until one finds nothing. */
    method SlideAll(p: nat, directions: array<Option<Dir>>) returns (moves: seq<SquareId>)
      requires Valid() && p < |pieces| && positions[p].Some?
      modifies directions
      ensures moves == Slide(Snapshot(), pieces[p].side, positions[p].value, old(directions[..]), 1)
    {
      ghost var st := Snapshot();
      ghost var side := pieces[p].side;
      ghost var from := positions[p].value;
      ghost var total := Slide(st, side, from, directions[..], 1);
      moves := [];
      var i := 1;
      while i < 8
        invariant 1 <= i <= 8 && Snapshot() == st
        invariant moves + Slide(st, side, from, directions[..], i) == total
      {
        ghost var live := directions[..];
        var steps := IterateMove(p, directions, i);
        SlideOn(st, side, from, live, i, moves, total);
        if |steps| == 0 {
          break;
        }
        moves := moves + steps;
        i := i + 1;
      }
    }

    /** The end of every non-king `availableMoves`: a pinned piece keeps only its pinner's square, if listed. */
    method PinRestrictList(p: nat, moves: seq<SquareId>) returns (r: seq<SquareId>)
      requires Valid() && p < |pieces|
      ensures r == PinRestrict(Snapshot(), p, moves)
    {
      if pinning[p].Some? {
        var a := pinning[p].value;
        if positions[a].Some? && positions[a].value in moves {
          return [positions[a].value];
        }
        return [];
      }
      return moves;
    }

    /** `Knight.availableMoves`: one `iterateMove` step, then the pin restriction. */
    method KnightMoves(p: nat) returns (r: seq<SquareId>)
      requires Valid() && p < |pieces|
      ensures r == MoveGen.KnightMoves(Snapshot(), p)
    {
      var directions := new Option<Dir>[8](j requires 0 <= j < 8 => KnightDirs[j]);
      assert directions[..] == KnightDirs;
      var moves := IterateMove(p, directions, 1);
      r := PinRestrictList(p, moves);
    }

    /** The `find` `King.availableMoves` runs for a wing: the first of `_pieces` that is a rook of the side, on the board, on that side of `column`. */
    method FindRook(side: Side, column: int, wing: Wing) returns (r: Option<nat>)
      requires Valid()
      ensures r == FindRookFrom(Snapshot(), side, column, wing, 0)
    {
      var i := 0;
      while i < registered
        invariant 0 <= i <= registered
        invariant FindRookFrom(Snapshot(), side, column, wing, i) == FindRookFrom(Snapshot(), side, column, wing, 0)
      {
        if pieces[i].kind == Rook && positions[i].Some? && pieces[i].side == side &&
           (if wing == QueenSide then Column(positions[i].value) < column else Column(positions[i].value) > column) {
          return Some(i);
        }
        i := i + 1;
      }
      return None;
    }

    /**
     * One wing of `King.availableMoves`: with the right set, the rook is
     * looked up (its absence throws) and the squares from the king's column
     * toward the rook's are scanned; the castling square is added when none
     * of them is occupied.
     */
    method CastleTarget(p: nat, wing: Wing) returns (r: Outcome<seq<SquareId>>)
      requires Valid() && p < |pieces| && positions[p].Some?
      ensures r == MoveGen.CastleTarget(Snapshot(), p, wing)
    {
      var from := positions[p].value;
      var side := pieces[p].side;
      if !HasRight(castling, side, wing) {
        return Ok([]);
      }
      var rook := FindRook(side, Column(from), wing);
      if rook.None? {
        return Fail(TypeError("rook.position"));
      }
      var row := Row(from);
      var stop := Column(positions[rook.value].value);
      var able := ScanPath(row, Column(from), stop, wing);
      if able {
        return Ok([CastleSquare(from, wing)]);
      }
      return Ok([]);
    }

    /** The castling scan: from column `start` toward column `stop`, exclusive, it stops at the first occupied square. */
    method ScanPath(row: int, start: int, stop: int, wing: Wing) returns (able: bool)
      requires Valid() && 0 <= row < 8 && 0 <= start < 8 && 0 <= stop < 8
      ensures able == PathClear(Snapshot(), row, start, stop, wing)
    {
      ghost var st := Snapshot();
      able := true;
      var i := start;
      if wing == QueenSide {
        while i > stop
          invariant if start > stop then stop <= i <= start else i == start
          invariant PathClear(st, row, i, stop, wing) == PathClear(st, row, start, stop, wing)
        {
          if squares[8 * row + i].Some? {
            able := false;
            break;
          }
          i := i - 1;
        }
      } else {
        while i < stop
          invariant if start < stop then start <= i <= stop else i == start
          invariant PathClear(st, row, i, stop, wing) == PathClear(st, row, start, stop, wing)
        {
          if squares[8 * row + i].Some? {
            able := false;
            break;
          }
          i := i + 1;
        }
      }
    }

    /** `King.availableMoves`: the adjacent squares, then the queen-side and the king-side castling squares. */
    method KingMoves(p: nat) returns (r: Outcome<seq<SquareId>>)
      requires Valid() && p < |pieces|
      ensures r == MoveGen.KingMoves(Snapshot(), p)
    {
      if positions[p].None? {
        return Ok([]);
      }
      var directions := new Option<Dir>[8](j requires 0 <= j < 8 => QueenDirs[j]);
      assert directions[..] == QueenDirs;
      var moves := IterateMove(p, directions, 1);
      var queen := CastleTarget(p, QueenSide);
      if queen.Fail? {
        return Fail(queen.error);
      }
      var king := CastleTarget(p, KingSide);
      if king.Fail? {
        return Fail(king.error);
      }
      return Ok(moves + queen.value + king.value);
    }

    /**
     * `setPinningPiece(king)`: from the king's square, distance by distance
     * from 1 to 7, each of the eight rays still open looks at its square,
     * takes the first piece of the king's side as its candidate, records an
     * enemy queen, or rook on a straight ray, or bishop on a diagonal one,
     * met after it as the candidate's pinner, and closes on anything else.
     * Without a king, or for an unbound one, reading its position throws.
     */
    method SetPinningPiece(king: Option<nat>) returns (thrown: Option<Error>)
      requires Valid() && (king.Some? ==> king.value < |pieces|)
      modifies this
      ensures squares == old(squares) && Valid()
      ensures king.None? ==> thrown == Some(TypeError("king.position")) && Snapshot() == old(Snapshot())
      ensures king.Some? && old(positions)[king.value].None? ==>
        thrown == Some(TypeError("position.row")) && Snapshot() == old(Snapshot())
      ensures king.Some? && old(positions)[king.value].Some? ==>
        thrown.None? &&
        Snapshot() == old(Snapshot()).(pinning := ScanKing(old(Snapshot()), old(pieces)[king.value].side,
                                                           old(positions)[king.value].value, old(pinning)))
    {
      if king.None? {
        return Some(TypeError("king.position"));
      }
      var k := king.value;
      if positions[k].None? {
        return Some(TypeError("position.row"));
      }
      var from := positions[k].value;
      var side := pieces[k].side;
      ghost var st := Snapshot();
      var pins := ScanPins(st, from, side);
      pinning := pins;
      assert SquareArray(squares) == st.occ;
      assert Snapshot() == st.(pinning := ScanKing(st, side, from, st.pinning));
      ScanKingValid(st, side, from);
      return None;
    }

    /**
     * The two loops of `setPinningPiece`, distance by distance and ray by
     * ray, collecting the pins they write; nothing in the scan reads the
     * pins, so writing them once at the end leaves the same board.
     */
    method ScanPins(ghost st: State, from: SquareId, side: Side) returns (pins: seq<Option<nat>>)
      requires BoardState.Valid(st) && squares.Length == 64 && st.occ == squares[..]
      requires st.pieces == pieces && st.pinning == pinning
      ensures pins == ScanKing(st, side, from, st.pinning)
    {
      ghost var vs := Views(from);
      var scans := new Scan[|PinRays|](_ => Open(None));
      assert scans[..] == seq(|PinRays|, i => Open(None));
      pins := pinning;
      var distance := 1;
      while distance < 8
        invariant 1 <= distance <= 8 && scans.Length == |PinRays| && |pins| == |pieces|
        invariant CandidatesBelow(scans[..], |pieces|)
        invariant ScanFrom(st, side, vs, scans[..], distance, pins) == ScanKing(st, side, from, st.pinning)
      {
        pins := ScanDistance(st, from, side, scans, distance, pins);
        distance := distance + 1;
      }
    }

    /** The inner loop of `setPinningPiece`: the eight rays, in order, at one distance. */
    method ScanDistance(ghost st: State, from: SquareId, side: Side, scans: array<Scan>, distance: int,
                        pins: seq<Option<nat>>) returns (pins': seq<Option<nat>>)
      requires BoardState.Valid(st) && squares.Length == 64 && st.occ == squares[..] && st.pieces == pieces
      requires |pins| == |pieces| && scans.Length == |PinRays| && 1 <= distance < 8
      requires CandidatesBelow(scans[..], |pieces|)
      modifies scans
      ensures (scans[..], pins') == ScanRays(st, side, Views(from), old(scans[..]), distance, 0, pins)
      ensures CandidatesBelow(scans[..], |pieces|)
    {
      ghost var vs := Views(from);
      pins' := pins;
      var d := 0;
      while d < scans.Length
        invariant 0 <= d <= scans.Length && |pins'| == |pieces|
        invariant CandidatesBelow(scans[..], |pieces|)
        invariant ScanRays(st, side, vs, scans[..], distance, d, pins') == ScanRays(st, side, vs, old(scans[..]), distance, 0, pins)
      {
        pins' := ScanRay(st, from, side, scans, d, distance, pins');
        d := d + 1;
      }
    }

    /** One ray of `setPinningPiece` at one distance. */
    method ScanRay(ghost st: State, from: SquareId, side: Side, scans: array<Scan>, d: nat, distance: int,
                   pins: seq<Option<nat>>) returns (pins': seq<Option<nat>>)
      requires BoardState.Valid(st) && squares.Length == 64 && st.occ == squares[..] && st.pieces == pieces
      requires |pins| == |pieces| && scans.Length == |PinRays| && d < |PinRays| && 1 <= distance < 8
      requires CandidatesBelow(scans[..], |pieces|)
      modifies scans
      ensures scans[..] == old(scans[..])[d := NextScan(st, side, Views(from)[d], old(scans[d]), distance)]
      ensures pins' == WritePin(st, side, Views(from)[d], old(scans[d]), distance, pins)
      ensures CandidatesBelow(scans[..], |pieces|)
    {
      assert Cell(Views(from)[d], distance) == Target(from, PinRays[d].dir, distance);
      pins' := pins;
      if scans[d].Open? {
        var candidate := scans[d].candidate;
        var pos := Target(from, PinRays[d].dir, distance);
        if pos.None? {
          scans[d] := Dead;
        } else if squares[pos.value].Some? {
          var q := squares[pos.value].value;
          if candidate.None? && pieces[q].side == side {
            scans[d] := Open(Some(q));
          } else if candidate.Some? && pieces[q].side != side {
            if pieces[q].kind == Queen {
              pins' := pins[candidate.value := Some(q)];
            } else if PinRays[d].straight && pieces[q].kind == Rook {
              pins' := pins[candidate.value := Some(q)];
            } else if !PinRays[d].straight && pieces[q].kind == Bishop {
              pins' := pins[candidate.value := Some(q)];
            } else {
              scans[d] := Dead;
            }
          } else {
            scans[d] := Dead;
          }
        }
      }
    }

    // ---------------------------------------------------------------- move

    /** The first three lines of `move`: the pins reset, then the black king's and the white king's scans. */
    method ComputePins() returns (thrown: Option<Error>)
      requires Valid()
      modifies this
      ensures squares == old(squares) && Valid()
      ensures Snapshot() == Pins.ComputePins(old(Snapshot())).state
      ensures thrown == Pins.ComputePins(old(Snapshot())).thrown
    {
      ghost var st := Snapshot();
      ResetPins();
      ghost var st0 := Snapshot();
      FindKingSame(st, st0, Black);
      FindKingSame(st, st0, White);
      thrown := PinSide(Black);
      if thrown.Some? {
        return;
      }
      ghost var st1 := Snapshot();
      assert st1 == PinFor(st0, Black).value;
      FindKingSame(st0, st1, White);
      thrown := PinSide(White);
    }

    /** `setPinningPiece(findKing(side))`: the scan from the side's king, or the throw when it has none. */
    method PinSide(side: Side) returns (thrown: Option<Error>)
      requires Valid()
      modifies this
      ensures squares == old(squares) && Valid()
      ensures PinFor(old(Snapshot()), side).Fail? ==>
        thrown == Some(PinFor(old(Snapshot()), side).error) && Snapshot() == old(Snapshot())
      ensures PinFor(old(Snapshot()), side).Ok? ==> thrown.None? && Snapshot() == PinFor(old(Snapshot()), side).value
    {
      var king := FindKing(side);
      thrown := SetPinningPiece(king);
    }

    /** The `new Move(this, moveString)` of `move`, read against the position with its pins. */
    method ReadMove(notation: string) returns (r: Outcome<MoveRec>)
      requires Valid()
      ensures r == ParseMove(Snapshot(), notation)
      ensures r.Ok? ==> Fits(Snapshot(), r.value)
    {
      r := ParseMove(Snapshot(), notation);
    }

    /** The captured piece and the source square are unbound, and the destination binds the promotion piece or the mover. */
    method Relocate(m: MoveRec) returns (thrown: Option<Error>)
      requires Valid() && Fits(Snapshot(), m)
      modifies this, squares
      ensures squares == old(squares) && Valid()
      ensures Snapshot() == Apply.Relocate(old(Snapshot()), m).state
      ensures thrown == Apply.Relocate(old(Snapshot()), m).thrown
    {
      ghost var st := Snapshot();
      ghost var st1 := if m.captured.Some? then BoardState.UnbindPiece(st, m.captured.value) else st;
      if m.captured.Some? {
        UnbindPiece(m.captured.value);
      }
      assert Snapshot() == st1;
      UnbindSquare(m.from);
      ghost var vacated := Vacate(st, m);
      assert Snapshot() == vacated;
      ghost var result := Apply.Relocate(st, m);
      match m.promotesTo
      case Some(pc) =>
        var q := |pieces|;
        AddPromoted(pc);
        assert Snapshot() == AddPiece(vacated, pc);
        BindSquare(m.to, q);
        thrown := None;
        assert Snapshot() == result.state;
      case None =>
        if m.piece.Some? {
          BindSquare(m.to, m.piece.value);
          thrown := None;
        } else if squares[m.to].Some? {
          UnbindSquare(m.to);
          thrown := Some(TypeError("piece._position"));
        } else {
          thrown := None;
        }
        assert Snapshot() == result.state;
    }

    /** `new Piece(...)` for a promotion: the piece joins `_pieces`, unbound and unpinned. */
    method AddPromoted(pc: Piece)
      requires Valid()
      modifies this
      ensures squares == old(squares) && Valid()
      ensures Snapshot() == AddPiece(old(Snapshot()), pc)
    {
      ghost var st := Snapshot();
      pieces, positions, pinning := pieces + [pc], positions + [None], pinning + [None];
      assert SquareArray(squares) == st.occ;
      assert Snapshot() == AddPiece(st, pc);
    }

    /** The castling rook is unbound and bound next to the king: row 0 for black, 7 otherwise; column 5 or 3. */
    method MoveRook(c: Castle) returns (thrown: Option<Error>)
      requires Valid() && (c.rook.Some? ==> c.rook.value < |pieces|)
      modifies this, squares
      ensures squares == old(squares) && Valid()
      ensures Snapshot() == Apply.MoveRook(old(Snapshot()), c).state
      ensures thrown == Apply.MoveRook(old(Snapshot()), c).thrown
    {
      if c.rook.None? {
        return Some(TypeError("rook.unbind"));
      }
      ghost var st := Snapshot();
      var rook := c.rook.value;
      UnbindPiece(rook);
      ghost var unbound := BoardState.UnbindPiece(st, rook);
      assert Snapshot() == unbound;
      var home := (if turn == "b" then 0 else 7) * 8 + (if c.wing == KingSide then 5 else 3);
      assert home == RookHome(st.turn, c.wing);
      BindPiece(rook, home);
      assert Snapshot() == BoardState.BindPiece(unbound, rook, home);
      return None;
    }

    /** The `find` for the king whose file a rook move compares: a king of the turn's side on the board. */
    method CastlingKing() returns (r: Option<nat>)
      requires Valid()
      ensures r == CastlingKingFrom(Snapshot(), 0)
    {
      var i := 0;
      while i < registered
        invariant 0 <= i <= registered
        invariant CastlingKingFrom(Snapshot(), i) == CastlingKingFrom(Snapshot(), 0)
      {
        if positions[i].Some? && pieces[i].kind == King && SideCode(pieces[i].side) == turn {
          return Some(i);
        }
        i := i + 1;
      }
      return None;
    }

    /** The counters: the full-move number after black's move, the half-move clock reset by a capture or a pawn move. */
    method UpdateClocks(m: MoveRec)
      requires Valid() && (m.piece.Some? ==> m.piece.value < |pieces|)
      modifies this
      ensures squares == old(squares)
      ensures Snapshot() == Clocks(old(Snapshot()), m)
    {
      ghost var st := Snapshot();
      var full := if turn == "b" then fullmove + 1 else fullmove;
      var half := if m.captured.Some? || (m.piece.Some? && pieces[m.piece.value].kind == Pawn) then 0 else halfmove + 1;
      fullmove, halfmove, enPassant := full, half, None;
      assert SquareArray(squares) == st.occ;
      assert Snapshot() == Clocks(st, m);
    }

    /** The castling flags and en-passant square after the move, by the mover's kind; the counters have cleared the square. */
    method UpdateFlags(m: MoveRec) returns (thrown: Option<Error>)
      requires Valid() && (m.piece.Some? ==> m.piece.value < |pieces|) && enPassant.None?
      modifies this
      ensures squares == old(squares)
      ensures Snapshot() == Flags(old(Snapshot()), m).state
      ensures thrown == Flags(old(Snapshot()), m).thrown
    {
      ghost var st := Snapshot();
      ghost var r := Flags(st, m);
      if m.piece.None? {
        return None;
      }
      var p := m.piece.value;
      var side := if turn == "b" then Black else White;
      assert side == TurnSide(st.turn);
      match pieces[p].kind
      case King =>
        SetCastling(ClearRight(ClearRight(castling, side, KingSide), side, QueenSide));
        return None;
      case Rook =>
        var king := CastlingKing();
        if positions[p].None? {
          return Some(TypeError("rook.position"));
        }
        if king.None? {
          return Some(TypeError("king.file"));
        }
        SetCastling(ClearRight(castling, side, QueenSide));
        return None;
      case Pawn =>
        if RankOf(m.from) == '2' && RankOf(m.to) == '4' {
          SetEnPassant(Some(Lookup([FileOf(m.from), '3']).value));
        } else if RankOf(m.from) == '7' && RankOf(m.to) == '5' {
          SetEnPassant(Some(Lookup([FileOf(m.from), '6']).value));
        }
        return None;
      case _ =>
        return None;
    }

    /** An assignment to `_castling`. */
    method SetCastling(rights: Rights)
      modifies this
      ensures squares == old(squares) && Snapshot() == old(Snapshot()).(castling := rights)
    {
      ghost var st := Snapshot();
      castling := rights;
      assert SquareArray(squares) == st.occ;
      assert Snapshot() == st.(castling := rights);
    }

    /** An assignment to `_enPassant`. */
    method SetEnPassant(square: Option<SquareId>)
      modifies this
      ensures squares == old(squares) && Snapshot() == old(Snapshot()).(enPassant := square)
    {
      ghost var st := Snapshot();
      enPassant := square;
      assert SquareArray(squares) == st.occ;
      assert Snapshot() == st.(enPassant := square);
    }

    /** The rest of `move` once the pieces are placed: the castling rook, counters, flags, turn and history. */
    method Complete(m: MoveRec) returns (thrown: Option<Error>)
      requires Valid() && (m.piece.Some? ==> m.piece.value < |pieces|)
      requires m.castling.Some? && m.castling.value.rook.Some? ==> m.castling.value.rook.value < |pieces|
      modifies this, squares
      ensures squares == old(squares) && Valid()
      ensures Snapshot() == Apply.Complete(old(Snapshot()), m).state
      ensures thrown == Apply.Complete(old(Snapshot()), m).thrown
    {
      ghost var st := Snapshot();
      ghost var castled := Run(st, None);
      if m.castling.Some? {
        castled := Apply.MoveRook(st, m.castling.value);
        thrown := MoveRook(m.castling.value);
        assert Snapshot() == castled.state;
        if thrown.Some? {
          return;
        }
      }
      ghost var clocked := Clocks(castled.state, m);
      UpdateClocks(m);
      assert Snapshot() == clocked;
      ghost var flagged := Flags(clocked, m);
      thrown := UpdateFlags(m);
      assert Snapshot() == flagged.state && thrown == flagged.thrown;
      if thrown.Some? {
        return;
      }
      Record(m);
      assert Snapshot() == Apply.Record(flagged.state, m);
    }

    /** The last lines of `move`: the turn changes, the cached placement goes stale and the move joins the history. */
    method Record(m: MoveRec)
      requires Valid()
      modifies this
      ensures squares == old(squares) && Valid()
      ensures Snapshot() == Apply.Record(old(Snapshot()), m)
    {
      ghost var st := Snapshot();
      ChangeTurns();
      changed := true;
      history := history + [m];
      assert SquareArray(squares) == st.occ;
      assert Snapshot() == st.(turn := NextTurn(st.turn), changed := true, history := st.history + [m]);
    }

    /**
     * `move(moveString)`: pins, reading, relocation and bookkeeping; the
     * board is left as the step that threw left it, and a completed move is
     * returned.
     */
    method Move(notation: string) returns (r: Outcome<MoveRec>)
      requires Valid()
      modifies this, squares
      ensures squares == old(squares) && Valid()
      ensures Snapshot() == ApplyMove(old(Snapshot()), notation).state
      ensures ApplyMove(old(Snapshot()), notation).thrown.Some? ==> r == Fail(ApplyMove(old(Snapshot()), notation).thrown.value)
      ensures ApplyMove(old(Snapshot()), notation).thrown.None? ==> r == Ok(Parsed(old(Snapshot()), notation).value)
    {
      var thrown := ComputePins();
      if thrown.Some? {
        return Fail(thrown.value);
      }
      var parsed := ReadMove(notation);
      if parsed.Fail? {
        return Fail(parsed.error);
      }
      var m := parsed.value;
      thrown := Relocate(m);
      if thrown.Some? {
        return Fail(thrown.value);
      }
      thrown := Complete(m);
      if thrown.Some? {
        return Fail(thrown.value);
      }
      return Ok(m);
    }

    // ---------------------------------------------------------------- the string form

    /**
     * The `fenstring` getter: a changed board first writes its placement
     * afresh (the squares' symbols, `1` for an empty one, in rows of eight
     * joined by `/`, then runs of eight down to two `1`s replaced by their
     * count) and marks it current; then the six fields are joined by spaces.
     */
    method Fenstring() returns (r: string)
      requires Valid()
      modifies this
      ensures squares == old(squares) && Valid()
      ensures Snapshot() == Refresh(old(Snapshot()))
      ensures r == FenOf(old(Snapshot()))
    {
      ghost var st := Snapshot();
      if changed {
        var text := RawPlacement(Snapshot());
        var n := 8;
        while n >= 2
          invariant 1 <= n <= 8
          invariant Compress(text, n) == WritePlacement(st)
        {
          text := ReplaceAll(text, Ones(n), NatToString(n));
          n := n - 1;
        }
        placement := text;
        changed := false;
      }
      var rights := CastlingField(castling);
      r := Join([placement, turn, rights, EnPassantField(enPassant), IntToString(halfmove), IntToString(fullmove)], " ");
    }

    /** A piece the constructor creates is bound to its square and pushed onto `_pieces`. */
    method Register(s: SquareId, pc: Piece)
      requires Valid() && registered == |pieces|
      modifies this, squares
      ensures squares == old(squares) && Valid() && registered == |pieces|
      ensures Snapshot() == Placement.Register(old(Snapshot()), pc, s)
    {
      ghost var st := Snapshot();
      pieces, positions, pinning, registered := pieces + [pc], positions + [None], pinning + [None], registered + 1;
      assert SquareArray(squares) == st.occ;
      ghost var created := Created(st, pc);
      assert Snapshot() == created;
      BindSquare(s, |pieces| - 1);
      assert Snapshot() == BoardState.BindSquare(created, s, |st.pieces|);
    }

    /**
     * The constructor's callback for one character of row `r`: a piece
     * letter while the row has room creates that piece on the next square, a
     * count from one to eight skips that many squares, and anything else
     * makes the string invalid.
     */
    method ReadChar(r: nat, index: nat, c: char) returns (ok: bool, next: nat)
      requires Valid() && registered == |pieces| && r < 8
      modifies this, squares
      ensures squares == old(squares) && Valid() && registered == |pieces|
      ensures ok <==> PlaceChar(r, index, c).Some?
      ensures ok ==> next == PlaceChar(r, index, c).value.1 &&
                     Snapshot() == Build(old(Snapshot()), PlaceChar(r, index, c).value.0)
    {
      if IsValidPiece(c) && index < 8 {
        var piece := CreateFromSymbol(c).value;
        Register(r * 8 + index, piece);
        assert [(r * 8 + index, piece)][1..] == [];
        return true, index + 1;
      }
      var blanks := ParseInt([c]);
      BlanksParseInt(c);
      if blanks.Some? && 1 <= blanks.value <= 8 {
        return true, index + blanks.value as nat;
      }
      return false, index;
    }

    /** One row of the placement field, its characters in order. */
    method ReadRow(r: nat, row: string) returns (ok: bool)
      requires Valid() && registered == |pieces| && r < 8
      modifies this, squares
      ensures squares == old(squares) && Valid() && registered == |pieces|
      ensures ok <==> PlaceRow(r, 0, row).Some?
      ensures ok ==> Snapshot() == Build(old(Snapshot()), PlaceRow(r, 0, row).value.0)
    {
      ghost var st := Snapshot();
      ghost var placed: seq<Placed> := [];
      var index: nat := 0;
      var j := 0;
      assert row[j..] == row;
      RowAfterNothing(PlaceRow(r, 0, row));
      while j < |row|
        invariant 0 <= j <= |row|
        invariant squares == old(squares) && squares.Length == 64 && Snapshot() == Build(st, placed)
        invariant PlaceRow(r, 0, row) == RowAfter(placed, PlaceRow(r, index, row[j..]))
      {
        var ok, next := ReadChar(r, index, row[j]);
        RowOn(r, index, row, j, placed);
        if !ok {
          return false;
        }
        BuildAppend(st, placed, PlaceChar(r, index, row[j]).value.0);
        placed := placed + PlaceChar(r, index, row[j]).value.0;
        index := next;
        j := j + 1;
      }
      assert row[j..] == [];
      assert placed + [] == placed;
      return true;
    }

    /** The constructor's loop over the eight rows of the placement field. */
    method ReadRows(rows: seq<string>) returns (ok: bool)
      requires Valid() && registered == |pieces| && |rows| == 8
      modifies this, squares
      ensures squares == old(squares) && Valid() && registered == |pieces|
      ensures ok <==> PlaceRows(rows, 0).Some?
      ensures ok ==> Snapshot() == Build(old(Snapshot()), PlaceRows(rows, 0).value)
    {
      ghost var st := Snapshot();
      ghost var placed: seq<Placed> := [];
      var i := 0;
      RowsAfterNothing(PlaceRows(rows, 0));
      while i < 8
        invariant 0 <= i <= 8
        invariant squares == old(squares) && squares.Length == 64 && Snapshot() == Build(st, placed)
        invariant PlaceRows(rows, 0) == RowsAfter(placed, PlaceRows(rows, i))
      {
        var ok := ReadRow(i, rows[i]);
        RowsOn(rows, i, placed);
        if !ok {
          return false;
        }
        BuildAppend(st, placed, PlaceRow(i, 0, rows[i]).value.0);
        placed := placed + PlaceRow(i, 0, rows[i]).value.0;
        i := i + 1;
      }
      assert placed + [] == placed;
      return true;
    }

    /**
     * `new Board(startPosition)`: the string is cut into six fields, the
     * turn, castling and en-passant fields are checked, the squares are
     * created, the eight rows of the placement are read onto them, and the
     * clocks are checked; any failed check throws the invalid-string error.
     */
    static method Create(start: Option<string>) returns (r: Outcome<Board>)
      ensures r.Fail? <==> Decode(start).Fail?
      ensures r.Fail? ==> r.error == Decode(start).error
      ensures r.Ok? ==>
        fresh(r.value) && fresh(r.value.squares) && r.value.Valid() && r.value.Snapshot() == Decode(start).value
    {
      var text := if start.Some? then start.value else "undefined";
      var f := DefaultFields;
      if start.Some? {
        f := NonEmptyParts(Split(start.value, " "));
        if |f| != 6 {
          return Fail(InvalidFen(text));
        }
      }
      assert Decode(start) == DecodeFields(f, text);
      r := FromFields(f, text);
    }

    /** The constructor once the string is cut into its six fields. */
    static method FromFields(f: seq<string>, text: string) returns (r: Outcome<Board>)
      requires |f| == 6
      ensures r.Fail? <==> DecodeFields(f, text).Fail?
      ensures r.Fail? ==> r.error == InvalidFen(text)
      ensures r.Ok? ==>
        fresh(r.value) && fresh(r.value.squares) && r.value.Valid() && r.value.Snapshot() == DecodeFields(f, text).value
    {
      var turn := ToLower(f[1]);
      if IndexOf("bw", turn).None? || !CastlingFieldOk(f[2]) {
        return Fail(InvalidFen(text));
      }
      var rights := ReadRights(f[2]);
      var ep := ReadEnPassant(f[3]);
      if ep.None? {
        return Fail(InvalidFen(text));
      }
      var read := ReadBoard(f[0]);
      if read.None? {
        return Fail(InvalidFen(text));
      }
      var b := read.value;
      ghost var board := ReadPlacement(f[0]).value;
      var half := ReadClock(f[4]);
      var full := ReadClock(f[5]);
      if half.None? || full.None? {
        return Fail(InvalidFen(text));
      }
      ghost var decoded := board.(turn := turn, castling := rights, enPassant := ep.value,
                                  halfmove := half.value, fullmove := full.value, placement := f[0], changed := false);
      assert DecodeFields(f, text) == Ok(decoded);
      ReadPlacementFresh(f[0]);
      b.SetFields(f[0], turn, rights, ep.value, half.value, full.value);
      assert b.Snapshot() == decoded;
      return Ok(b);
    }

    /** The constructor's squares, created empty, with the placement field's eight rows read onto them. */
    static method ReadBoard(field: string) returns (r: Option<Board>)
      ensures r.None? <==> ReadPlacement(field).None?
      ensures r.Some? ==>
        fresh(r.value) && fresh(r.value.squares) && r.value.Valid() && r.value.Snapshot() == ReadPlacement(field).value
    {
      var b := new Board.Empty();
      var rows := Split(field, "/");
      if |rows| != 8 {
        return None;
      }
      var ok := b.ReadRows(rows);
      if !ok {
        return None;
      }
      return Some(b);
    }

    /** The constructor's last assignments: the cached placement, the turn, the flags, the en-passant square and the clocks. */
    method SetFields(field: string, t: string, rights: Rights, ep: Option<SquareId>, half: int, full: int)
      requires Valid()
      modifies this
      ensures squares == old(squares) && Valid()
      ensures Snapshot() == old(Snapshot()).(placement := field, turn := t, castling := rights, enPassant := ep,
                                             halfmove := half, fullmove := full)
    {
      ghost var st := Snapshot();
      placement, turn, castling, enPassant, halfmove, fullmove := field, t, rights, ep, half, full;
      assert SquareArray(squares) == st.occ;
      assert Snapshot() == st.(placement := field, turn := t, castling := rights, enPassant := ep,
                                             halfmove := half, fullmove := full);
      ValidSameBoard(st, Snapshot());
    }

    /** `fromPieces(pieces)`: a new board from the given back rank, both sides, white to move. */
    static method FromPieces(pieces: string) returns (r: Outcome<Board>)
      ensures r.Fail? <==> Fen.FromPieces(pieces).Fail?
      ensures r.Ok? ==> fresh(r.value) && r.value.Valid() && r.value.Snapshot() == Fen.FromPieces(pieces).value
    {
      var text := ToLower(pieces) + "/pppppppp/8/8/8/8/PPPPPPPP/" + ToUpper(pieces) + " w KQkq - 0 1";
      r := Create(Some(text));
    }
  }

  /**
   * One distance of the slide loop: nothing found ends the moves, and
   * otherwise the squares found come next, before the rest of the slide
   * from the directions still live.
   */
  lemma SlideOn(st: State, side: Side, from: SquareId, live: seq<Option<Dir>>, i: int,
                moves: seq<SquareId>, total: seq<SquareId>)
    requires Valid(st) && 1 <= i < 8
    requires moves + Slide(st, side, from, live, i) == total
    ensures var steps := StepTargets(st, side, from, live, i);
      && (steps == [] ==> moves == total)
      && (steps != [] ==> (moves + steps) + Slide(st, side, from, StepAlive(st, from, live, i), i + 1) == total)
  {
    var steps := StepTargets(st, side, from, live, i);
    var rest := Slide(st, side, from, StepAlive(st, from, live, i), i + 1);
    if steps != [] {
      assert Slide(st, side, from, live, i) == steps + rest;
      assert (moves + steps) + rest == moves + (steps + rest);
    }
  }

  /** The contents of the square array, which depend on nothing but its elements. */
  function SquareArray(squares: array<Option<nat>>): (r: seq<Option<nat>>)
    reads squares
    ensures r == squares[..]
  {
    squares[..]
  }

  /** The stepper over one more direction lists that direction's square after the others'. */
  lemma StepTargetsSnoc(st: State, side: Side, from: SquareId, dirs: seq<Option<Dir>>, d: nat, k: int)
    requires Valid(st) && d < |dirs|
    ensures StepTargets(st, side, from, dirs[..d + 1], k) == StepTargets(st, side, from, dirs[..d], k) + StepOne(st, side, from, dirs[d], k)
  {
    assert dirs[..d + 1][..d] == dirs[..d];
  }

  /** Creating one more piece after a list is the last step of building the longer list. */
  lemma {:induction false} BuildSnoc(st: State, placed: seq<Placed>, x: Placed)
    requires Valid(st) && st.registered == |st.pieces|
    ensures Build(st, placed + [x]) == Register(Build(st, placed), x.1, x.0)
    decreases |placed|
  {
    if placed == [] {
      assert [x][1..] == [];
    } else {
      assert (placed + [x])[1..] == placed[1..] + [x];
      BuildSnoc(Register(st, placed[0].1, placed[0].0), placed[1..], x);
    }
  }

  /** Building two lists in turn is building their concatenation. */
  lemma {:induction false} BuildAppend(st: State, a: seq<Placed>, b: seq<Placed>)
    requires Valid(st) && st.registered == |st.pieces|
    ensures Build(Build(st, a), b) == Build(st, a + b)
    decreases |a|
  {
    if a == [] {
      assert a + b == b;
    } else {
      assert (a + b)[1..] == a[1..] + b;
      BuildAppend(Register(st, a[0].1, a[0].0), a[1..], b);
    }
  }

  /** A row's reading so far, followed by the reading of the rest of the row. */
  function RowAfter(placed: seq<Placed>, rest: Option<(seq<Placed>, nat)>): (o: Option<(seq<Placed>, nat)>)
    ensures o.Some? <==> rest.Some?
    ensures o.Some? ==> o.value == (placed + rest.value.0, rest.value.1)
  {
    match rest
    case None => None
    case Some(x) => Some((placed + x.0, x.1))
  }

  /** The rows read so far, followed by the reading of the remaining rows. */
  function RowsAfter(placed: seq<Placed>, rest: Option<seq<Placed>>): (o: Option<seq<Placed>>)
    ensures o.Some? <==> rest.Some?
    ensures o.Some? ==> o.value == placed + rest.value
  {
    match rest
    case None => None
    case Some(x) => Some(placed + x)
  }

  lemma RowAfterAppend(a: seq<Placed>, b: seq<Placed>, rest: Option<(seq<Placed>, nat)>)
    ensures RowAfter(a, RowAfter(b, rest)) == RowAfter(a + b, rest)
  {
    if rest.Some? {
      assert a + (b + rest.value.0) == (a + b) + rest.value.0;
    }
  }

  lemma RowsAfterAppend(a: seq<Placed>, b: seq<Placed>, rest: Option<seq<Placed>>)
    ensures RowsAfter(a, RowsAfter(b, rest)) == RowsAfter(a + b, rest)
  {
    if rest.Some? {
      assert a + (b + rest.value) == (a + b) + rest.value;
    }
  }

  /**
   * One character of the row loop: one that does not read makes the whole
   * row unreadable, and one that reads adds its squares to those read so far
   * and continues the row from its new column.
   */
  lemma RowOn(r: nat, index: nat, row: string, j: nat, placed: seq<Placed>)
    requires r < 8 && j < |row|
    requires PlaceRow(r, 0, row) == RowAfter(placed, PlaceRow(r, index, row[j..]))
    ensures PlaceChar(r, index, row[j]).None? ==> PlaceRow(r, 0, row).None?
    ensures PlaceChar(r, index, row[j]).Some? ==>
      var step := PlaceChar(r, index, row[j]).value;
      PlaceRow(r, 0, row) == RowAfter(placed + step.0, PlaceRow(r, step.1, row[j + 1..]))
  {
    var rest := row[j..];
    assert rest[0] == row[j];
    if PlaceChar(r, index, row[j]).Some? {
      var step := PlaceChar(r, index, row[j]).value;
      assert rest[1..] == row[j + 1..];
      assert PlaceRow(r, index, rest) == RowAfter(step.0, PlaceRow(r, step.1, row[j + 1..]));
      RowAfterAppend(placed, step.0, PlaceRow(r, step.1, row[j + 1..]));
    }
  }

  /**
   * One row of the rows loop: a row that does not read makes the whole
   * placement unreadable, and one that reads adds its squares to those read
   * so far.
   */
  lemma RowsOn(rows: seq<string>, i: nat, placed: seq<Placed>)
    requires |rows| == 8 && i < 8
    requires PlaceRows(rows, 0) == RowsAfter(placed, PlaceRows(rows, i))
    ensures PlaceRow(i, 0, rows[i]).None? ==> PlaceRows(rows, 0).None?
    ensures PlaceRow(i, 0, rows[i]).Some? ==>
      PlaceRows(rows, 0) == RowsAfter(placed + PlaceRow(i, 0, rows[i]).value.0, PlaceRows(rows, i + 1))
  {
    if PlaceRow(i, 0, rows[i]).Some? {
      RowsAfterAppend(placed, PlaceRow(i, 0, rows[i]).value.0, PlaceRows(rows, i + 1));
    }
  }

  lemma RowAfterNothing(rest: Option<(seq<Placed>, nat)>)
    ensures RowAfter([], rest) == rest
  {
    if rest.Some? {
      assert [] + rest.value.0 == rest.value.0;
    }
  }

  lemma RowsAfterNothing(rest: Option<seq<Placed>>)
    ensures RowsAfter([], rest) == rest
  {
    if rest.Some? {
      assert [] + rest.value == rest.value;
    }
  }
}
