/**
 * Pseudo-legal destinations (the `availableMoves` getters of the six piece
 * classes and the shared ray stepper `iterateMove`), as functions of the
 * position state. The `Chess.Board` class computes the same lists with the
 * source's loops; the lemmas here say what the lists contain.
 */
module MoveGen {
  import opened Util
  import opened Squares
  import opened Pieces
  import opened BoardState

  /** A step direction: a row delta and a column delta. */
  datatype Dir = Dir(dr: int, dc: int)

  /** The square `k` steps from `from` in direction `d`, if it is on the board. */
  function Target(from: SquareId, d: Dir, k: int): Option<SquareId> {
    At(Row(from) + k * d.dr, Column(from) + k * d.dc)
  }

  /** A square a piece of `side` may land on: empty or held by the other side. */
  predicate Landable(st: State, side: Side, t: SquareId)
    requires Valid(st)
  {
    st.occ[t].None? || st.pieces[st.occ[t].value].side == Opposite(side)
  }

  const KnightDirs: seq<Option<Dir>> := [
    Some(Dir(2, 1)), Some(Dir(-2, 1)), Some(Dir(2, -1)), Some(Dir(-2, -1)),
    Some(Dir(1, 2)), Some(Dir(-1, 2)), Some(Dir(1, -2)), Some(Dir(-1, -2))]

  const BishopDirs: seq<Option<Dir>> := [
    Some(Dir(-1, -1)), Some(Dir(-1, 1)), Some(Dir(1, -1)), Some(Dir(1, 1))]

  const RookDirs: seq<Option<Dir>> := [
    Some(Dir(-1, 0)), Some(Dir(0, -1)), Some(Dir(1, 0)), Some(Dir(0, 1))]

  /** The queen's and the king's eight directions, orthogonal ones first. */
  const QueenDirs: seq<Option<Dir>> := RookDirs + BishopDirs

  // ------------------------------------------------------------ iterateMove

  /** Direction `o` is live and its square at distance `k` is `t`, a landable square. */
  predicate Hit(st: State, side: Side, from: SquareId, o: Option<Dir>, k: int, t: SquareId)
    requires Valid(st)
  {
    o.Some? && Target(from, o.value, k) == Some(t) && Landable(st, side, t)
  }

  /** What one live direction contributes at distance `k`. */
  function StepOne(st: State, side: Side, from: SquareId, o: Option<Dir>, k: int): (r: seq<SquareId>)
    requires Valid(st)
    ensures forall t :: t in r <==> Hit(st, side, from, o, k, t)
  {
    match o
    case None => []
    case Some(d) =>
      match Target(from, d, k)
      case None => []
      case Some(t) => if Landable(st, side, t) then [t] else []
  }

  /**
   * The squares `iterateMove` returns: for each live direction in order,
   * the square at distance `k` when it is on the board and landable.
   */
  function StepTargets(st: State, side: Side, from: SquareId, dirs: seq<Option<Dir>>, k: int): (r: seq<SquareId>)
    requires Valid(st)
    ensures forall t :: t in r <==> exists i :: 0 <= i < |dirs| && Hit(st, side, from, dirs[i], k, t)
    decreases |dirs|
  {
    if dirs == [] then []
    else
      var front := dirs[..|dirs| - 1];
      var last := dirs[|dirs| - 1];
      var a := StepTargets(st, side, from, front, k);
      var b := StepOne(st, side, from, last, k);
      forall t | t in a + b
        ensures exists i :: 0 <= i < |dirs| && Hit(st, side, from, dirs[i], k, t)
      {
        if t in a {
          var i :| 0 <= i < |front| && Hit(st, side, from, front[i], k, t);
          assert dirs[i] == front[i];
        } else {
          assert Hit(st, side, from, dirs[|dirs| - 1], k, t);
        }
      }
      forall t, i | 0 <= i < |dirs| && Hit(st, side, from, dirs[i], k, t)
        ensures t in a + b
      {
        if i < |dirs| - 1 {
          assert Hit(st, side, from, front[i], k, t);
        }
      }
      a + b
  }

  /** The direction as `iterateMove` leaves it: dead once its square is off the board or occupied. */
  function KeepAlive(st: State, from: SquareId, o: Option<Dir>, k: int): Option<Dir>
    requires Valid(st)
  {
    match o
    case None => None
    case Some(d) =>
      match Target(from, d, k)
      case None => None
      case Some(t) => if st.occ[t].None? then o else None
  }

  /** The directions after distance `k`: one stays live iff it was and its square there is on the board and empty. */
  function StepAlive(st: State, from: SquareId, dirs: seq<Option<Dir>>, k: int): (r: seq<Option<Dir>>)
    requires Valid(st)
    ensures |r| == |dirs|
    ensures forall i :: 0 <= i < |dirs| ==>
      (r[i].Some? <==> dirs[i].Some? && Target(from, dirs[i].value, k).Some? &&
                       st.occ[Target(from, dirs[i].value, k).value].None?)
    ensures forall i :: 0 <= i < |dirs| && r[i].Some? ==> r[i] == dirs[i]
  {
    seq(|dirs|, i requires 0 <= i < |dirs| => KeepAlive(st, from, dirs[i], k))
  }

  // ------------------------------------------------------------ sliding rays

  /**
   * The bishop, rook and queen loop: distances 1 to 7, stopping at the
   * first distance that yields no square.
   */
  function Slide(st: State, side: Side, from: SquareId, dirs: seq<Option<Dir>>, i: int): seq<SquareId>
    requires Valid(st)
    decreases 8 - i
  {
    if i >= 8 then []
    else
      var steps := StepTargets(st, side, from, dirs, i);
      if steps == [] then [] else steps + Slide(st, side, from, StepAlive(st, from, dirs, i), i + 1)
  }

  /** Every square strictly before distance `k` along `d` is on the board and empty. */
  ghost predicate Clear(st: State, from: SquareId, d: Dir, k: int)
    requires Valid(st)
  {
    forall j :: 1 <= j < k ==> Target(from, d, j).Some? && st.occ[Target(from, d, j).value].None?
  }

  /** `t` lies `k` steps along `d`, all squares before it are empty and it is landable. */
  ghost predicate Reaches(st: State, side: Side, from: SquareId, d: Dir, k: int, t: SquareId)
    requires Valid(st)
  {
    1 <= k < 8 && Clear(st, from, d, k) && Target(from, d, k) == Some(t) && Landable(st, side, t)
  }

  /** The directions that are still live at distance `i`. */
  ghost function Survivors(st: State, from: SquareId, dirs: seq<Option<Dir>>, i: int): (r: seq<Option<Dir>>)
    requires Valid(st)
    ensures |r| == |dirs|
  {
    seq(|dirs|, d requires 0 <= d < |dirs| =>
      if dirs[d].Some? && Clear(st, from, dirs[d].value, i) then dirs[d] else None)
  }

  lemma ClearNext(st: State, from: SquareId, d: Dir, i: int)
    requires Valid(st) && i >= 1
    ensures Clear(st, from, d, i + 1) <==>
      Clear(st, from, d, i) && Target(from, d, i).Some? && st.occ[Target(from, d, i).value].None?
  {
    if Clear(st, from, d, i) && Target(from, d, i).Some? && st.occ[Target(from, d, i).value].None? {
      forall j | 1 <= j < i + 1
        ensures Target(from, d, j).Some? && st.occ[Target(from, d, j).value].None?
      {
        if j < i {
          assert Clear(st, from, d, i);
        }
      }
    }
  }

  lemma SurvivorsStep(st: State, from: SquareId, dirs: seq<Option<Dir>>, i: int)
    requires Valid(st) && i >= 1
    ensures StepAlive(st, from, Survivors(st, from, dirs, i), i) == Survivors(st, from, dirs, i + 1)
  {
    var live := Survivors(st, from, dirs, i);
    var a := StepAlive(st, from, live, i);
    var b := Survivors(st, from, dirs, i + 1);
    forall d | 0 <= d < |dirs| ensures a[d] == b[d] {
      assert a[d] == KeepAlive(st, from, live[d], i);
      if dirs[d].Some? {
        ClearNext(st, from, dirs[d].value, i);
      }
    }
  }

  /** `t` is reached along one of `dirs` at exactly distance `i`. */
  ghost predicate ReachedAt(st: State, side: Side, from: SquareId, dirs: seq<Option<Dir>>, i: int, t: SquareId)
    requires Valid(st)
  {
    exists d :: 0 <= d < |dirs| && dirs[d].Some? && Reaches(st, side, from, dirs[d].value, i, t)
  }

  /** At distance `i` the surviving directions yield exactly the squares reached at that distance. */
  lemma StepOfSurvivors(st: State, side: Side, from: SquareId, dirs: seq<Option<Dir>>, i: int, t: SquareId)
    requires Valid(st) && 1 <= i < 8
    ensures t in StepTargets(st, side, from, Survivors(st, from, dirs, i), i) <==> ReachedAt(st, side, from, dirs, i, t)
  {
    var live := Survivors(st, from, dirs, i);
    if t in StepTargets(st, side, from, live, i) {
      var d :| 0 <= d < |live| && Hit(st, side, from, live[d], i, t);
      assert live[d] == dirs[d];
      assert Reaches(st, side, from, dirs[d].value, i, t);
    }
    if ReachedAt(st, side, from, dirs, i, t) {
      var d :| 0 <= d < |dirs| && dirs[d].Some? && Reaches(st, side, from, dirs[d].value, i, t);
      assert live[d] == dirs[d];
      assert Hit(st, side, from, live[d], i, t);
    }
  }

  /** `t` is reached along one of `dirs` at a distance of at least `i`. */
  ghost predicate ReachedFrom(st: State, side: Side, from: SquareId, dirs: seq<Option<Dir>>, i: int, t: SquareId)
    requires Valid(st)
  {
    exists d, k :: 0 <= d < |dirs| && dirs[d].Some? && i <= k && Reaches(st, side, from, dirs[d].value, k, t)
  }

  /** A square reached at distance `i` or beyond is reached at `i` or at `i + 1` or beyond. */
  lemma ReachedSplit(st: State, side: Side, from: SquareId, dirs: seq<Option<Dir>>, i: int, t: SquareId)
    requires Valid(st) && 1 <= i < 8
    ensures ReachedFrom(st, side, from, dirs, i, t) <==>
      ReachedAt(st, side, from, dirs, i, t) || ReachedFrom(st, side, from, dirs, i + 1, t)
  {
    if ReachedFrom(st, side, from, dirs, i, t) {
      var d, k :| 0 <= d < |dirs| && dirs[d].Some? && i <= k && Reaches(st, side, from, dirs[d].value, k, t);
      if k == i {
        assert dirs[d].Some? && Reaches(st, side, from, dirs[d].value, i, t);
        assert ReachedAt(st, side, from, dirs, i, t);
      } else {
        assert i + 1 <= k;
      }
    }
  }

  /** When no surviving direction yields a square at distance `i`, nothing further is reached. */
  lemma NothingBeyond(st: State, side: Side, from: SquareId, dirs: seq<Option<Dir>>, i: int, t: SquareId)
    requires Valid(st) && 1 <= i < 8
    requires StepTargets(st, side, from, Survivors(st, from, dirs, i), i) == []
    ensures !ReachedFrom(st, side, from, dirs, i, t)
  {
    if ReachedFrom(st, side, from, dirs, i, t) {
      var d, k :| 0 <= d < |dirs| && dirs[d].Some? && i <= k && Reaches(st, side, from, dirs[d].value, k, t);
      var dir := dirs[d].value;
      var u := if k == i then t else Target(from, dir, i).value;
      assert Reaches(st, side, from, dir, i, u);
      StepOfSurvivors(st, side, from, dirs, i, u);
      assert false;
    }
  }

  /** One distance of the sliding loop, followed by the rest of the loop on the surviving directions. */
  lemma SlideStep(st: State, side: Side, from: SquareId, dirs: seq<Option<Dir>>, i: int, t: SquareId)
    requires Valid(st) && 1 <= i < 8
    requires StepTargets(st, side, from, Survivors(st, from, dirs, i), i) != []
    ensures t in Slide(st, side, from, Survivors(st, from, dirs, i), i) <==>
      t in StepTargets(st, side, from, Survivors(st, from, dirs, i), i) ||
      t in Slide(st, side, from, Survivors(st, from, dirs, i + 1), i + 1)
  {
    var live := Survivors(st, from, dirs, i);
    var steps := StepTargets(st, side, from, live, i);
    var rest := Slide(st, side, from, StepAlive(st, from, live, i), i + 1);
    assert Slide(st, side, from, live, i) == steps + rest;
    SurvivorsStep(st, from, dirs, i);
    assert t in steps + rest <==> t in steps || t in rest;
  }

  /** The loop's answer at distance `i` follows from its answer at `i + 1`. */
  lemma SlideFromStep(st: State, side: Side, from: SquareId, dirs: seq<Option<Dir>>, i: int, t: SquareId)
    requires Valid(st) && 1 <= i < 8
    requires StepTargets(st, side, from, Survivors(st, from, dirs, i), i) != []
    requires t in Slide(st, side, from, Survivors(st, from, dirs, i + 1), i + 1) <==> ReachedFrom(st, side, from, dirs, i + 1, t)
    ensures t in Slide(st, side, from, Survivors(st, from, dirs, i), i) <==> ReachedFrom(st, side, from, dirs, i, t)
  {
    SlideStep(st, side, from, dirs, i, t);
    StepOfSurvivors(st, side, from, dirs, i, t);
    ReachedSplit(st, side, from, dirs, i, t);
  }

  lemma {:induction false} SlideFrom(st: State, side: Side, from: SquareId, dirs: seq<Option<Dir>>, i: int, t: SquareId)
    requires Valid(st) && 1 <= i <= 8
    ensures t in Slide(st, side, from, Survivors(st, from, dirs, i), i) <==> ReachedFrom(st, side, from, dirs, i, t)
    decreases 8 - i
  {
    if i == 8 {
      NothingPastEdge(st, side, from, dirs, t);
    } else if StepTargets(st, side, from, Survivors(st, from, dirs, i), i) == [] {
      SlideStops(st, side, from, dirs, i, t);
    } else {
      SlideFrom(st, side, from, dirs, i + 1, t);
      SlideFromStep(st, side, from, dirs, i, t);
    }
  }

  /** Nothing is reached at distance 8 or beyond: every ray has left the board. */
  lemma NothingPastEdge(st: State, side: Side, from: SquareId, dirs: seq<Option<Dir>>, t: SquareId)
    requires Valid(st)
    ensures Slide(st, side, from, Survivors(st, from, dirs, 8), 8) == []
    ensures !ReachedFrom(st, side, from, dirs, 8, t)
  {
  }

  /** When no surviving direction yields a square at distance `i`, the loop stops with nothing more. */
  lemma SlideStops(st: State, side: Side, from: SquareId, dirs: seq<Option<Dir>>, i: int, t: SquareId)
    requires Valid(st) && 1 <= i < 8
    requires StepTargets(st, side, from, Survivors(st, from, dirs, i), i) == []
    ensures Slide(st, side, from, Survivors(st, from, dirs, i), i) == []
    ensures !ReachedFrom(st, side, from, dirs, i, t)
  {
    NothingBeyond(st, side, from, dirs, i, t);
  }

  /**
   * Each ray runs to its first blocker: a square is a sliding destination
   * iff it lies along one of the directions, every square before it is on
   * the board and empty, and it is empty or holds an enemy piece.
   */
  lemma SlideMembers(st: State, side: Side, from: SquareId, dirs: seq<Option<Dir>>, t: SquareId)
    requires Valid(st)
    ensures t in Slide(st, side, from, dirs, 1) <==>
      exists d, k :: 0 <= d < |dirs| && dirs[d].Some? && Reaches(st, side, from, dirs[d].value, k, t)
  {
    assert Survivors(st, from, dirs, 1) == dirs;
    SlideFrom(st, side, from, dirs, 1, t);
    if exists d, k :: 0 <= d < |dirs| && dirs[d].Some? && Reaches(st, side, from, dirs[d].value, k, t) {
      var d, k :| 0 <= d < |dirs| && dirs[d].Some? && Reaches(st, side, from, dirs[d].value, k, t);
      assert 1 <= k;
    }
  }

  // ------------------------------------------------------------ pins

  /**
   * The restriction every non-king piece applies last: a pinned piece keeps
   * only its pinner's square, and only if that square was a destination.
   */
  function PinRestrict(st: State, p: nat, moves: seq<SquareId>): (r: seq<SquareId>)
    requires Valid(st) && p < |st.pieces|
    ensures st.pinning[p].None? ==> r == moves
    ensures st.pinning[p].Some? ==> |r| <= 1
    ensures st.pinning[p].Some? ==>
      forall t :: t in r <==> (st.positions[st.pinning[p].value] == Some(t) && t in moves)
  {
    match st.pinning[p]
    case None => moves
    case Some(a) =>
      match st.positions[a]
      case None => []
      case Some(s) => if s in moves then [s] else []
  }

  // ------------------------------------------------------------ per kind

  /** A diagonal pawn target: an enemy piece stands there or it is the en-passant square. */
  function PawnCapture(st: State, side: Side, o: Option<SquareId>): (r: seq<SquareId>)
    requires Valid(st)
    ensures forall t :: t in r <==>
      (o == Some(t) && ((st.occ[t].Some? && st.pieces[st.occ[t].value].side == Opposite(side)) || st.enPassant == Some(t)))
  {
    match o
    case None => []
    case Some(t) =>
      if (st.occ[t].Some? && st.pieces[st.occ[t].value].side == Opposite(side)) || st.enPassant == Some(t)
      then [t] else []
  }

  function Lift(s: seq<SquareId>): (r: seq<Option<SquareId>>)
    ensures |r| == |s| && forall i :: 0 <= i < |s| ==> r[i] == Some(s[i])
  {
    seq(|s|, i requires 0 <= i < |s| => Some(s[i]))
  }

  /** The pawn's one-step square, always listed, even when occupied or off the board. */
  function PawnForward(st: State, p: nat): Option<SquareId>
    requires Valid(st) && p < |st.pieces| && st.positions[p].Some?
  {
    var from := st.positions[p].value;
    At(Row(from) + (if st.pieces[p].side == Black then 1 else -1), Column(from))
  }

  /** The pawn's two diagonal targets that hold an enemy or the en-passant square. */
  function PawnCaptures(st: State, p: nat): seq<SquareId>
    requires Valid(st) && p < |st.pieces| && st.positions[p].Some?
  {
    var from := st.positions[p].value;
    var side := st.pieces[p].side;
    var step := if side == Black then 1 else -1;
    PawnCapture(st, side, At(Row(from) + step, Column(from) - 1))
      + PawnCapture(st, side, At(Row(from) + step, Column(from) + 1))
  }

  /**
   * `Pawn.availableMoves`: the one-step square pushed unconditionally, then
   * again if it is empty, followed by the two-step square from row 1 or 6
   * when both are empty, then the captures; a pinned pawn keeps only its
   * pinner's square and only when that is one of its captures.
   */
  function PawnMoves(st: State, p: nat): seq<Option<SquareId>>
    requires Valid(st) && p < |st.pieces|
  {
    match st.positions[p]
    case None => []
    case Some(from) =>
      var side := st.pieces[p].side;
      var step := if side == Black then 1 else -1;
      var first := PawnForward(st, p);
      var pushes :=
        [first] +
        if first.Some? && st.occ[first.value].None? then
          [first] +
          if Row(from) == 1 || Row(from) == 6 then
            var second := At(Row(from) + 2 * step, Column(from));
            if second.Some? && st.occ[second.value].None? then [second] else []
          else []
        else [];
      var captures := PawnCaptures(st, p);
      match st.pinning[p]
      case Some(a) =>
        if st.positions[a].Some? && st.positions[a].value in captures then [st.positions[a]] else []
      case None => pushes + Lift(captures)
  }

  /** The destinations produced by `iterateMove` at one distance, or none for an unbound piece. */
  function Adjacent(st: State, p: nat, dirs: seq<Option<Dir>>): seq<SquareId>
    requires Valid(st) && p < |st.pieces|
  {
    match st.positions[p]
    case None => []
    case Some(from) => StepTargets(st, st.pieces[p].side, from, dirs, 1)
  }

  /** `Knight.availableMoves`. */
  function KnightMoves(st: State, p: nat): seq<SquareId>
    requires Valid(st) && p < |st.pieces|
  {
    PinRestrict(st, p, Adjacent(st, p, KnightDirs))
  }

  /** The sliding loop of `Bishop`, `Rook` and `Queen` before the pin restriction. */
  function SlideFromPiece(st: State, p: nat, dirs: seq<Option<Dir>>): seq<SquareId>
    requires Valid(st) && p < |st.pieces|
  {
    match st.positions[p]
    case None => []
    case Some(from) => Slide(st, st.pieces[p].side, from, dirs, 1)
  }

  /** `availableMoves` of a bishop, rook or queen moving along `dirs`. */
  function SliderMoves(st: State, p: nat, dirs: seq<Option<Dir>>): seq<SquareId>
    requires Valid(st) && p < |st.pieces|
  {
    PinRestrict(st, p, SlideFromPiece(st, p, dirs))
  }

  /** The rook `King.availableMoves` looks for on a wing. */
  predicate CastlingRook(st: State, i: nat, side: Side, column: int, wing: Wing)
    requires Valid(st) && i < |st.pieces|
  {
    && st.pieces[i].kind == Rook
    && st.positions[i].Some?
    && st.pieces[i].side == side
    && (if wing == QueenSide then Column(st.positions[i].value) < column else Column(st.positions[i].value) > column)
  }

  /** The first piece of the board's piece list, from index `i`, that is such a rook. */
  function FindRookFrom(st: State, side: Side, column: int, wing: Wing, i: nat): (r: Option<nat>)
    requires Valid(st)
    ensures r.Some? ==> i <= r.value < st.registered && CastlingRook(st, r.value, side, column, wing)
    ensures r.Some? ==> forall j :: i <= j < r.value ==> !CastlingRook(st, j, side, column, wing)
    ensures r.None? ==> forall j :: i <= j < st.registered ==> !CastlingRook(st, j, side, column, wing)
    decreases st.registered - i
  {
    if i >= st.registered then None
    else if CastlingRook(st, i, side, column, wing) then Some(i)
    else FindRookFrom(st, side, column, wing, i + 1)
  }

  /**
   * The castling scan: from column `i` toward column `stop` (exclusive),
   * false at the first occupied square.
   */
  function PathClear(st: State, row: int, i: int, stop: int, wing: Wing): bool
    requires Valid(st)
    requires 0 <= row < 8 && 0 <= i < 8 && 0 <= stop < 8
    decreases if wing == QueenSide then i - stop else stop - i
  {
    match wing
    case QueenSide =>
      if i <= stop then true
      else if st.occ[8 * row + i].Some? then false
      else PathClear(st, row, i - 1, stop, wing)
    case KingSide =>
      if i >= stop then true
      else if st.occ[8 * row + i].Some? then false
      else PathClear(st, row, i + 1, stop, wing)
  }

  /** The square a castling king would land on: column 6 on the king side, column 2 on the queen side. */
  function CastleSquare(from: SquareId, wing: Wing): (s: SquareId)
    ensures Row(s) == Row(from)
    ensures Column(s) == if wing == KingSide then 6 else 2
  {
    8 * Row(from) + if wing == KingSide then 6 else 2
  }

  /**
   * The castling destination a king adds for one wing: none without the
   * right; a thrown error when the right is set but no rook is found; the
   * square on column 2 or 6 when the scan finds the path clear.
   */
  function CastleTarget(st: State, p: nat, wing: Wing): Outcome<seq<SquareId>>
    requires Valid(st) && p < |st.pieces| && st.positions[p].Some?
  {
    var from := st.positions[p].value;
    var side := st.pieces[p].side;
    if !HasRight(st.castling, side, wing) then Ok([])
    else
      match FindRookFrom(st, side, Column(from), wing, 0)
      case None => Fail(TypeError("rook.position"))
      case Some(rook) =>
        var stop := Column(st.positions[rook].value);
        if PathClear(st, Row(from), Column(from), stop, wing)
        then Ok([CastleSquare(from, wing)])
        else Ok([])
  }

  /** `King.availableMoves`: the adjacent squares, then the queen-side and king-side castling squares. */
  function KingMoves(st: State, p: nat): Outcome<seq<SquareId>>
    requires Valid(st) && p < |st.pieces|
  {
    match st.positions[p]
    case None => Ok([])
    case Some(from) =>
      var moves := StepTargets(st, st.pieces[p].side, from, QueenDirs, 1);
      match CastleTarget(st, p, QueenSide)
      case Fail(e) => Fail(e)
      case Ok(queen) =>
        match CastleTarget(st, p, KingSide)
        case Fail(e) => Fail(e)
        case Ok(king) => Ok(moves + queen + king)
  }

  /** `piece.availableMoves.includes(to)`, for a piece of any kind (only a king's list can throw). */
  function ListsTarget(st: State, p: nat, to: SquareId): Outcome<bool>
    requires Valid(st) && p < |st.pieces|
  {
    match st.pieces[p].kind
    case Pawn => Ok(Some(to) in PawnMoves(st, p))
    case Knight => Ok(to in KnightMoves(st, p))
    case Bishop => Ok(to in SliderMoves(st, p, BishopDirs))
    case Rook => Ok(to in SliderMoves(st, p, RookDirs))
    case Queen => Ok(to in SliderMoves(st, p, QueenDirs))
    case King =>
      match KingMoves(st, p)
      case Fail(e) => Fail(e)
      case Ok(m) => Ok(to in m)
  }

  // ------------------------------------------------------------ properties

  /**
   * An unpinned bishop, rook or queen reaches exactly the squares along its
   * directions up to and including the first blocker when it is an enemy.
   */
  lemma SliderDestinations(st: State, p: nat, dirs: seq<Option<Dir>>, t: SquareId)
    requires Valid(st) && p < |st.pieces|
    requires st.positions[p].Some? && st.pinning[p].None?
    ensures t in SliderMoves(st, p, dirs) <==>
      exists d, k :: 0 <= d < |dirs| && dirs[d].Some? &&
        Reaches(st, st.pieces[p].side, st.positions[p].value, dirs[d].value, k, t)
  {
    SlideMembers(st, st.pieces[p].side, st.positions[p].value, dirs, t);
  }

  /** A pinned piece other than a king can only move onto its pinner's square. */
  lemma PinnedDestinations(st: State, p: nat, t: SquareId)
    requires Valid(st) && p < |st.pieces| && st.pinning[p].Some?
    requires st.pieces[p].kind != King
    ensures ListsTarget(st, p, t) == Ok(true) ==> st.positions[st.pinning[p].value] == Some(t)
  {
  }

  /**
   * The castling scan starts on the king's own square, which the king
   * occupies, so it stops at once: castling squares are never listed, and
   * the only way the king's list differs from its adjacent squares is the
   * error thrown when a right is set and no rook is found.
   */
  lemma KingNeverCastles(st: State, p: nat)
    requires Valid(st) && p < |st.pieces| && st.positions[p].Some?
    ensures KingMoves(st, p).Ok? ==> KingMoves(st, p).value == Adjacent(st, p, QueenDirs)
    ensures KingMoves(st, p).Fail? <==>
      exists wing :: HasRight(st.castling, st.pieces[p].side, wing) &&
        FindRookFrom(st, st.pieces[p].side, Column(st.positions[p].value), wing, 0).None?
  {
    var from := st.positions[p].value;
    var side := st.pieces[p].side;
    forall wing | HasRight(st.castling, side, wing) && FindRookFrom(st, side, Column(from), wing, 0).Some?
      ensures CastleTarget(st, p, wing) == Ok([])
    {
      var rook := FindRookFrom(st, side, Column(from), wing, 0).value;
      var stop := Column(st.positions[rook].value);
      assert st.occ[8 * Row(from) + Column(from)] == Some(p);
      assert !PathClear(st, Row(from), Column(from), stop, wing);
    }
    if KingMoves(st, p).Fail? {
      if CastleTarget(st, p, QueenSide).Fail? {
        assert HasRight(st.castling, side, QueenSide);
      } else {
        assert HasRight(st.castling, side, KingSide);
      }
    }
  }

  /**
   * An unpinned pawn always lists its one-step square first, off the board
   * or occupied as it may be; it lists a diagonal square exactly when an
   * enemy stands there or it is the en-passant target.
   */
  lemma PawnDestinations(st: State, p: nat, t: SquareId)
    requires Valid(st) && p < |st.pieces| && st.positions[p].Some? && st.pinning[p].None?
    ensures PawnMoves(st, p)[0] == PawnForward(st, p)
    ensures t in PawnCaptures(st, p) ==> Some(t) in PawnMoves(st, p)
    ensures (exists i :: 2 <= i < |PawnMoves(st, p)| && PawnMoves(st, p)[i] == Some(t)) ==>
      (PawnMoves(st, p)[1] == PawnForward(st, p) && st.occ[PawnForward(st, p).value].None?)
      || t in PawnCaptures(st, p)
  {
    var moves := PawnMoves(st, p);
    if t in PawnCaptures(st, p) {
      var i :| 0 <= i < |PawnCaptures(st, p)| && PawnCaptures(st, p)[i] == t;
      assert Lift(PawnCaptures(st, p))[i] == Some(t);
    }
  }
}
