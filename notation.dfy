/**
 * Reading one move in algebraic notation against a position (the `Move`
 * and `Castling` constructors): the trailing check marker, castling, the
 * promotion suffix, the destination, the capture marker, the piece letter
 * and the source square, which is either given explicitly or searched for
 * among the squares in id order.
 */
module Notation {
  import opened Util
  import opened Squares
  import opened Pieces
  import opened BoardState
  import opened MoveGen

  /** The piece is of the side whose turn it is (`p.side == board._turns`). */
  predicate OfTurn(st: State, p: nat)
    requires Valid(st) && p < |st.pieces|
  {
    SideCode(st.pieces[p].side) == st.turn
  }

  /** The side a turn string stands for where the source tests `_turns == 'b'`. */
  function TurnSide(turn: string): Side {
    if turn == "b" then Black else White
  }

  /** The kind a move's first letter selects: only the upper-case letters name a piece. */
  function KindOf(c: char): Kind {
    match c
    case 'R' => Rook
    case 'N' => Knight
    case 'B' => Bishop
    case 'Q' => Queen
    case 'K' => King
    case _ => Pawn
  }

  // ---------------------------------------------------------------- castling

  /** The `find` for the castling king: the first of the board's pieces that is a king of the turn's side on the board. */
  function CastlingKingFrom(st: State, i: nat): (r: Option<nat>)
    requires Valid(st)
    ensures r.Some? ==> (i <= r.value < st.registered && st.pieces[r.value].kind == King &&
                         st.positions[r.value].Some? && OfTurn(st, r.value))
    ensures r.None? ==> forall j :: i <= j < st.registered ==>
      !(st.pieces[j].kind == King && st.positions[j].Some? && OfTurn(st, j))
    decreases st.registered - i
  {
    if i >= st.registered then None
    else if st.pieces[i].kind == King && st.positions[i].Some? && OfTurn(st, i) then Some(i)
    else CastlingKingFrom(st, i + 1)
  }

  /** A rook the castling may use: on the board, of the turn's side, on its home rank, and on the wing's side of the king. */
  predicate CastlingRookAt(st: State, i: nat, wing: Wing, kingColumn: int)
    requires Valid(st) && i < |st.pieces|
  {
    && st.pieces[i].kind == Rook
    && st.positions[i].Some?
    && OfTurn(st, i)
    && RankOf(st.positions[i].value) == (if st.turn == "b" then '8' else '1')
    && (if wing == QueenSide then Column(st.positions[i].value) < kingColumn
        else Column(st.positions[i].value) > kingColumn)
  }

  function CastlingRookFrom(st: State, wing: Wing, kingColumn: int, i: nat): (r: Option<nat>)
    requires Valid(st)
    ensures r.Some? ==> i <= r.value < st.registered && CastlingRookAt(st, r.value, wing, kingColumn)
    ensures r.None? ==> forall j :: i <= j < st.registered ==> !CastlingRookAt(st, j, wing, kingColumn)
    decreases st.registered - i
  {
    if i >= st.registered then None
    else if CastlingRookAt(st, i, wing, kingColumn) then Some(i)
    else CastlingRookFrom(st, wing, kingColumn, i + 1)
  }

  /**
   * A castling move: the king moves to column 6 (king side) or 2 (queen
   * side) of its row; the rook may be missing, which only fails later.
   */
  function ParseCastling(st: State, wing: Wing, check: Option<char>, notation: string): (r: Outcome<MoveRec>)
    requires Valid(st)
  {
    match CastlingKingFrom(st, 0)
    case None => Fail(TypeError("castling.king"))
    case Some(king) =>
      var from := st.positions[king].value;
      var rook := CastlingRookFrom(st, wing, Column(from), 0);
      Ok(MoveRec(st.turn, from, CastleSquare(from, wing), Some(king), None, false, None,
                 Some(Castle(wing, rook, king)), check, notation))
  }

  // ---------------------------------------------------------------- the source square

  /** The optional file or rank hint left in front of the destination. */
  function RankHint(s: string): Option<char> {
    if |s| == 1 && '1' <= s[0] <= '8' then Some(s[0]) else None
  }

  function FileHint(s: string): Option<char> {
    if |s| == 1 && 'a' <= s[0] <= 'h' then Some(s[0]) else None
  }

  /** A square the search may select before asking for the piece's destinations. */
  predicate Candidate(st: State, s: SquareId, kind: Kind, file: Option<char>, rank: Option<char>)
    requires Valid(st)
  {
    && st.occ[s].Some?
    && st.pieces[st.occ[s].value].kind == kind
    && OfTurn(st, st.occ[s].value)
    && (file.None? || FileOf(s) == file.value)
    && (rank.None? || RankOf(s) == rank.value)
  }

  /**
   * What asking the piece on each square for its destinations answers about
   * `to`; the search consults the entry of a square only once that square is
   * a candidate, so only a candidate king's error can surface.
   */
  function Answers(st: State, to: SquareId): (r: seq<Outcome<bool>>)
    requires Valid(st)
    ensures |r| == 64
  {
    seq(64, s requires 0 <= s < 64 =>
      if st.occ[s].Some? then ListsTarget(st, st.occ[s].value, to) else Ok(false))
  }

  /** `_coordinates.find(...)` from square `i` on, over a table of answers. */
  function Search(st: State, kind: Kind, file: Option<char>, rank: Option<char>,
                  answers: seq<Outcome<bool>>, i: nat): Outcome<Option<SquareId>>
    requires Valid(st) && |answers| == 64
    decreases 64 - i
  {
    if i >= 64 then Ok(None)
    else if Candidate(st, i, kind, file, rank) then
      match answers[i]
      case Fail(e) => Fail(e)
      case Ok(b) => if b then Ok(Some(i)) else Search(st, kind, file, rank, answers, i + 1)
    else Search(st, kind, file, rank, answers, i + 1)
  }

  /**
   * The source search: the first candidate, in square order, whose
   * destinations include `to`; asking a king for its destinations can throw.
   */
  function FindSource(st: State, kind: Kind, file: Option<char>, rank: Option<char>, to: SquareId)
    : Outcome<Option<SquareId>>
    requires Valid(st)
  {
    Search(st, kind, file, rank, Answers(st, to), 0)
  }

  /** A found square is a candidate answering yes, and no earlier candidate from `i` on does. */
  lemma {:induction false} SearchFirst(st: State, kind: Kind, file: Option<char>, rank: Option<char>,
                                       answers: seq<Outcome<bool>>, i: nat, j: SquareId)
    requires Valid(st) && |answers| == 64 && Search(st, kind, file, rank, answers, i) == Ok(Some(j))
    ensures i <= j && Candidate(st, j, kind, file, rank) && answers[j] == Ok(true)
    ensures forall s: SquareId :: i <= s < j && Candidate(st, s, kind, file, rank) ==> answers[s] == Ok(false)
    decreases 64 - i
  {
    if i < 64 {
      if !Candidate(st, i, kind, file, rank) || answers[i] == Ok(false) {
        SearchFirst(st, kind, file, rank, answers, i + 1, j);
      }
    }
  }

  /** When nothing is found, every candidate from `i` on answers no. */
  lemma {:induction false} SearchNone(st: State, kind: Kind, file: Option<char>, rank: Option<char>,
                                      answers: seq<Outcome<bool>>, i: nat)
    requires Valid(st) && |answers| == 64 && Search(st, kind, file, rank, answers, i) == Ok(None)
    ensures forall s: SquareId :: i <= s && Candidate(st, s, kind, file, rank) ==> answers[s] == Ok(false)
    decreases 64 - i
  {
    if i < 64 {
      SearchNone(st, kind, file, rank, answers, i + 1);
    }
  }

  /** A failed search is the failure of some candidate's answer. */
  lemma {:induction false} SearchFail(st: State, kind: Kind, file: Option<char>, rank: Option<char>,
                                      answers: seq<Outcome<bool>>, i: nat)
    requires Valid(st) && |answers| == 64 && Search(st, kind, file, rank, answers, i).Fail?
    ensures exists s: SquareId :: i <= s && Candidate(st, s, kind, file, rank) &&
              answers[s] == Fail(Search(st, kind, file, rank, answers, i).error)
    decreases 64 - i
  {
    if i < 64 {
      if Candidate(st, i, kind, file, rank) && answers[i].Fail? {
        assert i <= i && Candidate(st, i, kind, file, rank);
      } else {
        SearchFail(st, kind, file, rank, answers, i + 1);
      }
    }
  }

  /** The answer the table holds for an occupied square. */
  lemma AnswerAt(st: State, to: SquareId, s: SquareId)
    requires Valid(st) && st.occ[s].Some?
    ensures Answers(st, to)[s] == ListsTarget(st, st.occ[s].value, to)
  {
  }

  /** A found source is a candidate listing `to`, and no earlier candidate lists it. */
  lemma FindSourceFirst(st: State, kind: Kind, file: Option<char>, rank: Option<char>, to: SquareId, j: SquareId)
    requires Valid(st) && FindSource(st, kind, file, rank, to) == Ok(Some(j))
    ensures Candidate(st, j, kind, file, rank) && ListsTarget(st, st.occ[j].value, to) == Ok(true)
    ensures forall s: SquareId :: s < j && Candidate(st, s, kind, file, rank) ==>
              ListsTarget(st, st.occ[s].value, to) == Ok(false)
  {
    SearchFirst(st, kind, file, rank, Answers(st, to), 0, j);
    AnswerAt(st, to, j);
    forall s: SquareId | s < j && Candidate(st, s, kind, file, rank)
      ensures ListsTarget(st, st.occ[s].value, to) == Ok(false)
    {
      AnswerAt(st, to, s);
    }
  }

  /** When nothing is found, no candidate lists `to`. */
  lemma FindSourceNone(st: State, kind: Kind, file: Option<char>, rank: Option<char>, to: SquareId)
    requires Valid(st) && FindSource(st, kind, file, rank, to) == Ok(None)
    ensures forall s: SquareId :: Candidate(st, s, kind, file, rank) ==> ListsTarget(st, st.occ[s].value, to) == Ok(false)
  {
    SearchNone(st, kind, file, rank, Answers(st, to), 0);
    forall s: SquareId | Candidate(st, s, kind, file, rank)
      ensures ListsTarget(st, st.occ[s].value, to) == Ok(false)
    {
      AnswerAt(st, to, s);
    }
  }

  /** A failed search is the error of some candidate's destination list. */
  lemma FindSourceFail(st: State, kind: Kind, file: Option<char>, rank: Option<char>, to: SquareId)
    requires Valid(st) && FindSource(st, kind, file, rank, to).Fail?
    ensures exists s: SquareId :: Candidate(st, s, kind, file, rank) &&
              ListsTarget(st, st.occ[s].value, to) == Fail(FindSource(st, kind, file, rank, to).error)
  {
    SearchFail(st, kind, file, rank, Answers(st, to), 0);
    var s: SquareId :| Candidate(st, s, kind, file, rank) &&
      Answers(st, to)[s] == Fail(FindSource(st, kind, file, rank, to).error);
    AnswerAt(st, to, s);
  }

  // ---------------------------------------------------------------- a whole move

  /** The square whose piece an en-passant capture on `to` takes: same file, rank 4 for black, 5 otherwise. */
  function EnPassantVictim(turn: string, to: SquareId): (s: SquareId)
    ensures FileOf(s) == FileOf(to)
    ensures RankOf(s) == if turn == "b" then '4' else '5'
  {
    var key := [FileOf(to), if turn == "b" then '4' else '5'];
    assert IsValidPosition(key);
    Lookup(key).value
  }

  /** The trailing check (`+`) or mate (`#`) marker. */
  function CheckMarker(n: string): Option<char> {
    if |n| > 0 && n[|n| - 1] in "+#" then Some(n[|n| - 1]) else None
  }

  function WithoutCheck(n: string): string {
    if CheckMarker(n).Some? then n[..|n| - 1] else n
  }

  /** The castling word after `0` is read as `O` and letters are upper-cased. */
  function CastlingWord(n: string): string {
    ToUpper(ReplaceChar(n, '0', 'O'))
  }

  /** The promotion letter of a move ending in `=X`. */
  function PromotionSuffix(n: string): Option<char> {
    if |n| >= 2 && n[|n| - 2] == '=' then Some(n[|n| - 1]) else None
  }

  function WithoutPromotion(n: string): string {
    if PromotionSuffix(n).Some? then n[..|n| - 2] else n
  }

  /** The kind the prefix in front of the destination names, after an optional capture marker. */
  function PrefixKind(rest: string): Kind {
    var body := if |rest| > 0 && rest[|rest| - 1] == 'x' then rest[..|rest| - 1] else rest;
    if |body| > 0 && IsValidPiece(body[0]) then KindOf(body[0]) else Pawn
  }

  /** The source hint: what remains of the prefix once the capture marker and any piece letter are gone. */
  function PrefixHint(rest: string): string {
    var body := if |rest| > 0 && rest[|rest| - 1] == 'x' then rest[..|rest| - 1] else rest;
    if |body| > 0 && IsValidPiece(body[0]) then body[1..] else body
  }

  /**
   * The source square: given explicitly (two characters), searched for (at
   * most one character of file or rank hint), or refused.
   */
  function Source(st: State, kind: Kind, hint: string, to: SquareId, notation: string): (r: Outcome<SquareId>)
    requires Valid(st)
    ensures |hint| == 2 ==> r == Lookup(hint)
    ensures |hint| > 2 ==> r == Fail(UnableToGetPiece(notation))
    ensures |hint| <= 1 && r.Ok? ==> FindSource(st, kind, FileHint(hint), RankHint(hint), to) == Ok(Some(r.value))
  {
    if |hint| == 2 then Lookup(hint)
    else if |hint| <= 1 then
      match FindSource(st, kind, FileHint(hint), RankHint(hint), to)
      case Fail(e) => Fail(e)
      case Ok(found) => if found.None? then Fail(TypeError("from.piece")) else Ok(found.value)
    else Fail(UnableToGetPiece(notation))
  }

  /**
   * The move once its squares are known: the piece is whatever stands on the
   * source, a capture onto an empty square by a pawn takes en passant, and a
   * promotion letter becomes a new piece of the mover's colour.
   */
  function Finish(st: State, from: SquareId, to: SquareId, capturing: bool, promo: Option<char>,
                  check: Option<char>, notation: string): (r: Outcome<MoveRec>)
    requires Valid(st)
    ensures r.Ok? ==> r.value.from == from && r.value.to == to && r.value.piece == st.occ[from]
    ensures r.Ok? ==> r.value.castling.None? && r.value.notation == notation && r.value.checkState == check
    ensures r.Ok? ==> r.value.turns == st.turn && Fits(st, r.value)
    ensures r.Ok? ==> (r.value.isEnPassant <==>
      capturing && st.occ[to].None? && st.occ[from].Some? && st.pieces[st.occ[from].value].kind == Pawn)
    ensures r.Ok? ==>
      r.value.captured == (if !capturing then None
                           else if r.value.isEnPassant then st.occ[EnPassantVictim(st.turn, to)]
                           else st.occ[to])
    ensures r.Ok? ==> (r.value.promotesTo.Some? <==> promo.Some?)
    ensures r.Fail? ==> promo.Some? && r.error.InvalidPiece?
  {
    var piece := st.occ[from];
    var enPassant := capturing && st.occ[to].None? && piece.Some? && st.pieces[piece.value].kind == Pawn;
    var captured :=
      if !capturing then None
      else if enPassant then st.occ[EnPassantVictim(st.turn, to)]
      else st.occ[to];
    match promo
    case None => Ok(MoveRec(st.turn, from, to, piece, captured, enPassant, None, None, check, notation))
    case Some(c) =>
      match CreateFromSymbol(if st.turn == "b" then LowerChar(c) else UpperChar(c))
      case Fail(e) => Fail(e)
      case Ok(p) => Ok(MoveRec(st.turn, from, to, piece, captured, enPassant, Some(p), None, check, notation))
  }

  /** A move other than castling: promotion suffix, destination, then the prefix in front of it. */
  function ParseSquares(st: State, n1: string, check: Option<char>, notation: string): (r: Outcome<MoveRec>)
    requires Valid(st)
    ensures r.Ok? ==> r.value.notation == notation && r.value.turns == st.turn && r.value.checkState == check
    ensures r.Ok? ==> Fits(st, r.value)
  {
    var promo := PromotionSuffix(n1);
    var n2 := WithoutPromotion(n1);
    match Lookup(SubstringFrom(n2, |n2| - 2))
    case Fail(e) => Fail(e)
    case Ok(to) =>
      var rest := Substring(n2, 0, |n2| - 2);
      match Source(st, PrefixKind(rest), PrefixHint(rest), to, notation)
      case Fail(e) => Fail(e)
      case Ok(from) => Finish(st, from, to, |rest| > 0 && rest[|rest| - 1] == 'x', promo, check, notation)
  }

  /** A castling word must be `O-O-O` or `O-O`. */
  function ParseCastlingWord(st: State, word: string, check: Option<char>, notation: string): (r: Outcome<MoveRec>)
    requires Valid(st)
    ensures r.Ok? ==> r.value.notation == notation && r.value.turns == st.turn && r.value.checkState == check
    ensures r.Ok? ==> Fits(st, r.value)
    ensures word != "O-O" && word != "O-O-O" ==> r == Fail(UnableToProcess(notation))
    ensures (word == "O-O" || word == "O-O-O") ==> (r.Ok? <==> CastlingKingFrom(st, 0).Some?)
    ensures r.Ok? ==> r.value.castling.Some? && r.value.castling.value.wing == (if word == "O-O" then KingSide else QueenSide)
  {
    if word != "O-O-O" && word != "O-O" then Fail(UnableToProcess(notation))
    else ParseCastling(st, if word == "O-O-O" then QueenSide else KingSide, check, notation)
  }

  /**
   * The `Move` constructor: reads `notation` against the position, or gives
   * the error it throws. A hyphen anywhere makes it a castling move.
   */
  function ParseMove(st: State, notation: string): (r: Outcome<MoveRec>)
    requires Valid(st)
    ensures r.Ok? ==> r.value.notation == notation && r.value.turns == st.turn
    ensures r.Ok? ==> (r.value.checkState.Some? <==> |notation| > 0 && notation[|notation| - 1] in "+#")
    ensures r.Ok? && r.value.checkState.Some? ==> r.value.checkState.value == notation[|notation| - 1]
    ensures r.Ok? ==> Fits(st, r.value)
  {
    var check := CheckMarker(notation);
    var n1 := WithoutCheck(notation);
    if '-' in n1 then ParseCastlingWord(st, CastlingWord(n1), check, notation)
    else ParseSquares(st, n1, check, notation)
  }

  // ---------------------------------------------------------------- properties

  /**
   * Two characters naming a square, read as destination: nothing in front
   * of them, no promotion and no check marker.
   */
  lemma PlainKey(key: string)
    requires IsValidPosition(key)
    ensures CheckMarker(key).None? && WithoutCheck(key) == key && '-' !in key
    ensures PromotionSuffix(key).None? && WithoutPromotion(key) == key
    ensures SubstringFrom(key, 0) == key && Substring(key, 0, 0) == []
  {
  }

  /** A prefix in front of a square key leaves that key as destination and itself as the rest. */
  lemma PrefixedKey(prefix: string, key: string)
    requires IsValidPosition(key)
    requires forall i :: 0 <= i < |prefix| ==> prefix[i] != '-' && prefix[i] != '='
    ensures var n := prefix + key;
      CheckMarker(n).None? && WithoutCheck(n) == n && '-' !in n &&
      PromotionSuffix(n).None? && WithoutPromotion(n) == n &&
      SubstringFrom(n, |n| - 2) == key && Substring(n, 0, |n| - 2) == prefix
  {
    var n := prefix + key;
    assert n[|n| - 1] == key[1] && n[|n| - 2] == key[0];
    assert forall i :: 0 <= i < |n| ==> n[i] != '-' by {
      forall i | 0 <= i < |n| ensures n[i] != '-' {
        if i < |prefix| { assert n[i] == prefix[i]; } else { assert n[i] == key[i - |prefix|]; }
      }
    }
    assert n[|prefix|..] == key;
  }

  /** How a prefixed key is read: the prefix selects the source, the key is the destination. */
  lemma {:induction false} SquaresRead(st: State, prefix: string, key: string)
    requires Valid(st) && IsValidPosition(key)
    requires forall i :: 0 <= i < |prefix| ==> prefix[i] != '-' && prefix[i] != '='
    ensures var n := prefix + key;
      var to := Lookup(key).value;
      ParseMove(st, n) ==
        match Source(st, PrefixKind(prefix), PrefixHint(prefix), to, n)
        case Fail(e) => Fail(e)
        case Ok(from) => Finish(st, from, to, |prefix| > 0 && prefix[|prefix| - 1] == 'x', None, None, n)
  {
    PrefixedKey(prefix, key);
  }

  /**
   * A move without castling goes to the square its notation names last
   * (before any promotion suffix and check marker).
   */
  lemma {:induction false} DestinationFromNotation(st: State, prefix: string, key: string)
    requires Valid(st) && IsValidPosition(key)
    requires forall i :: 0 <= i < |prefix| ==> prefix[i] != '-' && prefix[i] != '='
    requires ParseMove(st, prefix + key).Ok?
    ensures ParseMove(st, prefix + key).value.to == Lookup(key).value
    ensures ParseMove(st, prefix + key).value.castling.None?
  {
    PrefixedKey(prefix, key);
  }

  /**
   * A move naming its source square explicitly is taken as written: neither
   * the piece's kind, nor its side, nor whether it can reach the destination
   * is checked, and the source may even be empty; this holds for every
   * source file but `b`, whose letter is read as a piece letter.
   */
  lemma {:induction false} ExplicitSourceUnchecked(st: State, src: string, dst: string)
    requires Valid(st) && IsValidPosition(src) && IsValidPosition(dst) && src[0] != 'b'
    ensures ParseMove(st, src + dst).Ok?
    ensures ParseMove(st, src + dst).value.from == Lookup(src).value
    ensures ParseMove(st, src + dst).value.to == Lookup(dst).value
    ensures ParseMove(st, src + dst).value.piece == st.occ[Lookup(src).value]
  {
    PrefixedKey(src, dst);
    assert !IsValidPiece(src[0]);
    assert PrefixHint(src) == src;
  }

  lemma BFilePrefix(rank: char)
    requires '1' <= rank <= '8'
    ensures PrefixKind(['b', rank]) == Pawn && PrefixHint(['b', rank]) == [rank]
    ensures RankHint([rank]) == Some(rank) && FileHint([rank]) == None
  {
    assert "rnbqkpRNBQKP"[2] == 'b';
  }

  /** A searched source is the first candidate in square order that lists the destination. */
  lemma SearchFound(st: State, kind: Kind, hint: string, to: SquareId, n: string)
    requires Valid(st) && |hint| <= 1 && Source(st, kind, hint, to, n).Ok?
    ensures var from := Source(st, kind, hint, to, n).value;
      Candidate(st, from, kind, FileHint(hint), RankHint(hint)) &&
      ListsTarget(st, st.occ[from].value, to) == Ok(true) &&
      forall s: SquareId :: s < from && Candidate(st, s, kind, FileHint(hint), RankHint(hint)) ==>
        ListsTarget(st, st.occ[s].value, to) == Ok(false)
  {
    var from := Source(st, kind, hint, to, n).value;
    FindSourceFirst(st, kind, FileHint(hint), RankHint(hint), to, from);
  }

  /**
   * A source square on the `b` file is misread: `b` is taken for a piece
   * letter naming nothing, and its rank for a rank hint, so `b2b4` moves the
   * first pawn of the side to move on rank 2 that can reach `b4`.
   */
  lemma {:induction false} BFileSourceMisread(st: State, rank: char, dst: string)
    requires Valid(st) && '1' <= rank <= '8' && IsValidPosition(dst)
    requires ParseMove(st, ['b', rank] + dst).Ok?
    ensures var m := ParseMove(st, ['b', rank] + dst).value;
      m.piece.Some? && st.pieces[m.piece.value].kind == Pawn && OfTurn(st, m.piece.value) &&
      RankOf(m.from) == rank && ListsTarget(st, m.piece.value, m.to) == Ok(true)
  {
    var n := ['b', rank] + dst;
    var to := Lookup(dst).value;
    SquaresRead(st, ['b', rank], dst);
    BFilePrefix(rank);
    var src := Source(st, Pawn, [rank], to, n);
    assert src.Ok?;
    SearchFound(st, Pawn, [rank], to, n);
    var m := Finish(st, src.value, to, false, None, None, n).value;
    assert ParseMove(st, n).value == m;
  }

  /** The notation only matters to the source search when the hint is refused. */
  lemma SourceNotation(st: State, kind: Kind, hint: string, to: SquareId, n1: string, n2: string)
    requires Valid(st) && |hint| <= 2
    ensures Source(st, kind, hint, to, n1) == Source(st, kind, hint, to, n2)
  {
  }

  /** The notation is carried into the move and changes nothing else. */
  lemma FinishNotation(st: State, from: SquareId, to: SquareId, capturing: bool, promo: Option<char>,
                       check: Option<char>, n1: string, n2: string)
    requires Valid(st)
    ensures Finish(st, from, to, capturing, promo, check, n1).Ok? == Finish(st, from, to, capturing, promo, check, n2).Ok?
    ensures Finish(st, from, to, capturing, promo, check, n2).Ok? ==>
      Finish(st, from, to, capturing, promo, check, n1).value ==
      Finish(st, from, to, capturing, promo, check, n2).value.(notation := n1)
  {
  }

  /** A lower-case piece letter is a piece letter that names a pawn, and leaves no hint. */
  lemma LowerLetterPrefix(c: char)
    requires c in "rnbqkp"
    ensures IsValidPiece(c) && PrefixKind([c]) == Pawn && PrefixHint([c]) == [] && c != 'x'
  {
    var i :| 0 <= i < 6 && "rnbqkp"[i] == c;
    assert "rnbqkpRNBQKP"[i] == c;
  }

  /** An upper-case piece letter names its kind and leaves no hint. */
  lemma UpperLetterPrefix(c: char)
    requires c in "RNBQK"
    ensures IsValidPiece(c) && PrefixKind([c]) == KindOf(c) && PrefixHint([c]) == [] && c != 'x'
  {
    var i :| 0 <= i < 5 && "RNBQK"[i] == c;
    assert "rnbqkpRNBQKP"[i + 6] == c;
  }

  /** The prefixes `bx` and `x` both name a pawn capture with no hint. */
  lemma CapturePrefixes()
    ensures PrefixKind("bx") == Pawn && PrefixHint("bx") == [] && "bx"[1] == 'x'
    ensures PrefixKind("x") == Pawn && PrefixHint("x") == [] && "x"[0] == 'x'
  {
    assert "bx"[..1] == "b";
    assert "rnbqkpRNBQKP"[2] == 'b';
    assert "x"[..0] == [];
  }

  /** A destination with nothing in front of it is read as a move with no prefix. */
  lemma BareKey(st: State, key: string)
    requires Valid(st) && IsValidPosition(key)
    ensures var to := Lookup(key).value;
      ParseMove(st, key) ==
        match Source(st, Pawn, [], to, key)
        case Fail(e) => Fail(e)
        case Ok(from) => Finish(st, from, to, false, None, None, key)
  {
    assert [] + key == key;
    SquaresRead(st, [], key);
    assert PrefixKind([]) == Pawn && PrefixHint([]) == [];
  }

  /**
   * A lower-case piece letter in front of a destination is read as a piece
   * letter and dropped, yet names no piece: `bc3` is the pawn move `c3`,
   * not a bishop move, and the rest of the parse is that of `c3`.
   */
  lemma {:induction false} LowerCaseLetterDropped(st: State, c: char, key: string)
    requires Valid(st) && c in "rnbqkp" && IsValidPosition(key)
    ensures ParseMove(st, [c] + key).Ok? <==> ParseMove(st, key).Ok?
    ensures ParseMove(st, key).Ok? ==>
      ParseMove(st, [c] + key).value == ParseMove(st, key).value.(notation := [c] + key)
  {
    var to := Lookup(key).value;
    LowerLetterPrefix(c);
    SquaresRead(st, [c], key);
    BareKey(st, key);
    SourceNotation(st, Pawn, [], to, [c] + key, key);
    match Source(st, Pawn, [], to, key)
    case Fail(e) =>
    case Ok(from) => FinishNotation(st, from, to, false, None, None, [c] + key, key);
  }

  /**
   * The same for a capture: `bxc3` loses its file and is read as `xc3`, a
   * capture by whichever pawn comes first in square order.
   */
  lemma {:induction false} CaptureFileDropped(st: State, key: string)
    requires Valid(st) && IsValidPosition(key)
    ensures ParseMove(st, "bx" + key).Ok? <==> ParseMove(st, "x" + key).Ok?
    ensures ParseMove(st, "x" + key).Ok? ==>
      ParseMove(st, "bx" + key).value == ParseMove(st, "x" + key).value.(notation := "bx" + key)
  {
    var to := Lookup(key).value;
    CapturePrefixes();
    SquaresRead(st, "bx", key);
    SquaresRead(st, "x", key);
    SourceNotation(st, Pawn, [], to, "bx" + key, "x" + key);
    match Source(st, Pawn, [], to, "x" + key)
    case Fail(e) =>
    case Ok(from) => FinishNotation(st, from, to, true, None, None, "bx" + key, "x" + key);
  }

  /**
   * A move found by search uses a piece of the named kind and of the side to
   * move that lists the destination, the first such piece in square order.
   */
  lemma {:induction false} SearchedSourceIsFirst(st: State, c: char, key: string)
    requires Valid(st) && c in "RNBQK" && IsValidPosition(key)
    requires ParseMove(st, [c] + key).Ok?
    ensures var m := ParseMove(st, [c] + key).value;
      m.piece.Some? && st.pieces[m.piece.value].kind == KindOf(c) && OfTurn(st, m.piece.value) &&
      ListsTarget(st, m.piece.value, m.to) == Ok(true) &&
      forall s: SquareId :: s < m.from && Candidate(st, s, KindOf(c), None, None) ==>
        ListsTarget(st, st.occ[s].value, m.to) == Ok(false)
  {
    var n := [c] + key;
    var to := Lookup(key).value;
    UpperLetterPrefix(c);
    SquaresRead(st, [c], key);
    var src := Source(st, KindOf(c), [], to, n);
    assert src.Ok?;
    SearchFound(st, KindOf(c), [], to, n);
    var m := Finish(st, src.value, to, false, None, None, n).value;
    assert ParseMove(st, n).value == m;
  }

  // ---------------------------------------------------------------- the hyphen rule

  /** A character read as the `O` of castling: itself, lower case, or the digit zero. */
  predicate CastleO(c: char) {
    c == 'O' || c == 'o' || c == '0'
  }

  /** `w` spells castling on `wing`, in any case and with any mix of `O` and `0`. */
  predicate Spelled(w: string, wing: Wing) {
    if wing == KingSide then |w| == 3 && CastleO(w[0]) && w[1] == '-' && CastleO(w[2])
    else |w| == 5 && CastleO(w[0]) && w[1] == '-' && CastleO(w[2]) && w[3] == '-' && CastleO(w[4])
  }

  lemma CastlingChar(c: char)
    ensures UpperChar(if c == '0' then 'O' else c) == 'O' <==> CastleO(c)
    ensures UpperChar(if c == '0' then 'O' else c) == '-' <==> c == '-'
  {
  }

  /**
   * Replacing `0` by `O` and upper-casing gives `O-O` exactly for the
   * king-side spellings and `O-O-O` exactly for the queen-side ones.
   */
  lemma SpelledCastlingWord(w: string)
    ensures CastlingWord(w) == "O-O" <==> Spelled(w, KingSide)
    ensures CastlingWord(w) == "O-O-O" <==> Spelled(w, QueenSide)
  {
    var u := CastlingWord(w);
    assert |u| == |w|;
    forall i | 0 <= i < |w| ensures (u[i] == 'O' <==> CastleO(w[i])) && (u[i] == '-' <==> w[i] == '-') {
      assert u[i] == UpperChar(if w[i] == '0' then 'O' else w[i]);
      CastlingChar(w[i]);
    }
    if Spelled(w, KingSide) {
      assert u[0] == 'O' && u[1] == '-' && u[2] == 'O';
      assert u == "O-O";
    }
    if Spelled(w, QueenSide) {
      assert u[0] == 'O' && u[1] == '-' && u[2] == 'O' && u[3] == '-' && u[4] == 'O';
      assert u == "O-O-O";
    }
    if u == "O-O" {
      assert u[0] == 'O' && u[1] == '-' && u[2] == 'O';
    }
    if u == "O-O-O" {
      assert u[0] == 'O' && u[1] == '-' && u[2] == 'O' && u[3] == '-' && u[4] == 'O';
    }
  }

  /**
   * Every spelling of castling on `wing`, followed or not by a check marker,
   * reads as castling on `wing` with that marker: it fails only when the side
   * has no king on the board.
   */
  lemma {:induction false} CastlingSpellings(st: State, n: string, wing: Wing)
    requires Valid(st) && Spelled(WithoutCheck(n), wing)
    ensures ParseMove(st, n) == ParseCastling(st, wing, CheckMarker(n), n)
    ensures ParseMove(st, n).Ok? <==> CastlingKingFrom(st, 0).Some?
    ensures ParseMove(st, n).Ok? ==>
      ParseMove(st, n).value.castling.Some? && ParseMove(st, n).value.castling.value.wing == wing &&
      ParseMove(st, n).value.checkState == CheckMarker(n)
  {
    var w := WithoutCheck(n);
    SpelledCastlingWord(w);
    assert w[1] == '-';
    assert '-' in w;
  }

  /** Any other notation with a hyphen in front of the check marker is refused. */
  lemma {:induction false} HyphenatedRefused(st: State, n: string)
    requires Valid(st) && '-' in WithoutCheck(n)
    requires !Spelled(WithoutCheck(n), KingSide) && !Spelled(WithoutCheck(n), QueenSide)
    ensures ParseMove(st, n) == Fail(UnableToProcess(n))
  {
    SpelledCastlingWord(WithoutCheck(n));
  }

  /** The notation marks a capture: an `x` just in front of the destination, once the check marker and promotion suffix are off. */
  predicate MarksCapture(n: string) {
    var n2 := WithoutPromotion(WithoutCheck(n));
    var rest := Substring(n2, 0, |n2| - 2);
    |rest| > 0 && rest[|rest| - 1] == 'x'
  }

  /**
   * What a move other than castling captures: nothing without the `x`
   * marker; with it, a pawn moving onto an empty square captures en passant
   * the piece on the destination's file at rank 4 (black moving) or 5 (white
   * moving), and any other move captures what stands on the destination.
   */
  lemma CaptureRead(st: State, n: string)
    requires Valid(st) && ParseMove(st, n).Ok? && ParseMove(st, n).value.castling.None?
    ensures var m := ParseMove(st, n).value;
      && (m.isEnPassant <==>
            MarksCapture(n) && st.occ[m.to].None? && m.piece.Some? && st.pieces[m.piece.value].kind == Pawn)
      && m.captured == (if !MarksCapture(n) then None
                        else if m.isEnPassant then st.occ[EnPassantVictim(st.turn, m.to)]
                        else st.occ[m.to])
  {
    HyphenCastles(st, n);
    var n1 := WithoutCheck(n);
    assert '-' !in n1;
    assert ParseMove(st, n) == ParseSquares(st, n1, CheckMarker(n), n);
    SquaresCapture(st, n1, CheckMarker(n), n);
  }

  /** `CaptureRead` for the move once the check marker is off. */
  lemma SquaresCapture(st: State, n1: string, check: Option<char>, n: string)
    requires Valid(st) && ParseSquares(st, n1, check, n).Ok?
    ensures var m := ParseSquares(st, n1, check, n).value;
      var n2 := WithoutPromotion(n1);
      var rest := Substring(n2, 0, |n2| - 2);
      var capturing := |rest| > 0 && rest[|rest| - 1] == 'x';
      && (m.isEnPassant <==>
            capturing && st.occ[m.to].None? && m.piece.Some? && st.pieces[m.piece.value].kind == Pawn)
      && m.captured == (if !capturing then None
                        else if m.isEnPassant then st.occ[EnPassantVictim(st.turn, m.to)]
                        else st.occ[m.to])
  {
    var n2 := WithoutPromotion(n1);
    var to := Lookup(SubstringFrom(n2, |n2| - 2)).value;
    var rest := Substring(n2, 0, |n2| - 2);
    var from := Source(st, PrefixKind(rest), PrefixHint(rest), to, n).value;
    var capturing := |rest| > 0 && rest[|rest| - 1] == 'x';
    assert ParseSquares(st, n1, check, n) == Finish(st, from, to, capturing, PromotionSuffix(n1), check, n);
  }

  /** A hyphenated notation that is read is a castling move. */
  lemma HyphenCastles(st: State, n: string)
    requires Valid(st)
    ensures '-' in WithoutCheck(n) && ParseMove(st, n).Ok? ==> ParseMove(st, n).value.castling.Some?
  {
  }

  /** A castling move moves the side's king to column 6 or 2 of its own row. */
  lemma CastlingMovesKing(st: State, notation: string)
    requires Valid(st) && ParseMove(st, notation).Ok? && ParseMove(st, notation).value.castling.Some?
    ensures var m := ParseMove(st, notation).value;
      m.piece == Some(m.castling.value.king) && st.pieces[m.castling.value.king].kind == King &&
      OfTurn(st, m.castling.value.king) && Row(m.to) == Row(m.from) &&
      Column(m.to) == (if m.castling.value.wing == KingSide then 6 else 2)
  {
  }
}
