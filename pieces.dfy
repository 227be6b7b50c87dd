/**
 * Pieces: a side and a kind fixed at creation, written as one letter whose
 * case encodes the side (upper case for white).
 */
module Pieces {
  import opened Util

  datatype Side = Black | White

  datatype Kind = Pawn | Knight | Bishop | Rook | Queen | King

  datatype Piece = Piece(side: Side, kind: Kind)

  /** The side as the engine writes it, 'b' or 'w'. */
  function SideCode(side: Side): string {
    if side == Black then "b" else "w"
  }

  /** `oppositeSide`. */
  function Opposite(side: Side): (o: Side)
    ensures o != side
  {
    if side == Black then White else Black
  }

  function Letter(kind: Kind): char {
    match kind
    case Pawn => 'P'
    case Knight => 'N'
    case Bishop => 'B'
    case Rook => 'R'
    case Queen => 'Q'
    case King => 'K'
  }

  /** `isValidPiece` on one character. */
  predicate IsValidPiece(c: char) {
    c in "rnbqkpRNBQKP"
  }

  /** The `symbol` of a piece: its kind's letter, lower case for black. */
  function Symbol(p: Piece): (c: char)
    ensures IsValidPiece(c)
    ensures p.side == Black <==> 'a' <= c <= 'z'
    ensures UpperChar(c) == Letter(p.kind)
  {
    if p.side == Black then LowerChar(Letter(p.kind)) else Letter(p.kind)
  }

  /**
   * `Piece.createFromSymbol`: throws unless the symbol is a piece letter; a
   * lower-case letter makes a black piece.
   */
  function CreateFromSymbol(c: char): (r: Outcome<Piece>)
    ensures r.Ok? <==> IsValidPiece(c)
    ensures r.Ok? ==> Symbol(r.value) == c
    ensures r.Fail? ==> r.error == InvalidPiece([c])
  {
    if !IsValidPiece(c) then Fail(InvalidPiece([c]))
    else
      var side := if c == LowerChar(c) then Black else White;
      var kind :=
        match UpperChar(c)
        case 'P' => Pawn
        case 'R' => Rook
        case 'N' => Knight
        case 'B' => Bishop
        case 'Q' => Queen
        case _ => King;
      Ok(Piece(side, kind))
  }

  /** Writing a piece and reading the letter back recreates the same piece. */
  lemma SymbolRoundTrip(p: Piece)
    ensures CreateFromSymbol(Symbol(p)) == Ok(p)
  {
  }
}
