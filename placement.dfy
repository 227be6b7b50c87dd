/**
 * The placement field of a FEN string: reading it onto an empty board (the
 * row loop of the `Board` constructor) and writing it from the squares (the
 * `fenstring` getter: one character per square, `1` for an empty one, rows
 * of eight joined by `/`, then runs of `1` from eight down to two replaced by
 * their length). Writing and reading back gives the same pieces on the same
 * squares.
 */
module Placement {
  import opened Util
  import opened Squares
  import opened Pieces
  import opened BoardState

  /** A board with no piece on it and nothing recorded. */
  function EmptyBoard(): (r: State)
    ensures Valid(r) && r.registered == |r.pieces| == 0
    ensures forall s :: 0 <= s < 64 ==> r.occ[s].None?
  {
    State(seq(64, s => None), [], [], [], 0, "w", Rights(false, false, false, false), None, 0, 0, [], false, "")
  }

  // ---------------------------------------------------------------- reading

  /** A piece the constructor creates, with the square it binds it to. */
  type Placed = (SquareId, Piece)

  /** The count of empty squares a character of a row stands for, when it is one to eight. */
  function Blanks(c: char): (o: Option<nat>)
    ensures o.Some? ==> 1 <= o.value <= 8
  {
    if '1' <= c <= '8' then Some(DigitValue(c)) else None
  }

  /** `Blanks` is the constructor's test: `parseInt` of the character lies between one and eight. */
  lemma BlanksParseInt(c: char)
    ensures Blanks(c) == match ParseInt([c])
      case Some(n) => if 1 <= n <= 8 then Some(n as nat) else None
      case None => None
  {
    ParseIntSingle(c);
  }

  /**
   * One character of row `r` at column `index`: a piece letter while the
   * row has room creates that piece on the next square, a count of one to
   * eight skips that many squares, and anything else makes the string
   * invalid. The result is the pieces created and the new column.
   */
  function PlaceChar(r: nat, index: nat, c: char): (o: Option<(seq<Placed>, nat)>)
    requires r < 8
  {
    if IsValidPiece(c) && index < 8 then
      Some(([(r * 8 + index, CreateFromSymbol(c).value)], index + 1))
    else
      match Blanks(c)
      case Some(blanks) => Some(([], index + blanks))
      case None => None
  }

  /** A row of the placement, character by character from the left. */
  function PlaceRow(r: nat, index: nat, row: string): (o: Option<(seq<Placed>, nat)>)
    requires r < 8
    decreases |row|
  {
    if row == [] then Some(([], index))
    else
      match PlaceChar(r, index, row[0])
      case None => None
      case Some(head) =>
        match PlaceRow(r, head.1, row[1..])
        case None => None
        case Some(tail) => Some((head.0 + tail.0, tail.1))
  }

  /** Rows `r` to 7 of the placement, in order. */
  function PlaceRows(rows: seq<string>, r: nat): (o: Option<seq<Placed>>)
    requires |rows| == 8 && r <= 8
    decreases 8 - r
  {
    if r == 8 then Some([])
    else
      match PlaceRow(r, 0, rows[r])
      case None => None
      case Some(head) =>
        match PlaceRows(rows, r + 1)
        case None => None
        case Some(tail) => Some(head.0 + tail)
  }

  /** A piece of the board's own list is created and bound to a square. */
  function Register(st: State, pc: Piece, s: SquareId): (r: State)
    requires Valid(st) && st.registered == |st.pieces|
    ensures Valid(r) && r.registered == |r.pieces| && r.pieces == st.pieces + [pc]
    ensures r.occ == st.occ[s := Some(|st.pieces|)]
    ensures r.pinning == st.pinning + [None]
    ensures r == st.(occ := r.occ, pieces := r.pieces, positions := r.positions, pinning := r.pinning,
                     registered := r.registered)
  {
    BindSquare(Created(st, pc), s, |st.pieces|)
  }

  /** A new piece at the end of the board's list, registered, unbound and unpinned. */
  function Created(st: State, pc: Piece): (r: State)
    requires Valid(st) && st.registered == |st.pieces|
    ensures Valid(r) && r.registered == |r.pieces| == |st.pieces| + 1 && r.positions[|st.pieces|] == None
  {
    var r := st.(pieces := st.pieces + [pc], positions := st.positions + [None],
                 pinning := st.pinning + [None], registered := st.registered + 1);
    assert forall p :: 0 <= p < |st.pieces| ==> r.positions[p] == st.positions[p] && r.pinning[p] == st.pinning[p];
    r
  }

  /** The board after creating and binding the pieces of a list, in its order. */
  function Build(st: State, placed: seq<Placed>): (r: State)
    requires Valid(st) && st.registered == |st.pieces|
    ensures Valid(r) && r.registered == |r.pieces| == |st.pieces| + |placed|
    decreases |placed|
  {
    if placed == [] then st
    else Build(Register(st, placed[0].1, placed[0].0), placed[1..])
  }

  /** The board a placement field describes, if it is well formed. */
  function ReadPlacement(field: string): (o: Option<State>)
    ensures o.Some? ==> Valid(o.value) && o.value.registered == |o.value.pieces|
  {
    var rows := Split(field, "/");
    if |rows| != 8 then None
    else
      match PlaceRows(rows, 0)
      case None => None
      case Some(placed) => Some(Build(EmptyBoard(), placed))
  }

  // ---------------------------------------------------------------- writing

  /** The character a square contributes: its piece's symbol, or `1`. */
  function SquareChar(st: State, s: SquareId): char
    requires Valid(st)
  {
    match Occupant(st, s)
    case None => '1'
    case Some(p) => Symbol(p)
  }

  /** All 64 squares' characters in square order. */
  function Cells(st: State): (r: string)
    requires Valid(st)
    ensures |r| == 64 && forall s :: 0 <= s < 64 ==> r[s] == SquareChar(st, s)
  {
    seq(64, s requires 0 <= s < 64 => SquareChar(st, s))
  }

  /** `.match(/.{8}/g)`: consecutive chunks of eight characters. */
  function Chunks(s: string): (r: seq<string>)
    ensures |r| == |s| / 8
    ensures forall k :: 0 <= k < |r| ==> r[k] == s[8 * k..8 * k + 8]
    decreases |s|
  {
    if |s| < 8 then []
    else
      var rest := Chunks(s[8..]);
      assert forall k :: 0 <= k < |rest| ==> rest[k] == s[8 * (k + 1)..8 * (k + 1) + 8];
      [s[..8]] + rest
  }

  /** The uncompressed placement: eight rows of eight characters joined by `/`. */
  function RawPlacement(st: State): string
    requires Valid(st)
  {
    Join(Chunks(Cells(st)), "/")
  }

  /** The replacement passes, for run lengths `n` down to two. */
  function Compress(s: string, n: nat): string
    decreases n
  {
    if n < 2 then s else Compress(ReplaceAll(s, Ones(n), NatToString(n)), n - 1)
  }

  /** The placement field the `fenstring` getter computes for a changed board. */
  function WritePlacement(st: State): string
    requires Valid(st)
  {
    Compress(RawPlacement(st), 8)
  }

  // ---------------------------------------------------------------- counts

  /** The characters a placement row is made of: piece letters and counts one to eight. */
  predicate Tokens(s: string) {
    forall i :: 0 <= i < |s| ==> IsValidPiece(s[i]) || '1' <= s[i] <= '8'
  }

  /** A placement row with every count written out as that many `1`s. */
  function Expand(s: string): (r: string)
    decreases |s|
  {
    if s == [] then []
    else (if '1' <= s[0] <= '8' then Ones(DigitValue(s[0])) else [s[0]]) + Expand(s[1..])
  }

  lemma {:induction false} ExpandAppend(a: string, b: string)
    ensures Expand(a + b) == Expand(a) + Expand(b)
    decreases |a|
  {
    if a == [] {
      assert a + b == b;
    } else {
      assert (a + b)[1..] == a[1..] + b;
      ExpandAppend(a[1..], b);
    }
  }

  lemma {:induction false} ExpandOnes(n: nat)
    ensures Expand(Ones(n)) == Ones(n)
  {
    if n > 0 {
      assert Ones(n)[1..] == Ones(n - 1);
      ExpandOnes(n - 1);
    }
  }

  /** A count written out is that many ones. */
  lemma ExpandCount(n: nat)
    requires 1 <= n <= 8
    ensures Expand(NatToString(n)) == Ones(n)
  {
    var d := NatToString(n);
    assert d == [('0' as int + n) as char];
    assert d[1..] == [];
    assert Expand(d) == Ones(n) + Expand([]);
  }

  /** Replacing each run of `n` ones by the count `n` changes nothing once counts are written out. */
  lemma {:induction false} ExpandReplace(s: string, n: nat)
    requires 1 <= n <= 8
    ensures Expand(ReplaceAll(s, Ones(n), NatToString(n))) == Expand(s)
    decreases |s|
  {
    var d := NatToString(n);
    if s != [] {
      if StartsWith(s, Ones(n)) {
        var tail := ReplaceAll(s[n..], Ones(n), d);
        assert ReplaceAll(s, Ones(n), d) == d + tail;
        ExpandReplace(s[n..], n);
        ExpandAppend(d, tail);
        ExpandCount(n);
        assert s == Ones(n) + s[n..];
        ExpandAppend(Ones(n), s[n..]);
        ExpandOnes(n);
      } else {
        var tail := ReplaceAll(s[1..], Ones(n), d);
        assert ReplaceAll(s, Ones(n), d) == [s[0]] + tail;
        ExpandReplace(s[1..], n);
        ExpandAppend([s[0]], tail);
        assert s == [s[0]] + s[1..];
        ExpandAppend([s[0]], s[1..]);
      }
    }
  }

  /** The replacement keeps a row made of piece letters and counts. */
  lemma {:induction false} ReplaceTokens(s: string, n: nat)
    requires 1 <= n <= 8 && Tokens(s)
    ensures Tokens(ReplaceAll(s, Ones(n), NatToString(n)))
    decreases |s|
  {
    var d := NatToString(n);
    assert d == [('0' as int + n) as char];
    if s != [] {
      if StartsWith(s, Ones(n)) {
        ReplaceTokens(s[n..], n);
      } else {
        ReplaceTokens(s[1..], n);
      }
    }
  }

  lemma {:induction false} ExpandCompress(s: string, n: nat)
    requires n <= 8
    ensures Expand(Compress(s, n)) == Expand(s)
    ensures Tokens(s) ==> Tokens(Compress(s, n))
    decreases n
  {
    if n >= 2 {
      ExpandReplace(s, n);
      if Tokens(s) {
        ReplaceTokens(s, n);
      }
      ExpandCompress(ReplaceAll(s, Ones(n), NatToString(n)), n - 1);
    }
  }

  /** One step of reading a row. */
  lemma PlaceRowStep(r: nat, index: nat, c: char, rest: string)
    requires r < 8
    ensures PlaceRow(r, index, [c] + rest) ==
      match PlaceChar(r, index, c)
      case None => None
      case Some(head) =>
        match PlaceRow(r, head.1, rest)
        case None => None
        case Some(tail) => Some((head.0 + tail.0, tail.1))
  {
    assert ([c] + rest)[0] == c && ([c] + rest)[1..] == rest;
  }

  /** A count character moves the column on by its value and creates nothing. */
  lemma PlaceCount(r: nat, index: nat, c: char)
    requires r < 8 && '1' <= c <= '8'
    ensures PlaceChar(r, index, c) == Some(([], index + DigitValue(c)))
  {
    assert !IsValidPiece(c);
  }

  /** A count at the front of a row moves the column on by its value and creates nothing. */
  lemma PlaceSkip(r: nat, index: nat, c: char, t: string)
    requires r < 8 && '1' <= c <= '8'
    ensures PlaceRow(r, index, [c] + t) == PlaceRow(r, index + DigitValue(c), t)
  {
    PlaceRowStep(r, index, c, t);
    PlaceCount(r, index, c);
    match PlaceRow(r, index + DigitValue(c), t)
    case None =>
    case Some(tail) => assert [] + tail.0 == tail.0;
  }

  /** The first of a run of ones moves the column on by one. */
  lemma PlaceOnesStep(r: nat, index: nat, n: nat, rest: string)
    requires r < 8 && n > 0
    ensures PlaceRow(r, index, Ones(n) + rest) == PlaceRow(r, index + 1, Ones(n - 1) + rest)
  {
    var tail := Ones(n - 1) + rest;
    assert Ones(n) + rest == ['1'] + tail;
    PlaceSkip(r, index, '1', tail);
    assert DigitValue('1') == 1;
  }

  /** A run of `n` ones at the front of a row moves the column on by `n` and creates nothing. */
  lemma {:induction false} PlaceOnes(r: nat, index: nat, n: nat, rest: string)
    requires r < 8
    ensures PlaceRow(r, index, Ones(n) + rest) == PlaceRow(r, index + n, rest)
    decreases n
  {
    if n == 0 {
      assert Ones(n) + rest == rest;
    } else {
      PlaceOnesStep(r, index, n, rest);
      PlaceOnes(r, index + 1, n - 1, rest);
    }
  }

  /** A character that is not a count is read the same in front of rows read the same. */
  lemma PlaceCons(r: nat, index: nat, c: char, t1: string, t2: string)
    requires r < 8 && !('1' <= c <= '8') && PlaceRow(r, index + 1, t1) == PlaceRow(r, index + 1, t2)
    ensures PlaceRow(r, index, [c] + t1) == PlaceRow(r, index, [c] + t2)
  {
    PlaceRowStep(r, index, c, t1);
    PlaceRowStep(r, index, c, t2);
  }

  /** The expansion of a row's first character. */
  lemma ExpandHead(c: char, rest: string)
    ensures Expand([c] + rest) == (if '1' <= c <= '8' then Ones(DigitValue(c)) else [c]) + Expand(rest)
  {
    assert ([c] + rest)[0] == c && ([c] + rest)[1..] == rest;
  }

  /** A count in front of rows read the same is read as that many ones. */
  lemma PlaceCountCons(r: nat, index: nat, c: char, e: string, rest: string)
    requires r < 8 && '1' <= c <= '8'
    requires PlaceRow(r, index + DigitValue(c), e) == PlaceRow(r, index + DigitValue(c), rest)
    ensures PlaceRow(r, index, Ones(DigitValue(c)) + e) == PlaceRow(r, index, [c] + rest)
  {
    PlaceOnes(r, index, DigitValue(c), e);
    PlaceSkip(r, index, c, rest);
  }

  /** A row read with its counts written out as ones is read the same. */
  lemma {:induction false} PlaceExpand(r: nat, index: nat, row: string)
    requires r < 8
    ensures PlaceRow(r, index, Expand(row)) == PlaceRow(r, index, row)
    decreases |row|
  {
    if row == [] {
      assert Expand(row) == [];
    } else {
      var c := row[0];
      var rest := row[1..];
      var e := Expand(rest);
      assert row == [c] + rest;
      ExpandHead(c, rest);
      if '1' <= c <= '8' {
        PlaceExpand(r, index + DigitValue(c), rest);
        PlaceCountCons(r, index, c, e, rest);
      } else {
        PlaceExpand(r, index + 1, rest);
        PlaceCons(r, index, c, e, rest);
      }
    }
  }

  // ---------------------------------------------------------------- the round trip

  /** The `/`-joined rows are compressed row by row: no run reaches across a `/`. */
  lemma {:induction false} ReplaceAllRows(rows: seq<string>, n: nat)
    requires 1 <= n <= 8 && |rows| >= 1
    ensures ReplaceAll(Join(rows, "/"), Ones(n), NatToString(n)) ==
      Join(seq(|rows|, k requires 0 <= k < |rows| => ReplaceAll(rows[k], Ones(n), NatToString(n))), "/")
    decreases |rows|
  {
    var f := seq(|rows|, k requires 0 <= k < |rows| => ReplaceAll(rows[k], Ones(n), NatToString(n)));
    if |rows| > 1 {
      ReplaceAllRows(rows[1..], n);
      ReplaceAllAround(rows[0], '/', Join(rows[1..], "/"), Ones(n), NatToString(n));
      assert f[1..] == seq(|rows| - 1, k requires 0 <= k < |rows| - 1 => ReplaceAll(rows[1..][k], Ones(n), NatToString(n)));
    }
  }

  lemma {:induction false} CompressRows(rows: seq<string>, n: nat)
    requires n <= 8 && |rows| >= 1
    ensures Compress(Join(rows, "/"), n) == Join(seq(|rows|, k requires 0 <= k < |rows| => Compress(rows[k], n)), "/")
    decreases n
  {
    if n < 2 {
      assert seq(|rows|, k requires 0 <= k < |rows| => Compress(rows[k], n)) == rows;
    } else {
      ReplaceAllRows(rows, n);
      var next := seq(|rows|, k requires 0 <= k < |rows| => ReplaceAll(rows[k], Ones(n), NatToString(n)));
      CompressRows(next, n - 1);
      assert seq(|next|, k requires 0 <= k < |next| => Compress(next[k], n - 1)) ==
             seq(|rows|, k requires 0 <= k < |rows| => Compress(rows[k], n));
    }
  }

  /** Row `r` of the uncompressed placement. */
  function RawRow(st: State, r: nat): (row: string)
    requires Valid(st) && r < 8
    ensures |row| == 8 && forall j :: 0 <= j < 8 ==> row[j] == SquareChar(st, r * 8 + j)
  {
    seq(8, j requires 0 <= j < 8 => SquareChar(st, r * 8 + j))
  }

  /** The eight uncompressed rows. */
  function RawRows(st: State): (rows: seq<string>)
    requires Valid(st)
    ensures |rows| == 8 && forall i :: 0 <= i < 8 ==> rows[i] == RawRow(st, i)
  {
    seq(8, i requires 0 <= i < 8 => RawRow(st, i))
  }

  /** The eight rows of the written placement. */
  function WrittenRows(st: State): (rows: seq<string>)
    requires Valid(st)
    ensures |rows| == 8 && forall i :: 0 <= i < 8 ==> rows[i] == Compress(RawRow(st, i), 8)
  {
    seq(8, i requires 0 <= i < 8 => Compress(RawRow(st, i), 8))
  }

  lemma RawRowTokens(st: State, r: nat)
    requires Valid(st) && r < 8
    ensures Tokens(RawRow(st, r)) && Expand(RawRow(st, r)) == RawRow(st, r)
  {
    var row := RawRow(st, r);
    assert Tokens(row);
    ExpandSimple(row);
  }

  /** A row of piece letters and single `1`s is its own expansion. */
  lemma {:induction false} ExpandSimple(row: string)
    requires forall i :: 0 <= i < |row| ==> IsValidPiece(row[i]) || row[i] == '1'
    ensures Expand(row) == row
    decreases |row|
  {
    if row != [] {
      ExpandSimple(row[1..]);
      if row[0] == '1' { assert Ones(1) == "1"; }
    }
  }

  /** The piece standing on square `s`, with the square, if there is one. */
  function SquarePlaced(st: State, s: SquareId): (r: seq<Placed>)
    requires Valid(st)
    ensures |r| <= 1 && (r == [] <==> Occupant(st, s).None?)
    ensures r != [] ==> r[0] == (s, Occupant(st, s).value)
  {
    match Occupant(st, s)
    case None => []
    case Some(p) => [(s, p)]
  }

  /** Reading the character a square contributes creates the piece on that square. */
  lemma PlaceSquare(st: State, r: nat, k: nat)
    requires Valid(st) && r < 8 && k < 8
    ensures PlaceChar(r, k, SquareChar(st, r * 8 + k)) == Some((SquarePlaced(st, r * 8 + k), k + 1))
  {
    var sq: SquareId := r * 8 + k;
    match Occupant(st, sq)
    case None =>
      PlaceCount(r, k, '1');
      assert DigitValue('1') == 1;
    case Some(p) =>
      SymbolRoundTrip(p);
  }

  /** The pieces of `st` on squares `lo` to `hi - 1`, in square order. */
  function Occupied(st: State, lo: nat, hi: nat): (r: seq<Placed>)
    requires Valid(st) && lo <= hi <= 64
    decreases hi - lo
  {
    if lo == hi then []
    else
      SquarePlaced(st, lo) + Occupied(st, lo + 1, hi)
  }

  lemma {:induction false} OccupiedSplit(st: State, a: nat, b: nat, c: nat)
    requires Valid(st) && a <= b <= c <= 64
    ensures Occupied(st, a, c) == Occupied(st, a, b) + Occupied(st, b, c)
    decreases b - a
  {
    if a == b {
      assert Occupied(st, a, b) == [];
    } else {
      OccupiedSplit(st, a + 1, b, c);
      AppendAssoc(SquarePlaced(st, a), Occupied(st, a + 1, b), Occupied(st, b, c));
    }
  }

  /** Reading row `r` of the uncompressed placement from column `k` creates the pieces on those squares. */
  lemma {:induction false} PlaceRawRow(st: State, r: nat, k: nat)
    requires Valid(st) && r < 8 && k <= 8
    ensures PlaceRow(r, k, RawRow(st, r)[k..]) == Some((Occupied(st, r * 8 + k, r * 8 + 8), 8))
    decreases 8 - k
  {
    var row := RawRow(st, r);
    if k == 8 {
      assert row[k..] == [];
    } else {
      var c := row[k];
      assert c == SquareChar(st, r * 8 + k);
      assert row[k..] == [c] + row[k + 1..];
      PlaceRowStep(r, k, c, row[k + 1..]);
      PlaceSquare(st, r, k);
      PlaceRawRow(st, r, k + 1);
    }
  }

  /** Reading rows `r` to 7 of the uncompressed placement creates the pieces of those rows. */
  lemma {:induction false} PlaceRawRows(st: State, r: nat)
    requires Valid(st) && r <= 8
    ensures PlaceRows(RawRows(st), r) == Some(Occupied(st, r * 8, 64))
    decreases 8 - r
  {
    var rows := RawRows(st);
    if r < 8 {
      var head := Occupied(st, r * 8, r * 8 + 8);
      var tail := Occupied(st, r * 8 + 8, 64);
      assert PlaceRow(r, 0, rows[r]) == Some((head, 8)) by {
        assert rows[r] == RawRow(st, r) && rows[r][0..] == rows[r];
        PlaceRawRow(st, r, 0);
      }
      assert PlaceRows(rows, r + 1) == Some(tail) by {
        assert (r + 1) * 8 == r * 8 + 8;
        PlaceRawRows(st, r + 1);
      }
      PlaceRowsStep(rows, r, head, tail);
      OccupiedSplit(st, r * 8, r * 8 + 8, 64);
    }
  }

  /** A full row followed by the rows after it reads as the row's pieces and then theirs. */
  lemma PlaceRowsStep(rows: seq<string>, r: nat, head: seq<Placed>, tail: seq<Placed>)
    requires |rows| == 8 && r < 8
    requires PlaceRow(r, 0, rows[r]) == Some((head, 8)) && PlaceRows(rows, r + 1) == Some(tail)
    ensures PlaceRows(rows, r) == Some(head + tail)
  {
  }

  /** Registering a piece puts it on its square and leaves the other squares alone. */
  lemma RegisterOccupants(b: State, pc: Piece, sq: SquareId)
    requires Valid(b) && b.registered == |b.pieces|
    ensures Occupant(Register(b, pc, sq), sq) == Some(pc)
    ensures forall s :: 0 <= s < 64 && s != sq ==>
      Register(b, pc, sq).occ[s] == b.occ[s] && Occupant(Register(b, pc, sq), s) == Occupant(b, s)
  {
    var b1 := Register(b, pc, sq);
    forall s | 0 <= s < 64 && s != sq ensures Occupant(b1, s) == Occupant(b, s) {
      assert b1.occ[s] == b.occ[s];
    }
  }

  /** Creating the piece of square `from` extends the agreement with `st` by that square. */
  lemma RegisterAgrees(st: State, b: State, p: Piece, from: SquareId)
    requires Valid(st) && Valid(b) && b.registered == |b.pieces| && Occupant(st, from) == Some(p)
    requires forall s :: 0 <= s < from ==> Occupant(b, s) == Occupant(st, s)
    requires forall s :: from <= s < 64 ==> b.occ[s].None?
    ensures var b1 := Register(b, p, from);
      && (forall s :: 0 <= s < from + 1 ==> Occupant(b1, s) == Occupant(st, s))
      && (forall s :: from + 1 <= s < 64 ==> b1.occ[s].None?)
  {
    RegisterOccupants(b, p, from);
  }

  /**
   * Creating the pieces of squares `from` onwards on a board that agrees with
   * `st` before `from` and is empty after gives a board that agrees with `st`
   * everywhere.
   */
  lemma {:induction false} BuildOccupied(st: State, b: State, from: nat)
    requires Valid(st) && Valid(b) && b.registered == |b.pieces| && from <= 64
    requires forall s :: 0 <= s < from ==> Occupant(b, s) == Occupant(st, s)
    requires forall s :: from <= s < 64 ==> b.occ[s].None?
    ensures forall s :: 0 <= s < 64 ==> Occupant(Build(b, Occupied(st, from, 64)), s) == Occupant(st, s)
    decreases 64 - from
  {
    if from < 64 {
      var rest := Occupied(st, from + 1, 64);
      var here: SquareId := from;
      match Occupant(st, here)
      case None =>
        assert Occupied(st, from, 64) == rest;
        BuildOccupied(st, b, from + 1);
      case Some(p) =>
        var b1 := Register(b, p, here);
        assert Build(b, Occupied(st, from, 64)) == Build(b1, rest) by {
          var all := [(here, p)] + rest;
          assert Occupied(st, from, 64) == all;
          assert all[0] == (here, p) && all[1..] == rest;
        }
        RegisterAgrees(st, b, p, from);
        BuildOccupied(st, b1, from + 1);
    }
  }

  /** Reading rows whose expansions are the same reads the same pieces. */
  lemma {:induction false} PlaceRowsExpand(rows: seq<string>, raw: seq<string>, r: nat)
    requires |rows| == 8 && |raw| == 8 && r <= 8
    requires forall i :: 0 <= i < 8 ==> Expand(rows[i]) == raw[i] && Expand(raw[i]) == raw[i]
    ensures PlaceRows(rows, r) == PlaceRows(raw, r)
    decreases 8 - r
  {
    if r < 8 {
      PlaceExpand(r, 0, rows[r]);
      PlaceExpand(r, 0, raw[r]);
      PlaceRowsExpand(rows, raw, r + 1);
    }
  }

  /** The uncompressed placement is the raw rows joined by `/`. */
  lemma RawChunks(st: State)
    requires Valid(st)
    ensures Chunks(Cells(st)) == RawRows(st)
  {
    var cells := Cells(st);
    forall i | 0 <= i < 8 ensures cells[8 * i..8 * i + 8] == RawRow(st, i) {
    }
  }

  /** The written placement is the compressed raw rows joined by `/`. */
  lemma CompressedRows(st: State)
    requires Valid(st)
    ensures WritePlacement(st) == Join(WrittenRows(st), "/")
  {
    var raw := RawRows(st);
    RawChunks(st);
    CompressRows(raw, 8);
    assert seq(|raw|, k requires 0 <= k < |raw| => Compress(raw[k], 8)) == WrittenRows(st);
  }

  /** Each written row is made of tokens and expands to the raw row. */
  lemma WrittenTokens(st: State)
    requires Valid(st)
    ensures forall i :: 0 <= i < 8 ==> Tokens(WrittenRows(st)[i]) && Expand(WrittenRows(st)[i]) == RawRows(st)[i]
  {
    var raw := RawRows(st);
    var rows := WrittenRows(st);
    forall i | 0 <= i < 8 ensures Tokens(rows[i]) && Expand(rows[i]) == raw[i] {
      RawRowTokens(st, i);
      ExpandCompress(raw[i], 8);
    }
  }

  /** The written placement splits back into its rows. */
  lemma SplitWritten(st: State)
    requires Valid(st)
    ensures Split(WritePlacement(st), "/") == WrittenRows(st)
  {
    var rows := WrittenRows(st);
    WrittenTokens(st);
    forall k, i | 0 <= k < 8 && 0 <= i < |rows[k]| ensures rows[k][i] != '/' {
      assert Tokens(rows[k]);
    }
    CompressedRows(st);
    JoinSplit(rows, '/');
  }

  /**
   * Writing the placement of a board and reading it back creates the board's
   * pieces in square order, so every square holds the same piece (side and
   * kind) as before.
   */
  lemma PlacementRoundTrip(st: State)
    requires Valid(st)
    ensures ReadPlacement(WritePlacement(st)) == Some(Build(EmptyBoard(), Occupied(st, 0, 64)))
    ensures forall s :: 0 <= s < 64 ==> Occupant(ReadPlacement(WritePlacement(st)).value, s) == Occupant(st, s)
  {
    var raw := RawRows(st);
    var rows := WrittenRows(st);
    SplitWritten(st);
    WrittenTokens(st);
    forall i | 0 <= i < 8 ensures Tokens(raw[i]) && Expand(raw[i]) == raw[i] {
      RawRowTokens(st, i);
    }
    PlaceRowsExpand(rows, raw, 0);
    PlaceRawRows(st, 0);
    BuildOccupied(st, EmptyBoard(), 0);
  }
}
