/**
 * The FEN string of a board: the `Board` constructor reads one (six fields
 * separated by spaces, or the initial position when none is given) and the
 * `fenstring` getter writes one. Every error the constructor throws is the
 * same `Invalid parameter` error naming the string it was given.
 */
module Fen {
  import opened Util
  import opened Squares
  import opened Pieces
  import opened BoardState
  import opened Placement

  /** The rows of the initial placement, rank 8 first. */
  const DefaultRows: seq<string> := ["rnbqkbnr", "pppppppp", "8", "8", "8", "8", "PPPPPPPP", "RNBQKBNR"]

  /** The initial placement field. */
  const DefaultPlacement: string := Join(DefaultRows, "/")

  /** The five fields after the placement in both the default position and `fromPieces`. */
  const StartFields: seq<string> := ["w", "KQkq", "-", "0", "1"]

  /** The six fields of the default position. */
  const DefaultFields: seq<string> := [DefaultPlacement] + StartFields

  /**
   * The position a board starts from when the constructor is given none,
   * `rnbqkbnr/pppppppp/8/8/8/8/PPPPPPPP/RNBQKBNR w KQkq - 0 1`.
   */
  const DefaultPosition: string := Join(DefaultFields, " ")

  // ---------------------------------------------------------------- reading fields

  /** The turn field, lower-cased, is kept when `'bw'.includes` it. */
  function ReadTurn(field: string): Option<string> {
    var t := ToLower(field);
    if IndexOf("bw", t).Some? then Some(t) else None
  }

  /** `/^(?:-|[KQkq]{1,4})$/`: a dash, or one to four of the letters `KQkq` in any order and repetition. */
  predicate CastlingFieldOk(field: string) {
    field == "-" || (1 <= |field| <= 4 && forall i :: 0 <= i < |field| ==> field[i] in "KQkq")
  }

  /** Each castling flag is set when its letter occurs in the field. */
  function ReadRights(field: string): Rights {
    Rights('K' in field, 'Q' in field, 'k' in field, 'q' in field)
  }

  /** The en-passant field: a dash for none, or a square key. */
  function ReadEnPassant(field: string): Option<Option<SquareId>> {
    if field == "-" then Some(None)
    else if IsValidPosition(field) then Some(Some(Lookup(field).value))
    else None
  }

  /** A clock field: `parseInt` of it, refused when it is `NaN` or negative. */
  function ReadClock(field: string): (r: Option<int>)
    ensures r.Some? ==> r.value >= 0
  {
    match ParseInt(field)
    case None => None
    case Some(n) => if n < 0 then None else Some(n)
  }

  /**
   * The constructor once the string is cut into its six fields: turn,
   * castling and en-passant fields are checked first, then the placement,
   * which must have eight rows, is read onto an empty board, then the
   * clocks. `text` is the string the error message names.
   */
  function DecodeFields(f: seq<string>, text: string): (r: Outcome<State>)
    requires |f| == 6
    ensures r.Fail? ==> r.error == InvalidFen(text)
  {
    var turn := ReadTurn(f[1]);
    var ep := ReadEnPassant(f[3]);
    var half := ReadClock(f[4]);
    var full := ReadClock(f[5]);
    if turn.None? || !CastlingFieldOk(f[2]) || ep.None? then Fail(InvalidFen(text))
    else
      match ReadPlacement(f[0])
      case None => Fail(InvalidFen(text))
      case Some(board) =>
        if half.None? || full.None? then Fail(InvalidFen(text))
        else Ok(board.(turn := turn.value, castling := ReadRights(f[2]), enPassant := ep.value,
                       halfmove := half.value, fullmove := full.value, placement := f[0], changed := false))
  }

  /**
   * `new Board(startPosition)`: none means the default position; a string
   * is split on spaces, empty pieces dropped, and must leave six fields.
   * (The source joins those fields with single spaces and splits them again,
   * which gives them back; see `RejoinedFields`.)
   */
  function Decode(input: Option<string>): (r: Outcome<State>)
    ensures r.Ok? ==> Coherent(r.value) && !r.value.changed && r.value.history == []
    ensures r.Ok? ==> r.value.registered == |r.value.pieces| && forall p :: 0 <= p < |r.value.pieces| ==> r.value.pinning[p].None?
    ensures r.Fail? ==> r.error == InvalidFen(if input.Some? then input.value else "undefined")
  {
    match input
    case None =>
      DefaultCoherent();
      DecodeFieldsCoherent(DefaultFields, "undefined");
      DecodeFields(DefaultFields, "undefined")
    case Some(s) =>
      var f := NonEmptyParts(Split(s, " "));
      if |f| != 6 then Fail(InvalidFen(s))
      else
        FieldsFree(s);
        DecodeFieldsCoherent(f, s);
        DecodeFields(f, s)
  }

  /** `new Board().fromPieces(pieces)`: the given back rank for both sides, white to move. */
  function FromPieces(pieces: string): Outcome<State> {
    Decode(Some(FromPiecesText(pieces)))
  }

  function FromPiecesText(pieces: string): string {
    FromPiecesPlacement(pieces) + " w KQkq - 0 1"
  }

  /** The placement field `fromPieces` writes: the pieces lower-cased, the pawns, four empty rows, then upper-cased. */
  function FromPiecesPlacement(pieces: string): string {
    ToLower(pieces) + "/pppppppp/8/8/8/8/PPPPPPPP/" + ToUpper(pieces)
  }

  // ---------------------------------------------------------------- writing

  /** The flag a castling letter stands for. */
  predicate HasFlag(r: Rights, c: char) {
    if c == 'K' then r.whiteKing
    else if c == 'Q' then r.whiteQueen
    else if c == 'k' then r.blackKing
    else c == 'q' && r.blackQueen
  }

  /** The fold over the letters: each letter whose flag is set, in order. */
  function SetFlags(r: Rights, letters: string): string
    decreases |letters|
  {
    if letters == [] then []
    else (if HasFlag(r, letters[0]) then [letters[0]] else []) + SetFlags(r, letters[1..])
  }

  /** The castling field the getter writes: the set flags in the order `KQkq`, or a dash. */
  function CastlingField(r: Rights): string {
    var s := SetFlags(r, "KQkq");
    if |s| > 0 then s else "-"
  }

  function EnPassantField(ep: Option<SquareId>): string {
    match ep
    case None => "-"
    case Some(s) => Key(s)
  }

  /** The getter's cache: a changed board has its placement field written afresh. */
  function Refresh(st: State): (r: State)
    requires Valid(st)
    ensures Valid(r) && !r.changed
    ensures r == st.(placement := r.placement, changed := false)
  {
    if st.changed then st.(placement := WritePlacement(st), changed := false) else st
  }

  /** The six fields of the `fenstring` getter, in order. */
  function FenFields(st: State): (f: seq<string>)
    requires Valid(st)
    ensures |f| == 6
  {
    [Refresh(st).placement, st.turn, CastlingField(st.castling), EnPassantField(st.enPassant),
     IntToString(st.halfmove), IntToString(st.fullmove)]
  }

  /** The `fenstring` getter: the six fields joined by spaces. */
  function FenOf(st: State): string
    requires Valid(st)
  {
    Join(FenFields(st), " ")
  }

  // ---------------------------------------------------------------- the invariant

  /** A field has no space and is not empty, so a space-separated list keeps it whole. */
  predicate Field(s: string) {
    |s| > 0 && forall i :: 0 <= i < |s| ==> s[i] != ' '
  }

  /**
   * What the codec keeps of a board: a turn the constructor accepts,
   * clocks that are not negative, and, while the board is unchanged, a
   * cached placement field that is one field and describes the squares.
   */
  predicate Coherent(st: State) {
    && Valid(st)
    && (st.turn == "b" || st.turn == "w" || st.turn == "bw")
    && st.halfmove >= 0 && st.fullmove >= 0
    && (!st.changed ==> Described(st))
  }

  predicate Described(st: State)
    requires Valid(st)
  {
    && Field(st.placement)
    && ReadPlacement(st.placement).Some?
    && forall s :: 0 <= s < 64 ==> Occupant(ReadPlacement(st.placement).value, s) == Occupant(st, s)
  }

  // ---------------------------------------------------------------- lemmas: fields

  /** `'bw'.includes(t)` for a non-empty `t`: `t` is `b`, `w` or `bw`. */
  lemma BwIncludes(t: string)
    requires |t| > 0
    ensures IndexOf("bw", t).Some? <==> (t == "b" || t == "w" || t == "bw")
  {
    var bw := "bw";
    if |t| > 2 {
      assert IndexFrom(bw, t, 0).None?;
    } else if |t| == 2 {
      if t == bw {
        assert OccursAt(bw, t, 0) by { assert bw[0..2] == bw; }
      } else {
        assert !OccursAt(bw, t, 0) by { assert bw[0..2] == bw; }
        assert IndexFrom(bw, t, 1).None?;
      }
    } else if t[0] == 'b' {
      assert t == "b";
      assert OccursAt(bw, t, 0) by { assert bw[0..1] == "b"; }
    } else if t[0] == 'w' {
      assert t == "w";
      assert !OccursAt(bw, t, 0) by { assert bw[0..1] == "b"; }
      assert OccursAt(bw, t, 1) by { assert bw[1..2] == "w"; }
    } else {
      assert !OccursAt(bw, t, 0) by { assert bw[0..1] == "b"; }
      assert !OccursAt(bw, t, 1) by { assert bw[1..2] == "w"; }
      assert IndexFrom(bw, t, 2).None?;
      assert t != "b" && t != "w";
    }
  }

  /** The turn field is accepted exactly when, lower-cased, it is `b`, `w` or `bw`. */
  lemma TurnAccepted(field: string)
    requires |field| > 0
    ensures ReadTurn(field).Some? <==> (ToLower(field) == "b" || ToLower(field) == "w" || ToLower(field) == "bw")
  {
    BwIncludes(ToLower(field));
  }

  /** The turns the getter writes are read back unchanged. */
  lemma TurnRoundTrip(turn: string)
    requires turn == "b" || turn == "w" || turn == "bw"
    ensures ReadTurn(turn) == Some(turn)
  {
    assert ToLower(turn) == turn by {
      assert LowerChar('b') == 'b' && LowerChar('w') == 'w';
    }
    TurnAccepted(turn);
  }

  /** The fold keeps exactly the letters whose flag is set, and no more of them than there are letters. */
  lemma {:induction false} SetFlagsMembers(r: Rights, letters: string, c: char)
    ensures |SetFlags(r, letters)| <= |letters|
    ensures c in SetFlags(r, letters) <==> c in letters && HasFlag(r, c)
    decreases |letters|
  {
    if letters != [] {
      SetFlagsMembers(r, letters[1..], c);
      assert letters == [letters[0]] + letters[1..];
    }
  }

  /** The castling field the getter writes is accepted and gives the same flags back. */
  lemma RightsRoundTrip(r: Rights)
    ensures CastlingFieldOk(CastlingField(r))
    ensures ReadRights(CastlingField(r)) == r
  {
    var s := SetFlags(r, "KQkq");
    SetFlagsMembers(r, "KQkq", 'K');
    SetFlagsMembers(r, "KQkq", 'Q');
    SetFlagsMembers(r, "KQkq", 'k');
    SetFlagsMembers(r, "KQkq", 'q');
    SetFlagsMembers(r, "KQkq", '-');
    forall i | 0 <= i < |s| ensures s[i] in "KQkq" {
      SetFlagsMembers(r, "KQkq", s[i]);
    }
  }

  /** The en-passant field the getter writes gives the same square back. */
  lemma EnPassantRoundTrip(ep: Option<SquareId>)
    ensures ReadEnPassant(EnPassantField(ep)) == Some(ep)
  {
    if ep.Some? {
      KeyRoundTrip(ep.value);
    }
  }

  /** A clock the getter writes is read back as the same number. */
  lemma ClockRoundTrip(n: int)
    requires n >= 0
    ensures ReadClock(IntToString(n)) == Some(n)
  {
    ParseIntOfNatToString(n);
  }

  // ---------------------------------------------------------------- lemmas: splitting

  /** The pieces of a `split(' ')` with empty pieces dropped are fields. */
  lemma FieldsFree(s: string)
    ensures forall k :: 0 <= k < |NonEmptyParts(Split(s, " "))| ==> Field(NonEmptyParts(Split(s, " "))[k])
  {
    var parts := Split(s, " ");
    SplitPartsFree(s, " ");
    forall k | 0 <= k < |NonEmptyParts(parts)| ensures Field(NonEmptyParts(parts)[k]) {
      var f := NonEmptyParts(parts)[k];
      var j :| 0 <= j < |parts| && parts[j] == f;
      forall i | 0 <= i < |f| ensures f[i] != ' ' {
        assert !OccursAt(f, " ", i);
        assert f[i..i + 1] == [f[i]];
      }
    }
  }

  /** Joining fields with single spaces and splitting again gives the fields back. */
  lemma RejoinedFields(f: seq<string>)
    requires |f| >= 1 && forall k :: 0 <= k < |f| ==> Field(f[k])
    ensures NonEmptyParts(Split(Join(f, " "), " ")) == f
  {
    JoinSplit(f, ' ');
  }

  lemma StartFieldsAreFields()
    ensures forall k :: 0 <= k < 5 ==> Field(StartFields[k])
  {
  }

  lemma DefaultCoherent()
    ensures forall k :: 0 <= k < 6 ==> Field(DefaultFields[k])
  {
    StartFieldsAreFields();
    var rows := DefaultRows;
    forall k, i | 0 <= k < |rows| && 0 <= i < |rows[k]| ensures rows[k][i] != ' ' {
      BackRanks();
    }
    JoinAvoids(rows, "/", ' ');
    assert Join(rows, "/") == rows[0] + "/" + Join(rows[1..], "/");
  }

  /** The default position is the default fields separated by spaces. */
  lemma DefaultSplit()
    ensures Split(DefaultPosition, " ") == DefaultFields
  {
    DefaultCoherent();
    JoinSplit(DefaultFields, ' ');
  }

  // ---------------------------------------------------------------- lemmas: the board read

  /** A board read from a placement field, with the other fields set, is coherent. */
  lemma WithFields(board: State, field: string, turn: string, rights: Rights, ep: Option<SquareId>,
                   half: int, full: int)
    requires ReadPlacement(field) == Some(board) && Field(field)
    requires (turn == "b" || turn == "w" || turn == "bw") && half >= 0 && full >= 0
    ensures Coherent(board.(turn := turn, castling := rights, enPassant := ep, halfmove := half,
                            fullmove := full, placement := field, changed := false))
  {
    var st := board.(turn := turn, castling := rights, enPassant := ep, halfmove := half,
                     fullmove := full, placement := field, changed := false);
    assert st.occ == board.occ && st.pieces == board.pieces;
    assert forall s :: 0 <= s < 64 ==> Occupant(st, s) == Occupant(board, s);
  }

  /** A board read from fields is coherent, with nothing pinned and no history. */
  lemma DecodeFieldsCoherent(f: seq<string>, text: string)
    requires |f| == 6 && forall k :: 0 <= k < 6 ==> Field(f[k])
    ensures DecodeFields(f, text).Ok? ==>
      var st := DecodeFields(f, text).value;
      Coherent(st) && !st.changed && st.history == [] && st.registered == |st.pieces| &&
      forall p :: 0 <= p < |st.pieces| ==> st.pinning[p].None?
  {
    if DecodeFields(f, text).Ok? {
      var board := ReadPlacement(f[0]).value;
      var turn := ReadTurn(f[1]).value;
      TurnAccepted(f[1]);
      WithFields(board, f[0], turn, ReadRights(f[2]), ReadEnPassant(f[3]).value,
                 ReadClock(f[4]).value, ReadClock(f[5]).value);
      ReadPlacementFresh(f[0]);
    }
  }

  /** A board read from a placement field has nothing pinned, no history and no change. */
  lemma ReadPlacementFresh(field: string)
    requires ReadPlacement(field).Some?
    ensures var b := ReadPlacement(field).value;
      b.history == [] && !b.changed && forall p :: 0 <= p < |b.pieces| ==> b.pinning[p].None?
  {
    var rows := Split(field, "/");
    var placed := PlaceRows(rows, 0).value;
    BuildFresh(EmptyBoard(), placed);
  }

  /** Registering pieces adds no pin, no history and no change. */
  lemma {:induction false} BuildFresh(st: State, placed: seq<Placed>)
    requires Valid(st) && st.registered == |st.pieces|
    requires st.history == [] && !st.changed && forall p :: 0 <= p < |st.pieces| ==> st.pinning[p].None?
    ensures var b := Build(st, placed);
      b.history == [] && !b.changed && forall p :: 0 <= p < |b.pieces| ==> b.pinning[p].None?
    decreases |placed|
  {
    if placed != [] {
      var st1 := Register(st, placed[0].1, placed[0].0);
      assert forall p :: 0 <= p < |st1.pieces| ==> st1.pinning[p].None? by {
        assert st1.pinning == st.pinning + [None];
      }
      BuildFresh(st1, placed[1..]);
    }
  }

  /** The board read back has the same fields as the one written. */
  lemma {:induction false} DecodedShape(input: Option<string>)
    requires Decode(input).Ok?
    ensures var st := Decode(input).value;
      ReadPlacement(st.placement).Some? &&
      st == ReadPlacement(st.placement).value.(turn := st.turn, castling := st.castling, enPassant := st.enPassant,
                                                halfmove := st.halfmove, fullmove := st.fullmove,
                                                placement := st.placement, changed := false)
  {
    match input
    case None =>
    case Some(s) =>
  }

  // ---------------------------------------------------------------- lemmas: writing and reading back

  /** A written placement field is one field: rows of tokens joined by `/`. */
  lemma WrittenField(st: State)
    requires Valid(st)
    ensures Field(WritePlacement(st))
  {
    var rows := WrittenRows(st);
    CompressedRows(st);
    RowsWithoutSpace(st);
    JoinAvoids(rows, "/", ' ');
    assert |Join(rows, "/")| >= |rows[0] + "/"|;
  }

  lemma RowsWithoutSpace(st: State)
    requires Valid(st)
    ensures forall k, i :: 0 <= k < 8 && 0 <= i < |WrittenRows(st)[k]| ==> WrittenRows(st)[k][i] != ' '
  {
    var rows := WrittenRows(st);
    WrittenTokens(st);
    forall k, i | 0 <= k < 8 && 0 <= i < |rows[k]| ensures rows[k][i] != ' ' {
      assert Tokens(rows[k]);
    }
  }

  lemma NumberField(n: int)
    requires n >= 0
    ensures Field(IntToString(n))
  {
    var s := IntToString(n);
    forall i | 0 <= i < |s| ensures s[i] != ' ' {
      assert IsDigit(s[i]);
    }
  }

  lemma CastlingFieldIsField(r: Rights)
    ensures Field(CastlingField(r))
  {
    var f := CastlingField(r);
    if |SetFlags(r, "KQkq")| > 0 {
      forall i | 0 <= i < |f| ensures f[i] != ' ' {
        SetFlagsMembers(r, "KQkq", f[i]);
      }
    }
  }

  lemma EnPassantFieldIsField(ep: Option<SquareId>)
    ensures Field(EnPassantField(ep))
  {
  }

  /** Each of the six fields the getter writes for a coherent board is one field. */
  lemma FenFieldsAreFields(st: State)
    requires Coherent(st)
    ensures forall k :: 0 <= k < 6 ==> Field(FenFields(st)[k])
  {
    var f := FenFields(st);
    assert Field(f[0]) by { CachedField(st); }
    assert Field(f[1]) by { TurnField(st.turn); }
    assert Field(f[2]) by { CastlingFieldIsField(st.castling); }
    assert Field(f[3]) by { EnPassantFieldIsField(st.enPassant); }
    assert Field(f[4]) by { NumberField(st.halfmove); }
    assert Field(f[5]) by { NumberField(st.fullmove); }
  }

  lemma CachedField(st: State)
    requires Coherent(st)
    ensures Field(Refresh(st).placement)
  {
    if st.changed {
      WrittenField(st);
    }
  }

  lemma TurnField(turn: string)
    requires turn == "b" || turn == "w" || turn == "bw"
    ensures Field(turn)
  {
  }

  /** The constructor cuts the getter's string into the getter's fields. */
  lemma DecodeOfFen(st: State)
    requires Coherent(st)
    ensures Decode(Some(FenOf(st))) == DecodeFields(FenFields(st), FenOf(st))
  {
    FenFieldsAreFields(st);
    RejoinedFields(FenFields(st));
  }

  /** Six fields that each pass their check are read into a board. */
  lemma DecodeFieldsAccepts(f: seq<string>, text: string)
    requires |f| == 6 && ReadTurn(f[1]).Some? && CastlingFieldOk(f[2]) && ReadEnPassant(f[3]).Some?
    requires ReadPlacement(f[0]).Some? && ReadClock(f[4]).Some? && ReadClock(f[5]).Some?
    ensures DecodeFields(f, text) ==
      Ok(ReadPlacement(f[0]).value.(turn := ReadTurn(f[1]).value, castling := ReadRights(f[2]),
                                     enPassant := ReadEnPassant(f[3]).value, halfmove := ReadClock(f[4]).value,
                                     fullmove := ReadClock(f[5]).value, placement := f[0], changed := false))
  {
  }

  /** Reading the getter's fields back. */
  lemma {:induction false} DecodeWritten(st: State)
    requires Coherent(st)
    ensures ReadPlacement(FenFields(st)[0]).Some?
    ensures var f := FenFields(st);
      DecodeFields(f, FenOf(st)) ==
        Ok(ReadPlacement(f[0]).value.(turn := st.turn, castling := st.castling, enPassant := st.enPassant,
                                       halfmove := st.halfmove, fullmove := st.fullmove,
                                       placement := f[0], changed := false))
    ensures forall s :: 0 <= s < 64 ==> Occupant(ReadPlacement(FenFields(st)[0]).value, s) == Occupant(st, s)
  {
    var f := FenFields(st);
    WrittenPlacementRead(st);
    WrittenStateFields(st);
    DecodeFieldsAccepts(f, FenOf(st));
  }

  /** The getter's placement field is read back onto the squares of the board. */
  lemma WrittenPlacementRead(st: State)
    requires Coherent(st)
    ensures ReadPlacement(FenFields(st)[0]).Some?
    ensures forall s :: 0 <= s < 64 ==> Occupant(ReadPlacement(FenFields(st)[0]).value, s) == Occupant(st, s)
  {
    assert FenFields(st)[0] == Refresh(st).placement;
    if st.changed {
      PlacementRoundTrip(st);
    }
  }

  /** The getter's other five fields are read back as the board's turn, flags, en-passant square and clocks. */
  lemma WrittenStateFields(st: State)
    requires Coherent(st)
    ensures var f := FenFields(st);
      && ReadTurn(f[1]) == Some(st.turn) && CastlingFieldOk(f[2]) && ReadRights(f[2]) == st.castling
      && ReadEnPassant(f[3]) == Some(st.enPassant)
      && ReadClock(f[4]) == Some(st.halfmove) && ReadClock(f[5]) == Some(st.fullmove)
  {
    var f := FenFields(st);
    assert f[1] == st.turn && f[2] == CastlingField(st.castling) && f[3] == EnPassantField(st.enPassant);
    assert f[4] == IntToString(st.halfmove) && f[5] == IntToString(st.fullmove);
    TurnRoundTrip(st.turn);
    RightsRoundTrip(st.castling);
    EnPassantRoundTrip(st.enPassant);
    ClockRoundTrip(st.halfmove);
    ClockRoundTrip(st.fullmove);
  }

  /**
   * The `fenstring` of a coherent board is accepted by the constructor,
   * which builds a board with the same piece on every square, the same turn,
   * castling flags, en-passant square and clocks, and the getter's placement
   * field as its cache.
   */
  lemma {:induction false} FenRoundTrip(st: State)
    requires Coherent(st)
    ensures var r := Decode(Some(FenOf(st)));
      && r.Ok?
      && ReadPlacement(Refresh(st).placement).Some?
      && r.value == ReadPlacement(Refresh(st).placement).value.(
           turn := st.turn, castling := st.castling, enPassant := st.enPassant,
           halfmove := st.halfmove, fullmove := st.fullmove,
           placement := Refresh(st).placement, changed := false)
      && forall s :: 0 <= s < 64 ==> Occupant(r.value, s) == Occupant(st, s)
  {
    var f := FenFields(st);
    var text := FenOf(st);
    assert f[0] == Refresh(st).placement;
    DecodeWritten(st);
    var board := ReadPlacement(f[0]).value;
    var decoded := board.(turn := st.turn, castling := st.castling, enPassant := st.enPassant,
                          halfmove := st.halfmove, fullmove := st.fullmove, placement := f[0], changed := false);
    assert Decode(Some(text)) == Ok(decoded) by {
      DecodeOfFen(st);
    }
    assert forall s :: 0 <= s < 64 ==> Occupant(decoded, s) == Occupant(board, s) by {
      assert decoded.occ == board.occ && decoded.pieces == board.pieces;
    }
  }

  /**
   * The constructor and the getter agree: a board read from any string the
   * constructor accepts is read again, identically, from its own `fenstring`.
   */
  lemma {:induction false} DecodeCanonical(s: string)
    requires Decode(Some(s)).Ok?
    ensures Decode(Some(FenOf(Decode(Some(s)).value))) == Decode(Some(s))
  {
    var st := Decode(Some(s)).value;
    FenRoundTrip(st);
    DecodedShape(Some(s));
    assert Refresh(st) == st;
  }

  // ---------------------------------------------------------------- lemmas: the default position

  /** A run of piece letters that fits the row creates one piece per letter. */
  lemma {:induction false} PlaceLetters(r: nat, index: nat, row: string)
    requires r < 8 && index + |row| <= 8
    requires forall i :: 0 <= i < |row| ==> IsValidPiece(row[i])
    ensures PlaceRow(r, index, row).Some?
    ensures PlaceRow(r, index, row).value.1 == index + |row| && |PlaceRow(r, index, row).value.0| == |row|
    decreases |row|
  {
    if row != [] {
      PlaceLetters(r, index + 1, row[1..]);
    }
  }

  lemma DefaultRowsSplit()
    ensures Split(DefaultPlacement, "/") == DefaultRows
  {
    JoinSplit(DefaultRows, '/');
  }

  lemma BackRanks()
    ensures forall i :: 0 <= i < 8 ==> IsValidPiece("rnbqkbnr"[i]) && IsValidPiece("RNBQKBNR"[i])
    ensures forall i :: 0 <= i < 8 ==> IsValidPiece("pppppppp"[i]) && IsValidPiece("PPPPPPPP"[i])
  {
    var letters := "rnbqkpRNBQKP";
    assert letters[0] == 'r' && letters[1] == 'n' && letters[2] == 'b' && letters[3] == 'q';
    assert letters[4] == 'k' && letters[5] == 'p' && letters[6] == 'R' && letters[7] == 'N';
    assert letters[8] == 'B' && letters[9] == 'Q' && letters[10] == 'K' && letters[11] == 'P';
  }

  lemma EightBlanks(r: nat)
    requires r < 8
    ensures PlaceRow(r, 0, "8") == Some(([], 8))
  {
    assert !IsValidPiece('8');
    assert Blanks('8') == Some(8);
    assert PlaceChar(r, 0, '8') == Some(([], 8));
    assert "8"[1..] == [];
    assert PlaceRow(r, 8, []) == Some(([], 8));
    var none: seq<Placed> := [];
    assert none + none == none;
  }

  /** Eight piece letters. */
  predicate PieceRow(row: string) {
    |row| == 8 && forall i :: 0 <= i < 8 ==> IsValidPiece(row[i])
  }

  function Total(ns: seq<nat>): nat {
    if ns == [] then 0 else ns[0] + Total(ns[1..])
  }

  /** Rows from `r` on that each read as `counts[k]` pieces read together as their total. */
  lemma {:induction false} RowsRead(rows: seq<string>, counts: seq<nat>, r: nat)
    requires |rows| == 8 && |counts| == 8 && r <= 8
    requires forall k :: r <= k < 8 ==> PlaceRow(k, 0, rows[k]).Some? && |PlaceRow(k, 0, rows[k]).value.0| == counts[k]
    ensures PlaceRows(rows, r).Some? && |PlaceRows(rows, r).value| == Total(counts[r..])
    decreases 8 - r
  {
    if r < 8 {
      RowsRead(rows, counts, r + 1);
      assert counts[r..][1..] == counts[r + 1..];
    }
  }

  /** Four rows of pieces around four empty rows read as thirty-two pieces. */
  lemma PlacedRows(rows: seq<string>)
    requires |rows| == 8 && PieceRow(rows[0]) && PieceRow(rows[1]) && PieceRow(rows[6]) && PieceRow(rows[7])
    requires rows[2] == "8" && rows[3] == "8" && rows[4] == "8" && rows[5] == "8"
    ensures PlaceRows(rows, 0).Some? && |PlaceRows(rows, 0).value| == 32
  {
    var counts: seq<nat> := [8, 8, 0, 0, 0, 0, 8, 8];
    forall k | 0 <= k < 8
      ensures PlaceRow(k, 0, rows[k]).Some? && |PlaceRow(k, 0, rows[k]).value.0| == counts[k]
    {
      if k < 2 || k >= 6 {
        assert PieceRow(rows[k]) && counts[k] == 8;
        PlaceLetters(k, 0, rows[k]);
      } else {
        assert rows[k] == "8" && counts[k] == 0;
        EightBlanks(k);
      }
    }
    RowsRead(rows, counts, 0);
    assert Total(counts[0..]) == 32;
  }

  /** The default placement reads as thirty-two pieces. */
  lemma DefaultPlaced()
    ensures PlaceRows(DefaultRows, 0).Some? && |PlaceRows(DefaultRows, 0).value| == 32
  {
    BackRanks();
    assert PieceRow(DefaultRows[0]) && PieceRow(DefaultRows[1]);
    assert PieceRow(DefaultRows[6]) && PieceRow(DefaultRows[7]);
    PlacedRows(DefaultRows);
  }

  /** The default placement field is read onto an empty board. */
  lemma DefaultPlacementRead()
    ensures ReadPlacement(DefaultPlacement).Some? && |ReadPlacement(DefaultPlacement).value.pieces| == 32
  {
    DefaultRowsSplit();
    DefaultPlaced();
  }

  lemma DefaultTurn()
    ensures ReadTurn(StartFields[0]) == Some("w")
  {
    TurnRoundTrip("w");
  }

  lemma AllRights()
    ensures CastlingFieldOk(StartFields[1]) && ReadRights(StartFields[1]) == Rights(true, true, true, true)
  {
    var c := "KQkq";
    assert c[0] == 'K' && c[1] == 'Q' && c[2] == 'k' && c[3] == 'q';
  }

  lemma StartClocks()
    ensures ReadClock(StartFields[3]) == Some(0) && ReadClock(StartFields[4]) == Some(1)
    ensures ReadEnPassant(StartFields[2]) == Some(None)
  {
    ParseIntSingle('0');
    ParseIntSingle('1');
    assert "0" == ['0'] && "1" == ['1'];
  }

  /**
   * With no argument the constructor succeeds: thirty-two pieces, white to
   * move, every castling flag set, no en-passant square, clocks 0 and 1.
   */
  lemma DefaultBoard()
    ensures Decode(None).Ok?
    ensures var st := Decode(None).value;
      |st.pieces| == 32 && st.turn == "w" && st.castling == Rights(true, true, true, true) &&
      st.enPassant.None? && st.halfmove == 0 && st.fullmove == 1
  {
    DefaultPlacementRead();
    DefaultTurn();
    AllRights();
    StartClocks();
    DecodeFieldsAccepts(DefaultFields, "undefined");
  }

  // ---------------------------------------------------------------- lemmas: fromPieces

  /** Case mapping keeps spaces and non-spaces apart. */
  lemma CaseKeepsSpaces(pieces: string)
    requires forall i :: 0 <= i < |pieces| ==> pieces[i] != ' '
    ensures forall i :: 0 <= i < |ToLower(pieces)| ==> ToLower(pieces)[i] != ' '
    ensures forall i :: 0 <= i < |ToUpper(pieces)| ==> ToUpper(pieces)[i] != ' '
  {
  }

  /** Without spaces in the pieces, the placement `fromPieces` writes is one field. */
  lemma FromPiecesField(pieces: string)
    requires forall i :: 0 <= i < |pieces| ==> pieces[i] != ' '
    ensures Field(FromPiecesPlacement(pieces))
  {
    CaseKeepsSpaces(pieces);
    var lo := ToLower(pieces);
    var mid := "/pppppppp/8/8/8/8/PPPPPPPP/";
    var up := ToUpper(pieces);
    var pl := FromPiecesPlacement(pieces);
    forall i | 0 <= i < |pl| ensures pl[i] != ' ' {
      if i < |lo| { assert pl[i] == lo[i]; }
      else if i < |lo| + |mid| { assert pl[i] == mid[i - |lo|]; }
      else { assert pl[i] == up[i - |lo| - |mid|]; }
    }
  }

  /** The five fields after the default placement, joined. */
  lemma DefaultTail()
    ensures Join(StartFields, " ") == "w KQkq - 0 1"
  {
    var t := StartFields;
    assert t[4..] == ["1"];
    assert t[3..][1..] == t[4..];
    assert Join(t[3..], " ") == "0 1";
    assert t[2..][1..] == t[3..];
    assert Join(t[2..], " ") == "- 0 1";
    assert t[1..][1..] == t[2..];
    assert Join(t[1..], " ") == "KQkq - 0 1";
    assert t[0..][1..] == t[1..];
  }

  /** The string `fromPieces` builds is its placement and the five default fields. */
  lemma FromPiecesSplit(pieces: string)
    requires forall i :: 0 <= i < |pieces| ==> pieces[i] != ' '
    ensures NonEmptyParts(Split(FromPiecesText(pieces), " ")) == [FromPiecesPlacement(pieces)] + StartFields
  {
    var f := [FromPiecesPlacement(pieces)] + StartFields;
    FromPiecesField(pieces);
    StartFieldsAreFields();
    DefaultTail();
    assert f[1..] == StartFields;
    assert Join(f, " ") == f[0] + " " + Join(f[1..], " ");
    assert " " + "w KQkq - 0 1" == " w KQkq - 0 1";
    assert Join(f, " ") == FromPiecesText(pieces);
    forall k | 0 <= k < |f| ensures Field(f[k]) {
      if k > 0 { assert f[k] == StartFields[k - 1]; }
    }
    RejoinedFields(f);
  }

  /**
   * `fromPieces` with pieces free of spaces succeeds exactly when its
   * placement field can be read, and then sets up white to move, every
   * castling flag, no en-passant square and clocks 0 and 1.
   */
  lemma {:induction false} FromPiecesBoard(pieces: string)
    requires forall i :: 0 <= i < |pieces| ==> pieces[i] != ' '
    ensures FromPieces(pieces).Ok? <==> ReadPlacement(FromPiecesPlacement(pieces)).Some?
    ensures FromPieces(pieces).Ok? ==>
      var st := FromPieces(pieces).value;
      st.turn == "w" && st.castling == Rights(true, true, true, true) && st.enPassant.None? &&
      st.halfmove == 0 && st.fullmove == 1 && st.placement == FromPiecesPlacement(pieces) &&
      st.occ == ReadPlacement(FromPiecesPlacement(pieces)).value.occ
  {
    var text := FromPiecesText(pieces);
    var f := [FromPiecesPlacement(pieces)] + StartFields;
    assert FromPieces(pieces) == DecodeFields(f, text) by {
      FromPiecesSplit(pieces);
    }
    assert f[1] == StartFields[0] && f[2] == StartFields[1] && f[3] == StartFields[2];
    assert f[4] == StartFields[3] && f[5] == StartFields[4];
    DefaultTurn();
    AllRights();
    StartClocks();
    if ReadPlacement(f[0]).Some? {
      DecodeFieldsAccepts(f, text);
    }
  }
}
