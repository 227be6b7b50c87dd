/**
 * Pin detection (`setPinningPiece` and the pin reset at the start of
 * `Board.move`): from a king, eight rays are scanned distance by distance;
 * the first piece of the king's side on a ray becomes the candidate, and an
 * enemy queen, or a rook on a straight ray, or a bishop on a diagonal one,
 * met after it is recorded as the candidate's pinner. The ray is not closed
 * by a pin, so a farther such attacker overwrites a nearer one.
 */
module Pins {
  import opened Util
  import opened Squares
  import opened Pieces
  import opened BoardState
  import opened MoveGen

  /** A scanned ray: its direction and whether it is straight (rook-like) or diagonal. */
  datatype PinRay = PinRay(dir: Dir, straight: bool)

  /** The rays in the source's order; a direction is the (row, column) step. */
  const PinRays: seq<PinRay> := [
    PinRay(Dir(0, 1), true), PinRay(Dir(0, -1), true), PinRay(Dir(1, 0), true), PinRay(Dir(-1, 0), true),
    PinRay(Dir(1, 1), false), PinRay(Dir(1, -1), false), PinRay(Dir(-1, 1), false), PinRay(Dir(-1, -1), false)]

  /** A ray seen from one king: the square at each distance (index 0 unused) and its kind. */
  datatype View = View(cells: seq<Option<SquareId>>, straight: bool)

  /** The square `k` steps along a viewed ray, if on the board. */
  function Cell(v: View, k: int): Option<SquareId> {
    if 0 <= k < |v.cells| then v.cells[k] else None
  }

  /** The eight rays from the square `from`. */
  function Views(from: SquareId): (vs: seq<View>)
    ensures |vs| == |PinRays|
    ensures forall r, k :: 0 <= r < |PinRays| && 0 <= k < 8 ==> Cell(vs[r], k) == Target(from, PinRays[r].dir, k)
    ensures forall r :: 0 <= r < |PinRays| ==> vs[r].straight == PinRays[r].straight
  {
    seq(|PinRays|, r requires 0 <= r < |PinRays| =>
      View(seq(8, k requires 0 <= k < 8 => Target(from, PinRays[r].dir, k)), PinRays[r].straight))
  }

  /** The scan state of one ray: closed, or open with its candidate (if any). */
  datatype Scan = Dead | Open(candidate: Option<nat>)

  /** Every candidate an open ray holds is below `n`. */
  predicate CandidatesBelow(scans: seq<Scan>, n: nat) {
    forall i :: 0 <= i < |scans| && scans[i].Open? && scans[i].candidate.Some? ==> scans[i].candidate.value < n
  }

  /** A piece that pins along a ray of this kind. */
  predicate Pinner(p: Piece, straight: bool) {
    p.kind == Queen || (straight && p.kind == Rook) || (!straight && p.kind == Bishop)
  }

  /** The state of a ray after looking at distance `k`. */
  function NextScan(st: State, side: Side, v: View, s: Scan, k: int): Scan
    requires Valid(st)
  {
    match s
    case Dead => Dead
    case Open(candidate) =>
      match Cell(v, k)
      case None => Dead
      case Some(t) =>
        match st.occ[t]
        case None => s
        case Some(q) =>
          if candidate.None? && st.pieces[q].side == side then Open(Some(q))
          else if candidate.Some? && st.pieces[q].side != side && Pinner(st.pieces[q], v.straight) then s
          else Dead
  }

  /** The pin written when the ray at distance `k` meets a pinner: (candidate, pinner). */
  function Written(st: State, side: Side, v: View, s: Scan, k: int): Option<(nat, nat)>
    requires Valid(st)
  {
    if s.Open? && s.candidate.Some? then
      match Cell(v, k)
      case None => None
      case Some(t) =>
        match st.occ[t]
        case None => None
        case Some(q) =>
          if st.pieces[q].side != side && Pinner(st.pieces[q], v.straight) then Some((s.candidate.value, q))
          else None
    else None
  }

  /** The state of a ray before it looks at distance `k`. */
  function RayScan(st: State, side: Side, v: View, k: int): Scan
    requires Valid(st)
    decreases k
  {
    if k <= 1 then Open(None)
    else NextScan(st, side, v, RayScan(st, side, v, k - 1), k - 1)
  }

  /** The scan of ray `r` at distance `k` records `a` as the pinner of `q`. */
  ghost predicate WroteAt(st: State, side: Side, vs: seq<View>, k: int, r: int, q: nat, a: nat)
    requires Valid(st)
  {
    1 <= k < 8 && 0 <= r < |vs| && Written(st, side, vs[r], RayScan(st, side, vs[r], k), k) == Some((q, a))
  }

  /** Some ray, at some distance from `k` on, records `a` as the pinner of `q`. */
  ghost predicate WroteFrom(st: State, side: Side, vs: seq<View>, k: int, q: nat, a: nat)
    requires Valid(st)
  {
    exists k', r :: k <= k' && WroteAt(st, side, vs, k', r, q, a)
  }

  /** The pins after ray `v` looks at distance `k` in state `s`: the pin it writes, if any, set. */
  function WritePin(st: State, side: Side, v: View, s: Scan, k: int, pin: seq<Option<nat>>): (r: seq<Option<nat>>)
    requires Valid(st)
    ensures |r| == |pin|
    ensures forall q :: 0 <= q < |pin| && pin[q].Some? ==> r[q].Some?
  {
    var w := Written(st, side, v, s, k);
    if w.Some? && w.value.0 < |pin| then pin[w.value.0 := Some(w.value.1)] else pin
  }

  /**
   * The inner loop of `setPinningPiece` at distance `k`, over the rays from
   * index `d` on: each open ray looks at its square, changing its state and
   * possibly writing a pin.
   */
  function ScanRays(st: State, side: Side, vs: seq<View>, scans: seq<Scan>, k: int, d: nat, pin: seq<Option<nat>>)
    : (r: (seq<Scan>, seq<Option<nat>>))
    requires Valid(st) && |scans| == |vs| && d <= |vs|
    ensures |r.0| == |vs| && |r.1| == |pin|
    ensures forall i :: 0 <= i < d ==> r.0[i] == scans[i]
    ensures forall i :: d <= i < |vs| ==> r.0[i] == NextScan(st, side, vs[i], scans[i], k)
    decreases |vs| - d
  {
    if d == |vs| then (scans, pin)
    else
      ScanRays(st, side, vs, scans[d := NextScan(st, side, vs[d], scans[d], k)], k, d + 1,
               WritePin(st, side, vs[d], scans[d], k, pin))
  }

  /** Ray `i`, from index `d` on, writes `a` as the pinner of `q` at distance `k`. */
  ghost predicate WroteAmong(st: State, side: Side, vs: seq<View>, scans: seq<Scan>, k: int, d: nat, q: nat, a: nat)
    requires Valid(st) && |scans| == |vs|
  {
    exists i :: d <= i < |vs| && Written(st, side, vs[i], scans[i], k) == Some((q, a))
  }

  /** A pin changed by ray `d` was written by it; one changed by the later rays was written by one of them. */
  lemma RayWrites(st: State, side: Side, vs: seq<View>, scans: seq<Scan>, k: int, d: nat,
                  pin: seq<Option<nat>>, q: nat, after: seq<Option<nat>>)
    requires Valid(st) && |scans| == |vs| && d < |vs| && q < |pin|
    requires |after| == |pin| && after[q] != pin[q] && after[q].Some?
    requires var scans' := scans[d := NextScan(st, side, vs[d], scans[d], k)];
      var pin' := WritePin(st, side, vs[d], scans[d], k, pin);
      after[q] == pin'[q] || WroteAmong(st, side, vs, scans', k, d + 1, q, after[q].value)
    ensures WroteAmong(st, side, vs, scans, k, d, q, after[q].value)
  {
    var scans' := scans[d := NextScan(st, side, vs[d], scans[d], k)];
    var pin' := WritePin(st, side, vs[d], scans[d], k, pin);
    if after[q] == pin'[q] {
      assert Written(st, side, vs[d], scans[d], k) == Some((q, after[q].value));
    } else {
      var i :| d + 1 <= i < |vs| && Written(st, side, vs[i], scans'[i], k) == Some((q, after[q].value));
      assert scans'[i] == scans[i];
    }
  }

  /** A pin changed by one round of the inner loop was written by one of its rays. */
  lemma {:induction false} ScanRaysWrites(st: State, side: Side, vs: seq<View>, scans: seq<Scan>, k: int, d: nat,
                                          pin: seq<Option<nat>>, q: nat)
    requires Valid(st) && |scans| == |vs| && d <= |vs| && q < |pin|
    ensures ScanRays(st, side, vs, scans, k, d, pin).1[q] != pin[q] ==>
      ScanRays(st, side, vs, scans, k, d, pin).1[q].Some? &&
      WroteAmong(st, side, vs, scans, k, d, q, ScanRays(st, side, vs, scans, k, d, pin).1[q].value)
    decreases |vs| - d
  {
    if d < |vs| {
      var pin' := WritePin(st, side, vs[d], scans[d], k, pin);
      var scans' := scans[d := NextScan(st, side, vs[d], scans[d], k)];
      ScanRaysWrites(st, side, vs, scans', k, d + 1, pin', q);
      var after := ScanRays(st, side, vs, scans', k, d + 1, pin').1;
      assert ScanRays(st, side, vs, scans, k, d, pin).1 == after;
      if after[q] != pin[q] {
        assert after[q].Some? by {
          if after[q] == pin'[q] {
            assert Written(st, side, vs[d], scans[d], k).Some?;
          }
        }
        RayWrites(st, side, vs, scans, k, d, pin, q, after);
      }
    }
  }

  /** A pin set before ray `d`, or written by it, is set after it; one written later is still to be written. */
  lemma RayKeeps(st: State, side: Side, vs: seq<View>, scans: seq<Scan>, k: int, d: nat,
                 pin: seq<Option<nat>>, q: nat, a: nat)
    requires Valid(st) && |scans| == |vs| && d < |vs| && q < |pin|
    requires pin[q].Some? || WroteAmong(st, side, vs, scans, k, d, q, a)
    ensures WritePin(st, side, vs[d], scans[d], k, pin)[q].Some? ||
      WroteAmong(st, side, vs, scans[d := NextScan(st, side, vs[d], scans[d], k)], k, d + 1, q, a)
  {
    var scans' := scans[d := NextScan(st, side, vs[d], scans[d], k)];
    if pin[q].None? {
      var i :| d <= i < |vs| && Written(st, side, vs[i], scans[i], k) == Some((q, a));
      if i != d {
        assert scans'[i] == scans[i];
      }
    }
  }

  /** A pin that is set, or written by one of the rays, is set after the round. */
  lemma {:induction false} ScanRaysKeeps(st: State, side: Side, vs: seq<View>, scans: seq<Scan>, k: int, d: nat,
                                         pin: seq<Option<nat>>, q: nat, a: nat)
    requires Valid(st) && |scans| == |vs| && d <= |vs| && q < |pin|
    requires pin[q].Some? || WroteAmong(st, side, vs, scans, k, d, q, a)
    ensures ScanRays(st, side, vs, scans, k, d, pin).1[q].Some?
    decreases |vs| - d
  {
    if d < |vs| {
      RayKeeps(st, side, vs, scans, k, d, pin, q, a);
      ScanRaysKeeps(st, side, vs, scans[d := NextScan(st, side, vs[d], scans[d], k)], k, d + 1,
                    WritePin(st, side, vs[d], scans[d], k, pin), q, a);
    }
  }

  /** `setPinningPiece` from distance `k` on: the pins left by the rest of the scan. */
  function ScanFrom(st: State, side: Side, vs: seq<View>, scans: seq<Scan>, k: int, pin: seq<Option<nat>>)
    : (r: seq<Option<nat>>)
    requires Valid(st) && |scans| == |vs|
    ensures |r| == |pin|
    decreases 8 - k
  {
    if k >= 8 then pin
    else
      var step := ScanRays(st, side, vs, scans, k, 0, pin);
      ScanFrom(st, side, vs, step.0, k + 1, step.1)
  }

  /** The ray states the scan holds before distance `k`. */
  predicate AtDistance(st: State, side: Side, vs: seq<View>, scans: seq<Scan>, k: int)
    requires Valid(st)
  {
    |scans| == |vs| && forall i :: 0 <= i < |vs| ==> scans[i] == RayScan(st, side, vs[i], k)
  }

  /** One round of the inner loop moves every ray from distance `k` to `k + 1`. */
  lemma ScanAdvance(st: State, side: Side, vs: seq<View>, scans: seq<Scan>, k: int, pin: seq<Option<nat>>)
    requires Valid(st) && 1 <= k && AtDistance(st, side, vs, scans, k)
    ensures AtDistance(st, side, vs, ScanRays(st, side, vs, scans, k, 0, pin).0, k + 1)
  {
    var next := ScanRays(st, side, vs, scans, k, 0, pin).0;
    forall i | 0 <= i < |vs| ensures next[i] == RayScan(st, side, vs[i], k + 1) {
      assert next[i] == NextScan(st, side, vs[i], scans[i], k);
    }
  }

  /** A pin written from distance `k` on is written at `k` or from `k + 1` on. */
  lemma WroteFromSplit(st: State, side: Side, vs: seq<View>, scans: seq<Scan>, k: int, q: nat, a: nat)
    requires Valid(st) && AtDistance(st, side, vs, scans, k) && WroteFrom(st, side, vs, k, q, a)
    ensures WroteAmong(st, side, vs, scans, k, 0, q, a) || WroteFrom(st, side, vs, k + 1, q, a)
  {
    var k', i :| k <= k' && WroteAt(st, side, vs, k', i, q, a);
    if k' == k {
      assert Written(st, side, vs[i], scans[i], k) == Some((q, a));
    } else {
      assert k + 1 <= k' && WroteAt(st, side, vs, k', i, q, a);
    }
  }

  /** A pin changed by the round at distance `k`, or by the later rounds, was written from `k` on. */
  lemma RoundWrites(st: State, side: Side, vs: seq<View>, scans: seq<Scan>, k: int,
                    pin: seq<Option<nat>>, q: nat, after: seq<Option<nat>>)
    requires Valid(st) && 1 <= k < 8 && q < |pin| && AtDistance(st, side, vs, scans, k)
    requires |after| == |pin| && after[q].Some?
    requires var round := ScanRays(st, side, vs, scans, k, 0, pin).1;
      && (after[q] == round[q] ==> WroteAmong(st, side, vs, scans, k, 0, q, after[q].value))
      && (after[q] != round[q] ==> WroteFrom(st, side, vs, k + 1, q, after[q].value))
    ensures WroteFrom(st, side, vs, k, q, after[q].value)
  {
    var a := after[q].value;
    if after[q] == ScanRays(st, side, vs, scans, k, 0, pin).1[q] {
      var i :| 0 <= i < |vs| && Written(st, side, vs[i], scans[i], k) == Some((q, a));
      assert scans[i] == RayScan(st, side, vs[i], k);
      assert WroteAt(st, side, vs, k, i, q, a);
    } else {
      var k', i :| k + 1 <= k' && WroteAt(st, side, vs, k', i, q, a);
      assert k <= k';
    }
  }

  /** A pin changed by the scan from distance `k` on was written by it. */
  lemma {:induction false} ScanFromWrites(st: State, side: Side, vs: seq<View>, scans: seq<Scan>, k: int,
                                          pin: seq<Option<nat>>, q: nat)
    requires Valid(st) && 1 <= k && q < |pin| && AtDistance(st, side, vs, scans, k)
    ensures ScanFrom(st, side, vs, scans, k, pin)[q] != pin[q] ==>
      ScanFrom(st, side, vs, scans, k, pin)[q].Some? &&
      WroteFrom(st, side, vs, k, q, ScanFrom(st, side, vs, scans, k, pin)[q].value)
    decreases 8 - k
  {
    if k < 8 {
      var step := ScanRays(st, side, vs, scans, k, 0, pin);
      ScanAdvance(st, side, vs, scans, k, pin);
      ScanFromWrites(st, side, vs, step.0, k + 1, step.1, q);
      ScanRaysWrites(st, side, vs, scans, k, 0, pin, q);
      var after := ScanFrom(st, side, vs, step.0, k + 1, step.1);
      assert ScanFrom(st, side, vs, scans, k, pin) == after;
      if after[q] != pin[q] {
        RoundWrites(st, side, vs, scans, k, pin, q, after);
      }
    }
  }

  /** A pin that is set, or written from distance `k` on, is set after the round at `k` or written later. */
  lemma RoundKeeps(st: State, side: Side, vs: seq<View>, scans: seq<Scan>, k: int,
                   pin: seq<Option<nat>>, q: nat, a: nat)
    requires Valid(st) && 1 <= k < 8 && q < |pin| && AtDistance(st, side, vs, scans, k)
    requires pin[q].Some? || WroteFrom(st, side, vs, k, q, a)
    ensures ScanRays(st, side, vs, scans, k, 0, pin).1[q].Some? || WroteFrom(st, side, vs, k + 1, q, a)
  {
    if pin[q].Some? {
      ScanRaysKeeps(st, side, vs, scans, k, 0, pin, q, a);
    } else {
      WroteFromSplit(st, side, vs, scans, k, q, a);
      if WroteAmong(st, side, vs, scans, k, 0, q, a) {
        ScanRaysKeeps(st, side, vs, scans, k, 0, pin, q, a);
      }
    }
  }

  /** A pin that is set, or written by the scan from distance `k` on, is set at the end. */
  lemma {:induction false} ScanFromKeeps(st: State, side: Side, vs: seq<View>, scans: seq<Scan>, k: int,
                                         pin: seq<Option<nat>>, q: nat, a: nat)
    requires Valid(st) && 1 <= k && q < |pin| && AtDistance(st, side, vs, scans, k)
    requires pin[q].Some? || WroteFrom(st, side, vs, k, q, a)
    ensures ScanFrom(st, side, vs, scans, k, pin)[q].Some?
    decreases 8 - k
  {
    if k < 8 {
      var step := ScanRays(st, side, vs, scans, k, 0, pin);
      ScanAdvance(st, side, vs, scans, k, pin);
      RoundKeeps(st, side, vs, scans, k, pin, q, a);
      ScanFromKeeps(st, side, vs, step.0, k + 1, step.1, q, a);
    } else {
      assert !WroteFrom(st, side, vs, k, q, a);
    }
  }

  /** The pins a scan from a king on square `from` leaves, starting from `pin`. */
  function ScanKing(st: State, side: Side, from: SquareId, pin: seq<Option<nat>>): (r: seq<Option<nat>>)
    requires Valid(st)
    ensures |r| == |pin|
  {
    ScanFrom(st, side, Views(from), seq(|PinRays|, i => Open(None)), 1, pin)
  }

  // ---------------------------------------------------------------- geometry

  /** Every square before distance `j` on the ray is on the board and empty. */
  ghost predicate ClearTo(st: State, v: View, j: int)
    requires Valid(st)
  {
    forall m :: 1 <= m < j ==> Cell(v, m).Some? && st.occ[Cell(v, m).value].None?
  }

  /** `q` stands `j` steps along the ray, the first piece met on it. */
  ghost predicate FirstOn(st: State, v: View, j: int, q: nat)
    requires Valid(st)
  {
    1 <= j && ClearTo(st, v, j) && Cell(v, j).Some? && st.occ[Cell(v, j).value] == Some(q)
  }

  /** The square at distance `m` is on the board and empty or held by an enemy pinner of the ray's kind. */
  ghost predicate PassThrough(st: State, side: Side, v: View, m: int)
    requires Valid(st)
  {
    Cell(v, m).Some? &&
    (st.occ[Cell(v, m).value].None? ||
     (st.pieces[st.occ[Cell(v, m).value].value].side != side &&
      Pinner(st.pieces[st.occ[Cell(v, m).value].value], v.straight)))
  }

  /** An open ray with a candidate has met it as its first piece, one of the king's side. */
  lemma {:induction false} CandidateIsFirst(st: State, side: Side, v: View, k: int)
    requires Valid(st) && RayScan(st, side, v, k).Open?
    ensures RayScan(st, side, v, k).candidate.None? ==> ClearTo(st, v, k)
    ensures RayScan(st, side, v, k).candidate.Some? ==>
      var q := RayScan(st, side, v, k).candidate.value;
      q < |st.pieces| && st.pieces[q].side == side && exists j :: j < k && FirstOn(st, v, j, q)
    decreases k
  {
    if k > 1 {
      var prev := RayScan(st, side, v, k - 1);
      assert prev.Open?;
      CandidateIsFirst(st, side, v, k - 1);
      if prev.candidate.None? {
        var q := RayScan(st, side, v, k).candidate;
        if q.None? {
          forall m | 1 <= m < k ensures Cell(v, m).Some? && st.occ[Cell(v, m).value].None? {
            if m < k - 1 {
              assert ClearTo(st, v, k - 1);
            }
          }
        } else {
          assert FirstOn(st, v, k - 1, q.value);
        }
      }
    }
  }

  /** While every square so far is empty, a ray is open without a candidate. */
  lemma {:induction false} OpenWhileClear(st: State, side: Side, v: View, k: int)
    requires Valid(st) && ClearTo(st, v, k)
    ensures RayScan(st, side, v, k) == Open(None)
    decreases k
  {
    if k > 1 {
      assert ClearTo(st, v, k - 1);
      OpenWhileClear(st, side, v, k - 1);
      assert Cell(v, k - 1).Some? && st.occ[Cell(v, k - 1).value].None?;
    }
  }

  /** A ray keeps the first piece of the king's side as its candidate across empty squares and pinners. */
  lemma {:induction false} FirstStaysCandidate(st: State, side: Side, v: View, j: int, k: int, q: nat)
    requires Valid(st) && FirstOn(st, v, j, q) && st.pieces[q].side == side && j < k
    requires forall m :: j < m < k ==> PassThrough(st, side, v, m)
    ensures RayScan(st, side, v, k) == Open(Some(q))
    decreases k
  {
    if k == j + 1 {
      OpenWhileClear(st, side, v, j);
    } else {
      FirstStaysCandidate(st, side, v, j, k - 1, q);
      assert PassThrough(st, side, v, k - 1);
    }
  }

  /**
   * A pin is geometric when the pinned piece is the first piece on one of the
   * rays and of the king's side, and the pinner stands farther along that
   * ray, is of the other side and moves along rays of that kind.
   */
  ghost predicate OnPinRay(st: State, side: Side, vs: seq<View>, q: nat, a: nat)
    requires Valid(st)
  {
    exists r, j, k :: 0 <= r < |vs| && j < k < 8 && FirstOn(st, vs[r], j, q) &&
      q < |st.pieces| && st.pieces[q].side == side &&
      (forall m :: j < m < k ==> PassThrough(st, side, vs[r], m)) &&
      Cell(vs[r], k).Some? && st.occ[Cell(vs[r], k).value] == Some(a) &&
      st.pieces[a].side != side && Pinner(st.pieces[a], vs[r].straight)
  }

  /** A ray still holding its first friendly piece as candidate has passed through every square after it. */
  lemma {:induction false} CandidatePassed(st: State, side: Side, v: View, j: int, k: int, q: nat)
    requires Valid(st) && FirstOn(st, v, j, q) && j < k && RayScan(st, side, v, k) == Open(Some(q))
    ensures forall m :: j < m < k ==> PassThrough(st, side, v, m)
    decreases k
  {
    if j < k - 1 {
      var prev := RayScan(st, side, v, k - 1);
      CandidateIsFirst(st, side, v, k - 1);
      assert st.occ[Cell(v, j).value].Some?;
      assert prev == Open(Some(q));
      assert PassThrough(st, side, v, k - 1);
      CandidatePassed(st, side, v, j, k - 1, q);
    }
  }

  lemma WroteIsGeometric(st: State, side: Side, vs: seq<View>, k: int, r: int, q: nat, a: nat)
    requires Valid(st) && WroteAt(st, side, vs, k, r, q, a)
    ensures OnPinRay(st, side, vs, q, a)
    ensures a < |st.pieces|
  {
    CandidateIsFirst(st, side, vs[r], k);
    var j :| j < k && FirstOn(st, vs[r], j, q);
    CandidatePassed(st, side, vs[r], j, k, q);
    assert Cell(vs[r], k).Some?;
  }

  /** Every pin a king's scan writes is a geometric pin, whatever the rest of the board holds. */
  lemma PinSound(st: State, side: Side, from: SquareId, pin: seq<Option<nat>>, q: nat)
    requires Valid(st) && q < |pin|
    requires ScanKing(st, side, from, pin)[q] != pin[q]
    ensures ScanKing(st, side, from, pin)[q].Some?
    ensures OnPinRay(st, side, Views(from), q, ScanKing(st, side, from, pin)[q].value)
    ensures ScanKing(st, side, from, pin)[q].value < |st.pieces|
  {
    var vs := Views(from);
    var scans := seq(|PinRays|, i => Open(None));
    assert AtDistance(st, side, vs, scans, 1);
    ScanFromWrites(st, side, vs, scans, 1, pin, q);
    var a := ScanKing(st, side, from, pin)[q].value;
    var k, r :| 1 <= k && WroteAt(st, side, vs, k, r, q, a);
    WroteIsGeometric(st, side, vs, k, r, q, a);
  }

  /** A king's scan names only pieces of the position, so the position with its pins stays valid. */
  lemma ScanKingValid(st: State, side: Side, from: SquareId)
    requires Valid(st)
    ensures Valid(st.(pinning := ScanKing(st, side, from, st.pinning)))
  {
    var pin := ScanKing(st, side, from, st.pinning);
    forall p | 0 <= p < |pin| && pin[p].Some? ensures pin[p].value < |st.pieces| {
      if pin[p] != st.pinning[p] {
        PinSound(st, side, from, st.pinning, p);
      }
    }
  }

  /**
   * The first piece of the king's side on a ray is marked pinned when an
   * enemy pinner of the ray's kind follows it and every square between is
   * empty or holds another such pinner.
   */
  lemma PinComplete(st: State, side: Side, from: SquareId, pin: seq<Option<nat>>, r: nat, j: int, k: int, q: nat, a: nat)
    requires Valid(st) && r < |PinRays| && q < |pin|
    requires FirstOn(st, Views(from)[r], j, q) && st.pieces[q].side == side && j < k < 8
    requires forall m :: j < m < k ==> PassThrough(st, side, Views(from)[r], m)
    requires Cell(Views(from)[r], k).Some? && st.occ[Cell(Views(from)[r], k).value] == Some(a)
    requires st.pieces[a].side != side && Pinner(st.pieces[a], PinRays[r].straight)
    ensures ScanKing(st, side, from, pin)[q].Some?
  {
    var vs := Views(from);
    FirstStaysCandidate(st, side, vs[r], j, k, q);
    assert WroteAt(st, side, vs, k, r, q, a);
    var scans := seq(|PinRays|, i => Open(None));
    assert AtDistance(st, side, vs, scans, 1);
    ScanFromKeeps(st, side, vs, scans, 1, pin, q, a);
  }

  /** Two steps along rays from one square reach the same square only along the same direction. */
  lemma StepsAgree(d: Dir, d': Dir, j: int, j': int)
    requires -1 <= d.dr <= 1 && -1 <= d.dc <= 1 && d != Dir(0, 0)
    requires -1 <= d'.dr <= 1 && -1 <= d'.dc <= 1 && d' != Dir(0, 0)
    requires 1 <= j && 1 <= j' && j * d.dr == j' * d'.dr && j * d.dc == j' * d'.dc
    ensures d == d'
  {
  }

  /** Two of the eight rays from one square never share a square. */
  lemma RaysDisjoint(from: SquareId, r: nat, r': nat, j: int, j': int)
    requires r < |PinRays| && r' < |PinRays| && 1 <= j < 8 && 1 <= j' < 8
    requires Cell(Views(from)[r], j).Some? && Cell(Views(from)[r], j) == Cell(Views(from)[r'], j')
    ensures r == r'
  {
    var d, d' := PinRays[r].dir, PinRays[r'].dir;
    var t := Cell(Views(from)[r], j).value;
    assert Row(t) == Row(from) + j * d.dr && Column(t) == Column(from) + j * d.dc;
    assert Row(t) == Row(from) + j' * d'.dr && Column(t) == Column(from) + j' * d'.dc;
    StepsAgree(d, d', j, j');
  }

  /** A closed ray stays closed. */
  lemma {:induction false} DeadStays(st: State, side: Side, v: View, k: int, k': int)
    requires Valid(st) && RayScan(st, side, v, k) == Dead && k <= k'
    ensures RayScan(st, side, v, k') == Dead
    decreases k' - k
  {
    if k < k' {
      DeadStays(st, side, v, k, k' - 1);
    }
  }

  /**
   * Past its farthest pinner at distance `k` (only empty squares follow, up
   * to the end of the board or a square `e` it cannot pass), a ray writes no
   * further pin.
   */
  lemma RaySilentAfter(st: State, side: Side, v: View, j: int, k: int, e: int, q: nat)
    requires Valid(st) && FirstOn(st, v, j, q) && st.pieces[q].side == side && j < k < e <= 8
    requires forall m :: j < m <= k ==> PassThrough(st, side, v, m)
    requires forall m :: k < m < e ==> Cell(v, m).Some? && st.occ[Cell(v, m).value].None?
    requires e < 8 ==> !PassThrough(st, side, v, e)
    ensures forall k' :: k < k' < 8 ==> Written(st, side, v, RayScan(st, side, v, k'), k') == None
  {
    forall k' | k < k' < 8 ensures Written(st, side, v, RayScan(st, side, v, k'), k') == None {
      if k' <= e {
        FirstStaysCandidate(st, side, v, j, k', q);
      } else {
        FirstStaysCandidate(st, side, v, j, e, q);
        assert RayScan(st, side, v, e + 1) == Dead;
        DeadStays(st, side, v, e + 1, k');
      }
    }
  }

  /**
   * With the farthest pinner of the candidate's ray at distance `k`, no
   * other ray and no later distance writes a pin for the candidate.
   */
  lemma LastWriteAt(st: State, side: Side, from: SquareId, r: nat, j: int, k: int, e: int, q: nat)
    requires Valid(st) && r < |PinRays|
    requires FirstOn(st, Views(from)[r], j, q) && st.pieces[q].side == side && j < k < e <= 8
    requires forall m :: j < m <= k ==> PassThrough(st, side, Views(from)[r], m)
    requires forall m :: k < m < e ==> Cell(Views(from)[r], m).Some? && st.occ[Cell(Views(from)[r], m).value].None?
    requires e < 8 ==> !PassThrough(st, side, Views(from)[r], e)
    ensures forall k', r', b :: k <= k' && WroteAt(st, side, Views(from), k', r', q, b) ==> k' == k && r' == r
  {
    var vs := Views(from);
    RaySilentAfter(st, side, vs[r], j, k, e, q);
    forall k', r', b | k <= k' && WroteAt(st, side, vs, k', r', q, b) ensures k' == k && r' == r {
      CandidateIsFirst(st, side, vs[r'], k');
      var j' :| j' < k' && FirstOn(st, vs[r'], j', q);
      assert Cell(vs[r'], j') == Cell(vs[r], j);
      RaysDisjoint(from, r, r', j, j');
    }
  }

  /** In one round, a pin that only ray `r` writes ends as that ray's pinner. */
  lemma {:induction false} ScanRaysLast(st: State, side: Side, vs: seq<View>, scans: seq<Scan>, k: int, d: nat,
                                        pin: seq<Option<nat>>, q: nat, r: nat, a: nat)
    requires Valid(st) && |scans| == |vs| && d <= r < |vs| && q < |pin|
    requires Written(st, side, vs[r], scans[r], k) == Some((q, a))
    requires forall i, b :: d <= i < |vs| && Written(st, side, vs[i], scans[i], k) == Some((q, b)) ==> i == r
    ensures ScanRays(st, side, vs, scans, k, d, pin).1[q] == Some(a)
    decreases |vs| - d
  {
    var pin' := WritePin(st, side, vs[d], scans[d], k, pin);
    var scans' := scans[d := NextScan(st, side, vs[d], scans[d], k)];
    assert ScanRays(st, side, vs, scans, k, d, pin) == ScanRays(st, side, vs, scans', k, d + 1, pin');
    if d < r {
      assert scans'[r] == scans[r];
      forall i, b | d + 1 <= i < |vs| && Written(st, side, vs[i], scans'[i], k) == Some((q, b)) ensures i == r {
        assert scans'[i] == scans[i];
      }
      ScanRaysLast(st, side, vs, scans', k, d + 1, pin', q, r, a);
    } else {
      assert pin'[q] == Some(a);
      var next := d + 1;
      forall b: nat ensures !WroteAmong(st, side, vs, scans', k, next, q, b) {
        forall i | d + 1 <= i < |vs| ensures Written(st, side, vs[i], scans'[i], k) != Some((q, b)) {
          assert scans'[i] == scans[i];
        }
      }
      ScanRaysWrites(st, side, vs, scans', k, d + 1, pin', q);
    }
  }

  /** The round at the distance of a pin's last write leaves that write's pinner for good. */
  lemma RoundIsLast(st: State, side: Side, vs: seq<View>, scans: seq<Scan>, pin: seq<Option<nat>>,
                    q: nat, k: int, r: nat, a: nat)
    requires Valid(st) && 1 <= k < 8 && r < |vs| && q < |pin| && AtDistance(st, side, vs, scans, k)
    requires WroteAt(st, side, vs, k, r, q, a)
    requires forall k', r', b :: k <= k' && WroteAt(st, side, vs, k', r', q, b) ==> k' == k && r' == r
    ensures ScanFrom(st, side, vs, scans, k, pin)[q] == Some(a)
  {
    var step := ScanRays(st, side, vs, scans, k, 0, pin);
    ScanAdvance(st, side, vs, scans, k, pin);
    forall i, b | 0 <= i < |vs| && Written(st, side, vs[i], scans[i], k) == Some((q, b)) ensures i == r {
      assert WroteAt(st, side, vs, k, i, q, b);
    }
    ScanRaysLast(st, side, vs, scans, k, 0, pin, q, r, a);
    var next := k + 1;
    forall b: nat ensures !WroteFrom(st, side, vs, next, q, b) {
    }
    ScanFromWrites(st, side, vs, step.0, next, step.1, q);
  }

  /** A pin whose last write is by ray `r` at distance `k` ends as that write's pinner. */
  lemma {:induction false} ScanFromLast(st: State, side: Side, vs: seq<View>, scans: seq<Scan>, k0: int,
                                        pin: seq<Option<nat>>, q: nat, k: int, r: nat, a: nat)
    requires Valid(st) && 1 <= k0 <= k < 8 && r < |vs| && q < |pin| && AtDistance(st, side, vs, scans, k0)
    requires WroteAt(st, side, vs, k, r, q, a)
    requires forall k', r', b :: k <= k' && WroteAt(st, side, vs, k', r', q, b) ==> k' == k && r' == r
    ensures ScanFrom(st, side, vs, scans, k0, pin)[q] == Some(a)
    decreases k - k0
  {
    if k0 < k {
      var step := ScanRays(st, side, vs, scans, k0, 0, pin);
      ScanAdvance(st, side, vs, scans, k0, pin);
      ScanFromLast(st, side, vs, step.0, k0 + 1, step.1, q, k, r, a);
    } else {
      RoundIsLast(st, side, vs, scans, pin, q, k, r, a);
    }
  }

  /**
   * The pin recorded for the first friendly piece on a ray is the farthest
   * enemy pinner the ray reaches: the one at distance `k`, when every square
   * up to it is empty or holds another pinner and only empty squares follow
   * it until the ray leaves the board or meets, at distance `e`, a square it
   * cannot pass.
   */
  lemma PinFarthest(st: State, side: Side, from: SquareId, pin: seq<Option<nat>>, r: nat, j: int, k: int, e: int,
                    q: nat, a: nat)
    requires Valid(st) && r < |PinRays| && q < |pin|
    requires FirstOn(st, Views(from)[r], j, q) && st.pieces[q].side == side && j < k < e <= 8
    requires forall m :: j < m < k ==> PassThrough(st, side, Views(from)[r], m)
    requires Cell(Views(from)[r], k).Some? && st.occ[Cell(Views(from)[r], k).value] == Some(a)
    requires st.pieces[a].side != side && Pinner(st.pieces[a], PinRays[r].straight)
    requires forall m :: k < m < e ==> Cell(Views(from)[r], m).Some? && st.occ[Cell(Views(from)[r], m).value].None?
    requires e < 8 ==> !PassThrough(st, side, Views(from)[r], e)
    ensures ScanKing(st, side, from, pin)[q] == Some(a)
  {
    var vs := Views(from);
    FirstStaysCandidate(st, side, vs[r], j, k, q);
    assert WroteAt(st, side, vs, k, r, q, a);
    assert PassThrough(st, side, vs[r], k);
    LastWriteAt(st, side, from, r, j, k, e, q);
    var scans := seq(|PinRays|, i => Open(None));
    assert AtDistance(st, side, vs, scans, 1);
    ScanFromLast(st, side, vs, scans, 1, pin, q, k, r, a);
  }

  // ---------------------------------------------------------------- the reset and both kings

  /** `findKing(side)`: the first piece of the board's list that is a king of that side on the board. */
  function FindKingFrom(st: State, side: Side, i: nat): (r: Option<nat>)
    requires Valid(st)
    ensures r.Some? ==> i <= r.value < st.registered
    ensures r.Some? ==> st.positions[r.value].Some? && st.pieces[r.value] == Piece(side, King)
    ensures r.Some? ==> forall j :: i <= j < r.value ==> !(st.positions[j].Some? && st.pieces[j] == Piece(side, King))
    ensures r.None? ==> forall j :: i <= j < st.registered ==> !(st.positions[j].Some? && st.pieces[j] == Piece(side, King))
    decreases st.registered - i
  {
    if i >= st.registered then None
    else if st.positions[i].Some? && st.pieces[i] == Piece(side, King) then Some(i)
    else FindKingFrom(st, side, i + 1)
  }

  function FindKing(st: State, side: Side): Option<nat>
    requires Valid(st)
  {
    FindKingFrom(st, side, 0)
  }

  /** The king found depends on the pieces, their positions and the registered count alone. */
  lemma FindKingSame(st: State, r: State, side: Side)
    requires Valid(st) && Valid(r)
    requires r.pieces == st.pieces && r.positions == st.positions && r.registered == st.registered
    ensures FindKing(r, side) == FindKing(st, side)
  {
    FindKingFromSame(st, r, side, 0);
  }

  lemma {:induction false} FindKingFromSame(st: State, r: State, side: Side, i: nat)
    requires Valid(st) && Valid(r)
    requires r.pieces == st.pieces && r.positions == st.positions && r.registered == st.registered
    ensures FindKingFrom(r, side, i) == FindKingFrom(st, side, i)
    decreases st.registered - i
  {
    if i < st.registered {
      FindKingFromSame(st, r, side, i + 1);
    }
  }

  /** The pin cache with the board's own pieces reset; promotion pieces keep theirs. */
  function ResetPins(st: State): (r: State)
    requires Valid(st)
    ensures Valid(r)
    ensures r == st.(pinning := r.pinning)
    ensures forall p :: 0 <= p < |st.pieces| ==> r.pinning[p] == (if p < st.registered then None else st.pinning[p])
  {
    st.(pinning := seq(|st.pinning|, p requires 0 <= p < |st.pinning| => if p < st.registered then None else st.pinning[p]))
  }

  /** One `setPinningPiece(findKing(side))` call: a thrown error when there is no such king. */
  function PinFor(st: State, side: Side): (r: Outcome<State>)
    requires Valid(st)
    ensures r.Ok? ==> Valid(r.value) && r.value == st.(pinning := r.value.pinning)
    ensures r.Fail? <==> FindKing(st, side).None?
  {
    match FindKing(st, side)
    case None => Fail(TypeError("king.position"))
    case Some(king) =>
      var pin := ScanKing(st, side, st.positions[king].value, st.pinning);
      ScanKingValid(st, side, st.positions[king].value);
      Ok(st.(pinning := pin))
  }

  /**
   * The pin analysis `Board.move` runs first: reset, then the black king's
   * scan, then the white king's; a side without a king throws, leaving the
   * pins as far as they got.
   */
  function ComputePins(st: State): (r: Run)
    requires Valid(st)
    ensures Valid(r.state) && r.state == st.(pinning := r.state.pinning)
    ensures r.thrown.None? <==> FindKing(st, Black).Some? && FindKing(st, White).Some?
    ensures FindKing(st, Black).None? ==> r.state == ResetPins(st) && r.thrown == Some(TypeError("king.position"))
  {
    var st0 := ResetPins(st);
    FindKingSame(st, st0, Black);
    FindKingSame(st, st0, White);
    match PinFor(st0, Black)
    case Fail(e) => Run(st0, Some(e))
    case Ok(st1) =>
      FindKingSame(st0, st1, White);
      match PinFor(st1, White)
      case Fail(e) => Run(st1, Some(e))
      case Ok(st2) => Run(st2, None)
  }
}
