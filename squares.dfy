/**
 * Square addressing (the `Coordinate` class and `Board.getCoordinate`):
 * a square is identified by its id 8·(8 − rank) + (file − 'a'), so a8 is 0,
 * h8 is 7 and h1 is 63; row and column are the id's quotient and remainder by 8.
 */
module Squares {
  import opened Util

  type SquareId = i: int | 0 <= i < 64

  function Row(s: SquareId): (r: int)
    ensures 0 <= r < 8
  {
    s / 8
  }

  function Column(s: SquareId): (c: int)
    ensures 0 <= c < 8
  {
    s % 8
  }

  /** The file letter, 'a' to 'h'. */
  function FileOf(s: SquareId): (f: char)
    ensures 'a' <= f <= 'h'
  {
    ('a' as int + Column(s)) as char
  }

  /** The rank digit, '8' on row 0 down to '1' on row 7. */
  function RankOf(s: SquareId): (r: char)
    ensures '1' <= r <= '8'
  {
    ('8' as int - Row(s)) as char
  }

  /** The two-character key, file then rank. */
  function Key(s: SquareId): string {
    [FileOf(s), RankOf(s)]
  }

  /** `isValidPosition`: the key matches `^[a-h][1-8]$`. */
  predicate IsValidPosition(key: string) {
    |key| == 2 && 'a' <= key[0] <= 'h' && '1' <= key[1] <= '8'
  }

  /** The `id` getter of a coordinate built from a file and a rank character. */
  function IdOf(file: char, rank: char): int {
    8 * (8 - (rank as int - '0' as int)) + (file as int - 'a' as int)
  }

  /**
   * `getCoordinate(key)` for a string key: an invalid key throws; a valid one
   * finds the square carrying that key.
   */
  function Lookup(key: string): (r: Outcome<SquareId>)
    ensures r.Ok? <==> IsValidPosition(key)
    ensures r.Ok? ==> Key(r.value) == key
    ensures r.Fail? ==> r.error == InvalidPosition(key)
  {
    if IsValidPosition(key) then Ok(IdOf(key[0], key[1])) else Fail(InvalidPosition(key))
  }

  /**
   * `getCoordinate([row, column])`: the square at that row and column, or
   * none when either is outside 0..7.
   */
  function At(r: int, c: int): (o: Option<SquareId>)
    ensures o.Some? <==> 0 <= r < 8 && 0 <= c < 8
    ensures o.Some? ==> Row(o.value) == r && Column(o.value) == c
  {
    if 0 <= r < 8 && 0 <= c < 8 then Some(8 * r + c) else None
  }

  /** Looking a square up by its own key gives the square back. */
  lemma KeyRoundTrip(s: SquareId)
    ensures Lookup(Key(s)) == Ok(s)
  {
    assert IsValidPosition(Key(s));
  }

  /** Looking a square up by its own row and column gives it back. */
  lemma AtRoundTrip(s: SquareId)
    ensures At(Row(s), Column(s)) == Some(s)
  {
    var r, c := Row(s), Column(s);
    assert 8 * r + c == s;
    var o := At(r, c);
    assert o.Some? && o.value == 8 * r + c;
  }

  /** Distinct squares have distinct keys, so the key lookup has one answer. */
  lemma KeyInjective(s: SquareId, t: SquareId)
    requires Key(s) == Key(t)
    ensures s == t
  {
    assert FileOf(s) == Key(s)[0] && FileOf(t) == Key(t)[0];
    assert RankOf(s) == Key(s)[1] && RankOf(t) == Key(t)[1];
    assert Column(s) == Column(t) && Row(s) == Row(t);
  }

  /**
   * The board's constructor creates its squares rank '8' down to '1', file
   * 'a' to 'h'; the square created k-th carries the id k, which is why
   * `getCoordinate([r, c])` may index the list at 8·r + c.
   */
  method CreateCoordinates() returns (keys: seq<string>)
    ensures |keys| == 64
    ensures forall k :: 0 <= k < 64 ==> Lookup(keys[k]) == Ok(k)
  {
    var ranks := "87654321";
    var files := "abcdefgh";
    keys := [];
    var i := 0;
    while i < 8
      invariant 0 <= i <= 8
      invariant |keys| == 8 * i
      invariant Numbered(keys)
    {
      var j := 0;
      while j < 8
        invariant 0 <= j <= 8
        invariant |keys| == 8 * i + j
        invariant Numbered(keys)
      {
        var key := [files[j], ranks[i]];
        CreatedKey(i, j);
        NumberedSnoc(keys, key);
        keys := keys + [key];
        j := j + 1;
      }
      i := i + 1;
    }
  }

  /** Each key names the square of its own index. */
  predicate Numbered(keys: seq<string>) {
    forall k :: 0 <= k < |keys| ==> Lookup(keys[k]) == Ok(k)
  }

  lemma NumberedSnoc(keys: seq<string>, key: string)
    requires Numbered(keys) && Lookup(key) == Ok(|keys|)
    ensures Numbered(keys + [key])
  {
    var longer := keys + [key];
    forall k | 0 <= k < |longer| ensures Lookup(longer[k]) == Ok(k) {
      if k < |keys| {
        assert longer[k] == keys[k];
      }
    }
  }

  /** The key made from file `j` and rank `i` of the constructor's loops names square 8·i + j. */
  lemma CreatedKey(i: int, j: int)
    requires 0 <= i < 8 && 0 <= j < 8
    ensures Lookup(["abcdefgh"[j], "87654321"[i]]) == Ok(8 * i + j)
  {
    var key := ["abcdefgh"[j], "87654321"[i]];
    assert key[0] as int == 'a' as int + j && key[1] as int == '8' as int - i;
    assert IsValidPosition(key);
  }
}
