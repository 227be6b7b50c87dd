/**
 * Value wrappers and the handful of JavaScript string operations the
 * chess engine, the UCI message parser and the option store rely on,
 * each with the semantics of the ECMAScript built-in it stands for.
 */
module Util {

  datatype Option<+T> = None | Some(value: T)

  /** The outcome of a JavaScript operation: a value, or the error it threw. */
  datatype Outcome<+T> = Ok(value: T) | Fail(error: Error)

  /** The errors the engine throws; `TypeError` names the dereference of `null`/`undefined`. */
  datatype Error =
    | InvalidPosition(key: string)
    | InvalidPiece(symbol: string)
    | InvalidFen(input: string)
    | UnableToProcess(notation: string)
    | UnableToGetPiece(notation: string)
    | TypeError(site: string)

  // ---------------------------------------------------------------- substrings

  function Clamp(i: int, n: nat): (r: nat)
    ensures r <= n
    ensures 0 <= i <= n ==> r == i
  {
    if i < 0 then 0 else if i > n then n else i
  }

  /** `s.substring(a, b)`: both ends clamped to the string, swapped when out of order. */
  function Substring(s: string, a: int, b: int): (r: string)
    ensures |r| <= |s|
    ensures 0 <= a <= b <= |s| ==> r == s[a..b]
    ensures 0 <= b <= a <= |s| ==> r == s[b..a]
  {
    var i := Clamp(a, |s|);
    var j := Clamp(b, |s|);
    if i <= j then s[i..j] else s[j..i]
  }

  /** `s.substring(a)`. */
  function SubstringFrom(s: string, a: int): (r: string)
    ensures 0 <= a <= |s| ==> r == s[a..]
    ensures a < 0 ==> r == s
    ensures a > |s| ==> r == []
  {
    Substring(s, a, |s|)
  }

  predicate StartsWith(s: string, p: string) {
    |p| <= |s| && s[..|p|] == p
  }

  /** A string does not start with a prefix it differs from at some position. */
  lemma DiffersAt(s: string, p: string, k: nat)
    requires k < |s| && k < |p| && s[k] != p[k]
    ensures !StartsWith(s, p)
  {
    if |p| <= |s| {
      assert s[..|p|][k] == s[k];
    }
  }

  predicate OccursAt(s: string, p: string, i: nat) {
    i + |p| <= |s| && s[i..i + |p|] == p
  }

  /** The first index at or after `from` where `p` occurs in `s`. */
  function IndexFrom(s: string, p: string, from: nat): (r: Option<nat>)
    ensures r.Some? ==> from <= r.value && OccursAt(s, p, r.value)
    ensures r.Some? ==> forall j :: from <= j < r.value ==> !OccursAt(s, p, j)
    ensures r.None? ==> forall j :: from <= j && j + |p| <= |s| ==> !OccursAt(s, p, j)
    decreases |s| - from
  {
    if from + |p| > |s| then None
    else if OccursAt(s, p, from) then Some(from)
    else IndexFrom(s, p, from + 1)
  }

  /** `s.indexOf(p)`, with `-1` as `None`. */
  function IndexOf(s: string, p: string): (r: Option<nat>)
    ensures r.Some? ==> OccursAt(s, p, r.value)
    ensures r.Some? ==> forall j :: 0 <= j < r.value ==> !OccursAt(s, p, j)
    ensures r.None? ==> forall j :: 0 <= j ==> !OccursAt(s, p, j)
  {
    IndexFrom(s, p, 0)
  }

  /** `s.split(sep)` for a non-empty separator. */
  function Split(s: string, sep: string): (r: seq<string>)
    requires |sep| > 0
    ensures |r| >= 1
    ensures IndexOf(s, sep).None? ==> r == [s]
    decreases |s|
  {
    match IndexOf(s, sep)
    case None => [s]
    case Some(i) => [s[..i]] + Split(s[i + |sep|..], sep)
  }

  /** `parts.join(sep)`. */
  function Join(parts: seq<string>, sep: string): string
  {
    if |parts| == 0 then []
    else if |parts| == 1 then parts[0]
    else parts[0] + sep + Join(parts[1..], sep)
  }

  lemma {:induction false} SplitJoin(s: string, sep: string)
    requires |sep| > 0
    ensures Join(Split(s, sep), sep) == s
    decreases |s|
  {
    match IndexOf(s, sep)
    case None =>
    case Some(i) =>
      var rest := s[i + |sep|..];
      SplitJoin(rest, sep);
      assert s == s[..i] + sep + rest by {
        assert s[i..i + |sep|] == sep;
      }
  }

  lemma {:induction false} SplitPartsFree(s: string, sep: string)
    requires |sep| > 0
    ensures forall k :: 0 <= k < |Split(s, sep)| ==> IndexOf(Split(s, sep)[k], sep).None?
    decreases |s|
  {
    match IndexOf(s, sep)
    case None =>
    case Some(i) =>
      var rest := s[i + |sep|..];
      SplitPartsFree(rest, sep);
      PrefixFree(s, sep, i);
      var parts := Split(s, sep);
      assert parts == [s[..i]] + Split(rest, sep);
      forall k | 0 <= k < |parts| ensures IndexOf(parts[k], sep).None? {
        if k > 0 {
          assert parts[k] == Split(rest, sep)[k - 1];
        }
      }
  }

  /** A prefix that ends before the first occurrence holds none. */
  lemma PrefixFree(s: string, sep: string, i: nat)
    requires |sep| > 0 && i <= |s| && forall j :: 0 <= j < i ==> !OccursAt(s, sep, j)
    ensures IndexOf(s[..i], sep).None?
  {
    var head := s[..i];
    forall j | 0 <= j ensures !OccursAt(head, sep, j) {
      if OccursAt(head, sep, j) {
        assert s[j..j + |sep|] == head[j..j + |sep|];
        assert OccursAt(s, sep, j);
      }
    }
  }

  /** The first occurrence at or after `from` is at `k` when `p` occurs there and nowhere between. */
  lemma {:induction false} IndexFromFirst(s: string, p: string, from: nat, k: nat)
    requires from <= k && OccursAt(s, p, k)
    requires forall j :: from <= j < k ==> !OccursAt(s, p, j)
    ensures IndexFrom(s, p, from) == Some(k)
    decreases k - from
  {
    if from < k {
      IndexFromFirst(s, p, from + 1, k);
    }
  }

  /** A separator after a word holding none of its first character is the first one. */
  lemma FirstAfterWord(w: string, sep: string, rest: string)
    requires |sep| > 0 && forall i :: 0 <= i < |w| ==> w[i] != sep[0]
    ensures IndexOf(w + sep + rest, sep) == Some(|w|)
  {
    var s := w + sep + rest;
    assert s[|w|..|w| + |sep|] == sep;
    forall j | 0 <= j < |w| ensures !OccursAt(s, sep, j) {
      assert s[j] == w[j];
    }
    IndexFromFirst(s, sep, 0, |w|);
  }

  /** Splitting at a one-character separator after a word that lacks it cuts the word off first. */
  lemma SplitAfterWord(w: string, c: char, rest: string)
    requires forall i :: 0 <= i < |w| ==> w[i] != c
    ensures Split(w + [c] + rest, [c]) == [w] + Split(rest, [c])
  {
    var s := w + [c] + rest;
    FirstAfterWord(w, [c], rest);
    assert s[..|w|] == w && s[|w| + 1..] == rest;
  }

  /** A string holding no separator is one part. */
  lemma SplitWhole(w: string, c: char)
    requires forall i :: 0 <= i < |w| ==> w[i] != c
    ensures Split(w, [c]) == [w]
  {
    forall k | 0 <= k < |w| ensures !OccursAt(w, [c], k) {
      assert w[k..k + 1][0] == w[k];
    }
    assert IndexOf(w, [c]).None?;
  }

  // ------------------------------------------------------------- case mapping

  function LowerChar(c: char): char {
    if 'A' <= c <= 'Z' then (c as int + 32) as char else c
  }

  function UpperChar(c: char): char {
    if 'a' <= c <= 'z' then (c as int - 32) as char else c
  }

  /** `s.toLowerCase()` on ASCII letters. */
  function ToLower(s: string): (r: string)
    ensures |r| == |s|
    ensures forall i :: 0 <= i < |s| ==> r[i] == LowerChar(s[i])
  {
    if s == [] then [] else [LowerChar(s[0])] + ToLower(s[1..])
  }

  /** `s.toUpperCase()` on ASCII letters. */
  function ToUpper(s: string): (r: string)
    ensures |r| == |s|
    ensures forall i :: 0 <= i < |s| ==> r[i] == UpperChar(s[i])
  {
    if s == [] then [] else [UpperChar(s[0])] + ToUpper(s[1..])
  }

  /** `s.replaceAll(p, r)` for a non-empty pattern: left to right, non-overlapping. */
  function ReplaceAll(s: string, p: string, r: string): string
    requires |p| > 0
    decreases |s|
  {
    if s == [] then []
    else if StartsWith(s, p) then r + ReplaceAll(s[|p|..], p, r)
    else [s[0]] + ReplaceAll(s[1..], p, r)
  }

  /** `s.replaceAll(c, d)` for single characters. */
  function ReplaceChar(s: string, c: char, d: char): (r: string)
    ensures |r| == |s|
    ensures forall i :: 0 <= i < |s| ==> r[i] == (if s[i] == c then d else s[i])
  {
    if s == [] then [] else [if s[0] == c then d else s[0]] + ReplaceChar(s[1..], c, d)
  }

  // ---------------------------------------------------------------- numbers

  predicate IsDigit(c: char) { '0' <= c <= '9' }

  function DigitValue(c: char): (v: nat)
    requires IsDigit(c)
    ensures v < 10
  {
    c as int - '0' as int
  }

  function HexValue(c: char): Option<nat> {
    if '0' <= c <= '9' then Some(c as int - '0' as int)
    else if 'a' <= c <= 'f' then Some(c as int - 'a' as int + 10)
    else if 'A' <= c <= 'F' then Some(c as int - 'A' as int + 10)
    else None
  }

  function DigitOf(c: char, radix: nat): Option<nat> {
    if radix == 16 then HexValue(c)
    else if IsDigit(c) then Some(DigitValue(c))
    else None
  }

  /** The number of leading characters of `s` that are digits in `radix`. */
  function DigitRun(s: string, radix: nat): (n: nat)
    ensures n <= |s|
    ensures forall i :: 0 <= i < n ==> DigitOf(s[i], radix).Some?
    ensures n < |s| ==> DigitOf(s[n], radix).None?
  {
    if s == [] || DigitOf(s[0], radix).None? then 0 else 1 + DigitRun(s[1..], radix)
  }

  /** The value of a string of digits in `radix`, most significant first. */
  function DigitsValue(s: string, radix: nat): nat
  {
    if s == [] then 0
    else
      var d := DigitOf(s[|s| - 1], radix);
      DigitsValue(s[..|s| - 1], radix) * radix + (if d.Some? then d.value else 0)
  }

  /** The white-space characters `parseInt` skips before the number. */
  predicate IsJsSpace(c: char) {
    c == '\t' || c == '\n' || c == '\U{000B}' || c == '\U{000C}' || c == '\r' || c == ' '
    || c == '\U{00A0}' || c == '\U{1680}' || ('\U{2000}' <= c <= '\U{200A}')
    || c == '\U{2028}' || c == '\U{2029}' || c == '\U{202F}' || c == '\U{205F}'
    || c == '\U{3000}' || c == '\U{FEFF}'
  }

  function TrimStart(s: string): (r: string)
    ensures |r| <= |s|
    ensures r == s[|s| - |r|..]
    ensures r != [] ==> !IsJsSpace(r[0])
  {
    if s != [] && IsJsSpace(s[0]) then TrimStart(s[1..]) else s
  }

  /**
   * `parseInt(s)` with no radix: leading white space, an optional sign, an
   * optional `0x` prefix selecting hexadecimal, then the longest run of
   * digits; `None` stands for `NaN`.
   */
  function ParseInt(s: string): (r: Option<int>)
  {
    var t := TrimStart(s);
    var negative := t != [] && t[0] == '-';
    var u := if t != [] && (t[0] == '-' || t[0] == '+') then t[1..] else t;
    var hex := |u| >= 2 && u[0] == '0' && (u[1] == 'x' || u[1] == 'X');
    var radix := if hex then 16 else 10;
    var v := if hex then u[2..] else u;
    var n := DigitRun(v, radix);
    if n == 0 then None
    else
      var m := DigitsValue(v[..n], radix);
      var mi: int := m;
      Some(if negative then -mi else mi)
  }

  /** Decimal digits of a natural number, as `String(n)` prints it. */
  function NatToString(n: nat): (r: string)
    ensures |r| >= 1
    ensures forall i :: 0 <= i < |r| ==> IsDigit(r[i])
    decreases n
  {
    if n < 10 then [('0' as int + n) as char]
    else NatToString(n / 10) + [('0' as int + n % 10) as char]
  }

  lemma {:induction false} DigitsValueAppend(s: string, c: char)
    requires IsDigit(c)
    ensures DigitsValue(s + [c], 10) == DigitsValue(s, 10) * 10 + DigitValue(c)
  {
    assert (s + [c])[..|s + [c]| - 1] == s;
  }

  lemma {:induction false} NatToStringValue(n: nat)
    ensures DigitsValue(NatToString(n), 10) == n
    ensures DigitRun(NatToString(n), 10) == |NatToString(n)|
    decreases n
  {
    if n < 10 {
      var s := NatToString(n);
      assert s[..0] == [];
    } else {
      NatToStringValue(n / 10);
      var c := ('0' as int + n % 10) as char;
      DigitsValueAppend(NatToString(n / 10), c);
      DigitRunAll(NatToString(n));
    }
  }

  lemma {:induction false} DigitRunAll(s: string)
    requires forall i :: 0 <= i < |s| ==> IsDigit(s[i])
    ensures DigitRun(s, 10) == |s|
  {
    if s != [] {
      DigitRunAll(s[1..]);
    }
  }

  lemma ParseIntOfDigits(s: string)
    requires |s| >= 1
    requires forall i :: 0 <= i < |s| ==> IsDigit(s[i])
    ensures ParseInt(s) == Some(DigitsValue(s, 10))
  {
    assert IsDigit(s[0]);
    assert !IsJsSpace(s[0]);
    var t := TrimStart(s);
    assert t == s;
    assert !(s[0] == '-' || s[0] == '+');
    assert !(|s| >= 2 && s[0] == '0' && (s[1] == 'x' || s[1] == 'X')) by {
      if |s| >= 2 { assert IsDigit(s[1]); }
    }
    DigitRunAll(s);
    assert s[..|s|] == s;
  }

  /** `parseInt(String(n))` gives `n` back: the clocks survive printing and reading. */
  lemma ParseIntOfNatToString(n: nat)
    ensures ParseInt(NatToString(n)) == Some(n)
  {
    NatToStringValue(n);
    ParseIntOfDigits(NatToString(n));
  }

  /** `String(n)` for any integer: a minus sign before the digits of a negative number. */
  function IntToString(n: int): (r: string)
    ensures |r| >= 1
  {
    if n < 0 then "-" + NatToString(-n) else NatToString(n)
  }

  /** `'1'.repeat(n)`. */
  function Ones(n: nat): (r: string)
    ensures |r| == n && forall i :: 0 <= i < n ==> r[i] == '1'
  {
    if n == 0 then [] else "1" + Ones(n - 1)
  }

  /** `parseInt` of a single character: its digit value, or `NaN` for anything else. */
  lemma ParseIntSingle(c: char)
    ensures ParseInt([c]) == if IsDigit(c) then Some(DigitValue(c) as int) else None
  {
    if IsDigit(c) {
      ParseIntDigit(c);
    } else if IsJsSpace(c) {
      ParseIntSpace(c);
    } else {
      ParseIntOther(c);
    }
  }

  lemma ParseIntDigit(c: char)
    requires IsDigit(c)
    ensures ParseInt([c]) == Some(DigitValue(c) as int)
  {
    var one: string := [c];
    ParseIntOfDigits(one);
    assert one[..0] == [] && one[..|one| - 1] == [];
  }

  lemma ParseIntSpace(c: char)
    requires IsJsSpace(c)
    ensures ParseInt([c]) == None
  {
    var one: string := [c];
    assert one[1..] == [];
    assert TrimStart(one) == [];
    assert DigitRun([], 10) == 0;
  }

  lemma ParseIntOther(c: char)
    requires !IsDigit(c) && !IsJsSpace(c)
    ensures ParseInt([c]) == None
  {
    var one: string := [c];
    assert one[0] == c && !IsJsSpace(one[0]);
    assert TrimStart(one) == one;
    if c == '-' || c == '+' {
      assert one[1..] == [];
      assert DigitRun([], 10) == 0;
    } else {
      assert DigitOf(one[0], 10).None?;
      assert DigitRun(one, 10) == 0;
    }
  }

  /** `parts.filter(s => s.length > 0)`. */
  function NonEmptyParts(parts: seq<string>): (r: seq<string>)
    ensures |r| <= |parts|
    ensures forall k :: 0 <= k < |r| ==> |r[k]| > 0 && r[k] in parts
    ensures (forall k :: 0 <= k < |parts| ==> |parts[k]| > 0) ==> r == parts
  {
    if parts == [] then []
    else if |parts[0]| > 0 then [parts[0]] + NonEmptyParts(parts[1..])
    else NonEmptyParts(parts[1..])
  }

  /** Splitting what was joined gives the parts back, when the separator is a character none of them holds. */
  lemma {:induction false} JoinSplit(parts: seq<string>, c: char)
    requires |parts| >= 1
    requires forall k, i :: 0 <= k < |parts| && 0 <= i < |parts[k]| ==> parts[k][i] != c
    ensures Split(Join(parts, [c]), [c]) == parts
    decreases |parts|
  {
    var s := Join(parts, [c]);
    var p0 := parts[0];
    if |parts| == 1 {
      assert IndexOf(s, [c]).None? by {
        forall j | 0 <= j ensures !OccursAt(s, [c], j) {
          assert j + 1 <= |s| ==> s[j..j + 1] == [s[j]];
        }
      }
    } else {
      var rest := Join(parts[1..], [c]);
      assert s == p0 + [c] + rest;
      assert OccursAt(s, [c], |p0|) by { assert s[|p0|..|p0| + 1] == [c]; }
      forall j | 0 <= j < |p0| ensures !OccursAt(s, [c], j) {
        assert s[j] == p0[j];
      }
      assert IndexOf(s, [c]) == Some(|p0|);
      assert s[..|p0|] == p0;
      assert s[|p0| + 1..] == rest;
      JoinSplit(parts[1..], c);
    }
  }

  /**
   * `replaceAll` does not reach across a character the pattern does not
   * contain: it works on both sides of it separately.
   */
  lemma {:induction false} ReplaceAllAround(a: string, c: char, b: string, p: string, r: string)
    requires |p| > 0 && forall i :: 0 <= i < |p| ==> p[i] != c
    ensures ReplaceAll(a + [c] + b, p, r) == ReplaceAll(a, p, r) + [c] + ReplaceAll(b, p, r)
    decreases |a|
  {
    var s := a + [c] + b;
    if a == [] {
      assert s == [c] + b && s[0] == c && p[0] != c;
      assert !StartsWith(s, p);
      assert s[1..] == b;
    } else if StartsWith(s, p) {
      assert s[|a|] == c;
      assert |p| <= |a|;
      assert StartsWith(a, p) by { assert a[..|p|] == s[..|p|]; }
      assert s[|p|..] == a[|p|..] + [c] + b;
      ReplaceAllAround(a[|p|..], c, b, p, r);
    } else {
      assert |p| <= |a| ==> s[..|p|] == a[..|p|];
      assert !StartsWith(a, p);
      assert s[1..] == a[1..] + [c] + b;
      ReplaceAllAround(a[1..], c, b, p, r);
    }
  }

  /** A character found neither in the parts nor in the separator is not in their join. */
  lemma {:induction false} JoinAvoids(parts: seq<string>, sep: string, c: char)
    requires forall k, i :: 0 <= k < |parts| && 0 <= i < |parts[k]| ==> parts[k][i] != c
    requires forall i :: 0 <= i < |sep| ==> sep[i] != c
    ensures forall i :: 0 <= i < |Join(parts, sep)| ==> Join(parts, sep)[i] != c
    decreases |parts|
  {
    if |parts| > 1 {
      JoinAvoids(parts[1..], sep, c);
      var rest := Join(parts[1..], sep);
      var s := parts[0] + sep + rest;
      forall i | 0 <= i < |s| ensures s[i] != c {
        if i < |parts[0]| { assert s[i] == parts[0][i]; }
        else if i < |parts[0]| + |sep| { assert s[i] == sep[i - |parts[0]|]; }
        else { assert s[i] == rest[i - |parts[0]| - |sep|]; }
      }
    }
  }

  /** Concatenation is associative. */
  lemma AppendAssoc<T>(a: seq<T>, b: seq<T>, c: seq<T>)
    ensures a + (b + c) == (a + b) + c
  {
  }
}
