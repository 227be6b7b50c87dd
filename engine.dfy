/**
 * The `Parser` of the engine bridge: the four UCI messages an engine sends
 * to its GUI that the extension reads (`id`, `option`, `info`, `bestmove`),
 * each cut into words the way `lib/engine.js` cuts it. `parseOption` and
 * `parseInfo` consume their words in loops; each loop is a method proved
 * equal to a function that the lemmas below characterise.
 */
module Engine {
  import opened Util

  /** No space in it: one word of a space-separated message. */
  predicate Word(w: string) {
    forall i :: 0 <= i < |w| ==> w[i] != ' '
  }

  // ---------------------------------------------------------------- id

  datatype IdLine = IdLine(key: string, value: string)

  /**
   * `parseId`: the key is the second word; the value is the text after the
   * first two words and the space behind each. A message of one word has
   * no key, and reading its length throws.
   */
  function ParseId(message: string): Outcome<IdLine> {
    var words := Split(message, " ");
    if |words| < 2 then Fail(TypeError("key.length"))
    else Ok(IdLine(words[1], SubstringFrom(message, 2 + |words[0]| + |words[1]|)))
  }

  /** `id name Stockfish 16` has the key `name` and the value `Stockfish 16`. */
  lemma IdOfWords(head: string, key: string, value: string)
    requires Word(head) && Word(key)
    ensures ParseId(head + " " + key + " " + value) == Ok(IdLine(key, value))
  {
    var m := head + " " + key + " " + value;
    TwoWords(head, key, value);
    var words := Split(m, " ");
    assert |words| >= 2 && words[0] == head && words[1] == key;
    assert m[2 + |head| + |key|..] == value;
  }

  /** A key with nothing after it has the empty value. */
  lemma IdWithoutValue(head: string, key: string)
    requires Word(head) && Word(key)
    ensures ParseId(head + " " + key) == Ok(IdLine(key, ""))
  {
    SplitAfterWord(head, ' ', key);
    SplitWhole(key, ' ');
    assert head + " " + key == head + [' '] + key;
  }

  /** A message of one word throws. */
  lemma IdOfOneWord(message: string)
    requires Word(message)
    ensures ParseId(message).Fail?
  {
    SplitWhole(message, ' ');
  }

  // ---------------------------------------------------------------- option

  /** A default value as each option type reads it; `None` inside stands for `NaN` or `undefined`. */
  datatype Default = Text(text: string) | Flag(on: bool) | Number(n: Option<int>) | Choice(choice: Option<string>)

  /**
   * The object `parseOption` returns: key and type always, the other
   * properties only once the message set them; `Some(None)` is a property
   * set to `NaN` or `undefined`.
   */
  datatype OptionLine = OptionLine(
    key: string,
    kind: string,
    defaultValue: Option<Default>,
    minValue: Option<Option<int>>,
    maxValue: Option<Option<int>>,
    vars: Option<seq<Option<string>>>)

  /** `split[0]` (or `split.shift()`), `undefined` past the end. */
  function Head(split: seq<string>): Option<string> {
    if split == [] then None else Some(split[0])
  }

  /** What `split.shift()` leaves. */
  function Tail(split: seq<string>): seq<string> {
    if split == [] then [] else split[1..]
  }

  /** `parseInt` of a word that may be `undefined`. */
  function ParseIntOf(w: Option<string>): Option<int> {
    match w
    case None => None
    case Some(s) => ParseInt(s)
  }

  function VarsOf(r: OptionLine): seq<Option<string>> {
    if r.vars.Some? then r.vars.value else []
  }

  /**
   * One pass of the attribute loop: the attribute the first word names and
   * the words it takes; a word naming no attribute takes nothing.
   */
  function Attribute(r: OptionLine, split: seq<string>): (o: (OptionLine, seq<string>))
    requires split != []
    ensures |o.1| < |split| || o == (r, split)
    ensures o.0.key == r.key && o.0.kind == r.kind
  {
    var rest := split[1..];
    if split[0] == "default" then
      if r.kind == "string" then
        var text := Join(rest, " ");
        (r.(defaultValue := Some(Text(if text == "<empty>" then "" else text))), [])
      else if r.kind == "check" then (r.(defaultValue := Some(Flag(Head(rest) == Some("true")))), Tail(rest))
      else if r.kind == "spin" then (r.(defaultValue := Some(Number(ParseIntOf(Head(rest))))), Tail(rest))
      else if r.kind == "combo" then (r.(defaultValue := Some(Choice(Head(rest)))), Tail(rest))
      else (r, rest)
    else if split[0] == "min" then (r.(minValue := Some(ParseIntOf(Head(rest)))), Tail(rest))
    else if split[0] == "max" then (r.(maxValue := Some(ParseIntOf(Head(rest)))), Tail(rest))
    else if split[0] == "var" then (r.(vars := Some(VarsOf(r) + [Head(rest)])), Tail(rest))
    else (r, split)
  }

  /** The attribute loop: passes until the words run out or a pass takes none. */
  function Attributes(r: OptionLine, split: seq<string>): (o: OptionLine)
    ensures o.key == r.key && o.kind == r.kind
    decreases |split|
  {
    if split == [] then r
    else
      var next := Attribute(r, split);
      if |next.1| == |split| then next.0 else Attributes(next.0, next.1)
  }

  /** The text between the 12 characters of `option name ` and the first ` type `; empty when there is none, as `substring(0, -1)` clamps to nothing. */
  function OptionKey(message: string): string {
    var m := SubstringFrom(message, 12);
    Substring(m, 0, match IndexOf(m, " type ") case Some(i) => i case None => -1)
  }

  /** The words after the key and the six characters of ` type `, the type first. */
  function OptionWords(message: string): (split: seq<string>)
    ensures |split| >= 1
  {
    Split(SubstringFrom(SubstringFrom(message, 12), |OptionKey(message)| + 6), " ")
  }

  /** What `parseOption` returns. */
  function OptionOf(message: string): OptionLine {
    var split := OptionWords(message);
    Attributes(OptionLine(OptionKey(message), split[0], None, None, None, None), split[1..])
  }

  /** `parseOption`, loop and all. */
  method ParseOption(message: string) returns (result: OptionLine)
    ensures result == OptionOf(message)
  {
    var m := SubstringFrom(message, 12);
    var at := IndexOf(m, " type ");
    var key := Substring(m, 0, if at.Some? then at.value else -1);
    m := SubstringFrom(m, |key| + 6);
    var split := Split(m, " ");
    var kind := split[0];
    split := split[1..];
    result := OptionLine(key, kind, None, None, None, None);
    while |split| > 0
      invariant result.kind == kind
      invariant Attributes(result, split) == OptionOf(message)
      decreases |split|
    {
      var splitLength := |split|;
      ghost var before := (result, split);
      if split[0] == "default" {
        split := split[1..];
        if kind == "string" {
          var text := Join(split, " ");
          result := result.(defaultValue := Some(Text(if text == "<empty>" then "" else text)));
          split := [];
        } else if kind == "check" {
          result := result.(defaultValue := Some(Flag(Head(split) == Some("true"))));
          split := Tail(split);
        } else if kind == "spin" {
          result := result.(defaultValue := Some(Number(ParseIntOf(Head(split)))));
          split := Tail(split);
        } else if kind == "combo" {
          result := result.(defaultValue := Some(Choice(Head(split))));
          split := Tail(split);
        }
      } else if split[0] == "min" {
        split := split[1..];
        result := result.(minValue := Some(ParseIntOf(Head(split))));
        split := Tail(split);
      } else if split[0] == "max" {
        split := split[1..];
        result := result.(maxValue := Some(ParseIntOf(Head(split))));
        split := Tail(split);
      } else if split[0] == "var" {
        split := split[1..];
        result := result.(vars := Some(VarsOf(result) + [Head(split)]));
        split := Tail(split);
      }
      assert (result, split) == Attribute(before.0, before.1);
      if |split| == splitLength {
        break;
      }
    }
  }

  // What the attribute loop does with each attribute.

  /** A `string` option's default is the rest of the message, words joined by spaces, `<empty>` read as nothing; it ends the loop. */
  lemma StringDefault(r: OptionLine, rest: seq<string>)
    requires r.kind == "string"
    ensures var text := Join(rest, " ");
      Attributes(r, ["default"] + rest) == r.(defaultValue := Some(Text(if text == "<empty>" then "" else text)))
  {
    assert (["default"] + rest)[1..] == rest;
  }

  /**
   * A `check` default is true exactly when its word is `true`, a `spin`
   * default, `min` and `max` are read by `parseInt`, a `combo` default is
   * its word; each takes the word after it, and the loop goes on.
   */
  lemma WordAttributes(r: OptionLine, w: string, rest: seq<string>)
    ensures r.kind == "check" ==>
      Attributes(r, ["default", w] + rest) == Attributes(r.(defaultValue := Some(Flag(w == "true"))), rest)
    ensures r.kind == "spin" ==>
      Attributes(r, ["default", w] + rest) == Attributes(r.(defaultValue := Some(Number(ParseInt(w)))), rest)
    ensures r.kind == "combo" ==>
      Attributes(r, ["default", w] + rest) == Attributes(r.(defaultValue := Some(Choice(Some(w)))), rest)
    ensures Attributes(r, ["min", w] + rest) == Attributes(r.(minValue := Some(ParseInt(w))), rest)
    ensures Attributes(r, ["max", w] + rest) == Attributes(r.(maxValue := Some(ParseInt(w))), rest)
  {
    assert (["default", w] + rest)[1..] == [w] + rest;
    assert (["min", w] + rest)[1..] == [w] + rest;
    assert (["max", w] + rest)[1..] == [w] + rest;
    assert ([w] + rest)[1..] == rest;
  }

  /** The `var` words of a `var a var b ...` run, in order. */
  function VarWords(ws: seq<string>): (split: seq<string>)
    ensures |split| == 2 * |ws|
  {
    if ws == [] then [] else ["var", ws[0]] + VarWords(ws[1..])
  }

  function Lifted(ws: seq<string>): (r: seq<Option<string>>)
    ensures |r| == |ws| && forall i :: 0 <= i < |ws| ==> r[i] == Some(ws[i])
  {
    if ws == [] then [] else [Some(ws[0])] + Lifted(ws[1..])
  }

  /** The result with words appended to its list of vars, creating the list when there are any. */
  function Appended(r: OptionLine, ws: seq<string>): OptionLine {
    if ws == [] then r else r.(vars := Some(VarsOf(r) + Lifted(ws)))
  }

  /**
   * Each `var` appends its word to the list, in the order given, and the
   * loop goes on after the run; nothing else in the result changes.
   */
  lemma {:induction false} VarsInOrder(r: OptionLine, ws: seq<string>, rest: seq<string>)
    ensures Attributes(r, VarWords(ws) + rest) == Attributes(Appended(r, ws), rest)
    decreases |ws|
  {
    if ws == [] {
      assert VarWords(ws) + rest == rest;
    } else {
      var tail := VarWords(ws[1..]) + rest;
      assert VarWords(ws) + rest == ["var", ws[0]] + tail;
      var r1 := r.(vars := Some(VarsOf(r) + [Some(ws[0])]));
      VarStep(r, ws[0], tail);
      VarsInOrder(r1, ws[1..], rest);
      AppendedStep(r, ws);
    }
  }

  lemma AppendedStep(r: OptionLine, ws: seq<string>)
    requires ws != []
    ensures Appended(r.(vars := Some(VarsOf(r) + [Some(ws[0])])), ws[1..]) == Appended(r, ws)
  {
    assert Lifted(ws) == [Some(ws[0])] + Lifted(ws[1..]);
    if ws[1..] == [] {
      assert Lifted(ws) == [Some(ws[0])];
    } else {
      assert VarsOf(r) + [Some(ws[0])] + Lifted(ws[1..]) == VarsOf(r) + Lifted(ws);
    }
  }

  lemma VarStep(r: OptionLine, w: string, tail: seq<string>)
    ensures Attributes(r, ["var", w] + tail) == Attributes(r.(vars := Some(VarsOf(r) + [Some(w)])), tail)
  {
    var split := ["var", w] + tail;
    assert split[1..] == [w] + tail && ([w] + tail)[1..] == tail;
  }

  /** A word that names no attribute ends the loop with the result as it is. */
  lemma UnknownAttributeStops(r: OptionLine, split: seq<string>)
    requires split != [] && split[0] != "default" && split[0] != "min" && split[0] != "max" && split[0] != "var"
    ensures Attributes(r, split) == r
  {
  }

  /** Another type's `default` takes only the word `default`. */
  lemma OtherDefault(r: OptionLine, rest: seq<string>)
    requires r.kind != "string" && r.kind != "check" && r.kind != "spin" && r.kind != "combo"
    ensures Attributes(r, ["default"] + rest) == Attributes(r, rest)
  {
    assert (["default"] + rest)[1..] == rest;
  }

  /** No ` type ` starts inside the key, so the one after it is the first. */
  predicate TypeAfter(key: string) {
    forall j :: 0 <= j < |key| ==> !OccursAt(key + " type ", " type ", j)
  }

  /** The key of `option name <key> type <rest>` is everything up to the first ` type `, spaces included. */
  lemma OptionKeyOf(key: string, rest: string)
    requires TypeAfter(key)
    ensures var message := "option name " + key + " type " + rest;
      OptionKey(message) == key && SubstringFrom(SubstringFrom(message, 12), |key| + 6) == rest
  {
    var message := "option name " + key + " type " + rest;
    var m := message[12..];
    assert m == key + " type " + rest;
    assert m[|key|..|key| + 6] == " type ";
    forall j | 0 <= j < |key| ensures !OccursAt(m, " type ", j) {
      assert m[j..j + 6] == (key + " type ")[j..j + 6];
      assert !OccursAt(key + " type ", " type ", j);
    }
    IndexFromFirst(m, " type ", 0, |key|);
    assert m[|key| + 6..] == rest;
  }

  /** The words of `option name <key> type <words>`, when no ` type ` starts inside the key. */
  lemma OptionWordsOf(key: string, words: seq<string>)
    requires TypeAfter(key) && words != []
    requires forall k :: 0 <= k < |words| ==> Word(words[k])
    ensures var message := "option name " + key + " type " + Join(words, " ");
      OptionKey(message) == key && OptionWords(message) == words
  {
    OptionKeyOf(key, Join(words, " "));
    JoinSplit(words, ' ');
  }

  /**
   * `option name <key> type <type> <attributes>`: the key is everything up
   * to the first ` type `, the type is the next word, and the attribute
   * loop runs over the words after it.
   */
  lemma OptionShape(key: string, kind: string, attributes: seq<string>)
    requires TypeAfter(key)
    requires Word(kind) && forall k :: 0 <= k < |attributes| ==> Word(attributes[k])
    ensures OptionOf("option name " + key + " type " + Join([kind] + attributes, " ")) ==
            Attributes(OptionLine(key, kind, None, None, None, None), attributes)
  {
    var words := [kind] + attributes;
    OptionWordsOf(key, words);
    assert words[0] == kind && words[1..] == attributes;
  }

  // ---------------------------------------------------------------- info

  /** The fields `parseInfo` looks for, in the order of the set it iterates. */
  const InfoFields: seq<string> := ["depth", "seldepth", "time", "nodes", "pv", "multipv", "score", "currmove",
    "currmovenumber", "hashfull", "nps", "tbhits", "cpuload", "string", "refutation", "currline"]

  /** A field's value: one word (kept as text), a list of words, a score, or the rest of the message. */
  datatype InfoValue =
    | Token(word: string)
    | Line(words: seq<string>)
    | Score(kind: string, value: string, bound: Option<string>)
    | Rest(text: string)

  /**
   * What `parseInfo` comes to: the fields it read; or, when no remaining
   * field starts what is left of the message, the state in which the loop
   * goes on forever, since nothing changes from one pass to the next; or
   * the error it threw.
   */
  datatype Info =
    | Info(values: map<string, InfoValue>)
    | Stuck(message: string, values: map<string, InfoValue>)
    | Threw(error: Error)

  /** What is left of the message and the fields read so far. */
  datatype Reading = Reading(message: string, values: map<string, InfoValue>)

  /**
   * Reading one field off the front of the message, once it is known to
   * start with the field and a space: `string` takes the rest of the
   * message, `pv`, `refutation` and `currline` the remaining words, `score`
   * a type, a value and an optional bound, any other field its next word.
   */
  function ReadField(field: string, message: string, values: map<string, InfoValue>): Outcome<Reading> {
    if StartsWith(message, "string") then
      Ok(Reading("", values[field := Rest(SubstringFrom(message, |field| + 1))]))
    else if StartsWith(message, "pv") || StartsWith(message, "refutation") || StartsWith(message, "currline") then
      var words := Split(message, " ");
      Ok(Reading("", values[words[0] := Line(words[1..])]))
    else if StartsWith(message, "score") then ReadScore(field, message, values)
    else
      var words := Split(message, " ");
      if |words| < 2 then Fail(TypeError("value.length"))
      else Ok(Reading(SubstringFrom(message, |words[1]| + |field| + 2), values[field := Token(words[1])]))
  }

  /** The `score` field: a type and a value, then an optional bound. */
  function ReadScore(field: string, message: string, values: map<string, InfoValue>): Outcome<Reading> {
    var words := Split(message, " ");
    if |words| < 3 then Fail(TypeError("value.length"))
    else
      var (bound, rest) := ReadBound(SubstringFrom(message, |words[2]| + |words[1]| + |field| + 3));
      Ok(Reading(rest, values[field := Score(words[1], words[2], bound)]))
  }

  /** An `upperbound` or `lowerbound` after a score, skipping it and the character after it. */
  function ReadBound(rest: string): (Option<string>, string) {
    if StartsWith(rest, "upperbound") then (Some("upper"), SubstringFrom(rest, 11))
    else if StartsWith(rest, "lowerbound") then (Some("lower"), SubstringFrom(rest, 11))
    else (None, rest)
  }

  /**
   * One pass over the remaining fields from the `i`-th, in order: each
   * field that starts the message as it stands is read off it. The field
   * last read is the one the pass reports.
   */
  function Pass(fields: seq<string>, i: nat, rd: Reading, found: Option<string>): (o: Outcome<(Reading, Option<string>)>)
    requires i <= |fields|
    ensures o.Ok? && o.value.1.Some? ==> o.value.1 == found || o.value.1.value in fields[i..]
    ensures o.Ok? && o.value.1.None? ==> found.None? && o.value.0 == rd
    decreases |fields| - i
  {
    if i == |fields| then Ok((rd, found))
    else if StartsWith(rd.message, fields[i] + " ") then
      match ReadField(fields[i], rd.message, rd.values)
      case Fail(e) => Fail(e)
      case Ok(next) => Pass(fields, i + 1, next, Some(fields[i]))
    else Pass(fields, i + 1, rd, found)
  }

  /** `fields.delete(f)`. */
  function Remove(fields: seq<string>, f: string): (r: seq<string>)
    ensures f in fields ==> |r| == |fields| - 1
    ensures f !in fields ==> r == fields
  {
    if fields == [] then []
    else if fields[0] == f then fields[1..]
    else [fields[0]] + Remove(fields[1..], f)
  }

  /** The passes: while there is message and a field left, each pass deletes the field it reported. */
  function Passes(rd: Reading, fields: seq<string>): Info
    decreases |fields|
  {
    if |rd.message| == 0 || |fields| == 0 then Info(rd.values)
    else
      match Pass(fields, 0, rd, None)
      case Fail(e) => Threw(e)
      case Ok(o) =>
        if o.1.None? then Stuck(rd.message, rd.values)
        else Passes(o.0, Remove(fields, o.1.value))
  }

  /** What `parseInfo` comes to, after the five characters of `info `. */
  function InfoOf(message: string): Info {
    Passes(Reading(SubstringFrom(message, 5), map[]), InfoFields)
  }

  /**
   * `parseInfo`, loops and all. Where the source's loop would spin
   * forever (no remaining field starts the message), the method stops and
   * reports the state it would spin in.
   */
  method ParseInfo(message: string) returns (r: Info)
    ensures r == InfoOf(message)
  {
    var msg := SubstringFrom(message, 5);
    var fields := InfoFields;
    var values: map<string, InfoValue> := map[];
    while |msg| > 0 && |fields| > 0
      invariant Passes(Reading(msg, values), fields) == InfoOf(message)
      decreases |fields|
    {
      ghost var start := Reading(msg, values);
      var found: Option<string> := None;
      var i := 0;
      while i < |fields|
        invariant 0 <= i <= |fields|
        invariant Pass(fields, i, Reading(msg, values), found) == Pass(fields, 0, start, None)
        invariant found.Some? ==> found.value in fields
        invariant found.None? ==> Reading(msg, values) == start
      {
        if StartsWith(msg, fields[i] + " ") {
          match ReadField(fields[i], msg, values)
          case Fail(e) =>
            assert Pass(fields, 0, start, None) == Fail(e);
            return Threw(e);
          case Ok(next) =>
            msg, values, found := next.message, next.values, Some(fields[i]);
        }
        i := i + 1;
      }
      if found.None? {
        return Stuck(msg, values);
      }
      fields := Remove(fields, found.value);
    }
    return Info(values);
  }

  // What one field's reading takes off the message.

  /** The fields whose value is their next word. */
  const ScalarFields: seq<string> := ["depth", "seldepth", "time", "nodes", "multipv", "currmove",
    "currmovenumber", "hashfull", "nps", "tbhits", "cpuload"]

  /** How a word-valued field's name begins: enough to tell it from the other kinds' keywords. */
  predicate ScalarInitials(f: string) {
    && |f| >= 3 && f[0] != 'p' && f[0] != 'r'
    && (f[0] == 's' ==> f[1] == 'e')
    && (f[0] == 'c' ==> f[1] == 'p' || (|f| > 4 && f[4] == 'm'))
  }

  lemma ScalarFieldInitials(field: string)
    requires field in ScalarFields
    ensures ScalarInitials(field) && Word(field)
  {
  }

  /** A message that starts with a word-valued field and a space starts with none of the other kinds' keywords. */
  lemma NotCompound(field: string, m: string)
    requires ScalarInitials(field) && StartsWith(m, field + " ")
    ensures !StartsWith(m, "string") && !StartsWith(m, "pv") && !StartsWith(m, "refutation")
    ensures !StartsWith(m, "currline") && !StartsWith(m, "score")
  {
    assert m[..|field| + 1] == field + " ";
    assert m[0] == field[0] && m[1] == field[1];
    assert |field| > 4 ==> m[4] == field[4];
  }

  /** A word-valued field takes its next word, as text, and the space after it. */
  lemma ScalarRead(field: string, value: string, rest: string, values: map<string, InfoValue>)
    requires field in ScalarFields && Word(value)
    ensures ReadField(field, field + " " + value + " " + rest, values) ==
            Ok(Reading(rest, values[field := Token(value)]))
  {
    var m := field + " " + value + " " + rest;
    ScalarFieldInitials(field);
    assert StartsWith(m, field + " ") by { assert m[..|field| + 1] == field + " "; }
    NotCompound(field, m);
    assert m == field + [' '] + (value + [' '] + rest);
    SplitAfterWord(field, ' ', value + " " + rest);
    SplitAfterWord(value, ' ', rest);
    assert m[|value| + |field| + 2..] == rest;
  }

  /** `string` takes everything after it, spaces and all, and leaves nothing to read. */
  lemma TextRead(text: string, values: map<string, InfoValue>)
    ensures ReadField("string", "string " + text, values) == Ok(Reading("", values["string" := Rest(text)]))
  {
    var m := "string " + text;
    assert m[..6] == "string";
    assert m[7..] == text;
  }

  /** Joined words split back into themselves, and the first comes first. */
  lemma JoinedWords(head: string, ws: seq<string>)
    requires Word(head) && forall k :: 0 <= k < |ws| ==> Word(ws[k])
    ensures var m := Join([head] + ws, " ");
      StartsWith(m, head) && Split(m, " ") == [head] + ws
  {
    JoinedHead(head, ws);
    SpaceFreeParts(head, ws);
    JoinSplit([head] + ws, ' ');
  }

  /** Joined words start with the first of them. */
  lemma JoinedHead(head: string, ws: seq<string>)
    ensures StartsWith(Join([head] + ws, " "), head)
  {
    var parts := [head] + ws;
    var m := Join(parts, " ");
    if ws != [] {
      assert parts[1..] == ws;
      assert m == head + " " + Join(ws, " ");
    }
    assert m[..|head|] == head;
  }

  /** No word of `[head] + ws` holds a space. */
  lemma SpaceFreeParts(head: string, ws: seq<string>)
    requires Word(head) && forall k :: 0 <= k < |ws| ==> Word(ws[k])
    ensures forall k, i :: 0 <= k < |[head] + ws| && 0 <= i < |([head] + ws)[k]| ==> ([head] + ws)[k][i] != ' '
  {
    var parts := [head] + ws;
    forall k, i | 0 <= k < |parts| && 0 <= i < |parts[k]| ensures parts[k][i] != ' ' {
      if k > 0 {
        assert parts[k] == ws[k - 1];
      }
    }
  }

  /** The line-valued fields' names are words, and none begins like `string`. */
  lemma LineFieldNames(field: string)
    requires field == "pv" || field == "refutation" || field == "currline"
    ensures Word(field) && |field| > 0 && field[0] != 's'
  {
  }

  /** A line-valued field takes all the words after it and leaves nothing to read. */
  lemma LineRead(field: string, ws: seq<string>, values: map<string, InfoValue>)
    requires field == "pv" || field == "refutation" || field == "currline"
    requires forall k :: 0 <= k < |ws| ==> Word(ws[k])
    ensures ReadField(field, Join([field] + ws, " "), values) == Ok(Reading("", values[field := Line(ws)]))
  {
    LineFieldNames(field);
    JoinedWords(field, ws);
    var m := Join([field] + ws, " ");
    var words := Split(m, " ");
    assert words[0] == field && words[1..] == ws;
    assert m[0] == field[0];
    DiffersAt(m, "string", 0);
  }

  /** A word and a space come off the front of a split as one part. */
  lemma WordThen(w: string, rest: string)
    requires Word(w)
    ensures Split(w + " " + rest, " ") == [w] + Split(rest, " ")
  {
    assert w + " " + rest == w + [' '] + rest;
    SplitAfterWord(w, ' ', rest);
  }

  /** Two words and whatever follows split into the two words first. */
  lemma TwoWords(b: string, c: string, after: string)
    requires Word(b) && Word(c)
    ensures Split(b + " " + c + " " + after, " ") == [b, c] + Split(after, " ")
  {
    var tail := c + " " + after;
    assert b + " " + c + " " + after == b + " " + tail;
    WordThen(c, after);
    WordThen(b, tail);
    assert [b] + ([c] + Split(after, " ")) == [b, c] + Split(after, " ");
  }

  /** Prepending one word to two is prepending all three. */
  lemma PrependThree(a: string, b: string, c: string, xs: seq<string>)
    ensures [a] + ([b, c] + xs) == [a, b, c] + xs
  {
  }

  /** Three words and whatever follows split into the three words first. */
  lemma ThreeWords(a: string, b: string, c: string, after: string)
    requires Word(a) && Word(b) && Word(c)
    ensures Split(a + " " + b + " " + c + " " + after, " ") == [a, b, c] + Split(after, " ")
  {
    var mid := b + " " + c + " " + after;
    assert a + " " + b + " " + c + " " + after == a + " " + mid;
    TwoWords(b, c, after);
    WordThen(a, mid);
    PrependThree(a, b, c, Split(after, " "));
  }

  /** Three words and their spaces start with the first, and what follows them comes after. */
  lemma AfterThreeWords(a: string, b: string, c: string, after: string)
    ensures var m := a + " " + b + " " + c + " " + after;
      StartsWith(m, a) && SubstringFrom(m, |c| + |b| + |a| + 3) == after
  {
    var m := a + " " + b + " " + c + " " + after;
    assert m[..|a|] == a;
    assert m[|c| + |b| + |a| + 3..] == after;
  }

  /** The keyword written with its space is the keyword followed by a space. */
  lemma ScoreSpace(rest: string)
    ensures "score " + rest == "score" + " " + rest
  {
    assert "score " == "score" + " ";
  }

  /** Two words ending the message. */
  lemma LastTwoWords(a: string, b: string)
    requires Word(a) && Word(b)
    ensures Split(a + " " + b, " ") == [a, b]
  {
    assert a + " " + b == a + [' '] + b;
    SplitAfterWord(a, ' ', b);
    SplitWhole(b, ' ');
  }

  /** A message that starts with `score` starts with no other kind's keyword. */
  lemma ScoreKeyword(m: string)
    requires StartsWith(m, "score")
    ensures !StartsWith(m, "string") && !StartsWith(m, "pv") && !StartsWith(m, "refutation") && !StartsWith(m, "currline")
  {
    assert m[..5][0] == 's' && m[..5][1] == 'c';
    DiffersAt(m, "string", 1);
    DiffersAt(m, "pv", 0);
    DiffersAt(m, "refutation", 0);
    DiffersAt(m, "currline", 0);
  }

  /** `score` is a word. */
  lemma ScoreName()
    ensures Word("score")
  {
  }

  /** How a score's bound is written: `upperbound` or `lowerbound` and a space, or nothing. */
  function BoundText(bound: Option<string>): string {
    match bound
    case None => ""
    case Some(b) => b + "bound "
  }

  /** The bound a score may carry. */
  predicate ScoreBound(bound: Option<string>) {
    bound == None || bound == Some("upper") || bound == Some("lower")
  }

  /** A bound reads back as written; with none, what follows must not begin like one. */
  lemma BoundRead(bound: Option<string>, rest: string)
    requires ScoreBound(bound)
    requires bound.None? ==> !StartsWith(rest, "upperbound") && !StartsWith(rest, "lowerbound")
    ensures ReadBound(BoundText(bound) + rest) == (bound, rest)
  {
    var after := BoundText(bound) + rest;
    if bound == Some("upper") {
      assert after[..10] == "upperbound" && after[11..] == rest;
    } else if bound == Some("lower") {
      assert after[..10] == "lowerbound" && after[11..] == rest && after[0] == 'l';
      DiffersAt(after, "upperbound", 0);
    } else {
      assert after == rest;
    }
  }

  /** A score reads back as the type, value and bound it was written with. */
  lemma ScoreRead(kind: string, value: string, bound: Option<string>, rest: string, values: map<string, InfoValue>)
    requires Word(kind) && Word(value) && ScoreBound(bound)
    requires bound.None? ==> !StartsWith(rest, "upperbound") && !StartsWith(rest, "lowerbound")
    ensures ReadField("score", "score " + kind + " " + value + " " + BoundText(bound) + rest, values) ==
            Ok(Reading(rest, values["score" := Score(kind, value, bound)]))
  {
    var after := BoundText(bound) + rest;
    var m := "score" + " " + kind + " " + value + " " + after;
    ScoreMessage(kind, value, BoundText(bound), rest);
    ScoreName();
    ThreeWords("score", kind, value, after);
    AfterThreeWords("score", kind, value, after);
    var words := Split(m, " ");
    assert |words| >= 3 && words[1] == kind && words[2] == value;
    assert SubstringFrom(m, |words[2]| + |words[1]| + |"score"| + 3) == after;
    BoundRead(bound, rest);
    assert ReadScore("score", m, values) == Ok(Reading(rest, values["score" := Score(kind, value, bound)]));
    ScoreKeyword(m);
    assert ReadField("score", m, values) == ReadScore("score", m, values);
  }

  /** The score message, regrouped around its keyword and its tail. */
  lemma ScoreMessage(kind: string, value: string, b: string, rest: string)
    ensures "score " + kind + " " + value + " " + b + rest == "score" + " " + kind + " " + value + " " + (b + rest)
  {
    ScoreSpace(kind);
  }

  /** A score at the very end of the message. */
  lemma ScoreAtEnd(kind: string, value: string, values: map<string, InfoValue>)
    requires Word(kind) && Word(value)
    ensures ReadField("score", "score " + kind + " " + value, values) ==
            Ok(Reading("", values["score" := Score(kind, value, None)]))
  {
    var m := "score " + kind + " " + value;
    ScoreName();
    assert m == "score" + [' '] + (kind + " " + value);
    SplitAfterWord("score", ' ', kind + " " + value);
    LastTwoWords(kind, value);
    assert m[..5] == "score";
    ScoreKeyword(m);
  }

  /** A score with only a type throws, as reading its missing value does in the source. */
  lemma ScoreWithoutValue(kind: string, values: map<string, InfoValue>)
    requires Word(kind)
    ensures ReadField("score", "score " + kind, values) == Fail(TypeError("value.length"))
  {
    ScoreName();
    var m := "score " + kind;
    assert m == "score" + " " + kind;
    LastTwoWords("score", kind);
    assert |Split(m, " ")| == 2;
    assert ReadScore("score", m, values) == Fail(TypeError("value.length"));
    assert m[..5] == "score";
    ScoreKeyword(m);
    assert ReadField("score", m, values) == ReadScore("score", m, values);
  }

  /** A pass in which no field starts the message reads nothing and reports what it was given. */
  lemma {:induction false} PassMisses(fields: seq<string>, i: nat, rd: Reading, found: Option<string>)
    requires i <= |fields|
    requires forall j :: i <= j < |fields| ==> !StartsWith(rd.message, fields[j] + " ")
    ensures Pass(fields, i, rd, found) == Ok((rd, found))
    decreases |fields| - i
  {
    if i < |fields| {
      PassMisses(fields, i + 1, rd, found);
    }
  }

  /**
   * When no remaining field starts what is left of the message, nothing
   * changes from one pass to the next: the source loops for ever.
   */
  lemma NoFieldStuck(rd: Reading, fields: seq<string>)
    requires |rd.message| > 0 && |fields| > 0
    requires forall j :: 0 <= j < |fields| ==> !StartsWith(rd.message, fields[j] + " ")
    ensures Passes(rd, fields) == Stuck(rd.message, rd.values)
  {
    PassMisses(fields, 0, rd, None);
  }

  /** Only the first field, `depth`, begins with a `d`. */
  lemma OnlyDepthStartsD(m: string)
    requires |m| > 0 && m[0] == 'd'
    ensures forall j :: 1 <= j < |InfoFields| ==> !StartsWith(m, InfoFields[j] + " ")
  {
    forall j | 1 <= j < |InfoFields| ensures !StartsWith(m, InfoFields[j] + " ") {
      assert InfoFields[j][0] != 'd';
      DiffersAt(m, InfoFields[j] + " ", 0);
    }
  }

  /**
   * A field given twice: the first pass reads the first `depth` and deletes
   * it from the fields; what is left, say a second `depth`, begins with no
   * remaining field, so the source loops for ever.
   */
  lemma DepthThenStuck(value: string, rest: string)
    requires Word(value) && |rest| > 0 && rest[0] == 'd'
    ensures Passes(Reading("depth " + value + " " + rest, map[]), InfoFields) ==
            Stuck(rest, map["depth" := Token(value)])
  {
    var m := "depth " + value + " " + rest;
    assert "depth " == "depth" + " ";
    assert m == "depth" + " " + value + " " + rest;
    ScalarRead("depth", value, rest, map[]);
    var read := Reading(rest, map["depth" := Token(value)]);
    assert m[..6] == "depth ";
    assert StartsWith(m, InfoFields[0] + " ");
    OnlyDepthStartsD(rest);
    PassMisses(InfoFields, 1, read, Some("depth"));
    assert Pass(InfoFields, 0, Reading(m, map[]), None) == Ok((read, Some("depth")));
    assert Remove(InfoFields, "depth") == InfoFields[1..];
    forall j | 0 <= j < |InfoFields[1..]| ensures !StartsWith(rest, InfoFields[1..][j] + " ") {
      assert InfoFields[1..][j] == InfoFields[j + 1];
    }
    NoFieldStuck(read, InfoFields[1..]);
  }

  /** `info depth 2 depth 3` never finishes parsing. */
  lemma RepeatedFieldSpins()
    ensures InfoOf("info depth 2 depth 3") == Stuck("depth 3", map["depth" := Token("2")])
  {
    assert SubstringFrom("info depth 2 depth 3", 5) == "depth " + "2" + " " + "depth 3";
    DepthThenStuck("2", "depth 3");
  }

  // ------------------------------------------------------------- bestmove

  /** The engine's choice and, when it gives one, the move it expects in reply. */
  datatype BestMove = BestMove(move: string, ponder: Option<string>)

  /**
   * `parseBestMove`: after the nine characters of `bestmove `, the text up
   * to the first ` ponder ` is the move, and the text up to the next one,
   * if any, the ponder move.
   */
  function ParseBestMove(message: string): BestMove {
    var parts := Split(SubstringFrom(message, 9), " ponder ");
    BestMove(parts[0], if |parts| > 1 then Some(parts[1]) else None)
  }

  /** A word holds no separator that begins with a space. */
  lemma WordLacksSpaced(w: string, sep: string)
    requires Word(w) && |sep| > 0 && sep[0] == ' '
    ensures IndexOf(w, sep).None?
  {
    forall k | 0 <= k < |w| && k + |sep| <= |w| ensures !OccursAt(w, sep, k) {
      assert w[k..k + |sep|][0] == w[k];
    }
  }

  /** `bestmove` and one word: a move with no ponder move. */
  lemma BestMoveAlone(move: string)
    requires Word(move)
    ensures ParseBestMove("bestmove " + move) == BestMove(move, None)
  {
    assert ("bestmove " + move)[9..] == move;
    WordLacksSpaced(move, " ponder ");
  }

  /** `bestmove`, a word, `ponder` and a word: the move and the ponder move. */
  lemma BestMoveWithPonder(move: string, ponder: string)
    requires Word(move) && Word(ponder)
    ensures ParseBestMove("bestmove " + move + " ponder " + ponder) == BestMove(move, Some(ponder))
  {
    var m := "bestmove " + move + " ponder " + ponder;
    assert m[9..] == move + " ponder " + ponder;
    var s := move + " ponder " + ponder;
    FirstAfterWord(move, " ponder ", ponder);
    assert s[..|move|] == move && s[|move| + 8..] == ponder;
    WordLacksSpaced(ponder, " ponder ");
  }
}
