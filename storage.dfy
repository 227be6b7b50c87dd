/**
 * The option store of lib/storage.js: an in-memory list of named values,
 * read by name and updated by find-or-append.
 */
module OptionStore {
  import opened Util

  /** One stored option, `{name, value}`. */
  datatype Entry<V> = Entry(name: string, value: V)

  // ------------------------------------------------------- the list as a value

  /** The index of the first entry called `name` at or after `from`, as `Array.prototype.find` scans. */
  function FindFrom<V>(entries: seq<Entry<V>>, name: string, from: nat): (r: Option<nat>)
    requires from <= |entries|
    ensures r.Some? ==> from <= r.value < |entries| && entries[r.value].name == name
    ensures r.Some? ==> forall j :: from <= j < r.value ==> entries[j].name != name
    ensures r.None? ==> forall j :: from <= j < |entries| ==> entries[j].name != name
    decreases |entries| - from
  {
    if from == |entries| then None
    else if entries[from].name == name then Some(from)
    else FindFrom(entries, name, from + 1)
  }

  /** The index of the first entry called `name`. */
  function Find<V>(entries: seq<Entry<V>>, name: string): Option<nat> {
    FindFrom(entries, name, 0)
  }

  /** The value of the first entry called `name`, or `None` for `null`. */
  function Lookup<V>(entries: seq<Entry<V>>, name: string): Option<V> {
    match Find(entries, name)
    case None => None
    case Some(i) => Some(entries[i].value)
  }

  /** The list after `setOption`: the first entry called `name` takes the value, or a new entry goes at the end. */
  function Upsert<V>(entries: seq<Entry<V>>, name: string, value: V): seq<Entry<V>> {
    match Find(entries, name)
    case None => entries + [Entry(name, value)]
    case Some(i) => entries[i := entries[i].(value := value)]
  }

  /** The names of the entries. */
  function Names<V>(entries: seq<Entry<V>>): set<string> {
    set i | 0 <= i < |entries| :: entries[i].name
  }

  /** No two entries share a name. */
  predicate Distinct<V>(entries: seq<Entry<V>>) {
    forall i, j :: 0 <= i < j < |entries| ==> entries[i].name != entries[j].name
  }

  // --------------------------------------------------------------- the store

  /** `Storage`, holding `#data.options` when there is one. */
  class Storage<V> {
    var options: Option<seq<Entry<V>>>

    /** A store starting from the options saved earlier, if any. */
    constructor(saved: Option<seq<Entry<V>>>)
      ensures options == saved
    {
      options := saved;
    }

    /** `getOptions`: the list, or the empty list when there is none. */
    function GetOptions(): (r: seq<Entry<V>>)
      reads this
      ensures options.None? ==> r == []
      ensures options.Some? ==> r == options.value
    {
      if options.None? then [] else options.value
    }

    /** `getOption`: the value of the first entry with the name, or `None` for `null`. */
    method GetOption(name: string) returns (r: Option<V>)
      ensures r == Lookup(GetOptions(), name)
    {
      if options.None? {
        return None;
      }
      var list := options.value;
      var i := 0;
      while i < |list|
        invariant 0 <= i <= |list|
        invariant FindFrom(list, name, i) == Find(list, name)
      {
        if list[i].name == name {
          return Some(list[i].value);
        }
        i := i + 1;
      }
      return None;
    }

    /** `setOption`: create the list if there is none, then overwrite the first entry with the name or append one. */
    method SetOption(name: string, value: V)
      modifies this
      ensures options == Some(Upsert(old(GetOptions()), name, value))
    {
      if options.None? {
        options := Some([]);
      }
      var list := options.value;
      var i := 0;
      while i < |list|
        invariant 0 <= i <= |list|
        invariant FindFrom(list, name, i) == Find(list, name)
      {
        if list[i].name == name {
          options := Some(list[i := list[i].(value := value)]);
          return;
        }
        i := i + 1;
      }
      options := Some(list + [Entry(name, value)]);
    }
  }

  // ------------------------------------------------------------- properties

  /** `Find` gives the least index holding the name, and `None` exactly when no entry has it. */
  lemma FindIsFirst<V>(entries: seq<Entry<V>>, name: string)
    ensures Find(entries, name).None? <==> name !in Names(entries)
    ensures Find(entries, name).Some? ==>
      var i := Find(entries, name).value;
      i < |entries| && entries[i].name == name && forall j :: 0 <= j < i ==> entries[j].name != name
  {
    if name in Names(entries) {
      var k :| 0 <= k < |entries| && entries[k].name == name;
    }
  }

  /** Looking a name up after setting it gives the value set. */
  lemma ReadBack<V>(entries: seq<Entry<V>>, name: string, value: V)
    ensures Lookup(Upsert(entries, name, value), name) == Some(value)
  {
    var after := Upsert(entries, name, value);
    match Find(entries, name)
    case None =>
      FindAppended(entries, name, value);
    case Some(i) =>
      FindOverwritten(entries, name, value, i);
  }

  /** After an append, the name is found at the new last entry. */
  lemma FindAppended<V>(entries: seq<Entry<V>>, name: string, value: V)
    requires Find(entries, name).None?
    ensures Find(entries + [Entry(name, value)], name) == Some(|entries|)
  {
    var after := entries + [Entry(name, value)];
    FindFirstAt(after, name, |entries|);
  }

  /** After an overwrite of the first entry with the name, it is still found there. */
  lemma FindOverwritten<V>(entries: seq<Entry<V>>, name: string, value: V, i: nat)
    requires Find(entries, name) == Some(i)
    ensures Find(entries[i := entries[i].(value := value)], name) == Some(i)
  {
    var after := entries[i := entries[i].(value := value)];
    FindFirstAt(after, name, i);
  }

  /** The first index holding the name is what `Find` returns. */
  lemma {:induction false} FindFirstAt<V>(entries: seq<Entry<V>>, name: string, k: nat)
    requires k < |entries| && entries[k].name == name
    requires forall j :: 0 <= j < k ==> entries[j].name != name
    ensures Find(entries, name) == Some(k)
  {
    FindFromFirstAt(entries, name, 0, k);
  }

  lemma {:induction false} FindFromFirstAt<V>(entries: seq<Entry<V>>, name: string, from: nat, k: nat)
    requires from <= k < |entries| && entries[k].name == name
    requires forall j :: from <= j < k ==> entries[j].name != name
    ensures FindFrom(entries, name, from) == Some(k)
    decreases k - from
  {
    if from < k {
      FindFromFirstAt(entries, name, from + 1, k);
    }
  }

  /** Setting one name leaves every other name's lookup as it was. */
  lemma OthersUnchanged<V>(entries: seq<Entry<V>>, name: string, value: V, other: string)
    requires other != name
    ensures Lookup(Upsert(entries, name, value), other) == Lookup(entries, other)
  {
    var after := Upsert(entries, name, value);
    assert forall j :: 0 <= j < |after| ==> (after[j].name == other <==> j < |entries| && entries[j].name == other);
    match Find(entries, other)
    case None =>
      assert forall j :: 0 <= j < |after| ==> after[j].name != other;
    case Some(k) =>
      assert after[k] == entries[k];
      FindFirstAt(after, other, k);
  }

  /**
   * Setting a name that is present keeps the length and every other entry,
   * and changes only the value of the first entry with the name.
   */
  lemma OverwriteInPlace<V>(entries: seq<Entry<V>>, name: string, value: V)
    requires name in Names(entries)
    ensures var after := Upsert(entries, name, value);
      && |after| == |entries|
      && exists i :: (0 <= i < |entries| && entries[i].name == name && after[i] == Entry(name, value)
           && forall j :: 0 <= j < |entries| && j != i ==> after[j] == entries[j])
  {
    FindIsFirst(entries, name);
    var i := Find(entries, name).value;
    var after := Upsert(entries, name, value);
    assert after[i] == Entry(name, value);
  }

  /** Setting a name that is absent appends it and keeps every earlier entry. */
  lemma AppendWhenNew<V>(entries: seq<Entry<V>>, name: string, value: V)
    requires name !in Names(entries)
    ensures var after := Upsert(entries, name, value);
      && |after| == |entries| + 1
      && after[..|entries|] == entries && after[|entries|] == Entry(name, value)
  {
    FindIsFirst(entries, name);
    var after := Upsert(entries, name, value);
    assert after[..|entries|] == entries;
  }

  /** The names after setting one are the names before and that one. */
  lemma UpsertNames<V>(entries: seq<Entry<V>>, name: string, value: V)
    ensures Names(Upsert(entries, name, value)) == Names(entries) + {name}
  {
    FindIsFirst(entries, name);
    var after := Upsert(entries, name, value);
    match Find(entries, name)
    case None =>
      assert after == entries + [Entry(name, value)];
      assert after[|entries|].name == name;
      forall n | n in Names(entries) ensures n in Names(after) {
        var k :| 0 <= k < |entries| && entries[k].name == n;
        assert after[k].name == n;
      }
    case Some(i) =>
      assert forall k :: 0 <= k < |entries| ==> after[k].name == entries[k].name;
  }

  /** Upserting never introduces a second entry with the same name. */
  lemma UpsertKeepsDistinct<V>(entries: seq<Entry<V>>, name: string, value: V)
    requires Distinct(entries)
    ensures Distinct(Upsert(entries, name, value))
  {
    FindIsFirst(entries, name);
    var after := Upsert(entries, name, value);
    assert forall j :: 0 <= j < |entries| ==> after[j].name == entries[j].name;
  }

  /** Setting the same value twice is setting it once. */
  lemma UpsertIdempotent<V>(entries: seq<Entry<V>>, name: string, value: V)
    ensures Upsert(Upsert(entries, name, value), name, value) == Upsert(entries, name, value)
  {
    var after := Upsert(entries, name, value);
    match Find(entries, name)
    case None =>
      FindAppended(entries, name, value);
      assert after[|entries|].(value := value) == after[|entries|];
    case Some(i) =>
      FindOverwritten(entries, name, value, i);
  }

  /** With no list, nothing is found, and the first `setOption` makes a list of one entry. */
  lemma EmptyStore<V>(name: string, value: V)
    ensures Lookup<V>([], name) == None
    ensures Upsert([], name, value) == [Entry(name, value)]
  {
  }
}
