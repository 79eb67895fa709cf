/** The interned per-table data lists (`DataLists` in src/numbers_parser/model.py): each table
    keeps lists of formats, styles, strings, cell specs and formulas, whose entries carry a key,
    a value and a reference count. Looking a value up hands out its key, allocating the next
    free key the first time the value is seen. */
module DataLists {
  import opened Outcomes

  /** A list entry: its key, its value and how many cells refer to it. */
  datatype Entry<V> = Entry(key: int, value: V, refcount: int)

  /** A `TST.TableDataList` as stored: its entries and its `nextListID`. */
  datatype DataList<V> = DataList(entries: seq<Entry<V>>, nextListID: int)

  /** What the object store holds for a table: the identifier of its data list and the list. */
  datatype Stored<V> = Stored(id: int, list: DataList<V>)

  /** What the indexing loop of `add_table` builds: the largest key seen, the key of each value
      and the position of each key's entry. */
  datatype Scan<V(==)> = Scan(maxKey: int, byValue: map<V, int>, keyIndex: map<int, nat>)

  /** The cached state of one table: `id`, `datalist`, `by_value`, `key_index` and `next_key`.
      `by_key[k]` is always the entry at `key_index[k]`, so it is not kept separately. */
  datatype Index<V(==)> = Index(id: int, list: DataList<V>, byValue: map<V, int>, keyIndex: map<int, nat>, nextKey: int)

  /** The indexing loop of `add_table` as written: an entry is indexed only when its key is
      larger than every key before it. */
  function ScanAsWritten<V(==)>(entries: seq<Entry<V>>): Scan<V>
  {
    if entries == [] then Scan(0, map[], map[])
    else
      var s := ScanAsWritten(entries[..|entries| - 1]);
      var e := entries[|entries| - 1];
      if e.key > s.maxKey then Scan(e.key, s.byValue[e.value := e.key], s.keyIndex[e.key := |entries| - 1])
      else s
  }

  /** The indexing loop as it was evidently meant: every entry is indexed, and the largest key
      is tracked as before. */
  function ScanEntries<V(==)>(entries: seq<Entry<V>>): Scan<V>
  {
    if entries == [] then Scan(0, map[], map[])
    else
      var s := ScanEntries(entries[..|entries| - 1]);
      var e := entries[|entries| - 1];
      Scan(if e.key > s.maxKey then e.key else s.maxKey, s.byValue[e.value := e.key], s.keyIndex[e.key := |entries| - 1])
  }

  /** The `add_table` loop as written. */
  method IndexEntriesAsWritten<V(==)>(entries: seq<Entry<V>>) returns (s: Scan<V>)
    ensures s == ScanAsWritten(entries)
  {
    s := Scan(0, map[], map[]);
    var i := 0;
    while i < |entries|
      invariant 0 <= i <= |entries|
      invariant s == ScanAsWritten(entries[..i])
    {
      assert entries[..i + 1][..i] == entries[..i];
      var e := entries[i];
      if e.key > s.maxKey {
        s := Scan(e.key, s.byValue[e.value := e.key], s.keyIndex[e.key := i]);
      }
      i := i + 1;
    }
    assert entries[..i] == entries;
  }

  /** The `add_table` loop, corrected. */
  method IndexEntries<V(==)>(entries: seq<Entry<V>>) returns (s: Scan<V>)
    ensures s == ScanEntries(entries)
  {
    s := Scan(0, map[], map[]);
    var i := 0;
    while i < |entries|
      invariant 0 <= i <= |entries|
      invariant s == ScanEntries(entries[..i])
    {
      assert entries[..i + 1][..i] == entries[..i];
      var e := entries[i];
      s := Scan(if e.key > s.maxKey then e.key else s.maxKey, s.byValue[e.value := e.key], s.keyIndex[e.key := i]);
      i := i + 1;
    }
    assert entries[..i] == entries;
  }

  /** The index of a scan points each key at an entry with that key, no key exceeds the largest
      key, and every value's key is indexed. */
  ghost predicate Sound<V>(entries: seq<Entry<V>>, s: Scan<V>)
  {
    0 <= s.maxKey &&
    (forall k :: k in s.keyIndex ==> s.keyIndex[k] < |entries| && entries[s.keyIndex[k]].key == k && k <= s.maxKey) &&
    (forall v :: v in s.byValue ==> s.byValue[v] in s.keyIndex)
  }

  /** Every value's key leads back to an entry holding that value. */
  ghost predicate Agrees<V>(entries: seq<Entry<V>>, s: Scan<V>)
  {
    forall v :: v in s.byValue ==>
      s.byValue[v] in s.keyIndex && s.keyIndex[s.byValue[v]] < |entries| && entries[s.keyIndex[s.byValue[v]]].value == v
  }

  /** Every entry's key and value are indexed. */
  ghost predicate Complete<V>(entries: seq<Entry<V>>, s: Scan<V>)
  {
    forall i :: 0 <= i < |entries| ==> entries[i].key in s.keyIndex && entries[i].value in s.byValue
  }

  /** The corrected loop indexes every entry soundly, and the largest key bounds every key. */
  lemma {:induction false} ScanEntriesSound<V>(entries: seq<Entry<V>>)
    ensures Sound(entries, ScanEntries(entries))
    ensures Complete(entries, ScanEntries(entries))
    ensures forall i :: 0 <= i < |entries| ==> entries[i].key <= ScanEntries(entries).maxKey
  {
    if entries != [] {
      var n := |entries| - 1;
      ScanEntriesSound(entries[..n]);
      forall i | 0 <= i < n
        ensures entries[i] == entries[..n][i]
      {
      }
    }
  }

  /** No key is repeated. */
  predicate DistinctKeys<V>(entries: seq<Entry<V>>)
  {
    forall i, j :: 0 <= i < j < |entries| ==> entries[i].key != entries[j].key
  }

  /** With no key repeated, every value's key also leads back to that value. */
  lemma {:induction false} ScanEntriesAgrees<V>(entries: seq<Entry<V>>)
    requires DistinctKeys(entries)
    ensures Sound(entries, ScanEntries(entries)) && Agrees(entries, ScanEntries(entries))
  {
    ScanEntriesSound(entries);
    if entries != [] {
      var front := entries[..|entries| - 1];
      DistinctFront(entries);
      ScanEntriesAgrees(front);
      AgreesStep(entries);
    }
  }

  /** The entries before the last repeat no key, and none of them has the last one's key. */
  lemma DistinctFront<V>(entries: seq<Entry<V>>)
    requires entries != [] && DistinctKeys(entries)
    ensures DistinctKeys(entries[..|entries| - 1])
    ensures KeyNotIn(entries[..|entries| - 1], entries[|entries| - 1].key)
  {
  }

  /** No entry has key `k`. */
  predicate KeyNotIn<V>(entries: seq<Entry<V>>, k: int)
  {
    forall i :: 0 <= i < |entries| ==> entries[i].key != k
  }

  lemma AgreesStep<V>(entries: seq<Entry<V>>)
    requires entries != []
    requires KeyNotIn(entries[..|entries| - 1], entries[|entries| - 1].key)
    requires Sound(entries[..|entries| - 1], ScanEntries(entries[..|entries| - 1]))
    requires Agrees(entries[..|entries| - 1], ScanEntries(entries[..|entries| - 1]))
    ensures Agrees(entries, ScanEntries(entries))
  {
    var n := |entries| - 1;
    var front, e := entries[..n], entries[n];
    SplitLast(entries);
    AgreesSnoc(front, e, ScanEntries(front), ScanEntries(entries).maxKey);
  }

  lemma SplitLast<T>(xs: seq<T>)
    requires xs != []
    ensures xs == xs[..|xs| - 1] + [xs[|xs| - 1]]
  {
  }

  /** Indexing one more entry, whose key no earlier entry has, keeps the index agreeing. */
  lemma AgreesSnoc<V>(front: seq<Entry<V>>, e: Entry<V>, s: Scan<V>, maxKey: int)
    requires Sound(front, s) && Agrees(front, s) && KeyNotIn(front, e.key)
    ensures Agrees(front + [e], Scan(maxKey, s.byValue[e.value := e.key], s.keyIndex[e.key := |front|]))
  {
    var entries := front + [e];
    var t := Scan(maxKey, s.byValue[e.value := e.key], s.keyIndex[e.key := |front|]);
    forall v | v in t.byValue
      ensures t.byValue[v] in t.keyIndex && t.keyIndex[t.byValue[v]] < |entries|
              && entries[t.keyIndex[t.byValue[v]]].value == v
    {
      if v == e.value {
        assert entries[|front|] == e;
      } else {
        var k := s.byValue[v];
        var i := s.keyIndex[k];
        assert front[i].key == k && front[i].value == v;
        assert k != e.key;
        assert entries[i] == front[i];
      }
    }
  }

  /** The loop as written indexes soundly, and its index always agrees with the values: it never
      indexes a key twice. */
  lemma {:induction false} ScanAsWrittenSound<V>(entries: seq<Entry<V>>)
    ensures Sound(entries, ScanAsWritten(entries)) && Agrees(entries, ScanAsWritten(entries))
  {
    if entries != [] {
      var n := |entries| - 1;
      ScanAsWrittenSound(entries[..n]);
      var s := ScanAsWritten(entries[..n]);
      forall k | k in s.keyIndex
        ensures s.keyIndex[k] < n && entries[s.keyIndex[k]] == entries[..n][s.keyIndex[k]]
      {
      }
    }
  }

  /** Both loops agree when the keys strictly increase from 1 on, as they do in a list whose
      keys were all handed out by `lookup_key`. */
  lemma {:induction false} AsWrittenAgreesOnIncreasingKeys<V>(entries: seq<Entry<V>>)
    requires forall i :: 0 <= i < |entries| ==> entries[i].key >= 1
    requires forall i, j :: 0 <= i < j < |entries| ==> entries[i].key < entries[j].key
    ensures ScanAsWritten(entries) == ScanEntries(entries)
    ensures entries != [] ==> ScanEntries(entries).maxKey == entries[|entries| - 1].key
  {
    if entries != [] {
      var n := |entries| - 1;
      AsWrittenAgreesOnIncreasingKeys(entries[..n]);
    }
  }

  /** A list whose keys do not increase: the loop as written leaves key 1 out of the index, so
      `lookup_value(table, 1)` raises KeyError although the list holds an entry with key 1;
      the corrected loop indexes it. */
  lemma MissedKeyExample<V>(a: V, b: V)
    ensures var entries := [Entry(2, a, 1), Entry(1, b, 1)];
            && 1 !in ScanAsWritten(entries).keyIndex
            && 1 in ScanEntries(entries).keyIndex
            && ScanEntries(entries).keyIndex[1] == 1
  {
    var entries := [Entry(2, a, 1), Entry(1, b, 1)];
    assert entries[..1] == [Entry(2, a, 1)];
    assert ScanAsWritten(entries[..1]) == Scan(2, map[a := 2], map[2 := 0]);
    assert entries[..1][..0] == [];
  }

  /** The state `add_table` caches for a stored list. */
  function Built<V(==)>(stored: Stored<V>): (ix: Index<V>)
    ensures ix.id == stored.id && ix.list == stored.list
  {
    var s := ScanEntries(stored.list.entries);
    Index(stored.id, stored.list, s.byValue, s.keyIndex, s.maxKey + 1)
  }

  /** The cached state of a table is consistent: each indexed key leads to an entry with that
      key, every key in use lies below `next_key`, and each value's key is indexed. */
  ghost predicate WellIndexed<V>(ix: Index<V>)
  {
    (forall k :: k in ix.keyIndex ==>
       ix.keyIndex[k] < |ix.list.entries| && ix.list.entries[ix.keyIndex[k]].key == k && k < ix.nextKey) &&
    (forall v :: v in ix.byValue ==> ix.byValue[v] in ix.keyIndex)
  }

  /** Each value's key leads back to an entry holding that value. */
  ghost predicate Consistent<V>(ix: Index<V>)
  {
    WellIndexed(ix) && Agrees(ix.list.entries, Scan(0, ix.byValue, ix.keyIndex))
  }

  /** A freshly cached table is consistent and indexes every entry; `next_key` is one above the
      largest key, and at least 1. */
  lemma BuiltWellIndexed<V>(stored: Stored<V>)
    ensures WellIndexed(Built(stored))
    ensures forall i :: 0 <= i < |stored.list.entries| ==>
              stored.list.entries[i].key in Built(stored).keyIndex && stored.list.entries[i].key < Built(stored).nextKey
    ensures Built(stored).nextKey >= 1
    ensures DistinctKeys(stored.list.entries) ==> Consistent(Built(stored))
  {
    ScanEntriesSound(stored.list.entries);
    if DistinctKeys(stored.list.entries) {
      ScanEntriesAgrees(stored.list.entries);
    }
  }

  /** `lookup_value`: the entry whose key is given, or KeyError. */
  function ValueOf<V(==)>(ix: Index<V>, key: int): (r: Result<Entry<V>>)
    ensures WellIndexed(ix) ==> (r.Ok? <==> key in ix.keyIndex)
    ensures WellIndexed(ix) && r.Ok? ==> r.value.key == key
    ensures r.Ok? ==> r.value in ix.list.entries
    ensures r.Err? ==> r.error == KeyError
  {
    if key in ix.keyIndex && ix.keyIndex[key] < |ix.list.entries| then Ok(ix.list.entries[ix.keyIndex[key]])
    else Err(KeyError)
  }

  /** `lookup_key`: a value already indexed returns its key and bumps the reference count of its
      entry; a new value takes `next_key`, advances `next_key` and `nextListID`, and is appended
      with a reference count of 1. */
  function KeyOf<V(==)>(ix: Index<V>, value: V): (r: (Index<V>, int))
    requires WellIndexed(ix)
    ensures r.0.id == ix.id
    ensures value in ix.byValue ==> r.1 == ix.byValue[value] && r.0.nextKey == ix.nextKey
    ensures value !in ix.byValue ==> r.1 == ix.nextKey && r.0.nextKey == ix.nextKey + 1
    ensures value in r.0.byValue && r.0.byValue[value] == r.1
  {
    if value !in ix.byValue then
      var key := ix.nextKey;
      var entries := ix.list.entries + [Entry(key, value, 1)];
      (Index(ix.id, DataList(entries, ix.list.nextListID + 1), ix.byValue[value := key], ix.keyIndex[key := |entries| - 1], key + 1), key)
    else
      var key := ix.byValue[value];
      var i := ix.keyIndex[key];
      var e := ix.list.entries[i];
      (ix.(list := ix.list.(entries := ix.list.entries[i := e.(refcount := e.refcount + 1)])), key)
  }

  /** Handing out a key keeps the table consistent. */
  lemma KeyOfKeepsIndex<V>(ix: Index<V>, value: V)
    requires WellIndexed(ix)
    ensures WellIndexed(KeyOf(ix, value).0)
    ensures Consistent(ix) ==> Consistent(KeyOf(ix, value).0)
  {
  }

  /** The key handed out for a value looks up an entry holding that value, with the key. A
      value seen before has its entry's count raised by one and nothing else changes; a new
      value gets a new entry at the end with a count of 1, a key no entry had, and a list ID one
      higher. */
  lemma KeyOfRoundTrip<V>(ix: Index<V>, value: V)
    requires Consistent(ix)
    ensures var (after, key) := KeyOf(ix, value);
            && ValueOf(after, key).Ok?
            && ValueOf(after, key).value.value == value
            && ValueOf(after, key).value.key == key
            && (value in ix.byValue ==>
                  && ValueOf(after, key).value.refcount == ValueOf(ix, key).value.refcount + 1
                  && |after.list.entries| == |ix.list.entries|
                  && after.list.nextListID == ix.list.nextListID
                  && after.keyIndex == ix.keyIndex && after.byValue == ix.byValue)
            && (value !in ix.byValue ==>
                  && key !in ix.keyIndex
                  && after.list.entries == ix.list.entries + [Entry(key, value, 1)]
                  && after.list.nextListID == ix.list.nextListID + 1)
  {
    KeyOfKeepsIndex(ix, value);
  }

  /** Handing out a key leaves the entries of every other key as they were. */
  lemma KeyOfLeavesOthers<V>(ix: Index<V>, value: V, other: int)
    requires WellIndexed(ix)
    requires other != KeyOf(ix, value).1
    ensures ValueOf(KeyOf(ix, value).0, other) == ValueOf(ix, other)
  {
  }

  /** `init`: the list is emptied and both counters restart at 1. */
  function Cleared<V(==)>(ix: Index<V>): (r: Index<V>)
    ensures WellIndexed(r) && Consistent(r)
    ensures r.id == ix.id && r.list.entries == [] && r.nextKey == 1 && r.list.nextListID == 1
    ensures r.byValue == map[] && r.keyIndex == map[]
  {
    Index(ix.id, DataList([], 1), map[], map[], 1)
  }

  /** After `init` the first value looked up starts the list again with key 1. */
  lemma ClearedRestarts<V>(ix: Index<V>, value: V)
    ensures KeyOf(Cleared(ix), value) == (Index(ix.id, DataList([Entry(1, value, 1)], 2), map[value := 1], map[1 := 0], 2), 1)
  {
    var c := Cleared(ix);
    assert value !in c.byValue;
    assert c.list.entries + [Entry(1, value, 1)] == [Entry(1, value, 1)];
  }

  /** Every cached table is consistent. */
  ghost predicate AllWellIndexed<V>(tables: map<int, Index<V>>)
  {
    forall t :: t in tables ==> WellIndexed(tables[t])
  }

  lemma UpdateWellIndexed<V>(tables: map<int, Index<V>>, t: int, ix: Index<V>)
    requires AllWellIndexed(tables) && WellIndexed(ix)
    ensures AllWellIndexed(tables[t := ix])
  {
  }

  lemma UpdateTwice<K, T>(m: map<K, T>, k: K, a: T, b: T)
    ensures m[k := a][k := b] == m[k := b]
  {
  }

  /** One `DataLists`: the object store's lists by table, and the state cached for each table
      already seen. */
  class DataLists<V(==)> {
    const store: map<int, Stored<V>>
    var tables: map<int, Index<V>>

    ghost predicate Valid()
      reads this
    {
      AllWellIndexed(tables)
    }

    constructor (store: map<int, Stored<V>>)
      ensures this.store == store && tables == map[] && Valid()
    {
      this.store := store;
      tables := map[];
    }

    /** `add_table`, cached per table: the first call indexes the table's list; a table the
        store does not know raises KeyError. */
    method AddTable(table: int) returns (r: Result<()>)
      requires Valid()
      modifies this
      ensures Valid()
      ensures r.Ok? <==> table in tables
      ensures r.Err? ==> r.error == KeyError && table !in store
      ensures table in old(tables) ==> tables == old(tables)
      ensures table !in old(tables) ==>
                tables == if table in store then old(tables)[table := Built(store[table])] else old(tables)
    {
      if table in tables {
        return Ok(());
      }
      if table !in store {
        return Err(KeyError);
      }
      var stored := store[table];
      var s := IndexEntries(stored.list.entries);
      BuiltWellIndexed(stored);
      UpdateWellIndexed(tables, table, Built(stored));
      tables := tables[table := Index(stored.id, stored.list, s.byValue, s.keyIndex, s.maxKey + 1)];
      r := Ok(());
    }

    /** `id`: the identifier of the table's data list. */
    method Id(table: int) returns (r: Result<int>)
      requires Valid()
      modifies this
      ensures Valid()
      ensures r.Ok? <==> table in old(tables) || table in store
      ensures r.Ok? ==> table in tables && r.value == tables[table].id
      ensures r.Ok? && table !in old(tables) ==> r.value == store[table].id
      ensures tables == if table in old(tables) || table !in store then old(tables)
                        else old(tables)[table := Built(store[table])]
    {
      var added := AddTable(table);
      if added.Err? {
        return Err(added.error);
      }
      r := Ok(tables[table].id);
    }

    /** `lookup_value` */
    method LookupValue(table: int, key: int) returns (r: Result<Entry<V>>)
      requires Valid()
      modifies this
      ensures Valid()
      ensures tables == if table in old(tables) || table !in store then old(tables)
                        else old(tables)[table := Built(store[table])]
      ensures table !in tables ==> r == Err(KeyError)
      ensures table in tables ==> r == ValueOf(tables[table], key)
    {
      var added := AddTable(table);
      if added.Err? {
        return Err(added.error);
      }
      r := ValueOf(tables[table], key);
    }

    /** `init` */
    method Init(table: int) returns (r: Result<()>)
      requires Valid()
      modifies this
      ensures Valid()
      ensures r.Ok? <==> table in old(tables) || table in store
      ensures r.Err? ==> tables == old(tables)
      ensures r.Ok? ==> tables == old(tables)[table := Cleared(if table in old(tables) then old(tables)[table] else Built(store[table]))]
    {
      var added := AddTable(table);
      if added.Err? {
        return Err(added.error);
      }
      var c := Cleared(tables[table]);
      UpdateWellIndexed(tables, table, c);
      if table !in old(tables) {
        UpdateTwice(old(tables), table, Built(store[table]), c);
      }
      tables := tables[table := c];
      r := Ok(());
    }

    /** `lookup_key` */
    method LookupKey(table: int, value: V) returns (r: Result<int>)
      requires Valid()
      modifies this
      ensures Valid()
      ensures r.Ok? <==> table in old(tables) || table in store
      ensures r.Err? ==> r.error == KeyError && tables == old(tables)
      ensures r.Ok? ==>
                var before := if table in old(tables) then old(tables)[table] else Built(store[table]);
                WellIndexed(before) &&
                tables == old(tables)[table := KeyOf(before, value).0] && r.value == KeyOf(before, value).1
    {
      var added := AddTable(table);
      if added.Err? {
        return Err(added.error);
      }
      var ix := tables[table];
      KeyOfKeepsIndex(ix, value);
      var (after, key) := KeyOf(ix, value);
      UpdateWellIndexed(tables, table, after);
      if table !in old(tables) {
        UpdateTwice(old(tables), table, Built(store[table]), after);
      }
      tables := tables[table := after];
      r := Ok(key);
    }
  }
}
