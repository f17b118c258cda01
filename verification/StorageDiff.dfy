/** Storage entries, the difference between two listings of them, and what folding it does. */
module StorageDiff {
  import opened Basics
  import opened PinnedChain

  type Key = string
  type Value = string

  /** What the codecs of a runtime make of an entry; its content does not matter here. */
  datatype Decoded = Decoded(runtime: nat, key: Key, value: Value)

  datatype Entry = Entry(key: Key, value: Value, dec: Option<Decoded>)

  datatype Deltas = Deltas(upserted: seq<Entry>, deleted: seq<Entry>)

  ghost predicate UniqueKeys(entries: seq<Entry>) {
    forall i, j :: 0 <= i < j < |entries| ==> entries[i].key != entries[j].key
  }

  ghost predicate HasKey(entries: seq<Entry>, key: Key) {
    exists i :: 0 <= i < |entries| && entries[i].key == key
  }

  /** The listing has exactly the entries of the storage map, each once. */
  ghost predicate Lists(entries: seq<Entry>, storage: map<Key, Value>) {
    && UniqueKeys(entries)
    && (forall i :: 0 <= i < |entries| ==> entries[i].key in storage && storage[entries[i].key] == entries[i].value)
    && (forall key :: key in storage ==> HasKey(entries, key))
  }

  /** The entry was decoded, and by its own key and value. */
  predicate IsDecoded(e: Entry) {
    e.dec.Some? && e.dec.value.key == e.key && e.dec.value.value == e.value
  }

  ghost predicate AllDecoded(entries: seq<Entry>) {
    forall i :: 0 <= i < |entries| ==> IsDecoded(entries[i])
  }

  function Patch(runtime: nat, e: Entry): (r: Entry)
    ensures IsDecoded(r) && r.key == e.key && r.value == e.value && r.dec.value.runtime == runtime
  {
    e.(dec := Some(Decoded(runtime, e.key, e.value)))
  }

  // ------------------------------------------------------------------- folding

  function Put(storage: map<Key, Value>, entries: seq<Entry>): map<Key, Value> {
    if entries == [] then storage
    else Put(storage, entries[..|entries| - 1])[entries[|entries| - 1].key := entries[|entries| - 1].value]
  }

  function Drop(storage: map<Key, Value>, entries: seq<Entry>): map<Key, Value> {
    if entries == [] then storage
    else Drop(storage, entries[..|entries| - 1]) - {entries[|entries| - 1].key}
  }

  /** What a consumer does with one emission; no deltas mean that nothing changed. */
  function Apply(storage: map<Key, Value>, deltas: Option<Deltas>): map<Key, Value> {
    match deltas
    case None => storage
    case Some(d) => Put(Drop(storage, d.deleted), d.upserted)
  }

  lemma {:induction false} PutOutside(storage: map<Key, Value>, entries: seq<Entry>, key: Key)
    requires !HasKey(entries, key)
    ensures key in Put(storage, entries) <==> key in storage
    ensures key in storage ==> Put(storage, entries)[key] == storage[key]
  {
    var n := |entries| - 1;
    if n >= 0 {
      assert HasKey(entries[..n], key) ==> HasKey(entries, key);
      PutOutside(storage, entries[..n], key);
      assert entries[n].key != key;
    }
  }

  lemma {:induction false} PutInside(storage: map<Key, Value>, entries: seq<Entry>, i: nat)
    requires i < |entries| && UniqueKeys(entries)
    ensures entries[i].key in Put(storage, entries) && Put(storage, entries)[entries[i].key] == entries[i].value
  {
    var n := |entries| - 1;
    if i < n {
      assert entries[..n][i] == entries[i];
      PutInside(storage, entries[..n], i);
    }
  }

  lemma {:induction false} DropAt(storage: map<Key, Value>, entries: seq<Entry>, key: Key)
    ensures key in Drop(storage, entries) <==> key in storage && !HasKey(entries, key)
    ensures key in Drop(storage, entries) ==> Drop(storage, entries)[key] == storage[key]
  {
    var n := |entries| - 1;
    if n >= 0 {
      DropAt(storage, entries[..n], key);
      if HasKey(entries, key) && entries[n].key != key {
        var i :| 0 <= i < |entries| && entries[i].key == key;
        assert entries[..n][i].key == key;
      }
      assert HasKey(entries[..n], key) ==> HasKey(entries, key);
      assert entries[n].key == key ==> HasKey(entries, key);
    }
  }

  /** A listing, taken as the first deltas of a subscriber, gives the whole storage. */
  lemma PutAll(entries: seq<Entry>, storage: map<Key, Value>)
    requires Lists(entries, storage)
    ensures Apply(map[], Some(Deltas(entries, []))) == storage
  {
    var r := Put(map[], entries);
    forall key ensures key in r <==> key in storage
      ensures key in r ==> r[key] == storage[key]
    {
      if HasKey(entries, key) {
        var i :| 0 <= i < |entries| && entries[i].key == key;
        PutInside(map[], entries, i);
      } else {
        PutOutside(map[], entries, key);
      }
    }
  }

  // ---------------------------------------------------------------- differences

  /** The previous listing has this very key and value. */
  ghost predicate Kept(prev: seq<Entry>, e: Entry) {
    exists i :: 0 <= i < |prev| && prev[i].key == e.key && prev[i].value == e.value
  }

  /** The new or changed entries of `current`, decoded, in order. */
  ghost function Changed(prev: seq<Entry>, current: seq<Entry>, runtime: nat): seq<Entry> {
    if current == [] then []
    else
      var last := current[|current| - 1];
      Changed(prev, current[..|current| - 1], runtime) + (if Kept(prev, last) then [] else [Patch(runtime, last)])
  }

  /** The entries of `prev` whose keys are gone, in order. */
  ghost function Missing(prev: seq<Entry>, current: seq<Entry>): seq<Entry> {
    if prev == [] then []
    else
      var last := prev[|prev| - 1];
      Missing(prev[..|prev| - 1], current) + (if HasKey(current, last.key) then [] else [last])
  }

  lemma {:induction false} ChangedHas(prev: seq<Entry>, current: seq<Entry>, runtime: nat, e: Entry)
    ensures e in Changed(prev, current, runtime)
            <==> exists i :: 0 <= i < |current| && e == Patch(runtime, current[i]) && !Kept(prev, current[i])
  {
    var n := |current| - 1;
    if n >= 0 {
      ChangedHas(prev, current[..n], runtime, e);
      if i :| 0 <= i < |current| && e == Patch(runtime, current[i]) && !Kept(prev, current[i]) {
        assert i < n ==> current[..n][i] == current[i];
      }
      if i :| 0 <= i < n && e == Patch(runtime, current[..n][i]) && !Kept(prev, current[..n][i]) {
        assert current[i] == current[..n][i];
      }
      assert e in Changed(prev, current, runtime)
        <==> e in Changed(prev, current[..n], runtime) || (e == Patch(runtime, current[n]) && !Kept(prev, current[n]));
    }
  }

  lemma {:induction false} ChangedUnique(prev: seq<Entry>, current: seq<Entry>, runtime: nat)
    requires UniqueKeys(current)
    ensures UniqueKeys(Changed(prev, current, runtime))
  {
    var n := |current| - 1;
    if n >= 0 {
      ChangedUnique(prev, current[..n], runtime);
      var before := Changed(prev, current[..n], runtime);
      forall j | 0 <= j < |before| ensures before[j].key != current[n].key {
        ChangedHas(prev, current[..n], runtime, before[j]);
      }
    }
  }

  lemma {:induction false} MissingHas(prev: seq<Entry>, current: seq<Entry>, e: Entry)
    ensures e in Missing(prev, current) <==> e in prev && !HasKey(current, e.key)
  {
    if prev != [] {
      var n := |prev| - 1;
      MissingHas(prev[..n], current, e);
      assert prev == prev[..n] + [prev[n]];
    }
  }

  lemma ChangedKey(prev: seq<Entry>, current: seq<Entry>, runtime: nat, i: nat)
    requires i < |current| && UniqueKeys(current)
    ensures HasKey(Changed(prev, current, runtime), current[i].key) <==> !Kept(prev, current[i])
    ensures var changed := Changed(prev, current, runtime);
            forall j :: 0 <= j < |changed| && changed[j].key == current[i].key ==> changed[j].value == current[i].value
  {
    var changed := Changed(prev, current, runtime);
    if !Kept(prev, current[i]) {
      ChangedHas(prev, current, runtime, Patch(runtime, current[i]));
      var j :| 0 <= j < |changed| && changed[j] == Patch(runtime, current[i]);
      assert changed[j].key == current[i].key;
    }
    forall j | 0 <= j < |changed| && changed[j].key == current[i].key
      ensures changed[j].value == current[i].value && !Kept(prev, current[i])
    {
      ChangedHas(prev, current, runtime, changed[j]);
      var k :| 0 <= k < |current| && changed[j] == Patch(runtime, current[k]) && !Kept(prev, current[k]);
      assert k == i;
    }
  }

  lemma MissingKey(prev: seq<Entry>, current: seq<Entry>, key: Key)
    ensures HasKey(Missing(prev, current), key) <==> HasKey(prev, key) && !HasKey(current, key)
  {
    var missing := Missing(prev, current);
    if HasKey(missing, key) {
      var i :| 0 <= i < |missing| && missing[i].key == key;
      MissingHas(prev, current, missing[i]);
      var j :| 0 <= j < |prev| && prev[j] == missing[i];
      assert prev[j].key == key;
    }
    if HasKey(prev, key) && !HasKey(current, key) {
      var i :| 0 <= i < |prev| && prev[i].key == key;
      MissingHas(prev, current, prev[i]);
      var j :| 0 <= j < |missing| && missing[j] == prev[i];
      assert missing[j].key == key;
    }
  }

  /** Folding the difference of two listings takes one storage to the other. */
  lemma DiffApplies(prev: seq<Entry>, current: seq<Entry>, before: map<Key, Value>, after: map<Key, Value>,
                    runtime: nat)
    requires Lists(prev, before) && Lists(current, after)
    ensures Apply(before, Some(Deltas(Changed(prev, current, runtime), Missing(prev, current)))) == after
  {
    var changed, missing := Changed(prev, current, runtime), Missing(prev, current);
    var r := Put(Drop(before, missing), changed);
    forall key ensures key in r <==> key in after
      ensures key in r ==> r[key] == after[key]
    {
      DiffAt(prev, current, before, after, runtime, key);
    }
  }

  lemma DiffAt(prev: seq<Entry>, current: seq<Entry>, before: map<Key, Value>, after: map<Key, Value>, runtime: nat,
               key: Key)
    requires Lists(prev, before) && Lists(current, after)
    ensures var r := Put(Drop(before, Missing(prev, current)), Changed(prev, current, runtime));
            (key in r <==> key in after) && (key in r ==> r[key] == after[key])
  {
    var changed, missing := Changed(prev, current, runtime), Missing(prev, current);
    hide Changed, Missing;
    DropAt(before, missing, key);
    MissingKey(prev, current, key);
    if HasKey(current, key) {
      var i :| 0 <= i < |current| && current[i].key == key;
      ChangedKey(prev, current, runtime, i);
      ChangedUnique(prev, current, runtime);
      PutChanged(Drop(before, missing), changed, current[i]);
      if Kept(prev, current[i]) {
        var j :| 0 <= j < |prev| && prev[j].key == key && prev[j].value == current[i].value;
      }
    } else {
      ChangedOnly(prev, current, runtime, key);
      PutOutside(Drop(before, missing), changed, key);
      assert key in before ==> HasKey(prev, key);
    }
  }

  lemma ChangedOnly(prev: seq<Entry>, current: seq<Entry>, runtime: nat, key: Key)
    requires !HasKey(current, key)
    ensures !HasKey(Changed(prev, current, runtime), key)
  {
    var changed := Changed(prev, current, runtime);
    if HasKey(changed, key) {
      var j :| 0 <= j < |changed| && changed[j].key == key;
      ChangedHas(prev, current, runtime, changed[j]);
    }
  }

  lemma PutChanged(storage: map<Key, Value>, changed: seq<Entry>, e: Entry)
    requires UniqueKeys(changed)
    requires forall j :: 0 <= j < |changed| && changed[j].key == e.key ==> changed[j].value == e.value
    ensures HasKey(changed, e.key) ==> e.key in Put(storage, changed) && Put(storage, changed)[e.key] == e.value
    ensures !HasKey(changed, e.key) ==> (e.key in Put(storage, changed) <==> e.key in storage)
    ensures !HasKey(changed, e.key) && e.key in storage ==> Put(storage, changed)[e.key] == storage[e.key]
  {
    if HasKey(changed, e.key) {
      var j :| 0 <= j < |changed| && changed[j].key == e.key;
      PutInside(storage, changed, j);
    } else {
      PutOutside(storage, changed, e.key);
    }
  }

  /** The same entries, up to how they are decoded. */
  ghost predicate SameListing(xs: seq<Entry>, ys: seq<Entry>) {
    |xs| == |ys| && forall i :: 0 <= i < |xs| ==> xs[i].key == ys[i].key && xs[i].value == ys[i].value
  }

  lemma SameLists(xs: seq<Entry>, ys: seq<Entry>, storage: map<Key, Value>)
    requires Lists(xs, storage) && SameListing(xs, ys)
    ensures Lists(ys, storage)
  {
    forall key | key in storage ensures HasKey(ys, key) {
      assert HasKey(xs, key);
      var i :| 0 <= i < |xs| && xs[i].key == key;
      assert ys[i].key == key;
    }
  }

  /** The last entry of every key. */
  function ByKey(entries: seq<Entry>): map<Key, Entry> {
    if entries == [] then map[]
    else ByKey(entries[..|entries| - 1])[entries[|entries| - 1].key := entries[|entries| - 1]]
  }

  lemma {:induction false} ByKeyAt(entries: seq<Entry>, key: Key)
    requires UniqueKeys(entries)
    ensures key in ByKey(entries) <==> HasKey(entries, key)
    ensures forall i :: 0 <= i < |entries| && entries[i].key == key ==> ByKey(entries)[key] == entries[i]
    ensures key in ByKey(entries) ==> ByKey(entries)[key] in entries && ByKey(entries)[key].key == key
  {
    var n := |entries| - 1;
    if n >= 0 {
      ByKeyAt(entries[..n], key);
      assert HasKey(entries[..n], key) ==> HasKey(entries, key);
      if i :| 0 <= i < |entries| && entries[i].key == key {
        assert i < n ==> entries[..n][i] == entries[i];
      }
      assert entries[n].key == key ==> HasKey(entries, key);
    }
  }

  lemma KeptByKey(prev: seq<Entry>, e: Entry)
    requires UniqueKeys(prev)
    ensures Kept(prev, e) <==> e.key in ByKey(prev) && ByKey(prev)[e.key].value == e.value
  {
    ByKeyAt(prev, e.key);
    if e.key in ByKey(prev) {
      var i :| 0 <= i < |prev| && prev[i] == ByKey(prev)[e.key];
      assert prev[i].key == e.key;
    }
  }

  /** The new and changed entries, decoded, both by key and in order. */
  method Upserts(prevEntries: seq<Entry>, currentEntries: seq<Entry>, runtime: nat)
    returns (upserted: map<Key, Entry>, values: seq<Entry>)
    requires UniqueKeys(prevEntries) && UniqueKeys(currentEntries)
    ensures values == Changed(prevEntries, currentEntries, runtime)
    ensures forall j :: 0 <= j < |currentEntries| ==>
              var e := currentEntries[j];
              if Kept(prevEntries, e) then e.key !in upserted
              else e.key in upserted && upserted[e.key] == Patch(runtime, e)
  {
    hide Kept, HasKey, ByKey;
    var prev := ByKey(prevEntries);
    upserted, values := map[], [];
    for i := 0 to |currentEntries|
      invariant values == Changed(prevEntries, currentEntries[..i], runtime)
      invariant forall key :: key in upserted ==> exists j :: 0 <= j < i && currentEntries[j].key == key
      invariant forall j :: 0 <= j < i ==>
                  var e := currentEntries[j];
                  if Kept(prevEntries, e) then e.key !in upserted
                  else e.key in upserted && upserted[e.key] == Patch(runtime, e)
    {
      var value := currentEntries[i];
      KeptByKey(prevEntries, value);
      assert currentEntries[..i + 1][..i] == currentEntries[..i];
      if value.key !in prev || prev[value.key].value != value.value {
        upserted := upserted[value.key := Patch(runtime, value)];
        values := values + [Patch(runtime, value)];
      }
    }
    assert currentEntries[..|currentEntries|] == currentEntries;
  }

  /**
   * Compares two listings. Entries that are kept keep their decoded form; only the others are
   * decoded anew.
   */
  method GetDiff(prevEntries: seq<Entry>, currentEntries: seq<Entry>, runtime: nat)
    returns (entries: seq<Entry>, deltas: Deltas)
    requires UniqueKeys(prevEntries) && UniqueKeys(currentEntries)
    ensures deltas.upserted == Changed(prevEntries, currentEntries, runtime)
    ensures deltas.deleted == Missing(prevEntries, currentEntries)
    ensures SameListing(currentEntries, entries)
    ensures forall i :: 0 <= i < |entries| ==> if Kept(prevEntries, currentEntries[i])
                                               then entries[i] in prevEntries
                                               else entries[i] == Patch(runtime, currentEntries[i])
  {
    hide Kept, HasKey, ByKey, Changed, UniqueKeys;
    var current, prev := ByKey(currentEntries), ByKey(prevEntries);
    var upserted, upsertedValues := Upserts(prevEntries, currentEntries, runtime);

    var deleted := [];
    for i := 0 to |prevEntries|
      invariant deleted == Missing(prevEntries[..i], currentEntries)
    {
      ByKeyAt(currentEntries, prevEntries[i].key);
      assert prevEntries[..i + 1][..i] == prevEntries[..i];
      if prevEntries[i].key !in current {
        deleted := deleted + [prevEntries[i]];
      }
    }
    assert prevEntries[..|prevEntries|] == prevEntries;

    entries := [];
    for i := 0 to |currentEntries|
      invariant |entries| == i
      invariant forall j :: 0 <= j < i ==>
                entries[j].key == currentEntries[j].key && entries[j].value == currentEntries[j].value
      invariant forall j :: 0 <= j < i ==> if Kept(prevEntries, currentEntries[j]) then entries[j] in prevEntries
                                           else entries[j] == Patch(runtime, currentEntries[j])
    {
      var key := currentEntries[i].key;
      KeptByKey(prevEntries, currentEntries[i]);
      ByKeyAt(prevEntries, key);
      entries := entries + [if key in upserted then upserted[key] else prev[key]];
    }
    deltas := Deltas(upsertedValues, deleted);
  }
}
