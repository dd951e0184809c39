/**
 * The browser's localStorage as the collector and the report use it: one key,
 * 'deviceCollectionData', holding the JSON text of an array of records. The model keeps the
 * parsed array; what a JSON round trip does to a record is stated by JsonRoundTrip.
 */
module Storage {
  import opened Wrappers
  import opened JsStrings
  import opened Records

  /** The key both pages use. */
  const DataKey: JsString := Units("deviceCollectionData")

  /**
   * What `JSON.parse(JSON.stringify(r))` gives back for a record: properties whose value is
   * undefined are dropped, strings and null come back as they were.
   */
  function JsonRoundTrip(r: Record): (q: Record)
    ensures q.Keys <= r.Keys
    ensures forall k :: k in q ==> q[k] != Undefined
    ensures forall k :: Get(q, k) == Get(r, k)
  {
    map k | k in r && r[k] != Undefined :: r[k]
  }

  /** The JSON round trip of a whole array. */
  function JsonList(rs: seq<Record>): seq<Record>
  {
    seq(|rs|, i requires 0 <= i < |rs| => JsonRoundTrip(rs[i]))
  }

  /** A record JSON keeps as it is: no property holds undefined. */
  predicate JsonClean(r: Record)
  {
    forall k :: k in r ==> r[k] != Undefined
  }

  /** A round trip leaves a record unchanged exactly when it is clean, and a second round trip changes nothing. */
  lemma JsonRoundTripFixes(r: Record)
    ensures JsonRoundTrip(r) == r <==> JsonClean(r)
    ensures JsonRoundTrip(JsonRoundTrip(r)) == JsonRoundTrip(r)
  {
    if !JsonClean(r) {
      var k :| k in r && r[k] == Undefined;
      assert k !in JsonRoundTrip(r);
    }
  }

  /** Two records every property access reads alike. */
  predicate SameFields(a: Record, b: Record)
  {
    forall k :: Get(a, k) == Get(b, k)
  }

  /** Store contents: the parsed array held under each key. */
  type Items = map<JsString, seq<Record>>

  /**
   * `JSON.parse(localStorage.getItem('deviceCollectionData') || '[]')`: the stored array, or
   * the empty one when nothing is stored yet.
   */
  function StoredRecords(items: Items): (rs: seq<Record>)
    ensures DataKey !in items ==> rs == []
  {
    if DataKey in items then items[DataKey] else []
  }

  /** The store after saveToLocalStorage(d): the stored array with d pushed, stringified back. */
  function Saved(items: Items, d: Record): Items
  {
    items[DataKey := JsonList(StoredRecords(items) + [d])]
  }

  /**
   * Saving appends: the array grows by one, the records already there read as before, the
   * new last record reads as d, and no other key is touched.
   */
  lemma SavedAppends(items: Items, d: Record)
    ensures |StoredRecords(Saved(items, d))| == |StoredRecords(items)| + 1
    ensures forall i :: 0 <= i < |StoredRecords(items)| ==>
              SameFields(StoredRecords(Saved(items, d))[i], StoredRecords(items)[i])
    ensures SameFields(StoredRecords(Saved(items, d))[|StoredRecords(items)|], d)
    ensures forall key :: key != DataKey ==> (key in Saved(items, d) <==> key in items)
    ensures forall key :: key != DataKey && key in items ==> Saved(items, d)[key] == items[key]
  {
    var old_ := StoredRecords(items);
    var new_ := StoredRecords(Saved(items, d));
    assert new_ == JsonList(old_ + [d]);
    assert forall i :: 0 <= i < |old_| ==> (old_ + [d])[i] == old_[i];
    assert (old_ + [d])[|old_|] == d;
  }

  /** When the stored records and d survive JSON unchanged, the stored array after the save is exactly the old one with d appended. */
  lemma SavedIsAppend(items: Items, d: Record)
    requires JsonClean(d)
    requires forall i :: 0 <= i < |StoredRecords(items)| ==> JsonClean(StoredRecords(items)[i])
    ensures StoredRecords(Saved(items, d)) == StoredRecords(items) + [d]
  {
    var rs := StoredRecords(items) + [d];
    forall i | 0 <= i < |rs|
      ensures JsonRoundTrip(rs[i]) == rs[i]
    {
      JsonRoundTripFixes(rs[i]);
    }
  }

  /** The store after saving each of ds in turn, the last one saved last. */
  function SavedAll(items: Items, ds: seq<Record>): Items
  {
    if ds == [] then items else Saved(SavedAll(items, ds[..|ds| - 1]), ds[|ds| - 1])
  }

  /** Saving several records lengthens the array by their number and leaves the records already stored readable as before. */
  lemma {:induction false} SavedAllKeeps(items: Items, ds: seq<Record>)
    ensures |StoredRecords(SavedAll(items, ds))| == |StoredRecords(items)| + |ds|
    ensures forall i :: 0 <= i < |StoredRecords(items)| ==>
              SameFields(StoredRecords(SavedAll(items, ds))[i], StoredRecords(items)[i])
  {
    if ds != [] {
      var init := ds[..|ds| - 1];
      SavedAllKeeps(items, init);
      SavedAppends(SavedAll(items, init), ds[|ds| - 1]);
    }
  }

  /**
   * Saving several records appends them in submission order: the record at position
   * |before| + i reads as ds[i].
   */
  lemma {:induction false} SavedAllAppends(items: Items, ds: seq<Record>)
    ensures |StoredRecords(SavedAll(items, ds))| == |StoredRecords(items)| + |ds|
    ensures forall i :: 0 <= i < |ds| ==>
              SameFields(StoredRecords(SavedAll(items, ds))[|StoredRecords(items)| + i], ds[i])
  {
    SavedAllKeeps(items, ds);
    if ds != [] {
      var init := ds[..|ds| - 1];
      var mid := SavedAll(items, init);
      SavedAllAppends(items, init);
      SavedAppends(mid, ds[|ds| - 1]);
      assert forall i :: 0 <= i < |init| ==> init[i] == ds[i];
    }
  }

  /** The browser's localStorage, reduced to the values the two pages keep in it. */
  class LocalStorage {
    var items: Items

    constructor(initial: Items)
      ensures items == initial
    {
      items := initial;
    }

    /** `localStorage.getItem(key)`, parsed: None where the source gets null. */
    function GetItem(key: JsString): Option<seq<Record>>
      reads this
    {
      if key in items then Some(items[key]) else None
    }

    /** `localStorage.setItem(key, JSON.stringify(value))`, kept parsed. */
    method SetItem(key: JsString, value: seq<Record>)
      modifies this
      ensures items == old(items)[key := JsonList(value)]
    {
      items := items[key := JsonList(value)];
    }
  }
}
