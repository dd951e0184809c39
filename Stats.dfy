/**
 * The three figures renderStats shows: the number of records, the number of distinct
 * department values, and the number of keys of the device-type tally.
 */
module Stats {
  import opened JsStrings
  import opened Records

  // ---------------------------------------------------------------- distinct values

  /** `new Set(vs)`: strings, null and undefined are kept once each, by value. */
  function Elements<T>(vs: seq<T>): set<T>
  {
    if vs == [] then {} else Elements(vs[..|vs| - 1]) + {vs[|vs| - 1]}
  }

  /** The Set holds exactly the values of the sequence. */
  lemma {:induction false} ElementsMembers<T(!new)>(vs: seq<T>)
    ensures forall v :: v in Elements(vs) <==> v in vs
  {
    if vs != [] {
      var init := vs[..|vs| - 1];
      ElementsMembers(init);
      assert vs == init + [vs[|vs| - 1]];
    }
  }

  predicate Distinct<T(==)>(vs: seq<T>)
  {
    forall i, j :: 0 <= i < j < |vs| ==> vs[i] != vs[j]
  }

  /** A set built from a sequence has at most its length, and exactly that when no value repeats. */
  lemma {:induction false} ElementsSize<T(!new)>(vs: seq<T>)
    ensures |Elements(vs)| <= |vs|
    ensures vs != [] ==> |Elements(vs)| >= 1
    ensures |Elements(vs)| == |vs| <==> Distinct(vs)
  {
    if vs != [] {
      var n := |vs| - 1;
      var init, last := vs[..n], vs[n];
      ElementsSize(init);
      ElementsMembers(init);
      assert Elements(vs) == Elements(init) + {last};
      if last in init {
        assert Elements(vs) == Elements(init);
        var i :| 0 <= i < n && init[i] == last;
        assert vs[i] == init[i] == vs[n];
      } else {
        assert |Elements(vs)| == |Elements(init)| + 1;
        assert vs == init + [last];
        DistinctExtend(init, last);
      }
    }
  }

  /** Appending a value that is not there yet keeps a sequence repetition-free, and only then. */
  lemma DistinctExtend<T>(init: seq<T>, last: T)
    requires last !in init
    ensures Distinct(init + [last]) <==> Distinct(init)
  {
    var vs := init + [last];
    if Distinct(init) {
      forall i, j | 0 <= i < j < |vs|
        ensures vs[i] != vs[j]
      {
        assert vs[i] == init[i];
        if j < |init| {
          assert vs[j] == init[j];
        }
      }
    }
    if Distinct(vs) {
      forall i, j | 0 <= i < j < |init|
        ensures init[i] != init[j]
      {
        assert vs[i] == init[i] && vs[j] == init[j];
      }
    }
  }

  /** `this.data.map(item => item.department)`. */
  function Departments(data: seq<Record>): seq<JsValue>
  {
    seq(|data|, i requires 0 <= i < |data| => Get(data[i], department))
  }

  /** The entries of the mapped array, for the proofs below. */
  lemma DepartmentsAt(data: seq<Record>)
    ensures |Departments(data)| == |data|
    ensures forall i :: 0 <= i < |data| ==> Departments(data)[i] == Get(data[i], department)
  {
  }

  /** `new Set(this.data.map(item => item.department)).size`. */
  function UniqueDepartmentCount(data: seq<Record>): nat
  {
    |Elements(Departments(data))|
  }

  /**
   * The department figure counts the distinct department values: it is at most the number of
   * records, at least one when there is a record, and equal to it exactly when no two records
   * share a department value.
   */
  lemma UniqueDepartmentBounds(data: seq<Record>)
    ensures UniqueDepartmentCount(data) <= |data|
    ensures data != [] ==> UniqueDepartmentCount(data) >= 1
    ensures UniqueDepartmentCount(data) == |data| <==>
              forall i, j :: 0 <= i < j < |data| ==> Get(data[i], department) != Get(data[j], department)
  {
    DepartmentsAt(data);
    ElementsSize(Departments(data));
  }

  /** The department figure is the number of distinct department values among the records. */
  lemma UniqueDepartmentsAreDistinctValues(data: seq<Record>)
    ensures UniqueDepartmentCount(data) == |set i | 0 <= i < |data| :: Get(data[i], department)|
  {
    DepartmentsAt(data);
    ElementsMembers(Departments(data));
    assert Elements(Departments(data)) == set i | 0 <= i < |data| :: Get(data[i], department);
  }

  // ---------------------------------------------------------------- the device-type tally

  /** The one property name whose assignment on a plain object creates no own property. */
  const ProtoKey: JsString := Units("__proto__")

  /** The property name `acc[v]` turns a value into. */
  function PropertyKey(v: JsValue): JsString
  {
    match v
    case Undefined => Units("undefined")
    case Null => Units("null")
    case Str(s) => s
  }

  /** The tally key of a record: `item.deviceType` as a property name. */
  function TypeKey(r: Record): JsString
  {
    PropertyKey(Get(r, deviceType))
  }

  /**
   * One call of the reducer: `acc[key] = (acc[key] || 0) + 1`. For '__proto__' the
   * assignment reaches Object.prototype's setter, which ignores a value that is not an object.
   */
  function Tally(acc: map<JsString, nat>, key: JsString): map<JsString, nat>
  {
    if key == ProtoKey then acc
    else acc[key := (if key in acc then acc[key] else 0) + 1]
  }

  /** `this.data.reduce(reducer, {})`, applied from the first record on. */
  function Histogram(data: seq<Record>): map<JsString, nat>
  {
    if data == [] then map[] else Tally(Histogram(data[..|data| - 1]), TypeKey(data[|data| - 1]))
  }

  /** How many records have the tally key `key`. */
  function Occurrences(data: seq<Record>, key: JsString): nat
  {
    if data == [] then 0
    else Occurrences(data[..|data| - 1], key) + (if TypeKey(data[|data| - 1]) == key then 1 else 0)
  }

  /** `Object.keys(deviceTypes).length`. */
  function DeviceTypeCount(data: seq<Record>): nat
  {
    |Histogram(data).Keys|
  }

  /** The tally key of every record, in order. */
  function TypeKeys(data: seq<Record>): seq<JsString>
  {
    seq(|data|, i requires 0 <= i < |data| => TypeKey(data[i]))
  }

  /** The entries of the key sequence, for the proofs below. */
  lemma TypeKeysAt(data: seq<Record>)
    ensures |TypeKeys(data)| == |data|
    ensures forall i :: 0 <= i < |data| ==> TypeKeys(data)[i] == TypeKey(data[i])
  {
  }

  /** A key occurs exactly when some record has it. */
  lemma {:induction false} OccurrencesPositive(data: seq<Record>, key: JsString)
    ensures Occurrences(data, key) <= |data|
    ensures Occurrences(data, key) > 0 <==> key in TypeKeys(data)
  {
    if data != [] {
      var init := data[..|data| - 1];
      OccurrencesPositive(init, key);
      TypeKeysAt(init);
      TypeKeysAt(data);
      assert forall i :: 0 <= i < |init| ==> TypeKeys(init)[i] == TypeKeys(data)[i];
      if key in TypeKeys(data) && TypeKey(data[|data| - 1]) != key {
        var i :| 0 <= i < |data| && TypeKeys(data)[i] == key;
        assert TypeKeys(init)[i] == key;
      }
    }
  }

  /**
   * The tally holds a key exactly when some record has it and it is not '__proto__', and its
   * count is the number of records that have it.
   */
  lemma {:induction false} HistogramCounts(data: seq<Record>)
    ensures forall key :: key in Histogram(data) <==> key != ProtoKey && Occurrences(data, key) > 0
    ensures forall key :: key in Histogram(data) ==> Histogram(data)[key] == Occurrences(data, key)
  {
    if data != [] {
      HistogramCounts(data[..|data| - 1]);
    }
  }

  /** The keys of the tally are the distinct tally keys of the records, '__proto__' aside. */
  lemma HistogramKeys(data: seq<Record>)
    ensures Histogram(data).Keys == Elements(TypeKeys(data)) - {ProtoKey}
  {
    HistogramCounts(data);
    ElementsMembers(TypeKeys(data));
    forall key
      ensures key in Histogram(data) <==> key in Elements(TypeKeys(data)) - {ProtoKey}
    {
      OccurrencesPositive(data, key);
    }
  }

  /** The device-type figure is the number of distinct tally keys among the records, '__proto__' aside. */
  lemma DeviceTypesAreDistinctKeys(data: seq<Record>)
    ensures DeviceTypeCount(data) == |(set i | 0 <= i < |data| :: TypeKey(data[i])) - {ProtoKey}|
  {
    HistogramKeys(data);
    ElementsMembers(TypeKeys(data));
    TypeKeysAt(data);
    assert Elements(TypeKeys(data)) == set i | 0 <= i < |data| :: TypeKey(data[i]);
  }

  /** The device-type figure is at most the number of records. */
  lemma DeviceTypeCountBound(data: seq<Record>)
    ensures DeviceTypeCount(data) <= |data|
  {
    var ks := Elements(TypeKeys(data));
    HistogramKeys(data);
    ElementsSize(TypeKeys(data));
    assert ks - {ProtoKey} <= ks;
    SubsetSize(ks - {ProtoKey}, ks);
  }

  lemma {:induction false} SubsetSize<T>(a: set<T>, b: set<T>)
    requires a <= b
    ensures |a| <= |b|
    decreases |b|
  {
    if a != b {
      var x :| x in b && x !in a;
      SubsetSize(a, b - {x});
    }
  }

  /** The sum of the counts of a tally. */
  ghost function Total(m: map<JsString, nat>): nat
    decreases |m|
  {
    if m == map[] then 0 else var k :| k in m; m[k] + Total(m - {k})
  }

  /** Total can be taken apart at any key. */
  lemma {:induction false} TotalRemove(m: map<JsString, nat>, k: JsString)
    requires k in m
    ensures Total(m) == m[k] + Total(m - {k})
    decreases |m|
  {
    var j :| j in m && Total(m) == m[j] + Total(m - {j});
    if j != k {
      TotalRemove(m - {j}, k);
      TotalRemove(m - {k}, j);
      assert m - {j} - {k} == m - {k} - {j};
    }
  }

  /** Every record is counted once, except those whose key is '__proto__'. */
  lemma {:induction false} HistogramTotal(data: seq<Record>)
    ensures Total(Histogram(data)) + Occurrences(data, ProtoKey) == |data|
  {
    if data != [] {
      var init := data[..|data| - 1];
      var acc := Histogram(init);
      var key := TypeKey(data[|data| - 1]);
      HistogramTotal(init);
      if key != ProtoKey {
        var m := Tally(acc, key);
        TotalRemove(m, key);
        assert m - {key} == acc - {key};
        if key in acc {
          TotalRemove(acc, key);
        } else {
          assert acc - {key} == acc;
        }
      }
    }
  }

  /** null and the string 'null' are one and the same property name, so they make one device type. */
  lemma NullSharesKeyWithNullString(r1: Record, r2: Record)
    requires Get(r1, deviceType) == Null && Get(r2, deviceType) == Str(Units("null"))
    ensures DeviceTypeCount([r1, r2]) == 1
    ensures Histogram([r1, r2]) == map[Units("null") := 2]
  {
    var key := Units("null");
    assert |key| == 4 && |ProtoKey| == 9;
    assert [r1, r2][..1] == [r1];
    assert [r1][..0] == [];
    assert TypeKey(r1) == key && TypeKey(r2) == key;
    assert Histogram([r1]) == map[key := 1];
  }
}
