/**
 * The report page: ReportViewer loads the stored records and computes the summary figures.
 */
module Report {
  import opened JsStrings
  import opened Records
  import opened Storage
  import opened Stats

  class ReportViewer {
    /** The records shown. */
    var data: seq<Record>
    const storage: LocalStorage

    /** `new ReportViewer()`: data starts empty, then init loads it. */
    constructor(storage: LocalStorage)
      ensures this.storage == storage
      ensures data == StoredRecords(storage.items)
    {
      this.storage := storage;
      data := [];
      new;
      LoadData();
    }

    /** loadData: the stored array, or the empty one when nothing is stored. */
    method LoadData()
      modifies this
      ensures data == StoredRecords(storage.items)
      ensures DataKey !in storage.items ==> data == []
    {
      var storedData := storage.GetItem(DataKey);
      data := if storedData.Some? then storedData.value else [];
    }

    /**
     * renderStats: the record count, the number of distinct department values and the number
     * of distinct device types (by property name, '__proto__' aside).
     */
    method RenderStats() returns (total: nat, departments: nat, deviceTypes: nat)
      ensures total == |data|
      ensures departments == |set i | 0 <= i < |data| :: Get(data[i], department)|
      ensures deviceTypes == |(set i | 0 <= i < |data| :: TypeKey(data[i])) - {ProtoKey}|
      ensures departments <= total && deviceTypes <= total
      ensures total > 0 ==> departments >= 1
      ensures total == 0 ==> departments == 0 && deviceTypes == 0
    {
      total := |data|;
      departments := UniqueDepartmentCount(data);
      deviceTypes := DeviceTypeCount(data);
      UniqueDepartmentBounds(data);
      DeviceTypeCountBound(data);
      UniqueDepartmentsAreDistinctValues(data);
      DeviceTypesAreDistinctKeys(data);
    }
  }

  /**
   * A submission followed by opening the report: the report shows the records stored before,
   * then the new one, each reading as it was saved.
   */
  method SaveThenLoad(items: Items, d: Record) returns (viewer: ReportViewer)
    ensures |viewer.data| == |StoredRecords(items)| + 1
    ensures forall k :: Get(viewer.data[|StoredRecords(items)|], k) == Get(d, k)
    ensures forall i, k :: 0 <= i < |StoredRecords(items)| ==> Get(viewer.data[i], k) == Get(StoredRecords(items)[i], k)
  {
    var storage := new LocalStorage(Saved(items, d));
    viewer := new ReportViewer(storage);
    SavedAppends(items, d);
  }
}
