/**
 * The collection page: DeviceCollector gathers facts about the browser into collectedData,
 * validates the form and appends one record per submission to localStorage.
 */
module Collector {
  import opened Wrappers
  import opened JsStrings
  import opened DeviceId
  import opened Browser
  import opened Records
  import opened Storage

  /** The address getPublicIP stores: the primary service's, else the fallback's, else 'unknown'. */
  function AddressOf(primary: Option<JsString>, fallback: Option<JsString>): JsString
  {
    match primary
    case Some(ip) => ip
    case None => fallback.GetOr(Units("unknown"))
  }

  /**
   * What the validation loop leaves, read back on the controls: a flag per required control
   * saying whether its value is all whitespace, and validity when no flag is set.
   */
  lemma ValidationOutcome(form: Form, flagged: seq<bool>, isValid: bool)
    requires |flagged| == |RequiredValues(form)|
    requires forall j :: 0 <= j < |flagged| ==> flagged[j] == IsBlank(RequiredValues(form)[j])
    requires isValid <==> forall j :: 0 <= j < |flagged| ==> !flagged[j]
    ensures |flagged| == |RequiredPositions(form)|
    ensures forall i :: 0 <= i < |flagged| ==> (flagged[i] <==> Trim(form[RequiredPositions(form)[i]].value) == [])
    ensures forall i :: 0 <= i < |flagged| ==> (flagged[i] <==> AllTrimmable(form[RequiredPositions(form)[i]].value))
    ensures isValid <==> forall i :: 0 <= i < |form| && form[i].required ==> Trim(form[i].value) != []
  {
    var pos := RequiredPositions(form);
    FlagsPerControl(form, flagged);
    if isValid {
      forall i | 0 <= i < |form| && form[i].required
        ensures Trim(form[i].value) != []
      {
        var j :| 0 <= j < |pos| && pos[j] == i;
        assert !IsBlank(form[pos[j]].value);
      }
    } else {
      var j :| 0 <= j < |flagged| && flagged[j];
      assert form[pos[j]].required && IsBlank(form[pos[j]].value);
    }
  }

  /** Each flag, read on the control it was computed for. */
  lemma FlagsPerControl(form: Form, flagged: seq<bool>)
    requires |flagged| == |RequiredValues(form)|
    requires forall j :: 0 <= j < |flagged| ==> flagged[j] == IsBlank(RequiredValues(form)[j])
    ensures |flagged| == |RequiredPositions(form)|
    ensures forall i :: 0 <= i < |flagged| ==> flagged[i] == IsBlank(form[RequiredPositions(form)[i]].value)
    ensures forall i :: 0 <= i < |flagged| ==> (flagged[i] <==> AllTrimmable(form[RequiredPositions(form)[i]].value))
  {
    var pos, fields := RequiredPositions(form), RequiredValues(form);
    RequiredValuesInOrder(form);
    forall j | 0 <= j < |flagged|
      ensures flagged[j] == IsBlank(form[pos[j]].value)
      ensures flagged[j] <==> AllTrimmable(form[pos[j]].value)
    {
      assert fields[j] == form[pos[j]].value;
      TrimIsEmpty(fields[j]);
    }
  }

  class DeviceCollector {
    /** What has been gathered so far, spread into every submitted record. */
    var collectedData: Record
    /** The browser facts the collector reads (navigator, screen, the clock's timezone). */
    const env: Environment
    const storage: LocalStorage

    /** collectedData only ever holds the properties the collector gathers. */
    ghost predicate Valid()
      reads this
    {
      collectedData.Keys <= CollectedKeys
    }

    /**
     * `new DeviceCollector()`: collectedData starts empty, then init runs. collectDeviceInfo
     * stops at its first await, so of what it gathers nothing is in yet; displayBrowserInfo
     * adds the browser description.
     */
    constructor(env: Environment, storage: LocalStorage)
      ensures this.env == env && this.storage == storage
      ensures collectedData == map[browser := Str(BrowserInfo(env.userAgent, env.language))]
      ensures Valid()
    {
      this.env := env;
      this.storage := storage;
      collectedData := map[];
      new;
      DisplayBrowserInfo();
    }

    /**
     * The rest of collectDeviceInfo, once the address lookups have answered: the address,
     * then the device id. `primary` and `fallback` are the addresses the two lookup services
     * gave, None where a request or its JSON failed.
     */
    method CollectDeviceInfo(primary: Option<JsString>, fallback: Option<JsString>)
      requires Valid()
      modifies this
      ensures Valid()
      ensures DeviceIdOf(env).Some?
      ensures collectedData ==
                old(collectedData)[ipAddress := Str(AddressOf(primary, fallback))][deviceId := Str(DeviceIdOf(env).value)]
    {
      GetPublicIP(primary, fallback);
      GenerateDeviceId();
    }

    /** getPublicIP: the primary service's address, else the fallback's, else 'unknown'. */
    method GetPublicIP(primary: Option<JsString>, fallback: Option<JsString>)
      modifies this
      ensures primary.Some? ==> collectedData == old(collectedData)[ipAddress := Str(primary.value)]
      ensures primary.None? && fallback.Some? ==> collectedData == old(collectedData)[ipAddress := Str(fallback.value)]
      ensures primary.None? && fallback.None? ==> collectedData == old(collectedData)[ipAddress := Str(Units("unknown"))]
    {
      if primary.Some? {
        collectedData := collectedData[ipAddress := Str(primary.value)];
      } else if fallback.Some? {
        collectedData := collectedData[ipAddress := Str(fallback.value)];
      } else {
        collectedData := collectedData[ipAddress := Str(Units("unknown"))];
      }
    }

    /**
     * generateDeviceId: hash the joined environment and store the formatted id. The regular
     * expression always matches, so the id is always there; what it looks like is
     * DeviceIdShape.
     */
    method GenerateDeviceId()
      modifies this
      ensures DeviceIdOf(env).Some?
      ensures collectedData == old(collectedData)[deviceId := Str(DeviceIdOf(env).value)]
    {
      var components := HashInput(env);
      var hash := ComputeHash(components);
      EnvironmentDeviceId(env);
      var formatted := DeviceIdOfHash(hash);
      collectedData := collectedData[deviceId := Str(formatted.value)];
    }

    /** displayBrowserInfo: store the browser description. */
    method DisplayBrowserInfo()
      modifies this
      ensures collectedData == old(collectedData)[browser := Str(BrowserInfo(env.userAgent, env.language))]
    {
      var info := BrowserInfo(env.userAgent, env.language);
      collectedData := collectedData[browser := Str(info)];
    }

    /**
     * validateForm: every required control is visited in document order and flagged when its
     * trimmed value is empty; the form is valid when none is flagged.
     */
    method ValidateForm(form: Form) returns (isValid: bool, flagged: seq<bool>)
      ensures |flagged| == |RequiredPositions(form)|
      ensures forall i :: 0 <= i < |flagged| ==> (flagged[i] <==> Trim(form[RequiredPositions(form)[i]].value) == [])
      ensures forall i :: 0 <= i < |flagged| ==>
                (flagged[i] <==> AllTrimmable(form[RequiredPositions(form)[i]].value))
      ensures isValid <==> forall i :: 0 <= i < |flagged| ==> !flagged[i]
      ensures isValid <==> forall i :: 0 <= i < |form| && form[i].required ==> Trim(form[i].value) != []
    {
      var fields := RequiredValues(form);
      isValid := true;
      flagged := [];
      for i := 0 to |fields|
        invariant |flagged| == i
        invariant forall j :: 0 <= j < i ==> flagged[j] == IsBlank(fields[j])
        invariant isValid <==> forall j :: 0 <= j < i ==> !flagged[j]
      {
        if IsBlank(fields[i]) {
          flagged := flagged + [true];
          isValid := false;
        } else {
          flagged := flagged + [false];
        }
      }
      ValidationOutcome(form, flagged, isValid);
    }

    /**
     * submitFormData: build the record from the form, collectedData and the browser, and
     * append it to the store. `time` is the `new Date().toISOString()` of the submission.
     */
    method SubmitFormData(form: Form, time: JsString)
      requires Valid()
      modifies storage
      ensures storage.items == Saved(old(storage.items), BuildRecord(form, collectedData, time, env.userAgent, env.platform))
      ensures |StoredRecords(storage.items)| == |StoredRecords(old(storage.items))| + 1
      ensures forall k :: k in FormKeys ==>
                Get(StoredRecords(storage.items)[|StoredRecords(old(storage.items))|], k) == FormValue(form, k)
    {
      var userData := BuildRecord(form, collectedData, time, env.userAgent, env.platform);
      SaveToLocalStorage(userData);
      RecordKeepsForm(form, collectedData, time, env.userAgent, env.platform);
      SavedAppends(old(storage.items), userData);
    }

    /** saveToLocalStorage: read the stored array (empty when there is none), push, write back. */
    method SaveToLocalStorage(data: Record)
      modifies storage
      ensures storage.items == Saved(old(storage.items), data)
    {
      var existingData := storage.GetItem(DataKey).GetOr([]);
      existingData := existingData + [data];
      storage.SetItem(DataKey, existingData);
    }

    /**
     * The submit handler: a form that fails validation stores nothing; one that passes is
     * submitted.
     */
    method HandleSubmit(form: Form, time: JsString) returns (submitted: bool)
      requires Valid()
      modifies storage
      ensures submitted <==> forall i :: 0 <= i < |form| && form[i].required ==> Trim(form[i].value) != []
      ensures !submitted ==> storage.items == old(storage.items)
      ensures submitted ==>
                storage.items == Saved(old(storage.items), BuildRecord(form, collectedData, time, env.userAgent, env.platform))
    {
      var isValid, _ := ValidateForm(form);
      if !isValid {
        return false;
      }
      SubmitFormData(form, time);
      return true;
    }
  }
}
