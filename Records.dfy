/**
 * The records DeviceCollector stores: plain JavaScript objects, modelled as maps from
 * property name to value, and the form they are built from.
 */
module Records {
  import opened Wrappers
  import opened JsStrings

  /** The property names a record carries, spelled as in the source. */
  datatype Key =
    | userName | department | phone | deviceType | location | purpose
    | ipAddress | deviceId | screenResolution | colorDepth | browser
    | timestamp | userAgent | platform

  /** A property value: a string, null (FormData.get of a missing field), or missing altogether. */
  datatype JsValue = Undefined | Null | Str(s: JsString)

  /** A record object; JSON.stringify and JSON.parse leave it as it is. */
  type Record = map<Key, JsValue>

  /** `item.key`: undefined when the record has no such property. */
  function Get(r: Record, k: Key): JsValue
  {
    if k in r then r[k] else Undefined
  }

  /** The properties submitFormData reads from the form. */
  const FormKeys: set<Key> := {userName, department, phone, deviceType, location, purpose}

  /** The properties the collector gathers into collectedData. */
  const CollectedKeys: set<Key> := {ipAddress, deviceId, screenResolution, colorDepth, browser}

  /** The properties written after the spread of collectedData. */
  const LateKeys: set<Key> := {timestamp, userAgent, platform}

  // ---------------------------------------------------------------- the form

  /** A successful control of the form: its name, its current value, and whether it carries `required`. */
  datatype Control = Control(name: JsString, value: JsString, required: bool)

  type Form = seq<Control>

  /** `new FormData(form).get(name)`: searched from the first control on. */
  function FormGet(form: Form, name: JsString): Option<JsString>
  {
    if form == [] then None
    else if form[0].name == name then Some(form[0].value)
    else FormGet(form[1..], name)
  }

  /** FormData.get finds nothing exactly when no control has the name, and otherwise the value of the first that has it. */
  lemma {:induction false} FormGetFirst(form: Form, name: JsString)
    ensures FormGet(form, name).None? <==> forall i :: 0 <= i < |form| ==> form[i].name != name
    ensures FormGet(form, name).Some? ==>
              exists i :: 0 <= i < |form| && form[i].name == name && form[i].value == FormGet(form, name).value
                          && forall k :: 0 <= k < i ==> form[k].name != name
  {
    if form != [] && form[0].name != name {
      var tail := form[1..];
      FormGetFirst(tail, name);
      assert forall i :: 1 <= i < |form| ==> form[i] == tail[i - 1];
      if FormGet(tail, name).Some? {
        var i :| 0 <= i < |tail| && tail[i].name == name && tail[i].value == FormGet(tail, name).value
                 && forall k :: 0 <= k < i ==> tail[k].name != name;
        assert form[i + 1] == tail[i];
        assert forall k :: 0 <= k < i + 1 ==> form[k].name != name;
      }
    }
  }

  /** The positions of the required controls: ascending, each exactly once. */
  function RequiredPositions(form: Form): (idx: seq<nat>)
    ensures forall j :: 0 <= j < |idx| ==> idx[j] < |form| && form[idx[j]].required
    ensures forall j, k :: 0 <= j < k < |idx| ==> idx[j] < idx[k]
    ensures forall i :: 0 <= i < |form| && form[i].required ==> i in idx
  {
    if form == [] then []
    else
      var n := |form| - 1;
      var rest := RequiredPositions(form[..n]);
      assert forall i :: 0 <= i < n ==> form[..n][i] == form[i];
      if form[n].required then rest + [n] else rest
  }

  /** `form.querySelectorAll('[required]')`, read for the values. */
  function RequiredValues(form: Form): seq<JsString>
  {
    if form == [] then []
    else
      var n := |form| - 1;
      if form[n].required then RequiredValues(form[..n]) + [form[n].value] else RequiredValues(form[..n])
  }

  /** The required values are one entry per required control, in document order. */
  lemma {:induction false} RequiredValuesInOrder(form: Form)
    ensures |RequiredValues(form)| == |RequiredPositions(form)|
    ensures forall j :: 0 <= j < |RequiredValues(form)| ==> RequiredValues(form)[j] == form[RequiredPositions(form)[j]].value
  {
    if form != [] {
      var n := |form| - 1;
      RequiredValuesInOrder(form[..n]);
      assert forall i :: 0 <= i < n ==> form[..n][i] == form[i];
    }
  }

  // ---------------------------------------------------------------- building a record

  function Nullable(v: Option<JsString>): JsValue
  {
    match v
    case None => Null
    case Some(s) => Str(s)
  }

  /** The form field names submitFormData asks FormData for. */
  const UserNameField: JsString := Units("userName")
  const DepartmentField: JsString := Units("department")
  const PhoneField: JsString := Units("phone")
  const DeviceTypeField: JsString := Units("deviceType")
  const LocationField: JsString := Units("location")
  const PurposeField: JsString := Units("purpose")

  /** The name of the form field a form property is read from. */
  function FieldName(k: Key): JsString
  {
    match k
    case userName => UserNameField
    case department => DepartmentField
    case phone => PhoneField
    case deviceType => DeviceTypeField
    case location => LocationField
    case purpose => PurposeField
    case _ => []
  }

  /** The value `userData` gives a form property: userName, department and deviceType as read, the others defaulted to ''. */
  function FormValue(form: Form, k: Key): JsValue
  {
    var v := FormGet(form, FieldName(k));
    match k
    case userName | department | deviceType => Nullable(v)
    case phone | location | purpose => Str(v.GetOr([]))
    case _ => Undefined
  }

  /** The properties of `userData` written before the spread. */
  function FormPart(form: Form): Record
  {
    map k | k in FormKeys :: FormValue(form, k)
  }

  /**
   * `{...a, ...b, ...c}`: the properties of all three objects, a later one replacing an
   * earlier one of the same name.
   */
  function Spread(a: Record, b: Record, c: Record): Record
  {
    a + b + c
  }

  /**
   * The object literal of submitFormData: the form part, then `...collectedData`, then
   * timestamp, userAgent and platform. A later property replaces an earlier one of the same name.
   */
  function BuildRecord(form: Form, collected: Record, time: JsString, ua: JsString, pf: JsString): (r: Record)
    ensures r.Keys == FormKeys + collected.Keys + LateKeys
    ensures r[timestamp] == Str(time) && r[userAgent] == Str(ua) && r[platform] == Str(pf)
    ensures forall k :: k in collected && k !in LateKeys ==> r[k] == collected[k]
    ensures forall k :: k in FormKeys && k !in collected ==> r[k] == FormValue(form, k)
  {
    assert forall k :: k in FormKeys ==> k !in LateKeys;
    var front, back := FormPart(form), LatePart(time, ua, pf);
    FormPartLookup(form);
    LatePartLookup(time, ua, pf);
    SpreadLookup(front, collected, back);
    Spread(front, collected, back)
  }

  /** What the form part holds, for the proof of BuildRecord. */
  lemma FormPartLookup(form: Form)
    ensures FormPart(form).Keys == FormKeys
    ensures forall k :: k in FormKeys ==> FormPart(form)[k] == FormValue(form, k)
  {
  }

  /** What the late part holds, for the proof of BuildRecord. */
  lemma LatePartLookup(time: JsString, ua: JsString, pf: JsString)
    ensures LatePart(time, ua, pf).Keys == LateKeys
    ensures LatePart(time, ua, pf)[timestamp] == Str(time)
    ensures LatePart(time, ua, pf)[userAgent] == Str(ua)
    ensures LatePart(time, ua, pf)[platform] == Str(pf)
  {
  }

  /** Looking a property up in a spread, for the proof of BuildRecord. */
  lemma SpreadLookup(a: Record, b: Record, c: Record)
    ensures Spread(a, b, c).Keys == a.Keys + b.Keys + c.Keys
    ensures forall k :: k in c ==> Spread(a, b, c)[k] == c[k]
    ensures forall k :: k in b && k !in c ==> Spread(a, b, c)[k] == b[k]
    ensures forall k :: k in a && k !in b && k !in c ==> Spread(a, b, c)[k] == a[k]
  {
  }

  /** The three properties written last. */
  function LatePart(time: JsString, ua: JsString, pf: JsString): Record
  {
    map k | k in LateKeys :: if k == timestamp then Str(time) else if k == userAgent then Str(ua) else Str(pf)
  }

  /**
   * With collectedData holding only what the collector gathers, every form property of the
   * record is the one read from the form. (That every gathered property comes through
   * unchanged is BuildRecord's third postcondition.)
   */
  lemma RecordKeepsForm(form: Form, collected: Record, time: JsString, ua: JsString, pf: JsString)
    requires collected.Keys <= CollectedKeys
    ensures forall k :: k in FormKeys ==> BuildRecord(form, collected, time, ua, pf)[k] == FormValue(form, k)
  {
    assert forall k :: k in FormKeys ==> k !in CollectedKeys;
  }

  /**
   * The form properties: userName, department and deviceType are null when the form has no
   * such field, while phone, location and purpose become ''; a field that is there is copied.
   */
  lemma FormDefaults(form: Form)
    ensures FormGet(form, UserNameField).None? ==> FormValue(form, userName) == Null
    ensures FormGet(form, DepartmentField).None? ==> FormValue(form, department) == Null
    ensures FormGet(form, DeviceTypeField).None? ==> FormValue(form, deviceType) == Null
    ensures FormGet(form, PhoneField).None? ==> FormValue(form, phone) == Str([])
    ensures FormGet(form, LocationField).None? ==> FormValue(form, location) == Str([])
    ensures FormGet(form, PurposeField).None? ==> FormValue(form, purpose) == Str([])
    ensures forall k, v :: k in FormKeys && FormGet(form, FieldName(k)) == Some(v) ==> FormValue(form, k) == Str(v)
  {
  }
}
