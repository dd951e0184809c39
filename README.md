# IP-collector in Dafny

A model of the logic in `script.js` of IP-collector. The repository is a static two-page site:

- The **collection page** (`DeviceCollector`) gathers facts about the browser into `collectedData`:
  - the public address;
  - a fingerprint "device id";
  - a description of the browser.

  It validates a form and appends one record per submission to `localStorage` under the key `deviceCollectionData`.
- The **report page** (`ReportViewer`) loads the stored records and shows three figures:
  - the number of records;
  - the number of distinct departments;
  - the number of distinct device types.

Modules, in dependency order:

- `Wrappers`: `Option`.
- `Int32`: ECMAScript ToInt32 and the operators the hash uses (`<< 5`, `& self`, `Math.abs`), written as integer arithmetic modulo 2^32.
- `JsStrings`: strings as sequences of UTF-16 code units, with `includes`, `join`, `trim`, ASCII case mapping and ToString of numbers and booleans.
- `DeviceId`: the fingerprint.
  - The seven environment components are joined with `|`.
  - The 31-multiplier rolling hash runs over them; `ComputeHash` is the loop, proved equal to `StringHash`.
  - The hash is written as hex, paired, joined with `:` and upper-cased.
- `Browser`: the ordered user-agent tests of `getBrowserInfo` and the `name (language)` result.
- `Records`: a record as a map from property name to value.
  - The form is a sequence of controls; `FormData.get` takes the first control with the name.
  - The record is the object literal of `submitFormData`. Spread is map union, where a later property replaces an earlier one.
- `Storage`: the `localStorage` class and the append performed by `saveToLocalStorage`. A JSON round trip drops properties holding `undefined`.
- `Stats`: the `Set` of departments and the device-type tally built by `reduce`.
- `Collector`: class `DeviceCollector`, whose methods update `collectedData` and the store.
- `Report`: class `ReportViewer`, with `loadData` and `renderStats`.

The code reads as if it meant a MAC-address-like id: the comment at `script.js:19` calls the id a stand-in for the MAC address, and `substring(0, 12)` at `script.js:69` allows up to 12 hex digits. The model follows what the code computes:

- The hash is a signed 32-bit value, and `Math.abs` of it is at most 2^31. So `toString(16)` gives 1 to 8 digits, and `substring(0, 12)` never cuts anything.
- The id therefore has at most four groups, with the last group a single digit when the digit count is odd.
- `DeviceId.DeviceIdShape` proves this shape for every hash.

## Model

| member | source | states |
|---|---|---|
| Int32.ToInt32 | script.js:66 | `hash & hash` yields a value in signed 32-bit range that is congruent to its argument modulo 2^32; a value already in range is unchanged |
| Int32.ShiftLeft5 | script.js:65 | `x << 5` is in signed 32-bit range and congruent to 32·x modulo 2^32 |
| Int32.Abs | script.js:69 | `Math.abs` returns x or -x; it is non-negative and, for an int32, at most 2^31 |
| DeviceId.Components | script.js:51-59 | the hash input has exactly seven components; their order is that of the definition |
| DeviceId.StringHash | script.js:62-67 | the hash after any prefix of the input is in signed 32-bit range |
| DeviceId.ComputeHash | script.js:62-67 | the loop from 0 over every code unit in order ends with StringHash of the input |
| DeviceId.HashStepIsMultiplyAdd | script.js:65-66 | one loop step equals ToInt32(31·hash + c) |
| DeviceId.StringHashIsPolynomial | script.js:62-67 | the hash is ToInt32 of the polynomial s[0]·31^(n-1) + … + s[n-1] |
| DeviceId.SubstitutionChangesHash | script.js:62-67 | changing any single code unit of the input to a different one changes the hash |
| DeviceId.ToHex | script.js:69 | `toString(16)` is non-empty, lower-case hex, with no leading zero unless the number is 0 |
| DeviceId.HexRoundTrip | script.js:69 | reading the hex digits back gives the number |
| DeviceId.HexOfAbsLength | script.js:69 | the hex of Math.abs of an int32 has 1 to 8 digits |
| DeviceId.Pairs | script.js:70 | the matches of /.{1,2}/g number ⌈n/2⌉ and concatenate back to the string; all are two units long except possibly the last, which is one |
| DeviceId.DeviceIdShape | script.js:69-70 | `substring(0,12)` is the identity and the match never fails. The id has at most 4 groups and 1 to 11 characters. A colon sits exactly at positions ≡ 2 (mod 3), with upper-case hex digits everywhere else. Lower-casing and deleting colons gives back exactly the hex of abs(hash) |
| DeviceId.DeviceIdDeterminesAbs | script.js:69-70 | two hashes give the same id exactly when their absolute values are equal |
| DeviceId.EnvironmentDeviceId | script.js:51-70 | the id of an environment is determined by the polynomial of its joined components and always exists |
| JsStrings.ContainsAt | script.js:96-99 | `includes` holds exactly when the word occurs at some position |
| JsStrings.TrimStart | script.js:144 | leading removal: a suffix remains whose first unit is kept, and every removed unit is whitespace or a line terminator |
| JsStrings.TrimEnd | script.js:144 | trailing removal: a prefix remains whose last unit is kept, and every removed unit is whitespace or a line terminator |
| JsStrings.TrimIsEmpty | script.js:144 | `trim()` gives '' exactly when every code unit is whitespace or a line terminator |
| JsStrings.LowerUpper | script.js:70 | lower-casing undoes `toUpperCase` on a string without capitals |
| JsStrings.Digits | script.js:55-56 | number-to-string of a natural number yields a non-empty string of decimal digits, with no leading zero unless the number is 0 |
| JsStrings.DigitsRoundTrip | script.js:55-56 | reading the decimal digits of n back gives n |
| JsStrings.NumberToStringValue | script.js:55-56 | ToString of an integer is non-empty, starts with '-' exactly when it is negative, and the digits after any sign read back as its magnitude |
| Browser.ClassifyByWords | script.js:96-100 | for each of the five names, it is chosen exactly when a stated condition holds on which of the words Chrome, Edg, Firefox and Safari the user agent mentions (both directions), reflecting the order of the tests |
| Browser.DistinctInitials | script.js:96-100 | no two of the five names start with the same code unit |
| Browser.BrowserInfoRoundTrip | script.js:102 | the description is always `name (language)`: parsing it recovers the chosen name and the language |
| Records.FormGetFirst | script.js:161-168 | `FormData.get` is null exactly when no control has the name, and otherwise it gives the value of the first control that has it |
| Records.RequiredPositions | script.js:140 | `querySelectorAll('[required]')` finds the positions of exactly the required controls, in strictly increasing (document) order |
| Records.RequiredValuesInOrder | script.js:140 | the values read from the matched controls: one per required control, the j-th being the value of the control at the j-th matched position |
| Records.BuildRecord | script.js:162-173 | gives the record's keys; timestamp, userAgent and platform always come from the submission; a collected property survives unless it is one of those three; a form property survives unless collectedData has the same name |
| Records.RecordKeepsForm | script.js:162-169 | when collectedData holds only gathered properties, every form property of the record is the form's value |
| Records.FormDefaults | script.js:163-168 | a missing userName, department or deviceType is null, and a missing phone, location or purpose is ''; a present field is copied |
| Storage.JsonRoundTrip | script.js:185-187 | stringify then parse drops undefined properties and keeps every property's observable value (`item.key`) |
| Storage.JsonRoundTripFixes | script.js:185-187 | a round trip leaves a record unchanged exactly when it holds no undefined value, and repeating it changes nothing |
| Storage.StoredRecords | script.js:185 | a missing key reads as the empty array |
| Storage.SavedAppends | script.js:184-187 | after a save, the array is one longer, the earlier records read as before, the last reads as d, and other keys are untouched |
| Storage.SavedIsAppend | script.js:184-187 | for records JSON keeps unchanged, the stored array after saving d is exactly old + [d] |
| Storage.SavedAllKeeps | script.js:184-187 | after several saves, the array has grown by their number and the earlier records are unchanged |
| Storage.SavedAllAppends | script.js:184-187 | after several saves, the new records appear in submission order |
| Storage.LocalStorage.SetItem | script.js:187 | `setItem` replaces only the given key, storing the JSON round trip of the value |
| Stats.ElementsMembers | script.js:239 | `new Set(values)` holds exactly the values of the sequence |
| Stats.ElementsSize | script.js:239-240 | the Set's size is at most the length, at least 1 when the sequence is non-empty, and equals the length exactly when no value repeats |
| Stats.DistinctExtend | script.js:239 | appending a new value keeps a sequence repetition-free, and only then |
| Stats.UniqueDepartmentBounds | script.js:238-241 | the department figure is at most the total, at least 1 on non-empty data, and equals the total exactly when no two records share a department |
| Stats.UniqueDepartmentsAreDistinctValues | script.js:239-240 | the department figure is the number of distinct department values |
| Stats.OccurrencesPositive | script.js:244-247 | a key's occurrence count is at most the number of records, and is positive exactly when some record has that key |
| Stats.HistogramCounts | script.js:244-247 | the tally holds exactly the keys that occur other than `__proto__`, and each one's count is the number of records with that key |
| Stats.HistogramKeys | script.js:244-249 | the tally's keys are the distinct device-type keys minus `__proto__` |
| Stats.DeviceTypesAreDistinctKeys | script.js:244-250 | the device-type figure is the number of distinct device-type keys, `__proto__` aside |
| Stats.DeviceTypeCountBound | script.js:249-250 | the device-type figure is at most the total |
| Stats.HistogramTotal | script.js:244-247 | the counts sum to the total, less the records whose key is `__proto__` |
| Stats.NullSharesKeyWithNullString | script.js:245 | a null device type and the string 'null' are one key and one device type |
| Collector.DeviceCollector.constructor | script.js:3-12 | after construction collectedData holds only the browser description; the state invariant holds |
| Collector.DeviceCollector.CollectDeviceInfo | script.js:15-24 | after the lookups, collectedData is the old one with ipAddress set to the primary address, else the fallback's, else 'unknown', and then deviceId set to the environment's id, which always exists; the invariant is preserved |
| Collector.DeviceCollector.GetPublicIP | script.js:27-46 | ipAddress is the primary service's address, else the fallback's, else 'unknown'; nothing else changes |
| Collector.DeviceCollector.GenerateDeviceId | script.js:49-74 | the id always exists; collectedData changes only in deviceId, which becomes the environment's id |
| Collector.DeviceCollector.DisplayBrowserInfo | script.js:85-89 | collectedData changes only in browser, which becomes getBrowserInfo's description |
| Collector.DeviceCollector.ValidateForm | script.js:139-157 | one flag per required control, in document order; the j-th is set exactly when the value of the j-th required control trims to '' (equivalently, is all whitespace); the form is valid exactly when no flag is set, that is, exactly when every required control's value trims to non-empty |
| Collector.DeviceCollector.SubmitFormData | script.js:160-181 | the store becomes the old one with the built record saved: the array is one longer, and the new last record carries the form's values |
| Collector.DeviceCollector.SaveToLocalStorage | script.js:184-191 | read, push and write back: the store afterwards is the old one with d appended under deviceCollectionData |
| Collector.ValidationOutcome | script.js:140-150 | the flags the loop over the matched values leaves, read back on the form's controls, and the validity they give |
| Collector.DeviceCollector.HandleSubmit | script.js:112-124 | submits exactly when every required control's value trims to non-empty; otherwise the store is unchanged; when it submits, the store is the old one with the built record saved |
| Report.ReportViewer.constructor | script.js:208-217 | the viewer starts with the stored records |
| Report.ReportViewer.LoadData | script.js:219-222 | data is the stored array, or empty when nothing is stored |
| Report.ReportViewer.RenderStats | script.js:229-252 | total = record count; departments = number of distinct department values; deviceTypes = number of distinct device-type keys other than `__proto__`. Both are at most the total, departments ≥ 1 on non-empty data, and all three are 0 on empty data |
| Report.SaveThenLoad | script.js:219-222 | the report opened after a save shows the earlier records as they were, followed by the new one |

## Left out

- Network access in getPublicIP:
  - both lookups are parameters, `None` when the request or its JSON fails;
  - a response whose JSON has no `ip` field (which would store undefined) is not modelled.
- All DOM work:
  - `textContent` writes, border colours, `showToast`, button states and `form.reset()`;
  - the event wiring of `setupFormHandler`, `setupExportHandlers` and the `DOMContentLoaded` dispatch;
  - `renderTable`.

  These present data and hold no logic.
- Functions that depend on the browser: `escapeHtml` depends on DOM serialisation, and `formatDate` on the locale. `exportData` is a Blob download.
- collectScreenInfo: it formats browser-provided values. The model lets collectedData hold its two properties but never sets them.
- Clock values: `new Date().toISOString()` and `getTimezoneOffset()` are inputs. The offset is an integer number of minutes.
- Scheduling: the one-second `setTimeout` and the async ordering are not modelled.
  - A submission may run before `collectDeviceInfo` has finished. `SubmitFormData` accepts any collectedData that satisfies the invariant, which covers that case.
- Malformed store contents:
  - the model stores the parsed array, and `JSON.parse` is the identity on it;
  - text that is not JSON makes `JSON.parse` throw (`script.js:185`, `script.js:221`); this is not modelled;
  - JSON whose value is not an array parses, and the source then throws at `existingData.push` (`script.js:186`) or on the report page at `this.data.length` (`script.js:235`) for `null` and at `this.data.map` (`script.js:239`) for any other value that is not an array; this is not modelled;
  - an empty string under the key is falsy, so both pages read it as the empty array; the model holds no such value.
- `setItem` failures, such as a full storage quota.
- JSON key order, and the pretty-printing that only the export uses.
- FormData details: a form is modelled as its list of successful controls with name, value and `required`. Disabled controls, check boxes, files and elements that are not controls are not modelled. FormData values are scalar value strings, so an unpaired surrogate in a control's value becomes U+FFFD; the model copies the value as is.
- JsStrings.ToUpperAscii: maps only ASCII letters, not full Unicode case mapping. The ids contain only hex digits and colons, so this is exact for them.
- JsStrings.NumberToString: covers integers below 10^21 in magnitude only. Screen sizes and timezone offsets are such integers.
- DeviceId.MatchPairs: models /.{1,2}/g on strings without line terminators, which `.` would not match. Hex strings have none.
- Stats.Histogram: counts are plain numbers. In the source, a device type that names an inherited property (`constructor`, `toString` and so on) starts from that property's value, so its count becomes a string. The set of keys, and therefore the device-type figure, is the same.
- Stats.HistogramTotal: states that the tally's counts sum to the number of records whose device type is not `__proto__`, not to the record count, because a `__proto__` device type is never counted.
