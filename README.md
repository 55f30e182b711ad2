# Gym-Pro device sync, in Dafny

Gym-Pro is a desktop gym-membership manager built with Electron. Its main process keeps
members, payments and admins in SQLite. It mirrors every member onto a Hikvision
fingerprint access terminal, which the gym uses as a turnstile. This project models the
path from a member row to the terminal and proves properties of each step.

- **Membership dates** (`calcExpiry`, on top of the date-fns calendar). An expiry is the
  start date plus one month, three months or one year. A day the target month lacks is
  clamped to that month's last day. Formatting and parsing a date round-trip.
- **The device payload** (`buildDeviceUserPayload`, `buildUserXML`, `escapeXML`).
  - The member id becomes the employee number.
  - The validity window runs from the start of the first day to the end of the expiry day.
  - Escaping covers the five predefined XML entities and loses nothing.
  - Every field of the XML body is proved to be exactly what the tag regex captures. This is
    the pattern behind the client's `extractXMLTag`, which then trims the capture, and behind
    the development mock's reader.
- **The ISAPI client** (`hikvisionService.js`).
  - Each call is one request over `wire: Request -> Reply`, a total function standing for
    axios and the network.
  - The client's `validateStatus` (200 to 399) decides whether the promise resolves.
  - `normaliseError` builds the error message, which always starts with `[Hikvision:<context>] `.
- **The adapter** (`deviceService.js`).
  - When the load-time switch `DISABLE_DEVICE_SYNC=1` or `NODE_ENV=test` is set, no call is made.
  - Otherwise each verb makes exactly one client call, and `safeCall` never lets an error escape.
  - Renewal is an upsert, so it never deletes the user or their fingerprints.
- **The database layer** (`db.js`). `syncDevice`, `syncMemberToDevice` and the
  member/admin writes are modelled over a `MembershipStore` class, whose fields are the
  three tables plus the next row id. The store's invariant is that ids are keys and every
  payment references a member.
  - The code wraps the adapter's result a second time, as written. The adapter already
    catches every device failure, so when sync is on the outer record is always
    `synced: true`, even when the device refused the user (`Db.DeviceFailureReportedAsSynced`).
  - As a result, `addMember`'s "device sync FAILED" log line (`Db.AddNeverLogsFailure`) and the
    add-member page's warning banner (`AddMember.AddedMemberNeverWarns`) are never reached for
    a member that was really added.
- **The two development mocks**, as classes over their in-memory stores.
  - The XML mock (`mockDevice.js`) stores what the client posts, under the escaped employee
    number.
  - The JSON mock (`mock-hikvision.js`) supports a user store and an append-only event log.
    An event search returns the last `limit` events within its time bounds, in log order.
- **The renderer rules.**
  - The permission check and the login/logout state (`AuthContext.jsx`).
  - The role-filtered navigation table (`Sidebar.jsx`). No entry's path is a prefix of
    another's, so at most one entry is ever highlighted.
  - The password-change guards (`Settings.jsx`).
  - Fee defaulting and the submit outcome of the add-member form (`AddMember.jsx`).

JavaScript semantics the code relies on are modelled explicitly in `JsBuiltins`:

- truthiness and `||` defaults;
- `trim` and `split`;
- `replace` with a one-character string, which replaces the first occurrence only;
- `String(n)`, `parseInt` and `Number(s)` (decimal and `0x`/`0o`/`0b` literals), with NaN kept as a value;
- `Array.prototype.filter`.

Numbers are integers or NaN.

The modules are:

- `Wrappers` and `JsBuiltins`: helpers.
- `XmlText`: the regex matcher.
- `DeviceConfig`
- `Hikvision`
- `DeviceService`
- `DateFns`
- `Db`
- `MockDevice`
- `MockHikvision`
- `AuthContext`
- `Sidebar`
- `Settings`
- `AddMember`

## Model

| member | source | states |
|---|---|---|
| DeviceConfig.EnvValue | src/device/deviceConfig.js:15-20 | `process.env[key]`, undefined when unset; GetConfig and NumbersConfigured state what the configuration takes from it |
| DeviceConfig.EnvOr | src/device/deviceConfig.js:16 | `process.env[key] \|\| fallback`; ReadNumberOfFallback proves ReadNumber is `parseInt` of it |
| DeviceConfig.ReadNumber | src/device/deviceConfig.js:16-20 | a numeric setting is `parseInt` of a non-empty value, and the default otherwise |
| DeviceConfig.ReadNumberOfFallback | src/device/deviceConfig.js:16-20 | reading the default as its decimal text and parsing it gives the same number as using it directly |
| DeviceConfig.GetConfig | src/device/deviceConfig.js:14-43 | host and credentials are copied, possibly undefined; `baseURL` is `http://<host>:<port>/ISAPI`, with `undefined` for a missing host |
| DeviceConfig.NumbersDefault | src/device/deviceConfig.js:16-20 | unset port, door and time-out give 80, 1 and 8000 |
| DeviceConfig.NumbersConfigured | src/device/deviceConfig.js:16-20 | a decimal setting is read back as that number |
| DeviceConfig.BaseUrlWithDefaultPort | src/device/deviceConfig.js:35 | with only a host set, the base URL is `http://<host>:80/ISAPI` |
| DeviceConfig.UnsetHostAddressesUndefined | src/device/deviceConfig.js:22-35 | an unset host draws the warning, and the configuration is still returned, with base URL `http://undefined:<port>/ISAPI` |
| Hikvision.EscapeXmlOfPlain | src/device/hikvisionService.js:69-76 | text without markup characters passes through `escapeXML` unchanged |
| Hikvision.EscapeXml | src/device/hikvisionService.js:69-76 | `escapeXML` itself; EscapeXmlIsPerChar, EscapeXmlWellEscaped and EscapeXmlRoundTrip state what it computes |
| Hikvision.EscapeXmlIsPerChar | src/device/hikvisionService.js:69-76 | the five chained global replacements, `&` first, equal escaping each character on its own |
| Hikvision.EscapeXmlChar | src/device/hikvisionService.js:71-75 | each markup character becomes its predefined entity, and all other characters stay |
| Hikvision.EscapeXmlWellEscaped | src/device/hikvisionService.js:69-76 | the output has no raw `<`, `>`, `"` or `'`, and every `&` in it begins an entity |
| Hikvision.EscapeXmlRoundTrip | src/device/hikvisionService.js:69-76 | reading the entities back returns the original text, so escaping is injective |
| Hikvision.ExtractXmlTag | src/device/hikvisionService.js:129-132 | the trimmed capture of the leftmost `<tag>([^<]*)</tag>` match, or null |
| Hikvision.ExtractXmlTagLeftmost | src/device/hikvisionService.js:129-132 | null exactly when no element matches; otherwise the leftmost match's trimmed text |
| Hikvision.EnableText | src/device/hikvisionService.js:51 | `enable` renders `false` only for an explicit false |
| Hikvision.UserFieldTexts | src/device/hikvisionService.js:41-56 | the body carries the escaped employee number and name, and the window times verbatim |
| Hikvision.BuildUserXml | src/device/hikvisionService.js:41-56 | `buildUserXML` itself; BuildUserXmlContents states what the terminal reads from it |
| Hikvision.FieldTextsHaveNoLt | src/device/hikvisionService.js:41-56 | no field text of the body holds `<` when the window times hold none |
| Hikvision.BuildUserXmlContents | src/device/hikvisionService.js:41-56 | each of the six fields of the `<UserInfo>` body is read back by the tag regex as exactly its text |
| Hikvision.OpenDoorXmlCommand | src/device/hikvisionService.js:61-66 | the door body's one command element reads `open` |
| Hikvision.BuildOpenDoorXml | src/device/hikvisionService.js:61-66 | `buildOpenDoorXML` itself; OpenDoorXmlCommand states its command |
| Hikvision.VendorMessage | src/device/hikvisionService.js:111 | the vendor text is `statusString`, or `subStatusCode` when that is empty or absent |
| Hikvision.VendorMessageOfEmpty | src/device/hikvisionService.js:110-111 | a body that is not a string gives no vendor text |
| Hikvision.CodeText | src/device/hikvisionService.js:118 | `err.code \|\| "network error"`; NoResponseMessage states the message it yields |
| Hikvision.ErrorMessage | src/device/hikvisionService.js:105-121 | every message starts with `[Hikvision:<context>] ` followed by the triage text |
| Hikvision.TriageText | src/device/hikvisionService.js:107-120 | the part after the prefix; ResponseMessagePlain, ResponseMessageVendor and NoResponseMessage state each case |
| Hikvision.NormaliseError | src/device/hikvisionService.js:105-126 | the message built step by step is ErrorMessage, and the original failure is attached |
| Hikvision.ResponseMessagePlain | src/device/hikvisionService.js:108-113 | a reply without vendor text gives `HTTP <status>` alone |
| Hikvision.ResponseMessageVendor | src/device/hikvisionService.js:108-113 | a reply with vendor text `v` gives `HTTP <status> — v` |
| Hikvision.NonStringBodyMessage | src/device/hikvisionService.js:110 | a non-string body adds no vendor text |
| Hikvision.StatusStringMessage | src/device/hikvisionService.js:111-113 | a status document contributes its trimmed `statusString` |
| Hikvision.NoResponseMessage | src/device/hikvisionService.js:114-118 | with no reply: the time-out text for `ECONNABORTED`, otherwise `No response from device (<code or network error>)` |
| Hikvision.Rejection | src/device/hikvisionService.js:95 | a reply resolves exactly when its status is in 200..399; otherwise, or when no reply arrives, the call rejects |
| Hikvision.DoorOf | src/device/hikvisionService.js:197 | `doorNo ?? cfg.doorNo ?? 1`: the argument, else the configured door, which is never nullish |
| Hikvision.RequestOf | src/device/hikvisionService.js:150-233 | each call's verb, path under the base URL, body and credentials |
| Hikvision.InfoOf | src/device/hikvisionService.js:226-235 | the device-info record reads five tags from a string body, and all five are null for any other body |
| Hikvision.Perform | src/device/hikvisionService.js:150-242 | a call sends exactly its request; a valid reply resolves to `{success, status}` or the info record; any failure throws the normalised error |
| Hikvision.ContextOf | src/device/hikvisionService.js:150-242 | the label each call passes to `normaliseError`; Perform states the error it throws |
| Hikvision.OpenDoorRequest | src/device/hikvisionService.js:195-205 | `openDoor` puts the door body to `/AccessControl/RemoteControl/door/<door>` |
| Hikvision.OpenDoorDefault | src/device/hikvisionService.js:197 | with no argument and no configured door, door 1 is opened |
| Hikvision.DeleteUserRequest | src/device/hikvisionService.js:174-181 | `deleteUser(id)` sends DELETE to the record path with the decimal id as the query |
| Hikvision.AddOrUpdateUserRequest | src/device/hikvisionService.js:150-156 | `addOrUpdateUser` posts the `<UserInfo>` body to the record path |
| DeviceService.SafeCall | src/device/deviceService.js:39-51 | disabled gives the skip record; a resolved call gives `synced` with the result; a thrown error gives its message |
| DeviceService.ClientCallOf | src/device/deviceService.js:70-137 | add, edit and renew upsert the same payload; delete, door and status forward their argument to the matching client call |
| DeviceService.Execute | src/device/deviceService.js:39-51 | with the switch on no client call is issued; otherwise exactly one call, the verb's own |
| DeviceService.ExecuteDisabled | src/device/deviceService.js:40-42 | with the switch on every verb resolves to the skip record and reaches no client |
| DeviceService.ExecuteEnabled | src/device/deviceService.js:44-50 | with the switch off, a verb is synced exactly when the client call resolves, and a failure becomes its message |
| DeviceService.SkippedOnlyWhenDisabled | src/device/deviceService.js:39-51 | the skip record appears if and only if the switch is on |
| DeviceService.SyncDisabled | src/device/deviceService.js:23-24 | the load-time switch; ExecuteDisabled and SkippedOnlyWhenDisabled state its effect |
| DeviceService.UpsertVerbs | src/device/deviceService.js:70-104 | `addUser`, `editUser` and `renewMembership` each issue one upsert with the payload unchanged |
| DeviceService.RenewNeverDeletes | src/device/deviceService.js:98-104 | renewal never issues a delete, so fingerprints are kept |
| DeviceService.ForwardingVerbs | src/device/deviceService.js:116-137 | `deleteUser`, `openDoor` and `getDeviceStatus` forward to the matching client call |
| DateFns.DaysInMonth | src/database/db.js:119-128 | month lengths are 28 to 31, and February has 29 days exactly in Gregorian leap years |
| DateFns.AddMonths | src/database/db.js:121-124 | the result is a real day, exactly `n` months on, with the day clamped to the target month's length |
| DateFns.AddYears | src/database/db.js:125-126 | adding years gives a real day |
| DateFns.AddYearsKeepsDay | src/database/db.js:125-126 | adding years keeps the month, and keeps the day unless it is 29 February of a year that becomes common |
| DateFns.AddMonthsKeepsEarlyDay | src/database/db.js:121-124 | a day up to the 28th is kept by any month shift |
| DateFns.Format | src/database/db.js:122 | `yyyy-MM-dd` is ten characters for years 1 to 9999 |
| DateFns.ParseDate | src/database/db.js:120 | `parseISO` accepts only `dddd-dd-dd` naming a real day; anything else is an Invalid Date |
| DateFns.ParseFormat | src/database/db.js:120-126 | parsing a formatted day of years 1 to 9999 gives the day back |
| DateFns.FormatParse | src/database/db.js:120-126 | formatting a parsed date gives the text back |
| Db.MonthsOf | src/database/db.js:121-126 | exactly the three known types have a term, of 1 to 12 months |
| Db.CalcExpiry | src/database/db.js:119-128 | an unknown type returns the start text unchanged; a known type throws exactly when the start is not a date |
| Db.CalcExpiryReadsBack | src/database/db.js:119-128 | a known type's expiry parses back as the start shifted by the type's months |
| Db.TimeToMinutes | src/database/db.js:130-133 | a time without `:` gives NaN |
| Db.TimeToMinutesOfClock | src/database/db.js:130-133 | `H:M` or `H:M:…` with decimal parts gives `H·60 + M` |
| Db.BuildDeviceUserPayload | src/database/db.js:135-157 | null exactly for a missing member or a zero id; otherwise every payload field, with the window from `T00:00:00` of the start day to `T23:59:59` of the expiry day, and defaults when dates are missing |
| Db.MemberOnDevice | src/database/db.js:135-157 | the terminal reads back the decimal id, the escaped name, `true`, and the start and end of the dated window |
| Db.SyncDevice | src/database/db.js:159-168 | disabled gives the skip record; otherwise synced exactly when the executor resolved, and a rejection gives its message |
| Db.DispatchCommand | src/database/db.js:159-168 | with sync on, the adapter call is always reported synced and is the one client call issued |
| Db.UpsertCommand | src/database/db.js:181-191 | `add` uses `addUser`, `renew` uses `renewMembership`, and any other action uses `editUser` |
| Db.SyncMemberToDevice | src/database/db.js:170-192 | a missing member reports `member-not-found` and calls nothing; at most one client call is made |
| Db.SyncDelete | src/database/db.js:172-176 | `delete` sends the id without building a payload |
| Db.SyncInvalidPayload | src/database/db.js:178-179 | any action other than delete, with a zero id, reports `invalid-payload` and calls nothing |
| Db.SyncUpsert | src/database/db.js:178-191 | any action other than delete, with a non-zero id, issues one upsert of the built payload |
| Db.SyncDisabledCallsNothing | src/database/db.js:159-160 | with sync disabled no client call is made, whatever the action |
| Db.DeviceFailureReportedAsSynced | src/database/db.js:159-168 | a device failure comes back as `synced: true` wrapping the adapter's failure record |
| Db.SyncNeverThrows | src/database/db.js:161-167 | the `{synced:false, error}` record is never produced |
| Db.InsertedRow | src/database/db.js:247-265 | the inserted row is active and undeleted, has the defaulted phone, address and photo, and the computed expiry |
| Db.NewMemberRecord | src/database/db.js:274-279 | the object handed to the sync carries the new id, the expiry and status `active` |
| Db.AddNeverLogsFailure | src/database/db.js:281-291 | for a really inserted member the failure log line is never written, and the record is skipped exactly when sync is disabled |
| Db.LogsSyncFailure | src/database/db.js:283 | the condition of the failure log line; AddNeverLogsFailure states it never holds for a real add |
| Db.RowRecord | src/database/db.js:239-243 | the row as `getMemberById` returns it, keeping id and name; DeleteMember and RenewMember state the sync built from it |
| Db.OrNull | src/database/db.js:264 | `photo \|\| null`; InsertedRow states the stored photo it gives |
| Db.MembershipStore.constructor | src/database/db.js:20-65 | empty member and payment tables, the given admins, ids from 1 |
| Db.MembershipStore.GetMemberById | src/database/db.js:239-243 | a row is found exactly when it exists and is not soft-deleted |
| Db.MembershipStore.RowSync | src/database/db.js:315-316 | the sync of a row re-read after a write; UpdateMember and RenewMember state that they report it |
| Db.MembershipStore.InsertMember | src/database/db.js:247-265 | an insert stores the row under the next id |
| Db.MembershipStore.InsertPayment | src/database/db.js:267-272 | a payment is appended for an existing member |
| Db.MembershipStore.UpdateRow | src/database/db.js:303-313 | an update replaces one existing row |
| Db.MembershipStore.AddMember | src/database/db.js:245-300 | an invalid start date throws and changes nothing; otherwise one row and its initial payment are inserted, and the reply carries id, expiry and sync record |
| Db.MembershipStore.UpdateMember | src/database/db.js:302-320 | name, phone, address and photo of an existing row change and nothing else; the sync re-reads the row |
| Db.MembershipStore.DeleteMember | src/database/db.js:322-331 | soft delete: the row stays, marked deleted; `getMemberById` no longer finds it and finds every other id as before; the device delete is attempted only for a visible member |
| Db.MembershipStore.RenewMember | src/database/db.js:333-359 | an invalid start throws and changes nothing; otherwise the row gets the new term, dates, fee and `active`, and a renewal payment is appended |
| Db.MembershipStore.BlockMember | src/database/db.js:361-364 | only the `blocked` flag of that row is set |
| Db.MembershipStore.UnblockMember | src/database/db.js:366-369 | only the `blocked` flag of that row is cleared |
| Db.MembershipStore.MarkNotificationSent | src/database/db.js:371-376 | only the `notification_sent` flag of that row is set |
| Db.MembershipStore.DeleteAdmin | src/database/db.js:566-572 | the main admin (`admin@gym.com`) is refused, and any other id is deleted |
| Db.RenewalNotes | src/database/db.js:350-356 | `Renewed: ${type.replace("_", " ")}`; RenewalNoteOfPlainType and RenewalNote state what it notes |
| Db.RenewalNoteOfPlainType | src/database/db.js:354 | a type without `_` is noted as `Renewed: <type>` |
| Db.RenewalNote | src/database/db.js:350-356 | only the first `_` becomes a space |
| MockDevice.Captured | src/mock/mockDevice.js:56-62 | the `([^<]+)` capture, or `?` when nothing matches; never empty |
| MockDevice.StoredUser | src/mock/mockDevice.js:56-64 | the stored record is the three captures |
| MockDevice.MockTerminal.constructor | src/mock/mockDevice.js:28 | the user store starts empty |
| MockDevice.MockTerminal.PostRecord | src/mock/mockDevice.js:54-67 | the captured record is upserted under its employee number, and the reply is the OK document (the constant MockDevice.XmlOk, `xmlOk()`) |
| MockDevice.MockTerminal.DeleteRecord | src/mock/mockDevice.js:70-78 | a missing number gives 400 with code 4 and changes nothing; otherwise that key is removed and the reply is OK |
| MockDevice.MockTerminal.OpenDoor | src/mock/mockDevice.js:81-85 | opening a door changes nothing and replies OK |
| MockDevice.XmlErr | src/mock/mockDevice.js:34-36 | `xmlErr(code, msg)`; DeleteRecord states the code-4 reply built with it |
| MockDevice.MissingFieldDefaults | src/mock/mockDevice.js:56-62 | a body without markup stores `?` |
| MockDevice.EmptyFieldDefaults | src/mock/mockDevice.js:56-62 | an empty element stores `?`, because the pattern needs one character |
| MockDevice.StoresClientPayload | src/mock/mockDevice.js:54-64 | what the client posts is stored as its escaped employee number and name and its end time |
| MockHikvision.Field | src/device/mock-hikvision.js:22 | `v?.[key]`; EmployeeNoOf, HasEmployeeNoIsPresent, Created and Merged state what the handlers read through it |
| MockHikvision.ToNumber | src/device/mock-hikvision.js:78 | `Number` of a JSON number is that number |
| MockHikvision.JsString | src/device/mock-hikvision.js:27 | `String(v)` of a JSON value; KeyOfNumberAndText states that a number and its text give one key |
| MockHikvision.EmployeeNoOf | src/device/mock-hikvision.js:22-23 | an employee number is found only inside a `UserInfo` object |
| MockHikvision.HasEmployeeNoIsPresent | src/device/mock-hikvision.js:22-23 | the two-part guard of Record and Modify is the one-part guard of Delete |
| MockHikvision.Created | src/device/mock-hikvision.js:28-32 | the stored user is the posted fields, with `employeeNo` replaced by its string and `createdAt` set |
| MockHikvision.Merged | src/device/mock-hikvision.js:49-54 | the update keeps old fields not posted, takes posted fields, keeps the key and sets `updatedAt` |
| MockHikvision.Keep | src/device/mock-hikvision.js:82-92 | the filter keeps exactly the events within the bounds; a NaN bound admits none |
| MockHikvision.KeepTwice | src/device/mock-hikvision.js:82-92 | filtering by start and then by end is one filter by both, and no bound keeps all |
| MockHikvision.LastN | src/device/mock-hikvision.js:94-96 | `slice(-n)` is the last `min(n, length)` elements |
| MockHikvision.SearchOf | src/device/mock-hikvision.js:77-80 | without a search description there are no bounds and the limit is 100; with one, the limit is `Number(maxResults)` when that is truthy and 100 otherwise, and each truthy time bound becomes `dateOf` of it |
| MockHikvision.ZeroMaxResultsAsksForHundred | src/device/mock-hikvision.js:78 | `maxResults: 0` asks for 100 events, because 0 is falsy |
| MockHikvision.Selected | src/device/mock-hikvision.js:82-96 | every returned event is logged and within the bounds, and no more than `limit` are returned |
| MockHikvision.SelectedIsSuffix | src/device/mock-hikvision.js:82-96 | the result is the tail of the in-window events, of length `min(limit, count)`, or all of them when `limit` is not positive |
| MockHikvision.NewestEventReported | src/device/mock-hikvision.js:76-131 | a scan within the bounds is the last event a later search returns |
| MockHikvision.UserName | src/device/mock-hikvision.js:122 | `user.name \|\| "Unknown"`; SimulateScan states the event it names |
| MockHikvision.MockServer.constructor | src/device/mock-hikvision.js:7-8 | empty user store and event log |
| MockHikvision.MockServer.PostRecord | src/device/mock-hikvision.js:21-36 | 400 without an employee number and nothing changes; otherwise an upsert under its string; the event log is untouched |
| MockHikvision.MockServer.Modify | src/device/mock-hikvision.js:38-58 | 400 or 404 leave the store as it was; a known user is merged under the same key |
| MockHikvision.MockServer.Delete | src/device/mock-hikvision.js:60-74 | 400 or 404 leave the store as it was; otherwise exactly that key is removed |
| MockHikvision.MockServer.AcsEvent | src/device/mock-hikvision.js:76-106 | the step-by-step filtering and slicing returns Selected, with `total` its length |
| MockHikvision.MockServer.SimulateScan | src/device/mock-hikvision.js:108-131 | 400 or 404 change nothing; otherwise exactly one successful fingerprint event at door 1 is appended, for that user |
| MockHikvision.KeyOfNumberAndText | src/device/mock-hikvision.js:27 | a numeric employee number and its decimal text map to the same key |
| MockHikvision.KeyOf | src/device/mock-hikvision.js:27 | `String(userInfo.employeeNo)`; PostRecord states the key a user is stored under |
| MockHikvision.EventPage | src/device/mock-hikvision.js:98-105 | the reply's `total` and list; AcsEvent states the events it carries |
| AuthContext.CanByRole | src/contexts/AuthContext.jsx:39-52 | nobody signed in can do nothing; `admin` can do everything; any other role can do exactly the four listed permissions |
| AuthContext.AdminCanDoMore | src/contexts/AuthContext.jsx:41-51 | `admin` holds every permission another role holds |
| AuthContext.CanDependsOnRoleOnly | src/contexts/AuthContext.jsx:39-52 | a permission depends only on the role |
| AuthContext.Can | src/contexts/AuthContext.jsx:39-52 | `can(permission)`; CanByRole, AdminCanDoMore and CanDependsOnRoleOnly state what it grants |
| AuthContext.AuthState.constructor | src/contexts/AuthContext.jsx:6-7 | nobody is signed in and loading is on |
| AuthContext.AuthState.Restore | src/contexts/AuthContext.jsx:9-20 | a stored admin is taken over, and loading ends |
| AuthContext.AuthState.Login | src/contexts/AuthContext.jsx:22-29 | only a successful result signs in and stores the admin; the result is returned as it came |
| AuthContext.AuthState.Logout | src/contexts/AuthContext.jsx:31-36 | the admin and its stored copy are cleared, loading is on, and no permission is held |
| Sidebar.VisibleNav | src/components/Sidebar.jsx:101 | the visible entries are exactly those listing the role, as an order-preserving subsequence of the table |
| Sidebar.RolesOfNav | src/components/Sidebar.jsx:18-75 | the `NAV` table (Sidebar.Nav): `/reports` and `/admins` list only `admin`, and every other entry lists both roles |
| Sidebar.AdminSeesAll | src/components/Sidebar.jsx:18-101 | `admin` sees all eight entries in order |
| Sidebar.SubAdminView | src/components/Sidebar.jsx:54-101 | `sub_admin` sees every entry except `/reports` and `/admins`, in order |
| Sidebar.UnlistedRoleSeesNothing | src/components/Sidebar.jsx:101 | a role no entry lists sees no entry |
| Sidebar.IsActive | src/components/Sidebar.jsx:216 | `location.pathname.startsWith(to)`; AtMostOneActive states that it holds for at most one entry |
| Sidebar.AtMostOneActive | src/components/Sidebar.jsx:216 | at most one entry is active for any path |
| Sidebar.NavPrefixFree | src/components/Sidebar.jsx:18-75 | no entry's path starts with another entry's path |
| Settings.Utf16LengthBounds | src/pages/Settings.jsx:27 | a text has between one and two UTF-16 code units per character |
| Settings.Utf16Length | src/pages/Settings.jsx:27 | `s.length` in UTF-16 code units; Utf16LengthBounds states its bounds |
| Settings.PasswordError | src/pages/Settings.jsx:27-33 | the length check (6 UTF-16 units) comes first, then the comparison; no error exactly when both pass |
| Settings.LengthCheckByCharacters | src/pages/Settings.jsx:27 | six characters always pass the length check; fewer than three never do |
| Settings.SettingsPage.constructor | src/pages/Settings.jsx:17-23 | empty form, no banner, not loading |
| Settings.SettingsPage.HandleChangePassword | src/pages/Settings.jsx:25-43 | a failed guard only sets its error banner and makes no call; otherwise the form is sent once, the banner reports the reply, and only a success clears the form |
| AddMember.DefaultFee | src/pages/AddMember.jsx:20 | 3000, 8000 and 25000 for the three types; `undefined` for any other |
| AddMember.InitialForm | src/pages/AddMember.jsx:168-175 | the first form's fee is the default of its type |
| AddMember.HandleChange | src/pages/AddMember.jsx:189-198 | the changed field takes the text; a type change resets the fee to the type's default; any other change leaves the fee and every other field alone |
| AddMember.HandleFeeChange | src/pages/AddMember.jsx:200-202 | only the fee changes, to `Number` of the text |
| AddMember.SetType | src/pages/AddMember.jsx:204-206 | the type and its default fee are set, and nothing else changes |
| AddMember.TypeRoutesAgree | src/pages/AddMember.jsx:189-206 | choosing the type by select or by card gives the same form |
| AddMember.FeeFollowsType | src/pages/AddMember.jsx:189-198 | after a type change, editing another field keeps the type's default fee |
| AddMember.TextOr | src/pages/AddMember.jsx:222 | `x \|\| fallback`; HandleSubmit states the error and warning texts it yields |
| AddMember.ShowsWarning | src/pages/AddMember.jsx:220 | the warning condition; HandleSubmit and AddedMemberNeverWarns state when it holds |
| AddMember.WarningText | src/pages/AddMember.jsx:221-224 | the warning banner text; HandleSubmit states when it is shown |
| AddMember.AddMemberPage.constructor | src/pages/AddMember.jsx:176-179 | no error, warning or success |
| AddMember.AddMemberPage.HandleSubmit | src/pages/AddMember.jsx:208-236 | one save request is sent; the warning shows exactly when not editing, saved, and the sync is neither synced nor skipped; any other success navigates to `/members`; a failure shows its message or `Failed to save` |
| AddMember.ViewOf | src/pages/AddMember.jsx:220-222 | the renderer's view of a sync record; AddedMemberNeverWarns states what it shows for a really added member |
| AddMember.ReplyOf | src/database/db.js:295-299 | `addMember`'s reply is a success carrying its sync record |
| AddMember.AddedMemberNeverWarns | src/pages/AddMember.jsx:218-224 | a member the database really added never triggers the device warning |
| JsBuiltins.Or | src/database/db.js:139-140 | `a \|\| b` on optional text; BuildDeviceUserPayload states the defaulted fields it yields |
| JsBuiltins.Trim | src/device/hikvisionService.js:131 | `trim` removes leading and trailing JavaScript whitespace |
| JsBuiltins.ReplaceAllConcat | src/device/hikvisionService.js:71-75 | a global replace distributes over concatenation |
| JsBuiltins.ReplaceFirstAt | src/database/db.js:354 | a one-character `replace` replaces the first occurrence and keeps the rest |
| JsBuiltins.SplitAfter | src/database/db.js:131 | `split` on a separator cuts after the first piece |
| JsBuiltins.NatToStringRoundTrip | src/database/db.js:137 | the decimal text of a number has only digits and reads back as the number |
| JsBuiltins.ParseIntOfNatToString | src/device/deviceConfig.js:16 | `parseInt` of a decimal text is its value |
| JsBuiltins.StringToNumberOfNatToString | src/database/db.js:131 | `Number` of a decimal text is its value |
| JsBuiltins.Split | src/database/db.js:131 | `split` returns at least one piece, and the whole text when the separator does not occur |
| JsBuiltins.ParseInt | src/device/deviceConfig.js:16-20 | `parseInt` is NaN exactly when no digit follows the leading blanks and sign |
| JsBuiltins.StringToNumber | src/pages/AddMember.jsx:201 | `Number` of a blank text is 0; the radix and decimal forms are stated by RadixLiteral and StringToNumberOfNatToString |
| JsBuiltins.RadixLiteral | src/device/mock-hikvision.js:78 | `Number("0x…")`, `Number("0o…")` and `Number("0b…")` read the digits in base 16, 8 and 2 |
| JsBuiltins.RadixValueTen | src/device/mock-hikvision.js:78 | the base-ten reading of a digit run is its decimal value, so radix and decimal literals agree |
| JsBuiltins.RadixOf | src/device/mock-hikvision.js:78 | only `x`, `o` and `b` (either case) name a radix, 16, 8 and 2, and no decimal digit does |
| JsBuiltins.DigitOf | src/device/mock-hikvision.js:78 | a character is a decimal digit exactly when its digit value is below 10, and every value is at most 36 |
| JsBuiltins.NumAdd | src/database/db.js:132 | `+` with NaN propagation; TimeToMinutesOfClock states the minutes it yields |
| JsBuiltins.NumMul | src/database/db.js:132 | `*` with NaN propagation; TimeToMinutesOfClock states the minutes it yields |
| JsBuiltins.ReplaceFirstAbsent | src/database/db.js:354 | a one-character `replace` of a character that does not occur changes nothing |
| JsBuiltins.FilterTwice | src/device/mock-hikvision.js:82-92 | two passes of `filter` are one pass with the conjunction of both tests |
| JsBuiltins.FilterAll | src/components/Sidebar.jsx:101 | `filter` with a test every element passes returns its input |
| JsBuiltins.FilterMembers | src/components/Sidebar.jsx:101 | `filter` keeps exactly the accepted elements |
| JsBuiltins.FilterAppend | src/device/mock-hikvision.js:84-91 | `filter` distributes over concatenation, so it keeps order |
| JsBuiltins.FilterSubsequence | src/components/Sidebar.jsx:101 | the result of `filter` is an order-preserving subsequence of its input |
| XmlText.MatchedText | src/device/hikvisionService.js:130 | a capture, when there is one, has at least `minLen` characters and holds no `<` |
| XmlText.MatchedTextLeftmost | src/device/hikvisionService.js:130 | null exactly when nothing matches; otherwise the leftmost match's capture |
| XmlText.InertHasNoMatch | src/mock/mockDevice.js:56-58 | text in which no opening tag can begin holds no match |
| XmlText.EmptyElementNoMatch | src/mock/mockDevice.js:56-58 | `<tag></tag>` does not match the one-or-more pattern |

## Left out

- Transport: axios, the Basic-Auth header, time-outs and socket errors are inputs. A total
  function `wire` stands for them, and each failure shape is an input value.
- `encodeURIComponent`: only decimal ids are ever encoded, and those need no escaping.
- The clock, `Math.random` and `toISOString` are parameters: `nowIso`, `now`, `id` and `today`.
  JavaScript's `new Date(x).getTime()` in the JSON mock is the parameter `dateOf`.
- `parseISO` is modelled only on the calendar-date form `yyyy-MM-dd`. The time-of-day,
  week, ordinal and time-zone forms are left out, and so is the local time zone. A text in
  any other form is treated as an Invalid Date.
- `DateFns.ParseDate`: four-digit years only. `format` of years from 10000 on is rendered
  but not parsed back.
- Floating point: fees, `Number()` and JSON numbers are integers or NaN. Fractional input
  and `Infinity` are not modelled.
- `JsBuiltins.StringToNumber`: the decimal-point and exponent forms (`5.0`, `1e3`) and
  `Infinity` give NaN in the model, although JavaScript reads them as numbers. Numbers are
  modelled as integers, so no such form is read. The `0x`, `0o` and `0b` forms are modelled.
- SQLite, bcrypt and the seeding of the first admin are left out. The tables are fields of
  `Db.MembershipStore`. The password hash is not part of `Db.Admin`, and `login` and
  `changePassword` in the database are not modelled; the pages receive their replies as inputs.
- Logging (`console.*`) writes nothing that the code reads back. It is left out, except that
  `Db.LogsSyncFailure` names the condition of `addMember`'s failure log line.
- The Electron IPC bridge: a thrown main-process error reaches the renderer as a rejection
  whose message the model takes as given. Electron's wording of that message is left out.
- The Express servers: routing, body parsing and listening are left out. Each handler is a
  method of the mock's class. The device-info route of the XML mock
  (src/mock/mockDevice.js:39-51) is a constant document and is left out.
- `MockDevice.MockTerminal.DeleteRecord`: a query parameter repeated into an array is not
  modelled; the parameter is an optional string.
- `MockDevice.MockTerminal.PostRecord`: a body that arrives as something other than text
  (`req.body || ""` on a parsed object) is not modelled; the body is a string.
- `MockHikvision.Field`: property reads on strings and arrays (`"x".employeeNo`) are always
  undefined, as for every key these handlers use; prototype keys such as `constructor` are
  not modelled.
- `AddMember.DefaultFee`: lookups of `Object.prototype` keys (`DEF_FEES["constructor"]`) are
  not modelled; every unlisted type reads as `undefined`.
- `AuthContext.AuthState.Restore`: `sessionStorage` holds the admin record rather than its
  JSON text, so the parse failure path (remove and continue) is not modelled.
- `AuthContext.AuthState.Logout`: the `setTimeout` that clears `loading` after 500 ms is left
  out; the method's state is the one right after the call.
- `AddMember.AddMemberPage.HandleSubmit`: the 900 ms delay before navigation is left out; the
  navigation is recorded when it is scheduled. The member fetch of the edit page's effect is
  not modelled.
- Rendering: JSX, styles, icons, hover state and routing components are left out.
- `Db.TimeToMinutes` is not called anywhere in the database layer; it is modelled on its own.
