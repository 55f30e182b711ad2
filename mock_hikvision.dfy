/**
 * The JSON stand-in for the terminal (src/device/mock-hikvision.js): a user store keyed by
 * employee number and an append-only log of access events, behind five handlers. Request and
 * reply bodies are JSON values. The clock, the random event id and the date parser are
 * parameters: `now` is the ISO text of the current instant, and `dateOf(v)` is
 * `new Date(v).getTime()`, NaN for text that is not a date.
 */
module MockHikvision {
  import opened Wrappers
  import opened JsBuiltins

  /** A JSON value as `express.json` parses it (numbers restricted to integers). */
  datatype Json =
    | JNull
    | JBool(b: bool)
    | JNum(n: int)
    | JStr(s: string)
    | JArr(items: seq<Json>)
    | JObj(fields: map<string, Json>)

  /** JavaScript truthiness of a JSON value; arrays and objects are always truthy. */
  predicate JsonTruthy(v: Json) {
    match v
    case JNull => false
    case JBool(b) => b
    case JNum(n) => n != 0
    case JStr(s) => s != ""
    case _ => true
  }

  /** Truthiness of a possibly undefined value. */
  predicate Present(v: Option<Json>) {
    v.Some? && JsonTruthy(v.value)
  }

  /** `v?.[key]`: the member of an object, undefined (None) for anything else. */
  function Field(v: Option<Json>, key: string): (r: Option<Json>)
    ensures r.Some? <==> v.Some? && v.value.JObj? && key in v.value.fields
    ensures r.Some? ==> r.value == v.value.fields[key]
  {
    if v.Some? && v.value.JObj? && key in v.value.fields then Some(v.value.fields[key]) else None
  }

  /** `String(v)`: arrays are joined with commas (null elements as ""), objects are `[object Object]`. */
  function JsString(v: Json): string
    decreases v, 1
  {
    match v
    case JNull => "null"
    case JBool(b) => if b then "true" else "false"
    case JNum(n) => IntToString(n)
    case JStr(s) => s
    case JArr(items) => JoinItems(items)
    case JObj(_) => "[object Object]"
  }

  function JoinItems(items: seq<Json>): string
    decreases items, 0
  {
    if items == [] then ""
    else
      (if items[0].JNull? then "" else JsString(items[0]))
      + (if |items| > 1 then "," + JoinItems(items[1..]) else "")
  }

  /** `Number(v)`: booleans are 0 or 1, null is 0, text is read as `Number` reads it, and arrays and objects through their `String`. */
  function ToNumber(v: Json): (r: NumberValue)
    ensures v.JNum? ==> r == Num(v.n)
  {
    match v
    case JNull => Num(0)
    case JBool(b) => if b then Num(1) else Num(0)
    case JNum(n) => Num(n)
    case JStr(s) => StringToNumber(s)
    case _ => StringToNumber(JsString(v))
  }

  /** `ok(data)` and `fail(message)`. */
  function Ok(data: Json): Json {
    JObj(map["statusCode" := JNum(1), "statusString" := JStr("OK"), "data" := data])
  }

  function Fail(message: string): Json {
    JObj(map["statusCode" := JNum(0), "statusString" := JStr(message)])
  }

  datatype JsonReply = JsonReply(status: int, body: Json)

  const EmployeeNoRequired := "UserInfo.employeeNo is required"
  const UserNotFound := "User not found"

  /** `req.body?.UserInfo?.employeeNo`. */
  function EmployeeNoOf(body: Json): (r: Option<Json>)
    ensures r.Some? ==> Field(Some(body), "UserInfo").Some? && Field(Some(body), "UserInfo").value.JObj?
  {
    Field(Field(Some(body), "UserInfo"), "employeeNo")
  }

  /** `!userInfo || !userInfo.employeeNo` fails exactly when this does not hold. */
  predicate HasEmployeeNo(body: Json) {
    Present(Field(Some(body), "UserInfo")) && Present(EmployeeNoOf(body))
  }

  /** A present employee number implies a present `UserInfo` object, so one test decides both guards. */
  lemma HasEmployeeNoIsPresent(body: Json)
    ensures HasEmployeeNo(body) <==> Present(EmployeeNoOf(body))
  {
  }

  /** `String(userInfo.employeeNo)`. */
  function KeyOf(body: Json): string
    requires Present(EmployeeNoOf(body))
  {
    JsString(EmployeeNoOf(body).value)
  }

  /** The fields of the request's `UserInfo` object. */
  function InfoOf(body: Json): (info: map<string, Json>)
    requires Present(EmployeeNoOf(body))
    ensures "employeeNo" in info
  {
    Field(Some(body), "UserInfo").value.fields
  }

  /** `{...userInfo, employeeNo: key, createdAt: now}`. */
  function Created(info: map<string, Json>, key: string, now: string): (r: map<string, Json>)
    ensures r.Keys == info.Keys + {"employeeNo", "createdAt"}
    ensures r["employeeNo"] == JStr(key) && r["createdAt"] == JStr(now)
    ensures forall k :: k in info && k != "employeeNo" && k != "createdAt" ==> r[k] == info[k]
  {
    info["employeeNo" := JStr(key)]["createdAt" := JStr(now)]
  }

  /** `{...stored, ...userInfo, employeeNo: key, updatedAt: now}`. */
  function Merged(stored: map<string, Json>, info: map<string, Json>, key: string, now: string): (r: map<string, Json>)
    ensures r.Keys == stored.Keys + info.Keys + {"employeeNo", "updatedAt"}
    ensures r["employeeNo"] == JStr(key) && r["updatedAt"] == JStr(now)
    ensures forall k :: k in info && k != "employeeNo" && k != "updatedAt" ==> r[k] == info[k]
    ensures forall k :: k in stored && k !in info && k != "employeeNo" && k != "updatedAt" ==> r[k] == stored[k]
  {
    (stored + info)["employeeNo" := JStr(key)]["updatedAt" := JStr(now)]
  }

  // ---------------------------------------------------------------- events

  datatype Event = Event(
    id: string,
    employeeNo: string,
    userName: Json,
    eventTime: string,
    doorNo: int,
    eventType: string,
    result: string)

  function EventJson(e: Event): Json {
    JObj(map[
      "id" := JStr(e.id), "employeeNo" := JStr(e.employeeNo), "userName" := e.userName,
      "eventTime" := JStr(e.eventTime), "doorNo" := JNum(e.doorNo), "eventType" := JStr(e.eventType),
      "result" := JStr(e.result)])
  }

  /** `a >= b` and `a <= b` on numbers: false when either is NaN. */
  predicate AtLeast(a: NumberValue, b: NumberValue) {
    a.Num? && b.Num? && a.value >= b.value
  }

  predicate AtMost(a: NumberValue, b: NumberValue) {
    a.Num? && b.Num? && a.value <= b.value
  }

  /** The event's time lies within the optional bounds. */
  predicate InWindow(e: Event, start: Option<NumberValue>, end: Option<NumberValue>, dateOf: Json -> NumberValue) {
    var t := dateOf(JStr(e.eventTime));
    (start.None? || AtLeast(t, start.value)) && (end.None? || AtMost(t, end.value))
  }

  /** The test an `AcsEvent` search applies to each event. */
  function InWindowTest(start: Option<NumberValue>, end: Option<NumberValue>, dateOf: Json -> NumberValue): Event -> bool {
    e => InWindow(e, start, end, dateOf)
  }

  /** `events.filter(…)`: the events within the bounds, in their order. */
  function Keep(s: seq<Event>, start: Option<NumberValue>, end: Option<NumberValue>, dateOf: Json -> NumberValue): (r: seq<Event>)
    ensures forall e :: e in r <==> e in s && InWindow(e, start, end, dateOf)
  {
    FilterMembers(s, InWindowTest(start, end, dateOf));
    Filter(s, InWindowTest(start, end, dateOf))
  }

  /** Filtering by the start bound and then by the end bound is filtering by both; no bound keeps all. */
  lemma KeepTwice(s: seq<Event>, start: Option<NumberValue>, end: Option<NumberValue>, dateOf: Json -> NumberValue)
    ensures Keep(Keep(s, start, None, dateOf), None, end, dateOf) == Keep(s, start, end, dateOf)
    ensures Keep(s, None, None, dateOf) == s
  {
    FilterTwice(s, InWindowTest(start, None, dateOf), InWindowTest(None, end, dateOf), InWindowTest(start, end, dateOf));
    FilterAll(s, InWindowTest(None, None, dateOf));
  }

  /** `s.slice(-n)` for a positive integer `n`: the last `n` elements, or all of them. */
  function LastN(s: seq<Event>, n: int): (r: seq<Event>)
    requires n > 0
    ensures |r| == (if n < |s| then n else |s|)
    ensures r == s[|s| - |r|..]
  {
    if n >= |s| then s else s[|s| - n..]
  }

  /** The bounds and the limit an `AcsEvent` request asks for. */
  datatype Search = Search(start: Option<NumberValue>, end: Option<NumberValue>, limit: NumberValue)

  /**
   * `search = body?.SearchDescription || {}`; `limit = Number(search.maxResults || 100)`; a truthy
   * `startTime`/`endTime` becomes a bound (NaN when it is not a date, which then admits nothing).
   */
  function SearchOf(body: Json, dateOf: Json -> NumberValue): (q: Search)
    ensures !Present(Field(Some(body), "SearchDescription")) ==> q == Search(None, None, Num(100))
    ensures var described := Field(Some(body), "SearchDescription");
      Present(described) ==>
        var maxResults := Field(described, "maxResults");
        && q.limit == (if Present(maxResults) then ToNumber(maxResults.value) else Num(100))
        && (q.start.Some? <==> Present(Field(described, "startTime")))
        && (q.end.Some? <==> Present(Field(described, "endTime")))
        && (q.start.Some? ==> q.start.value == dateOf(Field(described, "startTime").value))
        && (q.end.Some? ==> q.end.value == dateOf(Field(described, "endTime").value))
  {
    var described := Field(Some(body), "SearchDescription");
    var search := if Present(described) then described.value else JObj(map[]);
    var maxResults := Field(Some(search), "maxResults");
    var startTime := Field(Some(search), "startTime");
    var endTime := Field(Some(search), "endTime");
    Search(
      if Present(startTime) then Some(dateOf(startTime.value)) else None,
      if Present(endTime) then Some(dateOf(endTime.value)) else None,
      if Present(maxResults) then ToNumber(maxResults.value) else Num(100))
  }

  /** `maxResults: 0` is falsy, so `maxResults || 100` asks for 100 events, not none. */
  lemma ZeroMaxResultsAsksForHundred(body: Json, dateOf: Json -> NumberValue)
    requires Present(Field(Some(body), "SearchDescription"))
    requires Field(Field(Some(body), "SearchDescription"), "maxResults") == Some(JNum(0))
    ensures SearchOf(body, dateOf).limit == Num(100)
  {
  }

  /** The events an `AcsEvent` search returns: those within the bounds, then the last `limit` of them. */
  function Selected(events: seq<Event>, q: Search, dateOf: Json -> NumberValue): (r: seq<Event>)
    ensures forall e :: e in r ==> e in events && InWindow(e, q.start, q.end, dateOf)
    ensures q.limit.Num? && q.limit.value > 0 ==> |r| <= q.limit.value
  {
    var inWindow := Keep(events, q.start, q.end, dateOf);
    if q.limit.Num? && q.limit.value > 0 then LastN(inWindow, q.limit.value) else inWindow
  }

  /** The `AcsEvent` reply's data: the count and the list. */
  function EventPage(list: seq<Event>): Json {
    JObj(map[
      "total" := JNum(|list|),
      "AcsEvent" := JObj(map["InfoList" := JArr(seq(|list|, i requires 0 <= i < |list| => EventJson(list[i])))])])
  }

  /** A user's `name || "Unknown"`. */
  function UserName(user: map<string, Json>): (r: Json)
    ensures "name" in user && JsonTruthy(user["name"]) ==> r == user["name"]
    ensures !("name" in user && JsonTruthy(user["name"])) ==> r == JStr("Unknown")
  {
    if "name" in user && JsonTruthy(user["name"]) then user["name"] else JStr("Unknown")
  }

  class MockServer {
    /** The `users` Map, keyed by `String(employeeNo)`. */
    var users: map<string, map<string, Json>>
    /** The `events` array; handlers only ever append to it. */
    var events: seq<Event>

    constructor ()
      ensures users == map[] && events == []
    {
      users := map[];
      events := [];
    }

    /** POST `UserInfo/Record`: 400 without an employee number, otherwise an upsert under its `String`. */
    method PostRecord(body: Json, now: string) returns (reply: JsonReply)
      modifies this
      ensures events == old(events)
      ensures !HasEmployeeNo(body) ==> users == old(users) && reply == JsonReply(400, Fail(EmployeeNoRequired))
      ensures HasEmployeeNo(body) ==>
        var stored := Created(InfoOf(body), KeyOf(body), now);
        users == old(users)[KeyOf(body) := stored] && reply == JsonReply(200, Ok(JObj(map["UserInfo" := JObj(stored)])))
    {
      var userInfo := Field(Some(body), "UserInfo");
      if !Present(userInfo) || !Present(Field(userInfo, "employeeNo")) {
        return JsonReply(400, Fail(EmployeeNoRequired));
      }
      var key := JsString(Field(userInfo, "employeeNo").value);
      var stored := Created(userInfo.value.fields, key, now);
      users := users[key := stored];
      reply := JsonReply(200, Ok(JObj(map["UserInfo" := JObj(stored)])));
    }

    /** PUT `UserInfo/Modify`: 400 without an employee number, 404 for an unknown one, otherwise a merge. */
    method Modify(body: Json, now: string) returns (reply: JsonReply)
      modifies this
      ensures events == old(events)
      ensures !HasEmployeeNo(body) ==> users == old(users) && reply == JsonReply(400, Fail(EmployeeNoRequired))
      ensures HasEmployeeNo(body) && KeyOf(body) !in old(users) ==>
        users == old(users) && reply == JsonReply(404, Fail(UserNotFound))
      ensures HasEmployeeNo(body) && KeyOf(body) in old(users) ==>
        var updated := Merged(old(users)[KeyOf(body)], InfoOf(body), KeyOf(body), now);
        users == old(users)[KeyOf(body) := updated] && reply == JsonReply(200, Ok(JObj(map["UserInfo" := JObj(updated)])))
    {
      var userInfo := Field(Some(body), "UserInfo");
      if !Present(userInfo) || !Present(Field(userInfo, "employeeNo")) {
        return JsonReply(400, Fail(EmployeeNoRequired));
      }
      var key := JsString(Field(userInfo, "employeeNo").value);
      if key !in users {
        return JsonReply(404, Fail(UserNotFound));
      }
      var updated := Merged(users[key], userInfo.value.fields, key, now);
      users := users[key := updated];
      reply := JsonReply(200, Ok(JObj(map["UserInfo" := JObj(updated)])));
    }

    /** PUT `UserInfo/Delete`: 400 without an employee number, 404 for an unknown one, otherwise that key goes. */
    method Delete(body: Json) returns (reply: JsonReply)
      modifies this
      ensures events == old(events)
      ensures !Present(EmployeeNoOf(body)) ==> users == old(users) && reply == JsonReply(400, Fail(EmployeeNoRequired))
      ensures Present(EmployeeNoOf(body)) && KeyOf(body) !in old(users) ==>
        users == old(users) && reply == JsonReply(404, Fail(UserNotFound))
      ensures Present(EmployeeNoOf(body)) && KeyOf(body) in old(users) ==>
        users == old(users) - {KeyOf(body)} && reply == JsonReply(200, Ok(JObj(map["employeeNo" := JStr(KeyOf(body))])))
    {
      var employeeNo := Field(Field(Some(body), "UserInfo"), "employeeNo");
      if !Present(employeeNo) {
        return JsonReply(400, Fail(EmployeeNoRequired));
      }
      var key := JsString(employeeNo.value);
      if key !in users {
        return JsonReply(404, Fail(UserNotFound));
      }
      users := users - {key};
      reply := JsonReply(200, Ok(JObj(map["employeeNo" := JStr(key)])));
    }

    /**
     * POST `AcsEvent`: the log is copied, narrowed by each bound that is given, then cut to its last
     * `limit` entries when `limit` is a positive number; `total` counts what is returned.
     */
    method AcsEvent(body: Json, dateOf: Json -> NumberValue) returns (reply: JsonReply)
      ensures reply == JsonReply(200, Ok(EventPage(Selected(events, SearchOf(body, dateOf), dateOf))))
    {
      var q := SearchOf(body, dateOf);
      var filtered := events;
      if q.start.Some? {
        filtered := Keep(filtered, q.start, None, dateOf);
      }
      if q.end.Some? {
        filtered := Keep(filtered, None, q.end, dateOf);
      }
      KeepTwice(events, q.start, q.end, dateOf);
      KeepTwice(Keep(events, q.start, None, dateOf), None, None, dateOf);
      if q.limit.Num? && q.limit.value > 0 {
        filtered := LastN(filtered, q.limit.value);
      }
      reply := JsonReply(200, Ok(EventPage(filtered)));
    }

    /**
     * POST `/simulate-scan`: 400 without an employee number, 404 for an unknown user, otherwise one
     * successful fingerprint event at door 1 is appended. `id` stands for the random event id.
     */
    method SimulateScan(body: Json, now: string, id: string) returns (reply: JsonReply)
      modifies this
      ensures users == old(users)
      ensures !Present(Field(Some(body), "employeeNo")) ==>
        events == old(events) && reply == JsonReply(400, Fail("employeeNo is required"))
      ensures Present(Field(Some(body), "employeeNo")) && JsString(Field(Some(body), "employeeNo").value) !in users ==>
        events == old(events) && reply == JsonReply(404, Fail(UserNotFound))
      ensures Present(Field(Some(body), "employeeNo")) && JsString(Field(Some(body), "employeeNo").value) in users ==>
        var key := JsString(Field(Some(body), "employeeNo").value);
        var event := Event(id, key, UserName(users[key]), now, 1, "fingerprint", "success");
        events == old(events) + [event] && reply == JsonReply(200, Ok(JObj(map["event" := EventJson(event)])))
    {
      var employeeNo := Field(Some(body), "employeeNo");
      if !Present(employeeNo) {
        return JsonReply(400, Fail("employeeNo is required"));
      }
      var key := JsString(employeeNo.value);
      if key !in users {
        return JsonReply(404, Fail(UserNotFound));
      }
      var event := Event(id, key, UserName(users[key]), now, 1, "fingerprint", "success");
      events := events + [event];
      reply := JsonReply(200, Ok(JObj(map["event" := EventJson(event)])));
    }
  }

  /**
   * What a search returns: exactly the last `limit` events within the bounds, in log order, or
   * all of them when `limit` is not a positive number.
   */
  lemma SelectedIsSuffix(events: seq<Event>, q: Search, dateOf: Json -> NumberValue)
    ensures var all := Keep(events, q.start, q.end, dateOf);
      var r := Selected(events, q, dateOf);
      && r == all[|all| - |r|..]
      && (q.limit.Num? && q.limit.value > 0 ==> |r| == (if q.limit.value < |all| then q.limit.value else |all|))
      && (!(q.limit.Num? && q.limit.value > 0) ==> r == all)
  {
  }

  /** A scan appended to the log is what the search reports last, when its time is within the bounds. */
  lemma NewestEventReported(events: seq<Event>, e: Event, q: Search, dateOf: Json -> NumberValue)
    requires InWindow(e, q.start, q.end, dateOf)
    ensures var r := Selected(events + [e], q, dateOf);
      |r| > 0 && r[|r| - 1] == e
  {
    var test := InWindowTest(q.start, q.end, dateOf);
    FilterAppend(events, [e], test);
    assert Filter([e], test) == [e] + Filter([], test);
  }

  /** A number text in `employeeNo` and the same number keep one key: `String(7)` and `"7"` agree. */
  lemma KeyOfNumberAndText(n: nat)
    ensures JsString(JNum(n)) == JsString(JStr(NatToString(n)))
  {
  }
}
