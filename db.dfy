/**
 * The membership database and its replication to the terminal (src/database/db.js).
 *
 * The SQLite tables are the fields of `MembershipStore`; each statement the source runs is an
 * update of those fields. After a local write has been made, the member is sent to the device
 * through the adapter; whatever the device does, the local write stays and the operation
 * reports success.
 *
 * The device-side outcome travels in two layers: the adapter's `safeCall` record and, around it,
 * `syncDevice`'s record. The adapter never fails, so `syncDevice` records `synced: true`
 * whenever sync is enabled, and a device failure is found only inside `deviceResponse`.
 */
module Db {
  import opened Wrappers
  import opened JsBuiltins
  import opened DateFns
  import opened DeviceConfig
  import opened XmlText
  import H = Hikvision
  import DS = DeviceService

  // ---------------------------------------------------------------- calcExpiry

  /** The months a membership type runs for; None for a type `calcExpiry` does not know. */
  function MonthsOf(membershipType: string): (n: Option<int>)
    ensures n.Some? <==> membershipType == "1_month" || membershipType == "3_months" || membershipType == "1_year"
    ensures n.Some? ==> 1 <= n.value <= 12
  {
    if membershipType == "1_month" then Some(1)
    else if membershipType == "3_months" then Some(3)
    else if membershipType == "1_year" then Some(12)
    else None
  }

  /** What `format` throws for an Invalid Date. */
  const InvalidTimeValue := "Invalid time value"

  /**
   * `calcExpiry(startDate, type)`: the start date moved on by the type's term and formatted as
   * `yyyy-MM-dd`. None stands for the RangeError `format` throws when a known type is given a
   * start that is not a date; an unknown type returns the start text untouched.
   */
  function CalcExpiry(startDate: string, membershipType: string): (r: Option<string>)
    ensures MonthsOf(membershipType).None? ==> r == Some(startDate)
    ensures MonthsOf(membershipType).Some? ==> (r.None? <==> ParseDate(startDate).None?)
  {
    var start := ParseDate(startDate);
    if membershipType == "1_month" then
      (if start.None? then None else Some(Format(AddMonths(start.value, 1))))
    else if membershipType == "3_months" then
      (if start.None? then None else Some(Format(AddMonths(start.value, 3))))
    else if membershipType == "1_year" then
      (if start.None? then None else Some(Format(AddYears(start.value, 1))))
    else Some(startDate)
  }

  /**
   * For a start date in years 1 to 9998, the expiry is a date that reads back as the start moved
   * on by the type's number of months (clamped to the end of a shorter month).
   */
  lemma CalcExpiryReadsBack(startDate: string, membershipType: string)
    requires ParseDate(startDate).Some? && 1 <= ParseDate(startDate).value.year < 9999
    requires MonthsOf(membershipType).Some?
    ensures CalcExpiry(startDate, membershipType).Some?
    ensures ParseDate(CalcExpiry(startDate, membershipType).value)
      == Some(AddMonths(ParseDate(startDate).value, MonthsOf(membershipType).value))
  {
    var d := ParseDate(startDate).value;
    var n := MonthsOf(membershipType).value;
    var e := AddMonths(d, n);
    assert d.year * 12 <= MonthIndex(e) < (d.year + 2) * 12;
    assert d.year <= e.year <= d.year + 1;
    ParseFormat(e);
  }

  // ---------------------------------------------------------------- timeToMinutes

  /** `timeToMinutes(t)`: the text before the first `:` as hours, the next piece as minutes. */
  function TimeToMinutes(t: string): (r: NumberValue)
    ensures ':' !in t ==> r == NaN
  {
    var parts := Split(t, ':');
    var h := StringToNumber(parts[0]);
    var m := if |parts| >= 2 then StringToNumber(parts[1]) else NaN;  // Number(undefined)
    NumAdd(NumMul(h, Num(60)), m)
  }

  /** For `H:M` or `H:M:…` with decimal `H` and `M`, the result is `H·60 + M`. */
  lemma TimeToMinutesOfClock(hs: string, ms: string, rest: string)
    requires hs != [] && forall k :: 0 <= k < |hs| ==> IsDigit(hs[k])
    requires ms != [] && forall k :: 0 <= k < |ms| ==> IsDigit(ms[k])
    requires rest == [] || rest[0] == ':'
    ensures TimeToMinutes(hs + ":" + ms + rest) == Num(DigitsValue(hs) * 60 + DigitsValue(ms))
  {
    SplitClock(hs, ms, rest);
    StringToNumberOfDigits(hs);
    StringToNumberOfDigits(ms);
  }

  lemma SplitClock(hs: string, ms: string, rest: string)
    requires ':' !in hs && ':' !in ms
    requires rest == [] || rest[0] == ':'
    ensures var parts := Split(hs + ":" + ms + rest, ':');
      |parts| >= 2 && parts[0] == hs && parts[1] == ms
  {
    assert hs + ":" + ms + rest == hs + [':'] + (ms + rest);
    SplitAfter(hs, ':', ms + rest);
    if rest == [] {
      assert ms + rest == ms;
    } else {
      assert ms + rest == ms + [':'] + rest[1..];
      SplitAfter(ms, ':', rest[1..]);
    }
  }

  // ---------------------------------------------------------------- buildDeviceUserPayload

  /**
   * The fields of a member record that the payload reads. A field the record lacks, or holds as
   * null, is None.
   */
  datatype MemberRecord = MemberRecord(
    id: int,
    fullName: string,
    phone: Option<string>,
    address: Option<string>,
    membershipType: string,
    status: Option<string>,
    startDate: Option<string>,
    expiryDate: Option<string>)

  const BeginSuffix := "T00:00:00"
  const EndSuffix := "T23:59:59"
  const OpenEndTime := "2099-12-31T23:59:59"

  /**
   * `buildDeviceUserPayload(member)`: null for a missing member or a zero id. `nowIso` is the
   * current instant in ISO form, used as the begin time when the start date is missing.
   */
  function BuildDeviceUserPayload(member: Option<MemberRecord>, nowIso: string): (p: Option<H.UserPayload>)
    ensures p.None? <==> member.None? || member.value.id == 0
    ensures p.Some? ==> var m := member.value;
      && p.value.employeeNo == IntToString(m.id)
      && p.value.name == m.fullName
      && p.value.phoneNo == Or(m.phone, "") && p.value.address == Or(m.address, "")
      && p.value.membershipType == m.membershipType
      && p.value.status == Or(m.status, "active")
      && p.value.valid.enable == Some(true)
      && p.value.valid.beginTime == (if Truthy(m.startDate) then m.startDate.value + BeginSuffix else nowIso)
      && p.value.valid.endTime == (if Truthy(m.expiryDate) then m.expiryDate.value + EndSuffix else OpenEndTime)
  {
    if member.None? || member.value.id == 0 then None
    else
      var m := member.value;
      var beginTime := if Truthy(m.startDate) then m.startDate.value + BeginSuffix else nowIso;
      var endTime := if Truthy(m.expiryDate) then m.expiryDate.value + EndSuffix else OpenEndTime;
      Some(H.UserPayload(
        IntToString(m.id), m.fullName, Or(m.phone, ""), Or(m.address, ""), m.membershipType,
        Or(m.status, "active"), H.ValidWindow(Some(true), beginTime, endTime)))
  }

  lemma DigitsArePlain(s: string)
    requires forall k :: 0 <= k < |s| ==> IsDigit(s[k])
    ensures forall k :: 0 <= k < |s| ==> !H.IsMarkupChar(s[k])
  {
  }

  /**
   * What the terminal is told about a member with a positive id and dated membership: the id as
   * its decimal text, the escaped name, enabled, and a window from the start of the first day to
   * the end of the expiry day.
   */
  lemma MemberOnDevice(m: MemberRecord, nowIso: string)
    requires m.id > 0 && Truthy(m.startDate) && Truthy(m.expiryDate)
    requires '<' !in m.startDate.value && '<' !in m.expiryDate.value
    ensures var xml := H.BuildUserXml(BuildDeviceUserPayload(Some(m), nowIso).value);
      && MatchedText(xml, "employeeNo", 0) == Some(NatToString(m.id))
      && MatchedText(xml, "name", 0) == Some(H.EscapeXml(m.fullName))
      && MatchedText(xml, "enable", 0) == Some("true")
      && MatchedText(xml, "beginTime", 0) == Some(m.startDate.value + BeginSuffix)
      && MatchedText(xml, "endTime", 0) == Some(m.expiryDate.value + EndSuffix)
  {
    var p := BuildDeviceUserPayload(Some(m), nowIso).value;
    assert '<' !in BeginSuffix && '<' !in EndSuffix;
    assert '<' !in p.valid.beginTime && '<' !in p.valid.endTime;
    H.BuildUserXmlContents(p);
    DigitsArePlain(NatToString(m.id));
    H.EscapeXmlOfPlain(NatToString(m.id));
  }

  // ---------------------------------------------------------------- syncDevice

  /**
   * What `syncMemberToDevice` reports: `{synced:false, reason}`, `{synced:false, skipped:true}`,
   * `{synced:true, deviceResponse}` or `{synced:false, error}`.
   */
  datatype DeviceSync =
    | NotAttempted(reason: string)
    | SyncSkipped
    | SyncDone(deviceResponse: DS.SyncResult)
    | SyncThrew(error: string)
  {
    /** The record's `synced` flag. */
    predicate Synced() { SyncDone? }

    /** The record's `skipped` flag (absent, so falsy, except on the skip record). */
    predicate Skipped() { SyncSkipped? }

    /** The record's `error` field. */
    function Error(): Option<string> {
      if SyncThrew? then Some(error) else None
    }
  }

  /** `syncDevice(label, executor)` as written: any resolved value counts as synced. */
  function SyncDevice(disabled: bool, settled: Settled<DS.SyncResult>): (r: DeviceSync)
    ensures disabled ==> r == SyncSkipped
    ensures !disabled ==> (r.Synced() <==> settled.Resolved?)
    ensures !disabled && settled.Resolved? ==> r.deviceResponse == settled.value
    ensures !disabled && settled.Rejected? ==> r == SyncThrew(settled.message)
  {
    if disabled then SyncSkipped
    else match settled
      case Resolved(v) => SyncDone(v)
      case Rejected(message) => SyncThrew(message)
  }

  /** The record `syncMemberToDevice` resolves to and the client calls made on the way, in order. */
  datatype SyncRun = SyncRun(sync: DeviceSync, issued: seq<H.ClientCall>)

  /**
   * `syncDevice(label, () => deviceService.<verb>(…))`. Both switches are the same test of the
   * environment, and the adapter's promise always resolves.
   */
  function DispatchCommand(cmd: DS.Command, env: Env, wire: H.Request -> H.Reply): (run: SyncRun)
    ensures DS.SyncDisabled(env) ==> run == SyncRun(SyncSkipped, [])
    ensures !DS.SyncDisabled(env) ==> run.sync.Synced() && run.issued == [DS.ClientCallOf(cmd)]
  {
    if DS.SyncDisabled(env) then SyncRun(SyncDevice(true, Resolved(DS.Skipped(DS.SkipReason))), [])
    else
      var inv := DS.Execute(cmd, env, wire);
      SyncRun(SyncDevice(false, Resolved(inv.result)), inv.issued)
  }

  /** The adapter verb each action of `syncMemberToDevice` uses, once the payload is built. */
  function UpsertCommand(action: string, p: H.UserPayload): (cmd: DS.Command)
    ensures action == "add" ==> cmd == DS.AddUser(p)
    ensures action == "renew" ==> cmd == DS.RenewMembership(p)
    ensures action != "add" && action != "renew" ==> cmd == DS.EditUser(p)
  {
    if action == "add" then DS.AddUser(p)
    else if action == "renew" then DS.RenewMembership(p)
    else DS.EditUser(p)
  }

  /** `syncMemberToDevice(action, member)`. */
  function SyncMemberToDevice(action: string, member: Option<MemberRecord>, env: Env, wire: H.Request -> H.Reply, nowIso: string): (run: SyncRun)
    ensures member.None? ==> run == SyncRun(NotAttempted("member-not-found"), [])
    ensures |run.issued| <= 1
  {
    if member.None? then SyncRun(NotAttempted("member-not-found"), [])
    else if action == "delete" then DispatchCommand(DS.DeleteUser(member.value.id), env, wire)
    else
      match BuildDeviceUserPayload(member, nowIso)
      case None => SyncRun(NotAttempted("invalid-payload"), [])
      case Some(p) => DispatchCommand(UpsertCommand(action, p), env, wire)
  }

  /** `delete` removes the user by id and builds no payload, so even a zero id is sent. */
  lemma SyncDelete(m: MemberRecord, env: Env, wire: H.Request -> H.Reply, nowIso: string)
    requires !DS.SyncDisabled(env)
    ensures SyncMemberToDevice("delete", Some(m), env, wire, nowIso).issued == [H.DeleteUser(m.id)]
  {
  }

  /** Any other action with a member whose id is zero reports `invalid-payload` and calls nothing. */
  lemma SyncInvalidPayload(action: string, m: MemberRecord, env: Env, wire: H.Request -> H.Reply, nowIso: string)
    requires action != "delete" && m.id == 0
    ensures SyncMemberToDevice(action, Some(m), env, wire, nowIso) == SyncRun(NotAttempted("invalid-payload"), [])
  {
  }

  /**
   * Any other action with a positive id makes one upsert of the member's payload: `add`, `renew`
   * and every other action alike, never a delete.
   */
  lemma SyncUpsert(action: string, m: MemberRecord, env: Env, wire: H.Request -> H.Reply, nowIso: string)
    requires action != "delete" && m.id != 0 && !DS.SyncDisabled(env)
    ensures SyncMemberToDevice(action, Some(m), env, wire, nowIso).issued
      == [H.AddOrUpdateUser(BuildDeviceUserPayload(Some(m), nowIso).value)]
  {
  }

  /** With sync disabled no client call is made, whatever the action. */
  lemma SyncDisabledCallsNothing(action: string, member: Option<MemberRecord>, env: Env, wire: H.Request -> H.Reply, nowIso: string)
    requires DS.SyncDisabled(env)
    ensures SyncMemberToDevice(action, member, env, wire, nowIso).issued == []
    ensures member.Some? && (action == "delete" || member.value.id != 0) ==>
      SyncMemberToDevice(action, member, env, wire, nowIso).sync == SyncSkipped
  {
  }

  /**
   * A device failure is reported as synced: when the terminal call throws, the outer record has
   * `synced: true` and the failure sits in `deviceResponse`. `syncDevice`'s own error record is
   * never produced.
   */
  lemma DeviceFailureReportedAsSynced(action: string, m: MemberRecord, env: Env, wire: H.Request -> H.Reply, nowIso: string)
    requires !DS.SyncDisabled(env) && (action == "delete" || m.id != 0)
    requires var run := SyncMemberToDevice(action, Some(m), env, wire, nowIso);
      H.Perform(run.issued[0], env, wire).Threw?
    ensures var run := SyncMemberToDevice(action, Some(m), env, wire, nowIso);
      && run.sync.Synced()
      && run.sync.deviceResponse == DS.SyncFailed(H.Perform(run.issued[0], env, wire).error.message)
  {
    var run := SyncMemberToDevice(action, Some(m), env, wire, nowIso);
    if action == "delete" {
      DS.ExecuteEnabled(DS.DeleteUser(m.id), env, wire);
    } else {
      DS.ExecuteEnabled(UpsertCommand(action, BuildDeviceUserPayload(Some(m), nowIso).value), env, wire);
    }
  }

  /** `syncMemberToDevice` never yields the `{synced:false, error}` record. */
  lemma SyncNeverThrows(action: string, member: Option<MemberRecord>, env: Env, wire: H.Request -> H.Reply, nowIso: string)
    ensures !SyncMemberToDevice(action, member, env, wire, nowIso).sync.SyncThrew?
  {
  }

  // ---------------------------------------------------------------- the tables

  /** A row of `members`; the 0/1 integer columns are booleans. */
  datatype Member = Member(
    id: int,
    fullName: string,
    phone: string,
    address: string,
    membershipType: string,
    startDate: string,
    expiryDate: string,
    fee: int,
    photo: Option<string>,
    status: string,
    deleted: bool,
    blocked: bool,
    notificationSent: bool)

  /** A row of `payments`. */
  datatype Payment = Payment(memberId: int, amount: int, paymentDate: string, paymentType: string, notes: string)

  /** A row of `admins` (the password hash is not modelled). */
  datatype Admin = Admin(name: string, email: string, role: string)

  /** The fields of a member as the payload reads them from a row. */
  function RowRecord(m: Member): (r: MemberRecord)
    ensures r.id == m.id && r.fullName == m.fullName
  {
    MemberRecord(m.id, m.fullName, Some(m.phone), Some(m.address), m.membershipType, Some(m.status), Some(m.startDate), Some(m.expiryDate))
  }

  /** The new-member form `addMember` receives. */
  datatype MemberForm = MemberForm(
    fullName: string,
    phone: Option<string>,
    address: Option<string>,
    membershipType: string,
    startDate: string,
    fee: int,
    photo: Option<string>)

  /** The profile form `updateMember` receives. */
  datatype ProfileForm = ProfileForm(id: int, fullName: string, phone: Option<string>, address: Option<string>, photo: Option<string>)

  /** `x || null` for an optional text. */
  function OrNull(v: Option<string>): (r: Option<string>)
    ensures Truthy(v) ==> r == v
    ensures !Truthy(v) ==> r == None
  {
    if Truthy(v) then v else None
  }

  /** The row `addMember` inserts under `id`. */
  function InsertedRow(form: MemberForm, id: int, expiry: string): (m: Member)
    ensures m.id == id && m.status == "active" && !m.deleted && !m.blocked && !m.notificationSent
    ensures m.phone == Or(form.phone, "") && m.address == Or(form.address, "") && m.photo == OrNull(form.photo)
    ensures m.startDate == form.startDate && m.expiryDate == expiry && m.fee == form.fee
  {
    Member(id, form.fullName, Or(form.phone, ""), Or(form.address, ""), form.membershipType, form.startDate,
      expiry, form.fee, OrNull(form.photo), "active", false, false, false)
  }

  /** `{...m, id, expiry_date, status: "active"}`: the object handed to the sync after the insert. */
  function NewMemberRecord(form: MemberForm, id: int, expiry: string): (r: MemberRecord)
    ensures r.id == id && r.status == Some("active") && r.startDate == Some(form.startDate) && r.expiryDate == Some(expiry)
  {
    MemberRecord(id, form.fullName, form.phone, form.address, form.membershipType, Some("active"), Some(form.startDate), Some(expiry))
  }

  /** `addMember`'s reply: the insert's id, the expiry and the sync record; or the error it throws. */
  datatype AddResult = Added(id: int, expiryDate: string, deviceSync: DeviceSync) | AddThrew(message: string)

  /** `renewMember`'s reply, or the error it throws. */
  datatype RenewResult = Renewed(expiryDate: string, deviceSync: DeviceSync) | RenewThrew(message: string)

  /** `deleteAdmin`'s reply. */
  datatype AdminResult = AdminDeleted | AdminRefused(message: string)

  const MainAdminEmail := "admin@gym.com"
  const ForeignKeyFailed := "FOREIGN KEY constraint failed"

  /** `addMember`'s log line "device sync FAILED" is written exactly for these records. */
  predicate LogsSyncFailure(ds: DeviceSync) {
    !ds.Synced() && !ds.Skipped()
  }

  /**
   * A freshly added member has a positive id, so the add is always attempted: it is synced or
   * skipped, and the failure log line is never written, even when the device rejected the user.
   */
  lemma AddNeverLogsFailure(form: MemberForm, id: int, expiry: string, env: Env, wire: H.Request -> H.Reply, nowIso: string)
    requires id >= 1
    ensures var run := SyncMemberToDevice("add", Some(NewMemberRecord(form, id, expiry)), env, wire, nowIso);
      !LogsSyncFailure(run.sync) && (run.sync.Skipped() <==> DS.SyncDisabled(env))
  {
  }

  /** The members, payments and admins tables, and the next id the members table hands out. */
  class MembershipStore {
    var members: map<int, Member>
    var payments: seq<Payment>
    var admins: map<int, Admin>
    var nextMemberId: int

    /**
     * Every row sits under its own id, ids are below the next one handed out, and every payment
     * refers to a member row (the foreign key; rows are never removed from `members`).
     */
    ghost predicate Valid()
      reads this
    {
      && nextMemberId >= 1
      && (forall id :: id in members ==> 1 <= id < nextMemberId && members[id].id == id)
      && (forall i :: 0 <= i < |payments| ==> payments[i].memberId in members)
    }

    constructor (admins: map<int, Admin>)
      ensures Valid()
      ensures this.members == map[] && this.payments == [] && this.admins == admins && nextMemberId == 1
    {
      this.members := map[];
      this.payments := [];
      this.admins := admins;
      this.nextMemberId := 1;
    }

    /** `getMemberById(id)`: the row, unless it is missing or soft-deleted. */
    function GetMemberById(id: int): (r: Option<Member>)
      reads this
      ensures r.Some? <==> id in members && !members[id].deleted
      ensures r.Some? ==> r.value == members[id]
    {
      if id in members && !members[id].deleted then Some(members[id]) else None
    }

    /** The sync record for the row under `id`, as re-read after a write. */
    function RowSync(action: string, id: int, env: Env, wire: H.Request -> H.Reply, nowIso: string): DeviceSync
      reads this
    {
      var row := GetMemberById(id);
      SyncMemberToDevice(action, if row.Some? then Some(RowRecord(row.value)) else None, env, wire, nowIso).sync
    }

    /** `INSERT INTO members`: the row takes the next id. */
    method InsertMember(row: Member)
      requires Valid() && row.id == nextMemberId
      modifies this
      ensures Valid()
      ensures members == old(members)[row.id := row] && nextMemberId == old(nextMemberId) + 1
      ensures payments == old(payments) && admins == old(admins)
    {
      members := members[row.id := row];
      nextMemberId := nextMemberId + 1;
    }

    /** `INSERT INTO payments`, for a payment whose member row exists. */
    method InsertPayment(p: Payment)
      requires Valid() && p.memberId in members
      modifies this
      ensures Valid()
      ensures payments == old(payments) + [p]
      ensures members == old(members) && admins == old(admins) && nextMemberId == old(nextMemberId)
    {
      payments := payments + [p];
    }

    /** `UPDATE members … WHERE id = ?` on an existing row, which keeps its id. */
    method UpdateRow(row: Member)
      requires Valid() && row.id in members
      modifies this
      ensures Valid()
      ensures members == old(members)[row.id := row]
      ensures payments == old(payments) && admins == old(admins) && nextMemberId == old(nextMemberId)
    {
      members := members[row.id := row];
    }

    /**
     * `addMember(m)`: the expiry is computed first (a start that is not a date throws before
     * anything is written), then the member row and its initial payment are inserted, then the new
     * member is sent to the device.
     */
    method AddMember(form: MemberForm, env: Env, wire: H.Request -> H.Reply, nowIso: string) returns (r: AddResult)
      requires Valid()
      modifies this
      ensures Valid()
      ensures CalcExpiry(form.startDate, form.membershipType).None? ==>
        r == AddThrew(InvalidTimeValue) && unchanged(this)
      ensures CalcExpiry(form.startDate, form.membershipType).Some? ==>
        var id, expiry := old(nextMemberId), CalcExpiry(form.startDate, form.membershipType).value;
        && members == old(members)[id := InsertedRow(form, id, expiry)]
        && payments == old(payments) + [Payment(id, form.fee, form.startDate, "membership", "Initial registration")]
        && admins == old(admins) && nextMemberId == id + 1
        && r == Added(id, expiry, SyncMemberToDevice("add", Some(NewMemberRecord(form, id, expiry)), env, wire, nowIso).sync)
    {
      var expiry := CalcExpiry(form.startDate, form.membershipType);
      if expiry.None? {
        return AddThrew(InvalidTimeValue);
      }
      var id := nextMemberId;
      InsertMember(InsertedRow(form, id, expiry.value));
      InsertPayment(Payment(id, form.fee, form.startDate, "membership", "Initial registration"));
      var newMember := NewMemberRecord(form, id, expiry.value);
      var deviceSync := SyncMemberToDevice("add", Some(newMember), env, wire, nowIso).sync;
      r := Added(id, expiry.value, deviceSync);
    }

    /**
     * `updateMember(m)`: only name, phone, address and photo change, on the row with that id
     * (soft-deleted or not); the row is then re-read and sent to the device. Always `success: true`.
     */
    method UpdateMember(form: ProfileForm, env: Env, wire: H.Request -> H.Reply, nowIso: string) returns (deviceSync: DeviceSync)
      requires Valid()
      modifies this
      ensures Valid()
      ensures form.id in old(members) ==> members == old(members)[form.id := old(members)[form.id].(
        fullName := form.fullName, phone := Or(form.phone, ""), address := Or(form.address, ""), photo := OrNull(form.photo))]
      ensures form.id !in old(members) ==> members == old(members)
      ensures payments == old(payments) && admins == old(admins) && nextMemberId == old(nextMemberId)
      ensures deviceSync == RowSync("update", form.id, env, wire, nowIso)
    {
      if form.id in members {
        UpdateRow(members[form.id].(fullName := form.fullName, phone := Or(form.phone, ""),
          address := Or(form.address, ""), photo := OrNull(form.photo)));
      }
      deviceSync := RowSync("update", form.id, env, wire, nowIso);
    }

    /**
     * `deleteMember(id)`: a soft delete. The row is read first, then marked deleted; the device is
     * asked to delete the user only when the row was there. Always `success: true`.
     */
    method DeleteMember(id: int, env: Env, wire: H.Request -> H.Reply, nowIso: string) returns (deviceSync: DeviceSync)
      requires Valid()
      modifies this
      ensures Valid()
      ensures id in old(members) ==> members == old(members)[id := old(members)[id].(deleted := true)]
      ensures id !in old(members) ==> members == old(members)
      ensures GetMemberById(id).None?
      ensures forall j :: j != id ==> GetMemberById(j) == old(GetMemberById(j))
      ensures payments == old(payments) && admins == old(admins) && nextMemberId == old(nextMemberId)
      ensures old(GetMemberById(id)).Some? ==>
        deviceSync == SyncMemberToDevice("delete", Some(RowRecord(old(GetMemberById(id)).value)), env, wire, nowIso).sync
      ensures old(GetMemberById(id)).None? ==> deviceSync == NotAttempted("member-not-found")
    {
      var member := GetMemberById(id);
      if id in members {
        UpdateRow(members[id].(deleted := true));
      }
      if member.Some? {
        deviceSync := SyncMemberToDevice("delete", Some(RowRecord(member.value)), env, wire, nowIso).sync;
      } else {
        deviceSync := NotAttempted("member-not-found");
      }
    }

    /**
     * `renewMember({memberId, membershipType, fee, startDate})`: the expiry is computed first; the
     * row gets the new term, fee and expiry, is made active, unblocked and un-notified; one renewal
     * payment is appended; the row is re-read and sent to the device. Always `success: true`.
     * The payment insert fails its foreign key for an id with no row, after an update that
     * matched nothing.
     */
    method RenewMember(memberId: int, membershipType: string, fee: int, startDate: string,
                       env: Env, wire: H.Request -> H.Reply, nowIso: string) returns (r: RenewResult)
      requires Valid()
      modifies this
      ensures Valid()
      ensures CalcExpiry(startDate, membershipType).None? ==> r == RenewThrew(InvalidTimeValue) && unchanged(this)
      ensures CalcExpiry(startDate, membershipType).Some? && memberId !in old(members) ==>
        r == RenewThrew(ForeignKeyFailed) && unchanged(this)
      ensures CalcExpiry(startDate, membershipType).Some? && memberId in old(members) ==>
        var expiry := CalcExpiry(startDate, membershipType).value;
        && members == old(members)[memberId := old(members)[memberId].(membershipType := membershipType,
             startDate := startDate, expiryDate := expiry, fee := fee, status := "active", blocked := false,
             notificationSent := false)]
        && payments == old(payments) + [Payment(memberId, fee, startDate, "renewal", RenewalNotes(membershipType))]
        && admins == old(admins) && nextMemberId == old(nextMemberId)
        && r == Renewed(expiry, RowSync("renew", memberId, env, wire, nowIso))
    {
      var expiry := CalcExpiry(startDate, membershipType);
      if expiry.None? {
        return RenewThrew(InvalidTimeValue);
      }
      if memberId !in members {
        return RenewThrew(ForeignKeyFailed);
      }
      UpdateRow(members[memberId].(membershipType := membershipType, startDate := startDate,
        expiryDate := expiry.value, fee := fee, status := "active", blocked := false, notificationSent := false));
      InsertPayment(Payment(memberId, fee, startDate, "renewal", RenewalNotes(membershipType)));
      var deviceSync := RowSync("renew", memberId, env, wire, nowIso);
      r := Renewed(expiry.value, deviceSync);
    }

    /** `blockMember(id)`: sets `blocked` on that row, if any. */
    method BlockMember(id: int)
      requires Valid()
      modifies this
      ensures Valid()
      ensures id in old(members) ==> members == old(members)[id := old(members)[id].(blocked := true)]
      ensures id !in old(members) ==> members == old(members)
      ensures payments == old(payments) && admins == old(admins) && nextMemberId == old(nextMemberId)
    {
      if id in members {
        UpdateRow(members[id].(blocked := true));
      }
    }

    /** `unblockMember(id)`: clears `blocked` on that row, if any. */
    method UnblockMember(id: int)
      requires Valid()
      modifies this
      ensures Valid()
      ensures id in old(members) ==> members == old(members)[id := old(members)[id].(blocked := false)]
      ensures id !in old(members) ==> members == old(members)
      ensures payments == old(payments) && admins == old(admins) && nextMemberId == old(nextMemberId)
    {
      if id in members {
        UpdateRow(members[id].(blocked := false));
      }
    }

    /** `markNotificationSent(id)`: sets `notification_sent` on that row, if any. */
    method MarkNotificationSent(id: int)
      requires Valid()
      modifies this
      ensures Valid()
      ensures id in old(members) ==> members == old(members)[id := old(members)[id].(notificationSent := true)]
      ensures id !in old(members) ==> members == old(members)
      ensures payments == old(payments) && admins == old(admins) && nextMemberId == old(nextMemberId)
    {
      if id in members {
        UpdateRow(members[id].(notificationSent := true));
      }
    }

    /** `deleteAdmin(id)`: the main admin account is refused; any other id is deleted (if present). */
    method DeleteAdmin(id: int) returns (r: AdminResult)
      requires Valid()
      modifies this
      ensures Valid()
      ensures id in old(admins) && old(admins)[id].email == MainAdminEmail ==>
        r == AdminRefused("Cannot delete main admin account") && unchanged(this)
      ensures !(id in old(admins) && old(admins)[id].email == MainAdminEmail) ==>
        r == AdminDeleted && admins == old(admins) - {id}
      ensures members == old(members) && payments == old(payments) && nextMemberId == old(nextMemberId)
    {
      if id in admins && admins[id].email == MainAdminEmail {
        return AdminRefused("Cannot delete main admin account");
      }
      admins := admins - {id};
      r := AdminDeleted;
    }
  }

  /** The renewal payment's note, `Renewed: ${type.replace("_", " ")}`. */
  function RenewalNotes(membershipType: string): string
  {
    "Renewed: " + ReplaceFirst(membershipType, '_', " ")
  }

  /** A type without an underscore is noted as it is. */
  lemma RenewalNoteOfPlainType(membershipType: string)
    requires '_' !in membershipType
    ensures RenewalNotes(membershipType) == "Renewed: " + membershipType
  {
    ReplaceFirstAbsent(membershipType, '_', " ");
  }

  /** Only the first underscore of the type becomes a space: `1_month` is noted as `1 month`. */
  lemma RenewalNote(term: string, unit: string)
    requires '_' !in term
    ensures RenewalNotes(term + "_" + unit) == "Renewed: " + term + " " + unit
  {
    ReplaceFirstAt(term, '_', " ", unit);
    assert term + "_" + unit == term + ("_" + unit);
    H.AppendAssoc("Renewed: ", term + " ", unit);
  }
}
