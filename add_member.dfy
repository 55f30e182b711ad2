/**
 * The add/edit member form (src/pages/AddMember.jsx): the fee follows the membership type, and
 * the submit handler turns the main process's reply into a warning, an error or a success.
 */
module AddMember {
  import opened Wrappers
  import opened JsBuiltins
  import Db
  import DeviceConfig
  import H = Hikvision

  /** A form field's value: text from an input, a number, or `undefined`. */
  datatype FieldValue = Text(s: string) | Number(n: NumberValue) | Undefined

  /** The form object, field name to value. */
  type Form = map<string, FieldValue>

  /** `DEF_FEES[type]`; a type it does not list reads as `undefined`. */
  function DefaultFee(membershipType: string): (v: FieldValue)
    ensures membershipType == "1_month" ==> v == Number(Num(3000))
    ensures membershipType == "3_months" ==> v == Number(Num(8000))
    ensures membershipType == "1_year" ==> v == Number(Num(25000))
    ensures membershipType !in {"1_month", "3_months", "1_year"} ==> v == Undefined
  {
    if membershipType == "1_month" then Number(Num(3000))
    else if membershipType == "3_months" then Number(Num(8000))
    else if membershipType == "1_year" then Number(Num(25000))
    else Undefined
  }

  /** The first render's form; `today` is `format(new Date(), "yyyy-MM-dd")`. */
  function InitialForm(today: string): (f: Form)
    ensures "membership_type" in f && "membership_fee" in f && f["membership_type"].Text?
    ensures f["membership_fee"] == DefaultFee(f["membership_type"].s)
  {
    map[
      "full_name" := Text(""), "phone" := Text(""), "address" := Text(""),
      "membership_type" := Text("1_month"), "start_date" := Text(today),
      "membership_fee" := DefaultFee("1_month")]
  }

  /**
   * `handleChange`: the field takes the input's text; a change of `membership_type` also resets
   * the fee to that type's default, and any other change leaves every other field alone.
   */
  function HandleChange(form: Form, name: string, value: string): (r: Form)
    ensures r.Keys == form.Keys + {name} + (if name == "membership_type" then {"membership_fee"} else {})
    ensures name == "membership_type" ==> r[name] == Text(value) && r["membership_fee"] == DefaultFee(value)
    ensures name == "membership_type" ==>
      forall k :: k in form && k != name && k != "membership_fee" ==> r[k] == form[k]
    ensures name != "membership_type" ==> r[name] == Text(value)
    ensures name != "membership_type" ==> forall k :: k in form && k != name ==> r[k] == form[k]
  {
    var f := form[name := Text(value)];
    if name == "membership_type" then f["membership_fee" := DefaultFee(value)] else f
  }

  /** `handleFeeChange`: the fee becomes `Number(text)`, which may be NaN. */
  function HandleFeeChange(form: Form, text: string): (r: Form)
    ensures r.Keys == form.Keys + {"membership_fee"}
    ensures r["membership_fee"] == Number(StringToNumber(text))
    ensures forall k :: k in form && k != "membership_fee" ==> r[k] == form[k]
  {
    form["membership_fee" := Number(StringToNumber(text))]
  }

  /** `setType`: the type card sets the type and its default fee. */
  function SetType(form: Form, v: string): (r: Form)
    ensures r.Keys == form.Keys + {"membership_type", "membership_fee"}
    ensures r["membership_type"] == Text(v) && r["membership_fee"] == DefaultFee(v)
    ensures forall k :: k in form && k != "membership_type" && k != "membership_fee" ==> r[k] == form[k]
  {
    form["membership_type" := Text(v)]["membership_fee" := DefaultFee(v)]
  }

  /** Choosing the type from the select and from the cards gives the same form. */
  lemma TypeRoutesAgree(form: Form, v: string)
    ensures HandleChange(form, "membership_type", v) == SetType(form, v)
  {
  }

  /** After a type change, by either route, the fee is the type's default until it is edited. */
  lemma FeeFollowsType(form: Form, v: string, other: string, text: string)
    requires other != "membership_type" && other != "membership_fee"
    ensures var f := HandleChange(HandleChange(form, "membership_type", v), other, text);
      f["membership_fee"] == DefaultFee(v)
  {
  }

  // ---------------------------------------------------------------- submit

  /** The `deviceSync` record as the renderer reads it. */
  datatype SyncView = SyncView(synced: bool, skipped: bool, error: Option<string>)

  /** `addMember`/`updateMember`'s reply: `success`, `message` and `deviceSync` (each may be absent). */
  datatype SaveReply = SaveReply(success: bool, message: Option<string>, deviceSync: Option<SyncView>)

  /** The request the page sends: `addMember(form)`, or `updateMember({...form, id: Number(id)})`. */
  datatype SaveCall = AddCall(form: Form) | UpdateCall(form: Form, id: NumberValue)

  /** `a || fallback` on an optional text: undefined and "" both fall back. */
  function TextOr(o: Option<string>, fallback: string): (r: string)
    ensures o.Some? && o.value != "" ==> r == o.value
    ensures !(o.Some? && o.value != "") ==> r == fallback
  {
    if o.Some? && o.value != "" then o.value else fallback
  }

  /** The added member's device sync failed without being skipped. */
  predicate ShowsWarning(isEdit: bool, reply: SaveReply) {
    !isEdit && reply.success && reply.deviceSync.Some?
    && !reply.deviceSync.value.synced && !reply.deviceSync.value.skipped
  }

  const WarningPrefix := "Member saved, but device sync failed: "
  const WarningSuffix := ". The member was NOT added to the Hikvision terminal."

  function WarningText(view: SyncView): string {
    WarningPrefix + TextOr(view.error, "unknown error") + WarningSuffix
  }

  class AddMemberPage {
    var loading: bool
    var error: string
    var deviceWarn: string
    var success: bool
    /** The save requests sent, in order. */
    var sent: seq<SaveCall>
    /** The routes scheduled by `navigate`, in order. */
    var navigations: seq<string>

    constructor ()
      ensures !loading && error == "" && deviceWarn == "" && !success && sent == [] && navigations == []
    {
      loading := false;
      error := "";
      deviceWarn := "";
      success := false;
      sent := [];
      navigations := [];
    }

    /**
     * `handleSubmit`: exactly one save request is sent (an update when the route has an id);
     * then a successful add whose sync failed shows the warning and stays, any other success
     * navigates to `/members`, a failed reply shows its message or "Failed to save", and a
     * rejection shows the error's message. `settled` stands for what the request resolves to.
     */
    method HandleSubmit(form: Form, id: Option<string>, settled: Settled<SaveReply>)
      modifies this
      ensures var isEdit := id.Some? && id.value != "";
        && sent == old(sent) + [if isEdit then UpdateCall(form, StringToNumber(id.value)) else AddCall(form)]
        && !loading
        && (settled.Rejected? ==>
              error == settled.message && deviceWarn == "" && success == old(success) && navigations == old(navigations))
        && (settled.Resolved? && !settled.value.success ==>
              error == TextOr(settled.value.message, "Failed to save") && deviceWarn == ""
              && success == old(success) && navigations == old(navigations))
        && (settled.Resolved? && ShowsWarning(isEdit, settled.value) ==>
              deviceWarn == WarningText(settled.value.deviceSync.value) && error == ""
              && success == old(success) && navigations == old(navigations))
        && (settled.Resolved? && settled.value.success && !ShowsWarning(isEdit, settled.value) ==>
              success && navigations == old(navigations) + ["/members"] && error == "" && deviceWarn == "")
    {
      var isEdit := id.Some? && id.value != "";
      loading := true;
      error := "";
      deviceWarn := "";
      sent := sent + [if isEdit then UpdateCall(form, StringToNumber(id.value)) else AddCall(form)];
      match settled {
        case Rejected(message) =>
          error := message;
        case Resolved(reply) =>
          if reply.success {
            if ShowsWarning(isEdit, reply) {
              deviceWarn := WarningText(reply.deviceSync.value);
            } else {
              success := true;
              navigations := navigations + ["/members"];
            }
          } else {
            error := TextOr(reply.message, "Failed to save");
          }
      }
      loading := false;
    }
  }

  /** How the renderer reads a `deviceSync` record made by the database layer. */
  function ViewOf(ds: Db.DeviceSync): (v: SyncView)
    ensures v.synced == ds.Synced() && v.skipped == ds.Skipped() && v.error == ds.Error()
  {
    SyncView(ds.Synced(), ds.Skipped(), ds.Error())
  }

  /** `addMember`'s reply as the renderer receives it. */
  function ReplyOf(r: Db.AddResult): (s: Settled<SaveReply>)
    ensures r.Added? ==> s == Resolved(SaveReply(true, None, Some(ViewOf(r.deviceSync))))
    ensures r.AddThrew? ==> s.Rejected?
  {
    match r
    case Added(_, _, ds) => Resolved(SaveReply(true, None, Some(ViewOf(ds))))
    case AddThrew(message) => Rejected(message)
  }

  /**
   * The warning can never appear for a member the database layer really added: a freshly inserted
   * member has a positive id, so its sync is always synced or skipped, even after a device failure.
   */
  lemma AddedMemberNeverWarns(form: Db.MemberForm, id: int, expiry: string, env: DeviceConfig.Env,
                              wire: H.Request -> H.Reply, nowIso: string)
    requires id >= 1
    ensures var ds := Db.SyncMemberToDevice("add", Some(Db.NewMemberRecord(form, id, expiry)), env, wire, nowIso).sync;
      !ShowsWarning(false, ReplyOf(Db.Added(id, expiry, ds)).value)
  {
    Db.AddNeverLogsFailure(form, id, expiry, env, wire, nowIso);
  }
}
