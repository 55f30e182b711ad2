/**
 * The failure-isolating adapter between the membership database and the terminal client
 * (src/device/deviceService.js). Every verb makes exactly one client call through `safeCall`,
 * which turns the call's outcome into a result record and never lets an error escape. A switch
 * read from the environment when the module loads disables every call.
 */
module DeviceService {
  import opened Wrappers
  import opened DeviceConfig
  import H = Hikvision

  /** `SYNC_DISABLED`: `DISABLE_DEVICE_SYNC` is exactly "1" or `NODE_ENV` is exactly "test". */
  predicate SyncDisabled(env: Env) {
    EnvValue(env, "DISABLE_DEVICE_SYNC") == Some("1") || EnvValue(env, "NODE_ENV") == Some("test")
  }

  const SkipReason := "DISABLE_DEVICE_SYNC"

  /**
   * What `safeCall` resolves to: `{synced:false, skipped:true, reason}`, `{synced:true, ...result}`
   * (the client's own fields after `synced`), or `{synced:false, error}`.
   */
  datatype SyncResult =
    | Skipped(reason: string)
    | Synced(result: H.ClientResult)
    | SyncFailed(error: string)
  {
    predicate IsSynced() { Synced? }
  }

  /**
   * `safeCall(label, fn)`. `outcome` is what `fn()` would settle to; when the switch is off it is
   * never consulted, which `Execute` makes visible by issuing no call at all.
   */
  function SafeCall(disabled: bool, outcome: H.ClientOutcome): (r: SyncResult)
    ensures disabled ==> r == Skipped(SkipReason)
    ensures !disabled && outcome.Returned? ==> r == Synced(outcome.result)
    ensures !disabled && outcome.Threw? ==> r == SyncFailed(outcome.error.message)
  {
    if disabled then Skipped(SkipReason)
    else match outcome
      case Returned(result) => Synced(result)
      case Threw(error) => SyncFailed(error.message)
  }

  /** The six public verbs of the adapter. */
  datatype Command =
    | AddUser(payload: H.UserPayload)
    | EditUser(payload: H.UserPayload)
    | RenewMembership(payload: H.UserPayload)
    | DeleteUser(employeeNo: int)
    | OpenDoor(doorNo: Option<int>)
    | GetDeviceStatus

  /** The one client call each verb delegates to. */
  function ClientCallOf(cmd: Command): (call: H.ClientCall)
    ensures cmd.AddUser? || cmd.EditUser? || cmd.RenewMembership? <==> call.AddOrUpdateUser?
    ensures call.AddOrUpdateUser? ==> call.payload == cmd.payload
    ensures cmd.DeleteUser? <==> call.DeleteUser?
    ensures cmd.DeleteUser? ==> call.employeeNo == cmd.employeeNo
    ensures cmd.OpenDoor? <==> call.OpenDoor?
    ensures cmd.OpenDoor? ==> call.doorNo == cmd.doorNo
    ensures cmd.GetDeviceStatus? <==> call.GetDeviceInfo?
  {
    match cmd
    case AddUser(p) => H.AddOrUpdateUser(p)
    case EditUser(p) => H.AddOrUpdateUser(p)
    case RenewMembership(p) => H.AddOrUpdateUser(p)
    case DeleteUser(n) => H.DeleteUser(n)
    case OpenDoor(d) => H.OpenDoor(d)
    case GetDeviceStatus => H.GetDeviceInfo
  }

  /** A verb's result together with the client calls it made, in order. */
  datatype Invocation = Invocation(result: SyncResult, issued: seq<H.ClientCall>)

  /**
   * Running a verb: with the switch off no client call is made; otherwise exactly one call goes
   * over `wire`, and its outcome is wrapped by `safeCall`.
   */
  function Execute(cmd: Command, env: Env, wire: H.Request -> H.Reply): (inv: Invocation)
    ensures SyncDisabled(env) ==> inv.issued == []
    ensures !SyncDisabled(env) ==> inv.issued == [ClientCallOf(cmd)]
  {
    if SyncDisabled(env) then Invocation(SafeCall(true, H.Returned(H.StatusResult(0))), [])
    else
      var call := ClientCallOf(cmd);
      Invocation(SafeCall(false, H.Perform(call, env, wire)), [call])
  }

  /** With the switch on, every verb resolves to the skip record and reaches no client. */
  lemma ExecuteDisabled(cmd: Command, env: Env, wire: H.Request -> H.Reply)
    requires SyncDisabled(env)
    ensures Execute(cmd, env, wire) == Invocation(Skipped(SkipReason), [])
  {
  }

  /**
   * With the switch off the verb is synced exactly when the client call resolves, and a thrown
   * error comes back as its message: `safeCall` itself never fails.
   */
  lemma ExecuteEnabled(cmd: Command, env: Env, wire: H.Request -> H.Reply)
    requires !SyncDisabled(env)
    ensures var o := H.Perform(ClientCallOf(cmd), env, wire);
      && (o.Returned? ==> Execute(cmd, env, wire).result == Synced(o.result))
      && (o.Threw? ==> Execute(cmd, env, wire).result == SyncFailed(o.error.message))
  {
  }

  /** A verb that is not skipped either synced or failed; the skip record appears only when disabled. */
  lemma SkippedOnlyWhenDisabled(cmd: Command, env: Env, wire: H.Request -> H.Reply)
    ensures Execute(cmd, env, wire).result.Skipped? <==> SyncDisabled(env)
  {
  }

  /** `addUser`, `editUser` and `renewMembership` make one upsert call with the payload unchanged. */
  lemma UpsertVerbs(p: H.UserPayload, env: Env, wire: H.Request -> H.Reply)
    requires !SyncDisabled(env)
    ensures Execute(AddUser(p), env, wire).issued == [H.AddOrUpdateUser(p)]
    ensures Execute(EditUser(p), env, wire).issued == [H.AddOrUpdateUser(p)]
    ensures Execute(RenewMembership(p), env, wire).issued == [H.AddOrUpdateUser(p)]
  {
  }

  /** Renewal is an upsert: it never asks the terminal to delete the user (or its fingerprints). */
  lemma RenewNeverDeletes(p: H.UserPayload, env: Env, wire: H.Request -> H.Reply)
    ensures forall c :: c in Execute(RenewMembership(p), env, wire).issued ==> !c.DeleteUser?
  {
  }

  /** `deleteUser`, `openDoor` and `getDeviceStatus` forward to the matching client call. */
  lemma ForwardingVerbs(employeeNo: int, doorNo: Option<int>, env: Env, wire: H.Request -> H.Reply)
    requires !SyncDisabled(env)
    ensures Execute(DeleteUser(employeeNo), env, wire).issued == [H.DeleteUser(employeeNo)]
    ensures Execute(OpenDoor(doorNo), env, wire).issued == [H.OpenDoor(doorNo)]
    ensures Execute(GetDeviceStatus, env, wire).issued == [H.GetDeviceInfo]
  {
  }
}
