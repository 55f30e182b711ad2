/**
 * The signed-in administrator and the permission check of the renderer
 * (src/contexts/AuthContext.jsx). `sessionStorage["gymAdmin"]` is modelled as the stored admin
 * record itself; its JSON text is left out.
 */
module AuthContext {
  import opened Wrappers

  /** The admin record `login` hands back (the password hash is never part of it). */
  datatype AdminView = AdminView(id: int, name: string, email: string, role: string)

  /** What `window.gymAPI.login` resolves to. */
  datatype LoginResult =
    | LoginOk(admin: AdminView)
    | LoginRefused(message: string)
  {
    predicate Success() { LoginOk? }
  }

  /** The permissions of every role other than `admin`. */
  const SubAdminPermissions: seq<string> := ["add_member", "add_payment", "view_attendance", "scan_fingerprint"]

  /** `can(permission)` for the admin currently signed in (None when nobody is). */
  predicate Can(admin: Option<AdminView>, permission: string) {
    if admin.None? then false
    else if admin.value.role == "admin" then true
    else permission in SubAdminPermissions
  }

  /**
   * Nobody signed in can do nothing; `admin` can do everything; every other role can do exactly
   * the four listed things.
   */
  lemma CanByRole(admin: Option<AdminView>, permission: string)
    ensures admin.None? ==> !Can(admin, permission)
    ensures admin.Some? && admin.value.role == "admin" ==> Can(admin, permission)
    ensures admin.Some? && admin.value.role != "admin" ==>
      (Can(admin, permission) <==>
        permission == "add_member" || permission == "add_payment"
        || permission == "view_attendance" || permission == "scan_fingerprint")
  {
  }

  /** Role `admin` holds every permission any other signed-in role holds. */
  lemma AdminCanDoMore(a: AdminView, b: AdminView, permission: string)
    requires a.role == "admin" && Can(Some(b), permission)
    ensures Can(Some(a), permission)
  {
  }

  /** Whether a permission depends only on the role, never on who holds it. */
  lemma CanDependsOnRoleOnly(a: AdminView, b: AdminView, permission: string)
    requires a.role == b.role
    ensures Can(Some(a), permission) == Can(Some(b), permission)
  {
  }

  /** The provider's state: `admin`, `loading`, and the session copy of the admin. */
  class AuthState {
    var admin: Option<AdminView>
    var loading: bool
    var stored: Option<AdminView>

    /** The first render: nobody signed in yet and the spinner showing; the session survives reloads. */
    constructor (session: Option<AdminView>)
      ensures admin == None && loading && stored == session
    {
      admin := None;
      loading := true;
      stored := session;
    }

    /** The mount effect: a stored admin is taken over, and loading ends. */
    method Restore()
      modifies this
      ensures admin == (if stored.Some? then stored else old(admin))
      ensures stored == old(stored) && !loading
    {
      if stored.Some? {
        admin := stored;
      }
      loading := false;
    }

    /** `login`: a successful result signs its admin in and stores it; a refusal changes nothing. */
    method Login(result: LoginResult) returns (r: LoginResult)
      modifies this
      ensures r == result && loading == old(loading)
      ensures result.Success() ==> admin == Some(result.admin) && stored == Some(result.admin)
      ensures !result.Success() ==> admin == old(admin) && stored == old(stored)
    {
      if result.Success() {
        admin := Some(result.admin);
        stored := Some(result.admin);
      }
      r := result;
    }

    /** `logout`: loading starts, and the admin and its session copy are cleared. */
    method Logout()
      modifies this
      ensures admin == None && stored == None && loading
      ensures forall p :: !Can(admin, p)
    {
      loading := true;
      admin := None;
      stored := None;
    }
  }
}
