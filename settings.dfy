/**
 * The password-change form of the settings page (src/pages/Settings.jsx): two checks in the
 * renderer, then one call to the main process, whose reply decides the banner and whether the
 * form is cleared.
 */
module Settings {
  import opened Wrappers

  datatype PasswordForm = PasswordForm(currentPassword: string, newPassword: string, confirmPassword: string)

  const EmptyForm := PasswordForm("", "", "")

  /** The banner: `{type, text}`. */
  datatype Banner = Banner(kind: string, text: string)

  /** What `changePassword` resolves to. */
  datatype ChangeReply = PasswordChanged | PasswordRefused(message: string)

  const TooShort := "Password must be at least 6 characters"
  const Mismatch := "Passwords do not match"
  const Updated := "Password updated successfully!"

  /** `s.length`: UTF-16 code units, two for a character outside the Basic Multilingual Plane. */
  function Utf16Length(s: string): (n: nat)
  {
    if s == [] then 0 else (if s[0] as int > 0xFFFF then 2 else 1) + Utf16Length(s[1..])
  }

  /** A text has at least as many code units as characters, and at most twice as many. */
  lemma {:induction false} Utf16LengthBounds(s: string)
    ensures |s| <= Utf16Length(s) <= 2 * |s|
  {
    if s != [] {
      Utf16LengthBounds(s[1..]);
    }
  }

  /** The first guard that fails, if any: the length check comes before the comparison. */
  function PasswordError(form: PasswordForm): (e: Option<string>)
    ensures e.None? <==> Utf16Length(form.newPassword) >= 6 && form.newPassword == form.confirmPassword
    ensures Utf16Length(form.newPassword) < 6 ==> e == Some(TooShort)
    ensures Utf16Length(form.newPassword) >= 6 && form.newPassword != form.confirmPassword ==> e == Some(Mismatch)
  {
    if Utf16Length(form.newPassword) < 6 then Some(TooShort)
    else if form.newPassword != form.confirmPassword then Some(Mismatch)
    else None
  }

  /** Six characters always pass the length check; fewer than three never do. */
  lemma LengthCheckByCharacters(form: PasswordForm)
    ensures |form.newPassword| >= 6 ==> PasswordError(form) != Some(TooShort)
    ensures |form.newPassword| < 3 ==> PasswordError(form) == Some(TooShort)
  {
    Utf16LengthBounds(form.newPassword);
  }

  /** The page's state, and the forms handed to `changePassword`, in order. */
  class SettingsPage {
    var form: PasswordForm
    var banner: Option<Banner>
    var loading: bool
    var calls: seq<PasswordForm>

    constructor ()
      ensures form == EmptyForm && banner == None && !loading && calls == []
    {
      form := EmptyForm;
      banner := None;
      loading := false;
      calls := [];
    }

    /**
     * `handleChangePassword`, with `reply` standing for what the call would resolve to: a failed
     * guard only sets the error banner; otherwise the form is sent once, the banner reports the
     * reply, and only a success clears the form.
     */
    method HandleChangePassword(reply: ChangeReply)
      modifies this
      ensures PasswordError(old(form)).Some? ==>
        && banner == Some(Banner("error", PasswordError(old(form)).value))
        && form == old(form) && loading == old(loading) && calls == old(calls)
      ensures PasswordError(old(form)).None? ==>
        && calls == old(calls) + [old(form)] && !loading
        && banner == Some(if reply.PasswordChanged? then Banner("success", Updated) else Banner("error", reply.message))
        && form == (if reply.PasswordChanged? then EmptyForm else old(form))
    {
      if Utf16Length(form.newPassword) < 6 {
        banner := Some(Banner("error", TooShort));
        return;
      }
      if form.newPassword != form.confirmPassword {
        banner := Some(Banner("error", Mismatch));
        return;
      }
      loading := true;
      calls := calls + [form];
      banner := Some(if reply.PasswordChanged? then Banner("success", Updated) else Banner("error", reply.message));
      if reply.PasswordChanged? {
        form := EmptyForm;
      }
      loading := false;
    }
  }
}
