/**
 * The sign-on page: its three modes (sign in, sign up, password reset),
 * the form validators, the gate in front of the submit handlers, and the
 * notice and mode changes that follow a request's outcome. The identity
 * provider's answers are parameters of the outcome methods.
 */
module SignOn {
  import opened Wrappers
  import opened Strings
  import opened AuthErrors

  datatype Mode = SignIn | SignUp | Reset

  /** The form's values. */
  datatype Values = Values(name: string, email: string, password: string, remember: bool)

  /** The message of each field's validator, `None` when the field passes. */
  datatype Errors = Errors(email: Option<string>, password: Option<string>, name: Option<string>)

  predicate NoErrors(e: Errors) {
    e.email.None? && e.password.None? && e.name.None?
  }

  /** `/^\S+@\S+$/.test(s)`: no white space anywhere, and an "@" with at
      least one character before it and one after it. */
  predicate ValidEmail(s: string) {
    NoSpace(s) && |s| >= 3 && '@' in s[1..|s| - 1]
  }

  /** An address is accepted exactly when it is two non-empty runs of
      non-space characters around an "@" (which may themselves hold "@"). */
  lemma ValidEmailIff(s: string)
    ensures ValidEmail(s) <==> exists a, b :: s == a + "@" + b && a != "" && b != "" && NoSpace(a) && NoSpace(b)
  {
    if ValidEmail(s) {
      var a, b := ValidEmailSplits(s);
    }
    if exists a, b :: s == a + "@" + b && a != "" && b != "" && NoSpace(a) && NoSpace(b) {
      var a, b :| s == a + "@" + b && a != "" && b != "" && NoSpace(a) && NoSpace(b);
      SplitIsValidEmail(a, b);
    }
  }

  lemma ValidEmailSplits(s: string) returns (a: string, b: string)
    requires ValidEmail(s)
    ensures s == a + "@" + b && a != "" && b != "" && NoSpace(a) && NoSpace(b)
  {
    var j :| 0 <= j < |s| - 2 && s[1..|s| - 1][j] == '@';
    var i := j + 1;
    a, b := s[..i], s[i + 1..];
    assert s == a + "@" + b;
    forall k | 0 <= k < |a| ensures !IsSpace(a[k]) { assert a[k] == s[k]; }
    forall k | 0 <= k < |b| ensures !IsSpace(b[k]) { assert b[k] == s[i + 1 + k]; }
  }

  lemma SplitIsValidEmail(a: string, b: string)
    requires a != "" && b != "" && NoSpace(a) && NoSpace(b)
    ensures ValidEmail(a + "@" + b)
  {
    var s := a + "@" + b;
    assert s[|a|] == '@' && s[1..|s| - 1][|a| - 1] == '@';
    forall k | 0 <= k < |s| ensures !IsSpace(s[k]) {
      if k < |a| { assert s[k] == a[k]; }
      else if k > |a| { assert s[k] == b[k - |a| - 1]; }
    }
  }

  /** The validators of the form, in the given mode. */
  function Validate(mode: Mode, v: Values): (r: Errors)
    ensures r.email.None? <==> ValidEmail(v.email)
    ensures r.password.None? <==> mode == Reset || |v.password| >= 6
    ensures r.name.None? <==> mode != SignUp || !AllSpace(v.name)
  {
    TrimEmptyIff(v.name);
    Errors(
      if ValidEmail(v.email) then None else Some("Invalid email"),
      if mode == Reset then None else if |v.password| >= 6 then None else Some("Min 6 chars"),
      if mode == SignUp then (if Trim(v.name) != "" then None else Some("Required")) else None)
  }

  /** The request a submit of the form starts, if any. */
  datatype Request = NoRequest
                   | SendReset(email: string)
                   | SignInWith(email: string, password: string)
                   | SignUpWith(email: string, password: string)

  /** What a submit of the form does: the reset mode sends the reset mail
      without validating; the other modes run their handler only when no
      validator objects. */
  function SubmitRequest(mode: Mode, v: Values): (r: Request)
    ensures mode == Reset ==> r == SendReset(v.email)
    ensures mode != Reset ==> (r != NoRequest <==> NoErrors(Validate(mode, v)))
    ensures mode == SignIn && r != NoRequest ==> r == SignInWith(v.email, v.password)
    ensures mode == SignUp && r != NoRequest ==> r == SignUpWith(v.email, v.password)
  {
    if mode == Reset then SendReset(v.email)
    else if !NoErrors(Validate(mode, v)) then NoRequest
    else if mode == SignIn then SignInWith(v.email, v.password)
    else SignUpWith(v.email, v.password)
  }

  /** Outside the reset mode a request is started only with a well-formed
      address and a password of six characters or more, and a sign-up also
      needs a name. */
  lemma SubmitNeedsValidForm(mode: Mode, v: Values)
    requires mode != Reset && SubmitRequest(mode, v) != NoRequest
    ensures ValidEmail(v.email) && |v.password| >= 6
    ensures mode == SignUp ==> Trim(v.name) != ""
  {
    TrimEmptyIff(v.name);
  }

  /** The buttons that change the mode. */
  datatype Button = ForgotPassword | SignUpLink | SignInLink | BackToSignIn

  /** The mode a button leads to, `None` when the button is not shown in
      the current mode. */
  function Transition(mode: Mode, b: Button): (r: Option<Mode>)
    ensures r.Some? ==> r.value != mode
  {
    match b
    case ForgotPassword => if mode == SignIn then Some(Reset) else None
    case SignUpLink => if mode == SignIn then Some(SignUp) else None
    case SignInLink => if mode == SignUp then Some(SignIn) else None
    case BackToSignIn => if mode == Reset then Some(SignIn) else None
  }

  /** The mode graph: sign in leads to sign up and to reset, and both lead
      back only to sign in. */
  lemma TransitionEdges(m: Mode, n: Mode)
    ensures (exists b :: Transition(m, b) == Some(n))
        <==> (m == SignIn && (n == SignUp || n == Reset)) || (m != SignIn && n == SignIn)
  {
    if m == SignIn && n == SignUp { assert Transition(m, SignUpLink) == Some(n); }
    if m == SignIn && n == Reset { assert Transition(m, ForgotPassword) == Some(n); }
    if m == SignUp && n == SignIn { assert Transition(m, SignInLink) == Some(n); }
    if m == Reset && n == SignIn { assert Transition(m, BackToSignIn) == Some(n); }
  }

  datatype Notice = Error(message: string) | Success(message: string)

  const RESET_SENT := "Password reset email sent. Check your inbox."
  const RESET_FAILED := "Unable to send reset email."

  /** The notice a failed federated sign-in shows: the error's own message,
      or a default when it has none. */
  function GoogleFailureNotice(message: Option<string>): (r: Notice)
    ensures r.Error? && r.message != ""
    ensures message.Some? && message.value != "" ==> r.message == message.value
    ensures !(message.Some? && message.value != "") ==> r.message == "Google sign-in failed."
  {
    if message.Some? && message.value != "" then Error(message.value) else Error("Google sign-in failed.")
  }

  /** The federated sign-in fails with the rethrown error, whose message
      is `mapError` of the provider's code and never empty, so the form's
      fallback text is out of reach. */
  lemma GoogleNoticeOfRethrown(code: Option<string>)
    ensures GoogleFailureNotice(Some(Rethrown(code).message)) == Error(MapError(code))
    ensures GoogleFailureNotice(Some(Rethrown(code).message)).message != "Google sign-in failed."
  {
    assert "Google sign-in failed." !in MESSAGES;
  }

  class SignOnPage {
    var mode: Mode
    var loading: bool
    var notice: Option<Notice>
    var values: Values
    var errors: Errors
    /** Whether the page has navigated to the home page. */
    var wentHome: bool

    constructor()
      ensures mode == SignIn && !loading && notice.None? && !wentHome
      ensures values == Values("", "", "", true) && NoErrors(errors)
    {
      mode := SignIn;
      loading := false;
      notice := None;
      values := Values("", "", "", true);
      errors := Errors(None, None, None);
      wentHome := false;
    }

    /** A click on a mode button, which is shown only in its mode. */
    method Press(b: Button)
      requires Transition(mode, b).Some?
      modifies this`mode
      ensures mode == old(Transition(mode, b)).value
    {
      mode := Transition(mode, b).value;
    }

    /** The form's submit: the reset mode goes straight to its handler;
      the others validate first, show the errors and call the handler only
      when there are none. */
    method Submit() returns (req: Request)
      modifies this`loading, this`errors
      ensures req == SubmitRequest(mode, values)
      ensures loading == (req != NoRequest || old(loading))
      ensures errors == if mode == Reset then old(errors) else Validate(mode, values)
    {
      req := SubmitRequest(mode, values);
      if mode != Reset {
        errors := Validate(mode, values);
      }
      if req != NoRequest {
        loading := true;
      }
    }

    /** The end of an e-mail sign-in or sign-up. On failure the helper has
      rethrown the provider's error with code `providerCode` as
      `new Error(mapError(providerCode))`, and the form's chain reads the
      code of that new error, which has none. */
    method SubmitDone(ok: bool, providerCode: Option<string>)
      modifies this`loading, this`notice, this`wentHome
      ensures !loading
      ensures ok ==> wentHome && notice == old(notice)
      ensures !ok ==> wentHome == old(wentHome) && notice == Some(Error(SubmitMessage(Rethrown(providerCode).code)))
      ensures !ok ==> notice == Some(Error(FAILED))
    {
      if ok {
        wentHome := true;
      } else {
        var caught := Rethrown(providerCode);
        FormMessageOfRethrown(providerCode);
        notice := Some(Error(SubmitMessage(caught.code)));
      }
      loading := false;
    }

    /** The end of a password-reset request: a sent mail returns to the
      sign-in mode. */
    method ResetDone(ok: bool)
      modifies this`loading, this`notice, this`mode
      ensures !loading
      ensures ok ==> notice == Some(Success(RESET_SENT)) && mode == SignIn
      ensures !ok ==> notice == Some(Error(RESET_FAILED)) && mode == old(mode)
    {
      if ok {
        notice := Some(Success(RESET_SENT));
        mode := SignIn;
      } else {
        notice := Some(Error(RESET_FAILED));
      }
      loading := false;
    }

    /** The start of the federated sign-in. */
    method GoogleBegin()
      modifies this`loading
      ensures loading
    {
      loading := true;
    }

    /** The end of the federated sign-in. */
    method GoogleDone(ok: bool, message: Option<string>)
      modifies this`loading, this`notice, this`wentHome
      ensures !loading
      ensures ok ==> wentHome && notice == old(notice)
      ensures !ok ==> wentHome == old(wentHome) && notice == Some(GoogleFailureNotice(message))
    {
      if ok {
        wentHome := true;
      } else {
        notice := Some(GoogleFailureNotice(message));
      }
      loading := false;
    }

    /** Typing in a field or ticking the checkbox: the form holds the new
        values, which the next submit reads. */
    method Input(v: Values)
      modifies this`values
      ensures values == v
    {
      values := v;
    }

    /** The timer that hides a notice after six seconds. */
    method NoticeExpired()
      modifies this`notice
      ensures notice.None?
    {
      notice := None;
    }
  }
}
