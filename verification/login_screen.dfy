/**
 * The decision logic of the login screen (src/screens/LoginScreen.tsx): the form's
 * local state, what each handler dispatches or alerts, the two effects, and which of
 * the three views is rendered. The screen reads the auth slice's state.
 */
module LoginScreen {

  import opened Wrappers
  import opened Text
  import AuthSlice

  /** The `useState` fields. */
  datatype LoginForm = LoginForm(
    email: string,
    password: string,
    phoneNumber: string,
    verificationCode: string,
    isPhoneLogin: bool,
    isVerifyingPhone: bool)

  function InitialForm(): LoginForm {
    LoginForm("", "", "", "", false, false)
  }

  /** The thunks and actions the screen dispatches, with their arguments. */
  datatype Request =
    | SignInWithEmailRequest(email: string, password: string)
    | SendMFACodeRequest(resolver: AuthSlice.MFAResolver)
    | VerifyMFACodeRequest(mfaId: string, mfaCode: string, mfaResolver: AuthSlice.MFAResolver)
    | SignInWithPhoneRequest(phoneNumber: string)
    | VerifyPhoneCodeRequest(phoneId: string, phoneCode: string)
    | ClearErrorRequest
    | ClearMFAStateRequest

  /** A handler's visible effect: an alert or a dispatch. */
  datatype Command = ShowAlert(message: string) | Dispatch(request: Request)

  const MissingCredentialsMessage := "Please enter email and password"
  const BadCodeMessage := "Please enter a 6-digit verification code"
  const MissingPhoneMessage := "Please enter phone number"
  const CodeLength := 6

  /** `handleEmailLogin`. */
  function HandleEmailLogin(f: LoginForm): (c: Command)
    ensures c.Dispatch? <==> f.email != "" && f.password != ""
    ensures c.Dispatch? ==> c.request == SignInWithEmailRequest(f.email, f.password)
    ensures c.ShowAlert? ==> c.message == MissingCredentialsMessage
  {
    if f.email == "" || f.password == "" then ShowAlert(MissingCredentialsMessage)
    else Dispatch(SignInWithEmailRequest(f.email, f.password))
  }

  /** The code check shared by both verify handlers: only the length counts, not the characters. */
  predicate CodeAccepted(code: string) {
    code != "" && |code| == CodeLength
  }

  /** `handleVerifyMFACode`: None when the code is accepted but the id or resolver is missing. */
  function HandleVerifyMFACode(f: LoginForm, s: AuthSlice.AuthState): (c: Option<Command>)
    ensures c == Some(ShowAlert(BadCodeMessage)) <==> |f.verificationCode| != CodeLength
    ensures c.Some? && c.value.Dispatch? <==>
      |f.verificationCode| == CodeLength && Truthy(s.verificationId) && s.mfaResolver.Some?
    ensures c.Some? && c.value.Dispatch? ==>
      c.value.request == VerifyMFACodeRequest(s.verificationId.value, f.verificationCode, s.mfaResolver.value)
  {
    if !CodeAccepted(f.verificationCode) then Some(ShowAlert(BadCodeMessage))
    else if Truthy(s.verificationId) && s.mfaResolver.Some? then
      Some(Dispatch(VerifyMFACodeRequest(s.verificationId.value, f.verificationCode, s.mfaResolver.value)))
    else None
  }

  /** `handlePhoneLogin`. */
  function HandlePhoneLogin(f: LoginForm): (c: Command)
    ensures c.Dispatch? <==> f.phoneNumber != ""
    ensures c.Dispatch? ==> c.request == SignInWithPhoneRequest(f.phoneNumber)
    ensures c.ShowAlert? ==> c.message == MissingPhoneMessage
  {
    if f.phoneNumber == "" then ShowAlert(MissingPhoneMessage)
    else Dispatch(SignInWithPhoneRequest(f.phoneNumber))
  }

  /** `handleVerifyPhoneCode`: None when the code is accepted but there is no verification id. */
  function HandleVerifyPhoneCode(f: LoginForm, s: AuthSlice.AuthState): (c: Option<Command>)
    ensures c == Some(ShowAlert(BadCodeMessage)) <==> |f.verificationCode| != CodeLength
    ensures c.Some? && c.value.Dispatch? <==> |f.verificationCode| == CodeLength && Truthy(s.verificationId)
    ensures c.Some? && c.value.Dispatch? ==>
      c.value.request == VerifyPhoneCodeRequest(s.verificationId.value, f.verificationCode)
  {
    if !CodeAccepted(f.verificationCode) then Some(ShowAlert(BadCodeMessage))
    else if Truthy(s.verificationId) then
      Some(Dispatch(VerifyPhoneCodeRequest(s.verificationId.value, f.verificationCode)))
    else None
  }

  /** `handleResendCode`: the MFA resolver first, then phone sign-in, otherwise nothing. */
  function HandleResendCode(f: LoginForm, s: AuthSlice.AuthState): (r: Option<Request>)
    ensures s.mfaResolver.Some? ==> r == Some(SendMFACodeRequest(s.mfaResolver.value))
    ensures s.mfaResolver.None? ==>
      (r.Some? <==> f.isPhoneLogin && f.phoneNumber != "")
      && (r.Some? ==> r.value == SignInWithPhoneRequest(f.phoneNumber))
  {
    if s.mfaResolver.Some? then Some(SendMFACodeRequest(s.mfaResolver.value))
    else if f.isPhoneLogin && f.phoneNumber != "" then Some(SignInWithPhoneRequest(f.phoneNumber))
    else None
  }

  /** A handler's effect on the form, and what it dispatches, in order. */
  datatype FormUpdate = FormUpdate(form: LoginForm, requests: seq<Request>)

  /** `handleBackFromMFA`: clears the MFA state and the code, password and phone-verification flag. */
  function HandleBackFromMFA(f: LoginForm): (r: FormUpdate)
    ensures r.requests == [ClearMFAStateRequest]
    ensures r.form.verificationCode == "" && r.form.password == "" && !r.form.isVerifyingPhone
    ensures r.form.email == f.email && r.form.phoneNumber == f.phoneNumber && r.form.isPhoneLogin == f.isPhoneLogin
  {
    FormUpdate(f.(verificationCode := "", password := "", isVerifyingPhone := false), [ClearMFAStateRequest])
  }

  /** `toggleLoginMethod`: switch method, leave phone verification, clear the error, MFA state and every field. */
  function ToggleLoginMethod(f: LoginForm): (r: FormUpdate)
    ensures r.form.isPhoneLogin == !f.isPhoneLogin && !r.form.isVerifyingPhone
    ensures r.form.email == "" && r.form.password == "" && r.form.phoneNumber == "" && r.form.verificationCode == ""
    ensures r.requests == [ClearErrorRequest, ClearMFAStateRequest]
  {
    FormUpdate(LoginForm("", "", "", "", !f.isPhoneLogin, false), [ClearErrorRequest, ClearMFAStateRequest])
  }

  /** Toggling twice returns to the original method with a cleared form. */
  lemma ToggleTwiceRestoresMethod(f: LoginForm)
    ensures ToggleLoginMethod(ToggleLoginMethod(f).form).form == InitialForm().(isPhoneLogin := f.isPhoneLogin)
  {
  }

  /** The auto-send effect: the resolver to send an MFA code with, if it fires. */
  function AutoSendMFA(s: AuthSlice.AuthState): (r: Option<AuthSlice.MFAResolver>)
    ensures r.Some? <==> s.requiresMFA && s.mfaResolver.Some? && !Truthy(s.verificationId)
    ensures r.Some? ==> r == s.mfaResolver
  {
    if s.requiresMFA && s.mfaResolver.Some? && !Truthy(s.verificationId) then s.mfaResolver else None
  }

  /** The phone-login effect: enter phone verification once a code was sent outside an MFA sign-in. */
  function PhoneVerifyingEffect(f: LoginForm, s: AuthSlice.AuthState): (g: LoginForm)
    ensures g.isVerifyingPhone <==> f.isVerifyingPhone || (f.isPhoneLogin && Truthy(s.verificationId) && !s.requiresMFA)
    ensures g == f.(isVerifyingPhone := g.isVerifyingPhone)
  {
    if f.isPhoneLogin && Truthy(s.verificationId) && !s.requiresMFA then f.(isVerifyingPhone := true) else f
  }

  datatype LoginView = MFAView | PhoneVerificationView | MainView

  /** Which of the three screens renders; the MFA view wins over phone verification. */
  function SelectView(f: LoginForm, s: AuthSlice.AuthState): (v: LoginView)
    ensures v == MFAView <==> s.requiresMFA && Truthy(s.verificationId)
    ensures v == PhoneVerificationView <==> !s.requiresMFA && f.isVerifyingPhone && Truthy(s.verificationId)
    ensures v == MainView <==> !Truthy(s.verificationId) || (!s.requiresMFA && !f.isVerifyingPhone)
  {
    if s.requiresMFA && Truthy(s.verificationId) then MFAView
    else if f.isVerifyingPhone && Truthy(s.verificationId) then PhoneVerificationView
    else MainView
  }

  /**
   * The auth-slice actions the toggle's two dispatches produce, in arrival order:
   * `clearError` is a thunk, so its pending action comes at once and its fulfilled action
   * only after the synchronous `clearMFAState`.
   */
  function ToggleActions(): seq<AuthSlice.AuthAction> {
    [AuthSlice.Pending(AuthSlice.ClearError), AuthSlice.ClearMFAState, AuthSlice.ClearErrorFulfilled]
  }

  /**
   * Toggling the method always lands on the main view with no error and no MFA step,
   * and keeps whoever is signed in and the loading flag.
   */
  lemma ToggleShowsMainView(f: LoginForm, s: AuthSlice.AuthState)
    ensures var t := AuthSlice.ReduceAll(s, ToggleActions());
      && SelectView(ToggleLoginMethod(f).form, t) == MainView && t.error.None? && AuthSlice.MFACleared(t)
      && t.user == s.user && t.isLoading == s.isLoading
  {
    var actions := ToggleActions();
    var s1 := AuthSlice.Reduce(s, actions[0]);
    var s2 := AuthSlice.Reduce(s1, actions[1]);
    assert actions[..1] == [actions[0]] && actions[..1][..0] == [];
    assert AuthSlice.ReduceAll(s, actions[..1]) == s1;
    assert actions[..2][..1] == actions[..1];
    assert AuthSlice.ReduceAll(s, actions[..2]) == s2;
    assert actions[..3] == actions;
  }

  /**
   * An MFA-required sign-in makes the screen send the code by itself; once the code is
   * sent the MFA view shows and the effect stops firing.
   */
  lemma MFASignInShowsMFAView(s: AuthSlice.AuthState, e: AuthSlice.SignInError, f: LoginForm, id: string)
    requires AuthSlice.ClassifySignIn(e).Success?
    requires !Truthy(s.verificationId) && id != ""
    ensures var t := AuthSlice.Reduce(s, AuthSlice.SettleSignInError(e));
      && AutoSendMFA(t) == Some(e.resolver)
      && var u := AuthSlice.Reduce(AuthSlice.Reduce(t, AuthSlice.Pending(AuthSlice.SendMFACode)), AuthSlice.SendMFACodeFulfilled(Some(id)));
         SelectView(f, u) == MFAView && AutoSendMFA(u).None?
  {
  }
}
