/**
 * The authentication slice (src/redux/slices/authSlice.ts): its state record, the
 * actions its reducer handles, the reducer itself, and the classification of a failed
 * email sign-in. Firebase itself is not modelled: its user and multi-factor resolver
 * are plain records holding what the slice and the login screen read.
 */
module AuthSlice {

  import opened Wrappers
  import opened Text

  /** The serialised Firebase user (`user.toJSON()`), reduced to its identity. */
  datatype User = User(uid: string, email: Option<string>, phoneNumber: Option<string>)

  /** A multi-factor hint of the resolver. */
  datatype Hint = Hint(factorId: string, phoneNumber: Option<string>)

  /** Firebase's multi-factor resolver: the enrolled second factors and the sign-in session. */
  datatype MFAResolver = MFAResolver(hints: seq<Hint>, session: string)

  /** `AuthState`; a TypeScript `null` is None. */
  datatype AuthState = AuthState(
    user: Option<User>,
    isLoading: bool,
    error: Option<string>,
    requiresMFA: bool,
    verificationId: Option<string>,
    mfaResolver: Option<MFAResolver>,
    phoneNumberForMFA: Option<string>)

  /** `initialState`: signed out, idle, no error, no multi-factor step under way. */
  function InitialState(): (s: AuthState)
    ensures s.user.None? && !s.isLoading && s.error.None?
    ensures !s.requiresMFA && s.verificationId.None? && s.mfaResolver.None? && s.phoneNumberForMFA.None?
  {
    AuthState(None, false, None, false, None, None, None)
  }

  /** The slice's async thunks. */
  datatype Thunk =
    | SignInWithEmail | SendMFACode | VerifyMFACode | EnrollMFA | ConfirmMFAEnrollment
    | SignInWithPhone | VerifyPhoneCode | ClearError | CheckAuthState

  /** The thunks whose pending and rejected actions the reducer handles; the last two have neither. */
  predicate HasLoadingCases(t: Thunk) {
    t != ClearError && t != CheckAuthState
  }

  /** The fulfilled payload of `signInWithEmail`. */
  datatype SignInPayload = SignInPayload(
    user: Option<User>,
    requiresMFA: bool,
    mfaResolver: Option<MFAResolver>,
    phoneNumberForMFA: Option<string>)

  /** Every action that reaches the reducer. */
  datatype AuthAction =
    | Pending(thunk: Thunk)
    | Rejected(thunk: Thunk, payload: Option<string>)
    | SignInFulfilled(signIn: SignInPayload)
    | SendMFACodeFulfilled(sentId: Option<string>)
    | VerifyMFACodeFulfilled(mfaUser: User)
    | SignInWithPhoneFulfilled(phoneId: Option<string>)
    | VerifyPhoneCodeFulfilled(phoneUser: User)
    | EnrollMFAFulfilled(enrollId: Option<string>, enrolledPhone: string)
    | ConfirmMFAEnrollmentFulfilled
    | CheckAuthStateFulfilled(currentUser: Option<User>)
    | ClearErrorFulfilled
    | ClearMFAState
    | SignOut
    | SetUser(newUser: Option<User>)

  /** Who is signed in and where the multi-factor step stands are the same in both states. */
  ghost predicate SameSession(s: AuthState, t: AuthState) {
    && t.user == s.user
    && t.requiresMFA == s.requiresMFA
    && t.verificationId == s.verificationId
    && t.mfaResolver == s.mfaResolver
    && t.phoneNumberForMFA == s.phoneNumberForMFA
  }

  /** The four multi-factor fields are cleared. */
  predicate MFACleared(s: AuthState) {
    !s.requiresMFA && s.verificationId.None? && s.mfaResolver.None? && s.phoneNumberForMFA.None?
  }

  /** The slice reducer: `reducers` and `extraReducers`. */
  function Reduce(s: AuthState, a: AuthAction): (t: AuthState)
    ensures a.Pending? && HasLoadingCases(a.thunk) ==> t.isLoading && t.error.None? && SameSession(s, t)
    ensures a.Rejected? && HasLoadingCases(a.thunk) ==> !t.isLoading && t.error == a.payload && SameSession(s, t)
    ensures (a.Pending? || a.Rejected?) && !HasLoadingCases(a.thunk) ==> t == s
    ensures a.SignInFulfilled? ==>
      && !t.isLoading && t.error == s.error && t.verificationId == s.verificationId
      && (a.signIn.requiresMFA ==>
            t.requiresMFA && t.user.None? && t.mfaResolver == a.signIn.mfaResolver
            && t.phoneNumberForMFA == a.signIn.phoneNumberForMFA)
      && (!a.signIn.requiresMFA ==>
            !t.requiresMFA && t.user == a.signIn.user && t.mfaResolver.None? && t.phoneNumberForMFA.None?)
    ensures a.VerifyMFACodeFulfilled? ==>
      !t.isLoading && t.user == Some(a.mfaUser) && MFACleared(t) && t.error == s.error
    ensures a.SendMFACodeFulfilled? || a.SignInWithPhoneFulfilled? || a.EnrollMFAFulfilled? ==>
      && !t.isLoading && t.error == s.error && t.user == s.user && t.requiresMFA == s.requiresMFA
      && t.mfaResolver == s.mfaResolver && t.phoneNumberForMFA == s.phoneNumberForMFA
      && t.verificationId == (if a.SendMFACodeFulfilled? then a.sentId
                              else if a.SignInWithPhoneFulfilled? then a.phoneId else a.enrollId)
    ensures a.VerifyPhoneCodeFulfilled? ==>
      && !t.isLoading && t.error == s.error && t.user == Some(a.phoneUser) && t.verificationId.None?
      && t.requiresMFA == s.requiresMFA && t.mfaResolver == s.mfaResolver && t.phoneNumberForMFA == s.phoneNumberForMFA
    ensures a.ConfirmMFAEnrollmentFulfilled? ==> !t.isLoading && t.error == s.error && SameSession(s, t)
    ensures a.CheckAuthStateFulfilled? ==>
      !t.isLoading && t.user == a.currentUser && t.error == s.error
      && t.requiresMFA == s.requiresMFA && t.verificationId == s.verificationId
      && t.mfaResolver == s.mfaResolver && t.phoneNumberForMFA == s.phoneNumberForMFA
    ensures a.ClearErrorFulfilled? ==> t.error.None? && t.isLoading == s.isLoading && SameSession(s, t)
    ensures a.ClearMFAState? ==> MFACleared(t) && t.user == s.user && t.isLoading == s.isLoading && t.error == s.error
    ensures a.SignOut? ==> t == InitialState()
    ensures a.SetUser? ==>
      t.user == a.newUser && t.isLoading == s.isLoading && t.error == s.error
      && t.requiresMFA == s.requiresMFA && t.verificationId == s.verificationId
      && t.mfaResolver == s.mfaResolver && t.phoneNumberForMFA == s.phoneNumberForMFA
  {
    match a
    case Pending(thunk) =>
      if HasLoadingCases(thunk) then s.(isLoading := true, error := None) else s
    case Rejected(thunk, payload) =>
      if HasLoadingCases(thunk) then s.(isLoading := false, error := payload) else s
    case SignInFulfilled(p) =>
      if p.requiresMFA then
        s.(isLoading := false, requiresMFA := true, mfaResolver := p.mfaResolver,
           phoneNumberForMFA := p.phoneNumberForMFA, user := None)
      else
        s.(isLoading := false, user := p.user, requiresMFA := false, mfaResolver := None,
           phoneNumberForMFA := None)
    case SendMFACodeFulfilled(id) => s.(isLoading := false, verificationId := id)
    case VerifyMFACodeFulfilled(u) =>
      s.(isLoading := false, user := Some(u), requiresMFA := false, mfaResolver := None,
         verificationId := None, phoneNumberForMFA := None)
    case SignInWithPhoneFulfilled(id) => s.(isLoading := false, verificationId := id)
    case VerifyPhoneCodeFulfilled(u) => s.(isLoading := false, user := Some(u), verificationId := None)
    case EnrollMFAFulfilled(id, _) => s.(isLoading := false, verificationId := id)
    case ConfirmMFAEnrollmentFulfilled => s.(isLoading := false)
    case CheckAuthStateFulfilled(u) => s.(user := u, isLoading := false)
    case ClearErrorFulfilled => s.(error := None)
    case ClearMFAState =>
      s.(requiresMFA := false, verificationId := None, mfaResolver := None, phoneNumberForMFA := None)
    case SignOut => InitialState()
    case SetUser(u) => s.(user := u)
  }

  /** The state after a sequence of actions, applied in order. */
  function ReduceAll(s: AuthState, actions: seq<AuthAction>): AuthState
    decreases |actions|
  {
    if |actions| == 0 then s
    else Reduce(ReduceAll(s, actions[..|actions| - 1]), actions[|actions| - 1])
  }

  /**
   * What an action does to the loading flag, read off the thunk life cycle rather than
   * the reducer: a handled pending starts loading, every handled settlement and a
   * sign-out stop it, and the rest leave it alone.
   */
  function LoadingEffect(a: AuthAction): Option<bool> {
    match a
    case Pending(thunk) => if HasLoadingCases(thunk) then Some(true) else None
    case Rejected(thunk, _) => if HasLoadingCases(thunk) then Some(false) else None
    case ClearErrorFulfilled => None
    case ClearMFAState => None
    case SetUser(_) => None
    case _ => Some(false)
  }

  /** The loading flag after `actions`: the effect of the last action that has one. */
  function LoadingAfter(initial: bool, actions: seq<AuthAction>): bool
    decreases |actions|
  {
    if |actions| == 0 then initial
    else match LoadingEffect(actions[|actions| - 1])
      case Some(b) => b
      case None => LoadingAfter(initial, actions[..|actions| - 1])
  }

  /** The spinner shows exactly when the last loading-relevant action was a pending one. */
  lemma {:induction false} LoadingTracksLastEvent(s: AuthState, actions: seq<AuthAction>)
    ensures ReduceAll(s, actions).isLoading == LoadingAfter(s.isLoading, actions)
    decreases |actions|
  {
    if |actions| > 0 {
      LoadingTracksLastEvent(s, actions[..|actions| - 1]);
    }
  }

  /**
   * The multi-factor fields agree with each other: a resolver is held exactly while a
   * second factor is required, and a phone label is then held too.
   */
  predicate MFAConsistent(s: AuthState) {
    && (s.requiresMFA <==> s.mfaResolver.Some?)
    && (s.requiresMFA ==> s.phoneNumberForMFA.Some?)
  }

  /** The payloads `signInWithEmail` can fulfil with: the MFA branch carries a resolver and a phone label, the other neither. */
  predicate WellFormedSignIn(p: SignInPayload) {
    && (p.requiresMFA ==> p.mfaResolver.Some? && p.phoneNumberForMFA.Some? && p.user.None?)
    && (!p.requiresMFA ==> p.mfaResolver.None? && p.phoneNumberForMFA.None?)
  }

  predicate WellFormedAction(a: AuthAction) {
    a.SignInFulfilled? ==> WellFormedSignIn(a.signIn)
  }

  lemma ReducePreservesMFAConsistency(s: AuthState, a: AuthAction)
    requires MFAConsistent(s) && WellFormedAction(a)
    ensures MFAConsistent(Reduce(s, a))
  {
  }

  /** From the initial state, any sequence of well-formed actions keeps the multi-factor fields consistent. */
  lemma {:induction false} MFAConsistencyInvariant(actions: seq<AuthAction>)
    requires forall i :: 0 <= i < |actions| ==> WellFormedAction(actions[i])
    ensures MFAConsistent(ReduceAll(InitialState(), actions))
    decreases |actions|
  {
    if |actions| > 0 {
      var prefix := actions[..|actions| - 1];
      MFAConsistencyInvariant(prefix);
      ReducePreservesMFAConsistency(ReduceAll(InitialState(), prefix), actions[|actions| - 1]);
    }
  }

  /** Sign-out wipes whatever came before it. */
  lemma SignOutForgetsHistory(s: AuthState, actions: seq<AuthAction>)
    ensures ReduceAll(s, actions + [SignOut]) == InitialState()
  {
    assert (actions + [SignOut])[..|actions|] == actions;
  }

  // Error classification of `signInWithEmail`.

  const MFARequiredCode := "auth/multi-factor-auth-required"
  /** `auth.PhoneMultiFactorGenerator.FACTOR_ID`. */
  const PhoneFactorId := "phone"
  const RegisteredPhoneFallback := "your registered phone"
  const NoPhoneFactorMessage := "MFA required but no phone factor available"
  const SignInFailedMessage := "Sign in failed"

  /** The caught error: its code and message, and the resolver Firebase derives from it. */
  datatype SignInError = SignInError(code: string, message: Option<string>, resolver: MFAResolver)

  /** `resolver.hints.filter(hint => hint.factorId === FACTOR_ID)`. */
  function PhoneHints(hints: seq<Hint>): (ps: seq<Hint>)
    ensures forall h :: h in ps <==> h in hints && h.factorId == PhoneFactorId
    decreases |hints|
  {
    if |hints| == 0 then []
    else if hints[0].factorId == PhoneFactorId then [hints[0]] + PhoneHints(hints[1..])
    else PhoneHints(hints[1..])
  }

  /** The filter keeps order: its head is the first phone hint of the list. */
  lemma {:induction false} FirstPhoneHint(hints: seq<Hint>)
    requires |PhoneHints(hints)| > 0
    ensures exists i :: 0 <= i < |hints| && hints[i] == PhoneHints(hints)[0] &&
                        forall j :: 0 <= j < i ==> hints[j].factorId != PhoneFactorId
    decreases |hints|
  {
    if hints[0].factorId == PhoneFactorId {
      assert hints[0] == PhoneHints(hints)[0];
    } else {
      FirstPhoneHint(hints[1..]);
      var k :| 0 <= k < |hints[1..]| && hints[1..][k] == PhoneHints(hints[1..])[0]
        && forall j :: 0 <= j < k ==> hints[1..][j].factorId != PhoneFactorId;
      forall j | 0 <= j < k + 1
        ensures hints[j].factorId != PhoneFactorId
      {
        if j > 0 {
          assert hints[j] == hints[1..][j - 1];
        }
      }
      assert hints[k + 1] == PhoneHints(hints)[0];
    }
  }

  /**
   * The catch branch of `signInWithEmail`: an MFA-required error with a phone hint
   * fulfils with the MFA payload; otherwise the thunk is rejected with a message.
   */
  function ClassifySignIn(e: SignInError): (r: Result<SignInPayload, string>)
    ensures r.Success? <==> e.code == MFARequiredCode && exists h :: h in e.resolver.hints && h.factorId == PhoneFactorId
    ensures r.Success? ==>
      && r.value.requiresMFA && r.value.user.None? && r.value.mfaResolver == Some(e.resolver)
      && exists i :: 0 <= i < |e.resolver.hints| && e.resolver.hints[i].factorId == PhoneFactorId
           && (forall j :: 0 <= j < i ==> e.resolver.hints[j].factorId != PhoneFactorId)
           && r.value.phoneNumberForMFA == Some(if Truthy(e.resolver.hints[i].phoneNumber) then e.resolver.hints[i].phoneNumber.value else RegisteredPhoneFallback)
    ensures e.code == MFARequiredCode && r.Failure? ==> r.error == NoPhoneFactorMessage
    ensures e.code != MFARequiredCode ==> r == Failure(if Truthy(e.message) then e.message.value else SignInFailedMessage)
  {
    if e.code == MFARequiredCode then
      var phoneHints := PhoneHints(e.resolver.hints);
      if |phoneHints| > 0 then
        var hint := phoneHints[0];
        FirstPhoneHint(e.resolver.hints);
        var phone := if Truthy(hint.phoneNumber) then hint.phoneNumber.value else RegisteredPhoneFallback;
        Success(SignInPayload(None, true, Some(e.resolver), Some(phone)))
      else
        assert forall h :: h in e.resolver.hints && h.factorId == PhoneFactorId ==> h in phoneHints;
        Failure(NoPhoneFactorMessage)
    else Failure(if Truthy(e.message) then e.message.value else SignInFailedMessage)
  }

  /** The payload of a sign-in that needed no second factor. */
  function SignedIn(user: User): (p: SignInPayload)
    ensures p.user == Some(user) && !p.requiresMFA
  {
    SignInPayload(Some(user), false, None, None)
  }

  /** Both ways `signInWithEmail` can fulfil produce payloads the reducer keeps consistent. */
  lemma SignInPayloadsWellFormed(user: User, e: SignInError)
    ensures WellFormedSignIn(SignedIn(user))
    ensures ClassifySignIn(e).Success? ==> WellFormedSignIn(ClassifySignIn(e).value)
  {
  }

  /** The action `signInWithEmail` dispatches when it settles after a caught error. */
  function SettleSignInError(e: SignInError): (a: AuthAction)
    ensures a.SignInFulfilled? || (a.Rejected? && a.thunk == SignInWithEmail && a.payload.Some?)
    ensures a.SignInFulfilled? <==> ClassifySignIn(e).Success?
    ensures ClassifySignIn(e).Success? ==> a == SignInFulfilled(ClassifySignIn(e).value)
    ensures ClassifySignIn(e).Failure? ==> a == Rejected(SignInWithEmail, Some(ClassifySignIn(e).error))
  {
    match ClassifySignIn(e)
    case Success(p) => SignInFulfilled(p)
    case Failure(m) => Rejected(SignInWithEmail, Some(m))
  }

  /**
   * A sign-in that fails with an ordinary error leaves the user signed out, idle and
   * showing the error's message (or the fallback), with no multi-factor step begun.
   */
  lemma FailedSignInShowsMessage(e: SignInError)
    requires e.code != MFARequiredCode
    ensures var s := ReduceAll(InitialState(), [Pending(SignInWithEmail), SettleSignInError(e)]);
      && s.user.None? && !s.isLoading && MFACleared(s)
      && s.error == Some(if Truthy(e.message) then e.message.value else SignInFailedMessage)
  {
    var actions: seq<AuthAction> := [Pending(SignInWithEmail), SettleSignInError(e)];
    var s0 := InitialState();
    var s1 := Reduce(s0, Pending(SignInWithEmail));
    assert actions[..1] == [Pending(SignInWithEmail)];
    assert ReduceAll(s0, actions[..1]) == s1 by {
      assert actions[..1][..0] == [];
    }
    assert ReduceAll(s0, actions) == Reduce(s1, actions[1]);
  }
}
