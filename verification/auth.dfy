/**
 The authentication provider of PM-POSHAN: the record kept by the data store,
 the one session-storage entry under the key `pm-poshan-auth`, and the
 in-memory `isAuthenticated` flag, with the provider's operations as pure
 transitions over that state.
 */
module Auth {
  import opened Wrappers
  import opened JsString

  /** The credentials the data store keeps: a plaintext password and the security answer. */
  datatype AuthRecord = AuthRecord(password: string, securityAnswer: string)

  /**
   Everything the provider reads or writes: the data store's record (absent
   until an account is set up), the session-storage value under
   `pm-poshan-auth` (absent when the key is not set), and the in-memory flag.
   */
  datatype AuthState = AuthState(auth: Option<AuthRecord>, session: Option<string>, isAuthenticated: bool)

  /** What `login` and `resetPassword` resolve to, together with the state they leave. */
  datatype Reply = Reply(ok: bool, next: AuthState)

  /** The value written to session storage while a session is active. */
  const SessionActive: string := "true"

  /** The message `useAuth` throws when it is called outside a provider. */
  const OutsideProviderError: string := "useAuth must be used within an AuthProvider"

  /** A string is falsy in JavaScript exactly when it is empty. */
  predicate Falsy(s: string) {
    s == []
  }

  /** The data store's `updateAuth` and `setupAccountData`: the record is replaced wholesale. */
  function ReplaceAuth(s: AuthState, rec: AuthRecord): (r: AuthState)
    ensures r.auth == Some(rec)
    ensures r.session == s.session && r.isAuthenticated == s.isAuthenticated
  {
    s.(auth := Some(rec))
  }

  /** The state at mount: `useState(false)` beside whatever the store and session storage hold. */
  function Mount(auth: Option<AuthRecord>, session: Option<string>): (r: AuthState)
    ensures !r.isAuthenticated
    ensures r.auth == auth && r.session == session
  {
    AuthState(auth, session, false)
  }

  /** The mount effect: an active session value turns the flag on; nothing ever turns it off here. */
  function RestoreSession(s: AuthState): (r: AuthState)
    ensures r.auth == s.auth && r.session == s.session
    ensures r.isAuthenticated <==> s.isAuthenticated || s.session == Some(SessionActive)
  {
    if s.session == Some(SessionActive) then s.(isAuthenticated := true) else s
  }

  /** Mounting the provider and running its effect. */
  function Startup(auth: Option<AuthRecord>, session: Option<string>): (r: AuthState)
    ensures r.isAuthenticated <==> session == Some(SessionActive)
    ensures r.auth == auth && r.session == session
  {
    RestoreSession(Mount(auth, session))
  }

  /** The guard at the head of `login`: a missing record or an empty stored password refuses every attempt. */
  predicate LoginPossible(s: AuthState) {
    s.auth.Some? && !Falsy(s.auth.value.password)
  }

  /** The state a successful login or account setup leaves: flag on, session value set. */
  function Authenticate(s: AuthState): (r: AuthState)
    ensures r.isAuthenticated && r.session == Some(SessionActive)
    ensures r.auth == s.auth
  {
    s.(isAuthenticated := true, session := Some(SessionActive))
  }

  /** `login(password)`: an exact, case-sensitive comparison with the stored password. */
  function Login(s: AuthState, password: string): (r: Reply)
    ensures !LoginPossible(s) ==> r == Reply(false, s)
    ensures r.ok <==> LoginPossible(s) && password == s.auth.value.password
    ensures r.ok ==> r.next == Authenticate(s)
    ensures !r.ok ==> r.next == s
  {
    if !LoginPossible(s) then Reply(false, s)
    else if s.auth.value.password == password then Reply(true, Authenticate(s))
    else Reply(false, s)
  }

  /** `logout()`: flag off and the session value removed, whatever the state was. */
  function Logout(s: AuthState): (r: AuthState)
    ensures !r.isAuthenticated && r.session == None
    ensures r.auth == s.auth
  {
    s.(isAuthenticated := false, session := None)
  }

  /** `setupAccount(authData)`: replaces any record and opens a session, with no precondition. */
  function SetupAccount(s: AuthState, authData: AuthRecord): (r: AuthState)
    ensures r.auth == Some(authData)
    ensures r.isAuthenticated && r.session == Some(SessionActive)
  {
    Authenticate(ReplaceAuth(s, authData))
  }

  /**
   The meaning of the security-answer check: the two answers agree once
   surrounding white space is dropped and letter case is ignored.
   */
  ghost predicate AnswerMatches(stored: string, given: string) {
    EqualsIgnoringCase(Trim(stored), Trim(given))
  }

  /** `resetPassword(answer, newPass)`: compares `trim().toLowerCase()` of both answers. */
  function ResetPassword(s: AuthState, answer: string, newPassword: string): (r: Reply)
    ensures r.ok <==> s.auth.Some? && AnswerMatches(s.auth.value.securityAnswer, answer)
    ensures r.ok ==> r.next.auth == Some(AuthRecord(newPassword, s.auth.value.securityAnswer))
    ensures !r.ok ==> r.next == s
    ensures r.next.isAuthenticated == s.isAuthenticated && r.next.session == s.session
  {
    match s.auth
    case None => Reply(false, s)
    case Some(rec) =>
      ToLowerAgreesIffEqualsIgnoringCase(Trim(rec.securityAnswer), Trim(answer));
      if ToLower(Trim(rec.securityAnswer)) == ToLower(Trim(answer)) then
        Reply(true, ReplaceAuth(s, rec.(password := newPassword)))
      else
        Reply(false, s)
  }

  /**
   `useAuth()`: the provider's value when a provider encloses the caller, and
   otherwise the usage error, never a default value. The context value is
   represented by the provider's whole state.
   */
  function UseAuth(context: Option<AuthState>): (r: Result<AuthState, string>)
    ensures r.Success? <==> context.Some?
    ensures context.Some? ==> r.value == context.value
    ensures context.None? ==> r.error == OutsideProviderError
  {
    match context
    case None => Failure(OutsideProviderError)
    case Some(value) => Success(value)
  }
}
