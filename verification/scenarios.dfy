/**
 Concrete runs of the provider: a stored account whose password is "abc123"
 and whose security answer is "Blue Sky ", and a fresh store with no account.
 */
module AuthScenarios {
  import opened Wrappers
  import opened JsString
  import opened Auth
  import opened AuthLaws

  const Account: AuthRecord := AuthRecord("abc123", "Blue Sky ")

  /** The stored answer "Blue Sky " and the supplied " blue sky" agree once trimmed and lower-cased. */
  lemma BlueSkyMatches()
    ensures AnswerMatches("Blue Sky ", " blue sky")
  {
    var stored, given := "Blue Sky ", " blue sky";
    assert TrimBounds(stored, 0, 8);
    assert TrimBounds(given, 1, 9);
    TrimIsTheTrimOf(stored, stored[0..8]);
    TrimIsTheTrimOf(given, given[1..9]);
    SameLetters(stored[0..8], given[1..9]);
  }

  /** "Blue Sky" and "blue sky" differ only in the case of their capitals. */
  lemma SameLetters(a: string, b: string)
    requires a == "Blue Sky" && b == "blue sky"
    ensures EqualsIgnoringCase(a, b)
  {
    assert SameIgnoringCase(a[0], b[0]) by { assert a[0] == 'B' && b[0] == 'b'; }
    assert SameIgnoringCase(a[5], b[5]) by { assert a[5] == 'S' && b[5] == 's'; }
    forall k | 0 <= k < 8 && k != 0 && k != 5
      ensures SameIgnoringCase(a[k], b[k])
    {
      assert a[k] == b[k];
    }
  }

  /**
   On any page load: "ABC123" is refused (the password comparison is
   case-sensitive), the answer " blue sky" resets the password to "xyz789",
   which then logs in while "abc123" no longer does. Without an active session
   the flag is off at startup and the reset leaves it off.
   */
  lemma PasswordResetScenario(session: Option<string>)
    ensures session != Some(SessionActive) ==> !Startup(Some(Account), session).isAuthenticated
    ensures Login(Startup(Some(Account), session), "ABC123") == Reply(false, Startup(Some(Account), session))
    ensures ResetPassword(Startup(Some(Account), session), " blue sky", "xyz789").ok
    ensures session != Some(SessionActive) ==> !ResetPassword(Startup(Some(Account), session), " blue sky", "xyz789").next.isAuthenticated
    ensures Login(ResetPassword(Startup(Some(Account), session), " blue sky", "xyz789").next, "xyz789").ok
    ensures !Login(ResetPassword(Startup(Some(Account), session), " blue sky", "xyz789").next, "abc123").ok
  {
    var s := Startup(Some(Account), session);
    BlueSkyMatches();
    ResetThenLogin(s, " blue sky", "xyz789", "abc123");
  }

  /** With no account in the store, no password logs in and the flag stays off. */
  lemma FreshStoreScenario(session: Option<string>, password: string)
    requires session != Some(SessionActive)
    ensures !Login(Startup(None, session), password).ok
    ensures !Login(Startup(None, session), password).next.isAuthenticated
  {
    EmptyPasswordNeverLogsIn(Startup(None, session), password);
  }

  /** A reloaded page restores the session only for the exact value "true". */
  lemma RestoreIsExact(auth: Option<AuthRecord>)
    ensures Startup(auth, Some("true")).isAuthenticated
    ensures !Startup(auth, Some("True")).isAuthenticated
    ensures !Startup(auth, Some("")).isAuthenticated
    ensures !Startup(auth, None).isAuthenticated
  {
  }
}
