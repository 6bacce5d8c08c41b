/**
 Laws relating the provider's operations to one another: what a login can and
 cannot accept, how a password reset changes what a login accepts, and the
 contrast between the exact password comparison and the forgiving
 security-answer comparison.
 */
module AuthLaws {
  import opened Wrappers
  import opened JsString
  import opened Auth

  /** With no record, or an empty stored password, every login fails and nothing changes, even for "". */
  lemma EmptyPasswordNeverLogsIn(s: AuthState, password: string)
    requires s.auth.None? || s.auth.value.password == ""
    ensures Login(s, password) == Reply(false, s)
    ensures Login(s, "") == Reply(false, s)
  {
  }

  /** At most one password opens a given state, and it is the stored one. */
  lemma LoginAcceptsOnlyTheStoredPassword(s: AuthState, p: string, q: string)
    requires Login(s, p).ok && Login(s, q).ok
    ensures p == q && s.auth == Some(s.auth.value.(password := p))
  {
  }

  /** Whether a login succeeds depends on the stored record alone, not on the session or the flag. */
  lemma LoginDependsOnlyOnRecord(s: AuthState, t: AuthState, password: string)
    requires s.auth == t.auth
    ensures Login(s, password).ok == Login(t, password).ok
  {
  }

  /** The password comparison is case-sensitive: a different-case spelling of the password fails. */
  lemma LoginIsCaseSensitive(s: AuthState, password: string)
    requires Login(s, password).ok && ToLower(password) != password
    ensures !Login(s, ToLower(password)).ok
    ensures Login(s, ToLower(password)).next == s
  {
  }

  /** The password comparison does not trim: padding a working password makes it fail. */
  lemma LoginDoesNotTrim(s: AuthState, password: string, pad: string)
    requires Login(s, password).ok && pad != []
    ensures !Login(s, pad + password).ok && !Login(s, password + pad).ok
  {
    assert |pad + password| != |password|;
    assert |password + pad| != |password|;
  }

  /** A successful login repeated leaves the same state: the transition is idempotent. */
  lemma LoginIdempotent(s: AuthState, password: string)
    requires Login(s, password).ok
    ensures Login(Login(s, password).next, password) == Login(s, password)
  {
  }

  /** Logging out twice is logging out once. */
  lemma LogoutIdempotent(s: AuthState)
    ensures Logout(Logout(s)) == Logout(s)
  {
  }

  /** Logging out keeps the credentials: exactly the same passwords open the state afterwards. */
  lemma LogoutKeepsCredentials(s: AuthState, password: string)
    ensures Login(Logout(s), password).ok == Login(s, password).ok
    ensures Login(Logout(s), password).ok ==> Login(Logout(s), password).next == Login(s, password).next
  {
  }

  /** After an account is set up, a login succeeds exactly with its password, provided that is non-empty. */
  lemma SetupThenLogin(s: AuthState, authData: AuthRecord, password: string)
    ensures Login(SetupAccount(s, authData), password).ok <==> authData.password != "" && password == authData.password
  {
  }

  /** After an account is set up, its own security answer resets the password. */
  lemma SetupThenReset(s: AuthState, authData: AuthRecord, newPassword: string)
    ensures ResetPassword(SetupAccount(s, authData), authData.securityAnswer, newPassword).ok
  {
    var t := Trim(authData.securityAnswer);
    assert EqualsIgnoringCase(t, t) by {
      forall k | 0 <= k < |t|
        ensures SameIgnoringCase(t[k], t[k])
      {
      }
    }
  }

  /**
   After a successful reset to `newPassword`, a login succeeds with
   `newPassword` exactly when it is non-empty, and never with any other
   password, the old one included.
   */
  lemma ResetThenLogin(s: AuthState, answer: string, newPassword: string, other: string)
    requires ResetPassword(s, answer, newPassword).ok
    ensures Login(ResetPassword(s, answer, newPassword).next, newPassword).ok <==> newPassword != ""
    ensures other != newPassword ==> !Login(ResetPassword(s, answer, newPassword).next, other).ok
  {
  }

  /** A reset to the empty password locks every login out until the next reset or setup. */
  lemma ResetToEmptyLocksLogin(s: AuthState, answer: string, password: string)
    requires ResetPassword(s, answer, "").ok
    ensures !Login(ResetPassword(s, answer, "").next, password).ok
  {
  }

  /** A reset keeps the security answer, so the same answer works for the next reset too. */
  lemma ResetIsRepeatable(s: AuthState, answer: string, p1: string, p2: string)
    requires ResetPassword(s, answer, p1).ok
    ensures ResetPassword(ResetPassword(s, answer, p1).next, answer, p2).ok
    ensures ResetPassword(ResetPassword(s, answer, p1).next, answer, p2).next == ResetPassword(s, answer, p2).next
  {
  }

  /**
   The answer comparison forgives what the password comparison does not:
   surrounding white space and ASCII letter case in the supplied answer make
   no difference to the outcome.
   */
  lemma ResetIgnoresPaddingAndCase(s: AuthState, answer: string, variant: string, pre: string, post: string, newPassword: string)
    requires AllWhiteSpace(pre) && AllWhiteSpace(post)
    requires EqualsIgnoringCase(answer, variant)
    ensures ResetPassword(s, pre + variant + post, newPassword) == ResetPassword(s, answer, newPassword)
  {
    TrimIgnoresPadding(pre, variant, post);
    ToLowerAgreesIffEqualsIgnoringCase(answer, variant);
    TrimCommutesWithToLower(answer);
    TrimCommutesWithToLower(variant);
    ToLowerAgreesIffEqualsIgnoringCase(Trim(answer), Trim(variant));
    if s.auth.Some? {
      var stored := Trim(s.auth.value.securityAnswer);
      ToLowerAgreesIffEqualsIgnoringCase(stored, Trim(answer));
      ToLowerAgreesIffEqualsIgnoringCase(stored, Trim(variant));
    }
  }

  /** A stored answer that is only white space is matched by an empty answer: anyone can reset it. */
  lemma BlankStoredAnswerMatchesEmpty(s: AuthState, newPassword: string)
    requires s.auth.Some? && AllWhiteSpace(s.auth.value.securityAnswer)
    ensures ResetPassword(s, "", newPassword).ok
  {
    var a := s.auth.value.securityAnswer;
    TrimIgnoresPadding(a, "", []);
    assert a + "" + [] == a;
    assert Trim("") == [] by {
      TrimIsTheTrimOf("", "");
      assert TrimBounds("", 0, 0);
    }
  }
}
