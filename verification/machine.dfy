/**
 The provider as a state machine: any sequence of calls to its operations,
 starting from the state the mount effect leaves. Over such traces the
 in-memory flag and the session value stay in step, the flag is on exactly
 when the most recent grant of access has not been revoked by a logout (or a
 session was restored at startup and no logout has come since), and only a
 setup or a reset ever touches the stored record.
 */
module AuthMachine {
  import opened Wrappers
  import opened Auth

  /** One call a consumer of the provider can make. */
  datatype Op =
    | LoginCall(password: string)
    | LogoutCall
    | SetupAccountCall(authData: AuthRecord)
    | ResetPasswordCall(answer: string, newPassword: string)

  /** The state one call leaves behind (results returned to the caller are dropped). */
  function Step(s: AuthState, op: Op): AuthState {
    match op
    case LoginCall(p) => Login(s, p).next
    case LogoutCall => Logout(s)
    case SetupAccountCall(d) => SetupAccount(s, d)
    case ResetPasswordCall(a, n) => ResetPassword(s, a, n).next
  }

  /** The state after the calls `ops`, made in order from `s`. */
  function Run(s: AuthState, ops: seq<Op>): AuthState
    decreases |ops|
  {
    if ops == [] then s else Step(Run(s, ops[..|ops| - 1]), ops[|ops| - 1])
  }

  /** The call opens a session from `s`: an account setup, or a login that succeeds. */
  predicate Grants(s: AuthState, op: Op) {
    op.SetupAccountCall? || (op.LoginCall? && Login(s, op.password).ok)
  }

  /** The flag is on exactly when session storage holds the active value. */
  predicate Coherent(s: AuthState) {
    s.isAuthenticated <==> s.session == Some(SessionActive)
  }

  /** The state the mount effect leaves is coherent, whatever session storage held. */
  lemma StartupCoherent(auth: Option<AuthRecord>, session: Option<string>)
    ensures Coherent(Startup(auth, session))
  {
  }

  /** Every single call keeps the flag and the session value in step. */
  lemma StepPreservesCoherent(s: AuthState, op: Op)
    requires Coherent(s)
    ensures Coherent(Step(s, op))
  {
  }

  /** Every trace of calls from a coherent state, in particular from startup, ends coherent. */
  lemma {:induction false} RunPreservesCoherent(s: AuthState, ops: seq<Op>)
    requires Coherent(s)
    ensures Coherent(Run(s, ops))
    decreases |ops|
  {
    if ops != [] {
      RunPreservesCoherent(s, ops[..|ops| - 1]);
      StepPreservesCoherent(Run(s, ops[..|ops| - 1]), ops[|ops| - 1]);
    }
  }

  /** No call in `ops` after position `i` is a logout. */
  predicate NoLogoutAfter(ops: seq<Op>, i: int) {
    forall j :: 0 <= j < |ops| && i < j ==> !ops[j].LogoutCall?
  }

  /** Some call in `ops` granted access and no logout followed it. */
  ghost predicate LastGrantStands(s: AuthState, ops: seq<Op>) {
    exists i :: 0 <= i < |ops| && Grants(Run(s, ops[..i]), ops[i]) && NoLogoutAfter(ops, i)
  }

  /**
   The flag after a trace is on exactly when some call granted access and no
   logout came after it, or the flag was on at the start and no logout came at
   all. Failed logins and password resets never move it.
   */
  lemma {:induction false} AuthenticatedIffLastGrantStands(s: AuthState, ops: seq<Op>)
    ensures Run(s, ops).isAuthenticated <==> LastGrantStands(s, ops) || (s.isAuthenticated && NoLogoutAfter(ops, -1))
    decreases |ops|
  {
    if ops != [] {
      var n := |ops| - 1;
      var pre := ops[..n];
      AuthenticatedIffLastGrantStands(s, pre);
      if ops[n].LogoutCall? {
        LogoutEndsEveryGrant(s, ops);
      } else if Grants(Run(s, pre), ops[n]) {
        assert Grants(Run(s, ops[..n]), ops[n]) && NoLogoutAfter(ops, n);
      } else {
        assert Run(s, ops).isAuthenticated == Run(s, pre).isAuthenticated;
        NeutralCallKeepsGrants(s, ops);
      }
    }
  }

  /** A trace that ends in a logout has no standing grant. */
  lemma LogoutEndsEveryGrant(s: AuthState, ops: seq<Op>)
    requires |ops| > 0 && ops[|ops| - 1].LogoutCall?
    ensures !LastGrantStands(s, ops) && !NoLogoutAfter(ops, -1)
  {
    var n := |ops| - 1;
    forall i | 0 <= i < |ops|
      ensures !(Grants(Run(s, ops[..i]), ops[i]) && NoLogoutAfter(ops, i))
    {
      if i < n {
        assert ops[n].LogoutCall?;
      }
    }
  }

  /**
   A last call that neither grants access nor logs out does not change which
   grants stand.
   */
  lemma NeutralCallKeepsGrants(s: AuthState, ops: seq<Op>)
    requires |ops| > 0 && !ops[|ops| - 1].LogoutCall?
    requires !Grants(Run(s, ops[..|ops| - 1]), ops[|ops| - 1])
    ensures LastGrantStands(s, ops) <==> LastGrantStands(s, ops[..|ops| - 1])
    ensures NoLogoutAfter(ops, -1) <==> NoLogoutAfter(ops[..|ops| - 1], -1)
  {
    if LastGrantStands(s, ops) {
      StandingGrantBeforeNeutralCall(s, ops);
    }
    if LastGrantStands(s, ops[..|ops| - 1]) {
      StandingGrantSurvivesNeutralCall(s, ops);
    }
    PrefixAgrees(s, ops, -1);
  }

  lemma StandingGrantBeforeNeutralCall(s: AuthState, ops: seq<Op>)
    requires |ops| > 0 && !ops[|ops| - 1].LogoutCall?
    requires !Grants(Run(s, ops[..|ops| - 1]), ops[|ops| - 1])
    requires LastGrantStands(s, ops)
    ensures LastGrantStands(s, ops[..|ops| - 1])
  {
    var i :| 0 <= i < |ops| && Grants(Run(s, ops[..i]), ops[i]) && NoLogoutAfter(ops, i);
    assert i != |ops| - 1;
    PrefixAgrees(s, ops, i);
  }

  lemma StandingGrantSurvivesNeutralCall(s: AuthState, ops: seq<Op>)
    requires |ops| > 0 && !ops[|ops| - 1].LogoutCall?
    requires LastGrantStands(s, ops[..|ops| - 1])
    ensures LastGrantStands(s, ops)
  {
    var pre := ops[..|ops| - 1];
    var i :| 0 <= i < |pre| && Grants(Run(s, pre[..i]), pre[i]) && NoLogoutAfter(pre, i);
    PrefixAgrees(s, ops, i);
  }

  /**
   Before its last call, a trace and its prefix agree on every grant and on
   which logouts follow it, given that the last call is not a logout.
   */
  lemma PrefixAgrees(s: AuthState, ops: seq<Op>, i: int)
    requires -1 <= i < |ops| - 1
    requires !ops[|ops| - 1].LogoutCall?
    ensures 0 <= i ==> Grants(Run(s, ops[..i]), ops[i]) == Grants(Run(s, ops[..|ops| - 1][..i]), ops[..|ops| - 1][i])
    ensures NoLogoutAfter(ops, i) == NoLogoutAfter(ops[..|ops| - 1], i)
  {
    var pre := ops[..|ops| - 1];
    if 0 <= i {
      assert pre[..i] == ops[..i];
    }
    if NoLogoutAfter(pre, i) {
      forall j | 0 <= j < |ops| && i < j
        ensures !ops[j].LogoutCall?
      {
        if j < |pre| { assert ops[j] == pre[j]; }
      }
    }
  }

  /** Only a setup or a reset replaces the stored record. */
  predicate TouchesRecord(op: Op) {
    op.SetupAccountCall? || op.ResetPasswordCall?
  }

  /** A trace of logins and logouts alone leaves the stored record as it was. */
  lemma {:induction false} RecordKeptWithoutSetupOrReset(s: AuthState, ops: seq<Op>)
    requires forall j :: 0 <= j < |ops| ==> !TouchesRecord(ops[j])
    ensures Run(s, ops).auth == s.auth
    decreases |ops|
  {
    if ops != [] {
      RecordKeptWithoutSetupOrReset(s, ops[..|ops| - 1]);
    }
  }

  /** Password resets alone never open or close a session: flag and session value are as before. */
  lemma {:induction false} ResetsKeepSession(s: AuthState, ops: seq<Op>)
    requires forall j :: 0 <= j < |ops| ==> ops[j].ResetPasswordCall?
    ensures Run(s, ops).isAuthenticated == s.isAuthenticated
    ensures Run(s, ops).session == s.session
    decreases |ops|
  {
    if ops != [] {
      ResetsKeepSession(s, ops[..|ops| - 1]);
    }
  }
}
