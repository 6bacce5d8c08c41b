# PM-POSHAN authentication provider, modelled in Dafny

PM-POSHAN's `AuthProvider` gates the application behind a plaintext password
check. It keeps three pieces of state:

- the **auth record**, meaning the stored password and security answer, owned by the data store;
- the **session value** under the session-storage key `pm-poshan-auth`, which is `"true"` while a session is active;
- the in-memory **`isAuthenticated`** flag.

The provider exposes `login`, `logout`, `setupAccount` and `resetPassword`. It
restores an active session when the page loads. `useAuth` hands the provider's
value to consumers and raises an error outside a provider.

This project models that state as an immutable `AuthState` and each operation
as a pure transition. Each transition returns the boolean result where the
source returns one. The project proves:

- what each transition promises;
- how the transitions relate to one another;
- what holds over any sequence of calls.

Modules:

- `Wrappers` (`wrappers.dfy`): `Option` for absent values and `Result` for the `useAuth` error.
- `JsString` (`jsstring.dfy`): `String.prototype.trim` and `String.prototype.toLowerCase`. `Trim` is
  specified independently by `IsTrimOf`: the trimmed text is a slice with only white space outside it,
  and it neither starts nor ends with white space. For well-formed strings, the white-space set is
  exactly that of the ECMAScript WhiteSpace and LineTerminator productions. A case-insensitive
  comparison is specified independently by `EqualsIgnoringCase`.
- `Auth` (`auth.dfy`): the state, the startup restore, the four operations and the `useAuth` guard.
- `AuthLaws` (`laws.dfy`): laws across operations, such as reset followed by login, and the contrast
  between the exact password comparison and the forgiving answer comparison.
- `AuthMachine` (`machine.dfy`): traces of calls. `isAuthenticated` and the session value stay in step.
  The flag is on exactly when the most recent grant has not been followed by a logout, or when a
  session was restored at startup and no logout has come since. Logins and logouts never touch the
  record.
- `AuthScenarios` (`scenarios.dfy`): the concrete runs "abc123" / "Blue Sky " and the fresh store.

Two details of the code shape the model:

- **Empty stored password.** The guard `!data.auth?.password` (hooks/useAuth.tsx:28) refuses every
  login when no record exists. It also refuses every login when the stored password is the empty
  string, including a login with `""`.
- **Order of normalisation.** The answer check trims, then lower-cases (hooks/useAuth.tsx:52).
  `JsString.TrimCommutesWithToLower` shows that the order makes no difference.

## Model

| member | source | states |
|---|---|---|
| Auth.ReplaceAuth | hooks/useAuth.tsx:46-53 | `updateAuth` and `setupAccountData` replace the record wholesale. The session value and the flag are kept. |
| Auth.Mount | hooks/useAuth.tsx:17-18 | At mount the flag is false. The record and the session value are whatever the store and session storage hold. |
| Auth.RestoreSession | hooks/useAuth.tsx:20-25 | The mount effect turns the flag on exactly when the session value is `"true"`. It never turns the flag off, and it leaves the record and the session value unchanged. |
| Auth.Startup | hooks/useAuth.tsx:18-25 | After mount and the effect, `isAuthenticated` holds iff the session value is exactly `"true"`. |
| Auth.Authenticate | hooks/useAuth.tsx:32-33 | Opening a session sets the flag and stores `"true"`, and leaves the record unchanged. |
| Auth.Login | hooks/useAuth.tsx:27-38 | With no record or an empty stored password, the result is false and the state is unchanged. Otherwise the result is true iff the password equals the stored one exactly. Success opens a session and leaves the record unchanged. Failure changes nothing. |
| Auth.Logout | hooks/useAuth.tsx:40-43 | From any state, the flag becomes false and the session value is removed. The record is kept. |
| Auth.SetupAccount | hooks/useAuth.tsx:45-49 | From any state, the record becomes the supplied data, the flag becomes true and the session value becomes `"true"`. |
| Auth.ResetPassword | hooks/useAuth.tsx:51-57 | The result is true iff a record exists and the two answers are equal once trimmed and compared ignoring case. Success replaces only the password and keeps the security answer. Failure changes nothing. The flag and the session value never change. |
| Auth.UseAuth | hooks/useAuth.tsx:66-72 | Inside a provider, the provider's value is returned. Outside one, the usage error is returned and never a default. |
| JsString.TrimStart | hooks/useAuth.tsx:52 | The result is a suffix of the input and does not start with white space. Everything removed is white space. |
| JsString.TrimEnd | hooks/useAuth.tsx:52 | The result is a prefix of the input and does not end with white space. Everything removed is white space. |
| JsString.Trim | hooks/useAuth.tsx:52 | `trim()` meets the independent trimming specification `IsTrimOf`. |
| JsString.TrimOfIsUnique | hooks/useAuth.tsx:52 | At most one string satisfies the trimming specification for a given input. |
| JsString.TrimIsTheTrimOf | hooks/useAuth.tsx:52 | A string satisfies the trimming specification iff it equals `Trim`. |
| JsString.TrimIgnoresPadding | hooks/useAuth.tsx:52 | White space added before or after a string does not change its trim. |
| JsString.TrimOfTrimmed | hooks/useAuth.tsx:52 | A string that neither starts nor ends with white space is its own trim. |
| JsString.TrimIdempotent | hooks/useAuth.tsx:52 | Trimming twice gives the same result as trimming once. |
| JsString.LowerChar | hooks/useAuth.tsx:52 | The result is never a capital letter. A capital maps to its small letter (+32). Every other character is unchanged. |
| JsString.ToLower | hooks/useAuth.tsx:52 | `toLowerCase()` keeps the length and lower-cases every position. |
| JsString.LowerCharAgreesIffSameIgnoringCase | hooks/useAuth.tsx:52 | Two characters lower-case to the same character iff they are the same letter up to case. |
| JsString.ToLowerAgreesIffEqualsIgnoringCase | hooks/useAuth.tsx:52 | Equal lower-cased strings mean exactly a case-insensitive comparison, in both directions. |
| JsString.ToLowerIdempotent | hooks/useAuth.tsx:52 | Lower-casing twice gives the same result as lower-casing once. |
| JsString.TrimCommutesWithToLower | hooks/useAuth.tsx:52 | Trimming then lower-casing gives the same result as lower-casing then trimming. |
| AuthLaws.EmptyPasswordNeverLogsIn | hooks/useAuth.tsx:28 | With no record or an empty stored password, every login fails and changes nothing. This includes a login with `""`. |
| AuthLaws.LoginAcceptsOnlyTheStoredPassword | hooks/useAuth.tsx:31 | Two passwords that both log in are equal, and each is the stored password. |
| AuthLaws.LoginDependsOnlyOnRecord | hooks/useAuth.tsx:28-31 | Whether a login succeeds depends only on the record, not on the session value or the flag. |
| AuthLaws.LoginIsCaseSensitive | hooks/useAuth.tsx:31 | If a password works and differs from its lower-cased form, the lower-cased form fails and changes nothing. |
| AuthLaws.LoginDoesNotTrim | hooks/useAuth.tsx:31 | A working password with anything added before or after it fails. |
| AuthLaws.LoginIdempotent | hooks/useAuth.tsx:31-34 | Repeating a successful login leaves the same result and the same state. |
| AuthLaws.LogoutIdempotent | hooks/useAuth.tsx:40-43 | Logging out twice gives the same state as logging out once. |
| AuthLaws.LogoutKeepsCredentials | hooks/useAuth.tsx:40-43 | Exactly the same passwords log in after a logout as before it. |
| AuthLaws.SetupThenLogin | hooks/useAuth.tsx:45-49 | After a setup, a login succeeds iff the new password is non-empty and is supplied exactly. |
| AuthLaws.SetupThenReset | hooks/useAuth.tsx:45-53 | After a setup, the account's own security answer resets the password. |
| AuthLaws.ResetThenLogin | hooks/useAuth.tsx:31-53 | After a successful reset to `n`, `login(n)` succeeds iff `n` is non-empty. Every other password fails, the old one included. |
| AuthLaws.ResetToEmptyLocksLogin | hooks/useAuth.tsx:28-53 | A reset to the empty password makes every later login fail. |
| AuthLaws.ResetIsRepeatable | hooks/useAuth.tsx:51-57 | The answer that reset the password works again. The second reset ends where a single reset to the second password would. |
| AuthLaws.ResetIgnoresPaddingAndCase | hooks/useAuth.tsx:52 | Padding the answer with white space, or changing the case of its letters, does not change what a reset does. |
| AuthLaws.BlankStoredAnswerMatchesEmpty | hooks/useAuth.tsx:52 | If the stored answer is only white space, the empty answer resets the password. |
| AuthMachine.StartupCoherent | hooks/useAuth.tsx:18-25 | After startup, the flag is on iff the session value is `"true"`, whatever session storage held. |
| AuthMachine.StepPreservesCoherent | hooks/useAuth.tsx:27-57 | Every single operation keeps the flag and the session value in step. |
| AuthMachine.RunPreservesCoherent | hooks/useAuth.tsx:27-57 | Every sequence of operations from a coherent state ends coherent. |
| AuthMachine.AuthenticatedIffLastGrantStands | hooks/useAuth.tsx:31-48 | After any sequence of calls, the flag is on iff one of two things holds. Either some setup or successful login was not followed by a logout. Or the flag was on at the start and no logout came. |
| AuthMachine.RecordKeptWithoutSetupOrReset | hooks/useAuth.tsx:27-43 | Logins and logouts never change the record. |
| AuthMachine.ResetsKeepSession | hooks/useAuth.tsx:51-57 | Any number of resets leaves the flag and the session value as they were. |
| AuthScenarios.BlueSkyMatches | hooks/useAuth.tsx:52 | The stored answer "Blue Sky " matches the supplied " blue sky". |
| AuthScenarios.PasswordResetScenario | hooks/useAuth.tsx:18-57 | Account "abc123" / "Blue Sky ", on any page load: `login("ABC123")` fails and changes nothing, and `resetPassword(" blue sky", "xyz789")` succeeds. Without an active session, the flag is off at startup and stays off after the reset. After that, `login("xyz789")` succeeds and `login("abc123")` fails. |
| AuthScenarios.FreshStoreScenario | hooks/useAuth.tsx:18-28 | With no account, no password logs in, and the flag stays off. |
| AuthScenarios.RestoreIsExact | hooks/useAuth.tsx:21 | Only the exact value `"true"` restores a session. `"True"`, `""` and an absent value do not. |

## Left out

- React plumbing is not modelled: `createContext`, the JSX of `AuthContext.Provider` and `children`. It
  holds no logic. `useAuth` is modelled as a function of the optional context value. That value is
  represented by the provider's whole state. The real context value exposes `isAuthenticated` and the
  four operations, not the stored record or the session value.
- The `async`/`Promise` wrappers are not modelled. Every operation completes without waiting, so each
  is a pure function from state to `(result, state)`.
- The render-cycle lag of `setIsAuthenticated` is not modelled. Neither is the stale capture of `data`
  in the operations' closures. Each operation sees the current store. Between mount and the effect, the
  state is `Mount`'s, with the flag off.
- Session storage is modelled as the single `Option<string>` value under `pm-poshan-auth`. No other key
  is read or written.
- `useData`, `updateAuth` and `setupAccountData` are not part of this model. Both store calls are
  modelled as wholesale replacement of the record (`ReplaceAuth`), and any other data they touch is
  ignored.
- JsString.ToLower: lower-cases ASCII `A`–`Z` only, where JavaScript's `toLowerCase` applies full
  Unicode case mapping. Non-ASCII capitals such as `Ä` therefore do not match their small forms in this
  model.
- AuthMachine.Step: keeps the state each call leaves and drops the boolean returned to the caller.
  Those results are stated by `Auth.Login` and `Auth.ResetPassword`.
- Strings are modelled as sequences of Unicode scalar values. JavaScript strings are sequences of
  UTF-16 code units, so strings holding lone surrogates (code units 0xD800–0xDFFF standing alone) are
  outside the model. For well-formed strings, `===`, `trim()` and the white-space set are exact.
