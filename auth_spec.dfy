/**
 * The client authentication slice (frontend/src/store/auth/authSlice.ts) as a closed
 * state machine: one snapshot of the four slice fields plus the persisted
 * `localStorage["user"]` key, one action per reducer case, and `Reduce`, the
 * transition every reducer case performs. The class in AuthSlice applies these
 * transitions in place; the lemmas here are about the transitions and traces of them.
 */
module AuthSpec {
  import opened Wrappers

  /** The user record the backend returns; the slice never looks inside it. */
  datatype User = User(id: string, email: string)

  /**
   * The slice state and the persisted key. `persisted == None` is the key absent or
   * holding "null", which rehydrate alike.
   */
  datatype Snapshot = Snapshot(
    isAuthenticated: bool,
    isLoading: bool,
    user: Option<User>,
    error: Option<string>,
    persisted: Option<User>)

  /** Defaults the rejected reducers use when the error carries no message. */
  const RegisterErrorDefault: string := "error in user registration"
  const LoginErrorDefault: string := "error in user login"
  const AuthErrorDefault: string := "Authentication failed"

  /** The message the login thunk throws on an HTTP failure; it arrives as the rejected message. */
  const LoginFailedMessage: string := "User login failed"

  /** The reducer cases: the two synchronous reducers and each thunk outcome. */
  datatype Action =
    | SetUser(payload: Option<User>)
    | SetAuthenticated(flag: bool)
    | RegisterPending
    | RegisterFulfilled
    | RegisterRejected(message: Option<string>)
    | LoginPending
    | LoginFulfilled(success: bool, data: Option<User>)
    | LoginRejected(message: Option<string>)
    | CheckAuthPending
    | CheckAuthFulfilled(success: bool)
    | CheckAuthRejected(message: Option<string>)
    | LogoutPending
    | LogoutFulfilled
    | LogoutRejected(message: Option<string>)
  {
    predicate IsPending() {
      RegisterPending? || LoginPending? || CheckAuthPending? || LogoutPending?
    }

    predicate IsSettled() {
      RegisterFulfilled? || RegisterRejected? || LoginFulfilled? || LoginRejected?
      || CheckAuthFulfilled? || CheckAuthRejected? || LogoutFulfilled? || LogoutRejected?
    }

    predicate IsRejected() {
      RegisterRejected? || LoginRejected? || CheckAuthRejected? || LogoutRejected?
    }

    predicate IsRegister() {
      RegisterPending? || RegisterFulfilled? || RegisterRejected?
    }

    /** The cases that assign `user` (and write it through to the persisted key). */
    predicate WritesUser() {
      SetUser? || LoginFulfilled? || LoginRejected? || CheckAuthRejected? || LogoutFulfilled?
    }

    /** The cases that assign `isAuthenticated`. */
    predicate WritesAuthenticated() {
      SetUser? || SetAuthenticated? || LoginFulfilled? || CheckAuthFulfilled?
      || CheckAuthRejected? || LogoutFulfilled?
    }
  }

  /**
   * `action.error?.message || fallback`: a missing or empty message gives the fallback,
   * since the empty string is falsy in JavaScript.
   */
  function OrDefault(message: Option<string>, fallback: string): (r: string)
    ensures message.Some? && message.value != "" ==> r == message.value
    ensures r == "" <==> fallback == "" && (message.None? || message.value == "")
    ensures r == fallback || message == Some(r)
  {
    if message.Some? && message.value != "" then message.value else fallback
  }

  /** `initialState`: nothing authenticated or loading, `user` rehydrated from the key. */
  function Initial(stored: Option<User>): (s: Snapshot)
    ensures !s.isAuthenticated && !s.isLoading && s.error == None
    ensures s.user == stored
    ensures Mirrors(s) && AuthImpliesUser(s)
  {
    Snapshot(false, false, stored, None, stored)
  }

  /**
   * The effect of one reducer case on the slice and the persisted key. Its contract is
   * the frame of every case: which fields it may write and what `isLoading` becomes.
   */
  function Reduce(s: Snapshot, a: Action): (r: Snapshot)
    ensures !a.WritesUser() ==> r.user == s.user && r.persisted == s.persisted
    ensures a.WritesUser() ==> r.persisted == r.user
    ensures !a.WritesAuthenticated() ==> r.isAuthenticated == s.isAuthenticated
    ensures r.isLoading == (if a.IsPending() then true
                            else if a.IsSettled() then false
                            else s.isLoading)
    ensures !a.IsRejected() ==> r.error == s.error
    ensures a.IsRejected() ==> r.error.Some? && r.error.value != ""
  {
    match a
    case SetUser(p) => s.(user := p, isAuthenticated := true, persisted := p)
    case SetAuthenticated(b) => s.(isAuthenticated := b)
    case RegisterPending => s.(isLoading := true)
    case RegisterFulfilled => s.(isLoading := false)
    case RegisterRejected(m) =>
      s.(isLoading := false, error := Some(OrDefault(m, RegisterErrorDefault)))
    case LoginPending => s.(isLoading := true)
    case LoginFulfilled(ok, data) =>
      s.(isLoading := false, user := data, isAuthenticated := ok, persisted := data)
    case LoginRejected(m) =>
      s.(isLoading := false, error := Some(OrDefault(m, LoginErrorDefault)),
         user := None, persisted := None)
    case CheckAuthPending => s.(isLoading := true)
    case CheckAuthFulfilled(ok) => s.(isLoading := false, isAuthenticated := ok)
    case CheckAuthRejected(m) =>
      s.(isLoading := false, isAuthenticated := false,
         error := Some(OrDefault(m, AuthErrorDefault)), user := None, persisted := None)
    case LogoutPending => s.(isLoading := true)
    case LogoutFulfilled =>
      s.(isLoading := false, user := None, isAuthenticated := false, persisted := None)
    case LogoutRejected(m) =>
      s.(isLoading := false, error := Some(OrDefault(m, AuthErrorDefault)))
  }

  /** The snapshot after applying a trace of reducer cases in order. */
  function Run(s: Snapshot, trace: seq<Action>): (r: Snapshot)
    ensures trace != [] && trace[|trace| - 1].IsPending() ==> r.isLoading
    ensures trace != [] && trace[|trace| - 1].IsSettled() ==> !r.isLoading
    decreases |trace|
  {
    if trace == [] then s else Run(Reduce(s, trace[0]), trace[1..])
  }

  /** The persisted key holds exactly the in-memory user. */
  predicate Mirrors(s: Snapshot) {
    s.persisted == s.user
  }

  /** The invariant the slice is meant to keep: authenticated implies a user is present. */
  predicate AuthImpliesUser(s: Snapshot) {
    s.isAuthenticated ==> s.user.Some?
  }

  /** The reducer cases that cannot break `AuthImpliesUser`. */
  predicate KeepsAuthInvariant(a: Action) {
    match a
    case SetUser(p) => p.Some?
    case SetAuthenticated(b) => !b
    case LoginFulfilled(ok, data) => !ok || data.Some?
    case LoginRejected(_) => false
    case CheckAuthFulfilled(ok) => !ok
    case _ => true
  }

  // ---------------------------------------------------------------------------
  // Single transitions

  /**
   * Exactly the cases in `KeepsAuthInvariant` preserve "authenticated implies a user"
   * from every state that satisfies it.
   */
  lemma AuthInvariantPreservedIff(a: Action)
    ensures (forall s :: AuthImpliesUser(s) ==> AuthImpliesUser(Reduce(s, a)))
            <==> KeepsAuthInvariant(a)
  {
    if !KeepsAuthInvariant(a) {
      var u := User("", "");
      var s := match a
        case LoginRejected(_) => Snapshot(true, false, Some(u), None, Some(u))
        case _ => Snapshot(false, false, None, None, None);
      assert AuthImpliesUser(s) && !AuthImpliesUser(Reduce(s, a));
    }
  }

  // ---------------------------------------------------------------------------
  // Traces

  lemma {:induction false} RunAppend(s: Snapshot, trace: seq<Action>, a: Action)
    ensures Run(s, trace + [a]) == Reduce(Run(s, trace), a)
    decreases |trace|
  {
    if trace != [] {
      assert (trace + [a])[1..] == trace[1..] + [a];
      RunAppend(Reduce(s, trace[0]), trace[1..], a);
    }
  }

  /** Every write to the key stores the new `user`, so the key mirrors `user` forever. */
  lemma {:induction false} PersistedMirrorsUser(s: Snapshot, trace: seq<Action>)
    requires Mirrors(s)
    ensures Mirrors(Run(s, trace))
    decreases |trace|
  {
    if trace != [] {
      PersistedMirrorsUser(Reduce(s, trace[0]), trace[1..]);
    }
  }

  /** No reducer case resets `error` to null: once set, some message stays. */
  lemma {:induction false} ErrorNeverCleared(s: Snapshot, trace: seq<Action>)
    requires s.error.Some?
    ensures Run(s, trace).error.Some?
    decreases |trace|
  {
    if trace != [] {
      ErrorNeverCleared(Reduce(s, trace[0]), trace[1..]);
    }
  }

  /** `error` changes only through a rejected case. */
  lemma {:induction false} ErrorChangesOnlyOnRejection(s: Snapshot, trace: seq<Action>)
    requires forall i :: 0 <= i < |trace| ==> !trace[i].IsRejected()
    ensures Run(s, trace).error == s.error
    decreases |trace|
  {
    if trace != [] {
      ErrorChangesOnlyOnRejection(Reduce(s, trace[0]), trace[1..]);
    }
  }

  /** Registration, whatever its outcomes, never changes who is logged in. */
  lemma {:induction false} RegistrationNeverLogsIn(s: Snapshot, trace: seq<Action>)
    requires forall i :: 0 <= i < |trace| ==> trace[i].IsRegister()
    ensures Run(s, trace).isAuthenticated == s.isAuthenticated
    ensures Run(s, trace).user == s.user
    ensures Run(s, trace).persisted == s.persisted
    decreases |trace|
  {
    if trace != [] {
      RegistrationNeverLogsIn(Reduce(s, trace[0]), trace[1..]);
    }
  }

  /** "Authenticated implies a user" holds along every trace made of keeping cases. */
  lemma {:induction false} SafeTraceKeepsAuthInvariant(s: Snapshot, trace: seq<Action>)
    requires AuthImpliesUser(s)
    requires forall i :: 0 <= i < |trace| ==> KeepsAuthInvariant(trace[i])
    ensures AuthImpliesUser(Run(s, trace))
    decreases |trace|
  {
    if trace != [] {
      AuthInvariantPreservedIff(trace[0]);
      SafeTraceKeepsAuthInvariant(Reduce(s, trace[0]), trace[1..]);
    }
  }

  /**
   * From a fresh start with no stored user, a successful login followed by a failed
   * one leaves the slice authenticated with no user.
   */
  lemma LoginRejectedBreaksAuthInvariant(u: User)
    ensures var t := [LoginPending, LoginFulfilled(true, Some(u)),
                      LoginPending, LoginRejected(Some(LoginFailedMessage))];
      Run(Initial(None), t) == Snapshot(true, false, None, Some(LoginFailedMessage), None)
      && !AuthImpliesUser(Run(Initial(None), t))
  {
    var login := LoginFulfilled(true, Some(u));
    var fail := LoginRejected(Some(LoginFailedMessage));
    var s0 := Initial(None);
    RunAppend(s0, [], LoginPending);
    RunAppend(s0, [LoginPending], login);
    RunAppend(s0, [LoginPending, login], LoginPending);
    RunAppend(s0, [LoginPending, login, LoginPending], fail);
    assert [LoginPending, login, LoginPending] + [fail] == [LoginPending, login, LoginPending, fail];
    assert OrDefault(Some(LoginFailedMessage), LoginErrorDefault) == LoginFailedMessage;
  }

  /**
   * On start-up with no stored user, a session check the server answers with
   * success authenticates the slice without ever setting a user.
   */
  lemma CheckAuthFulfilledBreaksAuthInvariant()
    ensures var t := [CheckAuthPending, CheckAuthFulfilled(true)];
      Run(Initial(None), t) == Snapshot(true, false, None, None, None)
      && !AuthImpliesUser(Run(Initial(None), t))
  {
    RunAppend(Initial(None), [], CheckAuthPending);
    RunAppend(Initial(None), [CheckAuthPending], CheckAuthFulfilled(true));
  }
}
