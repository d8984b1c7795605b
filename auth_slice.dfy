/**
 * The auth slice as the store holds it (frontend/src/store/auth/authSlice.ts): an
 * object whose reducer cases update its fields in place, and which writes through to
 * the persisted `localStorage["user"]` key. Each method is one reducer case; its
 * contract states every field afterwards and ties the new state to `AuthSpec.Reduce`.
 */
module AuthSlice {
  import opened Wrappers
  import AuthSpec

  class AuthState {
    var isAuthenticated: bool
    var isLoading: bool
    var user: Option<AuthSpec.User>
    var error: Option<string>
    /** Stands for `localStorage["user"]`; `None` is the key absent or "null". */
    var persisted: Option<AuthSpec.User>

    /** The slice state and the persisted key as one value. */
    function Model(): AuthSpec.Snapshot
      reads this
    {
      AuthSpec.Snapshot(isAuthenticated, isLoading, user, error, persisted)
    }

    /** The persisted key mirrors `user`: the same invariant `AuthSpec.Mirrors` states of a snapshot. */
    predicate Valid()
      reads this
      ensures Valid() <==> AuthSpec.Mirrors(Model())
    {
      persisted == user
    }

    /** `initialState`, rehydrating `user` from what the key holds at start-up. */
    constructor (stored: Option<AuthSpec.User>)
      ensures Valid()
      ensures !isAuthenticated && !isLoading && error == None
      ensures user == stored && persisted == stored
      ensures Model() == AuthSpec.Initial(stored)
    {
      isAuthenticated := false;
      isLoading := false;
      user := stored;
      error := None;
      persisted := stored;
    }

    /** `setUser(payload)` */
    method SetUser(payload: Option<AuthSpec.User>)
      requires Valid()
      modifies this
      ensures Valid()
      ensures user == payload && isAuthenticated && persisted == payload
      ensures isLoading == old(isLoading) && error == old(error)
      ensures Model() == AuthSpec.Reduce(old(Model()), AuthSpec.SetUser(payload))
    {
      user := payload;
      isAuthenticated := true;
      persisted := payload;
    }

    /** `setAuthenticated(flag)` */
    method SetAuthenticated(flag: bool)
      requires Valid()
      modifies this
      ensures Valid()
      ensures isAuthenticated == flag
      ensures isLoading == old(isLoading) && user == old(user)
      ensures error == old(error) && persisted == old(persisted)
      ensures Model() == AuthSpec.Reduce(old(Model()), AuthSpec.SetAuthenticated(flag))
    {
      isAuthenticated := flag;
    }

    /** `registerUser.pending` */
    method RegisterPending()
      requires Valid()
      modifies this
      ensures Valid()
      ensures isLoading
      ensures isAuthenticated == old(isAuthenticated) && user == old(user)
      ensures error == old(error) && persisted == old(persisted)
      ensures Model() == AuthSpec.Reduce(old(Model()), AuthSpec.RegisterPending)
    {
      isLoading := true;
    }

    /** `registerUser.fulfilled`: registration does not log the user in. */
    method RegisterFulfilled()
      requires Valid()
      modifies this
      ensures Valid()
      ensures !isLoading
      ensures isAuthenticated == old(isAuthenticated) && user == old(user)
      ensures error == old(error) && persisted == old(persisted)
      ensures Model() == AuthSpec.Reduce(old(Model()), AuthSpec.RegisterFulfilled)
    {
      isLoading := false;
    }

    /** `registerUser.rejected` */
    method RegisterRejected(message: Option<string>)
      requires Valid()
      modifies this
      ensures Valid()
      ensures !isLoading
      ensures error == Some(AuthSpec.OrDefault(message, AuthSpec.RegisterErrorDefault))
      ensures isAuthenticated == old(isAuthenticated) && user == old(user)
      ensures persisted == old(persisted)
      ensures Model() == AuthSpec.Reduce(old(Model()), AuthSpec.RegisterRejected(message))
    {
      isLoading := false;
      error := Some(AuthSpec.OrDefault(message, AuthSpec.RegisterErrorDefault));
    }

    /** `loginUser.pending` */
    method LoginPending()
      requires Valid()
      modifies this
      ensures Valid()
      ensures isLoading
      ensures isAuthenticated == old(isAuthenticated) && user == old(user)
      ensures error == old(error) && persisted == old(persisted)
      ensures Model() == AuthSpec.Reduce(old(Model()), AuthSpec.LoginPending)
    {
      isLoading := true;
    }

    /** `loginUser.fulfilled`: adopts the payload and persists the new user. */
    method LoginFulfilled(success: bool, data: Option<AuthSpec.User>)
      requires Valid()
      modifies this
      ensures Valid()
      ensures !isLoading && user == data && isAuthenticated == success
      ensures persisted == user
      ensures error == old(error)
      ensures Model() == AuthSpec.Reduce(old(Model()), AuthSpec.LoginFulfilled(success, data))
    {
      isLoading := false;
      user := data;
      isAuthenticated := success;
      persisted := user;
    }

    /** `loginUser.rejected`: drops the user but leaves `isAuthenticated` alone. */
    method LoginRejected(message: Option<string>)
      requires Valid()
      modifies this
      ensures Valid()
      ensures !isLoading && user == None && persisted == None
      ensures error == Some(AuthSpec.OrDefault(message, AuthSpec.LoginErrorDefault))
      ensures isAuthenticated == old(isAuthenticated)
      ensures Model() == AuthSpec.Reduce(old(Model()), AuthSpec.LoginRejected(message))
    {
      isLoading := false;
      error := Some(AuthSpec.OrDefault(message, AuthSpec.LoginErrorDefault));
      user := None;
      persisted := user;
    }

    /** `checkAuth.pending` */
    method CheckAuthPending()
      requires Valid()
      modifies this
      ensures Valid()
      ensures isLoading
      ensures isAuthenticated == old(isAuthenticated) && user == old(user)
      ensures error == old(error) && persisted == old(persisted)
      ensures Model() == AuthSpec.Reduce(old(Model()), AuthSpec.CheckAuthPending)
    {
      isLoading := true;
    }

    /** `checkAuth.fulfilled`: takes the server's verdict without touching `user`. */
    method CheckAuthFulfilled(success: bool)
      requires Valid()
      modifies this
      ensures Valid()
      ensures !isLoading && isAuthenticated == success
      ensures user == old(user) && error == old(error) && persisted == old(persisted)
      ensures Model() == AuthSpec.Reduce(old(Model()), AuthSpec.CheckAuthFulfilled(success))
    {
      isLoading := false;
      isAuthenticated := success;
    }

    /** `checkAuth.rejected`: the session is gone, so the slice logs out. */
    method CheckAuthRejected(message: Option<string>)
      requires Valid()
      modifies this
      ensures Valid()
      ensures !isLoading && !isAuthenticated && user == None && persisted == None
      ensures error == Some(AuthSpec.OrDefault(message, AuthSpec.AuthErrorDefault))
      ensures Model() == AuthSpec.Reduce(old(Model()), AuthSpec.CheckAuthRejected(message))
    {
      isLoading := false;
      isAuthenticated := false;
      error := Some(AuthSpec.OrDefault(message, AuthSpec.AuthErrorDefault));
      user := None;
      persisted := user;
    }

    /** `logoutUser.pending` */
    method LogoutPending()
      requires Valid()
      modifies this
      ensures Valid()
      ensures isLoading
      ensures isAuthenticated == old(isAuthenticated) && user == old(user)
      ensures error == old(error) && persisted == old(persisted)
      ensures Model() == AuthSpec.Reduce(old(Model()), AuthSpec.LogoutPending)
    {
      isLoading := true;
    }

    /** `logoutUser.fulfilled` */
    method LogoutFulfilled()
      requires Valid()
      modifies this
      ensures Valid()
      ensures !isLoading && !isAuthenticated && user == None && persisted == None
      ensures error == old(error)
      ensures Model() == AuthSpec.Reduce(old(Model()), AuthSpec.LogoutFulfilled)
    {
      isLoading := false;
      user := None;
      isAuthenticated := false;
      persisted := user;
    }

    /** `logoutUser.rejected`: the user stays logged in locally. */
    method LogoutRejected(message: Option<string>)
      requires Valid()
      modifies this
      ensures Valid()
      ensures !isLoading
      ensures error == Some(AuthSpec.OrDefault(message, AuthSpec.AuthErrorDefault))
      ensures isAuthenticated == old(isAuthenticated) && user == old(user)
      ensures persisted == old(persisted)
      ensures Model() == AuthSpec.Reduce(old(Model()), AuthSpec.LogoutRejected(message))
    {
      isLoading := false;
      error := Some(AuthSpec.OrDefault(message, AuthSpec.AuthErrorDefault));
    }
  }
}
