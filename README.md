# mini-store: client auth slice and expiry helpers

This project models two pieces of the mini-store shop's authentication path:

- **The client auth slice** (`frontend/src/store/auth/authSlice.ts`). This is a Redux slice with four fields: `isAuthenticated`, `isLoading`, `user` and `error`. It also writes through to one browser key, `localStorage["user"]`. Four async operations drive it: register, login, checkAuth and logout. Each has a pending, a fulfilled and a rejected case. There are also two synchronous reducers, `setUser` and `setAuthenticated`.
  - `AuthSpec` models it as a closed state machine. `Snapshot` holds the four fields plus `persisted`, which stands for the storage key. `Action` has one constructor per reducer case. `Reduce` is the transition and `Run` applies a trace of actions.
  - `AuthSlice.AuthState` is the same slice as an object whose methods update its fields in place. There is one method per reducer case. Each method states every field afterwards and equals `Reduce` on the old state.
- **The expiry helpers** (`backend/src/common/utils/customTime.ts`). These are functions of the clock reading `now`, which is passed in instead of calling `Date.now()`. `new Date(t)` follows ECMAScript's TimeClip rule: a time value with magnitude above 8.64e15 ms gives an Invalid Date.

What is proved:
- Every write this slice makes to the persisted key stores the new `user`, so, as far as this slice's own writes go, the key mirrors `user`. This is the class invariant `Valid()`.
- `error` is never reset to null.
- Registration never changes who is logged in.
- Every pending case changes only `isLoading`, and every settled case clears it.
- The property "authenticated implies a user is present". It does **not** hold in general. `AuthSpec.AuthInvariantPreservedIff` names exactly the reducer cases that keep it:
  - `setUser(null)`, `setAuthenticated(true)`, a successful `loginUser.fulfilled` with no data, `loginUser.rejected` and a successful `checkAuth.fulfilled` can break it.
  - Two lemmas give concrete traces from the initial state that end authenticated with no user.
  - `AuthSpec.SafeTraceKeepsAuthInvariant` proves it along traces made only of the cases that keep it.
- The helper named `fifteenMinuteFromNow` computes thirty minutes, not fifteen.
- `expiryTime` is a number fixed when the module loads, so later callers get less than twenty days.

The slice is not consistent about clearing authentication together with the user:
- `checkAuth.rejected` (`frontend/src/store/auth/authSlice.ts:137-144`) and `logoutUser.fulfilled` (`148-153`) clear `user` and `isAuthenticated` together.
- `loginUser.rejected` (`123-129`) clears only `user`, so a slice that was authenticated stays authenticated with no user.
- `checkAuth.fulfilled` (`133-136`) sets `isAuthenticated` from the server's answer without supplying a user.
- The model follows the code as written. It states "authenticated implies a user" only for the cases that keep it, and gives concrete traces for `loginUser.rejected` and `checkAuth.fulfilled` breaking it.

## Model

| member | source | states |
|---|---|---|
| AuthSlice.AuthState.constructor | frontend/src/store/auth/authSlice.ts:18-23 | Starts unauthenticated, not loading and with no error. `user` is the rehydrated stored value (null when absent). The key mirrors it. |
| AuthSlice.AuthState.SetUser | frontend/src/store/auth/authSlice.ts:90-94 | `user := payload`, `isAuthenticated := true`, key := payload. `isLoading` and `error` are unchanged. |
| AuthSlice.AuthState.SetAuthenticated | frontend/src/store/auth/authSlice.ts:95-97 | Only `isAuthenticated` changes, to the flag. |
| AuthSlice.AuthState.RegisterPending | frontend/src/store/auth/authSlice.ts:101-103 | `isLoading := true`. Every other field and the key are unchanged. |
| AuthSlice.AuthState.RegisterFulfilled | frontend/src/store/auth/authSlice.ts:104-107 | Only `isLoading` changes (to false). Registration does not log in. |
| AuthSlice.AuthState.RegisterRejected | frontend/src/store/auth/authSlice.ts:108-112 | `isLoading := false` and `error` := the message or "error in user registration". Auth, user and key are unchanged. |
| AuthSlice.AuthState.LoginPending | frontend/src/store/auth/authSlice.ts:113-115 | `isLoading := true`. Nothing else changes. |
| AuthSlice.AuthState.LoginFulfilled | frontend/src/store/auth/authSlice.ts:116-122 | `user := data` and `isAuthenticated := success`. The key then equals the new user. `error` is unchanged and `isLoading` is false. |
| AuthSlice.AuthState.LoginRejected | frontend/src/store/auth/authSlice.ts:123-129 | `user` and the key become null and `error` := the message or "error in user login". `isAuthenticated` is kept as it was. |
| AuthSlice.AuthState.CheckAuthPending | frontend/src/store/auth/authSlice.ts:130-132 | `isLoading := true`. Nothing else changes. |
| AuthSlice.AuthState.CheckAuthFulfilled | frontend/src/store/auth/authSlice.ts:133-136 | `isAuthenticated := success`. `user`, `error` and the key are unchanged. |
| AuthSlice.AuthState.CheckAuthRejected | frontend/src/store/auth/authSlice.ts:137-144 | Logged out (auth false, user and key null). `error` := the message or "Authentication failed". |
| AuthSlice.AuthState.LogoutPending | frontend/src/store/auth/authSlice.ts:145-147 | `isLoading := true`. Nothing else changes. |
| AuthSlice.AuthState.LogoutFulfilled | frontend/src/store/auth/authSlice.ts:148-153 | Logged out (auth false, user and key null). `error` is unchanged. |
| AuthSlice.AuthState.LogoutRejected | frontend/src/store/auth/authSlice.ts:154-158 | `error` := the message or "Authentication failed". The user stays logged in locally. |
| AuthSpec.OrDefault | frontend/src/store/auth/authSlice.ts:108-158 | The JavaScript "message or fallback" rule: a non-empty message wins. A missing or empty message gives the fallback. The result is empty only when both are. |
| AuthSlice.AuthState.Valid | frontend/src/store/auth/authSlice.ts:90-158 | The class invariant: the persisted key equals `user`. It holds exactly when the object's snapshot satisfies `AuthSpec.Mirrors`. Every reducer method keeps it. |
| AuthSpec.Initial | frontend/src/store/auth/authSlice.ts:18-23 | The initial snapshot: not authenticated, not loading, no error. `user` is the stored value. It satisfies both the mirror invariant and "auth implies user". |
| AuthSpec.Reduce | frontend/src/store/auth/authSlice.ts:90-158 | The transition of every reducer case, with its frame. Only `setUser`, `loginUser.fulfilled`, `loginUser.rejected`, `checkAuth.rejected` and `logoutUser.fulfilled` write `user`, and each writes the key to the new user. Only `setUser`, `setAuthenticated`, `loginUser.fulfilled`, `checkAuth.fulfilled`, `checkAuth.rejected` and `logoutUser.fulfilled` write `isAuthenticated`. `isLoading` becomes true on pending and false on fulfilled or rejected, and is unchanged otherwise. `error` changes only on a rejected case, which always sets a non-empty message. |
| AuthSpec.Run | frontend/src/store/auth/authSlice.ts:101-158 | Applies reducer cases in order. Whatever came before, a trace ending in a pending case leaves `isLoading` true, and one ending in a fulfilled or rejected case leaves it false. |
| AuthSpec.AuthInvariantPreservedIff | frontend/src/store/auth/authSlice.ts:90-158 | A case preserves "authenticated implies user" from every state that has it **iff** it is one of the keeping cases. Each breaking case has a witness. |
| AuthSpec.PersistedMirrorsUser | frontend/src/store/auth/authSlice.ts:90-158 | Along any trace of reducer cases, the key keeps equal to `user`. |
| AuthSpec.ErrorNeverCleared | frontend/src/store/auth/authSlice.ts:90-158 | No trace brings a set `error` back to null. |
| AuthSpec.ErrorChangesOnlyOnRejection | frontend/src/store/auth/authSlice.ts:90-158 | A trace without rejected cases leaves `error` unchanged. |
| AuthSpec.RegistrationNeverLogsIn | frontend/src/store/auth/authSlice.ts:101-112 | A trace of register cases leaves auth, user and key unchanged. |
| AuthSpec.SafeTraceKeepsAuthInvariant | frontend/src/store/auth/authSlice.ts:90-158 | "Authenticated implies user" holds after every trace made only of keeping cases. |
| AuthSpec.LoginRejectedBreaksAuthInvariant | frontend/src/store/auth/authSlice.ts:116-129 | A login followed by a failed login, from a fresh start, ends authenticated with null user. |
| AuthSpec.CheckAuthFulfilledBreaksAuthInvariant | frontend/src/store/auth/authSlice.ts:130-136 | A successful session check at start-up with no stored user ends authenticated with null user. |
| CustomTime.TimeClipDate | backend/src/common/utils/customTime.ts:8 | `new Date(t)` for a number, as called at lines 1, 4 and 8: a valid instant holding exactly `t` when the magnitude of `t` is at most 8.64e15 ms, the Invalid Date otherwise. |
| CustomTime.FifteenMinuteFromNow | backend/src/common/utils/customTime.ts:1 | The instant `now + 30` minutes (`1_800_000` ms). It is valid exactly when that sum is a valid time value. |
| CustomTime.ThirtyDaysFromNow | backend/src/common/utils/customTime.ts:3-4 | The instant `now + 2_592_000_000` ms (30 days). It is valid exactly when that sum is a valid time value. |
| CustomTime.Now | backend/src/common/utils/customTime.ts:8 | For every valid clock reading (and `Date.now()` always returns one) the result is that instant itself. Out of range it would be the Invalid Date. |
| CustomTime.ExpiryTime | backend/src/common/utils/customTime.ts:10 | A plain number, the load instant plus `1_728_000_000` ms (20 days). |
| CustomTime.FifteenMinuteIsThirtyMinutes | backend/src/common/utils/customTime.ts:1 | `fifteenMinuteFromNow` is `now + 1_800_000` ms. That is thirty minutes, twice the fifteen of its name. |
| CustomTime.ExpiryOrdering | backend/src/common/utils/customTime.ts:1-10 | For one instant: now < thirty-minute expiry < twenty-day expiry < thirty-day expiry. |
| CustomTime.OffsetsMonotone | backend/src/common/utils/customTime.ts:1-10 | Each helper is strictly increasing in the clock reading. |
| CustomTime.ExpiryTimeIsFixedAtLoad | backend/src/common/utils/customTime.ts:10 | A caller after load gets less than 20 days. Once 20 days have passed, the value is already past. |

## Left out

- AuthSlice.AuthState.Valid: writes to `localStorage["user"]` by other tabs of the same site or by other code are not modelled. After start-up (authSlice.ts:21) the slice never reads the key again, so in the running app the key and `user` can differ, for example after a logout in another tab. The invariant covers only this slice's own writes.
- AuthSpec.PersistedMirrorsUser: the same limit applies. `persisted` is written only by the reducer cases of the trace.
- The bodies of the async thunks (`registerUser`, `loginUser`, `checkAuth`, `logoutUser`) are left out because they are HTTP I/O. That covers `API.post` / `API.get`, the request headers, `console.error` and the wrapping of exceptions. Only their outcomes are modelled, as method inputs: the payload's `success` and `data`, or the rejected message. The thunks' fixed messages ("User registration failed", "User login failed", "Authentication failed") are ordinary values of that message parameter; only "User login failed" is named, as `AuthSpec.LoginFailedMessage`, because a witness trace uses it.
- Redux Toolkit plumbing is left out: `createSlice`, `createAsyncThunk`, action dispatch and Immer drafts. So is the interleaving of concurrently running thunks. The model applies one reducer case at a time, in any order a trace gives.
- `JSON.stringify` / `JSON.parse` and the `localStorage` API are left out. The key is an `Option<User>`; `None` is both "absent" and "null", which rehydrate alike. The JSON round trip is taken as the identity.
- An `undefined` payload is not modelled; a payload is always a user or `null`. This leaves out these cases:
  - `setUser` with an `undefined` payload (authSlice.ts:90-93) stores the string "undefined" in the key, and the next start-up's `JSON.parse` (line 21) throws.
  - `loginUser.fulfilled` with a payload that lacks `data` (lines 119-121) has the same effect on the key.
  - `loginUser.fulfilled` and `checkAuth.fulfilled` with an `undefined` payload throw inside the reducer when reading `action.payload.data` / `action.payload.success` (lines 119-120, 135).
- The fields of `UserTypes` are not part of this model. `User` carries an id and an email only, because the slice never looks inside a user.
- `newDate` is left out because it parses a date string through the JavaScript library. The real clock `Date.now()` is replaced by an explicit `now` parameter. The fact that `expiryTime` is evaluated once at module load is captured by passing the load instant `loadTime`.
- `frontend/src/App.tsx` (routing, rendering, dispatching `checkAuth` on mount) is left out because it is UI. So are `frontend/src/components/app-ui/ProductList.tsx` (markup) and `backend/src/mail/mailConfig.ts` (mail transport configuration).
- The server-side session store, token issuer and verification-mail dispatcher are not part of this model. Their sources are not among the modelled files.
