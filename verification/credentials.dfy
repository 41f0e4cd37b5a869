/** The credential store of the web client (Frontend/src/utils/auth.ts): three
    entries of the browser's local storage, the access token, the refresh token
    and the cached user record (kept as the JSON text it is stored as). */
module Credentials {
  import opened Wrappers

  /** Local storage: string keys to string values. */
  type Store = map<string, string>

  const AccessKey := "access_token"
  const RefreshKey := "refresh_token"
  const UserKey := "user"

  predicate IsCredentialKey(k: string) {
    k == AccessKey || k == RefreshKey || k == UserKey
  }

  /** `localStorage.getItem`: null when the key is absent. */
  function GetItem(store: Store, key: string): (r: Option<string>)
    ensures r.Some? <==> key in store
    ensures r.Some? ==> r.value == store[key]
  {
    if key in store then Some(store[key]) else None
  }

  /** The text `localStorage.setItem` stores for a JavaScript value that is a
      string or `undefined`: `String(undefined)` is "undefined". */
  function StoredText(v: Option<string>): string {
    match v
    case Some(s) => s
    case None => "undefined"
  }

  function GetAccessToken(store: Store): (r: Option<string>)
    ensures r.Some? <==> AccessKey in store
    ensures r.Some? ==> r.value == store[AccessKey]
  {
    GetItem(store, AccessKey)
  }

  function GetRefreshToken(store: Store): (r: Option<string>)
    ensures r.Some? <==> RefreshKey in store
    ensures r.Some? ==> r.value == store[RefreshKey]
  {
    GetItem(store, RefreshKey)
  }

  /** A token that is present and non-empty, i.e. truthy in JavaScript. */
  predicate HasAccessToken(store: Store) {
    AccessKey in store && store[AccessKey] != ""
  }

  /** `clearAuthTokens`: the three credential entries go, nothing else changes. */
  function ClearAuthTokens(store: Store): (r: Store)
    ensures AccessKey !in r && RefreshKey !in r && UserKey !in r
    ensures forall k :: k in r <==> k in store && !IsCredentialKey(k)
    ensures forall k :: k in r ==> r[k] == store[k]
  {
    store - {AccessKey, RefreshKey, UserKey}
  }

  /** `storeAuthTokens`: both tokens are written; the user entry and every
      other key keep their values. */
  function StoreAuthTokens(store: Store, access: string, refresh: string): (r: Store)
    ensures GetAccessToken(r) == Some(access) && GetRefreshToken(r) == Some(refresh)
    ensures GetItem(r, UserKey) == GetItem(store, UserKey)
    ensures forall k :: k != AccessKey && k != RefreshKey ==> GetItem(r, k) == GetItem(store, k)
    ensures r.Keys == store.Keys + {AccessKey, RefreshKey}
  {
    store[AccessKey := access][RefreshKey := refresh]
  }

  /** `storeUserData`: the user record (as its JSON text) is written; the
      tokens and every other key keep their values. */
  function StoreUserData(store: Store, userJson: string): (r: Store)
    ensures GetItem(r, UserKey) == Some(userJson)
    ensures forall k :: k != UserKey ==> GetItem(r, k) == GetItem(store, k)
  {
    store[UserKey := userJson]
  }

  datatype AuthStatus = AuthStatus(isAuthenticated: bool, user: Option<string>)

  /** `checkAuth`: authenticated iff all three entries exist (an empty string
      counts as present); the user is reported only when its entry is non-empty. */
  function CheckAuth(store: Store): (r: AuthStatus)
    ensures r.isAuthenticated <==> AccessKey in store && RefreshKey in store && UserKey in store
    ensures r.user.Some? <==> UserKey in store && store[UserKey] != ""
    ensures r.user.Some? ==> r.user.value == store[UserKey]
  {
    var access := GetItem(store, AccessKey);
    var refresh := GetItem(store, RefreshKey);
    var userData := GetItem(store, UserKey);
    AuthStatus(
      access.Some? && refresh.Some? && userData.Some?,
      if userData.Some? && userData.value != "" then userData else None)
  }

  /** After a sign-in writes both tokens and a user record, the client is
      authenticated and reports that record; after clearing, it is not. */
  lemma SignInThenOut(store: Store, access: string, refresh: string, userJson: string)
    requires userJson != ""
    ensures var signedIn := StoreUserData(StoreAuthTokens(store, access, refresh), userJson);
      CheckAuth(signedIn) == AuthStatus(true, Some(userJson))
      && CheckAuth(ClearAuthTokens(signedIn)) == AuthStatus(false, None)
      && GetAccessToken(signedIn) == Some(access) && GetRefreshToken(signedIn) == Some(refresh)
  {
  }

  /** Clearing is idempotent and forgets whatever tokens were written before it. */
  lemma ClearForgetsTokens(store: Store, access: string, refresh: string)
    ensures ClearAuthTokens(StoreAuthTokens(store, access, refresh)) == ClearAuthTokens(store)
    ensures ClearAuthTokens(ClearAuthTokens(store)) == ClearAuthTokens(store)
  {
  }
}
