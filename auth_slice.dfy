/**
 * The `auth` slice of the client's Redux store: its initial state, read from the browser's
 * localStorage, and the reducers `setLoading`, `setUser`, `setToken` and `logout`, two of which
 * also write localStorage's "token" key.
 *
 * `Reduce` takes the state, the storage and an action to the new state and storage;
 * `AuthDraft` is the draft object the case reducers assign to, beside a `LocalStorage` object.
 * Users are values of an arbitrary type `U`.
 */
module AuthSlice {
  import opened Wrappers

  /** The localStorage key the token is kept under. */
  const TOKEN_KEY := "token"

  /** localStorage's contents: string keys to string values. */
  type Storage = map<string, string>

  datatype AuthState<U> = AuthState(loading: bool, user: Option<U>, token: Option<string>)

  /** The slice's actions with their payloads; `None` is the payload `null`. */
  datatype AuthAction<U> =
    | SetLoading(isLoading: bool)
    | SetUser(newUser: Option<U>)
    | SetToken(newToken: Option<string>)
    | Logout

  /** `localStorage.getItem(key)`: the stored string, or null. */
  function StoredItem(st: Storage, key: string): (v: Option<string>)
    ensures v.Some? <==> key in st
    ensures v.Some? ==> v.value == st[key]
  {
    if key in st then Some(st[key]) else None
  }

  /** The string `setItem` stores for a payload: JavaScript's `String(value)`, so `null` becomes "null". */
  function StoredString(v: Option<string>): (r: string)
    ensures v.Some? ==> r == v.value
    ensures v.None? ==> r == "null" && r != ""
  {
    match v
    case None => "null"
    case Some(s) => s
  }

  /** The token the slice starts with: `getItem("token") || null`, so a missing or empty entry gives null. */
  function StoredToken(st: Storage): (t: Option<string>)
    ensures t.Some? <==> TOKEN_KEY in st && st[TOKEN_KEY] != ""
    ensures t.Some? ==> t.value == st[TOKEN_KEY]
  {
    var v := StoredItem(st, TOKEN_KEY);
    if v.Some? && v.value != "" then v else None
  }

  /** The initial state: not loading, no user, and the token found in storage. */
  function InitialState<U>(st: Storage): (s: AuthState<U>)
    ensures !s.loading && s.user.None? && s.token == StoredToken(st)
  {
    AuthState(false, None, StoredToken(st))
  }

  /**
   * The slice's reducer together with its effect on storage: `setLoading` and `setUser` set
   * their field only; `setToken` sets the token and stores it; `logout` clears the user and the
   * token, keeps `loading`, and removes the stored token.
   */
  function Reduce<U>(s: AuthState<U>, st: Storage, a: AuthAction<U>): (r: (AuthState<U>, Storage))
    ensures !a.SetLoading? ==> r.0.loading == s.loading
    ensures !(a.SetUser? || a.Logout?) ==> r.0.user == s.user
    ensures !(a.SetToken? || a.Logout?) ==> r.0.token == s.token && r.1 == st
    ensures a.SetLoading? ==> r.0.loading == a.isLoading
    ensures a.SetUser? ==> r.0.user == a.newUser
    ensures a.SetToken? ==> r.0.token == a.newToken && r.1 == st[TOKEN_KEY := StoredString(a.newToken)]
    ensures a.Logout? ==> r.0.user.None? && r.0.token.None? && r.1 == st - {TOKEN_KEY}
  {
    match a
    case SetLoading(b) => (s.(loading := b), st)
    case SetUser(u) => (s.(user := u), st)
    case SetToken(t) => (s.(token := t), st[TOKEN_KEY := StoredString(t)])
    case Logout => (s.(user := None, token := None), st - {TOKEN_KEY})
  }

  /** After `setToken(t)` and then `logout`, there is no token in the state nor in storage; nothing else in storage changed. */
  lemma SetTokenThenLogout<U>(s: AuthState<U>, st: Storage, t: Option<string>)
    ensures var (s1, st1) := Reduce(s, st, SetToken(t));
      var (s2, st2) := Reduce(s1, st1, Logout);
      s2.token.None? && s2.user.None? && s2.loading == s.loading &&
      TOKEN_KEY !in st2 && st2 == st - {TOKEN_KEY}
  {
  }

  /** The state's token is the one a reload would read back from storage. */
  predicate InSync<U>(s: AuthState<U>, st: Storage)
  {
    s.token == StoredToken(st)
  }

  /**
   * Every action keeps the state's token in step with the stored one, except `setToken` with a
   * `null` or empty payload: `null` is stored as the string "null", which a reload reads as a
   * token, and an empty string is read back as no token.
   */
  lemma {:induction false} ReduceKeepsInSync<U>(s: AuthState<U>, st: Storage, a: AuthAction<U>)
    requires InSync(s, st)
    ensures var (s', st') := Reduce(s, st, a);
      InSync(s', st') <==> !(a.SetToken? && (a.newToken.None? || a.newToken.value == ""))
  {
    var (s', st') := Reduce(s, st, a);
    if a.SetToken? && a.newToken.None? {
      assert StoredToken(st') == Some("null");
    }
  }

  /** A token set and then read back after a reload is the same token. */
  lemma ReloadRestoresToken<U>(s: AuthState<U>, st: Storage, t: string)
    requires t != ""
    ensures InitialState<U>(Reduce(s, st, SetToken(Some(t))).1).token == Some(t)
  {
  }

  /** After `logout`, a reload starts without a token. */
  lemma ReloadAfterLogout<U>(s: AuthState<U>, st: Storage)
    ensures InitialState<U>(Reduce(s, st, Logout).1).token.None?
  {
  }

  /** The browser's localStorage. */
  class LocalStorage {
    var items: Storage

    constructor (items: Storage)
      ensures this.items == items
    {
      this.items := items;
    }

    /** `getItem(key)`. */
    method GetItem(key: string) returns (v: Option<string>)
      ensures v == StoredItem(items, key)
    {
      if key in items {
        v := Some(items[key]);
      } else {
        v := None;
      }
    }

    /** `setItem(key, value)`, which stores `String(value)`. */
    method SetItem(key: string, value: Option<string>)
      modifies this
      ensures items == old(items)[key := StoredString(value)]
    {
      items := items[key := StoredString(value)];
    }

    /** `removeItem(key)`. */
    method RemoveItem(key: string)
      modifies this
      ensures items == old(items) - {key}
    {
      items := items - {key};
    }
  }

  /** The draft of the auth state that the case reducers assign to, and the storage they write. */
  class AuthDraft<U> {
    var loading: bool
    var user: Option<U>
    var token: Option<string>
    const storage: LocalStorage

    /** The state the draft holds. */
    function State(): AuthState<U>
      reads this
    {
      AuthState(loading, user, token)
    }

    /** The slice as the app loads: `initialState`, reading the token from storage. */
    constructor (storage: LocalStorage)
      ensures this.storage == storage && storage.items == old(storage.items)
      ensures State() == InitialState(storage.items)
    {
      var stored := storage.GetItem(TOKEN_KEY);
      loading := false;
      user := None;
      token := if stored.Some? && stored.value != "" then stored else None;
      this.storage := storage;
    }

    /** `setLoading`. */
    method SetLoading(b: bool)
      modifies this
      ensures loading == b && user == old(user) && token == old(token)
      ensures State() == Reduce(old(State()), storage.items, AuthAction.SetLoading(b)).0
    {
      loading := b;
    }

    /** `setUser`. */
    method SetUser(u: Option<U>)
      modifies this
      ensures user == u && loading == old(loading) && token == old(token)
      ensures State() == Reduce(old(State()), storage.items, AuthAction.SetUser(u)).0
    {
      user := u;
    }

    /** `setToken`: sets the token and saves it to storage. */
    method SetToken(t: Option<string>)
      modifies this, storage
      ensures token == t && loading == old(loading) && user == old(user)
      ensures storage.items == old(storage.items)[TOKEN_KEY := StoredString(t)]
      ensures (State(), storage.items) == Reduce(old(State()), old(storage.items), AuthAction.SetToken(t))
    {
      token := t;
      storage.SetItem(TOKEN_KEY, t);
    }

    /** `logout`: clears the user and the token and removes the token from storage. */
    method Logout()
      modifies this, storage
      ensures user.None? && token.None? && loading == old(loading)
      ensures storage.items == old(storage.items) - {TOKEN_KEY}
      ensures (State(), storage.items) == Reduce(old(State()), old(storage.items), AuthAction.Logout)
    {
      user := None;
      token := None;
      storage.RemoveItem(TOKEN_KEY);
    }
  }
}
