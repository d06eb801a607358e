/** The slice of `localStorage` the session lives in: a map from keys to
    texts. `getItem` of a missing key is `null`, and `setItem` stores the text
    form of its value — for `null`, the four characters "null". */
module BrowserStorage {

  import opened Records

  type Storage = map<string, string>

  const TOKEN_KEY := "token"
  const USER_INFO_KEY := "userInfo"

  /** `String(null)`: the text `setItem` stores for a `null` value. */
  const NULL_STRING := "null"

  function GetItem(st: Storage, key: string): (r: Option<string>)
    ensures r.Some? <==> key in st
    ensures r.Some? ==> r.value == st[key]
  {
    if key in st then Some(st[key]) else None
  }

  /** `setItem(key, value)` for a value that may be `null`. */
  function SetItem(st: Storage, key: string, value: Option<string>): (r: Storage)
    ensures GetItem(r, key) == Some(if value.Some? then value.value else NULL_STRING)
    ensures forall k :: k != key ==> GetItem(r, k) == GetItem(st, k)
  {
    st[key := value.GetOr(NULL_STRING)]
  }

  /** Forgets the session: both the token and the stored user go, every other
      entry stays as it was. Used by logout and by both interceptors. */
  function ClearSession(st: Storage): (r: Storage)
    ensures GetItem(r, TOKEN_KEY).None? && GetItem(r, USER_INFO_KEY).None?
    ensures forall k :: k != TOKEN_KEY && k != USER_INFO_KEY ==> GetItem(r, k) == GetItem(st, k)
  {
    st - {TOKEN_KEY, USER_INFO_KEY}
  }

  /** Clearing twice is clearing once. */
  lemma ClearSessionIdempotent(st: Storage)
    ensures ClearSession(ClearSession(st)) == ClearSession(st)
  {
    assert ClearSession(ClearSession(st)).Keys == ClearSession(st).Keys;
  }
}
