/** The session store: who is logged in, with which token. It starts from
    browser storage, login and registration fill it from a successful reply,
    logout empties it, and every change is written through to storage so that
    a reload finds the same session. */
module UserStore {

  import opened Records
  import opened BrowserStorage
  import opened UserCodec
  import opened Request

  const ADMIN_ROLE := 1

  /** The store's state; a `None` token is the JS `null` a reply without a
      token leaves behind. */
  datatype Session = Session(userInfo: Option<User>, token: Option<string>)

  /** The signed-out session: no user, the empty token. */
  const SIGNED_OUT := Session(None, Some(""))

  /** `!!state.token`. */
  predicate IsLoggedIn(s: Session) {
    TruthyStr(s.token)
  }

  /** `state.userInfo?.role === 1`. */
  predicate IsAdmin(s: Session) {
    s.userInfo.Some? && s.userInfo.value.role == ADMIN_ROLE
  }

  /** The store together with the storage it writes through to. */
  datatype Store = Store(session: Session, storage: Storage)

  /** The store's initial state on page load: the token is the stored one, or
      "" when it is missing or empty; the user is the parsed stored user, with
      a missing or empty entry read as "null". `None` when the stored user is
      text the codec did not write. */
  function Init(st: Storage): (r: Option<Session>)
    ensures r.Some? ==>
      (IsLoggedIn(r.value) <==> TOKEN_KEY in st && st[TOKEN_KEY] != "")
    ensures r.Some? ==> r.value.token.Some?
    ensures !TruthyStr(GetItem(st, USER_INFO_KEY)) ==>
      r.Some? && r.value.userInfo.None?
    ensures r.Some? && TOKEN_KEY in st ==> r.value.token == Some(st[TOKEN_KEY])
  {
    var text := StrOr(GetItem(st, USER_INFO_KEY), NULL_TEXT);
    var token := StrOr(GetItem(st, TOKEN_KEY), "");
    match DecodeUserInfo(text)
    case None => None
    case Some(info) => Some(Session(info, Some(token)))
  }

  /** The store agrees with its storage: reloading the page would rebuild
      exactly the session in memory. */
  predicate Synced(store: Store) {
    Init(store.storage) == Some(store.session)
  }

  /** What an action's promise resolves to: `{ success: true }`,
      `{ success: false, message }`, or `undefined` when a reply resolved
      with a code other than 1. */
  datatype ActionResult = Succeeded | Failed(message: string) | NoResult

  /** The text of the TypeError reading `res.data.jwt` raises when a code-1
      reply carries `data: null`; its wording belongs to the JS engine. */
  const NULL_DATA_ERROR := "Cannot read properties of null (reading 'jwt')"

  datatype Acted = Acted(store: Store, result: ActionResult)

  /** `loginAction` and `registerAction`, which share their code, given how
      the request settled. A code-1 reply with a user installs that user and
      its token in the store and in storage. A rejection leaves everything
      alone and reports the error's message. A code-1 reply without a user
      clears the store's user before reading its token fails. Any other
      resolved reply changes nothing and yields `undefined`. */
  function SignIn(store: Store, reply: Settled<User>): (r: Acted)
    ensures r.result == Succeeded <==>
      reply.Resolved? && reply.body.code == SUCCESS_CODE && reply.body.data.Some?
    ensures r.result == Succeeded ==>
      var u := reply.body.data.value;
      && r.store.session == Session(Some(u), u.jwt)
      && GetItem(r.store.storage, TOKEN_KEY) == Some(u.jwt.GetOr(NULL_STRING))
      && GetItem(r.store.storage, USER_INFO_KEY) == Some(EncodeUserInfo(Some(u)))
      && forall k :: k != TOKEN_KEY && k != USER_INFO_KEY ==>
           GetItem(r.store.storage, k) == GetItem(store.storage, k)
    ensures reply.Rejected? ==> r == Acted(store, Failed(reply.failure.Message()))
    ensures reply.Resolved? && reply.body.code != SUCCESS_CODE ==> r == Acted(store, NoResult)
    ensures reply.Resolved? && reply.body.code == SUCCESS_CODE && reply.body.data.None? ==>
      r == Acted(store.(session := store.session.(userInfo := None)), Failed(NULL_DATA_ERROR))
  {
    match reply
    case Rejected(failure) => Acted(store, Failed(failure.Message()))
    case Resolved(body) =>
      if body.code != SUCCESS_CODE then Acted(store, NoResult)
      else match body.data
        case None => Acted(store.(session := store.session.(userInfo := None)), Failed(NULL_DATA_ERROR))
        case Some(u) =>
          var st := SetItem(store.storage, TOKEN_KEY, u.jwt);
          var st2 := SetItem(st, USER_INFO_KEY, Some(EncodeUserInfo(Some(u))));
          Acted(Store(Session(Some(u), u.jwt), st2), Succeeded)
  }

  /** `logout`: no user and the empty token, in memory and in storage. */
  function Logout(store: Store): (r: Store)
    ensures r.session == SIGNED_OUT
    ensures !IsLoggedIn(r.session) && !IsAdmin(r.session)
    ensures r.storage == ClearSession(store.storage)
  {
    Store(SIGNED_OUT, ClearSession(store.storage))
  }

  /** `updateUserInfo`: the user is replaced in memory and in storage; the
      token stays. */
  function UpdateUserInfo(store: Store, info: Option<User>): (r: Store)
    ensures r.session == store.session.(userInfo := info)
    ensures IsLoggedIn(r.session) == IsLoggedIn(store.session)
    ensures GetItem(r.storage, USER_INFO_KEY) == Some(EncodeUserInfo(info))
    ensures forall k :: k != USER_INFO_KEY ==> GetItem(r.storage, k) == GetItem(store.storage, k)
  {
    Store(store.session.(userInfo := info), SetItem(store.storage, USER_INFO_KEY, Some(EncodeUserInfo(info))))
  }

  /** Storage without a session reloads as the signed-out session. */
  lemma ClearedStorageSignsOut(st: Storage)
    ensures Init(ClearSession(st)) == Some(SIGNED_OUT)
  {
    assert DecodeUserInfo(NULL_TEXT) == Some(None);
  }

  /** After logout a reload finds the same signed-out session, whatever the
      store held before. */
  lemma LogoutSyncs(store: Store)
    ensures Synced(Logout(store))
  {
    ClearedStorageSignsOut(store.storage);
  }

  /** Updating the user keeps the store and its storage in agreement. */
  lemma UpdateKeepsSynced(store: Store, info: Option<User>)
    requires Synced(store)
    ensures Synced(UpdateUserInfo(store, info))
  {
    var r := UpdateUserInfo(store, info);
    UserInfoRoundTrip(info);
    assert EncodeUserInfo(info) != "" by {
      if info.Some? { assert EncodeUserInfo(info)[0] == '{'; }
    }
    assert GetItem(r.storage, TOKEN_KEY) == GetItem(store.storage, TOKEN_KEY);
  }

  /** A reply the actions fully install: a code-1 reply that carries a user
      with a token. */
  predicate Installs(reply: Settled<User>) {
    reply.Resolved? && reply.body.code == SUCCESS_CODE && reply.body.data.Some?
      && reply.body.data.value.jwt.Some?
  }

  /** Login and registration keep the store and storage in agreement, both
      when they install a user with a token and when they change nothing. */
  lemma SignInKeepsSynced(store: Store, reply: Settled<User>)
    requires Synced(store)
    requires Installs(reply) || reply.Rejected? || reply.body.code != SUCCESS_CODE
    ensures Synced(SignIn(store, reply).store)
  {
    if Installs(reply) {
      var u := reply.body.data.value;
      var r := SignIn(store, reply).store;
      UserInfoRoundTrip(Some(u));
      assert EncodeUserInfo(Some(u))[0] == '{';
      assert GetItem(r.storage, TOKEN_KEY) == Some(u.jwt.value);
    }
  }

  /** A code-1 reply whose user has a `null` token leaves the store signed
      out in memory, yet storage now holds the text "null" as the token, so
      after a reload the same user counts as logged in. */
  lemma NullTokenLogsInAfterReload(store: Store, u: User)
    requires u.jwt.None?
    ensures var r := SignIn(store, Resolved(Body(SUCCESS_CODE, None, Some(u))));
      && r.result == Succeeded
      && !IsLoggedIn(r.store.session)
      && Init(r.store.storage).Some?
      && IsLoggedIn(Init(r.store.storage).value)
  {
    var r := SignIn(store, Resolved(Body(SUCCESS_CODE, None, Some(u))));
    UserInfoRoundTrip(Some(u));
    assert EncodeUserInfo(Some(u))[0] == '{';
    assert GetItem(r.store.storage, TOKEN_KEY) == Some(NULL_STRING);
  }

  /** A reply that ends the session — "NOT_LOGIN" or a 401 — leaves storage
      from which the login page, loaded fresh, starts signed out. */
  lemma SessionEndReloadsSignedOut<D>(st: Storage, body: Body<D>, e: HttpError)
    ensures var h := OnResponse(st, body);
      h.toLogin ==> Init(h.storage) == Some(SIGNED_OUT)
    ensures var h := OnError<D>(st, e);
      h.toLogin ==> Init(h.storage) == Some(SIGNED_OUT)
  {
    ClearedStorageSignsOut(st);
  }
}
