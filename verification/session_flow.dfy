/** Logging in end to end: the mock backend's login reply travels through the
    reply interceptor into the store's login action, after which the next
    request carries the token and the guard treats the visitor as logged in. */
module SessionFlow {

  import opened Records
  import opened BrowserStorage
  import opened MockDb
  import MockUsers
  import opened Request
  import opened UserStore
  import Router

  /** The body a mock reply is sent as: `{ code, msg, data }`, where only a
      user payload counts as a user. */
  function ReplyBody(res: Response): (b: Body<User>)
    ensures res.Success? ==> b.code == SUCCESS_CODE && b.msg == Some(MockDb.SUCCESS_MSG)
    ensures res.Error? ==> b.code == 0 && b.msg == Some(res.msg) && b.data.None?
    ensures res.Success? && res.data.UserData? ==> b.data == Some(res.data.user)
    ensures res.Success? && !res.data.UserData? ==> b.data.None?
  {
    var data := if res.Success? && res.data.UserData? then Some(res.data.user) else None;
    Body(res.Code(), Some(res.Msg()), data)
  }

  /** The mock's login reply, through the reply interceptor, into `loginAction`. */
  function LoginThrough(db: Db, form: MockUsers.LoginForm, store: Store): Acted {
    var h := OnResponse(store.storage, ReplyBody(MockUsers.Login(db, form).res));
    SignIn(store.(storage := h.storage), h.settled)
  }

  /** A refused login reaches `loginAction` as a rejection carrying the
      mock's message, and nothing changes. */
  lemma LoginRefused(db: Db, form: MockUsers.LoginForm, store: Store)
    requires !(MockUsers.EmailTaken(db.users, form.email) && form.password == MockUsers.FIXTURE_PASSWORD)
    ensures LoginThrough(db, form, store) == Acted(store, Failed(MockUsers.BAD_CREDENTIALS))
  {
    var body := ReplyBody(MockUsers.Login(db, form).res);
    assert body.msg == Some(MockUsers.BAD_CREDENTIALS);
    assert MockUsers.BAD_CREDENTIALS != NOT_LOGIN;
  }

  /** An accepted login installs the user the mock found, with the fixture
      token, and leaves store and storage in agreement. */
  lemma LoginAccepted(db: Db, form: MockUsers.LoginForm, store: Store)
    requires Synced(store)
    requires MockUsers.EmailTaken(db.users, form.email) && form.password == MockUsers.FIXTURE_PASSWORD
    ensures var a := LoginThrough(db, form, store);
      && a.result == Succeeded
      && Synced(a.store)
      && a.store.session.userInfo.Some?
      && a.store.session.userInfo.value.email == form.email
      && a.store.session.token == Some(db.mockJwt)
      && GetItem(a.store.storage, TOKEN_KEY) == Some(db.mockJwt)
  {
    var res := MockUsers.Login(db, form).res;
    var i :| MockUsers.FirstWithEmail(db.users, form.email, i) &&
      res.data == UserData(db.users[i].(jwt := Some(db.mockJwt)));
    var h := OnResponse(store.storage, ReplyBody(res));
    assert h.storage == store.storage;
    SignInKeepsSynced(store, h.settled);
  }

  /** Logging in through the whole chain succeeds exactly for a known email
      with the fixture password, and then installs that user with the
      fixture token, keeps store and storage in agreement, puts the token on
      the next request and keeps the visitor off the login page. A refused
      login reports "邮箱或密码错误" and changes nothing. */
  lemma LoginEndToEnd(db: Db, form: MockUsers.LoginForm, store: Store, c: Config)
    requires Synced(store)
    ensures var a := LoginThrough(db, form, store);
      && (a.result == Succeeded <==>
            MockUsers.EmailTaken(db.users, form.email) && form.password == MockUsers.FIXTURE_PASSWORD)
      && (a.result != Succeeded ==> a == Acted(store, Failed(MockUsers.BAD_CREDENTIALS)))
      && (a.result == Succeeded ==>
            && Synced(a.store)
            && a.store.session.userInfo.Some?
            && a.store.session.userInfo.value.email == form.email
            && a.store.session.token == Some(db.mockJwt)
            && (IsLoggedIn(a.store.session) <==> db.mockJwt != ""))
      && (a.result == Succeeded && db.mockJwt != "" ==>
            && AttachToken(a.store.storage, c).headers[TOKEN_HEADER] == db.mockJwt
            && Router.Guard(Router.Target(Router.ROUTES[1].meta, "/login"), a.store.session) ==
                 Router.Redirect(Router.HOME, None))
  {
    if MockUsers.EmailTaken(db.users, form.email) && form.password == MockUsers.FIXTURE_PASSWORD {
      LoginAccepted(db, form, store);
      var a := LoginThrough(db, form, store);
      assert IsLoggedIn(a.store.session) <==> db.mockJwt != "";
      if db.mockJwt != "" {
        assert TruthyStr(GetItem(a.store.storage, TOKEN_KEY));
        assert Router.ROUTES[1].meta.requiresGuest;
      }
    } else {
      LoginRefused(db, form, store);
    }
  }
}
