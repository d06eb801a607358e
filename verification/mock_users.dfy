/** The mock backend's user handlers: login, registration, administrator
    account creation, the user list, lookup by ID, hard deletion, and the two
    follow lists (which the mock fakes as "every user but the given one"). */
module MockUsers {

  import opened Records
  import opened Paging
  import opened Seqs
  import opened MockDb
  import Decimal

  const FIXTURE_PASSWORD := "123456"
  const BAD_CREDENTIALS := "邮箱或密码错误"
  const ACCOUNT_EXISTS := "ACCOUNT ALREADY EXISTS"
  const USER_NOT_FOUND := "用户不存在"
  const DEFAULT_AVATAR := "https://via.placeholder.com/100"
  const IDENTIFIER_BASE := 100000000

  function UserId(u: User): int {
    u.userId
  }

  predicate EmailTaken(users: seq<User>, email: string) {
    exists i :: 0 <= i < |users| && users[i].email == email
  }

  /** `users[i]` is the user `users.find(u => u.email === email)` returns. */
  predicate FirstWithEmail(users: seq<User>, email: string, i: int) {
    && 0 <= i < |users|
    && users[i].email == email
    && forall j :: 0 <= j < i ==> users[j].email != email
  }

  /** The identifier an account numbered `id` receives: `String(100000000 + id)`. */
  function NewIdentifier(id: int): string {
    Decimal.IntToString(IDENTIFIER_BASE + id)
  }

  datatype LoginForm = LoginForm(email: string, password: string)

  /** Log in: the first user with the email, with the fixture token attached,
      provided the password is the shared fixture password. Nothing changes. */
  function Login(db: Db, form: LoginForm): (out: Step)
    ensures out.db == db
    ensures out.res.Success? <==> EmailTaken(db.users, form.email) && form.password == FIXTURE_PASSWORD
    ensures out.res.Success? ==>
      exists i :: FirstWithEmail(db.users, form.email, i) &&
        out.res.data == UserData(db.users[i].(jwt := Some(db.mockJwt)))
    ensures out.res.Error? ==> out.res.msg == BAD_CREDENTIALS
  {
    var i := FindIndex(db.users, (u: User) => u.email == form.email);
    if i == -1 then Step(db, Error(BAD_CREDENTIALS))
    else if form.password == FIXTURE_PASSWORD then
      assert FirstWithEmail(db.users, form.email, i);
      Step(db, Success(UserData(db.users[i].(jwt := Some(db.mockJwt)))))
    else Step(db, Error(BAD_CREDENTIALS))
  }

  /** The registration form; the mock reads only the email. */
  datatype RegisterForm = RegisterForm(email: string)

  /** The account `register` creates, numbered `id`; `now` stands for the
      formatted clock. */
  function RegisteredUser(id: int, email: string, jwt: string, now: string): User {
    var identifier := NewIdentifier(id);
    User(id, identifier, "user" + identifier, email, None, 0, 0,
         DEFAULT_AVATAR, 0, None, None, now, now, Some(jwt))
  }

  /** Register: refused when the email is taken, with the table untouched;
      otherwise exactly one ordinary user with an unused ID is appended and
      returned, carrying the fixture token; user IDs stay unique. */
  function Register(db: Db, form: RegisterForm, now: string): (out: Step)
    ensures EmailTaken(db.users, form.email) ==> out == Step(db, Error(ACCOUNT_EXISTS))
    ensures !EmailTaken(db.users, form.email) ==>
      && out.db == db.(users := out.db.users)
      && |out.db.users| == |db.users| + 1
      && out.db.users[..|db.users|] == db.users
      && var u := out.db.users[|db.users|];
      && out.res == Success(UserData(u))
      && (forall j :: 0 <= j < |db.users| ==> db.users[j].userId != u.userId)
      && (UniqueKeys(db.users, UserId) ==> UniqueKeys(out.db.users, UserId))
      && u.email == form.email
      && u.role == 0 && u.status == 0
      && u.jwt == Some(db.mockJwt)
      && u.identifier == Decimal.IntToString(IDENTIFIER_BASE + u.userId)
      && u.userName == "user" + u.identifier
      && u.password == None && u.avatar == DEFAULT_AVATAR && u.gender == 0
      && u.birthday == None && u.signature == None
      && u.createdAt == now && u.updatedAt == now
  {
    if EmailTaken(db.users, form.email) then Step(db, Error(ACCOUNT_EXISTS))
    else
      var u := RegisteredUser(FreshId(db.users, UserId), form.email, db.mockJwt, now);
      var users := db.users + [u];
      assert users[..|db.users|] == db.users;
      Step(db.(users := users), Success(UserData(u)))
  }

  /** The administrator's "add user" form; every field but the name and the
      email may be left out. */
  datatype NewUserForm = NewUserForm(
    userName: string,
    email: string,
    role: Option<int>,
    status: Option<int>,
    avatar: Option<string>,
    gender: Option<int>,
    birthday: Option<string>,
    signature: Option<string>)

  /** The user the form describes, numbered `id`: falsy optional fields take
      their defaults, and there is neither a password nor a token. */
  function FormUser(id: int, form: NewUserForm, now: string): User {
    User(id, NewIdentifier(id), form.userName, form.email, None,
         IntOr(form.role, 0), IntOr(form.status, 0), StrOr(form.avatar, DEFAULT_AVATAR),
         IntOr(form.gender, 0), StrOrNull(form.birthday), StrOrNull(form.signature),
         now, now, None)
  }

  function AddedUser(users: seq<User>, form: NewUserForm, now: string): User {
    FormUser(FreshId(users, UserId), form, now)
  }

  /** Add a user: refused when the email is taken, with the table untouched;
      otherwise one user with an unused ID is appended, falsy optional
      fields take their defaults, and no token is issued. */
  function AddUser(db: Db, form: NewUserForm, now: string): (out: Step)
    ensures EmailTaken(db.users, form.email) ==> out == Step(db, Error(ACCOUNT_EXISTS))
    ensures !EmailTaken(db.users, form.email) ==>
      && out.res == Success(Null)
      && out.db == db.(users := out.db.users)
      && |out.db.users| == |db.users| + 1
      && out.db.users[..|db.users|] == db.users
      && var u := out.db.users[|db.users|];
      && (forall j :: 0 <= j < |db.users| ==> db.users[j].userId != u.userId)
      && (UniqueKeys(db.users, UserId) ==> UniqueKeys(out.db.users, UserId))
      && u.email == form.email && u.userName == form.userName
      && u.role == (if TruthyInt(form.role) then form.role.value else 0)
      && u.avatar == (if TruthyStr(form.avatar) then form.avatar.value else DEFAULT_AVATAR)
      && u.status == (if TruthyInt(form.status) then form.status.value else 0)
      && u.gender == (if TruthyInt(form.gender) then form.gender.value else 0)
      && u.birthday == (if TruthyStr(form.birthday) then form.birthday else None)
      && u.signature == (if TruthyStr(form.signature) then form.signature else None)
      && u.identifier == Decimal.IntToString(IDENTIFIER_BASE + u.userId)
      && u.createdAt == now && u.updatedAt == now
      && u.jwt == None && u.password == None
  {
    if EmailTaken(db.users, form.email) then Step(db, Error(ACCOUNT_EXISTS))
    else
      var users := db.users + [AddedUser(db.users, form, now)];
      assert users[..|db.users|] == db.users;
      Step(db.(users := users), Success(Null))
  }

  /** A user an administrator adds is what a lookup of its ID finds: no
      older user carries that ID. */
  lemma AddedUserIsFound(db: Db, form: NewUserForm, now: string)
    requires !EmailTaken(db.users, form.email)
    ensures var out := AddUser(db, form, now);
      var u := out.db.users[|db.users|];
      GetUserById(out.db, u.userId).res == Success(UserData(u))
  {
    var out := AddUser(db, form, now);
    var n := |db.users|;
    var u := out.db.users[n];
    assert forall j :: 0 <= j < n ==> out.db.users[j].userId != u.userId by {
      assert forall j :: 0 <= j < n ==> out.db.users[j] == db.users[j];
    }
    var g := GetUserById(out.db, u.userId);
    assert g.res.Success?;
    var i :| 0 <= i < |out.db.users| && out.db.users[i].userId == u.userId &&
      (forall j :: 0 <= j < i ==> out.db.users[j].userId != u.userId) && g.res.data == UserData(out.db.users[i]);
    assert i == n;
  }

  /** A freshly registered user can log in with the fixture password and is
      the user the login finds. */
  lemma RegisterThenLogin(db: Db, email: string, now: string)
    requires !EmailTaken(db.users, email)
    ensures var r := Register(db, RegisterForm(email), now);
      Login(r.db, LoginForm(email, FIXTURE_PASSWORD)).res == r.res
  {
    var r := Register(db, RegisterForm(email), now);
    var n := |db.users|;
    assert r.db.users[n].email == email;
    assert forall j :: 0 <= j < n ==> r.db.users[j] == db.users[j];
    var l := Login(r.db, LoginForm(email, FIXTURE_PASSWORD));
    var i :| FirstWithEmail(r.db.users, email, i) &&
      l.res.data == UserData(r.db.users[i].(jwt := Some(db.mockJwt)));
    assert i == n;
  }

  /** Registering the same email twice: the second attempt is refused and
      leaves the tables as the first left them. */
  lemma RegisterTwice(db: Db, email: string, now: string, later: string)
    ensures var r := Register(db, RegisterForm(email), now);
      Register(r.db, RegisterForm(email), later) == Step(r.db, Error(ACCOUNT_EXISTS))
  {
    var r := Register(db, RegisterForm(email), now);
    if !EmailTaken(db.users, email) {
      assert r.db.users[|db.users|].email == email;
    }
  }

  datatype UserQuery = UserQuery(
    query: Option<string>,
    userId: Option<int>,
    status: Option<int>,
    page: Option<nat>,
    pageSize: Option<nat>)

  /** A user matches a query when it passes every filter the query supplies:
      a non-empty search text found in the name or the email, a non-zero ID,
      and a status (which counts even when it is 0). */
  predicate UserMatches(u: User, q: UserQuery) {
    && (TruthyStr(q.query) ==> Includes(u.userName, q.query.value) || Includes(u.email, q.query.value))
    && (TruthyInt(q.userId) ==> u.userId == q.userId.value)
    && (q.status.Some? ==> u.status == q.status.value)
  }

  function UserFilter(q: UserQuery): (p: User -> bool)
    ensures forall u :: p(u) == UserMatches(u, q)
  {
    (u: User) => UserMatches(u, q)
  }

  function UserSearch(text: string): (p: User -> bool)
    ensures forall u :: p(u) == (Includes(u.userName, text) || Includes(u.email, text))
  {
    (u: User) => Includes(u.userName, text) || Includes(u.email, text)
  }

  function UserWithId(id: int): (p: User -> bool)
    ensures forall u :: p(u) == (u.userId == id)
  {
    (u: User) => u.userId == id
  }

  function UserWithStatus(status: int): (p: User -> bool)
    ensures forall u :: p(u) == (u.status == status)
  {
    (u: User) => u.status == status
  }

  /** The filter chain of the user list, stage by stage as the handler runs it. */
  function UserRows(users: seq<User>, q: UserQuery): seq<User> {
    var f1 := Stage(users, TruthyStr(q.query), UserSearch(q.query.GetOr("")));
    var f2 := Stage(f1, TruthyInt(q.userId), UserWithId(q.userId.GetOr(0)));
    Stage(f2, q.status.Some?, UserWithStatus(q.status.GetOr(0)))
  }

  /** The chained filters select exactly the users matching the whole query,
      in table order. */
  lemma UserRowsConjunctive(users: seq<User>, q: UserQuery)
    ensures UserRows(users, q) == Filter(users, UserFilter(q))
  {
    var m0 := (u: User) => true;
    var m1 := (u: User) => TruthyStr(q.query) ==> UserSearch(q.query.GetOr(""))(u);
    var m2 := (u: User) => m1(u) && (TruthyInt(q.userId) ==> UserWithId(q.userId.GetOr(0))(u));
    FilterKeepsAll(users, m0);
    StageFuse(users, m0, TruthyStr(q.query), UserSearch(q.query.GetOr("")), m1);
    StageFuse(users, m1, TruthyInt(q.userId), UserWithId(q.userId.GetOr(0)), m2);
    StageFuse(users, m2, q.status.Some?, UserWithStatus(q.status.GetOr(0)), UserFilter(q));
  }

  /** The user list: every matching user is counted, and one page of them,
      in table order, is returned. */
  function GetUserList(db: Db, q: UserQuery): (out: Step)
    ensures out.db == db
    ensures out.res == Success(UserPage(Paginate(Filter(db.users, UserFilter(q)), q.page, q.pageSize)))
  {
    UserRowsConjunctive(db.users, q);
    Step(db, Success(UserPage(Paginate(UserRows(db.users, q), q.page, q.pageSize))))
  }

  /** Lookup by ID: a copy of the first user with the ID, or an error. */
  function GetUserById(db: Db, id: int): (out: Step)
    ensures out.db == db
    ensures out.res.Success? <==> exists i :: 0 <= i < |db.users| && db.users[i].userId == id
    ensures out.res.Success? ==>
      exists i :: 0 <= i < |db.users| && db.users[i].userId == id &&
        (forall j :: 0 <= j < i ==> db.users[j].userId != id) && out.res.data == UserData(db.users[i])
    ensures out.res.Error? ==> out.res.msg == USER_NOT_FOUND
  {
    var i := FindIndex(db.users, UserWithId(id));
    if i == -1 then Step(db, Error(USER_NOT_FOUND)) else Step(db, Success(UserData(db.users[i])))
  }

  /** `users[i]` is the user `users.find(u => u.userId === id)` returns. */
  predicate FirstUserWithId(users: seq<User>, id: int, i: int) {
    FirstAt(users, UserId, id, i)
  }

  predicate HasUser(users: seq<User>, id: int) {
    HasKey(users, UserId, id)
  }

  /** An edit of a user: the ID that selects it and the profile fields the
      edit carries; a field the edit leaves out is `None`. For the nullable
      birthday and signature, `Some(None)` is a carried `null`. */
  datatype UserPatch = UserPatch(
    userId: int,
    userName: Option<string>,
    email: Option<string>,
    role: Option<int>,
    status: Option<int>,
    avatar: Option<string>,
    gender: Option<int>,
    birthday: Option<Option<string>>,
    signature: Option<Option<string>>)

  /** `Object.assign(user, { ...patch, updatedAt: now })`: the fields the
      edit carries overwrite the user's, the others stay, and the update
      time is always stamped. */
  function PatchUser(u: User, p: UserPatch, now: string): (r: User)
    ensures r.userId == u.userId && r.identifier == u.identifier && r.password == u.password
    ensures r.jwt == u.jwt && r.createdAt == u.createdAt && r.updatedAt == now
    ensures r.email == p.email.GetOr(u.email) && r.role == p.role.GetOr(u.role)
    ensures r.userName == p.userName.GetOr(u.userName) && r.status == p.status.GetOr(u.status)
    ensures r.avatar == p.avatar.GetOr(u.avatar) && r.gender == p.gender.GetOr(u.gender)
    ensures r.birthday == (if p.birthday.Some? then p.birthday.value else u.birthday)
    ensures r.signature == (if p.signature.Some? then p.signature.value else u.signature)
    ensures p.birthday == Some(None) ==> r.birthday.None?
    ensures p.signature == Some(None) ==> r.signature.None?
  {
    u.(userName := p.userName.GetOr(u.userName), email := p.email.GetOr(u.email),
       role := p.role.GetOr(u.role), status := p.status.GetOr(u.status),
       avatar := p.avatar.GetOr(u.avatar), gender := p.gender.GetOr(u.gender),
       birthday := p.birthday.GetOr(u.birthday),
       signature := p.signature.GetOr(u.signature),
       updatedAt := now)
  }

  /** Edit a user: the first user with the edit's ID is patched and nothing
      else changes; with no such user the reply is "用户不存在" and nothing
      changes. A new email is not checked against the other users. */
  function UpdateUser(db: Db, p: UserPatch, now: string): (out: Step)
    ensures out.res.Success? <==> HasUser(db.users, p.userId)
    ensures !HasUser(db.users, p.userId) ==> out == Step(db, Error(USER_NOT_FOUND))
    ensures HasUser(db.users, p.userId) ==>
      && out.res == Success(Null)
      && out.db == db.(users := out.db.users)
      && |out.db.users| == |db.users|
      && forall i :: 0 <= i < |db.users| ==>
           out.db.users[i] == if FirstUserWithId(db.users, p.userId, i) then PatchUser(db.users[i], p, now) else db.users[i]
  {
    var i := FindIndex(db.users, UserWithId(p.userId));
    if i == -1 then
      Step(db, Error(USER_NOT_FOUND))
    else
      assert forall k :: 0 <= k < |db.users| ==> (FirstUserWithId(db.users, p.userId, k) <==> k == i);
      Step(db.(users := db.users[i := PatchUser(db.users[i], p, now)]), Success(Null))
  }

  /** Editing a user's email to one that is not in use yet keeps logins
      working: the new email with the fixture password logs in, and finds
      the edited user. */
  lemma UpdatedEmailLogsIn(db: Db, p: UserPatch, now: string)
    requires HasUser(db.users, p.userId) && p.email.Some?
    requires !EmailTaken(db.users, p.email.value)
    ensures var db' := UpdateUser(db, p, now).db;
      var r := Login(db', LoginForm(p.email.value, FIXTURE_PASSWORD)).res;
      && r.Success?
      && r.data.UserData?
      && r.data.user.userId == p.userId
      && r.data.user.updatedAt == now
  {
    var i := FindIndex(db.users, UserWithId(p.userId));
    var db' := UpdateUser(db, p, now).db;
    assert FirstUserWithId(db.users, p.userId, i);
    assert db'.users[i].email == p.email.value;
    assert forall j :: 0 <= j < |db.users| && j != i ==> db'.users[j].email != p.email.value;
    var l := Login(db', LoginForm(p.email.value, FIXTURE_PASSWORD));
    var k :| FirstWithEmail(db'.users, p.email.value, k) &&
      l.res.data == UserData(db'.users[k].(jwt := Some(db.mockJwt)));
    assert k == i;
  }

  /** `updatePassword`: the old password is not checked and nothing is
      stored; the reply only says whether a user has the ID. */
  function UpdatePassword(db: Db, userId: int): (out: Step)
    ensures out.db == db
    ensures out.res.Success? <==> HasUser(db.users, userId)
    ensures out.res.Success? ==> out.res.data == Null
    ensures out.res.Error? ==> out.res.msg == USER_NOT_FOUND
  {
    if FindIndex(db.users, UserWithId(userId)) == -1 then Step(db, Error(USER_NOT_FOUND))
    else Step(db, Success(Null))
  }

  /** Changing the password changes nothing: logging in still takes the
      fixture password. */
  lemma PasswordChangeIsIgnored(db: Db, userId: int, form: LoginForm)
    ensures Login(UpdatePassword(db, userId).db, form) == Login(db, form)
  {
  }

  /** Delete users (a hard delete): for each listed ID the first user with
      that ID is spliced out. Users whose ID is not listed all survive in
      their order; when IDs are unique, every listed user is gone. */
  function DeleteUsers(db: Db, ids: seq<int>): (out: Step)
    ensures out.res == Success(Null)
    ensures out.db == db.(users := out.db.users)
    ensures var S := set id | id in ids;
      Filter(out.db.users, Outside(UserId, S)) == Filter(db.users, Outside(UserId, S))
    ensures UniqueKeys(db.users, UserId) ==>
      out.db.users == Filter(db.users, Outside(UserId, set id | id in ids))
    ensures (forall j :: 0 <= j < |db.users| ==> db.users[j].userId !in ids) ==> out.db == db
  {
    var users := HardDeleteBy(db.users, ids, UserId);
    HardDeleteKeepsUnlisted(db.users, ids, UserId, set id | id in ids);
    assert UniqueKeys(db.users, UserId) ==>
      users == Filter(db.users, Outside(UserId, set id | id in ids)) by {
      if UniqueKeys(db.users, UserId) { HardDeleteUnique(db.users, ids, UserId); }
    }
    assert (forall j :: 0 <= j < |db.users| ==> db.users[j].userId !in ids) ==> users == db.users by {
      if forall j :: 0 <= j < |db.users| ==> db.users[j].userId !in ids {
        HardDeleteIgnoresUnknown(db.users, ids, UserId);
      }
    }
    Step(db.(users := users), Success(Null))
  }

  /** With unique IDs, a deleted user can no longer be looked up. */
  lemma DeletedUserIsGone(db: Db, ids: seq<int>, id: int)
    requires UniqueKeys(db.users, UserId) && id in ids
    ensures GetUserById(DeleteUsers(db, ids).db, id).res == Error(USER_NOT_FOUND)
  {
    var after := DeleteUsers(db, ids).db.users;
    var S := set x | x in ids;
    assert after == Filter(db.users, Outside(UserId, S));
    forall i | 0 <= i < |after|
      ensures after[i].userId != id
    {
      assert after[i] in Filter(db.users, Outside(UserId, S));
      assert UserId(after[i]) !in S;
    }
  }

  datatype FollowQuery = FollowQuery(other: Option<int>, page: Option<nat>, pageSize: Option<nat>)

  /** `u.userId !== Number(id)`: with the ID absent the comparison is against
      `NaN`, so every user passes. */
  function NotUser(other: Option<int>): (p: User -> bool)
    ensures forall u :: p(u) == (other.None? || u.userId != other.value)
  {
    (u: User) => other.None? || u.userId != other.value
  }

  /** Every user's ID differs from `other`. */
  predicate NoUserIs(users: seq<User>, other: Option<int>) {
    forall j :: 0 <= j < |users| ==> Some(users[j].userId) != other
  }

  /** With unique IDs, leaving out the one user with a given ID leaves
      every other user. */
  lemma LeavesOneOut(users: seq<User>, other: Option<int>)
    requires UniqueKeys(users, UserId) && !NoUserIs(users, other)
    ensures |Filter(users, NotUser(other))| == |users| - 1
  {
    var p := NotUser(other);
    var i :| 0 <= i < |users| && Some(users[i].userId) == other;
    var pre, post := users[..i], users[i + 1..];
    forall j | 0 <= j < |pre|
      ensures p(pre[j])
    {
      assert pre[j] == users[j];
      assert UserId(users[j]) != UserId(users[i]);
    }
    forall j | 0 <= j < |post|
      ensures p(post[j])
    {
      assert post[j] == users[i + 1 + j];
      assert UserId(users[i]) != UserId(users[i + 1 + j]);
    }
    SplitAt(users, i);
    FilterDropsOne(pre, users[i], post, p);
  }

  /** The users other than `other`, counted and paged. When no user has the
      ID, every user is listed; when IDs are unique and one user has it,
      exactly that user is left out. */
  function FollowList(db: Db, q: FollowQuery): (out: Step)
    ensures out.db == db
    ensures out.res.Success? && out.res.data.UserPage?
    ensures out.res.data.users == Paginate(Filter(db.users, NotUser(q.other)), q.page, q.pageSize)
    ensures forall u :: u in out.res.data.users.rows ==> u in db.users && Some(u.userId) != q.other
    ensures NoUserIs(db.users, q.other) ==>
      out.res.data.users == Paginate(db.users, q.page, q.pageSize)
    ensures UniqueKeys(db.users, UserId) && !NoUserIs(db.users, q.other) ==>
      out.res.data.users.total == |db.users| - 1
  {
    var p := NotUser(q.other);
    var filtered := Filter(db.users, p);
    assert NoUserIs(db.users, q.other) ==> filtered == db.users by {
      if NoUserIs(db.users, q.other) { FilterKeepsAll(db.users, p); }
    }
    assert UniqueKeys(db.users, UserId) && !NoUserIs(db.users, q.other) ==>
      |filtered| == |db.users| - 1 by {
      if UniqueKeys(db.users, UserId) && !NoUserIs(db.users, q.other) {
        LeavesOneOut(db.users, q.other);
      }
    }
    Step(db, Success(UserPage(Paginate(filtered, q.page, q.pageSize))))
  }

  /** The following list of the user `q.other` (the request's `followerId`):
      the mock lists every other user. */
  function GetFollowingList(db: Db, q: FollowQuery): (out: Step)
    ensures out.db == db
    ensures out.res.Success? && out.res.data.UserPage?
    ensures out.res.data.users == Paginate(Filter(db.users, NotUser(q.other)), q.page, q.pageSize)
    ensures forall u :: u in out.res.data.users.rows ==> u in db.users && Some(u.userId) != q.other
    ensures NoUserIs(db.users, q.other) ==>
      out.res.data.users == Paginate(db.users, q.page, q.pageSize)
    ensures UniqueKeys(db.users, UserId) && !NoUserIs(db.users, q.other) ==>
      out.res.data.users.total == |db.users| - 1
  {
    FollowList(db, q)
  }

  /** The follower list of the user `q.other` (the request's `followingId`):
      the mock lists every other user. */
  function GetFollowerList(db: Db, q: FollowQuery): (out: Step)
    ensures out.db == db
    ensures out.res.Success? && out.res.data.UserPage?
    ensures out.res.data.users == Paginate(Filter(db.users, NotUser(q.other)), q.page, q.pageSize)
    ensures forall u :: u in out.res.data.users.rows ==> u in db.users && Some(u.userId) != q.other
    ensures NoUserIs(db.users, q.other) ==>
      out.res.data.users == Paginate(db.users, q.page, q.pageSize)
    ensures UniqueKeys(db.users, UserId) && !NoUserIs(db.users, q.other) ==>
      out.res.data.users.total == |db.users| - 1
  {
    FollowList(db, q)
  }
}
