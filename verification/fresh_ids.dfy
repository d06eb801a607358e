/** How the mock backend numbers new users and tags, as written: `length + 1`
    of the table. The user and tag tables lose rows on delete (a splice), so
    after a delete that number can already be taken and two rows end up with
    one ID. The rest of the model numbers new rows with `MockDb.FreshId`
    instead, one more than the largest ID in use. The two agree when the IDs
    in use are 1 to n for a table of n rows. */
module FreshIds {

  import opened Records
  import opened Seqs
  import opened MockDb
  import opened MockTags
  import opened MockUsers

  /** `addTag` as written: the new tag is numbered `length + 1`; in every
      other field it is the tag the corrected `AddTag` appends. */
  function AddTagAsWritten(db: Db, form: TagForm, now: string): (out: Step)
    ensures NameTaken(db.tags, form.tagName) ==> out == Step(db, Error(TAG_EXISTS))
    ensures !NameTaken(db.tags, form.tagName) ==>
      && out.res == Success(Null)
      && |out.db.tags| == |db.tags| + 1
      && out.db.tags[..|db.tags|] == db.tags
      && out.db.tags[|db.tags|].tagId == |db.tags| + 1
      && out.db == db.(tags := out.db.tags)
      && out.db.tags[|db.tags|] == AddTag(db, form, now).db.tags[|db.tags|].(tagId := |db.tags| + 1)
  {
    if NameTaken(db.tags, form.tagName) then Step(db, Error(TAG_EXISTS))
    else
      var tags := db.tags + [NewTag(NextId(db.tags), form, now)];
      assert tags[..|db.tags|] == db.tags;
      Step(db.(tags := tags), Success(Null))
  }

  function SomeTag(id: int, name: string): Tag {
    Tag(id, name, 0, 1, "", "")
  }

  /** Deleting tag 1 from tags 1, 2, 3 leaves tags 2 and 3. */
  lemma DeleteFirstOfThreeTags(db: Db)
    requires db.tags == [SomeTag(1, "a"), SomeTag(2, "b"), SomeTag(3, "c")]
    ensures UniqueKeys(db.tags, TagId)
    ensures DeleteTags(db, [1]).db == db.(tags := [SomeTag(2, "b"), SomeTag(3, "c")])
  {
    var S := set id | id in [1];
    assert S == {1};
    var p := Outside(TagId, S);
    assert db.tags[1..][1..] == [SomeTag(3, "c")];
    assert Filter([SomeTag(3, "c")], p) == [SomeTag(3, "c")];
    assert Filter(db.tags[1..], p) == [SomeTag(2, "b"), SomeTag(3, "c")];
    assert Filter(db.tags, p) == [SomeTag(2, "b"), SomeTag(3, "c")];
  }

  /** Adding a tag to tags 2 and 3: as written it is numbered 3 again; the
      corrected `AddTag` numbers it 4. */
  lemma AddTagAfterDelete(after: Db, now: string)
    requires after.tags == [SomeTag(2, "b"), SomeTag(3, "c")]
    ensures var written := AddTagAsWritten(after, TagForm("d", None), now).db.tags;
      |written| == 3 && written[1].tagId == 3 && written[2].tagId == 3 && !UniqueKeys(written, TagId)
    ensures var fixed := AddTag(after, TagForm("d", None), now).db.tags;
      |fixed| == 3 && fixed[2].tagId == 4 && UniqueKeys(fixed, TagId)
  {
    assert !NameTaken(after.tags, "d");
    var written := AddTagAsWritten(after, TagForm("d", None), now).db.tags;
    assert written[1] == after.tags[1];
    assert TagId(written[1]) == TagId(written[2]);
    assert UniqueKeys(after.tags, TagId);
    var fixed := AddTag(after, TagForm("d", None), now).db.tags;
    assert fixed[2].tagId == FreshId(after.tags, TagId);
  }

  /** Tags 1, 2, 3; delete tag 1; add a tag: as written the new tag is
      numbered 3, the ID tag 3 already has. The corrected `AddTag` numbers
      it 4 and the IDs stay unique. */
  lemma AddTagAsWrittenReusesId(db: Db, now: string)
    requires db.tags == [SomeTag(1, "a"), SomeTag(2, "b"), SomeTag(3, "c")]
    ensures UniqueKeys(db.tags, TagId)
    ensures var after := DeleteTags(db, [1]).db;
      !UniqueKeys(AddTagAsWritten(after, TagForm("d", None), now).db.tags, TagId)
    ensures var after := DeleteTags(db, [1]).db;
      UniqueKeys(AddTag(after, TagForm("d", None), now).db.tags, TagId)
  {
    DeleteFirstOfThreeTags(db);
    AddTagAfterDelete(DeleteTags(db, [1]).db, now);
  }

  /** `register` as written: the new user is numbered `length + 1`, and the
      identifier and user name derive from that number; in every other field
      it is the user the corrected `Register` appends. */
  function RegisterAsWritten(db: Db, form: RegisterForm, now: string): (out: Step)
    ensures EmailTaken(db.users, form.email) ==> out == Step(db, Error(ACCOUNT_EXISTS))
    ensures !EmailTaken(db.users, form.email) ==>
      && |out.db.users| == |db.users| + 1
      && out.db.users[..|db.users|] == db.users
      && out.db.users[|db.users|].userId == |db.users| + 1
      && out.res == Success(UserData(out.db.users[|db.users|]))
      && out.db == db.(users := out.db.users)
      && var id := |db.users| + 1;
        out.db.users[|db.users|] == Register(db, form, now).db.users[|db.users|].(
          userId := id, identifier := NewIdentifier(id), userName := "user" + NewIdentifier(id))
  {
    if EmailTaken(db.users, form.email) then Step(db, Error(ACCOUNT_EXISTS))
    else
      var u := RegisteredUser(NextId(db.users), form.email, db.mockJwt, now);
      var users := db.users + [u];
      assert users[..|db.users|] == db.users;
      Step(db.(users := users), Success(UserData(u)))
  }

  function SomeUser(id: int, email: string): User {
    User(id, "", "", email, None, 0, 0, DEFAULT_AVATAR, 0, None, None, "", "", None)
  }

  /** Deleting user 1 from users 1 and 2 leaves user 2. */
  lemma DeleteFirstOfTwoUsers(db: Db)
    requires db.users == [SomeUser(1, "a@x"), SomeUser(2, "b@x")]
    ensures UniqueKeys(db.users, UserId)
    ensures DeleteUsers(db, [1]).db == db.(users := [SomeUser(2, "b@x")])
  {
    var S := set id | id in [1];
    assert S == {1};
    assert Filter(db.users, Outside(UserId, S)) == [SomeUser(2, "b@x")];
  }

  /** Registering next to user 2 alone: as written the account is numbered
      2 again; the corrected `Register` numbers it 3. */
  lemma RegisterAfterDelete(after: Db, now: string)
    requires after.users == [SomeUser(2, "b@x")]
    ensures var written := RegisterAsWritten(after, RegisterForm("c@x"), now).db.users;
      |written| == 2 && written[0].userId == 2 && written[1].userId == 2 && !UniqueKeys(written, UserId)
    ensures var fixed := Register(after, RegisterForm("c@x"), now).db.users;
      |fixed| == 2 && fixed[1].userId == 3 && UniqueKeys(fixed, UserId)
  {
    assert !EmailTaken(after.users, "c@x");
    var written := RegisterAsWritten(after, RegisterForm("c@x"), now).db.users;
    assert written[0] == after.users[0];
    assert UserId(written[0]) == UserId(written[1]);
    assert UniqueKeys(after.users, UserId);
    var fixed := Register(after, RegisterForm("c@x"), now).db.users;
    assert fixed[1].userId == FreshId(after.users, UserId);
  }

  /** Users 1 and 2; delete user 1; register: as written the new account is
      numbered 2, the ID user 2 already has. The corrected `Register` numbers
      it 3 and the IDs stay unique. */
  lemma RegisterAsWrittenReusesId(db: Db, now: string)
    requires db.users == [SomeUser(1, "a@x"), SomeUser(2, "b@x")]
    ensures UniqueKeys(db.users, UserId)
    ensures var after := DeleteUsers(db, [1]).db;
      !UniqueKeys(RegisterAsWritten(after, RegisterForm("c@x"), now).db.users, UserId)
    ensures var after := DeleteUsers(db, [1]).db;
      UniqueKeys(Register(after, RegisterForm("c@x"), now).db.users, UserId)
  {
    DeleteFirstOfTwoUsers(db);
    RegisterAfterDelete(DeleteUsers(db, [1]).db, now);
  }

  /** `addUser` as written: the new user is numbered `length + 1`, and the
      identifier derives from that number; in every other field it is the
      user the corrected `AddUser` appends. */
  function AddUserAsWritten(db: Db, form: NewUserForm, now: string): (out: Step)
    ensures EmailTaken(db.users, form.email) ==> out == Step(db, Error(ACCOUNT_EXISTS))
    ensures !EmailTaken(db.users, form.email) ==>
      && out.res == Success(Null)
      && |out.db.users| == |db.users| + 1
      && out.db.users[..|db.users|] == db.users
      && out.db.users[|db.users|].userId == |db.users| + 1
      && out.db == db.(users := out.db.users)
      && var id := |db.users| + 1;
        out.db.users[|db.users|] == AddUser(db, form, now).db.users[|db.users|].(
          userId := id, identifier := NewIdentifier(id))
  {
    if EmailTaken(db.users, form.email) then Step(db, Error(ACCOUNT_EXISTS))
    else
      var users := db.users + [FormUser(NextId(db.users), form, now)];
      assert users[..|db.users|] == db.users;
      Step(db.(users := users), Success(Null))
  }

  const NEW_USER_FORM := NewUserForm("c", "c@x", None, None, None, None, None, None)

  /** Adding a user next to user 2 alone: as written the user is numbered 2
      again; the corrected `AddUser` numbers it 3. */
  lemma AddUserAfterDelete(after: Db, now: string)
    requires after.users == [SomeUser(2, "b@x")]
    ensures var written := AddUserAsWritten(after, NEW_USER_FORM, now).db.users;
      |written| == 2 && written[0].userId == 2 && written[1].userId == 2 && !UniqueKeys(written, UserId)
    ensures var fixed := AddUser(after, NEW_USER_FORM, now).db.users;
      |fixed| == 2 && fixed[1].userId == 3 && UniqueKeys(fixed, UserId)
  {
    assert !EmailTaken(after.users, "c@x");
    var written := AddUserAsWritten(after, NEW_USER_FORM, now).db.users;
    assert written[0] == after.users[0];
    assert UserId(written[0]) == UserId(written[1]);
    assert UniqueKeys(after.users, UserId);
    var fixed := AddUser(after, NEW_USER_FORM, now).db.users;
    assert fixed[1].userId == FreshId(after.users, UserId);
  }

  /** Users 1 and 2; delete user 1; add a user: as written the new user is
      numbered 2, the ID user 2 already has. The corrected `AddUser` numbers
      it 3 and the IDs stay unique. */
  lemma AddUserAsWrittenReusesId(db: Db, now: string)
    requires db.users == [SomeUser(1, "a@x"), SomeUser(2, "b@x")]
    ensures UniqueKeys(db.users, UserId)
    ensures var after := DeleteUsers(db, [1]).db;
      !UniqueKeys(AddUserAsWritten(after, NEW_USER_FORM, now).db.users, UserId)
    ensures var after := DeleteUsers(db, [1]).db;
      UniqueKeys(AddUser(after, NEW_USER_FORM, now).db.users, UserId)
  {
    DeleteFirstOfTwoUsers(db);
    AddUserAfterDelete(DeleteUsers(db, [1]).db, now);
  }
}
