# Blog front end: mock backend, session store, interceptors and route guard

This project is a Dafny model of the parts of a Vue blog front end that hold
state and make decisions:

- **The in-memory mock backend.** Four tables (users, articles, tags,
  comments) and one handler per API call. Each handler is modelled as a
  pure step from the tables to new tables plus the `{ code, msg, data }`
  reply (`MockDb`, `MockUsers`, `MockArticles`, `MockComments`, `MockTags`).
  Shared pieces:
  - list filtering and offset pagination (`Seqs`, `Paging`);
  - the JavaScript notions of "absent", "truthy" and `x || default` the
    handlers rely on (`Records`).
- **The session store.** It is built from browser storage on page load.
  Login and registration fill it from a successful reply, and logout
  empties it. Every change is written through to storage (`UserStore`,
  `BrowserStorage`). The stored user's JSON text is modelled by a small
  self-delimiting codec with a proved round trip (`UserCodec`, `Decimal`).
- **The HTTP client's interceptors.** The request interceptor attaches the
  token. The reply and error interceptors turn business failures into
  rejections and end the session on "NOT_LOGIN" or a 401 (`Request`).
- **The route table and its `beforeEach` guard.** These are in `Router`.
- **A login end to end.** The mock's reply goes through the reply
  interceptor into the store (`SessionFlow`).

Most properties are stated as `ensures` clauses of the operations. Those
relating several operations are lemmas, for example:

- a registered user can log in;
- deleting twice equals deleting once;
- the chained list filters select exactly the rows matching the whole
  query;
- a reload rebuilds the session in memory;
- a redirect is never followed by another;
- logging in end to end installs the user and admits them past the guard.

## Model

| member | source | states |
|---|---|---|
| Paging.PageNumber | src/mock/index.js:94 | `page \|\| 1`: the given page whenever it is non-zero, and page 1 when it is absent or 0 |
| Paging.PageSize | src/mock/index.js:95 | `pageSize \|\| 10`: the given size whenever it is non-zero, and 10 rows when it is absent or 0 |
| Paging.Slice | src/mock/index.js:101 | `slice(start, end)`: bounds clamped to the length, a reversed range is empty, element k is `s[start + k]` |
| Paging.Paginate | src/mock/index.js:94-102 | `total` counts every filtered row; `rows` is the window of at most `pageSize` consecutive rows starting at `(page - 1) * pageSize` |
| Paging.PageHoldsEveryRow | src/mock/index.js:94-102 | every filtered row appears on the page its index falls in, at the position it has within that page |
| Seqs.Filter | src/mock/index.js:77-92 | `filter`: keeps exactly the elements satisfying the predicate, never more rows than the input |
| Seqs.FilterAppend | src/mock/index.js:77-92 | filtering a concatenation filters each part |
| Seqs.FilterKeepsAll | src/mock/index.js:77-92 | a predicate every row satisfies keeps the whole table |
| Seqs.FilterExt | src/mock/index.js:77-92 | predicates agreeing on the table's rows select the same rows |
| Seqs.FilterSameCount | src/mock/index.js:226-236 | tables of equal length whose rows agree on the predicate position by position yield lists of equal length |
| Seqs.FilterFuse | src/mock/index.js:226-232 | filtering twice equals filtering once by the conjunction |
| Seqs.StageFuse | src/mock/index.js:79-92 | an optional stage after a filter equals one filter by the combined predicate |
| Seqs.FindIndex | src/mock/index.js:215 | `findIndex`: -1 exactly when no row matches; otherwise a matching row with no match before it |
| Seqs.UpdateFirst | src/mock/index.js:161-164 | `find` then mutate: only the first matching row changes, and the table keeps its length |
| Seqs.SoftDeleteBy | src/mock/index.js:211-221 | for each listed ID the first row with that key is marked; keys and length are kept, and the other rows are untouched |
| Seqs.RemoveFirst | src/mock/index.js:436-439 | `findIndex` then `splice(i, 1)`: with no row carrying the key the table is unchanged; otherwise exactly the first row with the key is cut out and the rest keep their order |
| Seqs.HardDeleteBy | src/mock/index.js:432-442 | the deletion loop over a list of IDs never adds rows |
| Seqs.FilterSkips | src/mock/index.js:436-439 | a rejected row disappears from a filter wherever it sits |
| Seqs.RemoveFirstKeepsOutside | src/mock/index.js:436-439 | removing a listed row leaves the unlisted rows, in order |
| Seqs.HardDeleteKeepsUnlisted | src/mock/index.js:432-442 | every row whose key was not listed survives, in order |
| Seqs.HardDeleteIgnoresUnknown | src/mock/index.js:432-442 | a list naming no row leaves the table as it was |
| Seqs.Map | src/mock/index.js:239-245 | `map`: same length, element i is `f(s[i])` |
| Seqs.FilterDropsOne | src/mock/index.js:341 | when only one row fails the predicate, the filter is the table without that row |
| Seqs.RemoveFirstUniqueFilters | src/mock/index.js:436-439 | with unique keys, the splice removes exactly the rows with that key |
| Seqs.RemoveFirstStaysUnique | src/mock/index.js:436-439 | the splice keeps keys unique |
| Seqs.ListedSplit | src/mock/index.js:434-435 | the IDs a list names are its head and those its tail names |
| Seqs.HardDeleteUnique | src/mock/index.js:432-442 | with unique keys, deletion removes exactly the rows whose key is listed and keeps the rest in order |
| MockDb.FreshId | src/mock/index.js:55 | a new ID is at least 1 and above every ID in use; when the IDs are exactly 1..n it equals `length + 1` |
| MockDb.Response.Code | src/mock/index.js:12-23 | `code` is 1 exactly for `success` and 0 exactly for `error` |
| MockDb.Response.Msg | src/mock/index.js:12-23 | `msg` is "success" for `success` and the given message for `error` |
| MockDb.Response.Data | src/mock/index.js:12-23 | `data` is `null` for `error` and the given data for `success` |
| MockDb.NextId | src/mock/index.js:174 | `length + 1`, as new articles (line 174) and comments (line 262) are numbered: at least 1 and above every position of the table |
| MockDb.NextIdIsFresh | src/mock/index.js:174 | when rows are numbered 1..n by position, `length + 1` is the ID `FreshId` picks, so no row has it |
| Decimal.IntToString | src/mock/index.js:56 | `String(n)`: a non-empty decimal numeral whose value is `n`, without leading zeros, with a leading "-" for a negative `n` (also the `用户 ${userId}` text at line 243) |
| MockUsers.Login | src/mock/index.js:28-45 | succeeds exactly for a known email with the password "123456"; returns the first user with that email plus the fixture token; otherwise "邮箱或密码错误"; the tables never change |
| MockUsers.Register | src/mock/index.js:48-72 | refuses a taken email and changes nothing; otherwise appends one user with an unused ID, keeps user IDs unique, derives identifier and name from the ID, sets no password, the default avatar, role, status and gender 0, no birthday or signature and both timestamps `now`, and returns the new user with the token; the ID comes from `FreshId`, not from `length + 1` as at line 55 (see Findings) |
| MockUsers.AddUser | src/mock/index.js:453-477 | refuses a taken email; otherwise appends one user with an unused ID, identifier `100000000 + id`, no password and no token, both timestamps `now`; a falsy role, status or gender becomes 0, a falsy avatar the default, a falsy birthday or signature `null`; user IDs stay unique; the ID comes from `FreshId`, not from `length + 1` as at line 460 (see Findings) |
| MockUsers.AddedUserIsFound | src/mock/index.js:106-113 | with the corrected `AddUser` (see Findings), a user an administrator adds is what a lookup of its new ID returns; as written, a lookup after a delete can find an older user with that ID |
| MockUsers.RegisterThenLogin | src/mock/index.js:28-72 | a freshly registered email logs in with the fixture password and finds the user just registered |
| MockUsers.RegisterTwice | src/mock/index.js:48-53 | registering the same email again is refused and changes nothing |
| MockUsers.UserRowsConjunctive | src/mock/index.js:77-92 | the chained filters select exactly the matching users, in table order |
| MockUsers.GetUserList | src/mock/index.js:75-103 | the reply pages through exactly the matching users; nothing changes |
| MockUsers.GetUserById | src/mock/index.js:106-113 | succeeds exactly when a user has the ID, returning the first such user; otherwise "用户不存在" |
| MockUsers.PatchUser | src/mock/index.js:484-487 | `Object.assign`: each of name, email, role, status, avatar, gender, birthday and signature is the edit's value when carried and the old one otherwise, and a carried `null` birthday or signature clears it; ID, identifier, password, token and creation time stay; the update time is stamped |
| MockUsers.UpdateUser | src/mock/index.js:480-491 | succeeds exactly when a user has the ID; only the first such user is patched; otherwise "用户不存在" and nothing changes |
| MockUsers.UpdatedEmailLogsIn | src/mock/index.js:28-45 | after an edit to an unused email, that email logs in and finds the edited user |
| MockUsers.UpdatePassword | src/mock/index.js:507-515 | stores nothing; succeeds exactly when a user has the ID, otherwise "用户不存在" |
| MockUsers.PasswordChangeIsIgnored | src/mock/index.js:507-515 | after a password change every login attempt gets the same reply as before |
| MockUsers.DeleteUsers | src/mock/index.js:494-504 | unlisted users survive in order; with unique IDs exactly the listed users go; unknown IDs change nothing |
| MockUsers.DeletedUserIsGone | src/mock/index.js:494-504 | with unique IDs, a lookup of a deleted user's ID answers "用户不存在" |
| MockUsers.LeavesOneOut | src/mock/index.js:341-348 | with unique IDs, leaving out the user with a given ID leaves one fewer |
| MockUsers.FollowList | src/mock/index.js:339-351 | the page is the user table without the users whose ID is the given one, counted and paged; with no such user the whole table pages through; with unique IDs the total is one fewer |
| MockUsers.GetFollowingList | src/mock/index.js:339-351 | the following list is every user but the given one, paged, as above |
| MockUsers.GetFollowerList | src/mock/index.js:354-366 | the follower list is every user but the given one, paged, as above |
| MockArticles.EarlyStagesConjunctive | src/mock/index.js:120-133 | the search, article and author stages together are one filter |
| MockArticles.ArticleRowsConjunctive | src/mock/index.js:118-145 | the six chained stages select exactly the matching articles, in order |
| MockArticles.GetArticleList | src/mock/index.js:116-156 | the reply pages through exactly the matching articles; nothing changes |
| MockArticles.BumpFirst | src/mock/index.js:297-301 | only the first article with the ID has its counter bumped; the length is kept |
| MockArticles.GetArticleById | src/mock/index.js:159-168 | succeeds exactly when an article has the ID; then the first one counts a view and the updated copy is returned; otherwise "文章不存在" and nothing changes |
| MockArticles.ReadFinds | src/mock/index.js:159-168 | a read of an ID returns the first article with that ID, with one more view |
| MockArticles.FirstWithIdExists | src/mock/index.js:161 | when some article has the ID, `find` returns a first one |
| MockArticles.ViewedTwice | src/mock/index.js:159-168 | reading twice counts two views |
| MockArticles.TagNameOf | src/mock/index.js:177 | the name of the first tag with the ID, or "" |
| MockArticles.AddArticle | src/mock/index.js:171-194 | the new article goes to the front, numbered `length + 1`, counters zero, not deleted; a falsy tag ID becomes `null`, the tag name is that of the first tag with the ID or ""; a falsy summary or cover becomes ""; both timestamps `now`; published exactly for status 1, at the given time or `now` |
| MockArticles.AddedArticleIsFound | src/mock/index.js:159-194 | a lookup of the new ID finds the new article, as it sits in front |
| MockArticles.PatchArticle | src/mock/index.js:201-204 | `Object.assign`: each of tag ID, tag name, title, content, summary, cover, status and publish time is the edit's value when carried and the old one otherwise, and a carried `null` tag ID or publish time clears it; ID, author and counters stay; the update time is stamped |
| MockArticles.UpdateArticle | src/mock/index.js:197-208 | succeeds exactly when an article has the ID; only the first one is patched; otherwise "文章不存在" and nothing changes |
| MockArticles.UpdatedArticleIsFound | src/mock/index.js:159-208 | reading an edited article returns the patched article with a view counted |
| MockArticles.DeleteArticles | src/mock/index.js:211-221 | soft delete: same length and order; the first article with each listed ID is flagged and nothing else changes |
| MockArticles.DeleteArticlesIdempotent | src/mock/index.js:211-221 | deleting the same IDs again changes nothing |
| MockArticles.ToggleArticleLike | src/mock/index.js:295-303 | the first article with the ID gains one like; nothing else changes; the reply echoes the article ID |
| MockArticles.LikeIsCounted | src/mock/index.js:159-168 | after a like, the next read returns the article with one more like and one more view |
| MockArticles.ToggleArticleFavorite | src/mock/index.js:306-314 | the first article with the ID gains one favorite; nothing else changes |
| MockArticles.FavoriteIsCounted | src/mock/index.js:159-168 | after a favorite, the next read of the article shows one more favorite and one more view |
| MockArticles.GetFavoriteList | src/mock/index.js:317-330 | lists only published, undeleted table articles |
| MockArticles.FavoritesAreAListQuery | src/mock/index.js:317-330 | the favorites reply equals the article list asked for status 1 and not deleted |
| MockComments.CommentRowsConjunctive | src/mock/index.js:226-236 | the chained stages select exactly the matching comments |
| MockComments.AuthorName | src/mock/index.js:240-243 | the name of the first user with the author's ID, else "用户 " and the ID |
| MockComments.GetCommentList | src/mock/index.js:224-256 | total counts the matching comments; rows are the page of them, each with its author's name |
| MockComments.AddComment | src/mock/index.js:259-279 | appends exactly one comment numbered `length + 1`, with a falsy parent ID stored as `null`, no deletion reason and both timestamps `now`; the first article with its article ID gains exactly one comment count |
| MockComments.AddCommentIsListed | src/mock/index.js:224-279 | a new top-level comment raises its article's list total by one, in step with the article's comment count |
| MockComments.DeleteComments | src/mock/index.js:282-292 | soft delete: the first comment with each listed ID is flagged, nothing else changes |
| MockComments.DeleteCommentsIdempotent | src/mock/index.js:282-292 | deleting the same IDs again changes nothing |
| MockComments.DeletedCommentsStayListed | src/mock/index.js:224-292 | soft-deleted comments still count in the list |
| MockTags.GetTagList | src/mock/index.js:369-386 | with a status (0 included) the page is exactly the tags with that status, in table order, counted and paged; without one every tag |
| MockTags.GetTagById | src/mock/index.js:389-396 | succeeds exactly when a tag has the ID, returning the first one; otherwise "标签不存在" |
| MockTags.AddTag | src/mock/index.js:399-415 | refuses a name in use and changes nothing; otherwise appends one tag with an unused ID, keeping tag IDs unique; use count 0, a falsy status becomes 1, both timestamps `now`; the ID comes from `FreshId`, not from `length + 1` as at line 406 (see Findings) |
| MockTags.AddedTagIsFound | src/mock/index.js:389-415 | with the corrected `AddTag` (see Findings), a new tag is what a lookup of its ID returns; as written, a lookup after a delete can find an older tag with that ID |
| MockTags.AddTagKeepsNamesUnique | src/mock/index.js:401-404 | tag names stay unique |
| MockTags.PatchTag | src/mock/index.js:422-425 | `Object.assign`: fields the edit carries overwrite, ID and creation time stay, the update time is stamped |
| MockTags.UpdateTag | src/mock/index.js:418-429 | succeeds exactly when a tag has the ID; only the first one is patched; otherwise "标签不存在" and nothing changes |
| MockTags.UpdatedTagIsFound | src/mock/index.js:389-429 | a lookup after an edit finds the tag with the new name and time |
| MockTags.UpdateTagTwice | src/mock/index.js:418-429 | applying an edit twice equals applying it once at the later time |
| MockTags.DeleteTags | src/mock/index.js:432-442 | unlisted tags survive in order; with unique IDs exactly the listed tags go; unknown IDs change nothing |
| MockTags.DeletedTagIsGone | src/mock/index.js:389-442 | with unique IDs, a lookup of a deleted tag's ID answers "标签不存在" |
| BrowserStorage.SetItem | src/stores/user.js:25-26 | `setItem`: the key reads back the value, or "null" for `null`; other keys unchanged |
| BrowserStorage.ClearSession | src/stores/user.js:54-55 | removes the token and the stored user; every other entry stays |
| BrowserStorage.ClearSessionIdempotent | src/utils/request.js:35-36 | clearing twice equals clearing once |
| UserCodec.DecodeEncodeValue | src/stores/user.js:26 | every field value reads back as itself, whatever text follows it |
| UserCodec.DecodeEncodeValues | src/stores/user.js:26 | a list of values reads back as itself |
| UserCodec.FieldsRoundTrip | src/stores/user.js:26 | a user rebuilt from its fields is the same user |
| UserCodec.UserInfoRoundTrip | src/stores/user.js:7 | what the store writes as its user (a user or `null`) parses back unchanged |
| UserCodec.EncodeUserInfo | src/stores/user.js:26 | `JSON.stringify(userInfo)`: `null` is written as "null"; a user as text that is not "null" |
| UserCodec.DecodeUserInfo | src/stores/user.js:7 | `JSON.parse`: "null" and only "null" reads as no user; a user is read only from object text; empty text fails to parse |
| UserStore.Init | src/stores/user.js:5-10 | the store on page load: logged in exactly when a non-empty token is stored; a missing or empty stored user reads as `null` |
| UserStore.IsLoggedIn | src/stores/user.js:13 | `!!state.token`: the token is present and non-empty |
| UserStore.IsAdmin | src/stores/user.js:14 | `state.userInfo?.role === 1`: a user is present and has role 1 |
| UserStore.SignIn | src/stores/user.js:19-48 | success exactly for a code-1 reply with a user, which is installed with its token in memory and storage; a rejection reports its message and changes nothing; other codes give `undefined`; code 1 without a user fails after clearing the user |
| UserStore.Logout | src/stores/user.js:51-56 | no user, the empty token, session entries removed from storage |
| UserStore.UpdateUserInfo | src/stores/user.js:59-62 | the user is replaced in memory and storage; the token and login state stay |
| UserStore.ClearedStorageSignsOut | src/stores/user.js:5-10 | storage without a session reloads as signed out |
| UserStore.LogoutSyncs | src/stores/user.js:51-56 | after logout a reload rebuilds the same session |
| UserStore.UpdateKeepsSynced | src/stores/user.js:59-62 | updating the user keeps a reload's session equal to the store's |
| UserStore.SignInKeepsSynced | src/stores/user.js:19-48 | a login or registration reply that installs a user with a token, or that changes nothing (a rejection, or a code other than 1), keeps a reload's session equal to the store's; a code-1 reply without a user (memory cleared, storage kept) and a user without a token (see `NullTokenLogsInAfterReload`) break that agreement and are excluded |
| UserStore.NullTokenLogsInAfterReload | src/stores/user.js:24-25 | a user with a `null` token is signed out in memory but logged in after a reload, as storage holds "null" |
| UserStore.SessionEndReloadsSignedOut | src/utils/request.js:34-49 | after "NOT_LOGIN" or a 401, the login page starts signed out |
| Request.AttachToken | src/utils/request.js:12-17 | the `token` header is set to the stored token exactly when it is truthy; nothing else about the request changes |
| Request.NoSessionNoHeader | src/utils/request.js:12-17 | without a session the request goes out unchanged |
| Request.OnResponse | src/utils/request.js:26-41 | a code-1 body resolves unchanged; otherwise it rejects with the message or "请求失败"; the session ends exactly on "NOT_LOGIN" |
| Request.RejectionHasMessage | src/utils/request.js:39 | a business rejection always carries a non-empty message |
| Request.OnError | src/utils/request.js:42-51 | the error is passed on unchanged; the session ends exactly on a 401 |
| Request.InterceptorsKeepOtherEntries | src/utils/request.js:26-51 | no reply touches storage entries other than the session's two |
| Router.Guard | src/router/index.js:63-85 | proceeds exactly when every flag of the route is satisfied; a login-only page redirects a visitor who is not logged in to the login page with the path; any other refusal goes home |
| Router.Named | src/router/index.js:7-58 | the route with a name, or none when no route carries it |
| Router.RouteTable | src/router/index.js:7-58 | nine routes; the editor, profile, favorites and admin pages need a login, only the admin page needs an administrator, only the login and register pages are for guests |
| Router.RoutesAreDistinct | src/router/index.js:7-58 | no two routes share a name or a path |
| Router.OpenRoutesProceed | src/router/index.js:63-85 | a route without flags admits everyone |
| Router.AdminPageOnlyForAdmins | src/router/index.js:48-85 | the admin page admits exactly a logged-in administrator; others not logged in are sent to log in |
| Router.NoRedirectChain | src/router/index.js:63-85 | the page a redirect leads to admits the same session |
| Router.SignedOutVisitor | src/router/index.js:7-85 | a signed-out visitor is sent to log in from the login-only pages and admitted everywhere else |
| SessionFlow.ReplyBody | src/mock/index.js:12-23 | a success reply becomes code 1 with "success" and its data when that is a user; an error reply becomes code 0 with its own message and no data |
| SessionFlow.LoginRefused | src/stores/user.js:19-32 | a refused mock login reaches the store as "邮箱或密码错误" and nothing changes |
| SessionFlow.LoginAccepted | src/stores/user.js:19-32 | an accepted mock login installs the found user with the fixture token, in agreement with storage |
| SessionFlow.LoginEndToEnd | src/stores/user.js:19-32 | login succeeds exactly for known credentials; then the token goes on the next request and the guard sends the user away from the login page |
| FreshIds.AddTagAsWritten | src/mock/index.js:399-415 | `addTag` as written: the new tag is numbered `length + 1` and is otherwise the tag the corrected `AddTag` appends; the other tables are unchanged |
| FreshIds.DeleteFirstOfThreeTags | src/mock/index.js:432-442 | deleting tag 1 from tags 1, 2, 3 leaves tags 2 and 3 |
| FreshIds.AddTagAfterDelete | src/mock/index.js:399-415 | next to tags 2 and 3 the as-written tag is numbered 3 again, the corrected one 4 |
| FreshIds.AddTagAsWrittenReusesId | src/mock/index.js:406 | tags 1, 2, 3, delete 1, add: as written two tags share ID 3; the corrected `AddTag` keeps IDs unique |
| FreshIds.RegisterAsWritten | src/mock/index.js:48-72 | `register` as written: the new user is numbered `length + 1`, with identifier and name from that number, and is otherwise the user the corrected `Register` appends; the other tables are unchanged |
| FreshIds.DeleteFirstOfTwoUsers | src/mock/index.js:494-504 | deleting user 1 from users 1 and 2 leaves user 2 |
| FreshIds.RegisterAfterDelete | src/mock/index.js:48-72 | next to user 2 alone the as-written account is numbered 2 again, the corrected one 3 |
| FreshIds.RegisterAsWrittenReusesId | src/mock/index.js:55-57 | users 1 and 2, delete 1, register: as written two users share ID 2; the corrected `Register` numbers the new user 3 |
| FreshIds.AddUserAsWritten | src/mock/index.js:453-477 | `addUser` as written: the new user is numbered `length + 1`, with the identifier from that number, and is otherwise the user the corrected `AddUser` appends; the other tables are unchanged |
| FreshIds.AddUserAfterDelete | src/mock/index.js:453-477 | next to user 2 alone the as-written user is numbered 2 again, the corrected one 3 |
| FreshIds.AddUserAsWrittenReusesId | src/mock/index.js:460-461 | users 1 and 2, delete 1, add a user: as written two users share ID 2; the corrected `AddUser` numbers the new user 3 |

## Left out

- The artificial latency (`delay`) and the `async`/`await` plumbing. Each
  handler is one atomic step.
- The `USE_MOCK` switch (`false` in the source) and the axios instance's
  base URL and timeout. The model describes the mock as if it were in use.
- Clock readings (`new Date().toISOString()...`) are an opaque `now`
  parameter.
- Fixture data. The tables are any tables, and `mockJwt` is a field of the
  state.
- The comma-separated ID strings of the delete handlers
  (`ids.split(',').map(Number)`). The model takes the list of numbers the
  split yields, so `NaN` entries, which match no row, are not modelled.
- `Number(...)` conversions of query parameters. Queries carry numbers
  directly.
- `uploadImage`: it only echoes a placeholder URL after the delay.
- MockArticles.ToggleArticleLike: the reply echoes only the article ID,
  while the mock echoes the whole request body. The body holds nothing else
  the model reads.
- Paging.PageNumber: a negative page number is excluded by the `nat` type.
  In JavaScript `-1 || 1` stays -1 and `slice` would then count from the
  end; the model does not describe that.
- Paging.PageSize: a negative page size is excluded by the `nat` type, for
  the same reason.
- `toggleFollow`: it always answers success and changes nothing.
- `Object.assign(record, { ...data })` is modelled for the fields the edit
  forms carry. An edit can also copy arbitrary extra keys (even an ID or a
  password), and these are not modelled.
- `(article.viewCount || 0) + 1` in `getArticleById`. Counters are always
  present numbers in the model, so the `|| 0` default is not exercised.
- JSON itself. `JSON.stringify`/`JSON.parse` of the stored user is
  replaced by a self-delimiting text codec with the same round-trip
  property. The model returns `None` for any stored text its codec did not
  write; the application's own writes never produce such text. What the
  source does with such text is not modelled: valid JSON that is not a user
  (`"x"`, `{}`) would be installed as the user, and malformed text makes
  the store's initialisation throw.
- `window.location.href = '/login'` is the `toLogin` flag of `Handled`.
- Router path matching, the lazily loaded components and navigation
  itself. The guard is given the matched route's `meta` and the full path.
- The text of the engine's `TypeError` for a code-1 reply with `data: null`.
  It is a fixed constant.
- A reply whose user has no `jwt` key at all, as opposed to `jwt: null`.
  `setItem` would store "undefined" instead of "null". Both are truthy
  texts, so `UserStore.NullTokenLogsInAfterReload` describes both.

- MockUsers.Register: this is the corrected handler. It numbers the new
  user with `FreshId`, not with `length + 1` as line 55 does; the two agree
  only while the IDs are exactly 1..n. `FreshIds.RegisterAsWritten` is the
  handler as written.
- MockUsers.AddUser: this is the corrected handler. It numbers the new user
  with `FreshId`, not with `length + 1` as line 460 does; the two agree only
  while the IDs are exactly 1..n. `FreshIds.AddUserAsWritten` is the
  handler as written.
- MockTags.AddTag: this is the corrected handler. It numbers the new tag
  with `FreshId`, not with `length + 1` as line 406 does; the two agree only
  while the IDs are exactly 1..n. `FreshIds.AddTagAsWritten` is the handler
  as written.

## Findings

| source | as written | input that shows it | evidently intended | confidence | as-written member | corrected member |
|---|---|---|---|---|---|---|
| src/mock/index.js:406 | a new tag is numbered `mockTags.length + 1`, but `deleteTags` removes rows with `splice` | tags 1, 2, 3; delete tag 1; add tag "d": it is numbered 3, the ID tag 3 already has | a new tag gets an ID no tag has, so later lookups, edits and deletes by ID reach one tag | not executed | FreshIds.AddTagAsWrittenReusesId | MockTags.AddTag |
| src/mock/index.js:55-57 | a new user is numbered `mockUsers.length + 1` but `deleteUsers` removes rows with `splice` | users 1, 2; delete user 1; register "c@x": the account is numbered 2, the ID user 2 already has | a new account gets an ID no user has | not executed | FreshIds.RegisterAsWrittenReusesId | MockUsers.Register |
| src/mock/index.js:460-461 | a user an administrator adds is numbered `mockUsers.length + 1`, but `deleteUsers` removes rows with `splice` | users 1, 2; delete user 1; add user "c@x": the user is numbered 2, the ID user 2 already has | a new user gets an ID no user has | not executed | FreshIds.AddUserAsWrittenReusesId | MockUsers.AddUser |

The corrected handlers number a new row one above the largest ID in use
(`MockDb.FreshId`). Its contract shows this equals the source's
`length + 1` for any table whose IDs are exactly 1..n; the
Findings rows show a delete after which they differ. The corrected
handlers otherwise behave as written. For
articles and comments the source's `length + 1` is kept: their deletes
are soft, so the tables only grow.
