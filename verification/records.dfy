/** The four record kinds the mock backend keeps in its tables, together with
    the JavaScript notions of "absent" and "truthy" that the handlers use when
    reading optional request fields. */
module Records {

  /** A request field that may be left out (`undefined`), or a record field
      that may hold `null`. */
  datatype Option<+T> = None | Some(value: T) {
    function GetOr(default: T): T {
      match this
      case Some(v) => v
      case None => default
    }
  }

  /** `if (x)` on an optional string: absent and the empty string are falsy. */
  predicate TruthyStr(o: Option<string>) {
    o.Some? && o.value != ""
  }

  /** `if (x)` on an optional number: absent and `0` are falsy. */
  predicate TruthyInt(o: Option<int>) {
    o.Some? && o.value != 0
  }

  /** `x || d` on an optional string. */
  function StrOr(o: Option<string>, d: string): (r: string)
    ensures TruthyStr(o) ==> r == o.value
    ensures !TruthyStr(o) ==> r == d
  {
    if TruthyStr(o) then o.value else d
  }

  /** `x || d` on an optional number. */
  function IntOr(o: Option<int>, d: int): (r: int)
    ensures TruthyInt(o) ==> r == o.value
    ensures !TruthyInt(o) ==> r == d
  {
    if TruthyInt(o) then o.value else d
  }

  /** `x || null` on an optional string: a falsy value is stored as `null`. */
  function StrOrNull(o: Option<string>): (r: Option<string>)
    ensures r.Some? <==> TruthyStr(o)
    ensures r.Some? ==> r == o
  {
    if TruthyStr(o) then o else None
  }

  /** `x || null` on an optional number. */
  function IntOrNull(o: Option<int>): (r: Option<int>)
    ensures r.Some? <==> TruthyInt(o)
    ensures r.Some? ==> r == o
  {
    if TruthyInt(o) then o else None
  }

  /** `s.includes(q)`: `q` occurs in `s` as a contiguous substring. */
  predicate Includes(s: string, q: string) {
    exists i :: 0 <= i <= |s| && q <= s[i..]
  }

  /** A row of the users table. Timestamps are opaque, already formatted
      strings; `jwt` is `null` for users created by an administrator. */
  datatype User = User(
    userId: int,
    identifier: string,
    userName: string,
    email: string,
    password: Option<string>,
    role: int,
    status: int,
    avatar: string,
    gender: int,
    birthday: Option<string>,
    signature: Option<string>,
    createdAt: string,
    updatedAt: string,
    jwt: Option<string>)

  /** A row of the articles table. `isDeleted` is the soft-delete flag. */
  datatype Article = Article(
    articleId: int,
    userId: int,
    tagId: Option<int>,
    tagName: string,
    title: string,
    content: string,
    summary: string,
    coverImage: string,
    status: int,
    viewCount: int,
    likeCount: int,
    favoriteCount: int,
    commentCount: int,
    isDeleted: int,
    createdAt: string,
    updatedAt: string,
    publishedAt: Option<string>)

  /** A row of the tags table. */
  datatype Tag = Tag(
    tagId: int,
    tagName: string,
    useCount: int,
    status: int,
    createdAt: string,
    updatedAt: string)

  /** A row of the comments table; `parentId` is `null` for a top-level comment. */
  datatype Comment = Comment(
    commentId: int,
    articleId: int,
    userId: int,
    parentId: Option<int>,
    content: string,
    isDeleted: int,
    deletedReason: Option<string>,
    createdAt: string,
    updatedAt: string)
}
