/** The state and the reply envelope of the in-memory mock backend. Each
    handler is a step from the tables to new tables plus a reply; the
    artificial latency and the async plumbing around it are not modelled. */
module MockDb {

  import opened Records
  import opened Paging

  /** The four tables, initially the fixtures, and the fixture token every
      successful login and registration hands out. */
  datatype Db = Db(
    users: seq<User>,
    articles: seq<Article>,
    tags: seq<Tag>,
    comments: seq<Comment>,
    mockJwt: string)

  /** A comment row as the comment list returns it: the comment with its
      author's name attached. */
  datatype CommentRow = CommentRow(comment: Comment, userName: string)

  /** What a reply's `data` holds. */
  datatype Payload =
    | Null
    | UserData(user: User)
    | ArticleData(article: Article)
    | TagData(tag: Tag)
    | UserPage(users: Page<User>)
    | ArticlePage(articles: Page<Article>)
    | TagPage(tags: Page<Tag>)
    | CommentPage(comments: Page<CommentRow>)
    | LikeEcho(articleId: int)

  const SUCCESS_MSG := "success"

  /** `success(data)` is `{ code: 1, msg: 'success', data }`;
      `error(msg)` is `{ code: 0, msg, data: null }`. */
  datatype Response = Success(data: Payload) | Error(msg: string) {
    function Code(): (c: int)
      ensures c == 1 <==> Success?
      ensures c == 0 <==> Error?
    {
      if Success? then 1 else 0
    }

    function Msg(): (m: string)
      ensures Success? ==> m == SUCCESS_MSG
      ensures Error? ==> m == msg
    {
      if Success? then SUCCESS_MSG else msg
    }

    function Data(): (d: Payload)
      ensures Success? ==> d == data
      ensures Error? ==> d == Null
    {
      if Success? then data else Null
    }
  }

  /** The tables after a handler ran, and its reply. */
  datatype Step = Step(db: Db, res: Response)

  /** New articles and comments are numbered `length + 1` of the table they
      join; those tables only ever grow, as their deletes are soft. */
  function NextId<T>(table: seq<T>): (id: int)
    ensures id >= 1
    ensures id > |table|
  {
    |table| + 1
  }

  /** The ID a new row of a table that rows can leave (users, tags) receives:
      one more than the largest ID in use, 1 for an empty table. It is unused,
      and when the IDs are exactly 1, 2, ..., n it is the
      `length + 1` the handlers compute. */
  function FreshId<T>(table: seq<T>, key: T -> int): (id: int)
    ensures id >= 1
    ensures forall j :: 0 <= j < |table| ==> key(table[j]) < id
    ensures (forall j :: 0 <= j < |table| ==> key(table[j]) == j + 1) ==> id == |table| + 1
  {
    if |table| == 0 then 1
    else
      var before := FreshId(table[..|table| - 1], key);
      var last := key(table[|table| - 1]) + 1;
      if last < before then before else last
  }

  /** In a table whose rows are numbered 1 to n by position, `length + 1`
      is the ID `FreshId` picks, so no row carries it. */
  lemma NextIdIsFresh<T>(table: seq<T>, key: T -> int)
    requires forall j :: 0 <= j < |table| ==> key(table[j]) == j + 1
    ensures NextId(table) == FreshId(table, key)
    ensures forall j :: 0 <= j < |table| ==> key(table[j]) != NextId(table)
  {
  }
}
