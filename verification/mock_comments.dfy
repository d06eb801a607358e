/** The mock backend's comment handlers: the per-article list with author
    names attached, adding a comment (which also counts it on its article),
    and soft deletion. */
module MockComments {

  import opened Records
  import opened Paging
  import opened Seqs
  import opened MockDb
  import MockArticles
  import Decimal

  const ANONYMOUS_PREFIX := "用户 "

  function CommentId(c: Comment): int {
    c.commentId
  }

  datatype CommentQuery = CommentQuery(
    articleId: Option<int>,
    parentId: Option<int>,
    userId: Option<int>,
    page: Option<nat>,
    pageSize: Option<nat>)

  /** A comment matches a query when it belongs to the article (an absent
      article ID matches nothing: it compares against `NaN`), hangs under the
      given parent — or, with no parent given, is top-level (a null or 0
      parent) — and, when an author is given, was written by that author.
      The deleted flag is not consulted. */
  predicate CommentMatches(c: Comment, q: CommentQuery) {
    && q.articleId == Some(c.articleId)
    && (if TruthyInt(q.parentId) then c.parentId == q.parentId else !TruthyInt(c.parentId))
    && (TruthyInt(q.userId) ==> c.userId == q.userId.value)
  }

  function CommentFilter(q: CommentQuery): (p: Comment -> bool)
    ensures forall c :: p(c) == CommentMatches(c, q)
  {
    (c: Comment) => CommentMatches(c, q)
  }

  function OnArticle(articleId: Option<int>): (p: Comment -> bool)
    ensures forall c :: p(c) == (articleId == Some(c.articleId))
  {
    (c: Comment) => articleId == Some(c.articleId)
  }

  /** The parent stage: the given parent when it is truthy, else top-level only. */
  function UnderParent(parentId: Option<int>): (p: Comment -> bool)
    ensures forall c :: p(c) == if TruthyInt(parentId) then c.parentId == parentId else !TruthyInt(c.parentId)
  {
    (c: Comment) => if TruthyInt(parentId) then c.parentId == parentId else !TruthyInt(c.parentId)
  }

  function ByAuthor(userId: int): (p: Comment -> bool)
    ensures forall c :: p(c) == (c.userId == userId)
  {
    (c: Comment) => c.userId == userId
  }

  /** The handler's filter chain, stage by stage. */
  function CommentRows(comments: seq<Comment>, q: CommentQuery): seq<Comment> {
    var f1 := Filter(comments, OnArticle(q.articleId));
    var f2 := Filter(f1, UnderParent(q.parentId));
    Stage(f2, TruthyInt(q.userId), ByAuthor(q.userId.GetOr(0)))
  }

  lemma CommentRowsConjunctive(comments: seq<Comment>, q: CommentQuery)
    ensures CommentRows(comments, q) == Filter(comments, CommentFilter(q))
  {
    var m2 := (c: Comment) => OnArticle(q.articleId)(c) && UnderParent(q.parentId)(c);
    FilterFuse(comments, OnArticle(q.articleId), UnderParent(q.parentId), m2);
    StageFuse(comments, m2, TruthyInt(q.userId), ByAuthor(q.userId.GetOr(0)), CommentFilter(q));
  }

  /** The name shown next to a comment: the name of the first user with the
      author's ID, or "用户 " followed by the ID when there is none. */
  function AuthorName(users: seq<User>, userId: int): (name: string)
    ensures (exists i :: 0 <= i < |users| && users[i].userId == userId) ==>
      exists i :: 0 <= i < |users| && users[i].userId == userId &&
        (forall j :: 0 <= j < i ==> users[j].userId != userId) && name == users[i].userName
    ensures (forall i :: 0 <= i < |users| ==> users[i].userId != userId) ==>
      name == ANONYMOUS_PREFIX + Decimal.IntToString(userId)
  {
    var i := FindIndex(users, (u: User) => u.userId == userId);
    if i == -1 then ANONYMOUS_PREFIX + Decimal.IntToString(userId) else users[i].userName
  }

  function WithAuthor(users: seq<User>): (f: Comment -> CommentRow)
    ensures forall c :: f(c) == CommentRow(c, AuthorName(users, c.userId))
  {
    (c: Comment) => CommentRow(c, AuthorName(users, c.userId))
  }

  /** The comment list: the matching comments, in table order, each with its
      author's name, counted and paged. */
  function GetCommentList(db: Db, q: CommentQuery): (out: Step)
    ensures out.db == db
    ensures out.res.Success? && out.res.data.CommentPage?
    ensures var p := out.res.data.comments;
      var matching := Filter(db.comments, CommentFilter(q));
      && p.total == |matching|
      && p.rows == Paginate(Map(matching, WithAuthor(db.users)), q.page, q.pageSize).rows
  {
    var filtered := CommentRows(db.comments, q);
    var rows := Map(filtered, WithAuthor(db.users));
    var page := Paginate(rows, q.page, q.pageSize);
    CommentRowsConjunctive(db.comments, q);
    Step(db, Success(CommentPage(Page(|filtered|, page.rows))))
  }

  /** The comment form; `parentId` may be left out for a top-level comment. */
  datatype CommentForm = CommentForm(articleId: int, userId: int, parentId: Option<int>, content: string)

  function NewComment(comments: seq<Comment>, form: CommentForm, now: string): Comment {
    Comment(NextId(comments), form.articleId, form.userId, IntOrNull(form.parentId),
            form.content, 0, None, now, now)
  }

  function CountComment(a: Article): Article {
    a.(commentCount := a.commentCount + 1)
  }

  /** Add a comment: exactly one comment numbered `length + 1` is appended,
      and the first article with the comment's article ID has its comment
      count raised by exactly one; every other article is unchanged. */
  function AddComment(db: Db, form: CommentForm, now: string): (out: Step)
    ensures out.res == Success(Null)
    ensures out.db.users == db.users && out.db.tags == db.tags && out.db.mockJwt == db.mockJwt
    ensures |out.db.comments| == |db.comments| + 1
    ensures out.db.comments[..|db.comments|] == db.comments
    ensures var c := out.db.comments[|db.comments|];
      && c.commentId == |db.comments| + 1
      && c.articleId == form.articleId && c.userId == form.userId && c.content == form.content
      && c.isDeleted == 0
      && c.parentId == (if TruthyInt(form.parentId) then form.parentId else None)
      && c.deletedReason == None
      && c.createdAt == now && c.updatedAt == now
    ensures |out.db.articles| == |db.articles|
    ensures forall i :: 0 <= i < |db.articles| ==>
      out.db.articles[i] == if MockArticles.FirstWithId(db.articles, form.articleId, i)
        then db.articles[i].(commentCount := db.articles[i].commentCount + 1)
        else db.articles[i]
  {
    var comments := db.comments + [NewComment(db.comments, form, now)];
    assert comments[..|db.comments|] == db.comments;
    var articles := MockArticles.BumpFirst(db.articles, form.articleId, CountComment);
    Step(db.(comments := comments, articles := articles), Success(Null))
  }

  /** A top-level comment shows up in its article's top-level list: the
      list's total grows by exactly one, in step with the comment count of
      the article the comment names (when there is one). */
  lemma AddCommentIsListed(db: Db, form: CommentForm, now: string, page: Option<nat>, pageSize: Option<nat>)
    requires !TruthyInt(form.parentId)
    ensures var q := CommentQuery(Some(form.articleId), None, None, page, pageSize);
      var db' := AddComment(db, form, now).db;
      GetCommentList(db', q).res.data.comments.total == GetCommentList(db, q).res.data.comments.total + 1
    ensures var db' := AddComment(db, form, now).db;
      forall i :: MockArticles.FirstWithId(db.articles, form.articleId, i) ==>
        db'.articles[i].commentCount == db.articles[i].commentCount + 1
  {
    var q := CommentQuery(Some(form.articleId), None, None, page, pageSize);
    var c := NewComment(db.comments, form, now);
    FilterAppend(db.comments, [c], CommentFilter(q));
    assert Filter([c], CommentFilter(q)) == [c];
  }

  function MarkDeleted(c: Comment): Comment {
    c.(isDeleted := 1)
  }

  /** Delete comments (a soft delete): the table keeps its length and order;
      the first comment with each listed ID gets `isDeleted = 1` and nothing
      else about it changes; unknown IDs and all other comments are left alone. */
  function DeleteComments(db: Db, ids: seq<int>): (out: Step)
    ensures out.res == Success(Null)
    ensures out.db == db.(comments := out.db.comments)
    ensures |out.db.comments| == |db.comments|
    ensures forall j :: 0 <= j < |db.comments| ==>
      out.db.comments[j] ==
        if db.comments[j].commentId in ids && FirstWithKey(db.comments, CommentId, j)
        then db.comments[j].(isDeleted := 1)
        else db.comments[j]
  {
    Step(db.(comments := SoftDeleteBy(db.comments, ids, CommentId, MarkDeleted)), Success(Null))
  }

  /** Deleting the same comments again changes nothing. */
  lemma DeleteCommentsIdempotent(db: Db, ids: seq<int>)
    ensures var once := DeleteComments(db, ids).db;
      DeleteComments(once, ids).db == once
  {
    var once := DeleteComments(db, ids).db;
    var twice := DeleteComments(once, ids).db;
    assert forall j :: 0 <= j < |db.comments| ==>
      FirstWithKey(once.comments, CommentId, j) == FirstWithKey(db.comments, CommentId, j);
    assert twice.comments == once.comments;
  }

  /** Soft deletion does not hide a comment from the list: the list never
      consults the deleted flag, so its total is the same before and after. */
  lemma DeletedCommentsStayListed(db: Db, ids: seq<int>, q: CommentQuery)
    ensures GetCommentList(DeleteComments(db, ids).db, q).res.data.comments.total ==
            GetCommentList(db, q).res.data.comments.total
  {
    var after := DeleteComments(db, ids).db.comments;
    FilterSameCount(after, db.comments, CommentFilter(q));
  }
}
