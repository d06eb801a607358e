/** The mock backend's article handlers: the filtered list, lookup by ID
    (which counts a view), creation, soft deletion, the like and favorite
    counters, and the favorites list. */
module MockArticles {

  import opened Records
  import opened Paging
  import opened Seqs
  import opened MockDb

  const ARTICLE_NOT_FOUND := "文章不存在"

  function ArticleId(a: Article): int {
    a.articleId
  }

  function ArticleWithId(id: int): (p: Article -> bool)
    ensures forall a :: p(a) == (a.articleId == id)
  {
    (a: Article) => a.articleId == id
  }

  /** `articles[i]` is the article `articles.find(a => a.articleId === id)` returns. */
  predicate FirstWithId(articles: seq<Article>, id: int, i: int) {
    FirstAt(articles, ArticleId, id, i)
  }

  predicate HasArticle(articles: seq<Article>, id: int) {
    HasKey(articles, ArticleId, id)
  }

  datatype ArticleQuery = ArticleQuery(
    query: Option<string>,
    articleId: Option<int>,
    userId: Option<int>,
    tag: Option<string>,
    status: Option<int>,
    isDeleted: Option<int>,
    page: Option<nat>,
    pageSize: Option<nat>)

  /** An article matches a query when it passes every filter the query
      supplies. Search text, article ID, author ID and tag name are checked
      for truthiness (empty text and 0 mean "no filter"); status and the
      deleted flag are filters whenever present, 0 included. */
  predicate ArticleMatches(a: Article, q: ArticleQuery) {
    && (TruthyStr(q.query) ==> Includes(a.title, q.query.value) || Includes(a.content, q.query.value))
    && (TruthyInt(q.articleId) ==> a.articleId == q.articleId.value)
    && (TruthyInt(q.userId) ==> a.userId == q.userId.value)
    && (TruthyStr(q.tag) ==> a.tagName == q.tag.value)
    && (q.status.Some? ==> a.status == q.status.value)
    && (q.isDeleted.Some? ==> a.isDeleted == q.isDeleted.value)
  }

  function ArticleFilter(q: ArticleQuery): (p: Article -> bool)
    ensures forall a :: p(a) == ArticleMatches(a, q)
  {
    (a: Article) => ArticleMatches(a, q)
  }

  function ArticleSearch(text: string): (p: Article -> bool)
    ensures forall a :: p(a) == (Includes(a.title, text) || Includes(a.content, text))
  {
    (a: Article) => Includes(a.title, text) || Includes(a.content, text)
  }

  function ArticleByAuthor(userId: int): (p: Article -> bool)
    ensures forall a :: p(a) == (a.userId == userId)
  {
    (a: Article) => a.userId == userId
  }

  function ArticleWithTag(tagName: string): (p: Article -> bool)
    ensures forall a :: p(a) == (a.tagName == tagName)
  {
    (a: Article) => a.tagName == tagName
  }

  function ArticleWithStatus(status: int): (p: Article -> bool)
    ensures forall a :: p(a) == (a.status == status)
  {
    (a: Article) => a.status == status
  }

  function ArticleWithDeleted(flag: int): (p: Article -> bool)
    ensures forall a :: p(a) == (a.isDeleted == flag)
  {
    (a: Article) => a.isDeleted == flag
  }

  /** The first three stages of the handler's filter chain. */
  function EarlyStages(articles: seq<Article>, q: ArticleQuery): seq<Article> {
    var f1 := Stage(articles, TruthyStr(q.query), ArticleSearch(q.query.GetOr("")));
    var f2 := Stage(f1, TruthyInt(q.articleId), ArticleWithId(q.articleId.GetOr(0)));
    Stage(f2, TruthyInt(q.userId), ArticleByAuthor(q.userId.GetOr(0)))
  }

  /** The handler's filter chain, stage by stage. */
  function ArticleRows(articles: seq<Article>, q: ArticleQuery): seq<Article> {
    var f3 := EarlyStages(articles, q);
    var f4 := Stage(f3, TruthyStr(q.tag), ArticleWithTag(q.tag.GetOr("")));
    var f5 := Stage(f4, q.status.Some?, ArticleWithStatus(q.status.GetOr(0)));
    Stage(f5, q.isDeleted.Some?, ArticleWithDeleted(q.isDeleted.GetOr(0)))
  }

  /** What the first three stages together ask of an article. */
  predicate EarlyMatches(a: Article, q: ArticleQuery) {
    && (TruthyStr(q.query) ==> Includes(a.title, q.query.value) || Includes(a.content, q.query.value))
    && (TruthyInt(q.articleId) ==> a.articleId == q.articleId.value)
    && (TruthyInt(q.userId) ==> a.userId == q.userId.value)
  }

  function EarlyFilter(q: ArticleQuery): (p: Article -> bool)
    ensures forall a :: p(a) == EarlyMatches(a, q)
  {
    (a: Article) => EarlyMatches(a, q)
  }

  lemma EarlyStagesConjunctive(articles: seq<Article>, q: ArticleQuery)
    ensures EarlyStages(articles, q) == Filter(articles, EarlyFilter(q))
  {
    var m0 := (a: Article) => true;
    var m1 := (a: Article) => TruthyStr(q.query) ==> ArticleSearch(q.query.GetOr(""))(a);
    var m2 := (a: Article) => m1(a) && (TruthyInt(q.articleId) ==> ArticleWithId(q.articleId.GetOr(0))(a));
    FilterKeepsAll(articles, m0);
    StageFuse(articles, m0, TruthyStr(q.query), ArticleSearch(q.query.GetOr("")), m1);
    StageFuse(articles, m1, TruthyInt(q.articleId), ArticleWithId(q.articleId.GetOr(0)), m2);
    StageFuse(articles, m2, TruthyInt(q.userId), ArticleByAuthor(q.userId.GetOr(0)), EarlyFilter(q));
  }

  /** The filters are conjunctive: the chain keeps every article satisfying
      all supplied filters, drops every other one, and keeps table order. */
  lemma ArticleRowsConjunctive(articles: seq<Article>, q: ArticleQuery)
    ensures ArticleRows(articles, q) == Filter(articles, ArticleFilter(q))
  {
    var m3 := EarlyFilter(q);
    var m4 := (a: Article) => m3(a) && (TruthyStr(q.tag) ==> ArticleWithTag(q.tag.GetOr(""))(a));
    var m5 := (a: Article) => m4(a) && (q.status.Some? ==> ArticleWithStatus(q.status.GetOr(0))(a));
    EarlyStagesConjunctive(articles, q);
    StageFuse(articles, m3, TruthyStr(q.tag), ArticleWithTag(q.tag.GetOr("")), m4);
    StageFuse(articles, m4, q.status.Some?, ArticleWithStatus(q.status.GetOr(0)), m5);
    StageFuse(articles, m5, q.isDeleted.Some?, ArticleWithDeleted(q.isDeleted.GetOr(0)), ArticleFilter(q));
  }

  /** The article list: every matching article is counted and one page of
      them, in table order, is returned. Soft-deleted articles are listed
      unless the query filters on the deleted flag. */
  function GetArticleList(db: Db, q: ArticleQuery): (out: Step)
    ensures out.db == db
    ensures out.res == Success(ArticlePage(Paginate(Filter(db.articles, ArticleFilter(q)), q.page, q.pageSize)))
  {
    ArticleRowsConjunctive(db.articles, q);
    Step(db, Success(ArticlePage(Paginate(ArticleRows(db.articles, q), q.page, q.pageSize))))
  }

  /** Adds one to a counter of the first article with the ID; a missing ID
      changes nothing. */
  function BumpFirst(articles: seq<Article>, id: int, bump: Article -> Article): (r: seq<Article>)
    ensures |r| == |articles|
    ensures forall i :: 0 <= i < |articles| ==>
      r[i] == if FirstWithId(articles, id, i) then bump(articles[i]) else articles[i]
  {
    UpdateFirst(articles, ArticleWithId(id), bump)
  }

  function CountView(a: Article): Article {
    a.(viewCount := a.viewCount + 1)
  }

  /** Lookup by ID. On a hit the first article with the ID has its view count
      raised by one and the updated copy is returned; everything else is
      unchanged. On a miss the tables are untouched. */
  function GetArticleById(db: Db, id: int): (out: Step)
    ensures out.res.Success? <==> HasArticle(db.articles, id)
    ensures !HasArticle(db.articles, id) ==> out == Step(db, Error(ARTICLE_NOT_FOUND))
    ensures forall i :: FirstWithId(db.articles, id, i) ==>
      var a := db.articles[i].(viewCount := db.articles[i].viewCount + 1);
      out.db == db.(articles := db.articles[i := a]) && out.res == Success(ArticleData(a))
  {
    var i := FindIndex(db.articles, ArticleWithId(id));
    if i == -1 then
      assert !HasArticle(db.articles, id);
      Step(db, Error(ARTICLE_NOT_FOUND))
    else
      assert FirstWithId(db.articles, id, i);
      assert forall k :: FirstWithId(db.articles, id, k) ==> k == i;
      Step(db.(articles := db.articles[i := CountView(db.articles[i])]), Success(ArticleData(CountView(db.articles[i]))))
  }

  /** When some article has the ID, one of them is the first. */
  lemma FirstWithIdExists(articles: seq<Article>, id: int) returns (i: int)
    requires HasArticle(articles, id)
    ensures FirstWithId(articles, id, i)
  {
    i := FindIndex(articles, ArticleWithId(id));
  }

  /** Reading an article twice counts two views and returns the same article
      apart from the count. */
  lemma ViewedTwice(db: Db, id: int)
    requires HasArticle(db.articles, id)
    ensures var r1 := GetArticleById(db, id);
      var r2 := GetArticleById(r1.db, id);
      && r2.res.Success? && r1.res.data.ArticleData? && r2.res.data.ArticleData?
      && r2.res.data.article == r1.res.data.article.(viewCount := r1.res.data.article.viewCount + 1)
  {
    var i := FirstWithIdExists(db.articles, id);
    var r1 := GetArticleById(db, id);
    assert FirstWithId(r1.db.articles, id, i);
  }

  /** The article form; optional fields may be left out. */
  datatype ArticleForm = ArticleForm(
    userId: int,
    tagId: Option<int>,
    title: string,
    content: string,
    summary: Option<string>,
    coverImage: Option<string>,
    status: Option<int>,
    publishedAt: Option<string>)

  /** `mockTags.find(t => t.tagId === tagId)?.tagName || ''`. */
  function TagNameOf(tags: seq<Tag>, tagId: Option<int>): (name: string)
    ensures tagId.None? ==> name == ""
    ensures tagId.Some? && (forall i :: 0 <= i < |tags| ==> tags[i].tagId != tagId.value) ==> name == ""
    ensures tagId.Some? ==> forall i ::
      && 0 <= i < |tags|
      && tags[i].tagId == tagId.value
      && (forall j :: 0 <= j < i ==> tags[j].tagId != tagId.value)
      ==> name == tags[i].tagName
  {
    if tagId.None? then ""
    else
      var i := FindIndex(tags, (t: Tag) => t.tagId == tagId.value);
      if i == -1 then "" else tags[i].tagName
  }

  function NewArticle(db: Db, form: ArticleForm, now: string): Article {
    Article(
      NextId(db.articles), form.userId, IntOrNull(form.tagId), TagNameOf(db.tags, form.tagId),
      form.title, form.content, StrOr(form.summary, ""), StrOr(form.coverImage, ""),
      IntOr(form.status, 0), 0, 0, 0, 0, 0, now, now,
      if form.status == Some(1) then Some(StrOr(form.publishedAt, now)) else None)
  }

  /** Add an article. It is put at the FRONT of the table (`unshift`), is
      numbered `length + 1`, starts with every counter at zero and not
      deleted, and is stamped as published only when its status is 1. */
  function AddArticle(db: Db, form: ArticleForm, now: string): (out: Step)
    ensures out.res == Success(Null)
    ensures out.db == db.(articles := out.db.articles)
    ensures |out.db.articles| == |db.articles| + 1
    ensures out.db.articles[1..] == db.articles
    ensures var a := out.db.articles[0];
      && a.articleId == |db.articles| + 1
      && a.userId == form.userId && a.title == form.title && a.content == form.content
      && a.viewCount == 0 && a.likeCount == 0 && a.favoriteCount == 0 && a.commentCount == 0
      && a.isDeleted == 0
      && a.status == (if TruthyInt(form.status) then form.status.value else 0)
      && (a.publishedAt.Some? <==> form.status == Some(1))
      && (form.status == Some(1) ==>
            a.publishedAt == Some(if TruthyStr(form.publishedAt) then form.publishedAt.value else now))
      && a.tagId == (if TruthyInt(form.tagId) then form.tagId else None)
      && a.tagName == TagNameOf(db.tags, form.tagId)
      && a.summary == (if TruthyStr(form.summary) then form.summary.value else "")
      && a.coverImage == (if TruthyStr(form.coverImage) then form.coverImage.value else "")
      && a.createdAt == now && a.updatedAt == now
  {
    var articles := [NewArticle(db, form, now)] + db.articles;
    assert articles[1..] == db.articles;
    Step(db.(articles := articles), Success(Null))
  }

  /** A new article is what a lookup of its ID finds, even if an older
      article carries the same ID, because it sits at the front. */
  lemma AddedArticleIsFound(db: Db, form: ArticleForm, now: string)
    ensures var r := AddArticle(db, form, now);
      var g := GetArticleById(r.db, |db.articles| + 1);
      g.res == Success(ArticleData(r.db.articles[0].(viewCount := 1)))
  {
    var r := AddArticle(db, form, now);
    assert FirstWithId(r.db.articles, |db.articles| + 1, 0);
    assert HasArticle(r.db.articles, |db.articles| + 1);
  }

  function MarkDeleted(a: Article): Article {
    a.(isDeleted := 1)
  }

  /** Row `j` is the first article with its ID. */
  predicate FirstOfItsId(articles: seq<Article>, j: int)
    requires 0 <= j < |articles|
  {
    FirstWithKey(articles, ArticleId, j)
  }

  /** An edit of an article: the ID that selects it and the fields the edit
      carries; a field the edit leaves out is `None`. For the nullable tag
      ID and publish time, `Some(None)` is a carried `null`. */
  datatype ArticlePatch = ArticlePatch(
    articleId: int,
    tagId: Option<Option<int>>,
    tagName: Option<string>,
    title: Option<string>,
    content: Option<string>,
    summary: Option<string>,
    coverImage: Option<string>,
    status: Option<int>,
    publishedAt: Option<Option<string>>)

  /** `Object.assign(article, { ...patch, updatedAt: now })`: the fields the
      edit carries overwrite the article's, the others stay, and the update
      time is always stamped. The tag name is not looked up again when only
      the tag ID changes. */
  function PatchArticle(a: Article, p: ArticlePatch, now: string): (r: Article)
    ensures r.articleId == a.articleId && r.userId == a.userId && r.createdAt == a.createdAt
    ensures r.viewCount == a.viewCount && r.likeCount == a.likeCount
    ensures r.favoriteCount == a.favoriteCount && r.commentCount == a.commentCount
    ensures r.isDeleted == a.isDeleted && r.updatedAt == now
    ensures r.tagName == p.tagName.GetOr(a.tagName) && r.title == p.title.GetOr(a.title)
    ensures r.status == p.status.GetOr(a.status)
    ensures r.tagId == (if p.tagId.Some? then p.tagId.value else a.tagId)
    ensures r.content == p.content.GetOr(a.content) && r.summary == p.summary.GetOr(a.summary)
    ensures r.coverImage == p.coverImage.GetOr(a.coverImage)
    ensures r.publishedAt == (if p.publishedAt.Some? then p.publishedAt.value else a.publishedAt)
    ensures p.publishedAt == Some(None) ==> r.publishedAt.None?
    ensures p.tagId == Some(None) ==> r.tagId.None?
  {
    a.(tagId := p.tagId.GetOr(a.tagId),
       tagName := p.tagName.GetOr(a.tagName), title := p.title.GetOr(a.title),
       content := p.content.GetOr(a.content), summary := p.summary.GetOr(a.summary),
       coverImage := p.coverImage.GetOr(a.coverImage), status := p.status.GetOr(a.status),
       publishedAt := p.publishedAt.GetOr(a.publishedAt),
       updatedAt := now)
  }

  /** Edit an article: the first article with the edit's ID is patched and
      nothing else changes; with no such article the reply is "文章不存在"
      and nothing changes. */
  function UpdateArticle(db: Db, p: ArticlePatch, now: string): (out: Step)
    ensures out.res.Success? <==> HasArticle(db.articles, p.articleId)
    ensures !HasArticle(db.articles, p.articleId) ==> out == Step(db, Error(ARTICLE_NOT_FOUND))
    ensures HasArticle(db.articles, p.articleId) ==>
      && out.res == Success(Null)
      && out.db == db.(articles := out.db.articles)
      && |out.db.articles| == |db.articles|
      && forall i :: 0 <= i < |db.articles| ==>
           out.db.articles[i] ==
             if FirstWithId(db.articles, p.articleId, i) then PatchArticle(db.articles[i], p, now) else db.articles[i]
  {
    var i := FindIndex(db.articles, ArticleWithId(p.articleId));
    if i == -1 then
      Step(db, Error(ARTICLE_NOT_FOUND))
    else
      assert forall k :: 0 <= k < |db.articles| ==> (FirstWithId(db.articles, p.articleId, k) <==> k == i);
      Step(db.(articles := db.articles[i := PatchArticle(db.articles[i], p, now)]), Success(Null))
  }

  /** Reading an article after editing it returns the edited article, with
      its view counted. */
  lemma UpdatedArticleIsFound(db: Db, p: ArticlePatch, now: string)
    requires HasArticle(db.articles, p.articleId)
    ensures var r := GetArticleById(UpdateArticle(db, p, now).db, p.articleId).res;
      && r.Success? && r.data.ArticleData?
      && exists i :: FirstWithId(db.articles, p.articleId, i) &&
           r.data.article == PatchArticle(db.articles[i], p, now).(viewCount := db.articles[i].viewCount + 1)
  {
    var i := FirstWithIdExists(db.articles, p.articleId);
    var after := UpdateArticle(db, p, now).db;
    assert FirstWithId(after.articles, p.articleId, i);
  }

  /** Delete articles (a soft delete): the table keeps its length and order;
      the first article with each listed ID gets `isDeleted = 1` and no other
      field changes; unknown IDs and all other articles are left alone. */
  function DeleteArticles(db: Db, ids: seq<int>): (out: Step)
    ensures out.res == Success(Null)
    ensures out.db == db.(articles := out.db.articles)
    ensures |out.db.articles| == |db.articles|
    ensures forall j :: 0 <= j < |db.articles| ==>
      out.db.articles[j] ==
        if db.articles[j].articleId in ids && FirstOfItsId(db.articles, j)
        then db.articles[j].(isDeleted := 1)
        else db.articles[j]
  {
    Step(db.(articles := SoftDeleteBy(db.articles, ids, ArticleId, MarkDeleted)), Success(Null))
  }

  /** Deleting the same articles again changes nothing. */
  lemma DeleteArticlesIdempotent(db: Db, ids: seq<int>)
    ensures var once := DeleteArticles(db, ids).db;
      DeleteArticles(once, ids).db == once
  {
    var once := DeleteArticles(db, ids).db;
    var twice := DeleteArticles(once, ids).db;
    assert forall j :: 0 <= j < |db.articles| ==>
      FirstOfItsId(once.articles, j) == FirstOfItsId(db.articles, j);
    assert twice.articles == once.articles;
  }

  function CountLike(a: Article): Article {
    a.(likeCount := a.likeCount + 1)
  }

  function CountFavorite(a: Article): Article {
    a.(favoriteCount := a.favoriteCount + 1)
  }

  /** Like: the like count of the first article with the ID goes up by one
      (the mock never un-likes); the reply echoes the article ID. */
  function ToggleArticleLike(db: Db, articleId: int): (out: Step)
    ensures out.res == Success(LikeEcho(articleId))
    ensures out.db == db.(articles := out.db.articles)
    ensures |out.db.articles| == |db.articles|
    ensures forall i :: 0 <= i < |db.articles| ==>
      out.db.articles[i] == if FirstWithId(db.articles, articleId, i)
        then db.articles[i].(likeCount := db.articles[i].likeCount + 1)
        else db.articles[i]
  {
    Step(db.(articles := BumpFirst(db.articles, articleId, CountLike)), Success(LikeEcho(articleId)))
  }

  /** A like shows on the next read of the article, together with the view
      that read counts. */
  lemma LikeIsCounted(db: Db, id: int)
    requires HasArticle(db.articles, id)
    ensures var r := GetArticleById(ToggleArticleLike(db, id).db, id).res;
      && r.Success? && r.data.ArticleData?
      && exists i :: FirstWithId(db.articles, id, i) &&
           r.data.article == db.articles[i].(likeCount := db.articles[i].likeCount + 1,
                                              viewCount := db.articles[i].viewCount + 1)
  {
    var i := FirstWithIdExists(db.articles, id);
    var after := ToggleArticleLike(db, id).db;
    assert FirstWithId(after.articles, id, i);
  }

  /** Favorite: the favorite count of the first article with the ID goes up
      by one (the mock never un-favorites). */
  function ToggleArticleFavorite(db: Db, articleId: int): (out: Step)
    ensures out.res == Success(Null)
    ensures out.db == db.(articles := out.db.articles)
    ensures |out.db.articles| == |db.articles|
    ensures forall i :: 0 <= i < |db.articles| ==>
      out.db.articles[i] == if FirstWithId(db.articles, articleId, i)
        then db.articles[i].(favoriteCount := db.articles[i].favoriteCount + 1)
        else db.articles[i]
  {
    Step(db.(articles := BumpFirst(db.articles, articleId, CountFavorite)), Success(Null))
  }

  /** A favorite shows on the next read of the article: one more favorite,
      and one more view for the read itself. */
  lemma FavoriteIsCounted(db: Db, id: int)
    requires HasArticle(db.articles, id)
    ensures var r := GetArticleById(ToggleArticleFavorite(db, id).db, id).res;
      && r.Success? && r.data.ArticleData?
      && exists i :: FirstWithId(db.articles, id, i) &&
           r.data.article == db.articles[i].(favoriteCount := db.articles[i].favoriteCount + 1,
                                              viewCount := db.articles[i].viewCount + 1)
  {
    var i := FirstWithIdExists(db.articles, id);
    var after := ToggleArticleFavorite(db, id).db;
    assert after.articles[i] == CountFavorite(db.articles[i]);
    assert FirstWithId(after.articles, id, i);
    ReadFinds(after, id, i);
  }

  /** A read of an ID returns its first article with one more view. */
  lemma ReadFinds(db: Db, id: int, i: int)
    requires FirstWithId(db.articles, id, i)
    ensures GetArticleById(db, id).res == Success(ArticleData(CountView(db.articles[i])))
  {
  }

  predicate Visible(a: Article) {
    a.status == 1 && a.isDeleted == 0
  }

  /** The favorites list: the mock pages through every published, undeleted
      article, whoever asks. */
  function GetFavoriteList(db: Db, page: Option<nat>, pageSize: Option<nat>): (out: Step)
    ensures out.db == db
    ensures out.res.Success? && out.res.data.ArticlePage?
    ensures forall a :: a in out.res.data.articles.rows ==> a in db.articles && Visible(a)
  {
    var filtered := Filter(db.articles, Visible);
    var p := Paginate(filtered, page, pageSize);
    assert forall a :: a in p.rows ==> a in filtered;
    Step(db, Success(ArticlePage(p)))
  }

  /** The favorites list is the article list asked for status 1 and not
      deleted: same total, same pages. */
  lemma FavoritesAreAListQuery(db: Db, page: Option<nat>, pageSize: Option<nat>)
    ensures GetFavoriteList(db, page, pageSize).res ==
      GetArticleList(db, ArticleQuery(None, None, None, None, Some(1), Some(0), page, pageSize)).res
  {
    var q := ArticleQuery(None, None, None, None, Some(1), Some(0), page, pageSize);
    FilterExt(db.articles, Visible, ArticleFilter(q));
  }
}
