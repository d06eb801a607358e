/** The mock backend's tag handlers: the list, lookup by ID, creation
    (refused for a name already in use) and hard deletion. */
module MockTags {

  import opened Records
  import opened Paging
  import opened Seqs
  import opened MockDb

  const TAG_EXISTS := "标签已存在"
  const TAG_NOT_FOUND := "标签不存在"

  function TagId(t: Tag): int {
    t.tagId
  }

  datatype TagQuery = TagQuery(status: Option<int>, page: Option<nat>, pageSize: Option<nat>)

  function TagWithStatus(status: int): (p: Tag -> bool)
    ensures forall t :: p(t) == (t.status == status)
  {
    (t: Tag) => t.status == status
  }

  /** The tag list: with a status given (0 included) only tags with that
      status, otherwise every tag; counted and paged in table order. */
  function GetTagList(db: Db, q: TagQuery): (out: Step)
    ensures out.db == db
    ensures out.res.Success? && out.res.data.TagPage?
    ensures q.status.None? ==> out.res.data.tags == Paginate(db.tags, q.page, q.pageSize)
    ensures q.status.Some? ==>
      out.res.data.tags == Paginate(Filter(db.tags, TagWithStatus(q.status.value)), q.page, q.pageSize)
    ensures forall t :: t in out.res.data.tags.rows ==>
      t in db.tags && (q.status.Some? ==> t.status == q.status.value)
    ensures q.status.Some? ==>
      out.res.data.tags.total == |Filter(db.tags, TagWithStatus(q.status.value))|
  {
    var filtered := Stage(db.tags, q.status.Some?, TagWithStatus(q.status.GetOr(0)));
    var p := Paginate(filtered, q.page, q.pageSize);
    assert forall t :: t in p.rows ==> t in filtered;
    Step(db, Success(TagPage(p)))
  }

  predicate HasTag(tags: seq<Tag>, id: int) {
    HasKey(tags, TagId, id)
  }

  /** Lookup by ID: the first tag with the ID, or an error. */
  function GetTagById(db: Db, id: int): (out: Step)
    ensures out.db == db
    ensures out.res.Success? <==> HasTag(db.tags, id)
    ensures out.res.Success? ==>
      exists i :: 0 <= i < |db.tags| && db.tags[i].tagId == id &&
        (forall j :: 0 <= j < i ==> db.tags[j].tagId != id) && out.res.data == TagData(db.tags[i])
    ensures out.res.Error? ==> out.res.msg == TAG_NOT_FOUND
  {
    var i := FindIndex(db.tags, (t: Tag) => t.tagId == id);
    if i == -1 then Step(db, Error(TAG_NOT_FOUND)) else Step(db, Success(TagData(db.tags[i])))
  }

  predicate NameTaken(tags: seq<Tag>, name: string) {
    exists i :: 0 <= i < |tags| && tags[i].tagName == name
  }

  datatype TagForm = TagForm(tagName: string, status: Option<int>)

  /** The tag `addTag` creates with the given ID. */
  function NewTag(id: int, form: TagForm, now: string): Tag {
    Tag(id, form.tagName, 0, IntOr(form.status, 1), now, now)
  }

  /** Add a tag: refused when the name is in use, with the table untouched;
      otherwise one tag with an unused ID is appended, so tag IDs stay unique.
      A falsy status, 0 included, is stored as 1. */
  function AddTag(db: Db, form: TagForm, now: string): (out: Step)
    ensures NameTaken(db.tags, form.tagName) ==> out == Step(db, Error(TAG_EXISTS))
    ensures !NameTaken(db.tags, form.tagName) ==>
      && out.res == Success(Null)
      && out.db == db.(tags := out.db.tags)
      && |out.db.tags| == |db.tags| + 1
      && out.db.tags[..|db.tags|] == db.tags
      && var t := out.db.tags[|db.tags|];
      && (forall j :: 0 <= j < |db.tags| ==> db.tags[j].tagId != t.tagId)
      && (UniqueKeys(db.tags, TagId) ==> UniqueKeys(out.db.tags, TagId))
      && t.tagName == form.tagName && t.useCount == 0
      && t.status == (if TruthyInt(form.status) then form.status.value else 1)
      && t.createdAt == now && t.updatedAt == now
  {
    if NameTaken(db.tags, form.tagName) then Step(db, Error(TAG_EXISTS))
    else
      var tags := db.tags + [NewTag(FreshId(db.tags, TagId), form, now)];
      assert tags[..|db.tags|] == db.tags;
      Step(db.(tags := tags), Success(Null))
  }

  /** A new tag is what a lookup of its ID finds: no older tag carries that ID. */
  lemma AddedTagIsFound(db: Db, form: TagForm, now: string)
    requires !NameTaken(db.tags, form.tagName)
    ensures var out := AddTag(db, form, now);
      var t := out.db.tags[|db.tags|];
      GetTagById(out.db, t.tagId).res == Success(TagData(t))
  {
    var out := AddTag(db, form, now);
    var n := |db.tags|;
    var t := out.db.tags[n];
    assert forall j :: 0 <= j < n ==> out.db.tags[j].tagId != t.tagId by {
      assert forall j :: 0 <= j < n ==> out.db.tags[j] == db.tags[j];
    }
    var g := GetTagById(out.db, t.tagId);
    assert HasTag(out.db.tags, t.tagId);
    var i :| 0 <= i < |out.db.tags| && out.db.tags[i].tagId == t.tagId &&
      (forall j :: 0 <= j < i ==> out.db.tags[j].tagId != t.tagId) && g.res.data == TagData(out.db.tags[i]);
    assert i == n;
  }

  /** Tag names stay unique: `addTag` never creates a second tag with a name
      already in use. */
  lemma AddTagKeepsNamesUnique(db: Db, form: TagForm, now: string)
    requires forall i, j :: 0 <= i < j < |db.tags| ==> db.tags[i].tagName != db.tags[j].tagName
    ensures var tags := AddTag(db, form, now).db.tags;
      forall i, j :: 0 <= i < j < |tags| ==> tags[i].tagName != tags[j].tagName
  {
  }

  /** `tags[i]` is the tag `tags.find(t => t.tagId === id)` returns. */
  predicate FirstTagWithId(tags: seq<Tag>, id: int, i: int) {
    FirstAt(tags, TagId, id, i)
  }

  /** An edit of a tag: the ID that selects it and the fields the edit
      carries; a field the edit leaves out is `None`. */
  datatype TagPatch = TagPatch(tagId: int, tagName: Option<string>, useCount: Option<int>, status: Option<int>)

  /** `Object.assign(tag, { ...patch, updatedAt: now })`: the fields the
      edit carries overwrite the tag's, the others stay, and the update
      time is always stamped. */
  function PatchTag(t: Tag, p: TagPatch, now: string): (r: Tag)
    ensures r.tagId == t.tagId && r.createdAt == t.createdAt && r.updatedAt == now
    ensures r.tagName == p.tagName.GetOr(t.tagName)
    ensures r.useCount == p.useCount.GetOr(t.useCount)
    ensures r.status == p.status.GetOr(t.status)
  {
    t.(tagName := p.tagName.GetOr(t.tagName), useCount := p.useCount.GetOr(t.useCount),
       status := p.status.GetOr(t.status), updatedAt := now)
  }

  /** Edit a tag: the first tag with the edit's ID is patched and nothing
      else changes; with no such tag the reply is "标签不存在" and nothing
      changes. Unlike `addTag`, the new name is not checked against the
      other tags. */
  function UpdateTag(db: Db, p: TagPatch, now: string): (out: Step)
    ensures out.res.Success? <==> HasTag(db.tags, p.tagId)
    ensures !HasTag(db.tags, p.tagId) ==> out == Step(db, Error(TAG_NOT_FOUND))
    ensures HasTag(db.tags, p.tagId) ==>
      && out.res == Success(Null)
      && out.db == db.(tags := out.db.tags)
      && |out.db.tags| == |db.tags|
      && forall i :: 0 <= i < |db.tags| ==>
           out.db.tags[i] == if FirstTagWithId(db.tags, p.tagId, i) then PatchTag(db.tags[i], p, now) else db.tags[i]
  {
    var i := FindIndex(db.tags, (t: Tag) => t.tagId == p.tagId);
    if i == -1 then
      Step(db, Error(TAG_NOT_FOUND))
    else
      assert forall k :: 0 <= k < |db.tags| ==> (FirstTagWithId(db.tags, p.tagId, k) <==> k == i);
      Step(db.(tags := db.tags[i := PatchTag(db.tags[i], p, now)]), Success(Null))
  }

  /** After an edit, looking the tag up finds it patched. */
  lemma UpdatedTagIsFound(db: Db, p: TagPatch, now: string)
    requires HasTag(db.tags, p.tagId)
    ensures var t := GetTagById(UpdateTag(db, p, now).db, p.tagId).res;
      && t.Success? && t.data.TagData?
      && t.data.tag.tagId == p.tagId
      && (p.tagName.Some? ==> t.data.tag.tagName == p.tagName.value)
      && t.data.tag.updatedAt == now
  {
    var i := FindIndex(db.tags, (t: Tag) => t.tagId == p.tagId);
    var after := UpdateTag(db, p, now).db.tags;
    assert FirstTagWithId(db.tags, p.tagId, i);
    assert FirstTagWithId(after, p.tagId, i);
    var k :| 0 <= k < |after| && after[k].tagId == p.tagId &&
      (forall j :: 0 <= j < k ==> after[j].tagId != p.tagId) &&
      GetTagById(UpdateTag(db, p, now).db, p.tagId).res.data == TagData(after[k]);
    assert k == i;
  }

  /** Editing a tag twice with the same edit is editing it once, as of the
      later time. */
  lemma UpdateTagTwice(db: Db, p: TagPatch, now: string, later: string)
    ensures UpdateTag(UpdateTag(db, p, now).db, p, later).db == UpdateTag(db, p, later).db
  {
    var once := UpdateTag(db, p, now).db;
    if HasTag(db.tags, p.tagId) {
      assert forall i :: 0 <= i < |db.tags| ==>
        (FirstTagWithId(once.tags, p.tagId, i) <==> FirstTagWithId(db.tags, p.tagId, i));
      assert HasTag(once.tags, p.tagId) by {
        var i := FindIndex(db.tags, (t: Tag) => t.tagId == p.tagId);
        assert once.tags[i].tagId == p.tagId;
      }
    }
  }

  /** Delete tags (a hard delete): for each listed ID the first tag with that
      ID is spliced out. Tags whose ID is not listed all survive in their
      order; when IDs are unique, every listed tag is gone; a list of unknown
      IDs changes nothing. */
  function DeleteTags(db: Db, ids: seq<int>): (out: Step)
    ensures out.res == Success(Null)
    ensures out.db == db.(tags := out.db.tags)
    ensures var S := set id | id in ids;
      Filter(out.db.tags, Outside(TagId, S)) == Filter(db.tags, Outside(TagId, S))
    ensures UniqueKeys(db.tags, TagId) ==>
      out.db.tags == Filter(db.tags, Outside(TagId, set id | id in ids))
    ensures (forall j :: 0 <= j < |db.tags| ==> db.tags[j].tagId !in ids) ==> out.db == db
  {
    var tags := HardDeleteBy(db.tags, ids, TagId);
    HardDeleteKeepsUnlisted(db.tags, ids, TagId, set id | id in ids);
    assert UniqueKeys(db.tags, TagId) ==>
      tags == Filter(db.tags, Outside(TagId, set id | id in ids)) by {
      if UniqueKeys(db.tags, TagId) { HardDeleteUnique(db.tags, ids, TagId); }
    }
    assert (forall j :: 0 <= j < |db.tags| ==> db.tags[j].tagId !in ids) ==> tags == db.tags by {
      if forall j :: 0 <= j < |db.tags| ==> db.tags[j].tagId !in ids {
        HardDeleteIgnoresUnknown(db.tags, ids, TagId);
      }
    }
    Step(db.(tags := tags), Success(Null))
  }

  /** With unique IDs, a deleted tag can no longer be looked up. */
  lemma DeletedTagIsGone(db: Db, ids: seq<int>, id: int)
    requires UniqueKeys(db.tags, TagId) && id in ids
    ensures GetTagById(DeleteTags(db, ids).db, id).res == Error(TAG_NOT_FOUND)
  {
    var after := DeleteTags(db, ids).db.tags;
    var S := set x | x in ids;
    assert after == Filter(db.tags, Outside(TagId, S));
    forall i | 0 <= i < |after|
      ensures after[i].tagId != id
    {
      assert after[i] in Filter(db.tags, Outside(TagId, S));
      assert TagId(after[i]) !in S;
    }
  }
}
