/** Array operations the mock backend's handlers are built from: `filter`,
    `findIndex`, and the two ways a table forgets rows by ID — marking the
    first match (soft delete) and splicing the first match out (hard delete). */
module Seqs {

  /** `s.filter(p)`: the elements satisfying `p`, in their original order. */
  function Filter<T(!new)>(s: seq<T>, p: T -> bool): (r: seq<T>)
    ensures |r| <= |s|
    ensures forall x :: x in r <==> x in s && p(x)
  {
    if |s| == 0 then []
    else
      var rest := Filter(s[1..], p);
      if p(s[0]) then [s[0]] + rest else rest
  }

  lemma {:induction false} FilterAppend<T(!new)>(a: seq<T>, b: seq<T>, p: T -> bool)
    ensures Filter(a + b, p) == Filter(a, p) + Filter(b, p)
    decreases |a|
  {
    if |a| > 0 {
      assert (a + b)[0] == a[0];
      assert (a + b)[1..] == a[1..] + b;
      FilterAppend(a[1..], b, p);
      if p(a[0]) {
        calc {
          Filter(a + b, p);
          [a[0]] + Filter(a[1..] + b, p);
          [a[0]] + (Filter(a[1..], p) + Filter(b, p));
          ([a[0]] + Filter(a[1..], p)) + Filter(b, p);
        }
      }
    } else {
      assert a + b == b;
    }
  }

  lemma {:induction false} FilterKeepsAll<T(!new)>(s: seq<T>, p: T -> bool)
    requires forall i :: 0 <= i < |s| ==> p(s[i])
    ensures Filter(s, p) == s
    decreases |s|
  {
    if |s| > 0 {
      FilterKeepsAll(s[1..], p);
    }
  }

  /** Two predicates that agree on the elements of `s` select the same rows. */
  lemma {:induction false} FilterExt<T(!new)>(s: seq<T>, p: T -> bool, q: T -> bool)
    requires forall i :: 0 <= i < |s| ==> p(s[i]) == q(s[i])
    ensures Filter(s, p) == Filter(s, q)
    decreases |s|
  {
    if |s| > 0 {
      FilterExt(s[1..], p, q);
    }
  }

  /** Two sequences of equal length whose elements agree on `p` position by
      position keep the same number of elements under `p`. */
  lemma {:induction false} FilterSameCount<T(!new)>(a: seq<T>, b: seq<T>, p: T -> bool)
    requires |a| == |b|
    requires forall i :: 0 <= i < |a| ==> p(a[i]) == p(b[i])
    ensures |Filter(a, p)| == |Filter(b, p)|
    decreases |a|
  {
    if |a| > 0 {
      FilterSameCount(a[1..], b[1..], p);
    }
  }

  /** Filtering twice is filtering once by the conjunction. */
  lemma {:induction false} FilterFuse<T(!new)>(s: seq<T>, p: T -> bool, q: T -> bool, pq: T -> bool)
    requires forall x :: pq(x) == (p(x) && q(x))
    ensures Filter(Filter(s, p), q) == Filter(s, pq)
    decreases |s|
  {
    if |s| > 0 {
      FilterFuse(s[1..], p, q, pq);
      if p(s[0]) {
        assert Filter(s, p) == [s[0]] + Filter(s[1..], p);
        assert Filter(s, p)[1..] == Filter(s[1..], p);
      }
    }
  }

  /** `if (on) rows = rows.filter(p)`: one optional stage of a filter chain. */
  function Stage<T(!new)>(s: seq<T>, on: bool, p: T -> bool): (r: seq<T>)
    ensures on ==> r == Filter(s, p)
    ensures !on ==> r == s
  {
    if on then Filter(s, p) else s
  }

  /** An optional stage after a filter by `m` is one filter by `m` and, when
      the stage is on, `p`. */
  lemma StageFuse<T(!new)>(s: seq<T>, m: T -> bool, on: bool, p: T -> bool, m2: T -> bool)
    requires forall x :: m2(x) == (m(x) && (!on || p(x)))
    ensures Stage(Filter(s, m), on, p) == Filter(s, m2)
  {
    if on {
      FilterFuse(s, m, p, m2);
    } else {
      FilterExt(s, m, m2);
    }
  }

  /** `s.findIndex(p)`: the first index satisfying `p`, or -1. */
  function FindIndex<T(!new)>(s: seq<T>, p: T -> bool): (r: int)
    ensures -1 <= r < |s|
    ensures r == -1 <==> forall j :: 0 <= j < |s| ==> !p(s[j])
    ensures r >= 0 ==> p(s[r]) && forall j :: 0 <= j < r ==> !p(s[j])
  {
    if |s| == 0 then -1
    else if p(s[0]) then 0
    else
      var k := FindIndex(s[1..], p);
      if k == -1 then -1 else k + 1
  }

  /** `const x = s.find(p); if (x) x = f(x)` on a table of records: the first
      element satisfying `p` is replaced by `f` of it; nothing else moves. */
  function UpdateFirst<T(!new)>(s: seq<T>, p: T -> bool, f: T -> T): (r: seq<T>)
    ensures |r| == |s|
    ensures var i := FindIndex(s, p);
      forall j :: 0 <= j < |s| ==> r[j] == if j == i then f(s[j]) else s[j]
  {
    var i := FindIndex(s, p);
    if i == -1 then s else s[i := f(s[i])]
  }

  /** `i` is the first position whose key is `id`: the row `find` returns. */
  predicate FirstAt<T>(s: seq<T>, key: T -> int, id: int, i: int) {
    && 0 <= i < |s|
    && key(s[i]) == id
    && forall j :: 0 <= j < i ==> key(s[j]) != id
  }

  /** Some row's key is `id`. */
  predicate HasKey<T>(s: seq<T>, key: T -> int, id: int) {
    exists i :: 0 <= i < |s| && key(s[i]) == id
  }

  /** Row `j` holds the first occurrence of its key. */
  predicate FirstWithKey<T(!new)>(s: seq<T>, key: T -> int, j: int)
    requires 0 <= j < |s|
  {
    forall k :: 0 <= k < j ==> key(s[k]) != key(s[j])
  }

  /** `ids.forEach(id => { i = s.findIndex(x => key(x) === id); if (i !== -1) s[i] = mark(s[i]) })`.
      The result keeps every row in place and marks exactly the rows that are
      the first with a listed key; unknown IDs change nothing. */
  function SoftDeleteBy<T(!new)>(s: seq<T>, ids: seq<int>, key: T -> int, mark: T -> T): (r: seq<T>)
    requires forall x :: key(mark(x)) == key(x)
    requires forall x :: mark(mark(x)) == mark(x)
    ensures |r| == |s|
    ensures forall j :: 0 <= j < |s| ==> key(r[j]) == key(s[j])
    ensures forall j :: 0 <= j < |s| ==>
      r[j] == if key(s[j]) in ids && FirstWithKey(s, key, j) then mark(s[j]) else s[j]
    decreases |ids|
  {
    if |ids| == 0 then s
    else
      var id := ids[0];
      var s1 := UpdateFirst(s, x => key(x) == id, mark);
      var i := FindIndex(s, x => key(x) == id);
      assert forall j :: 0 <= j < |s| ==> key(s1[j]) == key(s[j]);
      assert forall j :: 0 <= j < |s| ==> FirstWithKey(s1, key, j) == FirstWithKey(s, key, j);
      assert forall j :: 0 <= j < |s| ==> (j == i <==> key(s[j]) == id && FirstWithKey(s, key, j));
      assert forall j :: 0 <= j < |s| ==> (key(s[j]) in ids <==> key(s[j]) == id || key(s[j]) in ids[1..]);
      SoftDeleteBy(s1, ids[1..], key, mark)
  }

  /** The predicate "key not in S", as one value so that statements about
      the same selection compare equal. */
  function Outside<T(!new)>(key: T -> int, S: set<int>): (p: T -> bool)
    ensures forall x :: p(x) <==> key(x) !in S
  {
    x => key(x) !in S
  }

  /** `i = s.findIndex(x => key(x) === id); if (i !== -1) s.splice(i, 1)`. */
  function RemoveFirst<T(!new)>(s: seq<T>, id: int, key: T -> int): (r: seq<T>)
    ensures (forall k :: 0 <= k < |s| ==> key(s[k]) != id) ==> r == s
    ensures forall j :: 0 <= j < |s| && key(s[j]) == id && FirstWithKey(s, key, j) ==>
      r == s[..j] + s[j + 1..]
  {
    var i := FindIndex(s, x => key(x) == id);
    if i == -1 then s else s[..i] + s[i + 1..]
  }

  /** `ids.forEach(id => { i = s.findIndex(...); if (i !== -1) s.splice(i, 1) })`. */
  function HardDeleteBy<T(!new)>(s: seq<T>, ids: seq<int>, key: T -> int): (r: seq<T>)
    ensures |r| <= |s|
    ensures forall x :: x in r ==> x in s
    decreases |ids|
  {
    if |ids| == 0 then s
    else
      var s1 := RemoveFirst(s, ids[0], key);
      assert forall x :: x in s1 ==> x in s by {
        var i := FindIndex(s, x => key(x) == ids[0]);
        if i != -1 {
          assert forall j :: 0 <= j < |s1| ==> s1[j] == s[if j < i then j else j + 1];
        }
      }
      HardDeleteBy(s1, ids[1..], key)
  }

  /** Filtering skips a rejected element wherever it sits. */
  lemma FilterSkips<T(!new)>(pre: seq<T>, x: T, post: seq<T>, p: T -> bool)
    requires !p(x)
    ensures Filter(pre + ([x] + post), p) == Filter(pre + post, p)
  {
    FilterAppend(pre, [x] + post, p);
    FilterAppend([x], post, p);
    FilterAppend(pre, post, p);
    assert Filter([x], p) == [];
  }

  lemma RemoveFirstKeepsOutside<T(!new)>(s: seq<T>, id: int, key: T -> int, S: set<int>)
    requires id in S
    ensures Filter(RemoveFirst(s, id, key), Outside(key, S)) == Filter(s, Outside(key, S))
  {
    var i := FindIndex(s, x => key(x) == id);
    if i != -1 {
      SplitAt(s, i);
      FilterSkips(s[..i], s[i], s[i + 1..], Outside(key, S));
    }
  }

  /** Hard deletion never touches a row whose key was not listed: those rows
      survive, all of them, in their original order. */
  lemma {:induction false} HardDeleteKeepsUnlisted<T(!new)>(s: seq<T>, ids: seq<int>, key: T -> int, S: set<int>)
    requires forall id :: id in ids ==> id in S
    ensures Filter(HardDeleteBy(s, ids, key), Outside(key, S)) == Filter(s, Outside(key, S))
    decreases |ids|
  {
    if |ids| > 0 {
      var s1 := RemoveFirst(s, ids[0], key);
      HardDeleteKeepsUnlisted(s1, ids[1..], key, S);
      RemoveFirstKeepsOutside(s, ids[0], key, S);
    }
  }

  /** A list of IDs none of which names a row leaves the table as it was. */
  lemma HardDeleteIgnoresUnknown<T(!new)>(s: seq<T>, ids: seq<int>, key: T -> int)
    requires forall j :: 0 <= j < |s| ==> key(s[j]) !in ids
    ensures HardDeleteBy(s, ids, key) == s
  {
    var S := set id | id in ids;
    var r := HardDeleteBy(s, ids, key);
    HardDeleteKeepsUnlisted(s, ids, key, S);
    FilterKeepsAll(s, Outside(key, S));
    assert forall j :: 0 <= j < |r| ==> r[j] in s;
    FilterKeepsAll(r, Outside(key, S));
  }

  /** `s.map(f)`. */
  function Map<T, U>(s: seq<T>, f: T -> U): (r: seq<U>)
    ensures |r| == |s|
    ensures forall i :: 0 <= i < |s| ==> r[i] == f(s[i])
  {
    if |s| == 0 then [] else [f(s[0])] + Map(s[1..], f)
  }

  /** No two rows share a key. */
  predicate UniqueKeys<T(!new)>(s: seq<T>, key: T -> int) {
    forall i, j :: 0 <= i < j < |s| ==> key(s[i]) != key(s[j])
  }

  lemma SplitAt<T>(s: seq<T>, i: int)
    requires 0 <= i < |s|
    ensures s == s[..i] + ([s[i]] + s[i + 1..])
  {
  }

  lemma FilterDropsOne<T(!new)>(pre: seq<T>, x: T, post: seq<T>, p: T -> bool)
    requires forall j :: 0 <= j < |pre| ==> p(pre[j])
    requires !p(x)
    requires forall j :: 0 <= j < |post| ==> p(post[j])
    ensures Filter(pre + ([x] + post), p) == pre + post
  {
    FilterKeepsAll(pre, p);
    FilterKeepsAll(post, p);
    FilterAppend(pre, [x] + post, p);
    FilterAppend([x], post, p);
    assert Filter([x], p) == [];
  }

  lemma RemoveFirstUniqueFilters<T(!new)>(s: seq<T>, id: int, key: T -> int)
    requires UniqueKeys(s, key)
    ensures RemoveFirst(s, id, key) == Filter(s, Outside(key, {id}))
  {
    var p := Outside(key, {id});
    var i := FindIndex(s, x => key(x) == id);
    if i == -1 {
      assert forall j :: 0 <= j < |s| ==> key(s[j]) != id;
      FilterKeepsAll(s, p);
    } else {
      var pre, post := s[..i], s[i + 1..];
      forall j | 0 <= j < |pre|
        ensures p(pre[j])
      {
        assert pre[j] == s[j];
      }
      forall j | 0 <= j < |post|
        ensures p(post[j])
      {
        assert post[j] == s[i + 1 + j];
        assert key(s[i]) != key(s[i + 1 + j]);
      }
      SplitAt(s, i);
      FilterDropsOne(pre, s[i], post, p);
    }
  }

  lemma RemoveFirstStaysUnique<T(!new)>(s: seq<T>, id: int, key: T -> int)
    requires UniqueKeys(s, key)
    ensures UniqueKeys(RemoveFirst(s, id, key), key)
  {
    var i := FindIndex(s, x => key(x) == id);
    if i != -1 {
      var r := s[..i] + s[i + 1..];
      forall a, b | 0 <= a < b < |r|
        ensures key(r[a]) != key(r[b])
      {
        var a' := if a < i then a else a + 1;
        var b' := if b < i then b else b + 1;
        assert r[a] == s[a'] && r[b] == s[b'];
      }
    }
  }

  /** The IDs a list names: its head and the IDs its tail names. */
  lemma ListedSplit(ids: seq<int>)
    requires |ids| > 0
    ensures (set id | id in ids) == {ids[0]} + (set id | id in ids[1..])
  {
    forall id | id in ids ensures id == ids[0] || id in ids[1..] {
      var k :| 0 <= k < |ids| && ids[k] == id;
      if k > 0 { assert ids[1..][k - 1] == id; }
    }
  }

  /** When no two rows share a key, hard deletion removes exactly the rows
      whose key is listed and keeps the rest in order. */
  lemma {:induction false} HardDeleteUnique<T(!new)>(s: seq<T>, ids: seq<int>, key: T -> int)
    requires UniqueKeys(s, key)
    ensures HardDeleteBy(s, ids, key) == Filter(s, Outside(key, set id | id in ids))
    decreases |ids|
  {
    if |ids| == 0 {
      FilterKeepsAll(s, Outside(key, {}));
      assert (set id | id in ids) == {};
    } else {
      var s1 := RemoveFirst(s, ids[0], key);
      RemoveFirstUniqueFilters(s, ids[0], key);
      RemoveFirstStaysUnique(s, ids[0], key);
      HardDeleteUnique(s1, ids[1..], key);
      var rest := set id | id in ids[1..];
      var all := set id | id in ids;
      ListedSplit(ids);
      FilterFuse(s, Outside(key, {ids[0]}), Outside(key, rest), Outside(key, all));
    }
  }
}
