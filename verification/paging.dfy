/** Offset pagination as every list handler of the mock backend does it:
    `page || 1`, `pageSize || 10`, then `rows.slice((page - 1) * pageSize, page * pageSize)`. */
module Paging {

  import opened Records

  const DEFAULT_PAGE: nat := 1
  const DEFAULT_PAGE_SIZE: nat := 10

  /** A list response: the number of rows that matched and one page of them. */
  datatype Page<T> = Page(total: nat, rows: seq<T>)

  /** `page || 1`: an absent or zero page number means the first page. */
  function PageNumber(page: Option<nat>): (p: nat)
    ensures p >= 1
    ensures page.Some? && page.value > 0 ==> p == page.value
    ensures page.None? || page.value == 0 ==> p == DEFAULT_PAGE
  {
    if page.Some? && page.value != 0 then page.value else DEFAULT_PAGE
  }

  /** `pageSize || 10`: an absent or zero page size means ten rows. */
  function PageSize(pageSize: Option<nat>): (n: nat)
    ensures n >= 1
    ensures pageSize.Some? && pageSize.value > 0 ==> n == pageSize.value
    ensures pageSize.None? || pageSize.value == 0 ==> n == DEFAULT_PAGE_SIZE
  {
    if pageSize.Some? && pageSize.value != 0 then pageSize.value else DEFAULT_PAGE_SIZE
  }

  function Min(a: int, b: int): int {
    if a <= b then a else b
  }

  /** `s.slice(start, end)` for non-negative bounds: both are clamped to the
      length and a reversed range is empty. */
  function Slice<T>(s: seq<T>, start: nat, end: nat): (r: seq<T>)
    ensures |r| == if start >= |s| || end <= start then 0 else Min(end, |s|) - start
    ensures forall k :: 0 <= k < |r| ==> start + k < |s| && r[k] == s[start + k]
  {
    var lo := Min(start, |s|);
    var hi := Min(end, |s|);
    if hi <= lo then [] else s[lo..hi]
  }

  /** Index of the first row of a page. */
  function PageStart(page: Option<nat>, pageSize: Option<nat>): nat {
    (PageNumber(page) - 1) * PageSize(pageSize)
  }

  /** The `{ total, rows }` payload of a list handler over `filtered`. `total`
      counts every matching row; `rows` is the window of at most `pageSize`
      consecutive rows that starts at the page's first index. */
  function Paginate<T>(filtered: seq<T>, page: Option<nat>, pageSize: Option<nat>): (r: Page<T>)
    ensures r.total == |filtered|
    ensures |r.rows| <= PageSize(pageSize)
    ensures |r.rows| == if PageStart(page, pageSize) >= |filtered| then 0
                        else Min(PageSize(pageSize), |filtered| - PageStart(page, pageSize))
    ensures forall k :: 0 <= k < |r.rows| ==>
      r.rows[k] == filtered[PageStart(page, pageSize) + k]
  {
    var start := PageStart(page, pageSize);
    Page(|filtered|, Slice(filtered, start, start + PageSize(pageSize)))
  }

  /** Every matching row is shown on exactly the page its index falls in, at
      the position its index has within that page. */
  lemma PageHoldsEveryRow<T>(filtered: seq<T>, i: nat, size: nat)
    requires i < |filtered|
    requires size >= 1
    ensures var r := Paginate(filtered, Some(i / size + 1), Some(size));
      i % size < |r.rows| && r.rows[i % size] == filtered[i]
  {
    var start := PageStart(Some(i / size + 1), Some(size));
    assert start == (i / size) * size;
    assert i == (i / size) * size + i % size;
  }
}
