/**
 * Page counting and the page window over the filtered collection.
 * Page numbers are 1-based; `pageSize` is positive (15 in the store).
 */
module Paging {

  /** The store's initial `pageSize`. */
  const DefaultPageSize: int := 15

  /**
   * `Math.max(1, Math.ceil(total / pageSize))`: the fewest pages of `pageSize`
   * items that hold `total` items, and never fewer than one.
   */
  function TotalPages(total: nat, pageSize: int): (r: int)
    requires pageSize > 0
    ensures r >= 1
    ensures total <= r * pageSize
    ensures r == 1 || (r - 1) * pageSize < total
  {
    var q := (total + pageSize - 1) / pageSize;
    var m := (total + pageSize - 1) % pageSize;
    assert total + pageSize - 1 == q * pageSize + m;
    if q < 1 then 1 else q
  }

  /** A relative `slice` index: negative counts from the end; both clamp to `[0, len]`. */
  function ClampIndex(i: int, len: nat): (r: nat)
    ensures r <= len
  {
    if i < 0 then (if len + i < 0 then 0 else len + i)
    else if i > len then len
    else i
  }

  /** `s.slice(start, end)`. */
  function Slice<T>(s: seq<T>, start: int, end: int): (r: seq<T>)
    ensures |r| <= |s|
    ensures 0 <= start <= end <= |s| ==> r == s[start..end]
    ensures forall x :: x in r ==> x in s
  {
    var a := ClampIndex(start, |s|);
    var b := ClampIndex(end, |s|);
    if a < b then s[a..b] else []
  }

  /** `paged`: the slice from `(page - 1) * pageSize`, `pageSize` long. */
  function Paged<T>(f: seq<T>, page: int, pageSize: int): seq<T> {
    var start := (page - 1) * pageSize;
    Slice(f, start, start + pageSize)
  }

  /**
   * For a page number of 1 or more the page is the window of `f` starting at
   * `(page - 1) * pageSize`, cut short at the end of `f`: empty past the end,
   * never longer than a page.
   */
  lemma PagedWindow<T>(f: seq<T>, page: int, pageSize: int)
    requires page >= 1 && pageSize > 0
    ensures var s := (page - 1) * pageSize;
      && (s >= |f| ==> Paged(f, page, pageSize) == [])
      && (s < |f| ==> Paged(f, page, pageSize) == f[s..if s + pageSize < |f| then s + pageSize else |f|])
      && |Paged(f, page, pageSize)| <= pageSize
  {
  }

  /** Item `i` of `f` appears on page `i / pageSize + 1`, at position `i % pageSize`. */
  lemma PagedAt<T>(f: seq<T>, pageSize: int, i: int)
    requires pageSize > 0 && 0 <= i < |f|
    ensures var page := i / pageSize + 1;
      && i % pageSize < |Paged(f, page, pageSize)|
      && Paged(f, page, pageSize)[i % pageSize] == f[i]
  {
    var page := i / pageSize + 1;
    var s := (page - 1) * pageSize;
    assert s == i / pageSize * pageSize;
    assert s + i % pageSize == i;
    PagedWindow(f, page, pageSize);
  }

  /**
   * Every page from 1 to the page count shows something, unless there is
   * nothing to show; the pages past the count are empty.
   */
  lemma PagesInRangeAreNonEmpty<T>(f: seq<T>, page: int, pageSize: int)
    requires pageSize > 0 && page >= 1
    ensures page <= TotalPages(|f|, pageSize) && |f| > 0 ==> Paged(f, page, pageSize) != []
    ensures page > TotalPages(|f|, pageSize) ==> Paged(f, page, pageSize) == []
  {
    PageStartInRange(|f|, TotalPages(|f|, pageSize), page, pageSize);
    PagedEmptyExactly(f, page, pageSize);
  }

  /** A page is empty exactly when it starts at or past the end of `f`. */
  lemma PagedEmptyExactly<T>(f: seq<T>, page: int, pageSize: int)
    requires page >= 1 && pageSize > 0
    ensures Paged(f, page, pageSize) == [] <==> |f| <= (page - 1) * pageSize
  {
    PagedWindow(f, page, pageSize);
  }

  /** A page within the count starts inside the items; a page past it starts after them. */
  lemma PageStartInRange(n: nat, tp: int, page: int, pageSize: int)
    requires pageSize > 0 && page >= 1 && tp >= 1
    requires n <= tp * pageSize && (tp == 1 || (tp - 1) * pageSize < n)
    ensures page <= tp && n > 0 ==> (page - 1) * pageSize < n
    ensures page > tp ==> n <= (page - 1) * pageSize
  {
    if page <= tp && n > 0 && tp > 1 {
      MulMonotone(page - 1, tp - 1, pageSize);
    }
    if page > tp {
      MulMonotone(tp, page - 1, pageSize);
    }
  }

  lemma MulMonotone(a: int, b: int, c: int)
    requires 0 <= a <= b && c >= 0
    ensures a * c <= b * c
  {
  }
}
