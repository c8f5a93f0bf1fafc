/** Client-side pagination as the pages do it: `Array.prototype.slice` with
    JavaScript's index rules, a page of `size` items starting at `(page-1)*size`,
    `Math.ceil(length / size)` pages, and the Previous/Next buttons that clamp
    the page number. */
module Paging {

  /** How `slice` resolves an index: a negative index counts from the end, and
      every index is clamped to `[0, len]`. */
  function SliceIndex(i: int, len: nat): (k: nat)
    ensures k <= len
    ensures 0 <= i <= len ==> k == i
    ensures i > len ==> k == len
    ensures i < 0 ==> k == if len + i < 0 then 0 else len + i
  {
    if i < 0 then (if len + i < 0 then 0 else len + i)
    else if i < len then i
    else len
  }

  /** `s.slice(b, e)`. */
  function JsSlice<T>(s: seq<T>, b: int, e: int): (r: seq<T>)
    ensures var lo, hi := SliceIndex(b, |s|), SliceIndex(e, |s|);
      r == if lo < hi then s[lo..hi] else []
  {
    var lo, hi := SliceIndex(b, |s|), SliceIndex(e, |s|);
    if lo < hi then s[lo..hi] else []
  }

  /** `s.slice(start, start + size)`. */
  function Window<T>(s: seq<T>, start: int, size: nat): (r: seq<T>)
    ensures |r| <= size
    ensures start >= 0 ==>
      |r| == (if |s| <= start then 0 else if |s| - start < size then |s| - start else size)
    ensures start >= 0 ==> forall i :: 0 <= i < |r| ==> r[i] == s[start + i]
  {
    JsSlice(s, start, start + size)
  }

  /** `s.slice((page - 1) * size, (page - 1) * size + size)`. */
  function Page<T>(s: seq<T>, page: int, size: nat): (r: seq<T>)
    requires size > 0
    ensures |r| <= size
    ensures page >= 1 ==>
      |r| == (if |s| <= (page - 1) * size then 0
              else if |s| - (page - 1) * size < size then |s| - (page - 1) * size
              else size)
    ensures page >= 1 ==> forall i :: 0 <= i < |r| ==> r[i] == s[(page - 1) * size + i]
  {
    if page >= 1 then
      MulMonotone(0, page - 1, size);
      Window(s, (page - 1) * size, size)
    else
      Window(s, (page - 1) * size, size)
  }

  /** `Math.ceil(n / size)`. */
  function PageCount(n: nat, size: nat): (pages: nat)
    requires size > 0
    ensures n == 0 ==> pages == 0
    ensures n > 0 ==> (pages - 1) * size < n <= pages * size
  {
    (n + size - 1) / size
  }

  /** Every item is shown on exactly one page, `i / size + 1`, at offset `i % size`,
      and that page number is within the page count. */
  lemma ItemOnPage<T>(s: seq<T>, size: nat, i: int)
    requires size > 0 && 0 <= i < |s|
    ensures 1 <= i / size + 1 <= PageCount(|s|, size)
    ensures var p := Page(s, i / size + 1, size);
      i % size < |p| && p[i % size] == s[i]
  {
    var q := i / size;
    assert q * size + i % size == i;
    MulCancelLess(q, PageCount(|s|, size), size);
  }

  lemma MulCancelLess(a: nat, b: nat, c: nat)
    requires a * c < b * c
    ensures a < b
  {
    if b <= a {
      MulMonotone(b, a, c);
    }
  }

  lemma MulMonotone(a: nat, b: nat, c: nat)
    requires a <= b
    ensures a * c <= b * c
  {
  }

  /** Pages beyond the page count are empty, and pages within it are not. */
  lemma PageEmptyIffBeyond<T>(s: seq<T>, size: nat, page: int)
    requires size > 0 && page >= 1
    ensures Page(s, page, size) == [] <==> page > PageCount(|s|, size)
  {
    var pages := PageCount(|s|, size);
    if page > pages {
      MulMonotone(pages, page - 1, size);
    } else {
      MulMonotone(page, pages, size);
      assert (page - 1) * size == page * size - size;
    }
  }

  /** The Previous button: `Math.max(page - 1, 1)`. */
  function Prev(page: int): (p: int)
    ensures p >= 1
    ensures page > 1 ==> p == page - 1
    ensures page <= 1 ==> p == 1
  {
    if page - 1 > 1 then page - 1 else 1
  }

  /** The Next button: `Math.min(page + 1, totalPages)`. */
  function Next(page: int, total: int): (p: int)
    ensures p <= total
    ensures page < total ==> p == page + 1
    ensures page >= total ==> p == total
  {
    if page + 1 < total then page + 1 else total
  }

  /** Starting from a page within `[1, total]`, both buttons keep the page there,
      move it by at most one, and never move it past the first or last page. */
  lemma ButtonsKeepRange(page: int, total: int)
    requires 1 <= page <= total
    ensures 1 <= Prev(page) <= page <= total
    ensures 1 <= page <= Next(page, total) <= total
    ensures page - Prev(page) <= 1 && Next(page, total) - page <= 1
    ensures page == 1 <==> Prev(page) == page
    ensures page == total <==> Next(page, total) == page
  {
  }
}
