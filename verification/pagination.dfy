/**
 * Paging of the sorted call list: page `p` (counted from 1) of size `s` is
 * `slice((p - 1) * s, (p - 1) * s + s)`, and the page count is
 * `Math.ceil(n / s)`.
 */
module Pagination {
  import opened JsArray

  /** The table starts on page 1 with ten rows per page. */
  const InitialPage: int := 1
  const InitialPageSize: int := 10

  function Min(a: int, b: int): int {
    if a <= b then a else b
  }

  /** `currentTableData`: the rows shown on page `page`. */
  function Page<T>(s: seq<T>, page: int, size: int): (r: seq<T>)
    ensures 0 <= size ==> |r| <= size
    ensures 1 <= page && 0 <= size ==>
              var first := (page - 1) * size;
              r == s[Min(first, |s|)..Min(first + size, |s|)]
  {
    var first := (page - 1) * size;
    if 1 <= page && 0 <= size then
      ProductNonNegative(page - 1, size);
      SliceFromNonNegative(s, first, size)
    else
      Slice(s, first, first + size)
  }

  lemma ProductNonNegative(a: int, b: int)
    requires 0 <= a && 0 <= b
    ensures 0 <= a * b
  {
  }

  /** Slicing at a non-negative start is plain clipping to the list's length. */
  function SliceFromNonNegative<T>(s: seq<T>, first: int, size: int): (r: seq<T>)
    requires 0 <= first && 0 <= size
    ensures r == Slice(s, first, first + size)
    ensures r == s[Min(first, |s|)..Min(first + size, |s|)]
  {
    assert ResolveIndex(first, |s|) == Min(first, |s|);
    assert ResolveIndex(first + size, |s|) == Min(first + size, |s|);
    Slice(s, first, first + size)
  }

  /** `Math.ceil(n / size)` for a positive page size. */
  function TotalPages(n: nat, size: int): (r: nat)
    requires size > 0
    ensures n == 0 ==> r == 0
    ensures 0 < n ==> (r - 1) * size < n <= r * size
  {
    (n + size - 1) / size
  }

  /** The pages `1..k` laid end to end. */
  function Pages<T>(s: seq<T>, size: int, k: nat): seq<T>
    decreases k
  {
    if k == 0 then [] else Pages(s, size, k - 1) + Page(s, k, size)
  }

  /** Page `k` starts where pages `1..k-1` end and ends `size` later. */
  lemma NextPageStart(k: nat, size: int)
    requires k > 0 && size > 0
    ensures 0 <= (k - 1) * size
    ensures (k - 1) * size + size == k * size
  {
    ProductNonNegative(k - 1, size);
  }

  lemma PrefixThenInfix<T>(s: seq<T>, a: nat, b: nat)
    requires a <= b <= |s|
    ensures s[..a] + s[a..b] == s[..b]
  {
  }

  lemma {:induction false} PagesPrefix<T>(s: seq<T>, size: int, k: nat)
    requires size > 0
    ensures Pages(s, size, k) == s[..Min(k * size, |s|)]
    decreases k
  {
    if k > 0 {
      PagesPrefix(s, size, k - 1);
      var first := (k - 1) * size;
      NextPageStart(k, size);
      var a := Min(first, |s|);
      var b := Min(k * size, |s|);
      assert Page(s, k, size) == s[a..b];
      PrefixThenInfix(s, a, b);
    }
  }

  /** Reading pages 1 to `TotalPages` in turn shows the whole list exactly once, in order. */
  lemma PagesCoverList<T>(s: seq<T>, size: int)
    requires size > 0
    ensures Pages(s, size, TotalPages(|s|, size)) == s
  {
    var k := TotalPages(|s|, size);
    PagesPrefix(s, size, k);
    assert Min(k * size, |s|) == |s|;
  }

  /** Item `i` is shown on page `i / size + 1`, in row `i % size`. */
  lemma ItemOnPage<T>(s: seq<T>, size: int, i: nat)
    requires size > 0 && i < |s|
    ensures var p := Page(s, i / size + 1, size);
            i % size < |p| && p[i % size] == s[i]
  {
    var q := i / size;
    var first := q * size;
    assert first + i % size == i;
    ProductNonNegative(q, size);
    assert (q + 1 - 1) * size == first;
  }

  lemma MulMonotone(a: int, b: int, c: int)
    requires a <= b && 0 <= c
    ensures a * c <= b * c
  {
    ProductNonNegative(b - a, c);
  }

  /** A page beyond the last one is empty (the current page is not reset by a new search). */
  lemma PageBeyondLastIsEmpty<T>(s: seq<T>, size: int, page: int)
    requires size > 0 && page > TotalPages(|s|, size)
    ensures Page(s, page, size) == []
  {
    var k := TotalPages(|s|, size);
    assert k * size >= |s|;
    MulMonotone(k, page - 1, size);
  }

  /** The table opens on page 1 with 10 rows: the first ten items, or all of a shorter list. */
  lemma FirstPageOnOpen<T>(s: seq<T>)
    ensures Page(s, InitialPage, InitialPageSize) == s[..Min(InitialPageSize, |s|)]
    ensures TotalPages(|s|, InitialPageSize) <= 1 <==> |s| <= InitialPageSize
  {
    assert Page(s, InitialPage, InitialPageSize) == s[Min(0, |s|)..Min(10, |s|)];
  }
}
