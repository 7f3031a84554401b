/**
 * The call table's view pipeline: search filter, then sort, then the
 * current page.
 */
module CallTable {
  import opened CallRecords
  import opened CallSearch
  import opened CallSort
  import opened Pagination

  /** `sortedCalls`: the matching calls, each as often as in the input, and no other call. */
  function SortedCalls(calls: seq<CallRecord>, term: string, cfg: SortConfig,
                       collate: (string, string) -> int): (r: seq<CallRecord>)
    ensures forall c :: multiset(r)[c] == if Matches(c, term) then multiset(calls)[c] else 0
  {
    SortCalls(FilterCalls(calls, term), cfg, collate)
  }

  /** `currentTableData`: the rows on screen. */
  function VisibleRows(calls: seq<CallRecord>, term: string, cfg: SortConfig,
                       collate: (string, string) -> int, page: int, size: int): (r: seq<CallRecord>)
    ensures 0 <= size ==> |r| <= size
    ensures forall c :: c in r ==> c in calls && Matches(c, term)
  {
    var sorted := SortedCalls(calls, term, cfg, collate);
    var r := Page(sorted, page, size);
    forall c | c in r ensures c in calls && Matches(c, term) {
      assert c in sorted;
      assert c in multiset(sorted);
      FilterSound(calls, term, c);
    }
    r
  }

  /** `totalPages`. */
  function PageCount(calls: seq<CallRecord>, term: string, size: int): (n: nat)
    requires size > 0
    ensures n * size >= |FilterCalls(calls, term)|
    ensures n > 0 ==> (n - 1) * size < |FilterCalls(calls, term)|
  {
    TotalPages(|FilterCalls(calls, term)|, size)
  }

  /**
   * Paging through every page shows each matching call exactly as often as
   * it occurs in the input and no other call, in sorted order.
   */
  lemma AllPagesShowMatches(calls: seq<CallRecord>, term: string, cfg: SortConfig,
                            collate: (string, string) -> int, size: int)
    requires size > 0
    requires IsCollation(collate)
    ensures var shown := Pages(SortedCalls(calls, term, cfg, collate), size, PageCount(calls, term, size));
            && (forall c :: multiset(shown)[c] == if Matches(c, term) then multiset(calls)[c] else 0)
            && (forall i, j :: 0 <= i < j < |shown| ==> NotAfter(cfg, collate, shown[i], shown[j]))
  {
    var sorted := SortedCalls(calls, term, cfg, collate);
    PagesCoverList(sorted, size);
    SortCallsSorted(FilterCalls(calls, term), cfg, collate);
  }

  /** With an empty search box the pages show every call. */
  lemma EmptySearchShowsAll(calls: seq<CallRecord>, cfg: SortConfig,
                            collate: (string, string) -> int, size: int)
    requires size > 0
    ensures multiset(Pages(SortedCalls(calls, "", cfg, collate), size, PageCount(calls, "", size)))
            == multiset(calls)
  {
    EmptySearchKeepsAll(calls);
    PagesCoverList(SortedCalls(calls, "", cfg, collate), size);
  }
}
