/**
 * Sorting of the call table.  The sort state is a field and a direction;
 * choosing a header toggles it.  The comparator compares two strings with
 * the locale collation, two numbers by difference, and treats any other
 * pair as equal; the array sort is stable.
 */
module CallSort {
  import opened Wrappers
  import opened CallRecords
  import opened StableSort

  /* ---------------------------------------------------- the sort state */

  datatype Direction = Asc | Desc

  /** The record fields a sort can be keyed on. */
  datatype SortField =
    | CustomerName | CustomerEmail | CustomerNumber | Summary | Date
    | Duration | Cost | Status | Grade | RecordingUrl

  datatype SortConfig = SortConfig(field: SortField, direction: Direction)

  /** The table opens sorted by date, newest first. */
  const InitialSort: SortConfig := SortConfig(Date, Desc)

  /**
   * `handleSort(field)`: always switches to `field`; the direction turns
   * descending only when that same field was ascending.
   */
  function ToggleSort(prev: SortConfig, field: SortField): (next: SortConfig)
    ensures next.field == field
    ensures next.direction == Desc <==> prev.field == field && prev.direction == Asc
  {
    SortConfig(field, if prev.field == field && prev.direction == Asc then Desc else Asc)
  }

  /** Choosing a different field, or the initial date sort, starts ascending. */
  lemma ToggleStartsAscending(prev: SortConfig, field: SortField)
    requires prev.field != field || prev.direction == Desc
    ensures ToggleSort(prev, field) == SortConfig(field, Asc)
  {
  }

  /**
   * The table opens sorted by date, newest first, so the first click on
   * any header, the date header included, sorts ascending.
   */
  lemma FirstClickAscending(field: SortField)
    ensures InitialSort.field == Date && InitialSort.direction == Desc
    ensures ToggleSort(InitialSort, field) == SortConfig(field, Asc)
  {
    ToggleStartsAscending(InitialSort, field);
  }

  /**
   * Choosing the same field again flips the direction, so from the second
   * click on the state alternates with period two.
   */
  lemma ToggleSameFieldFlips(prev: SortConfig, field: SortField)
    ensures var once := ToggleSort(prev, field);
            var twice := ToggleSort(once, field);
            && twice.field == field
            && twice.direction != once.direction
            && ToggleSort(twice, field) == once
  {
  }

  /* ---------------------------------------------------- the comparator */

  /** What `a[sort.field]` holds: a string, a number, or neither (the grade). */
  datatype FieldValue = Text(text: string) | Number(number: int) | Neither

  function ValueOf(call: CallRecord, field: SortField): FieldValue {
    match field
    case CustomerName => Text(call.customerName)
    case CustomerEmail => Text(call.customerEmail)
    case CustomerNumber => Text(call.customerNumber)
    case Summary => Text(call.summary)
    case Date => Text(call.date)
    case Duration => Text(call.duration)
    case Cost => Number(call.cost)
    case Status => Text(call.status)
    case Grade => Neither
    case RecordingUrl => Text(call.recordingUrl)
  }

  function Sign(x: int): int {
    if x < 0 then -1 else if x == 0 then 0 else 1
  }

  /**
   * What the source asks of `localeCompare`: swapping the arguments flips
   * the sign, and "not after" is transitive.  So it is a total preorder.
   */
  ghost predicate IsCollation(collate: (string, string) -> int) {
    && (forall x, y :: Sign(collate(x, y)) == -Sign(collate(y, x)))
    && (forall x, y, z :: collate(x, y) <= 0 && collate(y, z) <= 0 ==> collate(x, z) <= 0)
  }

  /** The sort callback: negative when `a` goes first. */
  function Compare(cfg: SortConfig, collate: (string, string) -> int, a: CallRecord, b: CallRecord): (r: int)
    ensures cfg.field == Grade ==> r == 0
    ensures cfg.field == Cost && cfg.direction == Asc ==> Sign(r) == Sign(a.cost - b.cost)
    ensures cfg.field == Cost && cfg.direction == Desc ==> Sign(r) == Sign(b.cost - a.cost)
  {
    var direction := if cfg.direction == Asc then 1 else -1;
    match (ValueOf(a, cfg.field), ValueOf(b, cfg.field))
    case (Text(x), Text(y)) => direction * collate(x, y)
    case (Number(x), Number(y)) => direction * (x - y)
    case _ => 0
  }

  /** `a` may come before `b`. */
  predicate NotAfter(cfg: SortConfig, collate: (string, string) -> int, a: CallRecord, b: CallRecord) {
    Compare(cfg, collate, a, b) <= 0
  }

  lemma CompareTotal(cfg: SortConfig, collate: (string, string) -> int, a: CallRecord, b: CallRecord)
    requires IsCollation(collate)
    ensures NotAfter(cfg, collate, a, b) || NotAfter(cfg, collate, b, a)
  {
    match (ValueOf(a, cfg.field), ValueOf(b, cfg.field))
    case (Text(x), Text(y)) =>
      assert Sign(collate(x, y)) == -Sign(collate(y, x));
    case (Number(x), Number(y)) =>
    case _ =>
  }

  lemma CompareTransitive(cfg: SortConfig, collate: (string, string) -> int, a: CallRecord, b: CallRecord, c: CallRecord)
    requires IsCollation(collate)
    requires NotAfter(cfg, collate, a, b) && NotAfter(cfg, collate, b, c)
    ensures NotAfter(cfg, collate, a, c)
  {
    match cfg.field
    case Cost =>
    case Grade =>
    case _ =>
      var x, y, z := ValueOf(a, cfg.field).text, ValueOf(b, cfg.field).text, ValueOf(c, cfg.field).text;
      if cfg.direction == Desc {
        assert Sign(collate(x, y)) == -Sign(collate(y, x));
        assert Sign(collate(y, z)) == -Sign(collate(z, y));
        assert Sign(collate(x, z)) == -Sign(collate(z, x));
        assert collate(z, y) <= 0 && collate(y, x) <= 0;
      } else {
        assert collate(x, y) <= 0 && collate(y, z) <= 0;
      }
  }

  /* ---------------------------------------------------------- the sort */

  /** The sort callback as the "may come before" relation the sort follows. */
  function Order(cfg: SortConfig, collate: (string, string) -> int): (CallRecord, CallRecord) -> bool {
    (a: CallRecord, b: CallRecord) => NotAfter(cfg, collate, a, b)
  }

  /** `[...filteredCalls].sort(...)`. */
  function SortCalls(calls: seq<CallRecord>, cfg: SortConfig, collate: (string, string) -> int): (r: seq<CallRecord>)
    ensures multiset(r) == multiset(calls)
    ensures |r| == |calls|
  {
    Sort(Order(cfg, collate), calls)
  }

  /** A well-behaved collation makes the callback a total preorder. */
  lemma OrderIsTotalPreorder(cfg: SortConfig, collate: (string, string) -> int)
    requires IsCollation(collate)
    ensures IsTotalPreorder(Order(cfg, collate))
  {
    var le := Order(cfg, collate);
    forall a, b ensures le(a, b) || le(b, a) {
      CompareTotal(cfg, collate, a, b);
    }
    forall a, b, c | le(a, b) && le(b, c) ensures le(a, c) {
      CompareTransitive(cfg, collate, a, b, c);
    }
  }

  /** With a well-behaved collation the result is in order. */
  lemma SortCallsSorted(calls: seq<CallRecord>, cfg: SortConfig, collate: (string, string) -> int)
    requires IsCollation(collate)
    ensures var r := SortCalls(calls, cfg, collate);
            forall i, j :: 0 <= i < j < |r| ==> NotAfter(cfg, collate, r[i], r[j])
  {
    OrderIsTotalPreorder(cfg, collate);
    SortSorted(Order(cfg, collate), calls);
  }

  /** Ascending cost gives non-decreasing costs; descending non-increasing. */
  lemma SortByCost(calls: seq<CallRecord>, direction: Direction, collate: (string, string) -> int)
    requires IsCollation(collate)
    ensures var r := SortCalls(calls, SortConfig(Cost, direction), collate);
            forall i, j :: 0 <= i < j < |r| ==>
              if direction == Asc then r[i].cost <= r[j].cost else r[i].cost >= r[j].cost
  {
    var cfg := SortConfig(Cost, direction);
    SortCallsSorted(calls, cfg, collate);
    var r := SortCalls(calls, cfg, collate);
    forall i, j | 0 <= i < j < |r|
      ensures if direction == Asc then r[i].cost <= r[j].cost else r[i].cost >= r[j].cost
    {
      assert NotAfter(cfg, collate, r[i], r[j]);
    }
  }

  /** Ascending on a string field follows the collation; descending reverses it. */
  lemma SortByText(calls: seq<CallRecord>, cfg: SortConfig, collate: (string, string) -> int)
    requires IsCollation(collate)
    requires cfg.field != Cost && cfg.field != Grade
    ensures var r := SortCalls(calls, cfg, collate);
            forall i, j :: 0 <= i < j < |r| ==>
              var x, y := ValueOf(r[i], cfg.field).text, ValueOf(r[j], cfg.field).text;
              if cfg.direction == Asc then collate(x, y) <= 0 else collate(y, x) <= 0
  {
    SortCallsSorted(calls, cfg, collate);
    var r := SortCalls(calls, cfg, collate);
    forall i, j | 0 <= i < j < |r|
      ensures var x, y := ValueOf(r[i], cfg.field).text, ValueOf(r[j], cfg.field).text;
              if cfg.direction == Asc then collate(x, y) <= 0 else collate(y, x) <= 0
    {
      assert NotAfter(cfg, collate, r[i], r[j]);
      var x, y := ValueOf(r[i], cfg.field).text, ValueOf(r[j], cfg.field).text;
      assert Sign(collate(x, y)) == -Sign(collate(y, x));
    }
  }

  /** Sorting twice is sorting once. */
  lemma SortIdempotent(calls: seq<CallRecord>, cfg: SortConfig, collate: (string, string) -> int)
    requires IsCollation(collate)
    ensures SortCalls(SortCalls(calls, cfg, collate), cfg, collate) == SortCalls(calls, cfg, collate)
  {
    OrderIsTotalPreorder(cfg, collate);
    SortSorted(Order(cfg, collate), calls);
    SortKeepsSorted(Order(cfg, collate), SortCalls(calls, cfg, collate));
  }

  /**
   * Sorting on the grade, which is neither string nor number, compares every
   * pair as equal and so keeps the input order.
   */
  lemma SortByGradeKeepsOrder(calls: seq<CallRecord>, direction: Direction, collate: (string, string) -> int)
    ensures SortCalls(calls, SortConfig(Grade, direction), collate) == calls
  {
    SortKeepsSorted(Order(SortConfig(Grade, direction), collate), calls);
  }
}
