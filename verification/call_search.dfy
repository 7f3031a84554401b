/**
 * The search box of the call table: a call stays when the lower-cased
 * search term occurs in its lower-cased name, e-mail or summary, or in its
 * phone number as typed.
 */
module CallSearch {
  import opened JsString
  import opened CallRecords

  /** The filter callback for one call. */
  predicate Matches(call: CallRecord, term: string) {
    var needle := ToLower(term);
    || Includes(ToLower(call.customerName), needle)
    || Includes(ToLower(call.customerEmail), needle)
    || Includes(call.customerNumber, needle)
    || Includes(ToLower(call.summary), needle)
  }

  /** `a` is `b` with some elements left out, the rest in their order. */
  predicate IsSubsequence<T(==)>(a: seq<T>, b: seq<T>)
    decreases |b|
  {
    if |a| == 0 then true
    else if |b| == 0 then false
    else (a[0] == b[0] && IsSubsequence(a[1..], b[1..])) || IsSubsequence(a, b[1..])
  }

  /**
   * `initialCalls.filter(...)`: exactly the matching calls, each as often as
   * in the input, in input order.
   */
  function FilterCalls(calls: seq<CallRecord>, term: string): (r: seq<CallRecord>)
    ensures forall c :: multiset(r)[c] == if Matches(c, term) then multiset(calls)[c] else 0
    ensures IsSubsequence(r, calls)
    decreases |calls|
  {
    if |calls| == 0 then []
    else
      var rest := FilterCalls(calls[1..], term);
      assert calls == [calls[0]] + calls[1..];
      if Matches(calls[0], term) then [calls[0]] + rest else rest
  }

  /** A survivor of the filter is a call of the input that matches. */
  lemma FilterSound(calls: seq<CallRecord>, term: string, c: CallRecord)
    ensures c in FilterCalls(calls, term) <==> c in calls && Matches(c, term)
  {
    var r := FilterCalls(calls, term);
    assert c in r <==> multiset(r)[c] > 0;
    assert c in calls <==> multiset(calls)[c] > 0;
  }

  /**
   * A call matches exactly when the lower-cased term occurs at some index
   * of one of the searched fields.
   */
  lemma MatchesIff(call: CallRecord, term: string)
    ensures Matches(call, term) <==>
      var needle := ToLower(term);
      || (exists i :: OccursAt(ToLower(call.customerName), needle, i))
      || (exists i :: OccursAt(ToLower(call.customerEmail), needle, i))
      || (exists i :: OccursAt(call.customerNumber, needle, i))
      || (exists i :: OccursAt(ToLower(call.summary), needle, i))
  {
    var needle := ToLower(term);
    IncludesIff(ToLower(call.customerName), needle);
    IncludesIff(ToLower(call.customerEmail), needle);
    IncludesIff(call.customerNumber, needle);
    IncludesIff(ToLower(call.summary), needle);
  }

  /** An empty search box keeps every call, in order. */
  lemma {:induction false} EmptySearchKeepsAll(calls: seq<CallRecord>)
    ensures FilterCalls(calls, "") == calls
    decreases |calls|
  {
    if |calls| > 0 {
      IncludesEmpty(ToLower(calls[0].customerName));
      EmptySearchKeepsAll(calls[1..]);
    }
  }

  /** Searching again for the same term changes nothing. */
  lemma {:induction false} FilterIdempotent(calls: seq<CallRecord>, term: string)
    ensures FilterCalls(FilterCalls(calls, term), term) == FilterCalls(calls, term)
    decreases |calls|
  {
    if |calls| > 0 {
      FilterIdempotent(calls[1..], term);
      var rest := FilterCalls(calls[1..], term);
      if Matches(calls[0], term) {
        assert ([calls[0]] + rest)[1..] == rest;
      }
    }
  }
}
