/** `Array.prototype.slice`, with its treatment of negative and overlong indices. */
module JsArray {

  /**
   * How `slice` resolves an index against a length: a negative index counts
   * back from the end, and the result is clamped into `[0, len]`.
   */
  function ResolveIndex(i: int, len: nat): (r: nat)
    ensures r <= len
    ensures 0 <= i <= len ==> r == i
    ensures i > len ==> r == len
    ensures i < 0 && 0 <= len + i ==> r == len + i
    ensures len + i < 0 ==> r == 0
  {
    if i < 0 then (if len + i < 0 then 0 else len + i)
    else if i < len then i
    else len
  }

  /**
   * Resolving never stretches a distance: `r(j) - r(i) <= j - i` for
   * `i <= j` (it may shrink it below zero when only `i` is negative).
   */
  lemma ResolveIndexShrinks(i: int, j: int, len: nat)
    requires i <= j
    ensures ResolveIndex(j, len) - ResolveIndex(i, len) <= j - i
  {
  }

  /** `s.slice(start, end)`: an infix of `s`, never longer than `end - start` when `start <= end`. */
  function Slice<T>(s: seq<T>, start: int, end: int): (r: seq<T>)
    ensures ResolveIndex(start, |s|) + |r| <= |s|
    ensures start <= end ==> |r| <= end - start
    ensures r == s[ResolveIndex(start, |s|)..ResolveIndex(start, |s|) + |r|]
    ensures |r| == if ResolveIndex(start, |s|) < ResolveIndex(end, |s|)
                   then ResolveIndex(end, |s|) - ResolveIndex(start, |s|) else 0
  {
    var a := ResolveIndex(start, |s|);
    var b := ResolveIndex(end, |s|);
    assert start <= end ==> b - a <= end - start by {
      if start <= end { ResolveIndexShrinks(start, end, |s|); }
    }
    if a < b then s[a..b] else []
  }

  /** Two adjacent slices laid end to end are the slice that spans both. */
  lemma SliceAdjacent<T>(s: seq<T>, a: int, b: int, c: int)
    requires 0 <= a <= b <= c
    ensures Slice(s, a, b) + Slice(s, b, c) == Slice(s, a, c)
  {
    var ra, rb, rc := ResolveIndex(a, |s|), ResolveIndex(b, |s|), ResolveIndex(c, |s|);
    assert ra <= rb <= rc;
    assert s[ra..rb] + s[rb..rc] == s[ra..rc];
  }

  /** `xs.flatMap(f)`: the pieces `f` makes of each element, concatenated in order. */
  function FlatMap<A, B>(xs: seq<A>, f: A -> seq<B>): seq<B>
    decreases |xs|
  {
    if |xs| == 0 then [] else f(xs[0]) + FlatMap(xs[1..], f)
  }

  lemma {:induction false} FlatMapAppend<A, B>(xs: seq<A>, ys: seq<A>, f: A -> seq<B>)
    ensures FlatMap(xs + ys, f) == FlatMap(xs, f) + FlatMap(ys, f)
    decreases |xs|
  {
    if |xs| == 0 {
      assert xs + ys == ys;
    } else {
      assert (xs + ys)[1..] == xs[1..] + ys;
      FlatMapAppend(xs[1..], ys, f);
    }
  }

  lemma FlatMapSingle<A, B>(x: A, f: A -> seq<B>)
    ensures FlatMap([x], f) == f(x)
  {
    assert f(x) + [] == f(x);
  }
}
