/**
 * The JavaScript string primitives the call-history view relies on:
 * `trim`, `split`/`join` on a one-character separator, `startsWith`,
 * `includes` and `toLowerCase`.  Strings are sequences of Unicode scalar
 * values.
 */
module JsString {

  /* ------------------------------------------------------------------ trim */

  /**
   * The characters `String.prototype.trim` removes: the ECMAScript
   * WhiteSpace set (tab, vertical tab, form feed, space, no-break space,
   * zero-width no-break space and the Zs category) and the LineTerminator
   * set (line feed, carriage return, line and paragraph separators).
   */
  predicate IsTrimmable(c: char) {
    || c == '\t' || c == '\n' || c == '\U{000B}' || c == '\U{000C}' || c == '\r'
    || c == ' ' || c == '\U{00A0}' || c == '\U{1680}'
    || ('\U{2000}' <= c <= '\U{200A}')
    || c == '\U{2028}' || c == '\U{2029}' || c == '\U{202F}' || c == '\U{205F}'
    || c == '\U{3000}' || c == '\U{FEFF}'
  }

  predicate AllTrimmable(s: string) {
    forall i :: 0 <= i < |s| ==> IsTrimmable(s[i])
  }

  /** A string that neither starts nor ends with a trimmable character. */
  predicate IsTrimmed(s: string) {
    s == [] || (!IsTrimmable(s[0]) && !IsTrimmable(s[|s| - 1]))
  }

  /** Drops the trimmable characters at the front. */
  function TrimStart(s: string): (r: string)
    ensures |r| <= |s| && r == s[|s| - |r|..]
    ensures r == [] || !IsTrimmable(r[0])
  {
    if |s| > 0 && IsTrimmable(s[0]) then TrimStart(s[1..]) else s
  }

  /** Drops the trimmable characters at the back. */
  function TrimEnd(s: string): (r: string)
    ensures |r| <= |s| && r == s[..|r|]
    ensures r == [] || !IsTrimmable(r[|r| - 1])
  {
    if |s| > 0 && IsTrimmable(s[|s| - 1]) then TrimEnd(s[..|s| - 1]) else s
  }

  /** What `TrimStart` drops is padding. */
  lemma {:induction false} TrimStartDropsPadding(s: string)
    ensures AllTrimmable(s[..|s| - |TrimStart(s)|])
    decreases |s|
  {
    if |s| > 0 && IsTrimmable(s[0]) {
      TrimStartDropsPadding(s[1..]);
      var k := |s| - |TrimStart(s)|;
      assert s[..k] == [s[0]] + s[1..][..k - 1];
    }
  }

  /** What `TrimEnd` drops is padding. */
  lemma {:induction false} TrimEndDropsPadding(s: string)
    ensures AllTrimmable(s[|TrimEnd(s)|..])
    decreases |s|
  {
    if |s| > 0 && IsTrimmable(s[|s| - 1]) {
      var r := TrimEnd(s[..|s| - 1]);
      TrimEndDropsPadding(s[..|s| - 1]);
      assert s[|r|..] == s[..|s| - 1][|r|..] + [s[|s| - 1]];
    }
  }

  /** `s.trim()`: the longest infix of `s` without trimmable ends. */
  function Trim(s: string): (r: string)
    ensures IsTrimmed(r)
    ensures |r| <= |s|
  {
    TrimEnd(TrimStart(s))
  }

  /** `trim` only removes padding: the result is an infix of its input. */
  lemma TrimInfix(s: string) returns (i: nat)
    ensures i + |Trim(s)| <= |s|
    ensures s[i..i + |Trim(s)|] == Trim(s)
    ensures AllTrimmable(s[..i]) && AllTrimmable(s[i + |Trim(s)|..])
  {
    var a := TrimStart(s);
    var r := TrimEnd(a);
    TrimStartDropsPadding(s);
    TrimEndDropsPadding(a);
    i := |s| - |a|;
    assert s[i..][..|r|] == s[i..i + |r|];
    assert s[i + |r|..] == a[|r|..];
  }

  lemma {:induction false} TrimStartOf(a: string, t: string)
    requires AllTrimmable(a)
    requires t == [] || !IsTrimmable(t[0])
    ensures TrimStart(a + t) == t
    decreases |a|
  {
    if a == [] {
      assert a + t == t;
    } else {
      assert (a + t)[1..] == a[1..] + t;
      TrimStartOf(a[1..], t);
    }
  }

  lemma {:induction false} TrimEndOf(t: string, b: string)
    requires AllTrimmable(b)
    requires t == [] || !IsTrimmable(t[|t| - 1])
    ensures TrimEnd(t + b) == t
    decreases |b|
  {
    if b == [] {
      assert t + b == t;
    } else {
      assert (t + b)[..|t + b| - 1] == t + b[..|b| - 1];
      TrimEndOf(t, b[..|b| - 1]);
    }
  }

  /**
   * `trim` is determined by its characterisation: whatever trimmable
   * padding surrounds a trimmed core, the core is what comes back.
   */
  lemma TrimUnique(a: string, core: string, b: string)
    requires AllTrimmable(a) && AllTrimmable(b) && IsTrimmed(core)
    ensures Trim(a + core + b) == core
  {
    if core == [] {
      assert a + core + b == a + b;
      assert AllTrimmable(a + b);
      TrimStartOf(a + b, []);
      assert a + b + [] == a + b;
    } else {
      assert a + core + b == a + (core + b);
      TrimStartOf(a, core + b);
      TrimEndOf(core, b);
    }
  }

  /** Trimming twice is trimming once. */
  lemma TrimIdempotent(s: string)
    ensures Trim(Trim(s)) == Trim(s)
  {
    var t := Trim(s);
    assert [] + t + [] == t;
    TrimUnique([], t, []);
  }

  /** A line is blank after trimming exactly when it is all padding. */
  lemma TrimEmptyIff(s: string)
    ensures Trim(s) == [] <==> AllTrimmable(s)
  {
    if AllTrimmable(s) {
      assert s + [] + [] == s;
      TrimUnique(s, [], []);
    }
    if Trim(s) == [] {
      var i := TrimInfix(s);
      assert s == s[..i] + s[i..];
      AllTrimmableConcat(s[..i], s[i..]);
    }
  }

  lemma AllTrimmableConcat(a: string, b: string)
    requires AllTrimmable(a) && AllTrimmable(b)
    ensures AllTrimmable(a + b)
  {
    forall i | 0 <= i < |a + b| ensures IsTrimmable((a + b)[i]) {
      if i < |a| {
        assert (a + b)[i] == a[i];
      } else {
        assert (a + b)[i] == b[i - |a|];
      }
    }
  }

  /* ------------------------------------------------------------ prefixes */

  /** `s.startsWith(p)`. */
  predicate StartsWith(s: string, p: string) {
    |p| <= |s| && s[..|p|] == p
  }

  /* ------------------------------------------------------- split and join */

  /** `parts.join(sep)`. */
  function Join(parts: seq<string>, sep: char): string
    decreases |parts|
  {
    if |parts| == 0 then ""
    else if |parts| == 1 then parts[0]
    else parts[0] + [sep] + Join(parts[1..], sep)
  }

  /** `s.split(sep)`: never empty, and no piece holds the separator. */
  function Split(s: string, sep: char): (r: seq<string>)
    ensures |r| >= 1
    ensures forall i :: 0 <= i < |r| ==> sep !in r[i]
    decreases |s|
  {
    if |s| == 0 then [""]
    else
      var rest := Split(s[1..], sep);
      assert s == [s[0]] + s[1..];
      if s[0] == sep then [""] + rest
      else [[s[0]] + rest[0]] + rest[1..]
  }

  /** There is one piece more than there are separators. */
  lemma {:induction false} SplitCount(s: string, sep: char)
    ensures |Split(s, sep)| - 1 == multiset(s)[sep]
    decreases |s|
  {
    if |s| > 0 {
      SplitCount(s[1..], sep);
      assert s == [s[0]] + s[1..];
      assert multiset(s) == multiset{s[0]} + multiset(s[1..]);
    }
  }

  lemma JoinCons(p: string, parts: seq<string>, sep: char)
    requires |parts| >= 1
    ensures Join([p] + parts, sep) == p + [sep] + Join(parts, sep)
  {
    assert ([p] + parts)[1..] == parts;
  }

  lemma JoinExtendFirst(c: char, parts: seq<string>, sep: char)
    requires |parts| >= 1
    ensures Join([[c] + parts[0]] + parts[1..], sep) == [c] + Join(parts, sep)
  {
    if |parts| > 1 {
      JoinCons([c] + parts[0], parts[1..], sep);
      JoinCons(parts[0], parts[1..], sep);
      assert [parts[0]] + parts[1..] == parts;
    }
  }

  /** Joining the pieces of a split gives the string back. */
  lemma {:induction false} JoinOfSplit(s: string, sep: char)
    ensures Join(Split(s, sep), sep) == s
    decreases |s|
  {
    if |s| > 0 {
      var rest := Split(s[1..], sep);
      assert Join(rest, sep) == s[1..] by {
        JoinOfSplit(s[1..], sep);
      }
      assert Join(Split(s, sep), sep) == [s[0]] + s[1..] by {
        if s[0] == sep {
          assert Split(s, sep) == [""] + rest;
          JoinCons("", rest, sep);
        } else {
          assert Split(s, sep) == [[s[0]] + rest[0]] + rest[1..];
          JoinExtendFirst(s[0], rest, sep);
        }
      }
      assert s == [s[0]] + s[1..];
    }
  }

  /** Splitting a join of separator-free pieces gives the pieces back. */
  lemma {:induction false} SplitOfJoin(parts: seq<string>, sep: char)
    requires |parts| >= 1
    requires forall i :: 0 <= i < |parts| ==> sep !in parts[i]
    ensures Split(Join(parts, sep), sep) == parts
    decreases |parts|
  {
    if |parts| == 1 {
      SplitWithoutSeparator(parts[0], sep);
    } else {
      SplitOfJoin(parts[1..], sep);
      SplitWithoutSeparator(parts[0], sep);
      SplitAround(parts[0], Join(parts[1..], sep), sep);
      assert [parts[0]] + parts[1..] == parts;
    }
  }

  /** A string without the separator splits into itself. */
  lemma {:induction false} SplitWithoutSeparator(s: string, sep: char)
    requires sep !in s
    ensures Split(s, sep) == [s]
    decreases |s|
  {
    if |s| > 0 {
      assert sep !in s[1..] by {
        forall i | 0 <= i < |s[1..]| ensures s[1..][i] != sep {
          assert s[1..][i] == s[i + 1];
        }
      }
      SplitWithoutSeparator(s[1..], sep);
      assert s == [s[0]] + s[1..];
    }
  }

  /** One separator between `x` and `y` splits into the pieces of each. */
  lemma {:induction false} SplitAround(x: string, y: string, sep: char)
    ensures Split(x + [sep] + y, sep) == Split(x, sep) + Split(y, sep)
    decreases |x|
  {
    var s := x + [sep] + y;
    if |x| == 0 {
      assert s[1..] == y;
    } else {
      assert s[1..] == x[1..] + [sep] + y;
      var head, rest, tail := Split(x[1..], sep), Split(s[1..], sep), Split(y, sep);
      assert rest == head + tail by {
        SplitAround(x[1..], y, sep);
      }
      if x[0] == sep {
        assert Split(x, sep) == [""] + head;
        assert Split(s, sep) == [""] + rest;
        assert [""] + (head + tail) == [""] + head + tail;
      } else {
        assert Split(x, sep) == [[x[0]] + head[0]] + head[1..];
        assert Split(s, sep) == [[x[0]] + rest[0]] + rest[1..];
        assert rest[0] == head[0] && rest[1..] == head[1..] + tail;
        assert [[x[0]] + head[0]] + (head[1..] + tail) == [[x[0]] + head[0]] + head[1..] + tail;
      }
    }
  }

  /** A piece between two separators stays one piece of the split. */
  lemma SplitPieceBetween(a: string, w: string, b: string, sep: char)
    requires sep !in w
    ensures Split(a + [sep] + w + [sep] + b, sep) == Split(a, sep) + [w] + Split(b, sep)
  {
    var tail := w + [sep] + b;
    assert a + [sep] + w + [sep] + b == a + [sep] + tail;
    assert Split(tail, sep) == [w] + Split(b, sep) by {
      SplitPieceFirst(w, b, sep);
    }
    SplitPrepend(a, tail, [w] + Split(b, sep), sep);
    assert Split(a, sep) + ([w] + Split(b, sep)) == Split(a, sep) + [w] + Split(b, sep);
  }

  lemma SplitPieceFirst(w: string, b: string, sep: char)
    requires sep !in w
    ensures Split(w + [sep] + b, sep) == [w] + Split(b, sep)
  {
    SplitAround(w, b, sep);
    SplitWithoutSeparator(w, sep);
  }

  lemma SplitPrepend(a: string, tail: string, pieces: seq<string>, sep: char)
    requires Split(tail, sep) == pieces
    ensures Split(a + [sep] + tail, sep) == Split(a, sep) + pieces
  {
    SplitAround(a, tail, sep);
  }

  /** The first `k` pieces joined are a prefix of all pieces joined. */
  lemma {:induction false} JoinPrefix(parts: seq<string>, k: nat, sep: char)
    requires k <= |parts|
    ensures StartsWith(Join(parts, sep), Join(parts[..k], sep))
    decreases |parts|
  {
    if k == 0 {
    } else if |parts| == 1 {
      assert parts[..k] == parts;
    } else if k == 1 {
      JoinCons(parts[0], parts[1..], sep);
      assert [parts[0]] + parts[1..] == parts;
    } else {
      JoinPrefix(parts[1..], k - 1, sep);
      JoinCons(parts[0], parts[1..], sep);
      assert [parts[0]] + parts[1..] == parts;
      JoinCons(parts[0], parts[1..][..k - 1], sep);
      assert [parts[0]] + parts[1..][..k - 1] == parts[..k];
    }
  }

  /* ------------------------------------------------------------ includes */

  /** `sub` sits in `s` starting at index `i`. */
  predicate OccursAt(s: string, sub: string, i: int) {
    0 <= i && i + |sub| <= |s| && s[i..i + |sub|] == sub
  }

  /** `s.includes(sub)`, searching left to right. */
  predicate Includes(s: string, sub: string)
    decreases |s|
  {
    StartsWith(s, sub) || (|s| > 0 && Includes(s[1..], sub))
  }

  /** `includes` holds exactly when the needle occurs at some index. */
  lemma {:induction false} IncludesIff(s: string, sub: string)
    ensures Includes(s, sub) <==> exists i :: OccursAt(s, sub, i)
    decreases |s|
  {
    if StartsWith(s, sub) {
      assert OccursAt(s, sub, 0);
    } else if |s| == 0 {
    } else {
      assert !OccursAt(s, sub, 0) by {
        if |sub| <= |s| {
          assert s[0..|sub|] == s[..|sub|];
        }
      }
      IncludesIff(s[1..], sub);
      if exists i :: OccursAt(s[1..], sub, i) {
        var i :| OccursAt(s[1..], sub, i);
        assert s[1..][i..i + |sub|] == s[i + 1..i + 1 + |sub|];
        assert OccursAt(s, sub, i + 1);
      }
      if exists i :: OccursAt(s, sub, i) {
        var i :| OccursAt(s, sub, i);
        assert s[1..][i - 1..i - 1 + |sub|] == s[i..i + |sub|];
        assert OccursAt(s[1..], sub, i - 1);
      }
    }
  }

  /** Every string includes the empty string. */
  lemma IncludesEmpty(s: string)
    ensures Includes(s, "")
  {
  }

  /* --------------------------------------------------------- toLowerCase */

  predicate IsUpper(c: char) {
    'A' <= c <= 'Z'
  }

  /** Lower-case mapping of one character (ASCII letters only). */
  function LowerChar(c: char): (r: char)
    ensures !IsUpper(r)
    ensures IsUpper(c) ==> r as int == c as int + 32
    ensures !IsUpper(c) ==> r == c
  {
    if IsUpper(c) then (c as int + 32) as char else c
  }

  /** `s.toLowerCase()`, for ASCII letters. */
  function ToLower(s: string): (r: string)
    ensures |r| == |s|
    ensures forall i :: 0 <= i < |r| ==> !IsUpper(r[i])
    ensures forall i :: 0 <= i < |s| && !IsUpper(s[i]) ==> r[i] == s[i]
    ensures forall i :: 0 <= i < |s| && IsUpper(s[i]) ==> r[i] as int == s[i] as int + 32
    ensures forall i :: 0 <= i < |s| ==> r[i] == LowerChar(s[i])
  {
    seq(|s|, i requires 0 <= i < |s| => LowerChar(s[i]))
  }

  /** Lower-casing twice is lower-casing once. */
  lemma ToLowerIdempotent(s: string)
    ensures ToLower(ToLower(s)) == ToLower(s)
  {
  }

  /** A string is its own lower case exactly when it has no upper-case letter. */
  lemma ToLowerFixedIff(s: string)
    ensures ToLower(s) == s <==> forall i :: 0 <= i < |s| ==> !IsUpper(s[i])
  {
    if ToLower(s) == s {
      forall i | 0 <= i < |s| ensures !IsUpper(s[i]) {
        assert s[i] == ToLower(s)[i];
      }
    }
  }
}
