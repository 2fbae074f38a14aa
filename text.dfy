/**
 * The Python `str` operations the code relies on: `split` and `rsplit` with a
 * `maxsplit`, `join`, ASCII case mapping, and decimal rendering and parsing of
 * integers.
 */
module Text {
  import opened Wrappers

  // ---------------------------------------------------------------------------
  // Searching

  /** Index of the first occurrence of `c` in `s`. */
  function IndexOf(s: string, c: char): (i: nat)
    requires c in s
    ensures i < |s| && s[i] == c && c !in s[..i]
  {
    if s[0] == c then 0 else 1 + IndexOf(s[1..], c)
  }

  /** Index of the last occurrence of `c` in `s`. */
  function LastIndexOf(s: string, c: char): (i: nat)
    requires c in s
    ensures i < |s| && s[i] == c && c !in s[i + 1..]
  {
    if s[|s| - 1] == c then |s| - 1
    else
      assert c in s[..|s| - 1] by { var k :| 0 <= k < |s| && s[k] == c; assert s[..|s| - 1][k] == c; }
      LastIndexOf(s[..|s| - 1], c)
  }

  /** Number of occurrences of `c` in `s`. */
  function Count(s: string, c: char): (n: nat)
    ensures n == 0 <==> c !in s
    ensures n <= |s|
  {
    if s == [] then 0 else (if s[0] == c then 1 else 0) + Count(s[1..], c)
  }

  lemma CountAppend(a: string, b: string, c: char)
    ensures Count(a + b, c) == Count(a, c) + Count(b, c)
  {
    if a == [] {
      assert a + b == b;
    } else {
      assert (a + b)[1..] == a[1..] + b;
      CountAppend(a[1..], b, c);
    }
  }

  lemma CountSplitAt(s: string, i: nat, c: char)
    requires i < |s| && s[i] == c
    ensures Count(s, c) == Count(s[..i], c) + 1 + Count(s[i + 1..], c)
  {
    assert s == s[..i] + ([s[i]] + s[i + 1..]);
    CountAppend(s[..i], [s[i]] + s[i + 1..], c);
    CountAppend([s[i]], s[i + 1..], c);
  }

  // ---------------------------------------------------------------------------
  // join, split, rsplit

  /** `sep.join(parts)` for a one-character separator. */
  function Join(parts: seq<string>, sep: char): string
  {
    if |parts| == 0 then ""
    else if |parts| == 1 then parts[0]
    else parts[0] + [sep] + Join(parts[1..], sep)
  }

  /** No part contains the separator. */
  predicate Free(parts: seq<string>, sep: char)
  {
    forall i :: 0 <= i < |parts| ==> sep !in parts[i]
  }

  lemma JoinAppend(parts: seq<string>, last: string, sep: char)
    requires |parts| >= 1
    ensures Join(parts + [last], sep) == Join(parts, sep) + [sep] + last
  {
    if |parts| == 1 {
      assert parts + [last] == [parts[0], last];
    } else {
      assert (parts + [last])[1..] == parts[1..] + [last];
      JoinAppend(parts[1..], last, sep);
    }
  }

  /** The step of a left-to-right split: the piece before the first separator, then the rest. */
  lemma ConsPiece(s: string, sep: char, i: nat, rest: seq<string>)
    requires i < |s| && s[i] == sep && sep !in s[..i]
    requires |rest| >= 1 && Join(rest, sep) == s[i + 1..]
    ensures Join([s[..i]] + rest, sep) == s
    ensures Count(s, sep) == Count(s[i + 1..], sep) + 1
    ensures forall k :: 1 <= k < |rest| + 1 ==> ([s[..i]] + rest)[k] == rest[k - 1]
  {
    CountSplitAt(s, i, sep);
    assert Count(s[..i], sep) == 0;
    assert ([s[..i]] + rest)[1..] == rest;
    assert s == s[..i] + [sep] + s[i + 1..];
  }

  /** The step of a right-to-left split: the rest, then the piece after the last separator. */
  lemma SnocPiece(s: string, sep: char, i: nat, front: seq<string>)
    requires i < |s| && s[i] == sep && sep !in s[i + 1..]
    requires |front| >= 1 && Join(front, sep) == s[..i]
    ensures Join(front + [s[i + 1..]], sep) == s
    ensures Count(s, sep) == Count(s[..i], sep) + 1
    ensures forall k :: 0 <= k < |front| ==> (front + [s[i + 1..]])[k] == front[k]
  {
    assert s[..i] + [sep] == s[..i + 1];
    assert s[..i + 1] + s[i + 1..] == s;
    CountSplitAt(s, i, sep);
    assert Count(s[i + 1..], sep) == 0;
    JoinAppend(front, s[i + 1..], sep);
  }

  /**
   * `s.split(sep)`: every piece between separators, the empty string included.
   * Joining the pieces gives `s` back, and no piece holds the separator.
   */
  function SplitAll(s: string, sep: char): (r: seq<string>)
    ensures |r| == Count(s, sep) + 1
    ensures Free(r, sep)
    ensures Join(r, sep) == s
  {
    if sep !in s then [s]
    else
      var i := IndexOf(s, sep);
      var rest := SplitAll(s[i + 1..], sep);
      ConsPiece(s, sep, i, rest);
      [s[..i]] + rest
  }

  /** Splitting the join of separator-free pieces gives the pieces back. */
  lemma {:induction false} SplitAllJoin(parts: seq<string>, sep: char)
    requires |parts| >= 1 && Free(parts, sep)
    ensures SplitAll(Join(parts, sep), sep) == parts
  {
    if |parts| > 1 {
      var s := Join(parts, sep);
      assert s == parts[0] + [sep] + Join(parts[1..], sep);
      assert sep !in parts[0];
      assert s[|parts[0]|] == sep;
      assert s[..|parts[0]|] == parts[0];
      var i := IndexOf(s, sep);
      assert i == |parts[0]|;
      assert s[i + 1..] == Join(parts[1..], sep);
      SplitAllJoin(parts[1..], sep);
    }
  }

  /**
   * `s.split(sep, n)`: at most `n` splits, made at the leftmost separators; the
   * last piece keeps every separator left over.
   */
  function SplitN(s: string, sep: char, n: nat): (r: seq<string>)
    ensures |r| == (if Count(s, sep) < n then Count(s, sep) else n) + 1
    ensures Join(r, sep) == s
    ensures forall i :: 0 <= i < |r| - 1 ==> sep !in r[i]
  {
    if n == 0 || sep !in s then [s]
    else
      var i := IndexOf(s, sep);
      var rest := SplitN(s[i + 1..], sep, n - 1);
      ConsPiece(s, sep, i, rest);
      [s[..i]] + rest
  }

  /**
   * `s.rsplit(sep, n)`: at most `n` splits, made at the rightmost separators;
   * the first piece keeps every separator left over.
   */
  function RSplitN(s: string, sep: char, n: nat): (r: seq<string>)
    ensures |r| == (if Count(s, sep) < n then Count(s, sep) else n) + 1
    ensures Join(r, sep) == s
    ensures forall i :: 0 < i < |r| ==> sep !in r[i]
  {
    if n == 0 || sep !in s then [s]
    else
      var i := LastIndexOf(s, sep);
      var front := RSplitN(s[..i], sep, n - 1);
      SnocPiece(s, sep, i, front);
      front + [s[i + 1..]]
  }

  /** Right-splitting `a + sep + b` when `b` holds at least `n` separators: every split falls in `b`. */
  lemma {:induction false} RSplitNAppendMany(a: string, b: string, sep: char, n: nat)
    requires n >= 1 && Count(b, sep) >= n
    ensures RSplitN(a + [sep] + b, sep, n) == [a + [sep] + RSplitN(b, sep, n)[0]] + RSplitN(b, sep, n)[1..]
  {
    var j := LastIndexOf(b, sep);
    var front, tail := b[..j], b[j + 1..];
    var x, y := RSplitN(a + [sep] + b, sep, n), RSplitN(b, sep, n);
    var f, r' := RSplitN(a + [sep] + front, sep, n - 1), RSplitN(front, sep, n - 1);
    assert x == f + [tail] by {
      RSplitNAppendStep(a, b, sep, n, j, front, tail);
    }
    assert y == r' + [tail] by {
      RSplitNStepAt(b, sep, n, j, front, tail);
    }
    assert f == [a + [sep] + r'[0]] + r'[1..] by {
      if n > 1 {
        CountSplitAt(b, j, sep);
        assert Count(tail, sep) == 0;
        RSplitNAppendMany(a, front, sep, n - 1);
      }
    }
    RejoinFirst(x, y, f, r', tail, a + [sep]);
  }

  /** The last separator of `a + sep + b` is the last one of `b`, when `b` has one. */
  lemma RSplitNAppendStep(a: string, b: string, sep: char, n: nat, j: nat, front: string, tail: string)
    requires n >= 1 && sep in b && j == LastIndexOf(b, sep)
    requires front == b[..j] && tail == b[j + 1..]
    ensures RSplitN(a + [sep] + b, sep, n) == RSplitN(a + [sep] + front, sep, n - 1) + [tail]
  {
    var s := a + [sep] + b;
    var i := |a| + 1 + j;
    assert i < |s| && s[i] == sep && sep !in s[i + 1..] && s[..i] == a + [sep] + front && s[i + 1..] == tail by {
      assert s[|a| + 1..] == b;
      assert s[i] == b[j] && s[i + 1..] == b[j + 1..];
    }
    RSplitNStepAt(s, sep, n, i, a + [sep] + front, tail);
  }

  /** One step of `rsplit`: the separator at `i`, the last one, splits off the last piece. */
  lemma RSplitNStepAt(s: string, sep: char, n: nat, i: nat, front: string, tail: string)
    requires n >= 1 && i < |s| && s[i] == sep && sep !in s[i + 1..]
    requires s[..i] == front && s[i + 1..] == tail
    ensures RSplitN(s, sep, n) == RSplitN(front, sep, n - 1) + [tail]
  {
    LastIndexOfUnique(s, sep, i);
  }

  /** Sequence bookkeeping for the step of `RSplitNAppendMany`. */
  lemma RejoinFirst(x: seq<string>, y: seq<string>, f: seq<string>, r: seq<string>, tail: string, p: string)
    requires |r| >= 1 && x == f + [tail] && y == r + [tail] && f == [p + r[0]] + r[1..]
    ensures x == [p + y[0]] + y[1..]
  {
    assert y[1..] == r[1..] + [tail];
  }

  /** Only the last occurrence has no occurrence after it. */
  lemma LastIndexOfUnique(s: string, c: char, k: nat)
    requires k < |s| && s[k] == c && c !in s[k + 1..]
    ensures LastIndexOf(s, c) == k
  {
  }

  // ---------------------------------------------------------------------------
  // ASCII case mapping (`str.lower`, `str.upper`, `str.capitalize`)

  function LowerChar(c: char): char
  {
    if 'A' <= c <= 'Z' then (c as int + 32) as char else c
  }

  function UpperChar(c: char): char
  {
    if 'a' <= c <= 'z' then (c as int - 32) as char else c
  }

  function Lower(s: string): (r: string)
    ensures |r| == |s|
    ensures forall i :: 0 <= i < |s| ==> r[i] == LowerChar(s[i])
  {
    seq(|s|, i requires 0 <= i < |s| => LowerChar(s[i]))
  }

  function Upper(s: string): (r: string)
    ensures |r| == |s|
    ensures forall i :: 0 <= i < |s| ==> r[i] == UpperChar(s[i])
  {
    seq(|s|, i requires 0 <= i < |s| => UpperChar(s[i]))
  }

  /** First character upper case, every other character lower case. */
  function Capitalize(s: string): (r: string)
    ensures |r| == |s|
    ensures s != [] ==> r[0] == UpperChar(s[0]) && r[1..] == Lower(s[1..])
  {
    if s == [] then [] else [UpperChar(s[0])] + Lower(s[1..])
  }

  // ---------------------------------------------------------------------------
  // Decimal digits

  predicate IsDigit(c: char) { '0' <= c <= '9' }

  predicate AllDigits(s: string) { forall i :: 0 <= i < |s| ==> IsDigit(s[i]) }

  /** The number the digit string `s` denotes (0 for the empty string). */
  function DigitsValue(s: string): nat
    requires AllDigits(s)
  {
    if s == [] then 0 else 10 * DigitsValue(s[..|s| - 1]) + (s[|s| - 1] as int - '0' as int)
  }

  function Pow10(k: nat): (r: nat)
    ensures r >= 1
  {
    if k == 0 then 1 else 10 * Pow10(k - 1)
  }

  /** `str(n)` for a natural number: its decimal digits, no leading zero. */
  function NatToString(n: nat): (s: string)
    ensures |s| >= 1 && AllDigits(s)
    ensures DigitsValue(s) == n
    ensures |s| > 1 ==> s[0] != '0'
    ensures n < 10 <==> |s| == 1
    ensures n < 100 <==> |s| <= 2
  {
    var d := ['0' + (n % 10) as char];
    if n < 10 then d
    else
      var front := NatToString(n / 10);
      var s := front + d;
      assert s[..|s| - 1] == front;
      s
  }

  /** `n` rendered with at least two digits, as `%02d` does. */
  function Pad2(n: nat): (s: string)
    ensures |s| >= 2 && AllDigits(s) && DigitsValue(s) == n
    ensures n < 100 <==> |s| == 2
    ensures |s| > 2 ==> s[0] != '0'
  {
    var t := NatToString(n);
    if |t| >= 2 then t
    else
      var s := "0" + t;
      assert s[..|s| - 1] == "0";
      s
  }

  /**
   * `int(s)` restricted to an optional sign followed by ASCII digits; anything
   * else is a `ValueError`, here `None`.
   */
  function ParseInt(s: string): (r: Option<int>)
    ensures r.Some? <==> (
      (|s| >= 1 && AllDigits(s)) ||
      (|s| >= 2 && (s[0] == '-' || s[0] == '+') && AllDigits(s[1..])))
  {
    if |s| >= 1 && AllDigits(s) then Some(DigitsValue(s))
    else if |s| >= 2 && s[0] == '-' && AllDigits(s[1..]) then Some(0 - DigitsValue(s[1..]) as int)
    else if |s| >= 2 && s[0] == '+' && AllDigits(s[1..]) then Some(DigitsValue(s[1..]))
    else None
  }

  /** `int(str(n)) == n`. */
  lemma ParseIntOfNatToString(n: nat)
    ensures ParseInt(NatToString(n)) == Some(n)
  {
  }
}
