/**
 * The handful of Python `str`/`bytes` operations the HTTP client relies on,
 * written over Dafny sequences: `isspace`/`strip`, `lower`, `find`, `split`,
 * `join`, `isdigit`, `int(...)`, `str(int)` and the whitespace `split()`.
 * The searching and splitting functions are generic, so the same definition
 * serves `str` (sequences of `char`) and `bytes` (sequences of bytes).
 */
module PyStr {
  import opened Wrappers

  // ---------------------------------------------------------------------
  // Whitespace and stripping

  /** Python's `str.isspace` on one character (Unicode whitespace). */
  predicate IsSpace(c: char) {
    c == ' ' || ('\t' <= c <= '\r') || ('\U{1c}' <= c <= '\U{1f}')
    || c == '\U{85}' || c == '\U{a0}' || c == '\U{1680}'
    || ('\U{2000}' <= c <= '\U{200a}') || c == '\U{2028}' || c == '\U{2029}'
    || c == '\U{202f}' || c == '\U{205f}' || c == '\U{3000}'
  }

  /** `str.lstrip()`: drops the leading whitespace. */
  function LStrip(s: string): (r: string)
    ensures |r| <= |s| && r == s[|s| - |r|..]
    ensures r == [] || !IsSpace(r[0])
    ensures forall i :: 0 <= i < |s| - |r| ==> IsSpace(s[i])
  {
    if |s| > 0 && IsSpace(s[0]) then LStrip(s[1..]) else s
  }

  /** `str.rstrip()`: drops the trailing whitespace. */
  function RStrip(s: string): (r: string)
    ensures |r| <= |s| && r == s[..|r|]
    ensures r == [] || !IsSpace(r[|r| - 1])
    ensures forall i :: |r| <= i < |s| ==> IsSpace(s[i])
  {
    if |s| > 0 && IsSpace(s[|s| - 1]) then RStrip(s[..|s| - 1]) else s
  }

  /** `str.strip()`. */
  function Strip(s: string): (r: string)
    ensures |r| <= |s|
    ensures r == [] || (!IsSpace(r[0]) && !IsSpace(r[|r| - 1]))
  {
    var l := LStrip(s);
    var r := RStrip(l);
    assert r != [] ==> r[0] == l[0];
    r
  }

  /** A string that `strip()` leaves alone. */
  predicate Trimmed(s: string) {
    s == [] || (!IsSpace(s[0]) && !IsSpace(s[|s| - 1]))
  }

  lemma StripResult(s: string)
    ensures Trimmed(Strip(s))
    ensures Trimmed(s) ==> Strip(s) == s
    ensures |Strip(s)| <= |s|
  {
    var l := LStrip(s);
    var r := RStrip(l);
    if r != [] {
      assert r[0] == l[0];
    }
  }

  /** Whitespace in front of a string does not survive `strip()`. */
  lemma StripSkipsLeadingSpace(c: char, s: string)
    requires IsSpace(c)
    ensures Strip([c] + s) == Strip(s)
  {
    assert ([c] + s)[1..] == s;
  }

  /** A character that `strip()` keeps occurs in the original string. */
  lemma StripKeeps(s: string, x: char)
    ensures x in Strip(s) ==> x in s
  {
    var l := LStrip(s);
    var r := RStrip(l);
    if x in r {
      InPrefix(r, l, x);
      InSuffix(l, s, x);
    }
  }

  lemma InPrefix<T>(a: seq<T>, s: seq<T>, x: T)
    requires |a| <= |s| && a == s[..|a|] && x in a
    ensures x in s
  {
    var k := IndexOf(a, x);
    assert s[k] == a[k];
  }

  lemma InSuffix<T>(a: seq<T>, s: seq<T>, x: T)
    requires |a| <= |s| && a == s[|s| - |a|..] && x in a
    ensures x in s
  {
    var k := IndexOf(a, x);
    assert s[|s| - |a| + k] == a[k];
  }

  /** No whitespace anywhere in `s`. */
  predicate NoSpace(s: string) {
    forall c :: c in s ==> !IsSpace(c)
  }

  lemma NoSpaceAppend(a: string, b: string)
    requires NoSpace(a) && NoSpace(b)
    ensures NoSpace(a + b)
  {
  }

  /** `strip()` leaves a string without whitespace unchanged. */
  lemma StripNoSpace(s: string)
    requires NoSpace(s)
    ensures Strip(s) == s
  {
    NoSpaceTrimmed(s);
    StripResult(s);
  }

  lemma NoSpaceTrimmed(s: string)
    requires NoSpace(s)
    ensures Trimmed(s)
  {
    if s != [] {
      assert s[0] in s && s[|s| - 1] in s;
    }
  }

  // ---------------------------------------------------------------------
  // Case

  /** `lower()` on one character, for the ASCII letters. */
  function LowerChar(c: char): (r: char)
    ensures 'A' <= c <= 'Z' ==> r as int == c as int + 32
    ensures !('A' <= c <= 'Z') ==> r == c
  {
    if 'A' <= c <= 'Z' then (c as int + 32) as char else c
  }

  /** `str.lower()` (ASCII letters only). */
  function Lower(s: string): (r: string)
    ensures |r| == |s|
    ensures forall i :: 0 <= i < |s| ==> r[i] == LowerChar(s[i])
  {
    if s == [] then [] else [LowerChar(s[0])] + Lower(s[1..])
  }

  /** A text without upper-case letters is its own lower-case form. */
  lemma LowerUnchanged(s: string)
    requires forall i :: 0 <= i < |s| ==> !('A' <= s[i] <= 'Z')
    ensures Lower(s) == s
  {
  }

  // ---------------------------------------------------------------------
  // Searching

  /** `find` of one element: the first index of `x`, or -1 when absent. */
  function IndexOf<T(==)>(s: seq<T>, x: T): (r: int)
    ensures -1 <= r < |s|
    ensures r < 0 <==> x !in s
    ensures 0 <= r ==> s[r] == x && x !in s[..r]
  {
    if |s| == 0 then -1
    else if s[0] == x then 0
    else
      var k := IndexOf(s[1..], x);
      if k < 0 then -1
      else
        assert s[..k + 1] == [s[0]] + s[1..][..k];
        k + 1
  }

  /** The two conditions of `IndexOf`'s contract determine its result. */
  lemma IndexOfIs<T>(s: seq<T>, x: T, r: int)
    requires (r == -1 && x !in s) || (0 <= r < |s| && s[r] == x && x !in s[..r])
    ensures IndexOf(s, x) == r
  {
  }

  /** An element absent from `a` is found in `a + b` where it is found in `b`,
      shifted by `|a|`. */
  lemma IndexOfAfter<T>(a: seq<T>, b: seq<T>, x: T)
    requires x !in a
    ensures IndexOf(a + b, x) == if x in b then |a| + IndexOf(b, x) else -1
  {
    if x in b {
      var k := IndexOf(b, x);
      assert (a + b)[..|a| + k] == a + b[..k];
      IndexOfIs(a + b, x, |a| + k);
    }
  }

  /** `a` ends `b`. */
  predicate IsSuffix<T(==)>(a: seq<T>, b: seq<T>) {
    |a| <= |b| && a == b[|b| - |a|..]
  }

  /** `p` occurs in `s` starting at index `i`. */
  predicate OccursAt<T(==)>(s: seq<T>, p: seq<T>, i: int) {
    0 <= i && i + |p| <= |s| && s[i..i + |p|] == p
  }

  /** The first index at or after `i` where `p` starts in `s`, or -1. */
  function FindFrom<T(==)>(s: seq<T>, p: seq<T>, i: nat): (r: int)
    ensures r == -1 || (i <= r && OccursAt(s, p, r))
    ensures forall j :: i <= j && (r < 0 || j < r) ==> !OccursAt(s, p, j)
    decreases |s| - i
  {
    if i + |p| > |s| then -1
    else if s[i..i + |p|] == p then i
    else FindFrom(s, p, i + 1)
  }

  /** A sequence is what comes before index `i`, the element there, and
      what comes after. */
  lemma AroundAt<T>(s: seq<T>, i: int, before: seq<T>, after: seq<T>)
    requires 0 <= i < |s| && before == s[..i] && after == s[i + 1..]
    ensures s == before + [s[i]] + after
  {
  }

  /** The two sides of one element. */
  lemma Around<T>(a: seq<T>, x: T, b: seq<T>, s: seq<T>)
    requires s == a + ([x] + b)
    ensures s[..|a|] == a && s[|a|] == x && s[|a| + 1..] == b
  {
  }

  /** The two ends of a sequence made of three pieces. */
  lemma Ends<T>(a: seq<T>, b: seq<T>, c: seq<T>, s: seq<T>)
    requires s == a + (b + c)
    ensures s[..|a|] == a && s[|a| + |b|..] == c
  {
  }

  /** `find` of a subsequence: the first index where `p` starts in `s`, or -1. */
  function Find<T(==)>(s: seq<T>, p: seq<T>): (r: int)
    ensures r == -1 || OccursAt(s, p, r)
    ensures forall j :: 0 <= j && (r < 0 || j < r) ==> !OccursAt(s, p, j)
  {
    FindFrom(s, p, 0)
  }

  /** Python's `p in s` for a subsequence. */
  predicate Contains<T(==)>(s: seq<T>, p: seq<T>) {
    Find(s, p) >= 0
  }

  /** The two conditions of `Find`'s contract determine its result. */
  lemma FindIs<T>(s: seq<T>, p: seq<T>, r: int)
    requires r == -1 || OccursAt(s, p, r)
    requires forall j :: 0 <= j && (r < 0 || j < r) ==> !OccursAt(s, p, j)
    ensures Find(s, p) == r
  {
  }

  /** When no occurrence of `p` starts inside `a`, `p` is found in `a + b`
      exactly where it is found in `b`, shifted by `|a|`. */
  lemma FindShift<T>(a: seq<T>, b: seq<T>, p: seq<T>)
    requires forall j :: 0 <= j < |a| ==> !OccursAt(a + b, p, j)
    ensures Find(a + b, p) == if Find(b, p) < 0 then -1 else |a| + Find(b, p)
  {
    var s := a + b;
    forall j | 0 <= j ensures OccursAt(s, p, |a| + j) == OccursAt(b, p, j) {
      if |a| + j + |p| <= |s| {
        assert s[|a| + j..|a| + j + |p|] == b[j..j + |p|];
      }
    }
    var k := Find(b, p);
    if k < 0 {
      forall j | 0 <= j ensures !OccursAt(s, p, j) {
        if j >= |a| {
          assert OccursAt(s, p, |a| + (j - |a|)) == OccursAt(b, p, j - |a|);
        }
      }
      FindIs(s, p, -1);
    } else {
      forall j | 0 <= j < |a| + k ensures !OccursAt(s, p, j) {
        if j >= |a| {
          assert OccursAt(s, p, |a| + (j - |a|)) == OccursAt(b, p, j - |a|);
        }
      }
      FindIs(s, p, |a| + k);
    }
  }

  /** A subsequence whose first element does not occur in `a` is found in `a + b`
      exactly where it is found in `b`, shifted by `|a|`. */
  lemma FindAfter<T>(a: seq<T>, b: seq<T>, p: seq<T>)
    requires |p| > 0 && p[0] !in a
    ensures Find(a + b, p) == if Find(b, p) < 0 then -1 else |a| + Find(b, p)
  {
    forall j | 0 <= j < |a| ensures !OccursAt(a + b, p, j) {
      assert (a + b)[j] == a[j];
    }
    FindShift(a, b, p);
  }

  /** A subsequence whose first element is absent is not found. */
  lemma FindAbsent<T>(s: seq<T>, p: seq<T>)
    requires |p| > 0 && p[0] !in s
    ensures Find(s, p) == -1
  {
  }

  /** A subsequence at the very start is found at index 0. */
  lemma FindAtStart<T>(p: seq<T>, b: seq<T>)
    ensures Find(p + b, p) == 0
  {
    assert (p + b)[0..|p|] == p;
    FindIs(p + b, p, 0);
  }

  /** A subsequence found in `a` is found at the same index in `a + b`. */
  lemma FindInPrefix<T>(a: seq<T>, b: seq<T>, p: seq<T>)
    requires Find(a, p) >= 0
    ensures Find(a + b, p) == Find(a, p)
  {
    var s := a + b;
    var k := Find(a, p);
    assert s[k..k + |p|] == a[k..k + |p|];
    forall j | 0 <= j < k ensures !OccursAt(s, p, j) {
      assert !OccursAt(a, p, j);
      assert j + |p| <= |a|;
      assert s[j..j + |p|] == a[j..j + |p|];
    }
    FindIs(s, p, k);
  }

  // ---------------------------------------------------------------------
  // Splitting and joining

  /** `s.split(sep)` with a non-empty separator: the pieces between the
      non-overlapping occurrences of `sep`, scanning from the left. */
  function Split<T(==)>(s: seq<T>, sep: seq<T>): (r: seq<seq<T>>)
    requires |sep| > 0
    ensures |r| > 0
    decreases |s|
  {
    var i := Find(s, sep);
    if i < 0 then [s] else [s[..i]] + Split(s[i + |sep|..], sep)
  }

  /** `sep.join(parts)`. */
  function Join<T>(parts: seq<seq<T>>, sep: seq<T>): seq<T> {
    if |parts| == 0 then []
    else if |parts| == 1 then parts[0]
    else parts[0] + sep + Join(parts[1..], sep)
  }

  /** Splitting a join gives the parts back when the separator's first element
      occurs in no part. */
  lemma {:induction false} SplitJoin<T>(parts: seq<seq<T>>, sep: seq<T>)
    requires |parts| > 0 && |sep| > 0
    requires forall k :: 0 <= k < |parts| ==> sep[0] !in parts[k]
    ensures Split(Join(parts, sep), sep) == parts
  {
    var s := Join(parts, sep);
    if |parts| == 1 {
      assert Find(parts[0] + [], sep) == -1 by {
        FindAfter(parts[0], [], sep);
      }
      assert parts[0] + [] == parts[0];
    } else {
      var rest := Join(parts[1..], sep);
      assert s == parts[0] + (sep + rest);
      FindAfter(parts[0], sep + rest, sep);
      assert OccursAt(sep + rest, sep, 0);
      assert Find(s, sep) == |parts[0]|;
      assert s[|parts[0]| + |sep|..] == rest;
      assert s[..|parts[0]|] == parts[0];
      SplitJoin(parts[1..], sep);
    }
  }

  // ---------------------------------------------------------------------
  // Digits and integers

  predicate IsDigit(c: char) {
    '0' <= c <= '9'
  }

  /** `str.isdigit()` (ASCII digits): non-empty and made of digits only. */
  predicate IsDigits(s: string) {
    |s| > 0 && forall i :: 0 <= i < |s| ==> IsDigit(s[i])
  }

  /** The value of a string of decimal digits. */
  function DigitsValue(s: string): nat
    requires forall i :: 0 <= i < |s| ==> IsDigit(s[i])
  {
    if |s| == 0 then 0
    else
      var last := s[|s| - 1];
      assert IsDigit(last);
      DigitsValue(s[..|s| - 1]) * 10 + (last as int - '0' as int)
  }

  function DigitChar(d: nat): (c: char)
    requires d < 10
    ensures IsDigit(c) && c as int - '0' as int == d
  {
    ('0' as int + d) as char
  }

  /** `str(n)` for a non-negative integer: its decimal digits, without
      leading zeros. */
  function NatToString(n: nat): (r: string)
    ensures IsDigits(r) && DigitsValue(r) == n
    ensures |r| > 1 ==> r[0] != '0'
  {
    if n < 10 then [DigitChar(n)]
    else
      var r := NatToString(n / 10) + [DigitChar(n % 10)];
      assert r[..|r| - 1] == NatToString(n / 10);
      r
  }

  /** `str(i)` for any integer. */
  function IntToString(i: int): (r: string)
    ensures |r| > 0
    ensures i >= 0 ==> r == NatToString(i)
    ensures i < 0 ==> r == "-" + NatToString(-i)
  {
    if i < 0 then "-" + NatToString(-i) else NatToString(i)
  }

  /** `str(i)` is made of digits and possibly a leading minus sign. */
  lemma IntToStringChars(i: int)
    ensures forall c :: c in IntToString(i) ==> IsDigit(c) || c == '-'
    ensures IsDigit(IntToString(i)[0]) || IntToString(i)[0] == '-'
  {
    var d := NatToString(if i < 0 then -i else i);
    forall c | c in d ensures IsDigit(c) {
      var k :| 0 <= k < |d| && d[k] == c;
    }
  }

  /** The body of an integer literal accepted by `int(...)`: digits, with single
      underscores allowed between two digits. */
  predicate IsIntBody(s: string) {
    && |s| > 0 && IsDigit(s[0]) && IsDigit(s[|s| - 1])
    && forall i :: 0 <= i < |s| ==> IsDigit(s[i]) || (s[i] == '_' && i + 1 < |s| && IsDigit(s[i + 1]))
  }

  lemma IntBodyChars(s: string)
    requires IsIntBody(s)
    ensures forall i :: 0 <= i < |s| ==> IsDigit(s[i]) || s[i] == '_'
  {
    forall i | 0 <= i < |s| ensures IsDigit(s[i]) || s[i] == '_' {
      assert IsDigit(s[i]) || (s[i] == '_' && i + 1 < |s| && IsDigit(s[i + 1]));
    }
  }

  function RemoveUnderscores(s: string): (r: string)
    ensures (forall i :: 0 <= i < |s| ==> IsDigit(s[i]) || s[i] == '_') ==>
      (forall j :: 0 <= j < |r| ==> IsDigit(r[j]))
    ensures (forall i :: 0 <= i < |s| ==> s[i] != '_') ==> r == s
  {
    if s == [] then []
    else (if s[0] == '_' then [] else [s[0]]) + RemoveUnderscores(s[1..])
  }

  /** Python's `int(s)` in base 10: surrounding whitespace, an optional sign
      and an integer body; `None` where Python raises `ValueError`. */
  function ParseInt(s: string): Option<int> {
    ParseIntStripped(Strip(s))
  }

  /** What `int()` accepts: nothing once stripped is an error; otherwise the
      stripped text starts with a digit or a sign and ends with a digit, and
      only a `-` gives a negative value. */
  lemma ParseIntShape(s: string)
    ensures Strip(s) == [] ==> ParseInt(s).None?
    ensures ParseInt(s).Some? ==> var t := Strip(s);
      (IsDigit(t[0]) || t[0] == '-' || t[0] == '+') && IsDigit(t[|t| - 1])
    ensures ParseInt(s).Some? && ParseInt(s).value < 0 ==> Strip(s)[0] == '-'
  {
    var t := Strip(s);
    if t != [] {
      var body := if t[0] == '-' || t[0] == '+' then t[1..] else t;
      if IsIntBody(body) {
        assert body[|body| - 1] == t[|t| - 1];
      }
    }
  }

  /** `int(...)` once the whitespace is gone. */
  function ParseIntStripped(t: string): Option<int> {
    if t == [] then None
    else
      var body := if t[0] == '-' || t[0] == '+' then t[1..] else t;
      if !IsIntBody(body) then None
      else
        IntBodyChars(body);
        var magnitude: int := DigitsValue(RemoveUnderscores(body));
        Some(if t[0] == '-' then -magnitude else magnitude)
  }

  /** `int(s)` of a string of digits is their value. */
  lemma ParseIntDigits(s: string)
    requires IsDigits(s)
    ensures ParseInt(s) == Some(DigitsValue(s))
  {
    StripResult(s);
    assert Strip(s) == s;
    assert IsIntBody(s);
    assert RemoveUnderscores(s) == s;
  }

  /** `int(str(i)) == i`. */
  lemma ParseIntToString(i: int)
    ensures ParseInt(IntToString(i)) == Some(i)
  {
    var r := IntToString(i);
    if i >= 0 {
      ParseIntDigits(r);
    } else {
      var d := NatToString(-i);
      assert r == "-" + d && r[0] == '-' && r[1..] == d;
      assert Trimmed(r);
      StripResult(r);
      assert ParseInt(r) == ParseIntStripped(r);
      assert IsIntBody(d);
      assert RemoveUnderscores(d) == d;
    }
  }

  // ---------------------------------------------------------------------
  // Whitespace split

  /** The length of the longest prefix of `s` without whitespace. */
  function FirstSpace(s: string): (r: nat)
    ensures r <= |s|
    ensures r < |s| ==> IsSpace(s[r])
    ensures forall i :: 0 <= i < r ==> !IsSpace(s[i])
  {
    if s == [] || IsSpace(s[0]) then 0 else 1 + FirstSpace(s[1..])
  }

  /** A non-empty run of non-whitespace characters. */
  predicate IsWord(w: string) {
    |w| > 0 && forall i :: 0 <= i < |w| ==> !IsSpace(w[i])
  }

  /** `str.split()` without arguments: the maximal runs of non-whitespace,
      leading whitespace skipped one character at a time. */
  function Words(s: string): (r: seq<string>)
    ensures forall k :: 0 <= k < |r| ==> IsWord(r[k])
    decreases |s|
  {
    if s == [] then []
    else if IsSpace(s[0]) then Words(s[1..])
    else
      var n := FirstSpace(s);
      var w := s[..n];
      assert IsWord(w);
      [w] + Words(s[n..])
  }
}
