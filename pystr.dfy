/**
 * The Python string operations the source relies on, with Python's own semantics:
 * `sub in s`, `s.find(sub, start)`, `s.index(c)`, `s.replace(pat, repl)` (including the
 * empty-pattern case), `s.strip()`, `s.split(sep)`, slices and indexing with negative
 * bounds, and `str(n)` for a natural number.
 */
module PyStr {
  import opened Outcomes

  /** `pat` occurs in `s` starting at index `i`. */
  predicate OccursAt(s: string, pat: string, i: nat) {
    i + |pat| <= |s| && s[i..i + |pat|] == pat
  }

  /** `s.find(pat, start)`: the first occurrence at or after `start`, or -1. */
  function FindFrom(s: string, pat: string, start: nat): (r: int)
    ensures -1 <= r
    ensures r >= 0 ==> start <= r && OccursAt(s, pat, r)
    ensures r >= 0 ==> forall j: nat :: start <= j < r ==> !OccursAt(s, pat, j)
    ensures r == -1 <==> forall j: nat :: start <= j ==> !OccursAt(s, pat, j)
    decreases |s| - start
  {
    if start + |pat| > |s| then
      assert forall j: nat :: start <= j ==> !OccursAt(s, pat, j);
      -1
    else if s[start..start + |pat|] == pat then
      assert OccursAt(s, pat, start);
      start
    else FindFrom(s, pat, start + 1)
  }

  /** The first occurrence at or after `start` is what `find` returns. */
  lemma FindFromAt(s: string, pat: string, start: nat, i: nat)
    requires start <= i && OccursAt(s, pat, i)
    requires forall j: nat :: start <= j < i ==> !OccursAt(s, pat, j)
    ensures FindFrom(s, pat, start) == i
  {
  }

  /** Python's `pat in s`. */
  predicate IsSubstring(pat: string, s: string) {
    FindFrom(s, pat, 0) >= 0
  }

  lemma IsSubstringAt(pat: string, s: string, i: nat)
    requires OccursAt(s, pat, i)
    ensures IsSubstring(pat, s)
  {
  }

  /** The middle part of a three-part concatenation. */
  lemma SliceMiddle(a: string, b: string, c: string)
    ensures (a + b + c)[|a|..|a| + |b|] == b
  {
    assert (a + b + c)[..|a| + |b|] == a + b;
  }

  /** `s.index(c)`: the first position of `c`; `None` stands for the ValueError. */
  function IndexOf(s: string, c: char): (r: Option<nat>)
    ensures r.Some? ==> r.value < |s| && s[r.value] == c && c !in s[..r.value]
    ensures r.None? <==> c !in s
  {
    if |s| == 0 then None
    else if s[0] == c then Some(0)
    else
      match IndexOf(s[1..], c)
      case None => None
      case Some(k) =>
        assert s[..k + 1] == [s[0]] + s[1..][..k];
        Some(k + 1)
  }

  /** Python indexing `s[i]`, where a negative `i` counts from the end. */
  function PyIndex(s: string, i: int): (r: Option<char>)
    ensures r.Some? <==> -|s| <= i < |s|
    ensures 0 <= i < |s| ==> r == Some(s[i])
    ensures -|s| <= i < 0 ==> r == Some(s[|s| + i])
  {
    if 0 <= i < |s| then Some(s[i])
    else if -|s| <= i < 0 then Some(s[|s| + i])
    else None
  }

  /** A Python slice bound, after counting negative bounds from the end and clamping. */
  function SliceBound(n: nat, x: int): (r: nat)
    ensures r <= n
    ensures 0 <= x <= n ==> r == x
    ensures x > n ==> r == n
  {
    if x < 0 then (if x + n < 0 then 0 else x + n)
    else if x > n then n
    else x
  }

  /** Python slicing `s[i:j]`. */
  function PySlice(s: string, i: int, j: int): (r: string)
    ensures 0 <= i <= j <= |s| ==> r == s[i..j]
    ensures |r| <= |s|
  {
    var lo, hi := SliceBound(|s|, i), SliceBound(|s|, j);
    if lo >= hi then "" else s[lo..hi]
  }

  /** Number of occurrences of character `c` in `s`. */
  function Count(c: char, s: string): (n: nat)
    ensures n <= |s|
  {
    if |s| == 0 then 0 else (if s[0] == c then 1 else 0) + Count(c, s[1..])
  }

  /** No copies counted exactly when the character is absent. */
  lemma {:induction false} CountZero(c: char, s: string)
    ensures Count(c, s) == 0 <==> c !in s
    decreases |s|
  {
    if |s| > 0 {
      CountZero(c, s[1..]);
      assert c in s <==> s[0] == c || c in s[1..];
    }
  }

  lemma {:induction false} CountAppend(c: char, s: string, t: string)
    ensures Count(c, s + t) == Count(c, s) + Count(c, t)
  {
    if |s| == 0 {
      assert s + t == t;
    } else {
      assert (s + t)[1..] == s[1..] + t;
      CountAppend(c, s[1..], t);
    }
  }

  lemma {:induction false} CountSlice(c: char, s: string, i: nat, j: nat)
    requires i <= j <= |s|
    ensures Count(c, s[i..j]) <= Count(c, s)
  {
    assert s == s[..i] + s[i..j] + s[j..];
    CountAppend(c, s[..i] + s[i..j], s[j..]);
    CountAppend(c, s[..i], s[i..j]);
  }

  /** A suffix that skips the first character has fewer copies of that character. */
  lemma CountTail(c: char, s: string, i: nat)
    requires 1 <= i <= |s| && s[0] == c
    ensures Count(c, s[i..]) < Count(c, s)
  {
    assert s[1..][i - 1..|s| - 1] == s[i..];
    CountSlice(c, s[1..], i - 1, |s| - 1);
    assert Count(c, s) == 1 + Count(c, s[1..]);
  }

  lemma CountHead(c: char, s: string)
    requires |s| > 0 && s[0] == c
    ensures Count(c, s) == 1 + Count(c, s[1..])
  {
  }

  lemma CountInside(c: char, s: string, lo: nat, hi: nat)
    requires 1 <= lo <= hi <= |s| && s[0] == c
    ensures Count(c, s[lo..hi]) < Count(c, s)
  {
    CountHead(c, s);
    SliceOfTail(s, lo, hi);
    CountSlice(c, s[1..], lo - 1, hi - 1);
  }

  lemma SliceOfTail(s: string, lo: nat, hi: nat)
    requires 1 <= lo <= hi <= |s|
    ensures s[1..][lo - 1..hi - 1] == s[lo..hi]
  {
  }

  /** A slice that skips the first character has fewer copies of that character. */
  lemma CountSliceAfterHead(c: char, s: string, i: int, j: int)
    requires |s| > 0 && s[0] == c && i >= 1
    ensures Count(c, PySlice(s, i, j)) < Count(c, s)
  {
    var lo, hi := SliceBound(|s|, i), SliceBound(|s|, j);
    assert 1 <= lo by { if i <= |s| { assert lo == i; } else { assert lo == |s|; } }
    if lo < hi {
      assert PySlice(s, i, j) == s[lo..hi];
      CountInside(c, s, lo, hi);
    } else {
      assert PySlice(s, i, j) == "";
      CountHead(c, s);
    }
  }

  /** `repl` inserted before every character of `s` and at its end: `s.replace('', new)`. */
  function Interleave(s: string, repl: string): (r: string)
    ensures |r| == |s| + (|s| + 1) * |repl|
  {
    if |s| == 0 then repl else repl + [s[0]] + Interleave(s[1..], repl)
  }

  /** Python's `s.replace(pat, repl)`: every non-overlapping occurrence, left to right. */
  function Replace(s: string, pat: string, repl: string): (r: string)
    decreases |s|
  {
    if |pat| == 0 then Interleave(s, repl)
    else if |s| < |pat| then s
    else if s[..|pat|] == pat then repl + Replace(s[|pat|..], pat, repl)
    else [s[0]] + Replace(s[1..], pat, repl)
  }

  /** Concatenation regroups. */
  lemma Assoc(a: string, b: string, c: string)
    ensures a + b + c == a + (b + c)
  {
  }

  lemma OccursShift(s: string, pat: string, j: nat)
    requires |s| > 0 && OccursAt(s[1..], pat, j)
    ensures OccursAt(s, pat, j + 1)
  {
    assert s[1..][j..j + |pat|] == s[j + 1..j + 1 + |pat|];
  }

  lemma {:induction false} ReplaceAbsent(s: string, pat: string, repl: string)
    requires |pat| > 0 && !IsSubstring(pat, s)
    ensures Replace(s, pat, repl) == s
    decreases |s|
  {
    if |s| >= |pat| {
      assert !OccursAt(s, pat, 0);
      forall j: nat ensures !OccursAt(s[1..], pat, j) {
        if OccursAt(s[1..], pat, j) {
          OccursShift(s, pat, j);
        }
      }
      ReplaceAbsent(s[1..], pat, repl);
    }
  }

  /** Replacing a one-character pattern distributes over concatenation. */
  lemma {:induction false} ReplaceCharAppend(a: string, b: string, c: char, repl: string)
    ensures Replace(a + b, [c], repl) == Replace(a, [c], repl) + Replace(b, [c], repl)
    decreases |a|
  {
    if |a| == 0 {
      assert a + b == b;
    } else {
      assert (a + b)[..1] == a[..1];
      assert (a + b)[1..] == a[1..] + b;
      ReplaceCharAppend(a[1..], b, c, repl);
    }
  }

  /** An occurrence at the front is replaced and the scan resumes after it. */
  lemma ReplaceHit(pat: string, rest: string, repl: string)
    requires |pat| > 0
    ensures Replace(pat + rest, pat, repl) == repl + Replace(rest, pat, repl)
  {
    assert (pat + rest)[..|pat|] == pat;
    assert (pat + rest)[|pat|..] == rest;
  }

  /** A character that cannot start the pattern is kept and the scan moves on. */
  lemma ReplaceMiss(c: char, rest: string, pat: string, repl: string)
    requires |pat| > 0 && pat[0] != c
    ensures Replace([c] + rest, pat, repl) == [c] + Replace(rest, pat, repl)
  {
    if |[c] + rest| >= |pat| {
      assert ([c] + rest)[..|pat|][0] == c;
      assert ([c] + rest)[1..] == rest;
    } else {
      assert |rest| < |pat|;
    }
  }

  /** No occurrence of `pat` starts in `[lo, hi)` when its `k`-th character is missing there. */
  lemma NoOccurrenceBetween(s: string, pat: string, lo: nat, hi: nat, k: nat)
    requires k < |pat|
    requires forall i :: lo + k <= i < hi + k && i < |s| ==> s[i] != pat[k]
    ensures forall j: nat :: lo <= j < hi ==> !OccursAt(s, pat, j)
  {
    forall j: nat | lo <= j < hi ensures !OccursAt(s, pat, j) {
      if j + |pat| <= |s| {
        assert s[j..j + |pat|][k] == s[j + k];
      }
    }
  }

  /** The first occurrence of `pat` in `a + pat + rest` is replaced, and the scan resumes after it. */
  lemma {:induction false} ReplaceFirst(a: string, pat: string, rest: string, repl: string)
    requires |pat| > 0
    requires forall j: nat :: j < |a| ==> !OccursAt(a + pat + rest, pat, j)
    ensures Replace(a + pat + rest, pat, repl) == a + repl + Replace(rest, pat, repl)
    decreases |a|
  {
    var s := a + pat + rest;
    if |a| == 0 {
      assert s == pat + rest;
      ReplaceHit(pat, rest, repl);
    } else {
      var t := a[1..] + pat + rest;
      assert s == [a[0]] + t;
      assert !OccursAt(s, pat, 0);
      assert s[..|pat|] != pat;
      assert Replace(s, pat, repl) == [a[0]] + Replace(t, pat, repl);
      forall j: nat | j < |a[1..]| ensures !OccursAt(t, pat, j) {
        if OccursAt(t, pat, j) {
          OccursShift(s, pat, j);
        }
      }
      ReplaceFirst(a[1..], pat, rest, repl);
      assert [a[0]] + a[1..] == a;
    }
  }

  /** A one-character pattern that occurs once is replaced there and nowhere else. */
  lemma ReplaceOnce(a: string, c: char, b: string, repl: string)
    requires c !in a && c !in b
    ensures Replace(a + [c] + b, [c], repl) == a + repl + b
  {
    ReplaceCharAppend(a + [c], b, c, repl);
    ReplaceCharAppend(a, [c], c, repl);
    CharSubstring(c, a);
    ReplaceAbsent(a, [c], repl);
    CharSubstring(c, b);
    ReplaceAbsent(b, [c], repl);
    assert Replace([c], [c], repl) == repl;
  }

  /** For one character Python's substring test is plain membership. */
  lemma CharSubstring(c: char, s: string)
    ensures IsSubstring([c], s) <==> c in s
  {
    if c in s {
      var k :| 0 <= k < |s| && s[k] == c;
      assert s[k..k + 1] == [c];
      IsSubstringAt([c], s, k);
    }
    if IsSubstring([c], s) {
      var k := FindFrom(s, [c], 0);
      assert s[k..k + 1][0] == s[k];
    }
  }

  /** Replacing a pattern by a text no longer than it never lengthens the string. */
  lemma {:induction false} ReplaceNoLonger(s: string, pat: string, repl: string)
    requires |pat| > 0 && |repl| <= |pat|
    ensures |Replace(s, pat, repl)| <= |s|
    decreases |s|
  {
    if |s| >= |pat| {
      if s[..|pat|] == pat {
        ReplaceNoLonger(s[|pat|..], pat, repl);
      } else {
        ReplaceNoLonger(s[1..], pat, repl);
      }
    }
  }

  lemma {:induction false} CountInterleave(c: char, s: string, repl: string)
    requires c !in repl
    ensures Count(c, Interleave(s, repl)) == Count(c, s)
  {
    CountZero(c, repl);
    if |s| > 0 {
      CountAppend(c, repl + [s[0]], Interleave(s[1..], repl));
      CountAppend(c, repl, [s[0]]);
      CountInterleave(c, s[1..], repl);
      assert s == [s[0]] + s[1..];
      CountAppend(c, [s[0]], s[1..]);
    }
  }

  /** Replacing by a text free of `c` never adds occurrences of `c`. */
  lemma {:induction false} CountReplace(c: char, s: string, pat: string, repl: string)
    requires c !in repl
    ensures Count(c, Replace(s, pat, repl)) <= Count(c, s)
    ensures |pat| > 0 && c in pat && IsSubstring(pat, s) ==> Count(c, Replace(s, pat, repl)) < Count(c, s)
    decreases |s|
  {
    if |pat| == 0 {
      CountInterleave(c, s, repl);
    } else if |s| < |pat| {
    } else if s[..|pat|] == pat {
      CountReplaceHead(c, s, pat, repl);
    } else {
      CountReplaceSkip(c, s, pat, repl);
    }
  }

  lemma {:induction false} CountReplaceHead(c: char, s: string, pat: string, repl: string)
    requires c !in repl && 0 < |pat| <= |s| && s[..|pat|] == pat
    ensures Count(c, Replace(s, pat, repl)) <= Count(c, s)
    ensures c in pat ==> Count(c, Replace(s, pat, repl)) < Count(c, s)
    decreases |s|, 0
  {
    CountZero(c, repl);
    CountZero(c, pat);
    assert s == s[..|pat|] + s[|pat|..];
    CountAppend(c, s[..|pat|], s[|pat|..]);
    CountAppend(c, repl, Replace(s[|pat|..], pat, repl));
    CountReplace(c, s[|pat|..], pat, repl);
  }

  lemma {:induction false} CountReplaceSkip(c: char, s: string, pat: string, repl: string)
    requires c !in repl && 0 < |pat| <= |s| && s[..|pat|] != pat
    ensures Count(c, Replace(s, pat, repl)) <= Count(c, s)
    ensures c in pat && IsSubstring(pat, s) ==> Count(c, Replace(s, pat, repl)) < Count(c, s)
    decreases |s|, 0
  {
    assert s == [s[0]] + s[1..];
    CountAppend(c, [s[0]], s[1..]);
    CountAppend(c, [s[0]], Replace(s[1..], pat, repl));
    CountReplace(c, s[1..], pat, repl);
    if IsSubstring(pat, s) {
      SubstringTail(s, pat);
    }
  }

  /** Replacing one character by a text free of it leaves none of it behind. */
  lemma {:induction false} ReplaceCharRemoves(s: string, c: char, repl: string)
    requires c !in repl
    ensures c !in Replace(s, [c], repl)
    decreases |s|
  {
    if |s| >= 1 {
      ReplaceCharRemoves(s[1..], c, repl);
      if s[..1] != [c] {
        assert s[0] != c;
      }
    }
  }

  lemma SubstringTail(s: string, pat: string)
    requires IsSubstring(pat, s) && |s| > 0 && !OccursAt(s, pat, 0)
    ensures IsSubstring(pat, s[1..])
  {
    var k := FindFrom(s, pat, 0);
    assert s[1..][k - 1..k - 1 + |pat|] == s[k..k + |pat|];
    IsSubstringAt(pat, s[1..], k - 1);
  }

  /** The characters Python's `str.strip()` removes. */
  predicate IsSpace(c: char) {
    c in {' ', '\t', '\n', '\r', '\U{000B}', '\U{000C}', '\U{001C}', '\U{001D}', '\U{001E}',
          '\U{001F}', '\U{0085}', '\U{00A0}', '\U{1680}', '\U{2000}', '\U{2001}', '\U{2002}',
          '\U{2003}', '\U{2004}', '\U{2005}', '\U{2006}', '\U{2007}', '\U{2008}', '\U{2009}',
          '\U{200A}', '\U{2028}', '\U{2029}', '\U{202F}', '\U{205F}', '\U{3000}'}
  }

  /** Python's `s.lstrip()`: the white space at the front is dropped. */
  function StripStart(s: string): (r: string)
    ensures |r| <= |s| && r == s[|s| - |r|..]
    ensures |r| > 0 ==> !IsSpace(r[0])
  {
    if |s| > 0 && IsSpace(s[0]) then StripStart(s[1..]) else s
  }

  /** What `lstrip` drops is white space. */
  lemma {:induction false} StripStartSpaces(s: string)
    ensures forall k :: 0 <= k < |s| - |StripStart(s)| ==> IsSpace(s[k])
    decreases |s|
  {
    if |s| > 0 && IsSpace(s[0]) {
      StripStartSpaces(s[1..]);
      assert forall k :: 1 <= k < |s| - |StripStart(s)| ==> s[k] == s[1..][k - 1];
    }
  }

  /** Python's `s.rstrip()`: the white space at the back is dropped. */
  function StripEnd(s: string): (r: string)
    ensures |r| <= |s| && r == s[..|r|]
    ensures |r| > 0 ==> !IsSpace(r[|r| - 1])
  {
    if |s| > 0 && IsSpace(s[|s| - 1]) then StripEnd(s[..|s| - 1]) else s
  }

  /** What `rstrip` drops is white space. */
  lemma {:induction false} StripEndSpaces(s: string)
    ensures forall k :: |StripEnd(s)| <= k < |s| ==> IsSpace(s[k])
    decreases |s|
  {
    if |s| > 0 && IsSpace(s[|s| - 1]) {
      StripEndSpaces(s[..|s| - 1]);
    }
  }

  /**
   * Python's `s.strip()`: the slice of `s` that starts where `lstrip` stops, with no
   * white space at either end, everything cut off on either side being white space.
   */
  function Strip(s: string): (r: string)
    ensures var i := |s| - |StripStart(s)|;
            i + |r| <= |s| && r == s[i..i + |r|]
            && (forall k :: 0 <= k < i ==> IsSpace(s[k]))
            && (forall k :: i + |r| <= k < |s| ==> IsSpace(s[k]))
    ensures |r| > 0 ==> !IsSpace(r[0]) && !IsSpace(r[|r| - 1])
  {
    var t := StripStart(s);
    var u := StripEnd(t);
    StripSlice(s, t, u);
    StripStartSpaces(s);
    StripEndSpaces(t);
    StripTail(s, t, u);
    u
  }

  lemma StripSlice(s: string, t: string, u: string)
    requires |t| <= |s| && t == s[|s| - |t|..] && |u| <= |t| && u == t[..|u|]
    ensures |s| - |t| + |u| <= |s| && u == s[|s| - |t|..|s| - |t| + |u|]
  {
    assert s[|s| - |t|..][..|u|] == s[|s| - |t|..|s| - |t| + |u|];
  }

  lemma StripTail(s: string, t: string, u: string)
    requires |t| <= |s| && t == s[|s| - |t|..] && |u| <= |t|
    requires forall k :: |u| <= k < |t| ==> IsSpace(t[k])
    ensures forall k :: |s| - |t| + |u| <= k < |s| ==> IsSpace(s[k])
  {
    var i := |s| - |t|;
    forall k | i + |u| <= k < |s|
      ensures IsSpace(s[k])
    {
      assert s[k] == t[k - i];
    }
  }

  /** Python's `s.split(sep)` for a one-character separator. */
  function Split(s: string, sep: char): (r: seq<string>)
    ensures |r| > 0
    ensures forall k :: 0 <= k < |r| ==> sep !in r[k]
    decreases |s|
  {
    match IndexOf(s, sep)
    case None => [s]
    case Some(k) => [s[..k]] + Split(s[k + 1..], sep)
  }

  /** Python's `sep.join(parts)`. */
  function Join(parts: seq<string>, sep: char): string
    requires |parts| > 0
  {
    if |parts| == 1 then parts[0] else parts[0] + [sep] + Join(parts[1..], sep)
  }

  /** Splitting loses nothing: joining the pieces gives the text back. */
  lemma {:induction false} SplitJoin(s: string, sep: char)
    ensures Join(Split(s, sep), sep) == s
    decreases |s|
  {
    match IndexOf(s, sep)
    case None =>
    case Some(k) =>
      var rest := Split(s[k + 1..], sep);
      SplitJoin(s[k + 1..], sep);
      assert Split(s, sep) == [s[..k]] + rest;
      JoinCons(s[..k], rest, sep);
      assert s == s[..k] + [sep] + s[k + 1..];
  }

  lemma JoinCons(head: string, rest: seq<string>, sep: char)
    requires |rest| > 0
    ensures Join([head] + rest, sep) == head + [sep] + Join(rest, sep)
  {
    assert ([head] + rest)[1..] == rest;
  }

  function Digit(d: nat): (c: char)
    requires d < 10
    ensures '0' <= c <= '9'
  {
    ['0', '1', '2', '3', '4', '5', '6', '7', '8', '9'][d]
  }

  predicate IsDigit(c: char) { '0' <= c <= '9' }

  /** The number a string of decimal digits denotes. */
  function DecimalValue(r: string): nat
    requires forall k :: 0 <= k < |r| ==> IsDigit(r[k])
  {
    if |r| == 0 then 0 else DecimalValue(r[..|r| - 1]) * 10 + DigitValue(r[|r| - 1])
  }

  function DigitValue(c: char): nat
    requires IsDigit(c)
  {
    c as int - '0' as int
  }

  /** Python's `str(n)` for a natural number: the decimal numeral, without leading zeros. */
  function NatToString(n: nat): (r: string)
    ensures |r| > 0
    ensures forall k :: 0 <= k < |r| ==> IsDigit(r[k])
    ensures DecimalValue(r) == n
    ensures r[0] == '0' ==> r == "0"
  {
    if n < 10 then [Digit(n)] else NatToString(n / 10) + [Digit(n % 10)]
  }

  /** Distinct numbers get distinct names. */
  lemma NatToStringInjective(m: nat, n: nat)
    requires NatToString(m) == NatToString(n)
    ensures m == n
  {
  }
}
