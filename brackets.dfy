/**
 * Bracket matching and the depth-0 slash scan shared by both parsers
 * (`findbracketpair`, `stripbrackets` and the slash-search loop of the
 * `SyntacticType` constructor; both source files carry identical copies).
 */
module Brackets {
  import opened Outcomes
  import opened PyStr

  function Delta(c: char): int {
    if c == '(' then 1 else if c == ')' then -1 else 0
  }

  /** Net parenthesis depth of `t[lo..hi]`: opening minus closing parentheses. */
  function Depth(t: string, lo: nat, hi: nat): int
    requires lo <= hi <= |t|
    decreases hi
  {
    if hi == lo then 0 else Depth(t, lo, hi - 1) + Delta(t[hi - 1])
  }

  lemma DepthEmpty(t: string, lo: nat)
    requires lo <= |t|
    ensures Depth(t, lo, lo) == 0
  {
  }

  lemma DepthExtendRight(t: string, lo: nat, hi: nat)
    requires lo <= hi < |t|
    ensures Depth(t, lo, hi + 1) == Depth(t, lo, hi) + Delta(t[hi])
  {
  }

  lemma {:induction false} DepthExtendLeft(t: string, lo: nat, hi: nat)
    requires 0 < lo <= hi <= |t|
    ensures Depth(t, lo - 1, hi) == Delta(t[lo - 1]) + Depth(t, lo, hi)
    decreases hi
  {
    if hi > lo {
      DepthExtendLeft(t, lo, hi - 1);
    }
  }

  /** Depth depends only on the characters in the range. */
  lemma DepthShift(t: string, lo: nat, hi: nat, u: string, lo': nat)
    requires lo <= hi <= |t| && lo' + (hi - lo) <= |u|
    requires t[lo..hi] == u[lo'..lo' + (hi - lo)]
    ensures Depth(t, lo, hi) == Depth(u, lo', lo' + (hi - lo))
  {
    forall k | lo <= k < hi
      ensures t[k] == u[k - lo + lo']
    {
      assert t[k] == t[lo..hi][k - lo];
    }
    DepthShiftAt(t, lo, hi, u, lo');
  }

  lemma {:induction false} DepthShiftAt(t: string, lo: nat, hi: nat, u: string, lo': nat)
    requires lo <= hi <= |t| && lo' + (hi - lo) <= |u|
    requires forall k :: lo <= k < hi ==> t[k] == u[k - lo + lo']
    ensures Depth(t, lo, hi) == Depth(u, lo', lo' + (hi - lo))
    decreases hi
  {
    if hi > lo {
      assert t[hi - 1] == u[hi - 1 - lo + lo'];
      DepthShiftAt(t, lo, hi - 1, u, lo');
    }
  }

  /** The group opened at `lo` is still open after each of `t[lo + 1..hi + 1]`. */
  predicate OpenAfter(t: string, lo: nat, hi: nat)
    requires lo <= hi <= |t|
  {
    forall k :: lo < k <= hi ==> Depth(t, lo, k) > 0
  }

  /** The group closed at `hi - 1` is still unopened before each of `t[lo..hi]`. */
  predicate ClosedBefore(t: string, lo: nat, hi: nat)
    requires lo <= hi <= |t|
  {
    forall k :: lo <= k < hi ==> Depth(t, k, hi) < 0
  }

  /**
   * Searching rightwards from `h` for the end of the group opened at `i`: the first
   * index `j >= h` at which the net depth of `s[i..j + 1]` falls back to zero.
   */
  function CloseFrom(s: string, i: nat, h: nat): (r: Option<nat>)
    requires i < h <= |s| && Depth(s, i, h) > 0
    ensures r.Some? ==> h <= r.value < |s| && Depth(s, i, r.value + 1) == 0
    ensures r.Some? ==> forall k :: h <= k <= r.value ==> Depth(s, i, k) > 0
    ensures r.None? ==> forall k :: h <= k <= |s| ==> Depth(s, i, k) > 0
    decreases |s| - h
  {
    if h == |s| then None
    else if Depth(s, i, h + 1) == 0 then Some(h)
    else CloseFrom(s, i, h + 1)
  }

  /** The first zero of the depth is the one `CloseFrom` finds. */
  lemma {:induction false} CloseFromFinds(s: string, i: nat, h: nat, j: nat)
    requires i < h <= j < |s| && Depth(s, i, j + 1) == 0
    requires forall k :: h <= k <= j ==> Depth(s, i, k) > 0
    ensures CloseFrom(s, i, h) == Some(j)
    decreases j - h
  {
    if h < j {
      CloseFromFinds(s, i, h + 1, j);
    }
  }

  /** Without a zero of the depth `CloseFrom` finds nothing. */
  lemma {:induction false} CloseFromMisses(s: string, i: nat, h: nat)
    requires i < h <= |s| && forall k :: h <= k <= |s| ==> Depth(s, i, k) > 0
    ensures CloseFrom(s, i, h) == None
    decreases |s| - h
  {
    if h < |s| {
      CloseFromMisses(s, i, h + 1);
    }
  }

  /** The closing partner of the opening parenthesis at `i`, if it has one. */
  function MatchingClose(s: string, i: nat): (r: Option<nat>)
    requires i < |s| && s[i] == '('
    ensures r.Some? ==> i < r.value < |s| && s[r.value] == ')' && Depth(s, i, r.value + 1) == 0
                        && OpenAfter(s, i, r.value)
    ensures r.None? ==> OpenAfter(s, i, |s|)
  {
    assert Depth(s, i, i + 1) == 1;
    var r := CloseFrom(s, i, i + 1);
    if r.Some? then
      assert Depth(s, i, r.value) > 0;
      assert Depth(s, i, r.value + 1) == Depth(s, i, r.value) + Delta(s[r.value]);
      r
    else r
  }

  /** `MatchingClose` is characterised by its two properties. */
  lemma MatchingCloseUnique(s: string, i: nat, j: nat)
    requires i < j < |s| && s[i] == '('
    requires Depth(s, i, j + 1) == 0 && OpenAfter(s, i, j)
    ensures MatchingClose(s, i) == Some(j)
  {
    assert Depth(s, i, i + 1) == 1;
    CloseFromFinds(s, i, i + 1, j);
  }

  lemma MatchingCloseNone(s: string, i: nat)
    requires i < |s| && s[i] == '(' && OpenAfter(s, i, |s|)
    ensures MatchingClose(s, i) == None
  {
    assert Depth(s, i, i + 1) == 1;
    CloseFromMisses(s, i, i + 1);
  }

  /**
   * `findbracketpair(s, i)`.  Python indexing lets `i` and the search index be negative
   * (counted from the end), so the search runs over `s + s`, in which Python index `q`
   * of `s` sits at `q + |s|`.  From an opening parenthesis it finds the first later index
   * at which the net depth falls to zero; from a closing one the last earlier index at
   * which it rises to zero; running off either end is Python's IndexError.
   */
  method FindBracketPair(s: string, i: int) returns (r: Result<int>)
    ensures !(-|s| <= i < |s|) ==> r == Err(IndexError)
    ensures -|s| <= i < |s| && PyIndex(s, i).value !in "()" ==> r == Err(NotParenthesis)
    ensures -|s| <= i < |s| && PyIndex(s, i).value == '(' ==>
      (r.Ok? ==> i < r.value < |s| && Depth(s + s, i + |s|, r.value + |s| + 1) == 0
                 && OpenAfter(s + s, i + |s|, r.value + |s|))
      && (r.Err? ==> r == Err(IndexError) && OpenAfter(s + s, i + |s|, 2 * |s|))
    ensures -|s| <= i < |s| && PyIndex(s, i).value == ')' ==>
      (r.Ok? ==> -|s| <= r.value < i && Depth(s + s, r.value + |s|, i + |s| + 1) == 0
                 && ClosedBefore(s + s, r.value + |s| + 1, i + |s| + 1))
      && (r.Err? ==> r == Err(IndexError) && ClosedBefore(s + s, 0, i + |s| + 1))
  {
    var n := |s|;
    ghost var t := s + s;
    var c := PyIndex(s, i);
    if c.None? {
      return Err(IndexError);
    }
    assert c.value == t[i + n];
    var searchindex := i;
    var bracketscore: int;
    if c.value == '(' {
      bracketscore := 1;
      DepthExtendRight(t, i + n, i + n);
      while bracketscore > 0
        invariant i <= searchindex < n
        invariant bracketscore == Depth(t, i + n, searchindex + n + 1)
        invariant OpenAfter(t, i + n, searchindex + n)
        decreases n - searchindex
      {
        searchindex := searchindex + 1;
        var d := PyIndex(s, searchindex);
        if d.None? {
          return Err(IndexError);
        }
        assert d.value == t[searchindex + n];
        DepthExtendRight(t, i + n, searchindex + n);
        if d.value == '(' {
          bracketscore := bracketscore + 1;
        } else if d.value == ')' {
          bracketscore := bracketscore - 1;
        }
      }
    } else if c.value == ')' {
      bracketscore := -1;
      DepthExtendLeft(t, i + n + 1, i + n + 1);
      while bracketscore < 0
        invariant -n <= searchindex <= i
        invariant bracketscore == Depth(t, searchindex + n, i + n + 1)
        invariant ClosedBefore(t, searchindex + n + 1, i + n + 1)
        decreases searchindex + n
      {
        searchindex := searchindex - 1;
        var d := PyIndex(s, searchindex);
        if d.None? {
          return Err(IndexError);
        }
        assert d.value == t[searchindex + n];
        DepthExtendLeft(t, searchindex + n + 1, i + n + 1);
        if d.value == '(' {
          bracketscore := bracketscore + 1;
        } else if d.value == ')' {
          bracketscore := bracketscore - 1;
        }
      }
    } else {
      return Err(NotParenthesis);
    }
    return Ok(searchindex);
  }

  /** On the second copy of `s + s` depths are those of `s` itself. */
  lemma DepthSecondCopy(s: string, lo: nat, hi: nat)
    requires lo <= hi <= |s|
    ensures Depth(s + s, lo + |s|, hi + |s|) == Depth(s, lo, hi)
  {
    assert (s + s)[lo + |s|..hi + |s|] == s[lo..hi];
    DepthShift(s + s, lo + |s|, hi + |s|, s, lo);
  }

  /** Openness on the second copy of `s + s` is openness in `s`. */
  lemma OpenAfterSecondCopy(s: string, lo: nat, hi: nat)
    requires lo <= hi <= |s|
    ensures OpenAfter(s + s, lo + |s|, hi + |s|) ==> OpenAfter(s, lo, hi)
  {
    forall k | lo < k <= hi ensures Depth(s + s, lo + |s|, k + |s|) == Depth(s, lo, k) {
      DepthSecondCopy(s, lo, k);
    }
  }

  /**
   * From a non-negative opening position Python's search stays inside `s` and finds
   * exactly `MatchingClose`.
   */
  method FindBracketPairForward(s: string, i: nat) returns (r: Result<int>)
    requires i < |s| && s[i] == '('
    ensures r == (match MatchingClose(s, i) case Some(j) => Ok(j) case None => Err(IndexError))
  {
    r := FindBracketPair(s, i);
    assert PyIndex(s, i).value == '(';
    if r.Ok? {
      DepthSecondCopy(s, i, r.value + 1);
      OpenAfterSecondCopy(s, i, r.value);
      MatchingCloseUnique(s, i, r.value);
    } else {
      OpenAfterSecondCopy(s, i, |s|);
      MatchingCloseNone(s, i);
    }
  }

  /**
   * `stripbrackets(s)`: drop one outer pair of parentheses exactly when the opening
   * parenthesis at index 0 is closed by the last character.  Indexing an empty string,
   * or an opening parenthesis that is never closed, is Python's IndexError.
   */
  function StripBrackets(s: string): (r: Result<string>)
    ensures r.Ok? ==> |r.value| <= |s|
    ensures r.Err? <==> |s| == 0 || (s[0] == '(' && s[|s| - 1] == ')' && MatchingClose(s, 0).None?)
    ensures r.Err? ==> r.error == IndexError
  {
    if |s| == 0 then Err(IndexError)
    else if s[0] == '(' && s[|s| - 1] == ')' then
      match MatchingClose(s, 0)
      case None => Err(IndexError)
      case Some(j) => if j == |s| - 1 then Ok(s[1..|s| - 1]) else Ok(s)
    else Ok(s)
  }

  /** A text that does not open with a group closing at its end is left alone. */
  lemma StripBracketsKeeps(s: string)
    requires |s| > 0
    requires s[0] != '(' || (MatchingClose(s, 0).Some? && MatchingClose(s, 0).value < |s| - 1)
    ensures StripBrackets(s) == Ok(s)
  {
  }

  /** The outer pair goes exactly when the leading parenthesis is matched by the final one. */
  lemma StripBracketsRemovesOuterPair(s: string)
    requires |s| >= 2
    ensures StripBrackets(s) == Ok(s[1..|s| - 1])
        <==> s[0] == '(' && MatchingClose(s, 0) == Some(|s| - 1)
    ensures StripBrackets(s).Ok? && StripBrackets(s).value != s ==> StripBrackets(s).value == s[1..|s| - 1]
  {
    if s[0] == '(' && MatchingClose(s, 0) == Some(|s| - 1) {
      assert s[|s| - 1] == ')';
    }
  }

  /** Two separate groups: `(a)/(b)` keeps its parentheses. */
  lemma StripBracketsKeepsSeparateGroups()
    ensures StripBrackets("(a)/(b)") == Ok("(a)/(b)")
  {
    var s := "(a)/(b)";
    assert s[0..3] == "(a)";
    assert Count('(', "(a)") == 1 && Count(')', "(a)") == 1;
    assert Depth(s, 0, 3) == 0;
    assert s[0..1] == "(" && Depth(s, 0, 1) == 1;
    assert s[0..2] == "(a" && Count('(', "(a") == 1 && Depth(s, 0, 2) == 1;
    assert MatchingClose(s, 0) == Some(2);
  }

  /** For a character that is not a parenthesis `findbracketpair` raises. */
  method FindBracketPairRejects(s: string, i: nat) returns (r: Result<int>)
    requires i < |s| && s[i] != '(' && s[i] != ')'
    ensures r == Err(NotParenthesis)
  {
    r := FindBracketPair(s, i);
  }

  datatype Slash = LeftSlash | RightSlash   // `\` is "left", `/` is "right"

  predicate IsSlash(c: char) { c == '\\' || c == '/' }

  function SlashOf(c: char): Slash
    requires IsSlash(c)
  {
    if c == '\\' then LeftSlash else RightSlash
  }

  /** The character written for a slash; `SlashOf` reads it back. */
  function SlashChar(sl: Slash): (c: char)
    ensures IsSlash(c) && SlashOf(c) == sl
  {
    match sl
    case LeftSlash => '\\'
    case RightSlash => '/'
  }

  /**
   * The nesting depth before index `j` as the slash scan sees it: a `(` opens a group, a
   * `)` closes one, and a stray `)` at depth 0 is an ordinary character.
   */
  function ScanDepth(s: string, j: nat): (d: nat)
    requires j <= |s|
  {
    if j == 0 then 0
    else
      var d := ScanDepth(s, j - 1);
      if s[j - 1] == '(' then d + 1
      else if s[j - 1] == ')' && d > 0 then d - 1
      else d
  }

  /** `j` is a slash outside every parenthesised group. */
  predicate TopLevelSlash(s: string, j: nat)
    requires j < |s|
  {
    ScanDepth(s, j) == 0 && IsSlash(s[j])
  }

  /**
   * Reference definition of the slash search, character by character: the first slash at
   * depth 0 at or after `j`.  With none, the error is Python's IndexError when a group is
   * still open at the end (`findbracketpair` runs off the string) and "Invalid type"
   * otherwise.
   */
  function TopSlashFrom(s: string, j: nat): (r: Result<(nat, Slash)>)
    requires j <= |s|
    ensures r.Ok? ==> j <= r.value.0 < |s| && TopLevelSlash(s, r.value.0)
                      && r.value.1 == SlashOf(s[r.value.0])
                      && forall k :: j <= k < r.value.0 ==> !TopLevelSlash(s, k)
    ensures r.Err? ==> (forall k :: j <= k < |s| ==> !TopLevelSlash(s, k))
                       && r.error == (if ScanDepth(s, |s|) > 0 then IndexError else InvalidType)
    decreases |s| - j
  {
    if j == |s| then (if ScanDepth(s, |s|) > 0 then Err(IndexError) else Err(InvalidType))
    else if TopLevelSlash(s, j) then Ok((j, SlashOf(s[j])))
    else TopSlashFrom(s, j + 1)
  }

  /** The depth-0 slash of a function category (empty text is Python's IndexError). */
  function TopSlash(s: string): (r: Result<(nat, Slash)>)
    ensures r.Ok? ==> r.value.0 < |s| && TopLevelSlash(s, r.value.0) && r.value.1 == SlashOf(s[r.value.0])
                      && forall k :: 0 <= k < r.value.0 ==> !TopLevelSlash(s, k)
  {
    if |s| == 0 then Err(IndexError) else TopSlashFrom(s, 0)
  }

  /** One step of the scan depth. */
  lemma ScanDepthStep(s: string, j: nat)
    requires j < |s|
    ensures ScanDepth(s, j + 1) == (if s[j] == '(' then ScanDepth(s, j) + 1
                                  else if s[j] == ')' && ScanDepth(s, j) > 0 then ScanDepth(s, j) - 1
                                  else ScanDepth(s, j))
  {
  }

  /** Inside the group opened at depth 0 at `p` the scan depth is the net depth. */
  lemma {:induction false} ScanDepthInGroup(s: string, p: nat, k: nat)
    requires p < k <= |s| && ScanDepth(s, p) == 0 && s[p] == '('
    requires forall h :: p < h < k ==> Depth(s, p, h) > 0
    ensures ScanDepth(s, k) == Depth(s, p, k)
  {
    ScanDepthStep(s, k - 1);
    DepthExtendRight(s, p, k - 1);
    if k > p + 1 {
      ScanDepthInGroup(s, p, k - 1);
      assert Depth(s, p, k - 1) > 0;
    } else {
      DepthEmpty(s, p);
    }
  }

  /** Skipping a whole group does not pass any depth-0 slash. */
  lemma SkipGroup(s: string, p: nat, m: nat)
    requires p < m < |s| && ScanDepth(s, p) == 0 && s[p] == '('
    requires Depth(s, p, m + 1) == 0 && OpenAfter(s, p, m)
    ensures TopSlashFrom(s, p) == TopSlashFrom(s, m + 1)
    ensures ScanDepth(s, m + 1) == 0
  {
    ScanDepthInGroup(s, p, m + 1);
    forall j | p <= j <= m ensures !TopLevelSlash(s, j) {
      if j > p {
        ScanDepthInGroup(s, p, j);
      }
    }
    SkipGroupFrom(s, p, m);
  }

  lemma {:induction false} SkipGroupFrom(s: string, k: nat, m: nat)
    requires k <= m < |s|
    requires forall j :: k <= j <= m ==> !TopLevelSlash(s, j)
    ensures TopSlashFrom(s, k) == TopSlashFrom(s, m + 1)
    decreases m - k
  {
    if k < m {
      SkipGroupFrom(s, k + 1, m);
    }
  }

  /** A group never closed leaves no depth-0 slash after it and the depth open at the end. */
  lemma UnclosedGroup(s: string, p: nat)
    requires p < |s| && ScanDepth(s, p) == 0 && s[p] == '('
    requires OpenAfter(s, p, |s|)
    ensures TopSlashFrom(s, p) == Err(IndexError)
  {
    forall j | p <= j < |s| ensures !TopLevelSlash(s, j) {
      if j > p {
        ScanDepthInGroup(s, p, j);
      }
    }
    ScanDepthInGroup(s, p, |s|);
    UnclosedFrom(s, p);
  }

  lemma {:induction false} UnclosedFrom(s: string, k: nat)
    requires k <= |s| && ScanDepth(s, |s|) > 0
    requires forall j :: k <= j < |s| ==> !TopLevelSlash(s, j)
    ensures TopSlashFrom(s, k) == Err(IndexError)
    decreases |s| - k
  {
    if k < |s| {
      UnclosedFrom(s, k + 1);
    }
  }

  /**
   * The slash-search loop of the `SyntacticType` constructor: scan from the left, jump
   * over each parenthesised group with `findbracketpair`, stop at the first slash.  It
   * finds exactly the reference `TopSlash`, errors included.
   */
  method FindTopSlash(s: string) returns (r: Result<(nat, Slash)>)
    ensures r == TopSlash(s)
  {
    var searchindex: nat := 0;
    if |s| == 0 {
      return Err(IndexError);
    }
    while true
      invariant searchindex < |s| && ScanDepth(s, searchindex) == 0
      invariant TopSlashFrom(s, searchindex) == TopSlash(s)
      decreases |s| - searchindex
    {
      if s[searchindex] == '(' {
        var m := FindBracketPairForward(s, searchindex);
        if m.Err? {
          UnclosedGroup(s, searchindex);
          return m.PropagateFailure();
        }
        SkipGroup(s, searchindex, m.value);
        searchindex := m.value + 1;
      } else if s[searchindex] == '\\' {
        return Ok((searchindex, LeftSlash));
      } else if s[searchindex] == '/' {
        return Ok((searchindex, RightSlash));
      } else {
        searchindex := searchindex + 1;
      }
      if searchindex >= |s| {
        return Err(InvalidType);
      }
    }
  }

  /** Depth from the start of a concatenation: the prefix's depth carries over. */
  lemma {:induction false} DepthConcat(a: string, b: string, k: nat)
    requires k <= |b|
    ensures Depth(a + b, 0, |a| + k) == Depth(a, 0, |a|) + Depth(b, 0, k)
  {
    if k == 0 {
      assert (a + b)[0..|a|] == a[0..|a|];
      DepthShift(a + b, 0, |a|, a, 0);
    } else {
      DepthConcat(a, b, k - 1);
      assert (a + b)[|a| + k - 1] == b[k - 1];
    }
  }

  /** Within the prefix of a concatenation the depth is the prefix's own. */
  lemma DepthPrefix(a: string, b: string, k: nat)
    requires k <= |a|
    ensures Depth(a + b, 0, k) == Depth(a, 0, k)
  {
    assert (a + b)[0..k] == a[0..k];
    DepthShift(a + b, 0, k, a, 0);
  }

  /** A group that opens at the first character and closes at the last of `a` keeps doing so with text after it. */
  lemma MatchingClosePrefix(a: string, b: string)
    requires |a| >= 2 && a[0] == '(' && Depth(a, 0, |a|) == 0
    requires forall k :: 0 < k < |a| ==> Depth(a, 0, k) > 0
    ensures MatchingClose(a + b, 0) == Some(|a| - 1)
  {
    forall k | 0 <= k <= |a| ensures Depth(a + b, 0, k) == Depth(a, 0, k) {
      DepthPrefix(a, b, k);
    }
    MatchingCloseUnique(a + b, 0, |a| - 1);
  }

  /** While the net depth never drops below zero the clamped scan depth equals it. */
  lemma {:induction false} ScanDepthUnclamped(s: string, m: nat)
    requires m <= |s| && forall k :: 0 <= k <= m ==> Depth(s, 0, k) >= 0
    ensures ScanDepth(s, m) == Depth(s, 0, m)
  {
    if m > 0 {
      ScanDepthUnclamped(s, m - 1);
      ScanDepthStep(s, m - 1);
      DepthExtendRight(s, 0, m - 1);
    }
  }

  /** The slash search stops at the first depth-0 slash. */
  lemma {:induction false} TopSlashFromFirst(s: string, j: nat, m: nat)
    requires j <= m < |s| && TopLevelSlash(s, m)
    requires forall k :: j <= k < m ==> !TopLevelSlash(s, k)
    ensures TopSlashFrom(s, j) == Ok((m, SlashOf(s[m])))
    decreases m - j
  {
    if j < m {
      TopSlashFromFirst(s, j + 1, m);
    }
  }
}
