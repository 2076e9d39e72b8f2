/**
 * Syntactic categories of the sequent-calculus parser (`SyntacticType` in sequent.py).
 * A category is parsed from text such as `(dp\s)/dp`: spaces are removed, one outer
 * pair of parentheses is stripped, and a text holding a slash is split at its first
 * slash outside every parenthesised group.  A text containing `l` or `v` is a gap: an
 * `l` draws a fresh number from the global `varcounter`, a `v` reuses the current one,
 * and the number is appended to the text.  The counter is threaded explicitly.
 */
module Categories {
  import opened Outcomes
  import opened PyStr
  import opened Brackets

  /** `gaptype` and `varname`: the lambda of an abstraction, or the variable it binds. */
  datatype Gap = NoGap | LambdaGap(varname: string) | VariableGap(varname: string)
  {
    function Suffix(): string {
      if NoGap? then "" else varname
    }
  }

  /**
   * A parsed category.  `typestring` is the cleaned text with the gap number appended;
   * a function category also records its slash and the categories either side of it.
   */
  datatype SynType =
    | Atom(typestring: string, gap: Gap)
    | Func(typestring: string, gap: Gap, slash: Slash, left: SynType, right: SynType)
  {
    /** The result of a function category: left of `/`, right of `\`. */
    function Top(): SynType
      requires Func?
    {
      if slash == RightSlash then left else right
    }

    /** The argument of a function category: right of `/`, left of `\`. */
    function Bottom(): SynType
      requires Func?
    {
      if slash == RightSlash then right else left
    }

    function Size(): nat {
      match this
      case Atom(_, _) => 1
      case Func(_, _, _, l, r) => 1 + l.Size() + r.Size()
    }

    /** A function category's text holds a slash and an atom's does not. */
    predicate WellFormed() {
      match this
      case Atom(ts, _) => !HasSlash(ts)
      case Func(ts, _, _, l, r) => HasSlash(ts) && l.WellFormed() && r.WellFormed()
    }
  }

  predicate HasSlash(t: string) {
    '\\' in t || '/' in t
  }

  /** The text a category is built from: spaces removed, then `stripbrackets`. */
  function Cleaned(input: string): (r: Result<string>)
    ensures r.Ok? ==> |r.value| <= |input|
  {
    ReplaceNoLonger(input, " ", "");
    StripBrackets(Replace(input, " ", ""))
  }

  /** A one-character text other than a space or `(` is its own cleaned text. */
  lemma CleanedSingle(t: string)
    requires |t| == 1 && t[0] != ' ' && t[0] != '('
    ensures Cleaned(t) == Ok(t)
  {
    CharSubstring(' ', t);
    assert [' '] == " ";
    ReplaceAbsent(t, " ", "");
    StripBracketsKeeps(t);
  }

  /** The gap tagging at the end of the constructor. */
  function Tag(T: SynType, vc: nat): (SynType, nat) {
    var t := T.typestring;
    if 'l' in t then
      var name := NatToString(vc + 1);
      (T.(typestring := t + name, gap := LambdaGap(name)), vc + 1)
    else if 'v' in t then
      var name := NatToString(vc);
      (T.(typestring := t + name, gap := VariableGap(name)), vc)
    else (T, vc)
  }

  /**
   * `SyntacticType(input)` with `varcounter` equal to `vc`: the category and the new
   * counter, or the exception the constructor raises.
   */
  function ParseType(input: string, vc: nat): (r: Result<(SynType, nat)>)
    ensures Cleaned(input).Err? ==> r == Err(Cleaned(input).error)
    ensures r.Ok? ==> Cleaned(input).Ok? && r == ParseClean(Cleaned(input).value, vc)
    decreases |input|, 2
  {
    var t :- Cleaned(input);
    ParseClean(t, vc)
  }

  /** The constructor on the cleaned text `t`. */
  function ParseClean(t: string, vc: nat): (r: Result<(SynType, nat)>)
    ensures r.Ok? ==> r.value.1 >= vc && r.value.0.WellFormed()
    ensures r.Ok? ==> (r.value.0.Func? <==> HasSlash(t))
    ensures r.Ok? ==> r.value.0.typestring == t + r.value.0.gap.Suffix()
    ensures r.Ok? ==> (r.value.0.gap.LambdaGap? <==> 'l' in t)
    ensures r.Ok? ==> (r.value.0.gap.VariableGap? <==> 'v' in t && 'l' !in t)
    ensures r.Ok? && !r.value.0.gap.NoGap? ==> r.value.0.gap.varname == NatToString(r.value.1)
    ensures r.Ok? && r.value.0.gap.LambdaGap? ==> r.value.1 > vc
    ensures HasSlash(t) && TopSlash(t).Err? ==> r == Err(TopSlash(t).error)
    decreases |t|, 1
  {
    if HasSlash(t) then
      var split :- TopSlash(t);
      var parts :- ParseParts(t, split.0, vc);
      Ok(Tag(Func(t, NoGap, split.1, parts.0, parts.1), parts.2))
    else
      Ok(Tag(Atom(t, NoGap), vc))
  }

  /**
   * The two recursive constructions either side of the slash at `j`: `left` from the
   * text before it, then `right` from the text after it with the counter `left` leaves.
   */
  function ParseParts(t: string, j: nat, vc: nat): (r: Result<(SynType, SynType, nat)>)
    requires j < |t|
    ensures r.Ok? ==> r.value.2 >= vc && r.value.0.WellFormed() && r.value.1.WellFormed()
    decreases |t|, 0
  {
    var left :- ParseType(t[..j], vc);
    var right :- ParseType(t[j + 1..], left.1);
    Ok((left.0, right.0, right.1))
  }

  /** `left` parses from the text before `j`, then `right` from the text after it. */
  predicate SplitAt(t: string, j: nat, vc: nat, T: SynType)
    requires j < |t| && T.Func?
  {
    var left := ParseType(t[..j], vc);
    left.Ok? && left.value.0 == T.left
    && var right := ParseType(t[j + 1..], left.value.1);
    right.Ok? && right.value.0 == T.right
  }

  /**
   * A function category is split at the first slash at depth 0: `left` is parsed from
   * the text before it and `right` from the text after it, in that order, and `top`
   * and `bottom` follow the slash's direction.
   */
  lemma ParseSplit(input: string, vc: nat, t: string, T: SynType, vc': nat)
    requires Cleaned(input) == Ok(t) && ParseType(input, vc) == Ok((T, vc')) && T.Func?
    ensures TopSlash(t).Ok? && TopSlash(t).value.1 == T.slash
    ensures SplitAt(t, TopSlash(t).value.0, vc, T)
    ensures T.slash == RightSlash ==> T.Top() == T.left && T.Bottom() == T.right
    ensures T.slash == LeftSlash ==> T.Top() == T.right && T.Bottom() == T.left
  {
    assert ParseClean(t, vc) == Ok((T, vc'));
    assert HasSlash(t);
    var j := TopSlash(t).value.0;
    var parts := ParseParts(t, j, vc);
    assert parts.Ok? && parts.value.0 == T.left && parts.value.1 == T.right;
  }

  /**
   * The constructor itself: the slash-search loop (`FindTopSlash`) and the two
   * recursive constructions, threading `varcounter`.
   */
  method NewSyntacticType(input: string, vc: nat) returns (r: Result<(SynType, nat)>)
    ensures r == ParseType(input, vc)
    decreases |input|, 1
  {
    var cleaned := Cleaned(input);
    if cleaned.Err? {
      return Err(cleaned.error);
    }
    var t := cleaned.value;
    var node: SynType;
    var counter := vc;
    if '\\' in t || '/' in t {
      var split := FindTopSlash(t);
      if split.Err? {
        return Err(split.error);
      }
      var parts := NewParts(t, split.value.0, counter);
      if parts.Err? {
        return Err(parts.error);
      }
      node := Func(t, NoGap, split.value.1, parts.value.0, parts.value.1);
      counter := parts.value.2;
    } else {
      node := Atom(t, NoGap);
    }
    r := Ok(Tag(node, counter));
  }

  /** The two recursive constructions either side of the slash at `j`. */
  method NewParts(t: string, j: nat, vc: nat) returns (r: Result<(SynType, SynType, nat)>)
    requires j < |t|
    ensures r == ParseParts(t, j, vc)
    decreases |t|, 0
  {
    var left := NewSyntacticType(t[..j], vc);
    if left.Err? {
      return Err(left.error);
    }
    var right := NewSyntacticType(t[j + 1..], left.value.1);
    if right.Err? {
      return Err(right.error);
    }
    return Ok((left.value.0, right.value.0, right.value.1));
  }

  /**
   * `SyntacticType.__eq__`: unless both are function categories the texts are
   * compared; two function categories are equal when their `left` and `right` parts
   * are, whatever their slashes.
   */
  predicate Eq(a: SynType, b: SynType) {
    if !(a.Func? && b.Func?) then a.typestring == b.typestring
    else Eq(a.left, b.left) && Eq(a.right, b.right)
  }

  lemma {:induction false} EqReflexive(a: SynType)
    ensures Eq(a, a)
  {
    if a.Func? {
      EqReflexive(a.left);
      EqReflexive(a.right);
    }
  }

  lemma {:induction false} EqSymmetric(a: SynType, b: SynType)
    ensures Eq(a, b) == Eq(b, a)
  {
    if a.Func? && b.Func? {
      EqSymmetric(a.left, b.left);
      EqSymmetric(a.right, b.right);
    }
  }

  /** On well-formed categories a function category never equals an atom. */
  lemma EqFunctionAtom(a: SynType, b: SynType)
    requires a.WellFormed() && b.WellFormed() && a.Func? && b.Atom?
    ensures !Eq(a, b) && !Eq(b, a)
  {
  }

  lemma {:induction false} EqTransitive(a: SynType, b: SynType, c: SynType)
    requires a.WellFormed() && b.WellFormed() && c.WellFormed()
    requires Eq(a, b) && Eq(b, c)
    ensures Eq(a, c)
  {
    if a.Func? && b.Func? && c.Func? {
      EqTransitive(a.left, b.left, c.left);
      EqTransitive(a.right, b.right, c.right);
    } else if a.Func? && b.Func? {
      EqFunctionAtom(b, c);
    } else if b.Func? && c.Func? {
      EqFunctionAtom(b, a);
    } else if a.Func? && c.Func? {
      EqFunctionAtom(a, b);
    }
  }

  /**
   * Slash direction, gaps and the text of a function category play no part in
   * equality: only the parts either side of the slash are compared.
   */
  lemma EqIgnoresDirection(a: SynType, b: SynType, sl: Slash, ts: string, g: Gap)
    requires a.Func? && b.Func?
    ensures Eq(a.(slash := sl, typestring := ts, gap := g), b) == Eq(a, b)
  {
  }

  // ---------------------------------------------------------------------------------
  // Writing a category back as text, and reading it again.

  /** Characters an atom name may use: no parenthesis, slash, space, `l` or `v`. */
  predicate NameChar(c: char) {
    c !in "()\\/ lv"
  }

  predicate AtomName(a: string) {
    |a| > 0 && forall k :: 0 <= k < |a| ==> NameChar(a[k])
  }

  /** The text of a category as an argument of a slash: functions in parentheses. */
  function Wrap(T: SynType): string {
    if T.Atom? then T.typestring else "(" + T.typestring + ")"
  }

  /**
   * A gap-free category whose every text is the canonical writing of its parts:
   * `Wrap(left) + slash + Wrap(right)`.
   */
  predicate Canonical(T: SynType) {
    match T
    case Atom(ts, g) => g == NoGap && AtomName(ts)
    case Func(ts, g, sl, l, r) =>
      g == NoGap && Canonical(l) && Canonical(r) && ts == Wrap(l) + [SlashChar(sl)] + Wrap(r)
  }

  /** No spaces and nothing that makes a gap. */
  predicate PlainText(s: string) {
    forall k :: 0 <= k < |s| ==> s[k] !in " lv"
  }

  /** Every prefix has non-negative depth and the whole text is balanced. */
  predicate Balanced(s: string) {
    (forall k :: 0 <= k <= |s| ==> Depth(s, 0, k) >= 0) && Depth(s, 0, |s|) == 0
  }

  lemma {:induction false} CanonicalText(T: SynType)
    requires Canonical(T)
    ensures |T.typestring| > 0 && PlainText(T.typestring) && Balanced(T.typestring)
    ensures PlainText(Wrap(T)) && Balanced(Wrap(T))
    ensures T.Atom? ==> NameChar(T.typestring[0]) && !HasSlash(T.typestring)
    ensures T.Func? ==> forall k :: 0 < k < |Wrap(T)| ==> Depth(Wrap(T), 0, k) > 0
  {
    var s := T.typestring;
    if T.Atom? {
      AtomDepth(s, |s|);
      forall k | 0 <= k <= |s| ensures Depth(s, 0, k) >= 0 {
        AtomDepth(s, k);
      }
    } else {
      CanonicalText(T.left);
      CanonicalText(T.right);
      var l, c, r := Wrap(T.left), [SlashChar(T.slash)], Wrap(T.right);
      SlashText(T.slash);
      ConcatBalanced(l, c);
      ConcatBalanced(l + c, r);
      assert s == l + c + r;
      WrapDepth(s);
      WrapPlain(s);
    }
  }

  /** A slash on its own is plain and balanced. */
  lemma SlashText(sl: Slash)
    ensures PlainText([SlashChar(sl)]) && Balanced([SlashChar(sl)])
  {
    var c := [SlashChar(sl)];
    assert Depth(c, 0, 1) == 0 && Depth(c, 0, 0) == 0;
  }

  /** Parentheses add no space and nothing that makes a gap. */
  lemma WrapPlain(s: string)
    requires PlainText(s)
    ensures PlainText("(" + s + ")")
  {
  }

  lemma ConcatBalanced(a: string, b: string)
    requires Balanced(a) && Balanced(b) && PlainText(a) && PlainText(b)
    ensures Balanced(a + b) && PlainText(a + b)
  {
    forall k | 0 <= k <= |a + b| ensures Depth(a + b, 0, k) >= 0 {
      if k <= |a| {
        DepthPrefix(a, b, k);
      } else {
        DepthConcat(a, b, k - |a|);
      }
    }
    DepthConcat(a, b, |b|);
  }

  /** An atom name has no parentheses, so its depth is zero throughout. */
  lemma {:induction false} AtomDepth(s: string, k: nat)
    requires AtomName(s) && k <= |s|
    ensures Depth(s, 0, k) == 0
  {
    if k > 0 {
      AtomDepth(s, k - 1);
    }
  }

  /** Parenthesising a balanced text keeps it open until the final parenthesis. */
  lemma WrapDepth(s: string)
    requires Balanced(s)
    ensures Balanced("(" + s + ")")
    ensures forall k :: 0 < k < |s| + 2 ==> Depth("(" + s + ")", 0, k) > 0
  {
    var w := "(" + s + ")";
    assert w == "(" + (s + ")");
    assert Depth("(", 0, 1) == 1;
    forall k | 0 < k <= |s| + 1 ensures Depth(w, 0, k) == 1 + Depth(s, 0, k - 1) {
      DepthConcat("(", s + ")", k - 1);
      DepthPrefix(s, ")", k - 1);
    }
    DepthConcat("(", s + ")", |s| + 1);
    DepthConcat(s, ")", 1);
    assert Depth(")", 0, 1) == -1;
  }

  /** A text without spaces is left alone by `replace(' ', '')`. */
  lemma NoSpaces(s: string)
    requires PlainText(s)
    ensures Replace(s, " ", "") == s
  {
    CharSubstring(' ', s);
    ReplaceAbsent(s, " ", "");
  }

  /** `stripbrackets` leaves a canonical text alone and unwraps a parenthesised one. */
  lemma StripCanonical(T: SynType)
    requires Canonical(T)
    ensures StripBrackets(T.typestring) == Ok(T.typestring)
    ensures StripBrackets(Wrap(T)) == Ok(T.typestring)
  {
    StripCanonicalBare(T);
    if T.Func? {
      StripCanonicalWrapped(T);
    }
  }

  /** A canonical text does not start with a group that closes at its end. */
  lemma StripCanonicalBare(T: SynType)
    requires Canonical(T)
    ensures StripBrackets(T.typestring) == Ok(T.typestring)
  {
    var s := T.typestring;
    if T.Func? && T.left.Func? {
      LeftGroupCloses(T);
    } else if T.Func? {
      assert s[0] == T.left.typestring[0];
    }
    StripBracketsKeeps(s);
  }

  /** The group a function category's text opens with is its parenthesised left part. */
  lemma LeftGroupCloses(T: SynType)
    requires Canonical(T) && T.Func? && T.left.Func?
    ensures T.typestring[0] == '(' && MatchingClose(T.typestring, 0) == Some(|Wrap(T.left)| - 1)
    ensures |Wrap(T.left)| < |T.typestring|
  {
    var w := Wrap(T.left);
    var rest := [SlashChar(T.slash)] + Wrap(T.right);
    CanonicalSplit(T);
    CanonicalText(T.left);
    MatchingClosePrefix(w, rest);
  }

  /** The parentheses `Wrap` puts around a function category match each other. */
  lemma StripCanonicalWrapped(T: SynType)
    requires Canonical(T) && T.Func?
    ensures StripBrackets(Wrap(T)) == Ok(T.typestring)
  {
    CanonicalText(T);
    var u := Wrap(T);
    MatchingClosePrefix(u, "");
    assert u + "" == u;
    assert u[1..|u| - 1] == T.typestring;
  }

  /** In a function category's text the slash after its left part is the first at depth 0. */
  lemma TopSlashCanonical(T: SynType)
    requires Canonical(T) && T.Func?
    ensures TopSlash(T.typestring) == Ok((|Wrap(T.left)|, T.slash))
  {
    var s := T.typestring;
    var w := Wrap(T.left);
    CanonicalSplit(T);
    forall k | 0 <= k < |w| ensures !TopLevelSlash(s, k) {
      LeftPartNoSlash(T, k);
    }
    assert ScanDepth(s, |w|) == 0 by {
      LeftPartScan(T, |w|);
      CanonicalText(T.left);
    }
    assert s[|w|] == SlashChar(T.slash);
    TopSlashAt(s, |w|, T.slash);
    assert TopSlash(s) == Ok((|w|, T.slash));
  }

  /** A function category's canonical text is its left part, its slash and the rest. */
  lemma CanonicalSplit(T: SynType)
    requires Canonical(T) && T.Func?
    ensures T.typestring == Wrap(T.left) + ([SlashChar(T.slash)] + Wrap(T.right))
  {
    var l, c, r := Wrap(T.left), [SlashChar(T.slash)], Wrap(T.right);
    assert T.typestring == l + c + r;
    Assoc(l, c, r);
  }

  /** The search finds a depth-0 slash with none before it. */
  lemma TopSlashAt(s: string, m: nat, sl: Slash)
    requires m < |s| && s[m] == SlashChar(sl) && ScanDepth(s, m) == 0
    requires forall k :: 0 <= k < m ==> !TopLevelSlash(s, k)
    ensures TopSlash(s) == Ok((m, sl))
  {
    TopSlashFromFirst(s, 0, m);
  }

  /** Along the left part of a function category's text the scan depth is the left part's own depth. */
  lemma LeftPartScan(T: SynType, k: nat)
    requires Canonical(T) && T.Func? && k <= |Wrap(T.left)|
    ensures ScanDepth(T.typestring, k) == Depth(Wrap(T.left), 0, k)
  {
    var s := T.typestring;
    var w := Wrap(T.left);
    var rest := [SlashChar(T.slash)] + Wrap(T.right);
    CanonicalSplit(T);
    CanonicalText(T.left);
    forall j | 0 <= j <= k ensures Depth(s, 0, j) == Depth(w, 0, j) {
      DepthPrefix(w, rest, j);
    }
    ScanDepthUnclamped(s, k);
  }

  /** No character of the left part of a function category's text is a slash at depth 0. */
  lemma LeftPartNoSlash(T: SynType, k: nat)
    requires Canonical(T) && T.Func? && k < |Wrap(T.left)|
    ensures !TopLevelSlash(T.typestring, k)
  {
    var s := T.typestring;
    var w := Wrap(T.left);
    CanonicalSplit(T);
    assert s[k] == w[k];
    if T.left.Func? && k > 0 {
      LeftPartScan(T, k);
      CanonicalText(T.left);
    }
  }

  /**
   * Round trip: the canonical text of a gap-free category, bare or parenthesised,
   * parses back to that category and leaves the counter alone.
   */
  lemma {:induction false} ParseCanonical(T: SynType, vc: nat)
    requires Canonical(T)
    ensures ParseType(T.typestring, vc) == Ok((T, vc))
    ensures ParseType(Wrap(T), vc) == Ok((T, vc))
  {
    var s := T.typestring;
    CleanCanonical(T);
    if T.Func? {
      ParseCanonical(T.left, vc);
      ParseCanonical(T.right, vc);
      PartsCanonical(T, vc);
      assert ParseClean(s, vc) == Ok(Tag(T, vc));
    } else {
      assert ParseClean(s, vc) == Ok(Tag(T, vc));
    }
    assert Tag(T, vc) == (T, vc);
  }

  /** Cleaning a canonical text, bare or parenthesised, gives the bare text, free of gaps. */
  lemma CleanCanonical(T: SynType)
    requires Canonical(T)
    ensures Cleaned(T.typestring) == Ok(T.typestring) && Cleaned(Wrap(T)) == Ok(T.typestring)
    ensures 'l' !in T.typestring && 'v' !in T.typestring
    ensures T.Atom? ==> !HasSlash(T.typestring)
  {
    CanonicalText(T);
    NoSpaces(T.typestring);
    NoSpaces(Wrap(T));
    StripCanonical(T);
  }

  /** The parts either side of a canonical function category's slash parse back to its parts. */
  lemma PartsCanonical(T: SynType, vc: nat)
    requires Canonical(T) && T.Func?
    requires ParseType(Wrap(T.left), vc) == Ok((T.left, vc))
    requires ParseType(Wrap(T.right), vc) == Ok((T.right, vc))
    ensures HasSlash(T.typestring) && TopSlash(T.typestring) == Ok((|Wrap(T.left)|, T.slash))
    ensures ParseParts(T.typestring, |Wrap(T.left)|, vc) == Ok((T.left, T.right, vc))
  {
    var s := T.typestring;
    var w := Wrap(T.left);
    TopSlashCanonical(T);
    CanonicalSplit(T);
    assert s[|w|] == SlashChar(T.slash);
    assert s[..|w|] == w && s[|w| + 1..] == Wrap(T.right);
  }

  /** The texts `s/dp` and `s\dp` give different categories that are nonetheless equal. */
  lemma DirectionNotCompared()
    ensures ParseType("s/dp", 0) == Ok((Func("s/dp", NoGap, RightSlash, Atom("s", NoGap), Atom("dp", NoGap)), 0))
    ensures ParseType("s\\dp", 0) == Ok((Func("s\\dp", NoGap, LeftSlash, Atom("s", NoGap), Atom("dp", NoGap)), 0))
    ensures Eq(Func("s/dp", NoGap, RightSlash, Atom("s", NoGap), Atom("dp", NoGap)),
               Func("s\\dp", NoGap, LeftSlash, Atom("s", NoGap), Atom("dp", NoGap)))
  {
    var s := Atom("s", NoGap);
    var dp := Atom("dp", NoGap);
    assert AtomName("s") && AtomName("dp");
    var a := Func("s/dp", NoGap, RightSlash, s, dp);
    var b := Func("s\\dp", NoGap, LeftSlash, s, dp);
    assert Canonical(a) && Canonical(b);
    ParseCanonical(a, 0);
    ParseCanonical(b, 0);
  }
}
