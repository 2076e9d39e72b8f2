/**
 * What `reducestring` and `Denotation.__eq__` (sequent.py) compute, over every term
 * text that is built from plain characters and numbered variables `<id>`.
 *
 * Such a text is a list of pieces.  The reference renaming walks it once, left to
 * right: the k-th distinct variable met becomes `{k}`, and every later occurrence of
 * it becomes the same `{k}`.  The source's loop instead repeatedly finds the first
 * `<…>` left and replaces all its occurrences at once; `ReduceCanonical` proves the
 * two agree.  From that, `EqMeaning` says what term equality means, and
 * `EqRenamed` proves it is invariant under every one-to-one renaming of variables.
 */
module Renaming {
  import opened Outcomes
  import opened PyStr
  import T = Terms

  /** A piece of a term's text: a character, a variable `<id>`, or a renamed `{n}`. */
  datatype Piece = Plain(c: char) | Var(id: string) | Slot(n: nat)

  function PieceText(p: Piece): string {
    match p
    case Plain(c) => [c]
    case Var(id) => "<" + id + ">"
    case Slot(n) => T.Placeholder(n)
  }

  function Text(ps: seq<Piece>): string {
    if |ps| == 0 then "" else PieceText(ps[0]) + Text(ps[1..])
  }

  /** An identifier that cannot end early: no angle bracket inside. */
  predicate Ident(id: string) {
    '<' !in id && '>' !in id
  }

  /** A character is never an angle bracket, a variable's name holds none. */
  predicate PieceOk(p: Piece) {
    match p
    case Plain(c) => c != '<' && c != '>'
    case Var(id) => Ident(id)
    case Slot(_) => true
  }

  /** Angle brackets appear only around variables. */
  predicate WellFormed(ps: seq<Piece>) {
    forall k :: 0 <= k < |ps| ==> PieceOk(ps[k])
  }

  /** How many variable pieces are left. */
  function Vars(ps: seq<Piece>): nat {
    if |ps| == 0 then 0 else (if ps[0].Var? then 1 else 0) + Vars(ps[1..])
  }

  /** Where `id` stands in the list of variables already met. */
  function IndexIn(seen: seq<string>, id: string): (k: nat)
    requires id in seen
    ensures k < |seen| && seen[k] == id && id !in seen[..k]
  {
    if seen[0] == id then 0
    else
      var k := IndexIn(seen[1..], id);
      assert seen[..k + 1] == [seen[0]] + seen[1..][..k];
      k + 1
  }

  /**
   * The reference renaming, with the variables `seen` already numbered `{0}`… in
   * that order: a variable met before keeps its number, a new one takes the next.
   */
  function CanonFrom(ps: seq<Piece>, seen: seq<string>): seq<Piece> {
    if |ps| == 0 then []
    else match ps[0]
      case Var(id) =>
        if id in seen then [Slot(IndexIn(seen, id))] + CanonFrom(ps[1..], seen)
        else [Slot(|seen|)] + CanonFrom(ps[1..], seen + [id])
      case _ => [ps[0]] + CanonFrom(ps[1..], seen)
  }

  /** Variables numbered `{0}`, `{1}`, … in order of first appearance. */
  function Canon(ps: seq<Piece>): (r: seq<Piece>)
    ensures Vars(r) == 0
  {
    CanonNoVars(ps, []);
    CanonFrom(ps, [])
  }

  lemma {:induction false} CanonNoVars(ps: seq<Piece>, seen: seq<string>)
    ensures Vars(CanonFrom(ps, seen)) == 0
    decreases |ps|
  {
    if |ps| > 0 {
      var next := if ps[0].Var? && ps[0].id !in seen then seen + [ps[0].id] else seen;
      CanonNoVars(ps[1..], next);
      var r := CanonFrom(ps, seen);
      assert r[1..] == CanonFrom(ps[1..], next);
      assert !r[0].Var?;
    }
  }

  /** Every variable `id` becomes the slot `{n}`. */
  function Fill(ps: seq<Piece>, id: string, n: nat): (r: seq<Piece>)
    ensures |r| == |ps|
  {
    if |ps| == 0 then []
    else [if ps[0] == Var(id) then Slot(n) else ps[0]] + Fill(ps[1..], id, n)
  }

  // ---------------------------------------------------------------------------------
  // Text facts.

  lemma {:induction false} TextAppend(a: seq<Piece>, b: seq<Piece>)
    ensures Text(a + b) == Text(a) + Text(b)
    decreases |a|
  {
    if |a| > 0 {
      assert (a + b)[0] == a[0] && (a + b)[1..] == a[1..] + b;
      TextAppend(a[1..], b);
      calc {
        Text(a + b);
        PieceText(a[0]) + Text(a[1..] + b);
        PieceText(a[0]) + (Text(a[1..]) + Text(b));
        (PieceText(a[0]) + Text(a[1..])) + Text(b);
      }
    } else {
      assert a + b == b;
    }
  }

  lemma PlaceholderFree(n: nat)
    ensures '<' !in T.Placeholder(n) && '>' !in T.Placeholder(n)
    ensures |T.Placeholder(n)| > 0 && T.Placeholder(n)[0] == '{'
  {
    var digits := NatToString(n);
    assert forall k :: 0 <= k < |digits| ==> IsDigit(digits[k]);
    assert T.Placeholder(n) == "{" + digits + "}";
  }

  /** Without variables there is no `<`, and the renaming changes nothing. */
  lemma {:induction false} NoVarsText(ps: seq<Piece>, seen: seq<string>)
    requires WellFormed(ps) && Vars(ps) == 0
    ensures '<' !in Text(ps) && CanonFrom(ps, seen) == ps
    decreases |ps|
  {
    if |ps| > 0 {
      NoVarsText(ps[1..], seen);
      if ps[0].Slot? {
        PlaceholderFree(ps[0].n);
      }
      assert '<' !in PieceText(ps[0]);
    }
  }

  /** The first variable piece, if there is one. */
  function FirstVar(ps: seq<Piece>): (f: nat)
    requires Vars(ps) > 0
    ensures f < |ps| && ps[f].Var? && forall k :: 0 <= k < f ==> !ps[k].Var?
  {
    if ps[0].Var? then 0 else FirstVar(ps[1..]) + 1
  }

  /** Text before the first variable holds no angle bracket. */
  lemma PrefixFree(ps: seq<Piece>, f: nat)
    requires WellFormed(ps) && f <= |ps| && forall k :: 0 <= k < f ==> !ps[k].Var?
    ensures '<' !in Text(ps[..f]) && '>' !in Text(ps[..f])
  {
    FreeText(ps[..f]);
  }

  /** Well-formed pieces none of which is a variable spell no angle bracket. */
  lemma {:induction false} FreeText(qs: seq<Piece>)
    requires forall k :: 0 <= k < |qs| ==> PieceOk(qs[k]) && !qs[k].Var?
    ensures '<' !in Text(qs) && '>' !in Text(qs)
    decreases |qs|
  {
    if |qs| > 0 {
      FreeText(qs[1..]);
      if qs[0].Slot? {
        PlaceholderFree(qs[0].n);
      }
    }
  }

  /** The text around the first variable. */
  lemma TextAround(ps: seq<Piece>, f: nat)
    requires f < |ps| && ps[f].Var?
    ensures Text(ps) == Text(ps[..f]) + ("<" + ps[f].id + ">") + Text(ps[f + 1..])
  {
    assert ps == ps[..f] + ps[f..];
    TextAppend(ps[..f], ps[f..]);
    assert ps[f..][1..] == ps[f + 1..];
  }

  /**
   * In a well-formed text with a variable, the loop's first `<` is the first
   * variable's, its `>` closes it, and the pattern is that variable.
   */
  lemma FirstPattern(ps: seq<Piece>)
    requires WellFormed(ps) && Vars(ps) > 0
    ensures var s := Text(ps);
            '<' in s && T.RightIndex(s) >= 0 && T.FirstVariable(s) == "<" + ps[FirstVar(ps)].id + ">"
  {
    var f := FirstVar(ps);
    PrefixFree(ps, f);
    TextAround(ps, f);
    assert PieceOk(ps[f]);
    FirstAt(Text(ps), Text(ps[..f]), ps[f].id, Text(ps[f + 1..]));
  }

  /** The same on the text: `pre` free of `<`, then the variable `<id>`. */
  lemma FirstAt(s: string, pre: string, id: string, post: string)
    requires s == pre + ("<" + id + ">") + post && '<' !in pre && Ident(id)
    ensures '<' in s && T.RightIndex(s) >= 0 && T.FirstVariable(s) == "<" + id + ">"
  {
    LeftAt(s, pre, id, post);
    RightAt(s, pre, id, post);
    var p := |pre|;
    assert s[p + 1..p + |id| + 1] == id;
  }

  lemma LeftAt(s: string, pre: string, id: string, post: string)
    requires s == pre + ("<" + id + ">") + post && '<' !in pre
    ensures '<' in s && T.LeftIndex(s) == |pre|
  {
    var p := |pre|;
    assert s[p] == '<';
    var left := T.LeftIndex(s);
    assert s[..p] == pre;
  }

  lemma RightAt(s: string, pre: string, id: string, post: string)
    requires s == pre + ("<" + id + ">") + post && '<' !in pre && Ident(id)
    requires '<' in s && T.LeftIndex(s) == |pre|
    ensures T.RightIndex(s) == |pre| + |id| + 1
  {
    var p := |pre|;
    var close := p + |id| + 1;
    assert s[close..close + 1] == ">";
    assert s[p..close] == "<" + id;
    forall j: nat | p <= j < close ensures !OccursAt(s, ">", j) {
      assert s[j..j + 1][0] == s[p..close][j - p] == ("<" + id)[j - p];
      if j > p {
        assert ("<" + id)[j - p] == id[j - p - 1];
      }
    }
    FindFromAt(s, ">", p, close);
  }

  // ---------------------------------------------------------------------------------
  // Replacing one variable in the text.

  /** Text free of `<` passes through a replacement whose pattern starts with `<`. */
  lemma {:induction false} ReplaceFree(h: string, rest: string, pat: string, repl: string)
    requires |pat| > 0 && pat[0] == '<' && '<' !in h
    ensures Replace(h + rest, pat, repl) == h + Replace(rest, pat, repl)
    decreases |h|
  {
    if |h| > 0 {
      assert h + rest == [h[0]] + (h[1..] + rest);
      ReplaceMiss(h[0], h[1..] + rest, pat, repl);
      ReplaceFree(h[1..], rest, pat, repl);
      assert h == [h[0]] + h[1..];
    } else {
      assert h + rest == rest;
    }
  }

  /** Another variable `<y>` is not an occurrence of `<x>`. */
  lemma OtherVarMiss(x: string, y: string, rest: string, repl: string)
    requires Ident(x) && Ident(y) && x != y
    ensures Replace("<" + y + ">" + rest, "<" + x + ">", repl) == "<" + y + ">" + Replace(rest, "<" + x + ">", repl)
  {
    var pat := "<" + x + ">";
    var tail := (y + ">") + rest;
    var s := "<" + y + ">" + rest;
    assert s == ['<'] + tail;
    assert Replace(s, pat, repl) == ['<'] + Replace(tail, pat, repl) by {
      if |s| >= |pat| {
        VarPrefixDiffers(x, y, rest);
        ReplaceNotHere(s, pat, repl);
        assert s[1..] == tail;
      }
    }
    ReplaceFree(y + ">", rest, pat, repl);
    assert ['<'] + ((y + ">") + Replace(rest, pat, repl)) == "<" + y + ">" + Replace(rest, pat, repl);
  }

  /** Where the pattern does not start, the first character is kept. */
  lemma ReplaceNotHere(s: string, pat: string, repl: string)
    requires 0 < |pat| <= |s| && s[..|pat|] != pat
    ensures Replace(s, pat, repl) == [s[0]] + Replace(s[1..], pat, repl)
  {
  }

  /** `<y>…` does not start with `<x>`. */
  lemma VarPrefixDiffers(x: string, y: string, rest: string)
    requires Ident(x) && Ident(y) && x != y
    requires |"<" + y + ">" + rest| >= |x| + 2
    ensures var s := "<" + y + ">" + rest;
            s[0] == '<' && s[..|x| + 2] != "<" + x + ">"
  {
    var s := "<" + y + ">" + rest;
    var pat := "<" + x + ">";
    if |x| < |y| {
      assert s[|x| + 1] == y[|x|] && pat[|x| + 1] == '>';
    } else if |x| > |y| {
      assert s[|y| + 1] == '>' && pat[|y| + 1] == x[|y|];
    } else {
      assert s[1..|x| + 1] == y && pat[1..|x| + 1] == x;
    }
  }

  /** One piece under the replacement of `<x>` by `{n}`. */
  lemma ReplacePiece(p: Piece, rest: string, x: string, n: nat)
    requires PieceOk(p) && Ident(x)
    ensures var pat := "<" + x + ">";
            Replace(PieceText(p) + rest, pat, T.Placeholder(n))
            == PieceText(if p == Var(x) then Slot(n) else p) + Replace(rest, pat, T.Placeholder(n))
  {
    var pat := "<" + x + ">";
    match p
    case Plain(c) =>
      ReplaceMiss(c, rest, pat, T.Placeholder(n));
    case Slot(m) =>
      PlaceholderFree(m);
      ReplaceFree(T.Placeholder(m), rest, pat, T.Placeholder(n));
    case Var(y) =>
      if y == x {
        ReplaceHit(pat, rest, T.Placeholder(n));
      } else {
        OtherVarMiss(x, y, rest, T.Placeholder(n));
      }
  }

  /** The text-level replacement of `<x>` is `Fill` on the pieces. */
  lemma {:induction false} ReplaceVar(ps: seq<Piece>, x: string, n: nat)
    requires WellFormed(ps) && Ident(x)
    ensures Replace(Text(ps), "<" + x + ">", T.Placeholder(n)) == Text(Fill(ps, x, n))
    decreases |ps|
  {
    if |ps| == 0 {
      assert Replace("", "<" + x + ">", T.Placeholder(n)) == "";
    } else {
      assert PieceOk(ps[0]);
      assert WellFormed(ps[1..]) by {
        forall k | 0 <= k < |ps| - 1 ensures ps[1..][k] == ps[k + 1] { }
      }
      ReplacePiece(ps[0], Text(ps[1..]), x, n);
      ReplaceVar(ps[1..], x, n);
      assert Fill(ps, x, n)[1..] == Fill(ps[1..], x, n);
    }
  }

  // ---------------------------------------------------------------------------------
  // The loop against the reference.

  predicate Fresh(ps: seq<Piece>, seen: seq<string>) {
    forall k :: 0 <= k < |ps| && ps[k].Var? ==> ps[k].id !in seen
  }

  lemma {:induction false} FillWellFormed(ps: seq<Piece>, x: string, n: nat, seen: seq<string>)
    requires WellFormed(ps) && Fresh(ps, seen)
    ensures WellFormed(Fill(ps, x, n)) && Fresh(Fill(ps, x, n), seen + [x])
    decreases |ps|
  {
    if |ps| > 0 {
      FillWellFormed(ps[1..], x, n, seen);
      var r := Fill(ps, x, n);
      assert r[1..] == Fill(ps[1..], x, n);
      forall k | 0 <= k < |r| ensures PieceOk(r[k])
      {
        if k > 0 { assert r[k] == r[1..][k - 1]; }
      }
      forall k | 0 <= k < |r| && r[k].Var? ensures r[k].id !in seen + [x] {
        if k > 0 { assert r[k] == r[1..][k - 1]; }
      }
    }
  }

  /** Filling the `x` gaps with `{n}` takes at least one variable away. */
  lemma {:induction false} FillVars(ps: seq<Piece>, x: string, n: nat)
    ensures Vars(Fill(ps, x, n)) <= Vars(ps)
    ensures (exists k :: 0 <= k < |ps| && ps[k] == Var(x)) ==> Vars(Fill(ps, x, n)) < Vars(ps)
    decreases |ps|
  {
    if |ps| > 0 {
      FillVars(ps[1..], x, n);
      assert Fill(ps, x, n)[1..] == Fill(ps[1..], x, n);
      if exists k :: 0 <= k < |ps| && ps[k] == Var(x) {
        var k :| 0 <= k < |ps| && ps[k] == Var(x);
        if k > 0 {
          assert ps[1..][k - 1] == Var(x);
        }
      }
    }
  }

  /** Filling a variable the reference has already numbered `{n}` does not change the reference. */
  lemma {:induction false} CanonFill(ps: seq<Piece>, seen: seq<string>, x: string)
    requires x in seen
    ensures CanonFrom(Fill(ps, x, IndexIn(seen, x)), seen) == CanonFrom(ps, seen)
    decreases |ps|
  {
    if |ps| > 0 {
      var n := IndexIn(seen, x);
      var f := Fill(ps, x, n);
      assert f[1..] == Fill(ps[1..], x, n);
      if ps[0].Var? && ps[0].id !in seen {
        var y := ps[0].id;
        IndexInAppend(seen, y, x);
        CanonFill(ps[1..], seen + [y], x);
      } else {
        CanonFill(ps[1..], seen, x);
      }
    }
  }

  /** A position with the identifier and none before it is where `IndexIn` finds it. */
  lemma IndexUnique(seen: seq<string>, x: string, k: nat)
    requires k < |seen| && seen[k] == x && x !in seen[..k]
    ensures IndexIn(seen, x) == k
  {
    var k' := IndexIn(seen, x);
  }

  lemma IndexInAppend(seen: seq<string>, y: string, x: string)
    requires x in seen
    ensures x in seen + [y] && IndexIn(seen + [y], x) == IndexIn(seen, x)
  {
    var k := IndexIn(seen, x);
    assert (seen + [y])[..k] == seen[..k];
    IndexUnique(seen + [y], x, k);
  }

  /** Before its first variable `x`, with `x` new, adding `x` to the list changes nothing. */
  lemma {:induction false} CanonFirst(ps: seq<Piece>, seen: seq<string>)
    requires Vars(ps) > 0 && ps[FirstVar(ps)].id !in seen
    ensures var x := ps[FirstVar(ps)].id;
            x in seen + [x] && IndexIn(seen + [x], x) == |seen|
            && CanonFrom(ps, seen + [x]) == CanonFrom(ps, seen)
    decreases |ps|
  {
    var x := ps[FirstVar(ps)].id;
    assert (seen + [x])[|seen|] == x;
    assert (seen + [x])[..|seen|] == seen;
    IndexUnique(seen + [x], x, |seen|);
    if !ps[0].Var? {
      assert FirstVar(ps) == FirstVar(ps[1..]) + 1;
      CanonFirst(ps[1..], seen);
    }
  }

  /**
   * The source's loop from the state `(Text(ps), |seen|)`, where the variables
   * `seen` were renamed already and none is left in `ps`, ends with the reference.
   */
  lemma {:induction false} ReduceFromCanon(ps: seq<Piece>, seen: seq<string>)
    requires WellFormed(ps) && Fresh(ps, seen)
    ensures T.ReduceFrom(Text(ps), |seen|) == Ok(Text(CanonFrom(ps, seen)))
    decreases Vars(ps)
  {
    if Vars(ps) == 0 {
      NoVarsText(ps, seen);
    } else {
      var x := ps[FirstVar(ps)].id;
      var n := |seen|;
      var filled := Fill(ps, x, n);
      OneStep(ps, n);
      FillWellFormed(ps, x, n, seen);
      FillVars(ps, x, n);
      ReduceFromCanon(filled, seen + [x]);
      CanonFirst(ps, seen);
      CanonFill(ps, seen + [x], x);
    }
  }

  /** One pass of the loop fills the first variable's occurrences with `{n}`. */
  lemma OneStep(ps: seq<Piece>, n: nat)
    requires WellFormed(ps) && Vars(ps) > 0
    ensures var x := ps[FirstVar(ps)].id;
            T.ReduceFrom(Text(ps), n) == T.ReduceFrom(Text(Fill(ps, x, n)), n + 1)
  {
    var s := Text(ps);
    var x := ps[FirstVar(ps)].id;
    FirstPattern(ps);
    assert PieceOk(ps[FirstVar(ps)]);
    ReplaceVar(ps, x, n);
    assert T.ReduceStep(s, n) == Text(Fill(ps, x, n));
  }

  /**
   * `reducestring` on any well-formed text renames its variables `{0}`, `{1}`, … in
   * order of first appearance, every occurrence of a variable getting the same number.
   */
  lemma ReduceCanonical(ps: seq<Piece>)
    requires WellFormed(ps)
    ensures T.ReduceString(Text(ps)) == Ok(Text(Canon(ps)))
  {
    ReduceFromCanon(ps, []);
  }

  // ---------------------------------------------------------------------------------
  // Equality.

  /**
   * `Denotation.__eq__` on two well-formed texts never fails, and holds exactly when
   * the texts are the same, or the first has a variable and both rename to the same text.
   */
  lemma EqMeaning(a: T.Den, b: T.Den, pa: seq<Piece>, pb: seq<Piece>)
    requires WellFormed(pa) && WellFormed(pb) && a.text == Text(pa) && b.text == Text(pb)
    ensures T.Eq(a, b).Ok?
    ensures T.Eq(a, b) == Ok(true) <==>
      a.text == b.text || (Vars(pa) > 0 && Text(Canon(pa)) == Text(Canon(pb)))
  {
    ReduceCanonical(pa);
    ReduceCanonical(pb);
    if Vars(pa) > 0 {
      FirstPattern(pa);
    } else {
      NoVarsText(pa, []);
    }
  }

  /** A renaming of variables, given for every identifier of `ps`. */
  function Rename(ps: seq<Piece>, m: map<string, string>): (r: seq<Piece>)
    requires forall k :: 0 <= k < |ps| && ps[k].Var? ==> ps[k].id in m
    ensures |r| == |ps|
  {
    if |ps| == 0 then []
    else [if ps[0].Var? then Var(m[ps[0].id]) else ps[0]] + Rename(ps[1..], m)
  }

  /** The renaming sends different identifiers to different ones. */
  predicate Injective(m: map<string, string>) {
    forall x, y :: x in m && y in m && x != y ==> m[x] != m[y]
  }

  /** The list of variables met, renamed. */
  function MapAll(seen: seq<string>, m: map<string, string>): (r: seq<string>)
    requires forall k :: 0 <= k < |seen| ==> seen[k] in m
    ensures |r| == |seen| && forall k :: 0 <= k < |seen| ==> r[k] == m[seen[k]]
  {
    if |seen| == 0 then [] else [m[seen[0]]] + MapAll(seen[1..], m)
  }

  lemma RenamedIndex(seen: seq<string>, m: map<string, string>, x: string)
    requires Injective(m) && x in m && forall k :: 0 <= k < |seen| ==> seen[k] in m
    ensures (m[x] in MapAll(seen, m)) <==> x in seen
    ensures x in seen ==> IndexIn(MapAll(seen, m), m[x]) == IndexIn(seen, x)
  {
    var ms := MapAll(seen, m);
    if m[x] in ms {
      var k :| 0 <= k < |ms| && ms[k] == m[x];
      assert seen[k] == x;
    }
    if x in seen {
      var k := IndexIn(seen, x);
      forall i | 0 <= i < k ensures ms[..k][i] != m[x] {
        assert seen[..k][i] == seen[i];
      }
      IndexUnique(ms, m[x], k);
    }
  }

  lemma {:induction false} CanonRename(ps: seq<Piece>, seen: seq<string>, m: map<string, string>)
    requires Injective(m)
    requires forall k :: 0 <= k < |ps| && ps[k].Var? ==> ps[k].id in m
    requires forall k :: 0 <= k < |seen| ==> seen[k] in m
    ensures CanonFrom(Rename(ps, m), MapAll(seen, m)) == CanonFrom(ps, seen)
    decreases |ps|
  {
    if |ps| > 0 {
      var r := Rename(ps, m);
      assert r[1..] == Rename(ps[1..], m);
      assert forall k :: 0 <= k < |ps| - 1 && ps[1..][k].Var? ==> ps[1..][k].id in m by {
        forall k | 0 <= k < |ps| - 1 ensures ps[1..][k] == ps[k + 1] { }
      }
      if ps[0].Var? {
        var x := ps[0].id;
        RenamedIndex(seen, m, x);
        if x !in seen {
          assert MapAll(seen + [x], m) == MapAll(seen, m) + [m[x]];
          CanonRename(ps[1..], seen + [x], m);
        } else {
          CanonRename(ps[1..], seen, m);
        }
      } else {
        CanonRename(ps[1..], seen, m);
      }
    }
  }

  /**
   * Alpha-equivalence: a term and any one-to-one renaming of its variables to
   * identifiers are equal under `Denotation.__eq__`.
   */
  lemma EqRenamed(a: T.Den, b: T.Den, ps: seq<Piece>, m: map<string, string>)
    requires WellFormed(ps) && Injective(m) && forall x :: x in m ==> Ident(m[x])
    requires forall k :: 0 <= k < |ps| && ps[k].Var? ==> ps[k].id in m
    requires a.text == Text(ps) && b.text == Text(Rename(ps, m))
    ensures T.Eq(a, b) == Ok(true)
  {
    var qs := Rename(ps, m);
    assert WellFormed(qs) by {
      forall k | 0 <= k < |qs| ensures PieceOk(qs[k])
      {
        RenameAt(ps, m, k);
      }
    }
    CanonRename(ps, [], m);
    assert MapAll([], m) == [];
    if Vars(ps) == 0 {
      NoRename(ps, m);
    }
    EqMeaning(a, b, ps, qs);
  }

  lemma {:induction false} RenameAt(ps: seq<Piece>, m: map<string, string>, k: nat)
    requires forall i :: 0 <= i < |ps| && ps[i].Var? ==> ps[i].id in m
    requires k < |ps|
    ensures Rename(ps, m)[k] == if ps[k].Var? then Var(m[ps[k].id]) else ps[k]
    decreases k
  {
    if k > 0 {
      assert forall i :: 0 <= i < |ps| - 1 && ps[1..][i].Var? ==> ps[1..][i].id in m by {
        forall i | 0 <= i < |ps| - 1 ensures ps[1..][i] == ps[i + 1] { }
      }
      RenameAt(ps[1..], m, k - 1);
    }
  }

  lemma {:induction false} NoRename(ps: seq<Piece>, m: map<string, string>)
    requires Vars(ps) == 0
    requires forall k :: 0 <= k < |ps| && ps[k].Var? ==> ps[k].id in m
    ensures Rename(ps, m) == ps
    decreases |ps|
  {
    if |ps| > 0 {
      assert forall k :: 0 <= k < |ps| - 1 && ps[1..][k].Var? ==> ps[1..][k].id in m by {
        forall k | 0 <= k < |ps| - 1 ensures ps[1..][k] == ps[k + 1] { }
      }
      NoRename(ps[1..], m);
    }
  }
}
