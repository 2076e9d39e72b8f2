/**
 * The categories, semantic types and terms of the bottom-up Lambek parser
 * (tlg_parser.py), and its two elimination rules.  A category here has no gaps: it is
 * the cleaned text and, for a function category, its depth-0 slash and the categories
 * either side of it.  A term is its text and, unless the text has no `L`, the variable
 * and body of its first lambda; application substitutes the argument's text for the
 * variable.
 */
module Lambek {
  import opened Outcomes
  import opened PyStr
  import opened Brackets
  import C = Categories

  /** `SyntacticType`: `left` and `right` exist only for a function category. */
  datatype LType =
    | LAtom(typestring: string)
    | LFunc(typestring: string, slash: Slash, left: LType, right: LType)
  {
    function Size(): nat {
      match this
      case LAtom(_) => 1
      case LFunc(_, _, l, r) => 1 + l.Size() + r.Size()
    }
  }

  /** `SyntacticType(input)`: the exception the constructor raises, or the category. */
  function ParseLType(input: string): (r: Result<LType>)
    ensures C.Cleaned(input).Err? ==> r == Err(C.Cleaned(input).error)
    ensures r.Ok? ==> C.Cleaned(input).Ok? && r == ParseLClean(C.Cleaned(input).value)
    decreases |input|, 1
  {
    var t :- C.Cleaned(input);
    ParseLClean(t)
  }

  /** The constructor on the cleaned text `t`. */
  function ParseLClean(t: string): (r: Result<LType>)
    ensures r.Ok? ==> r.value.typestring == t && (r.value.LFunc? <==> C.HasSlash(t))
    ensures C.HasSlash(t) && TopSlash(t).Err? ==> r == Err(TopSlash(t).error)
    decreases |t|, 0
  {
    if C.HasSlash(t) then
      var split :- TopSlash(t);
      var j := split.0;
      var left :- ParseLType(t[..j]);
      var right :- ParseLType(t[j + 1..]);
      Ok(LFunc(t, split.1, left, right))
    else
      Ok(LAtom(t))
  }

  /** A category that parsing its own text gives back, as every parsed category is. */
  predicate Canon(T: LType) {
    ParseLClean(T.typestring) == Ok(T)
  }

  /** The two sides of a parsed function category are parsed categories too. */
  lemma CanonParts(T: LType)
    requires Canon(T) && T.LFunc?
    ensures Canon(T.left) && Canon(T.right)
  {
    var t := T.typestring;
    var j := TopSlash(t).value.0;
    assert ParseLType(t[..j]) == Ok(T.left);
    assert ParseLType(t[j + 1..]) == Ok(T.right);
  }

  // ---------------------------------------------------------------------------------
  // Agreement with the categories of the sequent prover.

  /** A category of the sequent prover with its gap marks forgotten. */
  function Erase(T: C.SynType): LType {
    match T
    case Atom(ts, _) => LAtom(ts)
    case Func(ts, _, sl, l, r) => LFunc(ts, sl, Erase(l), Erase(r))
  }

  /** Text with no letter that makes the sequent prover's constructor tag a gap. */
  predicate GapFree(s: string) {
    'l' !in s && 'v' !in s
  }

  lemma CleanedGapFree(input: string)
    requires GapFree(input)
    ensures C.Cleaned(input).Ok? ==> GapFree(C.Cleaned(input).value)
  {
    var u := Replace(input, " ", "");
    CountReplace('l', input, " ", "");
    CountReplace('v', input, " ", "");
    CountZero('l', input);
    CountZero('v', input);
    CountZero('l', u);
    CountZero('v', u);
    assert GapFree(u);
    if StripBrackets(u).Ok? && StripBrackets(u).value != u {
      assert StripBrackets(u).value == u[1..|u| - 1];
    }
  }

  /**
   * On text without `l` or `v` both parsers' constructors see the same thing: they
   * fail alike, or the sequent prover's category with its (absent) gap marks forgotten
   * is this parser's, and `varcounter` is left alone.
   */
  lemma {:induction false} ParsersAgree(input: string, vc: nat)
    requires GapFree(input)
    ensures ParseLType(input) == (match C.ParseType(input, vc)
                                  case Ok(p) => Ok(Erase(p.0))
                                  case Err(e) => Err(e))
    ensures C.ParseType(input, vc).Ok? ==> C.ParseType(input, vc).value.1 == vc
    decreases |input|, 1
  {
    CleanedGapFree(input);
    if C.Cleaned(input).Ok? {
      ParsersAgreeClean(C.Cleaned(input).value, vc);
    }
  }

  lemma {:induction false} ParsersAgreeClean(t: string, vc: nat)
    requires GapFree(t)
    ensures ParseLClean(t) == (match C.ParseClean(t, vc)
                               case Ok(p) => Ok(Erase(p.0))
                               case Err(e) => Err(e))
    ensures C.ParseClean(t, vc).Ok? ==> C.ParseClean(t, vc).value.1 == vc
    decreases |t|, 0
  {
    if C.HasSlash(t) && TopSlash(t).Ok? {
      var j := TopSlash(t).value.0;
      assert GapFree(t[..j]) && GapFree(t[j + 1..]);
      ParsersAgree(t[..j], vc);
      if C.ParseType(t[..j], vc).Ok? {
        ParsersAgree(t[j + 1..], vc);
      }
    }
  }

  // ---------------------------------------------------------------------------------
  // Elimination.

  /** `leftelimination(type1, type2)`: `type1` then `type1\x` gives `x`, else `None`. */
  function LeftElimination(t1: LType, t2: LType): (r: Option<LType>)
    ensures r.Some? <==> t2.LFunc? && t2.slash == LeftSlash && t2.left.typestring == t1.typestring
    ensures r.Some? ==> r.value == t2.right && r.value.Size() < t2.Size()
  {
    if t2.LFunc? && t2.slash == LeftSlash && t2.left.typestring == t1.typestring then Some(t2.right)
    else None
  }

  /** `rightelimination(type1, type2)`: `x/type2` then `type2` gives `x`, else `None`. */
  function RightElimination(t1: LType, t2: LType): (r: Option<LType>)
    ensures r.Some? <==> t1.LFunc? && t1.slash == RightSlash && t1.right.typestring == t2.typestring
    ensures r.Some? ==> r.value == t1.left && r.value.Size() < t1.Size()
  {
    if t1.LFunc? && t1.slash == RightSlash && t1.right.typestring == t2.typestring then Some(t1.left)
    else None
  }

  // ---------------------------------------------------------------------------------
  // Semantic types.

  /** `Semantictype`: an atom's entry in the table, or a function from `argument` to `goal`. */
  datatype SemType = SemAtom(name: string) | SemFunc(argument: SemType, goal: SemType)
  {
    /** `typestring`, which `==` compares. */
    function TypeString(): string {
      match this
      case SemAtom(n) => n
      case SemFunc(a, g) => "(" + a.TypeString() + "," + g.TypeString() + ")"
    }
  }

  /** `semantictypelist`. */
  const SemanticTypeList: map<string, string> := map["dp" := "e", "s" := "t", "n" := "(e;t)"]

  /** Every atom of the category has an entry in `semantictypelist`. */
  predicate AtomsListed(T: LType) {
    match T
    case LAtom(ts) => ts in SemanticTypeList
    case LFunc(_, _, l, r) => AtomsListed(l) && AtomsListed(r)
  }

  /**
   * `Semantictype(T)`: for `\` the argument is the left side and the goal the right
   * side, for `/` the other way round; an atom missing from the table is a KeyError.
   */
  function Semantictype(T: LType): (r: Result<SemType>)
    ensures r.Ok? <==> AtomsListed(T)
    ensures r.Err? ==> r.error == KeyError
    ensures r.Ok? && T.LAtom? ==> r.value == SemAtom(SemanticTypeList[T.typestring])
    ensures r.Ok? && T.LFunc? ==>
      (r.value.SemFunc?
       && Ok(r.value.argument) == Semantictype(if T.slash == LeftSlash then T.left else T.right)
       && Ok(r.value.goal) == Semantictype(if T.slash == LeftSlash then T.right else T.left))
  {
    match T
    case LAtom(ts) =>
      if ts in SemanticTypeList then Ok(SemAtom(SemanticTypeList[ts])) else Err(KeyError)
    case LFunc(_, sl, l, rt) =>
      var argument :- Semantictype(if sl == LeftSlash then l else rt);
      var goal :- Semantictype(if sl == LeftSlash then rt else l);
      Ok(SemFunc(argument, goal))
  }

  /** A transitive verb `(dp\s)/dp` denotes a function from entities to properties. */
  lemma TransitiveVerbType()
    ensures var t := LFunc("(dp\\s)/dp", RightSlash, LFunc("dp\\s", LeftSlash, LAtom("dp"), LAtom("s")), LAtom("dp"));
            Semantictype(t).Ok? && Semantictype(t).value.TypeString() == "(e,(e,t))"
  {
    var iv := LFunc("dp\\s", LeftSlash, LAtom("dp"), LAtom("s"));
    assert Semantictype(LAtom("dp")) == Ok(SemAtom("e"));
    assert Semantictype(LAtom("s")) == Ok(SemAtom("t"));
    assert Semantictype(iv) == Ok(SemFunc(SemAtom("e"), SemAtom("t")));
  }

  // ---------------------------------------------------------------------------------
  // Terms.

  /** `Denotation`: `variable` and `function` are `None` exactly when the text has no `L`. */
  datatype LDen = LDen(semantictype: SemType, text: string, satiated: bool,
                       variable: Option<string>, body: Option<string>)

  /**
   * `Denotation(semantictype, inputstring)`: with an `L` in the text, `variable` is the
   * slice between the first `L` and the first `.`, `function` all after that `.`, and a
   * text with an `L` but no `.` is a ValueError.
   */
  function NewLDen(st: SemType, input: string): (r: Result<LDen>)
    ensures r.Err? <==> 'L' in input && '.' !in input
    ensures r.Ok? ==> r.value.semantictype == st && r.value.text == input
    ensures r.Ok? ==> (r.value.satiated <==> 'L' !in input)
                      && (r.value.satiated <==> r.value.variable.None?)
                      && (r.value.satiated <==> r.value.body.None?)
    ensures r.Ok? && !r.value.satiated && 'L' in input && '.' in input ==>
      var l, d := IndexOf(input, 'L').value, IndexOf(input, '.').value;
      (l < d ==> input == input[..l] + "L" + r.value.variable.value + "." + r.value.body.value
                 && '.' !in r.value.variable.value)
      && (d <= l ==> r.value.variable.value == "" && input == input[..d] + "." + r.value.body.value)
  {
    if 'L' !in input then Ok(LDen(st, input, true, None, None))
    else
      match IndexOf(input, '.')
      case None => Err(ValueError)
      case Some(dot) =>
        var l := IndexOf(input, 'L').value;
        LDenParts(input, l, dot);
        Ok(LDen(st, input, false, Some(PySlice(input, l + 1, dot)), Some(input[dot + 1..])))
  }

  /** The slices `Denotation` takes either side of the first `L` and the first `.`. */
  lemma LDenParts(input: string, l: nat, d: nat)
    requires IndexOf(input, 'L') == Some(l) && IndexOf(input, '.') == Some(d)
    ensures l < d ==> input == input[..l] + "L" + PySlice(input, l + 1, d) + "." + input[d + 1..]
                      && '.' !in PySlice(input, l + 1, d)
    ensures d <= l ==> PySlice(input, l + 1, d) == "" && input == input[..d] + "." + input[d + 1..]
  {
    var v := PySlice(input, l + 1, d);
    var head := input[..d];
    SplitAt(input, d);
    if l < d {
      SplitAt(head, l);
      assert head[..l] == input[..l] && head[l] == 'L';
      assert v == head[l + 1..];
      assert input == (head[..l] + "L" + v) + "." + input[d + 1..];
    }
  }

  /** A string is what comes before position `i`, the character there, and the rest. */
  lemma SplitAt(s: string, i: nat)
    requires i < |s|
    ensures s == s[..i] + [s[i]] + s[i + 1..]
  {
  }

  /**
   * `functionapplication(function, argument)`: the argument's semantic type must be the
   * function's argument type; the result has the function's goal type and text the
   * body with every occurrence of the variable replaced by the argument's text.  An
   * atomic semantic type has no `argument`, and a satiated term no body to replace in.
   */
  function FunctionApplication(f: LDen, a: LDen): (r: Result<LDen>)
    ensures f.semantictype.SemAtom? ==> r == Err(AttributeError)
    ensures f.semantictype.SemFunc? && f.semantictype.argument.TypeString() != a.semantictype.TypeString()
            ==> r == Err(CannotApply)
    ensures (f.semantictype.SemFunc? && f.semantictype.argument.TypeString() == a.semantictype.TypeString()
             && f.body.None?) ==> r == Err(AttributeError)
    ensures (f.semantictype.SemFunc? && f.semantictype.argument.TypeString() == a.semantictype.TypeString()
             && f.body.Some? && f.variable.Some?)
            ==> r == NewLDen(f.semantictype.goal, Replace(f.body.value, f.variable.value, a.text))
    ensures r.Ok? ==> f.semantictype.SemFunc? && f.body.Some? && f.variable.Some?
                      && r.value.semantictype == f.semantictype.goal
                      && r.value.text == Replace(f.body.value, f.variable.value, a.text)
  {
    match f.semantictype
    case SemAtom(_) => Err(AttributeError)
    case SemFunc(argument, goal) =>
      if argument.TypeString() != a.semantictype.TypeString() then Err(CannotApply)
      else if f.body.None? then Err(AttributeError)
      else if f.variable.None? then Err(TypeError)
      else NewLDen(goal, Replace(f.body.value, f.variable.value, a.text))
  }

  /** A one-character variable absent from the argument is gone after application. */
  lemma ApplicationBindsVariable(f: LDen, a: LDen)
    requires FunctionApplication(f, a).Ok?
    requires |f.variable.value| == 1 && f.variable.value[0] !in a.text
    ensures f.variable.value[0] !in FunctionApplication(f, a).value.text
  {
    assert f.variable.value == [f.variable.value[0]];
    ReplaceCharRemoves(f.body.value, f.variable.value[0], a.text);
  }

  /** Substituting `k` for `1` in `snore(1)`. */
  lemma SnoreText()
    ensures Replace("snore(1)", "1", "k") == "snore(k)"
  {
    CharSubstring('1', "snore(");
    CharSubstring('1', ")");
    ReplaceAbsent("snore(", "1", "k");
    ReplaceAbsent(")", "1", "k");
    ReplaceHit("1", ")", "k");
    ReplaceCharAppend("snore(", "1)", '1', "k");
    SnorePieces();
  }

  lemma SnorePieces()
    ensures "snore(" + "1)" == "snore(1)" && "1" + ")" == "1)" && "snore(" + ("k" + ")") == "snore(k)"
  {
  }

  /** `kevin snores`: `L1.snore(1)` applied to `k` is `snore(k)`, a truth value. */
  lemma SnoresExample()
    ensures var snores := LDen(SemFunc(SemAtom("e"), SemAtom("t")), "L1.snore(1)", false, Some("1"), Some("snore(1)"));
            var kevin := LDen(SemAtom("e"), "k", true, None, None);
            FunctionApplication(snores, kevin) == Ok(LDen(SemAtom("t"), "snore(k)", true, None, None))
  {
    SnoreText();
    assert 'L' !in "snore(k)";
  }

  // ---------------------------------------------------------------------------------
  // Constituents.

  /** `Constituent`: a category, its semantic type and term, and the words it spans. */
  datatype LConstituent = LConstituent(syntactictype: LType, semantictype: SemType, denotation: LDen,
                                       start: nat, end: nat, length: int,
                                       subconstituents: seq<LConstituent>)

  /**
   * `Constituent(syntactictype, denotation, start, end, subconstituents)`: `end`
   * defaults to `start + 1` and `length` is `end - start`; the semantic type is computed
   * from the category, which raises for an atom missing from the table.
   */
  function NewLConstituent(t: LType, d: LDen, start: nat, endposition: Option<nat>,
                           subs: seq<LConstituent>): (r: Result<LConstituent>)
    ensures r.Err? <==> Semantictype(t).Err?
    ensures r.Ok? ==> var c := r.value;
      c.syntactictype == t && Ok(c.semantictype) == Semantictype(t) && c.denotation == d
      && c.start == start && c.end == (if endposition.None? then start + 1 else endposition.value)
      && c.length == c.end - c.start && c.subconstituents == subs
  {
    var st :- Semantictype(t);
    var end := if endposition.None? then start + 1 else endposition.value;
    Ok(LConstituent(t, st, d, start, end, end - start, subs))
  }

  /**
   * `elimination(left, right)`: left elimination first, applying the right
   * constituent's term to the left one's; else right elimination, applying the left
   * term to the right one; `None` when neither rule applies.
   */
  function Elimination(left: LConstituent, right: LConstituent): (r: Result<Option<(LType, LDen)>>)
    ensures r == Ok(None) <==>
      LeftElimination(left.syntactictype, right.syntactictype).None?
      && RightElimination(left.syntactictype, right.syntactictype).None?
    ensures LeftElimination(left.syntactictype, right.syntactictype).Some? ==>
      r == (var d :- FunctionApplication(right.denotation, left.denotation);
            Ok(Some((right.syntactictype.right, d))))
    ensures LeftElimination(left.syntactictype, right.syntactictype).None?
            && RightElimination(left.syntactictype, right.syntactictype).Some? ==>
      r == (var d :- FunctionApplication(left.denotation, right.denotation);
            Ok(Some((left.syntactictype.left, d))))
  {
    match LeftElimination(left.syntactictype, right.syntactictype)
    case Some(result) =>
      var d :- FunctionApplication(right.denotation, left.denotation);
      Ok(Some((result, d)))
    case None =>
      match RightElimination(left.syntactictype, right.syntactictype)
      case Some(result) =>
        var d :- FunctionApplication(left.denotation, right.denotation);
        Ok(Some((result, d)))
      case None => Ok(None)
  }

  /** A term as the constructor leaves it: a variable and a body exactly when unsatiated. */
  predicate Formed(d: LDen) {
    (d.satiated <==> d.variable.None?) && (d.satiated <==> d.body.None?)
  }

  /** A parsed category whose semantic type both the constituent and its term carry. */
  predicate Typed(c: LConstituent) {
    Canon(c.syntactictype) && Semantictype(c.syntactictype) == Ok(c.semantictype)
    && c.denotation.semantictype == c.semantictype && Formed(c.denotation)
  }

  /**
   * For typed constituents the syntactic check of an elimination rule implies the
   * semantic one: application never reports a type mismatch, only a satiated functor
   * or a result text with an `L` and no `.`; and the new category is a parsed category
   * whose semantic type the new term carries.
   */
  lemma EliminationTyped(left: LConstituent, right: LConstituent)
    requires Typed(left) && Typed(right)
    ensures Elimination(left, right).Err? ==>
      Elimination(left, right).error == AttributeError || Elimination(left, right).error == ValueError
    ensures Elimination(left, right).Ok? && Elimination(left, right).value.Some? ==>
      var (t, d) := Elimination(left, right).value.value;
      Canon(t) && Semantictype(t) == Ok(d.semantictype) && Formed(d)
  {
    var lt, rt := left.syntactictype, right.syntactictype;
    if LeftElimination(lt, rt).Some? {
      CanonParts(rt);
      assert rt.left == lt;
    } else if RightElimination(lt, rt).Some? {
      CanonParts(lt);
      assert lt.right == rt;
    }
  }
}
