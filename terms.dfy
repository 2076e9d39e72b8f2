/**
 * The string-based term engine of the sequent-calculus parser (`Denotation` and
 * `reducestring` in sequent.py).  A term is its text plus the structure the
 * constructor recorded: its kind, the parsed body of a lambda, the lambda's bound
 * variable, and a simplification together with its one-hop `reducedform`.  Bound
 * variables are numbered `<n>` from the global `semvarcounter`, threaded here as a
 * parameter and returned with the result.
 */
module Terms {
  import opened Outcomes
  import opened PyStr

  /** `denotationtype`. */
  datatype Kind = Simple | Lambda | Variable

  /**
   * A `Denotation` object: `text` is its `string` attribute.  The `replacer` and
   * `replacee` attributes are stored by the source but never read, so they are omitted.
   */
  datatype Den = Den(text: string, kind: Kind, body: Option<Den>, lambdavar: Option<string>,
                     simplification: Option<Den>, reducedform: Option<Den>)

  /** `str(d)`: the text of the reduced form when there is one. */
  function Repr(d: Den): string
    decreases d
  {
    match d.reducedform
    case Some(f) => Repr(f)
    case None => d.text
  }

  /** The reduced form, if any, has none of its own, so `Repr` looks one hop ahead. */
  predicate Settled(d: Den) {
    d.reducedform.None? || d.reducedform.value.reducedform.None?
  }

  /** The structure every constructed term has. */
  predicate Formed(d: Den) {
    Settled(d)
    && (d.kind == Lambda && d.body.Some? ==> d.lambdavar.Some?)
    && (d.reducedform.Some? ==> d.simplification.Some?)
  }

  /** A settled term prints as its reduced form's own text. */
  lemma ReprOneHop(d: Den)
    requires Settled(d)
    ensures Repr(d) == if d.reducedform.Some? then d.reducedform.value.text else d.text
  {
  }

  /** How `reducedform` is taken from a simplification. */
  function ReducedOf(simp: Den): (r: Option<Den>)
    ensures Settled(simp) ==> r.Some? && r.value.reducedform.None? && Repr(r.value) == Repr(simp)
  {
    if simp.reducedform.None? then Some(simp) else simp.reducedform
  }

  /** The leading `[` / trailing `]` pair removed; the first character of "" is an IndexError. */
  function Unbracket(input: string): (r: Result<string>)
    ensures |input| == 0 <==> r.Err?
    ensures r.Err? ==> r.error == IndexError
    ensures r.Ok? ==> Count('L', r.value) <= Count('L', input)
    ensures r.Ok? && !(input[0] == '[' && input[|input| - 1] == ']') ==> r.value == input
    ensures r.Ok? && input[0] == '[' && input[|input| - 1] == ']' ==> r.value == input[1..|input| - 1]
  {
    if |input| == 0 then Err(IndexError)
    else if input[0] == '[' && input[|input| - 1] == ']' then
      CountSlice('L', input, 1, |input| - 1);
      Ok(input[1..|input| - 1])
    else Ok(input)
  }

  /** The name `<n>` of bound variable number `n`. */
  function VarName(n: nat): (v: string)
    ensures |v| >= 3 && v[0] == '<' && v[|v| - 1] == '>'
    ensures 'L' !in v && '.' !in v
  {
    var digits := NatToString(n);
    assert forall k :: 0 <= k < |digits| ==> IsDigit(digits[k]);
    "<" + digits + ">"
  }

  /**
   * `Denotation(input)` with `semvarcounter` equal to `sv`: the term and the new
   * counter, or the exception the constructor raises.  A lambda whose variable is not
   * yet numbered is renamed to a fresh `<n>`; a numbered one whose variable occurs only
   * as its final argument `f(<n>)` is eta-collapsed to `f` (its `body` stays `None`);
   * the text `var` becomes a fresh variable.
   */
  function NewDenotation(input: string, sv: nat): (r: Result<(Den, nat)>)
    ensures r.Ok? ==> r.value.1 >= sv && Formed(r.value.0)
    decreases Count('L', input), 3
  {
    var s :- Unbracket(input);
    if |s| == 0 then Err(IndexError)
    else if s[0] == 'L' then NewLambda(s, sv)
    else if s == "var" then
      Ok((Den(VarName(sv + 1), Variable, None, None, None, None), sv + 1))
    else
      Ok((Den(s, Simple, None, None, None, None), sv))
  }

  /** `Denotation('var')`: a fresh variable, which the constructor never refuses. */
  function FreshVariable(sv: nat): (r: (Den, nat))
    ensures NewDenotation("var", sv) == Ok(r)
    ensures r.0.kind == Variable && r.1 == sv + 1 && r.0.text == VarName(sv + 1)
  {
    assert Unbracket("var") == Ok("var");
    (Den(VarName(sv + 1), Variable, None, None, None, None), sv + 1)
  }

  /** The lambda branch of the constructor, on the unbracketed text `s`. */
  function NewLambda(s: string, sv: nat): (r: Result<(Den, nat)>)
    requires |s| > 0 && s[0] == 'L'
    ensures r.Ok? ==> r.value.1 >= sv && Formed(r.value.0) && r.value.0.kind == Lambda
    decreases Count('L', s), 2
  {
    match IndexOf(s, '.')
    case None => Err(ValueError)
    case Some(dot) =>
      var varname := s[1..dot];
      if |varname| == 0 then Err(IndexError)
      else if varname[0] == '<' && varname[|varname| - 1] == '>' then
        NumberedLambda(s, dot, sv)
      else
        var lv := VarName(sv + 1);
        CountTail('L', s, dot + 1);
        CountReplace('L', s[dot + 1..], varname, lv);
        var b :- NewDenotation(Replace(s[dot + 1..], varname, lv), sv + 1);
        Ok((Den("L" + lv + "." + Repr(b.0), Lambda, Some(b.0), Some(lv), None, None), b.1))
  }

  /**
   * A lambda whose variable `s[1..dot]` is already numbered: eta-collapsed when the
   * variable's first occurrence after the dot is a final `(<n>)`, else parsed as it is.
   */
  function NumberedLambda(s: string, dot: nat, sv: nat): (r: Result<(Den, nat)>)
    requires 1 < dot < |s| && s[0] == 'L'
    ensures r.Ok? ==> r.value.1 >= sv && Formed(r.value.0) && r.value.0.kind == Lambda
    decreases Count('L', s), 1
  {
    var varname := s[1..dot];
    var varindex := FindFrom(s, varname, dot);
    match PyIndex(s, varindex - 1)
    case None => Err(IndexError)
    case Some(c) =>
      if c == '(' && varindex + |varname| + 1 == |s| then EtaLambda(s, dot, varindex, sv)
      else PlainNumbered(s, dot, sv)
  }

  /** The eta collapse of `L<n>.f(<n>)`: the term `f`, recorded as the simplification. */
  function EtaLambda(s: string, dot: nat, varindex: int, sv: nat): (r: Result<(Den, nat)>)
    requires 1 < dot < |s| && s[0] == 'L'
    ensures r.Ok? ==> r.value.1 >= sv && Formed(r.value.0) && r.value.0.kind == Lambda
    decreases Count('L', s), 0
  {
    CountSliceAfterHead('L', s, dot + 1, varindex - 1);
    var simp :- NewDenotation(PySlice(s, dot + 1, varindex - 1), sv);
    Ok((Den(s, Lambda, None, None, Some(simp.0), ReducedOf(simp.0)), simp.1))
  }

  /** A numbered lambda kept as it is, its body parsed from the text after the dot. */
  function PlainNumbered(s: string, dot: nat, sv: nat): (r: Result<(Den, nat)>)
    requires 1 < dot < |s| && s[0] == 'L'
    ensures r.Ok? ==> r.value.1 >= sv && Formed(r.value.0) && r.value.0.kind == Lambda
    decreases Count('L', s), 0
  {
    CountTail('L', s, dot + 1);
    var b :- NewDenotation(s[dot + 1..], sv);
    Ok((Den(s, Lambda, Some(b.0), Some(s[1..dot]), None, None), b.1))
  }

  /**
   * Which branch the constructor takes: empty text raises, the kind follows the first
   * character, `var` draws the next counter value, and a literal is kept as it is.
   */
  lemma NewDenotationCases(input: string, sv: nat)
    ensures |input| == 0 ==> NewDenotation(input, sv) == Err(IndexError)
    ensures var r := NewDenotation(input, sv);
            r.Ok? ==> var s := Unbracket(input).value;
                      |s| > 0 && (r.value.0.kind == Lambda <==> s[0] == 'L')
                      && (r.value.0.kind == Variable <==> s == "var")
    ensures Unbracket(input) == Ok("var") ==>
              NewDenotation(input, sv) == Ok((Den(VarName(sv + 1), Variable, None, None, None, None), sv + 1))
    ensures var r := NewDenotation(input, sv);
            r.Ok? && r.value.0.kind == Simple ==>
              r.value.0.text == Unbracket(input).value && r.value.1 == sv
              && r.value.0.reducedform.None? && r.value.0.body.None?
  {
  }

  /**
   * `Denotation(input, replacer)`: the application of the term `input` to `replacer`.
   * The function text is re-parsed; a lambda is beta-reduced by replacing its variable
   * in its body's text, anything else is written `f(a)`.  A re-parsed lambda that was
   * eta-collapsed has no body, and reading `body.body` raises AttributeError.
   */
  function NewApplication(input: string, replacer: Den, sv: nat): (r: Result<(Den, nat)>)
    ensures r.Ok? ==> r.value.1 >= sv && Formed(r.value.0) && r.value.0.kind == Simple
    ensures Unbracket(input).Err? ==> r == Err(IndexError)
    ensures Unbracket(input).Ok? ==>
      var f := NewDenotation(Unbracket(input).value, sv);
      (f.Err? ==> r == Err(f.error))
      && (f.Ok? && f.value.0.kind == Lambda && f.value.0.body.None? ==> r == Err(AttributeError))
      && (f.Ok? && f.value.0.kind != Lambda ==>
            r.Ok? && r.value.0.text == Repr(f.value.0) + "(" + Repr(replacer) + ")"
            && r.value.0.reducedform.None? && r.value.1 == f.value.1)
      && (f.Ok? && f.value.0.kind == Lambda && f.value.0.body.Some? ==>
            var beta := Replace(f.value.0.body.value.text, f.value.0.lambdavar.value, Repr(replacer));
            var g := NewDenotation(beta, f.value.1);
            (g.Err? ==> r == Err(g.error))
            && (g.Ok? ==> r.Ok? && r.value.0.text == beta && Repr(r.value.0) == Repr(g.value.0)
                          && r.value.1 == g.value.1))
  {
    var s :- Unbracket(input);
    var f :- NewDenotation(s, sv);
    if f.0.kind == Lambda then
      match f.0.body
      case None => Err(AttributeError)
      case Some(inner) =>
        var beta := Replace(inner.text, f.0.lambdavar.value, Repr(replacer));
        var g :- NewDenotation(beta, f.1);
        Ok((Den(beta, Simple, Some(f.0), None, Some(g.0), ReducedOf(g.0)), g.1))
    else
      Ok((Den(Repr(f.0) + "(" + Repr(replacer) + ")", Simple, Some(f.0), None, None, None), f.1))
  }

  /**
   * `Denotation(input, replacer, replacee)`: every occurrence of `str(replacee)` in the
   * text is replaced by `str(replacer)`; without one the replacement is deferred as a
   * `[replacer/replacee]` marker.
   */
  function NewSubstitution(input: string, replacer: Den, replacee: Den, sv: nat): (r: Result<(Den, nat)>)
    ensures r.Ok? ==> r.value.1 >= sv && Formed(r.value.0) && r.value.0.kind == Simple
    ensures Unbracket(input).Err? ==> r == Err(IndexError)
    ensures Unbracket(input).Ok? ==>
      var s := Unbracket(input).value;
      var f := NewDenotation(s, sv);
      (f.Err? ==> r == Err(f.error))
      && (f.Ok? && !IsSubstring(Repr(replacee), s) ==>
            r.Ok? && r.value.0.text == s + "[" + Repr(replacer) + "/" + Repr(replacee) + "]"
            && r.value.0.reducedform.None? && r.value.1 == f.value.1)
      && (f.Ok? && IsSubstring(Repr(replacee), s) ==>
            var replaced := Replace(s, Repr(replacee), Repr(replacer));
            var g := NewDenotation(replaced, f.value.1);
            (g.Err? ==> r == Err(g.error))
            && (g.Ok? ==> r.Ok? && r.value.0.text == replaced && Repr(r.value.0) == Repr(g.value.0)
                          && r.value.1 == g.value.1))
  {
    var s :- Unbracket(input);
    var f :- NewDenotation(s, sv);
    var pat := Repr(replacee);
    var rep := Repr(replacer);
    if IsSubstring(pat, s) then
      var replaced := Replace(s, pat, rep);
      var g :- NewDenotation(replaced, f.1);
      Ok((Den(replaced, Simple, Some(f.0), None, Some(g.0), ReducedOf(g.0)), g.1))
    else
      Ok((Den(s + "[" + rep + "/" + pat + "]", Simple, Some(f.0), None, None, None), f.1))
  }

  // ---------------------------------------------------------------------------------
  // Construction patterns.

  /** Text no constructor branch treats specially: a literal. */
  predicate Literal(s: string) {
    |s| > 0 && s[0] != 'L' && s[0] != '[' && s != "var"
  }

  lemma LiteralTerm(s: string, sv: nat)
    requires Literal(s)
    ensures NewDenotation(s, sv) == Ok((Den(s, Simple, None, None, None, None), sv))
  {
  }

  /** The first `.` of `L<v>.rest` is the one after the variable. */
  lemma DotAfterName(v: string, rest: string)
    requires '.' !in v
    ensures IndexOf("L" + v + "." + rest, '.') == Some(|v| + 1)
  {
    var s := "L" + v + "." + rest;
    assert s[..|v| + 1] == "L" + v;
    assert s[|v| + 1] == '.';
  }

  /** A lambda variable the constructor renames: not yet of the form `<n>`. */
  predicate Unnumbered(x: string) {
    |x| > 0 && '.' !in x && !(x[0] == '<' && x[|x| - 1] == '>')
  }

  /**
   * A lambda over an unnumbered variable `x` gets the fresh variable `<sv + 1>`: `x` is
   * replaced by it throughout the body, and the text becomes `L<sv + 1>.` followed by
   * the printed body.
   */
  lemma LambdaRenaming(x: string, rest: string, sv: nat)
    requires Unnumbered(x)
    ensures var r := NewDenotation("L" + x + "." + rest, sv);
            var b := NewDenotation(Replace(rest, x, VarName(sv + 1)), sv + 1);
            (b.Err? ==> r == Err(b.error))
            && (b.Ok? ==> r.Ok? && r.value.0.kind == Lambda
                          && r.value.0.lambdavar == Some(VarName(sv + 1))
                          && r.value.0.text == "L" + VarName(sv + 1) + "." + Repr(b.value.0)
                          && r.value.0.body == Some(b.value.0) && r.value.1 == b.value.1
                          && r.value.0.reducedform.None?)
  {
    var s := "L" + x + "." + rest;
    DotAfterName(x, rest);
    assert s[1..|x| + 1] == x;
    assert s[|x| + 2..] == rest;
  }

  /** A character that cannot begin a variable name `<n>`. */
  predicate NoOpen(f: string) {
    '<' !in f && '.' !in f
  }

  /**
   * Eta collapse: `L<k>.f(<k>)`, with `<k>` occurring only as the final argument, is
   * the term `f`; it keeps kind lambda but records no body.
   */
  lemma EtaCollapse(k: nat, f: string, sv: nat)
    requires NoOpen(f)
    ensures var s := "L" + VarName(k) + "." + f + "(" + VarName(k) + ")";
            var g := NewDenotation(f, sv);
            var r := NewDenotation(s, sv);
            (g.Err? ==> r == Err(g.error))
            && (g.Ok? ==> r.Ok? && r.value.0.kind == Lambda && r.value.0.body.None?
                          && r.value.0.text == s && Repr(r.value.0) == Repr(g.value.0)
                          && r.value.1 == g.value.1)
  {
    var v := VarName(k);
    var s := "L" + v + "." + f + "(" + v + ")";
    var dot := |v| + 1;
    var at := dot + |f| + 2;
    assert s == "L" + v + "." + (f + "(" + v + ")");
    EtaDot(s, v, f + "(" + v + ")", dot);
    EtaFind(s, v, f, dot, at);
    EtaTail(s, v, f, dot, at);
    NumberedDispatch(s, dot, sv);
    NumberedEta(s, dot, at, f, sv);
  }

  /** The constructor reaches its numbered-lambda branch on `L<n>.…`. */
  lemma NumberedDispatch(s: string, dot: nat, sv: nat)
    requires 1 < dot < |s| && s[0] == 'L' && IndexOf(s, '.') == Some(dot)
    requires s[dot - 1] == '>' && s[1] == '<'
    ensures NewDenotation(s, sv) == NumberedLambda(s, dot, sv)
  {
    assert Unbracket(s) == Ok(s);
    assert s[1..dot][0] == s[1];
    assert s[1..dot][dot - 2] == s[dot - 1];
  }

  /** The eta branch of a numbered lambda whose variable first occurs in a final `(<n>)`. */
  lemma NumberedEta(s: string, dot: nat, at: nat, f: string, sv: nat)
    requires 1 < dot < |s| && s[0] == 'L'
    requires FindFrom(s, s[1..dot], dot) == at && PyIndex(s, at - 1) == Some('(')
    requires at + dot - 1 + 1 == |s| && PySlice(s, dot + 1, at - 1) == f
    ensures var g := NewDenotation(f, sv);
            var r := NumberedLambda(s, dot, sv);
            (g.Err? ==> r == Err(g.error))
            && (g.Ok? ==> r.Ok? && r.value.0.kind == Lambda && r.value.0.body.None?
                          && r.value.0.text == s && Repr(r.value.0) == Repr(g.value.0)
                          && r.value.1 == g.value.1)
  {
    var g := NewDenotation(f, sv);
    assert |s[1..dot]| == dot - 1;
    assert NumberedLambda(s, dot, sv) == EtaLambda(s, dot, at, sv);
    if g.Ok? {
      var simp := g.value.0;
      var eta := Den(s, Lambda, None, None, Some(simp), ReducedOf(simp));
      assert EtaLambda(s, dot, at, sv) == Ok((eta, g.value.1));
      EtaPrints(eta, simp);
    } else {
      assert EtaLambda(s, dot, at, sv) == Err(g.error);
    }
  }

  /**
   * The other branch of a numbered lambda: when the variable's first occurrence after
   * the dot is not a final `(<n>)`, the lambda keeps its text and its variable, and its
   * body is the term parsed from the text after the dot.
   */
  lemma NumberedPlain(s: string, dot: nat, at: int, sv: nat)
    requires 1 < dot < |s| && s[0] == 'L' && IndexOf(s, '.') == Some(dot)
    requires s[1] == '<' && s[dot - 1] == '>'
    requires FindFrom(s, s[1..dot], dot) == at
    requires PyIndex(s, at - 1) != Some('(') || at + dot != |s|
    ensures var b := NewDenotation(s[dot + 1..], sv);
            var r := NewDenotation(s, sv);
            (b.Err? ==> r == Err(b.error))
            && (b.Ok? ==> r == Ok((Den(s, Lambda, Some(b.value.0), Some(s[1..dot]), None, None), b.value.1)))
  {
    NumberedDispatch(s, dot, sv);
    assert |s[1..dot]| == dot - 1;
    assert NumberedLambda(s, dot, sv) == PlainNumbered(s, dot, sv);
  }

  /** An eta-collapsed term prints as its simplification. */
  lemma EtaPrints(eta: Den, simp: Den)
    requires Formed(simp) && eta.reducedform == ReducedOf(simp)
    ensures Repr(eta) == Repr(simp)
  {
  }

  /** Where the constructor finds the dot in `L<v>.rest`. */
  lemma EtaDot(s: string, v: string, rest: string, dot: nat)
    requires |v| > 1 && v[0] == '<' && v[|v| - 1] == '>' && '.' !in v
    requires s == "L" + v + "." + rest && dot == |v| + 1
    ensures 1 < dot < |s| && s[0] == 'L' && IndexOf(s, '.') == Some(dot) && s[1..dot] == v
    ensures s[dot - 1] == '>' && s[1] == '<'
  {
    DotAfterName(v, rest);
    assert s[1..dot] == v by {
      SliceMiddle("L", v, "." + rest);
      assert s == "L" + v + ("." + rest);
    }
    assert s[dot - 1] == v[|v| - 1];
  }

  /** The final `(<k>)` of `L<k>.f(<k>)` encloses the variable; `f` is what precedes it. */
  lemma EtaTail(s: string, v: string, f: string, dot: nat, at: nat)
    requires s == "L" + v + "." + f + "(" + v + ")" && dot == |v| + 1 && at == dot + |f| + 2
    ensures PyIndex(s, at - 1) == Some('(') && at + |v| + 1 == |s|
    ensures PySlice(s, dot + 1, at - 1) == f
  {
    var head, tail := "L" + v + ".", "(" + v + ")";
    assert s == head + f + tail;
    assert s[at - 1] == '(';
    SliceMiddle(head, f, tail);
  }

  /** Nothing between the dot and the final `(` can start the variable `<k>`. */
  lemma EtaFind(s: string, v: string, f: string, dot: nat, at: nat)
    requires NoOpen(f) && |v| > 0 && v[0] == '<'
    requires s == "L" + v + "." + f + "(" + v + ")" && dot == |v| + 1 && at == dot + |f| + 2
    ensures FindFrom(s, v, dot) == at
  {
    assert OccursAt(s, v, at) by {
      assert s[at..at + |v|] == v;
    }
    forall j: nat | dot <= j < at ensures !OccursAt(s, v, j) {
      assert s[j] != '<' by {
        if dot < j < at - 1 {
          assert s[j] == f[j - dot - 1];
        }
      }
    }
  }

  /**
   * The eta branch defeats application: a re-parsed eta-collapsible lambda has no body,
   * so applying it raises AttributeError whatever the argument.
   */
  lemma EtaApplicationFails(k: nat, f: string, arg: Den, sv: nat)
    requires NoOpen(f) && NewDenotation(f, sv).Ok?
    ensures NewApplication("L" + VarName(k) + "." + f + "(" + VarName(k) + ")", arg, sv)
            == Err(AttributeError)
  {
    EtaCollapse(k, f, sv);
  }

  /** Applying a literal function term to any argument builds the literal `f(arg)`. */
  lemma LiteralApplication(f: string, arg: Den, sv: nat)
    requires Literal(f)
    ensures var r := NewApplication(f, arg, sv);
            r.Ok? && Repr(r.value.0) == f + "(" + Repr(arg) + ")" && r.value.1 == sv
  {
    LiteralTerm(f, sv);
  }

  /**
   * Substituting into a literal term: the replacee's text is replaced by the replacer's
   * when it occurs (and the outcome reads as a literal), and the explicit `[replacer/replacee]`
   * form is kept when it does not.
   */
  lemma LiteralSubstitution(s: string, replacer: Den, replacee: Den, sv: nat)
    requires Literal(s)
    ensures var r := NewSubstitution(s, replacer, replacee, sv);
            var replaced := Replace(s, Repr(replacee), Repr(replacer));
            (IsSubstring(Repr(replacee), s) && Literal(replaced) ==>
               r.Ok? && Repr(r.value.0) == replaced && r.value.1 == sv)
            && (!IsSubstring(Repr(replacee), s) ==>
               r.Ok? && Repr(r.value.0) == s + "[" + Repr(replacer) + "/" + Repr(replacee) + "]" && r.value.1 == sv)
  {
    LiteralTerm(s, sv);
    var replaced := Replace(s, Repr(replacee), Repr(replacer));
    if IsSubstring(Repr(replacee), s) && Literal(replaced) {
      LiteralTerm(replaced, sv);
    }
  }

  /**
   * A lexicon verb `Lx.f(x)` over a one-character variable is renamed to exactly the
   * eta-collapsible shape `L<sv + 1>.f(<sv + 1>)`, so applying it to any argument raises.
   */
  lemma LexiconVerbCannotApply(x: char, f: string, arg: Den, sv: nat)
    requires x != '<' && x != '.' && x != '(' && x != ')' && x !in f && NoOpen(f) && Literal(f)
    ensures var r := NewDenotation("L" + [x] + "." + f + "(" + [x] + ")", sv);
            r.Ok? && Repr(r.value.0) == "L" + VarName(sv + 1) + "." + f + "(" + VarName(sv + 1) + ")"
            && NewApplication(Repr(r.value.0), arg, r.value.1) == Err(AttributeError)
  {
    var s := "L" + [x] + "." + f + "(" + [x] + ")";
    var v := VarName(sv + 1);
    assert s == "L" + [x] + "." + (f + "(" + [x] + ")");
    VerbRenamed(x, f, s, sv);
    assert "L" + v + "." + (f + "(" + v + ")") == "L" + v + "." + f + "(" + v + ")";
    EtaApplicationFails(sv + 1, f, arg, sv + 1);
  }

  /** The renaming half: `Lx.f(x)` becomes `L<sv + 1>.f(<sv + 1>)`. */
  lemma VerbRenamed(x: char, f: string, s: string, sv: nat)
    requires x != '<' && x != '.' && x != '(' && x != ')' && x !in f && Literal(f)
    requires s == "L" + [x] + "." + (f + "(" + [x] + ")")
    ensures var r := NewDenotation(s, sv);
            r.Ok? && Repr(r.value.0) == "L" + VarName(sv + 1) + "." + (f + "(" + VarName(sv + 1) + ")")
            && r.value.1 == sv + 1
  {
    var v := VarName(sv + 1);
    var rest := f + "(" + [x] + ")";
    LambdaRenaming([x], rest, sv);
    VerbBodyRenaming(x, f, v);
    var body := f + "(" + v + ")";
    assert Literal(body);
    LiteralTerm(body, sv + 1);
  }

  /** Renaming the variable `x` of the body `f(x)`. */
  lemma VerbBodyRenaming(x: char, f: string, v: string)
    requires x != '(' && x != ')' && x !in f
    ensures Replace(f + "(" + [x] + ")", [x], v) == f + "(" + v + ")"
  {
    ReplaceCharAppend(f + "(" + [x], ")", x, v);
    ReplaceCharAppend(f + "(", [x], x, v);
    ReplaceCharAppend(f, "(", x, v);
    CharSubstring(x, f);
    ReplaceAbsent(f, [x], v);
    assert Replace("(", [x], v) == "(";
    assert Replace(")", [x], v) == ")";
    assert Replace([x], [x], v) == v;
  }

  /** The lexicon entry `snores : dp\s - L1.snore(1)` is such a verb. */
  lemma SnoreCannotApply(arg: Den, sv: nat)
    ensures var r := NewDenotation("L1.snore(1)", sv);
            r.Ok? && NewApplication(Repr(r.value.0), arg, r.value.1) == Err(AttributeError)
  {
    assert "L1.snore(1)" == "L" + ['1'] + "." + "snore" + "(" + ['1'] + ")";
    LexiconVerbCannotApply('1', "snore", arg, sv);
  }

  /** A function name the renaming of `L1.L2.f(2,1)` does not touch. */
  predicate TwoPlaceName(f: string) {
    Literal(f) && NoOpen(f) && '1' !in f && '2' !in f
  }

  /**
   * A two-place lexicon entry `L1.L2.f(2,1)`, such as `knows : (dp\s)/dp - L1.L2.know(2,1)`,
   * does apply.  With the counter at 0 it is renamed to `L<1>.L<2>.f(<2>,<1>)`.  There
   * `<1>` first occurs after a `,`, so the re-parse keeps the body; applying the entry
   * to `j` and the result to `k` gives `f(k,j)`.
   */
  lemma TwoPlaceApplies(f: string, j: Den, k: Den)
    requires TwoPlaceName(f) && '<' !in Repr(j)
    ensures var e := NewDenotation("L1.L2." + f + "(2,1)", 0);
            e.Ok? && Repr(e.value.0) == "L<1>.L<2>." + f + "(<2>,<1>)" && e.value.1 == 2
            && var r1 := NewApplication(Repr(e.value.0), j, e.value.1);
               r1.Ok? && Repr(r1.value.0) == "L<2>." + f + "(<2>," + Repr(j) + ")" && r1.value.1 == 2
               && var r2 := NewApplication(Repr(r1.value.0), k, r1.value.1);
                  r2.Ok? && Repr(r2.value.0) == f + "(" + Repr(k) + "," + Repr(j) + ")" && r2.value.1 == 2
  {
    TwoPlaceRenamed(f);
    TwoPlaceFirstApplication(f, j, 2);
    TwoPlaceSecondApplication(f, Repr(j), k, 2);
  }

  /** The `knows` entry applied to `j` and then to `k` is `know(k,j)`. */
  lemma KnowsApplies(j: Den, k: Den)
    requires Repr(j) == "j" && Repr(k) == "k"
    ensures var e := NewDenotation("L1.L2.know(2,1)", 0);
            e.Ok? && var r1 := NewApplication(Repr(e.value.0), j, e.value.1);
            r1.Ok? && var r2 := NewApplication(Repr(r1.value.0), k, r1.value.1);
            r2.Ok? && Repr(r2.value.0) == "know(k,j)"
  {
    assert "L1.L2.know(2,1)" == "L1.L2." + "know" + "(2,1)";
    assert "know" + "(" + "k" + "," + "j" + ")" == "know(k,j)";
    TwoPlaceApplies("know", j, k);
  }

  /** The renaming of `L1.L2.f(2,1)` with the counter at 0. */
  lemma TwoPlaceRenamed(f: string)
    requires TwoPlaceName(f)
    ensures var e := NewDenotation("L1.L2." + f + "(2,1)", 0);
            e.Ok? && Repr(e.value.0) == "L<1>.L<2>." + f + "(<2>,<1>)" && e.value.1 == 2
  {
    var t := "L2." + f + "(2,<1>)";
    TwoPlaceInnerRenamed(f);
    var e := NewDenotation(t, 1).value.0;
    var s, x, rest, p := "L1.L2." + f + "(2,1)", "1", "L2." + f + "(2,1)", "L<1>.L<2>." + f + "(<2>,<1>)";
    TwoPlaceOuterTexts(f, e, s, x, rest, t, p);
    RenamedBody(s, x, rest, 0, 1, t, e, 2, p);
  }

  /** The texts the outer renaming of `L1.L2.f(2,1)` goes through. */
  lemma TwoPlaceOuterTexts(f: string, e: Den, s: string, x: string, rest: string, t: string, p: string)
    requires TwoPlaceName(f) && Repr(e) == "L<2>." + f + "(<2>,<1>)" && x == "1"
    requires s == "L1.L2." + f + "(2,1)" && rest == "L2." + f + "(2,1)"
    requires t == "L2." + f + "(2,<1>)" && p == "L<1>.L<2>." + f + "(<2>,<1>)"
    ensures Unnumbered(x) && s == "L" + x + "." + rest
    ensures Replace(rest, x, VarName(1)) == t
    ensures p == "L" + VarName(1) + "." + Repr(e)
  {
    TwoPlaceOuterReplaced(f);
    assert VarName(1) == "<1>";
  }

  lemma RenamedBody(s: string, x: string, rest: string, sv: nat, n: nat, t: string, e: Den, c: nat, p: string)
    requires Unnumbered(x) && s == "L" + x + "." + rest && n == sv + 1
    requires Replace(rest, x, VarName(n)) == t && NewDenotation(t, n) == Ok((e, c))
    requires p == "L" + VarName(n) + "." + Repr(e)
    ensures var r := NewDenotation(s, sv);
            r.Ok? && Repr(r.value.0) == p && r.value.1 == c
  {
    assert Replace(rest, x, VarName(sv + 1)) == t;
    assert NewDenotation(Replace(rest, x, VarName(sv + 1)), sv + 1) == Ok((e, c));
    LambdaRenaming(x, rest, sv);
  }


  /** The inner lambda `L2.f(2,<1>)`, with the counter at 1, becomes `L<2>.f(<2>,<1>)`. */
  lemma TwoPlaceInnerRenamed(f: string)
    requires TwoPlaceName(f)
    ensures var e := NewDenotation("L2." + f + "(2,<1>)", 1);
            e.Ok? && Repr(e.value.0) == "L<2>." + f + "(<2>,<1>)" && e.value.1 == 2
  {
    var s, x, rest, t, p := "L2." + f + "(2,<1>)", "2", f + "(2,<1>)", f + "(<2>,<1>)", "L<2>." + f + "(<2>,<1>)";
    var b := Den(t, Simple, None, None, None, None);
    TwoPlaceInnerTexts(f, b, s, x, rest, t, p);
    LiteralTerm(t, 2);
    RenamedBody(s, x, rest, 1, 2, t, b, 2, p);
  }

  /** The texts the inner renaming of `L2.f(2,<1>)` goes through. */
  lemma TwoPlaceInnerTexts(f: string, b: Den, s: string, x: string, rest: string, t: string, p: string)
    requires TwoPlaceName(f) && b == Den(t, Simple, None, None, None, None) && x == "2"
    requires s == "L2." + f + "(2,<1>)" && rest == f + "(2,<1>)"
    requires t == f + "(<2>,<1>)" && p == "L<2>." + f + "(<2>,<1>)"
    ensures Unnumbered(x) && s == "L" + x + "." + rest
    ensures Replace(rest, x, VarName(2)) == t
    ensures p == "L" + VarName(2) + "." + Repr(b)
    ensures Literal(t)
  {
    TwoPlaceInnerReplaced(f);
    assert VarName(2) == "<2>";
  }

  lemma TwoPlaceInnerReplaced(f: string)
    requires TwoPlaceName(f)
    ensures Replace(f + "(2,<1>)", "2", "<2>") == f + "(<2>,<1>)"
  {
    assert f + "(2,<1>)" == f + "(" + ['2'] + ",<1>)";
    ReplaceOnce(f + "(", '2', ",<1>)", "<2>");
    assert f + "(" + "<2>" + ",<1>)" == f + "(<2>,<1>)";
  }

  lemma TwoPlaceOuterReplaced(f: string)
    requires TwoPlaceName(f)
    ensures Replace("L2." + f + "(2,1)", "1", "<1>") == "L2." + f + "(2,<1>)"
  {
    assert "L2." + f + "(2,1)" == "L2." + f + "(2," + ['1'] + ")";
    ReplaceOnce("L2." + f + "(2,", '1', ")", "<1>");
    assert "L2." + f + "(2," + "<1>" + ")" == "L2." + f + "(2,<1>)";
  }

  /** `L<2>.f(<2>,x)` keeps its body: `<2>` first occurs inside `f(<2>,`, not finally. */
  lemma TwoPlaceInner(f: string, x: string, sv: nat)
    requires TwoPlaceName(f)
    ensures var s := "L<2>." + f + "(<2>," + x + ")";
            var body := f + "(<2>," + x + ")";
            NewDenotation(s, sv)
            == Ok((Den(s, Lambda, Some(Den(body, Simple, None, None, None, None)), Some("<2>"), None, None), sv))
  {
    var s := "L<2>." + f + "(<2>," + x + ")";
    var body := f + "(<2>," + x + ")";
    TwoPlaceInnerFind(f, x);
    NumberedPlain(s, 4, |f| + 6, sv);
    LiteralTerm(body, sv);
  }

  /** In `L<2>.f(<2>,x)` the variable first occurs after the dot right after `f(`. */
  lemma TwoPlaceInnerFind(f: string, x: string)
    requires TwoPlaceName(f)
    ensures var s := "L<2>." + f + "(<2>," + x + ")";
            var at := |f| + 6;
            1 < 4 < |s| && s[0] == 'L' && IndexOf(s, '.') == Some(4) && s[1..4] == "<2>"
            && s[1] == '<' && s[4 - 1] == '>' && s[4 + 1..] == f + "(<2>," + x + ")"
            && FindFrom(s, s[1..4], 4) == at && at + 4 != |s|
  {
    var s := "L<2>." + f + "(<2>," + x + ")";
    var body := f + "(<2>," + x + ")";
    assert s == "L" + "<2>" + "." + body;
    EtaDot(s, "<2>", body, 4);
    assert s[4 + 1..] == body;
    TwoPlaceInnerOccurrence(f, x, s);
  }

  lemma TwoPlaceInnerOccurrence(f: string, x: string, s: string)
    requires TwoPlaceName(f) && s == "L<2>." + f + "(<2>," + x + ")"
    ensures FindFrom(s, "<2>", 4) == |f| + 6
  {
    var at := |f| + 6;
    assert OccursAt(s, "<2>", at) by {
      assert s[at..at + 3] == "<2>";
    }
    forall i | 4 <= i < at ensures s[i] != '<' {
      if 5 <= i < 5 + |f| {
        assert s[i] == f[i - 5];
      }
    }
    NoOccurrenceBetween(s, "<2>", 4, at, 0);
    FindFromAt(s, "<2>", 4, at);
  }

  /** The renamed entry re-parses with its body, the inner lambda over `<2>`. */
  lemma TwoPlaceOuter(f: string, sv: nat)
    requires TwoPlaceName(f)
    ensures var inner := "L<2>." + f + "(<2>,<1>)";
            var s := "L<1>.L<2>." + f + "(<2>,<1>)";
            var b := Den(f + "(<2>,<1>)", Simple, None, None, None, None);
            NewDenotation(s, sv)
            == Ok((Den(s, Lambda, Some(Den(inner, Lambda, Some(b), Some("<2>"), None, None)), Some("<1>"), None, None), sv))
  {
    var inner := "L<2>." + f + "(<2>,<1>)";
    var s := "L<1>.L<2>." + f + "(<2>,<1>)";
    TwoPlaceInner(f, "<1>", sv);
    TwoPlaceInnerText(f);
    TwoPlaceOuterFind(f);
    NumberedPlain(s, 4, |f| + 15, sv);
  }

  lemma TwoPlaceInnerText(f: string)
    ensures "L<2>." + f + "(<2>,<1>)" == "L<2>." + f + "(<2>," + "<1>" + ")"
    ensures f + "(<2>,<1>)" == f + "(<2>," + "<1>" + ")"
  {
  }

  /** In the renamed entry `<1>` first occurs after the dot as the last argument, after a `,`. */
  lemma TwoPlaceOuterFind(f: string)
    requires TwoPlaceName(f)
    ensures var s := "L<1>.L<2>." + f + "(<2>,<1>)";
            var at := |f| + 15;
            1 < 4 < |s| && s[0] == 'L' && IndexOf(s, '.') == Some(4) && s[1..4] == "<1>"
            && s[1] == '<' && s[4 - 1] == '>' && s[4 + 1..] == "L<2>." + f + "(<2>,<1>)"
            && FindFrom(s, s[1..4], 4) == at && PyIndex(s, at - 1) == Some(',')
  {
    var inner := "L<2>." + f + "(<2>,<1>)";
    var s := "L<1>.L<2>." + f + "(<2>,<1>)";
    assert s == "L" + "<1>" + "." + inner;
    EtaDot(s, "<1>", inner, 4);
    assert s[4 + 1..] == inner;
    TwoPlaceOuterOccurrence(f, s);
  }

  lemma TwoPlaceOuterOccurrence(f: string, s: string)
    requires TwoPlaceName(f) && s == "L<1>.L<2>." + f + "(<2>,<1>)"
    ensures FindFrom(s, "<1>", 4) == |f| + 15 && PyIndex(s, |f| + 14) == Some(',')
  {
    var at := |f| + 15;
    assert s == "L<1>.L<2>." + f + "(<2>," + "<1>" + ")";
    assert OccursAt(s, "<1>", at) by {
      assert s[at..at + 3] == "<1>";
    }
    forall i | 5 <= i < at + 1 ensures s[i] != '1' {
      if 10 <= i < 10 + |f| {
        assert s[i] == f[i - 10];
      }
    }
    NoOccurrenceBetween(s, "<1>", 4, at, 1);
    FindFromAt(s, "<1>", 4, at);
  }

  /**
   * Beta reduction as the application path performs it, once the function's text has
   * re-parsed to a lambda with a body: the result prints as the re-parsed replacement.
   */
  lemma ApplyLambda(s: string, arg: Den, sv: nat, f: Den, sf: nat, g: Den, sg: nat)
    requires Unbracket(s) == Ok(s) && NewDenotation(s, sv) == Ok((f, sf))
    requires f.kind == Lambda && f.body.Some? && f.lambdavar.Some?
    requires NewDenotation(Replace(f.body.value.text, f.lambdavar.value, Repr(arg)), sf) == Ok((g, sg))
    ensures var r := NewApplication(s, arg, sv);
            r.Ok? && Repr(r.value.0) == Repr(g) && r.value.1 == sg
  {
  }

  /** Applying the renamed entry to `j` replaces `<1>` in the inner lambda. */
  lemma TwoPlaceFirstApplication(f: string, j: Den, sv: nat)
    requires TwoPlaceName(f)
    ensures var r := NewApplication("L<1>.L<2>." + f + "(<2>,<1>)", j, sv);
            r.Ok? && Repr(r.value.0) == "L<2>." + f + "(<2>," + Repr(j) + ")" && r.value.1 == sv
  {
    var s := "L<1>.L<2>." + f + "(<2>,<1>)";
    var x := Repr(j);
    TwoPlaceOuter(f, sv);
    TwoPlaceBetaText(f, x);
    TwoPlaceInner(f, x, sv);
    assert Unbracket(s) == Ok(s);
    var fd := NewDenotation(s, sv).value.0;
    var g := NewDenotation("L<2>." + f + "(<2>," + x + ")", sv).value.0;
    ApplyLambda(s, j, sv, fd, sv, g, sv);
  }

  /** Replacing `<1>` in the inner lambda's text leaves `<2>` alone. */
  lemma TwoPlaceBetaText(f: string, x: string)
    requires TwoPlaceName(f)
    ensures Replace("L<2>." + f + "(<2>,<1>)", "<1>", x) == "L<2>." + f + "(<2>," + x + ")"
  {
    var a := "L<2>." + f + "(<2>,";
    var inner := a + "<1>" + ")";
    assert "L<2>." + f + "(<2>,<1>)" == inner;
    forall i | 1 <= i < |a| + 1 ensures inner[i] != '1' {
      if 5 <= i < 5 + |f| {
        assert inner[i] == f[i - 5];
      }
    }
    NoOccurrenceBetween(inner, "<1>", 0, |a|, 1);
    ReplaceFirst(a, "<1>", ")", x);
    assert Replace(")", "<1>", x) == ")";
  }

  /** Applying the result to `k` replaces `<2>` in `f(<2>,x)`. */
  lemma TwoPlaceSecondApplication(f: string, x: string, k: Den, sv: nat)
    requires TwoPlaceName(f) && '<' !in x
    ensures var r := NewApplication("L<2>." + f + "(<2>," + x + ")", k, sv);
            r.Ok? && Repr(r.value.0) == f + "(" + Repr(k) + "," + x + ")" && r.value.1 == sv
  {
    var s := "L<2>." + f + "(<2>," + x + ")";
    var y := Repr(k);
    TwoPlaceInner(f, x, sv);
    TwoPlaceBodyText(f, x, y);
    LiteralTerm(f + "(" + y + "," + x + ")", sv);
    assert Unbracket(s) == Ok(s);
    var fd := NewDenotation(s, sv).value.0;
    var g := NewDenotation(f + "(" + y + "," + x + ")", sv).value.0;
    ApplyLambda(s, k, sv, fd, sv, g, sv);
  }

  /** Replacing `<2>` in `f(<2>,x)` by `y` gives `f(y,x)` when `x` has no `<`. */
  lemma TwoPlaceBodyText(f: string, x: string, y: string)
    requires TwoPlaceName(f) && '<' !in x
    ensures Replace(f + "(<2>," + x + ")", "<2>", y) == f + "(" + y + "," + x + ")"
  {
    var body := f + "(<2>," + x + ")";
    var rest := "," + x + ")";
    assert body == f + "(" + "<2>" + rest;
    NoOccurrenceBetween(body, "<2>", 0, |f| + 1, 0);
    ReplaceFirst(f + "(", "<2>", rest, y);
    ArgumentsKept(x, rest, y);
    assert f + "(" + y + rest == f + "(" + y + "," + x + ")";
  }

  /** The arguments after the first hold no `<2>`, so the replacement keeps them. */
  lemma ArgumentsKept(x: string, rest: string, y: string)
    requires '<' !in x && rest == "," + x + ")"
    ensures Replace(rest, "<2>", y) == rest
  {
    NoOccurrenceBetween(rest, "<2>", 0, |rest|, 0);
    ReplaceAbsent(rest, "<2>", y);
  }

  // ---------------------------------------------------------------------------------
  // reducestring and equality.

  /** Where the first `<` is, and the first `>` at or after it (or -1). */
  function LeftIndex(r: string): (i: nat)
    requires '<' in r
    ensures i < |r| && r[i] == '<' && '<' !in r[..i]
  {
    IndexOf(r, '<').value
  }

  function RightIndex(r: string): int
    requires '<' in r
  {
    FindFrom(r, ">", LeftIndex(r))
  }

  /** The text `{counter}` a numbered variable is renamed to. */
  function Placeholder(counter: nat): (p: string)
    ensures '<' !in p
  {
    var digits := NatToString(counter);
    assert forall k :: 0 <= k < |digits| ==> IsDigit(digits[k]);
    "{" + digits + "}"
  }

  /** The pattern `<…>` from the first `<` up to the next `>`, as the source slices it. */
  function FirstVariable(r: string): string
    requires '<' in r
  {
    "<" + PySlice(r, LeftIndex(r) + 1, RightIndex(r)) + ">"
  }

  /** One pass of the `reducestring` loop: the first `<…>` and its repeats become `{counter}`. */
  function ReduceStep(r: string, counter: nat): string
    requires '<' in r
  {
    Replace(r, FirstVariable(r), Placeholder(counter))
  }

  /** With a closing `>` the pattern is exactly the text between the two brackets. */
  lemma FirstVariableOccurs(r: string)
    requires '<' in r && RightIndex(r) >= 0
    ensures OccursAt(r, FirstVariable(r), LeftIndex(r))
  {
    var left, right := LeftIndex(r), RightIndex(r);
    assert OccursAt(r, ">", right);
    assert r[right] == '>' by {
      assert r[right..right + 1][0] == r[right];
    }
    var middle := PySlice(r, left + 1, right);
    assert middle == r[left + 1..right];
    assert "<" + middle + ">" == r[left..right + 1];
  }

  /** With a closing `>` the pass removes at least one `<`. */
  lemma ReduceStepShrinks(r: string, counter: nat)
    requires '<' in r && RightIndex(r) >= 0
    ensures Count('<', ReduceStep(r, counter)) < Count('<', r)
  {
    var pat := FirstVariable(r);
    FirstVariableOccurs(r);
    IsSubstringAt(pat, r, LeftIndex(r));
    assert pat[0] == '<';
    CountReplace('<', r, pat, Placeholder(counter));
  }

  /**
   * Without a closing `>` after the first `<` the pattern `<…>` occurs nowhere, so the
   * pass changes nothing: the source's loop keeps the same string and never ends.
   */
  lemma ReduceStepStuck(r: string, counter: nat)
    requires '<' in r && RightIndex(r) == -1
    ensures ReduceStep(r, counter) == r
  {
    var left := LeftIndex(r);
    var pat := FirstVariable(r);
    forall j: nat ensures !OccursAt(r, pat, j) {
      if j + |pat| <= |r| {
        if j < left {
          assert r[j] in r[..left];
          assert r[j..j + |pat|][0] != pat[0];
        } else {
          assert !OccursAt(r, ">", j + |pat| - 1);
          assert r[j + |pat| - 1..j + |pat|] != ">";
          assert r[j..j + |pat|][|pat| - 1] != pat[|pat| - 1];
        }
      }
    }
    ReplaceAbsent(r, pat, Placeholder(counter));
  }

  /**
   * `reducestring` from the loop state `(r, counter)`: numbered variables are renamed
   * `{0}`, `{1}`, … in order of first appearance.  The loop that never ends is
   * `Err(Diverges)`.
   */
  function ReduceFrom(r: string, counter: nat): (res: Result<string>)
    ensures res.Ok? ==> '<' !in res.value
    ensures '<' !in r ==> res == Ok(r)
    ensures res.Err? ==> res.error == Diverges
    decreases Count('<', r)
  {
    if '<' !in r then Ok(r)
    else if RightIndex(r) == -1 then Err(Diverges)
    else
      ReduceStepShrinks(r, counter);
      ReduceFrom(ReduceStep(r, counter), counter + 1)
  }

  function ReduceString(s: string): (res: Result<string>)
    ensures res.Ok? ==> '<' !in res.value
  {
    ReduceFrom(s, 0)
  }

  /** The `reducestring` loop; a pass that leaves the string unchanged would repeat forever. */
  method ReduceStringLoop(s: string) returns (res: Result<string>)
    ensures res == ReduceString(s)
  {
    var reducedstring := s;
    var reducedvarcounter: nat := 0;
    while '<' in reducedstring
      invariant ReduceFrom(reducedstring, reducedvarcounter) == ReduceString(s)
      decreases Count('<', reducedstring)
    {
      var leftindex := IndexOf(reducedstring, '<').value;
      var rightindex := FindFrom(reducedstring, ">", leftindex);
      var varnumber := PySlice(reducedstring, leftindex + 1, rightindex);
      var next := Replace(reducedstring, "<" + varnumber + ">", "{" + NatToString(reducedvarcounter) + "}");
      assert next == ReduceStep(reducedstring, reducedvarcounter);
      if rightindex == -1 {
        ReduceStepStuck(reducedstring, reducedvarcounter);
      } else {
        ReduceStepShrinks(reducedstring, reducedvarcounter);
      }
      if next == reducedstring {
        return Err(Diverges);
      }
      reducedstring := next;
      reducedvarcounter := reducedvarcounter + 1;
    }
    return Ok(reducedstring);
  }

  /**
   * `Denotation.__eq__`: identical texts are equal; otherwise, only when the first
   * text holds a `<`, the canonical renamings of both texts are compared.
   */
  function Eq(a: Den, b: Den): (r: Result<bool>)
    ensures r == Ok(true) <==>
      a.text == b.text
      || ('<' in a.text && ReduceString(a.text).Ok? && ReduceString(b.text) == ReduceString(a.text))
    ensures r.Err? ==> a.text != b.text && '<' in a.text && r.error == Diverges
  {
    if a.text == b.text then Ok(true)
    else if '<' in a.text then
      var x :- ReduceString(a.text);
      var y :- ReduceString(b.text);
      Ok(x == y)
    else Ok(false)
  }

  /** Renaming: `L<3>.f(<3>)` and `L<8>.f(<8>)` differ as text yet are equal. */
  lemma AlphaEquivalent()
    ensures Eq(Den("L<3>.f(<3>)", Simple, None, None, None, None),
               Den("L<8>.f(<8>)", Simple, None, None, None, None)) == Ok(true)
  {
    var p3, p8 := "<" + ['3'] + ">", "<" + ['8'] + ">";
    assert "L<3>.f(<3>)" == "L" + p3 + ".f(" + p3 + ")";
    assert "L<8>.f(<8>)" == "L" + p8 + ".f(" + p8 + ")";
    ReduceOneVariable('3');
    ReduceOneVariable('8');
  }

  /** `L<d>.f(<d>)` for a digit `d` renames to `L{0}.f({0})`. */
  lemma ReduceOneVariable(d: char)
    requires IsDigit(d)
    ensures var pat := "<" + [d] + ">";
            ReduceString("L" + pat + ".f(" + pat + ")") == Ok("L{0}.f({0})")
  {
    var pat := "<" + [d] + ">";
    var a := "L" + pat + ".f(" + pat + ")";
    OneVariableFound(d, a, pat);
    assert Placeholder(0) == "{0}" by {
      assert NatToString(0) == "0";
    }
    OneVariableReplaced(pat, "{0}");
    RenamedText();
    assert ReduceStep(a, 0) == "L{0}.f({0})";
    assert '<' !in "L{0}.f({0})";
  }

  lemma RenamedText()
    ensures "L" + "{0}" + ".f(" + "{0}" + ")" == "L{0}.f({0})"
  {
  }

  lemma OneVariableFound(d: char, a: string, pat: string)
    requires IsDigit(d) && pat == "<" + [d] + ">" && a == "L" + pat + ".f(" + pat + ")"
    ensures '<' in a && RightIndex(a) >= 0 && FirstVariable(a) == pat
  {
    assert a[0] == 'L' && a[1] == '<' && a[2] == d && a[3] == '>';
    assert LeftIndex(a) == 1 by {
      assert a[..1] == "L";
    }
    assert RightIndex(a) == 3 by {
      assert !OccursAt(a, ">", 1) by { assert a[1..2][0] == '<'; }
      assert !OccursAt(a, ">", 2) by { assert a[2..3][0] == d; }
      assert OccursAt(a, ">", 3) by { assert a[3..4] == ">"; }
    }
    assert PySlice(a, 2, 3) == [d];
  }

  lemma OneVariableReplaced(pat: string, v: string)
    requires |pat| == 3 && pat[0] == '<'
    ensures Replace("L" + pat + ".f(" + pat + ")", pat, v) == "L" + v + ".f(" + v + ")"
  {
    var body := ".f(" + pat + ")";
    var out := ".f(" + v + ")";
    Assoc(".f(", pat, ")");
    Assoc(".f(", v, ")");
    Regroup(pat, ".f(", ")");
    Regroup(v, ".f(", ")");
    ReplaceMiss('L', pat + body, pat, v);
    ReplaceHit(pat, body, v);
    BodyReplaced(pat, v);
  }

  /** `L x .f( x )` read as `L` followed by `x .f( x )`. */
  lemma Regroup(x: string, f: string, p: string)
    ensures "L" + x + f + x + p == ['L'] + (x + (f + x + p))
  {
    Assoc("L" + x + f, x, p);
    Assoc("L" + x, f, x + p);
    Assoc("L", x, f + (x + p));
    Assoc(f, x, p);
  }

  /** The body `.f(<d>)` of the example: only its final variable is replaced. */
  lemma BodyReplaced(pat: string, v: string)
    requires |pat| == 3 && pat[0] == '<'
    ensures Replace(".f(" + pat + ")", pat, v) == ".f(" + v + ")"
  {
    var t1 := pat + ")";
    var t2 := ['('] + t1;
    var t3 := ['f'] + t2;
    assert ".f(" + pat + ")" == ['.'] + t3;
    assert Replace(")", pat, v) == ")";
    ReplaceHit(pat, ")", v);
    ReplaceMiss('(', t1, pat, v);
    ReplaceMiss('f', t2, pat, v);
    ReplaceMiss('.', t3, pat, v);
    assert ['.'] + (['f'] + (['('] + (v + ")"))) == ".f(" + v + ")";
  }

}
