/**
 * What the constructor of `Sequence` in sequent.py tries and what it keeps.  The log
 * `tried` of a `Work` record lists every alternative in the order it was tried, with
 * the children built for it; the lemmas here show that
 *  - the alternatives tried are exactly the applicable ones (`Applicable`), in the
 *    source's loop order (`Alts`);
 *  - each child is the sequent the rule sets up (`Shape`): the goal's argument as a
 *    fresh variable for `\R` and `/R`, the span and the functor's result for `\L` and
 *    `/L`, the raised functor with its two gaps for `ABS out`, the refilled list for
 *    `ABS in`;
 *  - `subtrees` is exactly the list of attempts whose children are all valid, so a
 *    node is valid if and only if it is an axiom or one of its alternatives succeeded;
 *  - every child is the node `Node` builds for the child's own sequent (`NodeOf`).
 */
module SearchLog {
  import opened Outcomes
  import B = Brackets
  import C = Categories
  import T = Terms
  import opened Search

  // ---------------------------------------------------------------------------------
  // Which alternatives apply.

  /** `ABS out` applies to a function category not followed by a lambda gap. */
  predicate QrApplies(cs: seq<Constituent>, p: nat)
    requires p < |cs|
  {
    var next := if p < |cs| - 1 then cs[p + 1] else cs[p];
    cs[p].syntactictype.Func? && !next.syntactictype.gap.LambdaGap?
  }

  /** A left rule for the functor at `f` with argument span `cs[lo..hi]`. */
  predicate LeftApplies(cs: seq<Constituent>, f: nat, lo: nat, hi: nat) {
    f < |cs| && cs[f].syntactictype.Func?
    && if cs[f].syntactictype.slash == B.LeftSlash then lo < hi == f else f + 1 == lo < hi <= |cs|
  }

  /**
   * The alternatives of a non-axiom node: a right rule for a function goal; `\L` for a
   * backslash functor with any non-empty span ending just before it; `/L` for a slash
   * functor with any non-empty span starting just after it; `ABS out` while quantifier
   * raising is below its limit; `ABS in` for a lambda gap after the first position,
   * once the cooldown has run out and the list holds more than two constituents.
   */
  predicate Applicable(cfg: Config, cs: seq<Constituent>, goal: C.SynType, q: nat, cd: nat, a: Alt) {
    match a
    case RightAlt => goal.Func?
    case LeftAlt(f, lo, hi) => LeftApplies(cs, f, lo, hi)
    case QrAlt(p) => q < cfg.qrlimit && p < |cs| && QrApplies(cs, p)
    case AbsInAlt(p) => cd == 0 && |cs| > 2 && 0 < p < |cs| && cs[p].syntactictype.gap.LambdaGap?
  }

  /** The `\L` spans of the functor at `f`, start `j - 1` first, down to start 0. */
  function BackAlts(f: nat, j: nat): seq<Alt> {
    if j == 0 then [] else [LeftAlt(f, j - 1, f)] + BackAlts(f, j - 1)
  }

  /** The `/L` spans of the functor at `f`, end `i + 1` first, up to end `n`. */
  function SlashAlts(n: nat, f: nat, i: nat): seq<Alt>
    requires i <= n
    decreases n - i
  {
    if i == n then [] else [LeftAlt(f, f + 1, i + 1)] + SlashAlts(n, f, i + 1)
  }

  /** The left-rule alternatives of the constituent at `f`. */
  function FunctorAlts(cs: seq<Constituent>, f: nat): seq<Alt>
    requires f < |cs|
  {
    var ty := cs[f].syntactictype;
    if ty.Func? && ty.slash == B.LeftSlash then BackAlts(f, f)
    else if ty.Func? then SlashAlts(|cs|, f, f + 1)
    else []
  }

  /** The left-rule alternatives of the constituents from position `c` on. */
  function LeftAlts(cs: seq<Constituent>, c: nat): seq<Alt>
    requires c <= |cs|
    decreases |cs| - c
  {
    if c == |cs| then [] else FunctorAlts(cs, c) + LeftAlts(cs, c + 1)
  }

  /** The `ABS out` alternatives from position `p` on. */
  function QrAlts(cs: seq<Constituent>, p: nat): seq<Alt>
    requires p <= |cs|
    decreases |cs| - p
  {
    if p == |cs| then [] else (if QrApplies(cs, p) then [QrAlt(p)] else []) + QrAlts(cs, p + 1)
  }

  /** The `ABS in` alternatives from position `p` on. */
  function AbsInAlts(cs: seq<Constituent>, p: nat): seq<Alt>
    requires p <= |cs|
    decreases |cs| - p
  {
    if p == |cs| then []
    else (if cs[p].syntactictype.gap.LambdaGap? && p > 0 then [AbsInAlt(p)] else []) + AbsInAlts(cs, p + 1)
  }

  /** Every alternative of a non-axiom node, in the order the constructor tries them. */
  function Alts(cfg: Config, cs: seq<Constituent>, goal: C.SynType, q: nat, cd: nat): seq<Alt> {
    (if goal.Func? then [RightAlt] else []) + LeftAlts(cs, 0)
    + (if q < cfg.qrlimit then QrAlts(cs, 0) else [])
    + (if cd == 0 && |cs| > 2 then AbsInAlts(cs, 0) else [])
  }

  lemma {:induction false} BackAltsIn(f: nat, j: nat, a: Alt)
    ensures a in BackAlts(f, j) <==> a.LeftAlt? && a.functor == f && a.lo < j && a.hi == f
  {
    if j > 0 {
      BackAltsIn(f, j - 1, a);
    }
  }

  lemma {:induction false} SlashAltsIn(n: nat, f: nat, i: nat, a: Alt)
    requires i <= n
    ensures a in SlashAlts(n, f, i) <==> a.LeftAlt? && a.functor == f && a.lo == f + 1 && i < a.hi <= n
    decreases n - i
  {
    if i < n {
      SlashAltsIn(n, f, i + 1, a);
    }
  }

  lemma {:induction false} LeftAltsIn(cs: seq<Constituent>, c: nat, a: Alt)
    requires c <= |cs|
    ensures a in LeftAlts(cs, c) <==> a.LeftAlt? && c <= a.functor && LeftApplies(cs, a.functor, a.lo, a.hi)
    decreases |cs| - c
  {
    if c < |cs| {
      FunctorAltsIn(cs, c, a);
      LeftAltsIn(cs, c + 1, a);
    }
  }

  /** The alternatives of the functor at `f` are its applicable left rules. */
  lemma FunctorAltsIn(cs: seq<Constituent>, f: nat, a: Alt)
    requires f < |cs|
    ensures a in FunctorAlts(cs, f) <==> a.LeftAlt? && a.functor == f && LeftApplies(cs, a.functor, a.lo, a.hi)
  {
    BackAltsIn(f, f, a);
    SlashAltsIn(|cs|, f, f + 1, a);
  }

  lemma {:induction false} QrAltsIn(cs: seq<Constituent>, p: nat, a: Alt)
    requires p <= |cs|
    ensures a in QrAlts(cs, p) <==> a.QrAlt? && p <= a.pos < |cs| && QrApplies(cs, a.pos)
    decreases |cs| - p
  {
    if p < |cs| {
      QrAltsIn(cs, p + 1, a);
      var head: seq<Alt> := if QrApplies(cs, p) then [QrAlt(p)] else [];
      assert QrAlts(cs, p) == head + QrAlts(cs, p + 1);
      assert a in head <==> a == QrAlt(p) && QrApplies(cs, p);
    }
  }

  lemma {:induction false} AbsInAltsIn(cs: seq<Constituent>, p: nat, a: Alt)
    requires p <= |cs|
    ensures a in AbsInAlts(cs, p) <==>
              a.AbsInAlt? && p <= a.pos < |cs| && 0 < a.pos && cs[a.pos].syntactictype.gap.LambdaGap?
    decreases |cs| - p
  {
    if p < |cs| {
      AbsInAltsIn(cs, p + 1, a);
    }
  }

  /** The list `Alts` holds exactly the applicable alternatives. */
  lemma AltsExact(cfg: Config, cs: seq<Constituent>, goal: C.SynType, q: nat, cd: nat, a: Alt)
    ensures a in Alts(cfg, cs, goal, q, cd) <==> Applicable(cfg, cs, goal, q, cd, a)
  {
    LeftAltsIn(cs, 0, a);
    QrAltsIn(cs, 0, a);
    AbsInAltsIn(cs, 0, a);
  }

  // ---------------------------------------------------------------------------------
  // The children each alternative builds.

  /** A term the `Denotation('var')` constructor makes: a fresh variable. */
  ghost predicate Fresh(d: T.Den) {
    exists n: nat :: d == T.FreshVariable(n).0
  }

  /** A child node's goal and bookkeeping, and the invariant every node keeps. */
  predicate Built(cfg: Config, n: Sequence, goal: C.SynType, rule: Rule, q: nat, cd: nat) {
    n.goal == goal && n.ruleused == rule && n.qrcount == q && n.cooldown == cd && NodeInv(cfg, n)
  }

  /** The child's constituents are `before`, a fresh variable of category `ty`, and `after`. */
  ghost predicate WithVariable(n: Sequence, before: seq<Constituent>, ty: C.SynType, after: seq<Constituent>) {
    var k := n.constituents;
    |k| == |before| + 1 + |after| && k == before + [k[|before|]] + after
    && k[|before|].syntactictype == ty && Fresh(k[|before|].denotation)
  }

  /** `\R` proves the goal's result from a fresh argument in front; `/R` from one at the end. */
  ghost predicate RightShape(cfg: Config, cs: seq<Constituent>, goal: C.SynType, q: nat, cd: nat, ch: seq<Sequence>)
    requires goal.Func?
  {
    |ch| == 1
    && if goal.slash == B.LeftSlash then WithVariable(ch[0], [], goal.left, cs) && Built(cfg, ch[0], goal.right, BackslashR, q, Cool(cd))
       else WithVariable(ch[0], cs, goal.right, []) && Built(cfg, ch[0], goal.left, SlashR, q, Cool(cd))
  }

  /**
   * A left rule: the span must prove the argument category; only when it does, the
   * constituents before it, a fresh variable of the result category and those after
   * must prove the goal.
   */
  ghost predicate LeftShape(cfg: Config, goal: C.SynType, q: nat, cd: nat, rule: Rule, span: seq<Constituent>,
                      argtype: C.SynType, before: seq<Constituent>, restype: C.SynType,
                      after: seq<Constituent>, ch: seq<Sequence>)
  {
    1 <= |ch| <= 2 && ch[0].constituents == span && Built(cfg, ch[0], argtype, rule, q, Cool(cd))
    && (|ch| == 2 <==> ch[0].isvalid)
    && (|ch| == 2 ==> WithVariable(ch[1], before, restype, after) && Built(cfg, ch[1], goal, rule, q, Cool(cd)))
  }

  /**
   * The gaps `ABS out` adds: the lambda gap `l` draws the next `varcounter` id, the
   * variable gap `v` carries the same one, and their terms are the literals `l` and `v`.
   */
  ghost predicate QrPair(l: Constituent, v: Constituent) {
    (exists vc: nat :: C.ParseType("l", vc) == Ok((l.syntactictype, vc + 1))
                       && C.ParseType("v", vc + 1) == Ok((v.syntactictype, vc + 1)))
    && l.denotation == T.Den("l", T.Simple, None, None, None, None)
    && v.denotation == T.Den("v", T.Simple, None, None, None, None)
  }

  /** `ABS out` of the constituent at `p`: it moves to the front, then `l`, and `v` takes its place. */
  ghost predicate QrShape(cfg: Config, cs: seq<Constituent>, goal: C.SynType, q: nat, p: nat, ch: seq<Sequence>)
    requires p < |cs|
  {
    |ch| == 1 && var k := ch[0].constituents;
    |k| == |cs| + 2 && k == [cs[p], k[1]] + cs[..p] + [k[p + 2]] + cs[p + 1..] && QrPair(k[1], k[p + 2])
    && Built(cfg, ch[0], goal, AbsOut, q + 1, cfg.cooldownperiod)
  }

  /** `ABS in` of the lambda gap at `p`: the gap and its binder leave, the binder fills the gaps. */
  ghost predicate AbsInShape(cfg: Config, cs: seq<Constituent>, goal: C.SynType, q: nat, p: nat, ch: seq<Sequence>)
    requires 0 < p < |cs| && cs[p].syntactictype.gap.LambdaGap?
  {
    |ch| == 1
    && ch[0].constituents == Refill(cs[..p - 1] + cs[p + 1..], cs[p].syntactictype.gap.varname, cs[p - 1])
    && Built(cfg, ch[0], goal, AbsIn, q, 0)
  }

  /** The children of an attempt are those its alternative builds. */
  ghost predicate Shape(cfg: Config, cs: seq<Constituent>, goal: C.SynType, q: nat, cd: nat, a: Attempt) {
    match a.alt
    case RightAlt => goal.Func? && RightShape(cfg, cs, goal, q, cd, a.children)
    case LeftAlt(f, lo, hi) =>
      LeftApplies(cs, f, lo, hi)
      && var ty := cs[f].syntactictype;
         if ty.slash == B.LeftSlash then
           LeftShape(cfg, goal, q, cd, BackslashL, cs[lo..f], ty.left, cs[..lo], ty.right, cs[f + 1..], a.children)
         else
           LeftShape(cfg, goal, q, cd, SlashL, cs[lo..hi], ty.right, cs[..f], ty.left, cs[hi..], a.children)
    case QrAlt(p) => p < |cs| && QrShape(cfg, cs, goal, q, p, a.children)
    case AbsInAlt(p) =>
      0 < p < |cs| && cs[p].syntactictype.gap.LambdaGap? && AbsInShape(cfg, cs, goal, q, p, a.children)
  }

  // ---------------------------------------------------------------------------------
  // What is kept.

  /** A left rule needs both of its children; the other rules one. */
  function Arity(a: Alt): nat {
    if a.LeftAlt? then 2 else 1
  }

  /** Every child the alternative needs was built and is valid. */
  predicate Succeeded(a: Attempt) {
    |a.children| == Arity(a.alt) && forall k :: 0 <= k < |a.children| ==> a.children[k].isvalid
  }

  /** The children of the successful attempts, in the order they were tried. */
  function Successes(t: seq<Attempt>): seq<seq<Sequence>> {
    if |t| == 0 then []
    else Successes(t[..|t| - 1]) + (if Succeeded(t[|t| - 1]) then [t[|t| - 1].children] else [])
  }

  /** The alternatives of a log. */
  function AltsOf(t: seq<Attempt>): seq<Alt> {
    if |t| == 0 then [] else AltsOf(t[..|t| - 1]) + [t[|t| - 1].alt]
  }

  /** Appending nothing. */
  lemma AppendNone(a: seq<Alt>, b: seq<Alt>)
    requires b == []
    ensures a + b == a
  {
  }

  /** `(a + [x]) + b` regrouped. */
  lemma Regroup(a: seq<Alt>, x: Alt, b: seq<Alt>, c: seq<Alt>)
    requires c == [x] + b
    ensures a + [x] + b == a + c
  {
  }

  /** Every attempt logged has its alternative's shape, and `subtrees` holds those that succeeded. */
  ghost predicate LogInv(cfg: Config, cs: seq<Constituent>, goal: C.SynType, q: nat, cd: nat, fuel: nat, w: Work) {
    w.subtrees == Successes(w.tried) && Shaped(cfg, cs, goal, q, cd, w.tried) && GrownAll(cfg, fuel, w.tried)
  }

  /**
   * `n` is the node the constructor builds for `n`'s own sequent, goal and bookkeeping,
   * from some counters and with no more fuel than `fuel`.
   */
  ghost predicate NodeOf(cfg: Config, n: Sequence, fuel: nat) {
    exists f: nat, ctr: Counters ::
      f <= fuel && Node(cfg, n.constituents, n.goal, n.ruleused, n.qrcount, n.cooldown, f, ctr).Ok?
      && Node(cfg, n.constituents, n.goal, n.ruleused, n.qrcount, n.cooldown, f, ctr).value.0 == n
  }

  /** What `Node` returns is `NodeOf` its own sequent. */
  lemma NodeOfNode(cfg: Config, cs: seq<Constituent>, goal: C.SynType, rule: Rule, q: nat, cd: nat,
                   f: nat, fuel: nat, ctr: Counters)
    requires f <= fuel && Node(cfg, cs, goal, rule, q, cd, f, ctr).Ok?
    ensures NodeOf(cfg, Node(cfg, cs, goal, rule, q, cd, f, ctr).value.0, fuel)
  {
    var n := Node(cfg, cs, goal, rule, q, cd, f, ctr).value.0;
    assert Node(cfg, n.constituents, n.goal, n.ruleused, n.qrcount, n.cooldown, f, ctr)
           == Node(cfg, cs, goal, rule, q, cd, f, ctr);
  }

  /** Every child of the attempt is a node the constructor built for it. */
  ghost predicate Grown(cfg: Config, fuel: nat, a: Attempt) {
    forall i :: 0 <= i < |a.children| ==> NodeOf(cfg, a.children[i], fuel)
  }

  /** Every attempt of the log is `Grown`. */
  ghost predicate GrownAll(cfg: Config, fuel: nat, t: seq<Attempt>) {
    |t| == 0 || (GrownAll(cfg, fuel, t[..|t| - 1]) && Grown(cfg, fuel, t[|t| - 1]))
  }

  /** `GrownAll`, attempt by attempt. */
  lemma {:induction false} GrownAllAt(cfg: Config, fuel: nat, t: seq<Attempt>, k: nat)
    requires GrownAll(cfg, fuel, t) && k < |t|
    ensures Grown(cfg, fuel, t[k])
  {
    if k < |t| - 1 {
      GrownAllAt(cfg, fuel, t[..|t| - 1], k);
    }
  }

  /** Every attempt of the log has its alternative's shape. */
  ghost predicate Shaped(cfg: Config, cs: seq<Constituent>, goal: C.SynType, q: nat, cd: nat, t: seq<Attempt>) {
    |t| == 0 || (Shaped(cfg, cs, goal, q, cd, t[..|t| - 1]) && Shape(cfg, cs, goal, q, cd, t[|t| - 1]))
  }

  /** `Shaped`, attempt by attempt. */
  lemma {:induction false} ShapedAll(cfg: Config, cs: seq<Constituent>, goal: C.SynType, q: nat, cd: nat,
                                     t: seq<Attempt>, k: nat)
    requires Shaped(cfg, cs, goal, q, cd, t) && k < |t|
    ensures Shape(cfg, cs, goal, q, cd, t[k])
  {
    if k < |t| - 1 {
      ShapedAll(cfg, cs, goal, q, cd, t[..|t| - 1], k);
    }
  }

  /**
   * One step appended exactly one attempt for `alt`, recorded its children if and only
   * if they all succeeded, and left the terms alone otherwise.
   */
  predicate Appended(w: Work, r: Work, alt: Alt) {
    |r.tried| == |w.tried| + 1 && r.tried == w.tried + [r.tried[|w.tried|]] && r.tried[|w.tried|].alt == alt
    && var a := r.tried[|w.tried|];
       r.subtrees == w.subtrees + (if Succeeded(a) then [a.children] else [])
       && (!Succeeded(a) ==> r.denotations == w.denotations)
  }

  /** A shaped step keeps the log invariant and adds its alternative to the log. */
  lemma AppendedKeeps(cfg: Config, cs: seq<Constituent>, goal: C.SynType, q: nat, cd: nat, fuel: nat,
                      w: Work, r: Work, alt: Alt)
    requires LogInv(cfg, cs, goal, q, cd, fuel, w) && Appended(w, r, alt)
    requires Shape(cfg, cs, goal, q, cd, r.tried[|w.tried|]) && Grown(cfg, fuel, r.tried[|w.tried|])
    ensures LogInv(cfg, cs, goal, q, cd, fuel, r) && AltsOf(r.tried) == AltsOf(w.tried) + [alt]
  {
    var t := r.tried;
    assert t[..|t| - 1] == w.tried;
  }

  // ---------------------------------------------------------------------------------
  // The steps.

  /** A step that tried one alternative with a single child `n`, recorded if and only if valid. */
  lemma OneChild(w: Work, r: Work, alt: Alt, n: Sequence)
    requires !alt.LeftAlt? && r.tried == w.tried + [Attempt(alt, [n])]
    requires n.isvalid ==> r.subtrees == w.subtrees + [[n]]
    requires !n.isvalid ==> r.subtrees == w.subtrees && r.denotations == w.denotations
    ensures Appended(w, r, alt) && r.tried[|w.tried|] == Attempt(alt, [n])
    ensures Succeeded(r.tried[|w.tried|]) <==> n.isvalid
  {
    assert r.tried[|w.tried|] == Attempt(alt, [n]);
    assert [n][0] == n;
  }

  /** The right-rule child built from a fresh variable `v`. */
  lemma RightChild(cfg: Config, cs: seq<Constituent>, goal: C.SynType, q: nat, cd: nat, v: Constituent, n: Sequence)
    requires goal.Func? && Fresh(v.denotation)
    requires v.syntactictype == (if goal.slash == B.LeftSlash then goal.left else goal.right)
    requires n.constituents == (if goal.slash == B.LeftSlash then [v] + cs else cs + [v])
    requires Built(cfg, n, if goal.slash == B.LeftSlash then goal.right else goal.left,
                   if goal.slash == B.LeftSlash then BackslashR else SlashR, q, Cool(cd))
    ensures RightShape(cfg, cs, goal, q, cd, [n])
    ensures n.constituents[if goal.slash == B.LeftSlash then 0 else |cs|] == v
  {
    if goal.slash == B.LeftSlash {
      VariableAt(n, [], v, cs);
    } else {
      VariableAt(n, cs, v, []);
    }
  }

  /** A child whose constituents are `before + [v] + after` has the fresh `v` there. */
  lemma VariableAt(n: Sequence, before: seq<Constituent>, v: Constituent, after: seq<Constituent>)
    requires Fresh(v.denotation)
    requires n.constituents == before + [v] + after
    ensures WithVariable(n, before, v.syntactictype, after) && n.constituents[|before|] == v
  {
  }

  /**
   * `\R` / `/R` logs one attempt whose child is the goal's result with a fresh argument
   * added on the slash's side; when that child is valid, its terms are abstracted over
   * the variable (`AddLambdas`).
   */
  lemma RightRuleLog(cfg: Config, cs: seq<Constituent>, goal: C.SynType, q: nat, cd: nat, fuel: nat,
                     w: Work, r: Work)
    requires goal.Func? && WorkInv(cfg, cs, goal, q, cd, w)
    requires RightRule(cfg, cs, goal, q, cd, fuel, w) == Ok(r)
    ensures Appended(w, r, RightAlt) && Shape(cfg, cs, goal, q, cd, r.tried[|w.tried|])
    ensures var a := r.tried[|w.tried|];
            var n := a.children[0];
            var v := n.constituents[if goal.slash == B.LeftSlash then 0 else |cs|];
            Succeeded(a) ==>
              exists sv: nat :: AddLambdas(cfg, v.denotation, n.denotations, 0, w.denotations, sv)
                                == Ok((r.denotations, r.ctr.sv))
  {
    var nd := T.FreshVariable(w.ctr.sv);
    var v := Constituent(if goal.slash == B.LeftSlash then goal.left else goal.right, nd.0);
    var childcs := if goal.slash == B.LeftSlash then [v] + cs else cs + [v];
    var childgoal := if goal.slash == B.LeftSlash then goal.right else goal.left;
    var childrule := if goal.slash == B.LeftSlash then BackslashR else SlashR;
    WeightAdd(cs, v);
    var sub := Node(cfg, childcs, childgoal, childrule, q, Cool(cd), fuel, Counters(w.ctr.vc, nd.1));
    assert sub.Ok?;
    var n := sub.value.0;
    assert Fresh(nd.0);
    RightChild(cfg, cs, goal, q, cd, v, n);
    if n.isvalid {
      var lam := AddLambdas(cfg, nd.0, n.denotations, 0, w.denotations, sub.value.1.sv);
      assert lam.Ok?;
      assert r.denotations == lam.value.0 && r.ctr.sv == lam.value.1;
      assert lam == Ok((r.denotations, r.ctr.sv));
    }
    OneChild(w, r, RightAlt, n);
  }

  /** The right-rule child is the node built for its own sequent. */
  lemma RightRuleGrown(cfg: Config, cs: seq<Constituent>, goal: C.SynType, q: nat, cd: nat, fuel: nat,
                       w: Work, r: Work)
    requires goal.Func? && WorkInv(cfg, cs, goal, q, cd, w)
    requires RightRule(cfg, cs, goal, q, cd, fuel, w) == Ok(r)
    ensures |r.tried| > |w.tried| && Grown(cfg, fuel, r.tried[|w.tried|])
  {
    var nd := T.FreshVariable(w.ctr.sv);
    var v := Constituent(if goal.slash == B.LeftSlash then goal.left else goal.right, nd.0);
    var childcs := if goal.slash == B.LeftSlash then [v] + cs else cs + [v];
    var childgoal := if goal.slash == B.LeftSlash then goal.right else goal.left;
    var childrule := if goal.slash == B.LeftSlash then BackslashR else SlashR;
    var sub := Node(cfg, childcs, childgoal, childrule, q, Cool(cd), fuel, Counters(w.ctr.vc, nd.1));
    assert sub.Ok?;
    NodeOfNode(cfg, childcs, childgoal, childrule, q, Cool(cd), fuel, fuel, Counters(w.ctr.vc, nd.1));
    assert r.tried == w.tried + [Attempt(RightAlt, [sub.value.0])];
    assert r.tried[|w.tried|].children == [sub.value.0];
  }

  /** A left-rule step that built both children, recorded if and only if the second is valid. */
  lemma TwoChildren(w: Work, r: Work, alt: Alt, n1: Sequence, n2: Sequence)
    requires alt.LeftAlt? && n1.isvalid && r.tried == w.tried + [Attempt(alt, [n1, n2])]
    requires n2.isvalid ==> r.subtrees == w.subtrees + [[n1, n2]]
    requires !n2.isvalid ==> r.subtrees == w.subtrees && r.denotations == w.denotations
    ensures Appended(w, r, alt) && r.tried[|w.tried|] == Attempt(alt, [n1, n2])
    ensures Succeeded(r.tried[|w.tried|]) <==> n2.isvalid
  {
    assert r.tried[|w.tried|] == Attempt(alt, [n1, n2]);
    assert [n1, n2][0] == n1 && [n1, n2][1] == n2;
  }

  /**
   * The continuation of a left rule logs both children: the valid argument child and
   * the list with a fresh variable of the functor's result category in place of the
   * functor and its span; when that is valid, the pairs of terms are combined (`AddPairs`).
   */
  lemma LeftContinueLog(cfg: Config, cs: seq<Constituent>, goal: C.SynType, q: nat, cd: nat, fuel: nat,
                        alt: Alt, rule: Rule, sub1: Sequence,
                        before: seq<Constituent>, restype: C.SynType, after: seq<Constituent>,
                        functor: T.Den, w: Work, r: Work)
    requires rule == BackslashL || rule == SlashL
    requires NodeInv(cfg, sub1) && sub1.isvalid && sub1.ruleused == rule
    requires sub1.qrcount == q && sub1.cooldown == Cool(cd)
    requires Weight(before) + restype.Size() + Weight(after) < Weight(cs)
    requires |sub1.constituents| + |before| + 1 + |after| == |cs|
    requires WorkInv(cfg, cs, goal, q, cd, w) && alt.LeftAlt?
    requires LeftContinue(cfg, cs, goal, q, cd, fuel, alt, rule, sub1, before, restype, after, functor, w) == Ok(r)
    ensures Appended(w, r, alt)
    ensures var a := r.tried[|w.tried|];
            |a.children| == 2 && a.children[0] == sub1
            && WithVariable(a.children[1], before, restype, after) && Built(cfg, a.children[1], goal, rule, q, Cool(cd))
    ensures var a := r.tried[|w.tried|];
            var n := a.children[1];
            Succeeded(a) ==>
              exists sv: nat :: AddPairs(cfg, functor, n.constituents[|before|].denotation, n.denotations,
                                         sub1.denotations, 0, w.denotations, sv) == Ok((r.denotations, r.ctr.sv))
  {
    var nd := T.FreshVariable(w.ctr.sv);
    var v := Constituent(restype, nd.0);
    var rest := before + [v] + after;
    WeightSplice(before, v, after);
    var sub2 := Node(cfg, rest, goal, rule, q, Cool(cd), fuel, Counters(w.ctr.vc, nd.1));
    assert sub2.Ok?;
    var n := sub2.value.0;
    assert Fresh(nd.0);
    assert rest[|before|] == v;
    if n.isvalid {
      var pairs := AddPairs(cfg, functor, nd.0, n.denotations, sub1.denotations, 0, w.denotations, sub2.value.1.sv);
      assert pairs.Ok?;
      assert r.denotations == pairs.value.0 && r.ctr.sv == pairs.value.1;
    }
    TwoChildren(w, r, alt, sub1, n);
  }

  /**
   * One left-rule alternative logs one attempt of the shape `LeftShape`: the span's
   * child, and only when it is valid, the continuation.
   */
  lemma LeftStepLog(cfg: Config, cs: seq<Constituent>, goal: C.SynType, q: nat, cd: nat, fuel: nat,
                    alt: Alt, rule: Rule, span: seq<Constituent>, argtype: C.SynType,
                    before: seq<Constituent>, restype: C.SynType, after: seq<Constituent>,
                    functor: T.Den, w: Work, r: Work)
    requires rule == BackslashL || rule == SlashL
    requires Weight(span) + argtype.Size() < Weight(cs) + goal.Size()
    requires Weight(before) + restype.Size() + Weight(after) < Weight(cs)
    requires |span| + |before| + 1 + |after| == |cs|
    requires WorkInv(cfg, cs, goal, q, cd, w) && alt.LeftAlt?
    requires LeftStep(cfg, cs, goal, q, cd, fuel, alt, rule, span, argtype, before, restype, after, functor, w) == Ok(r)
    ensures Appended(w, r, alt)
    ensures LeftShape(cfg, goal, q, cd, rule, span, argtype, before, restype, after, r.tried[|w.tried|].children)
    ensures var a := r.tried[|w.tried|];
            Succeeded(a) ==>
              var n := a.children[1];
              exists sv: nat :: AddPairs(cfg, functor, n.constituents[|before|].denotation, n.denotations,
                                         a.children[0].denotations, 0, w.denotations, sv) == Ok((r.denotations, r.ctr.sv))
  {
    var sub1 := Node(cfg, span, argtype, rule, q, Cool(cd), fuel, w.ctr);
    assert sub1.Ok?;
    var n1 := sub1.value.0;
    if !n1.isvalid {
      assert r.tried[|w.tried|] == Attempt(alt, [n1]);
      assert r.tried[|w.tried|].children[0] == n1;
    } else {
      LeftContinueLog(cfg, cs, goal, q, cd, fuel, alt, rule, n1, before, restype, after, functor,
                      w.(ctr := sub1.value.1), r);
    }
  }

  /**
   * `ABS out` of the constituent at `counter` logs one attempt of the shape `QrShape`;
   * when its child is valid, the child's terms are added (`AddAll`).
   */
  lemma QrStepLog(cfg: Config, cs: seq<Constituent>, goal: C.SynType, q: nat, cd: nat,
                  fuel: nat, counter: nat, w: Work, r: Work)
    requires q < cfg.qrlimit && counter < |cs| && WorkInv(cfg, cs, goal, q, cd, w)
    requires QrStep(cfg, cs, goal, q, cd, fuel, counter, w) == Ok(r)
    ensures Appended(w, r, QrAlt(counter)) && Shape(cfg, cs, goal, q, cd, r.tried[|w.tried|])
    ensures var a := r.tried[|w.tried|];
            Succeeded(a) ==> AddAll(cfg, a.children[0].denotations, 0, w.denotations) == Ok(r.denotations)
  {
    QrGaps(w.ctr.vc, w.ctr.sv);
    var l := C.ParseType("l", w.ctr.vc).value;
    var ld := T.NewDenotation("l", w.ctr.sv).value;
    var v := C.ParseType("v", l.1).value;
    var vd := T.NewDenotation("v", ld.1).value;
    var lc := Constituent(l.0, ld.0);
    var vc := Constituent(v.0, vd.0);
    var child := [cs[counter], lc] + cs[..counter] + [vc] + cs[counter + 1..];
    assert child[1] == lc && child[counter + 2] == vc;
    assert QrPair(lc, vc);
    var sub := Node(cfg, child, goal, AbsOut, q + 1, cfg.cooldownperiod, fuel, Counters(v.1, vd.1));
    assert sub.Ok?;
    OneChild(w, r, QrAlt(counter), sub.value.0);
  }

  /**
   * `ABS in` of the lambda gap at `counter` logs one attempt of the shape `AbsInShape`;
   * when its child is valid, the child's terms are added (`AddAll`).
   */
  lemma AbsInStepLog(cfg: Config, cs: seq<Constituent>, goal: C.SynType, q: nat, cd: nat,
                     fuel: nat, counter: nat, w: Work, r: Work)
    requires cd == 0 && |cs| > 2 && 0 < counter < |cs| && cs[counter].syntactictype.gap.LambdaGap?
    requires WorkInv(cfg, cs, goal, q, cd, w)
    requires AbsInStep(cfg, cs, goal, q, cd, fuel, counter, w) == Ok(r)
    ensures Appended(w, r, AbsInAlt(counter)) && Shape(cfg, cs, goal, q, cd, r.tried[|w.tried|])
    ensures var a := r.tried[|w.tried|];
            Succeeded(a) ==> AddAll(cfg, a.children[0].denotations, 0, w.denotations) == Ok(r.denotations)
  {
    var name := cs[counter].syntactictype.gap.varname;
    var rest := cs[..counter - 1] + cs[counter + 1..];
    var copies := Matches(rest, name);
    AbsInWeight(cs, counter, goal);
    var sub := Node(cfg, Refill(rest, name, cs[counter - 1]), goal, AbsIn, q, 0,
                    if copies >= 2 then fuel - 1 else fuel, w.ctr);
    assert sub.Ok?;
    OneChild(w, r, AbsInAlt(counter), sub.value.0);
  }

  /** Both children of a left-rule continuation are nodes built for their own sequents. */
  lemma LeftContinueGrown(cfg: Config, cs: seq<Constituent>, goal: C.SynType, q: nat, cd: nat, fuel: nat,
                          alt: Alt, rule: Rule, sub1: Sequence,
                          before: seq<Constituent>, restype: C.SynType, after: seq<Constituent>,
                          functor: T.Den, w: Work, r: Work)
    requires rule == BackslashL || rule == SlashL
    requires NodeInv(cfg, sub1) && sub1.isvalid && sub1.ruleused == rule && NodeOf(cfg, sub1, fuel)
    requires sub1.qrcount == q && sub1.cooldown == Cool(cd)
    requires Weight(before) + restype.Size() + Weight(after) < Weight(cs)
    requires |sub1.constituents| + |before| + 1 + |after| == |cs|
    requires WorkInv(cfg, cs, goal, q, cd, w)
    requires LeftContinue(cfg, cs, goal, q, cd, fuel, alt, rule, sub1, before, restype, after, functor, w) == Ok(r)
    ensures |r.tried| > |w.tried| && Grown(cfg, fuel, r.tried[|w.tried|])
  {
    var nd := T.FreshVariable(w.ctr.sv);
    var rest := before + [Constituent(restype, nd.0)] + after;
    WeightSplice(before, Constituent(restype, nd.0), after);
    var sub2 := Node(cfg, rest, goal, rule, q, Cool(cd), fuel, Counters(w.ctr.vc, nd.1));
    assert sub2.Ok?;
    NodeOfNode(cfg, rest, goal, rule, q, Cool(cd), fuel, fuel, Counters(w.ctr.vc, nd.1));
    assert r.tried == w.tried + [Attempt(alt, [sub1, sub2.value.0])];
    assert r.tried[|w.tried|].children == [sub1, sub2.value.0];
  }

  /** The children of a left-rule step are nodes built for their own sequents. */
  lemma LeftStepGrown(cfg: Config, cs: seq<Constituent>, goal: C.SynType, q: nat, cd: nat, fuel: nat,
                      alt: Alt, rule: Rule, span: seq<Constituent>, argtype: C.SynType,
                      before: seq<Constituent>, restype: C.SynType, after: seq<Constituent>,
                      functor: T.Den, w: Work, r: Work)
    requires rule == BackslashL || rule == SlashL
    requires Weight(span) + argtype.Size() < Weight(cs) + goal.Size()
    requires Weight(before) + restype.Size() + Weight(after) < Weight(cs)
    requires |span| + |before| + 1 + |after| == |cs|
    requires WorkInv(cfg, cs, goal, q, cd, w)
    requires LeftStep(cfg, cs, goal, q, cd, fuel, alt, rule, span, argtype, before, restype, after, functor, w) == Ok(r)
    ensures |r.tried| > |w.tried| && Grown(cfg, fuel, r.tried[|w.tried|])
  {
    var sub1 := Node(cfg, span, argtype, rule, q, Cool(cd), fuel, w.ctr);
    assert sub1.Ok?;
    NodeOfNode(cfg, span, argtype, rule, q, Cool(cd), fuel, fuel, w.ctr);
    var n1 := sub1.value.0;
    if !n1.isvalid {
      assert r.tried == w.tried + [Attempt(alt, [n1])];
      assert r.tried[|w.tried|].children == [n1];
    } else {
      LeftContinueGrown(cfg, cs, goal, q, cd, fuel, alt, rule, n1, before, restype, after, functor,
                        w.(ctr := sub1.value.1), r);
    }
  }

  /** The `ABS out` child is the node built for its own sequent. */
  lemma QrStepGrown(cfg: Config, cs: seq<Constituent>, goal: C.SynType, q: nat, cd: nat,
                    fuel: nat, counter: nat, w: Work, r: Work)
    requires q < cfg.qrlimit && counter < |cs| && WorkInv(cfg, cs, goal, q, cd, w)
    requires QrStep(cfg, cs, goal, q, cd, fuel, counter, w) == Ok(r)
    ensures |r.tried| > |w.tried| && Grown(cfg, fuel, r.tried[|w.tried|])
  {
    QrGaps(w.ctr.vc, w.ctr.sv);
    var l := C.ParseType("l", w.ctr.vc).value;
    var ld := T.NewDenotation("l", w.ctr.sv).value;
    var v := C.ParseType("v", l.1).value;
    var vd := T.NewDenotation("v", ld.1).value;
    var child := [cs[counter], Constituent(l.0, ld.0)] + cs[..counter]
                 + [Constituent(v.0, vd.0)] + cs[counter + 1..];
    var sub := Node(cfg, child, goal, AbsOut, q + 1, cfg.cooldownperiod, fuel, Counters(v.1, vd.1));
    assert sub.Ok?;
    NodeOfNode(cfg, child, goal, AbsOut, q + 1, cfg.cooldownperiod, fuel, fuel, Counters(v.1, vd.1));
    assert r.tried == w.tried + [Attempt(QrAlt(counter), [sub.value.0])];
    assert r.tried[|w.tried|].children == [sub.value.0];
  }

  /** The `ABS in` child is the node built for its own sequent, with at most the node's fuel. */
  lemma AbsInStepGrown(cfg: Config, cs: seq<Constituent>, goal: C.SynType, q: nat, cd: nat,
                       fuel: nat, counter: nat, w: Work, r: Work)
    requires cd == 0 && |cs| > 2 && 0 < counter < |cs| && cs[counter].syntactictype.gap.LambdaGap?
    requires WorkInv(cfg, cs, goal, q, cd, w)
    requires AbsInStep(cfg, cs, goal, q, cd, fuel, counter, w) == Ok(r)
    ensures |r.tried| > |w.tried| && Grown(cfg, fuel, r.tried[|w.tried|])
  {
    var name := cs[counter].syntactictype.gap.varname;
    var rest := cs[..counter - 1] + cs[counter + 1..];
    var copies := Matches(rest, name);
    AbsInWeight(cs, counter, goal);
    var f := if copies >= 2 then fuel - 1 else fuel;
    var sub := Node(cfg, Refill(rest, name, cs[counter - 1]), goal, AbsIn, q, 0, f, w.ctr);
    assert sub.Ok?;
    NodeOfNode(cfg, Refill(rest, name, cs[counter - 1]), goal, AbsIn, q, 0, f, fuel, w.ctr);
    assert r.tried == w.tried + [Attempt(AbsInAlt(counter), [sub.value.0])];
    assert r.tried[|w.tried|].children == [sub.value.0];
  }

  // ---------------------------------------------------------------------------------
  // The loops.

  /** A left-rule step for `alt` with the span, categories and lists its shape names. */
  lemma LeftStepKeeps(cfg: Config, cs: seq<Constituent>, goal: C.SynType, q: nat, cd: nat, fuel: nat,
                      alt: Alt, rule: Rule, span: seq<Constituent>, argtype: C.SynType,
                      before: seq<Constituent>, restype: C.SynType, after: seq<Constituent>,
                      functor: T.Den, w: Work, r: Work)
    requires rule == BackslashL || rule == SlashL
    requires Weight(span) + argtype.Size() < Weight(cs) + goal.Size()
    requires Weight(before) + restype.Size() + Weight(after) < Weight(cs)
    requires |span| + |before| + 1 + |after| == |cs|
    requires alt.LeftAlt? && LeftApplies(cs, alt.functor, alt.lo, alt.hi)
    requires var ty := cs[alt.functor].syntactictype;
             if ty.slash == B.LeftSlash then
               rule == BackslashL && span == cs[alt.lo..alt.functor] && argtype == ty.left
               && before == cs[..alt.lo] && restype == ty.right && after == cs[alt.functor + 1..]
             else
               rule == SlashL && span == cs[alt.lo..alt.hi] && argtype == ty.right
               && before == cs[..alt.functor] && restype == ty.left && after == cs[alt.hi..]
    requires WorkInv(cfg, cs, goal, q, cd, w) && LogInv(cfg, cs, goal, q, cd, fuel, w)
    requires LeftStep(cfg, cs, goal, q, cd, fuel, alt, rule, span, argtype, before, restype, after, functor, w) == Ok(r)
    ensures WorkInv(cfg, cs, goal, q, cd, r) && LogInv(cfg, cs, goal, q, cd, fuel, r)
    ensures AltsOf(r.tried) == AltsOf(w.tried) + [alt]
  {
    LeftStepLog(cfg, cs, goal, q, cd, fuel, alt, rule, span, argtype, before, restype, after, functor, w, r);
    LeftStepGrown(cfg, cs, goal, q, cd, fuel, alt, rule, span, argtype, before, restype, after, functor, w, r);
    LeftShaped(cfg, cs, goal, q, cd, alt, rule, span, argtype, before, restype, after, r.tried[|w.tried|]);
    AppendedKeeps(cfg, cs, goal, q, cd, fuel, w, r, alt);
  }

  /** An attempt for `alt` of the shape `LeftShape` with the rule's span and lists is shaped. */
  lemma LeftShaped(cfg: Config, cs: seq<Constituent>, goal: C.SynType, q: nat, cd: nat,
                   alt: Alt, rule: Rule, span: seq<Constituent>, argtype: C.SynType,
                   before: seq<Constituent>, restype: C.SynType, after: seq<Constituent>, a: Attempt)
    requires alt.LeftAlt? && LeftApplies(cs, alt.functor, alt.lo, alt.hi) && a.alt == alt
    requires var ty := cs[alt.functor].syntactictype;
             if ty.slash == B.LeftSlash then
               rule == BackslashL && span == cs[alt.lo..alt.functor] && argtype == ty.left
               && before == cs[..alt.lo] && restype == ty.right && after == cs[alt.functor + 1..]
             else
               rule == SlashL && span == cs[alt.lo..alt.hi] && argtype == ty.right
               && before == cs[..alt.functor] && restype == ty.left && after == cs[alt.hi..]
    requires LeftShape(cfg, goal, q, cd, rule, span, argtype, before, restype, after, a.children)
    ensures Shape(cfg, cs, goal, q, cd, a)
  {
  }

  /** The `\L` step for the span `cs[j - 1..counter]` keeps both invariants and logs its alternative. */
  lemma BackStepKeeps(cfg: Config, cs: seq<Constituent>, goal: C.SynType, q: nat, cd: nat,
                      fuel: nat, counter: nat, j: nat, w: Work, r: Work)
    requires 0 < j <= counter < |cs| && cs[counter].syntactictype.Func?
    requires cs[counter].syntactictype.slash == B.LeftSlash
    requires var ty := cs[counter].syntactictype;
             Weight(cs[j - 1..counter]) + ty.left.Size() < Weight(cs) + goal.Size()
             && Weight(cs[..j - 1]) + ty.right.Size() + Weight(cs[counter + 1..]) < Weight(cs)
             && |cs[j - 1..counter]| + |cs[..j - 1]| + 1 + |cs[counter + 1..]| == |cs|
    requires WorkInv(cfg, cs, goal, q, cd, w) && LogInv(cfg, cs, goal, q, cd, fuel, w)
    requires var ty := cs[counter].syntactictype;
             LeftStep(cfg, cs, goal, q, cd, fuel, LeftAlt(counter, j - 1, counter), BackslashL,
                      cs[j - 1..counter], ty.left, cs[..j - 1], ty.right, cs[counter + 1..],
                      cs[counter].denotation, w) == Ok(r)
    ensures WorkInv(cfg, cs, goal, q, cd, r) && LogInv(cfg, cs, goal, q, cd, fuel, r)
    ensures AltsOf(r.tried) == AltsOf(w.tried) + [LeftAlt(counter, j - 1, counter)]
  {
    var ty := cs[counter].syntactictype;
    assert LeftApplies(cs, counter, j - 1, counter);
    LeftStepKeeps(cfg, cs, goal, q, cd, fuel, LeftAlt(counter, j - 1, counter), BackslashL, cs[j - 1..counter],
                  ty.left, cs[..j - 1], ty.right, cs[counter + 1..], cs[counter].denotation, w, r);
  }

  /** The first `\L` span tried from start `j - 1`: one shaped attempt, then the narrower starts. */
  lemma BackSpanStep(cfg: Config, cs: seq<Constituent>, goal: C.SynType, q: nat, cd: nat,
                     fuel: nat, counter: nat, j: nat, w: Work, r: Work) returns (w': Work)
    requires 0 < j <= counter < |cs| && cs[counter].syntactictype.Func?
    requires cs[counter].syntactictype.slash == B.LeftSlash
    requires WorkInv(cfg, cs, goal, q, cd, w) && LogInv(cfg, cs, goal, q, cd, fuel, w)
    requires BackSpans(cfg, cs, goal, q, cd, fuel, counter, j, w) == Ok(r)
    ensures WorkInv(cfg, cs, goal, q, cd, w') && LogInv(cfg, cs, goal, q, cd, fuel, w')
    ensures AltsOf(w'.tried) == AltsOf(w.tried) + [LeftAlt(counter, j - 1, counter)]
    ensures BackSpans(cfg, cs, goal, q, cd, fuel, counter, j - 1, w') == Ok(r)
  {
    var ty := cs[counter].syntactictype;
    var alt := LeftAlt(counter, j - 1, counter);
    BackSpansNext(cfg, cs, goal, q, cd, fuel, counter, j, w, r);
    var step := LeftStep(cfg, cs, goal, q, cd, fuel, alt, BackslashL, cs[j - 1..counter], ty.left,
                         cs[..j - 1], ty.right, cs[counter + 1..], cs[counter].denotation, w);
    BackStepKeeps(cfg, cs, goal, q, cd, fuel, counter, j, w, step.value);
    w' := step.value;
  }

  /** The `/L` step for the span `cs[counter + 1..i + 1]` keeps both invariants and logs its alternative. */
  lemma SlashStepKeeps(cfg: Config, cs: seq<Constituent>, goal: C.SynType, q: nat, cd: nat,
                       fuel: nat, counter: nat, i: nat, w: Work, r: Work)
    requires counter < i < |cs| && cs[counter].syntactictype.Func?
    requires cs[counter].syntactictype.slash == B.RightSlash
    requires var ty := cs[counter].syntactictype;
             Weight(cs[counter + 1..i + 1]) + ty.right.Size() < Weight(cs) + goal.Size()
             && Weight(cs[..counter]) + ty.left.Size() + Weight(cs[i + 1..]) < Weight(cs)
             && |cs[counter + 1..i + 1]| + |cs[..counter]| + 1 + |cs[i + 1..]| == |cs|
    requires WorkInv(cfg, cs, goal, q, cd, w) && LogInv(cfg, cs, goal, q, cd, fuel, w)
    requires var ty := cs[counter].syntactictype;
             LeftStep(cfg, cs, goal, q, cd, fuel, LeftAlt(counter, counter + 1, i + 1), SlashL,
                      cs[counter + 1..i + 1], ty.right, cs[..counter], ty.left, cs[i + 1..],
                      cs[counter].denotation, w) == Ok(r)
    ensures WorkInv(cfg, cs, goal, q, cd, r) && LogInv(cfg, cs, goal, q, cd, fuel, r)
    ensures AltsOf(r.tried) == AltsOf(w.tried) + [LeftAlt(counter, counter + 1, i + 1)]
  {
    var ty := cs[counter].syntactictype;
    LeftStepKeeps(cfg, cs, goal, q, cd, fuel, LeftAlt(counter, counter + 1, i + 1), SlashL, cs[counter + 1..i + 1],
                  ty.right, cs[..counter], ty.left, cs[i + 1..], cs[counter].denotation, w, r);
  }

  /** The first `/L` span tried up to end `i + 1`: one shaped attempt, then the wider ends. */
  lemma SlashSpanStep(cfg: Config, cs: seq<Constituent>, goal: C.SynType, q: nat, cd: nat,
                      fuel: nat, counter: nat, i: nat, w: Work, r: Work) returns (w': Work)
    requires counter < i < |cs| && cs[counter].syntactictype.Func?
    requires cs[counter].syntactictype.slash == B.RightSlash
    requires WorkInv(cfg, cs, goal, q, cd, w) && LogInv(cfg, cs, goal, q, cd, fuel, w)
    requires SlashSpans(cfg, cs, goal, q, cd, fuel, counter, i, w) == Ok(r)
    ensures WorkInv(cfg, cs, goal, q, cd, w') && LogInv(cfg, cs, goal, q, cd, fuel, w')
    ensures AltsOf(w'.tried) == AltsOf(w.tried) + [LeftAlt(counter, counter + 1, i + 1)]
    ensures SlashSpans(cfg, cs, goal, q, cd, fuel, counter, i + 1, w') == Ok(r)
  {
    var ty := cs[counter].syntactictype;
    var alt := LeftAlt(counter, counter + 1, i + 1);
    SlashSpansNext(cfg, cs, goal, q, cd, fuel, counter, i, w, r);
    var step := LeftStep(cfg, cs, goal, q, cd, fuel, alt, SlashL, cs[counter + 1..i + 1], ty.right,
                         cs[..counter], ty.left, cs[i + 1..], cs[counter].denotation, w);
    SlashStepKeeps(cfg, cs, goal, q, cd, fuel, counter, i, w, step.value);
    w' := step.value;
  }

  /** The `\L` spans of the functor at `counter` log `BackAlts`, each of its shape. */
  lemma {:induction false} BackSpansLog(cfg: Config, cs: seq<Constituent>, goal: C.SynType, q: nat, cd: nat,
                                        fuel: nat, counter: nat, j: nat, w: Work, r: Work)
    requires j <= counter < |cs| && cs[counter].syntactictype.Func?
    requires cs[counter].syntactictype.slash == B.LeftSlash
    requires WorkInv(cfg, cs, goal, q, cd, w) && LogInv(cfg, cs, goal, q, cd, fuel, w)
    requires BackSpans(cfg, cs, goal, q, cd, fuel, counter, j, w) == Ok(r)
    ensures LogInv(cfg, cs, goal, q, cd, fuel, r) && AltsOf(r.tried) == AltsOf(w.tried) + BackAlts(counter, j)
    decreases j
  {
    if j > 0 {
      var w' := BackSpanStep(cfg, cs, goal, q, cd, fuel, counter, j, w, r);
      BackSpansLog(cfg, cs, goal, q, cd, fuel, counter, j - 1, w', r);
      Regroup(AltsOf(w.tried), LeftAlt(counter, j - 1, counter), BackAlts(counter, j - 1), BackAlts(counter, j));
    } else {
      AppendNone(AltsOf(w.tried), BackAlts(counter, j));
    }
  }

  /** The `/L` spans of the functor at `counter` log `SlashAlts`, each of its shape. */
  lemma {:induction false} SlashSpansLog(cfg: Config, cs: seq<Constituent>, goal: C.SynType, q: nat, cd: nat,
                                         fuel: nat, counter: nat, i: nat, w: Work, r: Work)
    requires counter < i <= |cs| && cs[counter].syntactictype.Func?
    requires cs[counter].syntactictype.slash == B.RightSlash
    requires WorkInv(cfg, cs, goal, q, cd, w) && LogInv(cfg, cs, goal, q, cd, fuel, w)
    requires SlashSpans(cfg, cs, goal, q, cd, fuel, counter, i, w) == Ok(r)
    ensures LogInv(cfg, cs, goal, q, cd, fuel, r) && AltsOf(r.tried) == AltsOf(w.tried) + SlashAlts(|cs|, counter, i)
    decreases |cs| - i, 1
  {
    if i < |cs| {
      var w' := SlashSpanStep(cfg, cs, goal, q, cd, fuel, counter, i, w, r);
      SlashLogRest(cfg, cs, goal, q, cd, fuel, counter, i, w, w', r);
    } else {
      AppendNone(AltsOf(w.tried), SlashAlts(|cs|, counter, i));
    }
  }

  /** The spans after the one ending at `i + 1`, joined to the attempt it logged. */
  lemma {:induction false} SlashLogRest(cfg: Config, cs: seq<Constituent>, goal: C.SynType, q: nat, cd: nat,
                                        fuel: nat, counter: nat, i: nat, w: Work, w': Work, r: Work)
    requires counter < i < |cs| && cs[counter].syntactictype.Func?
    requires cs[counter].syntactictype.slash == B.RightSlash
    requires WorkInv(cfg, cs, goal, q, cd, w') && LogInv(cfg, cs, goal, q, cd, fuel, w')
    requires AltsOf(w'.tried) == AltsOf(w.tried) + [LeftAlt(counter, counter + 1, i + 1)]
    requires SlashSpans(cfg, cs, goal, q, cd, fuel, counter, i + 1, w') == Ok(r)
    ensures LogInv(cfg, cs, goal, q, cd, fuel, r) && AltsOf(r.tried) == AltsOf(w.tried) + SlashAlts(|cs|, counter, i)
    decreases |cs| - i, 0
  {
    SlashSpansLog(cfg, cs, goal, q, cd, fuel, counter, i + 1, w', r);
    Regroup(AltsOf(w.tried), LeftAlt(counter, counter + 1, i + 1), SlashAlts(|cs|, counter, i + 1),
            SlashAlts(|cs|, counter, i));
  }

  /** `(a + b) + c` regrouped. */
  lemma Assoc(a: seq<Alt>, b: seq<Alt>, c: seq<Alt>, d: seq<Alt>)
    requires d == b + c
    ensures a + b + c == a + d
  {
  }

  /** The left rules from position `counter` on log `LeftAlts`, each of its shape. */
  lemma {:induction false} LeftRulesLog(cfg: Config, cs: seq<Constituent>, goal: C.SynType, q: nat, cd: nat,
                                        fuel: nat, counter: nat, w: Work, r: Work)
    requires counter <= |cs| && WorkInv(cfg, cs, goal, q, cd, w) && LogInv(cfg, cs, goal, q, cd, fuel, w)
    requires LeftRules(cfg, cs, goal, q, cd, fuel, counter, w) == Ok(r)
    ensures LogInv(cfg, cs, goal, q, cd, fuel, r) && AltsOf(r.tried) == AltsOf(w.tried) + LeftAlts(cs, counter)
    decreases |cs| - counter
  {
    if counter == |cs| {
      AppendNone(AltsOf(w.tried), LeftAlts(cs, counter));
    } else {
      var w' := FunctorStep(cfg, cs, goal, q, cd, fuel, counter, w, r);
      LeftRulesLog(cfg, cs, goal, q, cd, fuel, counter + 1, w', r);
      Assoc(AltsOf(w.tried), FunctorAlts(cs, counter), LeftAlts(cs, counter + 1), LeftAlts(cs, counter));
    }
  }

  /** The left rules of the functor at `counter`: its alternatives logged, then the later functors. */
  lemma FunctorStep(cfg: Config, cs: seq<Constituent>, goal: C.SynType, q: nat, cd: nat,
                    fuel: nat, counter: nat, w: Work, r: Work) returns (w': Work)
    requires counter < |cs| && WorkInv(cfg, cs, goal, q, cd, w) && LogInv(cfg, cs, goal, q, cd, fuel, w)
    requires LeftRules(cfg, cs, goal, q, cd, fuel, counter, w) == Ok(r)
    ensures WorkInv(cfg, cs, goal, q, cd, w') && LogInv(cfg, cs, goal, q, cd, fuel, w')
    ensures AltsOf(w'.tried) == AltsOf(w.tried) + FunctorAlts(cs, counter)
    ensures LeftRules(cfg, cs, goal, q, cd, fuel, counter + 1, w') == Ok(r)
  {
    var ty := cs[counter].syntactictype;
    w' := (if ty.Func? && ty.slash == B.LeftSlash then BackSpans(cfg, cs, goal, q, cd, fuel, counter, counter, w)
           else if ty.Func? then SlashSpans(cfg, cs, goal, q, cd, fuel, counter, counter + 1, w)
           else Ok(w)).value;
    FunctorLog(cfg, cs, goal, q, cd, fuel, counter, w, w');
  }

  /** The left rules for the functor at `counter` log its alternatives. */
  lemma FunctorLog(cfg: Config, cs: seq<Constituent>, goal: C.SynType, q: nat, cd: nat,
                   fuel: nat, counter: nat, w: Work, w': Work)
    requires counter < |cs| && WorkInv(cfg, cs, goal, q, cd, w) && LogInv(cfg, cs, goal, q, cd, fuel, w)
    requires var ty := cs[counter].syntactictype;
             (if ty.Func? && ty.slash == B.LeftSlash then BackSpans(cfg, cs, goal, q, cd, fuel, counter, counter, w)
              else if ty.Func? then SlashSpans(cfg, cs, goal, q, cd, fuel, counter, counter + 1, w)
              else Ok(w)) == Ok(w')
    ensures WorkInv(cfg, cs, goal, q, cd, w') && LogInv(cfg, cs, goal, q, cd, fuel, w')
    ensures AltsOf(w'.tried) == AltsOf(w.tried) + FunctorAlts(cs, counter)
  {
    var ty := cs[counter].syntactictype;
    if ty.Func? && ty.slash == B.LeftSlash {
      assert BackSpans(cfg, cs, goal, q, cd, fuel, counter, counter, w) == Ok(w');
      BackSpansLog(cfg, cs, goal, q, cd, fuel, counter, counter, w, w');
    } else if ty.Func? {
      assert SlashSpans(cfg, cs, goal, q, cd, fuel, counter, counter + 1, w) == Ok(w');
      SlashSpansLog(cfg, cs, goal, q, cd, fuel, counter, counter + 1, w, w');
    } else {
      assert w' == w;
      AppendNone(AltsOf(w.tried), FunctorAlts(cs, counter));
    }
  }

  /** `ABS out` from position `counter` on logs `QrAlts`, each of its shape. */
  lemma {:induction false} QrRulesLog(cfg: Config, cs: seq<Constituent>, goal: C.SynType, q: nat, cd: nat,
                                      fuel: nat, counter: nat, w: Work, r: Work)
    requires q < cfg.qrlimit && counter <= |cs|
    requires WorkInv(cfg, cs, goal, q, cd, w) && LogInv(cfg, cs, goal, q, cd, fuel, w)
    requires QrRules(cfg, cs, goal, q, cd, fuel, counter, w) == Ok(r)
    ensures LogInv(cfg, cs, goal, q, cd, fuel, r) && AltsOf(r.tried) == AltsOf(w.tried) + QrAlts(cs, counter)
    decreases |cs| - counter
  {
    if counter == |cs| {
      AppendNone(AltsOf(w.tried), QrAlts(cs, counter));
    } else {
      var w': Work;
      if QrApplies(cs, counter) {
        w' := QrStep(cfg, cs, goal, q, cd, fuel, counter, w).value;
        QrStepLog(cfg, cs, goal, q, cd, fuel, counter, w, w');
        QrStepGrown(cfg, cs, goal, q, cd, fuel, counter, w, w');
        AppendedKeeps(cfg, cs, goal, q, cd, fuel, w, w', QrAlt(counter));
      } else {
        w' := w;
        AppendNone(AltsOf(w.tried), []);
      }
      QrRulesLog(cfg, cs, goal, q, cd, fuel, counter + 1, w', r);
      Assoc(AltsOf(w.tried), if QrApplies(cs, counter) then [QrAlt(counter)] else [], QrAlts(cs, counter + 1),
            QrAlts(cs, counter));
    }
  }

  /** `ABS in` from position `counter` on logs `AbsInAlts`, each of its shape. */
  lemma {:induction false} AbsInRulesLog(cfg: Config, cs: seq<Constituent>, goal: C.SynType, q: nat, cd: nat,
                                         fuel: nat, counter: nat, w: Work, r: Work)
    requires cd == 0 && |cs| > 2 && counter <= |cs|
    requires WorkInv(cfg, cs, goal, q, cd, w) && LogInv(cfg, cs, goal, q, cd, fuel, w)
    requires AbsInRules(cfg, cs, goal, q, cd, fuel, counter, w) == Ok(r)
    ensures LogInv(cfg, cs, goal, q, cd, fuel, r) && AltsOf(r.tried) == AltsOf(w.tried) + AbsInAlts(cs, counter)
    decreases |cs| - counter
  {
    if counter == |cs| {
      AppendNone(AltsOf(w.tried), AbsInAlts(cs, counter));
    } else {
      var here := cs[counter].syntactictype.gap.LambdaGap? && counter > 0;
      var w': Work;
      if here {
        w' := AbsInStep(cfg, cs, goal, q, cd, fuel, counter, w).value;
        AbsInStepLog(cfg, cs, goal, q, cd, fuel, counter, w, w');
        AbsInStepGrown(cfg, cs, goal, q, cd, fuel, counter, w, w');
        AppendedKeeps(cfg, cs, goal, q, cd, fuel, w, w', AbsInAlt(counter));
      } else {
        w' := w;
        AppendNone(AltsOf(w.tried), []);
      }
      AbsInRulesLog(cfg, cs, goal, q, cd, fuel, counter + 1, w', r);
      Assoc(AltsOf(w.tried), if here then [AbsInAlt(counter)] else [], AbsInAlts(cs, counter + 1),
            AbsInAlts(cs, counter));
    }
  }

  /** The rules of a non-axiom node log exactly `Alts`, in order, each of its shape. */
  lemma RulesLog(cfg: Config, cs: seq<Constituent>, goal: C.SynType, q: nat, cd: nat,
                 fuel: nat, ctr: Counters, r: Work)
    requires Rules(cfg, cs, goal, q, cd, fuel, ctr) == Ok(r)
    ensures LogInv(cfg, cs, goal, q, cd, fuel, r) && AltsOf(r.tried) == Alts(cfg, cs, goal, q, cd)
  {
    var w1, w2 := RulesParts(cfg, cs, goal, q, cd, fuel, ctr, r);
    RulesLogFrom(cfg, cs, goal, q, cd, fuel, ctr, w1, w2, r);
  }

  /** `RulesLog` from the work after each phase. */
  lemma RulesLogFrom(cfg: Config, cs: seq<Constituent>, goal: C.SynType, q: nat, cd: nat,
                     fuel: nat, ctr: Counters, w1: Work, w2: Work, r: Work)
    requires var w0 := Work([], false, [], ctr, []);
             (if goal.Func? then RightRule(cfg, cs, goal, q, cd, fuel, w0) else Ok(w0)) == Ok(w1)
    requires WorkInv(cfg, cs, goal, q, cd, w1) && LeftRules(cfg, cs, goal, q, cd, fuel, 0, w1) == Ok(w2)
    requires WorkInv(cfg, cs, goal, q, cd, w2)
    requires (var w3 :- (if q < cfg.qrlimit then QrRules(cfg, cs, goal, q, cd, fuel, 0, w2) else Ok(w2));
              if cd == 0 && |cs| > 2 then AbsInRules(cfg, cs, goal, q, cd, fuel, 0, w3) else Ok(w3)) == Ok(r)
    ensures LogInv(cfg, cs, goal, q, cd, fuel, r) && AltsOf(r.tried) == Alts(cfg, cs, goal, q, cd)
  {
    var w0 := Work([], false, [], ctr, []);
    var right: seq<Alt> := if goal.Func? then [RightAlt] else [];
    if goal.Func? {
      RightRuleLog(cfg, cs, goal, q, cd, fuel, w0, w1);
      RightRuleGrown(cfg, cs, goal, q, cd, fuel, w0, w1);
      AppendedKeeps(cfg, cs, goal, q, cd, fuel, w0, w1, RightAlt);
    }
    assert AltsOf(w1.tried) == right;
    LeftRulesLog(cfg, cs, goal, q, cd, fuel, 0, w1, w2);
    RulesTailLog(cfg, cs, goal, q, cd, fuel, w2, r);
  }

  /** The work after the right rule and after the left rules, on the way to `r`. */
  lemma RulesParts(cfg: Config, cs: seq<Constituent>, goal: C.SynType, q: nat, cd: nat,
                   fuel: nat, ctr: Counters, r: Work) returns (w1: Work, w2: Work)
    requires Rules(cfg, cs, goal, q, cd, fuel, ctr) == Ok(r)
    ensures var w0 := Work([], false, [], ctr, []);
            (if goal.Func? then RightRule(cfg, cs, goal, q, cd, fuel, w0) else Ok(w0)) == Ok(w1)
    ensures WorkInv(cfg, cs, goal, q, cd, w1) && LeftRules(cfg, cs, goal, q, cd, fuel, 0, w1) == Ok(w2)
    ensures WorkInv(cfg, cs, goal, q, cd, w2)
    ensures (var w3 :- (if q < cfg.qrlimit then QrRules(cfg, cs, goal, q, cd, fuel, 0, w2) else Ok(w2));
             if cd == 0 && |cs| > 2 then AbsInRules(cfg, cs, goal, q, cd, fuel, 0, w3) else Ok(w3)) == Ok(r)
  {
    var w0 := Work([], false, [], ctr, []);
    w1 := (if goal.Func? then RightRule(cfg, cs, goal, q, cd, fuel, w0) else Ok(w0)).value;
    w2 := LeftRules(cfg, cs, goal, q, cd, fuel, 0, w1).value;
  }

  /** After the left rules, the QR and `ABS in` rules log their alternatives in order. */
  lemma RulesTailLog(cfg: Config, cs: seq<Constituent>, goal: C.SynType, q: nat, cd: nat,
                     fuel: nat, w2: Work, r: Work)
    requires WorkInv(cfg, cs, goal, q, cd, w2) && LogInv(cfg, cs, goal, q, cd, fuel, w2)
    requires (var w3 :- (if q < cfg.qrlimit then QrRules(cfg, cs, goal, q, cd, fuel, 0, w2) else Ok(w2));
              if cd == 0 && |cs| > 2 then AbsInRules(cfg, cs, goal, q, cd, fuel, 0, w3) else Ok(w3)) == Ok(r)
    ensures LogInv(cfg, cs, goal, q, cd, fuel, r)
    ensures AltsOf(r.tried) == AltsOf(w2.tried) + (if q < cfg.qrlimit then QrAlts(cs, 0) else [])
                               + (if cd == 0 && |cs| > 2 then AbsInAlts(cs, 0) else [])
  {
    var qr: seq<Alt> := if q < cfg.qrlimit then QrAlts(cs, 0) else [];
    var w3 := if q < cfg.qrlimit then QrRules(cfg, cs, goal, q, cd, fuel, 0, w2).value else w2;
    if q < cfg.qrlimit {
      QrRulesLog(cfg, cs, goal, q, cd, fuel, 0, w2, w3);
    } else {
      AppendNone(AltsOf(w2.tried), qr);
    }
    var ab: seq<Alt> := if cd == 0 && |cs| > 2 then AbsInAlts(cs, 0) else [];
    if cd == 0 && |cs| > 2 {
      AbsInRulesLog(cfg, cs, goal, q, cd, fuel, 0, w3, r);
    } else {
      AppendNone(AltsOf(w3.tried), ab);
    }
  }

  /** The alternative logged at position `k`. */
  lemma {:induction false} AltsOfAt(t: seq<Attempt>, k: nat)
    requires k < |t|
    ensures |AltsOf(t)| == |t| && AltsOf(t)[k] == t[k].alt
  {
    var p := t[..|t| - 1];
    if k < |t| - 1 {
      AltsOfAt(p, k);
    } else if |p| > 0 {
      AltsOfAt(p, 0);
    }
  }

  /** Some attempt is kept if and only if one of them succeeded. */
  lemma {:induction false} SuccessesNonEmpty(t: seq<Attempt>)
    ensures |Successes(t)| > 0 <==> exists k :: 0 <= k < |t| && Succeeded(t[k])
  {
    if |t| > 0 {
      var p := t[..|t| - 1];
      SuccessesNonEmpty(p);
      if exists k :: 0 <= k < |p| && Succeeded(p[k]) {
        var k :| 0 <= k < |p| && Succeeded(p[k]);
        assert t[k] == p[k];
      }
      if exists k :: 0 <= k < |t| && Succeeded(t[k]) {
        var k :| 0 <= k < |t| && Succeeded(t[k]);
        if k < |p| {
          assert p[k] == t[k];
        }
      }
    }
  }

  /** The attempt at `k` of a log of `Alts` is for an applicable alternative. */
  lemma LoggedApplies(cfg: Config, cs: seq<Constituent>, goal: C.SynType, q: nat, cd: nat, t: seq<Attempt>, k: nat)
    requires AltsOf(t) == Alts(cfg, cs, goal, q, cd) && k < |t|
    ensures Applicable(cfg, cs, goal, q, cd, t[k].alt)
  {
    AltsOfAt(t, k);
    AltsExact(cfg, cs, goal, q, cd, t[k].alt);
  }

  /** A log of `Alts` has an attempt for every applicable alternative. */
  lemma AppliesLogged(cfg: Config, cs: seq<Constituent>, goal: C.SynType, q: nat, cd: nat, t: seq<Attempt>, a: Alt)
    requires AltsOf(t) == Alts(cfg, cs, goal, q, cd) && Applicable(cfg, cs, goal, q, cd, a)
    ensures exists k :: 0 <= k < |t| && t[k].alt == a
  {
    AltsExact(cfg, cs, goal, q, cd, a);
    InLog(t, a);
  }

  /** An alternative of the log is that of one of its attempts. */
  lemma {:induction false} InLog(t: seq<Attempt>, a: Alt)
    requires a in AltsOf(t)
    ensures exists k :: 0 <= k < |t| && t[k].alt == a
  {
    var p := t[..|t| - 1];
    if a in AltsOf(p) {
      InLog(p, a);
      var k :| 0 <= k < |p| && p[k].alt == a;
      assert t[k] == p[k];
    } else {
      assert t[|t| - 1].alt == a;
    }
  }

  /** A log of `Alts` whose attempts are shaped names each applicable alternative, and only those. */
  lemma ExactLog(cfg: Config, cs: seq<Constituent>, goal: C.SynType, q: nat, cd: nat, t: seq<Attempt>)
    requires Shaped(cfg, cs, goal, q, cd, t) && AltsOf(t) == Alts(cfg, cs, goal, q, cd)
    ensures forall k :: 0 <= k < |t| ==> Shape(cfg, cs, goal, q, cd, t[k])
    ensures forall k :: 0 <= k < |t| ==> Applicable(cfg, cs, goal, q, cd, t[k].alt)
    ensures forall a :: Applicable(cfg, cs, goal, q, cd, a) ==> exists k :: 0 <= k < |t| && t[k].alt == a
  {
    forall k | 0 <= k < |t|
      ensures Shape(cfg, cs, goal, q, cd, t[k]) && Applicable(cfg, cs, goal, q, cd, t[k].alt)
    {
      ShapedAll(cfg, cs, goal, q, cd, t, k);
      LoggedApplies(cfg, cs, goal, q, cd, t, k);
    }
    forall a | Applicable(cfg, cs, goal, q, cd, a)
      ensures exists k :: 0 <= k < |t| && t[k].alt == a
    {
      AppliesLogged(cfg, cs, goal, q, cd, t, a);
    }
  }

  /** A node that is neither an axiom nor empty is what its rules left. */
  lemma NodeRules(cfg: Config, cs: seq<Constituent>, goal: C.SynType, rule: Rule, q: nat, cd: nat,
                  fuel: nat, ctr: Counters)
    requires !Axiom(cs, goal) && |cs| > 0 && Node(cfg, cs, goal, rule, q, cd, fuel, ctr).Ok?
    ensures Rules(cfg, cs, goal, q, cd, fuel, ctr).Ok?
    ensures var w := Rules(cfg, cs, goal, q, cd, fuel, ctr).value;
            var n := Node(cfg, cs, goal, rule, q, cd, fuel, ctr).value.0;
            n.subtrees == w.subtrees && n.isvalid == w.isvalid && n.denotations == w.denotations
  {
  }

  /**
   * A node that is neither an axiom nor empty tried exactly the applicable alternatives
   * (`tried` lists them in `Alts`' order), every child is the sequent its alternative
   * sets up, its subtrees are the attempts whose children all succeeded, and it is
   * valid if and only if one of them did.  Every child is itself the node built for its
   * own sequent (`NodeOf`), so the lemma applies again to the children.
   */
  lemma NodeSearch(cfg: Config, cs: seq<Constituent>, goal: C.SynType, rule: Rule, q: nat, cd: nat,
                   fuel: nat, ctr: Counters)
    requires !Axiom(cs, goal) && |cs| > 0 && Node(cfg, cs, goal, rule, q, cd, fuel, ctr).Ok?
    ensures Rules(cfg, cs, goal, q, cd, fuel, ctr).Ok?
    ensures var t := Rules(cfg, cs, goal, q, cd, fuel, ctr).value.tried;
            var n := Node(cfg, cs, goal, rule, q, cd, fuel, ctr).value.0;
            n.subtrees == Successes(t)
            && (n.isvalid <==> exists k :: 0 <= k < |t| && Succeeded(t[k]))
            && (forall k :: 0 <= k < |t| ==> Shape(cfg, cs, goal, q, cd, t[k]))
            && (forall k :: 0 <= k < |t| ==> Applicable(cfg, cs, goal, q, cd, t[k].alt))
            && (forall a :: Applicable(cfg, cs, goal, q, cd, a) ==> exists k :: 0 <= k < |t| && t[k].alt == a)
            && (forall k, i :: 0 <= k < |t| && 0 <= i < |t[k].children| ==> NodeOf(cfg, t[k].children[i], fuel))
  {
    NodeRules(cfg, cs, goal, rule, q, cd, fuel, ctr);
    var w := Rules(cfg, cs, goal, q, cd, fuel, ctr).value;
    RulesLog(cfg, cs, goal, q, cd, fuel, ctr, w);
    SuccessesNonEmpty(w.tried);
    ExactLog(cfg, cs, goal, q, cd, w.tried);
    forall k, i | 0 <= k < |w.tried| && 0 <= i < |w.tried[k].children|
      ensures NodeOf(cfg, w.tried[k].children[i], fuel)
    {
      GrownAllAt(cfg, fuel, w.tried, k);
    }
  }
}
