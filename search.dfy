/**
 * The sequent-calculus proof search (`Sequence.__init__` and `adddenotation` in
 * sequent.py).  A node is built for a list of constituents and a goal category: the
 * axiom is checked first; otherwise the right rules, the left rules over every
 * contiguous argument span, quantifier raising (`ABS out`) and abstraction in
 * (`ABS in`) are tried in that order, and every child that succeeds is recorded in
 * `subtrees` together with the terms it contributes to `denotations`.
 *
 * The global counters `varcounter` and `semvarcounter` are threaded as `Counters`;
 * `qrlimit`, `cooldownperiod` and `uniquedenotations` form a `Config`.  A node is never
 * changed once its constructor returns, so nodes are values; the state the
 * constructor's loops update (`subtrees`, `isvalid`, `denotations` and the counters)
 * is a `Work` record passed from one loop iteration to the next.
 *
 * `ABS in` can copy one constituent into several `v` gaps, which makes the search
 * grow; such a step spends one unit of `fuel`, and a search that runs out of it ends
 * in `Err(OutOfFuel)`.
 */
module Search {
  import opened Outcomes
  import B = Brackets
  import C = Categories
  import T = Terms

  /** `Constituent`: a category with its term. */
  datatype Constituent = Constituent(syntactictype: C.SynType, denotation: T.Den)

  /** `ruleused`: `LEX`, `\R`, `/R`, `\L`, `/L`, `ABS out`, `ABS in`. */
  datatype Rule = Lex | BackslashR | SlashR | BackslashL | SlashL | AbsOut | AbsIn

  /** The module-level settings `qrlimit`, `cooldownperiod` and `uniquedenotations`. */
  datatype Config = Config(qrlimit: nat, cooldownperiod: nat, uniquedenotations: bool)

  /** The global counters `varcounter` and `semvarcounter`. */
  datatype Counters = Counters(vc: nat, sv: nat)

  /** A `Sequence` node once its constructor has returned. */
  datatype Sequence = Sequence(constituents: seq<Constituent>, goal: C.SynType, ruleused: Rule,
                               qrcount: nat, cooldown: nat, subtrees: seq<seq<Sequence>>,
                               isvalid: bool, denotations: seq<T.Den>)

  /**
   * An alternative the constructor tries: a right rule, a left rule for the functor at
   * `functor` with argument span `cs[lo..hi]`, `ABS out` of the constituent at `pos`,
   * or `ABS in` for the lambda gap at `pos`.
   */
  datatype Alt = RightAlt | LeftAlt(functor: nat, lo: nat, hi: nat) | QrAlt(pos: nat) | AbsInAlt(pos: nat)

  /** An alternative together with the child nodes built for it, in the order they were built. */
  datatype Attempt = Attempt(alt: Alt, children: seq<Sequence>)

  /**
   * The node's fields the rule loops update, with the counters, and `tried`, the log
   * of every alternative tried so far (the source keeps no such log; it is what lets
   * the model say that nothing valid is dropped).
   */
  datatype Work = Work(subtrees: seq<seq<Sequence>>, isvalid: bool, denotations: seq<T.Den>, ctr: Counters,
                       tried: seq<Attempt>)

  /** `cool`: one step down, never below zero. */
  function Cool(n: nat): (r: nat)
    ensures r <= n && n <= r + 1
    ensures r < n <==> n > 0
  {
    if n > 0 then n - 1 else 0
  }

  predicate Later(a: Counters, b: Counters) {
    a.vc <= b.vc && a.sv <= b.sv
  }

  // ---------------------------------------------------------------------------------
  // adddenotation

  /**
   * The `adddenotation` scan from position `k`, `found` telling whether an equal term
   * was already met: every element is compared (there is no early exit), and a
   * comparison that never ends ends the scan.
   */
  function AnyEqualFrom(dens: seq<T.Den>, d: T.Den, k: nat, found: bool): (r: Result<bool>)
    requires k <= |dens|
    ensures r.Err? <==> exists i :: k <= i < |dens| && T.Eq(dens[i], d).Err?
    ensures r == Ok(false) <==> !found && forall i :: k <= i < |dens| ==> T.Eq(dens[i], d) == Ok(false)
    ensures r == Ok(true) <==>
      (forall i :: k <= i < |dens| ==> T.Eq(dens[i], d).Ok?)
      && (found || exists i :: k <= i < |dens| && T.Eq(dens[i], d) == Ok(true))
    decreases |dens| - k
  {
    if k == |dens| then Ok(found)
    else
      var e :- T.Eq(dens[k], d);
      AnyEqualStep(dens, d, k, found, e);
      AnyEqualFrom(dens, d, k + 1, found || e)
  }

  /** The three outcomes of the scan from `k` in terms of the scan from `k + 1`. */
  lemma AnyEqualStep(dens: seq<T.Den>, d: T.Den, k: nat, found: bool, e: bool)
    requires k < |dens| && T.Eq(dens[k], d) == Ok(e)
    ensures (exists i :: k <= i < |dens| && T.Eq(dens[i], d).Err?)
            <==> (exists i :: k + 1 <= i < |dens| && T.Eq(dens[i], d).Err?)
    ensures (!found && forall i :: k <= i < |dens| ==> T.Eq(dens[i], d) == Ok(false))
            <==> (!(found || e) && forall i :: k + 1 <= i < |dens| ==> T.Eq(dens[i], d) == Ok(false))
    ensures ((forall i :: k <= i < |dens| ==> T.Eq(dens[i], d).Ok?)
             && (found || exists i :: k <= i < |dens| && T.Eq(dens[i], d) == Ok(true)))
            <==> ((forall i :: k + 1 <= i < |dens| ==> T.Eq(dens[i], d).Ok?)
                  && ((found || e) || exists i :: k + 1 <= i < |dens| && T.Eq(dens[i], d) == Ok(true)))
  {
  }

  /** No element of the list is equal to a later one. */
  predicate Distinct(dens: seq<T.Den>) {
    forall i, j :: 0 <= i < j < |dens| ==> T.Eq(dens[i], dens[j]) != Ok(true)
  }

  /**
   * `adddenotation`: with `uniquedenotations` on, `d` is appended only when no element
   * of the list equals it; with it off, it is always appended.
   */
  function AddDenotation(cfg: Config, dens: seq<T.Den>, d: T.Den): (r: Result<seq<T.Den>>)
    ensures !cfg.uniquedenotations ==> r == Ok(dens + [d])
    ensures cfg.uniquedenotations ==>
      (r.Err? <==> exists i :: 0 <= i < |dens| && T.Eq(dens[i], d).Err?)
      && (r == Ok(dens + [d]) <==> forall i :: 0 <= i < |dens| ==> T.Eq(dens[i], d) == Ok(false))
      && (r.Ok? && r != Ok(dens + [d]) ==>
            r == Ok(dens) && exists i :: 0 <= i < |dens| && T.Eq(dens[i], d) == Ok(true))
    ensures r.Ok? ==> |r.value| > 0 && r.value[..|dens|] == dens
    ensures r.Ok? && cfg.uniquedenotations && Distinct(dens) ==> Distinct(r.value)
  {
    if cfg.uniquedenotations then
      var exists_ :- AnyEqualFrom(dens, d, 0, false);
      if exists_ then Ok(dens) else Ok(dens + [d])
    else Ok(dens + [d])
  }

  /** `for d in dens: self.adddenotation(d)`, from position `k`. */
  function AddAll(cfg: Config, dens: seq<T.Den>, k: nat, acc: seq<T.Den>): (r: Result<seq<T.Den>>)
    requires k <= |dens|
    ensures r.Ok? ==> |r.value| >= |acc| && (k < |dens| ==> |r.value| > 0)
    ensures r.Ok? && |acc| > 0 ==> |r.value| > 0
    ensures r.Ok? && cfg.uniquedenotations && Distinct(acc) ==> Distinct(r.value)
    decreases |dens| - k
  {
    if k == |dens| then Ok(acc)
    else
      var acc' :- AddDenotation(cfg, acc, dens[k]);
      AddAll(cfg, dens, k + 1, acc')
  }

  // ---------------------------------------------------------------------------------
  // Sizes, for termination.

  function Weight(cs: seq<Constituent>): nat {
    if |cs| == 0 then 0 else cs[0].syntactictype.Size() + Weight(cs[1..])
  }

  /** The weight of a list with one constituent spliced in. */
  lemma WeightSplice(before: seq<Constituent>, x: Constituent, after: seq<Constituent>)
    ensures Weight(before + [x] + after) == Weight(before) + x.syntactictype.Size() + Weight(after)
    ensures Weight([x] + after) == x.syntactictype.Size() + Weight(after)
    ensures Weight(before + [x]) == Weight(before) + x.syntactictype.Size()
  {
    WeightAppend(before + [x], after);
    WeightAppend(before, [x]);
    WeightAppend([x], after);
    assert Weight([x]) == x.syntactictype.Size();
  }

  lemma {:induction false} WeightAppend(a: seq<Constituent>, b: seq<Constituent>)
    ensures Weight(a + b) == Weight(a) + Weight(b)
  {
    if |a| == 0 {
      assert a + b == b;
    } else {
      assert (a + b)[1..] == a[1..] + b;
      WeightAppend(a[1..], b);
    }
  }

  lemma {:induction false} WeightSplit(cs: seq<Constituent>, k: nat)
    requires k <= |cs|
    ensures Weight(cs) == Weight(cs[..k]) + Weight(cs[k..])
  {
    assert cs == cs[..k] + cs[k..];
    WeightAppend(cs[..k], cs[k..]);
  }

  lemma {:induction false} WeightRange(cs: seq<Constituent>, a: nat, b: nat)
    requires a <= b <= |cs|
    ensures Weight(cs[a..]) == Weight(cs[a..b]) + Weight(cs[b..])
    decreases b - a
  {
    if a < b {
      assert cs[a..][1..] == cs[a + 1..];
      assert cs[a..b][1..] == cs[a + 1..b];
      assert cs[a..][0] == cs[a..b][0];
      WeightRange(cs, a + 1, b);
    } else {
      assert cs[a..b] == [];
    }
  }

  /** The weight of a list split around its element `k`. */
  lemma {:induction false} WeightAround(cs: seq<Constituent>, lo: nat, k: nat, hi: nat)
    requires lo <= k < hi <= |cs|
    ensures Weight(cs) == Weight(cs[..lo]) + Weight(cs[lo..k]) + cs[k].syntactictype.Size()
                          + Weight(cs[k + 1..hi]) + Weight(cs[hi..])
  {
    assert cs[0..] == cs && cs[0..lo] == cs[..lo];
    WeightRange(cs, 0, lo);
    WeightRange(cs, lo, k);
    assert cs[k..][1..] == cs[k + 1..];
    WeightRange(cs, k + 1, hi);
  }

  /**
   * Both children of `\L` at `counter` with span `cs[i..counter]` weigh less than the
   * list: the span lacks the functor, and the continuation holds the functor's result
   * category in place of the functor and its span.
   */
  lemma {:induction false} BackSpanWeights(cs: seq<Constituent>, i: nat, counter: nat)
    requires i < counter < |cs| && cs[counter].syntactictype.Func?
    ensures var ty := cs[counter].syntactictype;
            Weight(cs[i..counter]) + ty.left.Size() < Weight(cs)
            && Weight(cs[..i]) + ty.right.Size() + Weight(cs[counter + 1..]) < Weight(cs)
            && |cs[i..counter]| + |cs[..i]| + 1 + |cs[counter + 1..]| == |cs|
  {
    WeightAround(cs, i, counter, counter + 1);
    assert cs[counter + 1..counter + 1] == [];
  }

  /** The same for `/L` at `counter` with span `cs[counter + 1..i + 1]`. */
  lemma {:induction false} SlashSpanWeights(cs: seq<Constituent>, counter: nat, i: nat)
    requires counter < i < |cs| && cs[counter].syntactictype.Func?
    ensures var ty := cs[counter].syntactictype;
            Weight(cs[counter + 1..i + 1]) + ty.right.Size() < Weight(cs)
            && Weight(cs[..counter]) + ty.left.Size() + Weight(cs[i + 1..]) < Weight(cs)
            && |cs[counter + 1..i + 1]| + |cs[..counter]| + 1 + |cs[i + 1..]| == |cs|
  {
    WeightAround(cs, counter, counter, i + 1);
    assert cs[counter..counter] == [];
  }

  /** How many constituents are the gap `v<name>` that `ABS in` refills. */
  function Matches(cs: seq<Constituent>, name: string): nat {
    if |cs| == 0 then 0
    else (if cs[0].syntactictype.typestring == "v" + name then 1 else 0) + Matches(cs[1..], name)
  }

  /** The `ABS in` list comprehension: every gap `v<name>` is replaced by `c`. */
  function Refill(cs: seq<Constituent>, name: string, c: Constituent): (r: seq<Constituent>)
    ensures |r| == |cs|
  {
    if |cs| == 0 then []
    else [if cs[0].syntactictype.typestring == "v" + name then c else cs[0]] + Refill(cs[1..], name, c)
  }

  lemma {:induction false} RefillWeight(cs: seq<Constituent>, name: string, c: Constituent)
    ensures Weight(Refill(cs, name, c)) + Matches(cs, name) <= Weight(cs) + Matches(cs, name) * c.syntactictype.Size()
  {
    if |cs| > 0 {
      RefillWeight(cs[1..], name, c);
      var hit := cs[0].syntactictype.typestring == "v" + name;
      var r := Refill(cs, name, c);
      assert r[0] == (if hit then c else cs[0]);
      assert r[1..] == Refill(cs[1..], name, c);
      assert Weight(r) == r[0].syntactictype.Size() + Weight(r[1..]);
      assert Matches(cs, name) == (if hit then 1 else 0) + Matches(cs[1..], name);
      RefillStep(hit, cs[0].syntactictype.Size(), c.syntactictype.Size(), Weight(r[1..]),
                 Weight(cs[1..]), Matches(cs[1..], name));
    }
  }

  /** The arithmetic of one step of `RefillWeight`. */
  lemma RefillStep(hit: bool, s0: nat, z: nat, wr: nat, wt: nat, m: nat)
    requires s0 >= 1 && wr + m <= wt + m * z
    ensures (if hit then z else s0) + wr + ((if hit then 1 else 0) + m)
            <= s0 + wt + ((if hit then 1 else 0) + m) * z
  {
    if hit {
      assert (1 + m) * z == z + m * z;
    }
  }

  /** With at most one gap refilled, `ABS in` lowers the total size. */
  lemma {:induction false} AbsInWeight(cs: seq<Constituent>, counter: nat, goal: C.SynType)
    requires 0 < counter < |cs| && cs[counter].syntactictype.gap.LambdaGap?
    ensures var name := cs[counter].syntactictype.gap.varname;
            var rest := cs[..counter - 1] + cs[counter + 1..];
            Matches(rest, name) <= 1 ==> Weight(Refill(rest, name, cs[counter - 1])) < Weight(cs)
  {
    var name := cs[counter].syntactictype.gap.varname;
    var rest := cs[..counter - 1] + cs[counter + 1..];
    RefillWeight(rest, name, cs[counter - 1]);
    WeightAppend(cs[..counter - 1], cs[counter + 1..]);
    WeightAround(cs, counter - 1, counter, counter + 1);
    assert cs[counter - 1..counter] == [cs[counter - 1]];
    assert Weight([cs[counter - 1]]) == cs[counter - 1].syntactictype.Size();
    assert cs[counter + 1..counter + 1] == [];
  }

  /** The decreasing quantity of quantifier raising. */
  function QrRoom(cfg: Config, q: nat): nat {
    if q < cfg.qrlimit then cfg.qrlimit - q else 0
  }

  // ---------------------------------------------------------------------------------
  // What a node records.

  /** The axiom: one constituent whose category equals a goal that is not a function. */
  predicate Axiom(cs: seq<Constituent>, goal: C.SynType) {
    |cs| == 1 && C.Eq(cs[0].syntactictype, goal) && !goal.Func?
  }

  /**
   * What every recorded alternative satisfies: its children are valid, and by the rule
   * that made it, its shape and its children's bookkeeping are those the rule sets up.
   */
  predicate Recorded(cfg: Config, cs: seq<Constituent>, goal: C.SynType, q: nat, cd: nat, t: seq<Sequence>) {
    |t| > 0
    && (forall k :: 0 <= k < |t| ==> t[k].isvalid && t[k].ruleused == t[0].ruleused)
    && match t[0].ruleused
       case BackslashR =>
         |t| == 1 && goal.Func? && goal.slash == B.LeftSlash && t[0].goal == goal.right
         && t[0].qrcount == q && t[0].cooldown == Cool(cd) && |t[0].constituents| == |cs| + 1
       case SlashR =>
         |t| == 1 && goal.Func? && goal.slash == B.RightSlash && t[0].goal == goal.left
         && t[0].qrcount == q && t[0].cooldown == Cool(cd) && |t[0].constituents| == |cs| + 1
       case BackslashL =>
         |t| == 2 && t[1].goal == goal && t[0].qrcount == q && t[1].qrcount == q
         && t[0].cooldown == Cool(cd) && t[1].cooldown == Cool(cd)
         && |t[0].constituents| + |t[1].constituents| == |cs|
       case SlashL =>
         |t| == 2 && t[1].goal == goal && t[0].qrcount == q && t[1].qrcount == q
         && t[0].cooldown == Cool(cd) && t[1].cooldown == Cool(cd)
         && |t[0].constituents| + |t[1].constituents| == |cs|
       case AbsOut =>
         |t| == 1 && q < cfg.qrlimit && t[0].goal == goal && t[0].qrcount == q + 1
         && t[0].cooldown == cfg.cooldownperiod && |t[0].constituents| == |cs| + 2
       case AbsIn =>
         |t| == 1 && cd == 0 && |cs| > 2 && t[0].goal == goal && t[0].qrcount == q
         && t[0].cooldown == 0 && |t[0].constituents| == |cs| - 2
       case Lex => false
  }

  /** What holds of the loop state after every iteration. */
  predicate WorkInv(cfg: Config, cs: seq<Constituent>, goal: C.SynType, q: nat, cd: nat, w: Work) {
    (w.isvalid <==> |w.subtrees| > 0)
    && (w.isvalid <==> |w.denotations| > 0)
    && (forall k :: 0 <= k < |w.subtrees| ==> Recorded(cfg, cs, goal, q, cd, w.subtrees[k]))
    && (cfg.uniquedenotations ==> Distinct(w.denotations))
  }

  /** What holds of every node the search returns. */
  predicate NodeInv(cfg: Config, n: Sequence) {
    (n.isvalid <==> |n.denotations| > 0)
    && (n.isvalid <==> Axiom(n.constituents, n.goal) || |n.subtrees| > 0)
    && (forall k :: 0 <= k < |n.subtrees| ==>
          Recorded(cfg, n.constituents, n.goal, n.qrcount, n.cooldown, n.subtrees[k]))
    && (cfg.uniquedenotations ==> Distinct(n.denotations))
  }

  /** Recording a successful alternative together with the terms it added keeps the invariant. */
  lemma RecordStep(cfg: Config, cs: seq<Constituent>, goal: C.SynType, q: nat, cd: nat, w: Work,
                   t: seq<Sequence>, dens: seq<T.Den>)
    requires WorkInv(cfg, cs, goal, q, cd, w) && Recorded(cfg, cs, goal, q, cd, t)
    requires |dens| > 0 && (cfg.uniquedenotations ==> Distinct(dens))
    ensures forall ctr, tr :: WorkInv(cfg, cs, goal, q, cd, Work(w.subtrees + [t], true, dens, ctr, tr))
  {
    var s := w.subtrees + [t];
    assert forall k :: 0 <= k < |w.subtrees| ==> s[k] == w.subtrees[k];
    assert s[|w.subtrees|] == t;
  }

  /** `after` is `before` with entries appended. */
  predicate Grows(before: seq<seq<Sequence>>, after: seq<seq<Sequence>>) {
    |before| <= |after| && after[..|before|] == before
  }

  /** `after` is `before` with at most `n` entries appended. */
  predicate Extends(before: seq<seq<Sequence>>, after: seq<seq<Sequence>>, n: nat) {
    Grows(before, after) && |after| <= |before| + n
  }

  /**
   * A left-rule alternative `[subsequence1, subsequence2]`: the first child proves the
   * argument category from the span; the second holds the constituents before the
   * span and functor, one of the functor's result category, and those after.
   */
  predicate LeftEntry(t: seq<Sequence>, span: seq<Constituent>, argtype: C.SynType,
                      before: seq<Constituent>, restype: C.SynType, after: seq<Constituent>) {
    |t| == 2 && t[0].constituents == span && t[0].goal == argtype
    && |t[1].constituents| == |before| + 1 + |after|
    && t[1].constituents[..|before|] == before
    && t[1].constituents[|before|].syntactictype == restype
    && t[1].constituents[|before| + 1..] == after
  }

  /** A `\L` alternative for the functor at `counter`: its span ends just before it. */
  predicate BackEntry(cs: seq<Constituent>, counter: nat, t: seq<Sequence>)
    requires counter < |cs| && cs[counter].syntactictype.Func?
  {
    var ty := cs[counter].syntactictype;
    |t| > 0 && var n := |t[0].constituents|;
    0 < n <= counter
    && LeftEntry(t, cs[counter - n..counter], ty.left, cs[..counter - n], ty.right, cs[counter + 1..])
  }

  /** A `/L` alternative for the functor at `counter`: its span starts just after it. */
  predicate SlashEntry(cs: seq<Constituent>, counter: nat, t: seq<Sequence>)
    requires counter < |cs| && cs[counter].syntactictype.Func?
  {
    var ty := cs[counter].syntactictype;
    |t| > 0 && var n := |t[0].constituents|;
    0 < n && counter + n < |cs|
    && LeftEntry(t, cs[counter + 1..counter + 1 + n], ty.right, cs[..counter], ty.left, cs[counter + 1 + n..])
  }

  /** The length of an alternative's first child, the span of a left rule. */
  function SpanLen(t: seq<Sequence>): nat {
    if |t| > 0 then |t[0].constituents| else 0
  }

  /** From position `from` on, the spans grow strictly. */
  predicate Ordered(s: seq<seq<Sequence>>, from: nat) {
    forall k, k' :: from <= k < k' < |s| ==> SpanLen(s[k]) < SpanLen(s[k'])
  }

  /** From position `from` on, `\L` alternatives for `counter` with spans longer than `m`. */
  predicate BackEntries(cs: seq<Constituent>, counter: nat, s: seq<seq<Sequence>>, from: nat, m: int)
    requires counter < |cs| && cs[counter].syntactictype.Func?
  {
    forall k :: from <= k < |s| ==> BackEntry(cs, counter, s[k]) && SpanLen(s[k]) > m
  }

  /** From position `from` on, `/L` alternatives for `counter` with spans longer than `m`. */
  predicate SlashEntries(cs: seq<Constituent>, counter: nat, s: seq<seq<Sequence>>, from: nat, m: int)
    requires counter < |cs| && cs[counter].syntactictype.Func?
  {
    forall k :: from <= k < |s| ==> SlashEntry(cs, counter, s[k]) && SpanLen(s[k]) > m
  }

  /**
   * One `\L` span `cs[i..counter]` tried (adding at most the alternative `b` ends
   * with) before the wider ones (adding what `c` ends with): together, the spans are
   * all wider than `counter - i - 1` and in the order they were tried.
   */
  lemma BackStep(cs: seq<Constituent>, counter: nat, i: nat, a: seq<seq<Sequence>>,
                 b: seq<seq<Sequence>>, c: seq<seq<Sequence>>)
    requires i < counter < |cs| && cs[counter].syntactictype.Func?
    requires Extends(a, b, 1)
    requires |b| > |a| ==> var ty := cs[counter].syntactictype;
               LeftEntry(b[|a|], cs[i..counter], ty.left, cs[..i], ty.right, cs[counter + 1..])
    requires Grows(b, c) && BackEntries(cs, counter, c, |b|, counter - i) && Ordered(c, |b|)
    ensures Grows(a, c) && BackEntries(cs, counter, c, |a|, counter - i - 1) && Ordered(c, |a|)
  {
    assert c[..|a|] == b[..|b|][..|a|];
    if |b| > |a| {
      assert c[|a|] == b[|a|];
      assert SpanLen(c[|a|]) == counter - i;
    }
  }

  /** The same for one `/L` span `cs[counter + 1..i + 1]` before the wider ones. */
  lemma SlashStep(cs: seq<Constituent>, counter: nat, i: nat, a: seq<seq<Sequence>>,
                  b: seq<seq<Sequence>>, c: seq<seq<Sequence>>)
    requires counter < i < |cs| && cs[counter].syntactictype.Func?
    requires Extends(a, b, 1)
    requires |b| > |a| ==> var ty := cs[counter].syntactictype;
               LeftEntry(b[|a|], cs[counter + 1..i + 1], ty.right, cs[..counter], ty.left, cs[i + 1..])
    requires Grows(b, c) && SlashEntries(cs, counter, c, |b|, i - counter) && Ordered(c, |b|)
    ensures Grows(a, c) && SlashEntries(cs, counter, c, |a|, i - counter - 1) && Ordered(c, |a|)
  {
    assert c[..|a|] == b[..|b|][..|a|];
    if |b| > |a| {
      assert c[|a|] == b[|a|];
      assert SpanLen(c[|a|]) == i - counter;
    }
  }

  // ---------------------------------------------------------------------------------
  // The constructor.

  /**
   * `Sequence(cs, goal, rule, q, cd)` with the counters `ctr`: the node and the new
   * counters, or the exception (or endless loop) the construction runs into.
   */
  function Node(cfg: Config, cs: seq<Constituent>, goal: C.SynType, rule: Rule, q: nat, cd: nat,
                  fuel: nat, ctr: Counters): (r: Result<(Sequence, Counters)>)
    ensures r.Ok? ==> var n := r.value.0;
      n.constituents == cs && n.goal == goal && n.ruleused == rule && n.qrcount == q && n.cooldown == cd
      && NodeInv(cfg, n) && Later(ctr, r.value.1)
    ensures Axiom(cs, goal) ==>
      r == Ok((Sequence(cs, goal, rule, q, cd, [], true, [cs[0].denotation]), ctr))
    ensures |cs| == 0 ==> r.Ok? && !r.value.0.isvalid && r.value.0.denotations == []
    decreases QrRoom(cfg, q), fuel, Weight(cs) + goal.Size(), 6, 0
  {
    if Axiom(cs, goal) then
      // adddenotation on the empty list appends unconditionally
      Ok((Sequence(cs, goal, rule, q, cd, [], true, [cs[0].denotation]), ctr))
    else if |cs| == 0 then
      Ok((Sequence(cs, goal, rule, q, cd, [], false, []), ctr))
    else
      var w :- Rules(cfg, cs, goal, q, cd, fuel, ctr);
      Ok((Sequence(cs, goal, rule, q, cd, w.subtrees, w.isvalid, w.denotations), w.ctr))
  }

  /** The rules tried in turn on a non-axiom node: right rule, left rules, `QR`, `ABS in`. */
  function Rules(cfg: Config, cs: seq<Constituent>, goal: C.SynType, q: nat, cd: nat,
                 fuel: nat, ctr: Counters): (r: Result<Work>)
    ensures r.Ok? ==> WorkInv(cfg, cs, goal, q, cd, r.value) && Later(ctr, r.value.ctr)
    decreases QrRoom(cfg, q), fuel, Weight(cs) + goal.Size(), 5, 0
  {
    var w0 := Work([], false, [], ctr, []);
    var w1 :- if goal.Func? then RightRule(cfg, cs, goal, q, cd, fuel, w0) else Ok(w0);
    var w2 :- LeftRules(cfg, cs, goal, q, cd, fuel, 0, w1);
    var w3 :- if q < cfg.qrlimit then QrRules(cfg, cs, goal, q, cd, fuel, 0, w2) else Ok(w2);
    if cd == 0 && |cs| > 2 then AbsInRules(cfg, cs, goal, q, cd, fuel, 0, w3) else Ok(w3)
  }

  /**
   * `\R` / `/R`: a fresh variable of the goal's argument category is added on the
   * slash's side and the goal's result is proved; each term of the child is abstracted
   * over the variable.
   */
  function RightRule(cfg: Config, cs: seq<Constituent>, goal: C.SynType, q: nat, cd: nat,
                     fuel: nat, w: Work): (r: Result<Work>)
    requires goal.Func? && WorkInv(cfg, cs, goal, q, cd, w)
    ensures r.Ok? ==> WorkInv(cfg, cs, goal, q, cd, r.value) && Later(w.ctr, r.value.ctr)
    decreases QrRoom(cfg, q), fuel, Weight(cs) + goal.Size(), 4, 0
  {
    var nd := T.FreshVariable(w.ctr.sv);
    var v := Constituent(if goal.slash == B.LeftSlash then goal.left else goal.right, nd.0);
    var childcs := if goal.slash == B.LeftSlash then [v] + cs else cs + [v];
    var childgoal := if goal.slash == B.LeftSlash then goal.right else goal.left;
    var childrule := if goal.slash == B.LeftSlash then BackslashR else SlashR;
    WeightAdd(cs, v);
    var sub :- Node(cfg, childcs, childgoal, childrule, q, Cool(cd), fuel, Counters(w.ctr.vc, nd.1));
    var tried := w.tried + [Attempt(RightAlt, [sub.0])];
    if sub.0.isvalid then
      var lam :- AddLambdas(cfg, nd.0, sub.0.denotations, 0, w.denotations, sub.1.sv);
      RightRecord(cfg, cs, goal, q, cd, w, sub.0, lam.0, Counters(sub.1.vc, lam.1), tried);
      Ok(Work(w.subtrees + [[sub.0]], true, lam.0, Counters(sub.1.vc, lam.1), tried))
    else
      Ok(w.(ctr := sub.1, tried := tried))
  }

  /** Adding a constituent at either end adds its category's size. */
  lemma WeightAdd(cs: seq<Constituent>, v: Constituent)
    ensures Weight([v] + cs) == v.syntactictype.Size() + Weight(cs)
    ensures Weight(cs + [v]) == Weight(cs) + v.syntactictype.Size()
  {
    WeightAppend([v], cs);
    WeightAppend(cs, [v]);
    assert Weight([v]) == v.syntactictype.Size();
  }

  /** Recording a right-rule child keeps the invariant. */
  lemma RightRecord(cfg: Config, cs: seq<Constituent>, goal: C.SynType, q: nat, cd: nat, w: Work,
                    sub: Sequence, dens: seq<T.Den>, ctr: Counters, tr: seq<Attempt>)
    requires goal.Func? && WorkInv(cfg, cs, goal, q, cd, w)
    requires sub.isvalid && sub.qrcount == q && sub.cooldown == Cool(cd) && |sub.constituents| == |cs| + 1
    requires sub.ruleused == (if goal.slash == B.LeftSlash then BackslashR else SlashR)
    requires sub.goal == (if goal.slash == B.LeftSlash then goal.right else goal.left)
    requires |dens| > 0 && (cfg.uniquedenotations ==> Distinct(dens))
    ensures WorkInv(cfg, cs, goal, q, cd, Work(w.subtrees + [[sub]], true, dens, ctr, tr))
  {
    assert Recorded(cfg, cs, goal, q, cd, [sub]);
    RecordStep(cfg, cs, goal, q, cd, w, [sub], dens);
  }

  /** `adddenotation(Denotation('L' + str(v) + '.' + str(d)))` for each `d` from position `k`. */
  function AddLambdas(cfg: Config, v: T.Den, dens: seq<T.Den>, k: nat, acc: seq<T.Den>, sv: nat)
    : (r: Result<(seq<T.Den>, nat)>)
    requires k <= |dens|
    ensures r.Ok? ==> r.value.1 >= sv && |r.value.0| >= |acc| && (k < |dens| ==> |r.value.0| > 0)
    ensures r.Ok? && |acc| > 0 ==> |r.value.0| > 0
    ensures r.Ok? && cfg.uniquedenotations && Distinct(acc) ==> Distinct(r.value.0)
    decreases |dens| - k
  {
    if k == |dens| then Ok((acc, sv))
    else
      var d :- T.NewDenotation("L" + T.Repr(v) + "." + T.Repr(dens[k]), sv);
      var acc' :- AddDenotation(cfg, acc, d.0);
      AddLambdas(cfg, v, dens, k + 1, acc', d.1)
  }

  /** The left rules, for the constituents from position `counter` on. */
  function LeftRules(cfg: Config, cs: seq<Constituent>, goal: C.SynType, q: nat, cd: nat,
                     fuel: nat, counter: nat, w: Work): (r: Result<Work>)
    requires counter <= |cs| && WorkInv(cfg, cs, goal, q, cd, w)
    ensures r.Ok? ==> WorkInv(cfg, cs, goal, q, cd, r.value) && Later(w.ctr, r.value.ctr)
    decreases QrRoom(cfg, q), fuel, Weight(cs) + goal.Size(), 3, |cs| - counter
  {
    if counter == |cs| then Ok(w)
    else
      var ty := cs[counter].syntactictype;
      var w' :- if ty.Func? && ty.slash == B.LeftSlash then BackSpans(cfg, cs, goal, q, cd, fuel, counter, counter, w)
                else if ty.Func? then SlashSpans(cfg, cs, goal, q, cd, fuel, counter, counter + 1, w)
                else Ok(w);
      LeftRules(cfg, cs, goal, q, cd, fuel, counter + 1, w')
  }

  /** `\L` at `counter`: the argument spans `cs[i..counter]` for `i` from `j - 1` down to 0. */
  function BackSpans(cfg: Config, cs: seq<Constituent>, goal: C.SynType, q: nat, cd: nat,
                     fuel: nat, counter: nat, j: nat, w: Work): (r: Result<Work>)
    requires j <= counter < |cs| && cs[counter].syntactictype.Func?
    requires WorkInv(cfg, cs, goal, q, cd, w)
    ensures r.Ok? ==> WorkInv(cfg, cs, goal, q, cd, r.value) && Later(w.ctr, r.value.ctr)
    decreases QrRoom(cfg, q), fuel, Weight(cs) + goal.Size(), 2, j
  {
    if j == 0 then Ok(w)
    else
      var i := j - 1;
      var ty := cs[counter].syntactictype;
      BackSpanWeights(cs, i, counter);
      var w' :- LeftStep(cfg, cs, goal, q, cd, fuel, LeftAlt(counter, i, counter), BackslashL, cs[i..counter], ty.left,
                         cs[..i], ty.right, cs[counter + 1..], cs[counter].denotation, w);
      BackSpans(cfg, cs, goal, q, cd, fuel, counter, j - 1, w')
  }

  /** `/L` at `counter`: the argument spans `cs[counter + 1..i + 1]` for `i` from the given one up. */
  function SlashSpans(cfg: Config, cs: seq<Constituent>, goal: C.SynType, q: nat, cd: nat,
                      fuel: nat, counter: nat, i: nat, w: Work): (r: Result<Work>)
    requires counter < i <= |cs| && cs[counter].syntactictype.Func?
    requires WorkInv(cfg, cs, goal, q, cd, w)
    ensures r.Ok? ==> WorkInv(cfg, cs, goal, q, cd, r.value) && Later(w.ctr, r.value.ctr)
    decreases QrRoom(cfg, q), fuel, Weight(cs) + goal.Size(), 2, |cs| - i
  {
    if i == |cs| then Ok(w)
    else
      var ty := cs[counter].syntactictype;
      SlashSpanWeights(cs, counter, i);
      var w' :- LeftStep(cfg, cs, goal, q, cd, fuel, LeftAlt(counter, counter + 1, i + 1), SlashL, cs[counter + 1..i + 1], ty.right,
                         cs[..counter], ty.left, cs[i + 1..], cs[counter].denotation, w);
      SlashSpans(cfg, cs, goal, q, cd, fuel, counter, i + 1, w')
  }

  /**
   * The alternatives `BackSpans` records for the functor at `counter` are `\L` entries
   * for it, with spans wider than `counter - j`, narrowest first.
   */
  lemma {:induction false} BackSpansEntries(cfg: Config, cs: seq<Constituent>, goal: C.SynType, q: nat, cd: nat,
                                            fuel: nat, counter: nat, j: nat, w: Work, r: Work)
    requires j <= counter < |cs| && cs[counter].syntactictype.Func?
    requires WorkInv(cfg, cs, goal, q, cd, w)
    requires BackSpans(cfg, cs, goal, q, cd, fuel, counter, j, w) == Ok(r)
    ensures var s := r.subtrees;
      Grows(w.subtrees, s) && BackEntries(cs, counter, s, |w.subtrees|, counter - j) && Ordered(s, |w.subtrees|)
    decreases j, 1
  {
    if j > 0 {
      var ty := cs[counter].syntactictype;
      BackSpansNext(cfg, cs, goal, q, cd, fuel, counter, j, w, r);
      var w' := LeftStep(cfg, cs, goal, q, cd, fuel, LeftAlt(counter, j - 1, counter), BackslashL,
                         cs[j - 1..counter], ty.left, cs[..j - 1], ty.right, cs[counter + 1..],
                         cs[counter].denotation, w).value;
      BackEntryStep(cfg, cs, goal, q, cd, fuel, counter, j - 1, w, w');
      BackEntriesRest(cfg, cs, goal, q, cd, fuel, counter, j, w, w', r);
    }
  }

  /** The spans after `cs[j - 1..counter]`, joined to the alternative it added. */
  lemma {:induction false} BackEntriesRest(cfg: Config, cs: seq<Constituent>, goal: C.SynType, q: nat, cd: nat,
                                           fuel: nat, counter: nat, j: nat, w: Work, w': Work, r: Work)
    requires 0 < j <= counter < |cs| && cs[counter].syntactictype.Func?
    requires WorkInv(cfg, cs, goal, q, cd, w') && Extends(w.subtrees, w'.subtrees, 1)
    requires |w'.subtrees| > |w.subtrees| ==> var ty := cs[counter].syntactictype;
               LeftEntry(w'.subtrees[|w.subtrees|], cs[j - 1..counter], ty.left, cs[..j - 1], ty.right, cs[counter + 1..])
    requires BackSpans(cfg, cs, goal, q, cd, fuel, counter, j - 1, w') == Ok(r)
    ensures var s := r.subtrees;
      Grows(w.subtrees, s) && BackEntries(cs, counter, s, |w.subtrees|, counter - j) && Ordered(s, |w.subtrees|)
    decreases j, 0
  {
    BackSpansEntries(cfg, cs, goal, q, cd, fuel, counter, j - 1, w', r);
    BackStep(cs, counter, j - 1, w.subtrees, w'.subtrees, r.subtrees);
  }

  /** What one `\L` span step of `BackSpans` adds, in the terms `BackStep` takes. */
  lemma BackEntryStep(cfg: Config, cs: seq<Constituent>, goal: C.SynType, q: nat, cd: nat,
                      fuel: nat, counter: nat, i: nat, w: Work, r: Work)
    requires i < counter < |cs| && cs[counter].syntactictype.Func?
    requires var ty := cs[counter].syntactictype;
             Weight(cs[i..counter]) + ty.left.Size() < Weight(cs) + goal.Size()
             && Weight(cs[..i]) + ty.right.Size() + Weight(cs[counter + 1..]) < Weight(cs)
             && |cs[i..counter]| + |cs[..i]| + 1 + |cs[counter + 1..]| == |cs|
    requires WorkInv(cfg, cs, goal, q, cd, w)
    requires var ty := cs[counter].syntactictype;
             LeftStep(cfg, cs, goal, q, cd, fuel, LeftAlt(counter, i, counter), BackslashL,
                      cs[i..counter], ty.left, cs[..i], ty.right, cs[counter + 1..],
                      cs[counter].denotation, w) == Ok(r)
    ensures WorkInv(cfg, cs, goal, q, cd, r) && Extends(w.subtrees, r.subtrees, 1)
    ensures |r.subtrees| > |w.subtrees| ==> var ty := cs[counter].syntactictype;
              LeftEntry(r.subtrees[|w.subtrees|], cs[i..counter], ty.left, cs[..i], ty.right, cs[counter + 1..])
  {
  }

  /** `BackSpans` from start `j`: the step at `j - 1`, then the narrower starts. */
  lemma BackSpansNext(cfg: Config, cs: seq<Constituent>, goal: C.SynType, q: nat, cd: nat,
                      fuel: nat, counter: nat, j: nat, w: Work, r: Work)
    requires 0 < j <= counter < |cs| && cs[counter].syntactictype.Func?
    requires WorkInv(cfg, cs, goal, q, cd, w)
    requires BackSpans(cfg, cs, goal, q, cd, fuel, counter, j, w) == Ok(r)
    ensures var ty := cs[counter].syntactictype;
            Weight(cs[j - 1..counter]) + ty.left.Size() < Weight(cs) + goal.Size()
            && Weight(cs[..j - 1]) + ty.right.Size() + Weight(cs[counter + 1..]) < Weight(cs)
            && |cs[j - 1..counter]| + |cs[..j - 1]| + 1 + |cs[counter + 1..]| == |cs|
    ensures var ty := cs[counter].syntactictype;
            var step := LeftStep(cfg, cs, goal, q, cd, fuel, LeftAlt(counter, j - 1, counter), BackslashL,
                                 cs[j - 1..counter], ty.left, cs[..j - 1], ty.right, cs[counter + 1..],
                                 cs[counter].denotation, w);
            step.Ok? && BackSpans(cfg, cs, goal, q, cd, fuel, counter, j - 1, step.value) == Ok(r)
  {
    BackSpanWeights(cs, j - 1, counter);
  }

  /**
   * The alternatives `SlashSpans` records for the functor at `counter` are `/L` entries
   * for it, with spans wider than `i - counter - 1`, narrowest first.
   */
  lemma {:induction false} SlashSpansEntries(cfg: Config, cs: seq<Constituent>, goal: C.SynType, q: nat, cd: nat,
                                             fuel: nat, counter: nat, i: nat, w: Work, r: Work)
    requires counter < i <= |cs| && cs[counter].syntactictype.Func?
    requires WorkInv(cfg, cs, goal, q, cd, w)
    requires SlashSpans(cfg, cs, goal, q, cd, fuel, counter, i, w) == Ok(r)
    ensures var s := r.subtrees;
      Grows(w.subtrees, s) && SlashEntries(cs, counter, s, |w.subtrees|, i - counter - 1) && Ordered(s, |w.subtrees|)
    decreases |cs| - i, 1
  {
    if i < |cs| {
      var ty := cs[counter].syntactictype;
      SlashSpansNext(cfg, cs, goal, q, cd, fuel, counter, i, w, r);
      var w' := LeftStep(cfg, cs, goal, q, cd, fuel, LeftAlt(counter, counter + 1, i + 1), SlashL,
                         cs[counter + 1..i + 1], ty.right, cs[..counter], ty.left, cs[i + 1..],
                         cs[counter].denotation, w).value;
      SlashEntryStep(cfg, cs, goal, q, cd, fuel, counter, i, w, w');
      SlashEntriesRest(cfg, cs, goal, q, cd, fuel, counter, i, w, w', r);
    }
  }

  /** The spans after the one ending at `i + 1`, joined to the alternative it added. */
  lemma {:induction false} SlashEntriesRest(cfg: Config, cs: seq<Constituent>, goal: C.SynType, q: nat, cd: nat,
                                            fuel: nat, counter: nat, i: nat, w: Work, w': Work, r: Work)
    requires counter < i < |cs| && cs[counter].syntactictype.Func?
    requires WorkInv(cfg, cs, goal, q, cd, w') && Extends(w.subtrees, w'.subtrees, 1)
    requires |w'.subtrees| > |w.subtrees| ==> var ty := cs[counter].syntactictype;
               LeftEntry(w'.subtrees[|w.subtrees|], cs[counter + 1..i + 1], ty.right, cs[..counter], ty.left, cs[i + 1..])
    requires SlashSpans(cfg, cs, goal, q, cd, fuel, counter, i + 1, w') == Ok(r)
    ensures var s := r.subtrees;
      Grows(w.subtrees, s) && SlashEntries(cs, counter, s, |w.subtrees|, i - counter - 1) && Ordered(s, |w.subtrees|)
    decreases |cs| - i, 0
  {
    SlashSpansEntries(cfg, cs, goal, q, cd, fuel, counter, i + 1, w', r);
    SlashStep(cs, counter, i, w.subtrees, w'.subtrees, r.subtrees);
  }

  /** `SlashSpans` from end `i + 1`: the step there, then the wider ends. */
  lemma SlashSpansNext(cfg: Config, cs: seq<Constituent>, goal: C.SynType, q: nat, cd: nat,
                       fuel: nat, counter: nat, i: nat, w: Work, r: Work)
    requires counter < i < |cs| && cs[counter].syntactictype.Func?
    requires WorkInv(cfg, cs, goal, q, cd, w)
    requires SlashSpans(cfg, cs, goal, q, cd, fuel, counter, i, w) == Ok(r)
    ensures var ty := cs[counter].syntactictype;
            Weight(cs[counter + 1..i + 1]) + ty.right.Size() < Weight(cs) + goal.Size()
            && Weight(cs[..counter]) + ty.left.Size() + Weight(cs[i + 1..]) < Weight(cs)
            && |cs[counter + 1..i + 1]| + |cs[..counter]| + 1 + |cs[i + 1..]| == |cs|
    ensures var ty := cs[counter].syntactictype;
            var step := LeftStep(cfg, cs, goal, q, cd, fuel, LeftAlt(counter, counter + 1, i + 1), SlashL,
                                 cs[counter + 1..i + 1], ty.right, cs[..counter], ty.left, cs[i + 1..],
                                 cs[counter].denotation, w);
            step.Ok? && SlashSpans(cfg, cs, goal, q, cd, fuel, counter, i + 1, step.value) == Ok(r)
  {
    SlashSpanWeights(cs, counter, i);
  }

  /** What one `/L` span step of `SlashSpans` adds, in the terms `SlashStep` takes. */
  lemma SlashEntryStep(cfg: Config, cs: seq<Constituent>, goal: C.SynType, q: nat, cd: nat,
                       fuel: nat, counter: nat, i: nat, w: Work, r: Work)
    requires counter < i < |cs| && cs[counter].syntactictype.Func?
    requires var ty := cs[counter].syntactictype;
             Weight(cs[counter + 1..i + 1]) + ty.right.Size() < Weight(cs) + goal.Size()
             && Weight(cs[..counter]) + ty.left.Size() + Weight(cs[i + 1..]) < Weight(cs)
             && |cs[counter + 1..i + 1]| + |cs[..counter]| + 1 + |cs[i + 1..]| == |cs|
    requires WorkInv(cfg, cs, goal, q, cd, w)
    requires var ty := cs[counter].syntactictype;
             LeftStep(cfg, cs, goal, q, cd, fuel, LeftAlt(counter, counter + 1, i + 1), SlashL,
                      cs[counter + 1..i + 1], ty.right, cs[..counter], ty.left, cs[i + 1..],
                      cs[counter].denotation, w) == Ok(r)
    ensures WorkInv(cfg, cs, goal, q, cd, r) && Extends(w.subtrees, r.subtrees, 1)
    ensures |r.subtrees| > |w.subtrees| ==> var ty := cs[counter].syntactictype;
              LeftEntry(r.subtrees[|w.subtrees|], cs[counter + 1..i + 1], ty.right, cs[..counter], ty.left, cs[i + 1..])
  {
  }

  /**
   * One left-rule alternative: `span` must prove the functor's argument category;
   * then the functor and its span, replaced by a fresh variable of its result
   * category, must prove the goal.
   */
  function LeftStep(cfg: Config, cs: seq<Constituent>, goal: C.SynType, q: nat, cd: nat, fuel: nat,
                    alt: Alt, rule: Rule, span: seq<Constituent>, argtype: C.SynType,
                    before: seq<Constituent>, restype: C.SynType, after: seq<Constituent>,
                    functor: T.Den, w: Work): (r: Result<Work>)
    requires rule == BackslashL || rule == SlashL
    requires Weight(span) + argtype.Size() < Weight(cs) + goal.Size()
    requires Weight(before) + restype.Size() + Weight(after) < Weight(cs)
    requires |span| + |before| + 1 + |after| == |cs|
    requires WorkInv(cfg, cs, goal, q, cd, w)
    ensures r.Ok? ==> WorkInv(cfg, cs, goal, q, cd, r.value) && Later(w.ctr, r.value.ctr)
    ensures r.Ok? ==> Extends(w.subtrees, r.value.subtrees, 1)
    ensures r.Ok? && |r.value.subtrees| > |w.subtrees| ==>
      LeftEntry(r.value.subtrees[|w.subtrees|], span, argtype, before, restype, after)
    decreases QrRoom(cfg, q), fuel, Weight(cs) + goal.Size(), 1, 1
  {
    var sub1 :- Node(cfg, span, argtype, rule, q, Cool(cd), fuel, w.ctr);
    if !sub1.0.isvalid then Ok(w.(ctr := sub1.1, tried := w.tried + [Attempt(alt, [sub1.0])]))
    else LeftContinue(cfg, cs, goal, q, cd, fuel, alt, rule, sub1.0, before, restype, after, functor,
                      w.(ctr := sub1.1))
  }

  /** The continuation of a left rule whose argument child `sub1` is valid. */
  function LeftContinue(cfg: Config, cs: seq<Constituent>, goal: C.SynType, q: nat, cd: nat, fuel: nat,
                        alt: Alt, rule: Rule, sub1: Sequence,
                        before: seq<Constituent>, restype: C.SynType, after: seq<Constituent>,
                        functor: T.Den, w: Work): (r: Result<Work>)
    requires rule == BackslashL || rule == SlashL
    requires NodeInv(cfg, sub1) && sub1.isvalid && sub1.ruleused == rule
    requires sub1.qrcount == q && sub1.cooldown == Cool(cd)
    requires Weight(before) + restype.Size() + Weight(after) < Weight(cs)
    requires |sub1.constituents| + |before| + 1 + |after| == |cs|
    requires WorkInv(cfg, cs, goal, q, cd, w)
    ensures r.Ok? ==> WorkInv(cfg, cs, goal, q, cd, r.value) && Later(w.ctr, r.value.ctr)
    ensures r.Ok? ==> Extends(w.subtrees, r.value.subtrees, 1)
    ensures r.Ok? && |r.value.subtrees| > |w.subtrees| ==>
      LeftEntry(r.value.subtrees[|w.subtrees|], sub1.constituents, sub1.goal, before, restype, after)
    decreases QrRoom(cfg, q), fuel, Weight(cs) + goal.Size(), 1, 0
  {
    var nd := T.FreshVariable(w.ctr.sv);
    var rest := before + [Constituent(restype, nd.0)] + after;
    WeightSplice(before, Constituent(restype, nd.0), after);
    var sub2 :- Node(cfg, rest, goal, rule, q, Cool(cd), fuel, Counters(w.ctr.vc, nd.1));
    var tried := w.tried + [Attempt(alt, [sub1, sub2.0])];
    if !sub2.0.isvalid then Ok(w.(ctr := sub2.1, tried := tried))
    else
      var pairs :- AddPairs(cfg, functor, nd.0, sub2.0.denotations, sub1.denotations, 0,
                            w.denotations, sub2.1.sv);
      LeftRecord(cfg, cs, goal, q, cd, rule, sub1, before, restype, after, w, sub2.0, pairs.0,
                 Counters(sub2.1.vc, pairs.1), tried);
      Ok(Work(w.subtrees + [[sub1, sub2.0]], true, pairs.0, Counters(sub2.1.vc, pairs.1), tried))
  }

  /** Recording a left-rule pair: the invariant holds, one entry is added, and it has the rule's shape. */
  lemma LeftRecord(cfg: Config, cs: seq<Constituent>, goal: C.SynType, q: nat, cd: nat,
                   rule: Rule, sub1: Sequence,
                   before: seq<Constituent>, restype: C.SynType, after: seq<Constituent>,
                   w: Work, sub2: Sequence, dens: seq<T.Den>, ctr: Counters, tr: seq<Attempt>)
    requires rule == BackslashL || rule == SlashL
    requires sub1.isvalid && sub1.ruleused == rule && sub1.qrcount == q && sub1.cooldown == Cool(cd)
    requires |sub1.constituents| + |before| + 1 + |after| == |cs|
    requires sub2.isvalid && sub2.ruleused == rule && sub2.qrcount == q && sub2.cooldown == Cool(cd)
    requires sub2.goal == goal && |sub2.constituents| == |before| + 1 + |after|
    requires sub2.constituents[..|before|] == before && sub2.constituents[|before|].syntactictype == restype
    requires sub2.constituents[|before| + 1..] == after
    requires WorkInv(cfg, cs, goal, q, cd, w) && |dens| > 0 && (cfg.uniquedenotations ==> Distinct(dens))
    ensures var r := Work(w.subtrees + [[sub1, sub2]], true, dens, ctr, tr);
            WorkInv(cfg, cs, goal, q, cd, r) && Extends(w.subtrees, r.subtrees, 1)
            && LeftEntry(r.subtrees[|w.subtrees|], sub1.constituents, sub1.goal, before, restype, after)
  {
    assert Recorded(cfg, cs, goal, q, cd, [sub1, sub2]);
    RecordStep(cfg, cs, goal, q, cd, w, [sub1, sub2], dens);
    assert (w.subtrees + [[sub1, sub2]])[..|w.subtrees|] == w.subtrees;
  }

  /**
   * For each `d2` of the continuation (from position `k`) and each `d1` of the
   * argument: `Denotation(str(d2), Denotation(str(functor), d1), v)`.
   */
  function AddPairs(cfg: Config, functor: T.Den, v: T.Den, dens2: seq<T.Den>, dens1: seq<T.Den>,
                    k: nat, acc: seq<T.Den>, sv: nat): (r: Result<(seq<T.Den>, nat)>)
    requires k <= |dens2|
    ensures r.Ok? ==> r.value.1 >= sv && |r.value.0| >= |acc|
    ensures r.Ok? && k < |dens2| && |dens1| > 0 ==> |r.value.0| > 0
    ensures r.Ok? && |acc| > 0 ==> |r.value.0| > 0
    ensures r.Ok? && cfg.uniquedenotations && Distinct(acc) ==> Distinct(r.value.0)
    decreases |dens2| - k
  {
    if k == |dens2| then Ok((acc, sv))
    else
      var row :- AddRow(cfg, functor, v, dens2[k], dens1, 0, acc, sv);
      AddPairs(cfg, functor, v, dens2, dens1, k + 1, row.0, row.1)
  }

  /** The inner loop of `AddPairs`, over the argument's terms from position `k`. */
  function AddRow(cfg: Config, functor: T.Den, v: T.Den, d2: T.Den, dens1: seq<T.Den>,
                  k: nat, acc: seq<T.Den>, sv: nat): (r: Result<(seq<T.Den>, nat)>)
    requires k <= |dens1|
    ensures r.Ok? ==> r.value.1 >= sv && |r.value.0| >= |acc| && (k < |dens1| ==> |r.value.0| > 0)
    ensures r.Ok? && |acc| > 0 ==> |r.value.0| > 0
    ensures r.Ok? && cfg.uniquedenotations && Distinct(acc) ==> Distinct(r.value.0)
    decreases |dens1| - k
  {
    if k == |dens1| then Ok((acc, sv))
    else
      var inner :- T.NewApplication(T.Repr(functor), dens1[k], sv);
      var outer :- T.NewSubstitution(T.Repr(d2), inner.0, v, inner.1);
      var acc' :- AddDenotation(cfg, acc, outer.0);
      AddRow(cfg, functor, v, d2, dens1, k + 1, acc', outer.1)
  }

  /**
   * `ABS out` from position `counter` on: a function category not followed by a
   * lambda gap is raised to the front, followed by a fresh lambda gap `l`, and its
   * place is taken by the matching variable gap `v`.
   */
  function QrRules(cfg: Config, cs: seq<Constituent>, goal: C.SynType, q: nat, cd: nat,
                   fuel: nat, counter: nat, w: Work): (r: Result<Work>)
    requires q < cfg.qrlimit && counter <= |cs| && WorkInv(cfg, cs, goal, q, cd, w)
    ensures r.Ok? ==> WorkInv(cfg, cs, goal, q, cd, r.value) && Later(w.ctr, r.value.ctr)
    decreases QrRoom(cfg, q), fuel, Weight(cs) + goal.Size(), 3, |cs| - counter
  {
    if counter == |cs| then Ok(w)
    else
      var next := if counter < |cs| - 1 then cs[counter + 1] else cs[counter];
      var w' :- if cs[counter].syntactictype.Func? && !next.syntactictype.gap.LambdaGap?
                then QrStep(cfg, cs, goal, q, cd, fuel, counter, w) else Ok(w);
      QrRules(cfg, cs, goal, q, cd, fuel, counter + 1, w')
  }

  /**
   * The two gaps `ABS out` creates: `SyntacticType('l')` draws a fresh `varcounter`
   * id, `SyntacticType('v')` reuses it, so the variable gap is the one its lambda gap
   * names; both terms are the literals `l` and `v`.
   */
  lemma QrGaps(vc: nat, sv: nat)
    ensures C.ParseType("l", vc).Ok? && C.ParseType("v", vc + 1).Ok?
    ensures var l := C.ParseType("l", vc).value;
            var v := C.ParseType("v", vc + 1).value;
            l.1 == vc + 1 && v.1 == vc + 1 && !l.0.Func? && !v.0.Func?
            && l.0.gap.LambdaGap? && v.0.gap.VariableGap?
            && v.0.typestring == "v" + l.0.gap.varname
    ensures T.NewDenotation("l", sv) == Ok((T.Den("l", T.Simple, None, None, None, None), sv))
    ensures T.NewDenotation("v", sv) == Ok((T.Den("v", T.Simple, None, None, None, None), sv))
  {
    C.CleanedSingle("l");
    C.CleanedSingle("v");
    T.LiteralTerm("l", sv);
    T.LiteralTerm("v", sv);
  }

  function QrStep(cfg: Config, cs: seq<Constituent>, goal: C.SynType, q: nat, cd: nat,
                  fuel: nat, counter: nat, w: Work): (r: Result<Work>)
    requires q < cfg.qrlimit && counter < |cs| && WorkInv(cfg, cs, goal, q, cd, w)
    ensures r.Ok? ==> WorkInv(cfg, cs, goal, q, cd, r.value) && Later(w.ctr, r.value.ctr)
    decreases QrRoom(cfg, q), fuel, Weight(cs) + goal.Size(), 2, 0
  {
    QrGaps(w.ctr.vc, w.ctr.sv);
    var l := C.ParseType("l", w.ctr.vc).value;
    var ld := T.NewDenotation("l", w.ctr.sv).value;
    var v := C.ParseType("v", l.1).value;
    var vd := T.NewDenotation("v", ld.1).value;
    var child := [cs[counter], Constituent(l.0, ld.0)] + cs[..counter]
                 + [Constituent(v.0, vd.0)] + cs[counter + 1..];
    assert |child| == |cs| + 2;
    var sub :- Node(cfg, child, goal, AbsOut, q + 1, cfg.cooldownperiod, fuel, Counters(v.1, vd.1));
    var tried := w.tried + [Attempt(QrAlt(counter), [sub.0])];
    if sub.0.isvalid then
      var dens :- AddAll(cfg, sub.0.denotations, 0, w.denotations);
      QrRecord(cfg, cs, goal, q, cd, w, sub.0, dens, sub.1, tried);
      Ok(Work(w.subtrees + [[sub.0]], true, dens, sub.1, tried))
    else
      Ok(w.(ctr := sub.1, tried := tried))
  }

  /** Recording an `ABS out` child keeps the invariant. */
  lemma QrRecord(cfg: Config, cs: seq<Constituent>, goal: C.SynType, q: nat, cd: nat, w: Work,
                 sub: Sequence, dens: seq<T.Den>, ctr: Counters, tr: seq<Attempt>)
    requires q < cfg.qrlimit && WorkInv(cfg, cs, goal, q, cd, w)
    requires sub.isvalid && sub.ruleused == AbsOut && sub.goal == goal && sub.qrcount == q + 1
    requires sub.cooldown == cfg.cooldownperiod && |sub.constituents| == |cs| + 2
    requires |dens| > 0 && (cfg.uniquedenotations ==> Distinct(dens))
    ensures WorkInv(cfg, cs, goal, q, cd, Work(w.subtrees + [[sub]], true, dens, ctr, tr))
  {
    assert Recorded(cfg, cs, goal, q, cd, [sub]);
    RecordStep(cfg, cs, goal, q, cd, w, [sub], dens);
  }

  /**
   * `ABS in` from position `counter` on: a lambda gap after the first position binds
   * the constituent before it, which fills every matching variable gap; both leave
   * the list.
   */
  function AbsInRules(cfg: Config, cs: seq<Constituent>, goal: C.SynType, q: nat, cd: nat,
                      fuel: nat, counter: nat, w: Work): (r: Result<Work>)
    requires cd == 0 && |cs| > 2 && counter <= |cs| && WorkInv(cfg, cs, goal, q, cd, w)
    ensures r.Ok? ==> WorkInv(cfg, cs, goal, q, cd, r.value) && Later(w.ctr, r.value.ctr)
    decreases QrRoom(cfg, q), fuel, Weight(cs) + goal.Size(), 3, |cs| - counter
  {
    if counter == |cs| then Ok(w)
    else
      var w' :- if cs[counter].syntactictype.gap.LambdaGap? && counter > 0
                then AbsInStep(cfg, cs, goal, q, cd, fuel, counter, w) else Ok(w);
      AbsInRules(cfg, cs, goal, q, cd, fuel, counter + 1, w')
  }

  function AbsInStep(cfg: Config, cs: seq<Constituent>, goal: C.SynType, q: nat, cd: nat,
                     fuel: nat, counter: nat, w: Work): (r: Result<Work>)
    requires cd == 0 && |cs| > 2 && 0 < counter < |cs| && cs[counter].syntactictype.gap.LambdaGap?
    requires WorkInv(cfg, cs, goal, q, cd, w)
    ensures r.Ok? ==> WorkInv(cfg, cs, goal, q, cd, r.value) && Later(w.ctr, r.value.ctr)
    decreases QrRoom(cfg, q), fuel, Weight(cs) + goal.Size(), 2, 0
  {
    var name := cs[counter].syntactictype.gap.varname;
    var rest := cs[..counter - 1] + cs[counter + 1..];
    var child := Refill(rest, name, cs[counter - 1]);
    var copies := Matches(rest, name);
    if copies >= 2 && fuel == 0 then Err(OutOfFuel)
    else
      AbsInWeight(cs, counter, goal);
      var sub :- Node(cfg, child, goal, AbsIn, q, 0, if copies >= 2 then fuel - 1 else fuel, w.ctr);
      var tried := w.tried + [Attempt(AbsInAlt(counter), [sub.0])];
      if sub.0.isvalid then
        var dens :- AddAll(cfg, sub.0.denotations, 0, w.denotations);
        Ok(Work(w.subtrees + [[sub.0]], true, dens, sub.1, tried))
      else
        Ok(w.(ctr := sub.1, tried := tried))
  }
}
