/**
 * The loops of `Sequence.__init__` and `adddenotation` as the source runs them: each
 * rule is a `for` loop that appends to `subtrees` and `denotations`, and every method
 * is proved to compute exactly the function of module `Search` that specifies it.
 * The node's mutable fields `subtrees`, `isvalid` and `denotations`, with the
 * counters, are the `Work` value the loops update.
 */
module SearchLoops {
  import opened Outcomes
  import B = Brackets
  import C = Categories
  import T = Terms
  import opened Search

  /** `adddenotation`: one pass over the whole list, then at most one append. */
  method AddDenotationLoop(cfg: Config, dens: seq<T.Den>, d: T.Den) returns (r: Result<seq<T.Den>>)
    ensures r == AddDenotation(cfg, dens, d)
  {
    if cfg.uniquedenotations {
      var denotationexist := false;
      for k := 0 to |dens|
        invariant AnyEqualFrom(dens, d, 0, false) == AnyEqualFrom(dens, d, k, denotationexist)
      {
        var same :- T.Eq(dens[k], d);
        if same {
          denotationexist := true;
        }
      }
      if !denotationexist {
        return Ok(dens + [d]);
      }
      return Ok(dens);
    }
    return Ok(dens + [d]);
  }

  /** `for denotation in subsequence.denotations: self.adddenotation(denotation)`. */
  method AddAllLoop(cfg: Config, dens: seq<T.Den>, acc0: seq<T.Den>) returns (r: Result<seq<T.Den>>)
    ensures r == AddAll(cfg, dens, 0, acc0)
  {
    var acc := acc0;
    for k := 0 to |dens|
      invariant AddAll(cfg, dens, 0, acc0) == AddAll(cfg, dens, k, acc)
    {
      acc :- AddDenotationLoop(cfg, acc, dens[k]);
    }
    return Ok(acc);
  }

  /** The right rules' loop: each term of the child abstracted over the fresh variable. */
  method AddLambdasLoop(cfg: Config, v: T.Den, dens: seq<T.Den>, acc0: seq<T.Den>, sv0: nat)
    returns (r: Result<(seq<T.Den>, nat)>)
    ensures r == AddLambdas(cfg, v, dens, 0, acc0, sv0)
  {
    var acc, sv := acc0, sv0;
    for k := 0 to |dens|
      invariant AddLambdas(cfg, v, dens, 0, acc0, sv0) == AddLambdas(cfg, v, dens, k, acc, sv)
    {
      var d :- T.NewDenotation("L" + T.Repr(v) + "." + T.Repr(dens[k]), sv);
      acc :- AddDenotationLoop(cfg, acc, d.0);
      sv := d.1;
    }
    return Ok((acc, sv));
  }

  /** The left rules' nested loops over the continuation's and the argument's terms. */
  method AddPairsLoop(cfg: Config, functor: T.Den, v: T.Den, dens2: seq<T.Den>, dens1: seq<T.Den>,
                      acc0: seq<T.Den>, sv0: nat) returns (r: Result<(seq<T.Den>, nat)>)
    ensures r == AddPairs(cfg, functor, v, dens2, dens1, 0, acc0, sv0)
  {
    var acc, sv := acc0, sv0;
    for k := 0 to |dens2|
      invariant AddPairs(cfg, functor, v, dens2, dens1, 0, acc0, sv0)
                == AddPairs(cfg, functor, v, dens2, dens1, k, acc, sv)
    {
      ghost var rowacc, rowsv := acc, sv;
      for j := 0 to |dens1|
        invariant AddRow(cfg, functor, v, dens2[k], dens1, 0, rowacc, rowsv)
                  == AddRow(cfg, functor, v, dens2[k], dens1, j, acc, sv)
      {
        var inner :- T.NewApplication(T.Repr(functor), dens1[j], sv);
        var outer :- T.NewSubstitution(T.Repr(dens2[k]), inner.0, v, inner.1);
        acc :- AddDenotationLoop(cfg, acc, outer.0);
        sv := outer.1;
      }
    }
    return Ok((acc, sv));
  }

  /** `Sequence(cs, goal, rule, q, cd)`: the constructor, rule by rule. */
  method Build(cfg: Config, cs: seq<Constituent>, goal: C.SynType, rule: Rule, q: nat, cd: nat,
               fuel: nat, ctr: Counters) returns (r: Result<(Sequence, Counters)>)
    ensures r == Node(cfg, cs, goal, rule, q, cd, fuel, ctr)
    decreases QrRoom(cfg, q), fuel, Weight(cs) + goal.Size(), 6, 0
  {
    if Axiom(cs, goal) {
      // adddenotation on the empty list always appends
      var dens := AddDenotationLoop(cfg, [], cs[0].denotation);
      assert dens == Ok([cs[0].denotation]);
      return Ok((Sequence(cs, goal, rule, q, cd, [], true, dens.value), ctr));
    } else if |cs| == 0 {
      return Ok((Sequence(cs, goal, rule, q, cd, [], false, []), ctr));
    }
    var w :- RulesLoop(cfg, cs, goal, q, cd, fuel, ctr);
    return Ok((Sequence(cs, goal, rule, q, cd, w.subtrees, w.isvalid, w.denotations), w.ctr));
  }

  /** The rules of a non-axiom node, each extending the alternatives found so far. */
  method RulesLoop(cfg: Config, cs: seq<Constituent>, goal: C.SynType, q: nat, cd: nat,
                   fuel: nat, ctr: Counters) returns (r: Result<Work>)
    ensures r == Rules(cfg, cs, goal, q, cd, fuel, ctr)
    decreases QrRoom(cfg, q), fuel, Weight(cs) + goal.Size(), 5, 0
  {
    var w := Work([], false, [], ctr, []);
    if goal.Func? {
      w :- RightRuleLoop(cfg, cs, goal, q, cd, fuel, w);
    }
    w :- LeftRulesLoop(cfg, cs, goal, q, cd, fuel, w);
    if q < cfg.qrlimit {
      w :- QrRulesLoop(cfg, cs, goal, q, cd, fuel, w);
    }
    if cd == 0 && |cs| > 2 {
      w :- AbsInRulesLoop(cfg, cs, goal, q, cd, fuel, w);
    }
    return Ok(w);
  }

  /** `\R` / `/R`. */
  method RightRuleLoop(cfg: Config, cs: seq<Constituent>, goal: C.SynType, q: nat, cd: nat,
                       fuel: nat, w: Work) returns (r: Result<Work>)
    requires goal.Func? && WorkInv(cfg, cs, goal, q, cd, w)
    ensures r == RightRule(cfg, cs, goal, q, cd, fuel, w)
    decreases QrRoom(cfg, q), fuel, Weight(cs) + goal.Size(), 4, 0
  {
    var newdenotation := T.FreshVariable(w.ctr.sv);
    var v := Constituent(if goal.slash == B.LeftSlash then goal.left else goal.right, newdenotation.0);
    WeightAppend([v], cs);
    WeightAppend(cs, [v]);
    assert Weight([v]) == v.syntactictype.Size();
    var subsequence;
    if goal.slash == B.LeftSlash {
      subsequence :- Build(cfg, [v] + cs, goal.right, BackslashR, q, Cool(cd), fuel,
                           Counters(w.ctr.vc, newdenotation.1));
    } else {
      subsequence :- Build(cfg, cs + [v], goal.left, SlashR, q, Cool(cd), fuel,
                           Counters(w.ctr.vc, newdenotation.1));
    }
    var tried := w.tried + [Attempt(RightAlt, [subsequence.0])];
    if subsequence.0.isvalid {
      var lam :- AddLambdasLoop(cfg, newdenotation.0, subsequence.0.denotations, w.denotations,
                                subsequence.1.sv);
      return Ok(Work(w.subtrees + [[subsequence.0]], true, lam.0, Counters(subsequence.1.vc, lam.1), tried));
    }
    return Ok(w.(ctr := subsequence.1, tried := tried));
  }

  /** `for counter in range(len(self.constituents))` over the left rules. */
  method LeftRulesLoop(cfg: Config, cs: seq<Constituent>, goal: C.SynType, q: nat, cd: nat,
                       fuel: nat, w0: Work) returns (r: Result<Work>)
    requires WorkInv(cfg, cs, goal, q, cd, w0)
    ensures r == LeftRules(cfg, cs, goal, q, cd, fuel, 0, w0)
    decreases QrRoom(cfg, q), fuel, Weight(cs) + goal.Size(), 3, 0
  {
    var w := w0;
    for counter := 0 to |cs|
      invariant WorkInv(cfg, cs, goal, q, cd, w)
      invariant LeftRules(cfg, cs, goal, q, cd, fuel, 0, w0) == LeftRules(cfg, cs, goal, q, cd, fuel, counter, w)
    {
      var ty := cs[counter].syntactictype;
      if ty.Func? && ty.slash == B.LeftSlash {
        w :- BackSpansLoop(cfg, cs, goal, q, cd, fuel, counter, w);
      } else if ty.Func? {
        w :- SlashSpansLoop(cfg, cs, goal, q, cd, fuel, counter, w);
      }
    }
    return Ok(w);
  }

  /** `\L` at `counter`: the spans `cs[i..counter]`, narrowest first. */
  method BackSpansLoop(cfg: Config, cs: seq<Constituent>, goal: C.SynType, q: nat, cd: nat,
                       fuel: nat, counter: nat, w0: Work) returns (r: Result<Work>)
    requires counter < |cs| && cs[counter].syntactictype.Func?
    requires WorkInv(cfg, cs, goal, q, cd, w0)
    ensures r == BackSpans(cfg, cs, goal, q, cd, fuel, counter, counter, w0)
    decreases QrRoom(cfg, q), fuel, Weight(cs) + goal.Size(), 2, 0
  {
    var ty := cs[counter].syntactictype;
    var w := w0;
    for i := counter downto 0
      invariant WorkInv(cfg, cs, goal, q, cd, w)
      invariant BackSpans(cfg, cs, goal, q, cd, fuel, counter, counter, w0)
                == BackSpans(cfg, cs, goal, q, cd, fuel, counter, i, w)
    {
      BackSpanWeights(cs, i, counter);
      var step := LeftStepLoop(cfg, cs, goal, q, cd, fuel, LeftAlt(counter, i, counter), BackslashL, cs[i..counter], ty.left,
                               cs[..i], ty.right, cs[counter + 1..], cs[counter].denotation, w);
      if step.Err? {
        assert BackSpans(cfg, cs, goal, q, cd, fuel, counter, i + 1, w) == Err(step.error);
        return Err(step.error);
      }
      assert BackSpans(cfg, cs, goal, q, cd, fuel, counter, i + 1, w)
          == BackSpans(cfg, cs, goal, q, cd, fuel, counter, i, step.value);
      w := step.value;
    }
    return Ok(w);
  }

  /** `/L` at `counter`: the spans `cs[counter + 1..i + 1]`, narrowest first. */
  method SlashSpansLoop(cfg: Config, cs: seq<Constituent>, goal: C.SynType, q: nat, cd: nat,
                        fuel: nat, counter: nat, w0: Work) returns (r: Result<Work>)
    requires counter < |cs| && cs[counter].syntactictype.Func?
    requires WorkInv(cfg, cs, goal, q, cd, w0)
    ensures r == SlashSpans(cfg, cs, goal, q, cd, fuel, counter, counter + 1, w0)
    decreases QrRoom(cfg, q), fuel, Weight(cs) + goal.Size(), 2, 0
  {
    ghost var spans := SlashSpans(cfg, cs, goal, q, cd, fuel, counter, counter + 1, w0);
    var w := w0;
    for i := counter + 1 to |cs|
      invariant WorkInv(cfg, cs, goal, q, cd, w)
      invariant spans == SlashSpans(cfg, cs, goal, q, cd, fuel, counter, i, w)
    {
      var step := SlashSpanNext(cfg, cs, goal, q, cd, fuel, counter, i, w, spans);
      if step.Err? {
        return Err(step.error);
      }
      w := step.value;
    }
    return Ok(w);
  }

  /**
   * One iteration of the `/L` loop: the alternative with span `cs[counter + 1..i + 1]`,
   * after which `spans`, the value of the whole loop, is what the wider spans give.
   */
  method SlashSpanNext(cfg: Config, cs: seq<Constituent>, goal: C.SynType, q: nat, cd: nat,
                       fuel: nat, counter: nat, i: nat, w: Work, ghost spans: Result<Work>)
    returns (step: Result<Work>)
    requires counter < i < |cs| && cs[counter].syntactictype.Func?
    requires WorkInv(cfg, cs, goal, q, cd, w)
    requires spans == SlashSpans(cfg, cs, goal, q, cd, fuel, counter, i, w)
    ensures step.Err? ==> spans == Err(step.error)
    ensures step.Ok? ==> WorkInv(cfg, cs, goal, q, cd, step.value)
                         && spans == SlashSpans(cfg, cs, goal, q, cd, fuel, counter, i + 1, step.value)
    decreases QrRoom(cfg, q), fuel, Weight(cs) + goal.Size(), 1, 3
  {
    SlashSpanWeights(cs, counter, i);
    step := SlashSpanLoop(cfg, cs, goal, q, cd, fuel, counter, i, w);
    SlashSpansUnfold(cfg, cs, goal, q, cd, fuel, counter, i, w, step, spans);
  }

  /** The `/L` alternative with span `cs[counter + 1..i + 1]`. */
  method SlashSpanLoop(cfg: Config, cs: seq<Constituent>, goal: C.SynType, q: nat, cd: nat,
                       fuel: nat, counter: nat, i: nat, w: Work) returns (step: Result<Work>)
    requires counter < i < |cs| && cs[counter].syntactictype.Func?
    requires Weight(cs[counter + 1..i + 1]) + cs[counter].syntactictype.right.Size() < Weight(cs)
    requires Weight(cs[..counter]) + cs[counter].syntactictype.left.Size() + Weight(cs[i + 1..]) < Weight(cs)
    requires |cs[counter + 1..i + 1]| + |cs[..counter]| + 1 + |cs[i + 1..]| == |cs|
    requires WorkInv(cfg, cs, goal, q, cd, w)
    ensures step == LeftStep(cfg, cs, goal, q, cd, fuel, LeftAlt(counter, counter + 1, i + 1), SlashL,
                             cs[counter + 1..i + 1], cs[counter].syntactictype.right, cs[..counter],
                             cs[counter].syntactictype.left, cs[i + 1..], cs[counter].denotation, w)
    decreases QrRoom(cfg, q), fuel, Weight(cs) + goal.Size(), 1, 2
  {
    var ty := cs[counter].syntactictype;
    step := LeftStepLoop(cfg, cs, goal, q, cd, fuel, LeftAlt(counter, counter + 1, i + 1), SlashL,
                         cs[counter + 1..i + 1], ty.right, cs[..counter], ty.left, cs[i + 1..],
                         cs[counter].denotation, w);
  }

  /** `SlashSpans` from span end `i` is the step at `i` followed by the wider spans. */
  lemma SlashSpansUnfold(cfg: Config, cs: seq<Constituent>, goal: C.SynType, q: nat, cd: nat,
                       fuel: nat, counter: nat, i: nat, w: Work, step: Result<Work>, spans: Result<Work>)
    requires counter < i < |cs| && cs[counter].syntactictype.Func?
    requires WorkInv(cfg, cs, goal, q, cd, w)
    requires Weight(cs[counter + 1..i + 1]) + cs[counter].syntactictype.right.Size() < Weight(cs)
    requires Weight(cs[..counter]) + cs[counter].syntactictype.left.Size() + Weight(cs[i + 1..]) < Weight(cs)
    requires |cs[counter + 1..i + 1]| + |cs[..counter]| + 1 + |cs[i + 1..]| == |cs|
    requires step == LeftStep(cfg, cs, goal, q, cd, fuel, LeftAlt(counter, counter + 1, i + 1), SlashL,
                              cs[counter + 1..i + 1], cs[counter].syntactictype.right, cs[..counter],
                              cs[counter].syntactictype.left, cs[i + 1..], cs[counter].denotation, w)
    requires spans == SlashSpans(cfg, cs, goal, q, cd, fuel, counter, i, w)
    ensures step.Err? ==> spans == Err(step.error)
    ensures step.Ok? ==> WorkInv(cfg, cs, goal, q, cd, step.value)
                         && spans == SlashSpans(cfg, cs, goal, q, cd, fuel, counter, i + 1, step.value)
  {
  }

  /** One left-rule alternative: the argument child, then the continuation. */
  method LeftStepLoop(cfg: Config, cs: seq<Constituent>, goal: C.SynType, q: nat, cd: nat, fuel: nat,
                      alt: Alt, rule: Rule, span: seq<Constituent>, argtype: C.SynType,
                      before: seq<Constituent>, restype: C.SynType, after: seq<Constituent>,
                      functor: T.Den, w: Work) returns (r: Result<Work>)
    requires rule == BackslashL || rule == SlashL
    requires Weight(span) + argtype.Size() < Weight(cs) + goal.Size()
    requires Weight(before) + restype.Size() + Weight(after) < Weight(cs)
    requires |span| + |before| + 1 + |after| == |cs|
    requires WorkInv(cfg, cs, goal, q, cd, w)
    ensures r == LeftStep(cfg, cs, goal, q, cd, fuel, alt, rule, span, argtype, before, restype, after, functor, w)
    decreases QrRoom(cfg, q), fuel, Weight(cs) + goal.Size(), 1, 1
  {
    var subsequence1 :- Build(cfg, span, argtype, rule, q, Cool(cd), fuel, w.ctr);
    LeftStepUnfold(cfg, cs, goal, q, cd, fuel, alt, rule, span, argtype, before, restype, after, functor, w, subsequence1);
    if !subsequence1.0.isvalid {
      return Ok(w.(ctr := subsequence1.1, tried := w.tried + [Attempt(alt, [subsequence1.0])]));
    }
    r := LeftContinueLoop(cfg, cs, goal, q, cd, fuel, alt, rule, subsequence1.0, before, restype, after,
                          functor, w.(ctr := subsequence1.1));
  }
  /** `LeftStep` once its argument child is built: stop there, or go on to the continuation. */
  lemma LeftStepUnfold(cfg: Config, cs: seq<Constituent>, goal: C.SynType, q: nat, cd: nat, fuel: nat,
                       alt: Alt, rule: Rule, span: seq<Constituent>, argtype: C.SynType,
                       before: seq<Constituent>, restype: C.SynType, after: seq<Constituent>,
                       functor: T.Den, w: Work, sub1: (Sequence, Counters))
    requires rule == BackslashL || rule == SlashL
    requires Weight(span) + argtype.Size() < Weight(cs) + goal.Size()
    requires Weight(before) + restype.Size() + Weight(after) < Weight(cs)
    requires |span| + |before| + 1 + |after| == |cs|
    requires WorkInv(cfg, cs, goal, q, cd, w)
    requires Node(cfg, span, argtype, rule, q, Cool(cd), fuel, w.ctr) == Ok(sub1)
    ensures NodeInv(cfg, sub1.0) && sub1.0.ruleused == rule && sub1.0.constituents == span
    ensures sub1.0.qrcount == q && sub1.0.cooldown == Cool(cd) && WorkInv(cfg, cs, goal, q, cd, w.(ctr := sub1.1))
    ensures !sub1.0.isvalid ==>
      LeftStep(cfg, cs, goal, q, cd, fuel, alt, rule, span, argtype, before, restype, after, functor, w)
      == Ok(w.(ctr := sub1.1, tried := w.tried + [Attempt(alt, [sub1.0])]))
    ensures sub1.0.isvalid ==>
      LeftStep(cfg, cs, goal, q, cd, fuel, alt, rule, span, argtype, before, restype, after, functor, w)
      == LeftContinue(cfg, cs, goal, q, cd, fuel, alt, rule, sub1.0, before, restype, after, functor,
                      w.(ctr := sub1.1))
    decreases QrRoom(cfg, q), fuel, Weight(cs) + goal.Size(), 0, 0
  {
  }


  /** The continuation: the functor and its span replaced by a variable of the result category. */
  method LeftContinueLoop(cfg: Config, cs: seq<Constituent>, goal: C.SynType, q: nat, cd: nat, fuel: nat,
                          alt: Alt, rule: Rule, subsequence1: Sequence,
                          before: seq<Constituent>, restype: C.SynType, after: seq<Constituent>,
                          functor: T.Den, w: Work) returns (r: Result<Work>)
    requires rule == BackslashL || rule == SlashL
    requires NodeInv(cfg, subsequence1) && subsequence1.isvalid && subsequence1.ruleused == rule
    requires subsequence1.qrcount == q && subsequence1.cooldown == Cool(cd)
    requires Weight(before) + restype.Size() + Weight(after) < Weight(cs)
    requires |subsequence1.constituents| + |before| + 1 + |after| == |cs|
    requires WorkInv(cfg, cs, goal, q, cd, w)
    ensures r == LeftContinue(cfg, cs, goal, q, cd, fuel, alt, rule, subsequence1, before, restype, after, functor, w)
    decreases QrRoom(cfg, q), fuel, Weight(cs) + goal.Size(), 1, 0
  {
    var newdenotation := T.FreshVariable(w.ctr.sv);
    var v := Constituent(restype, newdenotation.0);
    WeightAppend(before + [v], after);
    WeightAppend(before, [v]);
    assert Weight([v]) == restype.Size();
    var subsequence2 :- Build(cfg, before + [v] + after, goal, rule, q, Cool(cd), fuel,
                              Counters(w.ctr.vc, newdenotation.1));
    var tried := w.tried + [Attempt(alt, [subsequence1, subsequence2.0])];
    if !subsequence2.0.isvalid {
      return Ok(w.(ctr := subsequence2.1, tried := tried));
    }
    var pairs :- AddPairsLoop(cfg, functor, newdenotation.0, subsequence2.0.denotations,
                              subsequence1.denotations, w.denotations, subsequence2.1.sv);
    return Ok(Work(w.subtrees + [[subsequence1, subsequence2.0]], true, pairs.0,
                   Counters(subsequence2.1.vc, pairs.1), tried));
  }

  /** The `ABS out` loop. */
  method QrRulesLoop(cfg: Config, cs: seq<Constituent>, goal: C.SynType, q: nat, cd: nat,
                     fuel: nat, w0: Work) returns (r: Result<Work>)
    requires q < cfg.qrlimit && WorkInv(cfg, cs, goal, q, cd, w0)
    ensures r == QrRules(cfg, cs, goal, q, cd, fuel, 0, w0)
    decreases QrRoom(cfg, q), fuel, Weight(cs) + goal.Size(), 3, 0
  {
    var w := w0;
    for counter := 0 to |cs|
      invariant WorkInv(cfg, cs, goal, q, cd, w)
      invariant QrRules(cfg, cs, goal, q, cd, fuel, 0, w0) == QrRules(cfg, cs, goal, q, cd, fuel, counter, w)
    {
      var constituent := cs[counter];
      var nextconstituent := if counter < |cs| - 1 then cs[counter + 1] else constituent;
      if constituent.syntactictype.Func? && !nextconstituent.syntactictype.gap.LambdaGap? {
        w :- QrStepLoop(cfg, cs, goal, q, cd, fuel, counter, w);
      }
    }
    return Ok(w);
  }

  /** One `ABS out` alternative. */
  method QrStepLoop(cfg: Config, cs: seq<Constituent>, goal: C.SynType, q: nat, cd: nat,
                    fuel: nat, counter: nat, w: Work) returns (r: Result<Work>)
    requires q < cfg.qrlimit && counter < |cs| && WorkInv(cfg, cs, goal, q, cd, w)
    ensures r == QrStep(cfg, cs, goal, q, cd, fuel, counter, w)
    decreases QrRoom(cfg, q), fuel, Weight(cs) + goal.Size(), 2, 0
  {
    QrGaps(w.ctr.vc, w.ctr.sv);
    var lambdatype := C.NewSyntacticType("l", w.ctr.vc);
    var l := lambdatype.value;
    var ld := T.NewDenotation("l", w.ctr.sv).value;
    var variabletype := C.NewSyntacticType("v", l.1);
    var v := variabletype.value;
    var vd := T.NewDenotation("v", ld.1).value;
    var subsequence :- Build(cfg, [cs[counter], Constituent(l.0, ld.0)] + cs[..counter]
                                  + [Constituent(v.0, vd.0)] + cs[counter + 1..],
                             goal, AbsOut, q + 1, cfg.cooldownperiod, fuel, Counters(v.1, vd.1));
    var tried := w.tried + [Attempt(QrAlt(counter), [subsequence.0])];
    if subsequence.0.isvalid {
      var dens :- AddAllLoop(cfg, subsequence.0.denotations, w.denotations);
      return Ok(Work(w.subtrees + [[subsequence.0]], true, dens, subsequence.1, tried));
    }
    return Ok(w.(ctr := subsequence.1, tried := tried));
  }

  /** The `ABS in` loop. */
  method AbsInRulesLoop(cfg: Config, cs: seq<Constituent>, goal: C.SynType, q: nat, cd: nat,
                        fuel: nat, w0: Work) returns (r: Result<Work>)
    requires cd == 0 && |cs| > 2 && WorkInv(cfg, cs, goal, q, cd, w0)
    ensures r == AbsInRules(cfg, cs, goal, q, cd, fuel, 0, w0)
    decreases QrRoom(cfg, q), fuel, Weight(cs) + goal.Size(), 3, 0
  {
    var w := w0;
    for counter := 0 to |cs|
      invariant WorkInv(cfg, cs, goal, q, cd, w)
      invariant AbsInRules(cfg, cs, goal, q, cd, fuel, 0, w0) == AbsInRules(cfg, cs, goal, q, cd, fuel, counter, w)
    {
      if cs[counter].syntactictype.gap.LambdaGap? && counter > 0 {
        w :- AbsInStepLoop(cfg, cs, goal, q, cd, fuel, counter, w);
      }
    }
    return Ok(w);
  }

  /** One `ABS in` alternative. */
  method AbsInStepLoop(cfg: Config, cs: seq<Constituent>, goal: C.SynType, q: nat, cd: nat,
                       fuel: nat, counter: nat, w: Work) returns (r: Result<Work>)
    requires cd == 0 && |cs| > 2 && 0 < counter < |cs| && cs[counter].syntactictype.gap.LambdaGap?
    requires WorkInv(cfg, cs, goal, q, cd, w)
    ensures r == AbsInStep(cfg, cs, goal, q, cd, fuel, counter, w)
    decreases QrRoom(cfg, q), fuel, Weight(cs) + goal.Size(), 2, 0
  {
    var lambdaname := cs[counter].syntactictype.gap.varname;
    var rest := cs[..counter - 1] + cs[counter + 1..];
    var copies := Matches(rest, lambdaname);
    if copies >= 2 && fuel == 0 {
      return Err(OutOfFuel);
    }
    AbsInWeight(cs, counter, goal);
    var subsequence :- Build(cfg, Refill(rest, lambdaname, cs[counter - 1]), goal, AbsIn, q, 0,
                             if copies >= 2 then fuel - 1 else fuel, w.ctr);
    var tried := w.tried + [Attempt(AbsInAlt(counter), [subsequence.0])];
    if subsequence.0.isvalid {
      var dens :- AddAllLoop(cfg, subsequence.0.denotations, w.denotations);
      return Ok(Work(w.subtrees + [[subsequence.0]], true, dens, subsequence.1, tried));
    }
    return Ok(w.(ctr := subsequence.1, tried := tried));
  }
}
