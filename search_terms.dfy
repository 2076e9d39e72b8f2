/**
 * Which terms a node collects.  Each loop of sequent.py that adds terms to a node
 * builds one term per input (per pair of inputs for the left rules) and passes each to
 * `adddenotation`; the functions `BuiltLambdas`, `BuiltRow` and `BuiltPairs` list the
 * terms built, and the lemmas here show that each loop is `AddAll` of that list:
 *  - with `uniquedenotations` off, the list is appended as it is, in order;
 *  - with it on, the old terms stay in front, every term added is one of the list, and
 *    every term of the list is either added or equal (`Terms.Eq`) to one already there.
 */
module SearchTerms {
  import opened Outcomes
  import T = Terms
  import B = Brackets
  import C = Categories
  import opened Search
  import opened SearchLog

  // ---------------------------------------------------------------------------------
  // AddAll.

  /** `d` is in the list, or an element of it is equal to `d`. */
  predicate Covered(r: seq<T.Den>, d: T.Den) {
    d in r || exists e :: 0 <= e < |r| && T.Eq(r[e], d) == Ok(true)
  }

  /** `r` is `acc` followed by some of `b`, and covers all of `b`. */
  predicate Gathered(acc: seq<T.Den>, b: seq<T.Den>, r: seq<T.Den>) {
    |acc| <= |r| && r[..|acc|] == acc
    && (forall e :: |acc| <= e < |r| ==> r[e] in b)
    && (forall i :: 0 <= i < |b| ==> Covered(r, b[i]))
  }

  /** What `adddenotation` of every term of `b` onto `acc` leaves, in either mode. */
  predicate Collected(cfg: Config, acc: seq<T.Den>, b: seq<T.Den>, r: seq<T.Den>) {
    (!cfg.uniquedenotations ==> r == acc + b) && (cfg.uniquedenotations ==> Gathered(acc, b, r))
  }

  /** `AddAll` depends only on the terms from position `k` on. */
  lemma {:induction false} AddAllSame(cfg: Config, s: seq<T.Den>, k: nat, t: seq<T.Den>, j: nat, acc: seq<T.Den>)
    requires k <= |s| && j <= |t| && s[k..] == t[j..]
    ensures AddAll(cfg, s, k, acc) == AddAll(cfg, t, j, acc)
    decreases |s| - k
  {
    if k < |s| {
      assert s[k] == s[k..][0] == t[j];
      assert s[k + 1..] == s[k..][1..] == t[j + 1..];
      var a := AddDenotation(cfg, acc, s[k]);
      if a.Ok? {
        AddAllSame(cfg, s, k + 1, t, j + 1, a.value);
      }
    }
  }

  /** With `uniquedenotations` off every term is appended: `AddAll` is concatenation. */
  lemma {:induction false} AddAllPlain(cfg: Config, dens: seq<T.Den>, k: nat, acc: seq<T.Den>)
    requires !cfg.uniquedenotations && k <= |dens|
    ensures AddAll(cfg, dens, k, acc) == Ok(acc + dens[k..])
    decreases |dens| - k
  {
    if k < |dens| {
      assert AddDenotation(cfg, acc, dens[k]) == Ok(acc + [dens[k]]);
      assert AddAll(cfg, dens, k, acc) == AddAll(cfg, dens, k + 1, acc + [dens[k]]);
      AddAllPlain(cfg, dens, k + 1, acc + [dens[k]]);
      assert dens[k..] == [dens[k]] + dens[k + 1..];
      assert acc + [dens[k]] + dens[k + 1..] == acc + dens[k..];
    } else {
      assert acc + dens[k..] == acc;
    }
  }

  /** The terms already collected stay in front. */
  lemma {:induction false} AddAllPrefix(cfg: Config, dens: seq<T.Den>, k: nat, acc: seq<T.Den>, r: seq<T.Den>)
    requires k <= |dens| && AddAll(cfg, dens, k, acc) == Ok(r)
    ensures |acc| <= |r| && r[..|acc|] == acc
    decreases |dens| - k
  {
    if k < |dens| {
      var acc' := AddDenotation(cfg, acc, dens[k]).value;
      AddAllPrefix(cfg, dens, k + 1, acc', r);
      assert r[..|acc'|][..|acc|] == r[..|acc|];
    }
  }

  /** Every term added is one of the terms from position `k` on. */
  lemma {:induction false} AddAllFrom(cfg: Config, dens: seq<T.Den>, k: nat, acc: seq<T.Den>, r: seq<T.Den>, e: nat)
    requires k <= |dens| && AddAll(cfg, dens, k, acc) == Ok(r) && |acc| <= e < |r|
    ensures r[e] in dens[k..]
    decreases |dens| - k
  {
    var acc' := AddDenotation(cfg, acc, dens[k]).value;
    assert dens[k..] == [dens[k]] + dens[k + 1..];
    if e < |acc'| {
      AddAllPrefix(cfg, dens, k + 1, acc', r);
      assert r[e] == r[..|acc'|][e] == acc'[e] == dens[k];
    } else {
      AddAllFrom(cfg, dens, k + 1, acc', r, e);
    }
  }

  /** With `uniquedenotations` on, every term from position `k` on is added or equal to one kept. */
  lemma {:induction false} AddAllCovers(cfg: Config, dens: seq<T.Den>, k: nat, acc: seq<T.Den>, r: seq<T.Den>, i: nat)
    requires cfg.uniquedenotations && k <= i < |dens| && AddAll(cfg, dens, k, acc) == Ok(r)
    ensures Covered(r, dens[i])
    decreases |dens| - k
  {
    var acc' := AddDenotation(cfg, acc, dens[k]).value;
    if i > k {
      AddAllCovers(cfg, dens, k + 1, acc', r, i);
    } else {
      AddAllPrefix(cfg, dens, k + 1, acc', r);
      if acc' == acc + [dens[k]] {
        assert r[|acc|] == r[..|acc'|][|acc|] == dens[k];
      } else {
        var j :| 0 <= j < |acc| && T.Eq(acc[j], dens[k]) == Ok(true);
        assert r[j] == r[..|acc'|][j] == acc[j];
      }
    }
  }

  /** With `uniquedenotations` on, `AddAll` from the first term gathers the terms of `dens`. */
  lemma AddAllGathered(cfg: Config, dens: seq<T.Den>, acc: seq<T.Den>, r: seq<T.Den>)
    requires cfg.uniquedenotations && AddAll(cfg, dens, 0, acc) == Ok(r)
    ensures Gathered(acc, dens, r)
  {
    AddAllPrefix(cfg, dens, 0, acc, r);
    AddAllFromEach(cfg, dens, acc, r);
    AddAllCoversEach(cfg, dens, acc, r);
  }

  /** Every term `AddAll` adds is one of `dens`. */
  lemma AddAllFromEach(cfg: Config, dens: seq<T.Den>, acc: seq<T.Den>, r: seq<T.Den>)
    requires AddAll(cfg, dens, 0, acc) == Ok(r)
    ensures forall e :: |acc| <= e < |r| ==> r[e] in dens
  {
    assert dens[0..] == dens;
    forall e | |acc| <= e < |r|
      ensures r[e] in dens
    {
      AddAllFrom(cfg, dens, 0, acc, r, e);
    }
  }

  /** With `uniquedenotations` on, every term of `dens` is covered. */
  lemma AddAllCoversEach(cfg: Config, dens: seq<T.Den>, acc: seq<T.Den>, r: seq<T.Den>)
    requires cfg.uniquedenotations && AddAll(cfg, dens, 0, acc) == Ok(r)
    ensures forall i :: 0 <= i < |dens| ==> Covered(r, dens[i])
  {
    forall i | 0 <= i < |dens|
      ensures Covered(r, dens[i])
    {
      AddAllCovers(cfg, dens, 0, acc, r, i);
    }
  }

  /** `adddenotation` of each term of `b`, in either mode (what `ABS out` and `ABS in` add). */
  lemma AddAllCollects(cfg: Config, b: seq<T.Den>, acc: seq<T.Den>, r: seq<T.Den>)
    requires AddAll(cfg, b, 0, acc) == Ok(r)
    ensures Collected(cfg, acc, b, r)
  {
    if cfg.uniquedenotations {
      AddAllGathered(cfg, b, acc, r);
    } else {
      AddAllPlain(cfg, b, 0, acc);
    }
  }

  /** Adding `a + b` is adding `a`, then `b`; an error while adding `a` is the error. */
  lemma {:induction false} AddAllAppend(cfg: Config, a: seq<T.Den>, b: seq<T.Den>, k: nat, acc: seq<T.Den>)
    requires k <= |a|
    ensures var m := AddAll(cfg, a, k, acc);
            AddAll(cfg, a + b, k, acc) == if m.Err? then m else AddAll(cfg, b, 0, m.value)
    decreases |a| - k
  {
    if k == |a| {
      AddAllSame(cfg, a + b, k, b, 0, acc);
    } else {
      assert (a + b)[k] == a[k];
      var d := AddDenotation(cfg, acc, a[k]);
      if d.Ok? {
        AddAllAppend(cfg, a, b, k + 1, d.value);
      }
    }
  }

  // ---------------------------------------------------------------------------------
  // The terms each loop builds.

  /** The right rules' term for `d`: `Denotation('L' + str(v) + '.' + str(d))`. */
  function LambdaTerm(v: T.Den, d: T.Den, sv: nat): Result<(T.Den, nat)> {
    T.NewDenotation("L" + T.Repr(v) + "." + T.Repr(d), sv)
  }

  /** The left rules' term for `d2` and `d1`: `Denotation(str(d2), Denotation(str(functor), d1), v)`. */
  function RowTerm(functor: T.Den, v: T.Den, d2: T.Den, d1: T.Den, sv: nat): Result<(T.Den, nat)> {
    var inner :- T.NewApplication(T.Repr(functor), d1, sv);
    T.NewSubstitution(T.Repr(d2), inner.0, v, inner.1)
  }

  /**
   * `f` applied to each term of `dens` from position `k`, the counter threaded through
   * in order: the shape of the loops that build the rules' terms.
   */
  function Mapped(f: (T.Den, nat) -> Result<(T.Den, nat)>, dens: seq<T.Den>, k: nat, sv: nat)
    : (r: Result<(seq<T.Den>, nat)>)
    requires k <= |dens|
    ensures r.Ok? ==> |r.value.0| == |dens| - k
    decreases |dens| - k
  {
    if k == |dens| then Ok(([], sv))
    else
      var d :- f(dens[k], sv);
      var rest :- Mapped(f, dens, k + 1, d.1);
      Ok(([d.0] + rest.0, rest.1))
  }

  /** The right rules' terms: `LambdaTerm` of each `d` from position `k`. */
  function BuiltLambdas(v: T.Den, dens: seq<T.Den>, k: nat, sv: nat): (r: Result<(seq<T.Den>, nat)>)
    requires k <= |dens|
  {
    Mapped((d, s) => LambdaTerm(v, d, s), dens, k, sv)
  }

  /** The left rules' terms for one `d2`: `RowTerm` of each `d1` from position `k`. */
  function BuiltRow(functor: T.Den, v: T.Den, d2: T.Den, dens1: seq<T.Den>, k: nat, sv: nat)
    : (r: Result<(seq<T.Den>, nat)>)
    requires k <= |dens1|
  {
    Mapped((d, s) => RowTerm(functor, v, d2, d, s), dens1, k, sv)
  }

  /** The left rules' terms: the rows for each `d2` from position `k`, one after the other. */
  function BuiltPairs(functor: T.Den, v: T.Den, dens2: seq<T.Den>, dens1: seq<T.Den>, k: nat, sv: nat)
    : (r: Result<(seq<T.Den>, nat)>)
    requires k <= |dens2|
    decreases |dens2| - k
  {
    if k == |dens2| then Ok(([], sv))
    else
      var row :- BuiltRow(functor, v, dens2[k], dens1, 0, sv);
      var rest :- BuiltPairs(functor, v, dens2, dens1, k + 1, row.1);
      Ok((row.0 + rest.0, rest.1))
  }

  /**
   * The term `Mapped` lists at position `i` is `f` of the `i`-th input term, at the
   * counter value `s` reached by then.
   */
  lemma {:induction false} MappedAt(f: (T.Den, nat) -> Result<(T.Den, nat)>, dens: seq<T.Den>, k: nat, sv: nat, i: nat)
    returns (s: nat)
    requires k <= i < |dens| && Mapped(f, dens, k, sv).Ok?
    ensures f(dens[i], s).Ok? && f(dens[i], s).value.0 == Mapped(f, dens, k, sv).value.0[i - k]
    decreases |dens| - k
  {
    var d := f(dens[k], sv).value;
    if i > k {
      s := MappedAt(f, dens, k + 1, d.1, i);
    } else {
      s := sv;
    }
  }

  /** The term `BuiltLambdas` lists at position `i` is `LambdaTerm` of the `i`-th input term. */
  lemma LambdaAt(v: T.Den, dens: seq<T.Den>, k: nat, sv: nat, i: nat) returns (s: nat)
    requires k <= i < |dens| && BuiltLambdas(v, dens, k, sv).Ok?
    ensures LambdaTerm(v, dens[i], s).Ok?
    ensures LambdaTerm(v, dens[i], s).value.0 == BuiltLambdas(v, dens, k, sv).value.0[i - k]
  {
    s := MappedAt((d, s) => LambdaTerm(v, d, s), dens, k, sv, i);
  }

  /**
   * The term `BuiltRow` lists at position `i` is `RowTerm` of the `i`-th argument term:
   * `v` substituted by the functor applied to it.
   */
  lemma RowAt(functor: T.Den, v: T.Den, d2: T.Den, dens1: seq<T.Den>, k: nat, sv: nat, i: nat) returns (s: nat)
    requires k <= i < |dens1| && BuiltRow(functor, v, d2, dens1, k, sv).Ok?
    ensures RowTerm(functor, v, d2, dens1[i], s).Ok?
    ensures RowTerm(functor, v, d2, dens1[i], s).value.0 == BuiltRow(functor, v, d2, dens1, k, sv).value.0[i - k]
  {
    s := MappedAt((d, s) => RowTerm(functor, v, d2, d, s), dens1, k, sv, i);
  }

  // ---------------------------------------------------------------------------------
  // Each loop adds what it builds.

  /** Adding `[x] + rest`: adding `x`, then `rest`. */
  lemma AddAllCons(cfg: Config, x: T.Den, rest: seq<T.Den>, acc: seq<T.Den>)
    ensures var a := AddDenotation(cfg, acc, x);
            AddAll(cfg, [x] + rest, 0, acc) == if a.Err? then Err(a.error) else AddAll(cfg, rest, 0, a.value)
  {
    var b := [x] + rest;
    assert b[0] == x && b[1..] == rest;
    var a := AddDenotation(cfg, acc, x);
    if a.Ok? {
      AddAllSame(cfg, b, 1, rest, 0, a.value);
    }
  }

  /** The right rules' loop is `AddAll` of `BuiltLambdas`, failing exactly when either does. */
  lemma {:induction false} LambdasAddAll(cfg: Config, v: T.Den, dens: seq<T.Den>, k: nat, acc: seq<T.Den>, sv: nat)
    requires k <= |dens|
    ensures var b := BuiltLambdas(v, dens, k, sv);
            var l := AddLambdas(cfg, v, dens, k, acc, sv);
            (l.Ok? <==> b.Ok? && AddAll(cfg, b.value.0, 0, acc).Ok?)
            && (l.Ok? ==> l.value == (AddAll(cfg, b.value.0, 0, acc).value, b.value.1))
    decreases |dens| - k
  {
    if k < |dens| {
      var d := LambdaTerm(v, dens[k], sv);
      if d.Ok? {
        var a := AddDenotation(cfg, acc, d.value.0);
        var rest := BuiltLambdas(v, dens, k + 1, d.value.1);
        if rest.Ok? {
          AddAllCons(cfg, d.value.0, rest.value.0, acc);
        }
        if a.Ok? {
          LambdasAddAll(cfg, v, dens, k + 1, a.value, d.value.1);
        }
      }
    }
  }

  /** One row of the left rules' loop is `AddAll` of `BuiltRow`, failing exactly when either does. */
  lemma {:induction false} RowAddAll(cfg: Config, functor: T.Den, v: T.Den, d2: T.Den, dens1: seq<T.Den>,
                                     k: nat, acc: seq<T.Den>, sv: nat)
    requires k <= |dens1|
    ensures var b := BuiltRow(functor, v, d2, dens1, k, sv);
            var l := AddRow(cfg, functor, v, d2, dens1, k, acc, sv);
            (l.Ok? <==> b.Ok? && AddAll(cfg, b.value.0, 0, acc).Ok?)
            && (l.Ok? ==> l.value == (AddAll(cfg, b.value.0, 0, acc).value, b.value.1))
    decreases |dens1| - k
  {
    if k < |dens1| {
      var t := RowTerm(functor, v, d2, dens1[k], sv);
      if t.Ok? {
        var a := AddDenotation(cfg, acc, t.value.0);
        var rest := BuiltRow(functor, v, d2, dens1, k + 1, t.value.1);
        if rest.Ok? {
          AddAllCons(cfg, t.value.0, rest.value.0, acc);
        }
        if a.Ok? {
          RowAddAll(cfg, functor, v, d2, dens1, k + 1, a.value, t.value.1);
        }
      }
    }
  }

  /** The left rules' loop is `AddAll` of `BuiltPairs`, failing exactly when either does. */
  lemma {:induction false} PairsAddAll(cfg: Config, functor: T.Den, v: T.Den, dens2: seq<T.Den>,
                                       dens1: seq<T.Den>, k: nat, acc: seq<T.Den>, sv: nat)
    requires k <= |dens2|
    ensures var b := BuiltPairs(functor, v, dens2, dens1, k, sv);
            var l := AddPairs(cfg, functor, v, dens2, dens1, k, acc, sv);
            (l.Ok? <==> b.Ok? && AddAll(cfg, b.value.0, 0, acc).Ok?)
            && (l.Ok? ==> l.value == (AddAll(cfg, b.value.0, 0, acc).value, b.value.1))
    decreases |dens2| - k
  {
    if k < |dens2| {
      RowAddAll(cfg, functor, v, dens2[k], dens1, 0, acc, sv);
      var row := BuiltRow(functor, v, dens2[k], dens1, 0, sv);
      if row.Ok? {
        var m := AddAll(cfg, row.value.0, 0, acc);
        var rest := BuiltPairs(functor, v, dens2, dens1, k + 1, row.value.1);
        if rest.Ok? {
          AddAllAppend(cfg, row.value.0, rest.value.0, 0, acc);
        }
        if m.Ok? {
          PairsAddAll(cfg, functor, v, dens2, dens1, k + 1, m.value, row.value.1);
        }
      }
    }
  }

  /** The terms the right rules add are the lambdas `BuiltLambdas` lists. */
  lemma LambdasAdded(cfg: Config, v: T.Den, dens: seq<T.Den>, acc: seq<T.Den>, sv: nat, r: seq<T.Den>, sv': nat)
    requires AddLambdas(cfg, v, dens, 0, acc, sv) == Ok((r, sv'))
    ensures BuiltLambdas(v, dens, 0, sv).Ok?
    ensures var b := BuiltLambdas(v, dens, 0, sv).value;
            b.1 == sv' && Collected(cfg, acc, b.0, r)
  {
    LambdasAddAll(cfg, v, dens, 0, acc, sv);
    AddAllCollects(cfg, BuiltLambdas(v, dens, 0, sv).value.0, acc, r);
  }

  /** The terms the left rules add are the pairs `BuiltPairs` lists. */
  lemma PairsAdded(cfg: Config, functor: T.Den, v: T.Den, dens2: seq<T.Den>, dens1: seq<T.Den>,
                   acc: seq<T.Den>, sv: nat, r: seq<T.Den>, sv': nat)
    requires AddPairs(cfg, functor, v, dens2, dens1, 0, acc, sv) == Ok((r, sv'))
    ensures BuiltPairs(functor, v, dens2, dens1, 0, sv).Ok?
    ensures var b := BuiltPairs(functor, v, dens2, dens1, 0, sv).value;
            b.1 == sv' && Collected(cfg, acc, b.0, r)
  {
    PairsAddAll(cfg, functor, v, dens2, dens1, 0, acc, sv);
    AddAllCollects(cfg, BuiltPairs(functor, v, dens2, dens1, 0, sv).value.0, acc, r);
  }

  // ---------------------------------------------------------------------------------
  // The terms of each step.

  /**
   * When the right rule's child succeeds, the node's terms become the old ones with the
   * lambdas over the fresh variable of each of the child's terms collected onto them.
   */
  lemma RightRuleTerms(cfg: Config, cs: seq<Constituent>, goal: C.SynType, q: nat, cd: nat, fuel: nat,
                       w: Work, r: Work)
    requires goal.Func? && WorkInv(cfg, cs, goal, q, cd, w)
    requires RightRule(cfg, cs, goal, q, cd, fuel, w) == Ok(r)
    ensures Appended(w, r, RightAlt) && Shape(cfg, cs, goal, q, cd, r.tried[|w.tried|])
    ensures var a := r.tried[|w.tried|];
            var n := a.children[0];
            var v := n.constituents[if goal.slash == B.LeftSlash then 0 else |cs|];
            Succeeded(a) ==>
              exists sv: nat :: BuiltLambdas(v.denotation, n.denotations, 0, sv).Ok?
                                && Collected(cfg, w.denotations, BuiltLambdas(v.denotation, n.denotations, 0, sv).value.0,
                                             r.denotations)
  {
    RightRuleLog(cfg, cs, goal, q, cd, fuel, w, r);
    var a := r.tried[|w.tried|];
    if Succeeded(a) {
      var n := a.children[0];
      var v := n.constituents[if goal.slash == B.LeftSlash then 0 else |cs|];
      var sv: nat :| AddLambdas(cfg, v.denotation, n.denotations, 0, w.denotations, sv) == Ok((r.denotations, r.ctr.sv));
      LambdasAdded(cfg, v.denotation, n.denotations, w.denotations, sv, r.denotations, r.ctr.sv);
    }
  }

  /**
   * When both children of a left rule succeed, the node's terms become the old ones
   * with the pair terms of the continuation's and the argument's terms collected onto them.
   */
  lemma LeftStepTerms(cfg: Config, cs: seq<Constituent>, goal: C.SynType, q: nat, cd: nat, fuel: nat,
                      alt: Alt, rule: Rule, span: seq<Constituent>, argtype: C.SynType,
                      before: seq<Constituent>, restype: C.SynType, after: seq<Constituent>,
                      functor: T.Den, w: Work, r: Work)
    requires rule == BackslashL || rule == SlashL
    requires Weight(span) + argtype.Size() < Weight(cs) + goal.Size()
    requires Weight(before) + restype.Size() + Weight(after) < Weight(cs)
    requires |span| + |before| + 1 + |after| == |cs|
    requires WorkInv(cfg, cs, goal, q, cd, w) && alt.LeftAlt?
    requires LeftStep(cfg, cs, goal, q, cd, fuel, alt, rule, span, argtype, before, restype, after, functor, w) == Ok(r)
    ensures Appended(w, r, alt)
    ensures LeftShape(cfg, goal, q, cd, rule, span, argtype, before, restype, after, r.tried[|w.tried|].children)
    ensures var a := r.tried[|w.tried|];
            Succeeded(a) ==>
              var n := a.children[1];
              var v := n.constituents[|before|].denotation;
              exists sv: nat :: BuiltPairs(functor, v, n.denotations, a.children[0].denotations, 0, sv).Ok?
                                && Collected(cfg, w.denotations,
                                             BuiltPairs(functor, v, n.denotations, a.children[0].denotations, 0, sv).value.0,
                                             r.denotations)
  {
    LeftStepLog(cfg, cs, goal, q, cd, fuel, alt, rule, span, argtype, before, restype, after, functor, w, r);
    var a := r.tried[|w.tried|];
    if Succeeded(a) {
      var n := a.children[1];
      var v := n.constituents[|before|].denotation;
      var sv: nat :| AddPairs(cfg, functor, v, n.denotations, a.children[0].denotations, 0, w.denotations, sv)
                     == Ok((r.denotations, r.ctr.sv));
      PairsAdded(cfg, functor, v, n.denotations, a.children[0].denotations, w.denotations, sv,
                 r.denotations, r.ctr.sv);
    }
  }

  /** When the `ABS out` child succeeds, its terms are collected onto the node's. */
  lemma QrStepTerms(cfg: Config, cs: seq<Constituent>, goal: C.SynType, q: nat, cd: nat,
                    fuel: nat, counter: nat, w: Work, r: Work)
    requires q < cfg.qrlimit && counter < |cs| && WorkInv(cfg, cs, goal, q, cd, w)
    requires QrStep(cfg, cs, goal, q, cd, fuel, counter, w) == Ok(r)
    ensures Appended(w, r, QrAlt(counter)) && Shape(cfg, cs, goal, q, cd, r.tried[|w.tried|])
    ensures var a := r.tried[|w.tried|];
            Succeeded(a) ==> Collected(cfg, w.denotations, a.children[0].denotations, r.denotations)
  {
    QrStepLog(cfg, cs, goal, q, cd, fuel, counter, w, r);
    var a := r.tried[|w.tried|];
    if Succeeded(a) {
      AddAllCollects(cfg, a.children[0].denotations, w.denotations, r.denotations);
    }
  }

  /** When the `ABS in` child succeeds, its terms are collected onto the node's. */
  lemma AbsInStepTerms(cfg: Config, cs: seq<Constituent>, goal: C.SynType, q: nat, cd: nat,
                       fuel: nat, counter: nat, w: Work, r: Work)
    requires cd == 0 && |cs| > 2 && 0 < counter < |cs| && cs[counter].syntactictype.gap.LambdaGap?
    requires WorkInv(cfg, cs, goal, q, cd, w)
    requires AbsInStep(cfg, cs, goal, q, cd, fuel, counter, w) == Ok(r)
    ensures Appended(w, r, AbsInAlt(counter)) && Shape(cfg, cs, goal, q, cd, r.tried[|w.tried|])
    ensures var a := r.tried[|w.tried|];
            Succeeded(a) ==> Collected(cfg, w.denotations, a.children[0].denotations, r.denotations)
  {
    AbsInStepLog(cfg, cs, goal, q, cd, fuel, counter, w, r);
    var a := r.tried[|w.tried|];
    if Succeeded(a) {
      AddAllCollects(cfg, a.children[0].denotations, w.denotations, r.denotations);
    }
  }
}
