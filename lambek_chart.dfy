/**
 * The lexicon and the chart of the bottom-up Lambek parser (tlg_parser.py).  The chart
 * reads the sentence word by word; each word's constituent goes on an agenda, and every
 * constituent taken off the agenda is added to the chart and combined with each
 * constituent that ends where it starts.  The model proves that this terminates, that
 * at the end the chart is closed under the elimination rules and holds nothing else
 * than the words and their combinations, and which exceptions it can raise.
 */
module LambekChart {
  import opened Outcomes
  import opened PyStr
  import opened Lambek

  // ---------------------------------------------------------------------------------
  // The lexicon.

  /** `Lexicon`: a category and a term for every word. */
  datatype LLexicon = LLexicon(entrytypes: map<string, LType>, entrydenotations: map<string, LDen>)

  /** What every lexicon the constructor builds satisfies. */
  predicate LexInv(lex: LLexicon) {
    lex.entrytypes.Keys == lex.entrydenotations.Keys
    && forall w :: w in lex.entrytypes ==> Good(lex.entrytypes[w], lex.entrydenotations[w])
  }

  /** A parsed category with a well-formed term of its semantic type. */
  predicate Good(t: LType, d: LDen) {
    Canon(t) && Formed(d) && Semantictype(t) == Ok(d.semantictype)
  }

  /**
   * One line `name : category - term`: the name is the stripped text before the first
   * `:`, the category the text between it and the first `-`, the term the stripped
   * rest, typed by the category's semantic type.  A line without `:` or `-` is a
   * ValueError.
   */
  function Entry(entry: string): (r: Result<(string, LType, LDen)>)
    ensures ':' !in entry || '-' !in entry ==> r == Err(ValueError)
    ensures r.Ok? ==> ':' in entry && '-' in entry
  {
    match IndexOf(entry, ':')
    case None => Err(ValueError)
    case Some(colon) =>
      match IndexOf(entry, '-')
      case None => Err(ValueError)
      case Some(dash) => EntryAt(entry, colon, dash)
  }

  /** The entry of a line whose first `:` and first `-` are at `colon` and `dash`. */
  function EntryAt(entry: string, colon: nat, dash: nat): (r: Result<(string, LType, LDen)>)
    requires colon < |entry| && dash < |entry|
    ensures r.Ok? ==>
      r.value.0 == Strip(entry[..colon])
      && ParseLType(PySlice(entry, colon + 1, dash)) == Ok(r.value.1)
      && r.value.2.text == Strip(entry[dash + 1..])
    ensures r.Ok? ==> Canon(r.value.1) && Formed(r.value.2)
                      && Semantictype(r.value.1) == Ok(r.value.2.semantictype)
  {
    var t :- ParseLType(PySlice(entry, colon + 1, dash));
    var st :- Semantictype(t);
    var d :- NewLDen(st, Strip(entry[dash + 1..]));
    Ok((Strip(entry[..colon]), t, d))
  }

  /** The entry of a line is the one its first `:` and first `-` delimit. */
  lemma EntryParts(entry: string)
    requires Entry(entry).Ok?
    ensures Entry(entry) == EntryAt(entry, IndexOf(entry, ':').value, IndexOf(entry, '-').value)
  {
  }

  /** The constructor's loop from line `k` on, a later line for a name overriding an earlier one. */
  function EntriesFrom(entries: seq<string>, k: nat, lex: LLexicon): (r: Result<LLexicon>)
    requires k <= |entries|
    ensures r.Ok? ==> forall i :: k <= i < |entries| ==> Entry(entries[i]).Ok?
    decreases |entries| - k
  {
    if k == |entries| then Ok(lex)
    else
      var e :- Entry(entries[k]);
      var r := EntriesFrom(entries, k + 1, Define(lex, e));
      assert Entry(entries[k]) == Ok(e);
      r
  }

  /** One line's name bound to its category and term. */
  function Define(lex: LLexicon, e: (string, LType, LDen)): LLexicon {
    LLexicon(lex.entrytypes[e.0 := e.1], lex.entrydenotations[e.0 := e.2])
  }

  lemma UpdateKeys<K, V>(m: map<K, V>, k: K, v: V)
    ensures m[k := v].Keys == m.Keys + {k}
  {
  }

  lemma DefinePreserves(lex: LLexicon, e: (string, LType, LDen))
    requires LexInv(lex) && Good(e.1, e.2)
    ensures LexInv(Define(lex, e))
  {
    var next := Define(lex, e);
    UpdateKeys(lex.entrytypes, e.0, e.1);
    UpdateKeys(lex.entrydenotations, e.0, e.2);
    forall w | w in next.entrytypes ensures Good(next.entrytypes[w], next.entrydenotations[w]) {
      if w == e.0 {
        assert next.entrytypes[w] == e.1 && next.entrydenotations[w] == e.2;
      } else {
        assert next.entrytypes[w] == lex.entrytypes[w] && next.entrydenotations[w] == lex.entrydenotations[w];
      }
    }
  }

  /** `Lexicon(lexiconstring)`: every line of the text is an entry. */
  function ParseLexicon(s: string): (r: Result<LLexicon>)
    ensures r.Ok? ==> forall i :: 0 <= i < |Split(s, '\n')| ==> Entry(Split(s, '\n')[i]).Ok?
  {
    EntriesFrom(Split(s, '\n'), 0, LLexicon(map[], map[]))
  }

  /** Every lexicon the constructor builds keeps categories and terms in step. */
  lemma {:induction false} EntriesFromInv(entries: seq<string>, k: nat, lex: LLexicon)
    requires k <= |entries| && EntriesFrom(entries, k, lex).Ok? && LexInv(lex)
    ensures LexInv(EntriesFrom(entries, k, lex).value)
    decreases |entries| - k
  {
    if k < |entries| {
      var e := Entry(entries[k]).value;
      EntryParts(entries[k]);
      DefinePreserves(lex, e);
      EntriesFromInv(entries, k + 1, Define(lex, e));
    }
  }

  lemma ParseLexiconInv(s: string)
    requires ParseLexicon(s).Ok?
    ensures LexInv(ParseLexicon(s).value)
  {
    EntriesFromInv(Split(s, '\n'), 0, LLexicon(map[], map[]));
  }

  /** A name that no line from `k` on defines keeps what it had. */
  lemma {:induction false} EntriesFromKeeps(entries: seq<string>, k: nat, lex: LLexicon, w: string)
    requires k <= |entries| && EntriesFrom(entries, k, lex).Ok?
    requires forall i :: k <= i < |entries| ==> Entry(entries[i]).value.0 != w
    ensures (w in EntriesFrom(entries, k, lex).value.entrytypes <==> w in lex.entrytypes)
    ensures (w in EntriesFrom(entries, k, lex).value.entrydenotations <==> w in lex.entrydenotations)
    ensures w in lex.entrytypes ==> EntriesFrom(entries, k, lex).value.entrytypes[w] == lex.entrytypes[w]
    ensures w in lex.entrydenotations ==>
      EntriesFrom(entries, k, lex).value.entrydenotations[w] == lex.entrydenotations[w]
    decreases |entries| - k
  {
    if k < |entries| {
      var e := Entry(entries[k]).value;
      assert EntriesFrom(entries, k, lex) == EntriesFrom(entries, k + 1, Define(lex, e));
      EntriesFromKeeps(entries, k + 1, Define(lex, e), w);
    }
  }

  /** The last line that defines a name gives its category and term. */
  lemma {:induction false} EntriesFromLast(entries: seq<string>, k: nat, lex: LLexicon, i: nat)
    requires k <= i < |entries| && EntriesFrom(entries, k, lex).Ok?
    requires forall j :: i < j < |entries| ==> Entry(entries[j]).value.0 != Entry(entries[i]).value.0
    ensures var e, r := Entry(entries[i]).value, EntriesFrom(entries, k, lex).value;
            e.0 in r.entrytypes && r.entrytypes[e.0] == e.1
            && e.0 in r.entrydenotations && r.entrydenotations[e.0] == e.2
    decreases i - k
  {
    var e := Entry(entries[k]).value;
    var next := Define(lex, e);
    if k == i {
      EntriesFromKeeps(entries, k + 1, next, e.0);
    } else {
      EntriesFromLast(entries, k + 1, next, i);
    }
  }

  /** The constructor's loop over the lines. */
  method NewLexicon(s: string) returns (r: Result<LLexicon>)
    ensures r == ParseLexicon(s)
  {
    var entries := Split(s, '\n');
    var entrytypes: map<string, LType> := map[];
    var entrydenotations: map<string, LDen> := map[];
    for k := 0 to |entries|
      invariant ParseLexicon(s) == EntriesFrom(entries, k, LLexicon(entrytypes, entrydenotations))
    {
      var e :- Entry(entries[k]);
      entrytypes := entrytypes[e.0 := e.1];
      entrydenotations := entrydenotations[e.0 := e.2];
    }
    return Ok(LLexicon(entrytypes, entrydenotations));
  }

  // ---------------------------------------------------------------------------------
  // Combining constituents.

  /**
   * What `addconstituent` puts on the agenda for `arc` and the new constituent `c`:
   * nothing unless `arc` ends where `c` starts and an elimination rule applies, else
   * the combination spanning both, with the two as its subconstituents.
   */
  function Combine(arc: LConstituent, c: LConstituent): (r: Result<Option<LConstituent>>)
    ensures arc.end != c.start ==> r == Ok(None)
    ensures r.Ok? && r.value.Some? ==>
      arc.end == c.start && r.value.value.start == arc.start && r.value.value.end == c.end
      && r.value.value.length == c.end - arc.start && r.value.value.subconstituents == [arc, c]
  {
    if arc.end != c.start then Ok(None)
    else
      var e :- Elimination(arc, c);
      match e
      case None => Ok(None)
      case Some((t, d)) =>
        var x :- NewLConstituent(t, d, arc.start, Some(c.end), [arc, c]);
        Ok(Some(x))
  }

  /**
   * Combining typed constituents raises only for a satiated functor or a result term
   * with an `L` and no `.`, and what it builds is typed.
   */
  lemma CombineTyped(arc: LConstituent, c: LConstituent)
    requires Typed(arc) && Typed(c)
    ensures Combine(arc, c).Err? ==> Combine(arc, c).error == AttributeError || Combine(arc, c).error == ValueError
    ensures Combine(arc, c).Ok? && Combine(arc, c).value.Some? ==> Typed(Combine(arc, c).value.value)
  {
    EliminationTyped(arc, c);
  }

  /**
   * The loop of `addconstituent` from the `k`-th constituent of `cs` on: each
   * combination with `c` is appended to the agenda `ag`, in the order of `cs`.
   */
  function CombosFrom(cs: seq<LConstituent>, c: LConstituent, k: nat, ag: seq<LConstituent>)
    : (r: Result<seq<LConstituent>>)
    requires k <= |cs|
    ensures r.Ok? ==> |ag| <= |r.value| && r.value[..|ag|] == ag
    decreases |cs| - k
  {
    if k == |cs| then Ok(ag)
    else
      var x :- Combine(cs[k], c);
      var next := if x.Some? then ag + [x.value] else ag;
      var r := CombosFrom(cs, c, k + 1, next);
      if r.Ok? then
        assert r.value[..|ag|] == r.value[..|next|][..|ag|];
        r
      else r
  }

  /** The agenda grows only if every constituent from `k` on combined with `c` without raising. */
  lemma {:induction false} CombosFromOk(cs: seq<LConstituent>, c: LConstituent, k: nat, ag: seq<LConstituent>, i: nat)
    requires k <= i < |cs| && CombosFrom(cs, c, k, ag).Ok?
    ensures Combine(cs[i], c).Ok?
    decreases |cs| - k
  {
    if k < i {
      var x := Combine(cs[k], c).value;
      CombosFromOk(cs, c, k + 1, if x.Some? then ag + [x.value] else ag, i);
    }
  }

  /** Every combination of a constituent from `k` on with `c` is on the new agenda. */
  lemma {:induction false} CombosFromHas(cs: seq<LConstituent>, c: LConstituent, k: nat, ag: seq<LConstituent>, i: nat)
    requires k <= i < |cs| && CombosFrom(cs, c, k, ag).Ok?
    requires Combine(cs[i], c).Ok? && Combine(cs[i], c).value.Some?
    ensures Combine(cs[i], c).value.value in CombosFrom(cs, c, k, ag).value
    decreases |cs| - k
  {
    var x := Combine(cs[k], c).value;
    var next := if x.Some? then ag + [x.value] else ag;
    var r := CombosFrom(cs, c, k + 1, next).value;
    if i == k {
      assert r[..|next|] == next && next[|ag|] == x.value;
      assert r[|ag|] == x.value;
    } else {
      CombosFromHas(cs, c, k + 1, next, i);
    }
  }

  /** Everything the loop appends is the combination of some constituent from `k` on with `c`. */
  lemma {:induction false} CombosFromOnly(cs: seq<LConstituent>, c: LConstituent, k: nat, ag: seq<LConstituent>, m: nat)
    requires k <= |cs| && CombosFrom(cs, c, k, ag).Ok?
    requires |ag| <= m < |CombosFrom(cs, c, k, ag).value|
    ensures exists i :: k <= i < |cs| && Combine(cs[i], c) == Ok(Some(CombosFrom(cs, c, k, ag).value[m]))
    decreases |cs| - k
  {
    var x := Combine(cs[k], c).value;
    var next := if x.Some? then ag + [x.value] else ag;
    var r := CombosFrom(cs, c, k + 1, next).value;
    if m < |next| {
      assert r[..|next|] == next;
      assert r[m] == next[m] == x.value;
    } else {
      CombosFromOnly(cs, c, k + 1, next, m);
    }
  }

  /** The exception the loop raises is that of one combination. */
  lemma {:induction false} CombosFromErr(cs: seq<LConstituent>, c: LConstituent, k: nat, ag: seq<LConstituent>)
    requires k <= |cs| && CombosFrom(cs, c, k, ag).Err?
    ensures exists i :: k <= i < |cs| && Combine(cs[i], c) == Err(CombosFrom(cs, c, k, ag).error)
    decreases |cs| - k
  {
    if Combine(cs[k], c).Ok? {
      var x := Combine(cs[k], c).value;
      CombosFromErr(cs, c, k + 1, if x.Some? then ag + [x.value] else ag);
    }
  }

  /** At most one combination for each of the first `n0` constituents; none for the rest. */
  lemma {:induction false} CombosFromCount(cs: seq<LConstituent>, c: LConstituent, k: nat, ag: seq<LConstituent>, n0: nat)
    requires k <= |cs| && CombosFrom(cs, c, k, ag).Ok?
    requires forall i :: n0 <= i < |cs| ==> cs[i].end != c.start
    ensures |CombosFrom(cs, c, k, ag).value| <= |ag| + (if k <= n0 then n0 - k else 0)
    decreases |cs| - k
  {
    if k < |cs| {
      var x := Combine(cs[k], c).value;
      CombosFromCount(cs, c, k + 1, if x.Some? then ag + [x.value] else ag, n0);
    }
  }

  // ---------------------------------------------------------------------------------
  // The measure that the agenda loop decreases.

  function Pow(b: nat, e: nat): (r: nat)
    ensures b >= 1 ==> r >= 1
  {
    if e == 0 then 1 else b * Pow(b, e - 1)
  }

  lemma {:induction false} PowMono(b: nat, e1: nat, e2: nat)
    requires b >= 1 && e1 <= e2
    ensures Pow(b, e1) <= Pow(b, e2)
    decreases e2
  {
    if e1 < e2 {
      PowMono(b, e1, e2 - 1);
      assert Pow(b, e2 - 1) <= b * Pow(b, e2 - 1);
    }
  }

  /** The sum of `b` to the power of each agenda item's start. */
  function Measure(ag: seq<LConstituent>, b: nat): nat {
    if |ag| == 0 then 0 else Pow(b, ag[0].start) + Measure(ag[1..], b)
  }

  lemma {:induction false} MeasureAppend(a: seq<LConstituent>, c: seq<LConstituent>, b: nat)
    ensures Measure(a + c, b) == Measure(a, b) + Measure(c, b)
    decreases |a|
  {
    if |a| == 0 {
      assert a + c == c;
    } else {
      assert (a + c)[1..] == a[1..] + c;
      MeasureAppend(a[1..], c, b);
    }
  }

  lemma {:induction false} MeasureBound(ch: seq<LConstituent>, e: nat, b: nat)
    requires b >= 1 && forall x :: x in ch ==> x.start <= e
    ensures Measure(ch, b) <= |ch| * Pow(b, e)
    decreases |ch|
  {
    if |ch| > 0 {
      var p := Pow(b, e);
      assert ch[0] in ch;
      PowMono(b, ch[0].start, e);
      assert forall x :: x in ch[1..] ==> x in ch;
      MeasureBound(ch[1..], e, b);
      assert Measure(ch, b) == Pow(b, ch[0].start) + Measure(ch[1..], b);
      assert (|ch| - 1) * p + p == |ch| * p;
    }
  }

  /** Fewer than `b` items, all starting before `s`, weigh less than one item starting at `s`. */
  lemma MeasureBelow(ch: seq<LConstituent>, s: nat, b: nat)
    requires b >= 1 && |ch| < b && forall x :: x in ch ==> x.start < s
    ensures Measure(ch, b) < Pow(b, s)
  {
    if |ch| > 0 {
      assert ch[0] in ch;
      var p := Pow(b, s - 1);
      MeasureBound(ch, s - 1, b);
      MulMono(|ch|, b - 1, p);
      assert Pow(b, s) == b * p == (b - 1) * p + p;
    }
  }

  lemma MulMono(x: nat, y: nat, z: nat)
    requires x <= y
    ensures x * z <= y * z
  {
  }

  // ---------------------------------------------------------------------------------
  // The chart's invariants.

  /** `interpretword` at `k`: the word's category and term from the lexicon, spanning one word. */
  function WordItem(lex: LLexicon, words: seq<string>, k: nat): (r: Result<LConstituent>)
    requires k < |words|
    ensures words[k] !in lex.entrytypes || words[k] !in lex.entrydenotations ==> r == Err(TypeError)
    ensures r.Ok? ==> r.value.start == k && r.value.end == k + 1 && r.value.length == 1
                      && r.value.subconstituents == []
                      && r.value.syntactictype == lex.entrytypes[words[k]]
                      && r.value.denotation == lex.entrydenotations[words[k]]
  {
    var w := words[k];
    if w !in lex.entrytypes || w !in lex.entrydenotations then Err(TypeError)
    else NewLConstituent(lex.entrytypes[w], lex.entrydenotations[w], k, None, [])
  }

  /** With a lexicon the constructor built, a word is read exactly when the lexicon has it, and typed. */
  lemma WordItemTyped(lex: LLexicon, words: seq<string>, k: nat)
    requires k < |words| && LexInv(lex)
    ensures WordItem(lex, words, k).Ok? <==> words[k] in lex.entrytypes
    ensures WordItem(lex, words, k).Ok? ==> Typed(WordItem(lex, words, k).value)
  {
  }

  /** `x` spans the words from `x.start` to `x.end`, ending by `last`. */
  predicate Spans(x: LConstituent, last: nat) {
    x.start < x.end <= last && x.length == x.end - x.start
  }

  /** `x` is a word of the sentence or the combination of two constituents of `cs`. */
  predicate Derived(lex: LLexicon, words: seq<string>, cs: seq<LConstituent>, x: LConstituent) {
    (x.start < |words| && WordItem(lex, words, x.start) == Ok(x))
    || (|x.subconstituents| == 2 && x.subconstituents[0] in cs && x.subconstituents[1] in cs
        && Combine(x.subconstituents[0], x.subconstituents[1]) == Ok(Some(x)))
  }

  /** Everything in `s` is derived from `cs`, and typed when the lexicon is. */
  predicate AllDerived(lex: LLexicon, words: seq<string>, cs: seq<LConstituent>, s: seq<LConstituent>) {
    forall x :: x in s ==> Derived(lex, words, cs, x) && (LexInv(lex) ==> Typed(x))
  }

  /** Every two constituents of `cs` combine without raising, into a member of `cs + ag`. */
  predicate Closed(cs: seq<LConstituent>, ag: seq<LConstituent>) {
    forall i, j :: 0 <= i < |cs| && 0 <= j < |cs| ==>
      Combine(cs[i], cs[j]).Ok?
      && (Combine(cs[i], cs[j]).value.Some? ==> Combine(cs[i], cs[j]).value.value in cs + ag)
  }

  /** The first `p` words' constituents are in `s`. */
  predicate WordsIn(lex: LLexicon, words: seq<string>, p: nat, s: seq<LConstituent>)
    requires p <= |words|
  {
    forall k :: 0 <= k < p ==> WordItem(lex, words, k).Ok? && WordItem(lex, words, k).value in s
  }

  /** The chart before word `p` is read, with an empty agenda. */
  predicate Between(lex: LLexicon, words: seq<string>, p: nat, cs: seq<LConstituent>) {
    p <= |words|
    && (forall i :: 0 <= i < |cs| ==> Spans(cs[i], p))
    && AllDerived(lex, words, cs, cs) && Closed(cs, []) && WordsIn(lex, words, p, cs)
  }

  /**
   * The chart while word `p` is being read: the first `n0` constituents end by `p`,
   * the later ones and the agenda's at `p + 1`.
   */
  predicate Within(lex: LLexicon, words: seq<string>, p: nat, n0: nat, cs: seq<LConstituent>,
                   ag: seq<LConstituent>) {
    p < |words| && n0 <= |cs|
    && (forall i :: 0 <= i < n0 ==> Spans(cs[i], p))
    && (forall i :: n0 <= i < |cs| ==> Spans(cs[i], p + 1) && cs[i].end == p + 1)
    && (forall x :: x in ag ==> Spans(x, p + 1) && x.end == p + 1)
    && AllDerived(lex, words, cs, cs) && AllDerived(lex, words, cs, ag)
    && Closed(cs, ag) && WordsIn(lex, words, p + 1, cs + ag)
  }

  /** Reading word `p` puts its constituent on the empty agenda. */
  lemma EnterPosition(lex: LLexicon, words: seq<string>, p: nat, cs: seq<LConstituent>, w: LConstituent)
    requires Between(lex, words, p, cs) && p < |words| && WordItem(lex, words, p) == Ok(w)
    ensures Within(lex, words, p, |cs|, cs, [w])
  {
    if LexInv(lex) {
      WordItemTyped(lex, words, p);
    }
    assert Derived(lex, words, cs, w);
    assert AllDerived(lex, words, cs, [w]);
    forall i, j | 0 <= i < |cs| && 0 <= j < |cs|
      ensures Combine(cs[i], cs[j]).Ok?
              && (Combine(cs[i], cs[j]).value.Some? ==> Combine(cs[i], cs[j]).value.value in cs + [w])
    {
      assert cs + [] == cs;
    }
    forall k | 0 <= k < p + 1
      ensures WordItem(lex, words, k).Ok? && WordItem(lex, words, k).value in cs + [w]
    {
      if k < p {
        assert WordItem(lex, words, k).value in cs;
      }
    }
  }

  /** An empty agenda ends word `p`. */
  lemma LeavePosition(lex: LLexicon, words: seq<string>, p: nat, n0: nat, cs: seq<LConstituent>)
    requires Within(lex, words, p, n0, cs, [])
    ensures Between(lex, words, p + 1, cs)
  {
    assert cs + [] == cs;
    forall i | 0 <= i < |cs| ensures Spans(cs[i], p + 1) {
      if i < n0 {
        assert Spans(cs[i], p);
      }
    }
  }

  lemma DerivedMono(lex: LLexicon, words: seq<string>, cs: seq<LConstituent>, cs2: seq<LConstituent>,
                    x: LConstituent)
    requires Derived(lex, words, cs, x) && forall y :: y in cs ==> y in cs2
    ensures Derived(lex, words, cs2, x)
  {
  }

  /** Taking `ag[0]` off the agenda keeps everything of `cs + ag2` in the new chart or agenda. */
  lemma StepKeeps(cs: seq<LConstituent>, ag: seq<LConstituent>, ag2: seq<LConstituent>)
    requires |ag| > 0 && |ag| <= |ag2| && ag2[..|ag|] == ag
    ensures forall y :: y in cs + ag2 ==> y in (cs + [ag[0]]) + ag2[1..]
    ensures forall y :: y in cs + ag ==> y in (cs + [ag[0]]) + ag2[1..]
  {
    assert ag2[0] == ag[0];
    assert ag2 == [ag[0]] + ag2[1..];
    forall y | y in ag ensures y in ag2 {
      var m :| 0 <= m < |ag| && ag[m] == y;
      assert ag2[m] == y;
    }
  }

  /** A new agenda item is a combination of a chart constituent with `ag[0]`, and is typed. */
  lemma StepChild(lex: LLexicon, words: seq<string>, p: nat, n0: nat, cs: seq<LConstituent>,
                  ag: seq<LConstituent>, m: nat)
    requires Within(lex, words, p, n0, cs, ag) && |ag| > 0
    requires CombosFrom(cs + [ag[0]], ag[0], 0, ag).Ok?
    requires |ag| <= m < |CombosFrom(cs + [ag[0]], ag[0], 0, ag).value|
    ensures var x, c := CombosFrom(cs + [ag[0]], ag[0], 0, ag).value[m], ag[0];
            Spans(x, p + 1) && x.end == p + 1 && x.start < c.start
            && Derived(lex, words, cs + [c], x) && (LexInv(lex) ==> Typed(x))
  {
    var c := ag[0];
    var cs2 := cs + [c];
    var x := CombosFrom(cs2, c, 0, ag).value[m];
    assert c in ag;
    CombosFromOnly(cs2, c, 0, ag, m);
    var i :| 0 <= i < |cs2| && Combine(cs2[i], c) == Ok(Some(x));
    var arc := cs2[i];
    assert c.start < c.end;
    assert i < |cs|;
    assert arc in cs;
    assert Spans(arc, p + 1) by {
      if i < n0 { assert Spans(cs[i], p); }
    }
    assert arc in cs2 && c in cs2;
    if LexInv(lex) {
      CombineTyped(arc, c);
    }
  }

  /** Spans of the chart and the agenda after one step. */
  lemma StepSpans(lex: LLexicon, words: seq<string>, p: nat, n0: nat, cs: seq<LConstituent>,
                  ag: seq<LConstituent>, ag2: seq<LConstituent>)
    requires Within(lex, words, p, n0, cs, ag) && |ag| > 0
    requires CombosFrom(cs + [ag[0]], ag[0], 0, ag) == Ok(ag2)
    ensures forall i :: n0 <= i < |cs + [ag[0]]| ==> Spans((cs + [ag[0]])[i], p + 1) && (cs + [ag[0]])[i].end == p + 1
    ensures forall x :: x in ag2[1..] ==> Spans(x, p + 1) && x.end == p + 1
    ensures forall x :: x in ag2[1..] ==> Derived(lex, words, cs + [ag[0]], x) && (LexInv(lex) ==> Typed(x))
  {
    var c := ag[0];
    assert c in ag;
    forall x | x in ag2[1..]
      ensures Spans(x, p + 1) && x.end == p + 1
      ensures Derived(lex, words, cs + [c], x) && (LexInv(lex) ==> Typed(x))
    {
      var m :| 1 <= m < |ag2| && ag2[m] == x;
      if m < |ag| {
        assert x == ag[m] && x in ag;
        DerivedMono(lex, words, cs, cs + [c], x);
      } else {
        StepChild(lex, words, p, n0, cs, ag, m);
      }
    }
  }

  /** Closure after one step. */
  lemma StepClosed(lex: LLexicon, words: seq<string>, p: nat, n0: nat, cs: seq<LConstituent>,
                   ag: seq<LConstituent>, ag2: seq<LConstituent>)
    requires Within(lex, words, p, n0, cs, ag) && |ag| > 0
    requires CombosFrom(cs + [ag[0]], ag[0], 0, ag) == Ok(ag2)
    ensures Closed(cs + [ag[0]], ag2[1..])
  {
    var c := ag[0];
    var cs2 := cs + [c];
    assert c in ag;
    StepKeeps(cs, ag, ag2);
    forall i, j | 0 <= i < |cs2| && 0 <= j < |cs2|
      ensures Combine(cs2[i], cs2[j]).Ok?
      ensures Combine(cs2[i], cs2[j]).value.Some? ==> Combine(cs2[i], cs2[j]).value.value in cs2 + ag2[1..]
    {
      if j == |cs| {
        CombosFromOk(cs2, c, 0, ag, i);
        if Combine(cs2[i], c).value.Some? {
          CombosFromHas(cs2, c, 0, ag, i);
        }
      } else if i == |cs| {
        assert Spans(cs[j], p + 1) by {
          if j < n0 { assert Spans(cs[j], p); }
        }
      } else {
        assert cs2[i] == cs[i] && cs2[j] == cs[j];
      }
    }
  }

  /** One step adds at most `n0` agenda items. */
  lemma StepCount(lex: LLexicon, words: seq<string>, p: nat, n0: nat, cs: seq<LConstituent>,
                  ag: seq<LConstituent>)
    requires Within(lex, words, p, n0, cs, ag) && |ag| > 0
    requires CombosFrom(cs + [ag[0]], ag[0], 0, ag).Ok?
    ensures |CombosFrom(cs + [ag[0]], ag[0], 0, ag).value| <= |ag| + n0
  {
    var c := ag[0];
    var cs2 := cs + [c];
    assert c in ag;
    forall i | n0 <= i < |cs2| ensures cs2[i].end != c.start {
      if i < |cs| { assert cs[i].end == p + 1; }
    }
    CombosFromCount(cs2, c, 0, ag, n0);
  }

  /** The items one step adds start before the constituent it takes off. */
  lemma StepStarts(lex: LLexicon, words: seq<string>, p: nat, n0: nat, cs: seq<LConstituent>,
                   ag: seq<LConstituent>, ag2: seq<LConstituent>)
    requires Within(lex, words, p, n0, cs, ag) && |ag| > 0
    requires CombosFrom(cs + [ag[0]], ag[0], 0, ag) == Ok(ag2)
    ensures forall x :: x in ag2[|ag|..] ==> x.start < ag[0].start
  {
    forall x | x in ag2[|ag|..] ensures x.start < ag[0].start {
      var m :| 0 <= m < |ag2| - |ag| && ag2[|ag|..][m] == x;
      assert ag2[|ag| + m] == x;
      StepChild(lex, words, p, n0, cs, ag, |ag| + m);
    }
  }

  /** The measure falls by one step. */
  lemma StepMeasure(lex: LLexicon, words: seq<string>, p: nat, n0: nat, cs: seq<LConstituent>,
                    ag: seq<LConstituent>, ag2: seq<LConstituent>)
    requires Within(lex, words, p, n0, cs, ag) && |ag| > 0
    requires CombosFrom(cs + [ag[0]], ag[0], 0, ag) == Ok(ag2)
    ensures Measure(ag2[1..], n0 + 1) < Measure(ag, n0 + 1)
  {
    StepCount(lex, words, p, n0, cs, ag);
    StepStarts(lex, words, p, n0, cs, ag, ag2);
    MeasureDrop(ag, ag2, n0);
  }

  /**
   * Taking off the first item and adding at most `n0` items that start before it
   * lowers the measure in base `n0 + 1`.
   */
  lemma MeasureDrop(ag: seq<LConstituent>, ag2: seq<LConstituent>, n0: nat)
    requires |ag| > 0 && |ag| <= |ag2| <= |ag| + n0 && ag2[..|ag|] == ag
    requires forall x :: x in ag2[|ag|..] ==> x.start < ag[0].start
    ensures Measure(ag2[1..], n0 + 1) < Measure(ag, n0 + 1)
  {
    var ch := ag2[|ag|..];
    MeasureBelow(ch, ag[0].start, n0 + 1);
    assert ag2[1..] == ag[1..] + ch;
    MeasureAppend(ag[1..], ch, n0 + 1);
  }

  /** One step of the agenda loop keeps the invariant and lowers the measure. */
  lemma Step(lex: LLexicon, words: seq<string>, p: nat, n0: nat, cs: seq<LConstituent>,
             ag: seq<LConstituent>, ag2: seq<LConstituent>)
    requires Within(lex, words, p, n0, cs, ag) && |ag| > 0
    requires CombosFrom(cs + [ag[0]], ag[0], 0, ag) == Ok(ag2)
    ensures Within(lex, words, p, n0, cs + [ag[0]], ag2[1..])
    ensures Measure(ag2[1..], n0 + 1) < Measure(ag, n0 + 1)
  {
    var c := ag[0];
    var cs2 := cs + [c];
    assert c in ag;
    StepKeeps(cs, ag, ag2);
    StepSpans(lex, words, p, n0, cs, ag, ag2);
    StepClosed(lex, words, p, n0, cs, ag, ag2);
    StepMeasure(lex, words, p, n0, cs, ag, ag2);
    forall x | x in cs2 ensures Derived(lex, words, cs2, x) && (LexInv(lex) ==> Typed(x)) {
      DerivedMono(lex, words, cs, cs2, x);
    }
    forall i | 0 <= i < n0 ensures Spans(cs2[i], p) {
      assert cs2[i] == cs[i];
    }
  }

  /** With a lexicon the constructor built, a step raises only what a combination can. */
  lemma StepErr(lex: LLexicon, words: seq<string>, p: nat, n0: nat, cs: seq<LConstituent>,
                ag: seq<LConstituent>)
    requires Within(lex, words, p, n0, cs, ag) && |ag| > 0 && LexInv(lex)
    requires CombosFrom(cs + [ag[0]], ag[0], 0, ag).Err?
    ensures CombosFrom(cs + [ag[0]], ag[0], 0, ag).error in {AttributeError, ValueError}
  {
    var c := ag[0];
    var cs2 := cs + [c];
    assert c in ag;
    CombosFromErr(cs2, c, 0, ag);
    var i :| 0 <= i < |cs2| && Combine(cs2[i], c) == Err(CombosFrom(cs2, c, 0, ag).error);
    if i < |cs| { assert cs2[i] in cs; }
    CombineTyped(cs2[i], c);
  }

  /** A chart that holds every word's constituent has found every word in the lexicon. */
  lemma WordsKnown(lex: LLexicon, words: seq<string>, cs: seq<LConstituent>)
    requires Between(lex, words, |words|, cs)
    ensures forall k :: 0 <= k < |words| ==> words[k] in lex.entrytypes
  {
    forall k | 0 <= k < |words| ensures words[k] in lex.entrytypes {
      assert WordItem(lex, words, k).Ok?;
    }
  }

  // ---------------------------------------------------------------------------------
  // The chart.

  /** `Chart`: the sentence's words, the agenda, the constituents found and the word being read. */
  class Chart {
    var lexicon: LLexicon
    var words: seq<string>
    var agenda: seq<LConstituent>
    var constituents: seq<LConstituent>
    var position: nat

    /** The fields `__init__` sets before its loops. */
    constructor (lexicon: LLexicon, sentence: string)
      ensures this.lexicon == lexicon && words == Split(sentence, ' ')
      ensures agenda == [] && constituents == [] && position == 0
    {
      this.lexicon := lexicon;
      words := Split(sentence, ' ');
      agenda := [];
      constituents := [];
      position := 0;
    }

    /** `interpretword`: the current word's constituent joins the agenda. */
    method InterpretWord() returns (r: Result<()>)
      requires position < |words|
      modifies this
      ensures lexicon == old(lexicon) && words == old(words)
      ensures constituents == old(constituents) && position == old(position)
      ensures r.Ok? <==> WordItem(lexicon, words, position).Ok?
      ensures r.Err? ==> r.error == WordItem(lexicon, words, position).error
      ensures r.Ok? ==> agenda == old(agenda) + [WordItem(lexicon, words, position).value]
    {
      var c :- WordItem(lexicon, words, position);
      agenda := agenda + [c];
      return Ok(());
    }

    /**
     * `addconstituent`: `c` joins the chart, and its combination with every constituent
     * of the chart, `c` included, that ends where it starts joins the agenda.
     */
    method AddConstituent(c: LConstituent) returns (r: Result<()>)
      modifies this
      ensures lexicon == old(lexicon) && words == old(words) && position == old(position)
      ensures constituents == old(constituents) + [c]
      ensures r.Ok? <==> CombosFrom(constituents, c, 0, old(agenda)).Ok?
      ensures r.Err? ==> r.error == CombosFrom(constituents, c, 0, old(agenda)).error
      ensures r.Ok? ==> agenda == CombosFrom(constituents, c, 0, old(agenda)).value
    {
      constituents := constituents + [c];
      for k := 0 to |constituents|
        invariant lexicon == old(lexicon) && words == old(words) && position == old(position)
        invariant constituents == old(constituents) + [c]
        invariant CombosFrom(constituents, c, 0, old(agenda)) == CombosFrom(constituents, c, k, agenda)
      {
        var x :- Combine(constituents[k], c);
        if x.Some? {
          agenda := agenda + [x.value];
        }
      }
      return Ok(());
    }

    /** The inner loop of `__init__`: constituents come off the agenda until it is empty. */
    method WorkAgenda(ghost n0: nat) returns (r: Result<()>)
      requires Within(lexicon, words, position, n0, constituents, agenda)
      modifies this
      ensures lexicon == old(lexicon) && words == old(words) && position == old(position)
      ensures r.Ok? ==> agenda == [] && Within(lexicon, words, position, n0, constituents, [])
      ensures r.Err? && LexInv(lexicon) ==> r.error in {AttributeError, ValueError}
    {
      while |agenda| > 0
        invariant lexicon == old(lexicon) && words == old(words) && position == old(position)
        invariant Within(lexicon, words, position, n0, constituents, agenda)
        decreases Measure(agenda, n0 + 1)
      {
        ghost var cs, ag := constituents, agenda;
        var added := AddConstituent(agenda[0]);
        if added.Err? {
          if LexInv(lexicon) {
            StepErr(lexicon, words, position, n0, cs, ag);
          }
          return added;
        }
        Step(lexicon, words, position, n0, cs, ag, agenda);
        agenda := agenda[1..];
      }
      return Ok(());
    }

    /**
     * The loops of `__init__`: each word's constituent goes on the agenda, and the
     * agenda is worked off before the next word.  On success the chart spans the
     * sentence, holds every word's constituent and only words and combinations of its
     * constituents, and every two of its constituents combine into one of them.  With a
     * lexicon the constructor built, the only exceptions are a word missing from the
     * lexicon and the two a combination can raise.
     */
    method Fill() returns (r: Result<()>)
      requires agenda == [] && constituents == [] && position == 0
      modifies this
      ensures lexicon == old(lexicon) && words == old(words)
      ensures r.Ok? ==> agenda == [] && position == |words| && Between(lexicon, words, |words|, constituents)
      ensures r.Ok? ==> forall k :: 0 <= k < |words| ==> words[k] in lexicon.entrytypes
      ensures r.Err? && LexInv(lexicon) ==>
        r.error in {AttributeError, ValueError}
        || (r.error == TypeError && exists k :: 0 <= k < |words| && words[k] !in lexicon.entrytypes)
    {
      while position < |words|
        invariant lexicon == old(lexicon) && words == old(words)
        invariant agenda == [] && Between(lexicon, words, position, constituents)
        decreases |words| - position
      {
        var w := InterpretWord();
        if w.Err? {
          if LexInv(lexicon) {
            WordItemTyped(lexicon, words, position);
          }
          return w;
        }
        EnterPosition(lexicon, words, position, constituents, agenda[0]);
        ghost var n0 := |constituents|;
        var worked := WorkAgenda(n0);
        if worked.Err? {
          return worked;
        }
        LeavePosition(lexicon, words, position, n0, constituents);
        position := position + 1;
      }
      WordsKnown(lexicon, words, constituents);
      return Ok(());
    }
  }
}
