/**
 * The lexicon and the chart of the sequent prover (sequent.py).  The lexicon keeps, for
 * every word, its categories and its term texts in line order; the chart takes, for
 * each way of choosing one lexical entry per word, the sequent of those constituents
 * with the goal category, and keeps the nodes that are proved.
 */
module Driver {
  import opened Outcomes
  import opened PyStr
  import C = Categories
  import T = Terms
  import opened Search
  import SearchLoops

  // ---------------------------------------------------------------------------------
  // The lexicon.

  /** `Lexicon`: lists of categories and of term texts per word name. */
  datatype SLexicon = SLexicon(entrytypes: map<string, seq<C.SynType>>, denotations: map<string, seq<string>>)

  /** `entrytypes[w]` of the `defaultdict`: the empty list for a name never defined. */
  function TypesOf(lex: SLexicon, w: string): seq<C.SynType> {
    if w in lex.entrytypes then lex.entrytypes[w] else []
  }

  /** `denotations[w]` of the `defaultdict`. */
  function DenotationsOf(lex: SLexicon, w: string): seq<string> {
    if w in lex.denotations then lex.denotations[w] else []
  }

  /** Every name has as many categories as term texts. */
  predicate LexInv(lex: SLexicon) {
    lex.entrytypes.Keys == lex.denotations.Keys
    && forall w :: w in lex.entrytypes ==> |lex.entrytypes[w]| == |lex.denotations[w]|
  }

  /** A line whose text without spaces is empty or starts with `#` defines nothing. */
  predicate Skipped(entry: string) {
    entry == "" || entry[0] == '#'
  }

  /** The name a line defines: the stripped text before its first `:`. */
  function LineName(line: string): Option<string> {
    var entry := Replace(line, " ", "");
    if Skipped(entry) then None
    else
      match IndexOf(entry, ':')
      case None => None
      case Some(colon) => Some(Strip(entry[..colon]))
  }

  /**
   * One line that is not skipped: the name, the category of the stripped text between
   * the first `:` and the first `-` (which may draw a gap number), and the stripped
   * term text after the `-`; a line without `:` or `-` is a ValueError.
   */
  function LineEntry(line: string, vc: nat): (r: Result<(string, C.SynType, string, nat)>)
    requires !Skipped(Replace(line, " ", ""))
    ensures var entry := Replace(line, " ", "");
            ':' !in entry || '-' !in entry ==> r == Err(ValueError)
    ensures r.Ok? ==> Some(r.value.0) == LineName(line) && r.value.3 >= vc
  {
    var entry := Replace(line, " ", "");
    match IndexOf(entry, ':')
    case None => Err(ValueError)
    case Some(colon) =>
      match IndexOf(entry, '-')
      case None => Err(ValueError)
      case Some(dash) => LineAt(entry, colon, dash, vc)
  }

  /** The entry of a space-free line whose first `:` and first `-` are at `colon` and `dash`. */
  function LineAt(entry: string, colon: nat, dash: nat, vc: nat): (r: Result<(string, C.SynType, string, nat)>)
    requires colon < |entry| && dash < |entry|
    ensures r.Ok? ==>
      r.value.0 == Strip(entry[..colon])
      && C.ParseType(Strip(PySlice(entry, colon + 1, dash)), vc) == Ok((r.value.1, r.value.3))
      && r.value.2 == Strip(entry[dash + 1..])
  {
    var p :- C.ParseType(Strip(PySlice(entry, colon + 1, dash)), vc);
    Ok((Strip(entry[..colon]), p.0, Strip(entry[dash + 1..]), p.1))
  }

  /** A line's entry is the one its first `:` and first `-` delimit. */
  lemma LineParts(line: string, vc: nat)
    requires !Skipped(Replace(line, " ", "")) && LineEntry(line, vc).Ok?
    ensures var entry := Replace(line, " ", "");
            LineEntry(line, vc) == LineAt(entry, IndexOf(entry, ':').value, IndexOf(entry, '-').value, vc)
  {
  }

  /** Appending one line's category and term text to its name's lists. */
  function Append(lex: SLexicon, e: (string, C.SynType, string, nat)): (r: SLexicon)
    ensures LexInv(lex) ==> LexInv(r)
    ensures TypesOf(r, e.0) == TypesOf(lex, e.0) + [e.1]
    ensures DenotationsOf(r, e.0) == DenotationsOf(lex, e.0) + [e.2]
    ensures forall w :: w != e.0 ==> TypesOf(r, w) == TypesOf(lex, w) && DenotationsOf(r, w) == DenotationsOf(lex, w)
  {
    SLexicon(lex.entrytypes[e.0 := TypesOf(lex, e.0) + [e.1]],
             lex.denotations[e.0 := DenotationsOf(lex, e.0) + [e.2]])
  }

  /** The constructor's loop from line `k` on, with `varcounter` at `vc`. */
  function LinesFrom(lines: seq<string>, k: nat, lex: SLexicon, vc: nat): (r: Result<(SLexicon, nat)>)
    requires k <= |lines|
    ensures r.Ok? ==> r.value.1 >= vc
    ensures r.Ok? && LexInv(lex) ==> LexInv(r.value.0)
    decreases |lines| - k
  {
    if k == |lines| then Ok((lex, vc))
    else if Skipped(Replace(lines[k], " ", "")) then LinesFrom(lines, k + 1, lex, vc)
    else
      var e :- LineEntry(lines[k], vc);
      LinesFrom(lines, k + 1, Append(lex, e), e.3)
  }

  /** `Lexicon(lexiconstring)` with `varcounter` at `vc`: the lexicon and the new counter. */
  function ParseSLexicon(s: string, vc: nat): (r: Result<(SLexicon, nat)>)
    ensures r.Ok? ==> LexInv(r.value.0) && r.value.1 >= vc
  {
    LinesFrom(Split(s, '\n'), 0, SLexicon(map[], map[]), vc)
  }

  /** The number of lines from `k` on that define `w`. */
  function Defines(lines: seq<string>, k: nat, w: string): nat
    requires k <= |lines|
    decreases |lines| - k
  {
    if k == |lines| then 0
    else (if LineName(lines[k]) == Some(w) then 1 else 0) + Defines(lines, k + 1, w)
  }

  /** A list that extends an extension of `a` extends `a`. */
  lemma ExtendsTrans<X>(a: seq<X>, b: seq<X>, c: seq<X>)
    requires |a| <= |b| <= |c| && b[..|a|] == a && c[..|b|] == b
    ensures c[..|a|] == a
  {
    assert c[..|a|] == c[..|b|][..|a|];
  }

  /** Two extensions in a row: the lengths add up and the first list is still a prefix. */
  lemma GrowsStep<X>(a: seq<X>, b: seq<X>, c: seq<X>)
    requires |a| <= |b| <= |c| && b[..|a|] == a && c[..|b|] == b
    ensures |c| - |a| == (|b| - |a|) + (|c| - |b|) && c[..|a|] == a
  {
    ExtendsTrans(a, b, c);
  }

  /** Appending an entry adds one item at the end of its own name's lists and changes no other name's. */
  lemma AppendGrows(lex: SLexicon, e: (string, C.SynType, string, nat), w: string)
    ensures |TypesOf(Append(lex, e), w)| == |TypesOf(lex, w)| + (if e.0 == w then 1 else 0)
    ensures TypesOf(Append(lex, e), w)[..|TypesOf(lex, w)|] == TypesOf(lex, w)
    ensures |DenotationsOf(Append(lex, e), w)| == |DenotationsOf(lex, w)| + (if e.0 == w then 1 else 0)
    ensures DenotationsOf(Append(lex, e), w)[..|DenotationsOf(lex, w)|] == DenotationsOf(lex, w)
  {
    if e.0 == w {
      assert (TypesOf(lex, w) + [e.1])[..|TypesOf(lex, w)|] == TypesOf(lex, w);
      assert (DenotationsOf(lex, w) + [e.2])[..|DenotationsOf(lex, w)|] == DenotationsOf(lex, w);
    }
  }

  /** A skipped line changes nothing and defines nothing. */
  lemma LinesFromSkipped(lines: seq<string>, k: nat, lex: SLexicon, vc: nat, w: string)
    requires k < |lines| && Skipped(Replace(lines[k], " ", ""))
    ensures LinesFrom(lines, k, lex, vc) == LinesFrom(lines, k + 1, lex, vc)
    ensures Defines(lines, k, w) == Defines(lines, k + 1, w)
  {
  }

  /** A line that is not skipped appends its entry to its own name's lists. */
  lemma LinesFromEntry(lines: seq<string>, k: nat, lex: SLexicon, vc: nat, w: string)
    requires k < |lines| && !Skipped(Replace(lines[k], " ", "")) && LinesFrom(lines, k, lex, vc).Ok?
    ensures LineEntry(lines[k], vc).Ok?
    ensures var e := LineEntry(lines[k], vc).value;
            LinesFrom(lines, k, lex, vc) == LinesFrom(lines, k + 1, Append(lex, e), e.3)
            && Defines(lines, k, w) == (if e.0 == w then 1 else 0) + Defines(lines, k + 1, w)
  {
  }

  /**
   * Each line adds to its own name's categories only, at the end: a name's list grows by
   * one entry per line that defines it.
   */
  lemma {:induction false} LinesFromTypes(lines: seq<string>, k: nat, lex: SLexicon, vc: nat, w: string, r: SLexicon, vc': nat)
    requires k <= |lines| && LinesFrom(lines, k, lex, vc) == Ok((r, vc'))
    ensures |TypesOf(r, w)| == |TypesOf(lex, w)| + Defines(lines, k, w)
    ensures TypesOf(r, w)[..|TypesOf(lex, w)|] == TypesOf(lex, w)
    decreases |lines| - k
  {
    if k < |lines| {
      if Skipped(Replace(lines[k], " ", "")) {
        LinesFromSkipped(lines, k, lex, vc, w);
        LinesFromTypes(lines, k + 1, lex, vc, w, r, vc');
      } else {
        LinesFromEntry(lines, k, lex, vc, w);
        var e := LineEntry(lines[k], vc).value;
        var next := Append(lex, e);
        AppendGrows(lex, e, w);
        LinesFromTypes(lines, k + 1, next, e.3, w, r, vc');
        GrowsStep(TypesOf(lex, w), TypesOf(next, w), TypesOf(r, w));
      }
    }
  }

  /** The same for the term texts: a name's list grows by one text per line that defines it. */
  lemma {:induction false} LinesFromDenotations(lines: seq<string>, k: nat, lex: SLexicon, vc: nat, w: string, r: SLexicon, vc': nat)
    requires k <= |lines| && LinesFrom(lines, k, lex, vc) == Ok((r, vc'))
    ensures |DenotationsOf(r, w)| == |DenotationsOf(lex, w)| + Defines(lines, k, w)
    ensures DenotationsOf(r, w)[..|DenotationsOf(lex, w)|] == DenotationsOf(lex, w)
    decreases |lines| - k
  {
    if k < |lines| {
      if Skipped(Replace(lines[k], " ", "")) {
        LinesFromSkipped(lines, k, lex, vc, w);
        LinesFromDenotations(lines, k + 1, lex, vc, w, r, vc');
      } else {
        LinesFromEntry(lines, k, lex, vc, w);
        var e := LineEntry(lines[k], vc).value;
        var next := Append(lex, e);
        AppendGrows(lex, e, w);
        LinesFromDenotations(lines, k + 1, next, e.3, w, r, vc');
        GrowsStep(DenotationsOf(lex, w), DenotationsOf(next, w), DenotationsOf(r, w));
      }
    }
  }

  /** The first line still to read that defines `w` supplies the next category and term text of `w`. */
  lemma LinesFromNext(lines: seq<string>, k: nat, lex: SLexicon, vc: nat, w: string, r: SLexicon, vc': nat)
    requires k < |lines| && !Skipped(Replace(lines[k], " ", "")) && LineName(lines[k]) == Some(w)
    requires LinesFrom(lines, k, lex, vc) == Ok((r, vc'))
    ensures LineEntry(lines[k], vc).Ok?
    ensures |TypesOf(lex, w)| < |TypesOf(r, w)| && TypesOf(r, w)[|TypesOf(lex, w)|] == LineEntry(lines[k], vc).value.1
    ensures |DenotationsOf(lex, w)| < |DenotationsOf(r, w)|
            && DenotationsOf(r, w)[|DenotationsOf(lex, w)|] == LineEntry(lines[k], vc).value.2
  {
    LinesFromEntry(lines, k, lex, vc, w);
    var e := LineEntry(lines[k], vc).value;
    var next := Append(lex, e);
    LinesFromTypes(lines, k + 1, next, e.3, w, r, vc');
    LinesFromDenotations(lines, k + 1, next, e.3, w, r, vc');
    assert TypesOf(r, w)[|TypesOf(lex, w)|] == TypesOf(r, w)[..|TypesOf(next, w)|][|TypesOf(lex, w)|];
    assert DenotationsOf(r, w)[|DenotationsOf(lex, w)|]
        == DenotationsOf(r, w)[..|DenotationsOf(next, w)|][|DenotationsOf(lex, w)|];
  }

  /** In the lexicon of a text, every name has one category and one term text per line that defines it. */
  lemma ParseSLexiconLists(s: string, vc: nat, w: string, r: SLexicon, vc': nat)
    requires ParseSLexicon(s, vc) == Ok((r, vc'))
    ensures |TypesOf(r, w)| == Defines(Split(s, '\n'), 0, w)
    ensures |DenotationsOf(r, w)| == Defines(Split(s, '\n'), 0, w)
  {
    LinesFromTypes(Split(s, '\n'), 0, SLexicon(map[], map[]), vc, w, r, vc');
    LinesFromDenotations(Split(s, '\n'), 0, SLexicon(map[], map[]), vc, w, r, vc');
  }

  /** The constructor's loop over the lines. */
  method NewSLexicon(s: string, vc0: nat) returns (r: Result<(SLexicon, nat)>)
    ensures r == ParseSLexicon(s, vc0)
  {
    var lines := Split(s, '\n');
    var lex := SLexicon(map[], map[]);
    var vc := vc0;
    for k := 0 to |lines|
      invariant ParseSLexicon(s, vc0) == LinesFrom(lines, k, lex, vc)
    {
      var entry := Replace(lines[k], " ", "");
      if !Skipped(entry) {
        var e :- LineEntry(lines[k], vc);
        lex := Append(lex, e);
        vc := e.3;
      }
    }
    return Ok((lex, vc));
  }

  // ---------------------------------------------------------------------------------
  // itertools.product

  /** `[x] + p` for every `p` of `ps`. */
  function PrefixAll<X>(x: X, ps: seq<seq<X>>): (r: seq<seq<X>>)
    ensures |r| == |ps| && forall i :: 0 <= i < |ps| ==> r[i] == [x] + ps[i]
  {
    seq(|ps|, i requires 0 <= i < |ps| => [x] + ps[i])
  }

  /** The choices continuing with each of `xs` in turn, for the first of the lists. */
  function Choices<X>(xs: seq<X>, ps: seq<seq<X>>): seq<seq<X>>
  {
    if |xs| == 0 then [] else PrefixAll(xs[0], ps) + Choices(xs[1..], ps)
  }

  /** `itertools.product(*lists)`: every choice of one element per list, the last list varying fastest. */
  function Product<X>(lists: seq<seq<X>>): seq<seq<X>>
  {
    if |lists| == 0 then [[]] else Choices(lists[0], Product(lists[1..]))
  }

  /** The product of the list lengths. */
  function Size<X>(lists: seq<seq<X>>): nat {
    if |lists| == 0 then 1 else |lists[0]| * Size(lists[1..])
  }

  lemma {:induction false} ChoicesLength<X>(xs: seq<X>, ps: seq<seq<X>>)
    ensures |Choices(xs, ps)| == |xs| * |ps|
    decreases |xs|
  {
    if |xs| > 0 {
      ChoicesLength(xs[1..], ps);
      assert |xs| * |ps| == |ps| + (|xs| - 1) * |ps|;
    }
  }

  /** There are as many choices as the product of the lengths. */
  lemma {:induction false} ProductLength<X>(lists: seq<seq<X>>)
    ensures |Product(lists)| == Size(lists)
    decreases |lists|
  {
    if |lists| > 0 {
      ProductLength(lists[1..]);
      ChoicesLength(lists[0], Product(lists[1..]));
    }
  }

  lemma {:induction false} ChoicesMember<X>(xs: seq<X>, ps: seq<seq<X>>, c: seq<X>)
    ensures c in Choices(xs, ps) <==> |c| > 0 && c[0] in xs && c[1..] in ps
    decreases |xs|
  {
    if |xs| > 0 {
      ChoicesMember(xs[1..], ps, c);
      var pa := PrefixAll(xs[0], ps);
      assert c in pa <==> |c| > 0 && c[0] == xs[0] && c[1..] in ps by {
        if c in pa {
          var i :| 0 <= i < |pa| && pa[i] == c;
          assert c[1..] == ps[i];
        }
        if |c| > 0 && c[0] == xs[0] && c[1..] in ps {
          var i :| 0 <= i < |ps| && ps[i] == c[1..];
          assert pa[i] == c;
        }
      }
      if |c| > 0 {
        assert c[0] in xs <==> c[0] == xs[0] || c[0] in xs[1..];
      }
    }
  }

  /** A choice is in the product exactly when it takes one element of each list, in order. */
  lemma {:induction false} ProductMember<X>(lists: seq<seq<X>>, c: seq<X>)
    ensures c in Product(lists) <==> |c| == |lists| && forall i :: 0 <= i < |c| ==> c[i] in lists[i]
    decreases |lists|
  {
    if |lists| == 0 {
      assert c in [[]] <==> c == [];
    } else {
      ChoicesMember(lists[0], Product(lists[1..]), c);
      if |c| > 0 {
        ProductMember(lists[1..], c[1..]);
      }
      if |c| == |lists| && forall i :: 0 <= i < |c| ==> c[i] in lists[i] {
        assert forall i :: 0 <= i < |c[1..]| ==> c[1..][i] == c[i + 1];
      }
      if |c| > 0 && c[0] in lists[0] && c[1..] in Product(lists[1..]) {
        forall i | 0 <= i < |c| ensures c[i] in lists[i] {
          if i > 0 { assert c[i] == c[1..][i - 1]; }
        }
      }
    }
  }

  lemma {:induction false} SizeZero<X>(lists: seq<seq<X>>, i: nat)
    requires i < |lists| && lists[i] == []
    ensures Size(lists) == 0
    decreases i
  {
    if i > 0 {
      SizeZero(lists[1..], i - 1);
    }
  }

  /** A word without any entry leaves nothing to choose. */
  lemma ProductEmpty<X>(lists: seq<seq<X>>, i: nat)
    requires i < |lists| && lists[i] == []
    ensures Product(lists) == []
  {
    ProductLength(lists);
    SizeZero(lists, i);
  }

  // ---------------------------------------------------------------------------------
  // The chart.

  /** `Chart` once its constructor has returned. */
  datatype SChart = SChart(words: seq<string>, goaltype: C.SynType, constituents: seq<seq<Constituent>>,
                           basesequences: seq<Sequence>, isvalid: bool)

  /** `SyntacticType('s')`, the default goal, is the plain atom and draws no gap number. */
  lemma DefaultGoal(vc: nat)
    ensures C.ParseType("s", vc) == Ok((C.Atom("s", C.NoGap), vc))
  {
    CharSubstring(' ', "s");
    assert [' '] == " ";
    ReplaceAbsent("s", " ", "");
    assert C.Cleaned("s") == Ok("s");
  }

  /**
   * The constituents of one word from its `i`-th entry on: the category with the term
   * built from the text, `semvarcounter` threaded through.  A term text missing for a
   * category is an IndexError.
   */
  function WordFrom(types: seq<C.SynType>, dens: seq<string>, i: nat, acc: seq<Constituent>, sv: nat)
    : (r: Result<(seq<Constituent>, nat)>)
    requires i <= |types|
    ensures r.Ok? ==> |r.value.0| == |acc| + |types| - i && r.value.0[..|acc|] == acc && r.value.1 >= sv
    ensures r.Ok? ==> forall j :: i <= j < |types| ==> r.value.0[|acc| + j - i].syntactictype == types[j]
    ensures i <= |dens| < |types| ==> r.Err?
    decreases |types| - i
  {
    if i == |types| then Ok((acc, sv))
    else if i >= |dens| then Err(IndexError)
    else
      var d :- T.NewDenotation(dens[i], sv);
      var r := WordFrom(types, dens, i + 1, acc + [Constituent(types[i], d.0)], d.1);
      if r.Ok? then
        assert r.value.0[..|acc|] == r.value.0[..|acc| + 1][..|acc|];
        r
      else r
  }

  /** The per-word constituent lists for the words from `k` on. */
  function WordsFrom(lex: SLexicon, words: seq<string>, k: nat, acc: seq<seq<Constituent>>, sv: nat)
    : (r: Result<(seq<seq<Constituent>>, nat)>)
    requires k <= |words|
    ensures r.Ok? ==> |r.value.0| == |acc| + |words| - k && r.value.0[..|acc|] == acc && r.value.1 >= sv
    ensures r.Ok? ==> forall j :: k <= j < |words| ==> |r.value.0[|acc| + j - k]| == |TypesOf(lex, words[j])|
    decreases |words| - k
  {
    if k == |words| then Ok((acc, sv))
    else
      var w :- WordFrom(TypesOf(lex, words[k]), DenotationsOf(lex, words[k]), 0, [], sv);
      var r := WordsFrom(lex, words, k + 1, acc + [w.0], w.1);
      if r.Ok? then
        WordsStep(lex, words, k, acc, w.0, r.value.0);
        r
      else r
  }

  /** The lists for the words after `k`, behind `acc` and the list of word `k`, extend to `k`. */
  lemma WordsStep(lex: SLexicon, words: seq<string>, k: nat, acc: seq<seq<Constituent>>,
                  w: seq<Constituent>, rs: seq<seq<Constituent>>)
    requires k < |words| && |w| == |TypesOf(lex, words[k])|
    requires |rs| == |acc| + |words| - k && rs[..|acc| + 1] == acc + [w]
    requires forall j :: k + 1 <= j < |words| ==> |rs[|acc| + 1 + j - (k + 1)]| == |TypesOf(lex, words[j])|
    ensures rs[..|acc|] == acc
    ensures forall j :: k <= j < |words| ==> |rs[|acc| + j - k]| == |TypesOf(lex, words[j])|
  {
    assert rs[..|acc|] == rs[..|acc| + 1][..|acc|];
    forall j | k <= j < |words| ensures |rs[|acc| + j - k]| == |TypesOf(lex, words[j])| {
      if j == k {
        assert rs[|acc|] == (acc + [w])[|acc|];
      } else {
        assert |rs[|acc| + 1 + j - (k + 1)]| == |TypesOf(lex, words[j])|;
      }
    }
  }

  /** The base loop from the `k`-th choice on: every sequent that is proved is kept, in order. */
  function BasesFrom(cfg: Config, combos: seq<seq<Constituent>>, k: nat, goal: C.SynType, fuel: nat,
                     ctr: Counters, acc: seq<Sequence>): (r: Result<(seq<Sequence>, Counters)>)
    requires k <= |combos|
    ensures r.Ok? ==> |acc| <= |r.value.0| <= |acc| + |combos| - k && r.value.0[..|acc|] == acc
    ensures r.Ok? ==> forall n :: n in r.value.0[|acc|..] ==>
      n.isvalid && n.ruleused == Lex && n.goal == goal && n.qrcount == 0 && n.cooldown == 0
      && n.constituents in combos[k..] && NodeInv(cfg, n)
    ensures r.Ok? ==> Later(ctr, r.value.1)
    decreases |combos| - k
  {
    if k == |combos| then Ok((acc, ctr))
    else
      var n :- Node(cfg, combos[k], goal, Lex, 0, 0, fuel, ctr);
      var next := if n.0.isvalid then acc + [n.0] else acc;
      var r := BasesFrom(cfg, combos, k + 1, goal, fuel, n.1, next);
      if r.Ok? then
        BasesKeep(cfg, combos, k, goal, acc, n.0, next, r.value.0);
        r
      else r
  }

  /** One step of the base loop: what the rest of the loop keeps, it keeps from `k` on. */
  lemma BasesKeep(cfg: Config, combos: seq<seq<Constituent>>, k: nat, goal: C.SynType, acc: seq<Sequence>,
                  n: Sequence, next: seq<Sequence>, out: seq<Sequence>)
    requires k < |combos| && n.constituents == combos[k] && n.goal == goal && n.ruleused == Lex
    requires n.qrcount == 0 && n.cooldown == 0 && NodeInv(cfg, n)
    requires next == if n.isvalid then acc + [n] else acc
    requires |next| <= |out| <= |next| + |combos| - (k + 1) && out[..|next|] == next
    requires forall m :: m in out[|next|..] ==>
      m.isvalid && m.ruleused == Lex && m.goal == goal && m.qrcount == 0 && m.cooldown == 0
      && m.constituents in combos[k + 1..] && NodeInv(cfg, m)
    ensures |acc| <= |out| <= |acc| + |combos| - k && out[..|acc|] == acc
    ensures forall m :: m in out[|acc|..] ==>
      m.isvalid && m.ruleused == Lex && m.goal == goal && m.qrcount == 0 && m.cooldown == 0
      && m.constituents in combos[k..] && NodeInv(cfg, m)
  {
    assert out[..|acc|] == out[..|next|][..|acc|];
    assert combos[k] in combos[k..];
    assert forall s :: s in combos[k + 1..] ==> s in combos[k..];
    forall m | m in out[|acc|..] ensures m in out[|next|..] || (n.isvalid && m == n) {
      var j :| |acc| <= j < |out| && out[j] == m;
      if j >= |next| {
        assert out[|next|..][j - |next|] == m;
      } else {
        assert out[j] == out[..|next|][j];
      }
    }
  }

  /** Every node the base loop builds from the `k`-th choice on, proved or not, in order. */
  function AllNodes(cfg: Config, combos: seq<seq<Constituent>>, k: nat, goal: C.SynType, fuel: nat,
                    ctr: Counters): (r: Result<(seq<Sequence>, Counters)>)
    requires k <= |combos|
    ensures r.Ok? ==> |r.value.0| == |combos| - k
    ensures r.Ok? ==> forall i :: 0 <= i < |r.value.0| ==>
      var n := r.value.0[i];
      n.constituents == combos[k + i] && n.goal == goal && n.ruleused == Lex && n.qrcount == 0 && n.cooldown == 0
    decreases |combos| - k
  {
    if k == |combos| then Ok(([], ctr))
    else
      var n :- Node(cfg, combos[k], goal, Lex, 0, 0, fuel, ctr);
      var rest :- AllNodes(cfg, combos, k + 1, goal, fuel, n.1);
      Ok(([n.0] + rest.0, rest.1))
  }

  /** The proved nodes of a list, in order. */
  function Proved(ns: seq<Sequence>): seq<Sequence> {
    if |ns| == 0 then [] else (if ns[0].isvalid then [ns[0]] else []) + Proved(ns[1..])
  }

  /** `Proved` keeps exactly the valid nodes. */
  lemma {:induction false} ProvedMember(ns: seq<Sequence>, n: Sequence)
    ensures n in Proved(ns) <==> n in ns && n.isvalid
  {
    if |ns| > 0 {
      ProvedMember(ns[1..], n);
      assert n in ns <==> n == ns[0] || n in ns[1..];
    }
  }

  /** Some node is kept if and only if one of them is proved. */
  lemma {:induction false} ProvedNonEmpty(ns: seq<Sequence>)
    ensures |Proved(ns)| > 0 <==> exists i :: 0 <= i < |ns| && ns[i].isvalid
  {
    if |ns| > 0 {
      ProvedNonEmpty(ns[1..]);
      if exists i :: 0 <= i < |ns[1..]| && ns[1..][i].isvalid {
        var i :| 0 <= i < |ns[1..]| && ns[1..][i].isvalid;
        assert ns[i + 1].isvalid;
      }
      if exists i :: 0 <= i < |ns| && ns[i].isvalid {
        var i :| 0 <= i < |ns| && ns[i].isvalid;
        if i > 0 {
          assert ns[1..][i - 1].isvalid;
        }
      }
    }
  }

  /** One step of the base loop: the node of the `k`-th choice, then the rest. */
  lemma BasesFromNext(cfg: Config, combos: seq<seq<Constituent>>, k: nat, goal: C.SynType, fuel: nat,
                      ctr: Counters, acc: seq<Sequence>)
    requires k < |combos|
    ensures var n := Node(cfg, combos[k], goal, Lex, 0, 0, fuel, ctr);
            BasesFrom(cfg, combos, k, goal, fuel, ctr, acc)
            == if n.Err? then Err(n.error)
               else BasesFrom(cfg, combos, k + 1, goal, fuel, n.value.1,
                              if n.value.0.isvalid then acc + [n.value.0] else acc)
  {
  }

  /** One step of `AllNodes`: the node of the `k`-th choice, then the rest. */
  lemma AllNodesNext(cfg: Config, combos: seq<seq<Constituent>>, k: nat, goal: C.SynType, fuel: nat,
                     ctr: Counters)
    requires k < |combos|
    ensures var n := Node(cfg, combos[k], goal, Lex, 0, 0, fuel, ctr);
            var rest := if n.Ok? then AllNodes(cfg, combos, k + 1, goal, fuel, n.value.1) else Err(IndexError);
            AllNodes(cfg, combos, k, goal, fuel, ctr)
            == if n.Err? then Err(n.error)
               else if rest.Err? then Err(rest.error)
               else Ok(([n.value.0] + rest.value.0, rest.value.1))
  {
  }

  /** `Proved` of a list with a first node. */
  lemma ProvedCons(n: Sequence, rest: seq<Sequence>)
    ensures Proved([n] + rest) == (if n.isvalid then [n] else []) + Proved(rest)
  {
    var ns := [n] + rest;
    assert ns[0] == n && ns[1..] == rest;
  }

  /**
   * The base loop keeps, after `acc`, exactly the proved nodes among all those it
   * builds, in the order of the choices, and fails exactly when building one fails.
   */
  lemma {:induction false} BasesAll(cfg: Config, combos: seq<seq<Constituent>>, k: nat, goal: C.SynType, fuel: nat,
                                    ctr: Counters, acc: seq<Sequence>)
    requires k <= |combos|
    ensures var a := AllNodes(cfg, combos, k, goal, fuel, ctr);
            BasesFrom(cfg, combos, k, goal, fuel, ctr, acc)
            == if a.Err? then Err(a.error) else Ok((acc + Proved(a.value.0), a.value.1))
    decreases |combos| - k
  {
    if k == |combos| {
      assert acc + Proved([]) == acc;
    } else {
      BasesFromNext(cfg, combos, k, goal, fuel, ctr, acc);
      AllNodesNext(cfg, combos, k, goal, fuel, ctr);
      var n := Node(cfg, combos[k], goal, Lex, 0, 0, fuel, ctr);
      if n.Ok? {
        var next := if n.value.0.isvalid then acc + [n.value.0] else acc;
        BasesAll(cfg, combos, k + 1, goal, fuel, n.value.1, next);
        var rest := AllNodes(cfg, combos, k + 1, goal, fuel, n.value.1);
        if rest.Ok? {
          ProvedStep(acc, n.value.0, rest.value.0);
        }
      }
    }
  }

  /** Keeping `x` when it is proved, then the proved ones of `xs`, keeps the proved ones of `[x] + xs`. */
  lemma ProvedStep(acc: seq<Sequence>, x: Sequence, xs: seq<Sequence>)
    ensures (if x.isvalid then acc + [x] else acc) + Proved(xs) == acc + Proved([x] + xs)
  {
    ProvedCons(x, xs);
  }

  /**
   * `Chart(lexicon, sentence, goaltype)` with the counters `ctr` and the bound `fuel`
   * the sequent nodes are built with: the words are the sentence split at spaces, the
   * goal defaults to `s`, and the base sequences are the proved nodes over all choices
   * of one entry per word.
   */
  function ChartOf(cfg: Config, lex: SLexicon, sentence: string, goaltype: Option<C.SynType>, fuel: nat,
                   ctr: Counters): (r: Result<(SChart, Counters)>)
    ensures r.Ok? ==> var ch := r.value.0;
      ch.words == Split(sentence, ' ') && |ch.constituents| == |ch.words|
      && (goaltype.Some? ==> ch.goaltype == goaltype.value)
      && (goaltype.None? ==> ch.goaltype == C.Atom("s", C.NoGap))
      && (ch.isvalid <==> |ch.basesequences| > 0)
      && (forall i :: 0 <= i < |ch.words| ==> |ch.constituents[i]| == |TypesOf(lex, ch.words[i])|)
      && (forall n :: n in ch.basesequences ==>
            n.isvalid && n.ruleused == Lex && n.goal == ch.goaltype && n.constituents in Product(ch.constituents))
      && Later(ctr, r.value.1)
  {
    var words := Split(sentence, ' ');
    var g :- match goaltype
             case Some(t) => Ok((t, ctr.vc))
             case None => C.ParseType("s", ctr.vc);
    DefaultGoal(ctr.vc);
    var cons :- WordsFrom(lex, words, 0, [], ctr.sv);
    // WordsFrom from position 0 with nothing accumulated: its `j`-th word is at index `j`
    assert forall i :: 0 <= i < |words| ==> |cons.0[i]| == |TypesOf(lex, words[i])| by {
      forall i | 0 <= i < |words| ensures |cons.0[i]| == |TypesOf(lex, words[i])| {
        assert |cons.0[0 + i - 0]| == |TypesOf(lex, words[i])|;
      }
    }
    var bases :- BasesFrom(cfg, Product(cons.0), 0, g.0, fuel, Counters(g.1, cons.1), []);
    assert bases.0[0..] == bases.0;
    assert Product(cons.0)[0..] == Product(cons.0);
    Ok((SChart(words, g.0, cons.0, bases.0, |bases.0| > 0), bases.1))
  }

  /** A sentence with a word the lexicon does not define has no derivation. */
  lemma UnknownWordInvalid(cfg: Config, lex: SLexicon, sentence: string, goaltype: Option<C.SynType>,
                           fuel: nat, ctr: Counters, i: nat)
    requires ChartOf(cfg, lex, sentence, goaltype, fuel, ctr).Ok?
    requires i < |Split(sentence, ' ')| && TypesOf(lex, Split(sentence, ' ')[i]) == []
    ensures !ChartOf(cfg, lex, sentence, goaltype, fuel, ctr).value.0.isvalid
  {
    var ch := ChartOf(cfg, lex, sentence, goaltype, fuel, ctr).value.0;
    assert |ch.constituents[i]| == 0;
    ProductEmpty(ch.constituents, i);
    NoBases(ch.basesequences, ch.constituents);
  }

  /** No base sequence can be chosen from an empty product. */
  lemma NoBases(bases: seq<Sequence>, cons: seq<seq<Constituent>>)
    requires Product(cons) == []
    requires forall n :: n in bases ==> n.constituents in Product(cons)
    ensures |bases| == 0
  {
    if |bases| > 0 {
      HeadIn(bases);
      assert false;
    }
  }

  lemma HeadIn<T>(s: seq<T>)
    requires |s| > 0
    ensures s[0] in s
  {
  }

  /** A base sequence takes, for each word, one of that word's constituents. */
  lemma BaseChoosesPerWord(cfg: Config, lex: SLexicon, sentence: string, goaltype: Option<C.SynType>,
                           fuel: nat, ctr: Counters, n: Sequence, i: nat)
    requires ChartOf(cfg, lex, sentence, goaltype, fuel, ctr).Ok?
    requires n in ChartOf(cfg, lex, sentence, goaltype, fuel, ctr).value.0.basesequences
    requires i < |Split(sentence, ' ')|
    ensures var ch := ChartOf(cfg, lex, sentence, goaltype, fuel, ctr).value.0;
            |n.constituents| == |ch.words| && n.constituents[i] in ch.constituents[i]
  {
    var ch := ChartOf(cfg, lex, sentence, goaltype, fuel, ctr).value.0;
    ProductMember(ch.constituents, n.constituents);
  }

  /** The inner word loop of `Chart.__init__`: the constituents of one word. */
  method WordLoop(types: seq<C.SynType>, dens: seq<string>, sv0: nat) returns (r: Result<(seq<Constituent>, nat)>)
    ensures r == WordFrom(types, dens, 0, [], sv0)
  {
    var row: seq<Constituent> := [];
    var sv := sv0;
    for i := 0 to |types|
      invariant WordFrom(types, dens, 0, [], sv0) == WordFrom(types, dens, i, row, sv)
    {
      if i >= |dens| {
        return Err(IndexError);
      }
      var d :- T.NewDenotation(dens[i], sv);
      row := row + [Constituent(types[i], d.0)];
      sv := d.1;
    }
    return Ok((row, sv));
  }

  /** The word loops of `Chart.__init__`: one list of constituents per word. */
  method WordsLoop(lex: SLexicon, words: seq<string>, sv0: nat) returns (r: Result<(seq<seq<Constituent>>, nat)>)
    ensures r == WordsFrom(lex, words, 0, [], sv0)
  {
    var constituents: seq<seq<Constituent>> := [];
    var sv := sv0;
    for k := 0 to |words|
      invariant WordsFrom(lex, words, 0, [], sv0) == WordsFrom(lex, words, k, constituents, sv)
    {
      var row :- WordLoop(TypesOf(lex, words[k]), DenotationsOf(lex, words[k]), sv);
      constituents := constituents + [row.0];
      sv := row.1;
    }
    return Ok((constituents, sv));
  }

  /** The loop over the choices: one sequent node per choice, the proved ones kept. */
  method BasesLoop(cfg: Config, agenda: seq<seq<Constituent>>, goal: C.SynType, fuel: nat, ctr: Counters)
    returns (r: Result<(seq<Sequence>, Counters)>)
    ensures r == BasesFrom(cfg, agenda, 0, goal, fuel, ctr, [])
  {
    var basesequences: seq<Sequence> := [];
    var counters := ctr;
    for k := 0 to |agenda|
      invariant BasesFrom(cfg, agenda, 0, goal, fuel, ctr, [])
             == BasesFrom(cfg, agenda, k, goal, fuel, counters, basesequences)
    {
      var n :- SearchLoops.Build(cfg, agenda[k], goal, Lex, 0, 0, fuel, counters);
      var next := if n.0.isvalid then basesequences + [n.0] else basesequences;
      assert BasesFrom(cfg, agenda, k, goal, fuel, counters, basesequences)
          == BasesFrom(cfg, agenda, k + 1, goal, fuel, n.1, next);
      basesequences := next;
      counters := n.1;
    }
    return Ok((basesequences, counters));
  }

  /** `Chart.__init__`: the word loops, then one sequent per choice. */
  method NewChart(cfg: Config, lex: SLexicon, sentence: string, goaltype: Option<C.SynType>, fuel: nat,
                  ctr: Counters) returns (r: Result<(SChart, Counters)>)
    ensures r == ChartOf(cfg, lex, sentence, goaltype, fuel, ctr)
  {
    var words := Split(sentence, ' ');
    var goal: C.SynType;
    if goaltype.Some? {
      goal := goaltype.value;
    } else {
      DefaultGoal(ctr.vc);
      goal := C.ParseType("s", ctr.vc).value.0;
    }
    var cons :- WordsLoop(lex, words, ctr.sv);
    var bases :- BasesLoop(cfg, Product(cons.0), goal, fuel, Counters(ctr.vc, cons.1));
    return Ok((SChart(words, goal, cons.0, bases.0, |bases.0| > 0), bases.1));
  }

  /**
   * The base sequences are exactly the proved nodes over all choices of one entry per
   * word, in `itertools.product` order, built with the counters `c0` the word loops
   * leave; the chart is valid if and only if one of those nodes is proved.
   */
  lemma ChartBases(cfg: Config, lex: SLexicon, sentence: string, goaltype: Option<C.SynType>, fuel: nat,
                   ctr: Counters) returns (c0: Counters)
    requires ChartOf(cfg, lex, sentence, goaltype, fuel, ctr).Ok?
    ensures var ch := ChartOf(cfg, lex, sentence, goaltype, fuel, ctr).value.0;
            var a := AllNodes(cfg, Product(ch.constituents), 0, ch.goaltype, fuel, c0);
            a.Ok? && ch.basesequences == Proved(a.value.0)
            && (ch.isvalid <==> exists i :: 0 <= i < |a.value.0| && a.value.0[i].isvalid)
  {
    var ch := ChartOf(cfg, lex, sentence, goaltype, fuel, ctr).value.0;
    var g := if goaltype.Some? then (goaltype.value, ctr.vc) else C.ParseType("s", ctr.vc).value;
    DefaultGoal(ctr.vc);
    var cons := WordsFrom(lex, Split(sentence, ' '), 0, [], ctr.sv).value;
    c0 := Counters(g.1, cons.1);
    BasesAll(cfg, Product(cons.0), 0, g.0, fuel, c0, []);
    var a := AllNodes(cfg, Product(ch.constituents), 0, ch.goaltype, fuel, c0);
    assert [] + Proved(a.value.0) == Proved(a.value.0);
    ProvedNonEmpty(a.value.0);
  }
}
