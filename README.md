# Categorial-grammar parsers in Dafny

This project models the two parsers of a small categorial-grammar repository and proves
properties of the model.

- **sequent.py** is a Lambek sequent-calculus prover with quantifier raising. A category
  such as `(dp\s)/dp` is parsed into a tree of atoms and slashes (`SyntacticType`), and a
  category containing `l` or `v` is tagged as a gap. A term (`Denotation`) is a string
  with a little recorded structure: lambdas are renamed to numbered variables `<n>`,
  application is textual beta reduction, and equality is alpha equivalence by
  renumbering (`reducestring`). For a list of constituents and a goal category, a
  `Sequence` node tries, in order:
  - the axiom;
  - the right rules;
  - the left rules over every argument span, narrowest first;
  - `ABS out` (quantifier raising, bounded by `qrlimit`);
  - `ABS in` (after a cooldown).

  It records every alternative that succeeds and the terms it contributes, deduplicated
  by `adddenotation`. A `Lexicon` maps each word to lists of categories and term texts.
  A `Chart` builds one node for every choice of one entry per word.
- **tlg_parser.py** is a bottom-up Lambek chart parser. Its categories have no gaps. A
  semantic type is derived from the table `dp → e`, `s → t`, `n → (e;t)`. Terms are
  texts whose first lambda's variable is replaced by the argument's text. Words are read
  one at a time onto a FIFO agenda. Each constituent taken off the agenda joins the
  chart and is combined, by left or right elimination, with every chart constituent
  that ends where it starts.

Modules follow the source:

- `Outcomes`: the `Option`/`Result` wrappers. Every exception the Python code can raise
  is a `Result.Err` with its kind: IndexError, ValueError, KeyError, AttributeError,
  TypeError, the "Parenthesis not found" exception (`NotParenthesis`), the "Invalid type"
  exception (`InvalidType`), and the "cannot be applied" exception (`CannotApply`).
- `PyStr`: the Python string operations used (`index`, `find`, slicing with negative
  bounds, `replace`, `strip`, `split`, `str(n)`).
- `Brackets`: `findbracketpair`, `stripbrackets` and the depth-0 slash scan. The two
  source files carry identical copies of these.
- `Categories`: the sequent prover's `SyntacticType` and its `__eq__`.
- `Terms`: `Denotation`, `reducestring` and `Denotation.__eq__`.
- `Renaming`: what `reducestring` computes. A text is a list of pieces (characters and
  variables `<id>`). The module proves that the loop numbers the variables in order of
  first appearance, and that `__eq__` is alpha equivalence on such texts.
- `Search` and `SearchLoops`: `Constituent` and `Sequence` (`__init__` and
  `adddenotation`).
  - `Search` defines each rule loop as a function, together with the invariants every
    node satisfies.
  - `SearchLoops` holds the same loops as methods, each proved equal to its function.
  - `SearchLog` follows each step through an `Attempt` log. It proves that a node tries
    exactly the applicable alternatives, builds for each the child sequents its rule
    sets up, and records exactly the attempts whose children all succeed.
  - `SearchTerms` proves which terms each loop collects: the lambdas of the right
    rules, the substitution terms of the left rules, and a child's terms for `ABS out`
    and `ABS in`, appended in order or deduplicated by `adddenotation`.
- `Driver`: the sequent prover's `Lexicon` and `Chart`.
- `Lambek`: tlg_parser.py's types, the elimination rules, `Semantictype`, `Denotation`,
  `functionapplication` and `Constituent`. It includes a proof that its category parser
  agrees with the sequent prover's on gap-free text.
- `LambekChart`: tlg_parser.py's `Lexicon` and the `Chart` class.

How the source's state is represented:

- The global counters `varcounter` and `semvarcounter` are passed in and returned
  explicitly.
- The settings `qrlimit`, `cooldownperiod` and `uniquedenotations` form a `Config`.
- A Python loop that would never end is `Err(Diverges)`. This is `reducestring` when a
  `<` has no later `>`.
- A `findbracketpair` scan that runs off the string is Python's IndexError.

Behaviour kept as the code has it:

- **One-place lexicon lambdas `Lx.f(x)` cannot be applied.** An entry such as
  `L1.snore(1)` is renamed to `L<n>.snore(<n>)`. The application path re-parses that
  text, and `<n>` occurs only as the final argument, so the text takes the eta branch
  (sequent.py:183-188). That branch leaves `body` as `None`, so reading `body.body` at
  sequent.py:158-159 raises AttributeError. The model returns `Err(AttributeError)`;
  `Terms.LexiconVerbCannotApply` proves it for every such entry and
  `Terms.SnoreCannotApply` for `snore`. A lambda whose variable is not just the final
  argument does apply. For example, the two-place `knows` entry `L1.L2.know(2,1)`
  (tlg_parser.py:274) applied to `j` and then to `k` gives `know(k,j)`
  (`Terms.TwoPlaceApplies`, `Terms.KnowsApplies`).
- **Quantifier raising and `ABS in` change the list length by two.** `ABS out` adds two
  constituents to the list: the lambda and the variable. `ABS in` removes two: the
  lambda and the constituent before it. The code is followed here, although the rules
  are usually described as changing the length by one.
- **Category equality ignores the slash direction.** `Categories.DirectionNotCompared`
  shows that `s/dp` equals `s\dp`.
- **The sequent prover's `ABS in` can duplicate a constituent.** Several constituents
  can carry the same `v<n>` category. A lexicon `v` parsed right after an `l` gets the
  name the `l` drew, so a sentence that repeats such a word holds that `v<n>` twice.
  `ABS in` then copies the displaced constituent into each of them. That is the only
  recursive call that does not shrink the measure (`qrlimit - qrcount`, total category
  size). The model therefore gives each step that fills two or more gaps one unit of a
  `fuel` parameter.

## Model

| member | source | states |
|---|---|---|
| PyStr.IndexOf | sequent.py:249-250 | `s.index(c)`: the first position of `c` (no earlier `c`), and None (the ValueError) exactly when `c` is absent |
| PyStr.FindFrom | sequent.py:184 | `s.find(pat, start)`: the first occurrence at or after `start`, or -1 exactly when there is none |
| PyStr.PyIndex | sequent.py:187 | Python indexing: defined exactly for `-len <= i < len`, negative indices counting from the end |
| PyStr.PySlice | sequent.py:188 | Python slicing agrees with the plain slice on in-range bounds and is never longer than the string |
| PyStr.Strip | sequent.py:251-253 | `strip()` returns the slice that starts where the leading white space ends, with no white space at either end, and everything cut off on either side is white space |
| PyStr.StripStartSpaces | sequent.py:251-253 | what `strip()` drops at the front is white space |
| PyStr.StripEndSpaces | sequent.py:251-253 | what `strip()` drops at the back is white space |
| PyStr.Split | sequent.py:246 | `split(sep)` yields at least one piece, none containing the separator |
| PyStr.SplitJoin | sequent.py:447 | joining the pieces of `split(sep)` with `sep` gives back the text |
| PyStr.ReplaceCharRemoves | sequent.py:247 | replacing a character by a text free of it leaves none of it |
| PyStr.CountReplace | sequent.py:194 | replacing by a text free of `c` never adds a `c`, and removes one when the pattern holds `c` and occurs |
| PyStr.NatToString | sequent.py:111 | `str(n)` is a non-empty string of digits whose decimal value is `n`, with no leading zero |
| PyStr.NatToStringInjective | sequent.py:111 | distinct counter values give distinct names, so each fresh `<n>` and gap name is new |
| Brackets.FindBracketPair | sequent.py:23-43 | from `(` the first later index where the net depth returns to zero, from `)` the last earlier one; IndexError when out of range or running off the end; the "Parenthesis not found" exception on any other character |
| Brackets.FindBracketPairForward | tlg_parser.py:14-23 | from an opening parenthesis the loop returns its matching close, or IndexError when it has none |
| Brackets.FindBracketPairRejects | tlg_parser.py:32-33 | a character that is not a parenthesis raises |
| Brackets.MatchingClose | sequent.py:25-32 | the matching close is a `)` after `i` at which the depth is back to zero, with the group open before it; none when it stays open |
| Brackets.MatchingCloseUnique | sequent.py:25-32 | any index with those two properties is the matching close |
| Brackets.StripBrackets | sequent.py:46-50 | `stripbrackets` never lengthens the text; it raises exactly on empty text or on a leading `(` and final `)` whose leading parenthesis is never closed, and then with IndexError |
| Brackets.StripBracketsRemovesOuterPair | sequent.py:47-48 | the outer pair is removed exactly when the leading `(` is matched by the final `)`, and nothing else is ever removed |
| Brackets.StripBracketsKeepsSeparateGroups | tlg_parser.py:37-41 | `(a)/(b)` is returned unchanged |
| Brackets.TopSlashFrom | sequent.py:78-92 | reference slash search: the first slash at depth 0 and its direction; with none, IndexError if a group is left open and "Invalid type" otherwise |
| Brackets.FindTopSlash | sequent.py:79-92 | the source's loop, jumping over parenthesised groups with `findbracketpair`, returns exactly the reference slash search |
| Brackets.SkipGroup | sequent.py:81-82 | jumping over a whole group passes no depth-0 slash |
| Brackets.UnclosedGroup | sequent.py:81-82 | a group never closed makes the search raise IndexError |
| Categories.Cleaned | sequent.py:69 | the text after removing spaces and `stripbrackets` is no longer than the input |
| Categories.CleanedSingle | sequent.py:69 | a one-character category other than a space or a bracket is left as it is by the cleaning |
| Categories.ParseClean | sequent.py:70-112 | a parsed category is well formed; it is a function exactly when its text holds a slash; its text is the cleaned text plus the gap suffix; it is a lambda gap exactly when the text holds `l`, and a variable gap exactly when it holds `v` but no `l`; a gap's name is the counter after the constructor; a lambda draws a fresh counter value; the slash search's exception propagates |
| Categories.ParseType | sequent.py:68-69 | the constructor cleans its input and raises what cleaning raises |
| Categories.ParseSplit | sequent.py:78-102 | a function category is split at the first depth-0 slash, `left` parsed from the text before it and `right` from the rest; `top`/`bottom` are `left`/`right` for `/` and `right`/`left` for `\` |
| Categories.NewSyntacticType | sequent.py:68-112 | the constructor written with its loop gives the same category and counter as the reference |
| Categories.NewParts | sequent.py:94-95 | the two recursive constructions, `left` before the slash and then `right` after it with the counter `left` leaves, agree with the reference |
| Categories.ParseCanonical | sequent.py:69 | parsing the text of a gap-free category, or of it in parentheses, gives the category back without drawing a counter |
| Categories.EqReflexive | sequent.py:128-132 | `__eq__` is reflexive |
| Categories.EqSymmetric | sequent.py:128-132 | `__eq__` is symmetric |
| Categories.EqTransitive | sequent.py:128-132 | `__eq__` is transitive on well-formed categories |
| Categories.EqFunctionAtom | sequent.py:129-130 | a function category never equals an atom |
| Categories.EqIgnoresDirection | sequent.py:131-132 | changing a function category's slash, text or gap does not change what it equals |
| Categories.DirectionNotCompared | sequent.py:128-132 | `s/dp` and `s\dp` parse to categories with different slashes that are equal |
| Terms.Unbracket | sequent.py:142-145 | text that starts with `[` and ends with `]` loses exactly that pair; other text is kept; empty text is an IndexError; never more `L`s than before |
| Terms.NewDenotation | sequent.py:141-208 | a constructed term has the recorded structure (reduced form one hop deep, lambdas with a body carry their variable), and the counter never decreases |
| Terms.NewDenotationCases | sequent.py:142-202 | empty text raises; the kind is lambda exactly for a leading `L` and variable exactly for `var`, which draws the next counter value; any other text is kept as it is |
| Terms.LiteralTerm | sequent.py:141-149 | a literal is kept with no structure and no counter drawn |
| Terms.LambdaRenaming | sequent.py:192-195 | `Lx.rest` is renamed to `L<sv+1>.` plus the printed body, in which `x` is replaced by `<sv+1>` |
| Terms.EtaCollapse | sequent.py:183-188 | `L<k>.f(<k>)` simplifies to `f`, and records no body |
| Terms.NumberedEta | sequent.py:183-188 | when the variable's first occurrence after the dot is a final `(<n>)`, the lambda is the eta-reducible one: no body, and it renders as the function before the `(`, with that function's error when it has one |
| Terms.NumberedPlain | sequent.py:182-191 | when the variable's first occurrence after the dot is not a final `(<n>)`, the lambda keeps its text, takes `<n>` as its variable and the parsed rest as its body, and fails exactly when that body fails |
| Terms.NewApplication | sequent.py:151-162 | application re-parses the function; a lambda with a body is beta reduced by textual replacement; any other term is written `f(a)`; a lambda without a body raises AttributeError |
| Terms.EtaApplicationFails | sequent.py:158-159 | applying a re-parsed eta-collapsible lambda always raises AttributeError |
| Terms.LexiconVerbCannotApply | sequent.py:192-195 | a lexicon verb `Lx.f(x)` is renamed to that eta shape, so it can never be applied |
| Terms.SnoreCannotApply | sequent.py:158-159 | `L1.snore(1)` cannot be applied to any argument |
| Terms.TwoPlaceApplies | sequent.py:151-162 | a two-place entry `L1.L2.f(2,1)` is renamed to `L<1>.L<2>.f(<2>,<1>)`; applying it to `j` gives `L<2>.f(<2>,j)`, and applying that to `k` gives `f(k,j)`, with no counter drawn by the applications |
| Terms.KnowsApplies | tlg_parser.py:274 | the `knows` entry applied to `j` and then to `k` is `know(k,j)` |
| Terms.TwoPlaceRenamed | sequent.py:192-195 | renaming `L1.L2.f(2,1)` from counter 0 numbers the outer variable `<1>` and the inner `<2>` |
| Terms.TwoPlaceOuter | sequent.py:182-191 | the re-parsed `L<1>.L<2>.f(<2>,<1>)` is a lambda over `<1>` whose body is the lambda over `<2>` with the literal body `f(<2>,<1>)` |
| Terms.TwoPlaceInner | sequent.py:182-191 | `L<2>.f(<2>,x)` is a lambda over `<2>` whose body is the literal `f(<2>,x)`, and draws no counter |
| Terms.ApplyLambda | sequent.py:151-162 | applying a lambda with a body replaces its variable by the argument's text in the body's text and parses the result |
| Terms.NewSubstitution | sequent.py:164-173 | explicit replacement replaces every occurrence when there is one, and otherwise appends the deferred `[r/e]` marker |
| Terms.LiteralApplication | sequent.py:151-162 | applying a literal function always succeeds, writes `f(a)` with the argument's text, and draws no counter |
| Terms.LiteralSubstitution | sequent.py:164-173 | explicit replacement in a literal succeeds: where the replacee occurs and the result is again a literal, every occurrence is replaced; where it does not, the `[r/e]` marker is appended; no counter is drawn |
| Terms.ReducedOf | sequent.py:204-208 | the reduced form is taken one hop ahead and prints like the simplification |
| Terms.ReprOneHop | sequent.py:210-214 | a term prints as its reduced form's text when it has one |
| Terms.ReduceFrom | sequent.py:227-236 | `reducestring` leaves no `<`; text without `<` is unchanged; the only failure is the endless loop (what the renaming produces is in `Renaming.ReduceCanonical`) |
| Terms.ReduceStringLoop | sequent.py:227-236 | the source's while loop computes the reference renaming, or loops forever when the reference does |
| Terms.ReduceStepShrinks | sequent.py:230-234 | a pass whose `<` has a later `>` removes at least one `<` |
| Terms.ReduceStepStuck | sequent.py:231-234 | a pass whose `<` has no later `>` changes nothing, so the loop never ends |
| Terms.ReduceOneVariable | sequent.py:227-236 | `L<d>.f(<d>)` renames to `L{0}.f({0})` |
| Terms.Eq | sequent.py:216-224 | the only failure is an endless renaming; identical texts are equal; otherwise the terms are equal exactly when the first holds `<` and both rename to the same text (its meaning as alpha equivalence is in `Renaming.EqMeaning` and `Renaming.EqRenamed`) |
| Renaming.ReduceFromCanon | sequent.py:229-235 | the source's loop, started after the variables `seen` were renumbered, ends with the reference renaming of the rest |
| Renaming.ReduceCanonical | sequent.py:227-236 | on any text whose angle brackets surround variables, `reducestring` renumbers the variables `{0}`, `{1}`, … in order of first appearance, every occurrence of one variable getting the same number |
| Renaming.CanonRename | sequent.py:227-236 | a one-to-one renaming of the variables does not change the reference renaming |
| Renaming.EqMeaning | sequent.py:216-224 | on such texts `__eq__` never fails, and it holds exactly when the texts are identical or the first has a variable and both have the same reference renaming |
| Renaming.EqRenamed | sequent.py:216-224 | alpha equivalence: a term and any one-to-one renaming of its variables are equal |
| Terms.AlphaEquivalent | sequent.py:216-222 | `L<3>.f(<3>)` equals `L<8>.f(<8>)` |
| Search.Cool | sequent.py:53-57 | `cool` lowers by one and never goes below zero |
| Search.AnyEqualFrom | sequent.py:409-412 | the scan finds an equal term exactly when some comparison is true; it fails exactly when some comparison never ends |
| Search.AddDenotation | sequent.py:407-416 | with `uniquedenotations` off, the term is always appended; with it on, it is appended exactly when no listed term equals it, and otherwise the list is kept; the result extends the list and stays duplicate-free |
| SearchLoops.AddDenotationLoop | sequent.py:407-416 | the loop computes `AddDenotation` |
| Search.AddAll | sequent.py:382-383 | adding a child's terms never shortens the list, leaves it non-empty when it was non-empty or a term was offered, and keeps it duplicate-free under `uniquedenotations` |
| SearchLoops.AddAllLoop | sequent.py:382-383 | the loop computes `AddAll` |
| SearchTerms.AddAllPlain | sequent.py:407-408 | with `uniquedenotations` off, adding the terms appends them all, in order |
| SearchTerms.AddAllGathered | sequent.py:409-416 | with `uniquedenotations` on, the old terms stay in front, every term added is one of those offered, and every term offered was added or equals one in the result |
| SearchTerms.AddAllCollects | sequent.py:382-383 | adding a child's terms is, in either mode, collecting exactly them as above |
| Search.Node | sequent.py:276-405 | a node keeps its inputs; it is valid exactly when it has terms, and exactly when the axiom holds or it recorded an alternative; every recorded alternative has valid children with its rule's goal, `qrcount`, cooldown and constituent count; the axiom node has exactly the constituent's term and records nothing; an empty list gives an invalid node without terms; the counters never go back |
| SearchLoops.Build | sequent.py:276-405 | the constructor written with its loops returns exactly `Node` |
| SearchLog.AltsExact | sequent.py:294-405 | the alternatives the constructor tries are exactly the applicable ones: the right rule for a function goal; `\L` for every non-empty span ending just before a backslash functor; `/L` for every non-empty span starting just after a slash functor; `ABS out` below `qrlimit` at every function not followed by a lambda gap; `ABS in` at every lambda gap after the first position when the cooldown is 0 and there are more than two constituents |
| SearchLog.NodeSearch | sequent.py:276-405 | a node that is neither an axiom nor empty tries every applicable alternative and nothing else; each attempt's children are the exact sequents its rule builds; its subtrees are the children of the attempts whose children all succeeded, in order; it is valid exactly when one attempt succeeded; every child is the node built for its own sequent, so the statement applies again to each child |
| SearchLog.NodeOfNode | sequent.py:276-405 | whatever node the search returns for a sequent within the fuel is recorded as that sequent's own node, the fact `NodeSearch` hands down to every child |
| SearchLog.NodeRules | sequent.py:294-405 | such a node's subtrees, validity and terms are those its rule loops leave |
| SearchLog.ExactLog | sequent.py:294-405 | a shaped log of `Alts` holds an attempt for each applicable alternative and only for those |
| SearchLog.SuccessesNonEmpty | sequent.py:308-309 | something is recorded exactly when some attempt succeeded |
| Search.Rules | sequent.py:294-405 | trying the right rule, the left rules, `ABS out` and `ABS in` in turn keeps the loop invariant (valid exactly when something is recorded and exactly when there are terms; every recorded alternative has valid children with its rule's bookkeeping; distinct terms under `uniquedenotations`) and never moves the counters back |
| SearchLoops.RulesLoop | sequent.py:294-405 | the rule applications written as statements compute `Rules` |
| SearchLog.RulesLog | sequent.py:294-405 | the rules try exactly `Alts`, in order; every attempt has the children its rule builds, and the subtrees are exactly the successful attempts |
| Search.RightRule | sequent.py:296-312 | the right-rule step keeps the loop invariant and never moves the counters back |
| SearchLoops.RightRuleLoop | sequent.py:296-312 | the right-rule code computes `RightRule` |
| SearchLog.RightRuleLog | sequent.py:296-312 | the right rule tries one child: the goal's result from `[v] + cs` for `\` or `cs + [v]` for `/`, `v` a fresh variable of the argument category; the child is recorded exactly when valid, and then the terms are those `AddLambdas` makes over `v` from the child's terms; otherwise they are unchanged |
| SearchLog.RightRuleGrown | sequent.py:296-312 | the attempt the right rule records is new and its child is the node built for `[v] + cs` or `cs + [v]` |
| SearchTerms.RightRuleTerms | sequent.py:311-312 | when the right rule's child is valid, the node collects exactly the lambdas over `v` of the child's terms |
| Search.AddLambdas | sequent.py:311-312 | abstracting the child's terms never shortens the list, leaves it non-empty when a term is offered, keeps it duplicate-free under `uniquedenotations`, and never moves the counter back |
| SearchLoops.AddLambdasLoop | sequent.py:311-312 | the loop computes `AddLambdas` |
| SearchTerms.LambdasAddAll | sequent.py:311-312 | abstracting the child's terms is `AddAll` of the list of lambdas `L<v>.t`, one per child term `t`, in order |
| SearchTerms.LambdasAdded | sequent.py:311-312 | the terms the right rule adds are the lambdas of the child's terms collected in either mode |
| SearchTerms.MappedAt | sequent.py:311-312 | each element of a list built term by term, the counter threaded through, is the term built from the matching input |
| SearchTerms.LambdaAt | sequent.py:312 | the lambda built for a child term is the `Denotation` of `L`, the variable's text, `.` and that term's text |
| Search.LeftRules | sequent.py:315-358 | the left rules over every functor keep the loop invariant and never move the counters back |
| SearchLoops.LeftRulesLoop | sequent.py:315-317 | the loop over functors computes `LeftRules` |
| SearchLog.LeftRulesLog | sequent.py:315-358 | the left rules from position `counter` on try exactly `LeftAlts`: every non-empty span on the argument side of every functor, in order, each with the children its rule builds |
| Search.BackSpans | sequent.py:318-337 | the `\L` spans of one functor keep the loop invariant and never move the counters back |
| SearchLoops.BackSpansLoop | sequent.py:320 | the loop over `i` from `counter-1` down to 0 computes `BackSpans` |
| Search.SlashSpans | sequent.py:338-358 | the `/L` spans of one functor keep the loop invariant and never move the counters back |
| SearchLoops.SlashSpansLoop | sequent.py:340 | the loop over `i` upward computes `SlashSpans` |
| Search.BackSpansEntries | sequent.py:318-337 | every `\L` alternative recorded for the functor at `counter` takes the span `cs[i:counter]`, with the continuation holding the prefix, one constituent of the result category and the suffix; spans are recorded narrowest first |
| Search.SlashSpansEntries | sequent.py:338-358 | every `/L` alternative takes the span `cs[counter+1:i+1]`, with the continuation built the same way; spans are recorded narrowest first |
| SearchLog.BackSpansLog | sequent.py:318-337 | the `\L` loop tries every start from `counter - 1` down to 0, in that order, each with the children its rule builds |
| SearchLog.SlashSpansLog | sequent.py:338-358 | the `/L` loop tries every end from `counter + 2` up to `len(cs)`, in that order, each with the children its rule builds |
| Search.BackStep | sequent.py:320-330 | one `\L` span before the wider ones keeps the spans ordered and wider than the last |
| Search.SlashStep | sequent.py:340-351 | the same for `/L` |
| Search.LeftStep | sequent.py:321-337 | one left-rule alternative keeps the loop invariant and records at most one entry: the argument child over the span, and the continuation with `before`, one constituent of the result category and `after` |
| SearchLoops.LeftStepLoop | sequent.py:321-337 | the code computes `LeftStep` |
| SearchLog.LeftStepLog | sequent.py:321-337 | one left-rule alternative tries the span child with the argument category; only when it is valid, the continuation `before + [v] + after` with the goal, `v` a fresh variable of the result category; the pair is recorded exactly when both are valid, and then the terms are those `AddPairs` makes |
| SearchLog.LeftStepGrown | sequent.py:321-337 | the attempt one left-rule alternative records is new and each of its children is the node built for its own sequent |
| SearchTerms.LeftStepTerms | sequent.py:332-337 | when both children are valid, the node collects exactly the pair terms of the continuation's and the argument's terms |
| Search.LeftContinue | sequent.py:324-337 | the continuation keeps the loop invariant and records at most one entry, the given argument child with the continuation of `before`, one constituent of the result category and `after` |
| SearchLoops.LeftContinueLoop | sequent.py:324-337 | the code computes `LeftContinue` |
| SearchLog.LeftContinueLog | sequent.py:324-337 | the continuation is `before + [v] + after` with the goal, `v` a fresh variable of the result category; the pair with the argument child is recorded exactly when it is valid, and then the terms are those `AddPairs` makes |
| SearchLog.LeftContinueGrown | sequent.py:324-337 | the attempt recorded for the continuation is new and both its children are the nodes built for their own sequents |
| Search.AddPairs | sequent.py:332-337 | combining the terms never shortens the list, leaves it non-empty when there is a pair or it was non-empty, keeps it duplicate-free under `uniquedenotations`, and never moves the counter back |
| SearchLoops.AddPairsLoop | sequent.py:332-337 | the nested loops compute `AddPairs` |
| SearchTerms.RowAddAll | sequent.py:333-337 | the inner loop over the argument's terms is `AddAll` of its row of substitution terms, in order |
| SearchTerms.PairsAddAll | sequent.py:332-337 | the nested loops are `AddAll` of all pair terms, continuation term by continuation term |
| SearchTerms.PairsAdded | sequent.py:332-337 | the terms the left rule adds are those pair terms collected in either mode |
| SearchTerms.RowAt | sequent.py:334-336 | the term built for a pair substitutes the functor applied to the argument's term for the variable in the continuation's term |
| Search.QrRules | sequent.py:361-383 | `ABS out` over every position keeps the loop invariant and never moves the counters back |
| SearchLoops.QrRulesLoop | sequent.py:361-383 | the loop computes `QrRules` |
| SearchLog.QrRulesLog | sequent.py:361-383 | `ABS out` from position `counter` on tries exactly the functions not followed by a lambda gap, in order, each with the child its rule builds |
| Search.QrStep | sequent.py:364-383 | one `ABS out` alternative keeps the loop invariant and never moves the counters back |
| SearchLoops.QrStepLoop | sequent.py:364-383 | the code computes `QrStep` |
| SearchLog.QrStepLog | sequent.py:364-383 | one `ABS out` tries the child `[c, l] + cs[:counter] + [v] + cs[counter+1:]` with the goal, `qrcount + 1` and `cooldownperiod`, where `l` and `v` share a fresh gap name; it is recorded exactly when valid, and then its terms are added; otherwise nothing changes |
| SearchLog.QrStepGrown | sequent.py:364-383 | the attempt one `ABS out` records is new and its child is the node built for its own sequent |
| SearchTerms.QrStepTerms | sequent.py:381-383 | when the `ABS out` child is valid, the node collects exactly its terms |
| Search.QrGaps | sequent.py:374-376 | `l` draws a fresh lambda-gap number and `v` reuses it; the terms `l` and `v` are literals |
| Search.AbsInRules | sequent.py:385-405 | `ABS in` over every position keeps the loop invariant and never moves the counters back |
| SearchLoops.AbsInRulesLoop | sequent.py:385-405 | the loop computes `AbsInRules` |
| SearchLog.AbsInRulesLog | sequent.py:385-405 | `ABS in` from position `counter` on tries exactly the lambda gaps after the first position, in order, each with the child its rule builds |
| Search.AbsInStep | sequent.py:387-405 | one `ABS in` alternative keeps the loop invariant and never moves the counters back |
| SearchLoops.AbsInStepLoop | sequent.py:387-405 | the code computes `AbsInStep` |
| SearchLog.AbsInStepLog | sequent.py:387-405 | one `ABS in` tries the child made of `cs[:counter-1] + cs[counter+1:]` with every constituent of the gap's `v` category replaced by `cs[counter-1]`, with the goal and cooldown 0; it is recorded exactly when valid, and then its terms are added; otherwise nothing changes |
| SearchLog.AbsInStepGrown | sequent.py:387-405 | the attempt one `ABS in` records is new and its child is the node built for its own sequent, with one unit of fuel less when the gap had two or more copies |
| SearchTerms.AbsInStepTerms | sequent.py:403-405 | when the `ABS in` child is valid, the node collects exactly its terms |
| Search.AbsInWeight | sequent.py:396-400 | with at most one gap refilled, `ABS in` lowers the total category size |
| Search.RecordStep | sequent.py:308-312 | recording a valid alternative with its terms keeps the node invariant |
| Driver.LineEntry | sequent.py:247-253 | a line without `:` or `-` raises ValueError; a line's entry is named as its text before `:` |
| Driver.LineAt | sequent.py:251-253 | the name is the stripped text before `:`, the category is parsed from the stripped text between `:` and `-`, and the term text is the stripped rest |
| Driver.Append | sequent.py:252-253 | one line adds its category and its term text at the end of its own name's lists and changes no other name |
| Driver.LinesFrom | sequent.py:246-253 | the constructor's loop keeps every name's two lists the same length |
| Driver.ParseSLexicon | sequent.py:243-253 | every name in the lexicon has as many categories as term texts |
| Driver.LinesFromTypes | sequent.py:246-252 | a name's category list grows by exactly one entry per line that defines it, and keeps what it had in front |
| Driver.LinesFromDenotations | sequent.py:246-253 | the same for the term texts |
| Driver.LinesFromNext | sequent.py:251-253 | the first remaining line that defines a name supplies that name's next category and term text |
| Driver.ParseSLexiconLists | sequent.py:243-253 | in the lexicon of a text every name has one category and one term text per line that defines it |
| Driver.NewSLexicon | sequent.py:243-253 | the constructor's loop computes `ParseSLexicon` |
| Driver.ProductLength | sequent.py:463 | `itertools.product` yields as many choices as the product of the list lengths |
| Driver.ProductMember | sequent.py:463 | a choice is produced exactly when it takes one element from each list, in order |
| Driver.ProductEmpty | sequent.py:463 | an empty list leaves nothing to choose |
| Driver.DefaultGoal | sequent.py:448-449 | the default goal `s` is the plain atom and draws no counter |
| Driver.WordFrom | sequent.py:460-461 | one word's constituents pair each category with the term parsed from its text; a missing text is an IndexError |
| Driver.WordsFrom | sequent.py:456-461 | there is one constituent list per word, as long as the word's category list |
| Driver.BasesFrom | sequent.py:464-468 | everything kept is a valid `LEX` node over one of the remaining choices with the goal, and nothing more is kept than there are choices |
| Driver.AllNodes | sequent.py:464-465 | one node per choice, in order, each a `LEX` node over that choice with the goal |
| Driver.ProvedMember | sequent.py:466-468 | a node is kept exactly when it is one of those built and is valid |
| Driver.BasesAll | sequent.py:464-468 | the loop keeps exactly the valid nodes among all those built, in the order of the choices, and fails exactly when building one fails |
| Driver.ChartOf | sequent.py:444-468 | the words are the sentence split at spaces; the goal defaults to `s`; there is one constituent list per word; each base sequence is a valid `LEX` node over a choice from the product; the chart is valid exactly when some base sequence was kept |
| Driver.ChartBases | sequent.py:444-468 | the base sequences are exactly the valid nodes over all choices of one entry per word, in product order, and the chart is valid exactly when one of those nodes is |
| Driver.UnknownWordInvalid | sequent.py:457-463 | a sentence with a word the lexicon does not define has no derivation |
| Driver.BaseChoosesPerWord | sequent.py:463-467 | a base sequence takes one constituent of each word, in order |
| Driver.WordLoop | sequent.py:460-461 | the inner loop computes `WordFrom` |
| Driver.WordsLoop | sequent.py:456-461 | the word loop computes `WordsFrom` |
| Driver.BasesLoop | sequent.py:464-468 | the loop over the choices computes `BasesFrom` |
| Driver.NewChart | sequent.py:444-468 | the constructor computes `ChartOf` |
| Lambek.ParseLClean | tlg_parser.py:80-103 | a category keeps its cleaned text and is a function exactly when the text holds a slash; the slash search's exception propagates |
| Lambek.ParseLType | tlg_parser.py:79-80 | the constructor cleans its input and raises what cleaning raises |
| Lambek.CanonParts | tlg_parser.py:102-103 | the two sides of a parsed function category are parsed categories |
| Lambek.ParsersAgree | tlg_parser.py:79-103 | on text free of `l` and `v` both parsers give the same category (or the same error), and the sequent prover's parser draws no counter |
| Lambek.LeftElimination | tlg_parser.py:45-48 | returns `t2.right` exactly when `t2` is a left slash whose `left` has the text of `t1`, and a smaller category |
| Lambek.RightElimination | tlg_parser.py:51-54 | returns `t1.left` exactly when `t1` is a right slash whose `right` has the text of `t2` |
| Lambek.Semantictype | tlg_parser.py:120-134 | defined exactly when every atom is in the table, else KeyError; an atom maps through the table; for `\` the argument is the left side and for `/` the right side |
| Lambek.TransitiveVerbType | tlg_parser.py:6-10 | `(dp\s)/dp` has semantic type `(e,(e,t))` |
| Lambek.NewLDen | tlg_parser.py:145-157 | raises exactly when the text has an `L` but no `.`; satiated exactly when it has no `L`; otherwise, the variable is the text between the first `L` and the first `.` and the body is everything after that `.` |
| Lambek.FunctionApplication | tlg_parser.py:70-74 | raises unless the argument's semantic type equals the function's argument type; when it does and the function has a variable and a body, the result is the `Denotation` of the goal type built from the body with every occurrence of the variable replaced by the argument's text |
| Lambek.ApplicationBindsVariable | tlg_parser.py:72 | after application a one-character variable absent from the argument no longer occurs |
| Lambek.SnoresExample | tlg_parser.py:271 | `L1.snore(1)` applied to `k` is `snore(k)` of type `t` |
| Lambek.NewLConstituent | tlg_parser.py:183-196 | the end defaults to start + 1; the length is end − start; the subconstituents default to none; it raises exactly when the semantic type does |
| Lambek.Elimination | tlg_parser.py:57-66 | nothing exactly when neither rule applies; left elimination first, applying the right term to the left, else right elimination applying the left term to the right |
| Lambek.EliminationTyped | tlg_parser.py:57-74 | on typed constituents only AttributeError or ValueError can be raised, and a result is again a parsed, typed category with a well-formed term |
| LambekChart.Entry | tlg_parser.py:169-171 | a line without `:` or `-` raises ValueError |
| LambekChart.EntryAt | tlg_parser.py:171-174 | the name is the stripped text before `:`, the category is parsed from the text up to `-`, and the term gets that category's semantic type |
| LambekChart.EntriesFrom | tlg_parser.py:168-174 | the lexicon is built only when every line is an entry |
| LambekChart.ParseLexiconInv | tlg_parser.py:165-174 | every name has a category and a term, and the term carries the category's semantic type |
| LambekChart.EntriesFromKeeps | tlg_parser.py:172-174 | a name that no later line defines keeps its category and term |
| LambekChart.EntriesFromLast | tlg_parser.py:172-174 | the last line that defines a name gives its category and term |
| LambekChart.NewLexicon | tlg_parser.py:165-174 | the constructor's loop computes `ParseLexicon` |
| LambekChart.Combine | tlg_parser.py:248-252 | a combination is only attempted when `arc.end == constituent.start`; it spans `arc.start` to `constituent.end` with subconstituents `[arc, constituent]` |
| LambekChart.CombineTyped | tlg_parser.py:248-252 | typed constituents combine into a typed one, raising at most AttributeError or ValueError |
| LambekChart.CombosFromHas | tlg_parser.py:248-252 | every combination of a chart constituent with the new one is put on the agenda |
| LambekChart.CombosFromOnly | tlg_parser.py:248-252 | everything added to the agenda is such a combination |
| LambekChart.CombosFromErr | tlg_parser.py:248-252 | an exception is that of one combination |
| LambekChart.WordItem | tlg_parser.py:235-237 | a word's constituent spans one word from the current position; a word the lexicon lacks raises TypeError |
| LambekChart.WordItemTyped | tlg_parser.py:235-237 | with a lexicon the constructor built, a word is read exactly when the lexicon has it, and is typed |
| LambekChart.Step | tlg_parser.py:230-232 | taking the first agenda item keeps the chart invariant and lowers the termination measure |
| LambekChart.StepErr | tlg_parser.py:230-232 | a step raises only AttributeError or ValueError |
| LambekChart.Chart.constructor | tlg_parser.py:221-226 | the words are the sentence split at spaces; the agenda and constituents are empty; the position is 0 |
| LambekChart.Chart.InterpretWord | tlg_parser.py:235-237 | the current word's constituent is appended to the agenda, and nothing else changes |
| LambekChart.Chart.AddConstituent | tlg_parser.py:239-252 | the constituent is appended to `constituents`, and its combinations with every existing constituent are appended to the agenda in order |
| LambekChart.Chart.WorkAgenda | tlg_parser.py:230-232 | the FIFO agenda loop terminates with an empty agenda and the chart invariant |
| LambekChart.Chart.Fill | tlg_parser.py:228-233 | the parse terminates. The chart then holds every word's constituent, and only words and combinations of chart constituents. It is closed under combination, and every word was in the lexicon. The only exceptions are TypeError for an unknown word, and AttributeError or ValueError from a combination |

## Left out

- Printing and display code (`print`, `printstructure`, `__repr__`, `printsentence`,
  `returnchart`, `printconstituents`) is pure formatting whose output is not modelled.
  The one exception is `str(denotation)`, which the term engine relies on (`Terms.Repr`).
- The module-level file reading and sentence loop (sequent.py:486-495) and the demo
  runs (tlg_parser.py:284-293) are I/O and scripts.
- Global mutable state is passed explicitly. `varcounter` and `semvarcounter` are
  threaded through as parameters and results. `qrlimit`, `cooldownperiod` and
  `uniquedenotations` are fields of a `Config` parameter instead of module constants.
- `Search.Node`: an `ABS in` step that fills two or more `v<n>` gaps spends one unit of
  `fuel`. A search that would need more returns `Err(OutOfFuel)`, which the source never
  does. A step that fills at most one gap never spends fuel (`Search.AbsInWeight`), so
  `Err(OutOfFuel)` comes only from lists holding one `v<n>` category more than once.
- Search.Node: its own contract gives only soundness. Completeness (every applicable
  alternative is tried, with the exact child sequents) and validity exactly when some
  attempt succeeds are in `SearchLog.NodeSearch`.
- Rules: its contract keeps only the loop invariant. What it tries and records is in
  `SearchLog.RulesLog` and `SearchLog.NodeSearch`.
- RightRule: its contract keeps only the loop invariant. The child sequent and when it
  is recorded are in `SearchLog.RightRuleLog`; the terms are in `SearchTerms.RightRuleTerms`.
- AddLambdas: its contract gives sizes and distinctness only. The lambdas it adds are in
  `SearchTerms.LambdasAddAll`, `SearchTerms.LambdaAt` and `SearchTerms.LambdasAdded`.
- LeftRules: its contract keeps only the loop invariant. That it tries every applicable
  span of every functor is in `SearchLog.LeftRulesLog`.
- BackSpans: its contract keeps only the loop invariant. The spans and their order are in
  `Search.BackSpansEntries`; that every span is tried is in `SearchLog.BackSpansLog`.
- SlashSpans: the same, in `Search.SlashSpansEntries` and `SearchLog.SlashSpansLog`.
- LeftStep: its contract gives the shape of the entry it may record, but not when it
  records it. That is in `SearchLog.LeftStepLog`; the terms are in
  `SearchTerms.LeftStepTerms`.
- LeftContinue: the same. When it records is in `SearchLog.LeftContinueLog`.
- AddPairs: its contract gives sizes and distinctness only. The pair terms it adds are
  in `SearchTerms.PairsAddAll`, `SearchTerms.RowAt` and `SearchTerms.PairsAdded`.
- AddAll: its contract gives sizes and distinctness only. Which terms it adds is in
  `SearchTerms.AddAllPlain`, `SearchTerms.AddAllGathered` and `SearchTerms.AddAllCollects`.
- QrRules: its contract keeps only the loop invariant. That every applicable position
  is tried is in `SearchLog.QrRulesLog`.
- QrStep: its contract keeps only the loop invariant. The child sequent and when it is
  recorded are in `SearchLog.QrStepLog`; the terms are in `SearchTerms.QrStepTerms`.
- AbsInRules: its contract keeps only the loop invariant. That every lambda gap is
  tried is in `SearchLog.AbsInRulesLog`.
- AbsInStep: its contract keeps only the loop invariant. The child sequent and when it
  is recorded are in `SearchLog.AbsInStepLog`; the terms are in `SearchTerms.AbsInStepTerms`.
- Terms.ReduceFrom: its contract does not say what the renaming produces. That is in
  `Renaming.ReduceCanonical`, which covers texts whose angle brackets surround variables.
  Texts with a stray `>` are not characterised.
- Terms.Eq: its contract follows the source's branches. That it is alpha equivalence is
  in `Renaming.EqMeaning` and `Renaming.EqRenamed`.
- Driver.BasesFrom: its contract gives soundness only. That every valid node is kept is
  in `Driver.BasesAll`.
- Driver.ChartOf: the same, in `Driver.ChartBases`.
- The step lemmas of `SearchLog` and `SearchTerms` name the counters a child is built
  with only where the terms need them. They do not relate the counters between steps.
- `Sequence` and sequent-prover `Constituent` objects are modelled as values. The source
  never changes them after the constructor returns. In the constructor, the loop state
  (`subtrees`, `isvalid`, `denotations`) is a record passed from one iteration to the
  next.
- The sequent prover's `Lexicon` and `Chart` are values built by a method with the
  source's loops. They are not classes, because nothing updates them after
  construction. The tlg parser's `Lexicon` is treated the same way.
- A lookup of a missing word in the `defaultdict` yields the empty list,
  but the empty entry it would insert is not modelled. Nothing reads the dictionaries
  again.
- `itertools.product` is a function computing the list of all choices. It is not a
  lazy iterator.
- The `is not` string comparisons (sequent.py:248, 370) are value comparisons.
- Identity-based `Denotation` (`Denotation('var')` objects) and the `replacer` and
  `replacee` attributes, which are stored but never read, are not modelled.
- LambekChart.Chart.Fill: the tlg `Chart.__init__` is split into the constructor, which
  sets the fields, and `Fill`, which runs the loops. The state after an exception is
  left unspecified.
- Driver.NewChart: the contents of the agenda iterator after an exception are not
  modelled.
