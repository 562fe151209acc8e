# ReactionCompleter driver and test helpers in Dafny

This project models the orchestration layer of ReactionCompleter. That layer balances
chemical-synthesis recipes extracted from papers. `balance_recipe` (reaction_completer/driver.py)
does four things:

- It expands every target whose composition mentions an element variable into one
  `(target, {variable: element})` pair per candidate element.
- It screens the precursors, dropping those whose formula cannot be parsed.
- It tries to balance each pair against all the precursors.
- When there are too many precursors, it retries with the precursors mentioned in the same
  sentence of the paper.

The error hierarchy (reaction_completer/errors.py) decides which failures skip a pair and
which escape.

The test helpers (reaction_completer/test/reaction_tester.py) are modelled too:

- the compact composition-string parser `simple_parse`;
- `make_material(s)`;
- the equation parser `_parse_equation`;
- the order-insensitive comparison `assertReactionsEqual`.

Files:

- `wrappers.dfy`: `Option` and `Result`, which stands for a Python call that returns or raises.
- `errors.dfy`: the exception classes as a datatype, with `isinstance`.
- `text.dfy`: the string operations the code relies on:
  - removing `\s` characters;
  - `str.split` with and without `maxsplit=1`;
  - `re.split` with the fixed-width pattern `\s\+\s`;
  - `re.split(r'\s*c\s*')`;
  - `str.join`;
  - substring `in`.
- `materials.dfy`: the material and component records.
- `driver.dfy`: `reaction_completer/driver.py`. The loops are methods, each proved equal to a
  specification function. The properties are lemmas about those functions.
- `tester.dfy`: `reaction_completer/test/reaction_tester.py`. `simple_parse` is an imperative
  method proved equal to the function `Parse`. The rest are functions.

Three collaborators are not part of the shown code: the `MaterialInformation` constructor,
`ReactionCompleter(...).compute_reactions()` and `render_reaction`. They are parameters bundled
in `Driver.Engine`. Each is a function that returns a value or an error kind. The properties
here hold for every such function, under the assumptions listed under "## Left out": the
constructor keeps the formula it is given, each call is deterministic, and every material
dictionary has all the keys the driver reads.

Python sets are iterated in an unspecified order. `substitute_element_vars` therefore returns
a ghost `orders` value: the order in which each target's variables were visited. Its
properties are stated for every such order (`Driver.BlockCandidates`, `Driver.BlockLength`).

Some behaviours of the code differ from what the `balance_recipe` docstring
(reaction_completer/driver.py:89-200) and the function names suggest; the model follows the code:

- **Expansion is per variable, not a Cartesian product.** A target with variables `A` (k
  candidates) and `B` (m candidates) gives k + m pairs, each substituting one variable.
  It does not give k × m pairs.
- **Failures are not collected.** A pair that cannot be balanced is skipped and leaves no
  record.
- **Some errors escape `balance_recipe` and end the whole call**:
  - any error of the target conversion other than `FormulaException` (line 210 is outside
    the handlers of lines 214-254);
  - any error other than `CannotBalance`/`TokenError` during the sentence-subset retry. It
    is raised inside the `except TooManyPrecursors` clause, so the sibling
    `except Exception` does not catch it;
  - any error of precursor screening other than `FormulaException`;
  - a target with an empty composition list. `reduce(or_, [])` raises `TypeError`, which
    is modelled as `OtherException`.

## Model

| member | source | states |
|---|---|---|
| Errors.Parent | reaction_completer/errors.py:8-61 | a kind has a base exception in the taxonomy if and only if it is one of the four subclasses `TooFewPrecursors`, `TooManyPrecursors`, `StupidRecipe`, `ExpressionPrintException`; that base is `CannotBalance`, and a class is never its own base |
| Errors.CannotBalanceFamily | reaction_completer/errors.py:16-56 | `isinstance(e, CannotBalance)` holds exactly for `CannotBalance` and its four subclasses; `FormulaException` and `TokenError` are not `CannotBalance`s |
| Errors.SubkindsAreSiblings | reaction_completer/errors.py:25-56 | the four subclasses are siblings: catching one of them catches no other kind |
| Text.IsWhitespace | reaction_completer/test/reaction_tester.py:30 | the characters `\s` matches in a str pattern, those `str.isspace` accepts |
| Text.StripWhitespace | reaction_completer/test/reaction_tester.py:30 | `re.sub(r'\s', '', s)`: the result has no whitespace and keeps every other character as often as `s` has it |
| Text.StripWhitespaceAppend | reaction_completer/test/reaction_tester.py:30 | removal distributes over concatenation, so the kept characters stay in their order |
| Text.StripWhitespaceIdempotent | reaction_completer/test/reaction_tester.py:30 | removing whitespace twice is removing it once |
| Text.StripWhitespaceFixes | reaction_completer/test/reaction_tester.py:30 | a string without whitespace is left unchanged |
| Text.TrimStart | reaction_completer/test/reaction_tester.py:92 | the result is a suffix of the input; everything removed is whitespace and the result does not start with whitespace |
| Text.TrimEnd | reaction_completer/test/reaction_tester.py:92 | the result is a prefix of the input; everything removed is whitespace and the result does not end with whitespace |
| Text.Literal | reaction_completer/test/reaction_tester.py:34 | a literal separator as a pattern: one exact-character class per character |
| Text.LiteralMatchesAt | reaction_completer/test/reaction_tester.py:34 | a literal pattern matches at `j` exactly when the separator occurs at `j` |
| Text.FindFrom | reaction_completer/test/reaction_tester.py:94 | the result is the first match at or after `j`, and none means no match there |
| Text.Find | reaction_completer/test/reaction_tester.py:47 | the result is the leftmost match, and none means no match anywhere |
| Text.Split | reaction_completer/test/reaction_tester.py:34 | `split` returns at least one piece, and no piece holds a match of the separator: every occurrence was cut (the cut rule itself is in Text.SplitIsLeftmost, the round trip in Text.SplitWeave) |
| Text.LeftmostCuts | reaction_completer/test/reaction_tester.py:93-95 | the scan rule of `str.split` and `re.split`: the first piece ends where the leftmost match begins, the match is dropped, the rest is cut the same way, and a text with no match is one piece (meaning in Text.SplitIsLeftmost) |
| Text.SplitIsLeftmost | reaction_completer/test/reaction_tester.py:93-95 | for every pattern, including the overlapping `--` and the three-character `\s\+\s`, a list of pieces follows the leftmost, non-overlapping scan rule exactly when it is the result of `split` |
| Text.SplitLeftmost | reaction_completer/test/reaction_tester.py:93-95 | the pieces of `split` follow the leftmost scan rule |
| Text.LeftmostUnique | reaction_completer/test/reaction_tester.py:93-95 | any list of pieces that follows the leftmost scan rule is the result of `split` |
| Text.SplitWeave | reaction_completer/test/reaction_tester.py:93-95 | for every pattern, there are matched texts, one between each two pieces, each of the pattern's length and matching it, such that putting them back between the pieces rebuilds the string |
| Text.SplitOnce | reaction_completer/test/reaction_tester.py:47 | `split(sep, maxsplit=1)`: one piece (the string) exactly when there is no match; otherwise the first piece ends where the leftmost match begins, so with the overlapping `--` the cut is at the first occurrence, and the second piece is everything after that match |
| Text.Join | reaction_completer/test/reaction_tester.py:34 | `sep.join(xs)`, the inverse that Text.JoinSplit and Text.SplitJoinMarked relate to `split` |
| Text.JoinSplit | reaction_completer/test/reaction_tester.py:34 | `sep.join(s.split(sep)) == s` |
| Text.SplitCount | reaction_completer/test/reaction_tester.py:34 | splitting on a character gives one more piece than its occurrences |
| Text.NoMatchWithoutMarker | reaction_completer/test/reaction_tester.py:94 | a pattern cannot match where one of its exact characters is absent |
| Text.FirstMatchAtSeparator | reaction_completer/test/reaction_tester.py:93-95 | in `x + sep + rest` the first match is where `sep` starts, when `x` lacks a distinguishing character of `sep` |
| Text.SplitJoinMarked | reaction_completer/test/reaction_tester.py:93-95 | splitting terms joined by a separator gives the terms back, when they lack its distinguishing character |
| Text.JoinAvoids | reaction_completer/test/reaction_tester.py:93-95 | a character absent from the terms and the separator is absent from the join |
| Text.SplitTrimmed | reaction_completer/test/reaction_tester.py:92 | `re.split(r'\s*c\s*', s)` has as many pieces as `s.split(c)` and is `[s]` when `c` does not occur |
| Text.TrimPieceMeaning | reaction_completer/test/reaction_tester.py:92 | a piece loses exactly the whitespace on each side that touches a separator, and keeps the rest as one infix |
| Text.SplitTrimmedPiece | reaction_completer/test/reaction_tester.py:92 | each piece of `re.split(r'\s*c\s*', s)` is the matching piece of `s.split(c)` with only the whitespace next to a separator removed; none is removed at the start or end of `s` |
| Text.Contains | reaction_completer/driver.py:81 | `formula in sentence`: the formula occurs at some position of the sentence |
| Driver.ElementKeysMeaning | reaction_completer/driver.py:22 | `reduce(or_, ...)`: an element key of the target is exactly a key of one of its compositions |
| Driver.UsedVarsMeaning | reaction_completer/driver.py:22-23 | a variable is used exactly when it is declared and keys an element of some composition |
| Driver.ExpansionSnoc | reaction_completer/driver.py:20-29 | processing one more target appends exactly that target's block |
| Driver.ExpansionStep | reaction_completer/driver.py:20-29 | the loop step of `substitute_element_vars`: target `i` appends its block to the pairs of the targets before it |
| Driver.ChoicePairsTargets | reaction_completer/driver.py:26-27 | the inner loop's pairs all carry the target |
| Driver.BlockTargets | reaction_completer/driver.py:21-29 | a target's block only holds pairs for that target |
| Driver.Block | reaction_completer/driver.py:21-29 | one target's pairs: `(target, None)` when it does not expand, else its variables' pairs in the visiting order (meaning in Driver.BlockShape, Driver.BlockCandidates, Driver.BlockLength) |
| Driver.Expansion | reaction_completer/driver.py:17-31 | the blocks of the targets in target order (meaning in Driver.ExpansionShape, Driver.ExpansionTargets) |
| Driver.ExpansionTargets | reaction_completer/driver.py:17-31 | every pair of `substitute_element_vars` is for one of the input targets |
| Driver.ChoicePairsShape | reaction_completer/driver.py:26-27 | each inner-loop pair substitutes exactly the variable `v` by one of its candidates |
| Driver.VariablesPairsShape | reaction_completer/driver.py:25-27 | each pair of the variable loop substitutes one used variable by one of its candidates |
| Driver.BlockShape | reaction_completer/driver.py:21-29 | a target without used variables gives the single pair `(target, None)`; otherwise every pair is `{v: c}` for a used variable `v` and one of its candidates `c` |
| Driver.CandidatesOfAppend | reaction_completer/driver.py:25-27 | the candidates chosen for `v` by a concatenation are those of the parts, in order |
| Driver.ChoicePairsCandidates | reaction_completer/driver.py:26-27 | the inner loop chooses every candidate of `v`, in list order, and nothing for other variables |
| Driver.VariablesPairsCandidates | reaction_completer/driver.py:25-27 | over distinct variables, each variable's candidates appear exactly once, in list order |
| Driver.ExpansionShape | reaction_completer/driver.py:17-31 | every pair leaves its target unsubstituted exactly when the target does not expand, and otherwise substitutes one used variable |
| Driver.BlockCandidates | reaction_completer/driver.py:24-27 | in any visiting order, a used variable's candidates are all tried once each, in list order; an unused variable is never substituted |
| Driver.ChoicePairsLength | reaction_completer/driver.py:26-27 | one pair per candidate |
| Driver.VariablesPairsLength | reaction_completer/driver.py:25-27 | the number of pairs is the sum of the candidate counts |
| Driver.CandidateTotalAppend | reaction_completer/driver.py:25-27 | the candidate count of a concatenation of variable lists is the sum of the counts |
| Driver.CandidateTotalSplit | reaction_completer/driver.py:25-27 | removing a variable from a visiting order removes its candidate count |
| Driver.CandidateTotalOrderFree | reaction_completer/driver.py:25 | the sum of candidate counts does not depend on the set's iteration order |
| Driver.BlockLength | reaction_completer/driver.py:24-27 | a target with used variables yields the sum of their candidate counts (not their product), whatever the iteration order |
| Driver.AppendChoices | reaction_completer/driver.py:26-27 | the inner loop appends one pair per candidate, in order |
| Driver.AppendTarget | reaction_completer/driver.py:21-29 | one target's iteration appends its block for the order the set was visited in |
| Driver.SubstituteElementVars | reaction_completer/driver.py:17-31 | raises (the `TypeError` of `reduce`) exactly when some target has no composition; otherwise returns the targets' blocks in target order |
| Driver.MaterialDictToInfo | reaction_completer/driver.py:34-44 | the object built keeps the formula, the string, the substitution and each composition's amount and elements, or the constructor's error is raised |
| Driver.Screened | reaction_completer/driver.py:47-56 | `screen_good_precursors`: converted precursors in order, a `FormulaException` dropping one and any other error escaping (meaning in Driver.ScreenedFails, Driver.ScreenedKeeps, Driver.ScreenedFirstError) |
| Driver.KeptMeaning | reaction_completer/driver.py:47-56 | the kept indices are increasing and are exactly the precursors that convert |
| Driver.ScreenedFails | reaction_completer/driver.py:47-56 | screening raises exactly when some conversion raises something other than `FormulaException` |
| Driver.ScreenedFirstError | reaction_completer/driver.py:49-54 | the error that escapes is the first such conversion's |
| Driver.ScreenedKeeps | reaction_completer/driver.py:47-56 | on success the result is the converted precursors, in order, at most as many as the input |
| Driver.ScreenGoodPrecursors | reaction_completer/driver.py:47-56 | the loop computes the screening exactly |
| Driver.ScreenedStaysErr | reaction_completer/driver.py:50-54 | once a conversion escapes, later precursors are not processed |
| Driver.InSentenceMeaning | reaction_completer/driver.py:78-82 | a group holds a precursor if and only if its formula occurs in the sentence, as an order-preserving subsequence, and keeps each such precursor as many times as the precursor list holds it (others zero times) |
| Driver.InSentenceCount | reaction_completer/driver.py:78-82 | the number of times a precursor is in a group is its number in the precursor list when its formula occurs in the sentence, and zero otherwise |
| Driver.InSentence | reaction_completer/driver.py:78-82 | the precursors whose formula occurs in the sentence, in precursor order (meaning in Driver.InSentenceMeaning) |
| Driver.SentenceGroups | reaction_completer/driver.py:72-86 | at most one group per sentence, and no group is empty |
| Driver.SentenceGroupsMeaning | reaction_completer/driver.py:77-84 | the groups come from increasing sentence indices; a skipped sentence mentions no precursor |
| Driver.MentionedIn | reaction_completer/driver.py:78-82 | the inner loop collects exactly the precursors mentioned in the sentence |
| Driver.FindPrecursorsInSameSentence | reaction_completer/driver.py:72-86 | the loop computes the sentence groups: at most one per sentence, none empty |
| Driver.TryBalance | reaction_completer/driver.py:59-69 | the first of conversion, solve and render that raises decides the error, and the result carries exactly that error (so an `ExpressionPrintException` from rendering reaches the subset loop as such); on success the tuple carries the target formula, the solution, the substitution and the rendering |
| Driver.FirstAttemptHandler | reaction_completer/driver.py:214-254 | `TooManyPrecursors` alone triggers the sentence retry; other `CannotBalance`s and `TokenError` go to the second clause; everything else to `except Exception` |
| Driver.TrySubsets | reaction_completer/driver.py:228-239 | the subset loop: the first group that balances is recorded, a caught failure moves on, any other error escapes (meaning in Driver.TrySubsetsFirstSuccess and Driver.TrySubsetsEscapes) |
| Driver.TrySubsetsFirstSuccess | reaction_completer/driver.py:225-239 | the first group that balances is recorded, after groups that failed with a caught error; nothing is recorded exactly when every group fails that way |
| Driver.TrySubsetsEscapes | reaction_completer/driver.py:228-239 | an error escapes the subset loop if and only if some group fails with an error that `except (CannotBalance, TokenError)` does not catch, after groups that all failed with caught errors; the escaping error is exactly that group's |
| Driver.EscapeWitness | reaction_completer/driver.py:228-239 | an escaping error comes from a group whose predecessors all failed with caught errors, and that group's error is not caught |
| Driver.EscapeAt | reaction_completer/driver.py:228-239 | a group failing with an uncaught error after groups that all failed quietly ends the loop with that error |
| Driver.TrySubsetsRecords | reaction_completer/driver.py:228-233 | a solution found on a subset carries the pair's target formula and substitution |
| Driver.AttemptPair | reaction_completer/driver.py:207-254 | a `FormulaException` of the target skips the pair and any other conversion error escapes; a first success is recorded; a first `TooManyPrecursors` gives the outcome of the subset retry over the sentence groups (skipped when there is none); any other first error skips the pair |
| Driver.RecordAll | reaction_completer/driver.py:206-255 | at most one solution per pair |
| Driver.RecordAllFails | reaction_completer/driver.py:207-254 | the call fails exactly when some pair raises, with the first such pair's error |
| Driver.RecordAllInOrder | reaction_completer/driver.py:206-255 | the solutions are exactly the recorded attempts, in pair order |
| Driver.SolutionsComeFromTargets | reaction_completer/driver.py:203-255 | every solution is for an input target, with no substitution exactly when that target does not expand, and otherwise one candidate of one used variable |
| Driver.BalancePair | reaction_completer/driver.py:207-254 | one loop iteration computes the per-pair outcome, with the `success` flag and `break` of lines 225-233 |
| Driver.BalancePairs | reaction_completer/driver.py:206-255 | the loop over pairs computes the solution list or the escaping error |
| Driver.RecordAllStaysErr | reaction_completer/driver.py:207-254 | once a pair raises, later pairs are not processed |
| Driver.BalanceRecipe | reaction_completer/driver.py:89-255 | an empty composition raises; otherwise a screening error escapes, and else the result is the per-pair outcome over the expansion, with absent sentences treated as none |
| ReactionTester.Unpack2 | reaction_completer/test/reaction_tester.py:34 | unpacking into two names succeeds exactly for two pieces, and otherwise raises `ValueError` with the piece count |
| ReactionTester.Assign | reaction_completer/test/reaction_tester.py:42 | the keys of the filled dictionary are exactly the keys assigned |
| ReactionTester.AssignLastWins | reaction_completer/test/reaction_tester.py:42 | a key assigned several times keeps its last value |
| ReactionTester.Collect | reaction_completer/test/reaction_tester.py:80 | a comprehension's list has one result per input |
| ReactionTester.CollectEach | reaction_completer/test/reaction_tester.py:80 | the list is built exactly when every call returns, and holds their results in order |
| ReactionTester.CollectFirstError | reaction_completer/test/reaction_tester.py:80 | a failure is the first failing call's |
| ReactionTester.CollectStaysErr | reaction_completer/test/reaction_tester.py:40-42 | after a failure, later elements are not reached |
| ReactionTester.CollectAppend | reaction_completer/test/reaction_tester.py:110-111 | the list of a concatenation is the concatenation of the lists |
| ReactionTester.CollectPermutation | reaction_completer/test/reaction_tester.py:110-111 | permuting the inputs permutes the results |
| ReactionTester.ElementPairs | reaction_completer/test/reaction_tester.py:53-58 | one `(element, amount)` per `+`-separated part, in order |
| ReactionTester.Components | reaction_completer/test/reaction_tester.py:44-63 | one composition record per `;`-separated part, in order |
| ReactionTester.ParseElement | reaction_completer/test/reaction_tester.py:54-58 | one `El` or `El:amount` as `(element, amount)` (meaning in ReactionTester.ElementRoundTrip) |
| ReactionTester.ParseComponent | reaction_completer/test/reaction_tester.py:47-63 | one `;`-separated component (meaning in ReactionTester.ComponentWithoutAmount, ReactionTester.ComponentWithAmount) |
| ReactionTester.CutAdditives | reaction_completer/test/reaction_tester.py:32-35 | the composition section and the additives after a single `<`, or the unpacking error (meaning in ReactionTester.CutAdditivesMarkers, ReactionTester.CutAdditivesOneMarker) |
| ReactionTester.VarEntry | reaction_completer/test/reaction_tester.py:41-42 | one `Var:values` entry, or the unpacking error (meaning in ReactionTester.VarEntryRoundTrip) |
| ReactionTester.CutVars | reaction_completer/test/reaction_tester.py:37-42 | the composition section and `elements_vars` after a single `?`, or the first error (meaning in ReactionTester.CutVarsOneMarker) |
| ReactionTester.Parse | reaction_completer/test/reaction_tester.py:7-64 | what `simple_parse` returns or raises (meaning in the Parse lemmas below) |
| ReactionTester.ReadElementsVars | reaction_completer/test/reaction_tester.py:40-42 | the loop fills `elements_vars` from the entries, or raises the first malformed entry's `ValueError` |
| ReactionTester.ReadElements | reaction_completer/test/reaction_tester.py:52-59 | the loop fills `elements_dict` from the pairs in order |
| ReactionTester.ReadComponent | reaction_completer/test/reaction_tester.py:47-63 | one iteration of the composition loop reads the amount (default `"1.0"`) and the element dictionary of one part |
| ReactionTester.ReadCompositions | reaction_completer/test/reaction_tester.py:44-63 | the loop builds one record per part, in order |
| ReactionTester.SimpleParse | reaction_completer/test/reaction_tester.py:7-64 | the imperative parser computes `Parse` |
| ReactionTester.ParseIgnoresWhitespace | reaction_completer/test/reaction_tester.py:30 | parsing a string equals parsing it with all whitespace removed |
| ReactionTester.CutAdditivesMarkers | reaction_completer/test/reaction_tester.py:32-35 | no `<` means no additives, two or more `<` raise `ValueError` |
| ReactionTester.CutAdditivesOneMarker | reaction_completer/test/reaction_tester.py:32-35 | with one `<`, the text before it and the `&`-separated pieces after it |
| ReactionTester.ParseTooManyMarkers | reaction_completer/test/reaction_tester.py:33-34 | two or more `<` make the two-name unpacking raise `ValueError` with their count plus one values |
| ReactionTester.ParseAdditiveMarkers | reaction_completer/test/reaction_tester.py:32-35 | without `<` the additives are empty; with two or more `<` unpacking fails with their count plus one; on success there are additives exactly when there is a `<` |
| ReactionTester.ParseOneAdditiveMarker | reaction_completer/test/reaction_tester.py:28-35 | with exactly one `<`, the additives are the `&`-separated pieces after it, in order |
| ReactionTester.ParseWithoutVars | reaction_completer/test/reaction_tester.py:37-39 | without `?` the `elements_vars` map is empty |
| ReactionTester.ParseOneVarsMarker | reaction_completer/test/reaction_tester.py:37-44 | with one `?` and no `<`, parsing succeeds exactly when each `;`-separated entry is `Var:values`; then the dictionary assigns the entries in order and the compositions are the parts before `?` |
| ReactionTester.CutVarsOneMarker | reaction_completer/test/reaction_tester.py:37-42 | with one `?`, the compositions before it and the dictionary of the entries after it, or the first entry's error |
| ReactionTester.ParseFullForm | reaction_completer/test/reaction_tester.py:11-16 | the documented full form `C?V<A` (one `?`, one `<` after it): success exactly when every entry of `V` reads; then `C` gives the compositions, `V` the dictionary in order, and `A` the `&`-separated additives |
| ReactionTester.VarEntryRoundTrip | reaction_completer/test/reaction_tester.py:41-42 | `Var:v1,...,vn` maps `Var` to `[v1, ..., vn]` |
| ReactionTester.ParseCompositionsOnly | reaction_completer/test/reaction_tester.py:44-63 | without `?` and `<`, there is one record per `;`-separated part, in order, with no variables and no additives |
| ReactionTester.ComponentWithoutAmount | reaction_completer/test/reaction_tester.py:47-49 | a component without `--` has amount `"1.0"` |
| ReactionTester.ComponentWithAmount | reaction_completer/test/reaction_tester.py:47-51 | `amount--elements` gives that amount and those elements, for every amount without `--` that does not end in `-` (so `1e-3--Fe` and `-2--Fe` read back) |
| ReactionTester.DashesFirstAfter | reaction_completer/test/reaction_tester.py:47 | under those conditions the first `--` of `amount--elements` is the one after the amount |
| ReactionTester.ElementRoundTrip | reaction_completer/test/reaction_tester.py:54-58 | `El` reads as `(El, "1.0")` and `El:amount` as `(El, amount)` |
| ReactionTester.ElementLastWins | reaction_completer/test/reaction_tester.py:53-59 | an element repeated within a component keeps its last amount |
| ReactionTester.MakeMaterial | reaction_completer/test/reaction_tester.py:67-76 | the material carries the given formula and string and the parsed composition, variables and additives; a parse error is raised |
| ReactionTester.MakeMaterials | reaction_completer/test/reaction_tester.py:79-80 | one material per row |
| ReactionTester.SetOf | reaction_completer/test/reaction_tester.py:94-95 | `set(xs)` holds exactly the items of `xs` |
| ReactionTester.ParseEquation | reaction_completer/test/reaction_tester.py:91-107 | what `_parse_equation` returns or raises (meaning in ReactionTester.ParseRendered, ReactionTester.RenderedTermOrder, ReactionTester.ParseEquationSections) |
| ReactionTester.ParseRendered | reaction_completer/test/reaction_tester.py:91-107 | `l1 + ... == r1 + ...` parses to the sets of its terms, no substitutions and no additives |
| ReactionTester.SplitSides | reaction_completer/test/reaction_tester.py:93 | `' == '` splits a rendered reaction into its two sides |
| ReactionTester.SplitTerms | reaction_completer/test/reaction_tester.py:94-95 | `\s\+\s` splits a side back into its terms |
| ReactionTester.RenderedTermOrder | reaction_completer/test/reaction_tester.py:94-95 | the order and repetition of terms on either side do not change the parse |
| ReactionTester.ParseEquationSections | reaction_completer/test/reaction_tester.py:92-107 | without `;` there are no substitutions and additives are `set()`; additives are a list exactly with two or more `;`, and then they are `parts[2:]`, the trimmed `;`-parts from the third on, one entry per `;` after the first |
| ReactionTester.StrLess | reaction_completer/test/reaction_tester.py:110-111 | Python's `<` on strings: lexicographic by code point |
| ReactionTester.ListLess | reaction_completer/test/reaction_tester.py:110-111 | Python's `<` on lists of strings: the first differing item decides, else the shorter list |
| ReactionTester.EquationLess | reaction_completer/test/reaction_tester.py:110-111 | Python's `<` on the parsed tuples: the first differing element decides with its own `<`, proper subset for sets |
| ReactionTester.AdditivesLess | reaction_completer/test/reaction_tester.py:110-111 | ordering a `set()` against a list raises `TypeError` |
| ReactionTester.Insert | reaction_completer/test/reaction_tester.py:110-111 | inserting adds exactly that element |
| ReactionTester.PySorted | reaction_completer/test/reaction_tester.py:110-111 | `sorted` returns a permutation of its input |
| ReactionTester.ReactionsEqualAsWritten | reaction_completer/test/reaction_tester.py:109-113 | `assertReactionsEqual` as written: parse, sort and compare each side (the Findings row) |
| ReactionTester.ReactionsEqual | reaction_completer/test/reaction_tester.py:109-113 | the intended comparison: the same parsed reactions, each as often (meaning in ReactionTester.ReactionsEqualOrderFree, ReactionTester.ReactionsEqualPermutation) |
| ReactionTester.AsWrittenPassImpliesEqual | reaction_completer/test/reaction_tester.py:109-113 | when the helper passes, the two lists hold the same reactions |
| ReactionTester.AsWrittenIsOrderSensitive | reaction_completer/test/reaction_tester.py:109-113 | the helper as written rejects `["a == b", "c == b"]` against `["c == b", "a == b"]`, which the intended comparison accepts |
| ReactionTester.SwappedIncomparable | reaction_completer/test/reaction_tester.py:109-113 | for any two distinct parsed reactions that neither sorts before the other, the helper as written rejects the swapped list while the intended comparison accepts it |
| ReactionTester.ReactionsEqualOrderFree | reaction_completer/test/reaction_tester.py:109-113 | the intended comparison does not depend on the order in which either side lists its reactions |
| ReactionTester.ReactionsEqualPermutation | reaction_completer/test/reaction_tester.py:109-113 | any reordering of the rendered reactions passes the intended comparison |

## Findings

| source | as written | input that shows it | evidently intended | confidence | as-written member | corrected member |
|---|---|---|---|---|---|---|
| reaction_completer/test/reaction_tester.py:109-113 | both sides are sorted and then compared as lists. The sorted tuples start with Python sets, and `<` on sets is the proper-subset test, a partial order. So sorting does not bring equal collections into one order | reactions rendered `["a == b", "c == b"]` against expected `["c == b", "a == b"]`: neither `{"a"}` nor `{"c"}` is `<` the other, so each two-element list stays as given and the lists differ | the comparison passes exactly when both sides hold the same parsed reactions, in any order | not executed; high for two reactions (CPython keeps a two-element list whose second item is not `<` the first) | ReactionTester.ReactionsEqualAsWritten (shown by ReactionTester.AsWrittenIsOrderSensitive) | ReactionTester.ReactionsEqual (ReactionTester.ReactionsEqualOrderFree, ReactionTester.ReactionsEqualPermutation) |

## Left out

- `MaterialInformation`, `ReactionCompleter.compute_reactions` and `render_reaction`: their code
  is not part of this model. They are the parameters of `Driver.Engine`: functions returning a
  value or an error kind. The linear algebra and the formula rendering are not modelled.
- `logging.debug` and `logging.warning` (driver.py lines 53 and 219-254) only produce output.
  The class-body `print` calls of errors.py run at import time and are not modelled either.
- `TokenError` comes from Python's `tokenize` module. It is one more error kind. All
  exceptions that are neither of this package nor `TokenError` are one kind, `OtherException`.
- Dictionary insertion order is not modelled. Dicts are Dafny maps; only the keys and the
  last value assigned to each key are kept.
- The iteration order of the set of used variables in `substitute_element_vars` is
  nondeterministic. The method picks any order, and the properties quantify over all orders.
- `TestReaction.balance_equation` is unittest plumbing around `make_materials` and
  `balance_recipe`. It is not a member of its own here. `assertListEqual` is modelled by its
  verdict only, as a boolean.
- ReactionTester.PySorted: models `sorted` as a stable insertion sort scanning from the right.
  For two elements this makes the same comparison as CPython's list sort. For longer lists
  CPython's timsort may compare different pairs, which changes the result only when `<` is
  not a total order.
- ReactionTester.ReactionsEqualAsWritten: takes the rendered strings `x[3]` of the reactions
  rather than the 4-tuples themselves.
- Regular expressions appear only as the patterns the code uses: `\s` removal, `\s\+\s`,
  and `\s*c\s*` for a single character `c`. No general regex engine is modelled.
  `\s` is Python's Unicode whitespace class.
- `MaterialInformation` is modelled as a record of its constructor's arguments, so its
  `material_formula` is the formula it was given. Driver.TryBalance, Driver.TrySubsetsRecords,
  Driver.AttemptPair, Driver.SolutionsComeFromTargets and Driver.InSentence rely on this. A
  constructor that rewrote the formula is not modelled.
- The engine's functions are deterministic and change no shared state. The target is converted
  twice (driver.py lines 210 and 60); the model assumes both conversions agree. An engine
  whose verdict changes between calls, or that mutates the dictionaries, is not modelled.
- Missing dictionary keys are not modelled. Every material dictionary is a `Material` record
  with all its fields, so the `KeyError` of `target['elements_vars']` (driver.py line 21) or of
  `material_dict_to_info` (lines 34-44) cannot arise.
- Amounts stay strings throughout, so no number parsing is modelled.
