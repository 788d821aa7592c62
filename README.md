# TeXCalc in Dafny

A model of the TeXCalc library, which turns a LaTeX math expression into a
function. The model covers its compiler and evaluator, and proves properties
of them.

**Construction.** `TeXCalc(expression, variables)` first checks its
arguments. It then decomposes the expression into a *context map*: a dict
from integer indices to sub-expression texts, in which every extracted piece
is replaced by an index token `@/n/@`. The decomposition runs four passes:

1. `{…}` groups come out.
2. `(…)` and `[…]` groups come out.
3. Grammar rules (fractions, roots, powers, constants, Fibonacci, and the
   trigonometric and logarithm functions) are reduced until nothing more
   can be extracted.
4. The variables are bound to indices of their own. Reserved words are
   masked while this happens.

**Evaluation.** Every entry is wrapped in a `ContextProcessor`. Calling the
object checks the variable values. It then computes entry 0: each processor
computes its dependencies first and caches its tuple of values under the
stringified variable values.

**Modules, in dependency order:**

| module | file | what it holds |
|---|---|---|
| `Wrappers` | wrappers.dfy | `Option`, `Result`, one `Error` constructor per exception raised |
| `Text` | text.dfy | `\d` and `\w`, digit strings, the index token, `str.replace`, `re.finditer` of a literal |
| `Dicts` | dicts.dfy | Python dicts as insertion-ordered sequences of pairs, and the reversed dict `{v: k …}` |
| `Exceptions` | exceptions.dfy | `{name}` placeholder extraction and message building |
| `Fields` | fields.dfy | operand classification (`Field.__set__`) and per-instance storage |
| `Scanner` | scanner.dfy | each rule's pattern as a hand-written matcher, `search`, `process` with its borders |
| `Bodies` | bodies.dfy | the `validate` guard and the Constant, Fraction, Exponentiation, Sqrt and Fibonacci bodies |
| `Evaluator` | evaluator.dfy | `ContextProcessor`: index scan, static-operand variants, key, memoised `compute` |
| `Masking` | masking.dfy | the reserved-word masking of pass 4 |
| `Passes` | passes.dfy | `avoid_parentheses` and the four passes |
| `Core` | core.dfy | the `TeXCalc` class: constructor checks, context-map building, `__call__` |

**How source constructs are represented:**

- Decimal numbers are `real`.
- Decimal `/` and `**`, `str` of a Decimal, `eval`, `round` and the
  trigonometric and logarithm bodies are fields of `Bodies.Ops`. They are
  left uninterpreted, and a raised exception is `None`.
- `reserved_words` (from `TeXCalc/defines.py`, which is not part of this
  model) is a parameter.
- The order of the processor classes is a parameter `rules`. `_processors`
  and `Processor._subclasses` are ordered lists there; the second is a
  hash-ordered set in the source.
- `self._context_map` is a `Dict<int, string>` (a sequence of pairs) while
  it is built, because dict order decides which key a reversed dict keeps.
  Once built, it is a `map<int, ContextProcessor>`.
- A processor's cache is a `map<seq<string>, seq<real>>`.
- Loops that the source runs until a fixpoint or through a recursion take a
  `fuel` bound, and fail with `OutOfFuel` when it runs out.

**Behaviours the code has, modelled as written:**

- `avoid_parentheses("((x))")` is `"(x)"`, so the function is not
  idempotent. A parenthesis at only one end is also enough for a string to
  lose both ends.
- `__is_immutable` compares regex match objects, not their text, with the
  reserved words. Any word character not right after a backslash therefore
  makes an expression non-constant, and `\pi` is one such expression (its
  `i` follows `p`). So construction with `variables=None`, when it is not
  skipped, never succeeds:
  - an expression with a free word character is refused with NotAConst;
  - any other expression reaches pass 4, which iterates over `None`
    (TypeError);
  - a missing expression fails on `None.replace` (AttributeError).

  An empty tuple `()` is falsy too, but pass 4 can iterate over it, so an
  expression without a free word character is accepted with `variables=()`.
- Pass 4 marks the variable's occurrences with `|` and then turns every `|`
  into the index token. A `|` that was already in a context becomes a token
  too (`Masking.PipeAlsoBound`).
- `__replace_static_operands` splices each choice at the spans found in the
  original text, without shifting later spans.
- Pass 2 visits only the indices that existed after pass 1.
- `__calculate_origin` re-raises every failure of a processor's `compute` as
  NotComputableProcessor. A failure of `process` itself is outside the `try`
  and propagates unchanged.

## Model

| member | source | states |
|---|---|---|
| Text.Token | TeXCalc/core.py:177 | the index token is `@/`, the decimal digits of the index, `/@`, and reading the digits back gives the index |
| Text.NatToStringValue | TeXCalc/processors.py:215 | `int` of the digits in a token gives back the index that was written |
| Text.NatToStringInjective | TeXCalc/core.py:177 | different indices give different tokens |
| Text.TokenAt | TeXCalc/processors.py:206 | a match of `@/\d+/@` starts with `@`, ends with `@` and holds `/digits/` |
| Text.DeleteAll | TeXCalc/core.py:165 | replacing every space by the empty text leaves no space |
| Text.OccurrencesSpec | TeXCalc/core.py:265 | every position `finditer` reports is an occurrence, in increasing order and without overlap |
| Text.WordRunEnd | TeXCalc/core.py:139 | `\w+` stops at the first non-word character |
| Dicts.Get | TeXCalc/core.py:248 | `d.get(k)` finds the value under `k`, and None exactly when `k` is absent |
| Dicts.Put | TeXCalc/core.py:174 | `d[k] = v` overwrites in place an existing key, and appends a new one |
| Dicts.PutSpec | TeXCalc/core.py:253 | after `d[k] = v`, `k` reads `v`, every other key reads as before, and keys stay distinct |
| Dicts.Remove | TeXCalc/core.py:212 | `del d[k]` drops exactly the entry under `k`, and raises KeyError when there is none |
| Dicts.InvertGet | TeXCalc/core.py:226 | in `{v: k for k, v in d.items()}` a value maps to the key of the last entry holding it |
| Exceptions.PlaceholderAt | TeXCalc/exceptions.py:25 | a match of `\{\w+\}` is a brace pair around a non-empty word |
| Exceptions.FindPlaceholder | TeXCalc/exceptions.py:25 | the search finds the leftmost placeholder, or reports that there is none |
| Exceptions.ExtractPlaceholders | TeXCalc/exceptions.py:20-31 | the scanning loop yields the placeholder names, searching again after each match |
| Exceptions.PlaceholdersOfTemplate | TeXCalc/exceptions.py:20-31 | the names extracted from a message are exactly its `{name}` placeholders, in order |
| Exceptions.FormatTemplate | TeXCalc/exceptions.py:11 | formatting substitutes each placeholder by its value and leaves the literal text |
| Exceptions.Raise | TeXCalc/exceptions.py:5-11 | AttributeError exactly when an extracted name is missing; otherwise the message is `[attr] ` followed by the template formatted with the arguments |
| Exceptions.RaiseTemplate | TeXCalc/exceptions.py:5-11 | a message made of literal parts and placeholders whose names are all given is raised as `[attr] ` followed by the parts with each placeholder filled in |
| Exceptions.RaiseTemplateMissing | TeXCalc/exceptions.py:5-11 | a placeholder of the message that has no argument makes raising an AttributeError |
| Exceptions.FormatIgnoresExtra | TeXCalc/exceptions.py:6 | extra keyword arguments change nothing in the message |
| Exceptions.RaiseAcceptsExtra | TeXCalc/exceptions.py:5-11 | an error that can be raised is raised the same way with more keyword arguments |
| Exceptions.RaiseWithoutPlaceholders | TeXCalc/exceptions.py:41-44 | a message without placeholders takes no arguments and comes out as `[attr] message` |
| Exceptions.MakeErrorClass | TeXCalc/exceptions.py:19-35 | one error factory per table entry, holding its name, message and extracted names |
| Fields.ParseDecimal | TeXCalc/fields.py:31 | `Decimal` of a digit string is the number the digits spell |
| Fields.DropMarks | TeXCalc/fields.py:39 | dropping `/` and `@` leaves neither character |
| Fields.Classified | TeXCalc/fields.py:30-43 | a value `Decimal` parses is a plain literal; otherwise a context where contexts are allowed and the text is neither `/n/` nor `@/n/@`; otherwise an index where indices are allowed and only digits are left after dropping the marks; and BadFieldArgument exactly when none of the three fits |
| Fields.Classify | TeXCalc/fields.py:24-51 | None stores the default, unflagged. A value is classified by `Classified`. Without choices the outcome is that classification. With choices, a classified value that is a key is replaced by its mapped value, and BadChoicesMap is raised exactly when it is not a key |
| Fields.StoredIsOutcome | TeXCalc/fields.py:25-51 | what stays stored after a successful set is the outcome of the set |
| Fields.Field.Get | TeXCalc/fields.py:18-22 | `__get__` reads this instance's entry, or None when it was never set |
| Fields.Field.Set | TeXCalc/fields.py:24-51 | `__set__` gives the classification outcome, writes only this instance's entry, and leaves every other instance's entry unchanged |
| Scanner.CompilePattern | TeXCalc/processors.py:27-45 | a customised class needs a name (NotFoundName otherwise); other classes keep their pattern |
| Scanner.CustomPatternIsNamed | TeXCalc/processors.py:43 | the `<name>` placeholder of CustomFunction's pattern becomes the class's name |
| Scanner.MatchAt | TeXCalc/processors.py:121 | every rule's match is non-empty and carries one group per field |
| Scanner.SearchFromLeftmost | TeXCalc/processors.py:121 | `search` finds the match at the smallest position where the pattern matches, and nothing when it matches nowhere |
| Scanner.ClassifyAllFirstError | TeXCalc/processors.py:95-99 | each operand is its field's classification of its group, and a failure is that of the first failing field |
| Scanner.Create | TeXCalc/processors.py:85-103 | a processor's borders are the match span shifted by the carriage, and `matched` is the slice of the searched tail |
| Scanner.ProcessOnce | TeXCalc/processors.py:114-134 | `process(once=True)` gives the processor of the leftmost match, and None exactly when the pattern does not occur |
| Scanner.Process | TeXCalc/processors.py:114-142 | the search loop with its carriage computes `Scan` |
| Scanner.ProcessBorders | TeXCalc/processors.py:100-101 | every `matched` is the context's slice at its borders, and borders increase without overlapping |
| Bodies.Guard | TeXCalc/processors.py:145-169 | NotComputableField for a `not_context` field that holds a context, or for an `index_exist` index with no values; otherwise the body runs |
| Bodies.FirstContext | TeXCalc/processors.py:148-156 | the first `not_context` field, in order, that holds a raw context: none of the fields before it holds one, and None exactly when no field does |
| Bodies.FirstMissing | TeXCalc/processors.py:158-167 | the first `index_exist` field, in order, whose index has no values: every field before it has values, and None exactly when no field is missing |
| Bodies.Collect | TeXCalc/processors.py:453-469 | a tuple of results, failing exactly when one of them raised |
| Bodies.GridAt | TeXCalc/processors.py:465-469 | entry `i * m + j` of the double comprehension pairs the i-th first value with the j-th second value |
| Bodies.GridLength | TeXCalc/processors.py:465-469 | the double comprehension has one entry per pair |
| Bodies.BinaryIsGrid | TeXCalc/processors.py:452-469 | all four branches compute the operation over the product of both operands' values, first operand major |
| Bodies.BinaryCount | TeXCalc/processors.py:489-506 | Fraction and Exponentiation give the product of the operands' value counts, a literal counting once |
| Bodies.SqrtRefusedExactly | TeXCalc/processors.py:524-571 | Sqrt refuses exactly when some exponent is at most 0, or some exponent is even and some value is negative |
| Bodies.FibAnswersSpec | TeXCalc/processors.py:655-671 | one Fibonacci number per position, in order, and InvalidFibonacciPosition for the first position below 1 |
| Bodies.FibonacciCompute | TeXCalc/processors.py:653-673 | the `prev`/`curr` loops compute exactly `FibAnswers` |
| Bodies.RuleCompute | TeXCalc/processors.py:339-341 | a rule runs its body only when the guard passes, and otherwise raises the guard's error |
| Bodies.ConstantComputesItself | TeXCalc/processors.py:339-341 | Constant returns its own literal |
| Evaluator.Dedup | TeXCalc/processors.py:319 | `tuple(set(…))` keeps every value once and loses none |
| Evaluator.ProductShape | TeXCalc/processors.py:229 | `product` has one entry per choice, and entry `k` takes its `i`-th element from list `i` |
| Evaluator.ProductAt | TeXCalc/processors.py:229 | `product` varies the first list slowest: entry `a * n + m` is element `a` of the first list followed by entry `m` of the product of the others |
| Evaluator.ProductComplete | TeXCalc/processors.py:229 | every choice of one element per list is an entry of `product` |
| Evaluator.Replacements | TeXCalc/processors.py:221-225 | each static-operand occurrence span lies in the context |
| Evaluator.SpliceVariants | TeXCalc/processors.py:228-238 | the splicing loops compute `Variants` |
| Evaluator.VariantCount | TeXCalc/processors.py:221-238 | the number of variants is the product of the alternative counts of all occurrences |
| Evaluator.NoStaticOperands | TeXCalc/processors.py:221-238 | without static operands the only variant is the context itself |
| Evaluator.ContextProcessor.ReplaceStaticOperands | TeXCalc/processors.py:218-238 | the method returns `StaticVariants` of its context |
| Evaluator.TokenSearch | TeXCalc/processors.py:211 | the search finds the leftmost index token, or reports that there is none |
| Evaluator.TokenScanSound | TeXCalc/processors.py:209-216 | every index collected stands for a token of the context |
| Evaluator.TokenIndicesComplete | TeXCalc/processors.py:206-216 | every token that no earlier token overlaps has its index collected |
| Evaluator.TokenIndicesOfToken | TeXCalc/processors.py:209-216 | a lone token yields its own index |
| Evaluator.ContextProcessor.constructor | TeXCalc/processors.py:189-216 | the scanning loop collects `TokenIndices` of the context, with an empty cache |
| Evaluator.ComputationKey | TeXCalc/processors.py:240-241 | the key holds `str` of each variable's value in declared order, and is a KeyError when one is missing |
| Evaluator.FirstMissingVar | TeXCalc/processors.py:297-299 | the first declared variable without a value: every variable before it has one, and None exactly when all have values |
| Evaluator.ContextProcessor.IsComputedOn | TeXCalc/processors.py:296-301 | NotEnoughVariables for a missing variable, otherwise whether the key is cached |
| Evaluator.NotCalculated | TeXCalc/processors.py:303-310 | the indices whose processor has not cached this key |
| Evaluator.DepValues | TeXCalc/processors.py:251-253 | the values handed to a rule are those of the cached indices |
| Evaluator.StripCounter | TeXCalc/processors.py:271-274 | a context `i=…` with no newline after the prefix loses exactly its `i=` prefix; every other context is kept unchanged |
| Evaluator.Substitute | TeXCalc/processors.py:287-290 | the substitution loop computes `Substituted` |
| Evaluator.EvaluateVariant | TeXCalc/processors.py:286-292 | the loop over index choices collects `EvalRow` |
| Evaluator.EvaluateAll | TeXCalc/processors.py:283-294 | the nested loops compute `Evaluated` |
| Evaluator.EvaluatedCount | TeXCalc/processors.py:283-294 | one value per variant and per choice of index values |
| Evaluator.Attempt | TeXCalc/processors.py:245-260 | a rule with no match is skipped; a failure of `process` propagates unchanged; a rule that matches gives its body's values, and any failure of the processor's `compute` becomes NotComputableProcessor |
| Evaluator.AttemptSkips | TeXCalc/processors.py:245-248 | with the library's processor classes, a class is skipped exactly when its pattern does not occur in the context |
| Evaluator.FirstDecides | TeXCalc/processors.py:244-260 | the first class that does not skip decides the dispatch |
| Evaluator.LibraryDispatch | TeXCalc/processors.py:244-260 | with the library's processor classes, the loop falls through exactly when no class's pattern occurs; otherwise the first class whose pattern occurs gives the values or the failure |
| Evaluator.Dispatch | TeXCalc/processors.py:244-260 | the first rule, in order, that does not skip decides the result or the failure; None exactly when every rule skips |
| Evaluator.OriginCount | TeXCalc/processors.py:276-294 | the fallback yields one value per static variant and per choice of index values |
| Evaluator.ContextProcessor.CalculateOrigin | TeXCalc/processors.py:243-294 | given each index's cached values, the method returns `Origin` and leaves the cache alone, and only the fallback rewrites the context |
| Evaluator.FirstRule | TeXCalc/processors.py:244-260 | the loop over the processor classes returns what `Dispatch` gives: the first class that does not skip decides |
| Evaluator.NothingToCalculate | TeXCalc/processors.py:303-310 | when every dependency has cached the key, no index is left to calculate |
| Evaluator.ContextProcessor.Store | TeXCalc/processors.py:312-319 | the origin's values are cached under the key without duplicates, or the origin's error is returned and the cache is unchanged; the context is left as `ContextAfter` gives it, so only the arithmetic fallback strips a leading `i=` |
| Evaluator.ComputeAll | TeXCalc/processors.py:321-322 | each missing index is computed in turn, and then has cached this key |
| Evaluator.ContextProcessor.Round | TeXCalc/processors.py:315-322 | one round of the `while` loop: when every dependency has cached the key, the origin's values are cached without duplicates, or its error is the failure, and the context is rewritten only by the arithmetic fallback; otherwise every missing index gets its values |
| Evaluator.ContextProcessor.Compute | TeXCalc/processors.py:312-324 | the answer is the cache entry of the key and holds each value once. A repeat call answers from the cache and changes nothing. Caches only grow. A missing variable is a KeyError |
| Masking.Underscores | TeXCalc/core.py:268 | a run of `_` as long as the word |
| Masking.ReplaceLength | TeXCalc/core.py:268 | masking with a run of the same length keeps the text's length |
| Masking.ReplaceRun | TeXCalc/core.py:268 | masking puts `_` exactly at the positions of the occurrences the scan finds |
| Masking.ReplaceChar | TeXCalc/core.py:270 | replacing a one-letter variable changes exactly the positions that hold it |
| Masking.RecordCovered | TeXCalc/core.py:265-266 | the recorded spans cover exactly the positions inside the occurrences found |
| Masking.RecordSpansOk | TeXCalc/core.py:265-266 | every span recorded for a word without `_` is an occurrence of that word in the original text |
| Masking.MaskStep | TeXCalc/core.py:262-268 | masking one word keeps the text `_` exactly over the recorded spans, and those spans stay occurrences |
| Masking.MaskAll | TeXCalc/core.py:261-268 | the masking loop keeps that state over all the reserved words |
| Masking.SpliceAt | TeXCalc/core.py:273 | writing a word back over its span restores the original text there and nothing else |
| Masking.RestoreAt | TeXCalc/core.py:272-273 | restoring puts the original text back exactly over the recorded spans |
| Masking.MarkedSpec | TeXCalc/core.py:259-273 | for reserved words without `_`, reserved-word occurrences come back verbatim, and only the variable's occurrences outside them become the marker |
| Masking.PipeAlsoBound | TeXCalc/core.py:270-275 | a `|` already present is turned into the variable's token too |
| Passes.Unwrapped | TeXCalc/core.py:19-36 | the input comes back unchanged when it is at most 2 long or has no parenthesis at either end; otherwise it is the input or exactly its middle |
| Passes.AvoidParentheses | TeXCalc/core.py:19-36 | the balance loop computes `Unwrapped` |
| Passes.OuterPairCloses | TeXCalc/core.py:27-36 | when both ends are parentheses and they are dropped, the first `(` is closed by the last `)` and by nothing before it |
| Passes.UnwrappedNotIdempotent | TeXCalc/core.py:19-36 | `((x))` loses one pair only |
| Passes.UnwrappedOneSided | TeXCalc/core.py:23 | one parenthesis at either end is enough to lose both ends |
| Passes.UnwrappedSeparateGroups | TeXCalc/core.py:33-34 | `(a)(b)` keeps its ends |
| Passes.GroupSearch | TeXCalc/core.py:159-160 | the search finds the leftmost innermost group, or reports that there is none |
| Passes.GroupFound | TeXCalc/core.py:159-160 | every group the regex admits is found |
| Passes.NoGroup | TeXCalc/core.py:168-170 | a failed search leaves no group |
| Passes.Enter | TeXCalc/core.py:173-177 | new content gets the next index, and known content keeps its index |
| Passes.UnwrappedFree | TeXCalc/core.py:171 | a group's content stays non-empty and brace-free after `avoid_parentheses` |
| Passes.ReplaceBraceGroup | TeXCalc/core.py:170-178 | a round replaces the group by the token of its content's index and removes a `{` |
| Passes.ReplaceBraceGroups | TeXCalc/core.py:168-179 | the loop ends with no brace group left, and new indices are consecutive from 1 |
| Passes.ExtractBraces | TeXCalc/core.py:165-181 | spaces are dropped from the expression and from every group text, no group is left, contents are numbered from 1, the rewritten expression is under 0, and no two texts share an index |
| Passes.LastCloseBracket | TeXCalc/core.py:161 | the greedy content of `[…]` reaches the last `]` it can |
| Passes.BracketSearch | TeXCalc/core.py:161 | the search finds the leftmost square-bracket content |
| Passes.NextGroup | TeXCalc/core.py:193-201 | the inner loop of pass 2 stops exactly when no `(…)` group is left and the bracket content is absent or a single token |
| Passes.Lookup | TeXCalc/core.py:203-208 | new content gets `k + 1`, known content keeps its index |
| Passes.NextGroupNotToken | TeXCalc/core.py:210 | the span replaced is never already its token, so the text changes |
| Passes.MoveEntry | TeXCalc/core.py:211-212 | storing the new text and deleting the old keeps the map indexed |
| Passes.Rewrite | TeXCalc/core.py:203-212 | a round replaces the group by the token of its content's index, under the same index |
| Passes.ReduceGroups | TeXCalc/core.py:187-212 | the loop on one index ends with a text that has no group left, or changes nothing when the index has no text; texts under other indices up to the counter are left alone, and with one text per index every text under this index ends empty or group-free |
| Passes.ExtractGroups | TeXCalc/core.py:184-212 | pass 2 keeps the map indexed and the counter only grows; with one text per index, as pass 1 leaves it, every index up to the old counter ends with no text, the empty text or a text without groups |
| Passes.RewriteEntries | TeXCalc/core.py:203-212 | after a round the old text is gone, the new text is under the index, and every other entry was there before or is the content entered under the fresh index |
| Passes.RewriteDistinct | TeXCalc/core.py:203-212 | a round keeps the texts under distinct indices |
| Passes.NumberedDistinct | TeXCalc/core.py:170-181 | pass 1's numbering puts no two texts under the same index |
| Passes.InvertIndexed | TeXCalc/core.py:214 | reversing an indexed map gives distinct indices between 0 and `k` |
| Passes.Extract | TeXCalc/core.py:226-243 | matched text already in the map reuses its last index; new text is entered under `k + 1`; the match is replaced by the token |
| Passes.ExtractKeepsOthers | TeXCalc/core.py:233-243 | an extraction changes no other entry |
| Passes.ReduceRule | TeXCalc/core.py:223-245 | a rule that extracts nothing leaves the map and is settled on that index |
| Passes.ReduceIndex | TeXCalc/core.py:222-245 | an index on which no rule extracts is settled for every rule |
| Passes.ReduceRound | TeXCalc/core.py:219-245 | a round that extracts nothing leaves every rule settled on every index |
| Passes.ReduceGrammar | TeXCalc/core.py:216-245 | pass 3 ends with every rule settled on every index: no match, or a match spanning the whole text |
| Passes.VariableIndex | TeXCalc/core.py:248-251 | a variable whose text is in the map reuses that index, otherwise it gets `k + 1` |
| Passes.BindText | TeXCalc/core.py:259-275 | the masking code computes `Bound` |
| Passes.BindOthers | TeXCalc/core.py:255-275 | every other entry is rebound in place and in order; the variable's own entry is kept |
| Passes.BindVariable | TeXCalc/core.py:248-275 | one variable: its entry is stored and every other text is rebound |
| Passes.BindVariables | TeXCalc/core.py:247-275 | pass 4 over the declared variables; iterating `None` is a TypeError |
| Core.Commands | TeXCalc/core.py:139 | every operand span reported lies after the start and inside the text |
| Core.CommandsSound | TeXCalc/core.py:139 | every reported operand is a maximal run of word characters right after a backslash |
| Core.CommandsComplete | TeXCalc/core.py:139 | no backslash followed by a word character is missed |
| Core.Unsupported | TeXCalc/core.py:139-141 | the operands kept are exactly those not in the reserved words |
| Core.HasUnsupportedOperands | TeXCalc/core.py:132-143 | None without an expression, else the unsupported operands in order |
| Core.FirstFreeWord | TeXCalc/core.py:150 | the first `(?<!\\)\w` position, or none |
| Core.ImmutableIff | TeXCalc/core.py:145-154 | an expression counts as immutable exactly when every word character in it follows a backslash |
| Core.PiIsNotImmutable | TeXCalc/core.py:150-152 | `\pi` alone is not immutable |
| Core.UnsupportedRaised | TeXCalc/core.py:81-83 | construction raises UnsupportedOperands listing every `\word` that is not reserved, in order |
| Core.VariablesAccepted | TeXCalc/core.py:53-59 | the variables pass exactly when they form a tuple of one-letter lower-case names, none of them reserved |
| Core.StaticTextsLong | TeXCalc/core.py:57 | no one-letter name is a static operand |
| Core.NoVariablesNotAConst | TeXCalc/core.py:94-95 | without variables, a free word character makes construction raise NotAConst |
| Core.MakeTexts | TeXCalc/core.py:156-275 | the four passes yield a numbered map; a missing expression is an AttributeError, and missing variables are an error |
| Core.Wrap | TeXCalc/core.py:277-280 | one fresh, empty processor per entry, under its index, knowing the variables |
| Core.FirstBadVarSpec | TeXCalc/core.py:112-124 | no error exactly when every variable has a decimal value; an error names a variable that is missing or not decimal |
| Core.FirstBadVarAppend | TeXCalc/core.py:112-124 | the check stops at the first bad variable in declared order |
| Core.ReadVariables | TeXCalc/core.py:111-124 | the loop raises the first bad variable's error, or builds the value of each variable |
| Core.TeXCalc.Create | TeXCalc/core.py:52-98 | the constructor's checks in order; then the given map is kept when processing is skipped, and otherwise the map holds, under each index of the numbered texts the passes produce, a fresh empty processor with that index and that text |
| Core.TeXCalc.Call | TeXCalc/core.py:100-130 | NotDefined, TypeError, the first bad variable's error, KeyError; otherwise entry 0's cached values, each rounded (5 places by default) |

## Left out

- The trigonometric, inverse-trigonometric and logarithm bodies are the uninterpreted `Ops.leftOut`. They are float `math` calls.
- `eval`, Decimal `/` and `**`, `round` and `str` of a Decimal are uninterpreted `Ops` fields, and Decimal precision is not modelled. Only the `@@` to `@*@` rewrite and the token substitution before `eval` are modelled.
- Python's regex engine is not modelled. Each pattern is a hand-written matcher of what it matches on the texts the library produces.
- A reserved word is matched as a literal, where `re.finditer(reserved_word, …)` reads it as a regex. The reserved words are not part of this model, so their regex characters cannot be checked.
- `Evaluator.Dedup` fixes the order of `tuple(set(…))` to first occurrence, where Python's order depends on hashing.
- `ProcessorMetaclass` registration and the `_subclasses` set are not modelled. The rule order is the `rules` parameter.
- `custom_processors` is not modelled. The processor classes are the `Scanner.Rule` constructors.
- Debug logging in `__create_from_search` is not modelled.
- `SUPPORTED_OPERANDS` and the `Doc` texts are display only and are not modelled.
- `DecimalField.__call__` is dead code and is not modelled. The commented-out `Sum` and `Prod` are not modelled either.
- The `InvalidContextMap` checks in `__call__` are not modelled. In the model a context map is typed `map<int, ContextProcessor>`, so those checks cannot fail.
- `ContextProcessor.__init__` raises BadVariables when it is given non-tuple variable names. This is not modelled, because the library passes only tuples.
- `pi` (the class attribute) is a constant that is never read and is not modelled.
- Core.MakeTexts, Passes.ExtractGroups and Passes.ReduceGrammar: termination in the source depends on the rule set. Each takes a `fuel` bound and fails with `OutOfFuel` when it runs out. Nothing states what fuel is enough.
- Evaluator.ContextProcessor.Compute: the recursion through dependencies takes `fuel`, because the index graph's acyclicity is not modelled. The contract does not state the values `__calculate_origin` yields for a fresh key, only how they relate to the cache. `Round` and `Store` state that the cached entry is the origin's values without duplicates.
- Core.MakeTexts: states only the numbering of the map and the error cases, not each pass's contents. Those are stated by the pass members in `Passes`.
- Core.TeXCalc.Create: the expression text left behind by pass 1 (`self.__expr`) is never read after construction and is not kept.
- Core.TeXCalc.Create: the numbered texts are a ghost result. The contract ties each node to its text, but it cannot name `MakeTexts`, a method, as their origin. That holds by the body, which calls it with the built-in processor classes' `RuleOnce()`.
- Passes.ExtractGroups: `range(k + 1)` is evaluated once, so indices entered during pass 2 are not visited. The contract says nothing about their texts, which may still hold a group.
- Exceptions.Format: only `{name}` replacement fields are modelled. `{{`, `}}`, positional fields and format specs are not. No message in the library uses them.
- Text.IsDigit and Text.IsWordChar: `\d`, `\w` and `str.isdigit` are ASCII only (`0-9`, and letters, digits and `_`). Python also accepts other Unicode digits and letters.
- Fields.ParseDecimal: accepts only an optional sign, digits and at most one decimal point. `Decimal` also accepts exponents, surrounding whitespace, `Infinity`, `NaN` and `_` between digits.
- Core.TeXCalc.Call: takes `str(value)` of each keyword argument, and `parse` stands for `Decimal`.
