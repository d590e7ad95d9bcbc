# Proofs about the bot library's pre-compiler, and about the PO synchroniser

`src/botlib` reads bot scripts through a small C-like pre-compiler: a lexer over
a buffer, macro expansion by pushing tokens back, conditional compilation by a
stack and a counter, and an expression evaluator without a parse tree.
`misc/i18n-sync-pot-files.py` keeps a translation template in step with its
translations. This project models both in Dafny and proves what they promise.
`dafny verify dfyconfig.toml` checks all of it.

Each component comes twice. The imperative code is modelled in its own form, by
classes and loops (`Evaluator`, `DefineTables.DefineTable`,
`Sources.LoadedSource`, `Merging.MergeList`, `Scripts.LoadedScript`,
`Punctuations.CreatePunctuationTable`, `Memory.MemoryManager`, `PoTool`). Each
method is proved equal to a specification function, and the main results are
proved about those functions.

## The components

- **Expressions** (`Evaluator`, `ExpressionTrees`, `EvaluatorCorrectness`,
  `Bits`). The evaluator scans tokens into a list of values and a list of
  operators tagged with parenthesis depth and priority, and reduces the first
  operator that is not below the next. `EvaluateAnyTree`: for every expression
  tree, written with just the parentheses its priorities need, the result is the
  strict recursive value of the tree, and a failure exactly if the tree exceeds
  the limits, nests a `?:` in a third operand, or has no value.
- **Macro expansion** (`Macros`, `Precompiler`, `Streams`, `Expansion`, `Calls`,
  `Merging`, `Termination`, `Returning`, `Fuel`). Reading tokens yields their full
  expansion, with calls of defines with parameters nested in arguments and in bodies,
  or begun in a body and ended behind it (`ReadsExpanded`): every parameter becomes
  the full expansion of its argument. The `##` pass turns each chain into its
  concatenation, on nodes linked by pointers. Where no bodies name one another in a
  cycle, reading always returns, with defines of both kinds (`AcyclicReturns`). Calls of `PC_ReadToken` on a stream of usable object-like defines get to
  its end exactly if the defines it names are grounded, a condition on the table of
  defines alone (`CallsEnd`); with a cycle in reach no number of calls is enough
  (`CycleNeverEnds`).
- **Conditional compilation** (`Conditionals`, `Preprocessing`,
  `SourceInvariants`). The stack of indents and the counter `skip` carry out the
  recursive reading of nested regions, whose directives stand on lines that may go
  on behind backslashes. `ReadsText` joins this with expansion, with `#define` lines
  of both kinds, and with the joining of strings (`StringJoining`) into one
  statement about repeated `PC_ReadToken` calls.
- **Defines** (`DefineTables`). Hash chains refine a map over any history of
  `#define` and `#undef`.
- **Lexing** (`Lexer`, `Punctuations`, `Scripts`, `LexedFiles`). The cursor stays
  in the buffer, the line counter is right in every state, success moves forward,
  white space is skipped exactly, and punctuations are read by maximal munch.
- **Blocks** (`Memory`). A doubly linked list with three running totals.
- **PO files** (`PoText`, `PoEntries`, `PoSync`, `PoBuilt`, `PoBroken`,
  `PoIdempotence`, `PoTool`). Printing and parsing undo each other, and a second
  run of the tool reports no change exactly if no key it adds has another line
  break than newlines.

## What the code does that a reader might not expect

- Adjacent unary operators apply in the order they are written, not from the
  inside. That is harmless exactly for runs that come to the same from both ends,
  `!!` or `!~!` but not `!~` (`UnaryRunsAgree`, `TwoUnaryOperators`). A run before a
  parenthesis applies to the first value behind it, so that `!!(0+1)` is 0
  (`RunBeforeParen`, `DoubleNotOfSum`).
- A `?:` in the third operand of another fails; in the first or second it does not
  (`ValueIsReading`).
- A `defined` at the end of a list makes the evaluator read through a null pointer
  exactly if the list in front of it is accepted and still awaits an operand; `+
  defined` just fails. Without `++` and `--` no other list does
  (`EvaluateCrashesExactly`), with them some do (`IncrementCrashes`).
- A define with an empty body, or with tokens `##` cannot merge, makes reading
  fail, but behind a string the failure is swallowed, and a second string is then
  not joined to the first (`UnusableFails`, `FailureAfterStringIsSwallowed`).
- The conditions of skipped regions are evaluated too: reading gets past an `#if` line
  exactly if its condition has a value, skipped or not (`IfGoesOn`), and fails at one
  that names no define (`UndefinedNameFails`).
- The first parameter name behind `#define NAME(` is itself macro-expanded: it becomes
  the parameter exactly if it is not the name of a define (`FirstParameterKept`). With
  `#define X A`, `#define F(X) X` gives F the parameter A and the body X
  (`FirstParameterExpanded`).
- A name that is defined already cannot be defined again where a backslash and a
  line end stand between `#define` and the name (`RedefinitionFails`).
- The token behind `$evalint` is taken for the opening parenthesis without a look
  (`EvalintReplaces`).
- A negative `$evalint` leaves a `-` token and a number token whose text is the
  magnitude while its `intvalue` still carries the sign (`EvalintReplaces`).
- A missing key with a carriage return, form feed or vertical tab is written
  unescaped, and the next run fails on the broken line (`SecondRun`,
  `CarriageReturnBreaks`).

## Model

| member | source | states |
|---|---|---|
| Evaluator.ScanDefined | src/botlib/l_precomp.c:1799-1858 | the `defined` branch of the scan delivers what the recursive scan does, with or without parentheses, and fails or crashes alike |
| Evaluator.ScanTokens | src/botlib/l_precomp.c:1799-2061 | the scanning loop delivers the recursive scan's values and tagged operators, and its errors |
| Evaluator.FindPeak | src/botlib/l_precomp.c:2067-2107 | the search stops at the first operator not below the next and at that operator's first value; it fails only when the values before it run out, and follows a null pointer only when there are none and the first operator passed takes two |
| Evaluator.ReduceOnce | src/botlib/l_precomp.c:2067-2315 | one round of the loop reduces, fails, or follows a null pointer exactly as the specification's step does |
| Evaluator.EvaluateTokens | src/botlib/l_precomp.c:1768-2352 | the scan and the reduction loop deliver exactly the outcome the specification names: value, failure, or a read through a null pointer |
| ExpressionTrees.ReduceTree | src/botlib/l_precomp.c:2067-2315 | between operators below it and operators it is not below, a whole tree's values and operators reduce to the tree's strict value before anything else is touched, or the whole reduction fails |
| ExpressionTrees.ReduceTreeConditional | src/botlib/l_precomp.c:2105-2290 | the same for a `?:`, whose condition waits while its branches reduce |
| EvaluatorCorrectness.ScanTree | src/botlib/l_precomp.c:1799-2061 | scanning a tree's tokens appends exactly its values and its operators with their depths, or fails when a limit of 64 or a missing integer mode forbids it |
| EvaluatorCorrectness.EvaluateTree | src/botlib/l_precomp.c:1768-2352 | evaluating the tokens of any correctly grouped tree gives the value of the tree as this evaluator orders it, and fails exactly when that has none or the limits are passed |
| EvaluatorCorrectness.ValueIsReading | src/botlib/l_precomp.c:2105-2290 | that value is the ordinary reading, except exactly for conditionals pending inside a third operand |
| EvaluatorCorrectness.EvaluateIsReading | src/botlib/l_precomp.c:1768-2352 | evaluation equals the ordinary strict recursive reading for grouped trees whose unary runs come to the same from both ends, and fails exactly if the tree does not fit, nests a `?:` in a third operand, or has no reading |
| EvaluatorCorrectness.ParenthesizeGroups | src/botlib/l_precomp.c:1672-1730 | inserting parentheses where priorities ask for them makes any tree correctly grouped and leaves its priority |
| EvaluatorCorrectness.ParenthesizeKeepsReading | src/botlib/l_precomp.c:1672-1730 | those parentheses change no value |
| EvaluatorCorrectness.EvaluateAnyTree | src/botlib/l_precomp.c:1768-2352 | for every abstract tree, flattening it with the parentheses it needs and evaluating gives its strict recursive value, and fails exactly if it exceeds the limits, nests a `?:` in a third operand, or some subtree has no value |
| EvaluatorCorrectness.UnaryRunsAgree | src/botlib/l_precomp.c:2067-2130 | a run of unary operators of any length gives the ordinary value for every operand if and only if it comes to the same shape from both ends, a condition on the run alone |
| EvaluatorCorrectness.TwoUnaryOperators | src/botlib/l_precomp.c:2067-2130 | for two operators that is if and only if they are the same, and `!~!` is a longer run of that kind |
| EvaluatorCorrectness.RunBeforeParen | src/botlib/l_precomp.c:2067-2130 | a run of unary operators before a parenthesised expression is applied, all but the innermost, to the expression's first value instead |
| EvaluatorCorrectness.DoubleNotOfSum | src/botlib/l_precomp.c:2067-2130 | `!!(0+1)` evaluates to 0, and the ordinary reading is 1 |
| EvaluatorCorrectness.ScanBalanced | src/botlib/l_precomp.c:1799-2061 | on any tokens without `++` and `--`, an accepted scan leaves one value more than two-place operators after an operand, and crashes only on a list that ends in `defined` |
| EvaluatorCorrectness.ReduceStepBalanced | src/botlib/l_precomp.c:2067-2315 | every reduction step removes one operator and keeps values ahead of two-place operators by one; no value is ever missing |
| EvaluatorCorrectness.ReduceBalanced | src/botlib/l_precomp.c:2067-2315 | so a whole reduction never misses a value and ends with exactly one |
| EvaluatorCorrectness.EvaluateLeavesOne | src/botlib/l_precomp.c:1768-2352 | on any tokens without `++` and `--` a success comes from the one value that is left |
| EvaluatorCorrectness.ScanCrashesExactly | src/botlib/l_precomp.c:1799-1858 | on any tokens at all the scan follows a null pointer if and only if the last one is `defined` and those before it are accepted and still await an operand |
| EvaluatorCorrectness.EvaluateCrashesExactly | src/botlib/l_precomp.c:1768-2352 | without `++` and `--` the whole evaluation follows a null pointer if and only if that is so |
| EvaluatorCorrectness.IncrementCrashes | src/botlib/l_precomp.c:2067-2130 | with `++` it can elsewhere: `++ n` does |
| Numerals.DecimalRoundTrip | src/botlib/l_script.c:630-635 | the decimal numeral of a number reads back as the number |
| DefineTables.InsertRepresents | src/botlib/l_precomp.c:512-541 | adding a new name puts it into the bucket of its hash and the table still stands for the map |
| DefineTables.DeleteRepresents | src/botlib/l_precomp.c:1094-1170 | unlinking removes the name from the map, unless its define is fixed, and disturbs no other |
| DefineTables.DeleteUndoesInsert | src/botlib/l_precomp.c:1094-1170 | in any table, also with names that repeat, the define added last is the one found, and unlinking it gives back the table before it |
| DefineTables.HistoryRepresents | src/botlib/l_precomp.c:1094-1230 | after any sequence of definitions and undefinitions the table stands for the map updated by the same operations, for every hash function |
| DefineTables.NamesAreUnique | src/botlib/l_precomp.c:512-541 | a name occurs in at most one node of the whole table |
| DefineTables.DefineTable.HashOf | src/botlib/l_precomp.c:492-505 | the hash loop computes the bucket number, which is below 1024 |
| DefineTables.DefineTable.Locate | src/botlib/l_precomp.c:527-541 | the chain walk stops at the node of the name if and only if the map has it |
| DefineTables.DefineTable.FindHashedDefine | src/botlib/l_precomp.c:527-541 | lookup agrees with the map |
| DefineTables.DefineTable.Add | src/botlib/l_precomp.c:512-525 | adds one name to the map |
| DefineTables.DefineTable.Remove | src/botlib/l_precomp.c:1108-1142 | removes a name from the map if it is there and not fixed |
| DefineTables.DefineTable.Update | src/botlib/l_precomp.c:1286-1320 | a define already hashed changes in place |
| Sources.AddGlobalDefines | src/botlib/l_precomp.c:1540-1554 | the table of a new source stands for the distinctly named global defines |
| Sources.LoadedSource.constructor | src/botlib/l_precomp.c:3362-3392 | a loaded source has one script, no indents, nothing skipped and the distinctly named global defines |
| Sources.LoadedSource.PushIndent | src/botlib/l_precomp.c:103-115 | pushes an indent of the current script and counts its skip bit |
| Sources.LoadedSource.PopIndent | src/botlib/l_precomp.c:122-146 | pops the top indent and its bit, if it belongs to the current script |
| Sources.LoadedSource.PushScript | src/botlib/l_precomp.c:153-168 | pushes a script unless one of that name, in any case, is on the stack |
| Sources.LoadedSource.ReadSourceToken | src/botlib/l_precomp.c:208-250 | takes the next pushed-back token, else the next of the scripts, dropping the indents of scripts that end |
| Sources.LoadedSource.UnreadSourceToken | src/botlib/l_precomp.c:258-266 | puts a token in front of everything to be read |
| Sources.LoadedSource.ReadLine | src/botlib/l_precomp.c:1045-1067 | reads a token of the current line, over backslash continuations, or puts it back |
| Sources.LoadedSource.ReadDefineParms | src/botlib/l_precomp.c:279-393 | splits a call's arguments at top-level commas with the errors of the source |
| Sources.LoadedSource.ExpandDefineIntoSource | src/botlib/l_precomp.c:743-923 | pushes the substituted and merged body in front of the pending tokens |
| Sources.LoadedSource.Evaluate | src/botlib/l_precomp.c:2362-2490 | collects an `#if` line, expanding defines, and evaluates it |
| Sources.LoadedSource.DollarEvaluate | src/botlib/l_precomp.c:2500-2646 | collects the tokens to the matching parenthesis and evaluates them |
| Sources.LoadedSource.DirectiveIfDef | src/botlib/l_precomp.c:1562-1609 | `#ifdef` and `#ifndef` push an indent with the right skip bit |
| Sources.LoadedSource.DirectiveElse | src/botlib/l_precomp.c:1614-1632 | `#else` turns the skip bit round, and fails without an `#if` or behind another `#else` |
| Sources.LoadedSource.DirectiveEndif | src/botlib/l_precomp.c:1638-1649 | `#endif` pops an indent or fails |
| Sources.LoadedSource.DirectiveElif | src/botlib/l_precomp.c:2653-2671 | `#elif` replaces the indent by one that holds only its own condition |
| Sources.LoadedSource.DirectiveIf | src/botlib/l_precomp.c:2678-2690 | `#if` pushes an indent that skips when the value is zero |
| Sources.LoadedSource.DirectiveUndef | src/botlib/l_precomp.c:1094-1170 | `#undef` removes an unfixed define and fails without a name |
| Sources.LoadedSource.DirectiveDefine | src/botlib/l_precomp.c:1177-1335 | `#define` replaces an unfixed define, reads parameters and body, and rejects a `##` at either end |
| Sources.LoadedSource.CheckTokenString | src/botlib/l_precomp.c:3229-3246 | looks ahead with full reading, so that the token it puts back is macro-expanded |
| Sources.LoadedSource.DirectiveInclude | src/botlib/l_precomp.c:962-1040 | finds the file by either form of name and pushes it |
| Sources.LoadedSource.ReadDirective | src/botlib/l_precomp.c:2834-2867 | dispatches on the directive's name |
| Sources.LoadedSource.ReadDollarDirective | src/botlib/l_precomp.c:2948-2980 | dispatches `$evalint` and `$evalfloat` |
| Sources.LoadedSource.ReadRound | src/botlib/l_precomp.c:2989-3060 | one round of the reading loop: a directive, a skipped token, an expansion, or a token to return |
| Sources.LoadedSource.ReadToken | src/botlib/l_precomp.c:2989-3070 | the whole call, with the joining of strings by recursion |
| Sources.SubstituteTokens | src/botlib/l_precomp.c:764-853 | the substitution loop replaces parameters and stringizes behind `#` |
| Sources.MergeTokenList | src/botlib/l_precomp.c:854-886 | the `##` loop on a list gives the merged list or fails |
| Expansion.ExpandLeavesNoDefine | src/botlib/l_precomp.c:3046-3064 | a full expansion contains no define's name |
| Expansion.StepOnToken | src/botlib/l_precomp.c:2989-3064 | on a plain token, a round returns it, or replaces a define's name by its body, and touches nothing behind it |
| Expansion.ReadExpands | src/botlib/l_precomp.c:743-923 | reading a prefix whose object-like defines nest at most `depth` deep yields exactly its expansion and stops in front of the rest |
| Expansion.ExpandsIfRead | src/botlib/l_precomp.c:2989-3064 | conversely, a stream read to its end in some number of rounds has an expansion |
| Termination.ReadingEnds | src/botlib/l_precomp.c:2989-3064 | the rounds of the reading loop get to the end of a stream of object-like defines, with none that fails, if and only if every define it names is grounded, and then yield the full recursive expansion |
| Termination.SameEnd | src/botlib/l_precomp.c:2989-3064 | they end in one way only |
| Termination.ExpandedIsUnique | src/botlib/l_precomp.c:743-923 | tokens have one full expansion, whatever number of nested names it is looked for with |
| Termination.AcyclicIsGrounded | src/botlib/l_precomp.c:1302-1322 | with usable bodies and no cycle every define is grounded |
| Termination.CyclicIsNotGrounded | src/botlib/l_precomp.c:743-923 | no define of a cycle is grounded |
| Termination.ReadAllExpands | src/botlib/l_precomp.c:2989-3070 | calling `PC_ReadToken` until it fails returns exactly the expansion of a stream that has one, with adjacent strings joined, in all large enough numbers of calls and rounds |
| Termination.CallsEnd | src/botlib/l_precomp.c:2989-3070 | on usable defines without strings, some number of calls gets to the end of the stream if and only if every define it names is grounded |
| Termination.CycleNeverEnds | src/botlib/l_precomp.c:743-923 | if the stream names a define of a cycle, no number of calls and of rounds gets to its end |
| Termination.AcyclicEnds | src/botlib/l_precomp.c:2989-3070 | with usable bodies and no cycle the calls get to the end and return the full expansion with adjacent strings joined |
| Returning.ArgumentsReturn | src/botlib/l_precomp.c:279-393 | where no bodies name one another in a cycle, reading a call's arguments returns, with fully expanded arguments and no more names to expand behind them than before |
| Returning.TokenReturns | src/botlib/l_precomp.c:2989-3070 | so does one call of `PC_ReadToken`, and after a token there are fewer names to expand, or as many in fewer tokens |
| Returning.AcyclicReturns | src/botlib/l_precomp.c:2989-3070 | so calls come to an end, at the end of the tokens or at an error, for defines with and without parameters; all larger bounds give the same |
| Returning.PastedNeverEnds | src/botlib/l_precomp.c:854-886 | with `##` that fails: after `#define AB A##B` reading AB never comes to an end, though the body names no define |
| Fuel.MoreExpansion | src/botlib/l_precomp.c:743-923 | expanding a define that returns under some bound returns the same under every larger one |
| Fuel.MoreToken | src/botlib/l_precomp.c:2989-3070 | so does a call of `PC_ReadToken`, directives and all |
| Fuel.MoreAll | src/botlib/l_precomp.c:2989-3070 | and so do calls until failure |
| Calls.ExpandedIsExpand | src/botlib/l_precomp.c:743-923 | on object-like defines the full expansion with calls is, at some depth, the expansion of streams, and needs no rounds of its own |
| Calls.ExpandedLeavesNoDefine | src/botlib/l_precomp.c:3046-3064 | it contains no define's name, of either kind |
| Calls.ReadsArgument | src/botlib/l_precomp.c:318-391 | reading an argument stores its full expansion, whatever defines and calls it names, and stops in front of what follows it |
| Calls.ReadsCall | src/botlib/l_precomp.c:279-393 | where the arguments' full expansions are balanced and without top-level commas, splitting succeeds if and only if there are no more arguments than parameters, at most 128; it stores those expansions in order, leaves the others empty and consumes exactly through the matching parenthesis |
| Calls.SubstitutesParameters | src/botlib/l_precomp.c:764-853 | substitution replaces each parameter by its argument and keeps every other token, in order |
| Calls.CallIsReplaced | src/botlib/l_precomp.c:743-923 | a define's name and the call behind it are replaced by the body with its parameters replaced by the full expansions of the arguments, stringized behind `#` and merged at `##`, in front of everything behind the call, or the round fails if that is empty or cannot be merged |
| Calls.ReplacesParameters | src/botlib/l_precomp.c:764-886 | without `#` and `##` that is the body with each parameter replaced and every other token in its place, and it fails only if it is empty |
| Calls.ReadsExpanded | src/botlib/l_precomp.c:2989-3064 | reading tokens yields their full expansion, with calls nested in arguments and in bodies, begun in a replacement and ended behind it, and stops in front of the rest |
| Calls.LooksAhead | src/botlib/l_precomp.c:2989-3064 | one call of `PC_ReadToken` returns the first token that this expansion gives, and leaves what stands behind it |
| Merging.MergesChains | src/botlib/l_precomp.c:854-886 | the pass replaces every chain, whatever `##` tokens stand in its gaps, by its pasted token, and fails if and only if some chain cannot be pasted |
| Merging.Pastes | src/botlib/l_precomp.c:424-443 | a chain can be pasted if and only if it is one token, a name followed by names and numbers, or strings only; the result spells the concatenation |
| Merging.MergeStep | src/botlib/l_precomp.c:854-886 | one round on linked nodes keeps the list well formed, moves forward, and keeps the last node known |
| Merging.MergeList | src/botlib/l_precomp.c:854-886 | the pass over linked nodes ends with the merged tokens, the same first node, and the returned last node having nothing behind it |
| Merging.SpliceList | src/botlib/l_precomp.c:907-923 | linking a list in front of the pending one loses no token of either |
| Conditionals.ReadsBody | src/botlib/l_precomp.c:1300-1334 | a define's body is the rest of its line, however often a backslash continues it, without the define's own name, and a `##` at either end is an error |
| Conditionals.ReadsParameters | src/botlib/l_precomp.c:1243-1294 | names and commas up to the closing parenthesis become the parameters, in order |
| Conditionals.DefineStep | src/botlib/l_precomp.c:1177-1335 | a `#define` line in taken text, with parameters or without, its first parameter expanded and however continued, sets exactly the define it spells and reading goes on behind the line |
| Conditionals.RedefinitionFails | src/botlib/l_precomp.c:1193-1220 | a name already defined, behind a backslash and a line end, makes `#define` fail |
| Conditionals.FirstParameterKept | src/botlib/l_precomp.c:1232-1262 | the name behind the opening parenthesis becomes the first parameter if and only if it is not the name of a define |
| Conditionals.FirstParameterExpanded | src/botlib/l_precomp.c:1232-1262 | with `#define X A`, the line `#define F(X) X` makes a define with the parameter A and the body X |
| Preprocessing.FirstParameterIsPlain | src/botlib/l_precomp.c:3229-3246 | in any state, a token that the look for the closing parenthesis puts back on the line becomes no parameter if it names a define |
| Conditionals.UndefStep | src/botlib/l_precomp.c:1094-1170 | an `#undef` line, continued or not, removes exactly an unfixed define |
| Conditionals.IfStep | src/botlib/l_precomp.c:2362-2490 | an `#if` line, continued or not, pushes an indent that skips if and only if the line, with the defines and calls on it expanded, evaluates to zero |
| Conditionals.IfGoesOn | src/botlib/l_precomp.c:2362-2490 | reading gets past an `#if` line if and only if its condition evaluates, in skipped text too |
| Conditionals.UndefinedNameFails | src/botlib/l_precomp.c:2362-2490 | an `#if` line that starts with an undefined name makes reading fail, in skipped text too |
| Conditionals.IfdefStep | src/botlib/l_precomp.c:1562-1609 | `#ifdef` and `#ifndef` push an indent that skips if and only if the name is not, or is, defined |
| Conditionals.ElseStep | src/botlib/l_precomp.c:1614-1632 | `#else` exchanges the branches |
| Conditionals.EndifStep | src/botlib/l_precomp.c:1638-1649 | `#endif` restores the context of the region |
| Conditionals.SkipsLine | src/botlib/l_precomp.c:2834-3064 | a skipped `#define` or `#undef` line has no effect, whatever stands on it but tokens that start with `#` or `$` |
| Conditionals.RunsRegion | src/botlib/l_precomp.c:1562-1649 | a whole region with both branches yields what the recursive reading of it yields and restores stack and counter |
| Conditionals.RunsText | src/botlib/l_precomp.c:2989-3064 | in any context, skipping or not, rounds over a text yield what its recursive reading yields and leave exactly its defines |
| Preprocessing.ReadsText | src/botlib/l_precomp.c:2989-3070 | calling `PC_ReadToken` until it fails, on nested regions around tokens and calls, `#define` lines with and without parameters and `#undef` lines, any of them continued by backslashes, returns exactly the recursively read tokens with adjacent strings joined, and leaves exactly those defines and no open conditional, under all large enough bounds |
| Preprocessing.IfTakesReading | src/botlib/l_precomp.c:2362-2490 | an `#if` over the text of any expression tree takes its branch if and only if the ordinary reading of the tree is not zero |
| DollarDirectives.EvalintReplaces | src/botlib/l_precomp.c:2874-2901 | `$evalint ( E )`, with the defines and calls in E expanded, is replaced, before the untouched rest, by an optional minus sign, there if and only if the value is negative, and one number whose numeral reads back as the magnitude |
| DollarDirectives.EvalintOfTree | src/botlib/l_precomp.c:2500-2646 | for the text of any expression tree that value is the ordinary reading of the tree |
| StringJoining.JoinRun | src/botlib/l_precomp.c:3023-3044 | a run of strings becomes one string whose content is their contents in order, and joining stops at the end of the run |
| StringJoining.JoinedApart | src/botlib/l_precomp.c:3023-3044 | no two strings in a row are left |
| StringJoining.ReadTokenJoins | src/botlib/l_precomp.c:3023-3044 | one call returns the first joined token and leaves a source that reads as the remaining joined tokens |
| StringJoining.ReadAllJoins | src/botlib/l_precomp.c:2989-3070 | calling until failure returns exactly the joined tokens of raw reading, if no joined string exceeds the token length |
| StringJoining.UnusableFails | src/botlib/l_precomp.c:907-915 | a define with an empty or unmergeable body makes the call fail and its name is gone |
| StringJoining.FailureAfterStringIsSwallowed | src/botlib/l_precomp.c:3023-3044 | behind a string that failure is not seen: the string is returned and not joined with a later one |
| SourceInvariants.LoadedSource | src/botlib/l_precomp.c:3362-3392 | a source just loaded satisfies the invariant |
| SourceInvariants.PushIndentKeeps | src/botlib/l_precomp.c:103-115 | pushing an indent keeps it |
| SourceInvariants.PopIndentKeeps | src/botlib/l_precomp.c:122-146 | so does popping |
| SourceInvariants.PushScriptKeeps | src/botlib/l_precomp.c:153-168 | so does including a file: names stay pairwise distinct in any case |
| SourceInvariants.ReadSourceTokenKeeps | src/botlib/l_precomp.c:208-250 | so does reading a token; without lexing errors the end of the last script leaves no indents and `skip` zero |
| SourceInvariants.DirectiveKeeps | src/botlib/l_precomp.c:2653-2867 | so does every directive, `#elif` and `#include` too |
| SourceInvariants.ReadTokenKeeps | src/botlib/l_precomp.c:2989-3070 | so does every `PC_ReadToken` call, successful or not: `skip` is the sum of the skip bits, file names are distinct, and without lexing errors every indent has its script on the stack |
| SourceInvariants.ReadAllKeeps | src/botlib/l_precomp.c:2989-3070 | and so do whole runs of calls |
| Lexer.WhiteIsBlank | src/botlib/l_script.c:277-351 | skipping ends at a position if and only if whole blanks and comments lead there and none begins there |
| Lexer.Escape | src/botlib/l_script.c:359-448 | an escape is at least the backslash, stays in the buffer and never steps over a newline |
| Lexer.EscapedNumberReads | src/botlib/l_script.c:408-438 | a backslash and the decimal numeral of a character read as that character, and stop behind the numeral |
| Lexer.PlainStringReads | src/botlib/l_script.c:464-555 | a string of characters that stand for themselves reads as it is written, and goes on into another string behind white space if and only if that is allowed |
| Lexer.LongestMatch | src/botlib/l_script.c:872-906 | the punctuation read is the longest of the list that the script has at the cursor, and none is read if and only if it has none |
| Lexer.LexAt | src/botlib/l_script.c:941-1023 | a token read ends strictly further on and inside the buffer |
| Lexer.PrintedNumberReads | src/botlib/l_script.c:683-815 | lexing the numeral of a number gives one number token with its value, as integer and as float |
| LexedFiles.LexedIsQuoted | src/botlib/l_script.c:464-555 | a string token has both its quotes and fits a token |
| LexedFiles.LexedFile | src/botlib/l_precomp.c:208-250 | repeated reading gives fewer tokens than characters, and all strings are fit for joining |
| LexedFiles.ReadScript | src/botlib/l_precomp.c:208-250 | reading a loaded script token by token gives exactly the file of the specification, with cursor, line and table right at the end |
| Punctuations.BucketHolds | src/botlib/l_script.c:130-178 | a bucket holds exactly the punctuations with its first character, in non-increasing length |
| Punctuations.Insert | src/botlib/l_script.c:143-177 | one insertion keeps the list linked and ordered and leaves the other lists alone |
| Punctuations.CreatePunctuationTable | src/botlib/l_script.c:130-178 | whatever the next fields held before, every list of the table is then the bucket of its character |
| Scripts.LoadedScript.constructor | src/botlib/l_script.c:1554-1583 | a loaded script ends with a NUL, is at its start on line 1, and has its table |
| Scripts.LoadedScript.ReadWhiteSpace | src/botlib/l_script.c:277-351 | stops where the specification says, with the line counter right, and reports failure if and only if that is at a NUL |
| Scripts.LoadedScript.ReadEscapeCharacter | src/botlib/l_script.c:359-448 | the character and the cursor are those of the specification; the line does not change |
| Scripts.LoadedScript.ReadString | src/botlib/l_script.c:464-555 | reads a string, joined over white space, or fails at a newline, a NUL or the length limit, with cursor and line right in each case |
| Scripts.LoadedScript.ReadName | src/botlib/l_script.c:563-587 | reads the longest name, or fails at the length limit |
| Scripts.LoadedScript.ReadDigitText | src/botlib/l_script.c:683-780 | reads the digits and finds the base and whether there is a dot |
| Scripts.LoadedScript.ReadSuffixes | src/botlib/l_script.c:781-798 | reads at most one long and one unsigned mark, in either order |
| Scripts.NumberValue | src/botlib/l_script.c:596-675 | computes the integer and the real value for every base, for a number that ends in a dot, and for one with a second dot, which leaves the integer 0 |
| Scripts.LoadedScript.ReadPunctuation | src/botlib/l_script.c:872-906 | walks the linked list of the character and reads its first match |
| Scripts.LoadedScript.ReadToken | src/botlib/l_script.c:941-1023 | whether it succeeds or fails, the table stays ready, the cursor stays in the buffer and `line` is one more than the newlines before it; `linescrossed` is the number of newlines skipped, and success moves strictly forward |
| Memory.ZoneIsNotHunk | src/botlib/l_memory.c:245-263 | of a list exactly the blocks that are not on the hunk go back to the zone, each as often |
| Memory.MemoryManager.LinkMemoryBlock | src/botlib/l_memory.c:73-82 | the list is well formed in both directions with the block in front |
| Memory.MemoryManager.UnlinkMemoryBlock | src/botlib/l_memory.c:88-102 | the list is well formed without that block, the others in order |
| Memory.MemoryManager.GetMemory | src/botlib/l_memory.c:112-133 | a new zone block of the given size and its header is in front, and the totals are right |
| Memory.MemoryManager.GetHunkMemory | src/botlib/l_memory.c:164-185 | the same for the hunk |
| Memory.BlockFromPointer | src/botlib/l_memory.c:214-239 | a pointer is known if and only if a header of the manager with that address lies before it |
| Memory.MemoryManager.FreeMemory | src/botlib/l_memory.c:245-263 | frees exactly that block, gives it back to the zone if it came from there, and keeps the totals; an unknown pointer changes nothing |
| Memory.MemoryManager.MemoryByteSize | src/botlib/l_memory.c:270-280 | the size with the header, or 0 |
| Memory.MemoryManager.DumpMemory | src/botlib/l_memory.c:322-332 | ends with an empty list and all three totals zero, having given back exactly the blocks not on the hunk, in order |
| PoText.SplitJoined | misc/i18n-sync-pot-files.py:208-210 | joined lines split back into themselves, before any rest |
| PoText.EscapeIsEach | misc/i18n-sync-pot-files.py:90-92 | the three replacements in a row escape each character by itself |
| PoText.UnescapeEscape | misc/i18n-sync-pot-files.py:77-92 | unescaping an escaped string gives it back, for every string without a NUL |
| PoEntries.PartsRejoin | misc/i18n-sync-pot-files.py:104-113 | the parts of a multi-line value join back into it |
| PoEntries.ParsesFormatted | misc/i18n-sync-pot-files.py:95-205 | formatting a value and parsing its lines sets the field to the value, over however many lines |
| PoEntries.ParsesBuilt | misc/i18n-sync-pot-files.py:231-251 | parsing the block built for a key gives that key back, absent and empty contexts apart |
| PoSync.SortedOrders | misc/i18n-sync-pot-files.py:254-255 | sorting by the stable key puts keys in order and keeps each as often |
| PoSync.ParsesSeparated | misc/i18n-sync-pot-files.py:208-228 | entries written with an empty line between each two parse into themselves |
| PoSync.ParsePoDelivers | misc/i18n-sync-pot-files.py:208-228 | every entry parsing delivers is a live block of whole lines that parses into it again |
| PoBuilt.BuiltWritten | misc/i18n-sync-pot-files.py:231-251 | a built block has its lines whole if and only if the key has no line break but newlines |
| PoBuilt.BuiltParses | misc/i18n-sync-pot-files.py:231-251 | the block built for such a key is a live one and parses into its entry |
| PoBroken.UncleanFails | misc/i18n-sync-pot-files.py:208-251 | the block of any other key does not parse back, whatever follows |
| PoIdempotence.KeptKeys | misc/i18n-sync-pot-files.py:286-302 | pruning keeps exactly the keys the translations have, and not pruning keeps all |
| PoIdempotence.KeptEntries | misc/i18n-sync-pot-files.py:286-302 | headers and wanted entries stay, each as often, and no other |
| PoIdempotence.KeptInOrder | misc/i18n-sync-pot-files.py:286-302 | they stay in their order |
| PoIdempotence.MissingKeys | misc/i18n-sync-pot-files.py:305-316 | each missing key is added exactly once |
| PoIdempotence.RunDelivers | misc/i18n-sync-pot-files.py:281-341 | what one run writes parses into the kept entries unchanged and in order, then the missing keys, each once, in order; its keys are the translations' with pruning and the union without |
| PoIdempotence.SecondRun | misc/i18n-sync-pot-files.py:258-357 | a second run with the same translations and flags removes, adds and changes nothing if no missing key has another line break than newlines, and otherwise fails |
| PoIdempotence.CarriageReturnBreaks | misc/i18n-sync-pot-files.py:77-113 | an escaped carriage return in a translated string is such a key |
| PoTool.WritePoString | misc/i18n-sync-pot-files.py:95-113 | the loop writes the lines of the specification |
| PoTool.WritePotEntry | misc/i18n-sync-pot-files.py:231-251 | the block of the specification |
| PoTool.CheckObsolete | misc/i18n-sync-pot-files.py:116-124 | whether the first line that is not blank marks the block obsolete |
| PoTool.ReadEntry | misc/i18n-sync-pot-files.py:127-205 | the loop over the lines parses the entry of the specification or raises |
| PoTool.ReadPoFile | misc/i18n-sync-pot-files.py:208-228 | the loop over a file's lines delivers the specification's entries |
| PoTool.KeepEntries | misc/i18n-sync-pot-files.py:286-302 | the kept entries, and how many were removed |
| PoTool.FindMissing | misc/i18n-sync-pot-files.py:305-316 | the missing keys in the order of their first entry |
| PoTool.Synchronise | misc/i18n-sync-pot-files.py:258-357 | the whole run reports and writes what the specification says, and raises when pruning without translations |

## Left out

- File access, `botimport` calls, printing and the text of errors and warnings are not modelled. `#include` looks files up in a map from path to tokens, and allocation never fails.
- Inside `LoadedSource` and `DefineTable` the linked lists are sequences. Pointers are modelled where the code relies on them: `Merging.TokenNode`, `Punctuations.Punctuation`, `Memory.MemoryBlock`. Freeing tokens and `numtokens` are left out.
- The C calls that may not return carry a number of rounds or nested expansions; a run that needs more is reported as stuck, and the results about whole runs say that some number suffices. `Termination` says when none does.
- Integers are unbounded and floats are reals, so overflow and rounding are not modelled, and shift counts outside 0 to 31 follow the unbounded shift.
- A NUL that an escape writes into a token ends its text in C; here it is a character like others.
- Tokens cut off at MAX_TOKEN are not modelled outside the lexer and the joining of strings, where the limit is an error.
- Sources.LoadedSource.ReadSourceToken: a script whose lexing fails delivers no more tokens, while the original may go on reading behind some errors in the last script; the lexer and its errors are modelled in `Scripts`.
- Sources.AddGlobalDefines: global defines that share a name are left out. They are all in the table, the oldest is the one found, and its `#undef` brings the next one back (`DefineTables.DeleteUndoesInsert`).
- Sources.LoadedSource.constructor: the same holds for the global defines it adds.
- EvaluatorCorrectness.EvaluateCrashesExactly: lists with `++` or `--`, which the code reports as errors but evaluates on, are outside it.
- Termination.CallsEnd: strings are left out, because a call that joins strings to more than MAX_TOKEN characters fails in the middle of the stream. `ReadAllExpands` and `AcyclicEnds` include strings that fit.
- Termination.ReadingEnds: that reading does not end is shown for object-like defines only; with parameters `Returning` has the other half.
- Returning.AcyclicReturns: directives among the tokens and `##` are left out. `##` makes names that stand in no body, so that reading can go on for ever without a cycle of bodies (`PastedNeverEnds`).
- EvaluatorCorrectness.EvaluateAnyTree: a unary operator on another is written with parentheses between them, because the evaluator applies runs of them in the other order.
- Preprocessing.ReadsText: `#elif`, `#include` and `$evalint` are outside this statement, as are lines that are errors. `#elif` forgets an earlier taken branch; it is kept in the invariant of `SourceInvariants`.
- Conditionals.DefineStep: a first parameter whose expansion takes tokens from beyond the line is outside it.
- Conditionals.IfStep: a call that goes over a line end without a backslash, and a replacement that ends the line or makes it go on, are outside it.
- Calls.ReadsCall: an argument whose expansion holds a parenthesis that closes the call, or a comma outside parentheses, is outside it. The code splits and closes there; that is in the model and in the invariant.
- DollarDirectives.EvalintReplaces: `$evalfloat` and the directives `#eval`, `#evalfloat` are modelled, but nothing is proved about the two digits of their numerals.
- Token fields the C code leaves uninitialised (the `subtype` and `linescrossed` of a stringized token, the `subtype` of the number of `#eval`) are given fixed values.
- Builtin defines use the clock and are never registered. `source->token`, handles and the non-debug memory functions are thin wrappers.
- A define undefined while its own parameter list is read is freed in C while still in use. The model keeps the value.
- Scripts.LoadedScript.ReadToken: `tokenavailable`, primitive scripts and bytes of 0x80 and above are left out; a token's `line` and white space pointers are reduced to a flag.
- Memory.MemoryManager.FreeMemory: a pointer to a block already freed is outside its contract, as the original reads freed memory there.
- PoText.UnescapeEscape: of Python's literals only the simple escapes are read; escapes with digits or names, other quotes, prefixes and adjacent literals count as errors.
- PoTool.ReadEntry: translations, comments and line numbers of entries are not kept, since synchronising does not use them, an index of `msgstr[...]` must be plain digits, and escapes with digits or names, and comments behind a literal, count as errors.
- Listing and replacing files, the dry run and the command line of the synchroniser are left out.
- The rest of the repository (game, client, renderer, other scripts) is not modelled.
