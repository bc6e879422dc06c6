# SauceScript compiler and split router: a verified model

The repository compiles SauceScript, a JavaScript and TypeScript subset, to bytecode for two
engines, and splits swaps greedily across pools. This project models the parts of it that
rewrite, analyse, link, encode or allocate, in Dafny 4.11, and proves what each is for.
`dafny verify dfyconfig.toml` checks everything.

## What is modelled

* **Inline functions** (`Sauce`, `SauceNames`, `Inline*`). SauceScript after parsing, with an
  operational semantics whose operators and outside calls are parameters. Expansion hoists
  calls, renames bodies apart and turns `return` into a result and a done flag; it is proved to
  preserve meaning and to be complete; `InlineAccepts` says when it succeeds. `InlineState` runs the same expansion on the shared
  counter, `InlineRecursion` is the call-graph search, and `InlineDepth`, `InlineUnbounded` and
  `InlineCap` are what passing it buys: bounded evaluation, and expansion that ends without a cap.
* **The TypeScript partial evaluator** (`TsLang`, `TsConst`, `TsRewrite*`, `TsFrame`). A second
  language, with arrays as references, aliasing and outside calls that may rewrite any array
  they were ever given. Its arithmetic is the evaluator's own: unbounded integers, division
  truncating toward zero, booleans as 0 and 1, one flat scope across `if` and `while`. On it:
  the constant evaluator (`TsConst*`), constant propagation (`LocalConst*`), loop unrolling
  (`Unroll*`) and the removal of local `new Array(n)` (`ArrayFold*`). One simulation
  (`TsRewrite`, `TsRewriteStmts`) carries the last three. `Arith` holds the operators this
  evaluator and the compiler's share, `ArithLaws` the laws that fix them.
* **The split router** (`Greedy*`, `Megas`, `SplitSwap*`). The emitted program's three loops over
  transient storage, the chunk loop of the off-chain script, optimality under concave quotes by
  exchanging buckets, and how far rounding can keep real pools from it (`GreedyNear`,
  `SplitSwapNear`).
* **The v12 linker and staged arguments** (`Linker`, `LinkErrors`, `Staged`). Bodies are bytes with recorded
  placeholders; the prologue runs on a small stack machine.
* **Encoders** (`Bytes`, `Encode*`, `ArrayLiteral`, `Abi*`). Arguments and array literals as
  prefix codes; struct literals of a contract call against the section "Formal Specification of
  the Encoding" of the Solidity Contract ABI Specification, with a decoder for it (`AbiDecode`).
* **Whole-program analyses** (`Treeshake*`, `ReturnKind*`).
* **Stateful pieces** (`Slots`, `SlotNames`, `CacheKey`, `CacheKeyOrder`, `Cache`, `CachedCompile`). The last has
  compiled results as objects that callers may change.

Code that only computes is functions and lemmas. Code that updates something is a class or a
method with loops, proved equal to a function, and the properties are proved of that function.

Soundness alone would also hold of a pass that does nothing, so each pass has a second half: what
it must do, stated without its own definition. `ArithLaws` does this for the operators, the
modules ending in `Exact` for the evaluators, passes and encoders, and `InlineAccepts`,
`ReturnKindReason`, `AbiShape`, `SlotNames` and `LinkErrors` for the rest.

## Where the code falls short of its own account

Each of these is kept as the code has it. The lemma named gives the failing inputs, and where
it says so the exact condition.

* `inline.ts` renames parameters and locals but not the constants a body reads, so a caller's
  variable of that name captures them: `InlineTheorem.CaptureExactly`.
* `inline.ts` says a cycle routed through real functions is caught; one through a function
  already finished is not: `InlineRecursion.MixedCycleSlips`. Where no cycle lies wholly among
  real functions it is exact: `InlineRecursion.RecursionCheck.Run`.
* `ts-frontend.ts` hands a folded callee the caller's own view of names, so that a caller's
  variable stands in for the file's constant: `LocalConstLimits.CapturedCallExactly`. The
  function table it folds from is collected before any pass, so the callee still has the name.
* `ts-frontend.ts` tracks `x` past `let y = x++` with its old value:
  `LocalConstSound.NestedUpdateIsSeenIffUnknown`, and through the whole pass
  `LocalConstLimits.NestedUpdateExactly`.
* `ts-frontend.ts` checks an unrolled body's own declarations but not those inside an `if`,
  which can leak: `UnrollLimits.BranchLeaksExactly`. Two such copies also declare the name twice
  in one flat scope, which `setVar` refuses later (`Slots.Context.SetVar`). A counter that is not
  a bigint passes through a double: `Unroll.DoubleExactly`, `UnrollLimits.CounterRoundsExactly`.
* `index.ts` writes call offsets of 2^16 and more without complaint on the inline-argument
  path: `Linker.OperandExactBelow64K`. A tuple argument longer than 255 wraps its length byte:
  `Encode.RecoveredIffSmall`.
* `array.ts` takes code that begins with a literal push for a literal:
  `ArrayLiteral.PackedHoldsValuesIffWhole`, `ArrayLiteral.CodeTakenForLiteral`,
  `ArrayLiteral.SumComesBackWrong`.
* `expression.ts` reorders struct literals for `tuple` and `tuple[]` but not inside `tuple[k]`:
  `AbiFlatten.FixedArrayKeepsNameOrder`, and for every call `AbiFlatten.CallDataExactly`.
* `const-eval.ts` ignores a local that takes a constant's name: `TreeshakeTheorem.ShadowedTestExactly`.
* `context.ts` does not check that a slot index fits its byte: `Slots.SlotsFitAByte`,
  `Slots.SlotOverrun`.
* `megas-swap.ts` never clears its counts, so a second program in one transaction swaps the first
  one's buckets again: `Megas.Run`, `Megas.RunTwice`.
* `split-swap.ts` takes the constant-product quote for concave; rounding can lift a marginal by
  one: `SplitSwap.MarginalsFallUpToRounding`, `SplitSwap.RoundingCanRaiseMarginal`. What that can
  cost is at most two units a chunk: `SplitSwapNear.GreedyIsNearOptimal`.

## Model

| member | source | states |
|---|---|---|
| InlineTheorem.ExpansionPreservesMeaning | compiler/src/processor/inline.ts:1296-1337 | For every function, arguments, outside world and meaning of the operators, the expanded function run with no inline functions at all ends as call-by-value evaluation of the original does: same ending, value, outside calls and source variables (conditions: single-declarator inline calls, no outside call hoisted over, no captured constant) |
| InlineTheorem.ExpansionIsComplete | compiler/src/processor/inline.ts:1378-1391 | No call of an inline function is left anywhere in expanded code |
| InlineTheorem.SameConstants | compiler/src/processor/inline.ts:1028-1097 | Expansion introduces no name that hides a constant the original sees, and uncovers none |
| InlineTheorem.DoneFlagRewrite | compiler/src/processor/inline.ts:1109-1167 | The done-flag rewrite ends with done = 1 and result = v exactly when the body returns v, with both 0 exactly when it falls through, and throws when it throws |
| InlineTheorem.CaptureExactly | compiler/src/processor/inline.ts:1028-1056 | A constant read by an inline body is captured by a caller variable of that name; the expanded program agrees with the original if and only if the captured value is the constant |
| InlineMeaning.HoistRuns | compiler/src/processor/inline.ts:678-863 | Hoisted code followed by what is left of the expression gives the value the expression had, throws when it threw, and touches no older name |
| InlineMeaning.CallRuns | compiler/src/processor/inline.ts:1028-1097 | The code of one expanded call leaves in its result name what the call returns and leaves every older name alone |
| InlineMeaning.ElimRuns | compiler/src/processor/inline.ts:1109-1167 | Return elimination refines the body statement list by statement list, guards included |
| InlineMeaning.ExpandListRuns | compiler/src/processor/inline.ts:1296-1337 | Caller-mode expansion of any statement list, loops and branches included, ends as the list does |
| InlineRename.RenameEnds | compiler/src/processor/inline.ts:464-632 | A body renamed apart, run in the caller's frame, ends as the body does in a frame of its own |
| InlinePure.AlwaysTerminatesSound | compiler/src/processor/inline.ts:320-339 | A body accepted by the fall-through check never falls off its end |
| InlineAccepts.TerminatesExactly | compiler/src/processor/inline.ts:320-339 | The fall-through check accepts exactly the bodies with a return, a throw, or an if both sides of which stop, somewhere in the list |
| InlineAccepts.InlineableExactly | compiler/src/processor/inline.ts:117-189 | Validation rejects a body exactly for a loop or jump somewhere in it |
| InlineAccepts.ListAccepts | compiler/src/processor/inline.ts:678-863 | A caller whose inline calls stand where they may, with the right arguments, is not complained of, and a caller that expands is such |
| InlineAccepts.ExpandsExactly | compiler/src/processor/inline.ts:1037-1097 | Expansion of a program the recursion check passed succeeds if and only if every inline call stands where it may |
| InlineAccepts.ComplaintDeserved | compiler/src/processor/inline.ts:1037-1056 | When it fails, the cap is named only past the bound, and any other complaint only when some place in the caller or an inline body does not fit for that very reason |
| InlineRecursion.SearchSound | compiler/src/processor/inline.ts:246-276 | A visit of the search reports only real cycles through an inline function; where it reports none the finishing order stays sound and the visited function is in it, unless its caller is a real function whose calls need not be |
| InlineRecursion.RecursionCheck.Visit | compiler/src/processor/inline.ts:246-276 | One visit on the one colour map and path ends as the search defined on values does, cycle reported and colours left included |
| InlineRecursion.RecursionCheck.Run | compiler/src/processor/inline.ts:235-281 | The whole check: a reported path is a cycle through an inline function; passing leaves none wholly among inline functions; and where no cycle lies wholly among real functions it passes if and only if no cycle runs through an inline one |
| InlineRecursion.AcceptedMeansNoInlineCycle | compiler/src/processor/inline.ts:235-281 | In any finishing order an accepting run can have, no cycle lies wholly among inline functions |
| InlineRecursion.MixedCycleSlips | compiler/src/processor/inline.ts:246-280 | The search accepts a program with a cycle through an inline function: the program, its run and the cycle |
| InlineDepth.AcceptedIsOrdered | compiler/src/processor/inline.ts:201-281 | The finishing order of an accepted program strictly descends along every call leaving an inline function |
| InlineDepth.DepthSuffices | compiler/src/processor/inline.ts:201-281 | So evaluation of accepted inline functions needs no more depth than there are functions: any greater depth gives the same result |
| InlineUnbounded.AcceptedIsWeighed | compiler/src/processor/inline.ts:201-281 | Every accepted program can be weighed so that a call is heavier than the body it is replaced by, its own nested calls included |
| InlineCap.CapIrrelevant | compiler/src/processor/inline.ts:1037-1097 | For every accepted program expansion ends with no cap at all, takes at most a bound computed from the finishing order and the bodies, and every cap from that bound up, 4096 included, gives the same result and never reports too many expansions |
| InlineState.ExpandState.NextId | compiler/src/processor/inline.ts:1037-1043 | The call-site counter: each expansion takes the next id, and the cap is refused with the counter unchanged |
| InlineState.HoistExprAt | compiler/src/processor/inline.ts:678-863 | Hoisting as it runs, bumping the shared counter: equals the counter-passing definition |
| InlineState.ExpandCallAt | compiler/src/processor/inline.ts:1028-1097 | Call expansion as it runs on the shared counter |
| InlineState.EliminateAt | compiler/src/processor/inline.ts:1109-1167 | Return elimination as it runs on the shared counter |
| InlineState.ExpandListAt | compiler/src/processor/inline.ts:1296-1337 | Caller-mode expansion as it runs on the shared counter |
| ArithLaws.BinaryIsLawful | compiler/src/processor/const-eval.ts:117-165 | The binary operators obey laws that name no definition: quotient and remainder toward zero, powers and shifts of sums, the floor of a right shift, and every bit of &, | and ^ |
| ArithLaws.LawsDecide | compiler/src/processor/const-eval.ts:117-165 | Operators that obey those laws are the same on all operands, None included: the laws leave no choice |
| TsConstExact.FoldsLawfully | compiler/src/ts-frontend.ts:171-239 | What the TypeScript evaluator makes of any binary operator on two literals obeys all those laws |
| TsConstExact.FoldsUnaryLawfully | compiler/src/ts-frontend.ts:147-169 | And of a unary operator on a literal: its arithmetic, complement and negation laws |
| TsConstExact.ConstExact | compiler/src/ts-frontend.ts:98-239 | Over names, operators and foldable calls the evaluator gives exactly what evaluation gives where the known names are those the state has: the same value, and none just where evaluation has none |
| TsConstExact.InvokeExact | compiler/src/ts-frontend.ts:335-387 | A foldable call folds to what calling gives, and declines exactly where calling has no value |
| TsConst.ConstSound | compiler/src/ts-frontend.ts:98-239 | A folded value is the value big-step evaluation gives in every store that agrees with the constants on unshadowed names, and evaluating the expression changes nothing |
| TsConst.InvokeSound | compiler/src/ts-frontend.ts:335-387 | Folding a call, with defaults and parameters unknown until their turn, gives what calling the function gives |
| TsConst.FoldCall | compiler/src/ts-frontend.ts:335-387 | The one-pass loop over parameters computes the overlay the definition prescribes, declining in the same cases |
| TsRewrite.Simulates | compiler/src/ts-frontend.ts:4306-4428 | An expression and its rewriting (folds, substitutions, reads of hidden arrays) give the same value and states that differ only in what is hidden |
| TsRewriteStmts.ListSame | compiler/src/ts-frontend.ts:4981-4994 | A statement list and its rewriting end alike from states that differ only in what is hidden, loops included |
| LocalConstSound.PropagationPreservesMeaning | compiler/src/ts-frontend.ts:4582-4994 | The propagated body ends as the original in every state: same result, effects and final store (conditions: nested writes only of names already unknown; a constant the body assigns is one of its own names; no function it calls reads, by name, a constant one of its names could stand for) |
| LocalConstSound.FoldSame | compiler/src/ts-frontend.ts:4473-4535 | Folding or substituting an expression changes neither value nor effects, and a folded value is the expression's |
| LocalConstSound.TrackMerge | compiler/src/ts-frontend.ts:4755-4788 | After either branch, what both branches agree on holds: the if/else merge keeps the invariant |
| LocalConstSound.FrozenSame | compiler/src/ts-frontend.ts:4884-4922 | Reads of names a loop never writes may be replaced throughout it at once |
| LocalConstSound.NestedUpdateIsSeenIffUnknown | compiler/src/ts-frontend.ts:4684-4721 | After `let y = x++` the invariant holds if and only if nothing was known of x |
| LocalConstExact.PropagationClears | compiler/src/ts-frontend.ts:4582-4994 | After the pass no name known at a statement is read there any more, at any depth, called functions and assignment targets aside |
| LocalConstExact.LoopExactly | compiler/src/ts-frontend.ts:4884-4922 | Past a loop exactly the names it writes are forgotten, and no other known name is read in it |
| LocalConstExact.MergeExactly | compiler/src/ts-frontend.ts:4755-4788 | After an if a name has a known value exactly when both branches leave it that value |
| LocalConstExact.ChoiceTaken | compiler/src/ts-frontend.ts:4306-4428 | A ternary whose test is known is replaced by the side taken |
| LocalConstExact.ConstantProgramsFold | compiler/src/ts-frontend.ts:4582-4994 | A program of declarations, assignments, compound assignments and updates over constants comes out with every value written out, its return the value running it returns |
| LocalConstLimits.NestedUpdateExactly | compiler/src/ts-frontend.ts:4684-4721 | For the whole pass over `let x = e; let y = x++; return x`, whatever e is and however it ends: original and rewriting end alike if and only if the walk cannot fold e |
| LocalConstLimits.NestedUpdateGoesStale | compiler/src/ts-frontend.ts:4684-4721 | With a literal for e, in any file and state: the original returns v + 1, its rewriting v |
| LocalConstLimits.CapturedCallExactly | compiler/src/ts-frontend.ts:351-386 | The whole pass on a caller with its own X and y, calling a function that reads the file's X with y: original and rewriting return the same if and only if the two X are equal |
| LocalConstState.LocalEnv.Snapshot | compiler/src/ts-frontend.ts:4055-4082 | The environment resolved against the file's constants: known locals laid over them, unknown ones shadowed |
| LocalConstState.LocalEnv.MergeFrom | compiler/src/ts-frontend.ts:4755-4788 | The in-place branch merge equals the definition and touches no other name |
| LocalConstState.LocalEnv.MarkUnknown | compiler/src/ts-frontend.ts:4084-4104 | All the given names become unknown and nothing else changes |
| LocalConstState.WalkStmtAt | compiler/src/ts-frontend.ts:4924-4979 | The walk of one statement, updating the environment in place, equals its definition |
| LocalConstState.WalkLoopAt | compiler/src/ts-frontend.ts:4884-4922 | The frozen loop rule as it runs: forget what the loop writes, then substitute |
| LocalConstState.PropagateAt | compiler/src/ts-frontend.ts:5061-5097 | The whole pass over one function body, from a fresh environment |
| Unroll.TripsExact | compiler/src/ts-frontend.ts:714-746 | The loop still runs after i iterations exactly when i is below the ceiling quotient |
| Unroll.CounterValues | compiler/src/ts-frontend.ts:714-746 | The counting loop lists exactly the values the counter takes, and gives up past 256 |
| Unroll.DoubleExactly | compiler/src/ts-frontend.ts:748-760 | A counter that is not a bigint keeps its value through a double if and only if it has at most 53 significant bits |
| UnrollExact.UnrollsExactly | compiler/src/ts-frontend.ts:766-818 | A for loop is unrolled if and only if counter, bound and step are constants, comparison and step agree, it ends within 256 iterations, nothing in its body forbids it and the copies declare no name twice or taken |
| UnrollExact.UnrollsWhileExactly | compiler/src/ts-frontend.ts:825-885 | A while loop if and only if besides that its declaration comes just before, its step last, and the counter is not mentioned after |
| UnrollExact.ToDoubleIsNearest | compiler/src/ts-frontend.ts:748-760 | The double is the nearest multiple of the unit its magnitude has, ties to even |
| UnrollSound.IterationsSame | compiler/src/ts-frontend.ts:701-764 | From any counter value on, the rest of the loop is the rest of the copies |
| UnrollSound.UnrollForSame | compiler/src/ts-frontend.ts:766-818 | An accepted `for` ends as its copies do, in the same state but for the names its body declares (body leaves the counter alone) |
| UnrollSound.UnrollForExactly | compiler/src/ts-frontend.ts:644-664 | For every loop: copies and loop agree when the body declares nothing, even inside an `if`, and otherwise exactly when the copies leave those names as they were |
| UnrollLimits.BranchLeaksExactly | compiler/src/ts-frontend.ts:644-664 | A loop whose body is `if (p) { let y = w; }` is unrolled; the copies agree with it if and only if it runs no times, p is 0, or y already held the value of w |
| UnrollLimits.CounterRoundsExactly | compiler/src/ts-frontend.ts:748-760 | A loop that stores its counter in a is unrolled; the copy agrees with it if and only if the counter has at most 53 significant bits |
| UnrollSound.UnrollWhileSame | compiler/src/ts-frontend.ts:825-885 | Declaration, `while` and what follows end as the copies and what follows do, with the counter gone |
| ArrayFold.FullWhenAllWritten | compiler/src/ts-frontend.ts:3380-3418 | Without duplicate or out-of-range writes, as many writes as elements are every element |
| ArrayFold.ClassifyRegion | compiler/src/ts-frontend.ts:3380-3418 | The classification loop over the construction region returns the elements exactly when the definition does |
| ArrayFoldExact.ClassifyExactly | compiler/src/ts-frontend.ts:3380-3418 | The region has these elements and this last write if and only if every element is written once before and at it and the array is not otherwise mentioned in between |
| ArrayFoldUses.StmtExactly | compiler/src/ts-frontend.ts:3585-3763 | A statement is accepted only if replacing the constant-index reads of the array leaves no mention of it, and is whenever it also uses it plainly |
| ArrayFoldExact.PlanExactly | compiler/src/ts-frontend.ts:3779-3853 | An array is folded, with these elements, if and only if it is created, filled and used in the prescribed way |
| ArrayFoldTheorem.FoldingPreservesRuns | compiler/src/ts-frontend.ts:3862-3892 | For every body, whatever is folded, the body without its arrays runs as the original does but for what is hidden |
| ArrayFoldTheorem.FoldingPreservesResult | compiler/src/ts-frontend.ts:3779-3892 | The function returns when the original does, with the same result |
| ArrayFoldTheorem.FoldingInvisible | compiler/src/ts-frontend.ts:3779-3892 | Entered in one and the same state, before any of its arrays is made, original and folded body end alike for the caller, with the same outside calls, and throw or break off in the very same state |
| ArrayFoldTheorem.HeldComplete | compiler/src/ts-frontend.ts:3325-3418 | After its last construction write a folded array holds its elements for good |
| ArrayFoldTheorem.KeptIsUsable | compiler/src/ts-frontend.ts:3585-3763 | A kept statement does not mention a folded array, or comes when the array is complete and reads it only at constant indices |
| ArrayFoldTheorem.DeletedStep | compiler/src/ts-frontend.ts:3862-3892 | A deleted construction statement changes only what is hidden |
| ArrayFoldTheorem.KeptStep | compiler/src/ts-frontend.ts:3862-3892 | A kept statement, its reads replaced by elements, does the same without the arrays |
| Greedy.BalancedIsOptimal | actions/src/megas-swap.ts:165-188 | With quotes 0 at 0, nondecreasing and of nonincreasing marginals, a balanced split is worth at least any other split of the same buckets |
| Greedy.CommitKeepsBalance | actions/src/megas-swap.ts:239-286 | Giving the next bucket to a pool with the greatest marginal keeps a split balanced |
| Greedy.NeverWorseThanOnePool | actions/src/megas-swap.ts:165-188 | So the split never pays less than any single pool taking everything |
| Greedy.NotConcaveNotOptimal | actions/src/megas-swap.ts:239-286 | Without concavity the greedy split can be beaten: a concrete pair of pools |
| Greedy.GreedilyIsBalanced | actions/src/megas-swap.ts:165-172 | Picking a first pool of greatest marginal every time gives every bucket out and, with concave quotes, a balanced split |
| Greedy.SplitCounts | actions/scripts/split-swap.ts:646-663 | Picks give each pool as many buckets as it was picked times |
| Greedy.OnePoolMore | actions/src/megas-swap.ts:263-286 | Buckets and worth of a split are sums over pools: its buckets, and what it is quoted for that many bucket sizes, nothing for none |
| Greedy.SwapsSendEach | actions/src/megas-swap.ts:174-188 | The swaps go to the pools in use, ascending, each for its whole count of buckets |
| Greedy.SendsOneWay | actions/src/megas-swap.ts:174-188 | Only one list of swaps does that |
| Megas.InitMarginals | actions/src/megas-swap.ts:151-163 | The init loop sets every marginal to its first bucket's quote and leaves counts and outputs as found |
| Megas.ArgMax | actions/src/megas-swap.ts:246-261 | The argmax loop picks a pool of greatest marginal when none is negative, and beats every lower-numbered pool strictly |
| Megas.GreatestIsBest | actions/src/megas-swap.ts:246-261 | On storage that holds a split, with quotes that never fall, that is the first pool of best marginal for the split |
| Megas.Record | actions/src/megas-swap.ts:263-286 | The commit adds one bucket to its pool's count and no other, and keeps counts, outputs and marginals in step with the quotes where they were |
| Megas.Allocate | actions/src/megas-swap.ts:165-172 | The greedy loop: n picks, each one more bucket for its pool on top of the counts found; from a split the storage holds, with rising quotes, each pick is the first pool that paid most for its next bucket, and concave quotes keep the split balanced |
| Megas.Execute | actions/src/megas-swap.ts:174-188 | The execute loop: pools ascend, and pool i is sent an amount if and only if its count is positive and the amount is that count times the bucket |
| Megas.Run | actions/src/megas-swap.ts:59-191 | The whole program on any storage: refuses what the builder refuses, otherwise swaps amountIn and every bucket left over in the counts, so exactly amountIn if and only if none were, and leaves its own counts behind; which pool gets how much; on clean storage with rising quotes each bucket went to the first pool that paid most for it, and no split pays more when they are concave |
| Megas.RunTwice | actions/src/megas-swap.ts:59-191 | Two programs in one transaction on clean storage: the first spends its amountIn, the second its own and, at its own bucket size, every bucket of the first again |
| Megas.BuildDispatcher | actions/src/megas-swap.ts:210-236 | The nested dispatcher reaches branch idx for every idx below N and reverts for every other |
| SplitSwap.QuoteExactly | actions/scripts/split-swap.ts:492-498 | The quote is the one output that keeps the product of reserves, counted as 1000 units each and 997 for each unit coming in, and one more unit out would not |
| SplitSwap.QuoteMonotone | actions/scripts/split-swap.ts:492-498 | More in never brings less out |
| SplitSwap.QuoteBelowReserve | actions/scripts/split-swap.ts:492-498 | The output reaches the whole reserve if and only if the pool holds none of the input token |
| SplitSwap.ProductNeverFalls | actions/scripts/split-swap.ts:492-498 | The product of the reserves never falls |
| SplitSwap.MarginalsFallUpToRounding | actions/scripts/split-swap.ts:492-498 | Marginals of equal steps never rise by more than one unit |
| SplitSwap.RoundingCanRaiseMarginal | actions/scripts/split-swap.ts:492-498 | That one unit does occur: a concrete pool |
| SplitSwap.ChunkCount | actions/scripts/split-swap.ts:622-623 | From 40 units on a chunk is the whole fortieth, there are 40 to 79 of them and less than one is left over; below that a single chunk |
| SplitSwap.GreedilySpends | actions/scripts/split-swap.ts:615-677 | So less than one chunk is unallocated and concave quotes make the split optimal |
| GreedyNear.EarnedIsNearOptimal | actions/scripts/split-swap.ts:646-663 | If marginals never rise by more than a slack, no split of the same chunks is worth more than twice the slack a chunk above one picked greedily |
| SplitSwapNear.PoolsNearlyConcave | actions/scripts/split-swap.ts:492-498 | Constant-product quotes, rounded down as they are, have marginals that never rise by more than one unit, between any two chunks of any pool |
| SplitSwapNear.GreedyIsNearOptimal | actions/scripts/split-swap.ts:615-677 | So for constant-product pools no split of the same chunks pays more than two units a chunk above the greedy one |
| SplitSwap.Allocator.CachedQuote | actions/scripts/split-swap.ts:634-643 | The quote cache answers with the pool's quote, 0 exactly when it fails or is 0, and stays right |
| SplitSwap.Allocator.Pick | actions/scripts/split-swap.ts:647-661 | One round picks the first pool of greatest marginal |
| SplitSwap.Allocator.Distribute | actions/scripts/split-swap.ts:645-663 | The chunk loop: every chunk goes to the first pool of greatest marginal at its time |
| SplitSwap.Allocator.Allocate | actions/scripts/split-swap.ts:615-677 | Pool i is sent an amount if and only if it was picked and the amount is its number of picks times the chunk; every pick was the first pool of greatest marginal at its time; errors for nothing to split and no pools |
| Linker.PatchCallsInPlace | compiler/src/index.ts:403-427 | In-place patching of call operands equals its definition, with both error cases |
| Linker.PatchRefsInPlace | compiler/src/index.ts:429-433 | In-place patching of parameter reads equals its definition, with the depth error |
| Linker.Assemble | compiler/src/index.ts:514-584 | Offsets first, then every body patched in its own buffer, then one blob: equals the definition on the no-argument and the with-arguments path |
| Linker.PatchResolves | compiler/src/index.ts:403-433 | In a patched body every call operand is its callee's offset, every SDUP its parameter's depth, and no other byte changed |
| Linker.LinkedCorrectly | compiler/src/index.ts:599-666 | In the final blob main and every helper sit, patched, exactly at the offsets the calls use, STOP and FUNC_RETURN behind them |
| Linker.OperandExactBelow64K | compiler/src/index.ts:419-425 | A call operand is where its callee starts if and only if that is below 2^16 |
| Linker.SdupPicksParameter | compiler/src/index.ts:546-550 | Where a linked body reads a parameter, its patched bytes hold an SDUP that picks that parameter past temporaries and frame word |
| LinkErrors.PatchesExactly | compiler/src/index.ts:403-433 | A body is patched if and only if its callees have offsets and its parameters are 1 to 16 deep; otherwise the error names the first callee without one, or else the first parameter out of reach |
| LinkErrors.LinksExactly | compiler/src/index.ts:514-584 | A program links if and only if every call is of a helper and every parameter within reach, one word nearer in main; otherwise it reports what main stumbles over, or else the first helper that does |
| Staged.BuildArgsLayout | compiler/src/index.ts:443-467 | The running-offset loop lays slots back to back, and the first list or object stops it |
| Staged.PrologueLength | compiler/src/index.ts:475-512 | The prologue has exactly the announced length whatever program length it is told |
| Staged.PrologueRuns | compiler/src/index.ts:492-512 | Run on program and payload of at most 65,535 bytes, the prologue pushes each slot's value in order, one cell per argument, and changes nothing below |
| Staged.StagedLengthExact | compiler/src/index.ts:613-650 | The linked program is as long as its prologue was told |
| Staged.StagedArgumentsRoundTrip | compiler/src/index.ts:335-354 | End to end: the linked program starts with a prologue that pushes exactly the original arguments |
| Encode.PrefixCode | compiler/src/index.ts:688-709 | For tuples of at most 255, a decoder returns the value written and the bytes that followed, untouched |
| Encode.RecoveredIffSmall | compiler/src/index.ts:688-709 | An argument is recovered if and only if no tuple in it is longer than 255, where the length byte wraps |
| Encode.FieldOrderIrrelevant | compiler/src/index.ts:78-80 | Writing an object's fields in another order changes no byte |
| Encode.DecodeInt | compiler/src/saucer/integer.ts:44-60 | An integer of any sign up to 32 bytes comes back from its shortest encoding |
| Encode.DecodeBytes | compiler/src/saucer/bytes.ts:6-13 | Bytes of any length up to 65,535 come back |
| EncodeExact.IntExactly | compiler/src/saucer/integer.ts:44-60 | An integer is encodable if and only if its magnitude is below 256 to the 32; then the bytes are 0x29 if negative, the number of digits, and the digits, most significant first and as few as there can be |
| EncodeExact.EncodableExactly | compiler/src/index.ts:688-709 | An argument is encodable if and only if no number in it, at any depth, takes more than 32 bytes and no byte string more than 65,535 |
| Encode.SortSorts | compiler/src/index.ts:78-80 | Fields are put in key order and none is lost or doubled |
| EncodeExact.AcceptedExactly | compiler/src/saucer/array.ts:59-92 | Which array literals are refused, and with which error, if and only if; an accepted one starts with its count and its width or element type |
| EncodeExact.DynamicRoundTrip | compiler/src/saucer/array.ts:83-92 | An array of byte strings, tuples and objects is accepted and its elements come back |
| ArrayLiteral.ArrayRoundTrip | compiler/src/saucer/array.ts:61-77 | Static literals come back whatever width up to 32 is forced, and wider ones are refused |
| ArrayLiteral.PackedHoldsPayloads | compiler/src/saucer/array.ts:29-37 | A packed array holds, zero-extended, the bytes after each element's first |
| ArrayLiteral.PackedHoldsValuesIffWhole | compiler/src/saucer/array.ts:20-37 | For all lists of sums of literals, at any depth, that are accepted: the packed array decodes to their values if and only if each one is a single literal |
| ArrayLiteral.CodeTakenForLiteral | compiler/src/saucer/array.ts:23-23 | Any computed sum of at most 33 bytes is accepted beside a wide literal and decodes to a number greater than its value |
| ArrayLiteral.SumComesBackWrong | compiler/src/saucer/array.ts:23-23 | For any two bytes a and b beside a wide literal, `[a + b, wide]` is accepted and does not decode to its values |
| AbiEncoding.OffsetPointsAtTail | compiler/src/processor/expression.ts:334-351 | In the standard's head/tail layout the offset of a dynamic part, head bytes counted, is where its tail is |
| AbiEncoding.Splice | compiler/src/processor/expression.ts:338-345 | Static parts spliced into the list around them encode as one nested static part does |
| AbiDecode.ReadsBack | compiler/src/processor/expression.ts:334-351 | A decoder that sees only the type and the bytes, following offsets, returns every value from the standard's encoding, whatever comes behind it |
| AbiDecode.BlobPadded | compiler/src/processor/expression.ts:334-351 | Behind its length a byte string is padded with zeros, up to the next multiple of 32 and no further |
| AbiDecode.StaticIffOneSize | compiler/src/processor/expression.ts:352-366 | A type counts as static if and only if all its values are equally long, which is what makes splicing one harmless |
| AbiDecode.EncInjective | compiler/src/processor/expression.ts:334-351 | The standard's encoding is unambiguous: two values of a type, dynamic ones included, with the same bytes are equal |
| AbiFlatten.FieldsEncoded | compiler/src/processor/expression.ts:374-407 | Flattened fields and nested fields contribute the same heads, tails and offsets, beside any siblings |
| AbiFlatten.CallDataEncodesEmitted | compiler/src/processor/expression.ts:413-441 | For any arguments, calldata is the selector and the standard's encoding of what the code takes the literals for, byte for byte at every depth, with the same errors |
| AbiFlatten.EmittedIsMeant | compiler/src/processor/expression.ts:315-332 | A literal with no struct literal inside a fixed-size or nested array is taken for what it means, errors included |
| AbiFlatten.CallDataIsStandard | compiler/src/processor/expression.ts:413-441 | Calldata is the selector and the standard's encoding of the argument tuple with structs nested, byte for byte at every depth, and fails exactly where the literal has no meaning |
| AbiFlatten.CallDataDecodes | compiler/src/processor/expression.ts:413-441 | A contract that decodes the calldata behind the selector gets what the arguments mean |
| AbiFlatten.CallDataExactly | compiler/src/processor/expression.ts:413-441 | For arguments with values of the declared types, calldata is the standard's encoding of what they mean if and only if the code takes each for that |
| AbiFlatten.FieldOrderIrrelevant | compiler/src/processor/expression.ts:379-391 | Reordering a literal's fields at any depth emits the same thing |
| AbiFlatten.FlattenInLoops | compiler/src/processor/expression.ts:374-407 | The map by name and the loop over components compute the definition, spread, unnamed and missing-field errors included |
| AbiShape.EmittedFlat | compiler/src/processor/expression.ts:352-401 | In what is emitted, at every depth, no tuple has a static tuple as an item: all are spliced |
| AbiShape.EmittedLeaves | compiler/src/processor/expression.ts:374-407 | Its leaves are the literal's fields, in the order the components are declared |
| AbiShape.EmittedExactly | compiler/src/processor/expression.ts:315-407 | A literal is emitted if and only if each named component of a struct parameter has a field and no spread or hole is met, at every depth |
| AbiShape.RefusedAt | compiler/src/processor/expression.ts:379-391 | Otherwise the error is that of the first component that is unnamed, missing, or itself refused |
| AbiShape.LookupIsLast | compiler/src/processor/expression.ts:379-386 | The field a component gets is the last property of its name |
| AbiShape.PlainIsSorted | compiler/src/processor/expression.ts:315-332 | A struct literal away from a struct parameter is its fields in name order |
| AbiFlatten.FixedArrayKeepsNameOrder | compiler/src/processor/expression.ts:315-332 | The failing family: a struct literal inside a fixed-size array stays in name order, right if and only if the order makes no difference |
| Treeshake.RegisterTopLevelConsts | compiler/src/processor/index.ts:362-382 | The registration loop: defines first and winning, then each foldable initializer in order |
| Treeshake.ConstantsConsistent | compiler/src/processor/const-eval.ts:15-33 | Every constant is a define or the value its initializer has under all constants together |
| TreeshakeExact.ConstantsExactly | compiler/src/processor/index.ts:362-382 | A define is registered as given, any other name with the value of its first initializer that has one given what came before it, and a name with none is not |
| TreeshakeExact.FoldsLawfully | compiler/src/processor/const-eval.ts:117-165 | What this evaluator makes of any binary operator on two literals obeys the operator laws |
| TreeshakeExact.OnlyBlocked | compiler/src/processor/const-eval.ts:15-115 | An expression has no value only because of a part that is an unknown name, a call or a choice, or an operator that declines |
| TreeshakeExact.LeftDecides | compiler/src/processor/const-eval.ts:85-115 | A left side that settles && or || settles it whatever the right side is |
| Treeshake.Walk | compiler/src/processor/index.ts:254-274 | The worklist returns exactly the names a chain of constant-pruned calls from main leads to, and that set is closed |
| Treeshake.Shake | compiler/src/processor/index.ts:254-276 | The declarations kept are main and those reached, in order |
| Treeshake.KeptTable | compiler/src/processor/index.ts:276-276 | Keeping declarations keeps exactly the reached names' meanings, duplicates included |
| TreeshakeSound.CallsAreEmitted | compiler/src/processor/index.ts:287-339 | The declared functions an emitted body calls are exactly those the walk collects |
| TreeshakeExact.EmitsExactly | compiler/src/processor/index.ts:287-339 | What is emitted is the body with every decided if and ternary replaced by the side taken, refused exactly where an undecided ternary is left out of place |
| TreeshakeExact.PruneComplete | compiler/src/processor/index.ts:287-339 | No test with a known value is left; a body without any is left alone, and so is every body when folding is off |
| TreeshakeExact.KeptInOrder | compiler/src/processor/index.ts:276-276 | A declaration is kept if and only if it is main or reached, with those around it as they were |
| TreeshakeSound.NoDanglingCall | compiler/src/processor/statement.ts:254-287 | Every call left in a kept function targets a kept function or none declared |
| TreeshakeSound.FewerInvoke | compiler/src/processor/index.ts:249-276 | Functions outside a self-contained set make no difference to a run inside it |
| TreeshakeTheorem.KeptRunsSame | compiler/src/processor/index.ts:249-276 | Emitting what is kept runs main as emitting everything does, with no condition on operators or names |
| TreeshakeTheorem.ConstSound | compiler/src/processor/const-eval.ts:15-165 | A compile-time value is what the expression evaluates to where no local takes a constant's name |
| TreeshakeTheorem.TreeshakePreservesMeaning | compiler/src/processor/index.ts:254-339 | The emitted kept functions run main as the source of all of them does: same result and outside calls, when no local takes a constant's name |
| TreeshakeTheorem.ShadowedTestExactly | compiler/src/processor/const-eval.ts:21-22 | A parameter named like a constant is ignored by the fold: right if and only if argument and constant are both true or both false |
| ReturnKind.Walker.WalkStatements | compiler/src/processor/return-kind.ts:159-176 | The walk over the local maps, in place, equals its definition, errors included |
| ReturnKind.Walker.WalkStatement | compiler/src/processor/return-kind.ts:184-309 | One statement on the local maps: declarations overwrite, assignments only promote, bindings are rebound or forgotten |
| ReturnKind.Walker.ApplyDestructuringKinds | compiler/src/processor/return-kind.ts:438-477 | Each bound name gets its own output's kind, or dynamic when that is unknown |
| ReturnKindFixpoint.VerdictJoins | compiler/src/processor/return-kind.ts:138-157 | A body is shown dynamic by two sets together exactly when by one of them, and its errors depend on neither |
| ReturnKindFixpoint.AnalyzeFunctionReturnKinds | compiler/src/processor/return-kind.ts:94-132 | The round loop ends within one round more than there are functions in the least fixpoint, or with an error some body has whatever is known |
| ReturnKindFixpoint.OrderIrrelevant | compiler/src/processor/return-kind.ts:94-132 | Two declaration orders of the same functions give the same kinds |
| ReturnKindFixpoint.DynamicIffExplained | compiler/src/processor/return-kind.ts:138-157 | A function is found dynamic if and only if a finite chain of functions explains it: recursion is no reason for itself |
| ReturnKindReason.DynamicExactly | compiler/src/processor/return-kind.ts:159-436 | A body is found dynamic if and only if, by an account that does not follow the walk, a dynamic value reaches a return: through a name last declared or promoted so, a destructured output, a known function's result or a method's single output; and it fails exactly at its first unresolvable method |
| ReturnKindReason.LeastReaches | compiler/src/processor/return-kind.ts:94-157 | Over the whole file, a function is dynamic if and only if a dynamic value reaches a return of it, given the functions found dynamic |
| ReturnKindReason.ReturnedCallIsDynamic | compiler/src/processor/return-kind.ts:343-351 | A function that anywhere returns the result of a dynamic function is dynamic |
| Slots.Context.PushScope | compiler/src/context.ts:469-472 | Opens a block and changes no slot |
| Slots.Context.PopScope | compiler/src/context.ts:474-489 | Frees exactly the slots of the block closed, and refuses the global scope |
| Slots.Context.SetVar | compiler/src/context.ts:495-530 | Reuses the last freed slot of its kind or takes the next, and refuses reserved and redeclared names |
| Slots.Context.GetVar | compiler/src/context.ts:546-557 | The variable of that name in the innermost scope that has one, and none if and only if no scope has |
| SlotNames.MeansExactly | compiler/src/context.ts:546-557 | After any run a name means v if and only if v stands under it in a scope and no deeper scope declares it |
| SlotNames.RefusedExactly | compiler/src/context.ts:474-513 | Reserved names, names of the same scope and closing the global scope are refused, each with its own error, and nothing else is |
| SlotNames.DeclaredExactly | compiler/src/context.ts:495-530 | A declaration adds one variable to the innermost scope, in the slot last handed back or else the next fresh one, and changes no other pool |
| SlotNames.DeclaredMeans | compiler/src/context.ts:495-557 | Afterwards the name means the variable just declared and every other name what it meant |
| SlotNames.ScopesMean | compiler/src/context.ts:469-489 | Opening a scope changes no meaning; closing one gives every name its meaning in the scopes around it |
| SlotNames.SlotsInOrder | compiler/src/context.ts:474-489 | The slots a closed scope hands back are its variables' own, in order of declaration, parameters none |
| Slots.AllocationIsOptimal | compiler/src/context.ts:469-531 | In every run live variables never share a slot, free and live slots partition [0, high-water), and the high-water mark is the greatest number ever live at once |
| Slots.SlotUsedIffPeakExceeds | compiler/src/context.ts:495-531 | In every run and for every index: some step has a variable in that slot if and only if more variables than that are ever live at once |
| Slots.SlotsFitAByte | compiler/src/context.ts:186-190 | Index 256 is used somewhere in a run if and only if more than 256 variables of the kind are ever live at once; otherwise every index fits its byte |
| Slots.SlotOverrun | compiler/src/context.ts:495-531 | 257 declarations in one scope succeed and the last holds slot 256 |
| Slots.BlockRestoresNames | compiler/src/context.ts:469-489 | After a block closes every name means what it meant before |
| CacheKey.StringifyInjective | compiler/src/cache.ts:56-69 | Different values never serialize alike: a parser reads the value back |
| CacheKeyOrder.StableIffSameMeaning | compiler/src/cache.ts:56-69 | With fields sorted first, two values serialize alike if and only if they hold the same under the same keys, in whatever order fields were given, at every depth |
| Cache.KeyIffSameInputs | compiler/src/cache.ts:77-97 | Two compiles share a key if and only if their inputs are the same up to defaults, field order and null for undefined |
| Cache.CompileCache.Lookup | compiler/src/cache.ts:184-199 | A hit returns the value, moves the key to the newest place and counts; a miss only counts |
| Cache.CompileCache.Put | compiler/src/cache.ts:201-211 | The new entry is newest, its key not double-counted, and over the cap the oldest goes |
| Cache.CompileCache.ClearAll | compiler/src/cache.ts:213-217 | Empties store and counters |
| Cache.StoreHoldsMostRecent | compiler/src/cache.ts:174-223 | After every history the store is the most recently used keys, at most the cap, in order of last use, each with its last value |
| CachedCompile.CompileResult.Clone | compiler/src/cache.ts:106-125 | A copy says the same, and every object it is made of is new |
| CachedCompile.Compile | compiler/src/index.ts:273-292 | A cached compile answers what a fresh one does when compiling depends only on what the key holds, hands out objects that are the caller's alone, changes no result already handed out, and keeps the cache faithful; a hit only moves its key, a miss that compiles stores an object of the cache's own under it |
| CachedCompile.Turn | compiler/src/cache.ts:98-105 | Whatever the caller then does to results of its own, the cache stays faithful |
| CachedCompile.Session | compiler/test/cache.test.ts:64-79 | Over any sequence of compiles with arbitrary changes to returned results in between, every answer is the fresh one, and results the caller left alone still say so at the end |
| Cache.SteadySurroundingsAreKeyed | compiler/src/cache.ts:1-30 | While imported files and transform stay as they are, compiling depends on what the key holds alone, so the condition of Compile is met |
| Cache.StaleUnlessTextSame | compiler/src/cache.ts:1-30 | When they change in between, a hit is the fresh result if and only if the imported text came out the same |
| Cache.ExtraKeepsApart | compiler/src/cache.ts:77-97 | Compiles whose `cacheKeyExtra` differ never share an entry |
| Cache.LabelNotKeyed | compiler/src/cache.ts:77-97 | The file label, which only names the source to TypeScript, does not split entries |

## Left out

- InlineTheorem.CaptureExactly: one family of programs; that no captured name suffices is the general half, proved by ExpansionPreservesMeaning.
- InlineTheorem.ExpansionPreservesMeaning: does not cover an outside call evaluated before an inline one in the same statement, nor a ternary side or later declarator that hoisting moves an inline body in front of; `SafeExpr` and `SafeDecls` say exactly which, and the code does reorder there.
- LocalConstSound.PropagationPreservesMeaning: does not cover bodies that write a name inside an expression while its value is known, bodies that assign a file constant without declaring it, or callees that read by name a constant one of the caller's names could stand for; `LocalConstSound.NestedUpdateIsSeenIffUnknown` and `LocalConstLimits.CapturedCallExactly` show the pass changes the first and the last.
- UnrollSound.UnrollForSame: takes for granted that the body leaves the counter unassigned, which the code does not check; a copy would assign to a literal and not parse.
- UnrollSound.UnrollWhileSame: the same, and that counters pass through a double unharmed; what follows the loop is the rest of its own list, so a counter declared in a branch and read after the branch is outside it.
- TreeshakeTheorem.TreeshakePreservesMeaning: takes run-time operators to agree with compile-time ones where those have an answer; wrap and revert are the engines'. `KeptRunsSame` needs nothing of the sort.
- CachedCompile.Compile: takes compilation to depend on keyed inputs only; `Cache.SteadySurroundingsAreKeyed` meets that while imported files and transform do not change, and `Cache.StaleUnlessTextSame` says what happens when they do.
- AbiFlatten.FixedArrayKeepsNameOrder: one family of two fields, as an example; the condition for every call is `AbiFlatten.CallDataExactly`.
- AbiFlatten.CallDataIsStandard: struct literals inside fixed-size arrays or nested arrays are excluded, because they keep name order; `AbiFlatten.CallDataEncodesEmitted` says what is encoded for them.
- AbiFlatten.CallDataExactly: for values of the declared types, words and lengths below 2^256; what the encoder refuses or does with others is not modelled.
- Engines: uint256 wrap and revert, gas, and the EVM and Solana interpreters are not part of this model; only the instructions of the staged prologue are run.
- Parsing and printing by acorn and TypeScript, and the `tryEvaluate` fallback, taken as always declining.
- Sauce: member, array, object and template expressions and `.catch` are calls to the outside; values are single words.
- TsLang: `do`-`while`, destructuring, nested functions, bare blocks and logical assignment, which the later compiler mostly refuses.
- The recursion of the whole folding transformer and its `for`-`of` and table passes; one loop at a time is unrolled.
- ArrayFold: arrays of arrays, and the last guard that bails when a folded name is still mentioned.
- Unroll: counters beyond the range of a double.
- Top-level constant propagation and dead constant elimination over a whole file.
- Linker: the inline-argument prologue is given as bytes, not built from the argument values.
- Encode: hexadecimal text becomes bytes before the model starts; field names are ordered by an order given as a parameter.
- ArrayLiteral: arrays within arrays, and run-time values as elements, are encoded but not decoded.
- AbiFlatten: elementary types are one static word or one byte string; the extra refusals of array and object literals outside struct parameters.
- ReturnKind: soundness against a run; `for` initialisers are not walked there, and loops once.
- Treeshake: the names collected are united as values, not added to one shared set.
- Slots: v12 stack positions and temporaries' names.
- CacheKey: numbers that are not integers.
- TreeshakeTheorem.ShadowedTestExactly: one family of programs; that no kept local takes a constant's name suffices is the general half.
- Megas: prepended approvals and the bytecode of quotes and swaps, which are a function given as a parameter.
- SplitSwap: pools are asked in turn, not concurrently, and one cache serves one call.
- Module and package resolution, file reading, protocol tables, deployment and scripts, capability gates, the account registry and the packet estimator: data, plumbing or short formulas.
