# rusty, modelled in Dafny

This project models the small, self-contained routines of the `rusty` Rust
tutorial corpus and proves what they compute. It covers five groups:

- **The `minigrep` line-search library** (`src/lib/minigrep.rs`): the
  argument validators, the case-sensitive and case-insensitive line filters in
  their loop and iterator forms, and the search dispatch in `run`.
- **The blog-post workflow in two encodings**:
  - `src/bin/state.rs`: a three-state automaton held in the mutable `state`
    field of `Post`.
  - `src/bin/state2.rs`: the same workflow as a chain of types.
- **Recursion-to-iteration pairs**: range sums (`recursion1.rs` to
  `recursion3.rs`), binomial coefficients (`recursion4.rs`, `recursion5.rs`),
  in-order tree flattening with an explicit stack (`recursion6.rs`) and
  Fibonacci (`fibo1.rs`, `fibo2.rs`).
- **In-place buffer and vector updates**: `remove_zeroes_inplace`,
  `ascii_capitalize`, `set_to_max`, the `iter10` prediction loop, `case03`
  and the `op!`-generated element-wise assignments.
- **Small validators, parsers and combinator pipelines** from `src/main.rs`,
  `src/bin/misc.rs` and the `examples/` files: guesses, conversions,
  `double_first`, `multiply`, the Option food pipeline, `get_count_item`,
  `next_birthday` and `Container`.

## Layout

Each core source file has its own Dafny module. The shared modules listed after the table model standard-library behaviour, and `Binomials` serves both binomial files.

| module | file |
|---|---|
| `Minigrep` | `minigrep.dfy` |
| `BlogState`, `BlogTypes` | `blog_state.dfy`, `blog_types.dfy` |
| `BookMain` | `book_main.dfy` |
| `BookMisc` | `book_misc.dfy` |
| `Recursion1` … `Recursion6`, `Fibo` | `recursion1.dfy` … `recursion6.dfy`, `fibo.dfy` |
| `Iter2`, `Macro1`, `Option1` | `iter2.dfy`, `macro1.dfy`, `option1.dfy` |
| `Error6`, `Error8`, `Error9` | `error6.dfy`, `error8.dfy`, `error9.dfy` |
| `Result1`, `Conversion`, `Flow`, `Generics` | `result1.dfy`, `conversion.dfy`, `flow.dfy`, `generics.dfy` |

Several shared modules model standard-library behaviour the corpus relies on:

- `Wrappers` has `Option` and `Result` with their combinators.
- `Seqs` has filter, count, join and subsequence.
- `Text` has `str::lines`, `contains`, ASCII lowercasing, `split`,
  `split_whitespace` and `trim_matches`.
- `Ints` has the integer ranges, wrap-around casts, truncated division and
  remainder, decimal printing, and one shared spec of `str::parse` for
  `i32`, `u8` and `u64`.
- `Vecs` is a growable vector class.
- `Sums` and `Binomials` hold the arithmetic references: range sums,
  parity-filtered sums, and `C(n, k)` with its identities.

Where the source changes state step by step, the model is imperative. Objects
whose methods update fields are classes with `modifies` clauses: `Post`,
`DraftPost`, `Vec`, the argument iterator and the `Rectangle` cell. Buffers
are arrays. Each loop is a method proved equal to a recursive specification
function. Pure expressions are functions. Panics become `Result` or `Option`
error values, or preconditions where the source documents the panic as a
caller's obligation.

## Model

| member | source | states |
|---|---|---|
| Minigrep.BuildV0 | src/lib/minigrep.rs:29-46 | Fails with "not enough arguments" exactly when fewer than three arguments are given; otherwise query and file path are arguments 1 and 2 |
| Minigrep.ArgIter.Next | src/lib/minigrep.rs:78-109 | The argument iterator yields the head and drops it, or yields None on an empty list and stays empty |
| Minigrep.Build | src/lib/minigrep.rs:78-109 | Skips the program name, then takes query and file path with `next`; the result equals the list-based specification and at most three arguments are consumed |
| Minigrep.BuildAgreesWithBuildV0 | src/lib/minigrep.rs:29-109 | Both validators accept the same argument lists and then build the same config; extra arguments are ignored |
| Minigrep.BuildErrors | src/lib/minigrep.rs:90-100 | "Didn't get a query string." iff at most one argument; "Didn't get a file path" iff exactly two |
| Minigrep.SearchSpec | src/lib/minigrep.rs:143-149 | `search` keeps exactly the lines containing the query, with their multiplicities, as a subsequence of `contents.lines()` |
| Minigrep.ISearchSpec | src/lib/minigrep.rs:167-174 | `isearch` keeps exactly the lines whose lowercase form contains the lowercased query, with multiplicities, as a subsequence of the lines |
| Minigrep.SearchWithinISearch | src/lib/minigrep.rs:143-174 | For a query without upper-case letters, every line `search` finds is also found by `isearch` |
| Minigrep.SearchV0 | src/lib/minigrep.rs:129-139 | The push loop returns the same vector as the iterator version |
| Minigrep.ISearchStep | src/lib/minigrep.rs:152-163 | One more line is kept by the case-insensitive filter iff its lowercase form contains the lowercased query |
| Minigrep.ISearchV0 | src/lib/minigrep.rs:152-163 | The loop that lowercases the query once returns the same vector as the iterator version |
| Minigrep.RunResults | src/lib/minigrep.rs:115-119 | As written: `ignore_case` selects the case-sensitive search, otherwise the case-insensitive one |
| Minigrep.RunResultsIntended | src/lib/minigrep.rs:115-119 | Corrected dispatch: `ignore_case` selects the case-insensitive search |
| Minigrep.RunDispatchInverted | src/lib/minigrep.rs:115-119 | The dispatch as written is the corrected one with the flag negated |
| Minigrep.OneResult | src/lib/minigrep.rs:200-208 | Test `one_result`: "duct" yields only "safe, fast, productive." |
| Minigrep.CaseSensitive | src/lib/minigrep.rs:211-219 | Test `case_sensitive`: "duct" does not match "Duct tape." |
| Minigrep.CaseInsensitive | src/lib/minigrep.rs:222-230 | Test `case_insensitive`: "rUst" yields ["Rust:", "Trust me."] |
| Minigrep.RunIgnoreCaseExample | src/lib/minigrep.rs:115-119 | With `ignore_case` set, the dispatch as written prints nothing for "rUst" on the test poem; the corrected one prints both lines |
| BlogState.State.RequestReview | src/bin/state.rs:104-130 | Draft moves to PendingReview; PendingReview and Published are unchanged |
| BlogState.State.Approve | src/bin/state.rs:108-134 | PendingReview moves to Published; Draft and Published are unchanged |
| BlogState.VisibleContent | src/bin/state.rs:96-98 | The content is visible only in Published and is "" otherwise |
| BlogState.TransitionTable | src/bin/state.rs:103-139 | Published is absorbing under every operation; `approve` on Draft and `request_review` on PendingReview do nothing |
| BlogState.StepRank | src/bin/state.rs:103-139 | Every operation advances the state at most one step; it advances exactly on request_review from Draft and approve from PendingReview |
| BlogState.PublishedOnlyThroughReview | src/bin/state.rs:103-139 | Every operation sequence that reaches Published from an unpublished state passes through PendingReview followed by an approve |
| BlogState.Post.constructor | src/bin/state.rs:35-40 | A new post is in Draft with empty content |
| BlogState.Post.AddText | src/bin/state.rs:42-44 | Appends to the content in every state and never changes the state |
| BlogState.Post.Content | src/bin/state.rs:60-62 | The accumulated text in Published, "" otherwise; the `unwrap` cannot fail on a valid post |
| BlogState.Post.RequestReview | src/bin/state.rs:64-68 | Applies the state's `request_review`, keeps the content and keeps the state Some |
| BlogState.Post.Approve | src/bin/state.rs:70-74 | Applies the state's `approve`, keeps the content and keeps the state Some |
| BlogState.Post.Apply | src/bin/state.rs:42-74 | Each public method follows the transition table and keeps the post valid |
| BlogState.RunOps | src/bin/state.rs:35-74 | After any operation sequence the state is Some and equals the table's state; the content is the appended text |
| BlogState.StepAfter | src/bin/state.rs:42-74 | Running one more operation steps the table's state once and appends only on add_text |
| BlogState.PublishWorkflow | src/bin/state.rs:144-155 | Corrected main: content is "" before review and before approval, and equals the added text once published |
| BlogState.MainAsWritten | src/bin/state.rs:144-155 | main as written: the published content ends with '.', the asserted string does not, so they differ |
| BlogTypes.DraftPost.constructor | src/bin/state2.rs:26-30 | A draft starts with the given content |
| BlogTypes.NewPost | src/bin/state2.rs:26-30 | `Post::new` returns a fresh draft with empty content |
| BlogTypes.DraftPost.AddText | src/bin/state2.rs:38-40 | Appends the text to the draft's content |
| BlogTypes.DraftPost.RequestReview | src/bin/state2.rs:42-46 | The pending post carries the draft's content unchanged |
| BlogTypes.PendingReviewPost.Approve | src/bin/state2.rs:50-54 | The published post's `content` is the pending content unchanged |
| BlogTypes.Workflow | src/bin/state2.rs:72-82 | new, add_text(t), request_review, approve gives content t |
| BlogTypes.WorkflowInParts | src/bin/state2.rs:38-54 | Several add_text calls publish the concatenation of the parts |
| BlogTypes.ConcatSnoc | src/bin/state2.rs:38-40 | Appending one more part extends the concatenation by that part |
| BookMain.Guess.Value | src/main.rs:158-160 | `value()` returns the stored value |
| BookMain.NewGuess | src/main.rs:151-156 | Succeeds iff 1 <= v <= 100, then holds v; otherwise fails with the panic message naming v |
| BookMain.FirstWord | src/main.rs:470-481 | Returns the index of the first space, or the length; every earlier byte is not a space |
| BookMain.FirstWordSlice | src/main.rs:520-530 | Returns the prefix before the first space, or all of s; the result is a space-free prefix |
| BookMain.FindCharIsFirst | src/main.rs:470-481 | The index `first_word` finds is the first occurrence, so the two first-word variants agree |
| BookMain.Rectangle1.Area | src/main.rs:607-609 | The area is zero iff a side is zero, and otherwise at least each side |
| BookMain.NewRectangle1 | src/main.rs:619-621 | `new` stores the given width and height |
| BookMain.Square | src/main.rs:623-628 | `square(s)` has width and height s |
| BookMain.CanHoldStrictOrder | src/main.rs:613-615 | `can_hold` is irreflexive, asymmetric and transitive |
| BookMain.CanHoldLargerArea | src/main.rs:607-615 | A rectangle that can hold another has a strictly larger area |
| BookMain.SquareCanHold | src/main.rs:613-628 | square(s) can hold square(t) iff s > t |
| BookMain.InCents | src/main.rs:770-780 | Penny, Nickel, Dime and Quarter are worth 1, 5, 10 and 25 |
| BookMain.InCents2 | src/main.rs:805-815 | A Quarter from any state is worth 25 |
| BookMain.InCentsAgree | src/main.rs:770-815 | `in_cents2` agrees with `in_cents` on the coin kind, and distinct kinds have distinct values |
| BookMain.RemoveZeroesInplace | src/main.rs:1216-1223 | The reverse removal loop leaves exactly the non-zero elements in their original order |
| BookMain.RemoveZeroesSpec | src/main.rs:1216-1223 | The result contains no zero, keeps every non-zero value with its multiplicity, and is a subsequence of the input |
| BookMain.Largest | src/main.rs:1246-1256 | On a non-empty slice, returns an element that is >= every element |
| BookMain.WordCount | src/main.rs:1203-1212 | Each word of `split_whitespace` maps to its number of occurrences, and no other key is present |
| BookMisc.AsciiCapitalize | src/bin/misc.rs:271-279 | Panics iff the vector is empty; otherwise uppercases v[0] and leaves every other element unchanged |
| BookMisc.CapitalizeChanges | src/bin/misc.rs:271-279 | The first element changes iff it is ASCII lowercase, and then it becomes its uppercase letter |
| BookMisc.StringifyNameWithTitle1 | src/bin/misc.rs:341-345 | Pushes "Esq." and joins everything with " " |
| BookMisc.StringifyNameWithTitle2 | src/bin/misc.rs:353-360 | Joins a clone of the names plus "Esq." with " "; the input is unchanged |
| BookMisc.StringifyVersions | src/bin/misc.rs:341-374 | All three agree on a non-empty name; on an empty name _1 gives "Esq." and _3 gives " Esq." |
| BookMisc.FindContains | src/bin/misc.rs:530-538 | The push loop returns the haystack items that contain the needle, in order |
| BookMisc.FindContainsSpec | src/bin/misc.rs:530-538 | That result has exactly those items, with multiplicities, as a subsequence of the haystack |
| BookMisc.Largest | src/bin/misc.rs:571-579 | Returns the index of the first maximal element of a non-empty slice |
| BookMisc.Rectangle.Area | src/bin/misc.rs:612-614 | The area is zero iff a side is zero, and otherwise at least each side |
| BookMisc.Rectangle.Max | src/bin/misc.rs:663-668 | The componentwise maximum: each side is the larger of the two |
| BookMisc.Square | src/bin/misc.rs:619-624 | `square(s)` has width and height s |
| BookMisc.MaxLaws | src/bin/misc.rs:663-668 | `max` is commutative, associative and idempotent |
| BookMisc.RectangleCell.constructor | src/bin/misc.rs:671-688 | The cell holds the given rectangle |
| BookMisc.RectangleCell.SetWidth | src/bin/misc.rs:658-660 | Changes only the width |
| BookMisc.RectangleCell.SetToMax | src/bin/misc.rs:693-694 | Replaces the rectangle with its componentwise maximum with `other` |
| BookMisc.AssocFunc2 | src/bin/misc.rs:671-688 | The max of a 0x0 and a 1x1 rectangle has area 1; after `set_width(10)` it has area 10 |
| BookMisc.GreaterThanArea | src/bin/misc.rs:1807-1811 | Keeps exactly the rectangles with width*height > area, each as often as it occurs in the input, as a subsequence |
| BookMisc.Longest | src/bin/misc.rs:1290-1296 | Returns the longer argument, and x on a tie |
| BookMisc.Shortest | src/bin/misc.rs:1298-1304 | Returns the shorter argument, and x on a tie |
| BookMisc.LongestWithAnAnnouncement | src/bin/misc.rs:1405-1415 | Returns the longer argument, and y on a tie |
| BookMisc.LifetimeFunctions | src/bin/misc.rs:1290-1415 | The two `longest` variants agree unless the lengths tie and the strings differ; longest and shortest pick different arguments when lengths differ |
| BookMisc.Iter10 | src/bin/misc.rs:1870-1905 | The first 12 entries are unchanged; each later entry gains the scaled dot product of its 12 already-updated predecessors; it panics exactly on i32 overflow |
| BookMisc.PredictedKeepsPrefix | src/bin/misc.rs:1896-1903 | The prediction keeps the buffer's length and its first 12 entries |
| BookMisc.CoefficientsSum | src/bin/misc.rs:1870-1905 | The twelve coefficients sum to 78 |
| BookMisc.AllOnesFixpoint | src/bin/misc.rs:1896-1903 | An all-ones buffer is left unchanged, because each shifted prediction is 0 |
| Recursion1.F1Sum | examples/recursion1.rs:15-21 | `f1(i)` is the sum of i..=MAX for i <= MAX, and i itself above MAX |
| Recursion1.G1 | examples/recursion1.rs:23-34 | Returns 0 when ini >= MAX; below MAX it never returns, whatever the fuel |
| Recursion1.G1V0 | examples/recursion1.rs:36-45 | The loop sums i..=MAX, which is 0 above MAX |
| Recursion1.G1V0AgreesWithF1 | examples/recursion1.rs:15-45 | `g1_v0` agrees with `f1` exactly when ini <= MAX |
| Recursion1.G2AgreesWhereG1Stops | examples/recursion1.rs:23-50 | `g1` terminates iff ini >= MAX, and then agrees with `g2` |
| Recursion1.F2SumsOdd | examples/recursion1.rs:52-66 | As written, `f2` sums the odd numbers of [i, MAX] |
| Recursion1.F2IsNotEvenSum | examples/recursion1.rs:52-66 | f2(1999) = 1999, but the even numbers of [1999, 2000] sum to 2000 |
| Recursion1.F2EvenSumsEven | examples/recursion1.rs:52-66 | The corrected `f2` sums the even numbers of [i, MAX], as documented |
| Recursion1.F2PlusF2EvenIsF1 | examples/recursion1.rs:15-66 | The odd sum plus the even sum is `f1` |
| Recursion2.AsUsize | examples/recursion2.rs:11 | `i as usize` keeps non-negative values; negative ones become huge |
| Recursion2.F0 | examples/recursion2.rs:9-15 | For i >= 0 the loop sums i..=MAX, which is 0 for i > MAX; a negative start, cast to usize, gives 0 |
| Recursion2.PartialSumsFitI64 | examples/recursion2.rs:6-13 | With MAX = 300_000_000 every partial sum fits in i64 |
| Recursion2.RecursiveVersionsAgree | examples/recursion2.rs:9-43 | `f1`, `f2` and `f3` are one function, equal to the range sum that `f0` computes |
| Recursion3.TailcallIsRecursive | examples/recursion3.rs:27-49 | ex_a_tailcall(i, c) == c + ex_a_recursive(i) |
| Recursion3.RecursiveSum | examples/recursion3.rs:27-40 | `ex_a_recursive(i)` is the sum of i..=MAX |
| Recursion3.ExAOneshot | examples/recursion3.rs:55-63 | The loop computes `ex_a_tailcall` |
| Recursion3.ExAFinal | examples/recursion3.rs:67-73 | The loop computes `ex_a_recursive` |
| Recursion3.VersionsAgree | examples/recursion3.rs:75-80 | All versions agree, with the closed form for 0 <= i <= MAX |
| Binomials.BinomialRecursiveIsChoose | examples/recursion4.rs:132-137 | The exact-division recursion equals C(n, k) |
| Binomials.Absorption | examples/recursion4.rs:22-27 | n * C(n-1, k-1) == k * C(n, k) |
| Binomials.Symmetry | examples/recursion5.rs:259-262 | C(n, k) == C(n, n-k) |
| Binomials.FallingIsFactChoose | examples/recursion4.rs:139-145 | The falling product n(n-1)...(n-k+1) equals k! * C(n, k) |
| Recursion4.Binomial | examples/recursion4.rs:139-145 | The lmul/rdiv loop returns falling(n, k) / k!, which is C(n, k) for n, k >= 0, and 1 for k <= 0 |
| Recursion4.RecursiveAgreesWithChoose | examples/recursion4.rs:132-152 | The recursive and iterative schemes both give C(n, k) |
| Recursion5.Binomial | examples/recursion5.rs:259-269 | After the symmetry swap, the running quotient gives C(n, k) for 0 <= k <= n and 1 otherwise |
| Recursion5.RecursiveIsZeroAboveN | examples/recursion5.rs:251-257 | For k > n the recursive version gives 0, unlike the iterative 1 |
| Recursion5.RecursiveWithinRange | examples/recursion5.rs:251-269 | For k <= n the recursive version is C(n, k) == C(n, n-k) |
| Recursion6.Flatten | examples/recursion6.rs:31-50 | The explicit-stack loop returns the in-order traversal `flatten_v0` |
| Recursion6.FlattenLength | examples/recursion6.rs:19-29 | The traversal has one entry per node |
| Recursion6.FlattenMembers | examples/recursion6.rs:19-29 | A value occurs in the traversal iff it is in the tree |
| Recursion6.MainTreeFlattens | examples/recursion6.rs:52-78 | main's tree flattens to [1, 7, 5], which is not sorted |
| Fibo.FiboRecursiveIsFib | examples/fibo1.rs:5-11 | For n >= 1, `fibo(n)` is Fibonacci number n+1 |
| Fibo.FiboIterative | examples/fibo2.rs:5-15 | The loop returns 1 for m <= 1, and Fibonacci number m+1 for m >= 1 |
| Fibo.IterativeAgreesFromOne | examples/fibo1.rs:5-11 | The recursive version matches the iterative one for m >= 1 and differs (is not 1) for m <= 0 |
| Iter2.SumBelowClosed | examples/iter2.rs:9-16 | The sum of the indices below n is n(n-1)/2 |
| Iter2.Case01 | examples/iter2.rs:9-16 | Returns the i32 cast of the sum of the indices, whatever the contents |
| Iter2.Case02 | examples/iter2.rs:18-24 | Returns the same as `case01` |
| Iter2.Case03 | examples/iter2.rs:26-35 | Iterates the original length, returns `case01` of the original, and appends exactly that many 1s |
| Iter2.Case03Shape | examples/iter2.rs:29-33 | The vector ends twice as long with its original prefix |
| Iter2.MainValues | examples/iter2.rs:37-55 | main's vectors give 15 and 45 |
| Macro1.Test | examples/macro1.rs:54-73 | `test!` is the conjunction or disjunction chosen by the keyword |
| Macro1.FindMin | examples/macro1.rs:80-85 | `find_min!` returns an argument that is <= every argument |
| Macro1.MacroRepeatExamples | examples/macro1.rs:87-91 | The examples give 1, 2 and 4 |
| Macro1.Apply | examples/macro1.rs:109-120 | One element operation succeeds iff the exact result fits in u32, and then equals it |
| Macro1.SubUnderflow | examples/macro1.rs:109-120 | Subtraction fails iff the right operand is larger |
| Macro1.OpAssign | examples/macro1.rs:95-120 | Panics on a length mismatch or an overflowing element; otherwise every xs[i] becomes xs[i] op ys[i], and the length is kept |
| Macro1.DryTriples | examples/macro1.rs:124-149 | 1+2=3, 2*3=6 and 3-2=1 hold element-wise |
| Option1.Peel | examples/option1.rs:25-30 | None stays None; Some(f) becomes Peeled(f) |
| Option1.Chop | examples/option1.rs:32-37 | None stays None; Peeled(f) becomes Chopped(f) |
| Option1.Cook | examples/option1.rs:39-41 | None stays None; Chopped(f) becomes Cooked(f) |
| Option1.ProcessIsPipeline | examples/option1.rs:44-48 | process == cook . chop . peel, which is Some(Cooked(f)) or None |
| Option1.HaveIngredients | examples/option1.rs:89-94 | None iff the food is Sushi |
| Option1.HaveRecipe | examples/option1.rs:97-102 | None iff the food is CordonBleu |
| Option1.CookableV1 | examples/option1.rs:106-111 | Some(f) iff f is neither CordonBleu nor Sushi |
| Option1.CookableVersionsAgree | examples/option1.rs:106-122 | The three `cookable` variants agree on every food |
| Option1.SqThenToString | examples/option1.rs:312-317 | None iff x*x overflows u32; otherwise the decimal of x*x |
| Option1.SqThenToStringExamples | examples/option1.rs:312-317 | 2 gives "4", 1_000_000 gives None, and None stays None |
| Error9.First | examples/error9.rs:10-12 | `first` is None iff the vector is empty, otherwise its head |
| Error9.DoubleFirstNested | examples/error9.rs:10-12 | None on an empty vector, Some(Err) if the head does not parse, otherwise Some(Ok(2n)) |
| Error9.OnlyFirstConsulted | examples/error9.rs:10-12 | Only the first element is consulted |
| Error9.DoubleFirstInv | examples/error9.rs:26-30 | The transpose: Ok(None), Err(e) or Ok(Some(2n)) |
| Error9.DoubleFirstUnit | examples/error9.rs:67-75 | Fails with DoubleError iff the vector is empty or its head does not parse; otherwise 2n |
| Error9.BoxedVersionsAgree | examples/error9.rs:114-129 | ex3's two versions agree, box the right error, and on success return twice the parsed first element |
| Error9.WrappedError.Source | examples/error9.rs:186-194 | `source` is None for EmptyVec and the parse error for Parse |
| Error9.WrappedError.Message | examples/error9.rs:172-183 | Display gives one message for EmptyVec and another for Parse, following `source` |
| Error9.DisplayedCauses | examples/error9.rs:61-65 | Displayed, ex2's DoubleError is the same for an empty vector and a bad first element; ex4's messages differ between the two |
| Error9.DoubleFirstWrapped | examples/error9.rs:208-215 | EmptyVec on an empty vector, Parse(e) on a bad head, otherwise Ok(2n) |
| Error9.VersionsAgree | examples/error9.rs:10-215 | All four `double_first` versions succeed on the same inputs with the same value |
| Error9.Examples | examples/error9.rs:229-235 | ["42", ...] gives 84, [] gives EmptyVec, and "tofu" gives an invalid-digit error |
| Result1.Multiply | examples/result1.rs:7-13 | The first parse error wins, then the second; otherwise the product |
| Result1.MultiplyVersionsAgree | examples/result1.rs:7-56 | The `?` version agrees, and a failing first string makes the second irrelevant |
| Result1.MultiplyExamples | examples/result1.rs:7-13 | ("10", "2") gives 20 and "t" gives an invalid-digit error |
| Result1.ParseAll | examples/result1.rs:82-86 | Parses every string, keeping positions |
| Result1.OksErrsCount | examples/result1.rs:95-101 | Every result is either kept or saved as an error |
| Result1.FilterMapSavingErrors | examples/result1.rs:95-101 | The loop keeps the parsed values in order and pushes the errors in order |
| Result1.CollectResultSpec | examples/result1.rs:112-113 | Collecting succeeds iff every parse does; otherwise it yields the first error |
| Result1.Partition | examples/result1.rs:117-128 | `partition` splits the successes from the errors, each in order |
| Result1.SavingErrorsExample | examples/result1.rs:95-101 | The example keeps [42, 93, 18] and saves two errors |
| Conversion.Number1From | examples/conversion.rs:25-29 | `Number1::from` stores the value unchanged |
| Conversion.IntoNumber2 | examples/conversion.rs:36-40 | `into` for Number2 stores the value unchanged |
| Conversion.ConversionsInjective | examples/conversion.rs:25-40 | Equal results come only from equal values, and `from` and `into` store the same number |
| Conversion.Circle.ToString | examples/conversion.rs:123-127 | Display prints "Circle of radius " followed by a decimal that parses back to the radius |
| Conversion.TryFromEven | examples/conversion.rs:45-55 | Ok iff the truncated remainder by 2 is 0 |
| Conversion.TryFromExamples | examples/conversion.rs:106-116 | 8 gives Ok(EvenNumber(8)) and 5 gives Err(()) |
| Conversion.CircleFromStr | examples/conversion.rs:137-147 | Strips parentheses from both ends, then succeeds iff the rest parses as an i32 |
| Conversion.FromStrRoundTrip | examples/conversion.rs:123-147 | Parsing the printed radius, bare or in parentheses, gives back the circle |
| Conversion.AngleBracketsRejected | examples/conversion.rs:181-187 | "<2>" is rejected |
| Flow.LoopRet | examples/flow.rs:27-40 | The loop exits with counter 10 and yields 20 |
| Flow.IterMut | examples/flow.rs:52-61 | Exactly the "Ferris" elements become "Savio" |
| Flow.Guard | examples/flow.rs:69-79 | Each arm fires exactly on its range, by scale |
| Flow.Binding | examples/flow.rs:81-90 | The arms 0, 1..=12, 13..=19 and the rest partition u32 |
| Flow.WhileLet | examples/flow.rs:163-174 | Visits 0..=5 and terminates |
| Flow.GetCountItemSpec | examples/flow.rs:141-150 | Panics without a space or on a bad count; otherwise returns the count and the second piece, ignoring later pieces |
| Flow.GetCountItemExample | examples/flow.rs:159-161 | "3 chairs" gives (3, "chairs") |
| Error6.Guess.Value | examples/error6.rs:43-45 | `value()` returns the stored value |
| Error6.Guess.ToString | examples/error6.rs:50-54 | Display prints a decimal that parses back to the value |
| Error6.New | examples/error6.rs:36-41 | Succeeds iff 1 <= v <= 100, with a valid guess holding v; otherwise panics with the message naming v |
| Error6.NewPrintsInRange | examples/error6.rs:31-54 | Every constructed guess prints a number in 1..=100 |
| Error6.MainExamples | examples/error6.rs:56-64 | new(1) prints "1" and new(0) panics |
| Error8.NextBirthday | examples/error8.rs:8-11 | None stays None; Some(a) prints "next year I will be " followed by a+1 |
| Error8.Person.WorkPhoneAreaCode | examples/error8.rs:29-31 | Some iff job, phone number and area code are all present, and then the area code |
| Error8.MainExamples | examples/error8.rs:34-50 | 41 gives "next year I will be 42" and the example person gives Some(61) |
| Generics.Container.Contains | examples/generics.rs:82-84 | True iff both numbers equal the fields |
| Generics.Container.First | examples/generics.rs:86-88 | Returns the first field |
| Generics.Container.Last | examples/generics.rs:89-91 | Returns the last field |
| Generics.Difference | examples/generics.rs:101-103 | first + difference == last, non-negative iff first <= last |
| Generics.AssociatedTypesExample | examples/generics.rs:105-121 | Container(3, 10) contains (3, 10), not (10, 3), and has difference 7 |
| Ints.ParseIntCharacterization | examples/conversion.rs:137-147 | `str::parse` succeeds iff the text is an optional sign and digits denoting a value in range, and then returns that value |
| Ints.ParseIntToString | examples/conversion.rs:123-147 | Parsing the decimal of an in-range value gives it back |
| Text.ContainsIff | src/lib/minigrep.rs:143-149 | `contains` holds iff the query occurs at some position |
| Text.LinesOfJoin | src/lib/minigrep.rs:143-149 | `lines()` of newline-joined plain lines gives them back |
| Text.SplitJoin | examples/flow.rs:141-150 | Joining the pieces of `split(c)` with c gives back the string |

## Left out

- Reading the file in `run`, printing (`println!`, `eprintln!`), and process exit are not modelled. `IGNORE_CASE` from the environment is a boolean input, and the file contents are a parameter.
- `Recursion4.Binomial`: i128 overflow of `lmul` is not modelled. Integers are unbounded, so the loop is exact wherever Rust does not overflow.
- `Fibo.FiboIterative`: i128 overflow is not modelled, and neither is the claim that `fibo(44)` fits.
- `Fibo.FiboRecursiveIsFib`: i128 overflow is not modelled.
- `Recursion3.ExAOneshot`, `Recursion3.ExAFinal`, `Recursion1.G1V0`: i64 overflow of the accumulator is not modelled. The sums stay in range for starts near the source's MAX, but a very negative start would overflow.
- `Recursion1.F1Sum`, `Recursion1.F2SumsOdd`, `Recursion1.F2EvenSumsEven`: i64 overflow in `i + f(i + 1)` is not modelled. Only a very negative start overflows.
- `Recursion3.TailcallIsRecursive`, `Recursion3.RecursiveSum`: i64 overflow in `ex_a_recursive` and in the accumulator `c` of `ex_a_tailcall` is not modelled.
- `Recursion5.Binomial`: i128 overflow of `n * previous_x` is not modelled; the arithmetic is exact.
- `Binomials.BinomialRecursiveIsChoose`: i128 overflow of `n * binomial_recursive(n - 1, k - 1)` is not modelled, in recursion4.rs or recursion5.rs.
- `BookMisc.GreaterThanArea`: u32 overflow of `s.width * s.height` is not modelled. The product is exact, where the source would panic in debug builds.
- `Binomials.BinomialRecursiveIsChoose`: stated for k >= 0 only. With a negative k the source's recursion never terminates, so k is a `nat`.
- `Recursion1.G1`: the loop that never exits is modelled with a fuel bound. The contract says that no fuel makes it return below MAX, rather than stating divergence.
- `BookMain.Rectangle1.Area`, `BookMisc.Rectangle.Area`: require width*height to fit in u32, where the source would panic in debug builds.
- `Error9.DoubleFirstNested` and its siblings require 2n to fit in i32 (`DoublingFits`). `Result1.Multiply` requires the product to fit (`ProductFits`). `Error8.NextBirthday` requires an age below 255. `Generics.Difference` requires the i32 subtraction not to overflow. In each case the source would panic.
- `BookMain.Largest`, `BookMisc.Largest`, `Macro1.FindMin`: the generic `T: PartialOrd` is modelled at integers.
- `BookMisc.StringifyNameWithTitle3` has no contract of its own; `BookMisc.StringifyVersions` states it.
- `first_word_advanced` (src/main.rs:560-570) has the same body as `first_word_slice` and is covered by `BookMain.FirstWordSlice`.
- The second `multiply` (examples/result1.rs:32-38) is identical to the first, behind a type alias.
- Of the two identical word-count loops in src/main.rs, one is modelled.
- `Guess::new` (both files) and `get_count_item` panic in the source; the model returns an error value carrying the panic message.
- Lowercasing covers ASCII only. Strings are sequences of characters, and byte indices equal character indices (ASCII input).
- `str::lines` follows the current standard library: split on "\n", and drop a final "\r" only before a "\n".
- examples/flow.rs: `if_else`, the labelled loops, `for_match_str`, the `some_number` binding match and the `if let` examples only print, so they are not modelled.
- examples/generics.rs: the red/blue, `empty_bounds` and `print_in_option` examples only demonstrate trait bounds and printing, so they are not modelled.
- Debug output, and the `print` helpers that wrap results in "The first doubled is ..." or "Error: ...", are not modelled.

## Findings

| source | as written | input that shows it | evidently intended | confidence | as-written member | corrected member |
|---|---|---|---|---|---|---|
| src/lib/minigrep.rs:115-119 | `ignore_case` set selects the case-sensitive `search`, unset selects `isearch` | query "rUst" on the `case_insensitive` test poem with `ignore_case` set: nothing is printed | `ignore_case` set selects `isearch`, giving "Rust:" and "Trust me." | not executed | Minigrep.RunIgnoreCaseExample | Minigrep.RunResultsIntended |
| src/bin/state.rs:144-155 | main adds "I ate a salad for lunch today." and asserts the published content equals the same text without the final '.' | main as written: "I ate a salad for lunch today." vs "I ate a salad for lunch today" | assert the text that was added, with its '.' | not executed | BlogState.MainAsWritten | BlogState.PublishWorkflow |
| examples/recursion1.rs:52-66 | `f2` adds i when `i % 2 != 0`, summing the odd numbers | f2(1999) = 1999, while the even numbers of [1999, 2000] sum to 2000 | sum the even numbers, as the doc comment says | not executed | Recursion1.F2IsNotEvenSum | Recursion1.F2EvenSumsEven |
