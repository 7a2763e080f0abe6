# A verified model of an Advent of Code solution set

This project models, in Dafny, the core of a Rust repository of Advent of Code
solutions (2023 and 2024): the tokenizer-combinator library of 2024
(`year2024/src/parser.rs`), the grid utility (`year2024/src/utils.rs`), the
2023 solvers of days 5 to 9 and 11 to 23 (without day 10), the second 2023
solution set's days 2 and 3, the 2023 game of life (`fun.rs`), and the 2024
solvers of days 1 to 5, 9 to 15, 17, 19, 20 and 21.  Each source file has its
own Dafny file, with one or more modules:

| file | module | source |
|---|---|---|
| `common.dfy` | `Common` | shared helpers (`Option`, suffixes, sums) |
| `parser.dfy` | `Parser` | `year2024/src/parser.rs` |
| `y2024_day03.dfy` | `Y2024Day03` | `year2024/src/day03.rs` |
| `utils.dfy` | `Utils` | `year2024/src/utils.rs` |
| `y2023_day09.dfy` | `Y2023Day09` | `year2023/src/day09.rs` |
| `y2023_day15.dfy` | `Y2023Day15` | `year2023/src/day15.rs` |
| `y2023_day06.dfy` | `Y2023Day06` | `year2023/src/day06.rs` |
| `y2024_day02.dfy` | `Y2024Day02` | `year2024/src/day02.rs` |
| `y2024_day13.dfy` | `Y2024Day13` | `year2024/src/day13.rs` |
| `y2024_day04.dfy` | `Y2024Day04` | `year2024/src/day04.rs` |
| `y2023_day18.dfy` | `Y2023Day18` | `year2023/src/day18.rs` |
| `y2024_day11.dfy` | `Y2024Day11` | `year2024/src/day11.rs` |
| `y2024_day19.dfy` | `Y2024Day19` | `year2024/src/day19.rs` |
| `y2024_day01.dfy` | `Y2024Day01` | `year2024/src/day01.rs` |
| `y2024_day05.dfy` | `Y2024Day05` | `year2024/src/day05.rs` |
| `y2023_day05.dfy` | `Y2023Day05` | `year2023/src/day05.rs` |
| `y2023_day07.dfy` | `Y2023Day07` | `year2023/src/day07.rs` |
| `y2023_day08.dfy` | `Y2023Day08` | `year2023/src/day08.rs` |
| `y2023_day11.dfy` | `Y2023Day11` | `year2023/src/day11.rs` |
| `y2023_fun.dfy` | `Y2023Fun` | `year2023/src/fun.rs` |
| `y2023b_day02.dfy` | `Y2023bDay02` | `Year2023/src/day02.rs` |
| `y2023b_day03.dfy` | `Y2023bDay03` | `Year2023/src/day03.rs` |
| `y2023_day12.dfy` | `Y2023Day12` | `year2023/src/day12.rs` |
| `y2023_day13.dfy` | `Y2023Day13` | `year2023/src/day13.rs` |
| `y2023_day14.dfy` | `Y2023Day14` | `year2023/src/day14.rs` |
| `y2023_day19.dfy` | `Y2023Day19` | `year2023/src/day19.rs` |
| `y2023_day23.dfy` | `Y2023Day23Graph`, `Y2023Day23Map`, `Y2023Day23` | `year2023/src/day23.rs` |
| `y2024_day15.dfy` | `Y2024Day15` | `year2024/src/day15.rs` |
| `y2023_day20.dfy` | `Y2023Day20` | `year2023/src/day20.rs` |
| `y2023_day22.dfy` | `Y2023Day22` | `year2023/src/day22.rs` |
| `y2023_day16.dfy` | `Y2023Day16Beams`, `Y2023Day16` | `year2023/src/day16.rs` |
| `y2023_day17.dfy` | `Y2023Day17Spec`, `Y2023Day17`, `Y2023Day17Parse` | `year2023/src/day17.rs` |
| `y2024_day12.dfy` | `Y2024Day12Garden`, `Y2024Day12Regions`, `Y2024Day12Components`, `Y2024Day12Fences`, `Y2024Day12` | `year2024/src/day12.rs` |
| `y2024_day09.dfy` | `Y2024Day09Disk`, `Y2024Day09Compact`, `Y2024Day09Input`, `Y2024Day09AsWritten`, `Y2024Day09Move` | `year2024/src/day09.rs` |
| `y2024_day10.dfy` | `Y2024Day10Trails`, `Y2024Day10` | `year2024/src/day10.rs` |
| `y2024_day17.dfy` | `Y2024Day17` | `year2024/src/day17.rs` |
| `y2024_day14.dfy` | `Y2024Day14` | `year2024/src/day14.rs` |
| `y2024_day20.dfy` | `Y2024Day20` | `year2024/src/day20.rs` |
| `y2024_day21.dfy` | `Y2024Day21` | `year2024/src/day21.rs` |
| `y2023_day21.dfy`, `y2023_day21_counts.dfy` | `Y2023Day21`, `Y2023Day21Counts` | `year2023/src/day21.rs` |

Where the source works by updating state (a `Vec` that tokenizers push to and
truncate, loops over counters and cursors), the model is imperative Dafny: a
class with a `seq` field and `modifies` clauses, methods with loops, each proved
equal to a specification function; the properties the source promises are
lemmas about those functions. Where the source is expression-shaped, the model is
datatypes, functions and lemmas.

Panics of the source (`expect`, `unwrap`, out-of-range indexing) become an error
value of the model (`Abort`, `None`) or a precondition where the source's caller
guarantees the case cannot arise.

## Model

| member | source | states |
|---|---|---|
| `Parser.Run` | year2024/src/parser.rs:8-9 | the remainder a tokenizer returns is never longer than its input, and equal to it when as long |
| `Parser.TokenBuffer.Truncate` | year2024/src/parser.rs:141-143 | `Vec::truncate`: keeps the first `n` items, does nothing when already shorter |
| `Parser.TokenizeTag` | year2024/src/parser.rs:64-81 | a literal that prefixes the input appends its one token and returns the input after it; otherwise the input is returned unchanged and nothing is appended; an empty literal appends without consuming |
| `Parser.TokenizeConditional` | year2024/src/parser.rs:100-124 | takes the longest prefix whose i-th character satisfies the condition at i; without `EMPTY` an empty prefix appends nothing, otherwise one finalized token is appended |
| `Parser.TokenizeNumber` | year2024/src/parser.rs:156-193 | an optional '-' when signed, at least one radix digit, the maximal digit run, converted with the decimal parser; the panic of `expect` is the `None` result |
| `Parser.Tokenize` | year2024/src/parser.rs:8-9 | every node's `tokenize` returns the remainder of `Run` and appends exactly its tokens, or panics exactly when `Run` aborts |
| `Parser.TokenizeIgnore` | year2024/src/parser.rs:139-146 | the inner remainder, with the buffer truncated back to its entry length |
| `Parser.TokenizeAndThen` | year2024/src/parser.rs:280-295 | if the first part or the second part (on the first's remainder) consumes nothing, the buffer is truncated and the input returned; otherwise the second part's remainder |
| `Parser.TokenizeOr` | year2024/src/parser.rs:304-318 | the first alternative's result whenever it consumes; else the second's on the original input; truncated only when neither consumes |
| `Parser.TokenizeRepeated` | year2024/src/parser.rs:326-345 | runs the inner tokenizer until it consumes nothing; fewer than `MIN` progressing runs truncate the buffer and return the input |
| `Parser.ProcessText` | year2024/src/parser.rs:45-49 | `process` on a fresh buffer yields exactly the tokens and remainder of `Run` |
| `Parser.PrefixLenIsLongest` | year2024/src/parser.rs:103-117 | the counted prefix satisfies the condition position by position, and the next character does not |
| `Parser.AllOrNothing` | year2024/src/parser.rs:280-345 | without empty literals or empty-accepting conditionals, a tokenizer that returns its input unchanged has appended nothing |
| `Parser.EmptyTagEmitsWithoutConsuming` | year2024/src/parser.rs:65-72 | an empty literal appends its token without consuming, and a repetition of it keeps that token |
| `Parser.OrKeepsTokensOfNonConsumingFirst` | year2024/src/parser.rs:305-314 | tokens of a non-consuming first alternative survive when the second consumes |
| `Parser.OrPrefersFirst` | year2024/src/parser.rs:307-310 | a consuming first alternative wins even if the second would match too |
| `Parser.AndThenZeroRepetitionFails` | year2024/src/parser.rs:288-292 | a zero-iteration `repeated()` in second position makes the whole sequence fail |
| `Parser.IgnoreNeverEmits` | year2024/src/parser.rs:139-146 | `Ignore` fails exactly when its inner tokenizer does, and otherwise returns the inner remainder with no tokens |
| `Parser.RepeatedOneWithoutMatch` | year2024/src/parser.rs:338-341 | `repeated1()` of a tokenizer that makes no progress returns its input with no tokens |
| `Parser.RunYieldsSuffix` | year2024/src/parser.rs:8-9 | every tokenizer's remainder is a suffix of its input |
| `Parser.IterateYieldsSuffix` | year2024/src/parser.rs:326-345 | every repetition's remainder is a suffix of its input |
| `Parser.RunWithoutNumberSucceeds` | year2024/src/parser.rs:186-190 | only `Number` can panic: a tokenizer built without it always returns a remainder |
| `Parser.ProgressShortens` | year2024/src/parser.rs:333-336 | a counted iteration strictly shortens the remaining input, so a repetition ends |
| `Parser.BinaryDigitsReadAsDecimal` | year2024/src/parser.rs:182-190 | digits are recognised by radix but converted as decimal: binary "101" becomes one hundred and one |
| `Parser.HexDigitsAbort` | year2024/src/parser.rs:182-190 | hexadecimal digits are recognised but the decimal conversion panics |
| `Parser.SignedMinusAloneFails` | year2024/src/parser.rs:164-181 | a '-' not followed by a digit is un-consumed and nothing is appended |
| `Parser.ParseUntilLoop` | year2024/src/parser.rs:382-412 | the longest matching prefix; without `exhaust`, an all-matching slice gives no output; the finalizer and remainder follow `include_end` / `remove_end` |
| `Parser.UntilWithoutExhaustFails` | year2024/src/parser.rs:393-395 | an all-matching slice without `exhaust` yields no output and is consumed entirely |
| `Parser.UntilSplitsAtTerminator` | year2024/src/parser.rs:397-409 | the finalizer sees the matching prefix (plus the terminator with `include_end`); the remainder starts at or after the terminator |
| `Parser.ParseRepeat` | year2024/src/parser.rs:432-445 | the repetition always ends with an empty slice and collects at most one output per call |
| `Parser.ParseRepeatLoop` | year2024/src/parser.rs:432-445 | calls the inner parser at least once and collects its `Some` outputs in order until the slice is empty |
| `Parser.RepeatWithRemoveEndTerminates` | year2024/src/parser.rs:404-406 | with `remove_end` every call consumes, so the repetition never diverges |
| `Y2024Day03.DigitTokenReads` | year2024/src/day03.rs:26-29 | the number token takes the maximal run of decimal digits up to three and reads it as a decimal number |
| `Y2024Day03.DigitTokenNeedsDigit` | year2024/src/day03.rs:26-29 | without a leading digit the number token consumes and appends nothing |
| `Y2024Day03.MulReads` | year2024/src/day03.rs:31-35 | `mul(a,b)` appends exactly `Mul, Num(a), Num(b)` and consumes the whole instruction |
| `Y2024Day03.MulWithoutParenRollsBack` | year2024/src/day03.rs:31-35 | a missing ')' rolls the whole `mul` back |
| `Y2024Day03.InstructionProgresses` | year2024/src/day03.rs:37-40 | on non-empty text an alternation step always consumes, through `any()` if nothing else matches |
| `Y2024Day03.GrammarConsumesAll` | year2024/src/day03.rs:37-43 | the repeated alternation never fails and `process` consumes the whole text |
| `Y2024Day03.Parse` | year2024/src/day03.rs:15-55 | the instructions are those of the 3-token windows of the tokens of the whole text |
| `Y2024Day03.Instructions` | year2024/src/day03.rs:45-54 | there are at most |tokens| - 2 instructions, one per window at most |
| `Y2024Day03.InstructionsSnoc` | year2024/src/day03.rs:45-54 | a new last token adds exactly the window ending with it; a toggle among the last two tokens starts no window |
| `Y2024Day03.MulWindow` | year2024/src/day03.rs:49 | `Mul, Num a, Num b` reads as one multiplication and its numbers start no window |
| `Y2024Day03.ToggleWindow` | year2024/src/day03.rs:50-51 | a toggle with two tokens after it reads as that toggle |
| `Y2024Day03.PartAAppend` | year2024/src/day03.rs:57-67 | part a sums over instructions laid end to end |
| `Y2024Day03.PartAOnlyProducts` | year2024/src/day03.rs:57-67 | each instruction adds its own product, and dropping a `do()` or `don't()` changes nothing |
| `Y2024Day03.PartB` | year2024/src/day03.rs:69-80 | the loop computes the sum of the products admitted by the enable flag, starting enabled |
| `Y2024Day03.WithoutDontAllCount` | year2024/src/day03.rs:57-80 | without `don't()` part b equals part a |
| `Y2024Day03.DisabledCountsNothing` | year2024/src/day03.rs:72-77 | once disabled, nothing counts until the next `do()` |
| `Y2024Day03.EnabledAtMostAll` | year2024/src/day03.rs:57-80 | with non-negative products part b never exceeds part a |
| `Y2024Day03.ExampleA` | year2024/src/day03.rs:83-88 | the tokens of the first example give 161 |
| `Y2024Day03.ExampleB` | year2024/src/day03.rs:90-95 | the tokens of the second example give 48 |
| `Utils.New` | year2024/src/utils.rs:22-36 | `height` rows of `width` cells, cell (x, y) is `init(x, y)`, wrapping off |
| `Utils.FromRows` | year2024/src/utils.rs:124-140 | height is the row count, width the first row's length (0 without rows); fails exactly when some row has another width |
| `Utils.Parse` | year2024/src/utils.rs:86-96 | one row per line and one cell per character, mapped by the cell parser; fails exactly on ragged lines |
| `Utils.MaxLen` | year2024/src/utils.rs:108-112 | the longest row's length: no row is longer and some row attains it (0 without rows) |
| `Utils.ParseWithDefault` | year2024/src/utils.rs:98-121 | every line padded with the default value up to the longest line's length, so the grid is rectangular |
| `Utils.Get` | year2024/src/utils.rs:50-62 | `None` exactly when x < 0, y < 0, x >= width or y >= height, otherwise the cell at column x of row y |
| `Utils.GetWrapped` | year2024/src/utils.rs:64-84 | both coordinates reduced with `rem_euclid`: every integer pair addresses a cell in range |
| `Utils.WrappedAgreesInRange` | year2024/src/utils.rs:64-73 | inside the grid wrapped access is plain access |
| `Utils.WrappedIsPeriodic` | year2024/src/utils.rs:64-73 | wrapped access repeats with period width horizontally and height vertically |
| `Utils.At` | year2024/src/utils.rs:142-152 | indexing is wrapped access when wrapping is on and checked access otherwise; the usize index delegates to it |
| `Utils.Set` | year2024/src/utils.rs:154-176 | mutable indexing writes exactly the addressed cell and keeps the shape |
| `Utils.RowMajorExactlyOnce` | year2024/src/utils.rs:184-218 | one entry per cell, the entry of (x, y) at y * width + x, positions strictly increasing row by row, x fastest |
| `Utils.GridIter.Next` | year2024/src/utils.rs:197-218 | yields the next cell of the row-major order with its position, then the end; a zero-width grid with rows left panics |
| `Utils.Mask8` | year2024/src/utils.rs:261-283 | the `relevant` bit of a neighbour is set iff the grid wraps or that neighbour is in range |
| `Utils.Mask4` | year2024/src/utils.rs:285-313 | as for `neighbors8`, and every diagonal bit is clear |
| `Utils.GridNeighborsIter.Next` | year2024/src/utils.rs:239-258 | skips cleared bits and yields the next listed neighbour with its cell, in `GRID_NEIGHBOR_ORDER` |
| `Utils.Neighbors8` | year2024/src/utils.rs:261-283 | an iterator over the in-range neighbours, or all eight when wrapping |
| `Utils.Neighbors4` | year2024/src/utils.rs:285-313 | an iterator over the in-range orthogonal neighbours, or all four when wrapping |
| `Utils.Neighbors4Orthogonal` | year2024/src/utils.rs:285-313 | `neighbors4` yields only positions at Manhattan distance one |
| `Utils.Neighbors4Order` | year2024/src/utils.rs:220-229 | around an inner cell `neighbors4` yields up, left, right, down in that order |
| `Y2023Day09.DiffForward` | year2023/src/day09.rs:8-10 | the left-to-right loop turns all but the last entry into the differences of the slice and touches nothing else |
| `Y2023Day09.DiffBackward` | year2023/src/day09.rs:22-24 | the right-to-left loop turns all but the first entry into the differences of the slice and touches nothing else |
| `Y2023Day09.ExtrapolateRight` | year2023/src/day09.rs:3-15 | returns the next value of the slice (0 for an empty slice) and leaves the last value of every difference row in it |
| `Y2023Day09.ExtrapolateLeft` | year2023/src/day09.rs:17-28 | returns the previous value of the slice (0 for an empty slice) and leaves the first value of every difference row in it |
| `Y2023Day09.PartA` | year2023/src/day09.rs:38-44 | the sum of the next values of the lines, each computed on a copy |
| `Y2023Day09.PartB` | year2023/src/day09.rs:46-52 | the sum of the previous values of the lines, each computed on a copy |
| `Y2023Day09.SingleValue` | year2023/src/day09.rs:8-14 | a single value extrapolates to itself in both directions |
| `Y2023Day09.NextExtendsDifferences` | year2023/src/day09.rs:12-14 | appending the next value appends the next difference to the differences: the table stays consistent |
| `Y2023Day09.NextOfNeg` | year2023/src/day09.rs:3-15 | extrapolation is linear: negated values give the negated next value |
| `Y2023Day09.PrevIsNextOfReverse` | year2023/src/day09.rs:17-28 | extrapolating left is extrapolating the reversed values right |
| `Y2023Day09.RightTableRows` | year2023/src/day09.rs:8-14 | entry i left by `extrapolate_right` is the last value of difference row n - 1 - i |
| `Y2023Day09.LeftTableRows` | year2023/src/day09.rs:22-27 | entry i left by `extrapolate_left` is the first value of difference row i |
| `Y2023Day09.ConstantNext` | year2023/src/day09.rs:3-15 | a constant sequence continues with its constant |
| `Y2023Day09.ConstantPrev` | year2023/src/day09.rs:17-28 | a constant sequence is preceded by its constant |
| `Y2023Day09.Example` | year2023/src/day09.rs:68-83 | the example's next values sum to 114 and its previous values to 2 |
| `Y2023Day15.Hash` | year2023/src/day15.rs:11-15 | the hash of a step is always a byte value below 256 |
| `Y2023Day15.HashAppend` | year2023/src/day15.rs:11-15 | the fold runs left to right: hashing a concatenation continues from the hash of its first part |
| `Y2023Day15.HashSnoc` | year2023/src/day15.rs:14 | one more byte c turns the hash h into ((h + c) * 17) mod 256 |
| `Y2023Day15.PartA` | year2023/src/day15.rs:25-28 | the sum of the step hashes, at most 255 per step |
| `Y2023Day15.ExampleHashes` | year2023/src/day15.rs:84-89 | the hashes of the eleven example steps |
| `Y2023Day15.ExampleA` | year2023/src/day15.rs:84-89 | the example's hashes sum to 1320 |
| `Y2023Day15.Find` | year2023/src/day15.rs:36 | `position`: the slot of the first lens with the label, or none when no lens has it |
| `Y2023Day15.Boxes.Position` | year2023/src/day15.rs:36 | the search loop returns exactly that first slot |
| `Y2023Day15.InsertSemantics` | year2023/src/day15.rs:35-41 | after `=`, the label holds the new focal length, every other label keeps its own, and no box holds a label twice |
| `Y2023Day15.DeleteSemantics` | year2023/src/day15.rs:42-46 | after `-`, the label is absent, every other label keeps its focal length, and labels stay unique |
| `Y2023Day15.DeleteKeepsOrder` | year2023/src/day15.rs:42-46 | `-` keeps the other lenses in their order; an absent label changes nothing |
| `Y2023Day15.Boxes.Apply` | year2023/src/day15.rs:33-47 | a step changes only the box of its label's hash, as `=` or `-` prescribe; every lens stays in the box of its hash and labels stay unique per box |
| `Y2023Day15.PartB` | year2023/src/day15.rs:30-63 | the focusing power of the boxes after all steps, applied in order to 256 empty boxes |
| `Y2023Day06.ISqrt` | year2023/src/day06.rs:7 | the root `r` of the discriminant satisfies r² ≤ n < (r+1)² |
| `Y2023Day06.ISqrtUnique` | year2023/src/day06.rs:7 | any r with r² ≤ n < (r+1)² is that root |
| `Y2023Day06.CeilHalf` | year2023/src/day06.rs:8 | the expression through `u64::MAX - 1` (an even number) is the ceiling of half of `time - rt` |
| `Y2023Day06.PossibilitiesToWin` | year2023/src/day06.rs:6-11 | the closed form panics exactly when time² < 4(distance+1) |
| `Y2023Day06.WinsIffInInterval` | year2023/src/day06.rs:7-9 | a hold time beats the record exactly when it lies in [⌈(time−rt)/2⌉, ⌊(time+rt)/2⌋] |
| `Y2023Day06.PossibilitiesCountWins` | year2023/src/day06.rs:6-11 | the closed form equals the number of hold times h in [0, time] with h·(time−h) > distance, and panics exactly when that number is 0 |
| `Y2023Day06.MiddleWins` | year2023/src/day06.rs:6-11 | whenever the discriminant is non-negative, holding for half the race wins |
| `Y2023Day06.PartA` | year2023/src/day06.rs:21-29 | the product of the races' counts, defined exactly when every race's count is |
| `Y2023Day06.DecimalConcat` | year2023/src/day06.rs:31-41 | joining digit strings (part b) shifts the first number left by the second's length in decimal digits |
| `Y2023Day06.PartB` | year2023/src/day06.rs:31-45 | the count for the one race read from the joined strings, defined exactly when its discriminant is non-negative |
| `Y2023Day06.ExampleA` | year2023/src/day06.rs:68-74 | the example's three races give 4 · 8 · 9 = 288 |
| `Y2023Day06.ExampleJoinedTime` | year2023/src/day06.rs:75-81 | the example's times join to the race time 71530 |
| `Y2023Day06.ExampleB` | year2023/src/day06.rs:75-81 | that race with record 940200 gives 71503 |
| `Y2024Day02.IsSafeWithoutRemoval` | year2024/src/day02.rs:45-56 | with the removal used up, `is_safe` holds exactly when every adjacent pair moves in direction `ord` by at most 3 (fewer than two levels are safe) |
| `Y2024Day02.IsSafeWithRemoval` | year2024/src/day02.rs:45-56 | with the removal unused, `is_safe` holds exactly when removing some level other than the first leaves a safe report |
| `Y2024Day02.SafeReportMeaning` | year2024/src/day02.rs:18-28 | part a accepts a report exactly when it is safe increasing or safe decreasing |
| `Y2024Day02.TolerableInDirection` | year2024/src/day02.rs:30-42 | trying `is_safe` with one removal and `is_safe` on the report without its first level covers exactly the reports made safe by removing at most one level |
| `Y2024Day02.TolerableReportMeaning` | year2024/src/day02.rs:30-42 | part b accepts a report exactly when it, or the report with any single level removed, is safe in some direction |
| `Y2024Day02.SafeIsTolerable` | year2024/src/day02.rs:18-42 | every report part a accepts, part b accepts |
| `Y2024Day02.PartAAtMostPartB` | year2024/src/day02.rs:18-42 | the part b count is never below the part a count |
| `Y2024Day02.ExampleReports` | year2024/src/day02.rs:61-83 | the verdicts on the six example reports |
| `Y2024Day02.Example` | year2024/src/day02.rs:61-83 | the example counts 2 safe reports and 4 with one removal |
| `Y2024Day13.Cost` | year2024/src/day13.rs:35-52 | a machine panics exactly when its determinant is 0, and otherwise never costs a negative amount |
| `Y2024Day13.AdjugateOfSolution` | year2024/src/day13.rs:38-43 | applying the adjugate to the prize gives det · (presses of A, presses of B) for any solution |
| `Y2024Day13.SolutionOfAdjugate` | year2024/src/day13.rs:38-47 | with det ≠ 0, the quotients of the adjugate products by det solve the claw's system |
| `Y2024Day13.ExactDivision` | year2024/src/day13.rs:44-47 | an exact multiple of det leaves remainder 0 and divides to its factor |
| `Y2024Day13.SolutionIsPaid` | year2024/src/day13.rs:44-51 | a machine whose prize is reached by a presses of A and b of B, both positive, costs 3a + b |
| `Y2024Day13.PaidIsSolution` | year2024/src/day13.rs:44-51 | a machine that costs something costs 3a + b for a positive solution (a, b) |
| `Y2024Day13.UnreachableIsFree` | year2024/src/day13.rs:44-50 | a machine with no positive solution costs 0 |
| `Y2024Day13.Total` | year2024/src/day13.rs:32-56 | the sum over machines is defined exactly when no determinant is 0, and is never negative |
| `Y2024Day13.ExampleMachines` | year2024/src/day13.rs:88-107 | the four example machines cost 280, 0, 200 and 0 |
| `Y2024Day13.Example` | year2024/src/day13.rs:88-107 | the example totals 480 |
| `Y2024Day04.Rotate` | year2024/src/day04.rs:58-62 | the quarter turn swaps the dimensions and puts `mask[N-1-j][i]` at row i, column j |
| `Y2024Day04.RotateTwice` | year2024/src/day04.rs:58-62 | two quarter turns turn the mask upside down: cell (i, j) becomes (N-1-i, M-1-j) |
| `Y2024Day04.RotateFour` | year2024/src/day04.rs:58-62 | four quarter turns give back the mask |
| `Y2024Day04.ColumnsAreRowPlacements` | year2024/src/day04.rs:72-81 | the column filter on the grid without its first d rows counts the placements with top row d, comparing only where the mask is `Some` |
| `Y2024Day04.FoldFrom` | year2024/src/day04.rs:64-83 | `fold_2d` on the grid without its first d rows counts the placements with top row d or later; it returns 0 once fewer rows remain than the mask height |
| `Y2024Day04.FoldCountsPlacements` | year2024/src/day04.rs:64-83 | `fold_2d` counts each placement of the mask inside the grid exactly once |
| `Y2024Day04.Fold2D` | year2024/src/day04.rs:64-83 | a grid with fewer rows than the mask has no placement, and there are never more placements than rows times column offsets |
| `Y2024Day04.PartACountsPlacements` | year2024/src/day04.rs:11-37 | part a counts every placement of each of the eight orientations of XMAS (row, column, both diagonals, each read both ways) once |
| `Y2024Day04.PartBCountsPlacements` | year2024/src/day04.rs:39-55 | part b counts every placement of each of the four turns of the crossed MAS once |
| `Y2024Day04.XmasQuarterTurn` | year2024/src/day04.rs:12-13 | the first turn of the XMAS row is the XMAS column |
| `Y2024Day04.XmasHalfTurn` | year2024/src/day04.rs:12-14 | the second turn is the row SAMX |
| `Y2023Day18.AsVec` | year2023/src/day18.rs:11-20 | each direction is a unit step along one axis, with y growing downwards |
| `Y2023Day18.StepTerm` | year2023/src/day18.rs:34-37 | the term the source adds per move is the negated shoelace cross product of the edge it walks |
| `Y2023Day18.CalcArea` | year2023/src/day18.rs:29-42 | the one-pass fold returns Pick's count `(|2A| + perimeter) / 2 + 1` for the path's shoelace sum 2A and perimeter |
| `Y2023Day18.ShoelaceOfClosedSquare` | year2023/src/day18.rs:29-42 | a square path of side a returns to the origin with shoelace sum 2a² and perimeter 4a |
| `Y2023Day18.SquareLagoon` | year2023/src/day18.rs:41 | the lagoon dug around a square of side a covers (a + 1)² cells: interior and boundary together |
| `Y2023Day18.PlanMoves` | year2023/src/day18.rs:52-53 | part a walks each instruction's direction for its step count |
| `Y2023Day18.PartA` | year2023/src/day18.rs:52-56 | part a is the lagoon size of the plan's own moves |
| `Y2023Day18.Decode` | year2023/src/day18.rs:60-67 | part b's step count is the colour without its last hex digit |
| `Y2023Day18.DecodeEncode` | year2023/src/day18.rs:60-67 | a colour made of a distance and a last hex digit 0-3 decodes to that distance and the direction R, D, L, U of that digit |
| `Y2023Day18.ColorMoves` | year2023/src/day18.rs:59-68 | part b decodes every instruction's colour |
| `Y2023Day18.PartB` | year2023/src/day18.rs:58-72 | part b is the lagoon size of the moves decoded from the colours |
| `Y2024Day11.Pow10Add` | year2024/src/day11.rs:57-62 | `exp10` (modelled by `Common.Pow10`) turns sums of exponents into products |
| `Y2024Day11.Log10Bounds` | year2024/src/day11.rs:64-69 | `log10(x)` is the number of decimal digits of x: `10^(d-1) <= x < 10^d`, and 0 has one digit |
| `Y2024Day11.Log10Unique` | year2024/src/day11.rs:64-69 | the digit count is the only d with `10^(d-1) <= x < 10^d` |
| `Y2024Day11.Blink` | year2024/src/day11.rs:44-52 | a blink turns a stone into one or two stones |
| `Y2024Day11.SplitHalves` | year2024/src/day11.rs:47-49 | a stone with 2h digits splits into a left half of exactly h digits and a right half below 10^h that together spell the stone |
| `Y2024Day11.FlatMapAppend` | year2024/src/day11.rs:44-52 | applying the rule to a concatenated row gives the concatenated results |
| `Y2024Day11.IterateAppend` | year2024/src/day11.rs:44-52 | stones evolve independently: the row `a + b` after r blinks is a's row followed by b's |
| `Y2024Day11.CountIsEvolvedLength` | year2024/src/day11.rs:37-55 | the counting recursion returns the number of stones the single stone x has become after r blinks (1 for r = 0) |
| `Y2024Day11.RecordKeepsMemoised` | year2024/src/day11.rs:53 | storing a true count under `(r, x)` keeps every memo entry true |
| `Y2024Day11.NumberStones` | year2024/src/day11.rs:37-55 | with a memo whose entries are all true counts, returns the count of x after r blinks, keeps the memo true and only adds entries |
| `Y2024Day11.CountAll` | year2024/src/day11.rs:16-34 | the sum over the input of the per-stone counts, with one fresh memo, is the length of the row after the blinks |
| `Y2024Day11.PartA` | year2024/src/day11.rs:16-24 | part a counts the stones after 25 blinks |
| `Y2024Day11.PartB` | year2024/src/day11.rs:26-34 | part b counts the stones after 75 blinks |
| `Y2024Day11.ExampleBlinks` | year2024/src/day11.rs:71 | the example row 125 17 becomes 253000 1 7 after one blink and 253 0 2024 14168 after two |
| `Y2024Day19.ZipAllIsPiece` | year2024/src/day19.rs:44-48 | when the towel fits before position i, the zipped byte comparison holds exactly when the pattern's stripes `i - len .. i` are the towel |
| `Y2024Day19.Constructable` | year2024/src/day19.rs:38-57 | with non-empty towels, the table entry for the whole pattern is the number of ways to write it as a concatenation of towels, counted by last towel (`prior[0] = 1` for the empty prefix) |
| `Y2024Day19.PiecesPositive` | year2024/src/day19.rs:42-54 | a positive count has a towel ending the pattern whose rest has a positive count |
| `Y2024Day19.PiecesAtLeast` | year2024/src/day19.rs:42-54 | each towel ending the pattern contributes at least its rest's count |
| `Y2024Day19.WaysPositiveIsConcat` | year2024/src/day19.rs:38-57 | a pattern with a positive count is the concatenation of some sequence of towels |
| `Y2024Day19.ConcatHasWays` | year2024/src/day19.rs:38-57 | any concatenation of non-empty towels has a positive count |
| `Y2024Day19.PossibleIffConcat` | year2024/src/day19.rs:18-26 | part a's test `constructable > 0` holds exactly for the patterns that are concatenations of towels |
| `Y2024Day19.PossibleAtMostTotal` | year2024/src/day19.rs:18-35 | the number of possible patterns never exceeds the total number of ways |
| `Y2024Day19.PartA` | year2024/src/day19.rs:18-26 | part a counts the patterns with a positive count |
| `Y2024Day19.PartB` | year2024/src/day19.rs:28-35 | part b sums the counts of all patterns |
| Y2024Day01.ParseI64 | year2024/src/day01.rs:18-19 | a parsed token is always inside the `i64` range |
| Y2024Day01.ParseShow | year2024/src/day01.rs:18-19 | every `i64` reads back from its decimal rendering, so the token parser accepts exactly the values it can hold |
| Y2024Day01.ParseLine | year2024/src/day01.rs:15-21 | a line yields a pair exactly when it has two tokens that both parse as `i64`; otherwise the `unwrap` panics |
| Y2024Day01.Parse | year2024/src/day01.rs:11-24 | parsing succeeds iff every line does; the unzipped lists are as long as the input and hold each line's pair at that line's index |
| Y2024Day01.InsertCounts | year2024/src/day01.rs:28-29 | inserting adds exactly one copy of the element |
| Y2024Day01.InsertSorted | year2024/src/day01.rs:28-29 | inserting into a sorted list keeps it sorted |
| Y2024Day01.Sort | year2024/src/day01.rs:28-29 | sorting yields a sorted permutation of the list |
| Y2024Day01.SortedUnique | year2024/src/day01.rs:28-29 | two sorted lists with the same elements are equal, so the sort result is determined by the elements alone |
| Y2024Day01.PartA | year2024/src/day01.rs:26-32 | the sum of distances of the zipped sorted lists |
| Y2024Day01.PartAIgnoresOrder | year2024/src/day01.rs:26-32 | part a depends only on the multisets of ids, not on the order of the lines |
| Y2024Day01.SimilaritySnocRight | year2024/src/day01.rs:34-46 | an id added to the right list raises the score by that id once for each of its occurrences in the left list |
| Y2024Day01.SimilarityEmptyRight | year2024/src/day01.rs:34-46 | with an empty right list every count is 0 and the score is 0 |
| Y2024Day01.SimilaritySymmetric | year2024/src/day01.rs:34-46 | the similarity score is symmetric in the two lists |
| Y2024Day01.CountIds | year2024/src/day01.rs:36-39 | the map holds, for every id of the right list, its number of occurrences, and no other key |
| Y2024Day01.PartB | year2024/src/day01.rs:34-46 | the count-map loop followed by the weighted sum computes the similarity score: each left id times its number of occurrences on the right |
| Y2024Day05.IsOrdered | year2024/src/day05.rs:40-50 | the nested-loop filter accepts an update iff no pair `i < j` has the rule `u[j]|u[i]` |
| Y2024Day05.FirstBadAtLeast | year2024/src/day05.rs:76-84 | the first violating index lies at or after any prefix of good indices, and is the first bad one after it |
| Y2024Day05.NotPastBad | year2024/src/day05.rs:76-84 | the search for the first violating index never passes a bad index |
| Y2024Day05.OrderedIffNoBad | year2024/src/day05.rs:41-49 | an update is ordered iff it has no violating index |
| Y2024Day05.NoBadIsOrdered | year2024/src/day05.rs:76-86 | an update in which no index has a later page ruled before it is ordered |
| Y2024Day05.SwapProgress | year2024/src/day05.rs:78-81 | swapping the first violating pair keeps the pages and the ranking, and moves the first violation later or gives it a page of lower rank, so `order` terminates |
| Y2024Day05.SwapPermutes | year2024/src/day05.rs:80 | a swap keeps the multiset of pages |
| Y2024Day05.Order | year2024/src/day05.rs:75-87 | `order` leaves the update ordered and a permutation of the original; it returns true iff the original was already ordered, and then changes nothing |
| Y2024Day05.PartA | year2024/src/day05.rs:36-55 | the sum of the middle pages of the ordered updates |
| Y2024Day05.PartB | year2024/src/day05.rs:57-72 | the sum of the middle pages of the repairs of the updates that were not ordered; each repair is an ordered permutation of its update |
| Y2024Day05.RankedSub | year2024/src/day05.rs:75-87 | a ranking and the totality of the rules carry over to any list of the same pages |
| Y2024Day05.HeadsEqual | year2024/src/day05.rs:75-87 | under a total ranked rule set, two repairs of one update start with the same page |
| Y2024Day05.OrderedTail | year2024/src/day05.rs:41-49 | dropping the first page keeps an update ordered |
| Y2024Day05.TailCounts | year2024/src/day05.rs:75-87 | dropping the first page removes exactly one copy of it |
| Y2024Day05.TailsRepair | year2024/src/day05.rs:75-87 | after a common first page, the rests of two repairs are repairs of the same pages |
| Y2024Day05.RepairUnique | year2024/src/day05.rs:57-87 | when the rules decide every pair of an update's pages, its repair is unique, so part b's sum does not depend on the swap order |
| Y2023Day05.ApplyFirstHit | year2023/src/day05.rs:13-20 | `apply` maps `x` through the first entry whose source holds it, by that entry's offset |
| Y2023Day05.ApplyMiss | year2023/src/day05.rs:13-20 | a number in no source range is returned unchanged |
| Y2023Day05.ApplyDisjoint | year2023/src/day05.rs:13-20 | with disjoint sources, any entry holding `x` decides its image |
| Y2023Day05.MapApply | year2023/src/day05.rs:13-20 | the early-return scan computes `Apply` |
| Y2023Day05.SortMembers | year2023/src/day05.rs:36 | sorting the cuts by start keeps exactly the same cuts |
| Y2023Day05.SortChain | year2023/src/day05.rs:36 | non-empty, pairwise apart cuts sorted by start are a chain: each ends before the next starts |
| Y2023Day05.GapsNonEmpty | year2023/src/day05.rs:39-52 | every gap pushed by the walk is non-empty and ends by `x.end` |
| Y2023Day05.GapsPoints | year2023/src/day05.rs:39-52 | over a chain of cuts ending with the sentinel, the gaps hold exactly the numbers of `last..end` no cut holds |
| Y2023Day05.FillGaps | year2023/src/day05.rs:39-52 | the `last_x` walk pushes exactly the gaps `Gaps(cuts, x.start, x.end)` |
| Y2023Day05.HitInside | year2023/src/day05.rs:25-32 | a piece's source is the overlap of `x` and the entry's source, both its ranges non-empty and inside `x` |
| Y2023Day05.HitImage | year2023/src/day05.rs:28-31 | each number of the overlap lands in the piece's destination at the entry's offset |
| Y2023Day05.HitPreimage | year2023/src/day05.rs:28-31 | each number of a piece's destination is the image of a number of its source |
| Y2023Day05.HitsFrom | year2023/src/day05.rs:24-34 | each pushed piece comes from some entry of the map |
| Y2023Day05.HitsHas | year2023/src/day05.rs:24-34 | each entry that meets `x` has its piece pushed |
| Y2023Day05.HitsApart | year2023/src/day05.rs:24-34 | with disjoint sources, the cut inputs are non-empty and pairwise apart |
| Y2023Day05.CutsCovered | year2023/src/day05.rs:24-37 | the sorted cuts with the sentinel hold `y` iff `y` is in `x` and in some entry's source |
| Y2023Day05.CutsChain | year2023/src/day05.rs:36-37 | with disjoint sources and `x` inside `u64`, the sorted cuts plus sentinel form a chain starting at or after `x.start` and ending at or after `x.end` |
| Y2023Day05.ApplyRange | year2023/src/day05.rs:21-55 | `apply_range` returns the shifted pieces followed by the gaps between the sorted cuts |
| Y2023Day05.RangeImageCovers | year2023/src/day05.rs:21-55 | with disjoint sources, `apply(y)` is in the output for every `y` of `x` |
| Y2023Day05.RangeImageExact | year2023/src/day05.rs:21-55 | with disjoint sources, every output number is `apply(y)` for some `y` of `x` |
| Y2023Day05.RangeImageProper | year2023/src/day05.rs:21-55 | with well-formed entries every output range is non-empty and inside `u64` |
| Y2023Day05.StepProper | year2023/src/day05.rs:94-100 | one fold step keeps every range non-empty and inside `u64` |
| Y2023Day05.StepPoints | year2023/src/day05.rs:94-100 | one fold step outputs exactly the images under `apply` of the numbers its input covers |
| Y2023Day05.ApplyRanges | year2023/src/day05.rs:95-99 | the flat map over the ranges computes one fold step |
| Y2023Day05.FoldPoints | year2023/src/day05.rs:91-101 | through maps with disjoint, well-formed entries, the fold covers exactly the locations of the numbers the seeds cover |
| Y2023Day05.FoldProper | year2023/src/day05.rs:91-101 | after at least one map, the fold's ranges are non-empty and inside `u64` |
| Y2023Day05.SeedRangesPoints | year2023/src/day05.rs:84-89 | the pairs `(start, length)` cover `y` iff some pair's `start..start + length` holds it; an odd last number is dropped |
| Y2023Day05.MinStart | year2023/src/day05.rs:102-105 | the least start is a lower bound of all starts and one of them |
| Y2023Day05.LeastStart | year2023/src/day05.rs:102-105 | the `min` over the starts is their least element |
| Y2023Day05.PartA | year2023/src/day05.rs:66-81 | the answer is the least location over all seeds and attained by one; `None` (the `unwrap` panic) iff there are no seeds |
| Y2023Day05.PartB | year2023/src/day05.rs:83-107 | the answer is the least start of the folded ranges; `None` (the `unwrap` panic) iff the fold is empty |
| Y2023Day05.LowestLocation | year2023/src/day05.rs:83-107 | for well-formed maps with disjoint sources, part b's least start is attained by a seed number and no seed number goes lower |
| Y2023Day07.IndexOrder | year2023/src/day07.rs:5-23 | `index` preserves the derived card order (numbers by value, then J, Q, K, A), so it is one-to-one |
| Y2023Day07.CardAt | year2023/src/day07.rs:15-23 | every slot 0..12 of the count array belongs to exactly one card |
| Y2023Day07.CountsAt | year2023/src/day07.rs:39-43 | the count slot of each card holds its number of occurrences in the hand |
| Y2023Day07.CountCards | year2023/src/day07.rs:39-43 | the counting loop fills the 13 slots with the occurrence counts, totalling 5 |
| Y2023Day07.OnlyOneBig | year2023/src/day07.rs:45-61 | with five cards at most one count reaches 3, so returning at the first 5, 4 or 3 is sound |
| Y2023Day07.ScanCounts | year2023/src/day07.rs:45-76 | the scans return five/four of a kind, full house or three of a kind by the large count, else two pair, one pair or high card by the number of 2s |
| Y2023Day07.TypeOfHand | year2023/src/day07.rs:38-77 | `type_of_hand` is the classification of the hand's counts |
| Y2023Day07.JokerOrder | year2023/src/day07.rs:122-134 | `cmp_joker` ranks the Jack below every other card, equal only to itself, and otherwise keeps the card order |
| Y2023Day07.NonJacksComplete | year2023/src/day07.rs:86-99 | every card other than the Jack is among the replacements tried |
| Y2023Day07.ReplaceJack | year2023/src/day07.rs:101-105 | overwriting a Jack keeps the hand valid and removes one Jack, so the recursion terminates |
| Y2023Day07.TypeOfHandJoker | year2023/src/day07.rs:79-110 | the in-place loop returns the plain type without Jacks, else the maximum over all replacements of the first Jack |
| Y2023Day07.BestOverBounds | year2023/src/day07.rs:102-109 | the running maximum is one of the tried types and at least each of them |
| Y2023Day07.JokerUpper | year2023/src/day07.rs:79-110 | no hand with every Jack replaced by another card has a better type than the joker type |
| Y2023Day07.JokerAttained | year2023/src/day07.rs:79-110 | some hand with every Jack replaced has exactly the joker type |
| Y2023Day07.JokerBest | year2023/src/day07.rs:79-110 | the joker type is the best type over all Jack replacements |
| Y2023Day07.CmpDigit | year2023/src/day07.rs:113-117 | the leading part decides, and then the last digit, exactly as `then` does |
| Y2023Day07.LexFoldIsKeyOrder | year2023/src/day07.rs:114-116 | the `fold` with `then` compares hands card by card, as the base-13 number of their strengths |
| Y2023Day07.LexFoldThen | year2023/src/day07.rs:114-116 | a fold started at a decided ordering keeps it |
| Y2023Day07.LexFoldEqual | year2023/src/day07.rs:114-116 | the fold is `Equal` only for identical cards |
| Y2023Day07.CompareIsKeyOrder | year2023/src/day07.rs:112-118 | both hand comparisons order hands by type, then card by card, i.e. by the hand key |
| Y2023Day07.CompareTotalOrder | year2023/src/day07.rs:112-144 | both comparisons are total orders: antisymmetric, `Equal` only for the same hand, transitive |
| Y2023Day07.KeyInjective | year2023/src/day07.rs:112-144 | different hands never compare equal |
| Y2023Day07.SortOn | year2023/src/day07.rs:158 | the stable sort returns a sorted permutation |
| Y2023Day07.SortHandsOrdered | year2023/src/day07.rs:158 | in the sorted hands every earlier hand compares as not greater than a later one |
| Y2023Day07.SumWinnings | year2023/src/day07.rs:160-164 | the sum of rank times bid, the first entry ranking 1 |
| Y2023Day07.TotalWinnings | year2023/src/day07.rs:155-181 | both parts sum rank times bid over the hands sorted by their comparison |
| Y2023Day07.SortedUnique | year2023/src/day07.rs:158 | with distinct keys only one permutation is sorted |
| Y2023Day07.WinningsIgnoreOrder | year2023/src/day07.rs:155-181 | with pairwise different hands the winnings do not depend on the order of the input lines |
| Y2023Day08.Node.Get | year2023/src/day08.rs:20-25 | `Left` picks the left child and `Right` the right one |
| Y2023Day08.Index | year2023/src/day08.rs:27-38 | the index packs the first three bytes, fits in 24 bits, reads back byte by byte, and `is_start`/`is_end` test the third letter for `A`/`Z` |
| Y2023Day08.IndexInjective | year2023/src/day08.rs:27-30 | two labels share an index exactly when their first three bytes agree |
| Y2023Day08.InstrMod | year2023/src/day08.rs:56-57 | reading the instructions cyclically is indexing modulo their number |
| Y2023Day08.PosInGraph | year2023/src/day08.rs:64 | in a network whose children are all nodes, the walk never reaches a missing node (the lookup never panics) |
| Y2023Day08.Periodic | year2023/src/day08.rs:61-73 | once a node recurs after a multiple of the instruction count, the walk repeats with that period |
| Y2023Day08.Reduce | year2023/src/day08.rs:94-101 | past the offset, every step's node is the node of the matching step in the first period |
| Y2023Day08.FirstVisit | year2023/src/day08.rs:69 | the first step at which the walk stands on the current node: it stands there, and at no earlier step |
| Y2023Day08.Hits | year2023/src/day08.rs:65-67 | the recorded steps are exactly the steps up to `n` that end on an end node, in increasing order |
| Y2023Day08.SplitMember | year2023/src/day08.rs:75-90 | splitting the increasing hits at the offset keeps the steps below the offset, and stores the rest relative to it |
| Y2023Day08.SplitDescribes | year2023/src/day08.rs:75-90 | splitting the hits at a repeat of the walk gives a correct trace |
| Y2023Day08.TrackStep | year2023/src/day08.rs:69 | `entry(current).or_insert(steps)` keeps the map of first visits correct and yields the first visit of the current node |
| Y2023Day08.Advance | year2023/src/day08.rs:62-67 | one step: the node reached follows the next instruction, and the step is recorded exactly when that node is an end node |
| Y2023Day08.WalkStep | year2023/src/day08.rs:61-70 | one pass of the loop keeps the node, the recorded hits and the first visits in step with the walk |
| Y2023Day08.WalkUntilStop | year2023/src/day08.rs:61-73 | the loop stops at the first step whose node was first reached a positive multiple of the instruction count earlier, with all hits recorded |
| Y2023Day08.TraceResult | year2023/src/day08.rs:75-90 | at the stopping step the split hits describe the walk |
| Y2023Day08.Trace | year2023/src/day08.rs:50-92 | when the loop stops, `trace` returns a correct trace whose offset is the first visit of the final node, at the first step where the stop test holds |
| Y2023Day08.IsAcceptedCorrect | year2023/src/day08.rs:94-101 | for a correct trace from a non-end start, `is_accepted(x)` holds exactly when step `x` ends on an end node |
| Y2023Day08.FirstAcceptedCorrect | year2023/src/day08.rs:103-113 | `first_accepted` is the first step that ends on an end node, and `None` means that no step does |
| Y2023Day08.PhaseRecord | year2023/src/day08.rs:69 | in the corrected trace, recording a new (node, instruction position) state keeps the record correct and uses up one of finitely many states |
| Y2023Day08.PhaseRepeat | year2023/src/day08.rs:75-90 | a repeated (node, instruction position) state gives a correct trace |
| Y2023Day08.TracePhased | year2023/src/day08.rs:50-92 | the corrected trace always stops and returns a correct trace |
| Y2023Day08.LoopPos | year2023/src/day08.rs:61-73 | on the counterexample network, from step 4 on, the walk alternates between nodes 1 and 2 |
| Y2023Day08.TraceNeverStops | year2023/src/day08.rs:70-72 | on the counterexample network the stop test never holds, so `trace` loops forever |
| Y2023Day08.PartA | year2023/src/day08.rs:179-193 | `part_a` returns the first step at which the walk from `AAA` stands on `ZZZ` |
| Y2023Day08.ExampleAReachesIn2 | year2023/src/day08.rs:267-279 | on the first example the walk first reaches `ZZZ` at step 2 |
| Y2023Day11.RowGalaxies | year2023/src/day11.rs:9-15 | the galaxies of a row are exactly its `true` cells, left to right |
| Y2023Day11.Galaxies | year2023/src/day11.rs:9-15 | the galaxies are exactly the `true` cells of the image, listed in row-major order |
| Y2023Day11.MarkGalaxy | year2023/src/day11.rs:10-13 | marking a new galaxy's column and row keeps every mark equal to "some galaxy lies on this line" |
| Y2023Day11.ScanRow | year2023/src/day11.rs:9-15 | one row of the first loop appends that row's galaxies and keeps the marks exact |
| Y2023Day11.Collect | year2023/src/day11.rs:5-15 | the first loop lists the galaxies in row-major order, and marks exactly the columns and rows that hold one |
| Y2023Day11.SpanFormula | year2023/src/day11.rs:26-33 | crossing lines costs one per line plus `expansion - 1` for every empty line |
| Y2023Day11.SpanAppend | year2023/src/day11.rs:26-33 | the cost of crossing two adjacent runs of lines is the sum of their costs |
| Y2023Day11.SpanBetween | year2023/src/day11.rs:26-33 | crossing the lines between two coordinates costs the difference of their positions in the expanded image |
| Y2023Day11.PairCostIsDistance | year2023/src/day11.rs:21-33 | the cost added for a pair is the Manhattan distance of the two galaxies in the expanded image |
| Y2023Day11.PairCostUnexpanded | year2023/src/day11.rs:21-33 | with expansion 1 the cost of a pair is the plain Manhattan distance |
| Y2023Day11.CostsFrom | year2023/src/day11.rs:20-34 | the inner loop adds the costs from galaxy `i` to every later galaxy |
| Y2023Day11.SumPairs | year2023/src/day11.rs:19-35 | the pair loops add the cost of each unordered pair `i < j` exactly once |
| Y2023Day11.MeasureExpanded | year2023/src/day11.rs:4-38 | `measure_expanded` returns the summed pair costs over the galaxies of the image |
| Y2023Day11.PartA | year2023/src/day11.rs:48-50 | part a measures with expansion 2 |
| Y2023Day11.PartB | year2023/src/day11.rs:52-54 | part b measures with expansion 1000000 |
| Y2023Fun.ParseCell | year2023/src/fun.rs:31-35 | `new` reads `.` and ` ` as dead and `x` as alive; any other character panics (`None`) |
| Y2023Fun.ParseShow | year2023/src/fun.rs:9-17 | reading back the character `Display` writes gives the same cell |
| Y2023Fun.ParseRows | year2023/src/fun.rs:31-35 | the board read from the lines has their shape and holds the cell of every character, or `None` when some character panics |
| Y2023Fun.AliveAround | year2023/src/fun.rs:46-50 | the count of alive wrapped neighbours is at most 8 |
| Y2023Fun.Rule | year2023/src/fun.rs:52-58 | the new cell is alive exactly when three neighbours are alive, or two are and the cell was alive |
| Y2023Fun.NextRow | year2023/src/fun.rs:44-60 | the new row holds, for every column, the rule applied to the old board |
| Y2023Fun.Next | year2023/src/fun.rs:41-62 | the new board has the old dimensions, and every cell is computed from the old board alone |
| Y2023Fun.NextOfDead | year2023/src/fun.rs:46-58 | a board without alive cells stays without alive cells |
| Y2023Fun.AliveShift | year2023/src/fun.rs:46-50 | counting around a cell of a board moved left is counting around the next cell of the original |
| Y2023Fun.AlivePeriodic | year2023/src/fun.rs:46-50 | with wrapping, the neighbour count depends on the column only modulo the width |
| Y2023Fun.CellCommutes | year2023/src/fun.rs:46-58 | a cell of the moved board steps like the next cell of the original |
| Y2023Fun.StepCommutesWithShift | year2023/src/fun.rs:41-67 | on the wrapped board, moving then stepping equals stepping then moving: the board has no edges |
| Y2023Fun.ComputeRow | year2023/src/fun.rs:44-60 | the inner loop builds the new row cell by cell |
| Y2023Fun.BuildNext | year2023/src/fun.rs:41-62 | the outer loop builds the whole new board from the old one |
| Y2023Fun.GameOfLife.Step | year2023/src/fun.rs:40-68 | `step` replaces the board by its successor, keeps the dimensions and turns wrapping on |
| Y2023Fun.GameOfLife.constructor | year2023/src/fun.rs:30-38 | `new` stores the parsed board with wrapping on |
| Y2023bDay02.LastAmountAbsent | Year2023/src/day02.rs:94-113 | a colour no part of a round names keeps the default amount 0 |
| Y2023bDay02.LastAmountIsLast | Year2023/src/day02.rs:96-110 | the amount a round keeps for a colour is the one of the last part naming that colour |
| Y2023bDay02.LastAmountSnoc | Year2023/src/day02.rs:98-110 | a further part overwrites only the amount of its own colour |
| Y2023bDay02.BuildRound | Year2023/src/day02.rs:94-113 | the loop that overwrites the fields of the round yields, per colour, the last amount named (0 if none) |
| Y2023bDay02.CheckGame | Year2023/src/day02.rs:36-40 | the game is kept exactly when every round has at most 12 red, 13 green and 14 blue cubes |
| Y2023bDay02.PartA | Year2023/src/day02.rs:31-44 | the result is the sum of the ids of the games all of whose rounds the bag allows |
| Y2023bDay02.PossibleIdsAppend | Year2023/src/day02.rs:35-43 | the part-a sum over two lists of games is the sum of their sums |
| Y2023bDay02.MaxAmount | Year2023/src/day02.rs:55-59 | the maximum of a colour is at least every round's amount and is attained by a round (or is 0) |
| Y2023bDay02.MaxAmountLeast | Year2023/src/day02.rs:55-59 | every round fits a bag of m cubes of a colour exactly when the maximum is at most m |
| Y2023bDay02.Maxima | Year2023/src/day02.rs:51-59 | the running maxima start at 0 and end at the maximum of each colour over the rounds |
| Y2023bDay02.PartB | Year2023/src/day02.rs:46-63 | the result is the sum over the games of the product of the three colour maxima |
| Y2023bDay02.PossibleIffMaxima | Year2023/src/day02.rs:31-63 | a game counts in part a exactly when its part-b maxima are within 12 red, 13 green and 14 blue |
| Y2023bDay02.ExampleA | Year2023/src/day02.rs:134-143 | the five example games give 8 in part a |
| Y2023bDay02.ExampleB | Year2023/src/day02.rs:144-153 | the five example games give 2286 in part b |
| Y2023bDay03.ParseEntry | Year2023/src/day03.rs:183-191 | a decimal digit becomes its value (below 10), `.` becomes the blank entry and any other character a symbol holding it |
| Y2023bDay03.ShowParse | Year2023/src/day03.rs:183-191 | reading a character into an entry loses nothing: the character can be written back |
| Y2023bDay03.Parse | Year2023/src/day03.rs:178-195 | the grid has one row per line and one entry per character, each the entry read from that character |
| Y2023bDay03.RunStart | Year2023/src/day03.rs:109-111 | the column reached walking left over digits: everything from it up to the given column is a digit and the column before it (if any) is not |
| Y2023bDay03.RunEnd | Year2023/src/day03.rs:115-121 | the column reached walking right over digits: everything before it is a digit and it is the row end or a non-digit |
| Y2023bDay03.TouchesExists | Year2023/src/day03.rs:60-71 | a run is next to a symbol exactly when one of its columns has a symbol in its 3x3 block |
| Y2023bDay03.ScanRow | Year2023/src/day03.rs:53-87 | scanning one row with `current` and `next_to_symbol` adds exactly the row's total, each run being closed by a non-digit or the row end |
| Y2023bDay03.PartA | Year2023/src/day03.rs:38-90 | the result is the sum of the row totals over all rows |
| Y2023bDay03.RunsFromBoundary | Year2023/src/day03.rs:53-87 | from any column that starts a run, the runs closed so far plus the runs still ahead make up the row total |
| Y2023bDay03.RowTotalIsRuns | Year2023/src/day03.rs:53-87 | a row adds exactly the values of its maximal digit runs that touch a symbol, each once |
| Y2023bDay03.NumberAtRun | Year2023/src/day03.rs:105-123 | a number found at a column starts in that row at the beginning of the maximal run through the column and has that run's value |
| Y2023bDay03.FindNumber | Year2023/src/day03.rs:93-124 | outside the grid or off a digit there is no number; otherwise the walk left and the read right return the run's start and value |
| Y2023bDay03.GearAt | Year2023/src/day03.rs:137-167 | the loop over the eight neighbours counts each found number whose start differs from the previous one, and yields their product exactly when two are counted |
| Y2023bDay03.KeptCovers | Year2023/src/day03.rs:153-162 | every start among the numbers found is the start of a number counted |
| Y2023bDay03.KeptDistinct | Year2023/src/day03.rs:150-162 | when equal starts come together, comparing with the last start counted never counts a start twice |
| Y2023bDay03.SameRun | Year2023/src/day03.rs:109-121 | two columns of a row with the same number start have every column between them in that number |
| Y2023bDay03.RowGrouped | Year2023/src/day03.rs:140-143 | the numbers found at three consecutive cells of one row come grouped by start, all in that row |
| Y2023bDay03.GearCountsEachNumberOnce | Year2023/src/day03.rs:140-167 | around any cell the counted numbers have pairwise different starts and include every adjacent number: each adjacent number is counted once |
| Y2023bDay03.GearRatioNonNegative | Year2023/src/day03.rs:150-167 | a gear ratio is a product of numbers read from digits, so never negative |
| Y2023bDay03.RowGears | Year2023/src/day03.rs:126-169 | the gear ratios summed over a row are never negative |
| Y2023bDay03.PartB | Year2023/src/day03.rs:126-169 | the sum over all rows is never negative, matching the unsigned sum |
| Y2023bDay03.RowGearsOnlyStars | Year2023/src/day03.rs:130-136 | only `*` cells are looked at: a row without one adds nothing |
| Y2023bDay03.RowGearsCountsGear | Year2023/src/day03.rs:130-169 | every `*` cell with exactly two numbers around it adds its ratio to its row |
| Y2023Day12.FirstOperationalIsFirst | year2023/src/day12.rs:85-87 | the position found is the first operational spring: every spring before it is damaged or unknown, and the spring there (when inside the row) is operational |
| Y2023Day12.GroupsClean | year2023/src/day12.rs:81-99 | every group the row is cut into is non-empty and holds no operational spring |
| Y2023Day12.GroupsConcat | year2023/src/day12.rs:81-99 | the groups joined together are exactly the row's damaged and unknown springs, in order: cutting loses and adds nothing |
| Y2023Day12.Group | year2023/src/day12.rs:81-99 | the loop over `remaining_status` yields exactly the maximal groups of the row |
| Y2023Day12.Internal | year2023/src/day12.rs:13-79 | with every cache entry holding the count of the sub-problem its key names, the result is the count of the sub-problem asked for and every entry of the new cache (the stored one included) still holds its sub-problem's count |
| Y2023Day12.WholeGroup | year2023/src/day12.rs:38-50 | a block at least as long as the first group: skip an all-unknown group, and fill it when the lengths agree, each by the count of the remaining groups; the cache stays sound |
| Y2023Day12.InsideGroup | year2023/src/day12.rs:51-75 | a block shorter than the first group: placed at a leading damaged spring, and additionally skipping a leading unknown spring; the cache stays sound |
| Y2023Day12.Place | year2023/src/day12.rs:52-59 | placing the block at the front of the first group needs an unknown spring right after it, and counts the rest of the group after that spring with the next amounts |
| Y2023Day12.CalcPossibilities | year2023/src/day12.rs:81-104 | grouping the row and counting with a fresh cache gives the count of the whole row, and, when every amount is positive, that count is the number of ways to decide the unknown springs so that the damaged runs are exactly the amounts |
| Y2023Day12.CompletionsExact | year2023/src/day12.rs:6-11 | a sequence is a completion of a row exactly when it has the row's length, decides every spring, and keeps every spring the row already knows |
| Y2023Day12.CompletionsDistinct | year2023/src/day12.rs:6-11 | no completion of a row is listed twice, so counting completions counts distinct arrangements |
| Y2023Day12.ScanIsArrangements | year2023/src/day12.rs:13-79 | scanning the row once, spring by spring, with the length of the damaged run in progress, counts exactly the completions whose damaged runs are the amounts |
| Y2023Day12.RowIsJoin | year2023/src/day12.rs:81-99 | cutting the row into its groups and joining them again with one operational spring between them keeps the number of arrangements for every amounts |
| Y2023Day12.CountIsArrangements | year2023/src/day12.rs:13-79 | for positive amounts, every sub-problem's count is the number of arrangements of the springs it still looks at against the amounts it still has to place |
| Y2023Day12.PossibilitiesAreArrangements | year2023/src/day12.rs:81-104 | for positive amounts, the count for the whole row equals the number of its arrangements |
| Y2023Day12.PartAArrangements | year2023/src/day12.rs:114-121 | when every row's amounts are positive, part a is the total number of arrangements over all rows |
| Y2023Day12.UnfoldPositive | year2023/src/day12.rs:137-142 | repeating positive amounts five times keeps them positive |
| Y2023Day12.PartBArrangements | year2023/src/day12.rs:123-148 | when every row's amounts are positive, part b is the total number of arrangements of the unfolded rows against the unfolded amounts |
| Y2023Day12.LeadNeverOperational | year2023/src/day12.rs:73-75 | within the groups of a row, the spring a sub-problem starts with is never operational, so the `unreachable!()` branch cannot be reached |
| Y2023Day12.CountUnknownsNone | year2023/src/day12.rs:22-26 | springs that are all unknown hold no further block in exactly one way |
| Y2023Day12.CountUnknownsOne | year2023/src/day12.rs:38-72 | a block of length k fits into m unknown springs in m - k + 1 ways, and in none when it is longer |
| Y2023Day12.CountDamagedBlock | year2023/src/day12.rs:44-60 | a group of n damaged springs takes a block of length n in one way and a shorter block in none |
| Y2023Day12.UnfoldStatus | year2023/src/day12.rs:127-136 | the unfolded row is five copies of the row separated by four unknown springs |
| Y2023Day12.UnfoldAmounts | year2023/src/day12.rs:137-142 | the unfolded amounts are the amounts repeated five times |
| Y2023Day13.ColReflectionLoop | year2023/src/day13.rs:10-21 | the nested loops count, over the column pairs mirrored around the line up to the nearer edge and over all rows, the cells that differ from their image |
| Y2023Day13.RowReflectionLoop | year2023/src/day13.rs:23-34 | the same count for a horizontal line, over the row pairs up to the nearer edge and all columns |
| Y2023Day13.ReflectionScore | year2023/src/day13.rs:36-50 | the score adds every column line and a hundred times every row line whose mismatch equals the smudges asked for |
| Y2023Day13.Solve | year2023/src/day13.rs:60-76 | parts a and b sum the scores of all patterns, with 0 and 1 smudges |
| Y2023Day13.TotalAppend | year2023/src/day13.rs:60-76 | the total over patterns laid end to end is the sum of their totals, and one pattern adds exactly its own score |
| Y2023Day13.ColPairDiffZero | year2023/src/day13.rs:13-17 | two columns count no difference exactly when they agree in every row |
| Y2023Day13.ColMismatchZero | year2023/src/day13.rs:10-21 | a line has mismatch 0 exactly when every cell up to the nearer edge equals its mirror image |
| Y2023Day13.ColReflectionPerfect | year2023/src/day13.rs:10-21 | part a's lines (0 smudges) are exactly the perfect reflections, pairing stopping at the nearer edge |
| Y2023Day13.ColPairDiffOne | year2023/src/day13.rs:13-17 | two columns count one difference exactly when a single row differs |
| Y2023Day13.SmudgeOfMismatchOne | year2023/src/day13.rs:10-21 | a mismatch of 1 comes from a single cell that differs from its image, all others agreeing |
| Y2023Day13.MismatchOneOfSmudge | year2023/src/day13.rs:10-21 | a single cell differing from its image, all others agreeing, gives a mismatch of 1 |
| Y2023Day13.ColMismatchOne | year2023/src/day13.rs:10-21 | both directions: a mismatch of 1 exactly when one cell is a smudge |
| Y2023Day13.ColReflectionSmudge | year2023/src/day13.rs:36-42 | part b's column lines (1 smudge) are exactly those with one differing cell |
| Y2023Day13.ColPairDiffSymmetric | year2023/src/day13.rs:14 | comparing column a with b counts the same as comparing b with a |
| Y2023Day13.ColPairDiffSelf | year2023/src/day13.rs:14 | a column compared with itself never differs |
| Y2023Day13.Transpose | year2023/src/day13.rs:23-34 | the transposed pattern has one row per column, each as long as the pattern is high |
| Y2023Day13.TransposeTwice | year2023/src/day13.rs:23-34 | transposing twice gives the pattern back |
| Y2023Day13.RowPairDiffTranspose | year2023/src/day13.rs:26-30 | comparing two rows over the columns is comparing two columns of the transposed pattern over its rows |
| Y2023Day13.RowMismatchTranspose | year2023/src/day13.rs:23-34 | the row mismatch over k row pairs equals the column mismatch over k column pairs of the transposed pattern |
| Y2023Day13.RowReflectionTranspose | year2023/src/day13.rs:23-34 | `row_reflection` of a pattern equals `col_reflection` of its transpose, so every column lemma holds for rows |
| Y2023Day14.RoundsAppend | year2023/src/day14.rs:92-95 | the round rocks of two joined stretches are those of each stretch added up |
| Y2023Day14.FirstCube | year2023/src/day14.rs:84-91 | a lane ends at the first cube of the line, or at the edge when there is none; no cube lies before that point |
| Y2023Day14.FirstCubeUnique | year2023/src/day14.rs:84-91 | any position with no cube before it and a cube (or the edge) at it is the lane's end |
| Y2023Day14.Packed | year2023/src/day14.rs:101-106 | a refilled lane holds its count of round rocks against its start and is empty after them |
| Y2023Day14.SettleCubes | year2023/src/day14.rs:68-110 | tilting a line leaves every cube where it was and puts no cube anywhere else |
| Y2023Day14.PackedRounds | year2023/src/day14.rs:101-106 | a refilled lane holds exactly the number of rocks counted |
| Y2023Day14.SettleRounds | year2023/src/day14.rs:92-106 | tilting a line neither creates nor destroys round rocks |
| Y2023Day14.LaneCountsSum | year2023/src/day14.rs:73-109 | the per-lane counts a tilt returns add up to the round rocks of the line |
| Y2023Day14.SettleStable | year2023/src/day14.rs:68-110 | after a tilt no round rock has an empty cell in front of it |
| Y2023Day14.LaneCountsDetermine | year2023/src/day14.rs:128 | two lines with the same cubes and the same per-lane counts tilt to the same line |
| Y2023Day14.LaneCountsLength | year2023/src/day14.rs:73 | lines with the same cubes have the same number of lanes, so count vectors have one length |
| Y2023Day14.LaneStep | year2023/src/day14.rs:82-107 | a lane ending at a cube contributes its packed rocks and the cube, then the rest of the line tilts on its own |
| Y2023Day14.LaneLast | year2023/src/day14.rs:82-107 | a lane reaching the edge is the whole rest of the line, packed |
| Y2023Day14.LineOf | year2023/src/day14.rs:75-80 | a line runs from the cell next to the edge the rocks roll toward, away from it, in the direction the source steps |
| Y2023Day14.LineCounts | year2023/src/day14.rs:73-109 | one count vector per line, each the lane counts of that line |
| Y2023Day14.SetAt | year2023/src/day14.rs:94 | writes one cell of the platform and leaves every other cell as it was |
| Y2023Day14.ScanCell | year2023/src/day14.rs:88-97 | one step of the scan: a round rock is counted and cleared, an empty cell is passed over |
| Y2023Day14.ScanLane | year2023/src/day14.rs:83-100 | the scan stops at the first cube or edge and has counted the round rocks before it, clearing them and touching nothing outside the lane |
| Y2023Day14.FillLane | year2023/src/day14.rs:101-106 | the refill writes round rocks into the first count cells of the lane and nothing else |
| Y2023Day14.RollLane | year2023/src/day14.rs:82-106 | one lane is scanned and refilled: it ends packed, the rest of the platform unchanged |
| Y2023Day14.LaneAdvance | year2023/src/day14.rs:82-107 | after a lane ending at a cube, the line so far equals the tilted line and its counts are the first lane counts |
| Y2023Day14.LaneFinish | year2023/src/day14.rs:82-107 | after the last lane the counts are exactly the lane counts of the line |
| Y2023Day14.NextLane | year2023/src/day14.rs:82-107 | processing one lane keeps the line agreeing with its tilted form up to the next lane start |
| Y2023Day14.TiltLine | year2023/src/day14.rs:82-107 | tilting the lanes of one line turns it into its tilted form, returns its lane counts and leaves the other lines alone |
| Y2023Day14.TiltLanes | year2023/src/day14.rs:82-107 | the lane loop over one line returns the line's lane counts and leaves that line settled, every other line unchanged |
| Y2023Day14.TiltNext | year2023/src/day14.rs:82-107 | after one more line, all lines so far are tilted and the counts are those lines' counts in order |
| Y2023Day14.Tilt | year2023/src/day14.rs:68-110 | `tilt` leaves the platform tilted in the given direction and returns every lane's count of round rocks |
| Y2023Day14.LineOfTilt | year2023/src/day14.rs:68-110 | each line of the tilted platform is that line tilted on its own |
| Y2023Day14.TiltKeepsCubes | year2023/src/day14.rs:68-110 | a tilt leaves the set of cubes unchanged, so one `cube_rocks` list serves every tilt |
| Y2023Day14.TiltKeepsRounds | year2023/src/day14.rs:92-106 | each line keeps its number of round rocks across a tilt |
| Y2023Day14.SameCubesOnLine | year2023/src/day14.rs:117 | platforms with the same cubes have the same cubes on every line |
| Y2023Day14.FlattenSplit | year2023/src/day14.rs:73 | a joined count vector splits back into its lines when the lines have matching lengths |
| Y2023Day14.CountsDetermineTilt | year2023/src/day14.rs:128 | two platforms with the same cubes and the same counts from a tilt end that tilt identical |
| Y2023Day14.PartCycleKeepsCubes | year2023/src/day14.rs:124-126 | the tilts of a cycle keep the cubes |
| Y2023Day14.SpinKeepsCubes | year2023/src/day14.rs:120-126 | any number of cycles keeps the cubes |
| Y2023Day14.CycleKeyDetermines | year2023/src/day14.rs:124-128 | the counts of a cycle's last tilt (east) fix the platform at the end of the cycle |
| Y2023Day14.SpinNext | year2023/src/day14.rs:121-126 | cycle i+1 applies the four tilts to the platform after i cycles, and its key is the east tilt's counts |
| Y2023Day14.KeyDetermines | year2023/src/day14.rs:128-129 | equal cache keys after cycles i and j mean equal platforms after i and j cycles |
| Y2023Day14.SpinAdd | year2023/src/day14.rs:120-126 | a+b cycles are a cycles followed by b cycles |
| Y2023Day14.SpinPeriodic | year2023/src/day14.rs:129-133 | once the platform after i cycles equals the one after j < i, adding any multiple of i−j cycles changes nothing |
| Y2023Day14.Cycle | year2023/src/day14.rs:123-126 | one cycle tilts north, west, south and east, and returns the counts of the east tilt |
| Y2023Day14.DivBounds | year2023/src/day14.rs:132 | the skipped cycles are a multiple of the period no larger than the cycles left, leaving less than one period |
| Y2023Day14.Skip | year2023/src/day14.rs:130-132 | the skip lands on or before the target, less than one period short of it |
| Y2023Day14.SkipPeriods | year2023/src/day14.rs:129-133 | the platform after the skip equals the platform before it |
| Y2023Day14.SpinCycle | year2023/src/day14.rs:112-139 | `spin_cycle` leaves the platform as if exactly `cycles` cycles had been run, cache skipping included |
| Y2023Day14.ColumnLoadAppend | year2023/src/day14.rs:158-167 | the load of two stacked stretches of a column is the upper one's plus the lower one's with shifted weights |
| Y2023Day14.PackedLoad | year2023/src/day14.rs:43 | n rocks packed under a weight of `base` weigh base + (base−1) + … as `calc_load_internal` adds them |
| Y2023Day14.InternalLane | year2023/src/day14.rs:38-49 | `calc_load_internal` over one lane adds the staircase of its rocks and restarts below the cube |
| Y2023Day14.LoadLaneStep | year2023/src/day14.rs:38-49 | if the rest of the column after its first cube agrees with the tilted load, so does the whole column |
| Y2023Day14.InternalSettled | year2023/src/day14.rs:38-49 | `calc_load_internal` on a column equals the load of that column after tilting north |
| Y2023Day14.CalcLoadTilted | year2023/src/day14.rs:51-53 | summing the first n columns agrees with the tilted platform's load over those columns |
| Y2023Day14.PartATilted | year2023/src/day14.rs:149-152 | part a's load without moving rocks equals the north load of the platform tilted north |
| Y2023Day14.PartB | year2023/src/day14.rs:154-170 | part b is the north load of a copy of the platform after a billion cycles; the input is not changed |
| Y2023Day14.RowCubes | year2023/src/day14.rs:56-60 | the listed pairs of a row are exactly its cubes |
| Y2023Day14.GridCubes | year2023/src/day14.rs:56-60 | the listed pairs of the first n rows are exactly their cubes |
| Y2023Day14.ColumnOf | year2023/src/day14.rs:61-62 | the edge list for a column holds exactly its h cells |
| Y2023Day14.RowOf | year2023/src/day14.rs:63-64 | the edge list for a row holds exactly its w cells |
| Y2023Day14.CubeRocks | year2023/src/day14.rs:56-66 | `cube_rocks` lists exactly the cubes and one virtual cube beside every edge cell |
| Y2023Day14.LaneStartsListed | year2023/src/day14.rs:82-83 | every lane starts next to an entry of `cube_rocks`, so the per-cube loop reaches every lane |
| Y2023Day19.ApplyTests | year2023/src/day19.rs:63-71 | the destination is `otherwise` or the destination of one of the tests |
| Y2023Day19.ApplyToPart | year2023/src/day19.rs:63-71 | `apply_to_part` only ever names one of the workflow's destinations |
| Y2023Day19.ApplyTestsFirst | year2023/src/day19.rs:29-71 | the first test whose operator holds between the tested rating and the threshold decides; with none, `otherwise` |
| Y2023Day19.RankedStep | year2023/src/day19.rs:220-222 | on an acyclic set of workflows every step goes down the ranking, so the walk from `in` ends |
| Y2023Day19.FollowVerdict | year2023/src/day19.rs:220-224 | a walk that does not reach a missing workflow ends at `A` or `R` |
| Y2023Day19.Accepts | year2023/src/day19.rs:219-224 | the `while` loop accepts a part exactly when the walk from `in` ends at `A`, and fails where the source panics on a missing name |
| Y2023Day19.AcceptedRatingsAppend | year2023/src/day19.rs:215-229 | the filtered sum of ratings over two lists of parts is the sum of the two, and a lost part in either loses it |
| Y2023Day19.LostPrefix | year2023/src/day19.rs:221 | once a part reaches a missing workflow the whole answer is lost |
| Y2023Day19.PartA | year2023/src/day19.rs:214-232 | `part_a` adds the four ratings of exactly the accepted parts |
| Y2023Day19.Count | year2023/src/day19.rs:242 | a range holding some value has a positive count |
| Y2023Day19.With | year2023/src/day19.rs:111-168 | replacing one rating's range changes that range and no other |
| Y2023Day19.IntervalsAsWritten | year2023/src/day19.rs:179-196 | the list always ends with some box for `otherwise` |
| Y2023Day19.ApplyToIntervals | year2023/src/day19.rs:73-199 | the loop builds exactly the list of sub-boxes and destinations the cuts give, ending with the remainder for `otherwise` |
| Y2023Day19.Intervals | year2023/src/day19.rs:179-196 | with the clamping corrected, every listed box goes to one of the workflow's destinations |
| Y2023Day19.HitsAppend | year2023/src/day19.rs:196 | joining lists adds up how often a part is listed, and the first listing wins |
| Y2023Day19.SplitMembers | year2023/src/day19.rs:106-177 | the lower cut holds the box's parts rated at most v (v−1 for `<`), the upper cut those rated at least v (v+1 for `>`) |
| Y2023Day19.CheckSplit | year2023/src/day19.rs:106-177 | inside the box a part passes a `<` test exactly when it lies in the lower cut and a `>` test exactly when it lies in the upper one; the two cuts share no part and cover the box |
| Y2023Day19.CornersDecide | year2023/src/day19.rs:93-193 | a test holding at both corners holds throughout the box, at neither corner nowhere; holding only at the start means `<`, only at the end `>` |
| Y2023Day19.IntervalsPartition | year2023/src/day19.rs:179-196 | with the clamping corrected, each part of the box lies in exactly one listed box, sent where `apply_to_part` sends it, and no outside part is listed |
| Y2023Day19.SumVolumesAppend | year2023/src/day19.rs:242 | the sizes of joined lists add up |
| Y2023Day19.VolumeFactor | year2023/src/day19.rs:242 | a box's size is the count of one rating times that of the other three, which a cut in that rating leaves alone |
| Y2023Day19.Rearrange | year2023/src/day19.rs:242 | the product of four counts is the same in every order used |
| Y2023Day19.CountSplit | year2023/src/day19.rs:106-177 | cutting a range between t and t+1 splits its count |
| Y2023Day19.SplitVolume | year2023/src/day19.rs:106-177 | the two cuts of a test together hold as many parts as the box |
| Y2023Day19.IntervalsVolume | year2023/src/day19.rs:179-196 | with the clamping corrected, the sizes of the listed boxes add up to the size of the box |
| Y2023Day19.ClampLosesParts | year2023/src/day19.rs:174-177 | as written, a box already cut in its first rating loses parts when a later test cuts another rating |
| Y2023Day19.BothEndsListedTwice | year2023/src/day19.rs:179-196 | as written, a test holding at both corners lists the box once for its destination and again for `otherwise` |
| Y2023Day19.AcceptedWithin | year2023/src/day19.rs:239-246 | the accepted combinations counted for a box never exceed its size |
| Y2023Day19.EntriesWithin | year2023/src/day19.rs:240-246 | the accepted combinations of a workflow's listed boxes never exceed their total size |
| Y2023Day19.PartB | year2023/src/day19.rs:234-252 | `part_b` starts from 1..=4000 in every rating at `in` and counts at most 4000⁴ accepted combinations |
| Y2023Day19.SplitCombinations | year2023/src/day19.rs:106-177 | the two cuts of a test split the accepted combinations of the box, counted one part at a time from any workflow |
| Y2023Day19.IntervalsCombinations | year2023/src/day19.rs:179-196 | with the clamping corrected, the accepted combinations of the listed boxes add up to those of the box |
| Y2023Day19.IntervalsNonNegative | year2023/src/day19.rs:106-196 | cutting never lowers a range's start, so boxes of ratings stay boxes of ratings |
| Y2023Day19.AllAccepted | year2023/src/day19.rs:242-243 | every combination of a box reaching `A` is accepted, so its count is the box's size |
| Y2023Day19.NoneAccepted | year2023/src/day19.rs:244 | no combination of a box reaching `R` is accepted |
| Y2023Day19.Agree | year2023/src/day19.rs:219-224 | two starting workflows that send every part of a box to the same end accept the same number of its combinations |
| Y2023Day19.HitsRoute | year2023/src/day19.rs:196 | a part in a listed box is listed, and when listed once it is routed to that box's destination |
| Y2023Day19.Send | year2023/src/day19.rs:63-196 | every part of a listed box lies in the workflow's box and `apply_to_part` sends it to that listed box's destination |
| Y2023Day19.VolumeCounts | year2023/src/day19.rs:239-246 | the count for a box sent to a workflow is the number of its combinations that end at `A` when each part is followed alone from that workflow |
| Y2023Day19.EntriesCount | year2023/src/day19.rs:240-246 | the count of a workflow's listed boxes is the number of their combinations that the workflow accepts |
| Y2023Day19.PartBCounts | year2023/src/day19.rs:234-252 | `part_b` counts exactly the rating combinations in 1..=4000 that part a's walk from `in` accepts |
| Y2023Day23Map.Neighbors4 | year2023/src/day23.rs:163 | the neighbours visited are on the map and orthogonally adjacent |
| Y2023Day23Map.Onward | year2023/src/day23.rs:88-97 | a neighbour is kept exactly when it is not forest and not the cell the corridor came from |
| Y2023Day23Map.SlopeFlags | year2023/src/day23.rs:110-121 | a slope only ever clears the forward or backward flag, never sets one, and leaves length and end untouched; a non-slope changes nothing |
| Y2023Day23Map.TraceSpec | year2023/src/day23.rs:77-124 | a corridor trace always ends on a cell of the map |
| Y2023Day23Map.TracePath | year2023/src/day23.rs:77-124 | the recursive trace returns, and leaves marked, exactly what the corridor specification gives from the cells marked before |
| Y2023Day23Map.TraceMarks | year2023/src/day23.rs:98-108 | tracing only adds marks, marks only open cells, ends on an open cell, and the length grows by one per newly marked cell |
| Y2023Day23Map.TraceTwoWay | year2023/src/day23.rs:110-121 | on a map without slopes every traced corridor is usable forward and backward |
| Y2023Day23Graph.AddPath | year2023/src/day23.rs:172-176 | a pushed edge keeps the graph valid, appends exactly one edge and lists it only at its source junction |
| Y2023Day23Graph.AddEdges | year2023/src/day23.rs:172-181 | a corridor contributes its forward edge, then its backward edge, each only when allowed, and the graph stays valid |
| Y2023Day23Graph.Internal | year2023/src/day23.rs:45-67 | the depth-first search raises the running maximum to the best total reachable from the junction and restores the visited marks it found |
| Y2023Day23Graph.LongestPath | year2023/src/day23.rs:40-72 | the search from the start with nothing visited returns the best total of the search specification |
| Y2023Day23Graph.BestBound | year2023/src/day23.rs:58-65 | every walk to the end that repeats no junction is no longer than the search's best |
| Y2023Day23Graph.BestAchieved | year2023/src/day23.rs:53-65 | the search's best is 0 or the length of an actual walk to the end that repeats no junction |
| Y2023Day23Graph.BestIsLongest | year2023/src/day23.rs:40-72 | what `longest_path` returns is the length of the longest walk from start to end, or 0 when the end is unreachable |
| Y2023Day23.NewJunction | year2023/src/day23.rs:149-153 | numbering a new junction at an open cell and queueing it keeps the numbering one to one, every junction but the start and the end open, and strictly shrinks the cells not yet numbered |
| Y2023Day23.EdgesKeep | year2023/src/day23.rs:172-181 | adding edges leaves the junction numbering and the queue intact |
| Y2023Day23.FindJunction | year2023/src/day23.rs:166-171 | the corridor's end is numbered afterwards, existing numbers are unchanged, and either nothing changed or a new junction was numbered |
| Y2023Day23.SoundGrows | year2023/src/day23.rs:166-171 | numbering more junctions keeps every edge a corridor between its junctions' cells |
| Y2023Day23.SoundNewJunction | year2023/src/day23.rs:149-153 | a new junction without edges keeps every edge on the map |
| Y2023Day23.SoundAddPath | year2023/src/day23.rs:172-176 | pushing an edge that is a corridor of the map keeps every edge on the map |
| Y2023Day23.SoundAddEdges | year2023/src/day23.rs:172-181 | the forward and backward edges of a corridor, each a corridor when allowed, keep every edge on the map |
| Y2023Day23.TracedOnMap | year2023/src/day23.rs:163-181 | a corridor traced from a junction's cell into an open neighbour gives a forward edge walkable from that cell to its end, and a backward edge walkable from its end back; its first cell, every cell it marks and its end are open, one step per marked cell |
| Y2023Day23.Enclosed | year2023/src/day23.rs:163-164 | a cell whose neighbours are all forest starts and ends no corridor, since tracing only enters open cells |
| Y2023Day23.ForestBlocks | year2023/src/day23.rs:163-164 | on the row path, forest, path no corridor joins the two ends: a forest cell is never walked through |
| Y2023Day23.WalkableBothWays | year2023/src/day23.rs:202-214 | on a map without slopes every corridor that can be walked one way can be walked back |
| Y2023Day23.StepNeighbour | year2023/src/day23.rs:145-147 | the cell a slope points at, when on the map, is one of the junction's neighbours |
| Y2023Day23.Forced | year2023/src/day23.rs:145-160 | the corridor a slope forces is traced and connected (forward edge only) when its cell is open and untraced, keeping the building state and every edge on the map |
| Y2023Day23.Connect | year2023/src/day23.rs:165-181 | recording a corridor traced from junction `id`'s cell appends exactly its allowed forward and backward edges, numbers its end, keeps the building state, and keeps every edge a corridor of the map |
| Y2023Day23.Explore | year2023/src/day23.rs:163-182 | one corridor step is the corridor specification from the cells marked before, followed by `Connect`; the building state, the existing numbers and the soundness of every edge are kept |
| Y2023Day23.Branch | year2023/src/day23.rs:143-183 | one queue round keeps the graph valid, the numbering one to one and existing numbers unchanged, keeps every edge a traced corridor of the map between its junctions' cells, and adds a junction unless numbering and queue are unchanged |
| Y2023Day23.Initial | year2023/src/day23.rs:126-141 | the start and end are junctions 0 and 1 of a valid two-junction graph, both queued |
| Y2023Day23.ToGraph | year2023/src/day23.rs:126-187 | the sweep terminates with a valid graph whose start is junction 0 and end junction 1, numbering junction cells one to one with every junction but the start and the end an open cell, and every edge (length, v) out of u is a corridor traced on the map from u's cell into an open neighbour and through open cells to v's (or from v's back to u's), of that length, usable in that direction |
| Y2023Day23.PartA | year2023/src/day23.rs:197-200 | part a is the longest walk from start to end over the condensed map, whose every edge is a corridor of the map usable in its direction |
| Y2023Day23.RemoveSlopes | year2023/src/day23.rs:203-210 | every slope becomes path, every other tile is unchanged, and no slope is left |
| Y2023Day23.PartB | year2023/src/day23.rs:202-214 | part b is the longest walk over the condensed map of the slope-free copy, whose every edge is a corridor of that copy |
| Y2024Day15.Set | year2024/src/day15.rs:165-166 | writing one cell changes that cell and no other, keeping the map's shape |
| Y2024Day15.CanMoveAnswers | year2024/src/day15.rs:118-140 | on a map walled all round, `can_move` never indexes outside the map, so it always answers |
| Y2024Day15.CanMoveNotWall | year2024/src/day15.rs:118-140 | when `can_move` says yes, the cell ahead is on the map and is not a wall |
| Y2024Day15.Clear | year2024/src/day15.rs:142-162 | clearing ahead of a cell keeps the map's shape whenever it does not panic |
| Y2024Day15.Force | year2024/src/day15.rs:142-167 | `apply_force` keeps the map's shape whenever it does not panic |
| Y2024Day15.ClearFrame | year2024/src/day15.rs:142-162 | clearing ahead of a cell changes only cells strictly further along the push |
| Y2024Day15.ForceFrame | year2024/src/day15.rs:142-167 | forcing a cell changes nothing behind it or beside it across the push |
| Y2024Day15.ForceMoves | year2024/src/day15.rs:165-166 | after forcing, the forced cell is floor and the cell ahead holds what the forced cell held |
| Y2024Day15.PairFrees | year2024/src/day15.rs:147-150 | pushing both halves of a wide box vertically leaves floor where the first half stood |
| Y2024Day15.ClearFrees | year2024/src/day15.rs:142-166 | after clearing, the cell ahead is floor unless it was a wall, so the copy overwrites nothing else |
| Y2024Day15.ClearAhead | year2024/src/day15.rs:145-162 | the recursive part of `apply_force` leaves the grid as `Clear` describes |
| Y2024Day15.ApplyForce | year2024/src/day15.rs:142-167 | `apply_force` in place leaves the grid as `Force` describes |
| Y2024Day15.MoveRobot | year2024/src/day15.rs:110-116 | `move_robot` changes the grid and position exactly as `Move` describes: force and step only when `can_move` holds |
| Y2024Day15.Move | year2024/src/day15.rs:110-116 | one move keeps the map's shape whenever it does not panic |
| Y2024Day15.MoveSteps | year2024/src/day15.rs:110-116 | a move either changes nothing, or steps the robot one cell with floor left behind and the robot's tile carried ahead |
| Y2024Day15.Run | year2024/src/day15.rs:64-67 | running all the moves keeps the map's shape whenever no move panics |
| Y2024Day15.RunSnoc | year2024/src/day15.rs:64-67 | running one more move is running the earlier moves and then that move |
| Y2024Day15.RunPrefix | year2024/src/day15.rs:64-67 | a run that never panics never panics on a prefix of its moves either |
| Y2024Day15.Walk | year2024/src/day15.rs:64-67 | moving the robot through the moves in place ends with the grid and position `Run` describes |
| Y2024Day15.RowScoreStep | year2024/src/day15.rs:69-74 | the score of one more cell adds x + 100 y exactly when that cell holds the tile |
| Y2024Day15.CoordinateSum | year2024/src/day15.rs:69-74 | the coordinate sum over the grid equals the row-major sum of x + 100 y over the cells holding the tile |
| Y2024Day15.GridScoreBounds | year2024/src/day15.rs:69-74 | the coordinate sum is never negative and is 0 on a map without the tile |
| Y2024Day15.RowScoreBounds | year2024/src/day15.rs:69-74 | the coordinate sum of a row is never negative and is 0 on a row without the tile |
| Y2024Day15.Widen | year2024/src/day15.rs:81-91 | the wide map is twice as wide, each box becoming its left half on the even column and its right half on the odd one, other tiles doubled |
| Y2024Day15.WidenPairs | year2024/src/day15.rs:81-91 | a left half stands in the wide map exactly where a box stood, and always with a right half beside it |
| Y2024Day15.PartA | year2024/src/day15.rs:61-77 | part a is the coordinate sum over the boxes after all the moves |
| Y2024Day15.PartB | year2024/src/day15.rs:79-107 | part b is the coordinate sum over the left halves after all the moves on the widened map, starting at twice the robot's x |
| Y2024Day15.TileOf | year2024/src/day15.rs:182-191 | `#` parses as wall, `O` as box, and every other character as floor |
| Y2024Day15.TileRoundTrip | year2024/src/day15.rs:182-191 | drawing a narrow tile and parsing the character gives the tile back |
| Y2024Day15.ParseMap | year2024/src/day15.rs:174-198 | the parsed map has a row per line and a tile per character, each parsed by `TileOf`, with only narrow tiles |
| Y2024Day15.LastRobot | year2024/src/day15.rs:186-188 | the last robot character in a line prefix, with none after it, or none at all |
| Y2024Day15.RobotStart | year2024/src/day15.rs:175-188 | the robot starts at the last `@` in reading order, or at (1, 1) when there is none |
| Y2024Day15.ParseMoves | year2024/src/day15.rs:200-211 | the parsed moves are never more than the characters |
| Y2024Day15.MovesRoundTrip | year2024/src/day15.rs:200-211 | arrows followed by a non-arrow character parse back to the moves they draw |
| Y2023Day20.Sends | year2023/src/day20.rs:56-61 | one pulse of the given level to each output, in the outputs' order |
| Y2023Day20.React | year2023/src/day20.rs:52-80 | a flip-flop ignores high pulses and on a low one toggles its bit and sends high iff the bit is now set; a conjunction sets its bit iff every input bit is set and sends low iff its bit is set; the broadcaster sends nothing; no other bit changes |
| Y2023Day20.Count | year2023/src/day20.rs:46-50 | each dequeued pulse raises exactly one of the two totals, and the matching counter of its target, by one |
| Y2023Day20.Zeros | year2023/src/day20.rs:40-43 | the per-module counters start as one zero per module |
| Y2023Day20.PerformStep | year2023/src/day20.rs:31-89 | the queue loop ends with the memory and counts of `Press`: the broadcaster's low pulses first, then pulses first in, first out, the press counted as one low pulse |
| Y2023Day20.Handle | year2023/src/day20.rs:45-80 | one pass of the loop counts the dequeued pulse, applies its target's reaction and queues the reaction's pulses behind the rest |
| Y2023Day20.SumBump | year2023/src/day20.rs:49-50 | raising one counter by one raises the counters' sum by one |
| Y2023Day20.SumZeros | year2023/src/day20.rs:40-43 | the fresh counters sum to 0 |
| Y2023Day20.CountBalanced | year2023/src/day20.rs:46-50 | counting a pulse keeps the per-module counters summing to the totals |
| Y2023Day20.DrainBalanced | year2023/src/day20.rs:45-81 | handling the queue keeps the counters summing to the totals and counts at least every pulse that was queued |
| Y2023Day20.PressBalanced | year2023/src/day20.rs:35-50 | a press counts its own low pulse and at least one pulse per broadcaster output, with low counters summing to the low total less one and high counters to the high total |
| Y2023Day20.PressesLow | year2023/src/day20.rs:99-109 | n presses count at least n low pulses |
| Y2023Day20.PartA | year2023/src/day20.rs:99-112 | part a is the product of the low and high totals over 1000 presses, the memory carried from press to press starting all clear |
| Y2023Day20.NoneStays | year2023/src/day20.rs:105-109 | once a press exceeds the pulse bound, every longer run does too |
| Y2023Day21.StepCells | year2023/src/day21.rs:14-30 | a cell is marked after a step exactly when it is not rock and one of its four orthogonal neighbours on the grid was marked |
| Y2023Day21.Spread | year2023/src/day21.rs:22-26 | marks exactly the non-rock on-grid orthogonal neighbours of one cell and keeps every existing mark |
| Y2023Day21.ScanRow | year2023/src/day21.rs:18-27 | after the marked cells of one more row are spread, the new grid holds exactly the cells reached from the marked cells scanned so far |
| Y2023Day21.PerformStep | year2023/src/day21.rs:14-30 | returns a fresh grid of the same size whose contents are exactly `Step` of the old contents |
| Y2023Day21.StartMarks | year2023/src/day21.rs:33-37 | only the start cell is marked, its coordinates wrapped into the grid so that -1 is the last row or column |
| Y2023Day21.StartGrid | year2023/src/day21.rs:33-37 | a fresh grid whose contents are the start marks |
| Y2023Day21.StartPopulation | year2023/src/day21.rs:39-40 | the start marks hold exactly one reached cell, the count the record starts with |
| Y2023Day21.IterateSucc | year2023/src/day21.rs:42-43 | one more step after `n` steps is the marks after `n + 1` steps |
| Y2023Day21.CountAtIterate | year2023/src/day21.rs:44 | the count after `n` steps is the number of marked cells after `n` steps |
| Y2023Day21.CountMarks | year2023/src/day21.rs:44 | counts the marked cells of the grid, row by row |
| Y2023Day21.Advance | year2023/src/day21.rs:43-44 | one loop round: the next grid holds the marks after one more step and the count is the count after that step |
| Y2023Day21.SimWithStartPos | year2023/src/day21.rs:32-52 | the answer is exactly the settle loop over the true counts from the wrapped start, starting the record with 1 |
| Y2023Day21Counts.SettleSame | year2023/src/day21.rs:39-51 | the loop depends only on the values of the count function |
| Y2023Day21Counts.PendingNext | year2023/src/day21.rs:45-48 | a round whose count differs from the one two entries back appends it and leaves the loop's answer unchanged |
| Y2023Day21Counts.PendingStop | year2023/src/day21.rs:45-46 | a round whose count equals the one two entries back ends the loop with the record so far, the repeated count not appended |
| Y2023Day21Counts.PendingOut | year2023/src/day21.rs:42-49 | with no rounds left the bounded loop gives up |
| Y2023Day21Counts.SettleDescribes | year2023/src/day21.rs:39-51 | a settled record starts with 1, entry `i` is the count after `i` steps, no entry repeats the one two back, and the count after the last recorded step repeats the entry two back |
| Y2023Day21Counts.GetCAtTime | year2023/src/day21.rs:54-65 | a recorded time reads its entry; a later time reads one of the last two entries, the one whose index has the time's parity |
| Y2023Day21Counts.GetCAtTimeParity | year2023/src/day21.rs:59-64 | past the record the answer depends only on the parity of the time |
| Y2023Day21Counts.GetCAtTimeExact | year2023/src/day21.rs:54-65 | when the counts alternate with period two from the end of the record on, the answer is the true count at every time |
| Y2023Day21.PartA | year2023/src/day21.rs:75-78 | the answer is `get_c_at_time` at 64 over the settled record, and equals the true count after 64 steps whenever the counts keep alternating |
| Y2023Day21.TileOf | year2023/src/day21.rs:176-181 | `.` is a garden plot, `S` the start, `#` rock, and any other character is refused |
| Y2023Day21.FirstStart | year2023/src/day21.rs:183-192 | finds the first start tile in reading order, or reports that there is none |
| Y2023Day21.TileRows | year2023/src/day21.rs:176-181 | the grid has one row per line and one tile per character, and is refused exactly when some character is unknown |
| Y2023Day21.ParseGarden | year2023/src/day21.rs:175-197 | the start is the first `S` in reading order and becomes a garden plot, every other cell is its character's tile, and parsing fails exactly on an unknown character or a missing `S` |
| `Y2023Day22.LexCmp` | year2023/src/day22.rs:24-37 | comparisons chained with `then_with` give 0 exactly when the sequences are equal |
| `Y2023Day22.LexAntisymmetric` | year2023/src/day22.rs:24-37 | swapping the operands of the chained comparison negates it |
| `Y2023Day22.LexTransitive` | year2023/src/day22.rs:24-37 | the chained comparison is transitive |
| `Y2023Day22.Compare` | year2023/src/day22.rs:24-43 | the brick order (bottom `z`, then `x`, `y`, then the top corner) ties only equal bricks |
| `Y2023Day22.CompareAntisymmetric` | year2023/src/day22.rs:24-43 | `cmp(b, a)` is the reverse of `cmp(a, b)` |
| `Y2023Day22.LeTransitive` | year2023/src/day22.rs:24-43 | the brick order is transitive |
| `Y2023Day22.InsertCounts` | year2023/src/day22.rs:63 | inserting adds exactly the one brick |
| `Y2023Day22.InsertSorted` | year2023/src/day22.rs:63 | inserting into a sorted list keeps it sorted |
| `Y2023Day22.Sort` | year2023/src/day22.rs:63 | `sort_unstable` gives a sorted permutation of the bricks |
| `Y2023Day22.SortedUnique` | year2023/src/day22.rs:63 | two sorted permutations of the same bricks are equal, so the unstable sort has one possible result |
| `Y2023Day22.TowerArea` | year2023/src/day22.rs:45-56 | every brick's footprint lies within the folded bounds |
| `Y2023Day22.TowerAreaTight` | year2023/src/day22.rs:45-56 | each bound is reached by some brick unless it kept its starting `i32` extreme |
| `Y2023Day22.WrapInjective` | year2023/src/day22.rs:65-70 | within one width the Euclidean remainder tells coordinates apart |
| `Y2023Day22.SlotsApart` | year2023/src/day22.rs:65-70 | distinct cells of the tower area use distinct cells of the wrapping height map |
| `Y2023Day22.LastIdxIsLast` | year2023/src/day22.rs:79-81 | the recorded brick of a column is the last one standing on it, -1 when none |
| `Y2023Day22.TopAppend` | year2023/src/day22.rs:79-81 | a new brick changes exactly the columns of its footprint, to its top |
| `Y2023Day22.AreaMaxIsMax` | year2023/src/day22.rs:74 | the ground under a brick is at least every column of its footprint and equal to one of them |
| `Y2023Day22.Land` | year2023/src/day22.rs:74-77 | a dropped brick keeps its footprint and its height |
| `Y2023Day22.FallPrefix` | year2023/src/day22.rs:73-82 | brick `i` lands where it would on the bricks before it alone |
| `Y2023Day22.StartHeights` | year2023/src/day22.rs:65-70 | the fresh height map is flat at 0 over the whole area |
| `Y2023Day22.ColumnHighest` | year2023/src/day22.rs:74 | the maximum read along one column of the footprint is that column range's highest column |
| `Y2023Day22.HighestUnder` | year2023/src/day22.rs:74 | the maximum read over the footprint is the highest column under the brick |
| `Y2023Day22.RaiseColumn` | year2023/src/day22.rs:79-81 | one column of the footprint is set to the brick's top, no other cell changes |
| `Y2023Day22.Raise` | year2023/src/day22.rs:79-81 | after the writes the height map holds the heights with the new brick |
| `Y2023Day22.Drop` | year2023/src/day22.rs:73-82 | the brick is replaced by where it lands and the height map records it |
| `Y2023Day22.FallInPlace` | year2023/src/day22.rs:65-82 | the loop replaces each brick in place by where it lands on those before it |
| `Y2023Day22.SimulateFall` | year2023/src/day22.rs:58-85 | the result is the sorted bricks dropped in order, empty for no bricks |
| `Y2023Day22.FallStacked` | year2023/src/day22.rs:58-85 | the fallen bricks never overlap: of two sharing a column the later lies wholly above, and none is below level 1 |
| `Y2023Day22.TopAtLeast` | year2023/src/day22.rs:74 | in a stacked tower a column is as high as every brick on it |
| `Y2023Day22.LandAbove` | year2023/src/day22.rs:73-77 | a dropped brick lands above every earlier brick it shares a column with |
| `Y2023Day22.FallRests` | year2023/src/day22.rs:73-77 | every fallen brick lies on the ground or directly on an earlier brick sharing a column |
| `Y2023Day22.FallIgnoresOrder` | year2023/src/day22.rs:58-63 | the fallen tower depends only on the multiset of input bricks |
| `Y2023Day22.SupportsStep` | year2023/src/day22.rs:101-105 | visiting one more cell adds its top brick exactly when that top is one below the brick |
| `Y2023Day22.StartCells` | year2023/src/day22.rs:89-94 | the fresh support map holds height 0 and no brick everywhere |
| `Y2023Day22.SupportColumn` | year2023/src/day22.rs:101-107 | one column: supporters collected from the old cells, then the cells record the brick |
| `Y2023Day22.SupportOfBrick` | year2023/src/day22.rs:96-109 | the set built for a brick is its supporters, and the map then records it |
| `Y2023Day22.BuildSupportStructure` | year2023/src/day22.rs:87-111 | each brick's set is its supporters among the bricks before it |
| `Y2023Day22.SupportsEarlier` | year2023/src/day22.rs:96-109 | a brick's supporters all come before it |
| `Y2023Day22.SupporterBelow` | year2023/src/day22.rs:101-105 | a supporter is an earlier brick sharing a column whose top is just below the brick |
| `Y2023Day22.BelowSupporter` | year2023/src/day22.rs:101-105 | in a stacked tower every such brick is found as a supporter |
| `Y2023Day22.SupportsExact` | year2023/src/day22.rs:87-111 | in a stacked tower the supporters are exactly the earlier bricks sharing a column and touching from below |
| `Y2023Day22.FallSupported` | year2023/src/day22.rs:140-142 | after the fall every brick is on the ground or has a supporter |
| `Y2023Day22.EvaluateChainReaction` | year2023/src/day22.rs:113-130 | the loop's result is the bricks toppled after the removed one, the removed one excluded |
| `Y2023Day22.Toppled` | year2023/src/day22.rs:117-126 | the removed brick is always down and only bricks already looked at join it |
| `Y2023Day22.ToppledSize` | year2023/src/day22.rs:117-126 | at most the removed brick and one brick per brick looked at are down |
| `Y2023Day22.ToppledStable` | year2023/src/day22.rs:120-126 | looking at later bricks never changes the verdict on earlier ones |
| `Y2023Day22.Chain` | year2023/src/day22.rs:113-130 | only bricks after the removed one fall, so a chain is empty once the removed brick is the last |
| `Y2023Day22.ChainFalls` | year2023/src/day22.rs:120-126 | a later brick falls exactly when it has supporters and all of them are down |
| `Y2023Day22.ToppledAlone` | year2023/src/day22.rs:120-126 | nothing joins the removed brick exactly when no brick looked at rests on it alone |
| `Y2023Day22.ChainEmpty` | year2023/src/day22.rs:143-146 | the chain is empty exactly when no later brick rests on the removed one alone |
| `Y2023Day22.CountDisintegrable` | year2023/src/day22.rs:144-146 | at most one safe brick is counted per brick |
| `Y2023Day22.CountSafe` | year2023/src/day22.rs:143-146 | the count of empty chains is the number of bricks no other brick rests on alone |
| `Y2023Day22.TotalChain` | year2023/src/day22.rs:155-160 | removing each of the first k bricks in turn topples at most k times the number of bricks |
| `Y2023Day22.SumChains` | year2023/src/day22.rs:155-160 | the sum of the chain sizes over every brick |
| `Y2023Day22.FallenSupport` | year2023/src/day22.rs:141-142 | the support structure of the fallen sorted bricks |
| `Y2023Day22.PartA` | year2023/src/day22.rs:140-149 | the number of bricks that can be disintegrated safely in the fallen tower |
| `Y2023Day22.PartB` | year2023/src/day22.rs:151-163 | the total number of other bricks falling, over every brick removed |
| `Y2023Day22.SplitFrom` | year2023/src/day22.rs:173 | splitting always yields at least one piece |
| `Y2023Day22.SplitPieces` | year2023/src/day22.rs:173 | no piece holds a separator |
| `Y2023Day22.SplitNone` | year2023/src/day22.rs:173 | a string without separators is one piece |
| `Y2023Day22.SplitAt` | year2023/src/day22.rs:173 | splitting at a separator splits the two sides independently |
| `Y2023Day22.SplitJoined` | year2023/src/day22.rs:173 | pieces joined with separators split back into those pieces |
| `Y2023Day22.ParseI32` | year2023/src/day22.rs:178-183 | a parsed number is within `i32` |
| `Y2023Day22.ParseParts` | year2023/src/day22.rs:174-188 | a brick read from six pieces is normalised and within `i32` |
| `Y2023Day22.ParseLine` | year2023/src/day22.rs:172-189 | a brick read from a line is normalised and within `i32` |
| `Y2023Day22.ParseBricks` | year2023/src/day22.rs:169-191 | the bricks of the lines that parse, never more than the lines, all normalised |
| `Y2023Day22.ParsePartsShow` | year2023/src/day22.rs:174-188 | six rendered `i32` values read back as the brick they span |
| `Y2023Day22.ParseCorners` | year2023/src/day22.rs:172-189 | two corners in either order, followed by nothing or by a separator and anything, read as the normalised brick |
| `Y2023Day22.ParseRender` | year2023/src/day22.rs:172-189 | every normalised `i32` brick reads back from its text |
| `Y2023Day22.PresentAll` | year2023/src/day22.rs:172 | `filter_map` skips nothing when every line parses |
| `Y2023Day22.ParseBricksRender` | year2023/src/day22.rs:169-191 | the text of a list of bricks, one per line, parses back to that list |
| `Y2023Day16Beams.Bounce` | year2023/src/day16.rs:35-59 | every tile sends a beam out in at least one direction |
| `Y2023Day16Beams.Outgoing` | year2023/src/day16.rs:80 | the flattened bounce: one or two directions, exactly those the bounce returns as `Some` |
| `Y2023Day16Beams.EmptyStraight` | year2023/src/day16.rs:37 | an empty tile passes every beam straight on |
| `Y2023Day16Beams.SplitterLaw` | year2023/src/day16.rs:38-45 | a splitter hit across its axis yields two opposite beams, both perpendicular to the incoming one; hit along its axis, the beam passes straight |
| `Y2023Day16Beams.MirrorLaw` | year2023/src/day16.rs:46-57 | a mirror maps each direction to exactly one perpendicular direction; it is its own inverse and reversing the outgoing beam retraces the incoming one |
| `Y2023Day16Beams.MirrorInjective` | year2023/src/day16.rs:46-57 | a mirror sends distinct incoming directions out in distinct directions |
| `Y2023Day16Beams.Successors` | year2023/src/day16.rs:80-82 | one beam per bounce direction, one offset step further on |
| `Y2023Day16Beams.ReachableStep` | year2023/src/day16.rs:80-86 | a beam one bounce step after a reachable beam is reachable |
| `Y2023Day16Beams.PathInside` | year2023/src/day16.rs:79-89 | a set closed under the step relation that holds a path's first beam holds its last |
| `Y2023Day16Beams.Fixpoint` | year2023/src/day16.rs:79-91 | a closed set of reachable beams holding the start is exactly the reachable set |
| `Y2023Day16Beams.TrackPop` | year2023/src/day16.rs:79 | popping the queue's head keeps every marked beam processed or queued, none twice |
| `Y2023Day16Beams.TrackPush` | year2023/src/day16.rs:84-86 | marking and queueing an unmarked successor keeps the marked beams reachable and the queue free of repeats |
| `Y2023Day16Beams.TrackDone` | year2023/src/day16.rs:79-91 | with the queue empty the marked beams are the reachable ones and each was processed exactly once |
| `Y2023Day16Beams.Shrinks` | year2023/src/day16.rs:84-86 | marking a new beam lowers the number of unmarked beams, so the queue loop ends |
| `Y2023Day16Beams.EntriesInward` | year2023/src/day16.rs:134-137 | the entries are exactly the beams on the grid whose previous cell lies outside it |
| `Y2023Day16Beams.EntriesOnGrid` | year2023/src/day16.rs:134-137 | every entry lies on the grid |
| `Y2023Day16Beams.BoundedStep` | year2023/src/day16.rs:139-152 | a bound on the energy of the first entries extends by one entry |
| `Y2023Day16.TracePath` | year2023/src/day16.rs:62-92 | the four ray grids mark exactly the beams reachable from the start; each reachable beam leaves the queue exactly once |
| `Y2023Day16.Expand` | year2023/src/day16.rs:80-88 | every on-grid successor of the popped beam ends up marked; the queue grows by exactly the newly marked beams |
| `Y2023Day16.Mark` | year2023/src/day16.rs:75 | the ray grids hold one more beam and nothing else changes |
| `Y2023Day16.CountEnergised` | year2023/src/day16.rs:125-128 | the count of cells marked in any of the four direction layers |
| `Y2023Day16.LitEnergised` | year2023/src/day16.rs:125-128 | with the ray grids of a trace, a cell is lit in some layer exactly when a beam reaches it in some direction |
| `Y2023Day16.Energise` | year2023/src/day16.rs:143-149 | the number of cells energised by light entering as the given beam |
| `Y2023Day16.PartA` | year2023/src/day16.rs:122-131 | the number of cells energised by light entering the top-left cell heading east |
| `Y2023Day16.PartB` | year2023/src/day16.rs:133-155 | the maximum, over all border entries, of the energised cells: attained by some entry and exceeded by none |
| `Y2023Day16.TileOf` | year2023/src/day16.rs:164-171 | each tile character is read as the tile whose character it is; other characters fail |
| `Y2023Day16.TileRoundTrip` | year2023/src/day16.rs:164-171 | every tile is read back from its character |
| `Y2023Day16.TileRow` | year2023/src/day16.rs:163-172 | a row of tiles, one per character, failing exactly on an unknown character |
| `Y2023Day16.ParseContraption` | year2023/src/day16.rs:163-172 | one row per line, one tile per character, failing exactly on an unknown character |
| `Y2023Day16.ParseRender` | year2023/src/day16.rs:163-172 | parsing a rendered contraption gives it back |
| `Y2023Day17Spec.Layer` | year2023/src/day17.rs:6-12 | each direction has its own table, and the table index gives the direction back |
| `Y2023Day17Spec.SatAdd` | year2023/src/day17.rs:63 | `saturating_add` on `u32`: the exact sum when it fits, `u32::MAX` otherwise |
| `Y2023Day17Spec.SatAddMono` | year2023/src/day17.rs:63 | saturating addition is monotone in its first operand and keeps `u32::MAX` unreachable |
| `Y2023Day17Spec.MinOpt` | year2023/src/day17.rs:58-59 | the smaller of two optional entries, present when either is, and one of them |
| `Y2023Day17Spec.RunMinBelow` | year2023/src/day17.rs:55-59 | the least entry over runs `lo..` of one direction at a cell exists exactly on the grid with some run; it bounds every such entry and is one of them |
| `Y2023Day17Spec.FixpointOk` | year2023/src/day17.rs:31-76 | after a pass that lowered nothing, no state's candidate is below its entry |
| `Y2023Day17Spec.PotentialIff` | year2023/src/day17.rs:65-68 | the potential holds exactly the pairs of an entry and a value below it, so lowering an entry removes pairs |
| `Y2023Day17Spec.Extend` | year2023/src/day17.rs:52-63 | a walk followed by one legal move is a walk whose loss adds the entered block's cost |
| `Y2023Day17Spec.SeedHonest` | year2023/src/day17.rs:23-29 | the seeded tables are honest: each finite seed is the loss of a one-state walk |
| `Y2023Day17Spec.CandidateRealised` | year2023/src/day17.rs:52-63 | in honest tables every finite candidate is the loss of some walk ending in that state |
| `Y2023Day17Spec.CandidateBelowMove` | year2023/src/day17.rs:52-63 | a state's candidate is at most the entry of any state one legal move before it plus the entered block's cost |
| `Y2023Day17Spec.FixpointBelowWalks` | year2023/src/day17.rs:31-76 | at a fixpoint below the seeds every entry is at most the loss along any walk ending in it |
| `Y2023Day17Spec.TargetMinIsMin` | year2023/src/day17.rs:78-83 | the answer exists when some run qualifies, is no larger than any bottom-right entry with run at least `lo`, and equals one of them |
| `Y2023Day17.Start` | year2023/src/day17.rs:15-29 | the tables hold `u32::MAX` except the seeds: 0 at the origin, the first block south and east |
| `Y2023Day17.Relax` | year2023/src/day17.rs:52-68 | the entry is lowered exactly when the candidate is smaller, and then becomes the candidate; every other entry stays; the tables stay honest, the potential shrinks exactly when something changed, and an unchanged state is settled |
| `Y2023Day17.RelaxCell` | year2023/src/day17.rs:37-69 | the four directions of one cell are relaxed: no entry rises, entries of other cells and runs stay, and unchanged means all four are settled |
| `Y2023Day17.RelaxRow` | year2023/src/day17.rs:36-70 | every cell of a row is relaxed: no entry rises, entries outside the row of that run stay, and unchanged means the row is settled |
| `Y2023Day17.RelaxLayer` | year2023/src/day17.rs:35-71 | every row of one run is relaxed: no entry rises, entries of other runs stay, and unchanged means the run is settled |
| `Y2023Day17.Pass` | year2023/src/day17.rs:32-72 | one pass over all runs: no entry rises; changed means the potential shrank, unchanged means the tables are a fixpoint |
| `Y2023Day17.Loss` | year2023/src/day17.rs:14-84 | the loop ends; the answer is at most the loss of every legal walk finishing at the bottom-right block after a run of at least `lo`, and unless it is `u32::MAX` some such walk loses exactly that |
| `Y2023Day17.PartA` | year2023/src/day17.rs:94-97 | the least loss with runs of one to three blocks, lower bound and attained |
| `Y2023Day17.PartB` | year2023/src/day17.rs:99-102 | the least loss with runs of four to ten blocks, lower bound and attained |
| `Y2023Day17Parse.DigitOf` | year2023/src/day17.rs:109 | a decimal digit's value, failing on any other character |
| `Y2023Day17Parse.DigitRoundTrip` | year2023/src/day17.rs:109 | every single-digit cost is read back from its character |
| `Y2023Day17Parse.DigitRow` | year2023/src/day17.rs:108-110 | one cost per character, failing exactly on a non-digit |
| `Y2023Day17Parse.ParseCity` | year2023/src/day17.rs:108-110 | one row per line, one cost per character, failing exactly where the digit conversion would panic |
| `Y2023Day17Parse.ParseRender` | year2023/src/day17.rs:108-110 | parsing a rendered city of single-digit blocks gives it back |
| `Y2024Day12Garden.RegionSym` | year2024/src/day12.rs:130-149 | joining by same-plant orthogonal steps is symmetric: a region seen from either end is the same |
| `Y2024Day12Garden.RegionTrans` | year2024/src/day12.rs:130-149 | regions compose: two joined walks form one |
| `Y2024Day12Regions.AsWrittenIdsClash` | year2024/src/day12.rs:112-117 | with ids stepping by the row count, a 2×3 garden gives (0, 2) and (1, 0) the same starting id, and a 3×1 garden gives (2, 0) an id beyond the ids the price loop visits |
| `Y2024Day12Regions.AsWrittenSquare` | year2024/src/day12.rs:112-117 | on square gardens the ids as written equal the row-major ids |
| `Y2024Day12Regions.InitIdUnique` | year2024/src/day12.rs:109-123 | row-major starting ids are distinct and below rows × width |
| `Y2024Day12Regions.Initial` | year2024/src/day12.rs:109-123 | the starting labels are the garden padded by a `u32::MAX` border, each plot holding its row-major id |
| `Y2024Day12Regions.InitialSound` | year2024/src/day12.rs:109-123 | every starting label is the id of a plot in the plot's own region |
| `Y2024Day12Regions.FixpointSettled` | year2024/src/day12.rs:126-152 | after a pass that changes nothing, no plot has a same-plant neighbour with a smaller label |
| `Y2024Day12Regions.SameLabelSameRegion` | year2024/src/day12.rs:125-152 | with sound labels, plots sharing a label lie in one region |
| `Y2024Day12Regions.SameRegionSameLabel` | year2024/src/day12.rs:125-152 | at the fixpoint, plots of one region share a label |
| `Y2024Day12Regions.Relabel` | year2024/src/day12.rs:131 | writing a label at a plot keeps the padded shape and the border and changes that one label only |
| `Y2024Day12Regions.RelabelSound` | year2024/src/day12.rs:130-149 | copying a same-plant neighbour's label keeps every label rooted in its own region |
| `Y2024Day12Regions.RelabelShrinks` | year2024/src/day12.rs:130-149 | lowering a label strictly shrinks the finite set of (plot, smaller id) pairs, so the passes stop |
| `Y2024Day12Components.RelaxPlot` | year2024/src/day12.rs:130-149 | up, left, right, down in that order: the first same-plant neighbour with a smaller label gives its label; otherwise the plot is settled and nothing changes |
| `Y2024Day12Components.RelaxRow` | year2024/src/day12.rs:129-150 | one row of a pass keeps the labels sound; without a change every plot of the row is settled |
| `Y2024Day12Components.Pass` | year2024/src/day12.rs:127-151 | one pass keeps the labels sound; without a change the labels are a fixpoint |
| `Y2024Day12Components.Components` | year2024/src/day12.rs:108-155 | the padded labels with a `u32::MAX` border; two plots share a label exactly when they lie in one region, and every label is below rows × width |
| `Y2024Day12Fences.Sum2Swap` | year2024/src/day12.rs:44-48 | summing over the transposed rectangle gives the same total |
| `Y2024Day12Fences.FenceAtMostFourTimesArea` | year2024/src/day12.rs:90-102 | each cell adds at most four units of fence: fence ≤ 4 × area |
| `Y2024Day12Fences.SidesAtMostEdges` | year2024/src/day12.rs:56-76 | a side is only started at a unit of fence, so the sides never outnumber the fence units between rows |
| `Y2024Day12Fences.Transpose` | year2024/src/day12.rs:44-48 | `transpose`: width × rows, entry (y, x) is entry (x, y) of the input |
| `Y2024Day12Fences.TransposeTwice` | year2024/src/day12.rs:44-48 | transposing twice gives the labels back |
| `Y2024Day12Fences.FenceParts` | year2024/src/day12.rs:91-102 | the fence is the sum of its up, down, left and right units |
| `Y2024Day12Fences.EdgesVertical` | year2024/src/day12.rs:52-55 | the fence units between consecutive rows are exactly the up and down units of the fence |
| `Y2024Day12Fences.EdgesHorizontal` | year2024/src/day12.rs:28-48 | the fence units between consecutive rows of the transpose are exactly the left and right units of the fence |
| `Y2024Day12Fences.FenceSplit` | year2024/src/day12.rs:28-48 | the fence of a region is its fence between rows plus its fence between the transpose's rows |
| `Y2024Day12Fences.SidesAtMostFence` | year2024/src/day12.rs:28-41 | sides along rows plus sides along columns never exceed the fence |
| `Y2024Day12.FenceAreaRow` | year2024/src/day12.rs:86-103 | one row of `get_fence_area` adds that row's fence units and cells of id `t` |
| `Y2024Day12.FenceArea` | year2024/src/day12.rs:82-106 | `get_fence_area` returns the fence length and the area of region `t` |
| `Y2024Day12.DiscountRow` | year2024/src/day12.rs:53-77 | the `prev_u`/`prev_d` flags say whether the previous column continued a side, and the row adds one per side starting on this boundary |
| `Y2024Day12.DiscountSides` | year2024/src/day12.rs:50-80 | `get_discount_fence_price` returns the number of sides of region `t` along row boundaries |
| `Y2024Day12.PriceBAtMostPriceA` | year2024/src/day12.rs:16-41 | the bulk-discount price never exceeds the full price |
| `Y2024Day12.ClearBelowMax` | year2024/src/day12.rs:82-106 | an id below `u32::MAX` never labels the padding, so every neighbour index in `get_fence_area` exists |
| `Y2024Day12.PartA` | year2024/src/day12.rs:16-26 | the labels found group plots exactly by region, and the cost is the sum over ids of fence × area |
| `Y2024Day12.DiscountPrice` | year2024/src/day12.rs:34-37 | one id's part B price: area × (sides + sides of the transpose) |
| `Y2024Day12.PartB` | year2024/src/day12.rs:28-41 | the labels found group plots exactly by region, and the cost is the sum over ids of area × sides in both directions |
| `Y2024Day09Disk.BlocksAppend` | year2024/src/day09.rs:98-101 | the blocks of two runs of spans laid end to end are the blocks of each, in order |
| `Y2024Day09Disk.BlockAt` | year2024/src/day09.rs:98-101 | span `j` fills exactly the blocks from its start to the next span's start with its id |
| `Y2024Day09Disk.FileIndex` | year2024/src/day09.rs:22-72 | the file block at position `p` is entry "number of file blocks before `p`" of the files in disk order |
| `Y2024Day09Disk.Compacted` | year2024/src/day09.rs:22-72 | the compacted disk has exactly one block per file block of the original |
| `Y2024Day09Disk.CompactedPermutation` | year2024/src/day09.rs:22-72 | compaction is a permutation of the file blocks: no block is lost or duplicated |
| `Y2024Day09Disk.CompactedKeepsFiles` | year2024/src/day09.rs:30-36 | a file block inside the compacted length keeps its place |
| `Y2024Day09Disk.PlacementPermutation` | year2024/src/day09.rs:22-72 | filling files in order from the front and free blocks from the back of the file list uses each file block once |
| `Y2024Day09Compact.InitInv` | year2024/src/day09.rs:23-25 | the pointers at the two ends with nothing emitted satisfy the loop invariant |
| `Y2024Day09Compact.SkipStep` | year2024/src/day09.rs:27-29 | stepping `r` left over a free span keeps the invariant |
| `Y2024Day09Compact.TakeFile` | year2024/src/day09.rs:30-36 | emitting the file at `l` in place keeps the invariant, the output growing by that file's blocks |
| `Y2024Day09Compact.FillMore` | year2024/src/day09.rs:40-47 | a gap longer than the last file takes all of it and keeps the rest of the gap |
| `Y2024Day09Compact.FillLess` | year2024/src/day09.rs:48-55 | a gap shorter than the last file takes part of it and the file keeps the rest |
| `Y2024Day09Compact.FillEqual` | year2024/src/day09.rs:56-63 | a gap exactly as long as the last file takes all of it and both pointers move |
| `Y2024Day09Compact.Finish` | year2024/src/day09.rs:37-39 | when the pointers meet, the output is the whole compacted disk |
| `Y2024Day09Compact.SkipFree` | year2024/src/day09.rs:27-29 | the inner loop leaves `r` at a file or at `l` and keeps the invariant |
| `Y2024Day09Compact.CompactA` | year2024/src/day09.rs:23-66 | the blocks the iterator emits are exactly the compacted disk |
| `Y2024Day09Compact.Turn` | year2024/src/day09.rs:26-65 | one call of the iterator closure either keeps the loop's invariant and brings the pointers closer, or ends with the output being the whole compacted disk |
| `Y2024Day09Compact.FillFront` | year2024/src/day09.rs:40-63 | filling the gap at `l` from the file at `r` (the three size cases) keeps the invariant and moves at least one pointer |
| `Y2024Day09Compact.PartA` | year2024/src/day09.rs:22-71 | part A's answer is the checksum (position × id) of the compacted disk |
| `Y2024Day09Input.DigitValues` | year2024/src/day09.rs:16-18 | every value taken from the input is a single decimal digit |
| `Y2024Day09Input.Parse` | year2024/src/day09.rs:9-20 | span `k` is file `k / 2` when `k` is even, free otherwise, and has the `k`-th digit as its length |
| `Y2024Day09Input.ParseRender` | year2024/src/day09.rs:9-20 | parsing the digits of an alternating disk map gives it back |
| `Y2024Day09Input.ParseSkips` | year2024/src/day09.rs:16-18 | a character that is not a digit, such as the final newline, changes nothing |
| `Y2024Day09AsWritten.SkipBack` | year2024/src/day09.rs:27-29 | `r` stops at a file, or at `l`, having passed only free spans |
| `Y2024Day09AsWritten.AsWrittenA` | year2024/src/day09.rs:26-65 | the loop as written extends what it has emitted so far, or fails by indexing past the last span |
| `Y2024Day09AsWritten.EqualRunEmittedTwice` | year2024/src/day09.rs:56-63 | on "1110" the loop as written emits file 1 twice (checksum 3) where the compacted disk gives 1 |
| `Y2024Day09AsWritten.LastFileIndexedPastEnd` | year2024/src/day09.rs:30-36 | on "112" the loop as written indexes past the last span where the compacted disk is 0, 1, 1 |
| `Y2024Day09AsWritten.SkipFreeB` | year2024/src/day09.rs:79-81 | part B's inner loop stops at the nearest file at or left of `r`, or would go below span 0 when there is none |
| `Y2024Day09AsWritten.AsWrittenTurnB` | year2024/src/day09.rs:78-96 | one turn of part B's loop as written keeps `r` within the spans or fails |
| `Y2024Day09AsWritten.FirstFileUnderflows` | year2024/src/day09.rs:78-96 | on "11", a disk where nothing can move, the turn as written drives `r` below 0 |
| `Y2024Day09Move.FindFit` | year2024/src/day09.rs:82-85 | the search returns the leftmost free span long enough for the file, or none when no span is |
| `Y2024Day09Move.Move` | year2024/src/day09.rs:90-92 | moving a file into a free span makes one span more |
| `Y2024Day09Move.MoveIndex` | year2024/src/day09.rs:90-92 | after the move the file sits at the gap, the rest of the gap follows it, the spans between shift right by one and the file's old place is free with the file's length |
| `Y2024Day09Move.MoveKeepsFiles` | year2024/src/day09.rs:90-92 | a move keeps every file whole: the multiset of file spans is unchanged |
| `Y2024Day09Move.MoveKeepsSize` | year2024/src/day09.rs:90-92 | a move keeps the number of blocks on the disk |
| `Y2024Day09Move.MoveLowersWeight` | year2024/src/day09.rs:77-96 | a move lowers the position-weighted count of files up to `r`, so the loop ends |
| `Y2024Day09Move.MoveKeepsDone` | year2024/src/day09.rs:77-96 | no file right of `r` gains a free span it fits into, since the spans a move frees or shrinks were already too short for it |
| `Y2024Day09Move.PassStep` | year2024/src/day09.rs:86-95 | stepping `r` past a free span, or past a file with no fit to its left, keeps every file right of `r` settled |
| `Y2024Day09Move.MoveStep` | year2024/src/day09.rs:90-92 | a move keeps the first span, the file spans, the disk size and the settled files, and lowers the measure |
| `Y2024Day09Move.DoneSettled` | year2024/src/day09.rs:77-96 | once every file after the first is settled, no file fits any free span to its left |
| `Y2024Day09Move.SettledStays` | year2024/src/day09.rs:82-89 | on a settled disk the search never lands left of a file, so a second pass moves nothing |
| `Y2024Day09Move.Locate` | year2024/src/day09.rs:82-92 | the span holding file `id` when there is one, and otherwise no span holds it |
| `Y2024Day09Move.FindFitPrefix` | year2024/src/day09.rs:82-89 | the leftmost fit left of span `j` is the leftmost fit of the whole disk when that lies left of `j`, and there is none otherwise: searching the whole disk and then testing `pos > r` is searching left of the file |
| `Y2024Day09Move.TrackInit` | year2024/src/day09.rs:75-77 | on a parsed disk file `i` sits at span `2i`, the files lie in ascending order, and `r` starts at the last span with the last file next to try |
| `Y2024Day09Move.MoveTakesNext` | year2024/src/day09.rs:82-92 | a file with a fitting gap left of it is the next file to try: files tried already have no fit left of them, and lower ids lie further left |
| `Y2024Day09Move.TrackPass` | year2024/src/day09.rs:86-95 | passing the next file to try, which has no fit left of it, is that file's try in the reference (nothing moves), and file `k - 1` is next |
| `Y2024Day09Move.TrackMove` | year2024/src/day09.rs:90-92 | a move takes the next file to try, is that file's try in the reference, and keeps the tracking with file `k - 1` next |
| `Y2024Day09Move.TrackDone` | year2024/src/day09.rs:78 | once `r` reaches span 0 every file has had its try, so the disk is the reference result |
| `Y2024Day09Move.MoveKeepsLoop` | year2024/src/day09.rs:90-92 | a move into the leftmost fit keeps the loop invariant (first span, file spans, size, settled files right of `r`, tracking of the reference) with file `k - 1` next, and lowers the measure |
| `Y2024Day09Move.KeepFile` | year2024/src/day09.rs:86-95 | a file with no fit left of it stays and `r` steps left, keeping the invariant |
| `Y2024Day09Move.SkipKeepsLoop` | year2024/src/day09.rs:79-81 | stepping `r` left over a free span keeps the invariant, and `r` never passes the first span, which is a file |
| `Y2024Day09Move.SkipFreeSpans` | year2024/src/day09.rs:79-81 | the inner loop stops at the nearest file at or left of `r`, keeping the invariant |
| `Y2024Day09Move.TryKeepsLoop` | year2024/src/day09.rs:82-95 | whichever way the try of the file at `r` goes, the invariant holds afterwards, and a move lowers the measure |
| `Y2024Day09Move.TryFile` | year2024/src/day09.rs:82-95 | one try keeps the invariant and either steps `r` left or keeps `r` and lowers the measure |
| `Y2024Day09Move.Round` | year2024/src/day09.rs:78-95 | one turn of the outer loop keeps the invariant and lowers `r` or, at the same `r`, the measure |
| `Y2024Day09Move.CompactB` | year2024/src/day09.rs:75-96 | part B's loop keeps the first span, every file whole and the disk size, ends with no file fitting a free span to its left, and its result is the reference compaction `ByIds`: every file, from the last down to file 1, tries once to move to the leftmost free span left of it that holds it |
| `Y2024Day09Move.PartB` | year2024/src/day09.rs:74-106 | part B's answer is the checksum (position × id, free blocks 0) of the reference compaction |
| `Y2024Day10Trails.Linked` | year2024/src/day10.rs:40-51 | a neighbour passes the check only when it is inside the map and exactly one higher |
| `Y2024Day10Trails.TrailsStart` | year2024/src/day10.rs:32-55 | every trail built from a cell starts at that cell |
| `Y2024Day10Trails.ViaStart` | year2024/src/day10.rs:40-51 | the trails through the checked neighbours start at the cell and go on past it |
| `Y2024Day10Trails.ViaWitness` | year2024/src/day10.rs:40-51 | each such trail goes second to one of the checked neighbours and continues with a trail from it |
| `Y2024Day10Trails.ViaContains` | year2024/src/day10.rs:40-51 | conversely, the cell followed by a trail from a checked neighbour is among them |
| `Y2024Day10Trails.TrailLength` | year2024/src/day10.rs:32-55 | a hiking trail of n cells starts at height 10 - n |
| `Y2024Day10Trails.TrailTail` | year2024/src/day10.rs:32-55 | a hiking trail without its first cell is a hiking trail |
| `Y2024Day10Trails.ConsTrail` | year2024/src/day10.rs:32-55 | a cell one below an adjacent trail's start, put in front of it, gives a hiking trail |
| `Y2024Day10Trails.LinkedAdjacent` | year2024/src/day10.rs:40-51 | a checked neighbour is orthogonally adjacent |
| `Y2024Day10Trails.NbrOf` | year2024/src/day10.rs:40-51 | every adjacent cell one higher inside the map is one of the four checked neighbours |
| `Y2024Day10Trails.TrailsSound` | year2024/src/day10.rs:32-55 | every trail the table's recursion builds from a cell is a hiking trail starting there |
| `Y2024Day10Trails.TrailsComplete` | year2024/src/day10.rs:32-55 | every hiking trail starting at a cell is built by the recursion |
| `Y2024Day10Trails.TrailsExact` | year2024/src/day10.rs:32-55 | both directions: the recursion's trails are exactly the hiking trails from the cell |
| `Y2024Day10Trails.EndsExtend` | year2024/src/day10.rs:41-50 | putting a cell in front of trails keeps their ends |
| `Y2024Day10Trails.ExtendCard` | year2024/src/day10.rs:87-98 | putting a cell in front of trails keeps their number |
| `Y2024Day10Trails.EndsUnion` | year2024/src/day10.rs:41-50 | the ends of two sets of trails together are the ends of each |
| `Y2024Day10Trails.ReachIsTrailEnds` | year2024/src/day10.rs:18-55 | part a's entry for a cell is the set of height-9 cells its hiking trails end at |
| `Y2024Day10Trails.AbsorbedEnds` | year2024/src/day10.rs:40-51 | after k neighbour checks the entry is the ends of the trails through those k neighbours |
| `Y2024Day10Trails.CountIsTrails` | year2024/src/day10.rs:69-102 | part b's entry for a cell is the number of hiking trails starting there |
| `Y2024Day10Trails.AbsorbedCount` | year2024/src/day10.rs:87-98 | after k neighbour checks the entry is the number of trails through those k neighbours |
| `Y2024Day10Trails.LinkedStep` | year2024/src/day10.rs:87-98 | adding a checked neighbour's count adds exactly its trails, none counted before |
| `Y2024Day10Trails.DisjointCard` | year2024/src/day10.rs:87-98 | disjoint sets of trails add their sizes |
| `Y2024Day10Trails.ViaDisjoint` | year2024/src/day10.rs:87-98 | trails through different neighbours differ in their second cell |
| `Y2024Day10.DigitRow` | year2024/src/day10.rs:14 | a line becomes its digit values exactly when every character is a decimal digit; otherwise `unwrap` panics |
| `Y2024Day10.Parse` | year2024/src/day10.rs:11-16 | one row per line and one height per character, each the character's digit value; none when any character is not a digit |
| `Y2024Day10.Seed` | year2024/src/day10.rs:19-30 | the fresh table holds the height-9 cells' own entries and `zero` everywhere else |
| `Y2024Day10.Absorb` | year2024/src/day10.rs:36-51 | one cell absorbs its neighbours one higher, in the order up, left, down, right, and ends with its final entry; no other cell changes |
| `Y2024Day10.Level` | year2024/src/day10.rs:33-54 | after one height the cells of that height and above hold their final entries, all others still `zero` |
| `Y2024Day10.Fill` | year2024/src/day10.rs:19-55 | seeding and the heights 8 down to 0 leave every cell with its final entry |
| `Y2024Day10.SumHeads` | year2024/src/day10.rs:57-64 | the final loop adds the entry sizes of the height-0 cells in row-major order |
| `Y2024Day10.HeadsAgree` | year2024/src/day10.rs:57-64 | sums over the trailheads agree for entries that agree on the map |
| `Y2024Day10.PartA` | year2024/src/day10.rs:18-67 | corrected part a: the sum over the trailheads of the number of height-9 cells their hiking trails reach |
| `Y2024Day10.PartB` | year2024/src/day10.rs:69-114 | corrected part b: the sum over the trailheads of the number of their hiking trails |
| `Y2024Day10.PartAAsWritten` | year2024/src/day10.rs:18-67 | part a as written: the right neighbour is checked against the number of rows, which the model requires to be at most the row width |
| `Y2024Day10.PartBAsWritten` | year2024/src/day10.rs:69-114 | part b as written, with the same check against the number of rows |
| `Y2024Day10.RampTrailEnds` | year2024/src/day10.rs:18-67 | the one-row map `0123456789` has one trail, ending at its last cell |
| `Y2024Day10.RampTrails` | year2024/src/day10.rs:69-114 | the one-row map has exactly one hiking trail |
| `Y2024Day10.RampAsWritten` | year2024/src/day10.rs:49 | as written, the one-row map scores 0 and rates 0: the check against one row hides every right neighbour |
| `Y2024Day10.RampCorrected` | year2024/src/day10.rs:49 | corrected, the one-row map scores 1 and rates 1 |
| `Y2024Day10.RowCountBound` | year2024/src/day10.rs:49 | the row-count check and the row-width check give different answers on the one-row map |
| `Y2024Day17.XorBelow` | year2024/src/day17.rs:146 | exclusive or of two values below 2^n stays below 2^n, so `^` on `u64` never leaves the range |
| `Y2024Day17.XorTwice` | year2024/src/day17.rs:146 | exclusive or with the same value twice gives the first operand back |
| `Y2024Day17.Decode` | year2024/src/day17.rs:18-31 | `Instruction::new` accepts exactly the codes 0 to 7 and panics on any other |
| `Y2024Day17.DecodeOpcode` | year2024/src/day17.rs:18-31 | decoding is the inverse of the opcode numbering: each instruction decodes from its own code and from no other |
| `Y2024Day17.Combo` | year2024/src/day17.rs:48-54 | a combo operand is its own value below 4, register A, B or C for 4 to 6, and panics for 7 |
| `Y2024Day17.GetInstructions` | year2024/src/day17.rs:130-135 | one instruction per adjacent pair of values, opcode decoded from the first and operand the second; it fails exactly when some value other than the last is not an opcode |
| `Y2024Day17.Shr` | year2024/src/day17.rs:145 | a right shift never raises the value and panics from 64 bits on |
| `Y2024Day17.StepFrame` | year2024/src/day17.rs:138-159 | one instruction panics exactly on combo operand 7 or a shift of 64 or more; it writes only its own target register; it outputs only for `out`, a value below 8; the pointer moves by two unless `jnz` jumps to its operand |
| `Y2024Day17.StepNeverRaisesA` | year2024/src/day17.rs:138-159 | no instruction raises register A |
| `Y2024Day17.RunOutputsBelow8` | year2024/src/day17.rs:112-128 | every output of a run is a 3-bit value |
| `Y2024Day17.RunFuelMono` | year2024/src/day17.rs:112-128 | once a run halts or crashes within some number of steps, more steps change nothing |
| `Y2024Day17.NoJumpHalts` | year2024/src/day17.rs:112-128 | a program without jumps halts within half its length in steps |
| `Y2024Day17.Exec` | year2024/src/day17.rs:138-159 | executing one instruction on the register array panics exactly when the instruction's effect does, and otherwise leaves the registers, pointer and output it gives |
| `Y2024Day17.RunStep` | year2024/src/day17.rs:118-123 | one executed instruction moves its output from the rest of the run into the outputs already yielded |
| `Y2024Day17.RunProgram` | year2024/src/day17.rs:112-128 | the collected iterator outputs are those of the run of the program from pointer 0 |
| `Y2024Day17.Render` | year2024/src/day17.rs:80 | the outputs joined with commas take two characters per output but one |
| `Y2024Day17.RenderRoundTrip` | year2024/src/day17.rs:80 | the joined text reads back as the outputs |
| `Y2024Day17.PartA` | year2024/src/day17.rs:74-81 | an answer exists exactly when the program parses and its run halts; it is the joined outputs, each below 8, and reads back as them |
| `Y2024Day17.SampleParse` | year2024/src/day17.rs:161-170 | the sample program text decodes to `adv 1`, `bxl 5`, `out 4`, `bxc 3`, `jnz 0` |
| `Y2024Day17.SampleLoop` | year2024/src/day17.rs:161-170 | one pass of the sample program halves A, prints the low three bits of the result, and loops unless A is zero |
| `Y2024Day17.SampleRuns` | year2024/src/day17.rs:161-170 | from any A the sample program halts after one pass per printed digit, printing the low three bits of each halving of A |
| `Y2024Day14.AdvanceRobots` | year2024/src/day14.rs:86-101 | one position per robot, in the robots' order, each on the board |
| `Y2024Day14.AdvanceCongruent` | year2024/src/day14.rs:96-97 | a robot's column is the one board column congruent to its unwrapped position modulo the width: that column is, and every other column is not |
| `Y2024Day14.AdvanceCompose` | year2024/src/day14.rs:86-101 | advancing a robot `s` seconds and then `t` seconds from where it stands lands where advancing `s + t` seconds does |
| `Y2024Day14.AdvancePeriod` | year2024/src/day14.rs:86-101 | every robot is back where it was after `width * height` seconds |
| `Y2024Day14.Quadrant` | year2024/src/day14.rs:31-44 | a robot is skipped exactly when it is on the middle column or row; otherwise its quadrant says on which side of each it is |
| `Y2024Day14.QuadrantsPartition` | year2024/src/day14.rs:29-46 | the four quadrant counts and the robots on the middle lines add up to all the robots |
| `Y2024Day14.SafetyFactor` | year2024/src/day14.rs:29-51 | the counter loop yields the product of the four quadrant counts |
| `Y2024Day14.PartA` | year2024/src/day14.rs:24-52 | the product of the quadrant counts of the robots after 100 seconds on the 101 x 103 board |
| `Y2024Day14.Bucket` | year2024/src/day14.rs:110 | a position on the board falls in a bucket inside the `w` x `h` counter |
| `Y2024Day14.Downsample` | year2024/src/day14.rs:103-113 | each counter holds the number of positions in its bucket |
| `Y2024Day14.DownsampleTotal` | year2024/src/day14.rs:103-113 | the buckets add up to the number of positions, so no robot is lost or counted twice |
| `Y2024Day20.Neighbors4` | year2024/src/utils.rs:285-304 | the listed neighbours are inside the grid and one orthogonal step away, and every such cell is listed |
| `Y2024Day20.SweepExtends` | year2024/src/day20.rs:82-88 | a round only appends to the path |
| `Y2024Day20.SweepKeeps` | year2024/src/day20.rs:82-88 | a round appends only open cells next to the position it started from, none among the three entries before it, so the path stays a track path |
| `Y2024Day20.Follow` | year2024/src/day20.rs:79-90 | a path that is returned ends at the end |
| `Y2024Day20.FollowSound` | year2024/src/day20.rs:72-90 | a returned path starts at the start, and each later entry is open, next to an earlier entry and not among the three before it |
| `Y2024Day20.FollowStep` | year2024/src/day20.rs:81-88 | a turn of the `while` loop that does not stop goes on from the path swept over the last position's neighbours, with one round fewer |
| `Y2024Day20.FindPath` | year2024/src/day20.rs:72-90 | the nested loops build the path that the rounds describe, or give up after `fuel` rounds |
| `Y2024Day20.Advance` | year2024/src/day20.rs:81-88 | one turn of the `while` loop leaves a path whose last entry is the position and from which the search gives the same result with one round fewer |
| `Y2024Day20.Round` | year2024/src/day20.rs:82-88 | the `for` loop over the neighbours of the round's starting position appends exactly what the sweep appends, still trying neighbours after a move |
| `Y2024Day20.TryNeighbor` | year2024/src/day20.rs:83-87 | an open neighbour not among the last three entries becomes the position and is appended; otherwise nothing changes |
| `Y2024Day20.CountCheatsMono` | year2024/src/day20.rs:49-70 | allowing a longer cheat or asking a smaller saving never counts fewer cheats |
| `Y2024Day20.CheatsUpToSelf` | year2024/src/day20.rs:57-65 | the offset 0 is counted: with no saving asked, each of the first `n` entries cheats to itself |
| `Y2024Day20.Parts` | year2024/src/day20.rs:38-46 | both answers exist exactly when the path is found; they count the cheats of at most 2 and at most 20 steps saving 100 along a track path from the start to the end, and the first is at most the second |
| `Y2024Day21.Choose` | year2024/src/day21.rs:57-88 | the minimum of the two orders, never above the first; when the gap blocks the second order the first is taken unchanged |
| `Y2024Day21.Length` | year2024/src/day21.rs:38-96 | a key press costs at least one press per unit of the move plus nothing else at the human level (level 0: exactly the Manhattan distance) |
| `Y2024Day21.CombineMono` | year2024/src/day21.rs:52-90 | the chosen cost of a move never decreases when every entry of the lower-level table grows |
| `Y2024Day21.CombineFlagsMono` | year2024/src/day21.rs:57-88 | blocking an order never makes a diagonal move cheaper |
| `Y2024Day21.LengthMonoLevel` | year2024/src/day21.rs:48-93 | one more robot between the keypads never needs fewer presses for the same move |
| `Y2024Day21.BelowMono` | year2024/src/day21.rs:51-56 | every entry of the lower-level table grows with the level |
| `Y2024Day21.LengthMonoLevels` | year2024/src/day21.rs:38-96 | the cost of a move never decreases as the number of robot levels grows |
| `Y2024Day21.FlagsMono` | year2024/src/day21.rs:57-88 | restricting the top or bottom order never makes a move cheaper, at every level |
| `Y2024Day21.LengthMemo` | year2024/src/day21.rs:38-96 | the memoised computation returns exactly the press count `Length`, keeps every memo entry equal to the count of its key, and only adds entries |
| `Y2024Day21.SteerMemo` | year2024/src/day21.rs:48-56 | the inner presses of a move (before adding its own distance) equal those the recurrence defines, for the straight cases directly and the diagonals through the four quadrants |
| `Y2024Day21.DiagonalMemo` | year2024/src/day21.rs:57-88 | a diagonal move dispatches on the quadrant and returns the inner presses the recurrence defines |
| `Y2024Day21.RightDownMemo` | year2024/src/day21.rs:57-64 | the right-down move costs the cheaper of its two orders, the second skipped when the bottom is restricted |
| `Y2024Day21.RightUpMemo` | year2024/src/day21.rs:65-72 | the right-up move costs the cheaper of its two orders, the second skipped when the top is restricted |
| `Y2024Day21.LeftDownMemo` | year2024/src/day21.rs:73-80 | the left-down move costs the cheaper of its two orders, the second skipped when the top is restricted |
| `Y2024Day21.LeftUpMemo` | year2024/src/day21.rs:81-88 | the left-up move costs the cheaper of its two orders, the second skipped when the bottom is restricted |
| `Y2024Day21.ChooseMemo` | year2024/src/day21.rs:57-88 | the first three legs are always costed and the second three only when the order is allowed; the result is the cheaper total |
| `Y2024Day21.Triple` | year2024/src/day21.rs:57-88 | three memoised legs add up to the sum of their press counts |
| `Y2024Day21.Pair` | year2024/src/day21.rs:53-56 | two memoised legs add up to the sum of their press counts |
| `Y2024Day21.PadPos` | year2024/src/day21.rs:98-110 | every key of the numeric pad lies on the 3-by-4 grid and never on the gap in its bottom-left corner |
| `Y2024Day21.Positions` | year2024/src/day21.rs:112-115 | the looked-up positions are one per character |
| `Y2024Day21.PositionsSpec` | year2024/src/day21.rs:112-115 | the lookup succeeds exactly when every character is a key, and then gives each key its pad position |
| `Y2024Day21.StepMove` | year2024/src/day21.rs:117-122 | a move is the difference of the two positions, restricted exactly when one of its two elbow corners is the gap |
| `Y2024Day21.Windows` | year2024/src/day21.rs:116 | consecutive pairs of positions give one move fewer than there are positions |
| `Y2024Day21.WindowsAt` | year2024/src/day21.rs:116-122 | the i-th move goes from the i-th to the next position |
| `Y2024Day21.NetWindows` | year2024/src/day21.rs:112-123 | the moves of consecutive positions add up to the displacement from the first to the last |
| `Y2024Day21.MovesSpec` | year2024/src/day21.rs:112-123 | the moves exist exactly when every character is a key, and there is one per character |
| `Y2024Day21.MovesReturn` | year2024/src/day21.rs:112-123 | for a code ending in `A` the moves, which start at `A`, add up to no displacement |
| `Y2024Day21.Presses` | year2024/src/day21.rs:29-31 | a code costs at least one press per move (the final `A` press of each) |
| `Y2024Day21.PressesDefined` | year2024/src/day21.rs:29-31 | the press count exists exactly when no move is the zero move at a robot level (the unreachable arm at line 89) |
| `Y2024Day21.PressesMono` | year2024/src/day21.rs:29-31 | more robot levels never need fewer presses for the same moves |
| `Y2024Day21.ParseU64` | year2024/src/day21.rs:32 | a parsed value fits in 64 bits |
| `Y2024Day21.ParseShow` | year2024/src/day21.rs:32 | every 64-bit value parses back from its decimal text |
| `Y2024Day21.Value` | year2024/src/day21.rs:32 | an empty line has no value (the source underflows on it) |
| `Y2024Day21.ComplexityMono` | year2024/src/day21.rs:28-34 | more robot levels never give a code a smaller complexity |
| `Y2024Day21.TotalStep` | year2024/src/day21.rs:26-35 | the running sum extends by the next complexity |
| `Y2024Day21.TotalFails` | year2024/src/day21.rs:26-35 | a failing code makes the whole sum fail |
| `Y2024Day21.TotalMono` | year2024/src/day21.rs:26-35 | pointwise larger complexities give a larger sum |
| `Y2024Day21.Complexities` | year2024/src/day21.rs:26-34 | one complexity per code |
| `Y2024Day21.ComplexitiesAt` | year2024/src/day21.rs:28-34 | the i-th complexity is that of the i-th code |
| `Y2024Day21.SolveMono` | year2024/src/day21.rs:15-21 | the answer for 25 robots is at least that for 2, and generally more levels never lower the answer |
| `Y2024Day21.CodePresses` | year2024/src/day21.rs:29-31 | the loop over the moves, sharing the memo, returns exactly the press count |
| `Y2024Day21.SolveAdvance` | year2024/src/day21.rs:26-35 | adding the next code's complexity extends the sum of the earlier ones |
| `Y2024Day21.CodeComplexity` | year2024/src/day21.rs:28-34 | the press count times the code's value, failing when either fails |
| `Y2024Day21.Solve` | year2024/src/day21.rs:24-36 | the loop with one shared memo returns the sum of the complexities of all codes, or fails as soon as a code fails |
| `Y2024Day21.PartA` | year2024/src/day21.rs:15-17 | the answer with 2 robot levels |
| `Y2024Day21.PartB` | year2024/src/day21.rs:19-21 | the answer with 25 robot levels |

## Left out

- Characters: the source measures string offsets in UTF-8 bytes; the model uses sequences of characters, so offsets count characters (every offset the source computes is at a character boundary).
- Digit radix: `char::is_digit` panics for a radix above 36; the model aborts there. For radices 0 and 1 the model accepts a character whose digit value is below the radix.
- `Conditional` and `ParserUntilFn` conditions are `FnMut`/`Fn` closures; the model takes them as pure functions, so a closure with internal state is not modelled.
- `Parser.ParseRepeat` is modelled with a `ParserUntilFn` inner parser only (the only kind the repository nests in it); an inner parser that never consumes a non-empty slice makes the source loop forever, which the model reports as `Diverges`.
- `Y2024Day03.ExampleA`, `Y2024Day03.ExampleB`: the examples start from the token streams of the two example texts, not from the texts themselves.
- Integer widths: the sums of `i64` products are unbounded integers in the model; the three-digit operands keep them far from overflow.
- Grid lines: the splitting of the input into lines (`str::lines`) is taken as given; the model starts from the lines.
- `parse_with_default` calls `T::default()` once per padding cell; the model uses one fill value.
- `Utils.Set`: `IndexMut` hands out a mutable reference into the grid; the model updates the grid value instead, so aliasing of that reference is not modelled.
- `Utils.Neighbors8`, `Utils.Neighbors4`: on a wrapping grid of zero width or height the source builds an iterator whose first step panics (`rem_euclid` by zero); the model requires such a grid to be non-empty.
- `Y2023Day09.PartA`, `Y2023Day09.PartB`: the values are `i64` in the source; the model uses unbounded integers and does not model overflow. Parsing of the whitespace-separated numbers is taken as given.
- Year 2023 day 15: the splitting at commas and the `nom` parser of a step (letters, then `-` or `=` and a `u8`) are taken as given; a step's bytes are modelled as the characters of a string. The focal lengths are `u8` in the source and plain integers here.
- Year 2023 day 15: the focusing power of the example (145) is not proved; the hashes of its steps and their sum (1320) are.
- Y2023Day06.PossibilitiesToWin: the `u64` overflow of `time * time` for times above 2^32 is not modelled; integers are unbounded, and only the negative discriminant is a panic. The `nom` parsing of the two lines into digit strings is taken as given.
- Y2023Day06.PossibilitiesCountWins: proved for times below `u64::MAX`; at `u64::MAX` itself the source's `(u64::MAX - 1) - (time - rt)` can underflow.
- Year 2024 day 2: the levels are `i64` in the source and unbounded integers here; the whitespace splitting and `parse` of the lines are taken as given.
- Year 2024 day 13: the regular-expression parsing of the machines is taken as given; coordinates and costs are `i64` in the source and unbounded integers here (the part b products stay far below 2^63 for puzzle inputs, which the model does not check).
- Y2024Day04.Fold2D: modelled for rectangular grids with rows at least as wide as the mask; on ragged rows the source's slicing `iline[j..]` can panic or compare fewer cells, which the model does not cover.
- Year 2024 day 4: the example answers (18 and 9 on a 10 × 10 grid) are not proved; `PartA` and `PartB` are defined from the same masks and `FoldCountsPlacements` gives their meaning.
- Year 2023 day 18: the `nom` parsing of the plan, hex colour included, is taken as given; positions and sums are `i64` and steps `u32` in the source, unbounded integers here. Pick's theorem itself is not proved: the model ties the result to the shoelace sum and the perimeter of the path.
- Year 2023 day 18: the example answers (62 and 952408144115) are not proved; `SquareLagoon` checks the formula on a square of any size instead.
- Year 2024 day 11: the stones are `u64` in the source; `x * 2024` and the counts are unbounded integers here, so wrap-around on overflow is not modelled. The memo `HashMap` is a `map`. The whitespace parsing is taken as given.
- Year 2024 day 11: the example count after 25 blinks (55312) is not proved; `ExampleBlinks` checks the first two blinks of that row.
- Y2024Day19.Constructable: requires non-empty towels, as the puzzle guarantees; for an empty towel the source adds `prior[i]` to itself, which the model does not cover. The counts are `u64` in the source and unbounded here. Patterns are compared as characters rather than bytes, the same for the ASCII colour letters. The line splitting is taken as given.
- Y2024Day19.Ways: the count is defined by the last towel used; that it equals the number of distinct towel sequences is not proved, only that it is positive exactly for concatenations (`PossibleIffConcat`). The example answers (6 and 16) are not proved.
- Y2024Day01.PartA: the `i64` arithmetic (differences, `abs` and the sum) is unbounded; overflow panics in debug builds are not modelled.
- Y2024Day01.PartB: the `i64` products and sum are unbounded.
- Y2024Day01.Parse: `lines` and `split_whitespace` are taken as given; a line arrives as its sequence of tokens.
- Y2024Day01.Sort: `slice::sort` is modelled by its result (an insertion sort on values); stability and the algorithm are not modelled.
- Y2024Day01: the test answers 11 and 31 are not proved as lemmas.
- Y2024Day05.Order: requires a ranking of the update's pages consistent with the rules; with a cycle of rules among an update's pages the source may swap forever, and that case is not modelled.
- Y2024Day05.PartB: the repaired updates are a ghost result; the `u32` sums are unbounded. The sum is determined by the input only under the totality assumption of `RepairUnique`.
- Y2024Day05: parsing of the `x|y` rules and the comma-separated updates is not modelled; the model takes the rule set and the updates as given. The test answers 143 and 123 are not proved.
- Y2023Day05: `u64` additions (`a + c` when parsing, `start + length`, the destination shifts) are unbounded, so overflow panics are not modelled; the theorems instead ask that seed ranges and map entries stay inside `u64`.
- Y2023Day05.LowestLocation: proved only for maps whose source ranges are pairwise disjoint. With overlapping sources `last_x` can move backwards, and some numbers reach the output twice.
- Y2023Day05: parsing the almanac with `nom` is not modelled, and the map names `_from`/`_to` are dropped. The example answers 35 and 46 are not proved.
- Y2023Day07: parsing with `nom` is not modelled, and hands are taken as five valid cards, since parsing gives nothing else (`unimplemented!` and the length assertion). The `u64` winnings are unbounded. The example answers 6440 and 5905 are not proved, because evaluating the count function on literal hands runs out of the verifier's budget.
- Y2023Day07.TotalWinnings: `sort_by` is modelled by its result, a stable insertion sort by hand key. The in-place merge sort is not modelled.
- Y2023Day08: `part_b` combines the traces with `Cycle::union`, which is not part of this model. The `nom` parsing of the network is not modelled either, and neither is test `b`.
- Y2023Day08.Trace: requires that the source's stop test holds at some step, because `TraceNeverStops` shows a network where it never does. `u64` steps and `u32` indices are unbounded.
- Y2023Day08.PartA: requires that `ZZZ` is reachable from `AAA`; otherwise the source loops forever.
- Y2023Day08: a missing node makes the source panic when it indexes the map. Validity of the network (every child is a node) is a precondition of the theorems, and `Step` stands still outside it.
- Y2023Day08.IsAcceptedCorrect: `binary_search` on the increasing lists is modelled as membership. The start must not be an end node, because step 0 is never recorded.
- Year 2023 day 11: year2023/src/utils.rs is not part of this model; the image is modelled as its rows, every row `width` cells wide. The parsing of `.` and `#` (`unimplemented!` otherwise) is not modelled. The `u64` sum is unbounded. The example answer 374 is not proved: evaluating the galaxy list of the 10 × 10 example runs out of the verifier's budget.
- Year 2023 `fun`: year2023/src/utils.rs is not part of this model. The board is kept as rows with its width and height, and with wrapping on the eight neighbours are all counted, each wrapped by `rem_euclid`; on a board narrower or lower than 3 the same cell can be counted more than once, as the iterator over the eight offsets does. `Display` is modelled as the character of a cell, without the formatting of the board.
- Y2023Fun.GameOfLife.constructor: requires every character to be `.`, ` ` or `x` and all lines to have the same length; the source panics on other characters.
- Y2023bDay02.PartB: the product of the three maxima is taken in unbounded integers; the source multiplies them as 32-bit unsigned numbers before widening, so a product above 2^32 - 1 is not modelled.
- Year 2023 (second solution set) day 2 parsing (the `nom` grammar of games and rounds) is not modelled; the model starts from the parsed parts, rounds and games.
- Year 2023 (second solution set) day 3: the two worked examples (4361 and 467835) are not proved for the 10x10 example grid; the accumulators `current`, `sum` and `product` are 32-bit unsigned in the source and unbounded here, so overflow is not modelled; the outer `part_b` pipeline (every `*` cell, its gear ratio, the sum) is the function `PartB`, which restates the pipeline and so carries no contract of its own.
- Year 2023 day 12: the in-place cutting and restoring of `status[0]` is modelled by the index of the first group and the length left of it, and the slices of the amounts by an offset; `Internal` and its three helpers are one recursive function in the source. The `u32` key and `u64` counts are unbounded. Rayon's parallel sum in `part_b` is sequential. That `Count` equals the number of arrangements is proved for positive amounts (`PossibilitiesAreArrangements`); single groups are also worked out directly (`CountUnknownsOne`, `CountDamagedBlock`). The example answers 21 and 525152 are not proved. The `nom` parsing of the rows is not modelled.
- Year 2023 day 13: year2023/src/utils.rs is not part of this model; a pattern is its rows, every row `width` cells wide, and `Grid` indexing with `isize` is plain indexing in range. The `u64` counters are unbounded. The `nom` parsing of the patterns is not modelled. The example answers 405 and 400 are not proved.
- Y2023Day14.Tilt: the counts are unbounded naturals; the source's `u8` counts would wrap past 255 rocks in a lane.
- Y2023Day14.Tilt: lanes are visited line by line and the count vector is in that order, not in `cube_rocks` order; the lanes are disjoint, and since the cubes never move both orders identify the same platforms.
- Y2023Day14.SpinCycle: requires at least one cycle; with 0 the source's loop never reaches `i == cycles` and `cycles - i` underflows.
- Y2023Day14.CalcLoad: loads are unbounded integers rather than `u64`.
- Y2023Day14.CubeRocks: the cubes are listed row by row; the iteration order of `Grid` comes from `year2023/src/utils.rs`, which is not part of this model.
- Y2023Day14.PartB: sums the load column by column instead of cell by cell in row order; the two sums are over the same cells.
- 2023 day 14: grid parsing and the example answers 136 and 64 are not modelled.
- Y2023Day19.Follow: the workflows are required to be acyclic, given as a ranking that every destination workflow lies below; on a cycle the source loops forever.
- Y2023Day19.PartB: the source's worklist (`pop`, then `push`) is modelled as recursion over the workflow graph; additions commute, so the total is the same. It uses the corrected split (see Findings); with that split PartBCounts proves the total equals the number of accepted combinations. The `u64` sum is unbounded here and the debugging `println!` is left out.
- Y2023Day19: ratings and thresholds are unbounded naturals rather than `u32`. A threshold of 0 under `<` makes the source's `con.v - 1` underflow; the model takes it as -1, an empty cut.
- 2023 day 19: parsing and the example answers 19114 and 167409079868000 are not modelled; `part_b`'s debug printing is left out.
- Y2023Day23Map.Neighbors4: year2023/src/utils.rs is not part of this model; the order north, west, east, south is assumed, and only the order of edges (never the answer) depends on it.
- Y2023Day23.ToGraph: requires every slope to point at a cell on the map, because the source indexes that cell and would panic otherwise; the example and puzzle maps are walled by forest.
- Y2023Day23.PartA: lengths are unbounded naturals, not `u64`; the example answers 94 and 154 are not restated.
- Y2023Day23 parsing of the map characters is not modelled; the map arrives as tiles.
- Y2024Day15.MoveRobot: requires that neither `can_move` nor `apply_force` indexes outside the map, where the source would panic; `CanMoveAnswers` shows this holds on walled maps for `can_move`.
- Y2024Day15.PartA: coordinates are unbounded integers, not `isize`; the example answers 10092 and 9021 are not restated.
- Y2024Day15: the parsed grid becoming a `Grid` and the split of the input at the blank line are not modelled; the parts take the map as rows.
- Y2023Day20.PerformStep: the queue loop need not end on every network, so each press handles at most `fuel` pulses and answers `None` beyond that; the source has no such bound.
- Y2023Day20: the 64-bit memory word and input masks are kept as sets of bit positions below 64 (`Valid` bounds the modules at 64, as the one-bit-per-module shift needs); the `u64` totals are unbounded naturals; `out_mask` and `in_list` are only used by part b and are not modelled.
- Y2023Day20: part b (cycle lengths of the inputs feeding `rx`'s feeder, combined by least common multiple) and the nom parser that numbers modules are not modelled; the example answer 11687500 is not restated, as a thousand presses are beyond what the verifier evaluates.
- Y2023Day21.SimWithStartPos: the loop that runs until the counts settle is bounded by a `fuel` argument and answers `None` when it runs out; the source loops without a bound.
- Y2023Day21.StartMarks: the wrapping of the start by the 2023 `Grid` type is taken to be Euclidean (so -1 addresses the last row or column); the 2023 `utils` module that defines `Grid`, `neighbors4` and `Grid::parse` is not part of this model.
- Y2023Day21.PartA: the claim that the record gives the true count at time 64 needs the counts to keep alternating after they settle, which the source assumes of its inputs; the counts are unbounded naturals rather than `usize`.
- 2023 day 21 part b (the sum over the tiled copies of the garden from nine start positions, computed in parallel with rayon) is not modelled; its example answer is not restated.
- Y2023Day22.SimulateFall: the height map is indexed by `rem_euclid` of the raw coordinates (the 2023 `Grid` with wrapping, which is not part of this model, is assumed to wrap that way); the `i32` arithmetic of the ground and of the map's width and height is unbounded here.
- Y2023Day22.PartA: requires every brick to span at least one column, which the parser guarantees (`ParseLine` normalises the corners).
- Y2023Day22.BuildSupportStructure: for no bricks it returns no sets without sizing a map from the empty tower area, whose `i32` width computation overflows in the source.
- Y2023Day22.ParseBricks: the input is taken as its lines already split; `ParseI32` follows `str::parse::<i32>` (optional sign, decimal digits, in range).
- The 2023 day 22 example answers (5 and 7) are not restated as lemmas.
- Y2023Day16.ParseContraption: the 2023 `Grid::parse` is not part of this model; the contraption is kept as its rows, and the parts require them all to be `w` wide.
- Y2023Day16.PartA: requires a non-empty grid, where the source would panic on indexing the first cell; `PartB` likewise, where the source indexes border cells and unwraps the maximum.
- The 2023 day 16 debug printer (`print`) is output only and not modelled; the example answers 46 and 51 are not restated, as tracing the 10 × 10 example is beyond what the verifier evaluates.
- Y2023Day17.Loss: requires at least two rows and two columns, where the source would panic indexing the seeds at (0, 1) and (1, 0); `PartA` and `PartB` likewise. The source sets the run-0 entry of all four directions at the origin to 0, which counts the origin as a block already entered in each direction. The walks the answer is compared with follow the tables' own moves, so they may start with such an entry: in part b the first run may then turn after 3 real blocks (`E`, run 0 at (0, 0), then runs 1 to 3 at columns 1 to 3), where a fresh start needs 4, and it can go at most 9 real blocks straight; in part a a run from the origin entry goes at most 2 real blocks straight before turning. The model proves the answer against these walks, so a part b answer below the puzzle's own minimum is not excluded.
- Y2023Day17Parse.ParseCity: the 2023 `Grid::parse` is not part of this model; the city is kept as its rows, and the parts require them all to be `w` wide.
- Year 2023 day 17: the example answers 102 and 94 are not restated.
- Y2024Day12Components.Components: takes a rectangular garden with rows × width ≤ `u32::MAX`; larger gardens overflow the `u32` ids in the source and are not modelled.
- Y2024Day12.PartA: the `u64` cost is unbounded here; its overflow is not modelled.
- Y2024Day12.PartB: the `u64` cost is unbounded here; its overflow is not modelled.
- Y2024Day12Components.Components: starts from row-major ids, not the ids as written (see Findings); the two agree on square gardens.
- 2024 day 12: the parser (lines into rows of characters) is the identity on the model's garden, and the example answers 1930 and 1206 are not restated.
- Y2024Day09Compact.CompactA: adds the `l <= r` guard to the file test, the corrected loop of the Findings; `Y2024Day09AsWritten.AsWrittenA` is the loop as written.
- Y2024Day09Compact.PartA: the `u64` checksum is unbounded here; its overflow is not modelled.
- Y2024Day09Move.CompactB: stops when `r` reaches the first file, the correction of the Findings; with that stop it is proved equal to the reference compaction `ByIds`.
- Y2024Day09Move.PartB: the `u64` checksum is unbounded here; its overflow is not modelled.
- Y2024Day09Move.CompactB: requires a parsed disk (span `k` is file `k / 2` when `k` is even and free otherwise, at least one span), as `Parse` always gives; an empty input makes `input.len() - 1` underflow in the source.
- 2024 day 9: the example answers 1928 and 2858 are not restated.
- Y2024Day10.PartA: checks the right neighbour against the row width, the correction of the Findings; `PartAAsWritten` is the check as written. Both require every row as wide as the first, where the source would index past a shorter row.
- Y2024Day10.PartAAsWritten: requires no more rows than columns; with more rows the source's check `y < input.len() - 1` lets `input[x][y + 1]` index past the row and panic.
- Y2024Day10.PartBAsWritten: requires no more rows than columns, for the same reason.
- Year 2024 day 10: the `HashSet` of reached cells is a Dafny `set` and the heights and `usize` sums are unbounded naturals. The example answers 36 and 81 are not proved; `RowCountBound` evaluates the one-row map instead.
- Y2023Day17.RelaxCell, Y2023Day17.RelaxRow, Y2023Day17.RelaxLayer, Y2023Day17.Pass: state that no entry rises and which entries stay, not the exact value each entry takes in the sweep. That value is `Relax`'s: the smaller of the entry and its candidate at the moment it is visited.
- Y2024Day17.Shr: a shift by 64 or more is modelled as a panic, as Rust's overflow check does in a debug build; a release build masks the shift amount instead.
- Y2024Day17.Run, Y2024Day17.RunProgram, Y2024Day17.PartA: the source loops for as long as the program does; the model runs at most `fuel` instructions and reports running out, so a program that never halts is not modelled.
- Y2024Day17 parsing: the regular expression that reads the registers and the program is not modelled; the model starts from the three register values and the list of program values.
- Y2024Day17 part b: `reverse` and `part_b` are not modelled; they invert one particular program by a hand-derived formula and say nothing about the machine in general.
- Y2024Day17.SampleRuns: the sample's expected text 4,6,3,5,6,3,5,2,1,0 is not evaluated; the lemma proves the general shape of that program's output instead.
- Y2024Day14 part b: `part_b` searches forever, printing boards and sleeping between them; the search, its score (a sum of `ilog2` over the downsampled counts) and the printing are not modelled.
- Y2024Day14 parsing: the regular expression that reads the robots is not modelled; the model starts from the robots.
- Y2024Day14.AdvanceRobots: the unwrapped position `p + v * s` is an `i64` in the source; the model uses unbounded integers, so an overflow is not modelled.
- Y2024Day14.SafetyFactor: the counters and their product are fixed-width integers in the source; overflow of the product is not modelled.
- Y2024Day20.FindPath, Y2024Day20.Follow, Y2024Day20.Parts: the source loops until the end is reached, forever if it never is; the model runs at most `fuel` rounds and reports failure after them.
- Y2024Day20 parsing: reading the grid, the start and the end from the text is not modelled; the model starts from the grid of open cells and the two positions.
- Y2024Day20.CountCheats: the count is stated by its definition and the lemmas about it; it is not compared with a separate count of the pairs.
- Y2024Day21.Length, Y2024Day21.Choose: the blocked order is costed as `u64::MAX` in the source; the model leaves it out of the minimum, which agrees as long as press counts fit in 64 bits.
- Y2024Day21.Length: the recurrence is modelled as written; that it yields the fewest presses over all robot paths is not proved, only its lower bound and its monotonicity in the level and the restrictions.
- Y2024Day21.Solve, Y2024Day21.Complexity: 64-bit overflow of the press sums, of presses times value and of the final sum is not modelled.
- Y2024Day21.LengthMemo: the `HashMap` shared across calls is a map passed in and returned.
- Y2024Day21.Solve: the panics of the source (a character that is not a key, a value that does not parse, the empty line, the zero move at a robot level) are modelled as a failed result.
- Y2024Day21 parsing: splitting the input into lines is not modelled; the model starts from the list of codes. The sample answer 126384 is not evaluated.
- Y2023Day12.CalcPossibilities: equality with the number of arrangements is proved only for positive amounts, which every puzzle row has; with a zero amount the source's base case (one amount equal to 0 counts 1) makes the count differ from the number of arrangements.
- Y2023Day23.ToGraph: only soundness is proved (every edge is a corridor of open cells of the map; the start and end cells themselves are not required to be open, as the source does not check them); that every corridor out of every junction becomes an edge is not proved, and the visited cells a corridor was traced against are left existential.
- Y2023Day23.Branch: as for `ToGraph`, the edges a round adds are proved to be corridors of the map, not to be all of the corridors out of the junction.
- Y2023Day23.PartA: the answer is the longest walk over the condensed graph; that it equals the longest hike over the map's cells is not proved.
- Y2023Day23.PartB: as for `PartA`, over the slope-free copy of the map.
- Y2024Day09Move.PartB: requires a parsed disk, as `Y2024Day09Move.CompactB` does.

## Findings

| source | as written | input that shows it | evidently intended | confidence | as-written member | corrected member |
|---|---|---|---|---|---|---|
| year2023/src/day08.rs:61-73 | `trace` stops only when the current node's first visit lies a positive multiple of the instruction count back | instructions `LR`; node 0 → 1, node 1 → 2, node 2 → 3 (`Left`) or 1 (`Right`), node 3 → 1, both ways where only one child is given: nodes 1 and 2 are first reached at steps of one parity and later only at steps of the other | stop at the first repeated (node, instruction position) state, which always happens | not executed | Y2023Day08.TraceNeverStops | Y2023Day08.TracePhased |
| year2023/src/day19.rs:174-177 | every start of the upper sub-box is raised to the start of the box's first rating (`x`), whatever rating the test cuts | workflow `in{m>1000:A,R}` on the box x 2001..=4000, other ratings 1..=4000: the part x=2001, m=1500 lands in no listed box | raise each rating's start to that rating's own start | not executed | Y2023Day19.ClampLosesParts | Y2023Day19.IntervalsPartition |
| year2023/src/day19.rs:179-196 | a test holding at both corners lists the lower sub-box for its destination, stops, and then lists the whole box again for `otherwise` | workflow `in{x<4001:A,A}` on the full box: every part is listed twice and counted twice (`in{x>0:A,R}` instead lists an empty box for `A` and rejects everything) | send the whole box to the test's destination and list nothing for `otherwise` | not executed | Y2023Day19.BothEndsListedTwice | Y2023Day19.IntervalsPartition |
| year2024/src/day12.rs:112-117 | the starting ids step by the number of rows from one row to the next | the 2×3 garden `ABC`/`DEF`: plots (0, 2) and (1, 0) both start with id 2, have no same-plant neighbours, and are priced as one region of area 2 and fence 8 | ids step by the row width (row-major), distinct for every plot | not executed | Y2024Day12Regions.AsWrittenIdsClash | Y2024Day12Components.Components |
| year2024/src/day09.rs:56-63 | when a gap is exactly as long as the last file, both pointers move and the next turn emits the span at `l` if it is a file, even though `l` has passed `r` | "1110": file 1 is emitted twice, checksum 3 | test `l >= r` before emitting a file at `l` | not executed | Y2024Day09AsWritten.EqualRunEmittedTwice | Y2024Day09Compact.CompactA |
| year2024/src/day09.rs:30-36 | the file test indexes `input[l]` without checking that `l` is still inside the spans | "112": after the last file is emitted, `l` is one past the end and the index fails | stop once `l` passes `r` | not executed | Y2024Day09AsWritten.LastFileIndexedPastEnd | Y2024Day09Compact.CompactA |
| year2024/src/day09.rs:78-96 | once the inner loop has stopped at the first file, the turn still searches for a gap and then decrements `r` from 0 | "11": the first gap stays empty, so `r` drops below 0 | leave the loop when `r` reaches 0 | not executed | Y2024Day09AsWritten.FirstFileUnderflows | Y2024Day09Move.CompactB |
| year2024/src/day10.rs:49, year2024/src/day10.rs:96 | the right neighbour is checked with `y < input.len() - 1`, the number of rows, not the row width | the one-row map `0123456789`: its only trail runs to the right, yet part a gives 0 and part b 0 | check `y` against the row width, `line.len() - 1`; the two agree on square maps | not executed | Y2024Day10.RowCountBound | Y2024Day10.PartA |
