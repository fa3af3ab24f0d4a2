# aoc24 in Dafny

This is a verified model of ze-kel/aoc24, a Rust repository of Advent of Code 2024 solvers. It covers the shared grid helpers in `src/lib.rs` and the solvers of days 1, 2, 4–7, 9–12 and 14–25 under `src/bin/`. Each solver reads its puzzle input as text and answers part one and part two. The model keeps each solver's algorithm: its loops, its memo tables and its in-place updates. Next to it are specification functions saying what the answer is, and lemmas connecting the two.

Modules:

- `Wrappers`: defines `Option`.
- `Text`: the parts of Rust's `str` API the solvers use, written as total functions on `seq<char>`: `lines`, `split`, `split_once`, `split_whitespace`, `trim`, `find`, `replacen`, and `parse`/`to_string` of decimal integers.
- `Sorting` stands in for the standard and itertools sorts:
  - a stable insertion sort `SortBy`, for a user comparator;
  - the string order, and the ascending listing of a set of strings.
- `Grid`: `src/lib.rs`. It holds `Coords`, `wrap_number`, `find_char_coords`, `get_char_at_coord` and the `CoordMap` class. The class's `cells` map is updated in place by `set`.
- `Day01` … `Day25`: one module per solver file `src/bin/NN.rs`.
  - Code that mutates state is a method with loop invariants, proved against a function of its inputs.
  - Pure code is a function, and its properties are lemmas.

Conventions used throughout:

- **Panics.** A source panic becomes an `Option` result of `None`: an `unwrap` on a missing value, an out-of-range index, a failed `assert!`. A `requires` is used only where the panic is on a path the problem rules out, and the table says so.
- **Helpers with unshown bodies.** Some crate helpers are called but their bodies are not in `src/lib.rs`: `get_adjacent_xy`, `new_from_map`, `new_max`, `shortest_steps`, `best_to_pos`, `path_distance`, `find_char` and `extract_numbers`. They are function parameters, or one plain definition, and the model assumes no more of them than their callers use.
- **Parallelism.** `rayon` parallel iterators are modelled as the sequential map, sum or max they compute.

## Model

| member | source | states |
|---|---|---|
| Grid.WrapNumber | src/lib.rs:13-26 | requires `min < max` (otherwise the function panics); the result lies in `[min, max]`, differs from `number` by a multiple of `max - min + 1`, and is `number` itself when `number` is already in range |
| Grid.WrapNumberIsModulo | src/lib.rs:18-25 | the wrap is `min + (number - min) mod (max - min + 1)`, whichever branch is taken |
| Grid.WrapNumberAdd | src/lib.rs:18-25 | wrapping, adding an offset and wrapping again lands where adding first and wrapping once does |
| Grid.GridMap | src/lib.rs:73-89 | its keys are exactly the positions `(x, y)` inside the text's lines, and each maps to the character at line `y`, column `x` |
| Grid.FindCharCoords | src/lib.rs:28-43 | the result holds exactly the positions whose character is `target`, strictly in row-major order (so each one once) |
| Grid.GetCharAtCoord | src/lib.rs:45-65 | requires what its unwraps need: at least two lines, and the cell it reads exists. Without wrapping, it returns `None` exactly when `x` or `y` lies outside `[0, lineCount - 1]` (both axes use the line count), and otherwise the character at row `y`, column `x`. With wrapping, it returns the cell at `(x mod lineCount, y mod lineCount)` |
| Grid.Neighbours4 | src/bin/10.rs:30 | `get_adjacent_xy` gives four positions: exactly those at taxicab distance 1 |
| Grid.Adjacent | src/bin/12.rs:11 | the list form of `get_adjacent_xy`: four distinct entries, exactly the orthogonal neighbours |
| Grid.CoordMap.constructor | src/lib.rs:73-89 | after `new(text)`, `get((x, y))` is the character at line `y`, column `x`, and `None` for every position not in the text |
| Grid.CoordMap.Clone | src/lib.rs:67-70 | the clone holds the same cells in a separate object |
| Grid.CoordMap.Empty | src/bin/18.rs:9 | `new_max` starts with no position set |
| Grid.CoordMap.Set | src/lib.rs:90-92 | after `set(k, v)`, `get(k) == Some(v)`, and every other key keeps its value |
| Grid.CoordMap.Get | src/lib.rs:94-96 | `Some` exactly for keys that were set, holding their character |
| Grid.CoordMap.Find | src/lib.rs:98-105 | exactly the keys whose value is `c` |
| Text.Lines | src/lib.rs:31 | `str::lines`: no line contains a line break, and non-empty text has at least one line; the exact lines are fixed by the two round-trip lemmas below |
| Text.LinesOfJoinLines | src/lib.rs:31 | splitting `'\n'`-terminated lines gives the lines back |
| Text.LinesOfJoinCrLines | src/lib.rs:31 | splitting `"\r\n"`-terminated lines gives the same lines back, without the `'\r'` |
| Text.LinesCons | src/lib.rs:31 | a piece with no `'\n'` followed by `'\n'` is the first line, stripped of a final `'\r'`, and the rest is split on its own |
| Text.IndexOf | src/lib.rs:31 | the first index of a character, or the length when it does not occur |
| Text.ParseDigits | src/bin/24.rs:113 | succeeds exactly on non-empty strings of decimal digits |
| Text.ParseNat | src/bin/24.rs:113 | `parse` of an unsigned integer succeeds exactly on one or more digits after an optional `'+'` (a lone `'+'` and any `'-'` fail), and the value is that of the digits |
| Text.NatToString | src/bin/18.rs:73 | `to_string` of an unsigned integer: non-empty digits with no leading zero |
| Text.ParseNatToString | src/bin/11.rs:6-14 | parsing what `to_string` printed gives the number back |
| Text.DigitsValueAppend | src/bin/07.rs:40-52 | the value of the concatenation `a + b` of two digit strings is `value(a) * 10^len(b) + value(b)` |
| Text.DigitsValueBound | src/bin/11.rs:10-14 | a `k`-digit string is below `10^k` |
| Text.ParseInt | src/bin/01.rs:15-16 | `parse::<i32>` succeeds exactly on one or more digits after an optional `'+'` or `'-'`, and without a `'-'` agrees with the unsigned parse |
| Text.ParseIntToString | src/bin/14.rs:17 | a signed integer printed and parsed again is itself |
| Text.Split | src/bin/05.rs:16 | `split(c)` gives at least one piece, and no piece contains `c` |
| Text.JoinSplit | src/bin/05.rs:16 | joining the pieces of `split(c)` with `c` restores the string |
| Text.SplitJoin | src/bin/05.rs:29 | splitting pieces joined with a separator they do not contain gives them back |
| Text.Find | src/bin/19.rs:17-18 | the first index at which the pattern occurs (no earlier one), or `None` when it never occurs |
| Text.RemoveFirst | src/bin/19.rs:18 | `replacen(pat, "", 1)`: unchanged when `pat` does not occur; otherwise `|pat|` characters shorter |
| Text.RemoveFirstPrefix | src/bin/19.rs:17-18 | after `starts_with(t)`, `replacen(t, "", 1)` is exactly the rest after the prefix |
| Text.SplitStr | src/bin/19.rs:33 | `split(sep)` on a string separator: at least one piece, and the whole string when `sep` does not occur |
| Text.JoinSplitStr | src/bin/19.rs:33 | joining the pieces of `split(sep)` with `sep` restores the string |
| Text.SplitOnce | src/bin/23.rs:9 | `Some` exactly when the separator occurs; the two parts around the first occurrence rebuild the string |
| Text.TrimStart | src/bin/11.rs:22 | removes exactly the leading whitespace |
| Text.TrimEnd | src/bin/11.rs:22 | removes exactly the trailing whitespace |
| Text.Trim | src/bin/11.rs:22 | the result neither starts nor ends with whitespace |
| Text.TrimStrips | src/bin/11.rs:22 | the trimmed string is a slice of the input with only whitespace before and after it |
| Text.WordLength | src/bin/02.rs:27 | the length of the leading run of non-space characters |
| Text.Words | src/bin/02.rs:27 | `split_whitespace`: non-empty words free of whitespace |
| Text.WordsKeepLetters | src/bin/02.rs:27 | the words laid end to end are exactly the input's non-whitespace characters, in order |
| Text.WordsOfUnwords | src/bin/02.rs:27 | splitting space-joined words at whitespace gives the words back |
| Sorting.Insert | src/bin/05.rs:31-43 | inserting adds exactly one copy of the element |
| Sorting.SortBy | src/bin/05.rs:31-43 | the stable sort standing in for `sort_by` returns a permutation of its input |
| Sorting.InsertOrdered | src/bin/05.rs:31-43 | under a strict weak order, inserting into an ordered list keeps it ordered |
| Sorting.SortByOrdered | src/bin/05.rs:31-43 | under a strict weak order, the sort's result is ordered |
| Sorting.SortByInOrder | src/bin/05.rs:31-43 | an already ordered list comes back unchanged |
| Sorting.OrderedUnique | src/bin/01.rs:19-20 | under a total order, two ordered permutations of one multiset are equal, so every correct sort agrees |
| Sorting.StrLessIrreflexive | src/bin/23.rs:104 | no string is less than itself |
| Sorting.StrLessTrichotomy | src/bin/23.rs:104 | for two strings, exactly one of `a < b`, `a == b`, `b < a` holds |
| Sorting.StrLessTransitive | src/bin/23.rs:104 | the string order is transitive |
| Sorting.StrLessOrder | src/bin/23.rs:104 | the string order is a total strict weak order |
| Sorting.SortStrings | src/bin/23.rs:103-106 | `sort` of distinct strings: exactly the given strings, strictly ascending |
| Sorting.Least | src/bin/23.rs:104 | the least string of a non-empty set |
| Sorting.ReverseReverse | src/bin/24.rs:71-82 | `rev` is its own inverse: reversing twice gives the sequence back |
| Sorting.ReverseMultiset | src/bin/24.rs:71-82 | reversing keeps every element with its multiplicity |
| Day01.ReadColumns | src/bin/01.rs:9-17 | skips empty lines; the two columns are the left and right numbers of the remaining lines, in order; requires every non-empty line to split at `"   "` into two `i32`s (the `unwrap`s) |
| Day01.RightColumn | src/bin/01.rs:14-16 | the right column has one entry per left entry (one per non-empty line) |
| Day01.HasPairNonEmpty | src/bin/01.rs:22 | the `left_array.len() > 0` assertion holds exactly when some line is non-empty |
| Day01.DistanceZero | src/bin/01.rs:25-29 | the pairwise distance sum is 0 exactly when the two lists are equal |
| Day01.SortDependsOnlyOnMultiset | src/bin/01.rs:19-20 | sorting depends only on the multiset of values, so line order does not matter |
| Day01.TotalDistanceZero | src/bin/01.rs:19-29 | part one is 0 exactly when the two columns hold the same multiset |
| Day01.PartOne | src/bin/01.rs:5-32 | requires readable lines and a non-empty list (the assertions); the result is the sum of `abs(sortedLeft[i] - sortedRight[i])` |
| Day01.SumDistances | src/bin/01.rs:25-29 | the accumulator loop computes the pairwise distance sum |
| Day01.SimilarityAppend | src/bin/01.rs:56-58 | the similarity sum splits over concatenation |
| Day01.SimilarityPermutation | src/bin/01.rs:49 | the similarity sum does not depend on the order of the left list (so sorting it changes nothing) |
| Day01.SimilarityScoreUnsorted | src/bin/01.rs:49-58 | part two equals the sum over unsorted left values `x` of `x * (count of x in the right column)` |
| Day01.CountsOfStep | src/bin/01.rs:46 | the `insert(v, get(v).unwrap_or(0) + 1)` update keeps `right_map[v]` equal to the number of occurrences of `v` |
| Day01.ReadCounts | src/bin/01.rs:38-47 | the left column, and a map whose every value counts the occurrences of its key in the right column (absent keys count 0) |
| Day01.SumSimilarity | src/bin/01.rs:54-58 | the loop sums `x * right_map.get(x).unwrap_or(0)`, which is `x` times its count in the right column |
| Day01.PartTwo | src/bin/01.rs:34-61 | requires readable lines and a non-empty list (the assertions); the result is the similarity score |
| Day02.FirstBad | src/bin/02.rs:6-13 | the first index from `from` whose pair breaks the rule, with `index + 1 < len`, every earlier pair fine; `None` when no pair breaks it |
| Day02.Check | src/bin/02.rs:3-16 | `Ok` exactly when every adjacent pair moves in the direction given by `first > last` by 1 to 3; `Err(i)` names the first bad pair, `i < len - 1` |
| Day02.CheckLine | src/bin/02.rs:3-16 | the loop with early return computes `Check` |
| Day02.CheckFails | src/bin/02.rs:11-12 | the first failing pair is the index reported |
| Day02.CheckPasses | src/bin/02.rs:15 | a line whose every pair is fine gives `Ok` |
| Day02.CheckOkIffSafe | src/bin/02.rs:3-16 | `check_line` accepts exactly the safe reports: strictly monotone with steps of 1 to 3 |
| Day02.OkIsSafe | src/bin/02.rs:3-16 | `Ok` implies safe |
| Day02.SafeIsOk | src/bin/02.rs:3-16 | safe implies `Ok`, so using first-vs-last as the direction loses nothing |
| Day02.Remove | src/bin/02.rs:41-42 | `Vec::remove(k)`: one shorter, and the elements after `k` shift left by one |
| Day02.AsWrittenIsSound | src/bin/02.rs:38-48 | a report the source tolerates by removing element `i` or `i + 1` is dampened-safe (some single removal makes it safe) |
| Day02.AsWrittenMissesFirstLevel | src/bin/02.rs:38-48 | `[1, 3, 2, 1]` is not tolerated as written, although removing its first level makes it safe |
| Day02.AsWrittenRejects | src/bin/02.rs:37-48 | `[1, 3, 2, 1]` fails at pair 1, and removing element 1 or element 2 still fails |
| Day02.FirstRemovalSafe | src/bin/02.rs:37-48 | `[1, 3, 2, 1]` becomes safe by removing its first element |
| Day02.CheckDampened | src/bin/02.rs:37-48 | corrected dampener: true exactly when the report is safe or some single removal makes it safe |
| Day02.NoSafeRemovalAll | src/bin/02.rs:37-48 | if no single removal is safe and the report is unsafe, it is not dampened-safe |
| Day02.CheckRemoval | src/bin/02.rs:39-46 | true exactly when the report with element `k` removed is safe |
| Day02.Report | src/bin/02.rs:26-29 | a readable line gives one number per whitespace-separated word |
| Day02.CountReport | src/bin/02.rs:31-50 | a report counts when `check_line` accepts it or, if `fail_allowed`, when removing element `i` or `i + 1` does |
| Day02.CountLine | src/bin/02.rs:21-51 | empty lines never count; other lines count as `CountReport` says |
| Day02.CountSafeStep | src/bin/02.rs:21-52 | each line adds 1 to `safe` exactly when it counts |
| Day02.CountLines | src/bin/02.rs:21-52 | the loop over the lines leaves in `safe` the number of lines the source counts |
| Day02.Processor | src/bin/02.rs:18-55 | requires every word to parse as an `i32`; `safe` is the number of counted lines |
| Day02.PartTwoCorrected | src/bin/02.rs:61-63 | the corrected part two counts the dampened-safe reports |
| Day02.CountsOrdered | src/bin/02.rs:18-55 | strict count <= `fail_allowed` count <= corrected dampened count |
| Day02.LineOrdered | src/bin/02.rs:31-50 | a line counted in part one is counted in part two, and a line part two counts is dampened-safe |
| Day04.ReadableEverywhere | src/bin/04.rs:27-47 | on a puzzle of at least two lines, each at least as long as the line count, no read without wrapping panics |
| Day04.AtIsLetter | src/bin/04.rs:27-47 | reading without wrapping gives the letter of the square `[0, n-1]²`, or `None` outside it |
| Day04.At | src/bin/04.rs:27-47 | the non-wrapping read is the letter at the position |
| Day04.WrapBelow | src/bin/04.rs:266 | `wrap_number(-1, 0, 5) == 5` |
| Day04.WrapAbove | src/bin/04.rs:273 | `wrap_number(6, 0, 5) == 0`; the values 0..5 map to themselves by `WrapNumber`'s own contract |
| Day04.MatchesSpells | src/bin/04.rs:173-178 | `check_x_mas` along direction `k` holds exactly when the four cells read X, M, A, S in order, with no wrapping |
| Day04.Readings | src/bin/04.rs:66-171 | the eight fixed directions, each true exactly when that direction spells XMAS |
| Day04.CountMatches | src/bin/04.rs:66-171 | the number of matching directions is at most 8 |
| Day04.CheckAllPossibleXmas | src/bin/04.rs:66-171 | the counter loop counts exactly the matching directions, so the count lies in `[0, 8]` |
| Day04.TaggedCount | src/bin/04.rs:66-171 | the matching directions of one cell, tagged with the cell, are as many as the count |
| Day04.OccurrencesAdd | src/bin/04.rs:206-209 | adding a new X cell adds its count of matches to the total |
| Day04.FreshInOrder | src/bin/04.rs:49-64 | a row-major list has no repeats, so no X cell is counted twice |
| Day04.PartOne | src/bin/04.rs:203-212 | the number of (X cell, direction) pairs spelling XMAS |
| Day04.SumReadings | src/bin/04.rs:206-209 | summing over the X cells gives the number of occurrences |
| Day04.MasEnds | src/bin/04.rs:194-198 | the two-way M/S test is the condition "the two ends are M and S in some order" |
| Day04.IsCrossSpells | src/bin/04.rs:180-201 | `check_x_mas_x` holds exactly when the centre is A and both diagonals have M and S at their ends, in either order |
| Day04.CrossesAdd | src/bin/04.rs:217-242 | each new A cell adds 1 exactly when it is a cross |
| Day04.PartTwo | src/bin/04.rs:214-245 | the number of A cells that are the centre of an X-MAS cross |
| Day04.CountCrosses | src/bin/04.rs:217-242 | summing the 0/1 tests over the A cells gives the number of crosses |
| Day05.CompareConverse | src/bin/05.rs:31-41 | the comparator is `Less` when rule `a|b` exists, `Greater` when only `b|a` does, `Equal` otherwise; `Equal` is symmetric and `Greater` one way is `Less` the other |
| Day05.CompareSwap | src/bin/05.rs:31-41 | when no pair has rules both ways, `Less` for `(a, b)` is exactly `Greater` for `(b, a)` |
| Day05.Before | src/bin/05.rs:31-41 | the "less" relation handed to the sort is exactly "the comparator says `Less`" |
| Day05.RuleSet | src/bin/05.rs:15-24 | the rule set holds exactly the lines of the first block |
| Day05.BuildRules | src/bin/05.rs:13-24 | requires each rule's first field to parse (the `unwrap`); the loop collects exactly the rule lines |
| Day05.Sorted | src/bin/05.rs:29-43 | the sorted line is a non-empty permutation of the line's pages |
| Day05.LineValueOf | src/bin/05.rs:43-48 | an update is added exactly when (joined == line and part one) or (joined != line and part two); the value added is the page at index `len / 2` of the sorted line, and 0 otherwise |
| Day05.TotalStep | src/bin/05.rs:28-49 | each update line adds its value to `acc` |
| Day05.LineContribution | src/bin/05.rs:29-48 | computes one update line's value |
| Day05.SumUpdates | src/bin/05.rs:26-51 | the loop over update lines adds up each line's value, in order: the total over all lines |
| Day05.CommonSolution | src/bin/05.rs:5-52 | requires the input to split into two blocks and selected middles to parse as `u32`; the result is the sum of the selected lines' middle pages |
| Day05.JoinedIffUnchanged | src/bin/05.rs:43-45 | comparing the re-joined string with the line is the same as asking whether sorting changed the page list |
| Day05.PartOneSelectsOrdered | src/bin/05.rs:45 | under a strict weak rule order, part one selects exactly the updates already in rule order |
| Day05.TotalsAddUp | src/bin/05.rs:45-47 | part one's sum plus part two's sum is the sum over all updates of the sorted middle page |
| Day06.Clockwise | src/bin/06.rs:72-77 | the turn never keeps the direction |
| Day06.ClockwiseCycle | src/bin/06.rs:72-77 | UP→RIGHT→DOWN→LEFT→UP: four turns give the start back and pass through all four directions |
| Day06.Next | src/bin/06.rs:46-86 | `None` exactly when the cell ahead is not in the map; in front of `#` only the direction turns; otherwise the guard moves one cell in its direction onto a map cell |
| Day06.GoneStaysGone | src/bin/06.rs:67-69 | once the guard has left, it stays gone |
| Day06.WalkShift | src/bin/06.rs:35-87 | two equal states stay equal after the same number of further steps |
| Day06.Periodic | src/bin/06.rs:36-38 | once a state repeats, every later state is one of the states seen before the repeat |
| Day06.InStates | src/bin/06.rs:65-86 | every state on a map cell is among the finitely many states of the map |
| Day06.Simulate | src/bin/06.rs:28-88 | the collected states are exactly those reachable from the start, and `visited_count` is exactly their positions; `Exit` exactly when the guard ever leaves (otherwise `Loop`, once a state repeats); the map is only read |
| Day06.Visit | src/bin/06.rs:40-44 | recording a new state grows the set by one and adds its position |
| Day06.LoopCase | src/bin/06.rs:36-38 | when the current state was already seen, every reachable state has been recorded and the guard never leaves |
| Day06.NeverGone | src/bin/06.rs:36-38 | a repeated state means the walk never ends |
| Day06.ExitCase | src/bin/06.rs:65-69 | leaving the map after the recorded states means everything reachable was recorded and the guard escapes |
| Day06.PartOne | src/bin/06.rs:90-105 | requires a `^`; the number of distinct positions the guard visits walking up from a `^` |
| Day06.LoopingAdd | src/bin/06.rs:130-143 | each candidate adds 1 exactly when the guard never leaves the map with `#` placed there |
| Day06.PartTwo | src/bin/06.rs:107-146 | requires a `^`; the number of visited positions, less the start and the cell above it, where one extra `#` makes the guard loop |
| Day06.CountLooping | src/bin/06.rs:130-143 | one simulation per candidate, each on its own copy of the map, counts the candidates that loop |
| Day07.ExtendOne | src/bin/07.rs:30-34 | one shorter combination gives `|ops|` new ones: itself followed by each operator, in order |
| Day07.ExtendAppend | src/bin/07.rs:29-35 | extending a concatenation extends each part in turn |
| Day07.ExtendStep | src/bin/07.rs:29-35 | each outer iteration appends the extensions of one shorter combination |
| Day07.GenerateOpCombinations | src/bin/07.rs:21-38 | the recursion with nested push loops computes `Combos(length, ops)`, which is `[[]]` for length 0 |
| Day07.ExtendLength | src/bin/07.rs:29-35 | extending multiplies the count by `|ops|` |
| Day07.CombosCount | src/bin/07.rs:21-38 | there are `|ops|^length` combinations |
| Day07.ExtendMembers | src/bin/07.rs:29-35 | a sequence is an extension exactly when its last operator is in `ops` and the rest is one of the shorter combinations |
| Day07.CombosExactly | src/bin/07.rs:21-38 | the combinations are exactly the sequences of length `length` over `ops` |
| Day07.ConcatShifts | src/bin/07.rs:48 | `COMB` (`format!("{}{}")` parsed back) is `acc * 10^digits(next) + next` |
| Day07.EvalStep | src/bin/07.rs:43-50 | the fold goes left to right: one more operator applies it to the value so far and the next number |
| Day07.EvalPairs | src/bin/07.rs:40-52 | requires `|numbers| >= |ops| + 1` (the `unwrap`s); the accumulator loop computes the left-to-right evaluation |
| Day07.CheckLine | src/bin/07.rs:70-80 | true exactly when some operator sequence of length `|nums| - 1` over `ops` evaluates to the target |
| Day07.NoneReachesStep | src/bin/07.rs:78-80 | a tried combination that misses the target extends the "none so far" invariant |
| Day07.NoneSolvable | src/bin/07.rs:78-80 | when no generated combination reaches the target, none over `ops` does |
| Day07.Numbers | src/bin/07.rs:63-68 | a readable line has at least one number |
| Day07.Solver | src/bin/07.rs:54-91 | requires every line to read as `target: numbers` (the `unwrap`s); the sum over lines of the target when solvable, else 0, with `vars_1` for part one and `vars_2` for part two |
| Day07.TotalSuffixStep | src/bin/07.rs:57-88 | the sum splits into the first line's value plus the rest |
| Day07.MoreOperatorsMoreSolutions | src/bin/07.rs:13-18 | part two's total is at least part one's, because `vars_2` extends `vars_1` |
| Day09.Kept | src/bin/09.rs:18-20 | `split("")` followed by dropping whitespace pieces keeps only non-space characters, in order |
| Day09.Layout | src/bin/09.rs:15-42 | one entry per digit: even positions `n` are `Number` with id `n / 2`, odd positions `Empty`, and each entry's size is its digit |
| Day09.LayoutAppend | src/bin/09.rs:22-37 | one more digit appends a `Number` with the next id (even position) or an `Empty` (odd position) |
| Day09.MakeRow | src/bin/09.rs:15-42 | requires every kept character to be a digit (the `unwrap`); with its mutable id counter, the loop builds the layout |
| Day09.Run | src/bin/09.rs:120-123 | `n` copies of one block |
| Day09.DiskAppend | src/bin/09.rs:116-126 | the block picture of a concatenation is the concatenation of the pictures |
| Day09.OwnedAppend | src/bin/09.rs:44-110 | the blocks owned per id add up over concatenation |
| Day09.FilesAppend | src/bin/09.rs:157-219 | the multiset of files adds up over concatenation |
| Day09.PlacesAppend | src/bin/09.rs:157-219 | total places add up over concatenation |
| Day09.PlacesIsDiskLength | src/bin/09.rs:112-129 | the total places equal the number of blocks on disk |
| Day09.OwnedIsFileCells | src/bin/09.rs:112-129 | the places owned by an id equal the disk blocks holding it |
| Day09.ShiftRowP1 | src/bin/09.rs:44-110 | for non-empty rows: every file id keeps the total places it owns, afterwards no `Number` entry follows an `Empty`, and the disk, padded with free blocks to its old length, equals the block-by-block reference `Compact` of the original disk; it terminates on `pointer_end - pointer_start` |
| Day09.FillSpace | src/bin/09.rs:54-98 | the front free entry meets the back file: the front pointer moves on by one, the back one stays or moves back by one, ownership and the pointer invariant are kept, and the row still compacts to the same disk |
| Day09.Compact | src/bin/09.rs:44-110 | the reference for part one, stated on blocks apart from the row: while a free block precedes a file block, the last file block moves into the first free block; the length is kept |
| Day09.CompactPacks | src/bin/09.rs:44-110 | the reference keeps every block (as a multiset) and leaves no file block after a free block |
| Day09.CompactIdle | src/bin/09.rs:50 | a disk with no file block after a free block is its own compaction (the loop has nothing left to do) |
| Day09.CompactRuns | src/bin/09.rs:54-98 | moving a run of `k` blocks of one file from the very back into a run of `k` free blocks right after the packed front is what `k` reference steps do |
| Day09.CompactWhole | src/bin/09.rs:56-62 | the equal-sizes step of the row is `k` reference steps |
| Day09.CompactFits | src/bin/09.rs:64-80 | the larger-gap step of the row is as many reference steps as the file has blocks |
| Day09.CompactFills | src/bin/09.rs:82-97 | the smaller-gap step of the row is as many reference steps as the gap has blocks |
| Day09.PaddedCompact | src/bin/09.rs:50 | when the loop stops, the padded disk is the compaction of the original |
| Day09.StepWhole | src/bin/09.rs:56-62 | equal sizes: the file takes the free slot and its old entry is removed; ownership is kept, the row shrinks by one, and the pointer invariant advances |
| Day09.StepFileFits | src/bin/09.rs:64-80 | a larger gap: the file is inserted before the shrunk gap; ownership and length are kept |
| Day09.StepSpaceFills | src/bin/09.rs:82-97 | a smaller gap: the gap becomes part of the file and the rest stays at the back; ownership and length are kept |
| Day09.SplitBlocks | src/bin/09.rs:82-92 | cutting a file into two pieces keeps its blocks |
| Day09.ShiftRowP2 | src/bin/09.rs:157-219 | requires the row to start with a file (otherwise `pointer_end` underflows); files are never split, so the multiset of `(id, size)` files is kept, and the total places are kept |
| Day09.TryMove | src/bin/09.rs:161-216 | one inner pass keeps the files and the places and moves `pointer_end` back over free entries only, not below 1; when it stops at a file, that file moves into the first free entry before it that holds it (`FirstFit`) and the row is unchanged when there is none; when it stops at a free entry, everything before is a file and the row is unchanged |
| Day09.FirstFit | src/bin/09.rs:163-205 | the leftmost free entry before the file that holds it, or the file's own index: every entry before it fails to hold the file |
| Day09.FirstFitAt | src/bin/09.rs:163-205 | where the front pointer stops, after passing files and free entries too small for the file, is the first fit |
| Day09.AllPassedFiles | src/bin/09.rs:207-214 | while the back pointer sits on a free entry, the front pointer passes files only |
| Day09.MovedKeeps | src/bin/09.rs:168-199 | a move keeps every `(id, size)` file, the total places and the first entry |
| Day09.MoveFile | src/bin/09.rs:168-199 | the move into the free span at `s` of the file at `e` gives `Moved`, keeping the files, the places and the first entry |
| Day09.SwapWhole | src/bin/09.rs:169-179 | equal sizes: the file swaps into the gap and leaves an `Empty` of its size; files and places are kept |
| Day09.SwapFits | src/bin/09.rs:181-199 | a larger gap: the file is inserted before the shrunk gap and its old slot becomes an equal `Empty`; files and places are kept |
| Day09.Checksum | src/bin/09.rs:112-129 | the accumulator is the sum over block positions of position × id, where free blocks advance the position and add nothing |
| Day09.FileScoreStep | src/bin/09.rs:120-123 | one more block of a file adds its position times the id |
| Day09.FreeScore | src/bin/09.rs:118 | free blocks add nothing |
| Day09.PartOne | src/bin/09.rs:149-155 | requires a readable, non-empty row; the compacted row keeps each id's blocks, has no file after free space, and the checksum returned is that of the reference compaction of the laid-out disk |
| Day09.PartTwo | src/bin/09.rs:221-227 | requires a readable, non-empty row; the moved row keeps every file whole and the total places, and its checksum is returned |
| Day09.AllFilesNoFree | src/bin/09.rs:112-129 | a row of files only has no free block |
| Day09.CompactedDisk | src/bin/09.rs:44-110 | after part one's compaction, no file block follows a free block on disk |
| Day09.LayoutFilesUnique | src/bin/09.rs:15-42 | the layout holds each id in exactly one file, with ids below the number of files |
| Day09.PartTwoKeepsFilesWhole | src/bin/09.rs:168-199 | after part two, the original `(id, size)` of every file occurs exactly once, and no id occurs in two entries |
| Day09.FileInFiles | src/bin/09.rs:157-219 | every `Number` entry is among the files |
| Day09.TrailingFreeSpace | src/bin/09.rs:116-126 | free space at the end does not change the checksum |
| Day10.IsNextNumberChars | src/bin/10.rs:8-13 | `is_next_number(a, b)` holds exactly when `b`'s digit is one more than `a`'s |
| Day10.Height | src/bin/10.rs:28 | a height is a digit, at most 9 |
| Day10.ClimbsAmong | src/bin/10.rs:34-38 | the filter keeps exactly the listed cells that exist and are one higher, in order |
| Day10.Next | src/bin/10.rs:30-38 | the filtered neighbours: exactly the orthogonal neighbours one higher, at most four, one height up |
| Day10.FilterNext | src/bin/10.rs:34-38 | `None` exactly when some existing neighbour is not a digit (the `to_digit` unwrap panics); otherwise the filtered list |
| Day10.NinesOverMember | src/bin/10.rs:40-47 | a 9 is collected from a list of cells exactly when one of them collects it |
| Day10.TrailHeights | src/bin/10.rs:34-47 | along a climbing path the height rises by exactly one per step, so the search terminates |
| Day10.TrailToFirst | src/bin/10.rs:40-47 | a climb from `c` to a 9 goes through one filtered neighbour of `c`, which collects that 9 |
| Day10.NinesUnfold | src/bin/10.rs:26-48 | the 9s reachable from a cell are those collected through its filtered neighbours |
| Day10.WeightAppend | src/bin/10.rs:45 | pushing a cell adds `5^(9 - height)` to the stack's weight |
| Day10.NinesAllAppend | src/bin/10.rs:45 | pushing a cell adds the 9s it reaches to what the stack still has to find |
| Day10.TrailheadNines | src/bin/10.rs:22-50 | from a trailhead, the stack loop collects exactly the 9 cells reachable by +1 steps; `None` only where a non-digit cell makes `to_digit` panic |
| Day10.SearchStep | src/bin/10.rs:27-47 | one pop keeps "found + still to find" unchanged and strictly lowers the stack weight |
| Day10.WeightPop | src/bin/10.rs:27 | a popped cell weighs more than its one-higher neighbours together (at most four) |
| Day10.NinesPop | src/bin/10.rs:27-47 | the 9s of a popped cell are those of its filtered neighbours |
| Day10.NineFound | src/bin/10.rs:42-44 | a 9 neighbour inserted into `finished` keeps "found + still to find" equal to what the popped cell reaches so far |
| Day10.NineBehind | src/bin/10.rs:45 | a non-9 neighbour pushed on the stack keeps the same balance |
| Day10.PushWeight | src/bin/10.rs:45 | each pushed neighbour adds at most one unit `5^(9 - height)` to the stack's weight |
| Day10.CollectNext | src/bin/10.rs:40-47 | the loop over filtered neighbours inserts the 9s into `finished` and pushes the others |
| Day10.SumOfRemove | src/bin/10.rs:18-52 | a sum over a set of trailheads splits off one trailhead |
| Day10.PartOne | src/bin/10.rs:15-55 | the sum over all `0` cells of the number of distinct 9s reachable by +1 steps; `Some` when every cell is a digit |
| Day10.TrailsSound | src/bin/10.rs:76-105 | every trail counted from `c` starts at `c`, climbs by one per step and ends on a 9 |
| Day10.TrailsComplete | src/bin/10.rs:76-105 | every such climbing path to a 9 is counted |
| Day10.TrailsMeaning | src/bin/10.rs:69-107 | the trails from `c` are exactly the paths that climb +1 steps from `c` to a 9 |
| Day10.Upto | src/bin/10.rs:91-98 | the 9s pushed in one inner loop before and including `q` |
| Day10.KeyOfCons | src/bin/10.rs:78 | extending a trail at the front extends its key at the front |
| Day10.KeysOverNines | src/bin/10.rs:91-98 | each 9 neighbour stores one key: the path so far followed by the 9s of that loop up to it |
| Day10.KeysOverClimbs | src/bin/10.rs:99-102 | non-9 neighbours contribute exactly the keys of the searches started from them |
| Day10.KeysUnfold | src/bin/10.rs:76-105 | the keys stored from a builder are those stored from the builders it creates |
| Day10.TrailheadPaths | src/bin/10.rs:69-107 | the part-two stack loop stores exactly the keys of all trails from the trailhead |
| Day10.PathStep | src/bin/10.rs:77-105 | one pop keeps "stored + still to store" unchanged and strictly lowers the stack weight |
| Day10.CollectPaths | src/bin/10.rs:91-104 | the inner loop stores the keys of the 9 neighbours and pushes a builder for each other neighbour |
| Day10.KeyOfShape | src/bin/10.rs:94-97 | a key starts with the trail without its last cell, and ends with that last cell |
| Day10.TrailsLength | src/bin/10.rs:76-105 | every trail from height `h` has `10 - h` cells |
| Day10.KeyOfInjective | src/bin/10.rs:95-97 | distinct trails from one trailhead give distinct keys, so the `HashSet<String>` counts trails; even with part two reusing `p.path` in its inner loop |
| Day10.ImageCard | src/bin/10.rs:107 | an injective image has as many elements as its domain |
| Day10.KeysCount | src/bin/10.rs:107 | the number of keys stored equals the number of trails |
| Day10.TrailheadCount | src/bin/10.rs:68-108 | from a trailhead, the count is the number of distinct +1-step paths ending at a 9 |
| Day10.PartTwo | src/bin/10.rs:62-112 | the sum over all `0` cells of their number of distinct trails; `Some` when every cell is a digit |
| Day11.Split | src/bin/11.rs:5-18 | a stone always becomes one or two stones |
| Day11.SplitMeaning | src/bin/11.rs:5-18 | `split(0) == [1]`; a stone with an even number of digits splits into its decimal halves (the right half parsed, so leading zeros drop: `left * 10^(k/2) + right == n`, `right < 10^(k/2)`); any other stone becomes `[2024 * n]` |
| Day11.BlinkAppend | src/bin/11.rs:51-54 | a blink of a concatenation is the concatenation of the blinks |
| Day11.SplitLenAppend | src/bin/11.rs:43-55 | the stone count after `t` blinks adds up over concatenation |
| Day11.SplitLenCountsStones | src/bin/11.rs:43-55 | `find_split_len(s, t)` is the number of stones after `t` blinks; for `t == 1` it is the sum of `|split(x)|`, and for larger `t` the sum of `find_split_len(split(x), t - 1)` |
| Day11.SplitLenStep | src/bin/11.rs:51-54 | `t + 1` blinks of `s` are `t` blinks of one blink of `s` |
| Day11.SuffixStep | src/bin/11.rs:51-54 | the sum over stones splits into the first stone's recursive count plus the rest |
| Day11.FindSplitLen | src/bin/11.rs:36-60 | requires `times >= 1` (`times - 1` underflows at 0 for a non-empty list); returns the stone count, and the cache stays exact (every entry is the recomputed value) and gains the entry `(s, times)` |
| Day11.CountAfter | src/bin/11.rs:20-32 | `part_one` and `part_two` with a fresh cache: the number of stones after the given blinks (25 or 75) |
| Day11.SplitExample | src/bin/11.rs:9-16 | `split(1000) == [10, 0]`, `split(0) == [1]`, `split(1) == [2024]` |
| Day12.Look | src/bin/12.rs:13 | `map.get(c)`: `Some` exactly for map cells, holding their character |
| Day12.PointsMember | src/bin/12.rs:63 | a position is covered by the zones exactly when some zone holds it |
| Day12.Next | src/bin/12.rs:53-56 | the neighbours pushed: exactly the listed cells holding the zone's char and not yet found |
| Day12.NextNone | src/bin/12.rs:53-56 | once every same-char neighbour is found, nothing is pushed |
| Day12.NeighbourSymmetric | src/bin/12.rs:52 | adjacency is symmetric |
| Day12.PopNew | src/bin/12.rs:47-60 | popping an unfound cell marks it found, adds it to the zone and pushes its unfound same-char neighbours, keeping the stack invariants |
| Day12.PopOld | src/bin/12.rs:47-60 | popping an already found cell pushes nothing and changes nothing else |
| Day12.SealedClose | src/bin/12.rs:46-61 | when the stack empties, the zone holds every same-char neighbour of its cells |
| Day12.FloodStart | src/bin/12.rs:39-44 | a fresh zone with its start cell on the stack satisfies the flood invariant |
| Day12.FloodDone | src/bin/12.rs:46-61 | on an empty stack the zone is new, uniform, closed, contains the start and is reached from it by same-char walks |
| Day12.FloodTurn | src/bin/12.rs:47-60 | one iteration of the stack loop, with its exact effect on `zone.points`, `found_zone` and `q`; the invariant is kept and the measure drops |
| Day12.Flood | src/bin/12.rs:39-63 | the zone of a cell not yet found: one char, closed under same-char adjacency, connected, disjoint from earlier zones |
| Day12.ZoneFromFlood | src/bin/12.rs:39-63 | the flood's result is a non-empty, uniform, closed and connected zone |
| Day12.SealedGrow | src/bin/12.rs:50 | adding a closed zone to the found cells keeps them closed under same-char adjacency |
| Day12.ZonesPush | src/bin/12.rs:63 | pushing a new disjoint zone keeps the zones pairwise disjoint and valid |
| Day12.FindZones | src/bin/12.rs:29-67 | the zones partition the map's positions: each position is in exactly one zone; each zone carries one char, is closed under same-char adjacency and is connected |
| Day12.WalkStays | src/bin/12.rs:46-61 | a same-char walk starting in a closed zone stays in it |
| Day12.WalkReversed | src/bin/12.rs:52 | a same-char walk reversed is a same-char walk |
| Day12.WalkJoin | src/bin/12.rs:52 | two walks that meet join into one |
| Day12.ZoneIsComponent | src/bin/12.rs:29-67 | a zone is exactly the set of cells reachable from any of its cells by same-char steps |
| Day12.BordersStep | src/bin/12.rs:10-18 | each point adds its borders to the set |
| Day12.FindBorders | src/bin/12.rs:7-21 | exactly the pairs `(p, q)` with `p` in the zone and `q` an orthogonal neighbour whose char is different or absent |
| Day12.BordersSeparate | src/bin/12.rs:13 | every border of a one-char zone separates its char from a different char or from outside the map |
| Day12.RightMost | src/bin/12.rs:69-82 | a non-empty set of cells has a rightmost cell |
| Day12.ZoneHasBorder | src/bin/12.rs:204 | every zone has at least one border |
| Day12.AdjPairs | src/bin/12.rs:109-156 | each border has two candidate continuations, one in each direction along the side |
| Day12.TouchSymmetric | src/bin/12.rs:165-172 | between separating borders, `is_adjacent` is symmetric |
| Day12.SideUnionMember | src/bin/12.rs:182 | a border is in some side exactly when one of the sides holds it |
| Day12.Gather | src/bin/12.rs:158-179 | the inner loop takes every untaken border that continues `item`, each once, adding it to `side`, `q` and `taken` |
| Day12.GrowChained | src/bin/12.rs:174-178 | the borders pushed continue an earlier border of the side |
| Day12.SideGrow | src/bin/12.rs:102-180 | one pop keeps the side invariant and lowers the measure |
| Day12.SideTurn | src/bin/12.rs:103-179 | `ok` is false exactly when the popped border does not separate two chars (the `assert!` fails); otherwise the invariant is kept |
| Day12.SideDone | src/bin/12.rs:102-180 | on an empty queue, no untaken border continues the side |
| Day12.SideStart | src/bin/12.rs:96-100 | a new side begins with its first border taken, in `side` and in `q` |
| Day12.GrowSide | src/bin/12.rs:91-182 | the side of an untaken border: its borders are new, chained by `is_adjacent`, and nothing outside continues them; `ok` is false only when some border fails the assertion |
| Day12.SidesPush | src/bin/12.rs:182 | pushing a new disjoint side keeps the sides valid and their union growing by its borders |
| Day12.SortSides | src/bin/12.rs:84-188 | `None` exactly when some border does not separate different chars (the assertion at line 107); otherwise the sides are disjoint, each chained and shut, and together they hold every border (so `taken.len() == borders.len()` holds) |
| Day12.PartOne | src/bin/12.rs:69-82 | for some partition of the map into zones, the sum over zones of area × number of borders |
| Day12.ZoneSides | src/bin/12.rs:204 | a zone's sides are never zero in number, so `assert!(perimiter != 0)` holds |
| Day12.SideCountsPush | src/bin/12.rs:196-207 | each zone adds area × its side count to the sum |
| Day12.CountSides | src/bin/12.rs:198-204 | a zone's borders split into a non-zero number of valid sides |
| Day12.SumSidePrices | src/bin/12.rs:194-207 | the accumulator is the sum over zones of area × side count |
| Day12.PartTwo | src/bin/12.rs:190-210 | for some partition into zones and a valid side decomposition of each zone, the sum of area × side count |
| Day14.MapRobots | src/bin/14.rs:15-29 | one robot per line, built from the first four numbers `extract_numbers` gives (`extract` is a parameter) |
| Day14.MoveRobot | src/bin/14.rs:31-38 | each coordinate is `wrap_number(p + v * t, 0, max)`: inside `[0, max]` and congruent to `p + v * t` modulo `max + 1`; velocities are unchanged |
| Day14.MoveRobotTwice | src/bin/14.rs:31-38 | moving for `a` seconds and then for `b` seconds is moving for `a + b` seconds |
| Day14.WrapTwice | src/bin/14.rs:33-34 | wrapping twice along a velocity is wrapping once for the total time |
| Day14.MoveRobotZero | src/bin/14.rs:31-38 | moving a robot inside the room for 0 seconds leaves it where it is |
| Day14.QuadrantOf | src/bin/14.rs:55-67 | `None` exactly on the middle row or column; otherwise the quadrant is given by `x < x_mid` and `y < y_mid` |
| Day14.CountsPartition | src/bin/14.rs:50-68 | the four quadrant counts plus the robots on a middle line sum to the number of robots |
| Day14.CountRobots | src/bin/14.rs:40-71 | requires every robot inside `[0, max]²` (the four `assert!`s); the four counters are the quadrant counts at `max / 2` |
| Day14.Moved | src/bin/14.rs:79-82 | moving every robot keeps the count and puts every robot inside the room, so the assertions of `count_robots` hold |
| Day14.PartOne | src/bin/14.rs:73-87 | requires four numbers per line; the product of the four quadrant counts after 100 seconds in the 101 × 103 room |
| Day15.ParseMove | src/bin/15.rs:27-34 | exactly the four characters `^<>v` stand for a command; any other is the panic, `None` |
| Day15.RemoveNewlines | src/bin/15.rs:24 | the result has no newline and keeps every other character of the input |
| Day15.Commands | src/bin/15.rs:15-38 | requires every command character readable; one command per character of the trimmed, newline-free command block, each the character's command |
| Day15.GetShifted | src/bin/15.rs:40-47 | the shifted cell is one of the four orthogonal neighbours, never the cell itself |
| Day15.ShiftBack | src/bin/15.rs:40-47 | shifting by a move and then by its opposite returns to the start |
| Day15.ShiftInjective | src/bin/15.rs:40-47 | two cells shifted by the same move to one cell are the same cell |
| Day15.RunIndexOf | src/bin/15.rs:53-73 | the cell `n` steps ahead is found again at run index `n` |
| Day15.RunEndsUnique | src/bin/15.rs:53-73 | a run of boxes ahead of a cell has one length and one end |
| Day15.ProcessCommand | src/bin/15.rs:49-80 | `None` (blocked) exactly when the boxes ahead end at a wall; a chain exactly when they end at a free cell, and then the chain is the robot followed by every box of the run in order; any other end is the `todo!` panic |
| Day15.ApplyChain | src/bin/15.rs:98-105 | writing the reversed chain shifts the robot and every box one cell on: the new map is `Pushed` of the old |
| Day15.PushedWalls | src/bin/15.rs:98-105 | a push keeps every wall where it is |
| Day15.PushedRobot | src/bin/15.rs:98-105 | a push moves the robot one cell along the command |
| Day15.PushedBoxes | src/bin/15.rs:98-105 | a push of no box keeps the boxes; a push of a run moves its first box to the cell after the run's end |
| Day15.PushedBoxCount | src/bin/15.rs:98-105 | a push keeps the number of boxes |
| Day15.Step | src/bin/15.rs:93-106 | one command keeps a single robot, the walls and the number of boxes; a wall ahead leaves the map unchanged |
| Day15.StepBlocked | src/bin/15.rs:93-106 | boxes ending at a wall make the command a no-op |
| Day15.StepPushed | src/bin/15.rs:93-106 | boxes ending at a free cell make the command the push of the run |
| Day15.ScoreRemove | src/bin/15.rs:82-88 | the score of a set of cells is the sum of `x + 100 * y` over its cells |
| Day15.FindScore | src/bin/15.rs:82-88 | the sum of `x + 100 * y` over every cell holding the character |
| Day15.PartOne | src/bin/15.rs:90-109 | requires a readable input with one robot; the box score of the map after every command, or the panic when some command reaches an unexpected cell |
| Day15.MoveOnce | src/bin/15.rs:93-106 | one command applied to the map in place is `Step` of the old map |
| Day15.WidenIsEach | src/bin/15.rs:195-199 | the four chained `replace` calls widen each character on its own: `#` to `##`, `O` to `[]`, `.` to `..`, `@` to `@.` |
| Day15.ReplaceCharAppend | src/bin/15.rs:195-199 | replacing a character distributes over concatenation |
| Day15.AheadShrinks | src/bin/15.rs:125-177 | the cells ahead of the next cell are strictly fewer, which bounds the scan |
| Day15.PairedExtend | src/bin/15.rs:141-146 | entries already paired stay paired when a partner's chain is appended |
| Day15.SubHalves | src/bin/15.rs:141-146 | appending a partner's chain of box halves keeps every entry after the first a box half |
| Day15.AfterPartner | src/bin/15.rs:129-152 | after the partner's chain is appended (or none is scanned), every entry but the last is settled, and on a well-formed map the chain stays paired |
| Day15.CloseChain | src/bin/15.rs:163-165 | a free cell ahead of the last entry closes the scan with a settled chain |
| Day15.PushChain | src/bin/15.rs:166-171 | a box half ahead extends the chain and keeps its invariant |
| Day15.AfterPartnerPaired | src/bin/15.rs:139-146 | on a well-formed map the partner's chain keeps every box half's partner in the chain and every later entry a box half |
| Day15.Joined | src/bin/15.rs:129-152 | after the partner's chain is appended, the chain is ready for the cell ahead of its old last entry to be scanned, and is still forced |
| Day15.ForcedPush | src/bin/15.rs:166-171 | a box half right ahead of an entry is forced by it, so the chain stays forced |
| Day15.ForcedJoin | src/bin/15.rs:139-146 | appending the partner's forced chain keeps the chain forced (the partner is forced by the half beside it), and a wall the partner's chain meets is met by the whole chain |
| Day15.WallJoin | src/bin/15.rs:147-150 | a wall in the way of the partner is in the way of the chain |
| Day15.ForcedWithin | src/bin/15.rs:111-184 | every cell of a forced chain lies in every set that holds `from` and everything its members force |
| Day15.ChainedClosed | src/bin/15.rs:111-184 | on a well-formed map, the cells of a robot's chain hold everything they force: the box half ahead of each and each half's partner on a vertical move |
| Day15.ChainIsClosure | src/bin/15.rs:111-184 | a robot's chain is exactly the least such closed set of cells around the robot |
| Day15.ChainedFree | src/bin/15.rs:158-165 | when a chain is returned, no cell that must move has a wall right ahead of it, so the two outcomes exclude each other |
| Day15.ChainsAgree | src/bin/15.rs:111-184 | any two chains for the robot cover the same cells |
| Day15.ProcessCommand2 | src/bin/15.rs:111-184 | `None` only when some cell forced to move along with `from` has a wall right ahead; a returned chain starts at `from`, every later entry is forced by an earlier one, every entry holds its cell's character and moves into a free cell or a cell that moves too, and on a well-formed map every box half's partner moves along |
| Day15.StepAhead | src/bin/15.rs:125-177 | one pass of the scan loop: ends with a chain or a wall as `ProcessCommand2` promises, or extends the forced chain and shrinks the cells ahead |
| Day15.LastWrite | src/bin/15.rs:213-216 | the character last written to a cell exists exactly when some entry moves into it, and is that entry's character |
| Day15.AppliedStep | src/bin/15.rs:213-220 | one write of the chain sets the target; the source cell is freed only when no earlier entry moved into it |
| Day15.AppliedKept | src/bin/15.rs:217 | a cell already written is not freed |
| Day15.AppliedFreed | src/bin/15.rs:217-219 | a cell not yet written is freed |
| Day15.AppliedKeysAppend | src/bin/15.rs:213-220 | the writes only touch the targets and the sources |
| Day15.ApplyChain2 | src/bin/15.rs:210-221 | the writes with the `was_set` set make the map `Applied` of the old map |
| Day15.AppliedRobot | src/bin/15.rs:210-221 | applying a robot's chain puts a robot on the cell it moves to |
| Day15.AppliedKeys | src/bin/15.rs:210-221 | applying a chain adds no cell to the map |
| Day15.AppliedWalls | src/bin/15.rs:210-221 | on a well-formed map, applying a robot's chain keeps every wall where it is |
| Day15.SnapshotInGrid | src/bin/15.rs:117-127 | every cell of a chain that shows its cells is on the map |
| Day15.AppliedShovedCell | src/bin/15.rs:213-220 | after the writes, a cell holds what stood behind it if that moved, is free if it moved away itself, and is unchanged otherwise |
| Day15.AppliedShoved | src/bin/15.rs:210-221 | the `was_set` writes depend only on the set of cells in the chain, not on its order or repeated entries |
| Day15.NotWall | src/bin/15.rs:158-172 | nothing in or written by a robot's chain is a wall |
| Day15.Reaches2Step | src/bin/15.rs:205-222 | one more command extends the reachable maps |
| Day15.Reaches2Prefix | src/bin/15.rs:205-222 | the map after the first `k + 1` commands follows from the map after the first `k` |
| Day15.Step2Keys | src/bin/15.rs:205-222 | a command of part two adds and removes no cell |
| Day15.Reaches2Keys | src/bin/15.rs:205-222 | every map reached covers the cells of the start map |
| Day15.Step2Walls | src/bin/15.rs:205-222 | on a well-formed map a command of part two keeps the walls |
| Day15.Step2FromUnique | src/bin/15.rs:206-221 | on a well-formed map, a command for a given robot has exactly one outcome: the map unchanged when a forced cell meets a wall, otherwise the closure of the robot shifted one cell |
| Day15.Step2Unique | src/bin/15.rs:206-221 | with a single robot on a well-formed map, the map after a command is determined |
| Day15.MoveOnce2 | src/bin/15.rs:206-221 | a completed command is a step of part two: a no-op when a cell that must move meets a wall, or the application of the forced, settled chain; the robot remains |
| Day15.PartTwo | src/bin/15.rs:194-225 | requires a readable widened input with a robot; a result is the sum of `x + 100 * y` over the left box halves of a map reached by the commands |
| Day16.StepTo | src/bin/16.rs:15-29 | a step in a direction lands on one of the four neighbours |
| Day16.MoveDirectionStep | src/bin/16.rs:15-29 | `move_direction` names the direction of a step, and stepping in the named direction from a cell reaches the neighbour |
| Day16.MoveDirectionExamples | src/bin/16.rs:173-183 | the four directions of the test around `(10, 10)` |
| Day16.TurnMult | src/bin/16.rs:31-51 | 0 for the same direction, 2 for the opposite one, 1 for a quarter turn |
| Day16.TurnMultSymmetric | src/bin/16.rs:31-51 | the turn multiplier does not depend on the order of its arguments |
| Day16.Possible | src/bin/16.rs:104-137 | `None` (the `assert!` panic) exactly when a non-reversing neighbour is off the map; otherwise the successors are exactly the neighbours that are not behind, not walls and within `min_score`, each moved with its score `score + 1 + 1000 * mult` |
| Day16.WitnessMoved | src/bin/16.rs:104-137 | a successor extends its walk from the start by its cell and keeps the walk's cost equal to its score |
| Day16.WitnessVisit | src/bin/16.rs:88-90 | recording the current cell keeps the visited set equal to the cells of the walk |
| Day16.MinScore | src/bin/16.rs:92-95 | the smallest score of the finished positions, or the initial `1000000000` |
| Day16.MinScorePush | src/bin/16.rs:92-96 | a finished position lowers `min_score` exactly when its score is lower |
| Day16.PushAll | src/bin/16.rs:139-141 | the stack after the pushes is the old stack followed by the successors; every entry keeps a witness walk, and the stack weight drops below the popped entry's weight |
| Day16.StackedPop | src/bin/16.rs:78 | popping keeps the witnesses of the rest and removes the popped entry's weight |
| Day16.FinishedPush | src/bin/16.rs:92-97 | a position at the end with a witness walk joins the finished ones |
| Day16.FiresUnwalled | src/bin/16.rs:114-115 | the `assert!` can fire only on a map not closed by walls |
| Day16.SearchStep | src/bin/16.rs:77-142 | one pass of the loop: a position no better than the best for its cell and direction is dropped; otherwise it is recorded, and it finishes at `E`, is dropped above `min_score`, or is replaced by its successors; the search invariant holds and the stack weight decreases |
| Day16.FinishedWalk | src/bin/16.rs:61-145 | each finished position is the end of a legal walk from `S` to `E` whose cost is its score, and with `store_visited` its visited set is exactly the walk's cells |
| Day16.Solver | src/bin/16.rs:61-145 | ends (a weight on the stack bounds the loop); a result starts at an `S`, lists only finished positions explained by walks, and its score is their least; on a map with an `S` closed by walls there is a result |
| Day16.PartOne | src/bin/16.rs:147-150 | the result is `1000000000` or the cost of some legal walk from `S` to `E`; there is a result on a walled map with an `S` |
| Day16.TilesStep | src/bin/16.rs:155-163 | one more finished position adds its visited cells when its score is the best |
| Day16.CountTiles | src/bin/16.rs:155-165 | the number of cells visited by the finished positions with the given score |
| Day16.TilesAreWalkCells | src/bin/16.rs:155-163 | those cells are the cells of the witness walks with that score |
| Day16.PartTwo | src/bin/16.rs:152-166 | the number of cells on the finished walks whose cost is the least score, each walk legal from `S` to `E` |
| Day17.XorBound | src/bin/17.rs:53-61 | the xor of two numbers below `2^k` is below `2^k` |
| Day17.XorWord | src/bin/17.rs:53-61 | the xor of two non-negative `i64` values is one |
| Day17.XorTwice | src/bin/17.rs:53-61 | xor with the same value twice is the identity |
| Day17.XorZero | src/bin/17.rs:53-61 | xor with 0 is the identity |
| Day17.Pow2Add | src/bin/17.rs:45 | `2^(i + j) == 2^i * 2^j` |
| Day17.Combo | src/bin/17.rs:30-41 | operands 0 to 3 are literal, 4 to 6 read registers a, b and c, anything else is the panic `None` |
| Day17.DivisionOf | src/bin/17.rs:43-48 | `None` when the combo operand panics or `2_i64.pow(c as u32)` overflows (exponent, truncated to 32 bits, at least 63); otherwise a quotient between 0 and a |
| Day17.DivisionFloor | src/bin/17.rs:46-47 | the result is the floor of `a / 2^e`, pinned between `q * 2^e` and `(q + 1) * 2^e` |
| Day17.Exec | src/bin/17.rs:50-73 | one instruction of a well-formed state runs on or faults (an unknown opcode, a combo panic, an overflowing division) |
| Day17.ExecKeeps | src/bin/17.rs:50-73 | an instruction keeps the registers non-negative `i64`s and does not change the program |
| Day17.ExecPointer | src/bin/17.rs:55-72 | the pointer moves on by 2, except that `jnz` with a non-zero a jumps to its operand |
| Day17.ExecOutput | src/bin/17.rs:62-65 | only `out` changes the output, appending one value in `0..8` |
| Day17.ExecXor | src/bin/17.rs:53-61 | `bxl` sets b to `b xor operand`, `bxc` to `b xor c` |
| Day17.Run | src/bin/17.rs:75-83 | a run that has not faulted keeps the program and a well-formed state |
| Day17.RunOutput | src/bin/17.rs:75-83 | a run only appends to the output, and every output value is in `0..8` |
| Day17.Computer.constructor | src/bin/17.rs:90-97 | the computer holds the registers and the program, with an empty output and pointer 0 |
| Day17.Computer.GetNext | src/bin/17.rs:19-28 | `None` exactly when the pointer is past the program; otherwise the opcode and its operand |
| Day17.Computer.GetCombo | src/bin/17.rs:30-41 | the combo operand as `Combo` gives it |
| Day17.Computer.Division | src/bin/17.rs:43-48 | the quotient `DivisionOf` gives |
| Day17.Computer.Instruction | src/bin/17.rs:50-73 | the new fields are the state `Exec` gives |
| Day17.Computer.RunToEnd | src/bin/17.rs:75-83 | after at most `fuel` turns the fields are the state `Run` gives, and `halted` says whether the program ran past its end |
| Day17.Initial | src/bin/17.rs:87-97 | requires the registers and the program readable; the first numbers of lines 1 to 3 and the numbers of line 5 |
| Day17.RenderParses | src/bin/17.rs:103-108 | the comma-joined output splits back into one number per output value |
| Day17.PartOne | src/bin/17.rs:86-111 | requires a run that does not fault; the answer is the final output joined with commas, and `halted` tells whether the program ran off its end within `fuel` turns |
| Day17.ExamplePass | src/bin/17.rs:272-276 | three turns of the example program `0,1,5,4,3,0` are one pass: halve a and output its last three bits |
| Day17.ExampleRuns | src/bin/17.rs:272-276 | the example program halts after `Turns(a)` turns with the halvings of a as its output |
| Day17.PassThenFinish | src/bin/17.rs:272-276 | one pass followed by the rest of the run is the whole run |
| Day17.FinishAfterPass | src/bin/17.rs:272-276 | the final state after one pass is the final state of the whole run |
| Day17.Example | src/bin/17.rs:272-276 | with a = 729 the program halts with the output `4,6,3,5,6,3,5,2,1,0` |
| Day17.HalvingsCons | src/bin/17.rs:272-276 | the outputs of a are the last three bits of `a / 2` followed by the outputs of `a / 2` |
| Day17.ExampleAnswer | src/bin/17.rs:272-276 | the joined example output is `4,6,3,5,6,3,5,2,1,0` |
| Day17.CompareVecs | src/bin/17.rs:255-266 | never more than the length of the first list |
| Day17.CompareSame | src/bin/17.rs:255-266 | a list agrees with itself at every position |
| Day17.CompareSymmetric | src/bin/17.rs:255-266 | the count does not depend on the order of the lists |
| Day17.CompareUpTo | src/bin/17.rs:255-266 | the count is the number of equal positions among the first `min(len a, len b)` |
| Day18.ParsesPrefix | src/bin/18.rs:10-23 | the first lines of a readable input are readable |
| Day18.LayoutMeaning | src/bin/18.rs:10-23 | the layout exists exactly when every line holds two numbers (`c[0]`, `c[1]` panic otherwise); its cells are exactly the fallen positions, all `#` |
| Day18.Place | src/bin/18.rs:9-23 | a fresh map holding the first `n` bytes (or every byte when there are fewer lines), or `None` when one of them panics |
| Day18.PartOne | src/bin/18.rs:5-28 | the steps from `(0, 0)` to `(70, 70)` through free cells after the first 1024 bytes, `None` when a line panics; `shortest_steps` is a parameter |
| Day18.PartTwo | src/bin/18.rs:30-74 | a result is a line `k` such that the first `k` bytes (when `k > 0`) leave a walk and the first `k + 1` (unless `k` is the last line) cut it; every readable non-empty input has a result |
| Day18.PassableOrCut | src/bin/18.rs:60-68 | on a readable input each prefix either leaves a walk or cuts it, never both |
| Day18.BisectedIsFirstCut | src/bin/18.rs:39-73 | when cutting stays cut as bytes fall, the answer's line is the first byte that cuts the walk: every shorter prefix leaves a walk and every longer one is cut |
| Day19.CanMatch | src/bin/19.rs:5-30 | requires non-empty towels and a memo holding only designs that cannot be made; the answer is whether the design splits into towels, and on a failure the memo recorded is still sound |
| Day19.WaysPositiveIffDecomposable | src/bin/19.rs:53-83 | a design has a way to be made exactly when it splits into towels, so part two counts what part one decides |
| Day19.WaysFromPositive | src/bin/19.rs:60-80 | the towels from `i` on give a way exactly when one of them starts the design and the rest can be made |
| Day19.CountMatch | src/bin/19.rs:53-83 | requires non-empty towels and a memo of exact counts; the number of ways to split the design into towels, and the memo stays exact |
| Day19.Towels | src/bin/19.rs:33-35 | the towels of a well-formed input are non-empty |
| Day19.PartOne | src/bin/19.rs:32-51 | requires a towel line and a design block; the number of designs that split into towels |
| Day19.PartTwo | src/bin/19.rs:85-104 | the sum over the designs of their number of splits into towels, with one memo shared by every design |
| Day20.SavesMeaning | src/bin/20.rs:20-40 | a pair of cells is counted exactly when the first is reached from the start, the second reaches the end, the cheat between them is 2 to `cheat_max` long and the cheating path is at least `min_save` shorter than the base path |
| Day20.SavesMonotone | src/bin/20.rs:24-36 | a longer cheat limit or a smaller saving counts every pair counted before |
| Day20.SavesInnerStep | src/bin/20.rs:21-39 | one more end cell adds its pair exactly when it qualifies |
| Day20.SavesOuterStep | src/bin/20.rs:20-40 | one more start cell adds the pairs it starts |
| Day20.SavesFrom | src/bin/20.rs:21-39 | the inner loop collects exactly the qualifying pairs that start at the given cell |
| Day20.CountSaves | src/bin/20.rs:18-40 | the two loops collect exactly the qualifying pairs |
| Day20.Solver | src/bin/20.rs:7-43 | a result is the number of qualifying pairs for some `S` and `E` with the end reached; `None` only when there is no `S`, no `E`, or the end is not reached (the panics of `[0]` and `unwrap`) |
| Day20.PartOne | src/bin/20.rs:45-49 | the count for cheats of at most 2 steps saving at least 100 |
| Day20.PartTwo | src/bin/20.rs:51-54 | the count for cheats of at most 20 steps saving at least 100 |
| Day21.Prepend | src/bin/21.rs:40-46 | prefixes every arrangement with one character, keeping the count |
| Day21.ArrangementsSound | src/bin/21.rs:38-46 | every arrangement is made of exactly `na` of one arrow and `nb` of the other |
| Day21.ArrangementsComplete | src/bin/21.rs:38-46 | every string made of exactly `na` of one arrow and `nb` of the other is an arrangement: the distinct permutations of `s` are all of them |
| Day21.ArrangementsDistinct | src/bin/21.rs:46 | no arrangement is listed twice, as `.unique()` ensures |
| Day21.LeftsSound | src/bin/21.rs:38-46 | the arrangements starting with the first arrow are well made |
| Day21.RightsSound | src/bin/21.rs:38-46 | the arrangements starting with the second arrow are well made |
| Day21.LeftsDistinct | src/bin/21.rs:46 | the arrangements starting with the first arrow are distinct and all start with it |
| Day21.RightsDistinct | src/bin/21.rs:46 | the arrangements starting with the second arrow are distinct and all start with it |
| Day21.PrependDistinct | src/bin/21.rs:46 | prefixing keeps distinct strings distinct |
| Day21.DistinctAppend | src/bin/21.rs:46 | two distinct lists starting with different characters join into a distinct list |
| Day21.KeepExactly | src/bin/21.rs:47-67 | the filter keeps exactly the paths that never leave the pad or touch the gap `X` |
| Day21.KeepDistinct | src/bin/21.rs:47-67 | the filter keeps distinct paths distinct |
| Day21.EndOffset | src/bin/21.rs:25-57 | a path of `>`/`<` and `v`/`^` ends its count of steps away along each axis |
| Day21.PressesSound | src/bin/21.rs:16-77 | every press sequence ends in `A` when asked, is made of the right number of each arrow and stays on the pad |
| Day21.PressesComplete | src/bin/21.rs:16-77 | every such sequence is listed |
| Day21.PressesDistinct | src/bin/21.rs:16-77 | no press sequence is listed twice |
| Day21.CandidateEnds | src/bin/21.rs:22-68 | every press sequence moves the arm from the first key to the second |
| Day21.StaysOnPad | src/bin/21.rs:47-67 | true exactly when every cell on the path is on the pad and not the gap |
| Day21.KeepOnPad | src/bin/21.rs:44-68 | the kept paths are exactly the filter of the arrangements |
| Day21.PushA | src/bin/21.rs:70-74 | appends `A` to each kept path |
| Day21.FindPossiblePresses | src/bin/21.rs:16-77 | the press sequences between two keys, `None` when either key is missing (the `[0]` panic) |
| Day21.Cons | src/bin/21.rs:94-96 | prefixes every combination with one choice, keeping the count |
| Day21.JoinedExactly | src/bin/21.rs:94-96 | a combination of one more list is a choice from it followed by a combination of the rest |
| Day21.ProductExactly | src/bin/21.rs:94-96 | the cartesian product holds exactly the combinations picking one entry from each list |
| Day21.ListsSome | src/bin/21.rs:79-93 | the lists are, key by key, the presses from the previous key (`A` for the first) to the key |
| Day21.ListsFail | src/bin/21.rs:79-93 | a missing key makes the whole line fail |
| Day21.ListsWitness | src/bin/21.rs:79-93 | a failing line has a key that fails |
| Day21.FindPossiblePressesLine | src/bin/21.rs:79-97 | the combinations over the line's keys, as `LineOptions` gives |
| Day21.MinOverSome | src/bin/21.rs:121-139 | a minimum is positive, at most `u64::MAX`, and no larger than the cost of any way |
| Day21.MinOverFails | src/bin/21.rs:134 | a way of cost 0 (the `assert!`) or a failing way makes the line fail |
| Day21.MinOverAttained | src/bin/21.rs:121-139 | a minimum below `u64::MAX` is the cost of some way |
| Day21.SumOfFails | src/bin/21.rs:126-131 | a failing part makes the sum fail |
| Day21.MinOverStaysNone | src/bin/21.rs:123-139 | once failed, the running minimum stays failed |
| Day21.SumStep | src/bin/21.rs:126-131 | one more part adds its shortest cost |
| Day21.MinStep | src/bin/21.rs:136-138 | one more way lowers the minimum exactly when it is cheaper |
| Day21.ShortestIsMin | src/bin/21.rs:113-143 | the shortest cost of a line is the minimum over its ways |
| Day21.CacheAdd | src/bin/21.rs:141 | adding a true shortest cost keeps the cache exact |
| Day21.FindLineShortest | src/bin/21.rs:99-144 | requires an exact cache; a cached line is answered from the cache unchanged; the result is the shortest cost, and the cache stays exact |
| Day21.SumShortest | src/bin/21.rs:126-131 | the sum of the parts' shortest costs one level up |
| Day21.AddPart | src/bin/21.rs:129 | adds one part's shortest cost to the running sum |
| Day21.NumericKeysUnique | src/bin/21.rs:8-11 | every key of the numeric pad is found at its own cell |
| Day21.NumericKeysFound | src/bin/21.rs:8-11 | the numeric finder names a cell holding each key of the pad |
| Day21.RobotKeysUnique | src/bin/21.rs:13-14 | every key of the directional pad is found at its own cell |
| Day21.RobotKeysFound | src/bin/21.rs:13-14 | the directional finder names a cell holding each key of the pad |
| Day21.AsU64 | src/bin/21.rs:158 | the `as u64` cast: a value below `2^64`, the number itself when it fits |
| Day21.ComplexityFails | src/bin/21.rs:154-162 | a failing line makes the total fail |
| Day21.LinesCostFront | src/bin/21.rs:154-162 | the complexities of the lines but the last, and the last line's own |
| Day21.ComplexitySum | src/bin/21.rs:154-162 | the total is the sum of the lines' complexities |
| Day21.ComplexityStep | src/bin/21.rs:154-162 | one more line adds its shortest cost times its first number |
| Day21.Solve | src/bin/21.rs:148-183 | the sum over the lines of the shortest cost at the given depth times the line's first number |
| Day21.PartOne | src/bin/21.rs:148-165 | that sum with two directional robots (depth 3) |
| Day21.PartTwo | src/bin/21.rs:167-183 | that sum with 25 directional robots (depth 26) |
| Day22.Mix | src/bin/22.rs:8-10 | xor: mixing the value back into the result gives the secret again |
| Day22.Prune | src/bin/22.rs:12-14 | the result is below `16777216` |
| Day22.PruneSmall | src/bin/22.rs:12-14 | pruning a secret already below `16777216` keeps it |
| Day22.NextNumber | src/bin/22.rs:16-22 | the next secret is below `16777216` |
| Day22.Iterate | src/bin/22.rs:24-29 | after at least one step the secret is below `16777216` |
| Day22.IterateAdd | src/bin/22.rs:24-29 | `a` steps followed by `b` steps are `a + b` steps |
| Day22.NNumber | src/bin/22.rs:24-29 | the loop gives the secret after `n` steps |
| Day22.PriceAt | src/bin/22.rs:47 | a price is the last decimal digit of a secret, in `0..9` |
| Day22.Prices | src/bin/22.rs:44-51 | `n` prices, the `i`-th the last digit of the secret after `i` steps |
| Day22.Diffs | src/bin/22.rs:53-63 | one difference fewer than prices (none for no prices), each the change from one price to the next |
| Day22.Window | src/bin/22.rs:69 | the four differences ending at `i` |
| Day22.FirstWindow | src/bin/22.rs:68-75 | the first position from `from` on whose window is the key, or `None` when no window is |
| Day22.FirstWindowAt | src/bin/22.rs:72-74 | a window matching the key with no earlier match is the first one |
| Day22.PrecomputeMonkey | src/bin/22.rs:65-78 | requires more prices than differences; the keys are exactly the windows that occur, each mapped to the price after its first occurrence |
| Day22.MixPruneExamples | src/bin/22.rs:117-119 | `mix(15, 42) == 37` and `prune(100000000) == 16113920` |
| Day22.SecretsFrom123 | src/bin/22.rs:121-122 | the first ten secrets from 123 |
| Day22.PricesExample | src/bin/22.rs:121-131 | the ten prices from 123 are `3,0,6,5,4,4,6,4,4,2`, and the window `-1,-1,0,2` first ends at difference 5, selling for 6 |
| Day22.SecretLinesSuffix | src/bin/22.rs:32-39 | the later lines of a readable input are readable |
| Day22.SumAfter | src/bin/22.rs:32-39 | the sum over the lines of the secret after `n` steps |
| Day22.SumIteratedAt | src/bin/22.rs:32-39 | the sum over the lines from `k` is the `k`-th line's secret after `n` steps plus the sum over the lines after it |
| Day22.PartOne | src/bin/22.rs:31-42 | requires every line a decimal number; the sum of the 2000th secrets |
| Day23.Connections | src/bin/23.rs:29-36 | the neighbours of a known computer, and none for an unknown one |
| Day23.DeclaredStep | src/bin/23.rs:8-16 | the links of one more line are the earlier links plus that line's pair |
| Day23.AddLink | src/bin/23.rs:11-15 | after one line, `a` lists `b` exactly when it did before or `{a, b}` is the line's pair; both names become keys |
| Day23.PartialStep | src/bin/23.rs:8-16 | the map after one more line holds exactly the links of the lines read so far |
| Day23.PartialDone | src/bin/23.rs:8-17 | after every line the map holds exactly the links of the list and names exactly its computers |
| Day23.BuildComputers | src/bin/23.rs:5-18 | `None` exactly when some line has no `-` (the `unwrap` panic); otherwise the map of the links, symmetric |
| Day23.BuiltSymmetric | src/bin/23.rs:8-16 | a map holding exactly the links of a list is symmetric |
| Day23.ClosingStep | src/bin/23.rs:38-49 | one more `conn2` adds the sorted key exactly when it is a third computer linked to `conn1` |
| Day23.CloseTriangles | src/bin/23.rs:38-49 | the inner loop adds the keys of the triangles through `comp` and `conn1` |
| Day23.AroundStep | src/bin/23.rs:31-50 | one more `conn1` adds its triangles unless it is `comp` itself |
| Day23.AroundComputer | src/bin/23.rs:29-50 | the middle loop adds the keys of every triangle through `comp` |
| Day23.TrianglesStep | src/bin/23.rs:24-51 | one more computer adds its triangles when its name starts with `t` |
| Day23.PartOne | src/bin/23.rs:20-54 | `None` exactly on a line without `-`; otherwise the number of distinct sorted triangles with a computer starting with `t` |
| Day23.SortThreeAscending | src/bin/23.rs:44-45 | three distinct names sorted are strictly ascending and the same names |
| Day23.SortThreeUnique | src/bin/23.rs:44-45 | the ascending order of three names is the only one |
| Day23.AscendingOrdered | src/bin/23.rs:44-45 | three strictly ascending names are ordered and distinct |
| Day23.SortByThree | src/bin/23.rs:44-45 | the sorted three names are ordered and a permutation of the input |
| Day23.SortThreeIsSortBy | src/bin/23.rs:44-45 | `connvec.sort()` on three distinct names gives their ascending order |
| Day23.TriadOf | src/bin/23.rs:38-49 | three computers found by the loops are pairwise linked, whatever their order |
| Day23.TriangleOfKey | src/bin/23.rs:38-49 | every key the loops insert names a triangle with a `t` computer |
| Day23.KeyOfTriangle | src/bin/23.rs:24-51 | every triangle with a `t` computer is inserted |
| Day23.TrianglesMeaning | src/bin/23.rs:24-51 | the set of keys is exactly the sorted names of the triangles with a `t` computer |
| Day23.SubsetSize | src/bin/23.rs:64 | a subset is no larger |
| Day23.Branch | src/bin/23.rs:73-83 | adding candidate `v` keeps a clique, and the candidates passed on extend the larger clique and are fewer |
| Day23.Explored | src/bin/23.rs:85-86 | removing the explored candidate leaves the unexplored ones |
| Day23.CoverStep | src/bin/23.rs:72-87 | after exploring `v`, no clique through the explored candidates beats the best |
| Day23.CurrentCovered | src/bin/23.rs:63-69 | with candidates left, the current clique is smaller than the best found |
| Day23.CoverDone | src/bin/23.rs:71-87 | after every candidate, no clique between `current` and `current + candidates` beats the best |
| Day23.BronKerbosch | src/bin/23.rs:56-88 | requires a symmetric map without self-links and a current clique whose candidates extend it; `current` is restored, the best stays a clique, it is replaced only by a larger clique of the explored computers, and with no excluded set no such clique is larger |
| Day23.Explore | src/bin/23.rs:73-86 | one candidate: the recursive call on its neighbours keeps the same promises for cliques through `v` |
| Day23.PartTwo | src/bin/23.rs:90-107 | `None` exactly on a line without `-` or a line linking a computer to itself; otherwise the names of a largest clique, strictly ascending, joined by commas |
| Day23.AsWrittenSelfLinkRepeats | src/bin/23.rs:72-83 | as written, when `v` is linked to itself, `n_cand` keeps `v`: the call with `current == {v}` and candidates `{v}` makes exactly the same call again, and the top call on a graph of `v` alone reaches it |
| Day23.UnloopedClique | src/bin/23.rs:76-80 | dropping every self-link from the connections changes no clique, since a clique only asks its distinct members to be linked |
| Day23.PartTwoLoopFree | src/bin/23.rs:90-107 | with self-links dropped before the search: `None` exactly on a line without `-`; otherwise the names of a largest clique of the declared links, strictly ascending, joined by commas |
| Day24.Evaluate | src/bin/24.rs:50-59 | 0 or 1: AND is 1 exactly when both inputs are 1, OR when either is, XOR when they differ |
| Day24.EvaluateBits | src/bin/24.rs:50-59 | on bits, AND is the product, OR is `l + r - l * r`, XOR is the sum modulo 2 |
| Day24.Uncomputed | src/bin/24.rs:32-69 | the number of gates not yet evaluated, at most the number of gates |
| Day24.UncomputedMark | src/bin/24.rs:61 | marking an unevaluated gate lowers the count by one, so the loop ends |
| Day24.NoneUncomputed | src/bin/24.rs:66 | with the count at 0 every gate is evaluated |
| Day24.Evaluated | src/bin/24.rs:46-62 | evaluating a gate with both inputs known keeps the gates, gives values to exactly the initial and evaluated wires, and (when every wire has one driver) keeps every evaluated wire equal to its gate's function and the initial values unchanged |
| Day24.EvaluatedSingle | src/bin/24.rs:46-62 | with one driver per wire, an evaluation keeps the values consistent and the initial wires unchanged |
| Day24.FreshOut | src/bin/24.rs:60 | with one driver per wire, an unevaluated gate's output has no value yet, so each wire is written once |
| Day24.MarkOuts | src/bin/24.rs:60-61 | marking a gate adds its output to the evaluated wires |
| Day24.EvaluatedConsistent | src/bin/24.rs:46-62 | writing a fresh output keeps every evaluated gate consistent |
| Day24.PassSkip | src/bin/24.rs:37-46 | a gate already evaluated or missing an input is left alone by the pass |
| Day24.PassEvaluate | src/bin/24.rs:46-62 | a gate with both inputs is evaluated by the pass, which counts it |
| Day24.Pass | src/bin/24.rs:33-64 | one pass keeps the invariant, lowers the unevaluated count by `changed`, changes nothing when `changed == 0` (and then every unevaluated gate misses an input), and reports whether any gate was unevaluated |
| Day24.Solve | src/bin/24.rs:27-83 | the flags are cleared first; the result keeps the gates, has values for exactly the initial and evaluated wires, every unevaluated gate misses an input, and the text is the values of the `z` wires in descending name order |
| Day24.DescendingZUnique | src/bin/24.rs:71-76 | only one order of the `z` wires is descending, so the text is determined by the values |
| Day24.ZString | src/bin/24.rs:71-80 | the values of the `z` wires, sorted by name and reversed, printed one after another |
| Day24.ParseGateOfText | src/bin/24.rs:88-106 | a gate written as `left OP right -> out` reads back as the same gate, unevaluated |
| Day24.InitialValues | src/bin/24.rs:108-114 | the initial values hold exactly the wires the lines name |
| Day24.LastLineWins | src/bin/24.rs:110-114 | a wire named on several lines keeps the value of the last one |
| Day24.Gates | src/bin/24.rs:86-106 | one gate per line of the gate block, each read from tokens 0, 1, 2 and 4 |
| Day24.ParseInitial | src/bin/24.rs:85-117 | requires the block separator and readable lines (the `unwrap`s and `todo!`); the gates and the initial values |
| Day24.FromStrRadix2 | src/bin/24.rs:123 | `from_str_radix(s, 2)`: a value only for a binary string that fits `u128` |
| Day24.PartOne | src/bin/24.rs:119-124 | the `z` text after solving read as a binary `u128` (`None` where `unwrap` panics) |
| Day24.ToBinary | src/bin/24.rs:151 | `{:b}`: binary digits without leading zeros |
| Day24.BinValueToBinary | src/bin/24.rs:151 | the binary text reads back as the number |
| Day24.AddBinaries | src/bin/24.rs:146-152 | the sum of the two binary numbers, in binary without leading zeros |
| Day24.Pad2Injective | src/bin/24.rs:160-164 | `{:02}` names different numbers differently |
| Day24.NamesDiffer | src/bin/24.rs:160-164 | wires of different letters or numbers have different names |
| Day24.BuildValues | src/bin/24.rs:154-168 | `xNN` holds digit `l - NN` of `a` and `yNN` digit `l - NN` of `b`, counting from the right end of `a`; no other wire |
| Day24.XWires | src/bin/24.rs:159-161 | the `x` wires of `a` |
| Day24.YWires | src/bin/24.rs:163-165 | the `y` wires of `b` added, the `x` wires kept |
| Day24.FirstOff | src/bin/24.rs:170-185 | between the starting place and the length of `solved` |
| Day24.FirstOffMeaning | src/bin/24.rs:170-185 | the result `n` is one past the first place, counting from the right, where the strings differ; `solved.len()` when they never do |
| Day24.FirstOffSame | src/bin/24.rs:170-185 | a string never differs from itself |
| Day24.GetFirstOff | src/bin/24.rs:170-185 | for strings of any length, the loop gives `FirstOff`; the places are computed in `i16` and wrap on strings of 2^15 characters or more |
| Day24.PlaceWraps | src/bin/24.rs:172-174 | `len as i16 - 1 - i as i16`, with every step wrapping, is `len - 1 - i` wrapped once into `i16` |
| Day24.ShortDiffers | src/bin/24.rs:172-179 | on strings shorter than 2^15 characters nothing wraps: the compared places are the plain ones counted from the right |
| Day24.Filter | src/bin/24.rs:230-246 | exactly the elements satisfying the predicate |
| Day24.RuledMeetRules | src/bin/24.rs:240-256 | the wires the two rules name satisfy both rules and are wires of the circuit |
| Day24.RuleFlags | src/bin/24.rs:228-256 | the first two loops flag exactly the wires the rules name: outputs of non-direct XORs not writing a `z` wire, and `z` outputs of the wrong kind (`z45` not an OR, others not an XOR) |
| Day24.FlagLooseSums | src/bin/24.rs:240-244 | flags exactly the outputs of the listed gates that do not write a `z` wire |
| Day24.FlagWrongOutputs | src/bin/24.rs:248-256 | adds exactly the outputs of the listed gates of the wrong kind |
| Day24.UnusedStep | src/bin/24.rs:260-277 | one more gate adds its output to the unused-sum outputs exactly when it is an unused sum |
| Day24.UnusedSums | src/bin/24.rs:258-278 | the flags become the earlier flags plus the output of every direct XOR other than `z00` that no non-direct XOR reads; the gates passed on are such gates, with no output twice, and their outputs are exactly those not flagged before |
| Day24.KeepUnused | src/bin/24.rs:260-277 | one gate of the third loop adds its output exactly when it is an unused sum, and is passed on exactly when that output is new |
| Day24.CarryCheckMeaning | src/bin/24.rs:280-313 | a successful check of a kept gate finds the only non-direct XOR writing its `z` wire and the only OR writing an input of it, and flags the other input of that XOR |
| Day24.CarryInWires | src/bin/24.rs:300-311 | the wire a check flags is a wire of the circuit |
| Day24.AllCheckedMeaning | src/bin/24.rs:280-313 | the fourth loop completes exactly when the check of every kept gate succeeds |
| Day24.CarriedMeaning | src/bin/24.rs:306-311 | a wire is carried exactly when the check of some kept gate flags it |
| Day24.CarriedStep | src/bin/24.rs:306-311 | a successful check adds its wire to those carried so far |
| Day24.CarryFails | src/bin/24.rs:289-312 | a failing check of one kept gate means not every check succeeds |
| Day24.CarryFlags | src/bin/24.rs:280-313 | `None` exactly when one of the checks fails; otherwise the earlier flags plus exactly the wires the checks flag |
| Day24.FlaggedInWires | src/bin/24.rs:228-313 | every wire any of the four loops flags is a wire of the circuit |
| Day24.PartTwo | src/bin/24.rs:220-321 | a `Some` answer is eight wires, strictly ascending and joined with commas, that are exactly the ruled wires, the unused-sum outputs and the wires the carry checks flag, every check having succeeded |
| Day24.PartTwoWitness | src/bin/24.rs:315-320 | the sorted eight flags meet `PartTwo`'s promise |
| Day24.FlaggedMeetsRules | src/bin/24.rs:240-256 | every answer of `PartTwo` names wires of the circuit and satisfies both flag rules |
| Day24.SortedSet | src/bin/24.rs:317-318 | the sorted flags are the flag set, each once |
| Day25.MatchingIffDisjoint | src/bin/25.rs:7-17 | on schematics of one shape holding only `#` and `.`, two match exactly when their pins never share a cell, and matching is symmetric |
| Day25.Schematics | src/bin/25.rs:20-23 | one schematic per blank-line-separated block of the input, each the cell map of that block's lines |
| Day25.CountMatches | src/bin/25.rs:25-45 | requires a top-left cell in every schematic and only pins in keys; the number of pairs of a key and a different schematic that it matches |
| Day25.PartOne | src/bin/25.rs:19-48 | on the input text: requires every block to have a top-left cell and keys to hold only pins; the number of matching (key, other schematic) pairs among the blocks |
| Day25.OverlapsOneWay | src/bin/25.rs:27-45 | on schematics of one shape holding only pins, a counted pair pairs a key with a lock, so the reversed pair is not counted |

## Left out

- Days 3, 8 and 13 are not part of this model. Their solvers rest on regular expressions (3) and floating-point geometry and linear algebra (8, 13). These are Rust library behaviour outside the rest of the model.
- `part_two` of day 14 is left out. It searches 100000 frames for a symmetric picture using a floating-point ratio, writes the pictures to a file, and always answers `None`.
- `part_two` of day 17 (`divide_range` and the parallel brute force over register values) is left out. It is a floating-point chunked search run in parallel; only `compare_vecs`, which it uses, is modelled.
- `part_two` of day 22 is left out: the maximum over every sequence of four changes of the summed first prices. Its building blocks, `prices`, `diffs` and `precompute_monkey`, are modelled.
- Day 24's `make_random_binary`, `get_rating_off`, `get_rating_off_checkers`, `Swap` and `Checker` are left out. They are randomness and serialisation scaffolding that `part_two` does not use.
- I/O is left out: `print!`, `viz`, `fs::write`, and the `read_file` harness behind the tests.
- The tests that read the example files (`read_file("examples", DAY)`) are not modelled, because those inputs are not available. The inline tests are lemmas: day 4's wrap checks, day 16's directions, day 17's program, day 22's `sub_test`.
- Day 11 and day 20: their `part_two` tests expect `None`, while the solvers always return `Some`. The model follows the code.
- Integer widths are unbounded at a few points where the source would overflow, mostly in debug builds:
  - `u32`/`u64` sums and products, such as the stone counts of day 11 and the complexities of day 21;
  - `i32` coordinates and `u32` scores.
  Day 17's `2_i64.pow` overflow, day 21's `as u64` cast and day 24's `u128` parse are written out.
- The iteration order of `HashMap`/`HashSet` is not fixed. Results that depend on it (the `S`, `E` and robot found first by `find_char`) are stated for any such choice.
- `rayon` parallel iterators are modelled sequentially. The sums and maximums they compute do not depend on order.
- The crate helpers whose bodies are not shown are parameters or minimal definitions. Nothing beyond what their callers rely on is proved about them: `get_adjacent_xy`, `shortest_steps`, `best_to_pos`, `path_distance`, `find_char`, `extract_numbers`, `new_from_map`, `new_max`.
- Day16.PartOne: proves that the answer is the cost of a legal walk from `S` to `E` (or the initial `1000000000`), not that it is the least such cost. The pruned depth-first search's optimality is not proved.
- Day16.PartTwo: proves that the answer counts the cells of the recorded best walks, not that these are all the best walks.
- Day12.PartTwo: proves that the price comes from the zones and the side counts the solver computes. It does not prove that a zone's side count is independent of the order in which borders are gathered.
- Day23.PartTwo: on a line linking a computer to itself the source's search recurses without end (see Findings). The model answers `None` there, and `Day23.PartTwoLoopFree` gives the answer the search evidently intends.
- Day23.BronKerbosch: the source never grows `excluded`, so it also visits cliques that are not maximal. The model keeps that. Tie-breaking among largest cliques follows the set iteration order and is not fixed.
- Day21.FindPossiblePressesLine: for an empty line, `multi_cartesian_product` of no lists yields nothing. The model's product of no lists is one empty combination. The puzzle's lines are never empty.
- Day21: the order in which itertools lists permutations is not modelled. The candidate lists are stated as sets without repeats, and the minimum does not depend on order.
- Day05.CommonSolution: sorting with `sort_by` and a comparator that is not a strict weak order is implementation-defined in Rust. The model uses a stable insertion sort, and the ordering properties are proved under a strict weak order.
- Day01.PartOne: requires every line to hold two numbers and the input to hold a pair. The source's `assert!`s and `unwrap`s panic otherwise.
- Day04.PartOne: requires every line to be at least as long as the line count (`Day04.Readable`). The source panics only when a read near an `X` lands in the square on a missing cell, so a ragged grid whose short lines hold no `X` nearby is also answered by the source.
- Day04.PartTwo: requires the same square-readable grid as part one, while the source only needs the cells around each `A` to exist.
- Day19.PartOne: requires every towel to be non-empty. With an empty towel, `starts_with("")` holds and `replacen` leaves the design as it is, so `can_match` can call itself on the same design without end (towels `""`, design `a`). It stops only when an earlier towel has already failed on that design and recorded it in the memo, and that case is not modelled.
- Day19.PartTwo: requires every towel to be non-empty. With an empty towel, `count_match` calls itself on the same design before the memo holds it, and does not terminate.
- Day06.PartOne: requires a `^` on the map, since the source indexes the first match without checking.
- Day09.ShiftRowP2: requires the row to start with a file. Otherwise `pointer_end` underflows, and `makerow` always starts with a file.
- Day09.ShiftRowP2: the final arrangement is not related to the puzzle's "each file once, by decreasing id" procedure. Each inner pass is pinned down exactly by `TryMove` (the file at `pointer_end` goes to the leftmost free entry before it that holds it). The whole run is proved only to keep every file whole and the total places. The source walks entries by pointer: after an insert it steps past the entry that slid into `pointer_end`, and it can visit a file that has already moved. Its agreement with the per-id procedure is not proved.
- Day09.PartTwo: inherits that gap. The checksum is that of the row `ShiftRowP2` leaves, and that row is not fixed beyond the properties above.
- Day09.ShiftRowP1: equals the reference `Compact` once free blocks pad it to the old disk length. The row is shorter where whole entries were removed, and the checksum does not change (`Day09.TrailingFreeSpace`).
- Day11.FindSplitLen: requires at least one blink or an empty row. With zero blinks, `times - 1` underflows on a `u32`.
- Day17.DivisionOf: gives the exact floor of `a / 2^k`. The source divides as `f64` and floors, which rounds once `a` reaches 2^53 (for `a = 2^53 + 1` and operand 0 it gives 2^53). Floating point is not modelled.
- Day17.DivisionFloor: states the exact floor, which the source's `f64` computation matches only while `a` is below 2^53.
- Day17.Computer.Division: inherits `DivisionOf`'s exact floor, so it agrees with the source only while register `a` is below 2^53.
- Day24.GetFirstOff: takes the `i16` subtractions as wrapping, as a release build does; a debug build panics where one overflows, on strings of 2^15 characters or more.
- Day24.PartTwo: states what a `Some` answer is, not that the answer is `Some` whenever every check succeeds and eight wires are flagged. The model returns `None` exactly where an `assert!` or the `panic!` fires, but the contract does not say so.
- Day17.Computer.RunToEnd: runs for a bounded number of turns (`fuel`). The source loops until the program halts, and a program that never halts is not modelled.
- Day15.PartTwo: states that the final map is reached by steps of part two and scores its left box halves. Each step is unique for a single robot on a well-formed map (`Day15.Step2Unique`). That the widened map is well formed, and that a step keeps it so, is not proved, so the final map is not proved unique.

## Findings

| source | as written | input that shows it | evidently intended | confidence | as-written member | corrected member |
|---|---|---|---|---|---|---|
| src/bin/02.rs:38-48 | when the first bad level is at index `i`, only levels `i` and `i + 1` are tried for removal | `1 3 2 1`: it fails at index 1, removing level 1 or 2 leaves it unsafe, yet removing level 0 leaves `3 2 1`, which is safe | the report is safe when removing any single level makes it safe | not executed | Day02.AsWrittenMissesFirstLevel | Day02.CheckDampened |
| src/bin/23.rs:72-83 | `n_cand` is the unexplored candidates intersected with the connections of `v`, which keeps `v` when a line links `v` to itself | the single line `ka-ka`: the top call picks `ka`, recurses with `current == {ka}` and candidates `{ka}`, and that call repeats itself for ever | a computer is never a candidate of its own branch, so the search terminates with a largest clique | not executed | Day23.AsWrittenSelfLinkRepeats | Day23.PartTwoLoopFree |
