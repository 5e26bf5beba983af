# Advent of Code 2022, days 1–8, in Dafny

This project models the solvers of the first eight puzzles of Advent of Code
2022 from a Rust repository, together with their shared helpers and the
line-splicing logic of its scaffolding tool. Each puzzle is a module
(`Day01` … `Day08`) with the source's `parse_input`, `part_one` and
`part_two` and the helpers they call. `Utils` holds the string and sequence
helpers the solvers share. `Scaffold` holds `index_of_missing_day_line` and
`insert_below_line`, which the tool uses to add a new day to the `match`
table of `main.rs` and to the module list of `days/mod.rs`. `Wrappers`
defines `Option`.

Where the source panics (`unwrap`, an index out of bounds, a `u32`
subtraction below zero), the model does one of two things:
- For a single operation, the panic becomes a precondition.
- For a run of many steps (the crane moves of day 5, the shell session of
  day 7), the result is an `Option` and `None` stands for the panic.

Numbers are unbounded `nat`s. The files:

| file | module | models |
|---|---|---|
| wrappers.dfy | `Wrappers` | `Option` |
| utils.dfy | `Utils` | `src/utils.rs` and the `str`/iterator operations the solvers use |
| scaffold.dfy | `Scaffold` | `src/bin/scaffold.rs` |
| day01.dfy … day08.dfy | `Day01` … `Day08` | `src/days/dayNN/mod.rs` |

## Model

| member | source | states |
|---|---|---|
| Utils.ParseStrings | src/utils.rs:4-11 | every item parses, and element `i` of the result is what item `i` parses to |
| Utils.Intersection | src/utils.rs:13-21 | an element is in the result exactly when it is in every set; the result is a subset of the first set |
| Utils.SumAppend | src/days/day01/mod.rs:23-25 | the sum of a concatenation is the sum of the two sums |
| Utils.ParseNat | src/days/day04/mod.rs:22-23 | `parse::<usize>` succeeds exactly on a non-empty string of decimal digits |
| Utils.ParseShowNat | src/days/day04/mod.rs:22-23 | parsing the decimal form of a number gives the number back |
| Utils.JoinSplit | src/days/day01/mod.rs:18-19 | joining the pieces of `split` with the separator restores the string |
| Utils.SplitJoin | src/days/day01/mod.rs:18-19 | splitting a join of pieces that avoid the separator gives the pieces back |
| Utils.SplitPiecesAvoidSeparator | src/days/day01/mod.rs:18-19 | no piece of a `split` contains the separator |
| Utils.Lines | src/days/day04/mod.rs:14 | no line of `lines()` contains a line feed |
| Utils.LinesJoin | src/days/day04/mod.rs:14 | `lines()` of lines joined by line feeds gives the lines back |
| Utils.SplitOnce | src/days/day02/mod.rs:66 | `split_once` on a character: the two parts around the first occurrence, and `None` exactly when the character is absent |
| Utils.SplitOnceAt | src/days/day05/mod.rs:47 | `split_once("\n\n")`: the parts around the first occurrence, with no occurrence before it; `None` exactly when there is none |
| Utils.WordsJoin | src/days/day07/mod.rs:57 | `split_whitespace` of words joined by spaces gives the words back |
| Utils.FlattenChunks | src/days/day03/mod.rs:26 | the chunks of a sequence, laid end to end, are the sequence |
| Utils.FlattenPairs | src/days/day03/mod.rs:10-13 | flattening pairs puts pair `i` at positions `2i` and `2i+1` |
| Utils.ChunksFlatten | src/days/day03/mod.rs:26 | chunking a concatenation of equal-sized groups by that size gives the groups back |
| Utils.MaxOf | src/days/day08/mod.rs:26-38 | a running maximum from 0: at least every element, and 0 or one of the elements |
| Utils.MaxOfIs | src/days/day08/mod.rs:36-38 | an element at least as large as every other is the maximum |
| Scaffold.IndexOfMissingDayLine | src/bin/scaffold.rs:135-187 | the loop returns what the reference scan `Locate` returns, and any index it gives is at most the line count |
| Scaffold.LocateOutcome | src/bin/scaffold.rs:161-185 | the full case analysis of the scan from the first day line: append at end of file, `None` on the requested day, the index of a later day above a gap, or the index before the first unmatched line |
| Scaffold.LocateWithoutDays | src/bin/scaffold.rs:183-186 | a file without a day line gives `None` |
| Scaffold.LocateSomeHasDay | src/bin/scaffold.rs:161-185 | a result means a day line exists at or above the returned index |
| Scaffold.InsertBelowLine | src/bin/scaffold.rs:256-277 | the new line sits at the index, earlier lines stay in place, later lines shift down by one |
| Scaffold.InsertBelowLineRemovable | src/bin/scaffold.rs:260-269 | removing the inserted line restores the file; the file gains exactly that line |
| Scaffold.LocateAfterInsert | src/bin/scaffold.rs:165-168 | after the day's line is inserted where the scan said, the scan finds it and answers `None` |
| Scaffold.PatchIdempotent | src/bin/scaffold.rs:222-253 | scaffolding the same day twice changes nothing the second time |
| Scaffold.DocExample | src/bin/scaffold.rs:111-134 | on the doc comment's file, day 2 goes at index 2, above the `3 => ()` line |
| Scaffold.FirstDayIsKept | src/bin/scaffold.rs:161-173 | the gap test compares with the first day seen, not the previous one |
| Day01.ParseInput | src/days/day01/mod.rs:17-20 | one list per blank-line-separated group, each number parsed from its line |
| Day01.SubSum | src/days/day01/mod.rs:22-25 | one total per list, the sum of that list |
| Day01.SubSumKeepsTotal | src/days/day01/mod.rs:22-25 | the totals add up to all the calories of all lists |
| Day01.SortDescending | src/days/day01/mod.rs:6 | the result is sorted descending and is a permutation of the input |
| Day01.SortedPermutationUnique | src/days/day01/mod.rs:6 | two descending permutations of the same totals are equal |
| Day01.PartOne | src/days/day01/mod.rs:3-8 | the answer is the total of some elf and no elf's total exceeds it |
| Day01.PartTwo | src/days/day01/mod.rs:10-15 | the sum of the first three entries of the descending order, at least part one's answer |
| Day01.TopThreeIsLargest | src/days/day01/mod.rs:10-15 | the totals of any three different elves add up to at most part two's answer |
| Day01.ExampleTopThree | src/days/day01/mod.rs:31-54 | on the example's totals part two gives 45000 |
| Day02.OutcomeFromSymbol | src/days/day02/mod.rs:10-17 | `X`, `Y`, `Z` map to loss, draw, win, and nothing else maps to an outcome |
| Day02.ShapeFromSymbol | src/days/day02/mod.rs:29-36 | `A`/`X`, `B`/`Y`, `C`/`Z` map to rock, paper, scissors |
| Day02.ShapeForDesiredOutcome | src/days/day02/mod.rs:90-108 | the chosen shape reaches the desired outcome against the opponent |
| Day02.DesiredShapeUnique | src/days/day02/mod.rs:90-108 | it is the only shape that does |
| Day02.GetOutcomeFollowsCycle | src/days/day02/mod.rs:69-88 | the outcome table is the cycle rock, paper, scissors: win exactly when the shape beats the other |
| Day02.RoundScore | src/days/day02/mod.rs:45 | a round scores between 1 and 9, congruent to the shape's value modulo 3 |
| Day02.ParseInput | src/days/day02/mod.rs:64-67 | one pair per line: the line is the pair joined by a space, and the split is at the line's first space |
| Day02.PartOneScore | src/days/day02/mod.rs:39-49 | the total is between 1 and 9 points per round |
| Day02.PartTwoScore | src/days/day02/mod.rs:51-62 | the total is between 1 and 9 points per round |
| Day02.Example | src/days/day02/mod.rs:114-126 | the example scores 15 and 12 |
| Day03.ItemToPriority | src/days/day03/mod.rs:32-35 | `a`–`z` have priorities 1–26 and `A`–`Z` 27–52; the priority is the item's position in `ALPHABET` plus one |
| Day03.AlphabetLetters | src/days/day03/mod.rs:5 | `ALPHABET` holds exactly the ASCII letters, lower case first |
| Day03.Least | src/days/day03/mod.rs:28 | the first element of a `BTreeSet` is its least |
| Day03.SingleCommonItem | src/days/day03/mod.rs:26-29 | a group sharing exactly one item is scored by that item |
| Day03.SumGroupsAppend | src/days/day03/mod.rs:26-29 | the fold over groups adds up group by group |
| Day03.AllCompartments | src/days/day03/mod.rs:8-14 | two entries per rucksack, in input order: entry `2i` is the first half of rucksack `i` and entry `2i+1` its second half |
| Day03.PartOneGroups | src/days/day03/mod.rs:8-16 | chunking the flattened compartments by two gives back each rucksack's two halves |
| Day03.PartOne | src/days/day03/mod.rs:7-17 | between 1 and 52 points per rucksack |
| Day03.PartTwo | src/days/day03/mod.rs:19-22 | at most 52 points per group of three; a non-empty input scores at least 1 |
| Day04.OverlapIsSharedSection | src/days/day04/mod.rs:32-35 | for non-empty ranges the end-point test holds exactly when the ranges share a section |
| Day04.FullOverlapIsContainment | src/days/day04/mod.rs:27-30 | for non-empty ranges the end-point test holds exactly when one range contains the other |
| Day04.OverlapSymmetric | src/days/day04/mod.rs:27-35 | both tests ignore the order of the pair, and full overlap implies overlap |
| Day04.ParseShowPair | src/days/day04/mod.rs:17-25 | parsing the written form `a-b,c-d` of a pair gives the pair back |
| Day04.ParsePairExample | src/days/day04/mod.rs:17 | `"2-4,6-8"` parses as `2..=4`, `6..=8` |
| Day04.ParseInput | src/days/day04/mod.rs:13-15 | one parsed pair per line |
| Day04.PartOneAtMostPartTwo | src/days/day04/mod.rs:3-11 | part one never counts more pairs than part two |
| Day04.CountOverlappingAppend | src/days/day04/mod.rs:8-11 | the count is additive over concatenated inputs |
| Day04.PartTwo | src/days/day04/mod.rs:8-11 | at most one per line, and at least part one's answer |
| Day04.Example | src/days/day04/mod.rs:41-56 | the example counts 2 and 4 |
| Day05.LiftCrates | src/days/day05/mod.rs:40-44 | the rest and the lifted crates make up the stack, and exactly `quantity` crates are lifted |
| Day05.ApplyStep | src/days/day05/mod.rs:18-22 | only the two named stacks change: the source loses its top `quantity` crates, and the target gains them reversed in part one or in order in part two |
| Day05.StepResult | src/days/day05/mod.rs:31-34 | those stacks are the step's only possible result |
| Day05.ApplyStepKeepsCrates | src/days/day05/mod.rs:18-22 | a step neither creates nor destroys crates |
| Day05.Run | src/days/day05/mod.rs:18-22 | a completed run keeps the number of stacks and every crate |
| Day05.RunAppend | src/days/day05/mod.rs:18-22 | running two lists of steps is running the first, then the second |
| Day05.PartOneMovesOneByOne | src/days/day05/mod.rs:20-21 | the reversal of part one is what moving the crates one at a time gives |
| Day05.SingleCrateSameInBothParts | src/days/day05/mod.rs:18-34 | a one-crate step is the same in both parts |
| Day05.SameStackStep | src/days/day05/mod.rs:19-21 | a step onto its own stack keeps the stack in part two and reverses its top crates in part one |
| Day05.TopCrates | src/days/day05/mod.rs:24-25 | one character per stack, its top crate |
| Day05.ParseCrates | src/days/day05/mod.rs:51-72 | one stack per label column, no taller than the drawing, holding only letters |
| Day05.ParseDrawing | src/days/day05/mod.rs:51-72 | reading back the drawing of stacks of letters gives the stacks |
| Day05.ParseShowStep | src/days/day05/mod.rs:74-88 | `move q from f to t` reads back as the step |
| Day05.ParseInput | src/days/day05/mod.rs:46-49 | the stacks are parsed from the part before the first blank line; step `i` is line `i` after it, parsed |
| Day05.Solve | src/days/day05/mod.rs:15-38 | an answer exists exactly when every step can be carried out and no stack ends empty; its letter `i` is the top crate of final stack `i` |
| Day05.PartOne | src/days/day05/mod.rs:15-26 | the answer is the top crates after a run in which lifted crates land reversed |
| Day05.PartTwo | src/days/day05/mod.rs:28-38 | the answer is the top crates after a run in which lifted crates keep their order |
| Day05.Example | src/days/day05/mod.rs:94-112 | on the example's stacks the runs end with stacks `C`, `M`, `PDNZ` and `M`, `C`, `PZND`, so the answers are `CMZ` and `MCD` |
| Day06.FindRepeat | src/days/day06/mod.rs:15-26 | `None` exactly when the window's characters are distinct; otherwise a skip length justified by a repeated pair |
| Day06.SkippedWindowsRepeat | src/days/day06/mod.rs:17-23 | every window the skip passes over holds the same repeated pair |
| Day06.FindUniqueSequenceEnd | src/days/day06/mod.rs:9-30 | the end of the first window of distinct characters: that window is distinct and no earlier one is; `None` when there is none; the same answer as the reference search |
| Day06.FirstDistinctEndFrom | src/days/day06/mod.rs:9-30 | the reference search: the first end position whose window is distinct |
| Day06.PartOne | src/days/day06/mod.rs:1-3 | the first four distinct characters |
| Day06.PartTwo | src/days/day06/mod.rs:5-7 | the first fourteen distinct characters |
| Day06.Example | src/days/day06/mod.rs:36-41 | the first example's markers end at 7 and 19 |
| Day07.AddFileSize | src/days/day07/mod.rs:11-18 | the size is added to the directory and each of its ancestors and to no other directory; nothing else changes |
| Day07.Initial | src/days/day07/mod.rs:50-54 | the session starts with a well-formed tree holding only the empty root |
| Day07.ChangeDirectory | src/days/day07/mod.rs:61-72 | `/` selects the root, `..` the parent, a name the entry of that name; `None` where the source panics; the tree is unchanged |
| Day07.MakeDirectory | src/days/day07/mod.rs:73-77 | a new empty directory, parented by the current one, entered under the name (replacing an earlier entry); no other directory changes |
| Day07.AddFile | src/days/day07/mod.rs:78-81 | the size reaches the current directory and its ancestors, the root included, and only them; the tree stays well formed |
| Day07.ExecuteLine | src/days/day07/mod.rs:56-82 | a line keeps the file system well formed and adds the size it lists to the root |
| Day07.ExecuteLinesRootTotal | src/days/day07/mod.rs:56-82 | over a session the root's total grows by the sum of all file lines |
| Day07.ConstructFileSystem | src/days/day07/mod.rs:49-85 | the tree built is well formed, every total is the sum of the files below its directory, and the root's total is the sum of all file lines |
| Day07.DirsWithSizeConstraintFilters | src/days/day07/mod.rs:87-99 | the selection is exactly the descendants whose totals meet the constraint |
| Day07.DescendantsBelow | src/days/day07/mod.rs:92-97 | every descendant has the directory as an ancestor, so the root is never selected |
| Day07.SmallestTotal | src/days/day07/mod.rs:46 | the least total of the selection: reached by a selected directory and no larger than any other; `None` exactly when nothing is selected |
| Day07.SmallDirectoriesTotal | src/days/day07/mod.rs:28-35 | the sum of the totals of the directories below the root of at most 100000 |
| Day07.RequiredDirSize | src/days/day07/mod.rs:38-43 | defined exactly when neither `u32` subtraction underflows, and then it frees the required 30000000 |
| Day07.DirectoryToDelete | src/days/day07/mod.rs:37-47 | the smallest total below the root that frees enough space; `None` on underflow or when no directory is large enough |
| Day07.PartOne | src/days/day07/mod.rs:28-35 | part one's sum for the tree the session builds, `None` when the session panics |
| Day07.PartTwo | src/days/day07/mod.rs:37-47 | part two's choice for the tree the session builds |
| Day07.ExamplePartOne | src/days/day07/mod.rs:105-137 | on the example tree part one gives 95437 |
| Day07.ExamplePartTwo | src/days/day07/mod.rs:105-137 | on the example tree part two gives 24933642 |
| Day08.GetColumn | src/days/day08/mod.rs:67-69 | entry `y` of the column is entry `index` of row `y` |
| Day08.ColumnsTranspose | src/days/day08/mod.rs:48 | the columns of the columns are the rows again |
| Day08.IsVisibleInGrid | src/days/day08/mod.rs:9-15 | the visibility test through the columns holds exactly when, in some direction, every tree between the tree and the edge is shorter |
| Day08.EdgeIsVisible | src/days/day08/mod.rs:9-15 | every tree on the edge is visible |
| Day08.AllShorterLoop | src/days/day08/mod.rs:9-13 | the `all` loop answers whether every tree is shorter |
| Day08.CheckVisible | src/days/day08/mod.rs:9-15 | the four `all` tests together answer the visibility test |
| Day08.CountVisible | src/days/day08/mod.rs:7-19 | the loops count the visible trees, at most one per tree |
| Day08.PartOne | src/days/day08/mod.rs:3-22 | the number of visible trees of the parsed grid |
| Day08.EdgeRowsCounted | src/days/day08/mod.rs:7-19 | the whole top and bottom rows are counted |
| Day08.ViewingDistance | src/days/day08/mod.rs:56-65 | the trees up to and including the first one at least as tall, or all trees when there is none such |
| Day08.GetVisibleCount | src/days/day08/mod.rs:56-65 | the loop with its `break` computes the viewing distance |
| Day08.EdgeScoresZero | src/days/day08/mod.rs:30-35 | a tree on the edge scores 0 |
| Day08.BestScenicScoreIsUpperBound | src/days/day08/mod.rs:28-40 | the best score is at least every tree's score |
| Day08.BestScenicScoreIsReached | src/days/day08/mod.rs:28-40 | the best score is 0 or some tree's score |
| Day08.PartTwo | src/days/day08/mod.rs:24-43 | the best score of the parsed grid: no tree scores more, and it is 0 or some tree's score |
| Day08.CharsToDigits | src/days/day08/mod.rs:52-54 | one digit value per character |
| Day08.ParseInput | src/days/day08/mod.rs:45-50 | a rectangular grid of the digit values of the lines, with its columns |
| Day08.ExamplePartOne | src/days/day08/mod.rs:75-88 | on the example grid 21 trees are visible |
| Day08.ExamplePartTwo | src/days/day08/mod.rs:75-88 | on the example grid the best score is 8 |
| Day08.ExampleBestTree | src/days/day08/mod.rs:75-88 | the tree in the middle of the fourth row sees 2, 2, 1 and 2 trees |

## Left out

- `src/main.rs`, the runner that times each solver and prints its answers, is not part of this model.
- Scaffold: reading and writing files, fetching the puzzle input over HTTP and the day template are I/O. The model keeps only the two functions that decide where the new line goes and how it is spliced in.
- Scaffold: the regex and the character range that extract a day number are abstracted into a classifier parameter. It sorts each line into one of three cases: no match, a match without a `u8` day, or a day.
- Scaffold.DocExample: the doc comment of `index_of_missing_day_line` promises `Some(1)` for its example. The code returns `Some(2)`, the index of the `3 => ()` line, and the model follows the code.
- Integer widths: answers and sizes are `nat`. `u32` overflow in the sums and `usize` overflow in the scores are not modelled. The day 7 `u32` subtractions are: `RequiredDirSize` gives `None` where they underflow.
- Day 8 `as u32` truncation of the scenic score is not modelled; scores are unbounded `nat`s.
- Strings are sequences of characters. Rust's byte lengths and offsets (`split_at(len / 2)`, `find`) agree with character positions only for ASCII input, which is what the puzzles use.
- Utils.Lines: `str::lines` strips a `\r` only before a line feed. The model strips a trailing `\r` from every line, so it differs when the input ends in a `\r` with no line feed after it.
- Utils.ParseNat: `str::parse` also accepts a leading `+`; the model accepts only digits.
- Utils.Words: `split_whitespace` splits at any Unicode white space; the model splits at spaces.
- Day05.IsAlphabetic: `char::is_alphabetic` is modelled on ASCII letters, the only crate labels.
- Day 5 `parse_crates` is modelled for drawings whose rows reach every label column. On a shorter row, `nth(x).unwrap()` panics; the model makes this a precondition.
- Day 7 keeps its `HashMap` of sub-directories as a Dafny `map`. The selection of `dirs_with_size_constraint` is a set of arena indices, because the source's `Vec` order follows the hash map and neither the sum nor the minimum depends on it.
- Day 7 records the file lines it has read (`FileSystem.files`) as bookkeeping of the model; the source only adds their sizes. A second `dir x` in the same directory replaces the entry, as `HashMap::insert` does, and the old subtree stays counted in the totals above it.
- Day 7 `min().unwrap()` on an empty selection panics; `DirectoryToDelete` gives `None` there.
- Day07.ExamplePartOne and Day07.ExamplePartTwo start from the tree the example session builds, written out; the model does not replay the session text or derive the totals from its file lines.
- Day 3's example answers (157 and 70) are not reproduced. Its rucksacks are long strings whose set intersections are costly to evaluate symbolically. The priorities of the puzzle statement's examples are checked (`Day03.PriorityExamples`).
- Day01.ExampleTopThree, Day02.Example, Day04.Example, Day05.Example, Day08.ExamplePartOne and Day08.ExamplePartTwo start from the parsed form of the example, not from its text. Day 2 and day 4 show the parsing of a line or of the input separately.
- Day 6 answers are `Option<nat>`; the `as u32` conversion is not modelled.
