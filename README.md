# Advent of Code solvers, modelled in Dafny

This project models the puzzle solvers of the repository: 2022 days 1 to 20 and 22 to 25, 2023 days 1 to 4, and 2021 day 1. Each solver is one module in one file.

- Pure computations become functions and lemmas: parsing, scoring, packet comparison, SNAFU numerals, cube folding and so on.
- Code that updates state becomes imperative Dafny:
  - loops become methods with invariants;
  - a mutated grid or rope becomes an `array` or a class with fields and `modifies` frames;
  - heaps and hash sets become sequences and sets that the methods reassign.
- Each such method is proved against a specification function, and the lemmas state what the solver promises about that function:
  - inverses and round trips;
  - preserved invariants;
  - the optimality of the best-first searches;
  - the meaning of the answers.

A Rust panic becomes an explicit outcome. The result type `Common.Result` has `Panic` and `Ok(value)`, and each contract says exactly which inputs panic. Covered panics include:

- `unwrap` on missing data;
- `unreachable!` and `panic!`;
- an index out of range;
- an unsigned subtraction below zero;
- a division by zero.

`common.dfy` holds the shared vocabulary: `Option`, `Result`, decimal digits, sums over sequences and sets, and an ascending sort.

## Model

| member | source | states |
|---|---|---|
| Common.ParseNat | src/year2022/day01.rs:9 | an unsigned number: an optional leading '+' and then at least one digit, with no other character; its value is that of the digits |
| Common.PlusOptional | src/year2023/day04.rs:7-8 | one leading '+' changes neither parse; a second '+' is refused |
| Common.ParseInt | src/year2022/day10.rs:11 | a signed number: a '-' negates the unsigned parse of the rest, anything else parses as unsigned |
| Common.MinusNegates | src/year2022/day10.rs:11 | a leading '-' negates the unsigned parse; it is refused before another sign |
| Calories.Totals | src/year2022/day01.rs:2-12 | one total per elf, one more elf than blank lines, none negative |
| Calories.TotalsOfGroup | src/year2022/day01.rs:4-11 | a run of number lines adds their sum to the last elf and leaves the other elves alone |
| Calories.Values | src/year2022/day01.rs:9 | each line's parsed number, in order |
| Calories.TotalsStep | src/year2022/day01.rs:5-10 | a blank line opens a new elf at 0; a number line adds to the current elf |
| Calories.Preprocess | src/year2022/day01.rs:1-15 | panics exactly on a non-number line; otherwise the elves' totals sorted ascending |
| Calories.Part1 | src/year2022/day01.rs:17-20 | the largest total, which is one of the totals |
| Calories.Part2 | src/year2022/day01.rs:22-25 | panics exactly with fewer than three elves; otherwise the sum of the three largest totals |
| Calories.TopThreeOfSorted | src/year2022/day01.rs:13-24 | the last three entries of the ascending order are the three largest totals |
| Sonar.Increases | src/year2021/day01.rs:10-25 | the count of increases is at most the number of compared pairs |
| Sonar.CountHigher | src/year2021/day01.rs:9-26 | the loop counts exactly the places where a depth exceeds the one `lag` places earlier |
| Sonar.Part1 | src/year2021/day01.rs:7-16 | the number of depths larger than the previous one, at most len - 1 |
| Sonar.Part2 | src/year2021/day01.rs:18-27 | the number of increasing three-measurement window sums, at most len - 3 |
| Sonar.LagThreeIsWindows | src/year2021/day01.rs:21-25 | comparing a depth with the one three places back equals comparing consecutive window sums |
| RockPaperScissors.WinAgainst | src/year2022/day02.rs:9-15 | the shape beaten is a different shape |
| RockPaperScissors.LoseAgainst | src/year2022/day02.rs:17-23 | the shape that wins is neither the shape itself nor the one it beats |
| RockPaperScissors.WinLoseInverse | src/year2022/day02.rs:9-23 | winning and losing undo each other, and beating twice is losing |
| RockPaperScissors.FromLetter | src/year2022/day02.rs:25-32 | A/X are rock, B/Y paper, C/Z scissors; any other letter panics |
| RockPaperScissors.Score | src/year2022/day02.rs:34-50 | 1 to 9 points: 6 more than the hand's points exactly on a win, 3 more exactly on a draw, none more exactly on a loss |
| RockPaperScissors.Strategy | src/year2022/day02.rs:79-84 | X, Y and Z choose the shape that loses, draws and wins against the opponent; any other letter panics |
| RockPaperScissors.RoundScore1 | src/year2022/day02.rs:64-68 | a round scores 1 to 9 points, and panics exactly on a foreign letter |
| RockPaperScissors.RoundScore2 | src/year2022/day02.rs:77-86 | a round scores 1 to 9 points, and panics exactly on a foreign letter |
| RockPaperScissors.Part1 | src/year2022/day02.rs:60-71 | panics exactly when some round has a foreign letter; otherwise a total between 1 and 9 points per round |
| RockPaperScissors.Part2 | src/year2022/day02.rs:73-89 | panics exactly when some round has a foreign letter; otherwise a total between 1 and 9 points per round |
| Rucksack.LetterScore | src/year2022/day03.rs:3-9 | a..z score 1..26, A..Z score 27..52, anything else 0 |
| Rucksack.ScoreInjective | src/year2022/day03.rs:3-9 | two letters with the same score are the same letter |
| Rucksack.CommonItem | src/year2022/day03.rs:16-18 | an item found in both halves, and none exactly when they share nothing |
| Rucksack.CommonItem3 | src/year2022/day03.rs:31-36 | an item found in all three rucksacks, and none exactly when they share nothing |
| Rucksack.UniqueCommon | src/year2022/day03.rs:16-18 | when exactly one item is shared, it is the one found |
| Rucksack.Misplaced | src/year2022/day03.rs:15-18 | the item found lies in both halves split at len / 2 |
| Rucksack.Part1 | src/year2022/day03.rs:11-23 | panics exactly when some rucksack has no shared item; otherwise at most 52 per rucksack |
| Rucksack.BadgedGroupsComplete | src/year2022/day03.rs:29-33 | when every group has a badge, the lines come in whole groups of three |
| Rucksack.Part2 | src/year2022/day03.rs:25-41 | panics exactly when some group of three has no common item or is short; otherwise at most 52 per group |
| Cleanup.OverlapMeansShared | src/year2022/day04.rs:39 | the overlap test holds exactly when some section lies in both ranges |
| Cleanup.ContainsMeansSubset | src/year2022/day04.rs:27-28 | the containment test holds exactly when every section of one range lies in the other |
| Cleanup.CountContained | src/year2022/day04.rs:21-33 | at most one per pair |
| Cleanup.CountOverlapping | src/year2022/day04.rs:35-42 | at most one per pair |
| Cleanup.CountsSymmetric | src/year2022/day04.rs:27-39 | swapping the two ranges of every pair changes neither count |
| Cleanup.ContainedAreOverlapping | src/year2022/day04.rs:21-42 | every contained pair also overlaps, so part 2's count is at least part 1's |
| Marker.CharsMembers | src/year2022/day06.rs:8 | the set of a window holds exactly its characters |
| Marker.CharsCount | src/year2022/day06.rs:8-9 | the set of a window is as large as the window exactly when its characters are distinct |
| Marker.DistinctSnoc | src/year2022/day06.rs:8-9 | appending a character keeps a string distinct exactly when it is new |
| Marker.MarkerMeansDistinct | src/year2022/day06.rs:8-9 | the program's set-size test holds exactly when the window's characters are distinct |
| Marker.FindFrom | src/year2022/day06.rs:5-14 | the first window end from a given index whose window is distinct, and none exactly when no later window is |
| Marker.StartOfMessage | src/year2022/day06.rs:1-16 | panics exactly when no window is distinct or the window is empty; otherwise the end of the first distinct window |
| Marker.Part1 | src/year2022/day06.rs:18-20 | the end of the first window of 4 distinct characters |
| Marker.Part2 | src/year2022/day06.rs:22-24 | the end of the first window of 14 distinct characters |
| Trebuchet.FindFrom | src/year2023/day01.rs:20 | the first index from `i` where the name occurs, and none exactly when it occurs nowhere from there |
| Trebuchet.RFindBelow | src/year2023/day01.rs:33 | the last index below `i` where the name occurs, and none exactly when it occurs nowhere below |
| Trebuchet.FirstDigit | src/year2023/day01.rs:4-28 | the earliest digit character at or after `i`, found whenever one exists |
| Trebuchet.LastDigit | src/year2023/day01.rs:5-41 | the latest digit character below `i`, found whenever one exists |
| Trebuchet.FirstName | src/year2023/day01.rs:18-22 | the earliest occurrence among the spelled names, with its value, found whenever one exists |
| Trebuchet.LastName | src/year2023/day01.rs:31-35 | the latest occurrence among the spelled names, with its value, found whenever one exists |
| Trebuchet.LineValue1 | src/year2023/day01.rs:4-6 | a value exactly when the line holds a digit (otherwise the `unwrap` panics) |
| Trebuchet.LineValue1Meaning | src/year2023/day01.rs:4-6 | the value is ten times the first digit plus the last digit |
| Trebuchet.Total1 | src/year2023/day01.rs:3-8 | a total exactly when every line holds a digit |
| Trebuchet.Part1 | src/year2023/day01.rs:1-10 | panics exactly when some line has no digit; otherwise the sum of the line values |
| Trebuchet.OccursBounds | src/year2023/day01.rs:18-41 | every digit or name lies between the first and last occurrence found of its kind |
| Trebuchet.FirstValueSpec | src/year2023/day01.rs:18-44 | the first value is that of the earliest digit or name, and 0 when there is none |
| Trebuchet.LastValueSpec | src/year2023/day01.rs:31-45 | the corrected last value is that of the latest digit or name, and 0 when there is none |
| Trebuchet.LineValue2Meaning | src/year2023/day01.rs:44-46 | the corrected line value has the first occurrence's value as tens and the last occurrence's as units |
| Trebuchet.LastValueAsWritten | src/year2023/day01.rs:30-45 | as written, the last value agrees with the latest digit or name except on a line without digit characters whose last name starts at index 0, where it is 0 |
| Trebuchet.LineValue2AsWritten | src/year2023/day01.rs:30-46 | as written, the line value is the corrected one except on such a line, where the last value is missing from it |
| Trebuchet.NameAtStartOnly | src/year2023/day01.rs:35-45 | on the line "one" the code as written gives 10, the intended value 11 |
| Trebuchet.OneFacts | src/year2023/day01.rs:18-41 | in "one" there is no digit and the only name is "one" at index 0 |
| Trebuchet.LineValue2AsWrittenBelow | src/year2023/day01.rs:30-46 | a line's value as written is at most the intended one, and equal to it exactly when the line is not one without digit characters whose last name starts at index 0 |
| Trebuchet.Total2AsWrittenMeaning | src/year2023/day01.rs:12-51 | the program's total is at most the intended total, and equals it exactly when no line loses its last value |
| Trebuchet.Part2 | src/year2023/day01.rs:12-51 | the running sum of the line values as the code computes them |
| Cubes.ColourIndex | src/year2023/day02.rs:12-17 | red, green and blue are colours 0, 1 and 2; any other name panics |
| Cubes.LastCountAbsent | src/year2023/day02.rs:7 | a colour no entry names keeps the count 0 |
| Cubes.LastCountIsLastEntry | src/year2023/day02.rs:8-18 | a colour's count is the one its last entry gives |
| Cubes.ParseRecord | src/year2023/day02.rs:7-19 | panics exactly on an unreadable entry; otherwise each colour gets its last entry's count, or 0 |
| Cubes.ParseGame | src/year2023/day02.rs:4-21 | panics exactly on an unreadable handful; otherwise one parsed handful per record, in order |
| Cubes.Part1 | src/year2023/day02.rs:26-42 | at most 1 + ... + n; all ids when every game is possible with the bag (12, 13, 14), 0 when none is |
| Cubes.LeastBagIsLeast | src/year2023/day02.rs:48-53 | the componentwise maximum holds every handful, and every bag that holds them all holds it |
| Cubes.MinimalBag | src/year2023/day02.rs:48-53 | the loop computes the least bag holding every handful |
| Cubes.Part2 | src/year2023/day02.rs:44-59 | the sum over the games of the power of each game's least bag |
| Cubes.PossibleIffLeastBagFits | src/year2023/day02.rs:32-53 | a game is possible with a bag exactly when the bag holds its least bag |
| Schematic.CoveredGrow | src/year2023/day03.rs:36-44 | pushing a record keeps every covered column covered and covers the record's own columns |
| Schematic.ApartSnoc | src/year2023/day03.rs:36-44 | a record starting past the last one's end keeps the records apart |
| Schematic.RunEnds | src/year2023/day03.rs:27-40 | a run of digits bounded by non-digits or the row's ends is a maximal run with the value it reads |
| Schematic.DigitStep | src/year2023/day03.rs:27-33 | a digit opens or extends the current run and shifts its digit into the number |
| Schematic.RowSnoc | src/year2023/day03.rs:35-40 | recording a maximal run keeps the records maximal, apart and covering every digit so far |
| Schematic.PushStep | src/year2023/day03.rs:34-45 | a non-digit (or the row's end) after a run records exactly that run |
| Schematic.ScanRow | src/year2023/day03.rs:23-45 | the records of a row are its maximal digit runs, apart, and every digit of the row lies in one |
| Schematic.GridAppend | src/year2023/day03.rs:22-46 | appending a row's runs extends the scan of the rows so far, in row order |
| Schematic.FromStr | src/year2023/day03.rs:15-52 | the records are exactly the maximal digit runs of every row, row by row and left to right |
| Schematic.Get | src/year2023/day03.rs:54-62 | the grid's character inside the grid and '.' anywhere outside it |
| Schematic.SymbolBeforeStep | src/year2023/day03.rs:73-83 | each column the scan passes adds exactly the ring cells of that column |
| Schematic.NoSymbolBeforeRing | src/year2023/day03.rs:73-75 | no ring cell lies left of the left column |
| Schematic.IsPartNumber | src/year2023/day03.rs:72-83 | the OR over the calls is true exactly when some cell of the number's ring is a symbol |
| Schematic.Part1 | src/year2023/day03.rs:65-91 | the sum of the values of the scanned numbers with a symbol in their ring |
| Schematic.SumParts | src/year2023/day03.rs:70-88 | the running sum over the scanned numbers is the total value of those that are part numbers |
| Schematic.CheckStep | src/year2023/day03.rs:97-101 | checking a fresh cell adds the number to that cell's list exactly when it is a '*' |
| Schematic.RingUpToMembers | src/year2023/day03.rs:104-115 | the cells checked so far are the ring's cells left of the current column |
| Schematic.RingUpToStep | src/year2023/day03.rs:104-115 | each column adds three ring cells at the ends and two in between |
| Schematic.DoneIsAdded | src/year2023/day03.rs:103-116 | once every ring cell is checked the gears are those of the number added once per cell |
| Schematic.AddGears | src/year2023/day03.rs:104-115 | the gears after one number: its value appended to every '*' cell of its ring |
| Schematic.GearsOfMeaning | src/year2023/day03.rs:96-116 | the map holds exactly the '*' cells next to some number, each with the values of those numbers in scan order |
| Schematic.SumRatios | src/year2023/day03.rs:118-120 | the sum over the entries of the product of the two values where there are exactly two, in any order |
| Schematic.ScannedRanges | src/year2023/day03.rs:36-44 | every record's column range is non-empty |
| Schematic.CollectGears | src/year2023/day03.rs:103-116 | the loop over the numbers builds the gears map of all of them |
| Schematic.Part2 | src/year2023/day03.rs:93-123 | the sum of the gear ratios over the gears map of the scanned numbers |
| Scratchcards.ParseNumbers | src/year2023/day04.rs:7-8 | a set exactly when every token is a number, holding exactly the tokens' values |
| Scratchcards.Points | src/year2023/day04.rs:18-24 | 0 points exactly when a card has no match |
| Scratchcards.PointsDouble | src/year2023/day04.rs:20 | each match after the first doubles the points |
| Scratchcards.PointsAtLeastMatches | src/year2023/day04.rs:19-24 | the points are at least the number of matches |
| Scratchcards.Part1 | src/year2023/day04.rs:14-28 | the total is at least the number of cards with a match |
| Scratchcards.CountNoMatch | src/year2023/day04.rs:18-23 | at most the number of cards |
| Scratchcards.WonLater | src/year2023/day04.rs:36-38 | a card's count is final once the card itself is processed: later cards only add to cards after them |
| Scratchcards.CountIsCopies | src/year2023/day04.rs:33-39 | after all cards, each card's entry is its number of copies: one plus the copies won from earlier cards |
| Scratchcards.NothingPastTable | src/year2023/day04.rs:36-38 | when no card wins past the table, no entry is made past it |
| Scratchcards.PartialComplete | src/year2023/day04.rs:36-38 | winning all of a card's matches completes the count after that card |
| Scratchcards.CollectCopies | src/year2023/day04.rs:32-39 | every entry of the map, and every absent key's 0, is the count after all cards |
| Scratchcards.SumValues | src/year2023/day04.rs:41 | the sum of the map's values in any order |
| Scratchcards.Part2 | src/year2023/day04.rs:30-43 | the sum of the final counts over a set of cards outside which every count is 0 |
| Snafu.DigitOf | src/year2022/day25.rs:4-11 | a digit exactly for 2, 1, 0, '-' and '=', with values from 2 down to -2 |
| Snafu.DigitChar | src/year2022/day25.rs:26-33 | a remainder of 3 or 4 is written as a digit worth 5 less |
| Snafu.Encode | src/year2022/day25.rs:19-40 | the numeral is empty exactly when the number is not positive |
| Snafu.Rev | src/year2022/day25.rs:39 | the reverse: same length, each character mirrored |
| Snafu.SnafuToInt | src/year2022/day25.rs:1-17 | panics exactly on a foreign character; otherwise the numeral's value |
| Snafu.IntToSnafu | src/year2022/day25.rs:19-40 | the loop computes the numeral of the number |
| Snafu.CarryStep | src/year2022/day25.rs:24-34 | dividing with the carry for 3 and 4 is dividing n + 2, the digit making up the difference |
| Snafu.EncodeDigits | src/year2022/day25.rs:26-33 | every character written is a SNAFU digit |
| Snafu.RoundTrip | src/year2022/day25.rs:1-40 | decoding the numeral of a non-negative number gives the number back |
| Snafu.LeadingDigit | src/year2022/day25.rs:23-39 | a positive number's numeral starts with 1 or 2 |
| Snafu.Part1 | src/year2022/day25.rs:42-46 | panics exactly when a line holds a foreign character; otherwise the numeral of the sum of the lines' values |
| Snafu.DecodeAll | src/year2022/day25.rs:43 | one value per line, each the line's value |
| Snafu.DecodeAllAppend | src/year2022/day25.rs:43 | decoding one more line appends its value |
| Crates.Drawing | src/year2022/day05.rs:6-9 | the lines before the first label line: a prefix with no label line, followed by a label line if any remain |
| Crates.SlotsMeaning | src/year2022/day05.rs:12 | slot `i` is read exactly when the line has a character at column 4i+1 |
| Crates.WidthUpTo | src/year2022/day05.rs:12-18 | one past the last slot below `n` holding a crate; no crate at or past it |
| Crates.Width | src/year2022/day05.rs:14-16 | no line has a crate at or past the number of stacks |
| Crates.LettersEnd | src/year2022/day05.rs:12-18 | a line has no crate past its width |
| Crates.ColumnTop | src/year2022/day05.rs:17 | a stack's top crate is its letter in the first line that has one there |
| Crates.ColumnEmpty | src/year2022/day05.rs:13-17 | a stack no line fills is empty |
| Crates.ParseStacks | src/year2022/day05.rs:4-24 | the stacks drawn by the lines before the label line, bottom crate first |
| Crates.AddLine | src/year2022/day05.rs:11-20 | one more line puts its crates at the bottom of their stacks, growing the stacks as needed |
| Crates.PlaceLetter | src/year2022/day05.rs:13-19 | one round of the inner loop puts the crate drawn for stack `index` (if any) at the bottom of that stack, growing the stacks as needed, and leaves the later stacks for later rounds |
| Crates.ParseActions | src/year2022/day05.rs:26-43 | panics exactly on a malformed move line or a stack number 0; otherwise the moves in order with 0-based stacks |
| Crates.Moves | src/year2022/day05.rs:29-32 | only the move lines are kept |
| Crates.Reverse | src/year2022/day05.rs:58-60 | the reversal keeps the length |
| Crates.MoveNMeaning | src/year2022/day05.rs:58-65 | `count` single lifts succeed exactly when the source holds `count` crates, and land the top block reversed on the destination |
| Crates.MoveBlock | src/year2022/day05.rs:75-77 | succeeds exactly when both stacks exist and the source holds `count` crates |
| Crates.TotalUpdate | src/year2022/day05.rs:59-77 | replacing one stack changes the crate total by the difference of their sizes |
| Crates.MovesKeepCrates | src/year2022/day05.rs:57-78 | both cranes keep the number of stacks and crates and leave every other stack alone |
| Crates.CranesAgreeOnOne | src/year2022/day05.rs:57-78 | both cranes do the same for a move of at most one crate |
| Crates.Tops | src/year2022/day05.rs:68-80 | panics exactly when a stack is empty; otherwise each stack's top, in order |
| Crates.Part1Moves | src/year2022/day05.rs:57-66 | the loops perform the single-crate rearrangement, panicking when a pop finds an empty stack |
| Crates.MoveNStuck | src/year2022/day05.rs:59-63 | once a lift finds the source empty, more lifts fail too |
| Crates.RearrangeStuck | src/year2022/day05.rs:57-78 | once a rearrangement panics, every longer one does |
| Crates.Part2Moves | src/year2022/day05.rs:74-78 | the loop performs the block rearrangement, panicking on a short source |
| Crates.Solve | src/year2022/day05.rs:45-81 | parse, rearrange with the part's crane and read the tops |
| FileSystem.SplitSpace | src/year2022/day07.rs:42 | two parts exactly when the line has one space, split at it |
| FileSystem.Step | src/year2022/day07.rs:22-48 | one line: `cd` moves to the root, the parent (panicking at the root) or a child, adding it when new; `ls` changes nothing; `dir` and file lines add to the current directory only; panics on an unreadable file line |
| FileSystem.Build | src/year2022/day07.rs:16-52 | the replay keeps the root and current directory in the map and the map well formed |
| FileSystem.BuildFileSystem | src/year2022/day07.rs:16-52 | the loop replays the transcript line by line |
| FileSystem.BuildPanicStays | src/year2022/day07.rs:21-49 | once the replay panics, every longer transcript panics |
| FileSystem.PrefixTrans | src/year2022/day07.rs:26-35 | a prefix of a prefix is a prefix |
| FileSystem.SelfDescendant | src/year2022/day07.rs:54-68 | a directory is below itself |
| FileSystem.ChildDescendant | src/year2022/day07.rs:35-59 | a listed subdirectory is below its parent |
| FileSystem.DescendantsTrans | src/year2022/day07.rs:57-59 | what is below a descendant is below |
| FileSystem.DescendantsSplit | src/year2022/day07.rs:57-61 | the directories below `p` are `p` and those below its subdirectories |
| FileSystem.DescendantsShape | src/year2022/day07.rs:67 | storing sizes does not change what is below a directory |
| FileSystem.CompleteChild | src/year2022/day07.rs:57-59 | below a directory whose subtree is in the map, so is every subdirectory's |
| FileSystem.CompleteParent | src/year2022/day07.rs:57-59 | with every subdirectory's subtree in the map, so is the directory's |
| FileSystem.CompleteShape | src/year2022/day07.rs:67 | storing sizes keeps subtrees complete |
| FileSystem.MeasureDecreases | src/year2022/day07.rs:59 | the recursion into a subdirectory terminates |
| FileSystem.SizedFrame | src/year2022/day07.rs:59-67 | sizes below `p` stay right when only entries outside its subtree change |
| FileSystem.SizedIsDirSize | src/year2022/day07.rs:54-68 | stored sizes obeying the size equation are the directory sizes |
| FileSystem.SumFiles | src/year2022/day07.rs:63-65 | the sum of the file sizes in any order |
| FileSystem.ComputeDirectorySize | src/year2022/day07.rs:54-68 | panics exactly when a listed subdirectory below `path` is missing; otherwise sizes every directory below `path` and changes nothing else |
| FileSystem.ComputeSubdirectories | src/year2022/day07.rs:57-61 | panics exactly when a subdirectory's subtree is incomplete; otherwise sizes them all and sums their sizes |
| FileSystem.PendingNone | src/year2022/day07.rs:58-61 | with nothing pending, all subdirectories are sized and the total is their sum |
| FileSystem.ComputeChild | src/year2022/day07.rs:59-60 | one subdirectory computed and its size added |
| FileSystem.SubdirectorySizes | src/year2022/day07.rs:60 | the stored sizes added are the directory sizes |
| FileSystem.ChildStep | src/year2022/day07.rs:59 | computing one subdirectory keeps the ones done before and everything outside the subtree |
| FileSystem.SizeParent | src/year2022/day07.rs:63-67 | storing the subdirectory sum plus the file sizes sizes the directory |
| FileSystem.Preprocess | src/year2022/day07.rs:84-88 | panics exactly when the replay panics or the root's subtree is incomplete; otherwise every directory below the root is sized |
| FileSystem.FamilySplit | src/year2022/day07.rs:77-79 | the directories below a set of subdirectories are those below one plus those below the others |
| FileSystem.FamilyDisjoint | src/year2022/day07.rs:77-79 | distinct subdirectories of one directory have disjoint subtrees |
| FileSystem.FamilySum | src/year2022/day07.rs:77-79 | sums over the subtrees of sibling directories add up |
| FileSystem.SmallSumOverDescendants | src/year2022/day07.rs:70-82 | the recursive sum counts every directory below once, with its size when below 100000 |
| FileSystem.SmallDirectorySum | src/year2022/day07.rs:70-82 | the loop computes the recursive sum |
| FileSystem.Part1Meaning | src/year2022/day07.rs:90-93 | on a sized map the sum is that of the directory sizes below 100000 |
| FileSystem.SmallAgree | src/year2022/day07.rs:90-93 | the stored sizes below the root are the directory sizes |
| FileSystem.Part1 | src/year2022/day07.rs:90-93 | panics exactly when preprocessing does; otherwise the sum of the directory sizes below 100000 |
| FileSystem.Part2 | src/year2022/day07.rs:95-107 | panics exactly when a subtraction underflows; otherwise the smallest stored size above the amount to delete, or `usize::MAX` when there is none |
| Forest.Preprocess | src/year2022/day08.rs:85-94 | panics exactly on a non-digit; otherwise one height per character |
| Forest.Original | src/year2022/day08.rs:29-36 | the original cell lies in the grid |
| Forest.InView | src/year2022/day08.rs:29-36 | the cell of the view lies in the grid |
| Forest.OriginalBijective | src/year2022/day08.rs:29-36 | each view's coordinate map is a bijection of the square, inverted by `InView` |
| Forest.Get | src/year2022/day08.rs:20-27 | a height between 0 and 9 |
| Forest.GetIsOriginal | src/year2022/day08.rs:20-36 | each view shows the tree at its original coordinate |
| Forest.TallestBeforeMeaning | src/year2022/day08.rs:47-52 | a tree beats the running height exactly when it is taller than every tree before it |
| Forest.TallestIsMax | src/year2022/day08.rs:47-52 | the running height is the tallest of the trees before |
| Forest.VisibleFromSide | src/year2022/day08.rs:43-57 | exactly the trees taller than every tree before them in their row of the view |
| Forest.SeenStep | src/year2022/day08.rs:49-52 | one more tree is added exactly when it beats the running height |
| Forest.BorderVisible | src/year2022/day08.rs:46-53 | every border tree is visible |
| Forest.Part1 | src/year2022/day08.rs:96-118 | the number of trees visible from some side |
| Forest.Sight | src/year2022/day08.rs:65-75 | a view distance between 1 and the column |
| Forest.SightMeaning | src/year2022/day08.rs:65-75 | every tree in between is shorter and the tree at the distance, unless at the edge, is at least as tall |
| Forest.LastOfHeight | src/year2022/day08.rs:61-77 | the table's entry: a column before the current one, or -1 |
| Forest.LatestOf | src/year2022/day08.rs:68-75 | the latest of the table's columns over a range of heights |
| Forest.LatestIsLastAtLeast | src/year2022/day08.rs:68-75 | the latest over the heights from `lo` is the latest tree at least `lo` tall |
| Forest.LatestNone | src/year2022/day08.rs:61 | the table starts with no column |
| Forest.LatestStep | src/year2022/day08.rs:77 | recording a column moves the latest for its height only |
| Forest.SightFromLast | src/year2022/day08.rs:65-75 | the distance is measured to the latest tree at least as tall, or the edge |
| Forest.ViewDistance | src/year2022/day08.rs:64-75 | the loop over the heights computes the view distance |
| Forest.ProgressStep | src/year2022/day08.rs:79-80 | multiplying in the distance advances the scan by one cell |
| Forest.WeightStep | src/year2022/day08.rs:79-80 | only the cell scanned changes its factor |
| Forest.ProgressNextRow | src/year2022/day08.rs:60-63 | moving to the next row changes no factor |
| Forest.ComputeScenic | src/year2022/day08.rs:59-83 | every cell's score is multiplied by its view distance in the view, border cells by 1 |
| Forest.ScenicRow | src/year2022/day08.rs:61-81 | one row of the view with a fresh table |
| Forest.ProgressDone | src/year2022/day08.rs:60-82 | after the last row every cell has its factor |
| Forest.Scores | src/year2022/day08.rs:123-127 | the four views give every cell the product of its four view distances |
| Forest.Part2 | src/year2022/day08.rs:120-131 | panics exactly on an empty grid; otherwise the greatest scenic score |
| Forest.Highest | src/year2022/day08.rs:128 | the maximum over the table is one of its entries and no entry exceeds it |
| Rope.TouchingMeaning | src/year2022/day09.rs:12-17 | touching is Chebyshev distance at most 1, reflexive and symmetric |
| Rope.MoveHead | src/year2022/day09.rs:27-33 | panics exactly on a letter other than U, D, R and L; otherwise the head moves one unit |
| Rope.FollowMeaning | src/year2022/day09.rs:37-50 | a touching knot stays; any other moves by the sign of the difference on each axis |
| Rope.FollowTouches | src/year2022/day09.rs:36-51 | a knot that touched its leader touches it again after following, having moved at most one unit per axis |
| Rope.Dragged | src/year2022/day09.rs:36-51 | the first knots after the head moves, with the head in front |
| Rope.DraggedTaut | src/year2022/day09.rs:36-51 | dragging a taut rope keeps it taut, every knot moving at most one unit per axis |
| Rope.Repeat | src/year2022/day09.rs:25 | `amount` copies of one step |
| Rope.RepeatAppend | src/year2022/day09.rs:25 | repeating m + n times is repeating m then n times |
| Rope.Walk | src/year2022/day09.rs:24-55 | a walk keeps the number of knots |
| Rope.WalkSnoc | src/year2022/day09.rs:25-54 | one more step moves the rope and records its last knot, or panics |
| Rope.WalkRepeat | src/year2022/day09.rs:25-54 | one more repetition extends the walk, or the whole action panics |
| Rope.PanicRepeat | src/year2022/day09.rs:25-32 | a panic in some repetition is a panic of the action |
| Rope.RepeatSplit | src/year2022/day09.rs:25 | the steps so far plus the rest of the repetitions are the whole action |
| Rope.WalkPanicStays | src/year2022/day09.rs:32 | once a walk panics, every longer walk does |
| Rope.MovesAppend | src/year2022/day09.rs:24-25 | the steps of two lists of actions are the steps of each, in order |
| Rope.WalkTaut | src/year2022/day09.rs:20-58 | a walk keeps the rope taut, and the start and the last knot's position are visited |
| Rope.OriginVisited | src/year2022/day09.rs:22-57 | the origin is visited, so at least one position is counted |
| Rope.StepRope | src/year2022/day09.rs:26-51 | one step in place: moves the head and each knot in turn, or reports an unknown direction |
| Rope.StepTimes | src/year2022/day09.rs:25-54 | the inner loop performs `amount` steps and records the last knot after each |
| Rope.SimulateRope | src/year2022/day09.rs:20-58 | panics exactly when the walk from the origin does; otherwise the number of positions of the last knot |
| Cathode.FromString | src/year2022/day10.rs:7-15 | `noop` gives Nop, `addx` the number from index 5 (panicking when there is none), anything else None |
| Cathode.Preprocess | src/year2022/day10.rs:25-31 | panics exactly when some line is not an instruction; otherwise one instruction per line |
| Cathode.Execute | src/year2022/day10.rs:17-22 | Nop takes one cycle and keeps the register; Add takes two and adds its value |
| Cathode.DuringMeaning | src/year2022/day10.rs:40-52 | during a cycle the register holds the value after the instructions that ended before it |
| Cathode.CyclesFirst | src/year2022/day10.rs:50 | the cycles of a program are those of its first instruction plus the rest |
| Cathode.CyclesMono | src/year2022/day10.rs:50 | a prefix of a program takes no more cycles |
| Cathode.DuringPastEnd | src/year2022/day10.rs:40-52 | no register value exists past the program's last cycle |
| Cathode.Part1 | src/year2022/day10.rs:33-55 | the sum of the signal strengths at cycles 20, 60, …, 220 |
| Cathode.Part2 | src/year2022/day10.rs:57-74 | panics exactly when the program runs past pixel 239; otherwise each pixel is lit exactly when the sprite covers it during its cycle |
| Cathode.PanicPastScreen | src/year2022/day10.rs:66-70 | an instruction that ends past pixel 239 means the program does |
| Monkeys.Inspect | src/year2022/day11.rs:70-79 | the new worry level and the target the divisibility test picks; panics on a zero divisor |
| Monkeys.ThrowFirst | src/year2022/day11.rs:70-79 | the front item leaves the monkey and joins the end of its target's queue; nothing else changes |
| Monkeys.ThrowAll | src/year2022/day11.rs:69-80 | the monkey's queue is empty afterwards and the rules are unchanged |
| Monkeys.Turn | src/year2022/day11.rs:68-80 | a turn keeps the rules and one count per monkey |
| Monkeys.TurnsFrom | src/year2022/day11.rs:67-81 | the remaining turns keep the rules |
| Monkeys.Round | src/year2022/day11.rs:67-81 | a round keeps the rules |
| Monkeys.Rounds | src/year2022/day11.rs:66-82 | the rounds keep the rules |
| Monkeys.Business | src/year2022/day11.rs:84-85 | panics exactly with fewer than two monkeys; otherwise the product of the two largest counts |
| Monkeys.Without | src/year2022/day11.rs:84-85 | every entry other than the two picked occurs more often than among them |
| Monkeys.RemoveAt | src/year2022/day11.rs:84-85 | taking an entry out leaves one occurrence fewer |
| Monkeys.TopIndices | src/year2022/day11.rs:84-85 | two different monkeys hold the two largest counts |
| Monkeys.OthersBelow | src/year2022/day11.rs:84-85 | every other count is at most the second largest |
| Monkeys.BusinessIsTopTwo | src/year2022/day11.rs:84-85 | the business is the product of the counts of the two most active monkeys |
| Monkeys.RunRounds | src/year2022/day11.rs:60-86 | the loops play the rounds and return their business |
| Monkeys.PlayRound | src/year2022/day11.rs:67-81 | the loop plays one round |
| Monkeys.PlayTurn | src/year2022/day11.rs:68-80 | the loop plays one turn |
| Monkeys.Part1 | src/year2022/day11.rs:94-98 | 20 rounds dividing by 3 |
| Monkeys.Part2 | src/year2022/day11.rs:100-108 | 10000 rounds reducing modulo the product of the divisors |
| Monkeys.ItemCountUpdate | src/year2022/day11.rs:70-79 | replacing one monkey changes the item total by the difference of their queues |
| Monkeys.ThrowFirstKeepsItems | src/year2022/day11.rs:70-79 | a throw keeps the number of items |
| Monkeys.ThrowAllKeepsItems | src/year2022/day11.rs:69-80 | a monkey's throws keep the number of items |
| Monkeys.TurnsKeepItems | src/year2022/day11.rs:67-81 | the turns keep the number of items |
| Monkeys.RoundsKeepItems | src/year2022/day11.rs:66-82 | no round creates or loses an item |
| Monkeys.ModUnique | src/year2022/day11.rs:106 | a remainder is pinned down by its quotient equation |
| Monkeys.MulAtLeast | src/year2022/day11.rs:102-105 | a product of positive numbers is at least each factor |
| Monkeys.ModShift | src/year2022/day11.rs:106 | adding a multiple keeps the remainder |
| Monkeys.DifferenceMultiple | src/year2022/day11.rs:106 | numbers differing by a multiple have the same remainder |
| Monkeys.ExecuteCongruent | src/year2022/day11.rs:9-15 | every operation maps congruent levels to congruent levels |
| Monkeys.Quotients | src/year2022/day11.rs:106 | congruent numbers differ by a multiple |
| Monkeys.SquareCongruent | src/year2022/day11.rs:13 | squaring keeps congruence |
| Monkeys.MultiplyCongruent | src/year2022/day11.rs:12 | multiplying keeps congruence |
| Monkeys.TruncModCongruent | src/year2022/day11.rs:106 | Rust's truncating remainder is congruent to the number |
| Monkeys.DivisorTest | src/year2022/day11.rs:73 | congruent levels pass the same test by any divisor of the modulus |
| Monkeys.FactorDividesAll | src/year2022/day11.rs:102-105 | the product of positive divisors is positive and a multiple of each |
| Monkeys.ThrowFirstCongruent | src/year2022/day11.rs:70-79 | a throw with reduced levels goes where the unreduced throw goes |
| Monkeys.ThrowAllCongruent | src/year2022/day11.rs:69-80 | a monkey's throws with reduced levels agree with the unreduced ones |
| Monkeys.TurnsCongruent | src/year2022/day11.rs:67-81 | the remaining turns agree, counts included |
| Monkeys.TurnCongruent | src/year2022/day11.rs:68-80 | a turn agrees, counts included |
| Monkeys.RoundsCongruent | src/year2022/day11.rs:66-82 | the rounds agree, counts included |
| Monkeys.Part2Meaning | src/year2022/day11.rs:100-108 | reducing modulo the product of the divisors leaves every throw and count as with unbounded levels |
| Packets.Size | src/year2022/day13.rs:9-12 | every packet has at least one node |
| Packets.Items | src/year2022/day13.rs:16-30 | the list a packet is compared by, never larger than the packet |
| Packets.ComparePromoted | src/year2022/day13.rs:14-33 | every comparison is a comparison of lists, an integer promoted to the list holding it |
| Packets.IntAsList | src/year2022/day13.rs:19-28 | an integer compares exactly as the one-element list holding it, on either side |
| Packets.PrefixIsLess | src/year2022/day13.rs:21-29 | a proper prefix compares smaller |
| Packets.FirstDifference | src/year2022/day13.rs:21-29 | lists compare by their first differing position |
| Packets.CompareReflexive | src/year2022/day13.rs:14-33 | every packet compares equal to itself |
| Packets.ListsReflexive | src/year2022/day13.rs:29 | every list compares equal to itself |
| Packets.CompareFlip | src/year2022/day13.rs:14-33 | swapping the operands flips the outcome |
| Packets.ListsFlip | src/year2022/day13.rs:29 | swapping two lists flips the outcome |
| Packets.AtMostTransitive | src/year2022/day13.rs:14-33 | the order is transitive |
| Packets.AtMostTransitiveIf | src/year2022/day13.rs:14-33 | transitivity as an implication |
| Packets.ListsTransitive | src/year2022/day13.rs:29 | the order on lists is transitive |
| Packets.LessThenAtMost | src/year2022/day13.rs:14-33 | smaller followed by no larger is smaller |
| Packets.TotalPreorder | src/year2022/day13.rs:14-115 | the comparison is a total preorder, as `sort` requires |
| Packets.DigitRun | src/year2022/day13.rs:58 | the longest run of digits at the start |
| Packets.ParseInt | src/year2022/day13.rs:57-61 | a parsed integer consumes input and fits in a `u32` |
| Packets.ParseElement | src/year2022/day13.rs:42-44 | a parsed packet consumes input and all its numbers fit in a `u32` |
| Packets.ParseList | src/year2022/day13.rs:46-55 | a parsed list consumes input, is a list, and all its numbers fit in a `u32` |
| Packets.Elements | src/year2022/day13.rs:50 | the elements never consume more than the input, and their numbers fit in a `u32` |
| Packets.MoreElements | src/year2022/day13.rs:50 | the further elements never consume more than the input, and keep the numbers within a `u32` |
| Packets.DigitChar | src/year2022/day13.rs:58 | the digit character of a value below 10 |
| Packets.Decimal | src/year2022/day13.rs:58-59 | the decimal digits of a number read back as the number |
| Packets.ParseShow | src/year2022/day13.rs:42-61 | the text of a packet parses back to the packet, leaving what follows |
| Packets.DigitRunOf | src/year2022/day13.rs:58 | a run of digits before a boundary is read in full |
| Packets.ElementsShow | src/year2022/day13.rs:50 | the text of the elements parses back to them |
| Packets.MoreShow | src/year2022/day13.rs:50 | the text of further elements parses back to them |
| Packets.ParsePacket | src/year2022/day13.rs:69-72 | a line's packet, whose numbers fit in a `u32`; the `unwrap` panics when the line does not start with one |
| Packets.ParsePacketShow | src/year2022/day13.rs:42-72 | a packet's text parses back to it |
| Packets.ParsePacketIgnoresRest | src/year2022/day13.rs:69-72 | only the packet is kept: text after it that does not continue a number is ignored |
| Packets.ParsePairs | src/year2022/day13.rs:66-76 | one pair per group of three lines |
| Packets.Part1 | src/year2022/day13.rs:79-91 | at most the sum of all indices; all of it when every pair is in order, 0 when none is |
| Packets.Part1Swapped | src/year2022/day13.rs:83 | swapping the pairs sums the indices of the pairs whose left is larger |
| Packets.Insert | src/year2022/day13.rs:115 | insertion adds one element |
| Packets.InsertMultiset | src/year2022/day13.rs:115 | insertion adds the element and keeps the others |
| Packets.CountAppend | src/year2022/day13.rs:115-118 | counting over a concatenation adds up |
| Packets.CountInsert | src/year2022/day13.rs:115-118 | inserting adds one to the count exactly when the element is at most the bound |
| Packets.InsertShape | src/year2022/day13.rs:115 | the element goes before the first one it is smaller than |
| Packets.CountSplit | src/year2022/day13.rs:115-118 | in a list split by a bound the count is the split point |
| Packets.SortedSplice | src/year2022/day13.rs:115 | splicing an element at its place keeps a list sorted |
| Packets.InsertSorted | src/year2022/day13.rs:115-118 | into a sorted list the element goes after exactly the elements at most it, and the list stays sorted |
| Packets.InsertKeepsSorted | src/year2022/day13.rs:115 | insertion keeps a list sorted |
| Packets.SortPackets | src/year2022/day13.rs:115 | sorted, and a permutation of the packets |
| Packets.CountSort | src/year2022/day13.rs:115-118 | sorting keeps every count |
| Packets.Position | src/year2022/day13.rs:117-118 | the first index holding the packet, found exactly when it occurs |
| Packets.PositionAt | src/year2022/day13.rs:117-118 | the first index is the one before which it does not occur |
| Packets.Flatten | src/year2022/day13.rs:110 | two packets per pair |
| Packets.Part2 | src/year2022/day13.rs:95-122 | the dividers are always found, so the product never panics |
| Packets.DecoderKey | src/year2022/day13.rs:110-121 | the dividers are always found after sorting |
| Packets.SortKeeps | src/year2022/day13.rs:115 | sorting keeps every packet |
| Packets.DividersOrdered | src/year2022/day13.rs:111-112 | `[[2]]` is smaller than `[[6]]` |
| Packets.InsertTwo | src/year2022/day13.rs:113-118 | inserting both dividers puts each after the packets at most it |
| Packets.FirstPlaced | src/year2022/day13.rs:117 | `[[2]]` lands after the packets at most it |
| Packets.SecondPlaced | src/year2022/day13.rs:118 | `[[6]]` lands after the packets at most it and `[[2]]` |
| Packets.SecondAfterFirst | src/year2022/day13.rs:117-118 | `[[6]]` goes after `[[2]]` |
| Packets.NotInSplice | src/year2022/day13.rs:118 | splicing `[[2]]` in adds no `[[6]]` |
| Packets.SortTwo | src/year2022/day13.rs:113-115 | sorting with the dividers appended inserts them into the sorted packets |
| Packets.Part2Positions | src/year2022/day13.rs:95-122 | with no divider among the input, the key is (packets at most `[[2]]` + 1) × (packets at most `[[6]]` + 2) |
| Packets.DecoderKeyCounts | src/year2022/day13.rs:110-121 | sorting with two ordered dividers places both by counting |
| FallingSand.SegmentEnds | src/year2022/day14.rs:49-61 | a segment holds both its corners |
| FallingSand.CornersOf | src/year2022/day14.rs:33-39 | the corners are exactly the points of the paths |
| FallingSand.HighestY | src/year2022/day14.rs:32-37 | the running maximum starts at 0 |
| FallingSand.BoundingBox | src/year2022/day14.rs:30-39 | the running values are reached by some corner and bound all of them |
| FallingSand.FallLands | src/year2022/day14.rs:88-129 | a grain rests on its start or a free cell with the three cells below taken, inside the cone below its start |
| FallingSand.FloorCatches | src/year2022/day14.rs:99-113 | with the floor every grain comes to rest |
| FallingSand.CellInCone | src/year2022/day14.rs:88-129 | the resting cell lies in the cone below the source |
| FallingSand.ConeShrinks | src/year2022/day14.rs:125 | each new grain leaves less of the cone to fill |
| FallingSand.PourStep | src/year2022/day14.rs:173-192 | a grain resting below the source counts once and leaves less of the cone |
| FallingSand.PourFills | src/year2022/day14.rs:173-192 | the count is the number of new sand cells |
| FallingSand.Bounds | src/year2022/day14.rs:30-39 | the loops compute the corners' bounding box |
| FallingSand.DrawRocks | src/year2022/day14.rs:47-63 | panics exactly on an empty path; otherwise the grid shows exactly the rock of the paths |
| FallingSand.DrawSegment | src/year2022/day14.rs:49-61 | one segment is drawn as a column or a row |
| FallingSand.LayFloor | src/year2022/day14.rs:65-69 | the lowest cell of every column becomes rock and nothing else changes |
| FallingSand.WindowAt | src/year2022/day14.rs:84-86 | a grid cell shows the cave's tile |
| FallingSand.WindowSettle | src/year2022/day14.rs:125 | setting a cell to sand shows that cell settled |
| FallingSand.Cave.Get | src/year2022/day14.rs:84-86 | the tile at the position |
| FallingSand.Cave.Set | src/year2022/day14.rs:80-82 | only the tile at the position changes |
| FallingSand.Cave.GrowLeft | src/year2022/day14.rs:96-102 | a column of air (with its floor) on the left still shows the cave |
| FallingSand.Cave.GrowRight | src/year2022/day14.rs:104-110 | a column of air (with its floor) on the right still shows the cave |
| FallingSand.Cave.SetSand | src/year2022/day14.rs:125 | the grid shows the cave with the grain settled |
| FallingSand.Cave.MakeRoom | src/year2022/day14.rs:95-110 | a column is added on each side the grain would look past; as the grain is off column 0, `x_min` stays a `usize` |
| FallingSand.Cave.Probe | src/year2022/day14.rs:117-127 | the first free cell of below, below-left and below-right, where the grain falls on, or none when it rests |
| FallingSand.Cave.DropSand | src/year2022/day14.rs:88-129 | panics once the grain is in column 0; otherwise the grain's resting cell, or none once it would fall past `y_max` with no floor; the grid shows it settled |
| FallingSand.StartWindow | src/year2022/day14.rs:45-69 | a grid of the rock and floor shows the cave with no sand |
| FallingSand.RockCellsBoxed | src/year2022/day14.rs:47-63 | every rock cell lies in the corners' box |
| FallingSand.PathCellsBoxed | src/year2022/day14.rs:48-62 | every cell of one path lies in the box of its corners |
| FallingSand.CornersBoxed | src/year2022/day14.rs:30-43 | the corners lie in the computed box |
| FallingSand.BoundsCross | src/year2022/day14.rs:30-45 | the running bounds cross exactly when there is no corner |
| FallingSand.CornersEmpty | src/year2022/day14.rs:33-39 | there is no corner exactly when every path is empty |
| FallingSand.DrawCave | src/year2022/day14.rs:45-69 | panics exactly on an empty path; otherwise shows the rock and the floor |
| FallingSand.FromRocks | src/year2022/day14.rs:29-78 | panics exactly with no corner or an empty path; otherwise a cave over the corners' box showing the rock and the floor |
| FallingSand.Drop | src/year2022/day14.rs:88-129 | a grain in column 0 panics on the `usize` subtraction; otherwise the drop is the fall, and a grain further from column 0 than from the lowest row never panics |
| FallingSand.Poured | src/year2022/day14.rs:163-195 | the count as the code runs it never panics when the source is further from column 0 than from the lowest row |
| FallingSand.PouredIsPour | src/year2022/day14.rs:163-195 | unless it panics, the count as the code runs it is the count of grains that rest |
| FallingSand.PouredStep | src/year2022/day14.rs:173-192 | a grain resting below the source adds one to the count as the code runs it |
| FallingSand.ShallowPour | src/year2022/day14.rs:163-195 | a cave whose lowest row is above 500 never panics, and its count is the count of grains that rest |
| FallingSand.LowestCorner | src/year2022/day14.rs:30-39 | on `usize` corners the cave's first column is at least 0 |
| FallingSand.Part1AsWritten | src/year2022/day14.rs:163-178 | part 1 as written, whenever it returns, agrees with the corrected count |
| FallingSand.Part1 | src/year2022/day14.rs:163-178 | the corrected count: the grains that rest before one falls into the abyss or rests on the source, or a panic when a grain reaches column 0 first |
| FallingSand.Part2 | src/year2022/day14.rs:180-195 | with the floor, the grains poured until one rests on the source, that one included, or a panic when a grain reaches column 0 first |
| FallingSand.StillBlocked | src/year2022/day14.rs:125 | the cells below a grain stay taken when it settles |
| FallingSand.RestsHere | src/year2022/day14.rs:117-127 | a grain off column 0 with the three cells below taken rests where it is |
| FallingSand.NeverStops | src/year2022/day14.rs:173-175 | once a grain rests on the source, the loop of part 1 as written never stops |
| FallingSand.CupCells | src/year2022/day14.rs:47-63 | the cup's rock and lowest row |
| FallingSand.CupFirstGrain | src/year2022/day14.rs:88-129 | the first grain in the cup rests at (500, 1) |
| FallingSand.CupSecondGrain | src/year2022/day14.rs:88-129 | the second grain rests on the source |
| FallingSand.SecondOnSource | src/year2022/day14.rs:173-175 | when the second grain rests on the source, part 1 as written never stops while the corrected count is 2 |
| FallingSand.CupOverflows | src/year2022/day14.rs:163-178 | on the cup, part 1 as written never returns and the corrected count is 2 |
| FallingSand.Cave.constructor | src/year2022/day14.rs:20-27 | the cave holds the given grid, column range, lowest rock row and floor flag |
| Beacons.MakeReading | src/year2022/day15.rs:27-45 | the radius is the sensor's distance to its beacon, so the reading covers both |
| Beacons.CoversOnRow | src/year2022/day15.rs:47-66 | on a row it reaches, a reading covers exactly the positions within its half-width of the sensor |
| Beacons.RowSlices | src/year2022/day15.rs:54-70 | one non-empty slice per reading reaching the row, together covering exactly the covered positions |
| Beacons.SliceStep | src/year2022/day15.rs:57-69 | adding a reaching reading's slice keeps the union equal to the covered positions |
| Beacons.NoSliceStep | src/year2022/day15.rs:57 | a reading that does not reach the row adds nothing |
| Beacons.InsertPair | src/year2022/day15.rs:72 | insertion keeps the slices sorted and adds exactly one |
| Beacons.SortPairs | src/year2022/day15.rs:72 | sorted, and a permutation of the slices |
| Beacons.PermutedUnion | src/year2022/day15.rs:72 | a permutation covers the same positions |
| Beacons.OverlapLine | src/year2022/day15.rs:53-86 | panics exactly when no reading reaches the row; otherwise disjoint intervals covering exactly the covered positions |
| Beacons.MergeSorted | src/year2022/day15.rs:73-85 | merging the sorted slices gives disjoint intervals whose union is the union of the slices |
| Beacons.MergeStep | src/year2022/day15.rs:77-83 | extending the last interval or appending a new one keeps the intervals disjoint with the same union |
| Beacons.Span | src/year2022/day15.rs:160 | the positions of an interval |
| Beacons.SpanSize | src/year2022/day15.rs:160 | an interval holds `end - start + 1` positions |
| Beacons.CoverBelow | src/year2022/day15.rs:77-83 | no covered position lies past the last interval |
| Beacons.CoverMeansUnion | src/year2022/day15.rs:158-161 | the covered set is the union of the intervals |
| Beacons.LengthsCount | src/year2022/day15.rs:158-161 | for disjoint intervals the sum of the lengths is the number of positions covered |
| Beacons.OccupiedLine | src/year2022/day15.rs:88-101 | exactly the sensors and beacons on the row |
| Beacons.OccupiedCovered | src/year2022/day15.rs:163-164 | every sensor and beacon on the row is covered, so subtracting them is exact |
| Beacons.Part1 | src/year2022/day15.rs:150-167 | panics exactly when no reading reaches the row; otherwise the covered positions minus the sensors and beacons on the row |
| Beacons.CountMeaning | src/year2022/day15.rs:158-164 | the count does not depend on which disjoint cover is summed |
| Beacons.CoveredCount | src/year2022/day15.rs:158-161 | the sum of the lengths of disjoint intervals is the number of positions they cover |
| Beacons.OccupiedSet | src/year2022/day15.rs:88-101 | the sensors and beacons on the row |
| Beacons.CornersCoverRect | src/year2022/day15.rs:111-119 | a reading covering the four corners of a rectangle covers all of it |
| Beacons.FindUncoveredAsWritten | src/year2022/day15.rs:103-148 | as written, whenever the search returns it is sound: a position found is covered by no reading, and none found means every position of the rectangle is covered |
| Beacons.EmptyRectLoops | src/year2022/day15.rs:103-148 | as written, the empty rectangle x in [1, 0] is its own first quadrant and never finishes |
| Beacons.ColumnNeverFinishes | src/year2022/day15.rs:103-148 | as written, the search over x in [0, 0], y in [0, 1] never returns although (0, 1) is uncovered |
| Beacons.NegativeSquareLoops | src/year2022/day15.rs:127-131 | as written, the truncating midpoint makes [-3, -2] × [-3, -2] its own first quadrant |
| Beacons.QuadrantSmaller | src/year2022/day15.rs:131-143 | every corrected quadrant is smaller than its rectangle |
| Beacons.ProductSmaller | src/year2022/day15.rs:131-143 | a smaller side gives a smaller area |
| Beacons.FindUncovered | src/year2022/day15.rs:103-148 | the corrected search returns a position in the rectangle that no reading covers, or none when every position is covered |
| Beacons.SearchQuadrants | src/year2022/day15.rs:127-148 | searching the four quadrants around the (floor) midpoint in the program's order returns a position of the rectangle that no reading covers, or none exactly when every position of the rectangle is covered |
| Beacons.AllCovered | src/year2022/day15.rs:111-119 | when some reading covers the corners, every position of the rectangle is covered |
| Beacons.Part2 | src/year2022/day15.rs:169-178 | panics exactly when every position of the square is covered; otherwise the tuning frequency of an uncovered position |
| Valves.IndexOf | src/year2022/day16.rs:37-41 | the index of the last room with the name, or none when no room has it |
| Valves.ResolveAll | src/year2022/day16.rs:60 | the indices of the named rooms; panics exactly when a name has no room |
| Valves.Adjacency | src/year2022/day16.rs:59-61 | the tunnels as room indices; panics exactly when a tunnel names no room |
| Valves.Reverse | src/year2022/day16.rs:59-61 | the reversed walk |
| Valves.ReversePath | src/year2022/day16.rs:59-61 | on an undirected map a reversed walk is a walk back |
| Valves.DistanceSymmetric | src/year2022/day16.rs:55-56 | on an undirected map the hop count does not depend on the direction |
| Valves.Enqueue | src/year2022/day16.rs:59-61 | each tunnel is enqueued one hop further |
| Valves.ClosedReach | src/year2022/day16.rs:48-62 | when every recorded room's tunnels are recorded, every reachable room is recorded within its walk length |
| Valves.NextPaths | src/year2022/day16.rs:59-61 | each enqueued room's walk extends the current one |
| Valves.FifoSkip | src/year2022/day16.rs:49-53 | dequeuing keeps the queue in hop order |
| Valves.FifoVisit | src/year2022/day16.rs:49-61 | recording and enqueuing one hop further keeps the queue in hop order |
| Valves.ClosureSkip | src/year2022/day16.rs:51-53 | skipping a recorded room keeps every tunnel accounted for |
| Valves.ClosureVisit | src/year2022/day16.rs:55-61 | recording a room and enqueuing its tunnels keeps every tunnel accounted for |
| Valves.WitnessedSkip | src/year2022/day16.rs:51-53 | skipping keeps a walk for every recorded and queued room |
| Valves.WitnessedVisit | src/year2022/day16.rs:55-61 | recording keeps a walk for every recorded and queued room |
| Valves.FrontierSkip | src/year2022/day16.rs:51-53 | dequeuing a recorded room keeps the search state |
| Valves.FrontierVisit | src/year2022/day16.rs:55-61 | recording the dequeued room and enqueuing its tunnels keeps the search state |
| Valves.FrontierDone | src/year2022/day16.rs:48 | once the queue is empty the recorded rooms are exactly the reachable ones, each with its fewest hops |
| Valves.VisitFrom | src/year2022/day16.rs:44-62 | one search writes the fewest hops to every reachable room at both mirrored entries and changes nothing else |
| Valves.WrittenDone | src/year2022/day16.rs:48-62 | the written entries are the hop counts of the reachable rooms |
| Valves.Record | src/year2022/day16.rs:55-56 | the two writes keep the table square |
| Valves.Filled | src/year2022/day16.rs:55-56 | the table after the writes stays square |
| Valves.FilledEmpty | src/year2022/day16.rs:45 | nothing recorded leaves the table as it was |
| Valves.FilledStep | src/year2022/day16.rs:55-57 | recording one more room adds exactly its two entries |
| Valves.ComputeDistances | src/year2022/day16.rs:34-66 | a square symmetric table with zero diagonal; on an undirected map each entry is the fewest hops between connected rooms, others 0 |
| Valves.UnvisitedMark | src/year2022/day16.rs:102-106 | marking a room takes its flow out of the available total |
| Valves.MulMono | src/year2022/day16.rs:84 | multiplying by a larger time gives more |
| Valves.ChildBound | src/year2022/day16.rs:84-109 | the bound of a move stays within the bound of the state it leaves |
| Valves.ChildBound2 | src/year2022/day16.rs:131-174 | the same for two explorers |
| Valves.FindPressure1 | src/year2022/day16.rs:76-113 | never lowers the best; unchanged when the bound cannot beat it; never above the bound; at least the pressure of opening the current valve; restores the visited flags |
| Valves.FindPressure2 | src/year2022/day16.rs:123-202 | the same for two explorers |
| Valves.MoveBoth | src/year2022/day16.rs:146-180 | the first loop keeps the best between its old value and the bound and restores the flags |
| Valves.MoveSecond | src/year2022/day16.rs:182-201 | the second loop keeps the best between its old value and the bound and restores the flags |
| Valves.FirstIndexOf | src/year2022/day16.rs:209-213 | the first room with the name, or none |
| Valves.Flows | src/year2022/day16.rs:216 | one flow rate per room |
| Valves.UnvisitedAllButOne | src/year2022/day16.rs:216-219 | with only the start visited, the available flow plus the start's is the total |
| Valves.NoneVisited | src/year2022/day16.rs:218 | with nothing visited every flow is available |
| Valves.StartVisited | src/year2022/day16.rs:218-219 | only the start is visited and every other flow is available |
| Valves.Part1 | src/year2022/day16.rs:204-230 | panics exactly when a tunnel names no room or there is no "AA"; otherwise between 30 × the start's flow and 30 × the total flow |
| Valves.Part2 | src/year2022/day16.rs:232-258 | panics exactly when a tunnel names no room or there is no "AA"; otherwise at most 26 × the total flow |
| Robots.FromCosts | src/year2022/day19.rs:12-25 | a four-by-four cost table with the parsed costs at their kinds: ore and clay robots cost ore, obsidian robots ore and clay, geode robots ore and obsidian |
| Robots.Mined | src/year2022/day19.rs:48-52 | every robot adds one unit of its kind and one minute passes |
| Robots.Built | src/year2022/day19.rs:96-100 | the robot's cost is paid out of the mined resources and one robot of its kind is added |
| Robots.AffordableAfterMining | src/year2022/day19.rs:88-99 | a robot affordable before mining is affordable after it, so the subtraction cannot underflow |
| Robots.Collectable | src/year2022/day19.rs:58-80 | the collectable amount is at least what is held |
| Robots.Buildable | src/year2022/day19.rs:64-78 | between 1 and the minutes left |
| Robots.PruneBound | src/year2022/day19.rs:56-80 | the bound is at least the geodes held after mining |
| Robots.CeilingStep | src/year2022/day19.rs:48-107 | a minute with at most one new geode robot stays within the parent's ceiling |
| Robots.MulLe | src/year2022/day19.rs:60 | multiplying by a larger number gives more |
| Robots.TriangleStep | src/year2022/day19.rs:60 | the triangle numbers grow by t - 1 |
| Robots.PruneAt | src/year2022/day19.rs:55-84 | the bound the search prunes at, the written one or the ceiling, is never below the geodes held after mining |
| Robots.ExploreCeiling | src/year2022/day19.rs:55-108 | no state of the full search tree below a state beats its ceiling (one new geode robot per minute), so pruning at the ceiling is safe |
| Robots.BuildUpToCeiling | src/year2022/day19.rs:86-103 | no child that builds an affordable robot beats the parent's ceiling |
| Robots.Affordables | src/year2022/day19.rs:87-95 | the count of affordable robot kinds is at most the number of kinds tried |
| Robots.AffordablesAll | src/year2022/day19.rs:87-107 | the count reaches the number of kinds tried exactly when every one of them is affordable, so waiting is skipped exactly when all four are |
| Robots.Evaluate | src/year2022/day19.rs:39-109 | stops unchanged at time 0 or on a cached state; otherwise caches it and reaches the geodes after mining; when the bound does not beat the best it caches only this state and stops; never lowers the best and never exceeds what the full search tree below the state holds; pruning at the ceiling with an explored cache reaches exactly that optimum and keeps the cache explored |
| Robots.Expand | src/year2022/day19.rs:86-108 | trying each robot and then waiting reaches at most the full tree's optimum below the state, and exactly it when the cache below is explored |
| Robots.TryEach | src/year2022/day19.rs:86-103 | counts the affordable robot kinds, adds only states below this one to the cache, and reaches the best built child exactly when the cache below is explored |
| Robots.TryRobot | src/year2022/day19.rs:88-102 | a robot is tried exactly when its costs are met, and the search under the child it builds raises the best to at most that child's optimum |
| Robots.Mine | src/year2022/day19.rs:48-52 | the mining loop produces exactly the mined state: each robot adds one unit of its kind, one minute passes |
| Robots.CanAfford | src/year2022/day19.rs:89-93 | true exactly when every cost of the robot is at most the resources held before mining |
| Robots.Build | src/year2022/day19.rs:96-100 | the mined resources cover the cost, so no subtraction underflows, and the child is the mined state with the cost paid and the robot added |
| Robots.ExploredEntry | src/year2022/day19.rs:40-43 | inserting a state into an explored cache keeps every state below it explored, for any larger best |
| Robots.ExploredStep | src/year2022/day19.rs:40-108 | once nothing below the state beats the best, the state and everything cached below it are explored at its level |
| Robots.EvaluateBlueprint | src/year2022/day19.rs:111-116 | at most the full tree's optimum and the ceiling, and at least the geodes of one more minute of mining; with the ceiling as bound it is exactly the optimum |
| Robots.PruneMissesGeodes | src/year2022/day19.rs:55-84 | with ore costs 4, 4, 4 and 2, an obsidian robot at 14 clay and a geode robot at 7 obsidian, one robot each of ore, clay and obsidian, 2 ore and 7 obsidian held and 3 minutes left, the written bound is 1 while building a geode robot now reaches 2 geodes |
| Robots.WrittenBoundExample | src/year2022/day19.rs:56-80 | the written bound at that state, from the entries it reads, is 1 |
| Robots.ExploreBuilt | src/year2022/day19.rs:94-101 | building an affordable robot leads to a state whose optimum is at most the parent's |
| Robots.BuildUpToGrows | src/year2022/day19.rs:88-103 | the best over the first kinds is at most the best over all four |
| Robots.ExploreWaits | src/year2022/day19.rs:106-108 | when the ore robot is unaffordable, waiting leads to a state whose optimum is at most the parent's |
| Robots.ExploreMined | src/year2022/day19.rs:48-53 | the geodes held after this minute's mining are within a state's optimum |
| Robots.Start | src/year2022/day19.rs:125-149 | one ore robot, nothing mined; its ceiling is a triangle number of the minutes |
| Robots.Most | src/year2022/day19.rs:111-116 | a blueprint's optimum from the start is at most the starting ceiling |
| Robots.EvaluateAll | src/year2022/day19.rs:118-156 | with minutes to go, panics exactly when some blueprint has a zero cost the bound divides by; with none, `evaluate` returns before dividing and never panics; otherwise one optimum per blueprint, in order |
| Robots.Part1 | src/year2022/day19.rs:118-136 | panics exactly when some blueprint is unusable; otherwise each blueprint's 24-minute optimum, summed weighted by 1-based index |
| Robots.AddQualities | src/year2022/day19.rs:122-133 | the loop's total is the weighted sum of the geodes |
| Robots.Part2 | src/year2022/day19.rs:138-156 | only the first three blueprints are evaluated: panics exactly when one of them is unusable; otherwise their 32-minute optima, multiplied |
| Robots.Multiply | src/year2022/day19.rs:142-153 | the loop's total is the product of the geodes |
| Hills.Elevation | src/year2022/day12.rs:43-53 | S is 0, E is 25, a lower-case letter its offset from 'a'; any other character below 'a' panics |
| Hills.ParseRow | src/year2022/day12.rs:41-54 | panics exactly when a character has no elevation; otherwise one elevation per character |
| Hills.ParseGrid | src/year2022/day12.rs:37-56 | panics exactly when some line does; otherwise one row per line |
| Hills.LastIn | src/year2022/day12.rs:43-50 | the last column holding the marker, found exactly when there is one |
| Hills.Marker | src/year2022/day12.rs:35-50 | the last occurrence of the marker in reading order, (0, 0) when there is none |
| Hills.Parse | src/year2022/day12.rs:34-59 | panics exactly when the grid does; the start and end are the S and E markers |
| Hills.ParseShape | src/year2022/day12.rs:37-56 | the grid has the input's shape, each square the elevation of its character |
| Hills.MarkersElevation | src/year2022/day12.rs:44-51 | a marked start is at 0 and a marked end at 25 |
| Hills.Get | src/year2022/day12.rs:61-71 | none exactly outside the grid, otherwise the square's elevation |
| Hills.Squares | src/year2022/day12.rs:61-71 | exactly the positions inside the grid |
| Hills.CompareState | src/year2022/day12.rs:14-21 | a cheaper entry is greater, so the max-heap pops it first; only equal entries compare equal |
| Hills.CompareAntisymmetric | src/year2022/day12.rs:14-21 | swapping the entries swaps greater and less |
| Hills.CompareTransitive | src/year2022/day12.rs:14-21 | the order is transitive |
| Hills.Top | src/year2022/day12.rs:86 | the popped entry is greatest and has the lowest cost in the heap |
| Hills.CrossFrontier | src/year2022/day12.rs:86-110 | a walk to a square without a cost passes a waiting entry cheaper than the walk |
| Hills.Extend | src/year2022/day12.rs:97-104 | a reachable square's accepted neighbour is reachable one step further |
| Hills.PopSkip | src/year2022/day12.rs:91-93 | popping an entry whose square has a cost keeps the invariant |
| Hills.PushSound | src/year2022/day12.rs:97-109 | every pushed entry is reachable at its cost |
| Hills.PushFrontier | src/year2022/day12.rs:95-109 | recording a cost and pushing the neighbours keeps the frontier |
| Hills.TopOptimal | src/year2022/day12.rs:86-95 | the popped cost is at most the length of every walk to its square |
| Hills.PushRegion | src/year2022/day12.rs:97-109 | pushed entries stay inside the squares the visit condition accepts |
| Hills.RemoveSound | src/year2022/day12.rs:86 | removing an entry keeps the others reachable and inside |
| Hills.PopExpand | src/year2022/day12.rs:86-110 | expanding the popped entry keeps the invariant |
| Hills.RecordShrinks | src/year2022/day12.rs:95 | recording a cost leaves fewer squares to record |
| Hills.StopFound | src/year2022/day12.rs:87-89 | the popped entry meeting the stop condition has the fewest steps to any stopping square |
| Hills.Exhausted | src/year2022/day12.rs:112 | an empty heap means no stopping square is reachable |
| Hills.FindSteps | src/year2022/day12.rs:74-113 | the fewest steps from the start to a stopping square, panicking exactly when none is reachable |
| Hills.PushNeighbours | src/year2022/day12.rs:97-109 | the heap with one entry one step dearer for every accepted neighbour |
| Hills.Filter | src/year2022/day12.rs:98 | exactly the entries the visit condition accepts |
| Hills.ClimbsStayOnGrid | src/year2022/day12.rs:121-148 | both visit conditions accept only squares of the grid |
| Hills.Part1 | src/year2022/day12.rs:115-132 | the fewest steps from S to E climbing at most one level per step |
| Hills.Part2 | src/year2022/day12.rs:135-152 | the fewest steps down from E to a square at elevation 0 |
| Hills.Reverse | src/year2022/day12.rs:141-148 | the walk read backwards |
| Hills.DescentIsReversedClimb | src/year2022/day12.rs:121-148 | a walk down from E is exactly a climb read backwards that ends at E |
| Droplets.Neighbours | src/year2022/day18.rs:20-30 | at most one per cube of the list |
| Droplets.TouchingGrows | src/year2022/day18.rs:20-30 | one more cube adds the cubes that share a face with it |
| Droplets.TouchingIsTwicePairs | src/year2022/day18.rs:20-30 | sharing a face is symmetric, so the ordered count is twice the touching pairs |
| Droplets.Part1 | src/year2022/day18.rs:17-35 | no panic exactly when the touching pairs number at most three per droplet; the surface is then six faces per droplet less two per touching pair, hence even |
| Droplets.Around | src/year2022/day18.rs:77-82 | the six cubes sharing a face, in the order visited |
| Droplets.CountDroplets | src/year2022/day18.rs:70-71 | at most the cubes visited |
| Droplets.Sides | src/year2022/day18.rs:86-96 | at most the number of droplets |
| Droplets.ReachCorner | src/year2022/day18.rs:45 | the corner is reached when it is air |
| Droplets.ReachStep | src/year2022/day18.rs:60-75 | an air cell of the box next to a reached cell is reached |
| Droplets.WalkMarked | src/year2022/day18.rs:48-83 | with the stack empty, every walk from the corner stays among marked cells |
| Droplets.FloodDone | src/year2022/day18.rs:48-83 | once the stack is empty, the marked air cells are exactly the air reachable from the corner |
| Droplets.Visit | src/year2022/day18.rs:60-75 | outside the box nothing happens; a droplet adds a face; air is pushed |
| Droplets.Expand | src/year2022/day18.rs:77-82 | the six visits add the cell's faces on droplets and push its air neighbours |
| Droplets.AirInMembers | src/year2022/day18.rs:60-75 | exactly the air cells of the box among the neighbours are pushed |
| Droplets.StepKeeps | src/year2022/day18.rs:49-82 | every turn keeps the flood's invariant and makes progress |
| Droplets.StepDroplet | src/year2022/day18.rs:54-58 | a popped droplet is marked and not expanded |
| Droplets.StepAir | src/year2022/day18.rs:54-82 | a popped air cell is marked and its faces counted |
| Droplets.PopMarked | src/year2022/day18.rs:50-52 | popping a marked cell changes nothing else |
| Droplets.MarkDroplet | src/year2022/day18.rs:54-58 | marking a droplet keeps the flood's state |
| Droplets.MarkAir | src/year2022/day18.rs:54-82 | marking and expanding an air cell keeps the flood's state |
| Droplets.MarkAirSound | src/year2022/day18.rs:73 | pushed cells are reachable air |
| Droplets.MarkAirClosed | src/year2022/day18.rs:77-82 | every air neighbour of a marked air cell is pushed or marked |
| Droplets.FacesAdded | src/year2022/day18.rs:70-71 | expanding an air cell adds its faces on droplets |
| Droplets.FacesKept | src/year2022/day18.rs:56-58 | marking a droplet adds nothing |
| Droplets.MarkShrinks | src/year2022/day18.rs:54 | marking leaves one cell fewer unmarked |
| Droplets.NewSpace | src/year2022/day18.rs:43 | nothing is marked |
| Droplets.FloodStart | src/year2022/day18.rs:43-46 | the flood starts with nothing marked and the corner pushed |
| Droplets.Mark | src/year2022/day18.rs:54 | marks exactly the cell |
| Droplets.FloodStep | src/year2022/day18.rs:49-82 | one turn of the loop |
| Droplets.Part2 | src/year2022/day18.rs:37-101 | the faces of droplets touched by air reachable from the corner, plus the droplets on the box's sides |
| FallingRocks.Tiles | src/year2022/day17.rs:11-19 | each shape's cells lie in a four-by-four box, the first on the bottom row |
| FallingRocks.FitsAboveFloor | src/year2022/day17.rs:76-96 | a block fits only on or above the bottom row |
| FallingRocks.Resize | src/year2022/day17.rs:41 | cut to n rows or extended with empty rows of width seven |
| FallingRocks.DropStep | src/year2022/day17.rs:43-65 | a block that fits one row lower rests where it would after moving down and being pushed |
| FallingRocks.LandsStep | src/year2022/day17.rs:43-65 | one turn of the loop moves toward the same resting place |
| FallingRocks.LandsDone | src/year2022/day17.rs:45-48 | a block that cannot fall rests where it is |
| FallingRocks.DropRests | src/year2022/day17.rs:43-65 | the block rests where it fits and cannot fall further, with a valid next jet |
| FallingRocks.Stamp | src/year2022/day17.rs:68-71 | stamping keeps the grid's shape |
| FallingRocks.StampCells | src/year2022/day17.rs:68-69 | a cell is rock after stamping exactly when it was or is a cell of the block |
| FallingRocks.Top | src/year2022/day17.rs:70 | the start row is raised to five above the block's highest cell, never lowered |
| FallingRocks.FirstFallFits | src/year2022/day17.rs:40-46 | the first move down from the start always fits |
| FallingRocks.LandingFits | src/year2022/day17.rs:40-65 | the block lands where it fits, below the start row, and cannot fall further |
| FallingRocks.FitsInside | src/year2022/day17.rs:76-96 | a fitting block lies inside the grid, so stamping cannot index out of it |
| FallingRocks.PlaceStamps | src/year2022/day17.rs:39-74 | after `add_block` a cell is rock exactly when it was or is a cell of the landed block |
| FallingRocks.RoomKeeps | src/year2022/day17.rs:41 | growing the grid keeps the chamber well formed |
| FallingRocks.StampKeeps | src/year2022/day17.rs:68-71 | stamping keeps the chamber well formed |
| FallingRocks.StampClearAbove | src/year2022/day17.rs:68-71 | no row from the new height up holds rock |
| FallingRocks.StampTopRow | src/year2022/day17.rs:68-71 | the row just below the new height holds rock |
| FallingRocks.StampKeepsTop | src/year2022/day17.rs:68-71 | rock stays rock |
| FallingRocks.StampRaisesTop | src/year2022/day17.rs:68-71 | each cell of the block holds rock afterwards |
| FallingRocks.PlaceKeeps | src/year2022/day17.rs:39-74 | `add_block` keeps the chamber well formed and never lowers the start row |
| FallingRocks.Drops | src/year2022/day17.rs:138-140 | the chamber after the first n blocks is well formed |
| FallingRocks.NextDrop | src/year2022/day17.rs:139 | block n is placed on the tower the first n left |
| FallingRocks.Height | src/year2022/day17.rs:141 | the start row less four is the height of the tower |
| FallingRocks.HeightGrows | src/year2022/day17.rs:138-141 | the tower never shrinks |
| FallingRocks.Cave.constructor | src/year2022/day17.rs:30-37 | no rows, the first jet next, blocks starting from row 4 |
| FallingRocks.Cave.ValidBlockPosition | src/year2022/day17.rs:76-96 | whether every cell of the block is free |
| FallingRocks.Cave.AddBlock | src/year2022/day17.rs:39-74 | the chamber after placing the block |
| FallingRocks.Cave.Fall | src/year2022/day17.rs:43-65 | the loop finds where the block rests and the next jet |
| FallingRocks.Cave.FallOnce | src/year2022/day17.rs:45-64 | one turn moves down and is pushed, or finds the block resting |
| FallingRocks.Cave.Push | src/year2022/day17.rs:51-64 | one column left for '<', right otherwise, when the block fits there |
| FallingRocks.Cave.StampBlock | src/year2022/day17.rs:68-71 | each cell turns to rock and the start row is raised past it |
| FallingRocks.Simulate | src/year2022/day17.rs:136-141 | the chamber after the first blocks, whose height is the tower's |
| FallingRocks.Part1 | src/year2022/day17.rs:125-144 | panics exactly with no jet; otherwise the height after 2022 blocks |
| RockCycle.Search | src/year2022/day17.rs:114-119 | a found repeat has a positive length and both windows inside the data |
| RockCycle.FindPattern | src/year2022/day17.rs:113-123 | a found repeat has a positive length and both windows inside the data |
| RockCycle.PastTheEnd | src/year2022/day17.rs:114 | once the first window runs past the end no repeat is left |
| RockCycle.NextRow | src/year2022/day17.rs:115 | once the second window runs past the end the search moves on |
| RockCycle.NextPair | src/year2022/day17.rs:116 | a pair whose windows differ is passed over |
| RockCycle.SearchMeaning | src/year2022/day17.rs:114-122 | the search finds the first repeat at or after the pair, or none |
| RockCycle.FindPatternMeaning | src/year2022/day17.rs:113-123 | a repeat is found exactly when one exists, and it is the first the loops meet |
| RockCycle.FindPatternStart | src/year2022/day17.rs:113-123 | the loops compute the first repeat |
| RockCycle.PeriodicSum | src/year2022/day17.rs:184-186 | a periodic run sums to m whole periods plus a prefix |
| RockCycle.Remainder | src/year2022/day17.rs:182-183 | what is left after whole periods is less than one period |
| RockCycle.TailRepeats | src/year2022/day17.rs:174-175 | the gains from the start of the pattern repeat it |
| RockCycle.ExtrapolateSound | src/year2022/day17.rs:180-187 | the extrapolation is the sum of the gains whenever they really repeat |
| RockCycle.RepeatedSum | src/year2022/day17.rs:184-186 | the sum of the prefix, whole periods and the rest |
| RockCycle.Increases | src/year2022/day17.rs:166 | one gain per sample |
| RockCycle.Telescope | src/year2022/day17.rs:166-167 | the gains add up to the last sample |
| RockCycle.IncreasesSnoc | src/year2022/day17.rs:166-167 | a new sample adds its gain at the end |
| RockCycle.Sampled | src/year2022/day17.rs:165 | one sample per hundred rocks |
| RockCycle.TakenStep | src/year2022/day17.rs:165 | a sample is taken exactly after every hundredth rock, the next in line |
| RockCycle.AnswerSound | src/year2022/day17.rs:180-187 | with the gains periodic from where the repeat was found, the answer is the last sample less one |
| RockCycle.AnswerMeaning | src/year2022/day17.rs:146-190 | with the gains periodic, the answer is the tower's height after 10^12 + 1 rocks, less one as the code subtracts |
| RockCycle.SkipSample | src/year2022/day17.rs:163-169 | a rock that is not the last of a hundred takes no sample |
| RockCycle.TakeSample | src/year2022/day17.rs:165-168 | the last rock of a hundred records its gain |
| RockCycle.NextHeight | src/year2022/day17.rs:164 | each rock lands on the tower of the ones before |
| RockCycle.RecordGains | src/year2022/day17.rs:157-169 | the gains of every hundred rocks out of 40000 |
| RockCycle.Part2 | src/year2022/day17.rs:146-190 | panics exactly with no jet or no repeat; otherwise the extrapolated height |
| Mixing.Insert | src/year2022/day20.rs:28-31 | one element longer |
| Mixing.Remove | src/year2022/day20.rs:29-32 | one element shorter |
| Mixing.InsertAt | src/year2022/day20.rs:28-31 | the new element is at the index, those before stay, those after move one place later |
| Mixing.RemoveAt | src/year2022/day20.rs:29-32 | those before stay, those after move one place earlier |
| Mixing.Moved | src/year2022/day20.rs:27-33 | a move keeps the length |
| Mixing.RemoveInsert | src/year2022/day20.rs:27-33 | removing what was just inserted gives the list back |
| Mixing.CountAppend | src/year2022/day20.rs:27-33 | counting distributes over concatenation |
| Mixing.CountIsMultiplicity | src/year2022/day20.rs:27-33 | the count is the multiplicity in the multiset |
| Mixing.CountedAt | src/year2022/day20.rs:18-22 | a counted element is at some index |
| Mixing.CountSingle | src/year2022/day20.rs:27-33 | a one-element list counts only its element, once |
| Mixing.TwiceCounted | src/year2022/day20.rs:18-22 | an element at two indices is counted at least twice |
| Mixing.InsertMultiset | src/year2022/day20.rs:28-31 | inserting adds one occurrence |
| Mixing.RemoveMultiset | src/year2022/day20.rs:29-32 | removing takes one occurrence away |
| Mixing.MovedCounts | src/year2022/day20.rs:27-33 | a move counts every element as often as before |
| Mixing.MovedPermutes | src/year2022/day20.rs:27-33 | a move only reorders the list |
| Mixing.MovedMeaning | src/year2022/day20.rs:27-33 | the moved element lands at the target and the others keep their order |
| Mixing.InsertThenRemove | src/year2022/day20.rs:27-33 | both orders of insert and remove in the source make the same move |
| Mixing.Labels | src/year2022/day20.rs:14-20 | the original positions in the current order |
| Mixing.Range | src/year2022/day20.rs:8-17 | the positions 0 to n - 1 in order |
| Mixing.RangeOnce | src/year2022/day20.rs:8 | each position below n occurs once |
| Mixing.RangeMissing | src/year2022/day20.rs:8 | no position from n on occurs |
| Mixing.LabelsUnique | src/year2022/day20.rs:18-22 | no two entries share an original position |
| Mixing.LabelsMoved | src/year2022/day20.rs:27-33 | the labels of a move are the move of the labels |
| Mixing.MovedLabelled | src/year2022/day20.rs:27-33 | a move keeps every original position exactly once |
| Mixing.IndexOf | src/year2022/day20.rs:18-22 | the first entry with that original position, or none when no entry has it |
| Mixing.FindLabel | src/year2022/day20.rs:18-22 | in a labelled list every original position is found, at exactly one index, so the `unwrap` never panics |
| Mixing.MoveOriginal | src/year2022/day20.rs:18-33 | moving the k-th input number keeps the length and only reorders the list |
| Mixing.MixUpTo | src/year2022/day20.rs:17-34 | part of a round only reorders the list |
| Mixing.Mixed | src/year2022/day20.rs:16-35 | whole rounds only reorder the list |
| Mixing.MoveOriginalMeaning | src/year2022/day20.rs:18-33 | the entry first found with the original position lands at its index plus its value, reduced Euclidean modulo the length less one, and the others keep their order |
| Mixing.MoveOriginalLabelled | src/year2022/day20.rs:18-33 | a move keeps every original position exactly once |
| Mixing.MixUpToLabelled | src/year2022/day20.rs:17-34 | part of a round keeps every original position exactly once |
| Mixing.MixedLabelled | src/year2022/day20.rs:16-35 | whole rounds keep every original position exactly once |
| Mixing.MixedPermutes | src/year2022/day20.rs:16-35 | the mixed list is a permutation of the input |
| Mixing.Start | src/year2022/day20.rs:3-14 | each number paired with its input position and multiplied by the key |
| Mixing.StartLabelled | src/year2022/day20.rs:3-14 | every original position is held once at the start |
| Mixing.IndexOfZero | src/year2022/day20.rs:37 | the first entry whose value is 0, or none when no value is 0 |
| Mixing.FindPosition | src/year2022/day20.rs:18-22 | the loop finds the one entry with that original position |
| Mixing.MoveOne | src/year2022/day20.rs:18-33 | the in-place insert and remove compute the move of the k-th input number |
| Mixing.GroveSum | src/year2022/day20.rs:37-41 | the sum of the values 1000, 2000 and 3000 places after the 0, wrapping round; panics when there is no 0 |
| Mixing.MixRound | src/year2022/day20.rs:17-34 | one round moves each number once, in input order |
| Mixing.Decrypt | src/year2022/day20.rs:13-42 | the grove coordinates of the input, scaled by the key and mixed the given number of rounds; a single number panics on the zero modulus |
| Mixing.Part1 | src/year2022/day20.rs:44-47 | key 1, one round |
| Mixing.Part2 | src/year2022/day20.rs:49-52 | key 811589153, ten rounds |
| MonkeyMap.Facing | src/year2022/day22.rs:20-200 | the facing's discriminant, below four |
| MonkeyMap.TurnsCycle | src/year2022/day22.rs:177-191 | a right turn adds one to the facing and a left turn takes one away, around four; each undoes the other |
| MonkeyMap.Turned | src/year2022/day22.rs:176-193 | right and left turns turn; any other side is unreachable and panics |
| MonkeyMap.Cell | src/year2022/day22.rs:62-72 | the tile at a position; panics exactly off the rows |
| MonkeyMap.MoveWrap | src/year2022/day22.rs:81-109 | keeps the facing and stays on the map; panics exactly on an empty map |
| MonkeyMap.MoveWrapModular | src/year2022/day22.rs:81-109 | a step modulo the number of rows and the width of the first row |
| MonkeyMap.CubeEdgeGlued | src/year2022/day22.rs:142-167 | each glued edge lands inside a face on the matching edge, and stepping back over it returns the walker to where it left |
| MonkeyMap.CubeExpectationsHold | src/year2022/day22.rs:243-302 | every expectation `part2` asserts holds on a map of the puzzle's shape |
| MonkeyMap.LeavingTopFaces | src/year2022/day22.rs:247-266 | the wraps from the two top faces that `part2` asserts |
| MonkeyMap.LeavingMiddleFaces | src/year2022/day22.rs:267-282 | the wraps from the middle faces that `part2` asserts |
| MonkeyMap.LeavingLowerFaces | src/year2022/day22.rs:283-302 | the wraps from the lower faces that `part2` asserts |
| MonkeyMap.EdgesCovered | src/year2022/day22.rs:142-167 | every edge of the net not shared with a neighbouring face is glued, onto a face of the net |
| MonkeyMap.CubeWrapClosed | src/year2022/day22.rs:111-167 | from a tile of the net a cube step never panics and lands on the net |
| MonkeyMap.StepOnNet | src/year2022/day22.rs:111-140 | a step onto a tile of the net is a plain step |
| MonkeyMap.CubeSteps | src/year2022/day22.rs:111-140 | a step onto a tile that is not void is a plain step |
| MonkeyMap.GlueOnNet | src/year2022/day22.rs:123-137 | a step off the net goes over a glued edge onto the net |
| MonkeyMap.CubeGlues | src/year2022/day22.rs:112-137 | a step off the map or onto a void tile goes over the edge of the face it leaves |
| MonkeyMap.StepBlock | src/year2022/day22.rs:112-129 | a step off the net leaves its face for a block that is no face of the net |
| MonkeyMap.SkipVoidStops | src/year2022/day22.rs:62-68 | the skip stops on a tile of the map that is open or a wall |
| MonkeyMap.WalkBlocked | src/year2022/day22.rs:70-72 | facing a wall, the walker does not move however far it is told to go |
| MonkeyMap.WalkEndsOpen | src/year2022/day22.rs:48-79 | a walk from an open tile ends on an open tile |
| MonkeyMap.WalkAdds | src/year2022/day22.rs:55-78 | walking m + n tiles is walking m and then n |
| MonkeyMap.CubeWalkTotal | src/year2022/day22.rs:48-79 | on the cube a walk from the net never panics and ends on the net |
| MonkeyMap.PasswordDecodes | src/year2022/day22.rs:200 | the password gives back the row, the column and the facing |
| MonkeyMap.RunEndsOpen | src/year2022/day22.rs:172-196 | a path of moves and turns followed from an open tile, on the flat map or the cube, ends on an open tile |
| MonkeyMap.CubeRunTotal | src/year2022/day22.rs:170-198 | on the cube a path of moves and right or left turns never panics |
| MonkeyMap.CubeOutcome | src/year2022/day22.rs:170-201 | on the cube the walk of a parsed path gives a password |
| MonkeyMap.Resized | src/year2022/day22.rs:210 | cut to n tiles or filled up with void tiles |
| MonkeyMap.BoardOf | src/year2022/day22.rs:203-213 | the first 200 lines, each of width 200, each character read as its tile |
| MonkeyMap.FindTurn | src/year2022/day22.rs:220 | the first `R` or `L`, or none when there is none |
| MonkeyMap.ParseCount | src/year2022/day22.rs:223-232 | a parsed number fits a 32-bit signed integer |
| MonkeyMap.Tokens | src/year2022/day22.rs:217-232 | a tokenised path alternates moves and right or left turns, ending with a move |
| MonkeyMap.AlternatesCons | src/year2022/day22.rs:220-230 | a move and a turn in front of an alternating path still alternate |
| MonkeyMap.TokensStep | src/year2022/day22.rs:220-230 | one turn of the loop takes the number before the first turn and the turn |
| MonkeyMap.SkipVoidTiles | src/year2022/day22.rs:62-68 | the loop skips void tiles as the skip function does |
| MonkeyMap.MovePosition | src/year2022/day22.rs:48-79 | the loop walks as the walk function does |
| MonkeyMap.ApplyInstructions | src/year2022/day22.rs:170-201 | the loop gives the password of the walk from row 0, column 50, facing right |
| MonkeyMap.Tokenise | src/year2022/day22.rs:217-232 | the loop produces the tokens of the line |
| MonkeyMap.Preprocess | src/year2022/day22.rs:203-235 | panics on an empty input or a bad number; otherwise the map and the path |
| MonkeyMap.Part1 | src/year2022/day22.rs:237-241 | the password of the walk on the flat, wrapping map |
| MonkeyMap.Part2 | src/year2022/day22.rs:243-306 | panics when an expectation fails; otherwise the password of the walk on the cube |
| Diffusion.Toward | src/year2022/day23.rs:30-41 | the direction whose neighbour is the given adjacent cell |
| Diffusion.NeighborsAreAdjacent | src/year2022/day23.rs:30-41 | the eight neighbours are exactly the adjacent cells, one per direction |
| Diffusion.HasNeighbor | src/year2022/day23.rs:43-52 | true exactly when an elf is adjacent |
| Diffusion.CanMove | src/year2022/day23.rs:54-78 | panics exactly on a diagonal direction; a possible step leads to a free cell |
| Diffusion.CanMoveMeaning | src/year2022/day23.rs:54-78 | a cardinal step is possible exactly when no elf is adjacent on that side |
| Diffusion.Tried | src/year2022/day23.rs:81-98 | the direction tried k-th in a round is cardinal |
| Diffusion.FirstMove | src/year2022/day23.rs:96-107 | the neighbour in the first direction, in the round's order, that can be moved to, or none when no direction can |
| Diffusion.TargetIsFree | src/year2022/day23.rs:90-111 | a proposed cell is the elf's own or free of elves |
| Diffusion.IsolatedStays | src/year2022/day23.rs:91-94 | an elf with no neighbour stays where it is |
| Diffusion.MovedInjective | src/year2022/day23.rs:114-121 | no two elves end a round on the same cell |
| Diffusion.MovedCount | src/year2022/day23.rs:114-121 | the elves of a group end the round on as many cells as there are elves in it |
| Diffusion.RoundKeepsCount | src/year2022/day23.rs:80-124 | a round keeps the number of elves |
| Diffusion.RoundsKeepCount | src/year2022/day23.rs:129-131 | any number of rounds keeps the number of elves |
| Diffusion.GroupedAdd | src/year2022/day23.rs:88-112 | adding one elf's proposal adds it to the group of its cell |
| Diffusion.SettledAdd | src/year2022/day23.rs:114-121 | a cell proposed by one elf is taken; the elves of a cell proposed by several stay where they are |
| Diffusion.Propose | src/year2022/day23.rs:90-111 | the loop proposes the elf's target |
| Diffusion.SimulateRound | src/year2022/day23.rs:80-124 | the elves after the round |
| Diffusion.CollectProposals | src/year2022/day23.rs:88-112 | the keys are the proposed cells, each holding exactly the elves that proposed it |
| Diffusion.ResolveProposals | src/year2022/day23.rs:114-123 | the elves after the round |
| Diffusion.Scan | src/year2022/day23.rs:17-28 | a cell holds an elf exactly when the scan has `#` there |
| Diffusion.Bounds | src/year2022/day23.rs:133-136 | panics exactly with no elves; otherwise the tight bounding box |
| Diffusion.Part1 | src/year2022/day23.rs:126-139 | panics exactly with no elves; otherwise the free cells of the tight box after ten rounds |
| Diffusion.History | src/year2022/day23.rs:141-152 | the elves after every number of rounds |
| Diffusion.SettleMeaning | src/year2022/day23.rs:144-155 | the answer is one more than the first round in which no elf moves |
| Diffusion.SettleGoesOn | src/year2022/day23.rs:145-151 | a round in which some elf moves goes on to the next |
| Diffusion.Part2 | src/year2022/day23.rs:141-156 | the first round in which no elf moves, plus one, searched within the fuel bound |
| Basin.Drift | src/year2022/day24.rs:104-123 | a blizzard's cell after `time` minutes: the moving coordinate wrapped into the grid, the other kept; panics exactly on a zero modulus |
| Basin.DriftStart | src/year2022/day24.rs:104-123 | at minute 0 a blizzard inside the valley is at its starting cell |
| Basin.DriftStep | src/year2022/day24.rs:104-123 | each minute a blizzard moves one cell along its direction, wrapping round to the opposite wall |
| Basin.DriftRepeats | src/year2022/day24.rs:104-123 | a vertical blizzard returns after `height` minutes, a horizontal one after `width` |
| Basin.FitsAlways | src/year2022/day24.rs:104-124 | whether indexing a blizzard's cell panics does not depend on the minute |
| Basin.ComputeMap | src/year2022/day24.rs:98-127 | panics exactly when some blizzard's cell is outside the grid; otherwise a height × width grid marking exactly the cells some blizzard occupies at that minute |
| Basin.Scan | src/year2022/day24.rs:56-83 | one blizzard per arrow character, at (row - 1, column - 1) with the arrow's direction, and no others |
| Basin.Preprocess | src/year2022/day24.rs:52-96 | panics exactly below two lines or two columns or when a blizzard's cell is outside the grid; otherwise the inner width and height and the maps of the minutes 0 to 799 |
| Basin.CanMove | src/year2022/day24.rs:30-49 | the two gaps can always be entered, any other cell off the grid never; on the grid a result means the minute's map exists |
| Basin.CanMoveBlizzards | src/year2022/day24.rs:30-89 | on the input's valley, a grid cell can be entered exactly when no blizzard is there at that minute, and asking at minute 800 or later panics |
| Basin.CompareState | src/year2022/day24.rs:135-142 | an earlier state is greater, so the max-heap pops it first; only equal states compare equal |
| Basin.Top | src/year2022/day24.rs:135-160 | the popped state is greatest under the order and has the earliest minute in the heap |
| Basin.TryMoves | src/year2022/day24.rs:171-178 | the states pushed are exactly the candidate cells that can be entered at that minute; panics exactly when some candidate's map read panics |
| Basin.Successors | src/year2022/day24.rs:171-183 | the five candidates (down, up, right, left, stay) give exactly the one-minute steps |
| Basin.WalkTimes | src/year2022/day24.rs:172-176 | every step takes one minute, so a walk of n steps ends n minutes after it starts |
| Basin.CrossFrontier | src/year2022/day24.rs:159-184 | any walk to a state not yet expanded passes a waiting state no later than its end |
| Basin.EndFound | src/year2022/day24.rs:167-169 | when the earliest waiting state is at the end, its minute is the earliest arrival and not before the start |
| Basin.Exhausted | src/year2022/day24.rs:186 | once the heap is empty, no walk reaches the end |
| Basin.PopSkip | src/year2022/day24.rs:160-164 | popping a state that was expanded before keeps the search invariant |
| Basin.PopExpand | src/year2022/day24.rs:165-183 | expanding a state and pushing its steps keeps every waiting state reachable and bounded, and keeps the frontier |
| Basin.ExpandKeeps | src/year2022/day24.rs:160-183 | one expansion keeps the invariant, keeps expansions distinct and in minute order, and leaves fewer states to expand |
| Basin.Pop | src/year2022/day24.rs:159-184 | one loop turn: skips, finishes with the earliest arrival, panics only past the computed minutes, or pushes and keeps the invariant while the search measure decreases |
| Basin.FindPath | src/year2022/day24.rs:150-187 | a value returned is the earliest minute at which a walk from (start, start_time) reaches `end`, or 0 when none does; on maps shaped as `compute_map` builds them, an earliest arrival `t` with `t + 1` below the number of maps is always returned, so the search panics only when every arrival needs a map past the last |
| Basin.EarliestUnique | src/year2022/day24.rs:159-169 | two earliest arrivals are the same minute |
| Basin.EarliestNotBefore | src/year2022/day24.rs:150-176 | no arrival comes before the minute the search starts from |
| Basin.PanicPastMaps | src/year2022/day24.rs:30-41 | on maps of the valley's shape, `can_move` panics only for a minute with no computed map |
| Basin.PanicLate | src/year2022/day24.rs:159-183 | a panic while expanding the earliest waiting state means every arrival at `end` needs the last computed minute or later |
| Basin.Part1 | src/year2022/day24.rs:189-195 | a value returned is the earliest arrival at the exit gap from the entry gap at minute 0; when that arrival is before minute 799, it is returned and there is no panic |
| Basin.Part2 | src/year2022/day24.rs:197-205 | a value returned is the third of three earliest-arrival legs chained through their end minutes: to the exit, back to the entry, to the exit again; when the three legs end before minute 799, that minute is returned and there is no panic |
| Basin.Arrow | src/year2022/day24.rs:56-83 | a direction exactly for the four arrow characters |
| Basin.Marked | src/year2022/day24.rs:98-127 | a grid marking exactly the cells of the blizzards at that minute is their map |
| Basin.ValleyOf | src/year2022/day24.rs:52-96 | the inner width and height and the maps of the minutes 0 to 799 |
| Basin.CompareTransitive | src/year2022/day24.rs:135-142 | the heap's order is transitive |
| Basin.InsideUniverse | src/year2022/day24.rs:150-187 | every state the search can push lies in a finite universe |
| Basin.Shrinks | src/year2022/day24.rs:162-165 | expanding a state of the universe for the first time leaves fewer to expand |
| Basin.Extend | src/year2022/day24.rs:171-183 | a walk extended by one step is a walk |
| Basin.GridCandidate | src/year2022/day24.rs:171-176 | every cell of the valley has a grid cell among its candidates |
| Basin.SuccessorsInside | src/year2022/day24.rs:171-183 | the steps of a state the search can push are states it can push |
| Basin.PushFrontier | src/year2022/day24.rs:165-183 | pushing the steps of the expanded state keeps every unexpanded reachable state behind a waiting one |
| Basin.OrderKept | src/year2022/day24.rs:159-183 | expanding the earliest state keeps the expansions in order of minute |

## Left out

- Input reading and the `run!` and test macros of every day, which are file I/O and test scaffolding.
- Fixed-width integers are not modelled. `u32`, `i32`, `i64`, `usize` and `isize` are unbounded `int` and `nat`, so no contract covers an overflow. Where the code subtracts unsigned values below zero, the model panics.
- Text is a sequence of characters. Where the code indexes bytes (`find`, slicing), the model indexes characters, which is the same for ASCII input.
- Parsing is not modelled for days 2, 4, 9, 11, 14, 15, 16, 18, 19 and 20 of 2022 or day 1 of 2021. These solvers take the parsed values (rounds, ranges, moves, monkeys, rock paths, readings, rooms, droplets, blueprints, numbers, depths). Splitting lines and reading numbers with `unwrap` adds only a panic on malformed text.
- Cubes and Scratchcards: the splitting of 2023 days 2 and 4 (at `:`, `;`, `,`, `|` and whitespace) is not modelled. A game arrives as its handfuls of (count, colour) pieces and a card as its two lists of number tokens; reading the pieces and the tokens is modelled.
- Rucksack.CommonItem, Rucksack.CommonItem3: return the first shared item of the first rucksack. The source takes the first of a hash-set intersection, whose order is not specified, so with several shared items it may pick another. Rucksack.UniqueCommon covers the puzzle's case of exactly one shared item.
- Day 21 of 2022 is not part of this model: it solves for an unknown with `f64` arithmetic.
- Cathode.Part2: the source ends by returning a fixed string, the letters read off the screen by eye. The model returns the screen of lit pixels instead.
- Packets: numbers are unbounded once parsed. The `u32` overflow of `parse_int` is modelled as a panic (`Overflow`), and `Fits` states that every parsed number is at most 2^32 - 1.
- Monkeys.RunRounds, Monkeys.Part1, Monkeys.Part2: require that no monkey throws to itself. The model does not cover self-throws, where a monkey's own queue grows during its turn.
- Monkeys.Part2Meaning: requires positive divisors, because a divisor of 0 makes the test panic.
- Valves.Part2: requires that room "AA" has no flow. The search credits the start room to both explorers, and the puzzle's start valve is stuck at 0.
- Valves: `compute_distances` runs one breadth-first search per room index. This gives the same table as the source's per-name search when names are distinct.
- Robots.Part1, Robots.Part2, Robots.EvaluateAll: search with the ceiling as the pruning bound, the corrected bound of Findings, so their answers are the optimum of the full search tree. The search with the written bound is `Robots.Evaluate` with `Written`; of its result the model promises only that it is at most that optimum.
- Robots.PruneBound: follows the code's reading of the optimistic bound, including its reading of the ore held and the ore robots from the clay entries.
- Forest.Part1, Forest.Part2: require a square grid of digits, as the view type assumes. `ForestView::size` uses the row count for both directions.
- FileSystem.Part2: requires the root directory in the map, which `preprocess` always creates.
- FallingSand.Part1: requires rock coordinates that fit a `usize`, as `parse_input` guarantees.
- FallingRocks.Simulate: requires at least one jet. Part1 and Part2 return `Panic` for an empty jet pattern, where the source's index into the jets panics.
- RockCycle.AnswerMeaning: relates the extrapolation to the true height only under the hypothesis that the gains are periodic from the repeat found. The source assumes the same without checking it.
- Droplets.Part2: the box is the source's fixed 20 × 20 × 20 cells, and droplets outside it are not reached by the flood.
- Droplets.Sides: follows the code. A droplet with any coordinate 0 or 19 counts once, however many of its faces lie on the box's boundary.
- Mixing: the rotation invariance of the grove coordinates is not stated.
- MonkeyMap.MoveWrapCube: panics for a cube size of 0 or below, where the source divides by zero only at 0. The size is always 50.
- MonkeyMap.SkipVoidTiles: the skip loop is bounded by four times the number of tiles. The source loops forever when a row holds only void tiles, and the bound covers every other case.
- Diffusion.Part2: the search runs at most `fuel` rounds. The source loops until the elves settle, with no bound.
- Diffusion: hash-map iteration order is not modelled. Proposals are sets, and the answers do not depend on the order.
- Basin.FindPath, Basin.Part1, Basin.Part2: require a valley with at least one inner row and one inner column, so inputs of two lines or with a first line of two characters are not covered. On such a valley an arrow makes compute_map panic on a remainder by zero. Without arrows the search still runs: it can end (the valley `#.#` over `#.#` gives 1 and 3), or wait at the entry gap while the minute grows without bound.
- Basin: minutes are unbounded naturals; u32 and isize widths are not modelled (the maps end at minute 800).
- Basin: columns are character indices; the program uses byte offsets, the same for ASCII input.
- Basin.FindPath, Basin.Part1, Basin.Part2: when the earliest arrival needs the map of minute 799 or later, the model promises only that a panic comes from a map that was never computed (Overrun). On a valley with a row and a column this always holds, because waiting at the entry gap reaches minute 799, so it does not say which searches panic.
- Trebuchet.FirstDigit, Trebuchet.LastDigit, Trebuchet.Part1, Trebuchet.Part2: a digit is an ASCII '0' to '9'. The source tests `char::is_numeric`, which also holds for other Unicode numeric characters such as '٣' or '½'. On a line with one, part 1 takes `c as u32 - '0' as u32` as that digit and part 2's `to_digit(10).unwrap()` panics. Such characters are not modelled.
- FileSystem.Step: a `cd` or `dir` name is appended to the path as one component. `PathBuf::join` treats an empty name, a name containing '/' and an absolute name differently; such names are not modelled.

## Findings

| source | as written | input that shows it | evidently intended | confidence | as-written member | corrected member |
|---|---|---|---|---|---|---|
| src/year2022/day15.rs:103-148 | `find_uncovered` recurses into its four quadrants even when a rectangle is empty, and an empty rectangle with `x_min = x_max + 1` is its own first quadrant | x in [1, 0], or x in [0, 0] with y in [0, 1], with no reading covering it | skip empty rectangles and return an uncovered position | not executed | Beacons.EmptyRectLoops, Beacons.ColumnNeverFinishes | Beacons.FindUncovered |
| src/year2022/day15.rs:127-128 | the midpoint `(max + min) / 2` truncates toward zero, so on negative coordinates the first quadrant can be the whole rectangle | x and y in [-3, -2] | a floor midpoint that always halves the rectangle | not executed | Beacons.NegativeSquareLoops | Beacons.FindUncovered |
| src/year2023/day01.rs:30-46 | a missing last digit defaults to index 0, and the last name found at index 0 does not beat it | the line "one" gives 10 | 11: the last occurrence is the name at index 0 | not executed | Trebuchet.NameAtStartOnly, Trebuchet.Total2AsWrittenMeaning | Trebuchet.LineValue2Meaning |
| src/year2022/day14.rs:163-178 | `part1` drops grains until one falls into the abyss; once a grain rests on the source every later grain rests there too, and the loop never stops | a cup of rock closed under the source | stop once the source is blocked | not executed | FallingSand.CupOverflows, FallingSand.NeverStops | FallingSand.Part1 |
| src/year2022/day19.rs:55-84 | the pruning bound adds `n * (n - 1) / 2` for `n` robots built one per minute, but robots built early mine more than that, so the bound can fall below what a state can still reach | geode robot costing 2 ore and 7 obsidian; one ore, clay and obsidian robot, 2 ore and 7 obsidian held, 3 minutes left: the bound is 1, building a geode robot now gives 2 geodes, and a search already holding 1 geode prunes it | a bound that never underestimates, such as one new geode robot every minute | not executed | Robots.PruneMissesGeodes | Robots.EvaluateBlueprint |
