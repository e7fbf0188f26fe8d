# Advent of Code 2024 solvers, modelled in Dafny

This project models the day modules of a Rust crate that solves the puzzles of
Advent of Code 2024. Each `src/dayNN.rs` becomes one Dafny module `DayNN` in
`dayNN.dfy`, and the module follows the source's own form:

- Pure parsing and arithmetic are datatypes and functions.
- Loops over vectors and maps are methods whose loop invariants tie them to a
  specification function.
- Maps updated in place are classes: the grids of days 12, 15 and 20, the
  memo of day 19 and the computer of day 17.
- Buffers indexed by position are arrays.

The properties the solvers rely on are proved as lemmas about those functions.

Two shared modules hold what several days use:

- `Common` (`common.dfy`) has an `Option` type, absolute value, and the pieces
  of Rust's `str` API the solvers use: `split`, `lines`, `trim`,
  `split_whitespace`, `split_once` and integer `parse` with overflow.
- `Grid` (`grid.dfy`) has the `Direction`, `Pos + Direction` and bounds-checked
  `Map::get` / `find_all` of days 16 and 20.

What each day's model establishes:

- **Day 1**: part 1 is the total distance of the sorted columns, and it
  depends only on the columns' multisets. Part 2 weighs each left id by its
  count on the right.
- **Day 2**: the part 1 filter and the greedy part 2 count are characterised
  against the safety rule. Both are compared with the intended counts (see
  "Findings").
- **Day 4**: the eight-direction word search and the X-shaped search count
  exactly the placements that spell the word.
- **Day 6**: the guard's patrol and the loop detector are proved against a
  step function. Part 2 counts exactly the cells on the route where one more
  obstacle traps the guard.
- **Day 7**: on positive operands, the pruned recursive search accepts
  exactly the equations that some left-to-right choice of `+` and `*`
  solves.
- **Day 8**: the antinode sets are exactly the reflections (part 1) and the
  grid cells reached from an antenna by whole multiples of its step to
  another antenna of the same frequency (part 2; the step is not reduced by
  a common divisor, as in the source).
- **Day 9**: part 1's layout is the disk's blocks compacted one block at a
  time, from the end into the leftmost free block. Part 2's layout is the
  disk after each file, from the highest id down, moves to its first free
  run that fits, proved move by move. Both keep every file's blocks, and
  the checksum is taken over the layout they produce.
- **Day 10**: the backwards walk from the peaks counts the downhill trails.
- **Day 11**: the stone counters evolve as the multiset of stones does.
- **Day 12**: region labelling partitions the map into maximal regions of one
  crop. Perimeter and the edge walk are proved against their definitions.
- **Day 13**: on a machine whose determinant and B step along X are not
  zero, Cramer's rule finds a winning press count exactly when one exists,
  including a negative one (see "Findings").
- **Day 14**: positions wrap around the region, and the alignment search
  solves its congruences.
- **Day 15**: in the narrow warehouse a push shifts exactly the run of boxes
  in front of the robot and moves no wall. In the wide warehouse a push
  keeps every box whole, changes only the cells ahead of it and empties the
  cells it leaves. Both answers are the GPS sums of the map the walk of all
  the moves leaves.
- **Day 16**: every path the best-first search returns is a route of the
  reported cost.
- **Day 17**: the instruction semantics of the three-bit computer.
- **Day 18**: the breadth-first search returns a walk exactly when one exists.
- **Day 19**: the memoised count of ways to make a towel design.
- **Day 20**: the race track trace and the cheats it admits.
- **Day 21**: the keypad cost tables of the robot stack.
- **Day 22**: the 24-bit secret generator and the best price run.
- **Day 23**: part 1 counts exactly the triangles with a `t` computer. Part 2
  returns the unique largest clique, if there is one.
- **Day 24**: gate propagation in `elf_add` is sound and complete. The tests of
  `test_bit_rules` ask for true addition, and the search of `fix_bit` is
  characterised.

Where a loop in the source would run forever on malformed input, the model
either carries a fuel bound or states, as a precondition, the property of the
puzzle input that makes the loop end. The "Left out" section lists both.

## Model

| member | source | states |
|---|---|---|
| Grid.Turns | src/day16.rs:147-165 | the two turns undo each other, four of either return to the start, and neither keeps nor reverses the direction |
| Grid.Step | src/day16.rs:134-145 | a step moves one cell, along a column exactly when the direction is north or south |
| Grid.DeltaStep | src/day16.rs:134-145 | the direction of a step is recovered from its two ends |
| Grid.At | src/day16.rs:203-209 | `get` is empty exactly off the grid, otherwise entry `width * y + x` |
| Grid.AtUpdate | src/day20.rs:202-216 | writing one cell changes what `get` sees there and nowhere else |
| Grid.IndexInjective | src/day16.rs:207 | two different cells of the grid never share a matrix entry |
| Grid.FindFirst | src/day16.rs:211-221 | the first cell in reading order holding the item, and none when no cell holds it |
| Grid.ParseGrid | src/day16.rs:176-192 | the width is the first trimmed line's length, and parsing fails on unequal lines or a character that is no tile |
| Grid.ParseGridCells | src/day16.rs:179-191 | the parsed map has one full row per line and the tile at each cell is what its character reads as |
| Day01.ParseLine | src/day01.rs:7-11 | a line is skipped exactly when it has no whitespace-separated field; otherwise its first two fields are parsed as integers below the limit, and a missing second field or a bad number is an error |
| Day01.Columns | src/day01.rs:6-12 | the two columns read from the lines have equal length and at most one entry per line |
| Day01.BlankLinesSkipped | src/day01.rs:8 | appending a line with no fields leaves the columns unchanged |
| Day01.ReadColumns | src/day01.rs:4-12 | the reading loop returns exactly the columns of the lines of the input split at '\n' |
| Day01.ColumnsStep | src/day01.rs:6-11 | reading one more line appends its two numbers to the columns, skips it when blank, and fails when it is malformed |
| Day01.ColumnsFailurePersists | src/day01.rs:9-10 | once a line fails to parse, the whole input fails (the source panics at that line) |
| Day01.Insert | src/day01.rs:14-15 | inserting adds one element |
| Day01.Sort | src/day01.rs:14-15 | sorting keeps the length |
| Day01.InsertSorted | src/day01.rs:14-15 | insertion into a sorted sequence keeps it sorted and adds exactly the inserted element |
| Day01.SortSorted | src/day01.rs:14-15 | `sort` returns a sorted permutation of its input |
| Day01.SortedUnique | src/day01.rs:14-15 | two sorted permutations of the same elements are equal, so the sorted column is determined by its elements |
| Day01.SortedHeadLeast | src/day01.rs:14-15 | the first element of a sorted column is its least |
| Day01.SortPermutation | src/day01.rs:14-15 | sorting depends only on the multiset of elements, not on their order |
| Day01.PairDistance | src/day01.rs:17-20 | the summed distance of zipped columns is zero when either column is empty |
| Day01.PairDistanceSymmetric | src/day01.rs:19 | the summed distance does not depend on which column is which |
| Day01.TotalDistanceInvariant | src/day01.rs:14-20 | the part-1 answer depends only on the multisets of the two columns and is symmetric in them |
| Day01.PairDistanceStep | src/day01.rs:17-20 | the zipped sum splits into the first pair's distance plus the rest |
| Day01.SumDistances | src/day01.rs:17-20 | the summing loop returns the summed absolute differences of the zipped columns |
| Day01.Part1 | src/day01.rs:3-21 | the answer exists exactly when every line parses as two i32 values, and it is the total distance of the sorted columns |
| Day01.SimilarityScore | src/day01.rs:34-41 | counting the right column in a map and looking up each left id gives the sum of each left id times its number of occurrences on the right |
| Day01.CountSnoc | src/day01.rs:35-37 | one more right-column entry raises exactly its own count by one |
| Day01.Part2 | src/day01.rs:23-42 | the answer exists exactly when every line parses as two i64 values, and it is the similarity score of the columns |
| Day02.ParsedLevels | src/day02.rs:8-10 | the words that parse as i32 are kept, in order, and the others dropped, so there are never more levels than words |
| Day02.Remove | src/day02.rs:60-61 | removing one level shortens the report by one |
| Day02.Diffs | src/day02.rs:11-12 | one difference per neighbouring pair, earlier level minus later level |
| Day02.SeqMin | src/day02.rs:13 | the minimum is an element and no element is smaller |
| Day02.SeqMax | src/day02.rs:13 | the maximum is an element and no element is larger |
| Day02.MinMaxOf | src/day02.rs:7-13 | `minmax` reports no elements, one element, or a min/max pair that bounds every element, and reports one element exactly for a single-entry input |
| Day02.Part1KeepsIff | src/day02.rs:6-19 | the part-1 filter keeps a report exactly when it has at least three levels and is safe (all steps +1..+3 or all -1..-3) |
| Day02.DiffsDecreasing | src/day02.rs:15 | all differences in 1..3 exactly when every step goes down by 1 to 3 |
| Day02.DiffsIncreasing | src/day02.rs:15 | all differences in -3..-1 exactly when every step goes up by 1 to 3 |
| Day02.Part1TwoLevels | src/day02.rs:7-17 | the two-level report `1 2` is safe, yet part 1 does not count it |
| Day02.CountPart1 | src/day02.rs:4-20 | part 1 counts at most one report per line |
| Day02.CountPart1Intended | src/day02.rs:4-20 | the intended count of safe reports counts at most one report per line |
| Day02.Part1BelowIntended | src/day02.rs:4-20 | the as-written part-1 count never exceeds the count of safe reports |
| Day02.Skipped | src/day02.rs:43-52 | the greedy walk skips at most every remaining level |
| Day02.CountInvalid | src/day02.rs:39-54 | `count_invalid`'s loop returns the number of levels the greedy walk skips |
| Day02.StepsWithinCons | src/day02.rs:45-51 | good steps throughout a report with a new first level means a good first step and good steps after it |
| Day02.SkippedZeroIff | src/day02.rs:43-52 | the walk skips nothing exactly when every step is good |
| Day02.InvalidCountZeroIff | src/day02.rs:39-54 | `count_invalid` is 0 exactly when the report is monotone with steps of 1 to 3 in the given direction |
| Day02.SkippedOneSound | src/day02.rs:43-52 | a single skip names a level whose removal leaves only good steps |
| Day02.OneSkipTolerable | src/day02.rs:39-54 | a count of one skipped level means the report is safe once that level is removed |
| Day02.MinInvalidSound | src/day02.rs:56-66 | a report that `min_invalid` rates at most 1 is safe or safe after removing one level |
| Day02.MinInvalidIncomplete | src/day02.rs:56-66 | `min_invalid([1, 3, 2, 3])` is 2 although removing the first 3 makes the report safe |
| Day02.SomeRemovalSafe | src/day02.rs:56-66 | true exactly when removing one of the levels from position k on makes the report safe |
| Day02.Tolerant | src/day02.rs:56-66 | the intended part-2 test: true exactly when the report is safe or safe after removing any single level |
| Day02.CountPart2 | src/day02.rs:23-37 | part 2 counts at most one report per line |
| Day02.CountPart2Intended | src/day02.rs:23-37 | the intended part-2 count counts at most one report per line |
| Day02.CountsOrdered | src/day02.rs:3-37 | every report part 1 counts, part 2 counts too, and part 2 never counts more than the intended tolerable reports |
| Day02.MinInvalidExamples | src/day02.rs:100-101 | `min_invalid` is 0 on `1 2 3 4 5` and 1 on `1 2 3 100 4 5` |
| Day04.StepProperties | src/day04.rs:23-38 | adding a direction moves to one of the eight neighbouring cells, the opposite direction moves back, and distinct directions reach distinct cells |
| Day04.AlongLinear | src/day04.rs:76-84 | k repeated steps in one direction add k times its offset |
| Day04.Get | src/day04.rs:53-61 | `get` yields a letter exactly for cells inside the grid |
| Day04.GetIndex | src/day04.rs:53-61 | a cell inside the grid holds the letter at its row-major index `width * y + x`, which lies inside the matrix |
| Day04.TestWord | src/day04.rs:76-84 | `test_word` is true exactly when the needle reads from the cell in the given direction |
| Day04.PrefixAtStep | src/day04.rs:77-82 | one more matching letter extends the matched prefix of the needle |
| Day04.WordAtOffsets | src/day04.rs:76-84 | the needle reads from p in direction d exactly when its k-th letter sits at p + k times the offset |
| Day04.FindInDir | src/day04.rs:63-74 | `find_in_dir` returns exactly the cells of the grid where the needle starts in that direction, in row-major order without repeats |
| Day04.DirectionIndex | src/day04.rs:88-97 | `find` tries every one of the eight directions, each at one place in its list |
| Day04.DirectionIndexOf | src/day04.rs:88-97 | the eight directions of the list are distinct |
| Day04.Find | src/day04.rs:86-103 | `find` returns every (start, direction) occurrence of the needle in the grid, each exactly once |
| Day04.AddHits | src/day04.rs:98-100 | appending one direction's hits adds exactly those occurrences and keeps the list free of repeats |
| Day04.CrossingsAre | src/day04.rs:105-128 | the crossings are the cells of the grid whose square holds two crossing copies of the needle, in one of the four combinations the source tests |
| Day04.FindX | src/day04.rs:105-128 | `find_x` returns exactly the top-left corners of the crossings, in row-major order without repeats |
| Day04.ScanStep | src/day04.rs:108-126 | one step of the row-major scan appends the cell exactly when its test holds and keeps the result ordered |
| Day04.TestX | src/day04.rs:110-121 | the four-way test at a cell is true exactly when two copies of the needle cross in the square at that cell |
| Day04.XAtCentre | src/day04.rs:105-128 | in a crossing of an odd-length word both copies meet at the square's centre on the middle letter |
| Day04.WordLetter | src/day04.rs:76-84 | the k-th letter of an occurrence lies k offsets from its start |
| Day04.Grid | src/day04.rs:134-146 | the grid exists exactly when the text has lines; its width is the longest line, it has one row per line, and every cell holds the line's letter or a padding space |
| Day04.FromStr | src/day04.rs:134-146 | filling a matrix of spaces line by line gives exactly that grid |
| Day04.SameCells | src/day04.rs:138-143 | two row-major grids of one size that agree on every cell are equal |
| Day04.FillRow | src/day04.rs:139-143 | writing a row fills that row's letters and leaves the later cells as spaces |
| Day04.WriteCell | src/day04.rs:141-142 | writing one letter fills that cell and leaves the later cells as spaces |
| Day04.Part1 | src/day04.rs:149-152 | an answer exists exactly when the grid has at least one column, and it is the number of occurrences of XMAS in all eight directions |
| Day04.Part2 | src/day04.rs:154-157 | an answer exists exactly when the grid has at least one column, and it is the number of crossings of MAS |
| Day06.Step | src/day06.rs:26-37 | adding a direction moves to one of the four orthogonal neighbours |
| Day06.TurnCycle | src/day06.rs:39-48 | four right turns face the same way again and no fewer do |
| Day06.Index | src/day06.rs:63-67 | the row-major index of a cell of the map lies inside the tiles |
| Day06.TileAt | src/day06.rs:58-71 | `get` yields a tile exactly for cells inside the map |
| Day06.IndexInjective | src/day06.rs:63-67 | different cells of the map have different indices |
| Day06.Face | src/day06.rs:125-128 | turning right while the cell ahead is an obstacle ends facing a direction whose next cell is not an obstacle, or finds every direction blocked |
| Day06.Next | src/day06.rs:122-134 | one iteration moves the guard to an orthogonal neighbour that is on the map and free, or leaves the map, or is boxed in |
| Day06.IterateShift | src/day06.rs:122-134 | a + b iterations are b iterations from where a iterations lead |
| Day06.MovedBefore | src/day06.rs:122-134 | before an iteration at which the guard is still on the map it always was |
| Day06.RepeatNeverLeaves | src/day06.rs:169-189 | a state that comes back repeats forever, so the guard never leaves (the premise of `has_loop`) |
| Day06.StuckStays | src/day06.rs:125-128 | a boxed-in guard stays boxed in |
| Day06.StuckForever | src/day06.rs:125-128 | once boxed in, the guard never leaves the map |
| Day06.IterateSameStep | src/day06.rs:122-134 | two step functions that agree everywhere give the same walks |
| Day06.Walk | src/day06.rs:122-134 | the step function of a map is one iteration of the walk on it |
| Day06.RunSameObstacles | src/day06.rs:122-134 | the walk looks only at obstacles: the visited marks do not change where the guard goes |
| Day06.FaceSameObstacles | src/day06.rs:125-128 | turning depends only on the obstacles |
| Day06.Map.constructor | src/day06.rs:10-13 | a map holds the given width and tiles |
| Day06.Map.Mark | src/day06.rs:73-77 | `mark` sets the cell's tile to visited and changes nothing else |
| Day06.Map.AddObstacle | src/day06.rs:79-83 | `add_obstable` sets the cell's tile to an obstacle and changes nothing else |
| Day06.Map.RemoveObstacle | src/day06.rs:85-89 | `remove_obstable` sets the cell's tile to not visited and changes nothing else |
| Day06.Map.CountVisited | src/day06.rs:91-96 | `count_visited` returns the number of visited tiles |
| Day06.AddRemoveRestores | src/day06.rs:154-158 | an obstacle put on a free cell and removed again leaves the tiles as they were |
| Day06.CountMark | src/day06.rs:73-77 | marking a cell adds one to the visited count unless it was already visited |
| Day06.InGridStates | src/day06.rs:169-189 | every state on the map is one of the finitely many map states that bound `has_loop` |
| Day06.Turn | src/day06.rs:125-128 | the turning loop ends facing the direction `Face` picks, or reports the guard boxed in |
| Day06.HasLoop | src/day06.rs:169-189 | `has_loop` is true exactly when the guard never leaves the map |
| Day06.RunOnMap | src/day06.rs:122-134 | every state of a walk from a free cell of the map is on a free cell of the map |
| Day06.RunStep | src/day06.rs:124-133 | one more iteration faces the direction `Face` picks and steps, leaving when that cell is off the map |
| Day06.FollowsAppend | src/day06.rs:122-134 | the recorded states of the walk grow by the current state |
| Day06.BeforeExit | src/day06.rs:122-134 | the guard is on the map at every iteration before it leaves |
| Day06.PositionsAppend | src/day06.rs:123 | recording one more state adds its cell to the cells stood on |
| Day06.PatrolledIs | src/day06.rs:122-134 | once the guard has left, the cells recorded on the way are all it ever stood on |
| Day06.MarkedStep | src/day06.rs:123 | marking one more cell keeps the tiles equal to the start with exactly the stood-on cells marked |
| Day06.SameObstaclesMark | src/day06.rs:123 | marking a free cell keeps the obstacles |
| Day06.Patrol | src/day06.rs:121-136 | the part-1 loop marks exactly the cells the guard stands on and returns how many there are |
| Day06.PatrolStep | src/day06.rs:123-133 | one iteration of part 1 marks the guard's cell, keeps the count equal to the cells marked, and moves the guard as the walk does |
| Day06.WalkOn | src/day06.rs:124-133 | before leaving, the guard finds a free direction and its next state is the step that way |
| Day06.MarkCell | src/day06.rs:123 | marking the guard's cell keeps the obstacles and the count equal to the marked cells |
| Day06.MarkFacts | src/day06.rs:123 | what marking the guard's cell does to the marks and their count |
| Day06.TrappingAdd | src/day06.rs:153-157 | considering one more cell adds it to the trapping cells exactly when it is not the start and an obstacle there keeps the guard from leaving |
| Day06.TryObstacle | src/day06.rs:153-159 | trying an obstacle at a cell adds it to the candidates exactly when it traps the guard, and leaves the map as it was |
| Day06.Visit | src/day06.rs:151-160 | visiting the route's next cell keeps the candidates equal to the trapping cells seen so far, and the map unchanged |
| Day06.Obstructions | src/day06.rs:139-167 | the part-2 loop leaves the map as it was and returns the number of cells of the route, other than the start, where one more obstacle traps the guard |
| Day06.Advance | src/day06.rs:145-164 | one iteration of part 2 keeps the candidates equal to the trapping cells among those stood on, and at the end they are all such cells of the route |
| Day06.TileOf | src/day06.rs:108-112 | '#' is an obstacle and every other character (the guard's '^' included) free floor |
| Day06.LastCaret | src/day06.rs:106-112 | the last '^' of a line, or none at all |
| Day06.GuardIn | src/day06.rs:105-115 | the guard is at the last '^' of the text in reading order, or there is none |
| Day06.TileRows | src/day06.rs:104-114 | one tile per character of the padded rows |
| Day06.TileRowsCells | src/day06.rs:104-114 | the padded rows give a map of one row per line with nothing visited, each cell holding its character's tile |
| Day06.ParsedMap | src/day06.rs:99-116 | parsing fails exactly when the text has no lines or no '^'; otherwise the width is the longest line, each cell holds its character's tile, and the guard stands on a free cell of the map |
| Day06.PaddingAfter | src/day06.rs:104 | cells past the end of a line are free floor |
| Day06.LineCell | src/day06.rs:105-107 | a character of a line sits at its row-major index |
| Day06.ParsedMapIs | src/day06.rs:99-116 | the parsed map is the guard's last '^' and the tiles of the padded rows |
| Day06.ParseMap | src/day06.rs:99-116 | `parse_map` fills a matrix of free tiles line by line and returns exactly the parsed guard and map |
| Day06.ReadRow | src/day06.rs:106-112 | reading a row writes its obstacles into the matrix and moves the guard to its last '^' |
| Day06.Part1 | src/day06.rs:118-137 | part 1 fails exactly when parsing fails, and otherwise counts the cells the guard stands on, starting north-bound |
| Day06.Part2 | src/day06.rs:139-167 | part 2 fails exactly when parsing fails, and otherwise counts the cells where one more obstacle traps the guard |
| Day07.FindOperators | src/day07.rs:16-34 | when the search succeeds the string it returns is always empty: no operator is ever written into it |
| Day07.FindOperatorsSound | src/day07.rs:16-34 | whatever the search accepts can be reached by some left-to-right choice of + and * |
| Day07.EvalGrows | src/day07.rs:25-31 | with positive operands left-to-right evaluation never goes down, which is what makes the pruning safe |
| Day07.FindOperatorsComplete | src/day07.rs:16-34 | with a non-negative first operand and positive others, every reachable result is found despite the pruning |
| Day07.ZeroOperandPruned | src/day07.rs:25-31 | with a zero operand the pruning loses a solution: 5 * 1 * 0 reaches 0 but the search says None |
| Day07.ParseEquation | src/day07.rs:39-45 | a line parses exactly when it has a ':', the text before the first one is an i64 and every whitespace-separated word after it is an i64; the result is that i64 and the operands are those words' values, in order |
| Day07.ParseAll | src/day07.rs:42 | the words parse exactly when every one is an i64, giving their values in order |
| Day07.NonEmptyTrimmed | src/day07.rs:4 | only non-empty trimmed lines are kept |
| Day07.TotalCalibrationCorrect | src/day07.rs:3-8 | on equations with positive operands the total is exactly the sum of the results of the solvable equations |
| Day07.ParseEquations | src/day07.rs:48-53 | one equation per line, or an error |
| Day07.Examples | src/day07.rs:61-69 | 190, 3267 and 292 of the example are found solvable, 83 and 7290 not |
| Day08.Minus | src/day08.rs:60-65 | `Point - Vec2` undoes `Point + Vec2` |
| Day08.Diff | src/day08.rs:67-72 | `Point - Point` is the vector that leads from the second point to the first |
| Day08.Neg | src/day08.rs:60-65 | subtracting a vector is adding its opposite |
| Day08.VecAlgebra | src/day08.rs:39-72 | vector differences chain, subtraction undoes addition, and adding two vectors in turn adds their sum |
| Day08.Reflect | src/day08.rs:114-116 | `a - (b - a)` is the point as far beyond a as b is on the other side |
| Day08.RowTowers | src/day08.rs:92-98 | the antennas of one frequency in a row lie in that row, left of the scanned position |
| Day08.Towers | src/day08.rs:89-100 | the antennas of one frequency lie in the scanned rows |
| Day08.RowTowersAre | src/day08.rs:92-98 | a point is an antenna of frequency c in the row exactly when the row holds c there |
| Day08.TowersAre | src/day08.rs:89-100 | a point is an antenna of frequency c exactly when the text holds c there |
| Day08.RowTowersOrdered | src/day08.rs:92-98 | the antennas of a row come left to right |
| Day08.TowersOrdered | src/day08.rs:89-100 | the antennas of a frequency come in reading order |
| Day08.TowersPlaced | src/day08.rs:85-105 | the antennas of one frequency are distinct cells inside the map's size |
| Day08.SoFarNext | src/day08.rs:92-98 | one more character adds an antenna to its own frequency's list exactly when it holds that frequency |
| Day08.Collect | src/day08.rs:93-98 | one more character keeps the map equal to the antennas read so far |
| Day08.NextRow | src/day08.rs:89-100 | a finished row joins the rows before it |
| Day08.CollectRow | src/day08.rs:92-99 | reading a row adds its antennas, in order |
| Day08.AllRows | src/day08.rs:89-104 | after the last row the map has a key exactly for each frequency with an antenna and lists its antennas in reading order |
| Day08.ParseTowerLocations | src/day08.rs:85-105 | the size is the longest line by the number of lines, and each frequency maps to exactly its antennas in reading order, with no other key |
| Day08.WithFirstIs | src/day08.rs:111-123 | the inner loop's union holds exactly the points of some pair with the fixed first tower |
| Day08.PairsUnionIs | src/day08.rs:110-124 | the nested loops' union holds exactly the points of some pair i < j |
| Day08.WithFirstNext | src/day08.rs:111 | the inner loop's union grows by one pair per iteration |
| Day08.PairsUnionLast | src/day08.rs:110 | the outer loop may stop one short, the last tower starting no pair |
| Day08.PairNodesAre | src/day08.rs:112-122 | the loop body adds exactly the in-bounds reflections of either tower through the other |
| Day08.ReflectionsAre | src/day08.rs:107-127 | the antinodes of a frequency are exactly the in-bounds reflections of one of its towers through another |
| Day08.FindAntinodes | src/day08.rs:107-127 | `find_antinodes` returns the union of the in-bounds reflections of every pair i < j |
| Day08.ReflectPairs | src/day08.rs:111-123 | the inner loop adds the reflections of every pair starting at tower i |
| Day08.ReflectPair | src/day08.rs:112-122 | the loop body adds the in-bounds nodes `a - v` and `b + v` |
| Day08.RaySound | src/day08.rs:139-142 | every point of a walk `while in_bounds { node = node + d }` is on the map, a whole number of steps from its start |
| Day08.Between | src/day08.rs:139-148 | a coordinate inside the map at the start and again after k steps is inside after the first step |
| Day08.RayComplete | src/day08.rs:139-148 | every point on the map a whole number of steps from an in-bounds start is visited by the walk |
| Day08.AlongNext | src/day08.rs:139-148 | k steps are one step followed by k - 1 more |
| Day08.AlongBack | src/day08.rs:141 | k steps of `-v` subtract k times v |
| Day08.PairLineIs | src/day08.rs:134-148 | for two distinct towers on the map the two walks cover exactly the in-bounds points a whole number of steps beyond either tower |
| Day08.StepNonZero | src/day08.rs:136 | distinct towers are a non-zero step apart, so both walks end |
| Day08.PairLineSound | src/day08.rs:138-148 | every point of the two walks is on the map and a whole number of steps beyond a tower |
| Day08.PairLineComplete | src/day08.rs:138-148 | every in-bounds point a whole number of steps beyond a tower is covered |
| Day08.HarmonicsAre | src/day08.rs:129-153 | the part-2 antinodes of a frequency are exactly the in-bounds points a whole number of steps beyond a tower of some pair |
| Day08.TowersAreHarmonics | src/day08.rs:138-140 | with two or more towers on the map every tower is itself a part-2 antinode |
| Day08.FindAntinodes2 | src/day08.rs:129-153 | `find_antinodes2` returns the union of both walks over every pair i < j |
| Day08.LinePairs | src/day08.rs:133-149 | the inner loop adds both walks of every pair starting at tower i |
| Day08.LinePair | src/day08.rs:134-148 | the loop body adds exactly the points of the two walks |
| Day08.FreqUnionAdd | src/day08.rs:11-13 | one more frequency adds its own antinodes |
| Day08.ReflectionCellsAre | src/day08.rs:6-16 | the union over frequencies is exactly the cells that reflect one antenna through another of the same frequency |
| Day08.LineCellsAre | src/day08.rs:18-28 | the union over frequencies is exactly the cells on the line of two antennas of one frequency, a whole number of steps beyond one |
| Day08.Part1 | src/day08.rs:6-16 | part 1 counts the cells that reflect one antenna through another of the same frequency |
| Day08.AllReflections | src/day08.rs:11-13 | the loop over the frequencies, in any order, gives the union of their antinodes |
| Day08.Part2 | src/day08.rs:18-28 | part 2 counts the cells on the line of two antennas of one frequency |
| Day08.AllHarmonics | src/day08.rs:23-25 | the loop over the frequencies, in any order, gives the union of their part-2 antinodes |
| Day09.AppendOne | src/day09.rs:118-128 | a file's blocks add up over two disks laid end to end |
| Day09.AppendLen | src/day09.rs:118-128 | the disk sizes add up over two disks laid end to end |
| Day09.Append | src/day09.rs:118-128 | blocks of every file and the total size add up over a concatenation |
| Day09.Single | src/day09.rs:118-122 | a one-run disk holds that run's blocks and is as long as the run |
| Day09.UnitsAbsent | src/day09.rs:118-128 | a disk without runs of a file holds none of its blocks |
| Day09.ParseDiskMap | src/day09.rs:133-159 | one run per character of the trimmed map, alternately a file with the next id and free space, each as long as its digit |
| Day09.Parity | src/day09.rs:136-155 | the file/free alternation: the next index is odd exactly when this one is even, and the next id goes up after a file |
| Day09.ParsedAppend | src/day09.rs:142-155 | appending a run of the right kind keeps the disk a parsed disk |
| Day09.ParsedPrefix | src/day09.rs:45-54 | on a parsed disk file k is the run at index 2k, the only run of k, and its recorded length is that run's length |
| Day09.ParsedWhole | src/day09.rs:45-54 | the same facts for the whole parsed disk |
| Day09.Checksum | src/day09.rs:161-177 | the checksum loop returns the checksum of the disk from position 0 |
| Day09.BlockCheckAppend | src/day09.rs:161-177 | the block checksum splits over two block sequences, the second starting where the first ends |
| Day09.RunBlocks | src/day09.rs:165-173 | a run's blocks add the file id times each block position, and a free run adds nothing |
| Day09.CheckIsBlockCheck | src/day09.rs:161-177 | the checksum is the sum over file blocks of id times position, free blocks only moving the position on |
| Day09.RunCount | src/day09.rs:118-122 | a run of n blocks holds n blocks of its content and none of any other |
| Day09.UnitsBlocks | src/day09.rs:118-128 | a file's blocks on a disk are its blocks counted one by one |
| Day09.BlocksAppend | src/day09.rs:118-128 | the blocks of two disks end to end are the first's then the second's |
| Day09.BlocksOne | src/day09.rs:118-122 | a one-run disk is that run's blocks |
| Day09.Compact | src/day09.rs:6-37 | the reference block compaction: the last file block fills the leftmost free block, one block at a time, and trailing free blocks are dropped; CompactNoGaps, CompactCount and CompactStays state its properties, and CompactBlocks is proved equal to it |
| Day09.CompactNoGaps | src/day09.rs:6-37 | the block compaction leaves no free block |
| Day09.CompactCount | src/day09.rs:6-37 | the block compaction keeps exactly as many blocks of every file |
| Day09.CountLastFree | src/day09.rs:6-37 | a free block at the end does not change the counts |
| Day09.CountFirstFile | src/day09.rs:6-37 | a file block in front keeps its count |
| Day09.CountMoved | src/day09.rs:6-37 | the last file block moving into the first free block keeps the counts |
| Day09.CompactStays | src/day09.rs:6-37 | a file block already inside the compacted area stays where it is: only blocks from the end move, and only into free blocks |
| Day09.CompactLength | src/day09.rs:6-37 | compaction never lengthens the blocks |
| Day09.CompactDropFree | src/day09.rs:20-22 | free blocks at the end of the disk change nothing |
| Day09.CompactFront | src/day09.rs:13-15 | a file block in front stays in front |
| Day09.CompactFileRun | src/day09.rs:13-15 | a file run in front stays in front |
| Day09.CompactFill | src/day09.rs:23-33 | k free blocks in front take the last k blocks of the file run at the end, in order |
| Day09.CompactLastRun | src/day09.rs:19 | free blocks in front of one last run leave just that run, if it is a file |
| Day09.CompactBlocks | src/day09.rs:6-37 | the loop returns file runs only, holding exactly the blocks of every file the disk had, and its blocks are the disk's blocks compacted one block at a time from the end into the leftmost free block |
| Day09.KeepFile | src/day09.rs:13-15 | a file run met by the outer loop goes to the output unchanged |
| Day09.FillGap | src/day09.rs:17-35 | filling one free run from the end moves file blocks from the disk's tail to the output, losing none, never touches the run right after the gap, and what it outputs followed by the compaction of what is left is the compaction of the disk from the gap on |
| Day09.GapUnits | src/day09.rs:17-35 | the blocks of each file that go to the output are those taken off the disk |
| Day09.GapUnitsOf | src/day09.rs:17-35 | the same for one file |
| Day09.PopFree | src/day09.rs:20-21 | popping a free run off the end changes no compaction |
| Day09.PopFile | src/day09.rs:22-25 | a last file that fits the gap goes to the output whole |
| Day09.SplitFile | src/day09.rs:26-31 | a last file longer than the gap fills it and keeps its remaining blocks at the end |
| Day09.SplitRuns | src/day09.rs:26-31 | the blocks after the gap before and after the split |
| Day09.FillGapEnd | src/day09.rs:19 | when the loop stops, the free blocks left in the gap change nothing: none is left, or at most the run right after the gap remains |
| Day09.FirstFit | src/day09.rs:62-77 | the destination is the first free run that fits the file; none is found exactly when every fitting run comes after the file itself |
| Day09.FindDest | src/day09.rs:62-77 | the loop finds that destination |
| Day09.MoveFile | src/day09.rs:79-109 | the loops build exactly the relocated disk: everything before the destination kept, the whole file there, its old place freed, free runs after it merged, the disk size and every other file's blocks kept |
| Day09.Relocate | src/day09.rs:80-109 | the reference relocation: the runs before the destination, the moved file, the rest of the gap, then the later runs settled; RelocateMeans and RelocateBlocks state what it keeps and where the file lands, and MoveFile is proved equal to it |
| Day09.RelocateMeans | src/day09.rs:79-109 | a relocation keeps the runs before the destination, puts the file there with its length, merges free runs after it, and keeps the disk size and every other file's blocks |
| Day09.RelocateBlocks | src/day09.rs:79-109 | block by block, a relocation writes the file into the first blocks of the free run, which were free, frees its old blocks and changes no other block |
| Day09.BlocksAround | src/day09.rs:81-90 | a disk's blocks are those before run i, run i's, and those after it |
| Day09.Landing | src/day09.rs:80-91 | the runs before the destination are kept and the moved file, with its length, takes the destination's place |
| Day09.LandingBlocks | src/day09.rs:81-90 | the runs before the gap, the moved file and what is left of the gap, block by block |
| Day09.MoveBlocks | src/day09.rs:79-109 | moving a file block by block leaves the number of blocks unchanged |
| Day09.BlocksLength | src/day09.rs:118-128 | a disk has as many blocks as its runs' lengths add up to |
| Day09.FreedNone | src/day09.rs:92-108 | freeing a file that is not there changes nothing |
| Day09.MoveInto | src/day09.rs:79-109 | moving into the front of a free stretch, block by block |
| Day09.Settle | src/day09.rs:92-108 | placing the later runs one by one never leaves the new disk empty; SettleMeans and SettleBlocks state what it keeps |
| Day09.SettleMeans | src/day09.rs:91-108 | placing the later runs one by one keeps the runs up to the moved file, keeps free runs merged, adds the size of the placed runs and their blocks except the moved file's |
| Day09.SettleBlocks | src/day09.rs:91-108 | block by block, the later runs are appended with the moved file's old blocks freed |
| Day09.FreedAppend | src/day09.rs:91-108 | freeing a file's blocks splits over a concatenation |
| Day09.Place | src/day09.rs:93-107 | placing one more run never leaves the new disk empty; PlaceMeans, PlaceBlocks and PlaceMerges state what it adds |
| Day09.PlaceMeans | src/day09.rs:92-108 | each later run is kept if it is another file, and otherwise joins the free run before it or starts a new one, keeping the size and the other files' blocks |
| Day09.PlaceBlocks | src/day09.rs:92-108 | block by block, a placed run adds its blocks with the moved file's freed |
| Day09.PlaceMerges | src/day09.rs:98-99 | a freed run joining the free run at the end adds free blocks |
| Day09.Push | src/day09.rs:92-108 | one run more at the end adds its length and its blocks |
| Day09.MoveStep | src/day09.rs:60-110 | one turn of the file loop: the file moves to the first free run that fits before it (FirstFit), else the disk is unchanged; FileCompactKeeps and FileCompactSettled state what the turns keep |
| Day09.FileCompact | src/day09.rs:57-113 | the reference file compaction: files from `id` down to 1 each take one MoveStep with their recorded length; FileCompactKeeps and FileCompactSettled state its properties, and CompactFiles is proved equal to it |
| Day09.CompactFiles | src/day09.rs:42-116 | the whole-file compaction returns the disk with files moved in turn from the highest id down to 1, each to its first fitting free run if there is one before it; every file keeps its blocks and the disk its size |
| Day09.LengthsCoverParsed | src/day09.rs:45-54 | every id from 1 to the largest has a recorded length |
| Day09.FileCompactKeeps | src/day09.rs:54-113 | moving files in turn, each with its own length, keeps every file's blocks and the disk size |
| Day09.FileCompactSettled | src/day09.rs:54-113 | each file moves at most once: after its turn no later move touches its blocks |
| Day09.MaxIdIsLargest | src/day09.rs:55 | the largest file id of a parsed disk is the one the loop starts from |
| Day09.ParsedTotal | src/day09.rs:133-159 | the parsed disk is as long as the digits of the map add up to |
| Day09.ParsedSizes | src/day09.rs:133-159 | each file has as many blocks on the parsed disk as its digit on the map |
| Day09.Part1 | src/day09.rs:3-40 | part 1 returns the checksum of the parsed disk compacted block by block: a layout of file runs only in which every file has the size the map gives it |
| Day09.Part2 | src/day09.rs:42-116 | part 2 returns the checksum of the parsed disk after the whole-file compaction, a layout as long as the map that keeps the size of every file |
| Day09.AllFilesNoGaps | src/day09.rs:6-37 | a layout of file runs only has no free block before its last file block |
| Day10.Get | src/day10.rs:127-133 | `get` yields an item exactly for cells inside the map, the one at the cell's row-major index |
| Day10.Default | src/day10.rs:156-162 | `Map::default` has the given width and height and a zero in every cell |
| Day10.Children | src/day10.rs:57-68 | at most four cells are queued after a cell, each on the map and one lower |
| Day10.ChildrenExact | src/day10.rs:57-68 | exactly the orthogonal neighbours on the map that are one lower are queued |
| Day10.Keep | src/day10.rs:57-68 | the queued candidates are exactly those on the map from which one can walk up to the current height |
| Day10.DownAllTop | src/day10.rs:42-72 | the height bound used for termination does not change the walk counts |
| Day10.DownAllAppend | src/day10.rs:45-69 | walk counts add up over a queue split in two |
| Day10.DownSelf | src/day10.rs:46 | the peak is reached by exactly one walk from itself |
| Day10.DownAllAbove | src/day10.rs:57-68 | walks only go down, so no cell at or above the bound is reached |
| Day10.DownOnlyLower | src/day10.rs:57-68 | a cell higher than the start is never reached |
| Day10.BacktrackFromPeak | src/day10.rs:42-72 | every cell of the result holds the number of downhill walks from the peak that end there |
| Day10.AccountedInit | src/day10.rs:43-46 | at the start the zero map and the queue holding the peak account for every walk |
| Day10.CountStep | src/day10.rs:53-68 | counting the popped cell and queueing its children keeps every walk accounted for |
| Day10.PopStep | src/day10.rs:53-68 | popping a cell and queueing its children moves one walk from the queue to the counts and makes the queue one walk lighter, so the loop ends |
| Day10.FindAll | src/day10.rs:143-153 | `find_all` for a height returns exactly the cells holding it |
| Day10.FindFrom | src/day10.rs:147-152 | the cells holding the height from a point of the row-major scan on |
| Day10.AddPeak | src/day10.rs:13-17 | each trailhead's score gains one peak's contribution: 1 if reachable (part 1) or the number of trails (part 2) |
| Day10.SumScores | src/day10.rs:3-40 | the answer is the sum over trailheads and peaks of the contributions, for part 1 or part 2 |
| Day10.TrailheadScores | src/day10.rs:9-18 | each trailhead's score sums the contributions of every peak |
| Day10.ScoreBelowRating | src/day10.rs:3-40 | the part-1 total never exceeds the part-2 total |
| Day10.ScoreBelowRatingOne | src/day10.rs:13-17 | a trailhead's score never exceeds its rating |
| Day10.Parse | src/day10.rs:100-116 | parsing the input fails when it trims to nothing; a parsed map has single-digit heights, a positive width and one row per line of the trimmed input |
| Day10.Solve | src/day10.rs:3-40 | `day10part1`/`day10part2` fail exactly when parsing fails, and otherwise return the total of every trailhead's score (part 1) or rating (part 2) over every peak |
| Day10.ParseMap | src/day10.rs:100-116 | a map comes out exactly when there is a line, the first is not empty, every line is as long as the first and every character is a digit; its width is the first line's length and its heights are single digits |
| Day10.ParseRows | src/day10.rs:108-113 | the rows parse exactly when every character is a digit, giving one value below 10 per character |
| Day10.ParseRowsCell | src/day10.rs:108-113 | row y, column x of the parsed rows is the digit at column x of line y |
| Day10.ParseMapCell | src/day10.rs:100-116 | the parsed map has one row per line and every cell holds the digit written there |
| Day11.NumDigits | src/day11.rs:60-67 | the digit count d is at least 1 and places n between 10^(d-1) and 10^d |
| Day11.Digits | src/day11.rs:60-67 | the `digits` loop returns the number of decimal digits |
| Day11.NumDigitsShown | src/day11.rs:60-67 | the digit count is the length of the printed number |
| Day11.BlinkStone | src/day11.rs:35-49 | one stone becomes one or two stones |
| Day11.Pow10Add | src/day11.rs:41 | 10^(a+b) = 10^a * 10^b |
| Day11.SplitHalves | src/day11.rs:38-45 | a stone with an even number of digits splits into its left half, which has exactly half the digits, and its right half, below 10^(d/2) |
| Day11.HalfDigits | src/day11.rs:41-42 | the left half of an even-length number has half its digits |
| Day11.DivBounds | src/day11.rs:42 | bounds on v give bounds on v / m |
| Day11.DigitsBetween | src/day11.rs:60-67 | a number between 10^(k-1) and 10^k has k digits |
| Day11.FlatMapAppend | src/day11.rs:34-51 | blinking a row piecewise concatenates the pieces' results |
| Day11.FlatMapPermutation | src/day11.rs:34-51 | the stones a row becomes, counted by value, depend only on the row counted by value |
| Day11.BlinkAllAppend | src/day11.rs:34-51 | blinking two rows laid end to end is blinking each |
| Day11.BlinkAllPermutation | src/day11.rs:31-54 | the counters after a blink depend only on the counters before it, which is what lets the source forget the order |
| Day11.RemoveOne | src/day11.rs:34 | removing a matched stone from two equal multisets keeps them equal |
| Day11.Copies | src/day11.rs:36-48 | c copies of x hold x exactly c times and nothing else |
| Day11.Enumerate | src/day11.rs:34 | some row of stones has exactly the given counters |
| Day11.AddCount | src/day11.rs:36-48 | `entry(x).or_default() += c` adds c stones of value x |
| Day11.AddBlinked | src/day11.rs:35-50 | the loop body adds what count stones of the value become |
| Day11.BlinkGroup | src/day11.rs:34-51 | blinking a row with count stones of a value gives count times that value's result plus the rest's |
| Day11.SplitOff | src/day11.rs:34 | all stones of one value and then the others make up the counters |
| Day11.GroupBlinked | src/day11.rs:34-51 | handling one value keeps the loop's account of what is counted plus what remains, and shrinks what remains |
| Day11.Blink | src/day11.rs:31-54 | `blink` returns the counters of any row with the given counters after one blink |
| Day11.BlinkAllCopies | src/day11.rs:35-50 | c stones of one value blink into c copies of what one of them becomes |
| Day11.TimesSingle | src/day11.rs:36 | c copies of a one-stone result |
| Day11.TimesPair | src/day11.rs:44-45 | c copies of a two-stone result hold c of each half |
| Day11.TimesSplit | src/day11.rs:44-45 | c copies of a two-stone result are c copies of each half together |
| Day11.BlinkRepeatedly | src/day11.rs:6-8 | n blinks of the counters give the counters of any matching row after n blinks |
| Day11.ParsedValues | src/day11.rs:24-26 | the words that parse as usize are kept, in order, the others dropped |
| Day11.CountersOf | src/day11.rs:23-29 | the parser as written: each value present counts once, however often it occurs |
| Day11.IntendedCountersOf | src/day11.rs:23-29 | the intended parser: each value counts as often as it occurs |
| Day11.RepeatedStoneLost | src/day11.rs:23-29 | two stones engraved 0 are counted as one |
| Day11.CountersOfDistinct | src/day11.rs:23-29 | with distinct values the parser as written and the intended one agree |
| Day11.CountOne | src/day11.rs:23-29 | in a list of distinct values each occurs once |
| Day11.Solve | src/day11.rs:3-21 | parts 1 and 2 return the number of stones after n blinks of a row with the counters the parser produced |
| Day11.SolveIntended | src/day11.rs:3-21 | the corrected solver returns the number of stones after n blinks of every parsed stone |
| Day11.ExampleStones | src/day11.rs:35-49 | 0 becomes 1, 17 splits into 1 and 7, 125 becomes 253000 and 2024 splits into 20 and 24 |
| Day12.Index | src/day12.rs:333-339 | the row-major index `width * y + x` of a cell of the map lies inside the matrix |
| Day12.IndexInjective | src/day12.rs:333-339 | two cells of the map share no entry of the matrix |
| Day12.PlotAt | src/day12.rs:333-339 | `get` yields nothing exactly when the column is at least the width or the row at least the height, and otherwise the plot at the cell's index |
| Day12.SameCropsAgree | src/day12.rs:86-125 | whether a neighbour grows the crop depends only on the crops, not on the region labels |
| Day12.Fence | src/day12.rs:86-125 | a plot adds at most four sides to the perimeter |
| Day12.RowFence | src/day12.rs:86-105 | the row neighbours add at most two sides |
| Day12.ColumnFence | src/day12.rs:106-125 | the column neighbours add at most two sides |
| Day12.FenceTotal | src/day12.rs:69-125 | a region's perimeter is at most four per plot |
| Day12.Unlabelled | src/day12.rs:79-84 | the plots without a region are at most all plots |
| Day12.UnlabelledLabel | src/day12.rs:82 | giving an unlabelled plot a region leaves one fewer unlabelled, which bounds the fill |
| Day12.Map.constructor | src/day12.rs:297-304 | a map holds the given width and plots |
| Day12.Map.Label | src/day12.rs:341-347 | setting the region of a plot through `get_mut` gives that plot the region and changes nothing else |
| Day12.PushesAre | src/day12.rs:86-125 | the fill queues exactly the orthogonal neighbours that grow the crop |
| Day12.FenceOrPush | src/day12.rs:86-125 | each of a plot's four sides either leads on to a plot of the crop or is fenced |
| Day12.FillingStep | src/day12.rs:77-125 | labelling the plot at the head of the queue and queueing its neighbours keeps the fill invariant |
| Day12.ClaimStep | src/day12.rs:82 | the labelled plot joins the region's cells, keeping its crop |
| Day12.ClosedStep | src/day12.rs:86-125 | every neighbour of the crop of a labelled plot is labelled or queued |
| Day12.FillingSkip | src/day12.rs:79-80 | a plot that already has a region leaves the queue without changing anything |
| Day12.Neighbour | src/day12.rs:86-93 | a neighbour with the crop is queued, any other side adds one to the perimeter |
| Day12.Neighbours | src/day12.rs:86-125 | the four sides of a plot queue its same-crop neighbours and add its fences to the perimeter |
| Day12.RowNeighbours | src/day12.rs:86-105 | right, then left unless in the first column |
| Day12.ColumnNeighbours | src/day12.rs:106-125 | down, then up unless in the first row |
| Day12.Visit | src/day12.rs:77-125 | handling the plot taken from the queue keeps the fill invariant and reduces the unlabelled plots or the queue |
| Day12.GrowStep | src/day12.rs:77-125 | the plot taken from the queue is the start or next to a labelled plot, so the labelled plots keep growing from the start, and what it queues is next to it |
| Day12.GrownPaths | src/day12.rs:59-136 | every plot of a sequence grown from the start is reached from the start by a chain of adjacent plots of that sequence |
| Day12.MapRegion | src/day12.rs:59-136 | `map_region` labels only unlabelled plots of the start's crop, grown from the start one adjacent plot at a time (so each is reachable from it through the labelled plots), leaves every plot of the crop next to them labelled, keeps every crop, and returns their number as the area and their fences as the perimeter |
| Day12.AdjacentSymmetric | src/day12.rs:86-125 | adjacency goes both ways |
| Day12.FenceSameCrops | src/day12.rs:86-125 | the fences depend only on the crops |
| Day12.MembersStep | src/day12.rs:16-21 | a new region's plots are the ones carrying its id |
| Day12.PricedStep | src/day12.rs:16-21 | a new region's size is its plot count and fence total, all of its start's crop |
| Day12.MaximalStep | src/day12.rs:16-21 | a new region contains every same-crop neighbour of its plots |
| Day12.DiscoveredStep | src/day12.rs:14-23 | a new region starts at the first unlabelled plot in reading order |
| Day12.ScanCell | src/day12.rs:16-21 | the scan body starts a new region at a plot without one and keeps the scan invariant |
| Day12.RowDone | src/day12.rs:14-15 | a finished row moves the scan to the start of the next |
| Day12.LabelRegions | src/day12.rs:10-23 | after the scan every plot has a region, and region k + 1 is exactly a maximal same-crop group with the right area and perimeter, numbered in reading order of first plots |
| Day12.StaysOnBoundary | src/day12.rs:165-260 | a walker on the region's boundary stays on it |
| Day12.StepMoves | src/day12.rs:165-260 | each step goes straight on along the edge, turns in place, or moves onto the plot diagonally ahead |
| Day12.TurnSwaps | src/day12.rs:161-260 | a quarter turn swaps the edge's orientation |
| Day12.Turns | src/day12.rs:165-260 | straight on means one plot further along the same edge, and a turn swaps orientation |
| Day12.Walk | src/day12.rs:155-267 | a finished walk around a boundary has turned an even number of times, at least twice, and has marked only top edges, the start among them |
| Day12.TopEdgeAbove | src/day12.rs:142-150 | above any plot of a region, in its column, is a top edge |
| Day12.TopEdges | src/day12.rs:140-150 | the collected top edges are exactly the region's top edges, in reading order |
| Day12.CountSides | src/day12.rs:138-270 | `count_sides` returns an even count, at least 2 for a region with any plot |
| Day12.PlotRow | src/day12.rs:286-295 | each character of a line becomes a plot of that crop without a region |
| Day12.PlotRowsCells | src/day12.rs:309-321 | lines of one width lay out their characters row after row, none with a region |
| Day12.ParsedGrid | src/day12.rs:306-322 | a map is read exactly when the trimmed input has lines, the first one non-empty and all as long as it; the width is then positive |
| Day12.ParsedGridCells | src/day12.rs:306-322 | a parsed map has one row per line, no plot with a region, and the x-th character of line y at column x of row y |
| Day12.Partitioned | src/day12.rs:14-23 | once every plot has a region, the regions partition the map in order of discovery |
| Day12.Finished | src/day12.rs:14-23 | after the scan the regions partition the map in order of discovery and each region's first plot carries its id |
| Day12.Covered | src/day12.rs:14-23 | every plot of the map is in some region |
| Day12.Disjoint | src/day12.rs:14-23 | no plot is in two regions |
| Day12.Ordered | src/day12.rs:14-23 | every plot before a region's first plot belongs to an earlier region |
| Day12.Scan | src/day12.rs:8-23 | parsing fails exactly when the input is not a map; otherwise the regions partition it, maximal and correctly sized, in reading order |
| Day12.Part1 | src/day12.rs:7-26 | part 1 fails exactly when the input is not a map, and otherwise sums area times perimeter over those regions |
| Day12.SidesPrice | src/day12.rs:46-49 | the sum of each region's sides times its area, each count even and at least 2 |
| Day12.Part2 | src/day12.rs:28-50 | part 2 sums sides times area over the same regions, each side count even and at least 2 |
| Day13.AbsMul | src/day13.rs:37 | the size of a product is the product of the sizes, used for Rust's truncating division |
| Day13.DivExact | src/day13.rs:37-38 | dividing an exact multiple gives back the factor |
| Day13.TruncDivExact | src/day13.rs:37-40 | Rust's `/` of an exact multiple, of either sign, gives back the factor |
| Day13.GetMove | src/day13.rs:33-50 | any presses `get_move` returns win the machine: n * A + m * B lands on the prize on both axes |
| Day13.WinsCramer | src/day13.rs:34-37 | any winning pair satisfies Cramer's rule `n * denom == num` |
| Day13.GetMoveComplete | src/day13.rs:33-50 | with a non-zero determinant and B moving along X, a winnable machine has exactly one win and `get_move` returns it |
| Day13.PriceOfWin | src/day13.rs:9-11 | a won machine costs 3 tokens per A press and 1 per B press |
| Day13.PriceOfLoss | src/day13.rs:9 | a machine that cannot be won costs nothing |
| Day13.ShiftedDivisible | src/day13.rs:19-24 | moving the prize by 10^13 keeps the machines that `get_move` can handle |
| Day13.NegativePresses | src/day13.rs:33-50 | `get_move` accepts a negative press count: A = (1, 1), B = (1, 2), prize (0, 1) returns (-1, 1) and costs -2 tokens |
| Day13.GetMoveChecked | src/day13.rs:33-50 | the intended move returns only non-negative presses that win |
| Day13.GetMoveCheckedComplete | src/day13.rs:33-50 | the intended move finds a win exactly when some non-negative presses win the machine |
| Day13.Examples | src/day13.rs:93-131 | the test machines: (80, 40) and (38, 86) win part 1, and of the shifted machines the first and third are lost and the second and fourth are won |
| Day14.SimulateRobots | src/day14.rs:99-114 | `simulate_robots` keeps the number and order of robots, moving each one independently |
| Day14.SimulatedInRegion | src/day14.rs:104-112 | after any number of seconds every robot keeps its velocity and lies inside the region, `rem_euclid` never going negative |
| Day14.Periodic | src/day14.rs:21-36 | x positions repeat every `w` seconds and y positions every `h` seconds |
| Day14.QuadrantOf | src/day14.rs:148-168 | a robot is in no quadrant exactly when it is on the middle column or the middle row |
| Day14.CountIn | src/day14.rs:151-169 | a quadrant holds at most all robots |
| Day14.QuadrantsPartition | src/day14.rs:156-169 | each robot is counted in exactly one quadrant or on a middle line |
| Day14.SafetyScore | src/day14.rs:146-172 | the loop's four counters multiply to the product of the quadrant counts |
| Day14.ScoreZeroWhenQuadrantEmpty | src/day14.rs:171 | an empty quadrant makes the score 0 |
| Day14.AlignPeriods | src/day14.rs:64-74 | the search returns `a + n * w` for the least `n < h` with `a - b + n * w` divisible by `h`, and 0 if there is none |
| Day14.AlignmentExists | src/day14.rs:64-72 | for the 101 by 103 region such an `n` always exists, so part 2 never falls back to 0 |
| Day14.WrappingExamples | src/day14.rs:202-231 | the wrapping tests: (1, 1) moving 2 or -2 along x in a 3 by 3 region reaches (0, 1) and (2, 1) |
| Day14.ExampleSimulation | src/day14.rs:178-199 | the example robots after 100 seconds in the 11 by 7 region |
| Day14.ExampleScore | src/day14.rs:195-200 | the example scores 12 |
| Day15.FromChar | src/day15.rs:113-121 | `Move::from_char` gives a move exactly for `^`, `v`, `<` and `>` |
| Day15.FromCharToChar | src/day15.rs:113-152 | reading the arrow a move displays as gives that move back, and only that arrow reads as it |
| Day15.UnitMoves | src/day15.rs:123-137 | each move is one step along one axis, and only Left and Right keep the row |
| Day15.ParseMoves | src/day15.rs:154-156 | `parse_moves` keeps at most one move per character |
| Day15.ParseShowMoves | src/day15.rs:154-156 | the arrows of a list of moves, with any other characters mixed in, read back as that list |
| Grid.Index | src/day15.rs:198 | the index `width * y + x` of a cell of the map lies in the matrix |
| Day15.Write | src/day15.rs:202-208 | writing through `get_mut` keeps the size of the matrix |
| Day15.WriteTiles | src/day15.rs:255-256 | a write trades one overwritten tile for the written one |
| Day15.WriteCell | src/day15.rs:202-208 | after a write the cell holds the new tile and every other cell what it held |
| Grid.CellOfIndex | src/day15.rs:214-215 | entry i of the matrix is the cell `(i % w, i / w)` and no other |
| Day15.Occurrences | src/day15.rs:210-221 | `find_all` yields exactly the cells holding the tile, in reading order |
| Day15.Map.constructor | src/day15.rs:158-165 | a map holds the given width and matrix |
| Day15.Map.Put | src/day15.rs:202-208 | writing through `get_mut` replaces exactly entry `width * y + x` |
| Day15.RowsFit | src/day15.rs:190-192 | the rows counted by `height` fit in the matrix |
| Day15.RunNext | src/day15.rs:241-253 | a push from a box or robot succeeds exactly when the push from the next cell does, or that cell is empty |
| Day15.ShiftStep | src/day15.rs:251-256 | moving a tile onto the cell whose run has just been shifted shifts the run one longer |
| Day15.PushStep | src/day15.rs:251-257 | the two writes after a successful inner push complete the outer push |
| Day15.RunMovable | src/day15.rs:236-253 | every cell of a run holds a box or the robot |
| Day15.RunCell | src/day15.rs:241-256 | the cells a push fills held no wall, and what moves onto them is a box or the robot |
| Day15.ShiftedWalls | src/day15.rs:255-256 | a push leaves its start empty and moves no wall |
| Day15.PushRefused | src/day15.rs:232-252 | a refused push changes nothing |
| Day15.PushDone | src/day15.rs:255-257 | the two closing writes of a push complete it |
| Day15.Push | src/day15.rs:228-260 | `try_move` succeeds exactly when the line of boxes from the start ends at an empty cell; it then shifts that line one cell and returns the start's next cell, else changes nothing; the map keeps its tiles |
| Day15.TryMove | src/day15.rs:228-260 | the method leaves the map and answer that the functional push gives |
| Day15.Doubled | src/day15.rs:262-271 | the widened matrix is twice as long |
| Day15.DoubledCells | src/day15.rs:64-74 | entries 2i and 2i + 1 of the widened matrix are the two halves of tile i |
| Day15.Double | src/day15.rs:262-271 | `double` builds a fresh map twice as wide holding the halves of each tile in place |
| Day15.DoubledRows | src/day15.rs:262-271 | the widened map has the rows of the original |
| Day15.DoubledAt | src/day15.rs:262-271 | columns 2x and 2x + 1 of the widened map hold the halves of the tile at column x |
| Day15.DoubledPaired | src/day15.rs:64-74 | after widening every left half has its right half beside it and the other way round |
| Day15.PairedWrite | src/day15.rs:293-294 | writing the robot or an empty cell over something other than a box half keeps every box whole |
| Day15.CanMove | src/day15.rs:335-359 | the reference `can_move`: walls and cells off the map refuse, empty cells accept, and a box moving up or down needs both cells beyond it; Refused proves that a refused push leaves the map as it is, and Push2 moves nothing unless it holds |
| Day15.Refused | src/day15.rs:280-282 | when `can_move` says no, nothing changes |
| Day15.MovedEmpty | src/day15.rs:288 | an empty cell moves in place |
| Day15.RobotZone | src/day15.rs:289-295 | the push started on the cell ahead of the robot changes nothing outside the robot's zone |
| Day15.AheadOfRobot | src/day15.rs:289-295 | with whole boxes, clearing the cell ahead of the robot leaves the robot alone |
| Day15.RobotStays | src/day15.rs:292 | when the cell ahead cannot be cleared, the robot stays |
| Day15.RobotSteps | src/day15.rs:292-295 | once the cell ahead is cleared, the robot steps onto it and leaves its cell empty |
| Day15.PlaceBoxPaired | src/day15.rs:300-327 | placing a box on two cells keeps every box whole |
| Day15.PlaceBoxTiles | src/day15.rs:300-327 | placing a box trades two empty cells for its halves |
| Day15.ClearBoxPaired | src/day15.rs:300-327 | clearing a whole box keeps every other box whole |
| Day15.ClearBoxTiles | src/day15.rs:300-327 | clearing a box trades its halves for two empty cells |
| Day15.MoveBoxFacts | src/day15.rs:300-327 | moving a whole box onto empty cells or its own keeps every box whole and the tiles as they were |
| Day15.BoxFinal | src/day15.rs:297-329 | the cells a moved box leaves or enters lie in the zone of its push |
| Day15.MoveBoxFrame | src/day15.rs:297-329 | moving the box changes no cell outside its push and empties the cells it leaves |
| Day15.BoxMoved | src/day15.rs:297-329 | once the cells ahead are cleared, moving the box completes its push |
| Day15.BoxStuck | src/day15.rs:299-323 | a box whose push is refused further on stays where it is |
| Day15.LeftAhead | src/day15.rs:298-299 | pushing a left half leftwards starts a push one cell on that leaves the box alone |
| Day15.RightAhead | src/day15.rs:305-306 | pushing a left half rightwards starts a push two cells on, past its right half |
| Day15.VerticalFirst | src/day15.rs:313 | the first inner push of a vertical move starts beyond the left half |
| Day15.VerticalSecond | src/day15.rs:314 | the second inner push starts beyond the right half and keeps the first cell empty |
| Day15.RightHalfHandsOver | src/day15.rs:331 | a right half hands its push to its left half, with the same zone and cleared cells |
| Day15.LeftWrites | src/day15.rs:300-303 | the three writes of a left push move the box one cell left |
| Day15.RightWrites | src/day15.rs:307-310 | the three writes of a right push move the box one cell right |
| Day15.VerticalWrites | src/day15.rs:315-328 | the four writes of a vertical push move the box one row |
| Day15.TryMove2 | src/day15.rs:279-333 | the method leaves the map and answer that the functional wide push gives, and so keeps its promise |
| Day15.PushRobot | src/day15.rs:289-296 | the robot's arm leaves what the functional robot arm gives |
| Day15.PushLeft | src/day15.rs:298-304 | a box pushed left leaves what the functional left push gives |
| Day15.PushRight | src/day15.rs:305-311 | a box pushed right leaves what the functional right push gives |
| Day15.PushVertical | src/day15.rs:312-329 | a box pushed up or down leaves what the functional vertical push gives |
| Day15.PushVerticalRest | src/day15.rs:314-329 | the rest of a vertical push leaves what the functional rest gives |
| Day15.MoveBoxVertically | src/day15.rs:315-318 | the four writes of a vertical push: the new matrix is the old one with the box's halves written one row on and its old cells emptied |
| Day15.LeftDone | src/day15.rs:300-303 | the writes of a left push leave the map as promised |
| Day15.RightDone | src/day15.rs:307-310 | the writes of a right push leave the map as promised |
| Day15.VerticalDone | src/day15.rs:315-328 | the writes of a vertical push leave the map as promised |
| Day15.Push2 | src/day15.rs:279-333 | the wide `try_move` does nothing when `can_move` says no; otherwise boxes stay whole, the tiles are kept, only the push's zone changes, the cells the tile leaves are empty and the robot ends on the returned cell |
| Day15.Push2Robot | src/day15.rs:289-296 | the robot's arm keeps the same promise |
| Day15.Push2Left | src/day15.rs:298-304 | a box pushed left keeps the same promise, moving the box one cell left once the cell before it is clear |
| Day15.Push2Right | src/day15.rs:305-311 | a box pushed right keeps the same promise, moving the box one cell right once the cell past it is clear |
| Day15.Push2Vertical | src/day15.rs:312-329 | a box pushed up or down keeps the same promise |
| Day15.Push2VerticalRest | src/day15.rs:314-329 | once the cell beyond the left half is clear, the rest of the vertical push keeps the same promise |
| Day15.VerticalRestWrites | src/day15.rs:314-329 | the four writes of a vertical push lie on the map and give what the functional rest gives |
| Day15.VerticalCells | src/day15.rs:315-328 | the cells a vertical push writes lie on the map |
| Day15.ParseTile | src/day15.rs:90-102 | `Tile::from_str` reads exactly `.`, `O`, `#` and `@`, a box only from `O` and the robot only from `@` |
| Day15.ParseMap | src/day15.rs:167-183 | a map is read exactly when there are lines, all as long as the first, and every character is a tile; the width is the first line's length |
| Day15.ParseRowsCell | src/day15.rs:175-180 | row y, column x of the matrix is character x of line y |
| Day15.ParseMapCells | src/day15.rs:167-183 | the parsed map has one row per line, with character x of line y at column x of row y |
| Day15.Warehouse | src/day15.rs:7-10 | the input is read exactly when it has a blank line and the map part parses; the width is positive |
| Day15.RobotFollows | src/day15.rs:14-19 | after a push the robot stands on the cell `try_move` answered, or where it was, and no wall moved |
| Day15.Walk | src/day15.rs:14-19 | the reference walk: each move is pushed in turn from the cell the last successful push left the robot on; WalkKeeps states what it keeps and Part1 is proved equal to it |
| Day15.WalkKeeps | src/day15.rs:14-19 | the robot's walk keeps the map's tiles and walls, and the robot stands on the cell it is tracked on |
| Day15.Walk2 | src/day15.rs:35-40 | the same walk on the widened map; Walk2Keeps states what it keeps and Part2 is proved equal to it |
| Day15.Walk2Keeps | src/day15.rs:35-40 | the wide walk keeps the tiles and every box whole, and the robot stands on the cell it is tracked on |
| Day15.Part1 | src/day15.rs:6-24 | part 1 fails exactly when the input cannot be read or has no robot; otherwise its final map and robot are the walk of the moves from the first robot, and the answer is the GPS sum of that map's boxes; the map keeps the first map's tiles and walls |
| Day15.Part2 | src/day15.rs:26-45 | part 2 fails exactly when the input cannot be read or the widened map has no robot; otherwise its final map and robot are the wide walk of the moves from the first robot of the widened map, and the answer is the GPS sum of that map's left halves; every box stays whole |
| Day16.ParseTile | src/day16.rs:232-244 | `Tile::from_str` reads exactly `S`, `.`, `#` and `E`, the start only from `S`, the end only from `E` and a wall only from `#` |
| Day16.CostIsStepsAndTurns | src/day16.rs:93-116 | the score of a walk is its number of steps plus a thousand per turn |
| Day16.RouteAdjacent | src/day16.rs:88-116 | consecutive cells of a walk are neighbours |
| Day16.RouteExtend | src/day16.rs:88-116 | a step ahead or a quarter turn and step extends a walk, facing the new way, dearer by 1 or 1001 |
| Day16.Highest | src/day16.rs:69 | the heap yields an entry no other entry outranks |
| Day16.Pop | src/day16.rs:69 | popping takes an entry of highest priority and leaves the others in the queue |
| Day16.Successors | src/day16.rs:88-117 | every entry pushed is a turn right, a turn left or a step ahead onto an open cell, with its price |
| Day16.ExtendSound | src/day16.rs:88-117 | a pushed entry's walk is a walk from the start through open cells whose cost is minus its balance |
| Day16.SuccessorsSound | src/day16.rs:88-117 | every entry pushed after a sound one is sound |
| Day16.Costs | src/day16.rs:66 | one cost per collected path |
| Day16.CollectPath | src/day16.rs:77-86 | a walk reaching the End that costs no more than the score so far joins the paths and becomes the score |
| Day16.Scored | src/day16.rs:120 | the result is -1 without paths, and otherwise the cost of the last path, which no collected path undercuts |
| Day16.Search | src/day16.rs:50-121 | every path returned walks from the start through open cells to the End, no path found later costs more, and the score is the last, least cost or -1 |
| Day16.Spots | src/day16.rs:18 | the cells of a path are exactly the cells on it |
| Day16.CellsOf | src/day16.rs:16-19 | a cell is among the best spots exactly when it lies on one of the paths |
| Day16.BestSpots | src/day16.rs:16-19 | the loop gathers exactly the cells of all paths |
| Day16.Day16 | src/day16.rs:11-22 | no answer for an unreadable map or one without start or end; otherwise the score and number of best spots of paths that satisfy the search's promise |
| Day17.OpcodeOf | src/day17.rs:57-73 | `Opcode::try_from` succeeds exactly for 0..7 and otherwise reports an invalid opcode |
| Day17.OpcodeRoundTrip | src/day17.rs:57-73 | decoding inverts the numbering of the opcodes, both ways |
| Day17.XorTwice | src/day17.rs:189 | two `bxl` with the same operand cancel |
| Day17.XorBelow | src/day17.rs:189-199 | exclusive or of values below 2^k stays below 2^k |
| Day17.Combo | src/day17.rs:157-165 | a combo operand 0..3 is itself, 4, 5 and 6 are registers A, B and C, and 7 or more is an invalid program |
| Day17.StepShape | src/day17.rs:181-213 | a successful step moves the instruction pointer by two, or to the operand for a taken `jnz`; only `out` adds to the output, one value in 0..7; `bst` leaves B in 0..7 |
| Day17.RunOutputs3Bit | src/day17.rs:215-224 | a finished run outputs only values in 0..7, extending the output it started with |
| Day17.Computer.constructor | src/day17.rs:147-155 | `Computer::new` starts at instruction 0 with the problem's registers and program |
| Day17.Computer.TakeValue | src/day17.rs:171-179 | the value under the instruction pointer, which then advances; at the end of the program an end-of-program error and no change |
| Day17.Computer.Step | src/day17.rs:181-213 | one in-place step leaves the registers, output and stop reason the step function gives |
| Day17.Computer.Run | src/day17.rs:215-224 | the loop ends with the output when the program ends and with the error otherwise, as the run function gives within the step bound |
| Day17.ParseRegister | src/day17.rs:114-128 | a register is read only from a line starting with its prefix, as the signed 64-bit number after it |
| Day17.ParseBytes | src/day17.rs:133-137 | the program is one byte per comma-separated piece, in order |
| Day17.ParseProblem | src/day17.rs:108-143 | fewer than five lines fail; a problem is read only from lines with the three register prefixes and the program prefix on the fifth, with bytes below 256 |
| Day17.Part2 | src/day17.rs:10-40 | any value the search returns for a non-empty program makes the program print itself |
| Day17.ShiftDecreases | src/day17.rs:187 | a right shift of a positive A by at least one makes it smaller |
| Day17.ShiftLoopRuns | src/day17.rs:231-245 | the test program `adv k; out 4; jnz 0` prints A's low three bits after each shift until A is 0 |
| Day17.Rounds3 | src/day17.rs:215-224 | a run that takes three steps per round prints one value per round |
| Day17.ShiftLoopEnds | src/day17.rs:193-197 | past the jump the test program ends |
| Day17.ShiftRound | src/day17.rs:186-197 | one round of the test program is `adv`, `out` and `jnz` in turn |
| Day17.AdvStep | src/day17.rs:186-188 | `adv k` shifts A right by k |
| Day17.OutStep | src/day17.rs:201-203 | `out 4` prints A's low three bits |
| Day17.JnzStep | src/day17.rs:193-197 | `jnz 0` jumps back while A is non-zero and falls through otherwise |
| Day17.Example1 | src/day17.rs:247-250 | the first test prints 4,6,3,5,6,3,5,2,1,0 |
| Day17.Example2 | src/day17.rs:252-255 | with A = 117440 the second test program prints itself |
| Day18.BlockMap | src/day18.rs:49-53 | the grid is h rows of w cells, and a cell is blocked exactly when a byte fell on it |
| Day18.BuildMap | src/day18.rs:49-53 | marking the bytes one by one on an empty grid gives that grid |
| Day18.ExtendWalk | src/day18.rs:74-93 | a walk extended by a step to an open neighbour is a walk |
| Day18.MaxIndex | src/day18.rs:65 | the heap hands out a greatest entry |
| Day18.WalkStaysSeen | src/day18.rs:64-94 | once the queue is empty every walk from the start stays among the cells seen |
| Day18.AfterPop | src/day18.rs:65-72 | taking an entry out leaves the seen cells closed except at its cell |
| Day18.NeighbourCases | src/day18.rs:74-93 | a cell's neighbours are the four cells beside it |
| Day18.AfterExpand | src/day18.rs:72-93 | once a cell is seen and its open unseen neighbours queued, the seen cells are closed again |
| Day18.Pop | src/day18.rs:65 | `pop` takes a greatest entry, whose cell ends a walk of `-steps` steps, and leaves the rest |
| Day18.RemovePositions | src/day18.rs:65 | the queue without one entry still names every other cell |
| Day18.Push | src/day18.rs:74-93 | a neighbour on the grid, open and unseen, is queued one step further on, with a walk to it |
| Day18.Expand | src/day18.rs:72-93 | the popped cell becomes seen and all its open neighbours are queued |
| Day18.ShortestPathLen | src/day18.rs:48-97 | a number returned is the length of a walk over open cells from (0, 0) to (w - 1, h - 1); nothing is returned only when no such walk exists |
| Day18.Bisect | src/day18.rs:27-39 | the binary search ends with the way surviving the first `lower - 1` bytes and, unless `lower` is the top, cut after the first `lower` |
| Day18.Survives | src/day18.rs:32 | the test says whether a way is left after the first n bytes |
| Day18.FirstBlockInPath | src/day18.rs:21-46 | as written: the byte k where the way survives k - 1 bytes and is cut after k, or the last byte even when the way survives all of them |
| Day18.FirstCuttingBlock | src/day18.rs:21-46 | as intended: the byte whose fall first cuts the way, or nothing when no byte does |
| Day18.OneByteLeavesWay | src/day18.rs:21-46 | on a 2 by 2 grid one byte at (1, 0) leaves the way open |
| Day18.LastByteReturned | src/day18.rs:41-42 | the as-written search still names that byte |
| Day18.NoCuttingByte | src/day18.rs:21-46 | the corrected search names no byte there |
| Day18.ParseBlock | src/day18.rs:103-107 | a block is read only as two numbers below 2^64 |
| Day18.ParseBlocks | src/day18.rs:99-110 | `parse` keeps at most one block per line |
| Day18.ParseShowBlock | src/day18.rs:103-104 | a block written as "x,y" reads back as itself |
| Day18.ShowBlocks | src/day18.rs:116-142 | one line per block, in order |
| Day18.ParseBlocksAll | src/day18.rs:99-110 | lines that each read as a block give those blocks in order |
| Day18.ParseShowBlocks | src/day18.rs:99-110 | a written list of blocks reads back as the list |
| Day18.SkipsCommaless | src/day18.rs:105-107 | a line without a comma is skipped |
| Day19.StrLessIrreflexive | src/day19.rs:8 | no string sorts before itself |
| Day19.StrLessTotal | src/day19.rs:8 | any two strings are equal or one sorts before the other |
| Day19.StrLessTransitive | src/day19.rs:8 | the string order is transitive |
| Day19.PrefixLe | src/day19.rs:48 | a prefix of a design never sorts after it |
| Day19.FirstLetterLe | src/day19.rs:49 | a non-empty prefix of a design does not sort before its first letter |
| Day19.InsertSorted | src/day19.rs:8 | inserting into a sorted list keeps it sorted and adds exactly that towel |
| Day19.SortSorted | src/day19.rs:8 | `sort` returns a sorted permutation of the towels |
| Day19.WaysOverAppend | src/day19.rs:53-58 | the sum over two lists of towels is the sum of the two sums |
| Day19.WaysOverNone | src/day19.rs:53-58 | towels that start no part of the design add nothing |
| Day19.PartitionPoint | src/day19.rs:48-49 | `partition_point` returns the first index whose towel fails the test, all before it passing |
| Day19.AfterWindow | src/day19.rs:48 | on sorted towels no towel past the window starts the design |
| Day19.BeforeWindow | src/day19.rs:49 | on sorted towels no non-empty towel before the window starts the design |
| Day19.WindowComplete | src/day19.rs:47-58 | summing over the window `begin..end` loses no towel that starts the design |
| Day19.WindowNonEmpty | src/day19.rs:49 | a towel in the window is not empty |
| Day19.Memo.constructor | src/day19.rs:10 | the cache starts empty |
| Day19.Memo.MakeDesign | src/day19.rs:39-62 | `make_design` returns the number of ways to lay the towels end to end into the design, and caches it; every cached count stays correct |
| Day19.Tally | src/day19.rs:12-21 | no more valid designs than designs |
| Day19.TallyValidBelowTotal | src/day19.rs:15-21 | the valid designs are at most the total ways, and none when there are no ways |
| Day19.Day19 | src/day19.rs:4-24 | the loop returns, for the sorted towels, the designs that can be made and the total ways to make them |
| Day19.WaysPermutation | src/day19.rs:7-8 | the number of ways does not depend on the towels' order, so sorting changes nothing |
| Day19.WaysOverPermutation | src/day19.rs:53-58 | the sum over towels does not depend on their order |
| Day19.RemoveMatching | src/day19.rs:7-8 | removing the same towel from two permutations keeps them permutations |
| Day19.WaysOverRemove | src/day19.rs:53-58 | each towel contributes its own term to the sum |
| Day19.SplitOn | src/day19.rs:31 | `split(", ")` yields at least one piece |
| Day19.ParseInput | src/day19.rs:26-37 | the input fails to parse exactly when the trimmed input has no line |
| Day19.TestTowelsSorted | src/day19.rs:69 | the example towels in sorted order |
| Day19.OnlyMatch | src/day19.rs:53-58 | when only one towel starts the design, the sum is that towel's share |
| Day19.Mismatch | src/day19.rs:54 | a towel that differs from the design at some position does not start it |
| Day19.ExampleBrwrr | src/day19.rs:69-89 | "brwrr" can be made in exactly two ways |
| Day19.ExampleUbwu | src/day19.rs:69-89 | "ubwu" cannot be made |
| Day20.ParseTile | src/day20.rs:240-252 | `RaceTrackTile::from_str` reads `S`, `.`, `#` and `E` as start, unexplored, wall and end, and nothing else |
| Day20.Map.constructor | src/day20.rs:158-165 | a map holds the given width and matrix |
| Day20.Map.Set | src/day20.rs:210-216 | `set` on the grid replaces the tile and returns the old one; off the grid nothing comes back and nothing changes |
| Day20.TracedShape | src/day20.rs:23-67 | a track is a path of distinct grid cells from the Start to an End, each one step from the one before |
| Day20.TraceNext | src/day20.rs:49-62 | the next cell of a track is the one open new neighbour of the last |
| Day20.TracePrefix | src/day20.rs:31-64 | two tracks of one map agree on their common length |
| Day20.TraceUnique | src/day20.rs:23-67 | a map has at most one track, the walk being forced at every step |
| Day20.OpenNow | src/day20.rs:36-38 | while walking, a cell is open exactly when it was open at first and is not on the track yet |
| Day20.MarkNext | src/day20.rs:36-38 | marking the next cell with its distance extends the marking |
| Day20.MarkStart | src/day20.rs:35 | the Start is not marked |
| Day20.MarkedOnEnd | src/day20.rs:34 | reaching the End leaves the marks as they are |
| Day20.Explored | src/day20.rs:37 | marking an unexplored cell leaves one fewer, which bounds the walk |
| Day20.Advance | src/day20.rs:49-63 | stepping on to the found cell keeps the walk a prefix of every track |
| Day20.WalkOn | src/day20.rs:62 | the walk steps on to the one open neighbour found |
| Day20.FollowOn | src/day20.rs:49-62 | every track of the map goes on through that neighbour |
| Day20.Stuck | src/day20.rs:56-61 | no open neighbour, or two: there is no track at all, where the source panics |
| Day20.Neighbour | src/day20.rs:42-61 | the scan finds the one open neighbour, reports two, or reports a dead end |
| Day20.Visit | src/day20.rs:32-40 | a visit stops at the End without changing the map and otherwise marks an unexplored cell with its distance |
| Day20.Onward | src/day20.rs:49-63 | the scan's verdict either extends the walk along every track or shows there is none |
| Day20.TraceMap | src/day20.rs:23-67 | `trace_map` returns the map's track, with each inner track cell marked by its distance from the Start; nothing where the source panics |
| Day20.Destinations | src/day20.rs:78-87 | eight destinations per cell |
| Day20.DestinationsAreSteps | src/day20.rs:78-87 | they are the two-step moves in the order the source lists them |
| Day20.DestinationsAtTwo | src/day20.rs:78-87 | the destinations are exactly the cells two steps away |
| Day20.Cheat | src/day20.rs:89-106 | a cheat is kept only when it saves a positive amount, from the given cell to the given target |
| Day20.CheatRow | src/day20.rs:89-107 | one attempt per destination |
| Day20.TrackRow | src/day20.rs:74-107 | one attempt per destination from a track cell |
| Day20.CheatRows | src/day20.rs:74-108 | one row of attempts per track cell |
| Day20.DestinationsDistinct | src/day20.rs:78-87 | the eight destinations are eight different cells |
| Day20.ShortcutsDistinct | src/day20.rs:69-111 | on a track without repeated cells no shortcut is found twice |
| Day20.ShortcutsHas | src/day20.rs:69-111 | a shortcut is found exactly when it is the cheat from a track cell to one of its destinations |
| Day20.FindShortcuts | src/day20.rs:69-111 | the nested loops collect exactly those cheats, in order |
| Day20.CheatsFrom | src/day20.rs:89-107 | the inner loop collects the cheats from one cell in order |
| Day20.MarkedTiles | src/day20.rs:23-67 | on the traced map distance d sits exactly on track cell d, and the End tiles are the original ones |
| Day20.Signposts | src/day20.rs:23-67 | `trace_map` leaves a parsed map marked so that `find_shortcuts` can read distances |
| Day20.CheatMeans | src/day20.rs:89-106 | a cheat is kept exactly when it saves the track distance to its target minus the two cheating steps |
| Day20.CheatSound | src/day20.rs:69-111 | every cheat kept leaves a track cell and lands two steps away on a later part of the track |
| Day20.ShortcutFound | src/day20.rs:69-111 | every such cut is found |
| Day20.ShortcutsOnTrack | src/day20.rs:69-111 | `find_shortcuts` finds exactly the cuts from a track cell two steps onto a later part of the track, saving the distance skipped |
| Day20.ParsedUnmarked | src/day20.rs:167-183 | a parsed map has a positive width and holds no distances |
| Day20.SavingAtLeast | src/day20.rs:6 | the count of shortcuts saving at least the bound: 0 exactly when none does, all exactly when all do |
| Day20.SavingAtLeastCard | src/day20.rs:6 | over shortcuts without repeats the count is the number of different shortcuts saving at least the bound |
| Day20.Part1 | src/day20.rs:3-7 | nothing for an unreadable map; otherwise an answer exactly when the map has a track, and then the shortcuts found are each cut of that track once, without repeats, and the answer is the number of different ones saving at least 100 |
| Day21.InjectiveByInverse | src/day21.rs:183 | a key map that some function undoes sends no two keys to one place, so `keys_by_pos` loses no key |
| Day21.NumericPlaces | src/day21.rs:112-131 | each numeric key sits in the 3 by 4 rectangle, off the blank (0, 0) |
| Day21.NumericLayout | src/day21.rs:112-131 | the numeric keypad's keys fill its rectangle except the blank, one key per place |
| Day21.DirectionalLayout | src/day21.rs:133-146 | the directional keypad's keys fill its 3 by 2 rectangle except the blank (0, 1), one key per place |
| Day21.GetSequences | src/day21.rs:152-179 | one or two sequences, each of arrows followed by a single press |
| Day21.SequencesShape | src/day21.rs:152-179 | each sequence is one of the two L-shaped orders, as short as the distance allows and not turning on the blank; there are two exactly when both runs are non-empty and neither corner is the blank, and they differ |
| Day21.Shape | src/day21.rs:159-162 | both orders of the two runs cover the distance between the keys |
| Day21.NetRun | src/day21.rs:161-162 | a run of n presses of one arrow moves the arm n places |
| Day21.Joined | src/day21.rs:166-174 | the arrows of two runs and a press add up |
| Day21.ByPos | src/day21.rs:183 | `keys_by_pos` maps each place of a key back to that key and holds no other place |
| Day21.Replay | src/day21.rs:182-206 | the loop of `replay` types what the replay function gives from the 'A' key |
| Day21.RunOutput | src/day21.rs:188-205 | a replay that gets through types one key per press of 'A' |
| Day21.RunRejects | src/day21.rs:192-197 | a replay fails on any character that is not an arrow or 'A' |
| Day21.RunStraight | src/day21.rs:192-202 | n presses of one arrow walk n places in its direction while every place holds a key |
| Day21.ShiftRuns | src/day21.rs:159-162 | a run of `abs(delta)` presses of the chosen arrow covers `delta` |
| Day21.OnKeys | src/day21.rs:112-146 | every place of the keypad's rectangle other than the blank holds a key |
| Day21.PressKey | src/day21.rs:189-190 | pressing 'A' over a key types it |
| Day21.AcrossTypes | src/day21.rs:166 | the horizontal-first order types the key unless it turns on the blank |
| Day21.UpTypes | src/day21.rs:169-172 | the vertical-first order types the key unless it turns on the blank |
| Day21.SequencesType | src/day21.rs:152-206 | every sequence `get_sequences` offers, replayed from the starting key, types exactly the wanted key |
| Day21.RunBlocked | src/day21.rs:199-202 | a run that reaches a place without a key fails there |
| Day21.AcrossBlocked | src/day21.rs:164-166 | with the blank at its corner, the horizontal-first order runs into it |
| Day21.UpBlocked | src/day21.rs:167-169 | with the blank at its corner, the vertical-first order runs into it |
| Day21.Straight | src/day21.rs:173 | when one run is empty the two orders coincide |
| Day21.Offered | src/day21.rs:152-179 | an L-shaped order is offered exactly when replaying it types the key: nothing that works is left out |
| Day21.ButtonIndex | src/day21.rs:54-56 | each button has its place in "><^vA" |
| Day21.DirectionalButtons | src/day21.rs:133-146 | the buttons are exactly the directional keypad's keys |
| Day21.Empty | src/day21.rs:53-60 | the empty stack has an entry for every pair of buttons, each costing 1 |
| Day21.CostOfSeq | src/day21.rs:94-102 | the loop of `cost_of_seq` sums the table entries of consecutive pairs, starting from 'A' |
| Day21.Cheapest | src/day21.rs:85-91 | moving and pressing costs what one offered sequence costs, and no offered sequence is cheaper |
| Day21.Table | src/day21.rs:64-70 | a table holds exactly the pairs of buttons, each at its price |
| Day21.TableEntry | src/day21.rs:64-70 | looking up a pair gives its price |
| Day21.Added | src/day21.rs:62-73 | the stack with one more robot has an entry for every pair of buttons |
| Day21.AddedEntry | src/day21.rs:62-73 | each entry of the added layer is the cheapest way the stack below can make the new robot move and press |
| Day21.AddRobot | src/day21.rs:62-73 | the nested loops of `add_robot` build exactly that table |
| Day21.AddRow | src/day21.rs:66-69 | the inner loop fills one row |
| Day21.PriceEntry | src/day21.rs:67 | one entry is the stack's cost to move and press |
| Day21.FilledValues | src/day21.rs:64-70 | the partly filled table holds pairs of buttons at their prices |
| Day21.FilledKeys | src/day21.rs:64-70 | the partly filled table holds every entry filled so far |
| Day21.FilledAll | src/day21.rs:64-70 | the finished table holds every pair at its price |
| Day21.Layer | src/day21.rs:75-82 | every layer has an entry for every pair of buttons |
| Day21.New | src/day21.rs:75-82 | `RobotStack::new(depth)` adds `depth` robots to the empty stack |
| Day21.EmptyCost | src/day21.rs:53-60 | with no robot in between, a sequence costs one per press |
| Day21.DirectCost | src/day21.rs:85-91 | pressing directly, reaching and pressing a key costs its distance plus one |
| Day21.FirstLayer | src/day21.rs:62-73 | with one robot, a press costs that robot's travel on the directional keypad plus one |
| Day21.AtLeastLength | src/day21.rs:94-102 | with positive entries a sequence costs at least one per press |
| Day21.AddedPositive | src/day21.rs:62-73 | a robot above a stack of positive entries adds positive entries |
| Day21.LayerPositive | src/day21.rs:75-82 | no entry of any layer is free |
| Day21.SeqCostMono | src/day21.rs:94-102 | dearer entries make every sequence dearer |
| Day21.CostMono | src/day21.rs:85-91 | dearer entries make every move-and-press dearer |
| Day21.AddedMono | src/day21.rs:62-73 | robots above dearer stacks pay more |
| Day21.FirstLayerGrows | src/day21.rs:75-82 | the first robot never makes a press cheaper |
| Day21.LayersGrow | src/day21.rs:75-82 | another robot never makes a press cheaper |
| Day21.ExampleSequences | src/day21.rs:227-237 | the numeric sequences from 'A' to '3', '2' and '1' in the test |
| Day21.ExampleTwoOrders | src/day21.rs:238-240 | from '1' to '9' both orders are offered |
| Day21.DirectionalSequences | src/day21.rs:242-243 | the directional sequence from 'A' to '<' in the test, and the others the examples use |
| Day21.ExampleSolo | src/day21.rs:246-253 | with one robot the test sequences cost the lengths of what the person types |
| Day21.DuoEntry | src/day21.rs:62-73 | with two robots, a press for which one sequence is offered costs that sequence with one robot |
| Day21.SoloMoves | src/day21.rs:246-257 | the sequences the two-robot test asks for, priced with one robot |
| Day21.ExampleDuo | src/day21.rs:255-257 | with two robots the test sequences cost the lengths of what the person types |
| Day21.NumericKey | src/day21.rs:112-131 | the numeric keypad's keys are the digits and 'A' |
| Day21.CodeCostMono | src/day21.rs:35-45 | typing a code through dearer entries is dearer |
| Day21.CodeCostGrows | src/day21.rs:35-45 | another robot never makes a code cheaper |
| Day21.CostToEnterCode | src/day21.rs:35-45 | the loop sums the cost of moving from each key of the code to the next, starting over 'A' |
| Day21.PlusStep | src/day21.rs:13 | adding two terms to a running sum in turn adds their sum |
| Day21.CodeTerm | src/day21.rs:9-13 | one pass of the loop yields the code's complexity, nothing where the source panics |
| Day21.Complexity | src/day21.rs:3-17 | the sum of the complexities of the trimmed input's lines |
| Day21.SumComplexity | src/day21.rs:8-14 | the loop over the codes sums their complexities, failing if one fails |
| Day21.Day21Part1 | src/day21.rs:3-17 | part 1 is the total complexity with two robots |
| Day21.Day21Part2 | src/day21.rs:19-33 | part 2 is the total complexity with twenty-five robots |
| Day22.Monkey | src/day22.rs:77-82 | the next secret always fits in 24 bits |
| Day22.MiddleMaskHarmless | src/day22.rs:79 | on a 24-bit value the 28-bit mask of the middle round keeps exactly what a 24-bit mask keeps |
| Day22.MonkeyIsPruned | src/day22.rs:77-82 | `monkey` equals the same three rounds each pruned to 24 bits |
| Day22.Iterate | src/day22.rs:10-12 | after at least one round the secret fits in 24 bits |
| Day22.Part1 | src/day22.rs:4-16 | the loop sums each seed's secret after 2000 rounds |
| Day22.ParseSeeds | src/day22.rs:5 | at most one seed per line |
| Day22.Price | src/day22.rs:28 | a price is a decimal digit |
| Day22.Prices | src/day22.rs:24-30 | price i is the last digit of the secret after round i + 1 |
| Day22.BuyerPrices | src/day22.rs:24-30 | the loop collects those prices |
| Day22.Diffs | src/day22.rs:34-43 | one change per consecutive pair of prices, the later minus the earlier |
| Day22.DiffsBounded | src/day22.rs:28-43 | every price is in 0..9 and every change in -9..9 |
| Day22.BuyerTable | src/day22.rs:48-56 | a buyer's table holds every window of four changes that appears, with the price after its first appearance |
| Day22.FirstTable | src/day22.rs:50-54 | the loop with `or_insert` keeps each window's first price |
| Day22.TableOnlyAppearing | src/day22.rs:50-54 | the table holds no window that does not appear |
| Day22.FirstAtUnique | src/day22.rs:53 | a window appears first at one index only |
| Day22.FirstTableUnique | src/day22.rs:48-56 | the prices determine the table |
| Day22.AllWindows | src/day22.rs:59-62 | the windows of all tables, and only those |
| Day22.MaxBananas | src/day22.rs:64-74 | the result is at least the bananas of every window that occurs and is the bananas of one of them, or 0 |
| Day22.Part2 | src/day22.rs:18-75 | the most bananas any occurring window earns across the buyers' tables, or 0 |
| Day23.KeyInjective | src/day23.rs:111-114 | the derived ordering on the two name bytes is total: equal keys mean equal names |
| Day23.ParseName | src/day23.rs:116-129 | a name parses exactly when the text has length two |
| Day23.Show | src/day23.rs:137-142 | a name displays as two characters |
| Day23.ParseShow | src/day23.rs:116-142 | parsing a displayed name gives it back, and a parsed name displays as the text it came from |
| Day23.StartsWith | src/day23.rs:131-135 | holds exactly when the first displayed character is the given one |
| Day23.Insert | src/day23.rs:16-21 | a push followed by a sort yields one more element, the same elements plus the new one |
| Day23.InsertSorted | src/day23.rs:16-21 | inserting into a sorted list keeps it sorted |
| Day23.InsertStrict | src/day23.rs:75-77 | inserting a name that is absent into a list without repeats keeps it without repeats |
| Day23.SortedUnique | src/day23.rs:18 | two sorted lists with the same elements are equal, so the sort's result depends only on its elements |
| Day23.SortedSuperset | src/day23.rs:96-109 | the two loops sharing one iterator compute the recursive inclusion test |
| Day23.SupersetMeaning | src/day23.rs:96-109 | on sorted lists the test holds exactly when every element of `lesser` occurs in `greater` at least as often |
| Day23.SupersetLength | src/day23.rs:96-109 | the test never holds when `lesser` is longer |
| Day23.SupersetElements | src/day23.rs:96-109 | when `lesser` has no repeats, the test holds exactly when every element of `lesser` is in `greater` |
| Day23.BuildAdjacency | src/day23.rs:13-22 | the loop over the links builds the neighbour lists of the functional definition |
| Day23.LinkFaithful | src/day23.rs:15-22 | after one more link a list holds exactly the linked computers |
| Day23.LinkSorted | src/day23.rs:18-21 | entering one link keeps every list sorted |
| Day23.AdjacencyRepresents | src/day23.rs:49-58 | every list is sorted and holds exactly the computers linked to its owner |
| Day23.AdjacencyCounts | src/day23.rs:49-58 | the lists are not deduplicated: a computer stands in its partner's list once for every link between the two, so a link given twice is listed twice |
| Day23.RepresentsClosed | src/day23.rs:31-33 | every neighbour has a list of its own, so the `unwrap` on a neighbour's list never fails |
| Day23.Sort3Sorts | src/day23.rs:35-36 | the triplet sort returns the three names, sorted |
| Day23.FindTriplets | src/day23.rs:25-42 | the three nested loops collect the triplet set of the functional definition |
| Day23.TripletsAt | src/day23.rs:30-41 | the loops for one computer add the triplets found through its neighbours |
| Day23.TripletsVia | src/day23.rs:32-39 | the innermost loop adds the sorted triplets of the neighbours that close a loop back |
| Day23.FoundIsTriangle | src/day23.rs:33-37 | every inserted triplet is three distinct pairwise linked computers, one starting with 't' |
| Day23.TriangleIsFound | src/day23.rs:26-42 | every such triangle is inserted |
| Day23.TripletsAreTriangles | src/day23.rs:11-45 | a sorted triplet is counted exactly when it is a triangle with a member starting with 't' |
| Day23.Pair | src/day23.rs:60-63 | a starting set is the two ends of a link, smaller first |
| Day23.InitialCliques | src/day23.rs:60-67 | the first round holds exactly the sorted cliques of two computers |
| Day23.ExtendAll | src/day23.rs:72-80 | the inner loop collects every set the computer is linked to in full, with the computer added |
| Day23.GrowSets | src/day23.rs:70-81 | one round of the outer loop builds the next round's sets |
| Day23.GrownSized | src/day23.rs:70-81 | each round's sets are one member larger than the previous round's |
| Day23.ExtendClique | src/day23.rs:74-78 | a clique all of whose members neighbour a computer stays a clique with that computer added |
| Day23.CliqueExtends | src/day23.rs:74-78 | every sorted clique of two or more is its tail grown by its head |
| Day23.GrownCliques | src/day23.rs:65-88 | each round holds exactly the sorted cliques one larger than the round before |
| Day23.NoneLarger | src/day23.rs:82-84 | when no sorted clique is one larger, no clique is larger at all |
| Day23.LargestSets | src/day23.rs:65-88 | the loop, deduplicating through a set, runs until no set grows |
| Day23.SaturatedKeeps | src/day23.rs:82-87 | the loop ends with no sets only if it started with none |
| Day23.SaturatedCliques | src/day23.rs:65-88 | the loop ends on the sorted cliques of the largest clique size there is |
| Day23.FinalCliques | src/day23.rs:60-88 | from the links' starting sets the loop ends on the largest sorted cliques, of at least two computers |
| Day23.LoneSet | src/day23.rs:90-91 | when one set is left it is the unique largest clique |
| Day23.UniqueIsLone | src/day23.rs:90-91 | a unique largest clique of two or more is the one set left |
| Day23.PasswordIsLargestClique | src/day23.rs:47-94 | the password exists exactly when the largest clique is unique, and is then its names joined by commas |
| Day23.Shows | src/day23.rs:93 | each name in its two-character display form |
| Day23.PasswordReadsBack | src/day23.rs:93 | splitting the password at commas and parsing each piece gives the names back |
| Day23.ParseEdge | src/day23.rs:154-157 | a parsed line is the two names joined by '-' |
| Day23.ParseShowEdge | src/day23.rs:154-157 | a link written out parses back to itself |
| Day23.ParseEdgeLines | src/day23.rs:150-159 | every line parses as a link, or the parse fails on a line that is not one |
| Day23.Day23Part1 | src/day23.rs:11-45 | part 1 is the number of distinct sorted triplets over the parsed links |
| Day23.Day23Part2 | src/day23.rs:47-94 | part 2 is the password of the parsed links |
| Day24.Digit36 | src/day24.rs:377-381 | a lowercase letter or a decimal digit has a base-36 value below 36, and nothing else has one |
| Day24.ParseNode | src/day24.rs:371-386 | a wire name parses only from three characters |
| Day24.NodeFromStr | src/day24.rs:371-386 | the loop that multiplies by 36 and adds each digit computes the functional parse |
| Day24.Base36Fails | src/day24.rs:380 | once a prefix holds a character that is not a digit, the whole parse fails |
| Day24.DigitOf | src/day24.rs:391-397 | the character written for a digit is read back as that digit |
| Day24.Show | src/day24.rs:389-405 | a wire displays as three characters |
| Day24.ShowParse | src/day24.rs:371-405 | a code up to the largest displays and parses back to itself, and a parsed name displays as the text it came from |
| Day24.DigitOfOnly | src/day24.rs:391-397 | only one character stands for each digit |
| Day24.LetteredName | src/day24.rs:419-429 | a lettered wire displays as its letter and its index in two decimal digits |
| Day24.InputOutputNames | src/day24.rs:419-429 | `x`, `y` and `z` wire `i` display as the letter followed by the two digits of `i` |
| Day24.LetteredInjective | src/day24.rs:419-429 | different letters or indices below 100 give different wires |
| Day24.InputRanges | src/day24.rs:435-441 | x wires are x and not y, y wires are y and not x, z wires are neither |
| Day24.GatesAdd | src/day24.rs:339-347 | XOR and AND form a half adder and OR joins the carries of a full adder |
| Day24.ParseOperationNames | src/day24.rs:349-360 | exactly "AND", "OR" and "XOR" parse, each to the operation it names and back |
| Day24.SwapRules | src/day24.rs:171-179 | in place, every gate driving `a` drives `b` and the other way round |
| Day24.SwappedAt | src/day24.rs:171-179 | gate `i` after the swap is gate `i` with its output exchanged |
| Day24.SwapTwice | src/day24.rs:171-179 | swapping the same two wires twice restores every gate |
| Day24.SwapOnlyOutputs | src/day24.rs:171-179 | a swap changes only outputs that are `a` or `b`; inputs, operations and the number of gates stay |
| Day24.SwappedValid | src/day24.rs:171-179 | a swap of two valid wires keeps every gate valid |
| Day24.DeserializeInputs | src/day24.rs:220-239 | x is the number whose bits are the listed x values in order, and y likewise |
| Day24.DeserializedBits | src/day24.rs:228-236 | bit `k` of x is the `k`-th listed x value, and likewise for y |
| Day24.FromBitsDigit | src/day24.rs:230-233 | reading bit `k` of an assembled number gives the `k`-th bit back |
| Day24.BuildReaders | src/day24.rs:244-249 | the list kept for each wire holds the gates that read it, in order |
| Day24.ReadersHas | src/day24.rs:246-249 | a gate is on a wire's list exactly when it reads that wire |
| Day24.FiredHas | src/day24.rs:269-277 | an entry is queued exactly for a listed gate whose inputs are known and whose output is not |
| Day24.QueueFired | src/day24.rs:269-277 | the inner loop appends the firing gates to the queue |
| Day24.Assign | src/day24.rs:267-268 | writing the first queued entry sets its wire and changes no other |
| Day24.Later | src/day24.rs:266-277 | after one step the queue is the rest of the old one followed by the newly fired gates |
| Day24.Propagate | src/day24.rs:266-279 | the work-list loop leaves the buffer as the functional settling gives |
| Day24.AssembleBits | src/day24.rs:281-289 | reading the z wires from the top is the number of their defined bits, truncated to 64 bits |
| Day24.ShiftInto | src/day24.rs:286-287 | a 64-bit shift then setting the low bit is doubling, adding and truncating |
| Day24.ReadZ | src/day24.rs:282-289 | the loop assembles z from the values from z00 on |
| Day24.InputQueueAt | src/day24.rs:255-264 | entry `i` of a letter's queue is its wire `i` with bit `i` of the value |
| Day24.InitialQueueAt | src/day24.rs:255-264 | the queue holds x00..x44 with the bits of x, then y00..y44 with those of y |
| Day24.InitialDistinct | src/day24.rs:255-264 | the initial queue names 90 different wires |
| Day24.PushInputs | src/day24.rs:255-264 | each input loop appends wires 00 to 44 of its letter with their bits |
| Day24.ElfAdd | src/day24.rs:241-292 | `elf_add` returns the functional value: z read off the settled wires |
| Day24.SettleKeeps | src/day24.rs:266-268 | a wire that has a value keeps it |
| Day24.SettleSets | src/day24.rs:266-268 | every queued wire ends up with a value |
| Day24.SettleFront | src/day24.rs:266-268 | distinct unset wires at the front of the queue get exactly their queued values |
| Day24.SettleSound | src/day24.rs:266-279 | every value set is an input bit or the value of a gate on values already set |
| Day24.SettleClosed | src/day24.rs:266-279 | once the queue is empty no gate has both inputs known and its output unknown |
| Day24.ElfAddInputs | src/day24.rs:255-268 | x00..x44 hold the low 45 bits of x and y00..y44 those of y |
| Day24.ElfAddSettles | src/day24.rs:241-279 | the settled values are justified and nothing is left to fire |
| Day24.ElfAddGate | src/day24.rs:266-279 | with one driver per output, a gate whose inputs have values has its own value on its output |
| Day24.ElfAddUndriven | src/day24.rs:266-279 | a wire no gate drives and that is no input never gets a value |
| Day24.TestBitShift | src/day24.rs:184-205 | bit `s + j` of `c << s` is bit `j` of `c` |
| Day24.Shifted | src/day24.rs:184-205 | each test pair shifted left by the bit, with its expected bit kept |
| Day24.Assertions | src/day24.rs:181-206 | sixteen tests for bits 1 to 44, four for bit 0, three beyond 44 |
| Day24.AssertionsAdd | src/day24.rs:181-206 | every test expects bit `bit` of the true sum `x + y` |
| Day24.AssertionsInRange | src/day24.rs:181-206 | the tests of bits up to 45 use inputs below 2^45, all `elf_add` reads |
| Day24.TestBitRules | src/day24.rs:181-217 | the tests pass exactly when `elf_add` gives the expected bit on each |
| Day24.AdderPasses | src/day24.rs:181-217 | a netlist that adds every pair of 45-bit numbers passes the tests of every bit up to 45 |
| Day24.IsDriven | src/day24.rs:46-58 | the search starts only when some gate drives z wire `bit` |
| Day24.TrySwap | src/day24.rs:159-161 | a trial passes exactly when the swapped gates pass the bit's tests |
| Day24.NoPartnerExtend | src/day24.rs:156-165 | a failed trial extends the run of partners tried without success |
| Day24.NoPairExtend | src/day24.rs:155-166 | a wire without a partner extends the run of wires tried without success |
| Day24.TryPartners | src/day24.rs:156-165 | the inner loop returns a different wire whose swap passes the tests, and no earlier one passes; or none exists among the candidates |
| Day24.SearchPairs | src/day24.rs:155-166 | the two loops return a passing pair, the first in search order (no earlier wire of the first list has a partner, no earlier partner of that wire passes), or no candidate pair passes |
| Day24.NoPairMeans | src/day24.rs:155-168 | the search finding nothing means no candidate pair of different wires passes |
| Day24.FixBit | src/day24.rs:41-168 | no swap exactly when z wire `bit` is undriven or already passes; otherwise a passing pair, or a panic when none exists |
| Day24.ShowChars | src/day24.rs:389-405 | a printed wire holds only base-36 digits, so no colon and no whitespace |
| Day24.ParseWire | src/day24.rs:297-305 | a parsed line is a wire name, ": " and text that means true exactly when it is "1" |
| Day24.WireReadsBack | src/day24.rs:297-305 | a wire value written out parses back to itself |
| Day24.ParseGate | src/day24.rs:307-320 | a parsed gate is valid and comes from the first, second, third and fifth words of a line of at least five |
| Day24.GateWords | src/day24.rs:310 | a gate line splits into its five words |
| Day24.GateReadsBack | src/day24.rs:307-320 | a gate written out parses back to itself |
| Day24.ParseWires | src/day24.rs:297-305 | every line parses as a wire value, or one of them does not |
| Day24.ParseGates | src/day24.rs:307-320 | every line parses as a gate, or one of them does not |
| Day24.ParseInput | src/day24.rs:294-323 | the input parses exactly when both blocks do, and the gates are then valid |
| Day24.Day24Part1 | src/day24.rs:10-16 | part 1 is `elf_add` on the x and y read off the parsed wire values |

## Left out

- `src/day03.rs`, `src/day05.rs` and `src/main.rs` are not part of this model. Day 3 is a regular-expression scan, and `main.rs` reads files and prints answers.
- Reading input files, printing, timing and the command-line dispatcher are left out. Every solver takes its input as a `string`.
- Rust strings are byte strings and the model treats them as `seq<char>`. Widths and lengths are counted in characters, which agrees with the source on ASCII input. Whitespace is the ASCII set.
- Fixed-width integer overflow (`i32`, `i64`, `usize`) is not modelled where it cannot occur on puzzle-sized input. Each place where the width matters is written out: the day 17 registers, the day 22 secret, the `u64` result of day 24 and integer parsing.
- The worked examples of the source's tests are not evaluated where that would take thousands of steps. Only the small examples are proved, as on days 7, 13, 14, 17, 19 and 21. These expected values are not evaluated:
  - day 1: 11
  - day 2: 2 and 4, and the `min_invalid` cases of `src/day02.rs:102-105`
  - day 4: 18 and 9
  - day 6: 41 and 6
  - day 7: 3749
  - day 8: 14 and 34
  - day 9: 1928 and 2858
  - day 10: 36 and 81
  - day 11: 22 and 55312
  - day 12: 1930, 1206 and 16
  - day 13: 480
  - day 15: 10092 and 9021
  - day 16: 7036, 11048, 45 and 64
  - day 18: 22 and (6, 1)
  - day 19: 6 and 16
  - day 20: 85 and the table of savings
  - day 21: 126384 and the costs of `029A`
  - day 22: 37327623
  - day 23: 7 and `co,de,ka,ta`
  - day 24: 4 and 2024
- Day06.Part1: requires that the guard leaves the map, as the puzzle promises. The source loops forever otherwise.
- Day06.Part2: requires the same of the unobstructed map, for the same reason.
- Day06.Turn: a guard boxed in on four sides stays put. The source turns forever there.
- Day09.Part1: requires every character of the map to be at least '0'. Below '0' the source's `u32` subtraction panics. Day09.Part2 requires this too, and also a non-empty map, on which the source panics for want of a largest file id.
- Day12.CountSides: proves the number of sides even and at least 2, not equal to the number of straight sides. The walk is cut off after `4 * |matrix|` steps, because its termination is not proved.
- Day12.Walk: proves the turns even and at least 2, not equal to the number of straight sides, and runs under the same step bound.
- Day12.SidesPrice: multiplies each area by a side count proved only even and at least 2.
- Day12.Part2: inherits the side counts of Day12.SidesPrice, proved only even and at least 2.
- Day12.LabelRegions: proves regions maximal and of one crop, but not connected. Day12.MapRegion proves each fill grown from its start; that is not carried into the scan.
- Day12.Scan: the same regions, proved maximal and of one crop but not connected.
- Day12.Part1: sums over those regions, proved maximal and of one crop but not connected.
- Day13.GetMove: requires that neither division divides by zero (Day13.NoDivisionByZero), where the source panics. A machine whose determinant is zero is outside the model.
- Day13: `parse_rules` (a regular-expression parser) and the `day13part1`/`day13part2` wrappers are not modelled. Day13.TotalPrice has no contract.
- Day14: `parse_robots` (a regular expression), `print_robots` and `robot_density_img` are not modelled.
- Day14.AlignPeriods: takes as parameters the two offsets that part 2 finds by minimising a floating-point variance. That minimisation is not modelled.
- Day15.Push2: states no cell-by-cell shift for the wide push. Where each box lands is fixed only by the function's own writes, which Day15.TryMove2 is proved to perform.
- Day15.Push2Left: like Day15.Push2, states no cell-by-cell shift. Where the box lands is fixed only by the function's own writes.
- Day15.Push2Right: like Day15.Push2, states no cell-by-cell shift. Where the box lands is fixed only by the function's own writes.
- Day15.TryMove2: is not proved to succeed whenever `can_move` holds. It is not proved that part 2 keeps the walls. The `Up` and `Down` arms are one method with a direction parameter.
- Day15: the `Display` implementations appear only as the tile-to-character functions.
- Day16.Search: runs under a fuel bound. Ties in the binary heap are broken by an unspecified choice of maximum. The paths are not proved cheapest, only valid routes of the reported cost.
- Day16: the distance estimate is kept as written; its `y` term only changes the search order. `draw_path` is not modelled.
- Day17.Part1: has no contract beyond its definition, and it runs under fuel like Day17.Computer.Run.
- Day17.Part2: runs under fuel. 117440 is proved to make the example program print itself, not that the search returns it.
- Day18: the `day18part1`/`day18part2` wrappers are not modelled: the 71 by 71 grid, the first 1024 bytes and the `x,y` output.
- Day18.ShortestPathLen: is proved to return the length of a walk exactly when one exists, not that the walk is the shortest.
- Day20.TraceMap: where the source panics (no start, a fork or a dead end), the model returns nothing.
- Day21.Replay: requires a keypad whose keys sit at distinct places, which holds for both keypads.
- Day21.GetSequences: the L-shaped moves are not proved cheapest among all moves.
- Day21.CostToEnterCode: the `unwrap` on a key that is not on the keypad is a precondition. The 25-robot table of part 2 is not evaluated.
- Day22: reading the seeds from the input text is not modelled; the parts take the seeds as 32-bit values.
- Day23.TripletsAreTriangles: requires that no link joins a computer to itself.
- Day23.AdjacencyRepresents: lists are proved sorted and to hold exactly the linked computers, not to be free of repeats. A link given twice in the input puts its ends in the lists twice, as in the source.
- Day24: the driver of part 2 is not modelled: the loop over bits 0 to 46, and the sorted, comma-joined list of swapped wires.
- Day24.FixBit: the breadth-first searches that collect the candidate wires are not modelled. The two candidate lists are parameters.
- Day24.FixBit: does not state that the pair returned is the first in search order; Day24.SearchPairs does. A panic is the result `Panic`.
- Day24.ElfAdd: the `u64` shift `1 << bit` is only used with `bit` below 64. A wire is a code below 36^3, not a `u16`.
- Day24.ParseInput: the fourth word of a gate line is not checked, as in the source. A round trip of a whole input text is not proved; round trips of single lines are.

## Findings

| source | as written | input that shows it | evidently intended | confidence | as-written member | corrected member |
|---|---|---|---|---|---|---|
| src/day02.rs:7-17 | `minmax` reports a single difference as `OneElement`, and the filter rejects it | the report `1 2` is safe but not counted | count every safe report, including two-level ones | not executed | Day02.Part1TwoLevels | Day02.CountPart1Intended |
| src/day02.rs:56-66 | the greedy count keeps the first good step and never reconsiders it | `1 3 2 3` gives `min_invalid` 2, though removing the first `3` leaves the safe `1 2 3`; the test at line 106 expects 1 | count a report that is safe after removing any single level | not executed | Day02.MinInvalidIncomplete | Day02.Tolerant |
| src/day11.rs:23-29 | `zip(repeat(1)).collect()` into a map keeps one counter per value, so repeated stones collapse | the input `0 0` is counted as one stone | count each stone once per occurrence | not executed | Day11.RepeatedStoneLost | Day11.SolveIntended |
| src/day13.rs:33-50 | Cramer's rule accepts any integer solution, including negative press counts | A = (1, 1), B = (1, 2), prize (0, 1) gives (-1, 1) and a price of -2 tokens | accept only non-negative press counts | not executed | Day13.NegativePresses | Day13.GetMoveChecked |
| src/day18.rs:41-42 | after the binary search, `blocks[lower - 1]` is returned even when the way survives every byte | a 2 by 2 grid with the single byte (1, 0) still has a way, yet that byte is returned | return nothing when no byte cuts the way | not executed | Day18.LastByteReturned | Day18.FirstCuttingBlock |
