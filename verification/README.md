# Advent of Code 2025, days 1 to 9, in Dafny

This project models the nine puzzle solvers of the `nl.th8.adventofcode2025` package
(`DayOne` … `Day09`) and proves what each of them computes.

Each solver reads its puzzle input (a list of lines, one string, or a grid of characters) and
answers two parts:

- **DayOne, the dial.** It counts the rotations that leave a 100-position dial on 0, then the
  clicks that pass or land on 0.
- **DayTwo, the invalid ids.** It sums the ids in the given ranges that consist of a block written
  twice, then of a block written at least twice.
- **DayThree, the battery banks.** It picks the largest 2-digit joltage from each bank, then the
  largest 12-digit one, greedily.
- **DayFour, the paper rolls.** It counts the rolls with fewer than four neighbours, then
  repeatedly removes them until none can be removed.
- **DayFive, the fresh ingredients.** It checks ids against ranges, then merges overlapping
  ranges and adds up the lengths of the stored ranges. That total counts each fresh id once while
  every new range overlaps at most one stored range beyond its begin; a range that overlaps two
  stored ones leaves an overlap behind, and the total then counts some ids twice.
- **Day06, the cephalopod worksheet.** It adds or multiplies the columns of numbers, read across
  the rows, then read down the digit columns.
- **Day07, the tachyon manifold.** It counts the beam splits in a grid, then counts the timelines
  with a memoised back-trace.
- **Day08, the junction boxes.** It connects the closest pairs of boxes into circuits, then finds
  the pair that joins everything into one circuit.
- **Day09, the red tiles.** It finds the largest rectangle with red tiles at two opposite corners,
  then polls a size cache that keeps one pair of tiles per area (the last one put) and answers
  the largest area whose stored pair keeps its border inside a per-row and per-column bounds
  cache. A valid rectangle whose area a later, invalid pair shares is never checked, so the
  answer can fall short of the largest valid rectangle (see Findings).

Modules follow the Java classes:

- `Common`: the results and failure kinds, sums, and the 32-bit and 64-bit ranges.
- `JavaText`: `Long.parseLong`, `Integer.parseInt`, `String.valueOf`, `trim` and `split`.
- `DayOne`, `DayTwo`, `DayThree`, `DayFour`, `DayFive`, `Day06` and `Day07`.
- `Day08Distances` and `Day08Circuits`, with `Day08` on top.
- `Day09Bounds` and `Day09`.

Loops in the Java code are methods with loops, proved against a specification function. Objects
and buffers the code updates in place are classes or arrays:

- Day07's character grid is an `array2<char>`, and its timeline cache is a field of `BeamTracer`.
- Day09's bounds cache is the class `MinMaxCache`.

A thrown exception is an `Err` of a `Result`, carrying the exception kind.

## Model

| member | source | states |
|---|---|---|
| JavaText.Decimal | src/main/java/nl/th8/adventofcode2025/DayTwo.java:52 | `String.valueOf` of a non-negative number is a digit string without leading zero that parses back to the number |
| JavaText.Trim | src/main/java/nl/th8/adventofcode2025/DayTwo.java:37-38 | `trim()` leaves no removable character at either end, and yields "" exactly when every character is removable |
| JavaText.TrimStart | src/main/java/nl/th8/adventofcode2025/DayTwo.java:37-38 | the leading part `trim()` removes holds only characters up to ' ', and what is left starts with a character it keeps |
| JavaText.TrimEnd | src/main/java/nl/th8/adventofcode2025/DayTwo.java:37-38 | the trailing part `trim()` removes holds only characters up to ' ', and what is left ends with a character it keeps |
| JavaText.Pieces | src/main/java/nl/th8/adventofcode2025/Day06.java:129 | `split` cuts the text into at least one piece, and no piece contains a separator character |
| JavaText.DropTrailingEmpty | src/main/java/nl/th8/adventofcode2025/Day06.java:129 | `split` removes empty pieces from the end only: what is left is a prefix that does not end in an empty piece, and every dropped piece was empty |
| JavaText.NonEmpty | src/main/java/nl/th8/adventofcode2025/Day06.java:81 | a run of whitespace in `\\s+` is one separator, so the pieces after the first are never empty |
| JavaText.SplitOnPieces | src/main/java/nl/th8/adventofcode2025/DayTwo.java:32-36 | `split` on a one-character class (`SplitOn`): a string without a separator is its own only piece and otherwise it is cut at every separator; no piece holds a separator, and no empty piece is left at the end |
| JavaText.SplitWhitespacePieces | src/main/java/nl/th8/adventofcode2025/Day06.java:81 | `split("\\s+")` (`SplitWhitespace`): a string without whitespace is its own only piece; no piece holds whitespace, and only the first piece can be empty |
| JavaText.ParseLong | src/main/java/nl/th8/adventofcode2025/DayTwo.java:37-38 | the unsigned part of `Long.parseLong`: a value exactly for non-empty ASCII digit strings; a leading sign is refused (see Left out) |
| JavaText.ParseRange | src/main/java/nl/th8/adventofcode2025/DayTwo.java:36-38 | a range line without a '-' fails, as the missing second piece throws |
| JavaText.ParseRangeDecimal | src/main/java/nl/th8/adventofcode2025/DayFive.java:68-71 | a range printed as "begin-end" reads back as that begin and end |
| JavaText.ParseInt | src/main/java/nl/th8/adventofcode2025/Day09.java:74-81 | `Integer.parseInt` yields only 32-bit values, and on a digit string yields its value when it fits and fails otherwise |
| JavaText.ParseIntDecimal | src/main/java/nl/th8/adventofcode2025/Day09.java:74-81 | every int, written in decimal with a '-' when negative, parses back to itself |
| JavaText.ParseAppend | src/main/java/nl/th8/adventofcode2025/DayThree.java:98 | the value of two digit strings put side by side is the first shifted by the second's length plus the second |
| JavaText.ParseRangesStep | src/main/java/nl/th8/adventofcode2025/DayTwo.java:35-38 | parsing the ranges one by one fails at the first range that does not parse, and otherwise extends the ranges read so far |
| JavaText.ParseRangesPrefixFails | src/main/java/nl/th8/adventofcode2025/DayTwo.java:35-38 | once one range fails to parse, the whole input fails |
| DayOne.Adjustment | src/main/java/nl/th8/adventofcode2025/DayOne.java:31-33 | a rotation line "L<n>" turns by −n and any other "<c><n>" by +n when n fits an int; an empty line throws an index error, and any other failure is a number-format error; every turn fits an int |
| DayOne.Reads | src/main/java/nl/th8/adventofcode2025/DayOne.java:30-33 | one read per line, in order |
| DayOne.CollectOk | src/main/java/nl/th8/adventofcode2025/DayOne.java:30-33 | collecting succeeds exactly when every read did, and keeps one turn per read, in order |
| DayOne.CollectErr | src/main/java/nl/th8/adventofcode2025/DayOne.java:30-33 | a failed collection fails as the first read that failed |
| DayOne.AdjustmentsSpec | src/main/java/nl/th8/adventofcode2025/DayOne.java:30-33 | reading the lines succeeds exactly when every line reads, giving one turn per line in order, and otherwise fails as the first line that throws |
| DayOne.CollectPrefixFails | src/main/java/nl/th8/adventofcode2025/DayOne.java:30-33 | once a line throws, the lines after it do not matter |
| DayOne.CollectStep | src/main/java/nl/th8/adventofcode2025/DayOne.java:30-33 | one more line appends its turn or ends the reading with its failure |
| DayOne.SolvePartOne | src/main/java/nl/th8/adventofcode2025/DayOne.java:27-41 | the loop counts the rotations after which 50 plus the turns so far is a multiple of 100, and ends with the failure of the first line that throws |
| DayOne.ZeroLandingsMonotone | src/main/java/nl/th8/adventofcode2025/DayOne.java:37-38 | the part-one counter never decreases over the rotations |
| DayOne.Rotate | src/main/java/nl/th8/adventofcode2025/DayOne.java:52-70 | one part-two rotation leaves the dial at the new position modulo 100 |
| DayOne.RotateCountsZeroClicks | src/main/java/nl/th8/adventofcode2025/DayOne.java:56-70 | for a non-zero turn, the floorDiv count with its two corrections equals the number of single clicks that reach 0 |
| DayOne.RightClicks | src/main/java/nl/th8/adventofcode2025/DayOne.java:56 | the clicks on 0 of a right turn are the difference of the floor quotients by 100 |
| DayOne.LeftClicks | src/main/java/nl/th8/adventofcode2025/DayOne.java:56-62 | the clicks on 0 of a left turn are the difference of the floor quotients by 100, shifted by one |
| DayOne.LeftFromZeroShort | src/main/java/nl/th8/adventofcode2025/DayOne.java:60-62 | a left turn from 0 shorter than a full turn counts no click, as the correction intends |
| DayOne.ZeroRotationAtZero | src/main/java/nl/th8/adventofcode2025/DayOne.java:69-70 | a turn of 0 clicks from 0 counts one, although no click reaches 0 |
| DayOne.PartTwoState | src/main/java/nl/th8/adventofcode2025/DayOne.java:44-74 | the dial stays in 0..99 through part two |
| DayOne.PartTwoPosition | src/main/java/nl/th8/adventofcode2025/DayOne.java:66 | after part two's rotations the dial is at 50 plus the turns, modulo 100 |
| DayOne.PartTwoCountsZeroClicks | src/main/java/nl/th8/adventofcode2025/DayOne.java:43-75 | with no turn of 0 clicks, part two counts exactly the clicks that reach 0 |
| DayOne.LandingsAtMostZeroClicks | src/main/java/nl/th8/adventofcode2025/DayOne.java:27-75 | with no turn of 0 clicks, part one's count is at most part two's |
| DayOne.SolvePartTwo | src/main/java/nl/th8/adventofcode2025/DayOne.java:43-75 | the loop computes part two's counter, and ends with the failure of the first line that throws |
| DayOne.ExamplePartOne | src/test/java/nl/th8/adventofcode2025/DayOneTest.java:41 | the example rotations land on 0 four times |
| DayOne.ExamplePartTwo | src/test/java/nl/th8/adventofcode2025/DayOneTest.java:46 | the example rotations count 14 in part two |
| DayOne.ExampleWithoutLongTurns | src/test/java/nl/th8/adventofcode2025/DayOneTest.java:58 | without R301 and L401 part two counts 6 |
| DayOne.ExampleWithFullTurn | src/test/java/nl/th8/adventofcode2025/DayOneTest.java:71 | with R300 in their place part two counts 9 |
| DayOne.ExampleLongTurns | src/test/java/nl/th8/adventofcode2025/DayOneTest.java:74 | L250, L1, R2 count 4 in part two |
| DayTwo.Copies | src/main/java/nl/th8/adventofcode2025/DayTwo.java:113-123 | m copies of a block have m times its length |
| DayTwo.CopiesIndex | src/main/java/nl/th8/adventofcode2025/DayTwo.java:118 | character i of copy j is character i of the block, which is what the loops compare |
| DayTwo.RepeatedBlockShape | src/main/java/nl/th8/adventofcode2025/DayTwo.java:106-122 | a string of m equal blocks has a length divisible by m and at least m, and every block agrees with the first |
| DayTwo.FromFirstBlock | src/main/java/nl/th8/adventofcode2025/DayTwo.java:113-123 | a string whose blocks all agree with the first is that many copies of the first block |
| DayTwo.DoubledIsRepeated | src/main/java/nl/th8/adventofcode2025/DayTwo.java:60-73 | part one's invalid ids are exactly those of two equal blocks, so they are invalid in part two too |
| DayTwo.DoubledHalves | src/main/java/nl/th8/adventofcode2025/DayTwo.java:62-72 | a block written twice has even length and equal halves |
| DayTwo.IsInvalid | src/main/java/nl/th8/adventofcode2025/DayTwo.java:60-73 | `isInvalid` is true exactly when the id is some block written twice |
| DayTwo.BlocksAgree | src/main/java/nl/th8/adventofcode2025/DayTwo.java:116-122 | the nested loops succeed exactly when every block agrees with the first |
| DayTwo.IsInvalidTwo | src/main/java/nl/th8/adventofcode2025/DayTwo.java:105-124 | `isInvalidTwo(s, k)` is true exactly when s is m equal blocks for some m ≥ k |
| DayTwo.InvalidIdsMembers | src/main/java/nl/th8/adventofcode2025/DayTwo.java:49-58 | the list holds exactly the invalid ids of the range |
| DayTwo.InvalidIdsAscending | src/main/java/nl/th8/adventofcode2025/DayTwo.java:51-55 | the list is strictly ascending, so no id is listed twice |
| DayTwo.FindInvalidIds | src/main/java/nl/th8/adventofcode2025/DayTwo.java:49-58 | the loop lists part one's invalid ids of the range, in order |
| DayTwo.FindInvalidIdsTwo | src/main/java/nl/th8/adventofcode2025/DayTwo.java:94-103 | the loop lists part two's invalid ids of the range, in order |
| DayTwo.PartTwoSumsMore | src/main/java/nl/th8/adventofcode2025/DayTwo.java:49-58 | in a range, part two's invalid ids add up to at least part one's |
| DayTwo.PartTwoTotalMore | src/main/java/nl/th8/adventofcode2025/DayTwo.java:35-45 | over all ranges, part two's total is at least part one's |
| DayTwo.PartTwoAnswerMore | src/main/java/nl/th8/adventofcode2025/DayTwo.java:30-92 | both parts fail on the same inputs, and part two's answer is at least part one's |
| DayTwo.AddAll | src/main/java/nl/th8/adventofcode2025/DayTwo.java:41-43 | the summing loop adds the ids to the total |
| DayTwo.TotalStep | src/main/java/nl/th8/adventofcode2025/DayTwo.java:35-45 | one more range adds exactly the sum of its invalid ids to the running total |
| DayTwo.Solve | src/main/java/nl/th8/adventofcode2025/DayTwo.java:30-47 | `solvePartOne` and `solvePartTwo` answer the sum of the invalid ids over the ranges, or the failure of the first range that does not parse |
| DayThree.IndexOf | src/main/java/nl/th8/adventofcode2025/DayThree.java:45 | `indexOf` answers −1 or a position holding the character |
| DayThree.IndexOfIsFirst | src/main/java/nl/th8/adventofcode2025/DayThree.java:45 | `indexOf` finds the first occurrence |
| DayThree.MaxDigitIsMax | src/main/java/nl/th8/adventofcode2025/DayThree.java:59-63 | no digit of a string exceeds its highest digit |
| DayThree.MaxDigitOccurs | src/main/java/nl/th8/adventofcode2025/DayThree.java:59-63 | the highest digit occurs in the string |
| DayThree.HighestSecondBattery | src/main/java/nl/th8/adventofcode2025/DayThree.java:55-64 | the second-battery search fails only with the "no battery" exception |
| DayThree.SecondBatteryIsHighest | src/main/java/nl/th8/adventofcode2025/DayThree.java:55-64 | the second-battery search succeeds exactly when the sub-bank holds a digit from 1 to `nrToFind`, and returns the highest such digit |
| DayThree.SecondBatteryIsMaxDigit | src/main/java/nl/th8/adventofcode2025/DayThree.java:55-64 | on a bank of digits 1 to 9 the second-battery search returns the highest digit |
| DayThree.AppendDigit | src/main/java/nl/th8/adventofcode2025/DayThree.java:49 | `parseInt(nrToFind + secondBattery)` is ten times the first digit plus the second |
| DayThree.HighestJoltage | src/main/java/nl/th8/adventofcode2025/DayThree.java:41-53 | `findHighestJoltage` fails on a bank shorter than 2, and fails only with the "no battery" exception |
| DayThree.HighestJoltageIsAPair | src/main/java/nl/th8/adventofcode2025/DayThree.java:41-53 | a joltage part one finds is ten times one battery plus a later battery |
| DayThree.PartOneIsBest | src/main/java/nl/th8/adventofcode2025/DayThree.java:41-53 | on a bank of digits 1 to 9 with two or more batteries, part one succeeds and beats every pair of batteries in bank order |
| DayThree.PartOneIsTwoBatteries | src/main/java/nl/th8/adventofcode2025/DayThree.java:41-53 | part one's search equals part two's search for two batteries |
| DayThree.PartOneTakesMax | src/main/java/nl/th8/adventofcode2025/DayThree.java:45-49 | at a digit found early enough, part one takes that digit and the highest digit behind it |
| DayThree.PartTwoTakesMax | src/main/java/nl/th8/adventofcode2025/DayThree.java:91-98 | at a digit found early enough, part two's search for two batteries does the same |
| DayThree.SkipHigherDigitPartOne | src/main/java/nl/th8/adventofcode2025/DayThree.java:47-51 | part one moves past a digit above the first pick |
| DayThree.JoltageTwo | src/main/java/nl/th8/adventofcode2025/DayThree.java:85-102 | `findHighestJoltageTwo` fails exactly when fewer than one battery is asked for, with IllegalArgument |
| DayThree.ConcatValue | src/main/java/nl/th8/adventofcode2025/DayThree.java:98 | prepending a number to the decimal digits of b shifts it left by b's digit count |
| DayThree.ConcatDigit | src/main/java/nl/th8/adventofcode2025/DayThree.java:98 | prepending to a single digit multiplies by ten |
| DayThree.OneBatteryIsMaxDigit | src/main/java/nl/th8/adventofcode2025/DayThree.java:93-95 | with one battery left, the search returns the bank's highest digit |
| DayThree.FirstPickIsMax | src/main/java/nl/th8/adventofcode2025/DayThree.java:91-100 | no digit that leaves room for the remaining batteries exceeds the first pick |
| DayThree.PartOneAtFirstPick | src/main/java/nl/th8/adventofcode2025/DayThree.java:41-53 | with two batteries, part one and the part-two search give the same joltage once both start at the first pick |
| DayThree.DescendToMax | src/main/java/nl/th8/adventofcode2025/DayThree.java:91-100 | the descending digit search stops at the first pick |
| DayThree.SkipHigherDigit | src/main/java/nl/th8/adventofcode2025/DayThree.java:99-100 | a digit above the first pick is passed over |
| DayThree.FirstPickFound | src/main/java/nl/th8/adventofcode2025/DayThree.java:91-93 | the first pick occurs early enough to leave room for the other batteries |
| DayThree.GreedyStep | src/main/java/nl/th8/adventofcode2025/DayThree.java:91-98 | for two or more batteries, the search takes the first pick's first occurrence and recurses behind it |
| DayThree.JoltageDigits | src/main/java/nl/th8/adventofcode2025/DayThree.java:98 | a selection of k batteries spells a k-digit number |
| DayThree.BestSingle | src/main/java/nl/th8/adventofcode2025/DayThree.java:93-95 | with one battery, the search finds a battery that no other battery beats |
| DayThree.GreedyIsBest | src/main/java/nl/th8/adventofcode2025/DayThree.java:85-102 | on a bank of digits 1 to 9 with at least k batteries, the greedy search succeeds, its answer is the joltage of k batteries in bank order, and no k batteries in bank order give more |
| DayThree.GreedyCombine | src/main/java/nl/th8/adventofcode2025/DayThree.java:91-98 | the best selection behind the first pick, preceded by it, is the best selection overall |
| DayThree.UpperBound | src/main/java/nl/th8/adventofcode2025/DayThree.java:91-98 | no k batteries beat the first pick followed by the best of the rest |
| DayThree.SumJoltages | src/main/java/nl/th8/adventofcode2025/DayThree.java:34-36 | the summing loop adds the banks' joltages, and stops at the first failure |
| DayThree.TotalPrefixFails | src/main/java/nl/th8/adventofcode2025/DayThree.java:34-36 | a failure in some bank is the failure of the whole sum |
| DayThree.SolvePartOne | src/main/java/nl/th8/adventofcode2025/DayThree.java:31-39 | part one is the sum of the two-battery joltages of the banks |
| DayThree.PartOneJoltages | src/main/java/nl/th8/adventofcode2025/DayThree.java:34-36 | part one's loop takes one two-battery joltage per bank, in the banks' order |
| DayThree.PartTwoJoltages | src/main/java/nl/th8/adventofcode2025/DayThree.java:78-80 | part two's loop takes one twelve-battery joltage per bank, in the banks' order |
| DayThree.SolvePartTwo | src/main/java/nl/th8/adventofcode2025/DayThree.java:75-83 | part two is the sum of the twelve-battery joltages of the banks |
| DayFour.ParseIntPiece | src/main/java/nl/th8/adventofcode2025/DayFour.java:183 | `Integer.parseInt` of a split piece succeeds exactly when the piece exists, is a digit string and fits an int |
| DayFour.CoordinateRoundTrip | src/main/java/nl/th8/adventofcode2025/DayFour.java:173-193 | `getCoordinateX` and `getCoordinateY` read back the coordinates `createCoordinate` wrote |
| DayFour.CreateCoordinate | src/main/java/nl/th8/adventofcode2025/DayFour.java:173-175 | `createCoordinate` writes 'x', the digits of x, 'y', the digits of y: the only 'x' and 'y' sit at the front and right after x's digits |
| DayFour.GetCoordinateX | src/main/java/nl/th8/adventofcode2025/DayFour.java:182-184 | `getCoordinateX` reads a non-negative int, and fails on a key with no 'x' or 'y' |
| DayFour.GetCoordinateY | src/main/java/nl/th8/adventofcode2025/DayFour.java:191-193 | `getCoordinateY` reads a non-negative int, and fails on a key with no 'x' or 'y' |
| DayFour.Compute | src/main/java/nl/th8/adventofcode2025/DayFour.java:90 | `compute` with a null-preserving update moves a roll's count by delta, removes a missing or null key, and leaves every other key alone |
| DayFour.AdjustAdjacency | src/main/java/nl/th8/adventofcode2025/DayFour.java:87-92 | the two nested loops apply the update to every key of the 3x3 block clipped at 0 |
| DayFour.SetAdjacency | src/main/java/nl/th8/adventofcode2025/DayFour.java:86-93 | `setAdjacency` adds one to every roll in the clipped block, drops the null keys there, and changes nothing else |
| DayFour.RemoveAdjacency | src/main/java/nl/th8/adventofcode2025/DayFour.java:158-165 | `removeAdjacency` subtracts one from every roll in the clipped block, drops the null keys there, and changes nothing else |
| DayFour.AdjustBlockAt | src/main/java/nl/th8/adventofcode2025/DayFour.java:87-92 | at one key, the block update keeps liveness and moves a live count by delta only inside the block |
| DayFour.InitialiseAdjacencyMap | src/main/java/nl/th8/adventofcode2025/DayFour.java:50-58 | `initialiseAdjacencyMap` holds exactly the keys of the xSize-by-ySize rectangle, each with 0 |
| DayFour.Initial | src/main/java/nl/th8/adventofcode2025/DayFour.java:50-58 | the starting map's keys are exactly the coordinates of the xSize-by-ySize rectangle, each with neighbour count 0 |
| DayFour.FillAdjacencyMap | src/main/java/nl/th8/adventofcode2025/DayFour.java:68-78 | `fillAdjacencyMap` visits the grid row by row and cell by cell, bumping a roll's block and nulling any other cell |
| DayFour.FillCounts | src/main/java/nl/th8/adventofcode2025/DayFour.java:68-93 | after the fill, a key of the rectangle holds a count unless its cell holds no roll, and the count is the number of rolls in its 3x3 block, itself included |
| DayFour.FilledRectangular | src/main/java/nl/th8/adventofcode2025/DayFour.java:27-33 | on a rectangular grid the live keys are exactly the rolls, each with its block count |
| DayFour.Accessible | src/main/java/nl/th8/adventofcode2025/DayFour.java:35-38 | the accessible keys are those whose value is not null and at most 4 |
| DayFour.CountAccessible | src/main/java/nl/th8/adventofcode2025/DayFour.java:34-38 | the counting loop over the map's values counts the accessible keys |
| DayFour.BuildAdjacencyMap | src/main/java/nl/th8/adventofcode2025/DayFour.java:28-32 | both parts build the filled map over the first row's width, with non-negative keys |
| DayFour.SolvePartOne | src/main/java/nl/th8/adventofcode2025/DayFour.java:27-41 | part one fails on an empty grid (`getFirst`), and otherwise counts the accessible keys |
| DayFour.PartOneCountsRolls | src/main/java/nl/th8/adventofcode2025/DayFour.java:27-41 | on a rectangular grid, part one counts the rolls with at most 4 rolls in their 3x3 block, themselves included |
| DayFour.RemovePaperRoll | src/main/java/nl/th8/adventofcode2025/DayFour.java:147-150 | removing a roll nulls its key and lowers the rest of its block |
| DayFour.SweptStep | src/main/java/nl/th8/adventofcode2025/DayFour.java:134-136 | removing one more roll after a set of removals is the same as removing the larger set |
| DayFour.SelectAccessible | src/main/java/nl/th8/adventofcode2025/DayFour.java:126-133 | the first loop of `sweepWarehouse` selects exactly the accessible keys and counts them |
| DayFour.RemoveAll | src/main/java/nl/th8/adventofcode2025/DayFour.java:134-136 | the second loop removes every selected roll, and the order does not matter |
| DayFour.SweepWarehouse | src/main/java/nl/th8/adventofcode2025/DayFour.java:125-138 | `sweepWarehouse` removes every accessible roll and returns how many there were |
| DayFour.SweptLive | src/main/java/nl/th8/adventofcode2025/DayFour.java:125-138 | a sweep takes exactly the swept rolls out of the live keys |
| DayFour.PeelRemoves | src/main/java/nl/th8/adventofcode2025/DayFour.java:110-117 | part two's total plus the rolls left is the number of rolls at the start, and no accessible roll is left |
| DayFour.PeelBounds | src/main/java/nl/th8/adventofcode2025/DayFour.java:110-117 | part two removes at least what its first sweep removes, and at most every roll |
| DayFour.RemovedConsistent | src/main/java/nl/th8/adventofcode2025/DayFour.java:147-165 | removing a roll keeps every remaining count equal to the rolls left in its block |
| DayFour.SweptConsistent | src/main/java/nl/th8/adventofcode2025/DayFour.java:125-138 | a whole sweep keeps every remaining count equal to the rolls left in its block |
| DayFour.PeelFixedPoint | src/main/java/nl/th8/adventofcode2025/DayFour.java:110-117 | when part two stops, every roll left has more than 4 rolls in its block |
| DayFour.FilledConsistent | src/main/java/nl/th8/adventofcode2025/DayFour.java:104-108 | on a rectangular grid, the filled map's counts are the block counts |
| DayFour.SweepUntilDone | src/main/java/nl/th8/adventofcode2025/DayFour.java:110-115 | the sweeping loop adds up the sweeps until one removes nothing |
| DayFour.SolvePartTwo | src/main/java/nl/th8/adventofcode2025/DayFour.java:103-118 | part two fails on an empty grid, and otherwise answers the total of the repeated sweeps |
| DayFour.SweepFacts | src/main/java/nl/th8/adventofcode2025/DayFour.java:110-115 | part two's total is the first sweep's count plus the total after it, a sweep that removes nothing leaves the map as it was and ends the loop, and the live keys lose exactly the swept ones |
| DayFour.PartTwoBounds | src/main/java/nl/th8/adventofcode2025/DayFour.java:27-118 | part two's total is at least part one's count and at most the number of rolls |
| DayFive.BlankLine | src/main/java/nl/th8/adventofcode2025/DayFive.java:41 | `indexOf("")` answers the first blank line, or −1 when there is none |
| DayFive.DatabaseSections | src/main/java/nl/th8/adventofcode2025/DayFive.java:34-43 | with a blank line the database is the range lines, the blank line and the id lines, and no range line is blank; without one, every line is read both as a range and as an id |
| DayFive.RangeIsNoId | src/main/java/nl/th8/adventofcode2025/DayFive.java:44 | a range line holds a '-', so `Long.parseLong` rejects it |
| DayFive.IndexFreshIngredients | src/main/java/nl/th8/adventofcode2025/DayFive.java:68-73 | `indexFreshIngredients` fails exactly when the line is not a range, and otherwise adds exactly the new range to the index |
| DayFive.IsFresh | src/main/java/nl/th8/adventofcode2025/DayFive.java:45-50 | the inner loop finds an entry exactly when some stored range holds the id |
| DayFive.FreshAppend | src/main/java/nl/th8/adventofcode2025/DayFive.java:36-40 | indexing one more range makes an id fresh exactly when it was fresh already or lies in the new range |
| DayFive.ParseIdsStep | src/main/java/nl/th8/adventofcode2025/DayFive.java:43-44 | reading the ids one by one fails at the first line `parseLong` rejects |
| DayFive.ParseIdsPrefixFails | src/main/java/nl/th8/adventofcode2025/DayFive.java:43-44 | once an id line fails to parse, part one fails |
| DayFive.CountFreshStep | src/main/java/nl/th8/adventofcode2025/DayFive.java:46-48 | one more id adds one to the count exactly when some range holds it |
| DayFive.CountFreshBound | src/main/java/nl/th8/adventofcode2025/DayFive.java:43-51 | each id counts at most once; all ids count when all are fresh, none when none is |
| DayFive.RangeSetFresh | src/main/java/nl/th8/adventofcode2025/DayFive.java:45-50 | the index built from a list of ranges finds an id exactly when some range of the list holds it |
| DayFive.SolvePartOne | src/main/java/nl/th8/adventofcode2025/DayFive.java:29-55 | part one counts the ids after the blank line that some range before it holds, or fails on the first malformed line |
| DayFive.ExamplePartOne | src/test/java/nl/th8/adventofcode2025/DayFiveTest.java:43 | in the example, 3 ids are fresh |
| DayFive.NoBlankLineFails | src/main/java/nl/th8/adventofcode2025/DayFive.java:34-44 | a non-empty database without a blank line always fails, since its range lines are read as ids too |
| DayFive.MergeIfOverlapping | src/main/java/nl/th8/adventofcode2025/DayFive.java:128-173 | the loop over the entries and the update after it give the merge for that iteration order |
| DayFive.IndexFreshIngredients2 | src/main/java/nl/th8/adventofcode2025/DayFive.java:109-115 | `indexFreshIngredients2` fails exactly when the line is not a range, and otherwise merges the range or stores it under its begin, keeping a longer end stored there |
| DayFive.BranchCases | src/main/java/nl/th8/adventofcode2025/DayFive.java:137-155 | for well-formed ranges, the three branches catch exactly the overlapping entries, and each proposes the union of the two ranges |
| DayFive.ScanOrdered | src/main/java/nl/th8/adventofcode2025/DayFive.java:158-159 | the begin to set never exceeds the end to set |
| DayFive.ScanFacts | src/main/java/nl/th8/adventofcode2025/DayFive.java:133-160 | after the loop, for positive ranges, the begin and end to set span `begin..end` and every overlapping range, and the key to remove, when set, is an overlapping range starting after `begin` |
| DayFive.MergedIffOverlap | src/main/java/nl/th8/adventofcode2025/DayFive.java:128-173 | a merge takes place exactly when some stored range overlaps the new one; otherwise the map is unchanged |
| DayFive.InsertKeepsOrdered | src/main/java/nl/th8/adventofcode2025/DayFive.java:109-173 | storing a range keeps every stored range well-formed, and positive when the input is |
| DayFive.MergedShape | src/main/java/nl/th8/adventofcode2025/DayFive.java:163-171 | after a merge the merged range sits under the begin to set, and every other entry is an old one, unchanged |
| DayFive.InsertCovers | src/main/java/nl/th8/adventofcode2025/DayFive.java:109-173 | for positive, well-formed ranges, storing a range adds exactly its ids to the ids covered, whatever the iteration order |
| DayFive.SingleOverlapReplaces | src/main/java/nl/th8/adventofcode2025/DayFive.java:137-152 | when exactly one stored range overlaps, it is replaced by the union and nothing else changes |
| DayFive.BridgeMerges | src/main/java/nl/th8/adventofcode2025/DayFive.java:156-159 | a range that reaches one stored range by its begin and another by its end joins them into one |
| DayFive.BridgeExample | src/main/java/nl/th8/adventofcode2025/DayFive.java:156-157 | 5-7 joins 1-5 and 7-9 into 1-9, in either order |
| DayFive.InsertKeepsDisjoint | src/main/java/nl/th8/adventofcode2025/DayFive.java:118-121 | the map keeps no two ranges overlapping, as long as the new range reaches at most one stored range beyond its begin |
| DayFive.SpanTotalRemove | src/main/java/nl/th8/adventofcode2025/DayFive.java:94-96 | the total of the lengths does not depend on the order of the entries |
| DayFive.TotalSpan | src/main/java/nl/th8/adventofcode2025/DayFive.java:94-96 | the summing loop adds end + 1 − begin over the stored ranges |
| DayFive.IdsSize | src/main/java/nl/th8/adventofcode2025/DayFive.java:95 | a range holds end + 1 − begin ids |
| DayFive.SpanCountsIds | src/main/java/nl/th8/adventofcode2025/DayFive.java:94-96 | the total counts every covered id at least once, and exactly once when no two stored ranges overlap |
| DayFive.PartTwoStep | src/main/java/nl/th8/adventofcode2025/DayFive.java:87-92 | each stored line keeps the map well-formed and covering exactly the ranges read so far |
| DayFive.SolvePartTwo | src/main/java/nl/th8/adventofcode2025/DayFive.java:82-99 | part two fails exactly on a malformed range line; otherwise it answers the total length of the stored ranges, which cover exactly the fresh ids; the total is at least the number of fresh ids, and equal to it when the stored ranges are disjoint |
| DayFive.ExamplePartTwoStores | src/test/java/nl/th8/adventofcode2025/DayFiveTest.java:48 | the example's first three ranges are stored as they come |
| DayFive.ExamplePartTwoBridge | src/test/java/nl/th8/adventofcode2025/DayFiveTest.java:48 | the example's last range bridges two, and the total is 14 |
| DayFive.MultiOverlapKeepsOne | src/main/java/nl/th8/adventofcode2025/DayFive.java:128-173 | ranges 2-3, 5-9, then 1-10: only the stored range visited last is removed, so the map keeps an overlap and totals 12 (or 15 in the other order) while it covers 10 ids |
| DayFive.CoveredIdsSpan | src/main/java/nl/th8/adventofcode2025/DayFive.java:80 | stored ranges covering exactly lo..hi cover hi + 1 - lo ids |
| DayFive.ZeroBeginNotMerged | src/main/java/nl/th8/adventofcode2025/DayFive.java:158-163 | a stored range beginning at 0 is never merged, since 0 counts as "not set": 0-5 and 3-8 stay side by side and total 12 while they cover 9 ids |
| DayFive.WidenFacts | src/main/java/nl/th8/adventofcode2025/DayFive.java:119-127 | the intended merged span holds [begin, end] and every overlapped stored range, and reaches further only through one of them |
| DayFive.MergeAllCovers | src/main/java/nl/th8/adventofcode2025/DayFive.java:119-127 | the intended merge, which removes every overlapped range and treats 0 as a real begin, keeps the stored ranges well-formed and pairwise apart, and adds exactly [begin, end] to what they cover |
| DayFive.StoreAllCovers | src/main/java/nl/th8/adventofcode2025/DayFive.java:75-99 | storing the ranges with the intended merge leaves well-formed ranges, pairwise apart, that cover exactly the fresh ids |
| DayFive.IntendedCountsFresh | src/main/java/nl/th8/adventofcode2025/DayFive.java:75-80 | the javadoc's promise: with the intended merge, the total counts the fresh ids, each once |
| DayFive.IntendedTotalOfSpan | src/main/java/nl/th8/adventofcode2025/DayFive.java:75-80 | when the fresh ids are exactly lo..hi, the intended total is hi + 1 - lo |
| DayFive.IntendedExamples | src/main/java/nl/th8/adventofcode2025/DayFive.java:75-80 | on 2-3, 5-9, 1-10 the intended total is 10, and on 0-5, 3-8 it is 9 |
| Day06.Contributions | src/main/java/nl/th8/adventofcode2025/Day06.java:46-55 | there is one contribution per operator token |
| Day06.InitEmptyLists | src/main/java/nl/th8/adventofcode2025/Day06.java:66-72 | `initEmptyLists` gives `size` empty columns |
| Day06.ApplyOperators | src/main/java/nl/th8/adventofcode2025/Day06.java:44-57 | the operator loop adds the sum of each `+` column and the product of each `*` column, and fails on an operator beyond the last column |
| Day06.AddTokensFails | src/main/java/nl/th8/adventofcode2025/Day06.java:82-86 | the token loop fails, with an index error, exactly at a numeric token beyond the last column |
| Day06.AddTokensColumns | src/main/java/nl/th8/adventofcode2025/Day06.java:82-86 | otherwise each numeric token is appended to the column of its own index |
| Day06.ParseRow | src/main/java/nl/th8/adventofcode2025/Day06.java:80-87 | `parseRow` trims the row, splits it on whitespace and appends its numeric tokens to their columns |
| Day06.AddTokensIsAddRow | src/main/java/nl/th8/adventofcode2025/Day06.java:81-86 | the loop over all the row's tokens is what `parseRow` does to the columns |
| Day06.SolvePartOne | src/main/java/nl/th8/adventofcode2025/Day06.java:35-58 | part one parses every row into the columns, then applies the operators of the last row |
| Day06.AddRowsPrefixFails | src/main/java/nl/th8/adventofcode2025/Day06.java:40-42 | a row that fails ends the parse with its failure |
| Day06.AddRowsFails | src/main/java/nl/th8/adventofcode2025/Day06.java:40-42 | parsing the rows fails exactly when some row has a numeric token beyond the last column |
| Day06.AddRowsOverflow | src/main/java/nl/th8/adventofcode2025/Day06.java:40-42 | the same failure condition, row by row from the end |
| Day06.AddRowsColumns | src/main/java/nl/th8/adventofcode2025/Day06.java:40-42 | after the rows, column j holds the numeric j-th tokens of the rows, top to bottom |
| Day06.OperatorRowAddsNothing | src/main/java/nl/th8/adventofcode2025/Day06.java:40-42 | the operator row appends nothing: none of its tokens is a number |
| Day06.CharColumn | src/main/java/nl/th8/adventofcode2025/Day06.java:151-153 | the characters at one offset hold one character per number row |
| Day06.ReadChars | src/main/java/nl/th8/adventofcode2025/Day06.java:151-153 | the inner loop gathers the character at the offset from every row but the last, and fails when a row is too short |
| Day06.ReadNumber | src/main/java/nl/th8/adventofcode2025/Day06.java:149-156 | one offset gives nothing when its characters are blank, and otherwise the number they spell once trimmed |
| Day06.ConstructNumbers | src/main/java/nl/th8/adventofcode2025/Day06.java:146-158 | `constructNumbers` appends the numbers of one column, read from the highest offset down, to its list |
| Day06.BlankOffsetSkipped | src/main/java/nl/th8/adventofcode2025/Day06.java:155 | an offset contributes nothing exactly when every row reaches it with a blank character there |
| Day06.CollectLength | src/main/java/nl/th8/adventofcode2025/Day06.java:148-157 | every offset yields at most one number |
| Day06.CollectFailure | src/main/java/nl/th8/adventofcode2025/Day06.java:148-157 | a failed column is the failure of one of its offsets |
| Day06.ReadColumnLength | src/main/java/nl/th8/adventofcode2025/Day06.java:148-157 | a column reads at most one number per offset |
| Day06.ReadOffsetTooShort | src/main/java/nl/th8/adventofcode2025/Day06.java:152 | an offset fails with an index error exactly when some row is too short to reach it |
| Day06.ReadColumnTooShort | src/main/java/nl/th8/adventofcode2025/Day06.java:148-153 | reading starts at the highest offset, so a row too short for it fails the column at once |
| Day06.ColumnsUpTo | src/main/java/nl/th8/adventofcode2025/Day06.java:126-133 | reading columns keeps the number of lists |
| Day06.ColumnsNext | src/main/java/nl/th8/adventofcode2025/Day06.java:128-132 | one more column fails on an empty worksheet or a missing operator piece, and otherwise reads the column at the current offset and moves past it |
| Day06.ParseColumns | src/main/java/nl/th8/adventofcode2025/Day06.java:126-133 | `parseColumns` reads every column at the offset where the previous one ended |
| Day06.SolvePartTwo | src/main/java/nl/th8/adventofcode2025/Day06.java:96-117 | part two reads the character columns, then applies the operators of the last row |
| Day06.Width | src/main/java/nl/th8/adventofcode2025/Day06.java:129 | a column is at least one character wide |
| Day06.ColumnsPosition | src/main/java/nl/th8/adventofcode2025/Day06.java:127-131 | after n columns the next column starts at the widths of the earlier columns added up |
| Day06.ColumnsOkStep | src/main/java/nl/th8/adventofcode2025/Day06.java:128-132 | one more column succeeds exactly when the operator row has a piece for it and it reads |
| Day06.ColumnsLayout | src/main/java/nl/th8/adventofcode2025/Day06.java:126-133 | after n columns, each column read holds the numbers at its own offsets, and later columns are untouched |
| Day06.ColumnsSucceed | src/main/java/nl/th8/adventofcode2025/Day06.java:126-133 | the columns succeed exactly when the operator row has a piece for each and each of them reads |
| Day06.ColumnsApart | src/main/java/nl/th8/adventofcode2025/Day06.java:129-131 | columns never overlap: each ends at or before the start of any later one |
| Day06.ExamplePartOne | src/test/java/nl/th8/adventofcode2025/Day06Test.java:36 | the example's columns, read across the rows, give 4277556 |
| Day06.ExamplePartTwo | src/test/java/nl/th8/adventofcode2025/Day06Test.java:41 | the example's columns, read down the digit columns, give 3263827 |
| Day07.Mark | src/main/java/nl/th8/adventofcode2025/Day07.java:49 | marking a cell as a beam changes that cell and no other |
| Day07.MarkTraceable | src/main/java/nl/th8/adventofcode2025/Day07.java:49-56 | marking a beam keeps the grid traceable and its width |
| Day07.Visit | src/main/java/nl/th8/adventofcode2025/Day07.java:48-58 | one visit of the inner loop changes at most the row below the visited cell and keeps the grid traceable |
| Day07.SweepRow | src/main/java/nl/th8/adventofcode2025/Day07.java:47-59 | the scan of the first x cells of a row keeps the grid's shape |
| Day07.Sweep | src/main/java/nl/th8/adventofcode2025/Day07.java:46-60 | the scan of the first y rows keeps the grid's shape |
| Day07.Traced | src/main/java/nl/th8/adventofcode2025/Day07.java:44-62 | the whole forward trace keeps the grid's shape |
| Day07.SweepRowNext | src/main/java/nl/th8/adventofcode2025/Day07.java:47 | the row scan advances one visit at a time and adds up the splits |
| Day07.SweepNext | src/main/java/nl/th8/adventofcode2025/Day07.java:46 | the grid scan advances one row at a time and adds up the splits |
| Day07.WritesInside | src/main/java/nl/th8/adventofcode2025/Day07.java:49-53 | in a traceable grid the cells a visit writes exist |
| Day07.OverwritesTransitive | src/main/java/nl/th8/adventofcode2025/Day07.java:44-62 | turning cells into beams twice is turning cells into beams |
| Day07.VisitWritesBelow | src/main/java/nl/th8/adventofcode2025/Day07.java:48-58 | a visit only turns cells into beams, and only in the row below |
| Day07.SweepRowWritesBelow | src/main/java/nl/th8/adventofcode2025/Day07.java:47-59 | scanning a row only turns cells of the next row into beams |
| Day07.SweepOverwrites | src/main/java/nl/th8/adventofcode2025/Day07.java:46-60 | scanning rows only turns cells into beams |
| Day07.SweepOverwritesNext | src/main/java/nl/th8/adventofcode2025/Day07.java:47-59 | scanning one more row only turns cells into beams |
| Day07.SweepSettles | src/main/java/nl/th8/adventofcode2025/Day07.java:46-60 | rows above the one being scanned are final |
| Day07.TracedWritesBeams | src/main/java/nl/th8/adventofcode2025/Day07.java:44-62 | the trace only turns cells into beams and leaves the top row alone |
| Day07.RowFinalWhenScanned | src/main/java/nl/th8/adventofcode2025/Day07.java:46-60 | a row as its scan begins is the row in the traced grid |
| Day07.SweepRowOverwrites | src/main/java/nl/th8/adventofcode2025/Day07.java:47-59 | a longer part of a row scan only adds beams to a shorter one |
| Day07.SweepRowOverwritesNext | src/main/java/nl/th8/adventofcode2025/Day07.java:47-59 | one more visit only adds beams |
| Day07.SourceMarksBelow | src/main/java/nl/th8/adventofcode2025/Day07.java:48-49 | a source has a beam directly below it in the traced grid |
| Day07.BeamRules | src/main/java/nl/th8/adventofcode2025/Day07.java:50-57 | a beam on the last row does nothing, a beam above a splitter marks both diagonal cells and counts a split, any other beam marks the cell below |
| Day07.ChartedOverwritten | src/main/java/nl/th8/adventofcode2025/Day07.java:109-120 | turning cells into beams keeps every cell one of the four kinds the back-trace knows |
| Day07.RowHitsAgree | src/main/java/nl/th8/adventofcode2025/Day07.java:50-51 | the hits of a row depend on that row and the next only |
| Day07.HitsAgree | src/main/java/nl/th8/adventofcode2025/Day07.java:50-51 | the hits of the first n rows depend on rows 0 to n only |
| Day07.VisitCounts | src/main/java/nl/th8/adventofcode2025/Day07.java:50-54 | a visit counts a split exactly when its cell is a beam above a splitter, and leaves earlier hits of the row alone |
| Day07.SweepRowCounts | src/main/java/nl/th8/adventofcode2025/Day07.java:47-59 | a row scan counts exactly the hits among the cells it has visited |
| Day07.SweepCounts | src/main/java/nl/th8/adventofcode2025/Day07.java:46-60 | scanning y rows counts exactly the hits in those rows |
| Day07.SweepCountsNext | src/main/java/nl/th8/adventofcode2025/Day07.java:46-60 | one more row adds its own hits to the count |
| Day07.TracedCountsHits | src/main/java/nl/th8/adventofcode2025/Day07.java:30-34 | part one's answer is the number of beam cells of the traced grid that sit above a splitter |
| Day07.WalkAccumulates | src/main/java/nl/th8/adventofcode2025/Day07.java:105-134 | the back-trace loop returns one when its column climbs straight to the source, dropping what it found, and otherwise what it found plus the back-trace from scratch |
| Day07.WalkPastBeam | src/main/java/nl/th8/adventofcode2025/Day07.java:120-131 | past a beam the loop adds the back-traces above the splitters beside it and moves up a row |
| Day07.MemoisePut | src/main/java/nl/th8/adventofcode2025/Day07.java:123 | caching a back-trace under its coordinate keeps the cache faithful and changes no earlier entry |
| Day07.ScanStep | src/main/java/nl/th8/adventofcode2025/Day07.java:47 | one visit of a row scan, step by step |
| Day07.ExampleOneSplitGrid | src/main/java/nl/th8/adventofcode2025/Day07.java:44-62 | the small manifold is traceable and holds only known cells |
| Day07.ExampleOneSplit | src/main/java/nl/th8/adventofcode2025/Day07.java:44-135 | on a source above one splitter the trace marks three beams, splits once, and two timelines reach the bottom row |
| Day07.ExampleSourceDropsFound | src/main/java/nl/th8/adventofcode2025/Day07.java:109-111 | a back-trace that meets the source returns one even after it had found a timeline beside it |
| Day07.Cells | src/main/java/nl/th8/adventofcode2025/Day07.java:33 | the array's cells, row by row, have one row per array row |
| Day07.CellsAgree | src/main/java/nl/th8/adventofcode2025/Day07.java:33 | an array holds its own cells |
| Day07.AgreesCells | src/main/java/nl/th8/adventofcode2025/Day07.java:33 | an array holds exactly one grid |
| Day07.AgreesMark | src/main/java/nl/th8/adventofcode2025/Day07.java:49-56 | setting one array cell to a beam is marking that cell of the grid |
| Day07.BeamTracer.constructor | src/main/java/nl/th8/adventofcode2025/Day07.java:14 | the timeline cache starts empty |
| Day07.BeamTracer.TraceTachyonBeam | src/main/java/nl/th8/adventofcode2025/Day07.java:44-62 | the in-place trace leaves the array holding the traced grid and returns the number of splits |
| Day07.BeamTracer.TraceRow | src/main/java/nl/th8/adventofcode2025/Day07.java:47-59 | one pass of the outer loop is the scan of that row |
| Day07.BeamTracer.VisitCell | src/main/java/nl/th8/adventofcode2025/Day07.java:48-58 | one pass of the inner loop is the visit of that cell |
| Day07.BeamTracer.BackTraceBeam | src/main/java/nl/th8/adventofcode2025/Day07.java:99-135 | the cached back-trace returns the back-trace without a cache, keeps every cache entry faithful and never changes an entry |
| Day07.BeamTracer.TraceSplitter | src/main/java/nl/th8/adventofcode2025/Day07.java:121-129 | the back-trace above a splitter is cached under its coordinate |
| Day07.BeamTracer.SolvePartTwo | src/main/java/nl/th8/adventofcode2025/Day07.java:71-84 | part two traces in place and adds up the back-traces from every cell of the bottom row |
| Day08Distances.Square | src/main/java/nl/th8/adventofcode2025/Day08.java:200 | a square is zero exactly for zero |
| Day08Distances.DistSymmetric | src/main/java/nl/th8/adventofcode2025/Day08.java:199-201 | the distance from a to b is the distance from b to a |
| Day08Distances.DistZero | src/main/java/nl/th8/adventofcode2025/Day08.java:199-201 | two boxes are at distance zero exactly when they are the same box |
| Day08Distances.AsMapKeys | src/main/java/nl/th8/adventofcode2025/Day08.java:154 | the keys of the sorted map are the keys of its entries |
| Day08Distances.Put | src/main/java/nl/th8/adventofcode2025/Day08.java:161 | `put` keeps the entries in ascending key order and afterwards maps the key to the new value, replacing any old one |
| Day08Distances.PollFirst | src/main/java/nl/th8/adventofcode2025/Day08.java:41 | `pollFirstEntry` yields the least key with its value and leaves the map without that key |
| Day08Distances.RowPairsShape | src/main/java/nl/th8/adventofcode2025/Day08.java:157-163 | every pair the inner loop puts is its row's box with a later box of the listing |
| Day08Distances.RowsPairsShape | src/main/java/nl/th8/adventofcode2025/Day08.java:156-164 | every pair the nested loops put is an earlier box with a later box |
| Day08Distances.InConcat | src/main/java/nl/th8/adventofcode2025/Day08.java:156-164 | a pair put in two stretches was put in one of them |
| Day08Distances.RowPairListed | src/main/java/nl/th8/adventofcode2025/Day08.java:157-163 | the inner loop puts its row's box with every later box it reaches |
| Day08Distances.RowsPairsListed | src/main/java/nl/th8/adventofcode2025/Day08.java:156-164 | the nested loops put every earlier box with every later box |
| Day08Distances.EveryPairOnce | src/main/java/nl/th8/adventofcode2025/Day08.java:153-166 | every unordered pair of distinct boxes is put exactly once, in one orientation only, and no pair is put twice |
| Day08Distances.NotReversed | src/main/java/nl/th8/adventofcode2025/Day08.java:158 | no pair is put the wrong way round |
| Day08Distances.RowNoRepeats | src/main/java/nl/th8/adventofcode2025/Day08.java:157-163 | one row puts no pair twice |
| Day08Distances.NoRepeats | src/main/java/nl/th8/adventofcode2025/Day08.java:156-164 | the nested loops put no pair twice |
| Day08Distances.Index | src/main/java/nl/th8/adventofcode2025/Day08.java:161 | putting pairs one by one keeps the entries ascending |
| Day08Distances.IndexAppend | src/main/java/nl/th8/adventofcode2025/Day08.java:161 | one more pair is one more `put` under its distance |
| Day08Distances.DistanceMap | src/main/java/nl/th8/adventofcode2025/Day08.java:153-166 | the distance map is in ascending key order |
| Day08Distances.IndexKeys | src/main/java/nl/th8/adventofcode2025/Day08.java:161 | a distance is a key exactly when some pair put lies at that distance |
| Day08Distances.IndexHoldsLast | src/main/java/nl/th8/adventofcode2025/Day08.java:161 | a key holds the last pair put at its distance: a later equal distance replaces an earlier pair |
| Day08Distances.DistanceMapPairs | src/main/java/nl/th8/adventofcode2025/Day08.java:153-166 | every pair in the distance map is two distinct boxes of the set, stored under their distance |
| Day08Distances.PutEntries | src/main/java/nl/th8/adventofcode2025/Day08.java:161 | every entry after a `put` is the new one or was there before |
| Day08Distances.IndexEntries | src/main/java/nl/th8/adventofcode2025/Day08.java:161 | every entry holds one of the pairs put, under that pair's distance |
| Day08Distances.DistanceMapWithin | src/main/java/nl/th8/adventofcode2025/Day08.java:153-166 | every entry of the distance map holds two distinct boxes of the set |
| Day08Distances.IndexRowStart | src/main/java/nl/th8/adventofcode2025/Day08.java:156-157 | a row's inner loop starts from the map the earlier rows left |
| Day08Distances.IndexRowEnd | src/main/java/nl/th8/adventofcode2025/Day08.java:157-163 | a row's inner loop ends with the map of the rows up to and including it |
| Day08Distances.IndexStep | src/main/java/nl/th8/adventofcode2025/Day08.java:158-162 | an inner step puts a pair exactly when the other box comes later in the listing |
| Day08Distances.SkipExactlyBehind | src/main/java/nl/th8/adventofcode2025/Day08.java:158 | the skip test holds exactly when the other box is the same box or comes earlier |
| Day08Distances.ComputedSkip | src/main/java/nl/th8/adventofcode2025/Day08.java:158-159 | a skipped step keeps `alreadyComputed` exact |
| Day08Distances.ComputedAdd | src/main/java/nl/th8/adventofcode2025/Day08.java:162 | adding the pair just put keeps `alreadyComputed` exact |
| Day08Distances.ComputedNextRow | src/main/java/nl/th8/adventofcode2025/Day08.java:156-157 | `alreadyComputed` after a row is exact for the start of the next |
| Day08Distances.InnerStep | src/main/java/nl/th8/adventofcode2025/Day08.java:158-162 | an inner step either puts the pair or leaves the map as it is |
| Day08Distances.CalculateDistances | src/main/java/nl/th8/adventofcode2025/Day08.java:153-166 | the nested loops build the distance map of the listing |
| Day08Distances.PutRow | src/main/java/nl/th8/adventofcode2025/Day08.java:157-163 | the inner loop adds its row's pairs to the map and keeps `alreadyComputed` exact |
| Day08Distances.VisitPair | src/main/java/nl/th8/adventofcode2025/Day08.java:158-162 | one inner step puts the pair unless the boxes are one or the pair was put reversed |
| Day08Distances.ParseBox | src/main/java/nl/th8/adventofcode2025/Day08.java:137-138 | a parsed line has three int coordinates |
| Day08Distances.ParsedLines | src/main/java/nl/th8/adventofcode2025/Day08.java:136-140 | one parse per line |
| Day08Distances.CollectBoxesSpec | src/main/java/nl/th8/adventofcode2025/Day08.java:136-140 | collecting succeeds exactly when every line parsed, fails with malformed input otherwise, and yields exactly the boxes parsed, at most one per line |
| Day08Distances.JunctionBoxesSpec | src/main/java/nl/th8/adventofcode2025/Day08.java:134-142 | `initJunctionBoxes` succeeds exactly when every line parses, and then holds exactly the boxes named, each with int coordinates, equal boxes collapsing into one |
| Day08Distances.InitJunctionBoxes | src/main/java/nl/th8/adventofcode2025/Day08.java:134-142 | the loop over the lines computes the junction boxes |
| Day08Distances.FailureSticks | src/main/java/nl/th8/adventofcode2025/Day08.java:136-140 | once a line fails, the rest of the lines do not matter |
| Day08Circuits.Touching | src/main/java/nl/th8/adventofcode2025/Day08.java:93 | the filter keeps only circuits holding one of the two boxes, and no more circuits than there are |
| Day08Circuits.IsAlreadyConnected | src/main/java/nl/th8/adventofcode2025/Day08.java:212-215 | some circuit holds both boxes, so both are already placed |
| Day08Circuits.Untouched | src/main/java/nl/th8/adventofcode2025/Day08.java:118-121 | the circuits left after the merge's removals hold neither box and come from the list |
| Day08Circuits.FirstTouching | src/main/java/nl/th8/adventofcode2025/Day08.java:103-105 | `findFirst` yields the first circuit holding one of the boxes |
| Day08Circuits.Connect | src/main/java/nl/th8/adventofcode2025/Day08.java:92-124 | after a connection the list holds at least one circuit |
| Day08Circuits.CircuitList.constructor | src/main/java/nl/th8/adventofcode2025/Day08.java:38 | the list of circuits starts empty |
| Day08Circuits.CircuitList.ConnectBoxToCircuits | src/main/java/nl/th8/adventofcode2025/Day08.java:92-124 | the in-place update of the list (new circuit, added boxes, or a merge with removals) leaves the list `Connect` describes |
| Day08Circuits.UnionMember | src/main/java/nl/th8/adventofcode2025/Day08.java:93 | a box is in the circuits exactly when it is in one of them |
| Day08Circuits.UnionAppend | src/main/java/nl/th8/adventofcode2025/Day08.java:99 | appending a circuit adds its boxes |
| Day08Circuits.UnionUpdate | src/main/java/nl/th8/adventofcode2025/Day08.java:107-108 | adding boxes to one circuit adds them to the union |
| Day08Circuits.FilterSplit | src/main/java/nl/th8/adventofcode2025/Day08.java:114-121 | the circuits holding a box and those holding neither together make up the list |
| Day08Circuits.TouchingNone | src/main/java/nl/th8/adventofcode2025/Day08.java:93-95 | no circuit is found exactly when neither box is in any circuit |
| Day08Circuits.TouchingCount | src/main/java/nl/th8/adventofcode2025/Day08.java:93 | over disjoint circuits, at most one circuit per box already placed is found |
| Day08Circuits.DisjointAppend | src/main/java/nl/th8/adventofcode2025/Day08.java:96-99 | a new circuit of boxes not yet placed keeps the circuits disjoint |
| Day08Circuits.DisjointUpdate | src/main/java/nl/th8/adventofcode2025/Day08.java:106-109 | adding boxes placed nowhere else to one circuit keeps them disjoint |
| Day08Circuits.DisjointFilter | src/main/java/nl/th8/adventofcode2025/Day08.java:114-121 | the circuits left after the removals are disjoint and apart from the merged ones |
| Day08Circuits.OnlyTouching | src/main/java/nl/th8/adventofcode2025/Day08.java:102-109 | when one circuit is found, no other circuit holds either box |
| Day08Circuits.RemoveAllSkips | src/main/java/nl/th8/adventofcode2025/Day08.java:119 | removing circuits different from the first one keeps it |
| Day08Circuits.RemoveTouching | src/main/java/nl/th8/adventofcode2025/Day08.java:118-121 | the merge's removal loop leaves exactly the circuits holding neither box |
| Day08Circuits.ConnectCount | src/main/java/nl/th8/adventofcode2025/Day08.java:92-124 | over disjoint circuits at most two are found, and the number of circuits grows by one, stays, or drops by one for none, one or two found |
| Day08Circuits.MergeHoldsBoth | src/main/java/nl/th8/adventofcode2025/Day08.java:112-123 | when two circuits are found, they hold both boxes between them |
| Day08Circuits.ConnectUnion | src/main/java/nl/th8/adventofcode2025/Day08.java:92-124 | a connection adds exactly the two boxes to the boxes in circuits |
| Day08Circuits.ConnectDisjoint | src/main/java/nl/th8/adventofcode2025/Day08.java:92-124 | a connection keeps every box in at most one circuit |
| Day08Circuits.ConnectJoins | src/main/java/nl/th8/adventofcode2025/Day08.java:92-124 | after a connection the two boxes share a circuit |
| Day08Circuits.ConnectKeepsConnected | src/main/java/nl/th8/adventofcode2025/Day08.java:92-124 | boxes that shared a circuit still do |
| Day08Circuits.TouchingListed | src/main/java/nl/th8/adventofcode2025/Day08.java:114-116 | every circuit holding a box is among those found |
| Day08Circuits.UntouchedListed | src/main/java/nl/th8/adventofcode2025/Day08.java:118-121 | every circuit holding neither box survives the removals |
| Day08Circuits.ConnectNonEmpty | src/main/java/nl/th8/adventofcode2025/Day08.java:92-124 | circuits stay non-empty |
| Day08Circuits.FirstFullIffOne | src/main/java/nl/th8/adventofcode2025/Day08.java:79 | over disjoint non-empty circuits of the boxes, the first circuit is as large as the set of boxes exactly when it is the only circuit and holds them all |
| Day08Circuits.SubsetSameSize | src/main/java/nl/th8/adventofcode2025/Day08.java:79 | a subset as large as its superset is the superset |
| Day08Circuits.SubsetSize | src/main/java/nl/th8/adventofcode2025/Day08.java:79 | a subset is no larger than its superset |
| Day08.ConnectUpTo | src/main/java/nl/th8/adventofcode2025/Day08.java:40-49 | part one's loop polls exactly the first min(budget, entries) pairs, counting the ones already connected too |
| Day08.Step | src/main/java/nl/th8/adventofcode2025/Day08.java:41-48 | one polled pair leaves its two boxes in one circuit and adds exactly them to the boxes placed, whether it was already connected or not |
| Day08.StepKeeps | src/main/java/nl/th8/adventofcode2025/Day08.java:41-48 | one polled pair of boxes of the set keeps the circuits disjoint, non-empty and inside the set |
| Day08.ConnectAllKeeps | src/main/java/nl/th8/adventofcode2025/Day08.java:40-49 | so does polling any number of such pairs |
| Day08.Insert | src/main/java/nl/th8/adventofcode2025/Day08.java:52 | inserting into a descending sequence keeps it descending and adds exactly the one element |
| Day08.SortDescending | src/main/java/nl/th8/adventofcode2025/Day08.java:52 | the sort by size, largest first, is descending and a permutation of the sizes |
| Day08.LargestThree | src/main/java/nl/th8/adventofcode2025/Day08.java:52-53 | `limit(3)` keeps min(3, count) sizes, taken from the sizes, none smaller than a size left out |
| Day08.DescendingSplit | src/main/java/nl/th8/adventofcode2025/Day08.java:53 | a cut of a descending sequence leaves nothing behind the cut larger than anything before it |
| Day08.ProductPositive | src/main/java/nl/th8/adventofcode2025/Day08.java:55 | the product of positive sizes, starting from 1, is at least 1 |
| Day08.TopThreePositive | src/main/java/nl/th8/adventofcode2025/Day08.java:51-55 | over non-empty circuits the answer is at least 1, and 1 when there are none |
| Day08.PartOneAnswer | src/main/java/nl/th8/adventofcode2025/Day08.java:33-56 | over parsed boxes, part one connects the closest min(budget, entries) pairs, which leaves disjoint non-empty circuits of the boxes, and answers the product of the three largest sizes, at least 1 |
| Day08.SolvePartOne | src/main/java/nl/th8/adventofcode2025/Day08.java:33-56 | the method computes part one |
| Day08.ConnectClosestPairs | src/main/java/nl/th8/adventofcode2025/Day08.java:38-49 | the loop polls pairs while the budget lasts |
| Day08.ConnectUntilComplete | src/main/java/nl/th8/adventofcode2025/Day08.java:71-87 | part two's loop fails only with IllegalArgument, and otherwise stops with the first circuit holding `size` boxes |
| Day08.ConnectUntilCompleteSpec | src/main/java/nl/th8/adventofcode2025/Day08.java:71-83 | part two's loop fails only when the pairs run out, and when it stops early one circuit holds every box and the completing pair is two distinct boxes of the set |
| Day08.MultiplyExact | src/main/java/nl/th8/adventofcode2025/Day08.java:80 | a product that succeeds fits a long |
| Day08.MulMonotone | src/main/java/nl/th8/adventofcode2025/Day08.java:80 | products of larger factors are larger |
| Day08.IntProductFitsLong | src/main/java/nl/th8/adventofcode2025/Day08.java:80 | the product of two ints never overflows a long |
| Day08.PartTwoAnswer | src/main/java/nl/th8/adventofcode2025/Day08.java:66-84 | over parsed boxes part two fails only with IllegalArgument for lack of pairs; otherwise all boxes form one circuit and the answer is the product of the completing pair's x coordinates |
| Day08.SolvePartTwo | src/main/java/nl/th8/adventofcode2025/Day08.java:66-84 | the method computes part two |
| Day08.ConnectUntilCircuitComplete | src/main/java/nl/th8/adventofcode2025/Day08.java:70-83 | the loop polls and connects pairs until the first circuit is complete |
| Day09Bounds.Coords | src/main/java/nl/th8/adventofcode2025/Day09.java:92-93 | `mapToInt` gives each tile's coordinate, in list order |
| Day09Bounds.Line | src/main/java/nl/th8/adventofcode2025/Day09.java:124-129 | the filtered stream holds exactly the cross coordinates of the tiles on the line |
| Day09Bounds.MinOr | src/main/java/nl/th8/adventofcode2025/Day09.java:126 | `min().orElse(d)` is d on an empty stream and otherwise the least element |
| Day09Bounds.MaxOr | src/main/java/nl/th8/adventofcode2025/Day09.java:92-93 | `max().orElse(d)` is d on an empty stream and otherwise the greatest element |
| Day09Bounds.Widen | src/main/java/nl/th8/adventofcode2025/Day09.java:135 | the compute lambda grows a stored range just enough to hold the coordinate |
| Day09Bounds.MarkRangeKey | src/main/java/nl/th8/adventofcode2025/Day09.java:132-139 | the loop over a line's span records the coordinate in each key of the span and leaves every other key alone |
| Day09Bounds.SweepKey | src/main/java/nl/th8/adventofcode2025/Day09.java:123-140 | one sweep records its line in every key the line covers and changes no other key |
| Day09Bounds.HullStep | src/main/java/nl/th8/adventofcode2025/Day09.java:96-102 | sweeping one more line extends the hull to that line |
| Day09Bounds.HullStepAt | src/main/java/nl/th8/adventofcode2025/Day09.java:132-139 | the same for one key |
| Day09Bounds.SweepAllHull | src/main/java/nl/th8/adventofcode2025/Day09.java:96-102 | the sweeps of lines 0 to n-1 leave each key holding exactly the least and greatest line that covers it, and no key where none does |
| Day09Bounds.SweepAll | src/main/java/nl/th8/adventofcode2025/Day09.java:96-102 | sweeping the lines of one axis leaves every key along that axis as it was |
| Day09Bounds.HullKept | src/main/java/nl/th8/adventofcode2025/Day09.java:100-102 | the row sweeps leave the column sweeps' keys alone |
| Day09Bounds.MinMaxCoordinatesHull | src/main/java/nl/th8/adventofcode2025/Day09.java:91-104 | the finished cache holds the hull on both axes |
| Day09Bounds.MinMaxCoordinates | src/main/java/nl/th8/adventofcode2025/Day09.java:91-104 | `initMinMaxCoordinates` leaves every key holding exactly the span of its line |
| Day09Bounds.CheckNotInBound | src/main/java/nl/th8/adventofcode2025/Day09.java:239-244 | the check errs exactly when a lookup finds no entry, answers false exactly when both ranges start above -1 and hold the point, and true otherwise |
| Day09Bounds.HullEntry | src/main/java/nl/th8/adventofcode2025/Day09.java:240-243 | an entry exists exactly when some line covers the position, never starts at -1, and holds exactly the positions between two covering lines |
| Day09Bounds.CheckMeaning | src/main/java/nl/th8/adventofcode2025/Day09.java:239-244 | over the finished cache the check errs exactly where no sweep crosses the point's row or column, and a point is in bound exactly when it lies between two covering lines in both directions |
| Day09Bounds.TileCovered | src/main/java/nl/th8/adventofcode2025/Day09.java:92-102 | every tile's own line is swept and covers it |
| Day09Bounds.TileInBound | src/main/java/nl/th8/adventofcode2025/Day09.java:239-244 | every red tile is in bound of the finished cache |
| Day09Bounds.EdgeScan | src/main/java/nl/th8/adventofcode2025/Day09.java:214-228 | an edge scan errs only with a null dereference |
| Day09Bounds.EdgeScanSpec | src/main/java/nl/th8/adventofcode2025/Day09.java:214-228 | an edge passes exactly when every point on it is in bound, fails only at a point out of bound, errs only at a failing lookup, and cannot err when no lookup fails |
| Day09Bounds.Valid | src/main/java/nl/th8/adventofcode2025/Day09.java:188-212 | `isValid` errs only with a null dereference |
| Day09Bounds.ValidSymmetric | src/main/java/nl/th8/adventofcode2025/Day09.java:189-192 | the order of the two tiles does not matter |
| Day09Bounds.EdgesOnPerimeter | src/main/java/nl/th8/adventofcode2025/Day09.java:205-211 | the four edges scanned lie on the rectangle's perimeter |
| Day09Bounds.EdgesPassIffPerimeter | src/main/java/nl/th8/adventofcode2025/Day09.java:205-211 | the four edges pass exactly when every perimeter point is in bound |
| Day09Bounds.ValidIsPerimeter | src/main/java/nl/th8/adventofcode2025/Day09.java:188-212 | `isValid` accepts exactly the rectangles whose whole perimeter is in bound, so the corner checks never change an answer |
| Day09Bounds.ValidRejectsOutOfBound | src/main/java/nl/th8/adventofcode2025/Day09.java:188-212 | a rejection comes from a perimeter point out of bound |
| Day09Bounds.ValidErrsOnLookup | src/main/java/nl/th8/adventofcode2025/Day09.java:188-212 | an error comes from a perimeter point whose lookup fails, and there is none when no lookup fails |
| Day09Bounds.CornersOnPerimeter | src/main/java/nl/th8/adventofcode2025/Day09.java:195-202 | the four corners checked first lie on the perimeter |
| Day09Bounds.MinMaxCache.constructor | src/main/java/nl/th8/adventofcode2025/Day09.java:94 | the cache starts empty |
| Day09Bounds.MinMaxCache.SweepLine | src/main/java/nl/th8/adventofcode2025/Day09.java:123-140 | the shared sweep loop updates the cache in place as one sweep of the line |
| Day09Bounds.MinMaxCache.InitVertically | src/main/java/nl/th8/adventofcode2025/Day09.java:159-176 | `initVertically` is the sweep of column x |
| Day09Bounds.MinMaxCache.InitHorizontally | src/main/java/nl/th8/adventofcode2025/Day09.java:123-140 | `initHorizontally` is the sweep of row y |
| Day09Bounds.MinMaxCache.InitColumns | src/main/java/nl/th8/adventofcode2025/Day09.java:96-98 | the first loop sweeps every column up to the largest x |
| Day09Bounds.MinMaxCache.InitRows | src/main/java/nl/th8/adventofcode2025/Day09.java:100-102 | the second loop sweeps every row up to the largest y |
| Day09Bounds.MinMaxCache.VertexInBounds | src/main/java/nl/th8/adventofcode2025/Day09.java:214-228 | the edge loops compute the edge scan |
| Day09Bounds.MinMaxCache.IsValid | src/main/java/nl/th8/adventofcode2025/Day09.java:188-212 | the method computes `isValid` on the cache as it stands |
| Day09Bounds.InitMinMaxCoordinates | src/main/java/nl/th8/adventofcode2025/Day09.java:91-104 | a new cache holding the sweeps of every column, then every row |
| Day09.CollectTiles | src/main/java/nl/th8/adventofcode2025/Day09.java:75-80 | collecting succeeds exactly when every line parsed, then holds one tile per line in order, and otherwise fails with malformed input |
| Day09.ParseTile | src/main/java/nl/th8/adventofcode2025/Day09.java:76-79 | a line without ',' fails, and the coordinates read are ints |
| Day09.ParseTileDecimal | src/main/java/nl/th8/adventofcode2025/Day09.java:76-79 | a tile printed as "x,y" reads back as that tile |
| Day09.RedTiles | src/main/java/nl/th8/adventofcode2025/Day09.java:74-81 | `initRedTiles` succeeds exactly when every line parses as "x,y", and then lists the tiles of the lines in order |
| Day09.Area | src/main/java/nl/th8/adventofcode2025/Day09.java:37 | a rectangle between two tiles holds at least one tile |
| Day09.AreaFacts | src/main/java/nl/th8/adventofcode2025/Day09.java:37 | the area does not depend on the order of the tiles, and is 1 exactly for a tile with itself |
| Day09.RowLargestIsMax | src/main/java/nl/th8/adventofcode2025/Day09.java:36-40 | a row's largest area bounds every pair of the row and is reached by one, and is 0 for no pairs |
| Day09.LargestOverIsMax | src/main/java/nl/th8/adventofcode2025/Day09.java:35-41 | the largest area over the rows bounds every pair and is reached by one |
| Day09.LargestAreaIsMax | src/main/java/nl/th8/adventofcode2025/Day09.java:31-44 | part one is the largest area over all ordered pairs of red tiles, reached by a pair, and 0 exactly when there is no red tile |
| Day09.LargestAreaAt | src/main/java/nl/th8/adventofcode2025/Day09.java:31-44 | a pair whose area bounds every other pair's gives part one's answer |
| Day09.SolvePartOne | src/main/java/nl/th8/adventofcode2025/Day09.java:31-44 | the method computes part one on the lines |
| Day09.FindLargestArea | src/main/java/nl/th8/adventofcode2025/Day09.java:34-43 | the nested loops find the largest area |
| Day09.FindRowLargest | src/main/java/nl/th8/adventofcode2025/Day09.java:36-40 | the inner loop raises the biggest size so far to the row's largest area |
| Day09.RowPairs | src/main/java/nl/th8/adventofcode2025/Day09.java:60-63 | the inner loop visits tile t with each other tile, in order |
| Day09.AllPairsMembers | src/main/java/nl/th8/adventofcode2025/Day09.java:59-64 | the nested loops visit exactly the ordered pairs of red tiles |
| Day09.PutPairsKeys | src/main/java/nl/th8/adventofcode2025/Day09.java:62 | the size cache holds an area exactly when some pair put has it |
| Day09.PutPairsKeepsLast | src/main/java/nl/th8/adventofcode2025/Day09.java:62 | an area holds the last pair put with that area: a later pair of equal area replaces an earlier one |
| Day09.SizeCacheFacts | src/main/java/nl/th8/adventofcode2025/Day09.java:57-64 | every area in the size cache is the area of its stored pair of red tiles, and every pair's area is a key |
| Day09.SizeCacheUnit | src/main/java/nl/th8/adventofcode2025/Day09.java:57-64 | with a red tile, area 1 is stored, with a red tile paired with itself |
| Day09.FillSizeCache | src/main/java/nl/th8/adventofcode2025/Day09.java:57-64 | the nested loops build the size cache |
| Day09.FillRow | src/main/java/nl/th8/adventofcode2025/Day09.java:60-63 | the inner loop puts one tile's pairs after the pairs already put |
| Day09.LargestKey | src/main/java/nl/th8/adventofcode2025/Day09.java:67 | `pollLastEntry` takes a key of the map, no smaller than any other key |
| Day09.PollSpec | src/main/java/nl/th8/adventofcode2025/Day09.java:66-71 | the poll answers the largest area whose stored pair passes, every larger one refused; an error is IllegalState after every pair was refused, or the error of a check with every larger pair refused; refusing every pair gives IllegalState |
| Day09.Poll | src/main/java/nl/th8/adventofcode2025/Day09.java:66-72 | the area the poll answers is a key whose pair passes the check, and every larger key's pair fails it |
| Day09.LastKey | src/main/java/nl/th8/adventofcode2025/Day09.java:67 | the scan finds the largest area in the cache |
| Day09.PollValid | src/main/java/nl/th8/adventofcode2025/Day09.java:66-71 | the while loop is the poll with `isValid` as the check |
| Day09.SolvePartTwo | src/main/java/nl/th8/adventofcode2025/Day09.java:54-72 | the method computes part two on the lines |
| Day09.PartTwoBelowPartOne | src/main/java/nl/th8/adventofcode2025/Day09.java:54-72 | a part-two answer is the area of a valid rectangle between two red tiles, between 1 and the part-one answer |
| Day09.PartTwoFinds | src/main/java/nl/th8/adventofcode2025/Day09.java:66-71 | with a red tile and no negative coordinate, part two never throws IllegalState: a tile with itself is always valid |
| Day09.SelfPairValid | src/main/java/nl/th8/adventofcode2025/Day09.java:188-212 | `isValid` passes a red tile paired with itself, since its one-point rectangle lies in bound |
| Day09.PartTwoFindsOnLines | src/main/java/nl/th8/adventofcode2025/Day09.java:54-72 | the same on lines that parse |
| Day09.AllPairsLength | src/main/java/nl/th8/adventofcode2025/Day09.java:59-64 | the nested loops visit as many pairs as the rows times the tiles |
| Day09.AllPairsAt | src/main/java/nl/th8/adventofcode2025/Day09.java:59-64 | every pair the nested loops visit is made of red tiles |
| Day09.AllPairsHas | src/main/java/nl/th8/adventofcode2025/Day09.java:59-64 | every ordered pair of red tiles is visited by the nested loops |
| Day09.SizeCacheAt | src/main/java/nl/th8/adventofcode2025/Day09.java:57-64 | the pair stored under an area is a pair of red tiles with that area |
| Day09.BestPassing | src/main/java/nl/th8/adventofcode2025/Day09.java:46-53 | the highest area over the pairs that pass a check: none exactly when no pair passes, otherwise reached by a passing pair and no smaller than any passing pair's area |
| Day09.HighestValidArea | src/main/java/nl/th8/adventofcode2025/Day09.java:46-53 | the highest valid area the javadoc promises: it exists exactly when some pair of red tiles is valid, it is the area of a valid pair, and it bounds every valid pair's area; otherwise IllegalState |
| Day09.PartTwoAtMostIntended | src/main/java/nl/th8/adventofcode2025/Day09.java:54-72 | an answer of part two is never above the highest valid area |
| Day09.SharedAreaStored | src/main/java/nl/th8/adventofcode2025/Day09.java:57-64 | on tiles (0,0),(1,0),(0,1),(1,1),(3,3),(4,4), area 4 keeps the pair (4,4),(3,3) put after the square (0,0),(1,1), and area 2 is stored |
| Day09.SharedAreaVerdicts | src/main/java/nl/th8/adventofcode2025/Day09.java:188-212 | on tiles of the unit square and the diagonal (3,3),(4,4), `isValid` passes the unit square and the pairs of area at most 2, and refuses the pair (4,4),(3,3) and every pair of area above 4 |
| Day09.SharedAreaBest | src/main/java/nl/th8/adventofcode2025/Day09.java:46-53 | on red tiles holding the unit square's corners, a check that passes the square (0,0),(1,1) and refuses every pair of area above 4 has 4 as its highest passing area |
| Day09.SharedAreaPoll | src/main/java/nl/th8/adventofcode2025/Day09.java:66-71 | on tiles of the unit square and the diagonal (3,3),(4,4) whose cache stores area 2 and keeps (4,4),(3,3) under area 4, a check that refuses that pair and every pair above area 4 and passes every pair of area 2 makes the poll answer 2 |
| Day09.SharedAreaMissed | src/main/java/nl/th8/adventofcode2025/Day09.java:52-72 | on the same tiles the square (0,0),(1,1) is valid and the highest valid area is 4, but part two answers 2 |
| Day09.ExamplePartOne | src/test/java/nl/th8/adventofcode2025/Day09Test.java:39 | on the example floor the largest rectangle has area 50 |

## Left out

- Reading the puzzle input is not modelled. Each solver takes its input as a value: lines, one string, or a grid of characters. `PuzzleInputParser` and the `AdventOfCode` runner are not part of this model, and neither are the resource files.
- The unit tests' mocking of the input parser is not modelled. The examples of the tests appear as lemmas about the model's functions, where they are proved.
- Integers are unbounded throughout. The lines below name each place where the Java `int` or `long` arithmetic could wrap around, or where a parse would reject a value that is too large.
- JavaText.ParseInt: a string of non-ASCII digits, which `Integer.parseInt` reads through `Character.digit`, is refused.
- JavaText.ParseLong: accepts digit strings of any length. `Long.parseLong`'s 64-bit range check is not modelled.
- JavaText.ParseLong: a string with a leading '+' or '-', and a string of non-ASCII digits, is refused where `Long.parseLong` reads it. So an id line "-3" in DayFive, which the code reads as -3 and counts as not fresh, makes the model's part one fail; and "+5" as an id, as a range end (DayTwo, DayFive) or as a Day06 part-two digit column is a failure in the model where the code reads 5.
- DayOne.SolvePartOne: does not model 32-bit overflow of the dial position. Part one never reduces the position modulo 100, so it grows with the turns.
- DayOne.SolvePartTwo: does not model 32-bit overflow of `currentPosition` for a single turn near the `int` limit.
- DayOne.ExamplePartOne: states the example on the turns its lines denote, not on the lines themselves. The same holds for the other DayOne examples.
- DayTwo.Solve: the `long` sum of invalid ids does not wrap around.
- DayThree.SolvePartOne: the `long` total does not wrap around. The same holds for DayThree.SolvePartTwo.
- DayThree: the unit test's examples (357 and 3121910778619) are not proved.
- DayFour.ParseIntPiece: `Integer.parseInt` on a coordinate accepts only digit strings up to the `int` maximum, without a sign. The keys are made by the code itself from non-negative indices, so a sign never occurs.
- DayFour: the `int` counters and the `x + 1` neighbour index do not wrap around.
- DayFour: the `HashMap` iteration order is left open. The removal methods work in any order, and the results are proved not to depend on it.
- DayFour: the unit test's examples (13 and 43) are not proved.
- DayFive.SolvePartTwo: follows the code, whose total can count ids twice, not the "total amount of ids … without duplicates" its javadoc promises. The contract states the total is at least the number of fresh ids, and equal to it only when the stored ranges are disjoint. DayFive.IntendedCountsFresh states the promise for the intended merge, and DayFive.MultiOverlapKeepsOne and DayFive.ZeroBeginNotMerged show inputs on which the two differ.
- DayFive.SolvePartTwo: the `long` total does not wrap around. The `HashMap` order in which stored ranges are scanned is a parameter (`order`).
- Day06.SolvePartOne: column sums and products are unbounded, so they do not wrap around as Java `long`s would. The same holds for Day06.SolvePartTwo.
- Day07.BeamTracer.TraceTachyonBeam: takes only grids on which the trace stays inside the array. That means no source on the last row, and no splitter at all in the first or last column, whether or not a beam reaches it. The code throws `ArrayIndexOutOfBoundsException` only for a reached one; a grid whose edge-column splitters no beam reaches runs in the code but is outside the model.
- Day07.BeamTracer.SolvePartTwo: takes only grids of source, splitter, beam and empty cells. On any other character the back-trace loop never moves up and never ends. The `long` timeline count does not wrap around.
- Day07.BeamTracer.SolvePartTwo: is proved equal to the sum of the code's back-traces over the bottom row. No independent count of timelines (paths from the source) is defined, so nothing states that the sum counts them; `Day07.ExampleSourceDropsFound` shows a walk that drops what it found on reaching the source.
- Day07: the unit test's manifold (21 splits, 40 timelines) is not proved. A smaller manifold is proved instead, in `Day07.ExampleOneSplit`.
- Day07: the cache key string "x<x>y<y>" is the coordinate pair. The two identify cells alike.
- Day08Distances.Dist: the squared distance stands in for `Math.sqrt` of it. The square root is monotone, so the order of pairs is the same, and floating point is left out. Ties are the same only while distinct squared distances give distinct `double` square roots: for large coordinates two different squares can round to the same `double`, the code's `TreeMap` then keeps only the later pair, and the model keeps both keys.
- Day08Distances.ParseBox: a negative coordinate is refused. In the code its '-' would break the "name-name" pair key when it is split; that garbled run is not modelled.
- Day08Distances: a box is its coordinates. The name string "x<x>y<y>z<z>" identifies boxes alike.
- Day08Distances.CalculateDistances: the `HashMap` order of the boxes is a parameter (`order`), one listing of the boxes.
- Day08: the number of connections (1000 in use, 10 in the tests) is a parameter.
- Day08.TopThreeProduct: the `long` product does not wrap around.
- Day08: the unit test's examples (40 and 25272) are not proved.
- Day09.Area: the `int` differences and the `long` product do not wrap around.
- Day09Bounds.Size: `max + 1` on `int` does not wrap around.
- Day09Bounds: the cache key strings "x<x>" and "y<y>" are `Key(axis, at)` values. The two identify keys alike.
- Day09.PollSpec: follows the code, which checks only the last pair put for each area, not the highest valid area its javadoc promises. Day09.HighestValidArea states that promise and Day09.SharedAreaMissed shows an input on which the two differ.
- Day09.LastKey: `pollLastEntry` is modelled as a scan for the largest key of a map, not as a red-black tree.
- Day09: the unit test's part-two example (24) is not proved. Part one's (50) is proved on the tiles the lines denote.
- Day09.ExamplePartOne: states the example on the tiles its lines denote, not on the lines themselves.
- Day06.ExamplePartOne: states the example on the columns of numbers and the operators its worksheet denotes, not on the worksheet lines; `ParseRow` is not run on them.
- Day06.ExamplePartTwo: states the example on the columns read right to left that the worksheet denotes, not on the worksheet lines; `ParseColumns` and `ConstructNumbers` are not run on them.
- DayFive.ExamplePartOne: states the example on the ranges and ids its database denotes, not on the database lines.
- DayFive.ExamplePartTwoStores: states the example on the ranges its database denotes, not on the database lines. The same holds for DayFive.ExamplePartTwoBridge.
- DayFive.ExamplePartTwoBridge: states the example on the ranges its database denotes, not on the database lines.

## Findings

| source | as written | input that shows it | evidently intended | confidence | as-written member | corrected member |
|---|---|---|---|---|---|---|
| src/main/java/nl/th8/adventofcode2025/Day09.java:52-72 | `sizeCache.put` keeps one pair per area, the last one put, and the poll checks only that pair | red tiles (0,0),(1,0),(0,1),(1,1),(3,3),(4,4): area 4 keeps (4,4),(3,3), which fails, so the valid square (0,0),(1,1) is never checked and part two answers 2 | the highest valid area, 4 here | not executed | Day09.SharedAreaMissed | Day09.HighestValidArea |
| src/main/java/nl/th8/adventofcode2025/DayFive.java:128-173 | `mergeIfOverlapping` keeps only the last key to remove (lines 145 and 151 overwrite it), and treats a begin of 0 as not set (lines 158 and 163) | ranges 2-3, 5-9, 1-10 with 2 visited before 5: only 5 is removed, 1-10 and 2-3 stay, and part two answers 12; ranges 0-5, 3-8 stay apart and part two answers 12 | the number of fresh ids, 10 and 9 here | not executed | DayFive.MultiOverlapKeepsOne | DayFive.IntendedCountsFresh |
