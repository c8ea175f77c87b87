# Advent of Code 2018 solutions, modelled in Dafny

This project models a set of Ruby solutions to the 2018 Advent of Code puzzles and proves
properties of the model. Each puzzle's script is one Dafny module in one file (`dayN.dfy`).
`wrappers.dfy` holds the shared `Option`/`Result` types and small sequence helpers.
Values the scripts only compute become datatypes, functions and lemmas. Objects whose
fields the scripts rewrite become classes whose methods are proved against those functions.

The centrepiece is the register machine shared by days 16, 19 and 21:

- `opcodes.dfy` holds the sixteen opcodes (`addr` … `eqrr`) acting on a register file.
  Bitwise `and`/`or` are defined on naturals bit by bit.
- `day16.dfy` holds the sample matcher and the constraint-propagation loop that assigns
  opcode numbers. The loop never reassigns a number and removes each assigned opcode from
  the candidates.
- `day19.dfy` holds the machine with a register bound to the program counter.
- `day21.dfy` holds the profiled run that records the values reaching the halting
  comparison, the shortcut that replaces the hot division loop, and the jump classification
  of the program listing.

The other modules are:

| day | module | modelled as |
|---|---|---|
| 1 | Frequency | frequency sums and the first repeated frequency |
| 2 | BoxChecksum | letter counts and the checksum |
| 3 | FabricClaims | claim coverage and the one claim that does not overlap |
| 4 | GuardSleep | sleep minutes per guard and the strategies |
| 5 | Polymer | the doubly linked polymer and its reaction |
| 6 | ChronalAreas | closest-coordinate areas and the near region |
| 7 | StepOrder | step ordering by prerequisites, alphabetical among the available steps |
| 8 | LicenseTree | the license tree, its encoding and values |
| 9 | MarbleGame | the circular marble list and the scores |
| 10 | StarMessage | moving lights and the smallest bounding box |
| 11 | FuelCells | power levels and the best square |
| 12 | PotRow | the pot automaton |
| 13 | MineCarts | carts on tracks, turns and crashes |
| 14 | RecipeBoard | the recipe scoreboard and the pattern search |
| 15 | CaveCombat | the goblin/elf combat: moves, attacks and rounds |
| 17 | Reservoir | water flowing through clay |
| 18 | LumberArea | the lumber-collection automaton |
| 22 | ModeMaze | the cave's erosion and risk and the rescue search |
| 23 | Nanobots | bot ranges and the best-covered positions |
| 24 | ImmuneSimulator | the immune-system battle |
| 25 | Constellations | grouping four-dimensional points into constellations |

Loops the scripts run without a bound take a `fuel` parameter. The model then proves what
holds whenever the loop ends within the fuel.

## Model

| member | source | states |
|---|---|---|
| Opcodes.AllOpsListsEveryOpOnce | day16/day16.rb:18-41 | the opcode list holds sixteen distinct operations and every operation appears in it |
| Opcodes.BitAnd | day16/day16.rb:25-26 | Integer `&` on naturals: the result is at most either operand |
| Opcodes.BitOr | day16/day16.rb:28-29 | Integer bitwise or on naturals: the result is at least either operand and at most their sum |
| Opcodes.BitAndCommutes | day16/day16.rb:25 | `a & b == b & a` for all naturals (proved bit by bit) |
| Opcodes.BitOrCommutes | day16/day16.rb:28 | bitwise or commutes on all naturals |
| Opcodes.BitOpsIdempotent | day16/day16.rb:25-29 | bitwise and and bitwise or of a number with itself give the number |
| Opcodes.BitAndAbsorbsOr | day16/day16.rb:25-29 | absorption: x and (x or y) is x |
| Opcodes.Value | day16/day16.rb:19-40 | the value an operation writes; the six comparisons (gtir..eqrr) write only 0 or 1 |
| Opcodes.Exec | day16/day16.rb:5-7 | executing an operation on a register array leaves exactly the bank `Apply` describes: register c receives the operation's value, all other registers keep theirs |
| Opcodes.ApplyWritesOnlyC | day16/day16.rb:19-40 | every operation keeps the bank's length and changes no register other than c |
| Opcodes.ComparisonsWriteBoolean | day16/day16.rb:34-40 | after gtir, gtri, gtrr, eqir, eqri or eqrr register c holds 0 or 1 |
| Opcodes.SetIgnoresB | day16/day16.rb:31-32 | setr and seti ignore operand B: any two values of B give the same bank |
| Opcodes.RegisterAndImmediateFormsAgree | day16/day16.rb:19-39 | each register form (addr, mulr, banr, borr, gtrr, eqrr) equals its immediate form given B's register value as immediate |
| Opcodes.GtrrIff | day16/day16.rb:36 | gtrr writes 1 exactly when register A exceeds register B, and 0 exactly otherwise |
| `Frequency.ResultingFrequency` | day1/day1.rb:23 | the resulting frequency is the sum of all changes |
| `Frequency.FirstRecurring` | day1/day1.rb:7-20 | for an empty list there is no answer; an answer is the drift at the first step k whose frequency was reached before, and no earlier step repeats; without an answer no step up to the fuel repeats |
| `Frequency.DriftFirstPass` | day1/day1.rb:11-13 | during the first pass of the cycle the frequency is the sum of the changes read so far |
| `Frequency.DriftPeriodic` | day1/day1.rb:11-13 | each further pass of the cycle shifts every frequency by the sum of the changes |
| `Frequency.DriftOverPasses` | day1/day1.rb:11-13 | after n whole passes the frequency is n times the sum of the changes |
| `Frequency.ZeroSumRepeatsWithinOnePass` | day1/day1.rb:11-17 | when the changes sum to zero, the end of the first pass repeats a frequency, so the search ends within one pass |
| `Frequency.SingleIncrementNeverRepeats` | day1/day1.rb:11-19 | with the single change +1 the frequency after k steps is k and never repeats: the cycle loop need not end |
| `BoxChecksum.LetterFreq` | day2/day2.rb:7-11 | the table has exactly the letters of the id as keys, each mapped to its number of occurrences |
| `BoxChecksum.Freq` | day2/day2.rb:13-15 | given a letter table of the id, the answer is true exactly when some letter occurs exactly `f` times |
| `BoxChecksum.CountsSumToLength` | day2/day2.rb:7-11 | the letter counts of an id add up to its length |
| `BoxChecksum.CountWithFreq` | day2/day2.rb:21-25 | the number of ids having some letter exactly `f` times is at most the number of ids |
| `BoxChecksum.CountWithFreqCountsIds` | day2/day2.rb:21-25 | that number is the size of the set of positions whose id has some letter exactly `f` times |
| `BoxChecksum.Checksum` | day2/day2.rb:17-28 | the checksum is the count of ids with a doubled letter times the count of ids with a tripled letter |
| `BoxChecksum.ExampleChecksum` | day2/day2.rb:32 | on the seven sample ids four have a doubled and three a tripled letter (checksum 12) |
| `FabricClaims.Claim.Right` | day3/day3.rb:7-9 | the inclusive right edge lies `width` columns from `left` |
| `FabricClaims.Claim.Bottom` | day3/day3.rb:11-13 | the inclusive bottom edge lies `height` rows from `top` |
| `FabricClaims.OccupiesIff` | day3/day3.rb:3-5 | a claim occupies exactly the `width` columns from `left` and the `height` rows from `top` |
| `FabricClaims.CoverageOne` | day3/day3.rb:27-35 | a cell occupied by claim i is covered once exactly when no other claim occupies it |
| `FabricClaims.CoverageZero` | day3/day3.rb:27-35 | a cell is uncovered exactly when no claim occupies it |
| `FabricClaims.RecordClaim` | day3/day3.rb:28-33 | one claim adds 1 to each cell it occupies and leaves every other cell as it was |
| `FabricClaims.RecordClaims` | day3/day3.rb:27-35 | every cell of the fabric gains the number of claims that occupy it |
| `FabricClaims.ClaimArea` | day3/day3.rb:29-31 | a claim that fits the fabric adds width times height to the fabric's total |
| `FabricClaims.MultiInRowsBound` | day3/day3.rb:37-45 | the count of cells claimed twice or more over m rows is at most m times the fabric width |
| `FabricClaims.NoMultiInRows` | day3/day3.rb:37-45 | a fabric with no cell claimed twice counts zero |
| `FabricClaims.CountMultiClaim` | day3/day3.rb:37-45 | the count is the number of cells of the 1000 by 1000 fabric holding two or more claims |
| `FabricClaims.NonOverlappingClaim` | day3/day3.rb:54-61 | the answer is true exactly when every cell of the claim holds the value 1 |
| `FabricClaims.AloneIffNoOverlap` | day3/day3.rb:54-61 | on a fabric recording all claims, a claim's cells all hold 1 exactly when no other claim shares a cell with it |
| `FabricClaims.FindClaim` | day3/day3.rb:63-65 | the result is the first claim in list order whose cells all hold 1, and none when there is no such claim |
| `GuardSleep.SleepMinutesCount` | day4/day4.rb:12-18 | for ordered intervals the number of minutes asleep equals the summed sleep time |
| `GuardSleep.SleepMinutesCover` | day4/day4.rb:16-18 | a minute is listed exactly when some interval starts at or before it and stops after it |
| `GuardSleep.InRange` | day4/day4.rb:17 | the range `s..e-1` holds exactly the minutes from s up to but not including e |
| `GuardSleep.Guards` | day4/day4.rb:6 | the guard list has one entry per shift, in shift order |
| `GuardSleep.OneShiftPerGuardLine` | day4/day4.rb:37-53 | a successful replay yields one shift per `Guard` line, in the order of those lines |
| `GuardSleep.UnexpectedRaises` | day4/day4.rb:49-51 | any unexpected event line makes parsing fail |
| `GuardSleep.WakeBeforeGuardRaises` | day4/day4.rb:46-48 | a `wakes up` line before any `Guard` line makes parsing fail |
| `GuardSleep.FailureSticks` | day4/day4.rb:37-52 | once a prefix of the events fails, the whole list fails |
| `GuardSleep.ParseShifts` | day4/day4.rb:30-54 | the loop fails exactly when the event replay fails, and otherwise returns the replayed shifts, the open shift included |
| `GuardSleep.AllMinutesWithinHour` | day4/day4.rb:64-68 | when all interval bounds lie within the hour, every listed minute lies in 0..59 |
| `GuardSleep.CountMinutes` | day4/day4.rb:64-68 | the 60 counters hold, for each minute, the number of times it is listed across the shifts |
| `GuardSleep.Max` | day4/day4.rb:69 | the maximum is an element of the list and no element exceeds it |
| `GuardSleep.FirstMaxIndex` | day4/day4.rb:69 | the index holds the maximum and every earlier entry is strictly smaller (the first maximum) |
| `GuardSleep.OptimalMinute` | day4/day4.rb:64-70 | the minute is below 60, most often asleep, and earlier minutes are asleep strictly less often |
| `GuardSleep.GuardOrder` | day4/day4.rb:57 | the grouping keys are distinct and are exactly the guards of the shifts |
| `GuardSleep.ShiftsOf` | day4/day4.rb:57 | a guard's group holds exactly that guard's shifts |
| `GuardSleep.Sleepiest` | day4/day4.rb:61 | the chosen guard is one of the candidates and no candidate sleeps longer in total |
| `GuardSleep.SleepiestGuard` | day4/day4.rb:56-62 | there is an answer exactly when there are shifts; its guard has a shift and its total is at least every guard's total |
| `GuardSleep.PeakGuard` | day4/day4.rb:80 | the chosen guard is a candidate whose busiest minute count is at least every candidate's |
| `GuardSleep.GroupPeak` | day4/day4.rb:73-79 | the peak is the largest of the guard's 60 minute counts |
| `GuardSleep.MostSleepyMinute` | day4/day4.rb:72-85 | it fails exactly when there are no shifts; otherwise the guard has the highest single-minute count and the minute is the first one reaching that count |
| `Polymer.ReactsIffReactingElement` | day5/day5.rb:68-71 | two units react exactly when their two-letter string is in the set of lower/upper case pairs of the same letter |
| `Polymer.ReactsSymmetric` | day5/day5.rb:68-71 | reaction is symmetric and no unit reacts with itself |
| `Polymer.ReactIsInert` | day5/day5.rb:77-88 | the reacted polymer has no two adjacent units that react |
| `Polymer.ReactReduces` | day5/day5.rb:77-88 | the reacted polymer is reached from the input by removing reacting adjacent pairs |
| `Polymer.ReducesByPairs` | day5/day5.rb:80-84 | each reduction shortens the polymer by an even number of units |
| `Polymer.List.constructor` | day5/day5.rb:19-22 | a new list is empty |
| `Polymer.List.Append` | day5/day5.rb:24-34 | the new node joins after the tail, the contents gain the unit at the end and the head changes only when the list was empty |
| `Polymer.List.Remove` | day5/day5.rb:36-54 | removing from an empty list fails; otherwise the node leaves the chain, the other units keep their order and the removed node keeps its own links |
| `Polymer.List.EachElement` | day5/day5.rb:56-64 | the units are read from head to tail |
| `Polymer.UnlinkCorrect` | day5/day5.rb:39-53 | relinking a head, tail or middle node leaves a valid chain of the remaining nodes in the same order |
| `Polymer.BuildList` | day5/day5.rb:74-75 | the list built from the polymer holds its units in order |
| `Polymer.RemovePair` | day5/day5.rb:82-83 | removing a node and its successor drops exactly those two units from the contents |
| `Polymer.ReactAt` | day5/day5.rb:80-84 | after a reaction the walk steps back one node (or forward past the pair at the head) and the stack-based reaction of the rest is unchanged |
| `Polymer.WalkStep` | day5/day5.rb:77-87 | one turn of the walk keeps the list valid, keeps the reaction result it is heading for, and shrinks the measure |
| `Polymer.TriggerReaction` | day5/day5.rb:73-91 | the walk over the linked list yields the same polymer as the stack-based reaction |
| `Polymer.ReactStep` | day5/day5.rb:80-84 | removing a reacting pair at the walk position leaves the reaction result unchanged |
| `Polymer.ReactKeep` | day5/day5.rb:85-86 | stepping past a non-reacting pair leaves the reaction result unchanged |
| `Polymer.ReducePolymer` | day5/day5.rb:110-112 | the reduced polymer is no longer than the input and holds exactly the units of the input not listed for removal |
| `Polymer.ReduceCounts` | day5/day5.rb:110-112 | removed units no longer occur; every other unit occurs as often as before |
| `Polymer.ReactWithout` | day5/day5.rb:115-118 | the candidate for a letter is the reaction of the polymer with both cases of that letter removed |
| `Polymer.OptimalPolymer` | day5/day5.rb:114-120 | the result is one of the 26 candidates and none of them is shorter |
| `Polymer.ExamplesShort` | day5/day5.rb:94-96 | `aA` and `abBA` react away completely; `abAB` stays as it is |
| `Polymer.ExampleNoReaction` | day5/day5.rb:97 | `aabAAB` does not react |
| `Polymer.ExampleLong` | day5/day5.rb:98 | `dabAcCaCBAcCcaDA` reacts to `dabCBAcaDA` |
| `ChronalAreas.Distance` | day6/day6.rb:3-5 | the Manhattan distance is never negative and is zero only at the coordinate itself |
| `ChronalAreas.DistanceMetric` | day6/day6.rb:3-5 | the distance is symmetric and satisfies the triangle inequality |
| `ChronalAreas.MaxX` | day6/day6.rb:30 | the largest x is one coordinate's x and no coordinate's x exceeds it |
| `ChronalAreas.MaxY` | day6/day6.rb:31 | the largest y is one coordinate's y and no coordinate's y exceeds it |
| `ChronalAreas.MinDistance` | day6/day6.rb:37 | the minimum distance is reached by some coordinate and no coordinate is nearer |
| `ChronalAreas.ScanFinds` | day6/day6.rb:35-40 | the scan finds the minimum distance, a coordinate at that distance, and whether it is the only one there |
| `ChronalAreas.ClosestIsUnique` | day6/day6.rb:35-40 | a result is a coordinate strictly nearer than every other; there is none exactly when two different coordinates share the minimum distance |
| `ChronalAreas.TotalDistance` | day6/day6.rb:73-75 | the summed distance is never negative |
| `ChronalAreas.EdgeIffNeighbourOff` | day6/day6.rb:51-53 | a cell is on the edge exactly when one of its four neighbours lies off the board |
| `ChronalAreas.CountCellsBounds` | day6/day6.rb:55-66 | a cell count over the board is at most its size, and zero exactly when no cell qualifies |
| `ChronalAreas.CountGrows` | day6/day6.rb:77-85 | a weaker cell test never counts fewer cells |
| `ChronalAreas.RegionGrows` | day6/day6.rb:77-85 | raising the distance limit never shrinks the region |
| `ChronalAreas.LargestOf` | day6/day6.rb:70 | after dropping the nils, the maximum is none exactly when every area is nil; otherwise it is one of the areas and at least every other area |
| `ChronalAreas.Areas` | day6/day6.rb:70 | the list holds the area of each coordinate, in coordinate order |
| `ChronalAreas.Board.constructor` | day6/day6.rb:24-33 | the board spans columns 0 through the largest x and rows 0 through the largest y |
| `ChronalAreas.Board.FillClosest` | day6/day6.rb:42-49 | afterwards every cell holds its closest coordinate, or none on a tie |
| `ChronalAreas.Board.Area` | day6/day6.rb:55-66 | the area is none when the coordinate owns an edge cell, and otherwise the number of cells it owns |
| `ChronalAreas.Board.ColumnArea` | day6/day6.rb:58-63 | within one column the edge flag is set exactly when the coordinate owns an edge cell there; without one the count is the cells it owns in that column |
| `ChronalAreas.Board.LargestArea` | day6/day6.rb:68-71 | the board is filled and the result is the largest finite area over all coordinates |
| `ChronalAreas.Board.LargestRegion` | day6/day6.rb:77-85 | the result is the number of board cells whose total distance is within the limit |
| `StepOrder.Instructions.constructor` | day7/day7.rb:4-6 | a new set of instructions has no steps, no prerequisites and nothing done |
| `StepOrder.Instructions.Add` | day7/day7.rb:8-12 | a missing step is created on lookup, `before` then `after`; `before` is appended to the prerequisites of `after` and every other step keeps its prerequisites |
| `StepOrder.Instructions.MarkDone` | day7/day7.rb:40-42 | the step joins the done steps and nothing else changes |
| `StepOrder.Instructions.NextStep` | day7/day7.rb:14-16 | a result is the alphabetically smallest step that is not done and whose prerequisites are all done; none means no step is available |
| `StepOrder.SmallestAmong` | day7/day7.rb:15 | the scan returns an available name no larger than any other available name, and none only when no listed name is available |
| `StepOrder.Instructions.OrderOfSteps` | day7/day7.rb:18-27 | on success every step is done and each letter of the order was the smallest available step when it was taken; a failure means steps remain but none is available (Ruby calls a method on `nil`) |
| `StepOrder.AcyclicNeverStuck` | day7/day7.rb:18-27 | when the prerequisites are ranked (no cycle), the loop can never be stuck |
| `StepOrder.GreedyIsTopological` | day7/day7.rb:18-27 | in the produced order every prerequisite of a step comes before it or was done at the start |
| `StepOrder.GreedySnoc` | day7/day7.rb:21-24 | taking the next step extends a greedy order to a greedy order |
| `StepOrder.GreedyDistinct` | day7/day7.rb:18-27 | the produced order repeats no step and holds no step that was done at the start |
| `LicenseTree.Count` | day8/day8.rb:30-31 | a range `1..k` has k elements for k at least zero and none otherwise |
| `LicenseTree.Size` | day8/day8.rb:26-33 | an encoded node takes its two header numbers plus at least its metadata |
| `LicenseTree.EncodeLength` | day8/day8.rb:26-33 | the encoding of a node is exactly its size long |
| `LicenseTree.EncodeParts` | day8/day8.rb:26-33 | an encoding is the child count, the metadata count, the children's encodings and then the metadata |
| `LicenseTree.ParseMetadata` | day8/day8.rb:31 | reading k metadata entries succeeds exactly when k numbers remain, and takes the next k numbers |
| `LicenseTree.ParseNode` | day8/day8.rb:26-33 | a parsed node ends exactly its size after the start, within the input |
| `LicenseTree.ParseChildren` | day8/day8.rb:30 | the requested number of children are parsed and they end after their combined size |
| `LicenseTree.ParseEncoded` | day8/day8.rb:26-33 | parsing the encoding of any tree gives back that tree and the position after it (round trip) |
| `LicenseTree.ParseEncodedAll` | day8/day8.rb:30 | parsing the encoding of a list of children gives back that list |
| `LicenseTree.ShortStreamFails` | day8/day8.rb:27-28 | a stream with fewer than two numbers left fails: the enumerator runs out |
| `LicenseTree.IntStream.constructor` | day8/day8.rb:35 | the stream starts at the first number |
| `LicenseTree.IntStream.Next` | day8/day8.rb:27 | the next number is returned and the position advances; at the end the call fails and the position stays |
| `LicenseTree.BuildNode` | day8/day8.rb:26-33 | reading from the stream succeeds exactly when the recursive-descent parse does, with the same node and end position |
| `LicenseTree.BuildChildren` | day8/day8.rb:30 | the loop over children succeeds exactly when the parse of that many children does, with the same result |
| `LicenseTree.BuildMetadata` | day8/day8.rb:31 | the loop over metadata succeeds exactly when the metadata parse does, with the same entries |
| `LicenseTree.MetadataSumIsSumOfAll` | day8/day8.rb:6-8 | the recursive metadata sum equals the sum of all metadata entries of the tree |
| `LicenseTree.EntryZeroIsLastChild` | day8/day8.rb:20-22 | metadata entry 0 picks the last child, because Ruby reads index -1 from the end |
| `LicenseTree.IndexedValueIsNatural` | day8/day8.rb:10-22 | when every entry of a node with children is a positive index, the value is defined and not negative |
| `LicenseTree.NegativeEntryBeyondFrontRaises` | day8/day8.rb:20-22 | an entry that points before the first child reads `nil` and the value fails |
| `MarbleGame.RotateLeftAt` | day9/day9.rb:44-46 | one step clockwise moves every marble one place towards the front and the current marble to the back |
| `MarbleGame.RotateRightAt` | day9/day9.rb:48-50 | one step counter-clockwise moves the last marble to the front |
| `MarbleGame.RotateInverse` | day9/day9.rb:44-50 | a step clockwise and a step counter-clockwise undo each other |
| `MarbleGame.RotateRightNSplit` | day9/day9.rb:115 | k steps counter-clockwise bring the last k marbles to the front |
| `MarbleGame.InsertAfter` | day9/day9.rb:24-42 | inserting after the current marble keeps it current and puts the new marble right behind it; into an empty circle it is the only marble |
| `MarbleGame.RingLinksAgree` | day9/day9.rb:4-14 | in the ring of nodes every next link and prev link point back at each other |
| `MarbleGame.RingAlone` | day9/day9.rb:31 | the current node is its own successor exactly when it is the only node |
| `MarbleGame.RingRotateLeft` | day9/day9.rb:44-46 | following `next` turns the ring one step and keeps it a ring |
| `MarbleGame.RingRotateRight` | day9/day9.rb:48-50 | following `prev` turns the ring one step back and keeps it a ring |
| `MarbleGame.RingInsert` | day9/day9.rb:36-41 | linking a new node between the current node and its successor gives a ring with the node in second place |
| `MarbleGame.RingInsertSingle` | day9/day9.rb:31-35 | linking a node to a one-node ring gives a two-node ring |
| `MarbleGame.RingRemove` | day9/day9.rb:60-62 | unlinking the current node leaves a ring of the others that starts at its successor |
| `MarbleGame.InsertCorrect` | day9/day9.rb:25-42 | all three branches of `insert` leave a valid ring whose marbles are the old ones with the new marble right after the current one |
| `MarbleGame.CircularList.constructor` | day9/day9.rb:16-18 | a new circle is empty |
| `MarbleGame.CircularList.Insert` | day9/day9.rb:25-42 | the circle becomes the old circle with the marble inserted after the current one |
| `MarbleGame.CircularList.Next` | day9/day9.rb:44-46 | the circle turns one step clockwise; an empty circle stays empty |
| `MarbleGame.CircularList.Prev` | day9/day9.rb:48-50 | the circle turns one step counter-clockwise; an empty circle stays empty |
| `MarbleGame.CircularList.Remove` | day9/day9.rb:53-65 | removing from an empty circle fails; otherwise the current marble is returned and the next one becomes current |
| `MarbleGame.CircularList.EachElement` | day9/day9.rb:67-75 | the marbles are listed clockwise from the current one, each once |
| `MarbleGame.PlayerIndex` | day9/day9.rb:112 | the player index is always a valid index |
| `MarbleGame.PlayerIndexTurns` | day9/day9.rb:112 | marble m goes to player (m - 1) mod the player count: Ruby's index -1 wraps to the last player |
| `MarbleGame.NoMarbles` | day9/day9.rb:96 | every player starts with no marbles |
| `MarbleGame.Simulate` | day9/day9.rb:102-105 | after m rounds every player still has a hand and the circle holds m + 1 minus two for every multiple of 23 up to m |
| `MarbleGame.OrdinaryRoundPlacement` | day9/day9.rb:118-122 | an ordinary marble becomes current, placed between the marbles one and two steps clockwise of the old current one |
| `MarbleGame.ScoringRoundRemoval` | day9/day9.rb:113-117 | on a multiple of 23 the player scores the marble and the one seven steps counter-clockwise, which leaves the circle; the marble after it becomes current and no other player scores |
| `MarbleGame.TriangleClosedForm` | day9/day9.rb:103 | the marbles 1 to m add up to m(m+1)/2 |
| `MarbleGame.RoundConserves` | day9/day9.rb:111-123 | a round adds its marble to the marbles in the circle plus those in the players' hands |
| `MarbleGame.MarblesConserved` | day9/day9.rb:102-105 | after m rounds the circle and the hands together hold the marbles 0 to m |
| `MarbleGame.Game.constructor` | day9/day9.rb:95-100 | the game starts with marble 0 alone in the circle and every player empty-handed |
| `MarbleGame.Game.PlayRound` | day9/day9.rb:111-123 | one round of the linked circle does the same as the reference round on sequences |
| `MarbleGame.Game.Play` | day9/day9.rb:102-107 | after all rounds the result is the score of some player and no player's score is higher |
| `MarbleGame.HighScore` | day9/day9.rb:106 | the result is some player's score and at least every player's score |
| `StarMessage.AdvanceAt` | day10/day10.rb:7-10 | after k seconds every light has moved k times its velocity |
| `StarMessage.AdvanceTwice` | day10/day10.rb:37-45 | moving a seconds and then b seconds is moving a + b seconds |
| `StarMessage.AreaNonNegative` | day10/day10.rb:72-74 | a box whose bottom is not above its top and whose right edge is not left of its left edge has an area of at least zero |
| `StarMessage.BoxOfTight` | day10/day10.rb:77-93 | the bounding box holds every light and each of its four edges touches a light |
| `StarMessage.TightUnique` | day10/day10.rb:77-93 | only one box holds every light with each edge touching a light |
| `StarMessage.LitInsideBox` | day10/day10.rb:77-93 | every lit position lies in the bounding box and the box's area is not negative |
| `StarMessage.AreasUpToAt` | day10/day10.rb:103-112 | the recorded area after k seconds is the area of the bounding box after k seconds |
| `StarMessage.NotGrowingSnoc` | day10/day10.rb:107-111 | a non-growing run of areas stays non-growing when a no-larger area is added |
| `StarMessage.Light.constructor` | day10/day10.rb:6 | a light starts at its position with its velocity |
| `StarMessage.Light.Move` | day10/day10.rb:7-10 | the position advances by the velocity |
| `StarMessage.Light.MoveBack` | day10/day10.rb:12-15 | the position moves back by the velocity |
| `StarMessage.Positions` | day10/day10.rb:81 | the list holds each light's position, in order |
| `StarMessage.Velocities` | day10/day10.rb:8-9 | the list holds each light's velocity, in order |
| `StarMessage.Sky.constructor` | day10/day10.rb:32-35 | the sky holds the lights and has made no moves |
| `StarMessage.Sky.Move` | day10/day10.rb:37-40 | every light moves one second forward and the move counter goes up by one |
| `StarMessage.Sky.MoveBack` | day10/day10.rb:42-45 | every light moves one second back and the move counter goes down by one |
| `StarMessage.Sky.BoundingBox` | day10/day10.rb:77-93 | the box computed from the first light onwards is the tight box of the lit positions |
| `StarMessage.Sky.Area` | day10/day10.rb:47-49 | the area is that of the tight bounding box and is not negative |
| `StarMessage.Sky.LightAtInBox` | day10/day10.rb:95-97 | a position has a light exactly when it is a lit position, and it then lies in the bounding box |
| `StarMessage.Sky.LightAt` | day10/day10.rb:95-97 | `light_at_position?`; `StarMessage.Sky.LightAtInBox` states that it holds exactly for the lit positions, which lie in the bounding box |
| `StarMessage.Sky.StepFrom` | day10/day10.rb:105-106 | one turn of the driver loop moves one second forward and yields the area after that second |
| `StarMessage.Sky.StepBackTo` | day10/day10.rb:108 | the step back restores the positions of the second before |
| `StarMessage.Sky.FindMessage` | day10/day10.rb:103-112 | the sky shows the positions after t seconds with t moves counted; the areas up to t never grew; when found the next second's area is larger, otherwise the fuel ran out |
| `FuelCells.HundredsDigit` | day11/day11.rb:11 | the digit taken from the level is between 0 and 9 |
| `FuelCells.PowerLevel` | day11/day11.rb:2-15 | every cell's power level lies between -5 and 4 |
| `FuelCells.RectPowerBounds` | day11/day11.rb:17-25 | a rectangle of w by h cells has a total between -5wh and 4wh |
| `FuelCells.SquarePowerBounds` | day11/day11.rb:17-25 | a square of side s has a total between -5s² and 4s² |
| `FuelCells.UnitSquareIsCell` | day11/day11.rb:17-25 | the total of a 1 by 1 square is the power level of its cell |
| `FuelCells.PowerLevelTotal` | day11/day11.rb:17-25 | the nested loop adds up exactly the cells of the square of the given size at (x, y) |
| `FuelCells.Visit` | day11/day11.rb:36-43 | comparing one square keeps the best-so-far record true for all squares scanned up to it |
| `FuelCells.NextRow` | day11/day11.rb:34-35 | the record carries over from the end of one column of anchors to the next |
| `FuelCells.NextSize` | day11/day11.rb:32-34 | the record carries over from the last anchor of one size to the first of the next |
| `FuelCells.ScanComplete` | day11/day11.rb:32-46 | after the last size the record holds the first square of largest total in scan order |
| `FuelCells.GridAsWritten` | day11/day11.rb:27-48 | the method as written always fails: its last line names `size`, which is undefined there |
| `FuelCells.Grid` | day11/day11.rb:27-48 | the corrected method returns the anchor and size of the first square, in scan order, whose total is the largest over the 300 by 300 grid |
| `PotRow.FirstIndex` | day12/day12.rb:20 | `index` finds the first position holding the character, and nothing exactly when it does not occur |
| `PotRow.LastIndex` | day12/day12.rb:24 | `rindex` finds the last position holding the character, and nothing exactly when it does not occur |
| `PotRow.FirstNotAfterLast` | day12/day12.rb:19-25 | with a plant present the first plant is not after the last one |
| `PotRow.PlantSumUpdate` | day12/day12.rb:32-34 | writing one pot changes the sum only by that pot's number: taken off if it held a plant, added if it now holds one |
| `PotRow.PlantSumEmpty` | day12/day12.rb:32-34 | a row without plants sums to zero |
| `PotRow.Plants.constructor` | day12/day12.rb:5-9 | a new row has 30000 empty pots |
| `PotRow.Plants.Get` | day12/day12.rb:11-13 | a pot inside the array is read at its number plus 10000, negative positions counting back from the end as Ruby does; beyond the array there is no pot |
| `PotRow.Plants.Set` | day12/day12.rb:15-17 | writing a pot changes that array position only, and reading the pot back gives the written value |
| `PotRow.Plants.FirstPlant` | day12/day12.rb:19-21 | without plants the call fails; otherwise the result is the number of the first pot holding a plant |
| `PotRow.Plants.LastPlant` | day12/day12.rb:23-25 | without plants the call fails; otherwise the result is the number of the last pot holding a plant |
| `PotRow.Plants.PatternAt` | day12/day12.rb:27-30 | the pattern is the five pots from two before to two after the pot |
| `PotRow.NextStaysNear` | day12/day12.rb:50-59 | a pot holding a plant in the next generation lies within two pots of the old plants |
| `PotRow.NextGeneration` | day12/day12.rb:50-59 | the step fails exactly when there is no plant or a needed pattern has no rule; otherwise the new row holds each pot's looked-up state near the plants and is empty elsewhere |
| `MineCarts.TurnsInverse` | day13/day13.rb:141-163 | a left turn and a right turn undo each other, and four left turns come back to the start |
| `MineCarts.CurveInvolution` | day13/day13.rb:113-139 | taking the same curve twice restores the direction |
| `MineCarts.IntersectionCycle` | day13/day13.rb:104-111 | three intersections in a row (left, straight, right) restore the direction |
| `MineCarts.ForwardOneCell` | day13/day13.rb:92-102 | a tick moves a cart with one of the four arrows by exactly one cell, and leaves any other cart in place |
| `MineCarts.CrashAtEach` | day13/day13.rb:20-22 | crashing a cell marks exactly the live carts on that cell as crashed |
| `MineCarts.MoveOneSeparates` | day13/day13.rb:15-24 | after one cart's turn no two live carts share a cell |
| `MineCarts.RoundSeparates` | day13/day13.rb:14-25 | after a whole round no two live carts share a cell |
| `MineCarts.MoveOneKeepsWrecks` | day13/day13.rb:15 | a crashed cart is skipped and stays where it is |
| `MineCarts.RoundWithoutLiveCarts` | day13/day13.rb:14-25 | a round over crashed carts only changes nothing |
| `MineCarts.InsertSorted` | day13/day13.rb:13 | inserting a cart into an order sorted by row then column keeps it sorted |
| `MineCarts.InsertCounts` | day13/day13.rb:13 | inserting adds exactly one occurrence of the new cart index |
| `MineCarts.ReadingOrderSorted` | day13/day13.rb:13 | the turn order is sorted by row, then column |
| `MineCarts.ReadingOrderPermutes` | day13/day13.rb:13 | the turn order holds every cart index exactly once |
| `MineCarts.Cart.constructor` | day13/day13.rb:72-78 | a cart starts at its cell and direction with no intersections passed and not crashed |
| `MineCarts.Cart.Tick` | day13/day13.rb:92-102 | the cart moves one cell in its direction and nothing else about it changes |
| `MineCarts.Cart.TurnAtIntersection` | day13/day13.rb:104-111 | the intersection counter goes up by one and the direction turns left, straight or right by that count |
| `MineCarts.Cart.TurnAtCurve` | day13/day13.rb:113-139 | the direction follows the curve and nothing else changes |
| `MineCarts.Cart.Crash` | day13/day13.rb:84-86 | only the crashed flag is set |
| `MineCarts.StatesAt` | day13/day13.rb:69-78 | the state list holds each cart's state, in order |
| `MineCarts.Track.constructor` | day13/day13.rb:6-10 | the track holds the map and the carts, with no crash and no last cart recorded |
| `MineCarts.Track.CartsAt` | day13/day13.rb:41-43 | the carts listed are live and on the cell, as many as there are live carts there |
| `MineCarts.Track.CrashAll` | day13/day13.rb:22 | exactly the live carts on the cell become crashed |
| `MineCarts.Track.SteerCart` | day13/day13.rb:17-19 | the cart ticks, then turns at an intersection or a curve; no other cart changes |
| `MineCarts.Track.Collide` | day13/day13.rb:20-24 | a collision happens exactly when more than one live cart is on the cell, and then all of them crash |
| `MineCarts.Track.MoveCart` | day13/day13.rb:15-24 | one cart's turn does what the reference turn does, and reports the crash site when there is one |
| `MineCarts.Track.TakeTurns` | day13/day13.rb:14-25 | the carts move in the given order as the reference round does, and the first crash is kept once set |
| `MineCarts.Track.KeepFirstCrash` | day13/day13.rb:23 | a first crash, once recorded, is never replaced |
| `MineCarts.Track.SetLastRemaining` | day13/day13.rb:28 | the last remaining cell is recorded and nothing else changes |
| `MineCarts.Track.Live` | day13/day13.rb:37-39 | the live carts are carts of the track, not crashed, as many as the live count |
| `MineCarts.Track.Tick` | day13/day13.rb:12-31 | the carts move in reading order as the reference round does; the result is done exactly when one live cart remains, and then its cell is recorded |
| `MineCarts.Track.Run` | day13/day13.rb:53-56 | the carts are those of `rounds` reference rounds from the start and the first crash is the reference one; the loop stops after the first round that leaves exactly one live cart, no earlier round did, and that cart's cell is recorded; otherwise the fuel ran out |
| `MineCarts.Track.PlayRound` | day13/day13.rb:53-55 | one more `tick!` of the loop keeps the carts equal to the reference rounds played so far, and ends the loop exactly when one live cart remains |
| `MineCarts.NotAloneBeforeAll` | day13/day13.rb:53-55 | while the loop runs, no earlier round left exactly one live cart |
| `MineCarts.Part` | day13/day13.rb:33-35 | a part other than a blank is the character of a cell on the map |
| `MineCarts.TurnLeft` | day13/day13.rb:141-151 | `turn_left`; `MineCarts.TurnsInverse` states that a right turn undoes it and that four of them are none |
| `MineCarts.TurnRight` | day13/day13.rb:153-163 | `turn_right`; `MineCarts.TurnsInverse` states that a left turn undoes it |
| `MineCarts.Curve` | day13/day13.rb:113-139 | `turn_at_curve`; `MineCarts.CurveInvolution` states that the same curve twice restores the direction |
| `MineCarts.FirstCrash` | day13/day13.rb:20-24 | the first crash site over a round, set once and never replaced; `MineCarts.Track.TakeTurns` states that the class keeps exactly this value |
| `RecipeBoard.Digits` | day14/day14.rb:7 | a score's digits, most significant first, are at least one and each at most 9 |
| `RecipeBoard.DigitsRoundTrip` | day14/day14.rb:7 | reading the digits back as a number gives the number |
| `RecipeBoard.DigitsOfSmallSum` | day14/day14.rb:6-7 | a sum below 100 adds one recipe, or two (tens then units) from 10 up |
| `RecipeBoard.Total` | day14/day14.rb:6 | with single-digit scores the elves' total is at most 9 per elf |
| `RecipeBoard.Board.constructor` | day14/day14.rb:2-3 | the board starts with scores 3 and 7 and the elves on recipes 0 and 1 |
| `RecipeBoard.Board.CookAndMove` | day14/day14.rb:5-12 | the digits of the total are appended, and each elf moves on by one plus its recipe's score, wrapping around the new board; the new board is `Cook` of the old one |
| `RecipeBoard.Board.SumCurrent` | day14/day14.rb:6 | the `map`/`sum` over the elves returns the total of their current recipes' scores |
| `RecipeBoard.Board.MoveElves` | day14/day14.rb:8-11 | each elf steps one plus its recipe's score around the grown board; the scores are left alone |
| `RecipeBoard.Cook` | day14/day14.rb:5-12 | one round on values keeps every score a digit and both elves on the board, and grows the board by one or two recipes with the old ones unchanged |
| `RecipeBoard.Stepped` | day14/day14.rb:8-11 | each elf lands on a recipe of the grown board; `RecipeBoard.SteppedAt` gives each elf's new position |
| `RecipeBoard.SteppedAt` | day14/day14.rb:8-11 | elf e's new recipe is its old one plus one plus its score, modulo the board size |
| `RecipeBoard.CookIsCookAndMove` | day14/day14.rb:5-12 | the board `cook_and_move` leaves, described entry by entry, is exactly `Cook` of the board before |
| `RecipeBoard.Cooked` | day14/day14.rb:2-12 | the board after n rounds from [3, 7] with the elves on 0 and 1 is sound and holds at least n + 2 recipes |
| `RecipeBoard.CookedStep` | day14/day14.rb:5-12 | the board after one more round extends the board before it |
| `RecipeBoard.CookedPrefix` | day14/day14.rb:5-12 | the board after i rounds is a prefix of the board after any later round, so a recipe once on the board never changes |
| `RecipeBoard.Board.PatternOccursAt` | day14/day14.rb:15-20 | the answer is true exactly when the pattern appears on the board starting at that index |
| `RecipeBoard.OccursAtFits` | day14/day14.rb:15-20 | a match lies wholly on the board and the slice there equals the pattern |
| `RecipeBoard.OccursAtChecksEachDigit` | day14/day14.rb:16-18 | one mismatching or missing digit rules a start out |
| `RecipeBoard.FindAsWrittenSpec` | day14/day14.rb:14-30 | as written, only the two starts ending one before or at the end of the board are checked, and nothing is found on a board shorter than the pattern plus one |
| `RecipeBoard.Board.FindAsWritten` | day14/day14.rb:14-30 | the method as written returns what that check finds |
| `RecipeBoard.FindSpec` | day14/day14.rb:14-30 | the corrected check tries every start that fits on the board and ends within the last two recipes, returns the first that matches, and nothing only when none does |
| `RecipeBoard.Board.Find` | day14/day14.rb:14-30 | the corrected method returns what the corrected check finds |
| `RecipeBoard.AsWrittenMissesStartZero` | day14/day14.rb:22-24 | on the boards [3,7], [3,7,1,0] and [3,7,1,0,1,0] the check as written never finds the pattern 3,7,1,0 although it starts at index 0; the corrected check finds it |
| `RecipeBoard.FirstTwoRounds` | day14/day14.rb:5-12 | two rounds from the start produce the board 3,7,1,0,1,0 |
| `RecipeBoard.Grown` | day14/day14.rb:7 | each round adds one or two recipes and keeps the old ones |
| `RecipeBoard.NewStartsInWindow` | day14/day14.rb:22-29 | a match present after a round either was present before or ends within the window the corrected check looks at |
| `RecipeBoard.NoEarlierStart` | day14/day14.rb:34-36 | on the starting board, what the corrected check finds is the first match anywhere |
| `RecipeBoard.RecipesBefore` | day14/day14.rb:34-39 | the board is the one cooked in `rounds` rounds from [3, 7], and the pattern appeared on none of the earlier boards; the answer is the first index at which the pattern appears on that board; when the fuel runs out, all `fuel` rounds were cooked and the pattern appears nowhere |
| `RecipeBoard.CookAndFind` | day14/day14.rb:34-36 | one turn of the `until` loop cooks one round; as the pattern was absent before it, what the corrected check finds is its first occurrence on the new board |
| `CaveCombat.Adjacent` | day15/day15.rb:13-15 | a position has four neighbours, listed in reading order |
| `CaveCombat.AdjacentAreNeighbours` | day15/day15.rb:13-15 | the list holds exactly the cells one step up, left, right or down |
| `CaveCombat.BeforeTotal` | day15/day15.rb:225-227 | reading order (row, then column) is irreflexive, total on distinct cells and transitive |
| `CaveCombat.Put` | day15/day15.rb:159-160 | writing a cell changes that cell of its row only |
| `CaveCombat.PutWalled` | day15/day15.rb:158-170 | a write that opens only interior cells keeps every open cell off the border |
| `CaveCombat.OpenOnly` | day15/day15.rb:222 | the selection keeps exactly the open cells of the list, in reading order |
| `CaveCombat.AdjacentTo` | day15/day15.rb:220-223 | the result holds exactly the open neighbours of the cell, in reading order |
| `CaveCombat.Unseen` | day15/day15.rb:175 | the new cells are exactly the open neighbours not discovered yet, in reading order |
| `CaveCombat.ExpandSearch` | day15/day15.rb:174-179 | expanding the entry whose turn it is keeps the list a breadth-first discovery: distinct cells, depths never falling, each new cell one step from an earlier one |
| `CaveCombat.ExpandCovers` | day15/day15.rb:174-179 | after the expansion every open neighbour of the entries up to this one has been discovered |
| `CaveCombat.ExpandShrinks` | day15/day15.rb:176-179 | discovering a new cell shrinks the set of open cells not yet discovered, so the search ends |
| `CaveCombat.Combat.Discover` | day15/day15.rb:172-198 | the result is a breadth-first discovery from the start that stops only when a searched cell has been found or no open cell is left to discover |
| `CaveCombat.Combat.Expand` | day15/day15.rb:174-179 | one expansion appends the undiscovered open neighbours at the next depth and keeps the search invariant |
| `CaveCombat.Combat.Record` | day15/day15.rb:176-179 | the new cells are appended at the given depth and added to the discovered set |
| `CaveCombat.Matching` | day15/day15.rb:89 | the selection keeps exactly the entries on searched cells |
| `CaveCombat.Least` | day15/day15.rb:91 | the least depth is one entry's depth and no entry is shallower |
| `CaveCombat.AtDepth` | day15/day15.rb:91 | the group holds exactly the entries at that depth |
| `CaveCombat.NearestIsLeast` | day15/day15.rb:87-95 | the nearest entries are exactly those on searched cells at the least such depth, and there are none exactly when no entry is on a searched cell |
| `CaveCombat.FirstPosition` | day15/day15.rb:97-99 | the result is the cell of one of the entries, and no entry's cell comes before it in reading order |
| `CaveCombat.Unit.constructor` | day15/day15.rb:31 | a unit starts with its cell, kind, attack power and hit points, alive |
| `CaveCombat.Living` | day15/day15.rb:200-202 | the living units are exactly the units not dead |
| `CaveCombat.Enemies` | day15/day15.rb:208-210 | the enemies are exactly the living units of the other kind |
| `CaveCombat.InRange` | day15/day15.rb:110-116 | the units in range are exactly those on one of the four neighbouring cells |
| `CaveCombat.MinHitPoints` | day15/day15.rb:105 | the fewest hit points are those of some unit and no unit has fewer |
| `CaveCombat.WithHitPoints` | day15/day15.rb:105 | the group holds exactly the units with those hit points |
| `CaveCombat.SortByReadingOrder` | day15/day15.rb:225-227 | the sorted list is a permutation of the units in reading order of their cells |
| `CaveCombat.Insert` | day15/day15.rb:225-227 | inserting a unit into a sorted list gives a sorted list with the unit added |
| `CaveCombat.ChooseTarget` | day15/day15.rb:101-108 | the target is one of the units in range, has the fewest hit points, and comes first in reading order among those with as few |
| `CaveCombat.AttackPositions` | day15/day15.rb:44-46 | the attack positions are exactly the open cells next to some target |
| `CaveCombat.CreatedAppend` | day15/day15.rb:122-128 | adding the unit found on the next cell of the scan keeps the unit list as the scan creates it |
| `CaveCombat.CreatedApart` | day15/day15.rb:122-128 | units created by the scan stand on distinct cells |
| `CaveCombat.Combat.constructor` | day15/day15.rb:119-130 | the combat keeps the map, and creates one living unit with 200 hit points on every `E` or `G` cell, in reading order, elves with the given attack power and goblins with 3 |
| `CaveCombat.Combat.ScanMap` | day15/day15.rb:122-129 | the scan over all rows creates a unit for every unit cell |
| `CaveCombat.Combat.ScanRow` | day15/day15.rb:123-128 | the scan over one row adds a unit for every unit cell of that row after those already created |
| `CaveCombat.Combat.Attack` | day15/day15.rb:164-170 | the target loses the attacker's power in hit points; it dies exactly when they reach zero or less, and its cell is then cleared |
| `CaveCombat.Combat.MoveUnit` | day15/day15.rb:158-162 | the old cell is cleared, the new cell shows the unit's kind and the unit stands there |
| `CaveCombat.Combat.UnitAttack` | day15/day15.rb:101-108 | an attack happens exactly when a target is in range; then the chosen target is struck and no other unit changes |
| `CaveCombat.Combat.NearestReachable` | day15/day15.rb:87-95 | the result is the nearest attack positions of a breadth-first discovery from the unit |
| `CaveCombat.Combat.NextPosition` | day15/day15.rb:79-85 | the search back from the chosen cell is breadth-first; a position is returned exactly when that search met an open neighbour of the unit, and it is the nearest of those, first in reading order, an open neighbour |
| `CaveCombat.Combat.Move` | day15/day15.rb:67-77 | `reachable` holds exactly when the breadth-first search from the unit met an attack position; the unit then heads for the nearest one first in reading order and ends on the neighbour the search back from it ranks first; otherwise it stays, and the region it can reach holds no attack position; no other unit moves and no hit points change |
| `CaveCombat.Combat.Tick` | day15/day15.rb:48-65 | the combat is done exactly when a living unit has no enemies, and then one side remains; a dead unit does nothing; only the acting unit moves, by at most one open step and not when an enemy is in range; its own side is not harmed and no unit revives |
| `CaveCombat.Combat.MoveAndAttack` | day15/day15.rb:59-63 | the unit moves as `move` does towards the attack positions of its targets; when none is reachable nothing else changes, otherwise the attack harms only targets; only the acting unit moves and no one revives |
| `CaveCombat.Combat.Round` | day15/day15.rb:137-140 | when the round ends the combat, one side remains; no unit revives |
| `CaveCombat.Combat.Run` | day15/day15.rb:132-143 | when the combat ends, fewer rounds than the fuel were completed and one side remains; otherwise the fuel ran out; no unit revives, and an elf alive at the end was alive at the start |
| `CaveCombat.Combat.AllElvesAlive` | day15/day15.rb:204-206 | `all_elves_alive?`; `CaveCombat.Combat.Run` states that an elf alive at the end of the combat was alive at its start |
| OpcodeResolver.MatchesIff | day16/day16.rb:11-15 | a sample behaves like an operation iff C names a register, the after bank holds the operation's value in C and every other register is unchanged from before |
| OpcodeResolver.BehaveLike | day16/day16.rb:11-15 | running the operation on a copy of the before bank and comparing with the after bank answers true exactly when the sample matches the operation |
| OpcodeResolver.Matching | day16/day16.rb:79 | the selected operations are exactly the given ones that the sample matches, and no more of them |
| OpcodeResolver.MatchingOps | day16/day16.rb:79 | the selection loop yields the matching operations in list order |
| OpcodeResolver.ThreeOrMoreCountsQualifyingSamples | day16/day16.rb:74 | the part-one count equals the number of sample indices matched by at least three operations |
| OpcodeResolver.QualifyingSnoc | day16/day16.rb:74 | one more sample adds its index to the qualifying ones exactly when at least three operations match it |
| OpcodeResolver.CountThreeOrMore | day16/day16.rb:74 | the counting loop returns the part-one count |
| OpcodeResolver.CountMatching | day16/day16.rb:74 | the inner count is the number of operations the sample matches |
| OpcodeResolver.InitialResolver | day16/day16.rb:77 | the search starts with all samples, all sixteen candidates and an empty table of sixteen numbers |
| OpcodeResolver.Singletons | day16/day16.rb:80 | the singletons of a round come only from well-formed samples |
| OpcodeResolver.SingletonsSound | day16/day16.rb:79-80 | every singleton pairs a sample of the list with the one candidate that sample matches |
| OpcodeResolver.AssignOne | day16/day16.rb:82-87 | handling one singleton keeps the resolver well formed (the sample is deleted; an unassigned number receives the operation, which leaves the candidates) |
| OpcodeResolver.AssignAll | day16/day16.rb:81-88 | handling a round's singletons in order keeps the resolver well formed |
| OpcodeResolver.ResolvePass | day16/day16.rb:79-88 | one round of the until loop keeps the resolver well formed |
| OpcodeResolver.ResolveRounds | day16/day16.rb:78-89 | any number of rounds keeps the resolver well formed |
| OpcodeResolver.RoundsNext | day16/day16.rb:78-89 | round m+1 stops when no candidate is left and otherwise runs one more pass on round m |
| OpcodeResolver.FindSingletons | day16/day16.rb:79-80 | the mapping loop returns exactly the round's singletons |
| OpcodeResolver.AssignSingletons | day16/day16.rb:81-88 | the loop over the singletons leaves the samples, candidates and table array that the value model gives |
| OpcodeResolver.ResolveOnePass | day16/day16.rb:79-88 | one turn of the imperative loop advances the state from round k to round k+1 |
| OpcodeResolver.Resolve | day16/day16.rb:77-89 | the table is that of the rounds run; resolved holds exactly when no candidate is left, and otherwise the fuel ran out |
| OpcodeResolver.AssignAllNeverOverwrites | day16/day16.rb:84 | an opcode number already assigned keeps its operation through a round's singletons |
| OpcodeResolver.PassNeverOverwrites | day16/day16.rb:84 | one pass keeps every assigned number's operation |
| OpcodeResolver.RoundNeverOverwrites | day16/day16.rb:84 | round m+1 keeps every number assigned by round m |
| OpcodeResolver.ResolveNeverOverwrites | day16/day16.rb:78-89 | once assigned at round k, a number keeps the same operation at every later round |
| OpcodeResolver.PassWithoutSingletonSpins | day16/day16.rb:78-89 | a round with no singleton changes nothing, so the until loop would repeat forever |
| OpcodeResolver.AssignAllKeepsBookkeeping | day16/day16.rb:86-87 | after a round's singletons no assigned operation is still a candidate and every operation is a candidate or assigned |
| OpcodeResolver.ResolveKeepsBookkeeping | day16/day16.rb:77-89 | the same bookkeeping holds after any number of rounds from the start |
| OpcodeResolver.ResolvedTableNamesEveryOp | day16/day16.rb:78 | when the candidates run out, every operation is assigned to some number |
| OpcodeResolver.AssignAllFromSingletons | day16/day16.rb:80-86 | a number newly assigned by a round was taken from a singleton whose sample carries that number |
| OpcodeResolver.PassAssignsOnlyFromSingletons | day16/day16.rb:79-86 | a number newly assigned in a pass has a sample with that number that matched only the assigned operation among the round's candidates |
| OpcodeResolver.AssignAllDeletesProcessed | day16/day16.rb:82 | a round only deletes samples, and every singleton's sample is gone afterwards |
| OpcodeResolver.PassDeletesSingletons | day16/day16.rb:82 | the same for one pass: no new samples, and the round's singleton samples are removed |
| OpcodeResolver.AssignOneAgrees | day16/day16.rb:82-87 | if the samples were produced by a true one-to-one table, handling one singleton keeps every assignment true and every unassigned number's true operation among the candidates |
| OpcodeResolver.AssignAllAgrees | day16/day16.rb:81-88 | the same for a whole round of singletons |
| OpcodeResolver.ResolveAgrees | day16/day16.rb:78-89 | with samples consistent with a true table, every round's table agrees with it and the remaining samples stay consistent |
| OpcodeResolver.ResolverFindsTheTable | day16/day16.rb:77-89 | when the candidates run out on consistent samples, the resolved table is exactly the true table |
| OpcodeResolver.ExecNumbered | day16/day16.rb:95-96 | a successful step keeps four registers (an unresolved number or bad register operand is a failure) |
| OpcodeResolver.RunFrom | day16/day16.rb:94-97 | a successful run keeps four registers |
| OpcodeResolver.RunFromAppend | day16/day16.rb:94-97 | running p then q equals running p + q; a failure in p stops the run |
| OpcodeResolver.RunProgram | day16/day16.rb:93-97 | running the program from four zero registers gives the bank RunFrom specifies, or its failure |
| Reservoir.Flip | day17/day17.rb:132-134 | the alternation toggles a side: the result is a side (never down) and differs from the input |
| Reservoir.FlipTwice | day17/day17.rb:132-134 | toggling a side twice gives the side back, so a fork alternates left, right, left |
| Reservoir.Mark | day17/day17.rb:158-160 | writing a cell changes that cell of that column and no other column |
| Reservoir.BlockedInside | day17/day17.rb:136-152 | a drop whose downward cell is closed is strictly inside the side margins and above the last row, so the sideways lookups stay inside the grid |
| Reservoir.Step | day17/day17.rb:84-128 | one loop turn keeps the invariant and makes progress, writes only flowing water, falls when the cell below is open (clearing seen_wall) and settles only when it is closed |
| Reservoir.Spread | day17/day17.rb:91-105 | the fork/left/right/settle branches for a drop moving down make a bounded move to an open cell, or settle in place |
| Reservoir.KeepLeft | day17/day17.rb:106-116 | the branches for a drop moving left make a bounded move to an open cell, or settle in place |
| Reservoir.KeepRight | day17/day17.rb:117-127 | the branches for a drop moving right make a bounded move to an open cell, or settle in place |
| Reservoir.Fall | day17/day17.rb:83-130 | run_drop always ends, with the drop settled or below the lowest row, keeping the invariant and writing only flowing water |
| Reservoir.SettleFits | day17/day17.rb:71-72 | marking a settled drop's cell as water at rest keeps the grid invariant and changes the cell only into water |
| Reservoir.Pour | day17/day17.rb:63-81 | when the drop loop finishes within the fuel, the grid still fits the area and every cell changed only into water |
| Reservoir.CountRow | day17/day17.rb:175-177 | the count along one row is at most the number of columns counted |
| Reservoir.CountRowMonotone | day17/day17.rb:171-191 | counting a larger set of cell kinds along a row never gives less |
| Reservoir.CountRowsMonotone | day17/day17.rb:171-191 | counting a larger set of cell kinds over all rows never gives less |
| Reservoir.AtRestAtMostWater | day17/day17.rb:171-191 | the water-at-rest count never exceeds the total water count |
| Reservoir.Least | day17/day17.rb:43-45 | `min` of a nonempty list is an element and at most every element |
| Reservoir.Most | day17/day17.rb:44-46 | `max` of a nonempty list is an element and at least every element |
| Reservoir.ScanBounds | day17/day17.rb:43-46 | the scanned area has every vein strictly between its side margins and between its first and last rows |
| Reservoir.Field | day17/day17.rb:43-46 | projecting a field of every vein keeps the list's length and order |
| Reservoir.Blank | day17/day17.rb:49-50 | the fresh grid has x_max+1 columns of y_max+1 cells |
| Reservoir.StartCells | day17/day17.rb:49-51 | the blank grid with the spring at (500, 0) is the initial picture with no vein painted yet |
| Reservoir.NoClayOutside | day17/day17.rb:43-44 | no clay lies in or beyond the margin columns |
| Reservoir.InitialFits | day17/day17.rb:42-61 | the grid built by initialize satisfies the grid invariant for its area |
| Reservoir.MarginsFree | day17/day17.rb:43-59 | the margin columns are free below the spring row |
| Reservoir.ClayAppend | day17/day17.rb:53-59 | painting one more vein adds exactly its cells to the clay |
| Reservoir.SameGrid | day17/day17.rb:49-59 | two grids of the same shape with the same cells are equal |
| Reservoir.Position.constructor | day17/day17.rb:9 | a new position holds the given coordinates |
| Reservoir.Position.Down | day17/day17.rb:10-12 | down! adds one to y and keeps x |
| Reservoir.Position.Left | day17/day17.rb:14-16 | left! subtracts one from x and keeps y |
| Reservoir.Position.Right | day17/day17.rb:18-20 | right! adds one to x and keeps y |
| Reservoir.Drop.constructor | day17/day17.rb:23 | a new drop holds the given position, direction and flags |
| Reservoir.Drop.Down | day17/day17.rb:24-27 | the drop moves one row down and heads down |
| Reservoir.Drop.Left | day17/day17.rb:29-32 | the drop moves one column left and heads left |
| Reservoir.Drop.Right | day17/day17.rb:34-37 | the drop moves one column right and heads right |
| Reservoir.Scan.constructor | day17/day17.rb:42-61 | the scan holds the bounds of the veins, the spring, every vein as clay and all alternation sides set to left |
| Reservoir.Scan.PaintVeins | day17/day17.rb:53-59 | painting every vein gives the initial picture and leaves the alternation grid alone |
| Reservoir.Scan.Put | day17/day17.rb:158-160 | at! writes exactly one cell |
| Reservoir.Scan.LeftOrRight | day17/day17.rb:132-134 | left_or_right? returns the flipped side of the cell and stores it there, touching no other state |
| Reservoir.Scan.RunDrop | day17/day17.rb:83-130 | run_drop leaves grid and drop exactly as the value function Fall |
| Reservoir.Scan.StepDrop | day17/day17.rb:85-128 | one turn of the loop does what Step specifies |
| Reservoir.Scan.FallDrop | day17/day17.rb:87-90 | the falling branch does what Step specifies |
| Reservoir.Scan.SpreadDrop | day17/day17.rb:91-105 | the branch for a drop moving down does what Spread specifies |
| Reservoir.Scan.ForkDrop | day17/day17.rb:92-94 | the fork branch does what Spread specifies |
| Reservoir.Scan.KeepLeftDrop | day17/day17.rb:106-116 | the branch for a drop moving left does what KeepLeft specifies |
| Reservoir.Scan.KeepRightDrop | day17/day17.rb:117-127 | the branch for a drop moving right does what KeepRight specifies |
| Reservoir.Scan.Run | day17/day17.rb:63-81 | run reports that it finished exactly when Pour finishes within the fuel, and then leaves the grids Pour gives |
| Reservoir.Scan.Finished | day17/day17.rb:66 | the until test: after ten lost drops the outcome is the current grid |
| Reservoir.Scan.PourDrop | day17/day17.rb:67-78 | one drop (settled: mark at rest and reset the counter; lost: count it) advances Pour by one drop |
| Reservoir.Scan.CountKinds | day17/day17.rb:171-191 | the row-by-row counting loop returns the count of cells of the given kinds in the area |
| Reservoir.Scan.CountInRow | day17/day17.rb:175-177 | the inner loop returns the count of one row |
| Reservoir.Scan.CountWater | day17/day17.rb:171-180 | count_water counts the settled and flowing water cells from y_min to y_max and x_min to x_max |
| Reservoir.Scan.CountWaterAtRest | day17/day17.rb:182-191 | count_water_at_rest counts the `~` cells over the same area |
| Reservoir.Scan.PaintVein | day17/day17.rb:53-58 | painting a vein turns exactly its cells into clay |
| Reservoir.Scan.PaintColumn | day17/day17.rb:54-57 | painting one column of a vein turns exactly that column's range into clay |
| LumberArea.CountRowBound | day18/day18.rb:48-51 | one row of the neighbourhood scan counts at most its width, less one when it passes over the centre acre |
| LumberArea.CountRowsBound | day18/day18.rb:47-53 | the clamped neighbourhood scan counts at most its area, less one for the skipped centre acre |
| LumberArea.AdjacentAtMostEight | day18/day18.rb:45-56 | count_adjacent, clamped at the edges and skipping the acre itself, is at most 8 |
| LumberArea.AdjacentCount | day18/day18.rb:45-56 | what `count_adjacent` counts; `LumberArea.AdjacentAtMostEight` bounds it by eight and `LumberArea.Forest.CountAdjacent` computes it |
| LumberArea.CountRowSplit | day18/day18.rb:26-30 | along a row of known acres the open, tree and lumberyard counts add up to the row length |
| LumberArea.CountRowsSplit | day18/day18.rb:26-30 | over the first rows of known acres the three counts add up to the number of acres |
| LumberArea.TotalsCoverArea | day18/day18.rb:22-30 | on a grid of known acres the counts of open, wooded and lumberyard acres add up to the area, bounding both factors of resource_value |
| LumberArea.NextAcreSteps | day18/day18.rb:32-43 | evolve raises exactly on a character other than open, trees and lumberyard marks, and otherwise keeps the acre or moves it one step along open → trees → lumberyard → open |
| LumberArea.Next | day18/day18.rb:12-20 | the next minute has the same width and height |
| LumberArea.Grid | day18/day18.rb:66-68 | the rows read off the 2-D array form a rectangle of its dimensions |
| LumberArea.GridAt | day18/day18.rb:66-68 | `at(x, y)` is row y, column x of the grid |
| LumberArea.GridIsNext | day18/day18.rb:13-18 | an array whose every acre holds evolve of the old grid is the next minute |
| LumberArea.Forest.constructor | day18/day18.rb:6-10 | the forest keeps the scan, its width and height, and has no second buffer yet |
| LumberArea.Forest.CountAdjacent | day18/day18.rb:45-56 | the clamped double loop returns the number of neighbours of the given type |
| LumberArea.Forest.Evolve | day18/day18.rb:32-43 | evolve returns the next state of the acre from the old grid, or the WAT failure |
| LumberArea.Forest.FillRow | day18/day18.rb:15-17 | a row of the new buffer is filled from the old grid only; other rows are untouched; it fails exactly on an unknown acre in that row |
| LumberArea.Forest.Fill | day18/day18.rb:14-18 | every acre of the new buffer is evolve of the old grid (simultaneous update); it fails exactly when some acre is unknown |
| LumberArea.Forest.Tick | day18/day18.rb:12-20 | tick swaps in the next minute computed from the old grid and keeps the old buffer for reuse; on an unknown acre the grid is unchanged |
| LumberArea.Forest.Count | day18/day18.rb:26-30 | the counting loop returns the number of acres of the given type |
| LumberArea.Forest.ResourceValue | day18/day18.rb:22-24 | the resource value is the lumberyard count times the tree count |
| Machine.Step | day19/day19.rb:74-79 | executing the instruction the pc register points at, then incrementing the pc register, keeps the number of registers |
| Machine.Next | day19/day19.rb:83-85 | one turn of the until loop (a step while the pc is inside the program, standing still once it has left) keeps the number of registers |
| Machine.Repeat | day19/day19.rb:83-85 | repeating a length-preserving transition keeps the number of registers |
| Machine.RepeatAdd | day19/day19.rb:83-85 | n repetitions followed by m repetitions are n + m repetitions |
| Machine.RepeatFirst | day19/day19.rb:83-85 | n + 1 repetitions are one transition followed by n repetitions |
| Machine.Iterate | day19/day19.rb:83-85 | the bank after n turns of the loop keeps the number of registers |
| Machine.Registers.constructor | day19/day19.rb:8-11 | the register file holds the given values in a fresh array and remembers which register is the pc |
| Machine.Registers.Set | day19/day19.rb:17-19 | `regs[reg] = value` writes exactly that register: reading it back gives the value and every other register reads as before |
| Machine.Registers.Get | day19/day19.rb:13-15 | `regs[reg]`; `Machine.Registers.Set` states that it reads back what was written |
| Machine.Registers.IncrementPc | day19/day19.rb:21-23 | increment_pc adds one to the pc register and changes nothing else |
| Machine.Registers.SetPc | day21/day21.rb:29-31 | `pc = value` writes exactly the pc register |
| Machine.ExecuteInstruction | day19/day19.rb:74-79 | execute_instruction leaves the register array exactly as Step describes |
| Machine.RunningOneMore | day19/day19.rb:83 | if the pc was inside the program at every one of the first n states and is inside at state n, it is inside at the first n + 1 states |
| Machine.Advance | day19/day19.rb:84 | one loop turn takes the array from state n to state n + 1 |
| Machine.RunUntilHalt | day19/day19.rb:83-85 | the loop leaves the bank after the steps it took; it stops with halted exactly when the pc has left the program; otherwise the fuel ran out; the pc was inside the program before every step taken |
| Machine.Run | day19/day19.rb:82-85 | a run from `[r0, 0, 0, 0, 0, 0]` ends in the bank Iterate gives, halted exactly when the pc register is past the last instruction |
| Machine.StepFrame | day19/day19.rb:74-79 | a step changes no register other than the instruction's C and the pc |
| Machine.StepNextPc | day19/day19.rb:74-79 | the next pc is the written value plus one when C is the pc register, and the old pc plus one otherwise |
| Machine.SetiJumpsPastTarget | day19/day19.rb:50 | `seti a _ pc` continues at instruction a + 1, because the increment follows the write |
| Machine.IterateAdd | day19/day19.rb:83-85 | m turns after n turns are n + m turns |
| Machine.IterateNext | day19/day19.rb:83-85 | turn n + 1 is one more turn after turn n |
| Machine.IterateFirstStep | day19/day19.rb:83-85 | from a running state, n + 1 turns are one step followed by n turns |
| Machine.HaltedStaysHalted | day19/day19.rb:83 | once the pc is past the program, later turns change nothing |
| Machine.SingleSetiHaltsAfterOneStep | day19/day19.rb:83-85 | the program `seti 5 0 0` with the pc in register 1 halts after one step with bank [5, 1, 0, 0, 0, 0] |
| Machine.SelfJumpHaltsAfterOneStep | day19/day19.rb:83-85 | `addi 0 1 0` with the pc in register 0 jumps past the one-instruction program and halts |
| ProfiledMachine.ShortcutResult | day21/day21.rb:129-140 | the shortcut keeps the six registers |
| ProfiledMachine.DivBy256 | day21/day21.rb:133 | when `k * 256 <= x < (k + 1) * 256`, `x / 256` is k |
| ProfiledMachine.ShortcutCounterIsLeastExit | day21/day21.rb:131-139 | the closed-form counter passes the exit test `(r4 + 1) << 8 > r5` and every smaller counter from r4 on fails it, so it is where the loop breaks |
| ProfiledMachine.Shortcut | day21/day21.rb:129-140 | the Ruby hot loop leaves the registers of the closed form: the counter at the least exit value, r3 its shifted value, the pc at 26 |
| ProfiledMachine.StepProfiled | day21/day21.rb:127-148 | one profiled step keeps the six registers |
| ProfiledMachine.ExecuteProfiled | day21/day21.rb:127-148 | at pc 18 the shortcut runs and the profile is untouched; elsewhere the pc's profile entry goes up by one and the instruction runs as in day 19 |
| ProfiledMachine.IterateProfiled | day21/day21.rb:156-171 | n profiled turns keep the six registers |
| ProfiledMachine.ScanStopsAtRepeat | day21/day21.rb:161-168 | scanning distinct new values then one already seen returns the last new value (or the earlier result when none was new) |
| ProfiledMachine.DistinctAppend | day21/day21.rb:167 | adding an unseen value keeps the recorded values distinct |
| ProfiledMachine.LastBeforeFirstRepeat | day21/day21.rb:161-168 | for distinct values followed by a repeat, the answer is the last value before the repeat |
| ProfiledMachine.LastNewBeforeRepeat | day21/day21.rb:153-167 | the answer of the halting scan; `ProfiledMachine.LastBeforeFirstRepeat` states that it is the last new value before the first repeat |
| ProfiledMachine.ScanForRepeat | day21/day21.rb:161-168 | the scan with its seen set; `ProfiledMachine.ScanStopsAtRepeat` states where it stops |
| ProfiledMachine.FiveNineFiveGivesNine | day21/day21.rb:161-168 | the values 5, 9, 5 give 9 |
| ProfiledMachine.AdvanceOne | day21/day21.rb:156-171 | one turn from state n advances the bank by one profiled step, records register 2 exactly when the pc is 28, and adds one at the pc in the profile unless the pc is 18 |
| ProfiledMachine.ProfileAfter | day21/day21.rb:151 | the profile has one counter per instruction |
| ProfiledMachine.ProfileCountsVisits | day21/day21.rb:142 | every profile entry is the number of times its instruction ran the ordinary way |
| ProfiledMachine.ProfiledStep | day21/day21.rb:169-170 | one turn advances the bank and the profile from state n to state n + 1 |
| ProfiledMachine.Probe | day21/day21.rb:161-168 | at pc 28 a value of register 2 already seen stops the run with last the latest new value; a new value is recorded and becomes the latest; elsewhere nothing changes |
| ProfiledMachine.ProbeAndStep | day21/day21.rb:156-171 | one loop turn either stops on a repeated value or advances bank, profile and recorded values by one step |
| ProfiledMachine.ProbeLoop | day21/day21.rb:156-171 | the loop leaves the bank, the profile and the distinct recorded values after its steps; a repeat stops it with the last new value; otherwise it stops when the pc leaves the program or the fuel runs out |
| ProfiledMachine.RunWithProbe | day21/day21.rb:150-175 | run returns the count of steps and the last halting number before the first repetition; the reason for stopping is one of pc out of range, repeated value or exhausted fuel |
| ProfiledMachine.HotLoopExits | day21/day21.rb:132-135 | with the comments' instructions 18-25, a round whose test passes reaches pc 26 in five steps with r3 = 1 |
| ProfiledMachine.HotLoopRepeats | day21/day21.rb:132-139 | a round whose test fails increments r4 and returns to pc 18 in seven steps |
| ProfiledMachine.ExitMatchesShortcut | day21/day21.rb:134-140 | when the first test passes the closed form keeps r4 and agrees with the instructions apart from r3 |
| ProfiledMachine.RoundKeepsTarget | day21/day21.rb:137 | one failed round leaves the closed form's result unchanged |
| ProfiledMachine.RoundThenRest | day21/day21.rb:131-139 | a failed round followed by the rest of the loop gives the closed form's result |
| ProfiledMachine.ShortcutAgreesWithHotLoop | day21/day21.rb:128-140 | running instructions 18-25 one by one from pc 18 reaches the shortcut's registers after `7 * (k - r4) + 5` steps, except that r3 holds 1 where the shortcut leaves `(k + 1) * 256` |
| ProfiledMachine.AnnotateAsWrittenMislabelsAddi | day21/day21.rb:91-93 | on `addi 2 1 1` at line 0 (pc in register 1) with r2 = 5, the listing says jump to 3 but the machine goes to 7 |
| ProfiledMachine.AnnotatedTargetsAreNextPc | day21/day21.rb:90-107 | with addi a relative jump only when operand A is the pc, and setr into the pc a jump to just after r[A], every jump target the listing names is the next pc. An addr that reads the pc jumps r[reg] + 1 past the line. Instructions that do not write the pc continue at the next line |
| ProfiledMachine.Annotate | day21/day21.rb:90-107 | the corrected jump classification (addi a relative jump only when A is the pc, setr a jump to just after r[A]); `ProfiledMachine.AnnotatedTargetsAreNextPc` states that every printed target is where the machine goes next |
| ProfiledMachine.AnnotateAsWrittenMislabelsSetr | day21/day21.rb:99-101 | `setr 2 4 1` and `setr 2 0 1` at line 0 (pc in register 1) with r2 = 5 are labelled absolute jumps of 4 and 0 steps, yet both go to 6, because `setr` never reads B |
| ProfiledMachine.AnnotateAsWritten | day21/day21.rb:90-107 | the classification as written; `ProfiledMachine.AnnotateAsWrittenMislabelsAddi` and `ProfiledMachine.AnnotateAsWrittenMislabelsSetr` give inputs where its labels are wrong |
| ProfiledMachine.Gloss | day21/day21.rb:108-120 | the label of an instruction that does not write the pc; `ProfiledMachine.AnnotatedTargetsAreNextPc` states that the pc then advances by one |
| ModeMaze.TypeInRange | day22/day22.rb:26-32 | the erosion level lies in 0..20182 and the type is rocky, wet or narrow |
| ModeMaze.TwoToolsEach | day22/day22.rb:54-63 | every region type allows exactly two of the three tools, and two different types share exactly one |
| ModeMaze.RowRiskBound | day22/day22.rb:34-36 | the risk along a row of n regions lies between 0 and 2n |
| ModeMaze.AreaRiskBound | day22/day22.rb:129-137 | the total risk up to the target lies between 0 and twice the number of regions counted |
| ModeMaze.Risk | day22/day22.rb:34-36 | the risk of a region is between 0 and 2 |
| ModeMaze.Erosion | day22/day22.rb:26-28 | `erosion_level`; `ModeMaze.TypeInRange` states that it lies in `[0, 20183)` |
| ModeMaze.TypeOf | day22/day22.rb:30-32 | `type`; `ModeMaze.TypeInRange` states that it is rocky, wet or narrow |
| ModeMaze.CanUse | day22/day22.rb:54-63 | `can_use?`; `ModeMaze.TwoToolsEach` states that each type allows exactly two tools and two types share exactly one |
| ModeMaze.GeologicIndex | day22/day22.rb:119-127 | `geologic_index`; `ModeMaze.MapCave` states that the mapped cave holds exactly these values |
| ModeMaze.MinKey | day22/day22.rb:207 | the lowest priority is a key and no key is lower |
| ModeMaze.PushThenPop | day22/day22.rb:200-212 | enqueueing at a priority no lower than the minimum keeps the minimum and its first element, and commutes with dequeueing it (first in, first out within a priority) |
| ModeMaze.PriorityQueue.constructor | day22/day22.rb:196-198 | a new queue has no buckets |
| ModeMaze.PriorityQueue.Enqueue | day22/day22.rb:200-204 | the element joins the back of its priority's bucket, creating the bucket if needed; no bucket is empty |
| ModeMaze.PriorityQueue.LowestPriority | day22/day22.rb:207 | the loop over the keys returns the least priority |
| ModeMaze.PriorityQueue.Dequeue | day22/day22.rb:206-212 | on a nonempty queue returns the first element of the lowest bucket and removes it, deleting an emptied bucket; on an empty queue it fails (Ruby raises) and changes nothing |
| ModeMaze.ImprovedByAdd | day22/day22.rb:163-168 | recording a strictly better time for a region reached by one step only lowers the recorded times |
| ModeMaze.ImprovedTrans | day22/day22.rb:170-184 | two such updates from the same state compose into one |
| ModeMaze.MapColumn | day22/day22.rb:112-115 | one column of map_cave holds, top to bottom, the geologic index of every region (0 at mouth and target, x·16807 on y = 0, y·48271 on x = 0, the product of the left and upper erosion levels elsewhere) and other columns are unchanged |
| ModeMaze.MapCave | day22/day22.rb:107-127 | after map_cave every region holds its geologic index |
| ModeMaze.Cave.constructor | day22/day22.rb:98-105 | the cave extends 100 regions beyond the target in both directions, every region is mapped, and no time is recorded or queued |
| ModeMaze.Cave.TotalRisk | day22/day22.rb:129-137 | total_risk sums the risk of every region from the mouth to the target, counting 0 for the mouth and the target |
| ModeMaze.Cave.AddToQueue | day22/day22.rb:163-188 | a state is queued exactly when its region is inside the cave, allows the tool and has no recorded time as good; then the time is recorded and the state joins the back of its time's bucket; otherwise nothing changes; the new times and buckets are `Offer` of the old ones, and every queued state stays valid |
| ModeMaze.Cave.AddMovements | day22/day22.rb:170-176 | the recorded times and buckets are `add_to_queue` applied to the neighbours down, right, up and left in that order (`OfferAll` over `MoveTargets`); only better times reached by a one-minute move are recorded, and every queued state stays valid and no earlier than the current one |
| ModeMaze.Cave.AddToolSwitches | day22/day22.rb:178-184 | the recorded times and buckets are `add_to_queue` applied to each other tool in the order of `TOOLS` (`OfferAll` over `SwitchTargets`); only better times reached by a seven-minute switch are recorded, with the same queue invariants |
| ModeMaze.Cave.AddStep | day22/day22.rb:163-167 | one `add_to_queue` along a step from the state does what `Offer` does and records only a better time reached by that step |
| ModeMaze.Cave.AddSwitch | day22/day22.rb:179-183 | one turn of the `TOOLS.each` loop skips the current tool and otherwise offers the switch to the next tool |
| ModeMaze.Cave.OfferNext | day22/day22.rb:170-176 | offering one more target is `Offer` applied to the result so far |
| ModeMaze.Cave.OfferNextTool | day22/day22.rb:178-184 | one more tool adds an `Offer` for it exactly when it is not the current tool |
| ModeMaze.Cave.OfferAllExact | day22/day22.rb:163-184 | offering distinct targets in turn records the time for exactly those targets whose `add_to_queue` condition held beforehand, and keeps every other recorded time |
| ModeMaze.MoveTargets | day22/day22.rb:170-176 | four distinct targets, each one minute away by a move with the same tool |
| ModeMaze.SwitchTargets | day22/day22.rb:178-184 | distinct targets in the same region, each with a tool other than the current one, seven minutes away, and every other tool among them |
| ModeMaze.Cave.FastestTime | day22/day22.rb:38-40 | `fastest_time?`; `ModeMaze.Cave.AddToQueue` states that a time is recorded only when it beats the recorded one |
| ModeMaze.Cave.Search | day22/day22.rb:149-161 | a state returned by the search is at the target, holds the torch, has a non-negative time and a usable tool; an empty queue is a failure |
| Nanobots.Distance | day23/day23.rb:4-6 | the Manhattan distance is zero exactly between equal positions |
| Nanobots.DistanceMetric | day23/day23.rb:4-6 | the distance is symmetric and satisfies the triangle inequality |
| Nanobots.BotBoxCovers | day23/day23.rb:10-25 | every position in a bot's range lies in its bounding box, and a bot of radius r has a box of volume 8r³ |
| Nanobots.Volume | day23/day23.rb:10-12 | `BoundingBox#volume`; `Nanobots.BotBoxCovers` gives the volume of a bot's box as `(2r)^3` |
| Nanobots.InRange | day23/day23.rb:16-18 | `in_range_of?`; `Nanobots.BotBoxCovers` states that a position in range lies in the bot's box |
| Nanobots.BotBox | day23/day23.rb:20-25 | `Bot#bounding_box`; `Nanobots.BotBoxCovers` states that it covers the bot's range |
| Nanobots.InsideTrans | day23/day23.rb:57-73 | box containment is transitive |
| Nanobots.HullContains | day23/day23.rb:57-73 | the hull of the bots is absent exactly when there are no bots, and contains every bot's bounding box |
| Nanobots.HullIsTight | day23/day23.rb:57-73 | every face of the hull is a face of some bot's box |
| Nanobots.BoundingBox | day23/day23.rb:57-73 | the loop gives no box exactly for no bots; otherwise a box containing every bot's box whose every face comes from some bot |
| Nanobots.CountInRange | day23/day23.rb:84 | the number of bots in range of a position is at most the number of bots |
| Nanobots.ScanCovers | day23/day23.rb:79-83 | the x, y, z scan visits exactly the positions of the box up to the current x |
| Nanobots.PlaneCovers | day23/day23.rb:81-83 | the y, z scan at one x visits exactly the positions of that rectangle |
| Nanobots.LineCovers | day23/day23.rb:82-83 | the z scan visits exactly the positions of that segment |
| Nanobots.FoldAppend | day23/day23.rb:79-94 | folding the update over two runs of positions is folding over the first and then the second |
| Nanobots.FoldSnoc | day23/day23.rb:83-91 | folding over one more position applies the update once more |
| Nanobots.MaxCount | day23/day23.rb:84-91 | the maximum count bounds every position's count and is reached by some position when there is one |
| Nanobots.AttainingNone | day23/day23.rb:89-91 | no position reaches a count above every position's count |
| Nanobots.FoldFindsOptimum | day23/day23.rb:76-95 | starting from count 1 and no positions, the fold ends with the larger of 1 and the maximum count, and exactly the positions that reach it in scan order |
| Nanobots.FoldLineIsFold | day23/day23.rb:82-92 | the recursive z scan is the fold over the segment |
| Nanobots.FoldPlaneIsFold | day23/day23.rb:81-93 | the recursive y scan is the fold over the rectangle |
| Nanobots.FoldScanIsFold | day23/day23.rb:79-94 | the recursive x scan is the fold over the box |
| Nanobots.ScanLine | day23/day23.rb:82-92 | the innermost loop computes the z-scan fold |
| Nanobots.ScanPlane | day23/day23.rb:81-93 | the middle loop computes the y-scan fold |
| Nanobots.FindOptimalPositions | day23/day23.rb:75-96 | find_optimal_positions returns the larger of 1 and the greatest number of bots in range of a box position, and every position reaching it, in scan order |
| Nanobots.OptimumIsOptimal | day23/day23.rb:75-96 | no position of the box has more bots in range than the reported count, and a box position is reported exactly when it reaches that count |
| Nanobots.AttainingMembers | day23/day23.rb:86-91 | a position is kept exactly when it is scanned and reaches the given count |
| ImmuneSimulator.DamageCases | day24/day24.rb:86-94 | the damage is zero exactly when the target is immune or the attacker has no effective power; immunity wins over weakness; a weakness doubles the effective power |
| ImmuneSimulator.Power | day24/day24.rb:9-11 | `effective_power`; `ImmuneSimulator.PowerKeysAt` states that it is the first sort key, and `ImmuneSimulator.DamageCases` that damage scales with it |
| ImmuneSimulator.Damage | day24/day24.rb:86-94 | `damage`; `ImmuneSimulator.DamageCases` states its three cases |
| ImmuneSimulator.HitKillsWholeUnits | day24/day24.rb:13-17 | take_damage loses the largest number of whole units the damage covers, at most all of them, and changes nothing else |
| ImmuneSimulator.Hit | day24/day24.rb:13-17 | `take_damage`; `ImmuneSimulator.HitKillsWholeUnits` states that only whole units die |
| ImmuneSimulator.Insert | day24/day24.rb:56 | inserting an index into a descending order yields a list one longer whose head is the new index or the old head |
| ImmuneSimulator.InsertCounts | day24/day24.rb:56 | insertion adds the index once and keeps every other index |
| ImmuneSimulator.InsertSorted | day24/day24.rb:56 | insertion keeps the order sorted by descending key |
| ImmuneSimulator.SortDesc | day24/day24.rb:56 | `sort_by` with a negated key returns as many indices as groups, all in range |
| ImmuneSimulator.SortDescSorted | day24/day24.rb:56 | the result is sorted by descending key |
| ImmuneSimulator.SortDescPermutes | day24/day24.rb:56 | the result lists each index exactly once |
| ImmuneSimulator.PowerKeys | day24/day24.rb:56 | there is one key per group |
| ImmuneSimulator.PowerKeysAt | day24/day24.rb:56 | each group's key is its effective power and initiative |
| ImmuneSimulator.ChoosingOrder | day24/day24.rb:56 | the choosing order consists of group indices |
| ImmuneSimulator.ChoosingOrderSpec | day24/day24.rb:56 | attackers choose by decreasing effective power, then decreasing initiative, each group exactly once |
| ImmuneSimulator.Best | day24/day24.rb:59-68 | a chosen target is an available group of the other army that the attacker can damage |
| ImmuneSimulator.BestIsBest | day24/day24.rb:59-69 | no target is chosen only when no available group is eligible; otherwise no eligible group is preferred (more damage, then power, then initiative) to the chosen one |
| ImmuneSimulator.PreferredAsymmetric | day24/day24.rb:67 | the preference order of targets is asymmetric |
| ImmuneSimulator.NotPreferredTransitive | day24/day24.rb:67 | being at least as good a target is transitive |
| ImmuneSimulator.SelectSound | day24/day24.rb:55-74 | every selected pair is an attacker with an eligible target of the other army, no target is picked twice, and a picked target is no longer available |
| ImmuneSimulator.Select | day24/day24.rb:55-74 | `select_targets`; `ImmuneSimulator.SelectSound` states that every pair is eligible and each defender is picked at most once |
| ImmuneSimulator.SelectStep | day24/day24.rb:69-72 | one choice followed by deleting the target from the available ones keeps the selection sound |
| ImmuneSimulator.SelectNone | day24/day24.rb:65-69 | with no eligible pair at all nothing is selected |
| ImmuneSimulator.InitiativeKeys | day24/day24.rb:77 | there is one attack-order key per selected pair |
| ImmuneSimulator.InitiativeKeysAt | day24/day24.rb:77 | each pair's key is its attacker's initiative |
| ImmuneSimulator.Strikes | day24/day24.rb:78-83 | attacks keep every group's hit points positive and the number of groups |
| ImmuneSimulator.StrikesWeaken | day24/day24.rb:78-83 | attacks change only unit counts, and only downwards |
| ImmuneSimulator.AttackOrder | day24/day24.rb:77 | the attack order consists of selected-pair indices |
| ImmuneSimulator.AttackOrderSpec | day24/day24.rb:77 | attacks run by decreasing initiative of the attacker, each selected pair exactly once |
| ImmuneSimulator.AliveMembers | day24/day24.rb:34-35 | `select!` keeps exactly the groups with units |
| ImmuneSimulator.Alive | day24/day24.rb:34-35 | `select!` on units; `ImmuneSimulator.AliveMembers` states that it keeps exactly the groups with units |
| ImmuneSimulator.SelectionIndices | day24/day24.rb:55-74 | each selected pair names two groups of the battle |
| ImmuneSimulator.AttacksWeaken | day24/day24.rb:49-53 | a fight only takes units away |
| ImmuneSimulator.Attacks | day24/day24.rb:76-84 | the attacks of one round; `ImmuneSimulator.AttacksWeaken` states that they only take units away |
| ImmuneSimulator.RoundRemovesDead | day24/day24.rb:33-35 | after a round every group left has units and was in its army before with at least as many units |
| ImmuneSimulator.Round | day24/day24.rb:31-36 | one pass of `run`'s loop; `ImmuneSimulator.RoundRemovesDead` states that every group left has units and was in its army before |
| ImmuneSimulator.AliveWeakened | day24/day24.rb:34-35 | the survivors of a fight have units and come from the army before it |
| ImmuneSimulator.AliveHealthy | day24/day24.rb:34-35 | filtering keeps every group's hit points positive |
| ImmuneSimulator.RoundHealthy | day24/day24.rb:31-36 | a round keeps every group's hit points positive |
| ImmuneSimulator.Battle | day24/day24.rb:30-38 | when the battle ends within the fuel, one army is empty |
| ImmuneSimulator.BattleStep | day24/day24.rb:31-36 | with both armies standing and fuel left, the battle is one round followed by the rest |
| ImmuneSimulator.BattleOver | day24/day24.rb:31 | with an army gone the battle ends at once; with none gone and no fuel it is undecided |
| ImmuneSimulator.StalemateNeverEnds | day24/day24.rb:31-36 | a round that changes nothing repeats forever, so run never returns |
| ImmuneSimulator.StalemateExample | day24/day24.rb:30-36 | two groups each immune to the other's attack type form such a stalemate |
| ImmuneSimulator.Group.constructor | day24/day24.rb:8 | a new group holds the given fields |
| ImmuneSimulator.Group.TakeDamage | day24/day24.rb:13-17 | take_damage updates the group and returns the units lost as Hit specifies |
| ImmuneSimulator.States | day24/day24.rb:8 | there is one state per group object |
| ImmuneSimulator.StatesAt | day24/day24.rb:8 | entry i is the state of group i |
| ImmuneSimulator.StatesAppend | day24/day24.rb:56 | the states of the joined armies are the joined states |
| ImmuneSimulator.AliveGroupsStates | day24/day24.rb:34-35 | filtering the objects keeps exactly the states Alive keeps, and only objects of the list |
| ImmuneSimulator.AliveGroupsDistinct | day24/day24.rb:34-35 | filtering keeps a list of group objects free of repeats |
| ImmuneSimulator.AliveGroupsKeepDistinct | day24/day24.rb:33-35 | filtering both armies keeps them free of shared or repeated objects |
| ImmuneSimulator.AttackerKeys | day24/day24.rb:77 | there is one key per selected pair of objects |
| ImmuneSimulator.AttackerKeysMatch | day24/day24.rb:77 | the keys read from the selected objects are those of their states |
| ImmuneSimulator.Simulation.constructor | day24/day24.rb:25-28 | the simulation holds the two armies as given |
| ImmuneSimulator.Simulation.SelectTargets | day24/day24.rb:55-74 | select_targets returns the object pairs at the indices the value model selects |
| ImmuneSimulator.Simulation.SelectOne | day24/day24.rb:58-72 | one attacker's turn of the map in select_targets: it takes its best remaining target, if any, and removes that target from the candidates, advancing the value-level selection by one attacker |
| ImmuneSimulator.Simulation.StrikeOnce | day24/day24.rb:79-81 | one attack changes the groups as Strike does: an attacker without units skips |
| ImmuneSimulator.Simulation.Attack | day24/day24.rb:76-84 | attack leaves the groups as the attacks in decreasing initiative order do |
| ImmuneSimulator.Simulation.Fight | day24/day24.rb:49-53 | fight leaves the groups as the value model's Attacks does |
| ImmuneSimulator.Simulation.RemoveDead | day24/day24.rb:34-35 | the two `select!`s keep exactly the groups with units in each army |
| ImmuneSimulator.Simulation.PlayRound | day24/day24.rb:31-36 | one pass of the loop leaves the armies as Round does |
| ImmuneSimulator.Simulation.Run | day24/day24.rb:30-38 | run returns the units of the surviving army of the battle the value model plays, or none when the fuel runs out |
| ImmuneSimulator.Simulation.PlayRounds | day24/day24.rb:31-36 | the loop stops with an army gone or no fuel left, and the outcome from the remaining fuel equals the outcome from the start |
| ImmuneSimulator.Simulation.Result | day24/day24.rb:37 | the answer is the unit sum of the immune system if it has groups left, and of the infection otherwise |
| ImmuneSimulator.Simulation.BattleRound | day24/day24.rb:31-36 | one round moves the battle one step, keeping its outcome |
| ImmuneSimulator.Simulation.ValidHealthy | day24/day24.rb:13-14 | every group of a valid simulation has positive hit points, so take_damage can divide |
| Constellations.Point.Distance | day25/day25.rb:5-10 | the Manhattan distance over four coordinates is zero exactly between equal points |
| Constellations.DistanceSymmetric | day25/day25.rb:5-10 | the distance is symmetric |
| Constellations.MinDistance | day25/day25.rb:26 | `min_by` distance of a nonempty point list is at most every member's distance and is reached by some member |
| Constellations.NearIff | day25/day25.rb:39 | a point within distance 3 of a member makes the constellation close |
| Constellations.NearIndices | day25/day25.rb:39 | the selection consists of indices of existing constellations |
| Constellations.NearIndicesNear | day25/day25.rb:39 | every selected constellation is close to the point |
| Constellations.NearIndicesComplete | day25/day25.rb:39 | every close constellation is selected |
| Constellations.NearIndicesIncreasing | day25/day25.rb:39 | the selection keeps list order |
| Constellations.NearIndicesList | day25/day25.rb:39 | the selection is exactly the close constellations in list order |
| Constellations.TotalUpdate | day25/day25.rb:43 | replacing one constellation changes the point total by the difference of sizes |
| Constellations.KeepOutMembers | day25/day25.rb:47-48 | after deleting the other close constellations, what is left are exactly the constellations not deleted |
| Constellations.ConcatAtMembers | day25/day25.rb:47-49 | the joined points are exactly the points of the joined constellations |
| Constellations.ConcatAtUpdate | day25/day25.rb:45-49 | changing the target does not change the points joined from the others |
| Constellations.SplitBottom | day25/day25.rb:46-48 | no more constellations are deleted than scanned |
| Constellations.KeepOutHit | day25/day25.rb:47-49 | a scanned constellation that is deleted moves its points to the joined list |
| Constellations.KeepOutMiss | day25/day25.rb:47-48 | a scanned constellation that is not deleted stays |
| Constellations.KeepOutTotal | day25/day25.rb:45-49 | deleting and joining conserves the number of points |
| Constellations.TotalSnoc | day25/day25.rb:41 | a new constellation adds its size to the total |
| Constellations.MergeTotal | day25/day25.rb:44-51 | merging the close constellations with the point adds exactly one point |
| Constellations.IncreasingTail | day25/day25.rb:45-46 | the first close constellation is not among the others |
| Constellations.AddTotal | day25/day25.rb:38-53 | each point adds exactly one point to the total, in every branch |
| Constellations.KeptFrom | day25/day25.rb:44-51 | after a merge every constellation is the merged one or an earlier one not close to the point |
| Constellations.AddNoEmpty | day25/day25.rb:38-53 | no constellation is ever empty |
| Constellations.KeepOutHas | day25/day25.rb:47-48 | a constellation not deleted is still in the list |
| Constellations.MergeCovers | day25/day25.rb:44-51 | after a merge the point and every earlier point belong to some constellation |
| Constellations.AddCovers | day25/day25.rb:38-53 | after placing a point, it and every earlier point belong to some constellation |
| Constellations.MergedFrom | day25/day25.rb:45-51 | the merged constellation holds only the point and points of close constellations |
| Constellations.MergedApart | day25/day25.rb:44-51 | a point of the merged constellation is more than 3 away from every point of a constellation not close to the new point |
| Constellations.MergePair | day25/day25.rb:44-51 | after a merge, two points within distance 3 lie in constellations at the same index of the list |
| Constellations.AppendPair | day25/day25.rb:40-41 | after a new constellation is appended, two points within distance 3 lie in constellations at the same index of the list |
| Constellations.AddSeparated | day25/day25.rb:38-53 | placing a point keeps every pair of points within distance 3 in the constellation at one index of the list |
| Constellations.BuildSeparated | day25/day25.rb:36-55 | create_constellations makes no empty constellation, and two points within distance 3 always lie in the constellation at one index of the list |
| Constellations.KeepOutKept | day25/day25.rb:47-48 | the constellations left after the deletions are those at the indices not deleted, in increasing order |
| Constellations.Merge | day25/day25.rb:44-51 | the merge branch; `Constellations.MergeTotal` and `Constellations.MergeCovers` state that it adds exactly the new point and loses none |
| Constellations.Add | day25/day25.rb:38-52 | one point of the loop; `Constellations.AddTotal` and `Constellations.AddSeparated` state that it adds one point and separates no close pair |
| Constellations.Build | day25/day25.rb:36-55 | `create_constellations`; `Constellations.BuildTotal`, `Constellations.BuildCovers` and `Constellations.BuildSeparated` state its properties |
| Constellations.DeleteObject | day25/day25.rb:48 | `Array#delete` by identity; `Constellations.DeleteKeepOut` states that deleting one more object keeps one index fewer |
| Constellations.BuildTotal | day25/day25.rb:36-55 | the constellations hold as many points as the input |
| Constellations.BuildCovers | day25/day25.rb:36-55 | every input point is in some constellation |
| Constellations.AddOne | day25/day25.rb:42-43 | with exactly one close constellation, the point is appended to it |
| Constellations.MergeOne | day25/day25.rb:42-43 | merging with a single close constellation is appending the point to it |
| Constellations.KeepOutNone | day25/day25.rb:47 | deleting nothing keeps the list |
| Constellations.Constellation.constructor | day25/day25.rb:16-18 | a new constellation holds the given points |
| Constellations.Constellation.Join | day25/day25.rb:20-23 | join appends the other constellation's points after its own |
| Constellations.Constellation.Push | day25/day25.rb:43 | `points << point` appends the point |
| Constellations.Constellation.Distance | day25/day25.rb:25-27 | the distance to a constellation is at most every member's distance and reached by some member |
| Constellations.Groups | day25/day25.rb:14 | there is one point list per constellation |
| Constellations.GroupsAt | day25/day25.rb:14 | entry i is the points of constellation i |
| Constellations.SelectClose | day25/day25.rb:39 | the select loop returns exactly the close constellations in list order |
| Constellations.GroupsKeepOut | day25/day25.rb:47-48 | deleting constellation objects deletes their point lists |
| Constellations.DeleteKeepOut | day25/day25.rb:48 | deleting one more constellation object by identity is deleting one more index |
| Constellations.KeepOutDistinct | day25/day25.rb:47-48 | deleting keeps the constellation objects distinct |
| Constellations.JoinOthers | day25/day25.rb:45-50 | the loop over the other close constellations deletes them from the list and joins their points to the first one |
| Constellations.MergeInto | day25/day25.rb:44-51 | the merge branch leaves the constellations' points as the value-level Merge |
| Constellations.PlaceNew | day25/day25.rb:40-41 | with no close constellation, a fresh constellation holding the point is appended |
| Constellations.PlaceOne | day25/day25.rb:42-43 | with one close constellation, the point joins it |
| Constellations.PlaceMerge | day25/day25.rb:44-51 | with several close constellations, they merge into the first with the point |
| Constellations.Place | day25/day25.rb:39-52 | one turn of the loop leaves the constellations' points as the value-level Add |
| Constellations.CreateConstellations | day25/day25.rb:36-55 | create_constellations returns distinct constellations whose points are those of Build, so they are separated, nonempty and cover every input point once |

## Left out

- Input parsing, file reads, regex tokenising and all printing (`puts`, `p`, `display`, `to_s`, the `print_program` text layout) are left out. The model takes already-parsed values.
- The day4 timestamps are left out. The model takes minute integers. A "wakes up" record with no earlier "falls asleep" fails when parsing in the model; the script stores nil and fails later in `sleep_time`.
- day20/day20.rb is not part of this model. Its parser rewrites the input into Ruby source and evaluates it.
- day23/day23b.rb is not part of this model. It hands the problem to an external optimiser.
- The part-one query of day23 (the strongest bot and its count, day23/day23.rb:99-100) is left out. The count in range is modelled (`Nanobots.CountInRange`).
- The cycle extrapolation of the day18 driver (day18/day18.rb:90-106) is left out. It is a heuristic over observed values. One evolution step and the resource value are modelled.
- The memo caches are left out: day11 `@grid`, day15 `Position.create` and `adjacent`, day22 `@erosion_level`, and day23 `Bot#bounding_box`. The model computes the underlying values directly.
- Profiling and debugging libraries are left out. So is the day17 drop counter that only feeds output.
- Loops that need not end take a `fuel` bound. When the fuel runs out, the model reports that the loop did not finish. It does not capture a run that never ends. This applies to `Frequency.FirstRecurring`, `StarMessage.Sky.FindMessage`, `MineCarts.Track.Run`, `RecipeBoard.RecipesBefore`, `CaveCombat.Combat.Run`, `OpcodeResolver.Resolve`, `Reservoir.Scan.Run`, `Machine.Run`, `ProfiledMachine.RunWithProbe`, `ModeMaze.Cave.Search` and `ImmuneSimulator.Simulation.Run`.
- Register values are natural numbers. Every parsed operand is a digit string, registers start at 0 or 1, and each opcode maps naturals to naturals.
- A register operand outside the register file is handled in two ways. For `Opcodes.Exec` and the day19 and day21 machines it is a precondition (a well-formed instruction). The day16 driver, `OpcodeResolver.ExecNumbered` and `OpcodeResolver.RunProgram`, instead reports such an instruction as `Fail("register out of range")` and stops. Neither matches the scripts, where such a read gives nil and what follows depends on the opcode:
  - `addr`, `addi`, `mulr` and `muli` raise.
  - `banr`, `bani`, `borr` and `bori` raise when the nil is the right operand of `&` or `|`. When it is the left operand, Ruby's `nil & x` and `nil | x` give `false` or `true`, which is written to C.
  - The `gt*` comparisons raise.
  - The `eq*` comparisons write 0, because `nil == x` is false. The one exception is `eqrr` with both operands outside the file, which writes 1, because `nil == nil`.
  - `setr` copies nil into C; `seti` reads no register.
  - A write to C past the end grows the array and pads it with nil.
- Ruby's `sort` and `sort_by` are not stable. The model sorts by insertion sorts, each of which gives one of the orders Ruby may give. They break ties differently. `MineCarts.Insert` (day13, cart order) and `ImmuneSimulator.Insert` (day24, target and attack order) place a new index before the first equal key, so among equal keys the later input comes first. `CaveCombat.SortByReadingOrder` (day15, reading order) inserts the first unit into the sorted rest, before any equal position, so it keeps input order. The contracts state sortedness and permutation only, so ties are not pinned down.
- day6 `Board` requires the maximum coordinates to be at least -1 and the coordinate list to be nonempty. The script raises otherwise.
- day12 `NextGeneration` requires a margin of four empty pots on each side. Ruby's negative-index wrap-around in pot lookup is modelled by `PotRow.Slot`, but the margin keeps the automaton from reaching it.
- day13 reads a space for a cell outside the grid, where Ruby would raise or wrap a negative index. `CrashAll` crashes every live cart on the cell, which is the set the script finds with `carts_at`.
- day15 drops the unit's back-reference to its combat. The unit's methods become `Combat` methods that take the unit.
- CaveCombat.Combat.NextPosition: returns no position where the script would fail on nil (when the backward search finds no neighbour). The searches are proved breadth-first (each depth one more than a parent's, never falling), not that their depths are shortest distances.
- CaveCombat.Combat.Move: states the outcome in terms of the two breadth-first searches, which are not proved to give shortest distances (see `NextPosition`).
- CaveCombat.Combat.Round: does not state the order in which units act or the outcome of each turn. It states that a round that ends the combat leaves one side, and that no unit revives. Each turn is stated by `Tick` and `MoveAndAttack`.
- CaveCombat.Combat.Run: does not tie the final state to a reference run of the combat. It states how the loop ends, that no unit revives, and that an elf alive at the end was alive at the start.
- CaveCombat.Combat.constructor, CaveCombat.Combat.ScanMap, CaveCombat.Combat.ScanRow, CaveCombat.Combat.Discover: require a map whose border is wall and whose unit cells are interior. On another map the script reads past an edge, where Ruby wraps a negative index or raises on nil.
- FabricClaims.Fits: claims that reach past the 1000 by 1000 fabric are excluded. On those the script's `fabric[x][y] += 1` raises NoMethodError on nil.
- OpcodeResolver.ValidSample: the resolver and the test program take opcode numbers below 16 only, where the script's `opcodes_by_nr` would grow past its sixteen slots. Matching a sample and the three-or-more count take any opcode number (`WellFormedSample`).
- RecipeBoard.RecipesBefore: requires a nonempty pattern. With the empty pattern the script's `find` answers 1 on the first board, because it tries only starts 1 and 2 (see Findings).
- CaveCombat.Combat.Tick: does not state which target is struck or by how much. It states that only enemies of the unit can lose hit points, that no dead unit revives, that only the unit moves, and that it moves at most one step, onto an open neighbouring cell.
- day15 and day24 attacks require living targets with positive hit points, as the scripts' callers guarantee.
- day17 requires `x_min >= 0`, because Ruby wraps negative indices, and `x_max >= 500`, because the spring must lie inside the grid.
- ProfiledMachine.AnnotatedTargetsAreNextPc: states the target of an `addr` label only when one operand is the pc. When neither operand is the pc, the listing still says "relative jump, r[A] steps", while the machine goes to r[A] + r[B] + 1; the corrected classification keeps that label.
- ModeMaze.Cave.Search: does not prove the returned time is the least. It states that a returned state is at the target, holds the torch and can use it there.
- day22's thread-safe `Queue` is modelled as a sequence used first in, first out. There is no concurrency.
- day24 groups are compared by object identity in the class layer. Ties in effective power and initiative follow the insertion sort.
- day25 points are a four-field datatype. `delete` on the constellation list removes by object identity (`DeleteObject`).

## Findings

| source | as written | input that shows it | evidently intended | confidence | as-written member | corrected member |
|---|---|---|---|---|---|---|
| day11/day11.rb:47 | `grid` returns `[max_x, max_y, size]`, but `size` is only the block parameter of the loop above, so the last line raises NameError after the whole search | any serial number | return `max_size` as the third value | not executed | `FuelCells.GridAsWritten` | `FuelCells.Grid` |
| day14/day14.rb:23-28 | `find` checks only the two starts `size - pattern.size - 1` and `size - pattern.size`, and gives up while the board is shorter than the pattern plus one. A match that fits the board at the first moment the board is long enough but starts earlier is never checked | board `[3, 7]` grows to `[3, 7, 1, 0]` and then `[3, 7, 1, 0, 1, 0]`; pattern `[3, 7, 1, 0]` sits at 0, but only starts 1 and 2 are tried | check every start that ends within the recipes added by the last step | not executed | `RecipeBoard.Board.FindAsWritten`, `RecipeBoard.AsWrittenMissesStartZero` | `RecipeBoard.Board.Find`, `RecipeBoard.RecipesBefore` |
| day21/day21.rb:91-93 | `print_program` treats `addi` into the pc as a relative jump whenever A or B equals the pc register. When only the immediate B equals it, the label adds the register number A | `addi 2 1 1` at line 0 with the pc in register 1 and r2 = 5: the listing says instruction 3, the machine goes to 7 | call it a relative jump only when A is the pc register | not executed | `ProfiledMachine.AnnotateAsWritten`, `ProfiledMachine.AnnotateAsWrittenMislabelsAddi` | `ProfiledMachine.Annotate`, `ProfiledMachine.AnnotatedTargetsAreNextPc` |
| day21/day21.rb:99-101 | `print_program` labels `setr a b pc` with `a` not the pc as an absolute jump of `b` steps, but `setr` ignores B and the machine goes to r[a] + 1 | `setr 2 4 1` at line 0 with the pc in register 1 and r2 = 5: the listing says 4 steps, the machine goes to 6, and so does `setr 2 0 1`, labelled 0 steps | label it a jump to just after the value of register `a` | not executed | `ProfiledMachine.AnnotateAsWritten`, `ProfiledMachine.AnnotateAsWrittenMislabelsSetr` | `ProfiledMachine.Annotate`, `ProfiledMachine.AnnotatedTargetsAreNextPc` |
