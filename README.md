# Advent of Code 2022 puzzle solvers, modelled in Dafny

This project models the puzzle logic of a Rust crate that solves the Advent of
Code 2022 puzzles, and proves properties of that model. Each puzzle has one
source file, `src/dayN.rs`, with a part a and a part b. The files are modelled
module by module:

| module | file | models |
|---|---|---|
| `Day16b` | `day16b.dfy` | the two-agent valve search `solve_b`: the pairs of actions, the pruning bound, the shared best score and the score cache |
| `Day16a` | `day16a.dfy` | the single-agent search `solve_a` with its useful-valves mask |
| `ValveGraph` | `valve_graph.dfy` | the id assignment of `parse_input` in `src/day16a.rs` and `src/day16b.rs`: useful valves get ids 1, 2, ... and useless ones 32, 33, ... |
| `ValveState` | `valve_state.dfy` | the `State` of those two files: `create_initial`, `perform_actions`, `is_valve_open`, `flow_rate`, `futher_score_upper_bound` and the list of legal actions |
| `Bits32` | `bitvec32.dfy` | `BitVec32`: a `u32` as 32 bits, with the mask arithmetic of `get` and `set`, xor against a mask and `count_ones` |
| `Day16`, `Day16Graph`, `Bits64` | `day16.dfy`, `day16_graph.dfy`, `bitvec64.dfy` | the earlier single-agent version in `src/day16.rs`: first-mention ids, the 64-bit open set and the memoised `solve` |
| `Day13` | `day13.dfy` | packet tokenizer, recursive-descent parser, printer and ordering |
| `Day10` | `day10.dfy` | the `Vm` class that runs `noop`/`addx`, the signal strengths and the 40 x 6 screen |
| `Day11` | `day11.dfy` | monkeys passing items: the worry expression, `process_turn`, `process_round` and `process_rounds` |
| `Day14` | `day14.dfy` | the `SparseGrid` class for falling sand and `count_settled_sand_until` |
| `Day7` | `day7.dfy` | the folder tree built from a shell transcript, folder sizes and the folder to delete |
| `Day9` | `day9.dfy` | the rope whose knots follow one another |
| `Day5` | `day5.dfy` | the `Ship` class of crate stacks moved by the crane |
| `Day8` | `day8.dfy` | tree visibility and viewing distance over a height grid |
| `Day15` | `day15.dfy` | sensors, beacons and Manhattan diamonds |
| `Day12` | `day12.dfy` | the heightmap and the neighbour relation its breadth-first search walks |
| `Day2`, `Day4`, `Day3`, `Day6`, `Day1` | `day2.dfy` ... `day1.dfy` | rock-paper-scissors scores, section ranges, rucksack priorities, the start-of-packet marker and the calorie totals |
| `Strings`, `Ranking`, `Arith`, `Wrappers` | `strings.dfy`, `ranking.dfy`, `arith.dfy`, `wrappers.dfy` | shared pieces: `str::parse`, `split_once`, `split` and `split_whitespace`; sorting in descending order and the product of the two largest values; arithmetic facts; `Option` |

Some conventions hold throughout:

- Functions model the pure code.
- Code that mutates state becomes methods. Each method is proved equal to a specification function, or to specification predicates, of its inputs.
- A `.unwrap()` or index that panics becomes a `None` result, or a `requires` where the caller always meets it.
- Integers are unbounded unless a width matters, as it does for the `u8` valve ids and the bits of the bitsets.

The main results:

- **Part b of day 16.** `Day16b.Day16b` proves the following: with the best score starting at 0, the branch-and-bound search returns the exact value of the initial state. This holds despite pruning to 0 and despite caching scores that pruning may have lowered. The function `Day16b.Value2` is that exact value: the best over every kept pair of actions, as `Day16b.Value2IsMaxOverPairs` states.
- **Part a of day 16, and `src/day16.rs`.** The memoised searches return exactly the uncached value, and every cached score equals it.
- **Other days.** The lemmas give round trips (packets, ranges, moves, words, numbers), invariants (the folder tree stays well formed, the VM invariant, rope knots keep touching, crates are conserved) and reference definitions (viewing distance, first marker) that the loops meet.


## Model

| member | source | states |
|---|---|---|
| Day1.MaxOf | src/day1.rs:7 | the largest total is one of the totals and no total exceeds it |
| Day1.Day1a | src/day1.rs:6-9 | the answer is the total of some group, and no group's total is larger |
| Day1.SortDescending | src/day1.rs:12 | the totals are reordered from largest to smallest, as a permutation of the input |
| Day1.TopThreeAreLargest | src/day1.rs:12 | `take(3)` keeps min(3, n) of the totals, and no total left out is larger than one taken |
| Day1.Day1b | src/day1.rs:11-14 | the answer is the sum of three (or all, if fewer) group totals, each at least as large as every total left out |
| Day1.PartBAtLeastPartA | src/day1.rs:6-13 | with non-negative calories the sum of the top three is at least the largest total |
| Day2.FromStrInverts | src/day2.rs:19-26 | a shape's letters (A/X, B/Y, C/Z) and an outcome's letter (X, Y, Z) read back to it; any other string panics (is `None`) |
| Day2.ShapeFromStr | src/day2.rs:19-26 | a shape is read exactly from "A"–"C" and "X"–"Z", each letter naming its own shape; anything else is the panic |
| Day2.ResultFromStr | src/day2.rs:42-49 | a result is read exactly from "X", "Y", "Z", each naming its own result; anything else is the panic |
| Day2.PlayRound | src/day2.rs:28-38 | a draw exactly for equal shapes, a win exactly when our shape beats theirs, a loss exactly when theirs beats ours |
| Day2.PlayRoundReverses | src/day2.rs:28-38 | a round is a draw exactly when both shapes are equal, and a win for one side is a loss for the other |
| Day2.BeatsExactlyOne | src/day2.rs:28-38 | each shape wins against exactly one shape, and different shapes beat different shapes |
| Day2.RoundScoreA | src/day2.rs:69-82 | one round scores from 1 to 9 points |
| Day2.ChooseShape | src/day2.rs:92-100 | the chosen shape reaches the expected outcome against the opponent |
| Day2.ChooseShapeIsUnique | src/day2.rs:92-100 | the chosen shape is the only shape that reaches that outcome |
| Day2.RoundScoreB | src/day2.rs:91-115 | part b's round score equals part a's score of the chosen shape, and lies between 1 and 9 |
| Day2.ParseRoundInverts | src/day2.rs:52-64 | a line written as the two letters with a space between parses back to the same pair, in both parts |
| Day2.Day2a | src/day2.rs:66-86 | the total is between 1 and 9 points per round |
| Day2.Day2b | src/day2.rs:88-118 | the total is between 1 and 9 points per round |
| Day2.Day2bIsDay2aOfChoices | src/day2.rs:88-118 | part b's total is part a's total over the rounds played with the chosen shapes |
| Day3.ScoreChar | src/day3.rs:10-16 | 'a'..'z' score 1..26 and 'A'..'Z' score 27..52 |
| Day3.ScoreCharInjective | src/day3.rs:10-16 | two letters with the same priority are the same letter |
| Day3.SumScoresBounds | src/day3.rs:21-28 | a sum of letter priorities lies between 1 and 52 per letter |
| Day3.Day3a | src/day3.rs:18-31 | the result is missing (the `unwrap` panics) exactly when some line's halves share no item; otherwise it is the priority sum of one shared item per line |
| Day3.Day3b | src/day3.rs:33-49 | the result is missing exactly when the line count is not a multiple of three or some group of three shares no item; otherwise it is the priority sum of one item common to each group |
| Day3.PicksAreLetters | src/day3.rs:18-31 | when the lines are letters, part a's sum lies between 1 and 52 per line |
| Day3.SumIsDetermined | src/day3.rs:25-27 | when each line's halves share exactly one item, the sum does not depend on the hash-set order |
| Day4.ParseRangeInverts | src/day4.rs:11-16 | a range written as `l-r` parses back to the same range |
| Day4.ParsePairInverts | src/day4.rs:5-21 | a line written as `l-r,l-r` parses back to the same pair of ranges |
| Day4.ParseRange | src/day4.rs:11-16 | a text without a dash fails; a parsed range is the number before the first dash and the number after it |
| Day4.ParsePair | src/day4.rs:9-18 | a line without a comma fails; a parsed pair is the range before the first comma and the range after it |
| Day4.FiltersAreSymmetric | src/day4.rs:28-39 | both filters give the same answer with the two ranges swapped |
| Day4.FullyContainsIsInclusion | src/day4.rs:28 | for ranges with left <= right, part a's filter holds exactly when one range's sections are a subset of the other's |
| Day4.OverlapsIsSharedPoint | src/day4.rs:39 | for ranges with left <= right, part b's filter holds exactly when some section is in both |
| Day4.ContainmentImpliesOverlap | src/day4.rs:28-39 | a pair passing part a's filter passes part b's |
| Day4.Count | src/day4.rs:26-29 | a filtered count is at most the number of pairs |
| Day4.CountIsIndexSet | src/day4.rs:26-29 | the count is the number of positions whose pair passes the filter |
| Day4.CountMonotone | src/day4.rs:26-40 | a filter that passes more pairs counts at least as many |
| Day4.OverlapCountAtLeastContainCount | src/day4.rs:23-43 | part b's answer is at least part a's |
| Day4.Day4a | src/day4.rs:23-32 | the answer is the number of indices whose pair has one range containing the other |
| Day4.Day4b | src/day4.rs:34-43 | the answer is the number of indices whose pair of ranges shares a section |
| Day5.ReverseFacts | src/day5.rs:66-68 | reversing twice gives the crates back, and reversing keeps the same crates |
| Day5.Apply | src/day5.rs:61-73 | a move keeps the number of stacks |
| Day5.Ship.constructor | src/day5.rs:83 | the ship starts with the parsed stacks |
| Day5.Ship.ApplyInstruction | src/day5.rs:61-73 | the new stacks are what the move `Apply` says: the drained crates land on top of `to`, reversed one at a time or in order all at once |
| Day5.Ship.PushAllFront | src/day5.rs:70-72 | pushing each crate to the front of `to` in turn leaves them on top in reverse order, and no other stack changes |
| Day5.ApplyPreservesCrates | src/day5.rs:61-73 | a move neither creates nor destroys crates |
| Day5.ApplyBetweenStacks | src/day5.rs:61-73 | for distinct stacks, `from` loses exactly its first `count` crates, `to` gains them on top, and every other stack is unchanged |
| Day5.ApplyAllStaysFailed | src/day5.rs:85-87 | once a move panics, the whole run panics |
| Day5.ApplyAllPreservesCrates | src/day5.rs:85-87 | a run of moves keeps the number of stacks and the crates on the ship |
| Day5.StacksToAnswer | src/day5.rs:75-80 | the answer panics exactly when some stack is empty; otherwise it holds the top crate of every stack, in stack order |
| Day5.TopsAreCrates | src/day5.rs:75-80 | the top crate of every non-empty stack is one of the crates on the ship |
| Day5.Answer | src/day5.rs:82-104 | a successful answer has one letter per stack, each a crate that was on the ship at the start; with no moves it is the answer of the initial stacks |
| Day5.RunMoves | src/day5.rs:82-104 | the loop's answer is the answer of applying all moves; a move that would panic makes it `None` |
| Day5.Day5a | src/day5.rs:82-92 | the answer after moving crates one at a time |
| Day5.Day5b | src/day5.rs:94-104 | the answer after moving crates several at once |
| Day5.ParseStacks | src/day5.rs:25-42 | there is one stack per digit of the numbers line, holding the letters drawn in that column, top first |
| Day5.ColumnIsLetters | src/day5.rs:34-39 | every crate of a stack is a letter taken from its column, at most one per line |
| Day5.ColumnsCount | src/day5.rs:27-42 | there are as many stacks as digits on the numbers line |
| Day5.ParseMove | src/day5.rs:48-56 | a move is read exactly when all three numbers parse and both stack numbers are at least 1; the stack numbers become 0-based |
| Day5.ParseMoveRoundTrip | src/day5.rs:50-53 | a move's count and 1-based stack numbers, written in decimal, parse back to the same move |
| Day6.FindMarkerOffset | src/day6.rs:11-18 | the offset ends the first window of `length` all-different characters, and no earlier window qualifies; it is `None` (a panic) exactly when the length is 0 or no window qualifies |
| Day6.ToSetSize | src/day6.rs:14 | a window's set has as many elements as the window exactly when its characters are all different |
| Day6.FindFromIsFirst | src/day6.rs:12-15 | `find_position` returns the first qualifying window from a start position on, or none when no later window qualifies |
| Day6.PacketMarkerNoLater | src/day6.rs:20-30 | when the message marker exists, the packet marker exists and ends no later |
| Day6.Day6a | src/day6.rs:20-24 | the offset found ends four distinct characters and no earlier window of four is distinct; no offset exactly when no window is distinct |
| Day6.Day6b | src/day6.rs:26-30 | the same with windows of fourteen |
| Day7.FindFolder | src/day7.rs:39-40 | a found subfolder is one of the folder's subfolders and carries the looked-up name |
| Day7.FindFile | src/day7.rs:16 | a found file is one of the folder's files and carries the looked-up name |
| Day7.FindFolderMissing | src/day7.rs:39-41 | a lookup fails exactly when no subfolder has the name |
| Day7.InsertFolderFinds | src/day7.rs:44-46 | after the insert the folder's name finds it, and every other name finds what it found before |
| Day7.InsertFileFinds | src/day7.rs:48-50 | after the insert the file's name finds it, and every other name finds what it found before |
| Day7.InsertFolderEntries | src/day7.rs:44-46 | the insert adds no subfolder but the new one and keeps the names distinct |
| Day7.InsertFileEntries | src/day7.rs:48-50 | the insert adds no file but the new one and keeps the names distinct |
| Day7.AddFolderSets | src/day7.rs:44-46 | `add_folder` sets the entry for the folder's name, replacing an older one, and leaves the name, the files and the other subfolders alone |
| Day7.AddFileSets | src/day7.rs:48-50 | `add_file` sets the entry for the file's name, replacing an older one, and leaves the name, the subfolders and the other files alone |
| Day7.AddKeepsWellFormed | src/day7.rs:44-50 | adding a file or a well-formed folder keeps one entry per name in every folder |
| Day7.GetFolder | src/day7.rs:32-42 | the empty path finds the folder itself, and a found folder is named by the path's last name |
| Day7.GetFolderAppend | src/day7.rs:32-42 | looking up a concatenated path walks the first part and then the second from where it ended |
| Day7.GetFolderMissing | src/day7.rs:37-41 | a name missing along the path makes the lookup fail |
| Day7.Apply | src/day7.rs:113-127 | a change at a folder keeps its name |
| Day7.ModifyAt | src/day7.rs:113-127 | the change through `get_folder_mut(..).unwrap()` fails exactly when the current path does not exist; otherwise the root keeps its name and the path now finds the changed folder |
| Day7.ModifyAtElsewhere | src/day7.rs:113-127 | a path that leaves the current path at some point finds the same folder before and after the change |
| Day7.ModifyAtKeepsWellFormed | src/day7.rs:113-127 | a change keeps one entry per name in every folder of the tree |
| Day7.GetSize | src/day7.rs:52-64 | the two accumulating loops return the folder's recursive size: its files and the sizes of its subfolders |
| Day7.FoldersSize | src/day7.rs:59-61 | the summed size of a list of folders is at least each folder's size |
| Day7.Size | src/day7.rs:52-64 | a folder's size covers its own files, and is exactly their total when it has no subfolders |
| Day7.FoldersSizeBounds | src/day7.rs:59-61 | each subfolder's size is at most the sum over the subfolders |
| Day7.SubfolderNotLarger | src/day7.rs:52-64 | a folder is at least as large as each of its subfolders |
| Day7.AllFoldersBounded | src/day7.rs:52-64 | no folder of the tree is larger than its root |
| Day7.GetFolderInAll | src/day7.rs:151-153 | every folder a path reaches is among the folders the recursive walk visits |
| Day7.SumSubfolderSizes | src/day7.rs:144-154 | adds the sizes of all folders of the tree, root included, whose size is at most 100000 |
| Day7.CandidatesMeans | src/day7.rs:172-176 | the candidates are exactly the folders larger than the minimum size, each paired with its size |
| Day7.FindFolderToRemove | src/day7.rs:167-181 | appends the candidates of the folder itself and then of every folder below it |
| Day7.FindInSubfolders | src/day7.rs:178-180 | the loop over the subfolders appends the candidates of each subtree in turn |
| Day7.MinSize | src/day7.rs:195-199 | `min_by_key` returns a size among the candidates and no candidate is smaller |
| Day7.SmallestToRemoveMeans | src/day7.rs:188-199 | part b answers exactly when the tree takes between 40000000 and 70000000; the answer is a folder's size above total minus 40000000, no such folder is smaller, and it is at most the root's size |
| Day7.MinCandidate | src/day7.rs:195-199 | when some folder beats the threshold, the least candidate size is such a folder's size and no larger than any other such folder |
| Day7.SmallestToRemove | src/day7.rs:183-199 | when a folder is found, the disk is over the free-space threshold but not over its capacity, the size found frees enough space, and it is the size of a folder of the tree |
| Day7.ListingEnds | src/day7.rs:99-103 | a listing ends at a command line or at the end of the log |
| Day7.ListEntry | src/day7.rs:104-129 | one output line of `ls` changes the state as `ListingLine` says: a `dir` line adds an empty folder, a size line a file, both at the current folder; a malformed line or a missing current folder panics |
| Day7.ExecuteLines | src/day7.rs:82-142 | the command loop with its peeking `ls` loop gives the state `Execute` describes, line by line |
| Day7.ExecFromKeepsWellFormed | src/day7.rs:82-142 | running the log keeps one entry per name in every folder |
| Day7.Execute | src/day7.rs:82-142 | no lines leave the state unchanged, and a well-formed file system stays well formed through a successful run |
| Day7.CdLine | src/day7.rs:90-98 | `cd /` goes to the root, `cd ..` drops the last name (nothing at the root), any other argument is entered; nothing else changes and a listing ends |
| Day7.Cd | src/day7.rs:90-98 | `cd /` goes to the root; any other argument either drops at most the last folder of the path or appends exactly one |
| Day7.DirLine | src/day7.rs:107-117 | a `dir` line inside a listing adds an empty folder of that name at the current folder and stays in the listing |
| Day7.Day7a | src/day7.rs:156-165 | answers exactly when the log runs without a panic, with the sum of the small folders of the tree it builds |
| Day7.Day7b | src/day7.rs:183-202 | answers with the smallest folder size that frees enough space on the tree the log builds, `None` on a panic |
| Day8.InGridIndex | src/day8.rs:10-12 | an in-grid position indexes the row-major data |
| Day8.Get | src/day8.rs:10-12 | the height read is one of the map's heights |
| Day8.IsEdge | src/day8.rs:14-16 | on a map at most two wide or high every tree is on the edge; a tree not on the edge has a neighbour on all four sides |
| Day8.LeftLine | src/day8.rs:42-43 | the trees to the left, nearest first, are as many as the column |
| Day8.RightLine | src/day8.rs:54-55 | the trees to the right, nearest first, reach the last column |
| Day8.UpLine | src/day8.rs:66-67 | the trees above, nearest first, are as many as the row |
| Day8.DownLine | src/day8.rs:78-79 | the trees below, nearest first, reach the last row |
| Day8.IsVisible | src/day8.rs:18-31 | an edge tree is visible, and a visible interior tree is taller than at least one of its four neighbours |
| Day8.IsVisibleMeans | src/day8.rs:18-31 | a tree is visible exactly when it is on the edge or every tree of one of its four lines is lower |
| Day8.ViewDistance | src/day8.rs:40-50 | the distance is at most the line's length and at least one on a non-empty line (where it stops is stated by ViewDistanceStops) |
| Day8.Product | src/day8.rs:88 | the product of four viewing distances is positive when all four are |
| Day8.ScenicScore | src/day8.rs:33-89 | the score is zero exactly for edge trees |
| Day8.ViewDistanceSuffix | src/day8.rs:42-50 | each step of a count stops at a tree at least as tall or goes on with the next tree |
| Day8.ViewDistanceStops | src/day8.rs:42-86 | a viewing distance is at most the line's length and at least 1 on a non-empty line; every tree before the stopping one is lower, and the count stops at a tree at least as tall unless it reaches the edge |
| Day8.ViewDistanceAllLower | src/day8.rs:42-86 | when every tree along the line is lower, the whole line is seen |
| Day8.CountToLeft | src/day8.rs:40-50 | the leftward loop counts the trees seen to the left |
| Day8.CountToRight | src/day8.rs:52-62 | the rightward loop counts the trees seen to the right |
| Day8.CountToTop | src/day8.rs:64-74 | the upward loop counts the trees seen above |
| Day8.CountToBottom | src/day8.rs:76-86 | the downward loop counts the trees seen below |
| Day8.MeasureViewingDistance | src/day8.rs:33-89 | the score is 0 on the edge and otherwise the product of the four viewing distances |
| Day8.EdgeTrees | src/day8.rs:14-36 | an edge tree is visible and scores 0 |
| Day8.InteriorDistances | src/day8.rs:33-89 | an interior tree sees between 1 tree and the distance to the edge in each direction, so it scores at least 1 |
| Day8.VisibleSeesToTheEdge | src/day8.rs:18-31 | a tree visible from a direction sees every tree in that direction up to the edge |
| Day8.RowVisible | src/day8.rs:113-117 | no more trees of a row are visible than were looked at |
| Day8.GridVisibleBound | src/day8.rs:112-118 | the visible count is at most the number of trees looked at |
| Day8.VisibleAtMostTrees | src/day8.rs:108-121 | no more trees are visible than the map holds |
| Day8.Day8a | src/day8.rs:108-121 | the nested loops count the visible trees, at most the number of trees on the map |
| Day8.Day8b | src/day8.rs:123-137 | the result is no smaller than any tree's score and is either 0 or the score of some tree |
| Day9.ParseDirection | src/day9.rs:52-58 | a direction letter is read exactly when it is one of U, D, L, R; any other letter panics |
| Day9.MoveCoord | src/day9.rs:66-77 | one step moves to a different position that touches the old one |
| Day9.AreTouching | src/day9.rs:79-84 | two knots touch exactly when the tail lies in the 3x3 square centred on the head |
| Day9.GetDirectionToMoveTo | src/day9.rs:86-118 | no move exactly when the knots touch; otherwise the tail steps one closer to the head on each axis where they differ and stays on the other |
| Day9.Follow | src/day9.rs:86-118 | a touching tail stays put; otherwise it steps towards the head on each axis where they differ; either way it ends touching its old position |
| Day9.AreTouchingIsSymmetricAndReflexive | src/day9.rs:79-84 | a knot touches itself, and touching is symmetric |
| Day9.FollowGetsCloser | src/day9.rs:86-118 | a tail that does not touch gets exactly one closer on each differing axis, without overshooting |
| Day9.FollowTouchesAgain | src/day9.rs:129-134 | a tail that touched the head touches it again after the head takes one step and the tail follows, and the tail moves by at most one step |
| Day9.FollowFrom | src/day9.rs:152-163 | the follow loop keeps the number of knots |
| Day9.Step | src/day9.rs:149-164 | one head step keeps the number of knots |
| Day9.Run | src/day9.rs:125-136 | running the steps keeps the number of knots |
| Day9.FollowFromKeepsTouching | src/day9.rs:152-163 | the follow loop leaves every knot touching the knot ahead of it |
| Day9.StepKeepsTouching | src/day9.rs:149-164 | a head step keeps every knot touching the knot ahead of it |
| Day9.RunKeepsTouching | src/day9.rs:141-165 | from the rope with all knots at the origin, adjacent knots touch after every step |
| Day9.TailsAreVisited | src/day9.rs:123-134 | every position the last knot takes after a prefix of the steps is in the visited set |
| Day9.VisitedAreTails | src/day9.rs:123-134 | every visited position is where the last knot is after some prefix of the steps |
| Day9.RunSnoc | src/day9.rs:125-136 | one more step moves the rope once more and adds the last knot's new position to the visited set |
| Day9.StepsSnoc | src/day9.rs:125-128 | one more instruction adds its distance's worth of head steps in its direction |
| Day9.StepTwoKnots | src/day9.rs:129-134 | a step of a two-knot rope moves the head and lets the tail follow |
| Day9.TailInVisited | src/day9.rs:123 | the last knot's current position is in the visited set |
| Day9.Day9a | src/day9.rs:120-139 | the result is the number of positions the tail of a two-knot rope visits |
| Day9.StepPair | src/day9.rs:128-135 | the inner loop of part a moves a two-knot rope n steps and records every tail position |
| Day9.StepOnce | src/day9.rs:129-134 | one head step of a two-knot rope, the tail following and its position recorded |
| Day9.FollowKnots | src/day9.rs:152-163 | the knot loop on the ten-knot array lets each knot follow the one ahead and records the last knot |
| Day9.StepRope | src/day9.rs:150-163 | the head moves and then the knots follow, and the last knot is recorded |
| Day9.StepHead | src/day9.rs:149-164 | n head steps in one direction, each followed by the knot loop |
| Day9.Day9b | src/day9.rs:141-168 | the result is the number of positions the last knot of a ten-knot rope visits |
| Day10.Cycles | src/day10.rs:10-15 | an instruction takes one or two cycles |
| Day10.ParseInstruction | src/day10.rs:18-25 | `noop` reads as a no-op, `addx` with a parsable operand as an add of that operand, and anything else panics |
| Day10.XFromPrefix | src/day10.rs:56-86 | after the cycles of the first k instructions, `x` carries their operands and the rest of the program takes over |
| Day10.VmInvariantMeans | src/day10.rs:56-77 | between cycles `x` is the register value of the current cycle, and a halted VM has used one cycle more than the program's total and keeps `x` from then on |
| Day10.Vm.constructor | src/day10.rs:41-50 | a new VM has `x` 1, cycle 1, the first instruction current and its cycle count loaded; the program must not be empty |
| Day10.Vm.GetCurrentInstruction | src/day10.rs:52-54 | the current instruction exists exactly while the program counter is inside the program |
| Day10.Vm.ExecuteInstruction | src/day10.rs:79-86 | `addx` adds its operand to `x`, `noop` changes nothing, and no other field changes |
| Day10.Vm.ExecuteCycle | src/day10.rs:56-77 | a halted VM does nothing; otherwise the cycle counter advances, and when the current instruction has used up its cycles it takes effect and the next one is loaded, or the VM halts at the end of the program |
| Day10.Day10a | src/day10.rs:89-105 | the signal sum is the sum of cycle times `x` over the cycles 20, 60, 100, ... the program runs through |
| Day10.SignalSum | src/day10.rs:95-102 | nothing is sampled before cycle 20; up to cycle 59 the sum is 20 times x during cycle 20, and up to cycle 99 cycle 60 is added |
| Day10.Day10b | src/day10.rs:107-130 | pixel i of the 240-pixel screen is lit exactly when the sprite around the value of `x` during cycle i + 1 covers column i mod 40 |
| Day10.Pixel | src/day10.rs:113-119 | a pixel is lit exactly when its column is x - 1, x or x + 1, which needs x between -1 and 40; otherwise it is dark |
| Day10.XSteadyWhileRunning | src/day10.rs:56-77 | while an instruction runs, `x` keeps the value from before it |
| Day11.EvalCongruent | src/day11.rs:21-35 | evaluating an operation on worry levels congruent modulo m gives congruent results, so levels may be reduced between throws |
| Day11.EvalExpression | src/day11.rs:21-35 | an expression without negative constants keeps a non-negative worry level non-negative |
| Day11.RustRemZero | src/day11.rs:131 | the truncating remainder is zero exactly when the divisor divides the worry level |
| Day11.RustRemShift | src/day11.rs:129 | the truncating remainder differs from the value by a multiple of the divisor's magnitude |
| Day11.RemByMultiple | src/day11.rs:129 | a remainder by a multiple of d differs from the value by a multiple of d |
| Day11.ReductionKeepsTest | src/day11.rs:129-131 | reducing a worry level by a multiple of the test's divisor does not change the test's outcome |
| Day11.Worry | src/day11.rs:123-129 | the reduced worry level is smaller in magnitude than `mod_by`, and is non-negative for non-negative items and constants |
| Day11.Target | src/day11.rs:131-141 | the item goes to the "if true" monkey exactly when the divisor divides the worry level and to the "if false" monkey otherwise |
| Day11.RouteIsSent | src/day11.rs:122-142 | throwing the items appends to each outbound entry exactly the worry levels sent to that monkey, in order, and adds no entry but the two targets |
| Day11.SentFollowsTest | src/day11.rs:131-141 | what goes to the true target passed the divisibility test, what goes to the false target failed it, and every item goes to one of them |
| Day11.ProcessTurn | src/day11.rs:110-147 | the monkey's items are all thrown into the outbound map in order, its item list is cleared, no other monkey changes, and the number of items it held is returned |
| Day11.Deliver | src/day11.rs:164-166 | delivering keeps the number of monkeys |
| Day11.DeliverAt | src/day11.rs:164-166 | each monkey receives its outbound entry at the back of its items |
| Day11.DeliverEach | src/day11.rs:164-166 | all monkeys receive their entries at once |
| Day11.DrainInto | src/day11.rs:164-166 | draining the outbound map in any order appends each entry to its monkey's items |
| Day11.PartiallyDelivered | src/day11.rs:164-166 | before the drain nothing is delivered, and once every key is drained each monkey has its entry appended |
| Day11.DeliverOne | src/day11.rs:164-166 | draining one key appends that entry to that monkey and nothing else |
| Day11.Turn | src/day11.rs:158-167 | a turn keeps the number of monkeys |
| Day11.TurnKeepsRules | src/day11.rs:158-167 | a turn changes what the monkeys hold and nothing else about them, and keeps every divisor non-zero and every target in the troop |
| Day11.TurnsBeforeValid | src/day11.rs:158-167 | the turns of a round keep every divisor non-zero and every target in the troop |
| Day11.RoundsValid | src/day11.rs:180-182 | any number of rounds keeps every divisor non-zero and every target in the troop |
| Day11.TurnsBefore | src/day11.rs:158-167 | the first turns of a round keep the number of monkeys |
| Day11.Round | src/day11.rs:150-170 | a round keeps the number of monkeys |
| Day11.ProcessRound | src/day11.rs:150-170 | each monkey in turn throws its items, which are then delivered; every monkey is credited with the items it held at its turn, and the returned outbound map is empty |
| Day11.AddInspections | src/day11.rs:162 | `entry(i).or_default() += inspected` credits monkey i with the count of its turn |
| Day11.CreditStep | src/day11.rs:162 | crediting one more monkey updates only its entry |
| Day11.CreditMeans | src/day11.rs:162 | crediting adds an entry for every credited monkey, adds each count to what was there (nothing counting as 0), and leaves the other entries alone |
| Day11.TurnAndDrain | src/day11.rs:159-166 | the loop body of `process_round` takes the troop from before monkey i's turn to after it, drains the outbound map and returns the monkey's count |
| Day11.Rounds | src/day11.rs:180-182 | the rounds keep the number of monkeys |
| Day11.RoundInspections | src/day11.rs:160-162 | a round has one inspection count per monkey |
| Day11.TurnCounts | src/day11.rs:160-162 | the counts of the first turns are one per monkey that had its turn |
| Day11.TurnCountsAt | src/day11.rs:120 | a monkey inspects every item it holds when its turn comes |
| Day11.PerRound | src/day11.rs:180-182 | one count per monkey for each round |
| Day11.InspectionCounts | src/day11.rs:178-182 | one inspection total per monkey |
| Day11.InspectionCountsStep | src/day11.rs:180-182 | a further round adds to each monkey the items it holds at its turn of that round |
| Day11.AccumulateStep | src/day11.rs:180-182 | crediting one more round credits its counts to the map of the earlier rounds |
| Day11.CreditTallies | src/day11.rs:162 | crediting a round's counts adds them to the per-monkey totals and gives every monkey an entry |
| Day11.AccumulateMeans | src/day11.rs:178-182 | the count map holds each monkey's total over the rounds; it is empty before any round and has one entry per monkey after one |
| Day11.RunRounds | src/day11.rs:180-182 | the loop runs the rounds on the troop and returns the count map of all of them |
| Day11.MapValuesTallies | src/day11.rs:184-186 | a count map with one entry per monkey yields each monkey's total |
| Day11.DivisorProductDivides | src/day11.rs:173-176 | the product of the divisors is non-zero and a multiple of every divisor, so reducing by it never changes a test |
| Day11.ProcessRounds | src/day11.rs:172-191 | the answer is the product of the two largest inspection totals over the rounds, or 1 with no round |
| Day11.DeliverTotal | src/day11.rs:164-166 | delivering adds to the troop exactly the items in the outbound map |
| Day11.RouteTotal | src/day11.rs:122-142 | every item thrown lands in the outbound map at one of the troop's monkeys |
| Day11.TurnPreservesItems | src/day11.rs:158-167 | a turn moves items between monkeys and neither loses nor creates any |
| Day11.RoundPreservesItems | src/day11.rs:150-170 | a round keeps the number of items the troop holds |
| Day11.RoundsPreserveItems | src/day11.rs:180-182 | any number of rounds keeps the number of items the troop holds |
| Day11.ParseOpValue | src/day11.rs:37-43 | "old" reads as the old value, a number as itself, anything else panics |
| Day11.ParseOperandText | src/day11.rs:37-43 | an operand written as the input writes it reads back |
| Day11.ParseOperationRoundTrip | src/day11.rs:45-55 | an operation line as the input writes it reads back to the same operation |
| Day11.ParseExpressionText | src/day11.rs:47-54 | a '+' makes the right-hand side a sum and otherwise it is a product, read back from its two operands |
| Day11.TurnsBeforePreservesItems | src/day11.rs:158-167 | the first turns of a round keep the number of items the troop holds |
| Day11.MapValuesEmpty | src/day11.rs:184-190 | an empty count map yields no values |
| Day12.IsOutOfBounds | src/day12.rs:21-27 | a position of a valid map that is not out of bounds is one `get` can read |
| Day12.Get | src/day12.rs:21-23 | the height read is one of the map's heights |
| Day12.Neighbors | src/day12.rs:34-39 | the four candidates are exactly the positions orthogonally adjacent to `pos` |
| Day12.IndexToPos | src/day12.rs:56-60 | the position lies in a column of the map and its row-major index is the index given |
| Day12.GetLegalNeighbors | src/day12.rs:29-54 | `out` is cleared and receives, in the order left, right, up, down, each neighbour that is in bounds and at most one higher |
| Day12.FilterLegalMembers | src/day12.rs:41-53 | the filter keeps exactly the legal candidates and never more than there are candidates |
| Day12.LegalNeighborsAre | src/day12.rs:29-54 | the legal neighbours are at most four and are exactly the in-bounds orthogonal neighbours at most one higher |
| Day12.IndexToPosInverts | src/day12.rs:56-60 | `index_to_pos` inverts the row-major index of `get` |
| Day12.GetAtIndexToPos | src/day12.rs:21-23 | `get` at the position of an index reads that index |
| Day12.StartingPointsAreLowest | src/day12.rs:134-140 | every starting point of part b has height 0, and every index of height 0 gives one |
| Day12.HeightOf | src/day12.rs:85-96 | 'S', 'E' and the lower-case letters are read, as heights 0 to 25, and anything else panics |
| Day12.EndpointsHeights | src/day12.rs:86-93 | the start has the height of 'a' and the destination that of 'z' |
| Day13.DigitRun | src/day13.rs:35-42 | the digit run at the start of a string is all digits and is followed by a non-digit or the end |
| Day13.DigitRunExact | src/day13.rs:35-42 | a run of digits followed by a non-digit or the end is exactly the digit run |
| Day13.TokenizeSucceeds | src/day13.rs:28-47 | tokenizing panics exactly when the line holds a character other than a bracket, a comma or a digit |
| Day13.TokenizeDigits | src/day13.rs:33-44 | one run of digits becomes one number token carrying its decimal value |
| Day13.ScanNumber | src/day13.rs:34-43 | the inner loop reads the whole digit run from its start and leaves the index after it, and the run's tokens are one number token |
| Day13.TokenizeLine | src/day13.rs:23-50 | the character loop produces the line's tokens, or panics on an unexpected character |
| Day13.Tokenize | src/day13.rs:23-50 | tokens are no more than characters, none only for the empty line, and every number token is non-negative |
| Day13.PopAndExpect | src/day13.rs:52-55 | popping succeeds exactly when the front token is the expected one, and removes it |
| Day13.ParseList | src/day13.rs:57-85 | a parsed value is a list and leaves a strict suffix of the tokens |
| Day13.ParseItems | src/day13.rs:62-82 | the loop's value is a list and leaves a suffix of the tokens |
| Day13.ParseListTokens | src/day13.rs:57-85 | the loop over the front token, recursing on an opening bracket, parses as `ParseList` says |
| Day13.TokenizeAndParse | src/day13.rs:87-90 | the line's tokens are parsed into its first list; tokens after the list are ignored |
| Day13.StrSeqSnoc | src/day13.rs:177-182 | items after the first are written after a comma |
| Day13.StringifyList | src/day13.rs:170-187 | the loop writes a number in decimal and a list in brackets with its items separated by commas |
| Day13.StrTokens | src/day13.rs:23-50 | the text of a value tokenizes to the tokens of the value, whatever non-digit text follows |
| Day13.StrSeqTokens | src/day13.rs:23-50 | the text of a sequence of items tokenizes to their tokens with commas between them |
| Day13.ParseTokensOf | src/day13.rs:57-85 | parsing the tokens of a list yields the list and leaves what follows |
| Day13.ParseItem | src/day13.rs:74-80 | parsing one item's tokens appends the item |
| Day13.ParseItemsComma | src/day13.rs:71-73 | a comma is skipped |
| Day13.ParseItemsClose | src/day13.rs:67-70 | a closing bracket ends the list and is consumed |
| Day13.ParseItemsOf | src/day13.rs:62-82 | the tokens of a sequence of items, then a closing bracket, parse to those items |
| Day13.PrintParse | src/day13.rs:87-90 | round trip: the text `stringify_list` writes for a list of non-negative numbers parses back to the same list |
| Day13.MarkersParse | src/day13.rs:154-155 | the divider lines "[[2]]" and "[[6]]" parse to the divider packets |
| Day13.SingletonSize | src/day13.rs:110-117 | wrapping a number into a one-element list makes a value of size two |
| Day13.SizeOfItem | src/day13.rs:96-106 | an item is no larger than its list, and the rest after it is smaller |
| Day13.CompareValues | src/day13.rs:92-119 | the loop over the zipped lists with its early returns gives the comparison `Compare` describes: the first pair that differs decides, a list that runs out first is smaller, and a number is compared as a one-element list |
| Day13.Compare | src/day13.rs:92-119 | two numbers compare as integers, and the empty list is below every other list and equal to itself |
| Day13.CompareReflexive | src/day13.rs:92-119 | every packet compares equal to itself |
| Day13.CompareFlip | src/day13.rs:92-119 | swapping the operands flips the outcome |
| Day13.PrefixIsLess | src/day13.rs:103-104 | a list that is a proper prefix of another is the smaller one |
| Day13.FirstDifferenceDecides | src/day13.rs:96-102 | the first position where the items compare unequal decides |
| Day13.NumberAsSingleton | src/day13.rs:110-117 | a number compares with a list as the one-element list holding it does |
| Day13.EqualIsNotIdentity | src/day13.rs:110-117 | comparing equal is not equality: a number and its one-element list compare equal |
| Day13.RightOrderSumSwapped | src/day13.rs:121-145 | when no pair compares equal, each index counts either for the pairs or for the swapped pairs, so the two sums make n(n+1)/2 |
| Day13.RightOrderSum | src/day13.rs:121-145 | the sum is at most 1 + … + n, reaches it when every pair is in order, and is zero exactly when no pair is |
| Day13.Insert | src/day13.rs:160 | one insertion step adds the packet to the packets |
| Day13.Sort | src/day13.rs:160 | the sort is a permutation of the packets |
| Day13.InsertSorted | src/day13.rs:160 | inserting into neighbour-ordered packets keeps them neighbour-ordered |
| Day13.SortSorted | src/day13.rs:160 | after the sort, no packet compares greater than the one after it |
| Day13.Position | src/day13.rs:162-163 | `position` finds the first index holding the packet, exactly when it is there |
| Day13.KeyOfDefined | src/day13.rs:162-165 | when both dividers are present the key is the product of their 1-based positions |
| Day13.KeyOf | src/day13.rs:162-165 | a key exists exactly when both markers are in the list, and it is the product of their first 1-based positions |
| Day13.DecoderKeyDefined | src/day13.rs:147-168 | the two `unwrap` calls never panic: the sort keeps both dividers, and the key multiplies two positions between 1 and n + 2 |
| Day13.DecoderKey | src/day13.rs:147-168 | the key always exists and is the product of the 1-based positions of the two markers in the sorted packets |
| Day13.SortKeeps | src/day13.rs:160 | sorting keeps every packet and the number of packets |
| Day14.CellAt | src/day14.rs:36-44 | a cell is empty exactly when nothing is stored there and it is not on or below the floor, and it is sand exactly when sand is stored there |
| Day14.OnSegmentSymmetric | src/day14.rs:68-94 | a wall segment is the same whichever endpoint comes first |
| Day14.SegmentEnds | src/day14.rs:68-94 | both endpoints of a straight segment are walls, its lowest cell is on it, and no cell of it lies lower |
| Day14.PathTopBounds | src/day14.rs:142-146 | no wall of a path lies below the `max_y` it produces |
| Day14.PathTopAbove | src/day14.rs:46-54 | drawing walls never raises `max_y` |
| Day14.PathsTopBounds | src/day14.rs:142-146 | no wall of the paths lies below the `max_y` they produce |
| Day14.FirstFree | src/day14.rs:110-118 | the first empty candidate, every earlier candidate being taken, or none when all are taken |
| Day14.StepMoves | src/day14.rs:103-118 | a moving grain goes one row down and at most one column sideways into an empty cell, after the candidates tried before it proved taken, and nothing else changes |
| Day14.StepSettles | src/day14.rs:103-123 | a grain settles exactly when all three cells below it are taken; it is stored as sand, the next grain starts at the spawn, and `max_y` stays |
| Day14.StepKeepsWalls | src/day14.rs:103-123 | an update keeps the grid valid, never removes a stored cell, never changes a wall, and keeps `max_y` and the floor |
| Day14.Step | src/day14.rs:103-123 | a moved grain leaves the stored cells alone and lands on an empty candidate below it; a settled grain is stored and the next starts at the spawn; no cell is removed and the floor settings stay |
| Day14.FallsForever | src/day14.rs:60-62 | without a floor, a grain below `max_y` falls straight down from then on, so part a may stop there |
| Day14.NeverHeldAt | src/day14.rs:155-165 | a condition that never held fails after each of those updates |
| Day14.FirstHoldUnique | src/day14.rs:155-165 | only one update is the first after which the condition holds |
| Day14.IterateKeepsWalls | src/day14.rs:155-165 | every wall and validity last through a run of updates |
| Day14.Iterate | src/day14.rs:155-165 | a run of updates never removes a stored cell and keeps the floor settings |
| Day14.SparseGrid.constructor | src/day14.rs:27-34 | a new grid has no cells, the grain at the spawn, the given floor flag and `max_y` at `i32::MIN` |
| Day14.SparseGrid.Set | src/day14.rs:46-54 | the cell is stored, and only a wall can lower `max_y` |
| Day14.SparseGrid.SetSandPos | src/day14.rs:56-58 | only the grain's position changes |
| Day14.SparseGrid.CreateWall | src/day14.rs:68-94 | a vertical or horizontal segment becomes wall cell by cell, with `max_y` reaching its lowest row; a diagonal segment panics and draws nothing |
| Day14.SparseGrid.DrawColumn | src/day14.rs:77-79 | rows lo..=hi of the column become walls and nothing else changes but `max_y` |
| Day14.SparseGrid.DrawRow | src/day14.rs:88-90 | columns lo..=hi of the row become walls and nothing else changes but `max_y` |
| Day14.SparseGrid.UpdateGrid | src/day14.rs:103-123 | the update in place has the result and the new grid that `Step` gives |
| Day14.FirstFreeIsFirst | src/day14.rs:110-118 | the first empty candidate is the one taken |
| Day14.CreateGrid | src/day14.rs:125-149 | the grid's walls are exactly the cells of the paths and its `max_y` their lowest row; a diagonal segment panics |
| Day14.DrawPath | src/day14.rs:143-145 | the windows of one path are drawn one segment at a time |
| Day14.PathNotStraightStays | src/day14.rs:143-145 | once a segment of a path panics, the whole path does |
| Day14.NotStraightStays | src/day14.rs:142-146 | once a path panics, drawing the paths does |
| Day14.BuiltGridValid | src/day14.rs:125-149 | a grid built from straight paths that miss the spawn is valid |
| Day14.CountSettledSandUntil | src/day14.rs:151-168 | the count is the number of grains settled up to the first update after which the condition holds; a diagonal segment panics |
| Day14.IterateNext | src/day14.rs:155-160 | one more update extends the run and counts its grain when it settled |
| Day14.UpdateAndCount | src/day14.rs:156-160 | the loop body performs one update and counts a settled grain |
| Day14.HoldsAfter | src/day14.rs:162-164 | after an update the condition either holds for the first time or has still never held |
| Day14.RunUntil | src/day14.rs:155-167 | the loop stops at the first update after which the condition holds, with the number of grains settled by then |
| Day14.ParsePoints | src/day14.rs:129-139 | a path parses exactly when each of its points does, point by point |
| Day14.ParsePointText | src/day14.rs:131-137 | a point with non-negative coordinates written as `x,y` parses back to the same coordinates |
| Day15.ManhattanIsMetric | src/day15.rs:49-51 | the Manhattan distance is symmetric, zero exactly between equal points, and obeys the triangle inequality |
| Day15.ManhattanDistance | src/day15.rs:49-51 | the distance is zero exactly between equal points and bounds both coordinate differences |
| Day15.ParseLine | src/day15.rs:19-47 | a line parses exactly when its four captured numbers do; the record holds them as sensor and beacon with their Manhattan distance |
| Day15.IsCoveredBySensor | src/day15.rs:53-63 | true exactly when some sensor is at least as close to the position as to its beacon |
| Day15.EdgePoints | src/day15.rs:69-83 | as written: 4·(d+1) points, exactly the ring points at most d columns from the sensor, so the two ring points level with the sensor are missing |
| Day15.EdgePointsFull | src/day15.rs:69-83 | with the loop bound corrected: the points are exactly the ring at distance d+1 around the sensor |
| Day15.PointsOnLine | src/day15.rs:85-103 | the points are exactly the positions of the row that the sensor covers other than its beacon, left to right without repeats |
| Day15.CoveredPositions | src/day15.rs:113-116 | the set holds exactly the positions of the row that some sensor excludes |
| Day15.Day15a | src/day15.rs:105-123 | the answer is the size of the set of positions of row 2000000 that some sensor excludes |
| Day15.Day15b | src/day15.rs:125-145 | as written: a point found is one `edge_points` yields, on some sensor's ring at most d columns from it, and is covered by no sensor; none is found only when every such point is covered, so an uncovered ring point level with a sensor is missed |
| Day15.Day15bFull | src/day15.rs:125-145 | over the corrected ring: a point found lies on some sensor's ring and is covered by no sensor; none is found only when every ring point of every sensor is covered |
| Day15.RingIsOutsideOwnDiamond | src/day15.rs:69-83 | a point of a sensor's ring is not covered by that sensor |
| Ranking.SortDesc | src/day11.rs:184-188 | the sorted inspection counts are a permutation of the counts |
| Ranking.SortDescending | src/day11.rs:187-188 | and they come largest first |
| Ranking.TopTwoProductIsLargest | src/day11.rs:184-190 | with two or more counts the monkey business is the largest count times the largest of the others |
| Ranking.TopTwoProductIgnoresOrder | src/day11.rs:184-186 | the monkey business does not depend on the order the map yields its counts in |
| Strings.ParseNatToString | src/day4.rs:13-14 | `parse` of the decimal text of a number gives the number back, unsigned or signed |
| Strings.ParseNegative | src/day9.rs:60 | `parse` of a minus sign followed by the decimal text of n gives -n |
| Strings.FindChar | src/day4.rs:9 | the first occurrence of a character, or none exactly when it is absent |
| Strings.SplitOnce | src/day4.rs:9-12 | `split_once` on a character gives the text before its first occurrence and the text after, joined back by the separator |
| Strings.SplitOnceJoin | src/day4.rs:9-12 | splitting a pair joined at a separator absent from its left part gives the pair back |
| Strings.FindFrom | src/day11.rs:46 | the first occurrence of a string separator at or after an index, or none when there is none |
| Strings.SplitOnceStr | src/day11.rs:46 | `split_once` on a string gives the two sides of the first occurrence of the separator |
| Strings.SplitJoinedWords | src/day11.rs:58-61 | splitting two words joined by a separator whose first character neither contains gives the two words |
| Strings.Words | src/day7.rs:87 | `split_whitespace` yields only nonempty pieces without whitespace |
| Strings.WordsOfJoin | src/day7.rs:106 | `split_whitespace` gives back the words that were joined by spaces |
| Day16.CreateInitial | src/day16.rs:146-155 | the initial state is at time 1 on the given valve with nothing released and no valve open |
| Day16.FlowSumAdd | src/day16.rs:182-192 | adding one more id to the ids summed adds exactly that valve's flow when it is open |
| Day16.FlowSumEmpty | src/day16.rs:182-192 | summing over no ids gives no flow |
| Day16.NothingOpenNoFlow | src/day16.rs:182-192 | with nothing open the flow rate is 0 |
| Day16.ComputeFlowRate | src/day16.rs:182-192 | the loop over the map's entries gives the total flow of the open valves, whatever order it visits them in |
| Day16.PerformAction | src/day16.rs:157-176 | one step adds the flow open before it to the released pressure and advances the time by one; `Move` changes only the current valve, `Open` sets only the current valve's bit |
| Day16.Actions | src/day16.rs:229-243 | `Open` is offered exactly on a closed positive-flow valve, and a `Move` exactly for each tunnel |
| Day16.CollectActions | src/day16.rs:229-243 | the pushes build `Open` first when offered, then one `Move` per tunnel in tunnel order |
| Day16.ActionsStayInGraph | src/day16.rs:232-240 | a legal `Move` leads to a valve of the graph, and a legal `Open` is on a closed positive-flow valve |
| Day16.CreateUsefulValvesMask | src/day16.rs:195-205 | bit i of the mask is set exactly when valve i exists and has positive flow; with no such valve the mask is empty |
| Day16.Successor | src/day16.rs:251 | after a legal action the state is on a valve of the graph and no later than time 31 |
| Day16.Value | src/day16.rs:207-261 | the value of a state is never less than the pressure it has already released |
| Day16.BestSuccessor | src/day16.rs:247-256 | the maximum over successors is never less than the pressure already released |
| Day16.CacheInsert | src/day16.rs:258 | inserting the exact value of a state keeps every cached score exact |
| Day16.SettledScore | src/day16.rs:220-223 | once the open set equals the mask, the score is the released pressure plus the current flow for every remaining step, which is the state's value |
| Day16.Solve | src/day16.rs:207-261 | the memoised search returns the exact value of the state (its released pressure at time 31) and adds only exact scores to the cache |
| Day16.MaxOverActions | src/day16.rs:247-256 | the maximum over the recursively solved successors of all legal actions, with the cache kept exact |
| Day16.Day16a | src/day16.rs:263-275 | the answer is the value of the initial state at the start valve under the mask of exactly the useful valves |
| Day16.BestSuccessorIsUpper | src/day16.rs:247-256 | no successor among the first n does better than their maximum |
| Day16.BestSuccessorBounds | src/day16.rs:247-256 | the j-th successor is at most the maximum of the first n |
| Day16.BestSuccessorIsAttained | src/day16.rs:247-256 | some successor among the first n attains their maximum |
| Day16.ValueIsMaxOverActions | src/day16.rs:229-260 | before time 31 and before the useful valves are all open, the value is the best successor value: no legal action does better and some legal action attains it |
| Day16.StepKeepsOpenWithinMask | src/day16.rs:234-236 | a legal step never opens a valve outside the useful mask |
| Day16.ShortCircuitMeansAllUsefulOpen | src/day16.rs:220 | when the open set equals the useful mask, every positive-flow valve is open |
| Day16.NoUsefulValvesYieldsZero | src/day16.rs:214-223 | a graph without positive-flow valves has value 0 from the initial state |
| Bits32.ZeroMeansNoBit | src/day16a.rs:105-107 | a word is 0 exactly when none of its 32 bits is set |
| Bits32.New | src/day16a.rs:93-95 | a new bit set has no bit set |
| Bits32.GetIsMaskTest | src/day16a.rs:105-107 | reading bit i is the test `bits & (1 << i) != 0` |
| Bits32.Set | src/day16a.rs:97-103 | after `set`, bit i reads the value given and every other bit is unchanged, as the tests at src/day16a.rs:120-137 expect |
| Bits32.SetIsMaskUpdate | src/day16a.rs:97-103 | the new word is `bits \| (1 << i)` when setting and `bits & !(1 << i)` when clearing |
| Bits32.XorIsZeroMeansSame | src/day16a.rs:265 | `a ^ b == 0` holds exactly when the two sets are equal |
| Bits32.CountOnesBelow | src/day16b.rs:265 | at most n of the bits below n are set |
| Bits32.CountOnesWithin | src/day16b.rs:265 | with the set bits in 1..k, the count below n is at most min(n-1, k), and reaches it exactly when all of those bits are set |
| Bits32.CountOnesIsFull | src/day16b.rs:265 | with the set bits in 1..k, `count_ones() == k` exactly when every bit of 1..k is set |
| Bits64.New | src/day16.rs:84-86 | a new 64-bit set has no bit set |
| Bits64.Set | src/day16.rs:88-94 | after `set`, bit i reads the value given and every other bit is unchanged, as the tests at src/day16.rs:111-128 expect |
| Bits64.XorIsZeroMeansSame | src/day16.rs:220 | `a ^ b == 0` holds exactly when the two sets are equal |
| ValveGraph.CountUseful | src/day16a.rs:50-60 | at most n of the first n lines are useful |
| ValveGraph.Resolve | src/day16a.rs:67-70 | each tunnel name is replaced by its id, in order |
| ValveGraph.ParseInput | src/day16a.rs:26-85 | `parse_input` succeeds exactly when every tunnel name and "AA" name a line; it returns the valves keyed by their line ids, the id of "AA" and the number of useful valves |
| ValveGraph.CountUsefulMonotone | src/day16a.rs:50-60 | the useful count only grows along the lines, by at most one per line |
| ValveGraph.LineIdRange | src/day16a.rs:36-37 | useful lines get ids 1..k and useless lines ids from 32 on, k being the useful count |
| ValveGraph.LineIdsDistinct | src/day16a.rs:50-60 | with at most 31 useful valves no two lines get the same id |
| ValveGraph.NameMapValues | src/day16a.rs:53-58 | every name in the name map is some line's name, mapped to that line's id |
| ValveGraph.NameMapKeys | src/day16a.rs:53-58 | every line's name is in the name map |
| ValveGraph.ValvesAfterEntries | src/day16a.rs:66-80 | every key of the valve map is a line's id holding that line's valve, and every line's id is a key |
| ValveGraph.ValvesAfterContents | src/day16a.rs:66-80 | with at most 31 useful valves, each line's valve is stored under its own id |
| ValveGraph.ParsedGraphWellFormed | src/day16a.rs:26-85 | a parsed graph stores each valve under its own id, every valve has a tunnel, every tunnel leads to a valve of the map, useful valves have ids 1..k, and "AA" is a valve |
| ValveGraph.UsefulLineReached | src/day16a.rs:55-58 | every count below the useful count is the count just before some useful line |
| ValveGraph.ParsedUsefulIds | src/day16a.rs:36-84 | with at most 31 useful lines the useful valves of the parsed graph are exactly the ids 1..k, k being the returned count |
| ValveState.CreateInitial | src/day16a.rs:156-166 | the initial state is at time 1 with nothing released and nothing open; a missing helper cursor sits at id 0 |
| ValveState.IsValveOpen | src/day16a.rs:206-212 | ids from 32 on are never open |
| ValveState.FlowSumAdd | src/day16a.rs:214-224 | adding one more id to the ids summed adds exactly that valve's flow when its open status matches |
| ValveState.FlowSumEmpty | src/day16a.rs:214-224 | summing over no ids gives no flow |
| ValveState.OpenPlusClosedBelow | src/day16a.rs:226-233 | the open and the closed flows below n add up to the total flow below n |
| ValveState.OpenPlusClosed | src/day16a.rs:226-233 | the open and the closed valves together carry all the flow |
| ValveState.FlowSumAbove32 | src/day16a.rs:206-209 | ids from 32 on add no open flow |
| ValveState.FlowRateBelow32 | src/day16a.rs:206-224 | the flow rate is the flow of the open valves with ids below 32 |
| ValveState.NothingOpenNoFlow | src/day16a.rs:214-224 | with nothing open the flow rate is 0 |
| ValveState.ComputeFlowRate | src/day16a.rs:214-224 | the loop over the map's entries gives the total flow of the open valves, whatever order it visits them in |
| ValveState.ComputeClosedFlow | src/day16a.rs:229-233 | the second loop gives the total flow of the valves not open |
| ValveState.ComputeUpperBound | src/day16a.rs:226-237 | the bound is the released pressure plus every valve's flow for each remaining round, and never below what the current flow alone would still release |
| ValveState.PerformActions | src/day16a.rs:168-204 | one step adds the flow open before it and advances the time by one; each cursor moves along its `Move`, and an `Open` sets exactly the bit of that cursor's valve |
| ValveState.Moves | src/day16a.rs:283-285 | one `Move` per tunnel, in tunnel order |
| ValveState.Actions | src/day16a.rs:274-288 | `Open` is offered exactly on a closed positive-flow valve, and a `Move` exactly for each tunnel |
| ValveState.CollectActions | src/day16a.rs:274-288 | the pushes build `Open` first when offered, then one `Move` per tunnel in tunnel order |
| ValveState.ActionsStayInGraph | src/day16a.rs:277-285 | a legal `Move` leads to a valve of the graph, and a legal `Open` is on a closed positive-flow valve below 32 |
| Day16a.CreateUsefulValvesMask | src/day16a.rs:240-250 | bit i of the mask is set exactly when valve i exists and has positive flow; with no such valve the mask is empty |
| Day16a.Successor | src/day16a.rs:294 | after a legal action, with the helper idle, the state is on a valve of the graph and no later than time 31 |
| Day16a.Value | src/day16a.rs:252-304 | the value of a state is never less than the pressure it has already released |
| Day16a.BestSuccessor | src/day16a.rs:290-299 | the maximum over successors is never less than the pressure already released |
| Day16a.CacheInsert | src/day16a.rs:301 | inserting the exact value of a state keeps every cached score exact |
| Day16a.SettledScore | src/day16a.rs:265-268 | once the open set equals the mask, the score is the released pressure plus the current flow for every remaining step, which is the state's value |
| Day16a.SolveA | src/day16a.rs:252-304 | the memoised search returns the exact value of the state (its released pressure at time 31) and adds only exact scores to the cache |
| Day16a.MaxOverActions | src/day16a.rs:290-299 | the maximum over the recursively solved successors of all legal actions, with the cache kept exact |
| Day16a.Day16a | src/day16a.rs:306-318 | the answer is the value of the initial state at the start valve under the mask of exactly the useful valves |
| Day16a.BestSuccessorIsUpper | src/day16a.rs:290-299 | no successor among the first n does better than their maximum |
| Day16a.BestSuccessorBounds | src/day16a.rs:290-299 | the j-th successor is at most the maximum of the first n |
| Day16a.BestSuccessorIsAttained | src/day16a.rs:290-299 | some successor among the first n attains their maximum |
| Day16a.ValueIsMaxOverActions | src/day16a.rs:274-303 | before time 31 and before the useful valves are all open, the value is the best successor value: no legal action does better and some legal action attains it |
| Day16a.StepKeepsOpenWithinMask | src/day16a.rs:279-281 | a legal step never opens a valve outside the useful mask |
| Day16a.ShortCircuitMeansAllUsefulOpen | src/day16a.rs:265 | when the open set equals the useful mask, every positive-flow valve below 32 is open |
| Day16a.NoUsefulValvesYieldsZero | src/day16a.rs:259-268 | a graph without positive-flow valves has value 0 from the initial state |
| Day16b.RowMembers | src/day16b.rs:314-331 | a pair is kept for my action exactly when its helper action is offered and the filter allows it |
| Day16b.PairsMembers | src/day16b.rs:312-332 | a pair is expanded exactly when both its actions are offered and the filter allows it |
| Day16b.FilterRemovesExactly | src/day16b.rs:318-331 | the filter drops exactly the pairs moving through the same tunnel and the pairs both opening while on the same valve |
| Day16b.CollectPairs | src/day16b.rs:312-332 | the nested loops build the kept pairs row by row, in the order of my actions and then the helper's |
| Day16b.Step | src/day16b.rs:334 | after a kept pair both cursors are on valves of the graph and the time is at most 27 |
| Day16b.PairStaysInGraph | src/day16b.rs:277-309 | both actions of a kept pair are legal: a move follows a tunnel and an open happens on a valve that has a bit |
| Day16b.BestPairIsUpper | src/day16b.rs:333-346 | no pair among the first n does better than their maximum |
| Day16b.BestPairIsAttained | src/day16b.rs:333-346 | some pair among the first n attains their maximum |
| Day16b.Value2IsMaxOverPairs | src/day16b.rs:312-346 | an expanded state is worth the best of its kept pairs: none does better, one attains it, and with no pair the value is 0 |
| Day16b.StepValueBounded | src/day16b.rs:333-346 | no kept pair leads to a better value than its parent's |
| Day16b.StepKeepsBound | src/day16b.rs:234-245 | the upper bound of a successor is not above that of its parent |
| Day16b.BestPairWithinBound | src/day16b.rs:271-275 | the best of the pairs stays within the parent's upper bound |
| Day16b.UpperBoundAdmissible | src/day16b.rs:234-245 | `futher_score_upper_bound` is admissible: no continuation releases more |
| Day16b.PrunedBranchIsWorse | src/day16b.rs:271-275 | a branch cut because its bound is below the best score could not have beaten that score |
| Day16b.StepKeepsBitsWithin | src/day16b.rs:283-302 | a step only opens valves with ids in 1..k when the useful valves have ids in 1..k |
| Day16b.CountOnesMeansAllUsefulOpen | src/day16b.rs:265 | with the useful valves exactly 1..k, `count_ones() == k` holds exactly when every useful valve is open |
| Day16b.CacheInsert | src/day16b.rs:348 | inserting a score that is at most the exact value, and short of it only below the best score, keeps the cache sound |
| Day16b.CacheSoundRaise | src/day16b.rs:350-352 | raising the best score keeps the cache sound |
| Day16b.SettledScore | src/day16b.rs:265-269 | once k valves are open, the score is the released pressure plus the current flow for every remaining round, which is the state's value |
| Day16b.SolveB | src/day16b.rs:248-355 | the score never exceeds the state's exact value and falls short of it only where the new best score reaches it; the best score only rises, and only to a score returned; the cache stays sound |
| Day16b.MaxOverPairs | src/day16b.rs:277-346 | the maximum over the solved successors of the kept pairs, with the same guarantees as `solve_b` |
| Day16b.SolvePair | src/day16b.rs:333-344 | one kept pair performed and its successor solved, with the guarantees of `solve_b` for the successor |
| Day16b.MaxStep | src/day16b.rs:345-346 | the running maximum and the best score still cover every pair seen after one more child |
| Day16b.Day16b | src/day16b.rs:357-393 | with the best score starting at 0, pruning and caching lose nothing: the answer is the exact value of the initial state with both agents on AA |
| Day16Graph.InsertFacts | src/day16.rs:45-49 | `or_insert_with` keeps every known id, keeps the ids below the number of names, and makes the name known |
| Day16Graph.InsertAllFacts | src/day16.rs:53-61 | inserting the tunnel names keeps every known id and makes each of them known, adding no other name |
| Day16Graph.LineIdsFacts | src/day16.rs:39-61 | after a line its name and every tunnel name are known, and no other name is added |
| Day16Graph.NameMapBounded | src/day16.rs:35-71 | every id is below the number of names |
| Day16Graph.InsertKeepsDistinct | src/day16.rs:45-49 | inserting a name keeps the ids distinct |
| Day16Graph.InsertAllKeepsDistinct | src/day16.rs:53-58 | inserting the tunnel names keeps the ids distinct |
| Day16Graph.NameMapDistinct | src/day16.rs:35-71 | the ids are distinct and below the number of names, so they are exactly 0 to the number of names minus one |
| Day16Graph.InsertAllPrefix | src/day16.rs:53-58 | inserting more names keeps every id already given |
| Day16Graph.NameMapGrows | src/day16.rs:39-71 | the names known after i lines keep their ids after any later line |
| Day16Graph.NameCountGrows | src/day16.rs:39-71 | the number of names only grows |
| Day16Graph.NameMapHasName | src/day16.rs:39-61 | a name gets an id exactly when some line names it or lists it as a tunnel |
| Day16Graph.FirstMentionGetsNextId | src/day16.rs:45-49 | a name met for the first time gets the number of names known before it |
| Day16Graph.Lookup | src/day16.rs:54-60 | each tunnel name becomes its id, in order |
| Day16Graph.LookupOrInsert | src/day16.rs:45-49 | a known name keeps its id; a new name gets the counter, which then counts the names; it panics exactly when a new name meets the counter at 255 |
| Day16Graph.OverflowIsFinal | src/day16.rs:54-58 | an overflow while reading a line means the names after that line exceed 255 |
| Day16Graph.ReadLine | src/day16.rs:40-68 | one line numbers its name and then its tunnels on first sight and yields its valve with those ids; it panics only when the line brings the names past 255 |
| Day16Graph.ParseInput | src/day16.rs:25-76 | `parse_input` succeeds exactly when the input has at most 255 names and mentions "AA"; it returns the valves line by line and the id of "AA" |
| Day16Graph.AddLine | src/day16.rs:39-71 | one pass of the loop stores the line's valve, or fails only when the whole input has more than 255 names |
| Day16Graph.LineValveIsFinal | src/day16.rs:39-71 | the ids a line sees when it is read are its final ids |
| Day16Graph.ValvesOfEntry | src/day16.rs:70 | every valve in the map is the valve of one of the lines read, under that valve's id |
| Day16Graph.ValvesOfHasLine | src/day16.rs:70 | every line read has its valve's id in the map |
| Day16Graph.ParsedValves | src/day16.rs:25-76 | the parsed map is keyed by exactly the ids of the line names, and each entry is the valve of a line with that name, with its flow and its tunnels' final ids |

## Left out

- `main.rs` dispatch, the `include_str!` inputs, `println!` output and `Instant` timing are I/O and clocks. Each entry point takes its input as a parameter, already split into lines or fields.
- Input readers outside the puzzle logic (`read_input` and `parse_input` of `src/day1.rs`, `src/day3.rs`, `src/day6.rs`, `src/day8.rs`, `src/day9.rs` and `src/day10.rs`, and `parse_starting_items`, `parse_divisible`, `parse_divisible_result` and `parse_input` of `src/day11.rs`) only split and read numbers. The models start from the parsed values, such as a height grid, a list of instructions or a list of monkeys.
- Regex matching in `src/day5.rs`, `src/day15.rs` and the three day 16 files is text matching by a foreign library. The models start from the captured fields; the id assignment that follows the match is modelled.
- Concurrency is not modelled: rayon's `par_iter`, `DashMap`, `Arc`, the `AtomicU16` best score and the progress thread of `src/day16b.rs`. Each search runs sequentially and threads one cache map and one best score through the calls. A parallel run explores the same states in a different order.
- Day15.Day15b: `find_any` may return any uncovered point of `edge_points` of any sensor. The model searches the sensors in order, and its contract holds for every point it could return.
- The `static OnceCell` mask of `solve` and `solve_a` is a parameter, computed once by the entry point.
- `pathfinding::bfs` of `src/day12.rs`, with `day12a`, `day12b` and `print_path`, is a foreign library. Only the graph it searches is modelled: the neighbour relation, row-major indexing and the height of each character.
- Rendering is left out: `render_grid` of `src/day14.rs`, the screen printing of `src/day10.rs` and the `Debug` impls of the bitsets. The screen is modelled as an array of lit pixels.
- Fixed integer widths are not modelled: `u16` released pressure and flow, `usize` counts, `i32` and `i64` coordinates, and the worry levels of day 11. Integers are unbounded. The exceptions are the `u8` id counters of the day 16 parsers, `i32::MIN` as the first `max_y` of day 14, the 32 and 64 bits of the bitsets, and the two unsigned subtractions of `day7b` (`src/day7.rs:189-190`). Their underflow is modelled as a debug build's panic, so `Day7.SmallestToRemove` answers only when the tree takes from 40,000,000 to 70,000,000. Above 70,000,000 a release build wraps around to the same `min_delete_size` that unbounded integers give and prints an answer, where the model returns None.
- Day7.SmallestToRemove: follows a debug build, where `70000000 - total_size` panics for a tree above 70,000,000. It does not model a release build's wrap-around, which would answer there.
- Bits64.Get: a `u64` is modelled as two 32-bit halves.
- Day16.Day16a: requires every valve id below 64, where `1 << index` would overflow a `u64`; it does not model that panic.
- Day16a.Day16a: requires every positive-flow valve to have an id below 32, where `1 << index` would overflow a `u32`. With 32 or more useful valves the source's ids also collide with the useless ids from 32 on.
- Day16b.Day16b: has the same requirement. It takes the useful count as a parameter; `ValveGraph.ParsedUsefulIds` and `Day16b.CountOnesMeansAllUsefulOpen` tie it to the parsed graph.
- ValveGraph.ParseInput: requires at most 223 lines instead of modelling the panic of the `u8` counters, which 224 useless lines would reach.
- The `ArrayVec<Action, 6>` capacity panic for a valve with more than five tunnels is not modelled: the action lists are sequences without a bound.
- Day14.CountSettledSandUntil: the run is bounded by a `fuel` count of updates, and `None` stands for running out of fuel. Termination of the source's loop for arbitrary walls is not claimed.
- Day14.ParsePointText: the round trip is stated for non-negative coordinates. Parsing itself accepts the signed numbers of `str::parse`, without the `i32` width check.
- Day13.SortSorted: `sort_by(compare_values)` is modelled as an insertion sort. It is proved to be a permutation with each packet ordered against the next. `compare_values` is not proved transitive, so the order is stated between neighbours only; the decoder key needs only the positions of the two dividers.
- Day11.MapValues: `inspections.values()` iterates a `HashMap` in an arbitrary order, and the model takes key order. `Ranking.TopTwoProductIgnoresOrder` proves the answer is the same for every order.
- Day3.ScoreChar: `char::is_uppercase` is modelled for 'A'..'Z' only. A non-ASCII uppercase letter such as 'Ä' scores `ch - 'A' + 27` in the source and `ch - 'a' + 1` in the model. Dafny has no Unicode case table, and puzzle lines hold only ASCII letters, where the two agree.
- Day3.Day3a: the item comes out of a hash-set intersection in an unspecified order. The model accepts any common item, and `Day3.SumIsDetermined` shows the answer is the same whenever the common item is unique.
- `util.rs` `to_set` is set formation and becomes a set comprehension.
- Strings.Words: `split_whitespace` is modelled for the ASCII whitespace characters only.
- The day 7 folder tree is a value. `get_folder_mut` followed by an update in place is modelled as `Day7.ModifyAt`, which rebuilds the path to the changed folder.

## Findings

| source | as written | input that shows it | evidently intended | confidence | as-written member | corrected member |
|---|---|---|---|---|---|---|
| src/day15.rs:74 | `for x in 0..distance` with `distance = sensor.distance + 1` stops at x = d, so `edge_points` never yields the two ring points level with the sensor, (sx ± (d+1), sy), and yields the points at x = 0 twice | a sensor at (0, 0) whose beacon is at (0, 0): d = 0, and the points are (0, 1), (0, -1), (0, 1), (0, -1), but not (1, 0) or (-1, 0) | `0..=distance`: every point at distance d+1, so `day15b` also finds an uncovered point that lies level with a sensor | medium, not executed | Day15.EdgePoints, Day15.Day15b | Day15.EdgePointsFull, Day15.Day15bFull |
