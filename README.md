# Advent of Code 2020, in Dafny

This project models the twenty-five puzzle solutions of the `adventofcode2020` Rust repository, `src/bin/day1.rs` to `src/bin/day25.rs`, and proves what each one computes. Each day is a Dafny module (`Day1` … `Day25`). Day 20 is split into eight modules: parsing and orientations, corners, assembly search, final image, image transforms, monster sweep, search, and part 2 end to end. Day 21's output step is a module of its own. Shared modules hold an `Option` type (`Wrappers`), character classes and the standard library's number and string parsing (`Text`), a few arithmetic facts (`Arith`) and bit helpers (`Bits`).

How the Rust code maps onto Dafny:

- Pure computations (folds, iterator chains, recursion) are functions with contracts.
- Loops that update variables are methods with `while` loops and invariants. Each method is proved equal to a specification function.
- Structs whose methods update their fields in place (`BagGraph` on day 7, the handheld `State` on day 8, `Tokenizer` on day 18, `CupIterator` on day 23) are classes.
- Fixed-size buffers that the Rust code writes in place (the day 5 seat table, the day 11 grids, the day 20 picture, the day 23 successor table) are arrays.
- Every `unwrap`, `expect`, `assert_eq!`, `unreachable!` or index that could panic becomes an `Option` or an error constructor in the result.
- Loops that the Rust code runs without a bound take a `fuel` parameter and report when it runs out.
- Integers are unbounded. Where Rust's fixed-width arithmetic matters (the 36-bit masks of day 14, the `u16` edges of day 20, `str::parse` overflow), it is written out.

## Model

| member | source | states |
|---|---|---|
| `Day1.SolveN` | src/bin/day1.rs:28-42 | a product is found only for `1 <= count <= \|input\|`: a combination needs `count` distinct positions |
| `Day1.SolveFrom` | src/bin/day1.rs:34-39 | the loop from index `i` finds a product only for `2 <= count` and at most as many entries as remain from `i` |
| `Day1.SolveNSound` | src/bin/day1.rs:28-42 | every `Some(r)` that `solve_n` returns is the product of `count` entries at strictly increasing positions whose sum is `sum` |
| `Day1.SolveFromSound` | src/bin/day1.rs:34-39 | the same for the `for i` loop resumed at any index: a found product comes from a combination summing to `sum` |
| `Day1.SolveNComplete` | src/bin/day1.rs:28-42 | when some combination of `count >= 1` entries sums to `sum`, `solve_n` finds one (never `None`) |
| `Day1.SolveFromReaches` | src/bin/day1.rs:34-39 | the loop reaches every later index: if the sub-search after index `j` succeeds, the loop started at `i <= j` succeeds |
| `Day1.FirstIndex` | src/bin/day1.rs:30 | the position of the first occurrence of the entry searched for by `contains` |
| `Day1.ShiftLex` | src/bin/day1.rs:34-39 | shifting two index tuples by the same offset keeps their lexicographic order |
| `Day1.Tail` | src/bin/day1.rs:34-39 | a combination of two or more entries is its first index followed by a combination of the later entries summing to the rest |
| `Day1.Cons` | src/bin/day1.rs:35-38 | index `i` followed by a combination of the entries after it summing to `sum - input[i]` is a combination summing to `sum`, with product `input[i]` times theirs |
| `Day1.SolveNLeast` | src/bin/day1.rs:28-42 | `solve_n` returns the product of the lexicographically least combination of `count` increasing positions summing to `sum` |
| `Day1.SolveFromLeast` | src/bin/day1.rs:34-39 | the loop from index `i`, when no combination starts before `i`, returns the product of the lexicographically least combination |
| `Day1.FoundLeast` | src/bin/day1.rs:35-38 | when no combination starts before `i`, index `i` followed by the least combination after it is the least combination |
| `Day1.SkipIndex` | src/bin/day1.rs:34-39 | when the search after index `i` fails, no combination starts at `i`, so the loop loses nothing by moving on |
| `Day1.SingleEntry` | src/bin/day1.rs:29-32 | with `count == 1` the result is `Some(sum)` exactly when `sum` is an entry, `None` otherwise |
| `Day1.ExamplePairs` | src/bin/day1.rs:53-56 | the example report gives 514579 for two entries |
| `Day1.ExampleTriples` | src/bin/day1.rs:58-61 | the example report gives 241861950 for three entries |
| `Day2.Split` | src/bin/day2.rs:10 | splitting on '-', ':' and ' ' gives at least one piece and no piece holds a separator |
| `Day2.DropEmpty` | src/bin/day2.rs:11 | the filter keeps only non-empty pieces, each one of the original pieces |
| `Day2.Identifiers` | src/bin/day2.rs:9-11 | the identifiers are non-empty, separator-free and together spell exactly the line's non-separator text |
| `Day2.SplitKeepsText` | src/bin/day2.rs:10 | the split pieces concatenated are the line without its separators |
| `Day2.DropEmptyConcat` | src/bin/day2.rs:11 | dropping empty pieces loses no text |
| `Day2.Parse` | src/bin/day2.rs:8-22 | a line parses exactly when it has at least four identifiers, the first two read as numbers and the third is one character; then the policy is those two numbers and that character, and the fourth identifier is the password; `None` exactly where an `unwrap` panics |
| `Day2.IsValidPassword` | src/bin/day2.rs:24-28 | valid exactly when the number of occurrences of the character lies in `lo ..= hi` |
| `Day2.IsValidPassword2` | src/bin/day2.rs:30-34 | `None` exactly when a 1-based position is 0 or past the end; otherwise valid exactly when one of the two positions holds the character |
| `Text.Count` | src/bin/day2.rs:27 | the filtered count equals the multiplicity of the character in the password |
| `Text.ParseUnsigned` | src/bin/day2.rs:15-16 | `str::parse::<usize>` succeeds exactly on an optional '+' and ASCII digits whose value fits 64 bits, and gives that value |
| `Day3.CountTrees` | src/bin/day3.rs:17-32 | `None` on an empty map or empty first row (where `input[0]` panics or `% width` divides by zero); otherwise the trees met at rows `dy, 2dy, ...` and columns wrapping modulo the width, which is at most `height - 1` |
| `Day3.TreesBound` | src/bin/day3.rs:22-31 | the walk meets at most one tree per row it visits |
| `Day4.KeyOf` | src/bin/day4.rs:29-38 | a field name selects the key with that name; `None` exactly when no key has it (the `panic!` arm) |
| `Day4.Set` | src/bin/day4.rs:30-37 | one assignment sets the chosen field to the value and keeps every other field |
| `Day4.ApplyField` | src/bin/day4.rs:25-39 | a field is accepted exactly when it has a ':' and a known key; the key's field then takes the text between the first and second ':' |
| `Day4.ApplyFieldsSome` | src/bin/day4.rs:24-40 | a line is accepted exactly when every one of its space-separated fields is well formed |
| `Day4.ApplyFieldsStuck` | src/bin/day4.rs:24-40 | once a field panics, the rest of the line cannot recover the passport |
| `Day4.Parsed` | src/bin/day4.rs:15-43 | parsing yields one passport more than there are empty lines |
| `Day4.ParsedSome` | src/bin/day4.rs:15-43 | parsing panics exactly when some non-empty line holds a malformed field or an unknown key |
| `Day4.ParsedStuck` | src/bin/day4.rs:18-41 | a panic on an early line is a panic of the whole parse |
| `Day4.ParsedNext` | src/bin/day4.rs:18-41 | one more line: an empty line pushes a fresh passport, any other line updates the last passport or panics |
| `Day4.ApplyLine` | src/bin/day4.rs:24-40 | the field loop over the line split at spaces ends with the passport those fields specify |
| `Day4.ApplyEach` | src/bin/day4.rs:24-40 | the loop, updating the passport in place field by field, ends with the passport the fields specify, or `None` where a field fails |
| `Day4.ParsePassports` | src/bin/day4.rs:15-43 | the line loop returns exactly the passports (or the panic) the lines specify |
| `Day4.IsValidDateRange` | src/bin/day4.rs:45-54 | true exactly for four digits whose value lies in `min ..= max` |
| `Day4.IsValidHeight` | src/bin/day4.rs:94-108 | true exactly for digits followed by "cm" with value 150..=193 or by "in" with value 59..=76 |
| `Day4.IsValidHairColor` | src/bin/day4.rs:110 | true exactly for '#' followed by six lower-case hex digits |
| `Day4.EyeColorNames` | src/bin/day4.rs:114 | the seven colour names pass the eye-colour pattern |
| `Day4.EyeColorLoose` | src/bin/day4.rs:114 | the unanchored middle alternatives also pass longer texts such as "ambx", "xoth" and "xblux" |
| `Day4.EyeColorAnchored` | src/bin/day4.rs:114 | "xamb" and "othx" fail: the anchors bind to the first and last names |
| `Day4.IsValidPassportId` | src/bin/day4.rs:118 | an id passes `^\d{9}$` exactly when it is nine characters long and every one is a digit |
| `Day4.RequiredFieldsPresent` | src/bin/day4.rs:57-65 | true exactly when every field except `cid` is set |
| `Day4.RequiredFieldsValid` | src/bin/day4.rs:67-123 | a passport is valid exactly when its required fields are present, the birth, issue and expiry years are four digits in 1920–2002, 2010–2020 and 2020–2030, the height passes the cm/in check, the hair colour is `#` and six lowercase hex digits, the eye colour passes the loosely anchored regex, and the id is nine digits |
| `Day4.ValidCountBound` | src/bin/day4.rs:130-143 | solution 2 never exceeds solution 1 |
| `Day4.CountWhere` | src/bin/day4.rs:132-135 | `filter(f).count()` is at most the number of passports |
| `Day4.CountWhereMeans` | src/bin/day4.rs:132-135 | `filter(f).count()` is the number of positions holding a passport that passes `f` |
| `Day4.CountPresentMeans` | src/bin/day4.rs:130-136 | solution 1 is the number of passports with every required field present |
| `Day4.CountValidMeans` | src/bin/day4.rs:137-143 | solution 2 is the number of passports whose required fields are valid |
| `Day4.CountWhereStricter` | src/bin/day4.rs:130-143 | a test that implies another passes no more passports |
| `Day5.BinarySpaceId` | src/bin/day5.rs:47-59 | a decoded id always lies in `min ..= max`; `None` where the directions run out or a letter is `unreachable!` |
| `Day5.BinarySpaceIdIsBinary` | src/bin/day5.rs:47-59 | on a range of `2^n` seats the partition reads the first `n` letters as a binary number (upper letter = 1), and fails exactly when fewer than `n` letters remain or one is foreign |
| `Day5.SpaceIsPrefix` | src/bin/day5.rs:52-58 | the recursion consumes exactly the first `n` letters, one per halving |
| `Day5.SpaceStep` | src/bin/day5.rs:54-57 | one letter keeps the lower half for the lower letter and the upper half for the upper letter |
| `Day5.PrefixIsBinary` | src/bin/day5.rs:52-58 | reading `n` letters one by one is the binary value of those letters |
| `Day5.BoardingPassToId` | src/bin/day5.rs:25-45 | every decoded seat id is below 1024 |
| `Day5.BoardingPassIsBinary` | src/bin/day5.rs:25-45 | a well-formed pass is `row * 8 + column`, the ten letters read as one binary number with B and R as 1 |
| `Day5.Min` | src/bin/day5.rs:5 | `min()` is an id no larger than any id |
| `Day5.Max` | src/bin/day5.rs:6 | `max()` is an id no smaller than any id |
| `Day5.MarkTaken` | src/bin/day5.rs:10-13 | entry `k` of the table is set exactly when `min + k` is an id |
| `Day5.SingleGap` | src/bin/day5.rs:14-16 | a result is the only unset entry; `None` exactly when no entry or more than one is unset (the `unwrap` or the `assert!` fails) |
| `Day5.FindMissingSeat` | src/bin/day5.rs:5-16 | solution 2 exists exactly when exactly one seat between the least and greatest id is free, and it is that seat |
| `Day6.Answers` | src/bin/day6.rs:18 | a person's answer set holds exactly the characters of the line |
| `Day6.Grouped` | src/bin/day6.rs:8-21 | parsing yields one group more than there are empty lines |
| `Day6.GroupedPeople` | src/bin/day6.rs:11-19 | every non-empty line is exactly one person: the people number the lines minus the empty ones |
| `Day6.ParseGroups` | src/bin/day6.rs:8-21 | the loop, pushing into the last group in place, returns exactly the groups the lines specify |
| `Day6.Union` | src/bin/day6.rs:29-34 | a question is in the fold's union exactly when some person of the group answered it |
| `Day6.Intersection` | src/bin/day6.rs:42-46 | `None` exactly for an empty group; otherwise a question is in it exactly when every person answered it |
| `Day6.IntersectFrom` | src/bin/day6.rs:45 | the fold from the first person keeps exactly the answers common to it and every later person |
| `Day6.IntersectionWithinUnion` | src/bin/day6.rs:40-48 | what everyone answered somebody answered, so a group's part-2 count is at most its part-1 count |
| `Day6.CountsOrdered` | src/bin/day6.rs:27-48 | solution 2 never exceeds solution 1 |
| `Day7.PushBack` | src/bin/day7.rs:88-90 | pushing each rule id onto the back leaves the queue followed by the ids, in order |
| `Day7.RuleIds` | src/bin/day7.rs:77-78 | each listed rule id is below the rule count and has the bag at the given end |
| `Day7.RuleIdsComplete` | src/bin/day7.rs:71-78 | every rule whose end is the bag is listed under that bag |
| `Day7.RuleIdsPrefix` | src/bin/day7.rs:71-78 | pushing further rules leaves the lists of the earlier rules unchanged |
| `Day7.BagGraph.constructor` | src/bin/day7.rs:12-19 | the default graph is valid and has no bags and no rules |
| `Day7.BagGraph.AllocateBagId` | src/bin/day7.rs:22-29 | the new id is the number of bags so far; the name maps to it, it names it, and both rule lists gain an empty entry |
| `Day7.BagGraph.AddRule` | src/bin/day7.rs:71-78 | the rule is appended and listed under its container and its content; names and ids are unchanged |
| `Day7.BagGraph.InsertNodes` | src/bin/day7.rs:58-64 | shiny gold gets id 0, every rule's bag gets an id, and no other name does |
| `Day7.BagGraph.AddRawRule` | src/bin/day7.rs:68-79 | one raw rule adds its (name, count) entries as rules in order; `false` exactly when a content name has no id (the `unwrap` panics) |
| `Day7.BagGraph.AddEdges` | src/bin/day7.rs:66-80 | succeeds exactly when every content name is known, and then the rules are those of the raw rules in input order |
| `Day7.BagGraph.ClosedMarksReaches` | src/bin/day7.rs:85-91 | a marking closed under "the container of a rule into a marked bag is marked" marks every bag that holds the target |
| `Day7.BagGraph.StepQueued` | src/bin/day7.rs:85-90 | after a pop and the pushes every queued rule's container still holds the target |
| `Day7.BagGraph.StepClosed` | src/bin/day7.rs:85-90 | marking the popped rule's container keeps the marking closed up to the queue |
| `Day7.BagGraph.Start` | src/bin/day7.rs:82-83 | the empty marking with the rules into the target queued satisfies the loop invariant |
| `Day7.BagGraph.Step` | src/bin/day7.rs:85-91 | one iteration keeps the loop invariant |
| `Day7.BagGraph.StepMarked` | src/bin/day7.rs:86-87 | the container of a popped rule holds the target |
| `Day7.BagGraph.Finish` | src/bin/day7.rs:85-91 | when the queue is empty the marked bags are exactly the bags that hold the target |
| `Day7.BagGraph.MarkNext` | src/bin/day7.rs:85-90 | one pop, mark and push on the array keeps the loop invariant |
| `Day7.BagGraph.MarkContainers` | src/bin/day7.rs:82-99 | when the loop finishes, bag `b` is marked exactly when it holds shiny gold, directly or through other bags |
| `Day7.BagGraph.SumRulesStep` | src/bin/day7.rs:113-116 | each rule of the bag holds a lower-ranked bag and adds `(1 + bags inside it) * count` to the sum |
| `Day7.BagGraph.ContainedBagCount` | src/bin/day7.rs:103-120 | the result is the number of bags inside `bag`; cached entries stay valid and unchanged, and the bag's own entry is filled in |
| `Day8.Flip` | src/bin/day8.rs:30-36 | the flip keeps the argument and the Acc-ness, and turns Jmp into Nop and Nop into Jmp |
| `Day8.FlipInvolution` | src/bin/day8.rs:86-90 | flipping twice restores the instruction, so each trial of the repair loop is undone |
| `Day8.FlipKeepsAccumulator` | src/bin/day8.rs:15-36 | a flipped instruction changes the accumulator as the original does, and an Acc is untouched |
| `Day8.State.constructor` | src/bin/day8.rs:8-12 | the default state has cursor 0 and accumulator 0 |
| `Day8.State.Execute` | src/bin/day8.rs:15-28 | Acc adds its argument and moves on, Jmp moves the cursor by its offset, Nop moves on, and nothing else changes |
| `Day8.FreshPrefix` | src/bin/day8.rs:62-71 | an instruction sequence without repeats has prefixes without repeats |
| `Day8.FreshBound` | src/bin/day8.rs:61-67 | the fresh instructions executed are distinct positions inside the program, so at most `len` of them run |
| `Day8.HaltsExists` | src/bin/day8.rs:59-72 | `run` always stops, after at most `len` instructions |
| `Day8.HaltsUnique` | src/bin/day8.rs:59-72 | it stops at exactly one place |
| `Day8.Advance` | src/bin/day8.rs:63-67 | executing a fresh instruction is one more step and marks one more cursor |
| `Day8.OutcomeIs` | src/bin/day8.rs:59-72 | the outcome is the verdict where the walk stops |
| `Day8.Run` | src/bin/day8.rs:59-72 | `Cycle(acc)` at the first instruction about to run again, `Completion(acc)` when the cursor lands just past the end, `Panic` when it leaves the program elsewhere; equal to the outcome of the walk |
| `Day8.RepairsPanicked` | src/bin/day8.rs:82-91 | the repair loop ends in a panic exactly when some Jmp or Nop, once flipped, sends the cursor outside the program other than just past its end |
| `Day8.RepairsFound` | src/bin/day8.rs:82-91 | the loop prints `(i, acc)` exactly when flipping the Jmp or Nop at `i` completes with `acc` and no earlier flip panicked, in increasing order of `i` |
| `Day8.RepairsStop` | src/bin/day8.rs:82-91 | once a flipped program panics, no later instruction changes what the loop has printed, and the process has panicked |
| `Day8.RepairPanicExample` | src/bin/day8.rs:82-91 | on `nop +5, nop +1` the first flip panics, so the loop prints nothing, although flipping the second instruction would complete with 0 |
| `Day8.Trial` | src/bin/day8.rs:86-90 | flip in place, run and flip back: the program is unchanged and the result is the outcome of the flipped program |
| `Day8.Repair` | src/bin/day8.rs:82-91 | the loop reports what `Repairs` describes for the outcome of each trial: the completions in order up to the first trial that panics, and whether one did; every trial that returns leaves the program as it found it |
| `Day9.HasPairSum` | src/bin/day9.rs:9-20 | true exactly when two of the `preamble` numbers before position `i` (possibly the same one twice) sum to the number at `i` |
| `Day9.Part1` | src/bin/day9.rs:5-28 | the number at the first position from `preamble` on that is no such sum; `None` exactly when every number is one (the `unreachable!`) |
| `Day9.ScanFrom` | src/bin/day9.rs:39-50 | `Hit(end)`: the range from `start` to `end` sums to the target and no shorter one does; `Over` exactly when the running sum passes the target; `RanOut` when it stays below to the last number (the index panics) |
| `Day9.NoOvershoot` | src/bin/day9.rs:41-50 | a scan that meets the target never overshoots it |
| `Day9.FindRange` | src/bin/day9.rs:38-57 | the first start whose scan meets the target, with the shortest such range, every earlier start overshooting; `Panic` when a scan runs past the end first; `Empty` exactly for no numbers |
| `Day9.Weakness` | src/bin/day9.rs:52-54 | the least plus the greatest number of the range |
| `Day10.Sort` | src/bin/day10.rs:4 | `sort_unstable` leaves the adapters sorted and a permutation of the input |
| `Day10.Insert` | src/bin/day10.rs:4 | one insertion pass extends the sorted prefix by one and keeps the multiset |
| `Day10.Swap` | src/bin/day10.rs:4 | exchanging two neighbours changes only those two and keeps the multiset |
| `Day10.GapCountsSum` | src/bin/day10.rs:8-12 | when every gap is 1, 2 or 3, the three counts add up to the number of adapters |
| `Day10.CountJumps` | src/bin/day10.rs:6-12 | succeeds exactly when every gap is 1, 2 or 3 (a gap of 0 underflows, a larger gap indexes past the array); then the counts of gaps 1, 2 and 3, the last plus the device's own 3, summing to the adapters plus one |
| `Day10.WaysPositive` | src/bin/day10.rs:16-28 | in a chain whose neighbours are at most 3 jolts apart every adapter can be reached in at least one way |
| `Day10.PushStep` | src/bin/day10.rs:22-27 | adapter `i` adds its ways to adapter `k` exactly when `k` is at most three places and three jolts further on |
| `Day10.PushFrom` | src/bin/day10.rs:20-27 | the inner loop for adapter `i` leaves every entry holding the ways pushed by the adapters up to `i` |
| `Day10.CountArrangements` | src/bin/day10.rs:16-28 | entry `k` of the table is the number of ways to reach adapter `k` of the chain that starts at the outlet's 0 |
| `Day11.At` | src/bin/day11.rs:21-27 | a cell outside the grid reads as `OutOfBounds`, and in a parsed grid only those do |
| `Day11.AtIndex` | src/bin/day11.rs:25 | a cell inside the grid sits at its row-major index `y * width + x`, which names no other cell |
| `Day11.DirectionsDistinct` | src/bin/day11.rs:18-20 | the eight directions are distinct unit steps, none of them `(0, 0)` |
| `Day11.Neighbours` | src/bin/day11.rs:17-28 | eight tiles: the tile at each direction's offset, `OutOfBounds` outside the grid |
| `Day11.Update` | src/bin/day11.rs:102-123 | a free seat is taken exactly when no seen seat is taken; a taken seat is freed exactly when at least `limit` seen seats are taken; floor stays floor |
| `Day11.ParseTile` | src/bin/day11.rs:72-77 | '.', 'L' and '#' parse (to floor and to seats); any other character is `None` (the `unreachable!`) |
| `Day11.ParseRow` | src/bin/day11.rs:70-79 | a line parses exactly when all its characters do, into one tile per character |
| `Day11.FlattenLength` | src/bin/day11.rs:86 | rows of one width flatten to `width * height` cells |
| `Day11.FlattenAt` | src/bin/day11.rs:86 | cell `x` of row `y` sits at `y * width + x` of the flattened rows |
| `Day11.Parse` | src/bin/day11.rs:67-90 | `None` for no lines (`tiles[0]`) or a bad character; otherwise width is the first line's length and height the line count, and lines of one width give a grid whose cells are the parsed characters |
| `Day11.ParseRows` | src/bin/day11.rs:68-80 | every line parsed, or `None` when one fails |
| `Day11.ParseRowsCells` | src/bin/day11.rs:82-89 | lines of one width give a well-formed grid whose cell `(x, y)` is the tile of `lines[y][x]` |
| `Day11.ParsedCell` | src/bin/day11.rs:82-89 | the cell at `(x, y)` of the flattened rows is the tile its character parses to |
| `Day11.TickSpec` | src/bin/day11.rs:92-128 | one tick keeps the size, keeps floor as floor and seats as seats |
| `Day11.SettledMeans` | src/bin/day11.rs:179-189 | `tick` leaves the grid unchanged exactly when every cell is calm among its eight neighbours (threshold 4) |
| `Day11.TickAt` | src/bin/day11.rs:99-125 | cell `(x, y)` of the next grid is the update of that cell from its neighbours with threshold 4 |
| `Day11.TickCell` | src/bin/day11.rs:101-123 | the loop body writes exactly the cell at `idx` with its next state |
| `Day11.TickRow` | src/bin/day11.rs:100-124 | after row `y` every cell up to the end of that row holds its next state |
| `Day11.Tick` | src/bin/day11.rs:92-128 | the fresh grid filled row by row is the grid one tick later |
| `Day11.SeatFrom` | src/bin/day11.rs:37-47 | a found cell is a seat inside the grid |
| `Day11.SeatFromRay` | src/bin/day11.rs:37-47 | the ray finds the first seat after non-seat cells, or nothing when it leaves the grid first |
| `Day11.FirstSeat` | src/bin/day11.rs:30-48 | the stepping loop returns what the ray from the next cell finds |
| `Day11.SightAlong` | src/bin/day11.rs:55-61 | along the first `k` directions at most `k` cells are listed, each the index of a seat of the grid |
| `Day11.LineOfSightMap` | src/bin/day11.rs:50-64 | one list per cell, of at most eight indices, each naming a seat of the grid |
| `Day11.Seen` | src/bin/day11.rs:142-144 | the tiles at the listed indices, in order |
| `Day11.TickSeenSpec` | src/bin/day11.rs:130-171 | one tick with lines of sight keeps the size, floor as floor and seats as seats |
| `Day11.SettledSeenMeans` | src/bin/day11.rs:197-207 | `tick_with_line_of_sight` leaves the grid unchanged exactly when every cell is calm among the seats it sees (threshold 5) |
| `Day11.TickSeenRow` | src/bin/day11.rs:138-167 | after row `y` every cell up to the end of that row holds its next state |
| `Day11.TickWithLineOfSight` | src/bin/day11.rs:130-171 | the fresh grid filled row by row is the grid one line-of-sight tick later |
| `Day11.Iterate` | src/bin/day11.rs:179-189 | every grid of the sequence of ticks keeps the size |
| `Day11.Settle` | src/bin/day11.rs:177-190 | the count of taken seats in the first grid that a tick leaves unchanged; `None` only when none of the first `fuel` grids is settled |
| `Day11.IterateSeen` | src/bin/day11.rs:195-207 | every grid of the sequence of line-of-sight ticks keeps the size |
| `Day11.SettleWithLineOfSight` | src/bin/day11.rs:194-208 | with the original grid's line-of-sight map, the count of taken seats in the first settled grid; `None` only when none of the first `fuel` grids is settled |
| `Day12.ParseInstruction` | src/bin/day12.rs:53-66 | a line parses exactly when it starts with one of N, S, E, W, L, R, F and the rest is a signed 64-bit number, which becomes the value |
| `Day12.QuartersDivide` | src/bin/day12.rs:23-31 | the turn loops run `degrees / 90` times, dropping any remainder, and not at all for negative degrees |
| `Day12.Left` | src/bin/day12.rs:20-33 | `left` turns the heading one quarter to the left per whole 90 degrees |
| `Day12.Right` | src/bin/day12.rs:34-47 | `right` turns the heading one quarter to the right per whole 90 degrees |
| `Day12.QuarterUndo` | src/bin/day12.rs:24-43 | a right quarter turn undoes a left one and the other way round |
| `Day12.FullCircle` | src/bin/day12.rs:20-47 | four quarter turns either way face the ship where it started |
| `Day12.TurnsUndo` | src/bin/day12.rs:20-47 | `n` right turns undo `n` left turns and the other way round |
| `Day12.LeftLast` | src/bin/day12.rs:23-31 | `n + 1` left turns are `n` of them and one more |
| `Day12.RightLast` | src/bin/day12.rs:37-45 | `n + 1` right turns are `n` of them and one more |
| `Day12.RotateWaypointLeft` | src/bin/day12.rs:121-129 | one `(x, y)` to `(-y, x)` rotation per whole 90 degrees |
| `Day12.RotateWaypointRight` | src/bin/day12.rs:131-139 | one `(x, y)` to `(y, -x)` rotation per whole 90 degrees |
| `Day12.RotationKeepsDistance` | src/bin/day12.rs:121-139 | rotating the waypoint keeps its Manhattan distance from the ship |
| `Day12.LeftRotationsAgree` | src/bin/day12.rs:121-129 | rotating a heading's unit step left is the unit step of the heading turned left |
| `Day12.RightRotationsAgree` | src/bin/day12.rs:131-139 | rotating a heading's unit step right is the unit step of the heading turned right |
| `Day12.QuarterAgrees` | src/bin/day12.rs:24-43 | a quarter rotation of a unit step is the unit step of the quarter-turned heading |
| `Day12.RotationCycle` | src/bin/day12.rs:121-139 | four rotations either way give the waypoint back, and a right rotation undoes a left one |
| `Day12.Sail` | src/bin/day12.rs:77-93 | F moves the ship `v` along its heading, L and R only turn it by whole quarters |
| `Day12.VoyageBound` | src/bin/day12.rs:74-96 | the ship ends no further from the origin than the distances it was told to move add up to |
| `Day12.Navigate` | src/bin/day12.rs:74-98 | solution 1 is the Manhattan distance of the final position, within that bound |
| `Day12.Steer` | src/bin/day12.rs:103-114 | only F moves the ship, and F leaves the waypoint alone; L and R keep the waypoint's distance |
| `Day12.WaypointBound` | src/bin/day12.rs:100-117 | the waypoint stays within 11 plus the N, S, E and W shifts of the ship |
| `Day12.NavigateByWaypoint` | src/bin/day12.rs:100-119 | solution 2 is the Manhattan distance of the final position of the waypoint course |
| `Day13.ParseBuses` | src/bin/day13.rs:8-17 | the fields other than "x", numbered by their position in the list, in increasing position order, one bus per such field; `None` exactly when such a field is no `isize` |
| `Day13.Parse` | src/bin/day13.rs:1-19 | the first line is the earliest departure time and the second line's comma-separated fields are the buses; `None` for a missing line or a bad number |
| `Day13.EarliestTimeForBus` | src/bin/day13.rs:21-23 | with truncating `%`, for a positive id and a time that is not negative: the least wait in `0 .. id` after which the bus departs |
| `Day13.WaitIsLeast` | src/bin/day13.rs:21-23 | the truncating formula equals the Euclidean `(id - t mod id) mod id`, a departure with no earlier one |
| `Day13.LaterDeparture` | src/bin/day13.rs:22 | with `t = q * id + m` and `0 < m`, the bus leaves `id - m` minutes after `t` |
| `Day13.NoEarlierDeparture` | src/bin/day13.rs:22 | and it does not leave at any earlier minute |
| `Day13.FirstLeastWait` | src/bin/day13.rs:33-36 | `min_by_key` picks the first bus among those with the least wait |
| `Day13.Solution1AsWritten` | src/bin/day13.rs:33-38 | as written, solution 1 is the id of the bus `min_by_key` picks (the least wait, and the first of several such buses) times its position in the list; `None` exactly for no buses or an id of 0 |
| `Day13.Solution1` | src/bin/day13.rs:33-38 | corrected: the id of that same bus (the least wait, the first of several such buses) times its wait; `None` exactly for no buses or an id of 0 |
| `Day13.SampleSolution1` | src/bin/day13.rs:33-38 | on the example (time 939, buses 7,13,x,x,59,x,31,19) the code as written gives 236 and the corrected one 295 |
| `Day13.InvModIsPower` | src/bin/day13.rs:25-27 | for `x >= 0` the fold of `inv_mod` is `x` to the power of the step count, modulo `p` |
| `Day13.ProductSplit` | src/bin/day13.rs:40 | the product of the ids is one id times the product of the others |
| `Day13.OthersSplit` | src/bin/day13.rs:40-44 | every other id divides the product of the ids other than bus `j`'s |
| `Day13.Solution2` | src/bin/day13.rs:40-46 | `None` exactly when an id is 0 (the division panics); otherwise the `rem_euclid` result lies in `0 .. abs(prod)` |
| `Day13.ProductNonZero` | src/bin/day13.rs:40 | with no id of 0 the product is not 0 |
| `Day13.QuotientIsOthers` | src/bin/day13.rs:44 | for positive ids `prod / b` is the product of the other ids |
| `Day13.SumTermsSplit` | src/bin/day13.rs:42-45 | every term of the sum but bus `i`'s is a multiple of bus `i`'s id |
| `Day13.TermMultiple` | src/bin/day13.rs:44 | the term of bus `j` is a multiple of every other id |
| `Day13.ProductPositive` | src/bin/day13.rs:40 | positive ids have a positive product |
| `Day13.Solution2Departs` | src/bin/day13.rs:40-48 | for positive ids, when `inv_mod` inverts each `prod / b` modulo `b`, every bus departs at the result plus its position: the Chinese remainder construction is correct |
| `Day13.Recombine` | src/bin/day13.rs:44-46 | the last step: the other buses' terms and the product vanish modulo `b`, leaving `r + a` a multiple of `b` |
| `Day14.Pow2Width` | src/bin/day14.rs:4-9 | a `usize` holds exactly the numbers below 2^64 |
| `Day14.FromToBits` | src/bin/day14.rs:21-35 | reading back the low `k` bits of a number below 2^k gives the number |
| `Day14.ToFromBits` | src/bin/day14.rs:21-35 | the bits of the number a bit string stands for are that bit string |
| `Day14.WordRoundTrip` | src/bin/day14.rs:71 | a `usize` and its 64 bits determine each other |
| `Day14.FromWordInjective` | src/bin/day14.rs:106 | two different bit words are two different numbers |
| `Day14.And` | src/bin/day14.rs:71 | `&` is the bitwise conjunction |
| `Day14.Or` | src/bin/day14.rs:71 | `\|` is the bitwise disjunction |
| `Day14.FloatingBitsBelow` | src/bin/day14.rs:25-30 | the floating bits recorded so far are, in increasing order, exactly the bits below `n` under an `X` |
| `Day14.MaskCases` | src/bin/day14.rs:21-39 | every bit below 36 is governed by exactly one of `X` (listed and cleared in the floating mask), `0` (cleared in the and-mask) and `1` (set in the or-mask); bits 36 and up pass through |
| `Day14.GovernBit` | src/bin/day14.rs:26-38 | one character, read from bit 0 upward, clears, sets or records exactly its own bit |
| `Day14.BuildMask` | src/bin/day14.rs:21-45 | the loop builds the mask the 36 characters specify, the last character governing bit 0 |
| `Day14.MaskOfBitwise` | src/bin/day14.rs:21-45 | a mask whose every bit agrees with the specification is that mask |
| `Day14.ParseLine` | src/bin/day14.rs:19-54 | a line parsed as a mask holds the `mask = ` prefix and 36 mask characters, and its mask is the one they specify |
| `Day14.ParseMaskLine` | src/bin/day14.rs:20-45 | `mask = ` followed by 36 characters from `X01` yields exactly the mask those characters specify |
| `Day14.ParseAssignmentLine` | src/bin/day14.rs:46-50 | `mem[a] = v` with two runs of decimal digits yields the assignment of `v` to `a` when both fit a `usize`, and `None` (the `unwrap` panic) otherwise |
| `Day14.ParseLineSound` | src/bin/day14.rs:19-54 | every line that parses is a mask line or a `mem[a] = v` line; any other line is `None` (the `unreachable!`) |
| `Day14.ParseAssignment` | src/bin/day14.rs:46-50 | the `mem[...]` pattern only ever yields an assignment (its exact inputs and outputs are the two lemmas below) |
| `Day14.ParseAssignmentComplete` | src/bin/day14.rs:46-50 | `mem[a] = v` with digit runs `a` and `v` gives `Assignment(a, v)` exactly when both values fit a `usize` |
| `Day14.ParseAssignmentSound` | src/bin/day14.rs:46-50 | an accepted assignment line reads `mem[a] = v` with digit runs `a` and `v`, and the address and value are their decimal values |
| `Day14.AssignmentOfSound` | src/bin/day14.rs:46-50 | the space-separated pieces accepted as an assignment join back to `mem[a] = v` and give the values of `a` and `v` |
| `Day14.AssignmentOfComplete` | src/bin/day14.rs:46-50 | the pieces `mem[a]`, `=`, `v` give the assignment of the values of `a` and `v` exactly when both fit a `usize` |
| `Day14.DecodeAddresses` | src/bin/day14.rs:89-107 | the built addresses read back as `usize`s are the decoded addresses; `None` exactly when the mask has no floating bit |
| `Day14.Parse` | src/bin/day14.rs:16-56 | every line parsed in order, `None` exactly when some line fails |
| `Day14.MemorySumRemove` | src/bin/day14.rs:77 | the memory sum does not depend on the order in which the addresses are visited |
| `Day14.MemorySumWrite` | src/bin/day14.rs:72 | a write replaces the address's old value in the sum |
| `Day14.MaskValueBits` | src/bin/day14.rs:71 | part 1 writes the value with the mask's `1` bits set, its `0` bits cleared and every other bit kept |
| `Day14.Step1` | src/bin/day14.rs:65-74 | a mask line replaces the mask; an assignment panics exactly when there is no mask yet, and otherwise writes the masked value to its address and changes no other address |
| `Day14.LastWriteWins` | src/bin/day14.rs:64-75 | once an assignment writes an address, the memory holds its masked value there until another assignment to that address |
| `Day14.MaskStays` | src/bin/day14.rs:64-75 | once a mask is set the part-1 loop never panics again |
| `Day14.MaskStaysNone` | src/bin/day14.rs:64-75 | once the part-1 loop panics it stays panicked |
| `Day14.Part1` | src/bin/day14.rs:62-77 | the loop panics exactly when the program does, and otherwise leaves the memory the operations specify |
| `Day14.MaskedAddressBits` | src/bin/day14.rs:106 | the masked address has its bits under `X` cleared, its bits under `1` set and every other bit from the address |
| `Day14.AddressesCount` | src/bin/day14.rs:90-104 | `k` floating bits expand to 2^k addresses |
| `Day14.AddressesAgree` | src/bin/day14.rs:90-104 | every built address keeps the start address outside the floating bits |
| `Day14.AddressesHalves` | src/bin/day14.rs:95-103 | the first floating bit is set in the first half of the addresses and cleared in the second |
| `Day14.AddressesCover` | src/bin/day14.rs:90-104 | every combination of the floating bits is built |
| `Day14.AddressesDistinct` | src/bin/day14.rs:90-104 | with increasing floating bits no address is built twice |
| `Day14.BuildAddresses` | src/bin/day14.rs:90-104 | the recursion appends the expanded addresses to the vector; `None` exactly when there is no floating bit (`floating_bits[0]` panics) |
| `Day14.Decoded` | src/bin/day14.rs:106-107 | one decoded address per built address |
| `Day14.DecodedMeans` | src/bin/day14.rs:86-111 | for a mask with `k` floating bits, version 2 writes to 2^k distinct addresses, exactly those with the `1` bits set, the `0` bits as in the address and any value under `X` |
| `Day14.FloatingBitsAreX` | src/bin/day14.rs:27-30 | the floating bits are exactly the bits under an `X` |
| `Day14.MaskedAgrees` | src/bin/day14.rs:106 | an address fits the mask exactly when it agrees with the masked address away from the floating bits |
| `Day14.DecodedFits` | src/bin/day14.rs:106-107 | every decoded address fits the mask |
| `Day14.FitsDecoded` | src/bin/day14.rs:106-107 | every address that fits the mask is decoded |
| `Day14.Written` | src/bin/day14.rs:109-111 | every listed address holds the value, every other address keeps its old value |
| `Day14.WriteAll` | src/bin/day14.rs:109-111 | the insert loop writes the value to every listed address and changes nothing else |
| `Day14.Step2` | src/bin/day14.rs:82-112 | a mask line replaces the mask; an assignment panics exactly when there is no mask yet or the mask has no `X` |
| `Day14.Run2StaysNone` | src/bin/day14.rs:81-113 | once the part-2 loop panics it stays panicked |
| `Day14.Part2` | src/bin/day14.rs:79-116 | the loop panics exactly when the program does, and otherwise leaves the memory the operations specify |
| `Day15.Spoken` | src/bin/day15.rs:4-18 | the starting numbers are spoken first, in order; every later turn speaks a number smaller than its turn count |
| `Day15.LastBefore` | src/bin/day15.rs:9-10 | a found turn is before `t` and speaks `x` |
| `Day15.LastBeforeIsLast` | src/bin/day15.rs:14-16 | it is the last such turn: every turn before `t` that speaks `x` is no later |
| `Day15.SpokenRule` | src/bin/day15.rs:5-12 | after the starting numbers a turn speaks 0 when the previous number was new, and otherwise how many turns ago that number was last spoken |
| `Day15.Count` | src/bin/day15.rs:1-21 | the number spoken on the last of `until_turn` turns; `None` exactly for no turns or no starting numbers (the `unwrap`s) or a starting number too large to index the table |
| `Day15.SampleGame` | src/bin/day15.rs:4-18 | the example game 0,3,6 continues 0, 3, 3, 1, 0, 4, 0 |
| `Text.Trim` | src/bin/day19.rs:11 | `trim` returns a slice `s[i..j]` of its input with only whitespace before `i` and after `j`, and the slice neither starts nor ends with whitespace; together these make it the text between the leading and the trailing whitespace runs |
| `Text.SplitOn` | src/bin/day13.rs:8 | `split` gives at least one piece, none holding the separator or longer than the text |
| `Text.SplitOnCount` | src/bin/day13.rs:8 | `split` gives one piece more than there are separators |
| `Text.SplitOnNone` | src/bin/day13.rs:8 | a text without the separator splits into itself alone |
| `Text.SplitOnFirst` | src/bin/day13.rs:8 | the first separator ends the first piece, and the rest splits independently |
| `Text.SplitOnThree` | src/bin/day14.rs:46 | three pieces without the separator, joined by it, split back into exactly those three |
| `Text.JoinThree` | src/bin/day13.rs:8 | three pieces joined have the separator between neighbours |
| `Text.SplitOnJoin` | src/bin/day13.rs:8 | joining the pieces with the separator gives the text back |
| `Text.ParseSigned` | src/bin/day12.rs:55 | `parse::<isize>` succeeds exactly on an optional sign and ASCII digits whose value fits 64 bits, and gives that value |
| `Text.Contains` | src/bin/day4.rs:114 | true exactly when the pattern occurs at some position of the text |
| `Text.DecimalValue` | src/bin/day23.rs:37 | `to_string` gives digits whose value is the number, with a leading '0' only for zero |
| `Day16.AnyContains` | src/bin/day16.rs:12-14 | true exactly when some rule has the value in one of its two inclusive ranges |
| `Day16.InvalidSumAppend` | src/bin/day16.rs:65-70 | the sum of the invalid values over two lists is the sum over each |
| `Day16.InvalidSumZero` | src/bin/day16.rs:65-70 | the invalid sum is zero exactly when every value is contained by some rule or is itself 0 |
| `Day16.ErrorRateSplits` | src/bin/day16.rs:65-70 | the error rate is the sum of each nearby ticket's own invalid values |
| `Day16.Kept` | src/bin/day16.rs:74-83 | the kept tickets are, in order, exactly the nearby tickets whose every value some rule contains |
| `Day16.KeptAreClean` | src/bin/day16.rs:74-83 | the kept tickets add nothing to the error rate |
| `Day16.AllFit` | src/bin/day16.rs:93-96 | true exactly when the rule holds for field `f` of every kept ticket |
| `Day16.CandidatesBelow` | src/bin/day16.rs:90-103 | the candidates for a field among the first `n` rules, in increasing index: exactly the rules that hold there on every kept ticket |
| `Day16.RulesPerField` | src/bin/day16.rs:88-105 | one list per field, increasing, holding exactly the rules that hold for that field on every kept ticket |
| `Day16.Unassigned` | src/bin/day16.rs:110-112 | the candidates no field has taken yet, in order |
| `Day16.SoleCandidate` | src/bin/day16.rs:110-117 | a rule is chosen exactly when it is the one candidate not yet assigned; otherwise none is |
| `Day16.Pass` | src/bin/day16.rs:109-118 | a pass over the fields only adds assignments, never changes one, and every rule it adds is a candidate of one of the fields it visited |
| `Day16.Consider` | src/bin/day16.rs:110-117 | one field only adds an assignment, never changes one, and the rule it adds is one of its candidates |
| `Day16.AssignSettled` | src/bin/day16.rs:113-116 | giving a field its sole unassigned candidate keeps every assignment listed, closed and one-to-one |
| `Day16.KeysBound` | src/bin/day16.rs:108 | at most `numRules` rules are assigned, and all of them when that many are |
| `Day16.PassKeys` | src/bin/day16.rs:109-118 | a pass keeps every key of the assignment a rule index, so the `while` loop assigns at most every rule |
| `Day16.Grows` | src/bin/day16.rs:108-119 | a pass that changes the map assigns more rules, so the loop makes progress or stops changing |
| `Day16.ConsiderField` | src/bin/day16.rs:110-117 | the loop body for one field inserts the sole candidate and keeps the assignment settled |
| `Day16.RunPass` | src/bin/day16.rs:109-118 | one pass of the `for` loop, keeping the assignment settled |
| `Day16.Eliminate` | src/bin/day16.rs:107-119 | the loop ends as `Settle` from the empty map says; on success every rule has a field, each one listing it, no two sharing a field; `Diverges` only at a settled assignment, short of all rules, that a whole pass leaves unchanged |
| `Day16.DepartureProduct` | src/bin/day16.rs:121-132 | `None` exactly when a departure rule has no readable value on my ticket |
| `Day16.DepartureDivides` | src/bin/day16.rs:121-132 | every departure value on my ticket divides the product |
| `Day16.Part2` | src/bin/day16.rs:74-134 | `Panic` when no nearby ticket is valid; otherwise, with `e` the outcome of the `while` loop from the empty map: `Loops` exactly when `e` diverges, and when `e` assigns every rule, that assignment is consistent with every kept ticket and the result is the product of my departure values under it, or `Panic` exactly when one of them is unreadable |
| `Day17.BoxMember` | src/bin/day17.rs:56-59 | a point is produced by the nested ranges exactly when each of its coordinates lies in its inclusive range |
| `Day17.BoxDistinct` | src/bin/day17.rs:56-59 | the nested ranges never produce the same point twice |
| `Day17.BoxSize` | src/bin/day17.rs:56-59 | the nested ranges produce as many points as the box's volume |
| `Day17.Without` | src/bin/day17.rs:60 | the filter keeps exactly the points other than the centre, and removes one point when the centre occurs once |
| `Day17.NeighboursMeans` | src/bin/day17.rs:51-80 | the neighbours of a point are exactly the points that differ from it and lie at most 1 away in every coordinate, each once, 3^d - 1 of them |
| `Day17.NeighbourCounts` | src/bin/day17.rs:51-80 | a `Point3` has 26 neighbours and a `Point4` has 80 |
| `Day17.Combine` | src/bin/day17.rs:13 | each coordinate is the minimum, or the maximum, of the two points' coordinates |
| `Day17.FoldExtreme` | src/bin/day17.rs:10-48 | the fold's coordinate `i` is the least (greatest) coordinate `i` among the points and is attained by one of them |
| `Day17.Bound` | src/bin/day17.rs:10-48 | `None` exactly when there are no points; otherwise, in every coordinate, the least (greatest) value among the points, attained by one of them |
| `Day17.RadiateFrom` | src/bin/day17.rs:86-88 | the inner loop adds one to the count of each neighbour of `p` and leaves every other count alone |
| `Day17.Radiate` | src/bin/day17.rs:83-101 | every point's count is the number of active points it neighbours, and only points with a positive count have an entry |
| `Day17.Keys` | src/bin/day17.rs:107 | the listed keys are exactly the map's keys |
| `Day17.CountedAreNear` | src/bin/day17.rs:104 | a point with a positive count has the active points' dimension |
| `Day17.RadiatesSomewhere` | src/bin/day17.rs:107-108 | with an active point, some point has a positive count, so the `unwrap` on the bounds succeeds |
| `Day17.Update` | src/bin/day17.rs:103-159 | `None` (the `unwrap` panic) exactly when no cube is active; otherwise each point listed once, and listed exactly when it is active with 2 or 3 active neighbours, or inactive with exactly 3 |
| `Day18.ToOp` | src/bin/day18.rs:45-51 | `+` is addition, `*` is multiplication, and every other token has no operator |
| `Day18.ToOpOfToken` | src/bin/day18.rs:45-51 | `to_op` reads back the operator from the token that spells it |
| `Day18.DigitEnd` | src/bin/day18.rs:73-81 | the run of digits ends at the end of the input or at the first character that is not an ASCII digit |
| `Day18.DoneMeansBlank` | src/bin/day18.rs:63-66 | there is no next token exactly when the rest of the input is all whitespace |
| `Day18.YieldShortens` | src/bin/day18.rs:87-92 | each token leaves a strictly shorter suffix of the input |
| `Day18.NumberIsDigitRun` | src/bin/day18.rs:72-84 | a number token is the value of the whole run of digits after the whitespace, and the input resumes right after that run |
| `Day18.Tokenizer.constructor` | src/bin/day18.rs:138 | the tokenizer starts on the whole line |
| `Day18.Tokenizer.Next` | src/bin/day18.rs:61-93 | returns the step `NextToken` gives for the old input, advances the input to what follows the token, and keeps it when there is none |
| `Day18.TokenizeLine` | src/bin/day18.rs:138-139 | calling `next` until it yields nothing produces the line's token stream |
| `Day18.TokenizeYield` | src/bin/day18.rs:61-93 | the token at the front of the input is the first of the stream, followed by the stream of the rest |
| `Day18.ParseAtomSpec` | src/bin/day18.rs:96-110 | a successful atom consumes at least one token and starts with a number or `(`; a parenthesised atom ends with `)` |
| `Day18.ParseExprSpec` | src/bin/day18.rs:112-132 | a successful expression consumes at least one token |
| `Day18.ParseLoop` | src/bin/day18.rs:118-130 | the operator loop never moves the position backwards or past the end |
| `Day18.ParseAtom` | src/bin/day18.rs:96-110 | `parse_atom` on the stream gives the atom `ParseAtomSpec` describes, including its panics |
| `Day18.ParseExpr` | src/bin/day18.rs:112-132 | the loop that builds the left-nested tree gives the expression `ParseExprSpec` describes |
| `Day18.ParseLine` | src/bin/day18.rs:134-142 | one line is tokenized and parsed as an expression at precedence 0 |
| `Day18.SingleNumber` | src/bin/day18.rs:117-121 | a number followed by the end or by an operator below the precedence parses to that number alone |
| `Day18.OperatorStep` | src/bin/day18.rs:118-129 | an accepted operator whose number is not followed by a tighter operator takes just that number as its right operand |
| `Day18.LoopLeftAssociative` | src/bin/day18.rs:118-130 | with equal precedences the loop folds the rest of the line from the left |
| `Day18.LeftAssociative` | src/bin/day18.rs:149 | with equal precedences (part one) a line without parentheses evaluates left to right |
| `Day18.AddFirstRun` | src/bin/day18.rs:156-159 | additions at the front join the running sum |
| `Day18.AddFirstClose` | src/bin/day18.rs:156-159 | before a multiplication, or at the end, the sum may be multiplied in |
| `Day18.LoopTakesAdditions` | src/bin/day18.rs:118-130 | above the precedence of multiplication, the loop takes exactly the leading run of additions and adds them |
| `Day18.MultiplyRight` | src/bin/day18.rs:124 | the right operand of a multiplication is its number plus the additions that follow it |
| `Day18.LoopAdditionsFirst` | src/bin/day18.rs:118-130 | at precedence 0, with addition binding tighter, the loop evaluates the rest of the line additions first |
| `Day18.MultiplyStep` | src/bin/day18.rs:118-130 | a multiplication at precedence 0 takes the following run of additions as its right operand |
| `Day18.AdditionsFirst` | src/bin/day18.rs:156-159 | with addition above multiplication (part two) a line without parentheses is the product of its sums |
| `Day18.SampleLine` | src/bin/day18.rs:147-163 | `1 + 2 * 3 + 4 * 5 + 6` is 71 under part one and 231 under part two |
| `Day18.EvalLine` | src/bin/day18.rs:137-151 | a line parsed and evaluated; `None` when the parse panics |
| `Day18.SumStep` | src/bin/day18.rs:150-152 | adding one line to the sum adds its value, or panics when that line panics |
| `Day18.NoneStays` | src/bin/day18.rs:150-152 | once a line panics, the whole sum panics |
| `Day18.Homework` | src/bin/day18.rs:147-163 | the sum of every line's value, or `None` when some line panics |
| `Day19.WordEnd` | src/bin/day19.rs:19 | a word ends at the next ASCII whitespace or at the end, and holds none before that |
| `Day19.Fields` | src/bin/day19.rs:19 | `split_ascii_whitespace` yields non-empty words free of ASCII whitespace |
| `Day19.AtomOr` | src/bin/day19.rs:12-14 | trimmed text with a `\|` is an `Or` with one alternative per part, each the atom of its part, and it panics exactly when one part does |
| `Day19.AtomChar` | src/bin/day19.rs:15-16 | text starting with a quote is the `Char` after the quote, and a lone quote panics |
| `Day19.AtomSequence` | src/bin/day19.rs:17-23 | any other text is the `Sequence` of its words' numbers, and it panics exactly when a word is not a `usize` |
| `Day19.ParseRuleMeans` | src/bin/day19.rs:26-30 | a rule line is read exactly when it has a `:` with a `usize` before it and an atom after it, and then it is that pair |
| `Day19.Insert` | src/bin/day19.rs:41 | the map's keys are exactly the rule numbers read |
| `Day19.LastRuleWins` | src/bin/day19.rs:41 | a number maps to the rule of the last line with that number |
| `Day19.InsertStep` | src/bin/day19.rs:41 | one more line updates the map at its number |
| `Day19.GatherMeans` | src/bin/day19.rs:36-42 | all rule lines are read exactly when each one is, and the `j`-th result is that of line `j` |
| `Day19.GatherStep` | src/bin/day19.rs:40 | one more line extends the results by its own, or panics |
| `Day19.FailStays` | src/bin/day19.rs:40 | a line that panics makes every longer run of lines panic |
| `Day19.FirstEmpty` | src/bin/day19.rs:36-39 | the index of the first empty line, every line before it non-empty, or the number of lines |
| `Day19.Parse` | src/bin/day19.rs:32-45 | the rules read from the lines before the first empty one, inserted in order, and the lines after it as messages; `None` when a rule line panics |
| `Day19.Join` | src/bin/day19.rs:61-69 | the combined outcome has remainders exactly when neither part is stuck and one of them has remainders |
| `Day19.JoinAssociative` | src/bin/day19.rs:61-69 | combining outcomes is associative |
| `Day19.Match` | src/bin/day19.rs:47-87 | a successful match returns at least one remainder |
| `Day19.OrFrom` | src/bin/day19.rs:60-70 | a successful `Or` returns at least one remainder |
| `Day19.StepFrom` | src/bin/day19.rs:74-77 | a successful sequence step returns at least one remainder |
| `Day19.SequenceFrom` | src/bin/day19.rs:71-85 | a successful sequence started from some remainder returns at least one remainder |
| `Day19.MatchRule` | src/bin/day19.rs:47-87 | the matcher with its loops written out returns the outcome `Match` describes |
| `Day19.MatchEach` | src/bin/day19.rs:74-79 | one sequence step over every remainder returns the outcome `StepFrom` describes |
| `Day19.MatchSound` | src/bin/day19.rs:47-87 | every remainder returned is a suffix of the input, and the rule generates the prefix it consumed |
| `Day19.SequenceMatchSound` | src/bin/day19.rs:71-85 | the same for a `Sequence` rule |
| `Day19.SingleSound` | src/bin/day19.rs:72 | a remainder left after all the rules of a sequence, starting from the whole input, is sound for that sequence |
| `Day19.OrSound` | src/bin/day19.rs:60-70 | every remainder of an `Or` is left by one of its alternatives |
| `Day19.StepSoundFrom` | src/bin/day19.rs:74-79 | every remainder of a step is left by the sub-rule from one of the earlier remainders |
| `Day19.Chain` | src/bin/day19.rs:73-83 | the pieces two consecutive steps generate join into one piece of the sequence |
| `Day19.Thread` | src/bin/day19.rs:73-83 | one step threads onto the remainders before it |
| `Day19.SequenceSoundFrom` | src/bin/day19.rs:73-84 | every remainder of the sequence loop is left by the remaining rules from one of the remainders so far |
| `Day19.MatchComplete` | src/bin/day19.rs:47-87 | every prefix the rule generates leaves its remainder among those returned, unless the match panics or runs out of fuel |
| `Day19.OrComplete` | src/bin/day19.rs:60-70 | every remainder any alternative leaves is among those of the `Or`, unless it is stuck |
| `Day19.StepComplete` | src/bin/day19.rs:74-79 | every remainder the sub-rule leaves from some earlier remainder is among those of the step, unless it is stuck |
| `Day19.SequenceComplete` | src/bin/day19.rs:71-85 | every remainder the rest of a sequence leaves from some remainder is among those returned, unless it is stuck |
| `Day19.CharMatch` | src/bin/day19.rs:53-59 | `Char(c)` matches exactly an input that starts with `c`, and leaves the rest |
| `Day19.OrMatch` | src/bin/day19.rs:60-70 | without panics, an `Or` matches exactly when one of its alternatives does, and it does not panic itself |
| `Day19.AcceptedMeans` | src/bin/day19.rs:97-101 | a message is accepted exactly when rule 0 generates all of it |
| `Day20.FoldBound` | src/bin/day20.rs:39-45 | both readings of an edge fit in 10 bits |
| `Day20.FoldCw` | src/bin/day20.rs:39-45 | after `n` pixels, bit `i` of `cw` is pixel `i` for `i < n` and clear otherwise |
| `Day20.FoldCcw` | src/bin/day20.rs:39-45 | after `n` pixels, bit `j` of `ccw` is pixel `9 - j` when that pixel has been read, and clear otherwise |
| `Day20.ReversalSymmetric` | src/bin/day20.rs:37-70 | reading an edge backwards is a symmetric relation |
| `Day20.EdgePixels` | src/bin/day20.rs:40-64 | each side of a tile has 10 pixels |
| `Day20.Edges` | src/bin/day20.rs:37-70 | a tile has four edges |
| `Day20.EdgesRead` | src/bin/day20.rs:37-70 | bit `i` of each edge's `cw` is the `i`-th pixel of its side, read clockwise, and `ccw` is the 10-bit reversal of `cw` |
| `Day20.EdgesWellFormed` | src/bin/day20.rs:37-72 | every tile built from an image has four edges, each two readings of the same pixels |
| `Day20.TileId` | src/bin/day20.rs:23-27 | a header is read only when it starts with `Tile ` and ends with `:` |
| `Day20.ReadImage` | src/bin/day20.rs:29-35 | the 10 rows after a header make a 10 by 10 image |
| `Day20.ParseTiles` | src/bin/day20.rs:18-78 | every parsed tile holds a 10 by 10 image and the four edges folded from it; `None` where a header, a row or a pixel is missing |
| `Day20.AllOrientationsComplete` | src/bin/day20.rs:80-113 | the table lists each of the eight rotations and flips of a square exactly once |
| `Day20.SidesPermute` | src/bin/day20.rs:121-169 | the four accessors show four different edges: unflipped, side `s` shows edge `s + rotation`; flipped, the sides run in reverse order; every edge shows on exactly one side |
| `Day20.TurnedInverse` | src/bin/day20.rs:121-169 | the side an edge shows on, and the edge a side shows, undo each other |
| `Day20.SideFormula` | src/bin/day20.rs:121-169 | each accessor's index is `s + rotation`, or `6 - s - rotation` when flipped, modulo 4 |
| `Day20.SideEdge` | src/bin/day20.rs:122-168 | each accessor reads `ccw` exactly when `flipped` and `counter` differ, from the edge its index names |
| `Day20.CounterReverses` | src/bin/day20.rs:127-131 | toggling `counter` reads the same side backwards: on a well-formed tile the two readings are 10-bit reversals of each other |
| `Day20Corners.EdgeValues` | src/bin/day20.rs:177-186 | a tile files two values per edge |
| `Day20Corners.EdgeValuesAt` | src/bin/day20.rs:177-186 | the values of edge `k` are its `cw` then its `ccw` |
| `Day20Corners.TilePushes` | src/bin/day20.rs:176-186 | a tile makes two pushes per edge |
| `Day20Corners.Push` | src/bin/day20.rs:178-185 | a push adds its value as a key and keeps the others |
| `Day20Corners.BucketsMeans` | src/bin/day20.rs:175-187 | a bucket exists exactly for the values pushed at least once, and lists their tile ids in push order |
| `Day20Corners.BuildBuckets` | src/bin/day20.rs:175-187 | the two nested loops build the buckets that the pushes of every tile, in order, describe |
| `Day20Corners.PushTwice` | src/bin/day20.rs:178-185 | one more edge applies its two pushes |
| `Day20Corners.OuterEdges` | src/bin/day20.rs:189-193 | the border values are exactly the values whose bucket holds one id |
| `Day20Corners.OuterMeans` | src/bin/day20.rs:189-193 | a value is a border value exactly when it was pushed exactly once |
| `Day20Corners.CountIn` | src/bin/day20.rs:198-202 | no more values are counted than there are |
| `Day20Corners.CountMeans` | src/bin/day20.rs:197-203 | the count against the border set is the number of the tile's values that occur once in the whole puzzle |
| `Day20Corners.Corners` | src/bin/day20.rs:195-206 | there are no more corner ids than tiles |
| `Day20Corners.CornersMeans` | src/bin/day20.rs:195-206 | an id is listed exactly when some tile with that id has four of its eight values on the border |
| `Day20Corners.CornersSound` | src/bin/day20.rs:195-206 | every listed id is a corner tile's id |
| `Day20Corners.CornersComplete` | src/bin/day20.rs:195-206 | every corner tile's id is listed |
| `Day20Corners.CornerIds` | src/bin/day20.rs:208 | when the check passes, exactly four corner ids |
| `Day20Corners.CornerIdsMeans` | src/bin/day20.rs:195-208 | each corner id is the id of a tile four of whose eight edge readings belong to no other tile |
| `Day20Corners.Part1` | src/bin/day20.rs:175-209 | `None` where the four-corners check panics; otherwise the product of the four corner ids |
| `Day20Corners.FirstCorner` | src/bin/day20.rs:211 | the tile at the first position whose id is a corner id (no earlier tile has one), or `None` exactly when no tile has one |
| `Day20Corners.FirstCornerFound` | src/bin/day20.rs:211 | when the four-corners check passes, the first corner is found, so its `unwrap` succeeds |
| `Day20Assembly.AboveIndex` | src/bin/day20.rs:227-229 | the tile above position `(x, y)` is `w` places back |
| `Day20Assembly.AllOrientationsTurn` | src/bin/day20.rs:80-113 | every entry of the orientation table has a rotation below four |
| `Day20Assembly.FlattenNext` | src/bin/day20.rs:225-263 | one more list of new states is appended after the earlier ones |
| `Day20Assembly.InFlatten` | src/bin/day20.rs:225-263 | every collected state comes from one of the lists |
| `Day20Assembly.FlattenIn` | src/bin/day20.rs:225-263 | every state of every list is collected |
| `Day20Assembly.OrientationLists` | src/bin/day20.rs:249-264 | one list per orientation |
| `Day20Assembly.TileLists` | src/bin/day20.rs:241-265 | one list per tile |
| `Day20Assembly.StateLists` | src/bin/day20.rs:226-266 | one list per partial assembly |
| `Day20Assembly.TileExtensionsGrow` | src/bin/day20.rs:249-264 | each extension by a tile adds that tile, in an orientation of the table whose top and left edges match |
| `Day20Assembly.ExtensionsGrow` | src/bin/day20.rs:241-265 | each extension of an assembly adds one unused puzzle tile that fits |
| `Day20Assembly.ExpandAllGrows` | src/bin/day20.rs:225-268 | each new state is a listed state grown by one fitting unused tile |
| `Day20Assembly.InTileExtensions` | src/bin/day20.rs:249-264 | every fitting orientation of a tile yields an extension |
| `Day20Assembly.InExtensions` | src/bin/day20.rs:241-265 | every fitting unused tile yields an extension |
| `Day20Assembly.InExpandAll` | src/bin/day20.rs:225-268 | every fitting extension of a listed state is among the new states |
| `Day20Assembly.GrowConsistent` | src/bin/day20.rs:241-263 | a consistent assembly grown by a fitting unused tile stays consistent |
| `Day20Assembly.ExtendRows` | src/bin/day20.rs:255-258 | the left-right match survives an extension whose left edge fits |
| `Day20Assembly.ExtendColumns` | src/bin/day20.rs:250-254 | the top-bottom match survives an extension whose top edge fits |
| `Day20Assembly.ExpandComplete` | src/bin/day20.rs:225-268 | a consistent assembly one longer than a listed one is among the new states |
| `Day20Assembly.MatchesNeighbours` | src/bin/day20.rs:227-258 | the last tile of a consistent assembly fits the edges of its neighbours above and to the left |
| `Day20Assembly.ConsistentPrefix` | src/bin/day20.rs:219-270 | every prefix of a consistent assembly is consistent |
| `Day20Assembly.Column` | src/bin/day20.rs:219-220 | a position's column lies within the width |
| `Day20Assembly.ColumnOf` | src/bin/day20.rs:219-220 | position `y * w + x` lies in column `x` |
| `Day20Assembly.Start` | src/bin/day20.rs:215-218 | one starting state per orientation |
| `Day20Assembly.StartExactly` | src/bin/day20.rs:215-218 | the starting states are exactly the one-tile assemblies of the first corner |
| `Day20Assembly.StepExactly` | src/bin/day20.rs:225-268 | from exactly the consistent assemblies of length `k`, one step gives exactly those of length `k + 1` |
| `Day20Assembly.ExactLengths` | src/bin/day20.rs:219-270 | every listed assembly has the current length |
| `Day20Assembly.ExpandSound` | src/bin/day20.rs:225-268 | every new state is consistent and starts with the first corner |
| `Day20Assembly.ExpandExact` | src/bin/day20.rs:225-268 | every consistent assembly of the next length that starts with the first corner is a new state |
| `Day20Assembly.ExtendByTile` | src/bin/day20.rs:249-264 | the loop over the orientations extends the state by the tile in each one that fits, in table order |
| `Day20Assembly.ExtendState` | src/bin/day20.rs:241-265 | the loop over the tiles skips used ids and collects every fitting extension |
| `Day20Assembly.SourceNeighbours` | src/bin/day20.rs:227-239 | the indices `(y - 1) * width + x` and `y * width + x - 1` name the tiles above and to the left, and there is none in the first row or column |
| `Day20Assembly.ExpandOne` | src/bin/day20.rs:226-265 | the body for one state reads its neighbour edges and yields its extensions |
| `Day20Assembly.ExpandStates` | src/bin/day20.rs:225-268 | one grid position turns exactly the consistent assemblies of length `k` into exactly those of length `k + 1` |
| `Day20Assembly.Assemble` | src/bin/day20.rs:215-270 | what remains is exactly the consistent full `w` by `w` assemblies that start with the first corner: each tile at most once, neighbouring edges matching |
| `Day20Assembly.FirstAssembly` | src/bin/day20.rs:272 | the first state, `None` exactly when no assembly survives |
| `Day20Final.ISqrt` | src/bin/day20.rs:213 | the largest width whose square does not exceed the number of tiles |
| `Day20Final.ISqrtSquare` | src/bin/day20.rs:213 | a square number of tiles gives back its side |
| `Day20Final.SquareMonotone` | src/bin/day20.rs:213 | squaring keeps the order of naturals |
| `Day20Final.Oriented` | src/bin/day20.rs:279-283 | a placed tile's image, flipped then turned, is still 10 by 10 |
| `Day20Final.At` | src/bin/day20.rs:278 | `tile_states[y * width + x]` is one of the placements |
| `Day20Final.OtherBlock` | src/bin/day20.rs:285-292 | writing one block leaves every other block as it was |
| `Day20Final.CopyRow` | src/bin/day20.rs:288-291 | pixels 1 to 8 of a tile row are written into 8 pixels of the picture row, and nothing else changes |
| `Day20Final.CopyTile` | src/bin/day20.rs:285-292 | the interior of a tile is written into its 8 by 8 block, and nothing outside the block changes |
| `Day20Final.PlaceTile` | src/bin/day20.rs:278-292 | the block at `(x, y)` holds the interior of the tile placed there, flipped and turned as its orientation says, and nothing outside the block changes |
| `Day20Final.FinalImage` | src/bin/day20.rs:274-294 | the picture is `8 * width` pixels square, and every block holds the interior of its placed tile |
| `Day20Final.FinalPixel` | src/bin/day20.rs:274-294 | each pixel of the picture is read off the oriented tile of its block, border removed |
| `Day20Images.FlipTile` | src/bin/day20.rs:367-373 | row `y` of the flipped tile is row `9 - y` |
| `Day20Images.RotateTile` | src/bin/day20.rs:378-384 | pixel `(x, y)` of the turned tile is pixel `(9 - y, x)` |
| `Day20Images.RotateTileN` | src/bin/day20.rs:375-387 | a turned tile is still 10 by 10 |
| `Day20Images.FlipTileImage` | src/bin/day20.rs:367-373 | the loop copying rows in reverse order flips the tile |
| `Day20Images.RotateTileImage` | src/bin/day20.rs:375-387 | the loops turn the tile the given number of quarter turns |
| `Day20Images.FlipTileTwice` | src/bin/day20.rs:367-373 | flipping a tile twice gives it back |
| `Day20Images.RotateTileFour` | src/bin/day20.rs:375-387 | four quarter turns give a tile back |
| `Day20Images.FlatEqual` | src/bin/day20.rs:343-365 | two flat pictures are equal when every pixel and every element past them agree |
| `Day20Images.Flipped` | src/bin/day20.rs:343-351 | row `y` of the flipped picture is row `w - 1 - y`, and any elements past `w * w` are `false` |
| `Day20Images.Rotated` | src/bin/day20.rs:356-362 | pixel `(x, y)` of the turned picture is pixel `(w - 1 - y, x)`, and any elements past `w * w` are `false` |
| `Day20Images.RotatedN` | src/bin/day20.rs:353-365 | turning keeps the picture's length |
| `Day20Images.FlipImage` | src/bin/day20.rs:343-351 | the loops fill a fresh vector with the flipped picture |
| `Day20Images.RotateImage` | src/bin/day20.rs:353-365 | the loops turn the picture the given number of quarter turns |
| `Day20Images.SetPixel` | src/bin/day20.rs:347 | writing one pixel changes that pixel and no other element |
| `Day20Images.FlipTwice` | src/bin/day20.rs:343-351 | flipping a square picture twice gives it back |
| `Day20Images.HalfTurn` | src/bin/day20.rs:353-365 | two quarter turns take pixel `(x, y)` from `(w - 1 - x, w - 1 - y)` |
| `Day20Images.TurnStep` | src/bin/day20.rs:355-363 | each turn applies one more quarter turn, and no turn leaves the picture as it is |
| `Day20Images.RotateFour` | src/bin/day20.rs:353-365 | four quarter turns give a square picture back |
| `Day20Monsters.RowMarks` | src/bin/day20.rs:305-307 | the marks of a line are exactly the `(x, y)` of its `#` characters |
| `Day20Monsters.Marks` | src/bin/day20.rs:301-309 | the marks of the drawing are exactly the `(x, y)` of its `#` characters, line by line |
| `Day20Monsters.MaxOf` | src/bin/day20.rs:311-312 | the maximum is one of the values and no value exceeds it |
| `Day20Monsters.Columns` | src/bin/day20.rs:312 | one column per offset |
| `Day20Monsters.Rows` | src/bin/day20.rs:311 | one row per offset |
| `Day20Monsters.MarksExtent` | src/bin/day20.rs:301-312 | three lines of 20 characters with marks in the last column and the last line have offsets reaching column 19 and row 2 |
| `Day20Monsters.MaxIs` | src/bin/day20.rs:311-312 | a bound that some value reaches is the maximum |
| `Day20Monsters.MonsterExtent` | src/bin/day20.rs:301-312 | the sea monster drawing has marks, and `max_x` is 19 and `max_y` is 2 |
| `Day20Monsters.MaxReach` | src/bin/day20.rs:311-312 | every offset lies within `max_x` columns and `max_y` rows |
| `Day20Monsters.Cells` | src/bin/day20.rs:325 | the pattern placed at `(x, y)` covers one index per offset, each inside the picture |
| `Day20Monsters.ClearCells` | src/bin/day20.rs:327-329 | clearing leaves a pixel set exactly when it was set and is not covered |
| `Day20Monsters.ClearNext` | src/bin/day20.rs:327-329 | clearing one more cell is one more update to `false` |
| `Day20Monsters.Visit` | src/bin/day20.rs:323-331 | a visit keeps the picture's length |
| `Day20Monsters.VisitClears` | src/bin/day20.rs:323-331 | a visit only clears pixels and leaves no monster at its position; it counts one exactly when the monster showed there, and otherwise changes nothing |
| `Day20Monsters.BelowNoMatch` | src/bin/day20.rs:323-331 | clearing pixels cannot make the monster appear |
| `Day20Monsters.RowPositions` | src/bin/day20.rs:322 | row `y` is visited from column 0 up |
| `Day20Monsters.PositionsMeans` | src/bin/day20.rs:321-322 | the two loops visit every position of rows `0..m` and columns `0..n`, and nothing else |
| `Day20Monsters.SweepOver` | src/bin/day20.rs:321-333 | the sweep keeps the picture's length |
| `Day20Monsters.PositionsInside` | src/bin/day20.rs:321-325 | when the loop bounds leave room, every visited position keeps the pattern inside the picture |
| `Day20Monsters.SweepStep` | src/bin/day20.rs:321-333 | one more position is visited after the earlier ones |
| `Day20Monsters.RowInside` | src/bin/day20.rs:322-325 | every position of a row keeps the pattern inside the picture |
| `Day20Monsters.Sweep` | src/bin/day20.rs:321-333 | the row-by-row sweep keeps the picture's length |
| `Day20Monsters.SweepConcat` | src/bin/day20.rs:321-333 | sweeping one list of positions after another is sweeping both together, and the counts add up |
| `Day20Monsters.SweepFlat` | src/bin/day20.rs:321-333 | the row-by-row sweep visits the positions in order, one after the other |
| `Day20Monsters.FlatStep` | src/bin/day20.rs:321-333 | a row swept on top of the earlier rows gives the sweep of both |
| `Day20Monsters.SweepBelow` | src/bin/day20.rs:321-333 | the sweep only clears pixels, and changes nothing when it counts nothing |
| `Day20Monsters.SweepLeaves` | src/bin/day20.rs:321-333 | after the sweep, no visited position shows the monster |
| `Day20Monsters.SweepZero` | src/bin/day20.rs:321-333 | the sweep counts nothing exactly when the picture showed the monster at none of the positions |
| `Day20Monsters.SweepMeans` | src/bin/day20.rs:321-333 | the sweep only clears pixels, leaves no monster anywhere it looked, and counts nothing exactly when no monster showed there |
| `Day20Monsters.FlatMeans` | src/bin/day20.rs:321-333 | the same, for any list of exactly those positions |
| `Day20Monsters.ClearAt` | src/bin/day20.rs:327-329 | the clearing loop clears the covered pixels in pattern order |
| `Day20Monsters.SweepRowInPlace` | src/bin/day20.rs:322-332 | the `x` loop of one row, in place, gives the sweep of that row and its count |
| `Day20Monsters.SweepRows` | src/bin/day20.rs:321-333 | the row loop, in place, gives the sweep of the rows and its count |
| `Day20Monsters.SweepNextRowInPlace` | src/bin/day20.rs:321-333 | one turn of the row loop extends the sweep by row `y` |
| `Day20Monsters.SweepInPlace` | src/bin/day20.rs:321-333 | `None` exactly when a loop bound underflows; otherwise the picture is swept in place and the count is the sweep's |
| `Day20Monsters.RowSpan` | src/bin/day20.rs:321 | the rows visited leave room for the pattern's height |
| `Day20Monsters.ColumnSpan` | src/bin/day20.rs:322 | the columns visited leave room for the pattern's width |
| `Day20Search.OrientFlat` | src/bin/day20.rs:315-318 | the turned and flipped picture keeps its length |
| `Day20Search.Trues` | src/bin/day20.rs:336 | no more pixels are set than the picture has |
| `Day20Search.TruesBelow` | src/bin/day20.rs:327-336 | clearing pixels never adds to the count of those set |
| `Day20Search.Views` | src/bin/day20.rs:314-338 | one sweep per orientation |
| `Day20Search.CountZero` | src/bin/day20.rs:320-335 | a sweep counts nothing exactly when its orientation shows no monster, and it only clears pixels |
| `Day20Search.ViewCount` | src/bin/day20.rs:314-335 | the same for the `k`-th orientation of the table |
| `Day20Search.PickNoPanic` | src/bin/day20.rs:335-340 | choosing among the sweeps never panics |
| `Day20Search.SearchUnderflow` | src/bin/day20.rs:321-322 | the search panics exactly when the picture is too small for the loop bounds, whatever its pixels |
| `Day20Search.PickNone` | src/bin/day20.rs:335-340 | nothing is picked exactly when no sweep from the `k`-th on counted a monster |
| `Day20Search.SearchNoMonster` | src/bin/day20.rs:314-340 | the search returns `None` exactly when no orientation shows a monster anywhere the sweep looks |
| `Day20Search.PickFound` | src/bin/day20.rs:335-337 | a picked roughness comes from the first sweep that counted a monster, as the number of pixels it left set |
| `Day20Search.SearchRoughness` | src/bin/day20.rs:314-340 | a roughness comes from the first orientation that shows a monster: the pixels left set after clearing the monsters it met, at most the pixels set before |
| `Day20Search.CountTrue` | src/bin/day20.rs:336 | the loop counts the pixels set |
| `Day20Search.ViewOf` | src/bin/day20.rs:315-318 | a fresh vector holding the picture turned, then flipped when the orientation says so |
| `Day20Search.MonsterBounds` | src/bin/day20.rs:301-312 | the monster's offsets, with `max_x` 19 and `max_y` 2 |
| `Day20Search.TryView` | src/bin/day20.rs:315-337 | one pass of the orientation loop: it panics when the bounds underflow, goes on exactly when the sweep counted nothing, and otherwise ends as the search does |
| `Day20Search.FindSeaMonsters` | src/bin/day20.rs:300-341 | `find_sea_monsters` returns the outcome the search over the eight sweeps describes |
| `Day20Search.TryViews` | src/bin/day20.rs:314-341 | the loop over the eight orientations, given the monster and its extent, returns the outcome the search over the eight sweeps describes: the first sweep that met a monster gives the roughness, and no monster otherwise |
| `Day20Part2.Anchor` | src/bin/day20.rs:208-211 | the first corner tile, found exactly when the four-corners check passes |
| `Day20Part2.ParsedFourEdges` | src/bin/day20.rs:37-72 | parsed tiles have four edges each |
| `Day20Part2.AssemblyPictured` | src/bin/day20.rs:272-283 | every tile of an assembly from parsed tiles carries a 10 by 10 picture |
| `Day20Part2.Render` | src/bin/day20.rs:215-297 | from the first corner: on success, a full consistent assembly, its picture and the roughness the search finds in it; `None` when no assembly survives or no monster shows |
| `Day20Part2.Part2` | src/bin/day20.rs:208-297 | `None` when the four-corners check panics; a printed answer is the roughness of the picture of a full consistent assembly from the first corner; otherwise none exists or no monster shows |
| `Day21.Common` | src/bin/day21.rs:43-56 | `None` exactly when no food lists the allergen; otherwise exactly the ingredients every food listing it has |
| `Day21.Listed` | src/bin/day21.rs:31-35 | every allergen some food lists has candidates |
| `Day21.AddAllergen` | src/bin/day21.rs:44-56 | the loop over the foods for one allergen inserts, then narrows, its entry to the ingredients its foods have in common, and adds no other entry |
| `Day21.BuildCandidates` | src/bin/day21.rs:42-57 | the table has exactly the listed allergens as keys, each with the ingredients its foods have in common, whatever order the set is visited in |
| `Day21.SafeMeans` | src/bin/day21.rs:59-67 | an ingredient is safe exactly when it is in some food and, for every allergen, some food listing that allergen lacks it |
| `Day21.OccurrencesNone` | src/bin/day21.rs:69-75 | counting no ingredients finds nothing |
| `Day21.OccurrencesAdd` | src/bin/day21.rs:70-75 | counting one more ingredient adds the number of foods that have it |
| `Day21.CountContaining` | src/bin/day21.rs:71-74 | the filter counts the foods that have the ingredient |
| `Day21.CountSafe` | src/bin/day21.rs:69-75 | part 1 counts every occurrence of a safe ingredient across the foods, whatever order the set is visited in |
| `Day21.Without` | src/bin/day21.rs:92-94 | the same allergens, each with the ingredient removed from its candidates |
| `Day21.Shrinks` | src/bin/day21.rs:80-95 | removing a candidate leaves strictly fewer allergen-candidate pairs, so the loop ends |
| `Day21.Retain` | src/bin/day21.rs:92-94 | the `retain` loop removes the ingredient from every candidate set |
| `Day21.Eliminate` | src/bin/day21.rs:79-95 | at the end every allergen's set is its starting set less the pinned ingredients, and none has exactly one candidate; each pin was a starting candidate of its allergen whose other starting candidates are all pinned, no ingredient is pinned twice, a pinned allergen has no candidate left, and no pinned ingredient is a candidate anywhere |
| `Day21.Pin` | src/bin/day21.rs:80-94 | one turn of the loop pins an allergen that has exactly one candidate to that ingredient and removes it from every set, keeping `Pinning` and strictly shrinking the table |
| `Day21.PinStep` | src/bin/day21.rs:90-94 | pinning an allergen's last candidate and removing it everywhere keeps every set equal to its starting set less the pins; the allergen and the ingredient were not pinned before |
| `Day21.PinnedGone` | src/bin/day21.rs:90-94 | under `Pinning`, a pinned allergen has an empty set and no pinned ingredient is left as anyone's candidate |
| `Day21Output.BeforeAsymmetric` | src/bin/day21.rs:98 | no name sorts before itself, and of two names at most one sorts before the other |
| `Day21Output.BeforeTotal` | src/bin/day21.rs:98 | of two different names, one sorts before the other |
| `Day21Output.BeforeTransitive` | src/bin/day21.rs:98 | the order on names is transitive |
| `Day21Output.SortedUnique` | src/bin/day21.rs:97-98 | two sorted lists of the same names are equal, so the order the map is drained in does not matter |
| `Day21Output.Later` | src/bin/day21.rs:98 | a name after the first of a sorted list is a different name |
| `Day21Output.Smallest` | src/bin/day21.rs:98 | the chosen name sorts before every other name of the set |
| `Day21Output.SortAllergens` | src/bin/day21.rs:97-98 | every pinned allergen appears exactly once, in alphabetical order |
| `Day21Output.Join` | src/bin/day21.rs:99-103 | joining no parts gives the empty string |
| `Day21Output.Find` | src/bin/day21.rs:99-103 | the first separator of the string |
| `Day21Output.FindAfter` | src/bin/day21.rs:99-103 | after a part without the separator, the first separator is the one right after that part |
| `Day21Output.SplitJoin` | src/bin/day21.rs:99-103 | splitting the joined list at commas gives the parts back, when no part holds a comma |
| `Day21Output.Ingredients` | src/bin/day21.rs:101 | the pinned ingredient of each allergen, in the given order |
| `Day21Output.Dangerous` | src/bin/day21.rs:97-105 | the pinned ingredients, ordered by their allergens' names and joined with commas; the order is the single sorted list of the pinned allergens |
| `Day22.RoundShape` | src/bin/day22.rs:36-49 | the round's winner puts its own card, then the other, at the bottom; the game is won exactly when the other player drew its last card, and otherwise both can draw again |
| `Day22.RoundCards` | src/bin/day22.rs:36-49 | a round keeps every card in play, and a game winner holds them all |
| `Day22.Settle` | src/bin/day22.rs:36-49 | the pushes and the empty-deck test after both cards are drawn give the round the winner decides |
| `Day22.CombatTurn` | src/bin/day22.rs:52-69 | `None` (the `unwrap` panic) exactly when a deck is empty; otherwise the round the higher card wins |
| `Day22.PlayedCards` | src/bin/day22.rs:71-80 | the winner of Combat ends up with every card dealt |
| `Day22.Play` | src/bin/day22.rs:71-80 | the loop over `combat_turn` returns the winner's deck as `Played` describes |
| `Day22.SubGame` | src/bin/day22.rs:25-28 | the sub-game deals copies of as many of each player's next cards as the card each drew, so it has fewer cards than its game |
| `Day22.ShortRound` | src/bin/day22.rs:22-23 | when a player cannot recurse, the higher card wins the round |
| `Day22.SubGameRound` | src/bin/day22.rs:24-34 | when both can recurse, the winner of the smaller sub-game wins the round |
| `Day22.RecGameCards` | src/bin/day22.rs:82-105 | recursive Combat never creates cards: a player 2 win holds every card in play, and a player 1 win holds some of them |
| `Day22.RecursiveCombatTurn` | src/bin/day22.rs:15-50 | `recursive_combat_turn` returns the round `RecRound` describes |
| `Day22.PlayRecursive` | src/bin/day22.rs:82-105 | the loop returns what `RecGame` describes: a repeated position is a win for player 1 with its deck, otherwise the winner of the rounds |
| `Day22.ScoreAppend` | src/bin/day22.rs:128-133 | a card put at the bottom counts once and adds one more count to every card above it |
| `Day22.ScoreBounds` | src/bin/day22.rs:128-133 | each card counts at least once and at most as many times as there are cards |
| `Day22.CalculateHandScore` | src/bin/day22.rs:128-133 | the sum of each card times its place counted from the bottom |
| `Day22.Part1` | src/bin/day22.rs:141-144 | the score of the Combat winner's deck, whenever the game ends |
| `Day22.Part2` | src/bin/day22.rs:145-148 | the score of the recursive Combat winner's deck, whenever the game ends |
| `Day23.Range` | src/bin/day23.rs:78 | exactly the `n` labels below `n` |
| `Day23.DistinctCard` | src/bin/day23.rs:78-81 | a list without repeats has as many values as its length |
| `Day23.Pigeonhole` | src/bin/day23.rs:78-81 | `n` different cups below `n` include every cup |
| `Day23.Below` | src/bin/day23.rs:54-58 | one label down stays a cup |
| `Day23.Dest` | src/bin/day23.rs:59-65 | the label the downward search stops at is a cup |
| `Day23.Destination` | src/bin/day23.rs:54-65 | the destination is a cup |
| `Day23.DestinationFree` | src/bin/day23.rs:54-65 | with at least four cups, the destination is never a picked-up cup; with five or more, never the current cup |
| `Day23.Turned` | src/bin/day23.rs:43-71 | a move keeps the size of the table |
| `Day23.CirclePermutation` | src/bin/day23.rs:41-73 | a table that links a circle never sends two cups to the same cup |
| `Day23.Rearranged` | src/bin/day23.rs:67-69 | moving the three cups keeps the circle's length |
| `Day23.Moved` | src/bin/day23.rs:41-73 | a move keeps every cup, once each |
| `Day23.MovedN` | src/bin/day23.rs:42 | any number of moves keeps every cup, once each |
| `Day23.RearrangedAt` | src/bin/day23.rs:67-69 | each position of the rearranged circle takes its cup from the old one |
| `Day23.RearrangedDistinct` | src/bin/day23.rs:67-69 | rearranging keeps every cup once and adds none |
| `Day23.CircleLinks` | src/bin/day23.rs:41-73 | every link of a circle names a cup |
| `Day23.TurnedWrites` | src/bin/day23.rs:52-69 | the move makes exactly the three writes of the source, in order |
| `Day23.SlotOf` | src/bin/day23.rs:54-69 | the destination sits some cups after the three picked up, or is the current cup |
| `Day23.MoveParts` | src/bin/day23.rs:43-69 | on a circle the destination is none of the three picked-up cups, and the writes are those of the move |
| `Day23.TurnedCircle` | src/bin/day23.rs:43-71 | the three writes turn the circle into the moved circle, and the next current cup is the first cup after the moved one |
| `Day23.MovedLink` | src/bin/day23.rs:52-69 | after the writes, each cup of the new circle is linked to the cup after it |
| `Day23.Follow` | src/bin/day23.rs:25 | following links stays on cups |
| `Day23.FollowCircle` | src/bin/day23.rs:20-29 | following the links of a circle from its first cup reads the circle in order |
| `Day23.CircleRotate` | src/bin/day23.rs:32-39 | a circle read from any of its cups is the same circle |
| `Day23.RotatedDistinct` | src/bin/day23.rs:32-39 | reading from another position keeps the cups distinct |
| `Day23.RotatedNext` | src/bin/day23.rs:32-39 | at every position of a circle read from another cup, the table still sends the cup to the one after it |
| `Day23.RotatedAt` | src/bin/day23.rs:32-39 | each position of the re-read circle takes its cup from the old reading |
| `Day23.Shift` | src/bin/day23.rs:32-39 | the re-read position is a position of the circle |
| `Day23.CircleFrom` | src/bin/day23.rs:32-39 | every cup of a circle starts a reading of it |
| `Day23.Walked` | src/bin/day23.rs:20-29 | the iterator yields as many cups as the table holds |
| `Day23.WalkedCircle` | src/bin/day23.rs:20-29 | from the first cup of a circle, the iterator yields the circle |
| `Day23.CupIterator.constructor` | src/bin/day23.rs:8-14 | a new iterator starts at `first` with nothing yielded |
| `Day23.CupIterator.Next` | src/bin/day23.rs:20-29 | `None` once as many cups as the table holds have been yielded; otherwise the next cup of the walk, counting one more |
| `Day23.PickUp` | src/bin/day23.rs:43-50 | the three cups after the current one, with no `unwrap` failing when there are four or more cups |
| `Day23.FindDestination` | src/bin/day23.rs:54-65 | the destination loop stops at the destination, which is not a picked-up cup |
| `Day23.TakeTurn` | src/bin/day23.rs:43-71 | one pass of the loop makes the writes and picks the next current cup, as `Turned` describes |
| `Day23.TakeTurns` | src/bin/day23.rs:41-73 | after `turns` moves the table links the circle moved `turns` times |
| `Day23.Labels` | src/bin/day23.rs:34-38 | the written labels are all digits |
| `Day23.Shown` | src/bin/day23.rs:35-36 | `skip(1).take(8)`: up to eight cups after the first, in order |
| `Day23.CupsToString` | src/bin/day23.rs:32-39 | the labels of the up to eight cups that follow cup 0 in the walk |
| `Day23.CupsToStringRing` | src/bin/day23.rs:32-39 | wherever cup 0 sits in the circle, the string shows the cups that follow it, in circle order |
| `Day23.Lowered` | src/bin/day23.rs:79 | the labels lowered by one form a circle of cups |
| `Day23.Padded` | src/bin/day23.rs:85-100 | the labels lowered, then the cups from the number of labels up to `n`, form a circle of `n` cups |
| `Day23.InitCups` | src/bin/day23.rs:78-81 | the first loop links each cup to the next in the puzzle's order, and the last to the first |
| `Day23.InitPadded` | src/bin/day23.rs:85-100 | the second loop links the puzzle's cups, then the rest up to `n` in order, into one circle |
| `Day23.Wrap` | src/bin/day23.rs:80 | `(i + 1) % n` is the next position, wrapping from the last to the first |
| `Day23.LinkStep` | src/bin/day23.rs:79-80 | linking one more cup keeps the links made before |
| `Day23.LinkedCircle` | src/bin/day23.rs:78-81 | once every cup is linked, the table links the circle |
| `Day23.ZeroAt` | src/bin/day23.rs:33 | where cup 0 sits in the circle |
| `Day23.FromZero` | src/bin/day23.rs:33 | the circle read from cup 0 starts with cup 0 |
| `Day23.WalkedFromZero` | src/bin/day23.rs:32-39 | the iterator from cup 0 yields the circle read from cup 0 |
| `Day23.Part1` | src/bin/day23.rs:76-83 | the labels of the eight cups after cup 1 once the puzzle's circle has made `turns` moves |
| `Day23.Stars` | src/bin/day23.rs:104-105 | the first and second cups after cup 0 |
| `Day23.Part2` | src/bin/day23.rs:85-112 | the two labels after cup 1 once the padded circle has made `turns` moves, and their product |
| `Day24.MoveInverse` | src/bin/day24.rs:10-37 | east and west, north-west and south-east, north-east and south-west undo each other on every row |
| `Day24.Neighbours` | src/bin/day24.rs:39-48 | the six tiles one step away, in the order east, south-east, south-west, west, north-west, north-east |
| `Day24.NeighboursDistinct` | src/bin/day24.rs:39-48 | the six neighbours are six different tiles, none of them the tile itself |
| `Day24.NeighbourSymmetric` | src/bin/day24.rs:39-48 | being a neighbour is symmetric |
| `Day24.DirectionsSpell` | src/bin/day24.rs:64-83 | every walk is read back from its spelling |
| `Day24.LettersFirst` | src/bin/day24.rs:64-83 | the letters of one step parse as that step followed by whatever the rest of the line parses as, and fail where the rest fails |
| `Day24.SpellDirections` | src/bin/day24.rs:64-83 | a line that parses is the spelling of what it parses to |
| `Day24.Back` | src/bin/day24.rs:85-89 | the walk back has as many steps |
| `Day24.WalkAppend` | src/bin/day24.rs:85-89 | a walk runs on from where its prefix ends |
| `Day24.WalkBack` | src/bin/day24.rs:85-89 | walking back retraces every walk to its start |
| `Day24.ParsePoints` | src/bin/day24.rs:60-91 | one tile per line, reached by folding the line's steps from the reference tile; `None` exactly when some line panics |
| `Day24.FlipAll` | src/bin/day24.rs:97-104 | the black tiles are exactly those listed an odd number of times |
| `Day24.Around` | src/bin/day24.rs:39-48 | the neighbours as a set |
| `Day24.Flipped` | src/bin/day24.rs:97-104 | a tile is black exactly when it is listed an odd number of times |
| `Day24.NextDayMeans` | src/bin/day24.rs:107-128 | a tile is black the next day exactly when the rule makes it so; no tile away from every black tile turns |
| `Day24.Bump` | src/bin/day24.rs:110-113 | the loop over a black tile's neighbours adds one to each neighbour's count and changes no other count |
| `Day24.CountStep` | src/bin/day24.rs:109-114 | one more black tile raises the count of each of its neighbours by one, and of no other tile |
| `Day24.Counted` | src/bin/day24.rs:109-114 | after one more black tile, the counts are those of the black tiles done so far |
| `Day24.CountNeighbours` | src/bin/day24.rs:108-114 | each tile's count is its number of black neighbours, and exactly the tiles with a black neighbour are counted |
| `Day24.CandidateMeans` | src/bin/day24.rs:117 | a tile is visited exactly when it is black or has a black neighbour |
| `Day24.KeepStep` | src/bin/day24.rs:117-125 | visiting one more tile keeps it exactly when the rule makes it black |
| `Day24.Keep` | src/bin/day24.rs:117-125 | one loop over a set of tiles adds exactly those the rule makes black |
| `Day24.Day` | src/bin/day24.rs:108-127 | one day gives exactly the next day's black tiles |
| `Day24.Days` | src/bin/day24.rs:107-128 | the day loop gives the black tiles after that many days |
| `Day24.Solve` | src/bin/day24.rs:97-129 | the number of black tiles after the flips, and after 100 days |
| `Day25.Transformed` | src/bin/day25.rs:9-15 | a transformed number is reduced modulo 20201227, unless there are no steps and it is 1 |
| `Day25.TransformedPow` | src/bin/day25.rs:9-15 | transforming `n` times is the `n`-th power, reduced once at the end |
| `Day25.PowAdd` | src/bin/day25.rs:9-15 | exponents add |
| `Day25.PowMul` | src/bin/day25.rs:9-15 | a power of a power multiplies the exponents |
| `Day25.PowMod` | src/bin/day25.rs:9-15 | reducing the base first does not change the reduced power |
| `Day25.Compose` | src/bin/day25.rs:9-15 | transforming a transformed number multiplies the loop sizes |
| `Day25.KeyAgreement` | src/bin/day25.rs:37-38 | each side transforms the other's public key with its own loop size and gets the same key, so the assertion never fails |
| `Day25.SameKey` | src/bin/day25.rs:34-38 | the key does not depend on which loop size produced a public key |
| `Day25.Handshake` | src/bin/day25.rs:9-15 | the loop computes the transformed number |
| `Day25.FindLoopSize` | src/bin/day25.rs:17-28 | the least loop size that turns the subject number into the key |
| `Day25.Solve` | src/bin/day25.rs:30-41 | the assertion never panics, and the key is what either side computes from the other's public key, for any loop sizes that produce the public keys |

## Left out

- Reading the input files, and `println!`, are not modelled for any day. Every model starts from the parsed values or the lines of text.
- Day1.SolveN: entries are unbounded integers, so overflow of the sums and products is not modelled.
- Day3.CountTrees: requires every row of the map to have the same width. The Rust code indexes each row modulo the first row's width and could panic on a shorter row.
- Day4.IsValidPassportId: the regex class `\d` matches every Unicode decimal digit. The model accepts only ASCII digits.
- Day4.ParsePassports: the regular expressions of the field checks are written out as the character tests they describe. The regex engine is not modelled.
- `main` (day 5): reading the boarding passes and mapping `boarding_pass_to_id` over them is not modelled. The model starts from the list of ids.
- The counts, sums and products that `main` prints over per-line or per-slope results are not modelled where no `Part`/`Solve` member is listed for that day. The member that `main` applies to each item is modelled instead.
- `parse_rule` (day 7): the two regular expressions that split a rule line are not modelled; the model starts from the raw rules.
- Day7.BagGraph.MarkContainers: takes a `fuel` bound on the rules popped and returns `None` when it runs out. The Rust loop has no bound and ends only on an acyclic graph.
- Day7.BagGraph.ContainedBagCount: requires a ranking that shows the graph is acyclic. On a cyclic graph the Rust recursion overflows the stack.
- `parse` (day 8): splitting the lines into instructions is not modelled; the model starts from the instruction list.
- Day8.State.Execute: the accumulator and the cursor are unbounded integers, so `isize` overflow is not modelled.
- `parse` (day 9): reading one number per line is not modelled. `usize` overflow of the running sums is not modelled either.
- Day10.Sort: `sort_unstable` is modelled as an insertion sort. Only its result is specified, and every sort gives that sorted permutation.
- Day10.CountArrangements: `usize` overflow of the sums of ways is not modelled.
- Day11.Settle: takes a `fuel` bound on the ticks and returns `None` when it runs out. The Rust loops run until the grid stops changing. SettleWithLineOfSight does the same.
- Day11.Parse: lines of different lengths are flattened as the Rust code does, but the cell guarantees are stated only for lines of one width.
- Day12.Navigate: positions are unbounded integers, so `isize` overflow is not modelled. NavigateByWaypoint is the same.
- Day13.Solution2Departs: assumes as a hypothesis that `inv_mod` inverts each `prod / b` modulo `b`. Fermat's little theorem, which gives this for prime `b` and coprime ids, is not proved.
- Day13.Solution2: the products and sums are unbounded integers, so `isize` overflow is not modelled.
- Day14.ParseLine: the two patterns are matched against the whole line. The Rust regular expressions are not anchored and would also find them inside a longer line. The regex engine itself is not modelled.
- Day14.Part1: `values.values().sum()` is stated as the memory map; the sum is MemorySum, with unbounded integers instead of a wrapping `usize`. Part2 is the same.
- Day15.Count: numbers and turns are unbounded, so the `u32` arithmetic is not modelled. The `trim`/`split`/`parse` of `main` (day 15) is left to the Text module's general functions.
- `parse` (day 16): the rule regular expression and the ticket lines are not modelled; the model starts from the rules and tickets.
- Day16.Part2: requires all nearby tickets to have the same number of fields. The Rust code indexes `fields[field_idx]` and would panic on a shorter kept ticket, which is not modelled.
- Day16.Eliminate: the Rust `while` loop runs forever when a pass assigns nothing. The model detects that and returns `Diverges`.
- Day17.Update: requires every point to have 3 or 4 coordinates, the only dimensions the source uses. Points are modelled as integer sequences, without `isize` overflow.
- `main` (day 17): the parse of the initial slice and the six cycles are not modelled. `Update` is the step they repeat.
- Day18.Tokenizer.Next: a number above `isize::MAX` panics, as `parse().unwrap()` does. The evaluator works on unbounded integers, so `isize` overflow in `eval` and in the sum is not modelled.
- Day18.Homework: `Peekable` is modelled as a position in the line's token stream. The stream records whether asking past the last token panics.
- Day18.ParseExprSpec: its own contract only bounds the position. What it computes is stated by `LeftAssociative` and `AdditionsFirst` for lines without parentheses, not for nested ones.
- Day19.Match: the matcher has a `fuel` bound on the rule numbers it follows and returns `Exhausted` past it. The Rust recursion has no bound: a left-recursive grammar overflows the stack. Soundness holds for every fuel, and completeness holds up to the fuel.
- Day19.Match: `rules[entry]` on a missing rule number panics in the source. The model returns `Panic` for it.
- `main` (day 19): reading the two input files and counting the accepted messages are not modelled. `Accepted` is the filter that the count applies.
- Day20Final.ISqrt: the grid width `(tiles.len() as f64).sqrt() as usize` is modelled as the integer square root. This agrees with the `f64` computation for every tile count a puzzle can have, but floating point is not modelled.
- Day20Assembly.Assemble: states which assemblies survive, as a set, but not the order of the list. Day20Part2.Part2 therefore states its answer for the assembly it hands back, which is one of the surviving ones.
- Day20Monsters.SweepInPlace: decides whether the loop bounds underflow before sweeping. The Rust code would panic at the same subtraction, with nothing swept, so the outcome is the same.
- `tiles_for_edge` (day 20): the `u16` edge values are `bv16`, but the buckets use their numeric values as keys.
- `parse` (day 21): splitting each line into an ingredient set and an allergen set is not modelled. The model starts from the foods.
- Day21.BuildCandidates, Day21.CountSafe, Day21.Retain, Day21.Eliminate: iteration over a `HashMap` or `HashSet` visits entries in any order. The model chooses entries arbitrarily, and every contract holds for every order.
- Day21.Eliminate: its contract does not say that every allergen gets pinned. The source does not promise that either: the loop stops when no allergen has exactly one candidate left.
- Day21Output.Before: `&str` ordering compares UTF-8 bytes. The model compares characters, which gives the same order.
- `parse` (day 22): reading the two hands is not modelled. The model starts from the decks.
- Day22.Play, Day22.PlayRecursive: both take a `fuel` bound on the rounds and return `None` past it. The Rust loops have no bound, and plain Combat can go on forever.
- Day22.PlayRecursive: the `previously_played` memo of sub-game results is not modelled, and every game is played out. The source consults the memo at every position. A position that once started a sub-game returns that sub-game's result. This can differ from playing out only in the deck returned for a win by repetition.
- Day22.CalculateHandScore: `usize` overflow is not modelled.
- Day23.TakeTurn: requires at least four cups. With three cups the destination loop never ends, and with fewer an `unwrap` panics. The source only uses 9 and 1,000,000 cups.
- Day23.CupIterator.Next: requires every link of the table to name a cup, as every table the source builds does.
- Day23.Part1, Day23.Part2: cups are numbered from 0, as the source stores them, and the results add 1 back. The labels, the number of cups and the number of moves are parameters: `main` uses 9 fixed labels, 100 moves, and 1,000,000 cups with 10,000,000 moves.
- Day24.ParsePoints: `isize` overflow of the coordinates is not modelled.
- Day24.Day: the chained iteration over the black tiles and the counted tiles is modelled as two loops over sets, one after the other. `HashSet` order is arbitrary in the model.
- Day25.FindLoopSize: requires that some loop size produces the key. The Rust loop never ends otherwise.
- `parse` (day 25) and the reading of the two public keys are not modelled. `Day25.Solve` takes the keys as parameters.
- Text: the Rust standard library's `str::trim`, `split`, `parse` and `to_string` are modelled on `seq<char>`, by the behaviour their documentation gives. Rust strings are UTF-8 bytes, and byte offsets are not modelled.

## Findings

| source | as written | input that shows it | evidently intended | confidence | as-written member | corrected member |
|---|---|---|---|---|---|---|
| src/bin/day13.rs:33-38 | `min_by_key` yields the `(index, id)` pair of the earliest bus, and the code binds the index as `wait_time`, so it prints the id times the bus's position in the list | earliest time 939 with buses `7,13,x,x,59,x,31,19`: bus 59 sits at position 4 and waits 5 minutes, so the code prints 236 | the bus id times its wait, 295 for this input | not executed | `Day13.Solution1AsWritten` | `Day13.Solution1` |
