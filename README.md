# Advent of Code 2017, modelled in Dafny

This project models the puzzle solutions of an Advent of Code 2017 repository written in Rust
(`rust/src/dayNN.rs`) and TypeScript/JavaScript (`js/dayNN/index.ts|js`), and proves what
each solution promises: its parsers, interpreters, in-place buffer algorithms, walkers and
folds, with the examples from the repository's own tests as lemmas.

One Dafny module per source file:

| module | file | source |
|---|---|---|
| `Common` | common.dfy | `Option` / `Result` used throughout, and the zero-default register lookup of days 8 and 18 |
| `Arith` | arith.dfy | absolute values, the maximum of a sequence, and facts about Euclidean and truncating division |
| `Text` | text.dfy | splitting and joining text on a separator |
| `Decimal` | decimal.dfy | decimal digits of integers, parsed and printed |
| `UlamSpiral` | day03_spiral.dfy | rust/src/day03.rs |
| `Tubes` | day19_tubes.dfy | rust/src/day19.rs |
| `Particles` | day20_particles.dfy | rust/src/day20.rs |
| `Scanners` | day13_firewall.dfy | rust/src/day13.rs |
| `Generators` | day15_generators.dfy | rust/src/day15.rs |
| `Plumber`, `PlumberSample` | day12_village.dfy | rust/src/day12.rs |
| `HexGrid` | day11_hex.dfy | rust/src/day11.rs |
| `Spreadsheet` | day02_checksum.dfy | rust/src/day02.rs |
| `InverseCaptcha` | day01_captcha.dfy | rust/src/day01.rs |
| `MemoryBanks` | js_day06_allocator.dfy | js/day06/index.ts |
| `Trampolines` | js_day05_maze.dfy | js/day05/index.ts |
| `Passphrases` | js_day04_passphrase.dfy | js/day04/index.ts |
| `SpiralCoordinates` | js_day03_spiral.dfy | js/day03/index.ts |
| `CorruptionChecksum` | js_day02_checksum.dfy | js/day02/index.ts, js/day02/index.js |
| `CircularSum` | js_day01_captcha.dfy | js/day01/index.ts, js/day01/index.js |
| `Coords` | coords.dfy | rust/src/coords.rs |
| `Registers` | day08_registers.dfy | rust/src/day08.rs |
| `Stream` | day09_stream.dfy | rust/src/day09.rs |
| `KnotHash` | day10_knot_hash.dfy | rust/src/day10.rs |
| `Defrag` | day14_defrag.dfy | rust/src/day14.rs |
| `Dance` | day16_dance.dfy | rust/src/day16.rs |
| `Spinlock` | day17_spinlock.dfy | rust/src/day17.rs |
| `Soundcard` | day18_soundcard.dfy | rust/src/day18.rs |
| `PixelGrid` | day21_image.dfy | rust/src/day21.rs: pictures as values, flips, rotations and the symmetries of the square |
| `PixBufs` | day21_pixbuf.dfy | rust/src/day21.rs: the `PixBuf` buffer updated in place |
| `FractalRules` | day21_rules.dfy | rust/src/day21.rs: the text format, rules and rule books |

Source files whose names are cited below are relative to the repository root.

`js/day01/index.js` and `js/day02/index.js` carry the same logic as their TypeScript twins
`index.ts` (the JavaScript drops the types), so one module models each pair, and the rows
below cite the TypeScript lines.

Day 18 follows `rust/src/day18.rs`, which holds one machine: it plays sounds and stops at
the first `rcv` of a register that is not zero. Descriptions of the puzzle also have a
second part, with two programs sending each other values through queues. That file has no
such part, so the model has none either.

## Model

| member | source | states |
|---|---|---|
| UlamSpiral.Neighbors | rust/src/day03.rs:42-56 | the eight cells listed are exactly the cells touching `c` (at most one step away on each axis, never `c` itself) |
| UlamSpiral.NeighborsDistinct | rust/src/day03.rs:42-56 | no cell is listed twice among the eight neighbours |
| UlamSpiral.Lookup | rust/src/day03.rs:38-40 | a lookup finds a value exactly when the cell is in the map, and then it is the stored value |
| UlamSpiral.Ulam.constructor | rust/src/day03.rs:30-32 | a new spiral stores nothing, so every `get` is `None` |
| UlamSpiral.Ulam.Set | rust/src/day03.rs:34-36 | `set(c, v)` replaces the value at `c` and no other, after which `get(c)` is `Some(v)` |
| UlamSpiral.Ulam.NeighborsValues | rust/src/day03.rs:58-60 | the eight stored values, `None` where nothing is stored, in the order of `neighbors` |
| UlamSpiral.Delta | rust/src/day03.rs:89-98 | every direction moves exactly one unit along one axis |
| UlamSpiral.PreferredNext | rust/src/day03.rs:78-86 | the preferred direction is the quarter turn to the left (counter-clockwise) of the current one |
| UlamSpiral.TurnsCycle | rust/src/day03.rs:78-86 | four left turns give back the starting direction and fewer do not |
| UlamSpiral.Start | rust/src/day03.rs:112-118 | a new iterator has no cell, no direction and an empty record of visited cells |
| UlamSpiral.Advance | rust/src/day03.rs:127-171 | one call of `next`: it always yields a cell, marks exactly that cell visited, and keeps the iterator's state consistent (so the `unwrap` of the direction never fails) |
| UlamSpiral.AdvanceSteps | rust/src/day03.rs:142-167 | each cell after the first is one unit step from the previous one |
| UlamSpiral.Walked | rust/src/day03.rs:127-171 | after `n` calls the state is consistent and, for `n > 0`, has a current cell |
| UlamSpiral.WalkedNext | rust/src/day03.rs:127-171 | each call of `next` advances the state by one step |
| UlamSpiral.UlamIterator.constructor | rust/src/day03.rs:112-118 | a new iterator is in the start state with a fresh, empty spiral of its own |
| UlamSpiral.UlamIterator.Next | rust/src/day03.rs:127-171 | `next` on the object (its own `Ulam` updated in place) moves to the next state of the walk and returns `Some` of the new current cell |
| UlamSpiral.WalkedVisits | rust/src/day03.rs:127-171 | the iterator's record of visited cells holds exactly the cells it has yielded |
| UlamSpiral.StepIsFresh | rust/src/day03.rs:147-167 | each yielded cell had not been visited before |
| UlamSpiral.CellsDistinct | rust/src/day03.rs:131-136 | the first cell is the origin and no cell is yielded twice |
| UlamSpiral.PosIndex | rust/src/day03.rs:127-171 | the closed-form place `t` of ring `r` lies on ring `r` at place `t` |
| UlamSpiral.IndexPos | rust/src/day03.rs:127-171 | every cell of ring `r` is the closed-form cell of its own place on the ring |
| UlamSpiral.SpiralWalk | rust/src/day03.rs:127-171 | the closed-form state at place `t` of ring `r` is a consistent iterator state |
| UlamSpiral.SpiralVisitedSeen | rust/src/day03.rs:147-158 | at place `t` of ring `r` the visited cells are exactly the inner rings and ring `r` up to place `t` |
| UlamSpiral.SeenAlongRing | rust/src/day03.rs:147-158 | one place further along a ring adds exactly that place to the visited cells |
| UlamSpiral.SeenNextRing | rust/src/day03.rs:147-158 | on entering ring `r` every inner ring and the first place of ring `r` are visited |
| UlamSpiral.TurnOrKeep | rust/src/day03.rs:142-167 | at the four corners of a ring (and on entering it) the cell to the left is the next place, unvisited, so the iterator turns; elsewhere it lies on an inner ring, so the iterator keeps its direction and the straight step is the next place |
| UlamSpiral.AdvanceAlongRing | rust/src/day03.rs:127-171 | `next` moves from place `t` to place `t + 1` of the same ring |
| UlamSpiral.AdvanceToNextRing | rust/src/day03.rs:127-171 | `next` after the last place of ring `r` reaches place 0 of ring `r + 1` |
| UlamSpiral.SecondStep | rust/src/day03.rs:131-145 | the second cell is (1, 0), reached going right, since there is no direction yet |
| UlamSpiral.RingStartNext | rust/src/day03.rs:127-171 | ring `q` holds `8q` cells |
| UlamSpiral.RingStartSquare | rust/src/day03.rs:127-171 | the cells inside ring `r` are `(2r - 1)^2` |
| UlamSpiral.WalkedOnSpiral | rust/src/day03.rs:127-171 | the iterator's state after `(2r - 1)^2 + t + 1` calls is the closed-form state at place `t` of ring `r` |
| UlamSpiral.WalkedAlongRing | rust/src/day03.rs:127-171 | the step case of `WalkedOnSpiral` within a ring |
| UlamSpiral.WalkedToNextRing | rust/src/day03.rs:127-171 | the step case of `WalkedOnSpiral` onto the next ring |
| UlamSpiral.RingOf | rust/src/day03.rs:127-171 | every step number after the first has a ring and a place on it |
| UlamSpiral.CellAtSpiral | rust/src/day03.rs:127-171 | the cell yielded at step `(2r - 1)^2 + t` is the closed-form cell at place `t` of ring `r` |
| UlamSpiral.FirstCellsOfWalk | rust/src/day03.rs:204-217 | the first 26 cells are the listed ones, from (0, 0), (1, 0), (1, 1) to (2, -2), (3, -2) |
| UlamSpiral.YieldedAt | rust/src/day03.rs:127-171 | the cell yielded at step `i` is the current cell after `i + 1` calls |
| UlamSpiral.LastVisit | rust/src/day03.rs:152-167 | call `i + 1` adds the cell it yields to the visited cells |
| UlamSpiral.DistanceForSquare | rust/src/day03.rs:219-229 | the result is the Manhattan distance from the origin of the cell numbered `n` |
| UlamSpiral.DistanceSampleOne | rust/src/day03.rs:231-237 | square 1 is 0 steps away |
| UlamSpiral.DistanceSampleTwelve | rust/src/day03.rs:231-237 | square 12 is 3 steps away |
| UlamSpiral.DistanceSampleTwentyThree | rust/src/day03.rs:231-237 | square 23 is 2 steps away |
| UlamSpiral.DistanceSample1024 | rust/src/day03.rs:231-237 | square 1024 is 31 steps away |
| UlamSpiral.SumPresentCounts | rust/src/day03.rs:264-268 | every value present is part of the sum, missing ones counting 0 |
| UlamSpiral.SumOfEight | rust/src/day03.rs:264-268 | the sum of eight optional values is their sum spelled out |
| UlamSpiral.NeighborSumSample | rust/src/day03.rs:182-202 | around the origin of the grid holding 1 to 9 the neighbours sum to 40, and to 0 on an empty grid |
| UlamSpiral.StepTouches | rust/src/day03.rs:142-167 | consecutive cells of the walk are neighbours of each other |
| UlamSpiral.NeighborSumCounts | rust/src/day03.rs:264-268 | the sum around a cell includes the value at each of its neighbours |
| UlamSpiral.StressGrows | rust/src/day03.rs:263-271 | the values written along the spiral never decrease |
| UlamSpiral.StressStep | rust/src/day03.rs:263-271 | the value written at step `k` is the sum around its cell of what the earlier steps wrote, and writing it gives the next grid |
| UlamSpiral.AllAtMostNext | rust/src/day03.rs:272-275 | one more value not above `check` extends the run of values not above it |
| UlamSpiral.FillCell | rust/src/day03.rs:264-271 | sums the neighbours' values (missing ones as 0) and writes the sum at the cell, changing nothing else |
| UlamSpiral.Part2 | rust/src/day03.rs:256-279 | returns the first value written that is above `check`, every earlier one being at most `check`; `None` only when the first `fuel` values are all at most `check` |
| Tubes.OppositeInvolutive | rust/src/day19.rs:17-24 | turning round twice gives the starting direction, and turning round never keeps it |
| Tubes.Neighbor | rust/src/day19.rs:33-57 | the neighbour in any direction is exactly one step away |
| Tubes.NeighborOpposite | rust/src/day19.rs:17-41 | stepping one way and then the opposite way returns to the cell |
| Tubes.DirectionFrom | rust/src/day19.rs:59-70 | `Some(d)` exactly when the cell is the neighbour of `previous` in direction `d`; `None` when it is no neighbour of it (not adjacent, or the same cell) |
| Tubes.DirectionFromNeighbor | rust/src/day19.rs:59-70 | the direction from a cell to its neighbour in direction `d` is `d` |
| Tubes.NeighborSamples | rust/src/day19.rs:73-89 | the neighbours of (4, -3) and the directions into (5, 5) from its four neighbours are those of the tests |
| Tubes.KindOf | rust/src/day19.rs:115-121 | a space is an empty room, `|`, `-`, `+` are tubes and corners, and every other character is a letter room holding that character |
| Tubes.TrimNewlines | rust/src/day19.rs:113 | the result is a prefix of the text not ending in a newline, and only newlines were removed |
| Tubes.RowRoomsAt | rust/src/day19.rs:114-124 | reading a line adds exactly its own cells, each holding the room of its character, and keeps every other cell |
| Tubes.RoomsOfAt | rust/src/day19.rs:110-128 | the maze has a room exactly at the (column, line) positions of the map's characters, holding the room of that character |
| Tubes.FromMap | rust/src/day19.rs:110-128 | the nested loops build exactly the rooms of the map's lines (after trailing newlines are trimmed) |
| Tubes.GetStart | rust/src/day19.rs:130-136 | `None` exactly when no cell of the top line holds a vertical tube; otherwise such a cell |
| Tubes.Candidates | rust/src/day19.rs:188-196 | the ways on kept by the filter are exactly the listed cells that hold a non-empty room and are not the cell the walker came from |
| Tubes.CellAfter | rust/src/day19.rs:170-204 | a cell it moves to holds a non-empty room and is a neighbour of the current cell |
| Tubes.CellAfterStraight | rust/src/day19.rs:175-186 | on a tube or letter the walk goes straight on exactly when the next cell holds a non-empty room, and ends exactly when it does not |
| Tubes.Around | rust/src/day19.rs:188 | the four candidates are exactly the cells one step away |
| Tubes.AroundDistinct | rust/src/day19.rs:188 | the four candidates are distinct |
| Tubes.CellAfterCorner | rust/src/day19.rs:187-199 | at a corner the walk moves to `next` exactly when `next` is the only non-empty neighbour other than the cell it came from |
| Tubes.CornerTakesOnlyWay | rust/src/day19.rs:187-199 | the cell a corner moves to is its only way on |
| Tubes.OnlyWayTaken | rust/src/day19.rs:187-199 | a corner with a single way on moves to it |
| Tubes.CandidatesSingle | rust/src/day19.rs:197-198 | when one open cell is the only candidate, the filtered list is exactly that one cell, so the `len() == 1` assertion holds |
| Tubes.StepFrom | rust/src/day19.rs:210-229 | the next cell is the neighbour of the current one in the new direction, and holds a non-empty room |
| Tubes.PathFrom | rust/src/day19.rs:146-156 | the walk yields at most `fuel` cells, all of them when cut off, and each cell holds a non-empty room one step from the previous cell |
| Tubes.PathStep | rust/src/day19.rs:210-229 | a failure or the end of the walk ends the path; otherwise the path is the next cell followed by the path from it |
| Tubes.PathStepOn | rust/src/day19.rs:210-229 | a step to `next` starts the path, and the rest of the path goes on from `next` |
| Tubes.LetterAt | rust/src/day19.rs:148-152 | one character exactly when the cell holds a letter room, and then that letter |
| Tubes.LettersCons | rust/src/day19.rs:148-152 | the letters of a path are those of its first cell followed by those of the rest |
| Tubes.MazeIter.constructor | rust/src/day19.rs:166-168 | a new walker has yielded no cell and heads south |
| Tubes.MazeIter.Next | rust/src/day19.rs:210-229 | the first call yields a start cell heading south, or `None` when there is none; each later call yields the cell after the last one and the direction it was entered in, stays put at the end of the walk, and passes a failure of `cell_after` on |
| Tubes.WalkOn | rust/src/day19.rs:148-153 | calling `next` until the end collects exactly the letters of the path after the current cell, and ends as the path does |
| Tubes.FindTreasure | rust/src/day19.rs:146-156 | with no start the treasure is empty; otherwise it is the letters of the start cell and of the path after it, in order, and the walk ends as that path does |
| Particles.ScaleProduct | rust/src/day20.rs:36-42 | adding `v` to itself `k` times multiplies every component by `k` |
| Particles.TriangleClosed | rust/src/day20.rs:73-78 | the sum 1 + 2 + … + n is n(n + 1)/2 |
| Particles.AddLaws | rust/src/day20.rs:36-42 | vector addition is commutative and associative, with the zero vector as identity |
| Particles.AddSample | rust/src/day20.rs:44-49 | (1, 2, 3) + (5, 6, 7) = (6, 8, 10), as in `test_vec3` |
| Particles.Update | rust/src/day20.rs:73-78 | the velocity gains the acceleration first and the position then gains the new velocity; the acceleration is kept |
| Particles.UpdatesClosedForm | rust/src/day20.rs:73-78 | after n updates the velocity is v + n·a and the position is p + n·v + (n(n + 1)/2)·a |
| Particles.Distance | rust/src/day20.rs:80-83 | the Manhattan distance is never negative, is zero exactly at the origin and is at least each coordinate's magnitude |
| Particles.ParticleSamples | rust/src/day20.rs:86-103 | the two particles of `test_particle` update to the tested states, at distances 4 and 2 |
| Particles.Closest | rust/src/day20.rs:17 | none for no particles; otherwise a slot whose distance is the least, and no earlier slot is as near (the first minimum) |
| Particles.Stepped | rust/src/day20.rs:118-123 | every live slot holds its particle updated once and every empty slot stays empty |
| Particles.Survivors | rust/src/day20.rs:125-132 | a slot is emptied exactly when its particle shares its position with another live particle; every other slot is kept |
| Particles.CountSomeLive | rust/src/day20.rs:137-139 | the count of live slots is the size of the set of live slots |
| Particles.TickCount | rust/src/day20.rs:114-135 | a tick keeps the same slots live before removal, removes only live slots, and leaves the count lowered by exactly the number removed |
| Particles.SurvivorsApart | rust/src/day20.rs:125-132 | after a tick no two live particles share a position |
| Particles.IndicesAt | rust/src/day20.rs:116-123 | the list for a position holds exactly the live slots below `k` whose particle is there, in increasing order |
| Particles.IndicesAtNext | rust/src/day20.rs:121 | looking at one more slot appends it to the list of its particle's position and leaves every other list alone |
| Particles.IndexedNext | rust/src/day20.rs:121 | pushing slot `i` onto its position's entry keeps the map holding exactly the non-empty lists of the slots seen |
| Particles.CrowdedIffShared | rust/src/day20.rs:125-126 | a particle collides exactly when the list at its position has more than one slot |
| Particles.DoneStart | rust/src/day20.rs:116-125 | every live particle's position is a key of the map, so before the second loop no collision is handled |
| Particles.DoneNext | rust/src/day20.rs:125-132 | visiting a position adds exactly the colliding slots at that position to those handled |
| Particles.CrowdedAtListed | rust/src/day20.rs:126-130 | the colliding slots at a position are all its listed slots when there are more than one, and none otherwise |
| Particles.ColliderSample | rust/src/day20.rs:142-154 | in `test_collider` the first tick removes nothing and leaves 4, the second removes 3 and leaves 1 |
| Particles.Collider.constructor | rust/src/day20.rs:110-112 | every particle is placed live in its own slot, in order |
| Particles.Collider.Count | rust/src/day20.rs:137-139 | the number of live slots |
| Particles.Collider.Tick | rust/src/day20.rs:114-135 | the slots become the survivors of the updated slots, and the result is the number of colliding slots |
| Particles.Collider.StepAll | rust/src/day20.rs:118-123 | the loop updates every live particle and builds the map from each occupied position to the increasing list of slots there |
| Particles.Collider.TakeCrowded | rust/src/day20.rs:125-132 | visiting the positions in any order empties exactly the colliding slots and counts each once |
| Particles.Collider.TakeAt | rust/src/day20.rs:126-131 | visiting one position empties its slots when there are more than one, extending the handled slots by them and the count by their number |
| Particles.Collider.EmptySlots | rust/src/day20.rs:127-130 | the inner loop empties exactly the listed slots and counts one per slot |
| Scanners.PosAt | rust/src/day13.rs:18-29 | no position exactly for a layer without range, a panic exactly for range one, and otherwise a position inside the range |
| Scanners.SweepClosed | rust/src/day13.rs:23-28 | a scanner started at the top and turned round at either end is, after t steps, t mod (range - 1) below the top on even runs and that far above the bottom on odd runs, heading down exactly on even runs |
| Scanners.PosAtSweep | rust/src/day13.rs:18-29 | `pos_at` is the position of a scanner moved one step per picosecond and turned round at either end |
| Scanners.PosAtPeriodic | rust/src/day13.rs:23-28 | the position repeats after a round trip of 2 (range - 1) turns |
| Scanners.CaughtIff | rust/src/day13.rs:23-28 | the scanner is at the top exactly when the turn is a multiple of 2 (range - 1) |
| Scanners.PosAtSamples | rust/src/day13.rs:32-49 | the tested positions of ranges 3 and 6 over turns 0 to 5 |
| Scanners.ParseEntryShow | rust/src/day13.rs:62-65 | a line written as `depth: range` parses back to that depth and range |
| Scanners.LaidPlaced | rust/src/day13.rs:57-75 | with depths in ascending order, the layers run from depth 0 to the deepest entry, each entry at the index of its depth and a `(0, 0)` gap at every other index |
| Scanners.LaidLength | rust/src/day13.rs:67-71 | with ascending depths the layout ends one past the deepest entry |
| Scanners.LaidEntries | rust/src/day13.rs:67-71 | with ascending depths every entry sits at the index of its depth |
| Scanners.LaidGaps | rust/src/day13.rs:67-71 | with ascending depths every index that is no entry's depth holds a gap |
| Scanners.LaidAppend | rust/src/day13.rs:67-71 | a new deeper entry comes after the layers so far, separated from them by gaps |
| Scanners.LaidSnoc | rust/src/day13.rs:61-72 | laying out one more entry extends the layout by that entry |
| Scanners.Parse | rust/src/day13.rs:57-75 | the first line that does not parse is the error; otherwise the layers are the layout of all the lines' entries |
| Scanners.ParseEntriesCRLF | rust/src/day13.rs:61-64 | the lines of `0: 3\r\n1: 2\r\n` are `0: 3` and `1: 2`, read as the entries (0, 3) and (1, 2): carriage returns before newlines are dropped |
| Text.LinesCRLFTerminated | rust/src/day13.rs:61 | as `lines()` does, a text whose every line ends in `\r\n` is read back as its lines, without the carriage returns and without an empty last line |
| Text.LinesJoinCRLF | rust/src/day13.rs:61 | as `lines()` does, lines joined by `\r\n` with no line ending after the last are read back as the lines |
| Scanners.PushEntry | rust/src/day13.rs:67-71 | one pass of the loop appends the gaps up to the entry's depth and then the entry |
| Scanners.SampleLaid | rust/src/day13.rs:95-98 | the example's entries are laid out as seven layers |
| Scanners.SeverityMeaning | rust/src/day13.rs:81-92 | the severity fails exactly when some layer has range one; otherwise it is none exactly when no scanner catches the packet, and else the penalties range times depth of the catching layers added up |
| Scanners.TraverseDelayed | rust/src/day13.rs:81-92 | the loop computes the severity of crossing with the given delay, failing as the first layer of range one does |
| Scanners.SeverityFails | rust/src/day13.rs:81-92 | a failing layer makes the whole traversal fail with its error |
| Scanners.Traverse | rust/src/day13.rs:77-79 | the crossing without delay |
| Scanners.FindSafeDelay | rust/src/day13.rs:102-104 | a delay returned lets the packet through and every smaller delay gets it caught; with no delay found every delay tried gets it caught; a failure comes from some delay tried |
| Scanners.SampleSeverity | rust/src/day13.rs:95-100 | crossing the example without delay has severity 24 |
| Scanners.SampleSafeDelay | rust/src/day13.rs:106-110 | in the example every delay below 10 is caught and 10 is not, so the first safe delay is 10 |
| Scanners.SampleCaught | rust/src/day13.rs:106-110 | each delay below 10 is caught in the example |
| Generators.OutputsAt | rust/src/day15.rs:20-25 | the `i`-th value handed out is the value after `i + 1` steps |
| Generators.ValuePower | rust/src/day15.rs:20-25 | every value handed out is below the divisor and equals the start times the factor to the power of the steps taken, reduced once |
| Generators.ValueSplit | rust/src/day15.rs:20-25 | `j + k` steps from a start are `k` steps from the value after `j` |
| Generators.OutputsSplit | rust/src/day15.rs:20-25 | the values handed out after `j` steps are those of a generator started at the value reached after `j` steps |
| Generators.FactorGenerator.constructor | rust/src/day15.rs:8-10 | `start` becomes the previous value and nothing has been handed out |
| Generators.FactorGenerator.Next | rust/src/day15.rs:20-25 | the previous value times the factor reduced by the divisor becomes the previous value, is handed out, is below the divisor, and extends the values handed out |
| Generators.DivisibleConcat | rust/src/day15.rs:42-50 | the divisible values of two runs in a row are those of the first then those of the second |
| Generators.DivisibleNone | rust/src/day15.rs:42-50 | a run without a multiple of `check` yields nothing |
| Generators.DivisibleMembers | rust/src/day15.rs:42-50 | every value kept is a multiple of `check` taken from the run |
| Generators.DivFactorGenerator.constructor | rust/src/day15.rs:12-14 | wrapping a generator yields nothing yet and remembers how far the inner generator had gone |
| Generators.DivFactorGenerator.Next | rust/src/day15.rs:42-50 | the inner generator is drawn until a multiple of `check` comes; that value is handed out, every value drawn before it was not a multiple, and the values handed out stay the divisible subsequence of the inner generator's values since wrapping |
| Generators.PickyDivisible | rust/src/day15.rs:42-50 | what a picky generator hands out over `n` inner steps is the in-order subsequence of multiples of `check` among the first `n` values |
| Generators.LowBitsEq | rust/src/day15.rs:68-70 | the lowest `k` binary digits of two values agree exactly when the values agree modulo `2^k` |
| Generators.JudgeIff | rust/src/day15.rs:66-71 | the judge matches a pair exactly when both values agree modulo 65536, i.e. in their low 16 bits |
| Generators.CountMatches | rust/src/day15.rs:61-72 | drawing `pairs` values from each generator, the count is the number of judged pairs among the values drawn |
| Generators.DrawPair | rust/src/day15.rs:76-80 | one step of the zip draws from the first picky generator and, only if it yielded, from the second |
| Generators.CountPickyMatches | rust/src/day15.rs:75-86 | zipping two picky generators, the count is the number of judged pairs among the values they hand out, over every pair compared |
| Generators.FirstA | rust/src/day15.rs:90-96 | generator A (factor 16807, start 65) hands out 1092455, 1181022009, 245556042, 1744312007, 1352636452 |
| Generators.FirstB | rust/src/day15.rs:90-99 | generator B (factor 48271, start 8921) hands out 430625591, 1233683848, 1431495498, 137874439, 285222916 |
| Generators.PickyA | rust/src/day15.rs:103-110 | generator A keeping multiples of 4 hands out 1352636452, 1992081072, 530830436, 1980017072, 740335192 within its first 20 values |
| Generators.PickyB | rust/src/day15.rs:103-113 | generator B keeping multiples of 8 hands out 1233683848, 862516352, 1159784568, 1616057672, 412269392 within its first 81 values |
| Plumber.Village.constructor | rust/src/day12.rs:10-12 | a new village knows no program, and its (empty) pipes work both ways |
| Plumber.Village.Insert | rust/src/day12.rs:23-26 | `other` joins what `prog` talks to, the entry being created when `prog` was unknown; every other entry is unchanged |
| Plumber.Village.Connect | rust/src/day12.rs:14-17 | connecting inserts both directions, and a village whose pipes work both ways keeps them so |
| Plumber.ConnectedMeaning | rust/src/day12.rs:14-17 | after connecting, each program is among the other's and both are known; every earlier pipe is kept and no other pipe appears |
| Plumber.Village.Get | rust/src/day12.rs:19-21 | succeeds exactly for a known program, with the programs it talks to; an unknown program is the `unwrap` panic |
| Plumber.Searcher.constructor | rust/src/day12.rs:57-59 | a new searcher has found and expanded nothing |
| Plumber.Searcher.Find | rust/src/day12.rs:61-74 | the search only adds to the found and expanded sets; every program it expands is reachable from `target`, each is known and everything it talks to is found and expanded; nothing is found that an expanded program does not talk to; the result lists the found set ascending; it fails only when an unknown program is reachable |
| Plumber.SortedList | rust/src/day12.rs:71-73 | the found set collected and sorted: an ascending list holding exactly the set's programs |
| Plumber.AscendingUnique | rust/src/day12.rs:71-73 | two ascending lists holding the same programs are equal, so the sorted result is determined by the set |
| Plumber.Village.ConnectedTo | rust/src/day12.rs:28-31 | succeeds exactly when every program reachable from `start` is known, and then lists ascending exactly the programs talked to by programs reachable from `start` |
| Plumber.ReachesKnown | rust/src/day12.rs:19-21 | in a village whose pipes work both ways, every program reachable from a known program is known, so `get` never panics during a search from a known program |
| Plumber.SameGroup | rust/src/day12.rs:33-47 | with pipes working both ways, a program found from `q` has exactly `q`'s group, which is why `num_groups` may skip programs already visited |
| Plumber.Village.NumGroups | rust/src/day12.rs:33-47 | the number of distinct groups collected over all known programs is the number of distinct groups of the village |
| PlumberSample.SampleConnected | rust/src/day12.rs:96-102 | connecting 1-2, 1-3, 2-4 and 5-6 leaves 1 talking to 2, 3; 2 to 1, 4; 3 to 1; 4 to 2; 5 to 6 and 6 to 5 |
| PlumberSample.SampleGroups | rust/src/day12.rs:103-106 | the sample's groups are 1, 2, 3, 4 and 5, 6 |
| PlumberSample.Sample | rust/src/day12.rs:96-107 | the test's results: `connected_to(1)` is `[1, 2, 3, 4]`, `connected_to(5)` and `connected_to(6)` are `[5, 6]`, and there are 2 groups |
| HexGrid.ParseDirection | rust/src/day11.rs:13-24 | a text is a direction exactly when its capitalised form is one of the six names, and then the direction's name is that form; anything else is the error "couldn't parse direction" |
| HexGrid.ParseName | rust/src/day11.rs:13-24 | every direction's name parses back to that direction |
| HexGrid.ParseSamples | rust/src/day11.rs:27-32 | "n" parses as north, "sw" as south-west, and "ok" is an error |
| HexGrid.UnitOnPlane | rust/src/day11.rs:55-66 | each direction's unit hex has coordinates summing to zero and lies at distance 1 |
| HexGrid.UnitOpposite | rust/src/day11.rs:55-66 | the unit hexes of opposite directions add up to the origin |
| HexGrid.UnitDistinct | rust/src/day11.rs:55-66 | different directions have different unit hexes |
| HexGrid.AddLaws | rust/src/day11.rs:72-78 | adding hexes is commutative and associative, the origin adds nothing, and the sum of two hexes on the plane q+r+s=0 is on it |
| HexGrid.DistanceOnPlane | rust/src/day11.rs:50-52 | on the plane the absolute coordinates sum to twice the largest of them, so the halving is exact and the distance is the largest absolute coordinate |
| HexGrid.StepDistance | rust/src/day11.rs:84-87 | adding a direction keeps a hex on the plane and changes its distance by at most one |
| HexGrid.AddSamples | rust/src/day11.rs:90-96 | (1,3,-2) + (3,-4,3) is (4,-1,1), and (1,3,-2) plus north is (1,4,-3) |
| HexGrid.PositionConcat | rust/src/day11.rs:104-105 | the fold's position after two walks in a row is the sum of their positions |
| HexGrid.PositionBounds | rust/src/day11.rs:104-105 | every position folded from the origin is on the plane, and its distance is at most the number of steps |
| HexGrid.FurthestIsMax | rust/src/day11.rs:109-119 | the furthest distance bounds the distance of every position passed, is reached by one of them or is 0, and is at most the number of steps |
| HexGrid.MaxDistance | rust/src/day11.rs:109-119 | the loop returns the furthest distance of any position passed, and 0 when there are no steps |
| Spreadsheet.ParseCell | rust/src/day02.rs:13-17 | a cell is a number exactly when it is a signed decimal literal, and then it is that literal's value; anything else (an empty cell too) aborts the `unwrap` |
| Spreadsheet.ParseSheet | rust/src/day02.rs:13-17 | a text read as a sheet has one row per line |
| Spreadsheet.ParseShowSheet | rust/src/day02.rs:13-17 | a sheet of non-empty rows, written one row per line with single spaces between numbers, reads back as the same sheet |
| Spreadsheet.ParseSheetCRLF | rust/src/day02.rs:13-17 | the text `5 1\r\n` reads as the one row 5, 1: the carriage return is dropped with the line ending, so no empty cell is left |
| Spreadsheet.ParseShowRow | rust/src/day02.rs:15-16 | a non-empty row written with single spaces reads back as the same row |
| Spreadsheet.SampleSpelling | rust/src/day02.rs:19-25 | the rows 1 2 3 and 4 5 6 are written "1 2 3\n4 5 6", so with `ParseShowSheet` that text reads as those rows |
| Spreadsheet.ChecksumSum | rust/src/day02.rs:27-33 | the checksum succeeds exactly when every row's checksum does, and is then the sum of the rows' checksums |
| Spreadsheet.HiLo | rust/src/day02.rs:44-52 | the row checksum is the difference between a largest and a smallest value of the row (what the sorted row's last minus first is), never negative, and 0 for an empty row |
| Spreadsheet.PairOutcome | rust/src/day02.rs:62-67 | a pair aborts exactly when its second value is zero; a hit has a nonzero divisor that leaves no remainder, and is the pair in one order or the other |
| Spreadsheet.FindDivMeaning | rust/src/day02.rs:59-71 | `find_div` finds nothing only when no pair divides either way and no divisor is zero; what it finds is the hit of the first pair in scan order that does not let the scan go on; it aborts only at a zero divisor met before any hit |
| Spreadsheet.ContinueMeaning | rust/src/day02.rs:62-67 | a pair the scan passes over holds two nonzero values neither of which divides the other |
| Spreadsheet.DivChecksum | rust/src/day02.rs:54-57 | the row checksum is a quotient that multiplied by the found divisor gives the found dividend; a row without a dividing pair aborts with the `expect` message |
| Spreadsheet.FindDivSamples | rust/src/day02.rs:73-78 | 3 2 7 9 and 9 2 7 3 give the pair (9, 3), and 3 7 13 gives nothing |
| Spreadsheet.FirstSheetSpelling | rust/src/day02.rs:35-42 | the first text of the checksum test is the first sample sheet written out |
| Spreadsheet.HiLoSample | rust/src/day02.rs:35-42 | the largest-minus-smallest checksum of the first sample sheet is 18 |
| Spreadsheet.SecondSheetSpelling | rust/src/day02.rs:35-42 | the second text of the checksum test is the second sample sheet written out |
| Spreadsheet.DivSample | rust/src/day02.rs:35-42 | the evenly-dividing checksum of the second sample sheet is 9 |
| InverseCaptcha.DigitOf | rust/src/day01.rs:17 | a character is a digit exactly when it is one of `0`..`9`, and then its value is below 10; any other character aborts the `unwrap` |
| InverseCaptcha.ParseDigitsMeaning | rust/src/day01.rs:17 | the input parses exactly when every character is a decimal digit, and then every value is below 10 |
| InverseCaptcha.Wrap | rust/src/day01.rs:20-23 | the inner loop leaves the partner's position below the length, equal to its remainder by the length |
| InverseCaptcha.SumMatchingIndex | rust/src/day01.rs:13-31 | the total is the sum of the digits equal to the digit at their partner position taken round the circle; a non-digit aborts |
| InverseCaptcha.GetSum | rust/src/day01.rs:9-11 | Part 1 is the same sum with each digit compared against the next one |
| InverseCaptcha.CaptchaBounds | rust/src/day01.rs:13-31 | for any partner the sum is at most nine per digit, and a list of one repeated digit sums to that digit times the length |
| InverseCaptcha.NextOneCircular | rust/src/day01.rs:9-11 | Part 1 sums each digit equal to its right neighbour, plus the last digit when it equals the first (the list is circular) |
| InverseCaptcha.HalfwayTwice | rust/src/day01.rs:6 | Part 2 on an even-length list is twice the sum of the first half's digits equal to the digit halfway round, since each match is counted from both sides |
| InverseCaptcha.NextOneSamples | rust/src/day01.rs:35-37 | 1122 gives 3, 1111 gives 4, and 1234 gives 0 |
| InverseCaptcha.NextOneLongSample | rust/src/day01.rs:38 | 91212129 gives 9 |
| InverseCaptcha.HalfwaySamples | rust/src/day01.rs:44-47 | halfway round, 1212 gives 6, 1221 gives 0, 123425 gives 4, and 123123 gives 12 |
| InverseCaptcha.HalfwayLongSample | rust/src/day01.rs:48 | halfway round, 12131415 gives 4 |
| InverseCaptcha.ParseShortSample | rust/src/day01.rs:35 | the text 1122 is the digits 1, 1, 2, 2 |
| InverseCaptcha.ParseLongSample | rust/src/day01.rs:38 | the text 91212129 is its eight digits |
| Arith.Max | js/day06/index.ts:15 | the largest bank count: one of the banks, and no bank holds more (also the largest cell of `row_checksum_hi_lo` at rust/src/day02.rs:44-52) |
| MemoryBanks.FirstIndexOf | js/day06/index.ts:16 | -1 exactly when no element equals the value; otherwise the first position holding it |
| MemoryBanks.SpreadHits | js/day06/index.ts:22-28 | handing out `amount` blocks from `index` adds to each bank exactly the number of blocks whose turn, counted round the banks, falls on it |
| MemoryBanks.SpreadSum | js/day06/index.ts:22-28 | handing out adds every block of a positive amount to the total, and nothing for a non-positive one |
| MemoryBanks.FullestBank | js/day06/index.ts:15-17 | the bank emptied is the first one holding the most blocks: every bank before it holds fewer |
| MemoryBanks.BalancedBank | js/day06/index.ts:13-20 | after a round each bank holds its old count (zero for the emptied bank) plus the blocks its turn received |
| MemoryBanks.BalancedSum | js/day06/index.ts:13-20 | a round keeps the total, except when the largest count is negative and nothing is handed out |
| MemoryBanks.BalancedMeaning | js/day06/index.ts:13-20 | the whole round at once: the first fullest bank is emptied, each bank's new count, and the total |
| MemoryBanks.BalancedNatural | js/day06/index.ts:13-20 | banks with no negative count never get one |
| MemoryBanks.BalancedKeepsTotal | js/day06/index.ts:13-20 | banks with no negative count keep their total block count |
| MemoryBanks.HashJoin | js/day06/index.ts:36-38 | the hash is the banks' decimal spellings joined with commas |
| MemoryBanks.HashInjective | js/day06/index.ts:36-38 | two configurations have the same hash exactly when they are the same |
| MemoryBanks.MemoryAllocator.constructor | js/day06/index.ts:9-11 | the allocator works on the caller's array itself, with nothing recorded and no rounds |
| MemoryBanks.MemoryAllocator.HasVisited | js/day06/index.ts:40-42 | a hash has been visited exactly when it is in the history |
| MemoryBanks.MemoryAllocator.GetSteps | js/day06/index.ts:44-46 | the number of rounds is the number of hashes recorded |
| MemoryBanks.MemoryAllocator.GetStepsAtFirst | js/day06/index.ts:48-52 | the rounds since the hash's first entry in the history, and one more than the rounds for a hash never recorded (`indexOf` gives -1) |
| MemoryBanks.MemoryAllocator.AddToHistory | js/day06/index.ts:30-34 | the current hash is added to the set and appended to the history, and the set still holds exactly the history's hashes |
| MemoryBanks.MemoryAllocator.Redistribute | js/day06/index.ts:22-28 | the array afterwards holds the blocks handed out one at a time from `index`, wrapping to the first bank |
| MemoryBanks.MemoryAllocator.Balance | js/day06/index.ts:13-20 | the old configuration's hash is appended, the array holds the balanced configuration, and the round is counted |
| MemoryBanks.HashesAt | js/day06/index.ts:30-34 | the `k`-th hash recorded is the hash of the configuration after `k` rounds |
| MemoryBanks.DistinctExtend | js/day06/index.ts:60-62 | a configuration whose hash was not recorded differs from every earlier one |
| MemoryBanks.Round | js/day06/index.ts:60-62 | a round taken on a new configuration keeps the history, the array and the count in step with the rounds, all configurations distinct |
| MemoryBanks.Reallocate | js/day06/index.ts:60-64 | the loop stops at the first configuration seen before: all earlier ones are distinct, it equals the one `loopSize` rounds back, and `0 < loopSize <= steps`; `None` when the rounds run out with all configurations distinct |
| MemoryBanks.RepeatFound | js/day06/index.ts:48-52 | since the hash determines the configuration, the configuration `loopSize` rounds back is the current one |
| Trampolines.JumpRun | js/day05/index.ts:22-27 | a walk with jumps left is one jump (the offset rewritten by the modifier, the position moved by the old offset) followed by the walk from where it lands |
| Trampolines.RunMoreFuel | js/day05/index.ts:29-36 | a walk that ends within the jumps allowed ends the same way, after the same number of jumps, when more are allowed |
| Trampolines.RunSteps | js/day05/index.ts:29-36 | a walk that ends has made no more jumps than allowed |
| Trampolines.ModifiersKeepForward | js/day05/index.ts:56 | both modifiers (`n + 1`, and `n - 1` from three on) keep offsets from pointing backwards and move an offset of zero forward |
| Trampolines.ForwardExits | js/day05/index.ts:22-36 | over offsets that never point backwards the walk always leaves past the end, after at most one jump per positive offset and two per zero offset still ahead |
| Trampolines.ForwardMazeExits | js/day05/index.ts:29-36 | from the first offset, with either modifier, offsets that never point backwards are left past the end within two jumps per offset |
| Trampolines.JumpMaze.constructor | js/day05/index.ts:11-16 | the maze works on a fresh copy of the offsets, at the first offset with no jumps made; the caller's array is not modified |
| Trampolines.JumpMaze.IsExited | js/day05/index.ts:18-20 | the maze is exited exactly when the position is at or past the number of offsets |
| Trampolines.JumpMaze.Jump | js/day05/index.ts:22-27 | the offset at the position is replaced by its modified value, the position moves by the old offset, one more jump is counted, and nothing else changes |
| Trampolines.JumpMaze.Traverse | js/day05/index.ts:29-36 | the outcome is the walk from the current state, its jumps counted on top of those already made; when exited, the result is the maze's jump count |
| Trampolines.StepsToExit | js/day05/index.ts:47-59 | a part of the puzzle: the walk over the offsets from the first one with the part's modifier |
| Passphrases.Sort | js/day04/index.ts:21-22 | the characters of a word in ascending order, each as often as in the word |
| Passphrases.InsertAscending | js/day04/index.ts:21 | inserting a character into an ascending text keeps it ascending and adds exactly that character |
| Passphrases.AscendingUnique | js/day04/index.ts:21-24 | two ascending texts with the same characters are the same text, so the sorted text depends only on the characters |
| Passphrases.CommaJoinedShape | js/day04/index.ts:21-22 | `join()` puts each character at an even position with commas between, so the joined text has length `2n - 1` for `n` characters |
| Passphrases.CommaJoinedInjective | js/day04/index.ts:21-24 | different character lists never join to the same text |
| Passphrases.AnagramIff | js/day04/index.ts:20-25 | two words are anagrams exactly when they hold the same characters, each as often |
| Passphrases.AnagramLaws | js/day04/index.ts:16-25 | being anagrams is reflexive, symmetric and transitive, and equal words are anagrams |
| Passphrases.NewLine | js/day04/index.ts:32-33 | a line holds one word per token, in order, with the token's text |
| Passphrases.HasPartner | js/day04/index.ts:44-46 | the inner `some`: the word at `i` is related to a word at another position among the first `k` |
| Passphrases.AnyPair | js/day04/index.ts:43-47 | the outer `some`: one of the first `k` words is related to a word at another position |
| Passphrases.CompareAllWords | js/day04/index.ts:42-48 | true exactly when the words at two different positions are related, in that order |
| Passphrases.DuplicatesIff | js/day04/index.ts:50-52 | a line contains duplicate words exactly when two different positions hold the same text |
| Passphrases.AnagramsIff | js/day04/index.ts:54-56 | a line contains anagrams exactly when two different positions hold the same characters, each as often |
| Passphrases.DuplicatesAreAnagrams | js/day04/index.ts:50-56 | a line with a repeated word contains anagrams |
| Passphrases.CountValid | js/day04/index.ts:66-67 | the number of lines for which the check fails is at most the number of lines |
| Passphrases.PartTwoAtMostPartOne | js/day04/index.ts:66-67 | Part 2 counts no more valid lines than Part 1 |
| SpiralCoordinates.FindClosestSquare | js/day03/index.ts:3-10 | the base found is `lastBase` plus an even number, its square reaches the target, and the odd base below it (if any was tried) falls short |
| SpiralCoordinates.ClosestSquareLeast | js/day03/index.ts:3-10 | from base 1 the base found is the least odd number whose square reaches the target |
| SpiralCoordinates.ClosestSquareRing | js/day03/index.ts:3-10 | a target after `lo * lo` and up to `hi * hi`, for consecutive odd `lo` and `hi`, finds the square of side `hi` |
| SpiralCoordinates.FindCoordinateErr | js/day03/index.ts:12-56 | `findCoordinate` throws exactly for a target that is not the square and lies at or before `square - 4 (base - 1)` |
| SpiralCoordinates.CoordinateOnRing | js/day03/index.ts:12-56 | walking back from the ring's last cell `(r, -r)` finds the cell `t` places along ring `r`, on every one of the four sides |
| SpiralCoordinates.LocateBelowOne | js/day03/index.ts:55-61 | a target below 1 makes the script throw |
| SpiralCoordinates.LocateOnSpiral | js/day03/index.ts:58-61 | from 2 on, the square found has side `2r + 1` for the number's ring `r`, and the coordinate is the number's place on that ring |
| SpiralCoordinates.LocateAgreesWithWalk | js/day03/index.ts:58-62 | for every target from 1 on, the coordinate is the cell the Rust spiral walker reaches at that number, so both solutions report the same distance |
| SpiralCoordinates.LocateOnRing | js/day03/index.ts:58-61 | every coordinate found has its larger absolute coordinate equal to `armDepth` |
| Coords.Add | rust/src/coords.rs:6-12 | adding coordinates adds the columns and the rows separately |
| Coords.AddCommutes | rust/src/coords.rs:6-12 | the sum does not depend on order or grouping, and `Coord(0, 0)` changes nothing |
| Coords.PairRoundTrip | rust/src/coords.rs:14-24 | a pair turned into a coordinate and back, or a coordinate into a pair and back, is unchanged |
| Coords.LexTotal | rust/src/coords.rs:3 | the derived ordering (column first, then row) is irreflexive, asymmetric, transitive and total |
| Coords.LexWeakerThanComponents | rust/src/coords.rs:3 | being at least as large in both components implies being at least as large in the derived ordering, but not conversely: `(4, 4) >= (3, 5)` although its row is smaller |
| Registers.ComparatorOf | rust/src/day08.rs:97-105 | a token names a comparator exactly when it is one of the six spellings, and that comparator spells back to the token |
| Registers.OperationOf | rust/src/day08.rs:56-60 | only `inc` and `dec` name an operation, which spells back to the token |
| Registers.ConditionOf | rust/src/day08.rs:93-109 | a condition is read exactly when there are three words, the second a comparator and the third an integer; the register is the first word and the value the parsed third |
| Registers.ActionOf | rust/src/day08.rs:53-64 | the words before ` if ` give an instruction exactly when the second is `inc`/`dec` and the third an integer, with the condition read after ` if ` |
| Registers.ParseInstruction | rust/src/day08.rs:44-65 | a line without ` if ` is an error (the `unwrap` of `find`) |
| Registers.ComparatorRoundTrip | rust/src/day08.rs:97-105 | every comparator's spelling is read back as that comparator |
| Registers.OperationRoundTrip | rust/src/day08.rs:56-60 | every operation's spelling is read back as that operation |
| Registers.ParseShowCondition | rust/src/day08.rs:93-109 | a condition spelled `register comparator value` parses back to itself |
| Registers.CutAtIf | rust/src/day08.rs:45-49 | the first ` if ` of a spelled instruction is the one in front of its condition |
| Registers.ParseShowInstruction | rust/src/day08.rs:44-65 | an instruction spelled `register op amount if condition` parses back to itself |
| Registers.ParseShowProgram | rust/src/day08.rs:25-28 | a program spelled one instruction per line parses back to the program |
| Common.ValueOrZero | rust/src/day08.rs:172-173 | a register's value is the stored one, or 0 for a register never seen (also `get_register` at rust/src/day18.rs:172-174) |
| Registers.Touch | rust/src/day08.rs:154-171 | touching a register adds it with value 0 if it is new and changes no stored value |
| Registers.Maximum | rust/src/day08.rs:184-189 | the running maximum is at least the start and every value, and is one of them |
| Registers.ExecuteTouches | rust/src/day08.rs:149-182 | one instruction makes its register and its condition's register known, adds no other, and changes no register but its own |
| Registers.ExecuteEffect | rust/src/day08.rs:155-163 | when the condition fails nothing changes value; when it holds the register gets its value plus or minus the amount |
| Registers.HighestIsMaximum | rust/src/day08.rs:184-189 | after a program the highest value is the maximum of its start and every value recorded |
| Registers.ExecuteHighest | rust/src/day08.rs:184-189 | one instruction raises the highest value to the value it records, when that is larger |
| Registers.ExecuteAllBounded | rust/src/day08.rs:143-189 | the highest value never decreases and bounds every register after every instruction |
| Registers.Machine.constructor | rust/src/day08.rs:139-141 | a new machine has no registers and a highest value of 0 |
| Registers.Machine.HighestValue | rust/src/day08.rs:200-202 | the highest value is at least 0 and bounds every register |
| Registers.Machine.CheckCondition | rust/src/day08.rs:166-182 | the condition's register is touched and the comparison made against its value, the highest value unchanged |
| Registers.Machine.RecordValue | rust/src/day08.rs:184-189 | the register is overwritten and the highest value raised to the new value when it is larger |
| Registers.Machine.RunInstruction | rust/src/day08.rs:149-164 | the machine moves to the state the instruction's specification gives |
| Registers.Machine.Run | rust/src/day08.rs:143-147 | running a program gives the state of executing its instructions in order |
| Registers.InstructionSample | rust/src/day08.rs:68-83 | `b inc 5 if a > 1` parses to its instruction |
| Registers.ConditionSampleEq | rust/src/day08.rs:112-121 | `a == -3` parses to the condition register `a`, `==`, `-3` |
| Registers.ConditionSampleLte | rust/src/day08.rs:122-130 | `tux <= 42` parses to the condition register `tux`, `<=`, `42` |
| Registers.SampleSpellings | rust/src/day08.rs:217-220 | the four sample instructions are spelled as the test's lines |
| Registers.SampleParses | rust/src/day08.rs:216-222 | the test's program text parses to the four sample instructions |
| Registers.SampleRun | rust/src/day08.rs:215-230 | the sample program ends with a = 1, b = 0, c = -10 and a highest value of 10 |
| Registers.SampleSteps | rust/src/day08.rs:215-230 | the state after each instruction of the sample |
| Stream.Step | rust/src/day09.rs:32-69 | one iteration of the loop consumes at least one character; `Err` exactly where `parse_normal` panics |
| Stream.StepKeepsDepths | rust/src/day09.rs:43-50 | the stack is always 1, 2, ..., d: `{` pushes one more than the enclosing score (1 at top level) and `}` pops and adds the depth of the group it closes |
| Stream.RunMonotone | rust/src/day09.rs:32-69 | the score and the garbage count never decrease during a scan |
| Stream.ScoreOfRender | rust/src/day09.rs:18-69 | the text of every well-formed stream scans to the sum of its groups' depths and the number of ordinary characters inside its garbage (not `!`, not cancelled, not the closing `>`) |
| Stream.RunItem | rust/src/day09.rs:32-69 | scanning one item at depth `d` adds its score and garbage count and leaves the stack as it found it |
| Stream.RunGroup | rust/src/day09.rs:44-50 | a group opens one level deeper, scans its children there and adds its own depth when it closes |
| Stream.RunGarbageRun | rust/src/day09.rs:51-69 | `<`, the garbage contents and `>` add the contents' ordinary characters and return to normal state |
| Stream.RunUnits | rust/src/day09.rs:60-69 | inside garbage each ordinary character counts one, and a `!` with the character it cancels counts nothing |
| Stream.CloseWithoutOpen | rust/src/day09.rs:48-50 | a `}` with no open group is an error whatever follows it |
| Stream.UnexpectedCharacter | rust/src/day09.rs:53-57 | outside garbage any character other than `{`, `}`, `<` and `,` is an error |
| Stream.SampleNested | rust/src/day09.rs:98 | `{{{},{},{{}}}}` scores 16 with no garbage |
| Stream.SampleCancelled | rust/src/day09.rs:102 | `{{<a!>},{<a!>},{<a!>},{<ab>}}` scores 3 with 17 garbage characters: the cancelled `>` keeps the garbage open |
| Stream.Parser.constructor | rust/src/day09.rs:22-30 | a new parser holds the whole text, an empty stack, zero counts and normal state |
| Stream.Parser.Consume | rust/src/day09.rs:71-79 | the next character is taken exactly when it is the one asked for, and nothing else changes |
| Stream.Parser.ConsumeAny | rust/src/day09.rs:81-83 | the next character, if any, is taken and nothing else changes |
| Stream.Parser.ParseNormal | rust/src/day09.rs:43-58 | one character outside garbage moves the parser exactly as the step specification does, and fails exactly where it errs |
| Stream.Parser.ParseGarbage | rust/src/day09.rs:60-69 | one character (or `!` and the character it cancels) inside garbage moves the parser as the step specification does, and never fails |
| Stream.Parser.GetScore | rust/src/day09.rs:32-41 | running to the end of the input gives the score and garbage count of the scan, or the scan's error |
| Stream.Parser.Score | rust/src/day09.rs:18-20 | a fresh parser over the text gives the text's score and garbage count |
| KnotHash.Swap | rust/src/day10.rs:41 | exchanging two elements keeps the length |
| KnotHash.Wrap | rust/src/day10.rs:48-55 | the wrapped index is inside the list |
| KnotHash.WrapMod | rust/src/day10.rs:48-55 | subtracting the length until the index fits is taking the remainder by the length |
| KnotHash.Process | rust/src/day10.rs:37-46 | after one length the list keeps its size and the position stays inside it |
| KnotHash.ProcessReverses | rust/src/day10.rs:37-46 | for a length no longer than the list, `process_length` reverses the circular window of that length at the position |
| KnotHash.SwapsMirror | rust/src/day10.rs:38-42 | after `k` swaps the first and last `k` places of the window hold each other's elements and every other element is where it was |
| KnotHash.AtOffset | rust/src/day10.rs:39-40 | going round the list from the position by an index's offset comes back to that index |
| KnotHash.SwapPermutes | rust/src/day10.rs:41 | a swap keeps the multiset of elements |
| KnotHash.SwapsPermutes | rust/src/day10.rs:38-42 | the swaps of one length keep the multiset of elements |
| KnotHash.RunLengthsPermutes | rust/src/day10.rs:31-35 | any sequence of lengths keeps the list a permutation of what it was |
| KnotHash.RunRoundsPermutes | rust/src/day10.rs:16-18 | any number of rounds keeps the list a permutation of what it was |
| KnotHash.RunLengthsPosition | rust/src/day10.rs:31-46 | the position stays inside the list and the skip grows by one per length |
| KnotHash.ByteRange | rust/src/day10.rs:79-86 | the starting list holds the bytes 0 to 255 in order |
| KnotHash.Utf8 | rust/src/day10.rs:12 | a character is one to four bytes, an ASCII character the single byte of its code |
| KnotHash.DenseBlocks | rust/src/day10.rs:20-21 | byte `k` of the dense hash is the exclusive-or of block `k` of 16 sparse bytes |
| KnotHash.HexByte | rust/src/day10.rs:22 | each byte is two lower-case hexadecimal digits |
| KnotHash.HexString | rust/src/day10.rs:20-24 | the digits of the bytes joined: two hexadecimal digits per byte |
| KnotHash.KnotHashShape | rust/src/day10.rs:11-25 | every knot hash is 32 lower-case hexadecimal digits, folded from a permutation of the bytes 0 to 255 |
| KnotHash.KnotHasher.constructor | rust/src/day10.rs:27-29 | a new hasher holds the given list at position 0 with skip 0 |
| KnotHash.KnotHasher.GetWrappingIndex | rust/src/day10.rs:48-55 | the subtracting loop gives the wrapped index |
| KnotHash.KnotHasher.Exchange | rust/src/day10.rs:41 | the array's elements at the two indices are exchanged and no others change |
| KnotHash.KnotHasher.ProcessLength | rust/src/day10.rs:37-46 | processing a length in place moves the hasher to the state the specification gives |
| KnotHash.KnotHasher.Run | rust/src/day10.rs:31-35 | processing the lengths in order moves the hasher to the state the specification gives |
| KnotHash.KnotHasher.ToSlice | rust/src/day10.rs:57-59 | the slice is the current list |
| KnotHash.KnotHasher.Hash | rust/src/day10.rs:11-25 | the computed hash is the knot hash of the input |
| KnotHash.GenList | rust/src/day10.rs:79-86 | the pushing loop yields the bytes 0 to 255 in order |
| KnotHash.SampleFirst | rust/src/day10.rs:88-93 | length 3 on 0..4 gives 2 1 0 3 4 at position 3 with skip 1 |
| KnotHash.SampleSecond | rust/src/day10.rs:88-93 | length 4 then gives 4 3 0 1 2 at position 3 with skip 2 |
| KnotHash.SampleThird | rust/src/day10.rs:88-93 | length 1 then changes nothing but the position (1) and the skip (3) |
| KnotHash.SampleFourth | rust/src/day10.rs:88-93 | length 5 then gives 3 4 2 1 0 |
| KnotHash.SampleRun | rust/src/day10.rs:88-93 | the lengths 3, 4, 1, 5 turn the list 0..4 into 3 4 2 1 0 |
| Defrag.HexValue | rust/src/day14.rs:71 | a hexadecimal digit's value is below 16 |
| Defrag.HexValueOfDigit | rust/src/day14.rs:71 | every digit `0-9a-f` reads back as its own value |
| Defrag.HexValueCaseInsensitive | rust/src/day14.rs:71 | upper-case letters read like lower-case ones |
| Defrag.Bits4 | rust/src/day14.rs:72 | a digit becomes exactly four binary digits |
| Defrag.Bits4Value | rust/src/day14.rs:72 | the four binary digits, high bit first, read back as the number |
| Defrag.HexToBin | rust/src/day14.rs:69-74 | the conversion succeeds exactly when every character is a hexadecimal digit; it is then four times as long, block `k` being the four bits of digit `k` |
| Defrag.HexToBinRejects | rust/src/day14.rs:71 | any character that is not a hexadecimal digit makes the conversion fail (the `unwrap` panics) |
| Defrag.HexToBinStep | rust/src/day14.rs:70-73 | one more digit appends its four bits |
| Defrag.SampleHexToBin | rust/src/day14.rs:76-79 | `a0c2017` converts to `1010000011000010000000010111` |
| Defrag.HexStringToBin | rust/src/day14.rs:9-10 | a knot hash always converts without error |
| Defrag.ValidNeighbours | rust/src/day14.rs:37-40 | the squares kept are exactly the four neighbours that lie on the grid (`is_valid_coord`: both coordinates in 0 to 127) |
| Defrag.Row | rust/src/day14.rs:7-12 | each row has 128 squares |
| Defrag.HashBits | rust/src/day14.rs:10-11 | square `y` of a row is used exactly when bit `y` of the hash in binary is `1` |
| Defrag.GridOf | rust/src/day14.rs:7-12 | the grid is 128 rows of 128 squares, row `x` from the key with `-x` appended |
| Defrag.ConnectedSelf | rust/src/day14.rs:35-50 | a used square is in its own region |
| Defrag.ConnectedStep | rust/src/day14.rs:37-49 | a used square next to a square of a region is in that region |
| Defrag.ConnectedSymmetric | rust/src/day14.rs:37 | regions are symmetric, since being next to each other is |
| Defrag.ClosedHoldsConnected | rust/src/day14.rs:37-49 | a visited set holding every neighbour of each of its used squares holds the whole region of each |
| Defrag.Traverse | rust/src/day14.rs:35-50 | `traverse` never removes a visited square, adds only squares on the grid, adds used squares only from the start's region, and leaves every neighbour of the start and of each used square it reached visited |
| Defrag.CountGroups | rust/src/day14.rs:17-31 | the count is the number of regions: each counted square is used, no two lie in one region, and every used square lies in the region of a counted one |
| Dance.ParseIndex | rust/src/day16.rs:29 | an exchange index is read exactly when it is an unsigned decimal number, as that number |
| Dance.ParseMove | rust/src/day16.rs:19-40 | an empty move or one starting with anything but `s`, `x`, `p` is no move; a spin, exchange or partner move comes only from its letter |
| Dance.ParseShowMove | rust/src/day16.rs:19-40 | every move written out (`sN`, `xA/B`, `pA/B`) parses back to itself |
| Dance.SplitTwo | rust/src/day16.rs:29-35 | two pieces without `/` joined by `/` split back into the two pieces |
| Dance.RotatedBy | rust/src/day16.rs:47-51 | a rotation keeps the length of the line |
| Dance.Position | rust/src/day16.rs:57-58 | a name is found exactly when it is in the line, at its first position |
| Dance.SwapAt | rust/src/day16.rs:54-59 | a swap succeeds exactly when both positions are in the line |
| Dance.SwapAtExchanges | rust/src/day16.rs:53-55 | a swap exchanges the two positions, changes nothing else and keeps the programs |
| Dance.SpinLine | rust/src/day16.rs:47-51 | popping the last program and inserting it at the front `amount` times is the spin move |
| Dance.RotateOnce | rust/src/day16.rs:49-50 | moving the last program to the front rotates one place further right |
| Dance.RotatedPermutes | rust/src/day16.rs:47-51 | a spin keeps the programs, only moving them |
| Dance.RotatedFull | rust/src/day16.rs:47-51 | a spin by the whole length, or by nothing, leaves the line as it was |
| Dance.PartnerSwapsNames | rust/src/day16.rs:56-60 | a partner move succeeds exactly when both names are in the line, and then exchanges their first positions |
| Dance.Move | rust/src/day16.rs:46-64 | each arm of the `match` applies its move |
| Dance.MovePermutes | rust/src/day16.rs:42-66 | every move keeps the length of the line and the programs in it |
| Dance.Dance | rust/src/day16.rs:42-66 | the moves are parsed and applied in order, the first failure ending the dance |
| Dance.DanceAfter | rust/src/day16.rs:45-65 | the dance up to move `k + 1` is the dance up to `k` followed by move `k` |
| Dance.DanceStops | rust/src/day16.rs:45-65 | once a move fails the whole dance fails with that error |
| Dance.DancePermutes | rust/src/day16.rs:42-66 | a whole dance keeps the length of the line and its programs |
| Dance.UnknownMoveFails | rust/src/day16.rs:61-63 | a move of no known kind stops the dance with an error |
| Dance.Order | rust/src/day16.rs:4-9 | the input is trimmed, split at commas and danced by `abcdefghijklmnop`; a finished dance leaves the same sixteen programs, each once, in some order |
| Dance.OrderOfMoves | rust/src/day16.rs:6-8 | moves without commas or whitespace, joined by commas (with or without a final newline), are read back as those moves and danced in order |
| Dance.SampleShown | rust/src/day16.rs:71 | the test moves are written `s1`, `x3/4`, `pe/b` |
| Dance.SampleSpin | rust/src/day16.rs:68-74 | `s1` turns `abcde` into `eabcd` |
| Dance.SampleExchange | rust/src/day16.rs:68-74 | `x3/4` turns `eabcd` into `eabdc` |
| Dance.SamplePartner | rust/src/day16.rs:68-74 | `pe/b` turns `eabdc` into `baedc` |
| Dance.SampleDance | rust/src/day16.rs:68-74 | `abcde` with `s1`, `x3/4`, `pe/b` ends as `baedc` |
| Spinlock.InsertAt | rust/src/day17.rs:23 | `Vec::insert` makes the buffer one value longer |
| Spinlock.Landing | rust/src/day17.rs:18-24 | the insertion index after stepping forward and wrapping is between 1 and the length, so it is always a valid insertion point after the first value |
| Spinlock.Spin | rust/src/day17.rs:14-26 | the loop of `spinlock`, including the inner loop that subtracts the length, computes `Spinlock`: the buffer unchanged when there is nothing to insert, the remainder-by-zero panic for an empty buffer, and otherwise the buffer after every insertion |
| Spinlock.ValuesOnce | rust/src/day17.rs:17 | the values `i..=end` of the range occur once each |
| Spinlock.SpinGrows | rust/src/day17.rs:17-23 | the buffer grows by exactly one element per value of the range |
| Spinlock.SpinKeepsFirst | rust/src/day17.rs:23 | no insertion is at index 0, so the first value (the 0 the buffer starts with) never moves (also lines 4 and 51) |
| Spinlock.SpinHolds | rust/src/day17.rs:17-25 | the final buffer is, as a multiset, the original buffer plus each inserted value once |
| Spinlock.SpinEndsOnLast | rust/src/day17.rs:23-24 | the final position is the index of the last value inserted |
| Spinlock.SpinFromZero | rust/src/day17.rs:4-5 | started from `[0]` with values `1..=end`, the buffer has `end + 1` elements, begins with 0 and holds each of `0..=end` exactly once (also lines 51-52) |
| Spinlock.SampleThree | rust/src/day17.rs:49-56 | with 3 steps, inserting 1, 2 and 3 into `[0]` gives `[0, 2, 3, 1]`, the puzzle's worked example |
| Spinlock.Landings | rust/src/day17.rs:32-43 | one landing per value of the range |
| Spinlock.ForIndex | rust/src/day17.rs:28-47 | the loop of `spinlock_for_index`, including its inner loop that wraps the index, computes `SpinlockForIndex` |
| Spinlock.IndexIsLastLanding | rust/src/day17.rs:32-44 | the answer changes exactly when some value lands at `index`, and then it is the last value that does |
| Spinlock.ForIndexIsLastLanding | rust/src/day17.rs:28-47 | `spinlock_for_index` is `None` exactly when no value lands at `index`, and otherwise it is the last value that lands there |
| Spinlock.LandingAgrees | rust/src/day17.rs:18-37 | reducing `steps` modulo the length first, as `spinlock` does, lands where the unreduced step count of `spinlock_for_index` lands |
| Spinlock.FrontTracked | rust/src/day17.rs:23-41 | while the buffer holds `i` values when `i` is inserted, the answer for index 1 is always the value at index 1 of the real buffer |
| Spinlock.AfterZero | rust/src/day17.rs:5-10 | Part 2's shortcut is sound: `spinlock_for_index(1, …)` is the value right after 0 in the buffer `spinlock` builds from `[0]` |
| Soundcard.ParseI64 | rust/src/day18.rs:22 | a literal is read only inside the `i64` range |
| Soundcard.ParseRegisterValue | rust/src/day18.rs:21-26 | a token that reads as an `i64` is that literal; any other token is a register named by the whole token |
| Soundcard.ParseRegisterValueLiteral | rust/src/day18.rs:21-26 | every `i64`, written in decimal, is read back as that literal |
| Soundcard.ParseRegisterValueName | rust/src/day18.rs:21-26 | a token that starts with neither a sign nor a digit is always a register |
| Soundcard.UnknownOpcodeSkipped | rust/src/day18.rs:41-82 | `parse` gives `None` exactly when the first space-separated token is not one of the seven mnemonics |
| Soundcard.OpcodeOfKnown | rust/src/day18.rs:44-80 | the mnemonics that select an opcode are exactly `snd`, `set`, `add`, `mul`, `mod`, `rcv` and `jgz` |
| Soundcard.ShowValueParses | rust/src/day18.rs:21-26 | a well-formed operand's spelling holds no space and parses back to the operand |
| Soundcard.ParseTokensOf | rust/src/day18.rs:44-81 | the opcode dispatch reads each instruction's own tokens back as that instruction |
| Soundcard.ParseTokensKnown | rust/src/day18.rs:44-79 | a mnemonic followed by enough operands builds that opcode's instruction from them |
| Soundcard.ParseSoundTokens | rust/src/day18.rs:45-48 | the `snd` tokens of a sound instruction parse back to it |
| Soundcard.ParseRecvTokens | rust/src/day18.rs:69-71 | the `rcv` tokens of a receive instruction parse back to it |
| Soundcard.ParseJumpTokens | rust/src/day18.rs:72-79 | the `jgz` tokens of a jump parse back to it |
| Soundcard.ParseSetTokens | rust/src/day18.rs:49-53 | the `set` tokens parse back to the instruction |
| Soundcard.ParseAddTokens | rust/src/day18.rs:54-58 | the `add` tokens parse back to the instruction |
| Soundcard.ParseMulTokens | rust/src/day18.rs:59-63 | the `mul` tokens parse back to the instruction |
| Soundcard.ParseModTokens | rust/src/day18.rs:64-68 | the `mod` tokens parse back to the instruction |
| Soundcard.ParseShowInstruction | rust/src/day18.rs:41-82 | round trip: parsing the program-text line of any well-formed instruction gives that instruction |
| Soundcard.SplitShow | rust/src/day18.rs:42 | splitting the line of a well-formed instruction on spaces gives back its tokens |
| Soundcard.TokensSpaceFree | rust/src/day18.rs:42 | no token of a well-formed instruction holds a space, so the split cannot cut one |
| Soundcard.SoundSpellings | rust/src/day18.rs:90-91 | `snd 14` and `snd x` are the lines of `Sound(Value(14))` and `Sound(Register("x"))`, so by the round trip they parse to them |
| Soundcard.SetSpellings | rust/src/day18.rs:93-96 | `set a 13` and `set a x` are the lines of `Set("a", Value(13))` and `Set("a", Register("x"))`, so they parse to them |
| Soundcard.Resolve | rust/src/day18.rs:162-170 | a literal resolves to itself and a register to its current value |
| Soundcard.SetThenGet | rust/src/day18.rs:172-178 | after `set_register(r, v)` reading `r` gives `v` and every other register reads as before |
| Soundcard.StepMovesPointer | rust/src/day18.rs:113-158 | each step moves the pointer by 1, except a `jgz` with a positive condition, which moves it by its offset; only `snd` changes the sound, to the value sent |
| Soundcard.StepRegisters | rust/src/day18.rs:115-158 | a step changes no register except the one `set`, `add`, `mul` or `mod` writes |
| Soundcard.Execute | rust/src/day18.rs:109-160 | a run that stops by leaving the program has its pointer outside it; one that stops by recovering sits on a `rcv` of a non-zero register; one that stops on the `%` panic sits on a `mod` by zero |
| Soundcard.NoSoundKeepsSound | rust/src/day18.rs:116-118 | the sound is only ever set by `snd`: a program without one never changes it |
| Soundcard.ExecuteMoreFuel | rust/src/day18.rs:113-159 | the step budget only cuts runs off: a run that stopped on its own gives the same result with any larger budget |
| Soundcard.SampleProgram | rust/src/day18.rs:181-190 | the ten-line program of `test_machine` stops at its `rcv` having played the sound 4 |
| Soundcard.SampleStepsStart | rust/src/day18.rs:183 | its first four instructions leave `a` at 4 |
| Soundcard.SampleStepsMiddle | rust/src/day18.rs:183 | `snd a` plays 4, then `a` becomes 0, `rcv a` goes on and `jgz a -1` is not taken |
| Soundcard.SampleStepsEnd | rust/src/day18.rs:183 | `set a 1`, then two taken jumps back to `rcv a`, which recovers |
| Soundcard.ExecuteNext | rust/src/day18.rs:113-159 | a step that goes on leaves the rest of the run to the next state with one step less |
| Soundcard.Machine.constructor | rust/src/day18.rs:105-107 | a new machine has no registers set and no sound |
| Soundcard.Machine.SetRegister | rust/src/day18.rs:176-178 | the register is overwritten in place, every other register and the sound are kept |
| Soundcard.Machine.Run | rust/src/day18.rs:109-160 | `run` on the object updates its registers and sound to exactly those of `Execute` from pointer 0, and returns why it stopped |
| PixelGrid.IdxFormula | rust/src/day21.rs:64-67 | pixel `(x, y)` of a square of side `n` is stored at `y * n + x` |
| PixelGrid.AreaFormula | rust/src/day21.rs:37-40 | a square of side `n` has `n * n` pixels (`size.pow(2)`) |
| PixelGrid.IdxShift | rust/src/day21.rs:64-67 | the index of `(x, y)` is the start of row `y` plus `x` |
| PixelGrid.RowsBelow | rust/src/day21.rs:64-67 | a later row starts at least a whole row further on |
| PixelGrid.IdxBelow | rust/src/day21.rs:64-70 | every pixel inside the square has an index inside the pixel vector, so `get_pixel` and `set_pixel` never index out of bounds there |
| PixelGrid.IdxInjective | rust/src/day21.rs:64-67 | two pixels with columns inside the square have the same index only if they are the same pixel |
| PixelGrid.Decompose | rust/src/day21.rs:64-67 | every flat index is the index of a column inside the square and some row |
| PixelGrid.DecomposeBelow | rust/src/day21.rs:64-67 | every index inside the pixel vector is the index of exactly the pixel `(col, row)` of the square |
| PixelGrid.Build | rust/src/day21.rs:37-40 | a picture built pixel by pixel has the given side and `size * size` pixels |
| PixelGrid.BuildAt | rust/src/day21.rs:64-70 | pixel `(x, y)` of the built picture is the value given for `(x, y)` |
| PixelGrid.SameImage | rust/src/day21.rs:16-20 | two square pictures of one size that agree at every pixel are equal (the derived `PartialEq` over size and pixels) |
| PixelGrid.Blank | rust/src/day21.rs:37-40 | `with_size(n)` has side `n` and `n * n` pixels |
| PixelGrid.BlankAt | rust/src/day21.rs:37-40 | every pixel of `with_size(n)` is unset |
| PixelGrid.FlipVertical | rust/src/day21.rs:127-151 | a vertical flip keeps the side and the squareness |
| PixelGrid.FlipHorizontal | rust/src/day21.rs:127-151 | a horizontal flip keeps the side and the squareness |
| PixelGrid.Flip | rust/src/day21.rs:127-151 | a flip across either axis keeps the side and the squareness |
| PixelGrid.Transpose | rust/src/day21.rs:154-161 | the transpose keeps the side and the squareness |
| PixelGrid.Rotate | rust/src/day21.rs:153-165 | `rotate` keeps the side and the squareness |
| PixelGrid.FlipVerticalAt | rust/src/day21.rs:133-142 | `flip(VERTICAL)` reverses the order of the rows: pixel `(x, y)` comes from `(x, n - 1 - y)` |
| PixelGrid.FlipHorizontalAt | rust/src/day21.rs:134-143 | `flip(HORIZONTAL)` reverses every row: pixel `(x, y)` comes from `(n - 1 - x, y)` |
| PixelGrid.TransposeAt | rust/src/day21.rs:154-161 | after the transpose, pixel `(x, y)` comes from `(y, x)` |
| PixelGrid.RotateAt | rust/src/day21.rs:153-165 | `rotate` turns the picture a quarter: pixel `(x, y)` comes from `(y, n - 1 - x)` |
| PixelGrid.FlipTwice | rust/src/day21.rs:127-151 | flipping twice across the same axis gives the picture back |
| PixelGrid.Rotations | rust/src/day21.rs:189-200 | repeated rotation keeps the side |
| PixelGrid.HalfTurnAt | rust/src/day21.rs:153-165 | two rotations: pixel `(x, y)` comes from `(n - 1 - x, n - 1 - y)` |
| PixelGrid.FullTurnAt | rust/src/day21.rs:189-200 | four rotations put every pixel back in its place |
| PixelGrid.RotationsTwo | rust/src/day21.rs:189-200 | two repeated rotations are `rotate` applied twice |
| PixelGrid.RotationsThree | rust/src/day21.rs:189-200 | three repeated rotations are `rotate` applied three times |
| PixelGrid.RotationsFour | rust/src/day21.rs:189-200 | four repeated rotations are `rotate` applied four times |
| PixelGrid.RotateFour | rust/src/day21.rs:189-200 | four rotations return the original picture, as `test_pixbuf_rotation` checks |
| PixelGrid.RotationsAdd | rust/src/day21.rs:153-165 | rotating `a` times after `b` times is rotating `a + b` times |
| PixelGrid.RotationsPlusFour | rust/src/day21.rs:189-200 | four more rotations change nothing |
| PixelGrid.RotationsMod | rust/src/day21.rs:189-200 | only the number of rotations modulo four matters |
| PixelGrid.VerticalIsMirroredHalfTurn | rust/src/day21.rs:127-165 | a vertical flip is two rotations followed by a horizontal flip |
| PixelGrid.VerticalIsMirroredHalfTurnRotate | rust/src/day21.rs:127-165 | the same, written with `rotate` twice |
| PixelGrid.BothFlipsAreHalfTurn | rust/src/day21.rs:127-165 | a horizontal flip followed by a vertical one is two rotations (also line 297) |
| PixelGrid.BothFlipsAreHalfTurnRotate | rust/src/day21.rs:127-165 | the same, written with `rotate` twice (also line 297) |
| PixelGrid.RotateMirror | rust/src/day21.rs:127-165 | rotating a mirrored picture is mirroring the picture rotated three times |
| PixelGrid.RotateMirrorAt | rust/src/day21.rs:127-165 | the same, pixel by pixel |
| PixelGrid.RotationsMirror | rust/src/day21.rs:127-165 | rotating `t` times after a horizontal flip is a horizontal flip after `3 t` rotations |
| PixelGrid.TurnOrMirrorThen | rust/src/day21.rs:259-275 | a rotation or a horizontal flip after one of the eight symmetries of the square is again one of them, the one `Then` names |
| PixelGrid.StepThen | rust/src/day21.rs:259-275 | every rotation and flip `matches` performs, applied after a symmetry, is again a symmetry |
| PixelGrid.SymmetryTurnsMod | rust/src/day21.rs:189-200 | symmetries whose rotation counts agree modulo four act alike |
| PixelGrid.ApplyIsSymmetry | rust/src/day21.rs:259-298 | any sequence of rotations and flips acts as one of the eight symmetries |
| PixelGrid.InverseUndoes | rust/src/day21.rs:259-275 | each symmetry has an inverse that undoes it |
| PixBufs.PaintedAt | rust/src/day21.rs:73-77 | writing a pixel changes that pixel to the value written and no other pixel |
| PixBufs.SwappedAt | rust/src/day21.rs:79-84 | a swap exchanges the two pixels and leaves every other pixel as it was |
| PixBufs.RowInside | rust/src/day21.rs:64-70 | an index inside the pixel vector whose column is inside the square has its row inside the square too |
| PixBufs.FlipPart | rust/src/day21.rs:130-148 | the picture part way through `flip`'s scan keeps the side |
| PixBufs.FlipPartAt | rust/src/day21.rs:130-148 | part way through `flip`, a pixel shows its mirror image exactly when it, or its mirror image, is a leading pixel the scan has passed |
| PixBufs.FlipPartStart | rust/src/day21.rs:130 | before the scan, the picture is unchanged |
| PixBufs.FlipPartEnd | rust/src/day21.rs:127-151 | after the last row, the picture is the flip of the original |
| PixBufs.FlipPartNextRow | rust/src/day21.rs:130-131 | the end of one row of the scan is the start of the next |
| PixBufs.FlipPartSkip | rust/src/day21.rs:137-139 | passing a pixel of the trailing half (`continue`) changes nothing |
| PixBufs.MirrorFacts | rust/src/day21.rs:128-144 | the opposite pixel of a leading pixel is inside the square, does not lead, is a different pixel, and mirroring twice gives the pixel back, so no pair is swapped twice |
| PixBufs.FlipDoneStep | rust/src/day21.rs:130-148 | one leading pixel further on, the scan has done exactly what it had done before plus that pixel |
| PixBufs.FlipPartSwapLead | rust/src/day21.rs:146 | after the swap, the pixel the scan reached shows its mirror image |
| PixBufs.FlipPartSwapMirror | rust/src/day21.rs:146 | after the swap, the mirror pixel shows the pixel the scan reached |
| PixBufs.FlipPartSwapOther | rust/src/day21.rs:146 | the swap leaves every other pixel as it was |
| PixBufs.FlipPartSwapAt | rust/src/day21.rs:146 | each pixel after the swap at `(col, row)`, case by case |
| PixBufs.FlipPartSwap | rust/src/day21.rs:141-146 | swapping the reached pixel with its opposite moves the scan on by one pixel |
| PixBufs.TransposePart | rust/src/day21.rs:155-161 | the picture part way through the transpose keeps the side |
| PixBufs.TransposePartAt | rust/src/day21.rs:155-161 | part way through the transpose, a pixel shows its transposed partner exactly when the pair has been swapped |
| PixBufs.TransposePartStart | rust/src/day21.rs:155 | before the transpose, the picture is unchanged |
| PixBufs.TransposePartDiagonal | rust/src/day21.rs:156 | column `i` swaps nothing at or above the diagonal, so its inner loop can start at `i + 1` |
| PixBufs.TransposePartNext | rust/src/day21.rs:155-156 | the end of one column of the transpose is the start of the next |
| PixBufs.TransposePartEnd | rust/src/day21.rs:155-161 | once the columns up to `size - 2` are done, the picture is the full transpose, although the outer loop stops one short |
| PixBufs.TransposePartSwap | rust/src/day21.rs:157-159 | swapping `(i, j)` with `(j, i)` moves the transpose on by one pair |
| PixBufs.PastePart | rust/src/day21.rs:89-95 | the picture part way through `copy_from` keeps the side |
| PixBufs.Pasted | rust/src/day21.rs:86-98 | the pasted picture keeps the side of the buffer pasted into |
| PixBufs.PastePartAt | rust/src/day21.rs:89-95 | part way through `copy_from`, exactly the tile pixels already passed have been written, each at its offset position |
| PixBufs.PastedAt | rust/src/day21.rs:86-98 | `copy_from` puts pixel `(x, y)` of the tile at `(x, y) + offset` and leaves every other pixel |
| PixBufs.PastePartStart | rust/src/day21.rs:89 | before the loops, the buffer is unchanged |
| PixBufs.PastePartNext | rust/src/day21.rs:89-90 | the end of one tile column is the start of the next |
| PixBufs.PastePartEnd | rust/src/day21.rs:86-98 | after the last column, the whole tile is pasted |
| PixBufs.PastePartWrite | rust/src/day21.rs:91-93 | one `set_pixel` of the loop moves the paste on by one pixel |
| PixBufs.Region | rust/src/day21.rs:115-125 | the extracted region has side `k` |
| PixBufs.RegionAt | rust/src/day21.rs:115-125 | pixel `(x, y)` of the region is pixel `(x, y) + start` of the picture |
| PixBufs.RegionPart | rust/src/day21.rs:117-122 | the buffer part way through `extract_region` has side `k` |
| PixBufs.RegionPartAt | rust/src/day21.rs:117-122 | part way through `extract_region`, exactly the pixels already passed have been copied; the rest are still unset |
| PixBufs.RegionPartStart | rust/src/day21.rs:116 | before the loops, the new buffer is `with_size(k)` |
| PixBufs.RegionPartNext | rust/src/day21.rs:117-118 | the end of one column is the start of the next |
| PixBufs.RegionPartEnd | rust/src/day21.rs:115-125 | after the last column, the buffer holds the region |
| PixBufs.RegionPartWrite | rust/src/day21.rs:119-120 | one read and write of the loop moves the copy on by one pixel |
| PixBufs.Tiles | rust/src/day21.rs:100-113 | there are `(size / k)²` tiles |
| PixBufs.TilesAt | rust/src/day21.rs:105-110 | tile `(tx, ty)` sits at position `ty * (size / k) + tx`, row after row of tiles, and is the `k` by `k` region at `(tx * k, ty * k)` |
| PixBufs.TileFits | rust/src/day21.rs:107 | a tile in column `t` of `m` tiles of side `k` ends within the picture |
| PixBufs.PixBuf.View | rust/src/day21.rs:16-20 | a valid buffer's picture is square, with `size * size` pixels |
| PixBufs.PixBuf.WithSize | rust/src/day21.rs:37-40 | `with_size(n)`: a fresh buffer of side `n`, every pixel unset |
| PixBufs.PixBuf.Clone | rust/src/day21.rs:16 | `clone` (derived): a buffer of its own holding the same picture |
| PixBufs.PixBuf.IndexForCoord | rust/src/day21.rs:64-67 | `index_for_coord` is `y * size + x` |
| PixBufs.PixBuf.GetPixel | rust/src/day21.rs:69-71 | for a column inside the square, an in-bounds index has its row inside too, and `get_pixel` is the pixel at `(x, y)` |
| PixBufs.PixBuf.SetPixel | rust/src/day21.rs:73-77 | `set_pixel` changes exactly the element at `index_for_coord`, in place |
| PixBufs.PixBuf.SwapPixels | rust/src/day21.rs:79-84 | `swap_pixels` exchanges exactly the elements at the two indices, in place |
| PixBufs.PixBuf.Flip | rust/src/day21.rs:127-151 | `flip` in place leaves the buffer holding `Flip` of the old picture: rows reversed for `VERTICAL`, each row reversed for `HORIZONTAL` |
| PixBufs.PixBuf.FlipStep | rust/src/day21.rs:141-146 | one swap of `flip` moves the scan on by one leading pixel |
| PixBufs.PixBuf.Rotate | rust/src/day21.rs:153-165 | `rotate` in place leaves the buffer holding the quarter turn of the old picture |
| PixBufs.PixBuf.TransposeColumn | rust/src/day21.rs:156-160 | the inner loop of the transpose does column `i` |
| PixBufs.PixBuf.TransposeStep | rust/src/day21.rs:157-159 | one swap of the transpose moves it on by one pair |
| PixBufs.PixBuf.CopyFrom | rust/src/day21.rs:86-98 | `copy_from` succeeds exactly when the tile fits in both directions, and then sets `self[offset + p] = other[p]` for every tile pixel `p` and leaves all other pixels; otherwise it fails without writing (the corrected guard, see Findings) |
| PixBufs.PixBuf.ExtractRegion | rust/src/day21.rs:115-125 | `extract_region` returns a fresh buffer of side `k` holding the square at `start` |
| PixBufs.PixBuf.ExtractTile | rust/src/day21.rs:107-109 | one iteration of `split_into_sized` gives the tile at position `y * (size / k) + x` |
| PixBufs.PixBuf.SplitIntoSized | rust/src/day21.rs:100-113 | `split_into_sized(k)` fails exactly when `k` is 0 (remainder by zero) or does not divide the side, and otherwise gives the `(size / k)²` tiles, row after row of tiles |
| PixBufs.PrefixGrows | rust/src/day21.rs:109 | a prefix one element longer is the shorter prefix with that element pushed |
| PixBufs.FitsWithinWrites | rust/src/day21.rs:87-95 | with the bound checked in both directions, every pixel `copy_from` writes is inside the buffer |
| PixBufs.CopyGuardAdmitsOverflow | rust/src/day21.rs:87 | the guard as written (derived lexicographic `>=` on `Coord`) admits a 2 by 2 tile at `(1, 3)` in a 4 by 4 buffer, whose second row would be row 4, past the pixels |
| PixBufs.FitsWithinImpliesGuard | rust/src/day21.rs:87 | every tile the corrected check admits also passes the guard as written, so the correction only rejects more |
| FractalRules.PixelOf | rust/src/day21.rs:27-32 | a pattern character is accepted exactly when it is `#` or `.`, and is set exactly for `#`; any other character is the panic |
| FractalRules.PixelChar | rust/src/day21.rs:169 | the character `to_string` writes for a pixel reads back as that pixel |
| FractalRules.Render | rust/src/day21.rs:169 | each pixel is written as one character, in order |
| FractalRules.ParseImage | rust/src/day21.rs:23-35 | a parsed picture's side is at least 1 (the `assert!(size > 0)` never fails) |
| FractalRules.Rows | rust/src/day21.rs:168-170 | each chunk is written as a non-empty run of `#` and `.` |
| FractalRules.ConcatRows | rust/src/day21.rs:168-170 | the chunks, joined back together, are all the pixels in order (also line 27) |
| FractalRules.RowCount | rust/src/day21.rs:168 | `k * n` pixels make `k` chunks of `n` |
| FractalRules.ConcatHas | rust/src/day21.rs:27 | a character is in the joined pieces exactly when it is in one of them |
| FractalRules.RowsOfSquare | rust/src/day21.rs:168 | a square picture of side `n` has `n` rows |
| FractalRules.ToStringEnds | rust/src/day21.rs:167-171 | a square picture's text starts and ends with a pixel character, so trimming leaves it alone |
| FractalRules.ParseToString | rust/src/day21.rs:23-35 | round trip: `from_str(to_string(p)) == p` for every square picture (also lines 167-171) |
| FractalRules.ParseImageAccepts | rust/src/day21.rs:23-35 | `from_str` succeeds exactly when the trimmed text holds only `#`, `.` and `/`; any other character panics |
| FractalRules.ParseRule | rust/src/day21.rs:234-239 | a rule is read only from a text that holds ` => `; without one `parts[1]` panics |
| FractalRules.NoArrow | rust/src/day21.rs:235 | a text without spaces holds no ` => ` |
| FractalRules.ArrowSplit | rust/src/day21.rs:235 | two space-free texts joined by ` => ` split back at the arrow into the two texts |
| FractalRules.ToStringChars | rust/src/day21.rs:167-171 | a picture's text holds only `#`, `.` and `/` |
| FractalRules.ToStringPlain | rust/src/day21.rs:167-171 | a picture's text holds no space and no line break |
| FractalRules.ParseShowRule | rust/src/day21.rs:234-239 | round trip: a rule of square, non-empty pictures, written as `pattern => replacement`, reads back as that rule |
| FractalRules.ParseArrow | rust/src/day21.rs:234-239 | two space-free texts that read as the rule's pictures, joined by ` => `, read as that rule |
| FractalRules.ParseRulebook | rust/src/day21.rs:307-310 | a rule book holds one rule per line of the trimmed text, in order |
| FractalRules.ShowRulebook | rust/src/day21.rs:307-310 | the rule book's text has one line per rule, each the rule's own text |
| FractalRules.ShowRuleShape | rust/src/day21.rs:308 | a rule's text is non-empty, neither starts nor ends with whitespace, and holds no line break |
| FractalRules.PixelNotWhitespace | rust/src/day21.rs:308 | pixel characters are not whitespace, so `trim` does not touch them |
| FractalRules.ParseShowRulebook | rust/src/day21.rs:307-310 | round trip: rules written one per line read back as the same rule book |
| FractalRules.RulebookLines | rust/src/day21.rs:308 | trimming the rule book's text and cutting it into lines gives back the rules' lines |
| FractalRules.Matches | rust/src/day21.rs:249-278 | `matches` is exactly `MatchesOf`: false when the sizes differ, true when the picture is the pattern or becomes it after one to four rotations, possibly followed by the flips |
| FractalRules.TryTurn | rust/src/day21.rs:261-274 | one round of `matches`' loop finds the pattern exactly when it is a candidate after `i + 1` rotations, and otherwise leaves the clone rotated `i + 1` times (the two flips undone) |
| FractalRules.CandidateIsSymmetry | rust/src/day21.rs:259-275 | every picture `matches` compares with the pattern is one of the eight symmetries of the square applied to the picture |
| FractalRules.SymmetryIsCandidate | rust/src/day21.rs:259-275 | every one of the eight symmetries is among the pictures `matches` compares |
| FractalRules.MatchesIffSymmetry | rust/src/day21.rs:249-278 | a picture matches a pattern exactly when some rotation, possibly mirrored, turns it into the pattern |
| FractalRules.TransformKeepsSize | rust/src/day21.rs:251-253 | a symmetry keeps the side |
| FractalRules.MatchesAnyOps | rust/src/day21.rs:281-299 | a pattern matches any picture made from it by rotations and flips, in any number and order, which generalises `test_rule_matching` |
| FractalRules.TransformSquare | rust/src/day21.rs:259-275 | a symmetry of a square picture is a square picture of the same side |
| FractalRules.FirstMatch | rust/src/day21.rs:313 | the index found is of a matching rule with no matching rule before it; `None` means no rule matches |
| FractalRules.GetReplacement | rust/src/day21.rs:312-318 | `get_replacement` returns the replacement of the first rule in file order that matches, and `None` exactly when none does |
| CorruptionChecksum.GetRowLimits | js/day02/index.ts:5-15 | `getRowLimits` (and its twin at js/day02/index.js:3-13) is `None` for an empty row (`row[0]` is `undefined`); otherwise both limits are values of the row and every value lies between them, and they are the `Min`/`Max` of the Rust model |
| CorruptionChecksum.Part1AgreesWithRust | js/day02/index.ts:30-36 | `checksumPart1` (js/day02/index.js:28-34) is a number exactly when no row is empty, and then it equals the hi-lo checksum of rust/src/day02.rs |
| CorruptionChecksum.FindPair | js/day02/index.ts:26 | `pairs.find` (js/day02/index.js:24) gives nothing exactly when no pair divides evenly, and otherwise the first pair that does |
| CorruptionChecksum.FindPairConcat | js/day02/index.ts:26 | the first dividing pair of two lists in a row is the first list's, or else the second's |
| CorruptionChecksum.RowPairsMeaning | js/day02/index.ts:20-23 | the inner loop for numerator `i` (js/day02/index.js:18-21) yields a dividing pair exactly when some other position's value divides the value at `i`, and the first such pair in position order |
| CorruptionChecksum.PairsUpToMeaning | js/day02/index.ts:19-24 | over the first `m` numerators, the first dividing pair is the first ordered pair of different positions, numerators first, that divides |
| CorruptionChecksum.GetNumDenom | js/day02/index.ts:17-28 | `getNumDenom` (js/day02/index.js:15-26): the pairs built by the two nested loops, searched with `find`, give `NumDenom`: the first dividing pair, or the `undefined is not iterable` error |
| CorruptionChecksum.NumDenomMeaning | js/day02/index.ts:17-28 | `getNumDenom` throws exactly when no two values at different positions divide evenly (a zero divisor never counts), and otherwise gives the first ordered pair, numerators first, that does |
| CorruptionChecksum.RowQuotient | js/day02/index.ts:40-41 | a row's quotient (js/day02/index.js:38-39) is exact: times the denominator it gives the numerator |
| CorruptionChecksum.Part2Meaning | js/day02/index.ts:38-44 | `checksumPart2` (js/day02/index.js:36-42) throws exactly when some row has no dividing pair, and is otherwise the sum of the rows' exact quotients |
| CircularSum.ParseInt | js/day01/index.ts:3 | `parseInt` of one character (js/day01/index.js:3) is a number exactly for a decimal digit, and then that digit's value |
| CircularSum.Numbers | js/day01/index.ts:3 | each character of the input is parsed on its own, in order |
| CircularSum.NumbersAgreeWithRust | js/day01/index.ts:3 | every character parses to a number exactly when the Rust parser of rust/src/day01.rs accepts the input, and to the same digits |
| CircularSum.WrapOnce | js/day01/index.ts:9-13 | a whole partner index below twice the length is taken round the circle (js/day01/index.js:7-11); from twice the length on, subtracting the length once leaves it out of range, so `numbers[nextIdx]` is `undefined` |
| CircularSum.AsNumbers | js/day01/index.ts:3 | digits become numbers of the same value, position by position |
| CircularSum.SumUpToAgrees | js/day01/index.ts:7-16 | over digits, `sumMatching` with a partner that agrees with a Rust partner below twice the length gives the Rust sum, prefix by prefix |
| CircularSum.NextIdxAgrees | js/day01/index.ts:7-19 | part 1, the default next-index partner (js/day01/index.js:5, 17), is the Rust part 1 captcha over every list of digits |
| CircularSum.HalfIdxAgrees | js/day01/index.ts:21 | part 2, the half-length partner (js/day01/index.js:19), is the Rust part 2 captcha over every list of digits of even length |
| CircularSum.HalfIdxOdd | js/day01/index.ts:21 | over an odd number of characters every part 2 partner index is a fraction, `numbers[nextIdx]` is `undefined`, and the sum is 0 |
| CircularSum.NaNNeverMatches | js/day01/index.ts:14 | a character that is not a digit parses to `NaN`, which is strictly equal to nothing, so it adds nothing whatever its partner |

## Left out

- Text.Whitespace: only the six ASCII whitespace characters (space, tab, line feed, carriage return, vertical tab, form feed) separate or are trimmed. Rust's `trim`, `split_whitespace` and `char::is_whitespace` follow Unicode's White_Space property, so the readers built on them (Spreadsheet.ParseRow, Registers.ParseInstruction, Registers.ParseCondition, FractalRules.ParseImage, FractalRules.ParseRulebook, Dance.Order, KnotHash.KeyLengths) treat characters such as U+00A0 or U+3000 as ordinary text where the source would split or trim them.
- UlamSpiral.DistanceForSquare: requires `n >= 1`; for `n = 0` the source's loop over the endless iterator never returns.
- UlamSpiral.Part2: the walk is cut off after `fuel` cells (`None` then); the source loops until a value exceeds `check`, which it always eventually does.
- The 289326 puzzle answers of day 3 (part 1 is commented out in the source's test) are not proved; the closed form covers the 1024 sample.
- Fixed-width integers of day 3 (`i32` cells, `u64` sums) are unbounded integers here; `HashMap` is a Dafny `map`.
- Tubes.MazeIter.Next, Tubes.CellAfter: the panics of `cell_after` (no room, an empty room, a corner without exactly one way on) are `Err` results with the panic's message.
- Tubes.GetStart: which start is taken when several cells qualify depends on the hash map's iteration order; the model promises only that it is one of them.
- Tubes.FindTreasure: the walk is cut off after `fuel` cells (ending `OutOfFuel`); the source walks until the path ends, and a path that loops forever would never return. The start cell taken is returned as a ghost result.
- Tubes.TrimNewlines: a map whose rows end in `"\r\n"` keeps the carriage return of its last row, since trimming only newlines leaves it in front of the end of the text; `Text.Lines` keeps such a final bare carriage return, as Rust's documentation of `lines()` specifies (some older releases of the standard library dropped it).
- The sample maze of `test_maze` (rust/src/day19.rs:232-248: start (5, 0), its first seven cells, treasure `ABCDEF`) is not proved: the walk is proved in general, not evaluated on that map.
- Particles: `Particle::parse` (a regular expression over the input line) is not part of this model; particles are built directly, and the `i64` components are unbounded integers.
- Particles.Update: the source updates the particle in place; the model returns the updated value, and the collider's slots hold values.
- Particles.Closest: the driver's 999 updates before choosing and its printing are not modelled as a member; `Updates(p, 999)` and `UpdatesClosedForm` describe the particles it compares.
- Particles.Collider.TakeCrowded: the hash map's iteration order is not modelled; the positions are visited in any order, and the result is proved not to depend on it.
- Scanners.PosAt: turns are natural numbers; every call passes `i + delay`, never a negative turn, so Rust's truncating division on negative turns and the `u32` casts are not modelled.
- Scanners.LaidPlaced: proved for entries in ascending depth order, as the puzzle input is; with an entry shallower than an earlier one `parse` pushes it at the end without gaps, which the layout function reproduces but no lemma describes.
- Scanners.FindSafeDelay: the search is cut off after `fuel` delays (`Ok(None)` then); the source searches `0..` without end, and `i32` overflow of the delay is not modelled.
- The example text `0: 3\n1: 2\n4: 4\n6: 4` itself is not parsed in a lemma; `ParseEntryShow` covers every line of that form and `SampleLaid` lays out the resulting entries.
- Generators.FactorGenerator.Next: `u64` arithmetic is unbounded here (the product of a value below 2^31 and a factor below 2^16 cannot overflow anyway); a divisor of zero, on which the source panics, is excluded by `requires div > 0`.
- Generators.DivFactorGenerator.Next: the search gives up after `fuel` draws (`None` then); the source's search ends only when the inner generator does, which never happens; a `check` of zero, on which the source panics, is excluded.
- Generators.CountPickyMatches: the zip ends early only when a picky generator runs out of `fuel`; with enough fuel it compares all `pairs` pairs as the source does.
- The day 15 `run` itself (inputs 277 and 349, 40,000,000 and 5,000,000 pairs, printing) is not evaluated; `CountMatches` and `CountPickyMatches` are proved for every number of pairs.
- Plumber: program numbers (`u32`) are unbounded naturals; `HashMap` and `HashSet` are Dafny maps and sets, and the order in which a hash set or map is iterated is not modelled (any order is allowed, and the results are proved not to depend on it).
- Plumber.Village.NumGroups: the source collects each group as its comma-joined decimal text; the model collects the group itself, which is the same count because the joined text of an ascending list determines the list. It requires the pipes to work both ways, as every village built by `connect` does.
- Plumber.Village.ConnectedTo, Plumber.Searcher.Find: the `unwrap` panic in `get` is an `Err` result; the recursion's depth (a stack overflow on a very long chain) is not modelled.
- The day 12 `run` (parsing `a <-> b, c` lines from the input file and printing) is not part of this model.
- HexGrid: the `i32` coordinates and distances are unbounded integers; they could only overflow after more than 2^31 steps.
- HexGrid.ParseDirection: capitalisation is modelled for ASCII letters only; Rust's `to_uppercase` also maps a few other characters onto ASCII capitals (the long s `ſ` becomes `S`), which the model does not.
- The day 11 `run` (reading the input, trimming it and splitting it on commas, printing) is not part of this model; Part 1's fold is `HexGrid.Position` and Part 2's loop `HexGrid.MaxDistance`.
- Spreadsheet.ParseRow: whitespace is the six ASCII whitespace characters; Rust's `char::is_whitespace` also splits on Unicode spaces.
- Spreadsheet.ParseCell: the `i32` cells, sums and quotients are unbounded integers, so the overflow of a parsed literal outside the `i32` range (an `unwrap` failure in the source) and of `i32::MIN % -1` are not modelled.
- The day 02 `run` and the test on the puzzle input file (rust/src/day02.rs:80-87) are not part of this model.
- InverseCaptcha.SumMatchingIndex: the `u32` total is an unbounded natural number; by `CaptchaBounds` it stays below 2^32 for inputs shorter than 477 million digits. The partner is a pure function of the digits and the position, where Rust allows a closure with state (`FnMut`); the repository passes only pure ones.
- The day 01 `run` and the tests on the puzzle input file (rust/src/day01.rs:40, 50) are not part of this model.
- MemoryBanks.Reallocate: the loop is cut off after `fuel` rounds (`None` then); the source loops until a configuration repeats, which happens for banks of natural counts since the total is kept.
- MemoryBanks.Balanced: for an empty list of banks the source's `Math.max()` is `-Infinity` and `banks[-1] = 0` adds a property rather than an element; the model leaves the empty list unchanged, as the array's elements are.
- MemoryBanks: JavaScript numbers are unbounded integers here; bank counts are parsed integers, and rounding of floating-point values beyond 2^53 is not modelled.
- MemoryBanks.MemoryAllocator.Redistribute: the recursion's depth (a stack overflow for a very large bank) is not modelled.
- The day 06 input reading (splitting on tabs, `parseInt`) and printing are not part of this model.
- Trampolines.JumpMaze.Traverse: the walk is cut off after `fuel` jumps (`OutOfFuel` then), and the progress callback (printing a dot every 10000 jumps) is not modelled.
- Trampolines.JumpMaze.Jump: requires the position to be on an offset. At a negative position the source reads `undefined`, so the position becomes `NaN` and `isExited` never holds again; the model's walk stops there with `Fell` instead of looping forever.
- Trampolines: JavaScript numbers are unbounded integers here. The input reading (splitting lines, `parseInt`) and the printing of `part1`/`part2` are not part of this model.
- Passphrases.NewLine: the split of a line on the regular expression `\W+` is not modelled; a line is built from its words. The `counts` map the constructor fills is never read, so it is not modelled either.
- Passphrases.Sort: characters are compared as Dafny characters (Unicode scalar values); JavaScript's `split('')` and `sort()` work on UTF-16 code units, which agree for characters of the Basic Multilingual Plane.
- The day 04 input reading (splitting lines, dropping blank ones) and printing are not part of this model; `CountValid` is the two counts.
- SpiralCoordinates: the target is an integer; `parseInt` of the command line (which may give `NaN`) and the printing are not part of this model.
- CorruptionChecksum: the cells are integers; `parseInt` of the text and the splitting of lines and cells are not part of this model, so a cell that does not parse (`NaN`) is not modelled. An empty row makes Part 1 `None`, standing for the `NaN` the JavaScript sum becomes.
- CircularSum: JavaScript numbers are unbounded integers and the partner indices exact rationals here; reading the command line and printing are not part of this model.
- Coords: the `usize` components are unbounded naturals, so the overflow of `Add` past `usize::MAX` is not modelled.
- Registers: the register values are unbounded integers; the repository instantiates the generic machine only with `i64`, whose overflow is not modelled. `Program::parse` is `ParseProgram`; a line that does not parse is an `Err` where the source panics.
- Registers.Machine.HighestValue: requires the machine's invariant `Bounded` (every register at most the highest value, which is at least 0), which the constructor establishes and `ExecuteAllBounded` shows every run keeps; the source's getter has no precondition.
- The day 08 `run` (reading the input, the `max_by_key` over the registers, printing) is not part of this model; `Maximum` and `HighestIsMaximum` describe the value it reports.
- Stream: the `u32` score and garbage count are unbounded naturals; the `Peekable<Chars>` input is the remaining text, a sequence of characters. The day 09 `run` (reading the input, printing) is not part of this model.
- Stream: of the eight `test_day9` streams (rust/src/day09.rs:94-103) only `{{{},{},{{}}}}` (Stream.SampleNested) and `{{<a!>},{<a!>},{<a!>},{<ab>}}` (Stream.SampleCancelled) are proved; `{}`, `{{{}}}`, `{{},{}}`, `{<a>,<a>,<a>,<a>}`, `{{<ab>},{<ab>},{<ab>},{<ab>}}` and `{{<!!>},{<!!>},{<!!>},{<!!>}}` are not evaluated, and are covered only by Stream.ScoreOfRender, which holds for every well-formed stream.
- Stream.Parser.ParseNormal, Stream.Parser.ParseGarbage: require input left to read, as `get_score` only calls them after `peek` found a character; the panics of `parse_normal` are `Err` results.
- KnotHash: the list's elements are bytes (`u8`), and `pos` and `skip` unbounded naturals (the `usize` overflow after 2^64 lengths is not modelled). The day 10 `run` (reading the input, printing) is not part of this model.
- KnotHash.KnotHasher.Hash: the four `test_knot_hash` vectors (rust/src/day10.rs:95-101: the hashes of the empty text, `AoC 2017`, `1,2,3` and `1,2,4`) are not evaluated; the hash is proved equal to its specification, which is not computed on those inputs.
- KnotHash.KnotHasher.constructor: requires a non-empty list; with an empty list `get_wrapping_index` would subtract a length of zero forever. The repository builds hashers only over `gen_list`'s 256 values.
- Defrag: the visited `HashSet` passed by `&mut` is a set passed in and returned by `Traverse`; the order in which a hash set is iterated does not matter to the result and is not modelled. The recursion's depth (a stack overflow for a very large region) is not modelled.
- Defrag.CountGroups: the regions are counted over any grid of 128 rows of 128 squares; the grid of the puzzle key itself (128 knot hashes) is not evaluated. Part 1's count of used squares, a one-line fold in `run`, and the printing are not modelled as members.
- Dance: the line of programs is a `string` value passed in and returned, not a `Vec<char>` updated in place. The panics of `parse_move` (an `unwrap` that fails), of `dance` (an unknown move, a program not found) and of a `swap` past the end are `Err` results. Of the day 16 `run`, reading the input file and printing the order are not part of this model; its trimming, its splitting at commas and its dance of `abcdefghijklmnop` are Dance.Order. A spin amount is any unsigned decimal number here, while the source parses it as a `u32`: an amount above 4294967295 fails to parse and panics at the `unwrap`, where the model spins by it; exchange positions are `usize` in the source and unbounded here.
- Spinlock.Spin: the `Vec` is a value passed in and returned, not updated in place; the values are unbounded naturals, not `u64`.
- Spinlock.ForIndex: requires `start >= 1`; with a start of 0 the first list size is 0, and the wrapping loop subtracts 0 forever.
- The `test_spinlock` value 638 after 2017 insertions is not proved; `SampleThree` proves the first three insertions and the general lemmas describe the rest. The day 17 `run` with its hard-coded input and printing is not part of this model.
- Soundcard: the `i64` registers are unbounded integers, so the overflow of `add`, `mul` and `i64::MIN % -1` is not modelled; a remainder by zero (a panic in the source) ends the run with `ModByZero`.
- Soundcard.Machine.Run: the run is cut off after `fuel` instructions (ending `OutOfFuel`); the source runs until the pointer leaves the program or a `rcv` recovers, and a program that loops forever would never return.
- The `test_machine` text is not parsed as one literal in a lemma; `ParseShowInstruction` covers each of its lines and `SampleProgram` runs the program of those lines to its `rcv` with sound 4. The day 18 `run` (reading the input, printing) is not part of this model.
- PixBufs.PixBuf.GetPixel, PixBufs.PixBuf.SetPixel, PixBufs.PixBuf.SwapPixels: require the index of the coordinate to lie in the buffer, where the source's vector index panics otherwise.
- PixBufs.PixBuf.ExtractRegion: requires the square to lie inside the buffer; `split_into_sized` only extracts such squares.
- PixBufs.PixBuf.CopyFrom: models the corrected guard, which checks that the tile fits in both directions, not the lexicographic comparison of the source (see Findings). Where the two disagree the source never writes past its buffer: it writes the pixels before the first one out of range, then panics on the vector index. An empty tile with `offset.x < size < offset.y` passes the source's assert and returns having written nothing, while CopyFrom reports it as an error.
- PixBufs.PixBuf.Rotate: requires `size > 0`; on an empty buffer the source's `0..(size - 1)` underflows `usize` (a panic in a debug build). Every buffer the repository rotates has side 2 or 3.
- PixBufs: `PixBuf::stitch` is not part of this model. It computes the side of the result with a floating-point square root, and it walks `0..size` tiles where `size` is the side of one tile, not the number of tiles.
- FractalRules.ToString: requires a side of at least 1, as `chunks(0)` panics.
- The day 21 literal tests (flipping, rotation, apply, split, stitch, rule matching, `parse_rulebook`) are not evaluated as literals; the general lemmas about flips, rotations, tiles, rules and rule books cover what they check. The day 21 `run` (reading the rule book, iterating the picture, printing) is not part of this model.

## Findings

| source | as written | input that shows it | evidently intended | confidence | as-written member | corrected member |
|---|---|---|---|---|---|---|
| rust/src/day21.rs:87 | `copy_from` asserts `Coord(size, size) >= Coord(other.size, other.size) + offset` with the derived order of `Coord`, which compares `x` first and looks at `y` only on a tie | a 4×4 buffer, a 2×2 tile and offset (1, 3): (4, 4) is at least (3, 5) because 4 > 3, so the assert passes; the copy writes pixel (1, 3) and then stops with a vector index panic at pixel (1, 4), index 17 of 16, so nothing is written past the buffer, but the copy panics with an index error instead of the assert's message, the buffer left partly written | the tile fits in both directions: `offset.x + other.size <= size` and `offset.y + other.size <= size` | not executed | PixBufs.CopyGuardAdmitsOverflow | PixBufs.PixBuf.CopyFrom |
