# CoFuzz in Dafny

CoFuzz lets a fuzzer (AFL) and a concolic executor work on the same program. This project models the parts of it
that decide something, and proves what they keep over whole runs:

- **Sampling** (`Vectors`, `Matrices`, `Polytope`, `Dikin`, `HitAndRun`, `Box`, `Chain`, `Mutants`): the random walks
  over the polytope of a path constraint, from the linear program that finds their start to the bytes of the mutants.
- **Scheduling** (`Scheduler`, `Depot`, `Chains`, `Executor`, `Loop`): which seeds are executed concolically for which
  addresses, and the main loop. `Scheduler` is the state machine, `Depot` and `Executor` are the classes that are proved
  to run it.
- **Coverage** (`Coverage`, `Sync`, `Recording`, `Executor`): the coverage map bit by bit, and which testcases are
  saved.
- **Traces** (`Text`, `Condition`, `TraceLog`, `Tracer`, `Runs`): the text that an instrumented program prints, the
  execution tree that is built from it, and the two together.
- **Constraint logs** (`ConstraintLog`): the parser for the constraints of a concolic run.
- **The allocator** (`Bytes`, `Blocks`, `Allocator`, `SlotTable`, `Records`, `LeakTables`, `LeakTracker`): the checked
  allocator and its leak tracker, byte by byte.

Numbers of the samplers are exact reals. What is random, and what other programs compute, is an arbitrary value:
a tape of draws for a walk, a `World` for an iteration of the main loop, any order for a shuffle or a ranking.
Raised exceptions and aborts are results (`None`, `false`, `Aborted`), not preconditions.

What a specification function means is stated without it: in the bits of a file, the characters of a line, the slacks of
a point, the bytes of a block, or the numbers of the configuration.

`dafny verify dfyconfig.toml` verifies everything.

## What the code does not keep

Some properties one would expect hold only under a condition. The code is modelled as it is, and the condition is
proved to be exact:

- The rows that `crack_target` builds for a variable are `x <= max` and `-x <= min`, so the polytope is the box
  `[-min, max]`. It is the box `[min, max]` iff all minima are 0 (`Box.CodedBoxIsIntendedIff`), and its points
  truncate to bytes iff no minimum is positive and no maximum exceeds 255 (`Mutants.BoxGivesBytesIff`).
- Neither walk is safe from every point that passes its own check. The hit-and-run walk never meets an invalid state,
  and raises only for want of a boundary, iff it starts at a point where no row is tight, but rows of zeros
  (`HitAndRun.SafeIff`); elsewhere the directions that approach a tight row make it raise, since a distance of 0 does
  not count as positive (`HitAndRun.StepPassesCheckIff`). From the answer of the linear program it is safe iff the
  polytope has an interior (`HitAndRun.CenterSafeIffInterior`, for rows that are not zero), and in the box of
  `crack_target` iff every interval has positive width (`Box.WalkSafeIff`). A box where the walk moves and then raises
  is in `Box.FlatBoxRaises`.
- The Dikin walk from an interior point never raises iff its rows span the space; else the Hessian has no inverse, and
  the first iteration that samples raises (`Dikin.InteriorRunGoesOnIff`). So it does in a strip of the plane, from the
  answer of its linear program (`Dikin.StripRaises`); in a box it does not (`Box.RowsSpan`). On a boundary the Hessian is
  infinite or not a number: the walk never moves and meets no invalid state (`Dikin.BoundaryRunStays`), and whether
  sampling raises is up to LAPACK. `Dikin.SafeIff`, `Dikin.CenterSafeIff` and `Box.WalkSafeIff` say what that comes to,
  for either behaviour.

  All this concerns what the functions make of the bounds they are given. The optimiser that computes the bounds
  (src/fuzz/sync.py:93-110) is never given the path constraint, and of an 8-bit variable that nothing constrains the
  minimum is 0 and the maximum 255; nothing shows that `crack_target` meets a positive minimum or a width of 0. For the
  bounds 0 and 255 all is well (`Box.ByteBoxIsFine`), and for minima 0 and positive maxima up to 255 the whole of
  `crack_target` is (`Mutants.Synchronizer.CrackTarget`).
- `__log_switch` prints the wrong successor iff the case taken has the block id 0 and the default has not
  (`TraceLog.PrintedDestinationRightIff`, with a line in `TraceLog.WrongDestination`). Whatever is taken, it prints the
  right one iff no case has the id 0, or the default has it too (`TraceLog.SwitchAlwaysRightIff`).
- "Covered" means that all successors were seen iff there are exactly `succ_max` of them
  (`Condition.CoveredMeansAllSeenIff`). A node can be covered at all iff its branch or switch can print that many
  different successors (`Runs.CanBeCoveredIff`); a branch whose successors share an id never is
  (`Runs.SharedSuccessorNeverCovered`). A switch has one successor more, the default: it counts as covered when both
  cases were traced and the default was not (`Runs.CoveredWithDefaultUnseen`).
- The children of a node are the successors that were reached iff no line at the address is misprinted, or the errors
  cover each other up (`Runs.ChildrenAreReachedIff`); for a switch, in all runs, iff no case has the id 0 or the default
  has it too (`Runs.SwitchChildrenAreReachedIff`).
- The width of a condition is that of its leftmost integer compare iff no callee's name continues `_i` with a digit
  before the first of them, or the numbers happen to be equal (`Condition.WidthRightIff`; a call with such a name is in
  `Condition.CallWidthIff`), and the same of the edge type and `pred@` (`Condition.TypeRightIff`).
- An interrupted block of a constraint log gives its expressions to the next block that ends, also when that block has
  another source; exactly then the result differs from that of a parser which starts each block afresh
  (`ConstraintLog.OwnExpressionsIff`, with a log in `ConstraintLog.LeakedExpression`).
- The cut after `edge_max` addresses counts addresses that contribute no seed. Some order of the candidates schedules
  nothing iff there are enough candidates without a seed left to fill the places before the cut
  (`Scheduler.CanScheduleNothingIff`), whatever is behind it. From the start of the program a state can be reached in
  which an address starves while the loop waits (`Scheduler.StarvationPossible`), for as long as the order stays
  (`Scheduler.WaitingRepeats`).
- The block that `DFL_ck_realloc_block` returns has the size asked for, but for a size within 256 of 2^32 that makes the
  block grow in a build without DEBUG_BUILD: the sum wraps around (`Allocator.RenewedHasRoomIff`).
- No result of `DFL_ck_memdup_str` ever passes `CHECK_PTR` (`Blocks.TerminatedNeverIntact`).

## Model

| member | source | states |
|---|---|---|
| `Matrices.SandwichForm` | src/fuzz/sampler.py:12-17 | v.(a^T diag(s) a).v, multiplied out as matrices, is the weighted sum of the squares of a.v |
| `Matrices.HessianQuadraticForm` | src/fuzz/sampler.py:8-17 | the local norm under the barrier Hessian is the sum over rows of (a_i.v)^2 / slack_i^2 |
| `Matrices.BarrierTerm` | src/fuzz/sampler.py:8-17 | no row's term exceeds the whole sum |
| `Matrices.HessianDefiniteIff` | src/fuzz/sampler.py:8-17 | the local norm is never negative, and 0 iff v is orthogonal to all rows: what `sample_ellipsoid` inverts is positive definite iff only 0 is |
| `Matrices.MatMulIdentity` | src/fuzz/sampler.py:132-138 | projecting with the identity leaves a matrix as it is |
| `Polytope.LpFeasibleIsMargin` | src/fuzz/sampler.py:95-99 | the rows given to linprog say that x keeps r times the row norm from each constraint |
| `Polytope.FarthestInBall` | src/fuzz/sampler.py:95-99 | a ball of radius r has a point where a.y is a.x + norm r: the margin is tight |
| `Polytope.MarginIffHoldsOnBall` | src/fuzz/sampler.py:95-99 | a constraint has margin r at x iff it holds on the ball of radius r around x |
| `Polytope.LpFeasibleIffBallInside` | src/fuzz/sampler.py:93-103 | (x, r) is feasible for the linear program iff the ball lies in the polytope |
| `Polytope.CenterStrictIffInterior` | src/fuzz/sampler.py:93-103 | an optimal answer is strictly inside iff the polytope has an interior point, and then r > 0 |
| `Polytope.CenterInsideIffPoint` | src/fuzz/sampler.py:93-103 | an optimal answer is inside iff the polytope is not empty |
| `Dikin.RelativeChange` | src/fuzz/sampler.py:59 | one term of the local norm is at most 1 iff the new slack is at least half the old |
| `Dikin.AcceptedKeepsHalfTheSlack` | src/fuzz/sampler.py:56-66 | a proposal that passes the reject test keeps half of each slack, whatever the radius |
| `Dikin.MovesIff` | src/fuzz/sampler.py:56-66 | an iteration that samples off the boundary goes to x + step iff no slack is 0 there, the squares of the relative slack changes add up to at most 1, and the coin is won; else it stays |
| `Dikin.StepKeepsInterior` | src/fuzz/sampler.py:47-68 | an iteration from an interior point raises iff it samples and `sample_ellipsoid` raises; else it ends in an interior point, and stays or keeps half of each slack |
| `Dikin.RunStaysInterior` | src/fuzz/sampler.py:42-68 | every run from an interior start stays strictly inside, and goes on exactly as long as sampling does not raise |
| `Dikin.RunKeepsSlack` | src/fuzz/sampler.py:42-68 | after k accepted moves each slack is at least 2^-k of what it was |
| `Dikin.DefiniteIffSpans` | src/fuzz/sampler.py:8-33 | off the boundary the Hessian is positive definite, so that it can be inverted and factorised, iff the rows span the space, wherever the point is |
| `Dikin.InteriorRunGoesOnIff` | src/fuzz/sampler.py:20-68 | from an interior start a run goes on for ever if the rows span the space; if not, it raises at the first iteration that samples |
| `Dikin.OneConstraintAcceptance` | src/fuzz/sampler.py:59-61 | the bare test with one row accepts exactly what keeps half the slack, so that one half is attained |
| `Dikin.BoundaryPassIff` | src/fuzz/sampler.py:57-61 | the bare test, with any rows: from a point with a tight row it accepts exactly what changes the slack of that row and of no other |
| `Dikin.PassShowsInterior` | src/fuzz/sampler.py:57-61 | a proposal that the bare test accepts, from any point inside, shows that the polytope has an interior |
| `Dikin.BoundaryRunStays` | src/fuzz/sampler.py:42-68 | from a point on the boundary the walk never moves; it goes on until `sample_ellipsoid` raises over an infinite Hessian |
| `Dikin.SafeIff` | src/fuzz/sampler.py:20-68 | no run raises iff the start is interior and the rows span the space, or it is on the boundary and LAPACK lets a matrix that is not a number pass |
| `Dikin.CenterSafeIff` | src/fuzz/sampler.py:20-103 | from the linear program's answer: with an interior, iff the rows span the space; without one but with points, iff LAPACK lets that matrix pass; else some run raises |
| `Dikin.StripRaises` | src/fuzz/sampler.py:20-103 | a strip of the plane: the linear program's answer is interior and the walk is not safe |
| `Dikin.FlatCenterStays` | src/fuzz/sampler.py:42-103 | if it has points but no interior, every run stays at the answer, meets no invalid state, and raises exactly at the first sampling whose factorisation fails |
| `Box.DikinStaysOnBoundary` | src/fuzz/sampler.py:57-61 | in a box the bare test accepts nothing from a boundary point |
| `HitAndRun.MinPositiveIsLeast` | src/fuzz/sampler.py:86 | the minimum is an element, finite iff some distance is finite and positive, and the least of those |
| `HitAndRun.ClosestFiniteIff` | src/fuzz/sampler.py:85-86 | `closest` is finite iff the direction approaches a constraint that has slack |
| `HitAndRun.ClosestIsExitTime` | src/fuzz/sampler.py:84-88 | from an interior point x + t d is strictly inside iff t < closest, and inside iff t <= closest |
| `HitAndRun.StepPassesCheckIff` | src/fuzz/sampler.py:76-88 | from any point that passes the check, a step passes the next one iff it is 0 or approaches no tight constraint |
| `HitAndRun.StepLeavesFraction` | src/fuzz/sampler.py:84-88 | how far a step goes, from any point that passes the check: along the direction, so far that the first boundary keeps the part 1 - factor of its slack, and no other row keeps less |
| `HitAndRun.StepOutcomeIff` | src/fuzz/sampler.py:84-88 | when it moves, when the minimum is infinite, and when it is that of nothing, in terms of the rows |
| `HitAndRun.TightStepFails` | src/fuzz/sampler.py:76-88 | where a tight row is approached, a step that is not 0 leaves the polytope |
| `HitAndRun.StepKeepsInterior` | src/fuzz/sampler.py:75-90 | an iteration from an interior point moves iff the direction is bounded, and to an interior point |
| `HitAndRun.RunStaysInterior` | src/fuzz/sampler.py:71-90 | every run from an interior start along bounded directions stays strictly inside |
| `HitAndRun.RunGoesOnIff` | src/fuzz/sampler.py:71-90 | every run from an interior start goes on exactly as long as the directions are bounded, through interior points |
| `HitAndRun.RunStaysLoose` | src/fuzz/sampler.py:71-90 | from a point where only rows of zeros are tight, a run goes on exactly as long as the directions meet a boundary, through such points, and never meets an invalid state |
| `HitAndRun.TowardsTightRaises` | src/fuzz/sampler.py:71-90 | from a point with any other tight row, drawing that row as direction raises in the second iteration at the latest |
| `HitAndRun.SafeIff` | src/fuzz/sampler.py:71-90 | in all runs no invalid state is met and only an unbounded direction raises, iff no row is tight at the start but rows of zeros |
| `HitAndRun.SafeIffInterior` | src/fuzz/sampler.py:71-90 | without rows of zeros: iff the start is interior |
| `HitAndRun.CenterSafeIff` | src/fuzz/sampler.py:71-103 | the linear program's answer is such a start iff any point is |
| `HitAndRun.CenterSafeIffInterior` | src/fuzz/sampler.py:71-103 | without rows of zeros: iff the polytope has an interior |
| `Box.Build` | src/fuzz/sync.py:100-110 | the loop fills the matrix with the rows +1 and -1 of each variable, and the right-hand side with max and min |
| `Box.InsideBoxIff` | src/fuzz/sync.py:103-110 | the polytope of these rows is the box [-min, max], and its interior the open box |
| `Box.CodedBoxIsIntendedIff` | src/fuzz/sync.py:103-110 | it contains [min, max], and is contained in it iff all minima are 0 |
| `Box.HasInteriorIff` | src/fuzz/sync.py:103-110 | it has an interior iff every interval has positive width |
| `Box.CenterStrictIff` | src/fuzz/sync.py:67 | the answer of the linear program is a valid start iff every interval has positive width |
| `Box.BoundedIffNonzero` | src/fuzz/sampler.py:81-86 | in a box every direction other than 0 meets a boundary, so that the step is defined |
| `Box.MidpointsAreAnswer` | src/fuzz/sampler.py:93-103 | the midpoints, with half of the smallest width, are an answer of the box's linear program |
| `Box.HasAnswerIff` | src/fuzz/sampler.py:93-103 | the program has an answer iff there is a variable |
| `Box.RowsSpan` | src/fuzz/sync.py:103-110 | the rows of a box span the space |
| `Box.HasPointIff` | src/fuzz/sync.py:103-110 | the box is not empty iff no interval has a negative width |
| `Box.WalkSafeIff` | src/fuzz/sync.py:65-67 | from the answer the hit-and-run walk is safe iff every interval has positive width; the Dikin walk likewise, or if none is negative and LAPACK lets a matrix that is not a number pass |
| `Box.HessianDefinite` | src/fuzz/sampler.py:8-33 | in a box the Hessian is positive definite off the boundary, so that `sample_ellipsoid` succeeds |
| `Box.FlatBoxRaises` | src/fuzz/sampler.py:76-88 | such a box, and a draw after which the walk has moved and the next iteration raises |
| `Box.ByteBoxIsFine` | src/fuzz/sync.py:103-110 | for the bounds 0 and 255 the coded box is the intended one, has an interior, and the linear program's answer is in it |
| `Chain.Walk.constructor` | src/fuzz/sampler.py:113 | the generator starts at the array it is given, not at a copy |
| `Chain.Walk.NextDikin` | src/fuzz/sampler.py:47-68 | an iteration advances the run by one, and an accepted point is a new array |
| `Chain.Walk.NextHitAndRun` | src/fuzz/sampler.py:75-90 | an iteration advances the run by one, in place |
| `Chain.Walk.Next` | src/fuzz/sampler.py:114-123 | next(chain): raises iff the run does |
| `Chain.YieldIndexClosedForm` | src/fuzz/sampler.py:117-123 | row i is yield number max(burn, 1) + i max(thin, 1) |
| `Chain.CollectChain` | src/fuzz/sampler.py:106-125 | row i is a copy of the run's state at that number, untouched by later moves in place; raises iff the run does before the end |
| `Chain.DoSample` | src/fuzz/sampler.py:128-158 | the result is the walk's own states, the projections notwithstanding |
| `Chain.StaysInterior` | src/fuzz/sampler.py:145-151 | from an interior start neither walk leaves the interior; it goes on exactly as long as the directions are bounded, or, for Dikin, the rows span the space or nothing is sampled |
| `Chain.SampleIsInside` | src/fuzz/sampler.py:128-158 | from an interior answer all rows are returned iff the walk can go on so long, each strictly inside the original inequalities |
| `Mutants.MatchNameOfVariable` | src/fuzz/sync.py:18 | the offset read from a variable's name is the one it was made of |
| `Mutants.MatchNameIff` | src/fuzz/sync.py:18 | a name is read iff it is k!, digits and a 0 |
| `Mutants.MutateSucceedsIff` | src/fuzz/sync.py:26-32 | the edit raises nothing iff every named offset is in range and gets a byte |
| `Mutants.MutantMeaning` | src/fuzz/sync.py:23-36 | with distinct offsets the mutant has the values there and the seed's bytes elsewhere |
| `Mutants.Synchronizer.SaveSeed` | src/fuzz/sync.py:23-36 | writes the mutant under the next number, or raises and writes nothing |
| `Mutants.FilesAre` | src/fuzz/sync.py:33-36 | the files are numbered first, first + 1, ... without gaps, each with its mutant, and there are no others |
| `Mutants.Synchronizer.SaveSample` | src/fuzz/sync.py:94-115 | the model and then the rows are written, up to the first that raises, under consecutive numbers |
| `Mutants.Synchronizer.CrackTarget` | src/fuzz/sync.py:80-120 | end to end, for every sampler: the directory holds exactly the mutants of this target, the numbers go on; with minima 0, positive maxima up to 255, distinct offsets in range, an optimal answer and directions other than 0 these are exactly 1001 files, each the seed with values within the bounds at the named offsets |
| `Mutants.SampleBox` | src/fuzz/sync.py:65-78 | nothing without a centre; else the walk's sample of the coded box, what the library returns, or nothing for an unknown name |
| `Mutants.BoxGivesBytesIff` | src/fuzz/sync.py:103-115 | every point of the coded box truncates to bytes iff no minimum is positive and all maxima fit a byte |
| `Mutants.TruncateIs` | src/fuzz/sync.py:114 | the value is between zero and the number, and less than 1 away |
| `Mutants.TruncateInBox` | src/fuzz/sync.py:114 | truncation toward zero stays in the coded box |
| `Mutants.RowsOfWalk` | src/fuzz/sync.py:65-78 | the k-th of the 1000 rows is the walk's point after 1001 + 10 k iterations |
| `Mutants.SamplesWithinBounds` | src/fuzz/sync.py:100-112 | without an interval of width 0, all 1000 rows are returned and lie in the box |
| `Mutants.RegularWalkExists` | src/fuzz/sampler.py:93-103 | for every box with a variable there is an answer from which the walk is as `CrackTarget` assumes |
| `Mutants.SaveAllWritesAll` | src/fuzz/sync.py:113-115 | with offsets in range and bytes as values, no row is lost |
| `Mutants.SaveAllIs` | src/fuzz/sync.py:113-115 | rows are written in their order up to the first that raises |
| `Mutants.AllMutantsWritten` | src/fuzz/sync.py:92-115 | then the directory gets one mutant for the model and one for each row |
| `Mutants.Harvest` | src/fuzz/sync.py:92-115 | 1000 points of a box of bytes make 1001 files: one mutant for the model, and one within the bounds for each point |
| `Coverage.AFLMap.constructor` | src/fuzz/afl.py:63-73 | a bit is set iff there is a file that has it clear; without a file none is |
| `Coverage.Load` | src/fuzz/afl.py:63-73 | fails iff the file does not have the size of the map; else a bit is set iff the file has it clear |
| `Coverage.AFLMap.UpdateBitmap` | src/fuzz/afl.py:75-81 | a bit is set afterwards iff it was, or the file has it clear; raises iff the file is longer than the map |
| `Coverage.AFLMap.IsInteresting` | src/fuzz/afl.py:83-91 | a bit is set afterwards iff it was, or the testcase has it; returns the number of bytes in which the testcase has a bit that the map lacked; raises iff its map is too short |
| `Coverage.GainIsCount` | src/fuzz/afl.py:83-91 | the gain is that number |
| `Coverage.NoGainIff` | src/fuzz/afl.py:83-91 | nothing is gained iff the map covers the testcase, and then the map stays |
| `Coverage.GainCostsBits` | src/fuzz/afl.py:83-91 | every increase is paid for with a bit that was clear |
| `Coverage.CoveredStaysCovered` | src/fuzz/afl.py:75-91 | what the map covers it covers for good |
| `Coverage.JoinAllCommutes` | src/fuzz/afl.py:75-91 | the order of the joins does not matter |
| `Sync.AmortisedCoverage` | src/fuzz/executor.py:51-75 | over any interleaving, with files of any length, saved seeds <= total increase <= 8 MAP_SIZE minus the bits set at the start |
| `Sync.SavedIdsWithoutGaps` | src/fuzz/executor.py:57-62 | the ids of the saved seeds are 0, 1, 2, ... |
| `Sync.MapIsSnapshotsAndSaved` | src/fuzz/executor.py:51-75 | the map is the initial one joined with the snapshots, the saved seeds, and maps too short to be counted: discarding loses nothing |
| `Sync.NormalTestcasesCovered` | src/fuzz/executor.py:51-75 | every testcase that exited normally, saved or not, is covered from then on |
| `Sync.MapBits` | src/fuzz/executor.py:51-75 | after any log a bit is set iff it was at the start, or some snapshot has it clear, or some normal testcase has it set |
| `Sync.SavedExactly` | src/fuzz/executor.py:51-75 | saved are exactly the normal testcases with a bit that nothing before them had, in their order, numbered by place |
| `Sync.GainIsFinds` | src/fuzz/executor.py:51-75 | what an event gains is the number of bytes in which it has such a bit |
| `Sync.CountersExactly` | src/fuzz/executor.py:63-74 | hangs are the testcases that end with 1, crashes those that end with 2 |
| `Sync.UpToIs` | src/fuzz/executor.py:51-75 | what is executed ends with the first event that raises |
| `Recording.LogRecords` | src/fuzz/executor.py:77-94 | AFL's file and the executions after it, in terms of bits: the map afterwards, which testcases are saved, hangs and crashes |
| `Recording.FlatAt` | src/fuzz/executor.py:106-112 | the testcases of an address come behind those of the addresses before it |
| `Recording.GainIsSum` | src/fuzz/executor.py:111-112 | what some executions gain is the sum of the bytes in which each finds something new |
| `Text.NumberOfDecimal` | src/fuzz/trace.py:31-32 | int() undoes the printing of a number |
| `Text.DecimalDigits` | trace/trace-pass.so.cc:97-111 | a printed number ends with its last digit and has no leading zero |
| `Text.ContainsIff` | src/fuzz/condition.py:33 | find() succeeds iff the pattern is a piece of the text |
| `Text.NumberAfterIs` | src/fuzz/condition.py:28-31 | search() finds the number at the leftmost place where the pattern stands in front of a digit, with all its digits |
| `Text.SpaceCodes` | src/fuzz/sync.py:20 | which characters are white space, by code points |
| `Text.SplitLinesOfUnlines` | src/fuzz/trace.py:20 | splitting into lines undoes printing lines |
| `Condition.TagSearch` | src/fuzz/condition.py:20-35 | 42 if the text contains strcmp, else 43 for strncmp, 44 for memcmp, 45 for phi, 46 for call@, 47 for constInst, else 0 |
| `Condition.ParseEdgeType` | src/fuzz/condition.py:26-35 | for the text of any condition: the predicate of its leftmost compare, else the number of the first of these that it mentions |
| `Condition.EdgeTypeNumbers` | src/fuzz/condition.py:20-35 | the same of the edge type of every condition |
| `Condition.StringCompareNumber` | src/fuzz/condition.py:20-35 | a compare with the result of strcmp, strncmp or memcmp has the type 42, 43 or 44 |
| `Condition.PrintedCompare` | trace/trace-pass.so.cc:94-107 | the texts of compares |
| `Condition.PrintedStringCompare` | trace/trace-pass.so.cc:90-92 | the text of a compare with a string comparison |
| `Condition.PrintedInfix` | trace/trace-pass.so.cc:133-143 | the texts of or, and, xor |
| `Condition.PrintedOthers` | trace/trace-pass.so.cc:123-157 | the texts of calls, constants and the rest |
| `Condition.PrintedPhi` | trace/trace-pass.so.cc:109-121 | the text of a phi node: its blocks in order, without unknown ones |
| `Condition.SearchesFindLeftmost` | src/fuzz/condition.py:28-44 | for every condition and any callee names, each pattern's first match is the leftmost mark of its kind in the tree |
| `Condition.ContainsIffMentions` | src/fuzz/condition.py:32-34 | a tag occurs in the text iff the tree mentions it: no text is mistaken for another across the joints |
| `Condition.EdgeTypeOfMarks` | src/fuzz/condition.py:26-43 | for every condition, what edge type and width are in terms of the tree |
| `Condition.EdgeTypeOfTree` | trace/trace-pass.so.cc:77-157 | with callee names free of the markers, they are the predicate of the leftmost compare and the width of the leftmost integer compare |
| `Condition.WidthRightIff` | src/fuzz/condition.py:38-43 | for every condition, the width read is the leftmost integer compare's iff no callee's name gives one before it, or the same one |
| `Condition.TypeRightIff` | src/fuzz/condition.py:26-35 | the edge type is the leftmost compare's predicate, or else the first tag, iff no callee's name gives a predicate before it, or the same one |
| `Condition.CallWidthIff` | src/fuzz/condition.py:38-43 | a call is given a width iff its callee's name continues `_i` with a digit |
| `Condition.ParseBranchText` | src/fuzz/condition.py:64-71 | a printed branch is read as a branch with this condition |
| `Condition.ParseSwitchText` | src/fuzz/condition.py:72-77 | a printed switch is read with its width and number of cases |
| `Condition.StatementTexts` | trace/trace-rt.o.c:9-31 | the texts of branches and switches, and succ_max for each kind |
| `Condition.ParseConditionIs` | src/fuzz/condition.py:55-78 | which texts are read as a branch and as a switch, and the numbers of the switch |
| `Condition.IsSwitchIsRead` | src/fuzz/condition.py:55-78 | every text of that form is read as a switch |
| `Condition.CoveredMeansAllSeenIff` | src/fuzz/condition.py:84-85 | covered is the same as all successors seen iff there are succ_max of them |
| `Condition.CoveredWithOneUnseen` | src/fuzz/condition.py:84-85 | with more successors, one can be unseen |
| `Condition.CondStmt.UpdateDist` | src/fuzz/condition.py:80-82 | the distance becomes the smaller of the two |
| `TraceLog.LogBranch` | trace/trace-rt.o.c:5-15 | what is read back from the line is a branch with this outcome and condition, and the edge to the outcome's successor |
| `TraceLog.LogSwitch` | trace/trace-rt.o.c:17-33 | what is read back from the line is a switch of this width and number of cases, and the edge to the printed destination |
| `TraceLog.SearchCase` | trace/trace-rt.o.c:21-29 | the search stops at the first case taken; its id is printed, or the default's if it is 0 |
| `TraceLog.PrintedDestinationRightIff` | trace/trace-rt.o.c:21-29 | the destination is the real one iff the id of the case taken is not 0, or the default's is 0 as well |
| `TraceLog.SwitchAlwaysRightIff` | trace/trace-rt.o.c:21-29 | whatever is taken the printed successor is the real one, iff no case block has the id 0 or the default has it too |
| `TraceLog.WrongDestination` | trace/trace-rt.o.c:21-29 | a switch whose line names a successor that was not taken |
| `TraceLog.ParseLineOfText` | src/fuzz/trace.py:12-32 | reading undoes printing for any condition text, one that contains `): ` included |
| `TraceLog.ParsedLineIff` | src/fuzz/trace.py:12-28 | a line is read iff it has the header and a tail somewhere behind it |
| `TraceLog.ParsedLineShape` | src/fuzz/trace.py:12-32 | what is read is the text between the header and the last tail, and that tail's numbers |
| `TraceLog.TraceRoundTrip` | src/fuzz/trace.py:17-32 | from a whole printed trace the condition, source and printed destination of every event are recovered |
| `TraceLog.LineTexts` | trace/trace-rt.o.c:9-14 | the lines of a branch |
| `TraceLog.TwoCases` | trace/trace-rt.o.c:21-29 | a switch goes to the first case taken, or to the default |
| `TraceLog.TailIs` | src/fuzz/trace.py:12 | what a tail looks like that is read: the source, a comma, and the destination with all its digits |
| `TraceLog.IsTailIsRead` | src/fuzz/trace.py:12 | and anything that looks so is read |
| `Tracer.CorpusTracer.NodeOf` | src/fuzz/trace.py:33-36 | the node of an address, created with the first line's condition |
| `Tracer.CorpusTracer.DumpTrace` | src/fuzz/trace.py:17-39 | the tree after a trace; lines that cannot be decoded are not counted |
| `Tracer.CorpusTracer.TraceCorpus` | src/fuzz/trace.py:41-47 | the tree after a batch |
| `Tracer.IndexAllMatches` | src/fuzz/trace.py:17-47 | nodes are the sources; children, belongs and min_dist are the set of destinations, the set of seeds and the least position over all traces |
| `Tracer.PositionIs` | src/fuzz/trace.py:19-25 | a position counts the decoded lines, read or not |
| `Tracer.HitsExactly` | src/fuzz/trace.py:17-32 | the hits of any output are exactly its decoded lines that match, in order, with their positions |
| `Tracer.BatchesConcatenate` | src/fuzz/trace.py:41-47 | how the seeds are split into batches does not matter |
| `Tracer.OrderDoesNotMatter` | src/fuzz/trace.py:41-47 | nor does their order, except for a node's condition |
| `Tracer.OutputHits` | src/fuzz/trace.py:17-39 | what is indexed for a printed trace are its events with their 1-based places |
| `Runs.TreeOfRuns` | src/fuzz/trace.py:17-47 | end to end: whatever the programs do, the nodes are where something happened; children is the set of the printed destinations, belongs that of the seeds that pass there, min_dist the least place of an event there |
| `Runs.ConditionOfRuns` | src/fuzz/trace.py:33-36 | and a node's condition is that of the first event there, in the first run that has one |
| `Runs.ChildrenAreReachedIff` | trace/trace-rt.o.c:21-32 | children is the set of the destinations really reached iff every misprinted event is made up for by others |
| `Runs.SwitchChildrenAreReachedIff` | trace/trace-rt.o.c:21-32 | in terms of the ids given at compile time: a switch's children are the successors reached, in all runs, iff no case has the id 0 or the default has it too |
| `Runs.SharedSuccessorNeverCovered` | src/fuzz/condition.py:84-85 | a branch whose successors share an id never counts as covered |
| `Runs.CanBeCoveredIff` | src/fuzz/condition.py:84-85 | some runs cover a node iff its branch or switch can print at least succ_max different destinations |
| `Runs.CoveredWithDefaultUnseen` | src/fuzz/condition.py:46-48 | a traced switch whose default was never taken counts as covered |
| `Runs.DefaultUnseenRun` | src/fuzz/condition.py:46-48 | such a run |
| `Depot.StateDepot.InitEdges` | src/fuzz/depot.py:39-46 | the uncovered addresses, each once, in some order |
| `Depot.StateDepot.EdgePredict` | src/fuzz/depot.py:48-64 | the uncovered addresses below the crack limit, each once, in some order |
| `Depot.StateDepot.SeedSelection` | src/fuzz/depot.py:66-83 | min(seed_max, available) distinct seeds not scheduled for the address, solved ones only after all unsolved |
| `Depot.StateDepot.ConcolicCandidate` | src/fuzz/depot.py:85-101 | the schedule of the first edge_max addresses is recorded in the pairs and the budgets, and returned by seed |
| `Depot.AddrsForMeansPairs` | src/fuzz/depot.py:93-97 | a seed is assigned exactly the addresses it is paired with |
| `Depot.SelectionUndisturbed` | src/fuzz/depot.py:93-101 | scheduling other addresses first makes no difference to a selection |
| `Depot.StateDepot.UpdateModel` | src/fuzz/depot.py:103-114 | labels end the init phase; a label without a node raises |
| `Scheduler.RunKeepsAccount` | src/fuzz/depot.py:95-97 | in every reachable state an address's budget is the number of seeds scheduled for it |
| `Scheduler.RunBoundsBudget` | src/fuzz/depot.py:54-55 | after the init phase a budget is at most what it was at the switch, or 7 + seed_max |
| `Scheduler.NoPairTwice` | src/fuzz/depot.py:72-73 | no pair is scheduled twice in a run |
| `Scheduler.CoveredNeverScheduled` | src/fuzz/depot.py:42-53 | an address that was covered once is never scheduled again |
| `Scheduler.IterationProgress` | src/fuzz/executor.py:115-154 | an iteration waits and changes nothing, or leaves fewer pairs and seeds to do |
| `Scheduler.IterationWorks` | src/fuzz/executor.py:115-154 | whatever the queue holds, an iteration that does not wait schedules or solves something new |
| `Scheduler.LoopProgress` | src/fuzz/executor.py:130-154 | so non-waiting iterations are at most as many as pairs and seeds at the start |
| `Scheduler.EmptyScheduleIff` | src/fuzz/depot.py:93-101 | nothing is scheduled iff no address before the cut has a seed left |
| `Scheduler.CanScheduleNothingIff` | src/fuzz/depot.py:85-101 | in terms of the state alone: some order schedules nothing iff the exhausted candidates fill the places before the cut |
| `Scheduler.StarvationPossible` | src/fuzz/depot.py:93-101 | for every cut a run from the start, with nodes as tracing leaves them, ends where a candidate has a seed left and the loop can wait |
| `Scheduler.WaitingRepeats` | src/fuzz/executor.py:141-146 | and the same can happen again in every later iteration |
| `Scheduler.IterationIsRun` | src/fuzz/executor.py:130-154 | an iteration of the main loop is a run of the state machine, in which exactly its own schedule is scheduled |
| `Executor.HybridExecutor.SyncSeed` | src/fuzz/executor.py:51-75 | one testcase with a map of any length: a normal one is saved iff it has a bit the map lacks, and the increase is the number of such bytes; 1 counts as a hang and 2 as a crash; raises iff a normal testcase's map is too short |
| `Executor.HybridExecutor.SolveSeed` | src/fuzz/executor.py:77-94 | a solved seed changes nothing; another becomes solved after AFL's file was merged and then its testcases were looked at: a testcase whose bits were all in the map, clear in the file, or in an earlier one is not saved, and all others are; if something raises, what comes before it was executed, and the seed is not solved |
| `Executor.HybridExecutor.CrackSeed` | src/fuzz/executor.py:96-113 | the same for the testcases of all addresses, one after the other; the labels are the addresses that had a testcase, each with the number of bytes in which its testcases found something new; or the events up to the first that raises |
| `Executor.HybridExecutor.CrackAndSolve` | src/fuzz/executor.py:148-153 | a seed is cracked first and then solved, unless it was; its labels are added to the others |
| `Executor.HybridExecutor.SeekTraceSeeds` | src/fuzz/executor.py:41-49 | each seed of the queue is listed once, and never again |
| `Executor.HybridExecutor.Trace` | src/fuzz/executor.py:135-136 | the tree is the index of all that was seen so far, and only grows |
| `Executor.HybridExecutor.SolveRandom` | src/fuzz/executor.py:115-128 | min(10, unsolved) unsolved seeds of the queue are solved, each once, up to one that raises; with none, nothing happens |
| `Executor.HybridExecutor.CrackAll` | src/fuzz/executor.py:148-153 | every scheduled seed is cracked once, and then solved unless it was, up to one that raises; nothing else is executed |
| `Executor.HybridExecutor.Iterate` | src/fuzz/executor.py:133-154 | an iteration traces the new seeds, is then an iteration of the state machine, and executes exactly the events of its seeds; the init phase ends iff cracking made a testcase; it raises iff an execution does, which breaks it off, or a testcase's address has no node |
| `Executor.HybridExecutor.Run` | src/fuzz/executor.py:130-154 | one iteration for each world, linked from the state before to the state after, up to one that raises; map, counters and tree stay right |
| `Executor.HistoryNumbers` | src/fuzz/depot.py:85-101 | in every iteration the first 10 addresses of the order are treated, and without a schedule min(10, unsolved) seeds are taken |
| `Executor.HistoryCandidates` | src/fuzz/depot.py:39-55 | the order has exactly the addresses with fewer children than succ_max and, after the init phase, fewer than 8 seeds scheduled |
| `Executor.HistorySelections` | src/fuzz/depot.py:66-83 | each gets min(10, all) of the seeds that pass it and were not scheduled for it, solved ones only if all others are taken |
| `Executor.HistoryChanges` | src/fuzz/executor.py:130-154 | an iteration records exactly the pairs of its schedule; the seeds it executed, scheduled or else unsolved ones of the queue, become solved, and no others; the init phase ends iff cracking made a testcase |
| `Executor.HistoryRecords` | src/fuzz/executor.py:130-154 | an iteration's seeds are recorded one after the other, each cracked and then solved, from the files before the iteration to those after it |
| `Executor.HistoryIsRun` | src/fuzz/executor.py:130-154 | any number of iterations, in any worlds, is a run of the state machine, which schedules exactly what the iterations schedule, in their order |
| `Executor.HistoryKeepsAccount` | src/fuzz/depot.py:95-97 | so from the start the accounting stays right |
| `Executor.HistoryNoPairTwice` | src/fuzz/depot.py:72-73 | no two iterations of the main loop schedule the same pair |
| `Executor.HistoryCoveredNeverScheduled` | src/fuzz/depot.py:42-53 | what is covered between two iterations is scheduled by no later one |
| `Executor.HistoryBoundsBudget` | src/fuzz/depot.py:54-55 | once the init phase is over it stays so, and no budget exceeds the larger of its value then and 17 |
| `Executor.HistoryWorks` | src/fuzz/executor.py:130-154 | in any worlds the iterations that neither wait nor break off are at most as many as pairs and seeds were added |
| `Executor.HistoryProgress` | src/fuzz/executor.py:130-154 | with a fixed traced queue they are at most as many as pairs and seeds were left at the start |
| `Executor.HistoryLog` | src/fuzz/executor.py:130-154 | what was executed are the testcases of the iterations, one after the other, up to one that raises |
| `Executor.HistoryTraces` | src/fuzz/executor.py:41-49 | what was traced are the seeds of all the queues |
| `Executor.HybridExecutor.SavedBounded` | src/fuzz/executor.py:55-62 | in every reachable state the saved seeds are bounded by the bits clear at the start, and numbered without gaps |
| `Executor.HybridExecutor.NothingLost` | src/fuzz/executor.py:51-75 | in every reachable state the map is that of start, snapshots and saved seeds, and covers what was discarded |
| `Executor.HybridExecutor.HistoryCovered` | src/fuzz/executor.py:130-154 | after any iterations the map covers every testcase of each of them that exited normally |
| `Loop.TreeOfHistory` | src/fuzz/executor.py:130-154 | after any iterations the tree is what the traced programs did for the seeds of all the queues: nodes, printed destinations, seeds that passed, least places |
| `ConstraintLog.DumpConstraint` | src/fuzz/sync.py:38-63 | the loop computes the run of the tokens |
| `ConstraintLog.MatchExpressionIff` | src/fuzz/sync.py:20 | an expression line is white space, blanks and tabs included, a parenthesis, and anything |
| `ConstraintLog.MatchStartIff` | src/fuzz/sync.py:19 | a START line has two numbers; the first is the source |
| `ConstraintLog.ClassifyIs` | src/fuzz/sync.py:48-62 | what every line counts as, in terms of its characters |
| `ConstraintLog.ConstraintLogRoundTrip` | src/fuzz/sync.py:38-63 | for any blocks of lines that begin with white space and a parenthesis, with any noise, each source gets its blocks' expressions, joined and in order, and nothing else |
| `ConstraintLog.DumpExample` | src/fuzz/sync.py:38-63 | two blocks and what is returned for them, written out |
| `ConstraintLog.OutputRoundTrip` | src/fuzz/sync.py:38-63 | the same from the output on, for any lines of bytes that decode to the lines of the blocks |
| `ConstraintLog.GroupMeaning` | src/fuzz/sync.py:58-59 | the dictionary has the sources that occur, each with its texts in order |
| `ConstraintLog.RunsPaired` | src/fuzz/sync.py:44-62 | for any log, how the run differs from one that starts each block afresh |
| `ConstraintLog.OwnExpressionsIff` | src/fuzz/sync.py:38-63 | for any log, the results are equal iff no block that had expressions was interrupted before an END |
| `ConstraintLog.LeakedExpression` | src/fuzz/sync.py:44-62 | a log whose second constraint comes back with the first one's expression in front |
| `Bytes.PutIs` | trace/include/alloc-inl.h:73-75 | a stored number has its least byte first |
| `Bytes.SpliceAt` | trace/include/alloc-inl.h:73-75 | a store changes its bytes and no others |
| `Blocks.EmptyBlock` | trace/include/alloc-inl.h:60-75 | the bytes of an empty block, magic numbers included |
| `Blocks.CheckIs` | trace/include/alloc-inl.h:86-96 | what the check finds first, for any head and tail |
| `Blocks.ResizeAt` | trace/include/alloc-inl.h:206-232 | a resized block has the old bytes that fit, and zeros |
| `Blocks.BlockFields` | trace/include/alloc-inl.h:73-75 | a block's size and data are read back, and it passes the check |
| `Blocks.IntactIffBlock` | trace/include/alloc-inl.h:86-96 | a chunk of the right length passes the check iff it is a block in good order |
| `Blocks.OverflowDetectedIff` | trace/include/alloc-inl.h:93-94 | a store to the byte behind the data is found out unless it stores the magic byte; one to the data never is |
| `Blocks.FreedIsFoundOut` | trace/include/alloc-inl.h:146-163 | what `DFL_ck_free` leaves of a chunk is reported as use after free, and in the debug build has none of the data |
| `Blocks.TerminatedNeverIntact` | trace/include/alloc-inl.h:328-333 | no result of memdup_str passes the check |
| `Blocks.TerminatedFields` | trace/include/alloc-inl.h:316-337 | it holds the bytes and a terminator |
| `Allocator.Heap.AllocNoZero` | trace/include/alloc-inl.h:108-126 | null for size 0, an abort for a size above the limit, else a new block |
| `Allocator.Heap.Alloc` | trace/include/alloc-inl.h:131-140 | the same, with zeros |
| `Allocator.Heap.Free` | trace/include/alloc-inl.h:146-163 | aborts with the verdict of the check iff it fails; else the chunk is gone, all others stay, and the bytes left behind are marked: they fail the check |
| `Allocator.Heap.Realloc` | trace/include/alloc-inl.h:170-236 | both builds give the same block: the old data cut, or filled up with zeros; the debug build always moves it |
| `Allocator.Heap.Relocate` | trace/include/alloc-inl.h:206-221 | the debug build's new chunk holds what fits of the data, and the old chunk is gone |
| `Allocator.ClearTail` | trace/include/alloc-inl.h:231-232 | clearing the added tail also clears the old magic byte |
| `Allocator.Heap.ReallocBlock` | trace/include/alloc-inl.h:242-260 | a large enough block stays; others grow by 256 more than asked, in 32-bit arithmetic; in the debug build as realloc |
| `Allocator.RenewedHasRoomIff` | trace/include/alloc-inl.h:242-260 | the block returned has the size asked for iff this is the debug build, or no block was given, or it was large enough, or the size plus 256 does not wrap around |
| `Allocator.Heap.Strdup` | trace/include/alloc-inl.h:265-286 | a block with the string and its terminator; of a string whose size does not fit 32 bits, as much as the truncated size says |
| `Allocator.Heap.Memdup` | trace/include/alloc-inl.h:292-310 | a block with the bytes |
| `Allocator.Heap.MemdupStr` | trace/include/alloc-inl.h:316-337 | a chunk whose magic byte is overwritten |
| `SlotTable.HashBit` | trace/include/alloc-inl.h:389 | the bucket, bit by bit: the low 12 bits of p ^ (p >> 16) |
| `SlotTable.InsertLive` | trace/include/alloc-inl.h:403-427 | the pointer is added to the live ones, and a slot only if none is empty |
| `SlotTable.RemoveLive` | trace/include/alloc-inl.h:443-452 | the pointer is taken from the live ones, once |
| `SlotTable.TableIsIndex` | trace/include/alloc-inl.h:394-457 | over any sequence of calls the slots hold exactly the live pointers, with multiplicity, and their number is the peak of live pointers |
| `SlotTable.PeakIsReached` | trace/include/alloc-inl.h:394-429 | the peak is a number of live pointers after some of the calls |
| `SlotTable.PeakIsLargest` | trace/include/alloc-inl.h:394-429 | and no other is larger |
| `SlotTable.BucketLive` | trace/include/alloc-inl.h:389-401 | a bucket's history has the live pointers that hash to it, and no others |
| `Records.EncodeIs` | trace/include/alloc-inl.h:365-369 | where the fields of an entry are |
| `Records.SlotStored` | trace/include/alloc-inl.h:409-412 | storing into one slot's bytes changes that entry only |
| `Records.GrownTable` | trace/include/alloc-inl.h:419-420 | growing the array keeps all entries, and the new slot is empty |
| `LeakTables.TableReplaced` | trace/include/alloc-inl.h:417-427 | when one table is replaced, all tables are in order |
| `LeakTables.OwnersStay` | trace/include/alloc-inl.h:417-427 | and the client's blocks are untouched and disjoint from the tables |
| `LeakTables.ClientSteps` | trace/include/alloc-inl.h:479-508 | what the client gets or gives back touches neither the tables nor its other blocks |
| `LeakTables.IndexAfterAdd` | trace/include/alloc-inl.h:394-429 | after TRK_alloc_buf the tables index the live blocks and the new one |
| `LeakTables.IndexAfterDrop` | trace/include/alloc-inl.h:434-457 | after TRK_free_buf the tables index the live blocks without that one |
| `LeakTables.ReportIsLeaks` | trace/include/alloc-inl.h:468-472 | the nonempty slots of the buckets are the records of the live blocks, each once |
| `LeakTracker.Tracker.TrackAlloc` | trace/include/alloc-inl.h:394-429 | in memory: the first empty slot is taken, or the table grows |
| `LeakTracker.Tracker.TrackFree` | trace/include/alloc-inl.h:434-457 | in memory: the first slot with the pointer is emptied, and a warning iff there is none |
| `LeakTracker.Tracker.Alloc` | trace/include/alloc-inl.h:479-486 | the client has a new block of zeros, tracked with its call site; its others are as they were; the history grows by this call |
| `LeakTracker.Tracker.Realloc` | trace/include/alloc-inl.h:489-497 | the client has the resized block instead of the old one, tracked with its call site; for a pointer that is not live it aborts with what the check finds |
| `LeakTracker.Tracker.ReallocBlock` | trace/include/alloc-inl.h:500-508 | the same |
| `LeakTracker.Tracker.Strdup` | trace/include/alloc-inl.h:511-518 | the client has a tracked copy of the string |
| `LeakTracker.Tracker.Memdup` | trace/include/alloc-inl.h:521-528 | the client has a tracked copy of the bytes |
| `LeakTracker.Tracker.Free` | trace/include/alloc-inl.h:541-547 | a live block is given back without an abort, the others are as they were, and what it leaves is found out if freed again; for a pointer that is not live it warns and then aborts with what the check finds |
| `LeakTracker.Tracker.Write` | trace/include/alloc-inl.h:86-96 | whatever the client stores into its own data, all invariants stay |
| `LeakTracker.Tracker.UserIsIntact` | trace/include/alloc-inl.h:86-96 | in every reachable state every live block passes the check |
| `LeakTracker.Tracker.TableIsHistory` | trace/include/alloc-inl.h:389-457 | in every reachable state a table holds the live pointers of its bucket, and TRK_cnt is their peak number |
| `LeakTracker.Tracker.Report` | trace/include/alloc-inl.h:462-474 | the report has exactly the entries made for the blocks never freed, each once |

## Left out

- Floating point: rounding, and the probabilities of the draws (uniformity, mixing).
- The acceptance ratio of determinants and the inside of `sample_ellipsoid` (src/fuzz/sampler.py:20-33, 63-64): the step
  and the coin are arbitrary, since safety rests on the reject test. That the inverse and the factorisation succeed is
  tied to the Hessian (`Dikin.Honest`), in exact arithmetic. What LAPACK does with a matrix that is infinite or not a
  number is a parameter. A Dikin proposal exactly on a boundary, where numpy computes with infinities, is not taken.
- Dikin.OneConstraintAcceptance: one row only, since it just shows that the factor one half cannot be improved.
- HitAndRun.Step: a step along which no boundary lies yields a point that is not finite before the next iteration
  raises; the model ends the walk at once.
- Mutants.Synchronizer.CrackTarget: Z3, linprog and the samplers of the pwalk library are foreign. The solver's model
  and bounds, the linear program's answer and what a library sampler returns are inputs.
- The features and the regression model of src/fuzz/condition.py:87-92 and src/fuzz/depot.py:56-64, 108-119, and the
  block hits they use (src/fuzz/depot.py:22-37): the ranking is arbitrary. A width is modelled as the number read; its
  binary logarithm, also that of a width of 0, is not.
- Seeds are identified with their names, which are unique within the queue's directory. The order of
  `testcase_core` (src/fuzz/common.py:48-53) is arbitrary.
- Executor.HybridExecutor.Run: loops for as long as it is given worlds, because the source's loop has no end. Starting
  processes, temporary directories, copying, sleeping and logging are left out; what they yield is the world.
- Loop.TreeOfHistory: of programs whose trace depends on nothing but the seed.
- Tracer.CorpusTracer.DumpTrace: a line is text or not decodable; how bytes become text is not modelled, nor are
  digits and line separators outside ASCII.
- TraceLog.LogSwitch: ids are natural numbers; `%d` prints an id of 2^31 or more as negative, but ids are drawn from
  0..65535 (trace/trace-pass.so.cc:60).
- Condition.SearchesFindLeftmost: conditions are finite trees; a phi that reaches itself makes the printer recurse for
  ever.
- The rewriting of LLVM code (trace/trace-pass.so.cc:159-266) and trace/clang-trace.c.
- Allocator.Heap.Free: reading memory after it was freed is undefined, so calls need a pointer whose chunk can be read;
  that a stale pointer is found out is stated of the bytes left behind.
- Allocator.Heap.Realloc: what memory looks like after an abort is not stated, for the program has ended.
- LeakTracker.Tracker.Free: what can be read at a pointer that is not live is an input, and must not look like a block
  in good order, for then the C library is asked to free what it did not hand out. The roots of the tables are no
  pointers of the client's.
- LeakTracker.Tracker.Realloc: the same holds of a pointer that is not live.
- LeakTracker.Tracker.ReallocBlock: and here.
- `TRK_ck_memdup_str`, for its result cannot be freed; `alloc_printf` and the macros that pass the call site.
