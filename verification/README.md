# Verified models of the ns-3 tooling and example algorithms

Eight self-contained algorithms of this repository, written in Dafny 4.11 and proved against
specifications that do not mention how they work. `dafny verify dfyconfig.toml` checks everything.

| component | files | main theorems |
|---|---|---|
| configuration-path gatherer (`utils/print-introspected-doxygen.cc`) | `Walks.dfy`, `StaticInformation.dfy`, `DuplicatePaths.dfy` | the output for a root is the one depth-first-preorder listing of all walks that repeat no type; a type is listed exactly when it is reachable from a root; exactly when the output of a whole run repeats an entry |
| parallel test runner (`test.py`) | `TestProtocol.dfy`, `TestRuns.dfy`, `TestTally.dfy`, `TestPool.dfy` | over all interleavings: bounded runs, deadlock freedom iff there is a worker or nothing to do, each job collected exactly once, no launches after an interrupt beyond the checks already passed, a summary independent of scheduling |
| load order of the Python bindings (`bindings/python/ns__init__.py`) | `DependencyLayers.dfy` | finishes iff the dependency map is closed and acyclic; layers are longest-chain lengths; the libraries left for ever are exactly those that reach a cycle or a missing library |
| style fixers (`utils/check-style-clang-format.py`) | `StyleText.dfy`, `StyleFixers.dfy` | fixing is idempotent, the two fixes commute and a fix run settles every later one, although expansion can create guards, and exactly when it then switches checking off; what is seen of each line is kept |
| benchmark statistics and event loop (`utils/bench-scheduler.cc`) | `BenchStatistics.dfy`, `BenchPopulation.dfy` | Welford's loop gives the mean and the squared deviations from it; the event population is constant and the run terminates for any scheduler |
| Jain fairness (`examples/tcp/dctcp-example.cc`) | `JainFairness.dfy` | range and both extreme cases of the index; exactly when the printed value is right although products wrap |
| timeline queries (`utils/grid.py`) | `Timeline.dfy` | the binary searches agree with a scan of ordered ranges, and exactly when the returned slice is the scan |
| resumable stream writer (`examples/tcp/tcp-large-transfer.cc`) | `StreamWriter.dfy` | against any socket the accepted bytes are a prefix of the pattern, all of it iff the socket was closed, and enough callbacks with room complete it |

`Sequences.dfy` holds facts about finite sequences shared by several of them.

Where the code and its own comments differ, the model follows the code:

- `Uniquefy` is documented as changing its container in place, but takes it by value
  (utils/print-introspected-doxygen.cc:409-428), so gathered output is never de-duplicated.
  `RunNoDupIff` says exactly when the accumulated output of a whole run repeats an entry: when two
  walks, from one root or from two, spell the same path to the same type. Two roots can share an
  entry although no edge is doubled (`TwoRootsShare`), and a root gathered twice always does
  (`GatheredTwice`). For distinct roots whose first path segments differ, `RegistryRunRepeatsIff`
  names the cause: some type on a walk has the same edge twice. The program registers one
  aggregation twice (lines 566 and 568), which is enough (`AggregatedTwice`).
- The trailing-whitespace check is documented as trimming whitespace; it also rejects, and adds, a
  missing final newline (utils/check-style-clang-format.py:482-490). `AllTrimmedIff` says exactly
  which texts pass; `MissingNewline` is the difference.
- `--jobs` is documented as a limit; a negative value starts no worker at all
  (test.py:1413-1423), and then any job leaves the main thread waiting for ever. `DeadlockFreeIff`
  states the exact condition.
- A fairness index is defined whenever some flow received bytes, but the 64-bit products of the
  program can wrap. `IndexRightIff` says exactly when the printed value is still the right one,
  `WrapCases` that it never is when only one product wraps, and `WrapLosesFairness` gives ten
  equal flows for which zero is divided by zero.
- Tabs are documented as replaced wherever the guards allow; replacing one can itself make a guard
  that switches checking off for the lines after it (`FixSwitchesOff`), and `EnabledSameIff` says
  exactly when that happens.
- `Timeline.get_bounds` folds from zero, so the bounds it returns always enclose zero as well; its
  contract says exactly when they are tight, and `BoundsOfOneEvent` is a timeline where they are not.
- `get_ranges` can miss or add ranges when an end of its window lies in a gap (`GapWindows`), and
  misses the second of two ranges that share an end at the end of the window (`SharedEnd`);
  `SliceExactIff` says exactly when.

Return codes of jobs are fixed per run of the test runner but arbitrary; delays, the scheduler's
choice of event, buffer space and the number of bytes a socket takes are arbitrary at every step.

## Model

| member | source | states |
|---|---|---|
| `Walks.VisitExact` | utils/print-introspected-doxygen.cc:447-532 | a walk is recorded iff it is a walk of the graph, repeats no type and meets none on the stack |
| `Walks.VisitOrdered` | utils/print-introspected-doxygen.cc:447-532 | the recorded walks are in strict depth-first preorder, hence each recorded once |
| `Walks.VisitCharacterised` | utils/print-introspected-doxygen.cc:447-532 | from an empty stack: the recorded sequence is the unique preorder sequence whose members are exactly the repetition-free walks |
| `Walks.Shorten` | utils/print-introspected-doxygen.cc:380-391 | every walk shortens to one without repetitions to the same end, which is why stopping at repeated types loses no type |
| `Introspection.StaticInformation.GetCurrentPath` | utils/print-introspected-doxygen.cc:360-369 | the slash-joined path stack |
| `Introspection.StaticInformation.HasAlreadyBeenProcessed` | utils/print-introspected-doxygen.cc:379-391 | true iff the type is on the stack |
| `Introspection.StaticInformation.DoGather` | utils/print-introspected-doxygen.cc:447-532 | terminates, restores both stacks, keeps the type stack free of repetitions, and appends one entry per recorded walk: its end and its labels joined behind the current path |
| `Introspection.StaticInformation.FollowAttributes` | utils/print-introspected-doxygen.cc:456-497 | the attribute loop does exactly the edges of pointer attributes not to ns3::Object and of container attributes |
| `Introspection.StaticInformation.FollowChildren` | utils/print-introspected-doxygen.cc:498-510 | the child loop does exactly the edges to registered children |
| `Introspection.StaticInformation.FollowAggregates` | utils/print-introspected-doxygen.cc:511-531 | the aggregation loop does exactly the edges to aggregated types, in either direction |
| `Introspection.StaticInformation.GatherRoots` | utils/print-introspected-doxygen.cc:587-591 | output of a whole run, root after root, stacks empty again |
| `Introspection.RunOutputInOrder` | utils/print-introspected-doxygen.cc:587-591 | position by position: the output is one part for each root, in the order of the roots, and each part has one record for each repetition-free walk, in depth-first preorder |
| `Introspection.StaticInformation.Get` | utils/print-introspected-doxygen.cc:393-406 | the paths of exactly the records for the type, one for each record, in the order recorded |
| `Introspection.GetExact` | utils/print-introspected-doxygen.cc:393-406 | a path is listed for a type iff it spells a repetition-free walk to it from some gathered root |
| `Introspection.GetIffReachable` | utils/print-introspected-doxygen.cc:393-406 | some path is listed for a type iff it is reachable from some gathered root |
| `DuplicatePaths.RunNoDupIff` | utils/print-introspected-doxygen.cc:439-532 | the output accumulated over all roots of a run repeats an entry iff two different walks, from the same root or from two, spell the same path to the same type |
| `DuplicatePaths.RunRepeatsIff` | utils/print-introspected-doxygen.cc:439-532 | for distinct roots with different first segments, where first segments tell the edges of a type apart: a run repeats an entry iff, from some root, a walked type has the same edge twice, to a type not on the walk |
| `DuplicatePaths.RegistryRunRepeatsIff` | utils/print-introspected-doxygen.cc:587-591 | the same for a run over any registry with distinct slash-free names |
| `DuplicatePaths.GatheredTwice` | utils/print-introspected-doxygen.cc:587-591 | a run that gathers some root twice repeats an entry |
| `DuplicatePaths.TwoRootsShare` | utils/print-introspected-doxygen.cc:587-591 | two roots can repeat an entry between them although no edge occurs twice |
| `DuplicatePaths.NoDupIff` | utils/print-introspected-doxygen.cc:439-445 | within one root: its part of the output repeats an entry iff two different repetition-free walks spell the same path to the same type |
| `DuplicatePaths.RepeatsIff` | utils/print-introspected-doxygen.cc:439-532 | within one root: if first path segments tell the edges of a type apart, entries repeat iff some walked type has the same edge twice, to a type not on the walk |
| `DuplicatePaths.RegistryRepeatsIff` | utils/print-introspected-doxygen.cc:439-532 | within one root, for any registry with distinct slash-free names: its entries repeat iff some walked type has the same edge twice, to a type not on the walk |
| `DuplicatePaths.AggregatedTwice` | utils/print-introspected-doxygen.cc:566-568 | registering one pair of types twice for aggregation repeats an entry |
| `TestProtocol.Balance` | test.py:984-1052 | every action moves what it takes: the one counting law behind all conservation results |
| `TestProtocol.RunInv` | test.py:984-1052 | in every run: each dispatched job is in exactly one place, breaks are conserved, no job queues behind a break, every result is right |
| `TestRuns.RunsAreBounded` | test.py:1694-1719 | no run of any interleaving is longer than 6 steps per job, 4 per worker and the interrupt |
| `TestRuns.NoDeadlock` | test.py:1694-1719 | every reachable unfinished state has a step other than an interrupt, given a worker or no jobs |
| `TestRuns.DeadlockFreeIff` | test.py:1413-1423 | no run ever gets stuck, up to the last join, iff there is a worker or there are no jobs |
| `TestRuns.NoEarlyReturn` | test.py:984-993 | while a worker has its break or has returned, no real job is queued |
| `TestRuns.NothingTwice` | test.py:984-1052 | at any moment, interrupted or not: no job came back twice, none was run twice, none marked to be skipped was run |
| `TestRuns.AllCollected` | test.py:1716-1719 | after the last join every job came back exactly once, both queues are empty and every worker has returned |
| `TestRuns.LaunchedExactly` | test.py:1016-1045 | at the end the commands run are exactly those of the jobs that came back with a return code |
| `TestRuns.OneWorkerInOrder` | test.py:984-1052 | with one worker, the jobs come back in the order in which they were sent, at every moment, interrupted or not |
| `TestRuns.NoLaunchAfterInterrupt` | test.py:998-1001 | once the flag is set only jobs already past their interrupt check are run, at most one per worker |
| `TestTally.Collector.Handle` | test.py:1719-1750 | return code 0, 1, 2 and any other, and a skipped job, each extend their own counter by one and their own list by the job's name (with the reason in parentheses if skipped); an interrupted result changes nothing |
| `TestTally.Collector.CollectAll` | test.py:1716-1750 | each counter is the number of collected results with that return code, or skipped, and each list names exactly those, in the order collected |
| `TestTally.Collector.ExitCode` | test.py:1939-1942 | once all tests are collected, 0 iff every result passed or was skipped, otherwise 1 |
| `TestTally.Accounting` | test.py:1716-1750 | every result is in exactly one counter or was interrupted |
| `TestTally.RunAccounting` | test.py:1939-1942 | at exit the counters and the interrupted jobs add up to the total, and passed + skipped reach it iff every job passed or was skipped and none was interrupted |
| `TestTally.NamedPermutation` | test.py:1716-1750 | the multiset of names per status does not depend on the order of collection |
| `TestTally.ScheduleIndependent` | test.py:1871-1886 | without an interrupt, any interleaving of any number of workers gives for each status the count and the sorted list of taking the jobs one after the other |
| `TestTally.PermutedSummary` | test.py:1716-1750 | whatever the order in which all jobs come back: each counter is the number of jobs that return 0, 1, 2, anything else, or are skipped, and each list names exactly those jobs |
| `TestPool.Pool.WorkerStep` | test.py:984-1052 | on shared state, the next step of a worker's loop is exactly one action of the step relation, and one of that worker |
| `TestPool.Pool.MainStep` | test.py:1685-1719 | the same for the main thread, with its own actions: dispatch, then breaks, then collecting into the counters, then joining |
| `TestPool.Pool.SigintHook` | test.py:571-573 | sets the flag, at any moment |
| `TestPool.Pool.Schedule` | test.py:1694-1856 | an arbitrary scheduler with interrupts at arbitrary moments always gets past the last join |
| `TestPool.RunTests` | test.py:1422-1942 | from spun-up threads to the exit code, for any schedule and any interrupt: every job comes back once, each with its own outcome or, after an interrupt, marked interrupted; counters and lists are those of the results by return code; counters and interrupted jobs add up to the total; the code is 0 iff every job came back passed or skipped. Without an interrupt: each counter is the number of jobs returning 0, 1, 2, anything else or skipped, each list names exactly those, and the code is 0 iff every job is skipped or returns 0 |
| `DependencyLayers.LoadOrder.ModulesThatCanBeLoaded` | bindings/python/ns__init__.py:394-405 | the pending libraries all of whose dependencies are loaded, in order |
| `DependencyLayers.LoadOrder.LoadRound` | bindings/python/ns__init__.py:412-415 | moves exactly the given libraries from pending to the step and to the loaded ones |
| `DependencyLayers.LoadOrder.OneRound` | bindings/python/ns__init__.py:407-415 | round k loads exactly layer k, and makes progress unless nothing can ever be loaded again |
| `DependencyLayers.LoadOrder.DependencyOrder` | bindings/python/ns__init__.py:407-416 | the recursion ends with nothing pending, or at a round after which nothing changes |
| `DependencyLayers.StuckReason` | bindings/python/ns__init__.py:394-416 | if something is pending and nothing can be loaded, the pending libraries contain a cycle or a library with a dependency outside the map |
| `DependencyLayers.WaitsForever` | bindings/python/ns__init__.py:407-416 | after as many rounds as libraries, what still waits is exactly what reaches a cycle or a missing library |
| `DependencyLayers.NoneDoomed` | bindings/python/ns__init__.py:407-416 | no library is doomed iff the map is closed and acyclic |
| `DependencyLayers.LayerIsLongestChain` | bindings/python/ns__init__.py:407-416 | in a closed map, step k holds exactly the libraries whose longest dependency chain has length k |
| `DependencyLayers.FlattenedLayers` | bindings/python/ns__init__.py:418-421 | the steps in order repeat no library and put each after all its dependencies |
| `DependencyLayers.SortToDependencies` | bindings/python/ns__init__.py:384-421 | finishes iff the map is closed and acyclic; the result is the steps one after the other, holds every library that is not doomed once, and puts dependencies first |
| `StyleText.ReadWrite` | utils/check-style-clang-format.py:504-507 | lines that were written are read back as the same lines |
| `StyleText.TabStops` | utils/check-style-clang-format.py:128 | a tab leads to the next multiple of four; every other character is one column wide |
| `StyleText.ExpandTabsCharacterised` | utils/check-style-clang-format.py:556 | `expandtabs(4)` of a line is the one tab-free line with the same visible characters at the same columns and the same width |
| `StyleFixers.CheckTrailingWhitespaceFile` | utils/check-style-clang-format.py:478-509 | in all four modes the verdict is whether every line is trimmed; the file is rewritten only in fix mode, and then to the trimmed text; verbose reports list every offending line |
| `StyleFixers.TrimInfosExact` | utils/check-style-clang-format.py:491-500 | one report for each offending line, in order: its number, the line without its trailing blanks and with its tabs expanded, and the column after it |
| `StyleFixers.FixTwoLines` | utils/check-style-clang-format.py:478-509 | a concrete file with a trailing blank and without a final newline: its fixed text and both reports |
| `StyleFixers.AllTrimmedIff` | utils/check-style-clang-format.py:482-490 | a text passes iff no line ends in blanks and the text, unless empty, ends with a newline |
| `StyleFixers.MissingNewline` | utils/check-style-clang-format.py:482-490 | a single line without blanks at its end and without newline fails, and the fix adds the newline |
| `StyleFixers.CheckTabsFile` | utils/check-style-clang-format.py:527-574 | in all four modes, early exit included, the verdict is whether a line subject to the check has a tab; fix mode writes the fixed text; verbose reports list every offending line |
| `StyleFixers.TabInfosExact` | utils/check-style-clang-format.py:559-564 | one report for each checked line with a tab, in order: its number, the column of its first tab, and the line |
| `StyleFixers.FixLeadingTab` | utils/check-style-clang-format.py:527-574 | a line that starts with a tab gets four spaces instead, and is reported at line 1, column 1 |
| `StyleFixers.FixGuarded` | utils/check-style-clang-format.py:538-557 | a concrete file with a region between the two guards: its tab stays, those before and after it go |
| `StyleFixers.EnabledAgain` | utils/check-style-clang-format.py:538-548 | clang-format is never on in a second pass where it was off in the first, although expansion creates guards |
| `StyleFixers.NewGuard` | utils/check-style-clang-format.py:538-557 | a line that is no guard and expands to the off guard |
| `StyleFixers.EnabledSameIff` | utils/check-style-clang-format.py:538-557 | both passes see clang-format on in the same places iff no checked line becomes an off guard by expansion |
| `StyleFixers.FixSwitchesOff` | utils/check-style-clang-format.py:538-557 | a file whose second line is checked by the first run and, because of what that run wrote, not by the second |
| `StyleFixers.FixTabsIdempotent` | utils/check-style-clang-format.py:535-572 | a fixed file passes the tab check, and fixing it again changes nothing |
| `StyleFixers.FixTabsPreserves` | utils/check-style-clang-format.py:535-572 | the number of lines is kept, lines not subject to the check are untouched, and every other line looks the same |
| `StyleFixers.TrimPreserves` | utils/check-style-clang-format.py:482-490 | trimming keeps the number of lines, and of each line everything but the blanks at its end |
| `StyleFixers.BothFixes` | utils/check-style-clang-format.py:307-327 | whitespace fix then tab fix gives a file that passes both checks |
| `StyleFixers.FixesCommute` | utils/check-style-clang-format.py:307-327 | the two fixes give the same text in either order |
| `StyleFixers.CheckStyleFile` | utils/check-style-clang-format.py:336-397 | success iff fixing or every selected file complies; afterwards each file has its name and selection, and its text is the fixed one if it was selected and the run fixes, otherwise as it was |
| `StyleFixers.CheckStyleClangFormat` | utils/check-style-clang-format.py:265-333 | verdict after a run with either or both checks, and the text of each file: unchanged, trimmed, with tabs expanded, or first one and then the other |
| `StyleFixers.FixRunSettles` | utils/check-style-clang-format.py:265-397 | after a fix run a check run succeeds and a second fix run changes nothing, whichever checks and files are selected |
| `BenchStatistics.Accumulate` | utils/bench-scheduler.cc:358-362 | one macro expansion turns the running form of the samples so far into that of one more |
| `BenchStatistics.WelfordStep` | utils/bench-scheduler.cc:358-362 | the update identity of the second moment |
| `BenchStatistics.Log` | utils/bench-scheduler.cc:331-393 | for all six fields: average is the arithmetic mean, and the printed variance the non-negative mean of squared deviations from it; nothing below two samples |
| `BenchStatistics.MeanMinimises` | utils/bench-scheduler.cc:346-381 | the deviations from the mean are the least, and by how much |
| `BenchStatistics.NoDeviation` | utils/bench-scheduler.cc:346-381 | the deviations vanish iff all samples are equal to the mean |
| `BenchStatistics.TwoSamples` | utils/bench-scheduler.cc:346-381 | mean and deviations of two samples |
| `BenchPopulation.Bench.Cb` | utils/bench-scheduler.cc:163-176 | stops when the total is reached, otherwise counts and schedules exactly one event, not in the past |
| `BenchPopulation.Bench.Run` | utils/bench-scheduler.cc:133-161 | terminates for any scheduler and delays with the total counted, the population pending after every counted callback, and one less at the end |
| `BenchPopulation.Suite` | utils/bench-scheduler.cc:267-309 | every run of a suite executes the same number of events |
| `JainFairness.CauchySchwarz` | examples/tcp/dctcp-example.cc:184-200 | the squared sum is at most n times the sum of squares, equal iff all counters are equal |
| `JainFairness.FitsIff` | examples/tcp/dctcp-example.cc:192-198 | neither 64-bit product wraps iff the second one does not |
| `JainFairness.SmallFits` | examples/tcp/dctcp-example.cc:192-198 | no product wraps if every counter is below 2^32 / n |
| `JainFairness.ExactRange` | examples/tcp/dctcp-example.cc:184-200 | without wrapping the index is between 1/n and 1, 1 iff all flows are equal, 1/n iff one flow got everything |
| `JainFairness.IndexRightIff` | examples/tcp/dctcp-example.cc:192-198 | the printed value is the exact index iff the wrapped divisor is not zero and the parts cut off are in the ratio of the parts kept |
| `JainFairness.WrapCases` | examples/tcp/dctcp-example.cc:192-198 | products that fit give the right value; if only one wraps it is the divisor, and the value is always wrong |
| `JainFairness.IndexRange` | examples/tcp/dctcp-example.cc:184-200 | whenever the ratio is kept, the printed value has the range and both extreme cases of the exact one |
| `JainFairness.EqualFlows` | examples/tcp/dctcp-example.cc:192-198 | for n flows of c bytes each the printed value is 1 iff (n c)^2 is no multiple of 2^64, and otherwise zero divided by zero |
| `JainFairness.WrapLosesFairness` | examples/tcp/dctcp-example.cc:192-198 | ten equal counters of 2^32 make the program divide zero by zero |
| `JainFairness.Fairness` | examples/tcp/dctcp-example.cc:188-198 | the loop with its wrapping accumulators computes the wrapped quotient of the exact sums |
| `JainFairness.Counters.PrintFairness` | examples/tcp/dctcp-example.cc:184-228 | the index of each of the three flow groups |
| `JainFairness.Counters.TraceSink` | examples/tcp/dctcp-example.cc:125-141 | a packet adds its size, modulo 2^64, to its flow's counter and to no other, and every counter still holds its flow's bytes modulo 2^64 |
| `JainFairness.Counters.MeasurementWindow` | examples/tcp/dctcp-example.cc:125-228 | from reset counters, any packets in any order: each counter is the sum, modulo 2^64, of the sizes of the packets for its flow, and the printed values are the indexes of those counters |
| `JainFairness.WindowIsExact` | examples/tcp/dctcp-example.cc:125-228 | if no flow of a group of n received 2^32 / n bytes or more, its counters are exact and the printed value is its exact index |
| `JainFairness.ReceivedNothing` | examples/tcp/dctcp-example.cc:125-158 | a flow without packets has received 0 bytes, and with one more packet its size |
| `JainFairness.QuietGroup` | examples/tcp/dctcp-example.cc:184-198 | a group that received nothing has zero divided by zero printed |
| `JainFairness.Counters.InitializeCounters` | examples/tcp/dctcp-example.cc:143-158 | every counter of the three groups is 0 |
| `Timeline.TimelineDataRange.Search` | utils/grid.py:99-116 | on any list, -1 or a range holding the key; on ordered ranges, touching or not, -1 iff there is none |
| `Timeline.TimelineDataRange.GetRangesBounds` | utils/grid.py:147-163 | the bounds that the two searches determine, within the list for an ordered window |
| `Timeline.TimelineDataRange.GetRanges` | utils/grid.py:130-146 | the slice those bounds name; on ordered ranges, if an end of the window lies in a range, every range meeting the window is there except those that only touch it, and all are iff `NoTouch`; it is the scan's answer iff `SliceExact` |
| `Timeline.SliceExactIff` | utils/grid.py:130-163 | when the returned slice is exactly the ranges that meet the window: the condition for each combination of search results |
| `Timeline.SliceCovers` | utils/grid.py:130-163 | with an end of the window in a range, the slice holds all that the scan finds iff no neighbour of the slice touches the window |
| `Timeline.DisjointNoTouch` | utils/grid.py:130-163 | where no two ranges touch each other, none touches a window that ends inside another |
| `Timeline.GapWindows` | utils/grid.py:130-163 | a window with both ends in gaps that misses the range inside it, and one with an end in a gap that returns a range outside it |
| `Timeline.SharedEnd` | utils/grid.py:99-146 | two touching ranges: the search for the shared end stops at the first, and a window ending there misses the second |
| `Timeline.TimelineEvent.Search` | utils/grid.py:194-211 | the position of an event with that time, or where one would be inserted, among events in order |
| `Timeline.EventSlice` | utils/grid.py:219-238 | everything strictly inside the window, nothing before it, at most one event after it, and exactly when there is one |
| `Timeline.EventSliceDistinct` | utils/grid.py:219-238 | with distinct times, the events at the two ends of the window as well |
| `Timeline.TimelineEvent.GetEvents` | utils/grid.py:219-228 | the slice the two searches name; among events in order it has every event inside the window, those at its ends if times are distinct, and at most one more |
| `Timeline.Timeline.GetBounds` | utils/grid.py:341-366 | the tightest bounds around everything stored and zero; each is attained iff something stored starts at or before zero, or ends at or after it |
| `Timeline.BoundsOfOneEvent` | utils/grid.py:341-366 | a timeline with one event at 5 has the bounds 0 and 5 |
| `Timeline.Timelines.GetBounds` | utils/grid.py:402-415 | the same over all timelines |
| `StreamWriter.PatternRepeats` | examples/tcp/tcp-large-transfer.cc:51-56 | the buffer can be reused at any offset because its size is a multiple of 26 |
| `StreamWriter.Sender.WriteUntilBufferFull` | examples/tcp/tcp-large-transfer.cc:221-243 | returns only with the socket closed, without room or after a failed send; every request is as large as the buffer, the rest of the stream and the room allow; with room and something left, more bytes are accepted or a send fails; the accepted bytes stay a prefix of the pattern, and the socket ends closed iff all are accepted |
| `StreamWriter.Sender.StartFlow` | examples/tcp/tcp-large-transfer.cc:209-219 | connects and writes until the socket is closed, has no room or fails a send |
| `StreamWriter.Transfer` | examples/tcp/tcp-large-transfer.cc:209-243 | over any run of callbacks with any room: the accepted bytes are a prefix of the alphabet repeated, all 2000000 of them iff the socket is closed; each callback with room brings a byte or a failed send, so enough of them close it; nothing is sent after closing |

## Left out

- TestProtocol: a job's fields that are set in place become the outcome it travels with, since only one thread holds a job at a time. Process launching, printing and the XML, HTML and text reports are not modelled.
- TestProtocol: how long a command runs is not modelled; running it and storing its return code is one step.
- Introspection.StaticInformation.DoGather: its three loops are methods of their own, and the push, recurse, pop lines they share are one method. The type registry and `IsChildOf` belong to the simulator library, which is not part of this model: any registry and any child relation are allowed. `RecordAggregationInfo`, name lookup and all documentation printing are left out.
- DependencyLayers.LoadOrder.DependencyOrder: returns `false` where the source recurses for ever (in practice, until Python's recursion limit); that limit itself is not modelled. Finding the libraries, reading their linked libraries and version filtering are left out.
- StyleFixers.CheckStyleClangFormat: the clang-format check runs an external program and is left out, as are directory walking, the process pool and choosing files by name; each file says which checks select it. Files are decoded text with newline-only line ends. Verbose reports are records, not formatted lines.
- BenchStatistics.Log: works over the reals, without rounding, and returns the variance instead of its square root; rates and periods of single runs, tables and timers are left out.
- BenchPopulation.Bench.Run: the simulator is a bag of pending events and a stop flag; its scheduler implementations are not part of this model.
- JainFairness.Fairness: the final division is over the reals, with the two special results of a zero divisor; the averages and aggregate throughputs printed beside it are left out.
- Timeline.TimelineDataRange.GetRanges: what the slice has to do with a scan is stated for ordered ranges that may touch but do not overlap; for others only which slice it is. Sorting is not modelled, because the source's `sort` calls use the comparator form of Python 2; drawing and mouse handling are left out.
- Timeline.Timeline.GetBounds: ordered ranges and events are a precondition, as the source takes the first and the last one unseen.
- Timeline.TimelineEvent.GetEvents: which of several events at the very end of a window are in the slice is fixed by the search but not stated further.
- StreamWriter.Sender.WriteUntilBufferFull: a socket that accepts zero bytes while claiming to have room is excluded, since the source would then loop for ever; the network beyond the socket is not part of this model.
- The remaining programs under `examples/` wire simulator objects together; `utils.py` evaluates text, `utils/create-module.py` and `setup.py` fill templates, and the pickle converters rewrite one file format. None of them is part of this model.
