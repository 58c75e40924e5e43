# CPU scheduling engine

This project models the scheduling engine of an educational CPU-scheduling
simulator (`src/Main.java`, class `SchedulingAlgorithm` and its three
subclasses) and proves what its three policies compute. Every process is ready
at time 0 and has a burst time. Computing a schedule fills in three things in
place: each process's waiting time, its turnaround time, and the Gantt chart
(the processes in the order they ran, one entry per slice).

- **First-Come-First-Served** runs the processes in input order. Each one waits
  for the bursts of the processes before it.
- **Shortest-Job-First** (non-preemptive) bubble-sorts a copy of the bursts. An
  array of process identities moves along with the copy. The order is then run
  back to back, and the results are written back by identity. The swap test is
  a strict `>`, so the sort is stable.
- **Round Robin** scans the processes in input order, round after round. A
  process with work left runs for one quantum or for the rest of its burst.
  When it finishes, its waiting time is the current time less its burst. The
  scan stops after a round in which no process had work left.

The Java abstract class and its three subclasses are modelled as one class,
`Scheduling.Scheduler`. Its `policy` field picks the subclass (Round Robin
carries its quantum), and `CalculateTimes` dispatches on it. Each method is
proved against a specification over sequences:

- module `Results` holds the predicates `IsFcfsResult`, `IsSjfResult` and
  `IsRoundRobinResult`;
- module `RoundRobinSpec` defines the Round Robin timeline round by round.
  Round `r` lists, in input order, the processes that need more than `r`
  slices, and a process needs ceil(burst / quantum) slices.

The Gantt chart holds 0-based process identities. The Java code stores the
labels `"P" + (i + 1)`.

The code accepts negative bursts. Nothing in the engine rejects them, and the
front end's `Integer.parseInt` lets `-3` through. The model follows the code
and does not require bursts to be non-negative. Under Round Robin such a process, like one with burst 0, is never
scheduled. `Sums.TotalWorkOfNonNegative` shows that for non-negative bursts the
Round Robin clock ends at the plain sum of the bursts.

## Model

| member | source | states |
|---|---|---|
| Scheduling.Scheduler.constructor | src/Main.java:16-21 | keeps the given bursts and count, allocates fresh waiting and turnaround arrays of length n holding 0, and starts with an empty Gantt chart |
| Scheduling.Scheduler.Totals | src/Main.java:28-35 | the two totals are the sums of the waiting times and of the turnaround times over all processes, taken in input order |
| Results.TotalTurnaround | src/Main.java:33-34 | when every turnaround time is burst plus waiting time, the total turnaround is the total burst plus the total waiting time |
| Scheduling.Scheduler.CalculateTimes | src/Main.java:24 | for each policy the bursts are unchanged and the arrays and Gantt chart satisfy that policy's result predicate |
| Scheduling.Scheduler.CalculateFcfs | src/Main.java:53-63 | leaves the First-Come-First-Served result: the Gantt chart is 0..n-1 in order, each process waits for the sum of the bursts before it, and turnaround is burst plus waiting |
| Scheduling.Scheduler.RunInInputOrder | src/Main.java:54-62 | the loop's effect: the first process waits 0, each later one waits for its predecessor's waiting time plus its predecessor's burst, turnaround is burst plus waiting, and the Gantt chart is 0..n-1 |
| Results.PrefixSumsFromRecurrence | src/Main.java:54-60 | waiting times that start at 0 and follow that recurrence are the prefix sums of the bursts |
| Results.FcfsPrefixSums | src/Main.java:54-61 | conversely, any First-Come-First-Served result starts at 0, follows the recurrence, and holds the prefix sums |
| Results.FcfsFromPrefixSums | src/Main.java:53-63 | prefix-sum waiting times with turnaround burst plus waiting and the input order as timeline are a First-Come-First-Served result |
| Scheduling.CopyOf | src/Main.java:74 | the copy is a fresh array with the same contents, so the bursts the scheduler keeps are never touched |
| Scheduling.SwapAdjacent | src/Main.java:84-90 | both arrays have their neighbours at j and j+1 exchanged and nothing else changed |
| Scheduling.SwapKeepsOrder | src/Main.java:83-90 | swapping neighbours with strictly out-of-order bursts keeps the copy aligned with the identities, keeps them a permutation, and keeps equal bursts in input order |
| Scheduling.BubbleStep | src/Main.java:82-91 | after one compare-and-swap at j, position j+1 holds the largest of the first j+2 entries and the settled tail is untouched |
| Scheduling.CompareAndSwap | src/Main.java:83-91 | both arrays become exactly `CompareStep` of their old contents (exchanged at j and j+1 when the bursts there are out of order, otherwise unchanged); the largest entry seen so far in the pass is now at j+1, and alignment, permutation and stability are kept |
| Scheduling.SettleOneMore | src/Main.java:81-92 | a pass that carries the largest of the first m entries to m-1 settles the tail from m-1 on |
| Scheduling.BubblePass | src/Main.java:82-92 | both arrays become exactly `PassFrom` of their old contents, the compare-and-swaps at 0, 1, ..., m-2 in turn; entries from m on stay where they were; position m-1 is settled, and the copy stays aligned with a stable permutation of identities |
| Scheduling.SortByBurst | src/Main.java:81-93 | after the nested loops the identities are all processes in ascending-burst order with ties in input order, and the copy still holds each identity's burst |
| Scheduling.Scheduler.CalculateSjf | src/Main.java:73-105 | leaves the Shortest-Job-First result: the Gantt chart is the stable ascending-burst order, each process waits for the bursts run before it, turnaround is burst plus waiting, and the bursts are unchanged |
| Scheduling.Scheduler.RunBackToBack | src/Main.java:95-104 | along the sorted identities the Gantt chart is that order, the waiting times are those of running it back to back, and turnaround is burst plus waiting |
| Scheduling.Scheduler.RecordWaitingTimes | src/Main.java:95-101 | the process at sorted position k waits for the sum of the first k sorted bursts, and the Gantt chart is the sorted identities |
| Scheduling.Scheduler.RecordTurnaroundTimes | src/Main.java:102-104 | written by identity along a permutation, every process ends with turnaround equal to burst plus waiting |
| Scheduling.WrittenBackByIdentity | src/Main.java:95-104 | results written by identity along a permutation are exactly those of running that order back to back |
| Orders.PermutationFacts | src/Main.java:75-78 | a permutation of 0..n-1 has length n, stays in range, repeats no process and omits none |
| Orders.StableOrderUnique | src/Main.java:81-93 | only one order is ascending in burst, stable on ties and a permutation, so the sort's result is determined by the bursts |
| Orders.StrictlyIncreasingUnique | src/Main.java:81-93 | two orders over the same processes that are strictly increasing in (burst, identity) are equal |
| Results.RunsInOrderUnique | src/Main.java:95-101 | once the order is fixed, running it back to back determines every waiting time |
| Results.SjfDeterministic | src/Main.java:73-105 | two Shortest-Job-First results for the same bursts have the same Gantt chart, waiting times and turnaround times |
| Scheduling.Scheduler.CalculateRoundRobin | src/Main.java:118-145 | the loop terminates; the Gantt chart is the round-by-round timeline; a process that ran waits for its completion time less its burst, and this is not negative; the clock ends at the total work; one that never ran keeps its earlier waiting time; turnaround is burst plus waiting |
| Scheduling.Scheduler.ServeRound | src/Main.java:125-139 | one scan adds exactly the next round to the timeline; `done` holds exactly when nobody needed that round; otherwise strictly less work is left |
| Scheduling.Scheduler.VisitProcess | src/Main.java:127-138 | a process runs exactly when it needs more slices than rounds completed; running it lowers the work left and skipping it changes nothing |
| Scheduling.Scheduler.RunSlice | src/Main.java:128-137 | the clock and the remaining burst move by min(quantum, remaining); the waiting time is set to the clock less the burst only when the process finishes; the process is appended to the Gantt chart |
| Scheduling.Scheduler.RecordTurnaroundTimesInInputOrder | src/Main.java:142-144 | every process ends with turnaround equal to burst plus waiting |
| RoundRobinLoop.Due | src/Main.java:127 | in the middle of a round, a process has work left exactly when it needs more slices than rounds completed |
| RoundRobinLoop.Serve | src/Main.java:127-137 | serving a process with work left keeps the loop's state description and strictly lowers the total work left |
| RoundRobinLoop.Skip | src/Main.java:127 | passing over a process with no work left keeps the loop's state description |
| RoundRobinLoop.NoneDueStep | src/Main.java:125-128 | after one more process, no one is due exactly when no one was due before and this process is not due either |
| RoundRobinLoop.EndRound | src/Main.java:124-140 | the end of a scan is the start of the next round |
| RoundRobinLoop.RoundsBeyondMax | src/Main.java:140 | rounds past the largest slice count are empty, so the timeline is complete |
| RoundRobinLoop.Finish | src/Main.java:140 | after a round with nobody due: the timeline is complete, the clock is the total work, and each process that ran waited for its completion less its burst, not negatively |
| RoundRobinLoop.AppendSlice | src/Main.java:129-136 | a new slice advances the clock by its length, ends at that process's completion time, and leaves the other completion times alone |
| RoundRobinSpec.RemainingPositiveIff | src/Main.java:130-136 | after c slices the remaining burst is never negative and is positive exactly when fewer slices than the process needs have run |
| RoundRobinSpec.ServedPlusRemaining | src/Main.java:130-136 | after any number of slices, what ran plus what remains is the burst |
| RoundRobinSpec.RemainingClosedForm | src/Main.java:130-133 | after c slices of a positive burst the remaining burst is the burst less c quanta, but never less than 0 |
| RoundRobinSpec.SlicesSumToBurst | src/Main.java:130-136 | the slice durations of a process add up to its burst |
| RoundRobinSpec.VisitsIsCeiling | src/Main.java:130-136 | a positive burst needs ceil(burst / quantum) slices |
| RoundRobinSpec.VisitsBrackets | src/Main.java:130-136 | a positive burst lies above quantum times (slices needed - 1) and at most quantum times the slices needed |
| RoundRobinSpec.RoundPrefixEntries | src/Main.java:126-129 | a partial scan lists, in increasing input order, only processes below the scan position that still need a slice in that round |
| RoundRobinSpec.RoundsBeforeEntries | src/Main.java:127-129 | the timeline of the first rounds names only processes with a positive burst |
| RoundRobinSpec.RoundPrefixCount | src/Main.java:126-129 | one scan lists a process at most once, and exactly when it is below the scan position and still needs a slice in that round |
| RoundRobinSpec.RoundsBeforeCount | src/Main.java:124-140 | after r rounds a process has had min(r, slices it needs) slices |
| RoundRobinSpec.MaxVisits | src/Main.java:124-140 | the number of non-empty rounds bounds every process's slice count and is reached by one of them |
| RoundRobinSpec.GanttVisitCount | src/Main.java:126-129 | each process appears in the Round Robin timeline exactly as many times as it needs slices |
| RoundRobinSpec.CountIsMultiplicity | src/Main.java:129 | the occurrence count of an identity in the timeline is its multiplicity |
| Results.RoundRobinSlices | src/Main.java:127-137 | in a Round Robin result a positive burst appears ceil(burst / quantum) times; a non-positive one never appears and keeps its waiting time, and its turnaround is burst plus that waiting time |
| Sums.TotalWorkUpdate | src/Main.java:131-136 | changing one remaining burst changes the work left by exactly that entry's change |
| Sums.TotalWorkNone | src/Main.java:140 | no work is left when no remaining burst is positive |
| Sums.TotalWorkOfNonNegative | src/Main.java:131-135 | for non-negative bursts the total work is the sum of the bursts |
| Sums.SumPrefixStep | src/Main.java:59 | the sum of the first i+1 entries is the sum of the first i plus entry i |
| Sums.RangeOccursOnce | src/Main.java:75-78 | the identity array 0..n-1 holds each process exactly once and nothing else |

## Left out

- The Swing front end is not part of this model: windows, listeners, dialogs, input parsing and the count check. The number of processes and the bursts are parameters of the constructor.
- `drawGanttChart` is not part of this model. It only renders, and it takes each slice's length from the process label rather than from the slice.
- The report text and the two float averages in `displayTimes` are left out. Only the integer totals are modelled (`Totals`).
- `getGanttChart` is not modelled as a separate operation. The chart is the public field `ganttChart`.
- Scheduling.Scheduler.CalculateFcfs: requires n >= 1, because the Java code writes `waitingTime[0]` and throws on an empty set.
- Scheduling.Scheduler.CalculateSjf: requires n >= 1, because the Java code reads `processIndex[0]` and throws on an empty set.
- Scheduling.Scheduler.CalculateRoundRobin: requires quantum > 0. With a quantum of 0 the Java loop never ends while some burst is positive. With a negative quantum each visit raises the remaining burst, and the loop ends only through `int` wrap-around, which this model does not have.
- Java `int` overflow is not modelled. Times are unbounded integers, so sums that would wrap around in Java do not wrap here.
- The Gantt chart holds 0-based identities rather than the strings `"P" + (i + 1)`.
- Scheduling.Scheduler.CalculateRoundRobin: a process whose burst is not positive keeps whatever waiting time it had before the call. On a fresh scheduler that is 0, as the constructor's contract states.
- The Java do/while is written as a `while !done` loop with `done` starting false, which runs its body at least once just as the do/while does.
- Some Java loops are split across helper methods so that each proof stays small. `RunInInputOrder`, `ServeRound`, `VisitProcess`, `RunSlice`, `BubblePass`, `CompareAndSwap`, `RecordWaitingTimes` and the two turnaround recorders are each a loop or loop body of the corresponding `calculateTimes`.
- The clock `time` in Round Robin is a local of `calculateTimes` and is not kept after the call. Its final value is stated through `Elapsed` on the Gantt chart.
