/** The scheduling engine. A scheduler holds the burst times of a fixed set of
    processes, all ready at time 0, and its policy; calculating fills in each
    process's waiting and turnaround time and the timeline of which process ran
    (0-based identities, in execution order). */
module Scheduling {
  import opened Sums
  import opened Orders
  import opened RoundRobinSpec
  import opened Results
  import opened RoundRobinLoop

  /** The scheduling algorithm; Round Robin carries its time quantum. */
  datatype Policy = FCFS | SJF | RoundRobin(quantum: int)

  /** A fresh array with the same contents as `a`. */
  method CopyOf(a: array<int>) returns (c: array<int>)
    ensures fresh(c) && c[..] == a[..]
  {
    c := new int[a.Length];
    forall i | 0 <= i < a.Length {
      c[i] := a[i];
    }
  }

  /** Entry `k` of `keys` is the burst of process `ids[k]`. */
  ghost predicate Matches(b: seq<int>, keys: seq<int>, ids: seq<nat>)
  {
    |keys| == |ids| && InRange(ids, |b|) &&
    forall k :: 0 <= k < |ids| ==> keys[k] == b[ids[k]]
  }

  /** Every entry from position `m` on is at least as large as every entry before it. */
  ghost predicate SettledFrom(s: seq<int>, m: int)
  {
    forall j, k :: 0 <= j < k < |s| && m <= k ==> s[j] <= s[k]
  }

  /** `s` with the entries at `j` and `j + 1` exchanged. */
  function Swapped<T>(s: seq<T>, j: nat): (r: seq<T>)
    requires j + 1 < |s|
    ensures |r| == |s| && multiset(r) == multiset(s)
  {
    s[j := s[j + 1]][j + 1 := s[j]]
  }

  /** Exchanging neighbours whose bursts are out of order keeps the copy of the
      bursts aligned with the identities, keeps a permutation a permutation, and
      never reorders two processes with equal bursts. */
  lemma SwapKeepsOrder(b: seq<int>, keys: seq<int>, ids: seq<nat>, j: nat)
    requires j + 1 < |keys| && Matches(b, keys, ids)
    requires keys[j] > keys[j + 1]
    requires Stable(b, ids)
    ensures Matches(b, Swapped(keys, j), Swapped(ids, j))
    ensures Stable(b, Swapped(ids, j))
  {
  }

  /** One comparison of the bubble sort: after exchanging an out-of-order pair
      at `j`, position `j + 1` holds the largest of the first `j + 2` entries,
      and the settled tail from `m` on is untouched. */
  lemma BubbleStep(s: seq<int>, j: nat, m: nat)
    requires j + 1 < m <= |s|
    requires SettledFrom(s, m)
    requires forall k :: 0 <= k < j ==> s[k] <= s[j]
    ensures var s' := if s[j] > s[j + 1] then Swapped(s, j) else s;
            SettledFrom(s', m) && forall k :: 0 <= k <= j ==> s'[k] <= s'[j + 1]
  {
  }

  /** Exchanges the neighbours at `j` and `j + 1` in both arrays. */
  method SwapAdjacent(burstTimeCopy: array<int>, processIndex: array<nat>, j: nat)
    requires j + 1 < burstTimeCopy.Length == processIndex.Length
    modifies burstTimeCopy, processIndex
    ensures burstTimeCopy[..] == Swapped(old(burstTimeCopy[..]), j)
    ensures processIndex[..] == Swapped(old(processIndex[..]), j)
  {
    burstTimeCopy[j], burstTimeCopy[j + 1] := burstTimeCopy[j + 1], burstTimeCopy[j];
    processIndex[j], processIndex[j + 1] := processIndex[j + 1], processIndex[j];
  }

  /** The arrays part-way through a pass of the bubble sort: the copy of the
      bursts is aligned with the identities, the identities are a stable
      permutation, the tail from `m` on is settled, and position `j` holds the
      largest entry seen so far in this pass. */
  ghost predicate PassState(b: seq<int>, keys: seq<int>, ids: seq<nat>, m: nat, j: nat)
  {
    Matches(b, keys, ids) && IsPermutation(ids, |b|) && Stable(b, ids) &&
    SettledFrom(keys, m) && j < |keys| &&
    forall k :: 0 <= k < j ==> keys[k] <= keys[j]
  }

  /** One comparison of the bubble sort at `j`, on the bursts and the
      identities alongside: they are exchanged when the bursts are out of order. */
  function CompareStep(keys: seq<int>, ids: seq<nat>, j: nat): (r: (seq<int>, seq<nat>))
    requires j + 1 < |keys| == |ids|
    ensures |r.0| == |keys| && |r.1| == |ids|
  {
    if keys[j] > keys[j + 1] then (Swapped(keys, j), Swapped(ids, j)) else (keys, ids)
  }

  /** The comparisons at j, j + 1, ..., m - 2 of one pass over the first `m`
      entries. */
  function PassFrom(keys: seq<int>, ids: seq<nat>, j: nat, m: nat): (r: (seq<int>, seq<nat>))
    requires j <= m <= |keys| == |ids|
    ensures |r.0| == |keys| && |r.1| == |ids|
    decreases m - j
  {
    if j + 1 >= m then (keys, ids)
    else
      var next := CompareStep(keys, ids, j);
      PassFrom(next.0, next.1, j + 1, m)
  }

  /** Exchanging two neighbours below `m` leaves the entries from `m` on alone. */
  lemma SwappedKeepsTail<T>(s: seq<T>, j: nat, m: nat)
    requires j + 1 < m <= |s|
    ensures Swapped(s, j)[m..] == s[m..]
  {
  }

  /** A pass that has carried the largest of the first `m` entries to
      position m - 1 has settled the tail from m - 1 on. */
  lemma SettleOneMore(keys: seq<int>, m: nat)
    requires 1 <= m <= |keys| && SettledFrom(keys, m)
    requires forall k :: 0 <= k < m - 1 ==> keys[k] <= keys[m - 1]
    ensures SettledFrom(keys, m - 1)
  {
  }

  /** One comparison of the bubble sort: neighbours at `j` and `j + 1` are
      exchanged, in both arrays, when their bursts are out of order. */
  method CompareAndSwap(burstTimeCopy: array<int>, processIndex: array<nat>, ghost b: seq<int>, m: nat, j: nat)
    requires burstTimeCopy.Length == processIndex.Length && j + 1 < m <= burstTimeCopy.Length
    requires PassState(b, burstTimeCopy[..], processIndex[..], m, j)
    modifies burstTimeCopy, processIndex
    ensures PassState(b, burstTimeCopy[..], processIndex[..], m, j + 1)
    ensures (burstTimeCopy[..], processIndex[..]) == CompareStep(old(burstTimeCopy[..]), old(processIndex[..]), j)
  {
    BubbleStep(burstTimeCopy[..], j, m);
    if burstTimeCopy[j] > burstTimeCopy[j + 1] {
      SwapKeepsOrder(b, burstTimeCopy[..], processIndex[..], j);
      SwapAdjacent(burstTimeCopy, processIndex, j);
    }
  }

  /** One pass of the bubble sort over the first `m` entries: afterwards the
      largest of them sits at position m - 1. */
  method BubblePass(burstTimeCopy: array<int>, processIndex: array<nat>, ghost b: seq<int>, m: nat)
    requires 1 <= m <= burstTimeCopy.Length
    requires Matches(b, burstTimeCopy[..], processIndex[..])
    requires IsPermutation(processIndex[..], |b|) && Stable(b, processIndex[..])
    requires SettledFrom(burstTimeCopy[..], m)
    modifies burstTimeCopy, processIndex
    ensures Matches(b, burstTimeCopy[..], processIndex[..])
    ensures IsPermutation(processIndex[..], |b|) && Stable(b, processIndex[..])
    ensures SettledFrom(burstTimeCopy[..], m - 1)
    ensures (burstTimeCopy[..], processIndex[..]) == PassFrom(old(burstTimeCopy[..]), old(processIndex[..]), 0, m)
    ensures burstTimeCopy[m..] == old(burstTimeCopy[m..]) && processIndex[m..] == old(processIndex[m..])
  {
    ghost var keys0, ids0 := burstTimeCopy[..], processIndex[..];
    for j := 0 to m - 1
      invariant PassState(b, burstTimeCopy[..], processIndex[..], m, j)
      invariant PassFrom(burstTimeCopy[..], processIndex[..], j, m) == PassFrom(keys0, ids0, 0, m)
      invariant burstTimeCopy[m..] == keys0[m..] && processIndex[m..] == ids0[m..]
    {
      SwappedKeepsTail(burstTimeCopy[..], j, m);
      SwappedKeepsTail(processIndex[..], j, m);
      CompareAndSwap(burstTimeCopy, processIndex, b, m, j);
    }
    SettleOneMore(burstTimeCopy[..], m);
  }

  /** Sorts the copy of the bursts ascending, moving the process identities
      along with them; the strict comparison never swaps equal bursts. */
  method SortByBurst(burstTimeCopy: array<int>, processIndex: array<nat>, ghost b: seq<int>)
    requires Matches(b, burstTimeCopy[..], processIndex[..])
    requires IsPermutation(processIndex[..], |b|) && Stable(b, processIndex[..])
    modifies burstTimeCopy, processIndex
    ensures Matches(b, burstTimeCopy[..], processIndex[..])
    ensures IsStableOrder(b, processIndex[..])
  {
    var n := burstTimeCopy.Length;
    var i := 0;
    while i + 1 < n
      invariant 0 <= i <= n
      invariant Matches(b, burstTimeCopy[..], processIndex[..])
      invariant IsPermutation(processIndex[..], |b|) && Stable(b, processIndex[..])
      invariant SettledFrom(burstTimeCopy[..], n - i)
    {
      BubblePass(burstTimeCopy, processIndex, b, n - i);
      i := i + 1;
    }
  }

  /** Results written back by identity along a permutation `ids`, whose bursts
      `keys` lists alongside, are the results of running `ids` back to back. */
  lemma WrittenBackByIdentity(b: seq<int>, keys: seq<int>, ids: seq<nat>, w: seq<int>, t: seq<int>)
    requires IsPermutation(ids, |b|) && Matches(b, keys, ids)
    requires |w| == |b| && |t| == |b|
    requires forall k :: 0 <= k < |ids| ==> w[ids[k]] == Sum(keys[..k])
    requires forall k :: 0 <= k < |ids| ==> t[ids[k]] == b[ids[k]] + w[ids[k]]
    ensures RunsInOrder(b, w, ids) && TurnaroundHolds(b, w, t)
  {
    PermutationFacts(ids, |b|);
    assert InOrder(b, ids) == keys;
    forall p | 0 <= p < |b|
      ensures t[p] == b[p] + w[p]
    {
      assert p in ids;
    }
  }

  class Scheduler {
    /** The processes' burst times, in input order. */
    const burstTime: array<int>
    /** The number of processes. */
    const n: nat
    const policy: Policy
    const waitingTime: array<int>
    const turnaroundTime: array<int>
    /** The processes in the order they ran, one entry per slice. */
    var ganttChart: seq<nat>

    ghost predicate Valid()
    {
      burstTime.Length == n && waitingTime.Length == n && turnaroundTime.Length == n &&
      waitingTime != turnaroundTime && burstTime != waitingTime && burstTime != turnaroundTime
    }

    constructor (burstTime: array<int>, n: nat, policy: Policy)
      requires burstTime.Length == n
      ensures Valid()
      ensures this.burstTime == burstTime && this.n == n && this.policy == policy
      ensures fresh(waitingTime) && fresh(turnaroundTime)
      ensures forall i :: 0 <= i < n ==> waitingTime[i] == 0 && turnaroundTime[i] == 0
      ensures ganttChart == []
    {
      this.burstTime := burstTime;
      this.n := n;
      this.policy := policy;
      waitingTime := new int[n](_ => 0);
      turnaroundTime := new int[n](_ => 0);
      ganttChart := [];
    }

    /** The totals the report averages: the waiting times and the turnaround
        times, each added up in input order. */
    method Totals() returns (totalWaitingTime: int, totalTurnaroundTime: int)
      requires Valid()
      ensures totalWaitingTime == Sum(waitingTime[..])
      ensures totalTurnaroundTime == Sum(turnaroundTime[..])
    {
      ghost var w, t := waitingTime[..], turnaroundTime[..];
      totalWaitingTime, totalTurnaroundTime := 0, 0;
      for i := 0 to n
        invariant totalWaitingTime == Sum(w[..i])
        invariant totalTurnaroundTime == Sum(t[..i])
      {
        SumPrefixStep(w, i);
        SumPrefixStep(t, i);
        totalWaitingTime := totalWaitingTime + waitingTime[i];
        totalTurnaroundTime := totalTurnaroundTime + turnaroundTime[i];
      }
      assert w[..n] == w && t[..n] == t;
    }

    /** Runs the scheduler's policy over its processes. */
    method CalculateTimes()
      requires Valid()
      requires !policy.RoundRobin? ==> n >= 1
      requires policy.RoundRobin? ==> policy.quantum > 0
      modifies this`ganttChart, waitingTime, turnaroundTime
      ensures unchanged(burstTime)
      ensures match policy
        case FCFS => IsFcfsResult(burstTime[..], waitingTime[..], turnaroundTime[..], ganttChart)
        case SJF => IsSjfResult(burstTime[..], waitingTime[..], turnaroundTime[..], ganttChart)
        case RoundRobin(quantum) =>
          IsRoundRobinResult(burstTime[..], quantum, old(waitingTime[..]), waitingTime[..],
                             turnaroundTime[..], ganttChart)
    {
      match policy
      case FCFS => CalculateFcfs();
      case SJF => CalculateSjf();
      case RoundRobin(_) => CalculateRoundRobin();
    }

    /** First-Come-First-Served: each process waits for the bursts before it. */
    method CalculateFcfs()
      requires Valid() && policy == FCFS && n >= 1
      modifies this`ganttChart, waitingTime, turnaroundTime
      ensures unchanged(burstTime)
      ensures IsFcfsResult(burstTime[..], waitingTime[..], turnaroundTime[..], ganttChart)
    {
      RunInInputOrder();
      PrefixSumsFromRecurrence(burstTime[..], waitingTime[..]);
      FcfsFromPrefixSums(burstTime[..], waitingTime[..], turnaroundTime[..]);
    }

    /** The First-Come-First-Served loop: the first process waits 0, each next
        one waits for its predecessor's waiting time plus its predecessor's
        burst, and the timeline is the input order. */
    method RunInInputOrder()
      requires Valid() && n >= 1
      modifies this`ganttChart, waitingTime, turnaroundTime
      ensures ganttChart == Range(n)
      ensures waitingTime[0] == 0
      ensures forall k :: 0 < k < n ==> waitingTime[k] == burstTime[k - 1] + waitingTime[k - 1]
      ensures forall k :: 0 <= k < n ==> turnaroundTime[k] == burstTime[k] + waitingTime[k]
    {
      waitingTime[0] := 0;
      ganttChart := [];
      for i := 0 to n
        invariant ganttChart == Range(i)
        invariant waitingTime[0] == 0
        invariant forall k :: 0 < k < i ==> waitingTime[k] == burstTime[k - 1] + waitingTime[k - 1]
        invariant forall k :: 0 <= k < i ==> turnaroundTime[k] == burstTime[k] + waitingTime[k]
      {
        ganttChart := ganttChart + [i];
        if i > 0 {
          waitingTime[i] := burstTime[i - 1] + waitingTime[i - 1];
        }
        turnaroundTime[i] := burstTime[i] + waitingTime[i];
      }
    }

    /** Shortest-Job-First, non-preemptive: sort a copy of the bursts with the
        identities alongside, then run that order back to back and write the
        results back by identity. */
    method CalculateSjf()
      requires Valid() && policy == SJF && n >= 1
      modifies this`ganttChart, waitingTime, turnaroundTime
      ensures unchanged(burstTime)
      ensures IsSjfResult(burstTime[..], waitingTime[..], turnaroundTime[..], ganttChart)
    {
      ghost var b := burstTime[..];
      var burstTimeCopy := CopyOf(burstTime);
      var processIndex := new nat[n];
      for i := 0 to n
        modifies processIndex
        invariant forall k :: 0 <= k < i ==> processIndex[k] == k
      {
        processIndex[i] := i;
      }
      assert processIndex[..] == Range(n);
      SortByBurst(burstTimeCopy, processIndex, b);

      RunBackToBack(burstTimeCopy, processIndex);
    }

    /** Runs the processes back to back in the order `processIndex`, whose
        bursts `burstTimeCopy` lists alongside, and writes the results back by
        process identity. */
    method RunBackToBack(burstTimeCopy: array<int>, processIndex: array<nat>)
      requires Valid() && n >= 1
      requires burstTimeCopy != waitingTime && burstTimeCopy != turnaroundTime
      requires Matches(burstTime[..], burstTimeCopy[..], processIndex[..])
      requires IsPermutation(processIndex[..], n)
      modifies this`ganttChart, waitingTime, turnaroundTime
      ensures unchanged(burstTime) && unchanged(burstTimeCopy) && unchanged(processIndex)
      ensures ganttChart == processIndex[..]
      ensures RunsInOrder(burstTime[..], waitingTime[..], ganttChart)
      ensures TurnaroundHolds(burstTime[..], waitingTime[..], turnaroundTime[..])
    {
      PermutationFacts(processIndex[..], n);
      RecordWaitingTimes(burstTimeCopy, processIndex);
      RecordTurnaroundTimes(processIndex);
      WrittenBackByIdentity(burstTime[..], burstTimeCopy[..], processIndex[..], waitingTime[..], turnaroundTime[..]);
    }

    /** The waiting times along `processIndex`: the first process waits 0 and
        each next one waits for its predecessor's waiting time plus its
        predecessor's burst, so each waits for the sum of the bursts before it. */
    method RecordWaitingTimes(burstTimeCopy: array<int>, processIndex: array<nat>)
      requires Valid() && n >= 1
      requires burstTimeCopy != waitingTime
      requires burstTimeCopy.Length == n && processIndex.Length == n
      requires InRange(processIndex[..], n) && IsPermutation(processIndex[..], n)
      modifies this`ganttChart, waitingTime
      ensures unchanged(burstTime) && unchanged(burstTimeCopy) && unchanged(processIndex)
      ensures ganttChart == processIndex[..]
      ensures forall k :: 0 <= k < n ==> waitingTime[processIndex[k]] == Sum(burstTimeCopy[..k])
    {
      ghost var ids := processIndex[..];
      ghost var keys := burstTimeCopy[..];
      PermutationFacts(ids, n);
      ganttChart := [];
      waitingTime[processIndex[0]] := 0;
      ganttChart := ganttChart + [processIndex[0]];
      for i := 1 to n
        invariant ganttChart == ids[..i]
        invariant forall k :: 0 <= k < i ==> waitingTime[ids[k]] == Sum(keys[..k])
      {
        assert processIndex[i] == ids[i] && processIndex[i - 1] == ids[i - 1];
        SumPrefixStep(keys, i - 1);
        waitingTime[processIndex[i]] := burstTimeCopy[i - 1] + waitingTime[processIndex[i - 1]];
        ganttChart := ganttChart + [processIndex[i]];
      }
    }

    /** Each process's turnaround time is its burst plus its waiting time,
        written by identity along `processIndex`. */
    method RecordTurnaroundTimes(processIndex: array<nat>)
      requires Valid() && IsPermutation(processIndex[..], n)
      modifies turnaroundTime
      ensures unchanged(processIndex)
      ensures TurnaroundHolds(burstTime[..], waitingTime[..], turnaroundTime[..])
    {
      ghost var ids := processIndex[..];
      PermutationFacts(ids, n);
      for i := 0 to n
        invariant forall k :: 0 <= k < i ==> turnaroundTime[ids[k]] == burstTime[ids[k]] + waitingTime[ids[k]]
      {
        assert processIndex[i] == ids[i];
        turnaroundTime[processIndex[i]] := burstTime[processIndex[i]] + waitingTime[processIndex[i]];
      }
      forall p | 0 <= p < n
        ensures turnaroundTime[p] == burstTime[p] + waitingTime[p]
      {
        assert p in ids;
      }
    }

    /** Round Robin: scan the processes in input order, round after round,
        giving each one with work left a quantum, or the rest of its burst,
        until a whole round finds no work. */
    method CalculateRoundRobin()
      requires Valid() && policy.RoundRobin? && policy.quantum > 0
      modifies this`ganttChart, waitingTime, turnaroundTime
      ensures unchanged(burstTime)
      ensures IsRoundRobinResult(burstTime[..], policy.quantum, old(waitingTime[..]), waitingTime[..],
                                 turnaroundTime[..], ganttChart)
      ensures forall i :: 0 <= i < n && burstTime[i] > 0 ==> waitingTime[i] >= 0
      ensures Elapsed(burstTime[..], policy.quantum, ganttChart) == TotalWork(burstTime[..])
    {
      ghost var quantum := policy.quantum;
      ghost var b := burstTime[..];
      ghost var w0 := waitingTime[..];
      var remainingBurstTime := CopyOf(burstTime);
      var time := 0;
      var done := false;
      ganttChart := [];
      ghost var round: nat := 0;
      Start(b, quantum, w0);
      while !done
        invariant fresh(remainingBurstTime) && remainingBurstTime.Length == n
        invariant burstTime[..] == b
        invariant MidRound(b, quantum, remainingBurstTime[..], w0, waitingTime[..], ganttChart, time, round, 0)
        invariant done ==> round > 0 && NoneDue(b, quantum, round - 1, n)
        decreases TotalWork(remainingBurstTime[..]), if done then 0 else 1
      {
        done, time := ServeRound(remainingBurstTime, time, round, w0);
        round := round + 1;
      }
      Finish(b, quantum, remainingBurstTime[..], w0, waitingTime[..], ganttChart, time, round);
      RecordTurnaroundTimesInInputOrder();
    }

    /** Each process's turnaround time is its burst plus its waiting time,
        written in input order. */
    method RecordTurnaroundTimesInInputOrder()
      requires Valid()
      modifies turnaroundTime
      ensures TurnaroundHolds(burstTime[..], waitingTime[..], turnaroundTime[..])
    {
      for i := 0 to n
        invariant forall k :: 0 <= k < i ==> turnaroundTime[k] == burstTime[k] + waitingTime[k]
      {
        turnaroundTime[i] := burstTime[i] + waitingTime[i];
      }
    }

    /** One pass of the Round Robin loop: each process with work left, in
        input order, runs for a quantum or for the rest of its burst, and a
        process that finishes records its waiting time. `done` says that no
        process had work left; otherwise less work is owed than before. */
    method ServeRound(remainingBurstTime: array<int>, time0: int, ghost round: nat, ghost w0: seq<int>)
        returns (done: bool, time: int)
      requires Valid() && policy.RoundRobin? && policy.quantum > 0
      requires remainingBurstTime.Length == n
      requires remainingBurstTime != burstTime && remainingBurstTime != waitingTime
      requires MidRound(burstTime[..], policy.quantum, remainingBurstTime[..], w0, waitingTime[..],
                        ganttChart, time0, round, 0)
      modifies this`ganttChart, waitingTime, remainingBurstTime
      ensures MidRound(burstTime[..], policy.quantum, remainingBurstTime[..], w0, waitingTime[..],
                       ganttChart, time, round + 1, 0)
      ensures done <==> NoneDue(burstTime[..], policy.quantum, round, n)
      ensures done ==> TotalWork(remainingBurstTime[..]) == old(TotalWork(remainingBurstTime[..]))
      ensures !done ==> TotalWork(remainingBurstTime[..]) < old(TotalWork(remainingBurstTime[..]))
    {
      var quantum := policy.quantum;
      ghost var b := burstTime[..];
      ghost var work0 := TotalWork(remainingBurstTime[..]);
      time := time0;
      done := true;
      for i := 0 to n
        invariant burstTime[..] == b
        invariant MidRound(b, quantum, remainingBurstTime[..], w0, waitingTime[..], ganttChart, time, round, i)
        invariant done <==> NoneDue(b, quantum, round, i)
        invariant done ==> TotalWork(remainingBurstTime[..]) == work0
        invariant !done ==> TotalWork(remainingBurstTime[..]) < work0
      {
        var ran;
        ran, time := VisitProcess(remainingBurstTime, i, time, round, w0);
        NoneDueStep(b, quantum, round, i, i + 1);
        if ran {
          done := false;
        }
      }
      EndRound(b, quantum, remainingBurstTime[..], w0, waitingTime[..], ganttChart, time, round);
    }

    /** Process `i`'s turn in a round: it runs when it has work left, and
        then less work is owed than before. */
    method VisitProcess(remainingBurstTime: array<int>, i: nat, time0: int, ghost round: nat, ghost w0: seq<int>)
        returns (ran: bool, time: int)
      requires Valid() && policy.RoundRobin? && policy.quantum > 0
      requires remainingBurstTime.Length == n && i < n
      requires remainingBurstTime != burstTime && remainingBurstTime != waitingTime
      requires MidRound(burstTime[..], policy.quantum, remainingBurstTime[..], w0, waitingTime[..],
                        ganttChart, time0, round, i)
      modifies this`ganttChart, waitingTime, remainingBurstTime
      ensures unchanged(burstTime)
      ensures MidRound(burstTime[..], policy.quantum, remainingBurstTime[..], w0, waitingTime[..],
                       ganttChart, time, round, i + 1)
      ensures ran <==> Visits(burstTime[i], policy.quantum) > round
      ensures ran ==> TotalWork(remainingBurstTime[..]) < old(TotalWork(remainingBurstTime[..]))
      ensures !ran ==> TotalWork(remainingBurstTime[..]) == old(TotalWork(remainingBurstTime[..]))
    {
      var quantum := policy.quantum;
      ghost var b, rem, w, g := burstTime[..], remainingBurstTime[..], waitingTime[..], ganttChart;
      Due(b, quantum, rem, w0, w, g, time0, round, i);
      ran := remainingBurstTime[i] > 0;
      if ran {
        time := RunSlice(remainingBurstTime, i, time0);
        Serve(b, quantum, rem, w0, w, g, time0, round, i,
              remainingBurstTime[..], waitingTime[..], ganttChart, time);
      } else {
        time := time0;
        Skip(b, quantum, rem, w0, w, g, time0, round, i);
      }
    }

    /** Process `i` runs once: for a quantum when more than a quantum is left,
        otherwise for the rest of its burst, after which it records how long
        it waited. The slice is appended to the timeline. */
    method RunSlice(remainingBurstTime: array<int>, i: nat, time0: int) returns (time: int)
      requires Valid() && policy.RoundRobin? && policy.quantum > 0
      requires remainingBurstTime.Length == n && i < n
      requires remainingBurstTime != burstTime && remainingBurstTime != waitingTime
      modifies this`ganttChart, waitingTime, remainingBurstTime
      ensures unchanged(burstTime)
      ensures Served(burstTime[..], policy.quantum, old(remainingBurstTime[..]), old(waitingTime[..]),
                     old(ganttChart), time0, i,
                     remainingBurstTime[..], waitingTime[..], ganttChart, time)
    {
      var quantum := policy.quantum;
      ganttChart := ganttChart + [i];
      if remainingBurstTime[i] > quantum {
        time := time0 + quantum;
        remainingBurstTime[i] := remainingBurstTime[i] - quantum;
      } else {
        time := time0 + remainingBurstTime[i];
        waitingTime[i] := time - burstTime[i];
        remainingBurstTime[i] := 0;
      }
    }
  }
}
