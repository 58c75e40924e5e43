/** What each policy leaves in the scheduler's result arrays, stated over
    sequences: `b` the bursts, `w` the waiting times, `t` the turnaround times
    and `g` the timeline of 0-based process identities. */
module Results {
  import opened Sums
  import opened Orders
  import opened RoundRobinSpec

  /** Every process's turnaround time is its burst plus its waiting time. */
  ghost predicate TurnaroundHolds(b: seq<int>, w: seq<int>, t: seq<int>)
  {
    |w| == |b| && |t| == |b| &&
    forall i :: 0 <= i < |b| ==> t[i] == b[i] + w[i]
  }

  /** The processes of `g` run back to back from time 0 in that order, so each
      one waits for the bursts of the processes before it. */
  ghost predicate RunsInOrder(b: seq<int>, w: seq<int>, g: seq<nat>)
  {
    InRange(g, |b|) && |w| == |b| &&
    forall k :: 0 <= k < |g| ==> w[g[k]] == Sum(InOrder(b, g)[..k])
  }

  /** First-Come-First-Served: the input order, run back to back. */
  ghost predicate IsFcfsResult(b: seq<int>, w: seq<int>, t: seq<int>, g: seq<nat>)
  {
    g == Range(|b|) && RunsInOrder(b, w, g) && TurnaroundHolds(b, w, t)
  }

  /** Shortest-Job-First: the stable ascending-burst order, run back to back. */
  ghost predicate IsSjfResult(b: seq<int>, w: seq<int>, t: seq<int>, g: seq<nat>)
  {
    IsStableOrder(b, g) && RunsInOrder(b, w, g) && TurnaroundHolds(b, w, t)
  }

  /** Round Robin: the timeline of rounds; a process that ran waited for its
      completion time less its burst; one that never ran keeps the waiting time
      `w0` it had before. */
  ghost predicate IsRoundRobinResult(b: seq<int>, quantum: int, w0: seq<int>, w: seq<int>, t: seq<int>, g: seq<nat>)
  {
    quantum > 0 && |w0| == |b| && |w| == |b| && g == Gantt(b, quantum) &&
    (forall i :: 0 <= i < |b| ==>
       w[i] == if b[i] > 0 then Completion(b, quantum, g, i) - b[i] else w0[i]) &&
    TurnaroundHolds(b, w, t)
  }

  /** Under First-Come-First-Served a process waits for exactly the bursts of
      the processes before it in the input: the first waits 0, and each next one
      waits for its predecessor's waiting time plus its predecessor's burst. */
  lemma FcfsPrefixSums(b: seq<int>, w: seq<int>, t: seq<int>, g: seq<nat>)
    requires IsFcfsResult(b, w, t, g)
    ensures forall i :: 0 <= i < |b| ==> w[i] == Sum(b[..i])
    ensures |b| > 0 ==> w[0] == 0
    ensures forall i :: 0 < i < |b| ==> w[i] == w[i - 1] + b[i - 1]
  {
    assert InOrder(b, g) == b;
    forall i | 0 < i < |b|
      ensures w[i] == w[i - 1] + b[i - 1]
    {
      assert g[i] == i && g[i - 1] == i - 1;
      SumPrefixStep(b, i - 1);
    }
  }

  /** The recurrence determines the waiting times: starting from 0 and adding
      each predecessor's burst gives the prefix sums of the bursts. */
  lemma PrefixSumsFromRecurrence(b: seq<int>, w: seq<int>)
    requires |w| == |b| && (|b| > 0 ==> w[0] == 0)
    requires forall i :: 0 < i < |b| ==> w[i] == b[i - 1] + w[i - 1]
    ensures forall i :: 0 <= i < |b| ==> w[i] == Sum(b[..i])
  {
    forall i | 0 <= i < |b|
      ensures w[i] == Sum(b[..i])
    {
      PrefixSumAt(b, w, i);
    }
  }

  /** The recurrence, followed up to process `i`. */
  lemma {:induction false} PrefixSumAt(b: seq<int>, w: seq<int>, i: nat)
    requires |w| == |b| && i < |b| && w[0] == 0
    requires forall k :: 0 < k < |b| ==> w[k] == b[k - 1] + w[k - 1]
    ensures w[i] == Sum(b[..i])
  {
    if i > 0 {
      PrefixSumAt(b, w, i - 1);
      SumPrefixStep(b, i - 1);
    }
  }

  /** Conversely, waiting times that are the prefix sums of the bursts, with the
      input order as timeline, are the First-Come-First-Served result. */
  lemma FcfsFromPrefixSums(b: seq<int>, w: seq<int>, t: seq<int>)
    requires TurnaroundHolds(b, w, t)
    requires forall i :: 0 <= i < |b| ==> w[i] == Sum(b[..i])
    ensures IsFcfsResult(b, w, t, Range(|b|))
  {
    var g := Range(|b|);
    assert InOrder(b, g) == b;
  }

  /** Once the order is fixed, running it back to back leaves no choice of
      waiting times. */
  lemma RunsInOrderUnique(b: seq<int>, w1: seq<int>, w2: seq<int>, g: seq<nat>)
    requires IsPermutation(g, |b|)
    requires RunsInOrder(b, w1, g) && RunsInOrder(b, w2, g)
    ensures w1 == w2
  {
    PermutationFacts(g, |b|);
    forall p | 0 <= p < |b|
      ensures w1[p] == w2[p]
    {
      assert p in g;
      var k :| 0 <= k < |g| && g[k] == p;
    }
  }

  /** Shortest-Job-First is deterministic: two results for the same bursts have
      the same timeline, waiting times and turnaround times. */
  lemma SjfDeterministic(b: seq<int>, w1: seq<int>, t1: seq<int>, g1: seq<nat>,
                         w2: seq<int>, t2: seq<int>, g2: seq<nat>)
    requires IsSjfResult(b, w1, t1, g1) && IsSjfResult(b, w2, t2, g2)
    ensures g1 == g2 && w1 == w2 && t1 == t2
  {
    StableOrderUnique(b, g1, g2);
    RunsInOrderUnique(b, w1, w2, g1);
  }

  /** In a Round Robin result a process with a positive burst runs
      ceil(burst / quantum) times; one whose burst is not positive never runs
      and keeps the waiting time it had. */
  lemma RoundRobinSlices(b: seq<int>, quantum: int, w0: seq<int>, w: seq<int>, t: seq<int>,
                         g: seq<nat>, i: nat)
    requires IsRoundRobinResult(b, quantum, w0, w, t, g) && i < |b|
    ensures b[i] > 0 ==> Count(g, i) == (b[i] + quantum - 1) / quantum
    ensures b[i] <= 0 ==> Count(g, i) == 0 && w[i] == w0[i] && t[i] == b[i] + w0[i]
  {
    GanttVisitCount(b, quantum, i);
    if b[i] > 0 {
      VisitsIsCeiling(b[i], quantum);
    }
  }

  /** The report's two totals: total turnaround is total burst plus total
      waiting, so the two averages differ by the average burst. */
  lemma TotalTurnaround(b: seq<int>, w: seq<int>, t: seq<int>)
    requires TurnaroundHolds(b, w, t)
    ensures Sum(t) == Sum(b) + Sum(w)
  {
    SumPointwise(b, w, t);
  }
}
