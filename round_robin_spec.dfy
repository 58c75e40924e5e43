/** What Round Robin computes, stated without its loops.

    The scheduler scans the processes in input order, round after round; a
    process with work left runs for one quantum, or for the rest of its burst
    when that is no more than a quantum. So a process with burst `b > 0` is
    visited ceil(b / quantum) times, once in each of the first rounds, and a
    process whose burst is not positive is never visited. The timeline records
    only which process ran; how long each slice lasted follows from how often
    that process ran before it. */
module RoundRobinSpec {
  import opened Sums
  import opened Orders

  /** How many slices a process with burst `burst` receives: one, and then as
      many as the burst less a quantum still needs. */
  function Visits(burst: int, quantum: int): nat
    requires quantum > 0
    decreases burst
  {
    if burst > 0 then 1 + Visits(burst - quantum, quantum) else 0
  }

  /** The length of the slice a process with `r` left receives: a whole
      quantum, or what is left when that is no more than a quantum. */
  function SliceOf(r: int, quantum: int): int
  {
    if r > quantum then quantum else r
  }

  /** What a process with `r` left has left after its slice: one quantum less
      when more than a quantum was left, otherwise none. */
  function LeftAfter(r: int, quantum: int): int
  {
    if r > quantum then r - quantum else 0
  }

  /** The work left to a process after `c` slices. */
  function RemainingAfter(burst: int, quantum: int, c: nat): int
    requires quantum > 0
  {
    if c == 0 then burst else LeftAfter(RemainingAfter(burst, quantum, c - 1), quantum)
  }

  /** The length of a process's slice after `c` earlier slices. */
  function SliceLength(burst: int, quantum: int, c: nat): int
    requires quantum > 0
  {
    SliceOf(RemainingAfter(burst, quantum, c), quantum)
  }

  /** The CPU time a process has received in its first `c` slices. */
  function ServedAfter(burst: int, quantum: int, c: nat): int
    requires quantum > 0
  {
    if c == 0 then 0 else ServedAfter(burst, quantum, c - 1) + SliceLength(burst, quantum, c - 1)
  }

  /** Work served plus work left is always the whole burst. */
  lemma {:induction false} ServedPlusRemaining(burst: int, quantum: int, c: nat)
    requires quantum > 0
    ensures ServedAfter(burst, quantum, c) + RemainingAfter(burst, quantum, c) == burst
  {
    if c > 0 {
      ServedPlusRemaining(burst, quantum, c - 1);
    }
  }

  /** After `c` slices a positive burst has max(burst - c * quantum, 0) left. */
  lemma {:induction false} RemainingClosedForm(burst: int, quantum: int, c: nat)
    requires quantum > 0 && burst > 0
    ensures RemainingAfter(burst, quantum, c) == if burst - quantum * c > 0 then burst - quantum * c else 0
  {
    if c > 0 {
      RemainingClosedForm(burst, quantum, c - 1);
      assert quantum * c == quantum * (c - 1) + quantum;
    }
  }

  /** A process with nothing left keeps nothing left. */
  lemma {:induction false} RemainingOfNothing(quantum: int, c: nat)
    requires quantum > 0
    ensures RemainingAfter(0, quantum, c) == 0
  {
    if c > 0 {
      RemainingOfNothing(quantum, c - 1);
    }
  }

  /** The slices after the first are those of what the first slice left. */
  lemma {:induction false} RemainingAfterFirst(burst: int, quantum: int, c: nat)
    requires quantum > 0
    ensures RemainingAfter(burst, quantum, c + 1) == RemainingAfter(LeftAfter(burst, quantum), quantum, c)
  {
    if c > 0 {
      RemainingAfterFirst(burst, quantum, c - 1);
    }
  }

  /** A process with a positive burst still has work left exactly while it has
      had fewer slices than its visit count, and never owes negative work. */
  lemma {:induction false} RemainingPositiveIff(burst: int, quantum: int, c: nat)
    requires quantum > 0 && burst > 0
    ensures RemainingAfter(burst, quantum, c) >= 0
    ensures RemainingAfter(burst, quantum, c) > 0 <==> c < Visits(burst, quantum)
    decreases c
  {
    if c > 0 {
      RemainingAfterFirst(burst, quantum, c - 1);
      if burst > quantum {
        RemainingPositiveIff(burst - quantum, quantum, c - 1);
      } else {
        RemainingOfNothing(quantum, c - 1);
        assert Visits(burst - quantum, quantum) == 0;
      }
    }
  }

  /** The visit count brackets the burst between whole quanta. */
  lemma {:induction false} VisitsBrackets(burst: int, quantum: int)
    requires quantum > 0 && burst > 0
    ensures quantum * (Visits(burst, quantum) - 1) < burst <= quantum * Visits(burst, quantum)
    decreases burst
  {
    var v := Visits(burst, quantum);
    if burst > quantum {
      VisitsBrackets(burst - quantum, quantum);
      assert quantum * v == quantum * (v - 1) + quantum;
      assert quantum * (v - 1) == quantum * (v - 2) + quantum;
    } else {
      assert v == 1;
    }
  }

  /** A positive factor can be cancelled from a strict inequality. */
  lemma CancelFactor(quantum: int, x: int, y: int)
    requires quantum > 0 && quantum * x < quantum * y
    ensures x < y
  {
    assert quantum * y - quantum * x == quantum * (y - x);
  }

  /** A number between `quantum * k` and the next multiple of `quantum`
      divides to `k`. */
  lemma DivisionBracket(x: int, quantum: int, k: int)
    requires quantum > 0 && quantum * k <= x < quantum * k + quantum
    ensures x / quantum == k
  {
    var d, m := x / quantum, x % quantum;
    assert x == quantum * d + m && 0 <= m < quantum;
    assert quantum * (k + 1) == quantum * k + quantum;
    assert quantum * (d + 1) == quantum * d + quantum;
    CancelFactor(quantum, d, k + 1);
    CancelFactor(quantum, k, d + 1);
  }

  /** The visit count of a positive burst is ceil(burst / quantum). */
  lemma VisitsIsCeiling(burst: int, quantum: int)
    requires quantum > 0 && burst > 0
    ensures Visits(burst, quantum) == (burst + quantum - 1) / quantum
  {
    var v := Visits(burst, quantum);
    VisitsBrackets(burst, quantum);
    assert quantum * v == quantum * (v - 1) + quantum;
    DivisionBracket(burst + quantum - 1, quantum, v);
  }

  /** Over its slices a process receives exactly its burst. */
  lemma SlicesSumToBurst(burst: int, quantum: int)
    requires quantum > 0 && burst > 0
    ensures ServedAfter(burst, quantum, Visits(burst, quantum)) == burst
  {
    var v := Visits(burst, quantum);
    ServedPlusRemaining(burst, quantum, v);
    RemainingPositiveIff(burst, quantum, v);
  }

  /** How many slices of process `x` the timeline `g` holds. */
  function Count(g: seq<nat>, x: nat): nat
  {
    if g == [] then 0 else Count(g[..|g| - 1], x) + (if g[|g| - 1] == x then 1 else 0)
  }

  /** The slices of two timelines run one after the other add up. */
  lemma {:induction false} CountAppend(s: seq<nat>, t: seq<nat>, x: nat)
    ensures Count(s + t, x) == Count(s, x) + Count(t, x)
  {
    if t == [] {
      assert s + t == s;
    } else {
      CountAppend(s, t[..|t| - 1], x);
      assert (s + t)[..|s + t| - 1] == s + t[..|t| - 1];
    }
  }

  /** The count is the multiplicity of `x` in the timeline's multiset. */
  lemma {:induction false} CountIsMultiplicity(g: seq<nat>, x: nat)
    ensures Count(g, x) == multiset(g)[x]
  {
    if g != [] {
      var p := g[..|g| - 1];
      CountIsMultiplicity(p, x);
      assert g == p + [g[|g| - 1]];
      assert multiset(g) == multiset(p) + multiset{g[|g| - 1]};
    }
  }

  /** Round `r` as far as process `j`: the processes below `j`, in input order,
      that still have work at the start of round `r`. */
  function RoundPrefix(b: seq<int>, quantum: int, r: nat, j: nat): seq<nat>
    requires quantum > 0 && j <= |b|
  {
    if j == 0 then []
    else RoundPrefix(b, quantum, r, j - 1) + (if Visits(b[j - 1], quantum) > r then [j - 1] else [])
  }

  /** `g` lists, in increasing order, processes below `j` that are due in
      round `r`. */
  ghost predicate DueInOrder(b: seq<int>, quantum: int, r: nat, j: nat, g: seq<nat>)
    requires quantum > 0 && j <= |b|
  {
    (forall k :: 0 <= k < |g| ==> g[k] < j && Visits(b[g[k]], quantum) > r) &&
    (forall k, l :: 0 <= k < l < |g| ==> g[k] < g[l])
  }

  /** A partial round lists, in increasing order, processes below `j` that are
      still due in that round. */
  lemma {:induction false} RoundPrefixEntries(b: seq<int>, quantum: int, r: nat, j: nat)
    requires quantum > 0 && j <= |b|
    ensures DueInOrder(b, quantum, r, j, RoundPrefix(b, quantum, r, j))
  {
    if j > 0 {
      RoundPrefixEntries(b, quantum, r, j - 1);
      var p := RoundPrefix(b, quantum, r, j - 1);
      if Visits(b[j - 1], quantum) > r {
        assert RoundPrefix(b, quantum, r, j) == p + [j - 1];
      } else {
        assert RoundPrefix(b, quantum, r, j) == p;
      }
    }
  }

  /** Round `r` of the schedule: one slice for each process that has work left
      at its start, in input order. */
  function Round(b: seq<int>, quantum: int, r: nat): seq<nat>
    requires quantum > 0
  {
    RoundPrefix(b, quantum, r, |b|)
  }

  /** The rounds 0 .. r-1, one after the other. */
  function RoundsBefore(b: seq<int>, quantum: int, r: nat): seq<nat>
    requires quantum > 0
  {
    if r == 0 then [] else RoundsBefore(b, quantum, r - 1) + Round(b, quantum, r - 1)
  }

  /** `g` names only processes, and only ones with a positive burst. */
  ghost predicate OnlyWork(b: seq<int>, g: seq<nat>)
  {
    InRange(g, |b|) && forall k :: 0 <= k < |g| ==> b[g[k]] > 0
  }

  /** The earlier rounds name only processes with a positive burst. */
  lemma {:induction false} RoundsBeforeEntries(b: seq<int>, quantum: int, r: nat)
    requires quantum > 0
    ensures OnlyWork(b, RoundsBefore(b, quantum, r))
  {
    if r > 0 {
      RoundsBeforeEntries(b, quantum, r - 1);
      RoundPrefixEntries(b, quantum, r - 1, |b|);
      var p := RoundsBefore(b, quantum, r - 1);
      var last := RoundPrefix(b, quantum, r - 1, |b|);
      var g := RoundsBefore(b, quantum, r);
      assert g == p + last;
      forall k | 0 <= k < |g|
        ensures g[k] < |b| && b[g[k]] > 0
      {
        if k >= |p| {
          assert g[k] == last[k - |p|];
        }
      }
    }
  }

  /** The number of rounds that have someone to run: the largest visit count. */
  function MaxVisits(b: seq<int>, quantum: int): (m: nat)
    requires quantum > 0
    ensures forall i :: 0 <= i < |b| ==> Visits(b[i], quantum) <= m
    ensures m == 0 || exists i :: 0 <= i < |b| && Visits(b[i], quantum) == m
  {
    if b == [] then 0
    else
      var m := MaxVisits(b[..|b| - 1], quantum);
      var v := Visits(b[|b| - 1], quantum);
      if m < v then v else m
  }

  /** The whole Round Robin timeline: every round that has someone to run. */
  function Gantt(b: seq<int>, quantum: int): (g: seq<nat>)
    requires quantum > 0
    ensures InRange(g, |b|)
  {
    RoundsBeforeEntries(b, quantum, MaxVisits(b, quantum));
    RoundsBefore(b, quantum, MaxVisits(b, quantum))
  }

  /** Each process appears at most once in a round, and exactly when it still
      has a slice to receive. */
  lemma {:induction false} RoundPrefixCount(b: seq<int>, quantum: int, r: nat, j: nat, i: nat)
    requires quantum > 0 && j <= |b| && i < |b|
    ensures Count(RoundPrefix(b, quantum, r, j), i) ==
            if i < j && Visits(b[i], quantum) > r then 1 else 0
  {
    if j > 0 {
      RoundPrefixCount(b, quantum, r, j - 1, i);
      var earlier: seq<nat> := RoundPrefix(b, quantum, r, j - 1);
      var last: seq<nat> := if Visits(b[j - 1], quantum) > r then [j - 1] else [];
      CountAppend(earlier, last, i);
    }
  }

  /** After `r` rounds a process has had min(r, its visit count) slices. */
  lemma {:induction false} RoundsBeforeCount(b: seq<int>, quantum: int, r: nat, i: nat)
    requires quantum > 0 && i < |b|
    ensures Count(RoundsBefore(b, quantum, r), i) ==
            if r < Visits(b[i], quantum) then r else Visits(b[i], quantum)
  {
    if r > 0 {
      RoundsBeforeCount(b, quantum, r - 1, i);
      RoundPrefixCount(b, quantum, r - 1, |b|, i);
      var earlier: seq<nat> := RoundsBefore(b, quantum, r - 1);
      var last: seq<nat> := RoundPrefix(b, quantum, r - 1, |b|);
      CountAppend(earlier, last, i);
    }
  }

  /** A process appears in the timeline exactly ceil(burst / quantum) times,
      and never when its burst is not positive. */
  lemma GanttVisitCount(b: seq<int>, quantum: int, i: nat)
    requires quantum > 0 && i < |b|
    ensures Count(Gantt(b, quantum), i) == Visits(b[i], quantum)
  {
    RoundsBeforeCount(b, quantum, MaxVisits(b, quantum), i);
  }

  /** The clock after the slices of `g` have run back to back from time 0. */
  function Elapsed(b: seq<int>, quantum: int, g: seq<nat>): int
    requires quantum > 0 && InRange(g, |b|)
  {
    if g == [] then 0
    else
      var p := g[..|g| - 1];
      var x := g[|g| - 1];
      Elapsed(b, quantum, p) + SliceLength(b[x], quantum, Count(p, x))
  }

  /** The clock when process `i`'s last slice in `g` ends (0 if it never ran). */
  function Completion(b: seq<int>, quantum: int, g: seq<nat>, i: nat): int
    requires quantum > 0 && InRange(g, |b|)
  {
    if g == [] then 0
    else if g[|g| - 1] == i then Elapsed(b, quantum, g)
    else Completion(b, quantum, g[..|g| - 1], i)
  }
}
