/** The states the Round Robin loop passes through, stated over sequences:
    `rem` the remaining bursts, `w` the waiting times (`w0` before the run),
    `g` the timeline so far and `time` the clock. Each lemma here is one step
    of the loop, so that the scheduler's method only has to connect its arrays
    to these sequences. */
module RoundRobinLoop {
  import opened Sums
  import opened Orders
  import opened RoundRobinSpec
  import opened Results

  /** The lengths of the loop's sequences agree, and the timeline names only
      the processes. */
  ghost predicate Sizes(b: seq<int>, quantum: int, rem: seq<int>, w0: seq<int>, w: seq<int>, g: seq<nat>)
  {
    quantum > 0 && |rem| == |b| && |w0| == |b| && |w| == |b| && InRange(g, |b|)
  }

  /** What the loop keeps for process `k`: its remaining burst follows from how
      often it has run, and once it has finished its waiting time is its
      completion time less its burst; until then it keeps `w0[k]`. */
  ghost predicate ProcessState(b: seq<int>, quantum: int, rem: seq<int>, w0: seq<int>,
                               w: seq<int>, g: seq<nat>, time: int, k: nat)
    requires Sizes(b, quantum, rem, w0, w, g) && k < |b|
  {
    (if b[k] > 0
     then rem[k] == RemainingAfter(b[k], quantum, Count(g, k)) && b[k] - rem[k] <= time
     else rem[k] == b[k]) &&
    (if b[k] > 0 && rem[k] == 0
     then w[k] == Completion(b, quantum, g, k) - b[k] && w[k] >= 0
     else w[k] == w0[k])
  }

  /** The facts every state of the loop keeps: the clock is the time the slices
      of the timeline take, the clock plus the work still owed is the total
      work, and every process is in its state. */
  ghost predicate Progress(b: seq<int>, quantum: int, rem: seq<int>, w0: seq<int>,
                           w: seq<int>, g: seq<nat>, time: int)
  {
    Sizes(b, quantum, rem, w0, w, g) &&
    time == Elapsed(b, quantum, g) &&
    time + TotalWork(rem) == TotalWork(b) &&
    forall k :: 0 <= k < |b| ==> ProcessState(b, quantum, rem, w0, w, g, time, k)
  }

  /** In round `round`, before process `i` is looked at, process `k` has run
      once more than the rounds before when it lies below `i`, but never more
      than its visit count. */
  ghost predicate Counted(b: seq<int>, quantum: int, g: seq<nat>, round: nat, i: nat, k: nat)
    requires quantum > 0 && k < |b|
  {
    var rounds := if k < i then round + 1 else round;
    Count(g, k) == if rounds < Visits(b[k], quantum) then rounds else Visits(b[k], quantum)
  }

  /** The loop in round `round`, before it looks at process `i`: the timeline
      is the earlier rounds followed by this round's slices for the processes
      below `i`. */
  ghost predicate MidRound(b: seq<int>, quantum: int, rem: seq<int>, w0: seq<int>,
                           w: seq<int>, g: seq<nat>, time: int, round: nat, i: nat)
  {
    Progress(b, quantum, rem, w0, w, g, time) && i <= |b| &&
    g == RoundsBefore(b, quantum, round) + RoundPrefix(b, quantum, round, i) &&
    forall k :: 0 <= k < |b| ==> Counted(b, quantum, g, round, i, k)
  }

  /** Before the first round nothing has run, the clock is 0 and every
      remaining burst is the whole burst. */
  lemma Start(b: seq<int>, quantum: int, w0: seq<int>)
    requires quantum > 0 && |w0| == |b|
    ensures MidRound(b, quantum, b, w0, w0, [], 0, 0, 0)
  {
  }

  /** Appending a slice of `x` to the timeline advances the clock by that
      slice and makes it `x`'s completion time, leaving the others' alone. */
  lemma AppendSlice(b: seq<int>, quantum: int, g: seq<nat>, x: nat)
    requires quantum > 0 && InRange(g, |b|) && x < |b|
    ensures InRange(g + [x], |b|)
    ensures Elapsed(b, quantum, g + [x]) ==
            Elapsed(b, quantum, g) + SliceLength(b[x], quantum, Count(g, x))
    ensures Completion(b, quantum, g + [x], x) == Elapsed(b, quantum, g + [x])
    ensures forall i :: i != x ==> Completion(b, quantum, g + [x], i) == Completion(b, quantum, g, i)
  {
    assert (g + [x])[..|g|] == g;
  }

  /** Process `i` is due in round `round` exactly when it still has work left. */
  lemma Due(b: seq<int>, quantum: int, rem: seq<int>, w0: seq<int>, w: seq<int>,
            g: seq<nat>, time: int, round: nat, i: nat)
    requires MidRound(b, quantum, rem, w0, w, g, time, round, i) && i < |b|
    ensures rem[i] > 0 <==> Visits(b[i], quantum) > round
    ensures rem[i] > 0 ==> b[i] > 0 && Count(g, i) == round
  {
    assert ProcessState(b, quantum, rem, w0, w, g, time, i);
    assert Counted(b, quantum, g, round, i, i);
    if b[i] > 0 {
      RemainingPositiveIff(b[i], quantum, Count(g, i));
    }
  }

  /** The state after serving process `i`, which has work left: the clock
      advances by its slice, its remaining burst drops by that slice, `i` is
      appended to the timeline, and if it finished it records its waiting time. */
  ghost predicate Served(b: seq<int>, quantum: int, rem: seq<int>, w: seq<int>, g: seq<nat>, time: int, i: nat,
                         rem': seq<int>, w': seq<int>, g': seq<nat>, time': int)
    requires i < |rem| && i < |w| && i < |b|
  {
    time' == time + SliceOf(rem[i], quantum) &&
    rem' == rem[i := LeftAfter(rem[i], quantum)] &&
    w' == (if rem[i] > quantum then w else w[i := time' - b[i]]) &&
    g' == g + [i]
  }

  /** The served process itself after its slice. */
  lemma ServeSelf(b: seq<int>, quantum: int, rem: seq<int>, w0: seq<int>, w: seq<int>,
                  g: seq<nat>, time: int, round: nat, i: nat,
                  rem': seq<int>, w': seq<int>, g': seq<nat>, time': int)
    requires Sizes(b, quantum, rem, w0, w, g) && i < |b| && time == Elapsed(b, quantum, g)
    requires ProcessState(b, quantum, rem, w0, w, g, time, i)
    requires rem[i] > 0 && b[i] > 0 && Count(g, i) == round
    requires Served(b, quantum, rem, w, g, time, i, rem', w', g', time')
    ensures Sizes(b, quantum, rem', w0, w', g')
    ensures time' == Elapsed(b, quantum, g')
    ensures ProcessState(b, quantum, rem', w0, w', g', time', i)
  {
    var r := rem[i];
    RemainingPositiveIff(b[i], quantum, round);
    assert RemainingAfter(b[i], quantum, round + 1) == LeftAfter(r, quantum);
    assert SliceLength(b[i], quantum, round) == SliceOf(r, quantum);
    RemainingPositiveIff(b[i], quantum, round + 1);
    AppendSlice(b, quantum, g, i);
    assert Count(g', i) == round + 1;
  }

  /** A process other than the served one after the slice. */
  lemma ServeOther(b: seq<int>, quantum: int, rem: seq<int>, w0: seq<int>, w: seq<int>,
                   g: seq<nat>, time: int, i: nat, k: nat,
                   rem': seq<int>, w': seq<int>, g': seq<nat>, time': int)
    requires Sizes(b, quantum, rem, w0, w, g) && i < |b| && k < |b| && k != i
    requires ProcessState(b, quantum, rem, w0, w, g, time, k)
    requires rem[i] > 0
    requires Served(b, quantum, rem, w, g, time, i, rem', w', g', time')
    ensures Sizes(b, quantum, rem', w0, w', g')
    ensures ProcessState(b, quantum, rem', w0, w', g', time', k)
  {
    AppendSlice(b, quantum, g, i);
    assert Count(g', k) == Count(g, k);
  }

  /** Serving process `i` keeps every process in its state. */
  lemma ServeStates(b: seq<int>, quantum: int, rem: seq<int>, w0: seq<int>, w: seq<int>,
                    g: seq<nat>, time: int, round: nat, i: nat,
                    rem': seq<int>, w': seq<int>, g': seq<nat>, time': int)
    requires Progress(b, quantum, rem, w0, w, g, time) && i < |b|
    requires rem[i] > 0 && b[i] > 0 && Count(g, i) == round
    requires Served(b, quantum, rem, w, g, time, i, rem', w', g', time')
    ensures Progress(b, quantum, rem', w0, w', g', time')
    ensures TotalWork(rem') < TotalWork(rem)
  {
    assert ProcessState(b, quantum, rem, w0, w, g, time, i);
    ServeSelf(b, quantum, rem, w0, w, g, time, round, i, rem', w', g', time');
    forall k | 0 <= k < |b|
      ensures ProcessState(b, quantum, rem', w0, w', g', time', k)
    {
      if k != i {
        ServeOther(b, quantum, rem, w0, w, g, time, i, k, rem', w', g', time');
      }
    }
    TotalWorkUpdate(rem, i, rem'[i]);
  }

  /** Serving process `i` counts one more slice for it and none for the others. */
  lemma ServeCounts(b: seq<int>, quantum: int, g: seq<nat>, round: nat, i: nat, g': seq<nat>, next: nat)
    requires quantum > 0 && i < |b| && Visits(b[i], quantum) > round
    requires g' == g + [i] && next == i + 1
    requires forall k :: 0 <= k < |b| ==> Counted(b, quantum, g, round, i, k)
    ensures forall k :: 0 <= k < |b| ==> Counted(b, quantum, g', round, next, k)
  {
    forall k | 0 <= k < |b|
      ensures Counted(b, quantum, g', round, next, k)
    {
      assert Counted(b, quantum, g, round, i, k);
      assert Count(g', k) == Count(g, k) + if k == i then 1 else 0;
    }
  }

  /** Serving process `i` adds its slice to this round of the timeline. */
  lemma ServeTimeline(b: seq<int>, quantum: int, g: seq<nat>, round: nat, i: nat)
    requires quantum > 0 && i < |b| && Visits(b[i], quantum) > round
    requires g == RoundsBefore(b, quantum, round) + RoundPrefix(b, quantum, round, i)
    ensures g + [i] == RoundsBefore(b, quantum, round) + RoundPrefix(b, quantum, round, i + 1)
  {
    var earlier := RoundsBefore(b, quantum, round);
    var prefix := RoundPrefix(b, quantum, round, i);
    assert RoundPrefix(b, quantum, round, i + 1) == prefix + [i];
    assert g + [i] == earlier + (prefix + [i]);
  }

  /** Serving process `i`, which has work left: it runs for a quantum, or for
      the rest of its burst and then records its waiting time. The loop's facts
      hold of the state after the slice, and less work is owed. */
  lemma Serve(b: seq<int>, quantum: int, rem: seq<int>, w0: seq<int>, w: seq<int>,
              g: seq<nat>, time: int, round: nat, i: nat,
              rem': seq<int>, w': seq<int>, g': seq<nat>, time': int)
    requires MidRound(b, quantum, rem, w0, w, g, time, round, i) && i < |b|
    requires rem[i] > 0
    requires Served(b, quantum, rem, w, g, time, i, rem', w', g', time')
    ensures MidRound(b, quantum, rem', w0, w', g', time', round, i + 1)
    ensures TotalWork(rem') < TotalWork(rem)
  {
    Due(b, quantum, rem, w0, w, g, time, round, i);
    ServeStates(b, quantum, rem, w0, w, g, time, round, i, rem', w', g', time');
    ServeCounts(b, quantum, g, round, i, g', i + 1);
    ServeTimeline(b, quantum, g, round, i);
  }

  /** Skipping process `i`, which has no work left, changes nothing. */
  lemma Skip(b: seq<int>, quantum: int, rem: seq<int>, w0: seq<int>, w: seq<int>,
             g: seq<nat>, time: int, round: nat, i: nat)
    requires MidRound(b, quantum, rem, w0, w, g, time, round, i) && i < |b|
    requires rem[i] <= 0
    ensures MidRound(b, quantum, rem, w0, w, g, time, round, i + 1)
  {
    Due(b, quantum, rem, w0, w, g, time, round, i);
    SkipCounts(b, quantum, g, round, i, i + 1);
    assert RoundPrefix(b, quantum, round, i + 1) == RoundPrefix(b, quantum, round, i);
  }

  /** A process that is not due has already had all its slices, so moving past
      it changes no count. */
  lemma SkipCounts(b: seq<int>, quantum: int, g: seq<nat>, round: nat, i: nat, next: nat)
    requires quantum > 0 && i < |b| && next == i + 1 && Visits(b[i], quantum) <= round
    requires forall k :: 0 <= k < |b| ==> Counted(b, quantum, g, round, i, k)
    ensures forall k :: 0 <= k < |b| ==> Counted(b, quantum, g, round, next, k)
  {
    forall k | 0 <= k < |b|
      ensures Counted(b, quantum, g, round, next, k)
    {
      assert Counted(b, quantum, g, round, i, k);
    }
  }

  /** At the end of a round the timeline holds every round so far. */
  lemma EndRound(b: seq<int>, quantum: int, rem: seq<int>, w0: seq<int>, w: seq<int>,
                 g: seq<nat>, time: int, round: nat)
    requires MidRound(b, quantum, rem, w0, w, g, time, round, |b|)
    ensures MidRound(b, quantum, rem, w0, w, g, time, round + 1, 0)
  {
    EndRoundCounts(b, quantum, g, round, round + 1);
    assert RoundsBefore(b, quantum, round + 1) + RoundPrefix(b, quantum, round + 1, 0)
        == RoundsBefore(b, quantum, round) + RoundPrefix(b, quantum, round, |b|);
  }

  /** After the last process of a round, every process's count is that of the
      start of the next round. */
  lemma EndRoundCounts(b: seq<int>, quantum: int, g: seq<nat>, round: nat, next: nat)
    requires quantum > 0 && next == round + 1
    requires forall k :: 0 <= k < |b| ==> Counted(b, quantum, g, round, |b|, k)
    ensures forall k :: 0 <= k < |b| ==> Counted(b, quantum, g, next, 0, k)
  {
    forall k | 0 <= k < |b|
      ensures Counted(b, quantum, g, next, 0, k)
    {
      assert Counted(b, quantum, g, round, |b|, k);
    }
  }

  /** None of the processes below `i` still has a slice due in round `round`. */
  ghost predicate NoneDue(b: seq<int>, quantum: int, round: nat, i: nat)
    requires quantum > 0 && i <= |b|
  {
    forall k :: 0 <= k < i ==> Visits(b[k], quantum) <= round
  }

  /** Looking at one more process: nobody is due so far exactly when nobody
      was due before it and it is not due either. */
  lemma NoneDueStep(b: seq<int>, quantum: int, round: nat, i: nat, next: nat)
    requires quantum > 0 && i < |b| && next == i + 1
    ensures NoneDue(b, quantum, round, next) <==>
            NoneDue(b, quantum, round, i) && Visits(b[i], quantum) <= round
  {
  }

  /** A round in which nobody is due adds nothing to the timeline. */
  lemma EmptyRound(b: seq<int>, quantum: int, round: nat, j: nat)
    requires quantum > 0 && j <= |b|
    requires NoneDue(b, quantum, round, j)
    ensures RoundPrefix(b, quantum, round, j) == []
  {
  }

  /** Rounds past the largest visit count are empty, so the timeline stops
      growing once every process has had all its slices. */
  lemma {:induction false} RoundsBeyondMax(b: seq<int>, quantum: int, r: nat)
    requires quantum > 0 && MaxVisits(b, quantum) <= r
    ensures RoundsBefore(b, quantum, r) == Gantt(b, quantum)
  {
    if r > MaxVisits(b, quantum) {
      RoundsBeyondMax(b, quantum, r - 1);
      assert NoneDue(b, quantum, r - 1, |b|);
      EmptyRound(b, quantum, r - 1, |b|);
      assert RoundsBefore(b, quantum, r) == RoundsBefore(b, quantum, r - 1) + [];
    }
  }

  /** A round count that bounds every visit count bounds the largest one. */
  lemma MaxVisitsAtMost(b: seq<int>, quantum: int, r: nat)
    requires quantum > 0
    requires forall k :: 0 <= k < |b| ==> Visits(b[k], quantum) <= r
    ensures MaxVisits(b, quantum) <= r
  {
    var m := MaxVisits(b, quantum);
    if m > 0 {
      var k :| 0 <= k < |b| && Visits(b[k], quantum) == m;
    }
  }

  /** A process after every slice it is owed: no work left, and if it ran, its
      waiting time is its completion time less its burst, and not negative. */
  lemma FinishProcess(b: seq<int>, quantum: int, rem: seq<int>, w0: seq<int>, w: seq<int>,
                      g: seq<nat>, time: int, k: nat)
    requires Sizes(b, quantum, rem, w0, w, g) && k < |b|
    requires ProcessState(b, quantum, rem, w0, w, g, time, k)
    requires Count(g, k) == Visits(b[k], quantum)
    ensures rem[k] <= 0
    ensures w[k] == if b[k] > 0 then Completion(b, quantum, g, k) - b[k] else w0[k]
    ensures b[k] > 0 ==> w[k] >= 0
  {
    if b[k] > 0 {
      RemainingPositiveIff(b[k], quantum, Count(g, k));
    }
  }

  /** Once a round has passed in which nobody was due, every process has
      received all of its burst: the timeline is the whole Round Robin
      timeline, the clock is the total work, and each process that ran has
      waited for its completion time less its burst. */
  lemma Finish(b: seq<int>, quantum: int, rem: seq<int>, w0: seq<int>, w: seq<int>,
               g: seq<nat>, time: int, round: nat)
    requires MidRound(b, quantum, rem, w0, w, g, time, round, 0)
    requires round > 0 && NoneDue(b, quantum, round - 1, |b|)
    ensures g == Gantt(b, quantum)
    ensures time == Elapsed(b, quantum, g) == TotalWork(b)
    ensures forall k :: 0 <= k < |b| ==>
              w[k] == if b[k] > 0 then Completion(b, quantum, g, k) - b[k] else w0[k]
    ensures forall k :: 0 <= k < |b| && b[k] > 0 ==> w[k] >= 0
  {
    assert g == RoundsBefore(b, quantum, round) + [];
    MaxVisitsAtMost(b, quantum, round);
    RoundsBeyondMax(b, quantum, round);
    forall k | 0 <= k < |b|
      ensures rem[k] <= 0
      ensures w[k] == if b[k] > 0 then Completion(b, quantum, g, k) - b[k] else w0[k]
      ensures b[k] > 0 ==> w[k] >= 0
    {
      assert Counted(b, quantum, g, round, 0, k);
      assert ProcessState(b, quantum, rem, w0, w, g, time, k);
      FinishProcess(b, quantum, rem, w0, w, g, time, k);
    }
    TotalWorkNone(rem);
  }
}
