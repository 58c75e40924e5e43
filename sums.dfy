/** Integer sums over sequences: the running totals that the schedulers keep
    (waiting times as prefix sums, the Round Robin clock, the report totals). */
module Sums {

  /** The sum of `s`, added in index order. */
  function Sum(s: seq<int>): int
  {
    if s == [] then 0 else Sum(s[..|s| - 1]) + s[|s| - 1]
  }

  /** Extending a prefix by one element adds that element to its sum. */
  lemma SumPrefixStep(s: seq<int>, i: nat)
    requires i < |s|
    ensures Sum(s[..i + 1]) == Sum(s[..i]) + s[i]
  {
    assert s[..i + 1][..i] == s[..i];
  }

  /** The sum of a pointwise sum is the sum of the sums. */
  lemma {:induction false} SumPointwise(a: seq<int>, b: seq<int>, c: seq<int>)
    requires |a| == |b| == |c|
    requires forall i :: 0 <= i < |c| ==> c[i] == a[i] + b[i]
    ensures Sum(c) == Sum(a) + Sum(b)
  {
    if c != [] {
      var m := |c| - 1;
      SumPointwise(a[..m], b[..m], c[..m]);
    }
  }

  /** The CPU time a burst asks of the Round Robin scheduler: a process whose
      burst is not positive is never scheduled. */
  function Work(x: int): nat
  {
    if x > 0 then x else 0
  }

  /** The total CPU time still owed to the processes whose remaining bursts are `s`. */
  function TotalWork(s: seq<int>): nat
  {
    if s == [] then 0 else TotalWork(s[..|s| - 1]) + Work(s[|s| - 1])
  }

  /** Changing one remaining burst changes the total owed by exactly the change in
      that entry's work. */
  lemma {:induction false} TotalWorkUpdate(s: seq<int>, i: nat, v: int)
    requires i < |s|
    ensures TotalWork(s[i := v]) == TotalWork(s) - Work(s[i]) + Work(v)
  {
    var m := |s| - 1;
    if i == m {
      assert s[i := v][..m] == s[..m];
    } else {
      assert s[i := v][..m] == s[..m][i := v];
      TotalWorkUpdate(s[..m], i, v);
    }
  }

  /** Nothing is owed once no remaining burst is positive. */
  lemma {:induction false} TotalWorkNone(s: seq<int>)
    requires forall i :: 0 <= i < |s| ==> s[i] <= 0
    ensures TotalWork(s) == 0
  {
    if s != [] {
      TotalWorkNone(s[..|s| - 1]);
    }
  }

  /** For non-negative bursts the work owed is their plain sum. */
  lemma {:induction false} TotalWorkOfNonNegative(s: seq<int>)
    requires forall i :: 0 <= i < |s| ==> s[i] >= 0
    ensures TotalWork(s) == Sum(s)
  {
    if s != [] {
      TotalWorkOfNonNegative(s[..|s| - 1]);
    }
  }

  /** The process identities 0, 1, ..., n - 1 in order. */
  function Range(n: nat): (r: seq<nat>)
    ensures |r| == n
    ensures forall i :: 0 <= i < n ==> r[i] == i
  {
    if n == 0 then [] else Range(n - 1) + [n - 1]
  }

  /** Every identity below `n` occurs exactly once in `Range(n)`, and no other value occurs. */
  lemma {:induction false} RangeOccursOnce(n: nat, v: int)
    ensures multiset(Range(n))[v] == if 0 <= v < n then 1 else 0
  {
    if n > 0 {
      RangeOccursOnce(n - 1, v);
      var earlier: seq<nat> := Range(n - 1);
      assert multiset(earlier + [n - 1])[v] == multiset(earlier)[v] + multiset([n - 1])[v];
    }
  }
}
