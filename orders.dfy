/** Execution orders: permutations of the process identities, and the order
    Shortest-Job-First runs them in (ascending burst, ties in input order). */
module Orders {
  import opened Sums

  /** Every entry of `g` names one of the `n` processes. */
  ghost predicate InRange(g: seq<nat>, n: nat)
  {
    forall k :: 0 <= k < |g| ==> g[k] < n
  }

  /** `g` lists each of the processes 0 .. n-1 exactly once. */
  ghost predicate IsPermutation(g: seq<nat>, n: nat)
  {
    multiset(g) == multiset(Range(n))
  }

  /** The bursts of the processes, taken in the order `g`. */
  function InOrder(b: seq<int>, g: seq<nat>): (s: seq<int>)
    requires InRange(g, |b|)
    ensures |s| == |g|
    ensures forall k :: 0 <= k < |g| ==> s[k] == b[g[k]]
  {
    seq(|g|, k requires 0 <= k < |g| => b[g[k]])
  }

  /** The bursts met along `g` never decrease. */
  ghost predicate Ascending(b: seq<int>, g: seq<nat>)
  {
    InRange(g, |b|) &&
    forall j, k :: 0 <= j < k < |g| ==> b[g[j]] <= b[g[k]]
  }

  /** Processes with equal bursts keep their input order along `g`. */
  ghost predicate Stable(b: seq<int>, g: seq<nat>)
  {
    InRange(g, |b|) &&
    forall j, k :: 0 <= j < k < |g| && b[g[j]] == b[g[k]] ==> g[j] < g[k]
  }

  /** The Shortest-Job-First order: all processes, shortest burst first,
      ties broken by input order. */
  ghost predicate IsStableOrder(b: seq<int>, g: seq<nat>)
  {
    IsPermutation(g, |b|) && Ascending(b, g) && Stable(b, g)
  }

  /** A permutation of 0 .. n-1 has length n, stays in range, repeats no
      process and omits none. */
  lemma PermutationFacts(g: seq<nat>, n: nat)
    requires IsPermutation(g, n)
    ensures |g| == n && InRange(g, n)
    ensures forall j, k :: 0 <= j < k < |g| ==> g[j] != g[k]
    ensures forall p: nat :: p < n ==> p in g
  {
    assert |g| == |multiset(g)| == |multiset(Range(n))| == n;
    forall k | 0 <= k < |g|
      ensures g[k] < n
    {
      assert g[k] in multiset(g);
      RangeOccursOnce(n, g[k]);
    }
    forall j, k | 0 <= j < k < |g|
      ensures g[j] != g[k]
    {
      if g[j] == g[k] {
        var v := g[j];
        assert g == g[..k] + g[k..];
        assert v in g[..k];
        assert g[k..][0] == v;
        assert multiset(g)[v] == multiset(g[..k])[v] + multiset(g[k..])[v] >= 2;
        RangeOccursOnce(n, v);
        assert false;
      }
    }
    forall p: nat | p < n
      ensures p in g
    {
      RangeOccursOnce(n, p);
      assert p in multiset(g);
    }
  }

  /** `x` runs before `y` in Shortest-Job-First: shorter burst, or equal burst
      and earlier in the input. */
  ghost predicate Precedes(b: seq<int>, x: nat, y: nat)
    requires x < |b| && y < |b|
  {
    b[x] < b[y] || (b[x] == b[y] && x < y)
  }

  /** `g` is strictly increasing in the Shortest-Job-First precedence. */
  ghost predicate StrictlyIncreasing(b: seq<int>, g: seq<nat>)
  {
    InRange(g, |b|) &&
    forall j, k :: 0 <= j < k < |g| ==> Precedes(b, g[j], g[k])
  }

  /** Two such orders over the same processes start with the same process. */
  lemma SameFirst(b: seq<int>, s: seq<nat>, t: seq<nat>)
    requires StrictlyIncreasing(b, s) && StrictlyIncreasing(b, t)
    requires multiset(s) == multiset(t) && s != [] && t != []
    ensures s[0] == t[0]
  {
    assert s[0] in multiset(t);
    assert t[0] in multiset(s);
    var m :| 0 <= m < |t| && t[m] == s[0];
    var m' :| 0 <= m' < |s| && s[m'] == t[0];
  }

  /** Two orders that are strictly increasing in the same precedence and hold
      the same processes are the same order. */
  lemma {:induction false} StrictlyIncreasingUnique(b: seq<int>, s: seq<nat>, t: seq<nat>)
    requires StrictlyIncreasing(b, s) && StrictlyIncreasing(b, t)
    requires multiset(s) == multiset(t)
    ensures s == t
  {
    assert |s| == |multiset(s)| == |multiset(t)| == |t|;
    if s != [] {
      SameFirst(b, s, t);
      assert s == [s[0]] + s[1..];
      assert t == [t[0]] + t[1..];
      assert multiset(s[1..]) == multiset(s) - multiset{s[0]};
      assert multiset(t[1..]) == multiset(t) - multiset{t[0]};
      StrictlyIncreasingUnique(b, s[1..], t[1..]);
    }
  }

  /** There is only one Shortest-Job-First order for a given set of bursts:
      the result of the stable sort is fully determined by its input. */
  lemma StableOrderUnique(b: seq<int>, g1: seq<nat>, g2: seq<nat>)
    requires IsStableOrder(b, g1) && IsStableOrder(b, g2)
    ensures g1 == g2
  {
    PermutationFacts(g1, |b|);
    PermutationFacts(g2, |b|);
    assert StrictlyIncreasing(b, g1);
    assert StrictlyIncreasing(b, g2);
    StrictlyIncreasingUnique(b, g1, g2);
  }
}
