/**
 * The 2-combinations of the indices 0..n-1 that the constraint generator uses
 * to split an all-different group into binary constraints.
 */
module Combinations {
  import opened Wrappers
  import opened Collections

  /** A pair of indices into a group. */
  type IndexPair = (nat, nat)

  /** Strict lexicographic (tuple) order on pairs of integers: index pairs here, grid cells later. */
  predicate Before(p: (int, int), q: (int, int)) {
    p.0 < q.0 || (p.0 == q.0 && p.1 < q.1)
  }

  /** The pairs `(i, j)` with `lo <= i < j < n`, first by `i`, then by `j`. */
  function PairsFrom(lo: nat, n: nat): seq<IndexPair>
    decreases n - lo
  {
    if lo >= n then []
    else seq(n - 1 - lo, t requires 0 <= t => (lo, lo + 1 + t)) + PairsFrom(lo + 1, n)
  }

  /** How many pairs there are from `lo` on: (n - lo) choose 2. */
  lemma {:induction false} PairsFromLength(lo: nat, n: nat)
    requires lo <= n
    ensures 2 * |PairsFrom(lo, n)| == (n - lo) * (n - lo - 1)
    decreases n - lo
  {
    if lo < n {
      PairsFromLength(lo + 1, n);
      var m := n - lo;
      assert |PairsFrom(lo, n)| == (m - 1) + |PairsFrom(lo + 1, n)|;
      assert m * (m - 1) == 2 * (m - 1) + (m - 1) * (m - 2);
    }
  }

  /** Exactly the pairs `(i, j)` with `lo <= i < j < n` are listed. */
  lemma {:induction false} PairsFromMembers(lo: nat, n: nat)
    ensures forall p :: p in PairsFrom(lo, n) <==> lo <= p.0 < p.1 < n
    decreases n - lo
  {
    if lo < n {
      var head := seq(n - 1 - lo, t requires 0 <= t => (lo, lo + 1 + t));
      var rest := PairsFrom(lo + 1, n);
      PairsFromMembers(lo + 1, n);
      assert PairsFrom(lo, n) == head + rest;
      forall p: IndexPair | p.0 == lo && lo < p.1 < n ensures p in head {
        assert head[p.1 - lo - 1] == p;
      }
    }
  }

  /** The pairs are listed in strictly increasing lexicographic order. */
  lemma {:induction false} PairsFromIncreasing(lo: nat, n: nat)
    ensures forall s, t :: 0 <= s < t < |PairsFrom(lo, n)| ==> Before(PairsFrom(lo, n)[s], PairsFrom(lo, n)[t])
    decreases n - lo
  {
    if lo < n {
      var head := seq(n - 1 - lo, t requires 0 <= t => (lo, lo + 1 + t));
      var rest := PairsFrom(lo + 1, n);
      var all := PairsFrom(lo, n);
      PairsFromIncreasing(lo + 1, n);
      PairsFromMembers(lo + 1, n);
      assert all == head + rest;
      forall s, t | 0 <= s < t < |all| ensures Before(all[s], all[t]) {
        if t < |head| {
          assert all[s] == head[s] && all[t] == head[t];
        } else if s < |head| {
          assert all[s] == head[s];
          assert all[t] == rest[t - |head|] && rest[t - |head|] in rest;
        } else {
          assert all[s] == rest[s - |head|] && all[t] == rest[t - |head|];
        }
      }
    }
  }

  /** Strictly increasing index pairs contain no pair twice. */
  lemma IncreasingNoDup(s: seq<IndexPair>)
    requires forall i, j :: 0 <= i < j < |s| ==> Before(s[i], s[j])
    ensures NoDup(s)
  {
  }

  /**
   * `combination(n, 2)` transposed: for n >= 2, every index pair `(i, j)` with
   * `i < j < n`, in lexicographic order; for n < 2 the array code raises.
   */
  function Combination(n: nat): (r: Option<seq<IndexPair>>)
    ensures r.Some? <==> n >= 2
    ensures r.Some? ==> |r.value| == n * (n - 1) / 2
    ensures r.Some? ==> forall p :: p in r.value <==> p.0 < p.1 < n
    ensures r.Some? ==> forall s, t :: 0 <= s < t < |r.value| ==> Before(r.value[s], r.value[t])
    ensures r.Some? ==> NoDup(r.value)
  {
    if n < 2 then None
    else
      PairsFromLength(0, n);
      PairsFromMembers(0, n);
      PairsFromIncreasing(0, n);
      IncreasingNoDup(PairsFrom(0, n));
      Some(PairsFrom(0, n))
  }

  /** For groups of nine, 36 pairs (9 choose 2). */
  lemma CombinationOfNine()
    ensures Combination(9).Some? && |Combination(9).value| == 36
  {
  }
}
