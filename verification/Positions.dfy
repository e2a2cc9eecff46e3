/** The positions in a range that satisfy a test, in order. */
module Positions {

  function PositionsFrom(lo: nat, n: nat, keep: nat -> bool): seq<nat>
    requires lo <= n
    decreases n - lo
  {
    if lo == n then [] else if keep(lo) then [lo] + PositionsFrom(lo + 1, n, keep) else PositionsFrom(lo + 1, n, keep)
  }

  ghost predicate Increasing(idx: seq<nat>) {
    forall a, b :: 0 <= a < b < |idx| ==> idx[a] < idx[b]
  }

  lemma {:induction false} IncreasingAtLeast(idx: seq<nat>, k: nat)
    requires Increasing(idx) && k < |idx|
    ensures k <= idx[k]
  {
    if k > 0 {
      IncreasingAtLeast(idx, k - 1);
    }
  }

  /** `idx` lists, in increasing order, exactly the positions from `lo` to `n` that pass. */
  ghost predicate Lists(idx: seq<nat>, lo: nat, n: nat, keep: nat -> bool) {
    && Increasing(idx)
    && (forall a :: 0 <= a < |idx| ==> lo <= idx[a] < n && keep(idx[a]))
    && (forall i :: lo <= i < n && keep(i) ==> i in idx)
  }

  lemma ListsNext(idx: seq<nat>, lo: nat, n: nat, keep: nat -> bool)
    requires lo < n && Lists(idx, lo + 1, n, keep)
    ensures Lists(if keep(lo) then [lo] + idx else idx, lo, n, keep)
  {
    if keep(lo) {
      var more := [lo] + idx;
      forall i | lo <= i < n && keep(i)
        ensures i in more
      {
        if i == lo {
          assert more[0] == lo;
        } else {
          assert i in idx;
        }
      }
    }
  }

  lemma {:induction false} PositionsExact(lo: nat, n: nat, keep: nat -> bool)
    requires lo <= n
    ensures Lists(PositionsFrom(lo, n, keep), lo, n, keep)
    decreases n - lo
  {
    if lo < n {
      PositionsExact(lo + 1, n, keep);
      ListsNext(PositionsFrom(lo + 1, n, keep), lo, n, keep);
    }
  }

  /** Exactly one position is listed exactly if exactly one passes. */
  lemma OneListedIff(idx: seq<nat>, lo: nat, n: nat, keep: nat -> bool)
    requires Lists(idx, lo, n, keep)
    ensures |idx| == 1 <==> exists i :: lo <= i < n && keep(i) && forall j :: lo <= j < n && keep(j) ==> j == i
  {
    if |idx| == 1 {
      forall j | lo <= j < n && keep(j)
        ensures j == idx[0]
      {
        assert j in idx;
      }
    } else if |idx| > 1 {
      assert idx[0] < idx[1] && keep(idx[0]) && keep(idx[1]);
    }
  }
}
