/**
 * Drawing without replacement from a pool: each draw takes the entry at a
 * chosen index and splices it out, so the next draw sees a pool one shorter.
 * The random index of each draw is supplied by the caller.
 */
module Draws {
  import opened Catalog

  /** The k-th draw (from 0) is an index into a pool that has lost k entries already. */
  predicate DrawsInRange(poolSize: nat, draws: seq<nat>)
  {
    forall k :: 0 <= k < |draws| ==> draws[k] + k < poolSize
  }

  /** `splice(i, 1)`: the pool without its entry at index `i`, the rest in order. */
  function RemoveAt<T>(s: seq<T>, i: nat): (r: seq<T>)
    requires i < |s|
    ensures |r| == |s| - 1
    ensures multiset(r) + multiset{s[i]} == multiset(s)
  {
    assert s == s[..i] + [s[i]] + s[i + 1..];
    s[..i] + s[i + 1..]
  }

  /** What is left of `pool` after the given draws. */
  function Remaining<T>(pool: seq<T>, draws: seq<nat>): (r: seq<T>)
    requires DrawsInRange(|pool|, draws)
    ensures |r| == |pool| - |draws|
    decreases |draws|
  {
    if draws == [] then pool
    else
      var earlier := draws[..|draws| - 1];
      RemoveAt(Remaining(pool, earlier), draws[|draws| - 1])
  }

  /** The entries the given draws take from `pool`, in the order they are drawn. */
  function Picked<T>(pool: seq<T>, draws: seq<nat>): (r: seq<T>)
    requires DrawsInRange(|pool|, draws)
    ensures |r| == |draws|
    decreases |draws|
  {
    if draws == [] then []
    else
      var earlier := draws[..|draws| - 1];
      Picked(pool, earlier) + [Remaining(pool, earlier)[draws[|draws| - 1]]]
  }

  /** One more draw takes the entry at its index in what is left, and splices it out. */
  lemma DrawStep<T>(pool: seq<T>, draws: seq<nat>, i: nat)
    requires DrawsInRange(|pool|, draws) && i < |draws|
    ensures DrawsInRange(|pool|, draws[..i]) && DrawsInRange(|pool|, draws[..i + 1])
    ensures draws[i] < |Remaining(pool, draws[..i])|
    ensures Remaining(pool, draws[..i + 1]) == RemoveAt(Remaining(pool, draws[..i]), draws[i])
    ensures Picked(pool, draws[..i + 1]) == Picked(pool, draws[..i]) + [Remaining(pool, draws[..i])[draws[i]]]
  {
    assert draws[..i + 1][..i] == draws[..i];
  }

  /**
   * Nothing is created or lost by drawing: the entries taken and the entries
   * left are, together, exactly the pool.
   */
  lemma {:induction false} PickedAndRemaining<T>(pool: seq<T>, draws: seq<nat>)
    requires DrawsInRange(|pool|, draws)
    ensures multiset(Picked(pool, draws)) + multiset(Remaining(pool, draws)) == multiset(pool)
  {
    if draws != [] {
      var earlier := draws[..|draws| - 1];
      var j := draws[|draws| - 1];
      PickedAndRemaining(pool, earlier);
      var rest := Remaining(pool, earlier);
      assert multiset(RemoveAt(rest, j)) + multiset{rest[j]} == multiset(rest);
    }
  }

  /** A sequence has no repeated element exactly when no element occurs more than once in its multiset. */
  lemma {:induction false} DistinctIffSingleOccurrences<T>(s: seq<T>)
    ensures Distinct(s) <==> forall x :: multiset(s)[x] <= 1
  {
    if s != [] {
      var t := s[1..];
      DistinctIffSingleOccurrences(t);
      assert s == [s[0]] + t;
      assert multiset(s) == multiset{s[0]} + multiset(t);
      assert Distinct(s) <==> Distinct(t) && s[0] !in t by {
        if Distinct(s) {
          forall i, j | 0 <= i < j < |t| ensures t[i] != t[j] {
            assert t[i] == s[i + 1] && t[j] == s[j + 1];
          }
          forall k | 0 <= k < |t| ensures t[k] != s[0] {
            assert t[k] == s[k + 1];
          }
        }
        if Distinct(t) && s[0] !in t {
          forall i, j | 0 <= i < j < |s| ensures s[i] != s[j] {
            assert s[j] == t[j - 1];
            if i > 0 {
              assert s[i] == t[i - 1];
            } else {
              assert s[j] in t;
            }
          }
        }
      }
      if forall x :: multiset(s)[x] <= 1 {
        assert multiset(s)[s[0]] == 1 + multiset(t)[s[0]];
        forall x ensures multiset(t)[x] <= 1 {
          assert multiset(s)[x] >= multiset(t)[x];
        }
      }
    }
  }

  /** Rearranging a sequence without repeated elements does not repeat any. */
  lemma DistinctRearranged<T>(a: seq<T>, b: seq<T>)
    requires multiset(a) == multiset(b) && Distinct(a)
    ensures Distinct(b)
  {
    DistinctIffSingleOccurrences(a);
    DistinctIffSingleOccurrences(b);
  }

  /** The two parts of a concatenation without repeated elements repeat nothing, within or across. */
  lemma DistinctParts<T>(a: seq<T>, b: seq<T>)
    requires Distinct(a + b)
    ensures Distinct(a)
    ensures forall i, j :: 0 <= i < |a| && 0 <= j < |b| ==> a[i] != b[j]
  {
    forall i, j | 0 <= i < j < |a| ensures a[i] != a[j] {
      assert a[i] == (a + b)[i] && a[j] == (a + b)[j];
    }
    forall i, j | 0 <= i < |a| && 0 <= j < |b| ensures a[i] != b[j] {
      assert a[i] == (a + b)[i] && b[j] == (a + b)[|a| + j];
    }
  }

  /**
   * Drawing from a pool without repeated entries never takes an entry twice,
   * and never takes an entry that is still left in the pool.
   */
  lemma PickedDistinct<T>(pool: seq<T>, draws: seq<nat>)
    requires DrawsInRange(|pool|, draws)
    requires Distinct(pool)
    ensures Distinct(Picked(pool, draws))
    ensures forall i, j :: 0 <= i < |draws| && 0 <= j < |pool| - |draws| ==>
      Picked(pool, draws)[i] != Remaining(pool, draws)[j]
  {
    var p, r := Picked(pool, draws), Remaining(pool, draws);
    PickedAndRemaining(pool, draws);
    assert multiset(pool) == multiset(p + r);
    DistinctRearranged(pool, p + r);
    DistinctParts(p, r);
  }

  /** Every entry taken is an entry of the pool. */
  lemma PickedFromPool<T>(pool: seq<T>, draws: seq<nat>)
    requires DrawsInRange(|pool|, draws)
    ensures forall x :: x in Picked(pool, draws) ==> x in pool
  {
    PickedAndRemaining(pool, draws);
    forall x | x in Picked(pool, draws) ensures x in pool {
      assert x in multiset(Picked(pool, draws));
      assert x in multiset(pool);
    }
  }

  /** The positions `0 .. n - 1` of a pool of `n` entries. */
  function Positions(n: nat): (r: seq<int>)
    ensures |r| == n && Distinct(r)
    ensures forall k :: 0 <= k < n ==> r[k] == k
  {
    seq(n, i => i)
  }

  /** The entries of `pool` at the given positions, in their order. */
  function At<T>(pool: seq<T>, positions: seq<int>): (r: seq<T>)
    requires forall k :: 0 <= k < |positions| ==> 0 <= positions[k] < |pool|
    ensures |r| == |positions|
    ensures forall k :: 0 <= k < |r| ==> r[k] == pool[positions[k]]
  {
    seq(|positions|, k requires 0 <= k < |positions| => pool[positions[k]])
  }

  /** Drawing from the positions of a pool takes and leaves only positions of that pool. */
  lemma PositionsInRange(n: nat, draws: seq<nat>)
    requires DrawsInRange(n, draws)
    ensures forall k :: 0 <= k < |draws| ==> 0 <= Picked(Positions(n), draws)[k] < n
    ensures forall k :: 0 <= k < n - |draws| ==> 0 <= Remaining(Positions(n), draws)[k] < n
  {
    var positions := Positions(n);
    var p, r := Picked(positions, draws), Remaining(positions, draws);
    PickedAndRemaining(positions, draws);
    forall k | 0 <= k < |p| ensures 0 <= p[k] < n {
      assert p[k] in multiset(p);
      assert p[k] in multiset(positions);
    }
    forall k | 0 <= k < |r| ensures 0 <= r[k] < n {
      assert r[k] in multiset(r);
      assert r[k] in multiset(positions);
    }
  }

  /** Splicing out an entry commutes with looking entries up by position. */
  lemma RemoveAtPositions<T>(pool: seq<T>, positions: seq<int>, j: nat)
    requires forall k :: 0 <= k < |positions| ==> 0 <= positions[k] < |pool|
    requires j < |positions|
    ensures forall k :: 0 <= k < |positions| - 1 ==> 0 <= RemoveAt(positions, j)[k] < |pool|
    ensures RemoveAt(At(pool, positions), j) == At(pool, RemoveAt(positions, j))
  {
    var a, b := RemoveAt(At(pool, positions), j), RemoveAt(positions, j);
    forall k | 0 <= k < |b| ensures 0 <= b[k] < |pool| && a[k] == pool[b[k]] {
      if k < j {
        assert b[k] == positions[k];
      } else {
        assert b[k] == positions[k + 1];
      }
    }
  }

  /**
   * Drawing is a choice of positions: the same draws made on the list of
   * positions take and leave exactly the positions of the entries the draws
   * take from and leave in `pool`.
   */
  lemma {:induction false} DrawsArePositions<T>(pool: seq<T>, draws: seq<nat>)
    requires DrawsInRange(|pool|, draws)
    ensures forall k :: 0 <= k < |draws| ==> 0 <= Picked(Positions(|pool|), draws)[k] < |pool|
    ensures forall k :: 0 <= k < |pool| - |draws| ==> 0 <= Remaining(Positions(|pool|), draws)[k] < |pool|
    ensures Picked(pool, draws) == At(pool, Picked(Positions(|pool|), draws))
    ensures Remaining(pool, draws) == At(pool, Remaining(Positions(|pool|), draws))
  {
    var positions := Positions(|pool|);
    PositionsInRange(|pool|, draws);
    if draws == [] {
      assert At(pool, positions) == pool;
    } else {
      var earlier := draws[..|draws| - 1];
      var j := draws[|draws| - 1];
      DrawsArePositions(pool, earlier);
      var left, taken := Remaining(positions, earlier), Picked(positions, earlier);
      RemoveAtPositions(pool, left, j);
      assert At(pool, taken + [left[j]]) == At(pool, taken) + [pool[left[j]]];
    }
  }

  /**
   * No position of the pool is drawn twice, whatever the pool holds: the
   * positions the draws take are pairwise different, even when the entries at
   * them are equal.
   */
  lemma PositionsDrawnOnce(n: nat, draws: seq<nat>)
    requires DrawsInRange(n, draws)
    ensures Distinct(Picked(Positions(n), draws))
  {
    PickedDistinct(Positions(n), draws);
  }
}
