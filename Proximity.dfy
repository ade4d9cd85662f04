/**
 * The proximity score of a faction within a drawn setup: the root mean square
 * of its distances to the other factions of the setup. The setup includes the
 * faction itself, whose zero distance is summed too, and the mean divides by
 * one less than the number of entries. The model stops at the exact integer
 * parts, the sum of squares and the divisor, before the floating-point
 * division and square root.
 */
module Proximity {
  import opened Catalog
  import opened Distance

  /** Every faction of the setup sits on the ring. */
  predicate AllOnRing(selection: seq<Selection>, ringSize: nat)
  {
    forall i :: 0 <= i < |selection| ==> OnRing(selection[i].faction, ringSize)
  }

  function Square(x: int): nat
  {
    x * x
  }

  /** A larger distance has a larger square. */
  lemma SquareMonotone(x: int, y: int)
    requires 0 <= x <= y
    ensures Square(x) <= Square(y)
  {
    assert x * x <= x * y <= y * y;
  }

  lemma MulSucc(a: nat, b: nat)
    ensures (a + 1) * b == a * b + b
  {
  }

  /**
   * The `map`/`map`/`reduce` of `proximityScore`: the sum of the squared
   * distances from `target` to every entry of `others`. Each term is at most
   * the square of half the ring.
   */
  function SumOfSquares(target: Faction, others: seq<Selection>, ringSize: nat): (r: nat)
    requires OnRing(target, ringSize) && AllOnRing(others, ringSize)
    ensures r <= |others| * Square(ringSize / 2)
  {
    if others == [] then 0
    else
      var d := FactionDistance(target, others[0].faction, ringSize);
      SquareMonotone(d, ringSize / 2);
      MulSucc(|others| - 1, Square(ringSize / 2));
      Square(d) + SumOfSquares(target, others[1..], ringSize)
  }

  /**
   * The entry of the target itself adds nothing: summing over the setup equals
   * summing over the setup with that entry taken out.
   */
  lemma {:induction false} SumOfSquaresOmitsSelf(target: Faction, others: seq<Selection>, k: nat, ringSize: nat)
    requires OnRing(target, ringSize) && AllOnRing(others, ringSize)
    requires k < |others| && others[k].faction.location == target.location
    ensures AllOnRing(others[..k] + others[k + 1..], ringSize)
    ensures SumOfSquares(target, others, ringSize) == SumOfSquares(target, others[..k] + others[k + 1..], ringSize)
  {
    if k == 0 {
      assert others[..0] + others[1..] == others[1..];
    } else {
      var rest := others[1..];
      assert others[..k] + others[k + 1..] == [others[0]] + (rest[..k - 1] + rest[k..]);
      SumOfSquaresOmitsSelf(target, rest, k - 1, ringSize);
    }
  }

  /** The target appears as the faction of some entry of the setup. */
  predicate InSetup(target: Faction, others: seq<Selection>)
  {
    exists k :: 0 <= k < |others| && others[k].faction == target
  }

  /** The exact parts of a proximity score: the score is sqrt(sumOfSquares / divisor). */
  datatype MeanSquare = MeanSquare(sumOfSquares: nat, divisor: nat)

  /**
   * The score these parts give is at most half the ring, the largest distance
   * there is: sumOfSquares / divisor <= (ringSize / 2)^2, stated without division.
   */
  predicate WithinHalfRing(m: MeanSquare, ringSize: nat)
  {
    m.sumOfSquares <= m.divisor * Square(ringSize / 2)
  }

  /**
   * `proximityScore` before its division and square root. The divisor is one
   * less than the number of entries, so a setup of two or more entries never
   * divides by zero; when the target belongs to the setup the mean square is at
   * most the square of half the ring, so the score never exceeds the largest
   * distance on the ring.
   */
  function ProximityMeanSquare(target: Faction, others: seq<Selection>, ringSize: nat): (m: MeanSquare)
    requires |others| >= 2
    requires OnRing(target, ringSize) && AllOnRing(others, ringSize)
    ensures m.divisor >= 1 && m.divisor + 1 == |others|
    ensures InSetup(target, others) ==> WithinHalfRing(m, ringSize)
  {
    var m := MeanSquare(SumOfSquares(target, others, ringSize), |others| - 1);
    if InSetup(target, others) then
      var k :| 0 <= k < |others| && others[k].faction == target;
      SumOfSquaresOmitsSelf(target, others, k, ringSize);
      m
    else m
  }

  datatype Option<T> = None | Some(value: T)

  /**
   * The scores `populateBoards` attaches: when proximity is switched on, one per
   * entry, each scoring that entry's faction against the whole setup; when it
   * is off, none. A setup with entries always has at least two (the solo player
   * has the automa), so every divisor is positive and every score is bounded
   * by half the ring.
   */
  function SelectionScores(selection: seq<Selection>, ringSize: nat, withProximity: bool): (r: seq<Option<MeanSquare>>)
    requires |selection| != 1 && AllOnRing(selection, ringSize)
    ensures |r| == |selection|
    ensures forall i :: 0 <= i < |r| ==> (r[i].Some? <==> withProximity)
    ensures forall i :: 0 <= i < |r| && r[i].Some? ==>
      r[i].value.divisor + 1 == |selection| && WithinHalfRing(r[i].value, ringSize)
  {
    seq(|selection|, i requires 0 <= i < |selection| =>
      if withProximity then Some(ProximityMeanSquare(selection[i].faction, selection, ringSize)) else None)
  }

  /**
   * Worked value: factions at 1, 3 and 6 on a ring of eight. The faction at 1
   * has squared distances 0, 4 and 9, so its score is sqrt(13 / 2).
   */
  lemma ProximityExample(a: Faction, b: Faction, c: Faction, boards: seq<PlayerBoard>)
    requires a.location == 1 && b.location == 3 && c.location == 6 && |boards| == 3
    ensures ProximityMeanSquare(a, [Human(a, boards[0]), Human(b, boards[1]), Human(c, boards[2])], 8)
      == MeanSquare(13, 2)
  {
    var s := [Human(a, boards[0]), Human(b, boards[1]), Human(c, boards[2])];
    assert FactionDistance(a, a, 8) == 0;
    assert FactionDistance(a, b, 8) == 2;
    assert FactionDistance(a, c, 8) == 3;
    assert s[1..][1..][1..] == [];
    assert SumOfSquares(a, s[1..][1..], 8) == 9;
    assert SumOfSquares(a, s[1..], 8) == 13;
  }
}
