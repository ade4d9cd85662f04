/**
 * The circular distance between two factions. Factions sit at integer
 * locations on a ring whose size is the number of factions in the whole,
 * unfiltered catalog; the distance is the shorter way round.
 */
module Distance {
  import opened Catalog

  /** The faction's location is a seat of a ring with `ringSize` seats. */
  predicate OnRing(f: Faction, ringSize: nat)
  {
    0 <= f.location < ringSize
  }

  /**
   * `factionDistance`: the clockwise gap between the larger and the smaller
   * location, or the gap the other way round, whichever is shorter.
   * The result never exceeds half the ring and is zero exactly when the two
   * factions share a location.
   */
  function FactionDistance(a: Faction, b: Faction, ringSize: nat): (r: int)
    requires OnRing(a, ringSize) && OnRing(b, ringSize)
    ensures 0 <= r <= ringSize / 2
    ensures r == 0 <==> a.location == b.location
  {
    var bigger := if a.location >= b.location then a.location else b.location;
    var smaller := if a.location <= b.location then a.location else b.location;
    var clockwise := bigger - smaller;
    var counterClockwise := ringSize - clockwise;
    if clockwise <= counterClockwise then clockwise else counterClockwise
  }

  /** The distance does not depend on which faction is named first. */
  lemma DistanceSymmetric(a: Faction, b: Faction, ringSize: nat)
    requires OnRing(a, ringSize) && OnRing(b, ringSize)
    ensures FactionDistance(a, b, ringSize) == FactionDistance(b, a, ringSize)
  {
  }

  /** Walking `steps` seats one way or the other round the ring leads from `a` to `b`. */
  ghost predicate Reaches(a: Faction, b: Faction, ringSize: nat, steps: nat)
    requires ringSize > 0
  {
    (a.location + steps) % ringSize == b.location || (a.location - steps) % ringSize == b.location
  }

  /** A remainder is determined by any quotient-and-remainder split of the dividend. */
  lemma ModUnique(x: int, n: int, q: int, r: int)
    requires n > 0 && 0 <= r < n && x == q * n + r
    ensures x % n == r
  {
    var q0, r0 := x / n, x % n;
    SmallMultiple(q0 - q, n);
  }

  /** The only multiple of `n` strictly between `-n` and `n` is zero. */
  lemma SmallMultiple(k: int, n: int)
    requires n > 0 && -n < k * n < n
    ensures k == 0
  {
  }

  /** Reduction modulo the ring size of a value less than one turn away from the ring. */
  lemma ModOneTurn(x: int, n: int)
    requires n > 0 && -n <= x < 2 * n
    ensures x % n == if x < 0 then x + n else if x < n then x else x - n
  {
    if x < 0 {
      ModUnique(x, n, -1, x + n);
    } else if x < n {
      ModUnique(x, n, 0, x);
    } else {
      ModUnique(x, n, 1, x - n);
    }
  }

  /**
   * The distance is the length of a shortest walk round the ring: walking that
   * many seats one way or the other leads from `a` to `b`, and no shorter walk does.
   */
  lemma DistanceIsShortestWalk(a: Faction, b: Faction, ringSize: nat)
    requires OnRing(a, ringSize) && OnRing(b, ringSize)
    ensures Reaches(a, b, ringSize, FactionDistance(a, b, ringSize) as nat)
    ensures forall k: nat :: k < FactionDistance(a, b, ringSize) ==> !Reaches(a, b, ringSize, k)
  {
    var d := FactionDistance(a, b, ringSize);
    ModOneTurn(a.location + d, ringSize);
    ModOneTurn(a.location - d, ringSize);
    forall k: nat | k < d
      ensures !Reaches(a, b, ringSize, k)
    {
      ModOneTurn(a.location + k, ringSize);
      ModOneTurn(a.location - k, ringSize);
    }
  }

  /** Worked values on a ring of ten: locations 2 and 8 are 4 apart, 0 and 9 are neighbours. */
  lemma DistanceExamples(f0: Faction, f2: Faction, f8: Faction, f9: Faction)
    requires f0.location == 0 && f2.location == 2 && f8.location == 8 && f9.location == 9
    ensures FactionDistance(f2, f8, 10) == 4
    ensures FactionDistance(f0, f9, 10) == 1
  {
  }
}
