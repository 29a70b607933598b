/** Nearest-enemy selection for AMain::UpdateCombatTarget: a linear scan over
    the overlapping actors that keeps the first actor whose distance is
    strictly smaller than the best so far. */
module Targeting {
  import opened Actors

  /** What the scan decides. */
  datatype Selection =
    | NoCandidates         // nothing overlaps: the health bar is hidden
    | FirstNotEnemy        // the first overlapping actor is not an enemy: nothing happens
    | Closest(index: nat)  // the chosen enemy's position in the overlap list

  predicate IsEnemy(overlaps: seq<Overlap>, i: int)
  {
    0 <= i < |overlaps| && overlaps[i].actor != null
  }

  /** `i` is the nearest enemy, and no enemy before it is as near: the earliest
      of the nearest enemies. */
  predicate IsClosest(overlaps: seq<Overlap>, i: int)
  {
    && IsEnemy(overlaps, i)
    && (forall j :: 0 <= j < |overlaps| && IsEnemy(overlaps, j) ==> overlaps[i].distance <= overlaps[j].distance)
    && (forall j :: 0 <= j < i && IsEnemy(overlaps, j) ==> overlaps[i].distance < overlaps[j].distance)
  }

  /** At most one index is the earliest nearest enemy. */
  lemma ClosestIsUnique(overlaps: seq<Overlap>, i: int, k: int)
    requires IsClosest(overlaps, i) && IsClosest(overlaps, k)
    ensures i == k
  {
  }

  /** The scan of UpdateCombatTarget. It starts from the first actor when that
      one is an enemy and replaces the choice only on a strictly smaller
      distance, so ties go to the earliest enemy. */
  method SelectClosest(overlaps: seq<Overlap>) returns (s: Selection)
    ensures s == NoCandidates <==> |overlaps| == 0
    ensures s == FirstNotEnemy <==> |overlaps| > 0 && overlaps[0].actor == null
    ensures s.Closest? <==> IsEnemy(overlaps, 0)
    ensures s.Closest? ==> IsClosest(overlaps, s.index)
  {
    if |overlaps| == 0 {
      return NoCandidates;
    }
    if overlaps[0].actor == null {
      return FirstNotEnemy;
    }
    var closest := 0;
    var minDistance := overlaps[0].distance;
    for k := 0 to |overlaps|
      invariant 0 <= closest < |overlaps| && overlaps[closest].actor != null
      invariant minDistance == overlaps[closest].distance
      invariant forall j :: 0 <= j < k && IsEnemy(overlaps, j) ==> minDistance <= overlaps[j].distance
      invariant forall j :: 0 <= j < closest && IsEnemy(overlaps, j) ==> minDistance < overlaps[j].distance
    {
      if overlaps[k].actor != null && overlaps[k].distance < minDistance {
        minDistance := overlaps[k].distance;
        closest := k;
      }
    }
    return Closest(closest);
  }
}
