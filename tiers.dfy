/**
 * Threshold tables: an ordered list of (lower bound, value) pairs, highest
 * bound first, read the way an `if (x >= t1) … else if (x >= t2) …` chain
 * reads them.
 */
module Tiers {
  /** Bounds strictly decrease along the table. */
  predicate Descending<T>(tiers: seq<(int, T)>) {
    forall i, j :: 0 <= i < j < |tiers| ==> tiers[i].0 > tiers[j].0
  }

  /** Tier `i` is the first one, in table order, whose bound `x` reaches. */
  predicate InBracket<T>(tiers: seq<(int, T)>, i: int, x: int)
    requires 0 <= i < |tiers|
  {
    tiers[i].0 <= x && forall j :: 0 <= j < i ==> x < tiers[j].0
  }

  /** The value of the first tier whose bound `x` reaches, else `fallback`. */
  function HighestTier<T>(tiers: seq<(int, T)>, x: int, fallback: T): (r: T)
    ensures (forall i :: 0 <= i < |tiers| ==> x < tiers[i].0) ==> r == fallback
    ensures forall i :: 0 <= i < |tiers| && InBracket(tiers, i, x) ==> r == tiers[i].1
  {
    if tiers == [] then fallback
    else if tiers[0].0 <= x then tiers[0].1
    else
      var r := HighestTier(tiers[1..], x, fallback);
      assert forall i :: 1 <= i < |tiers| ==> tiers[i] == tiers[1..][i - 1];
      assert forall i :: 1 <= i < |tiers| && InBracket(tiers, i, x) ==> InBracket(tiers[1..], i - 1, x);
      r
  }

  /**
   * On a descending table the chosen tier has the largest bound not above
   * `x`.
   */
  lemma HighestTierIsMaximal<T>(tiers: seq<(int, T)>, x: int, fallback: T, k: nat)
    requires Descending(tiers)
    requires k < |tiers| && tiers[k].0 <= x
    ensures exists i :: 0 <= i <= k && tiers[i].0 <= x &&
                        HighestTier(tiers, x, fallback) == tiers[i].1 &&
                        forall j :: 0 <= j < |tiers| && tiers[j].0 <= x ==> tiers[j].0 <= tiers[i].0
  {
    var i := 0;
    while tiers[i].0 > x
      invariant 0 <= i <= k
      invariant forall j :: 0 <= j < i ==> x < tiers[j].0
      decreases k - i
    {
      i := i + 1;
    }
    assert InBracket(tiers, i, x);
  }
}
