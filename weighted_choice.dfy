/** Weighted selection over a table of weights. The source scales one
    uniform draw `u` in [0, 1) by the actual total weight and walks the table;
    here the draw is a parameter, so each walk is a deterministic method. */
module WeightedChoice {
  import opened Wrappers

  /** Total weight, folded from the left as `reduce((sum, w) => sum + w, 0)`. */
  function Sum(ws: seq<real>): real
  {
    if ws == [] then 0.0 else Sum(ws[..|ws| - 1]) + ws[|ws| - 1]
  }

  /** Cumulative weight of the first `k` entries. */
  function Prefix(ws: seq<real>, k: nat): real
    requires k <= |ws|
  {
    Sum(ws[..k])
  }

  predicate NonNegative(ws: seq<real>)
  {
    forall i :: 0 <= i < |ws| ==> ws[i] >= 0.0
  }

  lemma PrefixStep(ws: seq<real>, k: nat)
    requires k < |ws|
    ensures Prefix(ws, k + 1) == Prefix(ws, k) + ws[k]
  {
    assert ws[..k + 1][..k] == ws[..k];
  }

  lemma PrefixAll(ws: seq<real>)
    ensures Prefix(ws, |ws|) == Sum(ws)
  {
    assert ws[..|ws|] == ws;
  }

  /** With non-negative weights the cumulative weight never decreases. */
  lemma {:induction false} PrefixMonotone(ws: seq<real>, j: nat, k: nat)
    requires NonNegative(ws) && j <= k <= |ws|
    ensures Prefix(ws, j) <= Prefix(ws, k)
    decreases k - j
  {
    if j < k {
      PrefixStep(ws, k - 1);
      PrefixMonotone(ws, j, k - 1);
    }
  }

  // ---------------------------------------------------------------------
  // The strict rule of the slot machines: the first entry whose cumulative
  // weight strictly exceeds the draw.

  predicate FirstAbove(ws: seq<real>, r: real, i: nat)
  {
    i < |ws| && r < Prefix(ws, i + 1) && forall j :: 1 <= j <= i ==> Prefix(ws, j) <= r
  }

  predicate NoneAbove(ws: seq<real>, r: real)
  {
    forall j :: 1 <= j <= |ws| ==> Prefix(ws, j) <= r
  }

  /** The walk of `weightedRandom`: take entry i when the remaining draw is
      below its weight, otherwise subtract the weight and go on. */
  method SubtractiveWalk(ws: seq<real>, r: real) returns (pick: Option<nat>)
    ensures pick.Some? ==> FirstAbove(ws, r, pick.value)
    ensures pick.None? ==> NoneAbove(ws, r)
  {
    var random := r;
    var i := 0;
    while i < |ws|
      invariant 0 <= i <= |ws|
      invariant random == r - Prefix(ws, i)
      invariant forall j :: 1 <= j <= i ==> Prefix(ws, j) <= r
    {
      PrefixStep(ws, i);
      if random < ws[i] {
        return Some(i);
      }
      random := random - ws[i];
      i := i + 1;
    }
    return None;
  }

  /** At most one entry satisfies the rule, so the walk's result is determined. */
  lemma FirstAboveUnique(ws: seq<real>, r: real, i: nat, k: nat)
    requires FirstAbove(ws, r, i) && FirstAbove(ws, r, k)
    ensures i == k
  {
  }

  /** The cumulative-interval characterisation: for non-negative weights and
      a non-negative draw, entry i is picked exactly when the draw lies in
      [Prefix(i), Prefix(i + 1)). */
  lemma FirstAboveIsInterval(ws: seq<real>, r: real, i: nat)
    requires NonNegative(ws) && 0.0 <= r && i < |ws|
    ensures FirstAbove(ws, r, i) <==> Prefix(ws, i) <= r < Prefix(ws, i + 1)
  {
    if Prefix(ws, i) <= r < Prefix(ws, i + 1) {
      forall j | 1 <= j <= i
        ensures Prefix(ws, j) <= r
      {
        PrefixMonotone(ws, j, i);
      }
    }
  }

  /** A draw in [0, total) always lands on an entry: no fallback is taken. */
  lemma DrawBelowTotalIsCovered(ws: seq<real>, r: real)
    requires 0.0 <= r < Sum(ws)
    ensures |ws| > 0 && !NoneAbove(ws, r)
  {
    PrefixAll(ws);
    assert Prefix(ws, |ws|) > r;
  }

  /** The draw `Math.random() * total`: a uniform `u` in [0, 1) scaled by the
      actual total weight lies in [0, total). */
  function ScaledDraw(u: real, total: real): (r: real)
    ensures 0.0 <= u < 1.0 && total > 0.0 ==> 0.0 <= r < total
    ensures 0.0 <= u < 1.0 && total >= 0.0 ==> 0.0 <= r <= total
  {
    u * total
  }

  // ---------------------------------------------------------------------
  // The covering rule of the lootbox cases: the first entry whose cumulative
  // drop rate reaches the draw (`randomNumber <= currentSum`).

  predicate FirstCovering(ws: seq<real>, r: real, i: nat)
  {
    i < |ws| && r <= Prefix(ws, i + 1) && forall j :: 1 <= j <= i ==> Prefix(ws, j) < r
  }

  predicate NoneCovering(ws: seq<real>, r: real)
  {
    forall j :: 1 <= j <= |ws| ==> Prefix(ws, j) < r
  }

  /** The loop of `/open-case`: accumulate `currentSum` and stop at the first
      entry with `r <= currentSum`. */
  method CumulativeWalk(ws: seq<real>, r: real) returns (pick: Option<nat>)
    ensures pick.Some? ==> FirstCovering(ws, r, pick.value)
    ensures pick.None? ==> NoneCovering(ws, r)
  {
    var currentSum := 0.0;
    var i := 0;
    while i < |ws|
      invariant 0 <= i <= |ws|
      invariant currentSum == Prefix(ws, i)
      invariant forall j :: 1 <= j <= i ==> Prefix(ws, j) < r
    {
      PrefixStep(ws, i);
      currentSum := currentSum + ws[i];
      if r <= currentSum {
        return Some(i);
      }
      i := i + 1;
    }
    return None;
  }

  lemma FirstCoveringUnique(ws: seq<real>, r: real, i: nat, k: nat)
    requires FirstCovering(ws, r, i) && FirstCovering(ws, r, k)
    ensures i == k
  {
  }

  /** For non-negative drop rates, entry i > 0 is picked exactly when the draw
      lies in (Prefix(i), Prefix(i + 1)]; entry 0 when the draw is at most its rate. */
  lemma FirstCoveringIsInterval(ws: seq<real>, r: real, i: nat)
    requires NonNegative(ws) && i < |ws|
    ensures FirstCovering(ws, r, i) <==>
      (if i == 0 then r <= ws[0] else Prefix(ws, i) < r <= Prefix(ws, i + 1))
  {
    PrefixStep(ws, i);
    if i > 0 && Prefix(ws, i) < r <= Prefix(ws, i + 1) {
      forall j | 1 <= j <= i
        ensures Prefix(ws, j) < r
      {
        PrefixMonotone(ws, j, i);
      }
    }
  }

  /** A draw of at most the total drop rate is always covered by a non-empty table. */
  lemma DrawWithinTotalIsCovered(ws: seq<real>, r: real)
    requires |ws| > 0 && r <= Sum(ws)
    ensures !NoneCovering(ws, r)
  {
    PrefixAll(ws);
    assert Prefix(ws, |ws|) >= r;
  }

  /** With non-negative drop rates and a draw in [0, 1) scaled by the actual
      total, the covering walk over a non-empty table always picks an entry. */
  lemma ScaledDrawIsCovered(ws: seq<real>, u: real)
    requires |ws| > 0 && NonNegative(ws) && 0.0 <= u < 1.0
    ensures !NoneCovering(ws, ScaledDraw(u, Sum(ws)))
  {
    PrefixAll(ws);
    PrefixMonotone(ws, 0, |ws|);
    assert Prefix(ws, 0) == 0.0;
    DrawWithinTotalIsCovered(ws, ScaledDraw(u, Sum(ws)));
  }
}
