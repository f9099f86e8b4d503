/** Weighted random selection as a partition of the draws: the draw falls into one server's interval. */
module WeightedDraw {
  import opened SmoothWrr

  predicate Weighted(ps: seq<Peer>) {
    forall i :: 0 <= i < |ps| ==> 0 < ps[i].weight
  }

  /** Draw r lands on server i: the available weights before i are at most r, those up to i exceed it. */
  predicate LandsOn(ps: seq<Peer>, up: seq<bool>, r: nat, i: nat)
    requires |up| == |ps|
  {
    i < |ps| && up[i] && UpWeight(ps, up, i) <= r < UpWeight(ps, up, i + 1)
  }

  lemma {:induction false} UpWeightMonotone(ps: seq<Peer>, up: seq<bool>, j: nat, k: nat)
    requires |up| == |ps| && j <= k <= |ps| && Weighted(ps)
    ensures UpWeight(ps, up, j) <= UpWeight(ps, up, k)
    decreases k
  {
    if j < k { UpWeightMonotone(ps, up, j, k - 1); }
  }

  /** A draw lands on at most one server. */
  lemma LandsOnce(ps: seq<Peer>, up: seq<bool>, r: nat, i: nat, j: nat)
    requires |up| == |ps| && Weighted(ps) && LandsOn(ps, up, r, i) && LandsOn(ps, up, r, j)
    ensures i == j
  {
    if i < j { UpWeightMonotone(ps, up, i + 1, j); }
    if j < i { UpWeightMonotone(ps, up, j + 1, i); }
  }

  /** Every draw below the total lands on some server. */
  lemma {:induction false} LandsSomewhere(ps: seq<Peer>, up: seq<bool>, r: nat, k: nat) returns (i: nat)
    requires |up| == |ps| && k <= |ps| && r < UpWeight(ps, up, k)
    ensures LandsOn(ps, up, r, i)
  {
    if r < UpWeight(ps, up, k - 1) { i := LandsSomewhere(ps, up, r, k - 1); } else { i := k - 1; }
  }

  /** The draws among 0..total-1 that select server i. */
  ghost function Draws(ps: seq<Peer>, up: seq<bool>, i: nat): set<nat>
    requires |up| == |ps|
  {
    set r: nat | r < UpWeight(ps, up, |ps|) && LandsOn(ps, up, r, i)
  }

  /** The numbers from a up to but not including b. */
  function Interval(a: nat, b: nat): (s: set<nat>)
    requires a <= b
    ensures forall r: nat :: r in s <==> a <= r < b
    ensures |s| == b - a
    decreases b
  {
    if a == b then {} else Interval(a, b - 1) + {b - 1}
  }

  /** The partition is exact: an available server owns as many draws as its weight, an unavailable one none. */
  lemma ExactShare(ps: seq<Peer>, up: seq<bool>, i: nat)
    requires |up| == |ps| && i < |ps| && Weighted(ps)
    ensures |Draws(ps, up, i)| == Share(ps, up, i)
  {
    if up[i] {
      UpWeightMonotone(ps, up, 0, i);
      UpWeightMonotone(ps, up, i + 1, |ps|);
      var lo, hi := UpWeight(ps, up, i), UpWeight(ps, up, i + 1);
      assert Draws(ps, up, i) == Interval(lo, hi);
    } else {
      assert Draws(ps, up, i) == {};
    }
  }

  /** Disjoint and exhaustive: below the total, exactly one server owns each draw. */
  lemma Partition(ps: seq<Peer>, up: seq<bool>, r: nat)
    requires |up| == |ps| && Weighted(ps) && r < UpWeight(ps, up, |ps|)
    ensures exists i: nat :: r in Draws(ps, up, i) && forall j: nat :: r in Draws(ps, up, j) ==> j == i
  {
    var i := LandsSomewhere(ps, up, r, |ps|);
    assert r in Draws(ps, up, i);
    forall j: nat | r in Draws(ps, up, j) ensures j == i {
      LandsOnce(ps, up, r, i, j);
    }
  }

  /** The total is positive exactly when some server is available. */
  lemma {:induction false} TotalPositiveExactlyWhen(ps: seq<Peer>, up: seq<bool>, k: nat)
    requires |up| == |ps| && k <= |ps| && Weighted(ps)
    ensures 0 <= UpWeight(ps, up, k)
    ensures 0 < UpWeight(ps, up, k) <==> exists i :: 0 <= i < k && up[i]
  {
    if k > 0 { TotalPositiveExactlyWhen(ps, up, k - 1); }
  }
}
