/**
 * The Strategic Tile Shatter game: shattering tile k last inside the open
 * interval (l, r) earns tiles[l] * tiles[k] * tiles[r], and `maxPoints`
 * computes the best total by interval dynamic programming over the tiles
 * padded with a virtual tile of value 1 at each end.
 */
module TileShatter {
  import opened Common

  /** The tiles with the two virtual boundary tiles of value 1. */
  function Padded(nums: seq<int>): (v: seq<int>)
    ensures |v| == |nums| + 2 && v[0] == 1 && v[|v| - 1] == 1
    ensures forall t :: 0 <= t < |nums| ==> v[t + 1] == nums[t]
  {
    [1] + nums + [1]
  }

  // ---------------------------------------------------------------------------
  // The recurrence the table is filled with
  // ---------------------------------------------------------------------------

  /** `dp[l][r]`: the best points for the tiles strictly between l and r; 0 when there are none. */
  function Best(v: seq<int>, l: nat, r: nat): int
    requires l <= r < |v|
    decreases r - l, 2
  {
    if r - l < 2 then 0 else BestOver(v, l, r, r)
  }

  /** `dp[l][r]` after the last tiles k = l + 1 .. m - 1 have been tried, starting from 0. */
  function BestOver(v: seq<int>, l: nat, r: nat, m: nat): int
    requires l < m <= r < |v|
    decreases r - l, 1, m
  {
    if m == l + 1 then 0 else Max(BestOver(v, l, r, m - 1), Candidate(v, l, r, m - 1))
  }

  /** The points of the interval (l, r) when tile k is shattered last. */
  function Candidate(v: seq<int>, l: nat, r: nat, k: nat): int
    requires l < k < r < |v|
    decreases r - l, 0
  {
    v[l] * v[k] * v[r] + Best(v, l, k) + Best(v, k, r)
  }

  /** The answer `maxPoints(nums)`: the full padded interval. */
  function Answer(nums: seq<int>): int
  {
    Best(Padded(nums), 0, |nums| + 1)
  }

  /** The scan over last tiles keeps the running maximum, never below the initial 0. */
  lemma {:induction false} BestOverFacts(v: seq<int>, l: nat, r: nat, m: nat)
    requires l < m <= r < |v|
    ensures BestOver(v, l, r, m) >= 0
    ensures forall k :: l < k < m ==> Candidate(v, l, r, k) <= BestOver(v, l, r, m)
    ensures BestOver(v, l, r, m) == 0 || exists k :: l < k < m && BestOver(v, l, r, m) == Candidate(v, l, r, k)
    decreases m
  {
    if m > l + 1 {
      BestOverFacts(v, l, r, m - 1);
      if BestOver(v, l, r, m) != Candidate(v, l, r, m - 1) && BestOver(v, l, r, m) != 0 {
        assert BestOver(v, l, r, m) == BestOver(v, l, r, m - 1);
        var k :| l < k < m - 1 && BestOver(v, l, r, m - 1) == Candidate(v, l, r, k);
      } else if BestOver(v, l, r, m) != 0 {
        var k: nat := m - 1;
        assert l < k < m && BestOver(v, l, r, m) == Candidate(v, l, r, k);
      }
    }
  }

  /** Every table entry is non-negative, whatever the tile values. */
  lemma BestNonNegative(v: seq<int>, l: nat, r: nat)
    requires l <= r < |v|
    ensures Best(v, l, r) >= 0
  {
    if r - l >= 2 {
      BestOverFacts(v, l, r, r);
    }
  }

  /** `dp[l][r]` is at least the points of every choice of last tile. */
  lemma BestDominates(v: seq<int>, l: nat, r: nat, k: nat)
    requires l < k < r < |v|
    ensures Candidate(v, l, r, k) <= Best(v, l, r)
  {
    BestOverFacts(v, l, r, r);
  }

  /** With non-negative tiles, `dp[l][r]` is the points of some choice of last tile. */
  lemma BestAttained(v: seq<int>, l: nat, r: nat)
    requires l + 2 <= r < |v|
    requires forall t :: 0 <= t < |v| ==> v[t] >= 0
    ensures exists k :: l < k < r && Best(v, l, r) == Candidate(v, l, r, k)
  {
    BestOverFacts(v, l, r, r);
    if Best(v, l, r) == 0 {
      BestNonNegative(v, l, l + 1);
      BestNonNegative(v, l + 1, r);
      assert 0 <= v[l] * v[l + 1];
      assert 0 <= v[l] * v[l + 1] * v[r];
      assert Candidate(v, l, r, l + 1) >= 0;
    }
  }

  // ---------------------------------------------------------------------------
  // Shattering plans: an independent description of the game
  // ---------------------------------------------------------------------------

  /** Which tile of an interval is shattered last, and recursively how each side is cleared. */
  datatype Plan = Cleared | Last(k: nat, left: Plan, right: Plan)

  /** A plan shatters every tile strictly between l and r exactly once. */
  predicate ValidPlan(p: Plan, l: nat, r: nat)
  {
    match p
    case Cleared => r <= l + 1
    case Last(k, a, b) => l < k < r && ValidPlan(a, l, k) && ValidPlan(b, k, r)
  }

  /** The points a plan earns: each tile, when shattered, scores with its neighbours still standing. */
  function PlanPoints(v: seq<int>, p: Plan, l: nat, r: nat): int
    requires l <= r < |v| && ValidPlan(p, l, r)
  {
    match p
    case Cleared => 0
    case Last(k, a, b) => v[l] * v[k] * v[r] + PlanPoints(v, a, l, k) + PlanPoints(v, b, k, r)
  }

  /** No plan earns more than `dp[l][r]`. */
  lemma {:induction false} PlanBounded(v: seq<int>, p: Plan, l: nat, r: nat)
    requires l <= r < |v| && ValidPlan(p, l, r)
    ensures PlanPoints(v, p, l, r) <= Best(v, l, r)
  {
    match p
    case Cleared =>
    case Last(k, a, b) =>
      PlanBounded(v, a, l, k);
      PlanBounded(v, b, k, r);
      BestDominates(v, l, r, k);
  }

  /** With non-negative tiles, a plan earning exactly `dp[l][r]`: the table's value is the game's optimum. */
  ghost function OptimalPlan(v: seq<int>, l: nat, r: nat): (p: Plan)
    requires l <= r < |v|
    requires forall t :: 0 <= t < |v| ==> v[t] >= 0
    ensures ValidPlan(p, l, r) && PlanPoints(v, p, l, r) == Best(v, l, r)
    decreases r - l
  {
    if r - l < 2 then Cleared
    else
      BestAttained(v, l, r);
      var k :| l < k < r && Best(v, l, r) == Candidate(v, l, r, k);
      Last(k, OptimalPlan(v, l, k), OptimalPlan(v, k, r))
  }

  /** No tiles, or one tile: `maxPoints([]) == 0` and `maxPoints([x]) == max(0, x)`, which is x for x >= 0. */
  lemma SmallInputs(x: int)
    ensures Answer([]) == 0
    ensures Answer([x]) == Max(0, x)
    ensures x >= 0 ==> Answer([x]) == x
  {
    var v := Padded([x]);
    assert v == [1, x, 1];
    assert Candidate(v, 0, 2, 1) == x;
  }

  // ---------------------------------------------------------------------------
  // The program
  // ---------------------------------------------------------------------------

  /** Cells (a, b) already final when intervals of length `length` are being filled from `left`. */
  predicate Ready(length: nat, left: nat, a: nat, b: nat)
  {
    a <= b && (b - a < length || (b - a == length && a < left))
  }

  /** Every final cell holds its `Best` value and every other cell still holds its initial 0. */
  ghost predicate Filled(dp: array2<int>, v: seq<int>, length: nat, left: nat)
    requires dp.Length0 == |v| && dp.Length1 == |v|
    reads dp
  {
    forall a: nat, b: nat {:trigger dp[a, b]} :: a < |v| && b < |v| ==>
      dp[a, b] == (if Ready(length, left, a, b) then Best(v, a, b) else 0)
  }

  /** `maxPoints(nums)`: fills `dp` by increasing interval length and returns `dp[0][n - 1]`. */
  method MaxPoints(nums: seq<int>) returns (result: int)
    ensures result == Answer(nums)
  {
    var tiles := [1] + nums + [1];
    var n := |tiles|;
    var dp := new int[n, n]((_, _) => 0);
    for length := 2 to n
      invariant Filled(dp, tiles, length, 0)
    {
      for left := 0 to n - length
        invariant Filled(dp, tiles, length, left)
      {
        var right := left + length;
        for k := left + 1 to right
          invariant dp[left, right] == BestOver(tiles, left, right, k)
          invariant forall a: nat, b: nat {:trigger dp[a, b]} :: a < n && b < n && (a != left || b != right) ==>
                      dp[a, b] == (if Ready(length, left, a, b) then Best(tiles, a, b) else 0)
        {
          dp[left, right] := Max(dp[left, right], tiles[left] * tiles[k] * tiles[right] + dp[left, k] + dp[k, right]);
        }
      }
    }
    result := dp[0, n - 1];
  }
}
