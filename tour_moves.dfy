/**
 * The two neighbourhood moves of the simulated-annealing tour search: a
 * tour is a list of city indices, `swap_neighborhood` exchanges the cities
 * at two positions and `two_opt_neighborhood` reverses the segment between
 * two positions. Both build a new list; the positions, drawn at random in
 * the program, are parameters here.
 */
module TourMoves {
  import opened Common

  /** A visiting order of cities, by index into the city list. */
  type Tour = seq<nat>

  /** Each of the cities 0 .. n - 1 exactly once, n being the tour's length. */
  predicate IsTour(tour: Tour)
  {
    (forall k :: 0 <= k < |tour| ==> tour[k] < |tour|) &&
    (forall a, b :: 0 <= a < b < |tour| ==> tour[a] != tour[b])
  }

  // ---------------------------------------------------------------------------
  // `swap_neighborhood`
  // ---------------------------------------------------------------------------

  /**
   * `swap_neighborhood(tour)` for the two distinct positions `i` and `j`
   * that `random.sample(range(len(tour)), 2)` returned: a copy of the tour
   * with the cities at `i` and `j` exchanged.
   */
  function Swap(tour: Tour, i: nat, j: nat): (r: Tour)
    requires i < |tour| && j < |tour| && i != j
    ensures |r| == |tour| && r[i] == tour[j] && r[j] == tour[i]
    ensures forall k :: 0 <= k < |tour| && k != i && k != j ==> r[k] == tour[k]
  {
    tour[i := tour[j]][j := tour[i]]
  }

  /** The swapped tour holds the same cities, each as often as before. */
  lemma SwapPermutes(tour: Tour, i: nat, j: nat)
    requires i < |tour| && j < |tour| && i != j
    ensures multiset(Swap(tour, i, j)) == multiset(tour)
  {
  }

  /** The order `random.sample` returns the two positions in does not matter. */
  lemma SwapSymmetric(tour: Tour, i: nat, j: nat)
    requires i < |tour| && j < |tour| && i != j
    ensures Swap(tour, i, j) == Swap(tour, j, i)
  {
  }

  /** Swapping the same two positions again restores the tour. */
  lemma SwapTwice(tour: Tour, i: nat, j: nat)
    requires i < |tour| && j < |tour| && i != j
    ensures Swap(Swap(tour, i, j), i, j) == tour
  {
  }

  /** A swap of a tour is a tour. */
  lemma SwapKeepsTour(tour: Tour, i: nat, j: nat)
    requires i < |tour| && j < |tour| && i != j && IsTour(tour)
    ensures IsTour(Swap(tour, i, j))
  {
    var r := Swap(tour, i, j);
    forall a, b | 0 <= a < b < |r| ensures r[a] != r[b] {
      var sa := if a == i then j else if a == j then i else a;
      var sb := if b == i then j else if b == j then i else b;
      assert r[a] == tour[sa] && r[b] == tour[sb] && sa != sb;
      if sa < sb {
        assert tour[sa] != tour[sb];
      } else {
        assert tour[sb] != tour[sa];
      }
    }
  }

  // ---------------------------------------------------------------------------
  // `two_opt_neighborhood`
  // ---------------------------------------------------------------------------

  /**
   * `two_opt_neighborhood(tour)` for the sorted pair `i < j` of distinct
   * positions: `tour[:i] + tour[i:j][::-1] + tour[j:]`. Positions before `i`
   * and from `j` on keep their city; position k of the segment gets the city
   * from its mirror position `j - 1 - (k - i)`. As `j < len(tour)`, the city
   * in the last position never moves.
   */
  function TwoOpt(tour: Tour, i: nat, j: nat): (r: Tour)
    requires i < j < |tour|
    ensures |r| == |tour|
    ensures forall k :: 0 <= k < i ==> r[k] == tour[k]
    ensures forall k :: j <= k < |tour| ==> r[k] == tour[k]
    ensures forall k :: i <= k < j ==> r[k] == tour[j - 1 - (k - i)]
  {
    tour[..i] + Reverse(tour[i..j]) + tour[j..]
  }

  /** Reversing keeps every element, each as often as before. */
  lemma {:induction false} ReversePermutes<T>(s: seq<T>)
    ensures multiset(Reverse(s)) == multiset(s)
  {
    if s != [] {
      ReversePermutes(s[1..]);
      assert s == [s[0]] + s[1..];
    }
  }

  /** The 2-opt tour holds the same cities, each as often as before. */
  lemma TwoOptPermutes(tour: Tour, i: nat, j: nat)
    requires i < j < |tour|
    ensures multiset(TwoOpt(tour, i, j)) == multiset(tour)
  {
    var front, segment, back := tour[..i], tour[i..j], tour[j..];
    ReversePermutes(segment);
    assert tour == front + segment + back;
    assert TwoOpt(tour, i, j) == front + Reverse(segment) + back;
    assert multiset(front + Reverse(segment) + back) == multiset(front) + multiset(Reverse(segment)) + multiset(back);
  }

  /** Reversing the same segment again restores the tour. */
  lemma TwoOptTwice(tour: Tour, i: nat, j: nat)
    requires i < j < |tour|
    ensures TwoOpt(TwoOpt(tour, i, j), i, j) == tour
  {
    var r := TwoOpt(tour, i, j);
    var r2 := TwoOpt(r, i, j);
    forall k | 0 <= k < |tour| ensures r2[k] == tour[k] {
      if i <= k < j {
        assert r2[k] == r[j - 1 - (k - i)];
      }
    }
  }

  /** Positions next to each other give a one-city segment: the move changes nothing. */
  lemma TwoOptAdjacent(tour: Tour, i: nat)
    requires i + 1 < |tour|
    ensures TwoOpt(tour, i, i + 1) == tour
  {
    var r := TwoOpt(tour, i, i + 1);
    assert r[i] == tour[i];
  }

  /** A 2-opt move of a tour is a tour. */
  lemma TwoOptKeepsTour(tour: Tour, i: nat, j: nat)
    requires i < j < |tour| && IsTour(tour)
    ensures IsTour(TwoOpt(tour, i, j))
  {
    var r := TwoOpt(tour, i, j);
    assert forall k :: 0 <= k < |r| ==> r[k] == tour[Source(i, j, k)];
    forall a, b | 0 <= a < b < |r| ensures r[a] != r[b] {
      var sa, sb := Source(i, j, a), Source(i, j, b);
      if sa < sb {
        assert tour[sa] != tour[sb];
      } else {
        assert tour[sb] != tour[sa];
      }
    }
  }

  /** The position of the input tour that position k of the 2-opt tour is taken from. */
  function Source(i: nat, j: nat, k: nat): (s: nat)
    requires i < j
    ensures (i <= k < j) == (i <= s < j)
    ensures k < i || j <= k ==> s == k
  {
    if i <= k < j then j - 1 - (k - i) else k
  }
}
