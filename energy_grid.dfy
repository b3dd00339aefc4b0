/**
 * The per-hour energy allocator of q4_energy_grid.py.
 *
 * For one hour and one total demand it draws whole units from the sources that
 * are available in that hour, so that the total lies in a band of plus or minus
 * ten percent around the demand, at the least cost. Every use of the source
 * named "Diesel" costs a flat penalty on top of its unit cost.
 *
 * The specification side (Table, ScanFrom, SelectFrom, Witness, Allocate)
 * follows the dynamic program step by step, including its tie rules, and the
 * lemmas relate it to the plain meaning: the cheapest in-band allocation.
 * The methods (BuildTable, SelectBest, Backtrack, AllocateEnergyDp) are the
 * loops of the source, proved against that specification.
 */
module EnergyGrid {
  import opened Common

  // ---------------------------------------------------------------------------
  // Configuration
  // ---------------------------------------------------------------------------

  /** When a source can be drawn on: in every hour, or in an inclusive range of hours. */
  datatype Availability = Always | Hours(first: int, last: int)

  predicate AvailableAt(a: Availability, hour: int)
  {
    match a
    case Always => true
    case Hours(first, last) => first <= hour <= last
  }

  /** One entry of the source catalog. Costs are exact rationals (the source's are 1.0, 1.5, 3.0). */
  datatype Source = Source(name: string, capacity: nat, cost: real, available: Availability, renewable: bool)

  const TOLERANCE: real := 0.10
  const DIESEL_PENALTY: int := 1000

  /** The catalog, in the order the source declares it. */
  const EnergySources: seq<Source> := [
    Source("Solar", 50, 1.0, Hours(6, 18), true),
    Source("Hydro", 40, 1.5, Always, true),
    Source("Diesel", 60, 3.0, Hours(17, 23), false)
  ]

  /** Catalog entries are keys of a dictionary: their names are pairwise different. */
  ghost predicate DistinctNames(s: seq<Source>)
  {
    forall a, b :: 0 <= a < b < |s| ==> s[a].name != s[b].name
  }

  // ---------------------------------------------------------------------------
  // Scenario: sources available in the hour, cheapest first, and the demand band
  // ---------------------------------------------------------------------------

  /** The catalog entries available in `hour`, in catalog order. */
  function AvailableSources(catalog: seq<Source>, hour: int): (r: seq<Source>)
    ensures |r| <= |catalog|
    ensures forall s :: s in r <==> s in catalog && AvailableAt(s.available, hour)
  {
    if catalog == [] then []
    else if AvailableAt(catalog[0].available, hour) then [catalog[0]] + AvailableSources(catalog[1..], hour)
    else AvailableSources(catalog[1..], hour)
  }

  /**
   * `r` is `catalog` with some entries dropped and the rest kept in the same
   * order (a subsequence).
   */
  ghost predicate Subsequence(r: seq<Source>, catalog: seq<Source>)
    decreases |catalog|
  {
    r == [] ||
    (catalog != [] &&
      ((r[0] == catalog[0] && Subsequence(r[1..], catalog[1..])) || Subsequence(r, catalog[1..])))
  }

  /** The filter keeps catalog order: what it returns is a subsequence of the catalog. */
  lemma {:induction false} AvailableSourcesInOrder(catalog: seq<Source>, hour: int)
    ensures Subsequence(AvailableSources(catalog, hour), catalog)
  {
    if catalog != [] {
      var r, t := AvailableSources(catalog, hour), AvailableSources(catalog[1..], hour);
      AvailableSourcesInOrder(catalog[1..], hour);
      if AvailableAt(catalog[0].available, hour) {
        assert r[0] == catalog[0] && r[1..] == t;
      }
    }
  }

  /** The filter on the program's own catalog: Solar from 6 to 18, Hydro always, Diesel from 17 to 23. */
  lemma CatalogFilter(hour: int)
    ensures AvailableSources(EnergySources, hour) ==
              (if 6 <= hour <= 18 then [EnergySources[0]] else []) + [EnergySources[1]] +
              (if 17 <= hour <= 23 then [EnergySources[2]] else [])
  {
    var e := EnergySources;
    assert e[1..][1..] == e[2..] && e[2..][1..] == e[3..] && e[3..] == [];
    assert AvailableSources(e[2..], hour) == if 17 <= hour <= 23 then [e[2]] else [];
    assert AvailableSources(e[1..], hour) == [e[1]] + AvailableSources(e[2..], hour);
  }

  /** The program's own catalog names three different sources. */
  lemma CatalogNamesDistinct()
    ensures DistinctNames(EnergySources)
  {
    var e := EnergySources;
    assert e[0].name[0] == 'S' && e[1].name[0] == 'H' && e[2].name[0] == 'D';
  }

  /**
   * The program's own catalog hour by hour: all three sources at 17 and 18,
   * Solar and Hydro from 6 to 16, Hydro and Diesel from 19 to 23, and Hydro
   * alone at any other hour.
   */
  lemma CatalogByHour(hour: int)
    ensures 6 <= hour <= 16 ==> AvailableSources(EnergySources, hour) == [EnergySources[0], EnergySources[1]]
    ensures 17 <= hour <= 18 ==> AvailableSources(EnergySources, hour) == EnergySources
    ensures 19 <= hour <= 23 ==> AvailableSources(EnergySources, hour) == [EnergySources[1], EnergySources[2]]
    ensures hour < 6 || 23 < hour ==> AvailableSources(EnergySources, hour) == [EnergySources[1]]
  {
    CatalogFilter(hour);
  }

  /** In catalog order the sources of any hour are already cheapest first, so sorting keeps that order. */
  lemma CatalogAlreadyCheapestFirst(hour: int)
    ensures ProcessingOrder(EnergySources, hour) == AvailableSources(EnergySources, hour)
  {
    CatalogFilter(hour);
    var r := AvailableSources(EnergySources, hour);
    assert CostSorted(r);
    SortedIsFixed(r);
  }

  /** Sorting a list that is already ascending by cost leaves it as it is. */
  lemma {:induction false} SortedIsFixed(s: seq<Source>)
    requires CostSorted(s)
    ensures SortByCost(s) == s
  {
    if s != [] {
      SortedIsFixed(s[1..]);
      assert s == [s[0]] + s[1..];
    }
  }

  /** Inserts `x` before the first element that is not cheaper than it. */
  function InsertByCost(x: Source, s: seq<Source>): (r: seq<Source>)
    ensures |r| == |s| + 1
    ensures multiset(r) == multiset(s) + multiset{x}
    ensures forall y :: y in r <==> y == x || y in s
  {
    if s == [] || x.cost <= s[0].cost then [x] + s
    else
      assert s == [s[0]] + s[1..];
      [s[0]] + InsertByCost(x, s[1..])
  }

  /** A stable sort by unit cost (Python's `list.sort` with a key). */
  function SortByCost(s: seq<Source>): (r: seq<Source>)
    ensures |r| == |s|
    ensures multiset(r) == multiset(s)
    ensures forall y :: y in r <==> y in s
  {
    if s == [] then []
    else
      assert s == [s[0]] + s[1..];
      InsertByCost(s[0], SortByCost(s[1..]))
  }

  ghost predicate CostSorted(s: seq<Source>)
  {
    forall a, b :: 0 <= a < b < |s| ==> s[a].cost <= s[b].cost
  }

  /** The sources of one hour in the order the dynamic program folds them in. */
  function ProcessingOrder(catalog: seq<Source>, hour: int): seq<Source>
  {
    SortByCost(AvailableSources(catalog, hour))
  }

  /** `int(demand * (1 - TOLERANCE))`, computed exactly. */
  function MinRequired(demand: nat): int
  {
    (demand as real * (1.0 - TOLERANCE)).Floor
  }

  /** `int(demand * (1 + TOLERANCE))`, computed exactly. */
  function MaxRequired(demand: nat): int
  {
    (demand as real * (1.0 + TOLERANCE)).Floor
  }

  // ---------------------------------------------------------------------------
  // Costs and allocations
  // ---------------------------------------------------------------------------

  /** The flat penalty: only for the source named "Diesel", and only when it is used. */
  function Penalty(src: Source, used: nat): real
  {
    if src.name == "Diesel" && used > 0 then DIESEL_PENALTY as real else 0.0
  }

  /** What drawing `used` units from `src` adds to the cost. */
  function StepCost(src: Source, used: nat): real
  {
    used as real * src.cost + Penalty(src, used)
  }

  /**
   * `units[k]` is the number of units drawn from `srcs[k]`; a shorter `units`
   * is an allocation of the first |units| sources.
   */
  ghost predicate Fits(srcs: seq<Source>, units: seq<nat>)
  {
    |units| <= |srcs| && forall k :: 0 <= k < |units| ==> units[k] <= srcs[k].capacity
  }

  function Total(units: seq<nat>): nat
  {
    if units == [] then 0 else Total(units[..|units| - 1]) + units[|units| - 1]
  }

  /** Cost of an allocation: unit costs plus the penalty of each source it uses. */
  function AllocCost(srcs: seq<Source>, units: seq<nat>): real
    requires |units| <= |srcs|
  {
    if units == [] then 0.0
    else AllocCost(srcs, units[..|units| - 1]) + StepCost(srcs[|units| - 1], units[|units| - 1])
  }

  /** The cost without penalties. */
  function LinearCost(srcs: seq<Source>, units: seq<nat>): real
    requires |units| <= |srcs|
  {
    if units == [] then 0.0
    else LinearCost(srcs, units[..|units| - 1]) + units[|units| - 1] as real * srcs[|units| - 1].cost
  }

  /** How many sources of the allocation are named "Diesel" and used. */
  function DieselUses(srcs: seq<Source>, units: seq<nat>): nat
    requires |units| <= |srcs|
  {
    if units == [] then 0
    else DieselUses(srcs, units[..|units| - 1])
         + (if srcs[|units| - 1].name == "Diesel" && units[|units| - 1] > 0 then 1 else 0)
  }

  /** Total capacity of the first `j` sources: the largest energy reachable with them. */
  function SumCap(srcs: seq<Source>, j: nat): nat
    requires j <= |srcs|
  {
    if j == 0 then 0 else SumCap(srcs, j - 1) + srcs[j - 1].capacity
  }

  // ---------------------------------------------------------------------------
  // The dynamic program, as the source evaluates it
  // ---------------------------------------------------------------------------

  /** A tentative value of one table entry and the predecessor energy it came from. */
  datatype Choice = Choice(cost: real, prev: nat)

  /** Predecessor energy `p` of row j can reach energy `e` of row j + 1. */
  predicate IsCandidate(srcs: seq<Source>, j: nat, e: nat, p: nat)
    requires j < |srcs|
  {
    p <= e && e - p <= srcs[j].capacity
  }

  /**
   * The value of entry (j, e): 0 for the base state (0, 0), and for j > 0 the
   * cost that survives the scan over the predecessors of row j - 1.
   */
  ghost function Table(srcs: seq<Source>, j: nat, e: nat): real
    requires j <= |srcs|
    decreases j, 1, 0
  {
    if j == 0 then 0.0
    else match ScanFrom(srcs, j - 1, e, SumCap(srcs, j - 1) + 1)
      case Some(c) => c.cost
      case None => 0.0
  }

  /**
   * Entry (j + 1, e) after the predecessors 0 .. p - 1 of row j have been tried
   * in ascending order; a candidate replaces the current one only when it is
   * strictly cheaper. None when no predecessor reached e yet (Python's `inf`).
   */
  ghost function ScanFrom(srcs: seq<Source>, j: nat, e: nat, p: nat): Option<Choice>
    requires j < |srcs| && p <= SumCap(srcs, j) + 1
    decreases j + 1, 0, p
  {
    if p == 0 then None
    else
      var best := ScanFrom(srcs, j, e, p - 1);
      if IsCandidate(srcs, j, e, p - 1) then
        var c := Table(srcs, j, p - 1) + StepCost(srcs[j], e - (p - 1));
        if best.None? || c < best.value.cost then Some(Choice(c, p - 1)) else best
      else best
  }

  /** A parent entry: the source, the units drawn from it and the energy before it. */
  datatype Link = Link(src: string, used: int, prevEnergy: nat)

  /** The parent entry the program records for (j, e), j >= 1. */
  ghost function LinkOf(srcs: seq<Source>, j: nat, e: nat): Link
    requires 1 <= j <= |srcs|
  {
    match ScanFrom(srcs, j - 1, e, SumCap(srcs, j - 1) + 1)
    case Some(c) => Link(srcs[j - 1].name, e - c.prev, c.prev)
    case None => Link(srcs[j - 1].name, 0, 0)
  }

  /**
   * Terminal energy chosen by the scan over energies 0 .. e - 1 of the last row:
   * in the band [lo, hi] and strictly cheaper than the one kept so far.
   */
  ghost function SelectFrom(srcs: seq<Source>, lo: int, hi: int, e: nat): Option<nat>
    requires e <= SumCap(srcs, |srcs|) + 1
  {
    if e == 0 then None
    else
      var best := SelectFrom(srcs, lo, hi, e - 1);
      if lo <= e - 1 <= hi && (best.None? || Table(srcs, |srcs|, e - 1) < Table(srcs, |srcs|, best.value))
      then Some(e - 1)
      else best
  }

  /** The units per source recovered by following parent entries back from (j, e). */
  ghost function Witness(srcs: seq<Source>, j: nat, e: nat): (units: seq<nat>)
    requires j <= |srcs| && e <= SumCap(srcs, j)
    ensures |units| == j
    decreases j
  {
    if j == 0 then []
    else
      ScanFacts(srcs, j - 1, e, SumCap(srcs, j - 1) + 1);
      var c := ScanFrom(srcs, j - 1, e, SumCap(srcs, j - 1) + 1).value;
      Witness(srcs, j - 1, c.prev) + [e - c.prev]
  }

  /** Adds `used` units to the entry of `name` (a `defaultdict(int)` update). */
  function AddUnits(m: map<string, int>, name: string, used: int): map<string, int>
  {
    m[name := (if name in m then m[name] else 0) + used]
  }

  /** The allocation map built from sources i .. |units| - 1, last source first. */
  function Tally(srcs: seq<Source>, units: seq<nat>, i: nat): map<string, int>
    requires |units| <= |srcs| && i <= |units|
    decreases |units| - i
  {
    if i == |units| then map[] else AddUnits(Tally(srcs, units, i + 1), srcs[i].name, units[i])
  }

  /** What `allocate_energy_dp` returns: `(None, None)`, or the allocation and its cost. */
  datatype Outcome = Infeasible | Allocated(allocation: map<string, int>, cost: real)

  /** The terminal energy the program settles on for the ordered sources `srcs`, if any. */
  ghost function ChosenEnergy(srcs: seq<Source>, demand: nat): Option<nat>
  {
    SelectFrom(srcs, MinRequired(demand), MaxRequired(demand), SumCap(srcs, |srcs|) + 1)
  }

  /** The units per source of the chosen allocation ([] when there is none). */
  ghost function ChosenUnits(srcs: seq<Source>, demand: nat): seq<nat>
  {
    match ChosenEnergy(srcs, demand)
    case None => []
    case Some(e) =>
      SelectFacts(srcs, MinRequired(demand), MaxRequired(demand), SumCap(srcs, |srcs|) + 1);
      Witness(srcs, |srcs|, e)
  }

  /** The outcome of the table, selection and backtracking stages over the ordered sources. */
  ghost function AllocateOrdered(srcs: seq<Source>, demand: nat): Outcome
  {
    match ChosenEnergy(srcs, demand)
    case None => Infeasible
    case Some(e) =>
      SelectFacts(srcs, MinRequired(demand), MaxRequired(demand), SumCap(srcs, |srcs|) + 1);
      Allocated(Tally(srcs, Witness(srcs, |srcs|, e), 0), Table(srcs, |srcs|, e))
  }

  /** The result of `allocate_energy_dp(hour, demand)` over `catalog`. */
  ghost function Allocate(catalog: seq<Source>, hour: int, demand: nat): Outcome
  {
    AllocateOrdered(ProcessingOrder(catalog, hour), demand)
  }

  /** The entries of `s` whose unit cost is `c`, in order. */
  function WithCost(s: seq<Source>, c: real): seq<Source>
  {
    if s == [] then []
    else (if s[0].cost == c then [s[0]] else []) + WithCost(s[1..], c)
  }

  // ---------------------------------------------------------------------------
  // Lemmas about the scenario
  // ---------------------------------------------------------------------------

  /** The band is [floor(0.9 d), floor(1.1 d)] and contains the demand. */
  lemma BandBounds(demand: nat)
    ensures MinRequired(demand) == (9 * demand) / 10
    ensures MaxRequired(demand) == (11 * demand) / 10
    ensures 0 <= MinRequired(demand) <= demand <= MaxRequired(demand)
  {
    var q9, r9 := (9 * demand) / 10, (9 * demand) % 10;
    assert demand as real * (1.0 - TOLERANCE) == q9 as real + r9 as real / 10.0;
    var q11, r11 := (11 * demand) / 10, (11 * demand) % 10;
    assert demand as real * (1.0 + TOLERANCE) == q11 as real + r11 as real / 10.0;
  }

  lemma {:induction false} InsertByCostSorted(x: Source, s: seq<Source>)
    requires CostSorted(s)
    ensures CostSorted(InsertByCost(x, s))
  {
    if s != [] && x.cost > s[0].cost {
      InsertByCostSorted(x, s[1..]);
      var r := InsertByCost(x, s[1..]);
      forall y | y in r ensures s[0].cost <= y.cost {
      }
    }
  }

  /** The processing order is ascending by unit cost. */
  lemma {:induction false} SortByCostSorted(s: seq<Source>)
    ensures CostSorted(SortByCost(s))
  {
    if s != [] {
      SortByCostSorted(s[1..]);
      InsertByCostSorted(s[0], SortByCost(s[1..]));
    }
  }

  lemma {:induction false} InsertByCostWithCost(x: Source, s: seq<Source>, c: real)
    ensures WithCost(InsertByCost(x, s), c) == (if x.cost == c then [x] else []) + WithCost(s, c)
  {
    var r := InsertByCost(x, s);
    if s == [] || x.cost <= s[0].cost {
      assert r[0] == x && r[1..] == s;
    } else {
      InsertByCostWithCost(x, s[1..], c);
      assert r[0] == s[0] && r[1..] == InsertByCost(x, s[1..]);
      assert WithCost(s, c) == (if s[0].cost == c then [s[0]] else []) + WithCost(s[1..], c);
      if s[0].cost == c {
        assert x.cost != c;
      }
    }
  }

  /** The sort is stable: sources of equal cost keep their catalog order. */
  lemma {:induction false} SortByCostStable(s: seq<Source>, c: real)
    ensures WithCost(SortByCost(s), c) == WithCost(s, c)
  {
    if s != [] {
      SortByCostStable(s[1..], c);
      InsertByCostWithCost(s[0], SortByCost(s[1..]), c);
    }
  }

  lemma {:induction false} AvailableSourcesDistinct(catalog: seq<Source>, hour: int)
    requires DistinctNames(catalog)
    ensures DistinctNames(AvailableSources(catalog, hour))
  {
    if catalog != [] {
      assert DistinctNames(catalog[1..]) by {
        forall a, b | 0 <= a < b < |catalog[1..]| ensures catalog[1..][a].name != catalog[1..][b].name {
          assert catalog[1..][a] == catalog[a + 1] && catalog[1..][b] == catalog[b + 1];
        }
      }
      AvailableSourcesDistinct(catalog[1..], hour);
      var rest := AvailableSources(catalog[1..], hour);
      forall y | y in rest ensures y.name != catalog[0].name {
        var k :| 0 <= k < |catalog[1..]| && catalog[1..][k] == y;
        assert catalog[k + 1] == y;
      }
    }
  }

  lemma {:induction false} InsertByCostDistinct(x: Source, s: seq<Source>)
    requires DistinctNames(s) && forall y :: y in s ==> y.name != x.name
    ensures DistinctNames(InsertByCost(x, s))
  {
    if s != [] && x.cost > s[0].cost {
      assert DistinctNames(s[1..]) by {
        forall a, b | 0 <= a < b < |s[1..]| ensures s[1..][a].name != s[1..][b].name {
          assert s[1..][a] == s[a + 1] && s[1..][b] == s[b + 1];
        }
      }
      InsertByCostDistinct(x, s[1..]);
      var r := InsertByCost(x, s[1..]);
      forall y | y in r ensures y.name != s[0].name {
        if y != x {
          var k :| 0 <= k < |s[1..]| && s[1..][k] == y;
          assert s[k + 1] == y;
        }
      }
    }
  }

  lemma {:induction false} SortByCostDistinct(s: seq<Source>)
    requires DistinctNames(s)
    ensures DistinctNames(SortByCost(s))
  {
    if s != [] {
      assert DistinctNames(s[1..]) by {
        forall a, b | 0 <= a < b < |s[1..]| ensures s[1..][a].name != s[1..][b].name {
          assert s[1..][a] == s[a + 1] && s[1..][b] == s[b + 1];
        }
      }
      SortByCostDistinct(s[1..]);
      forall y | y in SortByCost(s[1..]) ensures y.name != s[0].name {
        var k :| 0 <= k < |s[1..]| && s[1..][k] == y;
        assert s[k + 1] == y;
      }
      InsertByCostDistinct(s[0], SortByCost(s[1..]));
    }
  }

  /**
   * The sources folded in for an hour are exactly the catalog entries available
   * in that hour, cheapest first, equal costs in catalog order, and (for a
   * catalog with distinct names) with distinct names.
   */
  lemma ProcessingOrderFacts(catalog: seq<Source>, hour: int)
    ensures forall s :: s in ProcessingOrder(catalog, hour) <==> s in catalog && AvailableAt(s.available, hour)
    ensures CostSorted(ProcessingOrder(catalog, hour))
    ensures forall c :: WithCost(ProcessingOrder(catalog, hour), c) == WithCost(AvailableSources(catalog, hour), c)
    ensures DistinctNames(catalog) ==> DistinctNames(ProcessingOrder(catalog, hour))
  {
    var avail := AvailableSources(catalog, hour);
    SortByCostSorted(avail);
    forall c ensures WithCost(ProcessingOrder(catalog, hour), c) == WithCost(avail, c) {
      SortByCostStable(avail, c);
    }
    if DistinctNames(catalog) {
      AvailableSourcesDistinct(catalog, hour);
      SortByCostDistinct(avail);
    }
  }

  // ---------------------------------------------------------------------------
  // Lemmas about the scan
  // ---------------------------------------------------------------------------

  /**
   * After trying predecessors 0 .. p - 1, entry e of row j + 1 exists exactly
   * when one of them reaches it, and the kept choice is a real candidate whose
   * cost is its predecessor's value plus the step cost.
   */
  lemma {:induction false} ScanFacts(srcs: seq<Source>, j: nat, e: nat, p: nat)
    requires j < |srcs| && p <= SumCap(srcs, j) + 1
    ensures ScanFrom(srcs, j, e, p).Some? <==> 1 <= p && e <= p - 1 + srcs[j].capacity
    ensures ScanFrom(srcs, j, e, p).Some? ==>
              var c := ScanFrom(srcs, j, e, p).value;
              c.prev < p && IsCandidate(srcs, j, e, c.prev) &&
              c.cost == Table(srcs, j, c.prev) + StepCost(srcs[j], e - c.prev)
    decreases p
  {
    if p > 0 {
      ScanFacts(srcs, j, e, p - 1);
    }
  }

  /**
   * The kept choice is no dearer than any candidate tried, and strictly cheaper
   * than every candidate tried before it: ties keep the earliest predecessor.
   */
  lemma {:induction false} ScanIsEarliestMinimum(srcs: seq<Source>, j: nat, e: nat, p: nat, q: nat)
    requires j < |srcs| && p <= SumCap(srcs, j) + 1
    requires q < p && IsCandidate(srcs, j, e, q)
    ensures ScanFrom(srcs, j, e, p).Some?
    ensures ScanFrom(srcs, j, e, p).value.cost <= Table(srcs, j, q) + StepCost(srcs[j], e - q)
    ensures q < ScanFrom(srcs, j, e, p).value.prev ==>
              ScanFrom(srcs, j, e, p).value.cost < Table(srcs, j, q) + StepCost(srcs[j], e - q)
    decreases p
  {
    var best := ScanFrom(srcs, j, e, p - 1);
    if q < p - 1 {
      ScanIsEarliestMinimum(srcs, j, e, p - 1, q);
    } else {
      ScanFacts(srcs, j, e, p - 1);
    }
  }

  /**
   * The scan over the energies 0 .. e - 1 of the last row keeps nothing exactly
   * when none of them is in the band; otherwise it keeps an in-band energy that
   * is no dearer than any in-band energy tried, and strictly cheaper than every
   * in-band energy below it.
   */
  lemma {:induction false} SelectFacts(srcs: seq<Source>, lo: int, hi: int, e: nat)
    requires e <= SumCap(srcs, |srcs|) + 1
    ensures SelectFrom(srcs, lo, hi, e).None? <==> (e == 0 || hi < 0 || hi < lo || e <= lo)
    ensures SelectFrom(srcs, lo, hi, e).Some? ==>
              var x := SelectFrom(srcs, lo, hi, e).value;
              x < e && lo <= x <= hi &&
              (forall y: nat :: y < e && lo <= y <= hi ==> Table(srcs, |srcs|, x) <= Table(srcs, |srcs|, y)) &&
              (forall y: nat :: y < x && lo <= y <= hi ==> Table(srcs, |srcs|, x) < Table(srcs, |srcs|, y))
  {
    if e > 0 {
      SelectFacts(srcs, lo, hi, e - 1);
    }
  }

  // ---------------------------------------------------------------------------
  // Lemmas relating the table to allocations
  // ---------------------------------------------------------------------------

  /** The cost of an allocation is its unit costs plus one penalty per used "Diesel" source. */
  lemma {:induction false} CostIsUnitsPlusPenalties(srcs: seq<Source>, units: seq<nat>)
    requires |units| <= |srcs|
    ensures AllocCost(srcs, units) ==
            LinearCost(srcs, units) + DieselUses(srcs, units) as real * DIESEL_PENALTY as real
    decreases |units|
  {
    if units != [] {
      CostIsUnitsPlusPenalties(srcs, units[..|units| - 1]);
    }
  }

  /**
   * Every allocation of the first j sources reaches an energy of row j, and the
   * table entry for that energy is no dearer than the allocation.
   */
  lemma {:induction false} TableIsLowerBound(srcs: seq<Source>, units: seq<nat>)
    requires Fits(srcs, units)
    ensures Total(units) <= SumCap(srcs, |units|)
    ensures Table(srcs, |units|, Total(units)) <= AllocCost(srcs, units)
    decreases |units|
  {
    if units != [] {
      var j := |units| - 1;
      var front := units[..j];
      assert Fits(srcs, front);
      TableIsLowerBound(srcs, front);
      var p := Total(front);
      ScanIsEarliestMinimum(srcs, j, p + units[j], SumCap(srcs, j) + 1, p);
    }
  }

  /**
   * Following the parent entries back from (j, e) gives an allocation of the
   * first j sources that fits the capacities, totals e and costs Table(j, e).
   */
  lemma {:induction false} WitnessAchieves(srcs: seq<Source>, j: nat, e: nat)
    requires j <= |srcs| && e <= SumCap(srcs, j)
    ensures Fits(srcs, Witness(srcs, j, e))
    ensures Total(Witness(srcs, j, e)) == e
    ensures AllocCost(srcs, Witness(srcs, j, e)) == Table(srcs, j, e)
    decreases j
  {
    if j > 0 {
      ScanFacts(srcs, j - 1, e, SumCap(srcs, j - 1) + 1);
      var c := ScanFrom(srcs, j - 1, e, SumCap(srcs, j - 1) + 1).value;
      WitnessAchieves(srcs, j - 1, c.prev);
      var w := Witness(srcs, j, e);
      assert w[..j - 1] == Witness(srcs, j - 1, c.prev);
    }
  }

  /**
   * The allocation map holds one entry per processed source name; with distinct
   * names, the entry of source k is exactly the units drawn from it.
   */
  lemma {:induction false} TallyFacts(srcs: seq<Source>, units: seq<nat>, i: nat)
    requires |units| <= |srcs| && i <= |units|
    ensures Tally(srcs, units, i).Keys == set k | i <= k < |units| :: srcs[k].name
    ensures DistinctNames(srcs) ==>
              forall k :: i <= k < |units| ==> Tally(srcs, units, i)[srcs[k].name] == units[k]
    decreases |units| - i
  {
    if i < |units| {
      TallyFacts(srcs, units, i + 1);
      var names := set k | i + 1 <= k < |units| :: srcs[k].name;
      assert (set k | i <= k < |units| :: srcs[k].name) == names + {srcs[i].name} by {
        forall n | n in (set k | i <= k < |units| :: srcs[k].name) ensures n in names + {srcs[i].name} {
          var k :| i <= k < |units| && srcs[k].name == n;
          if k > i { assert n in names; }
        }
      }
      if DistinctNames(srcs) {
        forall k | i < k < |units| ensures srcs[k].name != srcs[i].name { }
        assert srcs[i].name !in Tally(srcs, units, i + 1);
        forall k | i < k < |units| ensures Tally(srcs, units, i)[srcs[k].name] == units[k] {
          assert srcs[k].name != srcs[i].name;
        }
      }
    }
  }

  /** An allocation whose total is 0 draws nothing from any source and costs nothing. */
  lemma {:induction false} ZeroTotalIsFree(srcs: seq<Source>, units: seq<nat>)
    requires |units| <= |srcs| && Total(units) == 0
    ensures forall k :: 0 <= k < |units| ==> units[k] == 0
    ensures AllocCost(srcs, units) == 0.0
    decreases |units|
  {
    if units != [] {
      ZeroTotalIsFree(srcs, units[..|units| - 1]);
      forall k | 0 <= k < |units| ensures units[k] == 0 {
        if k < |units| - 1 { assert units[..|units| - 1][k] == units[k]; }
      }
    }
  }

  // ---------------------------------------------------------------------------
  // What allocate_energy_dp returns
  // ---------------------------------------------------------------------------

  /**
   * Over the ordered sources, the result is `(None, None)` exactly when the
   * total capacity cannot reach the lower end of the band, that is, exactly
   * when no allocation within the capacities has a total inside the band.
   */
  lemma InfeasibleIff(srcs: seq<Source>, demand: nat)
    ensures AllocateOrdered(srcs, demand).Infeasible? <==> SumCap(srcs, |srcs|) < MinRequired(demand)
    ensures AllocateOrdered(srcs, demand).Infeasible? <==>
              forall units :: Fits(srcs, units) && |units| == |srcs| ==>
                !(MinRequired(demand) <= Total(units) <= MaxRequired(demand))
  {
    var lo, hi, top := MinRequired(demand), MaxRequired(demand), SumCap(srcs, |srcs|);
    BandBounds(demand);
    SelectFacts(srcs, lo, hi, top + 1);
    assert AllocateOrdered(srcs, demand).Infeasible? <==> top < lo;
    if top < lo {
      forall units | Fits(srcs, units) && |units| == |srcs| ensures Total(units) < lo {
        TableIsLowerBound(srcs, units);
      }
    } else {
      WitnessAchieves(srcs, |srcs|, lo);
      var w := Witness(srcs, |srcs|, lo);
      assert Fits(srcs, w) && |w| == |srcs| && lo <= Total(w) <= hi;
    }
  }

  /** What a returned outcome is made of: the chosen terminal energy, its cost and its witness. */
  lemma ChosenFacts(srcs: seq<Source>, demand: nat)
    requires AllocateOrdered(srcs, demand).Allocated?
    ensures ChosenEnergy(srcs, demand).Some?
    ensures var e := ChosenEnergy(srcs, demand).value;
            && MinRequired(demand) <= e <= MaxRequired(demand) && e <= SumCap(srcs, |srcs|)
            && AllocateOrdered(srcs, demand).cost == Table(srcs, |srcs|, e)
            && ChosenUnits(srcs, demand) == Witness(srcs, |srcs|, e)
            && AllocateOrdered(srcs, demand).allocation == Tally(srcs, Witness(srcs, |srcs|, e), 0)
            && (forall y: nat :: MinRequired(demand) <= y <= MaxRequired(demand) && y <= SumCap(srcs, |srcs|) ==>
                  Table(srcs, |srcs|, e) <= Table(srcs, |srcs|, y))
            && (forall y: nat :: MinRequired(demand) <= y < e ==> Table(srcs, |srcs|, e) < Table(srcs, |srcs|, y))
  {
    SelectFacts(srcs, MinRequired(demand), MaxRequired(demand), SumCap(srcs, |srcs|) + 1);
  }

  /**
   * A returned allocation fits the capacities, totals an energy inside the
   * band, reports its own cost, and its map is the tally of its units.
   */
  lemma Sound(srcs: seq<Source>, demand: nat)
    requires AllocateOrdered(srcs, demand).Allocated?
    ensures var units := ChosenUnits(srcs, demand);
            && Fits(srcs, units) && |units| == |srcs|
            && MinRequired(demand) <= Total(units) <= MaxRequired(demand)
            && AllocateOrdered(srcs, demand).cost == AllocCost(srcs, units)
            && AllocateOrdered(srcs, demand).allocation == Tally(srcs, units, 0)
  {
    ChosenFacts(srcs, demand);
    WitnessAchieves(srcs, |srcs|, ChosenEnergy(srcs, demand).value);
  }

  /** No allocation within the capacities and inside the band is cheaper than the one returned. */
  lemma Optimal(srcs: seq<Source>, demand: nat, units: seq<nat>)
    requires AllocateOrdered(srcs, demand).Allocated?
    requires Fits(srcs, units) && |units| == |srcs|
    requires MinRequired(demand) <= Total(units) <= MaxRequired(demand)
    ensures AllocateOrdered(srcs, demand).cost <= AllocCost(srcs, units)
  {
    ChosenFacts(srcs, demand);
    TableIsLowerBound(srcs, units);
  }

  /**
   * Ties in the final scan keep the first minimum: an in-band allocation with a
   * smaller total than the returned one is strictly dearer.
   */
  lemma KeepsFirstMinimum(srcs: seq<Source>, demand: nat, units: seq<nat>)
    requires AllocateOrdered(srcs, demand).Allocated?
    requires Fits(srcs, units) && |units| == |srcs|
    requires MinRequired(demand) <= Total(units) < Total(ChosenUnits(srcs, demand))
    ensures AllocateOrdered(srcs, demand).cost < AllocCost(srcs, units)
  {
    ChosenFacts(srcs, demand);
    WitnessAchieves(srcs, |srcs|, ChosenEnergy(srcs, demand).value);
    TableIsLowerBound(srcs, units);
  }

  /** A demand of 0 is always met, by drawing nothing, at cost 0. */
  lemma ZeroDemand(srcs: seq<Source>)
    ensures AllocateOrdered(srcs, 0).Allocated?
    ensures AllocateOrdered(srcs, 0).cost == 0.0
    ensures forall k :: 0 <= k < |ChosenUnits(srcs, 0)| ==> ChosenUnits(srcs, 0)[k] == 0
  {
    BandBounds(0);
    InfeasibleIff(srcs, 0);
    Sound(srcs, 0);
    ZeroTotalIsFree(srcs, ChosenUnits(srcs, 0));
  }

  /**
   * The allocation map names exactly the processed sources; when their names
   * are distinct, each entry is the units drawn from that source.
   */
  lemma AllocationEntries(srcs: seq<Source>, demand: nat)
    requires AllocateOrdered(srcs, demand).Allocated?
    ensures AllocateOrdered(srcs, demand).allocation.Keys == set k | 0 <= k < |srcs| :: srcs[k].name
    ensures DistinctNames(srcs) ==>
              forall k :: 0 <= k < |srcs| ==>
                AllocateOrdered(srcs, demand).allocation[srcs[k].name] == ChosenUnits(srcs, demand)[k]
  {
    Sound(srcs, demand);
    TallyFacts(srcs, ChosenUnits(srcs, demand), 0);
  }

  /** Sources that may differ in capacity only: the same names and unit costs, position by position. */
  predicate SameTerms(srcs: seq<Source>, other: seq<Source>)
  {
    |srcs| == |other| &&
    forall k :: 0 <= k < |srcs| ==> srcs[k].name == other[k].name && srcs[k].cost == other[k].cost
  }

  /** The cost of an allocation depends on the sources' names and unit costs only. */
  lemma {:induction false} AllocCostOnTerms(srcs: seq<Source>, other: seq<Source>, units: seq<nat>)
    requires SameTerms(srcs, other) && |units| <= |srcs|
    ensures AllocCost(srcs, units) == AllocCost(other, units)
  {
    if units != [] {
      var k := |units| - 1;
      AllocCostOnTerms(srcs, other, units[..k]);
      assert Penalty(srcs[k], units[k]) == Penalty(other[k], units[k]);
    }
  }

  /**
   * More capacity never hurts: when every source can supply at least as much,
   * names and unit costs unchanged, a demand that was met is still met, and
   * at no higher cost.
   */
  lemma CapacityMonotone(srcs: seq<Source>, bigger: seq<Source>, demand: nat)
    requires SameTerms(srcs, bigger)
    requires forall k :: 0 <= k < |srcs| ==> srcs[k].capacity <= bigger[k].capacity
    ensures AllocateOrdered(srcs, demand).Allocated? ==>
              && AllocateOrdered(bigger, demand).Allocated?
              && AllocateOrdered(bigger, demand).cost <= AllocateOrdered(srcs, demand).cost
  {
    if AllocateOrdered(srcs, demand).Allocated? {
      Sound(srcs, demand);
      var units := ChosenUnits(srcs, demand);
      assert Fits(bigger, units);
      InfeasibleIff(bigger, demand);
      Optimal(bigger, demand, units);
      AllocCostOnTerms(srcs, bigger, units);
    }
  }

  // ---------------------------------------------------------------------------
  // The program's loops
  // ---------------------------------------------------------------------------

  /** A table key `(i, energy)`: sources processed and energy produced. */
  datatype State = State(row: nat, energy: nat)

  /** The keys (j, 0), ..., (j, n - 1), in the order the program inserts them. */
  function RowKeys(j: nat, n: nat): (r: seq<State>)
    ensures |r| == n && forall t :: 0 <= t < n ==> r[t].row == j && r[t].energy == t
  {
    seq(n, t requires 0 <= t => State(j, t))
  }

  /** The insertion order of the table's keys once rows 0 .. i are complete. */
  ghost function Order(srcs: seq<Source>, i: nat): seq<State>
    requires i <= |srcs|
  {
    if i == 0 then [State(0, 0)] else Order(srcs, i - 1) + RowKeys(i, SumCap(srcs, i) + 1)
  }

  /** Position `off` of the snapshot where row i starts; `idx` positions scanned cover this many of its energies. */
  function Processed(idx: nat, off: int): nat
  {
    if idx <= off then 0 else idx - off
  }

  /**
   * The layout of `o`, a key order once rows 0 .. i are complete: every entry
   * is a reachable state of rows 0 .. i, and the last SumCap(i) + 1 entries
   * are row i's energies in ascending order.
   */
  ghost predicate Laid(srcs: seq<Source>, i: nat, o: seq<State>)
    requires i <= |srcs|
  {
    && |o| >= SumCap(srcs, i) + 1
    && forall k :: 0 <= k < |o| ==>
         && o[k].row <= i && o[k].energy <= SumCap(srcs, o[k].row)
         && (k < |o| - SumCap(srcs, i) - 1 ==> o[k].row < i)
         && (|o| - SumCap(srcs, i) - 1 <= k ==> o[k].row == i && o[k].energy == k - (|o| - SumCap(srcs, i) - 1))
  }

  lemma {:induction false} OrderLayout(srcs: seq<Source>, i: nat)
    requires i <= |srcs|
    ensures Laid(srcs, i, Order(srcs, i))
  {
    if i > 0 {
      OrderLayout(srcs, i - 1);
      var o: seq<State>, r: seq<State> := Order(srcs, i - 1), RowKeys(i, SumCap(srcs, i) + 1);
      var n := o + r;
      assert Order(srcs, i) == n;
      assert |n| - SumCap(srcs, i) - 1 == |o|;
      forall k | 0 <= k < |o|
        ensures n[k].row < i && n[k].energy <= SumCap(srcs, n[k].row)
      {
        assert n[k] == o[k];
      }
      forall k | |o| <= k < |n|
        ensures n[k].row == i && n[k].energy == k - |o|
      {
        assert n[k] == r[k - |o|];
      }
    }
  }

  /** Predecessors of row i whose contribution to energy e of row i + 1 has been tried. */
  function Done(p: nat, u: nat, e: nat): nat
  {
    if p <= e < p + u then p + 1 else p
  }

  /** Energies of row i + 1 that have a key once `used` values 0 .. u - 1 of predecessor p are tried. */
  function Touched(p: nat, u: nat, cap: nat): nat
  {
    if p == 0 then u else p + Max(u, cap)
  }

  /** A valid point of the row-(i + 1) loops: predecessor p, next `used` value u. */
  predicate Stage(srcs: seq<Source>, i: nat, p: nat, u: nat)
    requires i < |srcs|
  {
    (p <= SumCap(srcs, i) && u <= srcs[i].capacity + 1) || (p == SumCap(srcs, i) + 1 && u == 0)
  }

  /** The cost table holds exactly rows 0 .. i, each entry its `Table` value, keyed in `Order` order. */
  ghost predicate CostsReady(srcs: seq<Source>, i: nat, dp: map<State, real>, keys: seq<State>)
    requires i <= |srcs|
  {
    && (forall st {:trigger st in dp} :: st in dp <==> st.row <= i && st.energy <= SumCap(srcs, st.row))
    && (forall st {:trigger dp[st]} :: st in dp ==> dp[st] == Table(srcs, st.row, st.energy))
    && keys == Order(srcs, i)
  }

  /** The parent map holds exactly the entries of rows 1 .. i, each its `LinkOf` value. */
  ghost predicate ParentsReady(srcs: seq<Source>, i: nat, parent: map<State, Link>)
    requires i <= |srcs|
  {
    && (forall st {:trigger st in parent} :: st in parent <==> 1 <= st.row <= i && st.energy <= SumCap(srcs, st.row))
    && (forall st {:trigger parent[st]} :: st in parent ==> parent[st] == LinkOf(srcs, st.row, st.energy))
  }

  /** Keys exist exactly for rows 0 .. i (reachable energies) and energies 0 .. top - 1 of row i + 1. */
  ghost predicate Keyed(srcs: seq<Source>, i: nat, top: nat, dp: map<State, real>, parent: map<State, Link>)
    requires i < |srcs|
  {
    && (forall st {:trigger st in dp} :: st in dp <==>
          (st.row <= i && st.energy <= SumCap(srcs, st.row)) || (st.row == i + 1 && st.energy < top))
    && (forall st {:trigger st in parent} :: st in parent <==>
          (1 <= st.row <= i && st.energy <= SumCap(srcs, st.row)) || (st.row == i + 1 && st.energy < top))
  }

  /** The entries of rows 0 .. i hold their final values. */
  ghost predicate RowsFinal(srcs: seq<Source>, i: nat, dp: map<State, real>, parent: map<State, Link>)
    requires i < |srcs|
  {
    && (forall st {:trigger dp[st]} :: st in dp && st.row <= i ==> dp[st] == Table(srcs, st.row, st.energy))
    && (forall st {:trigger parent[st]} :: st in parent && st.row <= i ==> 1 <= st.row && parent[st] == LinkOf(srcs, st.row, st.energy))
  }

  /** Every entry of row i + 1 holds the current choice of the scan for its energy. */
  ghost predicate RowPending(srcs: seq<Source>, i: nat, p: nat, u: nat, dp: map<State, real>, parent: map<State, Link>)
    requires i < |srcs| && Stage(srcs, i, p, u)
  {
    forall st {:trigger dp[st]} :: st in dp && st.row == i + 1 ==>
      && st in parent
      && parent[st] == Link(srcs[i].name, st.energy - parent[st].prevEnergy, parent[st].prevEnergy)
      && ScanFrom(srcs, i, st.energy, Done(p, u, st.energy)) == Some(Choice(dp[st], parent[st].prevEnergy))
  }

  /**
   * Row i + 1 under construction: rows 0 .. i are final, and every touched
   * energy of row i + 1 holds the scan's current choice for it.
   */
  ghost predicate Building(srcs: seq<Source>, i: nat, p: nat, u: nat,
                           dp: map<State, real>, parent: map<State, Link>, keys: seq<State>)
    requires i < |srcs| && Stage(srcs, i, p, u)
  {
    && Keyed(srcs, i, Touched(p, u, srcs[i].capacity), dp, parent)
    && RowsFinal(srcs, i, dp, parent)
    && RowPending(srcs, i, p, u, dp, parent)
    && keys == Order(srcs, i) + RowKeys(i + 1, Touched(p, u, srcs[i].capacity))
  }

  lemma {:induction false} StartRow(srcs: seq<Source>, i: nat, dp: map<State, real>, parent: map<State, Link>, keys: seq<State>)
    requires i < |srcs| && CostsReady(srcs, i, dp, keys) && ParentsReady(srcs, i, parent)
    ensures Stage(srcs, i, 0, 0) && Building(srcs, i, 0, 0, dp, parent, keys)
  {
    assert keys == Order(srcs, i) + RowKeys(i + 1, 0);
  }

  /** A predecessor that cannot reach e leaves the scan for e unchanged. */
  lemma {:induction false} ScanSkips(srcs: seq<Source>, i: nat, e: nat, p: nat)
    requires i < |srcs| && p <= SumCap(srcs, i) && !IsCandidate(srcs, i, e, p)
    ensures ScanFrom(srcs, i, e, p + 1) == ScanFrom(srcs, i, e, p)
  {
  }

  /** Moving past predecessor p changes no entry's scan: p was its last candidate or was none. */
  lemma {:induction false} PendingNext(srcs: seq<Source>, i: nat, p: nat, dp: map<State, real>, parent: map<State, Link>)
    requires i < |srcs| && p <= SumCap(srcs, i)
    requires RowPending(srcs, i, p, srcs[i].capacity + 1, dp, parent)
    ensures RowPending(srcs, i, p + 1, 0, dp, parent)
  {
    var cap := srcs[i].capacity;
    forall st {:trigger dp[st]} | st in dp && st.row == i + 1
      ensures && st in parent
              && parent[st] == Link(srcs[i].name, st.energy - parent[st].prevEnergy, parent[st].prevEnergy)
              && ScanFrom(srcs, i, st.energy, Done(p + 1, 0, st.energy)) == Some(Choice(dp[st], parent[st].prevEnergy))
    {
      if !(p <= st.energy < p + cap + 1) {
        ScanSkips(srcs, i, st.energy, p);
      }
    }
  }

  lemma {:induction false} NextPredecessor(srcs: seq<Source>, i: nat, p: nat,
                        dp: map<State, real>, parent: map<State, Link>, keys: seq<State>)
    requires i < |srcs| && p <= SumCap(srcs, i)
    requires Stage(srcs, i, p, srcs[i].capacity + 1)
    requires Building(srcs, i, p, srcs[i].capacity + 1, dp, parent, keys)
    ensures Stage(srcs, i, p + 1, 0) && Building(srcs, i, p + 1, 0, dp, parent, keys)
  {
    var cap := srcs[i].capacity;
    assert Touched(p, cap + 1, cap) == Touched(p + 1, 0, cap);
    PendingNext(srcs, i, p, dp, parent);
  }

  /** With every predecessor tried, row i + 1 has exactly its reachable energies. */
  lemma {:induction false} FinishKeys(srcs: seq<Source>, i: nat, dp: map<State, real>, parent: map<State, Link>)
    requires i < |srcs| && Keyed(srcs, i, SumCap(srcs, i + 1) + 1, dp, parent)
    ensures forall st {:trigger st in dp} :: st in dp <==> st.row <= i + 1 && st.energy <= SumCap(srcs, st.row)
    ensures forall st {:trigger st in parent} :: st in parent <==> 1 <= st.row <= i + 1 && st.energy <= SumCap(srcs, st.row)
  {
    forall st {:trigger st in dp} ensures st in dp <==> st.row <= i + 1 && st.energy <= SumCap(srcs, st.row) {
    }
    forall st {:trigger st in parent}
      ensures st in parent <==> 1 <= st.row <= i + 1 && st.energy <= SumCap(srcs, st.row)
    {
    }
  }

  /** With every predecessor tried, each entry of row i + 1 holds the scan's final choice. */
  lemma {:induction false} FinishValues(srcs: seq<Source>, i: nat, dp: map<State, real>, parent: map<State, Link>)
    requires i < |srcs| && Stage(srcs, i, SumCap(srcs, i) + 1, 0)
    requires forall st {:trigger st in dp} :: st in dp ==> st.row <= i + 1
    requires forall st {:trigger st in parent} :: st in parent ==> 1 <= st.row <= i + 1 && st in dp
    requires RowsFinal(srcs, i, dp, parent) && RowPending(srcs, i, SumCap(srcs, i) + 1, 0, dp, parent)
    ensures forall st {:trigger dp[st]} :: st in dp ==> dp[st] == Table(srcs, st.row, st.energy)
    ensures forall st {:trigger parent[st]} :: st in parent ==> parent[st] == LinkOf(srcs, st.row, st.energy)
  {
    var s := SumCap(srcs, i) + 1;
    forall st {:trigger dp[st]} | st in dp ensures dp[st] == Table(srcs, st.row, st.energy) {
      if st.row == i + 1 {
        assert Done(s, 0, st.energy) == s;
      }
    }
    forall st {:trigger parent[st]} | st in parent ensures parent[st] == LinkOf(srcs, st.row, st.energy) {
      if st.row == i + 1 {
        assert st in dp && Done(s, 0, st.energy) == s;
      }
    }
  }

  lemma {:induction false} FinishRow(srcs: seq<Source>, i: nat,
                  dp: map<State, real>, parent: map<State, Link>, keys: seq<State>)
    requires i < |srcs| && Stage(srcs, i, SumCap(srcs, i) + 1, 0)
    requires Building(srcs, i, SumCap(srcs, i) + 1, 0, dp, parent, keys)
    ensures CostsReady(srcs, i + 1, dp, keys) && ParentsReady(srcs, i + 1, parent)
  {
    assert Touched(SumCap(srcs, i) + 1, 0, srcs[i].capacity) == SumCap(srcs, i + 1) + 1;
    assert keys == Order(srcs, i + 1);
    FinishKeys(srcs, i, dp, parent);
    FinishValues(srcs, i, dp, parent);
  }

  /**
   * The table update for one candidate: it replaces entry `st` only when it is
   * strictly cheaper, and an absent entry (Python's `inf`) gains its key at
   * the end of the order.
   */
  ghost predicate Relaxed(st: State, newCost: real, link: Link,
                          dp: map<State, real>, parent: map<State, Link>, keys: seq<State>,
                          dp': map<State, real>, parent': map<State, Link>, keys': seq<State>)
  {
    if st !in dp || newCost < dp[st] then
      && dp' == dp[st := newCost]
      && parent' == parent[st := link]
      && keys' == (if st in dp then keys else keys + [st])
    else dp' == dp && parent' == parent && keys' == keys
  }

  /** Trying `used` = u grows the touched part of row i + 1 by one exactly when energy p + u was new. */
  lemma TouchedStep(p: nat, u: nat, cap: nat)
    requires u <= cap
    ensures p + u < Touched(p, u, cap) ==> Touched(p, u + 1, cap) == Touched(p, u, cap)
    ensures p + u >= Touched(p, u, cap) ==> p + u == Touched(p, u, cap) && Touched(p, u + 1, cap) == p + u + 1
  {
  }

  lemma {:induction false} RelaxKeys(srcs: seq<Source>, i: nat, p: nat, u: nat, newCost: real,
                                     dp: map<State, real>, parent: map<State, Link>, keys: seq<State>,
                                     dp': map<State, real>, parent': map<State, Link>, keys': seq<State>)
    requires i < |srcs| && u <= srcs[i].capacity
    requires Keyed(srcs, i, Touched(p, u, srcs[i].capacity), dp, parent)
    requires keys == Order(srcs, i) + RowKeys(i + 1, Touched(p, u, srcs[i].capacity))
    requires Relaxed(State(i + 1, p + u), newCost, Link(srcs[i].name, u, p), dp, parent, keys, dp', parent', keys')
    ensures Keyed(srcs, i, Touched(p, u + 1, srcs[i].capacity), dp', parent')
    ensures keys' == Order(srcs, i) + RowKeys(i + 1, Touched(p, u + 1, srcs[i].capacity))
  {
    var cap, st := srcs[i].capacity, State(i + 1, p + u);
    var top, top' := Touched(p, u, cap), Touched(p, u + 1, cap);
    TouchedStep(p, u, cap);
    assert st in dp <==> p + u < top;
    assert RowKeys(i + 1, top') == if st in dp then RowKeys(i + 1, top) else RowKeys(i + 1, top) + [st];
    forall x {:trigger x in dp'} ensures x in dp' <==>
      (x.row <= i && x.energy <= SumCap(srcs, x.row)) || (x.row == i + 1 && x.energy < top')
    {
    }
    forall x {:trigger x in parent'} ensures x in parent' <==>
      (1 <= x.row <= i && x.energy <= SumCap(srcs, x.row)) || (x.row == i + 1 && x.energy < top')
    {
    }
  }

  /** Trying predecessor p for energy p + u: the candidate replaces the scan's choice only when strictly cheaper. */
  lemma ScanStep(srcs: seq<Source>, i: nat, p: nat, u: nat)
    requires i < |srcs| && p <= SumCap(srcs, i) && u <= srcs[i].capacity
    ensures var best := ScanFrom(srcs, i, p + u, p);
            var c := Table(srcs, i, p) + StepCost(srcs[i], u);
            ScanFrom(srcs, i, p + u, p + 1) == if best.None? || c < best.value.cost then Some(Choice(c, p)) else best
  {
  }

  /** The entry a relaxation targets holds the scan's choice once predecessor p is tried. */
  lemma {:induction false} RelaxHit(srcs: seq<Source>, i: nat, p: nat, u: nat, newCost: real,
                                    dp: map<State, real>, parent: map<State, Link>, keys: seq<State>,
                                    dp': map<State, real>, parent': map<State, Link>, keys': seq<State>)
    requires i < |srcs| && p <= SumCap(srcs, i) && u <= srcs[i].capacity
    requires State(i + 1, p + u) !in dp ==> ScanFrom(srcs, i, p + u, p).None?
    requires State(i + 1, p + u) in dp ==>
               && State(i + 1, p + u) in parent
               && parent[State(i + 1, p + u)] == Link(srcs[i].name, p + u - parent[State(i + 1, p + u)].prevEnergy, parent[State(i + 1, p + u)].prevEnergy)
               && ScanFrom(srcs, i, p + u, p) == Some(Choice(dp[State(i + 1, p + u)], parent[State(i + 1, p + u)].prevEnergy))
    requires newCost == Table(srcs, i, p) + StepCost(srcs[i], u)
    requires Relaxed(State(i + 1, p + u), newCost, Link(srcs[i].name, u, p), dp, parent, keys, dp', parent', keys')
    ensures State(i + 1, p + u) in dp' && State(i + 1, p + u) in parent'
    ensures parent'[State(i + 1, p + u)] ==
              Link(srcs[i].name, p + u - parent'[State(i + 1, p + u)].prevEnergy, parent'[State(i + 1, p + u)].prevEnergy)
    ensures ScanFrom(srcs, i, p + u, p + 1) == Some(Choice(dp'[State(i + 1, p + u)], parent'[State(i + 1, p + u)].prevEnergy))
  {
    ScanStep(srcs, i, p, u);
  }

  /** Entries other than the one a relaxation targets keep their value, parent and scan position. */
  lemma {:induction false} RelaxOthers(srcs: seq<Source>, i: nat, p: nat, u: nat, newCost: real,
                                       dp: map<State, real>, parent: map<State, Link>, keys: seq<State>,
                                       dp': map<State, real>, parent': map<State, Link>, keys': seq<State>)
    requires i < |srcs| && p <= SumCap(srcs, i) && u <= srcs[i].capacity
    requires RowPending(srcs, i, p, u, dp, parent)
    requires Relaxed(State(i + 1, p + u), newCost, Link(srcs[i].name, u, p), dp, parent, keys, dp', parent', keys')
    ensures forall x {:trigger dp'[x]} :: x in dp' && x.row == i + 1 && x != State(i + 1, p + u) ==>
              && x in parent'
              && parent'[x] == Link(srcs[i].name, x.energy - parent'[x].prevEnergy, parent'[x].prevEnergy)
              && ScanFrom(srcs, i, x.energy, Done(p, u + 1, x.energy)) == Some(Choice(dp'[x], parent'[x].prevEnergy))
  {
    forall x {:trigger dp'[x]} | x in dp' && x.row == i + 1 && x != State(i + 1, p + u)
      ensures && x in parent'
              && parent'[x] == Link(srcs[i].name, x.energy - parent'[x].prevEnergy, parent'[x].prevEnergy)
              && ScanFrom(srcs, i, x.energy, Done(p, u + 1, x.energy)) == Some(Choice(dp'[x], parent'[x].prevEnergy))
    {
      assert x in dp && dp'[x] == dp[x];
      assert Done(p, u + 1, x.energy) == Done(p, u, x.energy);
    }
  }

  lemma {:induction false} RelaxPending(srcs: seq<Source>, i: nat, p: nat, u: nat, newCost: real,
                                        dp: map<State, real>, parent: map<State, Link>, keys: seq<State>,
                                        dp': map<State, real>, parent': map<State, Link>, keys': seq<State>)
    requires i < |srcs| && p <= SumCap(srcs, i) && u <= srcs[i].capacity
    requires Keyed(srcs, i, Touched(p, u, srcs[i].capacity), dp, parent)
    requires RowPending(srcs, i, p, u, dp, parent)
    requires newCost == Table(srcs, i, p) + StepCost(srcs[i], u)
    requires Relaxed(State(i + 1, p + u), newCost, Link(srcs[i].name, u, p), dp, parent, keys, dp', parent', keys')
    ensures Stage(srcs, i, p, u + 1) && RowPending(srcs, i, p, u + 1, dp', parent')
  {
    var cap, e := srcs[i].capacity, p + u;
    var st := State(i + 1, e);
    TouchedStep(p, u, cap);
    ScanFacts(srcs, i, e, p);
    assert st in dp <==> ScanFrom(srcs, i, e, p).Some?;
    assert Done(p, u, e) == p && Done(p, u + 1, e) == p + 1;
    RelaxHit(srcs, i, p, u, newCost, dp, parent, keys, dp', parent', keys');
    RelaxOthers(srcs, i, p, u, newCost, dp, parent, keys, dp', parent', keys');
  }

  lemma {:induction false} RelaxStep(srcs: seq<Source>, i: nat, p: nat, u: nat, newCost: real,
                                     dp: map<State, real>, parent: map<State, Link>, keys: seq<State>,
                                     dp': map<State, real>, parent': map<State, Link>, keys': seq<State>)
    requires i < |srcs| && p <= SumCap(srcs, i) && u <= srcs[i].capacity
    requires Stage(srcs, i, p, u) && Building(srcs, i, p, u, dp, parent, keys)
    requires newCost == Table(srcs, i, p) + StepCost(srcs[i], u)
    requires Relaxed(State(i + 1, p + u), newCost, Link(srcs[i].name, u, p), dp, parent, keys, dp', parent', keys')
    ensures Stage(srcs, i, p, u + 1) && Building(srcs, i, p, u + 1, dp', parent', keys')
  {
    RelaxKeys(srcs, i, p, u, newCost, dp, parent, keys, dp', parent', keys');
    RelaxPending(srcs, i, p, u, newCost, dp, parent, keys, dp', parent', keys');
    assert RowsFinal(srcs, i, dp', parent');
  }

  /**
   * `if new_cost < dp[state]: dp[state] = new_cost; parent[state] = link`,
   * where reading an absent entry of the `defaultdict` yields `inf` and inserts
   * its key at the end of the order.
   */
  method Improve(state: State, newCost: real, link: Link,
                 dp0: map<State, real>, parent0: map<State, Link>, keys0: seq<State>)
    returns (dp: map<State, real>, parent: map<State, Link>, keys: seq<State>)
    ensures Relaxed(state, newCost, link, dp0, parent0, keys0, dp, parent, keys)
  {
    dp, parent, keys := dp0, parent0, keys0;
    if state !in dp || newCost < dp[state] {
      if state !in dp {
        keys := keys + [state];
      }
      dp := dp[state := newCost];
      parent := parent[state := link];
    }
  }

  /**
   * One pass of the innermost loop body: draws `used` units of source i on top
   * of predecessor energy p and offers the result to entry (i + 1, p + used).
   */
  method TryUsed(srcs: seq<Source>, i: nat, p: nat, prevCost: real, used: nat,
                 dp0: map<State, real>, parent0: map<State, Link>, keys0: seq<State>)
    returns (dp: map<State, real>, parent: map<State, Link>, keys: seq<State>)
    requires i < |srcs| && p <= SumCap(srcs, i) && prevCost == Table(srcs, i, p)
    requires used <= srcs[i].capacity
    requires Stage(srcs, i, p, used) && Building(srcs, i, p, used, dp0, parent0, keys0)
    ensures Stage(srcs, i, p, used + 1) && Building(srcs, i, p, used + 1, dp, parent, keys)
  {
    var newEnergy := p + used;
    // prev_cost + used * cost + penalty, the penalty applying to "Diesel" when used > 0
    var newCost := prevCost + StepCost(srcs[i], used);
    var state := State(i + 1, newEnergy);
    dp, parent, keys := Improve(state, newCost, Link(srcs[i].name, used, p), dp0, parent0, keys0);
    RelaxStep(srcs, i, p, used, newCost, dp0, parent0, keys0, dp, parent, keys);
  }

  /**
   * The innermost loop: tries every `used` value of source i on predecessor
   * energy p, in ascending order.
   */
  method RelaxFrom(srcs: seq<Source>, i: nat, p: nat, prevCost: real,
                   dp0: map<State, real>, parent0: map<State, Link>, keys0: seq<State>)
    returns (dp: map<State, real>, parent: map<State, Link>, keys: seq<State>)
    requires i < |srcs| && p <= SumCap(srcs, i) && prevCost == Table(srcs, i, p)
    requires Stage(srcs, i, p, 0) && Building(srcs, i, p, 0, dp0, parent0, keys0)
    ensures Stage(srcs, i, p, srcs[i].capacity + 1)
    ensures Building(srcs, i, p, srcs[i].capacity + 1, dp, parent, keys)
  {
    dp, parent, keys := dp0, parent0, keys0;
    for used := 0 to srcs[i].capacity + 1
      invariant Stage(srcs, i, p, used) && Building(srcs, i, p, used, dp, parent, keys)
    {
      dp, parent, keys := TryUsed(srcs, i, p, prevCost, used, dp, parent, keys);
    }
  }

  /**
   * One source's pass: iterates over a snapshot of the table's items, skips
   * the entries of other rows, and relaxes from every entry of row i.
   */
  method ExtendRow(srcs: seq<Source>, i: nat,
                   dp0: map<State, real>, parent0: map<State, Link>, keys0: seq<State>)
    returns (dp: map<State, real>, parent: map<State, Link>, keys: seq<State>)
    requires i < |srcs| && CostsReady(srcs, i, dp0, keys0) && ParentsReady(srcs, i, parent0)
    ensures CostsReady(srcs, i + 1, dp, keys) && ParentsReady(srcs, i + 1, parent)
  {
    dp, parent, keys := dp0, parent0, keys0;
    // list(dp.items()): the keys in insertion order, with the values at that moment
    var items, values := keys, dp;
    OrderLayout(srcs, i);
    ghost var off := |items| - SumCap(srcs, i) - 1;
    StartRow(srcs, i, dp, parent, keys);
    for idx := 0 to |items|
      invariant Stage(srcs, i, Processed(idx, off), 0)
      invariant Building(srcs, i, Processed(idx, off), 0, dp, parent, keys)
    {
      var prev := items[idx];
      var prevCost := values[prev];
      if prev.row != i {
        continue;
      }
      dp, parent, keys := RelaxFrom(srcs, i, prev.energy, prevCost, dp, parent, keys);
      NextPredecessor(srcs, i, prev.energy, dp, parent, keys);
    }
    FinishRow(srcs, i, dp, parent, keys);
  }

  /** The table construction: the base state (0, 0) with cost 0, then one pass per source. */
  method BuildTable(srcs: seq<Source>) returns (dp: map<State, real>, parent: map<State, Link>, keys: seq<State>)
    ensures CostsReady(srcs, |srcs|, dp, keys) && ParentsReady(srcs, |srcs|, parent)
  {
    dp := map[State(0, 0) := 0.0];
    parent := map[];
    keys := [State(0, 0)];
    for i := 0 to |srcs|
      invariant CostsReady(srcs, i, dp, keys) && ParentsReady(srcs, i, parent)
    {
      dp, parent, keys := ExtendRow(srcs, i, dp, parent, keys);
    }
  }

  /**
   * The selection scan over the table's items in insertion order: among the
   * entries of the last row whose energy is in [lo, hi], keeps the first one
   * of least cost. `best` is the energy of `best_state`; `bestCost` is
   * meaningful only when `best` is present (Python's `inf` otherwise).
   */
  method SelectBest(srcs: seq<Source>, lo: int, hi: int, dp: map<State, real>, keys: seq<State>)
    returns (best: Option<nat>, bestCost: real)
    requires CostsReady(srcs, |srcs|, dp, keys)
    ensures best == SelectFrom(srcs, lo, hi, SumCap(srcs, |srcs|) + 1)
    ensures best.Some? ==> bestCost == Table(srcs, |srcs|, best.value)
  {
    best, bestCost := None, 0.0;
    OrderLayout(srcs, |srcs|);
    ghost var off := |keys| - SumCap(srcs, |srcs|) - 1;
    for idx := 0 to |keys|
      invariant best == SelectFrom(srcs, lo, hi, Processed(idx, off))
      invariant best.Some? ==> bestCost == Table(srcs, |srcs|, best.value)
    {
      var st := keys[idx];
      var cost := dp[st];
      if st.row == |srcs| && lo <= st.energy <= hi {
        if best.None? || cost < bestCost {
          bestCost := cost;
          best := Some(st.energy);
        }
      }
    }
  }

  /** The parent entry of (i, energy) names source i - 1, the witness's units for it, and the rest of the witness. */
  lemma {:induction false} BacktrackStep(srcs: seq<Source>, w: seq<nat>, i: nat, energy: nat)
    requires 1 <= i <= |w| && i <= |srcs| && energy <= SumCap(srcs, i)
    requires Witness(srcs, i, energy) == w[..i]
    ensures LinkOf(srcs, i, energy).src == srcs[i - 1].name && LinkOf(srcs, i, energy).used == w[i - 1]
    ensures LinkOf(srcs, i, energy).prevEnergy <= SumCap(srcs, i - 1)
    ensures Witness(srcs, i - 1, LinkOf(srcs, i, energy).prevEnergy) == w[..i - 1]
  {
    ScanFacts(srcs, i - 1, energy, SumCap(srcs, i - 1) + 1);
    var c := ScanFrom(srcs, i - 1, energy, SumCap(srcs, i - 1) + 1).value;
    assert Witness(srcs, i, energy) == Witness(srcs, i - 1, c.prev) + [energy - c.prev];
    assert w[..i][..i - 1] == w[..i - 1];
  }

  /**
   * The backtrack: from (len(sources), e0) follows the parent entries down to
   * row 0, adding each entry's units to its source's total. It takes exactly
   * one step per source and ends at energy 0.
   */
  method Backtrack(srcs: seq<Source>, parent: map<State, Link>, e0: nat)
    returns (allocation: map<string, int>, ghost steps: nat, ghost endEnergy: nat)
    requires ParentsReady(srcs, |srcs|, parent) && e0 <= SumCap(srcs, |srcs|)
    ensures allocation == Tally(srcs, Witness(srcs, |srcs|, e0), 0)
    ensures steps == |srcs| && endEnergy == 0
  {
    ghost var w := Witness(srcs, |srcs|, e0);
    allocation := map[];
    var i: nat, energy: nat := |srcs|, e0;
    steps := 0;
    while i > 0
      invariant i <= |srcs| && energy <= SumCap(srcs, i) && steps == |srcs| - i
      invariant Witness(srcs, i, energy) == w[..i]
      invariant allocation == Tally(srcs, w, i)
      decreases i
    {
      var link := parent[State(i, energy)];
      BacktrackStep(srcs, w, i, energy);
      allocation := allocation[link.src := (if link.src in allocation then allocation[link.src] else 0) + link.used];
      energy := link.prevEnergy;
      i := i - 1;
      steps := steps + 1;
    }
    endEnergy := energy;
  }

  /**
   * The table, the selection and the backtrack over the ordered sources:
   * the chosen terminal energy, its cost and the per-source totals.
   */
  method Solve(sources: seq<Source>, lo: int, hi: int)
    returns (best: Option<nat>, bestCost: real, allocation: map<string, int>)
    ensures best == SelectFrom(sources, lo, hi, SumCap(sources, |sources|) + 1)
    ensures best.Some? ==> lo <= best.value <= hi && best.value <= SumCap(sources, |sources|)
    ensures best.Some? ==> bestCost == Table(sources, |sources|, best.value)
    ensures best.Some? ==> allocation == Tally(sources, Witness(sources, |sources|, best.value), 0)
  {
    var dp, parent, keys := BuildTable(sources);
    best, bestCost := SelectBest(sources, lo, hi, dp, keys);
    allocation := map[];
    if best.Some? {
      SelectFacts(sources, lo, hi, SumCap(sources, |sources|) + 1);
      ghost var steps, endEnergy;
      allocation, steps, endEnergy := Backtrack(sources, parent, best.value);
    }
  }

  /**
   * `allocate_energy_dp(hour, demand_total)` over `catalog`: the sources
   * available in the hour, cheapest first; the demand band; the table; the
   * selection; and the backtrack, or `(None, None)` when nothing is in the band.
   */
  method AllocateEnergyDp(catalog: seq<Source>, hour: int, demandTotal: nat) returns (r: Outcome)
    ensures r == Allocate(catalog, hour, demandTotal)
  {
    var sources := ProcessingOrder(catalog, hour);
    var minRequired := MinRequired(demandTotal);
    var maxRequired := MaxRequired(demandTotal);
    var best, bestCost, allocation := Solve(sources, minRequired, maxRequired);
    assert best == ChosenEnergy(sources, demandTotal);
    if best.None? {
      return Infeasible;
    }
    r := Allocated(allocation, bestCost);
    assert r == AllocateOrdered(sources, demandTotal);
  }
}
