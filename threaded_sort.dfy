/**
 * The multithreaded merge sort: two workers each sort one half of the shared
 * array `arr` in place, and a third merges the two sorted halves into the
 * shared array `temp`. The workers are modelled as sequential methods over
 * the two arrays, run in the order the program's `join` calls enforce.
 */
module ThreadedSort {

  predicate Sorted(s: seq<int>)
  {
    forall a, b :: 0 <= a < b < |s| ==> s[a] <= s[b]
  }

  /** Positions lo .. hi - 1 of v are in ascending order. */
  predicate SortedRange(v: seq<int>, lo: nat, hi: nat)
    requires lo <= hi <= |v|
  {
    forall a, b :: lo <= a < b < hi ==> v[a] <= v[b]
  }

  lemma SortedSlice(v: seq<int>, lo: nat, hi: nat)
    requires lo <= hi <= |v|
    ensures Sorted(v[lo..hi]) <==> SortedRange(v, lo, hi)
  {
    if Sorted(v[lo..hi]) {
      forall a, b | lo <= a < b < hi ensures v[a] <= v[b] {
        assert v[a] == v[lo..hi][a - lo] && v[b] == v[lo..hi][b - lo];
      }
    }
  }

  // ---------------------------------------------------------------------------
  // `sorted(...)`: the ascending rearrangement of a list
  // ---------------------------------------------------------------------------

  /** A sequence stays ascending when an element no larger than its first is put in front. */
  lemma ConsSorted(x: int, s: seq<int>)
    requires Sorted(s) && (s == [] || x <= s[0])
    ensures Sorted([x] + s)
  {
    if s != [] {
      forall a, b | 0 <= a < b < |s| + 1 ensures ([x] + s)[a] <= ([x] + s)[b] {
        if a > 0 {
          assert ([x] + s)[a] == s[a - 1];
        } else {
          assert x <= s[0] <= s[b - 1];
        }
      }
    }
  }

  /** x placed before the first element of s that is not smaller than it. */
  function Insert(x: int, s: seq<int>): (r: seq<int>)
    ensures |r| == |s| + 1 && multiset(r) == multiset(s) + multiset{x}
    ensures r[0] == x || (s != [] && r[0] == s[0])
  {
    if s == [] then [x]
    else if x <= s[0] then [x] + s
    else
      assert s == [s[0]] + s[1..];
      [s[0]] + Insert(x, s[1..])
  }

  /** Inserting into an ascending sequence keeps it ascending. */
  lemma {:induction false} InsertSorted(x: int, s: seq<int>)
    requires Sorted(s)
    ensures Sorted(Insert(x, s))
  {
    if s != [] {
      if x <= s[0] {
        ConsSorted(x, s);
      } else {
        assert Sorted(s[1..]);
        assert |s| > 1 ==> s[0] <= s[1];
        InsertSorted(x, s[1..]);
        ConsSorted(s[0], Insert(x, s[1..]));
      }
    }
  }

  /** A reference definition of `sorted`: insertion of each element into the sorted rest. */
  function SortSeq(s: seq<int>): (r: seq<int>)
    ensures |r| == |s| && Sorted(r) && multiset(r) == multiset(s)
  {
    if s == [] then []
    else
      assert s == [s[0]] + s[1..];
      InsertSorted(s[0], SortSeq(s[1..]));
      Insert(s[0], SortSeq(s[1..]))
  }

  /** The first element of an ascending sequence is at most each of its elements. */
  lemma HeadIsLeast(s: seq<int>, x: int)
    requires Sorted(s) && x in s
    ensures s[0] <= x
  {
    var p :| 0 <= p < |s| && s[p] == x;
  }

  /** Dropping the first element of a non-empty sequence removes one occurrence of it. */
  lemma TailMultiset(s: seq<int>)
    requires s != []
    ensures s == [s[0]] + s[1..]
    ensures Sorted(s) ==> Sorted(s[1..])
    ensures multiset(s[1..]) == multiset(s) - multiset{s[0]}
  {
    assert s == [s[0]] + s[1..];
  }

  /**
   * Two sorted lists with the same elements are equal: the ascending
   * rearrangement is unique, so any correct sort produces `SortSeq`'s result.
   */
  lemma {:induction false} SortedUnique(a: seq<int>, b: seq<int>)
    requires Sorted(a) && Sorted(b) && multiset(a) == multiset(b)
    ensures a == b
    decreases |a|
  {
    assert |a| == |multiset(a)| == |multiset(b)| == |b|;
    if a != [] {
      assert a[0] in multiset(b) && b[0] in multiset(a);
      HeadIsLeast(b, a[0]);
      HeadIsLeast(a, b[0]);
      assert a[0] == b[0];
      TailMultiset(a);
      TailMultiset(b);
      SortedUnique(a[1..], b[1..]);
    }
  }

  /** An array whose cells outside [lo, lo + |mid|) are as in `before` and inside hold `mid`. */
  lemma Spliced(t: seq<int>, before: seq<int>, lo: nat, mid: seq<int>)
    requires |t| == |before| && lo + |mid| <= |t|
    requires forall p :: 0 <= p < |t| ==> t[p] == if lo <= p < lo + |mid| then mid[p - lo] else before[p]
    ensures t == before[..lo] + mid + before[lo + |mid|..]
  {
    var whole := before[..lo] + mid + before[lo + |mid|..];
    forall p | 0 <= p < |t| ensures t[p] == whole[p] {
      if p < lo {
        assert whole[p] == before[..lo][p];
      } else if p < lo + |mid| {
        assert whole[p] == mid[p - lo];
      } else {
        assert whole[p] == before[lo + |mid|..][p - lo - |mid|];
      }
    }
  }

  /** The slice assignment `arr[start:start + len(src)] = src`, element by element. */
  method AssignSlice(arr: array<int>, start: nat, src: seq<int>)
    requires start + |src| <= arr.Length
    modifies arr
    ensures arr[..] == old(arr[..start]) + src + old(arr[start + |src|..])
  {
    ghost var before := arr[..];
    for t := 0 to |src|
      invariant forall p :: 0 <= p < arr.Length ==> arr[p] == if start <= p < start + t then src[p - start] else before[p]
    {
      arr[start + t] := src[t];
    }
    Spliced(arr[..], before, start, src);
  }

  /**
   * `sort_subarray(start, end)`: `arr[start:end] = sorted(arr[start:end])`;
   * the slice is rewritten in ascending order, the rest of `arr` untouched.
   */
  method SortSubarray(arr: array<int>, start: nat, end: nat)
    requires start <= end <= arr.Length
    modifies arr
    ensures arr[..] == old(arr[..start]) + SortSeq(old(arr[start..end])) + old(arr[end..])
  {
    var sorted := SortSeq(arr[start..end]);
    AssignSlice(arr, start, sorted);
  }

  // ---------------------------------------------------------------------------
  // `merge_subarrays`: the order in which the merge takes elements
  // ---------------------------------------------------------------------------

  /**
   * The positions of v that the merge copies, in order, when the left run
   * continues at i (up to mid) and the right run at j (up to end): while both
   * runs have elements the smaller head goes first, the left one on a tie;
   * then the rest of the left run; then the rest of the right run.
   */
  function MergeOrder(v: seq<int>, i: nat, mid: nat, j: nat, end: nat): (o: seq<nat>)
    requires i <= mid <= j <= end <= |v|
    ensures |o| == (mid - i) + (end - j)
    decreases (mid - i) + (end - j)
  {
    if i < mid && j < end then
      if v[i] <= v[j] then [i] + MergeOrder(v, i + 1, mid, j, end)
      else [j] + MergeOrder(v, i, mid, j + 1, end)
    else if i < mid then [i] + MergeOrder(v, i + 1, mid, j, end)
    else if j < end then [j] + MergeOrder(v, i, mid, j + 1, end)
    else []
  }

  /** The values the merge writes once its heads have reached i and j, in the order it writes them. */
  function MergedFrom(v: seq<int>, i: nat, mid: nat, j: nat, end: nat): (r: seq<int>)
    requires i <= mid <= j <= end <= |v|
    ensures |r| == (mid - i) + (end - j)
    decreases (mid - i) + (end - j)
  {
    if i < mid && j < end then
      if v[i] <= v[j] then [v[i]] + MergedFrom(v, i + 1, mid, j, end)
      else [v[j]] + MergedFrom(v, i, mid, j + 1, end)
    else if i < mid then [v[i]] + MergedFrom(v, i + 1, mid, j, end)
    else if j < end then [v[j]] + MergedFrom(v, i, mid, j + 1, end)
    else []
  }

  /** What `merge_subarrays(start, mid, end)` writes to `temp[start:end]`. */
  function Merged(v: seq<int>, start: nat, mid: nat, end: nat): seq<int>
    requires start <= mid <= end <= |v|
  {
    MergedFrom(v, start, mid, mid, end)
  }

  /**
   * The p-th value the merge writes is the value at the p-th position it
   * takes, and that position lies in the rest of one of the two runs.
   */
  lemma {:induction false} MergeTracks(v: seq<int>, i: nat, mid: nat, j: nat, end: nat)
    requires i <= mid <= j <= end <= |v|
    ensures forall p :: 0 <= p < |MergeOrder(v, i, mid, j, end)| ==>
              (i <= MergeOrder(v, i, mid, j, end)[p] < mid || j <= MergeOrder(v, i, mid, j, end)[p] < end) &&
              MergedFrom(v, i, mid, j, end)[p] == v[MergeOrder(v, i, mid, j, end)[p]]
    decreases (mid - i) + (end - j)
  {
    var o := MergeOrder(v, i, mid, j, end);
    var w := MergedFrom(v, i, mid, j, end);
    if i < mid && (j == end || v[i] <= v[j]) {
      MergeTracks(v, i + 1, mid, j, end);
      var rest := MergeOrder(v, i + 1, mid, j, end);
      var w' := MergedFrom(v, i + 1, mid, j, end);
      assert o == [i] + rest && w == [v[i]] + w';
      forall p | 0 < p < |o| ensures (i <= o[p] < mid || j <= o[p] < end) && w[p] == v[o[p]] {
        assert o[p] == rest[p - 1] && w[p] == w'[p - 1];
      }
    } else if j < end {
      MergeTracks(v, i, mid, j + 1, end);
      var rest := MergeOrder(v, i, mid, j + 1, end);
      var w' := MergedFrom(v, i, mid, j + 1, end);
      assert o == [j] + rest && w == [v[j]] + w';
      forall p | 0 < p < |o| ensures (i <= o[p] < mid || j <= o[p] < end) && w[p] == v[o[p]] {
        assert o[p] == rest[p - 1] && w[p] == w'[p - 1];
      }
    }
  }

  /** Taking the left head: the merge continues from i + 1. */
  lemma TakeLeft(v: seq<int>, i: nat, mid: nat, j: nat, end: nat)
    requires i < mid <= j <= end <= |v| && (j == end || v[i] <= v[j])
    ensures MergedFrom(v, i, mid, j, end) == [v[i]] + MergedFrom(v, i + 1, mid, j, end)
  {
  }

  /** Taking the right head: the merge continues from j + 1. */
  lemma TakeRight(v: seq<int>, i: nat, mid: nat, j: nat, end: nat)
    requires i <= mid <= j < end <= |v| && (i == mid || v[i] > v[j])
    ensures MergedFrom(v, i, mid, j, end) == [v[j]] + MergedFrom(v, i, mid, j + 1, end)
  {
  }

  /** Where the rest of the merge output is w[m..] and the left head i is taken, w[m] is v[i]. */
  lemma NextLeft(v: seq<int>, i: nat, mid: nat, j: nat, end: nat, w: seq<int>, m: nat)
    requires i < mid <= j <= end <= |v| && (j == end || v[i] <= v[j])
    requires m <= |w| && MergedFrom(v, i, mid, j, end) == w[m..]
    ensures m < |w| && w[m] == v[i] && MergedFrom(v, i + 1, mid, j, end) == w[m + 1..]
  {
    assert w[m..][0] == v[i];
    assert w[m + 1..] == w[m..][1..];
  }

  /** Where the rest of the merge output is w[m..] and the right head j is taken, w[m] is v[j]. */
  lemma NextRight(v: seq<int>, i: nat, mid: nat, j: nat, end: nat, w: seq<int>, m: nat)
    requires i <= mid <= j < end <= |v| && (i == mid || v[i] > v[j])
    requires m <= |w| && MergedFrom(v, i, mid, j, end) == w[m..]
    ensures m < |w| && w[m] == v[j] && MergedFrom(v, i, mid, j + 1, end) == w[m + 1..]
  {
    assert w[m..][0] == v[j];
    assert w[m + 1..] == w[m..][1..];
  }

  lemma ConsMultiset(v: seq<int>, i: nat, hi: nat)
    requires i < hi <= |v|
    ensures multiset(v[i..hi]) == multiset{v[i]} + multiset(v[i + 1..hi])
  {
    assert v[i..hi] == [v[i]] + v[i + 1..hi];
  }

  /** The merge takes every element of both runs exactly once. */
  lemma {:induction false} MergePermutes(v: seq<int>, i: nat, mid: nat, j: nat, end: nat)
    requires i <= mid <= j <= end <= |v|
    ensures multiset(MergedFrom(v, i, mid, j, end)) == multiset(v[i..mid]) + multiset(v[j..end])
    decreases (mid - i) + (end - j)
  {
    if i < mid && (j == end || v[i] <= v[j]) {
      MergePermutes(v, i + 1, mid, j, end);
      TakeLeft(v, i, mid, j, end);
      ConsMultiset(v, i, mid);
    } else if j < end {
      MergePermutes(v, i, mid, j + 1, end);
      TakeRight(v, i, mid, j, end);
      ConsMultiset(v, j, end);
    }
  }

  /** Two ascending runs merge into an ascending sequence. */
  lemma {:induction false} MergeAscends(v: seq<int>, i: nat, mid: nat, j: nat, end: nat)
    requires i <= mid <= j <= end <= |v| && SortedRange(v, i, mid) && SortedRange(v, j, end)
    ensures Sorted(MergedFrom(v, i, mid, j, end))
    decreases (mid - i) + (end - j)
  {
    if i < mid && (j == end || v[i] <= v[j]) {
      MergeAscends(v, i + 1, mid, j, end);
      ConsSorted(v[i], MergedFrom(v, i + 1, mid, j, end));
    } else if j < end {
      MergeAscends(v, i, mid, j + 1, end);
      ConsSorted(v[j], MergedFrom(v, i, mid, j + 1, end));
    }
  }

  /** Of two equal values in w, the earlier one comes from the earlier position in o. */
  predicate Stable(o: seq<nat>, w: seq<int>)
    requires |o| == |w|
  {
    forall p, q :: 0 <= p < q < |o| ==> (w[p] == w[q] ==> o[p] < o[q])
  }

  /** Putting value x from position h in front keeps stability when every later copy of x comes from after h. */
  lemma ConsStable(h: nat, rest: seq<nat>, x: int, w: seq<int>)
    requires |rest| == |w| && Stable(rest, w)
    requires forall q :: 0 <= q < |rest| ==> (w[q] == x ==> h < rest[q])
    ensures Stable([h] + rest, [x] + w)
  {
    var o, w' := [h] + rest, [x] + w;
    forall p, q | 0 <= p < q < |o| ensures w'[p] == w'[q] ==> o[p] < o[q] {
      assert o[q] == rest[q - 1] && w'[q] == w[q - 1];
      if p > 0 {
        assert o[p] == rest[p - 1] && w'[p] == w[p - 1];
      }
    }
  }

  /** Taking the left head keeps the merge stable: every later position is past i. */
  lemma StableTakeLeft(v: seq<int>, i: nat, mid: nat, j: nat, end: nat)
    requires i < mid <= j <= end <= |v| && (j == end || v[i] <= v[j])
    requires Stable(MergeOrder(v, i + 1, mid, j, end), MergedFrom(v, i + 1, mid, j, end))
    ensures Stable(MergeOrder(v, i, mid, j, end), MergedFrom(v, i, mid, j, end))
  {
    MergeTracks(v, i + 1, mid, j, end);
    TakeLeft(v, i, mid, j, end);
    ConsStable(i, MergeOrder(v, i + 1, mid, j, end), v[i], MergedFrom(v, i + 1, mid, j, end));
  }

  /**
   * Taking the right head keeps the merge stable: a later copy of v[j] cannot
   * come from the left run, whose values from i on all exceed v[j].
   */
  lemma StableTakeRight(v: seq<int>, i: nat, mid: nat, j: nat, end: nat)
    requires i <= mid <= j < end <= |v| && (i == mid || v[i] > v[j]) && SortedRange(v, i, mid)
    requires Stable(MergeOrder(v, i, mid, j + 1, end), MergedFrom(v, i, mid, j + 1, end))
    ensures Stable(MergeOrder(v, i, mid, j, end), MergedFrom(v, i, mid, j, end))
  {
    MergeTracks(v, i, mid, j + 1, end);
    TakeRight(v, i, mid, j, end);
    var rest, w := MergeOrder(v, i, mid, j + 1, end), MergedFrom(v, i, mid, j + 1, end);
    forall q | 0 <= q < |rest| ensures w[q] == v[j] ==> j < rest[q] {
      if rest[q] < mid {
        assert v[j] < v[i] <= v[rest[q]] == w[q];
      }
    }
    ConsStable(j, rest, v[j], w);
  }

  /**
   * The merge is stable: of two equal values it writes, the one from the
   * earlier position of `arr` comes first. It relies on the left run being
   * ascending, as the program's halves are when the merge runs.
   */
  lemma {:induction false} MergeStable(v: seq<int>, i: nat, mid: nat, j: nat, end: nat)
    requires i <= mid <= j <= end <= |v| && SortedRange(v, i, mid)
    ensures Stable(MergeOrder(v, i, mid, j, end), MergedFrom(v, i, mid, j, end))
    decreases (mid - i) + (end - j)
  {
    if i < mid && (j == end || v[i] <= v[j]) {
      MergeStable(v, i + 1, mid, j, end);
      StableTakeLeft(v, i, mid, j, end);
    } else if j < end {
      MergeStable(v, i, mid, j + 1, end);
      StableTakeRight(v, i, mid, j, end);
    }
  }

  /**
   * Cells of `temp` before k hold the first k - start merged values, the
   * others their values `before` the merge.
   */
  ghost predicate WrittenUpTo(temp: array<int>, start: nat, k: nat, w: seq<int>, before: seq<int>)
    requires start <= k <= start + |w| && |before| == temp.Length
    reads temp
  {
    forall p {:trigger temp[p]} :: 0 <= p < temp.Length ==> temp[p] == if start <= p < k then w[p - start] else before[p]
  }

  /** `temp[k] = arr[i]; i += 1; k += 1`, when the left head is the next value the merge writes. */
  method PutLeft(arr: array<int>, temp: array<int>, start: nat, mid: nat, end: nat, i: nat, j: nat, k: nat,
                 ghost v: seq<int>, ghost w: seq<int>, ghost before: seq<int>) returns (i': nat, k': nat)
    requires start <= i < mid <= j <= end <= |v| && end <= temp.Length && i < arr.Length && arr[i] == v[i]
    requires k == start + (i - start) + (j - mid) && (j == end || v[i] <= v[j])
    requires k - start <= |w| && MergedFrom(v, i, mid, j, end) == w[k - start..]
    requires |before| == temp.Length && WrittenUpTo(temp, start, k, w, before)
    modifies temp
    ensures i' == i + 1 && k' == k + 1 && k' - start <= |w|
    ensures MergedFrom(v, i', mid, j, end) == w[k' - start..]
    ensures WrittenUpTo(temp, start, k', w, before)
  {
    NextLeft(v, i, mid, j, end, w, k - start);
    temp[k] := arr[i];
    i', k' := i + 1, k + 1;
  }

  /** `temp[k] = arr[j]; j += 1; k += 1`, when the right head is the next value the merge writes. */
  method PutRight(arr: array<int>, temp: array<int>, start: nat, mid: nat, end: nat, i: nat, j: nat, k: nat,
                  ghost v: seq<int>, ghost w: seq<int>, ghost before: seq<int>) returns (j': nat, k': nat)
    requires start <= i <= mid <= j < end <= |v| && end <= temp.Length && j < arr.Length && arr[j] == v[j]
    requires k == start + (i - start) + (j - mid) && (i == mid || v[i] > v[j])
    requires k - start <= |w| && MergedFrom(v, i, mid, j, end) == w[k - start..]
    requires |before| == temp.Length && WrittenUpTo(temp, start, k, w, before)
    modifies temp
    ensures j' == j + 1 && k' == k + 1 && k' - start <= |w|
    ensures MergedFrom(v, i, mid, j', end) == w[k' - start..]
    ensures WrittenUpTo(temp, start, k', w, before)
  {
    NextRight(v, i, mid, j, end, w, k - start);
    temp[k] := arr[j];
    j', k' := j + 1, k + 1;
  }

  /**
   * `while i < mid and j < end`: the smaller head is written, the left one on a
   * tie, until one of the runs is used up.
   */
  method MergeHeads(arr: array<int>, temp: array<int>, start: nat, mid: nat, end: nat,
                    ghost v: seq<int>, ghost w: seq<int>, ghost before: seq<int>) returns (i: nat, j: nat, k: nat)
    requires start <= mid <= end <= |v| && end <= temp.Length && arr != temp && v == arr[..]
    requires MergedFrom(v, start, mid, mid, end) == w
    requires |before| == temp.Length && WrittenUpTo(temp, start, start, w, before)
    modifies temp
    ensures start <= i <= mid <= j <= end && k == start + (i - start) + (j - mid) && (i == mid || j == end)
    ensures k - start <= |w| && MergedFrom(v, i, mid, j, end) == w[k - start..]
    ensures WrittenUpTo(temp, start, k, w, before)
  {
    i, j, k := start, mid, start;
    while i < mid && j < end
      invariant start <= i <= mid <= j <= end && k == start + (i - start) + (j - mid)
      invariant MergedFrom(v, i, mid, j, end) == w[k - start..]
      invariant WrittenUpTo(temp, start, k, w, before)
    {
      if arr[i] <= arr[j] {
        i, k := PutLeft(arr, temp, start, mid, end, i, j, k, v, w, before);
      } else {
        j, k := PutRight(arr, temp, start, mid, end, i, j, k, v, w, before);
      }
    }
  }

  /** `while i < mid: temp[k] = arr[i]; ...`: copies the rest of the left run once the right one is used up. */
  method DrainLeft(arr: array<int>, temp: array<int>, start: nat, mid: nat, end: nat, i0: nat, j: nat, k0: nat,
                   ghost v: seq<int>, ghost w: seq<int>, ghost before: seq<int>) returns (i: nat, k: nat)
    requires start <= i0 <= mid <= j <= end <= |v| && end <= temp.Length && arr != temp && v == arr[..]
    requires k0 == start + (i0 - start) + (j - mid) && (i0 == mid || j == end)
    requires k0 - start <= |w| && MergedFrom(v, i0, mid, j, end) == w[k0 - start..]
    requires |before| == temp.Length && WrittenUpTo(temp, start, k0, w, before)
    modifies temp
    ensures i == mid && k == start + (i - start) + (j - mid) && k - start <= |w|
    ensures MergedFrom(v, i, mid, j, end) == w[k - start..]
    ensures WrittenUpTo(temp, start, k, w, before)
  {
    i, k := i0, k0;
    while i < mid
      invariant i0 <= i <= mid && k == start + (i - start) + (j - mid) && k - start <= |w|
      invariant MergedFrom(v, i, mid, j, end) == w[k - start..]
      invariant WrittenUpTo(temp, start, k, w, before)
    {
      i, k := PutLeft(arr, temp, start, mid, end, i, j, k, v, w, before);
    }
  }

  /** `while j < end: temp[k] = arr[j]; ...`: copies the rest of the right run once the left one is used up. */
  method DrainRight(arr: array<int>, temp: array<int>, start: nat, mid: nat, end: nat, i: nat, j0: nat, k0: nat,
                    ghost v: seq<int>, ghost w: seq<int>, ghost before: seq<int>) returns (j: nat, k: nat)
    requires start <= i == mid <= j0 <= end <= |v| && end <= temp.Length && arr != temp && v == arr[..]
    requires k0 == start + (i - start) + (j0 - mid)
    requires k0 - start <= |w| && MergedFrom(v, i, mid, j0, end) == w[k0 - start..]
    requires |before| == temp.Length && WrittenUpTo(temp, start, k0, w, before)
    modifies temp
    ensures j == end && k == start + (i - start) + (j - mid) && k - start <= |w|
    ensures MergedFrom(v, i, mid, j, end) == w[k - start..]
    ensures WrittenUpTo(temp, start, k, w, before)
  {
    j, k := j0, k0;
    while j < end
      invariant j0 <= j <= end && k == start + (i - start) + (j - mid) && k - start <= |w|
      invariant MergedFrom(v, i, mid, j, end) == w[k - start..]
      invariant WrittenUpTo(temp, start, k, w, before)
    {
      j, k := PutRight(arr, temp, start, mid, end, i, j, k, v, w, before);
    }
  }

  /**
   * `merge_subarrays(start, mid, end)`: the two-pointer merge copies
   * `arr[start:mid]` and `arr[mid:end]` into `temp[start:end]`, taking the
   * smaller head while both runs last (the left one on a tie), then draining
   * the run that is left; `arr` and the rest of `temp` are left as they were.
   */
  method MergeSubarrays(arr: array<int>, temp: array<int>, start: nat, mid: nat, end: nat)
    requires start <= mid <= end <= arr.Length && end <= temp.Length && arr != temp
    modifies temp
    ensures temp[..] == old(temp[..start]) + Merged(arr[..], start, mid, end) + old(temp[end..])
  {
    ghost var v := arr[..];
    ghost var w := Merged(v, start, mid, end);
    ghost var before := temp[..];
    var i, j, k := MergeHeads(arr, temp, start, mid, end, v, w, before);
    i, k := DrainLeft(arr, temp, start, mid, end, i, j, k, v, w, before);
    j, k := DrainRight(arr, temp, start, mid, end, i, j, k, v, w, before);
    Spliced(temp[..], before, start, w);
  }

  /** Merging two sorted halves gives a sorted permutation of the whole slice. */
  lemma MergedSortedPermutation(v: seq<int>, start: nat, mid: nat, end: nat)
    requires start <= mid <= end <= |v| && Sorted(v[start..mid]) && Sorted(v[mid..end])
    ensures Sorted(Merged(v, start, mid, end))
    ensures multiset(Merged(v, start, mid, end)) == multiset(v[start..end])
  {
    SortedSlice(v, start, mid);
    SortedSlice(v, mid, end);
    MergeAscends(v, start, mid, mid, end);
    MergePermutes(v, start, mid, mid, end);
    assert v[start..end] == v[start..mid] + v[mid..end];
  }

  /**
   * The main thread with its two `join` points: sort `arr[0:mid]` and
   * `arr[mid:n]`, then merge into `temp`, which ends up holding `arr`'s
   * original elements in ascending order; `arr` is left holding its two
   * halves, each sorted on its own.
   */
  method SortInHalves(arr: array<int>, temp: array<int>)
    requires temp.Length == arr.Length && arr != temp
    modifies arr, temp
    ensures temp[..] == SortSeq(old(arr[..]))
    ensures arr[..] == SortSeq(old(arr[..arr.Length / 2])) + SortSeq(old(arr[arr.Length / 2..]))
  {
    ghost var original := arr[..];
    var n := arr.Length;
    var mid := n / 2;
    SortSubarray(arr, 0, mid);
    ghost var half := arr[..];
    SortSubarray(arr, mid, n);
    ghost var v := arr[..];
    MergeSubarrays(arr, temp, 0, mid, n);
    AfterSorts(original, half, v, mid);
    HalvesMerge(original, v, mid);
  }

  /** The three parts of a concatenation, recovered by slicing. */
  lemma Parts(x: seq<int>, y: seq<int>, z: seq<int>)
    ensures (x + y + z)[..|x|] == x && (x + y + z)[|x|..|x| + |y|] == y && (x + y + z)[|x| + |y|..] == z
  {
    var t := x + y + z;
    assert t[..|x|] == x;
    assert t[|x|..|x| + |y|] == y;
    assert t[|x| + |y|..] == z;
  }

  /** After the two sorts, the array is the sorted left half followed by the sorted right half. */
  lemma AfterSorts(original: seq<int>, half: seq<int>, v: seq<int>, mid: nat)
    requires mid <= |original| && |half| == |original|
    requires half == original[..0] + SortSeq(original[0..mid]) + original[mid..]
    requires v == half[..mid] + SortSeq(half[mid..|half|]) + half[|half|..]
    ensures v == SortSeq(original[..mid]) + SortSeq(original[mid..])
  {
    Parts(original[..0], SortSeq(original[0..mid]), original[mid..]);
    assert original[0..mid] == original[..mid];
    assert half[..|half|] == half;
  }

  /** Sorting the two halves separately keeps the elements of the whole. */
  lemma HalvesPermute(original: seq<int>, mid: nat)
    requires mid <= |original|
    ensures multiset(SortSeq(original[..mid]) + SortSeq(original[mid..])) == multiset(original)
  {
    assert original == original[..mid] + original[mid..];
  }

  /** Merging the two sorted halves produces `sorted(arr)`. */
  lemma HalvesMerge(original: seq<int>, v: seq<int>, mid: nat)
    requires mid <= |original| && v == SortSeq(original[..mid]) + SortSeq(original[mid..])
    ensures Merged(v, 0, mid, |v|) == SortSeq(original)
  {
    var m := Merged(v, 0, mid, |v|);
    assert Sorted(m) && multiset(m) == multiset(original) by {
      assert v[0..mid] == SortSeq(original[..mid]) && v[mid..|v|] == SortSeq(original[mid..]) && v[0..|v|] == v;
      MergedSortedPermutation(v, 0, mid, |v|);
      HalvesPermute(original, mid);
    }
    SortedUnique(m, SortSeq(original));
  }
}
