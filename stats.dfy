/**
 * The statistics `eval_data` takes over the channel-2 peak indices:
 * `np.diff`, `sorted` and `np.median`.
 */
module Stats {

  predicate SortedAsc(s: seq<int>)
  {
    forall i, j :: 0 <= i < j < |s| ==> s[i] <= s[j]
  }

  predicate StrictlyIncreasing(s: seq<int>)
  {
    forall i, j :: 0 <= i < j < |s| ==> s[i] < s[j]
  }

  /** `np.diff(s)`: the differences of consecutive elements. */
  function Diffs(s: seq<int>): (d: seq<int>)
    ensures |s| >= 1 ==> |d| == |s| - 1
  {
    if |s| < 2 then [] else seq(|s| - 1, i requires 0 <= i < |s| - 1 => s[i + 1] - s[i])
  }

  /** Strictly increasing indices are at least one apart. */
  lemma DiffsPositive(s: seq<int>)
    requires StrictlyIncreasing(s)
    ensures forall i :: 0 <= i < |Diffs(s)| ==> Diffs(s)[i] >= 1
  {
  }

  /** Insertion of `x` before the first element it does not exceed. */
  function Insert(x: int, s: seq<int>): (r: seq<int>)
    ensures |r| == |s| + 1
    ensures r[0] == x || (s != [] && r[0] == s[0])
    decreases |s|
  {
    if s == [] || x <= s[0] then [x] + s
    else [s[0]] + Insert(x, s[1..])
  }

  /** Insertion adds exactly `x`. */
  lemma {:induction false} InsertPerm(x: int, s: seq<int>)
    ensures multiset(Insert(x, s)) == multiset(s) + multiset{x}
    decreases |s|
  {
    if s != [] && x > s[0] {
      InsertPerm(x, s[1..]);
      assert s == [s[0]] + s[1..];
    }
  }

  /** Insertion into a sorted sequence keeps it sorted. */
  lemma {:induction false} InsertSorted(x: int, s: seq<int>)
    requires SortedAsc(s)
    ensures SortedAsc(Insert(x, s))
    decreases |s|
  {
    if s == [] || x <= s[0] {
      ConsSorted(x, s);
    } else {
      var rest := Insert(x, s[1..]);
      InsertSorted(x, s[1..]);
      assert s[0] <= rest[0] by {
        if rest[0] != x {
          assert s[0] <= s[1];
        }
      }
      ConsSorted(s[0], rest);
    }
  }

  lemma ConsSorted(a: int, t: seq<int>)
    requires SortedAsc(t) && (t == [] || a <= t[0])
    ensures SortedAsc([a] + t)
  {
    var r := [a] + t;
    forall i, j | 0 <= i < j < |r|
      ensures r[i] <= r[j]
    {
      if i == 0 {
        assert t[0] <= t[j - 1];
      } else {
        assert r[i] == t[i - 1] && r[j] == t[j - 1];
      }
    }
  }

  /** `sorted(s)`: the elements of `s` in ascending order. */
  function Sort(s: seq<int>): (r: seq<int>)
    ensures |r| == |s|
    ensures SortedAsc(r)
    decreases |s|
  {
    if s == [] then []
    else
      var t := Sort(s[1..]);
      InsertSorted(s[0], t);
      Insert(s[0], t)
  }

  /** `sorted(s)` is a permutation of `s`. */
  lemma {:induction false} SortPerm(s: seq<int>)
    ensures multiset(Sort(s)) == multiset(s)
    decreases |s|
  {
    if s != [] {
      SortPerm(s[1..]);
      InsertPerm(s[0], Sort(s[1..]));
      assert s == [s[0]] + s[1..];
    }
  }

  /**
   * `np.median` of a non-empty sorted sequence: its middle element, or the
   * mean of its two middle elements when the length is even.
   */
  function Median(s: seq<int>): (m: real)
    requires |s| > 0 && SortedAsc(s)
    ensures s[(|s| - 1) / 2] as real <= m <= s[|s| / 2] as real
  {
    if |s| % 2 == 1 then s[|s| / 2] as real
    else (s[|s| / 2 - 1] + s[|s| / 2]) as real / 2.0
  }

  /** The median of the sorted values is no smaller than a bound all the values respect. */
  lemma MedianOfSortedAtLeast(s: seq<int>, lo: int)
    requires |s| > 0
    requires forall i :: 0 <= i < |s| ==> s[i] >= lo
    ensures Median(Sort(s)) >= lo as real
  {
    var r := Sort(s);
    var x := r[(|r| - 1) / 2];
    assert x in multiset(s) by {
      SortPerm(s);
      assert x in multiset(r);
    }
    var i :| 0 <= i < |s| && s[i] == x;
    assert Median(r) >= x as real;
  }
}
