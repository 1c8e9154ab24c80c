/**
 * Gap marking and cross-channel repair of peak indices: `insert_abnormal`,
 * `find_match_from_adc1` and the loop of `eval_data` that overwrites each
 * `"abnormal"` marker in place.
 */
module Gaps {
  import opened Wrappers
  import opened PyNum

  /** An element of the marked list: a peak index, or the `"abnormal"` sentinel. */
  datatype Entry = Peak(index: int) | Abnormal

  /** The gap test of `insert_abnormal`: `abs(curr - prev) > gap`, strict. */
  predicate IsGap(prev: int, curr: int, gap: real)
  {
    Abs(curr - prev) as real > gap
  }

  /** Every marker sits strictly inside the list, between two peaks. */
  predicate WellMarked(m: seq<Entry>)
  {
    forall i :: 0 <= i < |m| && m[i].Abnormal? ==> 0 < i < |m| - 1 && m[i - 1].Peak? && m[i + 1].Peak?
  }

  /** The number of neighbouring pairs of `data` farther apart than `gap`. */
  function GapCount(data: seq<int>, gap: real): nat
    decreases |data|
  {
    if |data| < 2 then 0
    else GapCount(data[..|data| - 1], gap) + (if IsGap(data[|data| - 2], data[|data| - 1], gap) then 1 else 0)
  }

  /**
   * The list `insert_abnormal(data, gap)` returns: `data` with a marker
   * between every two neighbours farther apart than `gap`.
   */
  function Marked(data: seq<int>, gap: real): (m: seq<Entry>)
    ensures |m| == |data| + GapCount(data, gap)
    ensures WellMarked(m)
    ensures data != [] ==> m[0] == Peak(data[0]) && m[|m| - 1] == Peak(data[|data| - 1])
    decreases |data|
  {
    if |data| == 0 then []
    else if |data| == 1 then [Peak(data[0])]
    else
      var n := |data| - 1;
      var init := Marked(data[..n], gap);
      var mid := if IsGap(data[n - 1], data[n], gap) then [Abnormal] else [];
      assert init[|init| - 1] == Peak(data[n - 1]);
      assert forall i :: 0 <= i < |init| ==> (init + mid + [Peak(data[n])])[i] == init[i];
      init + mid + [Peak(data[n])]
  }

  /** The marked list with its markers deleted. */
  function Peaks(m: seq<Entry>): seq<int>
    decreases |m|
  {
    if m == [] then []
    else Peaks(m[..|m| - 1]) + (if m[|m| - 1].Peak? then [m[|m| - 1].index] else [])
  }

  /** Deleting the markers gives back `data`, unchanged and in order. */
  lemma {:induction false} MarkedPeaks(data: seq<int>, gap: real)
    ensures Peaks(Marked(data, gap)) == data
    decreases |data|
  {
    if |data| >= 2 {
      var n := |data| - 1;
      var init := Marked(data[..n], gap);
      MarkedPeaks(data[..n], gap);
      var m := Marked(data, gap);
      assert m[..|m| - 1] == init || m[..|m| - 1] == init + [Abnormal];
      if m[..|m| - 1] == init + [Abnormal] {
        assert (init + [Abnormal])[..|init|] == init;
      }
      assert data[..n] + [data[n]] == data;
    }
  }

  /** A marker lies between two neighbours exactly when they are farther apart than `gap`. */
  predicate GapsExactlyMarked(m: seq<Entry>, gap: real)
  {
    && (forall i :: 0 < i < |m| - 1 && m[i].Abnormal? && m[i - 1].Peak? && m[i + 1].Peak? ==>
          IsGap(m[i - 1].index, m[i + 1].index, gap))
    && (forall i :: 0 <= i < |m| - 1 && m[i].Peak? && m[i + 1].Peak? ==>
          !IsGap(m[i].index, m[i + 1].index, gap))
  }

  lemma {:induction false} MarkedExactly(data: seq<int>, gap: real)
    ensures GapsExactlyMarked(Marked(data, gap), gap)
    decreases |data|
  {
    if |data| >= 2 {
      var n := |data| - 1;
      var init := Marked(data[..n], gap);
      MarkedExactly(data[..n], gap);
      var m := Marked(data, gap);
      var k := |init| - 1;
      assert init[k] == Peak(data[n - 1]);
      assert forall i :: 0 <= i < |init| ==> m[i] == init[i];
      forall i | 0 < i < |m| - 1 && m[i].Abnormal? && m[i - 1].Peak? && m[i + 1].Peak?
        ensures IsGap(m[i - 1].index, m[i + 1].index, gap)
      {
        if i < k {
          assert m[i - 1] == init[i - 1] && m[i + 1] == init[i + 1];
        }
      }
      forall i | 0 <= i < |m| - 1 && m[i].Peak? && m[i + 1].Peak?
        ensures !IsGap(m[i].index, m[i + 1].index, gap)
      {
        if i < k {
          assert m[i + 1] == init[i + 1];
        }
      }
    }
  }

  /** Peaks in the marked list keep the strict order of `data`. */
  predicate PeaksIncrease(m: seq<Entry>)
  {
    forall i, j :: 0 <= i < j < |m| && m[i].Peak? && m[j].Peak? ==> m[i].index < m[j].index
  }

  lemma {:induction false} MarkedIncreasing(data: seq<int>, gap: real)
    requires forall i, j :: 0 <= i < j < |data| ==> data[i] < data[j]
    ensures PeaksIncrease(Marked(data, gap))
    decreases |data|
  {
    if |data| >= 2 {
      var n := |data| - 1;
      var init := Marked(data[..n], gap);
      MarkedIncreasing(data[..n], gap);
      var m := Marked(data, gap);
      assert forall i :: 0 <= i < |init| ==> m[i] == init[i];
      MarkedPeaks(data[..n], gap);
      forall i | 0 <= i < |init| && init[i].Peak?
        ensures init[i].index < data[n]
      {
        PeaksMember(init, i);
      }
    }
  }

  lemma {:induction false} PeaksMember(m: seq<Entry>, i: int)
    requires 0 <= i < |m| && m[i].Peak?
    ensures m[i].index in Peaks(m)
    decreases |m|
  {
    if i < |m| - 1 {
      PeaksMember(m[..|m| - 1], i);
    }
  }

  /** The marked list of a prefix of `data` is a prefix of the marked list of `data`. */
  lemma {:induction false} MarkedPrefix(data: seq<int>, j: int, gap: real)
    requires 0 <= j <= |data|
    ensures Marked(data[..j], gap) <= Marked(data, gap)
    decreases |data|
  {
    if j < |data| {
      var n := |data| - 1;
      MarkedPrefix(data[..n], j, gap);
      assert data[..n][..j] == data[..j];
    } else {
      assert data[..j] == data;
    }
  }

  /**
   * The k-th peak of `data` sits in the marked list at position k plus the
   * number of gaps before it.
   */
  lemma MarkedPosition(data: seq<int>, k: int, gap: real)
    requires 0 <= k < |data|
    ensures k + GapCount(data[..k + 1], gap) < |Marked(data, gap)|
    ensures Marked(data, gap)[k + GapCount(data[..k + 1], gap)] == Peak(data[k])
  {
    MarkedPrefix(data, k + 1, gap);
    var pre := Marked(data[..k + 1], gap);
    assert pre[|pre| - 1] == Peak(data[k]);
  }

  /**
   * The loop of `insert_abnormal`: starts from the first element and, for each
   * neighbouring pair, appends a marker when they are too far apart and then
   * the current element.
   */
  method InsertAbnormal(data: seq<int>, gap: real) returns (result: seq<Entry>)
    ensures result == Marked(data, gap)
  {
    if |data| == 0 {
      return [];
    }
    result := [Peak(data[0])];
    for i := 1 to |data|
      invariant result == Marked(data[..i], gap)
    {
      assert data[..i + 1][..i] == data[..i];
      if IsGap(data[i - 1], data[i], gap) {
        result := result + [Abnormal];
      }
      result := result + [Peak(data[i])];
    }
    assert data[..|data|] == data;
  }

  // ---------------------------------------------------------------- matching

  /** The match test of `find_match_from_adc1`: `abs(x - target) < dist`, strict. */
  predicate Within(x: int, target: real, dist: real)
  {
    AbsReal(x as real - target) < dist
  }

  /** The first element of `s` within `dist` of `target`, in the order of `s`. */
  function FirstMatch(s: seq<int>, target: real, dist: real): Option<int>
    decreases |s|
  {
    if s == [] then None
    else if Within(s[0], target, dist) then Some(s[0])
    else FirstMatch(s[1..], target, dist)
  }

  /**
   * `FirstMatch` is `None` exactly when no element qualifies; otherwise it is
   * the qualifying element of lowest index, which need not be the nearest.
   */
  lemma {:induction false} FirstMatchSpec(s: seq<int>, target: real, dist: real)
    ensures FirstMatch(s, target, dist).None? <==> forall i :: 0 <= i < |s| ==> !Within(s[i], target, dist)
    ensures FirstMatch(s, target, dist).Some? ==>
              exists k :: 0 <= k < |s| && s[k] == FirstMatch(s, target, dist).value && Within(s[k], target, dist) &&
                          forall j :: 0 <= j < k ==> !Within(s[j], target, dist)
    decreases |s|
  {
    if s != [] && !Within(s[0], target, dist) {
      FirstMatchSpec(s[1..], target, dist);
      if FirstMatch(s[1..], target, dist).Some? {
        var k :| 0 <= k < |s[1..]| && s[1..][k] == FirstMatch(s[1..], target, dist).value && Within(s[1..][k], target, dist) &&
                 forall j :: 0 <= j < k ==> !Within(s[1..][j], target, dist);
        assert s[k + 1] == s[1..][k];
        assert forall j :: 1 <= j < k + 1 ==> s[j] == s[1..][j - 1];
      } else {
        assert forall i :: 1 <= i < |s| ==> s[i] == s[1..][i - 1];
      }
    }
  }

  /** The loop of `find_match_from_adc1`, returning at the first qualifying peak. */
  method FindMatchFromAdc1(plateauMids1: seq<int>, curAdc2Peak: real, acceptableDist: real) returns (m: Option<int>)
    ensures m == FirstMatch(plateauMids1, curAdc2Peak, acceptableDist)
    ensures m.None? <==> forall i :: 0 <= i < |plateauMids1| ==> !Within(plateauMids1[i], curAdc2Peak, acceptableDist)
    ensures m.Some? ==> m.value in plateauMids1 && Within(m.value, curAdc2Peak, acceptableDist)
  {
    for i := 0 to |plateauMids1|
      invariant FirstMatch(plateauMids1[i..], curAdc2Peak, acceptableDist) == FirstMatch(plateauMids1, curAdc2Peak, acceptableDist)
      invariant forall j :: 0 <= j < i ==> !Within(plateauMids1[j], curAdc2Peak, acceptableDist)
    {
      assert plateauMids1[i..][1..] == plateauMids1[i + 1..];
      if Within(plateauMids1[i], curAdc2Peak, acceptableDist) {
        return Some(plateauMids1[i]);
      }
    }
    return None;
  }

  // ---------------------------------------------------------------- resolution

  /**
   * The value a marker between `front` and `back` becomes: the first
   * channel-1 peak within `tolerance` of their midpoint, or else the midpoint
   * truncated by `int()`.
   */
  function FillGap(front: int, back: int, adc1Peaks: seq<int>, tolerance: real): int
  {
    var middle := Midpoint(front, back);
    match FirstMatch(adc1Peaks, middle, tolerance)
    case Some(x) => x
    case None => Trunc(middle)
  }

  /**
   * A filled marker is a channel-1 peak within `tolerance` of the midpoint
   * when there is one, and the truncated midpoint only when there is none.
   */
  lemma FillGapSpec(front: int, back: int, adc1Peaks: seq<int>, tolerance: real)
    ensures (exists i :: 0 <= i < |adc1Peaks| && Within(adc1Peaks[i], Midpoint(front, back), tolerance)) ==>
              FillGap(front, back, adc1Peaks, tolerance) in adc1Peaks &&
              Within(FillGap(front, back, adc1Peaks, tolerance), Midpoint(front, back), tolerance)
    ensures (forall i :: 0 <= i < |adc1Peaks| ==> !Within(adc1Peaks[i], Midpoint(front, back), tolerance)) ==>
              FillGap(front, back, adc1Peaks, tolerance) == Trunc(Midpoint(front, back))
  {
    FirstMatchSpec(adc1Peaks, Midpoint(front, back), tolerance);
  }

  /** The list after the resolution loop: peaks kept, each marker filled from its two neighbours. */
  function Resolved(m: seq<Entry>, adc1Peaks: seq<int>, tolerance: real): seq<int>
    requires WellMarked(m)
  {
    seq(|m|, i requires 0 <= i < |m| =>
      if m[i].Peak? then m[i].index else FillGap(m[i - 1].index, m[i + 1].index, adc1Peaks, tolerance))
  }

  /** Resolution keeps the length and every peak. */
  lemma ResolvedKeepsPeaks(m: seq<Entry>, adc1Peaks: seq<int>, tolerance: real)
    requires WellMarked(m)
    ensures |Resolved(m, adc1Peaks, tolerance)| == |m|
    ensures forall k :: 0 <= k < |m| && m[k].Peak? ==> Resolved(m, adc1Peaks, tolerance)[k] == m[k].index
  {
  }

  /**
   * The resolution loop of `eval_data`, overwriting each marker in place.
   * Because no marker is first, last or next to another, `front` and `back`
   * are always untouched original peaks and `final_peak_index[i + 1]` never
   * raises `IndexError`.
   */
  method ResolveMarkers(marked: seq<Entry>, adc1Peaks: seq<int>, tolerance: real) returns (final: seq<Entry>)
    requires WellMarked(marked)
    ensures |final| == |marked|
    ensures forall i :: 0 <= i < |final| ==> final[i] == Peak(Resolved(marked, adc1Peaks, tolerance)[i])
  {
    final := marked;
    for i := 0 to |final|
      invariant |final| == |marked|
      invariant forall k :: 0 <= k < i ==> final[k] == Peak(Resolved(marked, adc1Peaks, tolerance)[k])
      invariant forall k :: i <= k < |final| ==> final[k] == marked[k]
    {
      if final[i].Abnormal? {
        var front := final[i - 1].index;
        var back := final[i + 1].index;
        var middle := Midpoint(front, back);
        var adc1Match := FindMatchFromAdc1(adc1Peaks, middle, tolerance);
        if adc1Match.Some? {
          final := final[i := Peak(adc1Match.value)];
        } else {
          final := final[i := Peak(Trunc(middle))];
        }
      }
    }
  }
}
