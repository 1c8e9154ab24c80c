/**
 * The peak-reconciliation core of `eval_data`: plateau midpoints, the gap
 * threshold derived from the median spacing of channel-2 peaks, marker
 * insertion and repair, and the breath count.
 */
module Eval {
  import opened Wrappers
  import opened PyNum
  import opened Stats
  import opened Gaps

  /** The moving-average window under which the count gets one extra cycle instead of two. */
  const WINDOW_SIZE_FIVE_CYCLES: int := 1200

  /**
   * `[int((l + r) / 2) for l, r in zip(left_edges, right_edges)]`: the
   * truncated midpoint of each plateau, as many as the shorter list holds.
   */
  function PlateauMids(lefts: seq<int>, rights: seq<int>): (mids: seq<int>)
    ensures |mids| == if |lefts| < |rights| then |lefts| else |rights|
  {
    var n := if |lefts| < |rights| then |lefts| else |rights|;
    seq(n, i requires 0 <= i < n => Trunc(Midpoint(lefts[i], rights[i])))
  }

  /**
   * For non-negative plateaus, each midpoint lies inside its plateau and is
   * the integer mean; plateaus that are ordered and disjoint give strictly
   * increasing midpoints.
   */
  lemma PlateauMidsInside(lefts: seq<int>, rights: seq<int>)
    requires |lefts| == |rights|
    requires forall i :: 0 <= i < |lefts| ==> 0 <= lefts[i] <= rights[i]
    ensures forall i :: 0 <= i < |lefts| ==>
              PlateauMids(lefts, rights)[i] == (lefts[i] + rights[i]) / 2 &&
              lefts[i] <= PlateauMids(lefts, rights)[i] <= rights[i]
    ensures (forall i :: 0 <= i < |lefts| - 1 ==> rights[i] < lefts[i + 1]) ==>
              StrictlyIncreasing(PlateauMids(lefts, rights))
  {
    var mids := PlateauMids(lefts, rights);
    forall i | 0 <= i < |lefts|
      ensures mids[i] == (lefts[i] + rights[i]) / 2 && lefts[i] <= mids[i] <= rights[i]
    {
      TruncHalf(lefts[i], rights[i]);
    }
    if forall i :: 0 <= i < |lefts| - 1 ==> rights[i] < lefts[i + 1] {
      ChainIncreasing(mids);
    }
  }

  /** Increasing at every step is increasing overall. */
  lemma {:induction false} ChainIncreasing(s: seq<int>)
    requires forall i :: 0 <= i < |s| - 1 ==> s[i] < s[i + 1]
    ensures StrictlyIncreasing(s)
    decreases |s|
  {
    if |s| >= 2 {
      var init := s[..|s| - 1];
      assert forall i :: 0 <= i < |init| ==> init[i] == s[i];
      ChainIncreasing(init);
      forall i, j | 0 <= i < j < |s|
        ensures s[i] < s[j]
      {
        if j < |s| - 1 {
          assert init[i] < init[j];
        } else if i < |s| - 2 {
          assert init[i] < init[|s| - 2];
        }
      }
    }
  }

  /** `np.median(sorted(np.diff(plateau_mids2)))`, defined once there are two peaks. */
  function MedianDistance(plateauMids2: seq<int>): real
    requires |plateauMids2| >= 2
  {
    Median(Sort(Diffs(plateauMids2)))
  }

  /** The median spacing, or 0 when there are fewer than two peaks and nothing is compared. */
  function MedianOrZero(plateauMids2: seq<int>): real
  {
    if |plateauMids2| < 2 then 0.0 else MedianDistance(plateauMids2)
  }

  /** `iqr_acceptable`: half the median spacing, the search radius around a gap's midpoint. */
  function Tolerance(median: real): real
  {
    median / 2.0
  }

  /** `acceptable_distance`: the median spacing plus the tolerance. */
  function Threshold(median: real): real
  {
    median + Tolerance(median)
  }

  /** The gap threshold that `eval_data` derives from the channel-2 peaks. */
  function AcceptableDistance(plateauMids2: seq<int>): real
  {
    Threshold(MedianOrZero(plateauMids2))
  }

  /**
   * The repaired list for a given median spacing: gaps wider than the
   * threshold marked, then each marker filled using the tolerance as the
   * search radius. With fewer than two peaks nothing is compared and the
   * list is returned as it is.
   */
  function Repaired(plateauMids1: seq<int>, plateauMids2: seq<int>, median: real): seq<int>
  {
    if |plateauMids2| < 2 then plateauMids2
    else Resolved(Marked(plateauMids2, Threshold(median)), plateauMids1, Tolerance(median))
  }

  /** `final_peak_index` after the repair loop of `eval_data`. */
  function Reconciled(plateauMids1: seq<int>, plateauMids2: seq<int>): seq<int>
  {
    Repaired(plateauMids1, plateauMids2, MedianOrZero(plateauMids2))
  }

  /** Strictly increasing peaks have a median spacing of at least one. */
  lemma MedianDistanceAtLeastOne(plateauMids2: seq<int>)
    requires |plateauMids2| >= 2 && StrictlyIncreasing(plateauMids2)
    ensures MedianDistance(plateauMids2) >= 1.0
  {
    DiffsPositive(plateauMids2);
    MedianOfSortedAtLeast(Diffs(plateauMids2), 1);
  }

  /**
   * A filled gap lands strictly between its two neighbours, whether it came
   * from channel 1 or from the truncated midpoint, as long as the spacing
   * is at least one.
   */
  lemma FillGapBetween(front: int, back: int, adc1Peaks: seq<int>, median: real)
    requires median >= 1.0
    requires front < back && IsGap(front, back, Threshold(median))
    ensures front < FillGap(front, back, adc1Peaks, Tolerance(median)) < back
  {
    var middle := Midpoint(front, back);
    assert back - front >= 2;
    assert front as real + 1.0 <= middle <= back as real - 1.0;
    FirstMatchSpec(adc1Peaks, middle, Tolerance(median));
  }

  /** Neighbours in the resolved list are in increasing order. */
  lemma ResolvedStep(m: seq<Entry>, adc1Peaks: seq<int>, median: real, i: int)
    requires median >= 1.0
    requires WellMarked(m) && PeaksIncrease(m) && GapsExactlyMarked(m, Threshold(median))
    requires 0 <= i < |m| - 1
    ensures Resolved(m, adc1Peaks, Tolerance(median))[i] < Resolved(m, adc1Peaks, Tolerance(median))[i + 1]
  {
    if m[i].Abnormal? {
      FillGapBetween(m[i - 1].index, m[i + 1].index, adc1Peaks, median);
    } else if m[i + 1].Abnormal? {
      FillGapBetween(m[i].index, m[i + 2].index, adc1Peaks, median);
    }
  }

  /** Filling every marker keeps the list strictly increasing. */
  lemma ResolvedIncreasing(m: seq<Entry>, adc1Peaks: seq<int>, median: real)
    requires median >= 1.0
    requires WellMarked(m) && PeaksIncrease(m) && GapsExactlyMarked(m, Threshold(median))
    ensures StrictlyIncreasing(Resolved(m, adc1Peaks, Tolerance(median)))
  {
    var r := Resolved(m, adc1Peaks, Tolerance(median));
    forall i | 0 <= i < |r| - 1
      ensures r[i] < r[i + 1]
    {
      ResolvedStep(m, adc1Peaks, median, i);
    }
    ChainIncreasing(r);
  }

  /** With a median spacing of at least one, repair keeps strictly increasing peaks strictly increasing. */
  lemma RepairedIncreasing(plateauMids1: seq<int>, plateauMids2: seq<int>, median: real)
    requires StrictlyIncreasing(plateauMids2)
    requires |plateauMids2| >= 2 ==> median >= 1.0
    ensures StrictlyIncreasing(Repaired(plateauMids1, plateauMids2, median))
  {
    if |plateauMids2| >= 2 {
      var m := Marked(plateauMids2, Threshold(median));
      MarkedIncreasing(plateauMids2, Threshold(median));
      MarkedExactly(plateauMids2, Threshold(median));
      ResolvedIncreasing(m, plateauMids1, median);
    }
  }

  /** The repaired list has at least the channel-2 peaks and shares their first and last index. */
  lemma RepairedEnds(plateauMids1: seq<int>, plateauMids2: seq<int>, median: real)
    ensures |Repaired(plateauMids1, plateauMids2, median)| >= |plateauMids2|
    ensures plateauMids2 != [] ==>
              Repaired(plateauMids1, plateauMids2, median)[0] == plateauMids2[0] &&
              Repaired(plateauMids1, plateauMids2, median)[|Repaired(plateauMids1, plateauMids2, median)| - 1] ==
                plateauMids2[|plateauMids2| - 1]
  {
    if |plateauMids2| >= 2 {
      ResolvedKeepsPeaks(Marked(plateauMids2, Threshold(median)), plateauMids1, Tolerance(median));
    }
  }

  /**
   * Repair keeps channel-2 order: strictly increasing peaks give a strictly
   * increasing final list with the same first and last index.
   */
  lemma ReconciledIncreasing(plateauMids1: seq<int>, plateauMids2: seq<int>)
    requires StrictlyIncreasing(plateauMids2)
    ensures StrictlyIncreasing(Reconciled(plateauMids1, plateauMids2))
    ensures |Reconciled(plateauMids1, plateauMids2)| >= |plateauMids2|
    ensures plateauMids2 != [] ==>
              Reconciled(plateauMids1, plateauMids2)[0] == plateauMids2[0] &&
              Reconciled(plateauMids1, plateauMids2)[|Reconciled(plateauMids1, plateauMids2)| - 1] == plateauMids2[|plateauMids2| - 1]
  {
    var median := MedianOrZero(plateauMids2);
    if |plateauMids2| >= 2 {
      MedianDistanceAtLeastOne(plateauMids2);
    }
    RepairedIncreasing(plateauMids1, plateauMids2, median);
    RepairedEnds(plateauMids1, plateauMids2, median);
  }

  /**
   * Every final index stays within the range of the original channel-2
   * peaks, so indexing the normalised signal with it cannot fail.
   */
  lemma ReconciledInRange(plateauMids1: seq<int>, plateauMids2: seq<int>, len: int)
    requires StrictlyIncreasing(plateauMids2)
    requires forall i :: 0 <= i < |plateauMids2| ==> 0 <= plateauMids2[i] < len
    ensures forall i :: 0 <= i < |Reconciled(plateauMids1, plateauMids2)| ==>
              0 <= Reconciled(plateauMids1, plateauMids2)[i] < len
  {
    ReconciledIncreasing(plateauMids1, plateauMids2);
  }

  /** For any median: one entry per peak plus one per gap, each peak kept at its shifted position. */
  lemma RepairedKeepsPeaks(plateauMids1: seq<int>, plateauMids2: seq<int>, median: real, k: int)
    requires 0 <= k < |plateauMids2|
    ensures |Repaired(plateauMids1, plateauMids2, median)| ==
              |plateauMids2| + GapCount(plateauMids2, Threshold(median))
    ensures k + GapCount(plateauMids2[..k + 1], Threshold(median)) < |Repaired(plateauMids1, plateauMids2, median)|
    ensures Repaired(plateauMids1, plateauMids2, median)[k + GapCount(plateauMids2[..k + 1], Threshold(median))] ==
              plateauMids2[k]
  {
    MarkedPosition(plateauMids2, k, Threshold(median));
    if |plateauMids2| < 2 {
      assert plateauMids2[..k + 1] == plateauMids2;
    } else {
      ResolvedKeepsPeaks(Marked(plateauMids2, Threshold(median)), plateauMids1, Tolerance(median));
    }
  }

  /**
   * The final list holds one entry per channel-2 peak plus one per gap, and
   * the k-th channel-2 peak is kept, shifted by the gaps filled before it.
   */
  lemma ReconciledKeepsPeaks(plateauMids1: seq<int>, plateauMids2: seq<int>, k: int)
    requires 0 <= k < |plateauMids2|
    ensures |Reconciled(plateauMids1, plateauMids2)| ==
              |plateauMids2| + GapCount(plateauMids2, AcceptableDistance(plateauMids2))
    ensures k + GapCount(plateauMids2[..k + 1], AcceptableDistance(plateauMids2)) < |Reconciled(plateauMids1, plateauMids2)|
    ensures Reconciled(plateauMids1, plateauMids2)[k + GapCount(plateauMids2[..k + 1], AcceptableDistance(plateauMids2))] ==
              plateauMids2[k]
  {
    RepairedKeepsPeaks(plateauMids1, plateauMids2, MedianOrZero(plateauMids2), k);
  }

  /** One final entry per channel-2 peak plus one per gap wider than the threshold. */
  lemma ReconciledLength(plateauMids1: seq<int>, plateauMids2: seq<int>)
    ensures |Reconciled(plateauMids1, plateauMids2)| ==
              |plateauMids2| + GapCount(plateauMids2, AcceptableDistance(plateauMids2))
  {
    if plateauMids2 != [] {
      ReconciledKeepsPeaks(plateauMids1, plateauMids2, 0);
    }
  }

  /** For any median, with no gap over the threshold the list comes back unchanged. */
  lemma RepairedNoGap(plateauMids1: seq<int>, plateauMids2: seq<int>, median: real)
    requires forall i :: 0 <= i < |plateauMids2| - 1 ==>
               !IsGap(plateauMids2[i], plateauMids2[i + 1], Threshold(median))
    ensures Repaired(plateauMids1, plateauMids2, median) == plateauMids2
  {
    if |plateauMids2| >= 2 {
      var m := Marked(plateauMids2, Threshold(median));
      MarkedNoGap(plateauMids2, Threshold(median));
      var r := Resolved(m, plateauMids1, Tolerance(median));
      ResolvedKeepsPeaks(m, plateauMids1, Tolerance(median));
      forall k | 0 <= k < |r|
        ensures r[k] == plateauMids2[k]
      {
        assert m[k] == Peak(plateauMids2[k]);
      }
    }
  }

  /** When no neighbouring pair exceeds the threshold the list comes back unchanged. */
  lemma NoGapUnchanged(plateauMids1: seq<int>, plateauMids2: seq<int>)
    requires forall i :: 0 <= i < |plateauMids2| - 1 ==>
               !IsGap(plateauMids2[i], plateauMids2[i + 1], AcceptableDistance(plateauMids2))
    ensures Reconciled(plateauMids1, plateauMids2) == plateauMids2
  {
    RepairedNoGap(plateauMids1, plateauMids2, MedianOrZero(plateauMids2));
  }

  /** Without gaps nothing is marked: the marked list is the data, as peaks. */
  lemma {:induction false} MarkedNoGap(data: seq<int>, gap: real)
    requires forall i :: 0 <= i < |data| - 1 ==> !IsGap(data[i], data[i + 1], gap)
    ensures |Marked(data, gap)| == |data|
    ensures forall k :: 0 <= k < |data| ==> Marked(data, gap)[k] == Peak(data[k])
    decreases |data|
  {
    if |data| >= 2 {
      var n := |data| - 1;
      var init := data[..n];
      assert forall i :: 0 <= i < |init| ==> init[i] == data[i];
      MarkedNoGap(init, gap);
      assert !IsGap(data[n - 1], data[n], gap);
      assert Marked(data, gap) == Marked(init, gap) + [Peak(data[n])];
    }
  }

  /** `breath_cycle`: the final peaks plus one under the 1200-sample window, plus two otherwise. */
  function BreathCycle(finalPeaks: nat, windowSize: int): int
  {
    if windowSize == WINDOW_SIZE_FIVE_CYCLES then finalPeaks + 1 else finalPeaks + 2
  }

  /**
   * Lines 153-168 of `eval_data`: threshold and tolerance from the median
   * spacing, marker insertion, then the in-place repair loop. With fewer
   * than two peaks nothing is marked and the peaks come back as they are.
   */
  method RepairPeaks(plateauMids1: seq<int>, plateauMids2: seq<int>, medianDistance: real)
    returns (finalPeakIndex: seq<int>)
    ensures finalPeakIndex == Repaired(plateauMids1, plateauMids2, medianDistance)
  {
    if |plateauMids2| < 2 {
      return plateauMids2;
    }
    var iqrAcceptable := Tolerance(medianDistance);
    var acceptableDistance := Threshold(medianDistance);
    var marked := InsertAbnormal(plateauMids2, acceptableDistance);
    var resolved := ResolveMarkers(marked, plateauMids1, iqrAcceptable);
    finalPeakIndex := seq(|resolved|, i requires 0 <= i < |resolved| => resolved[i].index);
    ghost var expected := Resolved(marked, plateauMids1, iqrAcceptable);
    assert |finalPeakIndex| == |expected|;
    assert forall i :: 0 <= i < |expected| ==> finalPeakIndex[i] == expected[i];
  }

  /** What `eval_data` ends with: the final peak list and the breath count it reports. */
  datatype Evaluation = Evaluation(finalPeakIndex: seq<int>, breathCycle: int)

  /**
   * The peak-handling steps of `eval_data` after peak detection: median
   * spacing, threshold, marker insertion, repair and breath count. With
   * fewer than two channel-2 peaks there are no spacings, and
   * `np.percentile` of the empty list raises `IndexError`, which nothing
   * catches: `None` stands for that failure.
   */
  method EvalPeaks(plateauMids1: seq<int>, plateauMids2: seq<int>, windowSize: int)
    returns (outcome: Option<Evaluation>)
    ensures outcome.None? <==> |plateauMids2| < 2
    ensures outcome.Some? ==> outcome.value.finalPeakIndex == Reconciled(plateauMids1, plateauMids2)
    ensures outcome.Some? ==> outcome.value.breathCycle == BreathCycle(|outcome.value.finalPeakIndex|, windowSize)
    ensures outcome.Some? ==> outcome.value.breathCycle > |plateauMids2|
  {
    if |plateauMids2| < 2 {
      return None;
    }
    var medianDistance := MedianDistance(plateauMids2);
    var finalPeakIndex := RepairPeaks(plateauMids1, plateauMids2, medianDistance);
    RepairedEnds(plateauMids1, plateauMids2, medianDistance);
    var breathCycle := if windowSize == WINDOW_SIZE_FIVE_CYCLES then |finalPeakIndex| + 1 else |finalPeakIndex| + 2;
    outcome := Some(Evaluation(finalPeakIndex, breathCycle));
  }
}
