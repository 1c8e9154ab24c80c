# Breath-detector scripts: peak repair, capture cleaning and loading

This project models the discrete logic of a two-channel breathing monitor.
The monitor is a set of Python scripts. They read tagged ADC samples from a
serial port, clean them into `"v1 v2"` lines, load them back into two aligned
channel lists and detect breaths as peaks of the filtered signals. This
model covers the following parts.

- **Capture cleaning** (`extract_and_clean`, module `Cleaner`). A raw line is
  kept only when its stripped form starts with `Ca=` and contains `Cb=`.
  Every `Ca=` and then every `Cb=` is deleted. The first two whitespace
  tokens are read with `int()`, and each kept pair is re-emitted as
  `"v1 v2"`. The text written back is those lines joined by `\n`.
- **Loading** (`load_adc_data`, module `Loader`). A line counts only when it
  has exactly two tokens and both parse. Each such line extends `adc1` and
  `adc2` together.
- **The clean-then-load round trip** (module `RoundTrip`). The cleaner's
  output file is read back as exactly the pairs it kept.
- **Peak repair in `eval_data`** (modules `Stats`, `Gaps`, `Eval`):
  - the plateau midpoints;
  - the median spacing of the channel-2 peaks, and the two thresholds
    derived from it;
  - `insert_abnormal`, which marks suspiciously wide gaps;
  - `find_match_from_adc1`;
  - the loop that overwrites each marker in place, either with a channel-1
    peak near the gap's midpoint or with the truncated midpoint;
  - the breath count.
- **Session settings and file numbering** (module `Collection`):
  - `current_breath_type` and `current_breath_cycle`, held by a `Settings`
    class and updated by `change_breath_type` and `change_breath_cycle`;
  - the validators those two functions apply;
  - the file-number rule of `collect_data`, with the name it builds.

Python built-ins are modelled explicitly:
- `str.strip`/`split` use Python's full whitespace set.
- `str.replace(p, "")` deletes leftmost non-overlapping occurrences.
- `int()` accepts surrounding whitespace, a sign, and digits with single `_`
  separators (module `PyStr`). Unlike `strip()`, it does not skip the four
  ASCII separators U+001C..U+001F.
- `str()` of an int, `"\n".join`, and iteration over a text file's lines are
  modelled too.
- `abs`, true division and `int()` of a float are over exact reals (module
  `PyNum`).
- A scanned file is a sequence of lines without their terminators, split
  the way text mode reads them: at `\n`, `\r` and `\r\n`. Every consumer
  strips each line before use, and `\n` is whitespace, so nothing depends on
  the terminator.

The script keeps its peak list in one Python list holding both numbers and
the string `"abnormal"`. This model uses the datatype
`Gaps.Entry = Peak(index) | Abnormal` instead.

## Model

| member | source | states |
|---|---|---|
| PyNum.Trunc | PythonProject3/adc_data_eval.py:168 | `int()` of a float truncates toward zero: the result is within 1 of the value, no larger in magnitude, and non-negative for non-negative values |
| PyNum.TruncHalf | PythonProject3/data_fusion_jl.py:47 | for `l + r >= 0`, `int((l + r) / 2)` is the integer quotient `(l + r) div 2`, and lies in `[l, r]` when `l <= r` |
| PyNum.Midpoint | PythonProject3/adc_data_eval.py:161 | `(front + back) / 2` with true division: equally far from both ends, and between them when `front <= back` |
| PyStr.Strip | PythonProject3/adc_data_collection.py:26 | `strip()` leaves no whitespace at either end |
| PyStr.StripSpec | PythonProject3/adc_data_collection.py:26 | `strip()` keeps one contiguous part of the string and drops only whitespace before and after it |
| PyStr.StartsWith | PythonProject3/adc_data_collection.py:80 | `s.startswith(p)`: `p` is a prefix of `s`; `PyStr.Affixes` shows a built name meets it |
| PyStr.EndsWith | PythonProject3/adc_data_collection.py:80 | `s.endswith(p)`: `p` is a suffix of `s`; `PyStr.Affixes` shows a built name meets it |
| PyStr.Affixes | PythonProject3/adc_data_collection.py:80-83 | a name built as prefix + middle + suffix starts with the prefix and ends with the suffix |
| PyStr.Contains | PythonProject3/extract_clean.py:9 | `p in s`: `p` occurs at some position of `s`; `PyStr.ContainsAt` shows an embedded `p` is found |
| PyStr.ContainsAt | PythonProject3/extract_clean.py:9 | `p in x + p + y` holds for any `x` and `y` |
| PyStr.Join | PythonProject3/adc_data_collection.py:38 | `sep.join(parts)`: the parts with `sep` between neighbours; `PyStr.SplitJoin` and `PyStr.FileLinesJoin` invert it |
| PyStr.StripNoEdges | PythonProject3/extract_clean.py:8 | `strip()` leaves a string without whitespace at its ends unchanged |
| PyStr.StripIdempotent | PythonProject3/adc_data_collection.py:47 | stripping twice is stripping once |
| PyStr.Split | PythonProject3/adc_data_collection.py:47 | `split()` without arguments: the maximal runs of non-whitespace, in order; `PyStr.SplitTokens` and `PyStr.SplitJoin` state what it returns |
| PyStr.SplitTokens | PythonProject3/adc_data_collection.py:47 | every token of `split()` is non-empty and holds no whitespace |
| PyStr.RemoveAll | PythonProject3/extract_clean.py:11 | `replace(p, "")`: every leftmost non-overlapping occurrence of `p` deleted, scanning on after each; `PyStr.RemoveAllLeading`, `Cleaner.RemoveChannelATag` and `Cleaner.RemoveChannelBTag` state its effect |
| PyStr.RemoveAllLeading | PythonProject3/extract_clean.py:11 | `replace(p, "")` deletes a leading occurrence of `p` and treats the rest alone |
| PyStr.SplitJoin | PythonProject3/adc_data_collection.py:47 | splitting words joined by single spaces gives back the words |
| PyStr.ParseInt | PythonProject3/extract_clean.py:12-13 | `int(tok)`: surrounding whitespace other than U+001C..U+001F, an optional sign, ASCII digits with single `_` separators; `None` for `ValueError`, and always `None` when the token holds one of those four separators; `PyStr.IntRoundTrip` and `PyStr.ParseDigitString` state its values |
| PyStr.IntStrip | PythonProject3/extract_clean.py:12-13 | the whitespace `int()` skips around a literal: the result neither starts nor ends with a character `int()` skips |
| PyStr.IntStripSpec | PythonProject3/extract_clean.py:12-13 | the stripped token is one contiguous part of it, with only whitespace `int()` skips before and after |
| PyStr.ParseIntRejectsSeparator | PythonProject3/extract_clean.py:12-13 | a token holding any of U+001C..U+001F, in its margins or inside, raises `ValueError` (`None`) even though `strip()` and `split()` treat those as whitespace |
| PyStr.IntToString | PythonProject3/extract_clean.py:14 | `str(n)` in the f-string: never empty; `PyStr.IntToStringShape` gives its shape and `PyStr.IntRoundTrip` its inverse |
| PyStr.IntRoundTrip | PythonProject3/adc_data_collection.py:31 | `int(str(n)) == n` for every int |
| PyStr.IntToStringShape | PythonProject3/extract_clean.py:14 | `str(n)` is digits with a leading `-` exactly for negative `n`, ends in a digit and holds no whitespace |
| PyStr.ParseDigitString | PythonProject3/adc_data_collection.py:124-125 | `int()` of a non-empty all-digit string is its decimal value |
| PyStr.IsDigitString | PythonProject3/adc_data_collection.py:124 | `isdigit()` on ASCII: non-empty and all decimal digits; `PyStr.ParseDigitString` gives the value `int()` then reads |
| PyStr.Lower | PythonProject3/adc_data_collection.py:134 | `lower()`: each ASCII capital lowered, every other character kept (see "Left out") |
| PyStr.FileLines | PythonProject3/extract_clean.py:6-7 | the lines `for line in f` yields in text mode: `\n`, `\r` and `\r\n` each end a line, no line holds its terminator, and a final terminator starts no line |
| PyStr.FileLinesLf | PythonProject3/extract_clean.py:7 | a `\n` ends a line, and the line holds no terminator |
| PyStr.FileLinesCr | PythonProject3/extract_clean.py:7 | a lone `\r` ends a line, as `\n` does |
| PyStr.FileLinesCrLf | PythonProject3/extract_clean.py:7 | `\r\n` ends one line, not two |
| PyStr.FileLinesJoin | PythonProject3/adc_data_collection.py:38 | reading back text written as lines joined by `\n` (none holding `\n` or `\r`, the last non-empty) gives the same lines |
| Cleaner.CleanLine | PythonProject3/extract_clean.py:8-16 | the pair one raw line contributes: none unless the stripped line starts with `Ca=` and holds `Cb=`, none when fewer than two tokens remain (`IndexError`) or either `int()` fails (`ValueError`), else the two parsed tokens; `Cleaner.CleanedPairsOrigin` and `Cleaner.TaggedLineCleaned` state its effect |
| Cleaner.IsCandidate | PythonProject3/extract_clean.py:9 | the stripped line starts with `Ca=` and holds `Cb=`; `Cleaner.TaggedLineIsCandidate` and `Cleaner.FormattedLineRejected` state which lines pass |
| Cleaner.Tokens | PythonProject3/extract_clean.py:11-12 | the tokens left once every `Ca=` and then every `Cb=` is deleted; `Cleaner.RemoveChannelBTag` shows a tagged line gives its two values |
| Cleaner.FormatPair | PythonProject3/extract_clean.py:14 | `f"{val1} {val2}"`; `RoundTrip.FormattedLineLoads` shows the loader reads it back as the pair |
| Cleaner.ExtractAndClean | PythonProject3/adc_data_collection.py:22-38 | the loop emits exactly `FormatPair` of the pairs kept from the lines, in order, never more lines than read, and writes them joined by `\n` (the same loop is `extract_clean.py` lines 4-20 and `adc_data_eval.py` lines 16-32) |
| Cleaner.CleanedPairsOrigin | PythonProject3/extract_clean.py:7-16 | every kept pair comes from a candidate line that parses to it; kept lines keep input order; no line that parses is skipped |
| Cleaner.TaggedLineIsCandidate | PythonProject3/extract_clean.py:8-9 | a `Ca=<v1> Cb=<v2>` line with numeric values passes the candidate test |
| Cleaner.TaggedLineCleaned | PythonProject3/adc_data_collection.py:27-32 | a well-formed `Ca=<v1> Cb=<v2>` line is kept with the pair `(v1, v2)` |
| Cleaner.RemoveChannelATag | PythonProject3/extract_clean.py:11 | deleting `Ca=` from such a line removes only the leading tag |
| Cleaner.RemoveChannelBTag | PythonProject3/extract_clean.py:11 | deleting `Cb=` then leaves `v1 v2` |
| Cleaner.FormattedLineRejected | PythonProject3/extract_clean.py:9 | an emitted `"v1 v2"` line is never a candidate |
| Cleaner.SecondPassKeepsNothing | PythonProject3/extract_clean.py:9-14 | cleaning already-cleaned output keeps no line: the cleaner is not idempotent |
| Loader.LoadLine | PythonProject3/plot_time.py:8-16 | the pair one line yields: the stripped line must split into exactly two tokens that both parse, else none; `Loader.LoadedPairsOrigin` and `RoundTrip.FormattedLineLoads` state its effect |
| Loader.LoadAdcData | PythonProject3/adc_data_collection.py:42-56 | `adc1` and `adc2` have equal length, at most the line count, and position k holds the k-th accepted pair (the same loop is `plot_time.py` lines 3-17, `data_fusion_jl.py` lines 5-19 and `adc_data_eval.py` lines 36-50) |
| Loader.LoadedPairsOrigin | PythonProject3/plot_time.py:8-16 | every loaded pair comes from a line of exactly two tokens that parses to it; pairs keep file order; no such line is dropped |
| RoundTrip.FormattedLineLoads | PythonProject3/adc_data_collection.py:31 | the loader reads each emitted `"v1 v2"` line back as `(v1, v2)` |
| RoundTrip.LoadFormatted | PythonProject3/adc_data_collection.py:47-53 | the loader reads a list of emitted lines back as the same list of pairs |
| RoundTrip.CleanThenLoad | PythonProject3/adc_data_collection.py:38 | loading the text the cleaner writes yields exactly the pairs it kept |
| RoundTrip.CleanAndLoad | PythonProject3/adc_data_eval.py:16-50 | cleaning then loading gives aligned channel lists equal to the kept pairs |
| Stats.Diffs | PythonProject3/adc_data_eval.py:147 | `np.diff` of a non-empty list has one element fewer |
| Stats.DiffsPositive | PythonProject3/adc_data_eval.py:147 | the spacings of strictly increasing peaks are all at least 1 |
| Stats.InsertSorted | PythonProject3/adc_data_eval.py:147 | inserting into a sorted list keeps it sorted |
| Stats.InsertPerm | PythonProject3/adc_data_eval.py:147 | inserting adds exactly that element and loses none |
| Stats.Sort | PythonProject3/adc_data_eval.py:147 | `sorted` returns a sorted list of the same length |
| Stats.SortPerm | PythonProject3/adc_data_eval.py:147 | `sorted` returns a permutation of its input |
| Stats.Median | PythonProject3/adc_data_eval.py:148 | the median of a sorted list lies between its lower and upper middle elements |
| Stats.MedianOfSortedAtLeast | PythonProject3/adc_data_eval.py:147-148 | the median of the sorted spacings is no smaller than a bound every spacing respects |
| Gaps.Marked | PythonProject3/adc_data_eval.py:120-128 | the marked list has `len(data)` + number of gaps entries; every marker is inside, between two peaks; it starts with `data[0]` and ends with the last element |
| Gaps.IsGap | PythonProject3/adc_data_eval.py:125 | the strict test `abs(curr - prev) > gap`; `Gaps.MarkedExactly` states a marker sits exactly where it holds |
| Gaps.InsertAbnormal | PythonProject3/adc_data_eval.py:120-128 | the appending loop returns the marked list (`[]` for empty input) |
| Gaps.MarkedPeaks | PythonProject3/adc_data_eval.py:123-127 | deleting the markers gives back the input unchanged and in order |
| Gaps.MarkedExactly | PythonProject3/adc_data_eval.py:125-126 | a marker lies between two neighbours exactly when `abs(curr - prev) > gap` |
| Gaps.MarkedIncreasing | PythonProject3/adc_data_eval.py:124-127 | for strictly increasing input, the peaks of the marked list stay strictly increasing |
| Gaps.MarkedPosition | PythonProject3/adc_data_eval.py:124-127 | the k-th input element sits at position k + (gaps up to it) |
| Gaps.FirstMatch | PythonProject3/adc_data_eval.py:113-118 | the value `find_match_from_adc1` returns, by recursion on the list; `Gaps.FirstMatchSpec` characterises it |
| Gaps.Within | PythonProject3/adc_data_eval.py:116 | the strict test `abs(x - target) < dist`; `Gaps.FirstMatchSpec` states the search returns the first element meeting it |
| Gaps.FirstMatchSpec | PythonProject3/adc_data_eval.py:113-118 | the search finds nothing exactly when no element is strictly within the distance; otherwise it returns the lowest-index element that is |
| Gaps.FindMatchFromAdc1 | PythonProject3/adc_data_eval.py:113-118 | the loop with early return yields that first match, `None` iff none qualifies, and a returned value is in the list and within the distance |
| Gaps.FillGap | PythonProject3/adc_data_eval.py:159-168 | the value a marker between `front` and `back` is overwritten with; `Gaps.FillGapSpec` and `Eval.FillGapBetween` state it |
| Gaps.FillGapSpec | PythonProject3/adc_data_eval.py:161-168 | a marker becomes a channel-1 peak within tolerance of `(front + back) / 2` when one exists, else `int((front + back) / 2)` |
| Gaps.Resolved | PythonProject3/adc_data_eval.py:156-168 | the list after the overwrite loop: each peak as it is, each marker filled from its two neighbours; `Gaps.ResolvedKeepsPeaks` and `Gaps.ResolveMarkers` state it |
| Gaps.ResolvedKeepsPeaks | PythonProject3/adc_data_eval.py:155-168 | resolving the markers keeps the length and leaves every peak entry's value where it was |
| Gaps.ResolveMarkers | PythonProject3/adc_data_eval.py:156-170 | the in-place loop keeps the length, leaves no marker, keeps every peak, and fills each marker from its two untouched neighbours (the `IndexError` branch cannot be reached) |
| Eval.PlateauMids | PythonProject3/adc_data_eval.py:144-146 | one midpoint per plateau, as many as the shorter edge list |
| Eval.PlateauMidsInside | PythonProject3/data_fusion_jl.py:47-49 | each midpoint is `(l + r) div 2` and lies in its plateau; ordered, disjoint plateaus give strictly increasing midpoints |
| Eval.MedianDistance | PythonProject3/adc_data_eval.py:147-148 | `np.median(sorted(np.diff(plateau_mids2)))` for two or more peaks; `Stats.Median` bounds it and `Eval.MedianDistanceAtLeastOne` gives its lower bound |
| Eval.Tolerance | PythonProject3/adc_data_eval.py:153 | `iqr_acceptable`, half the median spacing |
| Eval.Threshold | PythonProject3/adc_data_eval.py:154 | `acceptable_distance`, the median spacing plus `iqr_acceptable` |
| Eval.AcceptableDistance | PythonProject3/adc_data_eval.py:154 | `acceptable_distance` for the channel-2 peaks: the threshold of their median spacing; `Eval.ReconciledLength` counts the gaps over it |
| Eval.Repaired | PythonProject3/adc_data_eval.py:155-168 | `insert_abnormal` with the threshold, then the overwrite loop with the tolerance, for a given median; the `Eval.Repaired*` lemmas state its properties |
| Eval.Reconciled | PythonProject3/adc_data_eval.py:147-168 | `final_peak_index` for the median the script derives; the `Eval.Reconciled*` lemmas and `Eval.NoGapUnchanged` state its properties |
| Eval.MedianDistanceAtLeastOne | PythonProject3/adc_data_eval.py:147-148 | strictly increasing peaks have a median spacing of at least 1 |
| Eval.FillGapBetween | PythonProject3/adc_data_eval.py:153-168 | with median ≥ 1, a gap wider than `median + median/2` is filled strictly between its neighbours |
| Eval.ResolvedStep | PythonProject3/adc_data_eval.py:155-168 | after resolution each entry is below the next one, given peaks in order and markers exactly at the gaps |
| Eval.ResolvedIncreasing | PythonProject3/adc_data_eval.py:155-168 | under the same conditions the resolved list is strictly increasing |
| Eval.RepairedIncreasing | PythonProject3/adc_data_eval.py:153-168 | for any median spacing of at least 1, repair keeps strictly increasing peaks strictly increasing |
| Eval.RepairedEnds | PythonProject3/adc_data_eval.py:120-168 | for any median, the repaired list is no shorter than the peaks and keeps the first and last peak |
| Eval.ReconciledIncreasing | PythonProject3/adc_data_eval.py:147-170 | strictly increasing channel-2 peaks give a strictly increasing final list with the same first and last index |
| Eval.ReconciledInRange | PythonProject3/adc_data_eval.py:173 | if the channel-2 peaks index the signal, so does every final index |
| Eval.RepairedKeepsPeaks | PythonProject3/adc_data_eval.py:120-168 | for any median, the repaired list has one entry per peak plus one per gap, and the k-th peak sits at position k + (gaps up to it) |
| Eval.ReconciledKeepsPeaks | PythonProject3/adc_data_eval.py:155-170 | the final list has one entry per peak plus one per gap, and each channel-2 peak keeps its value at its shifted position |
| Eval.ReconciledLength | PythonProject3/adc_data_eval.py:153-178 | the final list, whose length the breath count adds to, has one entry per channel-2 peak plus one per gap over `acceptable_distance` |
| Eval.MarkedNoGap | PythonProject3/adc_data_eval.py:120-128 | with no gap over the threshold, `insert_abnormal` adds no marker |
| Eval.RepairedNoGap | PythonProject3/adc_data_eval.py:155-170 | for any median, with no gap over the threshold the repaired list is the peak list itself |
| Eval.NoGapUnchanged | PythonProject3/adc_data_eval.py:155-170 | with no gap over the threshold the final list is the channel-2 peak list itself |
| Eval.BreathCycle | PythonProject3/adc_data_eval.py:178 | `breath_cycle`: the final peak count plus 1 when the window is 1200, plus 2 otherwise |
| Eval.RepairPeaks | PythonProject3/adc_data_eval.py:153-170 | marking with `acceptable_distance` and then the in-place repair loop yield the repaired list for the given median |
| Eval.EvalPeaks | PythonProject3/adc_data_eval.py:147-178 | with fewer than two channel-2 peaks the steps fail (the `IndexError` of `np.percentile` on no spacings); otherwise they yield the reconciled list and a breath count of its length plus 1 (window 1200) or plus 2, which is more than the channel-2 peak count |
| Collection.CycleInput | PythonProject3/adc_data_collection.py:124 | an accepted cycle lies in 1..10 |
| Collection.CycleInputIsInt | PythonProject3/adc_data_collection.py:125 | the stored value is what `int()` reads from the answer |
| Collection.CycleInputAcceptsRange | PythonProject3/adc_data_collection.py:124 | every cycle 1..10, typed as digits, is accepted with its own value |
| Collection.CycleInputRejectsNonDigit | PythonProject3/adc_data_collection.py:124 | an answer with any non-digit (sign, space) is refused |
| Collection.TypeInput | PythonProject3/adc_data_collection.py:134-135 | an accepted type is one of `object_types` |
| Collection.TypeInputAcceptsKnown | PythonProject3/adc_data_collection.py:14 | each of `normal` and `sport` is accepted as itself |
| Collection.TypeInputIdempotent | PythonProject3/adc_data_collection.py:134 | normalising an accepted type again changes nothing |
| Collection.Settings.constructor | PythonProject3/adc_data_collection.py:15-16 | the settings start as `normal`, 5, which the validators accept |
| Collection.Settings.ChangeBreathCycle | PythonProject3/adc_data_collection.py:120-128 | the cycle changes iff the answer is accepted, to its value; otherwise, and for the type, nothing changes; it requires valid settings and keeps them valid |
| Collection.Settings.ChangeBreathType | PythonProject3/adc_data_collection.py:131-139 | the type changes iff the normalised answer is a known type, to that type; otherwise, and for the cycle, nothing changes; it requires valid settings and keeps them valid |
| Collection.DataFiles | PythonProject3/adc_data_collection.py:80 | there are never more counted files than names |
| Collection.IsDataFile | PythonProject3/adc_data_collection.py:80 | a name is counted when it starts with `adc_` and ends with `.data`; `Collection.DataFileNameCounted` shows every generated name is |
| Collection.FileNumber | PythonProject3/adc_data_collection.py:80-81 | the file number lies in `1 .. len(names) + 1` |
| Collection.DataFileName | PythonProject3/adc_data_collection.py:83 | `adc_{type}{cycle}_{n}.data`; `Collection.DataFileNameCounted` and `Collection.DataFileNameInjective` state its properties |
| Collection.DataFileNameCounted | PythonProject3/adc_data_collection.py:83 | each generated name starts with `adc_` and ends with `.data`, so it is counted |
| Collection.NextFileNumber | PythonProject3/adc_data_collection.py:80-83 | after the new file is created the next number is one higher |
| Collection.FileNumberIgnoresOthers | PythonProject3/adc_data_collection.py:80 | names that are not data files do not change the number |
| Collection.DataFileNameInjective | PythonProject3/adc_data_collection.py:83 | different numbers give different names |
| Collection.FileNumberCollision | PythonProject3/adc_data_collection.py:80-83 | with only `adc_normal5_2.data` present, the number is 2 and the new name is that existing file |
| Collection.FreshFileNumber | PythonProject3/adc_data_collection.py:80-83 | corrected rule: the number is at least the count plus one, its name is not taken, and it equals the count plus one whenever that name is free |
| Collection.FreshFileNumberAfterDeletion | PythonProject3/adc_data_collection.py:80-83 | on the listing above the corrected rule picks 3 |

## Left out

- Serial acquisition, timing and `KeyboardInterrupt` handling in `collect_data` are left out: they are port I/O and wall-clock time.
- File opening, reading and writing are left out, as are `os.makedirs`, `os.listdir` and `os.path.join`. The model works on the lines of a file, on the text written back, and on a given list of directory names.
- All `matplotlib` plotting is left out, and so are the interactive menus and `change_eval_settings`.
- `MA_filter`, the z-score and min-max normalisation and `scipy.signal.find_peaks` are left out. They are numpy/scipy floating-point numerics. Their plateau edges and midpoints are inputs to the model; the ordering lemmas take them as strictly increasing.
- The 25th/75th percentiles and the IQR are left out: they are computed but never used.
- The breath-rate division by `COLLECTION_TIME` is left out. It is float output only.
- The performance-assessment curve fitting is not part of this model.
- Eval.Reconciled: with fewer than two channel-2 peaks the script never reaches the repair loop, since `np.percentile` of the empty spacing list raises `IndexError` (`Eval.EvalPeaks` returns `None` there). For such lists `Eval.Reconciled` is extended, as the model's own choice, to return the peaks unchanged (`Eval.MedianOrZero` stands in for numpy's NaN median), so the lemmas about it hold for every list.
- Gaps.ResolveMarkers: requires a well-marked list, which is what `insert_abnormal` always returns (`Gaps.Marked` proves it). The `IndexError` fallback `front + median` is therefore not modelled, and a float-valued fallback entry cannot occur.
- Floating point: the median, thresholds and midpoints are exact reals. Rounding of IEEE doubles is not modelled. It can change a gap decision from spacings of about 2^51 on: for a median of 2^51 + 0.5 the exact threshold 3377699720527872.75 rounds to the double 3377699720527873.0, so a spacing of 3377699720527873 is a gap under `Eval.Threshold` and `Gaps.IsGap` but not in the program.
- PyStr.ParseInt: Unicode decimal digits accepted by `int()` and `str.isdigit()` are not modelled; only ASCII digits are. Such answers are thus refused by `Collection.CycleInput`, whereas Python accepts some and raises `ValueError` on others (superscript digits).
- PyStr.ParseInt and PyStr.IntToString: the limit of Python 3.11 and later on integer string conversion is not modelled. By default `int()` and `str()` raise `ValueError` beyond 4300 decimal digits, a bound that can be changed or switched off at run time and that earlier versions lack. The model accepts a token of any length, so a raw line holding a longer token would be kept by `Cleaner.CleanLine` and `Loader.LoadLine` where such a Python skips it.
- PyStr.Lower: lowers only ASCII letters. No other character lowers to a letter of `normal` or `sport`, so which breath-type answers are accepted is unaffected.
- The console messages that report the outcome (changed/unchanged, match found, totals) are left out. The `changed` result of the two settings methods stands for which message is shown.

## Findings

| source | as written | input that shows it | evidently intended | confidence | as-written member | corrected member |
|---|---|---|---|---|---|---|
| PythonProject3/adc_data_collection.py:80-83 | the new file number is the count of existing `adc_*.data` files plus one, and that file is opened with `"wb"` | a directory holding only `adc_normal5_2.data` (file 1 deleted) gives number 2, so the existing recording is overwritten | a number whose file name is not already taken | medium, not executed | Collection.FileNumberCollision | Collection.FreshFileNumber |
