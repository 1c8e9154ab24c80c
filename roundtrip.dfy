/**
 * The cleaner and the loader together: every line the cleaner writes is read
 * back by the loader as the same pair, whether the lines are handed over
 * directly or through the newline-joined file.
 */
module RoundTrip {
  import opened Wrappers
  import opened PyStr
  import opened Seqs
  import opened Cleaner
  import opened Loader

  /** A `"v1 v2"` line is non-empty and holds no line break. */
  lemma FormatPairShape(p: (int, int))
    ensures FormatPair(p) != [] && '\n' !in FormatPair(p) && '\r' !in FormatPair(p)
  {
    IntToStringShape(p.0);
    IntToStringShape(p.1);
    var s := FormatPair(p);
    assert forall i :: 0 <= i < |s| ==> !IsLineBreak(s[i]);
  }

  /** The loader reads a `"v1 v2"` line back as `(v1, v2)`. */
  lemma FormattedLineLoads(p: (int, int))
    ensures LoadLine(FormatPair(p)) == Some(p)
  {
    var a, b := IntToString(p.0), IntToString(p.1);
    IntToStringShape(p.0);
    IntToStringShape(p.1);
    var s := FormatPair(p);
    StripNoEdges(s);
    assert Join([a, b], " ") == s;
    SplitJoin([a, b]);
    IntRoundTrip(p.0);
    IntRoundTrip(p.1);
  }

  /** Loading the cleaner's lines gives back the cleaner's pairs, in order. */
  lemma LoadFormatted(pairs: seq<(int, int)>)
    ensures LoadedPairs(FormattedLines(pairs)) == pairs
  {
    forall k | 0 <= k < |pairs| ensures LoadLine(FormatPair(pairs[k])) == Some(pairs[k]) {
      FormattedLineLoads(pairs[k]);
    }
    FilterMapOfMap(LoadLine, FormatPair, pairs);
  }

  lemma FormattedLinesShape(pairs: seq<(int, int)>)
    ensures forall k :: 0 <= k < |pairs| ==>
              '\n' !in FormattedLines(pairs)[k] && '\r' !in FormattedLines(pairs)[k] && FormattedLines(pairs)[k] != []
  {
    forall k | 0 <= k < |pairs|
      ensures '\n' !in FormattedLines(pairs)[k] && '\r' !in FormattedLines(pairs)[k] && FormattedLines(pairs)[k] != []
    {
      MapAt(FormatPair, pairs, k);
      FormatPairShape(pairs[k]);
    }
  }

  /**
   * Cleaning a raw capture, writing the result as newline-joined text and
   * loading that file yields exactly the pairs the cleaner kept.
   */
  lemma CleanThenLoad(raw: seq<string>)
    ensures LoadedPairs(FileLines(Join(FormattedLines(CleanedPairs(raw)), "\n"))) == CleanedPairs(raw)
  {
    var pairs := CleanedPairs(raw);
    FormattedLinesShape(pairs);
    FileLinesJoin(FormattedLines(pairs));
    LoadFormatted(pairs);
  }

  /**
   * The whole pipeline as the scripts run it: `extract_and_clean` rewrites
   * the file, then `load_adc_data` reads it into two aligned lists that hold
   * the first and second value of every kept pair.
   */
  method CleanAndLoad(raw: seq<string>) returns (adc1: seq<int>, adc2: seq<int>)
    ensures |adc1| == |adc2| == |CleanedPairs(raw)|
    ensures forall k :: 0 <= k < |adc1| ==> (adc1[k], adc2[k]) == CleanedPairs(raw)[k]
  {
    var outputLines, text := ExtractAndClean(raw);
    CleanThenLoad(raw);
    adc1, adc2 := LoadAdcData(FileLines(text));
  }
}
