/**
 * `extract_and_clean`: keeps the raw lines tagged `Ca=… Cb=…`, parses the
 * first two tokens left once the tags are deleted, and re-emits each pair as
 * a `"v1 v2"` line; the file is rewritten with those lines joined by `\n`.
 */
module Cleaner {
  import opened Wrappers
  import opened PyStr
  import opened Seqs

  const CA_TAG := "Ca="
  const CB_TAG := "Cb="

  /** The line filter: the stripped line starts with the channel-A tag and holds the channel-B tag. */
  predicate IsCandidate(line: string)
  {
    StartsWith(Strip(line), CA_TAG) && Contains(Strip(line), CB_TAG)
  }

  /** The whitespace tokens of a line once every `Ca=` and then every `Cb=` is deleted. */
  function Tokens(line: string): seq<string>
  {
    Split(RemoveAll(RemoveAll(Strip(line), CA_TAG), CB_TAG))
  }

  /**
   * The pair one raw line contributes. `None` is a skipped line: one the
   * filter rejects, or one whose `parts[0]`/`parts[1]` raises `IndexError`
   * or whose `int()` raises `ValueError`.
   */
  function CleanLine(line: string): Option<(int, int)>
  {
    if !IsCandidate(line) then None
    else
      var parts := Tokens(line);
      if |parts| >= 2 && ParseInt(parts[0]).Some? && ParseInt(parts[1]).Some? then
        Some((ParseInt(parts[0]).value, ParseInt(parts[1]).value))
      else None
  }

  /** `f"{val1} {val2}"`. */
  function FormatPair(p: (int, int)): string
  {
    IntToString(p.0) + " " + IntToString(p.1)
  }

  /** The `"v1 v2"` lines emitted for `pairs`, one per pair. */
  function FormattedLines(pairs: seq<(int, int)>): seq<string>
  {
    Map(FormatPair, pairs)
  }

  /** The pairs the cleaner keeps, in input order. */
  function CleanedPairs(lines: seq<string>): seq<(int, int)>
  {
    FilterMap(CleanLine, lines)
  }

  /**
   * The loop of `extract_and_clean` over the lines of the file; returns the
   * list of emitted lines and the text written back.
   */
  method ExtractAndClean(lines: seq<string>) returns (outputLines: seq<string>, text: string)
    ensures outputLines == FormattedLines(CleanedPairs(lines))
    ensures |outputLines| <= |lines|
    ensures text == Join(outputLines, "\n")
  {
    outputLines := [];
    ghost var pairs: seq<(int, int)> := [];
    for i := 0 to |lines|
      invariant pairs == FilterMap(CleanLine, lines[..i])
      invariant outputLines == FormattedLines(pairs)
    {
      ghost var done := lines[..i + 1];
      assert done[..i] == lines[..i] && done[i] == lines[i];
      var line := Strip(lines[i]);
      if StartsWith(line, CA_TAG) && Contains(line, CB_TAG) {
        var parts := Split(RemoveAll(RemoveAll(line, CA_TAG), CB_TAG));
        assert parts == Tokens(lines[i]);
        if |parts| >= 2 {
          var val1 := ParseInt(parts[0]);
          var val2 := ParseInt(parts[1]);
          if val1.Some? && val2.Some? {
            assert CleanLine(lines[i]) == Some((val1.value, val2.value));
            ghost var before := pairs;
            outputLines := outputLines + [FormatPair((val1.value, val2.value))];
            pairs := pairs + [(val1.value, val2.value)];
            assert pairs[..|pairs| - 1] == before;
            assert FormattedLines(pairs) == FormattedLines(before) + [FormatPair(pairs[|pairs| - 1])];
          } else {
            assert CleanLine(lines[i]) == None;
          }
        } else {
          assert CleanLine(lines[i]) == None;
        }
      } else {
        assert CleanLine(lines[i]) == None;
      }
    }
    assert lines[..|lines|] == lines;
    text := Join(outputLines, "\n");
  }

  /**
   * Every kept pair comes from a candidate line, the pairs keep the order of
   * their lines, and no line that parses is dropped.
   */
  lemma CleanedPairsOrigin(lines: seq<string>)
    ensures |KeptIndices(CleanLine, lines)| == |CleanedPairs(lines)|
    ensures forall k :: 0 <= k < |CleanedPairs(lines)| ==>
              0 <= KeptIndices(CleanLine, lines)[k] < |lines| &&
              IsCandidate(lines[KeptIndices(CleanLine, lines)[k]]) &&
              CleanLine(lines[KeptIndices(CleanLine, lines)[k]]) == Some(CleanedPairs(lines)[k])
    ensures forall k, l :: 0 <= k < l < |CleanedPairs(lines)| ==> KeptIndices(CleanLine, lines)[k] < KeptIndices(CleanLine, lines)[l]
    ensures forall i :: 0 <= i < |lines| && CleanLine(lines[i]).Some? ==> i in KeptIndices(CleanLine, lines)
  {
    FilterMapSpec(CleanLine, lines);
  }

  /** `Ca=` does not occur in `Cb=` followed by a number. */
  lemma RemoveChannelAKeepsB(b: string)
    requires Numeric(b)
    ensures RemoveAll(CB_TAG + b, CA_TAG) == CB_TAG + b
  {
    var c := CB_TAG + b;
    assert c[..3] != CA_TAG by { assert c[..3][1] == 'b'; }
    assert c[1..] == "b=" + b + [];
    RemoveAllSkips("b=" + b, [], CA_TAG);
    assert "b=" + b + [] == "b=" + b;
  }

  /** Deleting `Ca=` from a tagged line removes the leading tag only. */
  lemma RemoveChannelATag(a: string, b: string)
    requires Numeric(a) && Numeric(b)
    ensures RemoveAll(CA_TAG + a + " " + CB_TAG + b, CA_TAG) == a + " " + CB_TAG + b
  {
    var rest := (a + " ") + (CB_TAG + b);
    RemoveAllLeading(CA_TAG, rest);
    assert CA_TAG + a + " " + CB_TAG + b == CA_TAG + rest;
    RemoveAllSkips(a + " ", CB_TAG + b, CA_TAG);
    RemoveChannelAKeepsB(b);
  }

  /** Deleting `Cb=` from what is left removes the second tag only. */
  lemma RemoveChannelBTag(a: string, b: string)
    requires Numeric(a) && Numeric(b)
    ensures RemoveAll(a + " " + CB_TAG + b, CB_TAG) == a + " " + b
  {
    var s := a + " " + CB_TAG + b;
    assert s == (a + " ") + (CB_TAG + b);
    RemoveAllSkips(a + " ", CB_TAG + b, CB_TAG);
    var t := CB_TAG + b;
    assert t[..3] == CB_TAG;
    assert t[3..] == b + [];
    RemoveAllSkips(b, [], CB_TAG);
    assert b + [] == b;
  }

  lemma TaggedLineIsCandidate(a: string, b: string)
    requires a != [] && b != [] && Numeric(a) && Numeric(b)
    ensures IsCandidate(CA_TAG + a + " " + CB_TAG + b)
  {
    var line := CA_TAG + a + " " + CB_TAG + b;
    StripNoEdges(line);
    assert line[..3] == CA_TAG;
    assert line == (CA_TAG + a + " ") + CB_TAG + b;
    ContainsAt(CA_TAG + a + " ", CB_TAG, b);
  }

  /** A line tagged the way the filter expects is cleaned into exactly its two values. */
  lemma TaggedLineCleaned(v1: int, v2: int)
    ensures CleanLine(CA_TAG + IntToString(v1) + " " + CB_TAG + IntToString(v2)) == Some((v1, v2))
  {
    var a, b := IntToString(v1), IntToString(v2);
    var line := CA_TAG + a + " " + CB_TAG + b;
    IntToStringShape(v1);
    IntToStringShape(v2);
    TaggedLineIsCandidate(a, b);
    StripNoEdges(line);
    RemoveChannelATag(a, b);
    RemoveChannelBTag(a, b);
    assert Join([a, b], " ") == a + " " + b;
    SplitJoin([a, b]);
    assert Tokens(line) == [a, b];
    IntRoundTrip(v1);
    IntRoundTrip(v2);
  }

  /** A `"v1 v2"` line never starts with `Ca=`, so the filter rejects it. */
  lemma FormattedLineRejected(p: (int, int))
    ensures CleanLine(FormatPair(p)).None?
  {
    var s := FormatPair(p);
    IntToStringShape(p.0);
    IntToStringShape(p.1);
    StripNoEdges(s);
    assert Strip(s)[0] != 'C';
    assert !StartsWith(Strip(s), CA_TAG);
    assert !IsCandidate(s);
  }

  /**
   * Cleaning is not idempotent: a second pass over cleaned output keeps
   * nothing.
   */
  lemma SecondPassKeepsNothing(pairs: seq<(int, int)>)
    ensures CleanedPairs(FormattedLines(pairs)) == []
  {
    var lines := FormattedLines(pairs);
    forall k | 0 <= k < |lines| ensures CleanLine(lines[k]).None? {
      MapAt(FormatPair, pairs, k);
      FormattedLineRejected(pairs[k]);
    }
    FilterMapNothing(CleanLine, lines);
  }
}
