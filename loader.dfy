/**
 * `load_adc_data`: reads a cleaned capture file into two index-aligned lists,
 * one per ADC channel.
 */
module Loader {
  import opened Wrappers
  import opened PyStr
  import opened Seqs

  /**
   * The pair one line yields: the stripped line must split into exactly two
   * tokens that both parse as ints; `None` is a skipped line (wrong token
   * count, or a `ValueError` from either `int()`).
   */
  function LoadLine(line: string): Option<(int, int)>
  {
    var parts := Split(Strip(line));
    if |parts| == 2 && ParseInt(parts[0]).Some? && ParseInt(parts[1]).Some? then
      Some((ParseInt(parts[0]).value, ParseInt(parts[1]).value))
    else None
  }

  /** The pairs the loader accepts, in file order. */
  function LoadedPairs(lines: seq<string>): seq<(int, int)>
  {
    FilterMap(LoadLine, lines)
  }

  /**
   * The loop of `load_adc_data`: `adc1` and `adc2` grow together, one value
   * each per accepted line, so they stay aligned with the accepted lines.
   */
  method LoadAdcData(lines: seq<string>) returns (adc1: seq<int>, adc2: seq<int>)
    ensures |adc1| == |adc2| == |LoadedPairs(lines)| <= |lines|
    ensures forall k :: 0 <= k < |adc1| ==> (adc1[k], adc2[k]) == LoadedPairs(lines)[k]
  {
    adc1, adc2 := [], [];
    ghost var pairs: seq<(int, int)> := [];
    for i := 0 to |lines|
      invariant pairs == FilterMap(LoadLine, lines[..i])
      invariant |adc1| == |adc2| == |pairs|
      invariant forall k :: 0 <= k < |pairs| ==> (adc1[k], adc2[k]) == pairs[k]
    {
      ghost var done := lines[..i + 1];
      assert done[..i] == lines[..i] && done[i] == lines[i];
      var parts := Split(Strip(lines[i]));
      if |parts| == 2 {
        var val1 := ParseInt(parts[0]);
        var val2 := ParseInt(parts[1]);
        if val1.Some? && val2.Some? {
          assert LoadLine(lines[i]) == Some((val1.value, val2.value));
          adc1 := adc1 + [val1.value];
          adc2 := adc2 + [val2.value];
          pairs := pairs + [(val1.value, val2.value)];
        } else {
          assert LoadLine(lines[i]) == None;
        }
      } else {
        assert LoadLine(lines[i]) == None;
      }
    }
    assert lines[..|lines|] == lines;
  }

  /**
   * Every loaded pair comes from a line of exactly two tokens, the pairs keep
   * file order, and no line of two parseable tokens is dropped.
   */
  lemma LoadedPairsOrigin(lines: seq<string>)
    ensures |KeptIndices(LoadLine, lines)| == |LoadedPairs(lines)|
    ensures forall k :: 0 <= k < |LoadedPairs(lines)| ==>
              0 <= KeptIndices(LoadLine, lines)[k] < |lines| &&
              |Split(Strip(lines[KeptIndices(LoadLine, lines)[k]]))| == 2 &&
              LoadLine(lines[KeptIndices(LoadLine, lines)[k]]) == Some(LoadedPairs(lines)[k])
    ensures forall k, l :: 0 <= k < l < |LoadedPairs(lines)| ==> KeptIndices(LoadLine, lines)[k] < KeptIndices(LoadLine, lines)[l]
    ensures forall i :: 0 <= i < |lines| && LoadLine(lines[i]).Some? ==> i in KeptIndices(LoadLine, lines)
  {
    FilterMapSpec(LoadLine, lines);
  }
}
