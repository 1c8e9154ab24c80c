/**
 * The session settings of the collection script and the rules that guard
 * them: the breath-cycle and breath-type validators and the numbering of
 * new recording files.
 */
module Collection {
  import opened Wrappers
  import opened PyStr

  /** `object_types`: the breath types a recording may be filed under. */
  const OBJECT_TYPES: seq<string> := ["normal", "sport"]

  const MIN_BREATH_CYCLE: int := 1
  const MAX_BREATH_CYCLE: int := 10

  /**
   * The cycle `change_breath_cycle` stores for a typed answer: the answer
   * must be a non-empty run of digits whose value is within 1..10.
   */
  function CycleInput(s: string): (r: Option<int>)
    ensures r.Some? ==> MIN_BREATH_CYCLE <= r.value <= MAX_BREATH_CYCLE
  {
    if IsDigitString(s) && MIN_BREATH_CYCLE <= DigitsValue(s) <= MAX_BREATH_CYCLE then Some(DigitsValue(s))
    else None
  }

  /** An accepted answer is stored as `int()` reads it. */
  lemma CycleInputIsInt(s: string)
    requires CycleInput(s).Some?
    ensures ParseInt(s) == CycleInput(s)
  {
    ParseDigitString(s);
  }

  /** Every cycle in 1..10, typed as `str()` writes it, is accepted with its own value. */
  lemma CycleInputAcceptsRange(k: int)
    requires MIN_BREATH_CYCLE <= k <= MAX_BREATH_CYCLE
    ensures CycleInput(IntToString(k)) == Some(k)
  {
    NatToStringDigits(k);
    NatToStringValue(k);
  }

  /** A signed or padded answer is refused, even when `int()` would read it. */
  lemma CycleInputRejectsNonDigit(s: string, i: int)
    requires 0 <= i < |s| && !IsDigit(s[i])
    ensures CycleInput(s).None?
  {
  }

  /**
   * The type `change_breath_type` stores for a typed answer: the answer with
   * surrounding whitespace removed and letters lowered, if it then names one
   * of the known breath types.
   */
  function TypeInput(s: string): (r: Option<string>)
    ensures r.Some? ==> r.value in OBJECT_TYPES
  {
    var t := Lower(Strip(s));
    if t in OBJECT_TYPES then Some(t) else None
  }

  /** Each known type, typed exactly, is accepted as itself. */
  lemma TypeInputAcceptsKnown(t: string)
    requires t in OBJECT_TYPES
    ensures TypeInput(t) == Some(t)
  {
    StripNoEdges(t);
    assert Lower(t) == t;
  }

  /** Feeding an accepted type back in gives the same type: normalisation is idempotent. */
  lemma TypeInputIdempotent(s: string)
    requires TypeInput(s).Some?
    ensures TypeInput(TypeInput(s).value) == TypeInput(s)
  {
    TypeInputAcceptsKnown(TypeInput(s).value);
  }

  /**
   * The module-level settings `current_breath_type` and
   * `current_breath_cycle`, updated by the two menu actions.
   */
  class Settings {
    var breathType: string
    var breathCycle: int

    /** Both settings hold values the validators would accept. */
    predicate Valid()
      reads this
    {
      breathType in OBJECT_TYPES && MIN_BREATH_CYCLE <= breathCycle <= MAX_BREATH_CYCLE
    }

    /** The start-up values: `normal` breathing, 5 cycles. */
    constructor()
      ensures breathType == "normal" && breathCycle == 5
      ensures Valid()
    {
      breathType := "normal";
      breathCycle := 5;
    }

    /**
     * `change_breath_cycle` with the answer to its prompt as `newCycle`:
     * stores `int(newCycle)` when it is accepted and otherwise keeps the
     * current cycle. `changed` tells which message is shown.
     */
    method ChangeBreathCycle(newCycle: string) returns (changed: bool)
      requires Valid()
      modifies this
      ensures changed <==> CycleInput(newCycle).Some?
      ensures breathCycle == (if changed then CycleInput(newCycle).value else old(breathCycle))
      ensures breathType == old(breathType)
      ensures Valid()
    {
      if IsDigitString(newCycle) && MIN_BREATH_CYCLE <= DigitsValue(newCycle) <= MAX_BREATH_CYCLE {
        ParseDigitString(newCycle);
        breathCycle := ParseInt(newCycle).value;
        changed := true;
      } else {
        changed := false;
      }
    }

    /**
     * `change_breath_type` with the answer to its prompt as `newType`:
     * stores the stripped, lowered answer when it names a known type and
     * otherwise keeps the current type.
     */
    method ChangeBreathType(newType: string) returns (changed: bool)
      requires Valid()
      modifies this
      ensures changed <==> TypeInput(newType).Some?
      ensures breathType == (if changed then TypeInput(newType).value else old(breathType))
      ensures breathCycle == old(breathCycle)
      ensures Valid()
    {
      var answer := Lower(Strip(newType));
      if answer in OBJECT_TYPES {
        breathType := answer;
        changed := true;
      } else {
        changed := false;
      }
    }
  }

  // ---------------------------------------------------------------- file numbering

  /** A name the numbering counts: it starts with `adc_` and ends with `.data`. */
  predicate IsDataFile(name: string)
  {
    StartsWith(name, "adc_") && EndsWith(name, ".data")
  }

  /** The names of `existing_files`, in listing order. */
  function DataFiles(names: seq<string>): (files: seq<string>)
    ensures |files| <= |names|
    decreases |names|
  {
    if names == [] then []
    else DataFiles(names[..|names| - 1]) + (if IsDataFile(names[|names| - 1]) then [names[|names| - 1]] else [])
  }

  /** `file_number`: one more than the number of data files already in the directory. */
  function FileNumber(names: seq<string>): (n: int)
    ensures 1 <= n <= |names| + 1
  {
    |DataFiles(names)| + 1
  }

  /** The name `adc_{type}{cycle}_{n}.data` a new recording is written to. */
  function DataFileName(breathType: string, breathCycle: int, n: int): string
  {
    "adc_" + breathType + IntToString(breathCycle) + "_" + IntToString(n) + ".data"
  }

  /** Every generated name is one the numbering counts. */
  lemma DataFileNameCounted(breathType: string, breathCycle: int, n: int)
    ensures IsDataFile(DataFileName(breathType, breathCycle, n))
  {
    var mid := breathType + IntToString(breathCycle) + "_" + IntToString(n);
    assert DataFileName(breathType, breathCycle, n) == "adc_" + mid + ".data";
    Affixes("adc_", mid, ".data");
  }

  /**
   * Once the new recording exists, the next one gets the following number:
   * recordings made one after another are numbered 1, 2, 3, ...
   */
  lemma NextFileNumber(names: seq<string>, breathType: string, breathCycle: int)
    ensures FileNumber(names + [DataFileName(breathType, breathCycle, FileNumber(names))]) == FileNumber(names) + 1
  {
    var name := DataFileName(breathType, breathCycle, FileNumber(names));
    DataFileNameCounted(breathType, breathCycle, FileNumber(names));
    assert (names + [name])[..|names|] == names;
  }

  /** Names that are not data files do not change the number. */
  lemma {:induction false} FileNumberIgnoresOthers(names: seq<string>, others: seq<string>)
    requires forall i :: 0 <= i < |others| ==> !IsDataFile(others[i])
    ensures FileNumber(names + others) == FileNumber(names)
    decreases |others|
  {
    if others != [] {
      var init := others[..|others| - 1];
      assert forall i :: 0 <= i < |init| ==> init[i] == others[i];
      FileNumberIgnoresOthers(names, init);
      assert (names + others)[..|names + others| - 1] == names + init;
      assert (names + others)[|names + others| - 1] == others[|others| - 1];
      assert DataFiles(names + others) == DataFiles(names + init);
    } else {
      assert names + others == names;
    }
  }

  // ---------------------------------------------------------------- numbering after a deletion

  /**
   * Counting files is not the same as finding a free number: once an
   * earlier recording is deleted, the count points at a name that is
   * still taken, and opening it for writing replaces that recording.
   */
  lemma FileNumberCollision()
    ensures FileNumber(["adc_normal5_2.data"]) == 2
    ensures DataFileName("normal", 5, FileNumber(["adc_normal5_2.data"])) in ["adc_normal5_2.data"]
  {
    DataFileNameCounted("normal", 5, 2);
    assert DataFileName("normal", 5, 2) == "adc_normal5_2.data";
    assert DataFiles(["adc_normal5_2.data"]) == DataFiles([]) + ["adc_normal5_2.data"];
  }

  /** Different numbers give different names. */
  lemma DataFileNameInjective(breathType: string, breathCycle: int, a: int, b: int)
    requires DataFileName(breathType, breathCycle, a) == DataFileName(breathType, breathCycle, b)
    ensures a == b
  {
    var prefix := "adc_" + breathType + IntToString(breathCycle) + "_";
    var sa := IntToString(a);
    var sb := IntToString(b);
    assert DataFileName(breathType, breathCycle, a) == prefix + sa + ".data";
    assert DataFileName(breathType, breathCycle, b) == prefix + sb + ".data";
    assert |sa| == |sb|;
    assert (prefix + sa + ".data")[|prefix|..|prefix| + |sa|] == sa;
    assert (prefix + sb + ".data")[|prefix|..|prefix| + |sb|] == sb;
    IntToStringInjective(a, b);
  }

  /**
   * The first number from `n` on whose name is not in `taken`; every name
   * passed over is dropped from `taken`, which bounds the search.
   */
  function NextFree(taken: set<string>, breathType: string, breathCycle: int, n: int): (r: int)
    ensures r >= n
    ensures DataFileName(breathType, breathCycle, r) !in taken
    ensures DataFileName(breathType, breathCycle, n) !in taken ==> r == n
    decreases |taken|
  {
    var name := DataFileName(breathType, breathCycle, n);
    if name in taken then
      var r := NextFree(taken - {name}, breathType, breathCycle, n + 1);
      DataFileNameDistinct(breathType, breathCycle, n, r);
      r
    else n
  }

  lemma DataFileNameDistinct(breathType: string, breathCycle: int, a: int, b: int)
    requires a != b
    ensures DataFileName(breathType, breathCycle, a) != DataFileName(breathType, breathCycle, b)
  {
    if DataFileName(breathType, breathCycle, a) == DataFileName(breathType, breathCycle, b) {
      DataFileNameInjective(breathType, breathCycle, a, b);
    }
  }

  /**
   * The evidently intended file number: the counted number when its name is
   * free, and otherwise the next number whose name is free, so an existing
   * recording is never reopened for writing.
   */
  function FreshFileNumber(names: seq<string>, breathType: string, breathCycle: int): (n: int)
    ensures n >= FileNumber(names)
    ensures DataFileName(breathType, breathCycle, n) !in names
    ensures DataFileName(breathType, breathCycle, FileNumber(names)) !in names ==> n == FileNumber(names)
  {
    var taken := set i | 0 <= i < |names| :: names[i];
    assert forall x :: x in names ==> x in taken;
    NextFree(taken, breathType, breathCycle, FileNumber(names))
  }

  /** On the listing above, the intended rule moves on to number 3. */
  lemma FreshFileNumberAfterDeletion()
    ensures FreshFileNumber(["adc_normal5_2.data"], "normal", 5) == 3
  {
    FileNumberCollision();
    var name := "adc_normal5_2.data";
    var taken := set i | 0 <= i < |[name]| :: [name][i];
    assert taken == {name} by {
      assert [name][0] == name;
    }
    assert taken - {name} == {};
    assert NextFree(taken, "normal", 5, 2) == NextFree({}, "normal", 5, 3);
  }
}
