/**
 * The Python `str` built-ins the scripts rely on, on `string` = `seq<char>`:
 * `strip()`, `split()` without arguments, `startswith`, `in`, `replace(p, "")`,
 * `int()` on a token, `str()` of an int, `sep.join`, `isdigit()`, `lower()`,
 * and the iteration of a text file line by line.
 */
module PyStr {
  import opened Wrappers

  /** The characters for which Python's `str.isspace()` holds; `strip()` and `split()` use this set. */
  predicate IsSpace(c: char)
  {
    ('\t' <= c <= '\r') || ('\U{1C}' <= c <= '\U{1F}') || c == ' ' || c == '\U{85}' || c == '\U{A0}'
    || c == '\U{1680}' || ('\U{2000}' <= c <= '\U{200A}') || c == '\U{2028}' || c == '\U{2029}'
    || c == '\U{202F}' || c == '\U{205F}' || c == '\U{3000}'
  }

  predicate NoSpace(s: string)
  {
    forall i :: 0 <= i < |s| ==> !IsSpace(s[i])
  }

  predicate IsDigit(c: char)
  {
    '0' <= c <= '9'
  }

  predicate AllDigits(s: string)
  {
    forall i :: 0 <= i < |s| ==> IsDigit(s[i])
  }

  // ---------------------------------------------------------------- strip

  /** `lstrip()`: drops leading whitespace. */
  function LStrip(s: string): (t: string)
    ensures |t| <= |s|
    ensures t == [] || !IsSpace(t[0])
    decreases |s|
  {
    if |s| > 0 && IsSpace(s[0]) then LStrip(s[1..]) else s
  }

  /** `rstrip()`: drops trailing whitespace. */
  function RStrip(s: string): (t: string)
    ensures |t| <= |s| && (t != [] ==> t[0] == s[0])
    ensures t == [] || !IsSpace(t[|t| - 1])
    decreases |s|
  {
    if |s| > 0 && IsSpace(s[|s| - 1]) then RStrip(s[..|s| - 1]) else s
  }

  /** `strip()`: drops whitespace at both ends. */
  function Strip(s: string): (t: string)
    ensures t == [] || (!IsSpace(t[0]) && !IsSpace(t[|t| - 1]))
  {
    RStrip(LStrip(s))
  }

  /** Every character of `s` is whitespace. */
  predicate AllSpace(s: string)
  {
    forall k :: 0 <= k < |s| ==> IsSpace(s[k])
  }

  /** `lstrip()` drops a prefix made only of whitespace. */
  lemma {:induction false} LStripSpec(s: string)
    ensures exists i :: 0 <= i <= |s| && AllSpace(s[..i]) && LStrip(s) == s[i..]
    decreases |s|
  {
    if |s| > 0 && IsSpace(s[0]) {
      LStripSpec(s[1..]);
      var i :| 0 <= i <= |s| - 1 && AllSpace(s[1..][..i]) && LStrip(s[1..]) == s[1..][i..];
      SpaceBefore(s, i);
      assert LStrip(s) == s[i + 1..];
    } else {
      assert s[..0] == [] && s[0..] == s;
    }
  }

  /** Whitespace before a part of `s[1..]`, with `s[0]` whitespace too, is whitespace before that part of `s`. */
  lemma SpaceBefore(s: string, i: int)
    requires |s| > 0 && IsSpace(s[0]) && 0 <= i <= |s| - 1 && AllSpace(s[1..][..i])
    ensures AllSpace(s[..i + 1]) && s[1..][i..] == s[i + 1..]
  {
    var head := s[..i + 1];
    forall k | 0 <= k < |head|
      ensures IsSpace(head[k])
    {
      if k > 0 {
        assert head[k] == s[1..][..i][k - 1];
      }
    }
    assert s[1..][i..] == s[i + 1..];
  }

  /** `rstrip()` drops a suffix made only of whitespace. */
  lemma {:induction false} RStripSpec(s: string)
    ensures exists j :: 0 <= j <= |s| && AllSpace(s[j..]) && RStrip(s) == s[..j]
    decreases |s|
  {
    if |s| > 0 && IsSpace(s[|s| - 1]) {
      RStripSpec(s[..|s| - 1]);
      var j :| 0 <= j <= |s| - 1 && AllSpace(s[..|s| - 1][j..]) && RStrip(s[..|s| - 1]) == s[..|s| - 1][..j];
      SpaceBeforeEnd(s, j);
      assert RStrip(s) == s[..j];
    } else {
      assert s[|s|..] == [] && s[..|s|] == s;
    }
  }

  /** Whitespace after a part of `s[..|s| - 1]`, with the last character whitespace too, is whitespace after that part of `s`. */
  lemma SpaceBeforeEnd(s: string, j: int)
    requires |s| > 0 && IsSpace(s[|s| - 1]) && 0 <= j <= |s| - 1 && AllSpace(s[..|s| - 1][j..])
    ensures AllSpace(s[j..]) && s[..|s| - 1][..j] == s[..j]
  {
    var tail := s[j..];
    forall k | 0 <= k < |tail|
      ensures IsSpace(tail[k])
    {
      if k < |tail| - 1 {
        assert tail[k] == s[..|s| - 1][j..][k];
      }
    }
    assert s[..|s| - 1][..j] == s[..j];
  }

  /**
   * `strip()` keeps a contiguous part of the string and drops only
   * whitespace before and after it.
   */
  lemma StripSpec(s: string)
    ensures exists i, j :: 0 <= i <= j <= |s| && AllSpace(s[..i]) && AllSpace(s[j..]) && Strip(s) == s[i..j]
  {
    LStripSpec(s);
    var i :| 0 <= i <= |s| && AllSpace(s[..i]) && LStrip(s) == s[i..];
    RStripSpec(s[i..]);
    var j :| 0 <= j <= |s| - i && AllSpace(s[i..][j..]) && RStrip(s[i..]) == s[i..][..j];
    SpaceAfter(s, i, j);
    assert Strip(s) == s[i..i + j];
  }

  /** Whitespace after a part of the suffix `s[i..]` is whitespace after the same part of `s`. */
  lemma SpaceAfter(s: string, i: int, j: int)
    requires 0 <= i <= |s| && 0 <= j <= |s| - i && AllSpace(s[i..][j..])
    ensures AllSpace(s[i + j..]) && s[i..][..j] == s[i..i + j]
  {
    assert s[i..][j..] == s[i + j..];
  }

  /** A string that neither starts nor ends with whitespace is left as it is by `strip()`. */
  lemma StripNoEdges(s: string)
    requires s == [] || (!IsSpace(s[0]) && !IsSpace(s[|s| - 1]))
    ensures Strip(s) == s
  {
  }

  /** `strip()` is idempotent. */
  lemma StripIdempotent(s: string)
    ensures Strip(Strip(s)) == Strip(s)
  {
    StripNoEdges(Strip(s));
  }

  // ---------------------------------------------------------------- split

  /** The maximal whitespace-free prefix of `s`. */
  function TakeWord(s: string): (w: string)
    ensures |w| <= |s|
    ensures |s| > 0 && !IsSpace(s[0]) ==> |w| > 0
    decreases |s|
  {
    if |s| == 0 || IsSpace(s[0]) then [] else [s[0]] + TakeWord(s[1..])
  }

  /** The word taken is a whitespace-free prefix that ends at whitespace or at the end. */
  lemma {:induction false} TakeWordSpec(s: string)
    ensures TakeWord(s) == s[..|TakeWord(s)|] && NoSpace(TakeWord(s))
    ensures |TakeWord(s)| < |s| ==> IsSpace(s[|TakeWord(s)|])
    decreases |s|
  {
    if |s| > 0 && !IsSpace(s[0]) {
      TakeWordSpec(s[1..]);
    }
  }

  /** `split()` without arguments: the maximal runs of non-whitespace characters, in order. */
  function Split(s: string): seq<string>
    decreases |s|
  {
    var t := LStrip(s);
    if t == [] then [] else
      var w := TakeWord(t);
      assert |w| >= 1;
      [w] + Split(t[|w|..])
  }

  /** Every token of `split()` is non-empty and holds no whitespace. */
  lemma {:induction false} SplitTokens(s: string)
    ensures forall k :: 0 <= k < |Split(s)| ==> Split(s)[k] != [] && NoSpace(Split(s)[k])
    decreases |s|
  {
    var t := LStrip(s);
    if t != [] {
      var w := TakeWord(t);
      TakeWordSpec(t);
      SplitTokens(t[|w|..]);
      assert forall k :: 1 <= k < |Split(s)| ==> Split(s)[k] == Split(t[|w|..])[k - 1];
    }
  }

  /** `sep.join(parts)`. */
  function Join(parts: seq<string>, sep: string): string
    decreases |parts|
  {
    if parts == [] then []
    else if |parts| == 1 then parts[0]
    else parts[0] + sep + Join(parts[1..], sep)
  }

  lemma TakeWordPrefix(w: string, rest: string)
    requires NoSpace(w)
    requires rest == [] || IsSpace(rest[0])
    ensures TakeWord(w + rest) == w
    decreases |w|
  {
    if w != [] {
      assert (w + rest)[1..] == w[1..] + rest;
      TakeWordPrefix(w[1..], rest);
    }
  }

  /** A word followed by whitespace-led text splits into that word and the split of the text. */
  lemma SplitWord(w: string, rest: string)
    requires w != [] && NoSpace(w)
    requires rest == [] || IsSpace(rest[0])
    ensures Split(w + rest) == [w] + Split(rest)
  {
    var s := w + rest;
    assert !IsSpace(s[0]);
    assert LStrip(s) == s;
    TakeWordPrefix(w, rest);
    assert s[|w|..] == rest;
  }

  /** Leading whitespace does not change the split. */
  lemma SplitSkipsSpace(c: char, rest: string)
    requires IsSpace(c)
    ensures Split([c] + rest) == Split(rest)
  {
    assert ([c] + rest)[1..] == rest;
    assert LStrip([c] + rest) == LStrip(rest);
  }

  /**
   * Splitting words joined by a single space gives the words back, so long as
   * every word is non-empty and holds no whitespace.
   */
  lemma {:induction false} SplitJoin(words: seq<string>)
    requires forall k :: 0 <= k < |words| ==> words[k] != [] && NoSpace(words[k])
    ensures Split(Join(words, " ")) == words
    decreases |words|
  {
    if words == [] {
    } else if |words| == 1 {
      SplitWord(words[0], []);
      assert words[0] + [] == words[0];
      assert LStrip([]) == [];
    } else {
      var rest := Join(words[1..], " ");
      assert Join(words, " ") == words[0] + (" " + rest);
      SplitWord(words[0], " " + rest);
      assert " " + rest == [' '] + rest;
      SplitSkipsSpace(' ', rest);
      SplitJoin(words[1..]);
    }
  }

  // ---------------------------------------------------------------- substrings

  /** `s.startswith(p)`. */
  predicate StartsWith(s: string, p: string)
  {
    |p| <= |s| && s[..|p|] == p
  }

  /** `s.endswith(p)`. */
  predicate EndsWith(s: string, p: string)
  {
    |p| <= |s| && s[|s| - |p|..] == p
  }

  /** A string built as prefix + middle + suffix starts and ends with them. */
  lemma Affixes(a: string, m: string, b: string)
    ensures StartsWith(a + m + b, a) && EndsWith(a + m + b, b)
  {
    var s := a + m + b;
    assert s[..|a|] == a;
    assert s[|s| - |b|..] == b;
  }

  /** `p in s`. */
  predicate Contains(s: string, p: string)
    decreases |s|
  {
    StartsWith(s, p) || (|s| > 0 && Contains(s[1..], p))
  }

  /** `s.replace(p, "")`: deletes the leftmost non-overlapping occurrences of `p`, scanning left to right. */
  function RemoveAll(s: string, p: string): (r: string)
    requires p != []
    decreases |s|
  {
    if |s| < |p| then s
    else if s[..|p|] == p then RemoveAll(s[|p|..], p)
    else [s[0]] + RemoveAll(s[1..], p)
  }

  lemma ContainsAt(x: string, p: string, y: string)
    ensures Contains(x + p + y, p)
    decreases |x|
  {
    if x == [] {
      assert (x + p + y)[..|p|] == p;
    } else {
      assert (x + p + y)[1..] == x[1..] + p + y;
      ContainsAt(x[1..], p, y);
    }
  }

  /** Characters that cannot start `p` pass through `replace(p, "")` unchanged. */
  lemma {:induction false} RemoveAllSkips(x: string, y: string, p: string)
    requires p != []
    requires forall i :: 0 <= i < |x| ==> x[i] != p[0]
    ensures RemoveAll(x + y, p) == x + RemoveAll(y, p)
    decreases |x|
  {
    if x == [] {
      assert x + y == y;
    } else {
      var s := x + y;
      RemoveAllHead(s, p);
      assert s[1..] == x[1..] + y;
      RemoveAllSkips(x[1..], y, p);
      assert [x[0]] + (x[1..] + RemoveAll(y, p)) == x + RemoveAll(y, p);
    }
  }

  /** A first character that cannot start `p` is kept. */
  lemma RemoveAllHead(s: string, p: string)
    requires p != [] && s != [] && s[0] != p[0]
    ensures RemoveAll(s, p) == [s[0]] + RemoveAll(s[1..], p)
  {
    if |s| >= |p| {
      assert s[..|p|][0] == s[0];
    } else {
      assert RemoveAll(s[1..], p) == s[1..];
      assert s == [s[0]] + s[1..];
    }
  }

  /** An occurrence of `p` at the front is deleted. */
  lemma RemoveAllLeading(p: string, rest: string)
    requires p != []
    ensures RemoveAll(p + rest, p) == RemoveAll(rest, p)
  {
    assert (p + rest)[..|p|] == p;
    assert (p + rest)[|p|..] == rest;
  }

  // ---------------------------------------------------------------- int() and str()

  function DigitValue(c: char): int
  {
    c as int - '0' as int
  }

  /** The value of a string of decimal digits. */
  function DigitsValue(d: string): int
    decreases |d|
  {
    if d == [] then 0 else 10 * DigitsValue(d[..|d| - 1]) + DigitValue(d[|d| - 1])
  }

  /** Digits with single underscores between them, the body `int()` accepts after the sign. */
  predicate DigitRun(b: string)
    decreases |b|
  {
    |b| > 0 && IsDigit(b[0]) &&
    (|b| == 1 || if b[1] == '_' then DigitRun(b[2..]) else DigitRun(b[1..]))
  }

  function DropUnderscores(b: string): (d: string)
    ensures |d| <= |b|
    decreases |b|
  {
    if b == [] then [] else (if b[0] == '_' then [] else [b[0]]) + DropUnderscores(b[1..])
  }

  /**
   * The whitespace `int()` skips around a literal: every `isspace()`
   * character except the ASCII file, group, record and unit separators
   * U+001C..U+001F, which `int()` rejects.
   */
  predicate IsIntSpace(c: char)
  {
    IsSpace(c) && !('\U{1C}' <= c <= '\U{1F}')
  }

  /** The token with the whitespace `int()` skips dropped at both ends. */
  function IntStrip(s: string): (t: string)
    ensures t == [] || (!IsIntSpace(t[0]) && !IsIntSpace(t[|t| - 1]))
    decreases |s|
  {
    if |s| > 0 && IsIntSpace(s[0]) then IntStrip(s[1..])
    else if |s| > 0 && IsIntSpace(s[|s| - 1]) then IntStrip(s[..|s| - 1])
    else s
  }

  /** Every character of `s` is whitespace `int()` skips. */
  predicate AllIntSpace(s: string)
  {
    forall k :: 0 <= k < |s| ==> IsIntSpace(s[k])
  }

  /**
   * `IntStrip` keeps a contiguous part of the token and drops only
   * whitespace `int()` skips before and after it.
   */
  lemma {:induction false} IntStripSpec(s: string)
    ensures exists i, j :: 0 <= i <= j <= |s| && AllIntSpace(s[..i]) && AllIntSpace(s[j..]) && IntStrip(s) == s[i..j]
    decreases |s|
  {
    if |s| > 0 && IsIntSpace(s[0]) {
      var u := s[1..];
      IntStripSpec(u);
      var i, j :| 0 <= i <= j <= |u| && AllIntSpace(u[..i]) && AllIntSpace(u[j..]) && IntStrip(u) == u[i..j];
      IntSpaceFront(s, i, j);
      assert IntStrip(s) == s[i + 1..j + 1];
    } else if |s| > 0 && IsIntSpace(s[|s| - 1]) {
      var u := s[..|s| - 1];
      IntStripSpec(u);
      var i, j :| 0 <= i <= j <= |u| && AllIntSpace(u[..i]) && AllIntSpace(u[j..]) && IntStrip(u) == u[i..j];
      IntSpaceBack(s, i, j);
      assert IntStrip(s) == s[i..j];
    } else {
      assert s[..0] == [] && s[|s|..] == [] && s[0..|s|] == s;
    }
  }

  /** Skippable whitespace around a part of `s[1..]`, moved to `s` when `s[0]` is skippable too. */
  lemma IntSpaceFront(s: string, i: int, j: int)
    requires |s| > 0 && IsIntSpace(s[0]) && 0 <= i <= j <= |s| - 1
    requires AllIntSpace(s[1..][..i]) && AllIntSpace(s[1..][j..])
    ensures AllIntSpace(s[..i + 1]) && AllIntSpace(s[j + 1..]) && s[1..][i..j] == s[i + 1..j + 1]
  {
    var head := s[..i + 1];
    forall k | 0 <= k < |head|
      ensures IsIntSpace(head[k])
    {
      if k > 0 {
        assert head[k] == s[1..][..i][k - 1];
      }
    }
    assert s[1..][j..] == s[j + 1..];
    assert s[1..][i..j] == s[i + 1..j + 1];
  }

  /** Skippable whitespace around a part of `s[..|s| - 1]`, moved to `s` when its last character is skippable too. */
  lemma IntSpaceBack(s: string, i: int, j: int)
    requires |s| > 0 && IsIntSpace(s[|s| - 1]) && 0 <= i <= j <= |s| - 1
    requires AllIntSpace(s[..|s| - 1][..i]) && AllIntSpace(s[..|s| - 1][j..])
    ensures AllIntSpace(s[..i]) && AllIntSpace(s[j..]) && s[..|s| - 1][i..j] == s[i..j]
  {
    assert s[..|s| - 1][..i] == s[..i];
    assert s[j..] == s[..|s| - 1][j..] + [s[|s| - 1]];
  }

  /** A token without whitespace at its ends is left as it is. */
  lemma IntStripNoEdges(s: string)
    requires s == [] || (!IsSpace(s[0]) && !IsSpace(s[|s| - 1]))
    ensures IntStrip(s) == s
  {
  }

  /**
   * `int(tok)` for a base-10 token: surrounding whitespace other than the
   * four separators, an optional `+` or `-`, then ASCII digits with single
   * `_` separators. `None` stands for the `ValueError` Python raises
   * otherwise, which includes a token holding one of the four separators.
   */
  function ParseInt(tok: string): Option<int>
  {
    var s := IntStrip(tok);
    if |s| > 0 && (s[0] == '+' || s[0] == '-') then
      if DigitRun(s[1..]) then
        var v := DigitsValue(DropUnderscores(s[1..]));
        Some(if s[0] == '-' then -v else v)
      else None
    else if DigitRun(s) then Some(DigitsValue(DropUnderscores(s)))
    else None
  }

  /** Stripping keeps every character that is not skippable whitespace. */
  lemma {:induction false} IntStripKeeps(s: string, i: int)
    requires 0 <= i < |s| && !IsIntSpace(s[i])
    ensures s[i] in IntStrip(s)
    decreases |s|
  {
    if IsIntSpace(s[0]) {
      assert s[1..][i - 1] == s[i];
      IntStripKeeps(s[1..], i - 1);
    } else if IsIntSpace(s[|s| - 1]) {
      assert s[..|s| - 1][i] == s[i];
      IntStripKeeps(s[..|s| - 1], i);
    }
  }

  /** A run of digits and underscores holds nothing else. */
  lemma {:induction false} DigitRunChars(b: string, c: char)
    requires DigitRun(b) && c in b
    ensures IsDigit(c) || c == '_'
    decreases |b|
  {
    if c != b[0] && |b| > 1 {
      if b[1] == '_' {
        if c != '_' {
          assert c in b[2..];
          DigitRunChars(b[2..], c);
        }
      } else {
        assert c in b[1..];
        DigitRunChars(b[1..], c);
      }
    }
  }

  /**
   * A token holding one of the four separators never parses, wherever the
   * separator stands: `int()` does not skip them, and they are not digits.
   */
  lemma ParseIntRejectsSeparator(tok: string, i: int)
    requires 0 <= i < |tok| && '\U{1C}' <= tok[i] <= '\U{1F}'
    ensures ParseInt(tok) == None
  {
    IntStripKeeps(tok, i);
    var s := IntStrip(tok);
    var c := tok[i];
    if |s| > 0 && (s[0] == '+' || s[0] == '-') {
      if DigitRun(s[1..]) {
        assert c != s[0];
        var k :| 0 <= k < |s| && s[k] == c;
        assert s[1..][k - 1] == c;
        DigitRunChars(s[1..], c);
      }
    } else if DigitRun(s) {
      DigitRunChars(s, c);
    }
  }

  function DigitChar(d: int): char
    requires 0 <= d < 10
  {
    ('0' as int + d) as char
  }

  /** `str(n)` for a natural number: decimal digits without leading zeros. */
  function NatToString(n: nat): (s: string)
    ensures |s| > 0
    decreases n
  {
    if n < 10 then [DigitChar(n)] else NatToString(n / 10) + [DigitChar(n % 10)]
  }

  /** `str(n)` for an int. */
  function IntToString(n: int): (s: string)
    ensures |s| > 0
  {
    if n < 0 then "-" + NatToString(-n) else NatToString(n)
  }

  /** Digits and minus signs: the characters `str()` of an int is made of. */
  predicate Numeric(s: string)
  {
    forall i :: 0 <= i < |s| ==> s[i] == '-' || IsDigit(s[i])
  }

  lemma {:induction false} NatToStringDigits(n: nat)
    ensures AllDigits(NatToString(n))
    decreases n
  {
    if n >= 10 {
      NatToStringDigits(n / 10);
    }
  }

  /** `str(n)` is a non-empty run of digits, with a leading minus sign when `n < 0`. */
  lemma IntToStringShape(n: int)
    ensures Numeric(IntToString(n)) && NoSpace(IntToString(n))
    ensures IsDigit(IntToString(n)[|IntToString(n)| - 1])
    ensures n >= 0 ==> IsDigit(IntToString(n)[0])
    ensures n < 0 ==> IntToString(n)[0] == '-'
  {
    var m := if n < 0 then -n else n;
    NatToStringDigits(m);
  }

  lemma {:induction false} NatToStringValue(n: nat)
    ensures DigitsValue(NatToString(n)) == n
    decreases n
  {
    if n >= 10 {
      NatToStringDigits(n);
      var s := NatToString(n);
      assert s[..|s| - 1] == NatToString(n / 10);
      NatToStringValue(n / 10);
    }
  }

  lemma {:induction false} DigitsAreRun(d: string)
    requires d != [] && AllDigits(d)
    ensures DigitRun(d) && DropUnderscores(d) == d
    decreases |d|
  {
    if |d| > 1 {
      DigitsAreRun(d[1..]);
    }
  }

  /** `int(str(n)) == n`: every int survives formatting and parsing. */
  lemma IntRoundTrip(n: int)
    ensures ParseInt(IntToString(n)) == Some(n)
  {
    if n < 0 {
      NegRoundTrip(-n);
    } else {
      NatToStringDigits(n);
      NatToStringValue(n);
      ParseDigitString(NatToString(n));
    }
  }

  /** `int("-" + str(m)) == -m` for a positive `m`. */
  lemma NegRoundTrip(m: nat)
    requires m > 0
    ensures ParseInt("-" + NatToString(m)) == Some(0 - m)
  {
    var d := NatToString(m);
    var s := "-" + d;
    assert IntStrip(s) == s by {
      NatToStringDigits(m);
      assert IsDigit(d[|d| - 1]) && s[|s| - 1] == d[|d| - 1];
      IntStripNoEdges(s);
    }
    assert DigitRun(d) && DigitsValue(DropUnderscores(d)) == m by {
      NatToStringDigits(m);
      NatToStringValue(m);
      DigitsAreRun(d);
    }
    assert s[1..] == d;
    ParseNegative(s);
  }

  /** `int(s)` of an unpadded minus sign followed by a digit run. */
  lemma ParseNegative(s: string)
    requires IntStrip(s) == s && |s| > 0 && s[0] == '-' && DigitRun(s[1..])
    ensures ParseInt(s) == Some(-DigitsValue(DropUnderscores(s[1..])))
  {
  }

  /** `str(a) == str(b)` only when `a == b`. */
  lemma IntToStringInjective(a: int, b: int)
    requires IntToString(a) == IntToString(b)
    ensures a == b
  {
    IntRoundTrip(a);
    IntRoundTrip(b);
  }

  /** `s.isdigit()` on ASCII input: non-empty and all decimal digits. */
  predicate IsDigitString(s: string)
  {
    |s| > 0 && AllDigits(s)
  }

  /** `int(s)` of an all-digit string is its decimal value. */
  lemma ParseDigitString(s: string)
    requires IsDigitString(s)
    ensures ParseInt(s) == Some(DigitsValue(s))
  {
    IntStripNoEdges(s);
    DigitsAreRun(s);
  }

  // ---------------------------------------------------------------- lower()

  function LowerChar(c: char): char
  {
    if 'A' <= c <= 'Z' then (c as int + 32) as char else c
  }

  /** `s.lower()` on ASCII letters. */
  function Lower(s: string): string
  {
    seq(|s|, i requires 0 <= i < |s| => LowerChar(s[i]))
  }

  // ---------------------------------------------------------------- files

  /** The characters that end a line when a text file is read with universal newlines. */
  predicate IsLineBreak(c: char)
  {
    c == '\n' || c == '\r'
  }

  /** Index of the first line break in `s`, or `|s|` when there is none. */
  function LineEnd(s: string): (k: nat)
    ensures k <= |s|
    decreases |s|
  {
    if s == [] || IsLineBreak(s[0]) then 0 else 1 + LineEnd(s[1..])
  }

  /**
   * The lines `for line in f` yields for a file holding `text`, opened in
   * text mode: `\n`, `\r` and `\r\n` each end a line, and each line is
   * taken without its terminator. An empty file yields no line and a final
   * terminator does not start another line.
   */
  function FileLines(text: string): seq<string>
    decreases |text|
  {
    if text == [] then []
    else
      var k := LineEnd(text);
      if k == |text| then [text]
      else
        var next := if text[k] == '\r' && k + 1 < |text| && text[k + 1] == '\n' then k + 2 else k + 1;
        [text[..k]] + FileLines(text[next..])
  }

  /**
   * Writing lines joined by newlines and reading the file back gives the same
   * lines, when no line holds a line break and the last one is not empty.
   */
  lemma {:induction false} FileLinesJoin(lines: seq<string>)
    requires forall k :: 0 <= k < |lines| ==> '\n' !in lines[k] && '\r' !in lines[k]
    requires lines != [] ==> lines[|lines| - 1] != []
    ensures FileLines(Join(lines, "\n")) == lines
    decreases |lines|
  {
    if lines == [] {
    } else if |lines| == 1 {
      var t := lines[0];
      assert forall i :: 0 <= i < |t| ==> !IsLineBreak(t[i]);
      LineEndNone(t);
    } else {
      var rest := Join(lines[1..], "\n");
      assert Join(lines, "\n") == lines[0] + "\n" + rest;
      FileLinesLf(lines[0], rest);
      FileLinesJoin(lines[1..]);
    }
  }

  lemma LineEndNone(s: string)
    requires forall i :: 0 <= i < |s| ==> !IsLineBreak(s[i])
    ensures LineEnd(s) == |s|
  {
  }

  /** Reading stops at the first line break. */
  lemma {:induction false} LineEndAt(x: string, y: string)
    requires '\n' !in x && '\r' !in x
    requires y != [] && IsLineBreak(y[0])
    ensures LineEnd(x + y) == |x|
    decreases |x|
  {
    var s := x + y;
    if x == [] {
      assert s == y;
    } else {
      assert s[0] == x[0];
      assert s[1..] == x[1..] + y;
      assert forall c :: c in x[1..] ==> c in x;
      LineEndAt(x[1..], y);
    }
  }

  /** A `\n` ends a line. */
  lemma FileLinesLf(x: string, y: string)
    requires '\n' !in x && '\r' !in x
    ensures FileLines(x + "\n" + y) == [x] + FileLines(y)
  {
    var t := x + "\n" + y;
    LineEndAt(x, "\n" + y);
    assert t == x + ("\n" + y);
    assert t[..|x|] == x && t[|x| + 1..] == y;
  }

  /** A `\r\n` pair ends one line, not two. */
  lemma FileLinesCrLf(x: string, y: string)
    requires '\n' !in x && '\r' !in x
    ensures FileLines(x + "\r\n" + y) == [x] + FileLines(y)
  {
    var t := x + "\r\n" + y;
    LineEndAt(x, "\r\n" + y);
    assert t == x + ("\r\n" + y);
    assert t[|x|] == '\r' && t[|x| + 1] == '\n';
    assert t[..|x|] == x && t[|x| + 2..] == y;
  }

  /** A lone `\r` ends a line, as `\n` does. */
  lemma FileLinesCr(x: string, y: string)
    requires '\n' !in x && '\r' !in x
    requires y == [] || y[0] != '\n'
    ensures FileLines(x + "\r" + y) == [x] + FileLines(y)
  {
    var t := x + "\r" + y;
    LineEndAt(x, "\r" + y);
    assert t == x + ("\r" + y);
    assert t[..|x|] == x && t[|x| + 1..] == y;
  }
}
