/** The metric extractors' search: for each entry of a tool's pattern table, the
    first place where the case-insensitive label is followed by optional
    whitespace and a number (`Label\s*(\d+)`, or `Label\s*([\d.]+)` for dotted
    patterns), the number converted as Python's `float()` converts it, and the
    loop that fills the metric map. */
module Patterns {
  import opened Text

  /** Metric name to value. Values are exact reals: `float()` rounding is not modelled. */
  type Metrics = map<string, real>

  /** `metrics.get(key, 0)`: a missing metric reads as zero. */
  function Get(m: Metrics, key: string): real
  {
    if key in m then m[key] else 0.0
  }

  /** One entry of a tool's pattern table. `dotted` selects `[\d.]+` over `\d+`. */
  datatype Pattern = Pattern(key: string, literal: string, dotted: bool)

  predicate IsNumberChar(c: char, dotted: bool)
  {
    IsDigit(c) || (dotted && c == '.')
  }

  /** The label occurs at position `i`, ignoring ASCII case. */
  predicate LabelAt(text: string, word: string, i: nat)
  {
    && i + |word| <= |text|
    && forall k :: 0 <= k < |word| ==> Fold(text[i + k]) == Fold(word[k])
  }

  /** With IGNORECASE the label occurs at `i` exactly when each character there
      is the label's character or the same ASCII letter in the other case. */
  lemma {:induction false} LabelAtIgnoresCase(text: string, word: string, i: nat)
    ensures LabelAt(text, word, i) <==>
      && i + |word| <= |text|
      && forall k :: 0 <= k < |word| ==> SameLetter(text[i + k], word[k])
  {
    if i + |word| <= |text| {
      forall k | 0 <= k < |word| ensures Fold(text[i + k]) == Fold(word[k]) <==> SameLetter(text[i + k], word[k]) {
        FoldSameLetter(text[i + k], word[k]);
      }
    }
  }

  /** The first position at or after `j` that is not whitespace (or the end). */
  function SkipSpaces(text: string, j: nat): (r: nat)
    requires j <= |text|
    ensures j <= r <= |text|
    ensures r == |text| || !IsSpace(text[r])
    decreases |text| - j
  {
    if j < |text| && IsSpace(text[j]) then SkipSpaces(text, j + 1) else j
  }

  /** `SkipSpaces` passes over whitespace only. */
  lemma {:induction false} SkipSpacesSpan(text: string, j: nat)
    requires j <= |text|
    ensures forall k :: j <= k < SkipSpaces(text, j) ==> IsSpace(text[k])
    decreases |text| - j
  {
    if j < |text| && IsSpace(text[j]) {
      SkipSpacesSpan(text, j + 1);
    }
  }

  /** The end of the run of number characters that starts at `j`. */
  function NumberEnd(text: string, j: nat, dotted: bool): (r: nat)
    requires j <= |text|
    ensures j <= r <= |text|
    ensures r == |text| || !IsNumberChar(text[r], dotted)
    decreases |text| - j
  {
    if j < |text| && IsNumberChar(text[j], dotted) then NumberEnd(text, j + 1, dotted) else j
  }

  /** `NumberEnd` passes over number characters only. */
  lemma {:induction false} NumberEndSpan(text: string, j: nat, dotted: bool)
    requires j <= |text|
    ensures forall k :: j <= k < NumberEnd(text, j, dotted) ==> IsNumberChar(text[k], dotted)
    decreases |text| - j
  {
    if j < |text| && IsNumberChar(text[j], dotted) {
      NumberEndSpan(text, j + 1, dotted);
    }
  }

  /** The regular expression can match at `i`: the label is there, and after
      some (possibly empty) stretch of whitespace comes a number character. */
  ghost predicate MatchableAt(text: string, p: Pattern, i: nat)
  {
    && LabelAt(text, p.literal, i)
    && exists j :: i + |p.literal| <= j < |text|
         && (forall k :: i + |p.literal| <= k < j ==> IsSpace(text[k]))
         && IsNumberChar(text[j], p.dotted)
  }

  /** The group captured by a match starting at `i`, if the pattern matches there:
      `\s*` takes all the whitespace and the number run is taken as far as it goes. */
  function MatchAt(text: string, p: Pattern, i: nat): (r: Option<string>)
    requires i <= |text|
    ensures r.Some? ==> |r.value| > 0 && forall k :: 0 <= k < |r.value| ==> IsNumberChar(r.value[k], p.dotted)
  {
    if !LabelAt(text, p.literal, i) then None
    else
      var j := SkipSpaces(text, i + |p.literal|);
      if j < |text| && IsNumberChar(text[j], p.dotted) then
        NumberEndSpan(text, j, p.dotted);
        Some(text[j..NumberEnd(text, j, p.dotted)])
      else None
  }

  /** `re.search` from position `i` on: the capture of the leftmost match. */
  function FirstMatchFrom(text: string, p: Pattern, i: nat): (r: Option<string>)
    requires i <= |text|
    ensures r.Some? ==> |r.value| > 0 && forall k :: 0 <= k < |r.value| ==> IsNumberChar(r.value[k], p.dotted)
    decreases |text| - i
  {
    match MatchAt(text, p, i)
    case Some(tok) => Some(tok)
    case None => if i == |text| then None else FirstMatchFrom(text, p, i + 1)
  }

  function FirstMatch(text: string, p: Pattern): Option<string>
  {
    FirstMatchFrom(text, p, 0)
  }

  /** `MatchAt` succeeds exactly where the regular expression can match, and then
      captures the maximal number run that follows the label and its whitespace. */
  lemma {:induction false} MatchAtIsRegexMatch(text: string, p: Pattern, i: nat)
    requires i <= |text|
    ensures MatchAt(text, p, i).Some? <==> MatchableAt(text, p, i)
  {
    if LabelAt(text, p.literal, i) {
      var j := SkipSpaces(text, i + |p.literal|);
      SkipSpacesSpan(text, i + |p.literal|);
      if MatchableAt(text, p, i) {
        var j' :| i + |p.literal| <= j' < |text|
          && (forall k :: i + |p.literal| <= k < j' ==> IsSpace(text[k]))
          && IsNumberChar(text[j'], p.dotted);
      }
    }
  }

  /** Where the captured number sits: after the label and a whitespace stretch,
      ending at the end of the text or before a character that is not part of a number. */
  lemma {:induction false} MatchAtShape(text: string, p: Pattern, i: nat) returns (j: nat)
    requires i <= |text| && MatchAt(text, p, i).Some?
    ensures var tok := MatchAt(text, p, i).value;
      && LabelAt(text, p.literal, i)
      && i + |p.literal| <= j && j + |tok| <= |text|
      && (forall k :: i + |p.literal| <= k < j ==> IsSpace(text[k]))
      && text[j..j + |tok|] == tok
      && (j + |tok| == |text| || !IsNumberChar(text[j + |tok|], p.dotted))
  {
    j := SkipSpaces(text, i + |p.literal|);
    SkipSpacesSpan(text, i + |p.literal|);
  }

  /** The search finds nothing exactly when the pattern matches nowhere. */
  lemma {:induction false} FirstMatchFromNone(text: string, p: Pattern, i: nat)
    requires i <= |text|
    ensures FirstMatchFrom(text, p, i).None? <==> forall k :: i <= k <= |text| ==> MatchAt(text, p, k).None?
    decreases |text| - i
  {
    if MatchAt(text, p, i).None? && i < |text| {
      FirstMatchFromNone(text, p, i + 1);
    }
  }

  /** When the search finds something, it is the capture at the leftmost position
      where the pattern matches. */
  lemma {:induction false} FirstMatchFromLeftmost(text: string, p: Pattern, i: nat) returns (pos: nat)
    requires i <= |text| && FirstMatchFrom(text, p, i).Some?
    ensures i <= pos <= |text|
    ensures MatchAt(text, p, pos) == FirstMatchFrom(text, p, i)
    ensures forall k :: i <= k < pos ==> MatchAt(text, p, k).None?
    decreases |text| - i
  {
    if MatchAt(text, p, i).Some? {
      pos := i;
    } else {
      pos := FirstMatchFromLeftmost(text, p, i + 1);
    }
  }

  /** A key is found exactly when its pattern can match somewhere in the text. */
  lemma {:induction false} FirstMatchPresent(text: string, p: Pattern)
    ensures FirstMatch(text, p).Some? <==> exists i :: 0 <= i <= |text| && MatchableAt(text, p, i)
  {
    FirstMatchFromNone(text, p, 0);
    if FirstMatch(text, p).Some? {
      var pos := FirstMatchFromLeftmost(text, p, 0);
      MatchAtIsRegexMatch(text, p, pos);
    } else {
      forall i | 0 <= i <= |text| ensures !MatchableAt(text, p, i) {
        MatchAtIsRegexMatch(text, p, i);
      }
    }
  }

  /** A hand-written `re.search(pattern, text, re.IGNORECASE)`: tries each start
      position from the left and returns the first capture. */
  method Search(text: string, p: Pattern) returns (r: Option<string>)
    ensures r == FirstMatch(text, p)
  {
    var i := 0;
    while i <= |text|
      invariant i <= |text| + 1
      invariant i <= |text| ==> FirstMatch(text, p) == FirstMatchFrom(text, p, i)
      invariant i == |text| + 1 ==> FirstMatch(text, p) == None
      decreases |text| + 1 - i
    {
      r := MatchAt(text, p, i);
      if r.Some? {
        return;
      }
      i := i + 1;
    }
    return None;
  }

  // ----- float() -----

  function DigitValue(c: char): nat
  {
    if IsDigit(c) then c as nat - '0' as nat else 0
  }

  /** The natural number a string of decimal digits denotes. */
  function DigitsValue(s: string): nat
  {
    if s == [] then 0 else 10 * DigitsValue(s[..|s| - 1]) + DigitValue(s[|s| - 1])
  }

  function Pow10(n: nat): (r: nat)
    ensures r > 0
  {
    if n == 0 then 1 else 10 * Pow10(n - 1)
  }

  /** Reads `tok` from position `i` on as Python's `float()` reads a token of
      digits and dots. `whole` and `frac` are the digits read before and after
      the dot, `places` the number of fraction digits, `dot` whether the dot has
      been read and `digit` whether any digit has. */
  function ReadDecimal(tok: string, i: nat, whole: nat, frac: nat, places: nat, dot: bool, digit: bool): (r: Option<real>)
    requires i <= |tok|
    requires frac < Pow10(places)
    ensures r.Some? ==> whole as real <= r.value
    decreases |tok| - i
  {
    if i == |tok| then
      if digit then Some(whole as real + frac as real / Pow10(places) as real) else None
    else if IsDigit(tok[i]) then
      if dot then ReadDecimal(tok, i + 1, whole, 10 * frac + DigitValue(tok[i]), places + 1, dot, true)
      else ReadDecimal(tok, i + 1, 10 * whole + DigitValue(tok[i]), frac, places, dot, true)
    else if tok[i] == '.' && !dot then ReadDecimal(tok, i + 1, whole, frac, places, true, digit)
    else None
  }

  /** `float(tok)` for a captured token: an optional whole part, then optionally
      a dot and a fraction, with at least one digit in all. */
  function ParseFloat(tok: string): (r: Option<real>)
    ensures r.Some? ==> r.value >= 0.0
  {
    ReadDecimal(tok, 0, 0, 0, 0, false, false)
  }

  predicate NumberCharsFrom(tok: string, i: nat)
  {
    forall k :: i <= k < |tok| ==> IsNumberChar(tok[k], true)
  }

  predicate DigitFrom(tok: string, i: nat)
  {
    exists k :: i <= k < |tok| && IsDigit(tok[k])
  }

  predicate NoDotFrom(tok: string, i: nat)
  {
    forall k :: i <= k < |tok| ==> tok[k] != '.'
  }

  predicate OneDotAtMostFrom(tok: string, i: nat)
  {
    forall a, b :: i <= a < b < |tok| && tok[a] == '.' ==> tok[b] != '.'
  }

  lemma {:induction false} ReadDecimalAccepts(tok: string, i: nat, whole: nat, frac: nat, places: nat, dot: bool, digit: bool)
    requires i <= |tok| && frac < Pow10(places)
    ensures ReadDecimal(tok, i, whole, frac, places, dot, digit).Some? <==>
      && NumberCharsFrom(tok, i)
      && (digit || DigitFrom(tok, i))
      && (if dot then NoDotFrom(tok, i) else OneDotAtMostFrom(tok, i))
    decreases |tok| - i
  {
    if i < |tok| {
      var c := tok[i];
      if IsDigit(c) {
        if dot {
          ReadDecimalAccepts(tok, i + 1, whole, 10 * frac + DigitValue(c), places + 1, dot, true);
        } else {
          ReadDecimalAccepts(tok, i + 1, 10 * whole + DigitValue(c), frac, places, dot, true);
          if OneDotAtMostFrom(tok, i + 1) {
            forall a, b | i <= a < b < |tok| && tok[a] == '.' ensures tok[b] != '.' {
              assert a != i;
            }
          }
        }
      } else if c == '.' && !dot {
        ReadDecimalAccepts(tok, i + 1, whole, frac, places, true, digit);
        if NoDotFrom(tok, i + 1) {
          forall a, b | i <= a < b < |tok| && tok[a] == '.' ensures tok[b] != '.' {
            assert b > i;
          }
        }
        if DigitFrom(tok, i) {
          var k :| i <= k < |tok| && IsDigit(tok[k]);
          assert k != i;
        }
      } else {
        assert !NumberCharsFrom(tok, i) || (dot && !NoDotFrom(tok, i));
      }
    }
  }

  /** `float()` accepts a token exactly when it is made of digits and dots, holds
      a digit and holds at most one dot: it rejects ".", "1.2.3" and "..". */
  lemma {:induction false} ParseFloatAccepts(tok: string)
    ensures ParseFloat(tok).Some? <==> NumberCharsFrom(tok, 0) && DigitFrom(tok, 0) && OneDotAtMostFrom(tok, 0)
  {
    ReadDecimalAccepts(tok, 0, 0, 0, 0, false, false);
  }

  lemma {:induction false} ReadDigits(tok: string, i: nat)
    requires 0 < i <= |tok| && forall k :: 0 <= k < |tok| ==> IsDigit(tok[k])
    ensures ReadDecimal(tok, i, DigitsValue(tok[..i]), 0, 0, false, true) == Some(DigitsValue(tok) as real)
    decreases |tok| - i
  {
    if i < |tok| {
      assert tok[..i + 1][..i] == tok[..i];
      ReadDigits(tok, i + 1);
    } else {
      assert tok[..i] == tok;
    }
  }

  /** A token of digits alone converts to the whole number it denotes. */
  lemma {:induction false} ParseDigits(tok: string)
    requires |tok| > 0 && forall k :: 0 <= k < |tok| ==> IsDigit(tok[k])
    ensures ParseFloat(tok) == Some(DigitsValue(tok) as real)
  {
    assert DigitsValue(tok[..1]) == DigitValue(tok[0]) by {
      assert tok[..1][..0] == [];
    }
    ReadDigits(tok, 1);
  }

  predicate AllDigits(s: string)
  {
    forall k :: 0 <= k < |s| ==> IsDigit(s[k])
  }

  lemma {:induction false} DigitsBelowPow10(s: string)
    ensures DigitsValue(s) < Pow10(|s|)
  {
    if s != [] {
      DigitsBelowPow10(s[..|s| - 1]);
    }
  }

  /** Reading the fraction digits of `a + "." + b` from the `j`-th on. */
  lemma {:induction false} ReadFraction(a: string, b: string, j: nat, whole: nat)
    requires AllDigits(b) && j <= |b| && |a| + |b| > 0
    ensures DigitsValue(b[..j]) < Pow10(j)
    ensures var tok := a + "." + b;
      ReadDecimal(tok, |a| + 1 + j, whole, DigitsValue(b[..j]), j, true, |a| > 0 || j > 0)
        == Some(whole as real + DigitsValue(b) as real / Pow10(|b|) as real)
    decreases |b| - j
  {
    DigitsBelowPow10(b[..j]);
    var tok := a + "." + b;
    if j == |b| {
      assert b[..j] == b;
    } else {
      assert tok[|a| + 1 + j] == b[j];
      assert b[..j + 1][..j] == b[..j];
      ReadFraction(a, b, j + 1, whole);
    }
  }

  /** Reading the whole-part digits of `a + "." + b` from the `j`-th on. */
  lemma {:induction false} ReadWhole(a: string, b: string, j: nat)
    requires AllDigits(a) && AllDigits(b) && j <= |a| && |a| + |b| > 0
    ensures var tok := a + "." + b;
      ReadDecimal(tok, j, DigitsValue(a[..j]), 0, 0, false, j > 0)
        == Some(DigitsValue(a) as real + DigitsValue(b) as real / Pow10(|b|) as real)
    decreases |a| - j
  {
    var tok := a + "." + b;
    if j == |a| {
      assert a[..j] == a;
      assert tok[|a|] == '.';
      ReadFraction(a, b, 0, DigitsValue(a));
      assert b[..0] == [];
    } else {
      assert tok[j] == a[j];
      assert a[..j + 1][..j] == a[..j];
      ReadWhole(a, b, j + 1);
    }
  }

  /** `float()` of a capture with a dot: the whole part plus the fraction digits
      over the matching power of ten; either part may be empty, not both. */
  lemma {:induction false} ParseDecimal(a: string, b: string)
    requires AllDigits(a) && AllDigits(b) && |a| + |b| > 0
    ensures ParseFloat(a + "." + b) == Some(DigitsValue(a) as real + DigitsValue(b) as real / Pow10(|b|) as real)
  {
    assert a[..0] == [];
    ReadWhole(a, b, 0);
  }

  /** `str(e)` of the `ValueError` that `float(tok)` raises. */
  function FloatError(tok: string): string
  {
    "could not convert string to float: '" + tok + "'"
  }

  // ----- _extract_metrics -----

  /** What the loop makes of one table entry: no match, a capture `float()`
      converts, or a capture it rejects. */
  datatype Capture = Missing | Converted(value: real) | Rejected(token: string)

  function CaptureOf(text: string, p: Pattern): (c: Capture)
    ensures c.Missing? <==> FirstMatch(text, p).None?
    ensures c.Converted? ==> Some(c.value) == ParseFloat(FirstMatch(text, p).value)
    ensures c.Rejected? ==> FirstMatch(text, p) == Some(c.token) && ParseFloat(c.token).None?
  {
    match FirstMatch(text, p)
    case None => Missing
    case Some(tok) =>
      match ParseFloat(tok)
      case None => Rejected(tok)
      case Some(v) => Converted(v)
  }

  /** The key of every table entry, in order. */
  function Keys(table: seq<Pattern>): (keys: seq<string>)
    ensures |keys| == |table|
  {
    seq(|table|, i requires 0 <= i < |table| => table[i].key)
  }

  /** What the loop makes of every table entry, in order. */
  function Captures(text: string, table: seq<Pattern>): (caps: seq<Capture>)
    ensures |caps| == |table|
  {
    seq(|table|, i requires 0 <= i < |table| => CaptureOf(text, table[i]))
  }

  /** The metric map after the loop has handled the first `n` entries, each
      with its key and capture, or the error the first rejected capture raised. */
  function Collect(keys: seq<string>, caps: seq<Capture>, n: nat): Result<Metrics>
    requires n <= |caps| == |keys|
  {
    if n == 0 then Ok(map[])
    else
      match Collect(keys, caps, n - 1)
      case Err(e) => Err(e)
      case Ok(m) =>
        match caps[n - 1]
        case Missing => Ok(m)
        case Converted(v) => Ok(m[keys[n - 1] := v])
        case Rejected(tok) => Err(FloatError(tok))
  }

  /** `_extract_metrics` over a table of keys and patterns. */
  function Extract(text: string, table: seq<Pattern>): Result<Metrics>
  {
    Collect(Keys(table), Captures(text, table), |table|)
  }

  predicate Distinct(keys: seq<string>)
  {
    forall a, b :: 0 <= a < b < |keys| ==> keys[a] != keys[b]
  }

  predicate DistinctKeys(table: seq<Pattern>)
  {
    Distinct(Keys(table))
  }

  /** The capture of `p`, if there is one, converts. */
  predicate Converts(text: string, p: Pattern)
  {
    !CaptureOf(text, p).Rejected?
  }

  /** With distinct keys, a successful loop holds exactly the keys whose capture
      is present, each with its converted value; no key is defaulted. */
  lemma {:induction false} CollectKeys(keys: seq<string>, caps: seq<Capture>, n: nat)
    requires n <= |caps| == |keys| && Distinct(keys) && Collect(keys, caps, n).Ok?
    ensures var m := Collect(keys, caps, n).value;
      && (forall key :: key in m ==> exists j :: 0 <= j < n && keys[j] == key)
      && (forall j :: 0 <= j < n ==>
            && (keys[j] in m <==> caps[j].Converted?)
            && (keys[j] in m ==> m[keys[j]] == caps[j].value))
  {
    if n > 0 {
      var m := Collect(keys, caps, n).value;
      CollectKeys(keys, caps, n - 1);
      var m0 := Collect(keys, caps, n - 1).value;
      var key := keys[n - 1];
      assert key !in m0;
      match caps[n - 1]
      case Missing =>
        assert m == m0;
      case Converted(v) =>
        assert m == m0[key := v];
        forall j | 0 <= j < n - 1
          ensures keys[j] in m <==> keys[j] in m0
          ensures keys[j] in m0 ==> m[keys[j]] == m0[keys[j]]
        {
          assert keys[j] != key;
        }
    }
  }

  /** The loop succeeds exactly when no capture is rejected. */
  lemma {:induction false} CollectOk(keys: seq<string>, caps: seq<Capture>, n: nat)
    requires n <= |caps| == |keys|
    ensures Collect(keys, caps, n).Ok? <==> forall j :: 0 <= j < n ==> !caps[j].Rejected?
  {
    if n > 0 {
      CollectOk(keys, caps, n - 1);
    }
  }

  /** A failed loop carries the error of the first rejected capture. */
  lemma {:induction false} CollectError(keys: seq<string>, caps: seq<Capture>, n: nat) returns (j: nat)
    requires n <= |caps| == |keys| && Collect(keys, caps, n).Err?
    ensures j < n && caps[j].Rejected?
    ensures forall k :: 0 <= k < j ==> !caps[k].Rejected?
    ensures Collect(keys, caps, n).message == FloatError(caps[j].token)
  {
    if Collect(keys, caps, n - 1).Err? {
      j := CollectError(keys, caps, n - 1);
    } else {
      CollectOk(keys, caps, n - 1);
      j := n - 1;
    }
  }

  /** Once a capture is rejected, later entries do not change the error. */
  lemma {:induction false} CollectStops(keys: seq<string>, caps: seq<Capture>, n: nat)
    requires 0 < n <= |caps| == |keys| && Collect(keys, caps, n).Err?
    ensures Collect(keys, caps, |caps|) == Collect(keys, caps, n)
    decreases |caps| - n
  {
    if n < |caps| {
      CollectStops(keys, caps, n + 1);
    }
  }

  /** With distinct keys, a successful extraction holds exactly the keys whose
      pattern was found, each with `float()` of its first capture. */
  lemma {:induction false} ExtractKeys(text: string, table: seq<Pattern>)
    requires DistinctKeys(table) && Extract(text, table).Ok?
    ensures var m := Extract(text, table).value;
      && (forall key :: key in m ==> exists j :: 0 <= j < |table| && table[j].key == key)
      && (forall j :: 0 <= j < |table| ==>
            && (table[j].key in m <==> FirstMatch(text, table[j]).Some?)
            && (table[j].key in m ==> Some(m[table[j].key]) == ParseFloat(FirstMatch(text, table[j]).value)))
  {
    var keys, caps := Keys(table), Captures(text, table);
    CollectKeys(keys, caps, |table|);
    CollectOk(keys, caps, |table|);
    var m := Extract(text, table).value;
    forall key | key in m ensures exists j :: 0 <= j < |table| && table[j].key == key {
      var j :| 0 <= j < |table| && keys[j] == key;
      assert table[j].key == key;
    }
    forall j | 0 <= j < |table|
      ensures table[j].key in m <==> FirstMatch(text, table[j]).Some?
      ensures table[j].key in m ==> Some(m[table[j].key]) == ParseFloat(FirstMatch(text, table[j]).value)
    {
      assert keys[j] == table[j].key && caps[j] == CaptureOf(text, table[j]);
    }
  }

  /** Extraction fails exactly when some found capture does not convert, and the
      error is that of the first such entry in table order. */
  lemma {:induction false} ExtractFails(text: string, table: seq<Pattern>)
    ensures Extract(text, table).Ok? <==> forall j :: 0 <= j < |table| ==> Converts(text, table[j])
    ensures Extract(text, table).Err? ==>
      exists j :: 0 <= j < |table| && !Converts(text, table[j])
        && (forall k :: 0 <= k < j ==> Converts(text, table[k]))
        && Extract(text, table).message == FloatError(FirstMatch(text, table[j]).value)
  {
    var keys, caps := Keys(table), Captures(text, table);
    CollectOk(keys, caps, |table|);
    assert forall j :: 0 <= j < |table| ==> caps[j] == CaptureOf(text, table[j]);
    if Extract(text, table).Err? {
      var j := CollectError(keys, caps, |table|);
      assert !Converts(text, table[j]);
    }
  }

  /** A capture of a digits-only pattern always converts. */
  lemma {:induction false} DigitsConvert(text: string, p: Pattern)
    requires !p.dotted
    ensures Converts(text, p)
  {
    if FirstMatch(text, p).Some? {
      ParseDigits(FirstMatch(text, p).value);
    }
  }

  /** With distinct keys and digits-only patterns, extraction never fails and
      holds, for each pattern found, the whole number its first capture denotes. */
  lemma {:induction false} DigitsExtract(text: string, table: seq<Pattern>)
    requires DistinctKeys(table) && forall j :: 0 <= j < |table| ==> !table[j].dotted
    ensures Extract(text, table).Ok?
    ensures var m := Extract(text, table).value;
      && (forall key :: key in m ==> exists j :: 0 <= j < |table| && table[j].key == key)
      && (forall j :: 0 <= j < |table| ==>
            && (table[j].key in m <==> FirstMatch(text, table[j]).Some?)
            && (table[j].key in m ==> m[table[j].key] == DigitsValue(FirstMatch(text, table[j]).value) as real))
  {
    forall j | 0 <= j < |table| ensures Converts(text, table[j]) {
      DigitsConvert(text, table[j]);
    }
    ExtractFails(text, table);
    ExtractKeys(text, table);
    var m := Extract(text, table).value;
    forall j | 0 <= j < |table| && table[j].key in m
      ensures m[table[j].key] == DigitsValue(FirstMatch(text, table[j]).value) as real
    {
      ParseDigits(FirstMatch(text, table[j]).value);
    }
  }

  /** One more table entry: a missing capture leaves the map as it is, a
      converted one stores its value under the entry's key, a rejected one fails. */
  lemma {:induction false} CollectNext(text: string, table: seq<Pattern>, n: nat, m: Metrics)
    requires n < |table| && Collect(Keys(table), Captures(text, table), n) == Ok(m)
    ensures var r := Collect(Keys(table), Captures(text, table), n + 1);
      match FirstMatch(text, table[n])
      case None => r == Ok(m)
      case Some(tok) =>
        match ParseFloat(tok)
        case None => r == Err(FloatError(tok))
        case Some(v) => r == Ok(m[table[n].key := v])
  {
    var keys, caps := Keys(table), Captures(text, table);
    assert keys[n] == table[n].key && caps[n] == CaptureOf(text, table[n]);
  }

  /** The loop of `_extract_metrics`: for each table entry in order, search the
      text and, on a match, store the converted capture under the entry's key.
      A capture that does not convert ends the loop with `float()`'s error. */
  method ExtractMetrics(text: string, table: seq<Pattern>) returns (r: Result<Metrics>)
    ensures r == Extract(text, table)
  {
    var keys, caps := Keys(table), Captures(text, table);
    var metrics: Metrics := map[];
    for n := 0 to |table|
      invariant Collect(keys, caps, n) == Ok(metrics)
    {
      var p := table[n];
      var found := Search(text, p);
      CollectNext(text, table, n, metrics);
      if found.Some? {
        var value := ParseFloat(found.value);
        if value.None? {
          CollectStops(keys, caps, n + 1);
          return Err(FloatError(found.value));
        }
        metrics := metrics[p.key := value.value];
      }
    }
    return Ok(metrics);
  }
}
