/** Normalisation of one page of extracted PDF text: whitespace runs become one
    space, the ends are trimmed, and a space is put between an ASCII lower-case
    letter and the ASCII upper-case letter right after it. */
module PageText {
  import opened Text

  /** Every whitespace character is a plain space and no two are adjacent. */
  predicate SinglySpaced(s: string)
  {
    && (forall i :: 0 <= i < |s| && IsSpace(s[i]) ==> s[i] == ' ')
    && (forall i :: 0 <= i < |s| - 1 ==> !(IsSpace(s[i]) && IsSpace(s[i + 1])))
  }

  /** Neither end is whitespace. */
  predicate Trimmed(s: string)
  {
    s == [] || (!IsSpace(s[0]) && !IsSpace(s[|s| - 1]))
  }

  /** No lower-case letter is immediately followed by an upper-case letter. */
  predicate NoCamel(s: string)
  {
    forall i :: 0 <= i < |s| - 1 ==> !(IsLower(s[i]) && IsUpper(s[i + 1]))
  }

  /** `s` without its leading whitespace. */
  function TrimStart(s: string): (r: string)
    ensures |r| <= |s|
    ensures r == [] || !IsSpace(r[0])
  {
    if s != [] && IsSpace(s[0]) then TrimStart(s[1..]) else s
  }

  /** `TrimStart` removes a prefix of `s`, and that prefix is whitespace. */
  lemma {:induction false} TrimStartBlank(s: string)
    ensures var k := |s| - |TrimStart(s)|;
      TrimStart(s) == s[k..] && IsBlank(s[..k])
  {
    if s != [] && IsSpace(s[0]) {
      TrimStartBlank(s[1..]);
      var k := |s| - |TrimStart(s)|;
      assert s[1..][k - 1..] == s[k..];
      forall i | 0 <= i < k ensures IsSpace(s[..k][i]) {
        if i > 0 {
          assert s[..k][i] == s[1..][..k - 1][i - 1];
        }
      }
    }
  }

  /** Leading whitespace does not change what is left once all whitespace is removed. */
  lemma {:induction false} TrimStartSqueeze(s: string)
    ensures Squeeze(TrimStart(s)) == Squeeze(s)
  {
    if s != [] && IsSpace(s[0]) {
      TrimStartSqueeze(s[1..]);
    }
  }

  /** `re.sub(r'\s+', ' ', s)`: each maximal whitespace run becomes one space. */
  function Collapse(s: string): (r: string)
    ensures s == [] <==> r == []
    ensures s != [] ==> r[0] == (if IsSpace(s[0]) then ' ' else s[0])
    decreases |s|
  {
    if s == [] then []
    else if IsSpace(s[0]) then [' '] + Collapse(TrimStart(s))
    else [s[0]] + Collapse(s[1..])
  }

  /** `s` without its trailing whitespace. */
  function TrimEnd(s: string): (r: string)
    ensures |r| <= |s|
    ensures r == [] || !IsSpace(r[|r| - 1])
  {
    if s != [] && IsSpace(s[|s| - 1]) then TrimEnd(s[..|s| - 1]) else s
  }

  /** `TrimEnd` removes a suffix of `s`, and that suffix is whitespace. */
  lemma {:induction false} TrimEndBlank(s: string)
    ensures var k := |TrimEnd(s)|;
      TrimEnd(s) == s[..k] && IsBlank(s[k..])
  {
    if s != [] && IsSpace(s[|s| - 1]) {
      var t := s[..|s| - 1];
      TrimEndBlank(t);
      var k := |TrimEnd(s)|;
      assert t[..k] == s[..k];
      forall i | k <= i < |s| ensures IsSpace(s[i]) {
        if i < |s| - 1 {
          assert s[i] == t[k..][i - k];
        }
      }
    }
  }

  /** Trailing whitespace does not change what is left once all whitespace is removed. */
  lemma {:induction false} TrimEndSqueeze(s: string)
    ensures Squeeze(TrimEnd(s)) == Squeeze(s)
  {
    if s != [] && IsSpace(s[|s| - 1]) {
      var t := s[..|s| - 1];
      TrimEndSqueeze(t);
      assert s == t + [s[|s| - 1]];
      SqueezeAppend(t, [s[|s| - 1]]);
    }
  }

  /** Python's `str.strip()`. */
  function Strip(s: string): string
  {
    TrimEnd(TrimStart(s))
  }

  /** `re.sub(r'([a-z])([A-Z])', r'\1 \2', s)`: matches are taken left to right
      and scanning resumes after the upper-case letter of each match. */
  function SplitCamel(s: string): (r: string)
    ensures s == [] <==> r == []
    ensures s != [] ==> r[0] == s[0] && r[|r| - 1] == s[|s| - 1]
    decreases |s|
  {
    if |s| < 2 then s
    else if IsLower(s[0]) && IsUpper(s[1]) then [s[0], ' ', s[1]] + SplitCamel(s[2..])
    else [s[0]] + SplitCamel(s[1..])
  }

  /** The text one page contributes to the report, before its blank-line separator. */
  function NormalisePage(s: string): string
  {
    SplitCamel(Strip(Collapse(s)))
  }

  // ----- Collapse -----

  lemma {:induction false} CollapseSinglySpaced(s: string)
    ensures SinglySpaced(Collapse(s))
    decreases |s|
  {
    if s == [] {
    } else if IsSpace(s[0]) {
      var t := TrimStart(s);
      CollapseSinglySpaced(t);
      var c := Collapse(t);
      assert Collapse(s) == [' '] + c;
      assert c == [] || !IsSpace(c[0]);
    } else {
      CollapseSinglySpaced(s[1..]);
      assert Collapse(s) == [s[0]] + Collapse(s[1..]);
    }
  }

  lemma {:induction false} CollapseSqueeze(s: string)
    ensures Squeeze(Collapse(s)) == Squeeze(s)
    decreases |s|
  {
    if s == [] {
    } else if IsSpace(s[0]) {
      var t := TrimStart(s);
      CollapseSqueeze(t);
      TrimStartSqueeze(s);
      assert Collapse(s)[1..] == Collapse(t);
    } else {
      CollapseSqueeze(s[1..]);
      assert Collapse(s)[1..] == Collapse(s[1..]);
    }
  }

  lemma {:induction false} CollapseOfSinglySpaced(s: string)
    requires SinglySpaced(s)
    ensures Collapse(s) == s
    decreases |s|
  {
    if s != [] {
      var t := s[1..];
      SliceSinglySpaced(s, 1, |s|);
      CollapseOfSinglySpaced(t);
      if IsSpace(s[0]) {
        assert t == [] || !IsSpace(s[1]);
        assert TrimStart(t) == t;
      }
    }
  }

  /** Leading whitespace of `a + b` lies within `a` when `a` ends in a non-space. */
  lemma {:induction false} TrimStartAppend(a: string, b: string)
    requires a != [] && !IsSpace(a[|a| - 1])
    ensures TrimStart(a + b) == TrimStart(a) + b
    ensures TrimStart(a) != [] && !IsSpace(TrimStart(a)[|TrimStart(a)| - 1])
  {
    if IsSpace(a[0]) {
      assert (a + b)[1..] == a[1..] + b;
      TrimStartAppend(a[1..], b);
    }
  }

  lemma {:induction false} TrimStartOfBlank(w: string, b: string)
    requires IsBlank(w) && (b == [] || !IsSpace(b[0]))
    ensures TrimStart(w + b) == b
  {
    if w == [] {
      assert w + b == b;
    } else {
      assert (w + b)[1..] == w[1..] + b;
      TrimStartOfBlank(w[1..], b);
    }
  }

  /** Collapsing works piecewise when the cut is not inside a whitespace run. */
  lemma {:induction false} CollapseAppend(a: string, b: string)
    requires a == [] || !IsSpace(a[|a| - 1])
    ensures Collapse(a + b) == Collapse(a) + Collapse(b)
    decreases |a|
  {
    if a == [] {
      assert a + b == b;
    } else if IsSpace(a[0]) {
      var t := TrimStart(a);
      TrimStartAppend(a, b);
      CollapseAppend(t, b);
    } else {
      assert (a + b)[1..] == a[1..] + b;
      CollapseAppend(a[1..], b);
    }
  }

  /** A maximal whitespace run at the front becomes exactly one space. */
  lemma {:induction false} CollapseRun(w: string, b: string)
    requires w != [] && IsBlank(w) && (b == [] || !IsSpace(b[0]))
    ensures Collapse(w + b) == " " + Collapse(b)
  {
    TrimStartOfBlank(w, b);
  }

  /** A whitespace run between two non-whitespace characters becomes exactly one
      space, and the text on either side is collapsed on its own. */
  lemma {:induction false} CollapseBetween(a: string, w: string, b: string)
    requires a == [] || !IsSpace(a[|a| - 1])
    requires w != [] && IsBlank(w)
    requires b == [] || !IsSpace(b[0])
    ensures Collapse(a + w + b) == Collapse(a) + " " + Collapse(b)
  {
    assert a + w + b == a + (w + b);
    CollapseAppend(a, w + b);
    CollapseRun(w, b);
  }

  // ----- Strip -----

  /** `Strip(s)` is a slice `s[a..b]` of `s` and only whitespace lies outside it. */
  lemma {:induction false} StripEnds(s: string) returns (a: nat, b: nat)
    ensures a <= b <= |s| && Strip(s) == s[a..b]
    ensures IsBlank(s[..a]) && IsBlank(s[b..])
    ensures Trimmed(Strip(s))
  {
    var t := TrimStart(s);
    var r := TrimEnd(t);
    TrimStartBlank(s);
    TrimEndBlank(t);
    a := |s| - |t|;
    b := a + |r|;
    assert r == s[a..b];
    assert t[|r|..] == s[b..];
    if r != [] {
      assert r[0] == t[0];
    }
  }

  /** `not s.strip()`: stripping leaves nothing exactly when the text is all whitespace. */
  lemma {:induction false} StripEmptyBlank(s: string)
    ensures Strip(s) == [] <==> IsBlank(s)
  {
    var a, b := StripEnds(s);
    if Strip(s) == [] {
      forall i | 0 <= i < |s| ensures IsSpace(s[i]) {
        if i < a {
          assert s[i] == s[..a][i];
        } else {
          assert s[i] == s[b..][i - b];
        }
      }
    } else {
      assert Strip(s)[0] == s[a];
    }
  }

  lemma {:induction false} SliceSinglySpaced(s: string, a: nat, b: nat)
    requires a <= b <= |s| && SinglySpaced(s)
    ensures SinglySpaced(s[a..b])
  {
    var r := s[a..b];
    forall i | 0 <= i < |r| - 1 ensures !(IsSpace(r[i]) && IsSpace(r[i + 1])) {
      assert r[i] == s[a + i] && r[i + 1] == s[a + i + 1];
    }
  }

  lemma {:induction false} StripSqueeze(s: string)
    ensures Squeeze(Strip(s)) == Squeeze(s)
  {
    TrimStartSqueeze(s);
    TrimEndSqueeze(TrimStart(s));
  }

  lemma {:induction false} TrimStartOfTrimmed(s: string)
    requires Trimmed(s)
    ensures TrimStart(s) == s
  {
  }

  lemma {:induction false} TrimEndOfTrimmed(s: string)
    requires Trimmed(s)
    ensures TrimEnd(s) == s
  {
  }

  // ----- SplitCamel -----

  lemma {:induction false} SplitCamelNoCamel(s: string)
    ensures NoCamel(SplitCamel(s))
    decreases |s|
  {
    if |s| < 2 {
    } else if IsLower(s[0]) && IsUpper(s[1]) {
      SplitCamelNoCamel(s[2..]);
      var t := SplitCamel(s[2..]);
      var r := [s[0], ' ', s[1]] + t;
      forall i | 0 <= i < |r| - 1 ensures !(IsLower(r[i]) && IsUpper(r[i + 1])) {
        if i >= 3 {
          assert r[i] == t[i - 3] && r[i + 1] == t[i - 2];
        }
      }
    } else {
      SplitCamelNoCamel(s[1..]);
      var t := SplitCamel(s[1..]);
      var r := [s[0]] + t;
      forall i | 0 <= i < |r| - 1 ensures !(IsLower(r[i]) && IsUpper(r[i + 1])) {
        if i >= 1 {
          assert r[i] == t[i - 1] && r[i + 1] == t[i];
        }
      }
    }
  }

  /** The only whitespace `SplitCamel` inserts is a plain space. */
  lemma {:induction false} SplitCamelPlainSpaces(s: string)
    requires SinglySpaced(s)
    ensures forall i :: 0 <= i < |SplitCamel(s)| && IsSpace(SplitCamel(s)[i]) ==> SplitCamel(s)[i] == ' '
    decreases |s|
  {
    if |s| < 2 {
    } else if IsLower(s[0]) && IsUpper(s[1]) {
      SliceSinglySpaced(s, 2, |s|);
      SplitCamelPlainSpaces(s[2..]);
      var t := SplitCamel(s[2..]);
      var r := [s[0], ' ', s[1]] + t;
      forall i | 0 <= i < |r| && IsSpace(r[i]) ensures r[i] == ' ' {
        if i >= 3 {
          assert r[i] == t[i - 3];
        }
      }
    } else {
      SliceSinglySpaced(s, 1, |s|);
      SplitCamelPlainSpaces(s[1..]);
      var t := SplitCamel(s[1..]);
      var r := [s[0]] + t;
      forall i | 0 <= i < |r| && IsSpace(r[i]) ensures r[i] == ' ' {
        if i >= 1 {
          assert r[i] == t[i - 1];
        }
      }
    }
  }

  /** `SplitCamel` puts its space between two letters, so it never makes two
      whitespace characters adjacent. */
  lemma {:induction false} SplitCamelNoDoubleSpace(s: string)
    requires SinglySpaced(s)
    ensures forall i :: 0 <= i < |SplitCamel(s)| - 1 ==> !(IsSpace(SplitCamel(s)[i]) && IsSpace(SplitCamel(s)[i + 1]))
    decreases |s|
  {
    if |s| < 2 {
    } else if IsLower(s[0]) && IsUpper(s[1]) {
      SliceSinglySpaced(s, 2, |s|);
      SplitCamelNoDoubleSpace(s[2..]);
      var t := SplitCamel(s[2..]);
      var r := [s[0], ' ', s[1]] + t;
      forall i | 0 <= i < |r| - 1 ensures !(IsSpace(r[i]) && IsSpace(r[i + 1])) {
        if i >= 3 {
          assert r[i] == t[i - 3] && r[i + 1] == t[i - 2];
        }
      }
    } else {
      SliceSinglySpaced(s, 1, |s|);
      SplitCamelNoDoubleSpace(s[1..]);
      var t := SplitCamel(s[1..]);
      var r := [s[0]] + t;
      assert t[0] == s[1];
      forall i | 0 <= i < |r| - 1 ensures !(IsSpace(r[i]) && IsSpace(r[i + 1])) {
        if i >= 1 {
          assert r[i] == t[i - 1] && r[i + 1] == t[i];
        }
      }
    }
  }

  lemma {:induction false} SplitCamelSinglySpaced(s: string)
    requires SinglySpaced(s)
    ensures SinglySpaced(SplitCamel(s))
  {
    SplitCamelPlainSpaces(s);
    SplitCamelNoDoubleSpace(s);
  }

  lemma {:induction false} SplitCamelSqueeze(s: string)
    ensures Squeeze(SplitCamel(s)) == Squeeze(s)
    decreases |s|
  {
    if |s| < 2 {
    } else if IsLower(s[0]) && IsUpper(s[1]) {
      var t := SplitCamel(s[2..]);
      var r := [s[0], ' ', s[1]] + t;
      SplitCamelSqueeze(s[2..]);
      assert r[1..][1..][1..] == t;
      assert Squeeze(r[1..][1..]) == [s[1]] + Squeeze(t);
      assert Squeeze(r) == [s[0]] + Squeeze(r[1..]) == [s[0], s[1]] + Squeeze(t);
      assert s[1..][1..] == s[2..];
      assert Squeeze(s) == [s[0]] + Squeeze(s[1..]) == [s[0], s[1]] + Squeeze(s[2..]);
    } else {
      SplitCamelSqueeze(s[1..]);
      assert SplitCamel(s)[1..] == SplitCamel(s[1..]);
    }
  }

  lemma {:induction false} SplitCamelOfNoCamel(s: string)
    requires NoCamel(s)
    ensures SplitCamel(s) == s
    decreases |s|
  {
    if |s| >= 2 {
      assert NoCamel(s[1..]) by {
        forall i | 0 <= i < |s| - 2 ensures !(IsLower(s[1..][i]) && IsUpper(s[1..][i + 1])) {
          assert s[1..][i] == s[i + 1] && s[1..][i + 1] == s[i + 2];
        }
      }
      SplitCamelOfNoCamel(s[1..]);
    }
  }

  /** The split works piecewise when the cut does not separate a lower-case
      letter from the upper-case letter right after it: no space is inserted at
      such a cut. */
  lemma {:induction false} SplitCamelAppend(a: string, b: string)
    requires a == [] || b == [] || !(IsLower(a[|a| - 1]) && IsUpper(b[0]))
    ensures SplitCamel(a + b) == SplitCamel(a) + SplitCamel(b)
    decreases |a|
  {
    if a == [] {
      assert a + b == b;
    } else if b == [] {
      assert a + b == a;
    } else if |a| == 1 {
      assert (a + b)[1..] == b;
    } else if IsLower(a[0]) && IsUpper(a[1]) {
      assert (a + b)[2..] == a[2..] + b;
      SplitCamelAppend(a[2..], b);
    } else {
      assert (a + b)[1..] == a[1..] + b;
      SplitCamelAppend(a[1..], b);
    }
  }

  /** A lower-case letter followed by an upper-case one gets a space between
      them, wherever the pair stands. */
  lemma {:induction false} SplitCamelAtPair(a: string, x: char, y: char, b: string)
    requires IsLower(x) && IsUpper(y)
    ensures SplitCamel(a + [x, y] + b) == SplitCamel(a) + [x, ' ', y] + SplitCamel(b)
  {
    assert a + [x, y] + b == a + ([x, y] + b);
    SplitCamelAppend(a, [x, y] + b);
    assert ([x, y] + b)[2..] == b;
  }

  /** Splitting camel case keeps a tidy string tidy and leaves no camel-case pair. */
  lemma {:induction false} SplitCamelTidy(t: string)
    requires SinglySpaced(t) && Trimmed(t)
    ensures var r := SplitCamel(t); SinglySpaced(r) && Trimmed(r) && NoCamel(r)
  {
    SplitCamelSinglySpaced(t);
    SplitCamelNoCamel(t);
  }

  // ----- The whole page -----

  /** A normalised page has no leading or trailing whitespace, no two adjacent
      whitespace characters, only plain spaces as whitespace, and no lower-case
      letter directly followed by an upper-case one. */
  lemma {:induction false} NormalisedPageIsTidy(s: string)
    ensures var r := NormalisePage(s);
      SinglySpaced(r) && Trimmed(r) && NoCamel(r)
  {
    var c := Collapse(s);
    CollapseSinglySpaced(s);
    var a, b := StripEnds(c);
    SliceSinglySpaced(c, a, b);
    SplitCamelTidy(Strip(c));
  }

  /** Normalisation only deletes or inserts whitespace: removing all whitespace
      from the page and from its normal form gives the same string. */
  lemma {:induction false} NormalisePageKeepsText(s: string)
    ensures Squeeze(NormalisePage(s)) == Squeeze(s)
  {
    CollapseSqueeze(s);
    StripSqueeze(Collapse(s));
    SplitCamelSqueeze(Strip(Collapse(s)));
  }

  /** Normalising a normalised page changes nothing. */
  lemma {:induction false} NormalisePageIdempotent(s: string)
    ensures NormalisePage(NormalisePage(s)) == NormalisePage(s)
  {
    var r := NormalisePage(s);
    NormalisedPageIsTidy(s);
    CollapseOfSinglySpaced(r);
    TrimStartOfTrimmed(r);
    TrimEndOfTrimmed(r);
    SplitCamelOfNoCamel(r);
  }

  /** Joining two texts without camel pairs by a space creates no camel pair. */
  lemma {:induction false} SplitCamelOfSpaced(a: string, b: string)
    requires NoCamel(a) && NoCamel(b)
    ensures SplitCamel(a + " " + b) == a + " " + b
  {
    var t := " " + b;
    assert t[0] == ' ';
    SplitCamelAppend(a, t);
    SplitCamelOfNoCamel(a);
    SplitCamelOfLeadingSpace(b);
    assert a + " " + b == a + t;
  }

  lemma {:induction false} SplitCamelOfLeadingSpace(b: string)
    requires NoCamel(b)
    ensures SplitCamel(" " + b) == " " + b
  {
    SplitCamelAppend(" ", b);
    SplitCamelOfNoCamel(b);
  }

  /** Two tidy, non-empty texts separated by any whitespace run normalise to the
      two texts joined by one space: words are never glued together. */
  lemma {:induction false} NormaliseSeparatesWords(a: string, w: string, b: string)
    requires a != [] && SinglySpaced(a) && Trimmed(a) && NoCamel(a)
    requires b != [] && SinglySpaced(b) && Trimmed(b) && NoCamel(b)
    requires w != [] && IsBlank(w)
    ensures NormalisePage(a + w + b) == a + " " + b
  {
    var r := a + " " + b;
    CollapseBetween(a, w, b);
    CollapseOfSinglySpaced(a);
    CollapseOfSinglySpaced(b);
    assert Collapse(a + w + b) == r;
    assert r[0] == a[0] && r[|r| - 1] == b[|b| - 1];
    TrimStartOfTrimmed(r);
    TrimEndOfTrimmed(r);
    assert Strip(r) == r;
    SplitCamelOfSpaced(a, b);
  }

  /** A normalised page is blank exactly when it is empty. */
  lemma {:induction false} NormalisedPageBlank(s: string)
    ensures IsBlank(NormalisePage(s)) <==> NormalisePage(s) == ""
  {
    NormalisedPageIsTidy(s);
  }

  /** A page normalises to the empty string exactly when it is all whitespace. */
  lemma {:induction false} NormalisePageEmpty(s: string)
    ensures NormalisePage(s) == "" <==> IsBlank(s)
  {
    NormalisePageKeepsText(s);
    NormalisedPageBlank(s);
    SqueezeBlank(s);
    SqueezeBlank(NormalisePage(s));
  }
}
