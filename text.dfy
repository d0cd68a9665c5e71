/** Character classes, optional values and string joining shared by the three tools.
    Characters are classified as Python's `re` and `str` classify ASCII text;
    every non-ASCII character is treated as neither whitespace, digit nor letter. */
module Text {

  datatype Option<T> = None | Some(value: T)

  datatype Result<T> = Ok(value: T) | Err(message: string)

  /** What a call to the language model gives back: the content of its answer,
      or the message of the exception it raised. */
  datatype Reply = Answer(content: string) | Raised(message: string)

  /** Python's truth value of an optional string: `None` and `""` are false. */
  predicate Truthy(q: Option<string>)
  {
    q.Some? && q.value != ""
  }

  /** ASCII whitespace as `\s` and `str.strip` see it: tab, line feed, vertical tab,
      form feed, carriage return, the four separators 0x1C-0x1F, and space. */
  predicate IsSpace(c: char)
  {
    var n := c as int;
    n == 32 || 9 <= n <= 13 || 28 <= n <= 31
  }

  predicate IsDigit(c: char)
  {
    '0' <= c <= '9'
  }

  predicate IsLower(c: char)
  {
    'a' <= c <= 'z'
  }

  predicate IsUpper(c: char)
  {
    'A' <= c <= 'Z'
  }

  /** ASCII case folding, as IGNORECASE applies it to ASCII letters. */
  function Fold(c: char): (r: char)
    ensures IsUpper(c) ==> IsLower(r) && r as int == c as int + 32
    ensures !IsUpper(c) ==> r == c
  {
    if IsUpper(c) then (c as int + 32) as char else c
  }

  /** `a` and `b` are the same character, or the same ASCII letter in the two cases. */
  predicate SameLetter(a: char, b: char)
  {
    || a == b
    || (IsUpper(a) && b as int == a as int + 32)
    || (IsUpper(b) && a as int == b as int + 32)
  }

  /** Folding identifies exactly the characters that are equal up to ASCII case. */
  lemma FoldSameLetter(a: char, b: char)
    ensures Fold(a) == Fold(b) <==> SameLetter(a, b)
  {
    if IsUpper(a) && !IsUpper(b) {
      assert Fold(a) as int == a as int + 32;
    } else if IsUpper(b) && !IsUpper(a) {
      assert Fold(b) as int == b as int + 32;
    }
  }

  predicate IsBlank(s: string)
  {
    forall i :: 0 <= i < |s| ==> IsSpace(s[i])
  }

  /** The string with every whitespace character removed. */
  function Squeeze(s: string): (r: string)
    ensures |r| <= |s|
  {
    if s == [] then []
    else if IsSpace(s[0]) then Squeeze(s[1..])
    else [s[0]] + Squeeze(s[1..])
  }

  lemma {:induction false} SqueezeAppend(a: string, b: string)
    ensures Squeeze(a + b) == Squeeze(a) + Squeeze(b)
  {
    if a == [] {
      assert a + b == b;
    } else {
      assert (a + b)[1..] == a[1..] + b;
      SqueezeAppend(a[1..], b);
    }
  }

  lemma {:induction false} SqueezeBlank(s: string)
    ensures Squeeze(s) == [] <==> IsBlank(s)
  {
    if s != [] {
      SqueezeBlank(s[1..]);
      if IsBlank(s) {
        assert IsBlank(s[1..]);
      } else if IsSpace(s[0]) {
        var i :| 0 <= i < |s| && !IsSpace(s[i]);
        assert !IsSpace(s[1..][i - 1]);
      }
    }
  }

  /** Python's `sep.join(parts)`. */
  function Join(parts: seq<string>, sep: string): string
  {
    if parts == [] then ""
    else if |parts| == 1 then parts[0]
    else parts[0] + sep + Join(parts[1..], sep)
  }

  /** Each line preceded by a line break. */
  function OnNewLines(lines: seq<string>): string
  {
    if lines == [] then "" else "\n" + lines[0] + OnNewLines(lines[1..])
  }

  lemma {:induction false} JoinBetween(first: string, lines: seq<string>, last: string)
    ensures Join([first] + lines + [last], "\n") == first + OnNewLines(lines) + "\n" + last
    decreases |lines|
  {
    if lines == [] {
      assert [first] + lines + [last] == [first, last];
      assert Join([last], "\n") == last;
    } else {
      var rest := [lines[0]] + lines[1..] + [last];
      assert ([first] + lines + [last])[1..] == rest;
      assert rest == [lines[0]] + lines[1..] + [last];
      JoinBetween(lines[0], lines[1..], last);
    }
  }

  /** `"\n".join([header, *lines, "\n" + footer])`: the header, each line on a
      line of its own, an empty line, and the footer. */
  function Frame(header: string, lines: seq<string>, footer: string): (r: string)
    ensures r == header + OnNewLines(lines) + "\n\n" + footer
  {
    JoinBetween(header, lines, "\n" + footer);
    Join([header] + lines + ["\n" + footer], "\n")
  }
}
