/**
  The JavaScript string and array primitives the application relies on, with
  their ECMAScript semantics written out: the -1 sentinel of indexOf and
  lastIndexOf, the clamping and argument swap of substring, split on a
  one-character separator (which never yields an empty array), join, trim
  and endsWith.
*/
module JsStrings {

  /** The characters String.prototype.trim removes: ECMAScript WhiteSpace
      (tab, vertical tab, form feed, space, no-break space, byte order mark
      and the Space_Separator category) and LineTerminator (line feed,
      carriage return, line and paragraph separators). */
  predicate IsJsWhitespace(c: char) {
    c == '\t' || c == '\n' || c == '\U{000B}' || c == '\U{000C}' || c == '\r' ||
    c == ' ' || c == '\U{00A0}' || c == '\U{1680}' ||
    ('\U{2000}' <= c <= '\U{200A}') ||
    c == '\U{2028}' || c == '\U{2029}' || c == '\U{202F}' || c == '\U{205F}' ||
    c == '\U{3000}' || c == '\U{FEFF}'
  }

  /** s.indexOf(c): the first position of c, or -1 when c does not occur. */
  function IndexOf(s: string, c: char): (r: int)
    ensures -1 <= r < |s|
    ensures r == -1 <==> c !in s
    ensures 0 <= r ==> s[r] == c && c !in s[..r]
  {
    if |s| == 0 then -1
    else if s[0] == c then 0
    else
      var k := IndexOf(s[1..], c);
      assert s == [s[0]] + s[1..];
      if k == -1 then -1
      else
        assert s[..k + 1] == [s[0]] + s[1..][..k];
        k + 1
  }

  /** s.lastIndexOf(c): the last position of c, or -1 when c does not occur. */
  function LastIndexOf(s: string, c: char): (r: int)
    ensures -1 <= r < |s|
    ensures r == -1 <==> c !in s
    ensures 0 <= r ==> s[r] == c && c !in s[r + 1..]
  {
    if |s| == 0 then -1
    else if s[|s| - 1] == c then |s| - 1
    else
      var k := LastIndexOf(s[..|s| - 1], c);
      assert s == s[..|s| - 1] + [s[|s| - 1]];
      if k == -1 then -1
      else
        assert s[k + 1..] == s[..|s| - 1][k + 1..] + [s[|s| - 1]];
        k
  }

  /** A position as substring sees it: clamped into 0..len. */
  function Clamp(x: int, len: nat): (r: nat)
    ensures r <= len
    ensures 0 <= x <= len ==> r == x
  {
    if x < 0 then 0 else if x > len then len else x
  }

  /** s.substring(a, b): both positions clamped into 0..|s|, and swapped
      when the first is the larger, so the result is always a slice of s. */
  function Substring(s: string, a: int, b: int): (r: string)
    ensures |r| <= |s|
    ensures 0 <= a <= b <= |s| ==> r == s[a..b]
    ensures 0 <= b <= a <= |s| ==> r == s[b..a]
  {
    var from, to := Clamp(a, |s|), Clamp(b, |s|);
    if from <= to then s[from..to] else s[to..from]
  }

  /** substring does not care about the order of its two arguments. */
  lemma SubstringSwaps(s: string, a: int, b: int)
    ensures Substring(s, a, b) == Substring(s, b, a)
  {
  }

  /** The number of occurrences of c in s. */
  function CountOf(s: string, c: char): nat
  {
    if |s| == 0 then 0 else (if s[0] == c then 1 else 0) + CountOf(s[1..], c)
  }

  /** s.split(sep) for a one-character separator: the runs of s between
      separators, never an empty array (SplitCount: one more piece than there
      are separators; SplitPiecesAvoidSeparator: no piece holds one). */
  function Split(s: string, sep: char): (r: seq<string>)
    ensures |r| >= 1
  {
    if |s| == 0 then [""]
    else
      var rest := Split(s[1..], sep);
      if s[0] == sep then [""] + rest
      else [[s[0]] + rest[0]] + rest[1..]
  }

  /** A split has one more piece than the text has separators. */
  lemma {:induction false} SplitCount(s: string, sep: char)
    ensures |Split(s, sep)| == CountOf(s, sep) + 1
  {
    if |s| > 0 {
      SplitCount(s[1..], sep);
    }
  }

  /** No piece of a split holds the separator. */
  lemma {:induction false} SplitPiecesAvoidSeparator(s: string, sep: char)
    ensures forall i :: 0 <= i < |Split(s, sep)| ==> sep !in Split(s, sep)[i]
  {
    if |s| > 0 {
      SplitPiecesAvoidSeparator(s[1..], sep);
      var rest := Split(s[1..], sep);
      var r := Split(s, sep);
      if s[0] == sep {
        assert forall i :: 1 <= i < |r| ==> r[i] == rest[i - 1];
      } else {
        assert forall i :: 1 <= i < |r| ==> r[i] == rest[i];
        assert sep !in [s[0]] + rest[0];
      }
    }
  }

  /** xs.join(sep): the pieces with sep between neighbours; "" for no pieces. */
  function Join(xs: seq<string>, sep: string): (r: string)
    ensures |xs| == 0 ==> r == ""
    ensures |xs| == 1 ==> r == xs[0]
    ensures |xs| >= 1 ==> |xs[0]| <= |r| && r[..|xs[0]|] == xs[0]
    ensures |xs| >= 2 ==> |xs[0]| + |sep| <= |r| && r[|xs[0]|..|xs[0]| + |sep|] == sep
  {
    if |xs| == 0 then ""
    else if |xs| == 1 then xs[0]
    else xs[0] + sep + Join(xs[1..], sep)
  }

  /** Joining the pieces of a split with the same separator gives back the
      original text. */
  lemma {:induction false} JoinSplit(s: string, sep: char)
    ensures Join(Split(s, sep), [sep]) == s
  {
    if |s| > 0 {
      var rest := Split(s[1..], sep);
      JoinSplit(s[1..], sep);
      if s[0] == sep {
        assert Split(s, sep) == [""] + rest;
        assert ([""] + rest)[1..] == rest;
        assert s == [sep] + s[1..];
      } else {
        var r := Split(s, sep);
        assert r == [[s[0]] + rest[0]] + rest[1..];
        if |rest| == 1 {
          assert s == [s[0]] + s[1..];
        } else {
          assert r[1..] == rest[1..];
          assert Join(rest, [sep]) == rest[0] + [sep] + Join(rest[1..], [sep]);
          assert s == [s[0]] + s[1..];
        }
      }
    }
  }

  /** Splitting at a separator splits the pieces on both sides of it. */
  lemma {:induction false} SplitAround(a: string, sep: char, b: string)
    ensures Split(a + [sep] + b, sep) == Split(a, sep) + Split(b, sep)
  {
    if |a| == 0 {
      assert a + [sep] + b == [sep] + b;
      SplitCons(sep, b, sep);
    } else {
      var c, t := a[0], a[1..];
      assert a == [c] + t;
      assert a + [sep] + b == [c] + (t + [sep] + b);
      SplitAround(t, sep, b);
      SplitCons(c, t, sep);
      SplitCons(c, t + [sep] + b, sep);
      ConsSplitAppend(c, sep, Split(t, sep), Split(b, sep));
    }
  }

  /** Split of a text one character longer at the front. */
  lemma SplitCons(c: char, t: string, sep: char)
    ensures Split([c] + t, sep) ==
      if c == sep then [""] + Split(t, sep)
      else [[c] + Split(t, sep)[0]] + Split(t, sep)[1..]
  {
    assert ([c] + t)[1..] == t;
  }

  /** Adding a character to the front of a split and appending more pieces
      commute. */
  lemma ConsSplitAppend(c: char, sep: char, ra: seq<string>, rb: seq<string>)
    requires |ra| >= 1
    ensures (if c == sep then [""] + (ra + rb) else [[c] + (ra + rb)[0]] + (ra + rb)[1..]) ==
            (if c == sep then [""] + ra else [[c] + ra[0]] + ra[1..]) + rb
  {
    if c != sep {
      assert (ra + rb)[0] == ra[0];
      assert (ra + rb)[1..] == ra[1..] + rb;
    }
  }

  /** Split undoes Join when no piece contains the separator. */
  lemma {:induction false} SplitJoin(xs: seq<string>, sep: char)
    requires |xs| >= 1
    requires forall i :: 0 <= i < |xs| ==> sep !in xs[i]
    ensures Split(Join(xs, [sep]), sep) == xs
  {
    if |xs| == 1 {
      SplitWithout(xs[0], sep);
    } else {
      SplitJoin(xs[1..], sep);
      SplitWithout(xs[0], sep);
      SplitAround(xs[0], sep, Join(xs[1..], [sep]));
      assert xs == [xs[0]] + xs[1..];
    }
  }

  /** A text without the separator splits into itself alone. */
  lemma {:induction false} SplitWithout(s: string, sep: char)
    requires sep !in s
    ensures Split(s, sep) == [s]
  {
    if |s| > 0 {
      assert sep !in s[1..] by { assert forall i :: 0 <= i < |s| - 1 ==> s[1..][i] == s[i + 1]; }
      SplitWithout(s[1..], sep);
      assert s == [s[0]] + s[1..];
    }
  }

  /** The length of the run of whitespace s starts with. */
  function LeadingSpaces(s: string): (n: nat)
    ensures n <= |s|
    ensures n == |s| || !IsJsWhitespace(s[n])
  {
    if |s| > 0 && IsJsWhitespace(s[0]) then 1 + LeadingSpaces(s[1..]) else 0
  }

  /** The length of the run of whitespace s ends with. */
  function TrailingSpaces(s: string): (n: nat)
    ensures n <= |s|
    ensures n == |s| || !IsJsWhitespace(s[|s| - 1 - n])
  {
    if |s| > 0 && IsJsWhitespace(s[|s| - 1]) then 1 + TrailingSpaces(s[..|s| - 1]) else 0
  }

  /** The leading run is all whitespace. */
  lemma {:induction false} LeadingSpacesAreWhitespace(s: string)
    ensures forall i :: 0 <= i < LeadingSpaces(s) ==> IsJsWhitespace(s[i])
  {
    if |s| > 0 && IsJsWhitespace(s[0]) {
      LeadingSpacesAreWhitespace(s[1..]);
      forall i | 1 <= i < LeadingSpaces(s) ensures IsJsWhitespace(s[i]) {
        assert s[i] == s[1..][i - 1];
      }
    }
  }

  /** The trailing run is all whitespace. */
  lemma {:induction false} TrailingSpacesAreWhitespace(s: string)
    ensures forall i :: |s| - TrailingSpaces(s) <= i < |s| ==> IsJsWhitespace(s[i])
  {
    if |s| > 0 && IsJsWhitespace(s[|s| - 1]) {
      TrailingSpacesAreWhitespace(s[..|s| - 1]);
      forall i | |s| - TrailingSpaces(s) <= i < |s| - 1 ensures IsJsWhitespace(s[i]) {
        assert s[i] == s[..|s| - 1][i];
      }
    }
  }

  /** No whitespace at either end. */
  predicate IsTrimmed(s: string) {
    |s| == 0 || (!IsJsWhitespace(s[0]) && !IsJsWhitespace(s[|s| - 1]))
  }

  /** s.trim(): the leading whitespace run removed, then the trailing one.
      The result has no whitespace at either end, and is a slice of s
      (TrimIsSlice: with only whitespace outside it). */
  function Trim(s: string): (r: string)
    ensures IsTrimmed(r)
    ensures var lo := LeadingSpaces(s); lo + |r| <= |s| && r == s[lo..lo + |r|]
  {
    var t := s[LeadingSpaces(s)..];
    var r := t[..|t| - TrailingSpaces(t)];
    assert |r| > 0 ==> r[0] == t[0];
    r
  }

  /** Everything of s outside what trim keeps is whitespace. */
  lemma TrimIsSlice(s: string)
    ensures var lo := LeadingSpaces(s); var r := Trim(s);
      (forall i :: 0 <= i < lo ==> IsJsWhitespace(s[i])) &&
      (forall i :: lo + |r| <= i < |s| ==> IsJsWhitespace(s[i]))
  {
    var lo := LeadingSpaces(s);
    var t := s[lo..];
    LeadingSpacesAreWhitespace(s);
    TrailingSpacesAreWhitespace(t);
    forall i | lo + |Trim(s)| <= i < |s| ensures IsJsWhitespace(s[i]) {
      assert s[i] == t[i - lo];
    }
  }

  /** Trimming a text that is already trimmed changes nothing. */
  lemma TrimTrimmed(s: string)
    requires IsTrimmed(s)
    ensures Trim(s) == s
  {
  }

  /** A leading space makes no difference to trim. */
  lemma TrimLeadingSpace(s: string)
    ensures Trim([' '] + s) == Trim(s)
  {
    assert ([' '] + s)[1..] == s;
  }

  /** columns.map(c => c.trim()). */
  function TrimAll(xs: seq<string>): (r: seq<string>)
    ensures |r| == |xs|
    ensures forall i :: 0 <= i < |r| ==> r[i] == Trim(xs[i])
  {
    if |xs| == 0 then [] else [Trim(xs[0])] + TrimAll(xs[1..])
  }

  /** s.endsWith(suffix): the last |suffix| characters of s are those of
      suffix, position by position. */
  function EndsWith(s: string, suffix: string): (b: bool)
    ensures b <==> |suffix| <= |s| && forall i :: 0 <= i < |suffix| ==> s[|s| - |suffix| + i] == suffix[i]
  {
    |suffix| <= |s| && s[|s| - |suffix|..] == suffix
  }
}
