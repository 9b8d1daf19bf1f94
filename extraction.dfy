/**
  extractJSON: cutting the JSON payload out of free-form model output.

  The function looks for the first '{' and the last '}', and failing that
  for the first '[' and the last ']'. Its guards compare the closing
  position PLUS ONE with -1, which can never be equal, so only the opening
  bracket decides which branch is taken; and because substring swaps its
  arguments, a text whose last closing bracket lies before its first
  opening one (or that has none) gives the text between the two, not a
  JSON fragment. The lemmas below state each of these cases on its own.
*/
module Extraction {
  import opened JsStrings

  /** extractJSON(text), as written: brace branch, bracket branch, fallback. */
  function ExtractJson(text: string): (r: string)
    ensures |r| <= |text|
  {
    var start := IndexOf(text, '{');
    var end := LastIndexOf(text, '}') + 1;
    if start != -1 && end != -1 then Substring(text, start, end)
    else
      var startArr := IndexOf(text, '[');
      var endArr := LastIndexOf(text, ']') + 1;
      if startArr != -1 && endArr != -1 then Substring(text, startArr, endArr)
      else text
  }

  /** The slice of text the extractor keeps for an opening bracket first
      found at `open` and a closing bracket last found at `close` (or at -1
      when there is none): from the one through the other when the closing
      bracket comes later, otherwise the text strictly between them. */
  function BracketSlice(text: string, open: nat, close: int): (r: string)
    requires open < |text| && -1 <= close < |text|
    ensures close >= open ==> |r| == close - open + 1
    ensures close < open ==> |r| == open - close - 1
  {
    if close >= open then text[open..close + 1] else text[close + 1..open]
  }

  /** A first occurrence of c at position i, characterised without indexOf. */
  predicate FirstAt(text: string, c: char, i: int) {
    0 <= i < |text| && text[i] == c && c !in text[..i]
  }

  /** A last occurrence of c at position j, or j == -1 and no c at all. */
  predicate LastAt(text: string, c: char, j: int) {
    (j == -1 && c !in text) || (0 <= j < |text| && text[j] == c && c !in text[j + 1..])
  }

  lemma IndexOfIsFirst(text: string, c: char, i: int)
    requires FirstAt(text, c, i)
    ensures IndexOf(text, c) == i
  {
  }

  lemma LastIndexOfIsLast(text: string, c: char, j: int)
    requires LastAt(text, c, j)
    ensures LastIndexOf(text, c) == j
  {
  }

  /** Whenever the text has a '{', the brace branch decides the result,
      whatever the text says about '}', '[' or ']': the slice from the first
      '{' through the last '}' if that '}' is not earlier, otherwise the text
      between them (the prefix before the first '{' when there is no '}'). */
  lemma BraceBranch(text: string, i: int, j: int)
    requires FirstAt(text, '{', i)
    requires LastAt(text, '}', j)
    ensures ExtractJson(text) == BracketSlice(text, i, j)
  {
    IndexOfIsFirst(text, '{', i);
    LastIndexOfIsLast(text, '}', j);
  }

  /** With no '{' but a '[', the same rules apply to '[' and ']'. */
  lemma BracketBranch(text: string, i: int, j: int)
    requires '{' !in text
    requires FirstAt(text, '[', i)
    requires LastAt(text, ']', j)
    ensures ExtractJson(text) == BracketSlice(text, i, j)
  {
    IndexOfIsFirst(text, '[', i);
    LastIndexOfIsLast(text, ']', j);
  }

  /** With neither '{' nor '[', the text comes back unchanged, whatever
      closing brackets it holds. */
  lemma Fallback(text: string)
    requires '{' !in text && '[' !in text
    ensures ExtractJson(text) == text
  {
  }

  /** A text with a '{' and no '}' gives the prefix before its first '{'. */
  lemma UnclosedBraceGivesPrefix(text: string, i: int)
    requires FirstAt(text, '{', i)
    requires '}' !in text
    ensures ExtractJson(text) == text[..i]
  {
    BraceBranch(text, i, -1);
  }

  /** One JSON object with prose before and after it: when the prose before
      has no '{' and the prose after has no '}', the object is what comes
      out. */
  lemma ObjectInProse(before: string, obj: string, after: string)
    requires |obj| >= 2 && obj[0] == '{' && obj[|obj| - 1] == '}'
    requires '{' !in before && '}' !in after
    ensures ExtractJson(before + obj + after) == obj
  {
    var text := before + obj + after;
    var i, j := |before|, |before| + |obj| - 1;
    assert text[..i] == before;
    assert text[j + 1..] == after;
    BraceBranch(text, i, j);
    assert text[i..j + 1] == obj;
  }

  /** One JSON array with prose around it, in a text without any '{': when
      the prose before has no '[' and the prose after has no ']', the array
      is what comes out. */
  lemma ArrayInProse(before: string, arr: string, after: string)
    requires |arr| >= 2 && arr[0] == '[' && arr[|arr| - 1] == ']'
    requires '{' !in before + arr + after
    requires '[' !in before && ']' !in after
    ensures ExtractJson(before + arr + after) == arr
  {
    var text := before + arr + after;
    var i, j := |before|, |before| + |arr| - 1;
    assert text[..i] == before;
    assert text[j + 1..] == after;
    BracketBranch(text, i, j);
    assert text[i..j + 1] == arr;
  }

  /** The result is always one contiguous slice of the input. */
  lemma ExtractIsSlice(text: string)
    ensures exists lo, hi :: 0 <= lo <= hi <= |text| && ExtractJson(text) == text[lo..hi]
  {
    var start := IndexOf(text, '{');
    var end := LastIndexOf(text, '}') + 1;
    var startArr := IndexOf(text, '[');
    var endArr := LastIndexOf(text, ']') + 1;
    var a, b :=
      if start != -1 then start else if startArr != -1 then startArr else 0,
      if start != -1 then end else if startArr != -1 then endArr else |text|;
    var lo, hi := if a <= b then a else b, if a <= b then b else a;
    assert ExtractJson(text) == text[lo..hi];
  }

  /** A text that starts with '{' and ends with '}' is left as it is. */
  lemma ObjectIsFixedPoint(s: string)
    requires |s| >= 2 && s[0] == '{' && s[|s| - 1] == '}'
    ensures ExtractJson(s) == s
  {
    ObjectInProse("", s, "");
    assert "" + s + "" == s;
  }

  /** Extracting again from an extracted object changes nothing. */
  lemma ExtractIdempotentOnObjects(text: string)
    requires var r := ExtractJson(text); |r| >= 2 && r[0] == '{' && r[|r| - 1] == '}'
    ensures ExtractJson(ExtractJson(text)) == ExtractJson(text)
  {
    ObjectIsFixedPoint(ExtractJson(text));
  }

  /** The known failure mode of the heuristic: an array whose first and
      last elements are objects loses its outer brackets, because the '{'
      branch wins whenever a '{' is present. */
  lemma ArrayOfObjectsLosesBrackets(inner: string)
    requires |inner| >= 2 && inner[0] == '{' && inner[|inner| - 1] == '}'
    ensures ExtractJson("[" + inner + "]") == inner
  {
    ObjectInProse("[", inner, "]");
  }
}
