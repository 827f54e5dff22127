/** The string operations the statistics engine applies to column names:
    Python's `str.startswith`, the `in` substring test and `str.replace`. */
module Text {

  predicate StartsWith(s: string, prefix: string)
  {
    |prefix| <= |s| && s[..|prefix|] == prefix
  }

  /** `str.startswith` with a tuple of prefixes. */
  predicate StartsWithAny(s: string, prefixes: seq<string>)
  {
    exists i :: 0 <= i < |prefixes| && StartsWith(s, prefixes[i])
  }

  /** Python's `sub in s` for strings. */
  predicate Contains(s: string, sub: string)
    decreases |s|
  {
    StartsWith(s, sub) || (|s| > 0 && Contains(s[1..], sub))
  }

  /** Python's `s.replace(pattern, replacement)` for a non-empty pattern:
      occurrences are replaced left to right without overlapping. */
  function ReplaceAll(s: string, pattern: string, replacement: string): string
    requires |pattern| > 0
    decreases |s|
  {
    if |s| == 0 then ""
    else if StartsWith(s, pattern) then replacement + ReplaceAll(s[|pattern|..], pattern, replacement)
    else [s[0]] + ReplaceAll(s[1..], pattern, replacement)
  }

  /** Replacing one character by a string without that character leaves no
      occurrence of it: column names shown with '_' turned into ' ' contain
      no underscore. */
  lemma {:induction false} ReplaceCharRemovesIt(s: string, c: char, replacement: string)
    requires c !in replacement
    ensures c !in ReplaceAll(s, [c], replacement)
    decreases |s|
  {
    if |s| > 0 {
      if StartsWith(s, [c]) {
        ReplaceCharRemovesIt(s[1..], c, replacement);
      } else {
        assert s[0] != c;
        ReplaceCharRemovesIt(s[1..], c, replacement);
      }
    }
  }
}
