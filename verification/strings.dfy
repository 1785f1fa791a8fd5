/** The string queries of the .NET runtime the inspector relies on. The
    prefix and suffix tests are modelled as ordinal, character-by-character
    comparison. */
module Strings {

  /** `s.StartsWith(prefix, InvariantCulture)` */
  predicate StartsWith(s: string, prefix: string) {
    |prefix| <= |s| && s[..|prefix|] == prefix
  }

  /** `s.EndsWith(suffix, InvariantCulture)` */
  predicate EndsWith(s: string, suffix: string) {
    |suffix| <= |s| && s[|s| - |suffix|..] == suffix
  }

  /** `s.IndexOf(c)`: the position of the first occurrence of `c`, or -1. */
  function IndexOf(s: string, c: char): (r: int)
    ensures -1 <= r < |s|
    ensures r == -1 <==> c !in s
    ensures 0 <= r ==> s[r] == c && c !in s[..r]
  {
    if |s| == 0 then -1
    else if s[0] == c then 0
    else
      var k := IndexOf(s[1..], c);
      if k < 0 then -1
      else
        assert s[..k + 1] == [s[0]] + s[1..][..k];
        k + 1
  }

  /** The first occurrence of `c` lies beyond position 0 exactly when `c`
      occurs at all and the string does not start with it. */
  lemma IndexOfPastStart(s: string, c: char)
    ensures IndexOf(s, c) > 0 <==> c in s && s[0] != c
  {
    if c in s && s[0] != c {
      assert IndexOf(s, c) != 0;
    }
  }
}
