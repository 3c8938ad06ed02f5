/** The string operations the source uses: `startsWith`, `includes` and `toLowerCase`. */
module Strings {

  /** `s.startsWith(prefix)`. */
  predicate StartsWith(s: string, prefix: string)
  {
    |prefix| <= |s| && s[..|prefix|] == prefix
  }

  /** `hay.includes(needle)`: `needle` occurs in `hay` at some position. */
  predicate Contains(hay: string, needle: string)
    ensures Contains(hay, needle) ==> |needle| <= |hay|
    decreases |hay|
  {
    StartsWith(hay, needle) || (hay != [] && Contains(hay[1..], needle))
  }

  /** `Contains` found an occurrence: there is a position where `needle` starts. */
  lemma {:induction false} ContainsAt(hay: string, needle: string)
    requires Contains(hay, needle)
    ensures exists i :: 0 <= i <= |hay| - |needle| && StartsWith(hay[i..], needle)
    decreases |hay|
  {
    if StartsWith(hay, needle) {
      assert hay[0..] == hay;
    } else {
      ContainsAt(hay[1..], needle);
      var i :| 0 <= i <= |hay[1..]| - |needle| && StartsWith(hay[1..][i..], needle);
      assert hay[1..][i..] == hay[i + 1..];
    }
  }

  /** Conversely, an occurrence at any position makes `Contains` true. */
  lemma {:induction false} ContainsFrom(hay: string, needle: string, i: nat)
    requires i <= |hay| && StartsWith(hay[i..], needle)
    ensures Contains(hay, needle)
    decreases i
  {
    if i == 0 {
      assert hay[0..] == hay;
    } else {
      assert hay[1..][i - 1..] == hay[i..];
      ContainsFrom(hay[1..], needle, i - 1);
    }
  }

  /** The empty search term is found in every string. */
  lemma EmptyAlwaysContained(hay: string)
    ensures Contains(hay, "")
  {
  }

  /** ASCII case folding; characters other than `A`-`Z` are left as they are. */
  function LowerChar(c: char): (r: char)
  {
    if 'A' <= c <= 'Z' then (c as int - 'A' as int + 'a' as int) as char else c
  }

  /** `s.toLowerCase()`, restricted to ASCII letters. */
  function Lower(s: string): (r: string)
    ensures |r| == |s|
    ensures forall i :: 0 <= i < |s| ==> r[i] == LowerChar(s[i])
  {
    if s == [] then [] else [LowerChar(s[0])] + Lower(s[1..])
  }

  /** A lower-cased string has no upper-case letter left, and lower-casing it again changes nothing. */
  lemma LowerIdempotent(s: string)
    ensures forall i :: 0 <= i < |s| ==> !('A' <= Lower(s)[i] <= 'Z')
    ensures Lower(Lower(s)) == Lower(s)
  {
  }
}
