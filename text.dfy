/**
 * The few Python string primitives the parsers rely on, over `string` (= seq<char>):
 * `pat in s`, `s.find(c)` and `s.rfind(c)` for a one-character needle.
 */
module Text {

  /** `pat` occurs in `s` starting at index `i`. */
  predicate OccursAt(s: string, pat: string, i: nat)
  {
    i + |pat| <= |s| && s[i..i + |pat|] == pat
  }

  /** Python's `pat in s`, searching from index `i` onwards. */
  function ContainsFrom(s: string, pat: string, i: nat): (b: bool)
    ensures b <==> exists j: nat :: i <= j && OccursAt(s, pat, j)
    decreases |s| - i
  {
    if i + |pat| > |s| then
      assert forall j: nat :: i <= j ==> !OccursAt(s, pat, j);
      false
    else if s[i..i + |pat|] == pat then
      assert OccursAt(s, pat, i);
      true
    else
      ContainsFrom(s, pat, i + 1)
  }

  /** Python's `pat in s`: `pat` is a substring of `s`. */
  function Contains(s: string, pat: string): (b: bool)
    ensures b <==> exists j: nat :: OccursAt(s, pat, j)
  {
    ContainsFrom(s, pat, 0)
  }

  /** Python's `s.find(c)` restricted to `s[i..]`: the first index at or after `i` holding `c`, or -1. */
  function FindFrom(s: string, c: char, i: nat): (r: int)
    ensures -1 <= r < |s|
    ensures r == -1 <==> forall j :: i <= j < |s| ==> s[j] != c
    ensures 0 <= r ==> i <= r && s[r] == c && forall j :: i <= j < r ==> s[j] != c
    decreases |s| - i
  {
    if i >= |s| then -1
    else if s[i] == c then i
    else FindFrom(s, c, i + 1)
  }

  /** Python's `s.find(c)`: the index of the first `c` in `s`, or -1 when there is none. */
  function Find(s: string, c: char): (r: int)
    ensures -1 <= r < |s|
    ensures r == -1 <==> c !in s
    ensures 0 <= r ==> s[r] == c && c !in s[..r]
  {
    FindFrom(s, c, 0)
  }

  /** Python's `s.rfind(c)` restricted to `s[..n]`: the last index below `n` holding `c`, or -1. */
  function RFindBefore(s: string, c: char, n: nat): (r: int)
    requires n <= |s|
    ensures -1 <= r < n
    ensures r == -1 <==> forall j :: 0 <= j < n ==> s[j] != c
    ensures 0 <= r ==> s[r] == c && forall j :: r < j < n ==> s[j] != c
  {
    if n == 0 then -1
    else if s[n - 1] == c then n - 1
    else RFindBefore(s, c, n - 1)
  }

  /** Python's `s.rfind(c)`: the index of the last `c` in `s`, or -1 when there is none. */
  function RFind(s: string, c: char): (r: int)
    ensures -1 <= r < |s|
    ensures r == -1 <==> c !in s
    ensures 0 <= r ==> s[r] == c && c !in s[r + 1..]
  {
    RFindBefore(s, c, |s|)
  }
}
