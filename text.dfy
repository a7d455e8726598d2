/** Character classes and substring tests over ASCII, as used by the
    fixed patterns of the scanner and by the search filter. */
module Text {

  /** ASCII case folding, as Java's `Pattern.CASE_INSENSITIVE` does without
      `UNICODE_CASE`. */
  function Lower(c: char): (r: char)
    ensures 'A' <= c <= 'Z' ==> r as int == c as int + 32
    ensures !('A' <= c <= 'Z') ==> r == c
  {
    if 'A' <= c <= 'Z' then (c as int + 32) as char else c
  }

  /** A regular-expression word character: `[A-Za-z0-9_]`. */
  predicate IsWordChar(c: char) {
    ('a' <= c <= 'z') || ('A' <= c <= 'Z') || ('0' <= c <= '9') || c == '_'
  }

  /** The characters Java's `.` refuses to match when `DOTALL` is off. */
  predicate IsLineTerminator(c: char) {
    c == '\n' || c == '\r' || c == '\U{0085}' || c == '\U{2028}' || c == '\U{2029}'
  }

  /** `pat` occurs in `s` starting at index `k`. */
  predicate OccursAt(s: string, pat: string, k: int) {
    0 <= k && k + |pat| <= |s| && s[k..k + |pat|] == pat
  }

  /** Java's `String.contains`: a case-sensitive substring test, searching
      from index `k` on. */
  predicate ContainsFrom(s: string, pat: string, k: nat)
    decreases |s| - k
  {
    k + |pat| <= |s| && (s[k..k + |pat|] == pat || ContainsFrom(s, pat, k + 1))
  }

  predicate Contains(s: string, pat: string) {
    ContainsFrom(s, pat, 0)
  }

  /** An occurrence makes `Contains` hold. */
  lemma {:induction false} OccursContains(s: string, pat: string, k: nat)
    requires OccursAt(s, pat, k)
    ensures Contains(s, pat)
  {
    var i := k;
    while i > 0
      invariant 0 <= i <= k && ContainsFrom(s, pat, i)
    {
      i := i - 1;
    }
  }

  /** `Contains` holds only by an occurrence. */
  lemma {:induction false} ContainsOccurs(s: string, pat: string) returns (k: nat)
    requires Contains(s, pat)
    ensures OccursAt(s, pat, k)
  {
    k := 0;
    while s[k..k + |pat|] != pat
      invariant ContainsFrom(s, pat, k)
      decreases |s| - k
    {
      k := k + 1;
    }
  }

  /** `s[k..]` starts with `pat` up to ASCII case folding. */
  predicate FoldedAt(s: string, pat: string, k: int) {
    0 <= k && k + |pat| <= |s| && forall m :: 0 <= m < |pat| ==> Lower(s[k + m]) == Lower(pat[m])
  }

  /** A case-insensitive substring test. */
  predicate ContainsIgnoreCase(s: string, pat: string) {
    exists k | 0 <= k <= |s| - |pat| :: FoldedAt(s, pat, k)
  }

  /** Every character of a matching substring occurs in the string; in
      particular the last character of `pat` does. */
  lemma {:induction false} ContainsLast(s: string, pat: string)
    requires |pat| > 0 && Contains(s, pat)
    ensures pat[|pat| - 1] in s
  {
    var k := ContainsOccurs(s, pat);
    assert s[k + |pat| - 1] == s[k..k + |pat|][|pat| - 1];
  }
}
