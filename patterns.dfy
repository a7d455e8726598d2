/** The two fixed patterns of the declaration scan, compiled by the source
    with `Pattern.CASE_INSENSITIVE` and applied with `Matcher.find`:
      - the suppress marker `@Suppress\b`;
      - the test head `\btest_.*\b[(]`.
    Word characters and case folding are ASCII. */
module Patterns {
  import opened Wrappers
  import opened Text

  const SuppressToken: string := "@Suppress"
  const TestToken: string := "test_"

  // ---------------------------------------------------------------- @Suppress\b

  /** `@Suppress` (any case) at `i`, followed by the end of the line or a
      non-word character. */
  predicate SuppressAt(line: string, i: int) {
    FoldedAt(line, SuppressToken, i)
    && (i + |SuppressToken| == |line| || !IsWordChar(line[i + |SuppressToken|]))
  }

  /** `find()` of `@Suppress\b` from index `i` on. */
  predicate SuppressFrom(line: string, i: nat)
    decreases |line| - i
  {
    i + |SuppressToken| <= |line| && (SuppressAt(line, i) || SuppressFrom(line, i + 1))
  }

  predicate SuppressMatch(line: string) {
    SuppressFrom(line, 0)
  }

  lemma {:induction false} SuppressFromSpec(line: string, i: nat)
    ensures SuppressFrom(line, i) <==> exists k :: i <= k && SuppressAt(line, k)
    decreases |line| - i
  {
    if i + |SuppressToken| <= |line| {
      SuppressFromSpec(line, i + 1);
      if exists k :: i <= k && SuppressAt(line, k) {
        var k :| i <= k && SuppressAt(line, k);
        if k > i { assert i + 1 <= k; }
      }
    }
  }

  /** The suppress test holds exactly when `@Suppress\b` matches somewhere
      in the line. */
  lemma SuppressMatchSpec(line: string)
    ensures SuppressMatch(line) <==> exists k :: SuppressAt(line, k)
  {
    SuppressFromSpec(line, 0);
    if exists k :: SuppressAt(line, k) {
      var k :| SuppressAt(line, k);
      assert 0 <= k;
    }
  }

  // ---------------------------------------------------------- \btest_.*\b[(]

  /** `\btest_` at `i`: `test_` in any case, not preceded by a word character. */
  predicate HeadAt(line: string, i: int) {
    FoldedAt(line, TestToken, i) && (i == 0 || !IsWordChar(line[i - 1]))
  }

  /** `\b[(]` at `j`: an opening parenthesis just after a word character. */
  predicate IsClose(line: string, j: int) {
    1 <= j < |line| && line[j] == '(' && IsWordChar(line[j - 1])
  }

  /** No character of `line[lo..hi]` is one that `.` refuses. */
  predicate NoTerminator(line: string, lo: int, hi: int) {
    forall m :: lo <= m < hi && 0 <= m < |line| ==> !IsLineTerminator(line[m])
  }

  /** The whole pattern matches `line[i..j+1]`: the head at `i`, `.*` over
      `line[i+5..j]` and the closing parenthesis at `j`. */
  predicate MatchesAt(line: string, i: int, j: int) {
    HeadAt(line, i) && i + |TestToken| <= j && IsClose(line, j)
    && NoTerminator(line, i + |TestToken|, j)
  }

  /** Where a greedy `.*` started at `k` stops: the first line terminator at
      or after `k`, or the end of the line. */
  function Reach(line: string, k: nat): (r: nat)
    requires k <= |line|
    ensures k <= r <= |line| && NoTerminator(line, k, r)
    ensures r < |line| ==> IsLineTerminator(line[r])
    decreases |line| - k
  {
    if k == |line| || IsLineTerminator(line[k]) then k else Reach(line, k + 1)
  }

  /** Backtracking of `.*` from `hi` down to `lo`: the largest `j` in
      `[lo, hi)` where `\b[(]` matches. */
  function LastClose(line: string, lo: nat, hi: nat): (r: Option<nat>)
    requires 1 <= lo && hi <= |line|
    ensures r.Some? ==> lo <= r.value < hi && IsClose(line, r.value)
                        && forall j :: r.value < j < hi ==> !IsClose(line, j)
    ensures r.None? ==> forall j :: lo <= j < hi ==> !IsClose(line, j)
    decreases hi
  {
    if hi <= lo then None
    else if IsClose(line, hi - 1) then Some(hi - 1)
    else LastClose(line, lo, hi - 1)
  }

  /** The match attempt at start index `i`: the close of the greedy match,
      if the pattern matches there at all. */
  function MatchAt(line: string, i: nat): (r: Option<nat>)
    requires i <= |line|
    ensures r.Some? ==> i + |TestToken| <= r.value < |line|
  {
    if !HeadAt(line, i) then None
    else LastClose(line, i + |TestToken|, Reach(line, i + |TestToken|))
  }

  /** `MatchAt` finds the largest close at which the pattern matches from
      `i`, and none when it matches nowhere from `i`. */
  lemma MatchAtSpec(line: string, i: nat)
    requires i <= |line|
    ensures MatchAt(line, i).Some? ==>
              MatchesAt(line, i, MatchAt(line, i).value)
              && forall j :: MatchAt(line, i).value < j ==> !MatchesAt(line, i, j)
    ensures MatchAt(line, i).None? ==> forall j :: !MatchesAt(line, i, j)
  {
    if HeadAt(line, i) {
      var e := Reach(line, i + |TestToken|);
      forall j | MatchesAt(line, i, j) ensures j < e {
        if e < |line| { assert IsLineTerminator(line[e]); }
      }
    }
  }

  /** A match: `line[start..close+1]` is `m.group()`. */
  datatype Span = Span(start: nat, close: nat)

  /** `find()` from index `i` on: the first start index at which the pattern
      matches, with its greedy close. */
  function MatchFrom(line: string, i: nat): (r: Option<Span>)
    requires i <= |line|
    ensures r.Some? ==> i <= r.value.start < r.value.close < |line|
    decreases |line| - i
  {
    if i == |line| then None
    else match MatchAt(line, i)
      case Some(j) => Some(Span(i, j))
      case None => MatchFrom(line, i + 1)
  }

  lemma {:induction false} MatchFromSpec(line: string, i: nat)
    requires i <= |line|
    ensures var r := MatchFrom(line, i);
      (r.Some? ==> MatchesAt(line, r.value.start, r.value.close)
                   && (forall j :: r.value.close < j ==> !MatchesAt(line, r.value.start, j))
                   && (forall k, j :: i <= k < r.value.start ==> !MatchesAt(line, k, j)))
      && (r.None? ==> forall k, j :: i <= k ==> !MatchesAt(line, k, j))
    decreases |line| - i
  {
    if i < |line| {
      MatchAtSpec(line, i);
      if MatchAt(line, i).None? {
        MatchFromSpec(line, i + 1);
      }
    }
  }

  /** `find()` of `\btest_.*\b[(]` on a line. */
  function TestMatch(line: string): Option<Span> {
    MatchFrom(line, 0)
  }

  /** The test-head match is the leftmost start at which the pattern
      matches, extended greedily to the last possible close; there is none
      exactly when the pattern matches nowhere in the line. */
  lemma TestMatchSpec(line: string)
    ensures var r := TestMatch(line);
      (r.Some? ==> MatchesAt(line, r.value.start, r.value.close)
                   && (forall j :: r.value.close < j ==> !MatchesAt(line, r.value.start, j))
                   && (forall k, j :: 0 <= k < r.value.start ==> !MatchesAt(line, k, j)))
      && (r.None? <==> forall k, j :: !MatchesAt(line, k, j))
  {
    MatchFromSpec(line, 0);
  }

  /** The declared name: the match without its final `(`. */
  function TestName(line: string, m: Span): string
    requires m.start <= m.close <= |line|
  {
    line[m.start..m.close]
  }

  /** The name followed by `(` is the match itself, so it occurs in its own
      line: the locator, which searches for `name + "("`, finds that line. */
  lemma NameOccursInLine(line: string)
    requires TestMatch(line).Some?
    ensures var m := TestMatch(line).value;
      line[m.start..m.close + 1] == TestName(line, m) + "(" && Contains(line, TestName(line, m) + "(")
  {
    var m := TestMatch(line).value;
    MatchFromSpec(line, 0);
    assert line[m.start..m.close + 1] == line[m.start..m.close] + [line[m.close]];
    OccursContains(line, TestName(line, m) + "(", m.start);
  }
}
