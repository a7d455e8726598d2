/** Line-by-line addressing of a document: `TestSelector.getDocumentLine`
    and the facts about it that the scans and the locator rely on. */
module Lines {
  import opened Wrappers

  /** No newline in `d[lo..hi]`. */
  predicate NoNewline(d: string, lo: int, hi: int) {
    forall m :: lo <= m < hi && 0 <= m < |d| ==> d[m] != '\n'
  }

  /** `p` is the start of a line: the document start or just after a newline. */
  predicate IsLineStart(d: string, p: int) {
    p == 0 || (0 < p <= |d| && d[p - 1] == '\n')
  }

  /** Index of the first newline at or after `k`. */
  function NewlineFrom(d: string, k: nat): (r: Option<nat>)
    requires k <= |d|
    ensures r.Some? ==> k <= r.value < |d| && d[r.value] == '\n' && NoNewline(d, k, r.value)
    ensures r.None? ==> NoNewline(d, k, |d|)
    decreases |d| - k
  {
    if k == |d| then None
    else if d[k] == '\n' then Some(k)
    else NewlineFrom(d, k + 1)
  }

  /** The text from `start` up to (excluding) the next newline, or None when
      no newline follows `start`: an unterminated last line is never read. */
  function NextLine(d: string, start: nat): (r: Option<string>)
    ensures r.Some? ==> start + |r.value| < |d| && d[start + |r.value|] == '\n'
                        && r.value == d[start..start + |r.value|]
                        && NoNewline(d, start, start + |r.value|)
    ensures r.None? ==> NoNewline(d, start, |d|)
  {
    if start >= |d| then None
    else match NewlineFrom(d, start)
      case None => None
      case Some(k) => Some(d[start..k])
  }

  /** The document read by `getDocumentLine`: it widens the range
      `[start, end)` one character at a time until its last character is a
      newline; a range past the end of the document raises, which the source
      turns into null. */
  method GetDocumentLine(d: string, start: nat) returns (line: Option<string>)
    ensures line == NextLine(d, start)
  {
    var end := start + 1;
    while end <= |d| && d[end - 1] != '\n'
      invariant start + 1 <= end
      invariant NoNewline(d, start, end - 1)
      decreases |d| + 1 - end
    {
      end := end + 1;
    }
    if end <= |d| {
      line := Some(d[start..end - 1]);
      LineEndingAt(d, start, end - 1);
    } else {
      line := None;
    }
  }

  /** A newline at `j` with none in `d[start..j]` ends the line at `start`. */
  lemma LineEndingAt(d: string, start: nat, j: nat)
    requires start <= j < |d| && d[j] == '\n' && NoNewline(d, start, j)
    ensures NextLine(d, start) == Some(d[start..j])
  {
    var r := NextLine(d, start);
    assert d[j] == '\n';
    assert r.Some?;
    var n := start + |r.value|;
    assert d[n] == '\n';
    assert n == j;
  }

  /** A line depends only on the text up to and including its newline. */
  lemma {:induction false} LineFromPrefix(d: string, e: string, p: nat)
    requires NextLine(d, p).Some?
    requires p + |NextLine(d, p).value| < |e|
    requires e[..p + |NextLine(d, p).value| + 1] == d[..p + |NextLine(d, p).value| + 1]
    ensures NextLine(e, p) == NextLine(d, p)
  {
    var l := NextLine(d, p).value;
    var j := p + |l|;
    assert e[j] == e[..j + 1][j] == d[..j + 1][j] == d[j];
    forall m | p <= m < j ensures e[m] != '\n' {
      assert e[m] == e[..j + 1][m] == d[..j + 1][m] == d[m];
    }
    assert e[p..j] == e[..j + 1][p..j];
    assert d[p..j] == d[..j + 1][p..j];
    LineEndingAt(e, p, j);
  }

  /** Lines of a common suffix read the same at corresponding offsets. */
  lemma {:induction false} LineFromSuffix(d: string, p: nat, e: string, q: nat)
    requires p <= |d| && q <= |e| && d[p..] == e[q..]
    ensures NextLine(e, q) == NextLine(d, p)
  {
    var ld := NextLine(d, p);
    if ld.Some? {
      var j := p + |ld.value|;
      assert e[q + |ld.value|] == e[q..][|ld.value|] == d[p..][|ld.value|] == d[j];
      forall m | q <= m < q + |ld.value| ensures e[m] != '\n' {
        assert e[m] == e[q..][m - q] == d[p..][m - q] == d[p + (m - q)];
      }
      assert e[q..q + |ld.value|] == e[q..][..|ld.value|] == d[p..][..|ld.value|] == d[p..j];
      LineEndingAt(e, q, q + |ld.value|);
    } else {
      forall m | q <= m < |e| ensures e[m] != '\n' {
        assert e[m] == e[q..][m - q] == d[p..][m - q] == d[p + (m - q)];
      }
    }
  }

  /** A later line that is read implies the line at `p` is read. */
  lemma LaterLineRead(d: string, p: nat, L: nat)
    requires p <= L && NextLine(d, L).Some?
    ensures NextLine(d, p).Some?
  {
    assert d[L + |NextLine(d, L).value|] == '\n';
  }
}
