/** The declaration scan shared by `TestSelector.fillTests` and
    `TestSelectorEspresso.fillTests`, as a specification: the document is
    read one newline-terminated line at a time from offset 0, and the lines
    are classified in order with a single pending-suppression flag. */
module Scanner {
  import opened Wrappers
  import opened Text
  import opened Lines
  import opened Patterns

  /** One declaration found by the scan: its name (the checkbox text), the
      offset of the line it is on, and whether the line before it was a
      suppress line (the checkbox then starts unselected). */
  datatype Decl = Decl(name: string, line: nat, suppressed: bool)

  /** What the loop body does with one line: a suppress line sets the flag,
      a test-head line declares a test, any other line clears the flag. The
      suppress test is made first, so a line matching both is a suppress
      line. */
  datatype Kind = SuppressLine | HeadLine(name: string) | OtherLine

  function Classify(l: string): Kind {
    if SuppressMatch(l) then SuppressLine
    else match TestMatch(l)
      case Some(m) => HeadLine(TestName(l, m))
      case None => OtherLine
  }

  /** A line read by the walk: its start offset and its text. */
  datatype Line = Line(start: nat, text: string)

  /** The lines read from line start `p` on, up to the first offset at which
      no terminated line remains. */
  function LinesFrom(d: string, p: nat): seq<Line>
    requires p <= |d|
    decreases |d| - p
  {
    match NextLine(d, p)
    case None => []
    case Some(l) => [Line(p, l)] + LinesFrom(d, p + |l| + 1)
  }

  function ReadLines(d: string): seq<Line> {
    LinesFrom(d, 0)
  }

  /** The classification of a sequence of lines with flag `pending`. */
  function Walk(ls: seq<Line>, pending: bool): seq<Decl> {
    if ls == [] then []
    else match Classify(ls[0].text)
      case SuppressLine => Walk(ls[1..], true)
      case HeadLine(n) => [Decl(n, ls[0].start, pending)] + Walk(ls[1..], false)
      case OtherLine => Walk(ls[1..], false)
  }

  function Scan(d: string): seq<Decl> {
    Walk(ReadLines(d), false)
  }

  /** What a line of kind `k` at offset `p` emits under flag `pending`: its
      declaration if it is a test head, nothing otherwise. */
  function Emitted(k: Kind, p: nat, pending: bool): seq<Decl> {
    if k.HeadLine? then [Decl(k.name, p, pending)] else []
  }

  /** One step of the walk over a document: the line `l` at `p` is
      classified and the walk goes on after its newline. */
  lemma WalkStep(d: string, p: nat, l: string, next: nat, pending: bool)
    requires p <= |d| && NextLine(d, p) == Some(l) && next == p + |l| + 1
    ensures Walk(LinesFrom(d, p), pending)
              == Emitted(Classify(l), p, pending) + Walk(LinesFrom(d, next), Classify(l).SuppressLine?)
  {
    var ls := LinesFrom(d, p);
    assert ls[0] == Line(p, l);
    assert ls[1..] == LinesFrom(d, next);
    if !Classify(l).HeadLine? {
      assert Emitted(Classify(l), p, pending) + Walk(ls[1..], Classify(l).SuppressLine?)
             == Walk(ls[1..], Classify(l).SuppressLine?);
    }
  }

  /** The walk of `fillTests` as a loop: with `done` emitted so far and the
      line `l` at `p` next, what the line emits joins `done` and its kind
      sets the flag for the rest of the walk. */
  lemma ScanStep(d: string, p: nat, l: string, next: nat, pending: bool, flag: bool,
                  emitted: seq<Decl>, done: seq<Decl>, all: seq<Decl>)
    requires p <= |d| && NextLine(d, p) == Some(l) && next == p + |l| + 1
    requires all == done + Walk(LinesFrom(d, p), pending)
    requires flag == Classify(l).SuppressLine? && emitted == Emitted(Classify(l), p, pending)
    ensures all == (done + emitted) + Walk(LinesFrom(d, next), flag)
  {
    WalkStep(d, p, l, next, pending);
    var rest := Walk(LinesFrom(d, next), flag);
    assert done + (emitted + rest) == (done + emitted) + rest;
  }

  // ------------------------------------------------------------ the lines

  /** Each line is the terminated line at its start, and each starts where
      the one before it ends, just after its newline. */
  predicate ReadFrom(d: string, ls: seq<Line>) {
    (forall i :: 0 <= i < |ls| ==> IsLineStart(d, ls[i].start) && NextLine(d, ls[i].start) == Some(ls[i].text))
    && (forall i :: 0 < i < |ls| ==> ls[i].start == ls[i - 1].start + |ls[i - 1].text| + 1)
  }

  predicate StartsIncreasing(ls: seq<Line>) {
    forall a, b :: 0 <= a < b < |ls| ==> ls[a].start < ls[b].start
  }

  /** The `i`-th line from `p` is the terminated line at its start, and it
      starts just after the newline of the line before it. */
  lemma {:induction false} LineOfLinesFrom(d: string, p: nat, i: nat)
    requires p <= |d| && IsLineStart(d, p) && i < |LinesFrom(d, p)|
    ensures var ls := LinesFrom(d, p);
      IsLineStart(d, ls[i].start) && NextLine(d, ls[i].start) == Some(ls[i].text)
      && p <= ls[i].start < |d|
      && (i == 0 ==> ls[i].start == p)
      && (i > 0 ==> ls[i].start == ls[i - 1].start + |ls[i - 1].text| + 1)
    decreases i
  {
    var ls := LinesFrom(d, p);
    var l := NextLine(d, p).value;
    var next := p + |l| + 1;
    var rest := LinesFrom(d, next);
    assert ls == [Line(p, l)] + rest;
    if i > 0 {
      assert ls[i] == rest[i - 1];
      assert d[next - 1] == '\n';
      LineOfLinesFrom(d, next, i - 1);
      if i > 1 {
        assert ls[i - 1] == rest[i - 2];
      }
    }
  }

  /** The lines from `p` are the terminated lines from `p` on, in order. */
  lemma LinesFromRead(d: string, p: nat)
    requires p <= |d| && IsLineStart(d, p)
    ensures ReadFrom(d, LinesFrom(d, p))
    ensures forall i :: 0 <= i < |LinesFrom(d, p)| ==> p <= LinesFrom(d, p)[i].start < |d|
  {
    var ls := LinesFrom(d, p);
    forall i | 0 <= i < |ls|
      ensures IsLineStart(d, ls[i].start) && NextLine(d, ls[i].start) == Some(ls[i].text)
      ensures p <= ls[i].start < |d|
      ensures i > 0 ==> ls[i].start == ls[i - 1].start + |ls[i - 1].text| + 1
    {
      LineOfLinesFrom(d, p, i);
    }
  }

  /** Line starts strictly increase. */
  lemma {:induction false} LinesFromIncreasing(d: string, p: nat)
    requires p <= |d|
    ensures StartsIncreasing(LinesFrom(d, p))
    ensures forall i :: 0 <= i < |LinesFrom(d, p)| ==> p <= LinesFrom(d, p)[i].start
    decreases |d| - p
  {
    match NextLine(d, p)
    case None =>
    case Some(l) =>
      LinesFromIncreasing(d, p + |l| + 1);
  }

  /** Some line of `ls` starts at `L`. */
  predicate HasStart(ls: seq<Line>, L: nat) {
    exists i :: 0 <= i < |ls| && ls[i].start == L
  }

  /** Every terminated line at or after `p` is read. */
  lemma {:induction false} LinesFromAll(d: string, p: nat)
    requires p <= |d| && IsLineStart(d, p)
    ensures forall L :: p <= L && IsLineStart(d, L) && NextLine(d, L).Some? ==> HasStart(LinesFrom(d, p), L)
    decreases |d| - p
  {
    var ls := LinesFrom(d, p);
    match NextLine(d, p)
    case None =>
      forall L | p <= L && NextLine(d, L).Some? ensures NextLine(d, p).Some? {
        LaterLineRead(d, p, L);
      }
    case Some(l) =>
      var next := p + |l| + 1;
      assert d[next - 1] == '\n';
      LinesFromAll(d, next);
      assert ls == [Line(p, l)] + LinesFrom(d, next);
      forall L | p <= L && IsLineStart(d, L) && NextLine(d, L).Some? ensures HasStart(ls, L) {
        if L == p {
          assert ls[0].start == L;
        } else if L >= next {
          var i :| 0 <= i < |LinesFrom(d, next)| && LinesFrom(d, next)[i].start == L;
          assert ls[i + 1].start == L;
        }
      }
  }

  // ------------------------------------------------------- the classification

  predicate Increasing(ds: seq<Decl>) {
    forall a, b :: 0 <= a < b < |ds| ==> ds[a].line < ds[b].line
  }

  /** Declarations come out in the order of their lines, each on a line of
      the sequence. */
  lemma {:induction false} WalkOrdered(ls: seq<Line>, pending: bool)
    requires StartsIncreasing(ls)
    ensures Increasing(Walk(ls, pending))
    ensures forall decl :: decl in Walk(ls, pending) ==>
              exists i :: 0 <= i < |ls| && ls[i].start == decl.line
    decreases |ls|
  {
    if ls != [] {
      var k := Classify(ls[0].text);
      WalkOrdered(ls[1..], k.SuppressLine?);
      forall decl | decl in Walk(ls[1..], k.SuppressLine?)
        ensures ls[0].start < decl.line && exists i :: 0 <= i < |ls| && ls[i].start == decl.line
      {
        var i :| 0 <= i < |ls[1..]| && ls[1..][i].start == decl.line;
        assert ls[i + 1].start == decl.line;
      }
    }
  }

  /** `decl` is the declaration of line `i` of `ls` under flag `pending`:
      the line is a test head named `decl.name`, and `decl` is suppressed
      exactly when the line before it is a suppress line (or, for the first
      line, when the flag was already set). */
  predicate DeclaredAt(ls: seq<Line>, pending: bool, decl: Decl, i: int) {
    0 <= i < |ls| && ls[i].start == decl.line
    && Classify(ls[i].text) == HeadLine(decl.name)
    && (decl.suppressed <==> if i == 0 then pending else Classify(ls[i - 1].text).SuppressLine?)
  }

  /** Each declaration comes from a test-head line of the sequence, and it
      is suppressed exactly when the line before it is a suppress line (or,
      for the first line, when the flag was already set). */
  lemma {:induction false} WalkSound(ls: seq<Line>, pending: bool)
    ensures forall decl :: decl in Walk(ls, pending) ==> exists i :: DeclaredAt(ls, pending, decl, i)
    decreases |ls|
  {
    if ls != [] {
      var k := Classify(ls[0].text);
      var flag := k.SuppressLine?;
      var rest := ls[1..];
      WalkSound(rest, flag);
      var first := Decl(if k.HeadLine? then k.name else [], ls[0].start, pending);
      assert Walk(ls, pending) == if k.HeadLine? then [first] + Walk(rest, flag) else Walk(rest, flag);
      forall decl | decl in Walk(ls, pending) ensures exists i :: DeclaredAt(ls, pending, decl, i) {
        if k.HeadLine? && decl == first {
          assert DeclaredAt(ls, pending, decl, 0);
        } else {
          assert decl in Walk(rest, flag);
          var i :| DeclaredAt(rest, flag, decl, i);
          assert ls[i + 1] == rest[i];
          assert i > 0 ==> ls[i] == rest[i - 1];
          assert DeclaredAt(ls, pending, decl, i + 1);
        }
      }
    }
  }

  /** Every test-head line of the sequence gives a declaration. */
  lemma {:induction false} WalkComplete(ls: seq<Line>, pending: bool)
    ensures forall i :: 0 <= i < |ls| && Classify(ls[i].text).HeadLine? ==>
              exists decl :: decl in Walk(ls, pending) && decl.line == ls[i].start
    decreases |ls|
  {
    if ls != [] {
      var k := Classify(ls[0].text);
      var rest := ls[1..];
      WalkComplete(rest, k.SuppressLine?);
      forall i | 0 <= i < |ls| && Classify(ls[i].text).HeadLine?
        ensures exists decl :: decl in Walk(ls, pending) && decl.line == ls[i].start
      {
        if i == 0 {
          assert Walk(ls, pending)[0].line == ls[0].start;
        } else {
          assert ls[i] == rest[i - 1];
          var decl :| decl in Walk(rest, k.SuppressLine?) && decl.line == rest[i - 1].start;
          assert decl in Walk(ls, pending);
        }
      }
    }
  }

  // ---------------------------------------------------- the scan of a document

  /** The line at `L` is read by the walk and is a test head that is not a
      suppress line. */
  predicate IsHeadLine(d: string, L: nat) {
    IsLineStart(d, L) && NextLine(d, L).Some? && Classify(NextLine(d, L).value).HeadLine?
  }

  /** `decl` names the test head on its own line. */
  predicate Declares(d: string, decl: Decl) {
    IsHeadLine(d, decl.line) && Classify(NextLine(d, decl.line).value).name == decl.name
  }

  /** The start of the line holding index `k`. */
  function LineStartOf(d: string, k: nat): (r: nat)
    requires k <= |d|
    ensures r <= k && IsLineStart(d, r) && NoNewline(d, r, k)
  {
    if IsLineStart(d, k) then k else LineStartOf(d, k - 1)
  }

  /** The line ending just before line start `L` matches `@Suppress\b`. */
  predicate FollowsSuppressLine(d: string, L: nat) {
    0 < L <= |d| && d[L - 1] == '\n' && SuppressMatch(d[LineStartOf(d, L - 1)..L - 1])
  }

  lemma {:induction false} LineStartOfLine(d: string, p: nat, k: nat)
    requires IsLineStart(d, p) && p <= k <= |d| && NoNewline(d, p, k)
    ensures LineStartOf(d, k) == p
    decreases k - p
  {
    if k > p {
      assert d[k - 1] != '\n';
      LineStartOfLine(d, p, k - 1);
    }
  }

  /** The line before a read line, in the document's terms. */
  lemma PreviousLine(d: string, p: nat, l: string)
    requires IsLineStart(d, p) && NextLine(d, p) == Some(l)
    ensures FollowsSuppressLine(d, p + |l| + 1) <==> SuppressMatch(l)
  {
    LineStartOfLine(d, p, p + |l|);
    assert d[LineStartOf(d, p + |l|)..p + |l|] == l;
  }

  /** Declarations come out in strictly increasing line order, each on a
      line that lies in the document. */
  lemma ScanOrdered(d: string)
    ensures Increasing(Scan(d))
    ensures forall decl :: decl in Scan(d) ==> decl.line < |d|
  {
    LinesFromRead(d, 0);
    LinesFromIncreasing(d, 0);
    WalkOrdered(ReadLines(d), false);
  }

  /** Exactly the test-head lines that are not suppress lines give
      declarations, each named after its own line's match. */
  lemma ScanExact(d: string)
    ensures forall decl :: decl in Scan(d) ==> Declares(d, decl)
    ensures forall L :: IsHeadLine(d, L) ==> exists decl :: decl in Scan(d) && decl.line == L
  {
    var ls := ReadLines(d);
    LinesFromRead(d, 0);
    LinesFromAll(d, 0);
    WalkSound(ls, false);
    WalkComplete(ls, false);
    forall L | IsHeadLine(d, L) ensures exists decl :: decl in Scan(d) && decl.line == L {
      var i :| 0 <= i < |ls| && ls[i].start == L;
      assert Classify(ls[i].text).HeadLine?;
    }
  }

  /** The flag of a declaration of the read lines, in the document's terms. */
  lemma DeclSuppression(d: string, ls: seq<Line>, decl: Decl, i: nat)
    requires ReadFrom(d, ls) && DeclaredAt(ls, false, decl, i) && ls[0].start == 0
    ensures decl.suppressed <==> FollowsSuppressLine(d, decl.line)
  {
    if i > 0 {
      var prev := ls[i - 1];
      PreviousLine(d, prev.start, prev.text);
      assert decl.line == prev.start + |prev.text| + 1;
      assert Classify(prev.text).SuppressLine? <==> SuppressMatch(prev.text);
    }
  }

  /** A declaration is suppressed exactly when the line right before it (a
      blank line included) is a suppress line. */
  lemma ScanSuppression(d: string)
    ensures forall decl :: decl in Scan(d) ==>
              (decl.suppressed <==> FollowsSuppressLine(d, decl.line))
  {
    var ls := ReadLines(d);
    LinesFromRead(d, 0);
    WalkSound(ls, false);
    forall decl | decl in Scan(d) ensures decl.suppressed <==> FollowsSuppressLine(d, decl.line) {
      var i :| DeclaredAt(ls, false, decl, i);
      LineOfLinesFrom(d, 0, 0);
      DeclSuppression(d, ls, decl, i);
    }
  }
}
