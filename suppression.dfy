/** The suppression edits of `addSuppressed` and `removeSuppressed`, as
    functions from the document before to the document after. Both locate
    the first line containing `test + "("` and then inspect a fixed window
    of text just before that line. */
module Suppression {
  import opened Wrappers
  import opened Text
  import opened Lines
  import opened Locator
  import opened Buffer
  import Patterns
  import Scanner

  const Marker: string := "@Suppress"
  /** The annotation line `addSuppressed` writes (without its newline). */
  const Annotation: string := "\t@Suppress"
  /** `"@Suppress".length() + 1`: the window `addSuppressed` inspects. */
  const AddWindow: nat := 10
  /** `"\t@Suppress".length() + 1`: the window `removeSuppressed` inspects
      and deletes. */
  const RemoveWindow: nat := 11

  /** `addSuppressed`: a negative window start raises; a window that already
      holds the marker leaves the document alone; otherwise a newline goes in
      before the line's first character and the annotation at the start of
      the shifted line. */
  function Suppress(d: string, test: string): Result<string> {
    match Locate(d, test + "(")
    case Err(f) => Err(f)
    case Ok(o) =>
      if o < AddWindow then Err(BadRange)
      else if Contains(d[o - AddWindow..o], Marker) then Ok(d)
      else Ok(Insert(Insert(d, o - 1, "\n"), o, Annotation))
  }

  /** `removeSuppressed`: a negative window start raises; a window holding
      the marker is deleted as a whole; otherwise nothing changes. */
  function Unsuppress(d: string, test: string): Result<string> {
    match Locate(d, test + "(")
    case Err(f) => Err(f)
    case Ok(o) =>
      if o < RemoveWindow then Err(BadRange)
      else if Contains(d[o - RemoveWindow..o], Marker) then Ok(Delete(d, o - RemoveWindow, o))
      else Ok(d)
  }

  /** The document after an `addSuppressed` call: a raised exception leaves
      it as it was. */
  function AfterSuppress(d: string, test: string): string {
    match Suppress(d, test)
    case Ok(e) => e
    case Err(_) => d
  }

  /** The document after a `removeSuppressed` call. */
  function AfterUnsuppress(d: string, test: string): string {
    match Unsuppress(d, test)
    case Ok(e) => e
    case Err(_) => d
  }

  /** The two inserts of `addSuppressed` amount to inserting the annotation
      line in front of the line at `o`, because the character before `o` is
      the previous line's newline. */
  lemma TwoInsertsAreOne(d: string, o: nat)
    requires 0 < o <= |d| && d[o - 1] == '\n'
    ensures Insert(Insert(d, o - 1, "\n"), o, Annotation) == d[..o] + "\t@Suppress\n" + d[o..]
  {
    var e := Insert(d, o - 1, "\n");
    assert e[..o] == d[..o - 1] + "\n" == d[..o];
    assert e[o..] == d[o - 1..] == "\n" + d[o..];
    assert Annotation + "\n" == "\t@Suppress\n";
  }

  /** A located offset past the document start follows a newline. */
  lemma LocatedAfterNewline(d: string, pat: string)
    requires Locate(d, pat).Ok? && Locate(d, pat).value > 0
    ensures d[Locate(d, pat).value - 1] == '\n'
  {
    LocateFromFound(d, 0, pat);
  }

  /** What `addSuppressed` changes: when it changes the document, it puts
      `"\t@Suppress\n"` in front of the located line and leaves every other
      character where it was. */
  lemma SuppressInserts(d: string, test: string)
    requires Suppress(d, test).Ok? && Suppress(d, test).value != d
    ensures Locate(d, test + "(").Ok?
    ensures var o := Locate(d, test + "(").value;
      AddWindow <= o && !Contains(d[o - AddWindow..o], Marker)
      && Suppress(d, test).value == d[..o] + "\t@Suppress\n" + d[o..]
  {
    var o := Locate(d, test + "(").value;
    LocatedAfterNewline(d, test + "(");
    TwoInsertsAreOne(d, o);
  }

  /** No line of the annotation contains a pattern ending in `(`. */
  lemma AnnotationLacks(pat: string)
    requires |pat| > 0 && pat[|pat| - 1] == '('
    ensures !Contains(Annotation, pat)
  {
    if Contains(Annotation, pat) {
      ContainsLast(Annotation, pat);
      assert false;
    }
  }

  /** `e` is `d` with the annotation line inserted in front of offset `o`. */
  predicate InsertedAt(d: string, e: string, o: nat) {
    o <= |d| && |e| == |d| + RemoveWindow && e[..o] == d[..o]
    && e[o..o + |Annotation|] == Annotation && e[o + |Annotation|] == '\n'
    && e[o + RemoveWindow..] == d[o..]
  }

  lemma InsertedAtConcat(d: string, o: nat)
    requires o <= |d|
    ensures InsertedAt(d, d[..o] + "\t@Suppress\n" + d[o..], o)
  {
    var e := d[..o] + "\t@Suppress\n" + d[o..];
    assert e[..o] == d[..o];
    assert e[o..o + |Annotation|] == Annotation;
    assert e[o + RemoveWindow..] == d[o..];
  }

  /** After the insertion, the line at `o` is the annotation line, and the
      lines from `o + 11` on are the old lines from `o` on. */
  lemma InsertedLinesRead(d: string, e: string, o: nat)
    requires InsertedAt(d, e, o)
    ensures NextLine(e, o) == Some(Annotation)
    ensures NextLine(e, o + RemoveWindow) == NextLine(d, o)
  {
    LineEndingAt(e, o, o + |Annotation|);
    LineFromSuffix(d, o, e, o + RemoveWindow);
  }

  /** A walk from `p` that ends at a later `o` skips the line at `p`. */
  lemma SkippedLine(d: string, p: nat, pat: string, o: nat) returns (l: string)
    requires p < o && p <= |d| && LocateFrom(d, p, pat) == Ok(o)
    ensures NextLine(d, p) == Some(l) && !Contains(l, pat)
    ensures p + |l| + 1 <= o && LocateFrom(d, p + |l| + 1, pat) == Ok(o)
  {
    LocateFromStep(d, p, pat);
    l := NextLine(d, p).value;
  }

  lemma PrefixOfPrefix(d: string, e: string, o: nat, n: nat)
    requires n <= o <= |d| && o <= |e| && e[..o] == d[..o]
    ensures e[..n] == d[..n]
  {
    assert e[..n] == e[..o][..n] == d[..o][..n] == d[..n];
  }

  /** One step of the walk before `o` on two documents that agree before
      `o`: both skip the same line. */
  lemma SamePrefixStep(d: string, e: string, p: nat, pat: string, o: nat) returns (next: nat)
    requires p < o < |d| && o <= |e| && e[..o] == d[..o]
    requires LocateFrom(d, p, pat) == Ok(o)
    ensures p < next <= o && LocateFrom(d, next, pat) == Ok(o)
    ensures LocateFrom(e, p, pat) == LocateFrom(e, next, pat)
  {
    var l := SkippedLine(d, p, pat, o);
    next := p + |l| + 1;
    PrefixOfPrefix(d, e, o, next);
    LineFromPrefix(d, e, p);
    LocateFromSkip(e, p, l, next, pat);
  }

  /** Two documents that agree before `o` walk the same lines up to `o`. */
  lemma {:induction false} LocateFromSamePrefix(d: string, e: string, p: nat, pat: string, o: nat)
    requires p <= o < |d| && o <= |e| && e[..o] == d[..o]
    requires LocateFrom(d, p, pat) == Ok(o)
    ensures LocateFrom(e, p, pat) == LocateFrom(e, o, pat)
    decreases o - p
  {
    if p < o {
      var next := SamePrefixStep(d, e, p, pat, o);
      LocateFromSamePrefix(d, e, next, pat, o);
    }
  }

  /** At the located line itself: the walk over the edited document meets
      the annotation line first, skips it, and then finds the line again. */
  lemma LocateAtInsert(d: string, e: string, pat: string, o: nat)
    requires InsertedAt(d, e, o) && o < |d|
    requires NextLine(d, o).Some? && Contains(NextLine(d, o).value, pat)
    requires |pat| > 0 && pat[|pat| - 1] == '('
    ensures LocateFrom(e, o, pat) == Ok(o + RemoveWindow)
  {
    InsertedLinesRead(d, e, o);
    AnnotationLacks(pat);
    assert LocateFrom(e, o + RemoveWindow, pat) == Ok(o + RemoveWindow);
  }

  lemma LocateAfterInsert(d: string, e: string, pat: string, o: nat)
    requires InsertedAt(d, e, o) && Locate(d, pat) == Ok(o)
    requires |pat| > 0 && pat[|pat| - 1] == '('
    ensures Locate(e, pat) == Ok(o + RemoveWindow)
  {
    LocateFromFound(d, 0, pat);
    LocateFromSamePrefix(d, e, 0, pat, o);
    LocateAtInsert(d, e, pat, o);
  }

  /** After an inserting `addSuppressed`, the same name is found on the line
      after the new annotation line. */
  lemma LocateAfterSuppress(d: string, test: string)
    requires Suppress(d, test).Ok? && Suppress(d, test).value != d
    ensures Locate(Suppress(d, test).value, test + "(")
            == Ok(Locate(d, test + "(").value + RemoveWindow)
  {
    var pat := test + "(";
    SuppressInserts(d, test);
    InsertedShape(d, test, Locate(d, pat).value, Suppress(d, test).value);
    assert pat[|pat| - 1] == '(';
    LocateAfterInsert(d, Suppress(d, test).value, pat, Locate(d, pat).value);
  }

  /** `addSuppressed` is idempotent: a second call right after the first
      leaves the document as the first left it. */
  lemma SuppressIdempotent(d: string, test: string)
    ensures AfterSuppress(AfterSuppress(d, test), test) == AfterSuppress(d, test)
  {
    var r := Suppress(d, test);
    if r.Ok? && r.value != d {
      var e := r.value;
      var o := Locate(d, test + "(").value;
      SuppressInserts(d, test);
      LocateAfterSuppress(d, test);
      var o' := o + RemoveWindow;
      assert e[o' - AddWindow..o'] == Marker + "\n";
      OccursContains(e[o' - AddWindow..o'], Marker, 0);
      assert Suppress(e, test) == Ok(e);
    }
  }

  /** `removeSuppressed` on a document with the annotation line inserted in
      front of the line it locates deletes exactly that line. */
  lemma UnsuppressInserted(d: string, e: string, test: string, o: nat)
    requires InsertedAt(d, e, o) && Locate(e, test + "(") == Ok(o + RemoveWindow)
    ensures Unsuppress(e, test) == Ok(d)
  {
    var w := e[o..o + RemoveWindow];
    assert w[..|Annotation|] == e[o..o + |Annotation|] == Annotation;
    assert w[1..|Annotation|] == Annotation[1..] == Marker;
    OccursContains(w, Marker, 1);
    assert Delete(e, o, o + RemoveWindow) == d[..o] + d[o..] == d;
  }

  /** `removeSuppressed` right after an inserting `addSuppressed` restores
      the original document exactly. */
  lemma UnsuppressUndoesSuppress(d: string, test: string)
    requires Suppress(d, test).Ok? && Suppress(d, test).value != d
    ensures Unsuppress(Suppress(d, test).value, test) == Ok(d)
  {
    var o := Locate(d, test + "(").value;
    var e := Suppress(d, test).value;
    LocateAfterSuppress(d, test);
    InsertedShape(d, test, o, e);
    UnsuppressInserted(d, e, test, o);
  }

  /** What `removeSuppressed` changes: when it changes the document, it
      deletes exactly the eleven characters before the located line, which
      include the marker. */
  lemma UnsuppressDeletes(d: string, test: string)
    requires Unsuppress(d, test).Ok? && Unsuppress(d, test).value != d
    ensures Locate(d, test + "(").Ok?
    ensures var o := Locate(d, test + "(").value;
      RemoveWindow <= o && Contains(d[o - RemoveWindow..o], Marker)
      && Unsuppress(d, test).value == d[..o - RemoveWindow] + d[o..]
      && |Unsuppress(d, test).value| == |d| - 11
  {
  }

  /** The inserted annotation line is a suppress line for the scan. */
  lemma AnnotationSuppresses()
    ensures Patterns.SuppressMatch(Annotation)
  {
    assert Patterns.SuppressAt(Annotation, 1);
    Patterns.SuppressMatchSpec(Annotation);
  }

  /** The line after an inserted annotation line follows a suppress line. */
  lemma InsertedFollowsSuppress(d: string, e: string, o: nat)
    requires InsertedAt(d, e, o) && 0 < o && d[o - 1] == '\n'
    ensures Scanner.FollowsSuppressLine(e, o + RemoveWindow)
  {
    InsertedLinesRead(d, e, o);
    assert e[o - 1] == e[..o][o - 1];
    AnnotationSuppresses();
    Scanner.PreviousLine(e, o, Annotation);
  }

  /** After an inserting `addSuppressed`, the line the locator finds follows
      a suppress line, so that a fresh scan marks a declaration there as
      suppressed and its checkbox unchecked. */
  lemma SuppressMarksLine(d: string, test: string)
    requires Suppress(d, test).Ok? && Suppress(d, test).value != d
    ensures var e := Suppress(d, test).value;
      Locate(e, test + "(").Ok?
      && Scanner.FollowsSuppressLine(e, Locate(e, test + "(").value)
  {
    var o := Locate(d, test + "(").value;
    var e := Suppress(d, test).value;
    LocateAfterSuppress(d, test);
    InsertedShape(d, test, o, e);
    InsertedFollowsSuppress(d, e, o);
  }

  lemma InsertedShape(d: string, test: string, o: nat, e: string)
    requires Locate(d, test + "(") == Ok(o) && Suppress(d, test) == Ok(e) && e != d
    ensures InsertedAt(d, e, o) && 0 < o && d[o - 1] == '\n'
  {
    SuppressInserts(d, test);
    InsertedAtConcat(d, o);
    LocatedAfterNewline(d, test + "(");
  }
}
