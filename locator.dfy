/** The live locator shared by `gotoText`, `addSuppressed` and
    `removeSuppressed`: each re-walks the document from offset 0 until a line
    contains `name + "("`. */
module Locator {
  import opened Wrappers
  import opened Text
  import opened Lines
  import Patterns
  import Scanner

  /** The walk from line start `p`: the first line containing `pat`, or the
      null dereference when the walk runs out of terminated lines. */
  function LocateFrom(d: string, p: nat, pat: string): (r: Result<nat>)
    requires p <= |d|
    ensures r.Ok? ==> p <= r.value < |d|
    decreases |d| - p
  {
    match NextLine(d, p)
    case None => Err(NullPointer)
    case Some(l) => if Contains(l, pat) then Ok(p) else LocateFrom(d, p + |l| + 1, pat)
  }

  /** One step of the walk: no line ends it with the null dereference, a
      line containing `pat` ends it there, and any other line passes it on
      to the line after. */
  lemma LocateFromStep(d: string, p: nat, pat: string)
    requires p <= |d|
    ensures NextLine(d, p).None? ==> LocateFrom(d, p, pat) == Err(NullPointer)
    ensures NextLine(d, p).Some? ==>
              var l := NextLine(d, p).value;
              LocateFrom(d, p, pat)
                == if Contains(l, pat) then Ok(p) else LocateFrom(d, p + |l| + 1, pat)
  {
  }

  /** A line without `pat` passes the walk on to the line after it. */
  lemma LocateFromSkip(d: string, p: nat, l: string, next: nat, pat: string)
    requires p <= |d| && NextLine(d, p) == Some(l) && !Contains(l, pat) && next == p + |l| + 1
    ensures LocateFrom(d, p, pat) == LocateFrom(d, next, pat)
  {
  }

  /** A located offset starts a terminated line that contains `pat`; the
      only failure is the null dereference. */
  lemma {:induction false} LocateFromFound(d: string, p: nat, pat: string)
    requires p <= |d|
    ensures var r := LocateFrom(d, p, pat);
      (r.Ok? ==> (r.value == p || d[r.value - 1] == '\n')
                 && NextLine(d, r.value).Some? && Contains(NextLine(d, r.value).value, pat))
      && (r.Err? ==> r.fault == NullPointer)
    decreases |d| - p
  {
    var r := LocateFrom(d, p, pat);
    LocateFromStep(d, p, pat);
    var line := NextLine(d, p);
    if line.None? {
      assert r == Err(NullPointer);
    } else if Contains(line.value, pat) {
      assert r == Ok(p);
    } else {
      var next := p + |line.value| + 1;
      assert r == LocateFrom(d, next, pat);
      assert d[next - 1] == '\n';
      LocateFromFound(d, next, pat);
    }
  }

  function Locate(d: string, pat: string): Result<nat> {
    LocateFrom(d, 0, pat)
  }

  /** A terminated line at `L` contains `pat`. */
  predicate LineContains(d: string, L: nat, pat: string) {
    IsLineStart(d, L) && NextLine(d, L).Some? && Contains(NextLine(d, L).value, pat)
  }

  lemma {:induction false} LocateFromFirst(d: string, p: nat, pat: string)
    requires p <= |d| && IsLineStart(d, p)
    ensures LocateFrom(d, p, pat).Ok? ==>
              forall L :: p <= L < LocateFrom(d, p, pat).value ==> !LineContains(d, L, pat)
    ensures LocateFrom(d, p, pat).Err? ==> forall L :: p <= L ==> !LineContains(d, L, pat)
    decreases |d| - p
  {
    match NextLine(d, p)
    case None =>
      forall L | p <= L && NextLine(d, L).Some? ensures NextLine(d, p).Some? {
        LaterLineRead(d, p, L);
      }
    case Some(l) =>
      var next := p + |l| + 1;
      if !Contains(l, pat) {
        LocateFromFirst(d, next, pat);
        forall L | p < L < next ensures !IsLineStart(d, L) {
          assert d[L - 1] != '\n';
        }
      }
  }

  /** The located offset is the first terminated line containing `pat`;
      when there is none, the walk fails with the null dereference. */
  lemma LocateFirst(d: string, pat: string)
    ensures Locate(d, pat).Ok? ==>
              LineContains(d, Locate(d, pat).value, pat)
              && forall L: nat :: L < Locate(d, pat).value ==> !LineContains(d, L, pat)
    ensures Locate(d, pat).Err? <==> forall L: nat :: !LineContains(d, L, pat)
  {
    LocateFromFirst(d, 0, pat);
    LocateFromFound(d, 0, pat);
    var r := Locate(d, pat);
    if r.Ok? {
      assert LineContains(d, r.value, pat);
    }
  }

  /** The walk loop of `gotoText`, `addSuppressed` and `removeSuppressed`. */
  method LocateLine(d: string, pat: string) returns (r: Result<nat>)
    ensures r == Locate(d, pat)
  {
    var offset := 0;
    var line := GetDocumentLine(d, offset);
    while line.Some? && !Contains(line.value, pat)
      invariant offset <= |d| && line == NextLine(d, offset)
      invariant LocateFrom(d, offset, pat) == Locate(d, pat)
      decreases |d| - offset
    {
      offset := offset + |line.value| + 1;
      line := GetDocumentLine(d, offset);
    }
    if line.None? {
      r := Err(NullPointer);
    } else {
      r := Ok(offset);
    }
  }

  /** For every scanned declaration, on the document it was scanned from,
      the locator finds a line at or before the declaration's own line. */
  lemma LocateScanned(d: string)
    ensures forall decl :: decl in Scanner.Scan(d) ==>
              Locate(d, decl.name + "(").Ok? && Locate(d, decl.name + "(").value <= decl.line
  {
    Scanner.ScanExact(d);
    forall decl | decl in Scanner.Scan(d)
      ensures Locate(d, decl.name + "(").Ok? && Locate(d, decl.name + "(").value <= decl.line
    {
      var pat := decl.name + "(";
      var l := NextLine(d, decl.line).value;
      Patterns.NameOccursInLine(l);
      assert LineContains(d, decl.line, pat);
      LocateFirst(d, pat);
    }
  }
}
