/** The tool window of the plugin: the panel of test checkboxes, the test
    counter, the search filter, the card shown and the spinner, and the
    operations that fill the panel from the editor's document, filter it,
    and turn a checkbox's toggle into an edit of the document. */
module Selector {
  import opened Wrappers
  import opened Text
  import opened Lines
  import opened Patterns
  import opened Scanner
  import opened Locator
  import opened Suppression
  import opened Buffer
  import opened Spinner

  /** A test checkbox: its text (the test name), whether it is checked, and
      whether the filter shows it. */
  datatype CheckBox = CheckBox(text: string, selected: bool, visible: bool)

  /** The cards of the main panel. */
  datatype Card = LoadingCard | NoTestsCard | TestsCard

  /** The checkbox created for a declaration: checked unless suppressed, and
      shown. */
  function BoxOf(decl: Decl): CheckBox {
    CheckBox(decl.name, !decl.suppressed, true)
  }

  /** The checkboxes of a list of declarations, in order. */
  function Boxes(ds: seq<Decl>): (r: seq<CheckBox>)
    ensures |r| == |ds|
  {
    if ds == [] then [] else Boxes(ds[..|ds| - 1]) + [BoxOf(ds[|ds| - 1])]
  }

  lemma {:induction false} BoxesAt(ds: seq<Decl>, i: nat)
    requires i < |ds|
    ensures Boxes(ds)[i] == BoxOf(ds[i])
    decreases |ds|
  {
    if i < |ds| - 1 {
      BoxesAt(ds[..|ds| - 1], i);
    }
  }

  /** The panel of a freshly filled tool window holds, in document order,
      one checked-unless-suppressed, visible box per test-head line of the
      document, named after its line's match, and no other box. */
  lemma FilledPanel(d: string)
    ensures var ds := Scan(d);
      |Boxes(ds)| == |ds| && Increasing(ds)
      && (forall i :: 0 <= i < |ds| ==>
            Boxes(ds)[i].text == ds[i].name && Boxes(ds)[i].visible
            && (Boxes(ds)[i].selected <==> !FollowsSuppressLine(d, ds[i].line))
            && Declares(d, ds[i]))
      && (forall L :: IsHeadLine(d, L) ==> exists i :: 0 <= i < |ds| && ds[i].line == L)
  {
    var ds := Scan(d);
    ScanOrdered(d);
    ScanSuppression(d);
    ScanExact(d);
    forall i | 0 <= i < |ds|
      ensures Boxes(ds)[i].text == ds[i].name && Boxes(ds)[i].visible
        && (Boxes(ds)[i].selected <==> !FollowsSuppressLine(d, ds[i].line))
        && Declares(d, ds[i])
    {
      BoxesAt(ds, i);
      assert ds[i] in ds;
    }
    forall L | IsHeadLine(d, L) ensures exists i :: 0 <= i < |ds| && ds[i].line == L {
      var decl :| decl in ds && decl.line == L;
      var i :| 0 <= i < |ds| && ds[i] == decl;
    }
  }

  /** The filter on one checkbox: shown exactly when its text contains the
      query, ignoring ASCII case. */
  function Filtered(box: CheckBox, query: string): CheckBox {
    box.(visible := ContainsIgnoreCase(box.text, query))
  }

  /** The filter over the panel. */
  function FilterAll(boxes: seq<CheckBox>, query: string): (r: seq<CheckBox>)
    ensures |r| == |boxes|
  {
    seq(|boxes|, i requires 0 <= i < |boxes| => Filtered(boxes[i], query))
  }

  /** Filtering keeps every box with its text and check mark, and shows
      exactly the boxes whose text contains the query. */
  lemma FilterAllSpec(boxes: seq<CheckBox>, query: string)
    ensures var r := FilterAll(boxes, query);
      |r| == |boxes|
      && forall i :: 0 <= i < |boxes| ==>
           r[i].text == boxes[i].text && r[i].selected == boxes[i].selected
           && (r[i].visible <==> exists k :: 0 <= k <= |boxes[i].text| - |query| && FoldedAt(boxes[i].text, query, k))
  {
  }

  /** Filtering twice with the same query is filtering once. */
  lemma FilterIdempotent(boxes: seq<CheckBox>, query: string)
    ensures FilterAll(FilterAll(boxes, query), query) == FilterAll(boxes, query)
  {
  }

  /** The empty query, which filling the panel sets, shows every box. */
  lemma EmptyQueryShowsAll(boxes: seq<CheckBox>)
    ensures forall i :: 0 <= i < |boxes| ==> FilterAll(boxes, "")[i].visible
  {
    forall i | 0 <= i < |boxes| ensures FilterAll(boxes, "")[i].visible {
      assert FoldedAt(boxes[i].text, "", 0);
    }
  }

  /** The outcome of a document edit as the plugin reports it. */
  function OutcomeOf(r: Result<string>): Outcome {
    match r
    case Ok(_) => Done
    case Err(f) => Failed(f)
  }

  /** `TestSelector`, and with `espresso` set, `TestSelectorEspresso`, which
      differs only by guarding against a missing editor. */
  class TestSelector {
    var panel: seq<CheckBox>
    var tests: int
    var searchText: string
    var card: Card
    const loader: Loader
    const espresso: bool

    constructor (espresso: bool)
      ensures this.espresso == espresso
      ensures panel == [] && tests == 0 && searchText == "" && card == LoadingCard
      ensures fresh(loader) && InPhase(loader.Current()) && !loader.isAnimating
    {
      this.espresso := espresso;
      panel := [];
      tests := 0;
      searchText := "";
      card := LoadingCard;
      loader := new Loader();
    }

    /** `fillTests`: the search text and the panel are cleared and the
        counter reset; then the document of the selected editor is walked
        line by line. Without an editor, `TestSelector` dereferences null
        and stops, `TestSelectorEspresso` stops cleanly. */
    method FillTests(editor: Editor?) returns (r: Outcome)
      modifies this
      ensures searchText == "" && card == old(card)
      ensures editor == null ==>
                panel == [] && tests == 0 && r == (if espresso then Done else Failed(NullPointer))
      ensures editor != null ==>
                r == Done && panel == Boxes(Scan(editor.document.text)) && tests == |panel|
    {
      searchText := "";
      panel := [];
      tests := 0;
      var isSuppressed := false;
      if editor == null {
        r := if espresso then Done else Failed(NullPointer);
        return;
      }
      var d := editor.document.text;
      var offset := 0;
      ghost var done: seq<Decl> := [];
      var line := GetDocumentLine(d, offset);
      while line.Some?
        invariant offset <= |d| && line == NextLine(d, offset)
        invariant Scan(d) == done + Walk(LinesFrom(d, offset), isSuppressed)
        invariant panel == Boxes(done) && tests == |panel|
        invariant searchText == "" && card == old(card)
        decreases |d| - offset
      {
        var l := line.value;
        var start := offset;
        offset := offset + |l| + 1;
        ghost var pending, before := isSuppressed, done;
        isSuppressed, done := ReadDeclaration(l, start, isSuppressed, done);
        ScanStep(d, start, l, offset, pending, isSuppressed, Emitted(Classify(l), start, pending), before, Scan(d));
        line := GetDocumentLine(d, offset);
      }
      assert LinesFrom(d, offset) == [];
      assert Scan(d) == done + [] == done;
      r := Done;
    }

    /** The body of the loop of `fillTests` for line `l` at offset `start`:
        a suppress line sets the flag; otherwise a test-head match adds a
        checkbox named after the match without its final `(`, checked unless
        the flag is set, counts it and clears the flag; any other line
        clears the flag. */
    method ReadDeclaration(l: string, start: nat, isSuppressed: bool, ghost done: seq<Decl>)
      returns (flag: bool, ghost done': seq<Decl>)
      requires panel == Boxes(done) && tests == |panel|
      modifies this
      ensures flag == Classify(l).SuppressLine?
      ensures done' == done + Emitted(Classify(l), start, isSuppressed)
      ensures panel == Boxes(done') && tests == |panel|
      ensures searchText == old(searchText) && card == old(card)
    {
      done' := done;
      if SuppressMatch(l) {
        assert done' == done + [];
        flag := true;
      } else {
        var m := TestMatch(l);
        if m.Some? {
          var g := l[m.value.start..m.value.close + 1];
          var box := CheckBox(g[..|g| - 1], !isSuppressed, true);
          ghost var decl := Decl(TestName(l, m.value), start, isSuppressed);
          assert g[..|g| - 1] == decl.name;
          assert Classify(l) == HeadLine(decl.name);
          done' := done + [decl];
          assert done'[..|done'| - 1] == done;
          assert Boxes(done') == panel + [box];
          tests := tests + 1;
          panel := panel + [box];
        } else {
          assert done' == done + [];
        }
        flag := false;
      }
    }

    /** `gotoText`: the caret moves to the first line containing
        `test + "("`; when no line does, the walk dereferences null and the
        caret stays. */
    method GotoText(editor: Editor?, test: string) returns (r: Outcome)
      modifies editor
      ensures editor == null ==> r == Failed(NullPointer)
      ensures editor != null ==>
                match Locate(editor.document.text, test + "(")
                case Ok(o) => r == Done && editor.caret == o
                case Err(f) => r == Failed(f) && editor.caret == old(editor.caret)
    {
      if editor == null {
        return Failed(NullPointer);
      }
      var located := LocateLine(editor.document.text, test + "(");
      match located
      case Ok(o) =>
        editor.caret := o;
        r := Done;
      case Err(f) =>
        r := Failed(f);
    }

    /** `addSuppressed`: the annotation line goes in front of the first line
        containing `test + "("` unless the ten characters before that line
        already hold the marker. */
    method AddSuppressed(editor: Editor?, test: string) returns (r: Outcome)
      modifies if editor == null then {} else {editor.document}
      ensures editor == null ==> r == Failed(NullPointer)
      ensures editor != null ==>
                editor.document.text == AfterSuppress(old(editor.document.text), test)
                && r == OutcomeOf(Suppress(old(editor.document.text), test))
    {
      if editor == null {
        return Failed(NullPointer);
      }
      var document := editor.document;
      var d := document.text;
      var located := LocateLine(d, test + "(");
      if located.Err? {
        assert Suppress(d, test) == Err(located.fault);
        return Failed(located.fault);
      }
      var offset := located.value;
      if offset < AddWindow {
        assert Suppress(d, test) == Err(BadRange);
        return Failed(BadRange);
      }
      if !Contains(d[offset - AddWindow..offset], Marker) {
        document.InsertString(offset - 1, "\n");
        document.InsertString(offset, Annotation);
      }
      assert Suppress(d, test) == Ok(document.text);
      r := Done;
    }

    /** `removeSuppressed`: the eleven characters in front of the first line
        containing `test + "("` are deleted when they hold the marker. */
    method RemoveSuppressed(editor: Editor?, test: string) returns (r: Outcome)
      modifies if editor == null then {} else {editor.document}
      ensures editor == null ==> r == Failed(NullPointer)
      ensures editor != null ==>
                editor.document.text == AfterUnsuppress(old(editor.document.text), test)
                && r == OutcomeOf(Unsuppress(old(editor.document.text), test))
    {
      if editor == null {
        return Failed(NullPointer);
      }
      var document := editor.document;
      var d := document.text;
      var located := LocateLine(d, test + "(");
      if located.Err? {
        assert Unsuppress(d, test) == Err(located.fault);
        return Failed(located.fault);
      }
      var offset := located.value;
      if offset < RemoveWindow {
        assert Unsuppress(d, test) == Err(BadRange);
        return Failed(BadRange);
      }
      if Contains(d[offset - RemoveWindow..offset], Marker) {
        document.DeleteString(offset - RemoveWindow, offset);
      }
      assert Unsuppress(d, test) == Ok(document.text);
      r := Done;
    }

    /** The item listener of the checkbox at `i`: a change of its check mark
        to unchecked suppresses the test in the document, to checked
        unsuppresses it; setting the mark it already has fires nothing. */
    method SetSelected(editor: Editor?, i: nat, selected: bool) returns (r: Outcome)
      requires i < |panel|
      modifies this, if editor == null then {} else {editor.document}
      ensures panel == old(panel)[i := old(panel)[i].(selected := selected)]
      ensures tests == old(tests) && searchText == old(searchText) && card == old(card)
      ensures old(panel)[i].selected == selected ==>
                r == Done && (editor != null ==> editor.document.text == old(editor.document.text))
      ensures old(panel)[i].selected != selected ==>
                var test := old(panel)[i].text;
                (editor == null ==> r == Failed(NullPointer))
                && (editor != null ==>
                      var d := old(editor.document.text);
                      if selected then
                        editor.document.text == AfterUnsuppress(d, test) && r == OutcomeOf(Unsuppress(d, test))
                      else
                        editor.document.text == AfterSuppress(d, test) && r == OutcomeOf(Suppress(d, test)))
    {
      var box := panel[i];
      panel := panel[i := box.(selected := selected)];
      if box.selected == selected {
        return Done;
      }
      if !selected {
        r := AddSuppressed(editor, box.text);
      } else {
        r := RemoveSuppressed(editor, box.text);
      }
    }

    /** `updateTests`: each checkbox is shown exactly when its text contains
        the search text, ignoring case. A query that does not compile as a
        regular expression leaves every box as it was. */
    method UpdateTests(malformed: bool)
      modifies this
      ensures panel == if malformed then old(panel) else FilterAll(old(panel), searchText)
      ensures tests == old(tests) && searchText == old(searchText) && card == old(card)
    {
      if malformed {
        return;
      }
      var i := 0;
      while i < |panel|
        invariant 0 <= i <= |panel| == |old(panel)|
        invariant panel[..i] == FilterAll(old(panel), searchText)[..i]
        invariant panel[i..] == old(panel)[i..]
        invariant tests == old(tests) && searchText == old(searchText) && card == old(card)
      {
        panel := panel[i := Filtered(panel[i], searchText)];
        i := i + 1;
      }
      assert panel == panel[..i];
    }

    /** Typing in the search field: its text changes and its document
        listener filters the panel. */
    method EditSearch(query: string, malformed: bool)
      modifies this
      ensures searchText == query
      ensures panel == if malformed then old(panel) else FilterAll(old(panel), query)
      ensures tests == old(tests) && card == old(card)
    {
      searchText := query;
      UpdateTests(malformed);
    }

    /** `populate`, with the three phases of its task run in the order the
        event queue runs them: the spinner starts and the loading card shows,
        the panel is filled, the spinner stops and the card follows the test
        counter. A failed fill still lets the last phase run. The animation
        loop runs beside the fill until it is stopped; `ticks`, the rounds it
        makes in that time, depends on the clock and is an input. */
    method Populate(editor: Editor?, ticks: nat) returns (r: Outcome)
      modifies this, loader
      ensures !loader.isAnimating && loader.Current() == Steps(old(loader.Current()), ticks)
      ensures InPhase(old(loader.Current())) ==> InPhase(loader.Current())
      ensures searchText == "" && tests == |panel|
      ensures card == if |panel| > 0 then TestsCard else NoTestsCard
      ensures editor == null ==>
                panel == [] && card == NoTestsCard && r == (if espresso then Done else Failed(NullPointer))
      ensures editor != null ==> r == Done && panel == Boxes(Scan(editor.document.text))
    {
      loader.StartAnimation();
      card := LoadingCard;
      loader.Animate(ticks);
      r := FillTests(editor);
      loader.StopAnimation();
      if InPhase(old(loader.Current())) {
        StepsInPhase(old(loader.Current()), ticks);
      }
      if tests > 0 {
        card := TestsCard;
      } else {
        card := NoTestsCard;
      }
    }
  }
}
