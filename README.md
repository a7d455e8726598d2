# TestSelector, modelled in Dafny

TestSelector is an IntelliJ tool window that lists the tests of the open
source file as checkboxes. It walks the editor document one
newline-terminated line at a time. Each line is matched against two fixed
regular expressions:

- `@Suppress\b` marks the next line as suppressed;
- `\btest_.*\b[(]` is a test head; its match, without the final `(`, is
  the test's name.

Every head line that is not also a suppress line gets a checkbox. The box
is checked unless the line before it was a suppress line. Unchecking a box
inserts a `\t@Suppress` line in front of the first line of the document
that contains the test's name followed by `(`, unless the ten characters in
front of that line already hold `@Suppress`. If no line contains it, the
code dereferences null; if that line starts before offset 10, the text
range is invalid. The line found is normally the test's declaration, but an
earlier line such as `void helper_test_a() {}` also contains `test_a(` and
is found first. Checking the box again deletes the eleven characters in
front of that same first line when they hold the marker. The menu entry
"go to" moves the caret to the start of that line. A search field filters
the visible boxes. A spinner animates while the list is being filled.

The model has these modules:

- `Wrappers`: option and result types, and the two failures the code can
  raise. These are the null dereference and the negative text range.
- `Text`: ASCII character classes, `String.contains`, and
  case-insensitive substring search.
- `Lines`: `getDocumentLine` as a loop, and the function `NextLine` that
  specifies it.
- `Patterns`: the two fixed patterns over ASCII. They are functions that
  mirror `Matcher.find`: leftmost start, greedy `.*` with backtracking, and
  `.` refusing Java's line terminators. Each function comes with a lemma
  giving its declarative meaning.
- `Scanner`: the declaration walk of `fillTests` as a function over the
  list of read lines. It comes with the order, soundness, completeness and
  suppression lemmas.
- `Locator`: the locating loop shared by `gotoText`, `addSuppressed` and
  `removeSuppressed`.
- `Suppression`: the document edits of `addSuppressed` and
  `removeSuppressed` as functions. They come with their exact effects,
  idempotence, the add-then-remove round trip, and agreement with the
  scanner.
- `Buffer`: the editor document and the editor, as classes whose text and
  caret change in place.
- `Selector`: class `TestSelector` with the panel of checkboxes, the test
  counter, the search text and the card shown. A `const espresso` flag
  selects the `TestSelectorEspresso` variant, which differs only by its
  null-editor guard.
- `Spinner`: the spinner state machine, with class `Loader` and the tick
  of its animation loop.

## Model

| member | source | states |
|---|---|---|
| Lines.NextLine | src/TestSelector.java:149-159 | the line read at `start` ends at the first newline at or after `start` and holds no newline; there is none exactly when no newline follows, so an unterminated last line is never read |
| Lines.GetDocumentLine | src/TestSelector.java:149-159 | the range-widening loop returns exactly `NextLine(d, start)`, and null where the range runs past the document |
| Patterns.SuppressMatchSpec | src/TestSelector.java:99 | the suppress test holds exactly when `@Suppress` (ASCII case folded) occurs followed by the end of the line or a non-word character |
| Patterns.MatchAtSpec | src/TestSelector.java:98 | from a start index, the match attempt returns the largest close at which `\btest_.*\b[(]` matches there, or none when it matches nowhere from that start |
| Patterns.MatchFromSpec | src/TestSelector.java:98 | searching from `i` returns the leftmost start at or after `i` at which the pattern matches, with its greedy close; none when no start at or after `i` matches |
| Patterns.TestMatchSpec | src/TestSelector.java:98 | `find()` of the test pattern returns the leftmost matching start with the greedy close, and returns none exactly when the pattern matches nowhere in the line |
| Patterns.NameOccursInLine | src/TestSelector.java:112-114 | the checkbox text plus `(` is the match itself, so it occurs in its own line |
| Scanner.WalkStep | src/TestSelector.java:107-139 | one line of the walk: a head line emits its declaration with the current flag, and the flag for the rest is set exactly by a suppress line |
| Scanner.ScanStep | src/TestSelector.java:106-140 | the loop's invariant, that the declarations so far plus the walk of the rest equal the whole scan, survives one line |
| Scanner.LinesFromRead | src/TestSelector.java:106-107 | every line the walk reads starts a line, is the text up to the next newline, and starts right after the previous line's newline |
| Scanner.WalkSound | src/TestSelector.java:108-139 | every emitted declaration sits on a read line that is a head line with its name, and it is suppressed exactly when the line before it (or the incoming flag, for the first) is a suppress line |
| Scanner.WalkComplete | src/TestSelector.java:108-139 | every read head line emits a declaration at its offset |
| Scanner.ScanOrdered | src/TestSelector.java:106-107 | the declarations come out in strictly increasing line offset |
| Scanner.ScanExact | src/TestSelector.java:106-140 | every declaration is a head line of the document with the name its match gives; every head line of the document yields a declaration |
| Scanner.PreviousLine | src/TestSelector.java:107-111 | the line after a read line follows a suppress line exactly when the read line matches the suppress pattern |
| Scanner.ScanSuppression | src/TestSelector.java:110-139 | a declaration is suppressed exactly when the line right before it is a suppress line; a blank or other line clears the flag |
| Locator.LocateFromFound | src/TestSelector.java:171-173 | a located offset starts a terminated line containing the pattern; the only failure is the null dereference |
| Locator.LocateFirst | src/TestSelector.java:171-173 | the located offset is the first terminated line containing `test + "("`; the walk fails exactly when no terminated line contains it |
| Locator.LocateLine | src/TestSelector.java:187-189 | the locating loop returns exactly `Locate(d, test + "(")` |
| Locator.LocateScanned | src/TestSelector.java:206-208 | on the scanned document, the locator finds every scanned name at or before the declaration's own line |
| Suppression.TwoInsertsAreOne | src/TestSelector.java:193-194 | the newline at `offset - 1` followed by the annotation at `offset` is inserting `"\t@Suppress\n"` at `offset`, because the located line follows a newline |
| Suppression.SuppressInserts | src/TestSelector.java:186-196 | when `addSuppressed` changes the document, the window of ten characters lacked the marker and the result is the old text with `"\t@Suppress\n"` inserted in front of the located line, nothing else changed |
| Suppression.LocateAfterSuppress | src/TestSelector.java:187-189 | after an inserting `addSuppressed`, the same test is located eleven characters further on |
| Suppression.SuppressIdempotent | src/TestSelector.java:181-197 | a second `addSuppressed` right after the first leaves the document as the first left it |
| Suppression.UnsuppressDeletes | src/TestSelector.java:205-214 | when `removeSuppressed` changes the document, the eleven-character window held the marker and exactly that window is deleted |
| Suppression.UnsuppressUndoesSuppress | src/TestSelector.java:200-215 | `removeSuppressed` right after an inserting `addSuppressed` restores the original document exactly |
| Suppression.AnnotationSuppresses | src/TestSelector.java:194 | the inserted annotation line is a suppress line for the scan |
| Suppression.SuppressMarksLine | src/TestSelector.java:193-194 | after an inserting `addSuppressed`, the located line follows a suppress line, so a fresh scan marks a declaration there as suppressed |
| Selector.FilledPanel | src/TestSelector.java:112-136 | the filled panel has one box per declaration, in strictly increasing line order; each box is visible, named after its line's match and checked exactly when the line before is not a suppress line; every head line of the document has a box |
| Selector.FilterAllSpec | src/TestSelector.java:221-237 | filtering keeps the number of boxes, their texts and check marks, and shows exactly the boxes whose text contains the query ignoring ASCII case |
| Selector.FilterIdempotent | src/TestSelector.java:224-231 | filtering twice with the same query is filtering once |
| Selector.EmptyQueryShowsAll | src/TestSelector.java:96 | the empty query that filling sets shows every box |
| Selector.TestSelector.constructor | src/TestSelector.java:34-39 | a new window has an empty panel, a zero counter, an empty search text, the loading card and a spinner at rest in phase |
| Selector.TestSelector.FillTests | src/TestSelectorEspresso.java:35-83 | the search text is cleared and the panel and counter reset; without an editor the panel stays empty, and the walk reports the null dereference unless the `espresso` guard is set (the unguarded walk is src/TestSelector.java:95-141); with an editor the panel is exactly the boxes of the scan and the counter is its size |
| Selector.TestSelector.ReadDeclaration | src/TestSelector.java:107-139 | one line: a suppress line sets the flag and adds nothing; a head line appends the box named after the match, checked unless flagged, and counts it; every other line clears the flag |
| Selector.TestSelector.GotoText | src/TestSelector.java:166-177 | the caret moves to the located line; when no line contains the name, the null dereference is reported and the caret stays |
| Selector.TestSelector.AddSuppressed | src/TestSelector.java:181-197 | the document becomes `AfterSuppress` of the old one and the outcome is that of `Suppress`, including the failures |
| Selector.TestSelector.RemoveSuppressed | src/TestSelector.java:200-215 | the document becomes `AfterUnsuppress` of the old one and the outcome is that of `Unsuppress`, including the failures |
| Selector.TestSelector.SetSelected | src/TestSelector.java:119-129 | a change of a box's check mark updates the box; unchecking runs `addSuppressed` and checking runs `removeSuppressed` on its text; setting the same mark fires nothing |
| Selector.TestSelector.UpdateTests | src/TestSelector.java:221-237 | the panel becomes the filter of the old panel by the search text; a malformed query changes nothing |
| Selector.TestSelector.EditSearch | src/TestSelector.java:240-255 | an edit of the search field sets its text and filters the panel through the listener |
| Selector.TestSelector.Populate | src/TestSelector.java:64-89 | the spinner is started, its loop makes `ticks` rounds during the fill, leaving the frame at `Steps(old frame, ticks)` and in phase if it was, and it is stopped after the fill; the card shown is the tests card exactly when the counter is positive, which is the number of boxes filled |
| Spinner.Next | src/Loader.java:30-34 | the next state of a known state is a known state |
| Spinner.NextCycles | src/Loader.java:30-34 | the states cycle 0, 1, 2, 0 |
| Spinner.Loader.NextState | src/Loader.java:30-34 | the state advances as `Next` says and nothing else changes |
| Spinner.StepBounded | src/Loader.java:49-71 | a tick keeps the state in {0, 1, 2}, the arc start in [0, 360] and the extent even in [40, 270]; it changes the state exactly when the arc start was 0 |
| Spinner.StepInPhase | src/Loader.java:52-71 | away from 0 a tick turns the arc start by 5 in states 0 and 1 and by 4 in state 2; at 0 it moves to the next state with the start at 360; either way the start stays a multiple of the turn |
| Spinner.ReachesZero | src/Loader.java:49-52 | from an arc start of `k` turns, `k` ticks bring it to 0 in the same state |
| Spinner.StateAdvances | src/Loader.java:43-71 | the animation never stalls: from any frame in phase, the next state is reached within 91 ticks |
| Spinner.StepsInPhase | src/Loader.java:43-71 | any number of ticks keeps a frame in phase and within its bounds |
| Spinner.Loader.constructor | src/Loader.java:13-16 | a new spinner starts in state 0 with start 270 and extent 40, not animating, in phase |
| Spinner.Loader.Tick | src/Loader.java:49-71 | the fields become `Step` of the old frame |
| Spinner.Loader.Animate | src/Loader.java:43-73 | `n` rounds of the loop while the flag stays set leave the frame at `Steps(old frame, n)` |
| Spinner.Loader.StartAnimation | src/Loader.java:40-41 | the loop's flag is set and the frame is unchanged |
| Spinner.Loader.StopAnimation | src/Loader.java:20-22 | the loop's flag, its only exit condition, is cleared and the frame is unchanged |

## Left out

- Threads and the event queue: `populate` runs its three phases on
  another thread, through `SwingUtilities.invokeLater`. The model runs
  them in the order the queue runs them: pre, fill, post. Overlapping
  refreshes are not modelled.
- The animation thread's `Thread.sleep`, `repaint` and painting are left
  out. So are its unsynchronised reads of `min` and `max`.
- Swing and IntelliJ objects are left out. A checkbox is the record
  `(text, selected, visible)`. The panel is a sequence of such records.
  The document is a `string` edited in place by `Buffer.Document`.
- Selector.TestSelector.UpdateTests: the query is matched as literal text,
  ignoring ASCII case. The Java regular expression grammar is not modelled.
  Whether a query is malformed is a parameter.
- The Unicode forms of `\b` and case folding are left out. Word characters
  and case folding are ASCII.
- Selector.TestSelector.GotoText: scrolling and `offsetToVisualPosition`
  are left out. Only the caret move is modelled.
- The select-all and select-none buttons of `initTests` are left out. They
  toggle every box in turn. Each toggle is `SetSelected`, but the composed
  effect on the document over many names is not stated.
- The clear button, `fileClosed`, `selectionChanged` and
  `createToolWindowContent` are Swing wiring and are left out.
  `selectionChanged` calls `populate`, which is modelled.
- `search_field.setText("")` in `fillTests` fires the filter on the old
  panel just before that panel is emptied. The model only clears the text.
- src/Main.java, src/HintTextField.java and src/AsyncTask.java are not
  part of this model, beyond the phase order of `AsyncTask.run`.
- The 3-argument constructor that `TestSelectorEspresso` calls is not part
  of the shown `TestSelector.java`. The variant is the `espresso` flag.
- Offsets are unbounded integers. Documents longer than Java's `int`
  range are not modelled.
- A `TextRange` with a negative start is an error in IntelliJ. It is
  modelled as the `BadRange` failure.
- `Decl.line`, the offset of a declaration's line, is kept for stating
  order and position. The code does not store it.
- Suppression.Suppress: offsets, the ten-character window and the
  `o < 10` guard count Unicode characters. IntelliJ counts UTF-16 code
  units, so a document with characters outside the Basic Multilingual
  Plane, such as emoji, can give a different window or guard there.
- Suppression.Unsuppress: the eleven-character window and the `o < 11`
  guard count Unicode characters, not UTF-16 code units, with the same
  gap as `Suppress`.
- Selector.TestSelector.GotoText: the caret offset is counted in Unicode
  characters, not UTF-16 code units.
- Spinner.StateAdvances: the spinner lemmas and `Loader.Animate` assume a
  single animation loop. Each call of `start_animation` starts a new
  thread, and `populate` calls it on every refresh, so two loops can step
  the same fields concurrently. That interleaving is not modelled.
- Selector.TestSelector.Populate: the rounds the animation loop makes
  while the panel is filled are an input, `ticks`, set by the clock. The
  model runs them all before the fill, which does not touch the spinner, so
  only the frame they leave is stated, not how they interleave with it.
