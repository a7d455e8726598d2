/** The editor objects the plugin works on: the document whose text it
    scans and edits in place, and the editor that shows it with a caret. */
module Buffer {

  /** `s` with `x` inserted at offset `k`. */
  function Insert(s: string, k: nat, x: string): string
    requires k <= |s|
  {
    s[..k] + x + s[k..]
  }

  /** `s` without the characters in `[lo, hi)`. */
  function Delete(s: string, lo: nat, hi: nat): string
    requires lo <= hi <= |s|
  {
    s[..lo] + s[hi..]
  }

  /** The editor document: its text, edited in place. */
  class Document {
    var text: string

    constructor (t: string)
      ensures text == t
    {
      text := t;
    }

    /** `Document.insertString`: an offset past the end is refused by the
        editor, so it is a precondition here. */
    method InsertString(offset: nat, s: string)
      requires offset <= |text|
      modifies this
      ensures text == Insert(old(text), offset, s)
    {
      text := Insert(text, offset, s);
    }

    /** `Document.deleteString`. */
    method DeleteString(lo: nat, hi: nat)
      requires lo <= hi <= |text|
      modifies this
      ensures text == Delete(old(text), lo, hi)
    {
      text := Delete(text, lo, hi);
    }
  }

  /** The selected text editor: a document and a caret offset. */
  class Editor {
    const document: Document
    var caret: nat

    constructor (doc: Document)
      ensures document == doc && caret == 0
    {
      document := doc;
      caret := 0;
    }
  }
}
