/**
 * The editor state the action writes to, and the loop that applies clang-format's replacements
 * to it (ClangFormatAction.actionPerformed, inside its write command).
 */
module Editor {
  import opened Wrappers
  import opened Replacements

  /** The host's text buffer; only the operation the action uses is modelled. */
  class Document {
    var text: string

    constructor (text: string)
      ensures this.text == text
    {
      this.text := text;
    }

    /** Replaces `text[start..end]` by `value`; the host demands a range inside the text. */
    method ReplaceString(start: int, end: int, value: string)
      requires 0 <= start <= end <= |text|
      modifies this
      ensures text == Splice(old(text), start, end, value)
    {
      text := Splice(text, start, end, value);
    }
  }

  /** The primary caret of the editor. */
  class Caret {
    var offset: int

    constructor (offset: int)
      ensures this.offset == offset
    {
      this.offset := offset;
    }

    method MoveToOffset(offset: int)
      modifies this
      ensures this.offset == offset
    {
      this.offset := offset;
    }
  }

  /**
   * Applies the replacements in list order, each at its original offset plus the running
   * correction, then moves the caret to the reported cursor, which needs no correction.
   */
  method ApplyReplacements(document: Document, caret: Caret, replacements: ReplacementSet)
    requires Applicable(document.text, replacements.replacements)
    modifies document, caret
    ensures ApplyInOrder(old(document.text), replacements.replacements) == Some(document.text)
    ensures |document.text| == |old(document.text)| + Drift(replacements.replacements)
    ensures WellFormed(old(document.text), replacements.replacements) ==>
              document.text == SpliceAll(old(document.text), replacements.replacements)
    ensures replacements.replacements == [] ==> document.text == old(document.text)
    ensures caret.offset == replacements.cursor
  {
    ghost var original := document.text;
    var rs := replacements.replacements;
    // Track the actual location being moved by the insertions/removals.
    var offsetCorrection := 0;
    for i := 0 to |rs|
      invariant offsetCorrection == Drift(rs[..i])
      invariant ApplyInOrder(original, rs[..i]) == Some(document.text)
    {
      var r := rs[i];
      ApplyNext(original, rs, i);
      var actualStart := r.offset + offsetCorrection;
      var actualEnd := actualStart + r.length;
      document.ReplaceString(actualStart, actualEnd, r.value);
      offsetCorrection := offsetCorrection - (r.length - |r.value|);
    }
    assert rs[..|rs|] == rs;
    AppliedInOrder(original, rs);
    caret.MoveToOffset(replacements.cursor);
  }
}
