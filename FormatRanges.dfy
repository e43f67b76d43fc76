/**
 * Which ranges of the document are formatted: ClangFormatAutoAction.getFormatRanges (the
 * selection, the ranges changed against version control, or the whole file) and
 * ClangFormatFileAction.getFormatRanges (always the whole file).
 */
module FormatRanges {
  import opened Wrappers
  import opened Request

  /** A range `[start, end)` of the document. */
  datatype TextRange = TextRange(start: int, end: int)

  /** The answer of the version-control diff for a file under version control. */
  datatype DiffAnswer =
    | TooBigForDiff                        // FilesTooBigForDiffException
    | NoChangeInfo                         // the host returned no change information
    | ChangedRanges(ranges: seq<TextRange>)

  /**
   * getVcsTextRanges: None ("use the standard behaviour") for an untracked file or a file too big
   * to diff; an empty list for a tracked file without change information; the changed ranges
   * otherwise.
   */
  function VcsTextRanges(tracked: bool, diff: DiffAnswer): (r: Option<seq<TextRange>>)
    ensures r.None? <==> !tracked || diff.TooBigForDiff?
    ensures tracked && diff.NoChangeInfo? ==> r == Some([])
    ensures tracked && diff.ChangedRanges? ==> r == Some(diff.ranges)
  {
    if !tracked then None
    else
      match diff
      case TooBigForDiff => None
      case NoChangeInfo => Some([])
      case ChangedRanges(ranges) => Some(ranges)
  }

  /** The whole document, less the end-of-file position the host reports one too far. */
  function WholeFile(textLength: int): (r: TextRange)
    requires textLength >= 1
    ensures r.start == 0 && r.end == DocLength(textLength) && 0 <= r.end
  {
    TextRange(0, DocLength(textLength))
  }

  /**
   * ClangFormatAutoAction.getFormatRanges, with the answer of the version-control query passed
   * in; that answer is consulted only when nothing is selected and the setting
   * `updateOnlyChangedText` is on.
   */
  function AutoFormatRanges(textLength: int, selectionStart: int, selectionEnd: int,
                            updateOnlyChangedText: bool, vcsRanges: Option<seq<TextRange>>)
    : (r: seq<TextRange>)
    requires textLength >= 1
    ensures !(updateOnlyChangedText && vcsRanges.Some?) ==>
      |r| == 1 && (0 <= selectionStart ==> 0 <= r[0].start <= r[0].end <= DocLength(textLength))
  {
    var docLength := DocLength(textLength);
    var (start, length) := ClampSelection(docLength, selectionStart, selectionEnd);
    if length <= 0 && updateOnlyChangedText && vcsRanges.Some? then vcsRanges.value
    else if length <= 0 then [WholeFile(textLength)]
    else [TextRange(start, start + length)]
  }

  /** ClangFormatFileAction.getFormatRanges: one range, the whole file. */
  function FileFormatRanges(textLength: int): (r: seq<TextRange>)
    requires textLength >= 1
    ensures |r| == 1 && r[0].start == 0 && r[0].end == textLength - 1
  {
    [WholeFile(textLength)]
  }

  /**
   * A non-empty selection always wins: the result is that selection clamped to the document,
   * whatever the setting and whatever version control would have answered.
   */
  lemma SelectionWins(textLength: int, selectionStart: int, selectionEnd: int,
                      updateOnlyChangedText: bool, vcsRanges: Option<seq<TextRange>>)
    requires textLength >= 1
    requires ClampSelection(DocLength(textLength), selectionStart, selectionEnd).1 > 0
    ensures AutoFormatRanges(textLength, selectionStart, selectionEnd, updateOnlyChangedText, vcsRanges) ==
      [TextRange(ClampOffset(selectionStart, DocLength(textLength)), ClampOffset(selectionEnd, DocLength(textLength)))]
    ensures 0 <= selectionStart ==>
      0 <= ClampOffset(selectionStart, DocLength(textLength)) < ClampOffset(selectionEnd, DocLength(textLength))
  {
  }

  /**
   * With nothing selected and the setting on, an answer from version control is returned as it
   * is, the empty list of an unchanged tracked file included.
   */
  lemma VcsRangesVerbatim(textLength: int, selectionStart: int, selectionEnd: int, ranges: seq<TextRange>)
    requires textLength >= 1
    requires ClampSelection(DocLength(textLength), selectionStart, selectionEnd).1 <= 0
    ensures AutoFormatRanges(textLength, selectionStart, selectionEnd, true, Some(ranges)) == ranges
  {
  }

  /**
   * With nothing selected and no answer from version control (or the setting off), the whole
   * file is formatted, exactly as the file action does.
   */
  lemma NoSelectionIsWholeFile(textLength: int, selectionStart: int, selectionEnd: int,
                               updateOnlyChangedText: bool, vcsRanges: Option<seq<TextRange>>)
    requires textLength >= 1
    requires ClampSelection(DocLength(textLength), selectionStart, selectionEnd).1 <= 0
    requires !updateOnlyChangedText || vcsRanges.None?
    ensures AutoFormatRanges(textLength, selectionStart, selectionEnd, updateOnlyChangedText, vcsRanges) ==
      FileFormatRanges(textLength)
  {
  }

  /** A file that is not tracked, or too big to diff, is formatted as if the setting were off. */
  lemma UntrackedFallsThrough(textLength: int, selectionStart: int, selectionEnd: int,
                              tracked: bool, diff: DiffAnswer)
    requires textLength >= 1
    requires !tracked || diff.TooBigForDiff?
    ensures AutoFormatRanges(textLength, selectionStart, selectionEnd, true, VcsTextRanges(tracked, diff)) ==
      AutoFormatRanges(textLength, selectionStart, selectionEnd, false, None)
  {
  }
}
