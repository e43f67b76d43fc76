/**
 * What ClangFormatAction.actionPerformed sends to clang-format: the caret and the selection
 * clamped to the document, and the six-element argument vector.
 */
module Request {
  import opened Wrappers
  import opened Decimal

  /**
   * The host reports a caret at the end of the file as one past the text length, which
   * clang-format refuses; every offset is therefore clamped to the text length minus one.
   */
  function DocLength(textLength: int): int
  {
    textLength - 1
  }

  /** Math.min(offset, docLength): `offset` when it is in range, `docLength` otherwise. */
  function ClampOffset(offset: int, docLength: int): (r: int)
    ensures r <= docLength && r <= offset
    ensures r == offset || r == docLength
  {
    if offset <= docLength then offset else docLength
  }

  /** The cursor and the range handed to clang-format. */
  datatype FormatRequest = FormatRequest(cursor: int, selectionStart: int, selectionLength: int)

  /** The selection `[selectionStart, selectionEnd)` clamped to the document, as start and length. */
  function ClampSelection(docLength: int, selectionStart: int, selectionEnd: int): (r: (int, int))
    ensures r.0 == ClampOffset(selectionStart, docLength) && r.0 + r.1 == ClampOffset(selectionEnd, docLength)
    ensures r.0 <= docLength && r.0 + r.1 <= docLength
    ensures selectionStart <= selectionEnd ==> 0 <= r.1 <= selectionEnd - selectionStart
    ensures selectionStart <= docLength && selectionEnd <= docLength ==>
              r == (selectionStart, selectionEnd - selectionStart)
    ensures docLength <= selectionStart <= selectionEnd ==> r == (docLength, 0)
  {
    var start := ClampOffset(selectionStart, docLength);
    (start, ClampOffset(selectionEnd, docLength) - start)
  }

  /** The request for a document of `textLength` chars with the given caret and selection. */
  function ClampRequest(textLength: int, caretOffset: int, selectionStart: int, selectionEnd: int)
    : (r: FormatRequest)
    ensures r.cursor <= DocLength(textLength) && r.selectionStart <= DocLength(textLength)
    ensures r.selectionStart + r.selectionLength <= DocLength(textLength)
    ensures caretOffset <= DocLength(textLength) ==> r.cursor == caretOffset
    ensures caretOffset > DocLength(textLength) ==> r.cursor == DocLength(textLength)
    ensures (r.selectionStart, r.selectionLength) ==
            ClampSelection(DocLength(textLength), selectionStart, selectionEnd)
  {
    var docLength := DocLength(textLength);
    var (start, length) := ClampSelection(docLength, selectionStart, selectionEnd);
    FormatRequest(ClampOffset(caretOffset, docLength), start, length)
  }

  const OutputReplacementsXml := "-output-replacements-xml"
  const AssumeFilenameFlag := "-assume-filename="
  const CursorFlag := "-cursor="
  const OffsetFlag := "-offset="
  const LengthFlag := "-length="

  /** The command line: the binary, XML output, the file name for style lookup, cursor and range. */
  function Arguments(binary: string, filePath: string, request: FormatRequest): (args: seq<string>)
    ensures |args| == 6 && args[0] == binary && args[1] == OutputReplacementsXml
  {
    [binary,
     OutputReplacementsXml,
     AssumeFilenameFlag + filePath,
     CursorFlag + IntToString(request.cursor),
     OffsetFlag + IntToString(request.selectionStart),
     LengthFlag + IntToString(request.selectionLength)]
  }

  /** The value of `arg` when it has the form `flag` followed by a decimal numeral. */
  function IntFlag(flag: string, arg: string): (r: Option<int>)
    ensures r.Some? ==> |flag| < |arg| && arg[..|flag|] == flag
  {
    if |flag| <= |arg| && arg[..|flag|] == flag then ParseInt(arg[|flag|..]) else None
  }

  /**
   * The argument vector carries the request faithfully: reading the cursor, offset and length
   * flags back gives the request's numbers, and the file name follows its flag verbatim.
   */
  lemma ArgumentsCarryRequest(binary: string, filePath: string, request: FormatRequest)
    ensures var args := Arguments(binary, filePath, request);
      args[2][..|AssumeFilenameFlag|] == AssumeFilenameFlag &&
      args[2][|AssumeFilenameFlag|..] == filePath &&
      IntFlag(CursorFlag, args[3]) == Some(request.cursor) &&
      IntFlag(OffsetFlag, args[4]) == Some(request.selectionStart) &&
      IntFlag(LengthFlag, args[5]) == Some(request.selectionLength)
  {
    var args := Arguments(binary, filePath, request);
    assert args[3][|CursorFlag|..] == IntToString(request.cursor);
    assert args[4][|OffsetFlag|..] == IntToString(request.selectionStart);
    assert args[5][|LengthFlag|..] == IntToString(request.selectionLength);
    IntRoundTrip(request.cursor);
    IntRoundTrip(request.selectionStart);
    IntRoundTrip(request.selectionLength);
  }
}
