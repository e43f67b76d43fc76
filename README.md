# ClangFormatIJ formatter bridge, modelled in Dafny

This project models the data handling of ClangFormatIJ, the IntelliJ plugin that runs
`clang-format` on the current file and applies what it answers to the editor:

- **Edit applier** (`Replacements`, `Editor`): the parsed `<replacements>` answer is a caret
  offset and a list of replacements `{offset, length, value}` in ascending original offsets.
  `Editor.ApplyReplacements` is the loop of the write command. It applies the list to a
  `Document` one replacement at a time, each at `offset + offsetCorrection`. The running
  correction drops by `length - |value|` after every edit. At the end the loop moves the `Caret`
  to the reported cursor. The loop is proved against `ApplyInOrder`, the same stepwise process as
  a function. `InOrderMatchesSplice` proves that, for an ascending, non-overlapping, in-bounds
  list, every step stays inside the text it edits. It also proves that the result equals
  `SpliceAll`, which keeps the unchanged gaps of the original text and puts each value in at its
  original coordinates, with no drift.
- **Request arithmetic** (`Request`, `Decimal`): the end-of-file off-by-one (`DocLength` is the
  text length minus one), the clamping of caret and selection, and the six-element argument
  vector. `ArgumentsCarryRequest` proves that reading the `-cursor=`, `-offset=` and `-length=`
  flags back gives the request's numbers.
- **Binary lookup** (`BinaryLocator`): the PATH directories split on the separator, then
  `/usr/local/bin`, `$HOME/bin` and `$HOME/.homebrew/bin`. In each directory `clang-format` is
  tried before `clang-format.exe`. The first file that exists wins; otherwise the answer is the
  bare `clang-format`.
- **Outcome gate** (`OutcomeGate`): the supervising task's checks in their order. A write
  timeout comes first, then a wait timeout, then a nonzero exit code. Only then is the parsed
  output read and applied. An error leaves the document and the caret as they were.
- **Range selection** (`FormatRanges`): the auto action chooses between the selection, the
  ranges changed against version control and the whole file. The file action always gives the
  whole file.

The environment enters as parameters. PATH and HOME are string arguments, the path-list
separator is a character, and a file's existence is the predicate `fileExists`. Resolving a
child name against a directory is the function `resolve`. The version-control answer is an
`Option<seq<TextRange>>` value. The results of the process and of its reader and writer tasks
are the fields of a `ProcessOutcome`.

## Model

| member | source | states |
|---|---|---|
| `Replacements.InOrderMatchesSplice` | src/io/probst/idea/clangformat/ClangFormatAction.java:121-128 | for ascending, non-overlapping, in-bounds replacements, no drift-shifted `[actualStart, actualEnd)` falls outside the current text, and the final text equals splicing every value at its original coordinates |
| `Replacements.ApplyInOrder` | src/io/probst/idea/clangformat/ClangFormatAction.java:121-127 | applying the replacements one by one, each at its offset plus the drift so far, yields a text exactly `Drift` longer than the original whenever no step falls outside the text |
| `Replacements.DriftSign` | src/io/probst/idea/clangformat/ClangFormatAction.java:122-127 | the running correction `offsetCorrection` (`Drift`, the sum of `|value| - length`) stays 0 when every value is as long as what it replaces, is never positive when no value is longer, and never negative when no value is shorter |
| `Replacements.ApplicablePrefix` | src/io/probst/idea/clangformat/ClangFormatAction.java:123-126 | if every step of a whole list stays in bounds, so does every step of each prefix of it |
| `Replacements.RewrittenLength` | src/io/probst/idea/clangformat/ClangFormatAction.java:124-127 | after the replacements up to a point, the rewritten text is as long as the original text it covers plus the drift so far |
| `Replacements.ApplyNext` | src/io/probst/idea/clangformat/ClangFormatAction.java:123-127 | step `i` of an applicable list puts replacement `i` at its offset plus the drift of the `i` before it, inside the text they left, and adds its own `|value| - length` to the drift |
| `Editor.ApplyReplacements` | src/io/probst/idea/clangformat/ClangFormatAction.java:120-130 | applies each replacement at `offset + offsetCorrection`, where the correction is the drift of the earlier ones; the text becomes `ApplyInOrder` of the old text, its length changes by the total drift, equals `SpliceAll` for well-formed lists and is unchanged for an empty list; the caret ends exactly at the reported cursor |
| `Editor.Document.ReplaceString` | src/io/probst/idea/clangformat/ClangFormatAction.java:126 | replaces the in-bounds range `[start, end)` of the text by the value |
| `Editor.Caret.MoveToOffset` | src/io/probst/idea/clangformat/ClangFormatAction.java:129 | the caret ends at the given offset, with no correction |
| `Request.ClampOffset` | src/io/probst/idea/clangformat/ClangFormatAction.java:71 | the cursor is the caret offset when it is within `textLength - 1`, and `textLength - 1` otherwise |
| `Request.ClampSelection` | src/io/probst/idea/clangformat/ClangFormatAction.java:72-74 | the clamped selection starts and ends at or before `docLength`, keeps a non-negative length no larger than the original one, is the original selection when that lies within `docLength`, and is empty at `docLength` when it lies wholly beyond |
| `Request.ClampRequest` | src/io/probst/idea/clangformat/ClangFormatAction.java:68-74 | cursor and selection are clamped against `docLength = textLength - 1`: `cursor = min(caret, docLength)`, `selectionStart <= docLength`, `selectionStart + selectionLength = min(selectionEnd, docLength)` |
| `Request.Arguments` | src/io/probst/idea/clangformat/ClangFormatAction.java:79-86 | the argument vector has exactly six elements, the binary first and `-output-replacements-xml` second |
| `Request.ArgumentsCarryRequest` | src/io/probst/idea/clangformat/ClangFormatAction.java:83-86 | the file name follows `-assume-filename=` verbatim, and the cursor, offset and length flags read back as the request's numbers |
| `Decimal.IntToString` | src/io/probst/idea/clangformat/ClangFormatAction.java:84-86 | an int is written as a minus sign exactly when it is negative, then at least one decimal digit with no leading zero |
| `Decimal.IntRoundTrip` | src/io/probst/idea/clangformat/ClangFormatAction.java:84-86 | the decimal text that string concatenation writes for an int reads back as that int |
| `BinaryLocator.Split` | src/io/probst/idea/clangformat/ClangFormatAction.java:143 | PATH splits into exactly one more piece than it has separators, so empty pieces are kept |
| `BinaryLocator.SplitPiecesFree` | src/io/probst/idea/clangformat/ClangFormatAction.java:143 | no PATH entry produced by the split contains the separator |
| `BinaryLocator.JoinSplit` | src/io/probst/idea/clangformat/ClangFormatAction.java:143 | joining the split PATH entries with the separator gives PATH back, empty entries included |
| `BinaryLocator.SplitJoin` | src/io/probst/idea/clangformat/ClangFormatAction.java:143 | entries free of the separator are recovered exactly by splitting their join |
| `BinaryLocator.SearchDirectories` | src/io/probst/idea/clangformat/ClangFormatAction.java:143-152 | the PATH entries come first and in order, followed by `/usr/local/bin`, `$HOME/bin` and `$HOME/.homebrew/bin` |
| `BinaryLocator.Candidates` | src/io/probst/idea/clangformat/ClangFormatAction.java:154-155 | every directory contributes exactly two candidates |
| `BinaryLocator.CandidateAt` | src/io/probst/idea/clangformat/ClangFormatAction.java:154-155 | candidate `2k + n` is name `n` of directory `k`: directories in order, `clang-format` before `clang-format.exe` in each |
| `BinaryLocator.FindFirst` | src/io/probst/idea/clangformat/ClangFormatAction.java:156-158 | the result is absent exactly when no candidate exists; otherwise it is an existing candidate with none existing before it |
| `BinaryLocator.FindClangFormat` | src/io/probst/idea/clangformat/ClangFormatAction.java:139-161 | the answer is either the bare name `clang-format` or a file that exists |
| `BinaryLocator.FindClangFormatFirstHit` | src/io/probst/idea/clangformat/ClangFormatAction.java:139-161 | with no existing file the answer is `clang-format`; otherwise it is an existing name in some directory, and no earlier directory, and no earlier name in that directory, has one |
| `OutcomeGate.Decide` | src/io/probst/idea/clangformat/ClangFormatAction.java:101-134 | replacements are applied if and only if the input was written in time, the process ended in time, its exit code is 0 and its output parsed; a write timeout is reported exactly when the write timed out; a failed write task is reported with its message; a wait timeout is reported exactly after a successful write and a late process; a nonzero exit carries its code and stderr, or the stderr reader's failure message; after exit 0 a failed parse is reported with its message |
| `OutcomeGate.ParseIgnoredOnFailure` | src/io/probst/idea/clangformat/ClangFormatAction.java:114-119 | after a write failure, a wait timeout or a nonzero exit, the parsed output makes no difference |
| `OutcomeGate.ErrorMessage` | src/io/probst/idea/clangformat/ClangFormatAction.java:104-134 | the two timeouts give their fixed texts; a nonzero exit reads as "clang-format failed with exit code ", a numeral that reads back as the code, ", error: " and then stderr verbatim; a failed task reports its cause's message |
| `OutcomeGate.ExitReport` | src/io/probst/idea/clangformat/ClangFormatAction.java:115-116 | the exit report is laid out as prefix, the code in decimal, the separator and stderr, so both the code and stderr can be read back from it |
| `OutcomeGate.FinishFormatting` | src/io/probst/idea/clangformat/ClangFormatAction.java:101-130 | on any error the document and caret are untouched and the error message is returned; otherwise the parsed replacements are applied and the caret moves to the parsed cursor |
| `FormatRanges.VcsTextRanges` | src/io/probst/idea/clangformat/ClangFormatAutoAction.java:23-44 | no ranges (null) exactly for an untracked file or a file too big to diff; the empty list for a tracked file without change information; the changed ranges otherwise |
| `FormatRanges.AutoFormatRanges` | src/io/probst/idea/clangformat/ClangFormatAutoAction.java:47-79 | unless the version-control answer is used, the result is exactly one range, and when `0 <= selectionStart` it lies inside `[0, textLength - 1]` |
| `FormatRanges.SelectionWins` | src/io/probst/idea/clangformat/ClangFormatAutoAction.java:56-61 | with a non-empty clamped selection the result is exactly `[selectionStart, min(selectionEnd, textLength - 1))` with the start clamped, whatever the setting and the version-control answer |
| `FormatRanges.VcsRangesVerbatim` | src/io/probst/idea/clangformat/ClangFormatAutoAction.java:61-71 | with no selection and the setting on, a version-control answer is returned verbatim, the empty list included |
| `FormatRanges.NoSelectionIsWholeFile` | src/io/probst/idea/clangformat/ClangFormatAutoAction.java:74-75 | with no selection and no version-control answer in use, the result is the file action's whole-file range |
| `FormatRanges.UntrackedFallsThrough` | src/io/probst/idea/clangformat/ClangFormatAutoAction.java:39-43 | an untracked file, or one too big to diff, is handled as if the setting were off |
| `FormatRanges.WholeFile` | src/io/probst/idea/clangformat/ClangFormatFileAction.java:18-22 | the whole-file range starts at 0 and ends at `textLength - 1` |
| `FormatRanges.FileFormatRanges` | src/io/probst/idea/clangformat/ClangFormatFileAction.java:17-23 | exactly one range, starting at 0 and ending at `textLength - 1`, from the text length alone |

## Left out

- Process launch, the executor and its futures, the 5-second timeouts, `waitFor` and `destroyForcibly` (ClangFormatAction.java:77-136) are concurrency and I/O. Their answers are the fields of `ProcessOutcome`; `OutcomeGate.Verdict.WaitTimeout` stands for "the process was destroyed".
- A failure to start the process (ClangFormatAction.java:88-92) is an I/O error before any outcome exists; it is not modelled.
- `InterruptedException` while waiting (ClangFormatAction.java:131-132) is thread interruption and is not modelled.
- Stream helpers `writeFileContents` and `readInput` (ClangFormatAction.java:163-182) are I/O. Their results are the `write` and `stderr` fields.
- XML parsing by JAXB (ClangFormatAction.java:190-209) is a foreign library, and entity decoding happens inside it. The model takes an already-parsed `ReplacementSet`, with an empty sequence when there is no `replacement` element. Whether JAXB gives an empty list or null in that case is not modelled.
- The host: `update` (51-56), notifications (184-188), the write-command wrapper, and the PsiManager and FormatChangedTextUtil queries in `getVcsTextRanges` (ClangFormatAutoAction.java:24-31). The queries become the inputs `tracked` and `DiffAnswer`.
- `Editor.ApplyReplacements` requires that every step stays inside the text (`Applicable`: `ApplyInOrder` is not None). The host's `replaceString` refuses any other edit, and the model does not follow what the host then does. `InOrderMatchesSplice` shows that well-formed lists from the formatter always meet the requirement.
- `BinaryLocator.FindClangFormat`: `System.getenv`, `File.exists` and java.nio path handling become the parameters `path`, `home`, `fileExists` and `resolve`. A missing PATH or HOME variable, for which the source would throw, is not modelled.
- Java's 32-bit `int` is modelled as an unbounded integer. Offsets, lengths and the running correction would only wrap for texts of about 2^31 characters.
- Replacements.Delta: counts Unicode scalar values (one Dafny `char` each), not the UTF-16 chars of Java's `String.length()`, nor the UTF-8 bytes clang-format counts (the source passes those for editor offsets unconverted). `Delta`, `Drift`, the offsets and the clamping therefore agree with the source only for text inside the Basic Multilingual Plane, where one scalar value is one UTF-16 char; a character such as U+1F600 is one unit in the model and two in `String.length()`.
- `FormatRanges.AutoFormatRanges` takes the version-control answer as a value. The source asks for it only when nothing is selected and the setting is on, and the model does not capture whether the question is asked.
- `Settings.java` (persistence) and `ClangFormatConfigurable.java` (settings UI) are not part of this model; the setting `updateOnlyChangedText` is a parameter.
- An empty document, where `textLength - 1` is -1, is excluded from range selection by `textLength >= 1`.
