/**
 * The supervising task of ClangFormatAction.actionPerformed: what the formatter run produced is
 * checked in a fixed order (the input was written in time, the process ended in time, it exited
 * with 0, its output parsed), and only when every check passes are the replacements applied.
 * The futures and the process are not modelled; their answers are the fields of an outcome.
 */
module OutcomeGate {
  import opened Wrappers
  import opened Decimal
  import opened Replacements
  import opened Editor

  /** outWritten.get(5 s): done, timed out, or the writer task threw. */
  datatype WriteStatus = Written | WriteTimedOut | WriteFailed(message: string)

  /** Future.get() of a task that ran to the end: its value, or the message of what it threw. */
  datatype Completion<T> = Completed(value: T) | Threw(message: string)

  /** What the run produced, as the supervising task can observe it. */
  datatype ProcessOutcome = ProcessOutcome(
    write: WriteStatus,                  // writing the document to clang-format's input
    exitedInTime: bool,                  // formatter.waitFor(5 s)
    exitCode: int,                       // formatter.exitValue(), read only when exitedInTime
    stderr: Completion<string>,          // the task reading the error stream
    parsed: Completion<ReplacementSet>)  // the task parsing the output stream

  /** The decision: one error that is reported, or the replacements to apply. */
  datatype Verdict =
    | WriteTimeout
    | WaitTimeout                          // the process is destroyed forcibly
    | NonzeroExit(exitCode: int, stderr: string)
    | TaskFailed(message: string)          // a task threw: its cause's message is reported
    | Apply(replacements: ReplacementSet)

  /**
   * The checks in the order the supervising task makes them. A later check never overrides an
   * earlier one, and the parsed output is looked at only after a zero exit code.
   */
  function Decide(o: ProcessOutcome): (v: Verdict)
    ensures v.Apply? <==>
      o.write.Written? && o.exitedInTime && o.exitCode == 0 && o.parsed.Completed?
    ensures v.Apply? ==> v.replacements == o.parsed.value
    ensures v.WriteTimeout? <==> o.write.WriteTimedOut?
    ensures o.write.WriteFailed? ==> v == TaskFailed(o.write.message)
    ensures o.write.Written? && o.exitedInTime && o.exitCode != 0 && o.stderr.Threw? ==>
      v == TaskFailed(o.stderr.message)
    ensures o.write.Written? && o.exitedInTime && o.exitCode == 0 && o.parsed.Threw? ==>
      v == TaskFailed(o.parsed.message)
    ensures v.WaitTimeout? <==> o.write.Written? && !o.exitedInTime
    ensures v.NonzeroExit? <==>
      o.write.Written? && o.exitedInTime && o.exitCode != 0 && o.stderr.Completed?
    ensures v.NonzeroExit? ==> v.exitCode == o.exitCode && v.stderr == o.stderr.value
  {
    match o.write
    case WriteTimedOut => WriteTimeout
    case WriteFailed(message) => TaskFailed(message)
    case Written =>
      if !o.exitedInTime then WaitTimeout
      else if o.exitCode != 0 then
        match o.stderr
        case Completed(text) => NonzeroExit(o.exitCode, text)
        case Threw(message) => TaskFailed(message)
      else
        match o.parsed
        case Completed(replacements) => Apply(replacements)
        case Threw(message) => TaskFailed(message)
  }

  /** Once the process has failed, what its output parses to makes no difference. */
  lemma ParseIgnoredOnFailure(o: ProcessOutcome, parsed: Completion<ReplacementSet>)
    requires !(o.write.Written? && o.exitedInTime && o.exitCode == 0)
    ensures Decide(o.(parsed := parsed)) == Decide(o)
  {
  }

  const WriteTimeoutMessage := "timed out writing source file to clang-format"
  const WaitTimeoutMessage := "timed out waiting for clang-format to finish"
  const ExitCodePrefix := "clang-format failed with exit code "
  const StderrSeparator := ", error: "

  /**
   * The notification shown for each error. A nonzero exit is reported as the prefix, the exit
   * code in decimal, the separator and then stderr verbatim.
   */
  function ErrorMessage(v: Verdict): (m: string)
    requires !v.Apply?
    ensures v.WriteTimeout? ==> m == WriteTimeoutMessage
    ensures v.WaitTimeout? ==> m == WaitTimeoutMessage
    ensures v.NonzeroExit? ==> ReportsExit(m, v.exitCode, v.stderr)
    ensures v.TaskFailed? ==> m == v.message
  {
    match v
    case WriteTimeout => WriteTimeoutMessage
    case WaitTimeout => WaitTimeoutMessage
    case NonzeroExit(code, stderr) =>
      ExitReport(code, stderr)
    case TaskFailed(message) => message
  }

  /**
   * `m` reads as the exit-code prefix, a numeral for `code`, the separator and then `stderr`
   * verbatim, so both the code and the error text can be recovered from the notification.
   */
  predicate ReportsExit(m: string, code: int, stderr: string)
  {
    var codeEnd := |m| - |stderr| - |StderrSeparator|;
    |ExitCodePrefix| < codeEnd &&
    m[..|ExitCodePrefix|] == ExitCodePrefix &&
    ParseInt(m[|ExitCodePrefix|..codeEnd]) == Some(code) &&
    m[codeEnd..|m| - |stderr|] == StderrSeparator &&
    m[|m| - |stderr|..] == stderr
  }

  /** "clang-format failed with exit code " + code + ", error: " + stderr, laid out piece by piece. */
  function ExitReport(code: int, stderr: string): (m: string)
    ensures ReportsExit(m, code, stderr)
  {
    var digits := IntToString(code);
    var m := ExitCodePrefix + digits + StderrSeparator + stderr;
    var codeEnd := |m| - |stderr| - |StderrSeparator|;
    assert m[..|ExitCodePrefix|] == ExitCodePrefix;
    assert m[|ExitCodePrefix|..codeEnd] == digits;
    IntRoundTrip(code);
    assert m[codeEnd..|m| - |stderr|] == StderrSeparator;
    assert m[|m| - |stderr|..] == stderr;
    m
  }

  /**
   * Runs the checks and either reports the error, leaving the editor alone, or applies every
   * replacement and moves the caret to the reported cursor.
   */
  method FinishFormatting(document: Document, caret: Caret, o: ProcessOutcome) returns (error: Option<string>)
    requires Decide(o).Apply? ==> Applicable(document.text, Decide(o).replacements.replacements)
    modifies document, caret
    ensures error.None? <==> Decide(o).Apply?
    ensures error.Some? ==> error.value == ErrorMessage(Decide(o))
    ensures error.Some? ==> document.text == old(document.text) && caret.offset == old(caret.offset)
    ensures error.None? ==>
      ApplyInOrder(old(document.text), o.parsed.value.replacements) == Some(document.text) &&
      caret.offset == o.parsed.value.cursor
  {
    var verdict := Decide(o);
    if verdict.Apply? {
      ApplyReplacements(document, caret, verdict.replacements);
      error := None;
    } else {
      error := Some(ErrorMessage(verdict));
    }
  }
}
