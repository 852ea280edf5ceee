/**
 * The text that Core_Pipeline_Files/Utilities/code_exec.py builds around one
 * run of the generated program. The interpreter (`exec`, the stream
 * redirection and `traceback.format_exc`) is an oracle: a `Run` records what
 * the program wrote to stdout and stderr and, when it raised, the exception's
 * type name, message and formatted traceback.
 */
module Executor {
  import opened Base
  import opened Text

  /** An exception that escaped the program: `type(e).__name__`, `str(e)` and the formatted traceback. */
  datatype Fault = Fault(kind: string, message: string, trace: string)

  /** What one execution produced; on a fault, `stdout` is what was written before it. */
  datatype Run = Run(stdout: string, stderr: string, fault: Option<Fault>)

  const ErrorMarker: string := "Error:"
  const ExceptionMarker: string := "Exception:"
  const TracebackMarker: string := "Traceback"

  const NoCodeMessage: string := ErrorMarker + " No code provided to execute"
  const NoOutput: string := "[No output produced]"
  const StderrHeader: string := "STDERR:\n"
  const TracebackLine: string := TracebackMarker + ":"
  const TracebackHeader: string := "\n" + TracebackLine + "\n"

  /** `"\n" + "=" * 80 + "\n"`. */
  const Separator: string := "\n" + "================================================================================" + "\n"

  /** `head`, then the separator only if `head` is not empty, then `tail`. */
  function Joined(head: string, tail: string): string {
    if head == [] then tail else head + Separator + tail
  }

  /** `f"Error: {type(e).__name__}: {str(e)}\n"`. */
  function FaultLine(f: Fault): string {
    "Error: " + f.kind + ": " + f.message + "\n"
  }

  /** The fault line, then `"\nTraceback:\n"`, then the traceback. */
  function FaultReport(f: Fault): string {
    FaultLine(f) + TracebackHeader + f.trace
  }

  /** The text `execute_code_capture_output` returns for `code` when the interpreter behaves as `run`. */
  function CapturedOutput(code: string, run: Run): string {
    if AllSpace(code) then NoCodeMessage
    else match run.fault
      case Some(f) => Joined(run.stdout, FaultReport(f))
      case None =>
        if run.stderr != [] then Joined(run.stdout, StderrHeader + run.stderr)
        else if run.stdout != [] then run.stdout
        else NoOutput
  }

  /** `execute_code_capture_output`: the guard, then the output built up piece by piece. */
  method ExecuteCodeCaptureOutput(code: string, run: Run) returns (output: string)
    ensures output == CapturedOutput(code, run)
  {
    StripEmptyIffBlank(code);
    if code == [] || Strip(code) == [] {
      return NoCodeMessage;
    }
    match run.fault {
      case None =>
        output := run.stdout;
        if run.stderr != [] {
          if output != [] {
            output := output + Separator;
          }
          output := output + StderrHeader + run.stderr;
          assert output == Joined(run.stdout, StderrHeader + run.stderr);
        }
        if output == [] {
          output := NoOutput;
        }
      case Some(f) =>
        output := run.stdout;
        if output != [] {
          output := output + Separator;
        }
        ghost var head := output;
        output := output + "Error: " + f.kind + ": " + f.message + "\n";
        output := output + TracebackHeader;
        output := output + f.trace;
        assert output == head + FaultReport(f);
    }
  }

  /** Blank code is never run: the message is the same whatever the interpreter would do. */
  lemma BlankCodeNotRun(code: string, run: Run, other: Run)
    requires AllSpace(code)
    ensures CapturedOutput(code, run) == NoCodeMessage
    ensures CapturedOutput(code, run) == CapturedOutput(code, other)
  {
  }

  /** The caller always gets some text back. */
  lemma CapturedNonEmpty(code: string, run: Run)
    ensures CapturedOutput(code, run) != []
  {
  }

  /** A clean run with nothing on stderr returns stdout, or the sentinel when stdout is empty. */
  lemma QuietRunOutput(code: string, run: Run)
    requires !AllSpace(code) && run.fault.None? && run.stderr == []
    ensures CapturedOutput(code, run) == if run.stdout == [] then NoOutput else run.stdout
  {
  }

  /** On a clean run with stderr output, the stderr text closes the output after its header. */
  lemma StderrRunOutput(code: string, run: Run)
    requires !AllSpace(code) && run.fault.None? && run.stderr != []
    ensures var out := CapturedOutput(code, run);
      var n := |out| - |StderrHeader + run.stderr|;
      && n >= 0
      && out[n..] == StderrHeader + run.stderr
      && out[..n] == if run.stdout == [] then [] else run.stdout + Separator
  {
    var out := CapturedOutput(code, run);
    if run.stdout != [] {
      assert out == (run.stdout + Separator) + (StderrHeader + run.stderr);
    }
  }

  /** Whatever happened, the captured stdout opens the output of code that was run. */
  lemma StdoutIsPrefix(code: string, run: Run)
    requires !AllSpace(code)
    ensures run.stdout <= CapturedOutput(code, run)
  {
    var out := CapturedOutput(code, run);
    if run.stdout != [] && (run.fault.Some? || run.stderr != []) {
      var tail := if run.fault.Some? then FaultReport(run.fault.value) else StderrHeader + run.stderr;
      assert out == run.stdout + (Separator + tail);
    }
  }

  /** On the exception path the output ends with the error report, and stderr is dropped. */
  lemma FaultOutput(code: string, run: Run, stderr: string)
    requires !AllSpace(code) && run.fault.Some?
    ensures var out := CapturedOutput(code, run);
      var report := FaultReport(run.fault.value);
      |report| <= |out| && out[|out| - |report|..] == report
    ensures CapturedOutput(code, run) == CapturedOutput(code, run.(stderr := stderr))
  {
    var out := CapturedOutput(code, run);
    var report := FaultReport(run.fault.value);
    if run.stdout != [] {
      assert out == (run.stdout + Separator) + report;
    }
  }

  // ---------------------------------------------------------------------
  // execute_code_safe

  /** The markers `execute_code_safe` looks for. */
  const SafeMarkers: seq<string> := [ErrorMarker, ExceptionMarker, TracebackMarker]

  /** `any(indicator in output for indicator in [...])`. */
  predicate HasErrorMarker(output: string) {
    exists m | m in SafeMarkers :: Contains(output, m)
  }

  /** The dictionary `execute_code_safe` returns, without `execution_time`. */
  datatype SafeReport = SafeReport(success: bool, output: string, error: Option<string>)

  /** `execute_code_safe`: run, then flag the output by its markers. */
  method ExecuteCodeSafe(code: string, run: Run) returns (report: SafeReport)
    ensures report.output == CapturedOutput(code, run)
    ensures report.success <==> !HasErrorMarker(report.output)
    ensures report.error == if report.success then None else Some(report.output)
  {
    var output := ExecuteCodeCaptureOutput(code, run);
    var hasError := HasErrorMarker(output);
    report := SafeReport(!hasError, output, if hasError then Some(output) else None);
  }

  /** Blank code is reported as a failure. */
  lemma BlankCodeIsUnsafe(code: string, run: Run)
    requires AllSpace(code)
    ensures HasErrorMarker(CapturedOutput(code, run))
  {
    ContainsMiddle([], ErrorMarker, " No code provided to execute");
    assert [] + ErrorMarker + " No code provided to execute" == NoCodeMessage;
  }

  /** Everything a fault output holds before the `Traceback:` line. */
  function FaultLead(stdout: string, f: Fault): string {
    (if stdout == [] then [] else stdout + Separator) + FaultLine(f)
  }

  /** A fault output has `Traceback:` as a line of its own, before the traceback. */
  lemma FaultOutputShape(code: string, run: Run)
    requires !AllSpace(code) && run.fault.Some?
    ensures CapturedOutput(code, run)
         == FaultLead(run.stdout, run.fault.value) + ['\n'] + TracebackLine + ['\n'] + run.fault.value.trace
  {
    var f := run.fault.value;
    var p := if run.stdout == [] then [] else run.stdout + Separator;
    assert CapturedOutput(code, run) == p + FaultReport(f);
    assert FaultReport(f) == FaultLine(f) + ['\n'] + TracebackLine + ['\n'] + f.trace;
  }

  /** A run that raised is reported as a failure. */
  lemma FaultIsUnsafe(code: string, run: Run)
    requires !AllSpace(code) && run.fault.Some?
    ensures HasErrorMarker(CapturedOutput(code, run))
  {
    var f := run.fault.value;
    ContainsMiddle("\n", TracebackMarker, ":\n");
    assert "\n" + TracebackMarker + ":\n" == TracebackHeader;
    var lead := FaultLine(f);
    ContainsInAppend(lead, TracebackHeader, TracebackMarker);
    ContainsInAppend(lead + TracebackHeader, f.trace, TracebackMarker);
    if run.stdout != [] {
      ContainsInAppend(run.stdout + Separator, FaultReport(f), TracebackMarker);
    }
  }

  // ---------------------------------------------------------------------
  // validate_code_safety

  /** `\bw\b` at `i`, for a word `w` that begins and ends with a word character. */
  predicate WordAt(code: string, w: string, i: nat) {
    && StartsAt(code, w, i, false)
    && (i == 0 || !IsWordChar(code[i - 1]))
    && (i + |w| == |code| || !IsWordChar(code[i + |w|]))
  }

  /** `\bopen\(.*['"]w` at `i`: `.` stops at a newline, so quote and `w` follow on the same line. */
  predicate OpenForWriteAt(code: string, i: nat) {
    && StartsAt(code, "open(", i, false)
    && (i == 0 || !IsWordChar(code[i - 1]))
    && exists k: nat | i + 5 <= k < |code| - 1 ::
      (code[k] == '\'' || code[k] == '"') && code[k + 1] == 'w' && '\n' !in code[i + 5..k]
  }

  /** One entry of the pattern table. */
  datatype Pattern = Word(w: string) | OpenForWrite

  /** `re.search(pattern, code)` succeeds. */
  predicate Matches(code: string, p: Pattern) {
    match p
    case Word(w) => exists i: nat | i <= |code| :: WordAt(code, w, i)
    case OpenForWrite => exists i: nat | i <= |code| :: OpenForWriteAt(code, i)
  }

  /** `dangerous_patterns`, in order, with the warning each one raises. */
  const DangerousPatterns: seq<(Pattern, string)> := [
    (Word("eval"), "Uses eval()"),
    (Word("exec"), "Uses exec()"),
    (Word("__import__"), "Uses __import__()"),
    (Word("os.system"), "Uses os.system()"),
    (Word("subprocess"), "Uses subprocess"),
    (OpenForWrite, "Writes to files"),
    (Word("os.remove"), "Deletes files"),
    (Word("shutil.rmtree"), "Deletes directories")
  ]

  /** The warnings of the patterns in `table` that match, in table order. */
  function Flagged(code: string, table: seq<(Pattern, string)>): seq<string> {
    if table == [] then []
    else (if Matches(code, table[0].0) then [table[0].1] else []) + Flagged(code, table[1..])
  }

  /** The loop of `validate_code_safety` over a pattern table: the warnings of the matching patterns, in order. */
  method ScanPatterns(code: string, table: seq<(Pattern, string)>) returns (warnings: seq<string>)
    ensures warnings == Flagged(code, table)
  {
    warnings := [];
    var n := 0;
    while n < |table|
      invariant 0 <= n <= |table|
      invariant warnings + Flagged(code, table[n..]) == Flagged(code, table)
    {
      var (pattern, warning) := table[n];
      assert table[n..][1..] == table[n + 1..];
      if Matches(code, pattern) {
        warnings := warnings + [warning];
      }
      n := n + 1;
    }
    assert table[n..] == [];
  }

  /** `validate_code_safety`: scan the table, warn for each pattern that matches, never block. */
  method ValidateCodeSafety(code: string) returns (isSafe: bool, warnings: seq<string>)
    ensures isSafe
    ensures warnings == Flagged(code, DangerousPatterns)
  {
    isSafe := true;
    warnings := ScanPatterns(code, DangerousPatterns);
  }

  /** A warning is raised exactly for the table entries whose pattern matches. */
  lemma {:induction false} FlaggedIff(code: string, table: seq<(Pattern, string)>, warning: string)
    ensures warning in Flagged(code, table) <==>
      exists k :: 0 <= k < |table| && table[k].1 == warning && Matches(code, table[k].0)
  {
    if table != [] {
      FlaggedIff(code, table[1..], warning);
      if warning in Flagged(code, table[1..]) {
        var k :| 0 <= k < |table[1..]| && table[1..][k].1 == warning && Matches(code, table[1..][k].0);
        assert table[k + 1] == table[1..][k];
      }
      if exists k :: 0 <= k < |table| && table[k].1 == warning && Matches(code, table[k].0) {
        var k :| 0 <= k < |table| && table[k].1 == warning && Matches(code, table[k].0);
        if k > 0 {
          assert table[1..][k - 1] == table[k];
        }
      }
    }
  }

  /** Each warning comes from a distinct table entry, so none is repeated. */
  lemma {:induction false} FlaggedDistinct(code: string, table: seq<(Pattern, string)>)
    requires forall j, k :: 0 <= j < k < |table| ==> table[j].1 != table[k].1
    ensures forall j, k :: 0 <= j < k < |Flagged(code, table)| ==> Flagged(code, table)[j] != Flagged(code, table)[k]
  {
    if table != [] {
      var rest := table[1..];
      FlaggedDistinct(code, rest);
      forall k | 0 <= k < |Flagged(code, rest)| ensures Flagged(code, rest)[k] != table[0].1 {
        FlaggedIff(code, rest, Flagged(code, rest)[k]);
        var m :| 0 <= m < |rest| && rest[m].1 == Flagged(code, rest)[k] && Matches(code, rest[m].0);
        assert rest[m] == table[m + 1];
      }
    }
  }

  /** `validate_code_safety` never repeats a warning. */
  lemma WarningsDistinct(code: string)
    ensures var w := Flagged(code, DangerousPatterns);
      forall j, k :: 0 <= j < k < |w| ==> w[j] != w[k]
  {
    FlaggedDistinct(code, DangerousPatterns);
  }
}
