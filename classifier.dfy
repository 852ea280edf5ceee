/**
 * The warning-tolerant outcome check of `execute_with_retry`
 * (Core_Pipeline_Files/mainV3.py, lines 100-115): an output fails when it
 * carries an error indicator on some line that is not warning chatter.
 */
module Classifier {
  import opened Base
  import opened Text
  import opened Executor

  /** `error_indicators`: the three markers of `execute_code_safe`, then nine exception names. */
  const ErrorIndicators: seq<string> := SafeMarkers + [
    "NameError", "TypeError", "ValueError", "FileNotFoundError", "ImportError",
    "KeyError", "AttributeError", "SyntaxError", "ModuleNotFoundError"
  ]

  /** `any(indicator in s for indicator in error_indicators)`. */
  predicate HasIndicator(s: string) {
    exists e | e in ErrorIndicators :: Contains(s, e)
  }

  const WarningWord: string := "Warning"
  const FutureWarningWord: string := "Future" + WarningWord

  /** `'Warning' in l or 'FutureWarning' in l`. */
  predicate IsWarningLine(l: string) {
    Contains(l, WarningWord) || Contains(l, FutureWarningWord)
  }

  /** `[l for l in lines if any(e in l for e in error_indicators)]`. */
  function IndicatorLines(lines: seq<string>): seq<string> {
    if lines == [] then []
    else (if HasIndicator(lines[0]) then [lines[0]] else []) + IndicatorLines(lines[1..])
  }

  /** The three outcomes: no indicator at all, indicators only on warning lines, a real failure. */
  datatype Verdict = Clean | WarningOnly | Failure

  /** `has_error` after the warning filter is `Classify(output) == Failure`. */
  function Classify(output: string): Verdict {
    if !HasIndicator(output) then Clean
    else if forall l | l in IndicatorLines(Split(output, '\n')) :: IsWarningLine(l) then WarningOnly
    else Failure
  }

  /** The filter keeps exactly the lines that carry an indicator. */
  lemma {:induction false} IndicatorLinesMember(lines: seq<string>, l: string)
    ensures l in IndicatorLines(lines) <==> l in lines && HasIndicator(l)
  {
    if lines != [] {
      IndicatorLinesMember(lines[1..], l);
      assert lines == [lines[0]] + lines[1..];
    }
  }

  /** An indicator on one line is an indicator in the output. */
  lemma LineIndicator(output: string, l: string)
    requires l in Split(output, '\n') && HasIndicator(l)
    ensures HasIndicator(output)
  {
    var k :| 0 <= k < |Split(output, '\n')| && Split(output, '\n')[k] == l;
    var e :| e in ErrorIndicators && Contains(l, e);
    ContainsInPiece(output, '\n', k, e);
  }

  /** An output fails exactly when one of its lines has an indicator and is not a warning line. */
  lemma FailureIff(output: string)
    ensures Classify(output) == Failure <==>
      exists l :: l in Split(output, '\n') && HasIndicator(l) && !IsWarningLine(l)
  {
    var lines := Split(output, '\n');
    if Classify(output) == Failure {
      var l :| l in IndicatorLines(lines) && !IsWarningLine(l);
      IndicatorLinesMember(lines, l);
    }
    if exists l :: l in lines && HasIndicator(l) && !IsWarningLine(l) {
      var l :| l in lines && HasIndicator(l) && !IsWarningLine(l);
      FailingLine(output, l);
    }
  }

  /** One indicator line that is not a warning line is enough to fail. */
  lemma FailingLine(output: string, l: string)
    requires l in Split(output, '\n') && HasIndicator(l) && !IsWarningLine(l)
    ensures Classify(output) == Failure
  {
    LineIndicator(output, l);
    IndicatorLinesMember(Split(output, '\n'), l);
  }

  /** Output without any indicator never fails. */
  lemma NoIndicatorIsClean(output: string)
    requires forall e | e in ErrorIndicators :: !Contains(output, e)
    ensures Classify(output) == Clean
  {
  }

  /** A line with an indicator and no capital `W` (so no "Warning") makes the output fail. */
  lemma IndicatorLineFails(output: string, l: string, e: string)
    requires l in Split(output, '\n') && e in ErrorIndicators && Contains(l, e) && 'W' !in l
    ensures Classify(output) == Failure
  {
    NotContainsChar(l, WarningWord, 0);
    assert FutureWarningWord[6] == WarningWord[0];
    NotContainsChar(l, FutureWarningWord, 6);
    assert HasIndicator(l);
    FailingLine(output, l);
  }

  /** `Traceback:` has no capital `W` and no line break. */
  lemma TracebackLineChars()
    ensures 'W' !in TracebackLine && '\n' !in TracebackLine
  {
  }

  /** `Traceback:` carries the `Traceback` indicator. */
  lemma TracebackLineMarker()
    ensures Contains(TracebackLine, TracebackMarker)
  {
    ContainsMiddle([], TracebackMarker, ":");
    assert [] + TracebackMarker + ":" == TracebackLine;
  }

  /** The no-code message has no capital `W` and no line break. */
  lemma NoCodeMessageChars()
    ensures 'W' !in NoCodeMessage && '\n' !in NoCodeMessage
  {
  }

  /** The no-code message carries the `Error:` indicator. */
  lemma NoCodeMessageMarker()
    ensures Contains(NoCodeMessage, ErrorMarker)
  {
    ContainsMiddle([], ErrorMarker, " No code provided to execute");
    assert [] + ErrorMarker + " No code provided to execute" == NoCodeMessage;
  }

  /** Every marker of `execute_code_safe` is also an indicator. */
  lemma SafeMarkersAreIndicators()
    ensures forall m | m in SafeMarkers :: m in ErrorIndicators
  {
    forall m | m in SafeMarkers ensures m in ErrorIndicators {
      var k :| 0 <= k < |SafeMarkers| && SafeMarkers[k] == m;
      assert ErrorIndicators[k] == m;
    }
  }

  /** Whatever the program printed, a run that raised is classified as a failure. */
  lemma FaultOutputFails(code: string, run: Run)
    requires !AllSpace(code) && run.fault.Some?
    ensures Classify(CapturedOutput(code, run)) == Failure
  {
    var f := run.fault.value;
    var out := CapturedOutput(code, run);
    FaultOutputShape(code, run);
    TracebackLineChars();
    TracebackLineMarker();
    SafeMarkersAreIndicators();
    assert TracebackMarker in SafeMarkers;
    SplitLineBetween(FaultLead(run.stdout, f), TracebackLine, f.trace, '\n');
    IndicatorLineFails(out, TracebackLine, TracebackMarker);
  }

  /** Blank code, which is never run, is classified as a failure. */
  lemma BlankCodeFails(code: string, run: Run)
    requires AllSpace(code)
    ensures Classify(CapturedOutput(code, run)) == Failure
  {
    NoCodeMessageChars();
    NoCodeMessageMarker();
    SafeMarkersAreIndicators();
    assert ErrorMarker in SafeMarkers;
    SplitNoSep(NoCodeMessage, '\n');
    IndicatorLineFails(NoCodeMessage, NoCodeMessage, ErrorMarker);
  }

  /** Output that passes the indicator check cleanly also passes `execute_code_safe`'s marker check. */
  lemma CleanIsSafe(output: string)
    requires Classify(output) == Clean
    ensures !HasErrorMarker(output)
  {
    SafeMarkersAreIndicators();
  }

  /**
   * The two checks disagree on a line that names an exception without a colon:
   * the classifier fails it, `execute_code_safe` reports success.
   */
  lemma BareExceptionNameDisagrees(l: string, e: string)
    requires e in ErrorIndicators && Contains(l, e)
    requires ':' !in l && 'T' !in l && '\n' !in l && 'W' !in l
    ensures Classify(l) == Failure && !HasErrorMarker(l)
  {
    SplitNoSep(l, '\n');
    IndicatorLineFails(l, l, e);
    assert ErrorMarker[5] == ':' && ExceptionMarker[9] == ':' && TracebackMarker[0] == 'T';
    NotContainsChar(l, ErrorMarker, 5);
    NotContainsChar(l, ExceptionMarker, 9);
    NotContainsChar(l, TracebackMarker, 0);
  }

  /**
   * The two checks disagree on a one-line warning that quotes an error:
   * the classifier tolerates it, `execute_code_safe` reports failure.
   */
  lemma WarningLineDisagrees(l: string)
    requires '\n' !in l && Contains(l, WarningWord) && Contains(l, ErrorMarker)
    ensures Classify(l) == WarningOnly && HasErrorMarker(l)
  {
    SplitNoSep(l, '\n');
    SafeMarkersAreIndicators();
    assert ErrorMarker in SafeMarkers;
    IndicatorLinesMember([l], l);
    forall m | m in IndicatorLines([l]) ensures IsWarningLine(m) {
      IndicatorLinesMember([l], m);
    }
  }
}
