/**
 * `execute_with_retry` (Core_Pipeline_Files/mainV3.py, lines 24-147): a
 * bounded loop of generate, extract, repair, execute and classify. The
 * model client and the interpreter are oracles: `chat(k, prompt)` is what
 * `client.chat(prompt)` does on attempt `k`, `exec(k, code)` is how the
 * interpreter behaves when it runs `code` on attempt `k`.
 */
module Retry {
  import opened Base
  import opened Text
  import opened Extractor
  import opened Executor
  import opened Classifier
  import opened AutoFix

  /** `client.chat(prompt)` returned a reply, or raised an exception whose `str` is `message`. */
  datatype ChatReply = Reply(text: string) | ChatRaised(message: string)

  /** The fixed inputs of one call. */
  datatype Setup = Setup(
    initialPrompt: string,
    maxRetries: int,
    target: string,
    chat: (nat, string) -> ChatReply,
    exec: (nat, string) -> Run)

  /** An exception that escapes the function. */
  datatype Escape =
    | UnboundCode      // line 147 reads `code` when the loop never ran
    | SplitIndexError  // line 85 indexes a one-piece split

  /** The tuple `(success, code, output)`, or an escaping exception. */
  datatype Outcome = Returned(success: bool, code: string, output: string) | Raised(escape: Escape)

  /** What one attempt came to. */
  datatype Step =
    | ChatFailed(message: string)
    | NoCode
    | Passed(code: string, output: string)
    | Failed(code: string, output: string)
    | FixRaised

  /**
   * Which text `prompt` holds: the task itself, the request for a code block
   * (lines 65-71), or the request to fix a failed run (lines 125-143).
   */
  datatype Prompt = Task | Corrective | Fix(output: string, code: string)

  /** One call of `client.chat`: the prompt it was given and what the attempt came to. */
  datatype Entry = Entry(prompt: Prompt, step: Step)

  const NoCodeGenerated: string := "No code generated"

  const CorrectiveHead: string :=
    "Previous response didn't contain valid Python code.\n\n"
    + "Please provide ONLY a Python code block with ```python markers.\n\nOriginal task:\n"

  /** The prompt after a reply without code (lines 65-71). */
  function CorrectivePrompt(initialPrompt: string): string {
    CorrectiveHead + initialPrompt + "\n"
  }

  const FixHead: string := "The previous code failed with this error:\n\nERROR OUTPUT:\n"
  const FixMiddle: string := "\n\nPREVIOUS CODE:\n```python\n"
  const FixTail: string :=
    "\n```\n\nANALYZE AND FIX:\n- What caused the error?\n- Missing imports or wrong methods?\n"
    + "- File path issues?\n- Logic errors?\n\nGenerate CORRECTED Python code that fixes these issues.\n"
    + "Return ONLY the Python code block.\n"

  /** The prompt after a failed run (lines 125-143). */
  function FixPrompt(output: string, code: string): string {
    FixHead + output + FixMiddle + code + FixTail
  }

  /** The text the prompt stands for, as sent to `client.chat`. */
  function PromptText(p: Prompt, initialPrompt: string): string {
    match p
    case Task => initialPrompt
    case Corrective => CorrectivePrompt(initialPrompt)
    case Fix(output, code) => FixPrompt(output, code)
  }

  /** Attempt `k` with `prompt`: chat, extract, repair, execute, classify (lines 45-115). */
  function Attempt(s: Setup, k: nat, prompt: Prompt): Step {
    match s.chat(k, PromptText(prompt, s.initialPrompt))
    case ChatRaised(e) => ChatFailed(e)
    case Reply(text) =>
      var code := ExtractPythonCode(text);
      if code == [] then NoCode
      else match AddMissingCall(code, s.target)
        case Err(_) => FixRaised
        case Ok(fixed) =>
          var output := CapturedOutput(fixed, s.exec(k, fixed));
          if Classify(output) == Failure then Failed(fixed, output) else Passed(fixed, output)
  }

  /** The steps after which the loop goes on when attempts remain. */
  predicate Retryable(st: Step) {
    st.ChatFailed? || st.NoCode? || st.Failed?
  }

  /** The prompt of the next attempt. */
  function NextPrompt(st: Step, prompt: Prompt): Prompt {
    match st
    case NoCode => Corrective
    case Failed(code, output) => Fix(output, code)
    case _ => prompt
  }

  /** Attempt `k` with a given prompt, as a function value. */
  function Attempts(s: Setup): (nat, Prompt) -> Step {
    (k: nat, prompt: Prompt) => Attempt(s, k, prompt)
  }

  /**
   * The attempts made so far, `done`, followed by those made from attempt `k`
   * on, when attempt `k` is given `prompt` and each attempt behaves as `attempt`.
   */
  function Trace(attempt: (nat, Prompt) -> Step, maxRetries: int, done: seq<Entry>, k: nat, prompt: Prompt): seq<Entry>
    decreases maxRetries - k
  {
    if k >= maxRetries then done
    else
      var st := attempt(k, prompt);
      var t := done + [Entry(prompt, st)];
      if Retryable(st) && k + 1 < maxRetries
      then Trace(attempt, maxRetries, t, k + 1, NextPrompt(st, prompt))
      else t
  }

  /** The attempts `execute_with_retry` makes. */
  function Attempted(s: Setup): seq<Entry> {
    Trace(Attempts(s), s.maxRetries, [], 0, Task)
  }

  /** What the function returns or raises, read off the last attempt of `t`. */
  function OutcomeFrom(t: seq<Entry>): Outcome {
    if t == [] then Raised(UnboundCode)
    else match t[|t| - 1].step
      case ChatFailed(e) => Returned(false, "", e)
      case NoCode => Returned(false, "", NoCodeGenerated)
      case Passed(code, output) => Returned(true, code, output)
      case Failed(code, output) => Returned(false, code, output)
      case FixRaised => Raised(SplitIndexError)
  }

  /** What `execute_with_retry` returns or raises. */
  function OutcomeOf(s: Setup): Outcome {
    OutcomeFrom(Attempted(s))
  }

  /**
   * The loop of lines 37-147, for attempts that behave as `attempt`; `trace`
   * records each call of `client.chat`.
   */
  method RetryLoop(attempt: (nat, Prompt) -> Step, maxRetries: int) returns (outcome: Outcome, ghost trace: seq<Entry>)
    ensures trace == Trace(attempt, maxRetries, [], 0, Task)
    ensures outcome == OutcomeFrom(trace)
  {
    var prompt := Task;
    var code: Option<string> := None;
    var output: Option<string> := None;
    trace := [];
    var k: nat := 0;
    while k < maxRetries
      invariant |trace| == k
      invariant k == 0 ==> code.None? && output.None?
      invariant Trace(attempt, maxRetries, trace, k, prompt) == Trace(attempt, maxRetries, [], 0, Task)
      invariant k > 0 ==> Carried(trace[k - 1].step, code, output)
      invariant k > 0 && !trace[k - 1].step.Failed? ==> k < maxRetries
      decreases maxRetries - k
    {
      var last := k == maxRetries - 1;
      var st := attempt(k, prompt);
      trace := trace + [Entry(prompt, st)];
      assert trace[|trace| - 1].step == st;
      if st.Passed? {
        return Returned(true, st.code, st.output), trace;
      } else if st.FixRaised? {
        return Raised(SplitIndexError), trace;
      } else if st.ChatFailed? {
        if last {
          return Returned(false, "", st.message), trace;
        }
      } else if st.NoCode? {
        code := Some("");
        if last {
          return Returned(false, "", NoCodeGenerated), trace;
        }
        prompt := Corrective;
      } else {
        code, output := Some(st.code), Some(st.output);
        if !last {
          prompt := Fix(st.output, st.code);
        }
      }
      k := k + 1;
    }
    if code.None? || output.None? {
      outcome := Raised(UnboundCode);
    } else {
      outcome := Returned(false, code.value, output.value);
    }
  }

  /** `execute_with_retry` (lines 24-147): the loop over the attempts of `s`. */
  method ExecuteWithRetry(s: Setup) returns (outcome: Outcome, ghost trace: seq<Entry>)
    ensures trace == Attempted(s)
    ensures outcome == OutcomeOf(s)
  {
    outcome, trace := RetryLoop(Attempts(s), s.maxRetries);
  }

  /** After a failed run, Python's `code` and `output` hold that run's code and output. */
  predicate Carried(st: Step, code: Option<string>, output: Option<string>) {
    st.Failed? ==> code == Some(st.code) && output == Some(st.output)
  }

  /**
   * `t` is a record of attempts chained as the loop chains them: entry `i`
   * is what attempt `i` did with its prompt, and every entry but the last
   * was retryable and handed its next prompt to the following one.
   */
  ghost predicate Chained(attempt: (nat, Prompt) -> Step, t: seq<Entry>) {
    (forall i: nat | i < |t| :: t[i].step == attempt(i, t[i].prompt))
    && (forall i: nat | i + 1 < |t| :: Retryable(t[i].step) && t[i + 1].prompt == NextPrompt(t[i].step, t[i].prompt))
  }

  /**
   * A complete run of the loop: it starts from the task, is chained, has one
   * entry per call and at most `maxRetries` of them, is empty exactly when
   * the loop body never runs, and stops at a step that is not retryable or
   * when the attempts are used up.
   */
  ghost predicate IsRun(attempt: (nat, Prompt) -> Step, maxRetries: int, t: seq<Entry>) {
    Chained(attempt, t)
    && (t == [] <==> maxRetries <= 0)
    && (t != [] ==> t[0].prompt == Task)
    && |t| <= (if maxRetries < 0 then 0 else maxRetries)
    && (t != [] ==> !Retryable(t[|t| - 1].step) || |t| == maxRetries)
  }

  /** A chained record grows by one attempt, when its last step was retryable and handed on `prompt`. */
  lemma ChainedExtend(attempt: (nat, Prompt) -> Step, done: seq<Entry>, prompt: Prompt)
    requires Chained(attempt, done)
    requires done != [] ==> (Retryable(done[|done| - 1].step)
      && prompt == NextPrompt(done[|done| - 1].step, done[|done| - 1].prompt))
    ensures Chained(attempt, done + [Entry(prompt, attempt(|done|, prompt))])
  {
    var t := done + [Entry(prompt, attempt(|done|, prompt))];
    forall i: nat | i + 1 < |t|
      ensures Retryable(t[i].step) && t[i + 1].prompt == NextPrompt(t[i].step, t[i].prompt)
    {
      assert t[i] == done[i];
    }
    forall i: nat | i < |t|
      ensures t[i].step == attempt(i, t[i].prompt)
    {
      if i < |done| {
        assert t[i] == done[i];
      }
    }
  }

  /** `Trace` keeps what was done and adds one entry per attempt, at most up to `maxRetries`. */
  lemma {:induction false} TraceLength(attempt: (nat, Prompt) -> Step, maxRetries: int, done: seq<Entry>, k: nat, prompt: Prompt)
    requires |done| == k
    ensures var r := Trace(attempt, maxRetries, done, k, prompt);
      done <= r
      && (k < maxRetries ==> k < |r| <= maxRetries && r[k].prompt == prompt)
      && (k >= maxRetries ==> r == done)
    decreases maxRetries - k
  {
    if k < maxRetries {
      var st := attempt(k, prompt);
      var t := done + [Entry(prompt, st)];
      if Retryable(st) && k + 1 < maxRetries {
        TraceLength(attempt, maxRetries, t, k + 1, NextPrompt(st, prompt));
        var r := Trace(attempt, maxRetries, t, k + 1, NextPrompt(st, prompt));
        assert r[k] == t[k];
      }
    }
  }

  /** `Trace` extends a chained prefix to a chained record that ends where the loop ends. */
  lemma {:induction false} TraceChained(attempt: (nat, Prompt) -> Step, maxRetries: int, done: seq<Entry>, k: nat, prompt: Prompt)
    requires |done| == k && Chained(attempt, done)
    requires done != [] ==> (k <= maxRetries && Retryable(done[k - 1].step)
      && prompt == NextPrompt(done[k - 1].step, done[k - 1].prompt))
    ensures var r := Trace(attempt, maxRetries, done, k, prompt);
      Chained(attempt, r)
      && (r != [] ==> !Retryable(r[|r| - 1].step) || |r| == maxRetries)
    decreases maxRetries - k
  {
    if k < maxRetries {
      var st := attempt(k, prompt);
      ChainedExtend(attempt, done, prompt);
      if Retryable(st) && k + 1 < maxRetries {
        TraceChained(attempt, maxRetries, done + [Entry(prompt, st)], k + 1, NextPrompt(st, prompt));
      }
    }
  }

  /** The record of `execute_with_retry` is a complete run. */
  lemma AttemptedIsRun(s: Setup)
    ensures IsRun(Attempts(s), s.maxRetries, Attempted(s))
  {
    TraceChained(Attempts(s), s.maxRetries, [], 0, Task);
    TraceLength(Attempts(s), s.maxRetries, [], 0, Task);
  }

  /** Two complete runs of the same attempts agree entry by entry. */
  lemma {:induction false} RunsAgree(attempt: (nat, Prompt) -> Step, maxRetries: int, t1: seq<Entry>, t2: seq<Entry>, i: nat)
    requires IsRun(attempt, maxRetries, t1) && IsRun(attempt, maxRetries, t2)
    requires i < |t1| && i < |t2|
    ensures t1[i] == t2[i]
  {
    if i > 0 {
      RunsAgree(attempt, maxRetries, t1, t2, i - 1);
    }
  }

  /** A complete run is no shorter than another complete run of the same attempts. */
  lemma RunNotShorter(attempt: (nat, Prompt) -> Step, maxRetries: int, t1: seq<Entry>, t2: seq<Entry>)
    requires IsRun(attempt, maxRetries, t1) && IsRun(attempt, maxRetries, t2)
    ensures |t2| <= |t1|
  {
    var n := |t1|;
    if 0 < n <= |t2| {
      RunsAgree(attempt, maxRetries, t1, t2, n - 1);
    }
  }

  /** There is only one complete run: `IsRun` determines the record. */
  lemma RunUnique(attempt: (nat, Prompt) -> Step, maxRetries: int, t1: seq<Entry>, t2: seq<Entry>)
    requires IsRun(attempt, maxRetries, t1) && IsRun(attempt, maxRetries, t2)
    ensures t1 == t2
  {
    RunNotShorter(attempt, maxRetries, t1, t2);
    RunNotShorter(attempt, maxRetries, t2, t1);
    forall i | 0 <= i < |t1| ensures t1[i] == t2[i] {
      RunsAgree(attempt, maxRetries, t1, t2, i);
    }
  }

  /** The record of `execute_with_retry` is the complete run, and no other record is. */
  lemma AttemptedIff(s: Setup, t: seq<Entry>)
    ensures t == Attempted(s) <==> IsRun(Attempts(s), s.maxRetries, t)
  {
    AttemptedIsRun(s);
    if IsRun(Attempts(s), s.maxRetries, t) {
      RunUnique(Attempts(s), s.maxRetries, t, Attempted(s));
    }
  }

  /** The corrective prompt repeats the task. */
  lemma CorrectiveCarriesTask(initialPrompt: string)
    ensures Contains(PromptText(Corrective, initialPrompt), initialPrompt)
  {
    ContainsMiddle(CorrectiveHead, initialPrompt, "\n");
  }

  /** The fix prompt quotes the error output and the failed code. */
  lemma FixCarriesRun(initialPrompt: string, output: string, code: string)
    ensures Contains(PromptText(Fix(output, code), initialPrompt), output)
    ensures Contains(PromptText(Fix(output, code), initialPrompt), code)
  {
    var p := FixPrompt(output, code);
    ContainsMiddle(FixHead + output + FixMiddle, code, FixTail);
    ContainsMiddle(FixHead, output, FixMiddle + code + FixTail);
    assert FixHead + output + (FixMiddle + code + FixTail) == p;
  }

  /**
   * An attempt that reached the interpreter ran the repaired extraction of the
   * reply, and it passed exactly when the classifier did not call its output a failure.
   */
  lemma AttemptRan(s: Setup, k: nat, prompt: Prompt)
    requires Attempt(s, k, prompt).Passed? || Attempt(s, k, prompt).Failed?
    ensures var st := Attempt(s, k, prompt);
      var reply := s.chat(k, PromptText(prompt, s.initialPrompt));
      reply.Reply?
      && ExtractPythonCode(reply.text) != []
      && AddMissingCall(ExtractPythonCode(reply.text), s.target) == Ok(st.code)
      && st.code != []
      && st.output == CapturedOutput(st.code, s.exec(k, st.code))
      && (st.Failed? <==> Classify(st.output) == Failure)
  {
  }

  /** `code` is read unbound exactly when the loop never runs. */
  lemma UnboundIff(s: Setup)
    ensures OutcomeOf(s) == Raised(UnboundCode) <==> s.maxRetries <= 0
  {
    AttemptedIsRun(s);
  }

  /** A successful return carries code that ran on some attempt and output that does not fail. */
  lemma SuccessRan(s: Setup)
    requires OutcomeOf(s).Returned? && OutcomeOf(s).success
    ensures var o := OutcomeOf(s);
      exists k: nat :: k < s.maxRetries && o.output == CapturedOutput(o.code, s.exec(k, o.code))
    ensures Classify(OutcomeOf(s).output) != Failure && OutcomeOf(s).code != []
  {
    var t := Attempted(s);
    AttemptedIsRun(s);
    var k := |t| - 1;
    assert t[k].step == Attempt(s, k, t[k].prompt);
    AttemptRan(s, k, t[k].prompt);
  }

  /** A failing return comes only after every attempt was used, and carries failing output when it carries code. */
  lemma FailureExhausted(s: Setup)
    requires OutcomeOf(s).Returned? && !OutcomeOf(s).success
    ensures |Attempted(s)| == s.maxRetries
    ensures OutcomeOf(s).code != [] ==> Classify(OutcomeOf(s).output) == Failure
  {
    var t := Attempted(s);
    AttemptedIsRun(s);
    var k := |t| - 1;
    assert t[k].step == Attempt(s, k, t[k].prompt);
    if t[k].step.Failed? {
      AttemptRan(s, k, t[k].prompt);
    }
  }
}
