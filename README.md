# LLM data pipeline: generate, repair, run, classify, retry

This project models the core of a data-cleaning pipeline that asks a local
language model (served by Ollama) for a Python program, pulls the code out of
the reply, patches in a call to the function it defines, runs it, and decides
from the printed output whether the run failed, in which case it asks again
with the error and the code quoted back. Around that loop sit the model
router, which picks a model configuration from a file extension and names
processing sessions, and the chat client, which keeps the conversation
history.

Modules, one per source concern:

- `Base` (base.dfy): `Option` and `Result`.
- `Text` (text.dfy): Python's string operations as used by the source. These are
  `str.isspace`, `strip`, ASCII `lower`, substring search (optionally case-folded),
  `in`, `split` on a character, and character replacement.
- `Json` (json.dfy): JSON values and Python truthiness.
- `Extractor` (extractor.dfy): `extract_python_code` and `extract_code_blocks`.
- `Executor` (executor.dfy): the output text of `execute_code_capture_output`,
  the `success` flag of `execute_code_safe`, and `validate_code_safety`.
  The interpreter is an oracle `Run`, which holds stdout, stderr and the
  exception that escaped, if any.
- `Classifier` (classifier.dfy): the warning-tolerant failure check of
  `execute_with_retry`.
- `AutoFix` (autofix.dfy): the function-call repair of `execute_with_retry`.
- `Retry` (orchestrator.dfy): the retry loop `execute_with_retry`. The model
  client and the interpreter are oracles indexed by attempt number.
- `Handler` (model_handler.dfy): the `ModelHandler` class.
- `Ollama` (ollama_client.dfy): the `OllamaClient` class. The HTTP round trip
  is an oracle from the request to what the transport reports.

The retry loop is specified by `Trace`, the list of attempts it makes, and
`OutcomeFrom`, what it returns or raises given that list. `RetryLoop` is the
loop of the source. It is proved for any function that says what an attempt
comes to with a given prompt. `ExecuteWithRetry` runs it with `Attempt`, one
pass of the loop body (lines 45-115). That body is a sequence of early exits
with no loop of its own, so `Attempt` is a function. The variable `prompt` is modelled as a `Prompt` value that
names the text it holds:
- the task;
- the request for a code block;
- the request to fix a failed run, which carries that run's output and code.

`PromptText` renders that value to the string sent to `client.chat`.

Two other facts are proved about the list of attempts:
- it is the only record that satisfies `IsRun`. `IsRun` is a declarative
  description: it starts from the task, each step follows from the
  prompt it was given, each prompt follows from the step before it, the loop
  stops at the right place, and there are at most `max_retries` attempts;
- `ExecuteWithRetry` makes exactly these attempts and returns exactly that outcome.

Several exceptions escape `execute_with_retry` in the source. The model keeps
two of them as outcomes (`Retry.Escape`):
- `code` is read unbound at line 147 when `max_retries <= 0`;
- the split at line 85 has no second piece when `def <name>`, with a single
  space and the name the pattern matched, occurs nowhere in the code
  (`AutoFix.AddMissingCallCases`). `AutoFix.TwoSpaceDefRaises` shows this on
  the input `def  f()`.

The `success` flag of the metadata wrapper (code_exec.py, lines 86-100) looks
for three markers. The retry loop's check (mainV3.py, lines 107-115) looks for
twelve indicators and forgives warning lines. The two disagree:
- `Classifier.BareExceptionNameDisagrees`: a line that names an exception
  without a colon is a failure to the loop and a success to the wrapper;
- `Classifier.WarningLineDisagrees`: a warning line that quotes `Error:` is
  tolerated by the loop but fails the wrapper.

## Model

| member | source | states |
|---|---|---|
| Extractor.ExtractPythonCode | Core_Pipeline_Files/Utilities/re.py:21-51 | the five rules in their order: the first of the python fence, the generic fence, `'''`, `"""` that finds a closed block decides, then a code-like line makes the whole reply the code, else "". It has no contract of its own: the lemmas below state what each rule yields and when it applies |
| Extractor.ExtractedIsSubstring | Core_Pipeline_Files/Utilities/re.py:21-51 | empty text yields ""; the extracted code is stripped and, when not empty, a contiguous piece of the reply |
| Extractor.DelimitedFirstBlock | Core_Pipeline_Files/Utilities/re.py:25-27 | a search `open\s*(.*?)\s*close` reports the text from the first opening to the first closing after it, stripped, whatever follows |
| Extractor.DelimitedIsSubstring | Core_Pipeline_Files/Utilities/re.py:25-42 | what a delimited search reports is trimmed and a piece of the text |
| Extractor.PythonFenceWins | Core_Pipeline_Files/Utilities/re.py:24-27 | a closed ```` ```python ```` block (any case) decides the result, whatever else the reply contains |
| Extractor.EmptyPythonFenceHidesLaterCode | Core_Pipeline_Files/Utilities/re.py:25-27 | a blank first ```` ```python ```` block makes the result empty even when later blocks hold code |
| Extractor.GenericFenceSecond | Core_Pipeline_Files/Utilities/re.py:29-32 | a generic fence is used only when no ```` ```python ```` block is closed |
| Extractor.SingleQuotesThird | Core_Pipeline_Files/Utilities/re.py:34-37 | a `'''` block is used only when no fence of either kind is closed |
| Extractor.DoubleQuotesFourth | Core_Pipeline_Files/Utilities/re.py:39-42 | a `"""` block is used only when the three earlier rules find nothing |
| Extractor.RawCodeFallback | Core_Pipeline_Files/Utilities/re.py:44-47 | undelimited text with a line starting (after blanks) with import/from/def/class and whitespace is returned whole, stripped |
| Extractor.PlainProseYieldsNothing | Core_Pipeline_Files/Utilities/re.py:49-51 | undelimited text without such a line yields "" |
| Extractor.NextOpeningFirst | Core_Pipeline_Files/Utilities/re.py:67-71 | the scan for a block start reports the first opening at or after the position |
| Extractor.FindAllStep | Core_Pipeline_Files/Utilities/re.py:67-71 | `re.findall` takes the first opening and its first closing fence as a match, then resumes right after that fence |
| Extractor.FindAllUnclosed | Core_Pipeline_Files/Utilities/re.py:67-71 | an opening that is never closed ends the list of matches |
| Extractor.FindAllPieces | Core_Pipeline_Files/Utilities/re.py:67-71 | every match is a piece of the text |
| Extractor.KeepNonEmpty | Core_Pipeline_Files/Utilities/re.py:74 | the filter keeps no empty block and never adds blocks |
| Extractor.KeepNonEmptyAppend | Core_Pipeline_Files/Utilities/re.py:74 | filtering a concatenation filters each part in order |
| Extractor.ExtractCodeBlocks | Core_Pipeline_Files/Utilities/re.py:54-74 | no returned block is empty |
| Extractor.CodeBlocksArePieces | Core_Pipeline_Files/Utilities/re.py:54-74 | every returned block is non-empty, trimmed, and a piece of the reply |
| Extractor.NoFenceNoBlocks | Core_Pipeline_Files/Utilities/re.py:64-74 | a reply without ```` ``` ```` has no blocks |
| Extractor.FirstCodeBlockIsExtracted | Core_Pipeline_Files/Utilities/re.py:24-74 | when the first ```` ```python ```` block is not blank, `extract_code_blocks` starts with what `extract_python_code` returns |
| Executor.ExecuteCodeCaptureOutput | Core_Pipeline_Files/Utilities/code_exec.py:10-63 | the imperative assembly of the output text yields `CapturedOutput` |
| Executor.BlankCodeNotRun | Core_Pipeline_Files/Utilities/code_exec.py:24-25 | blank code gives the no-code message whatever the interpreter would do |
| Executor.CapturedNonEmpty | Core_Pipeline_Files/Utilities/code_exec.py:24-63 | the output text is never empty |
| Executor.QuietRunOutput | Core_Pipeline_Files/Utilities/code_exec.py:45-51 | a clean run without stderr yields its stdout, or "[No output produced]" when that is empty |
| Executor.StderrRunOutput | Core_Pipeline_Files/Utilities/code_exec.py:45-51 | stderr follows stdout after the 80-`=` separator (only when stdout is non-empty) and a "STDERR:" header |
| Executor.StdoutIsPrefix | Core_Pipeline_Files/Utilities/code_exec.py:41-63 | what the program printed always opens the output |
| Executor.FaultOutput | Core_Pipeline_Files/Utilities/code_exec.py:53-63 | a run that raised reports stdout, the `Error: <type>: <message>` line and the traceback, and drops stderr |
| Executor.FaultOutputShape | Core_Pipeline_Files/Utilities/code_exec.py:55-61 | the report of a raised run has a line that is exactly `Traceback:` |
| Executor.HasErrorMarker | Core_Pipeline_Files/Utilities/code_exec.py:91-93 | `has_error` of the wrapper: one of `Error:`, `Exception:`, `Traceback` occurs in the output. It is a predicate; `ExecuteCodeSafe`, `BlankCodeIsUnsafe`, `FaultIsUnsafe` and `CleanIsSafe` state what follows from it |
| Executor.ExecuteCodeSafe | Core_Pipeline_Files/Utilities/code_exec.py:86-100 | `success` holds exactly when the output has none of `Error:`, `Exception:`, `Traceback`; `error` is the output on failure and absent otherwise |
| Executor.BlankCodeIsUnsafe | Core_Pipeline_Files/Utilities/code_exec.py:24-25 | blank code is never reported as a success by the wrapper |
| Executor.FaultIsUnsafe | Core_Pipeline_Files/Utilities/code_exec.py:53-63 | a run that raised is never reported as a success by the wrapper |
| Executor.ScanPatterns | Core_Pipeline_Files/Utilities/code_exec.py:143-146 | the scan of a pattern table yields the warnings of the matching patterns, in table order |
| Executor.ValidateCodeSafety | Core_Pipeline_Files/Utilities/code_exec.py:114-151 | `is_safe` is always true; the warnings are those of the matching patterns, in table order |
| Executor.FlaggedIff | Core_Pipeline_Files/Utilities/code_exec.py:143-146 | a warning is listed exactly when some pattern carrying it matches the code |
| Executor.FlaggedDistinct | Core_Pipeline_Files/Utilities/code_exec.py:143-146 | distinct warnings in the table give a list without repeats |
| Executor.WarningsDistinct | Core_Pipeline_Files/Utilities/code_exec.py:132-146 | no warning is reported twice |
| Classifier.Classify | Core_Pipeline_Files/mainV3.py:107-115 | the loop's verdict: clean without an indicator, warnings only when every indicator line mentions `Warning`, failure otherwise. It has no contract of its own: `FailureIff` states when it is a failure, by a line-by-line condition |
| Classifier.IndicatorLinesMember | Core_Pipeline_Files/mainV3.py:111-112 | the filtered lines are exactly the output lines that carry an indicator |
| Classifier.LineIndicator | Core_Pipeline_Files/mainV3.py:107-112 | an indicator on a line is an indicator in the output |
| Classifier.FailureIff | Core_Pipeline_Files/mainV3.py:107-115 | the output fails exactly when one of its lines carries an indicator and mentions neither Warning nor FutureWarning |
| Classifier.FailingLine | Core_Pipeline_Files/mainV3.py:110-115 | one such line suffices for a failure |
| Classifier.NoIndicatorIsClean | Core_Pipeline_Files/mainV3.py:107 | output without any indicator is clean |
| Classifier.IndicatorLineFails | Core_Pipeline_Files/mainV3.py:110-115 | a line with an indicator and no capital W makes the output fail |
| Classifier.SafeMarkersAreIndicators | Core_Pipeline_Files/mainV3.py:101-105 | the wrapper's three markers are among the loop's twelve indicators |
| Classifier.FaultOutputFails | Core_Pipeline_Files/mainV3.py:95-115 | whatever the program printed, a run that raised is classified as a failure |
| Classifier.BlankCodeFails | Core_Pipeline_Files/mainV3.py:95-115 | blank code is classified as a failure |
| Classifier.CleanIsSafe | Core_Pipeline_Files/mainV3.py:101-107 | output the loop finds clean is also a success for the wrapper |
| Classifier.BareExceptionNameDisagrees | Core_Pipeline_Files/mainV3.py:101-115 | a one-line output naming an exception without colon, T or W fails the loop's check but passes the wrapper's |
| Classifier.WarningLineDisagrees | Core_Pipeline_Files/mainV3.py:109-115 | a one-line warning quoting `Error:` is tolerated by the loop but fails the wrapper |
| AutoFix.DefAt | Core_Pipeline_Files/mainV3.py:82 | the match of `def\s+(\w+)\s*\(([^)]*)\)` that starts at a given position: each run is taken whole, so no backtracking is needed; a match starts where it was asked to |
| AutoFix.WordSpanSpec | Core_Pipeline_Files/mainV3.py:82 | `\w+` takes the maximal run of word characters |
| AutoFix.DefAtShape | Core_Pipeline_Files/mainV3.py:82 | a match starts with `def`, names a non-empty run of word characters, and its parameters hold no `)` |
| AutoFix.SearchDef | Core_Pipeline_Files/mainV3.py:82 | `re.search`: a reported match starts at or after the position and is the match `DefAt` gives there; `SearchDefLeftmost` and `SearchDefFirst` prove it is the leftmost one |
| AutoFix.PlainDefMatches | Core_Pipeline_Files/mainV3.py:82 | `def name(params)` with one space is matched with exactly that name and those parameters |
| AutoFix.SearchDefLeftmost | Core_Pipeline_Files/mainV3.py:82 | `re.search` reports the leftmost match: no match starts earlier |
| AutoFix.SearchDefFirst | Core_Pipeline_Files/mainV3.py:82 | a match with none before it is the one reported |
| AutoFix.SecondPiece | Core_Pipeline_Files/mainV3.py:85 | `split(sep)[1]` exists exactly when the separator occurs |
| AutoFix.AddMissingCall | Core_Pipeline_Files/mainV3.py:80-91 | the repair only appends; code without `def ` is unchanged |
| AutoFix.AddMissingCallCases | Core_Pipeline_Files/mainV3.py:80-91 | the result is the code unchanged or the code plus the call line of the first match; the IndexError is raised exactly when the code holds `def ` and a match but not `def <name>` |
| AutoFix.CallLineCalls | Core_Pipeline_Files/mainV3.py:87-91 | the appended line calls the function |
| AutoFix.RepairCallsFunction | Core_Pipeline_Files/mainV3.py:85-91 | after the repair, the whole text after the first `def <name>` contains `<name>(` |
| AutoFix.RepairedPieceCalls | Core_Pipeline_Files/mainV3.py:85-91 | when `def <name>` occurs once in the code, the piece `split(f"def {name}")[1]` of the repaired code contains `<name>(`, so the check at line 85 would not fire on it again |
| AutoFix.FileParamGetsTarget | Core_Pipeline_Files/mainV3.py:87-89 | a parameter list mentioning filename/file/path (any case) makes the call pass the target file name |
| AutoFix.TwoSpaceDefRaises | Core_Pipeline_Files/mainV3.py:82-85 | on `def  f()` the pattern matches `f` but the split on `def f` has one piece, so line 85 raises IndexError |
| Retry.Attempt | Core_Pipeline_Files/mainV3.py:45-115 | one pass of the loop body: the chat call, extraction, the repair, the run and the classification, each with its early exit. It has no contract of its own: `AttemptRan` states what a pass that ran did |
| Retry.Trace | Core_Pipeline_Files/mainV3.py:37-144 | the attempts the loop makes: one per call of `client.chat`, each with the prompt the previous one handed on, up to the first step that ends the loop or `max_retries` steps. `TraceLength`, `TraceChained` and `AttemptedIff` state this |
| Retry.OutcomeFrom | Core_Pipeline_Files/mainV3.py:117-147 | what the function returns or raises after a given list of attempts: the unbound `code` when there were none, otherwise the result of the last step. `SuccessRan`, `FailureExhausted` and `UnboundIff` state its cases |
| Retry.RetryLoop | Core_Pipeline_Files/mainV3.py:37-147 | for any behaviour of the attempts, the loop makes exactly the attempts of `Trace` and returns or raises what the last of them calls for |
| Retry.ExecuteWithRetry | Core_Pipeline_Files/mainV3.py:24-147 | the loop makes exactly the attempts of `Attempted` and returns or raises exactly `OutcomeOf` |
| Retry.ChainedExtend | Core_Pipeline_Files/mainV3.py:39-144 | a chained record of attempts stays chained when the next attempt is made with the prompt the last step hands on |
| Retry.TraceLength | Core_Pipeline_Files/mainV3.py:39 | the loop keeps what was done, adds one entry per call of `client.chat`, and never exceeds `max_retries` calls |
| Retry.TraceChained | Core_Pipeline_Files/mainV3.py:39-144 | the attempt record is chained and stops at a non-retryable step or when the attempts are used up |
| Retry.AttemptedIsRun | Core_Pipeline_Files/mainV3.py:37-147 | the record of the loop is a complete run (`IsRun`) |
| Retry.RunsAgree | Core_Pipeline_Files/mainV3.py:37-144 | two complete runs of the same oracles agree entry by entry |
| Retry.RunNotShorter | Core_Pipeline_Files/mainV3.py:39-144 | no complete run is longer than another |
| Retry.RunUnique | Core_Pipeline_Files/mainV3.py:37-147 | `IsRun` determines the record |
| Retry.AttemptedIff | Core_Pipeline_Files/mainV3.py:37-147 | a record is the loop's record exactly when it is a complete run |
| Retry.CorrectiveCarriesTask | Core_Pipeline_Files/mainV3.py:65-71 | the corrective prompt repeats the task |
| Retry.FixCarriesRun | Core_Pipeline_Files/mainV3.py:125-143 | the fix prompt quotes the error output and the failed code |
| Retry.AttemptRan | Core_Pipeline_Files/mainV3.py:46-115 | an attempt that ran got a reply to the rendered prompt, extracted non-empty code, ran its repaired version, and passed exactly when the output is not a failure |
| Retry.UnboundIff | Core_Pipeline_Files/mainV3.py:39-147 | `code` is read unbound exactly when `max_retries <= 0` |
| Retry.SuccessRan | Core_Pipeline_Files/mainV3.py:117-119 | a successful return carries non-empty code that ran on some attempt and output that is not a failure |
| Retry.FailureExhausted | Core_Pipeline_Files/mainV3.py:49-147 | a failing return comes only after all `max_retries` attempts, and when it carries code its output is a failure |
| Handler.NormalizeExtension | Core_Pipeline_Files/model_handler.py:53-55 | the normalised extension always starts with `.` and is the lower-cased input, with a dot added in front or not |
| Handler.LowerAllTwice | Core_Pipeline_Files/model_handler.py:53 | lower-casing is idempotent |
| Handler.NormalizeIdempotent | Core_Pipeline_Files/model_handler.py:53-55 | normalising a normalised extension changes nothing |
| Handler.NormalizeIgnoresCase | Core_Pipeline_Files/model_handler.py:53-55 | extensions equal up to case normalise alike |
| Handler.NormalizeSuppliesDot | Core_Pipeline_Files/model_handler.py:54-55 | `csv` and `.csv` normalise alike |
| Handler.ModelKeyFor | Core_Pipeline_Files/model_handler.py:58-69 | the chosen key names an entry of `models`; the only failure is the KeyError on `default_model` |
| Handler.ModelKeyChoice | Core_Pipeline_Files/model_handler.py:58-69 | the mapped key wins when its entry exists and is non-empty; any other key is `default_model`; the lookup fails exactly when neither applies |
| Handler.SameModelForSpellings | Core_Pipeline_Files/model_handler.py:53-61 | extensions differing only in case or in a missing leading dot select the same model |
| Handler.Tagged | Core_Pipeline_Files/model_handler.py:72-73 | the tagged entry adds `model_key` and `file_extension` and keeps every other field |
| Handler.SafeFilename | Core_Pipeline_Files/model_handler.py:89 | same length; no `.`, `/` or `\` remains; every other character is kept |
| Handler.SessionId | Core_Pipeline_Files/model_handler.py:88-90 | the id of lines 88-90 for a given timestamp; `SessionIdShape` states its shape |
| Handler.SessionIdShape | Core_Pipeline_Files/model_handler.py:88-90 | the id is the safe name, `_`, then the timestamp; it is never empty and has no path separator when the timestamp has none |
| Handler.ModelHandler.GetModelForFile | Core_Pipeline_Files/model_handler.py:42-76 | the entry chosen by `ModelKeyFor` is tagged in place, returned and made the current model; a KeyError changes nothing |
| Handler.ModelHandler.CurrentModel | Core_Pipeline_Files/model_handler.py:75 | `current_model` is the shared entry of `models` |
| Handler.ModelHandler.CreateSessionId | Core_Pipeline_Files/model_handler.py:78-92 | the id is stored as the current session and the session path becomes available |
| Handler.ModelHandler.SessionPath | Core_Pipeline_Files/model_handler.py:94-100 | ValueError exactly when no id (or an empty one) is set; otherwise `<storage dir>/<id>.json` |
| Handler.ModelHandler.SaveSession | Core_Pipeline_Files/model_handler.py:102-122 | nothing happens exactly when `log_sessions` is false; otherwise the path error, or the data stamped with id, time and model |
| Handler.ModelHandler.MaxRetries | Core_Pipeline_Files/model_handler.py:357-359 | the configured `max_retries` |
| Handler.ModelHandler.GetModelInfo | Core_Pipeline_Files/model_handler.py:361-371 | "No model assigned" exactly when no model (or an empty one) is current; otherwise the four fields, or a KeyError naming one of them |
| Ollama.StartHistory | Core_Pipeline_Files/ollama_client.py:40-46 | the history starts with the system turn exactly when the system prompt is truthy, and is empty otherwise |
| Ollama.Respond | Core_Pipeline_Files/ollama_client.py:79-116 | a reply exactly for a non-4xx/5xx response with content; ConnectionError, TimeoutError, ValueError naming the model for 404, RuntimeError for other HTTP errors |
| Ollama.PreviewText | Core_Pipeline_Files/ollama_client.py:131 | content of at most 100 characters is kept; longer content becomes its first 100 characters plus `...` |
| Ollama.PreviewTurn | Core_Pipeline_Files/ollama_client.py:129-133 | the preview keeps the role and the length; it raises exactly for contents without `len`, and for a list or object longer than 100, which cannot be cut and joined with `...` |
| Ollama.PreviewAll | Core_Pipeline_Files/ollama_client.py:128-135 | the summary entries exist exactly when every turn has a preview |
| Ollama.PreviewAllEntries | Core_Pipeline_Files/ollama_client.py:128-135 | one entry per turn, in order |
| Ollama.OllamaClient.constructor | Core_Pipeline_Files/ollama_client.py:12-25 | a new client has no model, an empty history and the default options |
| Ollama.OllamaClient.SetModel | Core_Pipeline_Files/ollama_client.py:27-46 | without `name` nothing changes; otherwise the options are read with defaults 0.7/4000/0.9 and the history restarts |
| Ollama.OllamaClient.Chat | Core_Pipeline_Files/ollama_client.py:48-116 | without a model nothing changes; otherwise the user turn is appended before the call and kept on failure, and a reply is appended after it |
| Ollama.OllamaClient.GetConversationHistory | Core_Pipeline_Files/ollama_client.py:118-120 | the returned list equals the history and is a separate value |
| Ollama.OllamaClient.GetConversationSummary | Core_Pipeline_Files/ollama_client.py:122-136 | model, temperature, message count equal to the history length, and one preview per turn |
| Ollama.OllamaClient.ClearHistory | Core_Pipeline_Files/ollama_client.py:138-145 | the history is the one `set_model` starts from, so clearing twice is clearing once; nothing else changes |
| Ollama.OllamaClient.Reset | Core_Pipeline_Files/ollama_client.py:147-154 | every field returns to its constructor default |

## Left out

- Python's interpreter: `exec`, `compile`, stream redirection and
  `traceback.format_exc`. These are the `Run` oracle.
- `client.chat` inside the loop: it is an oracle from attempt number and prompt to a
  reply or a raised message.
- The model client, not the `OllamaClient` model, sits behind the loop's oracle.
  The two are not composed.
- Console printing, timing (`execution_time`) and the clock. The timestamps of
  `create_session_id` and `save_session` are parameters.
- The outer `except` of `execute_code_safe` (code_exec.py lines 102-111) is not
  modelled. `execute_code_capture_output` catches every `Exception` itself.
  An escaping `BaseException` is not modelled.
- Text classes are ASCII:
  - `\w` and `str.lower` are modelled on ASCII only;
  - `str.isspace` is modelled on the characters listed in `Text.IsSpace`.
- Extractor.FindAll: returns the raw text between the fences. The pattern's own
  `\s*` trimming is left to the `.strip()` that `extract_code_blocks` applies
  afterwards, which gives the same final blocks.
- `None` passed where a string is expected, and replies whose content is not a
  string, are not modelled in the loop.
- `ModelHandler.__init__`: loading and parsing the JSON configuration, creating
  the session directory, `create_default_config`, and the prompt templates
  `get_inspection_prompt` and `get_cleaning_prompt`. These are file I/O and
  fixed text.
- Handler.ModelHandler.SaveSession: returns the data that would be written
  instead of writing the file. It does not show the caller's dictionary being
  updated in place.
- Handler.ModelHandler.SessionPath: keeps the directory and file name apart.
  `pathlib`'s normalisation of the directory string is not modelled.
- Handler: the entries of `models` are JSON objects and `settings` has all its
  keys. A missing settings key, or a non-object entry, would raise before the
  modelled behaviour.
- Ollama: the HTTP transport, `test_connection`, `list_available_models` and
  `get_status` are not modelled. They are network calls.
- Ollama.OllamaClient.Chat: a body without `message.content` is the single
  error `BadReply`. The source lets the parsing exception propagate.
- Floating-point options (`temperature`, `top_p`) are JSON values holding Dafny
  `real`s. No arithmetic is done on them.
