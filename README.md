# A verified model of the two-stage agent's deterministic core

The repository is a two-stage LLM agent. The planner model splits a user's
task into subtasks. For each subtask the executor model replies with one
Python call expression, such as `ai_get_file_list(path='un_organized')`. The
agent parses that reply and runs the named `ai_` function from a registry.

This project models, in Dafny, the parts of that pipeline that do not depend
on a model or on the operating system:

- **`FunctionOps.dfy`** (function_ops.py)
  - The call-expression parser `parse_function_call`, kept in its imperative
    form: a per-character loop that tracks the quote state, then a per-fragment
    loop that fills the argument dictionary.
  - Value coercion.
  - The function registry, as a class whose `registry` map is filled by
    `load_functions_from_directory`.
  - `execute_function`, which keeps only the declared parameters.
- **`LLMOps.dfy`** (`process_llm1_response` in LLM_ops.py)
  - The first `[...]` span is handed to `ast.literal_eval`.
  - Otherwise the numbered or bulleted lines are collected.
  - Otherwise the whole stripped reply is returned.
- **`Prompts.dfy`**: the two system-prompt templates of LLM_ops.py, with their
  exact fixed text.
- **`Agent.dfy`** (main.py)
  - The executor loop of `run_agent`: code-fence stripping, parsing,
    dispatching, the per-subtask result records, overall success and the first
    error.
- **`FileOps.dfy`** (functions/file_ops.py)
  - The module-level `file_list`, `unique_file_types` and `folder_paths`, as
    fields of a class updated by the `ai_` functions.
  - The disjoint category table, and the rule that picks each file's
    destination.
- **`LogHandler.dfy`** (gradio_interface.py)
  - The `AccumulatingQueueHandler` class: a FIFO queue, and a history trimmed
    to the last `max_logs` messages.
- **`Text.dfy`**: the Python `str` operations the code relies on, restricted to
  ASCII. These are `strip`, `lower`, `split`, `join`, `find`/`rfind`, `int` and
  `str` of a natural number.

Every state-changing function of the source is a method with loops, proved
against a specification function. The properties the source promises are
proved about those specification functions as lemmas: round trips,
if-and-only-if characterisations, what changes and what is kept.

Things the model takes as inputs rather than computes:

- The model replies.
- The behaviour of the registered functions: a callee returning `str` of its
  result or raising an exception with a message.
- What `os.walk` and `os.listdir` report.
- `os.path.abspath`.
- The result of `ast.literal_eval`.
- The contents of `perform_tasks.txt`.

## Model

| member | source | states |
|---|---|---|
| FunctionOps.CoerceLiteral | function_ops.py:137-153 | every value written as a Python literal reads back as that same value: a string in single or double quotes, `True`/`False`, `None`, a decimal int of at most 4300 digits, digits with one dot |
| FunctionOps.CoerceQuoted | function_ops.py:140-141 | a value wrapped in `"` or in `'` becomes the text between the quotes, whatever that text is |
| FunctionOps.CoerceDigits | function_ops.py:149-155 | a digit string, zero-padded or not, becomes the int it denotes when it has at most 4300 digits; a longer one makes `int` raise, and the inner `except` leaves the raw string |
| FunctionOps.CoerceZeroPadded | function_ops.py:149-153 | leading zeros do not change the int: `007` becomes `7` |
| FunctionOps.CoerceWord | function_ops.py:137-157 | an identifier that is not all digits and is not `true`, `false` or `none` in any letter case, such as `null` or `1_000`, is stored as the raw string |
| FunctionOps.CoerceNoneIff | function_ops.py:140-148 | a value becomes None exactly when it lower-cases to `none`; `null` and `NULL` are not None |
| FunctionOps.CoerceBoolIff | function_ops.py:140-146 | a value becomes the bool `b` exactly when it lower-cases to `true` or `false` respectively |
| FunctionOps.CoerceSignedStaysString | function_ops.py:149-153 | a value starting with `-` is neither int nor float and stays the raw string |
| FunctionOps.Step | function_ops.py:113-119 | outside a string a quote opens one; inside, only the opening quote character closes it, and any other character keeps the state |
| FunctionOps.CommaOutsideSplits | function_ops.py:121-123 | a comma reached outside any quote ends the current fragment and starts a new one |
| FunctionOps.CommaInsideKept | function_ops.py:113-125 | a comma reached inside an open quote is kept in the current fragment |
| FunctionOps.InsideUnsplit | function_ops.py:113-125 | inside a string opened by `q`, text without `q` neither splits nor closes the string |
| FunctionOps.UnclosedQuoteAbsorbs | function_ops.py:113-128 | a quote that is never closed takes the whole rest of the text into one fragment |
| FunctionOps.FragmentsJoin | function_ops.py:107-128 | no character is lost: joining the fragments with commas gives the argument text back |
| FunctionOps.FragmentsAppend | function_ops.py:112-125 | the fragments of a concatenation are those of the first part glued to those of the second, scanned from the quote state the first part leaves |
| FunctionOps.KeyValueFirstEquals | function_ops.py:132-135 | a fragment splits on its first `=` only; key and value are stripped |
| FunctionOps.ToMapKeys | function_ops.py:131-157 | the dictionary's keys are exactly the keys of the `key=value` fragments |
| FunctionOps.ToMapLastWins | function_ops.py:157 | a later duplicate key overwrites an earlier one |
| FunctionOps.ArgsDictSnoc | function_ops.py:131-157 | a fragment without `=` is dropped; one with `=` sets its stripped key to its coerced stripped value |
| FunctionOps.CallNameIff | function_ops.py:88-92 | a name is found exactly when the text starts with `\w+`, optional whitespace and `(`; leading whitespace or prose gives none |
| FunctionOps.ArgsSpanLeftmostLongest | function_ops.py:95-99 | the argument text runs from the first `(` to the last `)` after it (leftmost, greedy match) |
| FunctionOps.ArgsSpanNone | function_ops.py:95-97 | there is no argument span exactly when no `(` is followed by a `)` |
| FunctionOps.NoArgumentSpan | function_ops.py:95-97 | a call head without a `(`…`)` span parses to the name with an empty dictionary |
| FunctionOps.BlankArgumentSpan | function_ops.py:99-101 | a call whose argument span is only whitespace parses to the name with an empty dictionary |
| FunctionOps.ParseCall | function_ops.py:76-90 | the name returned is the anchored call head's; without one the dictionary is empty |
| FunctionOps.ParseFunctionCall | function_ops.py:76-163 | the method returns exactly the specified name and dictionary |
| FunctionOps.SplitArguments | function_ops.py:106-128 | the character loop, with `in_string` and `quote_char`, yields the stripped fragments, the last one only when non-empty |
| FunctionOps.BuildArguments | function_ops.py:130-157 | the dictionary loop yields the specified dictionary |
| FunctionOps.RoundTrip | function_ops.py:76-159 | `name(k1=v1, ...)` with identifier name and keys and literal values parses to `name` and exactly the dictionary of the pairs, the last duplicate key winning |
| FunctionOps.FunctionRegistry.constructor | function_ops.py:10 | the registry starts empty |
| FunctionOps.FunctionRegistry.LoadFunctionsFromDirectory | function_ops.py:12-44 | a missing directory leaves the registry unchanged; otherwise every file of the walk is loaded in walk order |
| FunctionOps.FunctionRegistry.LoadWalkStep | function_ops.py:24-44 | each `.py` file not starting with `__` whose import succeeds has its `ai_` functions registered; failed imports are skipped |
| FunctionOps.FunctionRegistry.RegisterModule | function_ops.py:36-38 | members whose name starts with `ai_` are registered in member order, a later one replacing an earlier one |
| FunctionOps.LoadFilesAt | function_ops.py:23-38 | after loading, a name maps to its definition in the last module that defines it, or to what it mapped to before |
| FunctionOps.LoadAddsOnlyAiNames | function_ops.py:36-38 | loading adds no name without the `ai_` prefix |
| FunctionOps.LoadIdempotent | function_ops.py:12-38 | loading the same directory a second time changes nothing |
| FunctionOps.FailedModuleSkipped | function_ops.py:29-44 | a module that fails to import is skipped and the scan carries on as if it were absent |
| FunctionOps.FunctionRegistry.ExecuteFunction | function_ops.py:166-198 | an unknown name raises `Function '<name>' not found in registry` and calls nothing; otherwise the function is called once with exactly the argument keys it declares, values unchanged, and its result or exception is passed on |
| LLMOps.BracketSpan | LLM_ops.py:179-181 | a span found starts with `[`, ends with `]` and has no `]` inside |
| LLMOps.BracketSpanIs | LLM_ops.py:179-181 | the span runs from the first `[` to the nearest `]` after it |
| LLMOps.BracketSpanNone | LLM_ops.py:179-180 | there is no span exactly when no `[` is followed by a `]` |
| LLMOps.BracketSpanIgnoresContext | LLM_ops.py:179-182 | text before the first `[` and after the closing `]` does not affect the span |
| LLMOps.MarkerOf | LLM_ops.py:189-191 | a line `  12. text` (whitespace, digits/`-`/`*`, `.`, whitespace, trimmed text) is kept, as `text` |
| LLMOps.UnmarkedKeepIff | LLM_ops.py:189-190 | a line without a marker is kept, stripped, exactly when it is not blank and has surrounding whitespace (a trailing `\r` included) |
| LLMOps.DashItemNotCollected | LLM_ops.py:189-190 | `- item` with nothing around it is not collected |
| LLMOps.CollectedAppend | LLM_ops.py:187-191 | the kept lines of two blocks are those of the first followed by those of the second, so kept lines stay in line order |
| LLMOps.CollectedOne | LLM_ops.py:187-191 | a lone line is collected, as its cleaned form, exactly when it is kept |
| LLMOps.CollectLines | LLM_ops.py:185-191 | the line loop yields the cleaned forms of the kept lines, in order |
| LLMOps.ProcessLLM1Response | LLM_ops.py:166-202 | with a bracket span the result is what `literal_eval` gives, or `[]` when it fails, and the line fallback is not tried; otherwise the collected lines when there are any; otherwise exactly `[response.strip()]` |
| Prompts.PlannerPrompt | LLM_ops.py:35-71 | the planner prompt is the fixed text with the metadata and the task file's contents in their places, each embedded verbatim |
| Prompts.ExecutorPrompt | LLM_ops.py:73-108 | the executor prompt is the fixed text with the metadata embedded verbatim |
| Prompts.PlannerPromptInjective | LLM_ops.py:44 | different metadata gives different planner prompts |
| Prompts.PlannerPromptTasksInjective | LLM_ops.py:48 | different task-file contents give different planner prompts |
| Prompts.ExecutorPromptInjective | LLM_ops.py:78 | different metadata gives different executor prompts |
| Agent.DropFence | main.py:83 | `s[3:-3]` is what lies between the first three and the last three characters, six characters shorter than `s`, and empty when `s` has fewer than six |
| Agent.FencedClean | main.py:81-83 | a reply fenced by three backticks on each side is cleaned to the stripped text inside |
| Agent.FenceRemoved | main.py:81-83 | the same with any whitespace around the fence |
| Agent.ShortFenceEmpty | main.py:81-83 | a stripped reply that starts and ends with three backticks but has fewer than six characters is cleaned to the empty text |
| Agent.UnfencedClean | main.py:81-83 | a trimmed reply that does not start with a backtick is left as it is |
| Agent.UnparsedReplyFails | main.py:87-90 | a reply whose cleaned form has no call head fails with `Could not parse function call: <clean>` and calls nothing |
| Agent.UnknownFunctionFails | main.py:87-95 | a well-formed call to an unregistered name fails with the registry's not-found message |
| Agent.RenderedCallDispatches | main.py:81-95 | a well-formed call, fenced or not, is dispatched with exactly the arguments written in it |
| Agent.TaggedNotCall | main.py:86-89 | a language tag and a newline in front of a call leave no call head at the start, so the parser finds no name |
| Agent.TaggedFenceFails | main.py:81-90 | a fence naming a language (```` ```python ````) is not taken apart: the tag stays in front of the call and the subtask fails to parse |
| Agent.Entry | main.py:65-72 | an entry has `id = i+1` and the subtask's description, and `function_call` stays None; on success `result` holds the returned text and `error` is None; on failure `result` is None and `error` holds the exception message |
| Agent.FirstErrorIs | main.py:61 | the run's error is None exactly when every entry succeeded; otherwise it is `Error in subtask k: <msg>` for the first failing `k`, every earlier entry having succeeded |
| Agent.FirstErrorSnoc | main.py:103-105 | after each entry an error already reported stays, and otherwise a failed entry reports its own |
| Agent.ReportOfOutcomes | main.py:64-107 | the entries recorded are, one by one and in order, those of the subtasks' outcomes |
| Agent.Record | main.py:97-105 | one iteration's bookkeeping: the entry, success turned off by a failure, and the error set only when none was set before |
| Agent.RunSubtasks | main.py:64-107 | the loop records one entry per subtask, in order, each that of its outcome; the error is the first failing entry's, and success holds exactly when no error was recorded |
| Agent.RunSubtask | main.py:74-95 | clean, parse and dispatch one subtask; its outcome is the specified one |
| Agent.RunAgent | main.py:57-110 | the task is kept; there is one entry per subtask, in order, each the specified entry of its outcome (the loop never stops early); overall success holds exactly when every entry succeeded; the error is that of the first failing entry |
| FileOps.PathJoinParts | functions/file_ops.py:50 | `os.path.join(a, b)` ends with `b`, starts with `a` when `b` is relative, and is empty only when both are |
| FileOps.ExtensionOf | functions/file_ops.py:160 | the extension is the lower-cased text after the last `.`, whatever comes before it |
| FileOps.ExtensionUndotted | functions/file_ops.py:75 | `split('.')[-1]` of a name without a dot is the whole name, lower-cased, which is why both callers test for a dot first |
| FileOps.MappingsDisjoint | functions/file_ops.py:19-23 | the three extension sets are pairwise disjoint and the category names distinct |
| FileOps.FirstCategory | functions/file_ops.py:164-168 | the first-match loop finds nothing exactly when no set holds the extension |
| FileOps.CategoryOfIff | functions/file_ops.py:164-168 | because the sets are disjoint, an extension is filed under `c` exactly when `c`'s set holds it |
| FileOps.Needed | functions/file_ops.py:117-120 | a category is needed exactly when its extension set meets the types seen |
| FileOps.NeededIff | functions/file_ops.py:117-120 | a folder is needed exactly when some extension seen is filed under its category |
| FileOps.WalkPathsIff | functions/file_ops.py:48-50 | the paths collected are exactly `join(root, file)` for every file of every walked directory |
| FileOps.FileTypesIff | functions/file_ops.py:72-76 | an extension is collected exactly when some name holding a dot has it |
| FileOps.Created | functions/file_ops.py:123-128 | the recorded folders are exactly the needed categories, each mapped to `join(base_path, c)` |
| FileOps.MovesIff | functions/file_ops.py:156-172 | a move happens exactly for a listed name with a dot whose extension's category has a non-empty folder entry, from `join(source, name)` to `join(folder, name)` |
| FileOps.DestinationOf | functions/file_ops.py:157-171 | a dotted name whose extension is filed under a category with a folder goes into that folder |
| FileOps.CreatedThenMoved | functions/file_ops.py:117-128 | once the folders are created for the extensions seen, a listed `prefix.ext` with one of those extensions goes to `base/<category>/prefix.ext` |
| FileOps.FileOrganizer.constructor | functions/file_ops.py:25-27 | the three module-level collections start empty |
| FileOps.FileOrganizer.GetFileList | functions/file_ops.py:29-60 | a missing path raises `Directory not found: <path>` before anything is appended; otherwise every file found is appended to what earlier calls collected, and nothing else changes |
| FileOps.FileOrganizer.GetUniqueFileTypes | functions/file_ops.py:62-79 | the extension of every collected name holding a dot is added; nothing is removed and nothing else changes |
| FileOps.FileOrganizer.CreateFolders | functions/file_ops.py:97-138 | each needed category's entry is set to `join(base_path, c)`; other entries and the other collections stay as they were |
| FileOps.AddFolders | functions/file_ops.py:123-128 | the folder loop records each needed category with its path, over what was there |
| FileOps.CollectNeeded | functions/file_ops.py:117-120 | the first loop collects exactly the needed categories |
| FileOps.ChooseFolder | functions/file_ops.py:164-168 | the first-match loop with `break` yields the recorded folder of the first matching category, or nothing |
| FileOps.FileOrganizer.MoveFilesToFolder | functions/file_ops.py:140-180 | a missing source folder raises `Source folder not found: <path>` before anything moves; otherwise the moves are the specified ones, in listing order |
| LogHandler.AccumulatingQueueHandler.constructor | gradio_interface.py:10-15 | a new handler has the given bound and an empty queue and history |
| LogHandler.AccumulatingQueueHandler.Default | gradio_interface.py:10 | the default bound is 1000 |
| LogHandler.AccumulatingQueueHandler.Emit | gradio_interface.py:17-29 | the message joins the end of the queue and of the history, which is then trimmed; the bound is unchanged |
| LogHandler.AccumulatingQueueHandler.GetLogs | gradio_interface.py:31-35 | returns every queued message in insertion order, leaves the queue empty and the history untouched |
| LogHandler.AccumulatingQueueHandler.ClearLogs | gradio_interface.py:37-41 | empties both the queue and the history |
| LogHandler.SliceFrom | gradio_interface.py:27 | Python's `s[start:]` is a suffix of `s`: it drops `start` elements for a start that is not negative, and keeps the last `-start` for a negative one, clamped to the length |
| LogHandler.KeptIsSuffix | gradio_interface.py:26-27 | for `max_logs >= 1` the history is at most `max_logs` long and is the last `min(n, max_logs)` messages |
| LogHandler.KeptWithin | gradio_interface.py:26 | a history within the bound is not trimmed |
| LogHandler.KeptZero | gradio_interface.py:27 | with `max_logs = 0` the slice `[-0:]` keeps everything |
| LogHandler.KeptNegative | gradio_interface.py:26-27 | a negative bound `-k` drops the first `k` messages |
| LogHandler.KeptAppend | gradio_interface.py:23-27 | trimming after every message keeps the same as trimming once at the end, for any bound that is not negative |
| LogHandler.KeptIdempotent | gradio_interface.py:26-27 | trimming twice is trimming once |
| LogHandler.HistoryOfEmits | gradio_interface.py:17-27 | after a sequence of emits from an empty handler, the history is the trim of everything emitted |
| Text.StripOf | main.py:81 | `strip` removes exactly the surrounding whitespace |
| Text.JoinSplit | LLM_ops.py:185 | joining the pieces of `split('\n')` with the separator gives the text back |
| Text.SplitJoin | LLM_ops.py:185 | splitting a join of separator-free pieces gives the pieces back |
| Text.DecimalRoundTrip | function_ops.py:153 | `int(str(n)) == n` |

## Left out

- The model calls `get_llm1_completion` and `get_llm2_completion`
  (LLM_ops.py:112-164) are network I/O. Their replies are inputs. The
  error-sentinel text they return on failure is just another reply.
- `ast.literal_eval` (LLM_ops.py:182) is Python's literal parser. It is a
  parameter from text to an optional list of strings. Only its `SyntaxError`
  and `ValueError` are modelled (as None); any other exception it might raise is
  not.
- LLMOps.ProcessLLM1Response: the list `literal_eval` returns is restricted to
  strings. In Python `[1, 2]` gives ints (and `['a', ['b']]` a nested list),
  which the function returns as they are and run_agent records as subtask
  descriptions; the model does not represent such elements.
- The contents of perform_tasks.txt (LLM_ops.py:48) are read from a file; they
  are a parameter of the prompt.
- Module importing, `inspect.getmembers`, `inspect.signature`, `json.dumps` and
  `extract_function_metadata` (function_ops.py:31-33, 46-73, 183, 200-213) are
  reflection. A module load is given as its outcome (an exception, or its
  functions with their parameter lists), and the metadata text is a parameter.
- The `logging` calls everywhere, the `loaded_funcs` log line
  (function_ops.py:40-42), the environment and API-key checks and the logging
  set-up are not modelled. They do not change any state the model has.
- FunctionOps.ParseFunctionCall: the outer `except Exception`
  (function_ops.py:161-163) is not modelled. With ASCII input nothing inside it
  raises outside the inner `try`. The conversion failures inside it are caught
  by the inner `except` (function_ops.py:154-155), which keeps the raw string.
  One such failure is `int` of more than 4300 digits, and FunctionOps.Coerce
  models it.
- FunctionOps.Coerce: the 4300-digit limit is CPython's default since 3.11 (and
  3.10.7, 3.9.14). An interpreter without the limit, or one configured
  otherwise (`PYTHONINTMAXSTRDIGITS`, `sys.set_int_max_str_digits`), converts
  longer digit strings too. The model fixes the default.
- What a registered function does when called is not modelled. It is a callee
  parameter, returning `str` of its result or raising with a message. Values
  are modelled as `Str | Bool | None | Int | Float`.
  - Int: keeps its numeric value.
  - Float: keeps its digit text (no floating point).
- run_agent before line 57 (loading, the metadata, the planner call and the log
  lines) is only composition of the modelled parts; it is not modelled as a
  whole.
- FileOps.PathJoin: models POSIX `posixpath.join` only (`/` separator, an
  absolute second part replacing the first). Windows `ntpath.join`, with `\`
  separators and drive letters, is not modelled; that is the platform the
  `remove_readonly` handler (functions/file_ops.py:81-95) is written for.
- FileOps.FileOrganizer.CreateFolders: the default `base_path="."` of
  `ai_create_folders` (functions/file_ops.py:97) is not modelled, since Dafny
  methods have no default arguments. Callers pass the base path explicitly.
- organize_files (functions/file_ops.py:182-199) is not modelled. It only calls
  the four modelled functions in sequence.
- The file-system effects are not modelled: `os.makedirs`, `shutil.rmtree` with
  `remove_readonly`, and `shutil.move` (functions/file_ops.py:81-95, 114,
  125-127, 172). Walk results and listings are inputs, and the moves are an
  output list of (source, destination) paths.
- `os.path.abspath` is a parameter, and `os.path.exists` is whether a walk or
  listing is given.
- `PermissionError` and any other operating-system exception from these calls
  are not modelled.
- The `try`/`except Exception: self.handleError(record)` of `emit`
  (gradio_interface.py:28-29), the formatter, the threads, the streaming
  generator and the Gradio UI (gradio_interface.py:43-123) are left out.
  - The message passed to Emit is the already formatted text.
  - The queue is modelled as a sequence. Its thread safety is not.
- The files functions/email_services.py, functions/file_compression.py and
  functions/text_file_read.py are not part of this model: they are SMTP, HTTP
  and file I/O.
- Python's Unicode semantics of `\w`, `\d`, `\s`, `isspace`, `isdigit` and
  `lower` are restricted to ASCII.
- Several loops are written as helper methods with their own contracts. Each
  one is called from the method that models the source function:
  - SplitArguments and BuildArguments, inside ParseFunctionCall;
  - LoadWalkStep and RegisterModule, inside LoadFunctionsFromDirectory;
  - CollectLines, inside ProcessLLM1Response;
  - RunSubtasks (the loop), with RunSubtask and Record, inside RunAgent;
  - CollectNeeded and AddFolders, inside CreateFolders;
  - ChooseFolder, inside MoveFilesToFolder.
- `clear_logs` empties the accumulated history too (gradio_interface.py:41),
  although its caller's comment says the history is kept
  (gradio_interface.py:54-55). The model follows the code: ClearLogs empties
  both.
