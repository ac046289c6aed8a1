# HackAssistant session core, modelled in Dafny

HackAssistant is a command-line assistant. It takes a line from the user,
logs it, and asks a language model for an answer. The model is told to reply
with a `RESPONSE:` line and a `COMMAND:` line, and the assistant parses the
reply into an explanation and at most one suggested shell command. The
command runs only after the user answers `y`. Its report is logged with the
rest of the conversation so that later turns can see it.

This project models the deterministic part of that loop in
`hackassistant.py` and proves properties of it:

- **Python string built-ins** (`pystr.dfy`, module `PyStr`): `strip`, `upper`,
  `lower`, `startswith`, `replace(old, "")`, `split` and `str(int)`, each with
  the properties the core relies on.
  - Whitespace and letter case are those of the ASCII range.
- **Reply parser** (`parser.dfy`, module `ReplyParser`): the line loop of
  `_get_ai_response`.
  - It is written as the method `ParseReply`, proved equal to the function `Parse`.
  - `Parse` is built from `LastResponse` and `LastCommand`, whose meaning is
    pinned down by characterisation lemmas.
- **Conversation log and prompt** (`conversation.dfy`, module `Conversation`):
  - the entries and roles of `conversation_history`;
  - the ten-entry window;
  - the rendering `ROLE: content`;
  - the system prompt;
  - the prompt-building loop, written as the method `AssemblePrompt`.
- **Command report** (`output.dfy`, module `CommandOutput`): the text
  `_execute_command` builds from the result of the shell call.
- **Session** (`assistant.dfy`, module `Assistant`):
  - the error path of `_get_ai_response`;
  - the answer normalisation of `_get_user_choice`;
  - the loop body of `run`, specified by `TurnSpec` and `ConsentSpec`;
  - the loop itself, specified by `RunSpec`;
  - the class `Session`, which holds the log as a `seq` field. Its methods
    `AddToHistory`, `GetAiResponse`, `ExecuteCommand`, `Turn`, `Consent` and
    `Run` are proved against those specification functions.

The outside world of one turn is bundled into a `TurnWorld` value:

- the input line;
- the model, as a function from prompt to reply or raised error;
- the answer at the consent prompt;
- the shell, as a function from command and working directory to result or raised error;
- the four timestamps.

A session run is modelled over a finite script of such turns.

Some behaviours of the code are easy to miss; the model keeps them:

- **Repeated markers.** The last `RESPONSE:` line wins, even when its text is empty.
- **Fallback.** The whole reply is used whenever the final explanation is empty,
  not only when no marker line exists.
- **`NONE`.** A later `COMMAND: NONE` line does not clear an earlier command.
- **Markers inside the text.** `replace` drops every occurrence of the marker
  in a line, not only the leading one.
- **Invalid answer.** An answer other than `y`/`n` ends the turn without running
  the command; the suggestion is not offered again.

## Model

| member | source | states |
|---|---|---|
| PyStr.Strip | hackassistant.py:124 | `strip()` returns a stripped slice of its input starting at the first non-whitespace character; only whitespace is cut on either side |
| PyStr.StripIdempotent | hackassistant.py:115 | stripping a stripped text changes nothing |
| PyStr.Upper | hackassistant.py:127 | `upper()` keeps the length and maps each character to its upper case |
| PyStr.Lower | hackassistant.py:167 | `lower()` keeps the length and maps each character to its lower case |
| PyStr.UpperIsNone | hackassistant.py:127 | `cmd.upper() == 'NONE'` holds exactly for the sixteen case spellings of "none" |
| PyStr.LowerIsLetter | hackassistant.py:218 | `x.lower()` equals a one-letter word exactly when `x` is that letter in either case |
| PyStr.RemoveAll | hackassistant.py:124 | `replace(marker, '')` never lengthens the line |
| PyStr.RemoveAllPrefixed | hackassistant.py:124 | a leading marker is dropped and the scan resumes right after it |
| PyStr.RemoveAllInner | hackassistant.py:124 | a marker after text that cannot start one is dropped as well, the text before it kept |
| PyStr.RemoveAllAbsent | hackassistant.py:124 | `replace` leaves a line without the marker unchanged |
| PyStr.Split | hackassistant.py:121 | `split('\n')` gives at least one piece, and no piece contains a newline |
| PyStr.JoinSplit | hackassistant.py:121 | joining the pieces of `split` with the separator gives back the reply |
| PyStr.SplitJoin | hackassistant.py:121 | splitting a join of separator-free pieces gives back the pieces |
| PyStr.NatToDecimal | hackassistant.py:157 | `str(n)` of a natural number is non-empty digits with no leading zero |
| PyStr.DecimalRoundTrip | hackassistant.py:157 | the digits of `str(n)` denote `n` |
| PyStr.IntToDecimal | hackassistant.py:157 | `str(code)` is never empty and starts with `-` exactly for negative codes |
| PyStr.IntToDecimalValue | hackassistant.py:157 | the digits of `str(code)` denote the code's magnitude |
| ReplyParser.LastResponse | hackassistant.py:123-124 | the value a `RESPONSE:` line leaves is stripped |
| ReplyParser.LastCommand | hackassistant.py:125-128 | a kept command is stripped, non-empty and not "NONE" |
| ReplyParser.MarkersExclusive | hackassistant.py:123-125 | no line starts with both markers, so the `elif` never hides a `RESPONSE:` line |
| ReplyParser.ParseReply | hackassistant.py:118-134 | the parsing loop returns `Parse(reply)`: the value of the last `RESPONSE:` line if it is non-empty, otherwise the whole reply, and the last actionable command |
| ReplyParser.LastResponseNone | hackassistant.py:118-124 | no explanation is found exactly when no line starts with `RESPONSE:` |
| ReplyParser.LastResponseIsLast | hackassistant.py:122-124 | the last `RESPONSE:` line decides the explanation, whatever came before |
| ReplyParser.LastCommandNone | hackassistant.py:119-128 | no command is suggested exactly when no `COMMAND:` line carries a non-empty value other than "NONE" |
| ReplyParser.LastCommandIsLast | hackassistant.py:125-128 | the last actionable `COMMAND:` line decides the command; later empty or "NONE" lines do not clear it |
| ReplyParser.ExplanationEmptyIffReplyEmpty | hackassistant.py:130-132 | the explanation is empty exactly when the reply is |
| ReplyParser.ExplanationStripped | hackassistant.py:115-132 | a stripped reply gives a stripped explanation |
| ReplyParser.CommandActionable | hackassistant.py:127-128 | a suggested command is never empty and never "none" in any case |
| ReplyParser.UnstructuredReply | hackassistant.py:130-134 | a reply with no marker line is shown whole, with no command |
| ReplyParser.ExplanationFromLastResponse | hackassistant.py:122-132 | the explanation is the last `RESPONSE:` value; if that is empty it is the whole reply, even when an earlier `RESPONSE:` line had text |
| ReplyParser.MarkerValue | hackassistant.py:124-126 | a marker line whose rest has no second marker yields its stripped rest |
| ReplyParser.InnerMarkerRemoved | hackassistant.py:123-124 | a second `RESPONSE:` inside the text is removed too: `RESPONSE: a RESPONSE: b` gives `a  b` |
| ReplyParser.ListsFilesExample | hackassistant.py:118-134 | `RESPONSE: Lists files` / `COMMAND: ls -la` parses to ("Lists files", "ls -la") |
| Conversation.Window | hackassistant.py:102 | the window is the last min(10, n) entries in log order, and the whole log when it has at most ten |
| Conversation.WindowSlides | hackassistant.py:102 | appending an entry adds it to the window and, once the window is full, drops the oldest entry |
| Conversation.RoleLabels | hackassistant.py:106 | roles are shown as `USER`, `ASSISTANT` and `SYSTEM` |
| Conversation.RenderConcat | hackassistant.py:105-106 | rendering the history lines distributes over concatenation |
| Conversation.RenderedWindowIsTail | hackassistant.py:102-106 | the rendered window is the tail of the rendering of the whole log |
| Conversation.AssemblePrompt | hackassistant.py:102-108 | the prompt loop gives system prompt, history header, the window's lines, the `USER:` line and the format reminder |
| Conversation.PromptRepeatsUserLine | hackassistant.py:226-230 | the user line is logged before the call, so the window in the prompt ends with that line |
| CommandOutput.FormatOutput | hackassistant.py:151-159 | the report is never empty, and its first letter is that of `STDOUT`, `STDERR`, `Return code` or the fixed message (the four `FormatOutput*` lemmas pin the full headings) |
| CommandOutput.BuildReport | hackassistant.py:151-159 | the `output +=` steps give `FormatOutput` |
| CommandOutput.FormatOutputStdout | hackassistant.py:152-153 | the report opens with a `STDOUT:` section exactly when stdout is non-empty |
| CommandOutput.FormatOutputStderr | hackassistant.py:154-155 | a `STDERR:` section follows exactly when stderr is non-empty |
| CommandOutput.FormatOutputReturnCode | hackassistant.py:156-157 | the report ends with `Return code: <code>` exactly when the code is not 0 |
| CommandOutput.FormatOutputNoOutput | hackassistant.py:151-159 | the fixed "no output" message is the report exactly when stdout and stderr are empty and the code is 0 |
| CommandOutput.CommandReport | hackassistant.py:139-162 | a report starts with the execution-error prefix exactly when the shell call raised |
| Assistant.AiResponse | hackassistant.py:115-137 | a reply gives a stripped explanation, empty only for a blank reply; a raised error gives the error prefix and no command |
| Assistant.ConsentIsY | hackassistant.py:164-167 | the normalised answer is `y` exactly when the stripped answer is `y` or `Y` |
| Assistant.SpecialInputKeepsHistory | hackassistant.py:212-223 | a blank, `c` or `p` line (after strip, either case) leaves the log unchanged, and every other line adds to it |
| Assistant.OnlyCCloses | hackassistant.py:218-220 | a turn closes the conversation exactly when the line is `c` |
| Assistant.TurnLogsUserThenAssistant | hackassistant.py:226-237 | an ordinary line logs a `user` entry and then the `assistant` explanation after the unchanged earlier entries |
| Assistant.ConsentAppends | hackassistant.py:240-262 | the consent step runs the command exactly on `y`; otherwise it adds nothing to the log |
| Assistant.ExecutesOnlyOnConsent | hackassistant.py:240-262 | the command runs exactly when one was suggested and the answer is `y`, and then the `Executed command:` and `Command output:` system entries follow in that order |
| Assistant.TurnAppendOnly | hackassistant.py:84-90 | a turn keeps every earlier log entry |
| Assistant.RunAppendOnly | hackassistant.py:209-265 | a whole run keeps every earlier log entry |
| Assistant.RunStopsAtStopPoint | hackassistant.py:209-223 | whether a run closes, and how many turns it plays, depend only on the input lines, not on the log or the model |
| Assistant.StopPointIsFirstClose | hackassistant.py:214-220 | the stopping point is the first `c` line; without one it is the end of the script |
| Assistant.RunStopsAtFirstClose | hackassistant.py:209-223 | the run stops at the first `c` line; if there is none it plays every turn |
| Assistant.Session.constructor | hackassistant.py:30-36 | a new session has an empty log and the system prompt of its context |
| Assistant.Session.AddToHistory | hackassistant.py:84-90 | the log grows by exactly the given entry, and earlier entries are unchanged |
| Assistant.Session.GetAiResponse | hackassistant.py:92-137 | the model sees the prompt built from the current window, and its reply is turned into a suggestion by `AiResponse` |
| Assistant.Session.ExecuteCommand | hackassistant.py:139-162 | the command runs in the session's working directory, and its report is `CommandReport` |
| Assistant.Session.Consent | hackassistant.py:239-262 | the consent step moves the log as `ConsentSpec` says |
| Assistant.Session.Turn | hackassistant.py:210-265 | one pass of the loop body moves the log and ends as `TurnSpec` says |
| Assistant.Session.Run | hackassistant.py:205-265 | the loop over a script of turns ends with the log, close flag and turn count of `RunSpec` |

## Left out

- The Gemini client and the `generate_content` call (hackassistant.py:28, 111-115) are a network call. Each turn's model is a function from prompt to a reply text or a raised error.
- `subprocess.run` and the shell (hackassistant.py:143-149) are process I/O. Each turn's shell is a function from command and working directory to the three results or a raised error.
- `input`, `print`, the banner and the ANSI colours (hackassistant.py:38-47, 172-203 and the prints in `run`) are terminal I/O. The input line and the consent answer are values of the turn.
- Reading the API key from the environment, and the exit when it is missing (hackassistant.py:20-25), are not modelled. Neither is the `platform` query (hackassistant.py:49-55). The context is a parameter of the constructor.
- `datetime.now()` (hackassistant.py:35, 89) is not modelled. Timestamps are opaque strings supplied with each turn.
- `KeyboardInterrupt` and the catch-all handlers (hackassistant.py:168-170, 267-272, 280-284) are not modelled. Neither is the `main` entry point.
- Assistant.Session.Run: the source loops `while True`. The model runs over a finite script of turns, and the end of the script stands for the interrupt that ends a session. At end of input, `input` raises `EOFError`, which the catch-all handler swallows, so the source would loop forever; this is not modelled.
- PyStr.Strip: the whitespace set is ASCII (space, tab through carriage return, and `\x1c`-`\x1f`). Python's Unicode whitespace is not modelled.
- PyStr.Upper: only the ASCII letters `a`-`z` are mapped. Python's full Unicode case mapping is not modelled.
- PyStr.Lower: only the ASCII letters `A`-`Z` are mapped. Python's full Unicode case mapping is not modelled.
- Assistant.Session.GetAiResponse: `_create_system_prompt()` depends only on the fixed context. The model computes it once, in the constructor, and keeps it in `systemPrompt`.
