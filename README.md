# SocketCmd connection protocol, in Dafny

SocketCmd is a small server on a Unix domain socket. Clients send newline-separated
text commands and the server answers with coded status lines. Each connection is
served by a `SocketCmdProtocol` object, which has two parts:

- **The framer** (`process_data`, `eof_received`). It appends every decoded chunk
  to the pending text `waiting_data`. Once that text holds a newline, the server
  takes all of it out and hands it to the dispatcher as one batch. At the end of
  the stream, whatever is still pending is handed over as a last batch.
- **The dispatcher** (`handle_lines`). It splits a batch on `"\n"` and tokenises
  each line as Python's `str.split()` does. It answers the first non-blank lines
  by their first token:
  - `hi` gives `000 HI`.
  - `sleep` gives `005 ZZZ`.
  - `bool [true|false]` runs the program `true` or `false` and reports its exit
    status.
  - `date` gives `220 DATE` followed by the output of `date +%s`.
  - Anything else gives `400 BAD COMMAND`.

  Every command except `date` ends the handling of its batch.

The project has three modules:

- `Text` (`text.dfy`) models the Python string behaviour the handler relies on:
  - `s.split("\n")`;
  - `s.split()` with Python's own whitespace set;
  - `str(n)` for integers.

  It proves that splitting and joining are inverse, that tokens are exactly the
  maximal whitespace-free runs, and that printed numbers read back.
- `Commands` (`commands.dfy`) models the dispatcher as functions:
  - `HandleLine` answers one line;
  - `Replies` and `Dispatch` answer a batch.

  Lemmas state each command's reply and how a batch is cut short.
- `Protocol` (`protocol.dfy`) models the protocol object as the class
  `SocketCmdProtocol`:
  - `waitingData` is the pending text;
  - `sent` is the list of lines written to the transport.

  Its `HandleLines` is a loop proved to write exactly `Dispatch(data, env)`. Its
  `ProcessData` and `EofReceived` are proved against the pure framing step
  `FrameStep`. A ghost invariant states that no received text is lost,
  duplicated or reordered. Over a whole stream of chunks, `FrameAll` carries the
  same facts by induction.

  `ClientDemo` replays the demonstration client's session on one connection. It
  is proved to produce, line for line, the responses the test script expects, up
  to the two date payloads, which are inputs.

Everything a batch learns from outside the process is an input, `Commands.Env`:

- the random pick for a bare `bool`;
- the exit status of `true` and `false`;
- what `date +%s` prints.

The five-second pause of `sleep` does nothing in the model.

Some behaviours of the code differ from what a reader of the protocol might
expect. The model follows the code:

- **A partial line is dispatched with its batch.** One might expect a partial
  line to wait for its newline. In the code, once the pending text holds any
  newline, all of it is dispatched, including text after the last newline
  (`FrameStep`).
- **The end of the stream does not clear the pending text.** The code hands the
  pending text to the dispatcher and leaves the field as it was
  (`EofReceived`).
- **A batch is cut short after its first non-`date` command.** One might expect
  every non-blank line of a batch to get its own response. In the code,
  `sleep`, `hi`, `bool` and unknown commands `return`, so the rest of the batch
  is dropped (`FinalReply`, `FinalCommandDropsRest`, `OnlyDatesBeforeLast`). `date` has no
  `return`, so handling goes on after it (`DateContinues`).
- **`bool` echoes its argument as a Python bytes literal.** It prints
  `b'true'` or `b'false'`, not the bare word (`BoolReplyTexts`).
- **Extra `bool` arguments are ignored.** Only the first one is looked at
  (`BoolFirstArgumentOnly`).
- **Error codes are not always three digits starting with 4.** The error code
  is `410 + n` for any nonzero status `n`. For a positive status it starts with
  4 only for `n` from 1 to 89, and keeps three digits only up to 589. A program
  killed by signal `k` has status `-k`: signals 1 to 10 give codes 409 down to
  400 (SIGKILL gives `401`), and higher signals give smaller codes that are no
  longer three digits starting with 4 (`BoolErrorCodeDigits`).

## Model

| member | source | states |
|---|---|---|
| Text.IsSpace | socketcmd_server.py:93 | the characters Python's `str.isspace()` accepts, the separators of `line.split()` |
| Text.SplitOn | socketcmd_server.py:91 | `data.split("\n")`: at least one piece, and no piece holds the separator (pinned down by `JoinSplitOn` and `SplitOnJoin`) |
| Text.Tokens | socketcmd_server.py:93 | `line.split()`: the maximal whitespace-free runs in order (pinned down by `TokensEmpty` for blank text, `TokensSpaceCons` for leading whitespace, `TokensCons` for a leading word followed by whitespace and `TokensOfWord` for a lone word; `TokensAreWords` and `TokensOfJoin` follow) |
| Text.IntToString | socketcmd_server.py:122-123 | `str(code)`: never empty, led by `-` exactly for negative codes (read back by `ParseIntToString`) |
| Commands.BytesRepr | socketcmd_server.py:119-123 | how a bytes argument is formatted: the argument, three characters longer, led by `b'` and closed by `'` |
| Commands.BoolReply | socketcmd_server.py:106-124 | the reply to `bool`; every such reply ends with a newline (its cases are given by `BoolReplyByExitStatus`, `BoolInvalidArgument`) |
| Commands.Respond | socketcmd_server.py:93-133 | the reply to a line's tokens: nothing exactly when there are no tokens; a reply ends the batch exactly when the command is not `date` |
| Commands.HandleLine | socketcmd_server.py:92-133 | the reply to one line of a batch, as `Respond` to its `split()` tokens (its cases are given by the reply lemmas below) |
| Commands.Replies | socketcmd_server.py:91-133 | the responses written for the lines from position `i` on, in order; at most one per line (fixed on every input by `BlankLinesSkipped` for a blank line, `DateContinues` for a `date` line, `FinalReply` for any other command, and `SilentIffBlank` for the end) |
| Commands.Dispatch | socketcmd_server.py:89-133 | the responses written for one batch (its properties are `SilentIffBlank`, `BlankLinesSkipped`, `DateContinues`, `FinalReply`, `OnlyDatesBeforeLast`, `FinalCommandDropsRest`, `OneLineBatch`) |
| Protocol.FrameStep | socketcmd_server.py:76-83 | what one chunk does to the pending text (its properties are `FrameStepFacts`) |
| Protocol.FrameAll | socketcmd_server.py:78-83 | the framer applied over a whole stream of chunks, never forced; at most one batch per chunk |
| Text.JoinSplitOn | socketcmd_server.py:91 | joining the pieces of `data.split("\n")` back with `"\n"` gives `data`: splitting loses and adds nothing |
| Text.SplitOnJoin | socketcmd_server.py:91 | splitting a `"\n"`-join of newline-free lines gives those lines back |
| Text.SplitOnCons | socketcmd_server.py:91 | a newline-free line followed by a newline splits off as the first piece |
| Text.TokensAreWords | socketcmd_server.py:93 | every token of `line.split()` is non-empty and free of whitespace |
| Text.TokensEmpty | socketcmd_server.py:92-95 | `line.split()` is empty (the unpacking fails and the line is skipped) exactly when the line is blank |
| Text.TokensSpaceCons | socketcmd_server.py:93 | leading whitespace does not change the tokens |
| Text.TokensOfWord | socketcmd_server.py:93 | a lone word is its own single token |
| Text.TokensCons | socketcmd_server.py:93 | a word followed by whitespace: the word is the first token and the tokens of the rest follow |
| Text.TokensOfJoin | socketcmd_server.py:93 | words written with single spaces tokenise back to exactly those words |
| Text.FirstWordUnique | socketcmd_server.py:93 | a first word followed by whitespace is determined by the text |
| Text.ParseIntToString | socketcmd_server.py:122-123 | the decimal text `str(code)` reads back as `code`, for every integer including negatives |
| Text.IntToStringInjective | socketcmd_server.py:122-123 | different codes print differently |
| Text.IntToStringFollowedBySpace | socketcmd_server.py:123 | a printed code followed by ` ERROR …` determines both the code and what follows |
| Text.ThreeDigits | socketcmd_server.py:122-123 | codes from 100 to 999 print as three digits led by their hundreds digit |
| Commands.HandleLineKinds | socketcmd_server.py:92-133 | a line gets a response exactly when it is not blank; handling stops after it exactly when its command is not `date` |
| Commands.CommandLine | socketcmd_server.py:93 | a command and arguments written with single spaces are answered as exactly those tokens |
| Commands.HiReply | socketcmd_server.py:103-105 | a line whose first token is `hi` gets `000 HI\n` and ends the batch |
| Commands.SleepReply | socketcmd_server.py:99-102 | a line whose first token is `sleep` gets `005 ZZZ\n` and ends the batch |
| Commands.DateReply | socketcmd_server.py:125-130 | a line whose first token is `date` gets `220 DATE ` plus the program's output, with no newline added, and the batch goes on (at batch level, `DateContinues`) |
| Commands.UnknownCommandReply | socketcmd_server.py:131-133 | any other first token, compared case-sensitively, gets `400 BAD COMMAND\n` and ends the batch |
| Commands.ArgumentsIgnored | socketcmd_server.py:93-105 | for any command but `bool`, whitespace and anything after the first token change nothing |
| Commands.BoolFirstArgumentOnly | socketcmd_server.py:106-110 | two `bool` lines with the same first argument (or none) get the same reply |
| Commands.BoolInvalidArgument | socketcmd_server.py:111-113 | a first argument other than exactly `true`/`false` gets `409 INVALID ARGUMENT\n` whatever the exit statuses |
| Commands.BoolReplyByExitStatus | socketcmd_server.py:106-124 | a valid `bool` gets the OK reply for status 0 and the error reply with code `410 + n` for any other status `n`; a bare `bool` uses the random pick |
| Commands.BoolReplyTexts | socketcmd_server.py:119-123 | the replies read `210 OK b'<arg>'\n` and `<code> ERROR b'<arg>'\n` |
| Commands.ErrorRepliesDiffer | socketcmd_server.py:121-123 | two error replies for the same argument are equal only when their codes are |
| Commands.ErrorReplyIsNotOk | socketcmd_server.py:118-123 | no error reply equals the success reply |
| Commands.BoolReplyDeterminesExitStatus | socketcmd_server.py:115-124 | the reply to a valid `bool` determines the exit status of the program |
| Commands.BoolWithUsualExitStatuses | socketcmd_server.py:106-124 | when `true` exits 0 and `false` exits 1: `bool true` gets `210 OK b'true'`, `bool false` gets `411 ERROR b'false'`, and a bare `bool` gets whichever one the pick chose |
| Commands.UsualReplyTexts | socketcmd_server.py:119-123 | the success reply for `true` is `210 OK b'true'\n`; the error reply with code 411 for `false` is `411 ERROR b'false'\n` |
| Commands.BoolErrorCodeDigits | socketcmd_server.py:122 | for statuses -10 to 589 other than 0 the code has three digits; it starts with 4 exactly for statuses below 90 |
| Commands.SilentIffBlank | socketcmd_server.py:91-95 | a batch gets no response exactly when all its lines are blank |
| Commands.BlankLinesSkipped | socketcmd_server.py:91-95 | blank lines are passed over: handling resumes at the next line as if they were absent |
| Commands.OnlyDatesBeforeLast | socketcmd_server.py:99-133 | every response of a batch but the last is a `220 DATE` line |
| Commands.DateContinues | socketcmd_server.py:125-130 | a `date` line does not end its batch: its reply `220 DATE ` plus the program's output is followed by the replies to the lines after it |
| Commands.FinalReply | socketcmd_server.py:91-133 | a `sleep`, `hi`, `bool` or unknown command at any position gets a reply, and that reply is the last response of the batch |
| Commands.FinalCommandDropsRest | socketcmd_server.py:99-133 | after a `sleep`, `hi`, `bool` or unknown command, the lines that follow never affect the responses |
| Commands.OneLineBatch | socketcmd_server.py:89-95 | a batch of one line and its newline gets that line's response alone, or none if the line is blank |
| Protocol.FrameStepFacts | socketcmd_server.py:76-83 | one chunk: the dispatched batch followed by the new pending text is the old pending text plus the chunk; dispatch happens exactly when that holds a newline or is forced; then nothing is pending; no newline is ever left pending |
| Protocol.FrameAllKeepsData | socketcmd_server.py:78-83 | over any stream of chunks, the batches dispatched followed by the pending text are exactly everything received, in order |
| Protocol.FrameAllBatchesHoldNewlines | socketcmd_server.py:80-83 | without forcing, every batch dispatched holds a newline and the pending text never does |
| Protocol.FrameAllWholeLines | socketcmd_server.py:80-83 | a stream whose last chunk holds a newline leaves nothing pending |
| Protocol.SocketCmdProtocol.constructor | socketcmd_server.py:50-54 | a new connection has nothing pending, has written nothing, and satisfies the no-loss invariant |
| Protocol.SocketCmdProtocol.Output | socketcmd_server.py:71-74 | the line is appended to what was written to the transport |
| Protocol.SocketCmdProtocol.HandleLines | socketcmd_server.py:89-133 | the loop over the lines writes exactly the batch's responses `Dispatch(data, env)` and nothing else |
| Protocol.SocketCmdProtocol.ProcessData | socketcmd_server.py:76-83 | the new pending text and the returned batch are the framing step of the old pending text and the chunk; a dispatched batch's responses are written; the no-loss invariant is kept |
| Protocol.SocketCmdProtocol.EofReceived | socketcmd_server.py:85-87 | exactly the pending text is dispatched, and its responses written; the field is unchanged; with earlier batches it makes up all that was received |
| Protocol.WordRequest | socketcmd_server.py:92-93 | a one-word line is not blank and is answered as that word alone |
| Protocol.HiRequest | socketcmd_server.py:103-105 | the line `hi` is answered `000 HI\n` |
| Protocol.SleepRequest | socketcmd_server.py:99-102 | the line `sleep` is answered `005 ZZZ\n` |
| Protocol.DateRequest | socketcmd_server.py:125-130 | the line `date` is answered `220 DATE ` plus the program's output |
| Protocol.BareBoolRequest | socketcmd_server.py:106-124 | the line `bool` is answered according to the pick when `true` exits 0 and `false` exits 1 |
| Protocol.BoolArgumentRequest | socketcmd_server.py:106-124 | the lines `bool true` and `bool false` are answered `210 OK b'true'\n` and `411 ERROR b'false'\n` |
| Protocol.BoolArgumentTokens | socketcmd_server.py:93 | `bool true` and `bool false` tokenise as two words |
| Protocol.Send | socketcmd_client_demo.py:38-41 | one whole non-blank line sent as one chunk gets exactly that line's response and leaves nothing pending |
| Protocol.SendHi | socketcmd_client_demo.py:51 | sending `hi\n` writes `000 HI\n` |
| Protocol.SendSleep | socketcmd_client_demo.py:57 | sending `sleep\n` writes `005 ZZZ\n` |
| Protocol.SendDate | socketcmd_client_demo.py:56 | sending `date\n` writes `220 DATE ` plus the program's output |
| Protocol.SendBareBool | socketcmd_client_demo.py:52-53 | sending `bool\n` writes the reply for the random pick |
| Protocol.SendBool | socketcmd_client_demo.py:54-55 | sending `bool true\n` or `bool false\n` writes its usual reply |
| Protocol.ClientDemo | run_test.py:42-58 | the demonstration session's eight requests get, in order, exactly the responses the test script checks, up to the two date payloads, which are inputs (the script's check that they are 4 to 6 seconds apart is not modelled) |

## Left out

- The program's entry point `main` (socketcmd_server.py:136-182) is not modelled. It is argument parsing, socket creation, permissions, ownership, privilege drop, signal handling and event-loop setup.
- `connection_made`, `connection_lost` and logging are not modelled. They only record the transport and write log messages.
- `data_received` only schedules `process_data`. Under asyncio, batches from successive chunks could interleave while a batch waits on a subprocess or on the five-second sleep. The model handles each batch to completion before the next.
- Running `true`, `false` and `date +%s`, the random pick and the sleep are not modelled. They appear only through `Env`. `Env.dateOutput` is keyed by the line's position in its batch, which stands in for the time of the call.
- Failures from outside are not modelled: a program that cannot be started, or exception paths in the subprocess calls.
- UTF-8 decoding of chunks and encoding of responses are not modelled. Chunks are already-decoded text and responses are text. A multi-byte character split across two chunks would make `decode` raise; the model does not capture this.
- `Commands.BytesRepr`: only models Python's bytes formatting for printable ASCII without quotes or backslashes. That covers the only values it is given here, `true` and `false`.
- `eof_received` returns nothing, so asyncio closes the transport after it. The `output` calls of the end-of-stream batch write to a closing transport, and may never reach the client. The model still records them in `sent`.
- The `force_cmd` parameter of `process_data` is modelled by `ProcessData`, but no caller ever passes `True`. The stream-level lemmas (`FrameAll…`) therefore assume it is never forced.
