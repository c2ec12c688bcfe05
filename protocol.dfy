/** One SocketCmd connection: the protocol object that collects the chunks a client
    sends into batches of lines (the framer) and writes a response for each batch (the
    dispatcher of module `Commands`). */
module Protocol {
  import opened Text
  import opened Commands

  datatype Option<T> = None | Some(value: T)

  /** The concatenation of `parts`, in order. */
  function Flatten(parts: seq<string>): (s: string)
    ensures |parts| == 1 ==> s == parts[0]
  {
    if parts == [] then "" else parts[0] + Flatten(parts[1..])
  }

  lemma {:induction false} FlattenAppend(parts: seq<string>, more: seq<string>)
    ensures Flatten(parts + more) == Flatten(parts) + Flatten(more)
    decreases |parts|
  {
    if parts == [] {
      assert parts + more == more;
    } else {
      assert (parts + more)[1..] == parts[1..] + more;
      FlattenAppend(parts[1..], more);
    }
  }

  // ---------------------------------------------------------------------------
  // The framer as a function of its inputs

  /** What one chunk does to the pending text: the batch handed to the dispatcher, if
      any, and the text left pending. */
  datatype Step = Step(batch: Option<string>, waiting: string)

  /** The chunk is appended to the pending text; a newline anywhere in the result (or a
      forced dispatch) sends all of it, including a partial line after the last newline,
      and leaves nothing pending. */
  function FrameStep(waiting: string, chunk: string, force: bool): Step
  {
    var buffer := waiting + chunk;
    if '\n' in buffer || force then Step(Some(buffer), "") else Step(None, buffer)
  }

  /** The batches a step dispatches, as a list of zero or one. */
  function Dispatched(step: Step): (batches: seq<string>)
    ensures |batches| <= 1
    ensures step.batch.Some? <==> |batches| == 1
  {
    if step.batch.Some? then [step.batch.value] else []
  }

  /** One step loses nothing, adds nothing and keeps the order: the batch it dispatches
      followed by the new pending text is the old pending text followed by the chunk. It
      dispatches exactly when that text holds a newline or the dispatch is forced, and
      no newline is ever left pending. */
  lemma FrameStepFacts(waiting: string, chunk: string, force: bool)
    ensures var step := FrameStep(waiting, chunk, force);
            && Flatten(Dispatched(step)) + step.waiting == waiting + chunk
            && (step.batch.Some? <==> '\n' in waiting + chunk || force)
            && (step.batch.Some? ==> step.waiting == "")
            && '\n' !in step.waiting
  {
    var step := FrameStep(waiting, chunk, force);
    if step.batch.Some? {
      assert step.waiting == "";
    }
  }

  /** Where a stream of chunks leaves the framer: every batch dispatched on the way, in
      order, and what is then pending. No caller ever forces a dispatch. */
  datatype Framed = Framed(batches: seq<string>, waiting: string)

  function FrameAll(waiting: string, chunks: seq<string>): (f: Framed)
    ensures |f.batches| <= |chunks|
    decreases |chunks|
  {
    if chunks == [] then Framed([], waiting)
    else
      var step := FrameStep(waiting, chunks[0], false);
      var rest := FrameAll(step.waiting, chunks[1..]);
      Framed(Dispatched(step) + rest.batches, rest.waiting)
  }

  /** Over a whole stream nothing is lost, duplicated or reordered: the batches
      dispatched, followed by the text still pending, are exactly what was pending
      before followed by every chunk received. */
  lemma {:induction false} FrameAllKeepsData(waiting: string, chunks: seq<string>)
    ensures var f := FrameAll(waiting, chunks);
            Flatten(f.batches) + f.waiting == waiting + Flatten(chunks)
    decreases |chunks|
  {
    if chunks != [] {
      var step := FrameStep(waiting, chunks[0], false);
      var rest := FrameAll(step.waiting, chunks[1..]);
      FrameStepFacts(waiting, chunks[0], false);
      FrameAllKeepsData(step.waiting, chunks[1..]);
      FlattenAppend(Dispatched(step), rest.batches);
      var head := Flatten(Dispatched(step));
      assert (head + Flatten(rest.batches)) + rest.waiting == head + (Flatten(rest.batches) + rest.waiting);
      assert head + (step.waiting + Flatten(chunks[1..])) == (head + step.waiting) + Flatten(chunks[1..]);
      assert (waiting + chunks[0]) + Flatten(chunks[1..]) == waiting + (chunks[0] + Flatten(chunks[1..]));
    }
  }

  /** Without forcing, every batch holds a newline, and the text left pending never
      does (when none was pending to begin with). */
  lemma {:induction false} FrameAllBatchesHoldNewlines(waiting: string, chunks: seq<string>)
    requires '\n' !in waiting
    ensures var f := FrameAll(waiting, chunks);
            && (forall k :: 0 <= k < |f.batches| ==> '\n' in f.batches[k])
            && '\n' !in f.waiting
    decreases |chunks|
  {
    if chunks != [] {
      var step := FrameStep(waiting, chunks[0], false);
      FrameStepFacts(waiting, chunks[0], false);
      FrameAllBatchesHoldNewlines(step.waiting, chunks[1..]);
    }
  }

  /** A stream whose last chunk ends a line leaves nothing pending: a client that always
      sends whole lines is answered for all of them without needing the end of the
      stream. */
  lemma {:induction false} FrameAllWholeLines(waiting: string, chunks: seq<string>)
    requires chunks != [] && '\n' in chunks[|chunks| - 1]
    ensures FrameAll(waiting, chunks).waiting == ""
    decreases |chunks|
  {
    var step := FrameStep(waiting, chunks[0], false);
    if |chunks| == 1 {
      assert '\n' in waiting + chunks[0] by {
        var k :| 0 <= k < |chunks[0]| && chunks[0][k] == '\n';
        assert (waiting + chunks[0])[|waiting| + k] == '\n';
      }
    } else {
      FrameAllWholeLines(step.waiting, chunks[1..]);
    }
  }

  // ---------------------------------------------------------------------------
  // The protocol object

  /** The per-connection state: the text received but not yet dispatched, and the
      response lines written to the transport so far. The ghost fields record everything
      received and every batch dispatched, to state that the framer loses nothing. */
  class SocketCmdProtocol {
    var waitingData: string
    var sent: seq<string>
    ghost var received: string
    ghost var dispatched: seq<string>

    /** Every character received has been dispatched once, in order, or is pending; a
        pending text never holds a complete line. */
    ghost predicate Valid()
      reads this
    {
      Flatten(dispatched) + waitingData == received && '\n' !in waitingData
    }

    constructor ()
      ensures Valid()
      ensures waitingData == "" && sent == []
      ensures received == "" && dispatched == []
    {
      waitingData := "";
      sent := [];
      received := "";
      dispatched := [];
    }

    /** Writes one response line to the transport. */
    method Output(line: string)
      modifies this`sent
      ensures sent == old(sent) + [line]
    {
      sent := sent + [line];
    }

    /** Handles one batch: its `"\n"`-separated lines in order, blank ones passed over,
        until a command that ends the batch. */
    method HandleLines(data: string, env: Env)
      modifies this`sent
      ensures sent == old(sent) + Dispatch(data, env)
    {
      var lines := SplitOn(data, '\n');
      var i := 0;
      while i < |lines|
        invariant 0 <= i <= |lines|
        invariant sent + Replies(lines, i, env) == old(sent) + Dispatch(data, env)
        decreases |lines| - i
      {
        var outcome := HandleLine(lines[i], i, env);
        if outcome.Skip? {
          i := i + 1;
          continue;
        }
        Output(outcome.text);
        if outcome.stop {
          return;
        }
        i := i + 1;
      }
    }

    /** Receives one decoded chunk: it is appended to the pending text, and if that now
        holds a newline (or the dispatch is forced) all of it is taken out and handled as
        one batch, which is returned. */
    method ProcessData(chunk: string, forceCmd: bool, env: Env) returns (batch: Option<string>)
      requires Valid()
      modifies this
      ensures Valid()
      ensures received == old(received) + chunk
      ensures Step(batch, waitingData) == FrameStep(old(waitingData), chunk, forceCmd)
      ensures dispatched == old(dispatched) + Dispatched(Step(batch, waitingData))
      ensures batch.Some? ==> sent == old(sent) + Dispatch(batch.value, env)
      ensures batch.None? ==> sent == old(sent)
    {
      FrameStepFacts(waitingData, chunk, forceCmd);
      waitingData := waitingData + chunk;
      received := received + chunk;
      if '\n' in waitingData || forceCmd {
        var data := waitingData;
        waitingData := "";
        FlattenAppend(dispatched, [data]);
        dispatched := dispatched + [data];
        HandleLines(data, env);
        batch := Some(data);
      } else {
        batch := None;
      }
    }

    /** The end of the stream: the pending text, whatever it is, is handled as a last
        batch; the field itself is left as it was. Together with what was dispatched
        before, that batch is everything received. */
    method EofReceived(env: Env) returns (batch: string)
      requires Valid()
      modifies this`sent
      ensures batch == old(waitingData) && waitingData == old(waitingData)
      ensures Flatten(dispatched) + batch == received
      ensures sent == old(sent) + Dispatch(batch, env)
    {
      batch := waitingData;
      HandleLines(batch, env);
    }
  }

  // ---------------------------------------------------------------------------
  // The demonstration client

  /** The world the demonstration runs in: `true` exits 0, `false` exits 1, a bare
      `bool` picks `pick`, and `date` prints `date`. */
  function UsualEnv(pick: bool, date: string): (env: Env)
    ensures env.exitStatus("true") == 0 && env.exitStatus("false") == 1
  {
    Env(pick, (p: string) => if p == "true" then 0 else 1, (i: nat) => date)
  }

  /** The server's side of one request of a client that sends whole lines: a non-blank
      line and its newline, sent as one chunk while nothing is pending, is answered with
      that line's response and nothing else, and leaves nothing pending. */
  method Send(p: SocketCmdProtocol, line: string, env: Env, reply: string)
    requires p.Valid() && p.waitingData == ""
    requires '\n' !in line && !IsBlank(line)
    requires HandleLine(line, 0, env).Reply? && HandleLine(line, 0, env).text == reply
    modifies p
    ensures p.Valid() && p.waitingData == ""
    ensures p.sent == old(p.sent) + [reply]
  {
    OneLineBatch(line, env);
    assert (line + "\n")[|line|] == '\n';
    assert p.waitingData + (line + "\n") == line + "\n";
    var batch := p.ProcessData(line + "\n", false, env);
  }

  /** A one-word request is not blank and is handled as that word alone. */
  lemma WordRequest(w: string, env: Env)
    requires IsWord(w)
    ensures !IsBlank(w) && HandleLine(w, 0, env) == Respond([w], 0, env)
  {
    TokensOfWord(w);
    TokensEmpty(w);
  }

  // `HiRequest`, `SleepRequest` and `DateRequest` specialise `HiReply`, `SleepReply` and
  // `DateReply` to the literal one-word lines a client sends, so that the `Send…`
  // methods below need not unfold the tokeniser on a literal themselves.

  lemma HiRequest(env: Env)
    ensures !IsBlank("hi") && HandleLine("hi", 0, env) == Reply("000 HI\n", true)
  {
    assert IsWord("hi");
    WordRequest("hi", env);
  }

  lemma SleepRequest(env: Env)
    ensures !IsBlank("sleep") && HandleLine("sleep", 0, env) == Reply("005 ZZZ\n", true)
  {
    assert IsWord("sleep");
    WordRequest("sleep", env);
  }

  lemma DateRequest(env: Env)
    ensures !IsBlank("date") && HandleLine("date", 0, env) == Reply("220 DATE " + env.dateOutput(0), false)
  {
    assert IsWord("date");
    WordRequest("date", env);
  }

  lemma BareBoolRequest(pick: bool, date: string)
    ensures !IsBlank("bool") && HandleLine("bool", 0, UsualEnv(pick, date)).text ==
              if pick then "210 OK b'true'\n" else "411 ERROR b'false'\n"
  {
    assert IsWord("bool");
    WordRequest("bool", UsualEnv(pick, date));
    TokensOfWord("bool");
    BoolWithUsualExitStatuses("bool", 0, UsualEnv(pick, date));
  }

  lemma BoolArgumentRequest(arg: string, pick: bool, date: string)
    requires arg == "true" || arg == "false"
    ensures '\n' !in "bool " + arg && !IsBlank("bool " + arg)
    ensures HandleLine("bool " + arg, 0, UsualEnv(pick, date)).text ==
              if arg == "true" then "210 OK b'true'\n" else "411 ERROR b'false'\n"
  {
    BoolArgumentTokens(arg);
    TokensEmpty("bool " + arg);
    BoolWithUsualExitStatuses("bool " + arg, 0, UsualEnv(pick, date));
    NoNewlineInBoolLine(arg);
  }

  // A proof helper only: kept apart so that `BoolArgumentRequest` stays within the
  // resource limit.
  lemma NoNewlineInBoolLine(arg: string)
    requires arg == "true" || arg == "false"
    ensures '\n' !in "bool " + arg
  {
  }

  lemma BoolArgumentTokens(arg: string)
    requires arg == "true" || arg == "false"
    ensures Tokens("bool " + arg) == ["bool", arg]
  {
    assert IsWord("bool") && IsWord(arg);
    assert "bool " + arg == Join(["bool", arg], ' ');
    TokensOfJoin(["bool", arg]);
  }

  /** `hi\n` on a connection with nothing pending. */
  method SendHi(p: SocketCmdProtocol, env: Env)
    requires p.Valid() && p.waitingData == ""
    modifies p
    ensures p.Valid() && p.waitingData == ""
    ensures p.sent == old(p.sent) + ["000 HI\n"]
  {
    HiRequest(env);
    Send(p, "hi", env, "000 HI\n");
  }

  /** `sleep\n` on a connection with nothing pending. */
  method SendSleep(p: SocketCmdProtocol, env: Env)
    requires p.Valid() && p.waitingData == ""
    modifies p
    ensures p.Valid() && p.waitingData == ""
    ensures p.sent == old(p.sent) + ["005 ZZZ\n"]
  {
    SleepRequest(env);
    Send(p, "sleep", env, "005 ZZZ\n");
  }

  /** `date\n` on a connection with nothing pending. */
  method SendDate(p: SocketCmdProtocol, env: Env)
    requires p.Valid() && p.waitingData == ""
    modifies p
    ensures p.Valid() && p.waitingData == ""
    ensures p.sent == old(p.sent) + ["220 DATE " + env.dateOutput(0)]
  {
    DateRequest(env);
    Send(p, "date", env, "220 DATE " + env.dateOutput(0));
  }

  /** `bool\n` on a connection with nothing pending, in the usual world. */
  method SendBareBool(p: SocketCmdProtocol, pick: bool)
    requires p.Valid() && p.waitingData == ""
    modifies p
    ensures p.Valid() && p.waitingData == ""
    ensures p.sent == old(p.sent) + [if pick then "210 OK b'true'\n" else "411 ERROR b'false'\n"]
  {
    BareBoolRequest(pick, "");
    Send(p, "bool", UsualEnv(pick, ""), if pick then "210 OK b'true'\n" else "411 ERROR b'false'\n");
  }

  /** `bool true\n` or `bool false\n` on a connection with nothing pending, in the usual
      world. */
  method SendBool(p: SocketCmdProtocol, arg: string)
    requires arg == "true" || arg == "false"
    requires p.Valid() && p.waitingData == ""
    modifies p
    ensures p.Valid() && p.waitingData == ""
    ensures p.sent == old(p.sent) + [if arg == "true" then "210 OK b'true'\n" else "411 ERROR b'false'\n"]
  {
    BoolArgumentRequest(arg, false, "");
    Send(p, "bool " + arg, UsualEnv(false, ""), if arg == "true" then "210 OK b'true'\n" else "411 ERROR b'false'\n");
  }

  /** The demonstration client's session: eight one-line requests on one connection,
      each sent as one chunk, with the outside world of each request given as its own
      `Env`. The responses are, line for line, those the test script expects, up to
      the two date payloads, which are inputs here. */
  method ClientDemo(pick1: bool, pick2: bool, date1: string, date2: string)
    returns (p: SocketCmdProtocol)
    ensures p.waitingData == ""
    ensures p.sent == ["000 HI\n",
                       if pick1 then "210 OK b'true'\n" else "411 ERROR b'false'\n",
                       if pick2 then "210 OK b'true'\n" else "411 ERROR b'false'\n",
                       "210 OK b'true'\n",
                       "411 ERROR b'false'\n",
                       "220 DATE " + date1,
                       "005 ZZZ\n",
                       "220 DATE " + date2]
  {
    p := new SocketCmdProtocol();
    SendHi(p, UsualEnv(false, ""));
    SendBareBool(p, pick1);
    SendBareBool(p, pick2);
    SendBool(p, "true");
    SendBool(p, "false");
    SendDate(p, UsualEnv(false, date1));
    SendSleep(p, UsualEnv(false, ""));
    SendDate(p, UsualEnv(false, date2));
  }
}
