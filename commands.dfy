/** The command dispatcher of a SocketCmd connection: how one batch of text, split
    into lines, becomes the response lines written back to the client. Everything the
    handler learns from outside the process (the random pick, the exit status of the
    `true`/`false` programs, the output of `date +%s`) is an input, `Env`. */
module Commands {
  import opened Text

  // The literal response lines.
  const Zzz := "005 ZZZ\n"
  const Hi := "000 HI\n"
  const InvalidArgument := "409 INVALID ARGUMENT\n"
  const BadCommand := "400 BAD COMMAND\n"
  const DatePrefix := "220 DATE "

  /** The outside world as one batch sees it.
      - `pickTrue`: what `random.choice([b'true', b'false'])` picks for a bare `bool`;
      - `exitStatus(p)`: the status the program named `p` (`"true"` or `"false"`) exits
        with, as `Process.wait()` reports it (negative when killed by a signal);
      - `dateOutput(i)`: what `date +%s` prints when it is run for the `i`-th line of
        the batch, already decoded. */
  datatype Env = Env(pickTrue: bool, exitStatus: string -> int, dateOutput: nat -> string)

  /** What handling one line does: nothing (a blank line), or one response line, after
      which the rest of the batch is either still handled (`stop == false`) or dropped. */
  datatype Outcome = Skip | Reply(text: string, stop: bool)

  /** How Python formats a `bytes` value with `"{0}".format(...)`, for printable ASCII
      without quotes or backslashes (the only bytes it is ever given here). */
  function BytesRepr(s: string): (r: string)
    requires forall k :: 0 <= k < |s| ==> ' ' <= s[k] <= '~' && s[k] != '\'' && s[k] != '\\'
    ensures |r| == |s| + 3 && r[2..|r| - 1] == s
    ensures r[..2] == "b'" && r[|r| - 1] == '\''
  {
    "b'" + s + "'"
  }

  /** The `bool` argument a program name can be. */
  predicate IsBoolArgument(arg: string) {
    arg == "true" || arg == "false"
  }

  /** The `bool` response when the program exited with status 0. */
  function OkReply(arg: string): string
    requires IsBoolArgument(arg)
  {
    "210 OK " + BytesRepr(arg) + "\n"
  }

  /** The `bool` response carrying the numeric code `code` when the program failed. */
  function ErrorReply(code: int, arg: string): string
    requires IsBoolArgument(arg)
  {
    IntToString(code) + (" ERROR " + BytesRepr(arg) + "\n")
  }

  /** The response to `bool` with argument tokens `args`: only the first argument is
      looked at; with none, the random pick stands in for it. */
  function BoolReply(args: seq<string>, env: Env): (r: string)
    ensures |r| > 0 && r[|r| - 1] == '\n'
  {
    var arg := if args == [] then (if env.pickTrue then "true" else "false") else args[0];
    if !IsBoolArgument(arg) then InvalidArgument
    else
      var exitCode := env.exitStatus(arg);
      if exitCode == 0 then OkReply(arg) else ErrorReply(410 + exitCode, arg)
  }

  /** The response to a line whose `str.split()` tokens are `tokens`: nothing for no
      tokens, otherwise keyed on the first token, compared exactly. */
  function Respond(tokens: seq<string>, i: nat, env: Env): (o: Outcome)
    ensures o.Skip? <==> tokens == []
    ensures o.Reply? ==> (o.stop <==> tokens[0] != "date")
  {
    if tokens == [] then Skip
    else
      var command, args := tokens[0], tokens[1..];
      if command == "sleep" then Reply(Zzz, true)
      else if command == "hi" then Reply(Hi, true)
      else if command == "bool" then Reply(BoolReply(args, env), true)
      else if command == "date" then Reply(DatePrefix + env.dateOutput(i), false)
      else Reply(BadCommand, true)
  }

  /** Handling the `i`-th line of a batch. */
  function HandleLine(line: string, i: nat, env: Env): Outcome
  {
    Respond(Tokens(line), i, env)
  }

  /** The response lines written for `lines[i..]`, in order. */
  function Replies(lines: seq<string>, i: nat, env: Env): (r: seq<string>)
    ensures i <= |lines| ==> |r| <= |lines| - i
    decreases |lines| - i
  {
    if i >= |lines| then []
    else match HandleLine(lines[i], i, env)
      case Skip => Replies(lines, i + 1, env)
      case Reply(text, stop) => if stop then [text] else [text] + Replies(lines, i + 1, env)
  }

  /** The response lines written for one batch handed to the dispatcher. */
  function Dispatch(data: string, env: Env): seq<string>
  {
    Replies(SplitOn(data, '\n'), 0, env)
  }

  /** A line whose command ends the handling of its batch: anything non-blank but `date`. */
  predicate IsFinal(line: string) {
    var tokens := Tokens(line);
    tokens != [] && tokens[0] != "date"
  }

  // ---------------------------------------------------------------------------
  // One line

  /** Handling a line is responding to its tokens. */
  lemma HandleLineByTokens(line: string, tokens: seq<string>, i: nat, env: Env)
    requires Tokens(line) == tokens
    ensures HandleLine(line, i, env) == Respond(tokens, i, env)
  {
  }

  /** A command and its arguments written with single spaces are handled as exactly
      those tokens. */
  lemma CommandLine(command: string, args: seq<string>, i: nat, env: Env)
    requires IsWord(command)
    requires forall k :: 0 <= k < |args| ==> IsWord(args[k])
    ensures HandleLine(Join([command] + args, ' '), i, env) == Respond([command] + args, i, env)
  {
    WordsCons(command, args);
    TokensOfJoin([command] + args);
    HandleLineByTokens(Join([command] + args, ' '), [command] + args, i, env);
  }

  /** A line produces a response exactly when it is not blank, and the handling of the
      batch stops after it exactly when it is a final command. */
  lemma HandleLineKinds(line: string, i: nat, env: Env)
    ensures HandleLine(line, i, env).Skip? <==> IsBlank(line)
    ensures HandleLine(line, i, env).Reply? ==> (HandleLine(line, i, env).stop <==> IsFinal(line))
  {
    TokensEmpty(line);
  }

  /** `hi` replies `000 HI`, whatever arguments follow. */
  lemma HiReply(line: string, i: nat, env: Env)
    requires Tokens(line) != [] && Tokens(line)[0] == "hi"
    ensures HandleLine(line, i, env) == Reply("000 HI\n", true)
  {
  }

  /** `sleep` replies `005 ZZZ` (after its pause), whatever arguments follow. */
  lemma SleepReply(line: string, i: nat, env: Env)
    requires Tokens(line) != [] && Tokens(line)[0] == "sleep"
    ensures HandleLine(line, i, env) == Reply("005 ZZZ\n", true)
  {
  }

  /** `date` replies with the program's output verbatim after `220 DATE `, adding no
      newline of its own, and lets the batch go on; arguments are ignored. */
  lemma DateReply(line: string, i: nat, env: Env)
    requires Tokens(line) != [] && Tokens(line)[0] == "date"
    ensures HandleLine(line, i, env) == Reply("220 DATE " + env.dateOutput(i), false)
  {
  }

  /** Any first token other than the four commands (compared exactly, so `HI` or `Hi`
      included) is a bad command, whatever follows it. */
  lemma UnknownCommandReply(line: string, i: nat, env: Env)
    requires Tokens(line) != [] && Tokens(line)[0] !in ["sleep", "hi", "bool", "date"]
    ensures HandleLine(line, i, env) == Reply("400 BAD COMMAND\n", true)
  {
  }

  /** The command is the first token alone: a whitespace character and anything after
      it change nothing for a command other than `bool`. */
  lemma ArgumentsIgnored(command: string, c: char, rest: string, i: nat, env: Env)
    requires IsWord(command) && IsSpace(c) && command != "bool"
    ensures HandleLine(command + [c] + rest, i, env) == HandleLine(command, i, env)
  {
    TokensCons(command, c, rest);
    TokensOfWord(command);
    HandleLineByTokens(command + [c] + rest, [command] + Tokens(rest), i, env);
    HandleLineByTokens(command, [command], i, env);
  }

  /** `bool` looks at its first argument only: two `bool` lines whose first arguments
      agree (or which both have none) get the same reply. */
  lemma BoolFirstArgumentOnly(line1: string, line2: string, i: nat, env: Env)
    requires Tokens(line1) != [] && Tokens(line1)[0] == "bool"
    requires Tokens(line2) != [] && Tokens(line2)[0] == "bool"
    requires (|Tokens(line1)| == 1 && |Tokens(line2)| == 1)
             || (|Tokens(line1)| > 1 && |Tokens(line2)| > 1 && Tokens(line1)[1] == Tokens(line2)[1])
    ensures HandleLine(line1, i, env) == HandleLine(line2, i, env)
  {
  }

  /** An argument other than exactly `true` or `false` is refused before any program is
      run: the reply is the same whatever the environment. */
  lemma BoolInvalidArgument(line: string, i: nat, env: Env)
    requires |Tokens(line)| > 1 && Tokens(line)[0] == "bool"
    requires Tokens(line)[1] != "true" && Tokens(line)[1] != "false"
    ensures HandleLine(line, i, env) == Reply("409 INVALID ARGUMENT\n", true)
  {
  }

  /** A `bool` line is answered from the exit status of the program it ran: status 0
      as `210 OK`, any other status `n` as code `410 + n`; without an argument the random
      pick names the program. */
  lemma BoolReplyByExitStatus(line: string, i: nat, env: Env)
    requires Tokens(line) != [] && Tokens(line)[0] == "bool"
    requires |Tokens(line)| > 1 ==> IsBoolArgument(Tokens(line)[1])
    ensures var arg := if |Tokens(line)| > 1 then Tokens(line)[1]
                       else if env.pickTrue then "true" else "false";
            var n := env.exitStatus(arg);
            HandleLine(line, i, env) ==
              Reply(if n == 0 then OkReply(arg) else ErrorReply(410 + n, arg), true)
  {
    var tokens := Tokens(line);
    var args := tokens[1..];
    assert Respond(tokens, i, env) == Reply(BoolReply(args, env), true) by {
      assert tokens[0] == "bool" && tokens[0] != "sleep" && tokens[0] != "hi";
    }
    if |tokens| > 1 {
      assert args != [] && args[0] == tokens[1];
    } else {
      assert args == [];
    }
  }

  /** Both replies end with the Python bytes literal of the argument, `b'true'` or
      `b'false'`, and a newline; the success reply starts `210 OK `, the error reply
      with the code and ` ERROR `. */
  lemma BoolReplyTexts(arg: string, code: int)
    requires IsBoolArgument(arg)
    ensures OkReply(arg) == "210 OK b'" + arg + "'\n"
    ensures ErrorReply(code, arg) == IntToString(code) + " ERROR b'" + arg + "'\n"
  {
  }

  /** Two error replies to the same argument agree only if their codes do. */
  lemma ErrorRepliesDiffer(arg: string, code1: int, code2: int)
    requires IsBoolArgument(arg)
    requires ErrorReply(code1, arg) == ErrorReply(code2, arg)
    ensures code1 == code2
  {
    var tail := " ERROR " + BytesRepr(arg) + "\n";
    IntToStringFollowedBySpace(code1, tail, code2, tail);
  }

  /** An error reply is never the success reply. */
  lemma ErrorReplyIsNotOk(arg: string, code: int)
    requires IsBoolArgument(arg)
    ensures ErrorReply(code, arg) != OkReply(arg)
  {
    var tail := " ERROR " + BytesRepr(arg) + "\n";
    var ok := " OK " + BytesRepr(arg) + "\n";
    assert OkReply(arg) == IntToString(210) + ok;
    assert tail[1] != ok[1];
    if ErrorReply(code, arg) == OkReply(arg) {
      IntToStringFollowedBySpace(code, tail, 210, ok);
    }
  }

  /** The reply identifies the exit status: two runs of the same valid `bool` whose
      programs exit differently get different replies. */
  lemma BoolReplyDeterminesExitStatus(arg: string, env1: Env, env2: Env)
    requires IsBoolArgument(arg)
    requires BoolReply([arg], env1) == BoolReply([arg], env2)
    ensures env1.exitStatus(arg) == env2.exitStatus(arg)
  {
    var n1, n2 := env1.exitStatus(arg), env2.exitStatus(arg);
    if n1 != 0 && n2 != 0 {
      ErrorRepliesDiffer(arg, 410 + n1, 410 + n2);
    } else if n1 != 0 {
      ErrorReplyIsNotOk(arg, 410 + n1);
    } else if n2 != 0 {
      ErrorReplyIsNotOk(arg, 410 + n2);
    }
  }

  /** With the usual exit statuses (`true` exits 0, `false` exits 1): `bool true`
      answers `210 OK b'true'`, `bool false` answers `411 ERROR b'false'`, and a bare
      `bool` answers one of the two, the one the random pick chose. */
  lemma BoolWithUsualExitStatuses(line: string, i: nat, env: Env)
    requires env.exitStatus("true") == 0 && env.exitStatus("false") == 1
    requires Tokens(line) in [["bool"], ["bool", "true"], ["bool", "false"]]
    ensures var arg := if |Tokens(line)| > 1 then Tokens(line)[1]
                       else if env.pickTrue then "true" else "false";
            HandleLine(line, i, env) ==
              if arg == "true" then Reply("210 OK b'true'\n", true)
              else Reply("411 ERROR b'false'\n", true)
  {
    UsualReplyTexts();
  }

  /** The two replies of the usual case, spelled out. */
  lemma UsualReplyTexts()
    ensures OkReply("true") == "210 OK b'true'\n"
    ensures ErrorReply(411, "false") == "411 ERROR b'false'\n"
  {
    assert BytesRepr("true") == "b'true'";
    assert BytesRepr("false") == "b'false'";
    assert IntToString(411) == "411" by {
      assert NatToString(4) == "4";
      assert NatToString(41) == "4" + "1";
      assert NatToString(411) == "41" + "1";
    }
  }

  /** An error status from 1 to 89, or a signal status from -10 to -1, gives a three-digit
      4xx code; from 90 to 589 the code is still three digits but no longer starts with 4. */
  lemma BoolErrorCodeDigits(n: int)
    requires -10 <= n < 590 && n != 0
    ensures |IntToString(410 + n)| == 3
    ensures IntToString(410 + n)[0] == '4' <==> n < 90
  {
    ThreeDigits(410 + n);
  }

  // ---------------------------------------------------------------------------
  // A batch

  /** A batch (from line `i` on) produces no response exactly when all its lines are
      blank. */
  lemma {:induction false} SilentIffBlank(lines: seq<string>, i: nat, env: Env)
    ensures Replies(lines, i, env) == [] <==> forall k :: i <= k < |lines| ==> IsBlank(lines[k])
    decreases |lines| - i
  {
    if i < |lines| {
      HandleLineKinds(lines[i], i, env);
      SilentIffBlank(lines, i + 1, env);
    }
  }

  /** Blank lines are passed over: handling resumes at the next line as if they were
      not there. */
  lemma {:induction false} BlankLinesSkipped(lines: seq<string>, i: nat, j: nat, env: Env)
    requires i <= j <= |lines|
    requires forall k :: i <= k < j ==> IsBlank(lines[k])
    ensures Replies(lines, i, env) == Replies(lines, j, env)
    decreases j - i
  {
    if i < j {
      HandleLineKinds(lines[i], i, env);
      BlankLinesSkipped(lines, i + 1, j, env);
    }
  }

  /** Every line of `r` but the last is a `220 DATE` line. */
  predicate DatesBeforeLast(r: seq<string>) {
    forall k :: 0 <= k < |r| - 1 ==> DatePrefix <= r[k]
  }

  /** Every response of a batch but the last is a `220 DATE` line: zero or more DATE
      lines, then at most one other line. */
  lemma {:induction false} OnlyDatesBeforeLast(lines: seq<string>, i: nat, env: Env)
    ensures DatesBeforeLast(Replies(lines, i, env))
    decreases |lines| - i
  {
    if i < |lines| {
      OnlyDatesBeforeLast(lines, i + 1, env);
      var rest := Replies(lines, i + 1, env);
      var outcome := HandleLine(lines[i], i, env);
      if outcome.Reply? && !outcome.stop {
        var text := outcome.text;
        assert text == DatePrefix + env.dateOutput(i);
        assert DatePrefix <= text;
        DateThenDates(text, rest);
      }
    }
  }

  /** A DATE line in front of a response list that has only DATE lines before its last. */
  lemma DateThenDates(text: string, rest: seq<string>)
    requires DatePrefix <= text && DatesBeforeLast(rest)
    ensures DatesBeforeLast([text] + rest)
  {
    var r := [text] + rest;
    forall k | 0 <= k < |r| - 1 ensures DatePrefix <= r[k] {
      if k > 0 {
        assert r[k] == rest[k - 1];
      }
    }
  }

  /** `date` does not end its batch: its reply is followed by the replies to the lines
      after it. */
  lemma DateContinues(lines: seq<string>, i: nat, env: Env)
    requires i < |lines| && Tokens(lines[i]) != [] && Tokens(lines[i])[0] == "date"
    ensures Replies(lines, i, env) == [DatePrefix + env.dateOutput(i)] + Replies(lines, i + 1, env)
  {
  }

  /** Once a final command (`sleep`, `hi`, `bool`, or an unknown one) is reached, the
      lines after it are never looked at: whatever follows, the responses are the same. */
  lemma {:induction false} FinalCommandDropsRest(lines: seq<string>, more: seq<string>, i: nat, j: nat, env: Env)
    requires i <= j < |lines| && IsFinal(lines[j])
    ensures Replies(lines + more, i, env) == Replies(lines, i, env)
    decreases j - i
  {
    assert (lines + more)[i] == lines[i];
    HandleLineKinds(lines[i], i, env);
    if i < j {
      FinalCommandDropsRest(lines, more, i + 1, j, env);
    } else {
      TokensEmpty(lines[i]);
    }
  }

  /** A final command answers with its own reply, and that reply is the last of the
      batch, wherever in the batch the command stands. */
  lemma FinalReply(lines: seq<string>, i: nat, env: Env)
    requires i < |lines| && IsFinal(lines[i])
    ensures HandleLine(lines[i], i, env).Reply?
    ensures Replies(lines, i, env) == [HandleLine(lines[i], i, env).text]
  {
    TokensEmpty(lines[i]);
    HandleLineKinds(lines[i], i, env);
  }

  /** A batch that is one line and its newline (how a client sends a request) gets the
      response of that line and nothing else; a blank one gets none. */
  lemma OneLineBatch(line: string, env: Env)
    requires '\n' !in line
    ensures IsBlank(line) ==> Dispatch(line + "\n", env) == []
    ensures !IsBlank(line) ==>
              HandleLine(line, 0, env).Reply? && Dispatch(line + "\n", env) == [HandleLine(line, 0, env).text]
  {
    SplitOnCons(line, '\n', "");
    assert line + "\n" == line + ['\n'] + "";
    assert SplitOn("", '\n') == [""];
    var lines := [line, ""];
    assert SplitOn(line + "\n", '\n') == lines;
    HandleLineKinds(line, 0, env);
    HandleLineKinds("", 1, env);
    assert Replies(lines, 2, env) == [];
    assert Replies(lines, 1, env) == [];
    assert Dispatch(line + "\n", env) == Replies(lines, 0, env);
  }
}
