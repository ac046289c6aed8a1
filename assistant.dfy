/**
 * The HackAssistant session: the conversation log held by the session
 * object, one model call per user line, and the consent step that alone
 * lets a suggested command run. The model, the shell, the clock and the
 * terminal are outside the model: each turn receives them as a TurnWorld.
 */
module Assistant {
  import opened Optional
  import opened PyStr
  import opened ReplyParser
  import opened Conversation
  import opened CommandOutput

  /** What the model call gave: the reply text, or the text of the exception it raised. */
  datatype ModelReply = Reply(text: string) | Raised(message: string)

  const AiErrorPrefix := "\U{274C} Error getting AI response: "

  /**
   * What `_get_ai_response` returns once the model has answered: the parse
   * of the stripped reply, or an error explanation and no command.
   */
  function AiResponse(reply: ModelReply): (s: Suggestion)
    ensures s.explanation == "" <==> reply.Reply? && Strip(reply.text) == ""
    ensures reply.Reply? ==> IsStripped(s.explanation)
    ensures reply.Raised? ==> s.command == None && StartsWith(s.explanation, AiErrorPrefix)
  {
    match reply
    case Reply(text) =>
      ExplanationEmptyIffReplyEmpty(Strip(text));
      ExplanationStripped(Strip(text));
      Parse(Strip(text))
    case Raised(message) =>
      Suggestion(AiErrorPrefix + message, None)
  }

  /** `_get_user_choice`: the answer stripped and lower-cased. */
  function NormalizeChoice(answer: string): string {
    Lower(Strip(answer))
  }

  /** Only `y`, in either case and with any surrounding blanks, means yes. */
  lemma ConsentIsY(answer: string)
    ensures NormalizeChoice(answer) == "y" <==> Strip(answer) == "y" || Strip(answer) == "Y"
  {
    LowerIsLetter(Strip(answer), 'y');
  }

  /** The input line `c` (either case) closes the conversation. */
  predicate IsCloseInput(input: string) {
    Lower(Strip(input)) == "c"
  }

  /** Input lines that never reach the model: blank, `c` and `p`. */
  predicate IsSpecialInput(input: string) {
    var line := Strip(input);
    line == "" || Lower(line) == "c" || Lower(line) == "p"
  }

  /** The times `datetime.now()` gives for the (up to) four entries of one turn. */
  datatype Stamps = Stamps(user: Timestamp, assistant: Timestamp, executed: Timestamp, output: Timestamp)

  /**
   * Everything one turn receives from outside: the input line, the model
   * (prompt to reply), the answer at the consent prompt, the shell
   * (command and working directory to result) and the clock.
   */
  datatype TurnWorld = TurnWorld(
    input: string,
    model: string -> ModelReply,
    answer: string,
    shell: (string, string) -> ExecResult,
    stamps: Stamps)

  /** How a turn ended, one case per branch of the loop body of `run`. */
  datatype Outcome =
    | Blank
    | Closed
    | NewPrompt
    | Answered
    | Executed(command: string)
    | Declined
    | InvalidChoice

  datatype TurnResult = TurnResult(history: seq<Entry>, outcome: Outcome)

  /** The suggestion the model's reply gives for the line `line` after it is logged. */
  function TurnSuggestion(history: seq<Entry>, system: string, w: TurnWorld): Suggestion {
    var line := Strip(w.input);
    var logged := history + [Entry(User, line, w.stamps.user)];
    AiResponse(w.model(Prompt(system, Window(logged), line)))
  }

  /**
   * The consent step, once the explanation is logged: with no command the turn
   * ends; otherwise the answer `y` runs it and logs the command and its report.
   */
  function ConsentSpec(answered: seq<Entry>, command: Option<string>, cwd: string, w: TurnWorld): TurnResult {
    if command.None? then TurnResult(answered, Answered)
    else if NormalizeChoice(w.answer) == "y" then
      var output := CommandReport(w.shell(command.value, cwd));
      TurnResult(answered + [Entry(System, "Executed command: " + command.value, w.stamps.executed),
                             Entry(System, "Command output: " + output, w.stamps.output)],
                 Executed(command.value))
    else if NormalizeChoice(w.answer) == "n" then TurnResult(answered, Declined)
    else TurnResult(answered, InvalidChoice)
  }

  /** The consent step keeps the log it is given and adds nothing or the two `system` entries. */
  lemma ConsentAppends(answered: seq<Entry>, command: Option<string>, cwd: string, w: TurnWorld)
    ensures
      var r := ConsentSpec(answered, command, cwd, w);
      && |answered| <= |r.history| && r.history[..|answered|] == answered
      && (r.outcome.Executed? <==> command.Some? && NormalizeChoice(w.answer) == "y")
      && (!r.outcome.Executed? ==> r.history == answered)
  {
    var r := ConsentSpec(answered, command, cwd, w);
    if r.outcome.Executed? {
      assert r.history[..|answered|] == answered;
    }
  }

  /** One pass of the loop body of `run`, as a function of the log before it. */
  function TurnSpec(history: seq<Entry>, system: string, cwd: string, w: TurnWorld): TurnResult {
    var line := Strip(w.input);
    if line == "" then TurnResult(history, Blank)
    else if Lower(line) == "c" then TurnResult(history, Closed)
    else if Lower(line) == "p" then TurnResult(history, NewPrompt)
    else
      var s := TurnSuggestion(history, system, w);
      ConsentSpec(history + [Entry(User, line, w.stamps.user), Entry(Assistant, s.explanation, w.stamps.assistant)],
                  s.command, cwd, w)
  }

  /** An ordinary line: the user entry and the explanation are logged, then the consent step. */
  lemma OrdinaryTurn(history: seq<Entry>, system: string, cwd: string, w: TurnWorld)
    requires !IsSpecialInput(w.input)
    ensures TurnSpec(history, system, cwd, w) ==
      ConsentSpec(history + [Entry(User, Strip(w.input), w.stamps.user),
                             Entry(Assistant, TurnSuggestion(history, system, w).explanation, w.stamps.assistant)],
                  TurnSuggestion(history, system, w).command, cwd, w)
  {
  }

  /** A turn keeps every earlier entry of the log. */
  lemma TurnAppendOnly(history: seq<Entry>, system: string, cwd: string, w: TurnWorld)
    ensures |history| <= |TurnSpec(history, system, cwd, w).history|
    ensures TurnSpec(history, system, cwd, w).history[..|history|] == history
  {
    var r := TurnSpec(history, system, cwd, w);
    if !IsSpecialInput(w.input) {
      TurnLogsUserThenAssistant(history, system, cwd, w);
      assert r.history[..|history|] == r.history[..|history| + 2][..|history|];
    }
  }

  datatype RunResult = RunResult(history: seq<Entry>, closed: bool, turns: nat)

  /**
   * The `while True` loop of `run` over a finite script of turns: it stops at
   * the first turn that closes the conversation, or when the script runs out.
   */
  function RunSpec(history: seq<Entry>, system: string, cwd: string, worlds: seq<TurnWorld>): RunResult
    decreases |worlds|
  {
    if worlds == [] then RunResult(history, false, 0)
    else if IsCloseInput(worlds[0].input) then RunResult(history, true, 1)
    else
      var rest := RunSpec(TurnSpec(history, system, cwd, worlds[0]).history, system, cwd, worlds[1..]);
      RunResult(rest.history, rest.closed, rest.turns + 1)
  }

  /** Blank, `c` and `p` lines leave the log as it is; every other line adds to it. */
  lemma SpecialInputKeepsHistory(history: seq<Entry>, system: string, cwd: string, w: TurnWorld)
    ensures TurnSpec(history, system, cwd, w).history == history <==> IsSpecialInput(w.input)
    ensures IsSpecialInput(w.input) ==> TurnSpec(history, system, cwd, w).outcome in {Blank, Closed, NewPrompt}
  {
    var r := TurnSpec(history, system, cwd, w);
    if !IsSpecialInput(w.input) {
      assert |r.history| >= |history| + 2;
    }
  }

  /** Only the input `c` (either case, blanks around it allowed) closes the conversation. */
  lemma OnlyCCloses(history: seq<Entry>, system: string, cwd: string, w: TurnWorld)
    ensures TurnSpec(history, system, cwd, w).outcome.Closed? <==> IsCloseInput(w.input)
  {
  }

  /**
   * An ordinary line is logged as a `user` entry and the explanation as an
   * `assistant` entry, after the earlier entries, which stay as they were.
   */
  lemma TurnLogsUserThenAssistant(history: seq<Entry>, system: string, cwd: string, w: TurnWorld)
    requires !IsSpecialInput(w.input)
    ensures
      var r := TurnSpec(history, system, cwd, w);
      && |r.history| >= |history| + 2
      && r.history[..|history|] == history
      && r.history[|history|] == Entry(User, Strip(w.input), w.stamps.user)
      && r.history[|history| + 1] ==
           Entry(Assistant, TurnSuggestion(history, system, w).explanation, w.stamps.assistant)
  {
    var r := TurnSpec(history, system, cwd, w);
    var s := TurnSuggestion(history, system, w);
    var answered := history + [Entry(User, Strip(w.input), w.stamps.user), Entry(Assistant, s.explanation, w.stamps.assistant)];
    OrdinaryTurn(history, system, cwd, w);
    ConsentAppends(answered, s.command, cwd, w);
    assert r.history[..|history| + 2] == answered;
    assert r.history[..|history|] == answered[..|history|] == history;
  }

  /**
   * The command runs exactly when one was suggested and the answer is `y`;
   * then, and only then, the two `system` entries follow, in this order.
   */
  lemma ExecutesOnlyOnConsent(history: seq<Entry>, system: string, cwd: string, w: TurnWorld)
    ensures
      var r := TurnSpec(history, system, cwd, w);
      var s := TurnSuggestion(history, system, w);
      && (r.outcome.Executed? <==>
            !IsSpecialInput(w.input) && s.command.Some? && NormalizeChoice(w.answer) == "y")
      && (r.outcome.Executed? ==>
            && r.outcome.command == s.command.value
            && |r.history| == |history| + 4
            && r.history[|history| + 2] ==
                 Entry(System, "Executed command: " + s.command.value, w.stamps.executed)
            && r.history[|history| + 3] ==
                 Entry(System, "Command output: " + CommandReport(w.shell(s.command.value, cwd)),
                       w.stamps.output))
      && (!r.outcome.Executed? ==> |r.history| <= |history| + 2)
  {
  }

  /** The log only grows: a whole run keeps every earlier entry. */
  lemma {:induction false} RunAppendOnly(history: seq<Entry>, system: string, cwd: string, worlds: seq<TurnWorld>)
    ensures |history| <= |RunSpec(history, system, cwd, worlds).history|
    ensures RunSpec(history, system, cwd, worlds).history[..|history|] == history
    decreases |worlds|
  {
    if worlds != [] && !IsCloseInput(worlds[0].input) {
      var t := TurnSpec(history, system, cwd, worlds[0]);
      TurnAppendOnly(history, system, cwd, worlds[0]);
      RunAppendOnly(t.history, system, cwd, worlds[1..]);
      var h := RunSpec(t.history, system, cwd, worlds[1..]).history;
      assert h[..|history|] == h[..|t.history|][..|history|];
    }
  }

  /** Where a run stops: whether a line closes it, and how many turns it plays. */
  datatype Stop = Stop(closed: bool, turns: nat)

  /** The stopping point of a script, read off its input lines alone. */
  function StopPoint(worlds: seq<TurnWorld>): Stop
    decreases |worlds|
  {
    if worlds == [] then Stop(false, 0)
    else if IsCloseInput(worlds[0].input) then Stop(true, 1)
    else
      var rest := StopPoint(worlds[1..]);
      Stop(rest.closed, rest.turns + 1)
  }

  /** The close flag and turn count of a run do not depend on the log or on what the model says. */
  lemma {:induction false} RunStopsAtStopPoint(history: seq<Entry>, system: string, cwd: string, worlds: seq<TurnWorld>)
    ensures RunSpec(history, system, cwd, worlds).closed == StopPoint(worlds).closed
    ensures RunSpec(history, system, cwd, worlds).turns == StopPoint(worlds).turns
    decreases |worlds|
  {
    if worlds != [] && !IsCloseInput(worlds[0].input) {
      RunStopsAtStopPoint(TurnSpec(history, system, cwd, worlds[0]).history, system, cwd, worlds[1..]);
    }
  }

  /** The stopping point is the first `c` line; without one, the end of the script. */
  lemma StopPointIsFirstClose(worlds: seq<TurnWorld>)
    ensures StopPoint(worlds).turns <= |worlds|
    ensures forall j :: 0 <= j < StopPoint(worlds).turns - 1 ==> !IsCloseInput(worlds[j].input)
    ensures StopPoint(worlds).closed ==>
      1 <= StopPoint(worlds).turns && IsCloseInput(worlds[StopPoint(worlds).turns - 1].input)
    ensures !StopPoint(worlds).closed ==>
      StopPoint(worlds).turns == |worlds| && forall j :: 0 <= j < |worlds| ==> !IsCloseInput(worlds[j].input)
  {
    StopPointBounds(worlds);
    StopPointSkipsEarlier(worlds);
    StopPointAtClose(worlds);
    StopPointNoClose(worlds);
  }

  lemma {:induction false} StopPointBounds(worlds: seq<TurnWorld>)
    ensures StopPoint(worlds).turns <= |worlds|
    ensures StopPoint(worlds).closed ==> 1 <= StopPoint(worlds).turns
    ensures !StopPoint(worlds).closed ==> StopPoint(worlds).turns == |worlds|
    decreases |worlds|
  {
    if worlds != [] && !IsCloseInput(worlds[0].input) {
      StopPointBounds(worlds[1..]);
    }
  }

  lemma {:induction false} StopPointAtClose(worlds: seq<TurnWorld>)
    ensures StopPoint(worlds).closed ==>
      1 <= StopPoint(worlds).turns <= |worlds| && IsCloseInput(worlds[StopPoint(worlds).turns - 1].input)
    decreases |worlds|
  {
    if worlds != [] && !IsCloseInput(worlds[0].input) {
      StopPointAtClose(worlds[1..]);
      var t := StopPoint(worlds[1..]).turns;
      if StopPoint(worlds).closed {
        assert worlds[t] == worlds[1..][t - 1];
      }
    }
  }

  lemma {:induction false} StopPointSkipsEarlier(worlds: seq<TurnWorld>)
    ensures StopPoint(worlds).turns <= |worlds|
    ensures forall j :: 0 <= j < StopPoint(worlds).turns - 1 ==> !IsCloseInput(worlds[j].input)
    decreases |worlds|
  {
    StopPointBounds(worlds);
    if worlds != [] && !IsCloseInput(worlds[0].input) {
      StopPointSkipsEarlier(worlds[1..]);
      assert forall j :: 1 <= j < |worlds| ==> worlds[j] == worlds[1..][j - 1];
    }
  }

  lemma {:induction false} StopPointNoClose(worlds: seq<TurnWorld>)
    ensures !StopPoint(worlds).closed ==> forall j :: 0 <= j < |worlds| ==> !IsCloseInput(worlds[j].input)
    decreases |worlds|
  {
    if worlds != [] && !IsCloseInput(worlds[0].input) {
      StopPointNoClose(worlds[1..]);
      assert forall j :: 1 <= j < |worlds| ==> worlds[j] == worlds[1..][j - 1];
    }
  }

  /**
   * The run stops at the first `c` line and reads no turn after it; without
   * one it plays every turn of the script.
   */
  lemma RunStopsAtFirstClose(history: seq<Entry>, system: string, cwd: string, worlds: seq<TurnWorld>)
    ensures
      var r := RunSpec(history, system, cwd, worlds);
      && r.turns <= |worlds|
      && (forall j :: 0 <= j < r.turns - 1 ==> !IsCloseInput(worlds[j].input))
      && (r.closed ==> 1 <= r.turns && IsCloseInput(worlds[r.turns - 1].input))
      && (!r.closed ==> r.turns == |worlds| && forall j :: 0 <= j < |worlds| ==> !IsCloseInput(worlds[j].input))
  {
    RunStopsAtStopPoint(history, system, cwd, worlds);
    StopPointIsFirstClose(worlds);
  }

  /** The HackAssistant object: its fixed context and its conversation log. */
  class Session {
    const context: Context
    /** `_create_system_prompt()`; it depends only on the context, which never changes. */
    const systemPrompt: string
    var history: seq<Entry>

    /** A new session, with an empty log (environment access is not modelled). */
    constructor (context: Context)
      ensures this.context == context && systemPrompt == SystemPrompt(context)
      ensures history == []
    {
      this.context := context;
      systemPrompt := SystemPrompt(context);
      history := [];
    }

    /** `_add_to_history`: one more entry at the end; the earlier ones unchanged. */
    method AddToHistory(role: Role, content: string, timestamp: Timestamp)
      modifies this
      ensures history == old(history) + [Entry(role, content, timestamp)]
    {
      history := history + [Entry(role, content, timestamp)];
    }

    /** `_get_ai_response`: build the prompt, ask the model, parse its reply. */
    method GetAiResponse(userPrompt: string, model: string -> ModelReply) returns (s: Suggestion)
      ensures s == AiResponse(model(Prompt(systemPrompt, Window(history), userPrompt)))
    {
      var prompt := AssemblePrompt(systemPrompt, history, userPrompt);
      var reply := model(prompt);
      match reply
      case Reply(text) =>
        s := ParseReply(Strip(text));
      case Raised(message) =>
        s := Suggestion(AiErrorPrefix + message, None);
    }

    /** `_execute_command`: run in the session's working directory, report the result. */
    method ExecuteCommand(command: string, shell: (string, string) -> ExecResult) returns (output: string)
      ensures output == CommandReport(shell(command, context.workingDirectory))
    {
      var result := shell(command, context.workingDirectory);
      match result
      case Completed(out, err, code) =>
        output := BuildReport(out, err, code);
      case Raised(message) =>
        output := ExecErrorPrefix + message;
    }

    /** One pass of the loop body of `run`. */
    method Turn(w: TurnWorld) returns (outcome: Outcome)
      modifies this
      ensures TurnResult(history, outcome) == TurnSpec(old(history), systemPrompt, context.workingDirectory, w)
    {
      var userInput := Strip(w.input);
      if userInput == "" {
        return Blank;
      }
      if Lower(userInput) == "c" {
        return Closed;
      } else if Lower(userInput) == "p" {
        return NewPrompt;
      }
      assert !IsSpecialInput(w.input);
      ghost var before := history;
      AddToHistory(User, userInput, w.stamps.user);
      var s := GetAiResponse(userInput, w.model);
      assert s == TurnSuggestion(before, systemPrompt, w);
      AddToHistory(Assistant, s.explanation, w.stamps.assistant);
      assert history == before + [Entry(User, userInput, w.stamps.user), Entry(Assistant, s.explanation, w.stamps.assistant)];
      OrdinaryTurn(before, systemPrompt, context.workingDirectory, w);
      outcome := Consent(s.command, w);
    }

    /** The consent step of the loop body of `run`, after the explanation is logged. */
    method Consent(command: Option<string>, w: TurnWorld) returns (outcome: Outcome)
      modifies this
      ensures TurnResult(history, outcome) == ConsentSpec(old(history), command, context.workingDirectory, w)
    {
      if command.Some? {
        var choice := NormalizeChoice(w.answer);
        if choice == "y" {
          var commandOutput := ExecuteCommand(command.value, w.shell);
          AddToHistory(System, "Executed command: " + command.value, w.stamps.executed);
          AddToHistory(System, "Command output: " + commandOutput, w.stamps.output);
          outcome := Executed(command.value);
        } else if choice == "n" {
          outcome := Declined;
        } else {
          outcome := InvalidChoice;
        }
      } else {
        outcome := Answered;
      }
    }

    /** `run`, over a finite script of turns. */
    method Run(worlds: seq<TurnWorld>) returns (closed: bool, turns: nat)
      modifies this
      ensures RunResult(history, closed, turns) == RunSpec(old(history), systemPrompt, context.workingDirectory, worlds)
    {
      closed, turns := false, 0;
      while turns < |worlds| && !closed
        invariant turns <= |worlds|
        invariant closed ==> RunSpec(old(history), systemPrompt, context.workingDirectory, worlds) == RunResult(history, true, turns)
        invariant !closed ==>
          var rest := RunSpec(history, systemPrompt, context.workingDirectory, worlds[turns..]);
          RunSpec(old(history), systemPrompt, context.workingDirectory, worlds) == RunResult(rest.history, rest.closed, rest.turns + turns)
        decreases |worlds| - turns
      {
        assert worlds[turns..][1..] == worlds[turns + 1..];
        OnlyCCloses(history, systemPrompt, context.workingDirectory, worlds[turns]);
        SpecialInputKeepsHistory(history, systemPrompt, context.workingDirectory, worlds[turns]);
        var outcome := Turn(worlds[turns]);
        closed := outcome.Closed?;
        turns := turns + 1;
      }
    }
  }
}
