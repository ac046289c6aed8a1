/**
 * The conversation log of HackAssistant and the prompt built from it: each
 * model call sees the system prompt, the last ten log entries rendered as
 * `ROLE: content` lines, and the new user line.
 */
module Conversation {
  import opened PyStr

  datatype Role = User | Assistant | System

  /** The role strings the source stores in each entry. */
  function RoleName(role: Role): string {
    match role
    case User => "user"
    case Assistant => "assistant"
    case System => "system"
  }

  /** A point in time, kept only as the text the caller supplies (an ISO string). */
  type Timestamp = string

  /** One entry of `conversation_history`. */
  datatype Entry = Entry(role: Role, content: string, timestamp: Timestamp)

  /** The session's `current_context`, fixed when the session starts. */
  datatype Context = Context(workingDirectory: string, osInfo: string, sessionStart: Timestamp)

  /** How many of the most recent entries a model call sees. */
  const WindowSize: nat := 10

  /** The most recent entries, at most WindowSize of them, in log order. */
  function Window(history: seq<Entry>): (w: seq<Entry>)
    ensures |w| == if |history| < WindowSize then |history| else WindowSize
    ensures w == history[|history| - |w|..]
    ensures |history| <= WindowSize ==> w == history
  {
    if |history| > WindowSize then history[|history| - WindowSize..] else history
  }

  /** Appending one entry slides the window by one: the oldest entry drops out once it is full. */
  lemma WindowSlides(history: seq<Entry>, e: Entry)
    ensures Window(history + [e]) ==
      (if |history| < WindowSize then history else Window(history)[1..]) + [e]
  {
    var h := history + [e];
    if |history| >= WindowSize {
      assert h[|h| - WindowSize..] == history[|history| - WindowSize + 1..] + [e];
    }
  }

  /** The label a role is shown with: its name upper-cased. */
  lemma RoleLabels()
    ensures Upper(RoleName(User)) == "USER"
    ensures Upper(RoleName(Assistant)) == "ASSISTANT"
    ensures Upper(RoleName(System)) == "SYSTEM"
  {
    UserLabel();
    AssistantLabel();
    SystemLabel();
  }

  lemma UserLabel()
    ensures Upper(RoleName(User)) == "USER"
  {
    var u := Upper("user");
    assert u[0] == 'U' && u[1] == 'S' && u[2] == 'E' && u[3] == 'R';
  }

  lemma AssistantLabel()
    ensures Upper(RoleName(Assistant)) == "ASSISTANT"
  {
    var a := Upper("assistant");
    assert a[0] == 'A' && a[1] == 'S' && a[2] == 'S' && a[3] == 'I' && a[4] == 'S';
    assert a[5] == 'T' && a[6] == 'A' && a[7] == 'N' && a[8] == 'T';
  }

  lemma SystemLabel()
    ensures Upper(RoleName(System)) == "SYSTEM"
  {
    var s := Upper("system");
    assert s[0] == 'S' && s[1] == 'Y' && s[2] == 'S' && s[3] == 'T' && s[4] == 'E' && s[5] == 'M';
  }

  /** One history line of the prompt. */
  function EntryLine(e: Entry): string {
    Upper(RoleName(e.role)) + ": " + e.content + "\n"
  }

  /** The history lines of the prompt, one per entry, in order. */
  function RenderHistory(entries: seq<Entry>): string {
    if entries == [] then ""
    else RenderHistory(entries[..|entries| - 1]) + EntryLine(entries[|entries| - 1])
  }

  /** Rendering distributes over concatenation of entry lists. */
  lemma {:induction false} RenderConcat(a: seq<Entry>, b: seq<Entry>)
    ensures RenderHistory(a + b) == RenderHistory(a) + RenderHistory(b)
    decreases |b|
  {
    if b == [] {
      assert a + b == a;
    } else {
      var init, last := b[..|b| - 1], b[|b| - 1];
      RenderLast(a, b);
      RenderConcat(a, init);
      AppendLine(RenderHistory(a), RenderHistory(init), EntryLine(last));
    }
  }

  /** The last entry of a non-empty concatenation renders last. */
  lemma RenderLast(a: seq<Entry>, b: seq<Entry>)
    requires b != []
    ensures RenderHistory(a + b) == RenderHistory(a + b[..|b| - 1]) + EntryLine(b[|b| - 1])
  {
    assert (a + b)[..|a + b| - 1] == a + b[..|b| - 1];
    assert (a + b)[|a + b| - 1] == b[|b| - 1];
  }

  /** The rendered window is the tail of the rendering of the whole log. */
  lemma RenderedWindowIsTail(history: seq<Entry>)
    ensures RenderHistory(history) ==
      RenderHistory(history[..|history| - |Window(history)|]) + RenderHistory(Window(history))
  {
    var k := |history| - |Window(history)|;
    assert history == history[..k] + Window(history);
    RenderConcat(history[..k], Window(history));
  }

  /** The text of `_create_system_prompt`. */
  function SystemPrompt(ctx: Context): string {
    "You are HackAssistant, an AI assistant for hackers and developers working on Linux systems.\n\n"
    + "Current context:\n"
    + "- Working Directory: " + ctx.workingDirectory + "\n"
    + "- System: " + ctx.osInfo + "\n"
    + "- Session started: " + ctx.sessionStart + "\n\n"
    + "Your role:\n"
    + "1. Provide helpful responses for hacking, development, and system administration tasks\n"
    + "2. Suggest specific Linux terminal commands when appropriate\n"
    + "3. Be concise but informative\n"
    + "4. Focus on practical solutions\n\n"
    + "When suggesting commands:\n"
    + "- Provide ONE specific command that can be executed\n"
    + "- Explain what the command does briefly\n"
    + "- Consider the current working directory context\n"
    + "- Use Linux/bash compatible commands only\n\n"
    + "Format your response as:\n"
    + "RESPONSE: [Your helpful response here]\n"
    + "COMMAND: [Single terminal command to execute, or NONE if no command needed]\n\n"
    + "Keep responses focused and actionable for a technical audience."
  }

  const HistoryHeader := "\n\nConversation History:\n"
  const FormatReminder := "\n\nRespond in the specified format:"

  /** The prompt sent to the model for `userPrompt`, given the visible window. */
  function Prompt(system: string, window: seq<Entry>, userPrompt: string): string {
    system + HistoryHeader + RenderHistory(window) + "\nUSER: " + userPrompt + FormatReminder
  }

  /** The prompt-building loop of `_get_ai_response`. */
  method AssemblePrompt(system: string, history: seq<Entry>, userPrompt: string) returns (prompt: string)
    ensures prompt == Prompt(system, Window(history), userPrompt)
  {
    var recent := if |history| > WindowSize then history[|history| - WindowSize..] else history;
    assert recent == Window(history);
    prompt := system + HistoryHeader;
    for i := 0 to |recent|
      invariant prompt == system + HistoryHeader + RenderHistory(recent[..i])
    {
      RenderStep(recent, i);
      AppendLine(system + HistoryHeader, RenderHistory(recent[..i]), EntryLine(recent[i]));
      prompt := prompt + EntryLine(recent[i]);
    }
    assert recent[..|recent|] == recent;
    prompt := prompt + "\nUSER: " + userPrompt + FormatReminder;
  }

  /** Rendering one more entry of a list adds its line. */
  lemma RenderStep(entries: seq<Entry>, i: nat)
    requires i < |entries|
    ensures RenderHistory(entries[..i + 1]) == RenderHistory(entries[..i]) + EntryLine(entries[i])
  {
    assert entries[..i + 1][..i] == entries[..i];
  }

  /** Appending a line regroups freely; kept apart so that the callers' proofs stay small. */
  lemma AppendLine(head: string, body: string, line: string)
    ensures (head + body) + line == head + (body + line)
  {
  }

  /**
   * The user's line is logged before the model is called, so the history in
   * the prompt ends with that same line, just before the `USER:` line added for it.
   */
  lemma PromptRepeatsUserLine(history: seq<Entry>, userPrompt: string, t: Timestamp)
    ensures
      var window := Window(history + [Entry(User, userPrompt, t)]);
      && window != []
      && RenderHistory(window) ==
         RenderHistory(window[..|window| - 1]) + ("USER: " + userPrompt + "\n")
  {
    var e := Entry(User, userPrompt, t);
    var window := Window(history + [e]);
    WindowSlides(history, e);
    assert window[|window| - 1] == e;
    UserEntryLine(userPrompt, t);
  }

  lemma UserEntryLine(content: string, t: Timestamp)
    ensures EntryLine(Entry(User, content, t)) == "USER: " + content + "\n"
  {
    UserLabel();
    assert "USER" + ": " == "USER: ";
  }
}
