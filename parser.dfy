/**
 * The reply parser of `HackAssistant._get_ai_response`: the model's reply is
 * read line by line; a `RESPONSE:` line gives the explanation, a `COMMAND:`
 * line the suggested command, later lines overriding earlier ones.
 */
module ReplyParser {
  import opened Optional
  import opened PyStr

  const ResponseMarker := "RESPONSE:"
  const CommandMarker := "COMMAND:"

  /** An explanation for the user and, possibly, one shell command. */
  datatype Suggestion = Suggestion(explanation: string, command: Option<string>)

  predicate IsResponseLine(line: string) {
    StartsWith(line, ResponseMarker)
  }

  predicate IsCommandLine(line: string) {
    StartsWith(line, CommandMarker)
  }

  /** The text a `RESPONSE:` line carries: every marker removed, then stripped. */
  function ResponseValue(line: string): string {
    Strip(RemoveAll(line, ResponseMarker))
  }

  /** The text a `COMMAND:` line carries: every marker removed, then stripped. */
  function CommandValue(line: string): string {
    Strip(RemoveAll(line, CommandMarker))
  }

  /** A command text that is taken: not empty and not "none" in any case. */
  predicate IsActionable(cmd: string) {
    cmd != "" && Upper(cmd) != "NONE"
  }

  /** A line that sets the suggested command. */
  predicate SuggestsCommand(line: string) {
    IsCommandLine(line) && IsActionable(CommandValue(line))
  }

  /** No line starts with both markers. */
  lemma MarkersExclusive(line: string)
    ensures !(IsResponseLine(line) && IsCommandLine(line))
  {
    if IsResponseLine(line) {
      assert line[0] == ResponseMarker[0];
    }
  }

  /** The value of the last `RESPONSE:` line, if there is one. */
  function LastResponse(lines: seq<string>): (r: Option<string>)
    ensures r.Some? ==> IsStripped(r.value)
  {
    if lines == [] then None
    else if IsResponseLine(lines[|lines| - 1]) then Some(ResponseValue(lines[|lines| - 1]))
    else LastResponse(lines[..|lines| - 1])
  }

  /** The value of the last `COMMAND:` line that names a command, if there is one. */
  function LastCommand(lines: seq<string>): (r: Option<string>)
    ensures r.Some? ==> IsActionable(r.value) && IsStripped(r.value)
  {
    if lines == [] then None
    else if SuggestsCommand(lines[|lines| - 1]) then Some(CommandValue(lines[|lines| - 1]))
    else LastCommand(lines[..|lines| - 1])
  }

  /**
   * What the parser makes of a (stripped) reply: the last `RESPONSE:` value
   * when it is not empty, the whole reply otherwise, and the last command.
   */
  function Parse(reply: string): Suggestion {
    var lines := Split(reply, '\n');
    var text := LastResponse(lines).GetOr("");
    Suggestion(if text == "" then reply else text, LastCommand(lines))
  }

  /** The parsing loop of `_get_ai_response`. */
  method ParseReply(reply: string) returns (s: Suggestion)
    ensures s == Parse(reply)
  {
    var lines := Split(reply, '\n');
    var responseText := "";
    var suggestedCommand: Option<string> := None;
    for i := 0 to |lines|
      invariant responseText == LastResponse(lines[..i]).GetOr("")
      invariant suggestedCommand == LastCommand(lines[..i])
    {
      assert lines[..i + 1][..i] == lines[..i];
      var line := lines[i];
      if StartsWith(line, ResponseMarker) {
        MarkersExclusive(line);
        responseText := Strip(RemoveAll(line, ResponseMarker));
      } else if StartsWith(line, CommandMarker) {
        var cmd := Strip(RemoveAll(line, CommandMarker));
        if cmd != "" && Upper(cmd) != "NONE" {
          suggestedCommand := Some(cmd);
        }
      }
    }
    assert lines[..|lines|] == lines;
    if responseText == "" {
      responseText := reply;
    }
    s := Suggestion(responseText, suggestedCommand);
  }

  /** No `RESPONSE:` line at all: no explanation is found. */
  lemma {:induction false} LastResponseNone(lines: seq<string>)
    ensures LastResponse(lines) == None <==>
      forall i :: 0 <= i < |lines| ==> !IsResponseLine(lines[i])
  {
    if lines != [] {
      var init := lines[..|lines| - 1];
      LastResponseNone(init);
      assert forall i :: 0 <= i < |init| ==> init[i] == lines[i];
    }
  }

  /** The last `RESPONSE:` line wins, whatever it carries and whatever came before. */
  lemma {:induction false} LastResponseIsLast(lines: seq<string>, i: nat)
    requires i < |lines| && IsResponseLine(lines[i])
    requires forall j :: i < j < |lines| ==> !IsResponseLine(lines[j])
    ensures LastResponse(lines) == Some(ResponseValue(lines[i]))
  {
    if i < |lines| - 1 {
      var init := lines[..|lines| - 1];
      assert forall j :: i < j < |init| ==> init[j] == lines[j];
      LastResponseIsLast(init, i);
    }
  }

  /** No line that names a command: no command is suggested. */
  lemma {:induction false} LastCommandNone(lines: seq<string>)
    ensures LastCommand(lines) == None <==>
      forall i :: 0 <= i < |lines| ==> !SuggestsCommand(lines[i])
  {
    if lines != [] {
      var init := lines[..|lines| - 1];
      LastCommandNone(init);
      assert forall i :: 0 <= i < |init| ==> init[i] == lines[i];
    }
  }

  /**
   * The last line that names a command wins; `COMMAND:` lines after it that
   * are empty or say "none" do not take it back.
   */
  lemma {:induction false} LastCommandIsLast(lines: seq<string>, i: nat)
    requires i < |lines| && SuggestsCommand(lines[i])
    requires forall j :: i < j < |lines| ==> !SuggestsCommand(lines[j])
    ensures LastCommand(lines) == Some(CommandValue(lines[i]))
  {
    if i < |lines| - 1 {
      var init := lines[..|lines| - 1];
      assert forall j :: i < j < |init| ==> init[j] == lines[j];
      LastCommandIsLast(init, i);
    }
  }

  /** The explanation is empty exactly when the reply is. */
  lemma ExplanationEmptyIffReplyEmpty(reply: string)
    ensures Parse(reply).explanation == "" <==> reply == ""
  {
    if reply == "" {
      assert Split(reply, '\n') == [""];
    }
  }

  /** A stripped reply gives a stripped explanation. */
  lemma ExplanationStripped(reply: string)
    requires IsStripped(reply)
    ensures IsStripped(Parse(reply).explanation)
  {
  }

  /** The command, when there is one, is never empty and never "none". */
  lemma CommandActionable(reply: string)
    ensures Parse(reply).command.Some? ==>
      Parse(reply).command.value != "" && !IsNoneInAnyCase(Parse(reply).command.value)
  {
    if Parse(reply).command.Some? {
      UpperIsNone(Parse(reply).command.value);
    }
  }

  /** A reply without any marker line is shown whole, with no command. */
  lemma {:induction false} UnstructuredReply(reply: string)
    requires forall k :: 0 <= k < |Split(reply, '\n')| ==>
      !IsResponseLine(Split(reply, '\n')[k]) && !IsCommandLine(Split(reply, '\n')[k])
    ensures Parse(reply) == Suggestion(reply, None)
  {
    LastResponseNone(Split(reply, '\n'));
    LastCommandNone(Split(reply, '\n'));
  }

  /** The explanation is the last `RESPONSE:` value when that is not empty. */
  lemma {:induction false} ExplanationFromLastResponse(reply: string, i: nat)
    requires i < |Split(reply, '\n')| && IsResponseLine(Split(reply, '\n')[i])
    requires forall j :: i < j < |Split(reply, '\n')| ==> !IsResponseLine(Split(reply, '\n')[j])
    ensures ResponseValue(Split(reply, '\n')[i]) != "" ==>
      Parse(reply).explanation == ResponseValue(Split(reply, '\n')[i])
    ensures ResponseValue(Split(reply, '\n')[i]) == "" ==> Parse(reply).explanation == reply
  {
    LastResponseIsLast(Split(reply, '\n'), i);
  }

  /** The value of a marker line whose rest holds no second marker. */
  lemma MarkerValue(marker: string, rest: string)
    requires marker != [] && !Contains(rest, marker)
    ensures Strip(RemoveAll(marker + rest, marker)) == Strip(rest)
  {
    RemoveAllPrefixed(marker, rest);
    RemoveAllAbsent(rest, marker);
  }

  /**
   * `replace` drops every marker in the line, not only the leading one: a
   * second `RESPONSE:` inside the text disappears too, leaving the spaces
   * around it.
   */
  lemma InnerMarkerRemoved()
    ensures ResponseValue("RESPONSE: a RESPONSE: b") == "a  b"
  {
    InnerMarkerText();
    assert " a " + " b" == [' '] + "a  b";
    StripOneSpace("a  b");
  }

  lemma InnerMarkerText()
    ensures RemoveAll("RESPONSE: a RESPONSE: b", ResponseMarker) == " a " + " b"
  {
    assert "RESPONSE: a RESPONSE: b" == ResponseMarker + (" a " + ResponseMarker + " b");
    RemoveAllPrefixed(ResponseMarker, " a " + ResponseMarker + " b");
    RemoveAllInner(" a ", ResponseMarker, " b");
    FirstCharAbsent(" b", ResponseMarker);
    RemoveAllAbsent(" b", ResponseMarker);
  }

  /** The reply `RESPONSE: Lists files` / `COMMAND: ls -la`. */
  lemma ListsFilesExample()
    ensures Parse("RESPONSE: Lists files\nCOMMAND: ls -la") == Suggestion("Lists files", Some("ls -la"))
  {
    var first, second := "RESPONSE: Lists files", "COMMAND: ls -la";
    ListsFilesLines();
    ListsFilesResponse();
    ListsFilesCommand();
    var lines := [first, second];
    assert lines[..1] == [first];
    assert LastResponse(lines) == Some("Lists files");
    assert LastCommand(lines) == Some("ls -la");
  }

  lemma ListsFilesLines()
    ensures Split("RESPONSE: Lists files\nCOMMAND: ls -la", '\n') == ["RESPONSE: Lists files", "COMMAND: ls -la"]
  {
    assert "RESPONSE: Lists files\nCOMMAND: ls -la" == "RESPONSE: Lists files" + ['\n'] + "COMMAND: ls -la";
    SplitTwo("RESPONSE: Lists files", '\n', "COMMAND: ls -la");
  }

  lemma ListsFilesResponse()
    ensures IsResponseLine("RESPONSE: Lists files")
    ensures ResponseValue("RESPONSE: Lists files") == "Lists files"
  {
    assert "RESPONSE: Lists files" == ResponseMarker + ([' '] + "Lists files");
    assert "RESPONSE: Lists files"[..|ResponseMarker|] == ResponseMarker;
    ListsFilesResponseValue();
  }

  lemma ListsFilesResponseValue()
    ensures ResponseValue("RESPONSE: Lists files") == "Lists files"
  {
    assert "RESPONSE: Lists files" == ResponseMarker + ([' '] + "Lists files");
    FirstCharAbsent([' '] + "Lists files", ResponseMarker);
    MarkerValue(ResponseMarker, [' '] + "Lists files");
    StripOneSpace("Lists files");
  }

  lemma ListsFilesCommand()
    ensures !IsResponseLine("COMMAND: ls -la")
    ensures SuggestsCommand("COMMAND: ls -la")
    ensures CommandValue("COMMAND: ls -la") == "ls -la"
  {
    ListsFilesCommandKind();
    ListsFilesCommandValue();
    assert |Upper("ls -la")| == 6;
  }

  lemma ListsFilesCommandKind()
    ensures !IsResponseLine("COMMAND: ls -la") && IsCommandLine("COMMAND: ls -la")
  {
    var line := "COMMAND: ls -la";
    assert line[0] != ResponseMarker[0];
    assert line == CommandMarker + ([' '] + "ls -la");
    assert line[..|CommandMarker|] == CommandMarker;
  }

  lemma ListsFilesCommandValue()
    ensures CommandValue("COMMAND: ls -la") == "ls -la"
  {
    assert "COMMAND: ls -la" == CommandMarker + ([' '] + "ls -la");
    FirstCharAbsent([' '] + "ls -la", CommandMarker);
    MarkerValue(CommandMarker, [' '] + "ls -la");
    StripOneSpace("ls -la");
  }
}
