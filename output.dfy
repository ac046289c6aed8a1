/**
 * The report `HackAssistant._execute_command` makes of a finished shell
 * command: a `STDOUT:` section, a `STDERR:` section and a `Return code:`
 * line, each only when there is something to say, or a fixed message.
 */
module CommandOutput {
  import opened PyStr

  /** What running the command gave: the three results of `subprocess.run`, or
      the text of the exception raised while running it. */
  datatype ExecResult =
    | Completed(stdout: string, stderr: string, returnCode: int)
    | Raised(message: string)

  const NoOutputMessage := "Command executed successfully (no output)"
  const ExecErrorPrefix := "\U{274C} Error executing command: "

  /** A labelled section, present only when its text is not empty. */
  function Section(name: string, text: string): string {
    if text != "" then name + ":\n" + text + "\n" else ""
  }

  /** The return-code line, present only for a non-zero code. */
  function CodeLine(returnCode: int): string {
    if returnCode != 0 then "Return code: " + IntToDecimal(returnCode) + "\n" else ""
  }

  /** The report for a completed command: the sections that apply, or the fixed message. */
  function FormatOutput(stdout: string, stderr: string, returnCode: int): (r: string)
    ensures r != ""
    ensures r[0] == 'S' || r[0] == 'R' || r[0] == 'C'
  {
    var output := Section("STDOUT", stdout) + Section("STDERR", stderr) + CodeLine(returnCode);
    if output != "" then output else NoOutputMessage
  }

  /** The `output +=` steps of `_execute_command`, one section at a time. */
  method BuildReport(stdout: string, stderr: string, returnCode: int) returns (output: string)
    ensures output == FormatOutput(stdout, stderr, returnCode)
  {
    assert "STDOUT" + ":\n" == "STDOUT:\n" && "STDERR" + ":\n" == "STDERR:\n";
    output := "";
    if stdout != "" {
      output := output + ("STDOUT:\n" + stdout + "\n");
    }
    assert output == Section("STDOUT", stdout);
    if stderr != "" {
      output := output + ("STDERR:\n" + stderr + "\n");
    }
    assert output == Section("STDOUT", stdout) + Section("STDERR", stderr);
    if returnCode != 0 {
      output := output + ("Return code: " + IntToDecimal(returnCode) + "\n");
    }
    assert output == Section("STDOUT", stdout) + Section("STDERR", stderr) + CodeLine(returnCode);
    if output == "" {
      output := NoOutputMessage;
    }
  }

  /** Where the `STDERR:` section would start: just after the `STDOUT:` one. */
  function StderrOffset(stdout: string): nat {
    if stdout == "" then 0 else |stdout| + 9
  }

  /** Where the `Return code:` line would start: just after both sections. */
  function CodeOffset(stdout: string, stderr: string): nat {
    StderrOffset(stdout) + (if stderr == "" then 0 else |stderr| + 9)
  }

  /** When there is something to say, the report is the sections that apply, in order. */
  lemma ReportParts(stdout: string, stderr: string, returnCode: int)
    requires stdout != "" || stderr != "" || returnCode != 0
    ensures FormatOutput(stdout, stderr, returnCode) ==
      Section("STDOUT", stdout) + (Section("STDERR", stderr) + CodeLine(returnCode))
  {
    var head, err, code := Section("STDOUT", stdout), Section("STDERR", stderr), CodeLine(returnCode);
    assert |head| + |err| + |code| > 0;
    assert head + err + code == head + (err + code);
  }

  /** A `STDERR:` section opens with the letters `STDE`. */
  lemma StderrOpening(stderr: string, returnCode: int)
    requires stderr != ""
    ensures |Section("STDERR", stderr) + CodeLine(returnCode)| >= 9
    ensures (Section("STDERR", stderr) + CodeLine(returnCode))[0] == 'S'
    ensures (Section("STDERR", stderr) + CodeLine(returnCode))[3] == 'E'
  {
  }

  /** The report opens with a `STDOUT:` section exactly when there is standard output. */
  lemma FormatOutputStdout(stdout: string, stderr: string, returnCode: int)
    ensures stdout != "" <==> StartsWith(FormatOutput(stdout, stderr, returnCode), "STDOUT:\n" + stdout + "\n")
  {
    var r := FormatOutput(stdout, stderr, returnCode);
    var p := "STDOUT:\n" + stdout + "\n";
    if stdout == "" {
      if stderr == "" && returnCode == 0 {
        assert r[0] == 'C';
      } else {
        ReportParts(stdout, stderr, returnCode);
        NoStdoutSection(stderr, returnCode);
      }
    } else {
      ReportParts(stdout, stderr, returnCode);
      assert "STDOUT" + ":\n" == "STDOUT:\n";
      assert Section("STDOUT", stdout) == p;
      assert r[..|p|] == p;
    }
  }

  /** Without standard output, the sections that apply do not open with `STDOUT:`. */
  lemma NoStdoutSection(stderr: string, returnCode: int)
    ensures !StartsWith(Section("STDOUT", "") + (Section("STDERR", stderr) + CodeLine(returnCode)), "STDOUT:\n" + "" + "\n")
  {
    var tail, p := Section("STDERR", stderr) + CodeLine(returnCode), "STDOUT:\n" + "" + "\n";
    assert Section("STDOUT", "") + tail == tail;
    assert |p| == 9 && p[3] == 'O';
    if stderr != "" {
      StderrOpening(stderr, returnCode);
      assert tail[..9][3] == 'E';
    } else if returnCode == 0 {
      assert |tail| == 0;
    } else if |tail| >= 9 {
      assert tail[..9][0] == 'R';
    }
  }

  /** A `STDERR:` section follows exactly when there is standard error. */
  lemma FormatOutputStderr(stdout: string, stderr: string, returnCode: int)
    ensures StderrOffset(stdout) <= |FormatOutput(stdout, stderr, returnCode)|
    ensures stderr != "" <==>
      StartsWith(FormatOutput(stdout, stderr, returnCode)[StderrOffset(stdout)..], "STDERR:\n" + stderr + "\n")
  {
    var r := FormatOutput(stdout, stderr, returnCode);
    var k := StderrOffset(stdout);
    if stdout == "" && stderr == "" && returnCode == 0 {
      assert r[0] == 'C';
    } else {
      ReportParts(stdout, stderr, returnCode);
      assert |Section("STDOUT", stdout)| == k;
      assert r[k..] == Section("STDERR", stderr) + CodeLine(returnCode);
      StderrSection(stderr, returnCode);
    }
  }

  /** After the `STDOUT:` section, a `STDERR:` section opens the rest exactly when there is standard error. */
  lemma StderrSection(stderr: string, returnCode: int)
    ensures stderr != "" <==> StartsWith(Section("STDERR", stderr) + CodeLine(returnCode), "STDERR:\n" + stderr + "\n")
  {
    var tail := Section("STDERR", stderr) + CodeLine(returnCode);
    var p := "STDERR:\n" + stderr + "\n";
    if stderr == "" {
      NoStderrSection(returnCode);
    } else {
      assert "STDERR" + ":\n" == "STDERR:\n";
      assert Section("STDERR", stderr) == p;
      assert tail[..|p|] == p;
    }
  }

  lemma NoStderrSection(returnCode: int)
    ensures !StartsWith(Section("STDERR", "") + CodeLine(returnCode), "STDERR:\n" + "" + "\n")
  {
    var tail, p := CodeLine(returnCode), "STDERR:\n" + "" + "\n";
    assert Section("STDERR", "") + tail == tail;
    assert |p| == 9 && p[0] == 'S';
    if returnCode == 0 {
      assert |tail| == 0;
    } else if |tail| >= 9 {
      assert tail[..9][0] == 'R';
    }
  }

  /** The report ends with a `Return code:` line exactly when the code is not 0. */
  lemma FormatOutputReturnCode(stdout: string, stderr: string, returnCode: int)
    ensures CodeOffset(stdout, stderr) <= |FormatOutput(stdout, stderr, returnCode)|
    ensures returnCode != 0 <==>
      FormatOutput(stdout, stderr, returnCode)[CodeOffset(stdout, stderr)..]
        == "Return code: " + IntToDecimal(returnCode) + "\n"
  {
    var r := FormatOutput(stdout, stderr, returnCode);
    var m := CodeOffset(stdout, stderr);
    assert |Section("STDOUT", stdout) + Section("STDERR", stderr)| == m;
    if returnCode == 0 && stdout == "" && stderr == "" {
      assert r[0] == 'C';
    }
  }

  /** The fixed message is the report exactly when there is nothing else to say. */
  lemma FormatOutputNoOutput(stdout: string, stderr: string, returnCode: int)
    ensures FormatOutput(stdout, stderr, returnCode) == NoOutputMessage <==>
      stdout == "" && stderr == "" && returnCode == 0
  {
    var r := FormatOutput(stdout, stderr, returnCode);
    if stdout != "" || stderr != "" || returnCode != 0 {
      assert r[0] == 'S' || r[0] == 'R';
    }
  }

  /** What `_execute_command` returns for any outcome of the shell call. */
  function CommandReport(result: ExecResult): (r: string)
    ensures r != ""
    ensures result.Raised? ==> StartsWith(r, ExecErrorPrefix)
    ensures result.Completed? ==> !StartsWith(r, ExecErrorPrefix)
  {
    match result
    case Completed(out, err, code) => FormatOutput(out, err, code)
    case Raised(message) => ExecErrorPrefix + message
  }
}
