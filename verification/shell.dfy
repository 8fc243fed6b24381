/** The shell-script helpers: validation (exists, executable or made so),
    execution with an optional timeout, and the static safety scan. The
    file system is a map from path to file; what running the script does is
    a parameter. */
module Shell {
  import opened Wrappers
  import opened Text

  /** A regular file: its text, or the message reading it raised; whether
      it is executable; whether `chmod 755` on it would succeed. */
  datatype FileEntry = FileEntry(content: Result<string, string>, executable: bool, chmodOk: bool)

  type FileSystem = map<string, FileEntry>

  // ------------------------------------------------------------ validate

  /** `validate_script`: a missing file is invalid; a file that is not
      executable is made executable, and is invalid only if that fails.
      Returns the verdict and the file system after any permission change. */
  function ValidateScript(fs: FileSystem, path: string): (r: (bool, FileSystem))
    ensures r.0 <==> path in fs && (fs[path].executable || fs[path].chmodOk)
    ensures r.1.Keys == fs.Keys
    ensures forall p :: p in fs && p != path ==> r.1[p] == fs[p]
    ensures path in fs ==> r.1[path] == fs[path].(executable := r.0)
  {
    if path !in fs then (false, fs)
    else if fs[path].executable then (true, fs)
    else if fs[path].chmodOk then (true, fs[path := fs[path].(executable := true)])
    else (false, fs)
  }

  /** Validation settles the file's state: validating again gives the same
      verdict and changes nothing further. */
  lemma ValidateSettles(fs: FileSystem, path: string)
    ensures var (ok, fs') := ValidateScript(fs, path);
      ValidateScript(fs', path) == (ok, fs')
  {
  }

  // ------------------------------------------------------------- execute

  /** What the launched process did: exited within the time allowed (with
      its outputs and the user and system CPU time it used), overran the
      timeout (with the outputs collected after the kill), or raised
      before or while running. */
  datatype RunOutcome =
    | Ran(code: int, stdout: string, stderr: string, userTime: int, systemTime: int)
    | TimedOut(stdout: string, stderr: string)
    | Raised(message: string)

  /** The dictionary `execute_script` returns. The three CPU times are
      present only when the process ran to completion. */
  datatype ShellResult = ShellResult(
    success: bool,
    exitCode: int,
    stdout: string,
    stderr: string,
    error: Option<string>,
    userTime: Option<int>,
    systemTime: Option<int>,
    totalTime: Option<int>)

  /** Python's rendering of an optional timeout in a message. */
  function TimeoutText(timeout: Option<int>): (s: string)
    ensures timeout.None? ==> s == "None"
    ensures timeout.Some? ==> s == IntToString(timeout.value)
  {
    match timeout
    case None => "None"
    case Some(t) => IntToString(t)
  }

  /** `execute_script`: validates first, keeping the permission change it
      may make; an invalid script is reported without running; otherwise
      the outcome decides: a completed run reports its code and times, a
      timeout or an exception reports exit code -1 and an error. Returns the
      result and the file system afterwards. */
  function ExecuteScript(fs: FileSystem, path: string, timeout: Option<int>, run: RunOutcome): (r: (ShellResult, FileSystem))
    ensures r.1 == ValidateScript(fs, path).1
    ensures !ValidateScript(fs, path).0 ==> r.0 == ShellResult(false, -1, "", "Invalid script: " + path,
      Some("Script not found or not executable: " + path), None, None, None)
    ensures ValidateScript(fs, path).0 && run.Ran? ==>
      && r.0.exitCode == run.code && r.0.stdout == run.stdout && r.0.stderr == run.stderr
      && r.0.error.None?
      && r.0.userTime == Some(run.userTime) && r.0.systemTime == Some(run.systemTime)
    ensures ValidateScript(fs, path).0 && run.TimedOut? ==>
      r.0 == ShellResult(false, -1, run.stdout, run.stderr,
        Some("Script execution timed out after " + TimeoutText(timeout) + " seconds"), None, None, None)
    ensures ValidateScript(fs, path).0 && run.Raised? ==>
      r.0 == ShellResult(false, -1, "", "", Some(run.message), None, None, None)
  {
    var (valid, fs') := ValidateScript(fs, path);
    if !valid then
      (ShellResult(false, -1, "", "Invalid script: " + path,
        Some("Script not found or not executable: " + path), None, None, None), fs')
    else
      match run
      case Ran(code, out, err, u, sys) =>
        (ShellResult(code == 0, code, out, err, None, Some(u), Some(sys), Some(u + sys)), fs')
      case TimedOut(out, err) =>
        (ShellResult(false, -1, out, err,
          Some("Script execution timed out after " + TimeoutText(timeout) + " seconds"), None, None, None), fs')
      case Raised(m) =>
        (ShellResult(false, -1, "", "", Some(m), None, None, None), fs')
  }

  /** Executing makes a valid script executable, so a second execution of
      it validates without any further change to the file system. */
  lemma ExecuteLeavesScriptExecutable(fs: FileSystem, path: string, timeout: Option<int>, run: RunOutcome)
    requires ValidateScript(fs, path).0
    ensures var fs' := ExecuteScript(fs, path, timeout, run).1;
      path in fs' && fs'[path].executable && ValidateScript(fs', path) == (true, fs')
  {
  }

  /** `success` and `exit_code == 0` always agree, and success means the
      script was valid and ran to completion. */
  lemma SuccessIffExitZero(fs: FileSystem, path: string, timeout: Option<int>, run: RunOutcome)
    ensures var r := ExecuteScript(fs, path, timeout, run).0;
      && (r.success <==> r.exitCode == 0)
      && (r.success <==> ValidateScript(fs, path).0 && run.Ran? && run.code == 0)
  {
  }

  /** Exactly the results of completed runs carry times and no error, and
      their total is the sum of user and system time. */
  lemma TimesOnlyForCompletedRuns(fs: FileSystem, path: string, timeout: Option<int>, run: RunOutcome)
    ensures var r := ExecuteScript(fs, path, timeout, run).0;
      && (r.totalTime.Some? <==> ValidateScript(fs, path).0 && run.Ran?)
      && (r.error.None? <==> r.totalTime.Some?)
      && (r.totalTime.Some? ==> r.totalTime.value == r.userTime.value + r.systemTime.value)
  {
  }

  // --------------------------------------------------------- safety scan

  /** The patterns the scan refuses, in the order they are tried. */
  const DangerousCommands: seq<string> := [
    "rm -rf /", "rm -rf /*", "mkfs", "dd if=/dev/zero",
    "> /dev/sda", "fork bomb", ":(){:|:&};:"]

  /** The first of `cmds` occurring in `content`, if any. */
  function FirstMatch(content: string, cmds: seq<string>): (r: Option<string>)
    ensures r.None? <==> forall i :: 0 <= i < |cmds| ==> !Contains(content, cmds[i])
    ensures r.Some? ==> exists i :: (0 <= i < |cmds| && cmds[i] == r.value && Contains(content, cmds[i])
      && forall j :: 0 <= j < i ==> !Contains(content, cmds[j]))
    decreases |cmds|
  {
    if |cmds| == 0 then None
    else if Contains(content, cmds[0]) then Some(cmds[0])
    else
      var r := FirstMatch(content, cmds[1..]);
      assert forall i :: 1 <= i < |cmds| ==> cmds[1..][i - 1] == cmds[i];
      r
  }

  /** `is_script_safe`: a missing file, an unreadable file and a file
      containing one of the patterns are unsafe, each with its reason; the
      reason names the first pattern found. */
  function IsScriptSafe(fs: FileSystem, path: string): (r: (bool, string))
    ensures r.0 <==> (path in fs && fs[path].content.Ok? &&
      forall i :: 0 <= i < |DangerousCommands| ==> !Contains(fs[path].content.value, DangerousCommands[i]))
    ensures path !in fs ==> r.1 == "Script not found: " + path
    ensures path in fs && fs[path].content.Err? ==> r.1 == "Error checking script: " + fs[path].content.error
    ensures path in fs && fs[path].content.Ok? ==>
      var m := FirstMatch(fs[path].content.value, DangerousCommands);
      r.1 == if m.Some? then "Script contains dangerous command: " + m.value else "Script appears safe"
  {
    if path !in fs then (false, "Script not found: " + path)
    else
      match fs[path].content
      case Err(e) => (false, "Error checking script: " + e)
      case Ok(text) =>
        match FirstMatch(text, DangerousCommands)
        case Some(cmd) => (false, "Script contains dangerous command: " + cmd)
        case None => (true, "Script appears safe")
  }

  /** A copy of a pattern's extension contains the pattern itself. */
  lemma ContainsPrefix(s: string, t: string, n: nat)
    requires n <= |t| && Contains(s, t)
    ensures Contains(s, t[..n])
  {
    var i :| OccursAt(s, t, i);
    assert s[i..i + n] == t[..n];
    assert OccursAt(s, t[..n], i);
  }

  /** The second pattern extends the first by one character, and the first
      is tried first, so the second is never the pattern a reason names: it
      is dead. */
  lemma SecondPatternNeverReported(fs: FileSystem, path: string)
    ensures IsScriptSafe(fs, path).1 != "Script contains dangerous command: rm -rf /*"
  {
    if path !in fs {
      ReasonsDiffer("Script not found: ", path, 7);
    } else if fs[path].content.Err? {
      ReasonsDiffer("Error checking script: ", fs[path].content.error, 0);
    } else {
      var text := fs[path].content.value;
      FirstMatchNotSecond(text);
      MatchReasonDiffers(FirstMatch(text, DangerousCommands));
    }
  }

  /** Reasons naming different patterns differ. */
  lemma DangerReasonsDiffer(cmd: string)
    requires cmd != "rm -rf /*"
    ensures "Script contains dangerous command: " + cmd != "Script contains dangerous command: rm -rf /*"
  {
    var pre := "Script contains dangerous command: ";
    assert (pre + cmd)[|pre|..] == cmd;
  }

  /** Two reasons that differ at position `k` of the first one's prefix. */
  lemma ReasonsDiffer(pre: string, rest: string, k: nat)
    requires k < |pre| && k < 44 && pre[k] != "Script contains dangerous command: rm -rf /*"[k]
    ensures pre + rest != "Script contains dangerous command: rm -rf /*"
  {
    assert (pre + rest)[k] == pre[k];
  }

  lemma FirstMatchNotSecond(text: string)
    ensures FirstMatch(text, DangerousCommands) != Some("rm -rf /*")
  {
    var m := FirstMatch(text, DangerousCommands);
    if m == Some("rm -rf /*") {
      var i :| 0 <= i < |DangerousCommands| && DangerousCommands[i] == m.value && Contains(text, DangerousCommands[i])
        && forall j :: 0 <= j < i ==> !Contains(text, DangerousCommands[j]);
      assert i == 1;
      assert DangerousCommands[1][..8] == DangerousCommands[0];
      ContainsPrefix(text, DangerousCommands[1], 8);
      assert false;
    }
  }

  /** The safety scan only reads: a file it calls safe is one `validate`
      may still refuse, and a scan after validation gives the same answer. */
  lemma ScanIgnoresPermissions(fs: FileSystem, path: string)
    ensures IsScriptSafe(ValidateScript(fs, path).1, path) == IsScriptSafe(fs, path)
  {
  }

  /** Neither the safe reason nor a reason naming another pattern is the
      second pattern's reason. */
  lemma MatchReasonDiffers(m: Option<string>)
    requires m != Some("rm -rf /*")
    ensures (if m.Some? then "Script contains dangerous command: " + m.value else "Script appears safe")
      != "Script contains dangerous command: rm -rf /*"
  {
    match m
    case Some(cmd) => DangerReasonsDiffer(cmd);
    case None => ReasonsDiffer("Script appears safe", "", 7);
  }
}
