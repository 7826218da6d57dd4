/**
 * RunCommand: run the command built from the template and the selection,
 * read the first line of its output, and turn what happened into the one
 * text the popup shows.
 *
 * Spawning, reading and waiting are not performed; their results are the
 * `Spawn` value. strerror is the parameter `strerror`.
 */
module Runner {
  import opened Strings
  import Template

  /** errno for "resource temporarily unavailable" (Linux). */
  const EAGAIN: int := 11

  /** The size argument given to fgets; it reads at most one character fewer. */
  const LineBuffer: nat := 99

  /** An exit code as WEXITSTATUS extracts it: eight bits. */
  type ExitCode = c: int | 0 <= c < 256

  /** What pclose reports: a normal exit with its code, or any other end. */
  datatype WaitStatus = Exited(code: ExitCode) | Abnormal

  /**
   * What the host did with the command: popen failed with an errno, or the
   * command ran, wrote `output` (everything fgets could see before end of
   * file or error), left errno at `readErrno` when nothing was read, and
   * ended with `status`.
   */
  datatype Spawn =
    | PipeFailed(errno: int)
    | Spawned(output: seq<char>, readErrno: int, status: WaitStatus)

  /** How long the line fgets reads is when it may take at most `budget` characters. */
  function LineLength(out: seq<char>, budget: nat): (n: nat)
    ensures n <= |out| && n <= budget
    ensures forall i :: 0 <= i < n - 1 ==> out[i] != '\n'
    ensures n == |out| || n == budget || (n > 0 && out[n - 1] == '\n')
    ensures out != [] && budget > 0 ==> n > 0
    decreases budget
  {
    if out == [] || budget == 0 then 0
    else if out[0] == '\n' then 1
    else 1 + LineLength(out[1..], budget - 1)
  }

  /**
   * fgets(result, 99, fifo): NULL when nothing can be read; otherwise the
   * characters up to and including the first newline, stopping early after
   * 98 characters or at the end of the output.
   */
  function FirstLine(out: seq<char>): (r: Option<seq<char>>)
    ensures r.None? <==> out == []
    ensures r.Some? ==> 1 <= |r.value| <= LineBuffer - 1 && |r.value| <= |out| && r.value == out[..|r.value|]
    ensures r.Some? ==> forall i :: 0 <= i < |r.value| - 1 ==> r.value[i] != '\n'
    ensures r.Some? ==>
      r.value == out || |r.value| == LineBuffer - 1 || r.value[|r.value| - 1] == '\n'
  {
    if out == [] then None else Some(out[..LineLength(out, LineBuffer - 1)])
  }

  /**
   * The index the program writes the terminator to after fgets succeeds,
   * strlen(result) - 1, as written: the last character before the first
   * NUL, or the last character when there is no NUL. It is -1, one before
   * the buffer, exactly when the line read starts with a NUL.
   */
  function CutIndex(buf: seq<char>): (k: int)
    ensures -1 <= k < |buf|
    ensures k < 0 <==> buf == [] || buf[0] == NUL
    ensures forall i :: 0 <= i <= k ==> buf[i] != NUL
    ensures 0 <= k && k + 1 < |buf| ==> buf[k + 1] == NUL
  {
    |CString(buf)| - 1
  }

  /** A command whose output starts with a NUL byte makes the program write before its buffer. */
  lemma NulLineCutsBeforeBuffer()
    ensures FirstLine("\0") == Some("\0")
    ensures CutIndex("\0") == -1
  {
    assert LineLength("\0", LineBuffer - 1) == 1;
  }

  /**
   * The line the popup shows: the C string fgets produced with its last
   * character cut off, whether or not that character is a newline. The
   * cut is made only when there is a character to cut, so that it always
   * lands inside the buffer. This is also the text the program shows: its
   * write before the buffer, for a line starting with a NUL, still leaves
   * an empty C string; only where the write lands differs.
   */
  function StripLine(buf: seq<char>): (s: string)
    ensures NUL !in s && |s| <= |buf| && s == buf[..|s|]
    ensures buf != [] ==> |s| < |buf|
    ensures CString(buf) != [] ==> s + [buf[|s|]] == CString(buf)
    ensures CString(buf) == [] ==> s == []
  {
    var c := CString(buf);
    if c == [] then [] else c[..|c| - 1]
  }

  /**
   * Where the program's cut lands inside the buffer, it cuts exactly where
   * StripLine does; where it lands before the buffer, StripLine shows the
   * empty text the program's C string holds.
   */
  lemma CutMatchesStripLine(buf: seq<char>)
    ensures 0 <= CutIndex(buf) ==> StripLine(buf) == buf[..CutIndex(buf)]
    ensures CutIndex(buf) < 0 ==> StripLine(buf) == [] && CString(buf) == []
  {
  }

  /** A line ending in a newline is shown without it. */
  lemma StripDropsNewline(text: string)
    requires NUL !in text && '\n' !in text
    ensures StripLine(text + "\n") == text
  {
    var buf := text + "\n";
    assert NUL !in buf;
    assert CString(buf) == buf;
  }

  /** The kinds of outcome the popup's text reports. */
  datatype Kind =
    | Success       // exit 0 and a line was read
    | Empty         // exit 0, nothing read, errno says no data yet
    | ReadError     // exit 0, nothing read for another reason
    | SpawnError    // popen failed
    | Signaled      // the command did not exit normally
    | NotFound      // exit 127
    | NotExecutable // exit 126
    | ProcessError  // any other nonzero exit

  /**
   * The decision table, one row per kind, each row stated on its own
   * without relying on the order of the others.
   */
  ghost predicate Row(s: Spawn, k: Kind) {
    match k
    case SpawnError => s.PipeFailed?
    case Signaled => s.Spawned? && s.status.Abnormal?
    case NotFound => s.Spawned? && s.status == Exited(127)
    case NotExecutable => s.Spawned? && s.status == Exited(126)
    case ProcessError =>
      s.Spawned? && s.status.Exited? && s.status.code != 0 && s.status.code != 126 && s.status.code != 127
    case Success => s.Spawned? && s.status == Exited(0) && s.output != []
    case Empty => s.Spawned? && s.status == Exited(0) && s.output == [] && s.readErrno == EAGAIN
    case ReadError => s.Spawned? && s.status == Exited(0) && s.output == [] && s.readErrno != EAGAIN
  }

  /** The kind of an outcome, in the order the program tests for them. */
  function Classify(s: Spawn): (k: Kind)
    ensures Row(s, k)
  {
    match s
    case PipeFailed(_) => SpawnError
    case Spawned(out, e, status) =>
      if status == Exited(0) then
        if FirstLine(out).Some? then Success else if e == EAGAIN then Empty else ReadError
      else if status.Abnormal? then Signaled
      else if status.code == 127 then NotFound
      else if status.code == 126 then NotExecutable
      else ProcessError
  }

  /** Every outcome meets exactly one row of the table, the one Classify picks. */
  lemma ClassifyIsTable(s: Spawn, k: Kind)
    ensures Row(s, k) <==> Classify(s) == k
  {
  }

  /**
   * The text for an outcome of running `command`, following the program:
   * the line (or the read failure) is settled before pclose, and is
   * reported only when the command exited with 0.
   */
  function Report(command: string, s: Spawn, strerror: int -> ErrorText): (r: Option<string>)
    ensures r.Some?
    ensures Classify(s) != Success ==> |r.value| > 0
    ensures Classify(s) == Success ==> |r.value| <= LineBuffer - 2 && |r.value| <= |s.output| && r.value == s.output[..|r.value|]
  {
    match s
    case PipeFailed(e) => Some(Concat(">> pipe creation error: ", strerror(e)))
    case Spawned(out, e, status) =>
      var line :=
        match FirstLine(out)
        case Some(buf) => StripLine(buf)
        case None =>
          if e == EAGAIN then Concat(">> no output from command: ", command)
          else Concat(">> reading error: ", strerror(e));
      if status.Exited? && status.code == 0 then Some(line)
      else if status.Abnormal? then Some(Concat(">> abnormal command termination: ", command))
      else if status.code == 127 then Some(Concat(">> command not found: ", command))
      else if status.code == 126 then Some(Concat(">> command not executable: ", command))
      else Some(strerror(status.code))
  }

  /** The text of every kind of outcome. */
  lemma ReportByKind(command: string, s: Spawn, strerror: int -> ErrorText)
    ensures var text := Report(command, s, strerror).value;
      && (Classify(s) == SpawnError ==> text == ">> pipe creation error: " + strerror(s.errno))
      && (Classify(s) == Signaled ==> text == ">> abnormal command termination: " + command)
      && (Classify(s) == NotFound ==> text == ">> command not found: " + command)
      && (Classify(s) == NotExecutable ==> text == ">> command not executable: " + command)
      && (Classify(s) == ProcessError ==> text == strerror(s.status.code))
      && (Classify(s) == Success ==> text == StripLine(FirstLine(s.output).value))
      && (Classify(s) == Empty ==> text == ">> no output from command: " + command)
      && (Classify(s) == ReadError ==> text == ">> reading error: " + strerror(s.readErrno))
  {
  }

  /** Exit 0 with the output `X\n` shows `X`. */
  lemma SuccessShowsLine(command: string, text: string, e: int, strerror: int -> ErrorText)
    requires NUL !in text && '\n' !in text && |text| < LineBuffer - 1
    ensures Report(command, Spawned(text + "\n", e, Exited(0)), strerror) == Some(text)
  {
    var out := text + "\n";
    assert LineLength(out, LineBuffer - 1) == |out|;
    assert out[..|out|] == out;
    StripDropsNewline(text);
  }

  /**
   * An empty first line is shown as an empty text. It is not the only
   * empty popup: a one-character output without a newline loses that
   * character too.
   */
  lemma EmptyLineShowsNothing(command: string, e: int, strerror: int -> ErrorText)
    ensures Report(command, Spawned("\n", e, Exited(0)), strerror) == Some("")
  {
    assert LineLength("\n", LineBuffer - 1) == 1;
  }

  /**
   * RunCommand: never NULL, so the program's branch for a failed run is
   * dead; every diagnostic is non-empty; a shown line is a prefix of the
   * output of at most 97 characters.
   */
  function RunCommand(template: string, selection: string, s: Spawn, strerror: int -> ErrorText): (r: Option<string>)
    ensures r.Some?
    ensures Classify(s) != Success ==> |r.value| > 0
    ensures Classify(s) == Success ==> |r.value| <= LineBuffer - 2 && |r.value| <= |s.output| && r.value == s.output[..|r.value|]
  {
    Report(Template.Substitute(template, selection), s, strerror)
  }

  /** RunCommand on the corrected command, from the program's argument, as GuardedStep uses it. */
  function SafeRunCommand(argument: string, selection: string, s: Spawn, strerror: int -> ErrorText): (r: Option<string>)
    ensures r.Some?
    ensures Classify(s) != Success ==> |r.value| > 0
    ensures Classify(s) == Success ==> |r.value| <= LineBuffer - 2 && |r.value| <= |s.output| && r.value == s.output[..|r.value|]
  {
    Report(Template.SafeCommand(argument, selection), s, strerror)
  }
}
