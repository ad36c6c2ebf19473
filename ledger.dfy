/**
  The session ledger of the compile server: a supervisor that runs an ordered
  list of commands in a session's working directory, appending their output
  to `output.txt` line by line and writing each exit code to `status.txt`,
  and a reader that polls those two files.

  The working directory is modelled as a `WorkDir` object: whether it exists
  and the text of each file in it. The supervisor's background thread is run
  here as one sequential call (`EnqueueOutput`); what each command prints and
  the code it exits with are given up front as `Outcome`s. A reader's calls
  are operations on whatever state the directory is in when they run.
*/
module Ledger {
  import opened Text

  const OutputFile := "output.txt"
  const StatusFile := "status.txt"

  /** The debug code `poll` returns when the working directory is gone. */
  const PollDirMissing := 101
  /** The debug code `read_lines` returns when the working directory is gone. */
  const ReadDirMissing := 103

  /**
    What one command does: it is started and prints `output` (stdout and
    stderr merged), and `poll()` right after the end of its output sees
    `returnCode` (`None` when the child has not been reaped yet); or starting
    it raises, which ends the worker thread.
  */
  datatype Outcome = Finished(output: string, returnCode: Option<int>) | NotLaunched

  /** The command exited with code 0, so the supervisor goes on to the next one. */
  predicate Succeeded(o: Outcome) {
    o.Finished? && o.returnCode == Some(0)
  }

  /** What `str(returncode)` writes to the status file. */
  function StatusText(code: Option<int>): string {
    match code
    case None => "None"
    case Some(n) => IntToString(n)
  }

  /** What the output of a command adds to the ledger. */
  function OutputOf(o: Outcome): string {
    if o.Finished? then o.output else []
  }

  /** The result of `poll`: still running (`None`), an integer, or the `ValueError` of `int(...)`. */
  datatype PollResult = Running | Exited(code: int) | Malformed

  /** The result of `read_lines`: a list of lines, or the integer debug code. */
  datatype ReadResult = Lines(lines: seq<string>) | Code(code: int)

  /** The text of a file, or the empty text when there is none (what opening it to append starts from). */
  function FileText(files: map<string, string>, name: string): string {
    if name in files then files[name] else ""
  }

  /** A session's working directory on disk. */
  class WorkDir {
    /** The directory's basename, which is the session identifier. */
    const name: string
    var isDir: bool
    var files: map<string, string>

    /** A fresh, empty directory (`tempfile.mkdtemp`). */
    constructor (name: string)
      ensures this.name == name && isDir && files == map[]
    {
      this.name := name;
      isDir := true;
      files := map[];
    }

    /** Open `file` for writing and write `text`: the file now holds exactly `text`. */
    method WriteFile(file: string, text: string)
      requires isDir
      modifies this`files
      ensures files == old(files)[file := text]
    {
      files := files[file := text];
    }

    /** Open `file` in append mode and write `text` at its end, creating it if needed. */
    method AppendFile(file: string, text: string)
      requires isDir
      modifies this`files
      ensures files == old(files)[file := FileText(old(files), file) + text]
    {
      files := files[file := FileText(files, file) + text];
    }

    /** Append each of `lines` to `file` in turn, one write per line. */
    method AppendLines(file: string, lines: seq<string>)
      requires isDir
      modifies this`files
      ensures lines == [] ==> files == old(files)
      ensures lines != [] ==> files == old(files)[file := FileText(old(files), file) + Concat(lines)]
    {
      ghost var before := files;
      ghost var written: string := [];
      var n := 0;
      while n < |lines|
        invariant 0 <= n <= |lines|
        invariant written == Concat(lines[..n])
        invariant n == 0 ==> files == before
        invariant n > 0 ==> files == before[file := FileText(before, file) + written]
      {
        ConcatSnoc(lines[..n], lines[n]);
        assert lines[..n + 1] == lines[..n] + [lines[n]];
        ghost var t := FileText(before, file);
        assert FileText(files, file) + lines[n] == t + (written + lines[n]) by {
          if n == 0 {
            assert written + lines[n] == lines[n];
          }
        }
        AppendFile(file, lines[n]);
        written := written + lines[n];
        n := n + 1;
      }
      assert lines[..n] == lines;
    }

    /**
      What the supervisor does for one finished command: each line of its
      output appended to output.txt as it is read, then its exit code written
      to status.txt.
    */
    method RecordOutcome(o: Outcome)
      requires isDir && o.Finished?
      modifies this`files
      ensures files == AfterCommand(old(files), o)
    {
      var lines := SplitLines(o.output);
      AppendLines(OutputFile, lines);
      WriteFile(StatusFile, StatusText(o.returnCode));
      ConcatSplitLines(o.output);
    }

    /** `shutil.rmtree`: the directory and everything in it are gone. */
    method RemoveTree()
      requires isDir
      modifies this
      ensures !isDir && files == map[]
    {
      isDir := false;
      files := map[];
    }
  }

  // ---------------------------------------------------------------------------
  // The supervisor's effect, as functions of the outcomes

  /**
    How many commands the supervisor tries to launch: up to and including the
    first one that does not exit with 0 (a nonzero code, `None`, or a launch
    that raises), or all of them.
  */
  function LaunchCount(rs: seq<Outcome>): (k: nat)
    ensures k <= |rs|
    ensures forall i :: 0 <= i < k - 1 ==> Succeeded(rs[i])
    ensures k < |rs| ==> 0 < k && !Succeeded(rs[k - 1])
    ensures rs != [] ==> 0 < k
  {
    if rs == [] then 0
    else if !Succeeded(rs[0]) then 1
    else 1 + LaunchCount(rs[1..])
  }

  /**
    The directory after one command: its output appended to output.txt, then
    its code written to status.txt; a launch that raises writes nothing.
  */
  function AfterCommand(files: map<string, string>, o: Outcome): map<string, string> {
    if o.NotLaunched? then files
    else
      var appended := if o.output == [] then files else files[OutputFile := FileText(files, OutputFile) + o.output];
      appended[StatusFile := StatusText(o.returnCode)]
  }

  /** The directory after the given commands ran one after the other. */
  function AfterCommands(files: map<string, string>, rs: seq<Outcome>): map<string, string>
    decreases |rs|
  {
    if rs == [] then files else AfterCommand(AfterCommands(files, rs[..|rs| - 1]), rs[|rs| - 1])
  }

  /** Everything the given commands printed, in order. */
  function LedgerText(rs: seq<Outcome>): string
    decreases |rs|
  {
    if rs == [] then [] else LedgerText(rs[..|rs| - 1]) + OutputOf(rs[|rs| - 1])
  }

  /**
    What the ledger holds after a run of commands: output.txt is the old text
    followed by every command's output, and exists once anything was written;
    status.txt holds the last command's exit code, and a last launch that
    raised leaves the directory as the commands before it left it; no other
    file changes.
  */
  lemma {:induction false} LedgerContents(files: map<string, string>, rs: seq<Outcome>)
    ensures var r := AfterCommands(files, rs);
      && FileText(r, OutputFile) == FileText(files, OutputFile) + LedgerText(rs)
      && (OutputFile in r <==> OutputFile in files || LedgerText(rs) != [])
      && (rs == [] ==> r == files)
      && (rs != [] && rs[|rs| - 1].Finished? ==>
            StatusFile in r && r[StatusFile] == StatusText(rs[|rs| - 1].returnCode))
      && (rs != [] && rs[|rs| - 1].NotLaunched? ==> r == AfterCommands(files, rs[..|rs| - 1]))
      && (forall k :: k != OutputFile && k != StatusFile ==> (k in r <==> k in files))
      && (forall k :: k != OutputFile && k != StatusFile && k in files ==> r[k] == files[k])
    decreases |rs|
  {
    if rs != [] {
      LedgerContents(files, rs[..|rs| - 1]);
      AfterCommandEffect(AfterCommands(files, rs[..|rs| - 1]), rs[|rs| - 1]);
    }
  }

  /** One command's effect on the directory: its output appended, its status written, nothing else touched. */
  lemma AfterCommandEffect(files: map<string, string>, o: Outcome)
    ensures var r := AfterCommand(files, o);
      && FileText(r, OutputFile) == FileText(files, OutputFile) + OutputOf(o)
      && (OutputFile in r <==> OutputFile in files || OutputOf(o) != [])
      && (o.Finished? ==> StatusFile in r && r[StatusFile] == StatusText(o.returnCode))
      && (o.NotLaunched? ==> r == files)
      && (forall k :: k != OutputFile && k != StatusFile ==> (k in r <==> k in files))
      && (forall k :: k != OutputFile && k != StatusFile && k in files ==> r[k] == files[k])
  {
  }

  /** output.txt after a run of commands: the old text followed by every command's output. */
  lemma {:induction false} LedgerOutputText(files: map<string, string>, rs: seq<Outcome>)
    ensures FileText(AfterCommands(files, rs), OutputFile) == FileText(files, OutputFile) + LedgerText(rs)
    decreases |rs|
  {
    if rs != [] {
      LedgerOutputText(files, rs[..|rs| - 1]);
    }
  }

  /** status.txt after a run of commands whose last one was started: the text of that command's exit code. */
  lemma LedgerStatus(files: map<string, string>, rs: seq<Outcome>)
    requires rs != [] && rs[|rs| - 1].Finished?
    ensures StatusFile in AfterCommands(files, rs)
    ensures AfterCommands(files, rs)[StatusFile] == StatusText(rs[|rs| - 1].returnCode)
  {
  }

  /** The output of the first `i` commands is a prefix of the output of the first `j`. */
  lemma {:induction false} LedgerTextGrows(rs: seq<Outcome>, i: nat, j: nat)
    requires i <= j <= |rs|
    ensures LedgerText(rs[..i]) <= LedgerText(rs[..j])
    decreases j - i
  {
    if i < j {
      LedgerTextGrows(rs, i, j - 1);
      assert rs[..j][..j - 1] == rs[..j - 1];
    }
  }

  /**
    A status file holding the text of a code is polled as that code; one
    holding "None" is polled as a failed conversion.
  */
  lemma PollWrittenCode(isDir: bool, files: map<string, string>, code: Option<int>)
    requires isDir && StatusFile in files && files[StatusFile] == StatusText(code)
    ensures PollOf(isDir, files) == if code.Some? then Exited(code.value) else Malformed
  {
    if code.Some? {
      IntRoundTrip(code.value);
    } else {
      assert Strip("None") == "None";
    }
  }

  /**
    What a poll reports while the supervisor works, with the status file
    freshly emptied by the constructor: "running" until a command finished;
    after the first `k` launches the exit code of the `k`-th, even when later
    commands are still to come, or a failed conversion when `poll()` saw no
    code yet. When the `k`-th launch raised, the status stays as the earlier
    commands left it: "running" for ever when it was the first, and 0
    otherwise.
  */
  lemma {:induction false} PollDuringRun(files: map<string, string>, rs: seq<Outcome>, k: nat)
    requires k <= LaunchCount(rs)
    ensures PollOf(true, AfterCommands(files[StatusFile := ""], rs[..k]))
         == if k == 0 then Running
            else if rs[k - 1].NotLaunched? then (if k == 1 then Running else Exited(0))
            else if rs[k - 1].returnCode.Some? then Exited(rs[k - 1].returnCode.value)
            else Malformed
  {
    var start := files[StatusFile := ""];
    if k == 0 {
      assert rs[..k] == [];
      assert Strip("") == [];
    } else if rs[k - 1].NotLaunched? {
      assert rs[..k][..k - 1] == rs[..k - 1];
      assert AfterCommands(start, rs[..k]) == AfterCommands(start, rs[..k - 1]);
      PollDuringRun(files, rs, k - 1);
      if k > 1 {
        assert Succeeded(rs[k - 2]);
      }
    } else {
      LedgerStatus(start, rs[..k]);
      PollWrittenCode(true, AfterCommands(start, rs[..k]), rs[k - 1].returnCode);
    }
  }

  /** Whether the supervisor goes on after its `i`-th launch depends only on whether that command exited with 0. */
  lemma LaunchCountStep(rs: seq<Outcome>, i: nat)
    requires i < LaunchCount(rs)
    ensures !Succeeded(rs[i]) ==> LaunchCount(rs) == i + 1
    ensures Succeeded(rs[i]) && i + 1 < |rs| ==> i + 1 < LaunchCount(rs)
  {
  }

  lemma StepAfterCommands(start: map<string, string>, rs: seq<Outcome>, i: nat)
    requires i < |rs|
    ensures AfterCommands(start, rs[..i + 1]) == AfterCommand(AfterCommands(start, rs[..i]), rs[i])
  {
    assert rs[..i + 1][..i] == rs[..i];
  }

  // ---------------------------------------------------------------------------
  // The reader's view, as functions of the directory state

  /** What `poll` returns on a given state of the directory. */
  function PollOf(isDir: bool, files: map<string, string>): PollResult {
    if !isDir then Exited(PollDirMissing)
    else if StatusFile !in files then Running
    else
      var text := Strip(files[StatusFile]);
      if text == [] then Running
      else match ParseInt(text)
        case Some(n) => Exited(n)
        case None => Malformed
  }

  /**
    A client that has read every line of a ledger that ended at a line
    boundary, and reads again from that count after more output was appended,
    receives exactly the lines of the new output; the lines it already had
    are still the first lines of the ledger.
  */
  lemma CatchUpRead(a: string, b: string)
    requires a == [] || a[|a| - 1] == '\n'
    ensures SplitLines(a) <= SplitLines(a + b)
    ensures SliceFrom(SplitLines(a + b), |SplitLines(a)|) == SplitLines(b)
  {
    SplitLinesAppend(a, b);
    var la, lb := SplitLines(a), SplitLines(b);
    assert (la + lb)[|la|..] == lb;
  }

  /** The background supervisor of one session. */
  class SeparateProcess {
    const cmdLines: seq<seq<string>>
    /** What each command of `cmdLines` does when it is launched. */
    const results: seq<Outcome>
    const workingDir: WorkDir
    /** The commands launched so far, in order. */
    var started: seq<seq<string>>

    ghost predicate Valid()
      reads this
    {
      |results| == |cmdLines|
    }

    /**
      Empty the status file, so that a poll reports "running", and hand the
      commands to the background worker (here `EnqueueOutput`).
    */
    constructor (cmdLines: seq<seq<string>>, results: seq<Outcome>, cwd: WorkDir)
      requires |results| == |cmdLines|
      requires cwd.isDir
      modifies cwd
      ensures Valid()
      ensures this.cmdLines == cmdLines && this.results == results && workingDir == cwd
      ensures started == []
      ensures cwd.isDir && cwd.files == old(cwd.files)[StatusFile := ""]
      ensures PollOf(cwd.isDir, cwd.files) == Running
    {
      this.cmdLines := cmdLines;
      this.results := results;
      workingDir := cwd;
      started := [];
      new;
      cwd.WriteFile(StatusFile, "");
      assert Strip("") == [];
    }

    /**
      The worker: launch each command in order, append each line of its output
      to output.txt as it is produced, write its exit code to status.txt, and
      stop after the first command that does not exit with 0. A launch that
      raises ends the worker without writing anything.
    */
    method EnqueueOutput()
      requires Valid() && workingDir.isDir && started == []
      modifies this, workingDir
      ensures workingDir.isDir
      ensures started == cmdLines[..LaunchCount(results)]
      ensures workingDir.files == AfterCommands(old(workingDir.files), results[..LaunchCount(results)])
    {
      ghost var start := workingDir.files;
      var i := 0;
      while i < |cmdLines|
        invariant 0 <= i <= |cmdLines|
        invariant workingDir.isDir && Valid()
        invariant started == cmdLines[..i]
        invariant i <= LaunchCount(results) && (i < |results| ==> i < LaunchCount(results))
        invariant workingDir.files == AfterCommands(start, results[..i])
      {
        PrefixSnoc(cmdLines, i);
        started := started + [cmdLines[i]];
        var o := results[i];
        if o.Finished? {
          workingDir.RecordOutcome(o);
        }
        StepAfterCommands(start, results, i);
        LaunchCountStep(results, i);
        i := i + 1;
        if o.NotLaunched? || o.returnCode != Some(0) {
          break;
        }
      }
    }
  }

  /** A reader of a session's ledger, possibly in another process than the supervisor. */
  class ProcessReader {
    const workingDir: WorkDir

    constructor (workingDir: WorkDir)
      ensures this.workingDir == workingDir
    {
      this.workingDir := workingDir;
    }

    /**
      Report the session's state: 101 when the directory is gone, "running"
      while the status file is missing or blank, and otherwise its code, after
      deleting the directory (which is removed before the text is converted,
      so a status that is not a number still loses the directory).
    */
    method Poll() returns (r: PollResult)
      modifies workingDir
      ensures r == PollOf(old(workingDir.isDir), old(workingDir.files))
      ensures workingDir.isDir <==> old(workingDir.isDir) && r == Running
      ensures workingDir.files == if r == Running || !old(workingDir.isDir) then old(workingDir.files) else map[]
    {
      if !workingDir.isDir {
        return Exited(PollDirMissing);
      }
      if StatusFile !in workingDir.files {
        return Running;
      }
      var text := Strip(workingDir.files[StatusFile]);
      if text == [] {
        return Running;
      }
      workingDir.RemoveTree();
      match ParseInt(text)
      case Some(n) => r := Exited(n);
      case None => r := Malformed;
    }

    /**
      The lines after the first `alreadyRead` ones: 103 when the directory is
      gone, no lines while there is no output file, and otherwise the slice
      `lines[alreadyRead:]` of the file's lines.
    */
    method ReadLines(alreadyRead: int) returns (r: ReadResult)
      ensures !workingDir.isDir ==> r == Code(ReadDirMissing)
      ensures workingDir.isDir && OutputFile !in workingDir.files ==> r == Lines([])
      ensures workingDir.isDir && OutputFile in workingDir.files ==>
        r == Lines(SliceFrom(SplitLines(workingDir.files[OutputFile]), alreadyRead))
    {
      if !workingDir.isDir {
        return Code(ReadDirMissing);
      }
      if OutputFile !in workingDir.files {
        return Lines([]);
      }
      var lines := SplitLines(workingDir.files[OutputFile]);
      return Lines(SliceFrom(lines, alreadyRead));
    }
  }

  /**
    The directory is deleted once: after a poll that did not answer running
    the directory is gone, so the next poll answers the missing-directory
    code; after one that answered running nothing changed, so the next one
    answers running again.
  */
  method PollTwice(reader: ProcessReader) returns (first: PollResult, second: PollResult)
    modifies reader.workingDir
    ensures first != Running ==> second == Exited(PollDirMissing)
    ensures first == Running ==> second == Running
  {
    first := reader.Poll();
    second := reader.Poll();
  }
}
