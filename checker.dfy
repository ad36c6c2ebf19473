/**
  The compile server's two endpoints: `check_program` builds a session's
  working directory from an example and the user's files and starts the
  prover on it; `check_output` answers a client's poll with the new output
  lines and whether the session has completed. The module-level flag that
  caches the "gnatprove is on the PATH" check is a field of `Server`.

  The request bodies are given already decoded; the example lookup is given
  as the list of matching examples, the PATH lookup as its boolean answer and
  the name `mkdtemp` picks as a parameter.
*/
module Checker {
  import opened Text
  import opened Ledger

  /** Lines of the prover's output that start with this are noise and are not sent. */
  const NoisePrefix := "Summary logged"

  /** The one command a session runs. */
  const GnatproveCommand: seq<string> := ["gnatprove", "-P", "main"]

  datatype UserFile = UserFile(basename: string, contents: string)

  /** An example of the database: its name and the regular files of its directory. */
  datatype Example = Example(name: string, originalDir: map<string, string>)

  /** The body of a poll answer. */
  datatype PollResponse = PollResponse(outputLines: seq<string>, status: int, completed: bool, message: string)

  /** A poll is answered, or fails with an unhandled exception (an error page). */
  datatype CheckOutputResult = Reply(response: PollResponse) | ServerError

  /** The body of a launch answer; `EmptyResponse` is the answer without a body. */
  datatype ProgramResponse = ProgramResponse(identifier: string, message: string) | EmptyResponse

  // ---------------------------------------------------------------------------
  // Shaping a poll answer

  predicate IsNoise(line: string) {
    StartsWith(line, NoisePrefix)
  }

  /** Drop the noise lines and strip the others, keeping their order. */
  function ShapeLines(lines: seq<string>): (r: seq<string>)
    ensures |r| <= |lines|
  {
    if lines == [] then []
    else (if IsNoise(lines[0]) then [] else [Strip(lines[0])]) + ShapeLines(lines[1..])
  }

  /** Without noise, every line is sent, stripped, in its place. */
  lemma {:induction false} ShapeLinesClean(lines: seq<string>)
    requires forall i :: 0 <= i < |lines| ==> !IsNoise(lines[i])
    ensures |ShapeLines(lines)| == |lines|
    ensures forall i :: 0 <= i < |lines| ==> ShapeLines(lines)[i] == Strip(lines[i])
  {
    if lines != [] {
      var tail := lines[1..];
      forall j | 0 <= j < |tail| ensures !IsNoise(tail[j]) {
        assert tail[j] == lines[j + 1];
      }
      ShapeLinesClean(tail);
      var r := ShapeLines(lines);
      assert !IsNoise(lines[0]);
      assert r == [Strip(lines[0])] + ShapeLines(tail);
      forall i | 0 <= i < |lines| ensures r[i] == Strip(lines[i]) {
        if i > 0 {
          assert r[i] == ShapeLines(tail)[i - 1];
          assert lines[i] == tail[i - 1];
        }
      }
    }
  }

  /**
    Shaping distributes over concatenation: a client that shapes the lines of
    successive polls and concatenates them gets the shaped whole.
  */
  lemma {:induction false} ShapeLinesAppend(a: seq<string>, b: seq<string>)
    ensures ShapeLines(a + b) == ShapeLines(a) + ShapeLines(b)
  {
    if a == [] {
      assert a + b == b;
    } else {
      assert (a + b)[1..] == a[1..] + b;
      ShapeLinesAppend(a[1..], b);
      var h := if IsNoise(a[0]) then [] else [Strip(a[0])];
      assert ShapeLines(a + b) == h + (ShapeLines(a[1..]) + ShapeLines(b));
      assert ShapeLines(a) == h + ShapeLines(a[1..]);
      Reassociate(h, ShapeLines(a[1..]), ShapeLines(b));
    }
  }

  /** Regrouping a concatenation, stated over any element type. */
  lemma Reassociate<T>(h: seq<T>, x: seq<T>, y: seq<T>)
    ensures h + (x + y) == (h + x) + y
  {
  }

  /** Every line that is not noise is sent, stripped. */
  lemma {:induction false} ShapeLinesKeeps(lines: seq<string>, i: nat)
    requires i < |lines| && !IsNoise(lines[i])
    ensures Strip(lines[i]) in ShapeLines(lines)
  {
    var h := if IsNoise(lines[0]) then [] else [Strip(lines[0])];
    var rest := ShapeLines(lines[1..]);
    var x := Strip(lines[i]);
    if i == 0 {
      assert x in h;
    } else {
      assert lines[i] == lines[1..][i - 1];
      ShapeLinesKeeps(lines[1..], i - 1);
      assert x in rest;
    }
    assert x in h + rest <==> x in h || x in rest;
    assert ShapeLines(lines) == h + rest;
  }

  /** Every line sent is a line that is not noise, stripped. */
  lemma {:induction false} ShapeLinesSends(lines: seq<string>, x: string) returns (i: nat)
    requires x in ShapeLines(lines)
    ensures i < |lines| && !IsNoise(lines[i]) && x == Strip(lines[i])
  {
    var h := if IsNoise(lines[0]) then [] else [Strip(lines[0])];
    var rest := ShapeLines(lines[1..]);
    assert ShapeLines(lines) == h + rest;
    assert x in h + rest <==> x in h || x in rest;
    if x in h {
      i := 0;
    } else {
      var j := ShapeLinesSends(lines[1..], x);
      assert lines[j + 1] == lines[1..][j];
      i := j + 1;
    }
  }

  /** Every line that is not noise is sent, stripped; every line sent is such a line. */
  lemma ShapeLinesMembers(lines: seq<string>)
    ensures forall i :: 0 <= i < |lines| && !IsNoise(lines[i]) ==> Strip(lines[i]) in ShapeLines(lines)
    ensures forall x :: x in ShapeLines(lines) ==> exists i :: 0 <= i < |lines| && !IsNoise(lines[i]) && x == Strip(lines[i])
  {
    forall i | 0 <= i < |lines| && !IsNoise(lines[i]) ensures Strip(lines[i]) in ShapeLines(lines) {
      ShapeLinesKeeps(lines, i);
    }
    forall x | x in ShapeLines(lines)
      ensures exists i :: 0 <= i < |lines| && !IsNoise(lines[i]) && x == Strip(lines[i])
    {
      var i := ShapeLinesSends(lines, x);
    }
  }

  /** The answer to a poll whose result is known: "running" with status 0, or "completed" with the code. */
  function Respond(lines: seq<string>, p: PollResult): (resp: PollResponse)
    requires !p.Malformed?
    ensures resp.outputLines == lines
    ensures resp.completed <==> p.Exited?
    ensures resp.completed ==> resp.status == p.code && resp.message == "completed"
    ensures !resp.completed ==> resp.status == 0 && resp.message == "running"
  {
    if p.Running? then PollResponse(lines, 0, false, "running")
    else PollResponse(lines, p.code, true, "completed")
  }

  /**
    What a poll of a session answers, from the state of its directory before
    the call: the lines are read first and the status second.
  */
  function CheckOutputOf(isDir: bool, files: map<string, string>, alreadyRead: int): CheckOutputResult {
    if !isDir then ServerError
    else
      var lines := ShapeLines(SliceFrom(SplitLines(FileText(files, OutputFile)), alreadyRead));
      var p := PollOf(true, files);
      if p.Malformed? then ServerError else Reply(Respond(lines, p))
  }

  /**
    The answer that reports completion carries the last output: once every
    command the supervisor launches has finished with a code, a poll from a
    client that had received `n` lines answers "completed" with that code and
    with every line after the first `n` of the ledger (whatever output.txt the
    workspace started with). When `poll()` saw no code the poll fails, and
    when the only launch raised the session answers "running" for ever.
  */
  lemma {:induction false} CompletionCarriesLastLines(files: map<string, string>, rs: seq<Outcome>, k: nat, n: int)
    requires rs != [] && k == LaunchCount(rs)
    ensures 0 < k
    ensures var after := AfterCommands(files[StatusFile := ""], rs[..k]);
      var lines := ShapeLines(SliceFrom(SplitLines(FileText(files, OutputFile) + LedgerText(rs[..k])), n));
      && (rs[k - 1].Finished? && rs[k - 1].returnCode.Some? ==>
            CheckOutputOf(true, after, n) == Reply(PollResponse(lines, rs[k - 1].returnCode.value, true, "completed")))
      && (rs[k - 1].Finished? && rs[k - 1].returnCode.None? ==> CheckOutputOf(true, after, n) == ServerError)
      && (rs[k - 1].NotLaunched? && k == 1 ==>
            CheckOutputOf(true, after, n) == Reply(PollResponse(lines, 0, false, "running")))
      && (rs[k - 1].NotLaunched? && k > 1 ==>
            CheckOutputOf(true, after, n) == Reply(PollResponse(lines, 0, true, "completed")))
  {
    var start := files[StatusFile := ""];
    var after := AfterCommands(start, rs[..k]);
    var text := FileText(files, OutputFile) + LedgerText(rs[..k]);
    assert FileText(after, OutputFile) == text by {
      assert FileText(start, OutputFile) == FileText(files, OutputFile);
      LedgerOutputText(start, rs[..k]);
    }
    PollDuringRun(files, rs, k);
    AnswerFor(after, n, text, PollOf(true, after));
  }

  /** The answer to a poll of an existing directory, from its output text and its poll result. */
  lemma AnswerFor(files: map<string, string>, n: int, text: string, p: PollResult)
    requires FileText(files, OutputFile) == text && PollOf(true, files) == p
    ensures CheckOutputOf(true, files, n)
      == if p.Malformed? then ServerError else Reply(Respond(ShapeLines(SliceFrom(SplitLines(text), n)), p))
  {
  }

  /**
    A poll of a directory whose status file holds a code answers "completed"
    with that code and with the lines of `text`, the output file's contents.
  */
  lemma AnswerWhenExited(files: map<string, string>, n: int, code: int, text: string)
    requires PollOf(true, files) == Exited(code) && FileText(files, OutputFile) == text
    ensures CheckOutputOf(true, files, n)
      == Reply(PollResponse(ShapeLines(SliceFrom(SplitLines(text), n)), code, true, "completed"))
  {
  }

  /** Poll a session: read the lines beyond `alreadyRead`, shape them, then poll the status. */
  method CheckOutput(workDir: WorkDir, alreadyRead: int) returns (res: CheckOutputResult)
    modifies workDir
    ensures res == CheckOutputOf(old(workDir.isDir), old(workDir.files), alreadyRead)
    ensures !old(workDir.isDir) ==> !workDir.isDir && workDir.files == old(workDir.files)
    ensures old(workDir.isDir) ==> (workDir.isDir <==> PollOf(true, old(workDir.files)) == Running)
    ensures old(workDir.isDir) ==> workDir.files == if PollOf(true, old(workDir.files)) == Running then old(workDir.files) else map[]
  {
    var reader := new ProcessReader(workDir);
    var read := reader.ReadLines(alreadyRead);
    if read.Code? {
      // iterating over the integer debug code raises a TypeError
      return ServerError;
    }
    var lines := ShapeLines(read.lines);
    var p := reader.Poll();
    if p.Malformed? {
      return ServerError;
    }
    res := Reply(Respond(lines, p));
  }

  // ---------------------------------------------------------------------------
  // Building a session's working directory

  /** The example's files, then each user file written under its basename in turn. */
  function Overlay(base: map<string, string>, user: seq<UserFile>): (m: map<string, string>)
    ensures m.Keys == base.Keys + set f | f in user :: f.basename
    decreases |user|
  {
    if user == [] then base
    else
      var last := user[|user| - 1];
      assert user == user[..|user| - 1] + [last];
      Overlay(base, user[..|user| - 1])[last.basename := last.contents]
  }

  /**
    A file of the user replaces the example's file of the same name, and of
    several user files with one basename the last one wins; the example's
    other files are kept as they are.
  */
  lemma {:induction false} OverlayLastWins(base: map<string, string>, user: seq<UserFile>)
    ensures forall i :: 0 <= i < |user| && (forall j :: i < j < |user| ==> user[j].basename != user[i].basename) ==>
              Overlay(base, user)[user[i].basename] == user[i].contents
    ensures forall k :: k in base && (forall f :: f in user ==> f.basename != k) ==> Overlay(base, user)[k] == base[k]
    decreases |user|
  {
    if user != [] {
      var init := user[..|user| - 1];
      OverlayLastWins(base, init);
      forall i | 0 <= i < |user| - 1 && (forall j :: i < j < |user| ==> user[j].basename != user[i].basename)
        ensures Overlay(base, user)[user[i].basename] == user[i].contents
      {
        assert init[i] == user[i];
        forall j | i < j < |init| ensures init[j].basename != init[i].basename {
          assert init[j] == user[j];
        }
      }
      forall k | k in base && (forall f :: f in user ==> f.basename != k)
        ensures Overlay(base, user)[k] == base[k]
      {
        forall f | f in init ensures f.basename != k {
          assert f in user;
        }
        assert user[|user| - 1] in user;
      }
    }
  }

  /** Copy each file the pattern `*` lists in `dir` into the empty directory `target`. */
  method CopyVisible(target: WorkDir, dir: map<string, string>)
    requires target.isDir && target.files == map[]
    modifies target
    ensures target.isDir && target.files == VisibleFiles(dir)
  {
    var todo := set k | k in dir && Visible(k);
    while todo != {}
      invariant target.isDir
      invariant todo <= VisibleFiles(dir).Keys
      invariant target.files == map k | k in VisibleFiles(dir).Keys - todo :: dir[k]
      decreases todo
    {
      var g :| g in todo;
      target.WriteFile(g, dir[g]);
      todo := todo - {g};
    }
  }

  /** Write each of the user's files under its basename, in order. */
  method WriteUserFiles(target: WorkDir, user: seq<UserFile>)
    requires target.isDir
    modifies target
    ensures target.isDir && target.files == Overlay(old(target.files), user)
  {
    var i := 0;
    while i < |user|
      invariant 0 <= i <= |user|
      invariant target.isDir
      invariant target.files == Overlay(old(target.files), user[..i])
    {
      assert user[..i + 1][..i] == user[..i];
      target.WriteFile(user[i].basename, user[i].contents);
      i := i + 1;
    }
    assert user[..i] == user;
  }

  /** The compile server's process state: the cache of the PATH check. */
  class Server {
    var gnatproveFound: bool
    /** How many times the PATH has been searched. */
    ghost var pathSearches: nat

    constructor ()
      ensures !gnatproveFound && pathSearches == 0
    {
      gnatproveFound := false;
      pathSearches := 0;
    }

    /**
      Whether gnatprove is on the PATH (`onPath`): searched only while the flag
      is unset; once it is set, every call answers yes without searching and
      the flag stays set.
    */
    method CheckGnatprove(onPath: bool) returns (found: bool)
      modifies this
      ensures old(gnatproveFound) ==> found && gnatproveFound && pathSearches == old(pathSearches)
      ensures !old(gnatproveFound) ==> found == onPath && gnatproveFound == onPath
      ensures !old(gnatproveFound) ==> pathSearches == old(pathSearches) + 1
    {
      if gnatproveFound {
        return true;
      }
      pathSearches := pathSearches + 1;
      gnatproveFound := onPath;
      return gnatproveFound;
    }

    /**
      Start a session: refuse when gnatprove is missing, answer with no body
      when no example has the requested name, and otherwise build a fresh
      working directory from the first matching example and the user's files,
      start `gnatprove -P main` in it and answer with the directory's name.
    */
    method CheckProgram(onPath: bool, matches: seq<Example>, user: seq<UserFile>, tempName: string, gnatprove: Outcome)
      returns (resp: ProgramResponse, proc: SeparateProcess?)
      modifies this
      ensures gnatproveFound == (old(gnatproveFound) || onPath)
      ensures !gnatproveFound ==> resp == ProgramResponse("", "gnatprove not found") && proc == null
      ensures gnatproveFound && matches == [] ==> resp == EmptyResponse && proc == null
      ensures gnatproveFound && matches != [] ==>
        && resp == ProgramResponse(tempName, "running gnatprove")
        && proc != null && fresh(proc) && fresh(proc.workingDir) && proc.Valid()
        && proc.workingDir.name == tempName && proc.workingDir.isDir
        && proc.cmdLines == [GnatproveCommand] && proc.results == [gnatprove] && proc.started == []
        && proc.workingDir.files == Overlay(VisibleFiles(matches[0].originalDir), user)[StatusFile := ""]
    {
      var found := CheckGnatprove(onPath);
      if !found {
        return ProgramResponse("", "gnatprove not found"), null;
      }
      if matches == [] {
        return EmptyResponse, null;
      }
      var target := new WorkDir(tempName);
      var identifier := target.name;
      CopyVisible(target, matches[0].originalDir);
      WriteUserFiles(target, user);
      proc := new SeparateProcess([GnatproveCommand], [gnatprove], target);
      resp := ProgramResponse(identifier, "running gnatprove");
    }
  }
}
