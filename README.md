# Compile server sessions and the sandbox executor, in Dafny

This project models the core of a small compile server for Ada/SPARK and C
examples, and proves properties of the model.

A client asks the server to check a program (`check_program`).

- The server builds a session's working directory from an example's files and
  the user's files.
- It starts `gnatprove -P main` in that directory through a background
  supervisor (`SeparateProcess`).
- It answers with the directory's basename, which serves as the session
  identifier.

The supervisor runs its commands one after the other:

- It appends each output line to `output.txt` as the line arrives.
- It writes each command's exit code to `status.txt`.
- It stops after the first command that exits nonzero.

The client then polls (`check_output`):

- The server reads the lines the client has not yet received (`read_lines`).
- It drops the "Summary logged" noise and strips each line.
- It then reads the status (`poll`). The status is "running" while
  `status.txt` is blank. Once it holds a code, the server deletes the
  directory and reports "completed" with that code.

Inside the sandbox container, a separate script (`safe_run` in `run.py`) does
the rest:

- It finds the Ada entry point: the last unit with a body and no
  specification, provided its body declares a procedure.
- It fills the `--MAIN_PLACEHOLDER--` of `main.gpr` with the languages and the
  main, and writes `main.adc` whole.
- It then either builds and runs the program or runs the prover in one of
  three modes.
- It echoes every line a command writes to its standard output, with the
  working directory shown as `.`, and prints `<interrupted>` when the
  timeout's exit code 124 was seen. A command's standard error is not piped:
  it goes straight to the script's own.
- Finally it removes the working directory.

The model has four modules:

- `Text` (`text.dfy`): the Python built-ins the core relies on, as total
  functions with their facts.
  - `readlines`/`readline` splitting (`SplitLines`)
  - list slicing `xs[n:]` (`SliceFrom`)
  - `str.strip` (`Strip`)
  - `str.split`, `str.join` and `str.replace` (`Split`, `Join`, `Replace`)
  - `str(n)` and `int(s)` (`IntToString`, `ParseInt`)
- `Ledger` (`ledger.dfy`): the session ledger of `process_handling.py`.
  - The working directory is a `WorkDir` object: whether it exists, and a map
    from file name to contents.
  - `SeparateProcess` and `ProcessReader` are classes whose methods change
    that object.
  - Each command's effect is given as an `Outcome`: what it printed and the
    exit code `poll()` saw once its output ended (`None` when the child had
    not been reaped yet), or a launch that raised and ended the worker.
  - The functions `AfterCommands`, `LaunchCount` and `PollOf` specify the
    methods. The lemmas state the ledger's guarantees over those functions.
- `Checker` (`checker.dfy`): the two endpoints of `checker.py`.
  - The cached "gnatprove is on the PATH" flag is a field of `Server`.
  - The response shaping is a function.
  - Building the workspace is done by two loop methods.
- `Executor` (`executor.dfy`): `run.py`.
  - The procedure pattern, the entry-point search and the project-file
    templating are functions.
  - The script is the class `Sandbox`. Its methods `Run` (the helper `c`),
    `DoctorMainGpr` and `SafeRun` are each proved equal to a function on the
    observable state `Machine`: the directory, the printed records and the
    command lines attempted.
  - The lemmas about those functions state the mode dispatch and the cleanup.

Inputs the code gets from outside become parameters:

- the result of the PATH lookup (`onPath`);
- the examples whose name matches (`matches`);
- the name `mkdtemp` picks (`tempName`);
- what each command prints and returns (`Outcome`, and in the sandbox a
  function `outcome` from command line to `ProcResult`);
- the order in which a Python `set` is iterated (`order`).

Three behaviours of the code are worth knowing:

- The entry-point search examines only the last candidate. It does not look
  for the last candidate that matches (`OnlyLastCandidateExamined`).
- In "run" mode the program is started whatever exit code the build returned.
  The helper `c` answers true for any exit code and false only when the
  command could not be started.
- A reader is guaranteed to see a prefix of the ledger's text. At the level of
  lines this holds only at line boundaries: a line still being written is read
  once as a partial line and later as a whole line (`PartialLineIsNotKept`).

## Model

| member | source | states |
|---|---|---|
| Text.ConcatAppend | compile_server/app/process_handling.py:55-57 | Writing two lists of lines one after the other writes the concatenation of their texts. |
| Text.ConcatSnoc | compile_server/app/process_handling.py:55-57 | Writing one more line appends exactly that line's text to what was written. |
| Text.LineEnd | compile_server/app/process_handling.py:55 | One `readline` on a non-empty stream consumes at least one character and at most all of them. |
| Text.LineEndFacts | compile_server/app/process_handling.py:55 | The line `readline` returns has no newline before its last character. It ends with a newline unless it is the rest of the stream. |
| Text.SplitLines | compile_server/app/process_handling.py:116-117 | A text has no lines exactly when it is empty. |
| Text.SplitLinesPiece | compile_server/app/process_handling.py:116-117 | Each piece `readlines` returns is a non-empty line. Every piece but the last ends with its newline. |
| Text.SplitLinesAreLines | compile_server/app/process_handling.py:116-117 | For all pieces at once: every piece is a line, and every piece before the last ends with a newline. |
| Text.ConcatSplitLines | compile_server/app/process_handling.py:55-57 | Joining the lines read from a stream gives back the stream's text: nothing is lost, duplicated or reordered. |
| Text.SplitLinesAppend | compile_server/app/process_handling.py:116-119 | When a text ends at a line boundary, appending to it leaves its lines unchanged and adds exactly the appended text's lines after them. |
| Text.SplitLinesOfLine | compile_server/app/process_handling.py:55-57 | A single line is read back as exactly that one line. |
| Text.PartialLineIsNotKept | compile_server/app/process_handling.py:116-119 | Counterexample: "abc" is read as one line, but after "def\n" is appended the first line is "abcdef\n". The line-level prefix property needs a line boundary. |
| Text.VisibleFiles | compile_server/app/checker.py:87 | The pattern `*` lists exactly the non-empty names without a leading dot. Each listed file keeps its contents. |
| Text.SliceFrom | compile_server/app/process_handling.py:119 | `xs[n:]` is a suffix of `xs`. For n ≥ 0 it has `len-n` elements (none once n ≥ len), and element i is `xs[n+i]`. For n < 0 it is the last `-n` elements, capped at `len`. |
| Text.Strip | compile_server/app/checker.py:44 | The stripped text is no longer than the input and neither starts nor ends with whitespace. A text that neither starts nor ends with whitespace is unchanged. |
| Text.StripTrims | compile_server/app/checker.py:44 | The stripped text is a slice `s[i:j]` of the input with only whitespace before `i` and after `j`. Together with `Strip`'s contract this fixes the result. |
| Text.StripLeftDrops | compile_server/app/process_handling.py:93 | What is cut off at the left is whitespace. |
| Text.StripRightDrops | compile_server/app/process_handling.py:93 | What is cut off at the right is whitespace. |
| Text.StripBlank | compile_server/app/process_handling.py:92-96 | A text strips to nothing exactly when it is all whitespace, in both directions. |
| Text.Split | infrastructure/container_payload/run.py:182 | `split` gives at least one piece. The first piece is a prefix of the text in which no occurrence of the pattern starts, so the first cut is at the leftmost occurrence. |
| Text.ReplaceIsJoinSplit | infrastructure/container_payload/run.py:125 | `replace(pat, ins)` equals cutting the text at the leftmost, non-overlapping occurrences of `pat` (the cuts `split` makes) and joining the pieces with `ins`. |
| Text.JoinSplit | infrastructure/container_payload/run.py:125 | Joining the pieces of a split with the pattern gives back the original text. |
| Text.SplitPiecesFree | infrastructure/container_payload/run.py:125 | No piece of a split contains the pattern. An occurrence that overlaps one already cut out is not replaced, as in `str.replace`. |
| Text.ReplaceAbsent | infrastructure/container_payload/run.py:150 | Replacing a pattern that does not occur leaves the text unchanged. |
| Text.IntToString | compile_server/app/process_handling.py:63 | `str(n)` is non-empty and has no whitespace at either end, so `strip` keeps it whole. |
| Text.IntRoundTrip | compile_server/app/process_handling.py:100 | `int(str(n)) == n` for every integer, negatives included. |
| Ledger.WorkDir.constructor | compile_server/app/checker.py:82-83 | `mkdtemp` gives an existing, empty directory with the given name. |
| Ledger.WorkDir.WriteFile | compile_server/app/process_handling.py:62-63 | Opening a file for writing and writing text leaves exactly that text in the file. Every other file is unchanged. |
| Ledger.WorkDir.AppendFile | compile_server/app/process_handling.py:56-57 | Appending adds the text at the end of the file, or creates the file with that text. Every other file is unchanged. |
| Ledger.WorkDir.AppendLines | compile_server/app/process_handling.py:55-57 | Appending the lines one by one leaves the file's old text followed by all the lines, in order. With no lines nothing changes and no file is created. |
| Ledger.WorkDir.RecordOutcome | compile_server/app/process_handling.py:54-63 | One started command: its output appended to `output.txt` line by line, then `str(returncode)` written to `status.txt`, which is "None" when `poll()` saw no code (the function `AfterCommand`). |
| Ledger.WorkDir.RemoveTree | compile_server/app/process_handling.py:99 | `rmtree` leaves no directory and no files. |
| Ledger.LaunchCount | compile_server/app/process_handling.py:45-70 | Fail-fast: every launched command but the last exited 0. If some were not tried, the last one tried did not exit with 0: a nonzero code, `None` (`None != 0`), or a launch that raised. A non-empty list tries at least one. |
| Ledger.LaunchCountStep | compile_server/app/process_handling.py:68-70 | After the i-th launch the supervisor stops unless that command exited with 0, and goes on to the next command if it did and one remains. |
| Ledger.AfterCommandEffect | compile_server/app/process_handling.py:52-63 | One command appends its output to `output.txt`, creating it only when there is output, and writes its status text. A launch that raised changes nothing. No other file is created, deleted or changed. |
| Ledger.LedgerContents | compile_server/app/process_handling.py:45-70 | After a run, `output.txt` is its old text followed by every command's output in launch order, and it exists once anything was written. `status.txt` holds the text of the last started command's code ("None" included). A last launch that raised leaves the directory as the earlier commands left it. No other file is created, deleted or changed. |
| Ledger.LedgerOutputText | compile_server/app/process_handling.py:54-57 | `output.txt` after a run is its old text followed by all the commands' output, in order. |
| Ledger.LedgerStatus | compile_server/app/process_handling.py:59-63 | After a run whose last command was started, the status file exists and holds `str` of that command's code: each write overwrites the previous one. |
| Ledger.LedgerTextGrows | compile_server/app/process_handling.py:54-57 | The ledger is never rewritten: its text after i commands is a prefix of its text after any later j commands. |
| Ledger.PollWrittenCode | compile_server/app/process_handling.py:92-100 | A status file holding `str(code)` is polled as exactly that code. One holding "None" is polled as a failed `int` conversion. |
| Ledger.PollDuringRun | compile_server/app/process_handling.py:34-70 | From construction until the first command finishes, a poll reports running. After k launches it reports the k-th command's code, even while later commands are still to come, or a failed conversion when `poll()` saw no code. When the k-th launch raised, the status stays as before: running for ever if it was the first launch, and 0 otherwise. |
| Ledger.CatchUpRead | compile_server/app/process_handling.py:116-119 | A client that read every line of a ledger ending at a line boundary, and then reads again from that count, gets exactly the lines of the new output. The lines it already had stay first. |
| Ledger.SeparateProcess.constructor | compile_server/app/process_handling.py:22-39 | The status file is emptied, so a poll reports running, and nothing has been launched yet. |
| Ledger.SeparateProcess.EnqueueOutput | compile_server/app/process_handling.py:41-70 | The commands tried are the first `LaunchCount` command lines in list order. The directory ends as `AfterCommands` of exactly those commands' outcomes, and a launch that raises writes nothing. |
| Ledger.ProcessReader.constructor | compile_server/app/process_handling.py:75-78 | The reader watches the given directory. |
| Ledger.PollTwice | compile_server/app/process_handling.py:80-100 | Two polls in a row: after one that did not answer running, the second answers 101, because the directory is deleted once. After one that answered running, the second answers running again. |
| Ledger.ProcessReader.Poll | compile_server/app/process_handling.py:80-100 | The result is `PollOf` the state before the call: 101 without a directory, running without a status file or with a blank status, otherwise the code (or a failed conversion). The directory is deleted exactly when an existing one reports something other than running, so a second poll answers 101. |
| Ledger.ProcessReader.ReadLines | compile_server/app/process_handling.py:102-119 | Returns 103 without a directory and no lines without an output file. Otherwise it returns the file's lines after the first `alreadyRead`, with Python slice semantics. The directory is not changed. |
| Checker.ShapeLines | compile_server/app/checker.py:44 | Shaping never adds lines. |
| Checker.ShapeLinesClean | compile_server/app/checker.py:44 | When no line is noise, every line is sent stripped, in its own position. |
| Checker.ShapeLinesAppend | compile_server/app/checker.py:44 | Shaping distributes over concatenation, so the order of lines is kept. |
| Checker.ShapeLinesKeeps | compile_server/app/checker.py:44 | Every line that does not start with "Summary logged" is sent, stripped. |
| Checker.ShapeLinesSends | compile_server/app/checker.py:44 | Every line sent is the stripped form of a received line that does not start with "Summary logged". |
| Checker.ShapeLinesMembers | compile_server/app/checker.py:44 | Both directions together: the lines sent are exactly the stripped non-noise lines. |
| Checker.Respond | compile_server/app/checker.py:47-58 | The answer is completed exactly when `poll` gave a code. Completed answers carry that code and "completed"; the others carry status 0 and "running". The lines are passed through. |
| Checker.CompletionCarriesLastLines | compile_server/app/checker.py:41-58 | Once the supervisor has finished with a code, a poll answers "completed" with that code. The same answer carries every ledger line after the ones the client already had, including any `output.txt` the workspace started with: lines are read before the poll that deletes the directory. When `poll()` saw no code the poll fails. When the only launch raised, the answer is "running" for ever. When a later launch raised, it is "completed" with status 0. |
| Checker.AnswerFor | compile_server/app/checker.py:41-58 | A poll of an existing directory fails on a status that is not a number, and otherwise answers `Respond` of the shaped lines of the output text and the poll's result. |
| Checker.AnswerWhenExited | compile_server/app/checker.py:41-58 | A poll of a directory whose status holds a code answers "completed" with that code and the shaped lines of the output file after `n`. |
| Checker.CheckOutput | compile_server/app/checker.py:32-58 | The answer is `CheckOutputOf` the state before the call. Without a directory it is a server error and nothing changes. With one, the directory and its files survive unchanged exactly when the poll reports running. Otherwise the tree is removed and no file is left. |
| Checker.Overlay | compile_server/app/checker.py:91-94 | The workspace's names are the example's names plus the user's basenames. |
| Checker.OverlayLastWins | compile_server/app/checker.py:86-94 | A user file overwrites the example's file of the same basename, and of several user files with one basename the last wins. Example files no user file names keep their contents. |
| Checker.CopyVisible | compile_server/app/checker.py:86-88 | The fresh directory ends holding exactly the example's files that `*` lists, with their contents. |
| Checker.WriteUserFiles | compile_server/app/checker.py:91-94 | Writing the user files in order leaves the directory as `Overlay` of its old contents and the user's list. |
| Checker.Server.constructor | compile_server/app/checker.py:18 | The flag starts unset and no search has been made. |
| Checker.Server.CheckGnatprove | compile_server/app/checker.py:21-28 | Once the flag is set, every call answers yes without searching the PATH and the flag stays set. While it is unset, a call searches once and answers, and caches, the search's result. |
| Checker.Server.CheckProgram | compile_server/app/checker.py:62-110 | Without gnatprove it answers `identifier=''` with "gnatprove not found" and creates nothing. For an unknown example it gives an empty answer. Otherwise a fresh directory named `tempName` holds the first match's visible files overlaid with the user's files, with status emptied, and the supervisor gets exactly `[["gnatprove","-P","main"]]`. The answer is `tempName` with "running gnatprove". |
| Executor.Span | infrastructure/container_payload/run.py:43 | A run of repeated characters never extends past the text. |
| Executor.SpanFacts | infrastructure/container_payload/run.py:43 | The run is made only of characters of its class, and it ends at the text's end or at a character outside the class. |
| Executor.SpanIs | infrastructure/container_payload/run.py:43 | A maximal run of n characters of a class is measured as exactly n. |
| Executor.ProcedureAtHasShape | infrastructure/container_payload/run.py:43 | A text the scan accepts has the shape `procedure`, blanks, a letter, identifier characters, blanks, `is`. |
| Executor.ShapeIsProcedureAt | infrastructure/container_payload/run.py:43 | Every text of that shape is accepted by the scan. |
| Executor.ProcedureAtShape | infrastructure/container_payload/run.py:43 | The scan matches exactly the texts of the pattern `procedure +[A-Za-z][_a-zA-Z0-9]* +is`, in both directions. |
| Executor.ExampleProcedure | infrastructure/container_payload/run.py:73 | "procedure A is null;" contains a procedure declaration. |
| Executor.ExampleNoProcedure | infrastructure/container_payload/run.py:73 | "x" contains none. |
| Executor.Candidates | infrastructure/container_payload/run.py:64-65 | The candidates are exactly the unit names from the iteration order whose `.ads` is not listed, and there are no more of them than unit names. |
| Executor.CandidatesAppend | infrastructure/container_payload/run.py:65 | The filter keeps the order: the candidates of a listing cut in two are those of the first part followed by those of the second. |
| Executor.CandidatesOne | infrastructure/container_payload/run.py:65 | A single unit name without a listed `.ads` is its own candidate list. |
| Executor.CandidatesNone | infrastructure/container_payload/run.py:65-66 | When every unit has a `.ads`, there is no candidate. |
| Executor.CandidatesLast | infrastructure/container_payload/run.py:65-67 | `mains[-1]` is the last unit name in the iteration order whose `.ads` is not listed. |
| Executor.CandidateHasBody | infrastructure/container_payload/run.py:62-65 | A unit name without a listed specification comes from a listed `.adb` body and has no `.ads`. |
| Executor.ExtractAdaMain | infrastructure/container_payload/run.py:57-83 | A non-empty result names a unit with a body, no specification, and a body that declares a procedure. |
| Executor.ExtractAdaMainIsLast | infrastructure/container_payload/run.py:57-83 | The result is decided by the last unit name in the iteration order without a `.ads`. It is that unit when its body declares a procedure and "" when it does not. It is "" when every unit has a `.ads`. |
| Executor.UniqueMainFound | infrastructure/container_payload/run.py:57-83 | When exactly one unit lacks a specification and its body declares a procedure, that unit is the result, whatever the iteration order. |
| Executor.OnlyLastCandidateExamined | infrastructure/container_payload/run.py:66-75 | Counterexample: with `a.adb` declaring a procedure and a later candidate `b.adb` declaring none, the result is empty although `a` qualifies. |
| Executor.MainFor | infrastructure/container_payload/run.py:101-110 | The main is `main.c` whenever a C file exists, overriding the Ada main. Without C it is `extract_ada_main`'s result when a body exists, and "" when there is none. A non-empty main is `main.c` or an entry point. |
| Executor.InsertCases | infrastructure/container_payload/run.py:101-117 | The inserted text for each case: "Ada" iff a body exists, then "C" iff a C file exists, and `main.c` whenever C exists. Without C, the Ada entry point is the main, and its line is omitted when there is none. Without sources the text is empty. |
| Executor.InsertText | infrastructure/container_payload/run.py:112-117 | The `Languages` line followed by the `Main` line, the latter present iff main is non-empty. |
| Executor.LanguagesLine | infrastructure/container_payload/run.py:113-114 | The quoted, comma-separated language list for each list the script can build. |
| Executor.DoctoredFiles | infrastructure/container_payload/run.py:119-136 | Doctoring writes `main.gpr` as its pieces between placeholders joined by the inserted text. It writes `main.adc` whole from the mode. It adds only `main.adc` and changes no other file. |
| Executor.ProjectRewrite | infrastructure/container_payload/run.py:125 | The placeholder replacement joins the pieces between placeholders with the inserted text. Joined with the placeholder those pieces give back the old file, and none of them contains the placeholder. |
| Executor.ProjectWithoutPlaceholder | infrastructure/container_payload/run.py:125 | A project file without the placeholder is kept unchanged. |
| Executor.Echo | infrastructure/container_payload/run.py:150 | One printed record per output line, and record i is line i with the occurrences of the working directory, taken leftmost and non-overlapping as `str.replace` does, replaced by ".". |
| Executor.EchoUnchanged | infrastructure/container_payload/run.py:150 | A line that does not mention the working directory is printed unchanged. |
| Executor.EchoLines | infrastructure/container_payload/run.py:149-153 | When no line mentions the working directory, the printed records put together equal the lines put together. |
| Executor.EchoFaithful | infrastructure/container_payload/run.py:149-153 | When no line mentions the working directory, the printed records together are exactly what the command wrote. |
| Executor.Call | infrastructure/container_payload/run.py:142-165 | `c` answers true iff the directory exists and the command could be started, whatever its exit code. The command line is recorded as attempted and its output appended to the console. Only the removal command changes the directory. |
| Executor.CallPrints | infrastructure/container_payload/run.py:142-165 | A command that cannot start prints one "ERROR when running ..." record. Otherwise its echoed lines are printed, followed by `<interrupted>` iff `poll` saw 124, and nothing else: the console is the old console, the echoed lines, and that marker. |
| Executor.Dispatch | infrastructure/container_payload/run.py:168-206 | The mode's commands never remove the directory, only extend the list of attempted commands, and leave an empty directory empty. |
| Executor.SafeRunSteps | infrastructure/container_payload/run.py:167-212 | With the directory present, the script runs `echo`, then the mode's commands, then the removal. |
| Executor.ProveModeCommands | infrastructure/container_payload/run.py:185-200 | In "prove", "prove_flow" and "prove_report_all", the commands are `echo`, the prover with the common switches plus nothing, `--mode=flow` or `--report=all`, then the removal. |
| Executor.ProveModeFiles | infrastructure/container_payload/run.py:185-200 | The prover modes run the prover on the project doctored for SPARK: `main.adc` is the common restrictions, a newline, and the SPARK pragmas, and nothing else differs from the doctored project. A directory that survives the removal still holds that project. |
| Executor.ProveDispatch | infrastructure/container_payload/run.py:185-200 | A prover mode doctors the project for SPARK and starts the prover with that mode's switches. |
| Executor.RunModeCommands | infrastructure/container_payload/run.py:169-183 | In "run": `echo`, the build, and the program (as the unprivileged user under `timeout 10s` with the preloader) iff the build could be started and a main was found, then the removal. |
| Executor.RunDispatch | infrastructure/container_payload/run.py:169-183 | The run mode builds, then starts the program at `workdir/<main before the first '.'>` iff the build started and a main exists. It works on the project doctored without SPARK (`spark_mode` false): `main.adc` holds only the common restrictions. |
| Executor.MissingProjectCommands | infrastructure/container_payload/run.py:168-212 | Without `main.gpr`, doctoring fails and the exception is caught. No build or prover starts, only `echo` and the removal. |
| Executor.UnknownModeReported | infrastructure/container_payload/run.py:202-203 | An unknown mode prints "mode not implemented" between the echo's output and the removal's, and starts nothing else. |
| Executor.CleanupAlways | infrastructure/container_payload/run.py:208-212 | `echo` is always first. When the directory existed its removal is the last command, and afterwards the directory is gone unless the removal could not start. A missing directory stays missing. |
| Executor.EchoOutput | infrastructure/container_payload/run.py:149-156 | The reading loop prints exactly `Echo` of the command's lines, one record per `readline` until the empty read. |
| Executor.Sandbox.constructor | infrastructure/container_payload/run.py:141 | The script starts in the given directory with nothing printed or attempted. |
| Executor.Sandbox.Run | infrastructure/container_payload/run.py:142-165 | The method's new state and answer are exactly `Call` of the old state. |
| Executor.Sandbox.DoctorMainGpr | infrastructure/container_payload/run.py:86-138 | The new state and the returned main are exactly `DoctorStep`. Without `main.gpr` nothing is written and no main is returned. |
| Executor.Sandbox.SafeRun | infrastructure/container_payload/run.py:141-212 | The whole script's effect is exactly `SafeRunOf` the starting state: echo, dispatch, then cleanup. |

Some functions have no contract of their own. They are specifications whose
meaning is stated by the members above:

- `Ledger.PollOf` (process_handling.py:86-100): what `poll` answers on a
  state of the directory. It is used by `ProcessReader.Poll`,
  `PollWrittenCode` and `PollDuringRun`.
- `Ledger.AfterCommand`, `Ledger.AfterCommands` and `Ledger.LedgerText`
  (process_handling.py:45-70): the directory and the ledger text after
  commands. They are used by `RecordOutcome`, `EnqueueOutput` and
  `LedgerContents`.
- `Ledger.StatusText`, `Ledger.OutputOf` and `Ledger.Succeeded`
  (process_handling.py:57-69): the status text, the output, and whether the
  worker goes on.
- `Checker.CheckOutputOf` (checker.py:41-58): what a poll answers. It is used
  by `CheckOutput`, `CompletionCarriesLastLines` and `AnswerFor`.
- `Executor.HasProcedure` (run.py:43, 73): the multi-line search for the
  pattern; `ProcedureAtShape` states what it matches.
- `Executor.Languages` (run.py:101-108), `Executor.ProjectInsert`
  (run.py:112-117) and `Executor.AdcText` (run.py:131-134): the language list,
  the inserted text and the configuration text. They are stated by
  `InsertCases`, `InsertText`, `DoctoredFiles` and `ProveModeFiles`.
- `Executor.PathJoin` and `Executor.RunLine` (run.py:179-182): the program's
  command line, used by `RunModeCommands` and `RunDispatch`.
- `Executor.SafeRunOf` (run.py:141-212) and `Executor.DoctorStep`
  (run.py:86-138): the script and the project rewrite as functions. They are
  stated by `Sandbox.SafeRun`, `Sandbox.DoctorMainGpr` and the lemmas on
  modes and cleanup.
- `Executor.Doctored` (run.py:86-138) and `Executor.Quoted` (run.py:114): the
  doctored project and the quoted language names. They are stated by
  `DoctoredFiles`, `ProjectRewrite` and `LanguagesLine`.
- `Executor.ProverFlags` (run.py:185-200) and `Executor.RmLine` (run.py:212):
  the prover's switches per mode and the removal's command line. They are
  stated by `ProveModeCommands`, `ProveDispatch` and `CleanupAlways`.
- `Executor.CallOutput` and `Executor.ErrorLine` (run.py:141-165): what one
  call of the helper prints. They are stated by `CallPrints`.
- `Checker.IsNoise` (checker.py:44): the "Summary logged" test. It is stated
  by `ShapeLinesKeeps`, `ShapeLinesSends` and `ShapeLinesMembers`.
- `Text.Replace` and `Text.Join` (run.py:114, 125): stated by
  `ReplaceIsJoinSplit`, `JoinSplit`, `SplitPiecesFree` and `ReplaceAbsent`.
- `Text.ParseInt` (process_handling.py:100): stated by `IntRoundTrip` and
  `PollWrittenCode`.

## Left out

- Concurrency: the supervisor's daemon thread is run as one sequential call (`EnqueueOutput`). A reader's calls are modelled on the directory state between commands (`PollDuringRun`, `LedgerTextGrows`), not between two lines of one command.
- Checker.CheckOutput: `read_lines` and `poll` are evaluated on one state of the directory. In the server the supervisor can append its last lines and write the status between the two calls (checker.py:41, 46). The completed answer then misses those lines, which are deleted with the directory. The model does not capture that interleaving.
- The child's standard error in run.py (run.py:147-148 pipes only stdout) is not modelled. It reaches the script's output without the `.` rewrite and without being counted as records. `ProcResult.stdout` is the piped output only.
- The mapping of the client-supplied `identifier` to a path (checker.py:37-38, `os.path.join` with the temp dir) is not modelled: `CheckOutput` is given the directory itself. An identifier naming another directory, or an absolute path, is not covered.
- Executor.Echo: the working directory is required to be non-empty (`Sandbox.Valid`). With an empty `sys.argv[1]`, Python's `replace('', '.')` would insert a dot before every character and one more at the end (`'abc'` becomes `'.a.b.c.'`), which is not modelled.
- Process execution, `glob`, `time.sleep` and the container runtime are not modelled. What each command prints and returns is a parameter, and so is the directory listing.
- Ledger.SeparateProcess.EnqueueOutput: its contract states the directory after each whole command; the states between two appended lines of one command are reached inside `AppendLines` but no lemma states what a reader polling at that moment sees.
- The order of Python's `set` iteration at run.py:64-65 is the parameter `order`, constrained only to list each unit name once.
- `procedure_re` is matched at the start of the text and after each line feed (multi-line mode), with Python's `re` engine internals not modelled.
- Text.ParseInt: accepts an optional sign followed by ASCII decimal digits, and fails on anything else, "None" included. It agrees with Python 2's `int` on `str(n)` and on "None". It differs on texts such as "- 5", which Python 2's `int` accepts because it skips spaces after the sign. The texts the supervisor writes are `str(n)`, covered by `IntRoundTrip`, and "None", covered by `PollWrittenCode`. Any other text in a status file is not considered.
- Text.Strip: strips Python 2's ASCII whitespace set for byte strings; Unicode whitespace and codecs are not modelled.
- Byte and character encodings (`codecs.open` with utf-8, `'rb'`/`'wb'` modes) are not modelled: texts are sequences of characters.
- The module-level flag of `check_gnatprove` holds a path or `None` in the source; it is a boolean here, and `find_executable` is the parameter `onPath`.
- The Django request decoding, `Response` objects and JSON are not modelled: requests arrive decoded and answers are datatypes.
- The `print` of `already_read` at checker.py:40 and the `traceback.print_exc` calls in run.py are not modelled.
- The `except subprocess.CalledProcessError` at checker.py:103-104 is not modelled: the supervisor's constructor does not raise it.
- Checker.CopyVisible: directories inside the example directory, on which `shutil.copy` fails, are not modelled: the example is a map of regular files.
- User basenames containing `/` (which `os.path.join` would treat as a path) are taken as plain names.
- Checker.Server.CheckProgram: the supervisor is created with the launch's outcome but its worker (`EnqueueOutput`) is not called, since it runs in the background after the answer.
- Checker.CheckOutput: when the directory is missing, `read_lines` returns 103 and iterating over it raises a `TypeError`; this is the result `ServerError`, with no recovery.
- The `DEBUG` branches of run.py are not modelled: `DEBUG` is `False`, so the removal in the `finally` happens whenever the directory exists.
- `run()` at run.py:46-54 is not modelled: nothing in the core calls it.
- The build artefacts a command leaves in the directory are not modelled: only the removal command changes the directory.
- Exceptions other than a missing project file (a failed write, an unreadable `.adb`) are not modelled in `doctor_main_gpr`.
- `views.py`, `safe_run.py` and the other server modules are not part of this model.
