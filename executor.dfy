/**
  The script that runs inside the sandbox container: it finds the program's
  entry point, fills in the project file and the compiler configuration, and
  then, depending on the mode, builds and runs the program or runs the prover,
  echoing every output line to its own standard output, and finally removes
  the working directory.

  The working directory is a map from file name to contents; the commands the
  script starts are not run: their effect is given by `outcome`, a function
  from the command line to what the process printed and the status `poll`
  saw, or to a failure to start it. What the script prints is the sequence
  of its `print` records.
*/
module Executor {
  import opened Text

  // ---------------------------------------------------------------------------
  // The entry-point pattern

  predicate IsBlank(c: char) { c == ' ' }

  predicate IsLetter(c: char) { 'A' <= c <= 'Z' || 'a' <= c <= 'z' }

  predicate IsIdentChar(c: char) { c == '_' || IsLetter(c) || '0' <= c <= '9' }

  /** The two character classes the pattern repeats. */
  datatype CharClass = Blank | IdentChar

  predicate InClass(c: char, cls: CharClass) {
    match cls
    case Blank => IsBlank(c)
    case IdentChar => IsIdentChar(c)
  }

  /** The length of the longest prefix of `s` whose characters all satisfy `p`. */
  function Span(s: string, p: CharClass): (n: nat)
    ensures n <= |s|
  {
    if s == [] || !InClass(s[0], p) then 0 else 1 + Span(s[1..], p)
  }

  /** The run is made of characters of the class and is ended by the end of `s` or by another character. */
  lemma {:induction false} SpanFacts(s: string, p: CharClass)
    ensures forall k :: 0 <= k < Span(s, p) ==> InClass(s[k], p)
    ensures Span(s, p) < |s| ==> !InClass(s[Span(s, p)], p)
    decreases |s|
  {
    if s != [] && InClass(s[0], p) {
      SpanFacts(s[1..], p);
      forall k | 0 < k < Span(s, p) ensures InClass(s[k], p) {
        assert s[k] == s[1..][k - 1];
      }
    }
  }

  /**
    The pattern `procedure +[A-Za-z][_a-zA-Z0-9]* +is` matches at the start of
    `s`. No character of the pattern can be skipped by backtracking, so the
    match is found by taking each run of blanks and of identifier characters
    whole.
  */
  predicate ProcedureAt(s: string) {
    StartsWith(s, "procedure") && NameFrom(s, 9 + Span(s[9..], Blank))
  }

  /** After the keyword and its blanks, at `i`: an identifier, then the rest. */
  predicate NameFrom(s: string, i: int) {
    9 < i < |s| && IsLetter(s[i]) && IsFrom(s, i + 1 + Span(s[i + 1..], IdentChar))
  }

  /** After the identifier, at `j`: at least one blank, then `is`. */
  predicate IsFrom(s: string, j: int) {
    0 <= j <= |s| &&
    var k := j + Span(s[j..], Blank);
    j < k && StartsWith(s[k..], "is")
  }

  /**
    The shape of a match, position by position: the keyword, blanks up to
    `i`, an identifier from `i` to `j`, blanks from `j` to `k` and `is` at `k`.
  */
  predicate ShapeAt(s: string, i: int, j: int, k: int) {
    && 9 < i < j < k && k + 2 <= |s|
    && s[..9] == "procedure"
    && (forall x :: 9 <= x < i ==> s[x] == ' ')
    && IsLetter(s[i])
    && (forall x :: i < x < j ==> IsIdentChar(s[x]))
    && (forall x :: j <= x < k ==> s[x] == ' ')
    && s[k..k + 2] == "is"
  }

  /** A run of exactly `n` characters satisfying `p`, ended by the end of `s` or by another character. */
  lemma {:induction false} SpanIs(s: string, p: CharClass, n: nat)
    requires n <= |s| && (forall k :: 0 <= k < n ==> InClass(s[k], p)) && (n < |s| ==> !InClass(s[n], p))
    ensures Span(s, p) == n
  {
    if n > 0 {
      assert InClass(s[0], p);
      forall k | 0 <= k < n - 1 ensures InClass(s[1..][k], p) {
        assert s[1..][k] == s[k + 1];
      }
      if n - 1 < |s[1..]| {
        assert s[1..][n - 1] == s[n];
      }
      SpanIs(s[1..], p, n - 1);
    }
  }

  /** A successful scan has the positional shape. */
  lemma ProcedureAtHasShape(s: string)
    requires ProcedureAt(s)
    ensures exists i, j, k :: ShapeAt(s, i, j, k)
  {
    var i := 9 + Span(s[9..], Blank);
    var j := i + 1 + Span(s[i + 1..], IdentChar);
    var k := j + Span(s[j..], Blank);
    SpanFacts(s[9..], Blank);
    SpanFacts(s[i + 1..], IdentChar);
    SpanFacts(s[j..], Blank);
    forall x | 9 <= x < i ensures s[x] == ' ' {
      assert s[x] == s[9..][x - 9];
    }
    forall x | i < x < j ensures IsIdentChar(s[x]) {
      assert s[x] == s[i + 1..][x - i - 1];
    }
    forall x | j <= x < k ensures s[x] == ' ' {
      assert s[x] == s[j..][x - j];
    }
    assert s[k..k + 2] == s[k..][..2];
    assert ShapeAt(s, i, j, k);
  }

  /** Text of the positional shape passes the scan. */
  lemma ShapeIsProcedureAt(s: string, i: int, j: int, k: int)
    requires ShapeAt(s, i, j, k)
    ensures ProcedureAt(s)
  {
    ShapeSpans(s, i, j, k);
    assert s[k..][..2] == s[k..k + 2];
    ScanFromSpans(s, i, j, k);
  }

  /** The three runs of the shape have the lengths the scan measures. */
  lemma ShapeSpans(s: string, i: int, j: int, k: int)
    requires ShapeAt(s, i, j, k)
    ensures Span(s[9..], Blank) == i - 9
    ensures Span(s[i + 1..], IdentChar) == j - i - 1
    ensures Span(s[j..], Blank) == k - j
  {
    forall x | 9 <= x < i ensures InClass(s[x], Blank) {}
    SpanAt(s, Blank, 9, i - 9);
    forall x | i + 1 <= x < j ensures InClass(s[x], IdentChar) {}
    SpanAt(s, IdentChar, i + 1, j - i - 1);
    forall x | j <= x < k ensures InClass(s[x], Blank) {}
    SpanAt(s, Blank, j, k - j);
  }

  /** The scan succeeds once each of its runs is known. */
  lemma ScanFromSpans(s: string, i: int, j: int, k: int)
    requires 9 < i < j < k && k + 2 <= |s|
    requires StartsWith(s, "procedure") && IsLetter(s[i])
    requires Span(s[9..], Blank) == i - 9
    requires Span(s[i + 1..], IdentChar) == j - i - 1
    requires Span(s[j..], Blank) == k - j
    requires StartsWith(s[k..], "is")
    ensures ProcedureAt(s)
  {
    assert IsFrom(s, j);
    assert NameFrom(s, i);
  }

  /** The run of `p` characters starting at `start` of `s` has length `n`. */
  lemma SpanAt(s: string, p: CharClass, start: nat, n: nat)
    requires start + n < |s|
    requires forall x :: start <= x < start + n ==> InClass(s[x], p)
    requires !InClass(s[start + n], p)
    ensures Span(s[start..], p) == n
  {
    var t := s[start..];
    forall x | 0 <= x < n ensures InClass(t[x], p) {
      assert t[x] == s[start + x];
    }
    assert t[n] == s[start + n];
    SpanIs(t, p, n);
  }

  /** The scanning test and the positional shape agree, in both directions. */
  lemma ProcedureAtShape(s: string)
    ensures ProcedureAt(s) <==> exists i, j, k :: ShapeAt(s, i, j, k)
  {
    if ProcedureAt(s) {
      ProcedureAtHasShape(s);
    }
    if exists i, j, k :: ShapeAt(s, i, j, k) {
      var i, j, k :| ShapeAt(s, i, j, k);
      ShapeIsProcedureAt(s, i, j, k);
    }
  }

  /**
    The pattern is searched in multi-line mode: it is found when it matches
    at the start of the text or right after a line feed.
  */
  predicate HasProcedure(text: string) {
    exists p :: 0 <= p <= |text| && (p == 0 || text[p - 1] == '\n') && ProcedureAt(text[p..])
  }

  // ---------------------------------------------------------------------------
  // Finding the entry point

  /** A name the pattern `*.ad[sb]` lists. */
  predicate AdaSource(name: string) {
    Visible(name) && (EndsWith(name, ".ads") || EndsWith(name, ".adb"))
  }

  /** A name the pattern `*<ext>` lists. */
  predicate HasExtension(files: map<string, string>, ext: string) {
    exists n | n in files :: Visible(n) && EndsWith(n, ext)
  }

  /** The listing of Ada sources, by basename. */
  function Names(files: map<string, string>): set<string> {
    set n | n in files && AdaSource(n)
  }

  /** The unit names: each listed name without its four-character extension. */
  function Bases(files: map<string, string>): set<string> {
    set n | n in Names(files) :: n[..|n| - 4]
  }

  /**
    `order` lists each element of `s` once: the order in which iterating over
    the set of unit names yields them, which the language does not fix.
  */
  ghost predicate Enumerates(order: seq<string>, s: set<string>) {
    && (forall i, j :: 0 <= i < j < |order| ==> order[i] != order[j])
    && (forall b :: b in order <==> b in s)
  }

  /** The unit names, in `order`, whose specification file is not listed. */
  function Candidates(files: map<string, string>, order: seq<string>): (r: seq<string>)
    ensures |r| <= |order|
    ensures forall i :: 0 <= i < |r| ==> r[i] in order && r[i] + ".ads" !in Names(files)
    ensures forall i :: 0 <= i < |order| && order[i] + ".ads" !in Names(files) ==> order[i] in r
  {
    if order == [] then []
    else (if order[0] + ".ads" !in Names(files) then [order[0]] else []) + Candidates(files, order[1..])
  }

  /**
    Filtering keeps the order: the candidates of a listing cut in two are
    those of the first part followed by those of the second.
  */
  lemma {:induction false} CandidatesAppend(files: map<string, string>, a: seq<string>, b: seq<string>)
    ensures Candidates(files, a + b) == Candidates(files, a) + Candidates(files, b)
    decreases |a|
  {
    if a == [] {
      assert a + b == b;
    } else {
      assert (a + b)[0] == a[0];
      assert (a + b)[1..] == a[1..] + b;
      CandidatesAppend(files, a[1..], b);
    }
  }

  /**
    The last candidate is the last unit name in `order` without a listed
    specification, and there is none when every unit has one.
  */
  lemma CandidatesLast(files: map<string, string>, order: seq<string>, i: nat)
    requires i < |order| && order[i] + ".ads" !in Names(files)
    requires forall j :: i < j < |order| ==> order[j] + ".ads" in Names(files)
    ensures var r := Candidates(files, order); r != [] && r[|r| - 1] == order[i]
  {
    var x := order[i];
    var front := order[..i];
    var tail := order[i + 1..];
    forall j | 0 <= j < |tail| ensures tail[j] + ".ads" in Names(files) {
      assert tail[j] == order[i + 1 + j];
    }
    CandidatesNone(files, tail);
    CandidatesAppend(files, front, [x]);
    CandidatesOne(files, x);
    var cf := Candidates(files, front);
    assert Candidates(files, front + [x]) == cf + [x];
    SliceAround(order, i + 1);
    PrefixSnoc(order, i);
    CandidatesAppend(files, front + [x], tail);
    assert Candidates(files, order) == (cf + [x]) + [];
  }

  /** A listing whose units all have a specification has no candidate. */
  lemma CandidatesNone(files: map<string, string>, order: seq<string>)
    requires forall j :: 0 <= j < |order| ==> order[j] + ".ads" in Names(files)
    ensures Candidates(files, order) == []
  {
  }

  lemma CandidatesOne(files: map<string, string>, x: string)
    requires x + ".ads" !in Names(files)
    ensures Candidates(files, [x]) == [x]
  {
    assert [x][1..] == [];
  }

  /** A unit the script accepts as the entry point. */
  predicate IsMainUnit(files: map<string, string>, m: string) {
    && Visible(m) && m + ".adb" in files && m + ".ads" !in files
    && HasProcedure(files[m + ".adb"])
  }

  /** A unit name without a listed specification comes from a listed body. */
  lemma CandidateHasBody(files: map<string, string>, b: string)
    requires b in Bases(files) && b + ".ads" !in Names(files)
    ensures Visible(b) && b + ".adb" in files && b + ".ads" !in files
  {
    var n :| n in Names(files) && b == n[..|n| - 4];
    var ext := n[|n| - 4..];
    assert n == b + ext;
    assert ext[0] == '.';
    assert |n| > 4;
    assert b[0] == n[0];
    var spec := b + ".ads";
    assert spec[0] == b[0];
    assert EndsWith(spec, ".ads");
    assert AdaSource(spec);
    assert spec !in files;
    assert n != spec;
    assert ext != ".ads";
    assert ext == ".adb";
  }

  /**
    The entry point: the last candidate unit in `order`, provided its body
    matches the procedure pattern; the empty name otherwise.
  */
  function ExtractAdaMain(files: map<string, string>, order: seq<string>): (m: string)
    requires Enumerates(order, Bases(files))
    ensures m != [] ==> IsMainUnit(files, m)
  {
    var mains := Candidates(files, order);
    if mains == [] then ""
    else
      var m := mains[|mains| - 1];
      CandidateHasBody(files, m);
      if HasProcedure(files[m + ".adb"]) then m else ""
  }

  /**
    The entry point is decided by the last unit name in `order` that has no
    specification: it is that unit when its body declares a procedure, and
    the empty name otherwise; without such a unit it is the empty name.
  */
  lemma ExtractAdaMainIsLast(files: map<string, string>, order: seq<string>)
    requires Enumerates(order, Bases(files))
    ensures (forall i :: 0 <= i < |order| ==> order[i] + ".ads" in Names(files)) ==> ExtractAdaMain(files, order) == ""
    ensures forall i ::
              (0 <= i < |order| && order[i] + ".ads" !in Names(files)
               && (forall j :: i < j < |order| ==> order[j] + ".ads" in Names(files))) ==>
              ExtractAdaMain(files, order) == if IsMainUnit(files, order[i]) then order[i] else ""
  {
    if forall i :: 0 <= i < |order| ==> order[i] + ".ads" in Names(files) {
      CandidatesNone(files, order);
    }
    forall i | 0 <= i < |order| && order[i] + ".ads" !in Names(files)
                && (forall j :: i < j < |order| ==> order[j] + ".ads" in Names(files))
      ensures ExtractAdaMain(files, order) == if IsMainUnit(files, order[i]) then order[i] else ""
    {
      CandidatesLast(files, order, i);
      assert order[i] in Bases(files);
      CandidateHasBody(files, order[i]);
    }
  }

  /**
    When exactly one unit has a body and no specification, and its body
    declares a procedure, that unit is the entry point whatever the order.
  */
  lemma UniqueMainFound(files: map<string, string>, order: seq<string>, m: string)
    requires Enumerates(order, Bases(files))
    requires IsMainUnit(files, m)
    requires forall b :: b in Bases(files) && b != m ==> b + ".ads" in files
    ensures ExtractAdaMain(files, order) == m
  {
    var adb := m + ".adb";
    assert adb[0] == m[0];
    assert EndsWith(adb, ".adb");
    assert adb in Names(files);
    assert adb[..|adb| - 4] == m;
    assert m in Bases(files);
    assert m + ".ads" !in Names(files);
    var i :| 0 <= i < |order| && order[i] == m;
    var mains := Candidates(files, order);
    assert m in mains;
    var last := mains[|mains| - 1];
    CandidateHasBody(files, last);
  }

  /**
    Only the last candidate is examined: when unit `a` has a body that
    declares a procedure and the later candidate `b` has one that does not,
    no entry point is found although `a` would qualify.
  */
  lemma OnlyLastCandidateExamined(a: string, x: string)
    requires HasProcedure(a) && !HasProcedure(x)
    ensures var files := map["a.adb" := a, "b.adb" := x];
      && Enumerates(["a", "b"], Bases(files))
      && IsMainUnit(files, "a")
      && ExtractAdaMain(files, ["a", "b"]) == ""
  {
    var files := map["a.adb" := a, "b.adb" := x];
    ExampleMainUnit(files, a, x);
    ExampleExtract(files, a, x, ["a", "b"]);
  }

  lemma ExampleMainUnit(files: map<string, string>, a: string, x: string)
    requires files == map["a.adb" := a, "b.adb" := x] && HasProcedure(a)
    ensures Enumerates(["a", "b"], Bases(files)) && IsMainUnit(files, "a")
  {
    ExampleBases(files, a, x);
  }

  lemma ExampleExtract(files: map<string, string>, a: string, x: string, order: seq<string>)
    requires files == map["a.adb" := a, "b.adb" := x] && order == ["a", "b"] && !HasProcedure(x)
    ensures Enumerates(order, Bases(files)) && ExtractAdaMain(files, order) == ""
  {
    ExampleBases(files, a, x);
    ExampleCandidates(files, a, x, order);
    var mains := Candidates(files, order);
    assert mains[|mains| - 1] == "b";
    assert files["b" + ".adb"] == x;
  }

  lemma ExampleCandidates(files: map<string, string>, a: string, x: string, order: seq<string>)
    requires files == map["a.adb" := a, "b.adb" := x] && order == ["a", "b"]
    ensures Candidates(files, order) == ["a", "b"]
  {
    ExampleBases(files, a, x);
    var rest := order[1..];
    assert order[0] == "a" && rest == ["b"] && rest[0] == "b" && rest[1..] == [];
    assert Candidates(files, rest[1..]) == [];
    assert Candidates(files, rest) == ["b"];
  }

  lemma ExampleBases(files: map<string, string>, a: string, x: string)
    requires files == map["a.adb" := a, "b.adb" := x]
    ensures Names(files) == {"a.adb", "b.adb"} && Bases(files) == {"a", "b"}
    ensures "a" + ".ads" !in Names(files) && "b" + ".ads" !in Names(files)
    ensures "a" + ".adb" == "a.adb" && "b" + ".adb" == "b.adb" && "a" + ".ads" !in files
  {
    assert EndsWith("a.adb", ".adb") && EndsWith("b.adb", ".adb");
    assert AdaSource("a.adb") && AdaSource("b.adb");
    assert Names(files) == {"a.adb", "b.adb"};
    assert "a.adb"[..|"a.adb"| - 4] == "a" && "b.adb"[..|"b.adb"| - 4] == "b";
  }

  lemma ExampleNoProcedure(text: string)
    requires text == "x"
    ensures !HasProcedure(text)
  {
    assert !ProcedureAt(text);
  }

  lemma ExampleProcedure(text: string)
    requires text == "procedure A is null;"
    ensures HasProcedure(text)
  {
    assert ShapeAt(text, 10, 11, 12);
    ShapeIsProcedureAt(text, 10, 11, 12);
    assert text[0..] == text;
  }

  // ---------------------------------------------------------------------------
  // Doctoring the project file

  const Placeholder := "--MAIN_PLACEHOLDER--"

  const CommonAdc := "\npragma Restrictions (No_Specification_of_Aspect => Import);\npragma Restrictions (No_Use_Of_Pragma => Import);\npragma Restrictions (No_Use_Of_Pragma => Interface);\npragma Restrictions (No_Dependence => System.Machine_Code);\npragma Restrictions (No_Dependence => Machine_Code);\n"

  const SparkAdc := "\npragma Profile(GNAT_Extended_Ravenscar);\npragma Partition_Elaboration_Policy(Sequential);\npragma SPARK_Mode (On);\npragma Warnings (Off, \"no Global contract available\");\npragma Warnings (Off, \"subprogram * has no effect\");\npragma Warnings (Off, \"file name does not match\");\n"

  /** "Ada" when there is a body, then "C" when there is a C file. */
  function Languages(files: map<string, string>): seq<string> {
    (if HasExtension(files, ".adb") then ["Ada"] else [])
      + (if HasExtension(files, ".c") then ["C"] else [])
  }

  /** The main: `main.c` when there is C, else the Ada entry point when there is a body. */
  function MainFor(files: map<string, string>, order: seq<string>): (m: string)
    requires Enumerates(order, Bases(files))
    ensures m != [] ==> m == "main.c" || IsMainUnit(files, m)
    ensures HasExtension(files, ".c") ==> m == "main.c"
    ensures !HasExtension(files, ".c") && HasExtension(files, ".adb") ==> m == ExtractAdaMain(files, order)
    ensures !HasExtension(files, ".c") && !HasExtension(files, ".adb") ==> m == ""
  {
    if HasExtension(files, ".c") then "main.c"
    else if HasExtension(files, ".adb") then ExtractAdaMain(files, order)
    else ""
  }

  function Quoted(xs: seq<string>): seq<string> {
    if xs == [] then [] else ["\"" + xs[0] + "\""] + Quoted(xs[1..])
  }

  /** The text that replaces the placeholder. */
  function ProjectInsert(languages: seq<string>, main: string): string {
    (if languages != [] then "\nfor Languages use (" + Join(", ", Quoted(languages)) + ");" else "")
      + (if main != [] then "\nfor Main use (\"" + main + "\");" else "")
  }

  /** The configuration file: the common restrictions, and the SPARK pragmas in the prover's modes. */
  function AdcText(spark: bool): string {
    CommonAdc + (if spark then "\n" + SparkAdc else "")
  }

  /** The directory after doctoring: the placeholder replaced, the configuration rewritten. */
  function Doctored(files: map<string, string>, spark: bool, order: seq<string>): map<string, string>
    requires "main.gpr" in files && Enumerates(order, Bases(files))
  {
    var insert := ProjectInsert(Languages(files), MainFor(files, order));
    files["main.gpr" := Replace(files["main.gpr"], Placeholder, insert)]["main.adc" := AdcText(spark)]
  }

  /**
    The inserted text in each case: a `Languages` line naming the languages
    present, Ada first, and a `Main` line naming `main.c` when there is C and
    the Ada entry point otherwise; nothing at all without sources.
  */
  lemma InsertCases(files: map<string, string>, order: seq<string>)
    requires Enumerates(order, Bases(files))
    ensures var ada := HasExtension(files, ".adb");
      var c := HasExtension(files, ".c");
      var insert := ProjectInsert(Languages(files), MainFor(files, order));
      && (c ==> insert == (if ada then "\nfor Languages use (\"Ada\", \"C\");" else "\nfor Languages use (\"C\");")
                          + "\nfor Main use (\"main.c\");")
      && (ada && !c ==> var m := ExtractAdaMain(files, order);
            insert == "\nfor Languages use (\"Ada\");" + (if m == [] then "" else "\nfor Main use (\"" + m + "\");"))
      && (!ada && !c ==> insert == "")
  {
    var ada := HasExtension(files, ".adb");
    var c := HasExtension(files, ".c");
    var langs := Languages(files);
    var m := MainFor(files, order);
    if c {
      assert m == "main.c";
      if ada {
        assert langs == ["Ada", "C"];
        InsertText(langs, m);
      } else {
        assert langs == ["C"];
        InsertText(langs, m);
      }
    } else if ada {
      assert langs == ["Ada"];
      assert m == ExtractAdaMain(files, order);
      InsertText(langs, m);
    } else {
      assert langs == [];
      assert m == "";
    }
  }

  /** The inserted text for each list of languages the script can build. */
  lemma InsertText(langs: seq<string>, main: string)
    requires langs == ["Ada", "C"] || langs == ["Ada"] || langs == ["C"]
    ensures var mainLine := if main == [] then "" else "\nfor Main use (\"" + main + "\");";
      && (langs == ["Ada", "C"] ==> ProjectInsert(langs, main) == "\nfor Languages use (\"Ada\", \"C\");" + mainLine)
      && (langs == ["Ada"] ==> ProjectInsert(langs, main) == "\nfor Languages use (\"Ada\");" + mainLine)
      && (langs == ["C"] ==> ProjectInsert(langs, main) == "\nfor Languages use (\"C\");" + mainLine)
  {
    LanguagesLine(langs);
  }

  /** The `Languages` line for each list of languages the script can build. */
  lemma LanguagesLine(langs: seq<string>)
    ensures langs == ["Ada", "C"] ==> Join(", ", Quoted(langs)) == "\"Ada\", \"C\""
    ensures langs == ["Ada"] ==> Join(", ", Quoted(langs)) == "\"Ada\""
    ensures langs == ["C"] ==> Join(", ", Quoted(langs)) == "\"C\""
  {
    if langs == ["Ada", "C"] {
      var rest := langs[1..];
      assert rest == ["C"] && rest[1..] == [];
      assert Quoted(rest[1..]) == [];
      assert Quoted(rest) == ["\"C\""];
      var q := Quoted(langs);
      assert langs[0] == "Ada";
      assert "\"" + "Ada" + "\"" == "\"Ada\"";
      assert q == ["\"Ada\""] + Quoted(rest);
      assert q == ["\"Ada\"", "\"C\""];
      assert q[1..] == ["\"C\""];
      assert Join(", ", q[1..]) == "\"C\"";
    } else if |langs| == 1 {
      assert langs[1..] == [];
      assert Quoted(langs[1..]) == [];
      assert Quoted(langs) == ["\"" + langs[0] + "\""];
    }
  }

  /**
    Doctoring rewrites two files and no other: the project file becomes its
    pieces between placeholders joined by the inserted text (joined by the
    placeholder they give back the old project file, and none of them holds
    the placeholder), and the configuration file is written whole.
  */
  lemma DoctoredFiles(files: map<string, string>, spark: bool, order: seq<string>)
    requires "main.gpr" in files && Enumerates(order, Bases(files))
    ensures var d := Doctored(files, spark, order);
      var insert := ProjectInsert(Languages(files), MainFor(files, order));
      && d.Keys == files.Keys + {"main.adc"}
      && d["main.gpr"] == Join(insert, Split(files["main.gpr"], Placeholder))
      && d["main.adc"] == AdcText(spark)
      && (forall n :: n in files && n != "main.gpr" && n != "main.adc" ==> d[n] == files[n])
  {
    var insert := ProjectInsert(Languages(files), MainFor(files, order));
    var gpr := Replace(files["main.gpr"], Placeholder, insert);
    ProjectRewrite(files["main.gpr"], insert);
    TwoWrites(files, "main.gpr", gpr, "main.adc", AdcText(spark));
  }

  /** Two writes to a directory: the second file is added, the two hold what was written, nothing else changes. */
  lemma TwoWrites<K, V>(m: map<K, V>, a: K, x: V, b: K, y: V)
    requires a in m && a != b
    ensures var r := m[a := x][b := y];
      && r.Keys == m.Keys + {b}
      && r[a] == x && r[b] == y
      && (forall k :: k in m && k != a && k != b ==> r[k] == m[k])
  {
  }

  /**
    Replacing the placeholder in a project text: the pieces between
    placeholders, joined by the inserted text; joined by the placeholder they
    give back the text, and none of them holds the placeholder.
  */
  lemma ProjectRewrite(text: string, insert: string)
    ensures var pieces := Split(text, Placeholder);
      && Replace(text, Placeholder, insert) == Join(insert, pieces)
      && Join(Placeholder, pieces) == text
      && (forall k :: 0 <= k < |pieces| ==> !Contains(pieces[k], Placeholder))
  {
    ReplaceIsJoinSplit(text, Placeholder, insert);
    JoinSplit(text, Placeholder);
    SplitPiecesFree(text, Placeholder);
  }

  /** A project file without the placeholder is kept as it is. */
  lemma ProjectWithoutPlaceholder(files: map<string, string>, spark: bool, order: seq<string>)
    requires "main.gpr" in files && Enumerates(order, Bases(files))
    requires !Contains(files["main.gpr"], Placeholder)
    ensures Doctored(files, spark, order)["main.gpr"] == files["main.gpr"]
  {
    var insert := ProjectInsert(Languages(files), MainFor(files, order));
    ReplaceAbsent(files["main.gpr"], Placeholder, insert);
  }

  // ---------------------------------------------------------------------------
  // Running commands

  const InterruptString := "<interrupted>"
  const InterruptReturnCode := 124
  const NotImplemented := "mode not implemented"

  const BuildLine: seq<string> := ["gprbuild", "-q", "-P", "main", "-gnatwa"]
  const ProverLine: seq<string> := ["gnatprove", "-P", "main", "--checks-as-errors", "--level=0", "--no-axiom-guard"]

  /**
    What starting a command gives: it could not be started, or it ran and
    printed `stdout`, and `poll` right after its output ended saw `polled`
    (nothing when the process had not exited yet).
  */
  datatype ProcResult = LaunchFailed | Ran(stdout: string, polled: Option<int>)

  /** The removal of the working directory in the cleanup. */
  function RmLine(workdir: string): seq<string> {
    ["rm", "-rf", workdir]
  }

  /** `os.path.join` of two components. */
  function PathJoin(a: string, b: string): string {
    if StartsWith(b, "/") then b
    else if a == [] || EndsWith(a, "/") then a + b
    else a + "/" + b
  }

  /** The program runs as an unprivileged user, under a timeout and with the fork-preventing preloader. */
  function RunLine(workdir: string, main: string): seq<string> {
    ["sudo", "-u", "unprivileged", "timeout", "10s", "bash", "-c",
     "LD_PRELOAD=/preloader.so " + PathJoin(workdir, Split(main, ".")[0])]
  }

  /** The prover's extra switches in each prover mode. */
  function ProverFlags(mode: string): Option<seq<string>> {
    if mode == "prove" then Some([])
    else if mode == "prove_flow" then Some(["--mode=flow"])
    else if mode == "prove_report_all" then Some(["--report=all"])
    else None
  }

  function ErrorLine(cl: seq<string>): string {
    "ERROR when running " + Join(" ", cl)
  }

  /** Each output line as printed: every occurrence of the working directory shown as `.`. */
  function Echo(lines: seq<string>, workdir: string): (r: seq<string>)
    requires workdir != []
    ensures |r| == |lines|
    ensures forall i :: 0 <= i < |lines| ==> r[i] == Replace(lines[i], workdir, ".")
  {
    if lines == [] then []
    else Echo(lines[..|lines| - 1], workdir) + [Replace(lines[|lines| - 1], workdir, ".")]
  }

  /** What one call of the helper prints. */
  function CallOutput(workdir: string, res: ProcResult, isDir: bool, cl: seq<string>): seq<string>
    requires workdir != []
  {
    if !isDir || res.LaunchFailed? then [ErrorLine(cl)]
    else Echo(SplitLines(res.stdout), workdir) + (if res.polled == Some(InterruptReturnCode) then [InterruptString] else [])
  }

  /**
    The observable state of the script: whether the working directory
    exists and its files, what was printed, and every command line it tried
    to start.
  */
  datatype Machine = Machine(isDir: bool, files: map<string, string>, console: seq<string>, attempted: seq<seq<string>>)

  /**
    One call of the helper: the command starts only in an existing directory;
    it answers false only when the command could not be started, and only the
    cleanup command changes the directory.
  */
  function Call(m: Machine, workdir: string, outcome: seq<string> -> ProcResult, cl: seq<string>): (r: (Machine, bool))
    requires workdir != []
    ensures r.1 <==> m.isDir && outcome(cl).Ran?
    ensures r.0.attempted == m.attempted + [cl]
    ensures r.0.console == m.console + CallOutput(workdir, outcome(cl), m.isDir, cl)
    ensures cl != RmLine(workdir) ==> r.0.isDir == m.isDir && r.0.files == m.files
  {
    var ok := m.isDir && outcome(cl).Ran?;
    var removed := ok && cl == RmLine(workdir);
    (Machine(m.isDir && !removed, if removed then map[] else m.files,
             m.console + CallOutput(workdir, outcome(cl), m.isDir, cl), m.attempted + [cl]),
     ok)
  }

  /** Doctoring as a step of the script: it fails, changing nothing, without a project file. */
  function DoctorStep(m: Machine, spark: bool, order: seq<string>): (Machine, Option<string>)
    requires Enumerates(order, Bases(m.files))
  {
    if "main.gpr" in m.files then (m.(files := Doctored(m.files, spark, order)), Some(MainFor(m.files, order)))
    else (m, None)
  }

  /** The body of the `try`: the commands of the mode; a failed doctoring ends it. */
  function Dispatch(m: Machine, workdir: string, outcome: seq<string> -> ProcResult, mode: string, order: seq<string>): (r: Machine)
    requires workdir != [] && Enumerates(order, Bases(m.files))
    ensures r.isDir == m.isDir
    ensures m.attempted <= r.attempted
    ensures m.files == map[] ==> r.files == map[]
  {
    if mode == "run" then
      var d := DoctorStep(m, false, order);
      if d.1.None? then d.0
      else
        var b := Call(d.0, workdir, outcome, BuildLine);
        if b.1 && d.1.value != [] then Call(b.0, workdir, outcome, RunLine(workdir, d.1.value)).0 else b.0
    else if ProverFlags(mode).Some? then
      var d := DoctorStep(m, true, order);
      if d.1.None? then d.0 else Call(d.0, workdir, outcome, ProverLine + ProverFlags(mode).value).0
    else
      m.(console := m.console + [NotImplemented])
  }

  /** The whole script: an `echo`, the mode's commands, and the removal of the directory if it still exists. */
  function SafeRunOf(m: Machine, workdir: string, outcome: seq<string> -> ProcResult, mode: string, order: seq<string>): Machine
    requires workdir != [] && Enumerates(order, Bases(m.files))
  {
    var e := Call(m, workdir, outcome, ["echo"]).0;
    var t := Dispatch(e, workdir, outcome, mode, order);
    if t.isDir then Call(t, workdir, outcome, RmLine(workdir)).0 else t
  }

  /**
    When no output line of a command mentions the working directory, the
    records printed for it are, put together, exactly what it printed.
  */
  lemma EchoFaithful(stdout: string, workdir: string)
    requires workdir != []
    requires forall k :: 0 <= k < |SplitLines(stdout)| ==> !Contains(SplitLines(stdout)[k], workdir)
    ensures Concat(Echo(SplitLines(stdout), workdir)) == stdout
  {
    EchoLines(SplitLines(stdout), workdir);
    ConcatSplitLines(stdout);
  }

  /** A line that does not mention the working directory is printed as it is. */
  lemma EchoUnchanged(lines: seq<string>, workdir: string, i: nat)
    requires workdir != [] && i < |lines| && !Contains(lines[i], workdir)
    ensures Echo(lines, workdir)[i] == lines[i]
  {
    ReplaceAbsent(lines[i], workdir, ".");
  }

  /** When no line mentions the working directory, the printed records put together are the lines put together. */
  lemma {:induction false} EchoLines(lines: seq<string>, workdir: string)
    requires workdir != []
    requires forall k :: 0 <= k < |lines| ==> !Contains(lines[k], workdir)
    ensures Concat(Echo(lines, workdir)) == Concat(lines)
    decreases |lines|
  {
    if lines != [] {
      var init := lines[..|lines| - 1];
      var last := lines[|lines| - 1];
      assert forall k :: 0 <= k < |init| ==> init[k] == lines[k];
      EchoLines(init, workdir);
      ReplaceAbsent(last, workdir, ".");
      ConcatSnoc(Echo(init, workdir), last);
      assert lines == init + [last];
      ConcatSnoc(init, last);
    }
  }

  /**
    What the helper prints: one error record naming the command line when it
    cannot be started (and it answers false), otherwise the output lines and,
    when `poll` saw the timeout's exit code, the interruption marker last.
  */
  lemma CallPrints(m: Machine, workdir: string, outcome: seq<string> -> ProcResult, cl: seq<string>)
    requires workdir != []
    ensures var r := Call(m, workdir, outcome, cl);
      && (!m.isDir || outcome(cl).LaunchFailed? ==>
            !r.1 && r.0.console == m.console + ["ERROR when running " + Join(" ", cl)])
      && (m.isDir && outcome(cl).Ran? ==>
            var lines := SplitLines(outcome(cl).stdout);
            && r.1
            && r.0.console == m.console + Echo(lines, workdir)
                 + (if outcome(cl).polled == Some(124) then ["<interrupted>"] else []))
  {
    if m.isDir && outcome(cl).Ran? {
      var lines := SplitLines(outcome(cl).stdout);
      var r := Call(m, workdir, outcome, cl);
      assert r.0.console == m.console + Echo(lines, workdir)
        + (if outcome(cl).polled == Some(InterruptReturnCode) then [InterruptString] else []);
    }
  }

  /** With the directory present, the script is `echo`, the mode's commands, and the removal. */
  lemma SafeRunSteps(m: Machine, workdir: string, outcome: seq<string> -> ProcResult, mode: string, order: seq<string>)
    requires workdir != [] && Enumerates(order, Bases(m.files)) && m.isDir
    ensures var e := Call(m, workdir, outcome, ["echo"]).0;
      && e.isDir && e.files == m.files && e.attempted == m.attempted + [["echo"]]
      && SafeRunOf(m, workdir, outcome, mode, order).attempted
         == Dispatch(e, workdir, outcome, mode, order).attempted + [RmLine(workdir)]
  {
    assert ["echo"] != RmLine(workdir);
  }

  /**
    In the prover's modes, with a project file: `echo`, then the prover with
    the mode's switches, then the removal.
  */
  lemma ProveModeCommands(m: Machine, workdir: string, outcome: seq<string> -> ProcResult, mode: string, order: seq<string>)
    requires workdir != [] && Enumerates(order, Bases(m.files))
    requires ProverFlags(mode).Some? && m.isDir && "main.gpr" in m.files
    ensures SafeRunOf(m, workdir, outcome, mode, order).attempted
      == m.attempted + [["echo"], ProverLine + ProverFlags(mode).value, RmLine(workdir)]
  {
    SafeRunSteps(m, workdir, outcome, mode, order);
    var e := Call(m, workdir, outcome, ["echo"]).0;
    ProveDispatch(e, workdir, outcome, mode, order);
    AppendSteps(m.attempted, ["echo"], ProverLine + ProverFlags(mode).value, [], RmLine(workdir));
  }

  /**
    In the prover's modes, with a project file: the prover runs on the
    doctored project, configured with the common restrictions followed by the
    SPARK settings, and a directory that survives the removal still holds it.
  */
  lemma ProveModeFiles(m: Machine, workdir: string, outcome: seq<string> -> ProcResult, mode: string, order: seq<string>)
    requires workdir != [] && Enumerates(order, Bases(m.files))
    requires ProverFlags(mode).Some? && m.isDir && "main.gpr" in m.files
    ensures var p := Dispatch(Call(m, workdir, outcome, ["echo"]).0, workdir, outcome, mode, order);
      p.files == Doctored(m.files, true, order) && p.files["main.adc"] == CommonAdc + "\n" + SparkAdc
    ensures var r := SafeRunOf(m, workdir, outcome, mode, order);
      r.isDir ==> r.files == Doctored(m.files, true, order) && r.files["main.adc"] == CommonAdc + "\n" + SparkAdc
  {
    var e := Call(m, workdir, outcome, ["echo"]).0;
    ProveDispatch(e, workdir, outcome, mode, order);
  }

  /** The prover's modes run the prover on the SPARK-configured project. */
  lemma ProveDispatch(e: Machine, workdir: string, outcome: seq<string> -> ProcResult, mode: string, order: seq<string>)
    requires workdir != [] && Enumerates(order, Bases(e.files))
    requires ProverFlags(mode).Some? && e.isDir && "main.gpr" in e.files
    ensures var p := Dispatch(e, workdir, outcome, mode, order);
      && p.attempted == e.attempted + [ProverLine + ProverFlags(mode).value]
      && p.files == Doctored(e.files, true, order)
  {
    var cl := ProverLine + ProverFlags(mode).value;
    assert cl != RmLine(workdir);
    var d := DoctorStep(e, true, order);
    assert d.0 == e.(files := Doctored(e.files, true, order)) && d.1.Some?;
    assert mode != "run";
    assert Dispatch(e, workdir, outcome, mode, order) == Call(d.0, workdir, outcome, cl).0;
  }

  /**
    In the run mode, with a project file: `echo`, the build, the program only
    when the build could be started and a main was found, then the removal.
  */
  lemma RunModeCommands(m: Machine, workdir: string, outcome: seq<string> -> ProcResult, order: seq<string>)
    requires workdir != [] && Enumerates(order, Bases(m.files))
    requires m.isDir && "main.gpr" in m.files
    ensures SafeRunOf(m, workdir, outcome, "run", order).attempted
      == m.attempted + [["echo"], BuildLine]
        + (if outcome(BuildLine).Ran? && MainFor(m.files, order) != [] then [RunLine(workdir, MainFor(m.files, order))] else [])
        + [RmLine(workdir)]
  {
    SafeRunSteps(m, workdir, outcome, "run", order);
    var e := Call(m, workdir, outcome, ["echo"]).0;
    RunDispatch(e, workdir, outcome, order);
    var main := MainFor(m.files, order);
    var program := if outcome(BuildLine).Ran? && main != [] then [RunLine(workdir, main)] else [];
    AppendSteps(m.attempted, ["echo"], BuildLine, program, RmLine(workdir));
  }

  /**
    The run mode's commands: the build, then the program when the build
    started and a main was found, on the project doctored without the SPARK
    settings.
  */
  lemma RunDispatch(e: Machine, workdir: string, outcome: seq<string> -> ProcResult, order: seq<string>)
    requires workdir != [] && Enumerates(order, Bases(e.files))
    requires e.isDir && "main.gpr" in e.files
    ensures var main := MainFor(e.files, order);
      Dispatch(e, workdir, outcome, "run", order).attempted == e.attempted + [BuildLine]
        + (if outcome(BuildLine).Ran? && main != [] then [RunLine(workdir, main)] else [])
    ensures Dispatch(e, workdir, outcome, "run", order).files == Doctored(e.files, false, order)
    ensures Dispatch(e, workdir, outcome, "run", order).files["main.adc"] == CommonAdc
  {
    var d := DoctorStep(e, false, order);
    var main := MainFor(e.files, order);
    assert d.1 == Some(main) && d.0.isDir && d.0.attempted == e.attempted;
    assert BuildLine != RmLine(workdir);
    assert AdcText(false) == CommonAdc;
    var b := Call(d.0, workdir, outcome, BuildLine);
    assert b.1 <==> outcome(BuildLine).Ran?;
    if b.1 && main != [] {
      assert RunLine(workdir, main) != RmLine(workdir);
      assert Dispatch(e, workdir, outcome, "run", order) == Call(b.0, workdir, outcome, RunLine(workdir, main)).0;
    } else {
      assert Dispatch(e, workdir, outcome, "run", order) == b.0;
    }
  }

  /** Regrouping the steps of a run, stated over any element type. */
  lemma AppendSteps<T>(a: seq<T>, x: T, y: T, t: seq<T>, z: T)
    ensures a + [x] + [y] + t + [z] == a + [x, y] + t + [z]
  {
    assert a + [x] + [y] == a + [x, y];
  }

  /** Without a project file no build and no prover is started, whatever the mode. */
  lemma MissingProjectCommands(m: Machine, workdir: string, outcome: seq<string> -> ProcResult, mode: string, order: seq<string>)
    requires workdir != [] && Enumerates(order, Bases(m.files))
    requires "main.gpr" !in m.files
    ensures var r := SafeRunOf(m, workdir, outcome, mode, order);
      r.attempted == m.attempted + [["echo"]] + (if m.isDir then [RmLine(workdir)] else [])
  {
  }

  /**
    A mode the script does not know starts nothing but `echo` and the
    removal, and says so between their outputs.
  */
  lemma UnknownModeReported(m: Machine, workdir: string, outcome: seq<string> -> ProcResult, mode: string, order: seq<string>)
    requires workdir != [] && Enumerates(order, Bases(m.files))
    requires mode != "run" && ProverFlags(mode).None?
    ensures var r := SafeRunOf(m, workdir, outcome, mode, order);
      && r.attempted == m.attempted + [["echo"]] + (if m.isDir then [RmLine(workdir)] else [])
      && r.console == m.console + CallOutput(workdir, outcome(["echo"]), m.isDir, ["echo"]) + ["mode not implemented"]
           + (if m.isDir then CallOutput(workdir, outcome(RmLine(workdir)), true, RmLine(workdir)) else [])
  {
  }

  /**
    The cleanup: `echo` is the first command; when the directory existed its
    removal is the last one, and afterwards the directory is gone unless
    the removal could not be started; a missing directory stays missing.
  */
  lemma CleanupAlways(m: Machine, workdir: string, outcome: seq<string> -> ProcResult, mode: string, order: seq<string>)
    requires workdir != [] && Enumerates(order, Bases(m.files))
    requires m.isDir || m.files == map[]
    ensures var r := SafeRunOf(m, workdir, outcome, mode, order);
      && |r.attempted| > |m.attempted| && r.attempted[|m.attempted|] == ["echo"]
      && (m.isDir ==> r.attempted[|r.attempted| - 1] == RmLine(workdir))
      && (r.isDir <==> m.isDir && outcome(RmLine(workdir)).LaunchFailed?)
      && (!r.isDir ==> r.files == map[])
  {
    var e := Call(m, workdir, outcome, ["echo"]).0;
    var t := Dispatch(e, workdir, outcome, mode, order);
    assert e.attempted == m.attempted + [["echo"]];
    assert t.attempted[..|e.attempted|] == e.attempted;
    assert t.attempted[|m.attempted|] == e.attempted[|m.attempted|];
  }

  /**
    The helper's reading loop: read the command's output line by line until
    the empty read, showing the working directory as `.` in each line.
  */
  method EchoOutput(stdout: string, workdir: string) returns (printed: seq<string>)
    requires workdir != []
    ensures printed == Echo(SplitLines(stdout), workdir)
  {
    var lines := SplitLines(stdout);
    printed := [];
    var i := 0;
    while i < |lines|
      invariant 0 <= i <= |lines|
      invariant printed == Echo(lines[..i], workdir)
    {
      assert lines[..i + 1][..i] == lines[..i];
      printed := printed + [Replace(lines[i], workdir, ".")];
      i := i + 1;
    }
    assert lines[..i] == lines;
  }

  /** The script in its working directory. */
  class Sandbox {
    const workdir: string
    const outcome: seq<string> -> ProcResult
    var isDir: bool
    var files: map<string, string>
    var console: seq<string>
    ghost var attempted: seq<seq<string>>

    ghost predicate Valid()
      reads this
    {
      workdir != [] && (!isDir ==> files == map[])
    }

    ghost function State(): Machine
      reads this
    {
      Machine(isDir, files, console, attempted)
    }

    constructor (workdir: string, outcome: seq<string> -> ProcResult, isDir: bool, files: map<string, string>)
      requires workdir != [] && (!isDir ==> files == map[])
      ensures Valid()
      ensures this.workdir == workdir && this.outcome == outcome
      ensures State() == Machine(isDir, files, [], [])
    {
      this.workdir := workdir;
      this.outcome := outcome;
      this.isDir := isDir;
      this.files := files;
      console := [];
      attempted := [];
    }

    /** The helper `c`: start `cl` in the working directory and print its output line by line. */
    method Run(cl: seq<string>) returns (ok: bool)
      requires Valid()
      modifies this
      ensures Valid()
      ensures (State(), ok) == Call(old(State()), workdir, outcome, cl)
    {
      ghost var m0 := State();
      attempted := attempted + [cl];
      var res := outcome(cl);
      if !isDir || res.LaunchFailed? {
        console := console + [ErrorLine(cl)];
        assert State() == Call(m0, workdir, outcome, cl).0;
        return false;
      }
      if cl == RmLine(workdir) {
        isDir := false;
        files := map[];
      }
      var printed := EchoOutput(res.stdout, workdir);
      console := console + printed;
      if res.polled == Some(InterruptReturnCode) {
        console := console + [InterruptString];
      }
      assert console == m0.console + CallOutput(workdir, res, true, cl);
      assert State() == Call(m0, workdir, outcome, cl).0;
      return true;
    }

    /**
      `doctor_main_gpr`: fill the project file's placeholder and rewrite the
      configuration file; without a project file the opening fails and
      nothing is written.
    */
    method DoctorMainGpr(spark: bool, order: seq<string>) returns (main: Option<string>)
      requires Valid() && Enumerates(order, Bases(files))
      modifies this
      ensures Valid()
      ensures (State(), main) == DoctorStep(old(State()), spark, order)
    {
      var languages := Languages(files);
      var m := MainFor(files, order);
      var insert := ProjectInsert(languages, m);
      if "main.gpr" !in files {
        return None;
      }
      var project := Replace(files["main.gpr"], Placeholder, insert);
      files := files["main.gpr" := project];
      files := files["main.adc" := AdcText(spark)];
      return Some(m);
    }

    /** `safe_run`: echo, run the mode's commands, then remove the directory if it is still there. */
    method SafeRun(mode: string, order: seq<string>)
      requires Valid() && Enumerates(order, Bases(files))
      modifies this
      ensures Valid()
      ensures State() == SafeRunOf(old(State()), workdir, outcome, mode, order)
    {
      ghost var m0 := State();
      var echoed := Run(["echo"]);
      ghost var e := State();
      assert e == Call(m0, workdir, outcome, ["echo"]).0;
      var flags := ProverFlags(mode);
      if mode == "run" {
        var main := DoctorMainGpr(false, order);
        if main.Some? {
          var built := Run(BuildLine);
          if built && main.value != [] {
            var ran := Run(RunLine(workdir, main.value));
          }
        }
      } else if flags.Some? {
        var main := DoctorMainGpr(true, order);
        if main.Some? {
          var proved := Run(ProverLine + flags.value);
        }
      } else {
        console := console + [NotImplemented];
      }
      assert State() == Dispatch(e, workdir, outcome, mode, order);
      if isDir {
        var removed := Run(RmLine(workdir));
      }
    }
  }
}
