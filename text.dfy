/**
  The Python string and list built-ins that the session ledger, the poll
  endpoint and the in-sandbox executor rely on, as total functions over
  `string` (= `seq<char>`), with the facts the rest of the model needs:
  - `SplitLines`: what `file.readlines()` and `iter(stream.readline, '')` cut a text into;
  - `SliceFrom`: the list slice `xs[n:]`, negative `n` included;
  - `Strip`: `str.strip()` with Python 2's whitespace set;
  - `Split`, `Join`, `Replace`: `str.split(sep)`, `sep.join(parts)`, `str.replace(old, new)`;
  - `IntToString`, `ParseInt`: `str(n)` and `int(s)` on decimal integers.
*/
module Text {

  datatype Option<T> = None | Some(value: T)

  predicate StartsWith(s: string, p: string) {
    |p| <= |s| && s[..|p|] == p
  }

  predicate EndsWith(s: string, p: string) {
    |p| <= |s| && s[|s| - |p|..] == p
  }

  /** The concatenation of a list of texts: `''.join(parts)`. */
  function Concat(parts: seq<string>): string {
    if parts == [] then [] else parts[0] + Concat(parts[1..])
  }

  lemma {:induction false} ConcatAppend(a: seq<string>, b: seq<string>)
    ensures Concat(a + b) == Concat(a) + Concat(b)
  {
    if a == [] {
      assert a + b == b;
    } else {
      assert (a + b)[1..] == a[1..] + b;
      ConcatAppend(a[1..], b);
    }
  }

  lemma ConcatSnoc(a: seq<string>, x: string)
    ensures Concat(a + [x]) == Concat(a) + x
  {
    ConcatAppend(a, [x]);
    assert Concat([x]) == x + Concat([]);
  }

  // ---------------------------------------------------------------------------
  // Lines

  /** A line as `readline` returns it: not empty, and a newline can only be its last character. */
  predicate IsLine(l: string) {
    l != [] && '\n' !in l[..|l| - 1]
  }

  /**
    The length of the first line of a non-empty text: up to and including the
    first newline, or the whole text when it has none. This is how much one
    `readline()` consumes.
  */
  function LineEnd(t: string): (n: nat)
    requires t != []
    ensures 1 <= n <= |t|
  {
    if t[0] == '\n' || |t| == 1 then 1 else 1 + LineEnd(t[1..])
  }

  /** The first line holds no newline before its end, and it ends with one unless it is all of the text. */
  lemma {:induction false} LineEndFacts(t: string)
    requires t != []
    ensures '\n' !in t[..LineEnd(t) - 1]
    ensures LineEnd(t) == |t| || t[LineEnd(t) - 1] == '\n'
  {
    if t[0] != '\n' && |t| > 1 {
      var m := LineEnd(t[1..]);
      LineEndFacts(t[1..]);
      assert t[..m] == [t[0]] + t[1..][..m - 1];
    }
  }

  /**
    The lines of a text, each keeping its terminating newline; a final piece
    without a newline is a line of its own when it is not empty. This is what
    `readlines()` returns and what successive `readline()` calls yield before
    the empty string that marks the end of the stream.
  */
  function SplitLines(t: string): (r: seq<string>)
    ensures t == [] <==> r == []
    decreases |t|
  {
    if t == [] then [] else [t[..LineEnd(t)]] + SplitLines(t[LineEnd(t)..])
  }

  /** The piece at index `k` is a line, and it ends with its newline unless it is the last. */
  lemma {:induction false} SplitLinesPiece(t: string, k: nat)
    requires k < |SplitLines(t)|
    ensures IsLine(SplitLines(t)[k])
    ensures k < |SplitLines(t)| - 1 ==> EndsWith(SplitLines(t)[k], "\n")
    decreases |t|
  {
    var n := LineEnd(t);
    var r := SplitLines(t);
    assert r == [t[..n]] + SplitLines(t[n..]);
    if k == 0 {
      LineEndFacts(t);
      assert r[0] == t[..n];
      if |r| > 1 {
        assert n < |t|;
      }
    } else {
      SplitLinesPiece(t[n..], k - 1);
    }
  }

  /** Every piece is a line, and every piece but the last ends with its newline. */
  lemma SplitLinesAreLines(t: string)
    ensures forall i :: 0 <= i < |SplitLines(t)| ==> IsLine(SplitLines(t)[i])
    ensures forall i :: 0 <= i < |SplitLines(t)| - 1 ==> EndsWith(SplitLines(t)[i], "\n")
  {
    forall i | 0 <= i < |SplitLines(t)| ensures IsLine(SplitLines(t)[i]) {
      SplitLinesPiece(t, i);
    }
    forall i | 0 <= i < |SplitLines(t)| - 1 ensures EndsWith(SplitLines(t)[i], "\n") {
      SplitLinesPiece(t, i);
    }
  }

  /** Reading a text back as lines and joining them gives the text: nothing is lost or reordered. */
  lemma {:induction false} ConcatSplitLines(t: string)
    ensures Concat(SplitLines(t)) == t
    decreases |t|
  {
    if t != [] {
      var n := LineEnd(t);
      ConcatSplitLines(t[n..]);
      SplitLinesUnfold(t, n);
      ConcatCons(t[..n], SplitLines(t[n..]));
      SliceAround(t, n);
    }
  }

  /** Joining a list with a head element: the head, then the rest joined. */
  lemma ConcatCons(x: string, rest: seq<string>)
    ensures Concat([x] + rest) == x + Concat(rest)
  {
    assert ([x] + rest)[1..] == rest;
  }

  /** Extending a prefix by the next element gives the next prefix. */
  lemma PrefixSnoc<T>(s: seq<T>, i: nat)
    requires i < |s|
    ensures s[..i] + [s[i]] == s[..i + 1]
  {
  }

  /** A sequence is its part before `n` followed by its part from `n`. */
  lemma SliceAround<T>(s: seq<T>, n: nat)
    requires n <= |s|
    ensures s[..n] + s[n..] == s
  {
  }

  /**
    Appending to a text that ends at a line boundary only appends lines: the
    lines already there are unchanged, and the new ones are the lines of the
    appended text.
  */
  lemma {:induction false} SplitLinesAppend(a: string, b: string)
    requires a == [] || a[|a| - 1] == '\n'
    ensures SplitLines(a + b) == SplitLines(a) + SplitLines(b)
    decreases |a|
  {
    if a == [] {
      assert a + b == b;
    } else {
      SplitLinesAppend(a[LineEnd(a)..], b);
      SplitLinesAppendStep(a, b);
    }
  }

  /** One step of the induction above: the first line is shared, the rest is appended. */
  lemma SplitLinesAppendStep(a: string, b: string)
    requires a != [] && a[|a| - 1] == '\n'
    requires SplitLines(a[LineEnd(a)..] + b) == SplitLines(a[LineEnd(a)..]) + SplitLines(b)
    ensures SplitLines(a + b) == SplitLines(a) + SplitLines(b)
  {
    var n := LineEnd(a);
    var t := a + b;
    FirstLineOfAppend(a, b);
    SliceOfAppend(a, b, n);
    SplitLinesUnfold(t, n);
    SplitLinesUnfold(a, n);
    Regroup(SplitLines(a), a[..n], SplitLines(a[n..]), SplitLines(b), SplitLines(t));
  }

  /** Slicing an append inside its first part. */
  lemma SliceOfAppend<T>(a: seq<T>, b: seq<T>, n: nat)
    requires n <= |a|
    ensures (a + b)[..n] == a[..n] && (a + b)[n..] == a[n..] + b
  {
  }

  /** One unfolding of the reading into lines, at the end `n` of the first line. */
  lemma SplitLinesUnfold(t: string, n: nat)
    requires t != [] && n == LineEnd(t)
    ensures SplitLines(t) == [t[..n]] + SplitLines(t[n..])
  {
  }

  /** Moving a head element across an append, stated over any element type. */
  lemma Regroup<T>(l: seq<T>, x: T, rest: seq<T>, more: seq<T>, whole: seq<T>)
    requires l == [x] + rest && whole == [x] + (rest + more)
    ensures whole == l + more
  {
  }

  /** The first line of a text that holds a newline is not affected by what follows the text. */
  lemma FirstLineOfAppend(a: string, b: string)
    requires a != [] && a[|a| - 1] == '\n'
    ensures LineEnd(a + b) == LineEnd(a)
    decreases |a|
  {
    if a[0] != '\n' {
      assert |a| > 1;
      assert (a + b)[1..] == a[1..] + b;
      FirstLineOfAppend(a[1..], b);
    }
  }

  /** A single line is read back as itself. */
  lemma SplitLinesOfLine(l: string)
    requires IsLine(l)
    ensures SplitLines(l) == [l]
  {
    LineEndFacts(l);
    assert LineEnd(l) == |l|;
    assert l[..|l|] == l;
  }

  /**
    At a line that is still being written the property above fails: a text
    whose last line has no newline yet is read as one line, and the same line
    is read differently once the rest of it has been appended.
  */
  lemma PartialLineIsNotKept()
    ensures SplitLines("abc") == ["abc"]
    ensures SplitLines("abc" + "def\n") == ["abcdef\n"]
    ensures SplitLines("abc") + SplitLines("def\n") != SplitLines("abc" + "def\n")
  {
    SplitLinesOfLine("abc");
    SplitLinesOfLine("def\n");
    assert "abc" + "def\n" == "abcdef\n";
    SplitLinesOfLine("abcdef\n");
    assert (SplitLines("abc") + SplitLines("def\n"))[0] != SplitLines("abc" + "def\n")[0];
  }

  // ---------------------------------------------------------------------------
  // File names

  /** A name the shell pattern `*` matches: `glob` does not list names with a leading dot. */
  predicate Visible(name: string) { name != [] && name[0] != '.' }

  /** The files of a directory that `glob(os.path.join(d, '*'))` lists. */
  function VisibleFiles(dir: map<string, string>): (m: map<string, string>)
    ensures forall k :: k in m <==> k in dir && Visible(k)
    ensures forall k :: k in m ==> m[k] == dir[k]
  {
    map k | k in dir && Visible(k) :: dir[k]
  }

  // ---------------------------------------------------------------------------
  // Slicing

  /** The Python slice `xs[n:]`: clamped to the list, a negative `n` counting from the end. */
  function SliceFrom<T>(xs: seq<T>, n: int): (r: seq<T>)
    ensures |r| <= |xs| && r == xs[|xs| - |r|..]
    ensures 0 <= n ==> |r| == if n <= |xs| then |xs| - n else 0
    ensures 0 <= n ==> forall i :: 0 <= i < |r| ==> r[i] == xs[n + i]
    ensures n < 0 ==> |r| == if -n <= |xs| then -n else |xs|
  {
    if n >= |xs| then []
    else if n >= 0 then xs[n..]
    else if -n >= |xs| then xs
    else xs[|xs| + n..]
  }

  // ---------------------------------------------------------------------------
  // Whitespace

  /** The characters Python 2's `str.strip()` removes by default. */
  predicate IsSpace(c: char) {
    c == ' ' || c == '\t' || c == '\n' || c == '\r' || c == '\U{000B}' || c == '\U{000C}'
  }

  predicate AllSpace(s: string) {
    forall i :: 0 <= i < |s| ==> IsSpace(s[i])
  }

  function StripLeft(s: string): (r: string)
    ensures |r| <= |s| && r == s[|s| - |r|..]
    ensures r == [] || !IsSpace(r[0])
  {
    if s != [] && IsSpace(s[0]) then StripLeft(s[1..]) else s
  }

  function StripRight(s: string): (r: string)
    ensures |r| <= |s| && r == s[..|r|]
    ensures r == [] || !IsSpace(r[|r| - 1])
  {
    if s != [] && IsSpace(s[|s| - 1]) then StripRight(s[..|s| - 1]) else s
  }

  /** `str.strip()`: the text without its leading and trailing whitespace. */
  function Strip(s: string): (r: string)
    ensures r != [] ==> !IsSpace(r[0]) && !IsSpace(r[|r| - 1])
    ensures |r| <= |s|
    ensures (s == [] || (!IsSpace(s[0]) && !IsSpace(s[|s| - 1]))) ==> r == s
  {
    StripEdges(s, StripLeft(s), StripRight(StripLeft(s)));
    StripRight(StripLeft(s))
  }

  /** Only a text made of whitespace strips to nothing. */
  lemma StripBlank(s: string)
    ensures Strip(s) == [] <==> AllSpace(s)
  {
    StripEmpty(s);
  }

  /**
    `str.strip()` cuts off only whitespace: the result is a slice of the text
    with nothing but whitespace before and after it.
  */
  lemma StripTrims(s: string)
    ensures exists i, j :: 0 <= i <= j <= |s| && Strip(s) == s[i..j] && AllSpace(s[..i]) && AllSpace(s[j..])
  {
    var l := StripLeft(s);
    var r := StripRight(l);
    var i := |s| - |l|;
    var j := i + |r|;
    StripLeftDrops(s);
    StripRightDrops(l);
    assert l == s[i..];
    assert r == s[i..j];
    assert s[j..] == l[|r|..];
  }

  /** What `StripLeft` removes is whitespace. */
  lemma {:induction false} StripLeftDrops(s: string)
    ensures AllSpace(s[..|s| - |StripLeft(s)|])
    decreases |s|
  {
    if s != [] && IsSpace(s[0]) {
      var t := s[1..];
      StripLeftDrops(t);
      var k := |t| - |StripLeft(t)|;
      assert StripLeft(s) == StripLeft(t);
      forall x | 0 <= x < k + 1 ensures IsSpace(s[x]) {
        if x > 0 {
          assert s[x] == t[..k][x - 1];
        }
      }
    }
  }

  /** What `StripRight` removes is whitespace. */
  lemma {:induction false} StripRightDrops(s: string)
    ensures AllSpace(s[|StripRight(s)|..])
    decreases |s|
  {
    if s != [] && IsSpace(s[|s| - 1]) {
      var p := s[..|s| - 1];
      StripRightDrops(p);
      var m := |StripRight(p)|;
      assert StripRight(s) == StripRight(p);
      forall x | 0 <= x < |s| - m ensures IsSpace(s[m..][x]) {
        if m + x < |p| {
          assert s[m..][x] == p[m..][x];
        }
      }
    }
  }

  lemma {:induction false} StripLeftEmpty(s: string)
    ensures StripLeft(s) == [] <==> AllSpace(s)
    decreases |s|
  {
    if s != [] {
      StripLeftEmpty(s[1..]);
      AllSpaceCons(s);
    }
  }

  /** A text is all whitespace when its first character is and the rest is. */
  lemma AllSpaceCons(s: string)
    requires s != []
    ensures AllSpace(s) <==> IsSpace(s[0]) && AllSpace(s[1..])
  {
    if IsSpace(s[0]) && AllSpace(s[1..]) {
      forall k | 0 <= k < |s| ensures IsSpace(s[k]) {
        if k > 0 {
          assert s[k] == s[1..][k - 1];
        }
      }
    }
    if AllSpace(s) {
      forall k | 0 <= k < |s[1..]| ensures IsSpace(s[1..][k]) {
        assert s[1..][k] == s[k + 1];
      }
    }
  }

  lemma {:induction false} StripRightKeepsFirst(s: string)
    requires s != [] && !IsSpace(s[0])
    ensures StripRight(s) != []
    decreases |s|
  {
    if IsSpace(s[|s| - 1]) {
      var p := s[..|s| - 1];
      assert p[0] == s[0];
      StripRightKeepsFirst(p);
    }
  }

  lemma StripEmpty(s: string)
    ensures StripRight(StripLeft(s)) == [] <==> AllSpace(s)
  {
    var l := StripLeft(s);
    StripLeftEmpty(s);
    if l != [] {
      StripRightKeepsFirst(l);
    }
  }

  lemma StripEdges(s: string, l: string, r: string)
    requires l == StripLeft(s) && r == StripRight(l)
    ensures r != [] ==> !IsSpace(r[0]) && !IsSpace(r[|r| - 1])
    ensures (s == [] || (!IsSpace(s[0]) && !IsSpace(s[|s| - 1]))) ==> r == s
  {
    if r != [] {
      assert r[0] == l[..|r|][0];
    }
    if s != [] && !IsSpace(s[0]) && !IsSpace(s[|s| - 1]) {
      assert l == s;
    }
  }

  // ---------------------------------------------------------------------------
  // Split, join and replace

  /** `sep.join(parts)`. */
  function Join(sep: string, parts: seq<string>): string {
    if parts == [] then []
    else if |parts| == 1 then parts[0]
    else parts[0] + sep + Join(sep, parts[1..])
  }

  /** The pattern `pat` starts at index `i` of `s`. */
  predicate OccursAt(s: string, pat: string, i: nat) {
    i + |pat| <= |s| && s[i..i + |pat|] == pat
  }

  ghost predicate Contains(s: string, pat: string) {
    exists i: nat :: OccursAt(s, pat, i)
  }

  /**
    `s.split(pat)`: the pieces of `s` between the occurrences of `pat` found
    scanning from the left, each occurrence consumed whole.
  */
  function Split(s: string, pat: string): (r: seq<string>)
    requires pat != []
    ensures |r| >= 1
    ensures |r[0]| <= |s| && r[0] == s[..|r[0]|]
    ensures forall i {:trigger StartsWith(s[i..], pat)} :: 0 <= i < |r[0]| ==> !StartsWith(s[i..], pat)
    decreases |s|
  {
    if StartsWith(s, pat) then [[]] + Split(s[|pat|..], pat)
    else if s == [] then [[]]
    else
      var rest := Split(s[1..], pat);
      assert forall i :: 1 <= i <= |s| ==> s[i..] == s[1..][i - 1..];
      [[s[0]] + rest[0]] + rest[1..]
  }

  /** `s.replace(pat, ins)`: scan from the left, replacing each occurrence of `pat` by `ins`. */
  function Replace(s: string, pat: string, ins: string): string
    requires pat != []
    decreases |s|
  {
    if StartsWith(s, pat) then ins + Replace(s[|pat|..], pat, ins)
    else if s == [] then []
    else [s[0]] + Replace(s[1..], pat, ins)
  }

  lemma JoinCons(sep: string, c: char, x: string, rest: seq<string>)
    ensures Join(sep, [[c] + x] + rest) == [c] + Join(sep, [x] + rest)
  {
    if rest != [] {
      assert ([[c] + x] + rest)[1..] == rest;
      assert ([x] + rest)[1..] == rest;
    }
  }

  /** Replacing is cutting at every occurrence and joining the pieces with the replacement. */
  lemma {:induction false} ReplaceIsJoinSplit(s: string, pat: string, ins: string)
    requires pat != []
    ensures Replace(s, pat, ins) == Join(ins, Split(s, pat))
    decreases |s|
  {
    if StartsWith(s, pat) {
      ReplaceIsJoinSplit(s[|pat|..], pat, ins);
      ReplaceJoinAtPattern(s, pat, ins);
    } else if s != [] {
      ReplaceIsJoinSplit(s[1..], pat, ins);
      ReplaceJoinAtChar(s, pat, ins);
    }
  }

  lemma ReplaceJoinAtPattern(s: string, pat: string, ins: string)
    requires pat != [] && StartsWith(s, pat)
    requires Replace(s[|pat|..], pat, ins) == Join(ins, Split(s[|pat|..], pat))
    ensures Replace(s, pat, ins) == Join(ins, Split(s, pat))
  {
    var rest := Split(s[|pat|..], pat);
    assert Split(s, pat) == [[]] + rest;
    JoinEmptyHead(ins, rest);
  }

  lemma ReplaceJoinAtChar(s: string, pat: string, ins: string)
    requires pat != [] && !StartsWith(s, pat) && s != []
    requires Replace(s[1..], pat, ins) == Join(ins, Split(s[1..], pat))
    ensures Replace(s, pat, ins) == Join(ins, Split(s, pat))
  {
    var rest := Split(s[1..], pat);
    assert Split(s, pat) == [[s[0]] + rest[0]] + rest[1..];
    assert rest == [rest[0]] + rest[1..];
    JoinCons(ins, s[0], rest[0], rest[1..]);
  }

  /** Joining the pieces back with the pattern gives the original text: only the occurrences are cut out. */
  lemma {:induction false} JoinSplit(s: string, pat: string)
    requires pat != []
    ensures Join(pat, Split(s, pat)) == s
    decreases |s|
  {
    if StartsWith(s, pat) {
      JoinSplit(s[|pat|..], pat);
      JoinSplitAtPattern(s, pat);
    } else if s != [] {
      JoinSplit(s[1..], pat);
      JoinSplitAtChar(s, pat);
    }
  }

  lemma JoinSplitAtPattern(s: string, pat: string)
    requires pat != [] && StartsWith(s, pat)
    requires Join(pat, Split(s[|pat|..], pat)) == s[|pat|..]
    ensures Join(pat, Split(s, pat)) == s
  {
    var rest := Split(s[|pat|..], pat);
    assert Split(s, pat) == [[]] + rest;
    JoinEmptyHead(pat, rest);
    assert s == s[..|pat|] + s[|pat|..];
  }

  lemma JoinEmptyHead(sep: string, rest: seq<string>)
    requires rest != []
    ensures Join(sep, [[]] + rest) == sep + Join(sep, rest)
  {
    var r := [[]] + rest;
    assert r[0] == [] && r[1..] == rest && |r| > 1;
  }

  lemma JoinSplitAtChar(s: string, pat: string)
    requires pat != [] && !StartsWith(s, pat) && s != []
    requires Join(pat, Split(s[1..], pat)) == s[1..]
    ensures Join(pat, Split(s, pat)) == s
  {
    var rest := Split(s[1..], pat);
    assert rest == [rest[0]] + rest[1..];
    JoinCons(pat, s[0], rest[0], rest[1..]);
    assert s == [s[0]] + s[1..];
  }

  /** Replacing a pattern that does not occur leaves the text as it is. */
  lemma {:induction false} ReplaceAbsent(s: string, pat: string, ins: string)
    requires pat != [] && !Contains(s, pat)
    ensures Replace(s, pat, ins) == s
    decreases |s|
  {
    if s != [] {
      assert !OccursAt(s, pat, 0);
      forall i: nat ensures !OccursAt(s[1..], pat, i) {
        assert !OccursAt(s, pat, i + 1);
        if i + |pat| <= |s[1..]| {
          assert s[1..][i..i + |pat|] == s[i + 1..i + 1 + |pat|];
        }
      }
      ReplaceAbsent(s[1..], pat, ins);
    }
  }

  lemma NotOccursFromPrefix(p: string, s: string, pat: string)
    requires |p| <= |s| && p == s[..|p|] && !StartsWith(s, pat)
    ensures !StartsWith(p, pat)
  {
  }

  /** A piece that starts where the pattern does not, and continues with a pattern-free piece, is pattern-free. */
  lemma HeadPieceFree(s: string, pat: string, tail: string)
    requires pat != [] && s != [] && !StartsWith(s, pat)
    requires |tail| < |s| && tail == s[1..1 + |tail|] && !Contains(tail, pat)
    ensures !Contains([s[0]] + tail, pat)
  {
    var p := [s[0]] + tail;
    assert p == s[..|p|];
    forall i: nat ensures !OccursAt(p, pat, i) {
      if i == 0 {
        NotOccursFromPrefix(p, s, pat);
      } else if i + |pat| <= |p| {
        assert p[i..i + |pat|] == tail[i - 1..i - 1 + |pat|];
        assert !OccursAt(tail, pat, i - 1);
      }
    }
  }

  /** No piece of a split contains the pattern: every occurrence was cut. */
  lemma {:induction false} SplitPiecesFree(s: string, pat: string)
    requires pat != []
    ensures forall k :: 0 <= k < |Split(s, pat)| ==> !Contains(Split(s, pat)[k], pat)
    decreases |s|
  {
    var r := Split(s, pat);
    if StartsWith(s, pat) {
      SplitPiecesFree(s[|pat|..], pat);
      var rest := Split(s[|pat|..], pat);
      forall k | 0 <= k < |r| ensures !Contains(r[k], pat) {
        if k == 0 {
          assert r[0] == [];
        } else {
          assert r[k] == rest[k - 1];
        }
      }
    } else if s == [] {
      assert r == [[]];
    } else {
      SplitPiecesFree(s[1..], pat);
      var rest := Split(s[1..], pat);
      forall k | 0 <= k < |r| ensures !Contains(r[k], pat) {
        if k == 0 {
          HeadPieceFree(s, pat, rest[0]);
        } else {
          assert r[k] == rest[k];
        }
      }
    }
  }

  // ---------------------------------------------------------------------------
  // Decimal integers

  predicate IsDigit(c: char) {
    '0' <= c <= '9'
  }

  predicate AllDigits(s: string) {
    forall i :: 0 <= i < |s| ==> IsDigit(s[i])
  }

  function DigitChar(d: nat): (c: char)
    requires d < 10
    ensures IsDigit(c)
  {
    ('0' as int + d) as char
  }

  /** The value of a run of decimal digits, most significant first. */
  function DigitsValue(s: string): nat
    requires AllDigits(s)
  {
    if s == [] then 0
    else DigitsValue(s[..|s| - 1]) * 10 + (s[|s| - 1] as int - '0' as int)
  }

  function NatToString(n: nat): (r: string)
    ensures r != [] && AllDigits(r)
  {
    if n < 10 then [DigitChar(n)] else NatToString(n / 10) + [DigitChar(n % 10)]
  }

  /** `str(n)` for an integer: optional minus sign, then decimal digits. */
  function IntToString(n: int): (r: string)
    ensures r != []
    ensures !IsSpace(r[0]) && !IsSpace(r[|r| - 1])
  {
    if n < 0 then "-" + NatToString(-n) else NatToString(n)
  }

  /** `int(s)` on an already stripped text: an optional sign and at least one digit, anything else fails. */
  function ParseInt(s: string): Option<int> {
    if s != [] && (s[0] == '-' || s[0] == '+') then
      if |s| > 1 && AllDigits(s[1..]) then
        var v: int := DigitsValue(s[1..]);
        Some(if s[0] == '-' then -v else v)
      else None
    else if s != [] && AllDigits(s) then Some(DigitsValue(s))
    else None
  }

  lemma {:induction false} DigitsValueOfNat(n: nat)
    ensures DigitsValue(NatToString(n)) == n
  {
    var r := NatToString(n);
    if n >= 10 {
      DigitsValueOfNat(n / 10);
      assert r[..|r| - 1] == NatToString(n / 10);
    }
  }

  /** Reading back a written integer gives the integer: `int(str(n)) == n`. */
  lemma IntRoundTrip(n: int)
    ensures ParseInt(IntToString(n)) == Some(n)
  {
    if n < 0 {
      DigitsValueOfNat(-n);
      var r := IntToString(n);
      assert r[1..] == NatToString(-n);
    } else {
      DigitsValueOfNat(n);
    }
  }
}
