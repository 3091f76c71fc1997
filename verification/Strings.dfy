/** Small string functions shared by the COPY parser and its printer. */
module Strings {

  datatype Option<+T> = None | Some(value: T)

  predicate Absent(s: string, banned: set<char>) {
    forall i :: 0 <= i < |s| ==> s[i] !in banned
  }

  predicate Free(parts: seq<string>, banned: set<char>) {
    forall i :: 0 <= i < |parts| ==> Absent(parts[i], banned)
  }

  function IndexOf(s: string, c: char): (r: Option<nat>)
    ensures r.Some? ==> r.value < |s| && s[r.value] == c && Absent(s[..r.value], {c})
    ensures r.None? ==> Absent(s, {c})
  {
    if s == "" then None
    else if s[0] == c then Some(0)
    else var k := IndexOf(s[1..], c); if k.None? then None else Some(k.value + 1)
  }

  lemma {:induction false} IndexAfter(a: string, c: char, b: string)
    requires Absent(a, {c})
    ensures IndexOf(a + [c] + b, c) == Some(|a|)
  {
    if a != "" {
      assert (a + [c] + b)[1..] == a[1..] + [c] + b;
      IndexAfter(a[1..], c, b);
    }
  }

  function Split(s: string, sep: char): (r: seq<string>)
    ensures |r| > 0
  {
    var k := IndexOf(s, sep);
    if k.None? then [s] else [s[..k.value]] + Split(s[k.value + 1..], sep)
  }

  function Join(parts: seq<string>, sep: string): string {
    if parts == [] then "" else if |parts| == 1 then parts[0] else parts[0] + sep + Join(parts[1..], sep)
  }

  lemma {:induction false} NoIndex(s: string, c: char)
    requires Absent(s, {c})
    ensures IndexOf(s, c) == None
  {
    if s != "" {
      NoIndex(s[1..], c);
    }
  }

  /** Splitting undoes joining when no part contains the separator. */
  lemma {:induction false} SplitJoin(parts: seq<string>, sep: char)
    requires parts != [] && Free(parts, {sep})
    ensures Split(Join(parts, [sep]), sep) == parts
  {
    var s := Join(parts, [sep]);
    if |parts| == 1 {
      NoIndex(s, sep);
    } else {
      var rest := Join(parts[1..], [sep]);
      assert s == parts[0] + [sep] + rest;
      IndexAfter(parts[0], sep, rest);
      assert s[..|parts[0]|] == parts[0] && s[|parts[0]| + 1..] == rest;
      SplitJoin(parts[1..], sep);
    }
  }

  lemma {:induction false} JoinAbsent(parts: seq<string>, sep: string, banned: set<char>)
    requires Free(parts, banned)
    requires Absent(sep, banned)
    ensures Absent(Join(parts, sep), banned)
  {
    if |parts| > 1 {
      JoinAbsent(parts[1..], sep, banned);
    }
  }

  function StripLeft(s: string, cs: set<char>): string {
    if s != "" && s[0] in cs then StripLeft(s[1..], cs) else s
  }

  function StripRight(s: string, cs: set<char>): string {
    if s != "" && s[|s| - 1] in cs then StripRight(s[..|s| - 1], cs) else s
  }

  function Strip(s: string, cs: set<char>): string {
    StripRight(StripLeft(s, cs), cs)
  }

  lemma StripNothing(s: string, cs: set<char>)
    requires Absent(s, cs)
    ensures Strip(s, cs) == s
  {
  }

  lemma StripAround(s: string, c: char, cs: set<char>)
    requires c in cs && Absent(s, cs)
    ensures Strip([c] + s, cs) == s && Strip([c] + s + [c], cs) == s
  {
    assert StripLeft(s, cs) == s && StripRight(s, cs) == s;
    assert ([c] + s)[1..] == s;
    assert StripLeft([c] + s, cs) == s;
    assert (s + [c])[..|s|] == s;
    assert StripRight(s + [c], cs) == s;
    assert ([c] + s + [c])[1..] == s + [c];
    if s == "" {
      assert s + [c] == [c] && [c][1..] == "";
      assert StripLeft([c] + s + [c], cs) == "";
    } else {
      assert StripLeft(s + [c], cs) == s + [c];
      assert StripLeft([c] + s + [c], cs) == s + [c];
    }
  }

  predicate StartsWith(s: string, prefix: string) {
    |s| >= |prefix| && s[..|prefix|] == prefix
  }

  const CR := '\r'
  const LF := '\n'

  function FirstBreak(s: string): (k: nat)
    ensures k <= |s| && Absent(s[..k], {CR, LF})
    ensures k < |s| ==> s[k] in {CR, LF}
  {
    if s == "" || s[0] in {CR, LF} then 0 else FirstBreak(s[1..]) + 1
  }

  /** The lines of a text file opened with universal newlines. */
  function Lines(s: string): seq<string>
    decreases |s|
  {
    if s == "" then []
    else
      var k := FirstBreak(s);
      if k == |s| then [s]
      else if s[k] == CR && k + 1 < |s| && s[k + 1] == LF then [s[..k]] + Lines(s[k + 2..])
      else [s[..k]] + Lines(s[k + 1..])
  }

  lemma {:induction false} BreakAt(a: string, c: char, b: string)
    requires Absent(a, {CR, LF}) && c in {CR, LF}
    ensures FirstBreak(a + [c] + b) == |a|
  {
    if a != "" {
      assert (a + [c] + b)[1..] == a[1..] + [c] + b;
      BreakAt(a[1..], c, b);
    }
  }

  /** A line ends at a line feed, a carriage return, or the two together. */
  lemma LineBreaks(a: string, b: string)
    requires Absent(a, {CR, LF})
    ensures Lines(a + [LF] + b) == [a] + Lines(b)
    ensures Lines(a + [CR] + ([LF] + b)) == [a] + Lines(b)
    ensures b == "" || b[0] != LF ==> Lines(a + [CR] + b) == [a] + Lines(b)
  {
    BreakAt(a, LF, b);
    BreakAt(a, CR, b);
    BreakAt(a, CR, [LF] + b);
    var s, t, u := a + [LF] + b, a + [CR] + ([LF] + b), a + [CR] + b;
    assert s[..|a|] == a && s[|a| + 1..] == b;
    assert t[..|a|] == a && t[|a| + 2..] == b;
    assert u[..|a|] == a && u[|a| + 1..] == b;
  }

  function Unlines(lines: seq<string>): string {
    if lines == [] then "" else lines[0] + [LF] + Unlines(lines[1..])
  }

  lemma {:induction false} LinesOfUnlines(lines: seq<string>)
    requires Free(lines, {CR, LF})
    ensures Lines(Unlines(lines)) == lines
  {
    if lines != [] {
      var rest := Unlines(lines[1..]);
      var s := lines[0] + [LF] + rest;
      BreakAt(lines[0], LF, rest);
      assert s[..|lines[0]|] == lines[0] && s[|lines[0]| + 1..] == rest;
      LinesOfUnlines(lines[1..]);
    }
  }
}
