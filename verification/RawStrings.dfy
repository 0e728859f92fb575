/** Raw string literals: printing a text as a Rust raw string and reading it back, and carrying test input with
  * backticks through a raw string that is delimited by backticks.
  */
module RawStrings {
  import opened Options

  // ---- finding a text in a text ----

  predicate StartsWith(t: string, i: nat, p: string) {
    i + |p| <= |t| && t[i..i + |p|] == p
  }

  /** The first occurrence of `p` at or after `i`. */
  function IndexOf(t: string, i: nat, p: string): Option<nat>
    decreases |t| - i
  {
    if i + |p| > |t| then None
    else if StartsWith(t, i, p) then Some(i)
    else IndexOf(t, i + 1, p)
  }

  lemma {:induction false} IndexOfIs(t: string, i: nat, p: string)
    ensures match IndexOf(t, i, p)
            case Some(k) => i <= k && StartsWith(t, k, p) && forall j | i <= j < k :: !StartsWith(t, j, p)
            case None => forall j: nat | i <= j :: !StartsWith(t, j, p)
    decreases |t| - i
  {
    if i + |p| <= |t| && !StartsWith(t, i, p) {
      IndexOfIs(t, i + 1, p);
    }
  }

  lemma IndexOfFirst(t: string, i: nat, p: string, k: nat)
    requires i <= k && StartsWith(t, k, p) && forall j | i <= j < k :: !StartsWith(t, j, p)
    ensures IndexOf(t, i, p) == Some(k)
  {
    IndexOfIs(t, i, p);
  }

  // ---- printing ----

  function Hashes(n: nat): (s: string)
    ensures |s| == n && forall i | 0 <= i < n :: s[i] == '#'
  {
    seq(n, _ => '#')
  }

  function Fence(n: nat): string {
    "\"" + Hashes(n)
  }

  /** A quote with `n` hashes after it occurs in the text. */
  predicate HasFence(v: string, n: nat) {
    IndexOf(v, 0, Fence(n)).Some?
  }

  function Printed(v: string, n: nat): string {
    "r" + Hashes(n) + "\"" + v + Fence(n)
  }

  lemma FewerHashes(v: string, m: nat, n: nat)
    requires m <= n && HasFence(v, n)
    ensures HasFence(v, m)
  {
    IndexOfIs(v, 0, Fence(n));
    var k := IndexOf(v, 0, Fence(n)).value;
    assert Fence(m) == Fence(n)[..m + 1];
    assert v[k..k + m + 1] == v[k..k + n + 1][..m + 1];
    assert StartsWith(v, k, Fence(m));
    IndexOfIs(v, 0, Fence(m));
  }

  /** As few hashes as keep the closing fence from occurring in the text. */
  ghost predicate FewestHashes(v: string, n: nat) {
    !HasFence(v, n) && forall m: nat | m < n :: HasFence(v, m)
  }

  ghost predicate PrintedShortest(v: string, r: string) {
    exists n: nat :: FewestHashes(v, n) && r == Printed(v, n)
  }

  /** Prints with the fewest hashes. Reading gives the text back unless it has a carriage return or the limit is too
    * low.
    */
  method RustRawString(v: string) returns (r: string)
    ensures PrintedShortest(v, r)
    ensures ReadRust(r) == Some((v, "")) <==> '\r' !in v && !HasFence(v, MAX_HASHES)
  {
    var hashes := "";
    while IndexOf(v, 0, "\"" + hashes).Some?
      invariant hashes == Hashes(|hashes|)
      invariant forall m: nat | m < |hashes| :: HasFence(v, m)
      invariant |hashes| <= |v|
      decreases |v| - |hashes|
    {
      IndexOfIs(v, 0, "\"" + hashes);
      assert "\"" + hashes == Fence(|hashes|);
      hashes := hashes + "#";
      assert hashes == Hashes(|hashes|);
    }
    r := "r" + hashes + "\"" + v + "\"" + hashes;
    assert FewestHashes(v, |hashes|) && r == Printed(v, |hashes|);
    FewestReadBack(v, |hashes|);
  }

  // ---- reading Rust source (Raw string literals and Input format, The Rust Reference) ----

  /** Carriage returns before line feeds are dropped before anything else. */
  function NormalizeCrLf(s: string): string {
    if s == "" then ""
    else if s[0] == '\r' && |s| > 1 && s[1] == '\n' then NormalizeCrLf(s[1..])
    else [s[0]] + NormalizeCrLf(s[1..])
  }

  function CountHashes(s: string, i: nat): nat
    decreases |s| - i
  {
    if i < |s| && s[i] == '#' then 1 + CountHashes(s, i + 1) else 0
  }

  const MAX_HASHES := 255

  /** The content of the raw string at the beginning and what follows it. A bare carriage return is not allowed in it.
    */
  function LexRaw(s: string): Option<(string, string)> {
    if s == "" || s[0] != 'r' then None
    else
      var n := CountHashes(s, 1);
      if n > MAX_HASHES || n + 1 >= |s| || s[n + 1] != '"' then None
      else
        match IndexOf(s, n + 2, Fence(n))
        case None => None
        case Some(e) =>
          if e < n + 2 || e + n + 1 > |s| || '\r' in s[n + 2..e] then None else Some((s[n + 2..e], s[e + n + 1..]))
  }

  function ReadRust(source: string): Option<(string, string)> {
    LexRaw(NormalizeCrLf(source))
  }

  lemma {:induction false} CountAll(s: string, i: nat, n: nat)
    requires i + n < |s| && (forall k | i <= k < i + n :: s[k] == '#') && s[i + n] != '#'
    ensures CountHashes(s, i) == n
    decreases n
  {
    if n > 0 {
      CountAll(s, i + 1, n - 1);
    }
  }

  lemma {:induction false} NormalizeNothing(s: string)
    requires '\r' !in s
    ensures NormalizeCrLf(s) == s
  {
    if s != "" {
      assert s[0] in s && forall c | c in s[1..] :: c in s;
      NormalizeNothing(s[1..]);
    }
  }

  /** Where the closing fence of a printed text first occurs: after the text if the text has no such fence in it. */
  lemma FenceAfter(v: string, n: nat, rest: string)
    requires !HasFence(v, n)
    ensures var head := "r" + Hashes(n) + "\"";
            IndexOf(Printed(v, n) + rest, |head|, Fence(n)) == Some(|head| + |v|)
  {
    var head := "r" + Hashes(n) + "\"";
    var s, h := Printed(v, n) + rest, |head|;
    assert s == head + v + Fence(n) + rest;
    assert s[h + |v|..h + |v| + n + 1] == Fence(n);
    IndexOfIs(v, 0, Fence(n));
    forall j | h <= j < h + |v| ensures !StartsWith(s, j, Fence(n)) {
      NotInside(head, v, n, rest, j - h);
    }
    IndexOfFirst(s, h, Fence(n), h + |v|);
  }

  lemma NotInside(head: string, v: string, n: nat, rest: string, k: nat)
    requires k < |v| && (forall j: nat :: !StartsWith(v, j, Fence(n)))
    ensures !StartsWith(head + v + Fence(n) + rest, |head| + k, Fence(n))
  {
    var s := head + v + Fence(n) + rest;
    var j, d := |head| + k, |v| - k;
    if d > n {
      assert s[j..j + n + 1] == v[k..k + n + 1];
      assert !StartsWith(v, k, Fence(n));
    } else {
      assert s[j + d] == '"' && Fence(n)[d] == '#';
      assert j + n + 1 <= |s| ==> s[j..j + n + 1][d] == s[j + d];
    }
  }

  /** Reading a printed text whose fence does not occur in it gives the text and what follows, within the limits of the
    * language.
    */
  lemma PrintedLexes(v: string, n: nat, rest: string)
    requires !HasFence(v, n)
    ensures LexRaw(Printed(v, n) + rest) == if n <= MAX_HASHES && '\r' !in v then Some((v, rest)) else None
  {
    hide IndexOf;
    var s := Printed(v, n) + rest;
    var head := "r" + Hashes(n) + "\"";
    assert s == head + v + Fence(n) + rest;
    assert s[n + 1] == '"';
    CountAll(s, 1, n);
    FenceAfter(v, n, rest);
    assert s[n + 2..n + 2 + |v|] == v;
    assert s[n + 2 + |v| + n + 1..] == rest;
  }

  /** With fewer hashes reading does not give the text back. */
  lemma FewerHashesFail(v: string, m: nat)
    requires HasFence(v, m)
    ensures LexRaw(Printed(v, m)) != Some((v, ""))
  {
    hide IndexOf;
    var s := Printed(v, m);
    var head := "r" + Hashes(m) + "\"";
    assert s == head + v + Fence(m);
    assert s[m + 1] == '"';
    CountAll(s, 1, m);
    IndexOfIs(v, 0, Fence(m));
    var k := IndexOf(v, 0, Fence(m)).value;
    assert s[m + 2 + k..m + 2 + k + m + 1] == v[k..k + m + 1];
    assert StartsWith(s, m + 2 + k, Fence(m));
    IndexOfIs(s, m + 2, Fence(m));
  }

  /** A printed text is read back from source exactly when it has no carriage return and needs at most 255 hashes. */
  lemma RawStringRoundTrip(v: string, n: nat)
    requires !HasFence(v, n)
    ensures ReadRust(Printed(v, n)) == Some((v, "")) <==> '\r' !in v && n <= MAX_HASHES
  {
    var s := Printed(v, n);
    assert s + "" == s;
    PrintedLexes(v, n, "");
    if '\r' !in v {
      assert '\r' !in s;
      NormalizeNothing(s);
    } else {
      CarriageReturnLost(NormalizeCrLf(s), v);
    }
  }

  lemma FewestReadBack(v: string, n: nat)
    requires FewestHashes(v, n)
    ensures ReadRust(Printed(v, n)) == Some((v, "")) <==> '\r' !in v && !HasFence(v, MAX_HASHES)
  {
    RawStringRoundTrip(v, n);
    if n <= MAX_HASHES && HasFence(v, MAX_HASHES) {
      FewerHashes(v, n, MAX_HASHES);
    }
  }

  lemma CarriageReturnLost(s: string, v: string)
    requires '\r' in v
    ensures LexRaw(s).None? || LexRaw(s).value.0 != v
  {
  }

  // ---- test input between backticks ----

  /** A backtick inside a text delimited by backticks is written as the end of the text, a quoted backtick and a new
    * beginning.
    */
  const SPLICE := "` + \"`\" + `"

  function Spliced(line: string): string {
    if line == "" then ""
    else (if line[0] == '`' then SPLICE else [line[0]]) + Spliced(line[1..])
  }

  /** Every occurrence of the splice, from the left, turned back into a backtick. */
  function Unspliced(s: string): string {
    if s == "" then ""
    else if StartsWith(s, 0, SPLICE) then "`" + Unspliced(s[|SPLICE|..])
    else [s[0]] + Unspliced(s[1..])
  }

  lemma UnspliceHead(more: string)
    ensures Unspliced(SPLICE + more) == "`" + Unspliced(more)
  {
    var s := SPLICE + more;
    assert s[0..|SPLICE|] == SPLICE && s[|SPLICE|..] == more;
  }

  lemma UnspliceOther(c: char, more: string)
    requires c != '`'
    ensures Unspliced([c] + more) == [c] + Unspliced(more)
  {
    var s := [c] + more;
    assert s[1..] == more && SPLICE[0] == '`';
    assert |SPLICE| <= |s| ==> s[0..|SPLICE|][0] == c;
  }

  /** Undoing the splices of a line gives the line back, whatever it is and whatever follows. */
  lemma {:induction false} UnspliceUndoes(line: string, rest: string)
    ensures Unspliced(Spliced(line) + rest) == line + Unspliced(rest)
    decreases |line|
  {
    hide Unspliced;
    if line == "" {
      assert Spliced(line) + rest == rest;
    } else {
      var more := Spliced(line[1..]) + rest;
      UnspliceUndoes(line[1..], rest);
      if line[0] == '`' {
        assert Spliced(line) + rest == SPLICE + more;
        UnspliceHead(more);
      } else {
        assert Spliced(line) + rest == [line[0]] + more;
        UnspliceOther(line[0], more);
      }
    }
  }

  /** A line that does not contain the splice is left alone. */
  lemma {:induction false} UnspliceNothing(line: string, rest: string)
    requires forall i: nat | i < |line| :: !StartsWith(line + rest, i, SPLICE)
    ensures Unspliced(line + rest) == line + Unspliced(rest)
    decreases |line|
  {
    if line == "" {
      assert "" + rest == rest;
    } else {
      assert (line + rest)[1..] == line[1..] + rest;
      forall i: nat | i < |line[1..]| ensures !StartsWith(line[1..] + rest, i, SPLICE) {
        assert !StartsWith(line + rest, i + 1, SPLICE);
        assert i + |SPLICE| <= |line[1..] + rest| ==>
            (line[1..] + rest)[i..i + |SPLICE|] == (line + rest)[i + 1..i + 1 + |SPLICE|];
      }
      UnspliceNothing(line[1..], rest);
    }
  }

  /** A kept line of a test: input after four slashes, or a directive. */
  datatype Line = Input(text: string) | Directive(text: string)

  function Classify(line: string): Option<Line> {
    if StartsWith(line, 0, "////") then Some(Input(line[4..]))
    else if StartsWith(line, 0, "// @") || StartsWith(line, 0, "//@") then Some(Directive(line))
    else None
  }

  /** Only input lines have their backticks spliced. */
  function Written(l: Line): string {
    match l
    case Input(text) => Spliced(text)
    case Directive(text) => text
  }

  function Plain(l: Line): string {
    l.text
  }

  function Kept(lines: seq<string>): seq<Line> {
    if lines == [] then []
    else
      var c := Classify(lines[|lines| - 1]);
      Kept(lines[..|lines| - 1]) + if c.Some? then [c.value] else []
  }

  /** The text between line feeds. */
  function SplitLines(s: string): seq<string> {
    if s == "" then [""]
    else
      var rest := SplitLines(s[1..]);
      if s[0] == '\n' then [""] + rest else [[s[0]] + rest[0]] + rest[1..]
  }

  function WithoutCr(line: string): string {
    if line != "" && line[|line| - 1] == '\r' then line[..|line| - 1] else line
  }

  function Lines(content: string): seq<string> {
    var ls := SplitLines(content);
    seq(|ls|, i requires 0 <= i < |ls| => WithoutCr(ls[i]))
  }

  /** The line keeps the others from losing a leading space. */
  predicate Anchors(line: string) {
    line != "" && !StartsWith(line, 0, " ") && !StartsWith(line, 0, "// ") && !StartsWith(line, 0, "//@")
  }

  function Chop(line: string): string {
    if StartsWith(line, 0, " ") then line[1..] else line
  }

  function Chopped(lines: seq<string>): seq<string> {
    if exists i :: 0 <= i < |lines| && Anchors(lines[i]) then lines
    else seq(|lines|, i requires 0 <= i < |lines| => Chop(lines[i]))
  }

  function JoinLines(lines: seq<string>): string {
    if lines == [] then ""
    else if |lines| == 1 then lines[0]
    else lines[0] + "\n" + JoinLines(lines[1..])
  }

  function Texts(ls: seq<Line>, f: Line -> string): seq<string> {
    seq(|ls|, i requires 0 <= i < |ls| => f(ls[i]))
  }

  /** The test input as a Go raw string expression. */
  function TestInput(content: string): string {
    "`" + JoinLines(Chopped(Texts(Kept(Lines(content)), Written))) + "`"
  }

  /** Splits at backticks and puts the splice between the parts. */
  method SpliceLine(line: string) returns (newLine: string)
    ensures newLine == Spliced(line)
  {
    newLine := "";
    var i := 0;
    while i < |line|
      invariant 0 <= i <= |line|
      invariant newLine + Spliced(line[i..]) == Spliced(line)
    {
      assert line[i..][0] == line[i] && line[i..][1..] == line[i + 1..];
      if line[i] == '`' {
        newLine := newLine + SPLICE;
      } else {
        newLine := newLine + [line[i]];
      }
      i := i + 1;
    }
  }

  lemma NothingKept()
    ensures Texts(Kept([]), Written) == []
  {
  }

  /** What one more line adds to the written lines. */
  lemma KeptNext(lines: seq<string>, i: nat)
    requires i < |lines|
    ensures Texts(Kept(lines[..i + 1]), Written) ==
              Texts(Kept(lines[..i]), Written)
              + match Classify(lines[i]) case Some(l) => [Written(l)] case None => []
  {
    assert lines[..i + 1][..i] == lines[..i];
  }

  method GetTestInput(content: string) returns (r: string)
    ensures r == TestInput(content)
  {
    hide Kept, Texts, Lines, Spliced;
    var lines := Lines(content);
    var testInput: seq<string> := [];
    NothingKept();
    var i := 0;
    while i < |lines|
      invariant 0 <= i <= |lines|
      invariant testInput == Texts(Kept(lines[..i]), Written)
    {
      var line := lines[i];
      KeptNext(lines, i);
      if StartsWith(line, 0, "////") {
        var newLine := SpliceLine(line[4..]);
        testInput := testInput + [newLine];
      } else if StartsWith(line, 0, "// @") || StartsWith(line, 0, "//@") {
        testInput := testInput + [line];
      }
      i := i + 1;
    }
    assert lines[..i] == lines;
    if !(exists k :: 0 <= k < |testInput| && Anchors(testInput[k])) {
      var chopped: seq<string> := [];
      while |chopped| < |testInput|
        invariant |chopped| <= |testInput|
        invariant forall k | 0 <= k < |chopped| :: chopped[k] == Chop(testInput[k])
      {
        chopped := chopped + [Chop(testInput[|chopped|])];
      }
      assert chopped == Chopped(testInput);
      testInput := chopped;
    }
    r := "`" + JoinLines(testInput) + "`";
  }

  datatype Error = NotGoRawString

  /** A Go raw string, delimited by backticks, as a Rust raw string. */
  method RustRawStringFromGoRaw(value: string) returns (r: Result<string, Error>)
    ensures r.Ok? <==> value != "" && value[0] == '`' && value[|value| - 1] == '`'
    ensures r.Ok? ==>
              && var text := Unspliced(if |value| == 1 then "" else value[1..|value| - 1]);
                 && PrintedShortest(text, r.value)
  {
    if value == "" || value[0] != '`' || value[|value| - 1] != '`' {
      return Err(NotGoRawString);
    }
    var inner := if |value| == 1 then "" else value[1..|value| - 1];
    var printed := RustRawString(Unspliced(inner));
    r := Ok(printed);
  }

  // ---- the splicing is undone ----

  /** A directive that happens to contain the splice would not come back. */
  predicate HasSplice(line: string) {
    IndexOf(line, 0, SPLICE).Some?
  }

  lemma SplicedHead(line: string)
    ensures Anchors(Spliced(line)) == Anchors(line)
    ensures Chop(Spliced(line)) == Spliced(Chop(line))
  {
    if line != "" {
      var s := Spliced(line);
      var rest := Spliced(line[1..]);
      assert s == (if line[0] == '`' then SPLICE else [line[0]]) + rest;
      assert s != "" && s[0] == line[0];
      SplicedPrefix(line, "// ");
      SplicedPrefix(line, "//@");
      SplicedPrefix(line, " ");
      if line[0] == ' ' {
        assert s[1..] == rest;
      }
    }
  }

  /** Splicing does not touch a beginning without backticks. */
  lemma {:induction false} SplicedPrefix(line: string, p: string)
    requires '`' !in p
    ensures StartsWith(Spliced(line), 0, p) <==> StartsWith(line, 0, p)
    decreases |p|
  {
    if p != "" && line != "" {
      assert p[0] in p && forall c | c in p[1..] :: c in p;
      SplicedPrefix(line[1..], p[1..]);
      var s := Spliced(line);
      var rest := Spliced(line[1..]);
      PrefixStep(line, p);
      if line[0] == '`' {
        assert s == SPLICE + rest && s[0] == '`';
        PrefixStep(s, p);
      } else {
        assert s == [line[0]] + rest && s[1..] == rest;
        PrefixStep(s, p);
      }
    }
  }

  lemma PrefixStep(s: string, p: string)
    requires s != "" && p != ""
    ensures StartsWith(s, 0, p) <==> s[0] == p[0] && StartsWith(s[1..], 0, p[1..])
  {
    if StartsWith(s, 0, p) {
      assert s[0] == s[0..|p|][0];
      assert s[1..][0..|p| - 1] == s[0..|p|][1..];
    }
    if s[0] == p[0] && StartsWith(s[1..], 0, p[1..]) {
      assert s[0..|p|] == [s[0]] + s[1..][0..|p| - 1];
      assert p == [p[0]] + p[1..];
    }
  }

  lemma ChoppedLine(l: Line)
    ensures Anchors(Written(l)) == Anchors(Plain(l))
    ensures Chop(Written(l)) == Written(if l.Input? then Input(Chop(l.text)) else Directive(Chop(l.text)))
  {
    SplicedHead(l.text);
  }

  /** Lines that come back: input lines always, directives if they do not contain the splice. */
  predicate ComesBack(l: Line) {
    l.Input? || !HasSplice(l.text)
  }

  /** A line feed, which no splice contains, keeps splices on both sides apart. */
  lemma {:induction false} UnspliceSplit(line: string, rest: string)
    requires rest == "" || rest[0] == '\n'
    ensures Unspliced(line + rest) == Unspliced(line) + Unspliced(rest)
    decreases |line|
  {
    var s := line + rest;
    if line == "" {
      assert s == rest;
    } else if StartsWith(s, 0, SPLICE) {
      SpliceInLine(line, rest);
      assert s[|SPLICE|..] == line[|SPLICE|..] + rest;
      UnspliceSplit(line[|SPLICE|..], rest);
    } else {
      assert |SPLICE| <= |line| ==> s[0..|SPLICE|] == line[0..|SPLICE|];
      assert s[1..] == line[1..] + rest;
      UnspliceSplit(line[1..], rest);
    }
  }

  lemma SpliceInLine(line: string, rest: string)
    requires rest == "" || rest[0] == '\n'
    requires StartsWith(line + rest, 0, SPLICE)
    ensures |SPLICE| <= |line| && StartsWith(line, 0, SPLICE)
  {
    var s := line + rest;
    assert rest != "" ==> s[|line|] == '\n';
    assert forall k | 0 <= k < |SPLICE| :: s[k] == s[0..|SPLICE|][k] && SPLICE[k] != '\n';
    assert s[0..|SPLICE|] == line[0..|SPLICE|];
  }

  /** Undoing the splices of joined lines is undoing those of each line. */
  lemma {:induction false} UnspliceJoined(lines: seq<string>)
    ensures Unspliced(JoinLines(lines)) == JoinLines(UnspliceAll(lines))
    decreases |lines|
  {
    hide Unspliced;
    UnspliceEmpty();
    if |lines| > 1 {
      var rest := JoinLines(lines[1..]);
      UnspliceJoined(lines[1..]);
      assert JoinLines(lines) == lines[0] + ("\n" + rest);
      UnspliceSplit(lines[0], "\n" + rest);
      UnspliceOther('\n', rest);
      assert UnspliceAll(lines)[1..] == UnspliceAll(lines[1..]);
    }
  }

  function UnspliceAll(lines: seq<string>): seq<string> {
    seq(|lines|, i requires 0 <= i < |lines| => Unspliced(lines[i]))
  }

  lemma UnspliceEmpty()
    ensures Unspliced("") == ""
  {
  }

  /** Lines of which none is longer than its counterpart make the same text only if they are the same. */
  lemma {:induction false} JoinShorter(shorter: seq<string>, lines: seq<string>)
    requires |shorter| == |lines| && forall i | 0 <= i < |lines| :: shorter[i] == lines[i] || |shorter[i]| < |lines[i]|
    ensures |JoinLines(shorter)| <= |JoinLines(lines)|
    ensures shorter != lines ==> |JoinLines(shorter)| < |JoinLines(lines)|
    decreases |lines|
  {
    if |lines| > 1 {
      JoinShorter(shorter[1..], lines[1..]);
      if shorter != lines && shorter[1..] == lines[1..] {
        assert shorter == [shorter[0]] + shorter[1..] && lines == [lines[0]] + lines[1..];
      }
    }
  }

  /** Undoing the splices of joined lines gives the joined plain lines exactly if every line comes back. */
  lemma {:induction false} UnspliceLines(ls: seq<Line>)
    ensures Unspliced(JoinLines(Texts(ls, Written))) == JoinLines(Texts(ls, Plain)) <==>
              forall l | l in ls :: ComesBack(l)
  {
    var us, ps := UnspliceAll(Texts(ls, Written)), Texts(ls, Plain);
    UnspliceJoined(Texts(ls, Written));
    forall i | 0 <= i < |ls|
      ensures us[i] == ps[i] <==> ComesBack(ls[i])
      ensures us[i] == ps[i] || |us[i]| < |ps[i]|
    {
      LineComesBack(ls[i]);
    }
    hide Unspliced, Written, Plain, ComesBack;
    JoinShorter(us, ps);
    if us == ps {
      forall l | l in ls ensures ComesBack(l) {
        var i :| 0 <= i < |ls| && ls[i] == l;
        assert us[i] == ps[i];
      }
    } else {
      var i :| 0 <= i < |ls| && us[i] != ps[i];
      assert ls[i] in ls && !ComesBack(ls[i]);
    }
  }

  lemma LineComesBack(l: Line)
    ensures Unspliced(Written(l)) == Plain(l) <==> ComesBack(l)
    ensures Unspliced(Written(l)) == Plain(l) || |Unspliced(Written(l))| < |Plain(l)|
  {
    hide Unspliced;
    match l {
      case Input(text) =>
        UnspliceUndoes(text, "");
        UnspliceEmpty();
        assert Spliced(text) + "" == Spliced(text);
      case Directive(text) =>
        DirectiveComesBack(text);
        UnsplicedLength(text);
    }
  }

  lemma {:induction false} UnsplicedLength(s: string)
    ensures |Unspliced(s)| <= |s|
    ensures HasSplice(s) ==> |Unspliced(s)| < |s|
    decreases |s|
  {
    IndexOfIs(s, 0, SPLICE);
    if s != "" {
      if StartsWith(s, 0, SPLICE) {
        UnsplicedLength(s[|SPLICE|..]);
      } else {
        UnsplicedLength(s[1..]);
        IndexOfIs(s[1..], 0, SPLICE);
        if HasSplice(s) {
          var k := IndexOf(s, 0, SPLICE).value;
          assert k > 0 && s[1..][k - 1..k - 1 + |SPLICE|] == s[k..k + |SPLICE|];
          assert StartsWith(s[1..], k - 1, SPLICE);
        }
      }
    }
  }

  /** A directive comes back exactly when it does not contain the splice. */
  lemma DirectiveComesBack(text: string)
    ensures Unspliced(text) == text <==> !HasSplice(text)
  {
    UnsplicedLength(text);
    if !HasSplice(text) {
      assert text + "" == text;
      IndexOfIs(text, 0, SPLICE);
      UnspliceNothing(text, "");
    }
  }

  function ChopLine(l: Line): Line {
    if l.Input? then Input(Chop(l.text)) else Directive(Chop(l.text))
  }

  function ChopAll(ls: seq<Line>): seq<Line> {
    if exists i :: 0 <= i < |ls| && Anchors(Plain(ls[i])) then ls
    else seq(|ls|, i requires 0 <= i < |ls| => ChopLine(ls[i]))
  }

  /** Removing leading spaces means the same before and after splicing. */
  lemma ChopCommutes(ls: seq<Line>)
    ensures Chopped(Texts(ls, Written)) == Texts(ChopAll(ls), Written)
    ensures Chopped(Texts(ls, Plain)) == Texts(ChopAll(ls), Plain)
  {
    hide Anchors, Chop, Spliced;
    var w, p := Texts(ls, Written), Texts(ls, Plain);
    forall i | 0 <= i < |ls|
      ensures Anchors(w[i]) == Anchors(Plain(ls[i])) && Chop(w[i]) == Written(ChopLine(ls[i]))
    {
      ChoppedLine(ls[i]);
    }
    forall i | 0 <= i < |ls| ensures p[i] == Plain(ls[i]) && Chop(p[i]) == Plain(ChopLine(ls[i])) {
    }
    if exists i :: 0 <= i < |ls| && Anchors(Plain(ls[i])) {
      var i :| 0 <= i < |ls| && Anchors(Plain(ls[i]));
      assert Anchors(w[i]) && Anchors(p[i]);
    } else {
      assert forall i | 0 <= i < |p| :: !Anchors(p[i]) && !Anchors(w[i]);
    }
  }

  lemma ChoppedComesBack(l: Line)
    ensures ComesBack(ChopLine(l)) <==> ComesBack(l)
  {
    if l.Directive? && StartsWith(l.text, 0, " ") {
      assert l.text[0] == l.text[0..1][0] == ' ';
      SpliceAfter(l.text);
    }
  }

  lemma {:induction false} AllComeBack(ls: seq<Line>)
    ensures (forall l | l in ChopAll(ls) :: ComesBack(l)) <==> (forall l | l in ls :: ComesBack(l))
  {
    hide ComesBack, ChopLine, Anchors;
    var chopped := ChopAll(ls);
    forall i | 0 <= i < |ls|
      ensures ls[i] in ls && chopped[i] in chopped && (ComesBack(chopped[i]) <==> ComesBack(ls[i]))
    {
      ChoppedComesBack(ls[i]);
    }
  }

  /** A first character that is no backtick belongs to no splice. */
  lemma {:induction false} SpliceAfter(text: string)
    requires text != "" && text[0] != '`'
    ensures HasSplice(text) <==> HasSplice(text[1..])
  {
    IndexOfIs(text, 0, SPLICE);
    IndexOfIs(text[1..], 0, SPLICE);
    hide IndexOf;
    forall k: nat ensures StartsWith(text[1..], k, SPLICE) <==> StartsWith(text, k + 1, SPLICE) {
      assert k + |SPLICE| <= |text[1..]| ==> text[1..][k..k + |SPLICE|] == text[k + 1..k + 1 + |SPLICE|];
    }
    assert |SPLICE| <= |text| ==> text[0..|SPLICE|][0] != '`';
    if HasSplice(text) {
      var k := IndexOf(text, 0, SPLICE).value;
      assert k > 0 && StartsWith(text[1..], k - 1, SPLICE);
    }
    if HasSplice(text[1..]) {
      assert StartsWith(text, IndexOf(text[1..], 0, SPLICE).value + 1, SPLICE);
    }
  }

  /** The raw string made from a test's input holds the kept lines as they stood in the test, backticks and all,
    * exactly if no directive among them contains the splice.
    */
  lemma {:induction false} TestInputComesBack(content: string)
    ensures var value := TestInput(content);
            Unspliced(value[1..|value| - 1]) == JoinLines(Chopped(Texts(Kept(Lines(content)), Plain)))
            <==> forall l | l in Kept(Lines(content)) :: ComesBack(l)
  {
    hide ComesBack, Lines, Kept, Unspliced, Chopped, ChopAll, Texts, JoinLines;
    var ls := Kept(Lines(content));
    ChopCommutes(ls);
    AllComeBack(ls);
    UnspliceLines(ChopAll(ls));
    var inner := JoinLines(Chopped(Texts(ls, Written)));
    var value := TestInput(content);
    assert value == "`" + inner + "`" && value[1..|value| - 1] == inner;
  }

  lemma {:induction false} OneLine(s: string)
    requires '\n' !in s
    ensures SplitLines(s) == [s]
    decreases |s|
  {
    if s != "" {
      OneLine(s[1..]);
      assert [s[0]] + s[1..] == s;
    }
  }

  lemma SpliceAtEnd(text: string)
    ensures HasSplice(text + SPLICE)
  {
    var s := text + SPLICE;
    IndexOfIs(s, 0, SPLICE);
    assert s[|text|..|text| + |SPLICE|] == SPLICE;
    assert StartsWith(s, |text|, SPLICE);
  }

  /** For instance a test whose only line is a directive with the splice in it does not come back. */
  lemma {:induction false} SplicedDirectiveIsLost(name: string)
    requires '\n' !in name
    ensures var content := "// @" + name + SPLICE;
            var value := TestInput(content);
            Unspliced(value[1..|value| - 1]) != JoinLines(Chopped(Texts(Kept(Lines(content)), Plain)))
  {
    var content := "// @" + name + SPLICE;
    OneLine(content);
    assert content[|content| - 1] == '`';
    assert Lines(content) == [content];
    assert content[0..4] == "// @" && "// @"[2] != "////"[2];
    assert Classify(content) == Some(Directive(content));
    assert Kept([content]) == Kept([]) + [Directive(content)];
    SpliceAtEnd("// @" + name);
    hide StartsWith, IndexOf;
    assert Directive(content) in Kept(Lines(content)) && !ComesBack(Directive(content));
    TestInputComesBack(content);
  }
}
