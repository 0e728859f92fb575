/** Scanning program text past quoted stretches: splitting at delimiters outside brackets, and matching braces. */
module TopLevelText {
  import opened Hexadecimals
  import opened Options

  // ---- what is skipped ----

  predicate StartsRaw(t: string, i: nat) {
    i + 2 < |t| && t[i] == 'r' && t[i + 1] == '#' && t[i + 2] == '"'
  }

  predicate IsQuote(c: char) {
    c == '"' || c == '`'
  }

  /** The first closing quote at or after `i`; after a double quote a backslash hides the next character. */
  function QuoteEnd(t: string, i: nat, quote: char): Option<nat>
    decreases |t| - i
  {
    if i >= |t| then None
    else if quote == '"' && t[i] == '\\' then QuoteEnd(t, i + 2, quote)
    else if t[i] == quote then Some(i)
    else QuoteEnd(t, i + 1, quote)
  }

  /** The first quote followed by a hash at or after `i`. */
  function RawEnd(t: string, i: nat): Option<nat>
    decreases |t| - i
  {
    if i + 1 >= |t| then None
    else if t[i] == '"' && t[i + 1] == '#' then Some(i)
    else RawEnd(t, i + 1)
  }

  lemma {:induction false} QuoteEndIs(t: string, i: nat, quote: char)
    ensures QuoteEnd(t, i, quote).Some? ==>
              var e := QuoteEnd(t, i, quote).value; i <= e < |t| && t[e] == quote
    decreases |t| - i
  {
    if i < |t| {
      QuoteEndIs(t, i + 1, quote);
      if i + 1 < |t| {
        QuoteEndIs(t, i + 2, quote);
      }
    }
  }

  lemma {:induction false} RawEndIs(t: string, i: nat)
    ensures RawEnd(t, i).Some? ==> i <= RawEnd(t, i).value < |t| - 1
    decreases |t| - i
  {
    if i + 1 < |t| {
      RawEndIs(t, i + 1);
    }
  }

  /** The last character of the quoted stretch that starts at `start`, or of the text if it is not closed. */
  method SkipQuoted(t: string, start: nat, quote: char) returns (r: nat)
    requires start < |t|
    ensures start <= r < |t|
    ensures r == match QuoteEnd(t, start + 1, quote) case Some(e) => e case None => |t| - 1
  {
    var i := start + 1;
    QuoteEndIs(t, i, quote);
    while i < |t|
      invariant start + 1 <= i
      invariant QuoteEnd(t, start + 1, quote) == QuoteEnd(t, i, quote)
    {
      if quote == '"' && t[i] == '\\' {
        i := i + 2;
        continue;
      }
      if t[i] == quote {
        return i;
      }
      i := i + 1;
    }
    r := |t| - 1;
  }

  method SkipRustRawString(t: string, start: nat) returns (r: nat)
    requires StartsRaw(t, start)
    ensures start < r < |t|
    ensures r == match RawEnd(t, start + 3) case Some(e) => e + 1 case None => |t| - 1
  {
    RawEndIs(t, start + 3);
    var i := start + 3;
    while i + 1 < |t|
      invariant start + 3 <= i
      invariant RawEnd(t, start + 3) == RawEnd(t, i)
    {
      if t[i] == '"' && t[i + 1] == '#' {
        return i + 1;
      }
      i := i + 1;
    }
    r := |t| - 1;
  }

  /** Where a scan goes on after the stretch that starts at `i`; None at an ordinary character. */
  function Skip(t: string, i: nat): (r: Option<nat>)
    requires i < |t|
    ensures r.Some? ==> i < r.value <= |t|
  {
    RawEndIs(t, i + 3);
    QuoteEndIs(t, i + 1, t[i]);
    if StartsRaw(t, i) then
      match RawEnd(t, i + 3) case Some(e) => Some(e + 2) case None => Some(|t|)
    else if IsQuote(t[i]) then
      match QuoteEnd(t, i + 1, t[i]) case Some(e) => Some(e + 1) case None => Some(|t|)
    else None
  }

  /** The stretch that starts at `i` is closed. */
  predicate SkipCloses(t: string, i: nat)
    requires i < |t|
  {
    if StartsRaw(t, i) then RawEnd(t, i + 3).Some? else IsQuote(t[i]) ==> QuoteEnd(t, i + 1, t[i]).Some?
  }

  method SkipAt(t: string, i: nat) returns (skipped: bool, last: nat)
    requires i < |t|
    ensures skipped <==> Skip(t, i).Some?
    ensures skipped ==> Skip(t, i) == Some(last + 1)
  {
    if StartsRaw(t, i) {
      last := SkipRustRawString(t, i);
      return true, last;
    }
    if t[i] == '"' || t[i] == '`' {
      last := SkipQuoted(t, i, t[i]);
      return true, last;
    }
    return false, i;
  }

  // ---- escaped literals ----

  function EscapeChar(c: char): string {
    if c == '"' then "\\\""
    else if c == '\\' then "\\\\"
    else if c == '\n' then "\\n"
    else if c == '\r' then "\\r"
    else if c == '\t' then "\\t"
    else if c as int < 0x20 then "\\u00" + [HexDigit(c as int / 16), HexDigit(c as int % 16)]
    else [c]
  }

  function EscapeAll(s: string): string {
    if s == "" then "" else EscapeChar(s[0]) + EscapeAll(s[1..])
  }

  /** A JSON string literal (section 7 of RFC 8259). */
  function JsonLiteral(s: string): string {
    "\"" + EscapeAll(s) + "\""
  }

  lemma HexPlain(d: nat)
    requires d < 16
    ensures HexDigit(d) != '"' && HexDigit(d) != '\\'
  {
  }

  lemma SliceSplit(t: string, i: nat, e: string, rest: string)
    requires i + |e + rest| <= |t| && t[i..i + |e + rest|] == e + rest
    ensures t[i..i + |e|] == e && t[i + |e|..i + |e| + |rest|] == rest
  {
    assert t[i..i + |e|] == t[i..i + |e + rest|][..|e|];
    assert t[i + |e|..i + |e| + |rest|] == t[i..i + |e + rest|][|e|..];
  }

  /** Passing one escaped character. */
  lemma {:induction false} PassEscaped(t: string, i: nat, c: char)
    requires i + |EscapeChar(c)| <= |t| && t[i..i + |EscapeChar(c)|] == EscapeChar(c)
    ensures QuoteEnd(t, i, '"') == QuoteEnd(t, i + |EscapeChar(c)|, '"')
  {
    var e := EscapeChar(c);
    assert forall k | 0 <= k < |e| :: t[i + k] == e[k];
    if |e| == 6 {
      HexPlain(c as int / 16);
      HexPlain(c as int % 16);
      assert t[i + 2] == '0' && t[i + 3] == '0' && t[i + 4] == e[4] && t[i + 5] == e[5];
      PassPlain(t, i + 2, 4);
    }
  }

  lemma {:induction false} PassPlain(t: string, i: nat, n: nat)
    requires i + n <= |t| && forall k | i <= k < i + n :: t[k] != '"' && t[k] != '\\'
    ensures QuoteEnd(t, i, '"') == QuoteEnd(t, i + n, '"')
    decreases n
  {
    if n > 0 {
      PassPlain(t, i + 1, n - 1);
    }
  }

  lemma {:induction false} EscapedEnds(t: string, i: nat, s: string)
    requires i + |EscapeAll(s)| < |t| && t[i..i + |EscapeAll(s)|] == EscapeAll(s) && t[i + |EscapeAll(s)|] == '"'
    ensures QuoteEnd(t, i, '"') == Some(i + |EscapeAll(s)|)
    decreases |s|
  {
    hide EscapeChar;
    if s != "" {
      var e := EscapeChar(s[0]);
      var rest := EscapeAll(s[1..]);
      assert EscapeAll(s) == e + rest;
      SliceSplit(t, i, e, rest);
      PassEscaped(t, i, s[0]);
      EscapedEnds(t, i + |e|, s[1..]);
    }
  }

  /** Skipping an escaped literal stops at its closing quote, whatever is in the literal and around it. */
  lemma LiteralEnds(before: string, s: string, after: string)
    ensures var t := before + JsonLiteral(s) + after;
            QuoteEnd(t, |before| + 1, '"') == Some(|before| + |JsonLiteral(s)| - 1)
  {
    hide EscapeAll, QuoteEnd;
    var t := before + JsonLiteral(s) + after;
    var a, e, z := before + "\"", EscapeAll(s), "\"" + after;
    assert t == a + e + z;
    Middle(a, e, z);
    EscapedEnds(t, |a|, s);
  }

  lemma Middle(a: string, e: string, z: string)
    ensures (a + e + z)[|a|..|a| + |e|] == e
    ensures z != "" ==> (a + e + z)[|a| + |e|] == z[0]
  {
  }

  // ---- splitting ----

  datatype Depths = Depths(brace: int, paren: int, bracket: int)

  const TOP := Depths(0, 0, 0)

  function Moved(d: Depths, c: char): Depths {
    if c == '{' then d.(brace := d.brace + 1)
    else if c == '}' then d.(brace := d.brace - 1)
    else if c == '(' then d.(paren := d.paren + 1)
    else if c == ')' then d.(paren := d.paren - 1)
    else if c == '[' then d.(bracket := d.bracket + 1)
    else if c == ']' then d.(bracket := d.bracket - 1)
    else d
  }

  predicate IsBracket(c: char) {
    c == '{' || c == '}' || c == '(' || c == ')' || c == '[' || c == ']'
  }

  /** The positions of the delimiters at the top level, from `i` on. */
  function Cuts(t: string, i: nat, d: Depths, delimiter: char): seq<nat>
    requires i <= |t|
    decreases |t| - i
  {
    if i == |t| then []
    else if Skip(t, i).Some? then Cuts(t, Skip(t, i).value, d, delimiter)
    else if IsBracket(t[i]) then Cuts(t, i + 1, Moved(d, t[i]), delimiter)
    else if t[i] == delimiter && d == TOP then [i] + Cuts(t, i + 1, d, delimiter)
    else Cuts(t, i + 1, d, delimiter)
  }

  lemma {:induction false} CutsInside(t: string, i: nat, d: Depths, delimiter: char)
    requires i <= |t|
    ensures forall k | 0 <= k < |Cuts(t, i, d, delimiter)| ::
              i <= Cuts(t, i, d, delimiter)[k] < |t| && t[Cuts(t, i, d, delimiter)[k]] == delimiter
    ensures forall k | 0 <= k < |Cuts(t, i, d, delimiter)| - 1 ::
              Cuts(t, i, d, delimiter)[k] < Cuts(t, i, d, delimiter)[k + 1]
    decreases |t| - i
  {
    if i < |t| {
      if Skip(t, i).Some? {
        CutsInside(t, Skip(t, i).value, d, delimiter);
      } else {
        CutsInside(t, i + 1, Moved(d, t[i]), delimiter);
        CutsInside(t, i + 1, d, delimiter);
      }
    }
  }

  /** The pieces of a text between cuts. */
  function Pieces(t: string, start: nat, cuts: seq<nat>): seq<string>
    requires start <= |t| && (forall k | 0 <= k < |cuts| :: start <= cuts[k] < |t|)
    requires forall k | 0 <= k < |cuts| - 1 :: cuts[k] < cuts[k + 1]
    decreases |cuts|
  {
    if cuts == [] then [t[start..]]
    else
      Increasing(cuts);
      [t[start..cuts[0]]] + Pieces(t, cuts[0] + 1, cuts[1..])
  }

  lemma {:induction false} Increasing(cuts: seq<nat>)
    requires forall k | 0 <= k < |cuts| - 1 :: cuts[k] < cuts[k + 1]
    ensures forall k | 1 <= k < |cuts| :: cuts[0] + 1 <= cuts[k]
    decreases |cuts|
  {
    if |cuts| > 1 {
      Increasing(cuts[1..]);
      forall k | 1 <= k < |cuts| ensures cuts[0] + 1 <= cuts[k] {
        assert cuts[k] == cuts[1..][k - 1];
      }
    }
  }

  function SplitAt(t: string, delimiter: char): seq<string> {
    CutsInside(t, 0, TOP, delimiter);
    Pieces(t, 0, Cuts(t, 0, TOP, delimiter))
  }

  function Joined(parts: seq<string>, delimiter: char): string {
    if parts == [] then ""
    else if |parts| == 1 then parts[0]
    else parts[0] + [delimiter] + Joined(parts[1..], delimiter)
  }

  lemma JoinedOne(p: string, delimiter: char)
    ensures Joined([p], delimiter) == p
  {
  }

  lemma JoinedCons(p: string, rest: seq<string>, delimiter: char)
    requires rest != []
    ensures Joined([p] + rest, delimiter) == p + [delimiter] + Joined(rest, delimiter)
  {
    assert ([p] + rest)[1..] == rest;
  }

  /** Joining the pieces gives the text back. */
  lemma {:induction false} PiecesJoined(t: string, start: nat, cuts: seq<nat>, delimiter: char)
    requires start <= |t| && (forall k | 0 <= k < |cuts| :: start <= cuts[k] < |t| && t[cuts[k]] == delimiter)
    requires forall k | 0 <= k < |cuts| - 1 :: cuts[k] < cuts[k + 1]
    ensures Pieces(t, start, cuts) != [] && Joined(Pieces(t, start, cuts), delimiter) == t[start..]
    decreases |cuts|
  {
    hide Joined;
    assert Joined([t[start..]], delimiter) == t[start..] by {
      JoinedOne(t[start..], delimiter);
    }
    if cuts != [] {
      Increasing(cuts);
      PiecesJoined(t, cuts[0] + 1, cuts[1..], delimiter);
      JoinedCons(t[start..cuts[0]], Pieces(t, cuts[0] + 1, cuts[1..]), delimiter);
      assert t[start..] == t[start..cuts[0]] + [t[cuts[0]]] + t[cuts[0] + 1..];
    }
  }

  /** Splitting loses nothing, for any text and delimiter. */
  lemma SplitConserves(t: string, delimiter: char)
    ensures SplitAt(t, delimiter) != [] && Joined(SplitAt(t, delimiter), delimiter) == t
  {
    CutsInside(t, 0, TOP, delimiter);
    PiecesJoined(t, 0, Cuts(t, 0, TOP, delimiter), delimiter);
    assert t[0..] == t;
  }

  function PiecesFrom(t: string, start: nat, i: nat, d: Depths, delimiter: char): seq<string>
    requires start <= i <= |t|
  {
    CutsInside(t, i, d, delimiter);
    Pieces(t, start, Cuts(t, i, d, delimiter))
  }

  method SplitTopLevel(t: string, delimiter: char) returns (parts: seq<string>)
    ensures parts == SplitAt(t, delimiter)
  {
    parts := [];
    var start, i, d := 0, 0, TOP;
    while i < |t|
      invariant start <= i <= |t|
      invariant SplitAt(t, delimiter) == parts + PiecesFrom(t, start, i, d, delimiter)
    {
      var skipped, last := SkipAt(t, i);
      if skipped {
        i := last;
      } else if IsBracket(t[i]) {
        d := Moved(d, t[i]);
      } else if t[i] == delimiter && d == TOP {
        PiecesStep(t, start, i, delimiter);
        parts := parts + [t[start..i]];
        start := i + 1;
      }
      i := i + 1;
    }
    assert PiecesFrom(t, start, i, d, delimiter) == [t[start..]];
    parts := parts + [t[start..]];
  }

  lemma PiecesStep(t: string, start: nat, i: nat, delimiter: char)
    requires start <= i < |t| && Skip(t, i).None? && !IsBracket(t[i]) && t[i] == delimiter
    ensures PiecesFrom(t, start, i, TOP, delimiter) == [t[start..i]] + PiecesFrom(t, i + 1, i + 1, TOP, delimiter)
  {
    CutsInside(t, i + 1, TOP, delimiter);
    var rest := Cuts(t, i + 1, TOP, delimiter);
    assert ([i] + rest)[1..] == rest;
  }

  // ---- closed items ----

  /** Quotes closed, brackets balanced and no delimiter at the top level, from `i` to the end. */
  predicate Closed(x: string, i: nat, d: Depths, delimiter: char)
    requires i <= |x|
    decreases |x| - i
  {
    if i == |x| then d == TOP
    else if !SkipCloses(x, i) then false
    else if Skip(x, i).Some? then Closed(x, Skip(x, i).value, d, delimiter)
    else if IsBracket(x[i]) then Closed(x, i + 1, Moved(d, x[i]), delimiter)
    else !(x[i] == delimiter && d == TOP) && Closed(x, i + 1, d, delimiter)
  }

  /** A character that neither begins nor ends nor changes anything for a scan. */
  predicate Plain(c: char) {
    !IsQuote(c) && c != 'r' && c != '#'
  }

  lemma {:induction false} QuoteEndLocal(x: string, y: string, i: nat, quote: char)
    requires QuoteEnd(x, i, quote).Some?
    ensures QuoteEnd(x + y, i, quote) == QuoteEnd(x, i, quote)
    decreases |x| - i
  {
    assert (x + y)[i] == x[i];
    if quote == '"' && x[i] == '\\' {
      QuoteEndLocal(x, y, i + 2, quote);
    } else if x[i] != quote {
      QuoteEndLocal(x, y, i + 1, quote);
    }
  }

  lemma {:induction false} RawEndLocal(x: string, y: string, i: nat)
    requires RawEnd(x, i).Some?
    ensures RawEnd(x + y, i) == RawEnd(x, i)
    decreases |x| - i
  {
    assert (x + y)[i] == x[i] && (x + y)[i + 1] == x[i + 1];
    if !(x[i] == '"' && x[i + 1] == '#') {
      RawEndLocal(x, y, i + 1);
    }
  }

  /** A closed stretch is the same stretch whatever plain character follows the text. */
  lemma SkipLocal(x: string, y: string, i: nat)
    requires i < |x| && SkipCloses(x, i) && (y == "" || Plain(y[0]))
    ensures Skip(x + y, i) == Skip(x, i) && SkipCloses(x + y, i)
  {
    var t := x + y;
    assert forall k | 0 <= k < |x| :: t[k] == x[k];
    assert StartsRaw(t, i) == StartsRaw(x, i) by {
      if i + 2 >= |x| && y != "" {
        assert t[|x|] == y[0];
      }
    }
    if StartsRaw(x, i) {
      RawEndLocal(x, y, i + 3);
    } else if IsQuote(x[i]) {
      QuoteEndLocal(x, y, i + 1, x[i]);
    }
  }

  /** Scanning over a closed item finds no cut and comes out at the top level. */
  lemma {:induction false} ClosedNoCuts(x: string, y: string, i: nat, d: Depths, delimiter: char)
    requires i <= |x| && Closed(x, i, d, delimiter) && (y == "" || Plain(y[0]))
    ensures Cuts(x + y, i, d, delimiter) == Cuts(x + y, |x|, TOP, delimiter)
    decreases |x| - i
  {
    if i < |x| {
      SkipLocal(x, y, i);
      assert (x + y)[i] == x[i];
      if Skip(x, i).Some? {
        ClosedNoCuts(x, y, Skip(x, i).value, d, delimiter);
      } else if IsBracket(x[i]) {
        ClosedNoCuts(x, y, i + 1, Moved(d, x[i]), delimiter);
      } else {
        ClosedNoCuts(x, y, i + 1, d, delimiter);
      }
    }
  }

  // ---- a scan does not look back ----

  lemma {:induction false} QuoteEndShift(a: string, b: string, i: nat, quote: char)
    ensures QuoteEnd(a + b, |a| + i, quote) ==
              match QuoteEnd(b, i, quote) case Some(e) => Some(|a| + e) case None => None
    decreases |b| - i
  {
    if i < |b| {
      assert (a + b)[|a| + i] == b[i];
      QuoteEndShift(a, b, i + 1, quote);
      if quote == '"' && b[i] == '\\' {
        QuoteEndShift(a, b, i + 2, quote);
      }
    }
  }

  lemma {:induction false} RawEndShift(a: string, b: string, i: nat)
    ensures RawEnd(a + b, |a| + i) == match RawEnd(b, i) case Some(e) => Some(|a| + e) case None => None
    decreases |b| - i
  {
    if i + 1 < |b| {
      assert (a + b)[|a| + i] == b[i] && (a + b)[|a| + i + 1] == b[i + 1];
      RawEndShift(a, b, i + 1);
    }
  }

  lemma SkipShift(a: string, b: string, i: nat)
    requires i < |b|
    ensures Skip(a + b, |a| + i) == match Skip(b, i) case Some(e) => Some(|a| + e) case None => None
    ensures SkipCloses(a + b, |a| + i) == SkipCloses(b, i)
  {
    var t := a + b;
    assert forall k | 0 <= k < |b| :: t[|a| + k] == b[k];
    assert StartsRaw(t, |a| + i) == StartsRaw(b, i);
    RawEndShift(a, b, i + 3);
    QuoteEndShift(a, b, i + 1, b[i]);
  }

  function Shifted(cuts: seq<nat>, n: nat): seq<nat> {
    seq(|cuts|, i requires 0 <= i < |cuts| => n + cuts[i])
  }

  lemma ShiftedCons(i: nat, rest: seq<nat>, n: nat)
    ensures Shifted([i] + rest, n) == [n + i] + Shifted(rest, n)
  {
  }

  lemma {:induction false} CutsShift(a: string, b: string, i: nat, d: Depths, delimiter: char)
    requires i <= |b|
    ensures Cuts(a + b, |a| + i, d, delimiter) == Shifted(Cuts(b, i, d, delimiter), |a|)
    decreases |b| - i
  {
    hide Skip;
    ShiftedCons(i, Cuts(b, if i < |b| then i + 1 else i, d, delimiter), |a|);
    if i < |b| {
      SkipShift(a, b, i);
      assert (a + b)[|a| + i] == b[i];
      if Skip(b, i).Some? {
        CutsShift(a, b, Skip(b, i).value, d, delimiter);
      } else if IsBracket(b[i]) {
        CutsShift(a, b, i + 1, Moved(d, b[i]), delimiter);
      } else {
        CutsShift(a, b, i + 1, d, delimiter);
      }
    }
  }

  lemma {:induction false} PiecesShift(a: string, b: string, start: nat, cuts: seq<nat>)
    requires start <= |b| && (forall k | 0 <= k < |cuts| :: start <= cuts[k] < |b|)
    requires forall k | 0 <= k < |cuts| - 1 :: cuts[k] < cuts[k + 1]
    ensures forall k | 0 <= k < |cuts| :: |a| + start <= Shifted(cuts, |a|)[k] < |a + b|
    ensures forall k | 0 <= k < |cuts| - 1 :: Shifted(cuts, |a|)[k] < Shifted(cuts, |a|)[k + 1]
    ensures Pieces(a + b, |a| + start, Shifted(cuts, |a|)) == Pieces(b, start, cuts)
    decreases |cuts|
  {
    if cuts == [] {
      assert (a + b)[|a| + start..] == b[start..];
    } else {
      Increasing(cuts);
      PiecesShift(a, b, cuts[0] + 1, cuts[1..]);
      assert Shifted(cuts, |a|)[1..] == Shifted(cuts[1..], |a|);
      assert (a + b)[|a| + start..|a| + cuts[0]] == b[start..cuts[0]];
    }
  }

  /** Splitting inverts joining for closed items. */
  lemma {:induction false} SplitInvertsJoin(items: seq<string>, delimiter: char)
    requires items != [] && Plain(delimiter) && !IsBracket(delimiter)
    requires forall x | x in items :: Closed(x, 0, TOP, delimiter)
    ensures SplitAt(Joined(items, delimiter), delimiter) == items
    decreases |items|
  {
    var x := items[0];
    var t := Joined(items, delimiter);
    assert x in items;
    if |items| == 1 {
      assert x + "" == x;
      ClosedNoCuts(x, "", 0, TOP, delimiter);
      assert t[0..] == x && items == [x];
    } else {
      var more := Joined(items[1..], delimiter);
      assert forall y | y in items[1..] :: y in items;
      SplitInvertsJoin(items[1..], delimiter);
      OneMore(x, more, delimiter);
      assert items == [x] + items[1..];
    }
  }

  lemma OneMore(x: string, more: string, delimiter: char)
    requires Plain(delimiter) && !IsBracket(delimiter) && Closed(x, 0, TOP, delimiter)
    ensures SplitAt(x + [delimiter] + more, delimiter) == [x] + SplitAt(more, delimiter)
  {
    hide Closed, Joined;
    var t := x + [delimiter] + more;
    var y := [delimiter] + more;
    assert t == x + y;
    ClosedNoCuts(x, y, 0, TOP, delimiter);
    assert t[|x|] == delimiter && Skip(t, |x|).None?;
    CutsShift(x + [delimiter], more, 0, TOP, delimiter);
    var rest := Cuts(more, 0, TOP, delimiter);
    CutsInside(more, 0, TOP, delimiter);
    PiecesShift(x + [delimiter], more, 0, rest);
    CutsInside(t, 0, TOP, delimiter);
    var cuts := [|x|] + Shifted(rest, |x| + 1);
    assert Cuts(t, 0, TOP, delimiter) == cuts;
    assert cuts[1..] == Shifted(rest, |x| + 1) && t[0..|x|] == x;
  }

  // ---- matching braces ----

  /** Between `i` and `end` every opening brace outside quoted stretches is closed, starting with `depth` open ones. */
  predicate Balanced(t: string, i: nat, end: nat, depth: nat)
    requires end <= |t|
    decreases |t| - i
  {
    if i >= end then i == end && depth == 0
    else if Skip(t, i).Some? then Balanced(t, Skip(t, i).value, end, depth)
    else if t[i] == '{' then Balanced(t, i + 1, end, depth + 1)
    else if t[i] == '}' then depth > 0 && Balanced(t, i + 1, end, depth - 1)
    else Balanced(t, i + 1, end, depth)
  }

  /** Where the brace that brings `depth` back to zero stands. */
  function MatchFrom(t: string, i: nat, depth: int): Option<nat>
    requires i <= |t|
    decreases |t| - i
  {
    if i == |t| then None
    else if Skip(t, i).Some? then MatchFrom(t, Skip(t, i).value, depth)
    else if t[i] == '{' then MatchFrom(t, i + 1, depth + 1)
    else if t[i] != '}' then MatchFrom(t, i + 1, depth)
    else if depth == 1 then Some(i)
    else MatchFrom(t, i + 1, depth - 1)
  }

  method FindMatchingBrace(t: string, openBrace: nat) returns (r: int)
    requires openBrace <= |t|
    ensures r == match MatchFrom(t, openBrace, 0) case Some(k) => k case None => -1
  {
    var depth := 0;
    var i := openBrace;
    while i < |t|
      invariant openBrace <= i <= |t|
      invariant MatchFrom(t, openBrace, 0) == MatchFrom(t, i, depth)
    {
      var skipped, last := SkipAt(t, i);
      if skipped {
        i := last;
      } else if t[i] == '{' {
        depth := depth + 1;
      } else if t[i] == '}' {
        depth := depth - 1;
        if depth == 0 {
          return i;
        }
      }
      i := i + 1;
    }
    r := -1;
  }

  lemma {:induction false} MatchIsBalance(t: string, i: nat, depth: nat, r: nat)
    requires i <= |t|
    ensures MatchFrom(t, i, depth + 1) == Some(r) <==>
              i <= r < |t| && Balanced(t, i, r, depth) && t[r] == '}' && Skip(t, r).None?
    decreases |t| - i
  {
    if i < |t| {
      if Skip(t, i).Some? {
        MatchIsBalance(t, Skip(t, i).value, depth, r);
      } else if t[i] == '{' {
        MatchIsBalance(t, i + 1, depth + 1, r);
      } else if t[i] == '}' && depth > 0 {
        MatchIsBalance(t, i + 1, depth - 1, r);
      } else if t[i] != '}' {
        MatchIsBalance(t, i + 1, depth, r);
      }
    }
  }

  /** From an opening brace the search finds exactly the brace with a balanced text in between. */
  lemma MatchingBraceIs(t: string, openBrace: nat, r: nat)
    requires openBrace < |t| && t[openBrace] == '{'
    ensures MatchFrom(t, openBrace, 0) == Some(r) <==>
              openBrace < r < |t| && t[r] == '}' && Balanced(t, openBrace + 1, r, 0)
  {
    MatchIsBalance(t, openBrace + 1, 0, r);
  }
}
