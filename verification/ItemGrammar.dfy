/** Program text as a grammar: characters, quoted stretches and bracketed groups. What splitting and brace matching do
  * to such text is said in terms of the grammar alone.
  */
module ItemGrammar {
  import opened Options
  import opened RawStrings
  import opened ScannedLiterals
  import opened TopLevelText

  datatype Bracket = Brace | Paren | Square

  datatype Token =
    | Character(c: char)
    | DoubleQuoted(body: string)
    | BackQuoted(body: string)
    | RawQuoted(body: string)
    | Group(bracket: Bracket, inside: seq<Token>)

  function Opening(b: Bracket): char {
    match b
    case Brace => '{'
    case Paren => '('
    case Square => '['
  }

  function Closing(b: Bracket): char {
    match b
    case Brace => '}'
    case Paren => ')'
    case Square => ']'
  }

  function TokenText(k: Token): string
    decreases k, 0
  {
    match k
    case Character(c) => [c]
    case DoubleQuoted(body) => "\"" + body + "\""
    case BackQuoted(body) => "`" + body + "`"
    case RawQuoted(body) => "r#\"" + body + "\"#"
    case Group(b, inside) => [Opening(b)] + Text(inside) + [Closing(b)]
  }

  function Text(ks: seq<Token>): string
    decreases ks
  {
    if ks == [] then "" else TokenText(ks[0]) + Text(ks[1..])
  }

  /** A character that stands for itself: no quote, no bracket, no hash. */
  predicate StandsAlone(c: char) {
    c !in "\"`#{}()[]"
  }

  /** What a quoted stretch holds must not end it; a group holds anything. */
  predicate Proper(k: Token) {
    match k
    case Character(c) => StandsAlone(c)
    case DoubleQuoted(body) => QuotesHidden(body)
    case BackQuoted(body) => '`' !in body
    case RawQuoted(body) => forall i | 0 <= i < |body| - 1 :: !(body[i] == '"' && body[i + 1] == '#')
    case Group(_, inside) => forall x | x in inside :: Proper(x)
  }

  /** An item: the delimiter may occur inside quotes and groups only. */
  predicate Item(ks: seq<Token>, delimiter: char) {
    forall k | k in ks :: Proper(k) && k != Character(delimiter)
  }

  function JoinedTexts(items: seq<seq<Token>>, delimiter: char): string {
    if items == [] then ""
    else if |items| == 1 then Text(items[0])
    else Text(items[0]) + [delimiter] + JoinedTexts(items[1..], delimiter)
  }

  // ---- scanning over a token ----

  /** Nothing that follows can be mistaken for the rest of a raw string's beginning. */
  predicate NoHash(rest: string) {
    rest == "" || rest[0] != '#'
  }

  lemma TokenStarts(k: Token, rest: string)
    requires Proper(k)
    ensures TokenText(k) != "" && NoHash(TokenText(k) + rest)
  {
  }

  lemma {:induction false} TextStarts(ks: seq<Token>, rest: string)
    requires (forall k | k in ks :: Proper(k)) && NoHash(rest)
    ensures NoHash(Text(ks) + rest)
  {
    if ks == [] {
      assert Text(ks) + rest == rest;
    } else {
      TokenStarts(ks[0], Text(ks[1..]) + rest);
      assert Text(ks) + rest == TokenText(ks[0]) + (Text(ks[1..]) + rest);
    }
  }

  lemma {:induction false} BackQuoteEnds(t: string, i: nat, body: string)
    requires i + |body| < |t| && t[i..i + |body|] == body && t[i + |body|] == '`' && '`' !in body
    ensures QuoteEnd(t, i, '`') == Some(i + |body|)
    decreases |body|
  {
    if body != "" {
      assert t[i] == body[0] && body[0] in body;
      assert t[i + 1..i + 1 + |body[1..]|] == body[1..] && forall c | c in body[1..] :: c in body;
      BackQuoteEnds(t, i + 1, body[1..]);
    }
  }

  lemma {:induction false} RawQuoteEnds(t: string, i: nat, body: string)
    requires i + |body| + 1 < |t| && t[i..i + |body|] == body && t[i + |body|] == '"' && t[i + |body| + 1] == '#'
    requires forall j | 0 <= j < |body| - 1 :: !(body[j] == '"' && body[j + 1] == '#')
    ensures RawEnd(t, i) == Some(i + |body|)
    decreases |body|
  {
    if body != "" {
      assert t[i] == body[0] && (|body| > 1 ==> t[i + 1] == body[1]);
      assert t[i + 1..i + 1 + |body[1..]|] == body[1..];
      RawQuoteEnds(t, i + 1, body[1..]);
    }
  }

  /** A quoted token is one closed stretch, any other character is none. */
  lemma {:induction false} SkipToken(k: Token, rest: string)
    requires Proper(k) && !k.Group? && NoHash(rest)
    ensures var t := TokenText(k) + rest;
            && SkipCloses(t, 0)
            && Skip(t, 0) == if k.Character? then None else Some(|TokenText(k)|)
  {
    var t := TokenText(k) + rest;
    hide QuoteEnd, RawEnd, QuotesHidden;
    match k {
      case Character(c) =>
        assert t[0] == c && (rest != "" ==> t[1] == rest[0]);
      case DoubleQuoted(body) =>
        Inside("\"", body, "\"", rest);
        StretchEnds(t, 1, body);
      case BackQuoted(body) =>
        Inside("`", body, "`", rest);
        BackQuoteEnds(t, 1, body);
      case RawQuoted(body) =>
        Inside("r#\"", body, "\"#", rest);
        RawQuoteEnds(t, 3, body);
    }
  }

  lemma Inside(a: string, body: string, z: string, rest: string)
    ensures var t := a + body + z + rest;
            && |t| == |a| + |body| + |z| + |rest|
            && (forall i | 0 <= i < |a| :: t[i] == a[i])
            && t[|a|..|a| + |body|] == body
            && (forall i | 0 <= i < |z| :: t[|a| + |body| + i] == z[i])
  {
  }

  lemma SkipBracket(c: char, rest: string)
    requires c in "{}()[]"
    ensures Skip([c] + rest, 0).None? && SkipCloses([c] + rest, 0)
  {
  }

  predicate NonNegative(d: Depths) {
    d.brace >= 0 && d.paren >= 0 && d.bracket >= 0
  }

  function Deeper(d: Depths, b: Bracket): Depths {
    match b
    case Brace => d.(brace := d.brace + 1)
    case Paren => d.(paren := d.paren + 1)
    case Square => d.(bracket := d.bracket + 1)
  }

  lemma ConcatGroup(a: string, o: string, x: string, z: string, rest: string)
    ensures a + (o + x + z) + rest == a + o + (x + z + rest)
    ensures a + (o + x + z) + rest == (a + o) + x + (z + rest)
    ensures a + (o + x + z) + rest == (a + o + x) + z + rest
  {
  }

  lemma ConcatTokens(a: string, x: string, y: string, rest: string)
    ensures a + (x + y) + rest == a + x + (y + rest)
    ensures a + (x + y) + rest == (a + x) + y + rest
  {
  }

  lemma BracketPassed(before: string, c: char, rest: string, d: Depths, delimiter: char, depth: nat)
    requires c in "{}()[]"
    ensures var t := before + [c] + rest;
            && Closed(t, |before|, d, delimiter) == Closed(t, |before| + 1, Moved(d, c), delimiter)
            && (c != '{' && c != '}' ==> MatchFrom(t, |before|, depth) == MatchFrom(t, |before| + 1, depth))
            && (c == '{' ==> MatchFrom(t, |before|, depth) == MatchFrom(t, |before| + 1, depth + 1))
            && (c == '}' && depth != 1 ==> MatchFrom(t, |before|, depth) == MatchFrom(t, |before| + 1, depth - 1))
            && (c == '}' && depth == 1 ==> MatchFrom(t, |before|, depth) == Some(|before|))
  {
    var t := before + [c] + rest;
    assert t == before + ([c] + rest) && t[|before|] == c;
    SkipBracket(c, rest);
    SkipShift(before, [c] + rest, 0);
  }

  lemma SimplePassed(before: string, k: Token, rest: string, d: Depths, delimiter: char, depth: nat)
    requires Proper(k) && !k.Group? && NoHash(rest) && (d == TOP ==> k != Character(delimiter))
    ensures var t := before + TokenText(k) + rest;
            && Closed(t, |before|, d, delimiter) == Closed(t, |before| + |TokenText(k)|, d, delimiter)
            && MatchFrom(t, |before|, depth) == MatchFrom(t, |before| + |TokenText(k)|, depth)
  {
    var t := before + TokenText(k) + rest;
    var x := TokenText(k) + rest;
    assert t == before + x && t[|before|] == x[0];
    SkipToken(k, rest);
    SkipShift(before, x, 0);
  }

  lemma BackAgain(d: Depths, b: Bracket)
    requires NonNegative(d)
    ensures Moved(d, Opening(b)) == Deeper(d, b) && Moved(Deeper(d, b), Closing(b)) == d
    ensures NonNegative(Deeper(d, b)) && Deeper(d, b) != TOP
  {
  }

  /** A scan at the beginning of a token comes out behind it at the same depth, having seen nothing. */
  lemma {:induction false} ClosedToken(before: string, k: Token, rest: string, d: Depths, delimiter: char)
    requires Proper(k) && NoHash(rest) && NonNegative(d) && (d == TOP ==> k != Character(delimiter))
    ensures var t := before + TokenText(k) + rest;
            Closed(t, |before|, d, delimiter) == Closed(t, |before| + |TokenText(k)|, d, delimiter)
    decreases k, 0
  {
    hide Closed, MatchFrom, Moved, Deeper;
    match k {
      case Group(b, inside) =>
        var o, x, z := [Opening(b)], Text(inside), [Closing(b)];
        ConcatGroup(before, o, x, z, rest);
        BackAgain(d, b);
        BracketPassed(before, Opening(b), x + z + rest, d, delimiter, 2);
        ClosedTokens(before + o, inside, z + rest, Deeper(d, b), delimiter);
        BracketPassed(before + o + x, Closing(b), rest, Deeper(d, b), delimiter, 2);
      case _ => SimplePassed(before, k, rest, d, delimiter, 1);
    }
  }

  lemma {:induction false} ClosedTokens(before: string, ks: seq<Token>, rest: string, d: Depths, delimiter: char)
    requires (forall k | k in ks :: Proper(k)) && NoHash(rest) && NonNegative(d)
    requires d == TOP ==> forall k | k in ks :: k != Character(delimiter)
    ensures var t := before + Text(ks) + rest;
            Closed(t, |before|, d, delimiter) == Closed(t, |before| + |Text(ks)|, d, delimiter)
    decreases ks
  {
    hide Closed, Proper, TokenText, NoHash;
    if ks != [] {
      var k, more := ks[0], ks[1..];
      assert k in ks && forall x | x in more :: x in ks;
      TextStarts(more, rest);
      ConcatTokens(before, TokenText(k), Text(more), rest);
      ClosedToken(before, k, Text(more) + rest, d, delimiter);
      ClosedTokens(before + TokenText(k), more, rest, d, delimiter);
    }
  }

  lemma {:induction false} JoinedIsJoined(items: seq<seq<Token>>, texts: seq<string>, delimiter: char)
    requires |texts| == |items| && forall i | 0 <= i < |items| :: texts[i] == Text(items[i])
    ensures JoinedTexts(items, delimiter) == Joined(texts, delimiter)
  {
    if |items| > 1 {
      JoinedIsJoined(items[1..], texts[1..], delimiter);
    }
  }

  /** Items of the grammar that were joined with a delimiter are split into exactly these items. */
  lemma {:induction false} SplitsIntoItems(items: seq<seq<Token>>, delimiter: char, texts: seq<string>)
    requires items != [] && StandsAlone(delimiter) && delimiter != 'r'
    requires forall ks | ks in items :: Item(ks, delimiter)
    requires |texts| == |items| && forall i | 0 <= i < |items| :: texts[i] == Text(items[i])
    ensures SplitAt(JoinedTexts(items, delimiter), delimiter) == texts
  {
    forall x | x in texts ensures Closed(x, 0, TOP, delimiter) {
      var i :| 0 <= i < |texts| && texts[i] == x;
      assert items[i] in items;
      ClosedTokens("", items[i], "", TOP, delimiter);
      assert "" + x + "" == x;
    }
    JoinedIsJoined(items, texts, delimiter);
    SplitInvertsJoin(texts, delimiter);
  }

  // ---- matching braces ----

  lemma {:induction false} MatchToken(before: string, k: Token, rest: string, depth: nat)
    requires Proper(k) && NoHash(rest) && depth > 0
    ensures var t := before + TokenText(k) + rest;
            MatchFrom(t, |before|, depth) == MatchFrom(t, |before| + |TokenText(k)|, depth)
    decreases k, 0
  {
    hide Closed, MatchFrom, Moved;
    match k {
      case Group(b, inside) =>
        var o, x, z := [Opening(b)], Text(inside), [Closing(b)];
        var deeper := if b.Brace? then depth + 1 else depth;
        ConcatGroup(before, o, x, z, rest);
        BracketPassed(before, Opening(b), x + z + rest, TOP, ',', depth);
        MatchTokens(before + o, inside, z + rest, deeper);
        BracketPassed(before + o + x, Closing(b), rest, TOP, ',', deeper);
      case _ => SimplePassed(before, k, rest, Deeper(TOP, Brace), ',', depth);
    }
  }

  lemma {:induction false} MatchTokens(before: string, ks: seq<Token>, rest: string, depth: nat)
    requires (forall k | k in ks :: Proper(k)) && NoHash(rest) && depth > 0
    ensures var t := before + Text(ks) + rest;
            MatchFrom(t, |before|, depth) == MatchFrom(t, |before| + |Text(ks)|, depth)
    decreases ks
  {
    hide MatchFrom, Proper, TokenText, NoHash;
    if ks != [] {
      var k, more := ks[0], ks[1..];
      assert k in ks && forall x | x in more :: x in ks;
      TextStarts(more, rest);
      ConcatTokens(before, TokenText(k), Text(more), rest);
      MatchToken(before, k, Text(more) + rest, depth);
      MatchTokens(before + TokenText(k), more, rest, depth);
    }
  }

  /** From the opening brace of a group the search ends at its closing brace, whatever surrounds the group. */
  lemma {:induction false} GroupIsMatched(before: string, inside: seq<Token>, after: string)
    requires forall k | k in inside :: Proper(k)
    ensures MatchFrom(before + TokenText(Group(Brace, inside)) + after, |before|, 0)
            == Some(|before| + 1 + |Text(inside)|)
  {
    hide Closed, MatchFrom, Moved;
    var x := Text(inside);
    ConcatGroup(before, "{", x, "}", after);
    BracketPassed(before, '{', x + "}" + after, TOP, ',', 0);
    MatchTokens(before + "{", inside, "}" + after, 1);
    BracketPassed(before + "{" + x, '}', after, TOP, ',', 1);
  }
}
