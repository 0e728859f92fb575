/** Printed raw strings in text that is scanned afterwards: when a scan passes over a literal as one stretch. */
module ScannedLiterals {
  import opened Options
  import opened RawStrings
  import opened TopLevelText

  /** Every quote is hidden by a backslash, and the last backslash hides something. */
  predicate QuotesHidden(v: string) {
    if v == "" then true
    else if v[0] == '\\' then |v| >= 2 && QuotesHidden(v[2..])
    else v[0] != '"' && QuotesHidden(v[1..])
  }

  /** A quoted stretch ends at the quote after `v` exactly if all quotes in `v` are hidden. */
  lemma {:induction false} StretchEnds(t: string, i: nat, v: string)
    requires i + |v| < |t| && t[i..i + |v|] == v && t[i + |v|] == '"'
    ensures QuoteEnd(t, i, '"') == Some(i + |v|) <==> QuotesHidden(v)
    decreases |v|
  {
    if v != "" {
      assert t[i] == v[0];
      if v[0] != '\\' {
        assert t[i + 1..i + 1 + |v[1..]|] == v[1..];
        StretchEnds(t, i + 1, v[1..]);
      } else if |v| == 1 {
        QuoteEndIs(t, i + 2, '"');
      } else {
        assert t[i + 2..i + 2 + |v[2..]|] == v[2..];
        StretchEnds(t, i + 2, v[2..]);
      }
    }
  }

  /** One hash: the stretch begins with the literal. Otherwise only the quote after the hashes begins one. */
  function StretchStart(n: nat): nat {
    if n == 1 then 0 else n + 1
  }

  /** Where it ends; other hashes than one are left over. */
  function StretchEnd(v: string, n: nat): nat {
    |Printed(v, n)| - if n == 1 then 0 else n
  }

  predicate Ordinary(t: string, from: nat, to: nat)
    requires to <= |t|
  {
    forall i | from <= i < to :: Skip(t, i).None? && (t[i] == 'r' || t[i] == '#')
  }

  /** The scan of a literal at the beginning of a text sees its hashes at most, and its content not at all. */
  predicate PassedOver(v: string, n: nat, rest: string) {
    var t := Printed(v, n) + rest;
    && |Printed(v, n)| == |v| + 2 * n + 3
    && Ordinary(t, 0, StretchStart(n))
    && SkipCloses(t, StretchStart(n)) && Skip(t, StretchStart(n)) == Some(StretchEnd(v, n))
    && Ordinary(t, StretchEnd(v, n), |Printed(v, n)|)
  }

  lemma PrintedAt(v: string, n: nat, rest: string)
    ensures var t := Printed(v, n) + rest;
            && |Printed(v, n)| == |v| + 2 * n + 3
            && t[0] == 'r'
            && (forall i | 1 <= i <= n :: t[i] == '#')
            && t[n + 1] == '"' && t[n + 2..n + 2 + |v|] == v && t[n + 2 + |v|] == '"'
            && (forall i | n + 3 + |v| <= i < |v| + 2 * n + 3 :: t[i] == '#')
  {
    var t := Printed(v, n) + rest;
    assert t == "r" + Hashes(n) + "\"" + v + ("\"" + Hashes(n)) + rest;
  }

  /** With one hash the literal is a stretch of its own: no quote in it has the fence after it. */
  lemma {:induction false} OneHashEnds(t: string, v: string, i: nat)
    requires i <= |v| && |v| + 5 <= |t| && t[3..3 + |v|] == v && t[3 + |v|] == '"' && t[4 + |v|] == '#'
    requires !HasFence(v, 1)
    ensures RawEnd(t, i + 3) == Some(|v| + 3)
    decreases |v| - i
  {
    if i < |v| {
      assert t[i + 3] == v[i];
      if t[i + 3] == '"' && t[i + 4] == '#' {
        assert i + 1 < |v| && t[i + 4] == v[i + 1];
        IndexOfIs(v, 0, Fence(1));
        assert v[i..i + 2] == Fence(1);
        assert StartsWith(v, i, Fence(1));
      }
      OneHashEnds(t, v, i + 1);
    }
  }

  /** The literal is passed over exactly if it has one hash or all quotes in it are hidden. */
  lemma {:induction false} PassedOverIff(v: string, n: nat, rest: string)
    requires !HasFence(v, n)
    ensures PassedOver(v, n, rest) <==> n == 1 || QuotesHidden(v)
  {
    var t := Printed(v, n) + rest;
    PrintedAt(v, n, rest);
    if n == 1 {
      assert t[1] == '#' && t[2] == '"';
      OneHashEnds(t, v, 0);
    } else {
      StretchEnds(t, n + 2, v);
      assert n == 0 ==> t[1] == '"';
      assert n >= 2 ==> t[1] == '#' && t[2] == '#';
      assert Ordinary(t, 0, n + 1) && Ordinary(t, |v| + n + 3, |v| + 2 * n + 3);
    }
  }

  // ---- what it means for the scans ----

  /** An ordinary character or one of a literal's hashes moves a scan on by one. */
  lemma {:induction false} OrdinaryScanned(t: string, from: nat, to: nat, d: Depths, depth: int, delimiter: char)
    requires from <= to <= |t| && Ordinary(t, from, to) && TopLevelText.Plain(delimiter) && !IsBracket(delimiter)
    ensures Cuts(t, from, d, delimiter) == Cuts(t, to, d, delimiter)
    ensures MatchFrom(t, from, depth) == MatchFrom(t, to, depth)
    decreases |t| - from
  {
    if from < to {
      OrdinaryScanned(t, from + 1, to, d, depth, delimiter);
    }
  }

  /** Splitting and brace matching go on behind a literal that is passed over as if it were not there. */
  lemma {:induction false} ScansGoOn(v: string, n: nat, rest: string, d: Depths, depth: int, delimiter: char)
    requires !HasFence(v, n) && (n == 1 || QuotesHidden(v)) && TopLevelText.Plain(delimiter) && !IsBracket(delimiter)
    ensures var t := Printed(v, n) + rest;
            && Cuts(t, 0, d, delimiter) == Cuts(t, |Printed(v, n)|, d, delimiter)
            && MatchFrom(t, 0, depth) == MatchFrom(t, |Printed(v, n)|, depth)
  {
    PassedOverIff(v, n, rest);
    var t := Printed(v, n) + rest;
    OrdinaryScanned(t, 0, StretchStart(n), d, depth, delimiter);
    OrdinaryScanned(t, StretchEnd(v, n), |Printed(v, n)|, d, depth, delimiter);
  }

  /** A backslash alone is printed without hashes, and hides the closing quote from the scan: the brace that closes the
    * text is not found.
    */
  lemma {:induction false} BackslashHidesBrace()
    ensures FewestHashes("\\", 0) && !QuotesHidden("\\")
    ensures MatchFrom("{" + Printed("\\", 0) + "}", 0, 0) == None
  {
    var v := "\\";
    IndexOfIs(v, 0, Fence(0));
    assert Fence(0) == "\"";
    var t := "{" + Printed(v, 0) + "}";
    assert Hashes(0) == "";
    assert t == "{r\"\\\"}";
    assert |t| == 6 && t[0] == '{' && t[1] == 'r' && t[2] == '"' && t[3] == '\\' && t[4] == '"' && t[5] == '}';
    assert QuoteEnd(t, 5, '"') == QuoteEnd(t, 6, '"');
    assert QuoteEnd(t, 3, '"') == None;
    assert Skip(t, 2) == Some(6);
    assert MatchFrom(t, 2, 1) == None;
    assert MatchFrom(t, 1, 1) == None;
  }

  /** A quote and a hash are printed with two hashes, and the scan takes the quote for the end of the literal. */
  lemma {:induction false} InnerQuoteHidesBrace()
    ensures FewestHashes("\"#", 2) && !QuotesHidden("\"#")
    ensures MatchFrom("{" + Printed("\"#", 2) + "}", 0, 0) == None
  {
    var v := "\"#";
    assert v[0..1] == Fence(0) && v[0..2] == Fence(1);
    assert StartsWith(v, 0, Fence(0)) && StartsWith(v, 0, Fence(1));
    IndexOfIs(v, 0, Fence(2));
    var t := "{" + Printed(v, 2) + "}";
    assert Hashes(2) == "##";
    assert t == "{r##\"\"#\"##}";
    assert |t| == 11 && t[4] == '"' && t[5] == '"' && t[7] == '"' && t[10] == '}';
    assert QuoteEnd(t, 5, '"') == Some(5);
    assert Skip(t, 4) == Some(6);
    assert QuoteEnd(t, 10, '"') == QuoteEnd(t, 11, '"');
    assert QuoteEnd(t, 8, '"') == QuoteEnd(t, 9, '"');
    assert QuoteEnd(t, 8, '"') == None;
    assert Skip(t, 7) == Some(11);
    assert MatchFrom(t, 7, 1) == None;
    assert MatchFrom(t, 4, 1) == None;
    assert MatchFrom(t, 2, 1) == None;
    assert MatchFrom(t, 1, 1) == None;
  }
}
