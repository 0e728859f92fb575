/** Fourslash tests as they are written, row by row. */
module TestInputTexts {
  import opened Options
  import opened RawStrings

  /** A row of test input, cut at its backticks, a directive with or without a space, or any other row. A row may end
    * in a carriage return.
    */
  datatype Row =
    | InputRow(pieces: seq<string>, cr: bool)
    | DirectiveRow(space: bool, text: string, cr: bool)
    | OtherRow(text: string, cr: bool)

  function JoinWith(xs: seq<string>, separator: string): string {
    if xs == [] then ""
    else if |xs| == 1 then xs[0]
    else xs[0] + separator + JoinWith(xs[1..], separator)
  }

  function RowText(r: Row): string {
    match r
    case InputRow(pieces, _) => "////" + JoinWith(pieces, "`")
    case DirectiveRow(space, text, _) => (if space then "// @" else "//@") + text
    case OtherRow(text, _) => text
  }

  predicate Begins(line: string, start: string) {
    |start| <= |line| && line[..|start|] == start
  }

  predicate RowOk(r: Row) {
    && '\n' !in RowText(r)
    && (r.cr || RowText(r) == "" || RowText(r)[|RowText(r)| - 1] != '\r')
    && match r
       case InputRow(pieces, _) => pieces != [] && forall i | 0 <= i < |pieces| :: '`' !in pieces[i]
       case DirectiveRow(_, _, _) => true
       case OtherRow(text, _) => !Begins(text, "////") && !Begins(text, "// @") && !Begins(text, "//@")
  }

  function RowLine(r: Row): string {
    if r.cr then RowText(r) + "\r" else RowText(r)
  }

  function RowLines(rows: seq<Row>): (r: seq<string>)
    ensures |r| == |rows|
  {
    seq(|rows|, i requires 0 <= i < |rows| => RowLine(rows[i]))
  }

  /** What a row is in the test input: backticks stand between two Go raw strings, and other rows are left out. */
  function Shown(r: Row): seq<string> {
    match r
    case InputRow(pieces, _) => [JoinWith(pieces, "` + \"`\" + `")]
    case DirectiveRow(_, _, _) => [RowText(r)]
    case OtherRow(_, _) => []
  }

  function AllShown(rows: seq<Row>): seq<string> {
    if rows == [] then [] else AllShown(rows[..|rows| - 1]) + Shown(rows[|rows| - 1])
  }

  /** A line with text at its very beginning, which is no comment or directive. */
  predicate AtMargin(line: string) {
    line != "" && line[0] != ' ' && !Begins(line, "// ") && !Begins(line, "//@")
  }

  function Outdented(lines: seq<string>): (r: seq<string>)
    ensures |r| == |lines|
  {
    seq(|lines|, i requires 0 <= i < |lines| => if Begins(lines[i], " ") then lines[i][1..] else lines[i])
  }

  // ---- rows are read ----

  lemma {:induction false} JoinedAsLines(lines: seq<string>)
    ensures JoinLines(lines) == JoinWith(lines, "\n")
    decreases |lines|
  {
    if |lines| > 1 {
      JoinedAsLines(lines[1..]);
    }
  }

  lemma {:induction false} FirstLine(s: string, rest: string)
    requires '\n' !in s
    ensures SplitLines(s + "\n" + rest) == [s] + SplitLines(rest)
    decreases |s|
  {
    var t := s + "\n" + rest;
    if s == "" {
      assert t[1..] == rest;
    } else {
      assert s[0] in s && forall c | c in s[1..] :: c in s;
      assert t[1..] == s[1..] + "\n" + rest;
      FirstLine(s[1..], rest);
      assert [s[0]] + s[1..] == s;
    }
  }

  lemma {:induction false} LinesFound(lines: seq<string>)
    requires lines != [] && forall i | 0 <= i < |lines| :: '\n' !in lines[i]
    ensures SplitLines(JoinWith(lines, "\n")) == lines
    decreases |lines|
  {
    if |lines| == 1 {
      OneLine(lines[0]);
    } else {
      LinesFound(lines[1..]);
      FirstLine(lines[0], JoinWith(lines[1..], "\n"));
    }
  }

  lemma {:induction false} BackticksSpliced(pieces: seq<string>)
    requires forall i | 0 <= i < |pieces| :: '`' !in pieces[i]
    ensures Spliced(JoinWith(pieces, "`")) == JoinWith(pieces, "` + \"`\" + `")
    decreases |pieces|
  {
    if pieces != [] {
      var more := if |pieces| == 1 then "" else "`" + JoinWith(pieces[1..], "`");
      PieceKept(pieces[0], more);
      if |pieces| == 1 {
        assert pieces[0] + "" == pieces[0];
      } else {
        BackticksSpliced(pieces[1..]);
        assert more[1..] == JoinWith(pieces[1..], "`");
        assert pieces[0] + "`" + JoinWith(pieces[1..], "`") == pieces[0] + more;
      }
    }
  }

  lemma {:induction false} PieceKept(piece: string, more: string)
    requires '`' !in piece
    ensures Spliced(piece + more) == piece + Spliced(more)
  {
    if piece == "" {
      assert piece + more == more;
    } else {
      assert piece[0] in piece && forall c | c in piece[1..] :: c in piece;
      assert (piece + more)[1..] == piece[1..] + more;
      PieceKept(piece[1..], more);
    }
  }

  lemma BeginsIs(line: string, start: string)
    ensures StartsWith(line, 0, start) <==> Begins(line, start)
  {
    assert |start| <= |line| ==> line[0..|start|] == line[..|start|];
  }

  lemma RowRead(r: Row)
    requires RowOk(r)
    ensures match r
            case InputRow(pieces, _) => Classify(RowText(r)) == Some(Input(JoinWith(pieces, "`")))
            case DirectiveRow(_, _, _) => Classify(RowText(r)) == Some(Directive(RowText(r)))
            case OtherRow(_, _) => Classify(RowText(r)) == None
  {
    hide JoinWith;
    var text := RowText(r);
    BeginsIs(text, "////");
    BeginsIs(text, "// @");
    BeginsIs(text, "//@");
    match r {
      case InputRow(pieces, _) => assert text[..4] == "////" && text[4..] == JoinWith(pieces, "`");
      case DirectiveRow(space, _, _) =>
        assert space ==> text[..4] == "// @";
        assert !space ==> text[..3] == "//@";
        assert |text| >= 4 ==> text[..4][2] == text[2] && "////"[2] == '/';
      case OtherRow(_, _) =>
    }
  }

  lemma RowWritten(rows: seq<Row>, texts: seq<string>)
    requires rows != [] && |texts| == |rows| && RowOk(rows[|rows| - 1])
    requires texts[|rows| - 1] == RowText(rows[|rows| - 1])
    ensures Texts(Kept(texts), Written) == Texts(Kept(texts[..|rows| - 1]), Written) + Shown(rows[|rows| - 1])
  {
    hide Kept, Texts, RowText, Classify, Spliced, JoinWith;
    var n := |rows| - 1;
    KeptNext(texts, n);
    assert texts[..n + 1] == texts;
    RowRead(rows[n]);
    match rows[n] {
      case InputRow(pieces, _) => BackticksSpliced(pieces);
      case _ =>
    }
  }

  lemma {:induction false} RowsWritten(rows: seq<Row>, texts: seq<string>)
    requires |texts| == |rows| && forall i | 0 <= i < |rows| :: RowOk(rows[i]) && texts[i] == RowText(rows[i])
    ensures Texts(Kept(texts), Written) == AllShown(rows)
    decreases |rows|
  {
    hide Kept, Texts, RowText, RowOk, Shown;
    if rows == [] {
      NothingKept();
    } else {
      RowsWritten(rows[..|rows| - 1], texts[..|rows| - 1]);
      RowWritten(rows, texts);
    }
  }

  lemma OutdentedIs(lines: seq<string>)
    ensures Chopped(lines) == if exists i :: 0 <= i < |lines| && AtMargin(lines[i]) then lines else Outdented(lines)
  {
    forall i | 0 <= i < |lines|
      ensures Anchors(lines[i]) <==> AtMargin(lines[i])
      ensures Chop(lines[i]) == if Begins(lines[i], " ") then lines[i][1..] else lines[i]
    {
      BeginsIs(lines[i], " ");
      BeginsIs(lines[i], "// ");
      BeginsIs(lines[i], "//@");
      assert lines[i] != "" ==> lines[i][..1] == [lines[i][0]];
    }
    hide Anchors, AtMargin, Chop, Begins;
  }

  /** The input of a written test: what its rows show, without one leading space unless a line is at the margin. */
  lemma TestInputOfRows(rows: seq<Row>)
    requires rows != [] && forall i | 0 <= i < |rows| :: RowOk(rows[i])
    ensures var shown := AllShown(rows);
            TestInput(JoinWith(RowLines(rows), "\n")) ==
              var anchored := exists i :: 0 <= i < |shown| && AtMargin(shown[i]);
              "`" + JoinWith(if anchored then shown else Outdented(shown), "\n") + "`"
  {
    hide Kept, Texts, Chopped, AllShown, AtMargin, SplitLines, JoinWith, JoinLines, Outdented;
    var content := JoinWith(RowLines(rows), "\n");
    forall i | 0 <= i < |rows| ensures '\n' !in RowLines(rows)[i] && WithoutCr(RowLine(rows[i])) == RowText(rows[i]) {
      assert (RowText(rows[i]) + "\r")[..|RowText(rows[i])|] == RowText(rows[i]);
    }
    hide RowText, WithoutCr;
    LinesFound(RowLines(rows));
    var texts := Lines(content);
    hide RowOk, RowLine;
    RowsWritten(rows, texts);
    var shown := AllShown(rows);
    OutdentedIs(shown);
    JoinedAsLines(Chopped(shown));
  }

  // ---- every test is written this way ----

  lemma {:induction false} LinesJoin(s: string)
    ensures SplitLines(s) != [] && JoinWith(SplitLines(s), "\n") == s
    ensures forall i | 0 <= i < |SplitLines(s)| :: '\n' !in SplitLines(s)[i]
  {
    if s != "" {
      LinesJoin(s[1..]);
      var rest, r := SplitLines(s[1..]), SplitLines(s);
      if s[0] == '\n' {
        assert r[1..] == rest;
        assert "" + "\n" + JoinWith(rest, "\n") == s;
      } else {
        assert r[1..] == rest[1..];
        assert [s[0]] + s[1..] == s;
        if |rest| > 1 {
          assert [s[0]] + rest[0] + "\n" + JoinWith(rest[1..], "\n") ==
                 [s[0]] + (rest[0] + "\n" + JoinWith(rest[1..], "\n"));
        }
      }
    }
  }

  lemma {:induction false} PiecesOf(text: string) returns (pieces: seq<string>)
    ensures pieces != [] && JoinWith(pieces, "`") == text && forall i | 0 <= i < |pieces| :: '`' !in pieces[i]
  {
    if text == "" {
      pieces := [""];
    } else {
      var rest := PiecesOf(text[1..]);
      assert [text[0]] + text[1..] == text;
      if text[0] == '`' {
        pieces := [""] + rest;
        assert pieces[1..] == rest;
        assert "" + "`" + JoinWith(rest, "`") == text;
      } else {
        pieces := [[text[0]] + rest[0]] + rest[1..];
        assert pieces[1..] == rest[1..];
        if |rest| > 1 {
          assert [text[0]] + rest[0] + "`" + JoinWith(rest[1..], "`") ==
                 [text[0]] + (rest[0] + "`" + JoinWith(rest[1..], "`"));
        }
      }
    }
  }

  lemma RowOf(line: string) returns (r: Row)
    requires '\n' !in line
    ensures RowOk(r) && RowLine(r) == line
  {
    hide JoinWith;
    var cr := line != "" && line[|line| - 1] == '\r';
    var text := if cr then line[..|line| - 1] else line;
    assert forall c | c in text :: c in line;
    if Begins(text, "////") {
      var pieces := PiecesOf(text[4..]);
      r := InputRow(pieces, cr);
      assert text == "////" + text[4..];
    } else if Begins(text, "// @") {
      r := DirectiveRow(true, text[4..], cr);
      assert text == "// @" + text[4..];
    } else if Begins(text, "//@") {
      r := DirectiveRow(false, text[3..], cr);
      assert text == "//@" + text[3..];
    } else {
      r := OtherRow(text, cr);
    }
    assert RowText(r) == text;
    assert cr ==> text + "\r" == line;
  }

  /** So every content is that of some written rows. */
  lemma EveryTestIsWritten(content: string) returns (rows: seq<Row>)
    ensures rows != [] && (forall i | 0 <= i < |rows| :: RowOk(rows[i])) && JoinWith(RowLines(rows), "\n") == content
  {
    hide RowOk, RowLine, SplitLines, JoinWith;
    LinesJoin(content);
    var lines := SplitLines(content);
    rows := [];
    while |rows| < |lines|
      invariant |rows| <= |lines|
      invariant forall i | 0 <= i < |rows| :: RowOk(rows[i]) && RowLine(rows[i]) == lines[i]
    {
      var r := RowOf(lines[|rows|]);
      rows := rows + [r];
    }
    assert RowLines(rows) == lines;
  }
}
