/** Values of a compiler option as a test writes them. */
module OptionTexts {
  import opened Options
  import opened TestConfigurations
  import opened TestVariations

  datatype Item = Blank | Wildcard | Including(pluses: nat, value: string) | Excluding(sign: char, value: string)

  /** One place between commas: an item and the white space around it. */
  datatype Slot = Slot(before: string, item: Item, after: string)

  /** Tabulator, the line ends and the space. */
  predicate White(c: char) {
    9 <= c as int <= 13 || c as int == 32
  }

  predicate AllWhite(s: string) {
    forall c | c in s :: White(c)
  }

  predicate EndsOk(value: string) {
    ',' !in value && (value != "" ==> !White(value[|value| - 1]))
  }

  predicate ItemOk(it: Item) {
    match it
    case Blank | Wildcard => true
    case Excluding(sign, value) => (sign == '-' || sign == '!') && EndsOk(value)
    case Including(pluses, value) =>
      && EndsOk(value) && (value != "" ==> value[0] != '+')
      && (pluses == 0 ==> value != "" && value != "*" && !White(value[0]) && value[0] != '-' && value[0] != '!')
  }

  predicate SlotOk(s: Slot) {
    AllWhite(s.before) && AllWhite(s.after) && ItemOk(s.item)
  }

  function ItemText(it: Item): string {
    match it
    case Blank => ""
    case Wildcard => "*"
    case Including(pluses, value) => seq(pluses, i requires 0 <= i < pluses => '+') + value
    case Excluding(sign, value) => [sign] + value
  }

  function SlotText(s: Slot): string {
    s.before + ItemText(s.item) + s.after
  }

  function SlotTexts(slots: seq<Slot>): (r: seq<string>)
    ensures |r| == |slots|
  {
    seq(|slots|, i requires 0 <= i < |slots| => SlotText(slots[i]))
  }

  /** The included values as they were written. */
  function Included(slots: seq<Slot>): seq<string> {
    if slots == [] then []
    else
      Included(slots[..|slots| - 1])
      + match slots[|slots| - 1].item case Including(_, value) => [value] case _ => []
  }

  function ExcludedValues(slots: seq<Slot>): seq<string> {
    if slots == [] then []
    else
      ExcludedValues(slots[..|slots| - 1])
      + match slots[|slots| - 1].item case Excluding(_, value) => [value] case _ => []
  }

  predicate HasWildcard(slots: seq<Slot>) {
    exists i :: 0 <= i < |slots| && slots[i].item.Wildcard?
  }

  predicate NothingWritten(slots: seq<Slot>) {
    forall i | 0 <= i < |slots| :: slots[i].item.Blank?
  }

  // ---- reading one place ----

  lemma {:induction false} StartTrimmed(before: string, s: string)
    requires AllWhite(before) && (s != "" ==> !White(s[0]))
    ensures TrimStart(before + s) == s
    decreases |before|
  {
    var t := before + s;
    if before == "" {
      assert t == s;
    } else {
      assert before[0] in before && t[1..] == before[1..] + s;
      assert forall c | c in before[1..] :: c in before;
      StartTrimmed(before[1..], s);
    }
  }

  lemma {:induction false} EndTrimmed(s: string, after: string)
    requires AllWhite(after) && (s != "" ==> !White(s[|s| - 1]))
    ensures TrimEnd(s + after) == s
    decreases |after|
  {
    var t := s + after;
    if after == "" {
      assert t == s;
    } else {
      var n := |after| - 1;
      assert after[n] in after && t[..|t| - 1] == s + after[..n];
      assert forall c | c in after[..n] :: c in after;
      EndTrimmed(s, after[..n]);
    }
  }

  lemma PaddingTrimmed(before: string, s: string, after: string)
    requires AllWhite(before) && AllWhite(after)
    requires s != "" ==> !White(s[0]) && !White(s[|s| - 1])
    ensures Trim(before + s + after) == s
  {
    if s == "" {
      assert AllWhite(before + s + after);
      assert (before + s + after) + "" == before + s + after;
      StartTrimmed(before + s + after, "");
    } else {
      assert before + s + after == before + (s + after);
      StartTrimmed(before, s + after);
      EndTrimmed(s, after);
    }
  }

  lemma {:induction false} PlusesTrimmed(n: nat, value: string)
    requires value != "" ==> value[0] != '+'
    ensures TrimPlus(seq(n, i requires 0 <= i < n => '+') + value) == value
  {
    var s := seq(n, i requires 0 <= i < n => '+') + value;
    if n == 0 {
      assert s == value;
    } else {
      assert s[1..] == seq(n - 1, i requires 0 <= i < n - 1 => '+') + value;
      PlusesTrimmed(n - 1, value);
    }
  }

  lemma SlotRead(s: Slot)
    requires SlotOk(s)
    ensures Trim(SlotText(s)) == ItemText(s.item) && (ItemText(s.item) == "" <==> s.item.Blank?)
    ensures match s.item
            case Blank => true
            case Wildcard => Classify("*") == Star
            case Including(_, value) => Classify(ItemText(s.item)) == Include(value)
            case Excluding(_, value) => Classify(ItemText(s.item)) == Exclude(value)
  {
    var text := ItemText(s.item);
    if text != "" {
      match s.item {
        case Including(pluses, value) =>
          PlusesTrimmed(pluses, value);
          assert pluses > 0 ==> text[0] == '+';
          assert pluses == 0 ==> text == value;
          assert text[|text| - 1] == if value == "" then '+' else value[|value| - 1];
        case Excluding(sign, value) => assert text[1..] == value;
        case _ =>
      }
    }
    PaddingTrimmed(s.before, text, s.after);
  }

  lemma SlotNoComma(s: Slot)
    requires SlotOk(s)
    ensures NoComma(SlotText(s))
  {
  }

  // ---- reading all places ----

  lemma {:induction false} OnePiece(s: string)
    requires NoComma(s)
    ensures SplitCommas(s) == [s]
  {
    if s != "" {
      assert s[0] in s && forall c | c in s[1..] :: c in s;
      OnePiece(s[1..]);
      assert [s[0]] + s[1..] == s;
    }
  }

  lemma {:induction false} FirstPiece(s: string, rest: string)
    requires NoComma(s)
    ensures SplitCommas(s + "," + rest) == [s] + SplitCommas(rest)
    decreases |s|
  {
    var t := s + "," + rest;
    if s == "" {
      assert t[1..] == rest;
    } else {
      assert s[0] in s && forall c | c in s[1..] :: c in s;
      assert t[1..] == s[1..] + "," + rest;
      FirstPiece(s[1..], rest);
      assert [s[0]] + s[1..] == s;
    }
  }

  lemma {:induction false} PiecesFound(parts: seq<string>)
    requires parts != [] && forall i | 0 <= i < |parts| :: NoComma(parts[i])
    ensures SplitCommas(JoinCommas(parts)) == parts
    decreases |parts|
  {
    if |parts| == 1 {
      OnePiece(parts[0]);
    } else {
      PiecesFound(parts[1..]);
      FirstPiece(parts[0], JoinCommas(parts[1..]));
    }
  }

  function EntriesOf(it: Item): seq<Entry> {
    match it
    case Blank => []
    case Wildcard => [Star]
    case Including(_, value) => [Include(value)]
    case Excluding(_, value) => [Exclude(value)]
  }

  lemma SlotNext(slots: seq<Slot>)
    requires slots != [] && SlotOk(slots[|slots| - 1])
    ensures var n := |slots| - 1;
            Classified(SlotTexts(slots)) == Classified(SlotTexts(slots[..n])) + EntriesOf(slots[n].item)
  {
    hide SlotOk, SlotText, Trim, Classify;
    var n := |slots| - 1;
    assert SlotTexts(slots)[..n] == SlotTexts(slots[..n]);
    SlotRead(slots[n]);
  }

  /** `es` lists what is written. */
  predicate Lists(es: seq<Entry>, slots: seq<Slot>) {
    && Includes(es) == Included(slots) && Excludes(es) == ExcludedValues(slots)
    && (Star in es <==> HasWildcard(slots)) && (es == [] <==> NothingWritten(slots))
  }

  lemma ListsNext(es: seq<Entry>, slots: seq<Slot>)
    requires slots != [] && Lists(es, slots[..|slots| - 1])
    ensures Lists(es + EntriesOf(slots[|slots| - 1].item), slots)
  {
    hide Includes, Excludes;
    var n := |slots| - 1;
    var more := EntriesOf(slots[n].item);
    assert es + [] == es && Included(slots[..n]) + [] == Included(slots[..n]);
    assert ExcludedValues(slots[..n]) + [] == ExcludedValues(slots[..n]);
    assert forall i | 0 <= i < n :: slots[..n][i] == slots[i];
    if more != [] {
      EntryAdded(es, more[0]);
    }
  }

  lemma {:induction false} SlotsRead(slots: seq<Slot>)
    requires forall i | 0 <= i < |slots| :: SlotOk(slots[i])
    ensures Lists(Classified(SlotTexts(slots)), slots)
  {
    if slots == [] {
      EntryAdded([], Star);
    } else {
      hide *;
      var n := |slots| - 1;
      SlotsRead(slots[..n]);
      SlotNext(slots);
      ListsNext(Classified(SlotTexts(slots[..n])), slots);
    }
  }

  /** What the written values stand for: the included ones in their order and then all values, if there is a wildcard.
    */
  function Listed(decl: OptionDecl, slots: seq<Slot>): seq<string> {
    Included(slots) + if HasWildcard(slots) then decl.all else []
  }

  /** The readings of the excluded values that have one. */
  function ExcludedReadings(decl: OptionDecl, slots: seq<Slot>): set<Option<int>> {
    set v | v in ExcludedValues(slots) && decl.parse(v).Some? :: decl.parse(v)
  }

  /** Written option values give no values if nothing is written; they fail if a listed value is unknown or all are
    * excluded; otherwise they give the first listed value of each reading that is not excluded, in order.
    */
  lemma WrittenValues(decl: OptionDecl, slots: seq<Slot>) returns (places: seq<nat>)
    requires slots != [] && forall i | 0 <= i < |slots| :: SlotOk(slots[i])
    ensures var values := Values(decl, JoinCommas(SlotTexts(slots)));
            var listed, excluded := Listed(decl, slots), ExcludedReadings(decl, slots);
            if NothingWritten(slots) then values == Some([])
            else
              && (values.None? <==>
                    || (exists v :: v in listed && decl.parse(v).None?)
                    || (forall v | v in listed :: decl.parse(v) in excluded))
              && (values.Some? ==> ArePlaces(decl, listed, excluded, values.value, places))
  {
    hide SlotOk, SlotText, Keep, ArePlaces, Classified, SplitCommas, JoinCommas;
    forall i | 0 <= i < |slots| ensures NoComma(SlotTexts(slots)[i]) {
      SlotNoComma(slots[i]);
    }
    PiecesFound(SlotTexts(slots));
    SlotsRead(slots);
    var listed, excluded := Listed(decl, slots), ExcludedReadings(decl, slots);
    var es := Entries(JoinCommas(SlotTexts(slots)));
    assert Candidates(decl, es) == listed;
    assert Excluded(decl, es) == excluded;
    places := KeepOrder(decl, listed, excluded);
    KeepMeaning(decl, listed, excluded);
    var kept := Keep(decl, listed, excluded);
    ParsedEach(decl, kept);
    ParsedEach(decl, listed);
    assert kept == [] <==> Parsed(decl, kept) == {} by {
      if kept != [] {
        assert decl.parse(kept[0]) in Parsed(decl, kept);
      }
    }
    assert Parsed(decl, listed) - excluded == {} <==> forall v | v in listed :: decl.parse(v) in excluded by {
      if forall v | v in listed :: decl.parse(v) in excluded {
        assert Parsed(decl, listed) - excluded == {};
      } else {
        var v :| v in listed && decl.parse(v) !in excluded;
        assert decl.parse(v) in Parsed(decl, listed) - excluded;
      }
    }
  }

  // ---- every text is written this way ----

  lemma {:induction false} StartWhite(s: string) returns (before: string)
    ensures AllWhite(before) && s == before + TrimStart(s)
    ensures TrimStart(s) != "" ==> !White(TrimStart(s)[0])
  {
    before := "";
    if s != "" && White(s[0]) {
      before := StartWhite(s[1..]);
      before := [s[0]] + before;
    }
  }

  lemma {:induction false} EndWhite(s: string) returns (after: string)
    ensures AllWhite(after) && s == TrimEnd(s) + after
    ensures TrimEnd(s) != "" ==> !White(TrimEnd(s)[|TrimEnd(s)| - 1])
    decreases |s|
  {
    after := "";
    if s != "" && White(s[|s| - 1]) {
      after := EndWhite(s[..|s| - 1]);
      after := after + [s[|s| - 1]];
    }
  }

  lemma {:induction false} PlusesCounted(s: string) returns (n: nat)
    ensures n <= |s| && s == seq(n, i requires 0 <= i < n => '+') + s[n..] && (n < |s| ==> s[n] != '+')
  {
    n := 0;
    if s != "" && s[0] == '+' {
      n := PlusesCounted(s[1..]);
      n := n + 1;
    }
  }

  lemma ItemOf(text: string) returns (it: Item)
    requires NoComma(text) && (text != "" ==> !White(text[0]) && !White(text[|text| - 1]))
    ensures ItemOk(it) && ItemText(it) == text
  {
    if text == "" {
      it := Blank;
    } else if text == "*" {
      it := Wildcard;
    } else if text[0] == '-' || text[0] == '!' {
      it := Excluding(text[0], text[1..]);
      assert forall c | c in text[1..] :: c in text;
    } else {
      var n := PlusesCounted(text);
      assert forall c | c in text[n..] :: c in text;
      assert n < |text| ==> text[n..][|text| - n - 1] == text[|text| - 1];
      it := Including(n, text[n..]);
    }
  }

  lemma SlotOf(part: string) returns (s: Slot)
    requires NoComma(part)
    ensures SlotOk(s) && SlotText(s) == part
  {
    hide ItemOk, ItemText;
    var before := StartWhite(part);
    var rest := TrimStart(part);
    var after := EndWhite(rest);
    var text := TrimEnd(rest);
    assert text != "" ==> text[0] == rest[0];
    assert forall c | c in text :: c in rest;
    assert forall c | c in rest :: c in part;
    var it := ItemOf(text);
    s := Slot(before, it, after);
  }

  lemma {:induction false} PiecesJoin(s: string)
    ensures SplitCommas(s) != [] && JoinCommas(SplitCommas(s)) == s
    ensures forall i | 0 <= i < |SplitCommas(s)| :: NoComma(SplitCommas(s)[i])
  {
    if s != "" {
      PiecesJoin(s[1..]);
      var rest, r := SplitCommas(s[1..]), SplitCommas(s);
      if s[0] == ',' {
        assert r[1..] == rest;
        assert "" + "," + JoinCommas(rest) == s;
      } else {
        assert r[1..] == rest[1..];
        assert [s[0]] + s[1..] == s;
        if |rest| > 1 {
          assert [s[0]] + rest[0] + "," + JoinCommas(rest[1..]) == [s[0]] + (rest[0] + "," + JoinCommas(rest[1..]));
        }
      }
    }
  }

  /** So every text is the text of some written values. */
  lemma EveryTextIsWritten(value: string) returns (slots: seq<Slot>)
    ensures slots != [] && (forall i | 0 <= i < |slots| :: SlotOk(slots[i])) && JoinCommas(SlotTexts(slots)) == value
  {
    hide SlotOk, SlotText, SplitCommas, JoinCommas;
    PiecesJoin(value);
    var parts := SplitCommas(value);
    slots := [];
    while |slots| < |parts|
      invariant |slots| <= |parts|
      invariant forall i | 0 <= i < |slots| :: SlotOk(slots[i]) && SlotText(slots[i]) == parts[i]
    {
      var s := SlotOf(parts[|slots|]);
      slots := slots + [s];
    }
    assert SlotTexts(slots) == parts;
  }
}
