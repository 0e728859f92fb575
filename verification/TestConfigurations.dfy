/** The configurations of a compiler test: option values with wildcards and exclusions, their products and names. */
module TestConfigurations {
  import opened Options

  // ---- texts ----

  predicate IsSpace(c: char) {
    c == ' ' || c == '\t' || c == '\n' || c == '\r' || c as int == 0x0B || c as int == 0x0C
  }

  function TrimStart(s: string): string {
    if s != "" && IsSpace(s[0]) then TrimStart(s[1..]) else s
  }

  function TrimEnd(s: string): string {
    if s != "" && IsSpace(s[|s| - 1]) then TrimEnd(s[..|s| - 1]) else s
  }

  function Trim(s: string): string {
    TrimEnd(TrimStart(s))
  }

  function TrimPlus(s: string): string {
    if s != "" && s[0] == '+' then TrimPlus(s[1..]) else s
  }

  /** The pieces between commas. */
  function SplitCommas(s: string): seq<string> {
    if s == "" then [""]
    else
      var rest := SplitCommas(s[1..]);
      if s[0] == ',' then [""] + rest else [[s[0]] + rest[0]] + rest[1..]
  }

  function LowerChar(c: char): char {
    if 'A' <= c <= 'Z' then (c as int - 'A' as int + 'a' as int) as char else c
  }

  function Lower(s: string): (r: string)
    ensures |r| == |s|
  {
    seq(|s|, i requires 0 <= i < |s| => LowerChar(s[i]))
  }

  predicate NoComma(s: string) {
    ',' !in s
  }

  // ---- the values of one option ----

  /** How an option reads a value, and all the values its wildcard stands for. */
  datatype OptionDecl = OptionDecl(parse: string -> Option<int>, all: seq<string>)

  datatype Entry = Star | Include(value: string) | Exclude(value: string)

  function Classify(entry: string): Entry {
    if entry == "*" then Star
    else if entry != "" && (entry[0] == '-' || entry[0] == '!') then Exclude(entry[1..])
    else Include(TrimPlus(entry))
  }

  function Classified(parts: seq<string>): seq<Entry> {
    if parts == [] then []
    else
      var last := Trim(parts[|parts| - 1]);
      Classified(parts[..|parts| - 1]) + if last == "" then [] else [Classify(last)]
  }

  function Entries(value: string): seq<Entry> {
    Classified(SplitCommas(value))
  }

  function Includes(es: seq<Entry>): seq<string> {
    if es == [] then []
    else Includes(es[..|es| - 1]) + if es[|es| - 1].Include? then [es[|es| - 1].value] else []
  }

  function Excludes(es: seq<Entry>): seq<string> {
    if es == [] then []
    else Excludes(es[..|es| - 1]) + if es[|es| - 1].Exclude? then [es[|es| - 1].value] else []
  }

  /** Includes first, then what the wildcard adds. */
  function Candidates(decl: OptionDecl, es: seq<Entry>): seq<string> {
    Includes(es) + if Star in es then decl.all else []
  }

  function Parsed(decl: OptionDecl, xs: seq<string>): set<Option<int>> {
    set x | x in xs :: decl.parse(x)
  }

  predicate Known(decl: OptionDecl, xs: seq<string>) {
    forall x | x in xs :: decl.parse(x).Some?
  }

  /** The candidates that are the first with their parsed value and not excluded, in order. */
  function Keep(decl: OptionDecl, xs: seq<string>, excluded: set<Option<int>>): seq<string> {
    if xs == [] then []
    else
      var before, last := xs[..|xs| - 1], xs[|xs| - 1];
      Keep(decl, before, excluded)
      + if decl.parse(last) in Parsed(decl, before) || decl.parse(last) in excluded then [] else [last]
  }

  /** Excluding an unknown value excludes nothing. */
  function Excluded(decl: OptionDecl, es: seq<Entry>): set<Option<int>> {
    Parsed(decl, Excludes(es)) - {None}
  }

  /** The values of an option; None when the build fails because a value is unknown or nothing is left. */
  function Values(decl: OptionDecl, value: string): Option<seq<string>> {
    var es := Entries(value);
    var kept := Keep(decl, Candidates(decl, es), Excluded(decl, es));
    if es == [] then Some([])
    else if !Known(decl, Candidates(decl, es)) || kept == [] then None
    else Some(kept)
  }

  /** Kept values have pairwise different readings, and every reading of a candidate that is not excluded is kept. */
  lemma {:induction false} KeepMeaning(decl: OptionDecl, xs: seq<string>, excluded: set<Option<int>>)
    ensures Parsed(decl, Keep(decl, xs, excluded)) == Parsed(decl, xs) - excluded
    ensures ReadingsDiffer(decl, Keep(decl, xs, excluded))
    ensures forall x | x in Keep(decl, xs, excluded) :: x in xs
  {
    hide Parsed;
    if xs == [] {
      ParsedEmpty(decl);
    } else {
      var before, last := xs[..|xs| - 1], xs[|xs| - 1];
      var p := decl.parse(last);
      KeepMeaning(decl, before, excluded);
      assert xs == before + [last];
      var r := Keep(decl, before, excluded);
      ParsedEach(decl, r);
      ParsedConcat(decl, before, last);
      ParsedConcat(decl, r, last);
      if p in Parsed(decl, before) || p in excluded {
        assert Keep(decl, xs, excluded) == r;
      } else {
        assert Keep(decl, xs, excluded) == r + [last];
        assert (Parsed(decl, before) - excluded) + {p} == (Parsed(decl, before) + {p}) - excluded;
      }
    }
  }

  predicate ReadingsDiffer(decl: OptionDecl, xs: seq<string>) {
    forall i, j | 0 <= i < j < |xs| :: decl.parse(xs[i]) != decl.parse(xs[j])
  }

  lemma ParsedEmpty(decl: OptionDecl)
    ensures Parsed(decl, []) == {}
  {
  }

  lemma ParsedEach(decl: OptionDecl, xs: seq<string>)
    ensures forall i | 0 <= i < |xs| :: decl.parse(xs[i]) in Parsed(decl, xs)
  {
    assert forall i | 0 <= i < |xs| :: xs[i] in xs;
  }

  lemma ParsedConcat(decl: OptionDecl, xs: seq<string>, x: string)
    ensures Parsed(decl, xs + [x]) == Parsed(decl, xs) + {decl.parse(x)}
  {
    assert forall y :: y in xs + [x] <==> y in xs || y == x;
  }

  /** No earlier candidate has the same reading. */
  predicate IsFirst(decl: OptionDecl, xs: seq<string>, i: nat)
    requires i < |xs|
  {
    forall j | 0 <= j < i :: decl.parse(xs[j]) != decl.parse(xs[i])
  }

  /** `places` lists where the kept values stand among the candidates: at the first of each reading not excluded. */
  predicate ArePlaces(decl: OptionDecl, xs: seq<string>, excluded: set<Option<int>>, kept: seq<string>,
                      places: seq<nat>) {
    && |places| == |kept|
    && (forall k | 0 <= k < |places| :: places[k] < |xs| && kept[k] == xs[places[k]])
    && (forall k, l | 0 <= k < l < |places| :: places[k] < places[l])
    && (forall i: nat | i < |xs| :: i in places <==> IsFirst(decl, xs, i) && decl.parse(xs[i]) !in excluded)
  }

  /** The kept values are candidates in their order: the first of each reading that is not excluded, and all of those.
    */
  lemma {:induction false} KeepOrder(decl: OptionDecl, xs: seq<string>, excluded: set<Option<int>>)
    returns (places: seq<nat>)
    ensures ArePlaces(decl, xs, excluded, Keep(decl, xs, excluded), places)
  {
    places := [];
    if xs != [] {
      var n := |xs| - 1;
      var before := xs[..n];
      places := KeepOrder(decl, before, excluded);
      FirstReading(decl, xs);
      PlacesNext(decl, xs, excluded, Keep(decl, before, excluded), places);
      hide ArePlaces, IsFirst, Parsed;
      if IsFirst(decl, xs, n) && decl.parse(xs[n]) !in excluded {
        places := places + [n];
      }
    }
  }

  lemma {:induction false} PlacesNext(decl: OptionDecl, xs: seq<string>, excluded: set<Option<int>>, kept: seq<string>,
                                      places: seq<nat>)
    requires xs != [] && ArePlaces(decl, xs[..|xs| - 1], excluded, kept, places)
    ensures var n := |xs| - 1;
            if IsFirst(decl, xs, n) && decl.parse(xs[n]) !in excluded
            then ArePlaces(decl, xs, excluded, kept + [xs[n]], places + [n])
            else ArePlaces(decl, xs, excluded, kept + [], places)
  {
    var n := |xs| - 1;
    FirstBefore(decl, xs, n);
    hide IsFirst;
    assert kept + [] == kept;
    assert forall i: nat :: i in places + [n] <==> i in places || i == n;
    assert forall k | 0 <= k < |places| :: places[k] in places;
  }

  lemma FirstBefore(decl: OptionDecl, xs: seq<string>, n: nat)
    requires n <= |xs|
    ensures forall i: nat | i < n :: IsFirst(decl, xs, i) <==> IsFirst(decl, xs[..n], i)
  {
  }

  lemma FirstReading(decl: OptionDecl, xs: seq<string>)
    requires xs != []
    ensures IsFirst(decl, xs, |xs| - 1) <==> decl.parse(xs[|xs| - 1]) !in Parsed(decl, xs[..|xs| - 1])
  {
    var before := xs[..|xs| - 1];
    ParsedEach(decl, before);
    forall x | x in before ensures exists j :: 0 <= j < |before| && before[j] == x {
    }
    assert forall j | 0 <= j < |before| :: before[j] == xs[j];
  }

  lemma EntryAdded(es: seq<Entry>, e: Entry)
    ensures Includes(es + [e]) == Includes(es) + if e.Include? then [e.value] else []
    ensures Excludes(es + [e]) == Excludes(es) + if e.Exclude? then [e.value] else []
    ensures Star in es + [e] <==> Star in es || e == Star
    ensures Includes([]) == Excludes([]) == []
  {
    assert (es + [e])[..|es|] == es;
  }

  method ClassifyEntries(value: string) returns (star: bool, includes: seq<string>, excludes: seq<string>)
    ensures star == (Star in Entries(value))
    ensures includes == Includes(Entries(value)) && excludes == Excludes(Entries(value))
  {
    hide Includes, Excludes, TrimPlus, Trim, SplitCommas;
    star, includes, excludes := false, [], [];
    var parts := SplitCommas(value);
    ghost var es: seq<Entry> := [];
    EntryAdded(es, Star);
    var i := 0;
    while i < |parts|
      invariant 0 <= i <= |parts|
      invariant es == Classified(parts[..i])
      invariant star == (Star in es) && includes == Includes(es) && excludes == Excludes(es)
    {
      assert parts[..i + 1][..i] == parts[..i];
      var entry := Trim(parts[i]);
      if entry != "" {
        ghost var e := Classify(entry);
        EntryAdded(es, e);
        if entry == "*" {
          star := true;
        } else if entry[0] == '-' || entry[0] == '!' {
          excludes := excludes + [entry[1..]];
        } else {
          includes := includes + [TrimPlus(entry)];
        }
        es := es + [e];
      }
      i := i + 1;
    }
    assert parts[..i] == parts;
  }

  lemma KeepNext(decl: OptionDecl, xs: seq<string>, x: string)
    ensures var kept := Keep(decl, xs, {});
            Keep(decl, xs + [x], {}) ==
              kept + if exists k :: 0 <= k < |kept| && decl.parse(kept[k]) == decl.parse(x) then [] else [x]
  {
    var kept := Keep(decl, xs, {});
    assert (xs + [x])[..|xs|] == xs;
    KeepMeaning(decl, xs, {});
    InParsed(decl, kept, decl.parse(x));
    assert kept + [] == kept;
  }

  lemma InParsed(decl: OptionDecl, xs: seq<string>, v: Option<int>)
    ensures v in Parsed(decl, xs) <==> exists k :: 0 <= k < |xs| && decl.parse(xs[k]) == v
  {
    if v in Parsed(decl, xs) {
      var x :| x in xs && decl.parse(x) == v;
      var k :| 0 <= k < |xs| && xs[k] == x;
    }
    if k :| 0 <= k < |xs| && decl.parse(xs[k]) == v {
      assert xs[k] in xs;
    }
  }

  /** Adds to the variations the candidates whose reading is new; fails on a candidate without a reading. */
  method AddVariations(decl: OptionDecl, ghost before: seq<string>, xs: seq<string>, known: seq<string>)
    returns (ok: bool, kept: seq<string>)
    requires Known(decl, before) && known == Keep(decl, before, {})
    ensures ok <==> Known(decl, xs)
    ensures ok ==> kept == Keep(decl, before + xs, {})
  {
    hide Keep, Parsed;
    kept := known;
    var i := 0;
    assert before + xs[..0] == before;
    while i < |xs|
      invariant 0 <= i <= |xs|
      invariant Known(decl, xs[..i])
      invariant kept == Keep(decl, before + xs[..i], {})
    {
      var parsed := decl.parse(xs[i]);
      assert xs[..i + 1] == xs[..i] + [xs[i]];
      if parsed.None? {
        assert xs[i] in xs;
        return false, kept;
      }
      ghost var all := before + xs[..i];
      assert before + xs[..i + 1] == all + [xs[i]];
      KeepNext(decl, all, xs[i]);
      if !(exists k :: 0 <= k < |kept| && decl.parse(kept[k]) == parsed) {
        kept := kept + [xs[i]];
      }
      i := i + 1;
    }
    assert xs[..i] == xs;
    ok := true;
  }

  /** Removes the values with an excluded reading. */
  method RemoveExcluded(decl: OptionDecl, ghost xs: seq<string>, excludes: seq<string>, variations: seq<string>)
    returns (kept: seq<string>)
    requires Known(decl, xs) && variations == Keep(decl, xs, {})
    ensures kept == Keep(decl, xs, Parsed(decl, excludes) - {None})
  {
    hide Keep, Without, Known;
    kept := variations;
    var i := 0;
    assert Parsed(decl, excludes[..0]) - {None} == {};
    while i < |excludes|
      invariant 0 <= i <= |excludes|
      invariant kept == Keep(decl, xs, Parsed(decl, excludes[..i]) - {None})
    {
      var parsed := decl.parse(excludes[i]);
      ghost var before := Parsed(decl, excludes[..i]) - {None};
      assert excludes[..i + 1] == excludes[..i] + [excludes[i]];
      ParsedConcat(decl, excludes[..i], excludes[i]);
      if parsed.Some? {
        kept := Without(decl, kept, parsed);
        KeepWithout(decl, xs, before, parsed);
        assert before + {parsed} == Parsed(decl, excludes[..i + 1]) - {None};
      } else {
        assert before == Parsed(decl, excludes[..i + 1]) - {None};
      }
      i := i + 1;
    }
    assert excludes[..i] == excludes;
  }

  function Without(decl: OptionDecl, xs: seq<string>, parsed: Option<int>): seq<string> {
    if xs == [] then []
    else
      var last := xs[|xs| - 1];
      Without(decl, xs[..|xs| - 1], parsed) + if decl.parse(last) == parsed then [] else [last]
  }

  lemma {:induction false} KeepWithout(decl: OptionDecl, xs: seq<string>, excluded: set<Option<int>>,
                                       parsed: Option<int>)
    ensures Without(decl, Keep(decl, xs, excluded), parsed) == Keep(decl, xs, excluded + {parsed})
  {
    if xs != [] {
      var before, last := xs[..|xs| - 1], xs[|xs| - 1];
      KeepWithout(decl, before, excluded, parsed);
      var k := Keep(decl, before, excluded);
      assert (k + [last])[..|k|] == k;
      assert k + [] == k;
    }
  }

  method SplitOptionValues(decl: OptionDecl, value: string) returns (r: Option<seq<string>>)
    ensures r == Values(decl, value)
  {
    var star, includes, excludes := ClassifyEntries(value);
    ghost var es := Entries(value);
    NothingListed(es);
    if includes == [] && !star && excludes == [] {
      return Some([]);
    }
    assert [] + includes == includes;
    var ok, variations := AddVariations(decl, [], includes, []);
    if !ok {
      assert forall x | x in includes :: x in Candidates(decl, es);
      return None;
    }
    if star {
      ok, variations := AddVariations(decl, includes, decl.all, variations);
      if !ok {
        assert forall x | x in decl.all :: x in Candidates(decl, es);
        return None;
      }
    } else {
      assert includes + [] == includes;
    }
    variations := RemoveExcluded(decl, Candidates(decl, es), excludes, variations);
    if variations == [] {
      return None;
    }
    r := Some(variations);
  }

  lemma {:induction false} NothingListed(es: seq<Entry>)
    ensures es == [] <==> Includes(es) == [] && Star !in es && Excludes(es) == []
  {
    if es != [] {
      var last := es[|es| - 1];
      assert last in es;
      match last {
        case Star =>
        case Include(v) => assert Includes(es)[|Includes(es)| - 1] == v;
        case Exclude(v) => assert Excludes(es)[|Excludes(es)| - 1] == v;
      }
    }
  }
}
