/** All combinations of the values of the options that vary, in the order of their names, and what they are called. */
module TestVariations {
  import opened Options
  import opened TestConfigurations

  /** An option that varies, with its values. */
  datatype OptionEntry = OptionEntry(key: string, values: seq<string>)

  /** One value for each option, in the order in which they were put in. */
  type Config = seq<(string, string)>

  // ---- products ----

  function Prefixed(c: Config, cs: seq<Config>): (r: seq<Config>)
    ensures |r| == |cs|
  {
    seq(|cs|, i requires 0 <= i < |cs| => c + cs[i])
  }

  /** Each value in turn in front of each of the configurations. */
  function ForValues(key: string, vs: seq<string>, cs: seq<Config>): seq<Config> {
    if vs == [] then [] else ForValues(key, vs[..|vs| - 1], cs) + Prefixed([(key, vs[|vs| - 1])], cs)
  }

  function Product(es: seq<OptionEntry>): seq<Config> {
    if es == [] then [[]] else ForValues(es[0].key, es[0].values, Product(es[1..]))
  }

  function Lengths(es: seq<OptionEntry>): nat {
    if es == [] then 1 else |es[0].values| * Lengths(es[1..])
  }

  lemma {:induction false} ForValuesCount(key: string, vs: seq<string>, cs: seq<Config>)
    ensures |ForValues(key, vs, cs)| == |vs| * |cs|
  {
    if vs != [] {
      ForValuesCount(key, vs[..|vs| - 1], cs);
      assert |vs| * |cs| == (|vs| - 1) * |cs| + |cs|;
    }
  }

  /** As many configurations as the product of the numbers of values. */
  lemma {:induction false} ProductCount(es: seq<OptionEntry>)
    ensures |Product(es)| == Lengths(es)
  {
    if es != [] {
      ProductCount(es[1..]);
      ForValuesCount(es[0].key, es[0].values, Product(es[1..]));
    }
  }

  /** A configuration that takes, for each option, one of its values. */
  predicate Chooses(es: seq<OptionEntry>, c: Config) {
    |c| == |es| && forall i | 0 <= i < |es| :: c[i].0 == es[i].key && c[i].1 in es[i].values
  }

  lemma {:induction false} InForValues(key: string, vs: seq<string>, cs: seq<Config>, c: Config)
    ensures c in ForValues(key, vs, cs) <==> c != [] && c[0].0 == key && c[0].1 in vs && c[1..] in cs
  {
    if vs != [] {
      var before, last := vs[..|vs| - 1], vs[|vs| - 1];
      InForValues(key, before, cs, c);
      assert vs == before + [last];
      InPrefixed((key, last), cs, c);
      assert c != [] && c[0] == (key, last) <==> c != [] && c[0].0 == key && c[0].1 == last;
    }
  }

  lemma InPrefixed(p: (string, string), cs: seq<Config>, c: Config)
    ensures c in Prefixed([p], cs) <==> c != [] && c[0] == p && c[1..] in cs
  {
    var r := Prefixed([p], cs);
    if c in r {
      var i :| 0 <= i < |r| && r[i] == c;
      assert c[1..] == cs[i];
    }
    if c != [] && c[0] == p && c[1..] in cs {
      var i :| 0 <= i < |cs| && cs[i] == c[1..];
      assert r[i] == c;
    }
  }

  /** The configurations are exactly the Cartesian product of the value lists. */
  lemma {:induction false} ProductIsCartesian(es: seq<OptionEntry>, c: Config)
    ensures c in Product(es) <==> Chooses(es, c)
    decreases |es|
  {
    if es != [] {
      InForValues(es[0].key, es[0].values, Product(es[1..]), c);
      if c != [] {
        ProductIsCartesian(es[1..], c[1..]);
        if Chooses(es, c) {
          assert Chooses(es[1..], c[1..]);
        }
        if c[0].0 == es[0].key && c[0].1 in es[0].values && Chooses(es[1..], c[1..]) {
          forall i | 0 <= i < |es| ensures c[i].0 == es[i].key && c[i].1 in es[i].values {
            assert i > 0 ==> c[i] == c[1..][i - 1] && es[i] == es[1..][i - 1];
          }
        }
      }
    }
  }

  predicate AllDifferent<T(==)>(xs: seq<T>) {
    forall i, j | 0 <= i < j < |xs| :: xs[i] != xs[j]
  }

  lemma {:induction false} ForValuesDifferent(key: string, vs: seq<string>, cs: seq<Config>)
    requires AllDifferent(vs) && AllDifferent(cs)
    ensures AllDifferent(ForValues(key, vs, cs))
  {
    if vs != [] {
      var before, last := vs[..|vs| - 1], vs[|vs| - 1];
      ForValuesDifferent(key, before, cs);
      var a, b := ForValues(key, before, cs), Prefixed([(key, last)], cs);
      forall i, j | 0 <= i < j < |a + b| ensures (a + b)[i] != (a + b)[j] {
        if i < |a| <= j {
          assert a[i] in a;
          InForValues(key, before, cs, a[i]);
          assert b[j - |a|][0] == (key, last);
        } else if |a| <= i {
          assert b[i - |a|][1..] == cs[i - |a|] && b[j - |a|][1..] == cs[j - |a|];
        }
      }
    }
  }

  /** No configuration occurs twice. */
  lemma {:induction false} ProductDifferent(es: seq<OptionEntry>)
    requires forall e | e in es :: AllDifferent(e.values)
    ensures AllDifferent(Product(es))
  {
    if es != [] {
      ProductDifferent(es[1..]);
      ForValuesDifferent(es[0].key, es[0].values, Product(es[1..]));
    }
  }

  lemma {:induction false} PrefixedTwice(c: Config, d: Config, cs: seq<Config>)
    ensures Prefixed(c, Prefixed(d, cs)) == Prefixed(c + d, cs)
  {
    forall i | 0 <= i < |cs| ensures c + (d + cs[i]) == c + d + cs[i] {
    }
  }

  lemma PrefixedConcat(c: Config, a: seq<Config>, b: seq<Config>)
    ensures Prefixed(c, a + b) == Prefixed(c, a) + Prefixed(c, b)
  {
  }

  /** Extends the configuration built so far by each value of the next option in turn; appends the finished ones. */
  method ComputeConfigVariations(es: seq<OptionEntry>, index: nat, current: Config, out: seq<Config>)
    returns (r: seq<Config>)
    requires index <= |es|
    ensures r == out + Prefixed(current, Product(es[index..]))
    decreases |es| - index
  {
    r := out;
    if index >= |es| {
      r := r + [current];
      assert current + [] == current;
      assert es[index..] == [] && Prefixed(current, [[]]) == [current];
      return;
    }
    var entry := es[index];
    ghost var rest := Product(es[index + 1..]);
    var i := 0;
    assert Prefixed(current, []) == [];
    while i < |entry.values|
      invariant 0 <= i <= |entry.values|
      invariant r == out + Prefixed(current, ForValues(entry.key, entry.values[..i], rest))
    {
      ghost var r1 := r;
      var next := current + [(entry.key, entry.values[i])];
      r := ComputeConfigVariations(es, index + 1, next, r);
      assert entry.values[..i + 1][..i] == entry.values[..i];
      PrefixedTwice(current, [(entry.key, entry.values[i])], rest);
      PrefixedConcat(current, ForValues(entry.key, entry.values[..i], rest),
                     Prefixed([(entry.key, entry.values[i])], rest));
      i := i + 1;
    }
    assert entry.values[..i] == entry.values;
    assert es[index..][1..] == es[index + 1..];
  }

  // ---- names ----

  function JoinCommas(parts: seq<string>): string {
    if parts == [] then ""
    else if |parts| == 1 then parts[0]
    else parts[0] + "," + JoinCommas(parts[1..])
  }

  function Part(p: (string, string)): string {
    p.0 + "=" + Lower(p.1)
  }

  function Parts(c: Config): (ps: seq<string>)
    ensures |ps| == |c|
  {
    seq(|c|, i requires 0 <= i < |c| => Part(c[i]))
  }

  function Describe(c: Config): string {
    JoinCommas(Parts(c))
  }

  lemma NoCommaBefore(q: string, y: string)
    requires NoComma(q)
    ensures forall k | 0 <= k < |q| :: (q + "," + y)[k] != ','
  {
    assert forall k | 0 <= k < |q| :: (q + "," + y)[k] == q[k];
  }

  lemma FirstComma(p: string, q: string, x: string, y: string)
    requires NoComma(p) && NoComma(q) && p + "," + x == q + "," + y
    ensures p == q && x == y
  {
    var l, r := p + "," + x, q + "," + y;
    NoCommaBefore(p, x);
    NoCommaBefore(q, y);
    assert l[|p|] == ',' && r[|q|] == ',';
    assert |p| == |q|;
    assert l[..|p|] == p && r[..|q|] == q;
    assert l[|p| + 1..] == x && r[|q| + 1..] == y;
  }

  lemma {:induction false} JoinInjective(ps: seq<string>, qs: seq<string>)
    requires |ps| == |qs| && JoinCommas(ps) == JoinCommas(qs)
    requires forall i | 0 <= i < |ps| :: NoComma(ps[i]) && NoComma(qs[i])
    ensures ps == qs
    decreases |ps|
  {
    if |ps| == 1 {
      assert ps == [ps[0]] && qs == [qs[0]];
    } else if |ps| > 1 {
      FirstComma(ps[0], qs[0], JoinCommas(ps[1..]), JoinCommas(qs[1..]));
      JoinInjective(ps[1..], qs[1..]);
      assert ps == [ps[0]] + ps[1..] && qs == [qs[0]] + qs[1..];
    }
  }

  /** Values that a name can tell apart: without commas, and different also in lower case. */
  predicate Nameable(e: OptionEntry) {
    && NoComma(e.key)
    && (forall v | v in e.values :: NoComma(v))
    && (forall i, j | 0 <= i < j < |e.values| :: Lower(e.values[i]) != Lower(e.values[j]))
  }

  lemma LowerNoComma(v: string)
    requires NoComma(v)
    ensures NoComma(Lower(v))
  {
    forall i | 0 <= i < |v| ensures Lower(v)[i] != ',' {
      assert v[i] in v;
    }
  }

  lemma PartNoComma(e: OptionEntry, p: (string, string))
    requires Nameable(e) && p.0 == e.key && p.1 in e.values
    ensures NoComma(Part(p))
  {
    LowerNoComma(p.1);
  }

  lemma SamePart(e: OptionEntry, p: (string, string), q: (string, string))
    requires Nameable(e) && p.0 == e.key == q.0 && p.1 in e.values && q.1 in e.values && Part(p) == Part(q)
    ensures p == q
  {
    var n := |e.key| + 1;
    assert Part(p)[n..] == Lower(p.1) && Part(q)[n..] == Lower(q.1);
    var i :| 0 <= i < |e.values| && e.values[i] == p.1;
    var j :| 0 <= j < |e.values| && e.values[j] == q.1;
    assert i == j;
  }

  /** Different configurations have different names. */
  lemma NamesDiffer(es: seq<OptionEntry>, a: Config, b: Config)
    requires forall e | e in es :: Nameable(e)
    requires Chooses(es, a) && Chooses(es, b) && Describe(a) == Describe(b)
    ensures a == b
  {
    hide Nameable;
    forall i | 0 <= i < |es| ensures NoComma(Parts(a)[i]) && NoComma(Parts(b)[i]) {
      assert es[i] in es;
      PartNoComma(es[i], a[i]);
      PartNoComma(es[i], b[i]);
    }
    JoinInjective(Parts(a), Parts(b));
    forall i | 0 <= i < |es| ensures a[i] == b[i] {
      assert es[i] in es;
      assert Parts(a)[i] == Parts(b)[i];
      SamePart(es[i], a[i], b[i]);
    }
  }

  function Names(cs: seq<Config>): (r: seq<string>)
    ensures |r| == |cs|
  {
    seq(|cs|, i requires 0 <= i < |cs| => Describe(cs[i]))
  }

  lemma NameableDifferent(e: OptionEntry)
    requires Nameable(e)
    ensures AllDifferent(e.values)
  {
  }

  /** The names of all configurations are pairwise different. */
  lemma AllNamesDiffer(es: seq<OptionEntry>)
    requires forall e | e in es :: Nameable(e)
    ensures AllDifferent(Names(Product(es)))
  {
    hide Nameable, Describe;
    forall e | e in es ensures AllDifferent(e.values) {
      NameableDifferent(e);
    }
    ProductDifferent(es);
    var cs := Product(es);
    forall i, j | 0 <= i < j < |cs| ensures Names(cs)[i] != Names(cs)[j] {
      assert cs[i] in cs && cs[j] in cs;
      ProductIsCartesian(es, cs[i]);
      ProductIsCartesian(es, cs[j]);
      if Describe(cs[i]) == Describe(cs[j]) {
        NamesDiffer(es, cs[i], cs[j]);
      }
    }
  }

  // ---- sorting by name ----

  /** Character by character, the shorter first. */
  predicate Less(a: string, b: string) {
    if b == "" then false
    else if a == "" then true
    else if a[0] != b[0] then a[0] < b[0]
    else Less(a[1..], b[1..])
  }

  lemma {:induction false} LessTotal(a: string, b: string)
    ensures a == b || Less(a, b) || Less(b, a)
    ensures !(Less(a, b) && Less(b, a)) && !Less(a, a)
  {
    if a != "" && b != "" && a[0] == b[0] {
      LessTotal(a[1..], b[1..]);
      assert a == [a[0]] + a[1..] && b == [b[0]] + b[1..];
    }
    if a != "" {
      LessIrreflexive(a);
    }
  }

  lemma {:induction false} LessIrreflexive(a: string)
    ensures !Less(a, a)
  {
    if a != "" {
      LessIrreflexive(a[1..]);
    }
  }

  lemma {:induction false} LessTransitive(a: string, b: string, c: string)
    requires Less(a, b) && Less(b, c)
    ensures Less(a, c)
  {
    if a != "" && a[0] == b[0] == c[0] {
      LessTransitive(a[1..], b[1..], c[1..]);
    }
  }

  function Insert(e: OptionEntry, es: seq<OptionEntry>): seq<OptionEntry> {
    if es == [] then [e]
    else if Less(e.key, es[0].key) then [e] + es
    else [es[0]] + Insert(e, es[1..])
  }

  function Sort(es: seq<OptionEntry>): seq<OptionEntry> {
    if es == [] then [] else Insert(es[|es| - 1], Sort(es[..|es| - 1]))
  }

  predicate Sorted(es: seq<OptionEntry>) {
    forall i, j | 0 <= i < j < |es| :: Less(es[i].key, es[j].key)
  }

  lemma {:induction false} InsertMembers(e: OptionEntry, es: seq<OptionEntry>)
    ensures forall x :: x in Insert(e, es) <==> x == e || x in es
    ensures Lengths(Insert(e, es)) == |e.values| * Lengths(es)
  {
    if es != [] && !Less(e.key, es[0].key) {
      InsertMembers(e, es[1..]);
      assert es == [es[0]] + es[1..];
      var rest := Lengths(es[1..]);
      Swap(|es[0].values|, |e.values|, rest);
      assert Insert(e, es)[1..] == Insert(e, es[1..]);
    } else {
      assert ([e] + es)[1..] == es;
    }
  }

  lemma Swap(a: nat, b: nat, c: nat)
    ensures a * (b * c) == b * (a * c)
  {
  }

  lemma {:induction false} InsertSorted(e: OptionEntry, es: seq<OptionEntry>)
    requires Sorted(es) && forall x | x in es :: x.key != e.key
    ensures Sorted(Insert(e, es))
  {
    if es != [] {
      LessTotal(e.key, es[0].key);
      if Less(e.key, es[0].key) {
        forall j | 0 < j < |es| ensures Less(e.key, es[j].key) {
          LessTransitive(e.key, es[0].key, es[j].key);
        }
      } else {
        InsertSorted(e, es[1..]);
        InsertMembers(e, es[1..]);
        var tail := Insert(e, es[1..]);
        forall j | 0 <= j < |tail| ensures Less(es[0].key, tail[j].key) {
          assert tail[j] in tail;
          if tail[j] != e {
            var k :| 0 <= k < |es[1..]| && es[1..][k] == tail[j];
            assert es[k + 1] == tail[j];
          }
        }
      }
    }
  }

  predicate KeysDiffer(es: seq<OptionEntry>) {
    forall i, j | 0 <= i < j < |es| :: es[i].key != es[j].key
  }

  lemma {:induction false} SortSorts(es: seq<OptionEntry>)
    requires KeysDiffer(es)
    ensures Sorted(Sort(es)) && Lengths(Sort(es)) == LengthsMet(es)
    ensures forall x :: x in Sort(es) <==> x in es
  {
    if es != [] {
      var before, last := es[..|es| - 1], es[|es| - 1];
      SortSorts(before);
      assert es == before + [last];
      InsertMembers(last, Sort(before));
      InsertSorted(last, Sort(before));
    }
  }

  /** The product of the lengths, multiplied up in the order the options were met. */
  function LengthsMet(es: seq<OptionEntry>): nat {
    if es == [] then 1 else |es[|es| - 1].values| * LengthsMet(es[..|es| - 1])
  }

  /** Sorted lists of the same entries are the same list. */
  lemma {:induction false} SortedUnique(a: seq<OptionEntry>, b: seq<OptionEntry>)
    requires Sorted(a) && Sorted(b) && forall x :: x in a <==> x in b
    ensures a == b
    decreases |a|
  {
    EmptyTogether(a, b);
    if a != [] {
      assert a[0] in a && b[0] in b;
      FirstIsLeast(a, b[0]);
      FirstIsLeast(b, a[0]);
      LessTotal(a[0].key, b[0].key);
      assert a == [a[0]] + a[1..] && b == [b[0]] + b[1..];
      NotAgain(a);
      NotAgain(b);
      forall x ensures x in a[1..] <==> x in b[1..] {
        assert x in a <==> x in b;
      }
      SortedUnique(a[1..], b[1..]);
    }
  }

  lemma EmptyTogether(a: seq<OptionEntry>, b: seq<OptionEntry>)
    requires forall x :: x in a <==> x in b
    ensures a == [] <==> b == []
  {
    if a != [] {
      assert a[0] in a;
    }
    if b != [] {
      assert b[0] in b;
    }
  }

  lemma FirstIsLeast(a: seq<OptionEntry>, x: OptionEntry)
    requires Sorted(a) && x in a
    ensures a != [] && (x == a[0] || Less(a[0].key, x.key))
  {
    var i :| 0 <= i < |a| && a[i] == x;
  }

  lemma NotAgain(a: seq<OptionEntry>)
    requires Sorted(a) && a != []
    ensures a[0] !in a[1..]
  {
    LessIrreflexive(a[0].key);
  }

  // ---- the configurations of a test ----

  /** How each option reads its values, and which options may vary; the latter are named in lower case. */
  datatype Declarations = Declarations(decl: string -> OptionDecl, varyBy: set<string>)

  /** Options that may vary read their values without regard to case, and their values have no commas. */
  ghost predicate DeclarationsOk(d: Declarations) {
    forall k | Lower(k) in d.varyBy ::
      && (forall x, y | Lower(x) == Lower(y) :: d.decl(k).parse(x) == d.decl(k).parse(y))
      && (forall v | v in d.decl(k).all :: NoComma(v))
  }

  const MAX_VARIATIONS := 25

  predicate MayVary(d: Declarations, k: string) {
    Lower(k) in d.varyBy
  }

  function ValuesOf(d: Declarations, settings: map<string, string>, k: string): Option<seq<string>>
    requires k in settings
  {
    Values(d.decl(k), settings[k])
  }

  /** The entry of an option that varies: one with several values. */
  function EntriesMet(d: Declarations, settings: map<string, string>, order: seq<string>): seq<OptionEntry>
    requires forall k | k in order :: k in settings
  {
    if order == [] then []
    else
      var k := order[|order| - 1];
      var vs := ValuesOf(d, settings, k);
      EntriesMet(d, settings, order[..|order| - 1])
      + if MayVary(d, k) && vs.Some? && |vs.value| > 1 then [OptionEntry(k, vs.value)] else []
  }

  predicate Fails(d: Declarations, settings: map<string, string>, k: string)
    requires k in settings
  {
    MayVary(d, k) && ValuesOf(d, settings, k).None?
  }

  /** An option that does not vary but is there: it makes the one unnamed configuration. */
  predicate Fixed(d: Declarations, settings: map<string, string>, k: string)
    requires k in settings
  {
    !MayVary(d, k) || (ValuesOf(d, settings, k).Some? && |ValuesOf(d, settings, k).value| == 1)
  }

  /** The configurations; None when the build fails. `order` is the order in which the settings come out of their
    * table.
    */
  function Configurations(d: Declarations, settings: map<string, string>, order: seq<string>): Option<seq<string>>
    requires forall k | k in order :: k in settings
  {
    var es := EntriesMet(d, settings, order);
    if (exists k :: k in order && Fails(d, settings, k)) || LengthsMet(es) > MAX_VARIATIONS then None
    else if es != [] then Some(Names(Product(Sort(es))))
    else if exists k :: k in order && Fixed(d, settings, k) then Some([""])
    else Some([])
  }

  predicate Enumerates(order: seq<string>, settings: map<string, string>) {
    AllDifferent(order) && (forall k | k in order :: k in settings) && forall k | k in settings :: k in order
  }

  lemma {:induction false} EntryMet(d: Declarations, settings: map<string, string>, order: seq<string>, e: OptionEntry)
    requires forall k | k in order :: k in settings
    ensures e in EntriesMet(d, settings, order) <==>
              && e.key in order && MayVary(d, e.key) && |e.values| > 1
              && ValuesOf(d, settings, e.key) == Some(e.values)
  {
    hide Values;
    if order != [] {
      var before, last := order[..|order| - 1], order[|order| - 1];
      EntryMet(d, settings, before, e);
      assert order == before + [last];
    }
  }

  lemma {:induction false} EntriesMetDiffer(d: Declarations, settings: map<string, string>, order: seq<string>)
    requires forall k | k in order :: k in settings
    requires AllDifferent(order)
    ensures KeysDiffer(EntriesMet(d, settings, order))
  {
    hide Values;
    if order != [] {
      var before, last := order[..|order| - 1], order[|order| - 1];
      EntriesMetDiffer(d, settings, before);
      var es := EntriesMet(d, settings, before);
      forall i | 0 <= i < |es| ensures es[i].key != last {
        assert es[i] in es;
        EntryMet(d, settings, before, es[i]);
        var j :| 0 <= j < |before| && before[j] == es[i].key;
        assert order[j] != order[|order| - 1];
      }
    }
  }

  /** The configurations do not depend on the order in which the settings come out of their table. */
  lemma OrderIsIrrelevant(d: Declarations, settings: map<string, string>, order: seq<string>, order': seq<string>)
    requires Enumerates(order, settings) && Enumerates(order', settings)
    ensures Configurations(d, settings, order) == Configurations(d, settings, order')
  {
    hide Values, Sort, Product, Names, LengthsMet;
    var a, b := EntriesMet(d, settings, order), EntriesMet(d, settings, order');
    EntriesMetDiffer(d, settings, order);
    EntriesMetDiffer(d, settings, order');
    SortSorts(a);
    SortSorts(b);
    forall x ensures x in a <==> x in b {
      EntryMet(d, settings, order, x);
      EntryMet(d, settings, order', x);
    }
    EmptyTogether(a, b);
    SortedUnique(Sort(a), Sort(b));
    assert forall k :: k in order <==> k in order';
  }

  /** Values read from a text have no commas. */
  lemma {:induction false} SplitNoCommas(s: string)
    ensures SplitCommas(s) != [] && forall p | p in SplitCommas(s) :: NoComma(p)
  {
    if s != "" {
      SplitNoCommas(s[1..]);
      var rest := SplitCommas(s[1..]);
      assert rest[0] in rest && NoComma(rest[0]);
      forall p | p in SplitCommas(s) ensures NoComma(p) {
        if s[0] == ',' {
          assert p == "" || p in rest;
        } else {
          assert p == [s[0]] + rest[0] || p in rest;
        }
      }
    }
  }

  lemma {:induction false} TrimNoComma(s: string)
    requires NoComma(s)
    ensures NoComma(TrimStart(s)) && NoComma(TrimEnd(s)) && NoComma(TrimPlus(s))
    decreases |s|
  {
    if s != "" {
      assert forall c | c in s[1..] :: c in s;
      assert forall c | c in s[..|s| - 1] :: c in s;
      TrimNoComma(s[1..]);
      TrimNoComma(s[..|s| - 1]);
    }
  }

  lemma {:induction false} IncludesNoComma(parts: seq<string>)
    requires forall p | p in parts :: NoComma(p)
    ensures forall v | v in Includes(Classified(parts)) :: NoComma(v)
  {
    if parts != [] {
      var before, last := parts[..|parts| - 1], parts[|parts| - 1];
      assert parts == before + [last];
      IncludesNoComma(before);
      TrimNoComma(last);
      TrimNoComma(TrimStart(last));
      var entry := Trim(last);
      TrimNoComma(entry);
      var es := Classified(before);
      assert Classified(parts) == es + if entry == "" then [] else [Classify(entry)];
      assert es + [] == es;
      if entry != "" {
        EntryAdded(es, Classify(entry));
        assert forall v | v in Includes(Classified(parts)) :: v in Includes(es) || v == TrimPlus(entry);
      }
    }
  }

  /** The values of an option that may vary can be told apart in a name. */
  lemma ValuesNameable(d: Declarations, k: string, value: string, vs: seq<string>)
    requires DeclarationsOk(d) && MayVary(d, k) && NoComma(k) && Values(d.decl(k), value) == Some(vs)
    ensures Nameable(OptionEntry(k, vs))
  {
    hide Keep, Excluded, SplitCommas, Classified;
    var decl := d.decl(k);
    var es := Entries(value);
    SplitNoCommas(value);
    IncludesNoComma(SplitCommas(value));
    if es != [] {
      KeepMeaning(decl, Candidates(decl, es), Excluded(decl, es));
    }
  }

  /** The configurations of a test: as many as the product of the numbers of values, at most 25, and no two with one
    * name.
    */
  lemma ConfigurationsMeaning(d: Declarations, settings: map<string, string>, order: seq<string>)
    requires Enumerates(order, settings) && DeclarationsOk(d) && forall k | k in settings :: NoComma(k)
    ensures var r := Configurations(d, settings, order);
            var es := EntriesMet(d, settings, order);
            r.Some? ==>
              && AllDifferent(r.value) && |r.value| <= MAX_VARIATIONS
              && (es != [] ==> |r.value| == LengthsMet(es) && r.value == Names(Product(Sort(es))) && Sorted(Sort(es)))
              && (es == [] ==> r.value == [""] || r.value == [])
  {
    hide Values, Product, Names, LengthsMet, Nameable, DeclarationsOk, Sort;
    var es := EntriesMet(d, settings, order);
    EntriesMetDiffer(d, settings, order);
    SortSorts(es);
    forall e | e in Sort(es) ensures Nameable(e) {
      EntryMet(d, settings, order, e);
      ValuesNameable(d, e.key, settings[e.key], e.values);
    }
    AllNamesDiffer(Sort(es));
    ProductCount(Sort(es));
  }

  // ---- computing them ----

  method SortEntries(es: seq<OptionEntry>) returns (r: seq<OptionEntry>)
    ensures r == Sort(es)
  {
    r := [];
    var i := 0;
    while i < |es|
      invariant 0 <= i <= |es|
      invariant r == Sort(es[..i])
    {
      assert es[..i + 1][..i] == es[..i];
      r := Insert(es[i], r);
      i := i + 1;
    }
    assert es[..i] == es;
  }

  lemma {:induction false} LengthsMetGrow(d: Declarations, settings: map<string, string>, order: seq<string>, n: nat)
    requires n <= |order| && forall k | k in order :: k in settings
    ensures forall k | k in order[..n] :: k in settings
    ensures LengthsMet(EntriesMet(d, settings, order[..n])) <= LengthsMet(EntriesMet(d, settings, order))
    decreases |order| - n
  {
    hide Values;
    if n < |order| {
      LengthsMetGrow(d, settings, order, n + 1);
      assert order[..n + 1][..n] == order[..n];
      NextEntryMet(d, settings, order, n);
    } else {
      assert order[..n] == order;
    }
  }

  lemma NextEntryMet(d: Declarations, settings: map<string, string>, order: seq<string>, n: nat)
    requires n < |order| && forall k | k in order :: k in settings
    ensures forall k | k in order[..n] :: k in settings
    ensures forall k | k in order[..n + 1] :: k in settings
    ensures var es, k := EntriesMet(d, settings, order[..n]), order[n];
            var vs := ValuesOf(d, settings, k);
            if MayVary(d, k) && vs.Some? && |vs.value| > 1
            then && EntriesMet(d, settings, order[..n + 1]) == es + [OptionEntry(k, vs.value)]
                 && LengthsMet(EntriesMet(d, settings, order[..n + 1])) == LengthsMet(es) * |vs.value|
                 && LengthsMet(es) * |vs.value| >= LengthsMet(es)
            else EntriesMet(d, settings, order[..n + 1]) == es
  {
    hide Values;
    assert forall k | k in order[..n + 1] :: k in order;
    assert forall k | k in order[..n] :: k in order;
    var es, k := EntriesMet(d, settings, order[..n]), order[n];
    assert order[..n + 1][..n] == order[..n];
    var vs := ValuesOf(d, settings, k);
    if MayVary(d, k) && vs.Some? && |vs.value| > 1 {
      var e := OptionEntry(k, vs.value);
      assert (es + [e])[..|es|] == es;
      AtLeastOnce(LengthsMet(es), |vs.value|);
    }
  }

  lemma AtLeastOnce(a: nat, b: nat)
    requires b > 0
    ensures a * b >= a && a * b == b * a
  {
  }

  method FileBasedTestConfigurations(d: Declarations, settings: map<string, string>, order: seq<string>)
    returns (r: Option<seq<string>>)
    requires Enumerates(order, settings)
    ensures r == Configurations(d, settings, order)
  {
    hide Values, Sort, Product, Names, EntriesMet, LengthsMet;
    var entries: seq<OptionEntry> := [];
    var variationCount := 1;
    var fixed := false;
    var i := 0;
    NoneMet(d, settings, order);
    while i < |order|
      invariant 0 <= i <= |order|
      invariant forall k | k in order[..i] :: k in settings && !Fails(d, settings, k)
      invariant entries == EntriesMet(d, settings, order[..i])
      invariant variationCount == LengthsMet(entries) <= MAX_VARIATIONS
      invariant fixed <==> exists k :: k in order[..i] && Fixed(d, settings, k)
    {
      var option := order[i];
      assert order[..i + 1] == order[..i] + [option];
      assert option in order;
      NextEntryMet(d, settings, order, i);
      LengthsMetGrow(d, settings, order, i + 1);
      if Lower(option) in d.varyBy {
        var values := SplitOptionValues(d.decl(option), settings[option]);
        if values.None? {
          assert Fails(d, settings, option);
          return None;
        }
        if |values.value| > 1 {
          variationCount := variationCount * |values.value|;
          if variationCount > MAX_VARIATIONS {
            return None;
          }
          entries := entries + [OptionEntry(option, values.value)];
        } else if |values.value| == 1 {
          fixed := true;
          assert Fixed(d, settings, option);
        }
      } else {
        fixed := true;
        assert Fixed(d, settings, option);
      }
      i := i + 1;
    }
    assert order[..i] == order;
    if entries != [] {
      var sorted := SortEntries(entries);
      var variations := ComputeConfigVariations(sorted, 0, [], []);
      assert sorted[0..] == sorted;
      PrefixedNone(Product(sorted));
      var names: seq<string> := [];
      while |names| < |variations|
        invariant |names| <= |variations|
        invariant forall k | 0 <= k < |names| :: names[k] == Describe(variations[k])
      {
        names := names + [Describe(variations[|names|])];
      }
      NamesAre(variations, names);
      return Some(names);
    }
    r := if fixed then Some([""]) else Some([]);
  }

  lemma NoneMet(d: Declarations, settings: map<string, string>, order: seq<string>)
    ensures order[..0] == [] && EntriesMet(d, settings, []) == [] && LengthsMet([]) == 1
  {
  }

  lemma PrefixedNone(cs: seq<Config>)
    ensures [] + Prefixed([], cs) == cs
  {
    forall i | 0 <= i < |cs| ensures Prefixed([], cs)[i] == cs[i] {
      assert [] + cs[i] == cs[i];
    }
  }

  lemma NamesAre(cs: seq<Config>, names: seq<string>)
    requires |names| == |cs| && forall k | 0 <= k < |names| :: names[k] == Describe(cs[k])
    ensures names == Names(cs)
  {
  }
}
