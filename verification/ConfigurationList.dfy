/** What the configurations of a test are, without reference to how they are put together. */
module ConfigurationLists {
  import opened Options
  import opened TestConfigurations
  import opened TestVariations

  /** The value with its capital letters made small. */
  predicate SmallLetters(value: string, small: string) {
    && |small| == |value|
    && forall i | 0 <= i < |value| ::
         small[i] as int == value[i] as int + if 'A' <= value[i] <= 'Z' then 32 else 0
  }

  /** The text says key, equals sign and the value in small letters. */
  predicate SaysPart(text: string, p: (string, string)) {
    && |p.0| < |text| && text[..|p.0|] == p.0 && text[|p.0|] == '='
    && SmallLetters(p.1, text[|p.0| + 1..])
  }

  /** The name says all parts of the configuration, with commas between them. */
  predicate Says(name: string, c: Config, parts: seq<string>) {
    && JoinCommas(parts) == name && |parts| == |c|
    && forall i | 0 <= i < |c| :: SaysPart(parts[i], c[i])
  }

  /** Character by character, a text that has ended before all that go on. */
  ghost predicate Precedes(a: string, b: string) {
    exists k: nat ::
      && k <= |a| && k < |b| && a[..k] == b[..k]
      && (k == |a| || a[k] < b[k])
  }

  /** The choices agree before option `k`, where `a` takes the value at `va` and `b` a later one. */
  predicate Earlier(es: seq<OptionEntry>, a: Config, b: Config, k: nat, va: nat, vb: nat) {
    && |a| == |b| == |es| && k < |es| && a[..k] == b[..k]
    && va < vb < |es[k].values| && a[k].1 == es[k].values[va] && b[k].1 == es[k].values[vb]
  }

  ghost predicate ComesBefore(es: seq<OptionEntry>, a: Config, b: Config) {
    exists k: nat, va: nat, vb: nat :: Earlier(es, a, b, k, va, vb)
  }

  ghost predicate InOrder(es: seq<OptionEntry>, cs: seq<Config>) {
    forall i, j | 0 <= i < j < |cs| :: ComesBefore(es, cs[i], cs[j])
  }

  // ---- the order of the keys ----

  lemma {:induction false} LessPrecedes(a: string, b: string)
    requires Less(a, b)
    ensures Precedes(a, b)
    decreases |b|
  {
    if a == "" || a[0] != b[0] {
      assert a[..0] == b[..0];
    } else {
      LessPrecedes(a[1..], b[1..]);
      var k: nat :| k <= |a[1..]| && k < |b[1..]| && a[1..][..k] == b[1..][..k]
                    && (k == |a[1..]| || a[1..][k] < b[1..][k]);
      assert a[..k + 1] == [a[0]] + a[1..][..k] && b[..k + 1] == [b[0]] + b[1..][..k];
      assert k + 1 == |a| || a[k + 1] < b[k + 1];
    }
  }

  // ---- the order of the configurations ----

  lemma {:induction false} ForValuesAt(key: string, vs: seq<string>, cs: seq<Config>, i: nat) returns (v: nat, c: nat)
    requires i < |ForValues(key, vs, cs)|
    ensures v < |vs| && c < |cs| && i == v * |cs| + c && ForValues(key, vs, cs)[i] == [(key, vs[v])] + cs[c]
    decreases |vs|
  {
    var n := |vs| - 1;
    ForValuesCount(key, vs[..n], cs);
    if i < |ForValues(key, vs[..n], cs)| {
      v, c := ForValuesAt(key, vs[..n], cs, i);
    } else {
      v, c := n, i - n * |cs|;
    }
  }

  lemma Grows(a: nat, b: nat, n: nat)
    requires a <= b
    ensures a * n <= b * n
  {
  }

  lemma PlacesOrdered(i: nat, j: nat, n: nat, v: nat, w: nat, c: nat, d: nat)
    requires i < j && i == v * n + c && j == w * n + d && c < n && d < n
    ensures v < w || (v == w && c < d)
  {
    assert w * n + n == (w + 1) * n;
    if w < v {
      Grows(w + 1, v, n);
    }
  }

  /** Configurations come in the order of the values of the first option in which they differ. */
  lemma {:induction false} ProductInOrder(es: seq<OptionEntry>)
    ensures InOrder(es, Product(es))
    decreases |es|
  {
    hide ForValues, Earlier;
    if es != [] {
      ProductInOrder(es[1..]);
      var cs, rest := Product(es), Product(es[1..]);
      forall i, j | 0 <= i < j < |cs| ensures ComesBefore(es, cs[i], cs[j]) {
        var v, c := ForValuesAt(es[0].key, es[0].values, rest, i);
        var w, d := ForValuesAt(es[0].key, es[0].values, rest, j);
        PlacesOrdered(i, j, |rest|, v, w, c, d);
        assert rest[c] in rest && rest[d] in rest;
        ProductIsCartesian(es[1..], rest[c]);
        ProductIsCartesian(es[1..], rest[d]);
        if v < w {
          EarlierFirst(es, rest[c], rest[d], v, w);
          assert Earlier(es, cs[i], cs[j], 0, v, w);
        } else {
          var k: nat, va: nat, vb: nat :| Earlier(es[1..], rest[c], rest[d], k, va, vb);
          EarlierLater(es, rest[c], rest[d], v, k, va, vb);
          assert Earlier(es, cs[i], cs[j], k + 1, va, vb);
        }
      }
    } else {
      assert |Product(es)| == 1;
    }
  }

  lemma EarlierFirst(es: seq<OptionEntry>, a: Config, b: Config, v: nat, w: nat)
    requires es != [] && |a| == |b| == |es| - 1 && v < w < |es[0].values|
    ensures Earlier(es, [(es[0].key, es[0].values[v])] + a, [(es[0].key, es[0].values[w])] + b, 0, v, w)
  {
  }

  lemma EarlierLater(es: seq<OptionEntry>, a: Config, b: Config, v: nat, k: nat, va: nat, vb: nat)
    requires es != [] && v < |es[0].values| && Earlier(es[1..], a, b, k, va, vb)
    ensures var p := (es[0].key, es[0].values[v]); Earlier(es, [p] + a, [p] + b, k + 1, va, vb)
  {
    var p := (es[0].key, es[0].values[v]);
    assert ([p] + a)[..k + 1] == [p] + a[..k] && ([p] + b)[..k + 1] == [p] + b[..k];
  }

  // ---- the names ----

  lemma DescriptionSays(c: Config)
    ensures Says(Describe(c), c, Parts(c))
  {
    forall i | 0 <= i < |c| ensures SaysPart(Parts(c)[i], c[i]) {
      var text := Part(c[i]);
      assert text[..|c[i].0|] == c[i].0 && text[|c[i].0| + 1..] == Lower(c[i].1);
    }
  }

  // ---- the configurations ----

  /** The options that vary are those that may vary and are set to several values. */
  predicate IsVarying(d: Declarations, settings: map<string, string>, e: OptionEntry) {
    && e.key in settings && Lower(e.key) in d.varyBy && |e.values| > 1
    && Values(d.decl(e.key), settings[e.key]) == Some(e.values)
  }

  /** The configurations of a test are named after all choices of values for the options that vary, in the order of the
    * keys and values. A bad value of an option that may vary fails, as do more than 25 choices. If nothing varies there
    * is one unnamed configuration, or none if all settings are empty lists of values.
    */
  lemma ConfigurationsAre(d: Declarations, settings: map<string, string>, order: seq<string>)
    returns (es: seq<OptionEntry>, cs: seq<Config>)
    requires Enumerates(order, settings)
    ensures forall e :: e in es <==> IsVarying(d, settings, e)
    ensures forall i, j | 0 <= i < j < |es| :: Precedes(es[i].key, es[j].key)
    ensures InOrder(es, cs) && forall c :: c in cs <==> Chooses(es, c)
    ensures var r := Configurations(d, settings, order);
            && (r.None? <==>
                  || |cs| > 25
                  || exists k :: k in settings && Lower(k) in d.varyBy && Values(d.decl(k), settings[k]).None?)
            && (r.Some? && es != [] ==>
                  |r.value| == |cs| && forall i | 0 <= i < |cs| :: Says(r.value[i], cs[i], Parts(cs[i])))
            && (r.Some? && es == [] ==>
                  r.value ==
                  if exists k :: k in settings
                                 && (Lower(k) !in d.varyBy || |Values(d.decl(k), settings[k]).value| == 1)
                  then [""] else [])
  {
    hide Values, Product, Sort, LengthsMet, Says, InOrder, Chooses, Precedes, Less, EntriesMet, Parts;
    var met := EntriesMet(d, settings, order);
    EntriesMetDiffer(d, settings, order);
    SortSorts(met);
    es := Sort(met);
    cs := Product(es);
    forall e ensures e in es <==> IsVarying(d, settings, e) {
      EntryMet(d, settings, order, e);
    }
    forall i, j | 0 <= i < j < |es| ensures Precedes(es[i].key, es[j].key) {
      LessPrecedes(es[i].key, es[j].key);
    }
    ProductInOrder(es);
    ProductCount(es);
    forall c ensures c in cs <==> Chooses(es, c) {
      ProductIsCartesian(es, c);
    }
    forall i | 0 <= i < |cs| ensures Says(Names(cs)[i], cs[i], Parts(cs[i])) {
      DescriptionSays(cs[i]);
    }
    EmptyTogether(met, es);
  }
}
