/** What a deep clone is: the tree a clone unfolds to, and what the clone recorder holds afterwards. */
module AstClones {
  import opened Options
  import opened AstStores

  /** For each child a field contributes: is it the last element of a list with a trailing comma? */
  function ShapeCommas(sh: Shape): seq<bool> {
    match sh
    case NodeShape(c) => if c.Some? then [false] else []
    case ListShape(l) => ListCommas(l)
    case ModifiersShape(m, _, _) => ListCommas(m)
    case RawShape(None) => []
    case RawShape(Some(slots)) => Never(CountTrue(slots))
  }

  function ListCommas(l: Option<ListInfo>): seq<bool> {
    if l.None? then [] else LastOnly(l.value.count, l.value.trailingComma)
  }

  function LastOnly(n: nat, b: bool): seq<bool> {
    seq(n, i => b && i == n - 1)
  }

  function Never(n: nat): seq<bool> {
    seq(n, _ => false)
  }

  function CountTrue(bs: seq<bool>): nat {
    if bs == [] then 0 else CountTrue(bs[..|bs| - 1]) + if bs[|bs| - 1] then 1 else 0
  }

  function Commas(shs: seq<Shape>): seq<bool> {
    if shs == [] then [] else Commas(shs[..|shs| - 1]) + ShapeCommas(shs[|shs| - 1])
  }

  function Relocated(loc: TextRange, synthetic: bool): TextRange {
    if synthetic then UNDEFINED_RANGE else loc
  }

  /** The kind the constructor of a node's payload gives it. Two kinds share a payload type with another kind, and
    * the constructor used for a clone is the one of the other kind.
    */
  function ClonedKind(k: Kind): Kind {
    if k == KIND_JS_TYPE_ALIAS_DECLARATION then KIND_TYPE_ALIAS_DECLARATION
    else if k == KIND_JS_IMPORT_DECLARATION then KIND_IMPORT_DECLARATION
    else k
  }

  function ClonedKinds(ks: seq<Kind>): seq<Kind> {
    seq(|ks|, i requires 0 <= i < |ks| => ClonedKind(ks[i]))
  }

  /** The modifier flags that `flagOf` assigns to the kinds of a modifier list. */
  function ModifiersToFlags(flagOf: Kind -> Flags, kinds: seq<Kind>): Flags {
    if kinds == [] then {} else ModifiersToFlags(flagOf, kinds[..|kinds| - 1]) + flagOf(kinds[|kinds| - 1])
  }

  /** A cloned list is never a missing list; only node lists keep the trailing comma. */
  function CloneInfo(l: ListInfo, synthetic: bool, keepComma: bool): ListInfo {
    ListInfo(Relocated(l.loc, synthetic), Relocated(l.range, synthetic), l.count, false,
             keepComma && l.trailingComma)
  }

  function CloneShape(sh: Shape, synthetic: bool, flagOf: Kind -> Flags): Shape {
    match sh
    case NodeShape(None) => NodeShape(None)
    case NodeShape(Some(k)) => NodeShape(Some(ClonedKind(k)))
    case ListShape(None) => ListShape(None)
    case ListShape(Some(l)) => ListShape(Some(CloneInfo(l, synthetic, true)))
    case ModifiersShape(None, _, _) => ModifiersShape(None, {}, [])
    case ModifiersShape(Some(m), _, kinds) =>
      var kinds' := ClonedKinds(kinds);
      ModifiersShape(Some(CloneInfo(m, synthetic, false)), ModifiersToFlags(flagOf, kinds'), kinds')
    case RawShape(slots) => RawShape(slots)
  }

  function CloneShapes(shs: seq<Shape>, synthetic: bool, flagOf: Kind -> Flags): seq<Shape> {
    seq(|shs|, i requires 0 <= i < |shs| => CloneShape(shs[i], synthetic, flagOf))
  }

  /** Where a clone stands: its own place, nowhere, or the mark a trailing comma leaves. */
  function CloneLoc(loc: TextRange, synthetic: bool, comma: bool): TextRange {
    if !synthetic then loc else if comma then TRAILING_COMMA_RANGE else UNDEFINED_RANGE
  }

  function CloneHead(h: Head, synthetic: bool, comma: bool, flagOf: Kind -> Flags): Head {
    Head(ClonedKind(h.kind), h.flags, CloneLoc(h.loc, synthetic, comma), h.tag, h.data, NoCaches,
         CloneShapes(h.shapes, synthetic, flagOf))
  }

  // ---- references held in source file metadata ----

  ghost predicate RefClones(t: Tree, ct: Tree, r: Node, r': Node) {
    if r == t.node then r' == ct.node else CorrForest(t.kids, ct.kids, r, r')
  }

  ghost predicate SeqRefClones(t: Tree, ct: Tree, rs: seq<Node>, rs': seq<Node>) {
    |rs| == |rs'| && forall i | 0 <= i < |rs| :: RefClones(t, ct, rs[i], rs'[i])
  }

  ghost predicate OptRefClones(t: Tree, ct: Tree, r: Option<Node>, r': Option<Node>) {
    r.Some? == r'.Some? && (r.Some? ==> RefClones(t, ct, r.value, r'.value))
  }

  ghost predicate AllRefsClone(t: Tree, ct: Tree) {
    && SeqRefClones(t, ct, t.refs.imports, ct.refs.imports)
    && SeqRefClones(t, ct, t.refs.augmentations, ct.refs.augmentations)
    && OptRefClones(t, ct, t.refs.commonJs, ct.refs.commonJs)
    && OptRefClones(t, ct, t.refs.external, ct.refs.external)
  }

  /** Imports and augmentations lie below the file; an indicator may also be the file itself. */
  ghost predicate RefsInside(t: Tree) {
    && (forall r | r in t.refs.imports :: r != t.node && InForest(t.kids, r))
    && (forall r | r in t.refs.augmentations :: r != t.node && InForest(t.kids, r))
    && (t.refs.commonJs.Some? ==> t.refs.commonJs.value == t.node || InForest(t.kids, t.refs.commonJs.value))
    && (t.refs.external.Some? ==> t.refs.external.value == t.node || InForest(t.kids, t.refs.external.value))
  }

  /** Every source file inside the tree refers only to itself and to its own descendants. */
  ghost predicate SelfContained(t: Tree)
    decreases t
  {
    RefsInside(t) && forall i | 0 <= i < |t.kids| :: SelfContained(t.kids[i])
  }

  ghost predicate AllSelfContained(ts: seq<Tree>) {
    forall i | 0 <= i < |ts| :: SelfContained(ts[i])
  }

  // ---- the clone of a tree ----

  /** `ct` is what cloning `t` must unfold to: same kinds (but for the two that lose theirs), flags, data and child
    * order at every position.
    */
  ghost predicate ClonesTo(t: Tree, ct: Tree, synthetic: bool, comma: bool, flagOf: Kind -> Flags)
    decreases t
  {
    var commas := Commas(t.head.shapes);
    && ct.head == CloneHead(t.head, synthetic, comma, flagOf)
    && AllRefsClone(t, ct)
    && |t.kids| == |ct.kids| == |commas|
    && forall i | 0 <= i < |t.kids| :: ClonesTo(t.kids[i], ct.kids[i], synthetic, commas[i], flagOf)
  }

  /** `ct` is a clone of `t` as far as its head and its children go. */
  ghost predicate KidsClone(t: Tree, ct: Tree, synthetic: bool, comma: bool, flagOf: Kind -> Flags) {
    var commas := Commas(t.head.shapes);
    && ct.head == CloneHead(t.head, synthetic, comma, flagOf)
    && |t.kids| == |ct.kids| == |commas|
    && forall i | 0 <= i < |t.kids| :: ClonesTo(t.kids[i], ct.kids[i], synthetic, commas[i], flagOf)
  }

  /** `ct` stands in store `s`, was allocated at or after index `lo`, and is a clone of `t`. */
  ghost predicate TreeCloned(lo: nat, s: AstStore, t: Tree, ct: Tree, comma: bool, synthetic: bool,
                             flagOf: Kind -> Flags)
  {
    && Unfolds(s, ct)
    && IdsFrom(ct, lo)
    && ClonesTo(t, ct, synthetic, comma, flagOf)
  }

  /** Store `s1` grew out of `s0` and now also holds fresh clones `cts` of the forest `ts`. */
  ghost predicate ForestCloned(s0: AstStore, s1: AstStore, ts: seq<Tree>, cts: seq<Tree>, commas: seq<bool>,
                               synthetic: bool, flagOf: Kind -> Flags)
  {
    && Extends(s0, s1)
    && |ts| == |cts| == |commas|
    && forall i | 0 <= i < |ts| ::
         TreeCloned(|s0.nodes|, s1, ts[i], cts[i], commas[i], synthetic, flagOf)
  }

  lemma {:induction false} TreeClonedLater(lo: nat, lo': nat, s1: AstStore, s2: AstStore, t: Tree, ct: Tree,
                                           comma: bool, synthetic: bool, flagOf: Kind -> Flags)
    requires TreeCloned(lo, s1, t, ct, comma, synthetic, flagOf)
    requires Extends(s1, s2) && lo' <= lo
    ensures TreeCloned(lo', s2, t, ct, comma, synthetic, flagOf)
  {
    UnfoldsExtends(s1, s2, ct);
    IdsFromWeaken(ct, lo, lo');
  }

  lemma {:induction false} ForestClonedExtends(s0: AstStore, s1: AstStore, s2: AstStore, ts: seq<Tree>,
                                               cts: seq<Tree>, commas: seq<bool>, synthetic: bool,
                                               flagOf: Kind -> Flags)
    requires ForestCloned(s0, s1, ts, cts, commas, synthetic, flagOf) && Extends(s1, s2)
    ensures ForestCloned(s0, s2, ts, cts, commas, synthetic, flagOf)
  {
    forall i | 0 <= i < |ts|
      ensures TreeCloned(|s0.nodes|, s2, ts[i], cts[i], commas[i], synthetic, flagOf)
    {
      TreeClonedLater(|s0.nodes|, |s0.nodes|, s1, s2, ts[i], cts[i], commas[i], synthetic, flagOf);
    }
  }

  lemma {:induction false} ComposeMember(s0: AstStore, s1: AstStore, s2: AstStore, ts: seq<Tree>, cts: seq<Tree>,
                                         commas: seq<bool>, us: seq<Tree>, cus: seq<Tree>, commas': seq<bool>,
                                         synthetic: bool, flagOf: Kind -> Flags, i: nat)
    requires ForestCloned(s0, s1, ts, cts, commas, synthetic, flagOf)
    requires ForestCloned(s1, s2, us, cus, commas', synthetic, flagOf)
    requires i < |ts + us|
    ensures TreeCloned(|s0.nodes|, s2, (ts + us)[i], (cts + cus)[i], (commas + commas')[i], synthetic, flagOf)
  {
    hide TreeCloned;
    if i < |ts| {
      TreeClonedLater(|s0.nodes|, |s0.nodes|, s1, s2, ts[i], cts[i], commas[i], synthetic, flagOf);
    } else {
      var j := i - |ts|;
      TreeClonedLater(|s1.nodes|, |s0.nodes|, s2, s2, us[j], cus[j], commas'[j], synthetic, flagOf);
    }
  }

  lemma {:induction false} ForestClonedCompose(s0: AstStore, s1: AstStore, s2: AstStore, ts: seq<Tree>,
                                               cts: seq<Tree>, commas: seq<bool>, us: seq<Tree>, cus: seq<Tree>,
                                               commas': seq<bool>, synthetic: bool, flagOf: Kind -> Flags)
    requires ForestCloned(s0, s1, ts, cts, commas, synthetic, flagOf)
    requires ForestCloned(s1, s2, us, cus, commas', synthetic, flagOf)
    ensures ForestCloned(s0, s2, ts + us, cts + cus, commas + commas', synthetic, flagOf)
  {
    forall i: nat | i < |ts + us|
      ensures TreeCloned(|s0.nodes|, s2, (ts + us)[i], (cts + cus)[i], (commas + commas')[i], synthetic, flagOf)
    {
      ComposeMember(s0, s1, s2, ts, cts, commas, us, cus, commas', synthetic, flagOf, i);
    }
  }

  // ---- the clone recorder ----

  /** Cloning the forest `ts` of store `sid` into `cts` took the recorder from `r0` to `r1`: each node of the
    * forest is now mapped to the clone at one of its positions, and no other entry changed.
    */
  ghost predicate Recorded(r0: map<nat, Node>, r1: map<nat, Node>, sid: nat, ts: seq<Tree>, cts: seq<Tree>) {
    forall k: nat ::
      if InForest(ts, Node(sid, k))
      then k in r1 && CorrForest(ts, cts, Node(sid, k), r1[k])
      else (k in r1 <==> k in r0) && (k in r1 ==> r1[k] == r0[k])
  }

  ghost predicate RecorderStep(r0: Option<map<nat, Node>>, r1: Option<map<nat, Node>>, sid: nat,
                               ts: seq<Tree>, cts: seq<Tree>)
  {
    r0.Some? == r1.Some? && (r0.Some? ==> Recorded(r0.value, r1.value, sid, ts, cts))
  }

  lemma {:induction false} InForestSplit(ts: seq<Tree>, us: seq<Tree>, m: Node)
    ensures InForest(ts + us, m) <==> InForest(ts, m) || InForest(us, m)
  {
    if i :| 0 <= i < |ts| && InTree(ts[i], m) {
      assert InTree((ts + us)[i], m);
    }
    if i :| 0 <= i < |us| && InTree(us[i], m) {
      assert InTree((ts + us)[|ts| + i], m);
    }
  }

  lemma {:induction false} CorrForestSplit(ts: seq<Tree>, cts: seq<Tree>, us: seq<Tree>, cus: seq<Tree>, m: Node,
                                           c: Node)
    requires |ts| == |cts| && |us| == |cus|
    ensures CorrForest(ts + us, cts + cus, m, c) <==> CorrForest(ts, cts, m, c) || CorrForest(us, cus, m, c)
  {
    if i :| 0 <= i < |ts| && Corr(ts[i], cts[i], m, c) {
      assert Corr((ts + us)[i], (cts + cus)[i], m, c);
    }
    if i :| 0 <= i < |us| && Corr(us[i], cus[i], m, c) {
      assert Corr((ts + us)[|ts| + i], (cts + cus)[|ts| + i], m, c);
    }
  }

  lemma {:induction false} RecordedCompose(r0: map<nat, Node>, r1: map<nat, Node>, r2: map<nat, Node>, sid: nat,
                        ts: seq<Tree>, cts: seq<Tree>, us: seq<Tree>, cus: seq<Tree>)
    requires |ts| == |cts| && |us| == |cus|
    requires Recorded(r0, r1, sid, ts, cts) && Recorded(r1, r2, sid, us, cus)
    ensures Recorded(r0, r2, sid, ts + us, cts + cus)
  {
    forall k: nat
      ensures if InForest(ts + us, Node(sid, k))
              then k in r2 && CorrForest(ts + us, cts + cus, Node(sid, k), r2[k])
              else (k in r2 <==> k in r0) && (k in r2 ==> r2[k] == r0[k])
    {
      InForestSplit(ts, us, Node(sid, k));
      if k in r2 {
        CorrForestSplit(ts, cts, us, cus, Node(sid, k), r2[k]);
      }
    }
  }

  lemma {:induction false} RecorderStepCompose(r0: Option<map<nat, Node>>, r1: Option<map<nat, Node>>,
                                               r2: Option<map<nat, Node>>, sid: nat, ts: seq<Tree>, cts: seq<Tree>,
                                               us: seq<Tree>, cus: seq<Tree>)
    requires |ts| == |cts| && |us| == |cus|
    requires RecorderStep(r0, r1, sid, ts, cts) && RecorderStep(r1, r2, sid, us, cus)
    ensures RecorderStep(r0, r2, sid, ts + us, cts + cus)
  {
    if r0.Some? {
      RecordedCompose(r0.value, r1.value, r2.value, sid, ts, cts, us, cus);
    }
  }

  lemma {:induction false} RecorderStepNone(r: Option<map<nat, Node>>, sid: nat)
    ensures RecorderStep(r, r, sid, [], [])
  {
  }

  /** `u` and `cu` are the same child of `t` and `ct`. */
  ghost predicate KidPair(t: Tree, ct: Tree, u: Tree, cu: Tree)
    requires |t.kids| == |ct.kids|
  {
    exists p :: 0 <= p < |t.kids| && u == t.kids[p] && cu == ct.kids[p]
  }

  /** Recording a root after what lies below it: `extra` are the subtrees cloned for this root, and every other
    * child of the root is one of the trees already recorded.
    */
  lemma {:induction false} RecordRoot(r0: Option<map<nat, Node>>, r1: Option<map<nat, Node>>,
                                      r2: Option<map<nat, Node>>, sid: nat, all: seq<Tree>, call: seq<Tree>,
                                      extra: seq<Tree>, cextra: seq<Tree>, t: Tree, ct: Tree)
    requires |all| == |call| && |extra| == |cextra| && |t.kids| == |ct.kids|
    requires t.node.store == sid
    requires RecorderStep(r0, r1, sid, all + extra, call + cextra)
    requires r2.Some? == r1.Some? && (r1.Some? ==> r2.value == r1.value[t.node.id := ct.node])
    requires forall i | 0 <= i < |extra| :: KidPair(t, ct, extra[i], cextra[i])
    requires forall p | 0 <= p < |t.kids| :: t.kids[p] in extra || t.kids[p] in all
    ensures RecorderStep(r0, r2, sid, all + [t], call + [ct])
  {
    if r0.Some? {
      forall k: nat
        ensures if InForest(all + [t], Node(sid, k))
                then k in r2.value && CorrForest(all + [t], call + [ct], Node(sid, k), r2.value[k])
                else (k in r2.value <==> k in r0.value) && (k in r2.value ==> r2.value[k] == r0.value[k])
      {
        var m := Node(sid, k);
        InForestSplit(all, [t], m);
        InForestSplit(all, extra, m);
        InForestOne(t, m);
        if k == t.node.id {
          assert Corr(t, ct, m, ct.node);
          assert Corr((all + [t])[|all|], (call + [ct])[|call|], m, ct.node);
        } else {
          RootCovers(all, extra, t, m);
          if InForest(all + extra, m) {
            var c := r2.value[k];
            CorrForestSplit(all, call, extra, cextra, m, c);
            CorrForestSplit(all, call, [t], [ct], m, c);
            if CorrForest(extra, cextra, m, c) {
              var i :| 0 <= i < |extra| && Corr(extra[i], cextra[i], m, c);
              assert KidPair(t, ct, extra[i], cextra[i]);
              var p :| 0 <= p < |t.kids| && extra[i] == t.kids[p] && cextra[i] == ct.kids[p];
              assert Corr(t.kids[p], ct.kids[p], m, c);
              assert Corr([t][0], [ct][0], m, c);
            }
          }
          ExtraInside(all, extra, t, m, cextra, ct);
        }
      }
    }
  }

  lemma {:induction false} InForestOne(t: Tree, m: Node)
    ensures InForest([t], m) <==> InTree(t, m)
  {
    if InTree(t, m) {
      assert InTree([t][0], m);
    }
  }

  lemma {:induction false} RootCovers(all: seq<Tree>, extra: seq<Tree>, t: Tree, m: Node)
    requires forall p | 0 <= p < |t.kids| :: t.kids[p] in extra || t.kids[p] in all
    ensures InTree(t, m) && m != t.node ==> InForest(all, m) || InForest(extra, m)
  {
    if !InTree(t, m) || m == t.node {
      return;
    }
    var p :| 0 <= p < |t.kids| && InTree(t.kids[p], m);
    if t.kids[p] in extra {
      var i :| 0 <= i < |extra| && extra[i] == t.kids[p];
      assert InTree(extra[i], m);
    } else {
      var i :| 0 <= i < |all| && all[i] == t.kids[p];
      assert InTree(all[i], m);
    }
  }

  lemma {:induction false} ExtraInside(all: seq<Tree>, extra: seq<Tree>, t: Tree, m: Node, cextra: seq<Tree>, ct: Tree)
    requires |extra| == |cextra| && |t.kids| == |ct.kids|
    requires forall i | 0 <= i < |extra| :: KidPair(t, ct, extra[i], cextra[i])
    ensures InForest(extra, m) ==> InTree(t, m)
  {
    if InForest(extra, m) {
      var i :| 0 <= i < |extra| && InTree(extra[i], m);
      assert KidPair(t, ct, extra[i], cextra[i]);
      var p :| 0 <= p < |t.kids| && extra[i] == t.kids[p] && cextra[i] == ct.kids[p];
      assert InTree(t.kids[p], m);
    }
  }

  // ---- moving the last clone of a list to the trailing-comma mark ----

  function Relabeled(ct: Tree, loc: TextRange): Tree {
    ct.(head := ct.head.(loc := loc))
  }

  function WithLast(cts: seq<Tree>, loc: TextRange): seq<Tree>
    requires cts != []
  {
    cts[|cts| - 1 := Relabeled(cts[|cts| - 1], loc)]
  }

  lemma {:induction false} RefsRelabeled(t: Tree, ct: Tree, loc: TextRange)
    requires AllRefsClone(t, ct)
    ensures AllRefsClone(t, Relabeled(ct, loc))
  {
    var ct' := Relabeled(ct, loc);
    forall i | 0 <= i < |t.refs.imports| ensures RefClones(t, ct', t.refs.imports[i], ct'.refs.imports[i]) {
      assert RefClones(t, ct, t.refs.imports[i], ct.refs.imports[i]);
    }
    forall i | 0 <= i < |t.refs.augmentations|
      ensures RefClones(t, ct', t.refs.augmentations[i], ct'.refs.augmentations[i])
    {
      assert RefClones(t, ct, t.refs.augmentations[i], ct.refs.augmentations[i]);
    }
  }

  lemma {:induction false} CorrRelabeled(ts: seq<Tree>, cts: seq<Tree>, loc: TextRange, m: Node, c: Node)
    requires |ts| == |cts| && cts != []
    requires CorrForest(ts, cts, m, c)
    ensures CorrForest(ts, WithLast(cts, loc), m, c)
  {
    var i :| 0 <= i < |ts| && Corr(ts[i], cts[i], m, c);
    assert Corr(ts[i], WithLast(cts, loc)[i], m, c);
  }

  lemma {:induction false} RecorderRelabeled(r0: Option<map<nat, Node>>, r1: Option<map<nat, Node>>, sid: nat,
                          ts: seq<Tree>, cts: seq<Tree>, loc: TextRange)
    requires |ts| == |cts| && cts != []
    requires RecorderStep(r0, r1, sid, ts, cts)
    ensures RecorderStep(r0, r1, sid, ts, WithLast(cts, loc))
  {
    if r0.Some? {
      forall k: nat | InForest(ts, Node(sid, k))
        ensures k in r1.value && CorrForest(ts, WithLast(cts, loc), Node(sid, k), r1.value[k])
      {
        CorrRelabeled(ts, cts, loc, Node(sid, k), r1.value[k]);
      }
    }
  }

  /** Without synthetic locations the trailing comma plays no role in where a clone stands. */
  lemma {:induction false} CommaIrrelevant(lo: nat, s: AstStore, t: Tree, ct: Tree, comma: bool, comma': bool,
                                           flagOf: Kind -> Flags)
    requires TreeCloned(lo, s, t, ct, comma, false, flagOf)
    ensures TreeCloned(lo, s, t, ct, comma', false, flagOf)
  {
  }

  lemma {:induction false} LastRelocated(lo: nat, s1: AstStore, s2: AstStore, t: Tree, ct: Tree, flagOf: Kind -> Flags)
    requires TreeCloned(lo, s1, t, ct, false, true, flagOf)
    requires s2 == s1.(nodes := s1.nodes[ct.node.id := s1.nodes[ct.node.id].(loc := TRAILING_COMMA_RANGE)])
    ensures TreeCloned(lo, s2, t, Relabeled(ct, TRAILING_COMMA_RANGE), true, true, flagOf)
  {
    var ct' := Relabeled(ct, TRAILING_COMMA_RANGE);
    var h := s1.nodes[ct.node.id];
    var bound := ct.node.id;
    assert AgreesBelow(s1, s2, bound);
    KidsFrame(s1, s2, bound, h.payload.fields);
    ShapesFrame(s1, s2, bound, h.payload.fields);
    PayloadFrame(s1, s2, bound, h);
    forall i | 0 <= i < |ct'.kids| ensures Unfolds(s2, ct'.kids[i]) {
      IdsFromBelow(ct.kids[i], lo, bound);
      UnfoldsFrame(s1, s2, bound, ct.kids[i]);
    }
    assert Unfolds(s2, ct');
    RefsRelabeled(t, ct, TRAILING_COMMA_RANGE);
  }

  lemma {:induction false} SiblingKept(lo: nat, s1: AstStore, s2: AstStore, bound: nat, t: Tree, ct: Tree, comma: bool,
                    synthetic: bool, flagOf: Kind -> Flags)
    requires TreeCloned(lo, s1, t, ct, comma, synthetic, flagOf)
    requires AgreesBelow(s1, s2, bound) && ct.node.id < bound
    ensures TreeCloned(lo, s2, t, ct, comma, synthetic, flagOf)
  {
    IdsFromBelow(ct, lo, bound);
    UnfoldsFrame(s1, s2, bound, ct);
  }

  // ---- forests ----

  lemma {:induction false} ForestOfOne(s0: AstStore, s1: AstStore, t: Tree, ct: Tree, comma: bool, synthetic: bool,
                                       flagOf: Kind -> Flags)
    requires Extends(s0, s1) && TreeCloned(|s0.nodes|, s1, t, ct, comma, synthetic, flagOf)
    ensures ForestCloned(s0, s1, [t], [ct], [comma], synthetic, flagOf)
  {
  }

  lemma {:induction false} ForestOfNone(s: AstStore, synthetic: bool, flagOf: Kind -> Flags)
    ensures ForestCloned(s, s, [], [], Never(0), synthetic, flagOf)
  {
  }

  lemma {:induction false} ForestStep(s0: AstStore, s1: AstStore, s2: AstStore, ts: seq<Tree>, cts: seq<Tree>, ct: Tree,
                   synthetic: bool, flagOf: Kind -> Flags)
    requires |cts| < |ts|
    requires ForestCloned(s0, s1, ts[..|cts|], cts, Never(|cts|), synthetic, flagOf)
    requires Extends(s1, s2) && TreeCloned(|s1.nodes|, s2, ts[|cts|], ct, false, synthetic, flagOf)
    ensures ForestCloned(s0, s2, ts[..|cts| + 1], cts + [ct], Never(|cts| + 1), synthetic, flagOf)
  {
    var i := |cts|;
    ForestOfOne(s1, s2, ts[i], ct, false, synthetic, flagOf);
    ForestClonedCompose(s0, s1, s2, ts[..i], cts, Never(i), [ts[i]], [ct], [false], synthetic, flagOf);
    assert ts[..i] + [ts[i]] == ts[..i + 1];
    assert Never(i) + [false] == Never(i + 1);
  }

  lemma {:induction false} RecorderForestStep(r0: Option<map<nat, Node>>, r1: Option<map<nat, Node>>,
                                              r2: Option<map<nat, Node>>, sid: nat, ts: seq<Tree>, cts: seq<Tree>,
                                              ct: Tree)
    requires |cts| < |ts|
    requires RecorderStep(r0, r1, sid, ts[..|cts|], cts) && RecorderStep(r1, r2, sid, [ts[|cts|]], [ct])
    ensures RecorderStep(r0, r2, sid, ts[..|cts| + 1], cts + [ct])
  {
    var i := |cts|;
    RecorderStepCompose(r0, r1, r2, sid, ts[..i], cts, [ts[i]], [ct]);
    assert ts[..i] + [ts[i]] == ts[..i + 1];
  }

  lemma {:induction false} CountPresent(es: seq<Option<Node>>)
    ensures CountTrue(SlotsOf(es)) == |Present(es)|
  {
    if es != [] {
      CountPresent(es[..|es| - 1]);
      assert SlotsOf(es)[..|es| - 1] == SlotsOf(es[..|es| - 1]);
    }
  }

  /** A field contributes one comma mark per child. */
  lemma {:induction false} FieldCommas(s: AstStore, f: Field)
    requires FieldOk(s, f)
    ensures |ShapeCommas(ShapeOf(s, f))| == |FieldKids(s, f)|
  {
    if f.RawField? && f.slice.Some? {
      CountPresent(s.rawSlices[f.slice.value.idx]);
    }
  }

  lemma {:induction false} CommasSplit(a: seq<Shape>, sh: Shape)
    ensures Commas(a + [sh]) == Commas(a) + ShapeCommas(sh)
  {
    assert (a + [sh])[..|a|] == a;
  }

  lemma {:induction false} ForestNodes(s0: AstStore, s1: AstStore, ts: seq<Tree>, cts: seq<Tree>, commas: seq<bool>,
                    synthetic: bool, flagOf: Kind -> Flags)
    requires ForestCloned(s0, s1, ts, cts, commas, synthetic, flagOf)
    ensures Extends(s0, s1) && |ts| == |cts| == |commas|
    ensures forall i | 0 <= i < |cts| :: InStore(s1, cts[i].node) && |s0.nodes| <= cts[i].node.id
  {
    forall i | 0 <= i < |cts| ensures InStore(s1, cts[i].node) && |s0.nodes| <= cts[i].node.id {
      assert TreeCloned(|s0.nodes|, s1, ts[i], cts[i], commas[i], synthetic, flagOf);
    }
  }

  lemma {:induction false} ForestRelocated(s0: AstStore, s1: AstStore, s2: AstStore, ts: seq<Tree>, cts: seq<Tree>,
                                           flagOf: Kind -> Flags)
    requires ForestCloned(s0, s1, ts, cts, Never(|ts|), true, flagOf) && cts != []
    requires forall i | 0 <= i < |cts| - 1 :: cts[i].node.id < cts[|cts| - 1].node.id
    requires var k := cts[|cts| - 1].node.id;
             && k < |s1.nodes|
             && s2 == s1.(nodes := s1.nodes[k := s1.nodes[k].(loc := TRAILING_COMMA_RANGE)])
    ensures ForestCloned(s0, s2, ts, WithLast(cts, TRAILING_COMMA_RANGE), LastOnly(|ts|, true), true, flagOf)
  {
    hide TreeCloned;
    var last := |cts| - 1;
    var lo := |s0.nodes|;
    ForestNodes(s0, s1, ts, cts, Never(|ts|), true, flagOf);
    assert TreeCloned(lo, s1, ts[last], cts[last], Never(|ts|)[last], true, flagOf);
    LastRelocated(lo, s1, s2, ts[last], cts[last], flagOf);
    forall i | 0 <= i < last
      ensures TreeCloned(lo, s2, ts[i], cts[i], LastOnly(|ts|, true)[i], true, flagOf)
    {
      assert TreeCloned(lo, s1, ts[i], cts[i], Never(|ts|)[i], true, flagOf);
      SiblingKept(lo, s1, s2, cts[last].node.id, ts[i], cts[i], false, true, flagOf);
    }
  }

  lemma {:induction false} ForestCommas(s0: AstStore, s1: AstStore, ts: seq<Tree>, cts: seq<Tree>, commas: seq<bool>,
                     synthetic: bool, flagOf: Kind -> Flags)
    requires ForestCloned(s0, s1, ts, cts, Never(|ts|), synthetic, flagOf)
    requires |commas| == |ts| && (synthetic ==> commas == Never(|ts|))
    ensures ForestCloned(s0, s1, ts, cts, commas, synthetic, flagOf)
  {
    forall i | 0 <= i < |ts|
      ensures TreeCloned(|s0.nodes|, s1, ts[i], cts[i], commas[i], synthetic, flagOf)
    {
      assert TreeCloned(|s0.nodes|, s1, ts[i], cts[i], Never(|ts|)[i], synthetic, flagOf);
      if !synthetic {
        CommaIrrelevant(|s0.nodes|, s1, ts[i], cts[i], false, commas[i], flagOf);
      }
    }
  }
}
