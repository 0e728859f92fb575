/** One step of a clone at a time: what appending a header, a list or a further child does to the clones made so far. */
module CloneSteps {
  import opened Options
  import opened AstStores
  import opened AstClones

  /** Where clones are read from: another store, or the very store being appended to. */
  datatype CloneSource = Current | Other(store: AstStore)

  function SetLocAt(s: AstStore, n: Node, loc: TextRange): AstStore
    requires InStore(s, n)
  {
    s.(nodes := s.nodes[n.id := s.nodes[n.id].(loc := loc)])
  }

  function SetFlagsAt(s: AstStore, n: Node, flags: Flags): AstStore
    requires InStore(s, n)
  {
    s.(nodes := s.nodes[n.id := s.nodes[n.id].(flags := flags)])
  }

  function Appended(s: AstStore, h: NodeHeader): AstStore {
    s.(nodes := s.nodes + [h])
  }

  function RecordedAs(r: Option<map<nat, Node>>, original: Node, cloned: Node): Option<map<nat, Node>> {
    if r.None? then None else Some(r.value[original.id := cloned])
  }

  function CloneHeader(t: Tree, fields: seq<Field>, refs: FileRefs, synthetic: bool): NodeHeader {
    NodeHeader(ClonedKind(t.head.kind), t.head.flags, Relocated(t.head.loc, synthetic),
               Payload(t.head.tag, t.head.data, NoCaches, fields, refs))
  }

  lemma {:induction false} ExtendsAgrees(s: AstStore, s': AstStore)
    requires Extends(s, s')
    ensures AgreesBelow(s, s', |s.nodes|)
  {
  }

  /** Fields already cloned into `s1`, plus a header that holds them, make a clone but for the references. */
  lemma {:induction false} OpenBuilt(s0: AstStore, s1: AstStore, src: AstStore, t: Tree, cts: seq<Tree>,
                                     fields: seq<Field>, refs: FileRefs, synthetic: bool, flagOf: Kind -> Flags)
    returns (ct: Tree)
    requires Unfolds(src, t)
    requires FieldsOk(s1, fields) && Kids(s1, fields) == Nodes(cts)
    requires Shapes(s1, fields) == CloneShapes(t.head.shapes, synthetic, flagOf)
    requires ForestCloned(s0, s1, t.kids, cts, Commas(t.head.shapes), synthetic, flagOf)
    requires !t.head.tag.SourceFileTag? ==> refs == NO_REFS
    ensures ct == Tree(Node(s1.id, |s1.nodes|), CloneHead(t.head, synthetic, false, flagOf), refs, cts)
    ensures var s2 := Appended(s1, CloneHeader(t, fields, refs, synthetic));
            && Extends(s0, s2) && Extends(s1, s2)
            && Unfolds(s2, ct) && IdsFrom(ct, |s0.nodes|) && KidsClone(t, ct, synthetic, false, flagOf)
  {
    var h := CloneHeader(t, fields, refs, synthetic);
    var s2 := Appended(s1, h);
    assert Extends(s1, s2);
    ExtendsAgrees(s1, s2);
    KidsFrame(s1, s2, |s1.nodes|, fields);
    ShapesFrame(s1, s2, |s1.nodes|, fields);
    ct := Tree(Node(s1.id, |s1.nodes|), CloneHead(t.head, synthetic, false, flagOf), refs, cts);
    BuiltPayload(src, t, s2, h, synthetic, flagOf);
    forall i | 0 <= i < |cts|
      ensures Unfolds(s2, cts[i]) && IdsFrom(cts[i], |s0.nodes|) && cts[i].node.id < |s1.nodes|
      ensures ClonesTo(t.kids[i], cts[i], synthetic, Commas(t.head.shapes)[i], flagOf)
    {
      assert TreeCloned(|s0.nodes|, s1, t.kids[i], cts[i], Commas(t.head.shapes)[i], synthetic, flagOf);
      UnfoldsExtends(s1, s2, cts[i]);
    }
  }

  lemma {:induction false} BuiltPayload(src: AstStore, t: Tree, s2: AstStore, h: NodeHeader, synthetic: bool,
                                        flagOf: Kind -> Flags)
    requires Unfolds(src, t)
    requires FieldsOk(s2, h.payload.fields)
    requires Shapes(s2, h.payload.fields) == CloneShapes(t.head.shapes, synthetic, flagOf)
    requires h.kind == ClonedKind(t.head.kind) && h.payload.tag == t.head.tag
    requires !t.head.tag.SourceFileTag? ==> h.payload.refs == NO_REFS
    ensures PayloadOk(s2, h)
  {
    hide Shapes, CloneShapes, PayloadOk, Kids;
    MatchedPayload(src, src.nodes[t.node.id], s2, h, synthetic, flagOf);
  }

  /** What a payload must be is about the shapes of its fields. */
  lemma {:induction false} MatchedPayload(src: AstStore, h: NodeHeader, s2: AstStore, ch: NodeHeader, synthetic: bool,
                                          flagOf: Kind -> Flags)
    requires PayloadOk(src, h) && FieldsOk(src, h.payload.fields) && FieldsOk(s2, ch.payload.fields)
    requires Shapes(s2, ch.payload.fields) == CloneShapes(Shapes(src, h.payload.fields), synthetic, flagOf)
    requires ch.kind == ClonedKind(h.kind) && ch.payload.tag == h.payload.tag
    requires !h.payload.tag.SourceFileTag? ==> ch.payload.refs == NO_REFS
    ensures PayloadOk(s2, ch)
  {
    var fs, vs := h.payload.fields, ch.payload.fields;
    ShapesMatch(src, s2, fs, vs, synthetic, flagOf);
    hide FieldsOk, Shapes, CloneShapes;
    forall i | 0 <= i < |fs|
      ensures vs[i].NodeField? == fs[i].NodeField? && vs[i].ModifiersField? == fs[i].ModifiersField?
      ensures vs[i].ListField? == fs[i].ListField?
      ensures fs[i].ListField? ==> vs[i].list.Some? == fs[i].list.Some?
      ensures fs[i].NodeField? && vs[i].node.Some? ==>
                fs[i].node.Some? && KindOf(s2, vs[i].node.value) == ClonedKind(KindOf(src, fs[i].node.value))
    {
      assert ShapeOf(s2, vs[i]) == CloneShape(ShapeOf(src, fs[i]), synthetic, flagOf);
    }
    hide ShapeOf, CloneShape, FieldOk;
  }

  lemma {:induction false} ShapesMatch(src: AstStore, s2: AstStore, fs: seq<Field>, vs: seq<Field>, synthetic: bool,
                                       flagOf: Kind -> Flags)
    requires FieldsOk(src, fs) && FieldsOk(s2, vs)
    requires Shapes(s2, vs) == CloneShapes(Shapes(src, fs), synthetic, flagOf)
    ensures |vs| == |fs|
    ensures forall i | 0 <= i < |fs| ::
              FieldOk(src, fs[i]) && FieldOk(s2, vs[i])
              && ShapeOf(s2, vs[i]) == CloneShape(ShapeOf(src, fs[i]), synthetic, flagOf)
  {
    hide FieldOk, ShapeOf, CloneShape;
    forall i | 0 <= i < |fs|
      ensures FieldOk(src, fs[i]) && FieldOk(s2, vs[i])
      ensures ShapeOf(s2, vs[i]) == CloneShape(ShapeOf(src, fs[i]), synthetic, flagOf)
    {
      assert fs[i] in fs && vs[i] in vs;
      assert Shapes(s2, vs)[i] == CloneShapes(Shapes(src, fs), synthetic, flagOf)[i];
    }
  }

  function SourceIn(source: CloneSource, current: AstStore): AstStore {
    if source.Current? then current else source.store
  }

  /** What may be cloned from `source` into a factory whose store is `current`: trees that unfold in the source.
    * Store ids are unique, so another store never has the current store's id.
    */
  ghost predicate Clonable(source: CloneSource, current: AstStore, ts: seq<Tree>) {
    && (source.Other? ==> source.store.id != current.id)
    && AllUnfold(SourceIn(source, current), ts)
    && AllSelfContained(ts)
  }

  lemma {:induction false} StillClonable(source: CloneSource, s: AstStore, s': AstStore, ts: seq<Tree>)
    requires Clonable(source, s, ts) && Extends(s, s')
    ensures Clonable(source, s', ts) && SourceIn(source, s').id == SourceIn(source, s).id
    ensures forall i | 0 <= i < |ts| :: Clonable(source, s', [ts[i]])
  {
    if source.Current? {
      AllUnfoldExtends(s, s', ts);
    }
  }

  /** What a clonable tree says about the header its root was read from. */
  lemma {:induction false} ClonableRoot(source: CloneSource, s: AstStore, t: Tree)
    requires Clonable(source, s, [t])
    ensures var src := SourceIn(source, s);
            && InStore(src, t.node) && Unfolds(src, t) && RefsInside(t)
            && var h := src.nodes[t.node.id];
            && t.head.kind == h.kind && t.head.flags == h.flags && t.head.loc == h.loc
            && t.head.tag == h.payload.tag && t.head.data == h.payload.data && t.refs == h.payload.refs
            && FieldsOk(src, h.payload.fields)
            && Kids(src, h.payload.fields) == Nodes(t.kids)
            && Shapes(src, h.payload.fields) == t.head.shapes
    ensures Clonable(source, s, t.kids) && Sizes(t.kids) < Size(t)
    ensures t.node != Node(s.id, |s.nodes|)
    ensures t.head.tag.SourceFileTag? ==> t.head.kind == KIND_SOURCE_FILE
  {
    assert Unfolds(SourceIn(source, s), [t][0]) && SelfContained([t][0]);
  }

  lemma {:induction false} ClonableSlice(source: CloneSource, s: AstStore, s': AstStore, ts: seq<Tree>, us: seq<Tree>)
    requires Clonable(source, s, ts) && Extends(s, s') && forall u | u in us :: u in ts
    ensures Clonable(source, s', us) && SourceIn(source, s').id == SourceIn(source, s).id
  {
    hide Unfolds, SelfContained;
    StillClonable(source, s, s', ts);
    var src := SourceIn(source, s');
    forall i | 0 <= i < |us| ensures Unfolds(src, us[i]) && SelfContained(us[i]) {
      assert us[i] in us;
      var j :| 0 <= j < |ts| && ts[j] == us[i];
    }
  }

  lemma {:induction false} SizesSlice(ts: seq<Tree>, k: nat, n: nat)
    requires k + n <= |ts|
    ensures Sizes(ts[k..k + n]) <= Sizes(ts)
  {
    hide Sizes;
    SizesSplit(ts[..k], ts[k..]);
    SizesSplit(ts[k..k + n], ts[k + n..]);
    assert ts[k..] == ts[k..k + n] + ts[k + n..];
    assert ts == ts[..k] + ts[k..];
  }

  function Slot(n: Option<Node>): seq<Node> {
    if n.Some? then [n.value] else []
  }

  /** Appends the clones of the next stretch `mine` of `ts` to those made so far. */
  lemma {:induction false} NextSlot(s0: AstStore, s1: AstStore, s2: AstStore, r0: Option<map<nat, Node>>,
                                    r1: Option<map<nat, Node>>, r2: Option<map<nat, Node>>, sid: nat, ts: seq<Tree>,
                                    cts: seq<Tree>, mine: seq<Tree>, own: seq<Tree>, synthetic: bool,
                                    flagOf: Kind -> Flags)
    requires |cts| + |mine| <= |ts| && mine == ts[|cts|..|cts| + |mine|]
    requires ForestCloned(s0, s1, ts[..|cts|], cts, Never(|cts|), synthetic, flagOf)
    requires ForestCloned(s1, s2, mine, own, Never(|mine|), synthetic, flagOf)
    requires RecorderStep(r0, r1, sid, ts[..|cts|], cts) && RecorderStep(r1, r2, sid, mine, own)
    ensures |mine| == |own|
    ensures ForestCloned(s0, s2, ts[..|cts + own|], cts + own, Never(|cts + own|), synthetic, flagOf)
    ensures RecorderStep(r0, r2, sid, ts[..|cts + own|], cts + own)
  {
    hide TreeCloned, RecorderStep;
    ForestClonedCompose(s0, s1, s2, ts[..|cts|], cts, Never(|cts|), mine, own, Never(|mine|), synthetic, flagOf);
    RecorderStepCompose(r0, r1, r2, sid, ts[..|cts|], cts, mine, own);
    assert ts[..|cts|] + mine == ts[..|cts + own|];
    assert Never(|cts|) + Never(|mine|) == Never(|cts + own|);
  }

  /** Field `f` of the source store `src` was cloned into field `v` of the store `s1`, which grew out of `s0`. */
  ghost predicate FieldCloned(s0: AstStore, s1: AstStore, src: AstStore, f: Field, v: Field,
                              ts: seq<Tree>, cts: seq<Tree>, synthetic: bool, flagOf: Kind -> Flags)
    requires FieldOk(src, f)
  {
    && FieldOk(s1, v)
    && FieldKids(s1, v) == Nodes(cts)
    && ShapeOf(s1, v) == CloneShape(ShapeOf(src, f), synthetic, flagOf)
    && ForestCloned(s0, s1, ts, cts, ShapeCommas(ShapeOf(src, f)), synthetic, flagOf)
  }

  /** The same for a whole layout of fields. */
  ghost predicate FieldsCloned(s0: AstStore, s1: AstStore, src: AstStore, fs: seq<Field>, vs: seq<Field>,
                               ts: seq<Tree>, cts: seq<Tree>, synthetic: bool, flagOf: Kind -> Flags)
    requires FieldsOk(src, fs)
  {
    && FieldsOk(s1, vs)
    && Kids(s1, vs) == Nodes(cts)
    && Nodes(ts) == Kids(src, fs)
    && Shapes(s1, vs) == CloneShapes(Shapes(src, fs), synthetic, flagOf)
    && ForestCloned(s0, s1, ts, cts, Commas(Shapes(src, fs)), synthetic, flagOf)
  }

  lemma {:induction false} NoFieldsCloned(s: AstStore, src: AstStore, fs: seq<Field>, synthetic: bool,
                                          flagOf: Kind -> Flags)
    requires FieldsOk(src, fs)
    ensures FieldsCloned(s, s, src, fs[..0], [], [], [], synthetic, flagOf)
  {
    ForestOfNone(s, synthetic, flagOf);
    assert Never(0) == Commas(Shapes(src, []));
  }

  lemma {:induction false} KidsPrefix(s: AstStore, fs: seq<Field>, n: nat)
    requires FieldsOk(s, fs) && n <= |fs|
    ensures FieldsOk(s, fs[..n]) && Kids(s, fs[..n]) <= Kids(s, fs)
    ensures n < |fs| ==> Kids(s, fs[..n + 1]) == Kids(s, fs[..n]) + FieldKids(s, fs[n])
  {
    hide FieldOk, FieldKids;
    if n < |fs| {
      var front := fs[..|fs| - 1];
      KidsPrefix(s, front, n);
      assert front[..n] == fs[..n];
      if n < |front| {
        assert front[..n + 1] == fs[..n + 1];
      } else {
        assert fs[..n + 1] == fs;
      }
      assert Kids(s, fs) == Kids(s, front) + FieldKids(s, fs[|fs| - 1]);
    } else {
      assert fs[..n] == fs;
    }
  }

  /** The trees of the field at `at`, given that `k` of `ts` belong to the fields before it. */
  lemma {:induction false} MyField(src: AstStore, fs: seq<Field>, at: nat, ts: seq<Tree>, k: nat)
    returns (mine: seq<Tree>)
    requires FieldsOk(src, fs) && Kids(src, fs) == Nodes(ts) && at < |fs|
    requires k == |Kids(src, fs[..at])|
    ensures k + |mine| <= |ts| && mine == ts[k..k + |mine|]
    ensures FieldOk(src, fs[at]) && Nodes(mine) == FieldKids(src, fs[at])
  {
    hide FieldKids, FieldOk;
    KidsPrefix(src, fs, at);
    KidsPrefix(src, fs, at + 1);
    var n := |FieldKids(src, fs[at])|;
    mine := ts[k..k + n];
    forall i | 0 <= i < n ensures mine[i].node == FieldKids(src, fs[at])[i] {
      assert Kids(src, fs[..at + 1])[k + i] == FieldKids(src, fs[at])[i];
    }
  }

  /** A source keeps showing the same field while the factory's store grows. */
  lemma {:induction false} FieldNow(source: CloneSource, s0: AstStore, s1: AstStore, f: Field)
    requires Extends(s0, s1) && FieldOk(SourceIn(source, s0), f)
    ensures var src, now := SourceIn(source, s0), SourceIn(source, s1);
            && now.id == src.id
            && FieldOk(now, f)
            && FieldKids(now, f) == FieldKids(src, f)
            && ShapeOf(now, f) == ShapeOf(src, f)
  {
    FieldFrame(SourceIn(source, s0), SourceIn(source, s1), |SourceIn(source, s0).nodes|, f);
  }

  lemma {:induction false} FieldsClonedCount(s0: AstStore, s1: AstStore, src: AstStore, fs: seq<Field>,
                                             vs: seq<Field>, ts: seq<Tree>, cts: seq<Tree>, synthetic: bool,
                                             flagOf: Kind -> Flags)
    requires FieldsOk(src, fs) && FieldsCloned(s0, s1, src, fs, vs, ts, cts, synthetic, flagOf)
    ensures Extends(s0, s1) && |cts| == |ts| == |Kids(src, fs)|
  {
  }

  lemma {:induction false} NextShapes(s1: AstStore, s2: AstStore, src: AstStore, fs: seq<Field>, at: nat,
                                      vs: seq<Field>, v: Field, synthetic: bool, flagOf: Kind -> Flags)
    requires FieldsOk(src, fs) && at < |fs| && Extends(s1, s2) && FieldsOk(s1, vs) && FieldOk(s2, v)
    requires Shapes(s1, vs) == CloneShapes(Shapes(src, fs[..at]), synthetic, flagOf)
    requires ShapeOf(s2, v) == CloneShape(ShapeOf(src, fs[at]), synthetic, flagOf)
    ensures FieldsOk(s2, vs + [v])
    ensures Shapes(s2, vs + [v]) == CloneShapes(Shapes(src, fs[..at + 1]), synthetic, flagOf)
    ensures Kids(s2, vs + [v]) == Kids(s1, vs) + FieldKids(s2, v)
    ensures Commas(Shapes(src, fs[..at + 1])) == Commas(Shapes(src, fs[..at])) + ShapeCommas(ShapeOf(src, fs[at]))
  {
    hide FieldKids, FieldOk, ShapeOf, ShapeCommas, CloneShape;
    KidsFrame(s1, s2, |s1.nodes|, vs);
    ShapesFrame(s1, s2, |s1.nodes|, vs);
    assert (vs + [v])[..|vs|] == vs;
    assert Shapes(s2, vs + [v]) == Shapes(s2, vs) + [ShapeOf(s2, v)];
    assert Shapes(src, fs[..at + 1]) == Shapes(src, fs[..at]) + [ShapeOf(src, fs[at])];
    CommasSplit(Shapes(src, fs[..at]), ShapeOf(src, fs[at]));
  }

  lemma {:induction false} NextField(s0: AstStore, s1: AstStore, s2: AstStore, src: AstStore, now: AstStore,
                                     fs: seq<Field>, at: nat, vs: seq<Field>, v: Field, ts: seq<Tree>, cts: seq<Tree>,
                                     mine: seq<Tree>, own: seq<Tree>, synthetic: bool, flagOf: Kind -> Flags)
    requires FieldsOk(src, fs) && at < |fs| && FieldOk(src, fs[at]) && FieldOk(now, fs[at])
    requires FieldKids(src, fs[at]) == Nodes(mine) && ShapeOf(now, fs[at]) == ShapeOf(src, fs[at])
    requires FieldsCloned(s0, s1, src, fs[..at], vs, ts, cts, synthetic, flagOf)
    requires FieldCloned(s1, s2, now, fs[at], v, mine, own, synthetic, flagOf)
    ensures |own| == |mine| && Extends(s0, s2)
    ensures FieldsCloned(s0, s2, src, fs[..at + 1], vs + [v], ts + mine, cts + own, synthetic, flagOf)
  {
    hide ForestCloned;
    var commas, commas' := Commas(Shapes(src, fs[..at])), ShapeCommas(ShapeOf(src, fs[at]));
    ForestNodes(s0, s1, ts, cts, commas, synthetic, flagOf);
    ForestNodes(s1, s2, mine, own, commas', synthetic, flagOf);
    ForestClonedCompose(s0, s1, s2, ts, cts, commas, mine, own, commas', synthetic, flagOf);
    NextShapes(s1, s2, src, fs, at, vs, v, synthetic, flagOf);
    KidsPrefix(src, fs, at);
    NodesSplit(ts, mine);
    NodesSplit(cts, own);
  }

  lemma {:induction false} AllFieldsCloned(s0: AstStore, s1: AstStore, src: AstStore, fs: seq<Field>, vs: seq<Field>,
                                           ts: seq<Tree>, cts: seq<Tree>, synthetic: bool, flagOf: Kind -> Flags)
    requires FieldsOk(src, fs) && Kids(src, fs) == Nodes(ts) && |vs| == |fs| && |cts| <= |ts|
    requires FieldsCloned(s0, s1, src, fs[..|vs|], vs, ts[..|cts|], cts, synthetic, flagOf)
    ensures FieldsCloned(s0, s1, src, fs, vs, ts, cts, synthetic, flagOf)
    ensures ts[..|cts|] == ts
  {
    hide ForestCloned;
    assert fs[..|vs|] == fs;
    assert |Nodes(ts[..|cts|])| == |cts| == |Nodes(ts)|;
    assert ts[..|cts|] == ts;
  }

  function SetRefsAt(s: AstStore, n: Node, refs: FileRefs): AstStore
    requires InStore(s, n)
  {
    var h := s.nodes[n.id];
    s.(nodes := s.nodes[n.id := h.(payload := h.payload.(refs := refs))])
  }

  function Restored(refs: FileRefs, file: Node, commonJs: bool, external: bool): FileRefs {
    refs.(commonJs := if commonJs then Some(file) else refs.commonJs,
          external := if external then Some(file) else refs.external)
  }

  lemma {:induction false} TreeInStore(s: AstStore, t: Tree, m: Node)
    requires Unfolds(s, t) && InTree(t, m)
    ensures InStore(s, m)
    decreases t
  {
    if m != t.node {
      var i :| 0 <= i < |t.kids| && InTree(t.kids[i], m);
      TreeInStore(s, t.kids[i], m);
    }
  }

  // ---- files whose metadata refers to other nodes as well ----

  /** A file that is cloned: where it is read, the store and the recording at the beginning, its children's clones, and
    * nodes outside it that its metadata refers to.
    */
  datatype OpenFile = OpenFile(
    src: AstStore, base: AstStore, recorded: map<nat, Node>, t: Tree, cts: seq<Tree>, outs: seq<Tree>)

  predicate IsRoot(ts: seq<Tree>, r: Node) {
    exists i :: 0 <= i < |ts| && ts[i].node == r
  }

  ghost predicate Reaches(t: Tree, outs: seq<Tree>, r: Node) {
    r != t.node && (InForest(t.kids, r) || IsRoot(outs, r))
  }

  /** The metadata refers to descendants of the file and to roots of `outs`; an indicator may also be the file itself.
    */
  ghost predicate RefsReach(t: Tree, outs: seq<Tree>) {
    && (forall r | r in t.refs.imports :: Reaches(t, outs, r))
    && (forall r | r in t.refs.augmentations :: Reaches(t, outs, r))
    && (t.refs.commonJs.Some? && t.refs.commonJs.value != t.node ==> Reaches(t, outs, t.refs.commonJs.value))
    && (t.refs.external.Some? && t.refs.external.value != t.node ==> Reaches(t, outs, t.refs.external.value))
  }

  ghost predicate OpenClonable(source: CloneSource, current: AstStore, t: Tree, outs: seq<Tree>) {
    && (source.Other? ==> source.store.id != current.id)
    && Unfolds(SourceIn(source, current), t)
    && AllSelfContained(t.kids)
    && Clonable(source, current, outs)
    && RefsReach(t, outs)
  }

  /** `r'` is the clone of `r` at one of its places below the file or in a tree cloned for a reference; or, if `r` is
    * not below the file, what an enclosing recording has for it.
    */
  ghost predicate Found(f: OpenFile, used: seq<Tree>, cused: seq<Tree>, r: Node, r': Node) {
    || CorrForest(f.t.kids + used, f.cts + cused, r, r')
    || (!InForest(f.t.kids, r) && r.id in f.recorded && r' == f.recorded[r.id])
  }

  ghost predicate SeqFound(f: OpenFile, used: seq<Tree>, cused: seq<Tree>, rs: seq<Node>, rs': seq<Node>) {
    |rs| == |rs'| && forall i | 0 <= i < |rs| :: Found(f, used, cused, rs[i], rs'[i])
  }

  ghost predicate OptFound(f: OpenFile, ct: Tree, used: seq<Tree>, cused: seq<Tree>, r: Option<Node>,
                           r': Option<Node>) {
    && r.Some? == r'.Some?
    && (r.Some? ==> if r.value == f.t.node then r'.value == ct.node else Found(f, used, cused, r.value, r'.value))
  }

  ghost predicate RefsFound(f: OpenFile, ct: Tree, used: seq<Tree>, cused: seq<Tree>) {
    && SeqFound(f, used, cused, f.t.refs.imports, ct.refs.imports)
    && SeqFound(f, used, cused, f.t.refs.augmentations, ct.refs.augmentations)
    && OptFound(f, ct, used, cused, f.t.refs.commonJs, ct.refs.commonJs)
    && OptFound(f, ct, used, cused, f.t.refs.external, ct.refs.external)
  }

  /** The file was cloned into `ct`, and for its references the trees `used` into `cused`; all of this is new. */
  ghost predicate FileCloned(f: OpenFile, s: AstStore, ct: Tree, used: seq<Tree>, cused: seq<Tree>, synthetic: bool,
                             flagOf: Kind -> Flags)
  {
    && f.cts == ct.kids
    && Unfolds(s, ct) && IdsFrom(ct, |f.base.nodes|) && KidsClone(f.t, ct, synthetic, false, flagOf)
    && (forall u | u in used :: u in f.outs)
    && ForestCloned(f.base, s, used, cused, Never(|used|), synthetic, flagOf)
    && RefsFound(f, ct, used, cused)
  }

  /** References are being mapped: the children are cloned, and `used` for the references so far. */
  ghost predicate Mapping(source: CloneSource, f: OpenFile, s: AstStore, r: Option<map<nat, Node>>, used: seq<Tree>,
                          cused: seq<Tree>, synthetic: bool, flagOf: Kind -> Flags)
  {
    && f.src == SourceIn(source, f.base) && Extends(f.base, s) && Clonable(source, f.base, f.outs)
    && AllUnfold(f.src, f.t.kids) && |f.cts| == |f.t.kids|
    && (forall u | u in used :: u in f.outs)
    && ForestCloned(f.base, s, used, cused, Never(|used|), synthetic, flagOf)
    && r.Some? && RecorderStep(Some(f.recorded), r, f.src.id, f.t.kids + used, f.cts + cused)
  }

  lemma {:induction false} ForestInStore(s: AstStore, ts: seq<Tree>, m: Node)
    requires AllUnfold(s, ts) && InForest(ts, m)
    ensures InStore(s, m)
  {
    var i :| 0 <= i < |ts| && InTree(ts[i], m);
    TreeInStore(s, ts[i], m);
  }

  lemma {:induction false} ReachedInStore(source: CloneSource, f: OpenFile, s: AstStore, r: Option<map<nat, Node>>,
                                          used: seq<Tree>, cused: seq<Tree>, synthetic: bool, flagOf: Kind -> Flags,
                                          ref: Node)
    requires Mapping(source, f, s, r, used, cused, synthetic, flagOf) && Reaches(f.t, f.outs, ref)
    ensures ref == Node(f.src.id, ref.id)
  {
    if InForest(f.t.kids, ref) {
      ForestInStore(f.src, f.t.kids, ref);
    }
  }

  /** What is recorded for a reference is what it must become. */
  lemma {:induction false} RecordedFound(source: CloneSource, f: OpenFile, s: AstStore, r: Option<map<nat, Node>>,
                                         used: seq<Tree>, cused: seq<Tree>, synthetic: bool, flagOf: Kind -> Flags,
                                         ref: Node)
    requires Mapping(source, f, s, r, used, cused, synthetic, flagOf) && Reaches(f.t, f.outs, ref)
    ensures ref.id in r.value ==> Found(f, used, cused, ref, r.value[ref.id])
    ensures ref.id !in r.value ==> IsRoot(f.outs, ref)
  {
    hide ForestCloned, Clonable, AllUnfold;
    ReachedInStore(source, f, s, r, used, cused, synthetic, flagOf, ref);
    InForestSplit(f.t.kids, used, ref);
    assert Recorded(f.recorded, r.value, f.src.id, f.t.kids + used, f.cts + cused);
  }

  /** The reference was not recorded and its tree `u` is cloned on its own. */
  lemma {:induction false} MappedOwn(source: CloneSource, f: OpenFile, s1: AstStore, s2: AstStore,
                                     r1: Option<map<nat, Node>>, r2: Option<map<nat, Node>>, used: seq<Tree>,
                                     cused: seq<Tree>, u: Tree, cu: Tree, synthetic: bool, flagOf: Kind -> Flags)
    requires Mapping(source, f, s1, r1, used, cused, synthetic, flagOf) && u in f.outs && Extends(s1, s2)
    requires TreeCloned(|s1.nodes|, s2, u, cu, false, synthetic, flagOf)
    requires RecorderStep(r1, r2, f.src.id, [u], [cu])
    ensures Mapping(source, f, s2, r2, used + [u], cused + [cu], synthetic, flagOf)
    ensures Found(f, used + [u], cused + [cu], u.node, cu.node)
  {
    hide TreeCloned, RecorderStep, Clonable, AllUnfold;
    ForestOfOne(s1, s2, u, cu, false, synthetic, flagOf);
    ForestClonedCompose(f.base, s1, s2, used, cused, Never(|used|), [u], [cu], [false], synthetic, flagOf);
    assert Never(|used|) + [false] == Never(|used + [u]|);
    RecorderStepCompose(Some(f.recorded), r1, r2, f.src.id, f.t.kids + used, f.cts + cused, [u], [cu]);
    assert f.t.kids + used + [u] == f.t.kids + (used + [u]) && f.cts + cused + [cu] == f.cts + (cused + [cu]);
    assert Corr(u, cu, u.node, cu.node);
    assert (f.t.kids + (used + [u]))[|f.t.kids| + |used|] == u && (f.cts + (cused + [cu]))[|f.t.kids| + |used|] == cu;
  }

  lemma {:induction false} FoundLater(f: OpenFile, used: seq<Tree>, cused: seq<Tree>, used': seq<Tree>,
                                      cused': seq<Tree>, r: Node, r': Node)
    requires |f.cts| == |f.t.kids| && |used| == |cused| && |used'| == |cused'| && used <= used' && cused <= cused'
    requires Found(f, used, cused, r, r')
    ensures Found(f, used', cused', r, r')
  {
    var more, cmore := used'[|used|..], cused'[|used|..];
    CorrForestSplit(f.t.kids + used, f.cts + cused, more, cmore, r, r');
    assert f.t.kids + used + more == f.t.kids + used' && f.cts + cused + cmore == f.cts + cused';
  }

  lemma {:induction false} SeqFoundLater(f: OpenFile, used: seq<Tree>, cused: seq<Tree>, used': seq<Tree>,
                                         cused': seq<Tree>, rs: seq<Node>, rs': seq<Node>)
    requires |f.cts| == |f.t.kids| && |used| == |cused| && |used'| == |cused'| && used <= used' && cused <= cused'
    requires SeqFound(f, used, cused, rs, rs')
    ensures SeqFound(f, used', cused', rs, rs')
  {
    hide Found;
    forall i | 0 <= i < |rs| ensures Found(f, used', cused', rs[i], rs'[i]) {
      FoundLater(f, used, cused, used', cused', rs[i], rs'[i]);
    }
  }

  lemma {:induction false} MappingSizes(source: CloneSource, f: OpenFile, s: AstStore, r: Option<map<nat, Node>>,
                                        used: seq<Tree>, cused: seq<Tree>, synthetic: bool, flagOf: Kind -> Flags)
    requires Mapping(source, f, s, r, used, cused, synthetic, flagOf)
    ensures |f.cts| == |f.t.kids| && |used| == |cused| && r.Some? && Extends(f.base, s)
    ensures RecorderStep(Some(f.recorded), r, f.src.id, f.t.kids + used, f.cts + cused)
  {
  }

  function Recording(r: Option<map<nat, Node>>): map<nat, Node> {
    if r.None? then map[] else r.value
  }

  lemma {:induction false} MappingStarts(source: CloneSource, f: OpenFile, s: AstStore, r: Option<map<nat, Node>>,
                                         synthetic: bool, flagOf: Kind -> Flags)
    requires f.src == SourceIn(source, f.base) && Extends(f.base, s) && OpenClonable(source, f.base, f.t, f.outs)
    requires |f.cts| == |f.t.kids| && f.t.head.tag.SourceFileTag?
    requires r.Some? && RecorderStep(Some(f.recorded), r, f.src.id, f.t.kids, f.cts)
    ensures Mapping(source, f, s, r, [], [], synthetic, flagOf)
  {
    hide RecorderStep, Clonable;
    OpenRoot(source, f.base, f.t, f.outs);
    assert f.t.kids + [] == f.t.kids && f.cts + [] == f.cts;
    assert Never(0) == [];
  }

  /** The references of a file, all but those to the file itself mapped. */
  ghost predicate MappedFound(f: OpenFile, mapped: FileRefs, used: seq<Tree>, cused: seq<Tree>) {
    && SeqFound(f, used, cused, f.t.refs.imports, mapped.imports)
    && SeqFound(f, used, cused, f.t.refs.augmentations, mapped.augmentations)
    && IndicatorFound(f, used, cused, f.t.refs.commonJs, mapped.commonJs)
    && IndicatorFound(f, used, cused, f.t.refs.external, mapped.external)
  }

  ghost predicate IndicatorFound(f: OpenFile, used: seq<Tree>, cused: seq<Tree>, r: Option<Node>, r': Option<Node>) {
    && (r'.Some? <==> r.Some? && r.value != f.t.node)
    && (r'.Some? ==> Found(f, used, cused, r.value, r'.value))
  }

  /** Everything about a cloned file, once its header is in place. */
  lemma {:induction false} FileFinished(source: CloneSource, f: OpenFile, s2: AstStore, s3: AstStore,
                                        r: Option<map<nat, Node>>, ct: Tree, mapped: FileRefs, used: seq<Tree>,
                                        cused: seq<Tree>, synthetic: bool, flagOf: Kind -> Flags)
    requires Mapping(source, f, s2, r, used, cused, synthetic, flagOf) && Extends(s2, s3)
    requires MappedFound(f, mapped, used, cused) && f.cts == ct.kids
    requires ct.refs == Restored(mapped, ct.node, f.t.refs.commonJs == Some(f.t.node),
                                 f.t.refs.external == Some(f.t.node))
    requires Unfolds(s3, ct) && IdsFrom(ct, |f.base.nodes|) && KidsClone(f.t, ct, synthetic, false, flagOf)
    ensures FileCloned(f, s3, ct, used, cused, synthetic, flagOf)
  {
    hide Unfolds, IdsFrom, KidsClone, Found, RecorderStep, Clonable;
    ForestClonedExtends(f.base, s2, s3, used, cused, Never(|used|), synthetic, flagOf);
  }

  lemma {:induction false} SourceFresh(source: CloneSource, s: AstStore, s': AstStore, t: Tree)
    requires (source.Other? ==> source.store.id != s.id) && InStore(SourceIn(source, s), t.node) && Extends(s, s')
    ensures t.node != Node(s'.id, |s'.nodes|)
  {
  }

  /** With nothing outside, a file that refers only to itself and its descendants is cloned like any other tree. */
  lemma {:induction false} ClosedFile(f: OpenFile, s: AstStore, ct: Tree, used: seq<Tree>, cused: seq<Tree>,
                                      synthetic: bool, flagOf: Kind -> Flags)
    requires FileCloned(f, s, ct, used, cused, synthetic, flagOf) && f.outs == [] && RefsInside(f.t)
    ensures used == [] && cused == []
    ensures TreeCloned(|f.base.nodes|, s, f.t, ct, false, synthetic, flagOf)
  {
    hide Unfolds, IdsFrom, CorrForest, InForest;
    var first := (used + [f.t])[0];
    assert used != [] ==> first in used;
    assert f.t.kids + [] == f.t.kids && f.cts + [] == f.cts;
    var t := f.t;
    forall i | 0 <= i < |t.refs.imports| ensures RefClones(t, ct, t.refs.imports[i], ct.refs.imports[i]) {
      assert t.refs.imports[i] in t.refs.imports;
    }
    forall i | 0 <= i < |t.refs.augmentations|
      ensures RefClones(t, ct, t.refs.augmentations[i], ct.refs.augmentations[i])
    {
      assert t.refs.augmentations[i] in t.refs.augmentations;
    }
  }

  /** What an open file says about the header its root was read from. */
  lemma {:induction false} OpenRoot(source: CloneSource, s: AstStore, t: Tree, outs: seq<Tree>)
    requires OpenClonable(source, s, t, outs) && t.head.tag.SourceFileTag?
    ensures var src := SourceIn(source, s);
            && InStore(src, t.node) && Unfolds(src, t) && AllUnfold(src, t.kids)
            && var h := src.nodes[t.node.id];
            && t.head.kind == h.kind == KIND_SOURCE_FILE && t.head.flags == h.flags && t.head.loc == h.loc
            && t.head.tag == h.payload.tag && t.head.data == h.payload.data && t.refs == h.payload.refs
            && FieldsOk(src, h.payload.fields)
            && Kids(src, h.payload.fields) == Nodes(t.kids)
            && Shapes(src, h.payload.fields) == t.head.shapes
    ensures Clonable(source, s, t.kids) && Sizes(t.kids) < Size(t)
    ensures t.node != Node(s.id, |s.nodes|)
  {
  }

  lemma {:induction false} ClosedIsOpen(source: CloneSource, s: AstStore, t: Tree)
    requires Clonable(source, s, [t])
    ensures OpenClonable(source, s, t, []) && RefsInside(t)
  {
    assert Unfolds(SourceIn(source, s), [t][0]) && SelfContained([t][0]);
  }

  /** Recording a root whose children were all just cloned. */
  lemma {:induction false} RecordedTree(r0: Option<map<nat, Node>>, r1: Option<map<nat, Node>>,
                                        r2: Option<map<nat, Node>>, sid: nat, t: Tree, ct: Tree)
    requires t.node.store == sid && |t.kids| == |ct.kids|
    requires RecorderStep(r0, r1, sid, t.kids, ct.kids) && r2 == RecordedAs(r1, t.node, ct.node)
    ensures RecorderStep(r0, r2, sid, [t], [ct])
  {
    forall i | 0 <= i < |t.kids| ensures KidPair(t, ct, t.kids[i], ct.kids[i]) {
    }
    assert [] + t.kids == t.kids && [] + ct.kids == ct.kids;
    RecordRoot(r0, r1, r2, sid, [], [], t.kids, ct.kids, t, ct);
    assert [] + [t] == [t] && [] + [ct] == [ct];
  }

  lemma {:induction false} RecordedSwap(r0: map<nat, Node>, r1: map<nat, Node>, sid: nat, ts: seq<Tree>,
                                        cts: seq<Tree>, us: seq<Tree>, cus: seq<Tree>)
    requires |ts| == |cts| && |us| == |cus| && Recorded(r0, r1, sid, ts + us, cts + cus)
    ensures Recorded(r0, r1, sid, us + ts, cus + cts)
  {
    forall k: nat
      ensures if InForest(us + ts, Node(sid, k))
              then k in r1 && CorrForest(us + ts, cus + cts, Node(sid, k), r1[k])
              else (k in r1 <==> k in r0) && (k in r1 ==> r1[k] == r0[k])
    {
      var m := Node(sid, k);
      InForestSplit(ts, us, m);
      InForestSplit(us, ts, m);
      if k in r1 {
        CorrForestSplit(ts, cts, us, cus, m, r1[k]);
        CorrForestSplit(us, cus, ts, cts, m, r1[k]);
      }
    }
  }

  /** Recording a file after its children and the trees its references needed. */
  lemma {:induction false} RecordedFile(r0: Option<map<nat, Node>>, r1: Option<map<nat, Node>>,
                                        r2: Option<map<nat, Node>>, sid: nat, t: Tree, ct: Tree, used: seq<Tree>,
                                        cused: seq<Tree>)
    requires t.node.store == sid && |t.kids| == |ct.kids| && |used| == |cused| && r0.Some? && r1.Some?
    requires RecorderStep(r0, r1, sid, t.kids + used, ct.kids + cused) && r2 == RecordedAs(r1, t.node, ct.node)
    ensures RecorderStep(r0, r2, sid, used + [t], cused + [ct])
  {
    hide Recorded;
    RecordedSwap(r0.value, r1.value, sid, t.kids, ct.kids, used, cused);
    forall i | 0 <= i < |t.kids| ensures KidPair(t, ct, t.kids[i], ct.kids[i]) {
    }
    RecordRoot(r0, r1, r2, sid, used, cused, t.kids, ct.kids, t, ct);
  }

  /** The kinds of the clones. */
  lemma {:induction false} ForestKinds(s0: AstStore, s1: AstStore, src: AstStore, ts: seq<Tree>, cts: seq<Tree>,
                                       commas: seq<bool>, synthetic: bool, flagOf: Kind -> Flags)
    requires ForestCloned(s0, s1, ts, cts, commas, synthetic, flagOf) && AllUnfold(src, ts)
    ensures |ts| == |cts| && KindsOf(s1, Nodes(cts)) == ClonedKinds(KindsOf(src, Nodes(ts)))
  {
    forall i | 0 <= i < |ts| ensures KindOf(s1, cts[i].node) == ClonedKind(KindOf(src, ts[i].node)) {
      assert TreeCloned(|s0.nodes|, s1, ts[i], cts[i], commas[i], synthetic, flagOf);
    }
  }

  lemma {:induction false} PresentPrefix(es: seq<Option<Node>>, n: nat)
    requires n <= |es|
    ensures Present(es[..n]) <= Present(es)
    ensures n > 0 && es[n - 1].Some? ==> Present(es[..n]) == Present(es[..n - 1]) + [es[n - 1].value]
    ensures n > 0 && es[n - 1].None? ==> Present(es[..n]) == Present(es[..n - 1])
  {
    if n > 0 {
      assert es[..n][..n - 1] == es[..n - 1];
    }
    if n < |es| {
      PresentPrefix(es[..|es| - 1], n);
      assert es[..|es| - 1][..n] == es[..n];
    } else {
      assert es[..n] == es;
    }
  }

  /** The trees of the one slot at `at`, given that `k` of `ts` belong to the slots before it. */
  lemma {:induction false} MySlot(slots: seq<Option<Node>>, at: nat, ts: seq<Tree>, k: nat) returns (mine: seq<Tree>)
    requires at < |slots| && Nodes(ts) == Present(slots) && k == |Present(slots[..at])|
    ensures k + |mine| <= |ts| && mine == ts[k..k + |mine|]
    ensures Nodes(mine) == Slot(slots[at])
    ensures k + |mine| == |Present(slots[..at + 1])|
  {
    PresentPrefix(slots, at + 1);
    mine := ts[k..k + |Slot(slots[at])|];
    if slots[at].Some? {
      assert Present(slots[..at + 1])[k] == slots[at].value;
      assert mine == [ts[k]];
    }
  }

  /** Slots filled so far hold the roots of `cts`, in the places where the original slots are filled. */
  ghost predicate SlotsCloned(s: AstStore, slots: seq<Option<Node>>, clones: seq<Option<Node>>, cts: seq<Tree>) {
    && |clones| <= |slots|
    && Present(clones) == Nodes(cts)
    && forall i | 0 <= i < |clones| :: clones[i].Some? == slots[i].Some? && FieldOk(s, NodeField(clones[i]))
  }

  lemma {:induction false} NoSlotsCloned(s: AstStore, slots: seq<Option<Node>>)
    ensures SlotsCloned(s, slots, [], []) && Present(slots[..0]) == []
  {
  }

  lemma {:induction false} SlotAppended(s: AstStore, s': AstStore, slots: seq<Option<Node>>,
                                        clones: seq<Option<Node>>, clone: Option<Node>, cts: seq<Tree>,
                                        own: seq<Tree>)
    requires SlotsCloned(s, slots, clones, cts) && Extends(s, s') && |clones| < |slots|
    requires clone.Some? == slots[|clones|].Some? && FieldOk(s', NodeField(clone)) && Slot(clone) == Nodes(own)
    ensures SlotsCloned(s', slots, clones + [clone], cts + own)
  {
    assert (clones + [clone])[..|clones|] == clones;
  }

  /** A modifier list built from cloned modifiers is the clone of the modifier list they came from. */
  lemma {:induction false} ModifiersBuilt(s0: AstStore, s1: AstStore, s2: AstStore, src: AstStore, m: ModifierListId,
                                          ts: seq<Tree>, cts: seq<Tree>, synthetic: bool, flagOf: Kind -> Flags)
    requires FieldOk(src, ModifiersField(Some(m))) && FieldKids(src, ModifiersField(Some(m))) == Nodes(ts)
    requires AllUnfold(src, ts)
    requires var r := src.lists[src.modifierLists[m.idx].list.idx];
             && ForestCloned(s0, s1, ts, cts, LastOnly(|ts|, r.trailingComma), synthetic, flagOf)
             && s2 == s1.(
               lists := s1.lists + [NodeListRecord(Relocated(r.loc, synthetic), Relocated(r.range, synthetic),
                                                  Nodes(cts),
                                                   false, false)],
               modifierLists := s1.modifierLists
                 + [ModifierListRecord(NodeListId(s1.id, |s1.lists|),
                                      ModifiersToFlags(flagOf, KindsOf(s1, Nodes(cts))))])
    ensures FieldCloned(s0, s2, src, ModifiersField(Some(m)),
                        ModifiersField(Some(ModifierListId(s1.id, |s1.modifierLists|))), ts, cts, synthetic, flagOf)
  {
    hide ForestCloned, Unfolds, ModifiersToFlags;
    var r := src.lists[src.modifierLists[m.idx].list.idx];
    var commas := LastOnly(|ts|, r.trailingComma);
    ForestNodes(s0, s1, ts, cts, commas, synthetic, flagOf);
    ForestKinds(s0, s1, src, ts, cts, commas, synthetic, flagOf);
    ForestClonedExtends(s0, s1, s2, ts, cts, commas, synthetic, flagOf);
    assert KindsOf(s2, Nodes(cts)) == KindsOf(s1, Nodes(cts));
  }

  /** Cloned children and a header that holds them make a clone. */
  lemma {:induction false} CloneFromFields(s0: AstStore, s1: AstStore, src: AstStore, t: Tree, values: seq<Field>,
                                           refs: FileRefs, cts: seq<Tree>, synthetic: bool, flagOf: Kind -> Flags)
    returns (ct: Tree)
    requires Unfolds(src, t)
    requires FieldsCloned(s0, s1, src, src.nodes[t.node.id].payload.fields, values, t.kids, cts, synthetic, flagOf)
    requires AllRefsClone(t, Tree(Node(s1.id, |s1.nodes|), t.head, refs, cts))
    requires !t.head.tag.SourceFileTag? ==> refs == NO_REFS
    ensures ct.node == Node(s1.id, |s1.nodes|) && ct.kids == cts && |cts| == |t.kids|
    ensures var s2 := Appended(s1, CloneHeader(t, values, refs, synthetic));
            && Extends(s0, s2)
            && TreeCloned(|s0.nodes|, s2, t, ct, false, synthetic, flagOf)
  {
    hide CorrForest;
    ct := OpenBuilt(s0, s1, src, t, cts, values, refs, synthetic, flagOf);
    hide Unfolds, IdsFrom;
  }

  /** The same for a file whose references were mapped after its children were cloned into `s1`. */
  lemma {:induction false} FileFromFields(s1: AstStore, s2: AstStore, f: OpenFile, values: seq<Field>, refs: FileRefs,
                                          synthetic: bool, flagOf: Kind -> Flags) returns (ct: Tree)
    requires Unfolds(f.src, f.t) && f.t.head.tag.SourceFileTag? && Extends(s1, s2)
    requires FieldsCloned(f.base, s1, f.src, f.src.nodes[f.t.node.id].payload.fields, values, f.t.kids,
                          f.cts, synthetic,
                          flagOf)
    ensures ct.node == Node(s2.id, |s2.nodes|) && ct.kids == f.cts && ct.refs == refs && |f.cts| == |f.t.kids|
    ensures var s3 := Appended(s2, CloneHeader(f.t, values, refs, synthetic));
            && Extends(f.base, s3) && Extends(s2, s3)
            && Unfolds(s3, ct) && IdsFrom(ct, |f.base.nodes|) && KidsClone(f.t, ct, synthetic, false, flagOf)
  {
    ForestClonedExtends(f.base, s1, s2, f.t.kids, f.cts, Commas(f.t.head.shapes), synthetic, flagOf);
    ExtendsAgrees(s1, s2);
    KidsFrame(s1, s2, |s1.nodes|, values);
    ShapesFrame(s1, s2, |s1.nodes|, values);
    hide ForestCloned;
    ct := OpenBuilt(f.base, s2, f.src, f.t, f.cts, values, refs, synthetic, flagOf);
  }

  lemma {:induction false} CloneStaysBuilt(lo: nat, s1: AstStore, s2: AstStore, t: Tree, ct: Tree, synthetic: bool,
                                           flagOf: Kind -> Flags)
    requires exists h :: s2 == Appended(s1, h)
    requires TreeCloned(lo, s2, t, ct, false, synthetic, flagOf) && ct.node.id == |s1.nodes|
    ensures Built(s1) ==> Built(s2)
  {
    OpenStaysBuilt(lo, s1, s2, ct);
  }

  lemma {:induction false} OpenStaysBuilt(lo: nat, s1: AstStore, s2: AstStore, ct: Tree)
    requires exists h :: s2 == Appended(s1, h)
    requires Unfolds(s2, ct) && IdsFrom(ct, lo) && ct.node.id == |s1.nodes|
    ensures Built(s1) ==> Built(s2)
  {
    if Built(s1) {
      RootStaysBuilt(s1, s2, ct, lo);
    }
  }

  // ---- importing the children of an update ----

  /** The store the id in a field names, if the field holds one. */
  function FieldStore(f: Field): Option<nat> {
    match f
    case NodeField(Some(n)) => Some(n.store)
    case ListField(Some(l)) => Some(l.store)
    case ModifiersField(Some(m)) => Some(m.store)
    case RawField(Some(r)) => Some(r.store)
    case _ => None
  }

  predicate IsOwn(s: AstStore, f: Field) {
    FieldStore(f).None? || FieldStore(f).value == s.id
  }

  /** A proposed child of an update: a valid id of the factory's own store, or else one of the source store. */
  ghost predicate Importable(source: AstStore, current: AstStore, f: Field, ts: seq<Tree>) {
    if IsOwn(current, f) then FieldOk(current, f)
    else FieldOk(source, f) && FieldKids(source, f) == Nodes(ts) && Clonable(Other(source), current, ts)
  }

  /** Own children are taken as they are, others are cloned where they stand. */
  ghost predicate Imported(s0: AstStore, s1: AstStore, source: AstStore, f: Field, v: Field, ts: seq<Tree>,
                           cts: seq<Tree>, flagOf: Kind -> Flags)
  {
    && FieldOk(s1, v)
    && if IsOwn(s0, f) then v == f else FieldOk(source, f) && FieldCloned(s0, s1, source, f, v, ts, cts, false, flagOf)
  }

  lemma {:induction false} StillImportable(source: AstStore, s: AstStore, s': AstStore, f: Field, ts: seq<Tree>)
    requires Importable(source, s, f, ts) && Extends(s, s')
    ensures Importable(source, s', f, ts)
  {
    if IsOwn(s, f) {
      FieldFrame(s, s', |s.nodes|, f);
    }
  }

  lemma {:induction false} FieldClonedLater(s0: AstStore, s1: AstStore, s2: AstStore, s3: AstStore, src: AstStore,
                                            f: Field, v: Field, ts: seq<Tree>, cts: seq<Tree>, flagOf: Kind -> Flags)
    requires FieldOk(src, f) && FieldCloned(s1, s2, src, f, v, ts, cts, false, flagOf)
    requires Extends(s0, s1) && Extends(s2, s3)
    ensures FieldCloned(s0, s3, src, f, v, ts, cts, false, flagOf)
  {
    hide TreeCloned;
    FieldFrame(s2, s3, |s2.nodes|, v);
    var commas := ShapeCommas(ShapeOf(src, f));
    forall i | 0 <= i < |ts| ensures TreeCloned(|s0.nodes|, s3, ts[i], cts[i], commas[i], false, flagOf) {
      TreeClonedLater(|s1.nodes|, |s0.nodes|, s2, s3, ts[i], cts[i], commas[i], false, flagOf);
    }
  }

  lemma {:induction false} ImportedLater(s0: AstStore, s1: AstStore, s2: AstStore, s3: AstStore, source: AstStore,
                                         f: Field, v: Field, ts: seq<Tree>, cts: seq<Tree>, flagOf: Kind -> Flags)
    requires Imported(s1, s2, source, f, v, ts, cts, flagOf) && Extends(s0, s1) && Extends(s2, s3)
    ensures Imported(s0, s3, source, f, v, ts, cts, flagOf)
  {
    hide FieldCloned, ShapeOf, FieldKids;
    FieldFrame(s2, s3, |s2.nodes|, v);
    if !IsOwn(s1, f) {
      FieldClonedLater(s0, s1, s2, s3, source, f, v, ts, cts, flagOf);
    }
  }

  /** Each proposed child with the trees it would be cloned from. */
  ghost predicate AllImportable(source: AstStore, current: AstStore, fs: seq<Field>, tss: seq<seq<Tree>>) {
    |fs| == |tss| && forall i | 0 <= i < |fs| :: Importable(source, current, fs[i], tss[i])
  }

  ghost predicate AllImported(s0: AstStore, s1: AstStore, source: AstStore, fs: seq<Field>, vs: seq<Field>,
                              tss: seq<seq<Tree>>, ctss: seq<seq<Tree>>, flagOf: Kind -> Flags)
  {
    && |vs| == |ctss| <= |fs| == |tss|
    && forall i | 0 <= i < |vs| :: Imported(s0, s1, source, fs[i], vs[i], tss[i], ctss[i], flagOf)
  }

  lemma {:induction false} ImportedNext(s0: AstStore, s1: AstStore, s2: AstStore, source: AstStore, fs: seq<Field>,
                                        vs: seq<Field>, v: Field, tss: seq<seq<Tree>>, ctss: seq<seq<Tree>>,
                                        cts: seq<Tree>, flagOf: Kind -> Flags)
    requires AllImported(s0, s1, source, fs, vs, tss, ctss, flagOf) && |vs| < |fs|
    requires Extends(s0, s1) && Extends(s1, s2) && Imported(s1, s2, source, fs[|vs|], v, tss[|vs|], cts, flagOf)
    ensures AllImported(s0, s2, source, fs, vs + [v], tss, ctss + [cts], flagOf)
  {
    hide Imported;
    forall i | 0 <= i < |vs + [v]|
      ensures Imported(s0, s2, source, fs[i], (vs + [v])[i], tss[i], (ctss + [cts])[i], flagOf)
    {
      if i < |vs| {
        ImportedLater(s0, s0, s1, s2, source, fs[i], vs[i], tss[i], ctss[i], flagOf);
      } else {
        ImportedLater(s0, s1, s2, s2, source, fs[i], v, tss[i], cts, flagOf);
      }
    }
  }

  /** The kind of the node a field holds, in whichever of the two stores it lives. */
  function SlotKind(source: AstStore, current: AstStore, f: Field): Option<Kind> {
    match f
    case NodeField(Some(n)) => Some(if n.store == current.id then KindOf(current, n) else KindOf(source, n))
    case _ => None
  }

  /** Proposed children fit the layout of the node: the same kinds of field, and no binary expression where the grammar
    * has none.
    */
  predicate FitsLayout(source: AstStore, current: AstStore, h: NodeHeader, fs: seq<Field>) {
    && |fs| == |h.payload.fields|
    && (forall i | 0 <= i < |fs| :: SameField(fs[i], h.payload.fields[i]))
    && (h.payload.tag.BinaryTag? && |fs| == 5 ==>
          && SlotKind(source, current, fs[2]) != Some(KIND_BINARY_EXPRESSION)
          && SlotKind(source, current, fs[3]) != Some(KIND_BINARY_EXPRESSION))
  }

  predicate SameField(f: Field, g: Field) {
    && f.NodeField? == g.NodeField?
    && f.ListField? == g.ListField?
    && f.ModifiersField? == g.ModifiersField?
  }

  lemma {:induction false} ImportedKind(s0: AstStore, s1: AstStore, source: AstStore, f: Field, v: Field, ts: seq<Tree>,
                                        cts: seq<Tree>, flagOf: Kind -> Flags)
    requires Imported(s0, s1, source, f, v, ts, cts, flagOf) && Extends(s0, s1) && (IsOwn(s0, f) ==> FieldOk(s0, f))
    ensures SameField(v, f)
    ensures f.NodeField? && v.node.Some? && KindOf(s1, v.node.value) == KIND_BINARY_EXPRESSION ==>
              SlotKind(source, s0, f) == Some(KIND_BINARY_EXPRESSION)
  {
  }

  /** The header an update creates. */
  function UpdatedHeader(h: NodeHeader, data: string, values: seq<Field>): NodeHeader {
    NodeHeader(ClonedKind(h.kind), h.flags, h.loc, Payload(h.payload.tag, data, NoCaches, values, NO_REFS))
  }

  lemma {:induction false} UpdateStaysBuilt(s0: AstStore, s1: AstStore, source: AstStore, h: NodeHeader, data: string,
                                            fs: seq<Field>, vs: seq<Field>, tss: seq<seq<Tree>>, ctss: seq<seq<Tree>>,
                                            flagOf: Kind -> Flags)
    requires PayloadOk(source, h) && !h.payload.tag.SourceFileTag?
    requires Extends(s0, s1) && Built(s1)
    requires AllImportable(source, s0, fs, tss)
             && AllImported(s0, s1, source, fs, vs, tss, ctss, flagOf) && |vs| == |fs|
    requires FitsLayout(source, s0, h, fs)
    ensures FieldsOk(s1, vs)
    ensures Built(Appended(s1, UpdatedHeader(h, data, vs)))
  {
    hide FieldOk, FieldCloned, FieldKids, Importable, Built;
    var s2 := Appended(s1, UpdatedHeader(h, data, vs));
    forall i | 0 <= i < |vs|
      ensures FieldOk(s1, vs[i]) && SameField(vs[i], fs[i])
      ensures fs[i].NodeField? && vs[i].node.Some? && KindOf(s1, vs[i].node.value) == KIND_BINARY_EXPRESSION ==>
                SlotKind(source, s0, fs[i]) == Some(KIND_BINARY_EXPRESSION)
    {
      assert Imported(s0, s1, source, fs[i], vs[i], tss[i], ctss[i], flagOf);
      assert IsOwn(s0, fs[i]) ==> FieldOk(s0, fs[i]) by {
        ImportableOwn(source, s0, fs[i], tss[i]);
      }
      ImportedKind(s0, s1, source, fs[i], vs[i], tss[i], ctss[i], flagOf);
    }
    UpdatedPayload(s1, source, h, data, fs, vs, s0);
    HeaderAppended(s1, UpdatedHeader(h, data, vs));
  }

  lemma {:induction false} ImportableOwn(source: AstStore, s: AstStore, f: Field, ts: seq<Tree>)
    requires Importable(source, s, f, ts)
    ensures IsOwn(s, f) ==> FieldOk(s, f)
  {
  }

  lemma {:induction false} UpdatedPayload(s1: AstStore, source: AstStore, h: NodeHeader, data: string, fs: seq<Field>,
                                          vs: seq<Field>, s0: AstStore)
    requires PayloadOk(source, h) && !h.payload.tag.SourceFileTag? && FitsLayout(source, s0, h, fs) && |vs| == |fs|
    requires FieldsOk(s1, vs)
    requires forall i | 0 <= i < |vs| ::
               && SameField(vs[i], fs[i])
               && (fs[i].NodeField? && vs[i].node.Some? && KindOf(s1, vs[i].node.value) == KIND_BINARY_EXPRESSION ==>
                     SlotKind(source, s0, fs[i]) == Some(KIND_BINARY_EXPRESSION))
    ensures PayloadOk(s1, UpdatedHeader(h, data, vs))
  {
    hide FieldOk, SlotKind;
    var hs := h.payload.fields;
    if h.payload.tag.BinaryTag? {
      assert SameField(fs[0], hs[0]) && SameField(fs[1], hs[1]) && SameField(fs[2], hs[2]) && SameField(fs[3], hs[3])
             && SameField(fs[4], hs[4]);
      assert SameField(vs[0], fs[0]) && SameField(vs[1], fs[1]) && SameField(vs[2], fs[2]) && SameField(vs[3], fs[3])
             && SameField(vs[4], fs[4]);
    }
  }

  lemma {:induction false} HeaderAppended(s: AstStore, h: NodeHeader)
    requires Built(s) && FieldsOk(s, h.payload.fields) && PayloadOk(s, h)
    ensures Built(Appended(s, h))
  {
    var s' := Appended(s, h);
    KidsInStore(s, h.payload.fields);
    KidsFrame(s, s', |s.nodes|, h.payload.fields);
    PayloadFrame(s, s', |s.nodes|, h);
    AppendStaysBuilt(s, s');
  }

  lemma {:induction false} KidsInStore(s: AstStore, fs: seq<Field>)
    requires FieldsOk(s, fs)
    ensures forall k | k in Kids(s, fs) :: InStore(s, k)
  {
    if fs != [] {
      KidsInStore(s, fs[..|fs| - 1]);
      FieldKidsInStore(s, fs[|fs| - 1]);
    }
  }

  lemma {:induction false} FieldKidsInStore(s: AstStore, f: Field)
    requires FieldOk(s, f)
    ensures forall k | k in FieldKids(s, f) :: InStore(s, k)
  {
    if f.RawField? && f.slice.Some? {
      PresentInSlots(s.rawSlices[f.slice.value.idx]);
    }
  }

  lemma {:induction false} PresentInSlots(es: seq<Option<Node>>)
    ensures forall k | k in Present(es) :: Some(k) in es
  {
    if es != [] {
      PresentInSlots(es[..|es| - 1]);
    }
  }

  lemma {:induction false} ImportedField(s0: AstStore, s1: AstStore, source: AstStore, f: Field, v: Field,
                                         ts: seq<Tree>, cts: seq<Tree>, flagOf: Kind -> Flags)
    requires FieldOk(source, f) && !IsOwn(s0, f) && FieldCloned(s0, s1, source, f, v, ts, cts, false, flagOf)
    ensures Extends(s0, s1) && Imported(s0, s1, source, f, v, ts, cts, flagOf)
  {
  }

  lemma {:induction false} ImportedAppended(s0: AstStore, s1: AstStore, s2: AstStore, source: AstStore,
                                            fs: seq<Field>, vs: seq<Field>, tss: seq<seq<Tree>>, ctss: seq<seq<Tree>>,
                                            flagOf: Kind -> Flags)
    requires AllImported(s0, s1, source, fs, vs, tss, ctss, flagOf) && Extends(s0, s1) && Extends(s1, s2)
    ensures AllImported(s0, s2, source, fs, vs, tss, ctss, flagOf)
  {
    hide Imported;
    forall i | 0 <= i < |vs| ensures Imported(s0, s2, source, fs[i], vs[i], tss[i], ctss[i], flagOf) {
      ImportedLater(s0, s0, s1, s2, source, fs[i], vs[i], tss[i], ctss[i], flagOf);
    }
  }
}
