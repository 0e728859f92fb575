/** What a clone promises its user, stated without reference to how clones are made. */
module CloneTheorems {
  import opened Options
  import opened AstStores
  import opened AstClones
  import opened BinaryChains
  import opened CloneSteps

  // ---- kinds ----

  predicate IsAliasKind(k: Kind) {
    k == KIND_JS_TYPE_ALIAS_DECLARATION || k == KIND_JS_IMPORT_DECLARATION
  }

  /** Looking closely (`full`) one also sees missing lists and what modifier lists say about themselves. */
  predicate SameList(l: ListInfo, cl: ListInfo, comma: bool, full: bool) {
    cl.count == l.count && (comma ==> cl.trailingComma == l.trailingComma) && (full ==> cl.missing == l.missing)
  }

  /** The same field but for places: printing and checking see which children it has, and a node list's trailing
    * comma.
    */
  predicate SameField(sh: Shape, csh: Shape, full: bool) {
    match sh
    case NodeShape(c) => csh.NodeShape? && csh.child.Some? == c.Some?
    case ListShape(l) =>
      csh.ListShape? && csh.list.Some? == l.Some? && (l.Some? ==> SameList(l.value, csh.list.value, true, full))
    case ModifiersShape(m, flags, _) =>
      && csh.ModifiersShape? && csh.modifiers.Some? == m.Some?
      && (m.Some? ==> SameList(m.value, csh.modifiers.value, full, full) && (full ==> csh.flags == flags))
    case RawShape(slots) => csh == RawShape(slots)
  }

  /** The same tree: same kinds, flags, payloads and children at every position, and in full also the fields that no
    * constructor takes.
    */
  ghost predicate SameTree(t: Tree, ct: Tree, full: bool)
    decreases t
  {
    && ct.head.kind == t.head.kind && ct.head.flags == t.head.flags
    && ct.head.tag == t.head.tag && ct.head.data == t.head.data
    && (full ==> ct.head.caches == t.head.caches)
    && |ct.head.shapes| == |t.head.shapes|
    && (forall i | 0 <= i < |t.head.shapes| :: SameField(t.head.shapes[i], ct.head.shapes[i], full))
    && |ct.kids| == |t.kids|
    && forall i | 0 <= i < |t.kids| :: SameTree(t.kids[i], ct.kids[i], full)
  }

  /** A missing list comes back as an ordinary one; a modifier list loses its trailing comma and has its flags
    * computed.
    */
  predicate FieldLost(sh: Shape, flagOf: Kind -> Flags) {
    match sh
    case ListShape(Some(l)) => l.missing
    case ModifiersShape(Some(m), flags, kinds) =>
      m.missing || m.trailingComma || flags != ModifiersToFlags(flagOf, ClonedKinds(kinds))
    case _ => false
  }

  /** A node of the tree has one of the two alias kinds or, looking closely, something else that a clone does not
    * keep.
    */
  ghost predicate Loses(t: Tree, full: bool, flagOf: Kind -> Flags)
    decreases t
  {
    || IsAliasKind(t.head.kind)
    || (full && (t.head.caches != NoCaches
                 || exists i :: 0 <= i < |t.head.shapes| && FieldLost(t.head.shapes[i], flagOf)))
    || exists i :: 0 <= i < |t.kids| && Loses(t.kids[i], full, flagOf)
  }

  /** A clone is the same tree exactly when no node of the original has one of the two alias kinds; and the same in full
    * exactly when, besides, no field is set that no constructor takes and no list says more than its clone will.
    */
  lemma {:induction false} CloneIsSameTree(t: Tree, ct: Tree, full: bool, synthetic: bool, comma: bool,
                                           flagOf: Kind -> Flags)
    requires ClonesTo(t, ct, synthetic, comma, flagOf)
    ensures SameTree(t, ct, full) <==> !Loses(t, full, flagOf)
    decreases t
  {
    hide ModifiersToFlags, ClonedKinds;
    var commas := Commas(t.head.shapes);
    forall i | 0 <= i < |t.kids| ensures SameTree(t.kids[i], ct.kids[i], full) <==> !Loses(t.kids[i], full, flagOf) {
      CloneIsSameTree(t.kids[i], ct.kids[i], full, synthetic, commas[i], flagOf);
    }
    forall i | 0 <= i < |t.head.shapes|
      ensures SameField(t.head.shapes[i], ct.head.shapes[i], full) <==> !(full && FieldLost(t.head.shapes[i], flagOf))
    {
      assert ct.head.shapes[i] == CloneShape(t.head.shapes[i], synthetic, flagOf);
    }
  }

  /** A store that holds one `@import` declaration, none of whose four child fields is set. */
  const JS_IMPORT_STORE := AstStore(
    0,
    [NodeHeader(KIND_JS_IMPORT_DECLARATION, {}, TextRange(0, 10),
                Payload(GeneratedTag(7), "", NoCaches,
                        [ModifiersField(None), NodeField(None), NodeField(None), NodeField(None)], NO_REFS))],
    [], [], [])

  const JS_IMPORT := Tree(
    Node(0, 0),
    Head(KIND_JS_IMPORT_DECLARATION, {}, TextRange(0, 10), GeneratedTag(7), "", NoCaches,
         [ModifiersShape(None, {}, []), NodeShape(None), NodeShape(None), NodeShape(None)]),
    NO_REFS, [])

  lemma {:induction false} JsImportUnfolds()
    ensures Built(JS_IMPORT_STORE) && Unfolds(JS_IMPORT_STORE, JS_IMPORT)
  {
    var s := JS_IMPORT_STORE;
    var fs := s.nodes[0].payload.fields;
    assert fs[..3][..2] == fs[..2] && fs[..2][..1] == fs[..1] && fs[..1][..0] == [];
    assert Kids(s, fs) == Kids(s, fs[..3]) + FieldKids(s, fs[3]);
    assert Kids(s, fs[..3]) == Kids(s, fs[..2]) && Kids(s, fs[..2]) == Kids(s, fs[..1]) && Kids(s, fs[..1]) == [];
    assert Shapes(s, fs) == JS_IMPORT.head.shapes;
    assert HeaderBuilt(s, 0);
  }

  /** It can be cloned into any other store, and whatever node is its clone is a plain import declaration. */
  lemma {:induction false} JsImportLosesKind(current: AstStore, lo: nat, s: AstStore, ct: Tree, synthetic: bool,
                                             flagOf: Kind -> Flags)
    requires current.id != JS_IMPORT_STORE.id
    ensures Clonable(Other(JS_IMPORT_STORE), current, [JS_IMPORT])
    ensures KindOf(JS_IMPORT_STORE, JS_IMPORT.node) == KIND_JS_IMPORT_DECLARATION
    ensures TreeCloned(lo, s, JS_IMPORT, ct, false, synthetic, flagOf) ==>
              KindOf(s, ct.node) == KIND_IMPORT_DECLARATION != KIND_JS_IMPORT_DECLARATION
  {
    JsImportUnfolds();
  }

  // ---- locations ----

  predicate IsPath(t: Tree, path: seq<nat>)
    decreases |path|
  {
    path == [] || (path[0] < |t.kids| && IsPath(t.kids[path[0]], path[1..]))
  }

  function At(t: Tree, path: seq<nat>): Tree
    requires IsPath(t, path)
    decreases |path|
  {
    if path == [] then t else At(t.kids[path[0]], path[1..])
  }

  /** The node at `path` is the last element of a list that had a trailing comma. */
  ghost predicate EndsCommaList(t: Tree, path: seq<nat>, comma: bool)
    requires IsPath(t, path)
    decreases |path|
  {
    if path == [] then comma
    else
      var commas := Commas(t.head.shapes);
      path[0] < |commas| && EndsCommaList(t.kids[path[0]], path[1..], commas[path[0]])
  }

  /** Position by position: a clone stands where its original stood, or nowhere; the last element of a list with a
    * trailing comma is marked.
    */
  lemma {:induction false} CloneLocations(t: Tree, ct: Tree, synthetic: bool, comma: bool, flagOf: Kind -> Flags,
                                          path: seq<nat>)
    requires ClonesTo(t, ct, synthetic, comma, flagOf) && IsPath(t, path)
    ensures IsPath(ct, path)
    ensures var loc := At(ct, path).head.loc;
            && (!synthetic ==> loc == At(t, path).head.loc)
            && (synthetic && EndsCommaList(t, path, comma) ==> loc == TextRange(-2, -2))
            && (synthetic && !EndsCommaList(t, path, comma) ==> loc == TextRange(-1, -1))
    decreases |path|
  {
    if path != [] {
      var i := path[0];
      CloneLocations(t.kids[i], ct.kids[i], synthetic, Commas(t.head.shapes)[i], flagOf, path[1..]);
    }
  }

  // ---- what stands in the stores ----

  lemma {:induction false} CloneAtPath(src: AstStore, s: AstStore, t: Tree, ct: Tree, synthetic: bool, comma: bool,
                                       flagOf: Kind -> Flags, path: seq<nat>) returns (c: bool)
    requires Unfolds(src, t) && Unfolds(s, ct) && ClonesTo(t, ct, synthetic, comma, flagOf) && IsPath(t, path)
    ensures IsPath(ct, path) && Unfolds(src, At(t, path)) && Unfolds(s, At(ct, path))
    ensures ClonesTo(At(t, path), At(ct, path), synthetic, c, flagOf)
    decreases |path|
  {
    c := comma;
    if path != [] {
      var i := path[0];
      c := CloneAtPath(src, s, t.kids[i], ct.kids[i], synthetic, Commas(t.head.shapes)[i], flagOf, path[1..]);
    }
  }

  /** A list that was cloned: its places as they were or nowhere, and as many elements; it is never a missing list. */
  predicate ListCloned(r: NodeListRecord, r': NodeListRecord, synthetic: bool) {
    && (!synthetic ==> r'.loc == r.loc && r'.range == r.range)
    && (synthetic ==> r'.loc == TextRange(-1, -1) && r'.range == TextRange(-1, -1))
    && |r'.nodes| == |r.nodes| && !r'.missing
  }

  /** The nodes stand at the same place among the children of a tree and of its clone. */
  ghost predicate SameKid(t: Tree, ct: Tree, n: Node, n': Node) {
    |t.kids| == |ct.kids| && exists p :: 0 <= p < |t.kids| && t.kids[p].node == n && ct.kids[p].node == n'
  }

  ghost predicate SameKids(t: Tree, ct: Tree, ns: seq<Node>, ns': seq<Node>) {
    |ns| == |ns'| && forall i | 0 <= i < |ns| :: SameKid(t, ct, ns[i], ns'[i])
  }

  /** A field of a node and of its clone hold the same children in the same order. */
  ghost predicate FieldSameKids(src: AstStore, s: AstStore, t: Tree, ct: Tree, f: Field, v: Field)
    requires FieldOk(src, f) && FieldOk(s, v)
  {
    match f
    case NodeField(Some(n)) => v.NodeField? && v.node.Some? && SameKid(t, ct, n, v.node.value)
    case ListField(Some(l)) =>
      v.ListField? && v.list.Some? && SameKids(t, ct, src.lists[l.idx].nodes, s.lists[v.list.value.idx].nodes)
    case ModifiersField(Some(m)) =>
      && v.ModifiersField? && v.modifiers.Some?
      && SameKids(t, ct, src.lists[src.modifierLists[m.idx].list.idx].nodes,
                  s.lists[s.modifierLists[v.modifiers.value.idx].list.idx].nodes)
    case RawField(Some(q)) =>
      && v.RawField? && v.slice.Some?
      && SameKids(t, ct, Present(src.rawSlices[q.idx]), Present(s.rawSlices[v.slice.value.idx]))
    case _ => true
  }

  lemma {:induction false} SameOffsets(src: AstStore, s: AstStore, fs: seq<Field>, vs: seq<Field>)
    requires FieldsOk(src, fs) && FieldsOk(s, vs) && |fs| == |vs|
    requires forall i | 0 <= i < |fs| ::
               FieldOk(src, fs[i]) && FieldOk(s, vs[i]) && |FieldKids(src, fs[i])| == |FieldKids(s, vs[i])|
    ensures |Kids(src, fs)| == |Kids(s, vs)|
  {
    hide FieldKids, FieldOk;
    if fs != [] {
      SameOffsets(src, s, fs[..|fs| - 1], vs[..|vs| - 1]);
    }
  }

  lemma {:induction false} FieldKidsPaired(src: AstStore, s: AstStore, t: Tree, ct: Tree, fs: seq<Field>,
                                           vs: seq<Field>, at: nat)
    requires FieldsOk(src, fs) && FieldsOk(s, vs) && |fs| == |vs| && at < |fs| && |t.kids| == |ct.kids|
    requires Kids(src, fs) == Nodes(t.kids) && Kids(s, vs) == Nodes(ct.kids)
    requires forall i | 0 <= i < |fs| ::
               FieldOk(src, fs[i]) && FieldOk(s, vs[i]) && |FieldKids(src, fs[i])| == |FieldKids(s, vs[i])|
    ensures SameKids(t, ct, FieldKids(src, fs[at]), FieldKids(s, vs[at]))
  {
    hide FieldKids, FieldOk;
    KidsPrefix(src, fs, at);
    KidsPrefix(s, vs, at);
    SameOffsets(src, s, fs[..at], vs[..at]);
    var k := |Kids(src, fs[..at])|;
    var mine := MyField(src, fs, at, t.kids, k);
    var own := MyField(s, vs, at, ct.kids, k);
    forall i | 0 <= i < |mine| ensures SameKid(t, ct, FieldKids(src, fs[at])[i], FieldKids(s, vs[at])[i]) {
      assert mine[i] == t.kids[k + i] && own[i] == ct.kids[k + i];
    }
  }

  lemma {:induction false} FieldCounts(src: AstStore, s: AstStore, f: Field, v: Field, synthetic: bool,
                                       flagOf: Kind -> Flags)
    requires FieldOk(src, f) && FieldOk(s, v) && FieldInStores(src, s, f, v, synthetic, flagOf)
    ensures |FieldKids(src, f)| == |FieldKids(s, v)|
  {
    if f.RawField? && f.slice.Some? {
      PresentCount(src.rawSlices[f.slice.value.idx], s.rawSlices[v.slice.value.idx]);
    }
  }

  lemma {:induction false} PresentCount(es: seq<Option<Node>>, es': seq<Option<Node>>)
    requires |es| == |es'| && forall i | 0 <= i < |es| :: es[i].Some? == es'[i].Some?
    ensures |Present(es)| == |Present(es')|
  {
    if es != [] {
      PresentCount(es[..|es| - 1], es'[..|es'| - 1]);
    }
  }

  /** What a field holds in one store and its clone in another, read off the records of the stores. */
  ghost predicate FieldInStores(src: AstStore, s: AstStore, f: Field, v: Field, synthetic: bool, flagOf: Kind -> Flags)
    requires FieldOk(src, f) && FieldOk(s, v)
  {
    match f
    case NodeField(n) => v.NodeField? && v.node.Some? == n.Some?
    case ListField(None) => v == ListField(None)
    case ListField(Some(l)) =>
      && v.ListField? && v.list.Some?
      && var r, r' := src.lists[l.idx], s.lists[v.list.value.idx];
         ListCloned(r, r', synthetic) && r'.trailingComma == r.trailingComma
    case ModifiersField(None) => v == ModifiersField(None)
    case ModifiersField(Some(m)) =>
      && v.ModifiersField? && v.modifiers.Some?
      && var ms := s.modifierLists[v.modifiers.value.idx];
         var r, r' := src.lists[src.modifierLists[m.idx].list.idx], s.lists[ms.list.idx];
         && ListCloned(r, r', synthetic) && !r'.trailingComma
         && forall x :: x in ms.flags <==> exists i :: 0 <= i < |r'.nodes| && x in flagOf(KindOf(s, r'.nodes[i]))
    case RawField(None) => v == RawField(None)
    case RawField(Some(q)) =>
      && v.RawField? && v.slice.Some?
      && var es, es' := src.rawSlices[q.idx], s.rawSlices[v.slice.value.idx];
         |es'| == |es| && forall i | 0 <= i < |es| :: es'[i].Some? == es[i].Some?
  }

  lemma {:induction false} FlagsOfKinds(flagOf: Kind -> Flags, kinds: seq<Kind>)
    ensures forall x :: x in ModifiersToFlags(flagOf, kinds) <==> exists i :: 0 <= i < |kinds| && x in flagOf(kinds[i])
  {
    if kinds != [] {
      var n := |kinds| - 1;
      FlagsOfKinds(flagOf, kinds[..n]);
      forall x ensures x in ModifiersToFlags(flagOf, kinds) <==> exists i :: 0 <= i < |kinds| && x in flagOf(kinds[i]) {
        if i :| 0 <= i < n && x in flagOf(kinds[..n][i]) {
          assert x in flagOf(kinds[i]);
        }
        if i :| 0 <= i < |kinds| && x in flagOf(kinds[i]) {
          assert i < n ==> x in flagOf(kinds[..n][i]);
        }
      }
    }
  }

  lemma {:induction false} ShapesInStores(src: AstStore, s: AstStore, f: Field, v: Field, synthetic: bool,
                                          flagOf: Kind -> Flags)
    requires FieldOk(src, f) && FieldOk(s, v) && ShapeOf(s, v) == CloneShape(ShapeOf(src, f), synthetic, flagOf)
    ensures FieldInStores(src, s, f, v, synthetic, flagOf)
  {
    match f {
      case ModifiersField(Some(m)) =>
        var ms := s.modifierLists[v.modifiers.value.idx];
        var ns := s.lists[ms.list.idx].nodes;
        FlagsOfKinds(flagOf, KindsOf(s, ns));
        forall x ensures x in ms.flags <==> exists i :: 0 <= i < |ns| && x in flagOf(KindOf(s, ns[i])) {
          assert forall i | 0 <= i < |ns| :: KindsOf(s, ns)[i] == KindOf(s, ns[i]);
        }
      case RawField(Some(q)) =>
        var es, es' := src.rawSlices[q.idx], s.rawSlices[v.slice.value.idx];
        forall i | 0 <= i < |es| ensures |es'| == |es| && es'[i].Some? == es[i].Some? {
          assert SlotsOf(es')[i] == SlotsOf(es)[i];
        }
        assert |SlotsOf(es')| == |SlotsOf(es)|;
      case _ =>
    }
  }

  /** A node and its clone as their stores have them: kind, flags, data and every child field. */
  ghost predicate NodeInStores(src: AstStore, s: AstStore, t: Tree, ct: Tree, synthetic: bool, flagOf: Kind -> Flags) {
    && InStore(src, t.node) && InStore(s, ct.node)
    && var h, h' := src.nodes[t.node.id], s.nodes[ct.node.id];
       && h'.flags == h.flags && h'.payload.tag == h.payload.tag && h'.payload.data == h.payload.data
       && h'.payload.caches == NoCaches
       && (h.kind == KIND_JS_TYPE_ALIAS_DECLARATION ==> h'.kind == KIND_TYPE_ALIAS_DECLARATION)
       && (h.kind == KIND_JS_IMPORT_DECLARATION ==> h'.kind == KIND_IMPORT_DECLARATION)
       && (h.kind != KIND_JS_TYPE_ALIAS_DECLARATION && h.kind != KIND_JS_IMPORT_DECLARATION ==> h'.kind == h.kind)
       && |h'.payload.fields| == |h.payload.fields|
       && forall i | 0 <= i < |h.payload.fields| ::
            && FieldOk(src, h.payload.fields[i]) && FieldOk(s, h'.payload.fields[i])
            && FieldInStores(src, s, h.payload.fields[i], h'.payload.fields[i], synthetic, flagOf)
            && FieldSameKids(src, s, t, ct, h.payload.fields[i], h'.payload.fields[i])
  }

  /** At every position of a cloned tree the node's header and each of its child fields stand in the new store as they
    * should: lists and modifier lists keep their places or lose them by mode, and hold the same children in order.
    */
  lemma {:induction false} CloneInStores(src: AstStore, lo: nat, s: AstStore, t: Tree, ct: Tree, comma: bool,
                                         synthetic: bool, flagOf: Kind -> Flags, path: seq<nat>)
    requires Unfolds(src, t) && TreeCloned(lo, s, t, ct, comma, synthetic, flagOf) && IsPath(t, path)
    ensures IsPath(ct, path) && NodeInStores(src, s, At(t, path), At(ct, path), synthetic, flagOf)
  {
    var c := CloneAtPath(src, s, t, ct, synthetic, comma, flagOf, path);
    hide ClonesTo, NodeInStores;
    CloneAtRoot(src, s, At(t, path), At(ct, path), c, synthetic, flagOf);
  }

  lemma {:induction false} CloneAtRoot(src: AstStore, s: AstStore, t: Tree, ct: Tree, comma: bool, synthetic: bool,
                                       flagOf: Kind -> Flags)
    requires Unfolds(src, t) && Unfolds(s, ct) && ClonesTo(t, ct, synthetic, comma, flagOf)
    ensures NodeInStores(src, s, t, ct, synthetic, flagOf)
  {
    var fs, vs := src.nodes[t.node.id].payload.fields, s.nodes[ct.node.id].payload.fields;
    assert Shapes(s, vs) == CloneShapes(Shapes(src, fs), synthetic, flagOf);
    assert Kids(src, fs) == Nodes(t.kids) && Kids(s, vs) == Nodes(ct.kids);
    ShapesMatch(src, s, fs, vs, synthetic, flagOf);
    hide ShapeOf, CloneShape, FieldInStores, FieldOk, AllRefsClone, Kids, Shapes, FieldSameKids, SameKids, FieldKids;
    forall i | 0 <= i < |fs|
      ensures FieldInStores(src, s, fs[i], vs[i], synthetic, flagOf)
      ensures |FieldKids(src, fs[i])| == |FieldKids(s, vs[i])|
    {
      ShapesInStores(src, s, fs[i], vs[i], synthetic, flagOf);
      FieldCounts(src, s, fs[i], vs[i], synthetic, flagOf);
    }
    forall i | 0 <= i < |fs| ensures FieldSameKids(src, s, t, ct, fs[i], vs[i]) {
      FieldKidsPaired(src, s, t, ct, fs, vs, i);
      PairedField(src, s, t, ct, fs[i], vs[i], synthetic, flagOf);
    }
  }

  lemma {:induction false} PairedField(src: AstStore, s: AstStore, t: Tree, ct: Tree, f: Field, v: Field,
                                       synthetic: bool, flagOf: Kind -> Flags)
    requires FieldOk(src, f) && FieldOk(s, v) && FieldInStores(src, s, f, v, synthetic, flagOf)
    requires SameKids(t, ct, FieldKids(src, f), FieldKids(s, v))
    ensures FieldSameKids(src, s, t, ct, f, v)
  {
    hide SameKid;
    if f.NodeField? && f.node.Some? {
      assert FieldKids(src, f)[0] == f.node.value && FieldKids(s, v)[0] == v.node.value;
    }
  }

  // ---- one clone per node ----

  /** No node occurs twice in the tree. */
  ghost predicate NoSharing(t: Tree)
    decreases t
  {
    && !InForest(t.kids, t.node)
    && (forall i, j, m | 0 <= i < j < |t.kids| && InTree(t.kids[i], m) :: !InTree(t.kids[j], m))
    && forall i | 0 <= i < |t.kids| :: NoSharing(t.kids[i])
  }

  lemma {:induction false} CorrInside(t: Tree, ct: Tree, m: Node, c: Node)
    requires Corr(t, ct, m, c)
    ensures InTree(t, m)
    decreases t
  {
    if !(m == t.node && c == ct.node) {
      var i :| 0 <= i < |t.kids| && Corr(t.kids[i], ct.kids[i], m, c);
      CorrInside(t.kids[i], ct.kids[i], m, c);
    }
  }

  /** Without sharing there is only one clone a reference could be mapped to. */
  lemma {:induction false} OneClone(t: Tree, ct: Tree, m: Node, c: Node, c': Node)
    requires NoSharing(t) && Corr(t, ct, m, c) && Corr(t, ct, m, c')
    ensures c == c'
    decreases t
  {
    if m == t.node {
      NotBelow(t, ct, m, c);
      NotBelow(t, ct, m, c');
    } else {
      var i :| 0 <= i < |t.kids| && Corr(t.kids[i], ct.kids[i], m, c);
      var j :| 0 <= j < |t.kids| && Corr(t.kids[j], ct.kids[j], m, c');
      CorrInside(t.kids[i], ct.kids[i], m, c);
      CorrInside(t.kids[j], ct.kids[j], m, c');
      assert i == j;
      OneClone(t.kids[i], ct.kids[i], m, c, c');
    }
  }

  lemma {:induction false} NotBelow(t: Tree, ct: Tree, m: Node, c: Node)
    requires m == t.node && !InForest(t.kids, m) && Corr(t, ct, m, c)
    ensures c == ct.node
  {
    if c != ct.node {
      var i :| 0 <= i < |t.kids| && Corr(t.kids[i], ct.kids[i], m, c);
      CorrInside(t.kids[i], ct.kids[i], m, c);
    }
  }

  /** A clone stays clear of everything that was there before, and of its original. */
  lemma {:induction false} CloneIsFresh(lo: nat, s: AstStore, t: Tree, ct: Tree, comma: bool, synthetic: bool,
                                        flagOf: Kind -> Flags, m: Node)
    requires TreeCloned(lo, s, t, ct, comma, synthetic, flagOf) && InTree(ct, m)
    ensures InStore(s, m) && lo <= m.id
  {
    FreshBelow(s, ct, lo, m);
  }

  lemma {:induction false} FreshBelow(s: AstStore, ct: Tree, lo: nat, m: Node)
    requires Unfolds(s, ct) && IdsFrom(ct, lo) && InTree(ct, m)
    ensures InStore(s, m) && lo <= m.id
    decreases ct
  {
    if m != ct.node {
      var i :| 0 <= i < |ct.kids| && InTree(ct.kids[i], m);
      FreshBelow(s, ct.kids[i], lo, m);
    }
  }

  /** A reference of a cloned file was the file or one of its descendants and is now the new file or the clone of that
    * descendant: the only one if no node is shared, and reachable from the new file.
    */
  lemma {:induction false} RefIsTheClone(lo: nat, s: AstStore, t: Tree, ct: Tree, r: Node, r': Node, c: Node)
    requires Unfolds(s, ct) && IdsFrom(ct, lo) && |t.kids| == |ct.kids|
    requires NoSharing(t) && RefClones(t, ct, r, r') && Corr(t, ct, r, c)
    ensures r' == c && InTree(ct, c) && InStore(s, c) && lo <= c.id
  {
    assert Corr(t, ct, r, r');
    OneClone(t, ct, r, c, r');
    CorrTarget(t, ct, r, c);
    FreshBelow(s, ct, lo, c);
  }

  /** So it is for all the references of a file: imports, augmentations and both indicators. */
  lemma {:induction false} FileRefsCloned(lo: nat, s: AstStore, t: Tree, ct: Tree, comma: bool, synthetic: bool,
                                          flagOf: Kind -> Flags, r: Node, c: Node)
    requires TreeCloned(lo, s, t, ct, comma, synthetic, flagOf) && NoSharing(t) && Corr(t, ct, r, c)
    ensures InTree(ct, c) && InStore(s, c) && lo <= c.id
    ensures |ct.refs.imports| == |t.refs.imports|
            && forall i | 0 <= i < |t.refs.imports| && t.refs.imports[i] == r :: ct.refs.imports[i] == c
    ensures |ct.refs.augmentations| == |t.refs.augmentations|
            && forall i | 0 <= i < |t.refs.augmentations| && t.refs.augmentations[i] == r ::
                 ct.refs.augmentations[i] == c
    ensures t.refs.commonJs == Some(r) ==> ct.refs.commonJs == Some(c)
    ensures t.refs.external == Some(r) ==> ct.refs.external == Some(c)
  {
    hide Corr, RefClones, Unfolds, IdsFrom, NoSharing;
    CorrTarget(t, ct, r, c);
    FreshBelow(s, ct, lo, c);
    forall i | 0 <= i < |t.refs.imports| && t.refs.imports[i] == r ensures ct.refs.imports[i] == c {
      RefIsTheClone(lo, s, t, ct, r, ct.refs.imports[i], c);
    }
    forall i | 0 <= i < |t.refs.augmentations| && t.refs.augmentations[i] == r ensures ct.refs.augmentations[i] == c {
      RefIsTheClone(lo, s, t, ct, r, ct.refs.augmentations[i], c);
    }
    if t.refs.commonJs == Some(r) {
      RefIsTheClone(lo, s, t, ct, r, ct.refs.commonJs.value, c);
    }
    if t.refs.external == Some(r) {
      RefIsTheClone(lo, s, t, ct, r, ct.refs.external.value, c);
    }
  }

  lemma {:induction false} CorrTarget(t: Tree, ct: Tree, m: Node, c: Node)
    requires Corr(t, ct, m, c)
    ensures InTree(ct, c)
    decreases t
  {
    if !(m == t.node && c == ct.node) {
      var i :| 0 <= i < |t.kids| && Corr(t.kids[i], ct.kids[i], m, c);
      CorrTarget(t.kids[i], ct.kids[i], m, c);
    }
  }

  /** A cloned file's metadata mentions only nodes made for it, even where the original's led out of the file: the new
    * file, nodes below it, and nodes of the trees cloned for its references.
    */
  ghost predicate IsNew(f: OpenFile, s: AstStore, ct: Tree, cused: seq<Tree>, r: Node) {
    InStore(s, r) && |f.base.nodes| <= r.id && (InTree(ct, r) || InForest(cused, r))
  }

  lemma {:induction false} OpenRefsAreNew(f: OpenFile, s: AstStore, ct: Tree, used: seq<Tree>, cused: seq<Tree>,
                                          synthetic: bool, flagOf: Kind -> Flags)
    requires FileCloned(f, s, ct, used, cused, synthetic, flagOf) && f.recorded == map[]
    ensures forall r | r in ct.refs.imports || r in ct.refs.augmentations :: IsNew(f, s, ct, cused, r)
    ensures ct.refs.commonJs.Some? ==> IsNew(f, s, ct, cused, ct.refs.commonJs.value)
    ensures ct.refs.external.Some? ==> IsNew(f, s, ct, cused, ct.refs.external.value)
  {
    hide Found, Unfolds, IdsFrom, KidsClone, ForestCloned, IsNew;
    var refs, crefs := f.t.refs, ct.refs;
    FileIsNew(f, s, ct, used, cused, synthetic, flagOf);
    forall i | 0 <= i < |crefs.imports| ensures IsNew(f, s, ct, cused, crefs.imports[i]) {
      FoundIsNew(f, s, ct, used, cused, synthetic, flagOf, refs.imports[i], crefs.imports[i]);
    }
    forall i | 0 <= i < |crefs.augmentations| ensures IsNew(f, s, ct, cused, crefs.augmentations[i]) {
      FoundIsNew(f, s, ct, used, cused, synthetic, flagOf, refs.augmentations[i], crefs.augmentations[i]);
    }
    if refs.commonJs.Some? && refs.commonJs.value != f.t.node {
      FoundIsNew(f, s, ct, used, cused, synthetic, flagOf, refs.commonJs.value, crefs.commonJs.value);
    }
    if refs.external.Some? && refs.external.value != f.t.node {
      FoundIsNew(f, s, ct, used, cused, synthetic, flagOf, refs.external.value, crefs.external.value);
    }
  }

  lemma {:induction false} FileIsNew(f: OpenFile, s: AstStore, ct: Tree, used: seq<Tree>, cused: seq<Tree>,
                                     synthetic: bool, flagOf: Kind -> Flags)
    requires FileCloned(f, s, ct, used, cused, synthetic, flagOf)
    ensures IsNew(f, s, ct, cused, ct.node)
  {
  }

  lemma {:induction false} FoundIsNew(f: OpenFile, s: AstStore, ct: Tree, used: seq<Tree>, cused: seq<Tree>,
                                      synthetic: bool, flagOf: Kind -> Flags, r: Node, r': Node)
    requires FileCloned(f, s, ct, used, cused, synthetic, flagOf) && f.recorded == map[] && Found(f, used, cused, r, r')
    ensures IsNew(f, s, ct, cused, r')
  {
    hide Unfolds, IdsFrom, TreeCloned, ClonesTo;
    CorrForestSplit(f.t.kids, ct.kids, used, cused, r, r');
    if CorrForest(f.t.kids, ct.kids, r, r') {
      var i :| 0 <= i < |f.t.kids| && Corr(f.t.kids[i], ct.kids[i], r, r');
      CorrTarget(f.t.kids[i], ct.kids[i], r, r');
      FreshBelow(s, ct, |f.base.nodes|, r');
    } else {
      var i :| 0 <= i < |used| && Corr(used[i], cused[i], r, r');
      CorrTarget(used[i], cused[i], r, r');
      CloneIsFresh(|f.base.nodes|, s, used[i], cused[i], Never(|used|)[i], synthetic, flagOf, r');
    }
  }

  // ---- sharing inside a chain ----

  /** `u` and `cu` stand at the same place of a chain and of its clone. */
  ghost predicate OnChainPair(t: Tree, ct: Tree, u: Tree, cu: Tree)
    decreases t
  {
    || (u == t && cu == ct)
    || (|ct.kids| == |t.kids|
        && exists p: nat :: p < |t.kids| && ChainPos(t, p) && OnChainPair(t.kids[p], ct.kids[p], u, cu))
  }

  lemma {:induction false} PairOnChain(all: seq<Tree>, call: seq<Tree>, t: Tree, ct: Tree, u: Tree, cu: Tree)
    requires Linked(all, call) && Distinct(all) && Paired(all, call, t, ct) && OnChainPair(t, ct, u, cu)
    ensures Paired(all, call, u, cu)
    decreases t
  {
    if !(u == t && cu == ct) {
      assert LinkedAt(all, call, t, ct);
      var p: nat :| p < |t.kids| && ChainPos(t, p) && OnChainPair(t.kids[p], ct.kids[p], u, cu);
      PairOnChain(all, call, t.kids[p], ct.kids[p], u, cu);
    }
  }

  /** A binary expression that several members of a chain hold is cloned once, and its clone is what their clones
    * hold.
    */
  lemma {:induction false} MemberClonedOnce(t: Tree, ct: Tree, u: Tree, cu: Tree, u': Tree, cu': Tree)
    requires EachMemberOnce(t, ct) && OnChainPair(t, ct, u, cu) && OnChainPair(t, ct, u', cu')
    ensures u.node == u'.node ==> cu == cu'
  {
    var all, call :| Distinct(all) && Linked(all, call) && Paired(all, call, t, ct);
    PairOnChain(all, call, t, ct, u, cu);
    PairOnChain(all, call, t, ct, u', cu');
  }
}
