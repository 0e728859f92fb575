/** The arena behind the syntax tree: node headers and list records are only ever appended,
  * and a node names its store as well as its index.
  */
module AstStores {
  import opened Options

  type Kind = int
  type Flags = set<nat>

  const KIND_BINARY_EXPRESSION: Kind := 226
  const KIND_SOURCE_FILE: Kind := 306
  const KIND_TYPE_ALIAS_DECLARATION: Kind := 265
  const KIND_IMPORT_DECLARATION: Kind := 272
  const KIND_JS_TYPE_ALIAS_DECLARATION: Kind := 308
  const KIND_JS_IMPORT_DECLARATION: Kind := 309

  datatype TextRange = TextRange(pos: int, end: int)

  const UNDEFINED_RANGE := TextRange(-1, -1)
  // Marks the last element of a synthesized list that had a trailing comma.
  const TRAILING_COMMA_RANGE := TextRange(-2, -2)

  datatype Node = Node(store: nat, id: nat)
  datatype NodeListId = NodeListId(store: nat, idx: nat)
  datatype ModifierListId = ModifierListId(store: nat, idx: nat)
  datatype RawNodeSliceId = RawNodeSliceId(store: nat, idx: nat)

  /** One child field of a payload, in layout order. A required field is one that is never None. */
  datatype Field =
    | NodeField(node: Option<Node>)
    | ListField(list: Option<NodeListId>)
    | ModifiersField(modifiers: Option<ModifierListId>)
    | RawField(slice: Option<RawNodeSliceId>)

  datatype Tag = SourceFileTag | BinaryTag | GeneratedTag(number: nat)

  /** The fields no constructor takes: binder and checker results and a few plain ones. A new node has none of them. */
  datatype Caches = NoCaches | Caches(content: string)

  /** The nodes a source file's metadata mentions besides its children. */
  datatype FileRefs = FileRefs(
    imports: seq<Node>,
    augmentations: seq<Node>,
    commonJs: Option<Node>,
    external: Option<Node>)

  const NO_REFS := FileRefs([], [], None, None)

  datatype Payload = Payload(tag: Tag, data: string, caches: Caches, fields: seq<Field>, refs: FileRefs)

  datatype NodeHeader = NodeHeader(kind: Kind, flags: Flags, loc: TextRange, payload: Payload)

  datatype NodeListRecord = NodeListRecord(
    loc: TextRange, range: TextRange, nodes: seq<Node>, missing: bool, trailingComma: bool)

  datatype ModifierListRecord = ModifierListRecord(list: NodeListId, flags: Flags)

  datatype AstStore = AstStore(
    id: nat,
    nodes: seq<NodeHeader>,
    lists: seq<NodeListRecord>,
    modifierLists: seq<ModifierListRecord>,
    rawSlices: seq<seq<Option<Node>>>)

  predicate InStore(s: AstStore, n: Node) {
    n.store == s.id && n.id < |s.nodes|
  }

  function KindOf(s: AstStore, n: Node): Kind {
    if InStore(s, n) then s.nodes[n.id].kind else -1
  }

  predicate ListOk(s: AstStore, l: NodeListId) {
    l.store == s.id && l.idx < |s.lists| && forall n | n in s.lists[l.idx].nodes :: InStore(s, n)
  }

  predicate FieldOk(s: AstStore, f: Field) {
    match f
    case NodeField(n) => n.Some? ==> InStore(s, n.value)
    case ListField(l) => l.Some? ==> ListOk(s, l.value)
    case ModifiersField(m) =>
      m.Some? ==>
        && m.value.store == s.id
        && m.value.idx < |s.modifierLists|
        && ListOk(s, s.modifierLists[m.value.idx].list)
    case RawField(r) =>
      r.Some? ==>
        && r.value.store == s.id
        && r.value.idx < |s.rawSlices|
        && forall e | e in s.rawSlices[r.value.idx] && e.Some? :: InStore(s, e.value)
  }

  predicate FieldsOk(s: AstStore, fs: seq<Field>) {
    forall f | f in fs :: FieldOk(s, f)
  }

  /** The nodes present in a raw slice, in order. */
  function Present(es: seq<Option<Node>>): seq<Node> {
    if es == [] then []
    else
      var last := es[|es| - 1];
      Present(es[..|es| - 1]) + if last.Some? then [last.value] else []
  }

  /** The child nodes one field contributes, in order. */
  function FieldKids(s: AstStore, f: Field): seq<Node>
    requires FieldOk(s, f)
  {
    match f
    case NodeField(n) => if n.Some? then [n.value] else []
    case ListField(l) => if l.Some? then s.lists[l.value.idx].nodes else []
    case ModifiersField(m) =>
      if m.Some? then s.lists[s.modifierLists[m.value.idx].list.idx].nodes else []
    case RawField(r) => if r.Some? then Present(s.rawSlices[r.value.idx]) else []
  }

  function Kids(s: AstStore, fs: seq<Field>): seq<Node>
    requires FieldsOk(s, fs)
  {
    if fs == [] then [] else Kids(s, fs[..|fs| - 1]) + FieldKids(s, fs[|fs| - 1])
  }

  // ---- what a field says besides which nodes it holds; a child's kind counts as part of it ----

  datatype ListInfo = ListInfo(
    loc: TextRange, range: TextRange, count: nat, missing: bool, trailingComma: bool)

  datatype Shape =
    | NodeShape(child: Option<Kind>)
    | ListShape(list: Option<ListInfo>)
    | ModifiersShape(modifiers: Option<ListInfo>, flags: Flags, kinds: seq<Kind>)
    | RawShape(slots: Option<seq<bool>>)

  function InfoOf(r: NodeListRecord): ListInfo {
    ListInfo(r.loc, r.range, |r.nodes|, r.missing, r.trailingComma)
  }

  function KindsOf(s: AstStore, ns: seq<Node>): seq<Kind> {
    seq(|ns|, i requires 0 <= i < |ns| => KindOf(s, ns[i]))
  }

  function SlotsOf(es: seq<Option<Node>>): seq<bool> {
    seq(|es|, i requires 0 <= i < |es| => es[i].Some?)
  }

  function ShapeOf(s: AstStore, f: Field): Shape
    requires FieldOk(s, f)
  {
    match f
    case NodeField(None) => NodeShape(None)
    case NodeField(Some(n)) => NodeShape(Some(KindOf(s, n)))
    case ListField(None) => ListShape(None)
    case ListField(Some(l)) => ListShape(Some(InfoOf(s.lists[l.idx])))
    case ModifiersField(None) => ModifiersShape(None, {}, [])
    case ModifiersField(Some(m)) =>
      var r := s.lists[s.modifierLists[m.idx].list.idx];
      ModifiersShape(Some(InfoOf(r)), s.modifierLists[m.idx].flags, KindsOf(s, r.nodes))
    case RawField(None) => RawShape(None)
    case RawField(Some(r)) => RawShape(Some(SlotsOf(s.rawSlices[r.idx])))
  }

  function Shapes(s: AstStore, fs: seq<Field>): seq<Shape>
    requires FieldsOk(s, fs)
  {
    seq(|fs|, i requires 0 <= i < |fs| => ShapeOf(s, fs[i]))
  }

  // ---- trees that unfold from a store ----

  datatype Head = Head(
    kind: Kind, flags: Flags, loc: TextRange, tag: Tag, data: string, caches: Caches, shapes: seq<Shape>)

  /** The unfolding of a node: every occurrence keeps the node it came from. */
  datatype Tree = Tree(node: Node, head: Head, refs: FileRefs, kids: seq<Tree>)

  function HeadOf(s: AstStore, h: NodeHeader): Head
    requires FieldsOk(s, h.payload.fields)
  {
    Head(h.kind, h.flags, h.loc, h.payload.tag, h.payload.data, h.payload.caches,
          Shapes(s, h.payload.fields))
  }

  /** The grammar facts the payload types carry: a binary expression has its five child fields, and its type
    * annotation and operator token are never themselves binary expressions.
    */
  predicate PayloadOk(s: AstStore, h: NodeHeader) {
    var fs := h.payload.fields;
    && (h.kind == KIND_BINARY_EXPRESSION <==> h.payload.tag.BinaryTag?)
    && (h.payload.tag.BinaryTag? ==>
          && |fs| == 5
          && fs[0].ModifiersField? && fs[1].NodeField? && fs[2].NodeField? && fs[3].NodeField? && fs[4].NodeField?
          && (fs[2].node.Some? ==> KindOf(s, fs[2].node.value) != KIND_BINARY_EXPRESSION)
          && (fs[3].node.Some? ==> KindOf(s, fs[3].node.value) != KIND_BINARY_EXPRESSION))
    && (h.payload.tag.SourceFileTag? ==>
          && h.kind == KIND_SOURCE_FILE
          && |fs| == 2
          && fs[0].ListField? && fs[0].list.Some? && fs[1].NodeField?)
    && (!h.payload.tag.SourceFileTag? ==> h.payload.refs == NO_REFS)
  }

  ghost predicate Unfolds(s: AstStore, t: Tree)
    decreases t
  {
    && InStore(s, t.node)
    && var h := s.nodes[t.node.id];
    && FieldsOk(s, h.payload.fields)
    && PayloadOk(s, h)
    && t.head == HeadOf(s, h)
    && t.refs == h.payload.refs
    && |t.kids| == |Kids(s, h.payload.fields)|
    && forall i | 0 <= i < |t.kids| ::
         t.kids[i].node == Kids(s, h.payload.fields)[i] && Unfolds(s, t.kids[i])
  }

  ghost predicate AllUnfold(s: AstStore, ts: seq<Tree>) {
    forall i | 0 <= i < |ts| :: Unfolds(s, ts[i])
  }

  function Nodes(ts: seq<Tree>): (ns: seq<Node>)
    ensures |ns| == |ts|
    ensures forall i | 0 <= i < |ts| :: ns[i] == ts[i].node
  {
    seq(|ts|, i requires 0 <= i < |ts| => ts[i].node)
  }

  lemma {:induction false} NodesSplit(ts: seq<Tree>, us: seq<Tree>)
    ensures Nodes(ts + us) == Nodes(ts) + Nodes(us)
  {
  }

  function Size(t: Tree): nat
    decreases t, 0
  {
    1 + Sizes(t.kids)
  }

  function Sizes(ts: seq<Tree>): nat
    decreases ts
  {
    if ts == [] then 0 else Size(ts[0]) + Sizes(ts[1..])
  }

  lemma NoSizes()
    ensures Sizes([]) == 0
  {
  }

  lemma {:induction false} SizesSplit(a: seq<Tree>, b: seq<Tree>)
    ensures Sizes(a + b) == Sizes(a) + Sizes(b)
  {
    if a == [] {
      assert a + b == b;
    } else {
      SizesSplit(a[1..], b);
      assert (a + b)[1..] == a[1..] + b;
    }
  }

  lemma {:induction false} SizesMember(ts: seq<Tree>, i: nat)
    requires i < |ts|
    ensures Size(ts[i]) <= Sizes(ts)
  {
    SizesSplit(ts[..i], ts[i..]);
    assert ts[..i] + ts[i..] == ts;
  }

  /** The nodes a tree mentions. */
  ghost predicate InTree(t: Tree, m: Node)
    decreases t
  {
    m == t.node || exists i :: 0 <= i < |t.kids| && InTree(t.kids[i], m)
  }

  ghost predicate InForest(ts: seq<Tree>, m: Node) {
    exists i :: 0 <= i < |ts| && InTree(ts[i], m)
  }

  /** `m` and `c` stand at the same position of `t` and `ct`. */
  ghost predicate Corr(t: Tree, ct: Tree, m: Node, c: Node)
    decreases t
  {
    || (m == t.node && c == ct.node)
    || (|t.kids| == |ct.kids| && exists i :: 0 <= i < |t.kids| && Corr(t.kids[i], ct.kids[i], m, c))
  }

  ghost predicate CorrForest(ts: seq<Tree>, cts: seq<Tree>, m: Node, c: Node) {
    |ts| == |cts| && exists i :: 0 <= i < |ts| && Corr(ts[i], cts[i], m, c)
  }

  // ---- stores that only grow ----

  predicate Extends(s: AstStore, s': AstStore) {
    && s.id == s'.id
    && s.nodes <= s'.nodes
    && s.lists <= s'.lists
    && s.modifierLists <= s'.modifierLists
    && s.rawSlices <= s'.rawSlices
  }

  /** Grown lists, no kind changed, and every header below `bound` untouched. */
  ghost predicate AgreesBelow(s: AstStore, s': AstStore, bound: nat) {
    && s.id == s'.id
    && |s.nodes| <= |s'.nodes|
    && (forall i | 0 <= i < |s.nodes| :: s.nodes[i].kind == s'.nodes[i].kind)
    && (forall i | 0 <= i < |s.nodes| && i < bound :: s.nodes[i] == s'.nodes[i])
    && s.lists <= s'.lists
    && s.modifierLists <= s'.modifierLists
    && s.rawSlices <= s'.rawSlices
  }

  ghost predicate IdsBelow(t: Tree, bound: nat)
    decreases t
  {
    t.node.id < bound && forall i | 0 <= i < |t.kids| :: IdsBelow(t.kids[i], bound)
  }

  /** The tree was allocated bottom up, at or after index `lo`. */
  ghost predicate IdsFrom(t: Tree, lo: nat)
    decreases t
  {
    && lo <= t.node.id
    && forall i | 0 <= i < |t.kids| :: t.kids[i].node.id < t.node.id && IdsFrom(t.kids[i], lo)
  }

  lemma {:induction false} IdsFromBelow(t: Tree, lo: nat, bound: nat)
    requires IdsFrom(t, lo) && t.node.id < bound
    ensures IdsBelow(t, bound)
    decreases t
  {
    forall i | 0 <= i < |t.kids| ensures IdsBelow(t.kids[i], bound) {
      IdsFromBelow(t.kids[i], lo, bound);
    }
  }

  lemma {:induction false} IdsFromWeaken(t: Tree, lo: nat, lo': nat)
    requires IdsFrom(t, lo) && lo' <= lo
    ensures IdsFrom(t, lo')
    decreases t
  {
    forall i | 0 <= i < |t.kids| ensures IdsFrom(t.kids[i], lo') {
      IdsFromWeaken(t.kids[i], lo, lo');
    }
  }

  lemma {:induction false} UnfoldsBelow(s: AstStore, t: Tree)
    requires Unfolds(s, t)
    ensures IdsBelow(t, |s.nodes|)
    decreases t
  {
    forall i | 0 <= i < |t.kids| ensures IdsBelow(t.kids[i], |s.nodes|) {
      UnfoldsBelow(s, t.kids[i]);
    }
  }

  lemma {:induction false} FieldFrame(s: AstStore, s': AstStore, bound: nat, f: Field)
    requires AgreesBelow(s, s', bound) && FieldOk(s, f)
    ensures FieldOk(s', f)
    ensures FieldKids(s', f) == FieldKids(s, f)
    ensures ShapeOf(s', f) == ShapeOf(s, f)
  {
    if f.ModifiersField? && f.modifiers.Some? {
      var ns := s.lists[s.modifierLists[f.modifiers.value.idx].list.idx].nodes;
      assert KindsOf(s, ns) == KindsOf(s', ns);
    }
  }

  lemma {:induction false} KidsFrame(s: AstStore, s': AstStore, bound: nat, fs: seq<Field>)
    requires AgreesBelow(s, s', bound) && FieldsOk(s, fs)
    ensures FieldsOk(s', fs)
    ensures Kids(s', fs) == Kids(s, fs)
  {
    forall f | f in fs ensures FieldOk(s', f) {
      FieldFrame(s, s', bound, f);
    }
    if fs != [] {
      KidsFrame(s, s', bound, fs[..|fs| - 1]);
      FieldFrame(s, s', bound, fs[|fs| - 1]);
    }
  }

  lemma {:induction false} ShapesFrame(s: AstStore, s': AstStore, bound: nat, fs: seq<Field>)
    requires AgreesBelow(s, s', bound) && FieldsOk(s, fs)
    ensures FieldsOk(s', fs)
    ensures Shapes(s', fs) == Shapes(s, fs)
  {
    KidsFrame(s, s', bound, fs);
    forall i | 0 <= i < |fs| ensures ShapeOf(s', fs[i]) == ShapeOf(s, fs[i]) {
      FieldFrame(s, s', bound, fs[i]);
    }
  }

  lemma {:induction false} PayloadFrame(s: AstStore, s': AstStore, bound: nat, h: NodeHeader)
    requires AgreesBelow(s, s', bound) && FieldsOk(s, h.payload.fields) && PayloadOk(s, h)
    ensures PayloadOk(s', h)
  {
    if h.payload.tag.BinaryTag? {
      assert FieldOk(s, h.payload.fields[2]) && FieldOk(s, h.payload.fields[3]);
    }
  }

  /** An unfolding survives every change that leaves its own headers and all recorded lists alone. */
  lemma {:induction false} UnfoldsFrame(s: AstStore, s': AstStore, bound: nat, t: Tree)
    requires AgreesBelow(s, s', bound) && Unfolds(s, t) && IdsBelow(t, bound)
    ensures Unfolds(s', t)
    decreases t
  {
    var h := s.nodes[t.node.id];
    KidsFrame(s, s', bound, h.payload.fields);
    ShapesFrame(s, s', bound, h.payload.fields);
    PayloadFrame(s, s', bound, h);
    forall i | 0 <= i < |t.kids|
      ensures t.kids[i].node == Kids(s', h.payload.fields)[i] && Unfolds(s', t.kids[i])
    {
      UnfoldsFrame(s, s', bound, t.kids[i]);
    }
  }

  lemma {:induction false} UnfoldsExtends(s: AstStore, s': AstStore, t: Tree)
    requires Extends(s, s') && Unfolds(s, t)
    ensures Unfolds(s', t)
  {
    UnfoldsBelow(s, t);
    UnfoldsFrame(s, s', |s.nodes|, t);
  }

  lemma {:induction false} AllUnfoldExtends(s: AstStore, s': AstStore, ts: seq<Tree>)
    requires Extends(s, s') && AllUnfold(s, ts)
    ensures AllUnfold(s', ts)
  {
    forall i | 0 <= i < |ts| ensures Unfolds(s', ts[i]) {
      UnfoldsExtends(s, s', ts[i]);
    }
  }

  /** A node has at most one unfolding. */
  lemma {:induction false} UnfoldingUnique(s: AstStore, t: Tree, u: Tree)
    requires Unfolds(s, t) && Unfolds(s, u) && t.node == u.node
    ensures t == u
    decreases t
  {
    forall i | 0 <= i < |t.kids| ensures t.kids[i] == u.kids[i] {
      UnfoldingUnique(s, t.kids[i], u.kids[i]);
    }
    assert t.kids == u.kids;
  }

  /** Every reference held by a node of the store stays in the store and goes to a node of lower rank. */
  ghost predicate Ranked(s: AstStore, rank: seq<nat>) {
    && |rank| == |s.nodes|
    && forall i | 0 <= i < |s.nodes| ::
         var fs := s.nodes[i].payload.fields;
         && FieldsOk(s, fs)
         && PayloadOk(s, s.nodes[i])
         && forall k | k in Kids(s, fs) :: InStore(s, k) && rank[k.id] < rank[i]
  }

  /** Acyclic nodes are exactly those that have an unfolding: a rank is enough to build it. */
  lemma {:induction false} RankedUnfolds(s: AstStore, rank: seq<nat>, n: Node) returns (t: Tree)
    requires Ranked(s, rank) && InStore(s, n)
    ensures Unfolds(s, t) && t.node == n
    decreases rank[n.id]
  {
    var h := s.nodes[n.id];
    var ks := Kids(s, h.payload.fields);
    var kids: seq<Tree> := [];
    while |kids| < |ks|
      invariant |kids| <= |ks|
      invariant forall i | 0 <= i < |kids| :: kids[i].node == ks[i] && Unfolds(s, kids[i])
    {
      assert ks[|kids|] in ks;
      var kid := RankedUnfolds(s, rank, ks[|kids|]);
      kids := kids + [kid];
    }
    t := Tree(n, HeadOf(s, h), h.payload.refs, kids);
  }

  // ---- stores made by appending ----

  /** Everything a store holds belongs to it, and children come before the nodes that hold them. */
  ghost predicate Built(s: AstStore) {
    && (forall i | 0 <= i < |s.nodes| :: HeaderBuilt(s, i))
    && ListsBuilt(s)
  }

  ghost predicate ListsBuilt(s: AstStore) {
    && (forall l | l in s.lists :: forall n | n in l.nodes :: InStore(s, n))
    && (forall m | m in s.modifierLists :: ListOk(s, m.list))
    && (forall r | r in s.rawSlices :: forall e | e in r && e.Some? :: InStore(s, e.value))
  }

  ghost predicate HeaderBuilt(s: AstStore, i: nat)
    requires i < |s.nodes|
  {
    var h := s.nodes[i];
    && FieldsOk(s, h.payload.fields)
    && PayloadOk(s, h)
    && forall k | k in Kids(s, h.payload.fields) :: InStore(s, k) && k.id < i
  }

  lemma {:induction false} HeaderStaysBuilt(s: AstStore, s': AstStore, i: nat)
    requires AgreesBelow(s, s', 0) && i < |s.nodes| && HeaderBuilt(s, i)
    requires s'.nodes[i].payload == s.nodes[i].payload
    ensures HeaderBuilt(s', i)
  {
    hide Kids, FieldOk;
    KidsFrame(s, s', 0, s.nodes[i].payload.fields);
    PayloadFrame(s, s', 0, s.nodes[i]);
  }

  /** Growing lists and moving nodes keeps a store built. */
  lemma {:induction false} StaysBuilt(s: AstStore, s': AstStore)
    requires Built(s) && AgreesBelow(s, s', 0) && |s'.nodes| == |s.nodes|
    requires forall i | 0 <= i < |s.nodes| :: s'.nodes[i].payload == s.nodes[i].payload
    requires forall i | |s.lists| <= i < |s'.lists| :: forall n | n in s'.lists[i].nodes :: InStore(s', n)
    requires forall i | |s.modifierLists| <= i < |s'.modifierLists| :: ListOk(s', s'.modifierLists[i].list)
    requires forall i | |s.rawSlices| <= i < |s'.rawSlices| ::
               forall e | e in s'.rawSlices[i] && e.Some? :: InStore(s', e.value)
    ensures Built(s')
  {
    hide HeaderBuilt;
    forall i | 0 <= i < |s'.nodes| ensures HeaderBuilt(s', i) {
      HeaderStaysBuilt(s, s', i);
    }
    forall l | l in s'.lists ensures forall n | n in l.nodes :: InStore(s', n) {
      var i :| 0 <= i < |s'.lists| && s'.lists[i] == l;
      assert i < |s.lists| ==> s.lists[i] in s.lists;
    }
    forall m | m in s'.modifierLists ensures ListOk(s', m.list) {
      var i :| 0 <= i < |s'.modifierLists| && s'.modifierLists[i] == m;
      assert i < |s.modifierLists| ==> s.modifierLists[i] in s.modifierLists;
    }
    forall r | r in s'.rawSlices ensures forall e | e in r && e.Some? :: InStore(s', e.value) {
      var i :| 0 <= i < |s'.rawSlices| && s'.rawSlices[i] == r;
      assert i < |s.rawSlices| ==> s.rawSlices[i] in s.rawSlices;
    }
  }

  /** So does appending the root of a tree. */
  lemma {:induction false} RootStaysBuilt(s: AstStore, s': AstStore, t: Tree, lo: nat)
    requires Built(s) && Extends(s, s') && |s'.nodes| == |s.nodes| + 1
    requires s'.lists == s.lists && s'.modifierLists == s.modifierLists && s'.rawSlices == s.rawSlices
    requires Unfolds(s', t) && IdsFrom(t, lo) && t.node.id == |s.nodes|
    ensures Built(s')
  {
    RootBuilt(s', t, lo);
    AppendStaysBuilt(s, s');
  }

  lemma {:induction false} AppendStaysBuilt(s: AstStore, s': AstStore)
    requires Built(s) && Extends(s, s') && |s'.nodes| == |s.nodes| + 1
    requires s'.lists == s.lists && s'.modifierLists == s.modifierLists && s'.rawSlices == s.rawSlices
    requires HeaderBuilt(s', |s.nodes|)
    ensures Built(s')
  {
    forall i | 0 <= i < |s.nodes| ensures HeaderBuilt(s', i) {
      HeaderStaysBuilt(s, s', i);
    }
    ListsStayBuilt(s, s');
  }

  lemma {:induction false} ListsStayBuilt(s: AstStore, s': AstStore)
    requires ListsBuilt(s) && s.id == s'.id && |s.nodes| <= |s'.nodes|
    requires s'.lists == s.lists && s'.modifierLists == s.modifierLists && s'.rawSlices == s.rawSlices
    ensures ListsBuilt(s')
  {
  }

  lemma {:induction false} RootBuilt(s: AstStore, t: Tree, lo: nat)
    requires Unfolds(s, t) && IdsFrom(t, lo)
    ensures HeaderBuilt(s, t.node.id)
  {
    var ks := Kids(s, s.nodes[t.node.id].payload.fields);
    forall k | k in ks ensures InStore(s, k) && k.id < t.node.id {
      var i :| 0 <= i < |ks| && ks[i] == k;
      assert t.kids[i].node == k;
      assert Unfolds(s, t.kids[i]);
    }
  }

  /** A built store has no cycles: every node of it unfolds. */
  lemma {:induction false} BuiltUnfolds(s: AstStore, n: Node) returns (t: Tree)
    requires Built(s) && InStore(s, n)
    ensures Unfolds(s, t) && t.node == n
  {
    var rank: seq<nat> := seq(|s.nodes|, i => i);
    forall i | 0 <= i < |s.nodes|
      ensures var fs := s.nodes[i].payload.fields;
              && FieldsOk(s, fs)
              && PayloadOk(s, s.nodes[i])
              && forall k | k in Kids(s, fs) :: InStore(s, k) && rank[k.id] < rank[i]
    {
      assert HeaderBuilt(s, i);
    }
    t := RankedUnfolds(s, rank, n);
  }
}
