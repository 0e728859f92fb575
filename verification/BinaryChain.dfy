/** Chains of binary expressions: what it means to clone one with an explicit stack instead of by recursion. */
module BinaryChains {
  import opened Options
  import opened AstStores
  import opened AstClones
  import opened CloneSteps

  /** Position `p` of a binary expression holds an operand that is itself a binary expression. */
  predicate ChainPos(t: Tree, p: nat): (b: bool)
    ensures b ==> p < |t.kids|
  {
    && p < |t.kids|
    && |t.head.shapes| == 5
    && |ShapeCommas(t.head.shapes[0])| <= p
    && t.kids[p].head.kind == KIND_BINARY_EXPRESSION
  }

  /** `u` is reached from `t` by going from binary expressions to their binary operands. */
  ghost predicate OnChain(t: Tree, u: Tree)
    decreases t
  {
    u == t || exists p: nat :: p < |t.kids| && ChainPos(t, p) && OnChain(t.kids[p], u)
  }

  lemma {:induction false} OnChainStep(t: Tree, u: Tree, p: nat)
    requires OnChain(t, u) && ChainPos(u, p)
    ensures OnChain(t, u.kids[p])
    decreases t
  {
    if u == t {
      assert OnChain(t.kids[p], u.kids[p]);
    } else {
      var q: nat :| q < |t.kids| && ChainPos(t, q) && OnChain(t.kids[q], u);
      OnChainStep(t.kids[q], u, p);
    }
  }

  /** Trees cloned so far with their clones: all different nodes, each linked to the clones of its operands. */
  ghost predicate Paired(all: seq<Tree>, call: seq<Tree>, u: Tree, cu: Tree) {
    exists k :: 0 <= k < |all| && k < |call| && all[k] == u && call[k] == cu
  }

  ghost predicate Linked(all: seq<Tree>, call: seq<Tree>) {
    && |all| == |call|
    && forall k | 0 <= k < |all| :: LinkedAt(all, call, all[k], call[k])
  }

  ghost predicate LinkedAt(all: seq<Tree>, call: seq<Tree>, u: Tree, cu: Tree) {
    && |cu.kids| == |u.kids|
    && forall p: nat | p < |u.kids| && ChainPos(u, p) :: Paired(all, call, u.kids[p], cu.kids[p])
  }

  ghost predicate Distinct(all: seq<Tree>) {
    forall i, j | 0 <= i < j < |all| :: all[i].node != all[j].node
  }

  /** Some table holds every member of the chain under `t` once, each linked to the clones of its operands. */
  ghost predicate EachMemberOnce(t: Tree, ct: Tree) {
    exists all, call :: Distinct(all) && Linked(all, call) && Paired(all, call, t, ct)
  }

  lemma {:induction false} ChainCorr(all: seq<Tree>, call: seq<Tree>, t: Tree, ct: Tree, u: Tree, cu: Tree, m: Node,
                                     c: Node)
    requires Linked(all, call) && Distinct(all)
    requires Paired(all, call, t, ct) && Paired(all, call, u, cu)
    requires OnChain(t, u) && Corr(u, cu, m, c)
    ensures Corr(t, ct, m, c)
    decreases t
  {
    var k :| 0 <= k < |all| && all[k] == t && call[k] == ct;
    assert LinkedAt(all, call, t, ct);
    if u == t {
      var j :| 0 <= j < |all| && all[j] == u && call[j] == cu;
      assert j == k;
    } else {
      var p: nat :| p < |t.kids| && ChainPos(t, p) && OnChain(t.kids[p], u);
      ChainCorr(all, call, t.kids[p], ct.kids[p], u, cu, m, c);
    }
  }

  lemma {:induction false} ChainInside(t: Tree, u: Tree, m: Node)
    requires OnChain(t, u) && InTree(u, m)
    ensures InTree(t, m)
    decreases t
  {
    if u != t {
      var p: nat :| p < |t.kids| && ChainPos(t, p) && OnChain(t.kids[p], u);
      ChainInside(t.kids[p], u, m);
    }
  }

  /** What the recorder holds for a whole chain is what it must hold for the chain's root. */
  lemma {:induction false} ChainRecorded(r0: Option<map<nat, Node>>, r1: Option<map<nat, Node>>, sid: nat,
                      all: seq<Tree>, call: seq<Tree>, t: Tree, ct: Tree)
    requires Linked(all, call) && Distinct(all) && Paired(all, call, t, ct)
    requires forall k | 0 <= k < |all| :: OnChain(t, all[k])
    requires RecorderStep(r0, r1, sid, all, call)
    ensures RecorderStep(r0, r1, sid, [t], [ct])
  {
    if r0.Some? {
      forall k: nat
        ensures InForest(all, Node(sid, k)) <==> InForest([t], Node(sid, k))
        ensures InForest([t], Node(sid, k)) ==> k in r1.value && CorrForest([t], [ct], Node(sid, k), r1.value[k])
      {
        var m := Node(sid, k);
        InForestOne(t, m);
        var r :| 0 <= r < |all| && all[r] == t && call[r] == ct;
        if InTree(t, m) {
          assert InTree(all[r], m);
        }
        if InForest(all, m) {
          var i :| 0 <= i < |all| && InTree(all[i], m);
          ChainInside(t, all[i], m);
          var j :| 0 <= j < |all| && Corr(all[j], call[j], m, r1.value[k]);
          assert Paired(all, call, all[j], call[j]);
          ChainCorr(all, call, t, ct, all[j], call[j], m, r1.value[k]);
          assert Corr([t][0], [ct][0], m, r1.value[k]);
        }
      }
    }
  }

  // ---- the two operands of a binary expression ----

  lemma {:induction false} FiveFields(s: AstStore, fs: seq<Field>)
    requires FieldsOk(s, fs) && |fs| == 5
    ensures Kids(s, fs) == FieldKids(s, fs[0]) + FieldKids(s, fs[1]) + FieldKids(s, fs[2]) + FieldKids(s, fs[3])
                           + FieldKids(s, fs[4])
  {
    hide FieldKids, FieldOk;
    KidsPrefix(s, fs, 0);
    KidsPrefix(s, fs, 1);
    KidsPrefix(s, fs, 2);
    KidsPrefix(s, fs, 3);
    KidsPrefix(s, fs, 4);
    assert fs[..5] == fs && fs[..0] == [];
  }

  function FieldsOf(src: AstStore, u: Tree): (fs: seq<Field>)
    requires Unfolds(src, u)
    ensures FieldsOk(src, fs)
  {
    src.nodes[u.node.id].payload.fields
  }

  predicate IsBinary(src: AstStore, slot: Option<Node>) {
    slot.Some? && KindOf(src, slot.value) == KIND_BINARY_EXPRESSION
  }

  /** A binary tree of the chain that starts at `t`. */
  ghost predicate ChainMember(src: AstStore, t: Tree, u: Tree) {
    && Unfolds(src, u)
    && SelfContained(u)
    && u.head.kind == KIND_BINARY_EXPRESSION
    && OnChain(t, u)
    && Size(u) <= Size(t)
  }

  lemma {:induction false} ModifierKids(src: AstStore, u: Tree)
    requires Unfolds(src, u) && u.head.kind == KIND_BINARY_EXPRESSION
    ensures var fs := FieldsOf(src, u);
            && |fs| == |u.head.shapes| == 5
            && fs[0].ModifiersField? && fs[1].NodeField? && fs[2].NodeField? && fs[3].NodeField? && fs[4].NodeField?
            && !IsBinary(src, fs[2].node) && !IsBinary(src, fs[3].node)
            && FieldsOk(src, fs) && Kids(src, fs) == Nodes(u.kids)
            && FieldOk(src, fs[0]) && |ShapeCommas(u.head.shapes[0])| == |FieldKids(src, fs[0])|
  {
    var fs := FieldsOf(src, u);
    assert fs[0] in fs;
    FieldCommas(src, fs[0]);
  }

  /** The kid of the field at `at`, if it is binary, stands at a chain position; modifiers never do. */
  lemma {:induction false} FieldPos(src: AstStore, u: Tree, at: nat, k: nat)
    requires Unfolds(src, u) && u.head.kind == KIND_BINARY_EXPRESSION
    requires var fs := FieldsOf(src, u); FieldsOk(src, fs) && at < |fs| && k == |Kids(src, fs[..at])|
    ensures FieldOk(src, FieldsOf(src, u)[at])
    ensures at == 0 ==> forall p: nat | p < k + |FieldKids(src, FieldsOf(src, u)[at])| :: !ChainPos(u, p)
    ensures var f := FieldsOf(src, u)[at];
            at > 0 ==>
              && f.NodeField?
              && (f.node.Some? ==>
                    && k < |u.kids| && u.kids[k].node == f.node.value
                    && (ChainPos(u, k) <==> IsBinary(src, f.node)))
  {
    hide Shapes, ShapeCommas, FieldOk, FieldKids;
    var fs := FieldsOf(src, u);
    assert fs[at] in fs;
    ModifierKids(src, u);
    KidsPrefix(src, fs, 0);
    KidsPrefix(src, fs, at);
    if at > 0 {
      KidsPrefix(src, fs[..at], 0);
      assert fs[..at][..1] == fs[..1] && fs[..at][..0] == [] == fs[..0];
      KidsPrefix(src, fs[..at], 1);
      KidsPrefix(src, fs, at + 1);
      FieldPosAt(src, u, at, k);
    }
  }

  lemma {:induction false} FieldPosAt(src: AstStore, u: Tree, at: nat, k: nat)
    requires Unfolds(src, u)
    requires var fs := FieldsOf(src, u);
             && 0 < at < |fs| && fs[at].NodeField? && FieldsOk(src, fs) && FieldOk(src, fs[at])
             && Kids(src, fs) == Nodes(u.kids)
             && FieldsOk(src, fs[..at]) && FieldsOk(src, fs[..at + 1])
             && k == |Kids(src, fs[..at])|
             && Kids(src, fs[..at + 1]) == Kids(src, fs[..at]) + FieldKids(src, fs[at])
             && Kids(src, fs[..at + 1]) <= Kids(src, fs)
             && |ShapeCommas(u.head.shapes[0])| <= k && |u.head.shapes| == 5
    ensures var f := FieldsOf(src, u)[at];
            f.node.Some? ==>
              && k < |u.kids| && u.kids[k].node == f.node.value
              && (ChainPos(u, k) <==> IsBinary(src, f.node))
  {
    var f := FieldsOf(src, u)[at];
    if f.node.Some? {
      assert Kids(src, FieldsOf(src, u)[..at + 1])[k] == f.node.value;
      assert Unfolds(src, u.kids[k]);
    }
  }

  lemma {:induction false} OneKid(src: AstStore, f: Field)
    requires f.NodeField? && FieldOk(src, f)
    ensures FieldKids(src, f) == Slot(f.node)
  {
  }

  /** Chain positions are the places of the left and the right operand. */
  lemma {:induction false} OperandOnly(src: AstStore, u: Tree, p: nat)
    requires Unfolds(src, u) && u.head.kind == KIND_BINARY_EXPRESSION && ChainPos(u, p)
    ensures var fs := FieldsOf(src, u);
            && |fs| == 5 && FieldsOk(src, fs) && FieldsOk(src, fs[..1]) && FieldsOk(src, fs[..4])
            && fs[1].NodeField? && fs[4].NodeField?
            && (   (IsBinary(src, fs[1].node) && p == |Kids(src, fs[..1])|)
                || (IsBinary(src, fs[4].node) && p == |Kids(src, fs[..4])|))
  {
    hide FieldKids, FieldOk, Shapes;
    ModifierKids(src, u);
    var fs := FieldsOf(src, u);
    forall i | 1 <= i < 5 ensures FieldOk(src, fs[i]) && FieldKids(src, fs[i]) == Slot(fs[i].node) {
      assert fs[i] in fs;
      OneKid(src, fs[i]);
    }
    FiveFields(src, fs);
    KidsPrefix(src, fs, 0);
    KidsPrefix(src, fs, 1);
    KidsPrefix(src, fs, 2);
    KidsPrefix(src, fs, 3);
    assert fs[..0] == [];
    KidIsBinary(src, u, p);
  }

  lemma {:induction false} KidIsBinary(src: AstStore, u: Tree, p: nat)
    requires Unfolds(src, u) && ChainPos(u, p)
    ensures p < |u.kids| && FieldsOk(src, FieldsOf(src, u)) && |u.kids| == |Kids(src, FieldsOf(src, u))|
    ensures IsBinary(src, Some(Kids(src, FieldsOf(src, u))[p]))
  {
    assert Unfolds(src, u.kids[p]);
  }

  lemma {:induction false} TwoSlices(ts: seq<Tree>, l: nat, a: nat, r: nat, b: nat)
    requires l + a <= r && r + b <= |ts|
    ensures Sizes(ts[l..l + a]) + Sizes(ts[r..r + b]) <= Sizes(ts)
  {
    hide Sizes;
    SizesSplit(ts[..r], ts[r..]);
    assert ts[..r] + ts[r..] == ts;
    SizesSlice(ts[..r], l, a);
    SizesSlice(ts[r..], 0, b);
    assert ts[..r][l..l + a] == ts[l..l + a] && ts[r..][0..b] == ts[r..r + b];
  }

  /** Where the operands of a binary tree stand among its kids. */
  lemma {:induction false} OperandPlaces(src: AstStore, u: Tree) returns (l: nat, a: nat, r: nat, b: nat)
    requires Unfolds(src, u) && u.head.kind == KIND_BINARY_EXPRESSION
    ensures l + a <= r && r + b <= |u.kids|
    ensures var fs := FieldsOf(src, u);
            && |fs| == 5 && fs[1].NodeField? && fs[4].NodeField?
            && (if IsBinary(src, fs[1].node) then a == 1 && u.kids[l].node == fs[1].node.value else a == 0)
            && (if IsBinary(src, fs[4].node) then b == 1 && u.kids[r].node == fs[4].node.value else b == 0)
    ensures forall p: nat :: ChainPos(u, p) <==> (a == 1 && p == l) || (b == 1 && p == r)
  {
    hide Shapes, FieldOk, FieldKids;
    ModifierKids(src, u);
    var fs := FieldsOf(src, u);
    KidsPrefix(src, fs, 1);
    KidsPrefix(src, fs, 4);
    assert fs[..4][..2] == fs[..2];
    KidsPrefix(src, fs[..4], 2);
    l, r := |Kids(src, fs[..1])|, |Kids(src, fs[..4])|;
    a := if IsBinary(src, fs[1].node) then 1 else 0;
    b := if IsBinary(src, fs[4].node) then 1 else 0;
    FieldPos(src, u, 1, l);
    FieldPos(src, u, 4, r);
    if a == 1 {
      OneKid(src, fs[1]);
    }
    forall p: nat | ChainPos(u, p) ensures (a == 1 && p == l) || (b == 1 && p == r) {
      OperandOnly(src, u, p);
    }
  }

  /** The binary operands of a chain member, left one and right one. */
  lemma {:induction false} Operands(src: AstStore, t: Tree, u: Tree) returns (ls: seq<Tree>, rs: seq<Tree>)
    requires ChainMember(src, t, u)
    ensures var fs := FieldsOf(src, u);
            && |fs| == 5 && fs[1].NodeField? && fs[4].NodeField?
            && (if IsBinary(src, fs[1].node) then |ls| == 1 && ls[0].node == fs[1].node.value else ls == [])
            && (if IsBinary(src, fs[4].node) then |rs| == 1 && rs[0].node == fs[4].node.value else rs == [])
    ensures forall x | x in ls + rs :: ChainMember(src, t, x) && Size(x) < Size(u)
    ensures forall p: nat | ChainPos(u, p) :: u.kids[p] in ls + rs
    ensures Sizes(ls) + Sizes(rs) < Size(u)
  {
    hide FieldsOf, IsBinary, Size, Sizes, ChainPos, OnChain, SelfContained, Unfolds;
    var l, a, r, b := OperandPlaces(src, u);
    ls, rs := u.kids[l..l + a], u.kids[r..r + b];
    TwoSlices(u.kids, l, a, r, b);
    RootSize(u);
    if a == 1 {
      OperandMember(src, t, u, l);
      assert ls == [u.kids[l]];
    }
    if b == 1 {
      OperandMember(src, t, u, r);
      assert rs == [u.kids[r]];
    }
  }

  lemma {:induction false} RootSize(u: Tree)
    ensures Size(u) == 1 + Sizes(u.kids)
  {
  }

  lemma {:induction false} OperandMember(src: AstStore, t: Tree, u: Tree, p: nat)
    requires ChainMember(src, t, u) && ChainPos(u, p)
    ensures ChainMember(src, t, u.kids[p]) && Size(u.kids[p]) < Size(u)
  {
    SizesMember(u.kids, p);
    OnChainStep(t, u, p);
  }

  // ---- cloning one member whose binary operands are cloned already ----

  /** What a chain clone has done so far: from which store and recorder it started, and which members it cloned. */
  datatype Chain = Chain(
    base: AstStore, recorder: Option<map<nat, Node>>, src: AstStore, all: seq<Tree>, call: seq<Tree>)

  /** Clones of the kids of one member so far; `extra` are the kids that were cloned for it alone. */
  datatype Progress = Progress(cts: seq<Tree>, extra: seq<Tree>, cextra: seq<Tree>)

  ghost predicate ChainCloned(c: Chain, s: AstStore, r: Option<map<nat, Node>>, synthetic: bool,
                              flagOf: Kind -> Flags) {
    && |c.all| == |c.call|
    && ForestCloned(c.base, s, c.all, c.call, Never(|c.all|), synthetic, flagOf)
    && RecorderStep(c.recorder, r, c.src.id, c.all, c.call)
  }

  ghost predicate KidAt(u: Tree, cts: seq<Tree>, x: Tree, cx: Tree) {
    exists p :: 0 <= p < |u.kids| && p < |cts| && u.kids[p] == x && cts[p] == cx
  }

  /** Kid `p` is either a chain member cloned before or one of the kids cloned for `u`. */
  ghost predicate KidDone(c: Chain, u: Tree, k: Progress, p: nat)
    requires p < |u.kids| && p < |k.cts|
  {
    if ChainPos(u, p) then Paired(c.all, c.call, u.kids[p], k.cts[p]) else u.kids[p] in k.extra
  }

  ghost predicate KidsCloned(c: Chain, s: AstStore, r: Option<map<nat, Node>>, u: Tree, values: seq<Field>, k: Progress,
                             synthetic: bool, flagOf: Kind -> Flags)
    requires Unfolds(c.src, u)
  {
    var fs := FieldsOf(c.src, u);
    && |values| <= |fs| && |k.cts| <= |u.kids| && |c.all| == |c.call| && |k.extra| == |k.cextra|
    && FieldsCloned(c.base, s, c.src, fs[..|values|], values, u.kids[..|k.cts|], k.cts, synthetic, flagOf)
    && RecorderStep(c.recorder, r, c.src.id, c.all + k.extra, c.call + k.cextra)
    && (forall i | 0 <= i < |k.extra| :: KidAt(u, k.cts, k.extra[i], k.cextra[i]))
    && (forall p: nat | p < |k.cts| :: KidDone(c, u, k, p))
  }

  lemma {:induction false} KidsStart(c: Chain, s: AstStore, r: Option<map<nat, Node>>, u: Tree, synthetic: bool,
                                     flagOf: Kind -> Flags)
    requires Unfolds(c.src, u) && ChainCloned(c, s, r, synthetic, flagOf)
    ensures KidsCloned(c, s, r, u, [], Progress([], [], []), synthetic, flagOf)
  {
    hide RecorderStep, FieldOk;
    var fs := FieldsOf(c.src, u);
    assert Never(0) == Commas(Shapes(c.src, fs[..0])) == [];
    assert ForestCloned(c.base, s, [], [], [], synthetic, flagOf);
    assert Nodes([]) == [] && u.kids[..0] == [];
    assert Shapes(s, []) == [] == CloneShapes(Shapes(c.src, fs[..0]), synthetic, flagOf);
    assert c.all + [] == c.all && c.call + [] == c.call;
  }

  lemma {:induction false} KidAtLater(u: Tree, cts: seq<Tree>, own: seq<Tree>, x: Tree, cx: Tree)
    requires KidAt(u, cts, x, cx)
    ensures KidAt(u, cts + own, x, cx)
  {
    var p :| 0 <= p < |u.kids| && p < |cts| && u.kids[p] == x && cts[p] == cx;
    assert (cts + own)[p] == cx;
  }

  /** The next field was cloned afresh: its kids are none of the chain's. */
  lemma {:induction false} FreshField(c: Chain, s1: AstStore, s2: AstStore, now: AstStore, r1: Option<map<nat, Node>>,
                   r2: Option<map<nat, Node>>, u: Tree, values: seq<Field>, k: Progress, v: Field, mine: seq<Tree>,
                   own: seq<Tree>, synthetic: bool, flagOf: Kind -> Flags)
    requires Unfolds(c.src, u) && KidsCloned(c, s1, r1, u, values, k, synthetic, flagOf)
    requires |values| < |FieldsOf(c.src, u)|
    requires |k.cts| + |mine| <= |u.kids| && mine == u.kids[|k.cts|..|k.cts| + |mine|]
    requires forall p: nat | |k.cts| <= p < |k.cts| + |mine| :: !ChainPos(u, p)
    requires var f := FieldsOf(c.src, u)[|values|];
             && FieldOk(c.src, f) && FieldOk(now, f)
             && FieldKids(c.src, f) == Nodes(mine) && ShapeOf(now, f) == ShapeOf(c.src, f)
             && FieldCloned(s1, s2, now, f, v, mine, own, synthetic, flagOf)
    requires RecorderStep(r1, r2, c.src.id, mine, own)
    ensures KidsCloned(c, s2, r2, u, values + [v],
                       Progress(k.cts + own, k.extra + mine, k.cextra + own), synthetic, flagOf)
  {
    hide FieldsCloned, FieldCloned, RecorderStep, Unfolds, KidAt, KidDone, ChainPos, FieldOk, FieldKids, ShapeOf;
    var fs := FieldsOf(c.src, u);
    var at, n := |values|, |k.cts|;
    NextField(c.base, s1, s2, c.src, now, fs, at, values, v, u.kids[..n], k.cts, mine, own, synthetic, flagOf);
    var k2 := Progress(k.cts + own, k.extra + mine, k.cextra + own);
    assert u.kids[..n] + mine == u.kids[..|k2.cts|];
    RecorderStepCompose(c.recorder, r1, r2, c.src.id, c.all + k.extra, c.call + k.cextra, mine, own);
    assert c.all + k.extra + mine == c.all + k2.extra && c.call + k.cextra + own == c.call + k2.cextra;
    FreshKids(c, u, k, mine, own);
  }

  lemma {:induction false} FreshKids(c: Chain, u: Tree, k: Progress, mine: seq<Tree>, own: seq<Tree>)
    requires |k.cts| + |mine| <= |u.kids| && mine == u.kids[|k.cts|..|k.cts| + |mine|] && |own| == |mine|
    requires |k.extra| == |k.cextra|
    requires forall p: nat | |k.cts| <= p < |k.cts| + |mine| :: !ChainPos(u, p)
    requires forall i | 0 <= i < |k.extra| :: KidAt(u, k.cts, k.extra[i], k.cextra[i])
    requires forall p: nat | p < |k.cts| :: KidDone(c, u, k, p)
    ensures var k2 := Progress(k.cts + own, k.extra + mine, k.cextra + own);
            && (forall i | 0 <= i < |k2.extra| :: KidAt(u, k2.cts, k2.extra[i], k2.cextra[i]))
            && (forall p: nat | p < |k2.cts| :: KidDone(c, u, k2, p))
  {
    hide KidAt, Paired, ChainPos;
    var k2 := Progress(k.cts + own, k.extra + mine, k.cextra + own);
    var n := |k.cts|;
    forall i | 0 <= i < |k2.extra| ensures KidAt(u, k2.cts, k2.extra[i], k2.cextra[i]) {
      if i < |k.extra| {
        KidAtLater(u, k.cts, own, k.extra[i], k.cextra[i]);
      } else {
        KidAtIndex(u, k2.cts, n + i - |k.extra|);
      }
    }
    forall p: nat | p < |k2.cts| ensures KidDone(c, u, k2, p) {
      if p < n {
        assert KidDone(c, u, k, p);
      } else {
        assert u.kids[p] == mine[p - n];
      }
    }
  }

  lemma {:induction false} KidAtIndex(u: Tree, cts: seq<Tree>, p: nat)
    requires p < |u.kids| && p < |cts|
    ensures KidAt(u, cts, u.kids[p], cts[p])
  {
  }

  lemma {:induction false} ForestConcat(s0: AstStore, s: AstStore, ts: seq<Tree>, cts: seq<Tree>, commas: seq<bool>,
                                        us: seq<Tree>, cus: seq<Tree>, commas': seq<bool>, synthetic: bool,
                                        flagOf: Kind -> Flags)
    requires ForestCloned(s0, s, ts, cts, commas, synthetic, flagOf)
    requires ForestCloned(s0, s, us, cus, commas', synthetic, flagOf)
    ensures ForestCloned(s0, s, ts + us, cts + cus, commas + commas', synthetic, flagOf)
  {
    hide TreeCloned;
  }

  /** The clone of a chain member serves as the clone of every field that holds the member. */
  lemma {:induction false} RecalledClone(s0: AstStore, s: AstStore, src: AstStore, f: Field, x: Tree, cx: Tree,
                                         synthetic: bool, flagOf: Kind -> Flags)
    requires Extends(s0, s) && TreeCloned(|s0.nodes|, s, x, cx, false, synthetic, flagOf)
    requires Unfolds(src, x) && FieldOk(src, f) && f == NodeField(Some(x.node))
    ensures FieldCloned(s0, s, src, f, NodeField(Some(cx.node)), [x], [cx], synthetic, flagOf)
  {
    ForestOfOne(s0, s, x, cx, false, synthetic, flagOf);
  }

  lemma {:induction false} RecalledNext(s0: AstStore, s: AstStore, src: AstStore, fs: seq<Field>, at: nat,
                                        vs: seq<Field>, v: Field, ts: seq<Tree>, cts: seq<Tree>, x: Tree, cx: Tree,
                                        synthetic: bool, flagOf: Kind -> Flags)
    requires FieldsOk(src, fs) && at < |fs| && FieldOk(src, fs[at]) && fs[at] == NodeField(Some(x.node))
    requires FieldsCloned(s0, s, src, fs[..at], vs, ts, cts, synthetic, flagOf)
    requires FieldCloned(s0, s, src, fs[at], v, [x], [cx], synthetic, flagOf)
    ensures FieldsCloned(s0, s, src, fs[..at + 1], vs + [v], ts + [x], cts + [cx], synthetic, flagOf)
  {
    hide ForestCloned;
    var commas, commas' := Commas(Shapes(src, fs[..at])), ShapeCommas(ShapeOf(src, fs[at]));
    ForestNodes(s0, s, ts, cts, commas, synthetic, flagOf);
    ForestConcat(s0, s, ts, cts, commas, [x], [cx], commas', synthetic, flagOf);
    NextShapes(s, s, src, fs, at, vs, v, synthetic, flagOf);
    KidsPrefix(src, fs, at);
    NodesSplit(ts, [x]);
    NodesSplit(cts, [cx]);
  }

  /** The next field is a chain member cloned earlier: its clone is looked up. */
  lemma {:induction false} RecalledField(c: Chain, s: AstStore, r: Option<map<nat, Node>>, u: Tree,
                                         values: seq<Field>, k: Progress, q: nat, synthetic: bool,
                                         flagOf: Kind -> Flags)
    requires Unfolds(c.src, u) && KidsCloned(c, s, r, u, values, k, synthetic, flagOf)
    requires |values| < |FieldsOf(c.src, u)| && |k.cts| < |u.kids|
    requires q < |c.all| && c.all[q] == u.kids[|k.cts|] && ChainPos(u, |k.cts|)
    requires TreeCloned(|c.base.nodes|, s, c.all[q], c.call[q], false, synthetic, flagOf)
    requires var f := FieldsOf(c.src, u)[|values|];
             FieldOk(c.src, f) && f == NodeField(Some(c.all[q].node)) && Unfolds(c.src, c.all[q])
    ensures KidsCloned(c, s, r, u, values + [NodeField(Some(c.call[q].node))], k.(cts := k.cts + [c.call[q]]),
                       synthetic, flagOf)
  {
    hide FieldsCloned, FieldCloned, RecorderStep, KidAt, ChainPos, Shapes, Kids, TreeCloned;
    var fs := FieldsOf(c.src, u);
    var at, n, x, cx := |values|, |k.cts|, c.all[q], c.call[q];
    FieldsClonedCount(c.base, s, c.src, fs[..at], values, u.kids[..n], k.cts, synthetic, flagOf);
    RecalledClone(c.base, s, c.src, fs[at], x, cx, synthetic, flagOf);
    RecalledNext(c.base, s, c.src, fs, at, values, NodeField(Some(cx.node)), u.kids[..n], k.cts,
                 x, cx, synthetic, flagOf);
    var k2 := k.(cts := k.cts + [cx]);
    assert u.kids[..n] + [x] == u.kids[..|k2.cts|];
    forall i | 0 <= i < |k2.extra| ensures KidAt(u, k2.cts, k2.extra[i], k2.cextra[i]) {
      KidAtLater(u, k.cts, [cx], k.extra[i], k.cextra[i]);
    }
    forall p: nat | p < |k2.cts| ensures KidDone(c, u, k2, p) {
      if p < n {
        assert KidDone(c, u, k, p);
      } else {
        assert Paired(c.all, c.call, x, cx);
      }
    }
  }

  function Grown(c: Chain, u: Tree, cu: Tree): Chain {
    c.(all := c.all + [u], call := c.call + [cu])
  }

  lemma {:induction false} LinkedKids(c: Chain, u: Tree, k: Progress, cu: Tree)
    requires |k.cts| == |u.kids| && cu.kids == k.cts
    requires forall p: nat | p < |k.cts| :: KidDone(c, u, k, p)
    ensures LinkedAt(c.all, c.call, u, cu)
    ensures forall p | 0 <= p < |u.kids| :: u.kids[p] in k.extra || u.kids[p] in c.all
  {
    forall p: nat | p < |u.kids|
      ensures ChainPos(u, p) ==> Paired(c.all, c.call, u.kids[p], cu.kids[p])
      ensures u.kids[p] in k.extra || u.kids[p] in c.all
    {
      assert KidDone(c, u, k, p);
    }
  }

  /** All kids cloned, the new node is the clone of the member, and the recorder knows it. */
  lemma {:induction false} MemberCloned(c: Chain, s1: AstStore, s2: AstStore, r1: Option<map<nat, Node>>,
                                        r2: Option<map<nat, Node>>, u: Tree, values: seq<Field>, k: Progress,
                                        synthetic: bool, flagOf: Kind -> Flags) returns (cu: Tree)
    requires Unfolds(c.src, u) && u.node.store == c.src.id && u.refs == NO_REFS && !u.head.tag.SourceFileTag?
    requires ForestCloned(c.base, s1, c.all, c.call, Never(|c.all|), synthetic, flagOf)
    requires KidsCloned(c, s1, r1, u, values, k, synthetic, flagOf)
    requires |values| == |FieldsOf(c.src, u)| && Kids(c.src, FieldsOf(c.src, u)) == Nodes(u.kids)
    requires s2 == Appended(s1, CloneHeader(u, values, NO_REFS, synthetic))
    requires r2 == RecordedAs(r1, u.node, Node(s1.id, |s1.nodes|))
    ensures cu.node == Node(s1.id, |s1.nodes|)
    ensures Extends(s1, s2)
    ensures ChainCloned(Grown(c, u, cu), s2, r2, synthetic, flagOf)
    ensures LinkedAt(c.all, c.call, u, cu)
  {
    hide FieldsCloned, RecorderStep, TreeCloned, ChainPos, Kids, Shapes, Unfolds;
    var fs := FieldsOf(c.src, u);
    AllFieldsCloned(c.base, s1, c.src, fs, values, u.kids, k.cts, synthetic, flagOf);
    assert AllRefsClone(u, Tree(Node(s1.id, |s1.nodes|), u.head, NO_REFS, k.cts));
    cu := CloneFromFields(c.base, s1, c.src, u, values, NO_REFS, k.cts, synthetic, flagOf);
    LinkedKids(c, u, k, cu);
    forall i | 0 <= i < |k.extra| ensures KidPair(u, cu, k.extra[i], k.cextra[i]) {
      assert KidAt(u, k.cts, k.extra[i], k.cextra[i]);
    }
    RecordRoot(c.recorder, r1, r2, c.src.id, c.all, c.call, k.extra, k.cextra, u, cu);
    ForestClonedExtends(c.base, s1, s2, c.all, c.call, Never(|c.all|), synthetic, flagOf);
    ForestOfOne(c.base, s2, u, cu, false, synthetic, flagOf);
    ForestConcat(c.base, s2, c.all, c.call, Never(|c.all|), [u], [cu], [false], synthetic, flagOf);
    assert Never(|c.all|) + [false] == Never(|c.all + [u]|);
  }

  // ---- the explicit stack ----

  /** The members cloned so far, and the table that finds the clone of each. */
  ghost predicate Done(c: Chain, t: Tree, done: map<Node, Node>) {
    && |c.all| == |c.call| && Linked(c.all, c.call) && Distinct(c.all)
    && (forall k | 0 <= k < |c.all| ::
          && ChainMember(c.src, t, c.all[k])
          && c.all[k].node in done && done[c.all[k].node] == c.call[k].node)
    && (forall n | n in done :: exists k :: 0 <= k < |c.all| && c.all[k].node == n)
  }

  /** Every entry is a chain member; the root is at the bottom and nowhere else. */
  ghost predicate StackOk(src: AstStore, t: Tree, stack: seq<(Node, bool)>, trees: seq<Tree>) {
    && |stack| == |trees|
    && (forall i | 0 <= i < |stack| :: stack[i].0 == trees[i].node && ChainMember(src, t, trees[i]))
    && (stack != [] ==> trees[0] == t)
    && (forall i | 1 <= i < |stack| :: Size(trees[i]) < Size(t))
  }

  /** The operand `x` of the entry at `i` is cloned already or still waits above it. */
  ghost predicate Awaited(trees: seq<Tree>, i: nat, done: map<Node, Node>, x: Tree) {
    x.node in done || exists j :: i < j < |trees| && trees[j] == x
  }

  ghost predicate Awaiting(stack: seq<(Node, bool)>, trees: seq<Tree>, done: map<Node, Node>)
    requires |stack| == |trees|
  {
    forall i: nat, p: nat | i < |stack| && stack[i].1 && ChainPos(trees[i], p) ::
      Awaited(trees, i, done, trees[i].kids[p])
  }

  /** The root is the last member to be cloned. */
  ghost predicate RootLast(c: Chain, t: Tree, stack: seq<(Node, bool)>) {
    if stack == [] then c.all != [] && c.all[|c.all| - 1] == t
    else forall k | 0 <= k < |c.all| :: Size(c.all[k]) < Size(t)
  }

  ghost predicate ChainInv(c: Chain, t: Tree, stack: seq<(Node, bool)>, trees: seq<Tree>, done: map<Node, Node>) {
    && StackOk(c.src, t, stack, trees)
    && Awaiting(stack, trees, done)
    && Done(c, t, done)
    && RootLast(c, t, stack)
  }

  /** What is left to do for the entries of the stack. */
  ghost function Weight(stack: seq<(Node, bool)>, trees: seq<Tree>): nat
    requires |stack| == |trees|
  {
    if stack == [] then 0
    else
      var last := |stack| - 1;
      Weight(stack[..last], trees[..last]) + if stack[last].1 then 1 else 2 * Size(trees[last])
  }

  lemma {:induction false} ChainStart(c: Chain, t: Tree)
    requires ChainMember(c.src, t, t) && c.all == c.call == []
    ensures ChainInv(c, t, [(t.node, false)], [t], map[])
  {
  }

  lemma {:induction false} TopEntry(c: Chain, t: Tree, stack: seq<(Node, bool)>, trees: seq<Tree>,
                                    done: map<Node, Node>)
    requires ChainInv(c, t, stack, trees, done) && stack != []
    ensures |trees| == |stack| && Done(c, t, done)
    ensures var u := trees[|stack| - 1]; ChainMember(c.src, t, u) && u.node == stack[|stack| - 1].0
  {
    hide ChainMember;
  }

  /** An entry whose node is cloned already is dropped; the root never is. */
  lemma {:induction false} PopCloned(c: Chain, t: Tree, stack: seq<(Node, bool)>, trees: seq<Tree>,
                                     done: map<Node, Node>)
    requires ChainInv(c, t, stack, trees, done) && stack != []
    requires stack[|stack| - 1].0 in done
    ensures |trees| == |stack| > 1
    ensures var last := |stack| - 1;
            && ChainInv(c, t, stack[..last], trees[..last], done)
            && Weight(stack[..last], trees[..last]) < Weight(stack, trees)
  {
    hide ChainMember, ChainPos, Size, Linked, Distinct;
    var last := |stack| - 1;
    var k :| 0 <= k < |c.all| && c.all[k].node == stack[last].0;
    SameMember(c.src, t, c.all[k], trees[last]);
    assert Size(trees[last]) < Size(t);
    forall i: nat, p: nat | i < last && stack[i].1 && ChainPos(trees[i], p)
      ensures p < |trees[i].kids| && Awaited(trees[..last], i, done, trees[i].kids[p])
    {
      DropAwaited(trees, i, done, trees[i].kids[p]);
    }
    SizePositive(trees[last]);
  }

  lemma {:induction false} SizePositive(u: Tree)
    ensures Size(u) > 0
  {
  }

  lemma {:induction false} SameMember(src: AstStore, t: Tree, x: Tree, y: Tree)
    requires ChainMember(src, t, x) && ChainMember(src, t, y) && x.node == y.node
    ensures x == y
  {
    UnfoldingUnique(src, x, y);
  }

  lemma {:induction false} DropAwaited(trees: seq<Tree>, i: nat, done: map<Node, Node>, x: Tree)
    requires trees != [] && Awaited(trees, i, done, x) && trees[|trees| - 1].node in done
    ensures Awaited(trees[..|trees| - 1], i, done, x)
  {
    if x.node !in done {
      var j :| i < j < |trees| && trees[j] == x;
      assert trees[..|trees| - 1][j] == x;
    }
  }

  function Entries(ts: seq<Tree>): seq<(Node, bool)> {
    seq(|ts|, i requires 0 <= i < |ts| => (ts[i].node, false))
  }

  /** A fresh entry is marked as expanded and its binary operands go on top of it, the right one first. */
  lemma {:induction false} PopFresh(c: Chain, t: Tree, stack: seq<(Node, bool)>, trees: seq<Tree>,
                                    done: map<Node, Node>, u: Tree, ls: seq<Tree>, rs: seq<Tree>)
    requires ChainInv(c, t, stack, trees, done) && stack != [] && !stack[|stack| - 1].1
    requires |ls| <= 1 && |rs| <= 1 && u == trees[|stack| - 1]
    requires forall x | x in ls + rs :: ChainMember(c.src, t, x) && Size(x) < Size(u)
    requires forall p: nat | ChainPos(u, p) :: u.kids[p] in ls + rs
    requires Sizes(ls) + Sizes(rs) < Size(u)
    ensures var last := |stack| - 1;
            var stack2 := stack[..last] + [(stack[last].0, true)] + Entries(rs) + Entries(ls);
            && |stack2| == |trees + rs + ls|
            && ChainInv(c, t, stack2, trees + rs + ls, done)
            && Weight(stack2, trees + rs + ls) < Weight(stack, trees)
  {
    hide ChainMember, ChainPos, Size, Linked, Distinct, Sizes, Weight;
    var last := |stack| - 1;
    var stack2 := stack[..last] + [(stack[last].0, true)] + Entries(rs) + Entries(ls);
    var trees2 := trees + rs + ls;
    forall i | 0 <= i < |stack2|
      ensures stack2[i].0 == trees2[i].node && ChainMember(c.src, t, trees2[i])
      ensures i > 0 ==> Size(trees2[i]) < Size(t)
    {
      if i > last {
        assert trees2[i] in ls + rs;
        MemberSize(c.src, t, u);
      }
    }
    forall i: nat, p: nat | i < |stack2| && stack2[i].1 && ChainPos(trees2[i], p)
      ensures p < |trees2[i].kids| && Awaited(trees2, i, done, trees2[i].kids[p])
    {
      var x := trees2[i].kids[p];
      if i < last {
        assert Awaited(trees, i, done, x);
        if x.node !in done {
          var j :| i < j < |trees| && trees[j] == x;
          assert trees2[j] == x;
        }
      } else {
        var j :| 0 <= j < |ls + rs| && (ls + rs)[j] == x;
        assert trees2[if j < |ls| then |trees + rs| + j else |trees| + j - |ls|] == x;
      }
    }
    FreshWeight(stack, trees, ls, rs);
  }

  lemma {:induction false} MemberSize(src: AstStore, t: Tree, u: Tree)
    requires ChainMember(src, t, u)
    ensures Size(u) <= Size(t)
  {
  }

  lemma {:induction false} PushWeight(stack: seq<(Node, bool)>, trees: seq<Tree>, ts: seq<Tree>)
    requires |stack| == |trees| && |ts| <= 1
    ensures Weight(stack + Entries(ts), trees + ts) == Weight(stack, trees) + 2 * Sizes(ts)
  {
    if ts == [] {
      assert stack + Entries(ts) == stack && trees + ts == trees;
    } else {
      var n := |stack|;
      assert (stack + Entries(ts))[..n] == stack && (trees + ts)[..n] == trees;
      assert Sizes(ts) == Size(ts[0]) + Sizes(ts[1..]);
    }
  }

  lemma {:induction false} FreshWeight(stack: seq<(Node, bool)>, trees: seq<Tree>, ls: seq<Tree>, rs: seq<Tree>)
    requires |stack| == |trees| && stack != [] && !stack[|stack| - 1].1 && |ls| <= 1 && |rs| <= 1
    requires Sizes(ls) + Sizes(rs) < Size(trees[|stack| - 1])
    ensures var last := |stack| - 1;
            Weight(stack[..last] + [(stack[last].0, true)] + Entries(rs) + Entries(ls), trees + rs + ls)
            < Weight(stack, trees)
  {
    hide Size, Sizes;
    var last := |stack| - 1;
    var base := stack[..last] + [(stack[last].0, true)];
    PushWeight(base, trees, rs);
    PushWeight(base + Entries(rs), trees + rs, ls);
    assert base[..last] == stack[..last];
  }

  /** An expanded entry on top finds all its binary operands cloned. */
  lemma {:induction false} OperandsReady(c: Chain, t: Tree, stack: seq<(Node, bool)>, trees: seq<Tree>,
                                         done: map<Node, Node>, p: nat)
    requires ChainInv(c, t, stack, trees, done) && stack != [] && stack[|stack| - 1].1
    requires ChainPos(trees[|stack| - 1], p)
    ensures var x := trees[|stack| - 1].kids[p];
            && x.node in done
            && exists q :: 0 <= q < |c.all| && c.all[q] == x && done[x.node] == c.call[q].node
  {
    hide ChainPos, Size, Linked, Distinct;
    var u := trees[|stack| - 1];
    var x := u.kids[p];
    assert Awaited(trees, |stack| - 1, done, x);
    var q :| 0 <= q < |c.all| && c.all[q].node == x.node;
    OperandMember(c.src, t, u, p);
    SameMember(c.src, t, c.all[q], x);
  }

  /** Cloning the expanded entry on top adds one new member to those done. */
  lemma {:induction false} PopExpanded(c: Chain, t: Tree, stack: seq<(Node, bool)>, trees: seq<Tree>,
                                       done: map<Node, Node>, cu: Tree)
    requires ChainInv(c, t, stack, trees, done) && stack != [] && stack[|stack| - 1].1
    requires stack[|stack| - 1].0 !in done && LinkedAt(c.all, c.call, trees[|stack| - 1], cu)
    ensures var last := |stack| - 1;
            && ChainInv(Grown(c, trees[last], cu), t, stack[..last], trees[..last], done[stack[last].0 := cu.node])
            && Weight(stack[..last], trees[..last]) < Weight(stack, trees)
  {
    hide ChainMember, ChainPos, Size, Linked;
    var last := |stack| - 1;
    var u := trees[last];
    var c2 := Grown(c, u, cu);
    var done2 := done[u.node := cu.node];
    LinkedGrown(c, u, cu);
    forall i: nat, p: nat | i < last && stack[i].1 && ChainPos(trees[i], p)
      ensures p < |trees[i].kids| && Awaited(trees[..last], i, done2, trees[i].kids[p])
    {
      assert Awaited(trees, i, done2, trees[i].kids[p]) by {
        assert Awaited(trees, i, done, trees[i].kids[p]);
      }
      DropAwaited(trees, i, done2, trees[i].kids[p]);
    }
    forall n | n in done2 ensures exists k :: 0 <= k < |c2.all| && c2.all[k].node == n {
      if n == u.node {
        assert c2.all[|c.all|].node == n;
      } else {
        var k :| 0 <= k < |c.all| && c.all[k].node == n;
        assert c2.all[k].node == n;
      }
    }
  }

  lemma {:induction false} LinkedGrown(c: Chain, u: Tree, cu: Tree)
    requires Linked(c.all, c.call) && LinkedAt(c.all, c.call, u, cu)
    ensures Linked(c.all + [u], c.call + [cu])
  {
    var all, call := c.all + [u], c.call + [cu];
    forall k | 0 <= k < |all| ensures LinkedAt(all, call, all[k], call[k]) {
      assert LinkedAt(c.all, c.call, all[k], call[k]);
      forall p: nat | p < |all[k].kids| && ChainPos(all[k], p)
        ensures Paired(all, call, all[k].kids[p], call[k].kids[p])
      {
        PairedGrown(c, u, cu, all[k].kids[p], call[k].kids[p]);
      }
    }
  }

  lemma {:induction false} PairedGrown(c: Chain, u: Tree, cu: Tree, x: Tree, cx: Tree)
    requires Paired(c.all, c.call, x, cx)
    ensures Paired(c.all + [u], c.call + [cu], x, cx) || |c.all| != |c.call|
  {
    var k :| 0 <= k < |c.all| && k < |c.call| && c.all[k] == x && c.call[k] == cx;
    if |c.all| == |c.call| {
      assert (c.all + [u])[k] == x && (c.call + [cu])[k] == cx;
    }
  }

  // ---- what the loop needs of the source ----

  lemma {:induction false} ChainRoot(source: CloneSource, s: AstStore, t: Tree)
    requires Clonable(source, s, [t]) && t.head.kind == KIND_BINARY_EXPRESSION
    ensures ChainMember(SourceIn(source, s), t, t)
  {
    assert Unfolds(SourceIn(source, s), [t][0]) && SelfContained([t][0]);
  }

  lemma {:induction false} MemberClonable(source: CloneSource, s: AstStore, t: Tree, u: Tree)
    requires Clonable(source, s, [t]) && ChainMember(SourceIn(source, s), t, u)
    ensures Clonable(source, s, [u]) && Size(u) <= Size(t)
  {
  }

  /** The source shows the operands of a member the same way however far the factory's store has grown. */
  lemma {:induction false} MemberSource(source: CloneSource, s0: AstStore, s1: AstStore, t: Tree, u: Tree)
    requires ChainMember(SourceIn(source, s0), t, u) && Extends(s0, s1)
    ensures var src, now := SourceIn(source, s0), SourceIn(source, s1);
            && InStore(now, u.node) && now.nodes[u.node.id].payload.fields == FieldsOf(src, u)
            && |FieldsOf(src, u)| == 5 && FieldsOf(src, u)[1].NodeField? && FieldsOf(src, u)[4].NodeField?
            && (forall i | i == 1 || i == 4 ::
                  IsBinary(now, FieldsOf(src, u)[i].node) == IsBinary(src, FieldsOf(src, u)[i].node))
  {
    var src, now := SourceIn(source, s0), SourceIn(source, s1);
    ModifierKids(src, u);
    var fs := FieldsOf(src, u);
    assert FieldOk(src, fs[1]) && FieldOk(src, fs[4]);
  }

  lemma {:induction false} ReadyOperands(c: Chain, t: Tree, stack: seq<(Node, bool)>, trees: seq<Tree>,
                                         done: map<Node, Node>, u: Tree)
    requires ChainInv(c, t, stack, trees, done) && stack != [] && stack[|stack| - 1].1 && u == trees[|stack| - 1]
    ensures forall p: nat | ChainPos(u, p) :: u.kids[p] in c.all
  {
    forall p: nat | ChainPos(u, p) ensures u.kids[p] in c.all {
      OperandsReady(c, t, stack, trees, done, p);
    }
  }

  /** With an empty stack the root is cloned, found in the table, and everything recorded is what it should be. */
  lemma {:induction false} ChainFinish(c: Chain, t: Tree, s: AstStore, r: Option<map<nat, Node>>, done: map<Node, Node>,
                                       synthetic: bool, flagOf: Kind -> Flags)
    requires ChainInv(c, t, [], [], done) && ChainCloned(c, s, r, synthetic, flagOf)
    ensures c.call != [] && t.node in done
    ensures var ct := c.call[|c.call| - 1];
            && done[t.node] == ct.node
            && TreeCloned(|c.base.nodes|, s, t, ct, false, synthetic, flagOf)
            && RecorderStep(c.recorder, r, c.src.id, [t], [ct])
            && EachMemberOnce(t, ct)
  {
    hide TreeCloned, RecorderStep, Linked, Distinct;
    var last := |c.all| - 1;
    assert Never(|c.all|)[last] == false;
    assert Paired(c.all, c.call, t, c.call[last]);
    ChainRecorded(c.recorder, r, c.src.id, c.all, c.call, t, c.call[last]);
  }

  /** The kids the next field contributes, and which of them stand at chain positions. */
  lemma {:induction false} NextKids(c: Chain, s: AstStore, r: Option<map<nat, Node>>, u: Tree, values: seq<Field>,
                                    k: Progress, synthetic: bool, flagOf: Kind -> Flags) returns (mine: seq<Tree>)
    requires Unfolds(c.src, u) && u.head.kind == KIND_BINARY_EXPRESSION
    requires KidsCloned(c, s, r, u, values, k, synthetic, flagOf) && |values| < |FieldsOf(c.src, u)|
    ensures var f := FieldsOf(c.src, u)[|values|];
            && FieldOk(c.src, f) && Nodes(mine) == FieldKids(c.src, f)
            && |k.cts| + |mine| <= |u.kids| && mine == u.kids[|k.cts|..|k.cts| + |mine|]
            && (if f.NodeField? && IsBinary(c.src, f.node)
                then |k.cts| < |u.kids| && ChainPos(u, |k.cts|) && u.kids[|k.cts|].node == f.node.value
                else forall p: nat | |k.cts| <= p < |k.cts| + |mine| :: !ChainPos(u, p))
  {
    hide ForestCloned, RecorderStep, Shapes, ChainPos, KidAt, KidDone, FieldsCloned, FieldOk, FieldKids;
    var fs := FieldsOf(c.src, u);
    ModifierKids(c.src, u);
    FieldsClonedCount(c.base, s, c.src, fs[..|values|], values, u.kids[..|k.cts|], k.cts, synthetic, flagOf);
    mine := MyField(c.src, fs, |values|, u.kids, |k.cts|);
    FieldPos(c.src, u, |values|, |k.cts|);
    if |values| > 0 {
      OneKid(c.src, fs[|values|]);
    }
  }

  lemma {:induction false} SameBinary(src: AstStore, now: AstStore, f: Field)
    requires FieldOk(src, f) && FieldOk(now, f) && ShapeOf(now, f) == ShapeOf(src, f)
    ensures f.NodeField? ==> IsBinary(now, f.node) == IsBinary(src, f.node)
  {
  }

  lemma {:induction false} MemberCopied(c: Chain, s: AstStore, q: nat, synthetic: bool, flagOf: Kind -> Flags)
    requires ForestCloned(c.base, s, c.all, c.call, Never(|c.all|), synthetic, flagOf) && q < |c.all|
    ensures |c.call| == |c.all|
    ensures TreeCloned(|c.base.nodes|, s, c.all[q], c.call[q], false, synthetic, flagOf)
  {
    hide TreeCloned;
    assert Never(|c.all|)[q] == false;
  }

  lemma {:induction false} FieldGrew(s1: AstStore, s2: AstStore, src: AstStore, f: Field, v: Field, ts: seq<Tree>,
                                     cts: seq<Tree>, synthetic: bool, flagOf: Kind -> Flags)
    requires FieldOk(src, f) && FieldCloned(s1, s2, src, f, v, ts, cts, synthetic, flagOf)
    ensures Extends(s1, s2)
  {
  }

  /** What cloning a member starts from. */
  lemma {:induction false} ChainNodeSource(source: CloneSource, c: Chain, s: AstStore, r: Option<map<nat, Node>>,
                                           t: Tree, u: Tree, synthetic: bool, flagOf: Kind -> Flags)
    requires c.src == SourceIn(source, c.base) && ChainMember(c.src, t, u) && Extends(c.base, s)
    requires ChainCloned(c, s, r, synthetic, flagOf)
    ensures Unfolds(c.src, u) && u.head.kind == KIND_BINARY_EXPRESSION
    ensures u.node.store == c.src.id && u.refs == NO_REFS && !u.head.tag.SourceFileTag?
    ensures |FieldsOf(c.src, u)| == 5 && Kids(c.src, FieldsOf(c.src, u)) == Nodes(u.kids)
    ensures Sizes(u.kids) < Size(u)
    ensures ForestCloned(c.base, s, c.all, c.call, Never(|c.all|), synthetic, flagOf)
    ensures var now := SourceIn(source, s);
            InStore(now, u.node) && now.nodes[u.node.id].payload.fields == FieldsOf(c.src, u)
  {
    ModifierKids(c.src, u);
  }
}
