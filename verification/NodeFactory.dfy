/** The factory that owns a store: node creation, deep clone and update, all by appending to the store. */
module NodeFactories {
  import opened Options
  import opened AstStores
  import opened AstClones
  import opened CloneSteps
  import opened BinaryChains

  class NodeFactory {
    var store: AstStore
    var recorder: Option<map<nat, Node>>
    var nodeCount: nat
    const onCreate: Option<Node -> Flags>
    const flagOf: Kind -> Flags

    constructor (store: AstStore, onCreate: Option<Node -> Flags>, flagOf: Kind -> Flags)
      ensures this.store == store && recorder == None && nodeCount == 0
      ensures this.onCreate == onCreate && this.flagOf == flagOf
    {
      this.store := store;
      this.recorder := None;
      this.nodeCount := 0;
      this.onCreate := onCreate;
      this.flagOf := flagOf;
    }

    // ---- single steps ----

    method NewNode(kind: Kind, flags: Flags, payload: Payload) returns (node: Node)
      modifies this
      ensures node == Node(old(store.id), |old(store.nodes)|)
      ensures var created := if onCreate.Some? then onCreate.value(node) else {};
              store == old(store).(nodes := old(store.nodes)
                                            + [NodeHeader(kind, created + flags, TextRange(-1, -1), payload)])
      ensures recorder == old(recorder) && nodeCount == old(nodeCount) + 1
    {
      nodeCount := nodeCount + 1;
      node := Node(store.id, |store.nodes|);
      var created := if onCreate.Some? then onCreate.value(node) else {};
      store := Appended(store, NodeHeader(kind, created + flags, UNDEFINED_RANGE, payload));
    }

    method SetLoc(node: Node, loc: TextRange)
      requires InStore(store, node)
      modifies this`store
      ensures store == SetLocAt(old(store), node, loc)
      ensures Built(old(store)) ==> Built(store)
    {
      ghost var s0 := store;
      store := SetLocAt(store, node, loc);
      if Built(s0) {
        StaysBuilt(s0, store);
      }
    }

    method FinishUpdateNode(updated: Node, original: Node, flags: Flags, loc: TextRange) returns (node: Node)
      requires InStore(store, updated)
      modifies this`store
      ensures node == updated
      ensures store == if updated == original then old(store)
                       else SetLocAt(SetFlagsAt(old(store), updated, flags), updated, loc)
    {
      if updated != original {
        store := SetFlagsAt(store, updated, flags);
        store := SetLocAt(store, updated, loc);
      }
      node := updated;
    }

    method FinishCloneNode(cloned: Node, original: Node, flags: Flags, loc: TextRange) returns (node: Node)
      requires InStore(store, cloned)
      modifies this`store, this`recorder
      ensures node == cloned
      ensures store == if cloned == original then old(store)
                       else SetLocAt(SetFlagsAt(old(store), cloned, flags), cloned, loc)
      ensures recorder == RecordedAs(old(recorder), original, cloned)
    {
      node := FinishUpdateNode(cloned, original, flags, loc);
      if recorder.Some? {
        recorder := Some(recorder.value[original.id := node]);
      }
    }

    /** The steps every clone ends with: create the node, give it the original's flags and place, record it. */
    method CreateClone(original: Node, kind: Kind, flags: Flags, loc: TextRange, payload: Payload, synthetic: bool)
      returns (cloned: Node)
      requires original != Node(store.id, |store.nodes|)
      modifies this
      ensures cloned == Node(old(store.id), |old(store.nodes)|)
      ensures store == Appended(old(store), NodeHeader(kind, flags, Relocated(loc, synthetic), payload))
      ensures recorder == RecordedAs(old(recorder), original, cloned)
      ensures nodeCount == old(nodeCount) + 1
    {
      cloned := NewNode(kind, flags, payload);
      cloned := FinishCloneNode(cloned, original, flags, loc);
      if synthetic {
        SetLoc(cloned, UNDEFINED_RANGE);
      }
    }

    method NewNodeList(loc: TextRange, range: TextRange, nodes: seq<Node>, trailingComma: bool) returns (id: NodeListId)
      requires forall n | n in nodes :: InStore(store, n)
      modifies this`store
      ensures id == NodeListId(old(store.id), |old(store.lists)|)
      ensures store == old(store).(lists := old(store.lists) +
                                                 [NodeListRecord(loc, range, nodes, false, trailingComma)])
      ensures Built(old(store)) ==> Built(store)
    {
      ghost var s0 := store;
      id := NodeListId(store.id, |store.lists|);
      store := store.(lists := store.lists + [NodeListRecord(loc, range, nodes, false, trailingComma)]);
      if Built(s0) {
        StaysBuilt(s0, store);
      }
    }

    /** The flags are always those of the listed modifiers, whatever the caller knew them to be. */
    method NewModifierList(loc: TextRange, range: TextRange, nodes: seq<Node>) returns (id: ModifierListId)
      requires forall n | n in nodes :: InStore(store, n)
      modifies this`store
      ensures id == ModifierListId(old(store.id), |old(store.modifierLists)|)
      ensures store == old(store).(
                lists := old(store.lists) + [NodeListRecord(loc, range, nodes, false, false)],
                modifierLists := old(store.modifierLists)
                  + [ModifierListRecord(NodeListId(old(store.id), |old(store.lists)|),
                                        ModifiersToFlags(flagOf, KindsOf(old(store), nodes)))])
      ensures Built(old(store)) ==> Built(store)
    {
      var flags := {};
      var i := 0;
      var kinds := KindsOf(store, nodes);
      while i < |nodes|
        invariant 0 <= i <= |nodes|
        invariant flags == ModifiersToFlags(flagOf, kinds[..i])
      {
        assert kinds[..i + 1][..i] == kinds[..i];
        flags := flags + flagOf(KindOf(store, nodes[i]));
        i := i + 1;
      }
      assert kinds[..i] == kinds;
      var list := NewNodeList(loc, range, nodes, false);
      ghost var s1 := store;
      id := ModifierListId(store.id, |store.modifierLists|);
      store := store.(modifierLists := store.modifierLists + [ModifierListRecord(list, flags)]);
      if Built(s1) {
        StaysBuilt(s1, store);
      }
    }

    method NewRawNodeSlice(slots: seq<Option<Node>>) returns (id: RawNodeSliceId)
      requires forall e | e in slots && e.Some? :: InStore(store, e.value)
      modifies this`store
      ensures id == RawNodeSliceId(old(store.id), |old(store.rawSlices)|)
      ensures store == old(store).(rawSlices := old(store.rawSlices) + [slots])
      ensures Built(old(store)) ==> Built(store)
    {
      id := RawNodeSliceId(store.id, |store.rawSlices|);
      ghost var s0 := store;
      store := store.(rawSlices := store.rawSlices + [slots]);
      if Built(s0) {
        StaysBuilt(s0, store);
      }
    }

    // ---- deep clone ----

    method CloneNodes(source: CloneSource, nodes: seq<Node>, synthetic: bool, ghost ts: seq<Tree>)
      returns (clones: seq<Node>, ghost cts: seq<Tree>)
      requires Clonable(source, store, ts) && nodes == Nodes(ts)
      modifies this
      ensures clones == Nodes(cts) && |clones| == |nodes|
      ensures ForestCloned(old(store), store, ts, cts, Never(|ts|), synthetic, flagOf)
      ensures RecorderStep(old(recorder), recorder, SourceIn(source, old(store)).id, ts, cts)
      ensures clones != [] ==> clones[|clones| - 1].id == |store.nodes| - 1
      ensures forall i | 0 <= i < |clones| - 1 :: clones[i].id < clones[|clones| - 1].id
      ensures Built(old(store)) ==> Built(store)
      decreases Sizes(ts), 6
    {
      hide Built, ForestCloned, TreeCloned, RecorderStep, Clonable, Sizes;
      clones, cts := [], [];
      ghost var sid := SourceIn(source, store).id;
      RecorderStepNone(recorder, sid);
      ForestOfNone(store, synthetic, flagOf);
      assert ts[..0] == [];
      while |clones| < |nodes|
        invariant |clones| <= |nodes| && clones == Nodes(cts)
        invariant Extends(old(store), store) && (Built(old(store)) ==> Built(store))
        invariant forall i | 0 <= i < |clones| :: clones[i].id < |store.nodes|
        invariant ForestCloned(old(store), store, ts[..|cts|], cts, Never(|cts|), synthetic, flagOf)
        invariant RecorderStep(old(recorder), recorder, sid, ts[..|cts|], cts)
        invariant clones != [] ==> clones[|clones| - 1].id == |store.nodes| - 1
        invariant forall i | 0 <= i < |clones| - 1 :: clones[i].id < clones[|clones| - 1].id
      {
        ghost var s1, r1 := store, recorder;
        var at := |clones|;
        StillClonable(source, old(store), s1, ts);
        SizesMember(ts, at);
        NoSizes();
        ghost var ct;
        var clone;
        clone, ct := DeepCloneNode(source, nodes[at], synthetic, ts[at], []);
        ForestStep(old(store), s1, store, ts, cts, ct, synthetic, flagOf);
        RecorderForestStep(old(recorder), r1, recorder, sid, ts, cts, ct);
        clones := clones + [clone];
        cts := cts + [ct];
      }
      assert ts[..|cts|] == ts;
    }

    /** Clones the nodes of a list; in synthetic mode the last clone is moved when there was a trailing comma. */
    method CloneListNodes(source: CloneSource, nodes: seq<Node>, trailingComma: bool, synthetic: bool,
                          ghost ts: seq<Tree>)
      returns (clones: seq<Node>, ghost cts: seq<Tree>)
      requires Clonable(source, store, ts) && nodes == Nodes(ts)
      modifies this
      ensures clones == Nodes(cts)
      ensures ForestCloned(old(store), store, ts, cts, LastOnly(|ts|, trailingComma), synthetic, flagOf)
      ensures RecorderStep(old(recorder), recorder, SourceIn(source, old(store)).id, ts, cts)
      ensures Built(old(store)) ==> Built(store)
      decreases Sizes(ts), 7
    {
      hide Built, TreeCloned, ForestCloned, RecorderStep;
      ghost var sid := SourceIn(source, store).id;
      clones, cts := CloneNodes(source, nodes, synthetic, ts);
      ghost var s1 := store;
      if synthetic && trailingComma && clones != [] {
        ForestNodes(old(store), s1, ts, cts, Never(|ts|), synthetic, flagOf);
        SetLoc(clones[|clones| - 1], TRAILING_COMMA_RANGE);
        ForestRelocated(old(store), s1, store, ts, cts, flagOf);
        RecorderRelabeled(old(recorder), recorder, sid, ts, cts, TRAILING_COMMA_RANGE);
        cts := WithLast(cts, TRAILING_COMMA_RANGE);
      } else {
        assert !trailingComma || nodes == [] ==> LastOnly(|ts|, trailingComma) == Never(|ts|);
        ForestCommas(old(store), store, ts, cts, LastOnly(|ts|, trailingComma), synthetic, flagOf);
      }
    }

    method CloneNodeList(source: CloneSource, list: NodeListId, synthetic: bool, ghost ts: seq<Tree>)
      returns (clone: NodeListId, ghost cts: seq<Tree>)
      requires Clonable(source, store, ts)
      requires ListOk(SourceIn(source, store), list)
      requires SourceIn(source, store).lists[list.idx].nodes == Nodes(ts)
      modifies this
      ensures FieldCloned(old(store), store, SourceIn(source, old(store)),
                          ListField(Some(list)), ListField(Some(clone)),
                          ts, cts, synthetic, flagOf)
      ensures RecorderStep(old(recorder), recorder, SourceIn(source, old(store)).id, ts, cts)
      ensures Built(old(store)) ==> Built(store)
      decreases Sizes(ts), 8
    {
      hide Built, TreeCloned, ForestCloned, RecorderStep;
      var snapshot := SourceIn(source, store).lists[list.idx];
      var nodes;
      nodes, cts := CloneListNodes(source, snapshot.nodes, snapshot.trailingComma, synthetic, ts);
      ghost var s1 := store;
      ForestNodes(old(store), s1, ts, cts, LastOnly(|ts|, snapshot.trailingComma), synthetic, flagOf);
      clone := NewNodeList(Relocated(snapshot.loc, synthetic), Relocated(snapshot.range, synthetic), nodes,
                           snapshot.trailingComma);
      ForestClonedExtends(old(store), s1, store, ts, cts, LastOnly(|ts|, snapshot.trailingComma), synthetic, flagOf);
    }

    method CloneModifierList(source: CloneSource, modifiers: ModifierListId, synthetic: bool, ghost ts: seq<Tree>)
      returns (clone: ModifierListId, ghost cts: seq<Tree>)
      requires Clonable(source, store, ts)
      requires FieldOk(SourceIn(source, store), ModifiersField(Some(modifiers)))
      requires FieldKids(SourceIn(source, store), ModifiersField(Some(modifiers))) == Nodes(ts)
      modifies this
      ensures FieldCloned(old(store), store, SourceIn(source, old(store)), ModifiersField(Some(modifiers)),
                          ModifiersField(Some(clone)), ts, cts, synthetic, flagOf)
      ensures RecorderStep(old(recorder), recorder, SourceIn(source, old(store)).id, ts, cts)
      ensures Built(old(store)) ==> Built(store)
      decreases Sizes(ts), 8
    {
      hide Built, TreeCloned, ForestCloned, RecorderStep, FieldCloned, Unfolds, SelfContained;
      ghost var src := SourceIn(source, store);
      var record := SourceIn(source, store).modifierLists[modifiers.idx];
      var snapshot := SourceIn(source, store).lists[record.list.idx];
      var nodes;
      nodes, cts := CloneListNodes(source, snapshot.nodes, snapshot.trailingComma, synthetic, ts);
      ghost var s1 := store;
      ForestNodes(old(store), s1, ts, cts, LastOnly(|ts|, snapshot.trailingComma), synthetic, flagOf);
      clone := NewModifierList(Relocated(snapshot.loc, synthetic), Relocated(snapshot.range, synthetic), nodes);
      ModifiersBuilt(old(store), s1, store, src, modifiers, ts, cts, synthetic, flagOf);
    }

    method CloneOptionalNode(source: CloneSource, slot: Option<Node>, synthetic: bool, ghost ts: seq<Tree>)
      returns (clone: Option<Node>, ghost cts: seq<Tree>)
      requires Clonable(source, store, ts) && Nodes(ts) == Slot(slot)
      requires FieldOk(SourceIn(source, store), NodeField(slot))
      modifies this
      ensures FieldCloned(old(store), store, SourceIn(source, old(store)), NodeField(slot), NodeField(clone),
                          ts, cts, synthetic, flagOf)
      ensures ForestCloned(old(store), store, ts, cts, Never(|ts|), synthetic, flagOf)
      ensures RecorderStep(old(recorder), recorder, SourceIn(source, old(store)).id, ts, cts)
      ensures Built(old(store)) ==> Built(store)
      decreases Sizes(ts), 6
    {
      hide Built, TreeCloned, ForestCloned, RecorderStep;
      clone, cts := None, [];
      if slot.Some? {
        SizesMember(ts, 0);
        assert ts == [ts[0]];
        ghost var ct;
        var node;
        node, ct := DeepCloneNode(source, slot.value, synthetic, ts[0], []);
        clone, cts := Some(node), [ct];
        assert Never(1) == [false];
        ForestOfOne(old(store), store, ts[0], ct, false, synthetic, flagOf);
        ForestNodes(old(store), store, ts, cts, [false], synthetic, flagOf);
        ForestKinds(old(store), store, SourceIn(source, old(store)), ts, cts, [false], synthetic, flagOf);
        assert KindsOf(store, Nodes(cts))[0] == ClonedKinds(KindsOf(SourceIn(source, old(store)), Nodes(ts)))[0];
      } else {
        ForestOfNone(store, synthetic, flagOf);
        RecorderStepNone(recorder, SourceIn(source, store).id);
        assert ts == [] && Never(0) == [];
      }
    }

    method CloneSlots(source: CloneSource, slots: seq<Option<Node>>, synthetic: bool, ghost ts: seq<Tree>)
      returns (clones: seq<Option<Node>>, ghost cts: seq<Tree>)
      requires Clonable(source, store, ts) && Nodes(ts) == Present(slots)
      requires forall i | 0 <= i < |slots| :: FieldOk(SourceIn(source, store), NodeField(slots[i]))
      modifies this
      ensures |clones| == |slots| && SlotsCloned(store, slots, clones, cts)
      ensures ForestCloned(old(store), store, ts, cts, Never(|ts|), synthetic, flagOf)
      ensures RecorderStep(old(recorder), recorder, SourceIn(source, old(store)).id, ts, cts)
      ensures Built(old(store)) ==> Built(store)
      decreases Sizes(ts), 7
    {
      hide Built, TreeCloned, ForestCloned, RecorderStep, Clonable, Unfolds, Present, SlotsCloned;
      clones, cts := [], [];
      NoSlotsCloned(store, slots);
      ghost var sid := SourceIn(source, store).id;
      RecorderStepNone(recorder, sid);
      ForestOfNone(store, synthetic, flagOf);
      assert ts[..0] == [];
      while |clones| < |slots|
        invariant |clones| <= |slots| && |cts| == |Present(slots[..|clones|])| <= |ts|
        invariant Extends(old(store), store) && (Built(old(store)) ==> Built(store))
        invariant SlotsCloned(store, slots, clones, cts)
        invariant ForestCloned(old(store), store, ts[..|cts|], cts, Never(|cts|), synthetic, flagOf)
        invariant RecorderStep(old(recorder), recorder, sid, ts[..|cts|], cts)
      {
        var at := |clones|;
        ghost var s1, r1, k := store, recorder, |cts|;
        ghost var mine := MySlot(slots, at, ts, k);
        ClonableSlice(source, old(store), s1, ts, mine);
        SizesSlice(ts, k, |mine|);
        ghost var own;
        var clone;
        clone, own := CloneOptionalNode(source, slots[at], synthetic, mine);
        ForestNodes(s1, store, mine, own, Never(|mine|), synthetic, flagOf);
        NextSlot(old(store), s1, store, old(recorder), r1, recorder, sid, ts, cts, mine, own, synthetic, flagOf);
        SlotAppended(s1, store, slots, clones, clone, cts, own);
        clones := clones + [clone];
        cts := cts + own;
      }
      assert slots[..|clones|] == slots && ts[..|cts|] == ts;
    }

    method CloneRawNodeSlice(source: CloneSource, slice: RawNodeSliceId, synthetic: bool, ghost ts: seq<Tree>)
      returns (clone: RawNodeSliceId, ghost cts: seq<Tree>)
      requires Clonable(source, store, ts)
      requires FieldOk(SourceIn(source, store), RawField(Some(slice)))
      requires FieldKids(SourceIn(source, store), RawField(Some(slice))) == Nodes(ts)
      modifies this
      ensures FieldCloned(old(store), store, SourceIn(source, old(store)), RawField(Some(slice)),
                          RawField(Some(clone)), ts, cts, synthetic, flagOf)
      ensures RecorderStep(old(recorder), recorder, SourceIn(source, old(store)).id, ts, cts)
      ensures Built(old(store)) ==> Built(store)
      decreases Sizes(ts), 8
    {
      hide Built, TreeCloned, ForestCloned, RecorderStep, Clonable;
      var slots := SourceIn(source, store).rawSlices[slice.idx];
      var clones;
      clones, cts := CloneSlots(source, slots, synthetic, ts);
      ghost var s1 := store;
      assert forall e | e in clones :: FieldOk(store, NodeField(e));
      assert SlotsOf(clones) == SlotsOf(slots);
      clone := NewRawNodeSlice(clones);
      CountPresent(slots);
      ForestNodes(old(store), s1, ts, cts, Never(|ts|), synthetic, flagOf);
      ForestClonedExtends(old(store), s1, store, ts, cts, Never(|ts|), synthetic, flagOf);
    }

    method CloneChildField(source: CloneSource, field: Field, synthetic: bool, ghost ts: seq<Tree>)
      returns (clone: Field, ghost cts: seq<Tree>)
      requires Clonable(source, store, ts)
      requires FieldOk(SourceIn(source, store), field) && FieldKids(SourceIn(source, store), field) == Nodes(ts)
      modifies this
      ensures FieldCloned(old(store), store, SourceIn(source, old(store)), field, clone, ts, cts, synthetic, flagOf)
      ensures RecorderStep(old(recorder), recorder, SourceIn(source, old(store)).id, ts, cts)
      ensures Built(old(store)) ==> Built(store)
      decreases Sizes(ts), 9
    {
      hide Built, ForestCloned, RecorderStep, Clonable;
      match field {
        case NodeField(slot) =>
          var node;
          node, cts := CloneOptionalNode(source, slot, synthetic, ts);
          return NodeField(node), cts;
        case ListField(Some(list)) =>
          var id;
          id, cts := CloneNodeList(source, list, synthetic, ts);
          return ListField(Some(id)), cts;
        case ModifiersField(Some(modifiers)) =>
          var id;
          id, cts := CloneModifierList(source, modifiers, synthetic, ts);
          return ModifiersField(Some(id)), cts;
        case RawField(Some(slice)) =>
          var id;
          id, cts := CloneRawNodeSlice(source, slice, synthetic, ts);
          return RawField(Some(id)), cts;
        case _ =>
          ForestOfNone(store, synthetic, flagOf);
          RecorderStepNone(recorder, SourceIn(source, store).id);
          assert ts == [] && Never(0) == [];
          return field, [];
      }
    }

    /** Clones the child fields of a payload one by one, in layout order. */
    method CloneChildFields(source: CloneSource, fields: seq<Field>, synthetic: bool, ghost ts: seq<Tree>)
      returns (values: seq<Field>, ghost cts: seq<Tree>)
      requires Clonable(source, store, ts)
      requires FieldsOk(SourceIn(source, store), fields) && Kids(SourceIn(source, store), fields) == Nodes(ts)
      modifies this
      ensures FieldsCloned(old(store), store, SourceIn(source, old(store)), fields, values, ts, cts, synthetic, flagOf)
      ensures RecorderStep(old(recorder), recorder, SourceIn(source, old(store)).id, ts, cts)
      ensures Built(old(store)) ==> Built(store)
      decreases Sizes(ts), 10
    {
      hide Built, FieldCloned, FieldsCloned, RecorderStep, Clonable, Kids, FieldKids, FieldOk, Unfolds, Sizes;
      values, cts := [], [];
      ghost var src := SourceIn(source, store);
      RecorderStepNone(recorder, src.id);
      NoFieldsCloned(store, src, fields, synthetic, flagOf);
      assert ts[..0] == [];
      while |values| < |fields|
        invariant |values| <= |fields| && |cts| <= |ts|
        invariant Extends(old(store), store) && (Built(old(store)) ==> Built(store))
        invariant FieldsCloned(old(store), store, src, fields[..|values|], values, ts[..|cts|], cts, synthetic, flagOf)
        invariant RecorderStep(old(recorder), recorder, src.id, ts[..|cts|], cts)
      {
        var at := |values|;
        ghost var s1, r1, k := store, recorder, |cts|;
        FieldsClonedCount(old(store), s1, src, fields[..at], values, ts[..k], cts, synthetic, flagOf);
        ghost var mine := MyField(src, fields, at, ts, k);
        ClonableSlice(source, old(store), s1, ts, mine);
        SizesSlice(ts, k, |mine|);
        FieldNow(source, old(store), s1, fields[at]);
        ghost var own;
        var value;
        value, own := CloneChildField(source, fields[at], synthetic, mine);
        NextField(old(store), s1, store, src, SourceIn(source, s1), fields, at, values, value, ts[..k], cts, mine, own,
                  synthetic, flagOf);
        RecorderStepCompose(old(recorder), r1, recorder, src.id, ts[..k], cts, mine, own);
        assert ts[..k] + mine == ts[..|cts + own|];
        values := values + [value];
        cts := cts + own;
      }
      AllFieldsCloned(old(store), store, src, fields, values, ts, cts, synthetic, flagOf);
    }

    /** Starts recording unless a recording is already under way; says whether it did. */
    method EnsureCloneRecorder() returns (started: bool)
      modifies this`recorder
      ensures started == old(recorder).None?
      ensures recorder == if started then Some(map[]) else old(recorder)
    {
      started := recorder.None?;
      if started {
        recorder := Some(map[]);
      }
    }

    method FinishCloneRecorder(started: bool)
      modifies this`recorder
      ensures recorder == if started then None else old(recorder)
    {
      if started {
        recorder := None;
      }
    }

    /** The clone of a node a file refers to: what was recorded for it, or else a clone made now. */
    method MapNode(source: CloneSource, ref: Node, synthetic: bool, ghost f: OpenFile, ghost used: seq<Tree>,
                   ghost cused: seq<Tree>)
      returns (mapped: Node, ghost used': seq<Tree>, ghost cused': seq<Tree>)
      requires Mapping(source, f, store, recorder, used, cused, synthetic, flagOf) && Reaches(f.t, f.outs, ref)
      modifies this
      ensures Mapping(source, f, store, recorder, used', cused', synthetic, flagOf)
      ensures used <= used' && cused <= cused' && Found(f, used', cused', ref, mapped)
      ensures Extends(old(store), store) && (Built(old(store)) ==> Built(store))
      decreases Sizes(f.outs), 6
    {
      hide Built, TreeCloned, Found, Reaches, ForestCloned, RecorderStep, AllUnfold, AllSelfContained;
      used', cused' := used, cused;
      RecordedFound(source, f, store, recorder, used, cused, synthetic, flagOf, ref);
      if ref.id in recorder.value {
        mapped := recorder.value[ref.id];
      } else {
        ghost var j: nat :| j < |f.outs| && f.outs[j].node == ref;
        ghost var u, s1, r1 := f.outs[j], store, recorder;
        SizesMember(f.outs, j);
        StillClonable(source, f.base, s1, f.outs);
        ghost var cu;
        mapped, cu := DeepCloneNode(source, ref, synthetic, u, []);
        MappedOwn(source, f, s1, store, r1, recorder, used, cused, u, cu, synthetic, flagOf);
        used', cused' := used + [u], cused + [cu];
      }
    }

    method MapNodes(source: CloneSource, refs: seq<Node>, synthetic: bool, ghost f: OpenFile, ghost used: seq<Tree>,
                    ghost cused: seq<Tree>)
      returns (mapped: seq<Node>, ghost used': seq<Tree>, ghost cused': seq<Tree>)
      requires Mapping(source, f, store, recorder, used, cused, synthetic, flagOf)
      requires forall r | r in refs :: Reaches(f.t, f.outs, r)
      modifies this
      ensures Mapping(source, f, store, recorder, used', cused', synthetic, flagOf)
      ensures used <= used' && cused <= cused' && SeqFound(f, used', cused', refs, mapped)
      ensures Extends(old(store), store) && (Built(old(store)) ==> Built(store))
      decreases Sizes(f.outs), 7
    {
      hide Built, Found, Mapping, Reaches;
      mapped, used', cused' := [], used, cused;
      while |mapped| < |refs|
        invariant |mapped| <= |refs|
        invariant Mapping(source, f, store, recorder, used', cused', synthetic, flagOf)
        invariant used <= used' && cused <= cused' && SeqFound(f, used', cused', refs[..|mapped|], mapped)
        invariant Extends(old(store), store) && (Built(old(store)) ==> Built(store))
      {
        ghost var used1, cused1 := used', cused';
        MappingSizes(source, f, store, recorder, used', cused', synthetic, flagOf);
        var at := |mapped|;
        var node;
        node, used', cused' := MapNode(source, refs[at], synthetic, f, used', cused');
        MappingSizes(source, f, store, recorder, used', cused', synthetic, flagOf);
        SeqFoundLater(f, used1, cused1, used', cused', refs[..at], mapped);
        mapped := mapped + [node];
      }
      assert refs[..|mapped|] == refs;
    }

    /** An indicator that is the file itself is left empty here and restored once the new file exists. */
    method MapIndicator(source: CloneSource, ref: Option<Node>, synthetic: bool, ghost f: OpenFile,
                        ghost used: seq<Tree>, ghost cused: seq<Tree>, file: Node)
      returns (mapped: Option<Node>, self: bool, ghost used': seq<Tree>, ghost cused': seq<Tree>)
      requires Mapping(source, f, store, recorder, used, cused, synthetic, flagOf) && file == f.t.node
      requires ref.Some? && ref.value != file ==> Reaches(f.t, f.outs, ref.value)
      modifies this
      ensures Mapping(source, f, store, recorder, used', cused', synthetic, flagOf)
      ensures used <= used' && cused <= cused'
      ensures self == (ref == Some(file)) && (mapped.Some? <==> ref.Some? && !self)
      ensures mapped.Some? ==> Found(f, used', cused', ref.value, mapped.value)
      ensures Extends(old(store), store) && (Built(old(store)) ==> Built(store))
      decreases Sizes(f.outs), 7
    {
      hide Built, Found, Mapping, Reaches;
      if ref.None? {
        return None, false, used, cused;
      }
      if ref.value == file {
        return None, true, used, cused;
      }
      var node;
      node, used', cused' := MapNode(source, ref.value, synthetic, f, used, cused);
      return Some(node), false, used', cused';
    }

    /** Maps all references of a file's metadata, in order; those to the file itself are only noted. */
    method MapRefs(source: CloneSource, file: Node, refs: FileRefs, synthetic: bool, ghost f: OpenFile)
      returns (mapped: FileRefs, selfCommonJs: bool, selfExternal: bool, ghost used: seq<Tree>, ghost cused: seq<Tree>)
      requires Mapping(source, f, store, recorder, [], [], synthetic, flagOf)
      requires file == f.t.node && refs == f.t.refs && RefsReach(f.t, f.outs)
      modifies this
      ensures Mapping(source, f, store, recorder, used, cused, synthetic, flagOf)
      ensures selfCommonJs == (refs.commonJs == Some(file)) && selfExternal == (refs.external == Some(file))
      ensures MappedFound(f, mapped, used, cused)
      ensures Extends(old(store), store) && (Built(old(store)) ==> Built(store))
      decreases Sizes(f.outs), 8
    {
      hide Built, Found, Mapping, Reaches;
      var imports, augmentations, commonJs, external;
      imports, used, cused := MapNodes(source, refs.imports, synthetic, f, [], []);
      MappingSizes(source, f, store, recorder, used, cused, synthetic, flagOf);
      ghost var u1, c1 := used, cused;
      augmentations, used, cused := MapNodes(source, refs.augmentations, synthetic, f, used, cused);
      MappingSizes(source, f, store, recorder, used, cused, synthetic, flagOf);
      ghost var u2, c2 := used, cused;
      commonJs, selfCommonJs, used, cused := MapIndicator(source, refs.commonJs, synthetic, f, used, cused, file);
      MappingSizes(source, f, store, recorder, used, cused, synthetic, flagOf);
      ghost var u3, c3 := used, cused;
      external, selfExternal, used, cused := MapIndicator(source, refs.external, synthetic, f, used, cused, file);
      MappingSizes(source, f, store, recorder, used, cused, synthetic, flagOf);
      mapped := FileRefs(imports, augmentations, commonJs, external);
      SeqFoundLater(f, u1, c1, used, cused, refs.imports, imports);
      SeqFoundLater(f, u2, c2, used, cused, refs.augmentations, augmentations);
      if commonJs.Some? {
        FoundLater(f, u3, c3, used, cused, refs.commonJs.value, commonJs.value);
      }
    }

    method RestoreSelfReferences(file: Node, commonJs: bool, external: bool)
      requires InStore(store, file)
      modifies this`store
      ensures store == SetRefsAt(old(store), file,
                                 Restored(old(store.nodes)[file.id].payload.refs, file, commonJs, external))
    {
      if commonJs {
        store := SetRefsAt(store, file, store.nodes[file.id].payload.refs.(commonJs := Some(file)));
      }
      if external {
        store := SetRefsAt(store, file, store.nodes[file.id].payload.refs.(external := Some(file)));
      }
    }

    /** Creates the cloned file, points its indicators at itself where the original's did, and finishes it as a clone.
      */
    method CreateSourceFileClone(original: Node, header: NodeHeader, values: seq<Field>, refs: FileRefs, commonJs: bool,
                                 external: bool, synthetic: bool) returns (cloned: Node)
      requires original != Node(store.id, |store.nodes|) && header.kind == KIND_SOURCE_FILE
      modifies this
      ensures cloned == Node(old(store.id), |old(store.nodes)|)
      ensures store == Appended(old(store),
                                NodeHeader(ClonedKind(header.kind), header.flags, Relocated(header.loc, synthetic),
                                           Payload(header.payload.tag, header.payload.data, NoCaches, values,
                                                   Restored(refs, cloned, commonJs, external))))
      ensures recorder == RecordedAs(old(recorder), original, cloned)
    {
      cloned := NewNode(header.kind, header.flags,
                        Payload(header.payload.tag, header.payload.data, NoCaches, values, refs));
      RestoreSelfReferences(cloned, commonJs, external);
      cloned := FinishCloneNode(cloned, original, header.flags, header.loc);
      if synthetic {
        SetLoc(cloned, UNDEFINED_RANGE);
      }
    }

    /** Clones a source file. Its metadata may refer to nodes outside it, whose trees are `outs`: those that are not yet
      * recorded are cloned on their own.
      */
    method DeepCloneSourceFile(source: CloneSource, node: Node, synthetic: bool, ghost t: Tree, ghost outs: seq<Tree>)
      returns (cloned: Node, ghost ct: Tree, ghost used: seq<Tree>, ghost cused: seq<Tree>)
      requires OpenClonable(source, store, t, outs) && node == t.node && t.head.tag.SourceFileTag?
      modifies this
      ensures Extends(old(store), store)
      ensures FileCloned(OpenFile(SourceIn(source, old(store)), old(store), Recording(old(recorder)), t, ct.kids, outs),
                         store, ct, used, cused, synthetic, flagOf)
      ensures cloned == ct.node == Node(store.id, |store.nodes| - 1)
      ensures |old(store.nodes)| < |store.nodes|
      ensures |used| == |cused|
      ensures RecorderStep(old(recorder), recorder, SourceIn(source, old(store)).id, used + [t], cused + [ct])
      ensures Built(old(store)) ==> Built(store)
      decreases Size(t) + Sizes(outs), 4
    {
      hide Built, FieldsCloned, TreeCloned, Recorded, Clonable, Kids, Shapes, FieldOk, Mapping, KidsClone, ForestCloned;
      OpenRoot(source, store, t, outs);
      ghost var src := SourceIn(source, store);
      var started := EnsureCloneRecorder();
      ghost var r0 := recorder;
      var header := SourceIn(source, store).nodes[node.id];
      ghost var cts;
      var values;
      values, cts := CloneChildFields(source, header.payload.fields, synthetic, t.kids);
      ghost var s1 := store;
      FieldsClonedCount(old(store), s1, src, header.payload.fields, values, t.kids, cts, synthetic, flagOf);
      ghost var f := OpenFile(src, old(store), r0.value, t, cts, outs);
      MappingStarts(source, f, s1, recorder, synthetic, flagOf);
      var refs, selfCommonJs, selfExternal;
      refs, selfCommonJs, selfExternal, used, cused := MapRefs(source, node, header.payload.refs, synthetic, f);
      ghost var s2, r2 := store, recorder;
      MappingSizes(source, f, s2, r2, used, cused, synthetic, flagOf);
      SourceFresh(source, old(store), s2, t);
      cloned := CreateSourceFileClone(node, header, values, refs, selfCommonJs, selfExternal, synthetic);
      FinishCloneRecorder(started);
      ct := FileFromFields(s1, s2, f, values, Restored(refs, cloned, selfCommonJs, selfExternal), synthetic, flagOf);
      FileFinished(source, f, s2, store, r2, ct, refs, used, cused, synthetic, flagOf);
      OpenStaysBuilt(|old(store.nodes)|, s2, store, ct);
      RecordedFile(r0, r2, RecordedAs(r2, node, cloned), src.id, t, ct, used, cused);
    }

    /** Clones any acyclic node. A source file may refer to nodes outside it, whose trees are then `outs`. */
    method DeepCloneNode(source: CloneSource, node: Node, synthetic: bool, ghost t: Tree, ghost outs: seq<Tree>)
      returns (cloned: Node, ghost ct: Tree)
      requires node == t.node
      requires outs == [] ==> Clonable(source, store, [t])
      requires outs != [] ==> t.head.tag.SourceFileTag? && OpenClonable(source, store, t, outs)
      modifies this
      ensures Extends(old(store), store) && |old(store.nodes)| < |store.nodes|
      ensures cloned == ct.node == Node(store.id, |store.nodes| - 1)
      ensures outs == [] ==>
                && TreeCloned(|old(store.nodes)|, store, t, ct, false, synthetic, flagOf)
                && RecorderStep(old(recorder), recorder, SourceIn(source, old(store)).id, [t], [ct])
      ensures outs != [] ==> exists used: seq<Tree>, cused: seq<Tree> ::
                && FileCloned(OpenFile(SourceIn(source, old(store)), old(store), Recording(old(recorder)),
                                       t, ct.kids, outs),
                              store, ct, used, cused, synthetic, flagOf)
                && RecorderStep(old(recorder), recorder, SourceIn(source, old(store)).id, used + [t], cused + [ct])
      ensures Built(old(store)) ==> Built(store)
      decreases Size(t) + Sizes(outs), 5
    {
      hide Built, FieldsCloned, TreeCloned, RecorderStep, Clonable, Kids, Shapes, FieldOk,
           FileCloned, OpenClonable, AllSelfContained;
      if outs == [] {
        ClosedIsOpen(source, store, t);
        ClonableRoot(source, store, t);
      } else {
        OpenRoot(source, store, t, outs);
      }
      var header := SourceIn(source, store).nodes[node.id];
      if header.kind == KIND_BINARY_EXPRESSION {
        cloned, ct := DeepCloneBinaryChain(source, node, synthetic, t);
        return;
      }
      if header.payload.tag.SourceFileTag? {
        ghost var used, cused;
        cloned, ct, used, cused := DeepCloneSourceFile(source, node, synthetic, t, outs);
        if outs == [] {
          ghost var f := OpenFile(SourceIn(source, old(store)), old(store), Recording(old(recorder)), t, ct.kids, outs);
          ClosedFile(f, store, ct, used, cused, synthetic, flagOf);
          assert [] + [t] == [t] && [] + [ct] == [ct];
        }
        return;
      }
      ghost var src := SourceIn(source, store);
      ghost var cts;
      var values;
      values, cts := CloneChildFields(source, header.payload.fields, synthetic, t.kids);
      ghost var s1, r1 := store, recorder;
      FieldsClonedCount(old(store), s1, src, header.payload.fields, values, t.kids, cts, synthetic, flagOf);
      StillClonable(source, old(store), s1, [t]);
      ClonableRoot(source, s1, t);
      cloned := CreateClone(node, ClonedKind(header.kind), header.flags, header.loc,
                            Payload(header.payload.tag, header.payload.data, NoCaches, values, NO_REFS), synthetic);
      ct := CloneFromFields(old(store), s1, src, t, values, NO_REFS, cts, synthetic, flagOf);
      CloneStaysBuilt(|old(store.nodes)|, s1, store, t, ct, synthetic, flagOf);
      RecordedTree(old(recorder), r1, recorder, src.id, t, ct);
    }

    /** A binary operand was cloned earlier in the chain and is looked up; any other child is cloned now. */
    method CloneBinaryField(source: CloneSource, field: Field, synthetic: bool, clonedNodes: map<Node, Node>,
                            ghost c: Chain, ghost t: Tree, ghost u: Tree, ghost values: seq<Field>, ghost k: Progress)
      returns (value: Field, ghost k2: Progress)
      requires ChainMember(c.src, t, u) && Done(c, t, clonedNodes) && |values| < 5
      requires forall p: nat | ChainPos(u, p) :: u.kids[p] in c.all
      requires c.src == SourceIn(source, c.base) && Clonable(source, c.base, [u]) && Extends(c.base, store)
      requires ForestCloned(c.base, store, c.all, c.call, Never(|c.all|), synthetic, flagOf)
      requires KidsCloned(c, store, recorder, u, values, k, synthetic, flagOf)
      requires |FieldsOf(c.src, u)| == 5 && field == FieldsOf(c.src, u)[|values|]
      modifies this
      ensures Extends(old(store), store) && Extends(c.base, store)
      ensures ForestCloned(c.base, store, c.all, c.call, Never(|c.all|), synthetic, flagOf)
      ensures KidsCloned(c, store, recorder, u, values + [value], k2, synthetic, flagOf)
      ensures Built(old(store)) ==> Built(store)
      decreases Sizes(u.kids), 11
    {
      hide Built, TreeCloned, ForestCloned, FieldCloned, RecorderStep, Clonable, ChainPos, FieldsOf,
           KidsCloned, Unfolds, SelfContained,
           FieldOk, FieldKids, ShapeOf, Linked, Distinct, Kids, OnChain, Size, Sizes;
      ghost var s1, r1, at, n := store, recorder, |values|, |k.cts|;
      ghost var mine := NextKids(c, s1, r1, u, values, k, synthetic, flagOf);
      FieldNow(source, c.base, s1, field);
      SameBinary(c.src, SourceIn(source, s1), field);
      if field.NodeField? && IsBinary(SourceIn(source, store), field.node) {
        var operand := field.node.value;
        value := NodeField(if operand in clonedNodes then Some(clonedNodes[operand]) else None);
        ghost var q :| 0 <= q < |c.all| && c.all[q] == u.kids[n];
        MemberCopied(c, s1, q, synthetic, flagOf);
        RecalledField(c, s1, r1, u, values, k, q, synthetic, flagOf);
        k2 := k.(cts := k.cts + [c.call[q]]);
      } else {
        ClonableRoot(source, c.base, u);
        ClonableSlice(source, c.base, s1, u.kids, mine);
        SizesSlice(u.kids, n, |mine|);
        ghost var own;
        value, own := CloneChildField(source, field, synthetic, mine);
        FreshField(c, s1, store, SourceIn(source, s1), r1, recorder, u, values, k, value, mine, own, synthetic, flagOf);
        FieldGrew(s1, store, SourceIn(source, s1), field, value, mine, own, synthetic, flagOf);
        ForestClonedExtends(c.base, s1, store, c.all, c.call, Never(|c.all|), synthetic, flagOf);
        k2 := Progress(k.cts + own, k.extra + mine, k.cextra + own);
      }
    }

    /** The last step for one binary expression of a chain: its fields are cloned, its own node is made. */
    method CreateChainNode(source: CloneSource, current: Node, synthetic: bool, values: seq<Field>, ghost c: Chain,
                           ghost u: Tree, ghost k: Progress)
      returns (cloned: Node, ghost cu: Tree)
      requires Unfolds(c.src, u) && u.head.kind == KIND_BINARY_EXPRESSION && current == u.node
      requires u.node.store == c.src.id && u.refs == NO_REFS && !u.head.tag.SourceFileTag?
      requires |values| == |FieldsOf(c.src, u)| && Kids(c.src, FieldsOf(c.src, u)) == Nodes(u.kids)
      requires c.src == SourceIn(source, c.base) && Clonable(source, c.base, [u]) && Extends(c.base, store)
      requires ForestCloned(c.base, store, c.all, c.call, Never(|c.all|), synthetic, flagOf)
      requires KidsCloned(c, store, recorder, u, values, k, synthetic, flagOf)
      modifies this
      ensures Extends(c.base, store) && |old(store.nodes)| < |store.nodes|
      ensures cloned == cu.node == Node(store.id, |store.nodes| - 1)
      ensures ChainCloned(Grown(c, u, cu), store, recorder, synthetic, flagOf)
      ensures LinkedAt(c.all, c.call, u, cu)
      ensures Built(old(store)) ==> Built(store)
    {
      hide Built, TreeCloned, ForestCloned, RecorderStep, Clonable, ChainPos, FieldsOf,
           KidsCloned, Unfolds, SelfContained, FieldOk,
           Linked, Distinct, LinkedAt, Kids, OnChain, Shapes;
      ghost var s1, r1 := store, recorder;
      StillClonable(source, c.base, s1, [u]);
      ClonableRoot(source, s1, u);
      var header := SourceIn(source, store).nodes[current.id];
      cloned := CreateClone(current, KIND_BINARY_EXPRESSION, header.flags, header.loc,
                            Payload(header.payload.tag, header.payload.data, NoCaches, values, NO_REFS), synthetic);
      cu := MemberCloned(c, s1, store, r1, recorder, u, values, k, synthetic, flagOf);
      MemberCopied(Grown(c, u, cu), store, |c.all|, synthetic, flagOf);
      CloneStaysBuilt(|c.base.nodes|, s1, store, u, cu, synthetic, flagOf);
    }

    /** Clones one binary expression of a chain whose binary operands are cloned already. */
    method CloneChainNode(source: CloneSource, current: Node, synthetic: bool, clonedNodes: map<Node, Node>,
                          ghost c: Chain, ghost t: Tree, ghost u: Tree)
      returns (cloned: Node, ghost cu: Tree)
      requires ChainMember(c.src, t, u) && current == u.node && Done(c, t, clonedNodes)
      requires forall p: nat | ChainPos(u, p) :: u.kids[p] in c.all
      requires c.src == SourceIn(source, c.base) && Clonable(source, c.base, [u]) && Extends(c.base, store)
      requires ChainCloned(c, store, recorder, synthetic, flagOf)
      modifies this
      ensures Extends(c.base, store) && |old(store.nodes)| < |store.nodes|
      ensures cloned == cu.node == Node(store.id, |store.nodes| - 1)
      ensures ChainCloned(Grown(c, u, cu), store, recorder, synthetic, flagOf)
      ensures LinkedAt(c.all, c.call, u, cu)
      ensures Built(old(store)) ==> Built(store)
      decreases Size(u), 2
    {
      hide Built, TreeCloned, ForestCloned, RecorderStep, Clonable, ChainPos, FieldsOf,
           KidsCloned, Unfolds, SelfContained, FieldOk,
           Linked, Distinct, Done, LinkedAt, Kids, OnChain, Shapes, Size, Sizes, ChainMember;
      ghost var s0 := store;
      ChainNodeSource(source, c, s0, recorder, t, u, synthetic, flagOf);
      KidsStart(c, s0, recorder, u, synthetic, flagOf);
      var fields := SourceIn(source, store).nodes[current.id].payload.fields;
      ghost var k := Progress([], [], []);
      var modifiers, left, typeNode, operatorToken, right;
      modifiers, k := CloneBinaryField(source, fields[0], synthetic, clonedNodes, c, t, u, [], k);
      assert [] + [modifiers] == [modifiers];
      left, k := CloneBinaryField(source, fields[1], synthetic, clonedNodes, c, t, u, [modifiers], k);
      assert [modifiers] + [left] == [modifiers, left];
      typeNode, k := CloneBinaryField(source, fields[2], synthetic, clonedNodes, c, t, u, [modifiers, left], k);
      assert [modifiers, left] + [typeNode] == [modifiers, left, typeNode];
      operatorToken, k := CloneBinaryField(source, fields[3], synthetic, clonedNodes, c, t, u,
                                           [modifiers, left, typeNode], k);
      assert [modifiers, left, typeNode] + [operatorToken] == [modifiers, left, typeNode, operatorToken];
      right, k := CloneBinaryField(source, fields[4], synthetic, clonedNodes, c, t, u,
                                   [modifiers, left, typeNode, operatorToken], k);
      var values := [modifiers, left, typeNode, operatorToken, right];
      assert [modifiers, left, typeNode, operatorToken] + [right] == values;
      cloned, cu := CreateChainNode(source, current, synthetic, values, c, u, k);
    }

    /** Clones a chain of binary expressions with a stack of its own: every member once, operands before the
      * expressions that hold them, the root last.
      */
    method DeepCloneBinaryChain(source: CloneSource, node: Node, synthetic: bool, ghost t: Tree)
      returns (cloned: Node, ghost ct: Tree)
      requires Clonable(source, store, [t]) && node == t.node && t.head.kind == KIND_BINARY_EXPRESSION
      modifies this
      ensures Extends(old(store), store)
      ensures TreeCloned(|old(store.nodes)|, store, t, ct, false, synthetic, flagOf)
      ensures cloned == ct.node == Node(store.id, |store.nodes| - 1)
      ensures |old(store.nodes)| < |store.nodes|
      ensures RecorderStep(old(recorder), recorder, SourceIn(source, old(store)).id, [t], [ct])
      ensures EachMemberOnce(t, ct)
      ensures Built(old(store)) ==> Built(store)
      decreases Size(t), 4
    {
      hide Built, TreeCloned, RecorderStep, Clonable, ChainMember, ChainPos, LinkedAt, Size, Sizes, Weight,
           OnChain, Unfolds,
           SelfContained, ChainInv, Done, ForestCloned, EachMemberOnce;
      ghost var s0 := store;
      ghost var c := Chain(s0, recorder, SourceIn(source, s0), [], []);
      ChainRoot(source, s0, t);
      ForestOfNone(s0, synthetic, flagOf);
      RecorderStepNone(recorder, c.src.id);
      ChainStart(c, t);
      var stack := [(node, false)];
      ghost var trees := [t];
      var clonedNodes: map<Node, Node> := map[];
      while stack != []
        invariant c.base == s0 && c.src == SourceIn(source, s0) && c.recorder == old(recorder)
        invariant |stack| == |trees| && ChainInv(c, t, stack, trees, clonedNodes)
        invariant Built(s0) ==> Built(store)
        invariant Extends(s0, store) && ChainCloned(c, store, recorder, synthetic, flagOf)
        invariant stack == [] ==>
                    && |s0.nodes| < |store.nodes|
                    && c.call != [] && c.call[|c.call| - 1].node == Node(store.id, |store.nodes| - 1)
        decreases Weight(stack, trees)
      {
        ghost var before := Weight(stack, trees);
        var last := |stack| - 1;
        var current, expanded := stack[last].0, stack[last].1;
        ghost var u := trees[last];
        TopEntry(c, t, stack, trees, clonedNodes);
        if current in clonedNodes {
          PopCloned(c, t, stack, trees, clonedNodes);
          stack, trees := stack[..last], trees[..last];
          assert Weight(stack, trees) < before;
        } else if !expanded {
          MemberSource(source, s0, store, t, u);
          ghost var ls, rs := Operands(c.src, t, u);
          PopFresh(c, t, stack, trees, clonedNodes, u, ls, rs);
          var fields := SourceIn(source, store).nodes[current.id].payload.fields;
          var right, left := fields[4].node, fields[1].node;
          ghost var pushed := stack[..last] + [(current, true)] + Entries(rs) + Entries(ls);
          stack := stack[..last] + [(current, true)];
          if right.Some? && KindOf(SourceIn(source, store), right.value) == KIND_BINARY_EXPRESSION {
            stack := stack + [(right.value, false)];
          }
          if left.Some? && KindOf(SourceIn(source, store), left.value) == KIND_BINARY_EXPRESSION {
            stack := stack + [(left.value, false)];
          }
          assert stack == pushed;
          trees := trees + rs + ls;
          assert Weight(stack, trees) < before;
        } else {
          ReadyOperands(c, t, stack, trees, clonedNodes, u);
          MemberClonable(source, s0, t, u);
          ghost var cu;
          var clone;
          clone, cu := CloneChainNode(source, current, synthetic, clonedNodes, c, t, u);
          PopExpanded(c, t, stack, trees, clonedNodes, cu);
          c := Grown(c, u, cu);
          stack, trees := stack[..last], trees[..last];
          assert Weight(stack, trees) < before;
          clonedNodes := clonedNodes[current := clone];
        }
      }
      ChainFinish(c, t, store, recorder, clonedNodes, synthetic, flagOf);
      cloned := clonedNodes[node];
      ct := c.call[|c.call| - 1];
    }

    // ---- import and update ----

    /** Brings a proposed child into this factory's store: ids of the own store stay, others are cloned in place. */
    method ImportUpdateField(source: AstStore, field: Field, ghost ts: seq<Tree>)
      returns (value: Field, ghost cts: seq<Tree>)
      requires Importable(source, store, field, ts)
      modifies this
      ensures Extends(old(store), store)
      ensures Imported(old(store), store, source, field, value, ts, cts, flagOf)
      ensures IsOwn(old(store), field) ==> store == old(store) && recorder == old(recorder)
      ensures !IsOwn(old(store), field) ==> RecorderStep(old(recorder), recorder, source.id, ts, cts)
      ensures recorder.Some? == old(recorder).Some?
      ensures Built(old(store)) ==> Built(store)
    {
      hide Built, FieldCloned, Recorded, Clonable;
      if IsOwn(store, field) {
        return field, [];
      }
      value, cts := CloneChildField(Other(source), field, false, ts);
      ImportedField(old(store), store, source, field, value, ts, cts, flagOf);
    }

    method ImportUpdateFields(source: AstStore, fields: seq<Field>, ghost tss: seq<seq<Tree>>)
      returns (values: seq<Field>, ghost ctss: seq<seq<Tree>>)
      requires AllImportable(source, store, fields, tss)
      modifies this
      ensures Extends(old(store), store) && |values| == |fields|
      ensures AllImported(old(store), store, source, fields, values, tss, ctss, flagOf)
      ensures recorder.Some? == old(recorder).Some?
      ensures Built(old(store)) ==> Built(store)
    {
      hide Built, Imported, Importable, RecorderStep;
      values, ctss := [], [];
      while |values| < |fields|
        invariant |values| <= |fields|
        invariant Extends(old(store), store) && (Built(old(store)) ==> Built(store))
        invariant AllImported(old(store), store, source, fields, values, tss, ctss, flagOf)
        invariant recorder.Some? == old(recorder).Some?
      {
        ghost var s1 := store;
        var at := |values|;
        StillImportable(source, old(store), s1, fields[at], tss[at]);
        ghost var cts;
        var value;
        value, cts := ImportUpdateField(source, fields[at], tss[at]);
        ImportedNext(old(store), s1, store, source, fields, values, value, tss, ctss, cts, flagOf);
        values := values + [value];
        ctss := ctss + [cts];
      }
    }

    /** Creates an updated node; whatever flags it was created with, it ends with the original's flags and place. */
    method CreateUpdated(original: Node, header: NodeHeader, flags: Flags, data: string, values: seq<Field>)
      returns (updated: Node)
      requires original != Node(store.id, |store.nodes|)
      modifies this
      ensures updated == Node(old(store.id), |old(store.nodes)|)
      ensures store == Appended(old(store), UpdatedHeader(header, data, values))
      ensures recorder == old(recorder)
    {
      updated := NewNode(ClonedKind(header.kind), flags, Payload(header.payload.tag, data, NoCaches, values, NO_REFS));
      updated := FinishUpdateNode(updated, original, header.flags, header.loc);
    }

    /** Updates a node that lives in `source`, which may be this factory's own store, with proposed flags, data and
      * children. Nothing changed: the node itself, or its clone if it lives elsewhere. Something changed: a new node.
      * Either way the result belongs to this factory's store.
      */
    method UpdateFromStore(source: AstStore, node: Node, flags: Option<Flags>, data: string, fields: seq<Field>,
                           ghost t: Tree, ghost tss: seq<seq<Tree>>)
      returns (updated: Node, changed: bool, ghost ct: Tree, ghost ctss: seq<seq<Tree>>)
      requires source.id == store.id ==> source == store
      requires Unfolds(source, t) && t.node == node && !t.head.tag.SourceFileTag?
      requires source.id != store.id ==> Clonable(Other(source), store, [t])
      requires AllImportable(source, store, fields, tss)
      requires FitsLayout(source, store, source.nodes[node.id], fields)
      modifies this
      ensures var h := source.nodes[node.id];
              changed <==>
                (flags.Some? && flags.value != h.flags) || data != h.payload.data || fields != h.payload.fields
      ensures Extends(old(store), store) && InStore(store, updated)
      ensures !changed && source.id == old(store.id) ==> updated == node && store == old(store)
      ensures !changed && source.id != old(store.id) ==>
                && updated == ct.node
                && TreeCloned(|old(store.nodes)|, store, t, ct, false, false, flagOf)
      ensures changed ==>
                && updated == Node(store.id, |store.nodes| - 1)
                && |old(store.nodes)| < |store.nodes|
                && var h, n := source.nodes[node.id], store.nodes[updated.id];
                   // The proposed data and the imported children are in the new node; the rest is the original's.
                   && n.payload.data == data && n.payload.tag == h.payload.tag
                   && |n.payload.fields| == |fields|
                   && AllImported(old(store), store, source, fields, n.payload.fields, tss, ctss, flagOf)
                   && n.payload.caches == NoCaches && n.payload.refs == NO_REFS
                   && n.flags == h.flags && n.loc == h.loc
                   // Only the two kinds that share a payload with another kind are lost.
                   && (h.kind == KIND_JS_TYPE_ALIAS_DECLARATION ==> n.kind == KIND_TYPE_ALIAS_DECLARATION)
                   && (h.kind == KIND_JS_IMPORT_DECLARATION ==> n.kind == KIND_IMPORT_DECLARATION)
                   && (h.kind != KIND_JS_TYPE_ALIAS_DECLARATION && h.kind != KIND_JS_IMPORT_DECLARATION ==>
                         n.kind == h.kind)
      ensures recorder.Some? == old(recorder).Some?
      ensures Built(old(store)) ==> Built(store)
    {
      hide Built, TreeCloned, Clonable, AllImportable, AllImported, Kids, Shapes, Recorded, FitsLayout, FieldOk,
           ClonesTo, PayloadOk;
      var header := source.nodes[node.id];
      ct, ctss := t, [];
      changed := (flags.Some? && flags.value != header.flags) || data != header.payload.data
                 || fields != header.payload.fields;
      if !changed {
        if source.id == store.id {
          return node, changed, ct, ctss;
        }
        ClonableRoot(Other(source), store, t);
        updated, ct := DeepCloneNode(Other(source), node, false, t, []);
        return;
      }
      var values;
      values, ctss := ImportUpdateFields(source, fields, tss);
      ghost var s1 := store;
      updated := CreateUpdated(node, header, if flags.Some? then flags.value else {}, data, values);
      ImportedAppended(old(store), s1, store, source, fields, values, tss, ctss, flagOf);
      if Built(s1) {
        UpdateStaysBuilt(old(store), s1, source, header, data, fields, values, tss, ctss, flagOf);
      }
    }
  }
}
