/** The snapshots of an API session while several requests are under way: an update takes its snapshot under one lock
  * and stores it under another, and anything may happen in between.
  */
module SessionInterleavings {
  import opened ApiSessions

  /** `hands` are the snapshots that updates have taken and not stored yet. */
  datatype State = State(
    held: multiset<nat>, acquired: nat, released: nat, snapshots: map<string, SnapshotData>, log: seq<Event>,
    leaked: multiset<nat>, hands: seq<Snapshot>)

  const INITIAL := State(multiset{}, 0, 0, map[], [], multiset{}, [])

  /** What happens under one lock, or under the lock of the table and the project session's inside it. */
  datatype Action =
    | OpenFails(snapshot: Snapshot)
    | TakeSnapshot(snapshot: Snapshot)
    | StoreSnapshot(hand: nat)
    | Release(handle: string)
    | Close

  /** A snapshot id always stands for the same snapshot. */
  predicate Known(catalog: nat -> Snapshot, x: Snapshot) {
    SnapshotOk(x) && catalog(x.id) == x
  }

  predicate Enabled(catalog: nat -> Snapshot, s: State, a: Action) {
    match a
    case OpenFails(x) => Known(catalog, x)
    case TakeSnapshot(x) => Known(catalog, x)
    case StoreSnapshot(k) => k < |s.hands|
    case Release(_) => true
    case Close => true
  }

  function StoreIn(s: State, x: Snapshot, hands: seq<Snapshot>): State {
    var h := HandleOf(x.id);
    var s' := s.(snapshots := s.snapshots[h := Stored(s.snapshots, x)], log := s.log + [Updated(h)], hands := hands);
    if h in s.snapshots then s'.(held := s.held - multiset{x.id}, released := s.released + 1) else s'
  }

  function ReleaseIn(s: State, h: string): State {
    if h !in s.snapshots then s
    else
      var d := s.snapshots[h];
      var s' := s.(log := s.log + [Released(h)]);
      if d.refCount <= 1 then
        s'.(snapshots := s.snapshots - {h}, held := s.held - multiset{d.snapshot.id}, released := s.released + 1)
      else
        s'.(snapshots := s.snapshots[h := d.(refCount := d.refCount - 1)])
  }

  ghost function Apply(catalog: nat -> Snapshot, s: State, a: Action): State
    requires Enabled(catalog, s, a)
  {
    match a
    case OpenFails(_) => s.(acquired := s.acquired + 1, released := s.released + 1)
    case TakeSnapshot(x) =>
      s.(held := s.held + multiset{x.id}, acquired := s.acquired + 1, hands := s.hands + [x])
    case StoreSnapshot(k) => StoreIn(s, s.hands[k], s.hands[..k] + s.hands[k + 1..])
    case Release(h) => ReleaseIn(s, h)
    case Close =>
      s.(snapshots := map[], log := s.log + [ClosedAll], leaked := s.leaked + multiset(Ids(s.snapshots)))
  }

  ghost predicate ValidRun(catalog: nat -> Snapshot, s: State, run: seq<Action>)
    decreases |run|
  {
    run == [] || (Enabled(catalog, s, run[0]) && ValidRun(catalog, Apply(catalog, s, run[0]), run[1..]))
  }

  ghost function Run(catalog: nat -> Snapshot, s: State, run: seq<Action>): State
    requires ValidRun(catalog, s, run)
    decreases |run|
  {
    if run == [] then s else Run(catalog, Apply(catalog, s, run[0]), run[1..])
  }

  // ---- the invariant ----

  function HandIds(hands: seq<Snapshot>): multiset<nat> {
    if hands == [] then multiset{} else HandIds(hands[..|hands| - 1]) + multiset{hands[|hands| - 1].id}
  }

  lemma {:induction false} HandIdsSplit(a: seq<Snapshot>, b: seq<Snapshot>)
    ensures HandIds(a + b) == HandIds(a) + HandIds(b)
    decreases |b|
  {
    if b == [] {
      assert a + b == a;
    } else {
      var front, last := b[..|b| - 1], b[|b| - 1];
      HandIdsSplit(a, front);
      assert (a + b)[..|a + b| - 1] == a + front && (a + b)[|a + b| - 1] == last;
      assert HandIds(a + b) == HandIds(a + front) + multiset{last.id};
      assert HandIds(b) == HandIds(front) + multiset{last.id};
    }
  }

  lemma {:induction false} HandIdsCount(hands: seq<Snapshot>)
    ensures |HandIds(hands)| == |hands|
    ensures forall x | x in hands :: x.id in HandIds(hands)
  {
    if hands != [] {
      var front, last := hands[..|hands| - 1], hands[|hands| - 1];
      HandIdsCount(front);
      assert hands == front + [last];
    }
  }

  /** Taking one snapshot out of the hands. */
  lemma {:induction false} HandTaken(hands: seq<Snapshot>, k: nat)
    requires k < |hands|
    ensures HandIds(hands) == HandIds(hands[..k] + hands[k + 1..]) + multiset{hands[k].id}
  {
    var a, b, c := hands[..k], [hands[k]], hands[k + 1..];
    assert hands == a + b + c;
    OneHand(hands[k]);
    hide HandIds;
    HandIdsSplit(a, c);
    HandIdsSplit(a, b);
    HandIdsSplit(a + b, c);
  }

  lemma OneHand(x: Snapshot)
    ensures HandIds([x]) == multiset{x.id}
  {
    assert [x][..0] == [];
  }

  ghost function Base(s: State): multiset<nat> {
    multiset(Ids(s.snapshots)) + s.leaked
  }

  /** The books are balanced but for the snapshots in hand, each of which has a reference of its own. */
  ghost predicate Books(s: State) {
    && Balanced(Base(s), s.snapshots, s.log, s.leaked)
    && s.held == Base(s) + HandIds(s.hands)
  }

  ghost predicate AllKnown(catalog: nat -> Snapshot, s: State) {
    && (forall x | x in s.hands :: Known(catalog, x))
    && (forall h | h in s.snapshots :: Known(catalog, s.snapshots[h].snapshot))
  }

  ghost predicate Inv(catalog: nat -> Snapshot, s: State) {
    Books(s) && s.acquired == s.released + |s.held| && AllKnown(catalog, s)
  }

  lemma InitialInv(catalog: nat -> Snapshot)
    ensures Inv(catalog, INITIAL)
  {
    NoIds();
  }

  lemma HeldOne(held: multiset<nat>, base: multiset<nat>, rest: multiset<nat>, id: nat)
    requires held == base + (rest + multiset{id})
    ensures id in held && |held - multiset{id}| == |held| - 1 && held - multiset{id} == base + rest
    ensures held == (base + multiset{id}) + rest
  {
    assert held - multiset{id} == base + rest;
    assert held == (base + rest) + multiset{id};
  }

  /** A stored snapshot with the id of one in hand is that snapshot. */
  lemma SameSnapshot(catalog: nat -> Snapshot, s: State, x: Snapshot)
    requires Inv(catalog, s) && Known(catalog, x)
    ensures HandleOf(x.id) in s.snapshots ==> s.snapshots[HandleOf(x.id)].snapshot == x
  {
    var h := HandleOf(x.id);
    if h in s.snapshots {
      assert EntryOk(h, s.snapshots[h]) && Known(catalog, s.snapshots[h].snapshot);
      HandlesDiffer(s.snapshots[h].snapshot.id, x.id);
    }
  }

  lemma {:induction false} StoreInv(catalog: nat -> Snapshot, s: State, k: nat)
    requires Inv(catalog, s) && k < |s.hands|
    ensures Inv(catalog, Apply(catalog, s, StoreSnapshot(k)))
  {
    hide HandleOf, HandIds, Balanced, Base, SnapshotOk;
    var x := s.hands[k];
    var rest := s.hands[..k] + s.hands[k + 1..];
    assert x in s.hands && forall y | y in rest :: y in s.hands;
    SameSnapshot(catalog, s, x);
    StoreBooks(s, k);
    StoreKnown(catalog, s, k);
  }

  lemma {:induction false} StoreKnown(catalog: nat -> Snapshot, s: State, k: nat)
    requires AllKnown(catalog, s) && k < |s.hands|
    ensures AllKnown(catalog, StoreIn(s, s.hands[k], s.hands[..k] + s.hands[k + 1..]))
  {
    hide HandleOf, Known;
  }

  lemma {:induction false} StoreBooks(s: State, k: nat)
    requires Books(s) && s.acquired == s.released + |s.held| && k < |s.hands| && SnapshotOk(s.hands[k])
    requires var h := HandleOf(s.hands[k].id); h in s.snapshots ==> s.snapshots[h].snapshot == s.hands[k]
    ensures var s' := StoreIn(s, s.hands[k], s.hands[..k] + s.hands[k + 1..]);
            Books(s') && s'.acquired == s'.released + |s'.held|
  {
    hide HandleOf, HandIds, SnapshotOk, Balanced, Stored, Base;
    var x := s.hands[k];
    var rest := s.hands[..k] + s.hands[k + 1..];
    HandTaken(s.hands, k);
    BaseOf(s);
    StoreBalanced(Base(s), s.snapshots, s.log, s.leaked, x);
    HeldOne(s.held, Base(s), HandIds(rest), x.id);
    StoredBase(s, x, rest);
  }

  lemma BaseOf(s: State)
    requires Books(s)
    ensures Balanced(Base(s), s.snapshots, s.log, s.leaked)
  {
  }

  /** The books after storing. */
  lemma {:induction false} StoredBase(s: State, x: Snapshot, hands: seq<Snapshot>)
    requires var h := HandleOf(x.id);
             Balanced(Base(s) + (if h in s.snapshots then multiset{} else multiset{x.id}),
                      s.snapshots[h := Stored(s.snapshots, x)], s.log + [Updated(h)], s.leaked)
    ensures var s' := StoreIn(s, x, hands);
            && Base(s') == Base(s) + (if HandleOf(x.id) in s.snapshots then multiset{} else multiset{x.id})
            && Balanced(Base(s'), s'.snapshots, s'.log, s'.leaked)
  {
    hide HandleOf, EntryOk, Outstanding, Ids, Stored;
  }

  lemma {:induction false} ReleaseInv(catalog: nat -> Snapshot, s: State, h: string)
    requires Inv(catalog, s)
    ensures Inv(catalog, Apply(catalog, s, Release(h)))
  {
    hide HandleOf, HandIds, Known, Balanced, Base, SnapshotOk;
    if h in s.snapshots {
      ReleaseBooks(s, h);
    }
  }

  lemma {:induction false} ReleaseBooks(s: State, h: string)
    requires Books(s) && s.acquired == s.released + |s.held| && h in s.snapshots
    ensures var s' := ReleaseIn(s, h);
            && Books(s') && s'.acquired == s'.released + |s'.held| && s'.hands == s.hands
            && forall k | k in s'.snapshots :: k in s.snapshots && s'.snapshots[k].snapshot == s.snapshots[k].snapshot
  {
    hide HandleOf, HandIds, SnapshotOk, Balanced, Base;
    var id := s.snapshots[h].snapshot.id;
    ReleaseBalanced(Base(s), s.snapshots, s.log, s.leaked, h);
    ReleasedBase(s, h);
    if s.snapshots[h].refCount == 1 {
      OutOfBase(s, id);
    }
  }

  lemma OutOfBase(s: State, id: nat)
    requires id in Base(s) && s.held == Base(s) + HandIds(s.hands)
    ensures id in s.held && |s.held - multiset{id}| == |s.held| - 1
    ensures s.held - multiset{id} == (Base(s) - multiset{id}) + HandIds(s.hands)
  {
    hide HandIds, Base;
    var left, hands := Base(s) - multiset{id}, HandIds(s.hands);
    assert Base(s) == left + multiset{id};
    assert hands + multiset{id} == multiset{id} + hands;
    assert s.held == left + (hands + multiset{id});
    HeldOne(s.held, left, hands, id);
  }

  /** The books after releasing. */
  lemma {:induction false} ReleasedBase(s: State, h: string)
    requires h in s.snapshots
    requires var d := s.snapshots[h];
             && d.refCount >= 1
             && (d.refCount > 1 ==>
                   Balanced(Base(s), s.snapshots[h := d.(refCount := d.refCount - 1)], s.log + [Released(h)], s.leaked))
             && (d.refCount == 1 ==>
                   Balanced(Base(s) - multiset{d.snapshot.id}, s.snapshots - {h}, s.log + [Released(h)], s.leaked))
    ensures var d := s.snapshots[h];
            var s' := ReleaseIn(s, h);
            && Base(s') == (if d.refCount == 1 then Base(s) - multiset{d.snapshot.id} else Base(s))
            && Balanced(Base(s'), s'.snapshots, s'.log, s'.leaked)
  {
    hide HandleOf, EntryOk, Outstanding, Ids;
  }

  lemma {:induction false} CloseInv(catalog: nat -> Snapshot, s: State)
    requires Inv(catalog, s)
    ensures Inv(catalog, Apply(catalog, s, Close))
  {
    hide HandleOf, HandIds, SnapshotOk, EntryOk, Known;
    Logged(s.log, ClosedAll);
    var s' := Apply(catalog, s, Close);
    NoIds();
    assert Base(s') == Base(s);
    hide Outstanding, Ids;
  }

  lemma NoIds()
    ensures multiset(Ids(map[])) == multiset{}
  {
    assert Ids(map[]) == {};
  }

  lemma {:induction false} StepInv(catalog: nat -> Snapshot, s: State, a: Action)
    requires Inv(catalog, s) && Enabled(catalog, s, a)
    ensures Inv(catalog, Apply(catalog, s, a))
  {
    hide Balanced, SnapshotOk;
    match a {
      case OpenFails(_) =>
      case TakeSnapshot(x) => assert (s.hands + [x])[..|s.hands|] == s.hands;
      case StoreSnapshot(k) => StoreInv(catalog, s, k);
      case Release(h) => ReleaseInv(catalog, s, h);
      case Close => CloseInv(catalog, s);
    }
  }

  lemma {:induction false} RunInv(catalog: nat -> Snapshot, s: State, run: seq<Action>)
    requires Inv(catalog, s) && ValidRun(catalog, s, run)
    ensures Inv(catalog, Run(catalog, s, run))
    decreases |run|
  {
    hide Inv, Apply, Enabled;
    if run != [] {
      StepInv(catalog, s, run[0]);
      RunInv(catalog, Apply(catalog, s, run[0]), run[1..]);
    }
  }

  /** However requests interleave between their locks: references taken and not given back are one per stored snapshot
    * and one per snapshot in hand, plus those lost by closing; nobody loses a snapshot that is stored or in hand;
    * each count is updates minus releases.
    */
  lemma {:induction false} ConservedBetweenLocks(catalog: nat -> Snapshot, run: seq<Action>)
    requires ValidRun(catalog, INITIAL, run)
    ensures var s := Run(catalog, INITIAL, run);
            && s.acquired == s.released + |s.snapshots| + |s.hands| + |s.leaked|
            && (forall x | x in s.hands :: x.id in s.held)
            && (forall h | h in s.snapshots :: s.snapshots[h].snapshot.id in s.held)
            && (forall h | h in s.snapshots :: s.snapshots[h].refCount == Outstanding(s.log, h) >= 1)
  {
    InitialInv(catalog);
    RunInv(catalog, INITIAL, run);
    var s := Run(catalog, INITIAL, run);
    HandIdsCount(s.hands);
    Conservation(Base(s), s.snapshots, s.log, s.leaked);
    hide HandIds, Balanced, Outstanding, HandleOf, SnapshotOk;
    forall h | h in s.snapshots ensures s.snapshots[h].snapshot.id in s.held {
      assert s.snapshots[h].snapshot.id in Ids(s.snapshots);
    }
  }

  /** An update that nobody comes between does in two steps what it promises as a whole. */
  lemma {:induction false} UpdateInTwoSteps(catalog: nat -> Snapshot, s: State, x: Snapshot)
    requires Known(catalog, x)
    ensures var s1 := Apply(catalog, s, TakeSnapshot(x));
            var s2 := Apply(catalog, s1, StoreSnapshot(|s.hands|));
            var h := HandleOf(x.id);
            && s2.hands == s.hands && s2.leaked == s.leaked && s2.log == s.log + [Updated(h)]
            && s2.snapshots == s.snapshots[h := Stored(s.snapshots, x)]
            && s2.held == s.held + if h in s.snapshots then multiset{} else multiset{x.id}
  {
    hide HandleOf, SnapshotOk;
    var s1 := Apply(catalog, s, TakeSnapshot(x));
    assert s1.hands[..|s.hands|] + s1.hands[|s.hands| + 1..] == s.hands;
    assert s.held + multiset{x.id} - multiset{x.id} == s.held;
  }
}
