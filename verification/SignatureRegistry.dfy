/** The signature and type registries of a snapshot: handles are issued for what a checker shows, signature handles
  * recursively for the target chain of a signature, and resolved again later in the same checker.
  */
module SignatureRegistries {
  import opened Arithmetic
  import opened Hexadecimals
  import opened Options

  type Sig = nat
  type Type = nat
  type NodeRef = nat
  type SigKind = nat
  type NodeHandle = string

  /** A checker state is named by its slot and its generation. */
  datatype Identity = Identity(slot: nat, generation: nat)

  datatype TypeHandle = TypeHandle(identity: Identity, typeId: nat)
  datatype SignatureHandle = SignatureHandle(identity: Identity, id: nat)

  /** A handle as clients see it: slot and generation in eight digits each, the id in sixteen. */
  function Shown(prefix: char, identity: Identity, id: nat): string {
    [prefix] + Hex(identity.slot, 8) + "." + Hex(identity.generation, 8) + "." + Hex(id, 16)
  }

  const TYPE_PREFIX := 't'
  const SIGNATURE_PREFIX := 'g'

  /** Slots and generations are 32-bit numbers, ids 64-bit numbers. */
  predicate Fits(identity: Identity, id: nat) {
    identity.slot < TWO_32 && identity.generation < TWO_32 && id < TWO_64
  }

  function ShownType(h: TypeHandle): string {
    Shown(TYPE_PREFIX, h.identity, h.typeId)
  }

  function ShownSignature(h: SignatureHandle): string {
    Shown(SIGNATURE_PREFIX, h.identity, h.id)
  }

  lemma ShownDiffer(p: char, i: Identity, m: nat, q: char, j: Identity, n: nat)
    requires Fits(i, m) && Fits(j, n)
    ensures Shown(p, i, m) == Shown(q, j, n) <==> p == q && i == j && m == n
  {
    if Shown(p, i, m) == Shown(q, j, n) {
      Pow16At16();
      ShownParts(p, i, m);
      ShownParts(q, j, n);
      hide Shown, Hex, Pow16;
      HexInjective(i.slot, j.slot, 8);
      HexInjective(i.generation, j.generation, 8);
      HexInjective(m, n, 16);
    }
  }

  /** Handles that differ are shown differently, so that a table by handle is a table by what is shown; and a type
    * handle is never taken for a signature handle.
    */
  lemma ShownHandlesDiffer(t: TypeHandle, u: TypeHandle, g: SignatureHandle, h: SignatureHandle)
    requires Fits(t.identity, t.typeId) && Fits(u.identity, u.typeId)
             && Fits(g.identity, g.id) && Fits(h.identity, h.id)
    ensures ShownType(t) == ShownType(u) <==> t == u
    ensures ShownSignature(g) == ShownSignature(h) <==> g == h
    ensures ShownType(t) != ShownSignature(g)
  {
    hide Shown, Fits;
    ShownDiffer(TYPE_PREFIX, t.identity, t.typeId, TYPE_PREFIX, u.identity, u.typeId);
    ShownDiffer(SIGNATURE_PREFIX, g.identity, g.id, SIGNATURE_PREFIX, h.identity, h.id);
    ShownDiffer(TYPE_PREFIX, t.identity, t.typeId, SIGNATURE_PREFIX, g.identity, g.id);
  }

  lemma ShownParts(prefix: char, identity: Identity, id: nat)
    ensures var s := Shown(prefix, identity, id);
            && |s| == 35 && s[0] == prefix && s[9] == '.' && s[18] == '.'
            && s[1..9] == Hex(identity.slot, 8) && s[10..18] == Hex(identity.generation, 8) && s[19..] == Hex(id, 16)
  {
    hide Hex;
  }

  /** A shown handle can be read: its kind from the first character, checker and id from its hexadecimal numerals. */
  lemma ShownHandleReads(t: TypeHandle, g: SignatureHandle)
    requires Fits(t.identity, t.typeId) && Fits(g.identity, g.id)
    ensures var s := ShownType(t);
            && |s| == 35 && s[0] == 't' && s[9] == '.' && s[18] == '.'
            && ValueOf(s[1..9]) == t.identity.slot && ValueOf(s[10..18]) == t.identity.generation
            && ValueOf(s[19..]) == t.typeId
    ensures var s := ShownSignature(g);
            && |s| == 35 && s[0] == 'g' && s[9] == '.' && s[18] == '.'
            && ValueOf(s[1..9]) == g.identity.slot && ValueOf(s[10..18]) == g.identity.generation
            && ValueOf(s[19..]) == g.id
  {
    Pow16At16();
    ShownParts('t', t.identity, t.typeId);
    ShownParts('g', g.identity, g.id);
    hide Shown, Hex, Pow16, ValueOf;
    HexValue(t.identity.slot, 8);
    HexValue(t.identity.generation, 8);
    HexValue(t.typeId, 16);
    HexValue(g.identity.slot, 8);
    HexValue(g.identity.generation, 8);
    HexValue(g.id, 16);
  }

  /** Why a client's location names no node: it cannot be parsed, or its file is not in the program. */
  datatype LocationError = Malformed | FileMissing

  /** What is used of a checker. `depth` bounds the length of the target chains. */
  datatype Checker = Checker(
    typeId: Type -> nat,
    findType: nat -> Option<Type>,
    signaturesOf: (Type, SigKind) -> seq<Sig>,
    nodeAt: NodeHandle -> Result<Option<NodeRef>, LocationError>,
    resolvedSignature: NodeRef -> Option<Sig>,
    target: Sig -> Option<Sig>,
    typeParameters: Sig -> seq<Type>,
    depth: Sig -> nat)

  ghost predicate CheckerOk(ch: Checker) {
    && (forall t: Type :: ch.findType(ch.typeId(t)) == Some(t))
    && (forall s: Sig :: ch.target(s).Some? ==> ch.depth(ch.target(s).value) < ch.depth(s))
  }

  datatype RegisteredType = RegisteredType(identity: Identity, id: nat)

  datatype Origin =
    | FromType(handle: TypeHandle, kind: SigKind, index: nat)
    | FromCall(location: NodeHandle)
    | FromTarget(parent: SignatureHandle)

  datatype Response = Response(id: SignatureHandle, typeParameters: seq<TypeHandle>, target: Option<SignatureHandle>)

  datatype RegisteredSignature = RegisteredSignature(identity: Identity, response: Response, origin: Origin)

  datatype Error =
    | TypeNotFound(unknownType: TypeHandle)
    | TypeOfOtherChecker(strangeType: TypeHandle)
    | SignatureNotFound(unknownSignature: SignatureHandle)
    | SignatureOfOtherChecker(strangeSignature: SignatureHandle)
    | NotInChecker
    | BadLocation(location: NodeHandle, reason: LocationError)

  /** The signature that the call at a location resolves to. */
  function ResolvedAt(ch: Checker, location: NodeHandle): Option<Sig> {
    match ch.nodeAt(location)
    case Ok(Some(node)) => ch.resolvedSignature(node)
    case _ => None
  }

  /** Both tables at one moment, together with what each handle was issued for. */
  datatype Tables = Tables(
    types: map<TypeHandle, RegisteredType>,
    signatures: map<SignatureHandle, RegisteredSignature>,
    nextId: nat,
    issued: map<SignatureHandle, Sig>)

  predicate TypeEntryOk(ch: Checker, h: TypeHandle, r: RegisteredType) {
    r == RegisteredType(h.identity, h.typeId) && ch.findType(h.typeId).Some?
  }

  /** The way back from a handle to its signature that its origin records. A target's parent need only be issued: it is
    * inserted after its target.
    */
  predicate Justified(checkers: Identity -> Checker, t: Tables, h: SignatureHandle, origin: Origin, sig: Sig) {
    var ch := checkers(h.identity);
    match origin
    case FromType(th, kind, index) =>
      && th in t.types && th.identity == h.identity
      && var ty := ch.findType(th.typeId);
         ty.Some? && index < |ch.signaturesOf(ty.value, kind)| && ch.signaturesOf(ty.value, kind)[index] == sig
    case FromCall(location) => ResolvedAt(ch, location) == Some(sig)
    case FromTarget(parent) =>
      && parent in t.issued && parent.identity == h.identity && parent.id < h.id
      && ch.target(t.issued[parent]) == Some(sig)
  }

  /** An entry of the signature table: its target is in the table too, and stands for the signature's target. */
  predicate EntryOk(checkers: Identity -> Checker, t: Tables, h: SignatureHandle)
    requires h in t.signatures
  {
    var r := t.signatures[h];
    && h in t.issued && r.identity == h.identity && r.response.id == h
    && Justified(checkers, t, h, r.origin, t.issued[h])
    && TargetOk(checkers, t, h, r.response.target)
    && AreHandles(checkers, t, h.identity, checkers(h.identity).typeParameters(t.issued[h]), r.response.typeParameters)
  }

  /** The handles are those of the types, one by one, and are in the table. */
  predicate AreHandles(checkers: Identity -> Checker, t: Tables, identity: Identity, ts: seq<Type>,
                       handles: seq<TypeHandle>)
  {
    && |handles| == |ts|
    && forall i | 0 <= i < |ts| ::
         handles[i] == TypeHandle(identity, checkers(identity).typeId(ts[i])) && handles[i] in t.types
  }

  predicate TargetOk(checkers: Identity -> Checker, t: Tables, h: SignatureHandle, target: Option<SignatureHandle>)
    requires h in t.issued
  {
    var sigTarget := checkers(h.identity).target(t.issued[h]);
    if target.None? then sigTarget.None?
    else
      && target.value in t.signatures && target.value in t.issued && target.value.identity == h.identity
      && sigTarget == Some(t.issued[target.value])
  }

  ghost predicate Coherent(checkers: Identity -> Checker, t: Tables) {
    && (forall h | h in t.types :: TypeEntryOk(checkers(h.identity), h, t.types[h]))
    && (forall h | h in t.signatures :: EntryOk(checkers, t, h))
    && (forall h | h in t.issued :: 0 < h.id <= t.nextId)
  }

  /** No registration is under way: everything issued is in the table. */
  predicate Settled(t: Tables) {
    t.issued.Keys == t.signatures.Keys
  }

  /** Tables only grow, and what a handle stands for never changes. */
  predicate Grew(t: Tables, t': Tables) {
    && t.nextId <= t'.nextId
    && (forall h | h in t.types :: h in t'.types && t'.types[h] == t.types[h])
    && (forall h | h in t.signatures :: h in t'.signatures && t'.signatures[h] == t.signatures[h])
    && (forall h | h in t.issued :: h in t'.issued && t'.issued[h] == t.issued[h])
  }

  lemma JustifiedLater(checkers: Identity -> Checker, t: Tables, t': Tables, h: SignatureHandle, origin: Origin,
                       sig: Sig)
    requires Justified(checkers, t, h, origin, sig) && Grew(t, t')
    ensures Justified(checkers, t', h, origin, sig)
  {
  }

  lemma EntryLater(checkers: Identity -> Checker, t: Tables, t': Tables, h: SignatureHandle)
    requires h in t.signatures && EntryOk(checkers, t, h) && Grew(t, t')
    ensures EntryOk(checkers, t', h)
  {
    JustifiedLater(checkers, t, t', h, t.signatures[h].origin, t.issued[h]);
  }

  /** A handle leads back to a signature: what resolving it in its checker means. */
  ghost predicate Resolves(checkers: Identity -> Checker, t: Tables, h: SignatureHandle, sig: Sig)
    decreases h.id
  {
    && h in t.signatures
    && var ch := checkers(h.identity);
       match t.signatures[h].origin
       case FromType(th, kind, index) =>
         && th in t.types
         && var ty := ch.findType(t.types[th].id);
            ty.Some? && index < |ch.signaturesOf(ty.value, kind)| && ch.signaturesOf(ty.value, kind)[index] == sig
       case FromCall(location) => ResolvedAt(ch, location) == Some(sig)
       case FromTarget(parent) =>
         parent.id < h.id && exists s :: Resolves(checkers, t, parent, s) && ch.target(s) == Some(sig)
  }

  /** Once nothing is pending every handle leads back to the signature it was issued for, at any depth of a chain. */
  lemma {:induction false} IssuedResolves(checkers: Identity -> Checker, t: Tables, h: SignatureHandle)
    requires Coherent(checkers, t) && Settled(t) && h in t.issued
    ensures Resolves(checkers, t, h, t.issued[h])
    decreases h.id
  {
    assert EntryOk(checkers, t, h);
    match t.signatures[h].origin {
      case FromType(th, _, _) => assert TypeEntryOk(checkers(th.identity), th, t.types[th]);
      case FromCall(_) =>
      case FromTarget(parent) => IssuedResolves(checkers, t, parent);
    }
  }

  /** And it leads to no other. */
  lemma {:induction false} ResolvesOnce(checkers: Identity -> Checker, t: Tables, h: SignatureHandle, a: Sig, b: Sig)
    requires Resolves(checkers, t, h, a) && Resolves(checkers, t, h, b)
    ensures a == b
    decreases h.id
  {
    if t.signatures[h].origin.FromTarget? {
      var parent := t.signatures[h].origin.parent;
      var ch := checkers(h.identity);
      var x :| Resolves(checkers, t, parent, x) && ch.target(x) == Some(a);
      var y :| Resolves(checkers, t, parent, y) && ch.target(y) == Some(b);
      ResolvesOnce(checkers, t, parent, x, y);
    }
  }

  /** Nothing dangles: the parent a target points back to and the target a parent points to are both in the table. */
  lemma {:induction false} NothingDangles(checkers: Identity -> Checker, t: Tables, h: SignatureHandle)
    requires Coherent(checkers, t) && Settled(t) && h in t.signatures
    ensures var r := t.signatures[h];
            && (r.origin.FromTarget? ==> r.origin.parent in t.signatures && r.origin.parent.id < h.id)
            && (r.origin.FromType? ==> r.origin.handle in t.types)
            && (r.response.target.Some? ==> r.response.target.value in t.signatures)
            && (r.response.target.Some? <==> checkers(h.identity).target(t.issued[h]).Some?)
            && |r.response.typeParameters| == |checkers(h.identity).typeParameters(t.issued[h])|
            && forall i | 0 <= i < |r.response.typeParameters| ::
                 && r.response.typeParameters[i] in t.types
                 && checkers(h.identity).findType(r.response.typeParameters[i].typeId).Some?
                 && r.response.typeParameters[i] ==
                    TypeHandle(h.identity,
                               checkers(h.identity).typeId(checkers(h.identity).typeParameters(t.issued[h])[i]))
  {
    assert EntryOk(checkers, t, h);
    forall i | 0 <= i < |t.signatures[h].response.typeParameters|
      ensures checkers(h.identity).findType(t.signatures[h].response.typeParameters[i].typeId).Some?
    {
      var p := t.signatures[h].response.typeParameters[i];
      assert TypeEntryOk(checkers(p.identity), p, t.types[p]);
    }
  }

  lemma TableIssued(checkers: Identity -> Checker, t: Tables)
    requires Coherent(checkers, t)
    ensures forall h | h in t.signatures :: h in t.issued
  {
    forall h | h in t.signatures ensures h in t.issued {
      assert EntryOk(checkers, t, h);
    }
  }

  /** A fresh id, not yet in the table. */
  lemma IssueOne(checkers: Identity -> Checker, t: Tables, h: SignatureHandle, sig: Sig)
    requires Coherent(checkers, t) && h.id == t.nextId + 1
    ensures var t' := t.(nextId := t.nextId + 1, issued := t.issued[h := sig]);
            h !in t.issued && h !in t.signatures && Grew(t, t') && Coherent(checkers, t')
  {
    var t' := t.(nextId := t.nextId + 1, issued := t.issued[h := sig]);
    TableIssued(checkers, t);
    forall k | k in t'.signatures ensures EntryOk(checkers, t', k) {
      EntryLater(checkers, t, t', k);
    }
  }

  lemma AddTypes(checkers: Identity -> Checker, t: Tables, types': map<TypeHandle, RegisteredType>)
    requires Coherent(checkers, t)
    requires forall h | h in t.types :: h in types' && types'[h] == t.types[h]
    requires forall h | h in types' :: TypeEntryOk(checkers(h.identity), h, types'[h])
    ensures Grew(t, t.(types := types')) && Coherent(checkers, t.(types := types'))
  {
    forall k | k in t.signatures ensures EntryOk(checkers, t.(types := types'), k) {
      EntryLater(checkers, t, t.(types := types'), k);
    }
  }

  lemma InsertEntry(checkers: Identity -> Checker, t: Tables, h: SignatureHandle, r: RegisteredSignature)
    requires Coherent(checkers, t) && h in t.issued && h !in t.signatures
    requires r.identity == h.identity && r.response.id == h
    requires Justified(checkers, t, h, r.origin, t.issued[h]) && TargetOk(checkers, t, h, r.response.target)
    requires AreHandles(checkers, t, h.identity, checkers(h.identity).typeParameters(t.issued[h]),
                        r.response.typeParameters)
    ensures var t' := t.(signatures := t.signatures[h := r]); Grew(t, t') && Coherent(checkers, t')
  {
    var t' := t.(signatures := t.signatures[h := r]);
    forall k | k in t'.signatures ensures EntryOk(checkers, t', k) {
      if k != h {
        EntryLater(checkers, t, t', k);
      }
    }
  }

  lemma GrewTwice(a: Tables, b: Tables, c: Tables)
    requires Grew(a, b) && Grew(b, c)
    ensures Grew(a, c)
  {
  }

  lemma GrewSame(t: Tables)
    ensures Grew(t, t)
  {
  }

  lemma StaysSettled(checkers: Identity -> Checker, t: Tables, t': Tables)
    requires Settled(t) && Coherent(checkers, t')
    requires t'.issued.Keys - t'.signatures.Keys == t.issued.Keys - t.signatures.Keys
    ensures Settled(t')
  {
    TableIssued(checkers, t');
    assert t.issued.Keys - t.signatures.Keys == {};
    assert t'.issued.Keys == (t'.issued.Keys - t'.signatures.Keys) + t'.signatures.Keys;
  }

  /** What a handle issued at `t` is still good for when the tables have grown to `t'`. */
  lemma GrewMeans(t: Tables, t': Tables, h: SignatureHandle)
    requires Grew(t, t')
    ensures h in t.issued ==> h in t'.issued && t'.issued[h] == t.issued[h]
    ensures t.nextId <= t'.nextId
    ensures forall th: TypeHandle | th in t.types :: th in t'.types
  {
  }

  lemma TypeKept(t: Tables, t': Tables, h: TypeHandle)
    requires Grew(t, t') && h in t.types
    ensures h in t'.types
  {
  }

  lemma IssuedKept(t: Tables, t': Tables, results: seq<Option<Response>>)
    requires Grew(t, t') && forall i | 0 <= i < |results| :: results[i].Some? && results[i].value.id in t.issued
    ensures forall i | 0 <= i < |results| ::
              results[i].value.id in t'.issued && t'.issued[results[i].value.id] == t.issued[results[i].value.id]
  {
  }

  lemma HandlesKept(checkers: Identity -> Checker, t: Tables, t': Tables, identity: Identity, ts: seq<Type>,
                    handles: seq<TypeHandle>)
    requires Grew(t, t') && AreHandles(checkers, t, identity, ts, handles)
    ensures AreHandles(checkers, t', identity, ts, handles)
  {
  }

  /** A target may name its parent as its origin although the parent has no entry yet. */
  lemma TargetJustified(checkers: Identity -> Checker, t: Tables, parent: SignatureHandle, h: SignatureHandle, sig: Sig)
    requires parent in t.issued && parent.identity == h.identity && parent.id < h.id
    requires checkers(h.identity).target(t.issued[parent]) == Some(sig)
    ensures Justified(checkers, t, h, FromTarget(parent), sig)
  {
  }

  lemma TargetFound(checkers: Identity -> Checker, t: Tables, h: SignatureHandle, target: Option<SignatureHandle>)
    requires h in t.issued
    requires target.None? ==> checkers(h.identity).target(t.issued[h]).None?
    requires target.Some? ==>
               && target.value in t.signatures && target.value in t.issued && target.value.identity == h.identity
               && checkers(h.identity).target(t.issued[h]) == Some(t.issued[target.value])
    ensures TargetOk(checkers, t, h, target)
  {
  }

  class SnapshotRegistry {
    const checkers: Identity -> Checker
    var types: map<TypeHandle, RegisteredType>
    var signatures: map<SignatureHandle, RegisteredSignature>
    var nextId: nat
    ghost var issued: map<SignatureHandle, Sig>

    ghost function Now(): Tables
      reads this
    {
      Tables(types, signatures, nextId, issued)
    }

    ghost predicate Valid()
      reads this
    {
      (forall i :: CheckerOk(checkers(i))) && Coherent(checkers, Now())
    }

    constructor (checkers: Identity -> Checker)
      requires forall i :: CheckerOk(checkers(i))
      ensures this.checkers == checkers && Valid() && Settled(Now()) && issued == map[]
    {
      this.checkers := checkers;
      this.types := map[];
      this.signatures := map[];
      this.nextId := 0;
      this.issued := map[];
    }

    /** Makes a type known under its handle, which names the checker and the type's id. */
    method RegisterType(identity: Identity, t: Type) returns (handle: TypeHandle)
      requires Valid()
      modifies this`types
      ensures Valid() && Grew(old(Now()), Now())
      ensures handle == TypeHandle(identity, checkers(identity).typeId(t))
      ensures types == old(types)[handle := RegisteredType(identity, handle.typeId)]
    {
      handle := TypeHandle(identity, checkers(identity).typeId(t));
      ghost var before := Now();
      var types' := types[handle := RegisteredType(identity, handle.typeId)];
      assert checkers(identity).findType(handle.typeId) == Some(t);
      assert handle in types ==> TypeEntryOk(checkers(handle.identity), handle, types[handle]);
      AddTypes(checkers, before, types');
      types := types';
    }

    method RegisterTypes(identity: Identity, ts: seq<Type>) returns (handles: seq<TypeHandle>)
      requires Valid()
      modifies this`types
      ensures Valid() && Grew(old(Now()), Now())
      ensures |handles| == |ts|
      ensures forall i | 0 <= i < |ts| ::
                handles[i] == TypeHandle(identity, checkers(identity).typeId(ts[i])) && handles[i] in types
    {
      hide Coherent, Grew;
      GrewSame(Now());
      handles := [];
      while |handles| < |ts|
        invariant |handles| <= |ts|
        invariant Valid() && Grew(old(Now()), Now())
        invariant forall i | 0 <= i < |handles| ::
                    handles[i] == TypeHandle(identity, checkers(identity).typeId(ts[i])) && handles[i] in types
      {
        ghost var t1 := Now();
        var handle := RegisterType(identity, ts[|handles|]);
        GrewTwice(old(Now()), t1, Now());
        handles := handles + [handle];
      }
    }

    /** Issues a handle for a signature and, recursively, one for each signature of its target chain. The handle's own
      * entry goes into the table last, after the entry of its target, whose origin points back to it.
      */
    method RegisterSignature(identity: Identity, sig: Option<Sig>, origin: Origin) returns (response: Option<Response>)
      requires Valid()
      requires sig.Some? ==> Justified(checkers, Now(), SignatureHandle(identity, nextId + 1), origin, sig.value)
      modifies this
      ensures Valid() && Grew(old(Now()), Now())
      ensures issued.Keys - signatures.Keys == old(issued.Keys - signatures.Keys)
      ensures response.Some? == sig.Some?
      ensures sig.None? ==> Now() == old(Now())
      ensures sig.Some? ==>
                && var h := response.value.id;
                   && h == SignatureHandle(identity, old(nextId) + 1) && h !in old(issued)
                   && h in signatures && signatures[h] == RegisteredSignature(identity, response.value, origin)
                   && h in issued && issued[h] == sig.value
                   && (response.value.target.Some? <==> checkers(identity).target(sig.value).Some?)
                   && AreHandles(checkers, Now(), identity, checkers(identity).typeParameters(sig.value),
                                 response.value.typeParameters)
      decreases if sig.Some? then checkers(identity).depth(sig.value) + 1 else 0, 0
    {
      hide Coherent, Grew, Justified, EntryOk, TargetOk;
      GrewSame(Now());
      if sig.None? {
        return None;
      }
      assert CheckerOk(checkers(identity));
      nextId := nextId + 1;
      var handle := SignatureHandle(identity, nextId);
      IssueOne(checkers, old(Now()), handle, sig.value);
      issued := issued[handle := sig.value];
      ghost var t1 := Now();
      var typeParameters := RegisterTypes(identity, checkers(identity).typeParameters(sig.value));
      ghost var t2 := Now();
      GrewMeans(t1, t2, handle);
      var targetHandle := RegisterTarget(identity, handle, sig.value);
      ghost var t3 := Now();
      GrewTwice(old(Now()), t1, t2);
      GrewTwice(old(Now()), t2, t3);
      GrewMeans(t2, t3, handle);
      JustifiedLater(checkers, old(Now()), t3, handle, origin, sig.value);
      var registered := RegisteredSignature(identity, Response(handle, typeParameters, targetHandle), origin);
      assert handle in t2.issued.Keys - t2.signatures.Keys;
      assert handle in t3.issued.Keys - t3.signatures.Keys;
      InsertEntry(checkers, t3, handle, registered);
      signatures := signatures[handle := registered];
      response := Some(registered.response);
      GrewTwice(old(Now()), t3, Now());
      PendingKept(old(Now()), t1, t2, t3, Now(), handle);
    }

    /** Registers the target of a signature, if it has one, with the signature's handle as its origin. */
    method RegisterTarget(identity: Identity, handle: SignatureHandle, sig: Sig)
      returns (targetHandle: Option<SignatureHandle>)
      requires Valid() && handle.identity == identity && handle.id == nextId
      requires handle in issued && issued[handle] == sig
      modifies this
      ensures Valid() && Grew(old(Now()), Now())
      ensures issued.Keys - signatures.Keys == old(issued.Keys - signatures.Keys)
      ensures handle in issued && TargetOk(checkers, Now(), handle, targetHandle)
      ensures targetHandle.Some? <==> checkers(identity).target(sig).Some?
      decreases checkers(identity).depth(sig), 1
    {
      hide Coherent, Grew, Justified, EntryOk, TargetOk;
      GrewSame(Now());
      targetHandle := None;
      var target := checkers(identity).target(sig);
      assert CheckerOk(checkers(identity));
      if target.Some? {
        TargetJustified(checkers, Now(), handle, SignatureHandle(identity, nextId + 1), target.value);
        var response := RegisterSignature(identity, target, FromTarget(handle));
        if response.Some? {
          targetHandle := Some(response.value.id);
        }
      }
      GrewMeans(old(Now()), Now(), handle);
      TargetFound(checkers, Now(), handle, targetHandle);
    }

    method ResolveType(identity: Identity, handle: TypeHandle) returns (r: Result<Type, Error>)
      requires Valid()
      ensures r.Ok? <==> handle in types && handle.identity == identity
      ensures r.Ok? ==> checkers(identity).findType(handle.typeId) == Some(r.value)
    {
      if handle !in types {
        return Err(TypeNotFound(handle));
      }
      var registered := types[handle];
      assert TypeEntryOk(checkers(handle.identity), handle, registered);
      if registered.identity != identity {
        return Err(TypeOfOtherChecker(handle));
      }
      var t := checkers(identity).findType(registered.id);
      r := if t.Some? then Ok(t.value) else Err(NotInChecker);
    }

    /** Exactly the handles issued for a checker resolve in it, each to the signature it was issued for. */
    method ResolveSignature(identity: Identity, handle: SignatureHandle) returns (r: Result<Sig, Error>)
      requires Valid() && Settled(Now())
      ensures r.Ok? <==> handle in issued && handle.identity == identity
      ensures r.Ok? ==> r.value == issued[handle]
      ensures handle !in issued ==> r == Err(SignatureNotFound(handle))
      ensures handle in issued && handle.identity != identity ==> r == Err(SignatureOfOtherChecker(handle))
      decreases handle.id
    {
      if handle !in signatures {
        return Err(SignatureNotFound(handle));
      }
      var registered := signatures[handle];
      assert EntryOk(checkers, Now(), handle);
      if registered.identity != identity {
        return Err(SignatureOfOtherChecker(handle));
      }
      var ch := checkers(identity);
      match registered.origin {
        case FromType(typeHandle, kind, index) =>
          var t := ResolveType(identity, typeHandle);
          match t {
            case Err(error) => return Err(error);
            case Ok(ty) =>
              var sigs := ch.signaturesOf(ty, kind);
              return if index < |sigs| then Ok(sigs[index]) else Err(NotInChecker);
          }
        case FromCall(location) =>
          match ch.nodeAt(location) {
            case Err(reason) => return Err(BadLocation(location, reason));
            case Ok(None) => return Err(NotInChecker);
            case Ok(Some(node)) =>
              var sig := ch.resolvedSignature(node);
              return if sig.Some? then Ok(sig.value) else Err(NotInChecker);
          }
        case FromTarget(parent) =>
          var parentSig := ResolveSignature(identity, parent);
          if parentSig.Err? {
            return parentSig;
          }
          var target := ch.target(parentSig.value);
          return if target.Some? then Ok(target.value) else Err(NotInChecker);
      }
    }

    /** The signatures of a type, each under a handle that leads back to it. */
    method HandleGetSignaturesOfType(identity: Identity, handle: TypeHandle, kind: SigKind)
      returns (r: Result<seq<Option<Response>>, Error>)
      requires Valid() && Settled(Now())
      modifies this
      ensures Valid() && Settled(Now()) && Grew(old(Now()), Now())
      ensures r.Ok? <==> handle in old(types) && handle.identity == identity
      ensures r.Ok? ==>
                && var t := checkers(identity).findType(handle.typeId);
                   && t.Some?
                   && var sigs := checkers(identity).signaturesOf(t.value, kind);
                      && |r.value| == |sigs|
                      && forall i | 0 <= i < |sigs| ::
                           && r.value[i].Some?
                           && r.value[i].value.id in issued
                           && issued[r.value[i].value.id] == sigs[i]
                           && AreHandles(checkers, Now(), identity, checkers(identity).typeParameters(sigs[i]),
                                         r.value[i].value.typeParameters)
    {
      hide Coherent, Grew, EntryOk, TargetOk, Settled;
      GrewSame(Now());
      var t := ResolveType(identity, handle);
      if t.Err? {
        return Err(t.error);
      }
      var sigs := checkers(identity).signaturesOf(t.value, kind);
      var results: seq<Option<Response>> := [];
      while |results| < |sigs|
        invariant |results| <= |sigs|
        invariant Valid() && Settled(Now()) && Grew(old(Now()), Now())
        invariant forall i | 0 <= i < |results| ::
                    && results[i].Some?
                    && results[i].value.id in issued
                    && issued[results[i].value.id] == sigs[i]
                    && AreHandles(checkers, Now(), identity, checkers(identity).typeParameters(sigs[i]),
                                  results[i].value.typeParameters)
      {
        ghost var t1 := Now();
        TypeKept(old(Now()), t1, handle);
        var response := RegisterSignature(identity, Some(sigs[|results|]), FromType(handle, kind, |results|));
        GrewTwice(old(Now()), t1, Now());
        StaysSettled(checkers, t1, Now());
        IssuedKept(t1, Now(), results);
        forall i | 0 <= i < |results|
          ensures AreHandles(checkers, Now(), identity, checkers(identity).typeParameters(sigs[i]),
                             results[i].value.typeParameters)
        {
          HandlesKept(checkers, t1, Now(), identity, checkers(identity).typeParameters(sigs[i]),
                      results[i].value.typeParameters);
        }
        results := results + [response];
      }
      r := Ok(results);
    }

    /** The signature a call resolves to, under a handle that leads back to it; null if there is no node or no
      * signature, and an error if the location does not lead to a file.
      */
    method HandleGetResolvedSignature(identity: Identity, location: NodeHandle)
      returns (r: Result<Option<Response>, Error>)
      requires Valid() && Settled(Now())
      modifies this
      ensures Valid() && Settled(Now()) && Grew(old(Now()), Now())
      ensures var node := checkers(identity).nodeAt(location);
              && (r.Err? <==> node.Err?)
              && (node.Err? ==> r == Err(BadLocation(location, node.error)) && Now() == old(Now()))
      ensures r.Ok? ==>
                var sig := ResolvedAt(checkers(identity), location);
                && r.value.Some? == sig.Some?
                && (sig.Some? ==>
                      && r.value.value.id in issued && issued[r.value.value.id] == sig.value
                      && AreHandles(checkers, Now(), identity, checkers(identity).typeParameters(sig.value),
                                    r.value.value.typeParameters))
                && (sig.None? ==> Now() == old(Now()))
    {
      hide Coherent, Grew, EntryOk, TargetOk, Settled;
      GrewSame(Now());
      var node := checkers(identity).nodeAt(location);
      if node.Err? {
        return Err(BadLocation(location, node.error));
      }
      if node.value.None? {
        return Ok(None);
      }
      var sig := checkers(identity).resolvedSignature(node.value.value);
      var response := RegisterSignature(identity, sig, FromCall(location));
      StaysSettled(checkers, old(Now()), Now());
      r := Ok(response);
    }
  }

  lemma PendingKept(t0: Tables, t1: Tables, t2: Tables, t3: Tables, t4: Tables, h: SignatureHandle)
    requires h !in t0.issued && h !in t0.signatures
    requires t1.issued.Keys == t0.issued.Keys + {h} && t1.signatures == t0.signatures
    requires t2.issued == t1.issued && t2.signatures == t1.signatures
    requires t3.issued.Keys - t3.signatures.Keys == t2.issued.Keys - t2.signatures.Keys
    requires t4.issued == t3.issued && t4.signatures.Keys == t3.signatures.Keys + {h}
    ensures t4.issued.Keys - t4.signatures.Keys == t0.issued.Keys - t0.signatures.Keys
  {
    var pending := t2.issued.Keys - t2.signatures.Keys;
    assert pending == (t0.issued.Keys - t0.signatures.Keys) + {h};
    assert t4.issued.Keys - t4.signatures.Keys == pending - {h};
  }
}
