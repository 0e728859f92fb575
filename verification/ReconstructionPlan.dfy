/** The schema compiler: from the members of a node type to its child layout, its update children and the plan by
  * which a visitor rebuilds a node, and what running such a plan does.
  */
module ReconstructionPlans {
  import opened Options

  // ---- schema ----

  datatype FieldType =
    | NodeId
    | OptionalNodeId
    | OptionNode
    | NodeListId
    | OptionalNodeListId
    | ModifierListId
    | OptionalModifierListId
    | RawNodeSliceId
    | OptionalRawNodeSliceId
    | Other(name: string)

  datatype ChildKind = Node | NodeList | ModifierList | RawNodeSlice

  function ChildKindOf(t: FieldType): Option<ChildKind> {
    match t
    case NodeId => Some(Node)
    case OptionalNodeId => Some(Node)
    case OptionNode => Some(Node)
    case NodeListId => Some(NodeList)
    case OptionalNodeListId => Some(NodeList)
    case ModifierListId => Some(ModifierList)
    case OptionalModifierListId => Some(ModifierList)
    case RawNodeSliceId => Some(RawNodeSlice)
    case OptionalRawNodeSliceId => Some(RawNodeSlice)
    case Other(_) => None
  }

  predicate IsRequired(t: FieldType) {
    t.NodeId? || t.NodeListId? || t.ModifierListId? || t.RawNodeSliceId?
  }

  /** A member of a node type; its name is in snake case. */
  datatype Member = Member(
    name: string, fieldType: FieldType, kindParam: bool, nodeFlags: bool, child: bool, noFactory: bool, noGo: bool,
    semantic: bool, inherited: bool)

  datatype StructField = StructField(name: string, fieldType: FieldType)

  /** `baseFields` are the fields collected from the bases, in order and possibly repeated. */
  datatype NodeType = NodeType(baseFields: seq<StructField>, members: seq<Member>)

  /** `type` is a keyword of the target language. */
  function FieldName(name: string): string {
    if name == "type" then "r#type" else name
  }

  function LocalName(name: string): string {
    if |name| >= 2 && name[..2] == "r#" then name[2..] else name
  }

  function ParamName(name: string): string {
    if name == "default" then "default_node"
    else if name == "case" then "case_node"
    else if name == "type" then "type_node"
    else name
  }

  function PushUnique(fields: seq<StructField>, f: StructField): seq<StructField> {
    if exists i :: 0 <= i < |fields| && fields[i].name == f.name then fields else fields + [f]
  }

  function PushAll(fields: seq<StructField>, more: seq<StructField>): seq<StructField>
    decreases |more|
  {
    if more == [] then fields else PushAll(PushUnique(fields, more[0]), more[1..])
  }

  function OwnFields(members: seq<Member>): seq<StructField> {
    if members == [] then []
    else
      var m := members[0];
      (if m.noGo || m.semantic || m.kindParam || m.nodeFlags || m.inherited then []
       else [StructField(FieldName(m.name), m.fieldType)])
      + OwnFields(members[1..])
  }

  function StructFields(node: NodeType): seq<StructField> {
    PushAll(PushAll([], node.baseFields), OwnFields(node.members))
  }

  function Lookup(fields: seq<StructField>, name: string): Option<StructField> {
    if fields == [] then None
    else if fields[0].name == name then Some(fields[0])
    else Lookup(fields[1..], name)
  }

  function FieldOf(node: NodeType, m: Member): Option<StructField> {
    Lookup(StructFields(node), FieldName(m.name))
  }

  function SchemaMembers(members: seq<Member>): seq<Member> {
    if members == [] then []
    else (if members[0].noFactory then [] else [members[0]]) + SchemaMembers(members[1..])
  }

  // ---- child layout and update children ----

  datatype Descriptor = Descriptor(name: string, kind: ChildKind, required: bool)

  /** The fields of child members, each once and only if its type can hold children. */
  function ChildFields(node: NodeType, members: seq<Member>, kindParams: bool, seen: set<string>): seq<StructField>
    decreases |members|
  {
    if members == [] then []
    else
      var m, rest := members[0], members[1..];
      var f := FieldOf(node, m);
      if m.noFactory || !m.child || (m.kindParam && !kindParams) || f.None? || f.value.name in seen then
        ChildFields(node, rest, kindParams, seen)
      else
        (if ChildKindOf(f.value.fieldType).Some? then [f.value] else [])
        + ChildFields(node, rest, kindParams, seen + {f.value.name})
  }

  function Describe(f: StructField): Descriptor
    requires ChildKindOf(f.fieldType).Some?
  {
    Descriptor(LocalName(f.name), ChildKindOf(f.fieldType).value, IsRequired(f.fieldType))
  }

  lemma {:induction false} LookupFound(fields: seq<StructField>, name: string)
    ensures Lookup(fields, name).Some? ==>
              Lookup(fields, name).value in fields && Lookup(fields, name).value.name == name
    ensures Lookup(fields, name).None? <==> forall f | f in fields :: f.name != name
  {
    if fields != [] {
      LookupFound(fields[1..], name);
      assert fields == [fields[0]] + fields[1..];
    }
  }

  predicate IsChildField(node: NodeType, f: StructField) {
    ChildKindOf(f.fieldType).Some? && Lookup(StructFields(node), f.name) == Some(f)
  }

  predicate NamesDiffer(fs: seq<StructField>) {
    forall i, j | 0 <= i < j < |fs| :: fs[i].name != fs[j].name
  }

  lemma {:induction false} ChildFieldsOk(node: NodeType, members: seq<Member>, kindParams: bool, seen: set<string>)
    ensures forall f | f in ChildFields(node, members, kindParams, seen) :: IsChildField(node, f) && f.name !in seen
    ensures NamesDiffer(ChildFields(node, members, kindParams, seen))
    decreases |members|
  {
    hide StructFields;
    if members != [] {
      var m, rest := members[0], members[1..];
      var f := FieldOf(node, m);
      LookupFound(StructFields(node), FieldName(m.name));
      if m.noFactory || !m.child || (m.kindParam && !kindParams) || f.None? || f.value.name in seen {
        ChildFieldsOk(node, rest, kindParams, seen);
        assert ChildFields(node, members, kindParams, seen) == ChildFields(node, rest, kindParams, seen);
      } else {
        var tail := ChildFields(node, rest, kindParams, seen + {f.value.name});
        ChildFieldsOk(node, rest, kindParams, seen + {f.value.name});
        assert ChildFields(node, members, kindParams, seen)
               == (if ChildKindOf(f.value.fieldType).Some? then [f.value] else []) + tail;
      }
    }
  }

  function LayoutFields(node: NodeType): (fs: seq<StructField>)
    ensures forall f | f in fs :: IsChildField(node, f)
  {
    ChildFieldsOk(node, node.members, true, {});
    ChildFields(node, node.members, true, {})
  }

  function UpdateFields(node: NodeType): (fs: seq<StructField>)
    ensures forall f | f in fs :: IsChildField(node, f)
  {
    ChildFieldsOk(node, node.members, false, {});
    ChildFields(node, node.members, false, {})
  }

  function DescribeAll(node: NodeType, fs: seq<StructField>): (ds: seq<Descriptor>)
    requires forall f | f in fs :: IsChildField(node, f)
    ensures |ds| == |fs|
  {
    seq(|fs|, i requires 0 <= i < |fs| => assert IsChildField(node, fs[i]); Describe(fs[i]))
  }

  /** The layout list of a node type. */
  function Descriptors(node: NodeType): (ds: seq<Descriptor>)
    ensures |ds| == |LayoutFields(node)|
  {
    DescribeAll(node, LayoutFields(node))
  }

  function UpdateSpecs(node: NodeType): (ds: seq<Descriptor>)
    ensures |ds| == |UpdateFields(node)|
  {
    DescribeAll(node, UpdateFields(node))
  }

  /** Field names come out of `FieldName`, so none is the keyword and only the keyword is marked. */
  predicate NamesOk(node: NodeType) {
    && (forall f | f in StructFields(node) :: f.name != "type" && (f.name == "r#type" || LocalName(f.name) == f.name))
    && (forall m | m in node.members :: LocalName(m.name) == m.name)
  }

  /** A constructor's parameters must have different names. */
  predicate ParamsDistinct(node: NodeType) {
    DistinctParams(node.members)
  }

  predicate DistinctParams(ms: seq<Member>) {
    forall i, j | 0 <= i < j < |ms| && !ms[i].noFactory && !ms[j].noFactory ::
      ParamName(ms[i].name) != ParamName(ms[j].name)
  }

  lemma {:induction false} SchemaMembersAre(ms: seq<Member>, m: Member)
    ensures m in SchemaMembers(ms) <==> m in ms && !m.noFactory
  {
    if ms != [] {
      SchemaMembersAre(ms[1..], m);
      assert ms == [ms[0]] + ms[1..];
    }
  }

  lemma LocalNameInjective(node: NodeType, f: StructField, g: StructField)
    requires NamesOk(node) && f in StructFields(node) && g in StructFields(node)
             && LocalName(f.name) == LocalName(g.name)
    ensures f.name == g.name
  {
    assert LocalName("r#type") == "type";
  }

  /** The position `Map.set` leaves for a name: the last one. */
  function IndexOf(ds: seq<Descriptor>, name: string): Option<nat> {
    if ds == [] then None
    else if ds[|ds| - 1].name == name then Some(|ds| - 1)
    else IndexOf(ds[..|ds| - 1], name)
  }

  lemma {:induction false} IndexFound(ds: seq<Descriptor>, name: string)
    ensures IndexOf(ds, name).Some? ==> IndexOf(ds, name).value < |ds| && ds[IndexOf(ds, name).value].name == name
    ensures IndexOf(ds, name).None? <==> forall i | 0 <= i < |ds| :: ds[i].name != name
  {
    if ds != [] {
      IndexFound(ds[..|ds| - 1], name);
    }
  }

  // ---- plans ----

  datatype Arg =
    | OriginalKind
    | OriginalFlags
    | VisitedChild(field: StructField, index: nat)
    | SourceField(field: StructField)

  datatype Error = MissingField(member: string)

  function UpdateMembers(node: NodeType): seq<Member> {
    WithoutKindParams(SchemaMembers(node.members))
  }

  function WithoutKindParams(ms: seq<Member>): seq<Member> {
    if ms == [] then [] else (if ms[0].kindParam then [] else [ms[0]]) + WithoutKindParams(ms[1..])
  }

  /** The child index planned for an update parameter: that of the last member with the parameter's name. */
  function ChildIndexOf(node: NodeType, ms: seq<Member>, param: string): Option<nat> {
    if ms == [] then None
    else
      var m := ms[|ms| - 1];
      if ParamName(m.name) != param then ChildIndexOf(node, ms[..|ms| - 1], param)
      else
        var f := FieldOf(node, m);
        if f.None? || ChildKindOf(f.value.fieldType).None? then None
        else IndexOf(Descriptors(node), LocalName(f.value.name))
  }

  function ArgFor(node: NodeType, m: Member): Result<Arg, Error> {
    if m.kindParam then Ok(OriginalKind)
    else if m.nodeFlags then Ok(OriginalFlags)
    else
      var f := FieldOf(node, m);
      if f.None? then Err(MissingField(m.name))
      else
        var i := ChildIndexOf(node, UpdateMembers(node), ParamName(m.name));
        if i.Some? then Ok(VisitedChild(f.value, i.value)) else Ok(SourceField(f.value))
  }

  function ArgsFor(node: NodeType, ms: seq<Member>): Result<seq<Arg>, Error> {
    if ms == [] then Ok([])
    else
      match ArgFor(node, ms[0])
      case Err(e) => Err(e)
      case Ok(arg) =>
        match ArgsFor(node, ms[1..])
        case Err(e) => Err(e)
        case Ok(args) => Ok([arg] + args)
  }

  /** One argument per constructor parameter, in order. */
  function Plan(node: NodeType): Result<seq<Arg>, Error> {
    ArgsFor(node, SchemaMembers(node.members))
  }

  lemma {:induction false} ArgsForEach(node: NodeType, ms: seq<Member>)
    ensures ArgsFor(node, ms).Ok? <==> forall m | m in ms :: ArgFor(node, m).Ok?
    ensures ArgsFor(node, ms).Ok? ==>
              && |ArgsFor(node, ms).value| == |ms|
              && forall i | 0 <= i < |ms| :: ArgFor(node, ms[i]) == Ok(ArgsFor(node, ms).value[i])
  {
    hide ArgFor;
    if ms != [] {
      ArgsForEach(node, ms[1..]);
      assert ms == [ms[0]] + ms[1..];
    }
  }

  /** There is a plan exactly when every constructor parameter but kind and flags has a field. */
  lemma PlanExists(node: NodeType)
    ensures Plan(node).Ok? <==>
              forall m | m in SchemaMembers(node.members) :: m.kindParam || m.nodeFlags || FieldOf(node, m).Some?
  {
    hide FieldOf, ChildIndexOf;
    var ms := SchemaMembers(node.members);
    ArgsForEach(node, ms);
  }

  lemma {:induction false} UpdateMembersAre(ms: seq<Member>, m: Member)
    ensures m in WithoutKindParams(ms) <==> m in ms && !m.kindParam
  {
    if ms != [] {
      UpdateMembersAre(ms[1..], m);
      assert ms == [ms[0]] + ms[1..];
    }
  }

  /** With distinct parameters the plan of a parameter is that of its own member. */
  lemma {:induction false} ChildIndexIs(node: NodeType, ms: seq<Member>, m: Member)
    requires m in ms && forall k | k in ms :: ParamName(k.name) == ParamName(m.name) ==> k == m
    ensures var f := FieldOf(node, m);
            ChildIndexOf(node, ms, ParamName(m.name)) ==
              if f.None? || ChildKindOf(f.value.fieldType).None? then None
              else IndexOf(Descriptors(node), LocalName(f.value.name))
    decreases |ms|
  {
    hide FieldOf, Descriptors, IndexOf;
    var last := ms[|ms| - 1];
    assert ms == ms[..|ms| - 1] + [last];
    if ParamName(last.name) != ParamName(m.name) {
      assert m in ms[..|ms| - 1];
      ChildIndexIs(node, ms[..|ms| - 1], m);
    } else {
      assert last in ms;
    }
  }

  lemma OwnPlan(node: NodeType, m: Member)
    requires ParamsDistinct(node) && m in SchemaMembers(node.members) && !m.kindParam
    ensures var f := FieldOf(node, m);
            ChildIndexOf(node, UpdateMembers(node), ParamName(m.name)) ==
              if f.None? || ChildKindOf(f.value.fieldType).None? then None
              else IndexOf(Descriptors(node), LocalName(f.value.name))
  {
    hide FieldOf, Descriptors, IndexOf, ParamName;
    var all := SchemaMembers(node.members);
    UpdateMembersAre(all, m);
    SchemaMembersAre(node.members, m);
    forall k | k in UpdateMembers(node) && ParamName(k.name) == ParamName(m.name) ensures k == m {
      UpdateMembersAre(all, k);
      SchemaMembersAre(node.members, k);
      var i, j :| 0 <= i < |node.members| && 0 <= j < |node.members| && node.members[i] == k && node.members[j] == m;
    }
    ChildIndexIs(node, UpdateMembers(node), m);
  }

  /** Every visited argument selects the layout field of its own member's name, with the same requiredness. */
  lemma IndexSelectsOwnField(node: NodeType, i: nat)
    requires NamesOk(node) && ParamsDistinct(node) && Plan(node).Ok?
    requires i < |Plan(node).value| && Plan(node).value[i].VisitedChild?
    ensures var ms := SchemaMembers(node.members);
            var arg := Plan(node).value[i];
            && i < |ms| && FieldOf(node, ms[i]) == Some(arg.field)
            && arg.index < |Descriptors(node)| && LayoutFields(node)[arg.index] == arg.field
            && Descriptors(node)[arg.index].name == LocalName(FieldName(ms[i].name))
            && Descriptors(node)[arg.index].required == IsRequired(arg.field.fieldType)
  {
    hide StructFields, ChildIndexOf, IndexOf, ParamsDistinct, ChildFields;
    var ms := SchemaMembers(node.members);
    ArgsForEach(node, ms);
    var arg := Plan(node).value[i];
    OwnPlan(node, ms[i]);
    LookupFound(StructFields(node), FieldName(ms[i].name));
    IndexFound(Descriptors(node), LocalName(arg.field.name));
    ChildFieldsOk(node, node.members, true, {});
    LookupFound(StructFields(node), LayoutFields(node)[arg.index].name);
    LocalNameInjective(node, LayoutFields(node)[arg.index], arg.field);
  }

  // ---- the update list is the layout list ----

  /** Child members with distinct parameters contribute distinct fields, so nothing is dropped as already seen. */
  lemma {:induction false} UpdateListWithoutKindParams(node: NodeType, ms: seq<Member>, seen: set<string>)
    requires forall m | m in ms && m.child && !m.noFactory && m.kindParam :: FieldOf(node, m).None?
               || ChildKindOf(FieldOf(node, m).value.fieldType).None?
    requires forall i, j | 0 <= i < j < |ms| && Contributes(ms[i]) && Contributes(ms[j]) ::
               FieldName(ms[i].name) != FieldName(ms[j].name)
    requires forall m | m in ms && Contributes(m) :: FieldName(m.name) !in seen
    ensures ChildFields(node, ms, true, seen) == ChildFields(node, ms, false, seen)
    decreases |ms|
  {
    hide StructFields, FieldName;
    if ms != [] {
      var m, rest := ms[0], ms[1..];
      var f := FieldOf(node, m);
      LookupFound(StructFields(node), FieldName(m.name));
      if Contributes(m) && f.Some? {
        var seen' := seen + {f.value.name};
        UpdateListWithoutKindParams(node, rest, seen');
        if m.kindParam {
          SeenIrrelevant(node, rest, false, seen, f.value.name);
        }
      } else {
        UpdateListWithoutKindParams(node, rest, seen);
      }
    }
  }

  predicate Contributes(m: Member) {
    m.child && !m.noFactory
  }

  /** A name that no further member has plays no role among the names seen. */
  lemma {:induction false} SeenIrrelevant(node: NodeType, ms: seq<Member>, kindParams: bool, seen: set<string>,
                                          name: string)
    requires forall m | m in ms && Contributes(m) :: FieldName(m.name) != name
    ensures ChildFields(node, ms, kindParams, seen + {name}) == ChildFields(node, ms, kindParams, seen)
    decreases |ms|
  {
    hide StructFields, FieldName;
    if ms != [] {
      var m, rest := ms[0], ms[1..];
      var f := FieldOf(node, m);
      LookupFound(StructFields(node), FieldName(m.name));
      SeenIrrelevant(node, rest, kindParams, seen, name);
      if Contributes(m) && f.Some? {
        SeenIrrelevant(node, rest, kindParams, seen + {f.value.name}, name);
        assert seen + {name} + {f.value.name} == seen + {f.value.name} + {name};
      }
    }
  }

  /** A kind parameter that is also a child with a field that can hold children: it is in the layout and not updated. */
  predicate LostInUpdate(node: NodeType, m: Member) {
    Contributes(m) && m.kindParam && FieldOf(node, m).Some? && ChildKindOf(FieldOf(node, m).value.fieldType).Some?
  }

  lemma {:induction false} UpdateListShorter(node: NodeType, ms: seq<Member>, seen: set<string>)
    requires forall i, j | 0 <= i < j < |ms| && Contributes(ms[i]) && Contributes(ms[j]) ::
               FieldName(ms[i].name) != FieldName(ms[j].name)
    requires forall m | m in ms && Contributes(m) :: FieldName(m.name) !in seen
    ensures |ChildFields(node, ms, false, seen)| <= |ChildFields(node, ms, true, seen)|
    ensures (exists m :: m in ms && LostInUpdate(node, m)) ==>
              |ChildFields(node, ms, false, seen)| < |ChildFields(node, ms, true, seen)|
    decreases |ms|
  {
    hide StructFields, FieldName;
    if ms != [] {
      var m, rest := ms[0], ms[1..];
      var f := FieldOf(node, m);
      LookupFound(StructFields(node), FieldName(m.name));
      assert forall k | k in ms && k != m :: k in rest;
      if Contributes(m) && f.Some? {
        UpdateListShorter(node, rest, seen + {f.value.name});
        if m.kindParam {
          SeenIrrelevant(node, rest, false, seen, f.value.name);
        }
      } else {
        UpdateListShorter(node, rest, seen);
      }
    }
  }

  /** The update children are the layout children, in order, exactly when no kind parameter holds children. */
  lemma UpdateListIsLayout(node: NodeType)
    requires NamesOk(node) && ParamsDistinct(node)
    ensures UpdateSpecs(node) == Descriptors(node) <==> forall m | m in node.members :: !LostInUpdate(node, m)
  {
    hide StructFields, ChildFields, FieldOf;
    var ms := node.members;
    forall i, j | 0 <= i < j < |ms| && Contributes(ms[i]) && Contributes(ms[j])
      ensures FieldName(ms[i].name) != FieldName(ms[j].name)
    {
      assert ms[i] in ms && ms[j] in ms;
      SameFieldSameParam(ms[i].name, ms[j].name);
    }
    if forall m | m in ms :: !LostInUpdate(node, m) {
      UpdateListWithoutKindParams(node, ms, {});
    } else {
      UpdateListShorter(node, ms, {});
    }
  }

  lemma SameFieldSameParam(a: string, b: string)
    requires LocalName(a) == a && LocalName(b) == b
    ensures FieldName(a) == FieldName(b) ==> ParamName(a) == ParamName(b)
  {
    assert LocalName("r#type") == "type";
  }

  // ---- running a plan ----

  datatype Value = Absent | Present(content: int)

  /** A payload: what each struct field holds; fields no constructor takes start out with their default. */
  type Payload = map<string, Value>

  datatype RebuildError = RequiredChildRemoved(field: string)

  /** The value of one constructor argument. */
  function EvalArg(arg: Arg, kind: int, flags: int, source: Payload, visited: seq<Value>): Result<Value, RebuildError> {
    match arg
    case OriginalKind => Ok(Present(kind))
    case OriginalFlags => Ok(Present(flags))
    case SourceField(f) => Ok(if f.name in source then source[f.name] else Absent)
    case VisitedChild(f, i) =>
      if i >= |visited| then Err(RequiredChildRemoved(f.name))
      else if IsRequired(f.fieldType) && visited[i].Absent? then Err(RequiredChildRemoved(f.name))
      else Ok(visited[i])
  }

  function EvalArgs(args: seq<Arg>, kind: int, flags: int, source: Payload, visited: seq<Value>)
    : Result<seq<Value>, RebuildError>
  {
    if args == [] then Ok([])
    else
      match EvalArg(args[0], kind, flags, source, visited)
      case Err(e) => Err(e)
      case Ok(v) =>
        match EvalArgs(args[1..], kind, flags, source, visited)
        case Err(e) => Err(e)
        case Ok(vs) => Ok([v] + vs)
  }

  /** The argument a constructor stores in a field: that of the last parameter with the field's name. */
  function ArgOfField(ms: seq<Member>, values: seq<Value>, name: string): Option<Value>
    requires |ms| == |values|
    decreases |ms|
  {
    if ms == [] then None
    else
      var last := |ms| - 1;
      if FieldName(ms[last].name) == name && !ms[last].kindParam && !ms[last].nodeFlags then Some(values[last])
      else ArgOfField(ms[..last], values[..last], name)
  }

  /** A constructor: every struct field gets its argument or its default. */
  function Construct(node: NodeType, values: seq<Value>, default: Value): Payload
    requires |values| == |SchemaMembers(node.members)|
  {
    map f | f in StructFields(node) :: f.name :=
      var arg := ArgOfField(SchemaMembers(node.members), values, f.name);
      if arg.Some? then arg.value else default
  }

  lemma {:induction false} EvalArgsEach(args: seq<Arg>, kind: int, flags: int, source: Payload, visited: seq<Value>)
    ensures EvalArgs(args, kind, flags, source, visited).Ok? <==>
              forall a | a in args :: EvalArg(a, kind, flags, source, visited).Ok?
    ensures var r := EvalArgs(args, kind, flags, source, visited);
            r.Ok? ==>
              && |r.value| == |args|
              && forall i | 0 <= i < |args| :: EvalArg(args[i], kind, flags, source, visited) == Ok(r.value[i])
  {
    hide EvalArg;
    if args != [] {
      EvalArgsEach(args[1..], kind, flags, source, visited);
      assert args == [args[0]] + args[1..];
    }
  }

  lemma {:induction false} ArgOfFieldFound(ms: seq<Member>, values: seq<Value>, name: string) returns (j: nat)
    requires |ms| == |values|
    requires exists m :: m in ms && FieldName(m.name) == name && !m.kindParam && !m.nodeFlags
    ensures j < |ms| && FieldName(ms[j].name) == name && !ms[j].kindParam && !ms[j].nodeFlags
    ensures ArgOfField(ms, values, name) == Some(values[j])
    decreases |ms|
  {
    hide FieldName;
    var last := |ms| - 1;
    if FieldName(ms[last].name) == name && !ms[last].kindParam && !ms[last].nodeFlags {
      j := last;
    } else {
      var m :| m in ms && FieldName(m.name) == name && !m.kindParam && !m.nodeFlags;
      assert ms == ms[..last] + [ms[last]];
      assert m in ms[..last];
      j := ArgOfFieldFound(ms[..last], values[..last], name);
    }
  }

  /** A member's own argument: the visited child of its field's layout position, or the source's value if it has none.
    */
  lemma ArgMeaning(node: NodeType, i: nat)
    requires NamesOk(node) && ParamsDistinct(node) && Plan(node).Ok? && i < |SchemaMembers(node.members)|
    requires !SchemaMembers(node.members)[i].kindParam && !SchemaMembers(node.members)[i].nodeFlags
    ensures i < |Plan(node).value|
    ensures var name := FieldName(SchemaMembers(node.members)[i].name);
            match Plan(node).value[i]
            case VisitedChild(f, k) =>
              f.name == name && k < |LayoutFields(node)| && LayoutFields(node)[k] == f
            case SourceField(f) =>
              f.name == name && forall k | 0 <= k < |LayoutFields(node)| :: LayoutFields(node)[k].name != name
            case _ => false
  {
    hide StructFields, ChildIndexOf, IndexOf, ParamsDistinct, ChildFields, NamesOk, LocalName, FieldName;
    var ms := SchemaMembers(node.members);
    ArgsForEach(node, ms);
    LookupFound(StructFields(node), FieldName(ms[i].name));
    var arg := Plan(node).value[i];
    if arg.VisitedChild? {
      IndexSelectsOwnField(node, i);
    } else {
      OwnPlan(node, ms[i]);
      NotInLayout(node, arg.field);
    }
  }

  lemma NotInLayout(node: NodeType, f: StructField)
    requires Lookup(StructFields(node), f.name) == Some(f)
    requires ChildKindOf(f.fieldType).None? || IndexOf(Descriptors(node), LocalName(f.name)).None?
    ensures forall k | 0 <= k < |LayoutFields(node)| :: LayoutFields(node)[k].name != f.name
  {
    hide StructFields, ChildFields, LayoutFields;
    IndexFound(Descriptors(node), LocalName(f.name));
    forall k | 0 <= k < |LayoutFields(node)| ensures LayoutFields(node)[k].name != f.name {
      assert LayoutFields(node)[k] in LayoutFields(node);
      assert IsChildField(node, LayoutFields(node)[k]);
      assert k < |Descriptors(node)| && Descriptors(node)[k].name == LocalName(LayoutFields(node)[k].name);
    }
  }

  predicate HasParameter(node: NodeType, name: string) {
    exists m :: m in SchemaMembers(node.members) && FieldName(m.name) == name && !m.kindParam && !m.nodeFlags
  }

  /** Rebuilding gives every field a constructor takes its visited child, if it is a child of the layout, and the
    * source's value otherwise.
    */
  lemma RebuildMeaning(node: NodeType, kind: int, flags: int, source: Payload, visited: seq<Value>, default: Value,
                       f: StructField)
    requires NamesOk(node) && ParamsDistinct(node) && Plan(node).Ok?
    requires EvalArgs(Plan(node).value, kind, flags, source, visited).Ok?
    requires |visited| == |Descriptors(node)|
    requires f in StructFields(node) && f.name in source && HasParameter(node, f.name)
    ensures |EvalArgs(Plan(node).value, kind, flags, source, visited).value| == |SchemaMembers(node.members)|
    ensures var values := EvalArgs(Plan(node).value, kind, flags, source, visited).value;
            var rebuilt := Construct(node, values, default);
            && f.name in rebuilt
            && (forall k | 0 <= k < |visited| && LayoutFields(node)[k].name == f.name :: rebuilt[f.name] == visited[k])
            && ((forall k | 0 <= k < |visited| :: LayoutFields(node)[k].name != f.name) ==>
                  rebuilt[f.name] == source[f.name])
  {
    hide StructFields, ChildFields, NamesOk, ParamsDistinct, FieldName, ArgFor, LayoutFields, IsRequired, Construct,
         SchemaMembers, EvalArgs, ArgsFor, Descriptors;
    var ms := SchemaMembers(node.members);
    var args := Plan(node).value;
    EvalArgsEach(args, kind, flags, source, visited);
    ArgsForEach(node, ms);
    var values := EvalArgs(args, kind, flags, source, visited).value;
    var j := ConstructedField(node, values, default, f);
    ArgMeaning(node, j);
    assert EvalArg(args[j], kind, flags, source, visited) == Ok(values[j]);
    LayoutNamesDiffer(node);
  }

  lemma ConstructedField(node: NodeType, values: seq<Value>, default: Value, f: StructField) returns (j: nat)
    requires |values| == |SchemaMembers(node.members)| && f in StructFields(node) && HasParameter(node, f.name)
    ensures j < |values| && f.name in Construct(node, values, default)
            && Construct(node, values, default)[f.name] == values[j]
    ensures var m := SchemaMembers(node.members)[j]; FieldName(m.name) == f.name && !m.kindParam && !m.nodeFlags
  {
    hide StructFields, FieldName;
    j := ArgOfFieldFound(SchemaMembers(node.members), values, f.name);
  }

  lemma LayoutNamesDiffer(node: NodeType)
    ensures NamesDiffer(LayoutFields(node))
  {
    ChildFieldsOk(node, node.members, true, {});
  }

  /** With every visited child the one the source holds, the rebuilt payload is the source's on all fields that a
    * constructor takes.
    */
  lemma UnchangedRebuildsSame(node: NodeType, kind: int, flags: int, source: Payload, visited: seq<Value>,
                              default: Value)
    requires NamesOk(node) && ParamsDistinct(node) && Plan(node).Ok?
    requires EvalArgs(Plan(node).value, kind, flags, source, visited).Ok?
    requires |visited| == |Descriptors(node)|
    requires forall f | f in StructFields(node) :: f.name in source
    requires forall k | 0 <= k < |visited| ::
               LayoutFields(node)[k].name in source && visited[k] == source[LayoutFields(node)[k].name]
    ensures |EvalArgs(Plan(node).value, kind, flags, source, visited).value| == |SchemaMembers(node.members)|
    ensures var rebuilt := Construct(node, EvalArgs(Plan(node).value, kind, flags, source, visited).value, default);
            forall f | f in StructFields(node) && HasParameter(node, f.name) ::
              f.name in rebuilt && rebuilt[f.name] == source[f.name]
  {
    hide StructFields, ChildFields, NamesOk, ParamsDistinct, FieldName, ArgFor, LayoutFields, EvalArg;
    EvalArgsEach(Plan(node).value, kind, flags, source, visited);
    ArgsForEach(node, SchemaMembers(node.members));
    forall f | f in StructFields(node) && HasParameter(node, f.name)
      ensures var rebuilt := Construct(node, EvalArgs(Plan(node).value, kind, flags, source, visited).value, default);
              f.name in rebuilt && rebuilt[f.name] == source[f.name]
    {
      RebuildMeaning(node, kind, flags, source, visited, default, f);
    }
  }

  /** Rebuilding fails exactly when the visitor removed a required child. */
  lemma RebuildFails(node: NodeType, kind: int, flags: int, source: Payload, visited: seq<Value>)
    requires NamesOk(node) && ParamsDistinct(node) && Plan(node).Ok? && |visited| == |Descriptors(node)|
    ensures EvalArgs(Plan(node).value, kind, flags, source, visited).Err? <==>
              exists i :: 0 <= i < |Plan(node).value| && RemovedRequired(Plan(node).value[i], visited)
  {
    hide StructFields, ChildFields, NamesOk, ParamsDistinct, FieldName, ArgFor, LayoutFields, Descriptors;
    var args := Plan(node).value;
    EvalArgsEach(args, kind, flags, source, visited);
    forall i | 0 <= i < |args|
      ensures EvalArg(args[i], kind, flags, source, visited).Err? <==> RemovedRequired(args[i], visited)
    {
      if args[i].VisitedChild? {
        IndexSelectsOwnField(node, i);
      }
    }
  }

  predicate RemovedRequired(arg: Arg, visited: seq<Value>) {
    arg.VisitedChild? && arg.index < |visited| && IsRequired(arg.field.fieldType) && visited[arg.index].Absent?
  }

  /** Kind parameters get the original's kind, flags parameters its flags. */
  lemma {:induction false} KindAndFlagsKept(node: NodeType, kind: int, flags: int, source: Payload, visited: seq<Value>,
                                            i: nat)
    requires Plan(node).Ok? && EvalArgs(Plan(node).value, kind, flags, source, visited).Ok?
    requires i < |SchemaMembers(node.members)|
    ensures var m := SchemaMembers(node.members)[i];
            var values := EvalArgs(Plan(node).value, kind, flags, source, visited).value;
            && i < |values|
            && (m.kindParam ==> values[i] == Present(kind))
            && (m.nodeFlags && !m.kindParam ==> values[i] == Present(flags))
  {
    hide FieldOf, ChildIndexOf, SchemaMembers;
    ArgsForEach(node, SchemaMembers(node.members));
    EvalArgsEach(Plan(node).value, kind, flags, source, visited);
    assert ArgFor(node, SchemaMembers(node.members)[i]) == Ok(Plan(node).value[i]);
  }

  // ---- which fields there are ----

  lemma {:induction false} OwnFieldsAre(ms: seq<Member>, f: StructField)
    ensures f in OwnFields(ms) <==>
              exists m :: m in ms && !m.noGo && !m.semantic && !m.kindParam && !m.nodeFlags && !m.inherited
                          && f == StructField(FieldName(m.name), m.fieldType)
  {
    hide FieldName;
    if ms != [] {
      OwnFieldsAre(ms[1..], f);
      assert ms == [ms[0]] + ms[1..];
    }
  }

  /** No earlier field has this field's name. */
  predicate NewName(fields: seq<StructField>, i: nat)
    requires i < |fields|
  {
    forall j | 0 <= j < i :: fields[j].name != fields[i].name
  }

  lemma {:induction false} PushedAll(fields: seq<StructField>, more: seq<StructField>)
    requires NamesDiffer(fields)
    ensures NamesDiffer(PushAll(fields, more)) && fields <= PushAll(fields, more)
    ensures forall f | f in PushAll(fields, more) :: f in fields || f in more
    ensures forall i: nat | i < |more| && (forall f | f in fields :: f.name != more[i].name) && NewName(more, i) ::
              more[i] in PushAll(fields, more)
    decreases |more|
  {
    if more != [] {
      var next := PushUnique(fields, more[0]);
      assert forall f | f in next :: f in fields || f == more[0];
      assert forall i | 0 <= i < |fields| :: fields[i] in fields;
      PushedAll(next, more[1..]);
      forall i: nat | i < |more| && (forall f | f in fields :: f.name != more[i].name) && NewName(more, i)
        ensures more[i] in PushAll(fields, more)
      {
        if i > 0 {
          assert more[1..][i - 1] == more[i] && NewName(more[1..], i - 1);
        } else {
          assert more[0] in next;
        }
      }
    }
  }

  /** A node type has the fields of its bases and then its own: those of its members that are kept, are no kind or flags
    * parameters and are not inherited. Of fields with one name only the first is there.
    */
  lemma {:induction false} StructFieldsAre(node: NodeType)
    ensures NamesDiffer(StructFields(node))
    ensures forall f | f in StructFields(node) :: f in node.baseFields || f in OwnFields(node.members)
    ensures forall i: nat | i < |node.baseFields| && NewName(node.baseFields, i) ::
              node.baseFields[i] in StructFields(node)
    ensures var own := OwnFields(node.members);
            forall i: nat | i < |own| && NewName(own, i)
                            && (forall f | f in node.baseFields :: f.name != own[i].name) ::
              own[i] in StructFields(node)
  {
    PushedAll([], node.baseFields);
    PushedAll(PushAll([], node.baseFields), OwnFields(node.members));
  }

  /** A member whose field is a child field: factory member, child, and of a type that can hold children. */
  predicate HoldsChildren(node: NodeType, m: Member, kindParams: bool) {
    && m.child && !m.noFactory && (m.kindParam ==> kindParams)
    && FieldOf(node, m).Some? && !FieldOf(node, m).value.fieldType.Other?
  }

  /** The member holds children in this field. */
  predicate HoldsField(node: NodeType, m: Member, kindParams: bool, f: StructField) {
    HoldsChildren(node, m, kindParams) && FieldOf(node, m) == Some(f)
  }

  /** `fs` are the fields of the members at `places`, which hold children and stand in this order. */
  predicate FieldsAt(node: NodeType, ms: seq<Member>, kindParams: bool, fs: seq<StructField>, places: seq<nat>) {
    && |places| == |fs|
    && (forall k | 0 <= k < |fs| ::
          places[k] < |ms| && HoldsField(node, ms[places[k]], kindParams, fs[k]))
    && (forall k, l | 0 <= k < l < |fs| :: places[k] < places[l])
  }

  /** The layout, or without kind parameters the update list, has only fields of members that hold children, in the
    * order of the members.
    */
  lemma {:induction false} ChildFieldsAre(node: NodeType, ms: seq<Member>, kindParams: bool, seen: set<string>)
    returns (places: seq<nat>)
    ensures FieldsAt(node, ms, kindParams, ChildFields(node, ms, kindParams, seen), places)
    decreases |ms|
  {
    hide FieldOf, FieldsAt;
    if ms == [] {
      places := [];
      assert FieldsAt(node, ms, kindParams, [], []) by {
        NoFields(node, ms, kindParams);
      }
    } else {
      var m, rest := ms[0], ms[1..];
      var f := FieldOf(node, m);
      if m.noFactory || !m.child || (m.kindParam && !kindParams) || f.None? || f.value.name in seen {
        var more := ChildFieldsAre(node, rest, kindParams, seen);
        places := FieldsLater(node, ms, kindParams, ChildFields(node, rest, kindParams, seen), more);
      } else {
        var seen' := seen + {f.value.name};
        var fs := ChildFields(node, rest, kindParams, seen');
        var more := ChildFieldsAre(node, rest, kindParams, seen');
        places := FieldsLater(node, ms, kindParams, fs, more);
        if !f.value.fieldType.Other? {
          places := FieldBefore(node, ms, kindParams, fs, f.value, places);
        } else {
          assert [] + fs == fs;
        }
      }
    }
  }

  lemma NoFields(node: NodeType, ms: seq<Member>, kindParams: bool)
    ensures FieldsAt(node, ms, kindParams, [], [])
  {
  }

  lemma FieldsLater(node: NodeType, ms: seq<Member>, kindParams: bool, fs: seq<StructField>, more: seq<nat>)
    returns (places: seq<nat>)
    requires ms != [] && FieldsAt(node, ms[1..], kindParams, fs, more)
    ensures FieldsAt(node, ms, kindParams, fs, places) && forall k | 0 <= k < |places| :: places[k] > 0
  {
    hide HoldsField;
    places := Later(more);
    assert forall k | 0 <= k < |fs| :: ms[1..][more[k]] == ms[places[k]];
  }

  lemma FieldBefore(node: NodeType, ms: seq<Member>, kindParams: bool, fs: seq<StructField>, f: StructField,
                    more: seq<nat>)
    returns (places: seq<nat>)
    requires ms != [] && FieldsAt(node, ms, kindParams, fs, more) && forall k | 0 <= k < |more| :: more[k] > 0
    requires HoldsField(node, ms[0], kindParams, f)
    ensures FieldsAt(node, ms, kindParams, [f] + fs, [0] + more) && places == [0] + more
  {
    hide HoldsField;
    places := [0] + more;
  }

  function Later(places: seq<nat>): (r: seq<nat>)
    ensures |r| == |places| && forall k | 0 <= k < |places| :: r[k] == places[k] + 1
  {
    seq(|places|, k requires 0 <= k < |places| => places[k] + 1)
  }

  /** And it has the fields of all such members. */
  lemma {:induction false} ChildFieldsAll(node: NodeType, ms: seq<Member>, kindParams: bool, seen: set<string>)
    ensures forall m | m in ms && HoldsChildren(node, m, kindParams) && FieldOf(node, m).value.name !in seen ::
              FieldOf(node, m).value in ChildFields(node, ms, kindParams, seen)
    decreases |ms|
  {
    hide FieldOf;
    if ms != [] {
      var f := FieldOf(node, ms[0]);
      assert ms == [ms[0]] + ms[1..];
      ChildFieldsAll(node, ms[1..], kindParams, seen);
      if f.Some? {
        ChildFieldsAll(node, ms[1..], kindParams, seen + {f.value.name});
      }
      SameNameSameField(node);
    }
  }

  /** Fields are found by name: members with the same field name have the same field. */
  lemma SameNameSameField(node: NodeType)
    ensures forall m: Member, n: Member | FieldOf(node, m).Some? && FieldOf(node, n).Some?
                                          && FieldOf(node, m).value.name == FieldOf(node, n).value.name ::
              FieldOf(node, m) == FieldOf(node, n)
  {
    hide StructFields;
    forall m: Member, n: Member | FieldOf(node, m).Some? && FieldOf(node, n).Some?
                                  && FieldOf(node, m).value.name == FieldOf(node, n).value.name
      ensures FieldOf(node, m) == FieldOf(node, n)
    {
      LookupFound(StructFields(node), FieldName(m.name));
      LookupFound(StructFields(node), FieldName(n.name));
    }
  }

  /** A descriptor says what its field's type says: what kind of children, and whether they are required. */
  lemma DescriptorSays(node: NodeType, k: nat)
    requires k < |Descriptors(node)|
    ensures var d, t := Descriptors(node)[k], LayoutFields(node)[k].fieldType;
            && (d.kind == Node <==> t == NodeId || t == OptionalNodeId || t == OptionNode)
            && (d.kind == NodeList <==> t == NodeListId || t == OptionalNodeListId)
            && (d.kind == ModifierList <==> t == ModifierListId || t == OptionalModifierListId)
            && (d.kind == RawNodeSlice <==> t == RawNodeSliceId || t == OptionalRawNodeSliceId)
            && (d.required <==> t == NodeId || t == NodeListId || t == ModifierListId || t == RawNodeSliceId)
            && (LayoutFields(node)[k].name == "r#type" ==> d.name == "type")
  {
    assert LocalName("r#type") == "type";
    hide LayoutFields, LocalName;
    assert LayoutFields(node)[k] in LayoutFields(node);
    assert IsChildField(node, LayoutFields(node)[k]);
  }

  // ---- the macro arm a plan is expanded with ----

  datatype Arm = WithKind | WithSource | Plain

  /** One arm is chosen, and the one with the original kind goes first. */
  function ArmOf(args: seq<Arg>): Arm {
    if exists i :: 0 <= i < |args| && args[i].OriginalKind? then WithKind
    else if exists i :: 0 <= i < |args| && args[i].SourceField? then WithSource
    else Plain
  }

  /** What an arm binds for its arguments. */
  predicate Binds(arm: Arm, arg: Arg) {
    match arg
    case OriginalKind => arm.WithKind?
    case SourceField(_) => arm.WithSource?
    case _ => true
  }

  /** The expansion has everything its arguments use. */
  predicate Expands(args: seq<Arg>) {
    forall i | 0 <= i < |args| :: Binds(ArmOf(args), args[i])
  }

  lemma ExpandsIff(args: seq<Arg>)
    ensures Expands(args) <==>
              (forall i | 0 <= i < |args| :: !args[i].OriginalKind?)
              || (forall i | 0 <= i < |args| :: !args[i].SourceField?)
  {
    if k, f :| 0 <= k < |args| && args[k].OriginalKind? && 0 <= f < |args| && args[f].SourceField? {
      assert !Binds(ArmOf(args), args[f]);
    }
  }

  predicate InLayout(node: NodeType, m: Member) {
    exists k :: 0 <= k < |LayoutFields(node)| && LayoutFields(node)[k].name == FieldName(m.name)
  }

  /** Only types with a child among their update parameters can be rebuilt; no arm is emitted for others. */
  predicate Emits(node: NodeType) {
    exists m :: m in UpdateMembers(node) && m.child
  }

  /** The arm emitted for the type, if there is one, binds all that its arguments use. */
  predicate ArmBound(node: NodeType)
    requires Plan(node).Ok?
  {
    Emits(node) ==> Expands(Plan(node).value)
  }

  /** It does so exactly when no constructor parameter is the kind, or all other parameters but the flags are children
    * of the layout.
    */
  lemma {:induction false} ArmSuffices(node: NodeType)
    requires NamesOk(node) && ParamsDistinct(node) && Plan(node).Ok?
    ensures Expands(Plan(node).value) <==>
              || (forall m | m in SchemaMembers(node.members) :: !m.kindParam)
              || (forall m | m in SchemaMembers(node.members) && !m.kindParam && !m.nodeFlags :: InLayout(node, m))
    ensures ArmBound(node) <==>
              || !Emits(node)
              || (forall m | m in SchemaMembers(node.members) :: !m.kindParam)
              || (forall m | m in SchemaMembers(node.members) && !m.kindParam && !m.nodeFlags :: InLayout(node, m))
  {
    hide ArmOf, Binds, NamesOk, ParamsDistinct, FieldName, LayoutFields, ChildIndexOf, FieldOf, SchemaMembers, Expands;
    var ms, args := SchemaMembers(node.members), Plan(node).value;
    ArgsForEach(node, ms);
    ExpandsIff(args);
    forall i | 0 <= i < |ms|
      ensures args[i].OriginalKind? <==> ms[i].kindParam
      ensures args[i].SourceField? <==> !ms[i].kindParam && !ms[i].nodeFlags && !InLayout(node, ms[i])
    {
      if !ms[i].kindParam && !ms[i].nodeFlags {
        ArgMeaning(node, i);
      }
    }
    forall m | m in ms ensures exists i :: 0 <= i < |ms| && ms[i] == m {
    }
  }

  const KIND_PARAM := Member("kind", Other("Kind"), true, false, false, false, false, false, false)
  const BODY := Member("body", OptionalNodeId, false, false, true, false, false, false, false)
  const TEXT := Member("text", Other("String"), false, false, false, false, false, false, false)

  /** A node type with a kind parameter, a child and a text. */
  const MIXED := NodeType([], [KIND_PARAM, BODY, TEXT])

  const BODY_FIELD := StructField("body", OptionalNodeId)
  const TEXT_FIELD := StructField("text", Other("String"))

  lemma {:induction false} MixedMembers()
    ensures SchemaMembers(MIXED.members) == [KIND_PARAM, BODY, TEXT]
    ensures OwnFields(MIXED.members) == [BODY_FIELD, TEXT_FIELD]
  {
    assert MIXED.members[1..] == [BODY, TEXT] && [BODY, TEXT][1..] == [TEXT] && [TEXT][1..] == [];
    assert SchemaMembers([TEXT]) == [TEXT] + SchemaMembers([]);
    assert SchemaMembers([BODY, TEXT]) == [BODY] + SchemaMembers([TEXT]);
    assert OwnFields([TEXT]) == [TEXT_FIELD] + OwnFields([]);
    assert OwnFields([BODY, TEXT]) == [BODY_FIELD] + OwnFields([TEXT]);
  }

  lemma {:induction false} MixedFields()
    ensures StructFields(MIXED) == [BODY_FIELD, TEXT_FIELD]
  {
    MixedMembers();
    hide OwnFields;
    assert [BODY_FIELD, TEXT_FIELD][1..] == [TEXT_FIELD] && [TEXT_FIELD][1..] == [];
    assert PushUnique([], BODY_FIELD) == [BODY_FIELD];
    assert PushUnique([BODY_FIELD], TEXT_FIELD) == [BODY_FIELD, TEXT_FIELD];
    assert PushAll([BODY_FIELD], [TEXT_FIELD]) == PushAll([BODY_FIELD, TEXT_FIELD], []);
    assert PushAll([], [BODY_FIELD, TEXT_FIELD]) == PushAll([BODY_FIELD], [TEXT_FIELD]);
  }

  lemma {:induction false} MixedLookups()
    ensures FieldOf(MIXED, TEXT) == Some(TEXT_FIELD) && FieldOf(MIXED, BODY) == Some(BODY_FIELD)
    ensures Lookup(StructFields(MIXED), "text") == Some(TEXT_FIELD)
  {
    MixedFields();
    hide StructFields;
    assert "body"[0] != "text"[0];
    assert FieldName("text") == "text" && FieldName("body") == "body";
    assert [BODY_FIELD, TEXT_FIELD][1..] == [TEXT_FIELD];
    assert Lookup([BODY_FIELD, TEXT_FIELD], "text") == Lookup([TEXT_FIELD], "text");
  }

  /** The text is not among the children of its layout. */
  lemma {:induction false} MixedText()
    ensures !InLayout(MIXED, TEXT)
  {
    MixedLookups();
    hide StructFields, LayoutFields, Lookup;
    assert FieldName("text") == "text";
    forall k | 0 <= k < |LayoutFields(MIXED)| ensures LayoutFields(MIXED)[k].name != "text" {
      var f := LayoutFields(MIXED)[k];
      assert f in LayoutFields(MIXED) && IsChildField(MIXED, f);
    }
  }

  lemma PlainName(name: string)
    requires name != "" && name[0] != 'r'
    ensures LocalName(name) == name && name != "r#type"
  {
    assert |name| >= 2 ==> name[..2][0] == name[0];
  }

  lemma {:induction false} MixedNames()
    ensures NamesOk(MIXED)
  {
    MixedFields();
    PlainName("kind");
    PlainName("body");
    PlainName("text");
    hide StructFields, LocalName;
    assert "body"[0] == 'b' && "text"[1] == 'e' && "type"[1] == 'y';
  }

  lemma {:induction false} MixedParams()
    ensures ParamsDistinct(MIXED)
  {
    var names := ["kind", "body", "text"];
    assert names[0][0] == 'k' && names[1][0] == 'b' && names[2][0] == 't' && names[2][1] == 'e';
    assert forall i | 0 <= i < 3 :: ParamName(names[i]) == names[i];
    hide ParamName;
  }

  /** It can be rebuilt, its plan needs the kind and the source data, and the arm emitted for it does not bind both. */
  lemma {:induction false} MixedTypeNotBound()
    ensures NamesOk(MIXED) && ParamsDistinct(MIXED) && Plan(MIXED).Ok?
    ensures Emits(MIXED) && !ArmBound(MIXED)
  {
    MixedMembers();
    MixedLookups();
    MixedText();
    MixedNames();
    MixedParams();
    hide StructFields, SchemaMembers, LayoutFields, Expands, Plan, OwnFields, FieldOf, InLayout,
         NamesOk, ParamsDistinct, UpdateMembers;
    PlanExists(MIXED);
    assert KIND_PARAM in SchemaMembers(MIXED.members) && TEXT in SchemaMembers(MIXED.members);
    assert BODY in SchemaMembers(MIXED.members);
    MixedEmits();
    ArmSuffices(MIXED);
  }

  lemma {:induction false} MixedEmits()
    ensures Emits(MIXED)
  {
    MixedMembers();
    hide SchemaMembers;
    UpdateMembersAre(SchemaMembers(MIXED.members), BODY);
  }
}
