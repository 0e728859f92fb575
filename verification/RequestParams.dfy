/** Request parameters: a request is decoded into its parameter type and encoded again before a handler decodes it. */
module RequestParams {
  import opened JsonValues
  import opened Options

  // ---- parameter types ----

  /** The types parameters are built from. */
  datatype Shape =
    | Text
    | Flag
    | Number
    | Document
    | List(item: Shape)
    | Optional(inner: Shape)
    | Struct(fields: seq<Field>)

  /** A field that `defaults` may be missing, and is left out when it holds its default. */
  datatype Field = Field(name: string, shape: Shape, defaults: bool)

  datatype Value =
    | TextValue(s: string)
    | FlagValue(b: bool)
    | NumberValue(i: int)
    | DocumentValue(fileName: string, uri: string)
    | ListValue(items: seq<Value>)
    | Absent
    | Given(value: Value)
    | StructValue(values: seq<Value>)

  const MAX_U32 := 0xffff_ffff

  function Default(sh: Shape): Value {
    match sh
    case Text => TextValue("")
    case Flag => FlagValue(false)
    case Number => NumberValue(0)
    case Document => DocumentValue("", "")
    case List(_) => ListValue([])
    case Optional(_) => Absent
    case Struct(fields) => StructValue(seq(|fields|, i requires 0 <= i < |fields| => Default(fields[i].shape)))
  }

  predicate NamesDiffer(fields: seq<Field>) {
    forall i, j | 0 <= i < j < |fields| :: fields[i].name != fields[j].name
  }

  /** Field names differ, and nothing is optional twice over. */
  predicate ShapeOk(sh: Shape) {
    match sh
    case List(item) => ShapeOk(item)
    case Optional(inner) => !inner.Optional? && ShapeOk(inner)
    case Struct(fields) => NamesDiffer(fields) && forall f | f in fields :: ShapeOk(f.shape)
    case _ => true
  }

  // ---- decoding and encoding ----

  /** A document is a plain file name, or an object of which only the URI is read. */
  function DecodeDocument(j: Json): Option<Value> {
    match j
    case JString(s) => Some(DocumentValue(s, ""))
    case JObject(fields) =>
      if "uri" !in fields then Some(DocumentValue("", ""))
      else if fields["uri"].JString? then Some(DocumentValue("", fields["uri"].s))
      else None
    case _ => None
  }

  /** It is written as an object with the file name and the URI that are not empty. */
  function EncodeDocument(fileName: string, uri: string): Json {
    JObject((if fileName == "" then map[] else map["fileName" := JString(fileName)])
            + (if uri == "" then map[] else map["uri" := JString(uri)]))
  }

  function Decode(sh: Shape, j: Json): Option<Value>
    decreases sh, 1, 0
  {
    match sh
    case Text => if j.JString? then Some(TextValue(j.s)) else None
    case Flag => if j.JBool? then Some(FlagValue(j.b)) else None
    case Number => if j.JInteger? && 0 <= j.i <= MAX_U32 then Some(NumberValue(j.i)) else None
    case Document => DecodeDocument(j)
    case List(item) =>
      if !j.JArray? then None
      else
        var items := DecodeItems(item, j.items);
        if items.None? then None else Some(ListValue(items.value))
    case Optional(inner) =>
      if j.JNull? then Some(Absent)
      else
        var v := Decode(inner, j);
        if v.None? then None else Some(Given(v.value))
    case Struct(fields) =>
      if !j.JObject? then None
      else
        var values := DecodeFields(fields, j.fields);
        if values.None? then None else Some(StructValue(values.value))
  }

  function DecodeItems(item: Shape, js: seq<Json>): Option<seq<Value>>
    decreases item, 2, |js|
  {
    if js == [] then Some([])
    else
      var first := Decode(item, js[0]);
      var rest := DecodeItems(item, js[1..]);
      if first.None? || rest.None? then None else Some([first.value] + rest.value)
  }

  /** A missing field takes its default if it may be missing; a missing optional field is absent; others must be
    * there.
    */
  function DecodeField(f: Field, entries: map<string, Json>): Option<Value>
    decreases f, 2, 0
  {
    if f.name in entries then Decode(f.shape, entries[f.name])
    else if f.defaults then Some(Default(f.shape))
    else if f.shape.Optional? then Some(Absent)
    else None
  }

  function DecodeFields(fields: seq<Field>, entries: map<string, Json>): Option<seq<Value>>
    decreases fields, 3, 0
  {
    if fields == [] then Some([])
    else
      var first := DecodeField(fields[0], entries);
      var rest := DecodeFields(fields[1..], entries);
      if first.None? || rest.None? then None else Some([first.value] + rest.value)
  }

  /** The value is one of the type, with documents as decoding makes them. */
  predicate HasShape(sh: Shape, v: Value)
    decreases sh
  {
    match sh
    case Text => v.TextValue?
    case Flag => v.FlagValue?
    case Number => v.NumberValue? && 0 <= v.i <= MAX_U32
    case Document => v.DocumentValue? && (v.fileName == "" || v.uri == "")
    case List(item) => v.ListValue? && forall x | x in v.items :: HasShape(item, x)
    case Optional(inner) => v.Absent? || (v.Given? && HasShape(inner, v.value))
    case Struct(fields) =>
      v.StructValue? && |v.values| == |fields| && forall i | 0 <= i < |fields| :: HasShape(fields[i].shape, v.values[i])
  }

  function Encode(sh: Shape, v: Value): Json
    requires HasShape(sh, v)
    decreases sh, 1
  {
    match sh
    case Text => JString(v.s)
    case Flag => JBool(v.b)
    case Number => JInteger(v.i)
    case Document => EncodeDocument(v.fileName, v.uri)
    case List(item) =>
      JArray(seq(|v.items|, i requires 0 <= i < |v.items| => assert v.items[i] in v.items; Encode(item, v.items[i])))
    case Optional(inner) => if v.Absent? then JNull else Encode(inner, v.value)
    case Struct(fields) => JObject(EncodeFields(fields, v.values))
  }

  predicate LeftOut(f: Field, v: Value) {
    f.defaults && v == Default(f.shape)
  }

  function EncodeFields(fields: seq<Field>, values: seq<Value>): map<string, Json>
    requires |values| == |fields| && forall i | 0 <= i < |fields| :: HasShape(fields[i].shape, values[i])
    decreases fields, 2
  {
    if fields == [] then map[]
    else
      var rest := EncodeFields(fields[1..], values[1..]);
      if LeftOut(fields[0], values[0]) then rest else rest[fields[0].name := Encode(fields[0].shape, values[0])]
  }

  // ---- what encoding and decoding again does ----

  /** The value without the plain file names of its documents. */
  function Erased(v: Value): Value {
    match v
    case DocumentValue(_, uri) => DocumentValue("", uri)
    case ListValue(items) => ListValue(ErasedItems(items))
    case Given(x) => Given(Erased(x))
    case StructValue(values) => StructValue(ErasedItems(values))
    case _ => v
  }

  function ErasedItems(vs: seq<Value>): (r: seq<Value>)
    ensures |r| == |vs|
    ensures forall i | 0 <= i < |vs| :: r[i] == Erased(vs[i])
    decreases vs, |vs|
  {
    if vs == [] then [] else [Erased(vs[0])] + ErasedItems(vs[1..])
  }

  predicate HasFileName(v: Value) {
    match v
    case DocumentValue(fileName, _) => fileName != ""
    case ListValue(items) => exists x :: x in items && HasFileName(x)
    case Given(x) => HasFileName(x)
    case StructValue(values) => exists x :: x in values && HasFileName(x)
    case _ => false
  }

  lemma {:induction false} ErasedIffNoFileName(v: Value)
    ensures Erased(v) == v <==> !HasFileName(v)
    decreases v
  {
    match v {
      case ListValue(items) =>
        forall i | 0 <= i < |items| ensures Erased(items[i]) == items[i] <==> !HasFileName(items[i]) {
          ErasedIffNoFileName(items[i]);
        }
        ErasedAll(items);
      case StructValue(values) =>
        forall i | 0 <= i < |values| ensures Erased(values[i]) == values[i] <==> !HasFileName(values[i]) {
          ErasedIffNoFileName(values[i]);
        }
        ErasedAll(values);
      case Given(x) => ErasedIffNoFileName(x);
      case _ =>
    }
  }

  lemma {:induction false} ErasedAll(vs: seq<Value>)
    requires forall i | 0 <= i < |vs| :: Erased(vs[i]) == vs[i] <==> !HasFileName(vs[i])
    ensures ErasedItems(vs) == vs <==> !exists x :: x in vs && HasFileName(x)
  {
    var es := ErasedItems(vs);
    if exists x :: x in vs && HasFileName(x) {
      var x :| x in vs && HasFileName(x);
      var i :| 0 <= i < |vs| && vs[i] == x;
      assert es[i] != vs[i];
    } else {
      forall i | 0 <= i < |vs| ensures es[i] == vs[i] {
        assert vs[i] in vs;
      }
    }
  }

  lemma {:induction false} DefaultHasShape(sh: Shape)
    ensures HasShape(sh, Default(sh)) && !HasFileName(Default(sh))
    decreases sh
  {
    if sh.Struct? {
      forall i | 0 <= i < |sh.fields|
        ensures HasShape(sh.fields[i].shape, Default(sh.fields[i].shape)) && !HasFileName(Default(sh.fields[i].shape))
      {
        DefaultHasShape(sh.fields[i].shape);
      }
    }
  }

  lemma {:induction false} DecodedHasShape(sh: Shape, j: Json)
    requires Decode(sh, j).Some?
    ensures HasShape(sh, Decode(sh, j).value)
    decreases sh, 1, 0
  {
    match sh {
      case List(item) => ItemsHaveShape(item, j.items);
      case Optional(inner) =>
        if !j.JNull? {
          DecodedHasShape(inner, j);
        }
      case Struct(fields) => FieldsHaveShape(fields, j.fields);
      case _ =>
    }
  }

  lemma {:induction false} ItemsHaveShape(item: Shape, js: seq<Json>)
    requires DecodeItems(item, js).Some?
    ensures forall x | x in DecodeItems(item, js).value :: HasShape(item, x)
    decreases item, 2, |js|
  {
    if js != [] {
      DecodedHasShape(item, js[0]);
      ItemsHaveShape(item, js[1..]);
    }
  }

  lemma {:induction false} FieldsHaveShape(fields: seq<Field>, entries: map<string, Json>)
    requires DecodeFields(fields, entries).Some?
    ensures var vs := DecodeFields(fields, entries).value;
            |vs| == |fields| && forall i | 0 <= i < |fields| :: HasShape(fields[i].shape, vs[i])
    decreases fields, 3, 0
  {
    if fields != [] {
      FieldHasShape(fields[0], entries);
      FieldsHaveShape(fields[1..], entries);
    }
  }

  lemma {:induction false} FieldHasShape(f: Field, entries: map<string, Json>)
    requires DecodeField(f, entries).Some?
    ensures HasShape(f.shape, DecodeField(f, entries).value)
    decreases f, 2, 0
  {
    if f.name in entries {
      DecodedHasShape(f.shape, entries[f.name]);
    } else {
      DefaultHasShape(f.shape);
    }
  }

  /** Decoding an encoded value gives the value without its plain file names. */
  lemma {:induction false} EncodedDecodes(sh: Shape, v: Value)
    requires ShapeOk(sh) && HasShape(sh, v)
    ensures Decode(sh, Encode(sh, v)) == Some(Erased(v))
    ensures !sh.Optional? ==> !Encode(sh, v).JNull?
    decreases sh, 1, 0
  {
    match sh {
      case List(item) =>
        forall x | x in v.items ensures Decode(item, Encode(item, x)) == Some(Erased(x)) {
          EncodedDecodes(item, x);
        }
        ItemsDecode(item, v.items, Encode(sh, v).items);
      case Optional(inner) =>
        if v.Given? {
          EncodedDecodes(inner, v.value);
        }
      case Struct(fields) =>
        FieldsDecode(fields, v.values, EncodeFields(fields, v.values));
      case _ =>
    }
  }

  lemma {:induction false} ItemsDecode(item: Shape, vs: seq<Value>, js: seq<Json>)
    requires |js| == |vs| && forall x | x in vs :: HasShape(item, x)
    requires forall i | 0 <= i < |vs| :: vs[i] in vs && js[i] == Encode(item, vs[i])
    requires forall x | x in vs :: Decode(item, Encode(item, x)) == Some(Erased(x))
    ensures DecodeItems(item, js) == Some(ErasedItems(vs))
    decreases |vs|
  {
    hide HasShape, Decode, Encode, Erased;
    if vs != [] {
      assert vs[0] in vs;
      assert forall x | x in vs[1..] :: x in vs;
      forall i | 0 <= i < |vs[1..]| ensures vs[1..][i] in vs[1..] && js[1..][i] == Encode(item, vs[1..][i]) {
        assert vs[i + 1] in vs;
      }
      ItemsDecode(item, vs[1..], js[1..]);
      assert Decode(item, js[0]) == Some(Erased(vs[0]));
    }
  }

  lemma {:induction false} EncodedKeys(fields: seq<Field>, values: seq<Value>)
    requires |values| == |fields| && forall i | 0 <= i < |fields| :: HasShape(fields[i].shape, values[i])
    ensures forall k | k in EncodeFields(fields, values) :: exists i :: 0 <= i < |fields| && fields[i].name == k
    decreases |fields|
  {
    if fields != [] {
      EncodedKeys(fields[1..], values[1..]);
      forall k | k in EncodeFields(fields, values) ensures exists i :: 0 <= i < |fields| && fields[i].name == k {
        if k != fields[0].name {
          assert k in EncodeFields(fields[1..], values[1..]);
          var i :| 0 <= i < |fields[1..]| && fields[1..][i].name == k;
          assert fields[i + 1].name == k;
        }
      }
    }
  }

  /** `entries` hold the encoding of these fields, perhaps among others. */
  lemma {:induction false} FieldsDecode(fields: seq<Field>, values: seq<Value>, entries: map<string, Json>)
    requires |values| == |fields| && forall i | 0 <= i < |fields| :: HasShape(fields[i].shape, values[i])
    requires NamesDiffer(fields) && forall f | f in fields :: ShapeOk(f.shape)
    requires var encoded := EncodeFields(fields, values);
             forall i | 0 <= i < |fields| ::
               var k := fields[i].name; (k in entries <==> k in encoded) && (k in encoded ==> entries[k] == encoded[k])
    ensures DecodeFields(fields, entries) == Some(ErasedItems(values))
    decreases fields, 2, 0
  {
    hide Decode, Encode, Erased, DecodeField, LeftOut, Default;
    if fields != [] {
      var rest := EncodeFields(fields[1..], values[1..]);
      EncodedKeys(fields[1..], values[1..]);
      FirstNotInRest(fields, values);
      FieldDecodes(fields[0], values[0], entries);
      forall i | 0 <= i < |fields[1..]|
        ensures var k := fields[1..][i].name; (k in entries <==> k in rest) && (k in rest ==> entries[k] == rest[k])
      {
        assert fields[i + 1].name != fields[0].name;
      }
      assert forall f | f in fields[1..] :: f in fields;
      FieldsDecode(fields[1..], values[1..], entries);
    }
  }

  lemma FirstNotInRest(fields: seq<Field>, values: seq<Value>)
    requires fields != [] && NamesDiffer(fields)
    requires |values| == |fields| && forall i | 0 <= i < |fields| :: HasShape(fields[i].shape, values[i])
    ensures fields[0].name !in EncodeFields(fields[1..], values[1..])
  {
    EncodedKeys(fields[1..], values[1..]);
    forall i | 0 <= i < |fields[1..]| ensures fields[1..][i].name != fields[0].name {
      assert fields[1..][i] == fields[i + 1];
    }
  }

  lemma {:induction false} FieldDecodes(f: Field, v: Value, entries: map<string, Json>)
    requires HasShape(f.shape, v) && ShapeOk(f.shape)
    requires f.name in entries <==> !LeftOut(f, v)
    requires f.name in entries ==> entries[f.name] == Encode(f.shape, v)
    ensures DecodeField(f, entries) == Some(Erased(v))
    decreases f, 1, 0
  {
    if f.name in entries {
      EncodedDecodes(f.shape, v);
    } else {
      DefaultHasShape(f.shape);
      ErasedIffNoFileName(v);
    }
  }

  // ---- which requests come through ----

  /** The request names a document by a non-empty plain string, at any depth. */
  predicate NamesFile(sh: Shape, j: Json)
    decreases sh
  {
    match sh
    case Document => j.JString? && j.s != ""
    case List(item) => j.JArray? && exists x :: x in j.items && NamesFile(item, x)
    case Optional(inner) => NamesFile(inner, j)
    case Struct(fields) => j.JObject? && exists f :: f in fields && FieldNamesFile(f, j.fields)
    case _ => false
  }

  predicate FieldNamesFile(f: Field, entries: map<string, Json>)
    decreases f
  {
    f.name in entries && NamesFile(f.shape, entries[f.name])
  }

  lemma {:induction false} NullNamesNoFile(sh: Shape)
    ensures !NamesFile(sh, JNull)
  {
    if sh.Optional? {
      NullNamesNoFile(sh.inner);
    }
  }

  /** Plain strings are all that puts file names into a decoded value. */
  lemma {:induction false} FileNamesDecoded(sh: Shape, j: Json)
    requires Decode(sh, j).Some?
    ensures NamesFile(sh, j) <==> HasFileName(Decode(sh, j).value)
    decreases sh, 1, 0
  {
    match sh {
      case List(item) => ItemFileNamesDecoded(item, j.items);
      case Optional(inner) =>
        if j.JNull? {
          NullNamesNoFile(inner);
        } else {
          FileNamesDecoded(inner, j);
        }
      case Struct(fields) => FieldFileNamesDecoded(fields, j.fields);
      case _ =>
    }
  }

  lemma {:induction false} ItemFileNamesDecoded(item: Shape, js: seq<Json>)
    requires DecodeItems(item, js).Some?
    ensures (exists x :: x in js && NamesFile(item, x)) <==>
              exists v :: v in DecodeItems(item, js).value && HasFileName(v)
    decreases item, 2, |js|
  {
    hide NamesFile, HasFileName, Decode;
    if js != [] {
      FileNamesDecoded(item, js[0]);
      ItemFileNamesDecoded(item, js[1..]);
      assert js == [js[0]] + js[1..];
      var v, vs := Decode(item, js[0]).value, DecodeItems(item, js[1..]).value;
      assert DecodeItems(item, js).value == [v] + vs;
    }
  }

  lemma {:induction false} FieldFileNamesDecoded(fields: seq<Field>, entries: map<string, Json>)
    requires DecodeFields(fields, entries).Some?
    ensures (exists f :: f in fields && FieldNamesFile(f, entries)) <==>
              exists v :: v in DecodeFields(fields, entries).value && HasFileName(v)
    decreases fields, 3, 0
  {
    hide FieldNamesFile, HasFileName, DecodeField;
    if fields != [] {
      FileNameDecoded(fields[0], entries);
      FieldFileNamesDecoded(fields[1..], entries);
      assert fields == [fields[0]] + fields[1..];
      var v, vs := DecodeField(fields[0], entries).value, DecodeFields(fields[1..], entries).value;
      assert DecodeFields(fields, entries).value == [v] + vs;
    }
  }

  lemma {:induction false} FileNameDecoded(f: Field, entries: map<string, Json>)
    requires DecodeField(f, entries).Some?
    ensures FieldNamesFile(f, entries) <==> HasFileName(DecodeField(f, entries).value)
    decreases f, 2, 0
  {
    if f.name in entries {
      FileNamesDecoded(f.shape, entries[f.name]);
    } else {
      DefaultHasShape(f.shape);
    }
  }

  /** What a handler gets: the request is decoded, encoded and decoded again. */
  function Delivered(sh: Shape, request: Json): Option<Value> {
    var v := Decode(sh, request);
    if v.None? then None else (DecodedHasShape(sh, request); Decode(sh, Encode(sh, v.value)))
  }

  /** The handler of a request sees what was sent exactly when the request names no document by a plain file name, at
    * any depth.
    */
  lemma ReencodingKeepsIff(sh: Shape, request: Json)
    requires ShapeOk(sh) && Decode(sh, request).Some?
    ensures Delivered(sh, request) == Decode(sh, request) <==> !NamesFile(sh, request)
  {
    var v := Decode(sh, request).value;
    DecodedHasShape(sh, request);
    EncodedDecodes(sh, v);
    ErasedIffNoFileName(v);
    FileNamesDecoded(sh, request);
  }

  // ---- the parameters that name documents ----

  const FILE_CHANGES := Struct([
    Field("invalidateAll", Flag, true), Field("changed", List(Document), true), Field("created", List(Document), true),
    Field("deleted", List(Document), true)])

  const UPDATE_SNAPSHOT_PARAMS := Struct([
    Field("openProject", Text, true), Field("fileChanges", Optional(FILE_CHANGES), true)])

  const DEFAULT_PROJECT_PARAMS := Struct([Field("snapshot", Text, false), Field("file", Document, false)])

  const DIAGNOSTICS_PARAMS := Struct([
    Field("snapshot", Text, false), Field("project", Text, false), Field("file", Optional(Document), true)])

  lemma FileChangesOk()
    ensures ShapeOk(FILE_CHANGES)
  {
    var fs := FILE_CHANGES.fields;
    assert fs[1].name[1] == 'h' && fs[2].name[1] == 'r' && fs[3].name[0] == 'd';
  }

  lemma UpdateSnapshotOk()
    ensures ShapeOk(UPDATE_SNAPSHOT_PARAMS)
  {
    FileChangesOk();
    hide NamesDiffer;
    var fs := UPDATE_SNAPSHOT_PARAMS.fields;
    TwoNames(fs[0], fs[1]);
    assert fs == [fs[0], fs[1]];
    assert ShapeOk(fs[0].shape);
    assert ShapeOk(fs[1].shape);
  }

  lemma DefaultProjectOk()
    ensures ShapeOk(DEFAULT_PROJECT_PARAMS)
  {
    var fs := DEFAULT_PROJECT_PARAMS.fields;
    TwoNames(fs[0], fs[1]);
  }

  lemma DiagnosticsOk()
    ensures ShapeOk(DIAGNOSTICS_PARAMS)
  {
    var fs := DIAGNOSTICS_PARAMS.fields;
    assert fs[0].name[0] == 's' && fs[1].name[0] == 'p' && fs[2].name[0] == 'f';
  }

  lemma TwoNames(f: Field, g: Field)
    requires f.name != g.name
    ensures NamesDiffer([f, g])
  {
  }

  predicate IsFileName(j: Json) {
    j.JString? && j.s != ""
  }

  /** The list under the key has a plain string among its entries. */
  predicate ListsFile(entries: map<string, Json>, key: string) {
    key in entries && entries[key].JArray? && exists x :: x in entries[key].items && IsFileName(x)
  }

  /** An update of a snapshot comes through exactly if no list of changed, created or deleted files has a plain
    * string.
    */
  lemma {:induction false} UpdateSnapshotKeepsIff(entries: map<string, Json>)
    requires Decode(UPDATE_SNAPSHOT_PARAMS, JObject(entries)).Some?
    ensures Delivered(UPDATE_SNAPSHOT_PARAMS, JObject(entries)) == Decode(UPDATE_SNAPSHOT_PARAMS, JObject(entries)) <==>
              !(&& "fileChanges" in entries && entries["fileChanges"].JObject?
                && var changes := entries["fileChanges"].fields;
                   ListsFile(changes, "changed") || ListsFile(changes, "created") || ListsFile(changes, "deleted"))
  {
    UpdateSnapshotOk();
    ReencodingKeepsIff(UPDATE_SNAPSHOT_PARAMS, JObject(entries));
    hide Delivered, Decode;
    var fs := UPDATE_SNAPSHOT_PARAMS.fields;
    assert !FieldNamesFile(fs[0], entries);
    assert fs == [fs[0], fs[1]];
    if "fileChanges" in entries {
      FileChangesNameFiles(entries["fileChanges"]);
    }
    assert fs[1] in fs;
  }

  lemma {:induction false} FileChangesNameFiles(j: Json)
    ensures NamesFile(FILE_CHANGES, j) <==>
              j.JObject? && (ListsFile(j.fields, "changed") || ListsFile(j.fields, "created")
                            || ListsFile(j.fields, "deleted"))
  {
    var fs := FILE_CHANGES.fields;
    assert fs == [fs[0], fs[1], fs[2], fs[3]];
    if j.JObject? {
      forall k | 0 <= k < 4 ensures FieldNamesFile(fs[k], j.fields) <==> k > 0 && ListsFile(j.fields, fs[k].name) {
        ListNamesFile(fs[k], j.fields);
      }
      assert fs[1] in fs && fs[2] in fs && fs[3] in fs;
    }
  }

  lemma ListNamesFile(f: Field, entries: map<string, Json>)
    ensures f.shape == List(Document) ==> (FieldNamesFile(f, entries) <==> ListsFile(entries, f.name))
    ensures f.shape == Flag ==> !FieldNamesFile(f, entries)
  {
    if f.name in entries && entries[f.name].JArray? {
      forall x | x in entries[f.name].items ensures NamesFile(Document, x) <==> IsFileName(x) {
      }
    }
  }

  /** A request for diagnostics comes through exactly if its optional file is no plain string. */
  lemma {:induction false} DiagnosticsKeepsIff(entries: map<string, Json>)
    requires Decode(DIAGNOSTICS_PARAMS, JObject(entries)).Some?
    ensures Delivered(DIAGNOSTICS_PARAMS, JObject(entries)) == Decode(DIAGNOSTICS_PARAMS, JObject(entries)) <==>
              !("file" in entries && IsFileName(entries["file"]))
  {
    DiagnosticsOk();
    ReencodingKeepsIff(DIAGNOSTICS_PARAMS, JObject(entries));
    hide Delivered, Decode;
    var fs := DIAGNOSTICS_PARAMS.fields;
    assert !FieldNamesFile(fs[0], entries) && !FieldNamesFile(fs[1], entries);
    assert fs == [fs[0], fs[1], fs[2]] && fs[2] in fs;
    assert FieldNamesFile(fs[2], entries) <==> "file" in entries && NamesFile(Document, entries["file"]);
  }

  lemma FieldsStep(f: Field, rest: seq<Field>, entries: map<string, Json>)
    requires DecodeField(f, entries).Some? && DecodeFields(rest, entries).Some?
    ensures DecodeFields([f] + rest, entries) ==
              Some([DecodeField(f, entries).value] + DecodeFields(rest, entries).value)
  {
    assert ([f] + rest)[1..] == rest;
  }

  lemma TwoFields(f: Field, g: Field, entries: map<string, Json>)
    requires DecodeField(f, entries).Some? && DecodeField(g, entries).Some?
    ensures DecodeFields([f, g], entries) == Some([DecodeField(f, entries).value, DecodeField(g, entries).value])
  {
    hide DecodeField;
    FieldsStep(g, [], entries);
    FieldsStep(f, [g], entries);
    assert [g] + [] == [g] && [f] + [g] == [f, g];
    var x, y := DecodeField(f, entries).value, DecodeField(g, entries).value;
    assert [y] + [] == [y] && [x] + [y] == [x, y];
  }

  /** Asking for the project of a file by its name, the handler is asked for the project of no file. */
  lemma DefaultProjectOfNoFile(snapshot: string, fileName: string)
    requires fileName != ""
    ensures var request := JObject(map["snapshot" := JString(snapshot), "file" := JString(fileName)]);
            && Decode(DEFAULT_PROJECT_PARAMS, request)
               == Some(StructValue([TextValue(snapshot), DocumentValue(fileName, "")]))
            && Delivered(DEFAULT_PROJECT_PARAMS, request)
               == Some(StructValue([TextValue(snapshot), DocumentValue("", "")]))
  {
    var entries := map["snapshot" := JString(snapshot), "file" := JString(fileName)];
    var fields := DEFAULT_PROJECT_PARAMS.fields;
    assert DecodeField(fields[1], entries) == Some(DocumentValue(fileName, ""));
    assert DecodeField(fields[0], entries) == Some(TextValue(snapshot));
    TwoFields(fields[0], fields[1], entries);
    assert fields == [fields[0], fields[1]];
    var v := StructValue([TextValue(snapshot), DocumentValue(fileName, "")]);
    assert DecodeFields(fields, entries) == Some(v.values);
    DefaultProjectOk();
    DecodedHasShape(DEFAULT_PROJECT_PARAMS, JObject(entries));
    EncodedDecodes(DEFAULT_PROJECT_PARAMS, v);
    assert Erased(v).values == [TextValue(snapshot), DocumentValue("", "")];
  }
}
