/** Schema inference from a sample payload, and the structural comparison of a payload against a schema. */
module SchemaDrift {
  import opened Prelude
  import opened Json

  /** The "type" keyword: absent or not a string, one of the JSON types, or some other string. */
  datatype TypeName =
    Untyped | TNull | TString | TBoolean | TInteger | TNumber | TArray | TObject | TOther(name: string)

  /** A schema document as the comparison reads it: properties that are not objects count as undeclared,
      required names that are not strings are skipped, items that are not an object count as absent. */
  datatype Schema = Schema(typ: TypeName, properties: map<string, Schema>, required: seq<string>, items: Option<Schema>)

  // ----- inference

  /** A float64 equal to its own conversion to int64. */
  predicate IsIntegral(r: real) {
    r == r.Floor as real && MIN_INT64 <= r.Floor <= MAX_INT64
  }

  function TypeOf(v: Json): TypeName {
    match v
    case Null => TNull
    case Str(_) => TString
    case Bool(_) => TBoolean
    case Num(r) => if IsIntegral(r) then TInteger else TNumber
    case Arr(_) => TArray
    case Obj(_) => TObject
  }

  function Typed(t: TypeName): Schema {
    Schema(t, map[], [], None)
  }

  ghost function Infer(v: Json): Schema {
    match v
    case Arr(items) => Typed(TArray).(items := Some(if items == [] then Typed(Untyped) else Infer(items[0])))
    case Obj(members) =>
      Schema(TObject, map k | k in members :: Infer(members[k]), SortedKeys(members.Keys), None)
    case _ => Typed(TypeOf(v))
  }

  method InferValue(v: Json) returns (schema: Schema)
    ensures schema == Infer(v)
    decreases v, 1
  {
    match v
    case Null => schema := Typed(TNull);
    case Str(_) => schema := Typed(TString);
    case Bool(_) => schema := Typed(TBoolean);
    case Num(r) =>
      if IsIntegral(r) {
        schema := Typed(TInteger);
      } else {
        schema := Typed(TNumber);
      }
    case Arr(items) =>
      if |items| == 0 {
        schema := Typed(TArray).(items := Some(Typed(Untyped)));
      } else {
        var itemSchema := InferValue(items[0]);
        schema := Typed(TArray).(items := Some(itemSchema));
      }
    case Obj(members) =>
      schema := InferObject(v);
  }

  method InferObject(v: Json) returns (schema: Schema)
    requires v.Obj?
    ensures schema == Infer(v)
    decreases v, 0
  {
    var keys := SortStrings(v.members.Keys);
    var properties: map<string, Schema> := map[];
    var required: seq<string> := [];
    for n := 0 to |keys|
      invariant required == keys[..n]
      invariant forall k :: k in properties <==> k in keys[..n]
      invariant forall k | k in properties :: k in v.members && properties[k] == Infer(v.members[k])
    {
      var k := keys[n];
      assert k in keys;
      TakeOneMore(keys, n);
      var inferred := InferValue(v.members[k]);
      properties := properties[k := inferred];
      required := required + [k];
    }
    TakeAll(keys);
    schema := Schema(TObject, properties, required, None);
  }

  // ----- comparison

  datatype ChangeKind = FieldAdded | FieldMissing | TypeMismatch

  /** A place in a document: into a member, or into the elements of an array. */
  datatype Step = Member(name: string) | Elements

  type Location = seq<Step>

  datatype Change = Change(at: Location, kind: ChangeKind, expected: TypeName, actual: TypeName)

  function AppendPath(base: string, child: string): string {
    var bracket := child != [] && child[0] == '[';
    if base == "" then (if bracket then "$" + child else "$." + child)
    else if bracket then base + child else base + "." + child
  }

  /** The path the source carries down the recursion. */
  function PathTo(at: Location): string {
    if at == [] then ""
    else
      var last := at[|at| - 1];
      AppendPath(PathTo(at[..|at| - 1]), if last.Member? then last.name else "[*]")
  }

  /** The path a report shows for a change. */
  function ShownPath(at: Location): string {
    if PathTo(at) == "" then "$" else PathTo(at)
  }

  lemma PathToOneMore(at: Location, name: string)
    ensures PathTo(at + [Member(name)]) == AppendPath(PathTo(at), name)
  {
    assert (at + [Member(name)])[..|at|] == at;
  }

  lemma PathToMember(name: string)
    requires name != [] && name[0] != '['
    ensures PathTo([Member(name)]) == "$." + name
  {
    PathToOneMore([], name);
    assert [] + [Member(name)] == [Member(name)];
  }

  /** Different places can show the same path: a member name with a dot reads like two members. */
  lemma ShownPathsCollide(a: string, b: string)
    requires a != [] && a[0] != '[' && b != [] && b[0] != '['
    ensures ShownPath([Member(a), Member(b)]) == ShownPath([Member(a + "." + b)])
  {
    PathToMember(a);
    PathToOneMore([Member(a)], b);
    assert [Member(a)] + [Member(b)] == [Member(a), Member(b)];
    PathToMember(a + "." + b);
    ConcatAssociates("$." + a, ".", b);
    ConcatAssociates("$.", a, "." + b);
    ConcatAssociates(a, ".", b);
  }

  predicate Compatible(expected: TypeName, actual: TypeName) {
    expected == actual || (expected.TNumber? && actual.TInteger?)
  }

  /** payloadMap == nil || payloadMap[name] == nil */
  predicate Absent(payload: Json, name: string) {
    !payload.Obj? || name !in payload.members || payload.members[name].Null?
  }

  function Mismatch(path: Location, expected: TypeName, v: Json): Change {
    Change(path, TypeMismatch, expected, TypeOf(v))
  }

  function Missing(path: Location): Change {
    Change(path, FieldMissing, TOther("required"), TOther("missing"))
  }

  function Added(path: Location, v: Json): Change {
    Change(path, FieldAdded, TOther("undefined"), TypeOf(v))
  }

  function MissingFields(path: Location, required: seq<string>, payload: Json): seq<Change> {
    if required == [] then []
    else
      (if Absent(payload, required[0]) then [Missing(path + [Member(required[0])])] else [])
      + MissingFields(path, required[1..], payload)
  }

  ghost function CompareMember(path: Location, properties: map<string, Schema>, payload: Json, k: string): seq<Change>
    decreases payload, 0, 0
  {
    var here := path + [Member(k)];
    if !payload.Obj? || k !in payload.members then []
    else if k in properties then Compare(here, properties[k], payload.members[k])
    else [Added(here, payload.members[k])]
  }

  ghost function CompareMembers(path: Location, properties: map<string, Schema>, payload: Json, keys: seq<string>)
    : seq<Change>
    decreases payload, 1, |keys|
  {
    if keys == [] then []
    else CompareMember(path, properties, payload, keys[0]) + CompareMembers(path, properties, payload, keys[1..])
  }

  ghost function Compare(path: Location, node: Schema, payload: Json): seq<Change>
    decreases payload, 2, 0
  {
    if !node.typ.Untyped? && !payload.Null? && !Compatible(node.typ, TypeOf(payload)) then
      [Mismatch(path, node.typ, payload)]
    else if node.typ.TObject? || node.typ.Untyped? then
      if payload.Null? then MissingFields(path, node.required, payload)
      else if payload.Obj? then
        MissingFields(path, node.required, payload)
        + CompareMembers(path, node.properties, payload, SortedKeys(payload.members.Keys))
      else []
    else if node.typ.TArray? && payload.Arr? && payload.items != [] && node.items.Some? then
      Compare(path + [Elements], node.items.value, payload.items[0])
    else []
  }

  class ChangeList {
    var changes: seq<Change>

    constructor ()
      ensures changes == []
    {
      changes := [];
    }
  }

  method CompareNode(path: Location, node: Schema, payload: Json, log: ChangeList)
    modifies log
    ensures log.changes == old(log.changes) + Compare(path, node, payload)
    decreases payload, 2
  {
    if node.typ != Untyped && payload != Null {
      var actual := TypeOf(payload);
      if !Compatible(node.typ, actual) {
        log.changes := log.changes + [Mismatch(path, node.typ, payload)];
        return;
      }
    }
    if node.typ == TObject || node.typ == Untyped {
      if !payload.Obj? && payload != Null {
        return;
      }
      CheckRequired(path, node.required, payload, log);
      if payload == Null {
        return;
      }
      var payloadKeys := SortStrings(payload.members.Keys);
      assert forall i | 0 <= i < |payloadKeys| :: payloadKeys[i] in payloadKeys;
      CheckMembers(path, node.properties, payload, payloadKeys, log);
      ConcatAssociates(old(log.changes), MissingFields(path, node.required, payload),
                       CompareMembers(path, node.properties, payload, payloadKeys));
      return;
    }
    if node.typ == TArray {
      if !payload.Arr? || |payload.items| == 0 {
        return;
      }
      if node.items.Some? {
        CompareNode(path + [Elements], node.items.value, payload.items[0], log);
      }
    }
  }

  lemma {:induction false} MissingFieldsExtend(path: Location, required: seq<string>, name: string, payload: Json)
    ensures MissingFields(path, required + [name], payload)
         == MissingFields(path, required, payload) + MissingFields(path, [name], payload)
  {
    if required != [] {
      MissingFieldsExtend(path, required[1..], name, payload);
      assert (required + [name])[1..] == required[1..] + [name];
    }
  }

  method CheckRequired(path: Location, required: seq<string>, payload: Json, log: ChangeList)
    modifies log
    ensures log.changes == old(log.changes) + MissingFields(path, required, payload)
  {
    for n := 0 to |required|
      invariant log.changes == old(log.changes) + MissingFields(path, required[..n], payload)
    {
      MissingFieldsExtend(path, required[..n], required[n], payload);
      TakeOneMore(required, n);
      if Absent(payload, required[n]) {
        log.changes := log.changes + [Missing(path + [Member(required[n])])];
      }
    }
    TakeAll(required);
  }

  lemma {:induction false} CompareMembersExtend(path: Location, properties: map<string, Schema>, payload: Json,
                                                keys: seq<string>, k: string)
    ensures CompareMembers(path, properties, payload, keys + [k])
         == CompareMembers(path, properties, payload, keys) + CompareMember(path, properties, payload, k)
  {
    if keys == [] {
      assert keys + [k] == [k] && [k][1..] == [];
      assert CompareMembers(path, properties, payload, []) == [];
    } else {
      CompareMembersExtend(path, properties, payload, keys[1..], k);
      assert (keys + [k])[1..] == keys[1..] + [k];
      ConcatAssociates(CompareMember(path, properties, payload, keys[0]),
                       CompareMembers(path, properties, payload, keys[1..]),
                       CompareMember(path, properties, payload, k));
    }
  }

  method CheckMembers(path: Location, properties: map<string, Schema>, payload: Json, keys: seq<string>,
                      log: ChangeList)
    requires payload.Obj? && forall i | 0 <= i < |keys| :: keys[i] in payload.members
    modifies log
    ensures log.changes == old(log.changes) + CompareMembers(path, properties, payload, keys)
    decreases payload, 1
  {
    for n := 0 to |keys|
      invariant log.changes == old(log.changes) + CompareMembers(path, properties, payload, keys[..n])
    {
      TakeOneMore(keys, n);
      CompareMembersExtend(path, properties, payload, keys[..n], keys[n]);
      ConcatAssociates(old(log.changes), CompareMembers(path, properties, payload, keys[..n]),
                       CompareMember(path, properties, payload, keys[n]));
      CheckMember(path, properties, payload, keys[n], log);
    }
    TakeAll(keys);
  }

  method CheckMember(path: Location, properties: map<string, Schema>, payload: Json, k: string, log: ChangeList)
    requires payload.Obj? && k in payload.members
    modifies log
    ensures log.changes == old(log.changes) + CompareMember(path, properties, payload, k)
    decreases payload, 0
  {
    var here := path + [Member(k)];
    if k in properties {
      CompareNode(here, properties[k], payload.members[k], log);
    } else {
      log.changes := log.changes + [Added(here, payload.members[k])];
    }
  }

  // ----- the report

  datatype Severity = NoDrift | NonBreaking | Breaking

  datatype Report = Report(severity: Severity, changes: seq<Change>)

  method DetectDrift(baseline: Schema, payload: Json) returns (report: Report)
    ensures report.changes == Compare([], baseline, payload)
    ensures report.severity.NoDrift? <==> report.changes == []
    ensures report.severity.Breaking? <==> exists i :: 0 <= i < |report.changes| && !report.changes[i].kind.FieldAdded?
  {
    var log := new ChangeList();
    CompareNode([], baseline, payload, log);
    var changes := log.changes;
    if |changes| == 0 {
      return Report(NoDrift, []);
    }
    var severity := NonBreaking;
    for n := 0 to |changes|
      invariant severity.NonBreaking? && forall i | 0 <= i < n :: changes[i].kind.FieldAdded?
    {
      if changes[n].kind.FieldMissing? || changes[n].kind.TypeMismatch? {
        return Report(Breaking, changes);
      }
    }
    return Report(severity, changes);
  }
}
