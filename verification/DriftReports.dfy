/** What a drift report says, change by change, in terms of the schema and the payload. */
module DriftReports {
  import opened Prelude
  import opened Json
  import opened SchemaDrift

  predicate IsInt(r: real, i: Int64) {
    r == i as real
  }

  /** The JSON type of a value; a number is an integer when some 64-bit integer equals it. */
  ghost predicate IsOf(v: Json, t: TypeName) {
    match t
    case TNull => v.Null?
    case TString => v.Str?
    case TBoolean => v.Bool?
    case TInteger => v.Num? && exists i: Int64 :: IsInt(v.r, i)
    case TNumber => v.Num? && forall i: Int64 :: !IsInt(v.r, i)
    case TArray => v.Arr?
    case TObject => v.Obj?
    case _ => false
  }

  lemma IntegralIff(r: real)
    ensures IsIntegral(r) <==> exists i: Int64 :: IsInt(r, i)
  {
    if IsIntegral(r) {
      var i: Int64 := r.Floor;
      assert IsInt(r, i);
    }
  }

  lemma TypeOfIs(v: Json, t: TypeName)
    ensures IsOf(v, t) <==> TypeOf(v) == t
  {
    if v.Num? {
      IntegralIff(v.r);
    }
  }

  /** The change holds of this node and this payload at the place `rest` below them: a value of another type than the
      schema's, a required member that is absent or null, or a member the schema does not know. Members are looked at
      where the schema says object, or nothing, and elements, the first one, where it says array. */
  ghost predicate Holds(node: Schema, payload: Json, rest: Location, c: Change)
    decreases |rest|
  {
    if rest == [] then
      && c.kind.TypeMismatch? && c.expected == node.typ && IsOf(payload, c.actual)
      && !node.typ.Untyped? && !payload.Null? && c.actual != node.typ && !(node.typ.TNumber? && c.actual.TInteger?)
    else if rest[0].Elements? then
      && node.typ.TArray? && node.items.Some? && payload.Arr? && payload.items != []
      && Holds(node.items.value, payload.items[0], rest[1..], c)
    else
      var k := rest[0].name;
      && (node.typ.TObject? || node.typ.Untyped?)
      && (|| (&& rest[1..] == [] && c.kind.FieldMissing? && k in node.required
              && (payload.Null? || (payload.Obj? && (k in payload.members ==> payload.members[k].Null?)))
              && c.expected == TOther("required") && c.actual == TOther("missing"))
          || (&& rest[1..] == [] && c.kind.FieldAdded?
              && payload.Obj? && k in payload.members && k !in node.properties
              && c.expected == TOther("undefined") && IsOf(payload.members[k], c.actual))
          || (&& payload.Obj? && k in payload.members && k in node.properties
              && Holds(node.properties[k], payload.members[k], rest[1..], c)))
  }

  // ----- membership in the parts of a comparison

  lemma {:induction false} MissingIn(path: Location, required: seq<string>, payload: Json, c: Change)
    ensures c in MissingFields(path, required, payload)
       <==> exists k | k in required :: Absent(payload, k) && c == Missing(path + [Member(k)])
  {
    if required != [] {
      MissingIn(path, required[1..], payload, c);
      assert required == [required[0]] + required[1..];
    }
  }

  lemma {:induction false} InMembers(path: Location, properties: map<string, Schema>, payload: Json, keys: seq<string>,
                                     c: Change)
    ensures c in CompareMembers(path, properties, payload, keys)
       <==> exists k | k in keys :: c in CompareMember(path, properties, payload, k)
    decreases |keys|
  {
    if keys != [] {
      var rest := keys[1..];
      InMembers(path, properties, payload, rest, c);
      if k :| k in keys && c in CompareMember(path, properties, payload, k) {
        assert k == keys[0] || k in rest;
      }
      if k :| k in rest && c in CompareMember(path, properties, payload, k) {
        assert k in keys;
      }
      assert keys[0] in keys;
    }
  }

  /** The change is told at its own place, below `path`. */
  ghost predicate Told(path: Location, node: Schema, payload: Json, c: Change) {
    path <= c.at && Holds(node, payload, c.at[|path|..], c)
  }

  /** Where the next step below `path` leads. */
  predicate Goes(path: Location, at: Location, step: Step) {
    path + [step] <= at
  }

  lemma NextStep(path: Location, at: Location, step: Step)
    ensures Goes(path, at, step) <==> path <= at && |at| > |path| && at[|path|] == step
    ensures Goes(path, at, step) ==> at[|path|..][1..] == at[|path + [step]|..] && at[|path|..][0] == step
  {
    assert path <= at && |at| > |path| && at[|path|] == step ==> at[..|path| + 1] == path + [step];
  }

  lemma OneMissing(path: Location, node: Schema, payload: Json, k: string, c: Change)
    requires (node.typ.TObject? || node.typ.Untyped?) && (payload.Null? || payload.Obj?)
    requires k in node.required && Absent(payload, k) && c == Missing(path + [Member(k)])
    ensures Told(path, node, payload, c)
  {
    NextStep(path, c.at, Member(k));
    assert c.at[|path|..] == [Member(k)] && [Member(k)][1..] == [];
  }

  /** A change of one member is told of the object. */
  lemma OneMember(path: Location, node: Schema, payload: Json, k: string, c: Change)
    requires (node.typ.TObject? || node.typ.Untyped?) && payload.Obj? && k in payload.members
    requires if k in node.properties then Told(path + [Member(k)], node.properties[k], payload.members[k], c)
             else c == Added(path + [Member(k)], payload.members[k])
    ensures Told(path, node, payload, c)
  {
    NextStep(path, c.at, Member(k));
    if k !in node.properties {
      TypeOfIs(payload.members[k], c.actual);
      assert c.at[|path|..] == [Member(k)] && [Member(k)][1..] == [];
    }
  }

  /** What is told of an object below `path` is a missing field, or a change of one member. */
  lemma ObjectTold(path: Location, node: Schema, payload: Json, c: Change) returns (k: string)
    requires (node.typ.TObject? || node.typ.Untyped?) && (payload.Null? || payload.Obj?) && Told(path, node, payload, c)
    ensures || (k in node.required && Absent(payload, k) && c == Missing(path + [Member(k)]))
            || (payload.Obj? && k in payload.members
                && if k in node.properties then Told(path + [Member(k)], node.properties[k], payload.members[k], c)
                   else c == Added(path + [Member(k)], payload.members[k]))
  {
    var rest := c.at[|path|..];
    TypeOfIs(payload, c.actual);
    k := rest[0].name;
    NextStep(path, c.at, Member(k));
    if rest[1..] == [] {
      assert c.at == path + rest && rest == [Member(k)];
    }
    if payload.Obj? && k in payload.members {
      TypeOfIs(payload.members[k], c.actual);
    }
  }

  lemma InMember(path: Location, node: Schema, payload: Json, k: string, c: Change)
    requires payload.Obj? && k in payload.members
    ensures c in CompareMember(path, node.properties, payload, k)
       <==> if k in node.properties then c in Compare(path + [Member(k)], node.properties[k], payload.members[k])
            else c == Added(path + [Member(k)], payload.members[k])
  {
  }

  /** A comparison reports exactly the changes that hold, each at its place, and says of each what it is. */
  lemma {:induction false} ReportsWhatHolds(path: Location, node: Schema, payload: Json, c: Change)
    ensures c in Compare(path, node, payload) <==> Told(path, node, payload, c)
    decreases payload, 1
  {
    TypeOfIs(payload, c.actual);
    if !node.typ.Untyped? && !payload.Null? && !Compatible(node.typ, TypeOf(payload)) {
      MismatchAlone(path, node, payload, c);
    } else if node.typ.TObject? || node.typ.Untyped? {
      if payload.Null? || payload.Obj? {
        ObjectReports(path, node, payload, c);
      } else {
        NothingBelow(path, node, payload, c);
      }
    } else if node.typ.TArray? && payload.Arr? && payload.items != [] && node.items.Some? {
      ReportsWhatHolds(path + [Elements], node.items.value, payload.items[0], c);
      NextStep(path, c.at, Elements);
    } else {
      NothingBelow(path, node, payload, c);
    }
  }

  lemma MismatchAlone(path: Location, node: Schema, payload: Json, c: Change)
    requires !node.typ.Untyped? && !payload.Null? && !Compatible(node.typ, TypeOf(payload))
    ensures c == Mismatch(path, node.typ, payload) <==> Told(path, node, payload, c)
  {
    TypeOfIs(payload, c.actual);
    assert path <= c.at && c.at[|path|..] == [] ==> c.at == path;
  }

  lemma NothingBelow(path: Location, node: Schema, payload: Json, c: Change)
    requires node.typ.Untyped? || payload.Null? || Compatible(node.typ, TypeOf(payload))
    requires node.typ.TObject? || node.typ.Untyped? ==> !payload.Null? && !payload.Obj?
    requires !(node.typ.TArray? && payload.Arr? && payload.items != [] && node.items.Some?)
    ensures !Told(path, node, payload, c)
  {
    TypeOfIs(payload, c.actual);
  }

  lemma ObjectReports(path: Location, node: Schema, payload: Json, c: Change)
    requires (node.typ.TObject? || node.typ.Untyped?) && (payload.Null? || payload.Obj?)
    ensures c in Compare(path, node, payload) <==> Told(path, node, payload, c)
    decreases payload, 0
  {
    MissingIn(path, node.required, payload, c);
    if c in MissingFields(path, node.required, payload) {
      var k :| k in node.required && Absent(payload, k) && c == Missing(path + [Member(k)]);
      OneMissing(path, node, payload, k, c);
    }
    if payload.Obj? {
      var keys := SortedKeys(payload.members.Keys);
      InMembers(path, node.properties, payload, keys, c);
      forall k | k in payload.members
        ensures c in CompareMember(path, node.properties, payload, k)
           <==> if k in node.properties then Told(path + [Member(k)], node.properties[k], payload.members[k], c)
                else c == Added(path + [Member(k)], payload.members[k])
      {
        InMember(path, node, payload, k, c);
        if k in node.properties {
          ReportsWhatHolds(path + [Member(k)], node.properties[k], payload.members[k], c);
        }
      }
      if k :| k in keys && c in CompareMember(path, node.properties, payload, k) {
        OneMember(path, node, payload, k, c);
      }
    }
    if Told(path, node, payload, c) {
      var k := ObjectTold(path, node, payload, c);
      assert payload.Obj? && k in payload.members ==> k in SortedKeys(payload.members.Keys);
    }
  }

  /** Of a whole report: exactly what holds is in it. */
  lemma DriftReportIsExact(baseline: Schema, payload: Json, report: Report, c: Change)
    requires report.changes == Compare([], baseline, payload)
    ensures c in report.changes <==> Holds(baseline, payload, c.at, c)
  {
    ReportsWhatHolds([], baseline, payload, c);
    assert c.at[0..] == c.at;
  }

  // ----- each once, and in order

  predicate Distinct(cs: seq<Change>) {
    forall i, j | 0 <= i < j < |cs| :: cs[i] != cs[j]
  }

  lemma DistinctConcat(a: seq<Change>, b: seq<Change>)
    requires Distinct(a) && Distinct(b) && forall c | c in a :: c !in b
    ensures Distinct(a + b)
  {
    forall i, j | 0 <= i < j < |a + b|
      ensures (a + b)[i] != (a + b)[j]
    {
      if i < |a| <= j {
        assert a[i] in a && b[j - |a|] in b;
      }
    }
  }

  /** No schema in it names a required member twice, as no inferred one does. */
  ghost predicate RequiredOnce(node: Schema)
    decreases node
  {
    && NoRepeats(node.required)
    && (forall k | k in node.properties :: RequiredOnce(node.properties[k]))
    && (node.items.Some? ==> RequiredOnce(node.items.value))
  }

  lemma {:induction false} InferredOnce(p: Json)
    ensures RequiredOnce(Infer(p))
  {
    match p
    case Arr(items) => if items != [] { InferredOnce(items[0]); }
    case Obj(members) =>
      SortedKeysAscend(members.Keys);
      forall k | k in members ensures RequiredOnce(Infer(members[k])) { InferredOnce(members[k]); }
    case _ =>
  }

  lemma {:induction false} MissingOnce(path: Location, required: seq<string>, payload: Json)
    requires NoRepeats(required)
    ensures Distinct(MissingFields(path, required, payload))
  {
    if required != [] {
      var rest := required[1..];
      MissingOnce(path, rest, payload);
      var first := Missing(path + [Member(required[0])]);
      MissingIn(path, rest, payload, first);
      forall k | k in rest
        ensures first != Missing(path + [Member(k)])
      {
        assert (path + [Member(k)])[|path|] == Member(k);
        assert (path + [Member(required[0])])[|path|] == Member(required[0]);
      }
      DistinctConcat(if Absent(payload, required[0]) then [first] else [], MissingFields(path, rest, payload));
    }
  }

  /** The changes of a member lie at or below it. */
  lemma MemberPlace(path: Location, properties: map<string, Schema>, payload: Json, k: string, c: Change)
    requires c in CompareMember(path, properties, payload, k)
    ensures |c.at| > |path| && c.at[|path|] == Member(k)
    ensures c.kind.FieldMissing? ==> c.at != path + [Member(k)]
  {
    if k in properties {
      ReportsWhatHolds(path + [Member(k)], properties[k], payload.members[k], c);
    }
  }

  lemma {:induction false} EachOnce(path: Location, node: Schema, payload: Json)
    requires RequiredOnce(node)
    ensures Distinct(Compare(path, node, payload))
    decreases payload, 2, 0
  {
    if !node.typ.Untyped? && !payload.Null? && !Compatible(node.typ, TypeOf(payload)) {
    } else if node.typ.TObject? || node.typ.Untyped? {
      MissingOnce(path, node.required, payload);
      if payload.Obj? {
        var keys := SortedKeys(payload.members.Keys);
        SortedKeysAscend(payload.members.Keys);
        MembersOnce(path, node, payload, keys);
        forall c | c in MissingFields(path, node.required, payload)
          ensures c !in CompareMembers(path, node.properties, payload, keys)
        {
          MissingIn(path, node.required, payload, c);
          InMembers(path, node.properties, payload, keys, c);
          if k :| k in keys && c in CompareMember(path, node.properties, payload, k) {
            MemberPlace(path, node.properties, payload, k, c);
          }
        }
        DistinctConcat(MissingFields(path, node.required, payload),
                       CompareMembers(path, node.properties, payload, keys));
      }
    } else if node.typ.TArray? && payload.Arr? && payload.items != [] && node.items.Some? {
      EachOnce(path + [Elements], node.items.value, payload.items[0]);
    }
  }

  lemma {:induction false} MembersOnce(path: Location, node: Schema, payload: Json, keys: seq<string>)
    requires RequiredOnce(node) && NoRepeats(keys)
    ensures Distinct(CompareMembers(path, node.properties, payload, keys))
    decreases payload, 1, |keys|
  {
    if keys != [] {
      var k, rest := keys[0], keys[1..];
      MembersOnce(path, node, payload, rest);
      if payload.Obj? && k in payload.members && k in node.properties {
        EachOnce(path + [Member(k)], node.properties[k], payload.members[k]);
      }
      forall c | c in CompareMember(path, node.properties, payload, k)
        ensures c !in CompareMembers(path, node.properties, payload, rest)
      {
        MemberPlace(path, node.properties, payload, k, c);
        InMembers(path, node.properties, payload, rest, c);
        if other :| other in rest && c in CompareMember(path, node.properties, payload, other) {
          MemberPlace(path, node.properties, payload, other, c);
        }
      }
      DistinctConcat(CompareMember(path, node.properties, payload, k),
                     CompareMembers(path, node.properties, payload, rest));
    }
  }

  /** A report against an inferred schema says nothing twice. */
  lemma DriftReportSaysOnce(sample: Json, payload: Json, report: Report)
    requires report.changes == Compare([], Infer(sample), payload)
    ensures Distinct(report.changes)
  {
    InferredOnce(sample);
    EachOnce([], Infer(sample), payload);
  }

  /** One after the other by the name of the member they concern. */
  predicate ByMember(cs: seq<Change>, depth: nat) {
    && (forall i | 0 <= i < |cs| :: |cs[i].at| > depth && cs[i].at[depth].Member?)
    && (forall i, j | 0 <= i <= j < |cs| :: AtMost(cs[i].at[depth].name, cs[j].at[depth].name))
  }

  lemma {:induction false} MembersInOrder(path: Location, properties: map<string, Schema>, payload: Json,
                                          keys: seq<string>)
    requires Ascending(keys)
    ensures ByMember(CompareMembers(path, properties, payload, keys), |path|)
    decreases |keys|
  {
    if keys != [] {
      var k, rest := keys[0], keys[1..];
      var own, others := CompareMember(path, properties, payload, k), CompareMembers(path, properties, payload, rest);
      MembersInOrder(path, properties, payload, rest);
      AtMostTotal(k, k);
      forall i | 0 <= i < |own| ensures |own[i].at| > |path| && own[i].at[|path|] == Member(k) {
        MemberPlace(path, properties, payload, k, own[i]);
      }
      forall j | 0 <= j < |others| ensures AtMost(k, others[j].at[|path|].name) {
        InMembers(path, properties, payload, rest, others[j]);
        var other :| other in rest && others[j] in CompareMember(path, properties, payload, other);
        MemberPlace(path, properties, payload, other, others[j]);
      }
    }
  }

  /** Of an object: first what it lacks, then its members one by one in the order of their names. */
  lemma ObjectInOrder(path: Location, node: Schema, payload: Json) returns (n: nat)
    requires (node.typ.TObject? || node.typ.Untyped?) && payload.Obj?
    ensures var cs := Compare(path, node, payload);
      && n <= |cs| && ByMember(cs[n..], |path|)
      && forall i | 0 <= i < n :: cs[i].kind.FieldMissing? && |cs[i].at| == |path| + 1
  {
    var keys := SortedKeys(payload.members.Keys);
    var missing, members := MissingFields(path, node.required, payload),
                            CompareMembers(path, node.properties, payload, keys);
    SortedKeysAscend(payload.members.Keys);
    MembersInOrder(path, node.properties, payload, keys);
    n := |missing|;
    SplitConcat(missing, members);
    forall i | 0 <= i < n ensures missing[i].kind.FieldMissing? && |missing[i].at| == |path| + 1 {
      MissingIn(path, node.required, payload, missing[i]);
    }
  }
}
