/** What the drift report against an inferred baseline means, in terms of the two payloads alone. */
module DriftTheorems {
  import opened Prelude
  import opened Json
  import opened SchemaDrift

  // ----- the shape of a payload

  /** q looks like p to the byte of its structure: the same scalar types (a fraction also admits a whole number),
      arrays alike in their first elements, and objects with the same members, none of them null. A null
      stands for anything without members, except inside an object. */
  ghost predicate SameShape(p: Json, q: Json) {
    match p
    case Null => q.Null?
    case Bool(_) => q.Null? || q.Bool?
    case Str(_) => q.Null? || q.Str?
    case Num(r) => q.Null? || (q.Num? && (IsIntegral(r) ==> IsIntegral(q.r)))
    case Arr(ps) =>
      q.Null? || (q.Arr? &&
        (q.items == []
         || (if ps == [] then q.items[0].Obj? ==> q.items[0].members == map[] else SameShape(ps[0], q.items[0]))))
    case Obj(m) =>
      (q.Null? && m == map[]) ||
      (q.Obj? && q.members.Keys == m.Keys && forall k | k in m :: !q.members[k].Null? && SameShape(m[k], q.members[k]))
  }

  /** q has p's shape, with members of its own besides. */
  ghost predicate ShapeWithExtras(p: Json, q: Json) {
    match p
    case Null => q.Null?
    case Bool(_) => q.Null? || q.Bool?
    case Str(_) => q.Null? || q.Str?
    case Num(r) => q.Null? || (q.Num? && (IsIntegral(r) ==> IsIntegral(q.r)))
    case Arr(ps) => q.Null? || (q.Arr? && (q.items == [] || ps == [] || ShapeWithExtras(ps[0], q.items[0])))
    case Obj(m) =>
      (q.Null? && m == map[]) ||
      (q.Obj? && m.Keys <= q.members.Keys
       && forall k | k in m :: !q.members[k].Null? && ShapeWithExtras(m[k], q.members[k]))
  }

  lemma {:induction false} SameShapeHasNoExtras(p: Json, q: Json)
    requires SameShape(p, q)
    ensures ShapeWithExtras(p, q)
  {
    if p.Arr? && q.Arr? && q.items != [] && p.items != [] {
      SameShapeHasNoExtras(p.items[0], q.items[0]);
    } else if p.Obj? && q.Obj? {
      forall k | k in p.members ensures ShapeWithExtras(p.members[k], q.members[k]) {
        SameShapeHasNoExtras(p.members[k], q.members[k]);
      }
    }
  }

  // ----- three-way classification

  /** Nothing reported; or, leniently, only added fields. */
  predicate Clean(cs: seq<Change>, strict: bool) {
    if strict then cs == [] else forall i | 0 <= i < |cs| :: cs[i].kind.FieldAdded?
  }

  ghost predicate Fits(p: Json, q: Json, strict: bool) {
    if strict then SameShape(p, q) else ShapeWithExtras(p, q)
  }

  lemma CleanConcat(a: seq<Change>, b: seq<Change>, strict: bool)
    ensures Clean(a + b, strict) <==> Clean(a, strict) && Clean(b, strict)
  {
    if Clean(a + b, strict) {
      assert forall i | 0 <= i < |a| :: a[i] == (a + b)[i];
      assert forall i | 0 <= i < |b| :: b[i] == (a + b)[|a| + i];
    }
  }

  lemma InHeadOrTail(keys: seq<string>, k: string)
    requires keys != []
    ensures k in keys <==> k == keys[0] || k in keys[1..]
  {
    assert keys == [keys[0]] + keys[1..];
  }

  ghost predicate NoneAbsent(q: Json, required: seq<string>) {
    forall k | k in required :: !Absent(q, k)
  }

  lemma {:induction false} MissingFieldsClean(path: Location, required: seq<string>, q: Json, strict: bool)
    ensures Clean(MissingFields(path, required, q), strict) <==> NoneAbsent(q, required)
  {
    if required != [] {
      var change := Missing(path + [Member(required[0])]);
      var head := if Absent(q, required[0]) then [change] else [];
      assert Clean([change], strict) <==> false by { assert [change][0].kind.FieldMissing?; }
      CleanConcat(head, MissingFields(path, required[1..], q), strict);
      MissingFieldsClean(path, required[1..], q, strict);
      forall k ensures k in required <==> k == required[0] || k in required[1..] { InHeadOrTail(required, k); }
    }
  }

  /** A member against the inferred properties: a declared one must fit, any other is an extra. */
  ghost predicate MemberFits(m: map<string, Json>, q: Json, k: string, strict: bool) {
    q.Obj? && k in q.members && if k in m then Fits(m[k], q.members[k], strict) else !strict
  }

  ghost predicate AllFit(m: map<string, Json>, q: Json, keys: seq<string>, strict: bool) {
    forall k | k in keys :: MemberFits(m, q, k, strict)
  }

  ghost function InferredProperties(m: map<string, Json>): map<string, Schema> {
    map k | k in m :: Infer(m[k])
  }

  lemma {:induction false} MemberClassified(path: Location, m: map<string, Json>, q: Json, k: string, strict: bool)
    requires q.Obj? && k in q.members
    ensures Clean(CompareMember(path, InferredProperties(m), q, k), strict) <==> MemberFits(m, q, k, strict)
    decreases q, 0, 0
  {
    if k in m {
      Classified(path + [Member(k)], m[k], q.members[k], strict);
    } else {
      var change := Added(path + [Member(k)], q.members[k]);
      assert [change][0].kind.FieldAdded?;
    }
  }

  lemma {:induction false} MembersClassified(path: Location, m: map<string, Json>, q: Json, keys: seq<string>,
                                             strict: bool)
    requires q.Obj? && forall k | k in keys :: k in q.members
    ensures Clean(CompareMembers(path, InferredProperties(m), q, keys), strict) <==> AllFit(m, q, keys, strict)
    decreases q, 1, |keys|
  {
    if keys != [] {
      MemberClassified(path, m, q, keys[0], strict);
      CleanConcat(CompareMember(path, InferredProperties(m), q, keys[0]),
                  CompareMembers(path, InferredProperties(m), q, keys[1..]), strict);
      forall k ensures k in keys <==> k == keys[0] || k in keys[1..] { InHeadOrTail(keys, k); }
      MembersClassified(path, m, q, keys[1..], strict);
    }
  }

  lemma ComparedObjects(path: Location, p: Json, q: Json)
    requires p.Obj? && q.Obj?
    ensures Compare(path, Infer(p), q) ==
      MissingFields(path, SortedKeys(p.members.Keys), q)
      + CompareMembers(path, InferredProperties(p.members), q, SortedKeys(q.members.Keys))
  {
    assert Infer(p) == Schema(TObject, InferredProperties(p.members), SortedKeys(p.members.Keys), None);
  }

  lemma {:induction false} ObjectClassified(path: Location, p: Json, q: Json, strict: bool)
    requires p.Obj? && q.Obj?
    ensures Clean(Compare(path, Infer(p), q), strict) <==> Fits(p, q, strict)
    decreases q, 2, 0
  {
    var required, keys := SortedKeys(p.members.Keys), SortedKeys(q.members.Keys);
    ComparedObjects(path, p, q);
    MissingFieldsClean(path, required, q, strict);
    MembersClassified(path, p.members, q, keys, strict);
    CleanConcat(MissingFields(path, required, q), CompareMembers(path, InferredProperties(p.members), q, keys), strict);
    ObjectFits(p, q, strict);
  }

  /** Membership by membership, an object fits when nothing required is absent and every member fits. */
  lemma ObjectFits(p: Json, q: Json, strict: bool)
    requires p.Obj? && q.Obj?
    ensures Fits(p, q, strict) <==>
      NoneAbsent(q, SortedKeys(p.members.Keys)) && AllFit(p.members, q, SortedKeys(q.members.Keys), strict)
  {
    if Fits(p, q, strict) {
      FittingObjectFits(p, q, strict);
    } else if NoneAbsent(q, SortedKeys(p.members.Keys)) && AllFit(p.members, q, SortedKeys(q.members.Keys), strict) {
      FittedMembersFit(p, q, strict);
    }
  }

  lemma FittingObjectFits(p: Json, q: Json, strict: bool)
    requires p.Obj? && q.Obj? && Fits(p, q, strict)
    ensures NoneAbsent(q, SortedKeys(p.members.Keys)) && AllFit(p.members, q, SortedKeys(q.members.Keys), strict)
  {
    forall k | k in q.members ensures MemberFits(p.members, q, k, strict) {}
    forall k | k in p.members ensures !Absent(q, k) {}
  }

  lemma FittedMembersFit(p: Json, q: Json, strict: bool)
    requires p.Obj? && q.Obj?
    requires NoneAbsent(q, SortedKeys(p.members.Keys)) && AllFit(p.members, q, SortedKeys(q.members.Keys), strict)
    ensures Fits(p, q, strict)
  {
    var m, n := p.members, q.members;
    forall k | k in m ensures k in n && !n[k].Null? && Fits(m[k], n[k], strict) {
      assert k in SortedKeys(m.Keys) && !Absent(q, k);
      assert k in SortedKeys(n.Keys) && MemberFits(m, q, k, strict);
    }
    if strict {
      forall k | k in n ensures k in m {
        assert k in SortedKeys(n.Keys) && MemberFits(m, q, k, strict);
      }
      assert n.Keys == m.Keys;
    }
  }

  /** The comparison reports nothing exactly for q of p's shape, and only added fields exactly for q of that
      shape with extras. */
  lemma {:induction false} Classified(path: Location, p: Json, q: Json, strict: bool)
    ensures Clean(Compare(path, Infer(p), q), strict) <==> Fits(p, q, strict)
    decreases q, 3, 0
  {
    if p.Obj? && q.Obj? {
      ObjectClassified(path, p, q, strict);
    } else if p.Obj? && q.Null? {
      MissingFieldsClean(path, SortedKeys(p.members.Keys), q, strict);
      assert NoneAbsent(q, SortedKeys(p.members.Keys)) <==> p.members == map[] by {
        if p.members != map[] {
          var k :| k in p.members;
          assert Absent(q, k);
        }
      }
    } else if p.Arr? && q.Arr? && q.items != [] {
      if p.items == [] {
        EmptyArrayClassified(path + [Elements], q.items[0], strict);
      } else {
        Classified(path + [Elements], p.items[0], q.items[0], strict);
      }
    } else if !q.Null? && !Compatible(Infer(p).typ, TypeOf(q)) {
      var change := Mismatch(path, Infer(p).typ, q);
      assert [change][0].kind.TypeMismatch?;
    }
  }

  /** An empty sample array says nothing about elements, except that they are expected to have no members. */
  lemma {:induction false} EmptyArrayClassified(path: Location, q: Json, strict: bool)
    ensures Clean(Compare(path, Typed(Untyped), q), strict) <==> (strict && q.Obj? ==> q.members == map[])
    decreases q, 2, 0
  {
    if q.Obj? {
      var keys := SortedKeys(q.members.Keys);
      assert InferredProperties(map[]) == map[];
      MembersClassified(path, map[], q, keys, strict);
      if q.members != map[] {
        var k :| k in q.members;
        assert MemberFits(map[], q, k, strict) <==> !strict;
      }
    }
  }

  /** The severity a report carries. */
  predicate HasSeverity(r: Report, s: Severity) {
    && (r.severity.NoDrift? <==> r.changes == [])
    && (r.severity.Breaking? <==> exists i :: 0 <= i < |r.changes| && !r.changes[i].kind.FieldAdded?)
    && r.severity == s
  }

  /** Drift against an inferred baseline is a three-way classification of the payload. */
  lemma DriftClassification(p: Json, q: Json, r: Report)
    requires r.changes == Compare([], Infer(p), q)
    requires HasSeverity(r, r.severity)
    ensures r.severity == (if SameShape(p, q) then NoDrift else if ShapeWithExtras(p, q) then NonBreaking else Breaking)
  {
    Classified([], p, q, true);
    Classified([], p, q, false);
    if SameShape(p, q) { SameShapeHasNoExtras(p, q); }
    if r.changes != [] { assert r.changes[0] == r.changes[0]; }
  }

  // ----- a payload against its own schema

  /** The place `rel` inside p, through members and first array elements, is a member whose value is null. */
  predicate NullAt(p: Json, rel: Location)
    decreases |rel|
  {
    rel != [] &&
    match rel[0]
    case Member(k) => p.Obj? && k in p.members &&
      (if |rel| == 1 then p.members[k].Null? else NullAt(p.members[k], rel[1..]))
    case Elements => p.Arr? && p.items != [] && NullAt(p.items[0], rel[1..])
  }

  ghost function NullMembers(at: Location, p: Json, keys: seq<string>): seq<Location> {
    if keys == [] then []
    else (if Absent(p, keys[0]) then [at + [Member(keys[0])]] else []) + NullMembers(at, p, keys[1..])
  }

  ghost function DeeperNulls(at: Location, p: Json, keys: seq<string>): seq<Location>
    decreases p, 0, |keys|
  {
    if keys == [] then []
    else
      (if p.Obj? && keys[0] in p.members then NullsUnder(at + [Member(keys[0])], p.members[keys[0]]) else [])
      + DeeperNulls(at, p, keys[1..])
  }

  /** The null members of p, in the order a report lists them. */
  ghost function NullsUnder(at: Location, p: Json): seq<Location>
    decreases p, 1, 0
  {
    match p
    case Arr(items) => if items == [] then [] else NullsUnder(at + [Elements], items[0])
    case Obj(m) => NullMembers(at, p, SortedKeys(m.Keys)) + DeeperNulls(at, p, SortedKeys(m.Keys))
    case _ => []
  }

  function Reports(places: seq<Location>): (r: seq<Change>)
    ensures |r| == |places| && forall i | 0 <= i < |r| :: r[i] == Missing(places[i])
  {
    seq(|places|, i requires 0 <= i < |places| => Missing(places[i]))
  }

  lemma ReportsConcat(a: seq<Location>, b: seq<Location>)
    ensures Reports(a + b) == Reports(a) + Reports(b)
  {
  }

  lemma {:induction false} MissingAreNullMembers(at: Location, p: Json, keys: seq<string>)
    ensures MissingFields(at, keys, p) == Reports(NullMembers(at, p, keys))
  {
    if keys != [] {
      var head := if Absent(p, keys[0]) then [at + [Member(keys[0])]] else [];
      MissingAreNullMembers(at, p, keys[1..]);
      ReportsConcat(head, NullMembers(at, p, keys[1..]));
    }
  }

  lemma {:induction false} MembersAreDeeperNulls(at: Location, p: Json, keys: seq<string>)
    requires p.Obj? && forall k | k in keys :: k in p.members
    ensures CompareMembers(at, InferredProperties(p.members), p, keys) == Reports(DeeperNulls(at, p, keys))
    decreases p, 0, |keys|
  {
    if keys != [] {
      var k := keys[0];
      assert k in keys;
      SelfDriftAt(at + [Member(k)], p.members[k]);
      MembersAreDeeperNulls(at, p, keys[1..]);
      ReportsConcat(NullsUnder(at + [Member(k)], p.members[k]), DeeperNulls(at, p, keys[1..]));
    }
  }

  lemma {:induction false} SelfDriftAt(at: Location, p: Json)
    ensures Compare(at, Infer(p), p) == Reports(NullsUnder(at, p))
    decreases p, 1, 0
  {
    match p
    case Arr(items) =>
      if items != [] { SelfDriftAt(at + [Elements], items[0]); }
    case Obj(m) =>
      var keys := SortedKeys(m.Keys);
      ComparedObjects(at, p, p);
      MissingAreNullMembers(at, p, keys);
      MembersAreDeeperNulls(at, p, keys);
      ReportsConcat(NullMembers(at, p, keys), DeeperNulls(at, p, keys));
    case _ =>
  }

  // The listed places are exactly the null members, each once.

  predicate Distinct(s: seq<Location>) {
    forall i, j | 0 <= i < j < |s| :: s[i] != s[j]
  }

  lemma DistinctConcat(a: seq<Location>, b: seq<Location>)
    requires Distinct(a) && Distinct(b) && forall x | x in a :: x !in b
    ensures Distinct(a + b)
  {
    forall i, j | 0 <= i < j < |a + b| ensures (a + b)[i] != (a + b)[j] {
      if i < |a| && |a| <= j { assert a[i] in a && b[j - |a|] in b; }
    }
  }

  /** `place` continues `at` through `step`. */
  predicate Through(at: Location, step: Step, place: Location) {
    |place| > |at| && at <= place && place[|at|] == step
  }

  lemma StepDown(at: Location, step: Step, place: Location)
    ensures Through(at, step, place) <==> at + [step] <= place
    ensures Through(at, step, place) ==> place[|at|..][0] == step && place[|at|..][1..] == place[|at + [step]|..]
  {
    if Through(at, step, place) {
      assert place == (at + [step]) + place[|at| + 1..];
    }
  }

  lemma {:induction false} NullMembersExact(at: Location, p: Json, keys: seq<string>)
    requires p.Obj? && (forall k | k in keys :: k in p.members) && NoRepeats(keys)
    ensures Distinct(NullMembers(at, p, keys))
    ensures forall place: Location :: place in NullMembers(at, p, keys) <==>
      |place| == |at| + 1 && at <= place && place[|at|].Member? && place[|at|].name in keys && NullAt(p, place[|at|..])
  {
    if keys != [] {
      var k, rest := keys[0], NullMembers(at, p, keys[1..]);
      var here := at + [Member(k)];
      assert k in keys && keys == [k] + keys[1..];
      assert k !in keys[1..];
      NullMembersExact(at, p, keys[1..]);
      assert here[|at|..] == [Member(k)] && here[|at|].name == k;
      DistinctConcat(if Absent(p, k) then [here] else [], rest);
      forall place: Location | |place| == |at| + 1 && at <= place && place[|at|] == Member(k) ensures place == here {
        assert place == place[..|at|] + [place[|at|]];
      }
    }
  }

  lemma {:induction false} DeeperNullsExact(at: Location, p: Json, keys: seq<string>)
    requires p.Obj? && (forall k | k in keys :: k in p.members) && NoRepeats(keys)
    ensures Distinct(DeeperNulls(at, p, keys))
    ensures forall place: Location :: place in DeeperNulls(at, p, keys) <==>
      |place| > |at| + 1 && at <= place && place[|at|].Member? && place[|at|].name in keys && NullAt(p, place[|at|..])
    decreases p, 0, |keys|
  {
    if keys != [] {
      var k := keys[0];
      var here := at + [Member(k)];
      assert k in keys && keys == [k] + keys[1..];
      assert k !in keys[1..];
      var head, rest := NullsUnder(here, p.members[k]), DeeperNulls(at, p, keys[1..]);
      NullsExact(here, p.members[k]);
      DeeperNullsExact(at, p, keys[1..]);
      forall place: Location ensures place in head <==>
        |place| > |at| + 1 && Through(at, Member(k), place) && NullAt(p, place[|at|..])
      {
        StepDown(at, Member(k), place);
      }
      DistinctConcat(head, rest);
    }
  }

  lemma {:induction false} NullsExact(at: Location, p: Json)
    ensures Distinct(NullsUnder(at, p))
    ensures forall place: Location ::
      place in NullsUnder(at, p) <==> |place| > |at| && at <= place && NullAt(p, place[|at|..])
    decreases p, 1, 0
  {
    match p
    case Arr(items) =>
      if items != [] {
        var here := at + [Elements];
        NullsExact(here, items[0]);
        forall place: Location ensures place in NullsUnder(at, p) <==>
          |place| > |at| && at <= place && NullAt(p, place[|at|..])
        {
          StepDown(at, Elements, place);
        }
      }
    case Obj(m) =>
      var keys := SortedKeys(m.Keys);
      SortedKeysAscend(m.Keys);
      NullMembersExact(at, p, keys);
      DeeperNullsExact(at, p, keys);
      DistinctConcat(NullMembers(at, p, keys), DeeperNulls(at, p, keys));
    case _ =>
  }

  /** Comparing a payload with the schema inferred from it reports one FIELD_MISSING for each member that is
      null, reachable through members and first array elements, and nothing else. */
  lemma SelfDrift(p: Json) returns (places: seq<Location>)
    ensures Compare([], Infer(p), p) == Reports(places)
    ensures Distinct(places)
    ensures forall place: Location :: place in places <==> NullAt(p, place)
  {
    places := NullsUnder([], p);
    SelfDriftAt([], p);
    NullsExact([], p);
    forall place: Location ensures place in places <==> NullAt(p, place) {
      assert place[0..] == place;
    }
  }
}
