/** validate_records: the generator's bound on directly nested records. */
module RecordValidation {
  import opened ITypes
  import opened Graphs
  import opened RecordTable

  const TYPE_RESOLVE_RECURSION_LIMIT := 1024

  /** `Panicked` is the panic in get_record_type, on an id that names a function type. */
  datatype Verdict = Accepted | Rejected(error: GenError) | Panicked

  function ValidateRecord(types: seq<AstType>, record: RecordType, level: nat): Verdict
    decreases TYPE_RESOLVE_RECURSION_LIMIT - level, |record.fields| + 1
  {
    if level >= TYPE_RESOLVE_RECURSION_LIMIT then Rejected(TooManyInnerLevels)
    else ValidateFields(types, record.fields, level)
  }

  function ValidateFields(types: seq<AstType>, fields: seq<RecordFieldType>, level: nat): Verdict
    requires level < TYPE_RESOLVE_RECURSION_LIMIT
    decreases TYPE_RESOLVE_RECURSION_LIMIT - level, |fields|
  {
    if fields == [] then Accepted
    else
      var verdict := ValidateField(types, fields[0].ty, level);
      if verdict.Accepted? then ValidateFields(types, fields[1..], level) else verdict
  }

  function ValidateField(types: seq<AstType>, ty: IType, level: nat): Verdict
    requires level < TYPE_RESOLVE_RECURSION_LIMIT
    decreases TYPE_RESOLVE_RECURSION_LIMIT - level, 0
  {
    if !ty.Record? then Accepted
    else if ty.id >= |types| then Rejected(RecordIdNotFound(ty.id))
    else
      match types[ty.id]
      case Function(_, _) => Panicked
      case Record(inner) => ValidateRecord(types, inner, level + 1)
  }

  /** The loop over the type table, from index `i` on. */
  function ValidateFrom(types: seq<AstType>, i: nat): Verdict
    decreases |types| - i
  {
    if i >= |types| then Accepted
    else if types[i].Function? then ValidateFrom(types, i + 1)
    else
      var verdict := ValidateRecord(types, types[i].record, 0);
      if verdict.Accepted? then ValidateFrom(types, i + 1) else verdict
  }

  function ValidateRecords(types: seq<AstType>, unresolved: nat): Verdict {
    if unresolved != 0 then Rejected(TypesUnresolved(unresolved)) else ValidateFrom(types, 0)
  }

  // ----- The same loops as they run -----

  method ValidateRecordType(types: seq<AstType>, record: RecordType, level: nat) returns (verdict: Verdict)
    ensures verdict == ValidateRecord(types, record, level)
    decreases TYPE_RESOLVE_RECURSION_LIMIT - level
  {
    if level >= TYPE_RESOLVE_RECURSION_LIMIT {
      return Rejected(TooManyInnerLevels);
    }
    for k := 0 to |record.fields|
      invariant ValidateFields(types, record.fields, level) == ValidateFields(types, record.fields[k..], level)
    {
      var ty := record.fields[k].ty;
      if ty.Record? {
        if ty.id >= |types| {
          return Rejected(RecordIdNotFound(ty.id));
        }
        if types[ty.id].Function? {
          return Panicked;
        }
        verdict := ValidateRecordType(types, types[ty.id].record, level + 1);
        if !verdict.Accepted? {
          return;
        }
      }
    }
    return Accepted;
  }

  method RunValidateRecords(types: seq<AstType>, unresolved: nat) returns (verdict: Verdict)
    ensures verdict == ValidateRecords(types, unresolved)
  {
    if unresolved != 0 {
      return Rejected(TypesUnresolved(unresolved));
    }
    for i := 0 to |types|
      invariant ValidateFrom(types, 0) == ValidateFrom(types, i)
    {
      if types[i].Record? {
        verdict := ValidateRecordType(types, types[i].record, 0);
        if !verdict.Accepted? {
          return;
        }
      }
    }
    return Accepted;
  }

  // ----- What it takes to be accepted -----

  ghost function DirectRefs(fields: seq<RecordFieldType>): set<nat> {
    set k | 0 <= k < |fields| && fields[k].ty.Record? :: fields[k].ty.id
  }

  /** Records joined to the records that are the type of one of their fields (arrays do not count). */
  ghost function NestGraph(types: seq<AstType>): Graph {
    map i | 0 <= i < |types| && types[i].Record? :: DirectRefs(types[i].record.fields)
  }

  ghost predicate NoDangling(types: seq<AstType>) {
    forall i: nat, id: nat :: Edge(NestGraph(types), i, id) ==> id < |types| && types[id].Record?
  }

  lemma {:induction false} AcceptedField(types: seq<AstType>, fields: seq<RecordFieldType>, level: nat, k: nat)
    requires level < TYPE_RESOLVE_RECURSION_LIMIT && k < |fields|
    requires ValidateFields(types, fields, level).Accepted?
    ensures ValidateField(types, fields[k].ty, level).Accepted?
  {
    if k > 0 { AcceptedField(types, fields[1..], level, k - 1); }
  }

  lemma {:induction false} AllFieldsAccepted(types: seq<AstType>, fields: seq<RecordFieldType>, level: nat)
    requires level < TYPE_RESOLVE_RECURSION_LIMIT
    requires forall k :: 0 <= k < |fields| ==> ValidateField(types, fields[k].ty, level).Accepted?
    ensures ValidateFields(types, fields, level).Accepted?
  {
    if fields != [] { AllFieldsAccepted(types, fields[1..], level); }
  }

  lemma {:induction false} AcceptedBoundsWalk(types: seq<AstType>, level: nat, p: seq<nat>)
    requires Walk(NestGraph(types), p) && p[0] < |types| && types[p[0]].Record?
    requires ValidateRecord(types, types[p[0]].record, level).Accepted?
    ensures level + |p| <= TYPE_RESOLVE_RECURSION_LIMIT
    decreases |p|
  {
    if |p| > 1 {
      var fields := types[p[0]].record.fields;
      WalkTail(NestGraph(types), p);
      assert p[1] in DirectRefs(fields);
      var k :| 0 <= k < |fields| && fields[k].ty.Record? && fields[k].ty.id == p[1];
      AcceptedField(types, fields, level, k);
      AcceptedBoundsWalk(types, level + 1, p[1..]);
    }
  }

  lemma {:induction false} BoundedWalksAccepted(types: seq<AstType>, i: nat, level: nat)
    requires NoDangling(types) && i < |types| && types[i].Record?
    requires forall p :: Walk(NestGraph(types), p) && p[0] == i ==> level + |p| <= TYPE_RESOLVE_RECURSION_LIMIT
    ensures ValidateRecord(types, types[i].record, level).Accepted?
    decreases TYPE_RESOLVE_RECURSION_LIMIT - level
  {
    var g, fields := NestGraph(types), types[i].record.fields;
    assert Walk(g, [i]);
    forall k | 0 <= k < |fields|
      ensures ValidateField(types, fields[k].ty, level).Accepted?
    {
      if fields[k].ty.Record? {
        var id := fields[k].ty.id;
        assert id in DirectRefs(fields);
        assert Edge(g, i, id);
        forall p | Walk(g, p) && p[0] == id
          ensures level + 1 + |p| <= TYPE_RESOLVE_RECURSION_LIMIT
        {
          WalkPrepend(g, i, p);
        }
        BoundedWalksAccepted(types, id, level + 1);
      }
    }
    AllFieldsAccepted(types, fields, level);
  }

  lemma {:induction false} ValidateFromMeaning(types: seq<AstType>, i: nat)
    ensures ValidateFrom(types, i).Accepted? <==>
            forall j :: i <= j < |types| && types[j].Record? ==> ValidateRecord(types, types[j].record, 0).Accepted?
    decreases |types| - i
  {
    if i < |types| { ValidateFromMeaning(types, i + 1); }
  }

  /** Validation accepts exactly when no chain of directly nested records is longer than the limit. */
  lemma AcceptsExactlyBoundedNesting(types: seq<AstType>)
    requires NoDangling(types)
    ensures ValidateRecords(types, 0).Accepted? <==>
            forall p :: Walk(NestGraph(types), p) && p[0] in NestGraph(types) ==> |p| <= TYPE_RESOLVE_RECURSION_LIMIT
  {
    var g := NestGraph(types);
    ValidateFromMeaning(types, 0);
    if ValidateRecords(types, 0).Accepted? {
      forall p | Walk(g, p) && p[0] in g
        ensures |p| <= TYPE_RESOLVE_RECURSION_LIMIT
      {
        AcceptedBoundsWalk(types, 0, p);
      }
    }
    if forall p :: Walk(g, p) && p[0] in g ==> |p| <= TYPE_RESOLVE_RECURSION_LIMIT {
      forall j | 0 <= j < |types| && types[j].Record?
        ensures ValidateRecord(types, types[j].record, 0).Accepted?
      {
        BoundedWalksAccepted(types, j, 0);
      }
    }
  }

  /** So an accepted table has no record that directly contains itself, at any distance. */
  lemma AcceptedIsAcyclic(types: seq<AstType>)
    requires NoDangling(types) && ValidateRecords(types, 0).Accepted?
    ensures Acyclic(NestGraph(types))
  {
    var g := NestGraph(types);
    AcceptsExactlyBoundedNesting(types);
    forall a
      ensures !Reaches(g, a, a)
    {
      if Reaches(g, a, a) {
        var c :| |c| >= 2 && WalkBetween(g, c, a, a);
        assert Edge(g, c[0], c[0 + 1]);
        BoundedMeansAcyclicAt(g, a, TYPE_RESOLVE_RECURSION_LIMIT);
      }
    }
  }

  /** The panic on a function type is out of reach when no reference dangles. */
  lemma {:induction false} NeverPanics(types: seq<AstType>, i: nat, level: nat)
    requires NoDangling(types) && i < |types| && types[i].Record?
    ensures !ValidateRecord(types, types[i].record, level).Panicked?
    decreases TYPE_RESOLVE_RECURSION_LIMIT - level
  {
    if level < TYPE_RESOLVE_RECURSION_LIMIT {
      var fields := types[i].record.fields;
      forall k | 0 <= k < |fields|
        ensures !ValidateField(types, fields[k].ty, level).Panicked?
      {
        if fields[k].ty.Record? {
          assert fields[k].ty.id in DirectRefs(fields);
          assert Edge(NestGraph(types), i, fields[k].ty.id);
          NeverPanics(types, fields[k].ty.id, level + 1);
        }
      }
      FieldsNeverPanic(types, fields, level);
    }
  }

  lemma {:induction false} FieldsNeverPanic(types: seq<AstType>, fields: seq<RecordFieldType>, level: nat)
    requires level < TYPE_RESOLVE_RECURSION_LIMIT
    requires forall k :: 0 <= k < |fields| ==> !ValidateField(types, fields[k].ty, level).Panicked?
    ensures !ValidateFields(types, fields, level).Panicked?
  {
    if fields != [] { FieldsNeverPanic(types, fields[1..], level); }
  }

  lemma {:induction false} ValidateNeverPanics(types: seq<AstType>, i: nat)
    requires NoDangling(types)
    ensures !ValidateFrom(types, i).Panicked?
    decreases |types| - i
  {
    if i < |types| {
      ValidateNeverPanics(types, i + 1);
      if types[i].Record? { NeverPanics(types, i, 0); }
    }
  }

  lemma SoundHasNoDangling(api: seq<AstType>, ids: map<string, nat>, types: seq<AstType>)
    requires Sound(api, ids, types)
    requires forall i :: 0 <= i < |api| ==> api[i].Function?
    ensures NoDangling(types)
  {
  }
}
