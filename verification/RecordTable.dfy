/** The record phase of the generator as functions on the resolver's tables: names are given
    ids on first sight, a record mentioned before its definition gets a stub. */
module RecordTable {
  import opened Wrappers
  import opened ITypes
  import opened SdkAst

  datatype GenError =
    | RecordNotFound
    | NoFields(name: string)
    | TypesUnresolved(count: nat)
    | TooManyInnerLevels
    | RecordIdNotFound(id: nat)

  /** IRecordType::default(): what a forward reference points at until the record is defined. */
  const STUB: AstType := AstType.Record(RecordType("", [RecordFieldType("", IType.S8)]))

  /** The part of the resolver the record phase works on. `unresolved` is the exact balance of
      stubs added and slots filled; the resolver's usize counter holds it modulo 2^64, because the
      release profile has overflow checks off. */
  datatype Table = Table(ids: map<string, nat>, types: seq<AstType>, unresolved: int)

  /** ptype_to_itype_checked: fails on a record name without an id. */
  function Convert(pty: ParsedType, ids: map<string, nat>): Option<IType> {
    match pty
    case I8 => Some(IType.S8)
    case I16 => Some(IType.S16)
    case I32 => Some(IType.S32)
    case I64 => Some(IType.S64)
    case U8 => Some(IType.U8)
    case U16 => Some(IType.U16)
    case U32 => Some(IType.U32)
    case U64 => Some(IType.U64)
    case F32 => Some(IType.F32)
    case F64 => Some(IType.F64)
    case Boolean => Some(IType.Boolean)
    case Utf8Str => Some(IType.String)
    case Utf8String => Some(IType.String)
    case Vector(elem) =>
      (match Convert(elem, ids)
       case None => None
       case Some(t) => Some(VectorOf(t)))
    case Record(name) => if name in ids then Some(IType.Record(ids[name])) else None
  }

  function VectorOf(t: IType): IType {
    if t.U8? then IType.ByteArray else IType.Array(t)
  }

  /** get_record_type_id_unchecked: adds a stub for a name seen for the first time. */
  function IdUnchecked(t: Table, name: string): (nat, Table) {
    if name in t.ids then (t.ids[name], t)
    else (|t.types|, Table(t.ids[name := |t.types|], t.types + [STUB], t.unresolved + 1))
  }

  /** ptype_to_itype_unchecked. */
  function TypeUnchecked(t: Table, pty: ParsedType): (IType, Table) {
    match pty
    case I8 => (IType.S8, t)
    case I16 => (IType.S16, t)
    case I32 => (IType.S32, t)
    case I64 => (IType.S64, t)
    case U8 => (IType.U8, t)
    case U16 => (IType.U16, t)
    case U32 => (IType.U32, t)
    case U64 => (IType.U64, t)
    case F32 => (IType.F32, t)
    case F64 => (IType.F64, t)
    case Boolean => (IType.Boolean, t)
    case Utf8Str => (IType.String, t)
    case Utf8String => (IType.String, t)
    case Vector(elem) => var (et, t') := TypeUnchecked(t, elem); (VectorOf(et), t')
    case Record(name) => var (id, t') := IdUnchecked(t, name); (IType.Record(id), t')
  }

  function FieldsUnchecked(t: Table, fields: seq<RecordField>): (seq<RecordFieldType>, Table) {
    if fields == [] then ([], t)
    else
      var (init, t1) := FieldsUnchecked(t, fields[..|fields| - 1]);
      var f := fields[|fields| - 1];
      var (ty, t2) := TypeUnchecked(t1, f.ty);
      (init + [RecordFieldType(f.name, ty)], t2)
  }

  /** insert_record_type: fills the slot of a known name, appends otherwise. An id in the map is
      always inside the table (see Sound); the bound test only makes the function total. */
  function Insert(t: Table, record: RecordType): Table {
    if record.name in t.ids && t.ids[record.name] < |t.types| then
      Table(t.ids, t.types[t.ids[record.name] := AstType.Record(record)], t.unresolved - 1)
    else
      Table(t.ids[record.name := |t.types|], t.types + [AstType.Record(record)], t.unresolved)
  }

  /** generate_it of a record definition; a unit record leaves no trace. */
  function Register(t: Table, def: RecordDef): Result<Table, GenError> {
    if def.fields.Unit? then Ok(t)
    else
      var (fields, t1) := FieldsUnchecked(t, def.fields.fields);
      if fields == [] then Err(NoFields(def.name))
      else Ok(Insert(t1, RecordType(def.name, fields)))
  }

  function RegisterAll(t: Table, defs: seq<RecordDef>): Result<Table, GenError> {
    if defs == [] then Ok(t)
    else
      match RegisterAll(t, defs[..|defs| - 1])
      case Err(e) => Err(e)
      case Ok(t1) => Register(t1, defs[|defs| - 1])
  }

  /** The tables before the first definition; `api` holds the types of the runtime's helpers. */
  function Start(api: seq<AstType>): Table {
    Table(map[], api, 0)
  }

  // ----- What the AST itself says, independently of the tables -----

  function Names(pty: ParsedType): set<string> {
    match pty
    case Vector(elem) => Names(elem)
    case Record(name) => {name}
    case _ => {}
  }

  function FieldNames(fields: seq<RecordField>): set<string> {
    if fields == [] then {} else FieldNames(fields[..|fields| - 1]) + Names(fields[|fields| - 1].ty)
  }

  /** All record names that occur in a field of some definition. */
  function Mentioned(defs: seq<RecordDef>): set<string> {
    if defs == [] then {}
    else
      var def := defs[|defs| - 1];
      Mentioned(defs[..|defs| - 1]) + (if def.fields.Unit? then {} else FieldNames(def.fields.fields))
  }

  /** The definition in force for each name: the last one, unit records apart. */
  function Definitions(defs: seq<RecordDef>): map<string, seq<RecordField>> {
    if defs == [] then map[]
    else
      var def := defs[|defs| - 1];
      var init := Definitions(defs[..|defs| - 1]);
      if def.fields.Unit? then init else init[def.name := def.fields.fields]
  }

  /** How many definitions repeat a name that already had one. */
  function Repeats(defs: seq<RecordDef>): nat {
    if defs == [] then 0
    else
      var def := defs[|defs| - 1];
      var init := defs[..|defs| - 1];
      Repeats(init) + (if !def.fields.Unit? && def.name in Definitions(init) then 1 else 0)
  }

  // ----- Invariant of the record phase -----

  ghost predicate SubMap(a: map<string, nat>, b: map<string, nat>) {
    forall n :: n in a ==> n in b && a[n] == b[n]
  }

  /** Every record id inside `ty` belongs to a name. */
  ghost predicate RefsNamed(ty: IType, ids: map<string, nat>) {
    match ty
    case Array(elem) => RefsNamed(elem, ids)
    case Record(id) => exists n :: n in ids && ids[n] == id
    case _ => true
  }

  ghost predicate FieldsNamed(fields: seq<RecordFieldType>, ids: map<string, nat>) {
    forall i :: 0 <= i < |fields| ==> RefsNamed(fields[i].ty, ids)
  }

  /** The helpers come first, names have distinct record slots after them, and no reference dangles. */
  ghost predicate Sound(api: seq<AstType>, ids: map<string, nat>, types: seq<AstType>) {
    && |api| <= |types|
    && (forall i :: 0 <= i < |api| ==> types[i] == api[i])
    && (forall i :: |api| <= i < |types| ==> types[i].Record?)
    && (forall n :: n in ids ==> |api| <= ids[n] < |types|)
    && (forall n, m :: n in ids && m in ids && ids[n] == ids[m] ==> n == m)
    && (forall i :: |api| <= i < |types| ==> FieldsNamed(types[i].record.fields, ids))
  }

  /** The slot of `name` holds its definition, converted under the final ids. */
  ghost predicate Filled(ids: map<string, nat>, types: seq<AstType>, name: string, fields: seq<RecordField>) {
    && name in ids
    && ids[name] < |types|
    && types[ids[name]].Record?
    && types[ids[name]].record.name == name
    && FieldsConverted(fields, types[ids[name]].record.fields, ids)
  }

  ghost predicate FieldsConverted(fields: seq<RecordField>, out: seq<RecordFieldType>, ids: map<string, nat>) {
    && |out| == |fields|
    && forall i :: 0 <= i < |fields| ==> out[i].name == fields[i].name && Convert(fields[i].ty, ids) == Some(out[i].ty)
  }

  /** The definitions `d` in force fill their slots; every other slot is a stub. */
  ghost predicate Holds(api: seq<AstType>, t: Table, d: map<string, seq<RecordField>>) {
    && Sound(api, t.ids, t.types)
    && (forall n :: n in d ==> Filled(t.ids, t.types, n, d[n]))
    && (forall n :: n in t.ids && n !in d ==> t.types[t.ids[n]] == STUB)
  }

  /** The names known, and the counter: names without a definition less repeated definitions. */
  ghost predicate Tallied(t: Table, mentioned: set<string>, defined: set<string>, repeats: nat) {
    && t.ids.Keys == mentioned + defined
    && t.unresolved == |t.ids.Keys - defined| - repeats
  }

  // ----- The checked and the unchecked conversion agree -----

  lemma ConvertMono(pty: ParsedType, a: map<string, nat>, b: map<string, nat>)
    requires SubMap(a, b) && Convert(pty, a).Some?
    ensures Convert(pty, b) == Convert(pty, a)
  {
  }

  lemma ConvertNamed(pty: ParsedType, ids: map<string, nat>)
    requires Convert(pty, ids).Some?
    ensures RefsNamed(Convert(pty, ids).value, ids)
  {
  }

  lemma RefsNamedMono(ty: IType, a: map<string, nat>, b: map<string, nat>)
    requires RefsNamed(ty, a) && SubMap(a, b)
    ensures RefsNamed(ty, b)
  {
  }

  /** How one conversion changes the tables: fresh names get stubs at the end, nothing else moves. */
  ghost predicate Grows(t: Table, t': Table) {
    && SubMap(t.ids, t'.ids)
    && |t.types| <= |t'.types|
    && (forall i :: 0 <= i < |t.types| ==> t'.types[i] == t.types[i])
    && (forall i :: |t.types| <= i < |t'.types| ==> t'.types[i] == STUB)
    && (forall n :: n in t'.ids && n !in t.ids ==> |t.types| <= t'.ids[n] < |t'.types|)
    && (forall n, m :: n in t'.ids && m in t'.ids && n !in t.ids && m !in t.ids && t'.ids[n] == t'.ids[m] ==> n == m)
  }

  ghost predicate Tallies(t: Table, t': Table, names: set<string>) {
    && t'.ids.Keys == t.ids.Keys + names
    && t'.unresolved == t.unresolved + |t'.ids.Keys - t.ids.Keys|
  }

  lemma GrowsTrans(t0: Table, t1: Table, t2: Table)
    requires Grows(t0, t1) && Grows(t1, t2)
    ensures Grows(t0, t2)
  {
  }

  lemma TalliesTrans(t0: Table, t1: Table, t2: Table, a: set<string>, b: set<string>)
    requires Tallies(t0, t1, a) && Tallies(t1, t2, b)
    ensures Tallies(t0, t2, a + b)
  {
  }

  lemma DiffCardinality<T>(a: set<T>, b: set<T>, c: set<T>)
    requires a <= b <= c
    ensures |c - a| == |c - b| + |b - a|
  {
  }

  lemma TalliesRefl(t: Table)
    ensures Tallies(t, t, {})
  {
  }

  lemma IdUncheckedTallies(t: Table, name: string)
    ensures Tallies(t, IdUnchecked(t, name).1, {name})
  {
  }

  lemma {:induction false} TypeUncheckedTallies(t: Table, pty: ParsedType)
    ensures Tallies(t, TypeUnchecked(t, pty).1, Names(pty))
  {
    hide Tallies;
    match pty
    case Vector(elem) => TypeUncheckedTallies(t, elem);
    case Record(name) => IdUncheckedTallies(t, name);
    case _ => TalliesRefl(t);
  }

  lemma {:induction false} FieldsUncheckedTallies(t: Table, fields: seq<RecordField>)
    ensures Tallies(t, FieldsUnchecked(t, fields).1, FieldNames(fields))
  {
    if fields == [] {
      TalliesRefl(t);
    } else {
      var init, f := fields[..|fields| - 1], fields[|fields| - 1];
      var t1 := FieldsUnchecked(t, init).1;
      FieldsUncheckedTallies(t, init);
      TypeUncheckedTallies(t1, f.ty);
      TalliesTrans(t, t1, TypeUnchecked(t1, f.ty).1, FieldNames(init), Names(f.ty));
    }
  }

  lemma {:induction false} TypeUncheckedGrows(t: Table, pty: ParsedType)
    ensures Grows(t, TypeUnchecked(t, pty).1)
    ensures Convert(pty, TypeUnchecked(t, pty).1.ids) == Some(TypeUnchecked(t, pty).0)
  {
    match pty
    case Vector(elem) => TypeUncheckedGrows(t, elem);
    case _ =>
  }

  lemma {:induction false} FieldsUncheckedGrows(t: Table, fields: seq<RecordField>)
    ensures Grows(t, FieldsUnchecked(t, fields).1)
    ensures FieldsConverted(fields, FieldsUnchecked(t, fields).0, FieldsUnchecked(t, fields).1.ids)
  {
    if fields != [] {
      var init, f := fields[..|fields| - 1], fields[|fields| - 1];
      var (out, t1) := FieldsUnchecked(t, init);
      FieldsUncheckedGrows(t, init);
      var (ty, t2) := TypeUnchecked(t1, f.ty);
      TypeUncheckedGrows(t1, f.ty);
      GrowsTrans(t, t1, t2);
      FieldsConvertedMono(init, out, t1.ids, t2.ids);
      FieldsConvertedSnoc(init, out, f, ty, t2.ids);
      assert init + [f] == fields;
    }
  }

  lemma FieldsConvertedSnoc(init: seq<RecordField>, out: seq<RecordFieldType>, f: RecordField, ty: IType, ids: map<string, nat>)
    requires FieldsConverted(init, out, ids) && Convert(f.ty, ids) == Some(ty)
    ensures FieldsConverted(init + [f], out + [RecordFieldType(f.name, ty)], ids)
  {
  }

  // ----- Each definition keeps the invariant -----

  lemma FieldsNamedMono(fields: seq<RecordFieldType>, a: map<string, nat>, b: map<string, nat>)
    requires FieldsNamed(fields, a) && SubMap(a, b)
    ensures FieldsNamed(fields, b)
  {
    forall i | 0 <= i < |fields|
      ensures RefsNamed(fields[i].ty, b)
    {
      RefsNamedMono(fields[i].ty, a, b);
    }
  }

  lemma FieldsConvertedNamed(fields: seq<RecordField>, out: seq<RecordFieldType>, ids: map<string, nat>)
    requires FieldsConverted(fields, out, ids)
    ensures FieldsNamed(out, ids)
  {
    forall i | 0 <= i < |out|
      ensures RefsNamed(out[i].ty, ids)
    {
      ConvertNamed(fields[i].ty, ids);
    }
  }

  lemma FieldsConvertedMono(fields: seq<RecordField>, out: seq<RecordFieldType>, a: map<string, nat>, b: map<string, nat>)
    requires FieldsConverted(fields, out, a) && SubMap(a, b)
    ensures FieldsConverted(fields, out, b)
  {
    forall i | 0 <= i < |fields|
      ensures Convert(fields[i].ty, b) == Some(out[i].ty)
    {
      ConvertMono(fields[i].ty, a, b);
    }
  }

  lemma GrowsKeepsSound(api: seq<AstType>, t: Table, t': Table)
    requires Sound(api, t.ids, t.types) && Grows(t, t')
    ensures Sound(api, t'.ids, t'.types)
  {
    forall i | |api| <= i < |t'.types|
      ensures FieldsNamed(t'.types[i].record.fields, t'.ids)
    {
      if i < |t.types| { FieldsNamedMono(t.types[i].record.fields, t.ids, t'.ids); }
    }
  }

  lemma InsertKeepsSound(api: seq<AstType>, t: Table, record: RecordType)
    requires Sound(api, t.ids, t.types) && FieldsNamed(record.fields, t.ids)
    ensures Sound(api, Insert(t, record).ids, Insert(t, record).types)
    ensures SubMap(t.ids, Insert(t, record).ids)
  {
    var t' := Insert(t, record);
    forall i | |api| <= i < |t'.types|
      ensures FieldsNamed(t'.types[i].record.fields, t'.ids)
    {
      if i == t'.ids[record.name] {
        FieldsNamedMono(record.fields, t.ids, t'.ids);
      } else {
        FieldsNamedMono(t.types[i].record.fields, t.ids, t'.ids);
      }
    }
  }

  /** Slots of other names keep their content when a record is inserted. */
  lemma HoldsAfterInsert(api: seq<AstType>, t: Table, t1: Table, d: map<string, seq<RecordField>>, record: RecordType, n: string)
    requires Holds(api, t, d) && Grows(t, t1) && Sound(api, t1.ids, t1.types)
    requires n in t1.ids && n != record.name
    ensures var t2 := Insert(t1, record);
            if n in d then Filled(t2.ids, t2.types, n, d[n]) else n in t2.ids && t2.types[t2.ids[n]] == STUB
  {
    var t2 := Insert(t1, record);
    assert t2.types[t2.ids[n]] == t1.types[t1.ids[n]];
    if n in d {
      assert Filled(t.ids, t.types, n, d[n]);
      FieldsConvertedMono(d[n], t.types[t.ids[n]].record.fields, t.ids, t2.ids);
    }
  }

  /** The set arithmetic of one registration: `ids` grow by the mentioned `names` and then by `name`. */
  lemma TallyStep<T>(ids: set<T>, ids1: set<T>, ids2: set<T>, mentioned: set<T>, defined: set<T>, names: set<T>, name: T)
    requires ids == mentioned + defined && ids1 == ids + names && ids2 == ids1 + {name}
    ensures ids2 == (mentioned + names) + (defined + {name})
    ensures |ids2 - (defined + {name})| ==
            |ids - defined| + |ids1 - ids| - (if name in ids1 && name !in defined then 1 else 0)
  {
    DiffCardinality(defined, ids, ids1);
    if name in defined || name !in ids1 {
      assert ids2 - (defined + {name}) == ids1 - defined;
    } else {
      assert ids1 - defined == (ids2 - (defined + {name})) + {name};
    }
  }

  lemma InsertHolds(api: seq<AstType>, t: Table, t1: Table, d: map<string, seq<RecordField>>,
                    fields: seq<RecordField>, record: RecordType)
    requires Holds(api, t, d) && Grows(t, t1) && Sound(api, t1.ids, t1.types)
    requires Sound(api, Insert(t1, record).ids, Insert(t1, record).types)
    requires FieldsConverted(fields, record.fields, Insert(t1, record).ids)
    ensures Holds(api, Insert(t1, record), d[record.name := fields])
  {
    var t2, d2 := Insert(t1, record), d[record.name := fields];
    forall n | n in d2
      ensures Filled(t2.ids, t2.types, n, d2[n])
    {
      if n != record.name {
        assert Filled(t.ids, t.types, n, d[n]);
        HoldsAfterInsert(api, t, t1, d, record, n);
      }
    }
    forall n | n in t2.ids && n !in d2
      ensures t2.types[t2.ids[n]] == STUB
    {
      HoldsAfterInsert(api, t, t1, d, record, n);
    }
  }

  lemma RegisterHolds(api: seq<AstType>, t: Table, def: RecordDef, d: map<string, seq<RecordField>>)
    requires Holds(api, t, d) && !def.fields.Unit? && Register(t, def).Ok?
    ensures Holds(api, Register(t, def).value, d[def.name := def.fields.fields])
  {
    var fields := def.fields.fields;
    var (out, t1) := FieldsUnchecked(t, fields);
    var record := RecordType(def.name, out);
    FieldsUncheckedGrows(t, fields);
    GrowsKeepsSound(api, t, t1);
    FieldsConvertedNamed(fields, out, t1.ids);
    InsertKeepsSound(api, t1, record);
    FieldsConvertedMono(fields, out, t1.ids, Insert(t1, record).ids);
    InsertHolds(api, t, t1, d, fields, record);
  }

  lemma InsertKeys(t: Table, record: RecordType)
    ensures Insert(t, record).ids.Keys == t.ids.Keys + {record.name}
    ensures Insert(t, record).unresolved ==
            t.unresolved - (if record.name in t.ids && t.ids[record.name] < |t.types| then 1 else 0)
  {
  }

  lemma RegisterTallied(t: Table, def: RecordDef, mentioned: set<string>, defined: set<string>, repeats: nat)
    requires Tallied(t, mentioned, defined, repeats) && !def.fields.Unit? && Register(t, def).Ok?
    requires forall n :: n in t.ids ==> t.ids[n] < |t.types|
    ensures Tallied(Register(t, def).value, mentioned + FieldNames(def.fields.fields), defined + {def.name},
                    repeats + if def.name in defined then 1 else 0)
  {
    var names := FieldNames(def.fields.fields);
    var (out, t1) := FieldsUnchecked(t, def.fields.fields);
    var t2 := Insert(t1, RecordType(def.name, out));
    assert Tallies(t, t1, names) by { FieldsUncheckedTallies(t, def.fields.fields); }
    assert def.name in t1.ids ==> t1.ids[def.name] < |t1.types| by { FieldsUncheckedGrows(t, def.fields.fields); }
    InsertKeys(t1, RecordType(def.name, out));
    var keys, keys1, keys2 := t.ids.Keys, t1.ids.Keys, t2.ids.Keys;
    TallyStep(keys, keys1, keys2, mentioned, defined, names, def.name);
    assert def.name in keys1 <==> def.name in t1.ids;
  }

  /** After every definition of the AST: names sit on distinct slots that never move, and every
      slot holds the definition in force or a stub. */
  lemma {:induction false} RegisterAllHolds(api: seq<AstType>, defs: seq<RecordDef>)
    requires RegisterAll(Start(api), defs).Ok?
    ensures Holds(api, RegisterAll(Start(api), defs).value, Definitions(defs))
  {
    if defs != [] {
      var init, def := defs[..|defs| - 1], defs[|defs| - 1];
      RegisterAllHolds(api, init);
      if !def.fields.Unit? {
        RegisterHolds(api, RegisterAll(Start(api), init).value, def, Definitions(init));
      }
    }
  }

  lemma TalliedStart(api: seq<AstType>)
    ensures Tallied(Start(api), {}, {}, 0)
  {
  }

  lemma DefinitionsSnoc(defs: seq<RecordDef>)
    requires defs != [] && !defs[|defs| - 1].fields.Unit?
    ensures Definitions(defs).Keys == Definitions(defs[..|defs| - 1]).Keys + {defs[|defs| - 1].name}
  {
  }

  /** The counter is the number of stubs less the number of repeated definitions. */
  lemma {:induction false} RegisterAllTallied(api: seq<AstType>, defs: seq<RecordDef>)
    requires RegisterAll(Start(api), defs).Ok?
    ensures Tallied(RegisterAll(Start(api), defs).value, Mentioned(defs), Definitions(defs).Keys, Repeats(defs))
  {
    if defs == [] {
      TalliedStart(api);
      assert Definitions(defs).Keys == {};
    } else {
      var init, def := defs[..|defs| - 1], defs[|defs| - 1];
      RegisterAllTallied(api, init);
      if !def.fields.Unit? {
        var t := RegisterAll(Start(api), init).value;
        assert forall n :: n in t.ids ==> t.ids[n] < |t.types| by { RegisterAllHolds(api, init); }
        DefinitionsSnoc(defs);
        RegisterTallied(t, def, Mentioned(init), Definitions(init).Keys, Repeats(init));
      }
    }
  }
}
