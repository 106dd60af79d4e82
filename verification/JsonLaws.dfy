/** Laws of the JSON conversions: what is accepted, the round trip, and the two forms of records. */
module JsonLaws {
  import opened Wrappers
  import opened RustInts
  import opened ITypes
  import opened RecordClosure
  import opened Json

  ghost predicate DistinctFields(fields: seq<RecordFieldType>) {
    forall i, j :: 0 <= i < j < |fields| ==> fields[i].name != fields[j].name
  }

  function NamesFrom(fields: seq<RecordFieldType>, k: nat): set<string> {
    set i | k <= i < |fields| :: fields[i].name
  }

  // ----- Lists, element by element -----

  lemma {:induction false} EncodeListEach(v: IValue, k: nat, elem: IType, records: RecordTypes)
    requires v.Array? && k <= |v.items|
    ensures EncodeList(v, k, elem, records).Ok? <==> forall i :: k <= i < |v.items| ==> Encode(v.items[i], elem, records).Ok?
    ensures EncodeList(v, k, elem, records).Ok? ==>
              var js := EncodeList(v, k, elem, records).value;
              |js| == |v.items| - k && forall i :: k <= i < |v.items| ==> Encode(v.items[i], elem, records) == Ok(js[i - k])
    decreases |v.items| - k
  {
    if k < |v.items| {
      EncodeListEach(v, k + 1, elem, records);
    }
  }

  lemma {:induction false} EncodeBytesEach(bytes: seq<u8>, elem: IType)
    ensures EncodeBytes(bytes, elem).Ok? <==> elem.U8? || bytes == []
    ensures EncodeBytes(bytes, elem).Ok? ==>
              var js := EncodeBytes(bytes, elem).value;
              |js| == |bytes| && forall i :: 0 <= i < |bytes| ==> js[i] == Number(Int(bytes[i]))
  {
    if bytes != [] { EncodeBytesEach(bytes[1..], elem); }
  }

  lemma {:induction false} EncodeFieldsKeys(v: IValue, fields: seq<RecordFieldType>, k: nat, records: RecordTypes)
    requires v.Record? && |v.fields| == |fields| && k <= |fields|
    requires EncodeFields(v, fields, k, records).Ok?
    ensures EncodeFields(v, fields, k, records).value.Keys == NamesFrom(fields[..k], 0)
    decreases k
  {
    if k > 0 {
      EncodeFieldsKeys(v, fields, k - 1, records);
      NamesSnoc(fields, k);
    }
  }

  lemma {:induction false} EncodeFieldsOk(v: IValue, fields: seq<RecordFieldType>, k: nat, records: RecordTypes)
    requires v.Record? && |v.fields| == |fields| && k <= |fields|
    ensures EncodeFields(v, fields, k, records).Ok? <==> forall i :: 0 <= i < k ==> Encode(v.fields[i], fields[i].ty, records).Ok?
    decreases k
  {
    if k > 0 { EncodeFieldsOk(v, fields, k - 1, records); }
  }

  lemma {:induction false} EncodeFieldsEach(v: IValue, fields: seq<RecordFieldType>, k: nat, records: RecordTypes, i: nat)
    requires v.Record? && |v.fields| == |fields| && i < k <= |fields| && DistinctFields(fields)
    requires EncodeFields(v, fields, k, records).Ok?
    ensures var m := EncodeFields(v, fields, k, records).value;
            fields[i].name in m && Encode(v.fields[i], fields[i].ty, records) == Ok(m[fields[i].name])
    decreases k
  {
    if i < k - 1 {
      EncodeFieldsEach(v, fields, k - 1, records, i);
      assert fields[i].name != fields[k - 1].name;
    }
  }

  lemma NamesSnoc(fields: seq<RecordFieldType>, k: nat)
    requires 0 < k <= |fields|
    ensures NamesFrom(fields[..k], 0) == NamesFrom(fields[..k - 1], 0) + {fields[k - 1].name}
  {
  }

  lemma {:induction false} DecodeListEach(j: JValue, k: nat, elem: IType, records: RecordTypes)
    requires j.Arr? && k <= |j.items|
    ensures DecodeList(j, k, elem, records).Ok? <==> forall i :: k <= i < |j.items| ==> Decode(j.items[i], elem, records).Ok?
    ensures DecodeList(j, k, elem, records).Ok? ==>
              var vs := DecodeList(j, k, elem, records).value;
              |vs| == |j.items| - k && forall i :: k <= i < |j.items| ==> Decode(j.items[i], elem, records) == Ok(vs[i - k])
    decreases |j.items| - k
  {
    if k < |j.items| { DecodeListEach(j, k + 1, elem, records); }
  }

  lemma {:induction false} DecodePositionalEach(j: JValue, fields: seq<RecordFieldType>, k: nat, records: RecordTypes)
    requires j.Arr? && |j.items| == |fields| && k <= |fields|
    ensures DecodePositional(j, fields, k, records).Ok? <==>
            forall i :: k <= i < |fields| ==> Decode(j.items[i], fields[i].ty, records).Ok?
    ensures DecodePositional(j, fields, k, records).Ok? ==>
              var vs := DecodePositional(j, fields, k, records).value;
              |vs| == |fields| - k && forall i :: k <= i < |fields| ==> Decode(j.items[i], fields[i].ty, records) == Ok(vs[i - k])
    decreases |fields| - k
  {
    if k < |fields| { DecodePositionalEach(j, fields, k + 1, records); }
  }

  /** The object names the remaining fields, each once, and nothing else. */
  ghost predicate NamesMatch(j: JValue, fields: seq<RecordFieldType>, k: nat, used: set<string>)
    requires j.Obj?
  {
    && (forall a, b :: k <= a < b < |fields| ==> fields[a].name != fields[b].name)
    && (forall a :: k <= a < |fields| ==> fields[a].name in j.members && fields[a].name !in used)
    && j.members.Keys <= used + NamesFrom(fields, k)
  }

  lemma NamesMatchStep(j: JValue, fields: seq<RecordFieldType>, k: nat, used: set<string>)
    requires j.Obj? && k < |fields|
    ensures NamesMatch(j, fields, k, used) <==>
            fields[k].name in j.members && fields[k].name !in used && NamesMatch(j, fields, k + 1, used + {fields[k].name})
  {
  }

  lemma {:induction false} DecodeNamedEach(j: JValue, fields: seq<RecordFieldType>, k: nat, used: set<string>, records: RecordTypes)
    requires j.Obj? && k <= |fields|
    ensures DecodeNamed(j, fields, k, used, records).Ok? <==>
            && NamesMatch(j, fields, k, used)
            && forall i :: k <= i < |fields| ==> Decode(j.members[fields[i].name], fields[i].ty, records).Ok?
    ensures DecodeNamed(j, fields, k, used, records).Ok? ==>
              var vs := DecodeNamed(j, fields, k, used, records).value;
              |vs| == |fields| - k &&
              forall i :: k <= i < |fields| ==> Decode(j.members[fields[i].name], fields[i].ty, records) == Ok(vs[i - k])
    decreases |fields| - k
  {
    if k < |fields| {
      NamesMatchStep(j, fields, k, used);
      DecodeNamedEach(j, fields, k + 1, used + {fields[k].name}, records);
    } else {
      assert NamesFrom(fields, k) == {};
    }
  }

  // ----- Which values are encoded -----

  /** `v` is a value of type `ty`; byte arrays and arrays of bytes stand for one another. */
  predicate HasType(v: IValue, ty: IType, records: RecordTypes)
    decreases v
  {
    match (v, ty)
    case (ByteArray(_), ByteArray) => true
    case (ByteArray(bytes), Array(elem)) => elem.U8? || bytes == []
    case (Array(items), ByteArray) => forall i :: 0 <= i < |items| ==> HasType(items[i], IType.U8, records)
    case (Array(items), Array(elem)) => forall i :: 0 <= i < |items| ==> HasType(items[i], elem, records)
    case (Record(vs), Record(id)) =>
      && id in records && |vs| == |records[id].fields|
      && forall i :: 0 <= i < |vs| ==> HasType(vs[i], records[id].fields[i].ty, records)
    case _ => ScalarTypeOf(v) == Some(ty)
  }

  /** Encoding succeeds exactly on values of the type. */
  lemma {:induction false} EncodesExactlyTyped(v: IValue, ty: IType, records: RecordTypes)
    ensures Encode(v, ty, records).Ok? <==> HasType(v, ty, records)
    decreases v
  {
    match (v, ty)
    case (ByteArray(bytes), ByteArray) => EncodeBytesEach(bytes, IType.U8);
    case (ByteArray(bytes), Array(elem)) => EncodeBytesEach(bytes, elem);
    case (Array(items), ByteArray) => ItemsEncodeExactly(v, IType.U8, records);
    case (Array(items), Array(elem)) => ItemsEncodeExactly(v, elem, records);
    case (Record(vs), Record(id)) =>
      if id in records && |vs| == |records[id].fields| { FieldsEncodeExactly(v, records[id].fields, records); }
    case _ =>
  }

  lemma {:induction false} ItemsEncodeExactly(v: IValue, elem: IType, records: RecordTypes)
    requires v.Array?
    ensures EncodeList(v, 0, elem, records).Ok? <==> forall i :: 0 <= i < |v.items| ==> HasType(v.items[i], elem, records)
    decreases v, 0
  {
    EncodeListEach(v, 0, elem, records);
    forall i | 0 <= i < |v.items|
      ensures Encode(v.items[i], elem, records).Ok? <==> HasType(v.items[i], elem, records)
    {
      EncodesExactlyTyped(v.items[i], elem, records);
    }
  }

  lemma {:induction false} FieldsEncodeExactly(v: IValue, fields: seq<RecordFieldType>, records: RecordTypes)
    requires v.Record? && |v.fields| == |fields|
    ensures EncodeFields(v, fields, |fields|, records).Ok? <==>
            forall i :: 0 <= i < |v.fields| ==> HasType(v.fields[i], fields[i].ty, records)
    decreases v, 0
  {
    EncodeFieldsOk(v, fields, |fields|, records);
    forall i | 0 <= i < |v.fields|
      ensures Encode(v.fields[i], fields[i].ty, records).Ok? <==> HasType(v.fields[i], fields[i].ty, records)
    {
      EncodesExactlyTyped(v.fields[i], fields[i].ty, records);
    }
  }

  // ----- The round trip -----

  /** What decoding makes of a value: byte arrays come back as arrays of bytes. */
  function Normalise(v: IValue): IValue {
    match v
    case ByteArray(bytes) => IValue.Array(seq(|bytes|, i requires 0 <= i < |bytes| => IValue.U8(bytes[i])))
    case Array(items) => IValue.Array(seq(|items|, i requires 0 <= i < |items| => Normalise(items[i])))
    case Record(fields) => IValue.Record(seq(|fields|, i requires 0 <= i < |fields| => Normalise(fields[i])))
    case _ => v
  }

  /** JSON can carry `v`: its floats are finite and its records do not repeat field names. */
  ghost predicate JsonSafe(v: IValue, ty: IType, records: RecordTypes)
    decreases v
  {
    match (v, ty)
    case (F32(f), _) => f.Finite?
    case (F64(f), _) => f.Finite?
    case (Array(items), Array(elem)) => forall i :: 0 <= i < |items| ==> JsonSafe(items[i], elem, records)
    case (Record(vs), Record(id)) =>
      && id in records && |vs| == |records[id].fields|
      && DistinctFields(records[id].fields)
      && forall i :: 0 <= i < |vs| ==> JsonSafe(vs[i], records[id].fields[i].ty, records)
    case _ => true
  }

  /** `j` decodes to the normal form of `v` if JSON can carry `v`, and not at all otherwise. */
  ghost predicate ComesBack(j: JValue, v: IValue, ty: IType, records: RecordTypes) {
    if JsonSafe(v, ty, records) then Decode(j, ty, records) == Ok(Normalise(v)) else Decode(j, ty, records).Err?
  }

  lemma ScalarComesBack(v: IValue, ty: IType, records: RecordTypes)
    requires ScalarTypeOf(v) == Some(ty)
    ensures ComesBack(ScalarJson(v), v, ty, records)
  {
    var j := ScalarJson(v);
    assert Flatten(j) == j;
    ScalarDecodesBack(v, ty, records);
    assert !ty.ByteArray? && !ty.Array? && !ty.Record?;
    assert Decode(j, ty, records) == DecodeScalar(j, ty);
  }

  lemma ScalarDecodesBack(v: IValue, ty: IType, records: RecordTypes)
    requires ScalarTypeOf(v) == Some(ty)
    ensures if JsonSafe(v, ty, records) then DecodeScalar(ScalarJson(v), ty) == Ok(v) else DecodeScalar(ScalarJson(v), ty).Err?
    ensures Normalise(v) == v
  {
  }

  lemma BytesComeBack(bytes: seq<u8>, records: RecordTypes)
    requires EncodeBytes(bytes, IType.U8).Ok?
    ensures DecodeList(Arr(EncodeBytes(bytes, IType.U8).value), 0, IType.U8, records) == Ok(Normalise(IValue.ByteArray(bytes)).items)
  {
    EncodeBytesEach(bytes, IType.U8);
    var j, ws := Arr(EncodeBytes(bytes, IType.U8).value), Normalise(IValue.ByteArray(bytes)).items;
    forall i | 0 <= i < |j.items|
      ensures Decode(j.items[i], IType.U8, records) == Ok(ws[i])
    {
      ByteComesBack(bytes[i], records);
    }
    ListDecodes(j, IType.U8, records, ws);
  }

  lemma ByteComesBack(b: u8, records: RecordTypes)
    ensures Decode(Number(Int(b)), IType.U8, records) == Ok(IValue.U8(b))
  {
  }

  lemma ListDecodes(j: JValue, elem: IType, records: RecordTypes, ws: seq<IValue>)
    requires j.Arr? && |ws| == |j.items| && forall i :: 0 <= i < |j.items| ==> Decode(j.items[i], elem, records) == Ok(ws[i])
    ensures DecodeList(j, 0, elem, records) == Ok(ws)
  {
    DecodeListEach(j, 0, elem, records);
    var vs := DecodeList(j, 0, elem, records).value;
    forall i | 0 <= i < |ws|
      ensures vs[i] == ws[i]
    {
      assert Decode(j.items[i], elem, records) == Ok(vs[i - 0]);
    }
    assert vs == ws;
  }

  lemma ListFails(j: JValue, elem: IType, records: RecordTypes, i: nat)
    requires j.Arr? && i < |j.items| && Decode(j.items[i], elem, records).Err?
    ensures DecodeList(j, 0, elem, records).Err?
  {
    DecodeListEach(j, 0, elem, records);
  }

  lemma NamedDecodes(j: JValue, fields: seq<RecordFieldType>, records: RecordTypes, ws: seq<IValue>)
    requires j.Obj? && NamesMatch(j, fields, 0, {}) && |ws| == |fields|
    requires forall i :: 0 <= i < |fields| ==> Decode(j.members[fields[i].name], fields[i].ty, records) == Ok(ws[i])
    ensures DecodeNamed(j, fields, 0, {}, records) == Ok(ws)
  {
    hide Decode, DecodeNamed;
    DecodeNamedEach(j, fields, 0, {}, records);
    var vs := DecodeNamed(j, fields, 0, {}, records).value;
    forall i | 0 <= i < |ws|
      ensures vs[i] == ws[i]
    {
      assert Decode(j.members[fields[i].name], fields[i].ty, records) == Ok(vs[i - 0]);
    }
    assert vs == ws;
  }

  lemma NamedFails(j: JValue, fields: seq<RecordFieldType>, records: RecordTypes, i: nat)
    requires j.Obj? && i < |fields| && NamesMatch(j, fields, 0, {}) && Decode(j.members[fields[i].name], fields[i].ty, records).Err?
    ensures DecodeNamed(j, fields, 0, {}, records).Err?
  {
    DecodeNamedEach(j, fields, 0, {}, records);
  }

  lemma {:induction false} ItemsComeBack(v: IValue, elem: IType, records: RecordTypes)
    requires v.Array? && EncodeList(v, 0, elem, records).Ok?
    ensures var j := Arr(EncodeList(v, 0, elem, records).value);
            if forall i :: 0 <= i < |v.items| ==> JsonSafe(v.items[i], elem, records)
            then DecodeList(j, 0, elem, records) == Ok(Normalise(v).items)
            else DecodeList(j, 0, elem, records).Err?
    decreases v, 0
  {
    hide Decode, Encode, DecodeList, EncodeList, JsonSafe;
    var j := Arr(EncodeList(v, 0, elem, records).value);
    assert |j.items| == |v.items| by { EncodeListEach(v, 0, elem, records); }
    forall i | 0 <= i < |v.items|
      ensures ComesBack(j.items[i], v.items[i], elem, records)
    {
      ItemEncoded(v, elem, records, i);
      RoundTrip(v.items[i], elem, records);
    }
    if i :| 0 <= i < |v.items| && !JsonSafe(v.items[i], elem, records) {
      ListFails(j, elem, records, i);
    } else {
      ListDecodes(j, elem, records, Normalise(v).items);
    }
  }

  lemma ItemEncoded(v: IValue, elem: IType, records: RecordTypes, i: nat)
    requires v.Array? && EncodeList(v, 0, elem, records).Ok? && i < |v.items|
    ensures |EncodeList(v, 0, elem, records).value| == |v.items|
    ensures Encode(v.items[i], elem, records) == Ok(EncodeList(v, 0, elem, records).value[i])
  {
    EncodeListEach(v, 0, elem, records);
    assert Encode(v.items[i], elem, records) == Ok(EncodeList(v, 0, elem, records).value[i - 0]);
  }

  lemma {:induction false} FieldsComeBack(v: IValue, fields: seq<RecordFieldType>, records: RecordTypes)
    requires v.Record? && |v.fields| == |fields| && EncodeFields(v, fields, |fields|, records).Ok?
    ensures var j := Obj(EncodeFields(v, fields, |fields|, records).value);
            if DistinctFields(fields) && forall i :: 0 <= i < |v.fields| ==> JsonSafe(v.fields[i], fields[i].ty, records)
            then DecodeNamed(j, fields, 0, {}, records) == Ok(Normalise(v).fields)
            else DecodeNamed(j, fields, 0, {}, records).Err?
    decreases v, 0
  {
    hide Decode, Encode, DecodeNamed, EncodeFields, JsonSafe;
    var j := Obj(EncodeFields(v, fields, |fields|, records).value);
    if !DistinctFields(fields) {
      RepeatedNamesFail(j, fields, records);
    } else {
      forall i | 0 <= i < |fields|
        ensures fields[i].name in j.members && ComesBack(j.members[fields[i].name], v.fields[i], fields[i].ty, records)
      {
        EncodeFieldsEach(v, fields, |fields|, records, i);
        RoundTrip(v.fields[i], fields[i].ty, records);
      }
      assert NamesMatch(j, fields, 0, {}) by {
        EncodeFieldsKeys(v, fields, |fields|, records);
        assert fields[..|fields|] == fields;
      }
      if i :| 0 <= i < |v.fields| && !JsonSafe(v.fields[i], fields[i].ty, records) {
        NamedFails(j, fields, records, i);
      } else {
        NamedDecodes(j, fields, records, Normalise(v).fields);
      }
    }
  }

  lemma RepeatedNamesFail(j: JValue, fields: seq<RecordFieldType>, records: RecordTypes)
    requires j.Obj? && !DistinctFields(fields)
    ensures DecodeNamed(j, fields, 0, {}, records).Err?
  {
    DecodeNamedEach(j, fields, 0, {}, records);
  }

  /** Decoding what was encoded gives the value back, byte arrays as arrays of bytes, exactly when its
      floats are finite and its records have distinct field names; otherwise decoding fails. The
      flattening of one-element arrays never gets in the way. */
  lemma {:induction false} RoundTrip(v: IValue, ty: IType, records: RecordTypes)
    requires Encode(v, ty, records).Ok?
    ensures ComesBack(Encode(v, ty, records).value, v, ty, records)
    decreases v, 1
  {
    match (v, ty)
    case (ByteArray(bytes), ByteArray) => BytesComeBack(bytes, records);
    case (ByteArray(bytes), Array(elem)) =>
      EncodeBytesEach(bytes, elem);
      if elem.U8? {
        BytesComeBack(bytes, records);
      } else {
        assert EncodeBytes(bytes, elem).value == [] && Normalise(v).items == [];
        assert DecodeList(Arr([]), 0, elem, records) == Ok([]);
      }
    case (Array(items), ByteArray) =>
      ItemsComeBack(v, IType.U8, records);
      ItemsEncodeExactly(v, IType.U8, records);
    case (Array(items), Array(elem)) => ItemsComeBack(v, elem, records);
    case (Record(vs), Record(id)) => FieldsComeBack(v, records[id].fields, records);
    case _ => ScalarComesBack(v, ty, records);
  }

  // ----- What decoding gives -----

  /** No byte arrays and only finite floats: what JSON text can say. */
  predicate Plain(v: IValue)
    decreases v
  {
    match v
    case F32(f) => f.Finite?
    case F64(f) => f.Finite?
    case ByteArray(_) => false
    case Array(items) => forall i :: 0 <= i < |items| ==> Plain(items[i])
    case Record(fields) => forall i :: 0 <= i < |fields| ==> Plain(fields[i])
    case _ => true
  }

  lemma ScalarDecodesTyped(j: JValue, ty: IType, v: IValue)
    requires DecodeScalar(j, ty) == Ok(v)
    ensures ScalarTypeOf(v) == Some(ty) && Plain(v)
  {
  }

  lemma {:induction false} ListDecodesTyped(j: JValue, elem: IType, records: RecordTypes, vs: seq<IValue>)
    requires j.Arr? && DecodeList(j, 0, elem, records) == Ok(vs)
    ensures forall i :: 0 <= i < |vs| ==> HasType(vs[i], elem, records) && Plain(vs[i])
    decreases j, 0
  {
    hide Decode, HasType, Plain, DecodeList;
    DecodeListEach(j, 0, elem, records);
    forall i | 0 <= i < |vs|
      ensures HasType(vs[i], elem, records) && Plain(vs[i])
    {
      assert Decode(j.items[i], elem, records) == Ok(vs[i - 0]);
      DecodesTyped(j.items[i], elem, records, vs[i]);
    }
  }

  lemma {:induction false} PositionalDecodesTyped(j: JValue, fields: seq<RecordFieldType>, records: RecordTypes, vs: seq<IValue>)
    requires j.Arr? && |j.items| == |fields| && DecodePositional(j, fields, 0, records) == Ok(vs)
    ensures |vs| == |fields| && forall i :: 0 <= i < |vs| ==> HasType(vs[i], fields[i].ty, records) && Plain(vs[i])
    decreases j, 0
  {
    DecodePositionalEach(j, fields, 0, records);
    forall i | 0 <= i < |vs|
      ensures HasType(vs[i], fields[i].ty, records) && Plain(vs[i])
    {
      assert Decode(j.items[i], fields[i].ty, records) == Ok(vs[i - 0]);
      DecodesTyped(j.items[i], fields[i].ty, records, vs[i]);
    }
  }

  lemma {:induction false} NamedDecodesTyped(j: JValue, fields: seq<RecordFieldType>, records: RecordTypes, vs: seq<IValue>)
    requires j.Obj? && DecodeNamed(j, fields, 0, {}, records) == Ok(vs)
    ensures |vs| == |fields| && forall i :: 0 <= i < |vs| ==> HasType(vs[i], fields[i].ty, records) && Plain(vs[i])
    decreases j, 0
  {
    DecodeNamedEach(j, fields, 0, {}, records);
    forall i | 0 <= i < |vs|
      ensures HasType(vs[i], fields[i].ty, records) && Plain(vs[i])
    {
      assert Decode(j.members[fields[i].name], fields[i].ty, records) == Ok(vs[i - 0]);
      DecodesTyped(j.members[fields[i].name], fields[i].ty, records, vs[i]);
    }
  }

  /** Whatever decodes is a value of the type, over cyclic record types too. */
  lemma {:induction false} DecodesTyped(j: JValue, ty: IType, records: RecordTypes, v: IValue)
    requires Decode(j, ty, records) == Ok(v)
    ensures HasType(v, ty, records) && Plain(v)
    decreases j, 1
  {
    match ty
    case ByteArray => ListDecodesTyped(j, IType.U8, records, v.items);
    case Array(elem) => ListDecodesTyped(j, elem, records, v.items);
    case Record(id) =>
      if j.Obj? { NamedDecodesTyped(j, records[id].fields, records, v.fields); }
      else { PositionalDecodesTyped(j, records[id].fields, records, v.fields); }
    case _ => ScalarDecodesTyped(Flatten(j), ty, v);
  }

  /** A call is given exactly as many arguments as the signature has, each of its type. */
  lemma ArgumentsAreTyped(j: JValue, args: seq<RecordFieldType>, records: RecordTypes, vs: seq<IValue>)
    requires JsonToIValues(j, args, records) == Ok(vs)
    ensures |vs| == |args| && forall i :: 0 <= i < |vs| ==> HasType(vs[i], args[i].ty, records) && Plain(vs[i])
  {
    match j
    case Obj(_) => NamedDecodesTyped(j, args, records, vs);
    case Arr(_) => PositionalDecodesTyped(j, args, records, vs);
    case Null =>
    case _ =>
      DecodesTyped(j, args[0].ty, map[], vs[0]);
      ScalarOnly(j, args[0].ty, records, vs[0]);
  }

  /** A bare scalar never becomes a container, so it needs no record types. */
  lemma ScalarOnly(j: JValue, ty: IType, records: RecordTypes, v: IValue)
    requires !j.Arr? && !j.Obj? && Decode(j, ty, map[]) == Ok(v)
    ensures Decode(j, ty, records) == Ok(v) && HasType(v, ty, records)
  {
    assert !ty.Record? && !ty.Array? && !ty.ByteArray?;
    DecodesTyped(j, ty, records, v);
  }

  lemma {:induction false} PlainIsNormal(v: IValue)
    requires Plain(v)
    ensures Normalise(v) == v
    decreases v
  {
    match v
    case Array(items) =>
      forall i | 0 <= i < |items| ensures Normalise(items[i]) == items[i] { PlainIsNormal(items[i]); }
      assert Normalise(v).items == items;
    case Record(fields) =>
      forall i | 0 <= i < |fields| ensures Normalise(fields[i]) == fields[i] { PlainIsNormal(fields[i]); }
      assert Normalise(v).fields == fields;
    case _ =>
  }

  ghost predicate AllDistinct(records: RecordTypes) {
    forall id :: id in records ==> DistinctFields(records[id].fields)
  }

  lemma {:induction false} PlainIsSafe(v: IValue, ty: IType, records: RecordTypes)
    requires Plain(v) && HasType(v, ty, records) && AllDistinct(records)
    ensures JsonSafe(v, ty, records)
    decreases v
  {
    match (v, ty)
    case (Array(items), Array(elem)) =>
      forall i | 0 <= i < |items| ensures JsonSafe(items[i], elem, records) { PlainIsSafe(items[i], elem, records); }
    case (Record(vs), Record(id)) =>
      forall i | 0 <= i < |vs| ensures JsonSafe(vs[i], records[id].fields[i].ty, records) {
        PlainIsSafe(vs[i], records[id].fields[i].ty, records);
      }
    case _ =>
  }

  /** What was decoded can be encoded again and then decodes to the same value. */
  lemma DecodedIsStable(j: JValue, ty: IType, records: RecordTypes, v: IValue)
    requires Decode(j, ty, records) == Ok(v) && AllDistinct(records)
    ensures Encode(v, ty, records).Ok?
    ensures Decode(Encode(v, ty, records).value, ty, records) == Ok(v)
  {
    DecodesTyped(j, ty, records, v);
    EncodesExactlyTyped(v, ty, records);
    RoundTrip(v, ty, records);
    PlainIsSafe(v, ty, records);
    PlainIsNormal(v);
  }

  // ----- Records by name and by position -----

  predicate NamesAll(j: JValue, fields: seq<RecordFieldType>) {
    j.Obj? && j.members.Keys == NamesFrom(fields, 0)
  }

  /** `j` with every object that names all fields of its record turned into the list of their values,
      at every level. */
  function Positional(j: JValue, ty: IType, records: RecordTypes): JValue
    decreases j, 1
  {
    match ty
    case Array(elem) =>
      if j.Arr? then Arr(seq(|j.items|, i requires 0 <= i < |j.items| => Positional(j.items[i], elem, records))) else j
    case Record(id) => if id in records then PositionalRecord(j, records[id].fields, records) else j
    case _ => j
  }

  function PositionalRecord(j: JValue, fields: seq<RecordFieldType>, records: RecordTypes): JValue
    decreases j, 0
  {
    if j.Arr? && |j.items| == |fields| then
      Arr(seq(|j.items|, i requires 0 <= i < |j.items| => Positional(j.items[i], fields[i].ty, records)))
    else if NamesAll(j, fields) then
      Arr(seq(|fields|, i requires 0 <= i < |fields| =>
        assert fields[i].name in NamesFrom(fields, 0);
        Positional(j.members[fields[i].name], fields[i].ty, records)))
    else j
  }

  lemma SameItems(a: JValue, b: JValue, elem: IType, records: RecordTypes)
    requires a.Arr? && b.Arr? && |a.items| == |b.items|
    requires forall i :: 0 <= i < |a.items| ==> Decode(a.items[i], elem, records) == Decode(b.items[i], elem, records)
    ensures DecodeList(a, 0, elem, records) == DecodeList(b, 0, elem, records)
  {
    SameItemsFrom(a, b, elem, records, 0);
  }

  lemma {:induction false} SameItemsFrom(a: JValue, b: JValue, elem: IType, records: RecordTypes, k: nat)
    requires a.Arr? && b.Arr? && |a.items| == |b.items| && k <= |a.items|
    requires forall i :: 0 <= i < |a.items| ==> Decode(a.items[i], elem, records) == Decode(b.items[i], elem, records)
    ensures DecodeList(a, k, elem, records) == DecodeList(b, k, elem, records)
    decreases |a.items| - k
  {
    if k < |a.items| { SameItemsFrom(a, b, elem, records, k + 1); }
  }

  lemma {:induction false} SamePositional(a: JValue, b: JValue, fields: seq<RecordFieldType>, records: RecordTypes, k: nat)
    requires a.Arr? && b.Arr? && |a.items| == |b.items| == |fields| && k <= |fields|
    requires forall i :: 0 <= i < |fields| ==> Decode(a.items[i], fields[i].ty, records) == Decode(b.items[i], fields[i].ty, records)
    ensures DecodePositional(a, fields, k, records) == DecodePositional(b, fields, k, records)
    decreases |fields| - k
  {
    if k < |fields| { SamePositional(a, b, fields, records, k + 1); }
  }

  lemma {:induction false} SameNamed(a: JValue, b: JValue, fields: seq<RecordFieldType>, records: RecordTypes, k: nat, used: set<string>)
    requires a.Arr? && |a.items| == |fields| && b.Obj? && k <= |fields| && NamesMatch(b, fields, k, used)
    requires forall i :: k <= i < |fields| ==>
               fields[i].name in b.members && Decode(a.items[i], fields[i].ty, records) == Decode(b.members[fields[i].name], fields[i].ty, records)
    ensures DecodePositional(a, fields, k, records) == DecodeNamed(b, fields, k, used, records)
    decreases |fields| - k
  {
    hide Decode;
    if k < |fields| {
      NamesMatchStep(b, fields, k, used);
      SameNamed(a, b, fields, records, k + 1, used + {fields[k].name});
    } else {
      assert NamesFrom(fields, k) == {};
    }
  }

  /** With distinct field names, an object and the list of its values in field order decode alike, at
      every level of nesting, failures included. */
  lemma {:induction false} FormsDecodeAlike(j: JValue, ty: IType, records: RecordTypes)
    requires AllDistinct(records)
    ensures Decode(Positional(j, ty, records), ty, records) == Decode(j, ty, records)
    decreases j, 1
  {
    match ty
    case Array(elem) =>
      if j.Arr? {
        var p := Positional(j, ty, records);
        forall i | 0 <= i < |j.items|
          ensures Decode(p.items[i], elem, records) == Decode(j.items[i], elem, records)
        {
          FormsDecodeAlike(j.items[i], elem, records);
        }
        SameItems(p, j, elem, records);
      }
    case Record(id) =>
      if id in records { RecordFormsAlike(j, id, records); }
    case _ =>
  }

  lemma {:induction false} RecordFormsAlike(j: JValue, id: nat, records: RecordTypes)
    requires id in records && AllDistinct(records)
    ensures Decode(PositionalRecord(j, records[id].fields, records), IType.Record(id), records) == Decode(j, IType.Record(id), records)
    decreases j, 0, 1
  {
    var fields := records[id].fields;
    var p := PositionalRecord(j, fields, records);
    if j.Arr? && |j.items| == |fields| {
      forall i | 0 <= i < |fields|
        ensures Decode(p.items[i], fields[i].ty, records) == Decode(j.items[i], fields[i].ty, records)
      {
        FormsDecodeAlike(j.items[i], fields[i].ty, records);
      }
      SamePositional(p, j, fields, records, 0);
    } else if NamesAll(j, fields) {
      NamedFormAlike(j, fields, records);
    }
  }

  lemma {:induction false} NamedFormAlike(j: JValue, fields: seq<RecordFieldType>, records: RecordTypes)
    requires NamesAll(j, fields) && DistinctFields(fields) && AllDistinct(records)
    ensures var p := PositionalRecord(j, fields, records);
            && p.Arr? && |p.items| == |fields|
            && DecodePositional(p, fields, 0, records) == DecodeNamed(j, fields, 0, {}, records)
    decreases j, 0, 0
  {
    var p := PositionalRecord(j, fields, records);
    forall i | 0 <= i < |fields|
      ensures fields[i].name in j.members
      ensures Decode(p.items[i], fields[i].ty, records) == Decode(j.members[fields[i].name], fields[i].ty, records)
    {
      assert fields[i].name in NamesFrom(fields, 0);
      FormsDecodeAlike(j.members[fields[i].name], fields[i].ty, records);
    }
    assert NamesMatch(j, fields, 0, {});
    SameNamed(p, j, fields, records, 0, {});
  }

  /** The same for the arguments of a call. */
  lemma ArgumentFormsAlike(j: JValue, args: seq<RecordFieldType>, records: RecordTypes)
    requires DistinctFields(args) && AllDistinct(records)
    requires NamesAll(j, args)
    ensures JsonToIValues(PositionalRecord(j, args, records), args, records) == JsonToIValues(j, args, records)
  {
    NamedFormAlike(j, args, records);
  }

  /** A result passed on as the only argument of a call arrives as it was. */
  lemma ResultAsArgument(v: IValue, arg: RecordFieldType, records: RecordTypes, j: JValue)
    requires IValuesToJson([v], [arg.ty], records) == Converted(Ok(j)) && JsonSafe(v, arg.ty, records)
    ensures JsonToIValues(Arr([j]), [arg], records) == Ok([Normalise(v)])
  {
    RoundTrip(v, arg.ty, records);
    var one := Arr([j]);
    assert DecodePositional(one, [arg], 1, records) == Ok([]);
    assert DecodePositional(one, [arg], 0, records) == Cons(Decode(one.items[0], [arg][0].ty, records), Ok([]));
    assert [Normalise(v)] + [] == [Normalise(v)];
  }
}
