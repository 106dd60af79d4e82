/** it-json-serde: interface values to JSON and back, directed by their types. */
module Json {
  import opened Wrappers
  import opened RustInts
  import opened ITypes
  import opened RecordClosure

  /** serde_json keeps integers and floats apart. A float is taken as a real number: rounding between
      widths is not modelled. */
  datatype JNumber = Int(i: int) | Float(r: real)

  datatype JValue =
    | Null
    | Bool(b: bool)
    | Number(n: JNumber)
    | Str(s: string)
    | Arr(items: seq<JValue>)
    | Obj(members: map<string, JValue>)

  /** A value that does not fit its type; the messages are left out. */
  datatype EncodeError = Se

  /** A JSON value that does not fit its type. */
  datatype DecodeError = De

  // ----- ivalues_to_json -----

  /** json!(f): a float that is not finite becomes null. */
  function EncodeFloat(f: ITypes.Float): JValue {
    match f
    case Finite(r) => Number(JNumber.Float(r))
    case NonFinite => Null
  }

  /** The one type a scalar value is encoded at. */
  function ScalarTypeOf(v: IValue): Option<IType> {
    match v
    case Boolean(_) => Some(IType.Boolean)
    case S8(_) => Some(IType.S8)
    case S16(_) => Some(IType.S16)
    case S32(_) => Some(IType.S32)
    case S64(_) => Some(IType.S64)
    case U8(_) => Some(IType.U8)
    case U16(_) => Some(IType.U16)
    case U32(_) => Some(IType.U32)
    case U64(_) => Some(IType.U64)
    case I32(_) => Some(IType.I32)
    case I64(_) => Some(IType.I64)
    case F32(_) => Some(IType.F32)
    case F64(_) => Some(IType.F64)
    case String(_) => Some(IType.String)
    case _ => None
  }

  function ScalarJson(v: IValue): JValue {
    match v
    case Boolean(b) => Bool(b)
    case S8(i) => Number(Int(i))
    case S16(i) => Number(Int(i))
    case S32(i) => Number(Int(i))
    case S64(i) => Number(Int(i))
    case U8(i) => Number(Int(i))
    case U16(i) => Number(Int(i))
    case U32(i) => Number(Int(i))
    case U64(i) => Number(Int(i))
    case I32(i) => Number(Int(i))
    case I64(i) => Number(Int(i))
    case F32(f) => EncodeFloat(f)
    case F64(f) => EncodeFloat(f)
    case String(s) => Str(s)
    case _ => Null
  }

  function EncodeByte(b: u8, ty: IType): Result<JValue, EncodeError> {
    if ty.U8? then Ok(Number(Int(b))) else Err(Se)
  }

  function Encode(v: IValue, ty: IType, records: RecordTypes): Result<JValue, EncodeError>
    decreases v, 2, 0
  {
    match (v, ty)
    case (ByteArray(bytes), ByteArray) => ArrOf(EncodeBytes(bytes, IType.U8))
    case (ByteArray(bytes), Array(elem)) => ArrOf(EncodeBytes(bytes, elem))
    case (Array(_), ByteArray) => ArrOf(EncodeList(v, 0, IType.U8, records))
    case (Array(_), Array(elem)) => ArrOf(EncodeList(v, 0, elem, records))
    case (Record(vs), Record(id)) =>
      if id !in records || |vs| != |records[id].fields| then Err(Se)
      else
        (match EncodeFields(v, records[id].fields, |vs|, records)
         case Err(e) => Err(e)
         case Ok(m) => Ok(Obj(m)))
    case _ => if ScalarTypeOf(v) == Some(ty) then Ok(ScalarJson(v)) else Err(Se)
  }

  function ArrOf(items: Result<seq<JValue>, EncodeError>): Result<JValue, EncodeError> {
    match items
    case Err(e) => Err(e)
    case Ok(js) => Ok(Arr(js))
  }

  function EncodeBytes(bytes: seq<u8>, elem: IType): Result<seq<JValue>, EncodeError> {
    if bytes == [] then Ok([])
    else
      match (EncodeByte(bytes[0], elem), EncodeBytes(bytes[1..], elem))
      case (Ok(j), Ok(js)) => Ok([j] + js)
      case _ => Err(Se)
  }

  function EncodeList(v: IValue, k: nat, elem: IType, records: RecordTypes): Result<seq<JValue>, EncodeError>
    requires v.Array? && k <= |v.items|
    decreases v, 1, |v.items| - k
  {
    if k == |v.items| then Ok([])
    else
      match (Encode(v.items[k], elem, records), EncodeList(v, k + 1, elem, records))
      case (Ok(j), Ok(js)) => Ok([j] + js)
      case _ => Err(Se)
  }

  /** The object after the first `k` fields: a later field of the same name replaces an earlier one. */
  function EncodeFields(v: IValue, fields: seq<RecordFieldType>, k: nat, records: RecordTypes): Result<map<string, JValue>, EncodeError>
    requires v.Record? && |v.fields| == |fields| && k <= |fields|
    decreases v, 1, k
  {
    if k == 0 then Ok(map[])
    else
      match EncodeFields(v, fields, k - 1, records)
      case Err(e) => Err(e)
      case Ok(m) =>
        match Encode(v.fields[k - 1], fields[k - 1].ty, records)
        case Err(e) => Err(e)
        case Ok(j) => Ok(m[fields[k - 1].name := j])
  }

  /** The record case as it runs: a map filled in a loop. */
  method EncodeRecord(v: IValue, fields: seq<RecordFieldType>, records: RecordTypes) returns (result: Result<map<string, JValue>, EncodeError>)
    requires v.Record? && |v.fields| == |fields|
    ensures result == EncodeFields(v, fields, |fields|, records)
  {
    var members: map<string, JValue> := map[];
    for k := 0 to |fields|
      invariant EncodeFields(v, fields, k, records) == Ok(members)
    {
      var field := Encode(v.fields[k], fields[k].ty, records);
      if field.Err? {
        EncodeFieldsFail(v, fields, k + 1, records);
        return Err(field.error);
      }
      members := members[fields[k].name := field.value];
    }
    return Ok(members);
  }

  lemma {:induction false} EncodeFieldsFail(v: IValue, fields: seq<RecordFieldType>, k: nat, records: RecordTypes)
    requires v.Record? && |v.fields| == |fields| && k <= |fields|
    requires EncodeFields(v, fields, k, records).Err?
    ensures EncodeFields(v, fields, |fields|, records) == EncodeFields(v, fields, k, records)
    decreases |fields| - k
  {
    if k < |fields| { EncodeFieldsFail(v, fields, k + 1, records); }
  }

  /** ivalues_to_json; `Unimplemented` is its unimplemented!() on several values. */
  datatype JsonOutput = Converted(result: Result<JValue, EncodeError>) | Unimplemented

  function IValuesToJson(values: seq<IValue>, outputs: seq<IType>, records: RecordTypes): JsonOutput {
    if |outputs| != |values| then Converted(Err(Se))
    else if |values| == 0 then Converted(Ok(Null))
    else if |values| == 1 then Converted(Encode(values[0], outputs[0], records))
    else Unimplemented
  }

  // ----- json_to_ivalues -----

  /** A one-element array stands for its element where a scalar is wanted. */
  function Flatten(j: JValue): JValue {
    if j.Arr? && |j.items| == 1 then j.items[0] else j
  }

  /** serde_json::from_value at a scalar type. */
  function DecodeScalar(j: JValue, ty: IType): Result<IValue, DecodeError> {
    match (j, ty)
    case (Bool(b), Boolean) => Ok(IValue.Boolean(b))
    case (Str(s), String) => Ok(IValue.String(s))
    case (Number(n), F32) => Ok(IValue.F32(Finite(AsReal(n))))
    case (Number(n), F64) => Ok(IValue.F64(Finite(AsReal(n))))
    case (Number(Int(i)), _) => DecodeInt(i, ty)
    case _ => Err(De)
  }

  function AsReal(n: JNumber): real {
    match n
    case Int(i) => i as real
    case Float(r) => r
  }

  function DecodeInt(i: int, ty: IType): Result<IValue, DecodeError> {
    match ty
    case S8 => if -0x80 <= i < 0x80 then Ok(IValue.S8(i)) else Err(De)
    case S16 => if -0x8000 <= i < 0x8000 then Ok(IValue.S16(i)) else Err(De)
    case S32 => if -0x8000_0000 <= i < 0x8000_0000 then Ok(IValue.S32(i)) else Err(De)
    case S64 => if -0x8000_0000_0000_0000 <= i < 0x8000_0000_0000_0000 then Ok(IValue.S64(i)) else Err(De)
    case U8 => if 0 <= i < 0x100 then Ok(IValue.U8(i)) else Err(De)
    case U16 => if 0 <= i < 0x1_0000 then Ok(IValue.U16(i)) else Err(De)
    case U32 => if 0 <= i < 0x1_0000_0000 then Ok(IValue.U32(i)) else Err(De)
    case U64 => if 0 <= i < 0x1_0000_0000_0000_0000 then Ok(IValue.U64(i)) else Err(De)
    case I32 => if -0x8000_0000 <= i < 0x8000_0000 then Ok(IValue.I32(i)) else Err(De)
    case I64 => if -0x8000_0000_0000_0000 <= i < 0x8000_0000_0000_0000 then Ok(IValue.I64(i)) else Err(De)
    case _ => Err(De)
  }

  /** Terminates on the JSON value alone, so also over records that contain themselves. */
  function Decode(j: JValue, ty: IType, records: RecordTypes): Result<IValue, DecodeError>
    decreases j, 2, 0
  {
    match ty
    case ByteArray => if j.Arr? then ArrayOf(DecodeList(j, 0, IType.U8, records)) else Err(De)
    case Array(elem) => if j.Arr? then ArrayOf(DecodeList(j, 0, elem, records)) else Err(De)
    case Record(id) =>
      if id !in records then Err(De)
      else
        (match j
         case Obj(_) => RecordOf(DecodeNamed(j, records[id].fields, 0, {}, records))
         case Arr(items) =>
           if |items| != |records[id].fields| then Err(De)
           else RecordOf(DecodePositional(j, records[id].fields, 0, records))
         case _ => Err(De))
    case _ => DecodeScalar(Flatten(j), ty)
  }

  function ArrayOf(vs: Result<seq<IValue>, DecodeError>): Result<IValue, DecodeError> {
    match vs
    case Err(e) => Err(e)
    case Ok(items) => Ok(IValue.Array(items))
  }

  function RecordOf(vs: Result<seq<IValue>, DecodeError>): Result<IValue, DecodeError> {
    match vs
    case Err(e) => Err(e)
    case Ok(fields) => Ok(IValue.Record(fields))
  }

  function Cons(v: Result<IValue, DecodeError>, vs: Result<seq<IValue>, DecodeError>): Result<seq<IValue>, DecodeError> {
    match (v, vs)
    case (Ok(x), Ok(xs)) => Ok([x] + xs)
    case _ => Err(De)
  }

  function DecodeList(j: JValue, k: nat, elem: IType, records: RecordTypes): Result<seq<IValue>, DecodeError>
    requires j.Arr? && k <= |j.items|
    decreases j, 1, |j.items| - k
  {
    if k == |j.items| then Ok([])
    else Cons(Decode(j.items[k], elem, records), DecodeList(j, k + 1, elem, records))
  }

  function DecodePositional(j: JValue, fields: seq<RecordFieldType>, k: nat, records: RecordTypes): Result<seq<IValue>, DecodeError>
    requires j.Arr? && |j.items| == |fields| && k <= |fields|
    decreases j, 1, |fields| - k
  {
    if k == |fields| then Ok([])
    else Cons(Decode(j.items[k], fields[k].ty, records), DecodePositional(j, fields, k + 1, records))
  }

  /** The members in `used` were taken out by earlier fields; none may be left at the end. */
  function DecodeNamed(j: JValue, fields: seq<RecordFieldType>, k: nat, used: set<string>, records: RecordTypes): Result<seq<IValue>, DecodeError>
    requires j.Obj? && k <= |fields|
    decreases j, 1, |fields| - k
  {
    if k == |fields| then (if j.members.Keys <= used then Ok([]) else Err(De))
    else
      var name := fields[k].name;
      if name !in j.members || name in used then Err(De)
      else Cons(Decode(j.members[name], fields[k].ty, records), DecodeNamed(j, fields, k + 1, used + {name}, records))
  }

  /** json_map_to_ivalues as it runs: each argument is removed from the map, values are pushed. */
  method JsonMapToIValues(j: JValue, fields: seq<RecordFieldType>, records: RecordTypes) returns (result: Result<seq<IValue>, DecodeError>)
    requires j.Obj?
    ensures result == DecodeNamed(j, fields, 0, {}, records)
  {
    var rest, values: seq<IValue> := j.members, [];
    ghost var used: set<string> := {};
    PrependedNil(DecodeNamed(j, fields, 0, {}, records));
    for k := 0 to |fields|
      invariant rest == j.members - used && used <= j.members.Keys
      invariant DecodeNamed(j, fields, 0, {}, records) == Prepended(values, DecodeNamed(j, fields, k, used, records))
    {
      var name := fields[k].name;
      if name !in rest { return Err(De); }
      var value := Decode(rest[name], fields[k].ty, records);
      if value.Err? { return Err(De); }
      PrependedCons(values, value.value, DecodeNamed(j, fields, k + 1, used + {name}, records));
      rest, values := rest - {name}, values + [value.value];
      used := used + {name};
    }
    assert rest == map[] <==> j.members.Keys <= used by { NothingLeft(j.members, used); }
    if rest != map[] { return Err(De); }
    assert values + [] == values;
    return Ok(values);
  }

  lemma NothingLeft<K, V>(m: map<K, V>, used: set<K>)
    ensures m - used == map[] <==> m.Keys <= used
  {
    if m - used == map[] {
      forall k | k in m ensures k in used {
        assert k !in m - used;
      }
    }
  }

  function Prepended(values: seq<IValue>, rest: Result<seq<IValue>, DecodeError>): Result<seq<IValue>, DecodeError> {
    match rest
    case Err(_) => Err(De)
    case Ok(vs) => Ok(values + vs)
  }

  lemma PrependedNil(rest: Result<seq<IValue>, DecodeError>)
    ensures Prepended([], rest) == rest
  {
    if rest.Ok? { assert [] + rest.value == rest.value; }
    else { assert rest.error.De?; }
  }

  lemma PrependedCons(values: seq<IValue>, v: IValue, rest: Result<seq<IValue>, DecodeError>)
    ensures Prepended(values, Cons(Ok(v), rest)) == Prepended(values + [v], rest)
  {
    if rest.Ok? { assert values + ([v] + rest.value) == values + [v] + rest.value; }
  }

  /** json_to_ivalues. A bare scalar is tried without any record types. */
  function JsonToIValues(j: JValue, args: seq<RecordFieldType>, records: RecordTypes): Result<seq<IValue>, DecodeError> {
    match j
    case Obj(_) => DecodeNamed(j, args, 0, {}, records)
    case Arr(items) => if |items| != |args| then Err(De) else DecodePositional(j, args, 0, records)
    case Null => if |args| != 0 then Err(De) else Ok([])
    case _ =>
      if |args| != 1 then Err(De)
      else
        match Decode(j, args[0].ty, map[])
        case Err(e) => Err(e)
        case Ok(v) => Ok([v])
  }
}
