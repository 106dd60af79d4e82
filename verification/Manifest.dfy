/** The module manifest embedded in a Wasm file: five fields, each behind a 64-bit length. */
module Manifest {
  import opened Wrappers
  import opened RustInts

  type Bytes = seq<u8>

  const PREFIX_SIZE := 8

  datatype FieldName = Authors | Version | Description | Repository | BuildTime

  datatype ManifestError =
    | NotEnoughBytesForPrefix(name: FieldName)
    | NotEnoughBytesForField(name: FieldName, len: nat)
    | FieldNotValidUtf8(name: FieldName)
    | TooBigFieldSize(name: FieldName, len: nat)
    | ModuleVersionCorrupted
    | ManifestRemainderNotEmpty
    | DateTimeParseError

  /** The manifest's fields as the bytes they were parsed from. */
  datatype ModuleManifest =
    ModuleManifest(authors: Bytes, version: Bytes, description: Bytes, repository: Bytes, buildTime: Bytes)

  /** The platform and the text formats: usize::MAX, and which byte strings are UTF-8, a semantic
      version and an RFC 3339 time. */
  datatype Platform = Platform(usizeMax: nat, isUtf8: Bytes -> bool, isVersion: Bytes -> bool, isTime: Bytes -> bool)

  const U64_MAX := 0xFFFF_FFFF_FFFF_FFFF

  // ----- Little-endian numbers -----

  function ToLe(n: nat, width: nat): (r: Bytes)
    ensures |r| == width
  {
    if width == 0 then [] else [n % 0x100] + ToLe(n / 0x100, width - 1)
  }

  function FromLe(b: Bytes): nat {
    if b == [] then 0 else b[0] + 0x100 * FromLe(b[1..])
  }

  function Power(width: nat): nat {
    if width == 0 then 1 else 0x100 * Power(width - 1)
  }

  lemma {:induction false} FromToLe(n: nat, width: nat)
    requires n < Power(width)
    ensures FromLe(ToLe(n, width)) == n
  {
    if width > 0 { FromToLe(n / 0x100, width - 1); }
  }

  lemma LowByte(low: u8, high: nat)
    ensures (low + 0x100 * high) % 0x100 == low && (low + 0x100 * high) / 0x100 == high
  {
  }

  lemma {:induction false} ToFromLe(b: Bytes)
    ensures ToLe(FromLe(b), |b|) == b && FromLe(b) < Power(|b|)
  {
    if b != [] {
      ToFromLe(b[1..]);
      LowByte(b[0], FromLe(b[1..]));
    }
  }

  lemma PrefixPower()
    ensures Power(PREFIX_SIZE) == U64_MAX + 1
  {
  }

  // ----- The parser -----

  function TryExtractFieldLen(bytes: Bytes, name: FieldName, p: Platform): Result<nat, ManifestError> {
    if |bytes| < PREFIX_SIZE then Err(NotEnoughBytesForPrefix(name))
    else
      var len := FromLe(bytes[..PREFIX_SIZE]);
      if len + PREFIX_SIZE > U64_MAX || len + PREFIX_SIZE > p.usizeMax then Err(TooBigFieldSize(name, len))
      else Ok(len)
  }

  function TryExtractField(bytes: Bytes, len: nat, name: FieldName): Result<Bytes, ManifestError> {
    if |bytes| < PREFIX_SIZE + len then Err(NotEnoughBytesForField(name, len))
    else Ok(bytes[PREFIX_SIZE..PREFIX_SIZE + len])
  }

  /** The field and how many bytes it took. */
  function TryExtractPrefixedField(bytes: Bytes, name: FieldName, p: Platform): (r: Result<(Bytes, nat), ManifestError>)
    ensures r.Ok? ==> r.value.1 <= |bytes| && r.value.1 <= p.usizeMax
  {
    var len :- TryExtractFieldLen(bytes, name, p);
    var field :- TryExtractField(bytes, len, name);
    Ok((field, PREFIX_SIZE + |field|))
  }

  function TryExtractFieldAsString(raw: Bytes, offset: nat, name: FieldName, p: Platform): (r: Result<(Bytes, nat), ManifestError>)
    requires offset <= |raw|
    ensures r.Ok? ==> offset <= r.value.1 <= |raw|
  {
    var (field, readLen) :- TryExtractPrefixedField(raw[offset..], name, p);
    if p.isUtf8(field) then Ok((field, offset + readLen)) else Err(FieldNotValidUtf8(name))
  }

  function TryExtractFieldAsVersion(raw: Bytes, offset: nat, name: FieldName, p: Platform): (r: Result<(Bytes, nat), ManifestError>)
    requires offset <= |raw|
    ensures r.Ok? ==> offset <= r.value.1 <= |raw|
  {
    var (field, readLen) :- TryExtractPrefixedField(raw[offset..], name, p);
    if !p.isUtf8(field) then Err(FieldNotValidUtf8(name))
    else if !p.isVersion(field) then Err(ModuleVersionCorrupted)
    else Ok((field, offset + readLen))
  }

  /** ModuleManifest::try_from. Every slice it takes starts inside `value`: the offsets never pass the
      end, so no sum of lengths can overflow either. */
  function TryFrom(value: Bytes, p: Platform): Result<ModuleManifest, ManifestError> {
    var (authors, next) :- TryExtractFieldAsString(value, 0, Authors, p);
    var (version, next) :- TryExtractFieldAsVersion(value, next, Version, p);
    var (description, next) :- TryExtractFieldAsString(value, next, Description, p);
    var (repository, next) :- TryExtractFieldAsString(value, next, Repository, p);
    var (buildTime, next) :- TryExtractFieldAsString(value, next, BuildTime, p);
    if next != |value| then Err(ManifestRemainderNotEmpty)
    else if !p.isTime(buildTime) then Err(DateTimeParseError)
    else Ok(ModuleManifest(authors, version, description, repository, buildTime))
  }

  // ----- The printer -----

  function Field(f: Bytes): Bytes {
    ToLe(|f|, PREFIX_SIZE) + f
  }

  function Encode(m: ModuleManifest): Bytes {
    Field(m.authors) + Field(m.version) + Field(m.description) + Field(m.repository) + Field(m.buildTime)
  }

  class ByteEncoder {
    var buffer: Bytes

    constructor ()
      ensures buffer == []
    {
      buffer := [];
    }

    method AddU64(number: u64)
      modifies this
      ensures buffer == old(buffer) + ToLe(number, PREFIX_SIZE)
    {
      buffer := buffer + ToLe(number, PREFIX_SIZE);
    }

    method AddUtf8String(str: Bytes)
      modifies this
      ensures buffer == old(buffer) + str
    {
      buffer := buffer + str;
    }

    method AddUtf8Field(field: Bytes)
      requires |field| <= U64_MAX
      modifies this
      ensures buffer == old(buffer) + Field(field)
    {
      AddU64(|field|);
      AddUtf8String(field);
      assert old(buffer) + ToLe(|field|, PREFIX_SIZE) + field == old(buffer) + Field(field);
    }
  }

  method EncodeManifest(m: ModuleManifest) returns (encoder: ByteEncoder)
    requires |m.authors| <= U64_MAX && |m.version| <= U64_MAX && |m.description| <= U64_MAX
    requires |m.repository| <= U64_MAX && |m.buildTime| <= U64_MAX
    ensures fresh(encoder) && encoder.buffer == Encode(m)
  {
    encoder := new ByteEncoder();
    encoder.AddUtf8Field(m.authors);
    encoder.AddUtf8Field(m.version);
    encoder.AddUtf8Field(m.description);
    encoder.AddUtf8Field(m.repository);
    encoder.AddUtf8Field(m.buildTime);
    assert [] + Field(m.authors) == Field(m.authors);
  }

  // ----- One field -----

  predicate FieldFits(f: Bytes, p: Platform) {
    |f| + PREFIX_SIZE <= U64_MAX && |f| + PREFIX_SIZE <= p.usizeMax
  }

  /** Reading a field gives `f` and takes `n` bytes exactly if the bytes begin with the encoding of `f`,
      which is `n` bytes long. */
  lemma ReadsExactlyFields(bytes: Bytes, name: FieldName, p: Platform, f: Bytes, n: nat)
    ensures TryExtractPrefixedField(bytes, name, p) == Ok((f, n)) <==>
            FieldFits(f, p) && Field(f) <= bytes && n == |Field(f)|
  {
    PrefixPower();
    if FieldFits(f, p) && Field(f) <= bytes {
      assert bytes[..PREFIX_SIZE] == ToLe(|f|, PREFIX_SIZE);
      FromToLe(|f|, PREFIX_SIZE);
      assert bytes[PREFIX_SIZE..PREFIX_SIZE + |f|] == f;
    }
    if TryExtractPrefixedField(bytes, name, p) == Ok((f, n)) {
      var len := FromLe(bytes[..PREFIX_SIZE]);
      assert f == bytes[PREFIX_SIZE..PREFIX_SIZE + len];
      ToFromLe(bytes[..PREFIX_SIZE]);
      assert Field(f) == bytes[..PREFIX_SIZE + |f|];
    }
  }

  /** The two readers at an offset: what they return is the field that stands there, of the right form,
      and the offset behind it. */
  lemma ReadAt(raw: Bytes, offset: nat, name: FieldName, p: Platform, f: Bytes, next: nat)
    requires offset <= |raw|
    ensures TryExtractFieldAsString(raw, offset, name, p) == Ok((f, next)) <==>
            FieldFits(f, p) && Field(f) <= raw[offset..] && next == offset + |Field(f)| && p.isUtf8(f)
    ensures TryExtractFieldAsVersion(raw, offset, name, p) == Ok((f, next)) <==>
            FieldFits(f, p) && Field(f) <= raw[offset..] && next == offset + |Field(f)| && p.isUtf8(f) && p.isVersion(f)
  {
    if next >= offset { ReadsExactlyFields(raw[offset..], name, p, f, next - offset); }
  }

  // ----- The whole manifest -----

  predicate Acceptable(m: ModuleManifest, p: Platform) {
    && FieldFits(m.authors, p) && FieldFits(m.version, p) && FieldFits(m.description, p)
    && FieldFits(m.repository, p) && FieldFits(m.buildTime, p)
    && p.isUtf8(m.authors) && p.isUtf8(m.version) && p.isUtf8(m.description)
    && p.isUtf8(m.repository) && p.isUtf8(m.buildTime)
    && p.isVersion(m.version) && p.isTime(m.buildTime)
  }

  /** One field and what comes after it. */
  lemma TakeField(raw: Bytes, offset: nat, name: FieldName, p: Platform, f: Bytes, rest: Bytes)
    requires offset <= |raw| && raw[offset..] == Field(f) + rest && FieldFits(f, p) && p.isUtf8(f)
    ensures offset + PREFIX_SIZE + |f| <= |raw| && raw[offset + PREFIX_SIZE + |f|..] == rest
    ensures TryExtractFieldAsString(raw, offset, name, p) == Ok((f, offset + PREFIX_SIZE + |f|))
    ensures p.isVersion(f) ==> TryExtractFieldAsVersion(raw, offset, name, p) == Ok((f, offset + PREFIX_SIZE + |f|))
  {
    ReadAt(raw, offset, name, p, f, offset + PREFIX_SIZE + |f|);
  }

  /** The field that was read, and what is left. */
  lemma TakenField(raw: Bytes, offset: nat, name: FieldName, p: Platform, f: Bytes, next: nat)
    requires offset <= |raw|
    requires TryExtractFieldAsString(raw, offset, name, p) == Ok((f, next)) || TryExtractFieldAsVersion(raw, offset, name, p) == Ok((f, next))
    ensures next <= |raw| && raw[offset..] == Field(f) + raw[next..] && FieldFits(f, p) && p.isUtf8(f)
    ensures TryExtractFieldAsVersion(raw, offset, name, p) == Ok((f, next)) ==> p.isVersion(f)
  {
    ReadAt(raw, offset, name, p, f, next);
  }

  lemma EncodeNested(m: ModuleManifest, extra: Bytes)
    ensures Encode(m) + extra ==
            Field(m.authors) + (Field(m.version) + (Field(m.description) + (Field(m.repository) + (Field(m.buildTime) + extra))))
  {
  }

  /** The parser's five steps on the offsets at which the fields end. */
  ghost predicate Steps(value: Bytes, p: Platform, m: ModuleManifest, o1: nat, o2: nat, o3: nat, o4: nat, o5: nat) {
    && TryExtractFieldAsString(value, 0, Authors, p) == Ok((m.authors, o1)) && o1 <= |value|
    && TryExtractFieldAsVersion(value, o1, Version, p) == Ok((m.version, o2)) && o2 <= |value|
    && TryExtractFieldAsString(value, o2, Description, p) == Ok((m.description, o3)) && o3 <= |value|
    && TryExtractFieldAsString(value, o3, Repository, p) == Ok((m.repository, o4)) && o4 <= |value|
    && TryExtractFieldAsString(value, o4, BuildTime, p) == Ok((m.buildTime, o5)) && o5 <= |value|
  }

  lemma ParseOfSteps(value: Bytes, p: Platform, m: ModuleManifest, o1: nat, o2: nat, o3: nat, o4: nat, o5: nat)
    requires Steps(value, p, m, o1, o2, o3, o4, o5)
    ensures TryFrom(value, p) == if o5 != |value| then Err(ManifestRemainderNotEmpty)
                                 else if !p.isTime(m.buildTime) then Err(DateTimeParseError) else Ok(m)
  {
  }

  lemma StepsOfParse(value: Bytes, p: Platform, m: ModuleManifest)
    returns (o1: nat, o2: nat, o3: nat, o4: nat)
    requires TryFrom(value, p) == Ok(m)
    ensures Steps(value, p, m, o1, o2, o3, o4, |value|) && p.isTime(m.buildTime)
  {
    o1 := TryExtractFieldAsString(value, 0, Authors, p).value.1;
    o2 := TryExtractFieldAsVersion(value, o1, Version, p).value.1;
    o3 := TryExtractFieldAsString(value, o2, Description, p).value.1;
    o4 := TryExtractFieldAsString(value, o3, Repository, p).value.1;
  }

  /** From offset `offset` on, the manifest reads `tail`. */
  ghost predicate Remains(raw: Bytes, offset: nat, tail: Bytes) {
    offset <= |raw| && raw[offset..] == tail
  }

  lemma StringStep(raw: Bytes, offset: nat, name: FieldName, p: Platform, f: Bytes, tail: Bytes, rest: Bytes) returns (next: nat)
    requires Remains(raw, offset, tail) && tail == Field(f) + rest && FieldFits(f, p) && p.isUtf8(f)
    ensures Remains(raw, next, rest) && TryExtractFieldAsString(raw, offset, name, p) == Ok((f, next))
  {
    TakeField(raw, offset, name, p, f, rest);
    next := offset + PREFIX_SIZE + |f|;
  }

  lemma VersionStep(raw: Bytes, offset: nat, name: FieldName, p: Platform, f: Bytes, tail: Bytes, rest: Bytes) returns (next: nat)
    requires Remains(raw, offset, tail) && tail == Field(f) + rest && FieldFits(f, p) && p.isUtf8(f) && p.isVersion(f)
    ensures Remains(raw, next, rest) && TryExtractFieldAsVersion(raw, offset, name, p) == Ok((f, next))
  {
    TakeField(raw, offset, name, p, f, rest);
    next := offset + PREFIX_SIZE + |f|;
  }

  lemma StepsOfEncoding(m: ModuleManifest, p: Platform, value: Bytes, b: Bytes, c: Bytes, d: Bytes, e: Bytes, extra: Bytes)
    returns (o1: nat, o2: nat, o3: nat, o4: nat, o5: nat)
    requires Acceptable(m, p)
    requires value == Field(m.authors) + b && b == Field(m.version) + c && c == Field(m.description) + d
    requires d == Field(m.repository) + e && e == Field(m.buildTime) + extra
    ensures Steps(value, p, m, o1, o2, o3, o4, o5) && Remains(value, o5, extra)
  {
    assert Remains(value, 0, value);
    o1 := StringStep(value, 0, Authors, p, m.authors, value, b);
    o2 := VersionStep(value, o1, Version, p, m.version, b, c);
    o3 := StringStep(value, o2, Description, p, m.description, c, d);
    o4 := StringStep(value, o3, Repository, p, m.repository, d, e);
    o5 := StringStep(value, o4, BuildTime, p, m.buildTime, e, extra);
  }

  /** An encoding with something appended: the fields are read and the rest is noticed. */
  lemma ReadsFiveFields(m: ModuleManifest, extra: Bytes, p: Platform)
    requires Acceptable(m, p)
    ensures TryFrom(Encode(m) + extra, p) == if extra == [] then Ok(m) else Err(ManifestRemainderNotEmpty)
  {
    var value := Encode(m) + extra;
    EncodeNested(m, extra);
    var e := Field(m.buildTime) + extra;
    var d := Field(m.repository) + e;
    var c := Field(m.description) + d;
    var b := Field(m.version) + c;
    var o1, o2, o3, o4, o5 := StepsOfEncoding(m, p, value, b, c, d, e, extra);
    ParseOfSteps(value, p, m, o1, o2, o3, o4, o5);
  }

  lemma AcceptedIsEncoding(value: Bytes, p: Platform, m: ModuleManifest)
    requires TryFrom(value, p) == Ok(m)
    ensures value == Encode(m) && Acceptable(m, p)
  {
    var o1, o2, o3, o4 := StepsOfParse(value, p, m);
    StepsAreFields(value, p, m, o1, o2, o3, o4, |value|);
    EncodeNested(m, []);
    assert value[|value|..] == [] && Encode(m) + [] == Encode(m);
  }

  lemma StepsAreFields(value: Bytes, p: Platform, m: ModuleManifest, o1: nat, o2: nat, o3: nat, o4: nat, o5: nat)
    requires Steps(value, p, m, o1, o2, o3, o4, o5)
    ensures o5 <= |value|
    ensures value == Field(m.authors) + (Field(m.version) + (Field(m.description) + (Field(m.repository) + (Field(m.buildTime) + value[o5..]))))
    ensures p.isTime(m.buildTime) ==> Acceptable(m, p)
  {
    assert value[0..] == value;
    TakenField(value, 0, Authors, p, m.authors, o1);
    TakenField(value, o1, Version, p, m.version, o2);
    TakenField(value, o2, Description, p, m.description, o3);
    TakenField(value, o3, Repository, p, m.repository, o4);
    TakenField(value, o4, BuildTime, p, m.buildTime, o5);
  }

  /** A byte string parses to `m` exactly when it is the encoding of `m` and the fields of `m` fit the
      platform and their formats. So parsing undoes printing, and no two byte strings parse alike. */
  lemma ParsesExactlyEncodings(value: Bytes, p: Platform, m: ModuleManifest)
    ensures TryFrom(value, p) == Ok(m) <==> value == Encode(m) && Acceptable(m, p)
  {
    if TryFrom(value, p) == Ok(m) { AcceptedIsEncoding(value, p, m); }
    if value == Encode(m) && Acceptable(m, p) {
      ReadsFiveFields(m, [], p);
      assert Encode(m) + [] == Encode(m);
    }
  }

  /** Trailing bytes are always reported as such. */
  lemma TrailingBytesRejected(m: ModuleManifest, extra: Bytes, p: Platform)
    requires Acceptable(m, p) && extra != []
    ensures TryFrom(Encode(m) + extra, p) == Err(ManifestRemainderNotEmpty)
  {
    ReadsFiveFields(m, extra, p);
  }

  /** No byte string that parses is the beginning of another. */
  lemma ParsedIsNoPrefix(short: Bytes, whole: Bytes, p: Platform)
    requires TryFrom(short, p).Ok? && |short| < |whole| && whole[..|short|] == short
    ensures TryFrom(whole, p) == Err(ManifestRemainderNotEmpty)
  {
    var m, extra := TryFrom(short, p).value, whole[|short|..];
    AcceptedIsEncoding(short, p, m);
    assert whole == Encode(m) + extra;
    ReadsFiveFields(m, extra, p);
  }

  /** An encoding that was cut short anywhere is rejected. */
  lemma TruncationRejected(m: ModuleManifest, p: Platform, cut: nat)
    requires Acceptable(m, p) && cut < |Encode(m)|
    ensures TryFrom(Encode(m)[..cut], p).Err?
  {
    ParsesExactlyEncodings(Encode(m), p, m);
    if TryFrom(Encode(m)[..cut], p).Ok? { ParsedIsNoPrefix(Encode(m)[..cut], Encode(m), p); }
  }

  /** The length check comes first: a prefix too large for the platform is reported with its value. */
  lemma HugeLengthReported(len: u64, rest: Bytes, name: FieldName, p: Platform)
    requires len + PREFIX_SIZE > U64_MAX || len + PREFIX_SIZE > p.usizeMax
    ensures TryExtractPrefixedField(ToLe(len, PREFIX_SIZE) + rest, name, p) == Err(TooBigFieldSize(name, len))
  {
    PrefixPower();
    FromToLe(len, PREFIX_SIZE);
    assert (ToLe(len, PREFIX_SIZE) + rest)[..PREFIX_SIZE] == ToLe(len, PREFIX_SIZE);
  }
}
