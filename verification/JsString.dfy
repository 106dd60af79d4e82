/** UTF-16 to UTF-8 as TextEncoder does it (section 3 of RFC 3629). */
module TextEncoding {
  import opened Wrappers
  import opened RustInts

  predicate IsHigh(u: u16) { 0xD800 <= u < 0xDC00 }

  predicate IsLow(u: u16) { 0xDC00 <= u < 0xE000 }

  /** How many code units the first character takes. */
  function FirstLength(s: seq<u16>): nat
    requires s != []
  {
    if IsHigh(s[0]) && |s| > 1 && IsLow(s[1]) then 2 else 1
  }

  /** The first character; a surrogate without its other half becomes U+FFFD. */
  function FirstPoint(s: seq<u16>): nat
    requires s != []
  {
    if FirstLength(s) == 2 then 0x1_0000 + (s[0] as int - 0xD800) * 0x400 + (s[1] as int - 0xDC00)
    else if IsHigh(s[0]) || IsLow(s[0]) then 0xFFFD
    else s[0]
  }

  /** A Unicode scalar value: what UTF-8 can encode. */
  predicate IsScalar(c: nat) { c < 0xD800 || 0xE000 <= c < 0x11_0000 }

  function EncodePoint(c: nat): seq<u8>
    requires IsScalar(c)
  {
    if c < 0x80 then [c]
    else if c < 0x800 then [0xC0 + c / 0x40, 0x80 + c % 0x40]
    else if c < 0x1_0000 then [0xE0 + c / 0x1000, 0x80 + c / 0x40 % 0x40, 0x80 + c % 0x40]
    else [0xF0 + c / 0x4_0000, 0x80 + c / 0x1000 % 0x40, 0x80 + c / 0x40 % 0x40, 0x80 + c % 0x40]
  }

  lemma FirstPointIsScalar(s: seq<u16>)
    requires s != []
    ensures IsScalar(FirstPoint(s))
  {
  }

  /** The bytes of the first character. */
  function First(s: seq<u16>): seq<u8>
    requires s != []
  {
    FirstPointIsScalar(s);
    EncodePoint(FirstPoint(s))
  }

  function Utf8(s: seq<u16>): seq<u8> {
    if s == [] then [] else First(s) + Utf8(s[FirstLength(s)..])
  }

  function Points(s: seq<u16>): seq<nat> {
    if s == [] then [] else [FirstPoint(s)] + Points(s[FirstLength(s)..])
  }

  // ----- Reading UTF-8 back -----

  predicate IsTail(b: u8) { 0x80 <= b < 0xC0 }

  /** The first character of a byte string and its length, by the leading byte. */
  function ReadPoint(b: seq<u8>): Option<(nat, nat)> {
    if b == [] then None
    else if b[0] < 0x80 then Some((b[0], 1))
    else if 0xC0 <= b[0] < 0xE0 && |b| >= 2 && IsTail(b[1]) then
      Some(((b[0] as int - 0xC0) * 0x40 + (b[1] as int - 0x80), 2))
    else if 0xE0 <= b[0] < 0xF0 && |b| >= 3 && IsTail(b[1]) && IsTail(b[2]) then
      Some(((b[0] as int - 0xE0) * 0x1000 + (b[1] as int - 0x80) * 0x40 + (b[2] as int - 0x80), 3))
    else if 0xF0 <= b[0] < 0xF8 && |b| >= 4 && IsTail(b[1]) && IsTail(b[2]) && IsTail(b[3]) then
      Some(((b[0] as int - 0xF0) * 0x4_0000 + (b[1] as int - 0x80) * 0x1000 + (b[2] as int - 0x80) * 0x40 + (b[3] as int - 0x80), 4))
    else None
  }

  function ReadPoints(b: seq<u8>): Option<seq<nat>>
    decreases |b|
  {
    if b == [] then Some([])
    else
      match ReadPoint(b)
      case None => None
      case Some((c, n)) =>
        match ReadPoints(b[n..])
        case None => None
        case Some(rest) => Some([c] + rest)
  }

  lemma PointReadsBack(c: nat, rest: seq<u8>)
    requires IsScalar(c)
    ensures ReadPoint(EncodePoint(c) + rest) == Some((c, |EncodePoint(c)|))
  {
    var b := EncodePoint(c) + rest;
    assert forall i :: 0 <= i < |EncodePoint(c)| ==> b[i] == EncodePoint(c)[i];
    assert c / 0x40 % 0x40 == c / 0x40 - c / 0x1000 * 0x40;
    assert c / 0x1000 % 0x40 == c / 0x1000 - c / 0x4_0000 * 0x40;
  }

  /** The encoding loses nothing but the difference between lone surrogates. */
  lemma {:induction false} Utf8ReadsBack(s: seq<u16>)
    ensures ReadPoints(Utf8(s)) == Some(Points(s))
    decreases |s|
  {
    if s != [] {
      var rest := s[FirstLength(s)..];
      Utf8ReadsBack(rest);
      FirstPointIsScalar(s);
      PointReadsBack(FirstPoint(s), Utf8(rest));
      assert Utf8(s)[|First(s)|..] == Utf8(rest);
    }
  }

  // ----- The capacity bound -----

  lemma FirstFits(s: seq<u16>)
    requires s != []
    ensures |First(s)| <= 3 * FirstLength(s)
  {
  }

  /** Three bytes for each code unit are always enough, surrogate pairs included. */
  lemma {:induction false} Utf8Bound(s: seq<u16>)
    ensures |Utf8(s)| <= 3 * |s|
    decreases |s|
  {
    if s != [] {
      FirstFits(s);
      Utf8Bound(s[FirstLength(s)..]);
    }
  }

  /** encodeInto: whole characters as long as they fit; the units read and the bytes written. */
  function EncodeInto(s: seq<u16>, capacity: nat): (nat, seq<u8>)
    decreases |s|
  {
    if s == [] || |First(s)| > capacity then (0, [])
    else
      var (read, bytes) := EncodeInto(s[FirstLength(s)..], capacity - |First(s)|);
      (read + FirstLength(s), First(s) + bytes)
  }

  lemma {:induction false} EncodeIntoAll(s: seq<u16>, capacity: nat)
    requires |Utf8(s)| <= capacity
    ensures EncodeInto(s, capacity) == (|s|, Utf8(s))
    decreases |s|
  {
    if s != [] { EncodeIntoAll(s[FirstLength(s)..], capacity - |First(s)|); }
  }

  lemma {:induction false} EncodeIntoFits(s: seq<u16>, capacity: nat)
    ensures |EncodeInto(s, capacity).1| <= capacity
    decreases |s|
  {
    if s != [] && |First(s)| <= capacity { EncodeIntoFits(s[FirstLength(s)..], capacity - |First(s)|); }
  }

  predicate AllAscii(s: seq<u16>) {
    forall i :: 0 <= i < |s| ==> s[i] < 0x80
  }

  /** An ASCII prefix is its own encoding and never cuts a character in two. */
  lemma {:induction false} AsciiPrefix(s: seq<u16>, k: nat)
    requires k <= |s| && AllAscii(s[..k])
    ensures |Utf8(s)| >= k && Utf8(s)[k..] == Utf8(s[k..])
    ensures forall i :: 0 <= i < k ==> Utf8(s)[i] == s[i]
    decreases k
  {
    if k > 0 {
      assert s[..k][0] == s[0];
      assert First(s) == [s[0]] && FirstLength(s) == 1;
      var rest := s[1..];
      assert rest[..k - 1] == s[..k][1..];
      AsciiPrefix(rest, k - 1);
      assert rest[k - 1..] == s[k..];
      assert Utf8(s) == [s[0]] + Utf8(rest);
      assert Utf8(s)[k..] == Utf8(rest)[k - 1..];
    }
  }
}

/** passStringToWasm0 of marine_js.js over a linear memory with an allocator. */
module JsString {
  import opened Wrappers
  import opened RustInts
  import opened TextEncoding

  function Put(s: seq<u8>, k: nat, b: u8): seq<u8>
    requires k < |s|
  {
    var updated: seq<u8> := s[k := b]; updated
  }

  /** Blocks lie inside the first `top` bytes, apart from one another, and memory holds their contents. */
  ghost predicate Stored(memory: seq<u8>, top: nat, blocks: map<nat, seq<u8>>) {
    && top <= |memory|
    && (forall p :: p in blocks ==> p + |blocks[p]| <= top)
    && (forall p, q :: p in blocks && q in blocks && p < q ==> p + |blocks[p]| <= q)
    && (forall p, k :: p in blocks && 0 <= k < |blocks[p]| ==> memory[p + k] == blocks[p][k])
  }

  lemma StoredBehind(memory: seq<u8>, longer: seq<u8>, top: nat, blocks: map<nat, seq<u8>>, ptr: nat, len: nat)
    requires Stored(memory, top, blocks) && ptr == top + 1 && ptr + len <= |longer|
    requires forall i :: 0 <= i < top ==> longer[i] == memory[i]
    ensures ptr !in blocks
    ensures Stored(longer, ptr + len, blocks[ptr := longer[ptr..ptr + len]])
  {
  }

  lemma StoredPut(memory: seq<u8>, top: nat, blocks: map<nat, seq<u8>>, ptr: nat, k: nat, b: u8)
    requires Stored(memory, top, blocks) && ptr in blocks && k < |blocks[ptr]|
    ensures ptr + k < |memory|
    ensures Stored(Put(memory, ptr + k, b), top, blocks[ptr := Put(blocks[ptr], k, b)])
  {
  }

  /** `after` is `before` with `bytes` written at offset `k`. */
  ghost predicate Overwritten(before: seq<u8>, after: seq<u8>, k: nat, bytes: seq<u8>) {
    && |after| == |before| && k + |bytes| <= |before|
    && forall i :: 0 <= i < |after| ==> after[i] == if k <= i < k + |bytes| then bytes[i - k] else before[i]
  }

  lemma MovedBlock<V>(blocks: map<nat, V>, ptr: nat, moved: nat, first: V, second: V)
    requires moved != ptr
    ensures blocks[moved := first][moved := second] - {ptr} == (blocks - {ptr})[moved := second]
  {
  }

  lemma StoredWithout(memory: seq<u8>, top: nat, blocks: map<nat, seq<u8>>, ptr: nat)
    requires Stored(memory, top, blocks)
    ensures Stored(memory, top, blocks - {ptr})
  {
  }

  /** Linear memory. Callers rely on the contracts of Malloc and Realloc alone: a block of the size
      asked for, all other blocks kept, memory possibly moved to a new buffer. The bodies are the
      simplest allocator that keeps these contracts. `blocks` maps the address of each block to its
      contents. */
  class LinearMemory {
    var data: array<u8>
    var top: nat
    ghost var blocks: map<nat, seq<u8>>

    ghost predicate Valid()
      reads this, data
    {
      Stored(data[..], top, blocks)
    }

    constructor ()
      ensures Valid() && blocks == map[] && fresh(data)
    {
      data := new u8[0];
      top := 0;
      blocks := map[];
    }

    method Malloc(len: nat) returns (ptr: nat, ghost content: seq<u8>)
      requires Valid()
      modifies this
      ensures Valid() && (data == old(data) || fresh(data))
      ensures ptr !in old(blocks) && |content| == len && blocks == old(blocks)[ptr := content]
    {
      ptr := top + 1;
      ghost var before := data[..];
      if data.Length < ptr + len {
        var bigger := new u8[ptr + len];
        forall i | 0 <= i < top { bigger[i] := data[i]; }
        data := bigger;
      }
      StoredBehind(before, data[..], top, blocks, ptr, len);
      top := ptr + len;
      content := data[..][ptr..ptr + len];
      blocks := blocks[ptr := content];
    }

    method SetByte(ptr: nat, k: nat, b: u8)
      requires Valid() && ptr in blocks && k < |blocks[ptr]|
      modifies data, this`blocks
      ensures Valid() && blocks == old(blocks)[ptr := Put(old(blocks)[ptr], k, b)]
    {
      StoredPut(data[..], top, blocks, ptr, k, b);
      ghost var after := Put(data[..], ptr + k, b);
      data[ptr + k] := b;
      assert data[..] == after;
      blocks := blocks[ptr := Put(blocks[ptr], k, b)];
    }

    /** Uint8Array.set into the block, from offset `k` on. */
    method SetBytes(ptr: nat, k: nat, bytes: seq<u8>) returns (ghost content: seq<u8>)
      requires Valid() && ptr in blocks && k + |bytes| <= |blocks[ptr]|
      modifies data, this`blocks
      ensures Valid() && blocks == old(blocks)[ptr := content] && Overwritten(old(blocks)[ptr], content, k, bytes)
    {
      content := blocks[ptr];
      for n := 0 to |bytes|
        invariant Valid() && blocks == old(blocks)[ptr := content] && Overwritten(old(blocks)[ptr], content, k, bytes[..n])
      {
        SetByte(ptr, k + n, bytes[n]);
        content := Put(content, k + n, bytes[n]);
        assert blocks == old(blocks)[ptr := content];
      }
      assert bytes[..|bytes|] == bytes;
    }

    /** The part of a block that a reallocation keeps. */
    static function Kept(oldLen: nat, newLen: nat): nat {
      if oldLen < newLen then oldLen else newLen
    }

    method Realloc(ptr: nat, oldLen: nat, newLen: nat) returns (moved: nat, ghost content: seq<u8>)
      requires Valid() && ptr in blocks && |blocks[ptr]| == oldLen
      modifies this, data
      ensures Valid() && (data == old(data) || fresh(data))
      ensures moved !in old(blocks) - {ptr} && |content| == newLen && blocks == (old(blocks) - {ptr})[moved := content]
      ensures forall i :: 0 <= i < Kept(oldLen, newLen) ==> content[i] == old(blocks)[ptr][i]
    {
      ghost var before, uninit := blocks, [];
      moved, uninit := Malloc(newLen);
      var bytes := Read(ptr, Kept(oldLen, newLen));
      content := SetBytes(moved, 0, bytes);
      StoredWithout(data[..], top, blocks, ptr);
      MovedBlock(before, ptr, moved, uninit, content);
      blocks := blocks - {ptr};
    }

    /** The first `count` bytes of a block. */
    method Read(ptr: nat, count: nat) returns (bytes: seq<u8>)
      requires Valid() && ptr in blocks && count <= |blocks[ptr]|
      ensures |bytes| == count && forall i :: 0 <= i < count ==> bytes[i] == blocks[ptr][i]
    {
      assert ptr + |blocks[ptr]| <= top;
      bytes := data[ptr..ptr + count];
      forall i | 0 <= i < count
        ensures bytes[i] == blocks[ptr][i]
      {
        assert data[..][ptr + i] == blocks[ptr][i];
      }
    }
  }

  /** encodeString in both its forms: encodeInto where there is one, otherwise encode and set. It fills
      the block of `len` bytes from `offset` on. Some is the number of bytes written; None is the
      RangeError of a set that does not fit. */
  method EncodeString(memory: LinearMemory, arg: seq<u16>, ptr: nat, offset: nat, len: nat, hasEncodeInto: bool)
    returns (written: Option<nat>, ghost content: seq<u8>)
    requires memory.Valid() && ptr in memory.blocks && offset <= len == |memory.blocks[ptr]|
    modifies memory.data, memory`blocks
    ensures memory.Valid() && memory.blocks == old(memory.blocks)[ptr := content]
    ensures offset + |Utf8(arg)| <= len ==>
              written == Some(|Utf8(arg)|) && Overwritten(old(memory.blocks)[ptr], content, offset, Utf8(arg))
  {
    var bytes := Utf8(arg);
    content := memory.blocks[ptr];
    if hasEncodeInto {
      if |bytes| <= len - offset { EncodeIntoAll(arg, len - offset); }
      EncodeIntoFits(arg, len - offset);
      bytes := EncodeInto(arg, len - offset).1;
    } else if |bytes| > len - offset {
      return None, content;
    }
    content := memory.SetBytes(ptr, offset, bytes);
    return Some(|bytes|), content;
  }

  /** The loop that copies ASCII code units byte by byte until the first other one. */
  method CopyAscii(memory: LinearMemory, arg: seq<u16>, ptr: nat) returns (offset: nat, ghost content: seq<u8>)
    requires memory.Valid() && ptr in memory.blocks && |memory.blocks[ptr]| == |arg|
    modifies memory.data, memory`blocks
    ensures memory.Valid() && |content| == |arg| && memory.blocks == old(memory.blocks)[ptr := content]
    ensures offset <= |arg| && AllAscii(arg[..offset]) && (offset < |arg| ==> arg[offset] > 0x7F)
    ensures forall i :: 0 <= i < offset ==> content[i] == arg[i]
  {
    offset, content := 0, memory.blocks[ptr];
    while offset < |arg|
      invariant memory.Valid() && |content| == |arg| && memory.blocks == old(memory.blocks)[ptr := content]
      invariant offset <= |arg| && AllAscii(arg[..offset])
      invariant forall i :: 0 <= i < offset ==> content[i] == arg[i]
    {
      var code := arg[offset];
      if code > 0x7F { break; }
      memory.SetByte(ptr, offset, code);
      content := Put(content, offset, code);
      offset := offset + 1;
    }
  }

  /** The part after the ASCII prefix: room for three bytes per remaining code unit, encode, shrink. */
  method EncodeRest(memory: LinearMemory, arg: seq<u16>, ptr: nat, done: nat, hasEncodeInto: bool) returns (moved: nat, end: nat)
    requires memory.Valid() && ptr in memory.blocks && |memory.blocks[ptr]| == |arg|
    requires done <= |arg| && AllAscii(arg[..done])
    requires forall i :: 0 <= i < done ==> memory.blocks[ptr][i] == arg[i]
    modifies memory, memory.data
    ensures memory.Valid()
    ensures moved !in old(memory.blocks) - {ptr} && memory.blocks == (old(memory.blocks) - {ptr})[moved := Utf8(arg)]
    ensures end == |Utf8(arg)|
  {
    ghost var others := memory.blocks - {ptr};
    var rest := arg[done..];
    var len := done + |rest| * 3;
    var larger, room := memory.Realloc(ptr, |arg|, len);
    Utf8Bound(rest);
    var written, filled := EncodeString(memory, rest, larger, done, len, hasEncodeInto);
    end := done + written.value;
    Joined(arg, done, room, filled);
    ghost var content;
    moved, content := memory.Realloc(larger, len, end);
    assert content == Utf8(arg);
    Replaced(others, larger, room, filled);
  }

  lemma Replaced<V>(others: map<nat, V>, larger: nat, room: V, filled: V)
    requires larger !in others
    ensures others[larger := room][larger := filled] - {larger} == others
  {
  }

  lemma Joined(arg: seq<u16>, done: nat, room: seq<u8>, filled: seq<u8>)
    requires done <= |arg| && AllAscii(arg[..done]) && done <= |room|
    requires forall i :: 0 <= i < done ==> room[i] == arg[i]
    requires Overwritten(room, filled, done, Utf8(arg[done..]))
    ensures done + |Utf8(arg[done..])| == |Utf8(arg)| <= |filled|
    ensures forall i :: 0 <= i < |Utf8(arg)| ==> filled[i] == Utf8(arg)[i]
  {
    AsciiPrefix(arg, done);
    forall i | 0 <= i < |Utf8(arg)|
      ensures filled[i] == Utf8(arg)[i]
    {
      if i >= done { assert Utf8(arg)[done..][i - done] == Utf8(arg)[i]; }
    }
  }

  /** With realloc: copy ASCII, then encode the rest into a larger block and shrink it. Without: encode
      at once. Both leave exactly the UTF-8 form of the string in a block of exactly that size, and
      touch no other block. */
  method PassStringToWasm0(memory: LinearMemory, arg: seq<u16>, hasRealloc: bool, hasEncodeInto: bool)
    returns (ptr: nat, wasmVectorLen: nat)
    requires memory.Valid()
    modifies memory, memory.data
    ensures memory.Valid()
    ensures ptr !in old(memory.blocks) && memory.blocks == old(memory.blocks)[ptr := Utf8(arg)]
    ensures wasmVectorLen == |Utf8(arg)|
  {
    ghost var content;
    ghost var before := memory.blocks;
    if !hasRealloc {
      var buf := Utf8(arg);
      ptr, content := memory.Malloc(|buf|);
      content := memory.SetBytes(ptr, 0, buf);
      assert content == buf;
      return ptr, |buf|;
    }
    var len := |arg|;
    ptr, content := memory.Malloc(len);
    ghost var uninit := content;
    var offset;
    offset, content := CopyAscii(memory, arg, ptr);
    if offset != len {
      Replaced(before, ptr, uninit, content);
      ptr, offset := EncodeRest(memory, arg, ptr, offset, hasEncodeInto);
    } else {
      AsciiOnly(arg, content);
    }
    wasmVectorLen := offset;
  }

  lemma AsciiOnly(arg: seq<u16>, content: seq<u8>)
    requires AllAscii(arg[..|arg|]) && |content| == |arg| && forall i :: 0 <= i < |arg| ==> content[i] == arg[i]
    ensures content == Utf8(arg)
  {
    AsciiPrefix(arg, |arg|);
    assert Utf8(arg)[|arg|..] == Utf8([]);
  }
}
