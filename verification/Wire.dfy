/**
 The protobuf wire format and the part of a generated message class that is the
 same for every message: the tag loop, unknown fields, sizes.

 A message type contributes a `Codec`; everything proved here holds for every
 codec that is `Lawful`.  The primitives follow "Protocol Buffers Encoding",
 sections "Base 128 Varints" and "Message Structure".
 */
module Wire {
  import opened Common

  type Byte = b: int | 0 <= b < 256

  type Bytes = seq<Byte>

  /** An IEEE double, as its 64-bit pattern. */
  type Double = d: nat | d < 0x1_0000_0000_0000_0000

  const NEGATIVE_ZERO: Double := 0x8000_0000_0000_0000

  /** C# `d == 0D`: both zeros compare equal to zero. */
  predicate IsZero(d: Double) {
    d == 0 || d == NEGATIVE_ZERO
  }

  // ---------------------------------------------------------------- fixed-width words

  function Power256(k: nat): (p: nat)
    ensures p > 0
  {
    if k == 0 then 1 else 256 * Power256(k - 1)
  }

  function LittleEndian(n: nat, width: nat): (b: Bytes)
    ensures |b| == width
  {
    if width == 0 then [] else [n % 256] + LittleEndian(n / 256, width - 1)
  }

  function FromLittleEndian(b: Bytes): (n: nat)
    ensures n < Power256(|b|)
  {
    if b == [] then 0 else b[0] + 256 * FromLittleEndian(b[1..])
  }

  lemma {:induction false} LittleEndianRoundTrip(n: nat, width: nat)
    requires n < Power256(width)
    ensures FromLittleEndian(LittleEndian(n, width)) == n
  {
    if width > 0 {
      LittleEndianRoundTrip(n / 256, width - 1);
    }
  }

  lemma Power256Step(n: nat, i: nat)
    ensures n / Power256(i + 1) == n / 256 / Power256(i)
  {
    NestedDivision(n, 256, Power256(i));
  }

  /** The bytes themselves: the least significant one comes first. */
  lemma {:induction false} LittleEndianBytes(n: nat, width: nat, i: nat)
    requires i < width
    ensures LittleEndian(n, width)[i] == n / Power256(i) % 256
  {
    if i > 0 {
      LittleEndianBytes(n / 256, width - 1, i - 1);
      Power256Step(n, i - 1);
    }
  }

  lemma WordRange()
    ensures Power256(4) == 0x1_0000_0000 && Power256(8) == 0x1_0000_0000_0000_0000
  {
    assert Power256(4) == 256 * 256 * 256 * 256 * Power256(0);
    assert Power256(8) == 256 * 256 * 256 * 256 * Power256(4);
  }

  function ReadFixed64(b: Bytes): Double
    requires |b| == 8
  {
    WordRange();
    FromLittleEndian(b)
  }

  // ---------------------------------------------------------------- varints

  function Varint(n: nat): (b: Bytes)
    ensures |b| > 0
  {
    if n < 128 then [n] else [128 + n % 128] + Varint(n / 128)
  }

  datatype Scan<+T> = Scanned(value: T, rest: Bytes) | Broken

  function ReadVarint(b: Bytes, limit: nat): (r: Scan<nat>)
    ensures r.Scanned? ==> |r.rest| < |b|
  {
    if b == [] || limit == 0 then Broken
    else if b[0] < 128 then Scanned(b[0], b[1..])
    else
      match ReadVarint(b[1..], limit - 1)
      case Broken => Broken
      case Scanned(high, rest) => Scanned(b[0] - 128 + 128 * high, rest)
  }

  function Power128(k: nat): (p: nat)
    ensures p > 0
  {
    if k == 0 then 1 else 128 * Power128(k - 1)
  }

  lemma Power128Step(n: nat, i: nat)
    ensures n / Power128(i + 1) == n / 128 / Power128(i)
  {
    NestedDivision(n, 128, Power128(i));
  }

  /** The bytes themselves: seven bits each, least significant first, and a continuation bit on all but the last. */
  lemma {:induction false} VarintBytes(n: nat, i: nat)
    requires i < |Varint(n)|
    ensures Varint(n)[i] == n / Power128(i) % 128 + if i < |Varint(n)| - 1 then 128 else 0
  {
    if i > 0 {
      VarintBytes(n / 128, i - 1);
      Power128Step(n, i - 1);
    }
  }

  /** A seven-bit group below a value: the group is the first digit, the others move up by one. */
  lemma GroupBelow(low: nat, high: nat, i: nat)
    requires low < 128
    ensures (low + 128 * high) / Power128(0) % 128 == low
    ensures (low + 128 * high) / Power128(i + 1) % 128 == high / Power128(i) % 128
  {
    Power128Step(low + 128 * high, i);
    assert (low + 128 * high) / 128 == high;
  }

  /** The value of `b[..k + 1]` is read as these digits. */
  ghost predicate GroupsOf(value: nat, b: Bytes, k: nat)
    requires k < |b|
  {
    value < Power128(k + 1) && forall i :: 0 <= i <= k ==> value / Power128(i) % 128 == b[i] % 128
  }

  lemma GroupsBelow(b: Bytes, high: nat, k: nat)
    requires 0 < k < |b| && b[0] >= 128 && GroupsOf(high, b[1..], k - 1)
    ensures GroupsOf(b[0] - 128 + 128 * high, b, k)
  {
    var value := b[0] - 128 + 128 * high;
    forall i | 0 <= i <= k ensures value / Power128(i) % 128 == b[i] % 128 {
      if i == 0 {
        GroupBelow(b[0] - 128, high, 0);
      } else {
        GroupBelow(b[0] - 128, high, i - 1);
        assert b[1..][i - 1] == b[i];
      }
    }
  }

  /**
   What is read from any bytes, canonical or not: everything up to the first byte without a
   continuation bit, which must come within the limit, seven bits a byte.
   */
  lemma {:induction false} ReadVarintExactly(b: Bytes, limit: nat, k: nat)
    requires k < |b| && b[k] < 128 && forall i :: 0 <= i < k ==> b[i] >= 128
    ensures ReadVarint(b, limit).Scanned? <==> k < limit
    ensures k < limit ==> ReadVarint(b, limit).rest == b[k + 1..] && GroupsOf(ReadVarint(b, limit).value, b, k)
    decreases k
  {
    if k == 0 {
      assert b[0] / Power128(0) % 128 == b[0] % 128;
    } else if limit > 0 {
      ReadVarintExactly(b[1..], limit - 1, k - 1);
      if k < limit {
        GroupsBelow(b, ReadVarint(b[1..], limit - 1).value, k);
      }
    }
  }

  /** Bytes that all have a continuation bit are never a varint. */
  lemma {:induction false} UnterminatedVarint(b: Bytes, limit: nat)
    requires forall i :: 0 <= i < |b| ==> b[i] >= 128
    ensures ReadVarint(b, limit).Broken?
  {
    if b != [] && limit > 0 {
      UnterminatedVarint(b[1..], limit - 1);
    }
  }

  lemma {:induction false} VarintRoundTrip(n: nat, rest: Bytes, limit: nat)
    requires 0 < limit && n < Power128(limit)
    ensures ReadVarint(Varint(n) + rest, limit) == Scanned(n, rest)
  {
    if n < 128 {
      assert (Varint(n) + rest)[1..] == rest;
    } else {
      VarintRoundTrip(n / 128, rest, limit - 1);
      assert (Varint(n) + rest)[1..] == Varint(n / 128) + rest;
    }
  }

  lemma Varint64RoundTrip(n: nat, rest: Bytes)
    requires n < 0x1_0000_0000_0000_0000
    ensures ReadVarint(Varint(n) + rest, 10) == Scanned(n, rest)
  {
    assert Power128(5) == 0x8_0000_0000;
    assert Power128(10) == 0x8_0000_0000 * Power128(5) by {
      assert Power128(10) == 128 * 128 * 128 * 128 * 128 * Power128(5);
    }
    VarintRoundTrip(n, rest, 10);
  }

  /** The library's size computation: one threshold per seven bits. */
  function VarintSize(n: nat): nat {
    if n < 0x80 then 1
    else if n < 0x4000 then 2
    else if n < 0x20_0000 then 3
    else if n < 0x1000_0000 then 4
    else if n < 0x8_0000_0000 then 5
    else if n < 0x400_0000_0000 then 6
    else if n < 0x2_0000_0000_0000 then 7
    else if n < 0x100_0000_0000_0000 then 8
    else if n < 0x8000_0000_0000_0000 then 9
    else 10
  }

  lemma {:induction false} VarintSizeIsLength(n: nat)
    requires n < 0x1_0000_0000_0000_0000
    ensures VarintSize(n) == |Varint(n)|
  {
    if n >= 128 {
      VarintSizeIsLength(n / 128);
    }
  }

  // ---------------------------------------------------------------- scalars

  /** Negative `int32` values are sign-extended to 64 bits before encoding. */
  function Int32ToWire(v: Int32): (n: nat)
    ensures n < 0x1_0000_0000_0000_0000 && (n - v) % 0x1_0000_0000_0000_0000 == 0
  {
    if v < 0 then v + 0x1_0000_0000_0000_0000 else v
  }

  function Int32FromWire(n: nat): Int32 {
    WrapInt32(n)
  }

  type Int64 = x: int | -0x8000_0000_0000_0000 <= x < 0x8000_0000_0000_0000

  function Int64ToWire(v: Int64): (n: nat)
    ensures n < 0x1_0000_0000_0000_0000 && (n - v) % 0x1_0000_0000_0000_0000 == 0
  {
    if v < 0 then v + 0x1_0000_0000_0000_0000 else v
  }

  function Int64FromWire(n: nat): (v: Int64)
    ensures (v - n) % 0x1_0000_0000_0000_0000 == 0
  {
    var low := n % 0x1_0000_0000_0000_0000;
    if low < 0x8000_0000_0000_0000 then low else low - 0x1_0000_0000_0000_0000
  }

  lemma Int32Survives(v: Int32)
    ensures Int32FromWire(Int32ToWire(v)) == v
  {
  }

  lemma Int64Survives(v: Int64)
    ensures Int64FromWire(Int64ToWire(v)) == v
  {
  }

  /** `ComputeInt32Size`: a negative value always takes ten bytes. */
  function Int32Size(v: Int32): nat {
    if v < 0 then 10 else VarintSize(v)
  }

  function Int64Size(v: Int64): nat {
    VarintSize(Int64ToWire(v))
  }

  // ---------------------------------------------------------------- fields

  datatype RawField =
    | VarintField(num: nat, value: nat)
    | Fixed64Field(num: nat, bits: Double)
    | BytesField(num: nat, data: Bytes)
    | Fixed32Field(num: nat, word: nat)

  /** What a conforming writer can produce. */
  predicate WellFormed(f: RawField) {
    && 0 < f.num < 0x2000_0000
    && match f
       case VarintField(_, v) => v < 0x1_0000_0000_0000_0000
       case Fixed64Field(_, _) => true
       case BytesField(_, data) => |data| <= INT32_MAX
       case Fixed32Field(_, word) => word < 0x1_0000_0000
  }

  predicate AllWellFormed(fs: seq<RawField>) {
    forall i :: 0 <= i < |fs| ==> WellFormed(fs[i])
  }

  function WireType(f: RawField): nat {
    match f
    case VarintField(_, _) => 0
    case Fixed64Field(_, _) => 1
    case BytesField(_, _) => 2
    case Fixed32Field(_, _) => 5
  }

  function Tag(f: RawField): nat {
    8 * f.num + WireType(f)
  }

  function EncodeValue(f: RawField): Bytes {
    match f
    case VarintField(_, v) => Varint(v)
    case Fixed64Field(_, bits) => LittleEndian(bits, 8)
    case BytesField(_, data) => Varint(|data|) + data
    case Fixed32Field(_, word) => LittleEndian(word, 4)
  }

  function EncodeField(f: RawField): Bytes {
    Varint(Tag(f)) + EncodeValue(f)
  }

  function EncodeFields(fs: seq<RawField>): Bytes {
    FlatMap(EncodeField, fs)
  }

  function FieldSize(f: RawField): nat {
    VarintSize(Tag(f)) +
    match f
    case VarintField(_, v) => VarintSize(v)
    case Fixed64Field(_, _) => 8
    case BytesField(_, data) => VarintSize(|data|) + |data|
    case Fixed32Field(_, _) => 4
  }

  datatype FieldScan = Field(field: RawField, rest: Bytes) | EndGroup | BadField

  /** One turn of `ReadTag` plus the read of the value the wire type calls for. */
  function ReadField(b: Bytes): (r: FieldScan)
    ensures r.Field? ==> |r.rest| < |b|
  {
    match ReadVarint(b, 10)
    case Broken => BadField
    case Scanned(tag, rest) => if tag < 0x1_0000_0000 then ReadValue(tag, rest) else BadField
  }

  function ReadValue(tag: nat, b: Bytes): (r: FieldScan)
    ensures r.Field? ==> |r.rest| <= |b|
  {
    var num := tag / 8;
    if num == 0 then BadField
    else if tag % 8 == 0 then
      match ReadVarint(b, 10) {
        case Broken => BadField
        case Scanned(v, rest) => Field(VarintField(num, v % 0x1_0000_0000_0000_0000), rest)
      }
    else if tag % 8 == 1 then
      if |b| < 8 then BadField else Field(Fixed64Field(num, ReadFixed64(b[..8])), b[8..])
    else if tag % 8 == 2 then
      match ReadVarint(b, 10) {
        case Broken => BadField
        case Scanned(n, rest) =>
          if n > INT32_MAX || n > |rest| then BadField
          else Field(BytesField(num, rest[..n]), rest[n..])
      }
    else if tag % 8 == 4 then EndGroup
    else if tag % 8 == 5 then
      if |b| < 4 then BadField else Field(Fixed32Field(num, FromLittleEndian(b[..4])), b[4..])
    else BadField
  }

  lemma TagSplits(f: RawField)
    requires WellFormed(f)
    ensures Tag(f) < 0x1_0000_0000 && Tag(f) / 8 == f.num && Tag(f) % 8 == WireType(f)
  {
  }

  lemma DataRoundTrip(data: Bytes, rest: Bytes)
    requires |data| <= INT32_MAX
    ensures ReadVarint(Varint(|data|) + data + rest, 10) == Scanned(|data|, data + rest)
  {
    assert Varint(|data|) + data + rest == Varint(|data|) + (data + rest);
    Varint64RoundTrip(|data|, data + rest);
  }

  lemma TakeDrop(a: Bytes, b: Bytes)
    ensures (a + b)[..|a|] == a && (a + b)[|a|..] == b
  {
  }

  lemma Fixed64RoundTrip(tag: nat, num: nat, bits: Double, rest: Bytes)
    requires 0 < num && tag / 8 == num && tag % 8 == 1
    ensures ReadValue(tag, LittleEndian(bits, 8) + rest) == Field(Fixed64Field(num, bits), rest)
  {
    WordRange();
    LittleEndianRoundTrip(bits, 8);
    TakeDrop(LittleEndian(bits, 8), rest);
  }

  lemma BytesRoundTrip(tag: nat, num: nat, data: Bytes, rest: Bytes)
    requires 0 < num && tag / 8 == num && tag % 8 == 2 && |data| <= INT32_MAX
    ensures ReadValue(tag, Varint(|data|) + data + rest) == Field(BytesField(num, data), rest)
  {
    DataRoundTrip(data, rest);
    TakeDrop(data, rest);
  }

  lemma Fixed32RoundTrip(tag: nat, num: nat, word: nat, rest: Bytes)
    requires 0 < num && tag / 8 == num && tag % 8 == 5 && word < 0x1_0000_0000
    ensures ReadValue(tag, LittleEndian(word, 4) + rest) == Field(Fixed32Field(num, word), rest)
  {
    WordRange();
    LittleEndianRoundTrip(word, 4);
    TakeDrop(LittleEndian(word, 4), rest);
  }

  lemma ValueRoundTrip(f: RawField, rest: Bytes)
    requires WellFormed(f)
    ensures ReadValue(Tag(f), EncodeValue(f) + rest) == Field(f, rest)
  {
    TagSplits(f);
    match f
    case VarintField(_, v) => Varint64RoundTrip(v, rest);
    case Fixed64Field(num, bits) => Fixed64RoundTrip(Tag(f), num, bits, rest);
    case BytesField(num, data) => BytesRoundTrip(Tag(f), num, data, rest);
    case Fixed32Field(num, word) => Fixed32RoundTrip(Tag(f), num, word, rest);
  }

  lemma HeaderRoundTrip(tag: nat, b: Bytes)
    requires tag < 0x1_0000_0000
    ensures ReadField(Varint(tag) + b) == ReadValue(tag, b)
  {
    Varint64RoundTrip(tag, b);
  }

  lemma FieldRoundTrip(f: RawField, rest: Bytes)
    requires WellFormed(f)
    ensures ReadField(EncodeField(f) + rest) == Field(f, rest)
  {
    var head, body := Varint(Tag(f)), EncodeValue(f);
    assert EncodeField(f) + rest == head + (body + rest);
    TagSplits(f);
    HeaderRoundTrip(Tag(f), body + rest);
    ValueRoundTrip(f, rest);
  }

  lemma FieldSizeIsLength(f: RawField)
    requires WellFormed(f)
    ensures FieldSize(f) == |EncodeField(f)|
  {
    VarintSizeIsLength(Tag(f));
    match f {
      case VarintField(_, v) => VarintSizeIsLength(v);
      case Fixed64Field(_, _) =>
      case BytesField(_, data) => VarintSizeIsLength(|data|);
      case Fixed32Field(_, _) =>
    }
  }

  // ---------------------------------------------------------------- the exact bytes, and what is refused

  /** One field of each wire type, byte by byte. */
  lemma FieldBytes(num: nat, v: nat, bits: Double, data: Bytes, word: nat)
    requires 1 <= num <= 15
    ensures EncodeField(VarintField(num, v)) == [8 * num] + Varint(v)
    ensures EncodeField(Fixed64Field(num, bits)) == [8 * num + 1] + LittleEndian(bits, 8)
    ensures EncodeField(BytesField(num, data)) == [8 * num + 2] + (Varint(|data|) + data)
    ensures EncodeField(Fixed32Field(num, word)) == [8 * num + 5] + LittleEndian(word, 4)
  {
  }

  /** An end-group tag stops the reader, whatever follows. */
  lemma EndGroupStops(num: nat, rest: Bytes)
    requires 0 < num < 0x2000_0000
    ensures ReadField(Varint(8 * num + 4) + rest) == EndGroup
  {
    var tag := 8 * num + 4;
    HeaderRoundTrip(tag, rest);
    assert tag / 8 == num && tag % 8 == 4;
  }

  /** Field number zero, the wire types that do not exist, and groups are refused. */
  lemma InvalidTagIsRefused(tag: nat, rest: Bytes)
    requires tag < 0x1_0000_0000 && (tag / 8 == 0 || tag % 8 == 3 || tag % 8 > 5)
    ensures ReadField(Varint(tag) + rest) == BadField
  {
    HeaderRoundTrip(tag, rest);
  }

  lemma CutVarint(n: nat, k: nat, limit: nat)
    requires k < |Varint(n)|
    ensures ReadVarint(Varint(n)[..k], limit).Broken?
  {
    forall i | 0 <= i < k ensures Varint(n)[..k][i] >= 128 {
      VarintBytes(n, i);
    }
    UnterminatedVarint(Varint(n)[..k], limit);
  }

  /** No proper beginning of a field reads as a field. */
  lemma CutFieldIsRefused(f: RawField, k: nat)
    requires WellFormed(f) && k < |EncodeField(f)|
    ensures ReadField(EncodeField(f)[..k]) == BadField
  {
    var head, body := Varint(Tag(f)), EncodeValue(f);
    if k < |head| {
      assert EncodeField(f)[..k] == head[..k];
      CutVarint(Tag(f), k, 10);
    } else {
      assert EncodeField(f)[..k] == head + body[..k - |head|];
      TagSplits(f);
      HeaderRoundTrip(Tag(f), body[..k - |head|]);
      CutValueIsRefused(f, k - |head|);
    }
  }

  lemma CutValueIsRefused(f: RawField, k: nat)
    requires WellFormed(f) && k < |EncodeValue(f)|
    ensures ReadValue(Tag(f), EncodeValue(f)[..k]) == BadField
  {
    TagSplits(f);
    match f
    case VarintField(_, v) => CutVarint(v, k, 10);
    case BytesField(_, data) =>
      var size := Varint(|data|);
      if k < |size| {
        assert EncodeValue(f)[..k] == size[..k];
        CutVarint(|data|, k, 10);
      } else {
        assert EncodeValue(f)[..k] == size + data[..k - |size|];
        Varint64RoundTrip(|data|, data[..k - |size|]);
      }
    case _ =>
  }
}
