/**
 What every generated message class does with its fields: the tag loop of
 `InternalMergeFrom`, the field writer, `CalculateSize`, `MergeFrom`, and the
 set of unknown fields.

 `Codec` holds the part that differs from message to message.  `norm` describes
 what a trip over the wire does to a value: the generated `!= 0D` tests drop a
 negative zero held in a plain `double`, everything else survives.
 */
module Messages {
  import opened Common
  import opened Wire

  datatype Msg<+K> = Msg(known: K, unknown: seq<RawField>)

  datatype Codec<!K> = Codec(
    empty: K,
    valid: K -> bool,
    recognises: RawField -> bool,
    apply: (K, RawField) -> Outcome<K>,
    fields: K -> seq<RawField>,
    size: K -> nat,
    merge: (K, K) -> K,
    norm: K -> K)

  function ApplyAll<K>(c: Codec<K>, k: K, fs: seq<RawField>): Outcome<K> {
    if fs == [] then Ok(k)
    else
      match c.apply(k, fs[0])
      case Failed => Failed
      case Ok(k') => ApplyAll(c, k', fs[1..])
  }

  function FieldsSize(fs: seq<RawField>): nat {
    if fs == [] then 0 else FieldSize(fs[0]) + FieldsSize(fs[1..])
  }

  // ---------------------------------------------------------------- laws of a codec

  ghost predicate ClosedUnderSteps<K(!new)>(c: Codec<K>) {
    && c.valid(c.empty)
    && (forall k, a :: c.valid(k) && c.valid(a) ==> c.valid(c.merge(k, a)))
    && (forall k, f :: c.valid(k) && c.recognises(f) && c.apply(k, f).Ok? ==> c.valid(c.apply(k, f).value))
  }

  /** The fields are writable, recognised by the codec, and take `size` bytes. */
  ghost predicate Fits<K>(c: Codec<K>, fs: seq<RawField>, size: nat) {
    && AllWellFormed(fs)
    && FieldsSize(fs) == size
    && forall i :: 0 <= i < |fs| ==> c.recognises(fs[i])
  }

  ghost predicate FieldsFit<K(!new)>(c: Codec<K>) {
    forall a :: c.valid(a) && c.size(a) <= INT32_MAX ==> Fits(c, c.fields(a), c.size(a))
  }

  ghost predicate NormLaws<K(!new)>(c: Codec<K>) {
    && c.norm(c.empty) == c.empty
    && (forall a :: c.valid(a) ==>
      c.norm(c.merge(c.empty, a)) == c.norm(a) && c.merge(c.empty, c.norm(a)) == c.norm(a))
  }

  ghost predicate FieldsMerge<K(!new)>(c: Codec<K>) {
    forall k, a :: c.valid(k) && c.valid(a) && c.size(a) <= INT32_MAX ==>
      ApplyAll(c, c.norm(k), c.fields(a)) == Ok(c.norm(c.merge(k, a)))
  }

  ghost predicate Lawful<K(!new)>(c: Codec<K>) {
    ClosedUnderSteps(c) && FieldsFit(c) && NormLaws(c) && FieldsMerge(c)
  }

  // ---------------------------------------------------------------- messages

  function Empty<K>(c: Codec<K>): Msg<K> {
    Msg(c.empty, [])
  }

  function MergeMsg<K>(c: Codec<K>, m: Msg<K>, other: Msg<K>): Msg<K> {
    Msg(c.merge(m.known, other.known), m.unknown + other.unknown)
  }

  function NormMsg<K>(c: Codec<K>, m: Msg<K>): Msg<K> {
    Msg(c.norm(m.known), m.unknown)
  }

  predicate UnknownTo<K>(c: Codec<K>, fs: seq<RawField>) {
    forall i :: 0 <= i < |fs| ==> WellFormed(fs[i]) && !c.recognises(fs[i])
  }

  predicate ValidMsg<K>(c: Codec<K>, m: Msg<K>) {
    c.valid(m.known) && UnknownTo(c, m.unknown)
  }

  function Encode<K>(c: Codec<K>, m: Msg<K>): Bytes {
    EncodeFields(c.fields(m.known) + m.unknown)
  }

  function CalculateSize<K>(c: Codec<K>, m: Msg<K>): nat {
    c.size(m.known) + FieldsSize(m.unknown)
  }

  function ApplyField<K>(c: Codec<K>, m: Msg<K>, f: RawField): Outcome<Msg<K>> {
    if c.recognises(f) then
      match c.apply(m.known, f)
      case Failed => Failed
      case Ok(k) => Ok(Msg(k, m.unknown))
    else Ok(Msg(m.known, m.unknown + [f]))
  }

  datatype Parsed<+M> = Complete(msg: M) | StoppedAtEndGroup(msg: M) | Malformed

  /** How the in-place tag loop ends; what it read is in the object. */
  datatype ReadStatus = AtEnd | AtEndGroup | Threw

  /** The tag loop.  Reading past the last byte ends it; an end-group tag aborts it. */
  function Parse<K>(c: Codec<K>, m: Msg<K>, b: Bytes): Parsed<Msg<K>>
    decreases |b|
  {
    if b == [] then Complete(m)
    else
      match ReadField(b)
      case BadField => Malformed
      case EndGroup => StoppedAtEndGroup(m)
      case Field(f, rest) =>
        match ApplyField(c, m, f)
        case Failed => Malformed
        case Ok(m') => Parse(c, m', rest)
  }

  /** `ReadMessage`: the nested parse must end exactly at the end of its bytes. */
  function ReadNested<K>(c: Codec<K>, m: Msg<K>, data: Bytes): Outcome<Msg<K>> {
    match Parse(c, m, data)
    case Complete(r) => Ok(r)
    case _ => Failed
  }

  // ---------------------------------------------------------------- lists of fields

  lemma {:induction false} ApplyConcat<K>(c: Codec<K>, k: K, xs: seq<RawField>, ys: seq<RawField>)
    ensures ApplyAll(c, k, xs + ys) ==
            match ApplyAll(c, k, xs) case Failed => Failed case Ok(k') => ApplyAll(c, k', ys)
  {
    if xs == [] {
      assert xs + ys == ys;
    } else {
      assert (xs + ys)[1..] == xs[1..] + ys;
      match c.apply(k, xs[0]) {
        case Failed =>
        case Ok(k') => ApplyConcat(c, k', xs[1..], ys);
      }
    }
  }

  lemma {:induction false} FieldsSizeIsLength(fs: seq<RawField>)
    requires AllWellFormed(fs)
    ensures FieldsSize(fs) == |EncodeFields(fs)|
  {
    if fs != [] {
      FieldSizeIsLength(fs[0]);
      FieldsSizeIsLength(fs[1..]);
    }
  }

  lemma {:induction false} FieldsSizeConcat(xs: seq<RawField>, ys: seq<RawField>)
    ensures FieldsSize(xs + ys) == FieldsSize(xs) + FieldsSize(ys)
  {
    if xs == [] {
      assert xs + ys == ys;
    } else {
      FieldsSizeConcat(xs[1..], ys);
      assert (xs + ys)[1..] == xs[1..] + ys;
    }
  }

  function Recognised<K>(c: Codec<K>, fs: seq<RawField>): seq<RawField> {
    if fs == [] then []
    else (if c.recognises(fs[0]) then [fs[0]] else []) + Recognised(c, fs[1..])
  }

  function Unrecognised<K>(c: Codec<K>, fs: seq<RawField>): seq<RawField> {
    if fs == [] then []
    else (if c.recognises(fs[0]) then [] else [fs[0]]) + Unrecognised(c, fs[1..])
  }

  /**
   The parser on any interleaving of known and unknown fields, followed by any
   bytes: known fields act as if the unknown ones were not there, and unknown
   fields are kept in their order.
   */
  lemma {:induction false} ParseFields<K>(c: Codec<K>, m: Msg<K>, fs: seq<RawField>, rest: Bytes)
    requires AllWellFormed(fs)
    ensures Parse(c, m, EncodeFields(fs) + rest) ==
            match ApplyAll(c, m.known, Recognised(c, fs))
            case Failed => Malformed
            case Ok(k) => Parse(c, Msg(k, m.unknown + Unrecognised(c, fs)), rest)
    decreases |fs|
  {
    if fs == [] {
      assert EncodeFields(fs) + rest == rest;
      assert m.unknown + Unrecognised(c, fs) == m.unknown;
    } else {
      var tail := EncodeFields(fs[1..]) + rest;
      assert EncodeFields(fs) + rest == EncodeField(fs[0]) + tail;
      FieldRoundTrip(fs[0], tail);
      if c.recognises(fs[0]) {
        var known := Recognised(c, fs);
        assert known[0] == fs[0] && known[1..] == Recognised(c, fs[1..]);
        assert Unrecognised(c, fs) == Unrecognised(c, fs[1..]);
        match c.apply(m.known, fs[0]) {
          case Failed =>
          case Ok(k) => ParseFields(c, Msg(k, m.unknown), fs[1..], rest);
        }
      } else {
        var m' := Msg(m.known, m.unknown + [fs[0]]);
        assert Recognised(c, fs) == Recognised(c, fs[1..]);
        ParseFields(c, m', fs[1..], rest);
        assert m'.unknown + Unrecognised(c, fs[1..]) == m.unknown + Unrecognised(c, fs);
      }
    }
  }

  /** Inserting one well-formed unknown field anywhere leaves every known field as it was. */
  lemma UnknownFieldIsInvisible<K>(c: Codec<K>, m: Msg<K>, xs: seq<RawField>, u: RawField, ys: seq<RawField>)
    requires AllWellFormed(xs) && AllWellFormed(ys) && WellFormed(u) && !c.recognises(u)
    ensures var with, without :=
              Parse(c, m, EncodeFields(xs) + EncodeField(u) + EncodeFields(ys)),
              Parse(c, m, EncodeFields(xs) + EncodeFields(ys));
            with.Complete? == without.Complete? &&
            (with.Complete? ==> with.msg.known == without.msg.known)
  {
    var fs := [u] + ys;
    assert fs[0] == u && fs[1..] == ys;
    assert EncodeFields(xs) + EncodeField(u) + EncodeFields(ys) == EncodeFields(xs) + EncodeFields(fs);
    FlatMapConcat(EncodeField, xs, fs);
    FlatMapConcat(EncodeField, xs, ys);
    RecognisedConcat(c, xs, fs);
    RecognisedConcat(c, xs, ys);
    assert EncodeFields(xs + fs) + [] == EncodeFields(xs + fs);
    assert EncodeFields(xs + ys) + [] == EncodeFields(xs + ys);
    ParseFields(c, m, xs + fs, []);
    ParseFields(c, m, xs + ys, []);
    assert Recognised(c, fs) == Recognised(c, ys);
  }

  lemma {:induction false} RecognisedConcat<K>(c: Codec<K>, xs: seq<RawField>, ys: seq<RawField>)
    ensures Recognised(c, xs + ys) == Recognised(c, xs) + Recognised(c, ys)
    ensures Unrecognised(c, xs + ys) == Unrecognised(c, xs) + Unrecognised(c, ys)
  {
    if xs == [] {
      assert xs + ys == ys;
      assert [] + Recognised(c, ys) == Recognised(c, ys) && [] + Unrecognised(c, ys) == Unrecognised(c, ys);
    } else {
      RecognisedConcat(c, xs[1..], ys);
      assert (xs + ys)[0] == xs[0] && (xs + ys)[1..] == xs[1..] + ys;
      PrependAssociates(if c.recognises(xs[0]) then [xs[0]] else [], Recognised(c, xs[1..]), Recognised(c, ys));
      PrependAssociates(if c.recognises(xs[0]) then [] else [xs[0]], Unrecognised(c, xs[1..]), Unrecognised(c, ys));
    }
  }

  lemma {:induction false} AllRecognised<K>(c: Codec<K>, fs: seq<RawField>)
    requires forall i :: 0 <= i < |fs| ==> c.recognises(fs[i])
    ensures Recognised(c, fs) == fs && Unrecognised(c, fs) == []
  {
    if fs != [] {
      AllRecognised(c, fs[1..]);
    }
  }

  lemma {:induction false} NoneRecognised<K>(c: Codec<K>, fs: seq<RawField>)
    requires forall i :: 0 <= i < |fs| ==> !c.recognises(fs[i])
    ensures Recognised(c, fs) == [] && Unrecognised(c, fs) == fs
  {
    if fs != [] {
      NoneRecognised(c, fs[1..]);
    }
  }

  // ---------------------------------------------------------------- laws of messages

  lemma SizeIsLength<K(!new)>(c: Codec<K>, m: Msg<K>)
    requires Lawful(c) && ValidMsg(c, m) && CalculateSize(c, m) <= INT32_MAX
    ensures CalculateSize(c, m) == |Encode(c, m)|
  {
    assert Fits(c, c.fields(m.known), c.size(m.known));
    FieldsSizeConcat(c.fields(m.known), m.unknown);
    FieldsSizeIsLength(c.fields(m.known) + m.unknown);
  }

  /** Reading the bytes of `a` into a message does what `MergeFrom(a)` does. */
  lemma ParseMerges<K(!new)>(c: Codec<K>, m: Msg<K>, a: Msg<K>, rest: Bytes)
    requires Lawful(c) && ValidMsg(c, m) && ValidMsg(c, a) && CalculateSize(c, a) <= INT32_MAX
    ensures Parse(c, NormMsg(c, m), Encode(c, a) + rest) == Parse(c, NormMsg(c, MergeMsg(c, m, a)), rest)
  {
    var fs := c.fields(a.known);
    assert Fits(c, fs, c.size(a.known));
    AllRecognised(c, fs);
    NoneRecognised(c, a.unknown);
    RecognisedConcat(c, fs, a.unknown);
    assert fs + [] == fs && [] + a.unknown == a.unknown;
    ParseFields(c, NormMsg(c, m), fs + a.unknown, rest);
  }

  /** `parse(write(a))` is `a`, unless `a` holds a negative zero in a plain double. */
  lemma RoundTrip<K(!new)>(c: Codec<K>, a: Msg<K>)
    requires Lawful(c) && ValidMsg(c, a) && CalculateSize(c, a) <= INT32_MAX
    ensures Parse(c, Empty(c), Encode(c, a)) == Complete(NormMsg(c, a))
    ensures Parse(c, Empty(c), Encode(c, a)) == Complete(a) <==> NormMsg(c, a) == a
  {
    ParseMerges(c, Empty(c), a, []);
    assert Encode(c, a) + [] == Encode(c, a);
    NormOfCopy(c, a);
  }

  /** Merging into an empty message makes a copy, and empty messages have no zeros to lose. */
  lemma NormOfCopy<K(!new)>(c: Codec<K>, a: Msg<K>)
    requires NormLaws(c) && c.valid(a.known)
    ensures NormMsg(c, Empty(c)) == Empty(c)
    ensures NormMsg(c, MergeMsg(c, Empty(c), a)) == NormMsg(c, a)
  {
    assert [] + a.unknown == a.unknown;
  }

  /** `parse(write(a) + write(b))` is `a.MergeFrom(b)`, under the same exact condition. */
  lemma ConcatenationMerges<K(!new)>(c: Codec<K>, a: Msg<K>, b: Msg<K>)
    requires Lawful(c) && ValidMsg(c, a) && ValidMsg(c, b)
    requires CalculateSize(c, a) <= INT32_MAX && CalculateSize(c, b) <= INT32_MAX
    ensures Parse(c, Empty(c), Encode(c, a) + Encode(c, b)) == Complete(NormMsg(c, MergeMsg(c, a, b)))
    ensures Parse(c, Empty(c), Encode(c, a) + Encode(c, b)) == Complete(MergeMsg(c, a, b)) <==>
            NormMsg(c, MergeMsg(c, a, b)) == MergeMsg(c, a, b)
  {
    ParseMerges(c, Empty(c), a, Encode(c, b));
    NormOfCopy(c, a);
    ParseMerges(c, a, b, []);
    assert Encode(c, b) + [] == Encode(c, b);
  }

  /** A nested message must end with its bytes: an end-group tag inside it is refused, whatever follows. */
  lemma NestedEndGroupIsRefused<K>(c: Codec<K>, m: Msg<K>, fs: seq<RawField>, num: nat, rest: Bytes)
    requires AllWellFormed(fs) && 0 < num < 0x2000_0000
    ensures ReadNested(c, m, EncodeFields(fs) + (Varint(8 * num + 4) + rest)) == Failed
  {
    ParseFields(c, m, fs, Varint(8 * num + 4) + rest);
    EndGroupStops(num, rest);
  }

  lemma FieldsReadAreWellFormed(b: Bytes)
    requires ReadField(b).Field?
    ensures WellFormed(ReadField(b).field)
  {
    WordRange();
  }

  /** Whatever bytes arrive, what the parser builds is a valid message. */
  lemma {:induction false} ParseKeepsValid<K(!new)>(c: Codec<K>, m: Msg<K>, b: Bytes)
    requires ClosedUnderSteps(c) && ValidMsg(c, m)
    ensures var r := Parse(c, m, b); !r.Malformed? ==> ValidMsg(c, r.msg)
    decreases |b|
  {
    if b != [] && ReadField(b).Field? {
      FieldsReadAreWellFormed(b);
      var scan := ReadField(b);
      var next := ApplyField(c, m, scan.field);
      if next.Ok? {
        assert ValidMsg(c, next.value);
        ParseKeepsValid(c, next.value, scan.rest);
      }
    }
  }

  lemma MergeKeepsValid<K(!new)>(c: Codec<K>, m: Msg<K>, a: Msg<K>)
    requires ClosedUnderSteps(c) && ValidMsg(c, m) && ValidMsg(c, a)
    ensures ValidMsg(c, MergeMsg(c, m, a))
  {
  }

  /** Decoding any accepted bytes and writing the result again loses nothing but negative zeros. */
  lemma Canonicalises<K(!new)>(c: Codec<K>, b: Bytes)
    requires Lawful(c) && Parse(c, Empty(c), b).Complete?
    requires CalculateSize(c, Parse(c, Empty(c), b).msg) <= INT32_MAX
    ensures var m := Parse(c, Empty(c), b).msg; Parse(c, Empty(c), Encode(c, m)) == Complete(NormMsg(c, m))
  {
    ParseKeepsValid(c, Empty(c), b);
    RoundTrip(c, Parse(c, Empty(c), b).msg);
  }
}
