/** How one field of a message is written, sized and merged, by kind of field. */
module Slots {
  import opened Common
  import opened Wire
  import opened Messages

  function DoubleSlot(num: nat, d: Double): seq<RawField> {
    if IsZero(d) then [] else [Fixed64Field(num, d)]
  }

  function BoolSlot(num: nat, b: bool): seq<RawField> {
    if b then [VarintField(num, 1)] else []
  }

  function Int32Slot(num: nat, v: Int32): seq<RawField> {
    if v != 0 then [VarintField(num, Int32ToWire(v))] else []
  }

  function Int64Slot(num: nat, v: Int64): seq<RawField> {
    if v != 0 then [VarintField(num, Int64ToWire(v))] else []
  }

  function StringSlot(num: nat, s: Bytes): seq<RawField> {
    if |s| != 0 then [BytesField(num, s)] else []
  }

  function OptionalDoubleSlot(num: nat, d: Option<Double>): seq<RawField> {
    if d.Some? then [Fixed64Field(num, d.value)] else []
  }

  function OptionalInt32Slot(num: nat, v: Option<Int32>): seq<RawField> {
    if v.Some? then [VarintField(num, Int32ToWire(v.value))] else []
  }

  function StringsSlot(num: nat, ss: seq<Bytes>): seq<RawField> {
    seq(|ss|, i requires 0 <= i < |ss| => BytesField(num, ss[i]))
  }

  function MessagesSlot<K>(num: nat, c: Codec<K>, ms: seq<Msg<K>>): seq<RawField> {
    seq(|ms|, i requires 0 <= i < |ms| => BytesField(num, Encode(c, ms[i])))
  }

  function DoubleSize(d: Double): nat {
    if IsZero(d) then 0 else 1 + 8
  }

  function BoolSize(b: bool): nat {
    if b then 1 + 1 else 0
  }

  function Int32SlotSize(v: Int32): nat {
    if v != 0 then 1 + Int32Size(v) else 0
  }

  function Int64SlotSize(v: Int64): nat {
    if v != 0 then 1 + Int64Size(v) else 0
  }

  function StringSize(s: Bytes): nat {
    if |s| != 0 then 1 + DelimitedSize(|s|) else 0
  }

  function OptionalDoubleSize(d: Option<Double>): nat {
    if d.Some? then 1 + 8 else 0
  }

  function OptionalInt32Size(v: Option<Int32>): nat {
    if v.Some? then 1 + Int32Size(v.value) else 0
  }

  function DelimitedSize(length: nat): nat {
    VarintSize(length) + length
  }

  function StringsSize(ss: seq<Bytes>): nat {
    if ss == [] then 0 else 1 + DelimitedSize(|ss[0]|) + StringsSize(ss[1..])
  }

  function MessagesSize<K>(c: Codec<K>, ms: seq<Msg<K>>): nat {
    if ms == [] then 0 else 1 + DelimitedSize(CalculateSize(c, ms[0])) + MessagesSize(c, ms[1..])
  }

  function MergeDouble(mine: Double, other: Double): Double {
    if IsZero(other) then mine else other
  }

  function NormDouble(d: Double): Double {
    if IsZero(d) then 0 else d
  }

  function MergeInt(mine: int, other: int): int {
    if other != 0 then other else mine
  }

  function MergeString(mine: Bytes, other: Bytes): Bytes {
    if |other| != 0 then other else mine
  }

  function MergeOption<T>(mine: Option<T>, other: Option<T>): Option<T> {
    if other.Some? then other else mine
  }

  // ---------------------------------------------------------------- slots in a codec

  lemma Join<K>(c: Codec<K>, xs: seq<RawField>, n: nat, ys: seq<RawField>, m: nat)
    requires Fits(c, xs, n) && Fits(c, ys, m)
    ensures Fits(c, xs + ys, n + m)
  {
    FieldsSizeConcat(xs, ys);
  }

  lemma DoubleFits<K>(c: Codec<K>, num: nat, d: Double)
    requires 1 <= num <= 15 && c.recognises(Fixed64Field(num, d))
    ensures Fits(c, DoubleSlot(num, d), DoubleSize(d))
  {
  }

  lemma BoolFits<K>(c: Codec<K>, num: nat, b: bool)
    requires 1 <= num <= 15 && c.recognises(VarintField(num, 1))
    ensures Fits(c, BoolSlot(num, b), BoolSize(b))
  {
  }

  lemma Int32Fits<K>(c: Codec<K>, num: nat, v: Int32)
    requires 1 <= num <= 15 && c.recognises(VarintField(num, Int32ToWire(v)))
    ensures Fits(c, Int32Slot(num, v), Int32SlotSize(v))
  {
  }

  lemma Int64Fits<K>(c: Codec<K>, num: nat, v: Int64)
    requires 1 <= num <= 15 && c.recognises(VarintField(num, Int64ToWire(v)))
    ensures Fits(c, Int64Slot(num, v), Int64SlotSize(v))
  {
  }

  lemma DelimitedFits<K>(c: Codec<K>, num: nat, data: Bytes)
    requires 1 <= num <= 15 && |data| <= INT32_MAX && c.recognises(BytesField(num, data))
    ensures Fits(c, [BytesField(num, data)], 1 + DelimitedSize(|data|))
  {
  }

  lemma StringFits<K>(c: Codec<K>, num: nat, s: Bytes)
    requires 1 <= num <= 15 && |s| <= INT32_MAX && c.recognises(BytesField(num, s))
    ensures Fits(c, StringSlot(num, s), StringSize(s))
  {
  }

  lemma OptionalDoubleFits<K>(c: Codec<K>, num: nat, d: Option<Double>)
    requires 1 <= num <= 15 && (d.Some? ==> c.recognises(Fixed64Field(num, d.value)))
    ensures Fits(c, OptionalDoubleSlot(num, d), OptionalDoubleSize(d))
  {
  }

  lemma OptionalInt32Fits<K>(c: Codec<K>, num: nat, v: Option<Int32>)
    requires 1 <= num <= 15 && (v.Some? ==> c.recognises(VarintField(num, Int32ToWire(v.value))))
    ensures Fits(c, OptionalInt32Slot(num, v), OptionalInt32Size(v))
  {
  }

  lemma {:induction false} StringsFit<K>(c: Codec<K>, num: nat, ss: seq<Bytes>)
    requires 1 <= num <= 15 && StringsSize(ss) <= INT32_MAX
    requires forall i :: 0 <= i < |ss| ==> c.recognises(BytesField(num, ss[i]))
    ensures Fits(c, StringsSlot(num, ss), StringsSize(ss))
  {
    if ss != [] {
      var tail := StringsSlot(num, ss[1..]);
      StringsFit(c, num, ss[1..]);
      assert StringsSlot(num, ss) == [BytesField(num, ss[0])] + tail;
      DelimitedFits(c, num, ss[0]);
      Join(c, [BytesField(num, ss[0])], 1 + DelimitedSize(|ss[0]|), tail, StringsSize(ss[1..]));
    }
  }

  predicate SizeMatches<K>(c: Codec<K>, m: Msg<K>) {
    CalculateSize(c, m) == |Encode(c, m)|
  }

  lemma {:induction false} MessagesHaveSize<K(!new)>(c: Codec<K>, ms: seq<Msg<K>>)
    requires Lawful(c) && MessagesSize(c, ms) <= INT32_MAX
    requires forall i :: 0 <= i < |ms| ==> ValidMsg(c, ms[i])
    ensures forall i :: 0 <= i < |ms| ==> SizeMatches(c, ms[i])
  {
    if ms != [] {
      SizeIsLength(c, ms[0]);
      MessagesHaveSize(c, ms[1..]);
      forall i | 0 <= i < |ms| ensures SizeMatches(c, ms[i]) {
        if i > 0 {
          assert ms[i] == ms[1..][i - 1];
        }
      }
    }
  }

  lemma {:induction false} MessagesFit<K, L>(c: Codec<K>, num: nat, inner: Codec<L>, ms: seq<Msg<L>>)
    requires 1 <= num <= 15 && MessagesSize(inner, ms) <= INT32_MAX
    requires forall i :: 0 <= i < |ms| ==> SizeMatches(inner, ms[i])
    requires forall i :: 0 <= i < |ms| ==> c.recognises(BytesField(num, Encode(inner, ms[i])))
    ensures Fits(c, MessagesSlot(num, inner, ms), MessagesSize(inner, ms))
  {
    if ms != [] {
      var first, tail := [BytesField(num, Encode(inner, ms[0]))], MessagesSlot(num, inner, ms[1..]);
      assert SizeMatches(inner, ms[0]);
      DelimitedFits(c, num, Encode(inner, ms[0]));
      MessagesFit(c, num, inner, ms[1..]);
      assert MessagesSlot(num, inner, ms) == first + tail;
      Join(c, first, 1 + DelimitedSize(CalculateSize(inner, ms[0])), tail, MessagesSize(inner, ms[1..]));
    }
  }

  // ---------------------------------------------------------------- reading a slot back

  /** A slot that turns `k` into `k'` does so whatever fields follow it. */
  lemma SlotThen<K>(c: Codec<K>, k: K, slot: seq<RawField>, k': K, rest: seq<RawField>)
    requires |slot| <= 1
    requires if slot == [] then k' == k else c.apply(k, slot[0]) == Ok(k')
    ensures ApplyAll(c, k, slot + rest) == ApplyAll(c, k', rest)
  {
    if slot == [] {
      assert slot + rest == rest;
    } else {
      assert (slot + rest)[1..] == rest;
    }
  }

  predicate SurvivesNesting<K(==)>(c: Codec<K>, m: Msg<K>) {
    ReadNested(c, Empty(c), Encode(c, m)) == Ok(NormMsg(c, m))
  }

  lemma {:induction false} MessagesSurviveNesting<K(!new)>(c: Codec<K>, ms: seq<Msg<K>>)
    requires Lawful(c) && MessagesSize(c, ms) <= INT32_MAX
    requires forall i :: 0 <= i < |ms| ==> ValidMsg(c, ms[i])
    ensures forall i :: 0 <= i < |ms| ==> SurvivesNesting(c, ms[i])
  {
    if ms != [] {
      RoundTrip(c, ms[0]);
      MessagesSurviveNesting(c, ms[1..]);
      forall i | 0 <= i < |ms| ensures SurvivesNesting(c, ms[i]) {
        if i > 0 {
          assert ms[i] == ms[1..][i - 1];
        }
      }
    }
  }

  // ---------------------------------------------------------------- one arm of a oneof

  function OptionalMessageSlot<K>(num: nat, c: Codec<K>, m: Option<Msg<K>>): seq<RawField> {
    if m.Some? then [BytesField(num, Encode(c, m.value))] else []
  }

  function OptionalMessageSize<K>(c: Codec<K>, m: Option<Msg<K>>): nat {
    if m.Some? then 1 + DelimitedSize(CalculateSize(c, m.value)) else 0
  }

  /** `MergeFrom` on an arm: a missing message is created first, then merged into. */
  function MergeArm<K>(c: Codec<K>, mine: Option<Msg<K>>, other: Msg<K>): Msg<K> {
    MergeMsg(c, if mine.Some? then mine.value else Empty(c), other)
  }

  /** Parsing an arm: a fresh sub-builder takes a copy of the old message, then the bytes. */
  function ReadArm<K>(c: Codec<K>, mine: Option<Msg<K>>, data: Bytes): Outcome<Msg<K>> {
    ReadNested(c, if mine.Some? then MergeMsg(c, Empty(c), mine.value) else Empty(c), data)
  }

  function NormOption<K>(c: Codec<K>, m: Option<Msg<K>>): Option<Msg<K>> {
    if m.Some? then Some(NormMsg(c, m.value)) else None
  }

  lemma CopyOfNormed<K(!new)>(c: Codec<K>, m: Msg<K>)
    requires Lawful(c) && ValidMsg(c, m)
    ensures MergeMsg(c, Empty(c), NormMsg(c, m)) == NormMsg(c, m)
    ensures NormMsg(c, MergeMsg(c, Empty(c), m)) == NormMsg(c, m)
  {
    assert [] + m.unknown == m.unknown;
  }

  /** Copy-then-read on the parsing side agrees with create-then-merge on the merging side. */
  lemma ReadArmMerges<K(!new)>(c: Codec<K>, mine: Option<Msg<K>>, other: Msg<K>)
    requires Lawful(c) && ValidMsg(c, other) && CalculateSize(c, other) <= INT32_MAX
    requires mine.Some? ==> ValidMsg(c, mine.value)
    ensures ReadArm(c, NormOption(c, mine), Encode(c, other)) == Ok(NormMsg(c, MergeArm(c, mine, other)))
  {
    var start := if mine.Some? then mine.value else Empty(c);
    if mine.Some? {
      CopyOfNormed(c, mine.value);
    }
    ParseMerges(c, start, other, []);
    assert Encode(c, other) + [] == Encode(c, other);
  }

  lemma ReadArmKeepsValid<K(!new)>(c: Codec<K>, mine: Option<Msg<K>>, data: Bytes)
    requires ClosedUnderSteps(c) && (mine.Some? ==> ValidMsg(c, mine.value))
    ensures ReadArm(c, mine, data).Ok? ==> ValidMsg(c, ReadArm(c, mine, data).value)
  {
    if mine.Some? {
      MergeKeepsValid(c, Empty(c), mine.value);
      ParseKeepsValid(c, MergeMsg(c, Empty(c), mine.value), data);
    } else {
      ParseKeepsValid(c, Empty(c), data);
    }
  }
}
