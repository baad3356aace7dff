/**
 The bytes the messages are written as, spelled out: raw tags, values and their order, and
 the tags under which the application messages travel in the envelopes.
 */
module MessageBytes {
  import opened Common
  import opened Wire
  import opened Messages
  import opened Slots
  import opened MakeProfitMessage
  import opened AboveMessage
  import opened StrategyMessage
  import opened AppMessages
  import opened Envelope
  import opened Payloads

  /** A raw tag and a value, when there is anything to write. */
  function Written(present: bool, tag: Byte, value: Bytes): Bytes {
    if present then [tag] + value else []
  }

  function Delimited(data: Bytes): Bytes {
    Varint(|data|) + data
  }

  /** The same raw tag before each of them. */
  function WrittenEach(tag: Byte, datas: seq<Bytes>): Bytes {
    if datas == [] then [] else [tag] + Delimited(datas[0]) + WrittenEach(tag, datas[1..])
  }

  lemma OneField(f: RawField)
    ensures EncodeFields([f]) == EncodeField(f)
  {
    assert [f][1..] == [] && EncodeFields([]) == [];
    assert EncodeField(f) + [] == EncodeField(f);
  }

  lemma SlotBytes(slot: seq<RawField>, present: bool, f: RawField, tag: Byte, value: Bytes)
    requires slot == if present then [f] else []
    requires present ==> EncodeField(f) == [tag] + value
    ensures EncodeFields(slot) == Written(present, tag, value)
  {
    if present {
      OneField(f);
    }
  }

  lemma Two(s1: seq<RawField>, s2: seq<RawField>, b1: Bytes, b2: Bytes)
    requires EncodeFields(s1) == b1 && EncodeFields(s2) == b2
    ensures EncodeFields(s1 + s2) == b1 + b2
  {
    FlatMapConcat(EncodeField, s1, s2);
  }

  lemma Three(s1: seq<RawField>, s2: seq<RawField>, s3: seq<RawField>, b1: Bytes, b2: Bytes, b3: Bytes)
    requires EncodeFields(s1) == b1 && EncodeFields(s2) == b2 && EncodeFields(s3) == b3
    ensures EncodeFields(s1 + (s2 + s3)) == b1 + (b2 + b3)
  {
    Two(s2, s3, b2, b3);
    Two(s1, s2 + s3, b1, b2 + b3);
  }

  lemma Four(s1: seq<RawField>, s2: seq<RawField>, s3: seq<RawField>, s4: seq<RawField>, b1: Bytes, b2: Bytes, b3: Bytes, b4: Bytes)
    requires EncodeFields(s1) == b1 && EncodeFields(s2) == b2 && EncodeFields(s3) == b3 && EncodeFields(s4) == b4
    ensures EncodeFields(s1 + (s2 + (s3 + s4))) == b1 + (b2 + (b3 + b4))
  {
    Three(s2, s3, s4, b2, b3, b4);
    Two(s1, s2 + (s3 + s4), b1, b2 + (b3 + b4));
  }

  lemma DoubleBytes(num: nat, d: Double)
    requires 1 <= num <= 15
    ensures EncodeFields(DoubleSlot(num, d)) == Written(!IsZero(d), 8 * num + 1, LittleEndian(d, 8))
  {
    FieldBytes(num, 0, d, [], 0);
    SlotBytes(DoubleSlot(num, d), !IsZero(d), Fixed64Field(num, d), 8 * num + 1, LittleEndian(d, 8));
  }

  function DoubleValue(d: Option<Double>): Bytes {
    if d.Some? then LittleEndian(d.value, 8) else []
  }

  lemma OptionalDoubleBytes(num: nat, d: Option<Double>)
    requires 1 <= num <= 15
    ensures EncodeFields(OptionalDoubleSlot(num, d)) ==
            Written(d.Some?, 8 * num + 1, DoubleValue(d))
  {
    if d.Some? {
      FieldBytes(num, 0, d.value, [], 0);
      SlotBytes(OptionalDoubleSlot(num, d), true, Fixed64Field(num, d.value), 8 * num + 1, LittleEndian(d.value, 8));
    }
  }

  lemma VarintSlotBytes(slot: seq<RawField>, present: bool, num: nat, v: nat)
    requires 1 <= num <= 15 && slot == if present then [VarintField(num, v)] else []
    ensures EncodeFields(slot) == Written(present, 8 * num, Varint(v))
  {
    FieldBytes(num, v, 0, [], 0);
    SlotBytes(slot, present, VarintField(num, v), 8 * num, Varint(v));
  }

  lemma DelimitedSlotBytes(slot: seq<RawField>, present: bool, num: nat, data: Bytes)
    requires 1 <= num <= 15 && slot == if present then [BytesField(num, data)] else []
    ensures EncodeFields(slot) == Written(present, 8 * num + 2, Delimited(data))
  {
    FieldBytes(num, 0, 0, data, 0);
    SlotBytes(slot, present, BytesField(num, data), 8 * num + 2, Delimited(data));
  }

  lemma FirstString(num: nat, datas: seq<Bytes>)
    requires datas != []
    ensures StringsSlot(num, datas) == [BytesField(num, datas[0])] + StringsSlot(num, datas[1..])
  {
  }

  lemma {:induction false} EachBytes(num: nat, datas: seq<Bytes>)
    requires 1 <= num <= 15
    ensures EncodeFields(StringsSlot(num, datas)) == WrittenEach(8 * num + 2, datas)
  {
    if datas != [] {
      var f := BytesField(num, datas[0]);
      FieldBytes(num, 0, 0, datas[0], 0);
      OneField(f);
      EachBytes(num, datas[1..]);
      FirstString(num, datas);
      Two([f], StringsSlot(num, datas[1..]), [8 * num + 2] + Delimited(datas[0]), WrittenEach(8 * num + 2, datas[1..]));
    }
  }

  // ---------------------------------------------------------------- the application messages

  /** `ReqHeartBeat`: tag 8 for the client time, tag 16 for the flag. */
  lemma HeartBeatBytes(k: HeartBeat)
    ensures EncodeFields(HeartBeatFields(k)) ==
            Written(k.clientTime != 0, 8, Varint(Int64ToWire(k.clientTime))) + Written(k.isForeground, 16, [1])
  {
    VarintSlotBytes(Int64Slot(1, k.clientTime), k.clientTime != 0, 1, Int64ToWire(k.clientTime));
    VarintSlotBytes(BoolSlot(2, k.isForeground), k.isForeground, 2, 1);
    FlatMapConcat(EncodeField, Int64Slot(1, k.clientTime), BoolSlot(2, k.isForeground));
  }

  function Int32Bytes(v: Option<Int32>): Bytes {
    if v.Some? then Varint(Int32ToWire(v.value)) else []
  }

  lemma OptionalInt32Bytes(num: nat, v: Option<Int32>)
    requires 1 <= num <= 15
    ensures EncodeFields(OptionalInt32Slot(num, v)) == Written(v.Some?, 8 * num, Int32Bytes(v))
  {
    if v.Some? {
      VarintSlotBytes(OptionalInt32Slot(num, v), true, num, Int32ToWire(v.value));
    }
  }

  /** `ReqServerLogQuery`: tag 8 for the start, tag 16 for the end. */
  lemma LogQueryBytes(k: LogQuery)
    ensures EncodeFields(LogQueryFields(k)) ==
            Written(k.startIndex.Some?, 8, Int32Bytes(k.startIndex)) + Written(k.endIndex.Some?, 16, Int32Bytes(k.endIndex))
  {
    OptionalInt32Bytes(1, k.startIndex);
    OptionalInt32Bytes(2, k.endIndex);
    FlatMapConcat(EncodeField, OptionalInt32Slot(1, k.startIndex), OptionalInt32Slot(2, k.endIndex));
  }

  lemma Int32SlotBytes(num: nat, v: Int32)
    requires 1 <= num <= 15
    ensures EncodeFields(Int32Slot(num, v)) == Written(v != 0, 8 * num, Varint(Int32ToWire(v)))
  {
    VarintSlotBytes(Int32Slot(num, v), v != 0, num, Int32ToWire(v));
  }

  /** `ResServerLogQuery`: tags 8 and 16, and tag 26 before each line. */
  lemma LogReplyBytes(k: LogReply)
    ensures EncodeFields(LogReplyFields(k)) ==
            Written(k.startIndex != 0, 8, Varint(Int32ToWire(k.startIndex))) +
            (Written(k.endIndex != 0, 16, Varint(Int32ToWire(k.endIndex))) + WrittenEach(26, k.logList))
  {
    var s1, s2, s3 := Int32Slot(1, k.startIndex), Int32Slot(2, k.endIndex), StringsSlot(3, k.logList);
    Int32SlotBytes(1, k.startIndex);
    Int32SlotBytes(2, k.endIndex);
    EachBytes(3, k.logList);
    FlatMapConcat(EncodeField, s2, s3);
    FlatMapConcat(EncodeField, s1, s2 + s3);
  }

  // ---------------------------------------------------------------- the strategy messages

  lemma ThreeDoublesBytes(a: Double, b: Double, c: Double, rest: seq<RawField>)
    ensures EncodeFields(DoubleSlot(1, a) + (DoubleSlot(2, b) + (DoubleSlot(3, c) + rest))) ==
            Written(!IsZero(a), 9, LittleEndian(a, 8)) + (Written(!IsZero(b), 17, LittleEndian(b, 8)) +
            (Written(!IsZero(c), 25, LittleEndian(c, 8)) + EncodeFields(rest)))
  {
    DoubleBytes(1, a);
    DoubleBytes(2, b);
    DoubleBytes(3, c);
    var b1, b2, b3 := Written(!IsZero(a), 9, LittleEndian(a, 8)), Written(!IsZero(b), 17, LittleEndian(b, 8)), Written(!IsZero(c), 25, LittleEndian(c, 8));
    Two(DoubleSlot(3, c), rest, b3, EncodeFields(rest));
    Three(DoubleSlot(1, a), DoubleSlot(2, b), DoubleSlot(3, c) + rest, b1, b2, b3 + EncodeFields(rest));
  }

  /** `StrategyAbovePercentageMakeProfitBean`: tags 9, 17, 25, 32, 40 and 48. */
  lemma MakeProfitBytes(k: MakeProfit)
    ensures EncodeFields(MakeProfitFields(k)) ==
            Written(!IsZero(k.perc), 9, LittleEndian(k.perc, 8)) +
            (Written(!IsZero(k.ratio), 17, LittleEndian(k.ratio, 8)) +
            (Written(!IsZero(k.moveStopPerc), 25, LittleEndian(k.moveStopPerc, 8)) +
            (Written(k.enabled, 32, [1]) +
            (Written(k.sellOrderId != 0, 40, Varint(Int32ToWire(k.sellOrderId))) +
             Written(k.moveSellOrderId != 0, 48, Varint(Int32ToWire(k.moveSellOrderId)))))))
  {
    var s4, s5, s6 := BoolSlot(4, k.enabled), Int32Slot(5, k.sellOrderId), Int32Slot(6, k.moveSellOrderId);
    ThreeDoublesBytes(k.perc, k.ratio, k.moveStopPerc, s4 + (s5 + s6));
    VarintSlotBytes(s4, k.enabled, 4, 1);
    Int32SlotBytes(5, k.sellOrderId);
    Int32SlotBytes(6, k.moveSellOrderId);
    FlatMapConcat(EncodeField, s5, s6);
    FlatMapConcat(EncodeField, s4, s5 + s6);
  }

  function EncodedAll<L>(inner: Codec<L>, ms: seq<Msg<L>>): seq<Bytes> {
    seq(|ms|, i requires 0 <= i < |ms| => Encode(inner, ms[i]))
  }

  /** Fields 3 to 5 of a percentage strategy. */
  lemma AboveTailBytes<L>(inner: Codec<L>, k: AbovePercentage<L>)
    ensures EncodeFields(OptionalDoubleSlot(3, k.buyRatio) +
              (OptionalDoubleSlot(4, k.buyMoney) + MessagesSlot(5, inner, k.makeProfits))) ==
            Written(k.buyRatio.Some?, 25, DoubleValue(k.buyRatio)) +
            (Written(k.buyMoney.Some?, 33, DoubleValue(k.buyMoney)) + WrittenEach(42, EncodedAll(inner, k.makeProfits)))
  {
    OptionalDoubleBytes(3, k.buyRatio);
    OptionalDoubleBytes(4, k.buyMoney);
    StepsBytes(inner, k.makeProfits);
    Three(OptionalDoubleSlot(3, k.buyRatio), OptionalDoubleSlot(4, k.buyMoney), MessagesSlot(5, inner, k.makeProfits),
          Written(k.buyRatio.Some?, 25, DoubleValue(k.buyRatio)), Written(k.buyMoney.Some?, 33, DoubleValue(k.buyMoney)),
          WrittenEach(42, EncodedAll(inner, k.makeProfits)));
  }

  /** `StrategyAbovePercentageBean`: tags 9, 17, 25 and 33, and tag 42 before each profit step. */
  lemma AboveBytes<L>(inner: Codec<L>, k: AbovePercentage<L>)
    ensures EncodeFields(AboveFields(inner, k)) ==
            Written(!IsZero(k.triggerPerc), 9, LittleEndian(k.triggerPerc, 8)) +
            (Written(k.stopLossPerc.Some?, 17, DoubleValue(k.stopLossPerc)) +
            (Written(k.buyRatio.Some?, 25, DoubleValue(k.buyRatio)) +
            (Written(k.buyMoney.Some?, 33, DoubleValue(k.buyMoney)) +
             WrittenEach(42, EncodedAll(inner, k.makeProfits)))))
  {
    var rest := OptionalDoubleSlot(3, k.buyRatio) + (OptionalDoubleSlot(4, k.buyMoney) + MessagesSlot(5, inner, k.makeProfits));
    DoubleBytes(1, k.triggerPerc);
    OptionalDoubleBytes(2, k.stopLossPerc);
    AboveTailBytes(inner, k);
    Three(DoubleSlot(1, k.triggerPerc), OptionalDoubleSlot(2, k.stopLossPerc), rest,
          Written(!IsZero(k.triggerPerc), 9, LittleEndian(k.triggerPerc, 8)),
          Written(k.stopLossPerc.Some?, 17, DoubleValue(k.stopLossPerc)), EncodeFields(rest));
  }

  lemma StepsBytes<L>(inner: Codec<L>, ms: seq<Msg<L>>)
    ensures EncodeFields(MessagesSlot(5, inner, ms)) == WrittenEach(42, EncodedAll(inner, ms))
  {
    assert MessagesSlot(5, inner, ms) == StringsSlot(5, EncodedAll(inner, ms));
    EachBytes(5, EncodedAll(inner, ms));
  }

  lemma StringBytes(num: nat, s: Bytes)
    requires 1 <= num <= 15
    ensures EncodeFields(StringSlot(num, s)) == Written(|s| != 0, 8 * num + 2, Delimited(s))
  {
    DelimitedSlotBytes(StringSlot(num, s), |s| != 0, num, s);
  }

  function ArmValue<P>(arm: Codec<P>, m: Option<Msg<P>>): Bytes {
    if m.Some? then Delimited(Encode(arm, m.value)) else []
  }

  lemma ArmBytes<P>(arm: Codec<P>, m: Option<Msg<P>>)
    ensures EncodeFields(OptionalMessageSlot(7, arm, m)) == Written(m.Some?, 58, ArmValue(arm, m))
  {
    if m.Some? {
      DelimitedSlotBytes(OptionalMessageSlot(7, arm, m), true, 7, Encode(arm, m.value));
    }
  }

  /** Fields 4 to 7 of a strategy. */
  lemma StrategyTailBytes<P>(arm: Codec<P>, k: Strategy<P>)
    ensures EncodeFields(OptionalInt32Slot(4, k.strategyUID) + (StringSlot(5, k.timeInForceParam) +
              (Int32Slot(6, k.status) + OptionalMessageSlot(7, arm, k.implementBean)))) ==
            Written(k.strategyUID.Some?, 32, Int32Bytes(k.strategyUID)) +
            (Written(|k.timeInForceParam| != 0, 42, Delimited(k.timeInForceParam)) +
            (Written(k.status != 0, 48, Varint(Int32ToWire(k.status))) +
             Written(k.implementBean.Some?, 58, ArmValue(arm, k.implementBean))))
  {
    var s4, s5 := OptionalInt32Slot(4, k.strategyUID), StringSlot(5, k.timeInForceParam);
    var s6, s7 := Int32Slot(6, k.status), OptionalMessageSlot(7, arm, k.implementBean);
    OptionalInt32Bytes(4, k.strategyUID);
    StringBytes(5, k.timeInForceParam);
    Int32SlotBytes(6, k.status);
    ArmBytes(arm, k.implementBean);
    var b4, b5 := Written(k.strategyUID.Some?, 32, Int32Bytes(k.strategyUID)), Written(|k.timeInForceParam| != 0, 42, Delimited(k.timeInForceParam));
    var b6, b7 := Written(k.status != 0, 48, Varint(Int32ToWire(k.status))), Written(k.implementBean.Some?, 58, ArmValue(arm, k.implementBean));
    Four(s4, s5, s6, s7, b4, b5, b6, b7);
  }

  /** `StrategyBean`: tags 10, 16, 26 before each banned symbol, 32, 42, 48 and 58. */
  lemma StrategyBytes<P>(arm: Codec<P>, k: Strategy<P>)
    ensures EncodeFields(StrategyFields(arm, k)) ==
            Written(|k.symbol| != 0, 10, Delimited(k.symbol)) +
            (Written(k.enabled, 16, [1]) +
            (WrittenEach(26, k.bannedSymbols) +
            (Written(k.strategyUID.Some?, 32, Int32Bytes(k.strategyUID)) +
            (Written(|k.timeInForceParam| != 0, 42, Delimited(k.timeInForceParam)) +
            (Written(k.status != 0, 48, Varint(Int32ToWire(k.status))) +
             Written(k.implementBean.Some?, 58, ArmValue(arm, k.implementBean)))))))
  {
    StrategyTailBytes(arm, k);
    StrategyHeadBytes(k.symbol, k.enabled, k.bannedSymbols, OptionalInt32Slot(4, k.strategyUID) +
      (StringSlot(5, k.timeInForceParam) + (Int32Slot(6, k.status) + OptionalMessageSlot(7, arm, k.implementBean))));
  }

  /** Fields 1 to 3 and whatever comes after them. */
  lemma StrategyHeadBytes(symbol: Bytes, enabled: bool, banned: seq<Bytes>, rest: seq<RawField>)
    ensures EncodeFields(StringSlot(1, symbol) + (BoolSlot(2, enabled) + (StringsSlot(3, banned) + rest))) ==
            Written(|symbol| != 0, 10, Delimited(symbol)) +
            (Written(enabled, 16, [1]) + (WrittenEach(26, banned) + EncodeFields(rest)))
  {
    StringBytes(1, symbol);
    VarintSlotBytes(BoolSlot(2, enabled), enabled, 2, 1);
    EachBytes(3, banned);
    Four(StringSlot(1, symbol), BoolSlot(2, enabled), StringsSlot(3, banned), rest,
         Written(|symbol| != 0, 10, Delimited(symbol)), Written(enabled, 16, [1]), WrittenEach(26, banned), EncodeFields(rest));
  }

  // ---------------------------------------------------------------- the envelopes

  /** An envelope is its arm's tag, length and payload, and then its unknown fields. */
  lemma EnvelopeBytes<P>(arms: nat, arm: nat -> Codec<P>, n: nat, payload: Msg<P>, unknown: seq<RawField>)
    requires 1 <= n <= REQUEST_ARMS
    ensures Encode(EnvelopeCodec(arms, arm), Msg(Arm(n, payload), unknown)) ==
            (if n <= 15 then [8 * n + 2] else [8 * n + 2, 1]) + Delimited(Encode(arm(n), payload)) + EncodeFields(unknown)
  {
    var f := BytesField(n, Encode(arm(n), payload));
    ArmTagBytes(n, Encode(arm(n), payload));
    OneField(f);
    FlatMapConcat(EncodeField, [f], unknown);
  }

  /** A heart beat travels as arm 17 of a request, a log query as arm 18. */
  lemma RequestBytes<R>(others: nat -> Codec<R>, beat: HeartBeat, query: LogQuery)
    ensures var c := EnvelopeCodec(REQUEST_ARMS, RequestArm(others));
            && Encode(c, Msg(Arm(17, Msg(HeartBeatPayload(beat), [])), [])) ==
               [138, 1] + Delimited(Encode(HEART_BEAT, Msg(beat, [])))
            && Encode(c, Msg(Arm(18, Msg(LogQueryPayload(query), [])), [])) ==
               [146, 1] + Delimited(Encode(LOG_QUERY, Msg(query, [])))
  {
    EnvelopeBytes(REQUEST_ARMS, RequestArm(others), 17, Msg(HeartBeatPayload(beat), []), []);
    EnvelopeBytes(REQUEST_ARMS, RequestArm(others), 18, Msg(LogQueryPayload(query), []), []);
  }

  /** A log reply travels as arm 12 of a response. */
  lemma ResponseBytes<R>(others: nat -> Codec<R>, reply: LogReply)
    ensures Encode(EnvelopeCodec(RESPONSE_ARMS, ResponseArm(others)), Msg(Arm(12, Msg(LogReplyPayload(reply), [])), [])) ==
            [98] + Delimited(Encode(LOG_REPLY, Msg(reply, [])))
  {
    EnvelopeBytes(RESPONSE_ARMS, ResponseArm(others), 12, Msg(LogReplyPayload(reply), []), []);
  }

  /** A request has arms 1 to 26 and a response 1 to 18; everything else is unknown to them. */
  lemma ArmsExactly<R>(others: nat -> Codec<R>, f: RawField)
    ensures EnvelopeCodec(REQUEST_ARMS, RequestArm(others)).recognises(f) <==> f.BytesField? && 1 <= f.num <= 26
    ensures EnvelopeCodec(RESPONSE_ARMS, ResponseArm(others)).recognises(f) <==> f.BytesField? && 1 <= f.num <= 18
  {
  }
}
