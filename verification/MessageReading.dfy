/**
 What each message makes of the bytes of one field, whoever wrote them: the field its tag
 names, with its new value, and everything else as it was; or one more unknown field.
 */
module MessageReading {
  import opened Common
  import opened Wire
  import opened Messages
  import opened Slots
  import opened MakeProfitMessage
  import opened AboveMessage
  import opened StrategyMessage
  import opened AppMessages
  import opened Envelope
  import opened MessageBytes

  /** One turn of the tag loop: the message afterwards, and the bytes still to come. */
  function Turn<K>(c: Codec<K>, m: Msg<K>, b: Bytes): Outcome<(Msg<K>, Bytes)> {
    match ReadField(b)
    case BadField => Failed
    case EndGroup => Failed
    case Field(f, rest) =>
      match ApplyField(c, m, f)
      case Failed => Failed
      case Ok(m') => Ok((m', rest))
  }

  /** The parser is nothing but such turns. */
  lemma ParseTurns<K>(c: Codec<K>, m: Msg<K>, b: Bytes)
    ensures Parse(c, m, b) ==
            if b == [] then Complete(m)
            else match Turn(c, m, b)
                 case Ok(turn) => Parse(c, turn.0, turn.1)
                 case Failed => if ReadField(b).EndGroup? then StoppedAtEndGroup(m) else Malformed
  {
  }

  lemma FieldRead<K>(c: Codec<K>, m: Msg<K>, f: RawField, rest: Bytes)
    requires WellFormed(f)
    ensures Turn(c, m, EncodeField(f) + rest) ==
            match ApplyField(c, m, f) case Failed => Failed case Ok(m') => Ok((m', rest))
  {
    FieldRoundTrip(f, rest);
  }

  lemma VarintRead<K>(c: Codec<K>, m: Msg<K>, num: nat, v: nat, rest: Bytes, k: K)
    requires 1 <= num <= 15 && v < 0x1_0000_0000_0000_0000
    requires c.recognises(VarintField(num, v)) && c.apply(m.known, VarintField(num, v)) == Ok(k)
    ensures Turn(c, m, [8 * num] + Varint(v) + rest) == Ok((m.(known := k), rest))
  {
    FieldBytes(num, v, 0, [], 0);
    FieldRead(c, m, VarintField(num, v), rest);
  }

  lemma DoubleRead<K>(c: Codec<K>, m: Msg<K>, num: nat, d: Double, rest: Bytes, k: K)
    requires 1 <= num <= 15
    requires c.recognises(Fixed64Field(num, d)) && c.apply(m.known, Fixed64Field(num, d)) == Ok(k)
    ensures Turn(c, m, [8 * num + 1] + LittleEndian(d, 8) + rest) == Ok((m.(known := k), rest))
  {
    FieldBytes(num, 0, d, [], 0);
    FieldRead(c, m, Fixed64Field(num, d), rest);
  }

  lemma BytesRead<K>(c: Codec<K>, m: Msg<K>, num: nat, data: Bytes, rest: Bytes, k: Outcome<K>)
    requires 1 <= num <= 15 && |data| <= INT32_MAX
    requires c.recognises(BytesField(num, data)) && c.apply(m.known, BytesField(num, data)) == k
    ensures Turn(c, m, [8 * num + 2] + Delimited(data) + rest) ==
            match k case Failed => Failed case Ok(known) => Ok((m.(known := known), rest))
  {
    FieldBytes(num, 0, 0, data, 0);
    FieldRead(c, m, BytesField(num, data), rest);
  }

  /** The message that a nested one's bytes give, read into `start`, if they end where it does. */
  function Nested<K>(c: Codec<K>, start: Msg<K>, data: Bytes): Outcome<Msg<K>> {
    match Parse(c, start, data)
    case Complete(r) => Ok(r)
    case StoppedAtEndGroup(_) => Failed
    case Malformed => Failed
  }

  // ---------------------------------------------------------------- the strategy messages

  /** `StrategyAbovePercentageMakeProfitBean`: its doubles, */
  lemma MakeProfitDoublesAreRead(m: Msg<MakeProfit>, d: Double, rest: Bytes)
    ensures var c, k := MAKE_PROFIT, m.known;
            && Turn(c, m, [9] + LittleEndian(d, 8) + rest) == Ok((m.(known := k.(perc := d)), rest))
            && Turn(c, m, [17] + LittleEndian(d, 8) + rest) == Ok((m.(known := k.(ratio := d)), rest))
            && Turn(c, m, [25] + LittleEndian(d, 8) + rest) == Ok((m.(known := k.(moveStopPerc := d)), rest))
  {
    var c, k := MAKE_PROFIT, m.known;
    DoubleRead(c, m, 1, d, rest, k.(perc := d));
    DoubleRead(c, m, 2, d, rest, k.(ratio := d));
    DoubleRead(c, m, 3, d, rest, k.(moveStopPerc := d));
  }

  /** and its numbers. */
  lemma MakeProfitNumbersAreRead(m: Msg<MakeProfit>, v: nat, rest: Bytes)
    requires v < 0x1_0000_0000_0000_0000
    ensures var c, k := MAKE_PROFIT, m.known;
            && Turn(c, m, [32] + Varint(v) + rest) == Ok((m.(known := k.(enabled := v != 0)), rest))
            && Turn(c, m, [40] + Varint(v) + rest) == Ok((m.(known := k.(sellOrderId := WrapInt32(v))), rest))
            && Turn(c, m, [48] + Varint(v) + rest) == Ok((m.(known := k.(moveSellOrderId := WrapInt32(v))), rest))
  {
    var c, k := MAKE_PROFIT, m.known;
    VarintRead(c, m, 4, v, rest, k.(enabled := v != 0));
    VarintRead(c, m, 5, v, rest, k.(sellOrderId := WrapInt32(v)));
    VarintRead(c, m, 6, v, rest, k.(moveSellOrderId := WrapInt32(v)));
  }

  /** `StrategyAbovePercentageBean`: its doubles, */
  lemma AboveDoublesAreRead<L>(inner: Codec<L>, m: Msg<AbovePercentage<L>>, d: Double, rest: Bytes)
    ensures var c, k := AboveCodec(inner), m.known;
            && Turn(c, m, [9] + LittleEndian(d, 8) + rest) == Ok((m.(known := k.(triggerPerc := d)), rest))
            && Turn(c, m, [17] + LittleEndian(d, 8) + rest) == Ok((m.(known := k.(stopLossPerc := Some(d))), rest))
            && Turn(c, m, [25] + LittleEndian(d, 8) + rest) == Ok((m.(known := k.(buyRatio := Some(d))), rest))
            && Turn(c, m, [33] + LittleEndian(d, 8) + rest) == Ok((m.(known := k.(buyMoney := Some(d))), rest))
  {
    var c, k := AboveCodec(inner), m.known;
    DoubleRead(c, m, 1, d, rest, k.(triggerPerc := d));
    DoubleRead(c, m, 2, d, rest, k.(stopLossPerc := Some(d)));
    DoubleRead(c, m, 3, d, rest, k.(buyRatio := Some(d)));
    DoubleRead(c, m, 4, d, rest, k.(buyMoney := Some(d)));
  }

  /** and a new profit step, or an exception when its bytes do not parse. */
  lemma StepIsRead<L>(inner: Codec<L>, m: Msg<AbovePercentage<L>>, data: Bytes, rest: Bytes)
    requires |data| <= INT32_MAX
    ensures var c, k := AboveCodec(inner), m.known;
            Turn(c, m, [42] + Delimited(data) + rest) ==
            match Nested(inner, Empty(inner), data)
            case Failed => Failed
            case Ok(step) => Ok((m.(known := k.(makeProfits := k.makeProfits + [step])), rest))
  {
    var c := AboveCodec(inner);
    BytesRead(c, m, 5, data, rest, c.apply(m.known, BytesField(5, data)));
  }

  /** `StrategyBean`: its numbers, */
  lemma StrategyNumbersAreRead<P>(arm: Codec<P>, m: Msg<Strategy<P>>, v: nat, rest: Bytes)
    requires v < 0x1_0000_0000_0000_0000
    ensures var c, k := StrategyCodec(arm), m.known;
            && Turn(c, m, [16] + Varint(v) + rest) == Ok((m.(known := k.(enabled := v != 0)), rest))
            && Turn(c, m, [32] + Varint(v) + rest) == Ok((m.(known := k.(strategyUID := Some(WrapInt32(v)))), rest))
            && Turn(c, m, [48] + Varint(v) + rest) == Ok((m.(known := k.(status := WrapInt32(v))), rest))
  {
    var c, k := StrategyCodec(arm), m.known;
    VarintRead(c, m, 2, v, rest, k.(enabled := v != 0));
    VarintRead(c, m, 4, v, rest, k.(strategyUID := Some(WrapInt32(v))));
    VarintRead(c, m, 6, v, rest, k.(status := WrapInt32(v)));
  }

  /** its strings, */
  lemma StrategyStringsAreRead<P>(arm: Codec<P>, m: Msg<Strategy<P>>, data: Bytes, rest: Bytes)
    requires |data| <= INT32_MAX
    ensures var c, k := StrategyCodec(arm), m.known;
            && Turn(c, m, [10] + Delimited(data) + rest) == Ok((m.(known := k.(symbol := data)), rest))
            && Turn(c, m, [26] + Delimited(data) + rest) == Ok((m.(known := k.(bannedSymbols := k.bannedSymbols + [data])), rest))
            && Turn(c, m, [42] + Delimited(data) + rest) == Ok((m.(known := k.(timeInForceParam := data)), rest))
  {
    var c, k := StrategyCodec(arm), m.known;
    BytesRead(c, m, 1, data, rest, Ok(k.(symbol := data)));
    BytesRead(c, m, 3, data, rest, Ok(k.(bannedSymbols := k.bannedSymbols + [data])));
    BytesRead(c, m, 5, data, rest, Ok(k.(timeInForceParam := data)));
  }

  /** and its bean, which is read into a copy of the current one, if there is one. */
  lemma BeanIsRead<P>(arm: Codec<P>, m: Msg<Strategy<P>>, data: Bytes, rest: Bytes)
    requires |data| <= INT32_MAX
    ensures var c, k := StrategyCodec(arm), m.known;
            var start := if k.implementBean.Some? then MergeMsg(arm, Empty(arm), k.implementBean.value) else Empty(arm);
            Turn(c, m, [58] + Delimited(data) + rest) ==
            match Nested(arm, start, data)
            case Failed => Failed
            case Ok(bean) => Ok((m.(known := k.(implementBean := Some(bean))), rest))
  {
    var c := StrategyCodec(arm);
    BytesRead(c, m, 7, data, rest, c.apply(m.known, BytesField(7, data)));
  }

  // ---------------------------------------------------------------- the application messages

  /** `ReqHeartBeat` and `ReqServerLogQuery`. */
  lemma RequestsAreRead(beat: Msg<HeartBeat>, query: Msg<LogQuery>, v: nat, rest: Bytes)
    requires v < 0x1_0000_0000_0000_0000
    ensures var k := beat.known;
            && Turn(HEART_BEAT, beat, [8] + Varint(v) + rest) == Ok((beat.(known := k.(clientTime := Int64FromWire(v))), rest))
            && Turn(HEART_BEAT, beat, [16] + Varint(v) + rest) == Ok((beat.(known := k.(isForeground := v != 0)), rest))
    ensures var k := query.known;
            && Turn(LOG_QUERY, query, [8] + Varint(v) + rest) == Ok((query.(known := k.(startIndex := Some(WrapInt32(v)))), rest))
            && Turn(LOG_QUERY, query, [16] + Varint(v) + rest) == Ok((query.(known := k.(endIndex := Some(WrapInt32(v)))), rest))
  {
    VarintRead(HEART_BEAT, beat, 1, v, rest, beat.known.(clientTime := Int64FromWire(v)));
    VarintRead(HEART_BEAT, beat, 2, v, rest, beat.known.(isForeground := v != 0));
    VarintRead(LOG_QUERY, query, 1, v, rest, query.known.(startIndex := Some(WrapInt32(v))));
    VarintRead(LOG_QUERY, query, 2, v, rest, query.known.(endIndex := Some(WrapInt32(v))));
  }

  /** `ResServerLogQuery`. */
  lemma LogReplyIsRead(m: Msg<LogReply>, v: nat, data: Bytes, rest: Bytes)
    requires v < 0x1_0000_0000_0000_0000 && |data| <= INT32_MAX
    ensures var c, k := LOG_REPLY, m.known;
            && Turn(c, m, [8] + Varint(v) + rest) == Ok((m.(known := k.(startIndex := WrapInt32(v))), rest))
            && Turn(c, m, [16] + Varint(v) + rest) == Ok((m.(known := k.(endIndex := WrapInt32(v))), rest))
            && Turn(c, m, [26] + Delimited(data) + rest) == Ok((m.(known := k.(logList := k.logList + [data])), rest))
  {
    var c, k := LOG_REPLY, m.known;
    VarintRead(c, m, 1, v, rest, k.(startIndex := WrapInt32(v)));
    VarintRead(c, m, 2, v, rest, k.(endIndex := WrapInt32(v)));
    BytesRead(c, m, 3, data, rest, Ok(k.(logList := k.logList + [data])));
  }

  /** An envelope takes the arm its tag names, read into a copy of what that arm held. */
  lemma ArmIsRead<P>(arms: nat, arm: nat -> Codec<P>, m: Msg<Oneof<P>>, n: nat, data: Bytes, rest: Bytes)
    requires 1 <= n <= arms <= 26 && |data| <= INT32_MAX
    ensures var c, k := EnvelopeCodec(arms, arm), m.known;
            var start := if k.Arm? && k.number == n then MergeMsg(arm(n), Empty(arm(n)), k.payload) else Empty(arm(n));
            Turn(c, m, (if n <= 15 then [8 * n + 2] else [8 * n + 2, 1]) + Delimited(data) + rest) ==
            match Nested(arm(n), start, data)
            case Failed => Failed
            case Ok(payload) => Ok((m.(known := Arm(n, payload)), rest))
  {
    ArmTagBytes(n, data);
    FieldRead(EnvelopeCodec(arms, arm), m, BytesField(n, data), rest);
  }

  // ---------------------------------------------------------------- every other field

  lemma OtherRead<K>(c: Codec<K>, m: Msg<K>, f: RawField, rest: Bytes)
    requires WellFormed(f) && !c.recognises(f)
    ensures Turn(c, m, EncodeField(f) + rest) == Ok((m.(unknown := m.unknown + [f]), rest))
  {
    FieldRead(c, m, f, rest);
  }

  /** The key of a field: its number and its wire type. */
  function KeyOf(f: RawField): (nat, nat) {
    (f.num, match f case VarintField(_, _) => 0 case Fixed64Field(_, _) => 1 case BytesField(_, _) => 2 case Fixed32Field(_, _) => 5)
  }

  /** Any other number, or a number with another wire type, is kept as an unknown field. */
  lemma OthersAreKept(beat: Msg<HeartBeat>, query: Msg<LogQuery>, reply: Msg<LogReply>, f: RawField, rest: Bytes)
    requires WellFormed(f)
    ensures KeyOf(f) !in {(1, 0), (2, 0)} ==>
              && Turn(HEART_BEAT, beat, EncodeField(f) + rest) == Ok((beat.(unknown := beat.unknown + [f]), rest))
              && Turn(LOG_QUERY, query, EncodeField(f) + rest) == Ok((query.(unknown := query.unknown + [f]), rest))
    ensures KeyOf(f) !in {(1, 0), (2, 0), (3, 2)} ==>
              Turn(LOG_REPLY, reply, EncodeField(f) + rest) == Ok((reply.(unknown := reply.unknown + [f]), rest))
  {
    if KeyOf(f) !in {(1, 0), (2, 0)} {
      OtherRead(HEART_BEAT, beat, f, rest);
      OtherRead(LOG_QUERY, query, f, rest);
      if KeyOf(f) != (3, 2) {
        OtherRead(LOG_REPLY, reply, f, rest);
      }
    }
  }

  lemma OtherStrategyFieldsAreKept<L, P>(
      profit: Msg<MakeProfit>, inner: Codec<L>, above: Msg<AbovePercentage<L>>, arm: Codec<P>, strategy: Msg<Strategy<P>>,
      f: RawField, rest: Bytes)
    requires WellFormed(f)
    ensures KeyOf(f) !in {(1, 1), (2, 1), (3, 1), (4, 0), (5, 0), (6, 0)} ==>
              Turn(MAKE_PROFIT, profit, EncodeField(f) + rest) == Ok((profit.(unknown := profit.unknown + [f]), rest))
    ensures KeyOf(f) !in {(1, 1), (2, 1), (3, 1), (4, 1), (5, 2)} ==>
              Turn(AboveCodec(inner), above, EncodeField(f) + rest) == Ok((above.(unknown := above.unknown + [f]), rest))
    ensures KeyOf(f) !in {(1, 2), (2, 0), (3, 2), (4, 0), (5, 2), (6, 0), (7, 2)} ==>
              Turn(StrategyCodec(arm), strategy, EncodeField(f) + rest) == Ok((strategy.(unknown := strategy.unknown + [f]), rest))
  {
    if KeyOf(f) !in {(1, 1), (2, 1), (3, 1), (4, 0), (5, 0), (6, 0)} {
      OtherRead(MAKE_PROFIT, profit, f, rest);
    }
    if KeyOf(f) !in {(1, 1), (2, 1), (3, 1), (4, 1), (5, 2)} {
      OtherRead(AboveCodec(inner), above, f, rest);
    }
    if KeyOf(f) !in {(1, 2), (2, 0), (3, 2), (4, 0), (5, 2), (6, 0), (7, 2)} {
      OtherRead(StrategyCodec(arm), strategy, f, rest);
    }
  }

  /** An envelope keeps every field that is not the length-delimited field of one of its arms. */
  lemma OtherArmsAreKept<P>(arms: nat, arm: nat -> Codec<P>, m: Msg<Oneof<P>>, f: RawField, rest: Bytes)
    requires WellFormed(f) && (KeyOf(f).1 != 2 || f.num > arms)
    ensures Turn(EnvelopeCodec(arms, arm), m, EncodeField(f) + rest) == Ok((m.(unknown := m.unknown + [f]), rest))
  {
    OtherRead(EnvelopeCodec(arms, arm), m, f, rest);
  }
}
