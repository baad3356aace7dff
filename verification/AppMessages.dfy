/** Three application messages: plain, optional and repeated fields of the simplest kinds. */
module AppMessages {
  import opened Common
  import opened Wire
  import opened Messages
  import opened Slots

  // ---------------------------------------------------------------- ReqHeartBeat

  datatype HeartBeat = HeartBeat(clientTime: Int64, isForeground: bool)

  const HEART_BEAT: Codec<HeartBeat> := Codec(
    HeartBeat(0, false), (k: HeartBeat) => true, RecognisesHeartBeat, ApplyHeartBeat,
    HeartBeatFields, HeartBeatSize, MergeHeartBeat, (k: HeartBeat) => k)

  predicate RecognisesHeartBeat(f: RawField) {
    f.VarintField? && 1 <= f.num <= 2
  }

  function ApplyHeartBeat(k: HeartBeat, f: RawField): Outcome<HeartBeat> {
    match f
    case VarintField(1, v) => Ok(k.(clientTime := Int64FromWire(v)))
    case VarintField(2, v) => Ok(k.(isForeground := v != 0))
    case _ => Failed
  }

  function HeartBeatFields(k: HeartBeat): seq<RawField> {
    Int64Slot(1, k.clientTime) + BoolSlot(2, k.isForeground)
  }

  function HeartBeatSize(k: HeartBeat): nat {
    Int64SlotSize(k.clientTime) + BoolSize(k.isForeground)
  }

  function MergeHeartBeat(k: HeartBeat, a: HeartBeat): HeartBeat {
    HeartBeat(MergeInt(k.clientTime, a.clientTime), k.isForeground || a.isForeground)
  }

  lemma HeartBeatReads(k: HeartBeat, a: HeartBeat)
    ensures Fits(HEART_BEAT, HeartBeatFields(a), HeartBeatSize(a))
    ensures ApplyAll(HEART_BEAT, k, HeartBeatFields(a)) == Ok(MergeHeartBeat(k, a))
  {
    var c := HEART_BEAT;
    Int64Fits(c, 1, a.clientTime);
    BoolFits(c, 2, a.isForeground);
    Join(c, Int64Slot(1, a.clientTime), Int64SlotSize(a.clientTime), BoolSlot(2, a.isForeground), BoolSize(a.isForeground));
    Int64Survives(a.clientTime);
    var k1 := k.(clientTime := MergeInt(k.clientTime, a.clientTime));
    SlotThen(c, k, Int64Slot(1, a.clientTime), k1, BoolSlot(2, a.isForeground));
    assert BoolSlot(2, a.isForeground) + [] == BoolSlot(2, a.isForeground);
    SlotThen(c, k1, BoolSlot(2, a.isForeground), MergeHeartBeat(k, a), []);
  }

  lemma HeartBeatLawful()
    ensures Lawful(HEART_BEAT)
  {
    forall k: HeartBeat, a: HeartBeat {:trigger MergeHeartBeat(k, a)}
      ensures Fits(HEART_BEAT, HeartBeatFields(a), HeartBeatSize(a))
      ensures ApplyAll(HEART_BEAT, k, HeartBeatFields(a)) == Ok(MergeHeartBeat(k, a))
    {
      HeartBeatReads(k, a);
    }
    forall a: HeartBeat ensures Fits(HEART_BEAT, HeartBeatFields(a), HeartBeatSize(a)) {
      HeartBeatReads(a, a);
    }
  }

  // ---------------------------------------------------------------- ReqServerLogQuery

  datatype LogQuery = LogQuery(startIndex: Option<Int32>, endIndex: Option<Int32>)

  const LOG_QUERY: Codec<LogQuery> := Codec(
    LogQuery(None, None), (k: LogQuery) => true, RecognisesLogQuery, ApplyLogQuery,
    LogQueryFields, LogQuerySize, MergeLogQuery, (k: LogQuery) => k)

  predicate RecognisesLogQuery(f: RawField) {
    f.VarintField? && 1 <= f.num <= 2
  }

  function ApplyLogQuery(k: LogQuery, f: RawField): Outcome<LogQuery> {
    match f
    case VarintField(1, v) => Ok(k.(startIndex := Some(Int32FromWire(v))))
    case VarintField(2, v) => Ok(k.(endIndex := Some(Int32FromWire(v))))
    case _ => Failed
  }

  function LogQueryFields(k: LogQuery): seq<RawField> {
    OptionalInt32Slot(1, k.startIndex) + OptionalInt32Slot(2, k.endIndex)
  }

  function LogQuerySize(k: LogQuery): nat {
    OptionalInt32Size(k.startIndex) + OptionalInt32Size(k.endIndex)
  }

  function MergeLogQuery(k: LogQuery, a: LogQuery): LogQuery {
    LogQuery(MergeOption(k.startIndex, a.startIndex), MergeOption(k.endIndex, a.endIndex))
  }

  lemma LogQueryReads(k: LogQuery, a: LogQuery)
    ensures Fits(LOG_QUERY, LogQueryFields(a), LogQuerySize(a))
    ensures ApplyAll(LOG_QUERY, k, LogQueryFields(a)) == Ok(MergeLogQuery(k, a))
  {
    var c := LOG_QUERY;
    var s2 := OptionalInt32Slot(2, a.endIndex);
    OptionalInt32Fits(c, 1, a.startIndex);
    OptionalInt32Fits(c, 2, a.endIndex);
    Join(c, OptionalInt32Slot(1, a.startIndex), OptionalInt32Size(a.startIndex), s2, OptionalInt32Size(a.endIndex));
    if a.startIndex.Some? {
      Int32Survives(a.startIndex.value);
    }
    if a.endIndex.Some? {
      Int32Survives(a.endIndex.value);
    }
    var k1 := k.(startIndex := MergeOption(k.startIndex, a.startIndex));
    SlotThen(c, k, OptionalInt32Slot(1, a.startIndex), k1, s2);
    assert s2 + [] == s2;
    SlotThen(c, k1, s2, MergeLogQuery(k, a), []);
  }

  lemma LogQueryLawful()
    ensures Lawful(LOG_QUERY)
  {
    forall k: LogQuery, a: LogQuery {:trigger MergeLogQuery(k, a)}
      ensures ApplyAll(LOG_QUERY, k, LogQueryFields(a)) == Ok(MergeLogQuery(k, a))
    {
      LogQueryReads(k, a);
    }
    forall a: LogQuery ensures Fits(LOG_QUERY, LogQueryFields(a), LogQuerySize(a)) {
      LogQueryReads(a, a);
    }
  }

  // ---------------------------------------------------------------- ResServerLogQuery

  datatype LogReply = LogReply(startIndex: Int32, endIndex: Int32, logList: seq<Bytes>)

  const LOG_REPLY: Codec<LogReply> := Codec(
    LogReply(0, 0, []), (k: LogReply) => true, RecognisesLogReply, ApplyLogReply,
    LogReplyFields, LogReplySize, MergeLogReply, (k: LogReply) => k)

  predicate RecognisesLogReply(f: RawField) {
    (f.VarintField? && 1 <= f.num <= 2) || (f.BytesField? && f.num == 3)
  }

  function ApplyLogReply(k: LogReply, f: RawField): Outcome<LogReply> {
    match f
    case VarintField(1, v) => Ok(k.(startIndex := Int32FromWire(v)))
    case VarintField(2, v) => Ok(k.(endIndex := Int32FromWire(v)))
    case BytesField(3, s) => Ok(k.(logList := k.logList + [s]))
    case _ => Failed
  }

  function LogReplyFields(k: LogReply): seq<RawField> {
    Int32Slot(1, k.startIndex) + (Int32Slot(2, k.endIndex) + StringsSlot(3, k.logList))
  }

  function LogReplySize(k: LogReply): nat {
    Int32SlotSize(k.startIndex) + (Int32SlotSize(k.endIndex) + StringsSize(k.logList))
  }

  function MergeLogReply(k: LogReply, a: LogReply): LogReply {
    LogReply(MergeInt(k.startIndex, a.startIndex), MergeInt(k.endIndex, a.endIndex), k.logList + a.logList)
  }

  lemma {:induction false} LogsAppend(k: LogReply, ss: seq<Bytes>)
    ensures ApplyAll(LOG_REPLY, k, StringsSlot(3, ss)) == Ok(k.(logList := k.logList + ss))
    decreases |ss|
  {
    if ss == [] {
      assert k.logList + ss == k.logList;
    } else {
      var k' := k.(logList := k.logList + [ss[0]]);
      assert StringsSlot(3, ss) == [BytesField(3, ss[0])] + StringsSlot(3, ss[1..]);
      SlotThen(LOG_REPLY, k, [BytesField(3, ss[0])], k', StringsSlot(3, ss[1..]));
      LogsAppend(k', ss[1..]);
      assert k'.logList + ss[1..] == k.logList + ss;
    }
  }

  lemma LogReplyFits(a: LogReply)
    requires LogReplySize(a) <= INT32_MAX
    ensures Fits(LOG_REPLY, LogReplyFields(a), LogReplySize(a))
  {
    var c := LOG_REPLY;
    var s3, n3 := StringsSlot(3, a.logList), StringsSize(a.logList);
    StringsFit(c, 3, a.logList);
    Int32Fits(c, 2, a.endIndex);
    Join(c, Int32Slot(2, a.endIndex), Int32SlotSize(a.endIndex), s3, n3);
    Int32Fits(c, 1, a.startIndex);
    Join(c, Int32Slot(1, a.startIndex), Int32SlotSize(a.startIndex), Int32Slot(2, a.endIndex) + s3, Int32SlotSize(a.endIndex) + n3);
  }

  lemma LogReplyReads(k: LogReply, a: LogReply)
    ensures ApplyAll(LOG_REPLY, k, LogReplyFields(a)) == Ok(MergeLogReply(k, a))
  {
    Int32Survives(a.startIndex);
    Int32Survives(a.endIndex);
    var k1 := k.(startIndex := MergeInt(k.startIndex, a.startIndex));
    var k2 := k1.(endIndex := MergeInt(k.endIndex, a.endIndex));
    SlotThen(LOG_REPLY, k, Int32Slot(1, a.startIndex), k1, Int32Slot(2, a.endIndex) + StringsSlot(3, a.logList));
    SlotThen(LOG_REPLY, k1, Int32Slot(2, a.endIndex), k2, StringsSlot(3, a.logList));
    LogsAppend(k2, a.logList);
  }

  lemma LogReplyLawful()
    ensures Lawful(LOG_REPLY)
  {
    forall a: LogReply | LogReplySize(a) <= INT32_MAX ensures Fits(LOG_REPLY, LogReplyFields(a), LogReplySize(a)) {
      LogReplyFits(a);
    }
    forall k: LogReply, a: LogReply {:trigger MergeLogReply(k, a)}
      ensures ApplyAll(LOG_REPLY, k, LogReplyFields(a)) == Ok(MergeLogReply(k, a))
    {
      LogReplyReads(k, a);
    }
    forall a: LogReply ensures MergeLogReply(LOG_REPLY.empty, a) == a {
      assert [] + a.logList == a.logList;
    }
  }
}
