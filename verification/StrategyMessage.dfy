/**
 `StrategyBean`: plain and optional scalars, a repeated string, and a oneof with
 one arm (field 7), whose codec is a parameter.
 */
module StrategyMessage {
  import opened Common
  import opened Wire
  import opened Messages
  import opened Slots

  datatype Strategy<+P> = Strategy(
    symbol: Bytes, enabled: bool, bannedSymbols: seq<Bytes>, strategyUID: Option<Int32>,
    timeInForceParam: Bytes, status: Int32, implementBean: Option<Msg<P>>)

  function StrategyCodec<P>(arm: Codec<P>): Codec<Strategy<P>> {
    Codec(
      Strategy([], false, [], None, [], 0, None),
      (k: Strategy<P>) => ValidStrategy(arm, k),
      RecognisesStrategy,
      (k: Strategy<P>, f: RawField) => ApplyStrategy(arm, k, f),
      (k: Strategy<P>) => StrategyFields(arm, k),
      (k: Strategy<P>) => StrategySize(arm, k),
      (k: Strategy<P>, a: Strategy<P>) => MergeStrategy(arm, k, a),
      (k: Strategy<P>) => k.(implementBean := NormOption(arm, k.implementBean)))
  }

  predicate ValidStrategy<P>(arm: Codec<P>, k: Strategy<P>) {
    k.implementBean.Some? ==> ValidMsg(arm, k.implementBean.value)
  }

  predicate RecognisesStrategy(f: RawField) {
    match f
    case BytesField(n, _) => n == 1 || n == 3 || n == 5 || n == 7
    case VarintField(n, _) => n == 2 || n == 4 || n == 6
    case _ => false
  }

  function ApplyStrategy<P>(arm: Codec<P>, k: Strategy<P>, f: RawField): Outcome<Strategy<P>> {
    match f
    case BytesField(1, s) => Ok(k.(symbol := s))
    case VarintField(2, v) => Ok(k.(enabled := v != 0))
    case BytesField(3, s) => Ok(k.(bannedSymbols := k.bannedSymbols + [s]))
    case VarintField(4, v) => Ok(k.(strategyUID := Some(Int32FromWire(v))))
    case BytesField(5, s) => Ok(k.(timeInForceParam := s))
    case VarintField(6, v) => Ok(k.(status := Int32FromWire(v)))
    case BytesField(7, data) =>
      (match ReadArm(arm, k.implementBean, data)
       case Failed => Failed
       case Ok(m) => Ok(k.(implementBean := Some(m))))
    case _ => Failed
  }

  function StrategyFields<P>(arm: Codec<P>, k: Strategy<P>): seq<RawField> {
    StringSlot(1, k.symbol) + (BoolSlot(2, k.enabled) + (StringsSlot(3, k.bannedSymbols) +
    (OptionalInt32Slot(4, k.strategyUID) + (StringSlot(5, k.timeInForceParam) +
    (Int32Slot(6, k.status) + OptionalMessageSlot(7, arm, k.implementBean))))))
  }

  function StrategySize<P>(arm: Codec<P>, k: Strategy<P>): nat {
    StringSize(k.symbol) + (BoolSize(k.enabled) + (StringsSize(k.bannedSymbols) +
    (OptionalInt32Size(k.strategyUID) + (StringSize(k.timeInForceParam) +
    (Int32SlotSize(k.status) + OptionalMessageSize(arm, k.implementBean))))))
  }

  function MergeStrategy<P>(arm: Codec<P>, k: Strategy<P>, a: Strategy<P>): Strategy<P> {
    Strategy(
      MergeString(k.symbol, a.symbol), k.enabled || a.enabled, k.bannedSymbols + a.bannedSymbols,
      MergeOption(k.strategyUID, a.strategyUID), MergeString(k.timeInForceParam, a.timeInForceParam),
      MergeInt(k.status, a.status),
      if a.implementBean.Some? then Some(MergeArm(arm, k.implementBean, a.implementBean.value)) else k.implementBean)
  }

  lemma StrategyFits<P>(arm: Codec<P>, c: Codec<Strategy<P>>, a: Strategy<P>)
    requires forall f :: c.recognises(f) == RecognisesStrategy(f)
    requires |a.symbol| <= INT32_MAX && |a.timeInForceParam| <= INT32_MAX && StringsSize(a.bannedSymbols) <= INT32_MAX
    requires Fits(c, OptionalMessageSlot(7, arm, a.implementBean), OptionalMessageSize(arm, a.implementBean))
    ensures Fits(c, StrategyFields(arm, a), StrategySize(arm, a))
  {
    var s7, n7 := OptionalMessageSlot(7, arm, a.implementBean), OptionalMessageSize(arm, a.implementBean);
    var s6, n6 := Int32Slot(6, a.status) + s7, Int32SlotSize(a.status) + n7;
    var s5, n5 := StringSlot(5, a.timeInForceParam) + s6, StringSize(a.timeInForceParam) + n6;
    var s4, n4 := OptionalInt32Slot(4, a.strategyUID) + s5, OptionalInt32Size(a.strategyUID) + n5;
    var s3, n3 := StringsSlot(3, a.bannedSymbols) + s4, StringsSize(a.bannedSymbols) + n4;
    var s2, n2 := BoolSlot(2, a.enabled) + s3, BoolSize(a.enabled) + n3;
    Int32Fits(c, 6, a.status);
    Join(c, Int32Slot(6, a.status), Int32SlotSize(a.status), s7, n7);
    StringFits(c, 5, a.timeInForceParam);
    Join(c, StringSlot(5, a.timeInForceParam), StringSize(a.timeInForceParam), s6, n6);
    OptionalInt32Fits(c, 4, a.strategyUID);
    Join(c, OptionalInt32Slot(4, a.strategyUID), OptionalInt32Size(a.strategyUID), s5, n5);
    StringsFit(c, 3, a.bannedSymbols);
    Join(c, StringsSlot(3, a.bannedSymbols), StringsSize(a.bannedSymbols), s4, n4);
    BoolFits(c, 2, a.enabled);
    Join(c, BoolSlot(2, a.enabled), BoolSize(a.enabled), s3, n3);
    StringFits(c, 1, a.symbol);
    Join(c, StringSlot(1, a.symbol), StringSize(a.symbol), s2, n2);
  }

  lemma ArmFits<P(!new), K>(arm: Codec<P>, c: Codec<K>, num: nat, m: Option<Msg<P>>)
    requires Lawful(arm) && 1 <= num <= 15 && OptionalMessageSize(arm, m) <= INT32_MAX
    requires m.Some? ==> ValidMsg(arm, m.value) && c.recognises(BytesField(num, Encode(arm, m.value)))
    ensures Fits(c, OptionalMessageSlot(num, arm, m), OptionalMessageSize(arm, m))
  {
    if m.Some? {
      SizeIsLength(arm, m.value);
      DelimitedFits(c, num, Encode(arm, m.value));
    }
  }

  lemma StrategyFieldsFit<P(!new)>(arm: Codec<P>)
    requires Lawful(arm)
    ensures FieldsFit(StrategyCodec(arm))
  {
    forall a | ValidStrategy(arm, a) && StrategySize(arm, a) <= INT32_MAX
      ensures Fits(StrategyCodec(arm), StrategyFields(arm, a), StrategySize(arm, a))
    {
      ArmFits(arm, StrategyCodec(arm), 7, a.implementBean);
      StrategyFits(arm, StrategyCodec(arm), a);
    }
  }

  lemma {:induction false} StringsAppend<P>(arm: Codec<P>, k: Strategy<P>, ss: seq<Bytes>)
    ensures ApplyAll(StrategyCodec(arm), k, StringsSlot(3, ss)) == Ok(k.(bannedSymbols := k.bannedSymbols + ss))
    decreases |ss|
  {
    if ss == [] {
      assert k.bannedSymbols + ss == k.bannedSymbols;
    } else {
      var k' := k.(bannedSymbols := k.bannedSymbols + [ss[0]]);
      assert StringsSlot(3, ss) == [BytesField(3, ss[0])] + StringsSlot(3, ss[1..]);
      assert ApplyStrategy(arm, k, BytesField(3, ss[0])) == Ok(k');
      SlotThen(StrategyCodec(arm), k, [BytesField(3, ss[0])], k', StringsSlot(3, ss[1..]));
      StringsAppend(arm, k', ss[1..]);
      assert k'.bannedSymbols + ss[1..] == k.bannedSymbols + ss;
    }
  }

  /** Fields 1 to 3, then 4 to 6: each half of the writer, read back onto `k`. */
  lemma FirstFieldsMerge<P>(arm: Codec<P>, k: Strategy<P>, a: Strategy<P>, rest: seq<RawField>)
    ensures ApplyAll(StrategyCodec(arm), k,
              StringSlot(1, a.symbol) + (BoolSlot(2, a.enabled) + (StringsSlot(3, a.bannedSymbols) + rest))) ==
            ApplyAll(StrategyCodec(arm),
              k.(symbol := MergeString(k.symbol, a.symbol), enabled := k.enabled || a.enabled,
                 bannedSymbols := k.bannedSymbols + a.bannedSymbols), rest)
  {
    var c := StrategyCodec(arm);
    var k1 := k.(symbol := MergeString(k.symbol, a.symbol));
    var k2 := k1.(enabled := k.enabled || a.enabled);
    var s3 := StringsSlot(3, a.bannedSymbols) + rest;
    SlotThen(c, k, StringSlot(1, a.symbol), k1, BoolSlot(2, a.enabled) + s3);
    SlotThen(c, k1, BoolSlot(2, a.enabled), k2, s3);
    ApplyConcat(c, k2, StringsSlot(3, a.bannedSymbols), rest);
    StringsAppend(arm, k2, a.bannedSymbols);
  }

  lemma MiddleFieldsMerge<P>(arm: Codec<P>, k: Strategy<P>, a: Strategy<P>, rest: seq<RawField>)
    ensures ApplyAll(StrategyCodec(arm), k,
              OptionalInt32Slot(4, a.strategyUID) + (StringSlot(5, a.timeInForceParam) + (Int32Slot(6, a.status) + rest))) ==
            ApplyAll(StrategyCodec(arm),
              k.(strategyUID := MergeOption(k.strategyUID, a.strategyUID),
                 timeInForceParam := MergeString(k.timeInForceParam, a.timeInForceParam),
                 status := MergeInt(k.status, a.status)), rest)
  {
    var c := StrategyCodec(arm);
    var k1 := k.(strategyUID := MergeOption(k.strategyUID, a.strategyUID));
    var k2 := k1.(timeInForceParam := MergeString(k.timeInForceParam, a.timeInForceParam));
    var k3 := k2.(status := MergeInt(k.status, a.status));
    var s6 := Int32Slot(6, a.status) + rest;
    assert a.strategyUID.Some? ==> Int32FromWire(Int32ToWire(a.strategyUID.value)) == a.strategyUID.value by {
      if a.strategyUID.Some? {
        Int32Survives(a.strategyUID.value);
      }
    }
    Int32Survives(a.status);
    SlotThen(c, k, OptionalInt32Slot(4, a.strategyUID), k1, StringSlot(5, a.timeInForceParam) + s6);
    SlotThen(c, k1, StringSlot(5, a.timeInForceParam), k2, s6);
    SlotThen(c, k2, Int32Slot(6, a.status), k3, rest);
  }

  lemma ArmMerges<P(!new)>(arm: Codec<P>, k: Strategy<P>, mine: Option<Msg<P>>, a: Strategy<P>)
    requires Lawful(arm) && ValidStrategy(arm, a) && OptionalMessageSize(arm, a.implementBean) <= INT32_MAX
    requires (mine.Some? ==> ValidMsg(arm, mine.value)) && k.implementBean == NormOption(arm, mine)
    ensures ApplyAll(StrategyCodec(arm), k, OptionalMessageSlot(7, arm, a.implementBean)) ==
            Ok(if a.implementBean.Some?
               then k.(implementBean := Some(NormMsg(arm, MergeArm(arm, mine, a.implementBean.value))))
               else k)
  {
    if a.implementBean.Some? {
      ReadArmMerges(arm, mine, a.implementBean.value);
      var f := BytesField(7, Encode(arm, a.implementBean.value));
      assert ApplyStrategy(arm, k, f).Ok?;
      SlotThen(StrategyCodec(arm), k, [f], ApplyStrategy(arm, k, f).value, []);
      assert [f] + [] == [f];
    }
  }

  lemma StrategyFieldsMerge<P(!new)>(arm: Codec<P>, k: Strategy<P>, a: Strategy<P>)
    requires Lawful(arm) && ValidStrategy(arm, k) && ValidStrategy(arm, a) && StrategySize(arm, a) <= INT32_MAX
    ensures ApplyAll(StrategyCodec(arm), StrategyCodec(arm).norm(k), StrategyFields(arm, a)) ==
            Ok(StrategyCodec(arm).norm(MergeStrategy(arm, k, a)))
  {
    var k0 := StrategyCodec(arm).norm(k);
    var s7 := OptionalMessageSlot(7, arm, a.implementBean);
    var k1 := k0.(symbol := MergeString(k.symbol, a.symbol), enabled := k.enabled || a.enabled,
                  bannedSymbols := k.bannedSymbols + a.bannedSymbols);
    var k2 := k1.(strategyUID := MergeOption(k.strategyUID, a.strategyUID),
                  timeInForceParam := MergeString(k.timeInForceParam, a.timeInForceParam),
                  status := MergeInt(k.status, a.status));
    var s4 := OptionalInt32Slot(4, a.strategyUID) + (StringSlot(5, a.timeInForceParam) + (Int32Slot(6, a.status) + s7));
    FirstFieldsMerge(arm, k0, a, s4);
    MiddleFieldsMerge(arm, k1, a, s7);
    ArmMerges(arm, k2, k.implementBean, a);
  }

  lemma StrategyNormLaws<P(!new)>(arm: Codec<P>)
    requires Lawful(arm)
    ensures NormLaws(StrategyCodec(arm))
  {
    var c := StrategyCodec(arm);
    forall a | ValidStrategy(arm, a)
      ensures c.norm(MergeStrategy(arm, c.empty, a)) == c.norm(a) && MergeStrategy(arm, c.empty, c.norm(a)) == c.norm(a)
    {
      assert [] + a.bannedSymbols == a.bannedSymbols;
      if a.implementBean.Some? {
        CopyOfNormed(arm, a.implementBean.value);
      }
    }
  }

  lemma StrategyClosed<P(!new)>(arm: Codec<P>)
    requires Lawful(arm)
    ensures ClosedUnderSteps(StrategyCodec(arm))
  {
    forall k, f | ValidStrategy(arm, k) && ApplyStrategy(arm, k, f).Ok?
      ensures ValidStrategy(arm, ApplyStrategy(arm, k, f).value)
    {
      StepKeepsArm(arm, k, f);
    }
    forall k, a | ValidStrategy(arm, k) && ValidStrategy(arm, a) ensures ValidStrategy(arm, MergeStrategy(arm, k, a)) {
      MergeKeepsArm(arm, k, a);
    }
  }

  /** Only field 7 touches the arm. */
  lemma StepKeepsArm<P(!new)>(arm: Codec<P>, k: Strategy<P>, f: RawField)
    requires ClosedUnderSteps(arm) && ValidStrategy(arm, k) && ApplyStrategy(arm, k, f).Ok?
    ensures ValidStrategy(arm, ApplyStrategy(arm, k, f).value)
  {
    if f.BytesField? && f.num == 7 {
      ReadArmKeepsValid(arm, k.implementBean, f.data);
    }
  }

  lemma MergeKeepsArm<P(!new)>(arm: Codec<P>, k: Strategy<P>, a: Strategy<P>)
    requires ClosedUnderSteps(arm) && ValidStrategy(arm, k) && ValidStrategy(arm, a)
    ensures ValidStrategy(arm, MergeStrategy(arm, k, a))
  {
    if a.implementBean.Some? {
      MergeKeepsValid(arm, if k.implementBean.Some? then k.implementBean.value else Empty(arm), a.implementBean.value);
    }
  }

  lemma StrategyLawful<P(!new)>(arm: Codec<P>)
    requires Lawful(arm)
    ensures Lawful(StrategyCodec(arm))
  {
    StrategyClosed(arm);
    StrategyFieldsFit(arm);
    StrategyNormLaws(arm);
    forall k, a | ValidStrategy(arm, k) && ValidStrategy(arm, a) && StrategySize(arm, a) <= INT32_MAX
      ensures ApplyAll(StrategyCodec(arm), StrategyCodec(arm).norm(k), StrategyFields(arm, a)) ==
              Ok(StrategyCodec(arm).norm(MergeStrategy(arm, k, a)))
    {
      StrategyFieldsMerge(arm, k, a);
    }
  }
}
