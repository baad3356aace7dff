/** `StrategyAbovePercentageMakeProfitBean`: six plain scalar fields. */
module MakeProfitMessage {
  import opened Common
  import opened Wire
  import opened Messages
  import opened Slots

  datatype MakeProfit = MakeProfit(
    perc: Double, ratio: Double, moveStopPerc: Double,
    enabled: bool, sellOrderId: Int32, moveSellOrderId: Int32)

  const MAKE_PROFIT: Codec<MakeProfit> := Codec(
    MakeProfit(0, 0, 0, false, 0, 0),
    (k: MakeProfit) => true,
    RecognisesMakeProfit, ApplyMakeProfit, MakeProfitFields, MakeProfitSize, MergeMakeProfit, NormMakeProfit)

  predicate RecognisesMakeProfit(f: RawField) {
    match f
    case Fixed64Field(n, _) => 1 <= n <= 3
    case VarintField(n, _) => 4 <= n <= 6
    case _ => false
  }

  function ApplyMakeProfit(k: MakeProfit, f: RawField): Outcome<MakeProfit> {
    match f
    case Fixed64Field(1, d) => Ok(k.(perc := d))
    case Fixed64Field(2, d) => Ok(k.(ratio := d))
    case Fixed64Field(3, d) => Ok(k.(moveStopPerc := d))
    case VarintField(4, v) => Ok(k.(enabled := v != 0))
    case VarintField(5, v) => Ok(k.(sellOrderId := Int32FromWire(v)))
    case VarintField(6, v) => Ok(k.(moveSellOrderId := Int32FromWire(v)))
    case _ => Failed
  }

  function MakeProfitFields(k: MakeProfit): seq<RawField> {
    DoubleSlot(1, k.perc) + (DoubleSlot(2, k.ratio) + (DoubleSlot(3, k.moveStopPerc) +
    (BoolSlot(4, k.enabled) + (Int32Slot(5, k.sellOrderId) + Int32Slot(6, k.moveSellOrderId)))))
  }

  function MakeProfitSize(k: MakeProfit): nat {
    DoubleSize(k.perc) + (DoubleSize(k.ratio) + (DoubleSize(k.moveStopPerc) +
    (BoolSize(k.enabled) + (Int32SlotSize(k.sellOrderId) + Int32SlotSize(k.moveSellOrderId)))))
  }

  function MergeMakeProfit(k: MakeProfit, a: MakeProfit): MakeProfit {
    MakeProfit(
      MergeDouble(k.perc, a.perc), MergeDouble(k.ratio, a.ratio), MergeDouble(k.moveStopPerc, a.moveStopPerc),
      k.enabled || a.enabled, MergeInt(k.sellOrderId, a.sellOrderId), MergeInt(k.moveSellOrderId, a.moveSellOrderId))
  }

  function NormMakeProfit(k: MakeProfit): MakeProfit {
    k.(perc := NormDouble(k.perc), ratio := NormDouble(k.ratio), moveStopPerc := NormDouble(k.moveStopPerc))
  }

  lemma MakeProfitFits(a: MakeProfit)
    ensures Fits(MAKE_PROFIT, MakeProfitFields(a), MakeProfitSize(a))
  {
    var c := MAKE_PROFIT;
    var s6, n6 := Int32Slot(6, a.moveSellOrderId), Int32SlotSize(a.moveSellOrderId);
    var s5, n5 := Int32Slot(5, a.sellOrderId) + s6, Int32SlotSize(a.sellOrderId) + n6;
    var s4, n4 := BoolSlot(4, a.enabled) + s5, BoolSize(a.enabled) + n5;
    var s3, n3 := DoubleSlot(3, a.moveStopPerc) + s4, DoubleSize(a.moveStopPerc) + n4;
    var s2, n2 := DoubleSlot(2, a.ratio) + s3, DoubleSize(a.ratio) + n3;
    Int32Fits(c, 6, a.moveSellOrderId);
    Int32Fits(c, 5, a.sellOrderId);
    Join(c, Int32Slot(5, a.sellOrderId), Int32SlotSize(a.sellOrderId), s6, n6);
    BoolFits(c, 4, a.enabled);
    Join(c, BoolSlot(4, a.enabled), BoolSize(a.enabled), s5, n5);
    DoubleFits(c, 3, a.moveStopPerc);
    Join(c, DoubleSlot(3, a.moveStopPerc), DoubleSize(a.moveStopPerc), s4, n4);
    DoubleFits(c, 2, a.ratio);
    Join(c, DoubleSlot(2, a.ratio), DoubleSize(a.ratio), s3, n3);
    DoubleFits(c, 1, a.perc);
    Join(c, DoubleSlot(1, a.perc), DoubleSize(a.perc), s2, n2);
  }

  /** Fields 1 to 3, then 4 to 6: each half of the writer, read back onto `k`. */
  lemma DoublesMerge(k: MakeProfit, a: MakeProfit, rest: seq<RawField>)
    ensures ApplyAll(MAKE_PROFIT, k,
              DoubleSlot(1, a.perc) + (DoubleSlot(2, a.ratio) + (DoubleSlot(3, a.moveStopPerc) + rest))) ==
            ApplyAll(MAKE_PROFIT,
              k.(perc := MergeDouble(k.perc, a.perc), ratio := MergeDouble(k.ratio, a.ratio),
                 moveStopPerc := MergeDouble(k.moveStopPerc, a.moveStopPerc)), rest)
  {
    var c := MAKE_PROFIT;
    var k1 := k.(perc := MergeDouble(k.perc, a.perc));
    var k2 := k1.(ratio := MergeDouble(k.ratio, a.ratio));
    var k3 := k2.(moveStopPerc := MergeDouble(k.moveStopPerc, a.moveStopPerc));
    var s3 := DoubleSlot(3, a.moveStopPerc) + rest;
    SlotThen(c, k, DoubleSlot(1, a.perc), k1, DoubleSlot(2, a.ratio) + s3);
    SlotThen(c, k1, DoubleSlot(2, a.ratio), k2, s3);
    SlotThen(c, k2, DoubleSlot(3, a.moveStopPerc), k3, rest);
  }

  lemma VarintsMerge(k: MakeProfit, a: MakeProfit)
    ensures ApplyAll(MAKE_PROFIT, k,
              BoolSlot(4, a.enabled) + (Int32Slot(5, a.sellOrderId) + Int32Slot(6, a.moveSellOrderId))) ==
            Ok(k.(enabled := k.enabled || a.enabled, sellOrderId := MergeInt(k.sellOrderId, a.sellOrderId),
                  moveSellOrderId := MergeInt(k.moveSellOrderId, a.moveSellOrderId)))
  {
    Int32Survives(a.sellOrderId);
    Int32Survives(a.moveSellOrderId);
    var c := MAKE_PROFIT;
    var k4 := k.(enabled := k.enabled || a.enabled);
    var k5 := k4.(sellOrderId := MergeInt(k.sellOrderId, a.sellOrderId));
    var k6 := k5.(moveSellOrderId := MergeInt(k.moveSellOrderId, a.moveSellOrderId));
    var s6 := Int32Slot(6, a.moveSellOrderId);
    SlotThen(c, k, BoolSlot(4, a.enabled), k4, Int32Slot(5, a.sellOrderId) + s6);
    SlotThen(c, k4, Int32Slot(5, a.sellOrderId), k5, s6);
    assert s6 + [] == s6;
    SlotThen(c, k5, s6, k6, []);
  }

  lemma MakeProfitFieldsMerge(k: MakeProfit, a: MakeProfit)
    ensures ApplyAll(MAKE_PROFIT, k, MakeProfitFields(a)) == Ok(MergeMakeProfit(k, a))
  {
    var s4 := BoolSlot(4, a.enabled) + (Int32Slot(5, a.sellOrderId) + Int32Slot(6, a.moveSellOrderId));
    var k3 := k.(perc := MergeDouble(k.perc, a.perc), ratio := MergeDouble(k.ratio, a.ratio),
                 moveStopPerc := MergeDouble(k.moveStopPerc, a.moveStopPerc));
    DoublesMerge(k, a, s4);
    VarintsMerge(k3, a);
  }

  lemma MakeProfitNorm(k: MakeProfit, a: MakeProfit)
    ensures NormMakeProfit(MergeMakeProfit(k, a)) == MergeMakeProfit(NormMakeProfit(k), a)
    ensures MergeMakeProfit(MAKE_PROFIT.empty, NormMakeProfit(a)) == NormMakeProfit(a)
    ensures NormMakeProfit(MergeMakeProfit(MAKE_PROFIT.empty, a)) == NormMakeProfit(a)
  {
  }

  lemma MakeProfitLawful()
    ensures Lawful(MAKE_PROFIT)
  {
    forall a: MakeProfit ensures Fits(MAKE_PROFIT, MakeProfitFields(a), MakeProfitSize(a)) {
      MakeProfitFits(a);
    }
    forall k: MakeProfit, a: MakeProfit {:trigger MergeMakeProfit(k, a)}
      ensures ApplyAll(MAKE_PROFIT, NormMakeProfit(k), MakeProfitFields(a)) == Ok(NormMakeProfit(MergeMakeProfit(k, a)))
    {
      MakeProfitFieldsMerge(NormMakeProfit(k), a);
      MakeProfitNorm(k, a);
    }
    forall a: MakeProfit
      ensures MergeMakeProfit(MAKE_PROFIT.empty, NormMakeProfit(a)) == NormMakeProfit(a)
      ensures NormMakeProfit(MergeMakeProfit(MAKE_PROFIT.empty, a)) == NormMakeProfit(a)
    {
      MakeProfitNorm(a, a);
    }
  }
}
