/**
 `StrategyAbovePercentageBean` as the class it is: fields and presence bits
 updated in place, each method proved against the message functions.
 */
module AboveObject {
  import opened Common
  import opened Wire
  import opened Messages
  import opened Slots
  import opened AboveMessage
  import opened Writer

  const STOP_LOSS_BIT: bv32 := 1
  const BUY_RATIO_BIT: bv32 := 2
  const BUY_MONEY_BIT: bv32 := 4

  class StrategyAbovePercentageBean<L(!new)> {
    const inner: Codec<L>
    var triggerPerc: Double
    var stopLossPerc: Double
    var buyRatio: Double
    var buyMoney: Double
    var hasBits: bv32
    var makeProfitBeanList: seq<Msg<L>>
    var unknownFields: seq<RawField>

    constructor (inner: Codec<L>)
      ensures this.inner == inner && View() == Empty(AboveCodec(inner))
    {
      this.inner := inner;
      triggerPerc, stopLossPerc, buyRatio, buyMoney := 0, 0, 0, 0;
      hasBits, makeProfitBeanList, unknownFields := 0, [], [];
    }

    predicate Has(bit: bv32)
      reads this
    {
      hasBits & bit != 0
    }

    /** The message this object stands for: an absent field has no value, whatever its backing field holds. */
    function View(): Msg<AbovePercentage<L>>
      reads this
    {
      Msg(AbovePercentage(
            triggerPerc,
            if Has(STOP_LOSS_BIT) then Some(stopLossPerc) else None,
            if Has(BUY_RATIO_BIT) then Some(buyRatio) else None,
            if Has(BUY_MONEY_BIT) then Some(buyMoney) else None,
            makeProfitBeanList),
          unknownFields)
    }

    method SetStopLossPerc(value: Double)
      modifies this
      ensures View() == old(View()).(known := old(View()).known.(stopLossPerc := Some(value)))
    {
      hasBits := hasBits | STOP_LOSS_BIT;
      stopLossPerc := value;
    }

    method ClearStopLossPerc()
      modifies this
      ensures View() == old(View()).(known := old(View()).known.(stopLossPerc := None))
    {
      hasBits := hasBits & !STOP_LOSS_BIT;
    }

    method SetBuyRatio(value: Double)
      modifies this
      ensures View() == old(View()).(known := old(View()).known.(buyRatio := Some(value)))
    {
      hasBits := hasBits | BUY_RATIO_BIT;
      buyRatio := value;
    }

    method ClearBuyRatio()
      modifies this
      ensures View() == old(View()).(known := old(View()).known.(buyRatio := None))
    {
      hasBits := hasBits & !BUY_RATIO_BIT;
    }

    method SetBuyMoney(value: Double)
      modifies this
      ensures View() == old(View()).(known := old(View()).known.(buyMoney := Some(value)))
    {
      hasBits := hasBits | BUY_MONEY_BIT;
      buyMoney := value;
    }

    method ClearBuyMoney()
      modifies this
      ensures View() == old(View()).(known := old(View()).known.(buyMoney := None))
    {
      hasBits := hasBits & !BUY_MONEY_BIT;
    }

    /** Merging an object into itself doubles its lists, as the in-place code does. */
    method MergeFrom(other: StrategyAbovePercentageBean?<L>)
      requires other != null ==> other.inner == inner
      modifies this
      ensures View() == if other == null then old(View()) else MergeMsg(AboveCodec(inner), old(View()), old(other.View()))
    {
      if other == null {
        return;
      }
      MergeDoubles(other);
      makeProfitBeanList := makeProfitBeanList + other.makeProfitBeanList;
      unknownFields := unknownFields + other.unknownFields;
    }

    /** Fields 1 to 4 of `MergeFrom`. */
    method MergeDoubles(other: StrategyAbovePercentageBean<L>)
      modifies this
      ensures var mine, theirs := old(View()).known, old(other.View()).known;
              View() == old(View()).(known := mine.(
                triggerPerc := MergeDouble(mine.triggerPerc, theirs.triggerPerc),
                stopLossPerc := MergeOption(mine.stopLossPerc, theirs.stopLossPerc),
                buyRatio := MergeOption(mine.buyRatio, theirs.buyRatio),
                buyMoney := MergeOption(mine.buyMoney, theirs.buyMoney)))
    {
      if !IsZero(other.triggerPerc) {
        triggerPerc := other.triggerPerc;
      }
      if other.Has(STOP_LOSS_BIT) {
        SetStopLossPerc(other.stopLossPerc);
      }
      if other.Has(BUY_RATIO_BIT) {
        SetBuyRatio(other.buyRatio);
      }
      if other.Has(BUY_MONEY_BIT) {
        SetBuyMoney(other.buyMoney);
      }
    }

    /** The writer; the repeated field and the unknown fields are library calls. */
    method WriteTo(output: Bytes) returns (written: Bytes)
      ensures written == output + Encode(AboveCodec(inner), View())
    {
      ghost var k := View().known;
      ghost var s1, s2 := DoubleSlot(1, k.triggerPerc), OptionalDoubleSlot(2, k.stopLossPerc);
      ghost var s3, s4 := OptionalDoubleSlot(3, k.buyRatio), OptionalDoubleSlot(4, k.buyMoney);
      var s5 := MessagesSlot(5, inner, makeProfitBeanList);
      NothingWritten(EncodeField, output);
      written := WriteDoubleIf(!IsZero(triggerPerc), output, 9, triggerPerc, output, []);
      written := WriteDoubleIf(Has(STOP_LOSS_BIT), written, 17, stopLossPerc, output, [] + s1);
      written := WriteDoubleIf(Has(BUY_RATIO_BIT), written, 25, buyRatio, output, [] + s1 + s2);
      written := WriteDoubleIf(Has(BUY_MONEY_BIT), written, 33, buyMoney, output, [] + s1 + s2 + s3);
      ListWritten(EncodeField, output, [] + s1 + s2 + s3 + s4, s5, written);
      written := written + EncodeFields(s5);
      ListWritten(EncodeField, output, [] + s1 + s2 + s3 + s4 + s5, unknownFields, written);
      written := written + EncodeFields(unknownFields);
      FiveSlots(s1, s2, s3, s4, s5);
    }

    method CalculateSize() returns (size: nat)
      ensures size == Messages.CalculateSize(AboveCodec(inner), View())
    {
      size := 0;
      if !IsZero(triggerPerc) {
        size := size + 1 + 8;
      }
      if Has(STOP_LOSS_BIT) {
        size := size + 1 + 8;
      }
      if Has(BUY_RATIO_BIT) {
        size := size + 1 + 8;
      }
      if Has(BUY_MONEY_BIT) {
        size := size + 1 + 8;
      }
      size := size + MessagesSize(inner, makeProfitBeanList);
      size := size + FieldsSize(unknownFields);
    }

    /** The tag loop, dispatching on the generated tag constants. */
    method InternalMergeFrom(input: Bytes) returns (status: ReadStatus)
      modifies this
      ensures match Parse(AboveCodec(inner), old(View()), input)
              case Complete(m) => status == AtEnd && View() == m
              case StoppedAtEndGroup(m) => status == AtEndGroup && View() == m
              case Malformed => status == Threw
    {
      var rest := input;
      while rest != []
        invariant Parse(AboveCodec(inner), View(), rest) == Parse(AboveCodec(inner), old(View()), input)
        decreases |rest|
      {
        var scan := ReadField(rest);
        if scan.BadField? {
          return Threw;
        }
        if scan.EndGroup? {
          return AtEndGroup;
        }
        var ok := ReadOne(scan.field);
        if !ok {
          return Threw;
        }
        rest := scan.rest;
      }
      return AtEnd;
    }

    /** The body of the generated `switch (tag)`. */
    method ReadOne(f: RawField) returns (ok: bool)
      modifies this
      ensures match ApplyField(AboveCodec(inner), old(View()), f)
              case Ok(m) => ok && View() == m
              case Failed => !ok
    {
      ok := true;
      var tag := Tag(f);
      if tag == 9 {
        triggerPerc := f.bits;
      } else if tag == 17 {
        SetStopLossPerc(f.bits);
      } else if tag == 25 {
        SetBuyRatio(f.bits);
      } else if tag == 33 {
        SetBuyMoney(f.bits);
      } else if tag == 42 {
        var m := ReadNested(inner, Empty(inner), f.data);
        if m.Failed? {
          return false;
        }
        makeProfitBeanList := makeProfitBeanList + [m.value];
      } else {
        unknownFields := unknownFields + [f];
      }
    }
  }
}
