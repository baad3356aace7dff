/** `StrategyAbovePercentageMakeProfitBean` as the class it is. */
module MakeProfitObject {
  import opened Common
  import opened Wire
  import opened Messages
  import opened Slots
  import opened Writer
  import opened MakeProfitMessage

  class StrategyAbovePercentageMakeProfitBean {
    var perc: Double
    var ratio: Double
    var moveStopPerc: Double
    var enabled: bool
    var sellOrderId: Int32
    var moveSellOrderId: Int32
    var unknownFields: seq<RawField>

    constructor ()
      ensures View() == Empty(MAKE_PROFIT)
    {
      perc, ratio, moveStopPerc, enabled, sellOrderId, moveSellOrderId := 0, 0, 0, false, 0, 0;
      unknownFields := [];
    }

    function View(): Msg<MakeProfit>
      reads this
    {
      Msg(MakeProfit(perc, ratio, moveStopPerc, enabled, sellOrderId, moveSellOrderId), unknownFields)
    }

    method MergeFrom(other: StrategyAbovePercentageMakeProfitBean?)
      modifies this
      ensures View() == if other == null then old(View()) else MergeMsg(MAKE_PROFIT, old(View()), old(other.View()))
    {
      if other == null {
        return;
      }
      MergeDoubles(other);
      MergeOthers(other);
      unknownFields := unknownFields + other.unknownFields;
    }

    /** Fields 1 to 3 of `MergeFrom`. */
    method MergeDoubles(other: StrategyAbovePercentageMakeProfitBean)
      modifies this`perc, this`ratio, this`moveStopPerc
      ensures perc == MergeDouble(old(perc), old(other.perc))
      ensures ratio == MergeDouble(old(ratio), old(other.ratio))
      ensures moveStopPerc == MergeDouble(old(moveStopPerc), old(other.moveStopPerc))
    {
      if !IsZero(other.perc) {
        perc := other.perc;
      }
      if !IsZero(other.ratio) {
        ratio := other.ratio;
      }
      if !IsZero(other.moveStopPerc) {
        moveStopPerc := other.moveStopPerc;
      }
    }

    /** Fields 4 to 6 of `MergeFrom`. */
    method MergeOthers(other: StrategyAbovePercentageMakeProfitBean)
      modifies this`enabled, this`sellOrderId, this`moveSellOrderId
      ensures enabled == (old(enabled) || old(other.enabled))
      ensures sellOrderId == MergeInt(old(sellOrderId), old(other.sellOrderId))
      ensures moveSellOrderId == MergeInt(old(moveSellOrderId), old(other.moveSellOrderId))
    {
      if other.enabled {
        enabled := other.enabled;
      }
      if other.sellOrderId != 0 {
        sellOrderId := other.sellOrderId;
      }
      if other.moveSellOrderId != 0 {
        moveSellOrderId := other.moveSellOrderId;
      }
    }

    method WriteTo(output: Bytes) returns (written: Bytes)
      ensures written == output + Encode(MAKE_PROFIT, View())
    {
      ghost var s1, s2, s3 := DoubleSlot(1, perc), DoubleSlot(2, ratio), DoubleSlot(3, moveStopPerc);
      ghost var s4, s5, s6 := BoolSlot(4, enabled), Int32Slot(5, sellOrderId), Int32Slot(6, moveSellOrderId);
      written := WriteDoubles(output);
      ghost var before := [] + s1 + s2 + s3;
      written := WriteRest(output, before, written);
      ListWritten(EncodeField, output, before + s4 + s5 + s6, unknownFields, written);
      written := written + EncodeFields(unknownFields);
      FiveSlots(s1, s2, s3, s4, s5 + s6);
      PrependAssociates(before + s4, s5, s6);
    }

    /** Fields 1 to 3 of the writer. */
    method WriteDoubles(output: Bytes) returns (written: Bytes)
      ensures Wrote(EncodeField, output, [] + DoubleSlot(1, perc) + DoubleSlot(2, ratio) + DoubleSlot(3, moveStopPerc), written)
    {
      ghost var s1, s2 := DoubleSlot(1, perc), DoubleSlot(2, ratio);
      NothingWritten(EncodeField, output);
      written := WriteDoubleIf(!IsZero(perc), output, 9, perc, output, []);
      written := WriteDoubleIf(!IsZero(ratio), written, 17, ratio, output, [] + s1);
      written := WriteDoubleIf(!IsZero(moveStopPerc), written, 25, moveStopPerc, output, [] + s1 + s2);
    }

    /** Fields 4 to 6 of the writer. */
    method WriteRest(ghost start: Bytes, ghost before: seq<RawField>, output: Bytes) returns (written: Bytes)
      requires Wrote(EncodeField, start, before, output)
      ensures Wrote(EncodeField, start,
                before + BoolSlot(4, enabled) + Int32Slot(5, sellOrderId) + Int32Slot(6, moveSellOrderId), written)
    {
      ghost var s4, s5 := BoolSlot(4, enabled), Int32Slot(5, sellOrderId);
      written := WriteVarintIf(enabled, output, 32, 1, start, before);
      written := WriteVarintIf(sellOrderId != 0, written, 40, Int32ToWire(sellOrderId), start, before + s4);
      written := WriteVarintIf(moveSellOrderId != 0, written, 48, Int32ToWire(moveSellOrderId), start, before + s4 + s5);
    }

    method CalculateSize() returns (size: nat)
      ensures size == Messages.CalculateSize(MAKE_PROFIT, View())
    {
      size := 0;
      if !IsZero(perc) {
        size := size + 1 + 8;
      }
      if !IsZero(ratio) {
        size := size + 1 + 8;
      }
      if !IsZero(moveStopPerc) {
        size := size + 1 + 8;
      }
      if enabled {
        size := size + 1 + 1;
      }
      if sellOrderId != 0 {
        size := size + 1 + Int32Size(sellOrderId);
      }
      if moveSellOrderId != 0 {
        size := size + 1 + Int32Size(moveSellOrderId);
      }
      size := size + FieldsSize(unknownFields);
    }

    method InternalMergeFrom(input: Bytes) returns (status: ReadStatus)
      modifies this
      ensures match Parse(MAKE_PROFIT, old(View()), input)
              case Complete(m) => status == AtEnd && View() == m
              case StoppedAtEndGroup(m) => status == AtEndGroup && View() == m
              case Malformed => status == Threw
    {
      var rest := input;
      while rest != []
        invariant Parse(MAKE_PROFIT, View(), rest) == Parse(MAKE_PROFIT, old(View()), input)
        decreases |rest|
      {
        var scan := ReadField(rest);
        if scan.BadField? {
          return Threw;
        }
        if scan.EndGroup? {
          return AtEndGroup;
        }
        ReadOne(scan.field);
        rest := scan.rest;
      }
      return AtEnd;
    }

    method ReadOne(f: RawField)
      modifies this
      ensures ApplyField(MAKE_PROFIT, old(View()), f) == Ok(View())
    {
      var tag := Tag(f);
      if tag == 9 {
        perc := f.bits;
      } else if tag == 17 {
        ratio := f.bits;
      } else if tag == 25 {
        moveStopPerc := f.bits;
      } else if tag == 32 {
        enabled := f.value != 0;
      } else if tag == 40 {
        sellOrderId := Int32FromWire(f.value);
      } else if tag == 48 {
        moveSellOrderId := Int32FromWire(f.value);
      } else {
        unknownFields := unknownFields + [f];
      }
    }
  }
}
