/**
 `StrategyBean` as the class it is: a presence bit for `strategyUID`, and the
 oneof kept as a case tag and a reference that are updated together.
 */
module StrategyObject {
  import opened Common
  import opened Wire
  import opened Messages
  import opened Slots
  import opened Writer
  import opened StrategyMessage

  const STRATEGY_UID_BIT: bv32 := 1
  const NO_CASE: nat := 0
  const ABOVE_PERCENTAGE_CASE: nat := 7

  class StrategyBean<P(!new)> {
    const arm: Codec<P>
    var symbol: Bytes
    var enabled: bool
    var bannedSymbolList: seq<Bytes>
    var strategyUID: Int32
    var hasBits: bv32
    var timeInForceParam: Bytes
    var status: Int32
    var implementBean: Option<Msg<P>>
    var implementBeanCase: nat
    var unknownFields: seq<RawField>

    constructor (arm: Codec<P>)
      ensures this.arm == arm && Valid() && View() == Empty(StrategyCodec(arm))
    {
      this.arm := arm;
      symbol, enabled, bannedSymbolList := [], false, [];
      strategyUID, hasBits, timeInForceParam, status := 0, 0, [], 0;
      implementBean, implementBeanCase, unknownFields := None, NO_CASE, [];
    }

    /** Case and payload agree. */
    ghost predicate Valid()
      reads this
    {
      && (implementBeanCase == NO_CASE || implementBeanCase == ABOVE_PERCENTAGE_CASE)
      && (implementBean.Some? <==> implementBeanCase == ABOVE_PERCENTAGE_CASE)
    }

    function View(): Msg<Strategy<P>>
      reads this
    {
      Msg(Strategy(symbol, enabled, bannedSymbolList, if HasStrategyUID() then Some(strategyUID) else None,
                   timeInForceParam, status, AboveBean()),
          unknownFields)
    }

    predicate HasStrategyUID()
      reads this
    {
      hasBits & STRATEGY_UID_BIT != 0
    }

    /** The generated getter: null unless the case says otherwise. */
    function AboveBean(): Option<Msg<P>>
      reads this
    {
      if implementBeanCase == ABOVE_PERCENTAGE_CASE then implementBean else None
    }

    method SetStrategyUID(value: Int32)
      requires Valid()
      modifies this
      ensures Valid() && View() == old(View()).(known := old(View()).known.(strategyUID := Some(value)))
    {
      hasBits := hasBits | STRATEGY_UID_BIT;
      strategyUID := value;
    }

    method ClearStrategyUID()
      requires Valid()
      modifies this
      ensures Valid() && View() == old(View()).(known := old(View()).known.(strategyUID := None))
    {
      hasBits := hasBits & !STRATEGY_UID_BIT;
    }

    method SetAboveBean(value: Option<Msg<P>>)
      requires Valid()
      modifies this
      ensures Valid() && View() == old(View()).(known := old(View()).known.(implementBean := value))
    {
      implementBean := value;
      implementBeanCase := if value.None? then NO_CASE else ABOVE_PERCENTAGE_CASE;
    }

    method ClearImplementBean()
      requires Valid()
      modifies this
      ensures Valid() && View() == old(View()).(known := old(View()).known.(implementBean := None))
    {
      implementBeanCase, implementBean := NO_CASE, None;
    }

    method MergeFrom(other: StrategyBean?<P>)
      requires Valid() && (other != null ==> other.Valid() && other.arm == arm)
      modifies this
      ensures Valid()
      ensures View() == if other == null then old(View()) else MergeMsg(StrategyCodec(arm), old(View()), old(other.View()))
    {
      if other == null {
        return;
      }
      MergeFirstFields(other);
      MergeOtherScalars(other);
      if other.implementBeanCase == ABOVE_PERCENTAGE_CASE {
        SetAboveBean(Some(MergeArm(arm, AboveBean(), other.implementBean.value)));
      }
      unknownFields := unknownFields + other.unknownFields;
    }

    /** Fields 1 to 3 of `MergeFrom`. */
    method MergeFirstFields(other: StrategyBean<P>)
      requires Valid()
      modifies this`symbol, this`enabled, this`bannedSymbolList
      ensures symbol == MergeString(old(symbol), old(other.symbol))
      ensures enabled == (old(enabled) || old(other.enabled))
      ensures bannedSymbolList == old(bannedSymbolList) + old(other.bannedSymbolList)
    {
      if |other.symbol| != 0 {
        symbol := other.symbol;
      }
      if other.enabled {
        enabled := other.enabled;
      }
      bannedSymbolList := bannedSymbolList + other.bannedSymbolList;
    }

    /** Fields 4 to 6 of `MergeFrom`. */
    method MergeOtherScalars(other: StrategyBean<P>)
      requires Valid()
      modifies this
      ensures Valid()
      ensures View() == old(View()).(known := old(View()).known.(
                strategyUID := MergeOption(old(View()).known.strategyUID, old(other.View()).known.strategyUID),
                timeInForceParam := MergeString(old(timeInForceParam), old(other.timeInForceParam)),
                status := MergeInt(old(status), old(other.status))))
    {
      if other.HasStrategyUID() {
        SetStrategyUID(other.strategyUID);
      }
      if |other.timeInForceParam| != 0 {
        timeInForceParam := other.timeInForceParam;
      }
      if other.status != 0 {
        status := other.status;
      }
    }

    method CalculateSize() returns (size: nat)
      requires Valid()
      ensures size == Messages.CalculateSize(StrategyCodec(arm), View())
    {
      size := SizeOfFirstFields();
      var others := SizeOfOtherScalars();
      size := size + others;
      if implementBeanCase == ABOVE_PERCENTAGE_CASE {
        size := size + 1 + DelimitedSize(Messages.CalculateSize(arm, implementBean.value));
      }
      size := size + FieldsSize(unknownFields);
    }

    /** Fields 1 to 3 of `CalculateSize`. */
    method SizeOfFirstFields() returns (size: nat)
      ensures size == StringSize(symbol) + BoolSize(enabled) + StringsSize(bannedSymbolList)
    {
      size := 0;
      if |symbol| != 0 {
        size := size + 1 + DelimitedSize(|symbol|);
      }
      if enabled {
        size := size + 1 + 1;
      }
      size := size + StringsSize(bannedSymbolList);
    }

    /** Fields 4 to 6 of `CalculateSize`. */
    method SizeOfOtherScalars() returns (size: nat)
      ensures size == OptionalInt32Size(View().known.strategyUID) + StringSize(timeInForceParam) + Int32SlotSize(status)
    {
      size := 0;
      if HasStrategyUID() {
        size := size + 1 + Int32Size(strategyUID);
      }
      if |timeInForceParam| != 0 {
        size := size + 1 + DelimitedSize(|timeInForceParam|);
      }
      if status != 0 {
        size := size + 1 + Int32Size(status);
      }
    }

    method WriteTo(output: Bytes) returns (written: Bytes)
      requires Valid()
      ensures written == output + Encode(StrategyCodec(arm), View())
    {
      ghost var k := View().known;
      ghost var s1, s2, s3 := StringSlot(1, symbol), BoolSlot(2, enabled), StringsSlot(3, bannedSymbolList);
      ghost var s4, s5 := OptionalInt32Slot(4, k.strategyUID), StringSlot(5, timeInForceParam);
      ghost var s6, s7 := Int32Slot(6, status), OptionalMessageSlot(7, arm, k.implementBean);
      written := WriteFirstFields(output);
      ghost var before := [] + s1 + s2 + s3 + s4 + s5;
      written := WriteVarintIf(status != 0, written, 48, Int32ToWire(status), output, before);
      var data := if implementBean.Some? then Encode(arm, implementBean.value) else [];
      written := WriteDelimitedIf(implementBeanCase == ABOVE_PERCENTAGE_CASE, written, 58, data, output, before + s6);
      ListWritten(EncodeField, output, before + s6 + s7, unknownFields, written);
      written := written + EncodeFields(unknownFields);
      SevenSlots(s1, s2, s3, s4, s5, s6, s7);
    }

    /** Fields 1 to 5 of the writer. */
    method WriteFirstFields(output: Bytes) returns (written: Bytes)
      ensures Wrote(EncodeField, output,
                [] + StringSlot(1, symbol) + BoolSlot(2, enabled) + StringsSlot(3, bannedSymbolList)
                + OptionalInt32Slot(4, View().known.strategyUID) + StringSlot(5, timeInForceParam), written)
    {
      ghost var s1, s2 := StringSlot(1, symbol), BoolSlot(2, enabled);
      var s3 := StringsSlot(3, bannedSymbolList);
      ghost var s4 := OptionalInt32Slot(4, View().known.strategyUID);
      NothingWritten(EncodeField, output);
      written := WriteDelimitedIf(|symbol| != 0, output, 10, symbol, output, []);
      written := WriteVarintIf(enabled, written, 16, 1, output, [] + s1);
      ListWritten(EncodeField, output, [] + s1 + s2, s3, written);
      written := written + EncodeFields(s3);
      written := WriteVarintIf(HasStrategyUID(), written, 32, Int32ToWire(strategyUID), output, [] + s1 + s2 + s3);
      written := WriteDelimitedIf(|timeInForceParam| != 0, written, 42, timeInForceParam, output, [] + s1 + s2 + s3 + s4);
    }

    method InternalMergeFrom(input: Bytes) returns (result: ReadStatus)
      requires Valid()
      modifies this
      ensures Valid()
      ensures match Parse(StrategyCodec(arm), old(View()), input)
              case Complete(m) => result == AtEnd && View() == m
              case StoppedAtEndGroup(m) => result == AtEndGroup && View() == m
              case Malformed => result == Threw
    {
      var rest := input;
      while rest != []
        invariant Valid()
        invariant Parse(StrategyCodec(arm), View(), rest) == Parse(StrategyCodec(arm), old(View()), input)
        decreases |rest|
      {
        var scan := ReadField(rest);
        if scan.BadField? {
          return Threw;
        }
        if scan.EndGroup? {
          return AtEndGroup;
        }
        var ok := ReadOne(scan.field);
        if !ok {
          return Threw;
        }
        rest := scan.rest;
      }
      return AtEnd;
    }

    method ReadOne(f: RawField) returns (ok: bool)
      requires Valid()
      modifies this
      ensures Valid()
      ensures match ApplyField(StrategyCodec(arm), old(View()), f)
              case Ok(m) => ok && View() == m
              case Failed => !ok
    {
      ok := true;
      var tag := Tag(f);
      if tag == 10 {
        symbol := f.data;
      } else if tag == 16 {
        enabled := f.value != 0;
      } else if tag == 26 {
        bannedSymbolList := bannedSymbolList + [f.data];
      } else if tag == 32 {
        SetStrategyUID(Int32FromWire(f.value));
      } else if tag == 42 {
        timeInForceParam := f.data;
      } else if tag == 48 {
        status := Int32FromWire(f.value);
      } else if tag == 58 {
        var sub := ReadArm(arm, AboveBean(), f.data);
        if sub.Failed? {
          return false;
        }
        SetAboveBean(Some(sub.value));
      } else {
        unknownFields := unknownFields + [f];
      }
    }
  }

  lemma SevenSlots<T>(s1: seq<T>, s2: seq<T>, s3: seq<T>, s4: seq<T>, s5: seq<T>, s6: seq<T>, s7: seq<T>)
    ensures [] + s1 + s2 + s3 + s4 + s5 + s6 + s7 == s1 + (s2 + (s3 + (s4 + (s5 + (s6 + s7)))))
  {
    FiveSlots(s1, s2, s3, s4, s5 + (s6 + s7));
    PrependAssociates([] + s1 + s2 + s3 + s4, s5, s6 + s7);
    PrependAssociates([] + s1 + s2 + s3 + s4 + s5, s6, s7);
  }
}
