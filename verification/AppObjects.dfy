/** The three application messages as the classes they are. */
module AppObjects {
  import opened Common
  import opened Wire
  import opened Messages
  import opened Slots
  import opened Writer
  import opened AppMessages

  class ReqHeartBeat {
    var clientTime: Int64
    var isForeground: bool
    var unknownFields: seq<RawField>

    constructor ()
      ensures View() == Empty(HEART_BEAT)
    {
      clientTime, isForeground, unknownFields := 0, false, [];
    }

    function View(): Msg<HeartBeat>
      reads this
    {
      Msg(HeartBeat(clientTime, isForeground), unknownFields)
    }

    method MergeFrom(other: ReqHeartBeat?)
      modifies this
      ensures View() == if other == null then old(View()) else MergeMsg(HEART_BEAT, old(View()), old(other.View()))
    {
      if other == null {
        return;
      }
      if other.clientTime != 0 {
        clientTime := other.clientTime;
      }
      if other.isForeground {
        isForeground := other.isForeground;
      }
      unknownFields := unknownFields + other.unknownFields;
    }

    method WriteTo(output: Bytes) returns (written: Bytes)
      ensures written == output + Encode(HEART_BEAT, View())
    {
      ghost var s1, s2 := Int64Slot(1, clientTime), BoolSlot(2, isForeground);
      NothingWritten(EncodeField, output);
      written := WriteVarintIf(clientTime != 0, output, 8, Int64ToWire(clientTime), output, []);
      written := WriteVarintIf(isForeground, written, 16, 1, output, [] + s1);
      ListWritten(EncodeField, output, [] + s1 + s2, unknownFields, written);
      written := written + EncodeFields(unknownFields);
      assert [] + s1 == s1;
    }

    method CalculateSize() returns (size: nat)
      ensures size == Messages.CalculateSize(HEART_BEAT, View())
    {
      size := 0;
      if clientTime != 0 {
        size := size + 1 + Int64Size(clientTime);
      }
      if isForeground {
        size := size + 1 + 1;
      }
      size := size + FieldsSize(unknownFields);
    }

    method InternalMergeFrom(input: Bytes) returns (status: ReadStatus)
      modifies this
      ensures match Parse(HEART_BEAT, old(View()), input)
              case Complete(m) => status == AtEnd && View() == m
              case StoppedAtEndGroup(m) => status == AtEndGroup && View() == m
              case Malformed => status == Threw
    {
      var rest := input;
      while rest != []
        invariant Parse(HEART_BEAT, View(), rest) == Parse(HEART_BEAT, old(View()), input)
        decreases |rest|
      {
        var scan := ReadField(rest);
        if scan.BadField? {
          return Threw;
        }
        if scan.EndGroup? {
          return AtEndGroup;
        }
        ReadOne(scan.field);
        rest := scan.rest;
      }
      return AtEnd;
    }

    method ReadOne(f: RawField)
      modifies this
      ensures ApplyField(HEART_BEAT, old(View()), f) == Ok(View())
    {
      var tag := Tag(f);
      if tag == 8 {
        clientTime := Int64FromWire(f.value);
      } else if tag == 16 {
        isForeground := f.value != 0;
      } else {
        unknownFields := unknownFields + [f];
      }
    }
  }

  const START_INDEX_BIT: bv32 := 1
  const END_INDEX_BIT: bv32 := 2

  class ReqServerLogQuery {
    var startIndex: Int32
    var endIndex: Int32
    var hasBits: bv32
    var unknownFields: seq<RawField>

    constructor ()
      ensures View() == Empty(LOG_QUERY)
    {
      startIndex, endIndex, hasBits, unknownFields := 0, 0, 0, [];
    }

    predicate Has(bit: bv32)
      reads this
    {
      hasBits & bit != 0
    }

    function View(): Msg<LogQuery>
      reads this
    {
      Msg(LogQuery(if Has(START_INDEX_BIT) then Some(startIndex) else None, if Has(END_INDEX_BIT) then Some(endIndex) else None),
          unknownFields)
    }

    method SetStartIndex(value: Int32)
      modifies this
      ensures View() == old(View()).(known := old(View()).known.(startIndex := Some(value)))
    {
      hasBits := hasBits | START_INDEX_BIT;
      startIndex := value;
    }

    method ClearStartIndex()
      modifies this
      ensures View() == old(View()).(known := old(View()).known.(startIndex := None))
    {
      hasBits := hasBits & !START_INDEX_BIT;
    }

    method SetEndIndex(value: Int32)
      modifies this
      ensures View() == old(View()).(known := old(View()).known.(endIndex := Some(value)))
    {
      hasBits := hasBits | END_INDEX_BIT;
      endIndex := value;
    }

    method ClearEndIndex()
      modifies this
      ensures View() == old(View()).(known := old(View()).known.(endIndex := None))
    {
      hasBits := hasBits & !END_INDEX_BIT;
    }

    method MergeFrom(other: ReqServerLogQuery?)
      modifies this
      ensures View() == if other == null then old(View()) else MergeMsg(LOG_QUERY, old(View()), old(other.View()))
    {
      if other == null {
        return;
      }
      if other.Has(START_INDEX_BIT) {
        SetStartIndex(other.startIndex);
      }
      if other.Has(END_INDEX_BIT) {
        SetEndIndex(other.endIndex);
      }
      unknownFields := unknownFields + other.unknownFields;
    }

    method WriteTo(output: Bytes) returns (written: Bytes)
      ensures written == output + Encode(LOG_QUERY, View())
    {
      ghost var s1, s2 := OptionalInt32Slot(1, View().known.startIndex), OptionalInt32Slot(2, View().known.endIndex);
      NothingWritten(EncodeField, output);
      written := WriteVarintIf(Has(START_INDEX_BIT), output, 8, Int32ToWire(startIndex), output, []);
      written := WriteVarintIf(Has(END_INDEX_BIT), written, 16, Int32ToWire(endIndex), output, [] + s1);
      ListWritten(EncodeField, output, [] + s1 + s2, unknownFields, written);
      written := written + EncodeFields(unknownFields);
      assert [] + s1 == s1;
    }

    method CalculateSize() returns (size: nat)
      ensures size == Messages.CalculateSize(LOG_QUERY, View())
    {
      size := 0;
      if Has(START_INDEX_BIT) {
        size := size + 1 + Int32Size(startIndex);
      }
      if Has(END_INDEX_BIT) {
        size := size + 1 + Int32Size(endIndex);
      }
      size := size + FieldsSize(unknownFields);
    }

    method InternalMergeFrom(input: Bytes) returns (status: ReadStatus)
      modifies this
      ensures match Parse(LOG_QUERY, old(View()), input)
              case Complete(m) => status == AtEnd && View() == m
              case StoppedAtEndGroup(m) => status == AtEndGroup && View() == m
              case Malformed => status == Threw
    {
      var rest := input;
      while rest != []
        invariant Parse(LOG_QUERY, View(), rest) == Parse(LOG_QUERY, old(View()), input)
        decreases |rest|
      {
        var scan := ReadField(rest);
        if scan.BadField? {
          return Threw;
        }
        if scan.EndGroup? {
          return AtEndGroup;
        }
        ReadOne(scan.field);
        rest := scan.rest;
      }
      return AtEnd;
    }

    method ReadOne(f: RawField)
      modifies this
      ensures ApplyField(LOG_QUERY, old(View()), f) == Ok(View())
    {
      var tag := Tag(f);
      if tag == 8 {
        SetStartIndex(Int32FromWire(f.value));
      } else if tag == 16 {
        SetEndIndex(Int32FromWire(f.value));
      } else {
        unknownFields := unknownFields + [f];
      }
    }
  }

  class ResServerLogQuery {
    var startIndex: Int32
    var endIndex: Int32
    var logList: seq<Bytes>
    var unknownFields: seq<RawField>

    constructor ()
      ensures View() == Empty(LOG_REPLY)
    {
      startIndex, endIndex, logList, unknownFields := 0, 0, [], [];
    }

    function View(): Msg<LogReply>
      reads this
    {
      Msg(LogReply(startIndex, endIndex, logList), unknownFields)
    }

    method MergeFrom(other: ResServerLogQuery?)
      modifies this
      ensures View() == if other == null then old(View()) else MergeMsg(LOG_REPLY, old(View()), old(other.View()))
    {
      if other == null {
        return;
      }
      if other.startIndex != 0 {
        startIndex := other.startIndex;
      }
      if other.endIndex != 0 {
        endIndex := other.endIndex;
      }
      logList := logList + other.logList;
      unknownFields := unknownFields + other.unknownFields;
    }

    method WriteTo(output: Bytes) returns (written: Bytes)
      ensures written == output + Encode(LOG_REPLY, View())
    {
      ghost var s1, s2 := Int32Slot(1, startIndex), Int32Slot(2, endIndex);
      var s3 := StringsSlot(3, logList);
      NothingWritten(EncodeField, output);
      written := WriteVarintIf(startIndex != 0, output, 8, Int32ToWire(startIndex), output, []);
      written := WriteVarintIf(endIndex != 0, written, 16, Int32ToWire(endIndex), output, [] + s1);
      ListWritten(EncodeField, output, [] + s1 + s2, s3, written);
      written := written + EncodeFields(s3);
      ListWritten(EncodeField, output, [] + s1 + s2 + s3, unknownFields, written);
      written := written + EncodeFields(unknownFields);
      assert [] + s1 == s1;
      PrependAssociates(s1, s2, s3);
    }

    method CalculateSize() returns (size: nat)
      ensures size == Messages.CalculateSize(LOG_REPLY, View())
    {
      size := 0;
      if startIndex != 0 {
        size := size + 1 + Int32Size(startIndex);
      }
      if endIndex != 0 {
        size := size + 1 + Int32Size(endIndex);
      }
      size := size + StringsSize(logList);
      size := size + FieldsSize(unknownFields);
    }

    method InternalMergeFrom(input: Bytes) returns (status: ReadStatus)
      modifies this
      ensures match Parse(LOG_REPLY, old(View()), input)
              case Complete(m) => status == AtEnd && View() == m
              case StoppedAtEndGroup(m) => status == AtEndGroup && View() == m
              case Malformed => status == Threw
    {
      var rest := input;
      while rest != []
        invariant Parse(LOG_REPLY, View(), rest) == Parse(LOG_REPLY, old(View()), input)
        decreases |rest|
      {
        var scan := ReadField(rest);
        if scan.BadField? {
          return Threw;
        }
        if scan.EndGroup? {
          return AtEndGroup;
        }
        ReadOne(scan.field);
        rest := scan.rest;
      }
      return AtEnd;
    }

    method ReadOne(f: RawField)
      modifies this
      ensures ApplyField(LOG_REPLY, old(View()), f) == Ok(View())
    {
      var tag := Tag(f);
      if tag == 8 {
        startIndex := Int32FromWire(f.value);
      } else if tag == 16 {
        endIndex := Int32FromWire(f.value);
      } else if tag == 26 {
        logList := logList + [f.data];
      } else {
        unknownFields := unknownFields + [f];
      }
    }
  }
}
