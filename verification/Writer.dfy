/** Appending fields to the output: raw tag bytes, and what a run of writes has produced. */
module Writer {
  import opened Common
  import opened Wire

  /** What has been written is the encoding of the fields written so far. */
  ghost predicate Wrote<T, U>(f: T -> seq<U>, output: seq<U>, fs: seq<T>, written: seq<U>) {
    written == output + FlatMap(f, fs)
  }

  lemma NothingWritten<T, U>(f: T -> seq<U>, output: seq<U>)
    ensures Wrote(f, output, [], output)
  {
  }

  lemma SlotWritten<T, U>(f: T -> seq<U>, output: seq<U>, before: seq<T>, slot: seq<T>, written: seq<U>, written': seq<U>)
    requires |slot| <= 1 && Wrote(f, output, before, written)
    requires written' == if slot == [] then written else written + f(slot[0])
    ensures Wrote(f, output, before + slot, written')
  {
    if slot == [] {
      assert before + slot == before;
    } else {
      assert FlatMap(f, slot) == f(slot[0]);
      ListWritten(f, output, before, slot, written);
    }
  }

  lemma ListWritten<T, U>(f: T -> seq<U>, output: seq<U>, before: seq<T>, list: seq<T>, written: seq<U>)
    requires Wrote(f, output, before, written)
    ensures Wrote(f, output, before + list, written + FlatMap(f, list))
  {
    FlatMapConcat(f, before, list);
  }

  lemma FiveSlots<T>(s1: seq<T>, s2: seq<T>, s3: seq<T>, s4: seq<T>, s5: seq<T>)
    ensures [] + s1 + s2 + s3 + s4 + s5 == s1 + (s2 + (s3 + (s4 + s5)))
  {
    assert [] + s1 == s1;
    PrependAssociates(s1, s2, s3 + (s4 + s5));
    PrependAssociates(s1 + s2, s3, s4 + s5);
    PrependAssociates(s1 + s2 + s3, s4, s5);
  }

  /** `if (present) { WriteRawTag(tag); WriteDouble(d); }` */
  method WriteDoubleIf(present: bool, output: Bytes, tag: Byte, d: Double, ghost start: Bytes, ghost before: seq<RawField>)
    returns (written: Bytes)
    requires 8 <= tag < 128 && tag % 8 == 1
    requires Wrote(EncodeField, start, before, output)
    ensures Wrote(EncodeField, start, before + if present then [Fixed64Field(tag / 8, d)] else [], written)
  {
    written := output;
    if present {
      written := written + ([tag] + LittleEndian(d, 8));
      assert Varint(tag) == [tag];
    }
    SlotWritten(EncodeField, start, before, if present then [Fixed64Field(tag / 8, d)] else [], output, written);
  }

  /** `if (present) { WriteRawTag(tag); ... }` for a varint value: booleans and integers. */
  method WriteVarintIf(present: bool, output: Bytes, tag: Byte, v: nat, ghost start: Bytes, ghost before: seq<RawField>)
    returns (written: Bytes)
    requires 8 <= tag < 128 && tag % 8 == 0
    requires Wrote(EncodeField, start, before, output)
    ensures Wrote(EncodeField, start, before + if present then [VarintField(tag / 8, v)] else [], written)
  {
    written := output;
    if present {
      written := written + ([tag] + Varint(v));
      assert Varint(tag) == [tag];
    }
    SlotWritten(EncodeField, start, before, if present then [VarintField(tag / 8, v)] else [], output, written);
  }

  /** `if (present) { WriteRawTag(tag); ... }` for a length and that many bytes: strings and messages. */
  method WriteDelimitedIf(present: bool, output: Bytes, tag: Byte, data: Bytes, ghost start: Bytes, ghost before: seq<RawField>)
    returns (written: Bytes)
    requires 8 <= tag < 128 && tag % 8 == 2
    requires Wrote(EncodeField, start, before, output)
    ensures Wrote(EncodeField, start, before + if present then [BytesField(tag / 8, data)] else [], written)
  {
    written := output;
    if present {
      written := written + ([tag] + (Varint(|data|) + data));
      assert Varint(tag) == [tag];
    }
    SlotWritten(EncodeField, start, before, if present then [BytesField(tag / 8, data)] else [], output, written);
  }
}
