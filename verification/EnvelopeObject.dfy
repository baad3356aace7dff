/**
 `Request` and `Response` as the class they share: a payload reference and a case
 tag, updated together by setters, clears, merges and parses.
 */
module EnvelopeObject {
  import opened Common
  import opened Wire
  import opened Messages
  import opened Slots
  import opened Envelope

  class EnvelopeMessage<P(!new)> {
    const arms: nat
    const arm: nat -> Codec<P>
    /** 0 stands for `None`; otherwise the field number of the arm that is set. */
    var case_: nat
    var payload: Option<Msg<P>>
    var unknownFields: seq<RawField>

    constructor (arms: nat, arm: nat -> Codec<P>)
      requires arms <= REQUEST_ARMS
      ensures this.arms == arms && this.arm == arm
      ensures Valid() && View() == Empty(EnvelopeCodec(arms, arm))
    {
      this.arms, this.arm := arms, arm;
      case_, payload, unknownFields := 0, None, [];
    }

    /** Case and payload agree: no payload exactly when no case, and a payload of the case's type. */
    ghost predicate Valid()
      reads this
    {
      && arms <= REQUEST_ARMS
      && (case_ == 0 <==> payload.None?)
      && ValidMsg(EnvelopeCodec(arms, arm), View())
    }

    function View(): Msg<Oneof<P>>
      reads this
    {
      Msg(if payload.None? then Unset else Arm(case_, payload.value), unknownFields)
    }

    /** The generated getter of arm `n`: null unless `n` is the current case. */
    function Get(n: nat): Option<Msg<P>>
      requires 1 <= n
      reads this
    {
      if case_ == n then payload else None
    }

    /** The generated setter of arm `n`; setting null clears the oneof. */
    method Set(n: nat, value: Option<Msg<P>>)
      requires Valid() && 1 <= n <= arms
      requires value.Some? ==> ValidMsg(arm(n), value.value)
      modifies this
      ensures Valid() && unknownFields == old(unknownFields)
      ensures forall i :: 1 <= i <= arms ==> Get(i) == if i == n then value else None
      ensures View().known == if value.None? then Unset else Arm(n, value.value)
    {
      payload := value;
      case_ := if value.None? then 0 else n;
    }

    method Clear()
      requires Valid()
      modifies this
      ensures Valid() && unknownFields == old(unknownFields)
      ensures View().known == Unset && forall i :: 1 <= i <= arms ==> Get(i) == None
    {
      case_, payload := 0, None;
    }

    method MergeFrom(other: EnvelopeMessage?<P>)
      requires Valid() && ClosedArms(arms, arm) && (other != null ==> other.Valid() && other.arms == arms && other.arm == arm)
      modifies this
      ensures Valid()
      ensures View() == if other == null then old(View()) else MergeMsg(EnvelopeCodec(arms, arm), old(View()), old(other.View()))
    {
      if other == null {
        return;
      }
      var n, theirs := other.case_, other.payload;
      var theirUnknown := other.unknownFields;
      if n != 0 {
        var mine := if Get(n).None? then Empty(arm(n)) else Get(n).value;
        MergeKeepsValid(arm(n), mine, theirs.value);
        Set(n, Some(MergeMsg(arm(n), mine, theirs.value)));
      }
      unknownFields := unknownFields + theirUnknown;
    }

    method CalculateSize() returns (size: nat)
      requires Valid()
      ensures size == Messages.CalculateSize(EnvelopeCodec(arms, arm), View())
    {
      size := 0;
      if 1 <= case_ <= 15 {
        size := size + 1 + DelimitedSize(Messages.CalculateSize(arm(case_), payload.value));
      } else if case_ >= 16 {
        size := size + 2 + DelimitedSize(Messages.CalculateSize(arm(case_), payload.value));
      }
      size := size + FieldsSize(unknownFields);
    }

    /** One raw tag byte for arms 1 to 15, two from arm 16 on. */
    method WriteTo(output: Bytes) returns (written: Bytes)
      requires Valid()
      ensures written == output + Encode(EnvelopeCodec(arms, arm), View())
    {
      written := output;
      if case_ != 0 {
        var data := Encode(arm(case_), payload.value);
        var tag: Bytes := if case_ <= 15 then [8 * case_ + 2] else [8 * case_ + 2, 1];
        ArmTagBytes(case_, data);
        ArmWritten(case_, data, unknownFields, tag, output);
        written := written + (tag + (Varint(|data|) + data));
      }
      assert [] + unknownFields == unknownFields;
      written := written + EncodeFields(unknownFields);
    }

    /** The tag loop: each known tag builds a sub-message from a copy of the current one. */
    method InternalMergeFrom(input: Bytes) returns (status: ReadStatus)
      requires Valid() && ClosedArms(arms, arm)
      modifies this
      ensures Valid()
      ensures match Parse(EnvelopeCodec(arms, arm), old(View()), input)
              case Complete(m) => status == AtEnd && View() == m
              case StoppedAtEndGroup(m) => status == AtEndGroup && View() == m
              case Malformed => status == Threw
    {
      var rest := input;
      while rest != []
        invariant Valid()
        invariant Parse(EnvelopeCodec(arms, arm), View(), rest) == Parse(EnvelopeCodec(arms, arm), old(View()), input)
        decreases |rest|
      {
        var scan := ReadField(rest);
        if scan.BadField? {
          return Threw;
        }
        if scan.EndGroup? {
          return AtEndGroup;
        }
        FieldsReadAreWellFormed(rest);
        var ok := ReadOne(scan.field);
        if !ok {
          return Threw;
        }
        rest := scan.rest;
      }
      return AtEnd;
    }

    method ReadOne(f: RawField) returns (ok: bool)
      requires Valid() && ClosedArms(arms, arm) && WellFormed(f)
      modifies this
      ensures Valid()
      ensures match ApplyField(EnvelopeCodec(arms, arm), old(View()), f)
              case Ok(m) => ok && View() == m
              case Failed => !ok
    {
      ok := true;
      var n := Tag(f) / 8;
      if Tag(f) == 8 * n + 2 && 1 <= n <= arms {
        ReadArmKeepsValid(arm(n), Get(n), f.data);
        var sub := ReadArm(arm(n), Get(n), f.data);
        if sub.Failed? {
          return false;
        }
        Set(n, Some(sub.value));
      } else {
        unknownFields := unknownFields + [f];
      }
    }
  }

  ghost predicate ClosedArms<P(!new)>(arms: nat, arm: nat -> Codec<P>) {
    forall n :: 1 <= n <= arms ==> ClosedUnderSteps(arm(n))
  }

  lemma ArmWritten(n: nat, data: Bytes, unknown: seq<RawField>, tag: Bytes, output: Bytes)
    requires Varint(Tag(BytesField(n, data))) == tag
    ensures output + EncodeFields([BytesField(n, data)] + unknown) ==
            output + (tag + (Varint(|data|) + data)) + EncodeFields(unknown)
  {
    var fs := [BytesField(n, data)] + unknown;
    assert fs[0] == BytesField(n, data) && fs[1..] == unknown;
    PrependAssociates(output, tag + (Varint(|data|) + data), EncodeFields(unknown));
  }
}
