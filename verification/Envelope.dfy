/**
 The `Request` and `Response` envelopes: one oneof whose arms are messages of
 different types.  Arm `n` uses field number `n` and the codec `arm(n)`; the
 envelope's laws follow from the laws of its arms.
 */
module Envelope {
  import opened Common
  import opened Wire
  import opened Messages
  import opened Slots

  const REQUEST_ARMS: nat := 26
  const RESPONSE_ARMS: nat := 18

  datatype Oneof<+P> = Unset | Arm(number: nat, payload: Msg<P>)

  function EnvelopeCodec<P>(arms: nat, arm: nat -> Codec<P>): Codec<Oneof<P>> {
    Codec(
      Unset,
      (k: Oneof<P>) => Agrees(arms, arm, k),
      (f: RawField) => f.BytesField? && 1 <= f.num <= arms,
      (k: Oneof<P>, f: RawField) => ApplyArm(arms, arm, k, f),
      (k: Oneof<P>) => if k.Unset? then [] else [BytesField(k.number, Encode(arm(k.number), k.payload))],
      (k: Oneof<P>) => EnvelopeSize(arm, k),
      (k: Oneof<P>, a: Oneof<P>) => MergeOneof(arm, k, a),
      (k: Oneof<P>) => if k.Unset? then Unset else Arm(k.number, NormMsg(arm(k.number), k.payload)))
  }

  /** The case names an arm and the payload is a message of that arm's type. */
  predicate Agrees<P>(arms: nat, arm: nat -> Codec<P>, k: Oneof<P>) {
    k.Arm? ==> 1 <= k.number <= arms && ValidMsg(arm(k.number), k.payload)
  }

  /** The generated getter: the payload, when this is the current case. */
  function Current<P>(k: Oneof<P>, n: nat): Option<Msg<P>> {
    if k.Arm? && k.number == n then Some(k.payload) else None
  }

  function ApplyArm<P>(arms: nat, arm: nat -> Codec<P>, k: Oneof<P>, f: RawField): Outcome<Oneof<P>> {
    if f.BytesField? && 1 <= f.num <= arms then
      match ReadArm(arm(f.num), Current(k, f.num), f.data)
      case Failed => Failed
      case Ok(m) => Ok(Arm(f.num, m))
    else Failed
  }

  /** Two tag bytes from field number 16 on. */
  function EnvelopeSize<P>(arm: nat -> Codec<P>, k: Oneof<P>): nat {
    if k.Unset? then 0
    else (if k.number <= 15 then 1 else 2) + DelimitedSize(CalculateSize(arm(k.number), k.payload))
  }

  function MergeOneof<P>(arm: nat -> Codec<P>, k: Oneof<P>, a: Oneof<P>): Oneof<P> {
    if a.Unset? then k else Arm(a.number, MergeArm(arm(a.number), Current(k, a.number), a.payload))
  }

  ghost predicate LawfulArms<P(!new)>(arms: nat, arm: nat -> Codec<P>) {
    forall n :: 1 <= n <= arms ==> Lawful(arm(n))
  }

  /** The raw tag bytes in the generated writers: `8n+2`, split in two once it passes 127. */
  lemma ArmTagBytes(n: nat, data: Bytes)
    requires 1 <= n <= REQUEST_ARMS
    ensures Varint(Tag(BytesField(n, data))) == if n <= 15 then [8 * n + 2] else [8 * n + 2, 1]
  {
    assert 8 * n + 2 >= 128 ==> 128 + (8 * n + 2) % 128 == 8 * n + 2 && (8 * n + 2) / 128 == 1;
  }

  lemma EnvelopeFits<P(!new)>(arms: nat, arm: nat -> Codec<P>, a: Oneof<P>)
    requires arms <= 2047 && LawfulArms(arms, arm) && Agrees(arms, arm, a) && EnvelopeSize(arm, a) <= INT32_MAX
    ensures var c := EnvelopeCodec(arms, arm); Fits(c, c.fields(a), EnvelopeSize(arm, a))
  {
    if a.Arm? {
      SizeIsLength(arm(a.number), a.payload);
      OneFieldFits(a.number, Encode(arm(a.number), a.payload));
    }
  }

  lemma OneFieldFits(num: nat, data: Bytes)
    requires 1 <= num <= 2047 && |data| <= INT32_MAX
    ensures WellFormed(BytesField(num, data))
    ensures FieldsSize([BytesField(num, data)]) == (if num <= 15 then 1 else 2) + DelimitedSize(|data|)
  {
  }

  lemma EnvelopeFieldsMerge<P(!new)>(arms: nat, arm: nat -> Codec<P>, k: Oneof<P>, a: Oneof<P>)
    requires LawfulArms(arms, arm) && Agrees(arms, arm, k) && Agrees(arms, arm, a) && EnvelopeSize(arm, a) <= INT32_MAX
    ensures var c := EnvelopeCodec(arms, arm);
            ApplyAll(c, c.norm(k), c.fields(a)) == Ok(c.norm(MergeOneof(arm, k, a)))
  {
    if a.Arm? {
      var c := EnvelopeCodec(arms, arm);
      var f := BytesField(a.number, Encode(arm(a.number), a.payload));
      ArmFieldMerges(arms, arm, k, a);
      assert [f] + [] == [f];
      SlotThen(c, c.norm(k), [f], c.norm(MergeOneof(arm, k, a)), []);
    }
  }

  lemma ArmFieldMerges<P(!new)>(arms: nat, arm: nat -> Codec<P>, k: Oneof<P>, a: Oneof<P>)
    requires LawfulArms(arms, arm) && Agrees(arms, arm, k) && Agrees(arms, arm, a) && a.Arm? && EnvelopeSize(arm, a) <= INT32_MAX
    ensures var c := EnvelopeCodec(arms, arm);
            ApplyArm(arms, arm, c.norm(k), BytesField(a.number, Encode(arm(a.number), a.payload))) ==
            Ok(c.norm(MergeOneof(arm, k, a)))
  {
    var c, n := EnvelopeCodec(arms, arm), a.number;
    ReadArmMerges(arm(n), Current(k, n), a.payload);
    assert Current(c.norm(k), n) == NormOption(arm(n), Current(k, n));
  }

  lemma EnvelopeClosed<P(!new)>(arms: nat, arm: nat -> Codec<P>)
    requires LawfulArms(arms, arm)
    ensures ClosedUnderSteps(EnvelopeCodec(arms, arm))
  {
    var c := EnvelopeCodec(arms, arm);
    forall k, f | c.valid(k) && c.recognises(f) && c.apply(k, f).Ok? ensures c.valid(c.apply(k, f).value) {
      ReadArmKeepsValid(arm(f.num), Current(k, f.num), f.data);
    }
    forall k, a | c.valid(k) && c.valid(a) ensures c.valid(c.merge(k, a)) {
      if a.Arm? {
        var mine := Current(k, a.number);
        MergeKeepsValid(arm(a.number), if mine.Some? then mine.value else Empty(arm(a.number)), a.payload);
      }
    }
  }

  lemma EnvelopeNormLaws<P(!new)>(arms: nat, arm: nat -> Codec<P>)
    requires LawfulArms(arms, arm)
    ensures NormLaws(EnvelopeCodec(arms, arm))
  {
    forall a: Oneof<P> | Agrees(arms, arm, a) && a.Arm?
      ensures MergeMsg(arm(a.number), Empty(arm(a.number)), NormMsg(arm(a.number), a.payload)) ==
              NormMsg(arm(a.number), a.payload)
      ensures NormMsg(arm(a.number), MergeMsg(arm(a.number), Empty(arm(a.number)), a.payload)) ==
              NormMsg(arm(a.number), a.payload)
    {
      CopyOfNormed(arm(a.number), a.payload);
    }
  }

  /** An envelope of lawful arms is a lawful message, so every law of `Messages` holds of it. */
  lemma EnvelopeLawful<P(!new)>(arms: nat, arm: nat -> Codec<P>)
    requires arms <= 2047 && LawfulArms(arms, arm)
    ensures Lawful(EnvelopeCodec(arms, arm))
  {
    EnvelopeClosed(arms, arm);
    EnvelopeNormLaws(arms, arm);
    var c := EnvelopeCodec(arms, arm);
    forall a | c.valid(a) && c.size(a) <= INT32_MAX ensures Fits(c, c.fields(a), c.size(a)) {
      EnvelopeFits(arms, arm, a);
    }
    forall k, a | c.valid(k) && c.valid(a) && c.size(a) <= INT32_MAX
      ensures ApplyAll(c, c.norm(k), c.fields(a)) == Ok(c.norm(c.merge(k, a)))
    {
      EnvelopeFieldsMerge(arms, arm, k, a);
    }
  }

  lemma EnvelopeConcatenation<P(!new)>(arms: nat, arm: nat -> Codec<P>, a: Msg<Oneof<P>>, b: Msg<Oneof<P>>)
    requires arms <= 2047 && LawfulArms(arms, arm)
    requires var c := EnvelopeCodec(arms, arm);
             ValidMsg(c, a) && ValidMsg(c, b) && CalculateSize(c, a) <= INT32_MAX && CalculateSize(c, b) <= INT32_MAX
    ensures var c := EnvelopeCodec(arms, arm);
            Parse(c, Empty(c), Encode(c, a) + Encode(c, b)) == Complete(NormMsg(c, MergeMsg(c, a, b)))
  {
    EnvelopeLawful(arms, arm);
    ConcatenationMerges(EnvelopeCodec(arms, arm), a, b);
  }

  /** The case is the second one's; same case merges, different case replaces. */
  function LastWins<P>(arm: nat -> Codec<P>, a: Oneof<P>, b: Oneof<P>): Oneof<P> {
    if b.Unset? then
      if a.Unset? then Unset else Arm(a.number, NormMsg(arm(a.number), a.payload))
    else if a.Arm? && a.number == b.number then
      Arm(b.number, NormMsg(arm(b.number), MergeMsg(arm(b.number), a.payload, b.payload)))
    else
      Arm(b.number, NormMsg(arm(b.number), b.payload))
  }

  lemma NormedMergeIsLastWins<P(!new)>(arms: nat, arm: nat -> Codec<P>, a: Oneof<P>, b: Oneof<P>)
    requires LawfulArms(arms, arm) && Agrees(arms, arm, b)
    ensures EnvelopeCodec(arms, arm).norm(MergeOneof(arm, a, b)) == LastWins(arm, a, b)
  {
    if b.Arm? {
      CopyOfNormed(arm(b.number), b.payload);
    }
  }

  /** "Last One Wins": what two concatenated envelopes parse to, in terms of their payloads. */
  lemma LastArmWins<P(!new)>(arms: nat, arm: nat -> Codec<P>, a: Msg<Oneof<P>>, b: Msg<Oneof<P>>)
    requires arms <= 2047 && LawfulArms(arms, arm)
    requires var c := EnvelopeCodec(arms, arm);
             ValidMsg(c, a) && ValidMsg(c, b) && CalculateSize(c, a) <= INT32_MAX && CalculateSize(c, b) <= INT32_MAX
    ensures var c := EnvelopeCodec(arms, arm);
            Parse(c, Empty(c), Encode(c, a) + Encode(c, b)) ==
            Complete(Msg(LastWins(arm, a.known, b.known), a.unknown + b.unknown))
  {
    EnvelopeConcatenation(arms, arm, a, b);
    NormedMergeIsLastWins(arms, arm, a.known, b.known);
  }
}
