/**
 `StrategyAbovePercentageBean`: a plain double, three doubles with presence, and
 a repeated nested message.  The nested codec is a parameter, so that the laws
 here rest on the laws of the nested message and on nothing else about it.
 */
module AboveMessage {
  import opened Common
  import opened Wire
  import opened Messages
  import opened Slots

  datatype AbovePercentage<+L> = AbovePercentage(
    triggerPerc: Double,
    stopLossPerc: Option<Double>, buyRatio: Option<Double>, buyMoney: Option<Double>,
    makeProfits: seq<Msg<L>>)

  function AboveCodec<L>(inner: Codec<L>): Codec<AbovePercentage<L>> {
    Codec(
      AbovePercentage(0, None, None, None, []),
      (k: AbovePercentage<L>) => ValidAbove(inner, k),
      RecognisesAbove,
      (k: AbovePercentage<L>, f: RawField) => ApplyAbove(inner, k, f),
      (k: AbovePercentage<L>) => AboveFields(inner, k),
      (k: AbovePercentage<L>) => AboveSize(inner, k),
      MergeAbove,
      (k: AbovePercentage<L>) => NormAbove(inner, k))
  }

  predicate ValidAbove<L>(inner: Codec<L>, k: AbovePercentage<L>) {
    forall i :: 0 <= i < |k.makeProfits| ==> ValidMsg(inner, k.makeProfits[i])
  }

  predicate RecognisesAbove(f: RawField) {
    match f
    case Fixed64Field(n, _) => 1 <= n <= 4
    case BytesField(n, _) => n == 5
    case _ => false
  }

  function ApplyAbove<L>(inner: Codec<L>, k: AbovePercentage<L>, f: RawField): Outcome<AbovePercentage<L>> {
    match f
    case Fixed64Field(1, d) => Ok(k.(triggerPerc := d))
    case Fixed64Field(2, d) => Ok(k.(stopLossPerc := Some(d)))
    case Fixed64Field(3, d) => Ok(k.(buyRatio := Some(d)))
    case Fixed64Field(4, d) => Ok(k.(buyMoney := Some(d)))
    case BytesField(5, data) =>
      (match ReadNested(inner, Empty(inner), data)
       case Failed => Failed
       case Ok(m) => Ok(k.(makeProfits := k.makeProfits + [m])))
    case _ => Failed
  }

  function AboveFields<L>(inner: Codec<L>, k: AbovePercentage<L>): seq<RawField> {
    DoubleSlot(1, k.triggerPerc) + (OptionalDoubleSlot(2, k.stopLossPerc) + (OptionalDoubleSlot(3, k.buyRatio) +
    (OptionalDoubleSlot(4, k.buyMoney) + MessagesSlot(5, inner, k.makeProfits))))
  }

  function AboveSize<L>(inner: Codec<L>, k: AbovePercentage<L>): nat {
    DoubleSize(k.triggerPerc) + (OptionalDoubleSize(k.stopLossPerc) + (OptionalDoubleSize(k.buyRatio) +
    (OptionalDoubleSize(k.buyMoney) + MessagesSize(inner, k.makeProfits))))
  }

  function MergeAbove<L>(k: AbovePercentage<L>, a: AbovePercentage<L>): AbovePercentage<L> {
    AbovePercentage(
      MergeDouble(k.triggerPerc, a.triggerPerc), MergeOption(k.stopLossPerc, a.stopLossPerc),
      MergeOption(k.buyRatio, a.buyRatio), MergeOption(k.buyMoney, a.buyMoney), k.makeProfits + a.makeProfits)
  }

  function NormAll<L>(inner: Codec<L>, ms: seq<Msg<L>>): seq<Msg<L>> {
    seq(|ms|, i requires 0 <= i < |ms| => NormMsg(inner, ms[i]))
  }

  function NormAbove<L>(inner: Codec<L>, k: AbovePercentage<L>): AbovePercentage<L> {
    k.(triggerPerc := NormDouble(k.triggerPerc), makeProfits := NormAll(inner, k.makeProfits))
  }

  lemma AboveFits<L>(inner: Codec<L>, c: Codec<AbovePercentage<L>>, a: AbovePercentage<L>)
    requires forall f :: c.recognises(f) == RecognisesAbove(f)
    requires Fits(c, MessagesSlot(5, inner, a.makeProfits), MessagesSize(inner, a.makeProfits))
    ensures Fits(c, AboveFields(inner, a), AboveSize(inner, a))
  {
    var s5, n5 := MessagesSlot(5, inner, a.makeProfits), MessagesSize(inner, a.makeProfits);
    var s4, n4 := OptionalDoubleSlot(4, a.buyMoney) + s5, OptionalDoubleSize(a.buyMoney) + n5;
    var s3, n3 := OptionalDoubleSlot(3, a.buyRatio) + s4, OptionalDoubleSize(a.buyRatio) + n4;
    var s2, n2 := OptionalDoubleSlot(2, a.stopLossPerc) + s3, OptionalDoubleSize(a.stopLossPerc) + n3;
    OptionalDoubleFits(c, 4, a.buyMoney);
    Join(c, OptionalDoubleSlot(4, a.buyMoney), OptionalDoubleSize(a.buyMoney), s5, n5);
    OptionalDoubleFits(c, 3, a.buyRatio);
    Join(c, OptionalDoubleSlot(3, a.buyRatio), OptionalDoubleSize(a.buyRatio), s4, n4);
    OptionalDoubleFits(c, 2, a.stopLossPerc);
    Join(c, OptionalDoubleSlot(2, a.stopLossPerc), OptionalDoubleSize(a.stopLossPerc), s3, n3);
    DoubleFits(c, 1, a.triggerPerc);
    Join(c, DoubleSlot(1, a.triggerPerc), DoubleSize(a.triggerPerc), s2, n2);
  }

  lemma NestedStep<L>(inner: Codec<L>, k: AbovePercentage<L>, m: Msg<L>, rest: seq<RawField>)
    requires SurvivesNesting(inner, m)
    ensures ApplyAll(AboveCodec(inner), k, [BytesField(5, Encode(inner, m))] + rest) ==
            ApplyAll(AboveCodec(inner), k.(makeProfits := k.makeProfits + [NormMsg(inner, m)]), rest)
  {
    var k' := k.(makeProfits := k.makeProfits + [NormMsg(inner, m)]);
    assert ApplyAbove(inner, k, BytesField(5, Encode(inner, m))) == Ok(k');
    SlotThen(AboveCodec(inner), k, [BytesField(5, Encode(inner, m))], k', rest);
  }

  lemma SplitFirst<L>(inner: Codec<L>, ms: seq<Msg<L>>)
    requires ms != []
    ensures MessagesSlot(5, inner, ms) == [BytesField(5, Encode(inner, ms[0]))] + MessagesSlot(5, inner, ms[1..])
  {
  }

  lemma SplitFirstNormed<L>(inner: Codec<L>, ms: seq<Msg<L>>)
    requires ms != []
    ensures NormAll(inner, ms) == [NormMsg(inner, ms[0])] + NormAll(inner, ms[1..])
  {
  }

  /** Reading the nested messages back appends them, each normalised on its own. */
  lemma {:induction false} NestedAppend<L>(inner: Codec<L>, k: AbovePercentage<L>, ms: seq<Msg<L>>)
    requires forall i :: 0 <= i < |ms| ==> SurvivesNesting(inner, ms[i])
    ensures ApplyAll(AboveCodec(inner), k, MessagesSlot(5, inner, ms)) ==
            Ok(k.(makeProfits := k.makeProfits + NormAll(inner, ms)))
    decreases |ms|
  {
    if ms == [] {
      assert k.makeProfits + NormAll(inner, ms) == k.makeProfits;
    } else {
      var k' := k.(makeProfits := k.makeProfits + [NormMsg(inner, ms[0])]);
      SplitFirst(inner, ms);
      SplitFirstNormed(inner, ms);
      NestedStep(inner, k, ms[0], MessagesSlot(5, inner, ms[1..]));
      NestedAppend(inner, k', ms[1..]);
      PrependAssociates(k.makeProfits, [NormMsg(inner, ms[0])], NormAll(inner, ms[1..]));
    }
  }

  /** Fields 1 and 2, then 3 and 4: each half of the doubles, read back onto `k`. */
  lemma FirstDoublesMerge<L>(inner: Codec<L>, k: AbovePercentage<L>, a: AbovePercentage<L>, rest: seq<RawField>)
    ensures ApplyAll(AboveCodec(inner), k, DoubleSlot(1, a.triggerPerc) + (OptionalDoubleSlot(2, a.stopLossPerc) + rest)) ==
            ApplyAll(AboveCodec(inner),
              k.(triggerPerc := MergeDouble(k.triggerPerc, a.triggerPerc),
                 stopLossPerc := MergeOption(k.stopLossPerc, a.stopLossPerc)), rest)
  {
    var c := AboveCodec(inner);
    var k1 := k.(triggerPerc := MergeDouble(k.triggerPerc, a.triggerPerc));
    var k2 := k1.(stopLossPerc := MergeOption(k.stopLossPerc, a.stopLossPerc));
    SlotThen(c, k, DoubleSlot(1, a.triggerPerc), k1, OptionalDoubleSlot(2, a.stopLossPerc) + rest);
    SlotThen(c, k1, OptionalDoubleSlot(2, a.stopLossPerc), k2, rest);
  }

  lemma LastDoublesMerge<L>(inner: Codec<L>, k: AbovePercentage<L>, a: AbovePercentage<L>, rest: seq<RawField>)
    ensures ApplyAll(AboveCodec(inner), k, OptionalDoubleSlot(3, a.buyRatio) + (OptionalDoubleSlot(4, a.buyMoney) + rest)) ==
            ApplyAll(AboveCodec(inner),
              k.(buyRatio := MergeOption(k.buyRatio, a.buyRatio), buyMoney := MergeOption(k.buyMoney, a.buyMoney)), rest)
  {
    var c := AboveCodec(inner);
    var k3 := k.(buyRatio := MergeOption(k.buyRatio, a.buyRatio));
    var k4 := k3.(buyMoney := MergeOption(k.buyMoney, a.buyMoney));
    SlotThen(c, k, OptionalDoubleSlot(3, a.buyRatio), k3, OptionalDoubleSlot(4, a.buyMoney) + rest);
    SlotThen(c, k3, OptionalDoubleSlot(4, a.buyMoney), k4, rest);
  }

  lemma AboveFieldsMerge<L>(inner: Codec<L>, k: AbovePercentage<L>, a: AbovePercentage<L>)
    requires forall i :: 0 <= i < |a.makeProfits| ==> SurvivesNesting(inner, a.makeProfits[i])
    ensures ApplyAll(AboveCodec(inner), k, AboveFields(inner, a)) == Ok(MergeAbove(k, NormAbove(inner, a)))
  {
    var k2 := k.(triggerPerc := MergeDouble(k.triggerPerc, a.triggerPerc),
                 stopLossPerc := MergeOption(k.stopLossPerc, a.stopLossPerc));
    var k4 := k2.(buyRatio := MergeOption(k.buyRatio, a.buyRatio), buyMoney := MergeOption(k.buyMoney, a.buyMoney));
    var s5 := MessagesSlot(5, inner, a.makeProfits);
    FirstDoublesMerge(inner, k, a, OptionalDoubleSlot(3, a.buyRatio) + (OptionalDoubleSlot(4, a.buyMoney) + s5));
    LastDoublesMerge(inner, k2, a, s5);
    NestedAppend(inner, k4, a.makeProfits);
  }

  lemma NormAllConcat<L>(inner: Codec<L>, xs: seq<Msg<L>>, ys: seq<Msg<L>>)
    ensures NormAll(inner, xs + ys) == NormAll(inner, xs) + NormAll(inner, ys)
  {
  }

  lemma AboveNorm<L>(inner: Codec<L>, k: AbovePercentage<L>, a: AbovePercentage<L>)
    ensures NormAbove(inner, MergeAbove(k, a)) == MergeAbove(NormAbove(inner, k), NormAbove(inner, a))
  {
    NormAllConcat(inner, k.makeProfits, a.makeProfits);
  }

  lemma AboveNormOfEmpty<L>(inner: Codec<L>, a: AbovePercentage<L>)
    ensures MergeAbove(AboveCodec(inner).empty, NormAbove(inner, a)) == NormAbove(inner, a)
    ensures NormAbove(inner, MergeAbove(AboveCodec(inner).empty, a)) == NormAbove(inner, a)
  {
    var n := NormAll(inner, a.makeProfits);
    assert [] + n == n;
    assert [] + a.makeProfits == a.makeProfits;
  }

  lemma AboveStaysValid<L(!new)>(inner: Codec<L>, k: AbovePercentage<L>, f: RawField)
    requires Lawful(inner) && ValidAbove(inner, k) && ApplyAbove(inner, k, f).Ok?
    ensures ValidAbove(inner, ApplyAbove(inner, k, f).value)
  {
    if f.BytesField? {
      ParseKeepsValid(inner, Empty(inner), f.data);
    }
  }

  lemma AboveFieldsFit<L(!new)>(inner: Codec<L>)
    requires Lawful(inner)
    ensures FieldsFit(AboveCodec(inner))
  {
    forall a | ValidAbove(inner, a) && AboveSize(inner, a) <= INT32_MAX
      ensures Fits(AboveCodec(inner), AboveFields(inner, a), AboveSize(inner, a))
    {
      MessagesHaveSize(inner, a.makeProfits);
      MessagesFit(AboveCodec(inner), 5, inner, a.makeProfits);
      AboveFits(inner, AboveCodec(inner), a);
    }
  }

  lemma AboveMerges<L(!new)>(inner: Codec<L>)
    requires Lawful(inner)
    ensures FieldsMerge(AboveCodec(inner))
  {
    forall k, a | ValidAbove(inner, k) && ValidAbove(inner, a) && AboveSize(inner, a) <= INT32_MAX
      ensures ApplyAll(AboveCodec(inner), NormAbove(inner, k), AboveFields(inner, a)) ==
              Ok(NormAbove(inner, MergeAbove(k, a)))
    {
      MessagesSurviveNesting(inner, a.makeProfits);
      AboveFieldsMerge(inner, NormAbove(inner, k), a);
      AboveNorm(inner, k, a);
    }
  }

  lemma AboveLawful<L(!new)>(inner: Codec<L>)
    requires Lawful(inner)
    ensures Lawful(AboveCodec(inner))
  {
    AboveFieldsFit(inner);
    AboveMerges(inner);
    forall a
      ensures MergeAbove(AboveCodec(inner).empty, NormAbove(inner, a)) == NormAbove(inner, a)
      ensures NormAbove(inner, MergeAbove(AboveCodec(inner).empty, a)) == NormAbove(inner, a)
    {
      AboveNormOfEmpty(inner, a);
    }
    forall k, f | ValidAbove(inner, k) && ApplyAbove(inner, k, f).Ok?
      ensures ValidAbove(inner, ApplyAbove(inner, k, f).value)
    {
      AboveStaysValid(inner, k, f);
    }
  }
}
