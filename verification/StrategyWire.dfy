/**
 The laws of the strategy messages as written and read by the program, and the
 exact condition under which nothing is lost: the generated writers skip a plain
 double that compares equal to zero, and -0.0 does.
 */
module StrategyWire {
  import opened Common
  import opened Wire
  import opened Messages
  import opened Slots
  import opened MakeProfitMessage
  import opened AboveMessage
  import opened StrategyMessage

  type AboveBean = AbovePercentage<MakeProfit>

  type Bean = Strategy<AboveBean>

  const ABOVE: Codec<AboveBean> := AboveCodec(MAKE_PROFIT)
  const STRATEGY: Codec<Bean> := StrategyCodec(ABOVE)

  lemma StrategyBeanLawful()
    ensures Lawful(MAKE_PROFIT) && Lawful(ABOVE) && Lawful(STRATEGY)
  {
    MakeProfitLawful();
    AboveLawful(MAKE_PROFIT);
    StrategyLawful(ABOVE);
  }

  // ------------------------------------------ no negative zero in a plain double

  predicate PlainZeros(k: MakeProfit) {
    k.perc != NEGATIVE_ZERO && k.ratio != NEGATIVE_ZERO && k.moveStopPerc != NEGATIVE_ZERO
  }

  /** The optional doubles may hold -0.0: they are written whenever they are present. */
  predicate PlainZerosAbove(k: AboveBean) {
    k.triggerPerc != NEGATIVE_ZERO && forall i :: 0 <= i < |k.makeProfits| ==> PlainZeros(k.makeProfits[i].known)
  }

  predicate PlainZerosStrategy(k: Bean) {
    k.implementBean.Some? ==> PlainZerosAbove(k.implementBean.value.known)
  }

  lemma NormMakeProfitIsIdentity(k: MakeProfit)
    ensures NormMakeProfit(k) == k <==> PlainZeros(k)
  {
  }

  lemma NormAboveIsIdentity(k: AboveBean)
    ensures NormAbove(MAKE_PROFIT, k) == k <==> PlainZerosAbove(k)
  {
    var ms := k.makeProfits;
    forall i | 0 <= i < |ms| ensures NormMsg(MAKE_PROFIT, ms[i]) == ms[i] <==> PlainZeros(ms[i].known) {
      NormMakeProfitIsIdentity(ms[i].known);
    }
    if NormAll(MAKE_PROFIT, ms) == ms {
      forall i | 0 <= i < |ms| ensures PlainZeros(ms[i].known) {
        assert NormAll(MAKE_PROFIT, ms)[i] == NormMsg(MAKE_PROFIT, ms[i]);
      }
    }
  }

  lemma NormStrategyIsIdentity(m: Msg<Bean>)
    ensures NormMsg(STRATEGY, m) == m <==> PlainZerosStrategy(m.known)
  {
    if m.known.implementBean.Some? {
      NormAboveIsIdentity(m.known.implementBean.value.known);
    }
  }

  // ------------------------------------------ the laws

  /** Every field comes back, presence included, exactly when no plain double is -0.0. */
  lemma StrategyBeanRoundTrip(a: Msg<Bean>)
    requires ValidMsg(STRATEGY, a) && CalculateSize(STRATEGY, a) <= INT32_MAX
    ensures Parse(STRATEGY, Empty(STRATEGY), Encode(STRATEGY, a)).Complete?
    ensures Parse(STRATEGY, Empty(STRATEGY), Encode(STRATEGY, a)) == Complete(a) <==> PlainZerosStrategy(a.known)
  {
    StrategyBeanLawful();
    RoundTrip(STRATEGY, a);
    NormStrategyIsIdentity(a);
  }

  /** Concatenated bytes parse to `a.MergeFrom(b)` exactly when that merge holds no plain -0.0. */
  lemma StrategyBeanConcatenation(a: Msg<Bean>, b: Msg<Bean>)
    requires ValidMsg(STRATEGY, a) && ValidMsg(STRATEGY, b)
    requires CalculateSize(STRATEGY, a) <= INT32_MAX && CalculateSize(STRATEGY, b) <= INT32_MAX
    ensures var r := Parse(STRATEGY, Empty(STRATEGY), Encode(STRATEGY, a) + Encode(STRATEGY, b));
            r.Complete? &&
            (r == Complete(MergeMsg(STRATEGY, a, b)) <==> PlainZerosStrategy(MergeMsg(STRATEGY, a, b).known))
  {
    StrategyBeanLawful();
    ConcatenationMerges(STRATEGY, a, b);
    NormStrategyIsIdentity(MergeMsg(STRATEGY, a, b));
  }

  lemma MergeKeepsPlainZeros(a: Bean, b: Bean)
    requires PlainZerosStrategy(a) && PlainZerosStrategy(b)
    ensures PlainZerosStrategy(MergeStrategy(ABOVE, a, b))
  {
    if b.implementBean.Some? {
      var mine := if a.implementBean.Some? then a.implementBean.value.known else ABOVE.empty;
      MergeAboveKeepsPlainZeros(mine, b.implementBean.value.known);
    }
  }

  lemma MergeAboveKeepsPlainZeros(a: AboveBean, b: AboveBean)
    requires PlainZerosAbove(a) && PlainZerosAbove(b)
    ensures PlainZerosAbove(MergeAbove(a, b))
  {
  }

  /** In terms of the two messages alone: no plain -0.0 in either is enough. */
  lemma StrategyBeansConcatenate(a: Msg<Bean>, b: Msg<Bean>)
    requires ValidMsg(STRATEGY, a) && ValidMsg(STRATEGY, b)
    requires CalculateSize(STRATEGY, a) <= INT32_MAX && CalculateSize(STRATEGY, b) <= INT32_MAX
    requires PlainZerosStrategy(a.known) && PlainZerosStrategy(b.known)
    ensures Parse(STRATEGY, Empty(STRATEGY), Encode(STRATEGY, a) + Encode(STRATEGY, b)) == Complete(MergeMsg(STRATEGY, a, b))
  {
    MergeKeepsPlainZeros(a.known, b.known);
    StrategyBeanConcatenation(a, b);
  }

  lemma StrategyBeanSize(a: Msg<Bean>)
    requires ValidMsg(STRATEGY, a) && CalculateSize(STRATEGY, a) <= INT32_MAX
    ensures CalculateSize(STRATEGY, a) == |Encode(STRATEGY, a)|
  {
    StrategyBeanLawful();
    SizeIsLength(STRATEGY, a);
  }

  /** A concrete message the wire does not preserve: a profit step whose threshold is -0.0. */
  lemma NegativeZeroIsLost()
    ensures var a := Msg(MakeProfit(NEGATIVE_ZERO, 0, 0, false, 0, 0), []);
            Encode(MAKE_PROFIT, a) == [] && Parse(MAKE_PROFIT, Empty(MAKE_PROFIT), Encode(MAKE_PROFIT, a)) == Complete(Empty(MAKE_PROFIT))
            && Empty(MAKE_PROFIT) != a
  {
    var k := MakeProfit(NEGATIVE_ZERO, 0, 0, false, 0, 0);
    assert MakeProfitFields(k) == [];
    assert Encode(MAKE_PROFIT, Msg(k, [])) == EncodeFields([] + []);
  }
}
