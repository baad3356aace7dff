/**
 The object pool under concurrency.  `Get` is a `TryTake` followed, on a miss, by
 the generator; `Return` is a capacity check followed by an add.  Threads interleave
 between these steps in any way; each step by itself is atomic.
 */
module ObjectPool {
  import opened Common

  /** Where a thread is inside the pool's code. */
  datatype Pc = Outside | Generating | Adding(item: nat)

  /** Objects are numbered; all that have been seen so far are below `known`. */
  datatype Pool = Pool(pooled: multiset<nat>, held: seq<set<nat>>, pcs: seq<Pc>, known: nat)

  datatype Step =
    | TakeHit(thread: nat, item: nat)
    | TakeMiss(thread: nat)
    | Generate(thread: nat, item: nat)
    | Check(thread: nat, item: nat)
    | Add(thread: nat)

  predicate WellFormed(s: Pool) {
    |s.held| == |s.pcs|
  }

  /** A thread starts a call only when it is in none; the generator may make, and a caller return, any object at all. */
  predicate Enabled(s: Pool, e: Step)
    requires WellFormed(s)
  {
    && e.thread < |s.pcs|
    && match e
       case TakeHit(t, x) => s.pcs[t].Outside? && x in s.pooled
       case TakeMiss(t) => s.pcs[t].Outside? && |s.pooled| == 0
       case Generate(t, _) => s.pcs[t].Generating?
       case Check(t, _) => s.pcs[t].Outside?
       case Add(t) => s.pcs[t].Adding?
  }

  function Seen(known: nat, x: nat): nat {
    if x < known then known else x + 1
  }

  function Apply(s: Pool, maxCapacity: int, e: Step): (r: Pool)
    requires WellFormed(s) && Enabled(s, e)
    ensures WellFormed(r) && |r.pcs| == |s.pcs|
  {
    match e
    case TakeHit(t, x) => s.(pooled := s.pooled - multiset{x}, held := s.held[t := s.held[t] + {x}])
    case TakeMiss(t) => s.(pcs := s.pcs[t := Generating])
    case Generate(t, x) =>
      s.(held := s.held[t := s.held[t] + {x}], pcs := s.pcs[t := Outside], known := Seen(s.known, x))
    case Check(t, x) =>
      var released := s.(held := s.held[t := s.held[t] - {x}], known := Seen(s.known, x));
      if |s.pooled| < maxCapacity then released.(pcs := s.pcs[t := Adding(x)]) else released
    case Add(t) => s.(pooled := s.pooled + multiset{s.pcs[t].item}, pcs := s.pcs[t := Outside])
  }

  function Initial(threads: nat): Pool {
    Pool(multiset{}, seq(threads, _ => {}), seq(threads, _ => Outside), 0)
  }

  ghost predicate Possible(s: Pool, maxCapacity: int, steps: seq<Step>)
    requires WellFormed(s)
    decreases |steps|
  {
    steps == [] || (Enabled(s, steps[0]) && Possible(Apply(s, maxCapacity, steps[0]), maxCapacity, steps[1..]))
  }

  function Run(s: Pool, maxCapacity: int, steps: seq<Step>): (r: Pool)
    requires WellFormed(s) && Possible(s, maxCapacity, steps)
    ensures WellFormed(r) && |r.pcs| == |s.pcs|
    decreases |steps|
  {
    if steps == [] then s else Run(Apply(s, maxCapacity, steps[0]), maxCapacity, steps[1..])
  }

  // ---------------------------------------------------------------- the capacity bound

  /** Threads that have passed the check and not yet added. */
  function Pending(pcs: seq<Pc>): nat {
    if pcs == [] then 0 else (if pcs[0].Adding? then 1 else 0) + Pending(pcs[1..])
  }

  lemma {:induction false} PendingUpdate(pcs: seq<Pc>, t: nat, pc: Pc)
    requires t < |pcs|
    ensures Pending(pcs[t := pc]) == Pending(pcs) - (if pcs[t].Adding? then 1 else 0) + (if pc.Adding? then 1 else 0)
    ensures Pending(pcs) <= |pcs| - if pcs[t].Adding? then 0 else 1
  {
    PendingAtMostAll(pcs[1..]);
    if t == 0 {
      assert pcs[t := pc][1..] == pcs[1..];
    } else {
      assert pcs[t := pc][1..] == pcs[1..][t - 1 := pc];
      PendingUpdate(pcs[1..], t - 1, pc);
    }
  }

  lemma {:induction false} PendingAtMostAll(pcs: seq<Pc>)
    ensures Pending(pcs) <= |pcs|
  {
    if pcs != [] {
      PendingAtMostAll(pcs[1..]);
    }
  }

  /** Nothing is ever added when the capacity is not positive. */
  function Limit(maxCapacity: int, threads: nat): int {
    if maxCapacity <= 0 then 0 else maxCapacity + threads - 1
  }

  ghost predicate Bounded(s: Pool, maxCapacity: int) {
    |s.pooled| + Pending(s.pcs) <= Limit(maxCapacity, |s.pcs|)
  }

  lemma StepKeepsBound(s: Pool, maxCapacity: int, e: Step)
    requires WellFormed(s) && Enabled(s, e) && Bounded(s, maxCapacity)
    ensures Bounded(Apply(s, maxCapacity, e), maxCapacity)
  {
    var s' := Apply(s, maxCapacity, e);
    PendingUpdate(s.pcs, e.thread, s'.pcs[e.thread]);
    assert s'.pcs == s.pcs[e.thread := s'.pcs[e.thread]];
  }

  /** Whatever objects are generated and returned, no interleaving exceeds the bound. */
  lemma {:induction false} EveryRunIsBounded(s: Pool, maxCapacity: int, steps: seq<Step>)
    requires WellFormed(s) && Possible(s, maxCapacity, steps) && Bounded(s, maxCapacity)
    ensures Bounded(Run(s, maxCapacity, steps), maxCapacity)
    decreases |steps|
  {
    if steps != [] {
      StepKeepsBound(s, maxCapacity, steps[0]);
      EveryRunIsBounded(Apply(s, maxCapacity, steps[0]), maxCapacity, steps[1..]);
    }
  }

  // ---------------------------------------------------------------- ownership

  predicate Holds(s: Pool, t: nat, x: nat) {
    t < |s.held| && x in s.held[t]
  }

  predicate Returns(s: Pool, t: nat, x: nat) {
    t < |s.pcs| && s.pcs[t] == Adding(x)
  }

  /** Every object is in at most one place: pooled once, held by one thread, or on its way back. */
  ghost predicate Exclusive(s: Pool) {
    && (forall x :: x in s.pooled ==> s.pooled[x] == 1 && x < s.known)
    && (forall t: nat, x: nat :: Holds(s, t, x) ==> x < s.known && s.pooled[x] == 0)
    && (forall t: nat, x: nat :: Returns(s, t, x) ==> x < s.known && s.pooled[x] == 0)
    && (forall t, u, x :: Holds(s, t, x) && Holds(s, u, x) ==> t == u)
    && (forall t, u, x :: Returns(s, t, x) && Returns(s, u, x) ==> t == u)
    && (forall t, u, x :: Holds(s, t, x) ==> !Returns(s, u, x))
  }

  /** Neither pooled, nor held, nor on its way back. */
  ghost predicate Free(s: Pool, x: nat) {
    s.pooled[x] == 0 && forall t: nat :: !Holds(s, t, x) && !Returns(s, t, x)
  }

  /** The rules of the game: a caller returns only an object it holds, and the generator makes new ones. */
  predicate Disciplined(s: Pool, e: Step)
    requires WellFormed(s) && Enabled(s, e)
  {
    match e
    case Check(t, x) => x in s.held[t]
    case Generate(t, x) => x >= s.known
    case _ => true
  }

  /** What it takes exactly: the object is the thread's own or nobody's, or it is dropped anyway. */
  ghost predicate Honest(s: Pool, maxCapacity: int, e: Step)
    requires WellFormed(s) && Enabled(s, e)
  {
    match e
    case Check(t, x) => x in s.held[t] || Free(s, x) || |s.pooled| >= maxCapacity
    case Generate(t, x) => x in s.held[t] || Free(s, x)
    case _ => true
  }

  lemma DisciplinedIsHonest(s: Pool, maxCapacity: int, e: Step)
    requires WellFormed(s) && Enabled(s, e) && Exclusive(s) && Disciplined(s, e)
    ensures Honest(s, maxCapacity, e)
  {
  }

  lemma TakeKeepsExclusive(s: Pool, maxCapacity: int, t: nat, item: nat)
    requires WellFormed(s) && Enabled(s, TakeHit(t, item)) && Exclusive(s)
    ensures Exclusive(Apply(s, maxCapacity, TakeHit(t, item)))
  {
    var s' := Apply(s, maxCapacity, TakeHit(t, item));
    assert forall u, x :: Holds(s', u, x) <==> Holds(s, u, x) || (u == t && x == item);
    assert forall u, x :: Returns(s', u, x) <==> Returns(s, u, x);
    assert s.pooled[item] == 1;
  }

  lemma MissKeepsExclusive(s: Pool, maxCapacity: int, t: nat)
    requires WellFormed(s) && Enabled(s, TakeMiss(t)) && Exclusive(s)
    ensures Exclusive(Apply(s, maxCapacity, TakeMiss(t)))
  {
    var s' := Apply(s, maxCapacity, TakeMiss(t));
    assert forall u, x :: Holds(s', u, x) <==> Holds(s, u, x);
    assert forall u, x :: Returns(s', u, x) <==> Returns(s, u, x);
  }

  lemma GenerateKeepsExclusive(s: Pool, maxCapacity: int, t: nat, item: nat)
    requires WellFormed(s) && Enabled(s, Generate(t, item)) && Exclusive(s)
    ensures Exclusive(Apply(s, maxCapacity, Generate(t, item))) <==> Honest(s, maxCapacity, Generate(t, item))
  {
    var s' := Apply(s, maxCapacity, Generate(t, item));
    assert forall u, x :: Holds(s', u, x) <==> Holds(s, u, x) || (u == t && x == item);
    assert forall u, x :: Returns(s', u, x) <==> Returns(s, u, x);
    assert Holds(s', t, item) && (Holds(s, t, item) <==> item in s.held[t]);
  }

  lemma CheckKeepsExclusive(s: Pool, maxCapacity: int, t: nat, item: nat)
    requires WellFormed(s) && Enabled(s, Check(t, item)) && Exclusive(s)
    ensures Exclusive(Apply(s, maxCapacity, Check(t, item))) <==> Honest(s, maxCapacity, Check(t, item))
  {
    var s' := Apply(s, maxCapacity, Check(t, item));
    assert item in s.held[t] ==> Holds(s, t, item);
    assert forall u, x :: Holds(s', u, x) <==> Holds(s, u, x) && !(u == t && x == item);
    if |s.pooled| < maxCapacity {
      assert forall u, x :: Returns(s', u, x) <==> Returns(s, u, x) || (u == t && x == item);
      assert Returns(s', t, item);
    } else {
      assert forall u, x :: Returns(s', u, x) <==> Returns(s, u, x);
    }
  }

  lemma AddKeepsExclusive(s: Pool, maxCapacity: int, t: nat)
    requires WellFormed(s) && Enabled(s, Add(t)) && Exclusive(s)
    ensures Exclusive(Apply(s, maxCapacity, Add(t)))
  {
    var s' := Apply(s, maxCapacity, Add(t));
    assert Returns(s, t, s.pcs[t].item);
    assert forall u, x :: Holds(s', u, x) <==> Holds(s, u, x);
    assert forall u, x :: Returns(s', u, x) <==> Returns(s, u, x) && u != t;
  }

  /** A step keeps every object in one place exactly when it is honest. */
  lemma StepKeepsExclusive(s: Pool, maxCapacity: int, e: Step)
    requires WellFormed(s) && Enabled(s, e) && Exclusive(s)
    ensures Exclusive(Apply(s, maxCapacity, e)) <==> Honest(s, maxCapacity, e)
  {
    match e
    case TakeHit(t, x) => TakeKeepsExclusive(s, maxCapacity, t, x);
    case TakeMiss(t) => MissKeepsExclusive(s, maxCapacity, t);
    case Generate(t, x) => GenerateKeepsExclusive(s, maxCapacity, t, x);
    case Check(t, x) => CheckKeepsExclusive(s, maxCapacity, t, x);
    case Add(t) => AddKeepsExclusive(s, maxCapacity, t);
  }

  ghost predicate HonestRun(s: Pool, maxCapacity: int, steps: seq<Step>)
    requires WellFormed(s) && Possible(s, maxCapacity, steps)
    decreases |steps|
  {
    steps == [] ||
    (Honest(s, maxCapacity, steps[0]) && HonestRun(Apply(s, maxCapacity, steps[0]), maxCapacity, steps[1..]))
  }

  ghost predicate Orderly(s: Pool, maxCapacity: int, steps: seq<Step>)
    requires WellFormed(s) && Possible(s, maxCapacity, steps)
    decreases |steps|
  {
    steps == [] ||
    (Disciplined(s, steps[0]) && Orderly(Apply(s, maxCapacity, steps[0]), maxCapacity, steps[1..]))
  }

  /** At every moment of the run, every object is in at most one place. */
  ghost predicate AlwaysExclusive(s: Pool, maxCapacity: int, steps: seq<Step>)
    requires WellFormed(s) && Possible(s, maxCapacity, steps)
    decreases |steps|
  {
    Exclusive(s) && (steps == [] || AlwaysExclusive(Apply(s, maxCapacity, steps[0]), maxCapacity, steps[1..]))
  }

  /** In every interleaving the objects keep to one place exactly as long as every step is honest. */
  lemma {:induction false} OwnershipExactly(s: Pool, maxCapacity: int, steps: seq<Step>)
    requires WellFormed(s) && Possible(s, maxCapacity, steps) && Exclusive(s)
    ensures AlwaysExclusive(s, maxCapacity, steps) <==> HonestRun(s, maxCapacity, steps)
    decreases |steps|
  {
    if steps != [] {
      var s' := Apply(s, maxCapacity, steps[0]);
      StepKeepsExclusive(s, maxCapacity, steps[0]);
      if Exclusive(s') {
        OwnershipExactly(s', maxCapacity, steps[1..]);
      }
    }
  }

  lemma {:induction false} OrderlyIsExclusive(s: Pool, maxCapacity: int, steps: seq<Step>)
    requires WellFormed(s) && Possible(s, maxCapacity, steps) && Exclusive(s) && Orderly(s, maxCapacity, steps)
    ensures AlwaysExclusive(s, maxCapacity, steps) && Exclusive(Run(s, maxCapacity, steps))
    decreases |steps|
  {
    if steps != [] {
      DisciplinedIsHonest(s, maxCapacity, steps[0]);
      StepKeepsExclusive(s, maxCapacity, steps[0]);
      OrderlyIsExclusive(Apply(s, maxCapacity, steps[0]), maxCapacity, steps[1..]);
    }
  }

  lemma {:induction false} NothingPending(threads: nat)
    ensures Pending(seq(threads, _ => Outside)) == 0
  {
    if threads > 0 {
      NothingPending(threads - 1);
      assert (seq<Pc>(threads, _ => Outside))[1..] == seq<Pc>(threads - 1, _ => Outside);
    }
  }

  /**
   From the empty pool, in every interleaving: the pooled objects and the pending adds together
   stay within maxCapacity + k - 1.  If moreover callers return only objects they hold and the
   generator makes new ones, no object is ever in two hands, or in hand and pooled.
   */
  lemma PoolIsSafe(threads: nat, maxCapacity: int, steps: seq<Step>)
    requires Possible(Initial(threads), maxCapacity, steps)
    ensures var s := Run(Initial(threads), maxCapacity, steps);
            |s.pooled| + Pending(s.pcs) <= if maxCapacity > 0 then maxCapacity + threads - 1 else 0
    ensures Orderly(Initial(threads), maxCapacity, steps) ==> AlwaysExclusive(Initial(threads), maxCapacity, steps)
    ensures AlwaysExclusive(Initial(threads), maxCapacity, steps) <==> HonestRun(Initial(threads), maxCapacity, steps)
  {
    NothingPending(threads);
    EveryRunIsBounded(Initial(threads), maxCapacity, steps);
    OwnershipExactly(Initial(threads), maxCapacity, steps);
    if Orderly(Initial(threads), maxCapacity, steps) {
      OrderlyIsExclusive(Initial(threads), maxCapacity, steps);
    }
  }

  // ---------------------------------------------------------------- the bound is reached

  lemma AfterFirst(s: Pool, maxCapacity: int, steps: seq<Step>, rest: seq<Step>)
    requires WellFormed(s) && steps != [] && steps[1..] == rest
    requires Enabled(s, steps[0]) && Possible(Apply(s, maxCapacity, steps[0]), maxCapacity, rest)
    ensures Possible(s, maxCapacity, steps)
    ensures Run(s, maxCapacity, steps) == Run(Apply(s, maxCapacity, steps[0]), maxCapacity, rest)
    ensures Orderly(s, maxCapacity, steps) <==>
            Disciplined(s, steps[0]) && Orderly(Apply(s, maxCapacity, steps[0]), maxCapacity, rest)
  {
  }

  lemma {:induction false} RunConcat(s: Pool, maxCapacity: int, xs: seq<Step>, ys: seq<Step>)
    requires WellFormed(s) && Possible(s, maxCapacity, xs)
    requires Possible(Run(s, maxCapacity, xs), maxCapacity, ys)
    ensures Possible(s, maxCapacity, xs + ys) && Run(s, maxCapacity, xs + ys) == Run(Run(s, maxCapacity, xs), maxCapacity, ys)
    ensures Orderly(s, maxCapacity, xs + ys) <==>
            Orderly(s, maxCapacity, xs) && Orderly(Run(s, maxCapacity, xs), maxCapacity, ys)
    decreases |xs|
  {
    if xs == [] {
      assert xs + ys == ys;
    } else {
      ConcatSplits(xs, ys);
      RunConcat(Apply(s, maxCapacity, xs[0]), maxCapacity, xs[1..], ys);
      AfterFirst(s, maxCapacity, xs, xs[1..]);
      AfterFirst(s, maxCapacity, xs + ys, xs[1..] + ys);
    }
  }

  /** Every thread from `t` on passes the check before anyone adds. */
  lemma {:induction false} AllCheck(s: Pool, maxCapacity: int, t: nat) returns (steps: seq<Step>)
    requires WellFormed(s) && t <= |s.pcs| && |s.pooled| < maxCapacity
    requires forall u :: t <= u < |s.pcs| ==> s.pcs[u].Outside? && s.held[u] != {}
    ensures Possible(s, maxCapacity, steps) && Orderly(s, maxCapacity, steps)
    ensures var s' := Run(s, maxCapacity, steps);
            && WellFormed(s') && |s'.pcs| == |s.pcs| && s'.pooled == s.pooled
            && (forall u :: 0 <= u < t ==> s'.pcs[u] == s.pcs[u])
            && (forall u :: t <= u < |s.pcs| ==> s'.pcs[u].Adding?)
    decreases |s.pcs| - t
  {
    if t == |s.pcs| {
      return [];
    }
    var x :| x in s.held[t];
    var rest := AllCheck(Apply(s, maxCapacity, Check(t, x)), maxCapacity, t + 1);
    steps := [Check(t, x)] + rest;
    assert steps[1..] == rest;
  }

  lemma {:induction false} AllAdd(s: Pool, maxCapacity: int, t: nat) returns (steps: seq<Step>)
    requires WellFormed(s) && t <= |s.pcs| && forall u :: t <= u < |s.pcs| ==> s.pcs[u].Adding?
    ensures Possible(s, maxCapacity, steps) && Orderly(s, maxCapacity, steps)
    ensures WellFormed(Run(s, maxCapacity, steps)) && |Run(s, maxCapacity, steps).pooled| == |s.pooled| + |s.pcs| - t
    decreases |s.pcs| - t
  {
    if t == |s.pcs| {
      return [];
    }
    var rest := AllAdd(Apply(s, maxCapacity, Add(t)), maxCapacity, t + 1);
    steps := [Add(t)] + rest;
    assert steps[1..] == rest;
  }

  /**
   Thread `t` misses and generates `n` times while the pool is empty; it holds all of the new
   objects, and nobody else is affected.
   */
  lemma {:induction false} Generates(s: Pool, maxCapacity: int, t: nat, n: nat) returns (steps: seq<Step>)
    requires WellFormed(s) && t < |s.pcs| && s.pcs[t].Outside? && |s.pooled| == 0
    ensures Possible(s, maxCapacity, steps) && Orderly(s, maxCapacity, steps)
    ensures var s' := Run(s, maxCapacity, steps);
            && WellFormed(s') && s'.pcs == s.pcs && |s'.pooled| == 0 && s'.known == s.known + n
            && (forall u :: 0 <= u < |s.held| && u != t ==> s'.held[u] == s.held[u])
            && s.held[t] <= s'.held[t]
            && (forall x :: s.known <= x < s.known + n ==> x in s'.held[t])
    decreases n
  {
    if n == 0 {
      return [];
    }
    var missed := Apply(s, maxCapacity, TakeMiss(t));
    var s1 := Apply(missed, maxCapacity, Generate(t, s.known));
    assert s1.pcs == s.pcs;
    var rest := Generates(s1, maxCapacity, t, n - 1);
    steps := [TakeMiss(t), Generate(t, s.known)] + rest;
    assert steps[1..] == [Generate(t, s.known)] + rest && steps[1..][1..] == rest;
  }

  /** Every thread from `t` on generates one object. */
  lemma {:induction false} AllGenerate(s: Pool, maxCapacity: int, t: nat) returns (steps: seq<Step>)
    requires WellFormed(s) && t <= |s.pcs| && |s.pooled| == 0 && forall u :: 0 <= u < |s.pcs| ==> s.pcs[u].Outside?
    ensures Possible(s, maxCapacity, steps) && Orderly(s, maxCapacity, steps)
    ensures var s' := Run(s, maxCapacity, steps);
            && WellFormed(s') && s'.pcs == s.pcs && |s'.pooled| == 0
            && (forall u :: 0 <= u < t ==> s'.held[u] == s.held[u])
            && (forall u :: t <= u < |s.pcs| ==> s'.held[u] != {})
    decreases |s.pcs| - t
  {
    if t == |s.pcs| {
      return [];
    }
    var first := Generates(s, maxCapacity, t, 1);
    var s1 := Run(s, maxCapacity, first);
    assert s.known in s1.held[t];
    var rest := AllGenerate(s1, maxCapacity, t + 1);
    steps := first + rest;
    RunConcat(s, maxCapacity, first, rest);
  }

  /** Thread `t` returns the objects `lo` to `lo + n - 1` one after the other. */
  lemma {:induction false} ReturnsRange(s: Pool, maxCapacity: int, t: nat, lo: nat, n: nat) returns (steps: seq<Step>)
    requires WellFormed(s) && t < |s.pcs| && s.pcs[t].Outside? && |s.pooled| + n <= maxCapacity
    requires forall x :: lo <= x < lo + n ==> x in s.held[t]
    ensures Possible(s, maxCapacity, steps) && Orderly(s, maxCapacity, steps)
    ensures var s' := Run(s, maxCapacity, steps);
            && WellFormed(s') && s'.pcs == s.pcs && |s'.pooled| == |s.pooled| + n
            && (forall u :: 0 <= u < |s.held| && u != t ==> s'.held[u] == s.held[u])
            && (forall x :: x in s.held[t] && !(lo <= x < lo + n) ==> x in s'.held[t])
    decreases n
  {
    if n == 0 {
      return [];
    }
    var s1 := Apply(Apply(s, maxCapacity, Check(t, lo)), maxCapacity, Add(t));
    assert s1.pcs == s.pcs;
    var rest := ReturnsRange(s1, maxCapacity, t, lo + 1, n - 1);
    steps := [Check(t, lo), Add(t)] + rest;
    assert steps[1..] == [Add(t)] + rest && steps[1..][1..] == rest;
  }

  /** From the start: one slot is left, and every thread holds an object. */
  lemma OneSlotLeft(threads: nat, maxCapacity: nat) returns (steps: seq<Step>)
    requires threads > 0 && maxCapacity > 0
    ensures Possible(Initial(threads), maxCapacity, steps) && Orderly(Initial(threads), maxCapacity, steps)
    ensures var s := Run(Initial(threads), maxCapacity, steps);
            && WellFormed(s) && |s.pcs| == threads && |s.pooled| == maxCapacity - 1
            && forall u :: 0 <= u < threads ==> s.pcs[u].Outside? && s.held[u] != {}
  {
    var s0 := Initial(threads);
    var generate := Generates(s0, maxCapacity, 0, maxCapacity);
    var s1 := Run(s0, maxCapacity, generate);
    assert maxCapacity - 1 in s1.held[0];
    var others := AllGenerate(s1, maxCapacity, 1);
    var s2 := Run(s1, maxCapacity, others);
    assert s2.held[0] == s1.held[0];
    var give := ReturnsRange(s2, maxCapacity, 0, 0, maxCapacity - 1);
    var s3 := Run(s2, maxCapacity, give);
    assert maxCapacity - 1 in s3.held[0];
    RunConcat(s1, maxCapacity, others, give);
    RunConcat(s0, maxCapacity, generate, others + give);
    steps := generate + (others + give);
  }

  /** The bound of `PoolIsSafe` is reached by an orderly run from the start, whatever the capacity and the number of threads. */
  lemma BoundIsReached(threads: nat, maxCapacity: int) returns (steps: seq<Step>)
    requires threads > 0
    ensures Possible(Initial(threads), maxCapacity, steps) && Orderly(Initial(threads), maxCapacity, steps)
    ensures var s := Run(Initial(threads), maxCapacity, steps);
            WellFormed(s) && |s.pooled| == if maxCapacity > 0 then maxCapacity + threads - 1 else 0
  {
    if maxCapacity <= 0 {
      return [];
    }
    var before := OneSlotLeft(threads, maxCapacity);
    var s := Run(Initial(threads), maxCapacity, before);
    var rest := LastSlotReached(s, maxCapacity);
    RunConcat(Initial(threads), maxCapacity, before, rest);
    steps := before + rest;
  }

  /**
   With one slot left and every thread returning an
   object, all of them can pass the check first, and the pool ends up at the limit.
   */
  lemma LastSlotReached(s: Pool, maxCapacity: int) returns (steps: seq<Step>)
    requires WellFormed(s) && |s.pooled| == maxCapacity - 1
    requires forall u :: 0 <= u < |s.pcs| ==> s.pcs[u].Outside? && s.held[u] != {}
    ensures Possible(s, maxCapacity, steps) && Orderly(s, maxCapacity, steps)
    ensures WellFormed(Run(s, maxCapacity, steps))
    ensures |Run(s, maxCapacity, steps).pooled| == maxCapacity - 1 + |s.pcs|
  {
    var checks := AllCheck(s, maxCapacity, 0);
    var adds := AllAdd(Run(s, maxCapacity, checks), maxCapacity, 0);
    RunConcat(s, maxCapacity, checks, adds);
    steps := checks + adds;
  }

  // ---------------------------------------------------------------- returning an object twice

  lemma RunOne(s: Pool, maxCapacity: int, e: Step)
    requires WellFormed(s) && Enabled(s, e)
    ensures Possible(s, maxCapacity, [e]) && Run(s, maxCapacity, [e]) == Apply(s, maxCapacity, e)
  {
    assert [e][1..] == [];
  }

  lemma RunTwo(s: Pool, maxCapacity: int, e1: Step, e2: Step)
    requires WellFormed(s) && Enabled(s, e1) && Enabled(Apply(s, maxCapacity, e1), e2)
    ensures Possible(s, maxCapacity, [e1, e2])
    ensures Run(s, maxCapacity, [e1, e2]) == Apply(Apply(s, maxCapacity, e1), maxCapacity, e2)
  {
    var s1 := Apply(s, maxCapacity, e1);
    RunOne(s, maxCapacity, e1);
    RunOne(s1, maxCapacity, e2);
    RunConcat(s, maxCapacity, [e1], [e2]);
    assert [e1] + [e2] == [e1, e2];
  }

  /** A return while there is room, by a thread that need not hold the object. */
  lemma ReturnsOnce(s: Pool, maxCapacity: int, t: nat, x: nat)
    requires WellFormed(s) && t < |s.pcs| && s.pcs[t].Outside? && |s.pooled| < maxCapacity
    ensures Possible(s, maxCapacity, [Check(t, x), Add(t)])
    ensures Run(s, maxCapacity, [Check(t, x), Add(t)]) ==
            s.(pooled := s.pooled + multiset{x}, held := s.held[t := s.held[t] - {x}], known := Seen(s.known, x))
  {
    assert s.pcs[t := Adding(x)][t := Outside] == s.pcs;
    RunTwo(s, maxCapacity, Check(t, x), Add(t));
  }

  lemma TwoTakes(s: Pool, maxCapacity: int, t: nat, u: nat, x: nat)
    requires WellFormed(s) && t < |s.pcs| && u < |s.pcs| && t != u && s.pcs[t].Outside? && s.pcs[u].Outside? && s.pooled[x] >= 2
    ensures Possible(s, maxCapacity, [TakeHit(t, x), TakeHit(u, x)])
    ensures var s' := Run(s, maxCapacity, [TakeHit(t, x), TakeHit(u, x)]); Holds(s', t, x) && Holds(s', u, x)
  {
    RunTwo(s, maxCapacity, TakeHit(t, x), TakeHit(u, x));
  }

  lemma ReturnsTwice(s: Pool, maxCapacity: int, t: nat, u: nat, x: nat) returns (steps: seq<Step>)
    requires WellFormed(s) && t < |s.pcs| && u < |s.pcs| && t != u && s.pcs[t].Outside? && s.pcs[u].Outside?
    requires |s.pooled| + 2 <= maxCapacity
    ensures Possible(s, maxCapacity, steps)
    ensures var s' := Run(s, maxCapacity, steps); Holds(s', t, x) && Holds(s', u, x)
  {
    var once, takes := [Check(t, x), Add(t)], [TakeHit(t, x), TakeHit(u, x)];
    ReturnsOnce(s, maxCapacity, t, x);
    var s1 := Run(s, maxCapacity, once);
    ReturnsOnce(s1, maxCapacity, t, x);
    var s2 := Run(s1, maxCapacity, once);
    TwoTakes(s2, maxCapacity, t, u, x);
    RunConcat(s1, maxCapacity, once, takes);
    RunConcat(s, maxCapacity, once, once + takes);
    steps := once + (once + takes);
  }

  /**
   The code does not check what it is given: a thread that gets an object and returns it twice
   has it handed out to two threads, from the empty pool on.
   */
  lemma DoubleReturnSharesObject(threads: nat, maxCapacity: int) returns (steps: seq<Step>)
    requires threads >= 2 && maxCapacity >= 2
    ensures Possible(Initial(threads), maxCapacity, steps)
    ensures var s := Run(Initial(threads), maxCapacity, steps);
            Holds(s, 0, 0) && Holds(s, 1, 0) && !Exclusive(s)
  {
    var s0 := Initial(threads);
    var get := Generates(s0, maxCapacity, 0, 1);
    var s1 := Run(s0, maxCapacity, get);
    var twice := ReturnsTwice(s1, maxCapacity, 0, 1, 0);
    RunConcat(s0, maxCapacity, get, twice);
    steps := get + twice;
  }

  // ---------------------------------------------------------------- the class, one call at a time

  /** The pool's own fields, with the callers' side of the story kept beside them. */
  class SharedPool {
    const maxCapacity: int
    var objects: multiset<nat>
    ghost var held: seq<set<nat>>
    ghost var pcs: seq<Pc>
    ghost var known: nat

    constructor (maxCapacity: int, ghost threads: nat)
      ensures this.maxCapacity == maxCapacity && View() == Initial(threads)
    {
      this.maxCapacity := maxCapacity;
      objects := multiset{};
      held, pcs, known := seq(threads, _ => {}), seq(threads, _ => Outside), 0;
    }

    ghost function View(): Pool
      reads this
    {
      Pool(objects, held, pcs, known)
    }

    /** An uninterrupted `Get` is a hit, or a miss and then the generator, which would make `generated`. */
    method Get(ghost t: nat, generated: nat) returns (item: nat)
      requires WellFormed(View()) && t < |pcs| && pcs[t].Outside?
      modifies this
      ensures if |old(objects)| > 0
              then item in old(objects) && View() == Apply(old(View()), maxCapacity, TakeHit(t, item))
              else item == generated && View() == Apply(Apply(old(View()), maxCapacity, TakeMiss(t)), maxCapacity, Generate(t, item))
    {
      if |objects| > 0 {
        item :| item in objects;
        objects := objects - multiset{item};
      } else {
        item := generated;
        known := Seen(known, item);
      }
      held := held[t := held[t] + {item}];
    }

    /** An uninterrupted `Return` is a check and, when there is room, an add; null is an exception. */
    method Return(ghost t: nat, item: Option<nat>) returns (ok: bool)
      requires WellFormed(View()) && t < |pcs| && pcs[t].Outside?
      modifies this
      ensures ok == item.Some? && (!ok ==> View() == old(View()))
      ensures ok ==>
                var checked := Apply(old(View()), maxCapacity, Check(t, item.value));
                View() == if |old(objects)| < maxCapacity then Apply(checked, maxCapacity, Add(t)) else checked
      ensures |objects| <= if |old(objects)| <= maxCapacity then maxCapacity else |old(objects)|
    {
      if item.None? {
        return false;
      }
      held := held[t := held[t] - {item.value}];
      known := Seen(known, item.value);
      if |objects| < maxCapacity {
        objects := objects + multiset{item.value};
      }
      assert pcs == pcs[t := Outside];
      return true;
    }
  }
}
