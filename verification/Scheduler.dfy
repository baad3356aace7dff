/**
 The planned-task scheduler: what one `Update` does to one task, what it does to
 all of them, and how any sequence of operations treats a task.
 */
module Scheduler {
  import opened Common

  /** Clock ticks of 100 ns, as `DateTime` and `TimeSpan` count them. */
  const SECOND: int := 10_000_000
  const DAY: int := 864_000_000_000

  datatype Task =
    | Interval(delayMs: int, totalTime: int, repeatTime: Int32)
    | Tick(delayFrame: Int32, totalFrame: int, repeatTime: Int32)
    | Daily(targetTime: int, nextExecution: int)

  /** One `Update`: the millisecond timestamp it reads, and the local date and time. */
  datatype Moment = Moment(timestamp: int, now: int)

  // ---------------------------------------------------------------- one task, one update

  predicate Fires(t: Task, delta: int, now: int) {
    match t
    case Interval(delay, total, _) => total + delta >= delay
    case Tick(delay, frames, _) => frames + 1 >= delay
    case Daily(_, next) => now >= next
  }

  function Remaining(repeatTime: Int32): Int32 {
    if repeatTime == -1 then -1 else WrapInt32(repeatTime - 1)
  }

  function After(t: Task, delta: int, now: int): Task {
    var fires := Fires(t, delta, now);
    match t
    case Interval(delay, total, r) =>
      if fires then Interval(delay, 0, Remaining(r)) else Interval(delay, total + delta, r)
    case Tick(delay, frames, r) =>
      if fires then Tick(delay, 0, Remaining(r)) else Tick(delay, frames + 1, r)
    case Daily(target, next) =>
      if fires then Daily(target, next + DAY) else t
  }

  /** The task asks to be removed after this firing. */
  predicate Finished(t: Task, delta: int, now: int) {
    Fires(t, delta, now) && !t.Daily? && t.repeatTime != -1 && Remaining(t.repeatTime) <= 0
  }

  // ---------------------------------------------------------------- all tasks

  datatype State = State(nextId: nat, handlers: map<nat, Task>, last: int)

  function UpdateAll(s: State, m: Moment): State {
    var delta := m.timestamp - s.last;
    State(s.nextId,
          map id | id in s.handlers && !Finished(s.handlers[id], delta, m.now) :: After(s.handlers[id], delta, m.now),
          m.timestamp)
  }

  function FiredIds(s: State, m: Moment): set<nat> {
    set id | id in s.handlers && Fires(s.handlers[id], m.timestamp - s.last, m.now)
  }

  function AddTask(s: State, t: Task): State {
    s.(nextId := s.nextId + 1, handlers := s.handlers[s.nextId := t])
  }

  predicate ValidTimeOfDay(hour: int, minute: int, second: int) {
    0 <= hour <= 23 && 0 <= minute <= 59 && 0 <= second <= 59
  }

  function TargetTime(hour: int, minute: int, second: int): int {
    ((hour * 60 + minute) * 60 + second) * SECOND
  }

  /** Today at the target time, or tomorrow when that has already passed. */
  function FirstExecution(now: int, target: int): int {
    var today := now - now % DAY + target;
    if now % DAY > target then today + DAY else today
  }

  datatype Op =
    | AddTimeTask(delayMs: int, repeatTime: Int32)
    | AddTickTask(delayFrame: Int32, repeatTime: Int32)
    | AddDailyTask(hour: int, minute: int, second: int, now: int)
    | Clear(id: nat)
    | Update(m: Moment)

  function Apply(s: State, op: Op): State {
    match op
    case AddTimeTask(delay, r) => AddTask(s, Interval(delay, 0, r))
    case AddTickTask(delay, r) => AddTask(s, Tick(delay, 0, r))
    case AddDailyTask(h, min, sec, now) =>
      if ValidTimeOfDay(h, min, sec) then
        AddTask(s, Daily(TargetTime(h, min, sec), FirstExecution(now, TargetTime(h, min, sec))))
      else s
    case Clear(id) => s.(handlers := s.handlers - {id})
    case Update(m) => UpdateAll(s, m)
  }

  function Run(s: State, ops: seq<Op>): State {
    if ops == [] then s else Apply(Run(s, ops[..|ops| - 1]), ops[|ops| - 1])
  }

  function Moments(ops: seq<Op>): seq<Moment> {
    if ops == [] then []
    else
      var op := ops[|ops| - 1];
      Moments(ops[..|ops| - 1]) + if op.Update? then [op.m] else []
  }

  predicate IdsBelow(s: State) {
    forall id :: id in s.handlers ==> id < s.nextId
  }

  // ---------------------------------------------------------------- one task on its own

  function LastTimestamp(last: int, ms: seq<Moment>): int {
    if ms == [] then last else ms[|ms| - 1].timestamp
  }

  function LifeStep(t: Option<Task>, delta: int, now: int): Option<Task> {
    if t.None? || Finished(t.value, delta, now) then None else Some(After(t.value, delta, now))
  }

  /** The task after the updates `ms`, or `None` once it has been removed. */
  function Life(t: Task, last: int, ms: seq<Moment>): Option<Task> {
    if ms == [] then Some(t)
    else
      var before, m := ms[..|ms| - 1], ms[|ms| - 1];
      LifeStep(Life(t, last, before), m.timestamp - LastTimestamp(last, before), m.now)
  }

  /** The last of the updates `ms` fires the task. */
  predicate FiresLast(t: Task, last: int, ms: seq<Moment>)
    requires ms != []
  {
    var before := ms[..|ms| - 1];
    var m := ms[|ms| - 1];
    Life(t, last, before).Some? &&
    Fires(Life(t, last, before).value, m.timestamp - LastTimestamp(last, before), m.now)
  }

  function CountFirings(t: Task, last: int, ms: seq<Moment>): nat {
    if ms == [] then 0
    else CountFirings(t, last, ms[..|ms| - 1]) + if FiresLast(t, last, ms) then 1 else 0
  }

  // ---------------------------------------------------------------- independence

  lemma {:induction false} LastFollowsMoments(s: State, ops: seq<Op>)
    ensures Run(s, ops).last == LastTimestamp(s.last, Moments(ops))
  {
    if ops != [] {
      LastFollowsMoments(s, ops[..|ops| - 1]);
    }
  }

  predicate HoldsTask(s: State, id: nat, t: Option<Task>) {
    if id in s.handlers then t == Some(s.handlers[id]) else t == None
  }

  lemma StepAlone(s: State, op: Op, id: nat, t: Option<Task>)
    requires IdsBelow(s) && id < s.nextId && HoldsTask(s, id, t) && op != Clear(id)
    ensures var s' := Apply(s, op);
            && IdsBelow(s') && s.nextId <= s'.nextId
            && HoldsTask(s', id, if op.Update? then LifeStep(t, op.m.timestamp - s.last, op.m.now) else t)
  {
  }

  lemma MomentsStep(ops: seq<Op>)
    requires ops != []
    ensures var before, op := ops[..|ops| - 1], ops[|ops| - 1];
            if op.Update? then
              && Moments(ops) != [] && Moments(ops)[|Moments(ops)| - 1] == op.m
              && Moments(ops)[..|Moments(ops)| - 1] == Moments(before)
            else Moments(ops) == Moments(before)
  {
  }

  /** Only an update moves a life on. */
  lemma LifeOfMoments(t: Task, last: int, ops: seq<Op>)
    requires ops != []
    ensures var before, op := Moments(ops[..|ops| - 1]), ops[|ops| - 1];
            Life(t, last, Moments(ops)) ==
            if op.Update? then LifeStep(Life(t, last, before), op.m.timestamp - LastTimestamp(last, before), op.m.now)
            else Life(t, last, before)
  {
    MomentsStep(ops);
  }

  lemma NotInFront<T>(xs: seq<T>, x: T)
    requires xs != [] && x !in xs
    ensures x !in xs[..|xs| - 1] && xs[|xs| - 1] != x
  {
  }

  ghost predicate Follows(s: State, r: State, id: nat, t: Option<Task>) {
    IdsBelow(r) && s.nextId <= r.nextId && HoldsTask(r, id, t)
  }

  lemma FollowsStep(s: State, r: State, op: Op, id: nat, t: Option<Task>)
    requires id < s.nextId && Follows(s, r, id, t) && op != Clear(id)
    ensures Follows(s, Apply(r, op), id, if op.Update? then LifeStep(t, op.m.timestamp - r.last, op.m.now) else t)
  {
    StepAlone(r, op, id, t);
  }

  /**
   As long as nobody clears it, a task among others lives exactly the life it would
   live alone: it sees only the updates, whatever is added, cleared or fired beside it.
   */
  lemma {:induction false} TaskLivesAlone(s: State, ops: seq<Op>, id: nat)
    requires IdsBelow(s) && id in s.handlers && Clear(id) !in ops
    ensures Follows(s, Run(s, ops), id, Life(s.handlers[id], s.last, Moments(ops)))
  {
    if ops != [] {
      var before, op := ops[..|ops| - 1], ops[|ops| - 1];
      NotInFront(ops, Clear(id));
      TaskLivesAlone(s, before, id);
      LastFollowsMoments(s, before);
      FollowsStep(s, Run(s, before), op, id, Life(s.handlers[id], s.last, Moments(before)));
      LifeOfMoments(s.handlers[id], s.last, ops);
    }
  }

  /** In particular the updates that fire it are the ones that would fire it alone. */
  lemma TaskFiresAlone(s: State, ops: seq<Op>, id: nat, m: Moment)
    requires IdsBelow(s) && id in s.handlers && Clear(id) !in ops
    ensures id in FiredIds(Run(s, ops), m) <==> FiresLast(s.handlers[id], s.last, Moments(ops) + [m])
  {
    TaskLivesAlone(s, ops, id);
    LastFollowsMoments(s, ops);
    assert (Moments(ops) + [m])[..|Moments(ops)|] == Moments(ops);
  }

  /** An id that has been handed out and is gone never comes back. */
  lemma {:induction false} IdsNeverReused(s: State, ops: seq<Op>, id: nat)
    requires IdsBelow(s) && id < s.nextId && id !in s.handlers
    ensures var s' := Run(s, ops); IdsBelow(s') && id < s'.nextId && id !in s'.handlers
  {
    if ops != [] {
      IdsNeverReused(s, ops[..|ops| - 1], id);
    }
  }

  // ---------------------------------------------------------------- repeats

  /** How often a task with this repeat count fires before it is removed. */
  function Firings(r: Int32): int
    requires r != -1
  {
    if r >= 1 then r
    else if r == INT32_MIN then 0x8000_0000  // the first decrement wraps to the largest int
    else 1
  }

  function RepeatAfter(r: Int32, fired: nat): Int32
    requires r == -1 || fired < Firings(r)
  {
    if r == -1 || fired == 0 then r else Firings(r) - fired
  }

  lemma RepeatsOnce(t: Task, delta: int, now: int, r: Int32, fired: nat)
    requires !t.Daily? && (r == -1 || fired < Firings(r)) && t.repeatTime == RepeatAfter(r, fired)
    ensures var fired' := fired + if Fires(t, delta, now) then 1 else 0;
            && (LifeStep(Some(t), delta, now).Some? <==> r == -1 || fired' < Firings(r))
            && (LifeStep(Some(t), delta, now).Some? ==>
                  var t' := LifeStep(Some(t), delta, now).value; !t'.Daily? && t'.repeatTime == RepeatAfter(r, fired'))
  {
    if r != -1 {
      RepeatStep(r, fired);
    }
  }

  /** An interval or tick task is alive exactly until its last firing, and never fires again after it. */
  lemma {:induction false} RepeatsCount(t: Task, last: int, ms: seq<Moment>)
    requires !t.Daily?
    ensures var r, fired := t.repeatTime, CountFirings(t, last, ms);
            && (Life(t, last, ms).Some? <==> r == -1 || fired < Firings(r))
            && (Life(t, last, ms).Some? ==>
                  !Life(t, last, ms).value.Daily? && Life(t, last, ms).value.repeatTime == RepeatAfter(r, fired))
            && (r != -1 ==> fired <= Firings(r))
  {
    if ms != [] {
      var before, m := ms[..|ms| - 1], ms[|ms| - 1];
      RepeatsCount(t, last, before);
      if Life(t, last, before).Some? {
        RepeatsOnce(Life(t, last, before).value, m.timestamp - LastTimestamp(last, before), m.now,
                    t.repeatTime, CountFirings(t, last, before));
      }
    }
  }

  // ---------------------------------------------------------------- tick tasks

  function Period(delay: Int32): nat {
    if delay <= 1 then 1 else delay
  }

  /** Counting to `k` in periods of `p`: how many are complete, and how far into the next. */
  function Complete(p: nat, k: nat): nat {
    if k == 0 then 0 else Complete(p, k - 1) + if Partial(p, k - 1) + 1 >= p then 1 else 0
  }

  function Partial(p: nat, k: nat): (f: nat)
    ensures p > 0 ==> f < p
  {
    if k == 0 || Partial(p, k - 1) + 1 >= p then 0 else Partial(p, k - 1) + 1
  }

  lemma {:induction false} CountsMultiply(p: nat, k: nat)
    requires p > 0
    ensures k == Complete(p, k) * p + Partial(p, k)
  {
    if k > 0 {
      CountsMultiply(p, k - 1);
      var q := Complete(p, k - 1);
      assert (q + 1) * p == q * p + p;
    }
  }

  lemma CountsDivide(p: nat, k: nat)
    requires p > 0
    ensures Complete(p, k) == k / p && Partial(p, k) == k % p
  {
    CountsMultiply(p, k);
    QuotientUnique(k, p, Complete(p, k), Partial(p, k));
    RemainderIs(k, p, Complete(p, k), Partial(p, k));
  }

  lemma RemainderIs(n: nat, d: nat, q: nat, r: nat)
    requires d > 0 && n == q * d + r && n / d == q
    ensures n % d == r
  {
    assert n == n / d * d + n % d;
  }

  /** A tick task that has fired `q` times and counted `frames` since: alive or removed. */
  function TickProgress(d: Int32, r: Int32, q: nat, frames: nat): Option<Task> {
    if r == -1 || q < Firings(r) then Some(Tick(d, frames, RepeatAfter(r, q))) else None
  }

  /** One firing more: the counter steps down, and says stop exactly when no firing is left. */
  lemma RepeatStep(r: Int32, fired: nat)
    requires r != -1 && fired < Firings(r)
    ensures var left := RepeatAfter(r, fired);
            && left != -1
            && (Remaining(left) <= 0 <==> fired + 1 >= Firings(r))
            && (fired + 1 < Firings(r) ==> Remaining(left) == RepeatAfter(r, fired + 1))
  {
  }

  lemma TickProgresses(d: Int32, r: Int32, q: nat, frames: nat, delta: int, now: int)
    requires frames < Period(d)
    ensures var u := TickProgress(d, r, q, frames);
            && (u.Some? ==> (Fires(u.value, delta, now) <==> frames == Period(d) - 1))
            && LifeStep(u, delta, now) ==
               if frames == Period(d) - 1 then TickProgress(d, r, q + 1, 0) else TickProgress(d, r, q, frames + 1)
  {
    if r != -1 && q < Firings(r) {
      RepeatStep(r, q);
    }
  }

  lemma {:induction false} TickLife(d: Int32, r: Int32, last: int, ms: seq<Moment>)
    ensures var k, p := |ms|, Period(d);
            Life(Tick(d, 0, r), last, ms) == TickProgress(d, r, Complete(p, k), Partial(p, k))
  {
    if ms != [] {
      var before, m := ms[..|ms| - 1], ms[|ms| - 1];
      var k, p := |before|, Period(d);
      TickLife(d, r, last, before);
      TickProgresses(d, r, Complete(p, k), Partial(p, k), m.timestamp - LastTimestamp(last, before), m.now);
    }
  }

  /** Alive after k updates exactly while firings are left; the division is by max(1, d). */
  lemma TickAlive(d: Int32, r: Int32, last: int, ms: seq<Moment>)
    ensures Life(Tick(d, 0, r), last, ms).Some? <==> r == -1 || |ms| / Period(d) < Firings(r)
  {
    TickLife(d, r, last, ms);
    CountsDivide(Period(d), |ms|);
  }

  /**
   A tick task with delay `d` and repeat `r` fires at the k-th update after it is
   added exactly when k is a multiple of max(1, d) and it has firings left.
   */
  lemma TickFiresExactly(d: Int32, r: Int32, last: int, ms: seq<Moment>)
    requires ms != []
    ensures var k, p := |ms|, if d <= 1 then 1 else d;
            FiresLast(Tick(d, 0, r), last, ms) <==> k % p == 0 && (r == -1 || k / p <= Firings(r))
  {
    var before, m := ms[..|ms| - 1], ms[|ms| - 1];
    var p := Period(d);
    TickLife(d, r, last, before);
    TickProgresses(d, r, Complete(p, |before|), Partial(p, |before|), m.timestamp - LastTimestamp(last, before), m.now);
    CountsDivide(p, |ms|);
  }

  /** The same inside a scheduler, among any other operations. */
  lemma TickTaskInScheduler(s: State, d: Int32, r: Int32, ops: seq<Op>, m: Moment)
    requires IdsBelow(s) && Clear(s.nextId) !in ops
    ensures var added := Apply(s, AddTickTask(d, r));
            var k, p := |Moments(ops)| + 1, if d <= 1 then 1 else d;
            var times := if r >= 1 then r else if r == INT32_MIN then 0x8000_0000 else 1;
            && (s.nextId in FiredIds(Run(added, ops), m) <==> k % p == 0 && (r == -1 || k / p <= times))
            && (s.nextId in UpdateAll(Run(added, ops), m).handlers <==> r == -1 || k / p < times)
  {
    var added := Apply(s, AddTickTask(d, r));
    var ms := Moments(ops) + [m];
    TaskFiresAlone(added, ops, s.nextId, m);
    TickFiresExactly(d, r, s.last, ms);
    assert Clear(s.nextId) !in ops + [Update(m)];
    TaskLivesAlone(added, ops + [Update(m)], s.nextId);
    assert (ops + [Update(m)])[..|ops|] == ops;
    TickAlive(d, r, s.last, ms);
  }

  // ---------------------------------------------------------------- interval tasks

  /** The timestamp of the latest firing, or of the last update before the task was added. */
  function LatestFiring(t: Task, last: int, ms: seq<Moment>): int {
    if ms == [] then last
    else if FiresLast(t, last, ms) then ms[|ms| - 1].timestamp
    else LatestFiring(t, last, ms[..|ms| - 1])
  }

  /** The accumulated deltas telescope to the time since the latest firing, even if the clock goes back. */
  lemma {:induction false} IntervalLife(delay: int, r: Int32, last: int, ms: seq<Moment>)
    ensures var t := Interval(delay, 0, r);
            Life(t, last, ms).Some? ==>
              Life(t, last, ms).value.Interval? && Life(t, last, ms).value.delayMs == delay &&
              Life(t, last, ms).value.totalTime == LastTimestamp(last, ms) - LatestFiring(t, last, ms)
  {
    if ms != [] {
      IntervalLife(delay, r, last, ms[..|ms| - 1]);
    }
  }

  /** A live interval task fires exactly when `delay` has passed since its latest firing. */
  lemma IntervalFiresExactly(delay: int, r: Int32, last: int, ms: seq<Moment>)
    requires ms != []
    ensures var t, before := Interval(delay, 0, r), ms[..|ms| - 1];
            FiresLast(t, last, ms) <==>
            Life(t, last, before).Some? && ms[|ms| - 1].timestamp - LatestFiring(t, last, before) >= delay
  {
    IntervalLife(delay, r, last, ms[..|ms| - 1]);
  }

  lemma {:induction false} AliveBefore(t: Task, last: int, ms: seq<Moment>, i: nat)
    requires i <= |ms| && Life(t, last, ms).Some?
    ensures Life(t, last, ms[..i]).Some?
    decreases |ms|
  {
    if i == |ms| {
      assert ms[..i] == ms;
    } else {
      AliveBefore(t, last, ms[..|ms| - 1], i);
      assert ms[..|ms| - 1][..i] == ms[..i];
    }
  }

  /** The update number `k` (from 0) fires the task. */
  predicate FiresAt(t: Task, last: int, ms: seq<Moment>, k: nat)
    requires k < |ms|
  {
    FiresLast(t, last, ms[..k + 1])
  }

  lemma {:induction false} LatestFiringStays(t: Task, last: int, ms: seq<Moment>, i: nat, k: nat)
    requires i < k <= |ms| && FiresAt(t, last, ms, i)
    requires forall j :: i < j < k ==> !FiresAt(t, last, ms, j)
    ensures LatestFiring(t, last, ms[..k]) == ms[i].timestamp
  {
    assert ms[..k][..k - 1] == ms[..k - 1];
    if k > i + 1 {
      LatestFiringStays(t, last, ms, i, k - 1);
      assert !FiresAt(t, last, ms, k - 1);
    }
  }

  /**
   Two consecutive firings are at least `delay` apart, and every update between them
   came less than `delay` after the first.
   */
  lemma IntervalSpacing(delay: int, r: Int32, last: int, ms: seq<Moment>, i: nat, j: nat)
    requires i < j < |ms|
    requires FiresAt(Interval(delay, 0, r), last, ms, i) && FiresAt(Interval(delay, 0, r), last, ms, j)
    requires forall k :: i < k < j ==> !FiresAt(Interval(delay, 0, r), last, ms, k)
    ensures ms[j].timestamp - ms[i].timestamp >= delay
    ensures forall k :: i < k < j ==> ms[k].timestamp - ms[i].timestamp < delay
  {
    var t := Interval(delay, 0, r);
    LatestFiringStays(t, last, ms, i, j);
    assert ms[..j + 1][..j] == ms[..j];
    IntervalFiresExactly(delay, r, last, ms[..j + 1]);
    forall k | i < k < j ensures ms[k].timestamp - ms[i].timestamp < delay {
      assert !FiresAt(t, last, ms, k);
      AliveBefore(t, last, ms[..j], k);
      assert ms[..j][..k] == ms[..k] && ms[..k + 1][..k] == ms[..k];
      LatestFiringStays(t, last, ms, i, k);
      IntervalFiresExactly(delay, r, last, ms[..k + 1]);
    }
  }

  // ---------------------------------------------------------------- daily tasks

  /** The first execution is the first instant with the target time of day at or after `now`. */
  lemma FirstExecutionIsNext(now: int, target: int, instant: int)
    requires 0 <= target < DAY
    ensures var first := FirstExecution(now, target);
            && first % DAY == target && now <= first < now + DAY
            && (instant % DAY == target && instant >= now ==> first <= instant)
  {
  }

  lemma TargetTimeInDay(hour: int, minute: int, second: int)
    requires ValidTimeOfDay(hour, minute, second)
    ensures 0 <= TargetTime(hour, minute, second) < DAY
  {
  }

  /** How many of the instants first, first + DAY, ... are at or before `now`. */
  function Reached(first: int, now: int): nat {
    if now < first then 0 else (now - first) / DAY + 1
  }

  /** A daily task is never removed, and its next execution counts its firings in days. */
  lemma {:induction false} DailyLife(target: int, first: int, last: int, ms: seq<Moment>)
    ensures var t := Daily(target, first);
            Life(t, last, ms) == Some(Daily(target, first + CountFirings(t, last, ms) * DAY))
  {
    if ms != [] {
      DailyLife(target, first, last, ms[..|ms| - 1]);
    }
  }

  lemma NextExecutionKeepsTarget(target: int, first: int, last: int, ms: seq<Moment>)
    requires 0 <= target < DAY && first % DAY == target
    ensures var life := Life(Daily(target, first), last, ms);
            life.Some? && life.value.Daily? && life.value.nextExecution % DAY == target
  {
    DailyLife(target, first, last, ms);
  }

  /** An update fires a daily task exactly when more target instants have been reached than it has fired. */
  lemma DailyFiresExactly(target: int, first: int, last: int, ms: seq<Moment>)
    requires ms != []
    ensures var t := Daily(target, first);
            FiresLast(t, last, ms) <==>
            CountFirings(t, last, ms[..|ms| - 1]) < Reached(first, ms[|ms| - 1].now)
  {
    DailyLife(target, first, last, ms[..|ms| - 1]);
  }

  function LatestNow(ms: seq<Moment>): int
    requires ms != []
  {
    var m := ms[|ms| - 1].now;
    if |ms| == 1 then m
    else
      var before := LatestNow(ms[..|ms| - 1]);
      if m > before then m else before
  }

  lemma {:induction false} LatestNowIsMax(ms: seq<Moment>) returns (i: nat)
    requires ms != []
    ensures i < |ms| && ms[i].now == LatestNow(ms) && forall j :: 0 <= j < |ms| ==> ms[j].now <= LatestNow(ms)
  {
    i := |ms| - 1;
    if i > 0 {
      var k := LatestNowIsMax(ms[..i]);
      assert forall j :: 0 <= j < i ==> ms[j] == ms[..i][j];
      if ms[i].now <= LatestNow(ms[..i]) {
        i := k;
      }
    }
  }

  /** The instants reached are those at or before now. */
  lemma ReachedCounts(first: int, now: int, n: nat)
    ensures n < Reached(first, now) <==> first + n * DAY <= now
  {
  }

  lemma {:induction false} DailyNeverOverfires(target: int, first: int, last: int, ms: seq<Moment>)
    requires ms != []
    ensures CountFirings(Daily(target, first), last, ms) <= Reached(first, LatestNow(ms))
  {
    var before := ms[..|ms| - 1];
    DailyFiresExactly(target, first, last, ms);
    if before != [] {
      DailyNeverOverfires(target, first, last, before);
    }
  }

  /** Each update comes less than a day after the one before it, registration being the first. */
  predicate LessThanADayApart(registered: int, ms: seq<Moment>) {
    && (ms != [] ==> ms[0].now < registered + DAY)
    && forall i :: 0 < i < |ms| ==> ms[i].now < ms[i - 1].now + DAY
  }

  /** With such updates no target instant is missed: there is one firing for each instant reached. */
  lemma {:induction false} DailyFiresForEachInstant(target: int, registered: int, last: int, ms: seq<Moment>)
    requires 0 <= target < DAY && ms != [] && LessThanADayApart(registered, ms)
    ensures var first := FirstExecution(registered, target);
            CountFirings(Daily(target, first), last, ms) == Reached(first, LatestNow(ms))
  {
    var first := FirstExecution(registered, target);
    var before := ms[..|ms| - 1];
    FirstExecutionIsNext(registered, target, first);
    DailyFiresExactly(target, first, last, ms);
    if before != [] {
      ApartBefore(registered, ms);
      DailyFiresForEachInstant(target, registered, last, before);
      assert before[|before| - 1].now <= LatestNow(before);
    }
  }

  lemma ApartBefore(registered: int, ms: seq<Moment>)
    requires |ms| > 1 && LessThanADayApart(registered, ms)
    ensures var before := ms[..|ms| - 1];
            LessThanADayApart(registered, before) && ms[|ms| - 1].now < DAY + before[|before| - 1].now
  {
    var before := ms[..|ms| - 1];
    assert forall i :: 0 <= i < |before| ==> before[i] == ms[i];
  }

  // ---------------------------------------------------------------- interval and daily tasks in a scheduler

  /** The updates among `ops` that ran the action of task `id`. */
  function FiringsOf(s: State, ops: seq<Op>, id: nat): seq<Moment> {
    if ops == [] then []
    else
      var before, op := ops[..|ops| - 1], ops[|ops| - 1];
      FiringsOf(s, before, id) + if op.Update? && id in FiredIds(Run(s, before), op.m) then [op.m] else []
  }

  lemma CountStep(t: Task, last: int, ms: seq<Moment>, m: Moment)
    ensures CountFirings(t, last, ms + [m]) == CountFirings(t, last, ms) + if FiresLast(t, last, ms + [m]) then 1 else 0
    ensures LatestFiring(t, last, ms + [m]) == if FiresLast(t, last, ms + [m]) then m.timestamp else LatestFiring(t, last, ms)
  {
    assert (ms + [m])[..|ms|] == ms;
  }

  lemma MomentsAppend(ops: seq<Op>)
    requires ops != []
    ensures var before, op := ops[..|ops| - 1], ops[|ops| - 1];
            Moments(ops) == if op.Update? then Moments(before) + [op.m] else Moments(before)
  {
  }

  /** They are the firings of the life the task would live alone. */
  lemma {:induction false} FiringsFollow(s: State, ops: seq<Op>, id: nat)
    requires IdsBelow(s) && id in s.handlers && Clear(id) !in ops
    ensures var t, fired := s.handlers[id], FiringsOf(s, ops, id);
            && |fired| == CountFirings(t, s.last, Moments(ops))
            && LastTimestamp(s.last, fired) == LatestFiring(t, s.last, Moments(ops))
  {
    if ops != [] {
      var before, op := ops[..|ops| - 1], ops[|ops| - 1];
      NotInFront(ops, Clear(id));
      FiringsFollow(s, before, id);
      MomentsAppend(ops);
      if op.Update? {
        TaskFiresAlone(s, before, id, op.m);
        CountStep(s.handlers[id], s.last, Moments(before), op.m);
      }
    }
  }

  /**
   An interval task added to any scheduler, among any operations that do not clear it: it is
   there while it has firings left, and an update then runs it exactly when its delay has
   passed since it last ran, or since the last update before it was added.
   */
  lemma IntervalTaskInScheduler(s: State, delay: int, r: Int32, ops: seq<Op>, m: Moment)
    requires IdsBelow(s) && Clear(s.nextId) !in ops
    ensures var added := Apply(s, AddTimeTask(delay, r));
            var fired := FiringsOf(added, ops, s.nextId);
            var times := if r >= 1 then r else if r == INT32_MIN then 0x8000_0000 else 1;
            var since := if fired == [] then s.last else fired[|fired| - 1].timestamp;
            && (s.nextId in Run(added, ops).handlers <==> r == -1 || |fired| < times)
            && (s.nextId in FiredIds(Run(added, ops), m) <==> (r == -1 || |fired| < times) && m.timestamp - since >= delay)
  {
    var added, t, ms := Apply(s, AddTimeTask(delay, r)), Interval(delay, 0, r), Moments(ops);
    FiringsFollow(added, ops, s.nextId);
    TaskLivesAlone(added, ops, s.nextId);
    TaskFiresAlone(added, ops, s.nextId, m);
    RepeatsCount(t, s.last, ms);
    IntervalFiresExactly(delay, r, s.last, ms + [m]);
    assert (ms + [m])[..|ms|] == ms;
  }

  /**
   A daily task added to any scheduler, among any operations that do not clear it: it is always
   there, due as many days after its first instant as it has run, and an update runs it exactly
   when it is due.
   */
  lemma DailyTaskInScheduler(s: State, hour: int, minute: int, second: int, now: int, ops: seq<Op>, m: Moment)
    requires IdsBelow(s) && Clear(s.nextId) !in ops && ValidTimeOfDay(hour, minute, second)
    ensures var added := Apply(s, AddDailyTask(hour, minute, second, now));
            var fired, after := FiringsOf(added, ops, s.nextId), Run(added, ops);
            && s.nextId in added.handlers && added.handlers[s.nextId].Daily?
            && s.nextId in after.handlers && after.handlers[s.nextId].Daily?
            && after.handlers[s.nextId].nextExecution == added.handlers[s.nextId].nextExecution + |fired| * 864_000_000_000
            && (s.nextId in FiredIds(after, m) <==> m.now >= after.handlers[s.nextId].nextExecution)
  {
    var target := TargetTime(hour, minute, second);
    var first := FirstExecution(now, target);
    var added := AddTask(s, Daily(target, first));
    DailyAmongOthers(added, s.nextId, target, first, ops, m);
    ReachedCounts(first, m.now, |FiringsOf(added, ops, s.nextId)|);
  }

  /**
   Its instants: the first is the next one at or after registration, and all of them are at
   the hour, minute and second asked for.
   */
  lemma DailyInstants(s: State, hour: int, minute: int, second: int, now: int, days: nat)
    requires ValidTimeOfDay(hour, minute, second)
    ensures var task := Apply(s, AddDailyTask(hour, minute, second, now)).handlers[s.nextId];
            && task.Daily? && now <= task.nextExecution < now + 864_000_000_000
            && var ticks := (task.nextExecution + days * 864_000_000_000) % 864_000_000_000;
               ticks % 10_000_000 == 0 &&
               var seconds := ticks / 10_000_000;
               seconds / 3600 == hour && seconds / 60 % 60 == minute && seconds % 60 == second
  {
    var target := TargetTime(hour, minute, second);
    TargetTimeInDay(hour, minute, second);
    FirstExecutionIsNext(now, target, now);
    WholeDays(FirstExecution(now, target), days);
    TimeOfDay(hour, minute, second);
  }

  lemma TimeOfDay(hour: int, minute: int, second: int)
    requires ValidTimeOfDay(hour, minute, second)
    ensures var ticks := TargetTime(hour, minute, second);
            ticks % 10_000_000 == 0 &&
            var seconds := ticks / 10_000_000;
            seconds / 3600 == hour && seconds / 60 % 60 == minute && seconds % 60 == second
  {
    assert TargetTime(hour, minute, second) / 10_000_000 == (hour * 60 + minute) * 60 + second;
  }

  lemma DailyAmongOthers(s: State, id: nat, target: int, first: int, ops: seq<Op>, m: Moment)
    requires IdsBelow(s) && id in s.handlers && s.handlers[id] == Daily(target, first) && Clear(id) !in ops
    ensures var fired := FiringsOf(s, ops, id);
            && id in Run(s, ops).handlers && Run(s, ops).handlers[id] == Daily(target, first + |fired| * DAY)
            && (id in FiredIds(Run(s, ops), m) <==> |fired| < Reached(first, m.now))
  {
    var ms := Moments(ops);
    FiringsFollow(s, ops, id);
    TaskLivesAlone(s, ops, id);
    TaskFiresAlone(s, ops, id, m);
    DailyLife(target, first, s.last, ms);
    DailyFiresExactly(target, first, s.last, ms + [m]);
    assert (ms + [m])[..|ms|] == ms;
  }

  lemma WholeDays(first: int, days: nat)
    ensures (first + days * DAY) % DAY == first % DAY
  {
  }

  /**
   It never runs more often than instants have been reached by some update, and when the updates
   come less than a day apart, its registration being the first, none has been reached that it
   has not run for.
   */
  lemma DailyTaskCountsInstants(s: State, hour: int, minute: int, second: int, now: int, ops: seq<Op>)
    requires IdsBelow(s) && Clear(s.nextId) !in ops && ValidTimeOfDay(hour, minute, second)
    ensures var added := Apply(s, AddDailyTask(hour, minute, second, now));
            var fired, ms := |FiringsOf(added, ops, s.nextId)|, Moments(ops);
            && s.nextId in added.handlers && added.handlers[s.nextId].Daily?
            && var first := added.handlers[s.nextId].nextExecution;
            && (fired > 0 ==> exists i :: 0 <= i < |ms| && first + (fired - 1) * 864_000_000_000 <= ms[i].now)
            && ((ms != [] ==> ms[0].now < now + 864_000_000_000)
                && (forall i :: 0 < i < |ms| ==> ms[i].now < ms[i - 1].now + 864_000_000_000)
                ==> forall i :: 0 <= i < |ms| ==> ms[i].now < first + fired * 864_000_000_000)
  {
    var target, ms := TargetTime(hour, minute, second), Moments(ops);
    var first := FirstExecution(now, target);
    var added := Apply(s, AddDailyTask(hour, minute, second, now));
    var fired := |FiringsOf(added, ops, s.nextId)|;
    FiringsFollow(added, ops, s.nextId);
    if ms != [] {
      var latest := LatestNowIsMax(ms);
      DailyNeverOverfires(target, first, s.last, ms);
      if fired > 0 {
        ReachedCounts(first, LatestNow(ms), fired - 1);
      }
      if LessThanADayApart(now, ms) {
        TargetTimeInDay(hour, minute, second);
        DailyFiresForEachInstant(target, now, s.last, ms);
        ReachedCounts(first, LatestNow(ms), fired);
      }
    }
  }

  // ---------------------------------------------------------------- clearing

  /** A cleared task is gone for good, and the others are as they were. */
  lemma ClearedTaskIsGone(s: State, id: nat, ops: seq<Op>, m: Moment)
    requires IdsBelow(s) && id < s.nextId
    ensures var cleared := Apply(s, Clear(id));
            && cleared.nextId == s.nextId && cleared.last == s.last
            && (forall other :: other in cleared.handlers <==> other in s.handlers && other != id)
            && (forall other :: other in cleared.handlers ==> cleared.handlers[other] == s.handlers[other])
            && id !in Run(cleared, ops).handlers && id !in FiredIds(Run(cleared, ops), m)
  {
    IdsNeverReused(Apply(s, Clear(id)), ops, id);
  }
}
