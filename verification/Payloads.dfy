/**
 Arms of different message types in one envelope.  `Lift` carries a codec over to a
 common payload type, laws included; the request and response envelopes below put
 the application messages at their field numbers, next to any other lawful arms.
 */
module Payloads {
  import opened Common
  import opened Wire
  import opened Messages
  import opened Envelope
  import opened AppMessages

  function LiftOutcome<A, U>(inject: A -> U, r: Outcome<A>): Outcome<U> {
    match r
    case Failed => Failed
    case Ok(a) => Ok(inject(a))
  }

  function Lift<A, U(==)>(c: Codec<A>, inject: A -> U, project: U -> A): Codec<U> {
    Codec(
      inject(c.empty),
      (u: U) => inject(project(u)) == u && c.valid(project(u)),
      c.recognises,
      (u: U, f: RawField) => LiftOutcome(inject, c.apply(project(u), f)),
      (u: U) => c.fields(project(u)),
      (u: U) => c.size(project(u)),
      (u: U, v: U) => inject(c.merge(project(u), project(v))),
      (u: U) => inject(c.norm(project(u))))
  }

  ghost predicate Retraction<A(!new), U>(inject: A -> U, project: U -> A) {
    forall a :: project(inject(a)) == a
  }

  lemma {:induction false} LiftedApplyAll<A(!new), U>(c: Codec<A>, inject: A -> U, project: U -> A, k: A, fs: seq<RawField>)
    requires Retraction(inject, project)
    ensures ApplyAll(Lift(c, inject, project), inject(k), fs) == LiftOutcome(inject, ApplyAll(c, k, fs))
    decreases |fs|
  {
    if fs != [] && c.apply(k, fs[0]).Ok? {
      LiftedApplyAll(c, inject, project, c.apply(k, fs[0]).value, fs[1..]);
    }
  }

  lemma LiftLawful<A(!new), U(!new)>(c: Codec<A>, inject: A -> U, project: U -> A)
    requires Lawful(c) && Retraction(inject, project)
    ensures Lawful(Lift(c, inject, project))
  {
    var l := Lift(c, inject, project);
    forall a: U | l.valid(a) && l.size(a) <= INT32_MAX ensures Fits(l, l.fields(a), l.size(a)) {
      assert Fits(c, c.fields(project(a)), c.size(project(a)));
    }
    forall k: U, a: U | l.valid(k) && l.valid(a) && l.size(a) <= INT32_MAX
      ensures ApplyAll(l, l.norm(k), l.fields(a)) == Ok(l.norm(l.merge(k, a)))
    {
      LiftedApplyAll(c, inject, project, c.norm(project(k)), c.fields(project(a)));
    }
  }

  // ---------------------------------------------------------------- the envelopes

  datatype Payload<+R> =
    | HeartBeatPayload(heartBeat: HeartBeat)
    | LogQueryPayload(logQuery: LogQuery)
    | LogReplyPayload(logReply: LogReply)
    | OtherPayload(other: R)

  const REQ_HEART_BEAT: nat := 17
  const REQ_SERVER_LOG_QUERY: nat := 18
  const RES_SERVER_LOG_QUERY: nat := 12

  function HeartBeatArm<R(==)>(): Codec<Payload<R>> {
    Lift(HEART_BEAT, (k: HeartBeat) => HeartBeatPayload(k),
         (p: Payload<R>) => if p.HeartBeatPayload? then p.heartBeat else HEART_BEAT.empty)
  }

  function LogQueryArm<R(==)>(): Codec<Payload<R>> {
    Lift(LOG_QUERY, (k: LogQuery) => LogQueryPayload(k),
         (p: Payload<R>) => if p.LogQueryPayload? then p.logQuery else LOG_QUERY.empty)
  }

  function LogReplyArm<R(==)>(): Codec<Payload<R>> {
    Lift(LOG_REPLY, (k: LogReply) => LogReplyPayload(k),
         (p: Payload<R>) => if p.LogReplyPayload? then p.logReply else LOG_REPLY.empty)
  }

  function OtherArm<R(==)>(c: Codec<R>): Codec<Payload<R>> {
    Lift(c, (k: R) => OtherPayload(k), (p: Payload<R>) => if p.OtherPayload? then p.other else c.empty)
  }

  function RequestArm<R(==)>(others: nat -> Codec<R>): nat -> Codec<Payload<R>> {
    (n: nat) => if n == REQ_HEART_BEAT then HeartBeatArm() else if n == REQ_SERVER_LOG_QUERY then LogQueryArm() else OtherArm(others(n))
  }

  function ResponseArm<R(==)>(others: nat -> Codec<R>): nat -> Codec<Payload<R>> {
    (n: nat) => if n == RES_SERVER_LOG_QUERY then LogReplyArm() else OtherArm(others(n))
  }

  lemma AppArmsLawful<R(!new)>()
    ensures Lawful(HeartBeatArm<R>()) && Lawful(LogQueryArm<R>()) && Lawful(LogReplyArm<R>())
  {
    HeartBeatLawful();
    LogQueryLawful();
    LogReplyLawful();
    LiftLawful(HEART_BEAT, (k: HeartBeat) => HeartBeatPayload(k),
               (p: Payload<R>) => if p.HeartBeatPayload? then p.heartBeat else HEART_BEAT.empty);
    LiftLawful(LOG_QUERY, (k: LogQuery) => LogQueryPayload(k),
               (p: Payload<R>) => if p.LogQueryPayload? then p.logQuery else LOG_QUERY.empty);
    LiftLawful(LOG_REPLY, (k: LogReply) => LogReplyPayload(k),
               (p: Payload<R>) => if p.LogReplyPayload? then p.logReply else LOG_REPLY.empty);
  }

  lemma OtherArmLawful<R(!new)>(c: Codec<R>)
    requires Lawful(c)
    ensures Lawful(OtherArm(c))
  {
    LiftLawful(c, (k: R) => OtherPayload(k), (p: Payload<R>) => if p.OtherPayload? then p.other else c.empty);
  }

  lemma RequestArmLawful<R(!new)>(others: nat -> Codec<R>, n: nat)
    requires Lawful(others(n))
    ensures Lawful(RequestArm(others)(n))
  {
    if n == REQ_HEART_BEAT || n == REQ_SERVER_LOG_QUERY {
      AppArmsLawful<R>();
    } else {
      OtherArmLawful(others(n));
    }
  }

  lemma ResponseArmLawful<R(!new)>(others: nat -> Codec<R>, n: nat)
    requires Lawful(others(n))
    ensures Lawful(ResponseArm(others)(n))
  {
    if n == RES_SERVER_LOG_QUERY {
      AppArmsLawful<R>();
    } else {
      OtherArmLawful(others(n));
    }
  }

  /** The request envelope, with these arms in place, obeys every law of a message. */
  lemma RequestLawful<R(!new)>(others: nat -> Codec<R>)
    requires LawfulArms(REQUEST_ARMS, others)
    ensures Lawful(EnvelopeCodec(REQUEST_ARMS, RequestArm(others)))
  {
    var arm := RequestArm(others);
    forall n | 1 <= n <= REQUEST_ARMS ensures Lawful(arm(n)) {
      RequestArmLawful(others, n);
    }
    EnvelopeLawful(REQUEST_ARMS, arm);
  }

  /** And so does the response envelope. */
  lemma ResponseLawful<R(!new)>(others: nat -> Codec<R>)
    requires LawfulArms(RESPONSE_ARMS, others)
    ensures Lawful(EnvelopeCodec(RESPONSE_ARMS, ResponseArm(others)))
  {
    var arm := ResponseArm(others);
    forall n | 1 <= n <= RESPONSE_ARMS ensures Lawful(arm(n)) {
      ResponseArmLawful(others, n);
    }
    EnvelopeLawful(RESPONSE_ARMS, arm);
  }
}
