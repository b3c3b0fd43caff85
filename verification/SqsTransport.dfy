/** Delivery: a batch of SQS messages runs through the handlers
    (src/shared/microservices/sqs/sqs-transport.ts) and is deleted only if all of them
    succeed (src/shared/microservices/sqs/sqs-consumer.ts). */
module SqsTransport {
  import opened Prelude

  type Pattern = string

  /** A message body is JSON naming the pattern of its handler, or does not parse. */
  datatype Body = Garbled | Request(pattern: Pattern)

  datatype Message = Message(id: nat, body: Body)

  /** `queue`: messages not deleted (visible or in flight). `handled`: messages a handler
      has finished without throwing. */
  datatype State = State(queue: set<Message>, handled: set<Message>)

  /** What the environment decides for one batch: the messages whose handlers throw, and
      the messages the delete call actually removes. */
  datatype Env = Env(throwing: set<Message>, deletable: set<Message>)

  predicate HasHandler(m: Message, handlers: set<Pattern>) { m.body.Request? && m.body.pattern in handlers }

  predicate Succeeds(m: Message, handlers: set<Pattern>, env: Env) {
    m.body.Request? && (m.body.pattern in handlers ==> m !in env.throwing)
  }

  predicate BatchSucceeds(batch: seq<Message>, handlers: set<Pattern>, env: Env) {
    forall m | m in batch :: Succeeds(m, handlers, env)
  }

  /** The messages of the batch whose handler finishes; a failure elsewhere in the batch
      does not stop a handler that has been started. */
  function Finishing(batch: seq<Message>, handlers: set<Pattern>, env: Env): set<Message> {
    set m | m in batch && HasHandler(m, handlers) && m !in env.throwing
  }

  function Processed(s: State, batch: seq<Message>, handlers: set<Pattern>, env: Env): State {
    State(
      if BatchSucceeds(batch, handlers, env) then s.queue - (set m | m in batch && m in env.deletable) else s.queue,
      s.handled + Finishing(batch, handlers, env))
  }

  class SQSWorker {
    const handlers: set<Pattern>
    var queue: set<Message>
    var handled: set<Message>

    constructor (handlers: set<Pattern>, queue: set<Message>)
      ensures this.handlers == handlers && Abs() == State(queue, {})
    {
      this.handlers, this.queue, handled := handlers, queue, {};
    }

    ghost function Abs(): State
      reads this
    {
      State(queue, handled)
    }

    /** `Promise.all` over the batch: every message's callback starts; the batch rejects
        if any of them does. */
    method HandleMessageBatch(batch: seq<Message>, env: Env) returns (ok: bool)
      modifies this`handled
      ensures ok <==> BatchSucceeds(batch, handlers, env)
      ensures handled == old(handled) + Finishing(batch, handlers, env)
      ensures forall m :: m in handled <==>
          m in old(handled) ||
          (m in batch && m.body.Request? && m.body.pattern in handlers && m !in env.throwing)
    {
      ok := true;
      for i := 0 to |batch|
        invariant ok <==> BatchSucceeds(batch[..i], handlers, env)
        invariant handled == old(handled) + Finishing(batch[..i], handlers, env)
      {
        var m := batch[i];
        BatchExtends(batch[..i], m, handlers, env);
        assert batch[..i + 1] == batch[..i] + [m];
        if m.body.Garbled? {
          ok := false;
        } else if m.body.pattern in handlers {
          if m in env.throwing {
            ok := false;
          } else {
            handled := handled + {m};
          }
        }
      }
      assert batch[..|batch|] == batch;
    }

    method ProcessMessageBatch(batch: seq<Message>, env: Env)
      modifies this
      ensures Abs() == Processed(old(Abs()), batch, handlers, env)
      ensures forall m :: m in queue <==>
          m in old(queue) &&
          !(m in batch && m in env.deletable &&
            forall x :: x in batch ==> x.body.Request? && (x.body.pattern in handlers ==> x !in env.throwing))
    {
      var ok := HandleMessageBatch(batch, env);
      if ok {
        queue := queue - (set m | m in batch && m in env.deletable);
      }
    }
  }

  lemma BatchExtends(batch: seq<Message>, m: Message, handlers: set<Pattern>, env: Env)
    ensures BatchSucceeds(batch + [m], handlers, env)
      <==> BatchSucceeds(batch, handlers, env) && Succeeds(m, handlers, env)
    ensures Finishing(batch + [m], handlers, env) ==
            Finishing(batch, handlers, env) + if HasHandler(m, handlers) && m !in env.throwing then {m} else {}
  {
  }

  /** New messages arrive, or a batch of queued messages is processed. */
  datatype Op = Send(m: Message) | Batch(batch: seq<Message>, env: Env)

  ghost predicate Step(op: Op, handlers: set<Pattern>, s: State, s': State) {
    match op
    case Send(m) => s' == s.(queue := s.queue + {m})
    case Batch(batch, env) => (forall m :: m in batch ==> m in s.queue) && s' == Processed(s, batch, handlers, env)
  }

  /** Settled for good: handled, or nobody handles its pattern. */
  predicate Settled(m: Message, handlers: set<Pattern>, s: State) {
    m in s.handled || (m.body.Request? && m.body.pattern !in handlers)
  }

  /** A batch with a failing message stays queued as a whole; a message leaves the queue
      only when every message of its batch is settled. */
  lemma BatchAllOrNothing(s: State, batch: seq<Message>, handlers: set<Pattern>, env: Env)
    ensures
      var s' := Processed(s, batch, handlers, env);
      && (!BatchSucceeds(batch, handlers, env) ==> s'.queue == s.queue)
      && (s'.queue != s.queue ==> forall m :: m in batch ==> Settled(m, handlers, s'))
  {
  }

  /** A queued message leaves exactly when it is in the batch, the delete removes it, and every
      message of the batch parses and either has no handler or one that does not throw. */
  lemma LeavesIff(s: State, batch: seq<Message>, handlers: set<Pattern>, env: Env, m: Message, s': State)
    requires m in s.queue && Step(Batch(batch, env), handlers, s, s')
    ensures m !in s'.queue <==>
      && m in batch && m in env.deletable
      && forall x :: x in batch ==> x.body.Request? && (x.body.pattern in handlers ==> x !in env.throwing)
  {
  }

  /** Once a batch has so succeeded, its deleted messages stay gone unless sent again. */
  lemma {:induction false} GoneUnlessResent(ops: seq<Op>, handlers: set<Pattern>, ss: seq<State>, i: nat, j: nat,
                                            m: Message)
    requires |ss| == |ops| + 1 && i < j < |ss|
    requires forall k :: 0 <= k < |ops| ==> Step(ops[k], handlers, ss[k], ss[k + 1])
    requires ops[i].Batch? && m in ops[i].batch && m in ops[i].env.deletable
    requires forall x ::
        x in ops[i].batch
        ==> x.body.Request? && (x.body.pattern in handlers ==> x !in ops[i].env.throwing)
    requires forall k :: i < k < j ==> ops[k] != Send(m)
    ensures m !in ss[j].queue
    decreases j
  {
    assert Step(ops[j - 1], handlers, ss[j - 1], ss[j - 1 + 1]);
    if j == i + 1 {
      LeavesIff(ss[i], ops[i].batch, handlers, ops[i].env, m, ss[j]);
    } else {
      GoneUnlessResent(ops, handlers, ss, i, j - 1, m);
    }
  }

  /** At-least-once delivery: in every run, with redelivery and with deletes that fail
      wholly or in part, each message ever sent is still queued or has been settled. */
  lemma {:induction false} AtLeastOnce(ops: seq<Op>, handlers: set<Pattern>, ss: seq<State>, i: nat, m: Message)
    requires |ss| == |ops| + 1 && i < |ss|
    requires forall k :: 0 <= k < |ops| ==> Step(ops[k], handlers, ss[k], ss[k + 1])
    requires m in ss[0].queue || exists k :: 0 <= k < i && ops[k] == Send(m)
    ensures m in ss[i].queue || Settled(m, handlers, ss[i])
  {
    if 0 < i {
      assert Step(ops[i - 1], handlers, ss[i - 1], ss[i - 1 + 1]);
      if m in ss[0].queue || exists k :: 0 <= k < i - 1 && ops[k] == Send(m) {
        AtLeastOnce(ops, handlers, ss, i - 1, m);
        if ops[i - 1].Batch? {
          BatchAllOrNothing(ss[i - 1], ops[i - 1].batch, handlers, ops[i - 1].env);
        }
      }
    }
  }
}
