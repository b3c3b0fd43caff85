/** The token processor over any number of calls, of which any writes and sends may fail
    (src/app-indexer/token-processor/token-processor.provider.ts). */
module TokenFaults {
  import opened Prelude
  import opened Ethnode
  import opened TokenTasks
  import opened TokenProcessor

  /** One call: its events, and what fails in it. */
  datatype FaultyCall = FaultyCall(events: seq<Event>, faults: Faults)

  function OutcomeAll(p: Provider, calls: seq<FaultyCall>): Provider {
    if calls == [] then p
    else Outcome(OutcomeAll(p, calls[..|calls| - 1]), calls[|calls| - 1].events, calls[|calls| - 1].faults)
  }

  /** The provider will not announce this key again: a token that is stored, or a contract
      it has met. */
  predicate Settled(p: Provider, key: Key) { if key.TokenKey? then key in p.table else key in p.seen }

  lemma PlanIsNew(seen: set<Key>, es: seq<Event>)
    ensures DistinctKeys(Plan(seen, es))
    ensures forall t ::
        t in Plan(seen, es)
        ==> t.message.key == t.key && t.key !in seen && (t.key.ContractKey? ==> t.key in SeenAfter(seen, es))
  {
    StartedDistinct(Candidates(es), seen);
    CandidateKeys(es);
    forall t | t in Plan(seen, es)
        ensures t.message.key == t.key && t.key !in seen && (t.key.ContractKey? ==> t.key in SeenAfter(seen, es)) {
      StartedIffFirst(Candidates(es), seen, t);
      FirstIn(Candidates(es), t.key);
    }
  }

  /** The task of the plan, if any, whose message a call sends. */
  ghost predicate SentBy(p: Provider, es: seq<Event>, f: Faults, m: Message, t: Task) {
    t in Plan(p.seen, es) && t.message == m && Announces(t, p.table) && t.key !in f.write && t.key !in f.send
  }

  /** A call sends a message at most once, and exactly if a task of its plan can. */
  lemma OutcomeSent(p: Provider, es: seq<Event>, f: Faults, m: Message)
    ensures Outcome(p, es, f).bus[m] == p.bus[m] + if exists t :: SentBy(p, es, f, m, t) then 1 else 0
  {
    var plan, bad := Plan(p.seen, es), f.write + f.send;
    PlanIsNew(p.seen, es);
    WithoutIn(plan, bad);
    WithoutDistinct(plan, bad);
    AnnouncedOnce(p.table, Without(plan, bad), m);
    AnnouncedIn(p.table, Without(plan, bad), m);
    if t :| SentBy(p, es, f, m, t) {
      assert t in Without(plan, bad);
    }
    if t :| t in Without(plan, bad) && Announces(t, p.table) && t.message == m {
      assert SentBy(p, es, f, m, t);
    }
  }

  /** The tokens stored before, and those of the plan whose write did not fail. */
  lemma OutcomeStored(p: Provider, es: seq<Event>, f: Faults, t: Task)
    ensures t.key in p.table ==> t.key in Outcome(p, es, f).table
    ensures t in Plan(p.seen, es) && t.key !in f.write ==> t.key in Outcome(p, es, f).table
  {
    var kept := Without(Plan(p.seen, es), f.write);
    PlanIsNew(p.seen, es);
    WithoutIn(Plan(p.seen, es), f.write);
    WithoutDistinct(Plan(p.seen, es), f.write);
    StoredAt(p.table, kept, t.key);
    if t in Plan(p.seen, es) && t.key !in f.write {
      assert t in kept;
    }
  }

  lemma StaysSettled(p: Provider, es: seq<Event>, f: Faults, key: Key)
    requires Settled(p, key)
    ensures Settled(Outcome(p, es, f), key)
  {
    OutcomeStored(p, es, f, Task(key, ContractRow(ERC721, 0), Message(key, ERC721, 0)));
  }

  lemma SettledIsSilent(p: Provider, es: seq<Event>, f: Faults, m: Message)
    requires Settled(p, m.key)
    ensures Outcome(p, es, f).bus[m] == p.bus[m]
  {
    OutcomeSent(p, es, f, m);
    PlanIsNew(p.seen, es);
  }

  /** Once a token is stored, or a contract met, no later call announces it, whatever
      happened to its first message. */
  lemma {:induction false} NeverAnnouncedAgain(p: Provider, calls: seq<FaultyCall>, m: Message)
    requires Settled(p, m.key)
    ensures Settled(OutcomeAll(p, calls), m.key) && OutcomeAll(p, calls).bus[m] == p.bus[m]
  {
    if calls != [] {
      var last, before := calls[|calls| - 1], OutcomeAll(p, calls[..|calls| - 1]);
      NeverAnnouncedAgain(p, calls[..|calls| - 1], m);
      StaysSettled(before, last.events, last.faults, m.key);
      SettledIsSilent(before, last.events, last.faults, m);
    }
  }

  /** A token whose write succeeds and whose send fails is stored, not announced, and by
      `NeverAnnouncedAgain` never will be. */
  lemma LostSend(p: Provider, es: seq<Event>, f: Faults, t: Task, m: Message)
    requires t in Plan(p.seen, es) && t.key.TokenKey? && t.key !in f.write && t.key in f.send && m.key == t.key
    ensures Settled(Outcome(p, es, f), t.key) && Outcome(p, es, f).bus[m] == p.bus[m]
  {
    OutcomeStored(p, es, f, t);
    OutcomeSent(p, es, f, m);
    SameKeySameTask(p.seen, es, t);
  }

  lemma SameKeySameTask(seen: set<Key>, es: seq<Event>, t: Task)
    requires t in Plan(seen, es)
    ensures forall t' :: t' in Plan(seen, es) && t'.message.key == t.key ==> t' == t
  {
    var plan := Plan(seen, es);
    PlanIsNew(seen, es);
    var i :| 0 <= i < |plan| && plan[i] == t;
    forall t' | t' in plan && t'.message.key == t.key ensures t' == t {
      var j :| 0 <= j < |plan| && plan[j] == t';
      assert i == j;
    }
  }

  /** Every message sent so far is the only one of its key, was sent once, and settled it. */
  ghost predicate Once(p: Provider) {
    && (forall m: Message :: m in p.bus ==> p.bus[m] == 1 && Settled(p, m.key))
    && (forall m: Message, m': Message :: m in p.bus && m' in p.bus && m.key == m'.key ==> m == m')
  }

  lemma NewMessage(p: Provider, es: seq<Event>, f: Faults, m: Message)
    requires m in Outcome(p, es, f).bus && m !in p.bus
    ensures Outcome(p, es, f).bus[m] == 1 && !Settled(p, m.key) && Settled(Outcome(p, es, f), m.key)
    ensures exists t :: SentBy(p, es, f, m, t)
  {
    OutcomeSent(p, es, f, m);
    PlanIsNew(p.seen, es);
    var t :| SentBy(p, es, f, m, t);
    OutcomeStored(p, es, f, t);
  }

  lemma MessageKept(p: Provider, es: seq<Event>, f: Faults, m: Message)
    requires m in p.bus && p.bus[m] == 1 && Settled(p, m.key)
    ensures Outcome(p, es, f).bus[m] == 1 && Settled(Outcome(p, es, f), m.key)
  {
    SettledIsSilent(p, es, f, m);
    StaysSettled(p, es, f, m.key);
  }

  lemma SameSender(p: Provider, es: seq<Event>, f: Faults, m: Message, m': Message)
    requires m in Outcome(p, es, f).bus && m' in Outcome(p, es, f).bus && m !in p.bus && m' !in p.bus && m.key == m'.key
    ensures m == m'
  {
    NewMessage(p, es, f, m);
    NewMessage(p, es, f, m');
    var t :| SentBy(p, es, f, m, t);
    var t' :| SentBy(p, es, f, m', t');
    var plan := Plan(p.seen, es);
    PlanIsNew(p.seen, es);
    var i :| 0 <= i < |plan| && plan[i] == t;
    var j :| 0 <= j < |plan| && plan[j] == t';
    assert i == j;
  }

  lemma OutcomeKeepsOnce(p: Provider, es: seq<Event>, f: Faults)
    requires Once(p)
    ensures Once(Outcome(p, es, f))
  {
    var q := Outcome(p, es, f);
    forall m: Message | m in q.bus ensures q.bus[m] == 1 && Settled(q, m.key) {
      if m in p.bus {
        MessageKept(p, es, f, m);
      } else {
        NewMessage(p, es, f, m);
      }
    }
    forall m: Message, m': Message | m in q.bus && m' in q.bus && m.key == m'.key ensures m == m' {
      if m !in p.bus {
        NewMessage(p, es, f, m);
      }
      if m' !in p.bus {
        NewMessage(p, es, f, m');
      }
      if m !in p.bus && m' !in p.bus {
        SameSender(p, es, f, m, m');
      }
    }
  }

  /** With any failures, over any sequence of calls of one provider, READ_TOKEN is sent at
      most once per token, and only for stored tokens, and READ_CONTRACT at most once per
      contract. */
  lemma {:induction false} SentAtMostOnce(p: Provider, calls: seq<FaultyCall>)
    requires p.bus == multiset{}
    ensures Once(OutcomeAll(p, calls))
  {
    if calls != [] {
      SentAtMostOnce(p, calls[..|calls| - 1]);
      OutcomeKeepsOnce(OutcomeAll(p, calls[..|calls| - 1]), calls[|calls| - 1].events, calls[|calls| - 1].faults);
    }
  }

  // ---- When a token is announced ----

  /** What one more call, made in state `before`, leaves. */
  function Called(before: Provider, c: FaultyCall): Provider { Outcome(before, c.events, c.faults) }

  lemma OneMoreCall(p: Provider, calls: seq<FaultyCall>)
    requires calls != []
    ensures OutcomeAll(p, calls) == Called(OutcomeAll(p, calls[..|calls| - 1]), calls[|calls| - 1])
  {
  }

  lemma LastOfJoin(calls: seq<FaultyCall>, more: seq<FaultyCall>, all: seq<FaultyCall>)
    requires all == calls + more && more != []
    ensures all[..|all| - 1] == calls + more[..|more| - 1] && all[|all| - 1] == more[|more| - 1]
  {
  }

  lemma {:induction false} OutcomeAllSplit(p: Provider, calls: seq<FaultyCall>, more: seq<FaultyCall>,
                                           all: seq<FaultyCall>)
    requires all == calls + more
    ensures OutcomeAll(p, all) == OutcomeAll(OutcomeAll(p, calls), more)
    decreases |more|
  {
    if more == [] {
      assert all == calls;
    } else {
      LastOfJoin(calls, more, all);
      OutcomeAllSplit(p, calls, more[..|more| - 1], all[..|all| - 1]);
      OneMoreCall(p, all);
      OneMoreCall(OutcomeAll(p, calls), more);
    }
  }

  /** A token a call newly stores is one of its plan whose write did not fail. */
  lemma StoredByPlan(p: Provider, es: seq<Event>, f: Faults, key: Key) returns (t: Task)
    requires key !in p.table && key in Outcome(p, es, f).table
    ensures t in Plan(p.seen, es) && t.key == key && key !in f.write && t.message.key == key
  {
    var kept := Without(Plan(p.seen, es), f.write);
    PlanIsNew(p.seen, es);
    WithoutIn(Plan(p.seen, es), f.write);
    WithoutDistinct(Plan(p.seen, es), f.write);
    StoredAt(p.table, kept, key);
    t :| t in kept && t.key == key;
  }

  /** Some message of this key has been sent. */
  ghost predicate IsAnnounced(p: Provider, key: Key) { exists m: Message :: m in p.bus && m.key == key }

  lemma StoringAnnounces(p: Provider, es: seq<Event>, f: Faults, key: Key)
    requires Once(p) && key.TokenKey? && key !in p.table && key in Outcome(p, es, f).table
    ensures IsAnnounced(Outcome(p, es, f), key) <==> key !in f.send
  {
    var t := StoredByPlan(p, es, f, key);
    OutcomeSent(p, es, f, t.message);
    if key !in f.send {
      assert SentBy(p, es, f, t.message, t);
    } else {
      forall m: Message | m.key == key ensures m !in Outcome(p, es, f).bus {
        LostSend(p, es, f, t, m);
      }
    }
  }

  lemma AnnouncedStays(p: Provider, calls: seq<FaultyCall>, key: Key)
    requires key.TokenKey? && key in p.table
    ensures IsAnnounced(OutcomeAll(p, calls), key) <==> IsAnnounced(p, key)
  {
    forall m: Message | m.key == key ensures m in OutcomeAll(p, calls).bus <==> m in p.bus {
      NeverAnnouncedAgain(p, calls, m);
    }
  }

  lemma CallAt(p: Provider, calls: seq<FaultyCall>, j: nat)
    requires j < |calls|
    ensures OutcomeAll(p, calls[..j + 1]) == Called(OutcomeAll(p, calls[..j]), calls[j])
  {
    OneMoreCall(p, calls[..j + 1]);
    assert calls[..j + 1][..j] == calls[..j];
  }

  lemma CutAt(calls: seq<FaultyCall>, k: nat)
    requires k <= |calls|
    ensures calls == calls[..k] + calls[k..]
  {
  }

  lemma AnnouncedAfter(before: Provider, c: FaultyCall, rest: seq<FaultyCall>, key: Key)
    requires Once(before) && key.TokenKey? && key !in before.table && key in Called(before, c).table
    ensures IsAnnounced(OutcomeAll(Called(before, c), rest), key) <==> key !in c.faults.send
  {
    StoringAnnounces(before, c.events, c.faults, key);
    AnnouncedStays(Called(before, c), rest, key);
  }

  /** Over any calls with any failures, the token that call `j` newly stored has been
      announced in the end if and only if its send did not fail in that call. */
  lemma AnnouncedIffSent(p: Provider, calls: seq<FaultyCall>, j: nat, key: Key)
    requires p.bus == multiset{} && j < |calls| && key.TokenKey?
    requires key !in OutcomeAll(p, calls[..j]).table && key in OutcomeAll(p, calls[..j + 1]).table
    ensures IsAnnounced(OutcomeAll(p, calls), key) <==> key !in calls[j].faults.send
  {
    CallAt(p, calls, j);
    CutAt(calls, j + 1);
    OutcomeAllSplit(p, calls[..j + 1], calls[j + 1..], calls);
    SentAtMostOnce(p, calls[..j]);
    AnnouncedAfter(OutcomeAll(p, calls[..j]), calls[j], calls[j + 1..], key);
  }
}
