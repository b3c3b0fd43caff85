/** The SQS poll loop (src/shared/microservices/sqs/sqs-consumer.ts). Each poll runs in a
    wait group, without being awaited, and sets the timer of the next poll. */
module SqsConsumer {
  import opened Prelude
  import opened WaitGroups

  /** `timers` counts the pending timers; every started action issues one receive, so
      `wg.started` lists the receives. */
  datatype Consumer = Consumer(wg: WG, isRunning: bool, timers: nat)

  datatype Op = OnStart(a: Action) | OnStop | OnTimer(a: Action) | OnSettle(t: Action) | OnResume(r: Action)

  predicate Possible(s: Consumer, op: Op) {
    match op
    case OnStart(a) => Unknown(s.wg, a)
    case OnStop => true
    case OnTimer(a) => 0 < s.timers && Unknown(s.wg, a)
    case OnSettle(t) => t in s.wg.tasks
    case OnResume(r) => Awake(s.wg, r)
  }

  /** `poll`: nothing once stopped; else `wg.go`, whose action sets the next timer before
      it receives. */
  function Poll(s: Consumer, a: Action): Consumer {
    if !s.isRunning then s
    else Consumer(Called(s.wg, a), true, if |s.wg.tasks| == s.wg.limit then s.timers else s.timers + 1)
  }

  function After(s: Consumer, op: Op): Consumer
    requires Possible(s, op)
  {
    match op
    case OnStart(a) => Poll(s.(isRunning := true), a)
    case OnStop => s.(isRunning := false, timers := 0)
    case OnTimer(a) => Poll(s.(timers := s.timers - 1), a)
    case OnSettle(t) => s.(wg := Settled(s.wg, t))
    case OnResume(r) => s.(wg := Started(s.wg, r), timers := s.timers + 1)
  }

  /** Polls to come: pending timers and polls waiting for room. */
  function Tokens(s: Consumer): nat { s.timers + |s.wg.blocked| }

  class SQSConsumer {
    const wg: WaitGroup
    var isRunning: bool
    var timers: nat

    /** `workersCount || 1`: an absent or zero option means one worker. */
    constructor (workersCount: nat)
      ensures Abs() == Consumer(Fresh(if workersCount == 0 then 1 else workersCount), false, 0) && fresh(wg)
    {
      wg := new WaitGroup(if workersCount == 0 then 1 else workersCount);
      isRunning, timers := false, 0;
    }

    ghost function Abs(): Consumer
      reads this, wg
    {
      Consumer(wg.Abs(), isRunning, timers)
    }

    method PollOnce(a: Action)
      requires Unknown(wg.Abs(), a)
      modifies this, wg
      ensures Abs() == Poll(old(Abs()), a)
    {
      if !isRunning {
        return;
      }
      var awaits := wg.Go(a);
      if !awaits {
        timers := timers + 1;
      }
    }

    method Start(a: Action)
      requires Possible(Abs(), OnStart(a))
      modifies this, wg
      ensures Abs() == After(old(Abs()), OnStart(a))
    {
      isRunning := true;
      PollOnce(a);
    }

    method Stop()
      modifies this
      ensures Abs() == After(old(Abs()), OnStop)
    {
      isRunning := false;
      timers := 0;
    }

    method Timer(a: Action)
      requires Possible(Abs(), OnTimer(a))
      modifies this, wg
      ensures Abs() == After(old(Abs()), OnTimer(a))
    {
      timers := timers - 1;
      PollOnce(a);
    }

    /** A poll that waited for room starts: it receives even if `stop` was called meanwhile. */
    method Resume(r: Action)
      requires Possible(Abs(), OnResume(r))
      modifies this, wg
      ensures Abs() == After(old(Abs()), OnResume(r))
    {
      wg.Resume(r);
      timers := timers + 1;
    }

    method Settle(t: Action)
      requires Possible(Abs(), OnSettle(t))
      modifies wg
      ensures Abs() == After(old(Abs()), OnSettle(t))
    {
      wg.Finally(t);
    }
  }

  // ---- One start ----

  ghost predicate Run(ops: seq<Op>, ss: seq<Consumer>) {
    && |ss| == |ops| + 1
    && forall i :: 0 <= i < |ops| ==> Possible(ss[i], ops[i]) && ss[i + 1] == After(ss[i], ops[i])
  }

  /** Neither `start` nor `stop` is called. */
  ghost predicate Undisturbed(ops: seq<Op>) { forall i :: 0 <= i < |ops| ==> !ops[i].OnStart? && !ops[i].OnStop? }

  /** While running: exactly one poll to come, and the group is within its limit. */
  ghost predicate OneToken(s: Consumer) {
    s.isRunning && Tokens(s) == 1 && Consistent(s.wg) && Bounded(s.wg)
  }

  lemma NoBlocked(s: WG)
    requires |s.blocked| == 0
    ensures s.blocked == map[]
  {
  }

  lemma OneBlocked(s: WG, a: Action)
    requires s.blocked == map[]
    ensures |s.blocked[a := s.tasks]| == 1
  {
    assert s.blocked[a := s.tasks] == map[a := s.tasks];
  }

  /** A poll, when no other is waiting, leaves one token more and the group bounded. */
  lemma PollAddsToken(s: Consumer, a: Action)
    requires s.isRunning && Unknown(s.wg, a) && Consistent(s.wg) && Bounded(s.wg) && s.wg.blocked == map[]
    ensures Tokens(Poll(s, a)) == s.timers + 1
    ensures Consistent(Poll(s, a).wg) && Bounded(Poll(s, a).wg)
  {
    NextConsistent(s.wg, Turn.Go(a));
    NextBounded(s.wg, Turn.Go(a));
    OneBlocked(s.wg, a);
    assert s.wg.blocked - {a} == map[];
  }

  lemma KeepsOneToken(s: Consumer, op: Op)
    requires OneToken(s) && Possible(s, op) && !op.OnStart? && !op.OnStop?
    ensures OneToken(After(s, op)) && After(s, op).wg.limit == s.wg.limit
  {
    match op
    case OnTimer(a) =>
      NoBlocked(s.wg);
      PollAddsToken(s.(timers := s.timers - 1), a);
    case OnSettle(t) =>
      NextConsistent(s.wg, Turn.Settle(t));
      NextBounded(s.wg, Turn.Settle(t));
    case OnResume(r) =>
      NextConsistent(s.wg, Turn.Resume(r));
      NextBounded(s.wg, Turn.Resume(r));
      Unblocked(s.wg, r);
    case OnStart(_) =>
    case OnStop =>
  }

  /** Starting a consumer with no poll left to come, new or drained, gives it one. */
  lemma StartGivesOneToken(s: Consumer, a: Action)
    requires Possible(s, OnStart(a)) && Consistent(s.wg) && Bounded(s.wg) && Tokens(s) == 0
    ensures OneToken(After(s, OnStart(a))) && After(s, OnStart(a)).wg.limit == s.wg.limit
  {
    NoBlocked(s.wg);
    PollAddsToken(s.(isRunning := true), a);
  }

  /** Poll-token invariant: after a `start` with no poll left over, and before `stop`,
      exactly one poll is pending in every reachable state, so receives in flight never
      exceed the number of workers although `go` is not awaited. */
  lemma {:induction false} PollTokenInvariant(ops: seq<Op>, ss: seq<Consumer>, i: nat)
    requires Run(ops, ss) && Consistent(ss[0].wg) && Bounded(ss[0].wg) && Tokens(ss[0]) == 0
    requires ops != [] && ops[0].OnStart? && Undisturbed(ops[1..])
    requires 1 <= i < |ss|
    ensures OneToken(ss[i]) && ss[i].wg.limit == ss[0].wg.limit && |ss[i].wg.tasks| <= ss[i].wg.limit
  {
    if i == 1 {
      assert ss[0 + 1] == After(ss[0], ops[0]);
      StartGivesOneToken(ss[0], ops[0].a);
    } else {
      PollTokenInvariant(ops, ss, i - 1);
      assert ops[1..][i - 2] == ops[i - 1];
      assert Possible(ss[i - 1], ops[i - 1]) && ss[i - 1 + 1] == After(ss[i - 1], ops[i - 1]);
      KeepsOneToken(ss[i - 1], ops[i - 1]);
    }
  }

  // ---- After stop ----

  /** A stopped consumer: nobody but an already waiting poll will receive. */
  ghost predicate Draining(s: Consumer, receives: nat) {
    !s.isRunning && Consistent(s.wg) && Bounded(s.wg) && |s.wg.started| + |s.wg.blocked| <= receives
  }

  lemma KeepsDraining(s: Consumer, op: Op, receives: nat)
    requires Draining(s, receives) && Possible(s, op) && !op.OnStart?
    ensures Draining(After(s, op), receives)
  {
    match op
    case OnTimer(a) =>
    case OnStop =>
    case OnSettle(t) =>
      NextConsistent(s.wg, Turn.Settle(t));
      NextBounded(s.wg, Turn.Settle(t));
    case OnResume(r) =>
      NextConsistent(s.wg, Turn.Resume(r));
      NextBounded(s.wg, Turn.Resume(r));
      Unblocked(s.wg, r);
    case OnStart(_) =>
  }

  /** After `stop`, with no restart, at most one more receive is issued: that of a poll
      already waiting for room. */
  lemma {:induction false} StopDrains(s: Consumer, ops: seq<Op>, ss: seq<Consumer>, i: nat)
    requires OneToken(s) && Run(ops, ss) && ss[0] == After(s, OnStop) && i < |ss|
    requires forall k :: 0 <= k < |ops| ==> !ops[k].OnStart?
    ensures Draining(ss[i], |s.wg.started| + |s.wg.blocked|)
    ensures |ss[i].wg.started| <= |s.wg.started| + 1
  {
    if i == 0 {
    } else {
      StopDrains(s, ops, ss, i - 1);
      assert Possible(ss[i - 1], ops[i - 1]) && ss[i - 1 + 1] == After(ss[i - 1], ops[i - 1]);
      KeepsDraining(ss[i - 1], ops[i - 1], |s.wg.started| + |s.wg.blocked|);
    }
  }

  // ---- Restart ----

  /** Left running, the consumer may come to have more receives in flight than workers. */
  ghost predicate MayExceed(s: Consumer) {
    exists ops: seq<Op>, ss: seq<Consumer> :: OverLimit(s, ops, ss)
  }

  ghost predicate OverLimit(s: Consumer, ops: seq<Op>, ss: seq<Consumer>) {
    Run(ops, ss) && Undisturbed(ops) && ss[0] == s && s.wg.limit < |ss[|ops|].wg.tasks|
  }

  lemma OverLater(s: Consumer, op: Op)
    requires Possible(s, op) && !op.OnStart? && !op.OnStop? && MayExceed(After(s, op))
    ensures MayExceed(s)
  {
    var ops: seq<Op>, ss: seq<Consumer> :| OverLimit(After(s, op), ops, ss);
    OverLimitPrepend(s, op, ops, ss);
  }

  lemma OverLimitPrepend(s: Consumer, op: Op, ops: seq<Op>, ss: seq<Consumer>)
    requires Possible(s, op) && !op.OnStart? && !op.OnStop? && OverLimit(After(s, op), ops, ss)
    ensures OverLimit(s, [op] + ops, [s] + ss)
  {
    var all, states := [op] + ops, [s] + ss;
    forall i | 0 <= i < |all| ensures Possible(states[i], all[i]) && states[i + 1] == After(states[i], all[i]) {
      if 0 < i {
        assert all[i] == ops[i - 1] && states[i] == ss[i - 1] && states[i + 1] == ss[i - 1 + 1];
      }
    }
  }

  /** A group that may exceed its limit on its own makes the consumer exceed it. */
  lemma {:induction false} GroupExceeds(s: Consumer, turns: seq<Turn>, gs: seq<WG>)
    requires Exceeding(s.wg, turns, gs)
    ensures MayExceed(s)
    decreases |turns|
  {
    if turns == [] {
      assert OverLimit(s, [], [s]);
    } else {
      var op := match turns[0] case Settle(t) => OnSettle(t) case Resume(r) => OnResume(r) case Go(a) => OnSettle(a);
      assert Enabled(gs[0], turns[0]) && gs[0 + 1] == Next(gs[0], turns[0]);
      ExceedingTail(s.wg, turns, gs);
      GroupExceeds(After(s, op), turns[1..], gs[1..]);
      OverLater(s, op);
    }
  }

  lemma ExceedingTail(s: WG, turns: seq<Turn>, gs: seq<WG>)
    requires Exceeding(s, turns, gs) && turns != []
    ensures Exceeding(Next(s, turns[0]), turns[1..], gs[1..])
  {
    assert Enabled(gs[0], turns[0]) && gs[0 + 1] == Next(gs[0], turns[0]);
    forall i | 0 <= i < |turns[1..]|
        ensures Enabled(gs[1..][i], turns[1..][i]) && gs[1..][i + 1] == Next(gs[1..][i], turns[1..][i]) {
      assert turns[1..][i] == turns[i + 1] && gs[1..][i] == gs[i + 1] && gs[1..][i + 1] == gs[i + 1 + 1];
    }
  }

  lemma {:induction false} Above(actions: set<Action>) returns (a: Action)
    ensures forall x :: x in actions ==> x < a
    decreases |actions|
  {
    if actions == {} {
      a := 0;
    } else {
      var x :| x in actions;
      var b := Above(actions - {x});
      a := if b <= x then x + 1 else b;
      forall y | y in actions ensures y < a {
        assert y == x || y in actions - {x};
      }
    }
  }

  lemma NewAction(s: WG) returns (a: Action)
    ensures Unknown(s, a)
  {
    var used := s.tasks + s.blocked.Keys + set x | x in s.started;
    a := Above(used);
    assert forall x :: x in s.started || x in s.blocked || x in s.tasks ==> x in used;
  }

  lemma TwoBlocked(s: WG) returns (a: Action, b: Action)
    requires 2 <= |s.blocked|
    ensures a != b && a in s.blocked && b in s.blocked
  {
    a :| a in s.blocked;
    Unblocked(s, a);
    b :| b in s.blocked - {a};
  }

  lemma BlockedPairExceeds(s: Consumer)
    requires Consistent(s.wg) && 1 <= s.wg.limit == |s.wg.tasks| && 2 <= |s.wg.blocked|
    ensures MayExceed(s)
  {
    var a, b := TwoBlocked(s.wg);
    var t :| t in s.wg.tasks;
    if s.wg.blocked[a] <= s.wg.tasks {
      SameSize(s.wg.blocked[a], s.wg.tasks);
    }
    if s.wg.blocked[b] <= s.wg.tasks {
      SameSize(s.wg.blocked[b], s.wg.tasks);
    }
    TwoBlockedExceed(s.wg, a, b, t);
    var turns: seq<Turn>, gs: seq<WG> :| Exceeding(s.wg, turns, gs);
    GroupExceeds(s, turns, gs);
  }

  /** On a full group a timer turns into a waiting poll. */
  lemma TimerBlocks(s: Consumer, a: Action)
    requires s.isRunning && Consistent(s.wg) && Possible(s, OnTimer(a)) && |s.wg.tasks| == s.wg.limit
    ensures
      var s' := After(s, OnTimer(a));
      && s'.isRunning && Consistent(s'.wg) && s'.wg.limit == s.wg.limit && s'.wg.tasks == s.wg.tasks
      && s'.timers == s.timers - 1 && |s'.wg.blocked| == |s.wg.blocked| + 1
  {
    NextConsistent(s.wg, Turn.Go(a));
    assert s.wg.blocked[a := s.wg.tasks] - {a} == s.wg.blocked;
    Unblocked(Called(s.wg, a), a);
  }

  lemma {:induction false} FullExceeds(s: Consumer)
    requires s.isRunning && Consistent(s.wg) && 1 <= s.wg.limit == |s.wg.tasks| && 2 <= Tokens(s)
    ensures MayExceed(s)
    decreases s.timers
  {
    if 2 <= |s.wg.blocked| {
      BlockedPairExceeds(s);
    } else {
      var a := NewAction(s.wg);
      TimerBlocks(s, a);
      FullExceeds(After(s, OnTimer(a)));
      OverLater(s, OnTimer(a));
    }
  }

  /** With room, a timer turns into a receive and a timer. */
  lemma TimerStarts(s: Consumer, a: Action)
    requires s.isRunning && Consistent(s.wg) && Possible(s, OnTimer(a)) && |s.wg.tasks| < s.wg.limit
    ensures
      var s' := After(s, OnTimer(a));
      && s'.isRunning && Consistent(s'.wg) && s'.wg.limit == s.wg.limit && |s'.wg.tasks| == |s.wg.tasks| + 1
      && s'.timers == s.timers && Tokens(s') == Tokens(s)
  {
    NextConsistent(s.wg, Turn.Go(a));
    assert s.wg.blocked - {a} == s.wg.blocked;
  }

  lemma {:induction false} FillingExceeds(s: Consumer)
    requires s.isRunning && Consistent(s.wg) && |s.wg.tasks| <= s.wg.limit && 1 <= s.wg.limit
    requires 1 <= s.timers && 2 <= Tokens(s)
    ensures MayExceed(s)
    decreases s.wg.limit - |s.wg.tasks|
  {
    if |s.wg.tasks| == s.wg.limit {
      FullExceeds(s);
    } else {
      var a := NewAction(s.wg);
      TimerStarts(s, a);
      FillingExceeds(After(s, OnTimer(a)));
      OverLater(s, OnTimer(a));
    }
  }

  lemma RestartAddsToken(s: Consumer, a: Action)
    requires Possible(s, OnStart(a)) && Consistent(s.wg)
    ensures
      var s' := After(s, OnStart(a));
      && s'.isRunning && Consistent(s'.wg) && s'.wg.limit == s.wg.limit && Tokens(s') == Tokens(s) + 1
      && (if |s.wg.tasks| == s.wg.limit then s'.wg.tasks == s.wg.tasks
          else 1 <= s'.timers && |s'.wg.tasks| == |s.wg.tasks| + 1)
  {
    NextConsistent(s.wg, Turn.Go(a));
    if |s.wg.tasks| == s.wg.limit {
      assert s.wg.blocked[a := s.wg.tasks] - {a} == s.wg.blocked;
      Unblocked(Called(s.wg, a), a);
    } else {
      assert s.wg.blocked - {a} == s.wg.blocked;
    }
  }

  /** A restart that finds a poll left over, be it a waiting one or a timer set by one that
      resumed after the stop, leads to one receive too many. */
  lemma RestartExceeds(s: Consumer, a: Action)
    requires Possible(s, OnStart(a)) && Consistent(s.wg) && Bounded(s.wg) && 1 <= s.wg.limit && 1 <= Tokens(s)
    ensures MayExceed(After(s, OnStart(a)))
  {
    RestartAddsToken(s, a);
    if |s.wg.tasks| == s.wg.limit {
      FullExceeds(After(s, OnStart(a)));
    } else {
      FillingExceeds(After(s, OnStart(a)));
    }
  }

  lemma {:induction false} OneTokenStays(ops: seq<Op>, ss: seq<Consumer>, i: nat)
    requires Run(ops, ss) && Undisturbed(ops) && OneToken(ss[0]) && i < |ss|
    ensures OneToken(ss[i]) && ss[i].wg.limit == ss[0].wg.limit
  {
    if 0 < i {
      OneTokenStays(ops, ss, i - 1);
      assert Possible(ss[i - 1], ops[i - 1]) && ss[i - 1 + 1] == After(ss[i - 1], ops[i - 1]);
      KeepsOneToken(ss[i - 1], ops[i - 1]);
    }
  }

  lemma OneTokenIsSafe(s: Consumer)
    requires OneToken(s)
    ensures !MayExceed(s)
  {
    forall ops: seq<Op>, ss: seq<Consumer> ensures !OverLimit(s, ops, ss) {
      if Run(ops, ss) && Undisturbed(ops) && ss[0] == s {
        OneTokenStays(ops, ss, |ops|);
      }
    }
  }

  /** After a `start` the bound on receives in flight can be broken if and only if a poll
      was left over from before: a waiting one or a timer. */
  lemma RestartExceedsIff(s: Consumer, a: Action)
    requires Possible(s, OnStart(a)) && Consistent(s.wg) && Bounded(s.wg) && 1 <= s.wg.limit
    ensures MayExceed(After(s, OnStart(a))) <==> Tokens(s) != 0
  {
    if Tokens(s) == 0 {
      StartGivesOneToken(s, a);
      OneTokenIsSafe(After(s, OnStart(a)));
    } else {
      RestartExceeds(s, a);
    }
  }

  // ---- Stop and start again ----

  lemma StopEmptiesTimers(s: Consumer, a: Action)
    requires Consistent(s.wg) && Bounded(s.wg) && Possible(After(s, OnStop), OnStart(a))
    ensures Tokens(After(s, OnStop)) == |s.wg.blocked| && After(s, OnStop).wg == s.wg
    ensures Tokens(After(s, OnStop)) != 0 <==> s.wg.blocked != map[]
  {
    if |s.wg.blocked| == 0 {
      NoBlocked(s.wg);
    }
  }

  /** From any state, a stop followed at once by a start can break the bound on receives in
      flight if and only if some poll was waiting for room at the stop: whatever timers were
      pending, the stop has cleared them. */
  lemma StopStartIff(s: Consumer, a: Action)
    requires Consistent(s.wg) && Bounded(s.wg) && 1 <= s.wg.limit && Possible(After(s, OnStop), OnStart(a))
    ensures MayExceed(After(After(s, OnStop), OnStart(a))) <==> s.wg.blocked != map[]
  {
    StopEmptiesTimers(s, a);
    RestartExceedsIff(After(s, OnStop), a);
  }

  /** While stopped no poll comes to be. */
  lemma KeepsStopped(s: Consumer, op: Op)
    requires !s.isRunning && Consistent(s.wg) && Bounded(s.wg) && Possible(s, op) && !op.OnStart?
    ensures var s' := After(s, op);
      && !s'.isRunning && Consistent(s'.wg) && Bounded(s'.wg) && s'.wg.limit == s.wg.limit && Tokens(s') <= Tokens(s)
  {
    match op
    case OnTimer(a) =>
    case OnStop =>
    case OnSettle(t) =>
      NextConsistent(s.wg, Turn.Settle(t));
      NextBounded(s.wg, Turn.Settle(t));
    case OnResume(r) =>
      NextConsistent(s.wg, Turn.Resume(r));
      NextBounded(s.wg, Turn.Resume(r));
      Unblocked(s.wg, r);
    case OnStart(_) =>
  }

  lemma {:induction false} StaysStopped(ops: seq<Op>, ss: seq<Consumer>, i: nat)
    requires Run(ops, ss) && i < |ss| && (forall k :: 0 <= k < |ops| ==> !ops[k].OnStart?)
    requires !ss[0].isRunning && Consistent(ss[0].wg) && Bounded(ss[0].wg)
    ensures !ss[i].isRunning && Consistent(ss[i].wg) && Bounded(ss[i].wg)
    ensures ss[i].wg.limit == ss[0].wg.limit && Tokens(ss[i]) <= Tokens(ss[0])
  {
    if 0 < i {
      StaysStopped(ops, ss, i - 1);
      assert Possible(ss[i - 1], ops[i - 1]) && ss[i - 1 + 1] == After(ss[i - 1], ops[i - 1]);
      KeepsStopped(ss[i - 1], ops[i - 1]);
    }
  }

  /** What follows a stop: other turns than a start, and then a start by which the bound can
      be broken. */
  ghost predicate BreaksAfterStop(s: Consumer, ops: seq<Op>, ss: seq<Consumer>, a: Action) {
    && Run(ops, ss) && ss[0] == After(s, OnStop) && (forall k :: 0 <= k < |ops| ==> !ops[k].OnStart?)
    && Possible(ss[|ops|], OnStart(a)) && MayExceed(After(ss[|ops|], OnStart(a)))
  }

  lemma DrainedStop(s: Consumer, ops: seq<Op>, ss: seq<Consumer>, a: Action)
    requires Consistent(s.wg) && Bounded(s.wg) && 1 <= s.wg.limit && s.wg.blocked == map[]
    ensures !BreaksAfterStop(s, ops, ss, a)
  {
    if BreaksAfterStop(s, ops, ss, a) {
      StaysStopped(ops, ss, |ops|);
      RestartExceedsIff(ss[|ops|], a);
    }
  }

  /** Over runs: some restart after the stop, at once or later, can break the bound if and only
      if a poll was waiting at the stop. */
  lemma RestartAfterStopIff(s: Consumer)
    requires Consistent(s.wg) && Bounded(s.wg) && 1 <= s.wg.limit
    ensures (exists ops: seq<Op>, ss: seq<Consumer>, a: Action :: BreaksAfterStop(s, ops, ss, a))
      <==> s.wg.blocked != map[]
  {
    if s.wg.blocked == map[] {
      forall ops: seq<Op>, ss: seq<Consumer>, a: Action ensures !BreaksAfterStop(s, ops, ss, a) {
        DrainedStop(s, ops, ss, a);
      }
    } else {
      var a := NewAction(s.wg);
      StopStartIff(s, a);
      assert BreaksAfterStop(s, [], [After(s, OnStop)], a);
    }
  }
}
