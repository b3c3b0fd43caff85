/** The concurrency limiter of src/shared/wg/index.ts. `go` is split at its `await`: the
    turn that calls it, and the turn that resumes after some task has settled. */
module WaitGroups {
  import opened Prelude

  /** An action, and the promise it becomes once started. */
  type Action = nat

  /** `started` lists the actions in the order they were started; `blocked` maps an
      action whose `go` awaits to the tasks its `Promise.race` looks at. */
  datatype WG = WG(limit: nat, tasks: set<Action>, gauge: int, started: seq<Action>, blocked: map<Action, set<Action>>)

  function Started(s: WG, a: Action): WG {
    s.(tasks := s.tasks + {a}, gauge := s.gauge + 1, started := s.started + [a], blocked := s.blocked - {a})
  }

  /** The turn that calls `go(a)`. */
  function Called(s: WG, a: Action): WG {
    if |s.tasks| == s.limit then s.(blocked := s.blocked[a := s.tasks]) else Started(s, a)
  }

  /** The turn in which a task settles. */
  function Settled(s: WG, t: Action): WG {
    s.(tasks := s.tasks - {t}, gauge := s.gauge - 1)
  }

  /** The race of a blocked `go` has resolved: one of its tasks is gone. */
  predicate Awake(s: WG, a: Action) { a in s.blocked && !(s.blocked[a] <= s.tasks) }

  predicate Unknown(s: WG, a: Action) { a !in s.started && a !in s.blocked && a !in s.tasks }

  /** Called, settled or resumed: the turns of a wait group with any callers. */
  datatype Turn = Go(a: Action) | Settle(t: Action) | Resume(r: Action)

  predicate Enabled(s: WG, turn: Turn) {
    match turn
    case Go(a) => Unknown(s, a)
    case Settle(t) => t in s.tasks
    case Resume(a) => Awake(s, a)
  }

  function Next(s: WG, turn: Turn): WG {
    match turn
    case Go(a) => Called(s, a)
    case Settle(t) => Settled(s, t)
    case Resume(a) => Started(s, a)
  }

  function Fresh(limit: nat): WG { WG(limit, {}, 0, [], map[]) }

  class WaitGroup {
    const limit: nat
    var tasks: set<Action>
    var gauge: int
    ghost var started: seq<Action>
    ghost var blocked: map<Action, set<Action>>

    constructor (limit: nat)
      ensures Abs() == Fresh(limit)
    {
      this.limit, tasks, gauge, started, blocked := limit, {}, 0, [], map[];
    }

    ghost function Abs(): WG
      reads this
    {
      WG(limit, tasks, gauge, started, blocked)
    }

    /** Up to the `await`, or to the end when there is room. */
    method Go(a: Action) returns (awaits: bool)
      requires Enabled(Abs(), Turn.Go(a))
      modifies this
      ensures Abs() == Next(old(Abs()), Turn.Go(a))
      ensures awaits <==> |old(tasks)| == limit
    {
      awaits := |tasks| == limit;
      if awaits {
        blocked := blocked[a := tasks];
      } else {
        Run(a);
      }
    }

    /** After the `await`. */
    method Resume(a: Action)
      requires Enabled(Abs(), Turn.Resume(a))
      modifies this
      ensures Abs() == Next(old(Abs()), Turn.Resume(a))
    {
      Run(a);
    }

    method Run(a: Action)
      modifies this
      ensures Abs() == Started(old(Abs()), a)
    {
      tasks := tasks + {a};
      gauge := gauge + 1;
      started, blocked := started + [a], blocked - {a};
    }

    /** The task's `finally` callback. */
    method Finally(t: Action)
      requires Enabled(Abs(), Turn.Settle(t))
      modifies this
      ensures Abs() == Next(old(Abs()), Turn.Settle(t))
    {
      tasks := tasks - {t};
      gauge := gauge - 1;
    }
  }

  // ---- Any callers ----

  /** The gauge mirrors the tasks, no action is started twice, and a blocked `go` waits on
      a full group's tasks. */
  ghost predicate Consistent(s: WG) {
    && s.gauge == |s.tasks|
    && Distinct(s.started)
    && (forall t :: t in s.tasks ==> t in s.started)
    && (forall a ::
        a in s.blocked ==> a !in s.started && s.blocked[a] <= (set x | x in s.started) && |s.blocked[a]| == s.limit)
  }

  lemma NextConsistent(s: WG, turn: Turn)
    requires Consistent(s) && Enabled(s, turn)
    ensures Consistent(Next(s, turn))
  {
    match turn
    case Go(a) => if |s.tasks| != s.limit { DistinctAppend(s.started, a); }
    case Settle(t) =>
    case Resume(a) => DistinctAppend(s.started, a);
  }

  // ---- One caller that awaits each go ----

  /** The caller has one `go` outstanding at a time. */
  predicate Awaiting(s: WG, turn: Turn) { turn.Go? ==> s.blocked == map[] }

  /** At most `limit` tasks; the blocked `go`, if any, saw a full group, and since then
      tasks have only settled. */
  ghost predicate Bounded(s: WG) {
    && |s.tasks| <= s.limit
    && (forall a, b :: a in s.blocked && b in s.blocked ==> a == b)
    && (forall a :: a in s.blocked ==> s.tasks <= s.blocked[a])
  }

  lemma ProperSubset(a: set<Action>, b: set<Action>)
    requires a <= b && !(b <= a)
    ensures |a| < |b|
  {
    var x :| x in b && x !in a;
    SubsetSize(a, b - {x});
  }

  lemma {:induction false} SubsetSize(a: set<Action>, b: set<Action>)
    requires a <= b
    ensures |a| <= |b|
    decreases |a|
  {
    if a != {} {
      var x :| x in a;
      SubsetSize(a - {x}, b - {x});
    }
  }

  lemma NextBounded(s: WG, turn: Turn)
    requires Consistent(s) && Bounded(s) && Enabled(s, turn) && Awaiting(s, turn)
    ensures Bounded(Next(s, turn)) && Next(s, turn).limit == s.limit
  {
    match turn
    case Go(a) =>
    case Settle(t) =>
    case Resume(a) =>
      ProperSubset(s.tasks, s.blocked[a]);
      assert forall b :: b in s.blocked ==> b == a;
  }

  /** A run of the group: any enabled turns. */
  ghost predicate Run(turns: seq<Turn>, ss: seq<WG>) {
    && |ss| == |turns| + 1
    && forall i :: 0 <= i < |turns| ==> Enabled(ss[i], turns[i]) && ss[i + 1] == Next(ss[i], turns[i])
  }

  ghost predicate SingleCaller(turns: seq<Turn>, ss: seq<WG>)
    requires Run(turns, ss)
  {
    forall i :: 0 <= i < |turns| ==> Awaiting(ss[i], turns[i])
  }

  /** The actions passed to `go` so far, in order. */
  function Asked(turns: seq<Turn>): seq<Action> {
    if turns == [] then []
    else Asked(turns[..|turns| - 1]) + if turns[|turns| - 1].Go? then [turns[|turns| - 1].a] else []
  }

  /** What has been asked for has been started, in order, but for the one `go` awaiting. */
  ghost predicate InOrder(s: WG, asked: seq<Action>) {
    if s.blocked == map[] then s.started == asked
    else exists a :: a in s.blocked && asked == s.started + [a]
  }

  /** With one caller that awaits each `go`, every reachable state has at most `limit`
      tasks and a gauge equal to their number, and actions start exactly once, in the
      order they were asked for. */
  lemma {:induction false} WaitGroupBound(turns: seq<Turn>, ss: seq<WG>, limit: nat, i: nat)
    requires Run(turns, ss) && SingleCaller(turns, ss) && ss[0] == Fresh(limit) && i < |ss|
    ensures Consistent(ss[i]) && Bounded(ss[i]) && ss[i].limit == limit
    ensures InOrder(ss[i], Asked(turns[..i]))
  {
    if 0 < i {
      WaitGroupBound(turns, ss, limit, i - 1);
      assert Awaiting(ss[i - 1], turns[i - 1]) && Enabled(ss[i - 1], turns[i - 1]);
      assert ss[i - 1 + 1] == Next(ss[i - 1], turns[i - 1]);
      NextConsistent(ss[i - 1], turns[i - 1]);
      NextBounded(ss[i - 1], turns[i - 1]);
      assert turns[..i][..i - 1] == turns[..i - 1];
      NextInOrder(ss[i - 1], turns[i - 1], Asked(turns[..i - 1]));
    }
  }

  lemma NextInOrder(s: WG, turn: Turn, asked: seq<Action>)
    requires Bounded(s) && Enabled(s, turn) && Awaiting(s, turn) && InOrder(s, asked)
    ensures InOrder(Next(s, turn), asked + if turn.Go? then [turn.a] else [])
  {
    var s' := Next(s, turn);
    match turn
    case Go(a) =>
      if |s.tasks| == s.limit {
        assert a in s'.blocked;
      } else {
        assert s'.blocked == map[];
      }
    case Settle(t) => assert asked + [] == asked;
    case Resume(a) =>
      assert asked + [] == asked;
      assert s'.blocked == map[];
  }

  /** While tasks remain or the race has resolved, a blocked `go` can move on; with a
      limit of zero it never can. */
  lemma BlockedProgressIff(s: WG, a: Action)
    requires Consistent(s) && Bounded(s) && a in s.blocked
    ensures Awake(s, a) || s.tasks != {} <==> 1 <= s.limit
  {
    if 1 <= s.limit && s.tasks == {} {
      assert s.blocked[a] != {};
    }
  }

  /** `wait` awaits the tasks of the moment it is called; its caller starts none
      meanwhile, so when those are settled nothing is left. */
  lemma {:induction false} WaitDrains(turns: seq<Turn>, ss: seq<WG>, i: nat)
    requires Run(turns, ss) && ss[0].blocked == map[] && i < |ss|
    requires forall k :: 0 <= k < |turns| ==> turns[k].Settle?
    ensures ss[i].blocked == map[] && ss[i].tasks <= ss[0].tasks && ss[i].started == ss[0].started
    ensures ss[0].tasks * ss[i].tasks == {} ==> ss[i].tasks == {}
  {
    if 0 < i {
      WaitDrains(turns, ss, i - 1);
      assert ss[i - 1 + 1] == Next(ss[i - 1], turns[i - 1]) && turns[i - 1].Settle?;
    }
    if ss[0].tasks * ss[i].tasks == {} {
      assert ss[i].tasks == ss[0].tasks * ss[i].tasks;
    }
  }

  // ---- A second caller ----

  /** Tasks settle and blocked calls resume; nobody calls `go`. */
  ghost predicate Unattended(turns: seq<Turn>) { forall i :: 0 <= i < |turns| ==> !turns[i].Go? }

  /** Left alone, the group may come to run more than `limit` tasks. */
  ghost predicate CanExceed(s: WG) {
    exists turns: seq<Turn>, ss: seq<WG> :: Exceeding(s, turns, ss)
  }

  ghost predicate Exceeding(s: WG, turns: seq<Turn>, ss: seq<WG>) {
    Run(turns, ss) && Unattended(turns) && ss[0] == s && s.limit < |ss[|turns|].tasks|
  }

  lemma ExceedsNow(s: WG)
    requires s.limit < |s.tasks|
    ensures CanExceed(s)
  {
    assert Exceeding(s, [], [s]);
  }

  lemma ExceedsLater(s: WG, turn: Turn)
    requires Enabled(s, turn) && !turn.Go? && CanExceed(Next(s, turn))
    ensures CanExceed(s)
  {
    var turns: seq<Turn>, ss: seq<WG> :| Exceeding(Next(s, turn), turns, ss);
    ExceedingPrepend(s, turn, turns, ss);
  }

  lemma ExceedingPrepend(s: WG, turn: Turn, turns: seq<Turn>, ss: seq<WG>)
    requires Enabled(s, turn) && !turn.Go? && Exceeding(Next(s, turn), turns, ss)
    ensures Exceeding(s, [turn] + turns, [s] + ss)
  {
    var all, states := [turn] + turns, [s] + ss;
    forall i | 0 <= i < |all| ensures Enabled(states[i], all[i]) && states[i + 1] == Next(states[i], all[i]) {
      if 0 < i {
        assert all[i] == turns[i - 1] && states[i] == ss[i - 1] && states[i + 1] == ss[i - 1 + 1];
      }
    }
  }

  /** Two calls whose races have resolved both start, whoever else is running. */
  lemma TwoAwakeExceed(s: WG, a: Action, b: Action)
    requires Consistent(s) && a != b && Awake(s, a) && Awake(s, b) && s.limit <= |s.tasks| + 1
    ensures CanExceed(s)
  {
    var s1 := Started(s, a);
    var s2 := Started(s1, b);
    assert Awake(s1, b) by {
      var x :| x in s.blocked[b] && x !in s.tasks;
      assert x != a;
    }
    assert s2.tasks == s.tasks + {a} + {b};
    ExceedsNow(s2);
    ExceedsLater(s1, Resume(b));
    ExceedsLater(s, Resume(a));
  }

  lemma SameSize(a: set<Action>, b: set<Action>)
    requires a <= b && |a| == |b|
    ensures a == b
  {
    if a != b {
      ProperSubset(a, b);
    }
  }

  /** Two calls blocked on the same full group: one settled task wakes both. */
  lemma TwoBlockedExceed(s: WG, a: Action, b: Action, t: Action)
    requires Consistent(s) && a != b && a in s.blocked && b in s.blocked && |s.tasks| == s.limit && t in s.tasks
    requires t in s.blocked[a] || !(s.blocked[a] <= s.tasks)
    requires t in s.blocked[b] || !(s.blocked[b] <= s.tasks)
    ensures CanExceed(s)
  {
    var s1 := Settled(s, t);
    NextConsistent(s, Settle(t));
    TwoAwakeExceed(s1, a, b);
    ExceedsLater(s, Settle(t));
  }

  lemma FullGroupExceeds(s: WG, a: Action, b: Action)
    requires Consistent(s) && Bounded(s) && Unknown(s, a) && b in s.blocked && 1 <= s.limit == |s.tasks|
    ensures CanExceed(Called(s, a))
  {
    var t :| t in s.tasks;
    SameSize(s.tasks, s.blocked[b]);
    NextConsistent(s, Go(a));
    TwoBlockedExceed(Called(s, a), a, b, t);
  }

  lemma LastPlaceExceeds(s: WG, a: Action, b: Action)
    requires Consistent(s) && Bounded(s) && Unknown(s, a) && b in s.blocked && s.limit == |s.tasks| + 1
    ensures CanExceed(Called(s, a))
  {
    var s1 := Started(s, a);
    assert Awake(s1, b) by {
      if s.blocked[b] <= s1.tasks {
        assert s.blocked[b] <= s.tasks;
        SubsetSize(s.blocked[b], s.tasks);
        assert false;
      }
    }
    var s2 := Started(s1, b);
    assert s2.tasks == s.tasks + {a} + {b};
    ExceedsNow(s2);
    ExceedsLater(s1, Resume(b));
  }

  lemma Unblocked(s: WG, r: Action)
    requires r in s.blocked
    ensures |s.blocked - {r}| == |s.blocked| - 1
  {
    var m := s.blocked - {r};
    assert m[r := s.blocked[r]] == s.blocked;
  }

  /** Room for all: running and blocked together fit. */
  ghost predicate Roomy(s: WG) { |s.tasks| + |s.blocked| <= s.limit }

  lemma {:induction false} RoomySuffices(s: WG, turns: seq<Turn>, ss: seq<WG>, i: nat)
    requires Roomy(s) && Run(turns, ss) && Unattended(turns) && ss[0] == s && i <= |turns|
    ensures Roomy(ss[i]) && ss[i].limit == s.limit
  {
    if 0 < i {
      RoomySuffices(s, turns, ss, i - 1);
      var turn := turns[i - 1];
      assert Enabled(ss[i - 1], turn) && ss[i - 1 + 1] == Next(ss[i - 1], turn);
      if turn.Resume? {
        Unblocked(ss[i - 1], turn.r);
      }
    }
  }

  lemma {:induction false} BoundedSuffices(s: WG, turns: seq<Turn>, ss: seq<WG>, i: nat)
    requires Consistent(s) && Bounded(s) && Run(turns, ss) && Unattended(turns) && ss[0] == s && i <= |turns|
    ensures Consistent(ss[i]) && Bounded(ss[i]) && ss[i].limit == s.limit
  {
    if 0 < i {
      BoundedSuffices(s, turns, ss, i - 1);
      assert Enabled(ss[i - 1], turns[i - 1]) && ss[i - 1 + 1] == Next(ss[i - 1], turns[i - 1]);
      NextConsistent(ss[i - 1], turns[i - 1]);
      NextBounded(ss[i - 1], turns[i - 1]);
    }
  }

  lemma RoomyIsSafe(s: WG)
    requires Roomy(s)
    ensures !CanExceed(s)
  {
    forall turns: seq<Turn>, ss: seq<WG> ensures !Exceeding(s, turns, ss) {
      if Run(turns, ss) && Unattended(turns) && ss[0] == s {
        RoomySuffices(s, turns, ss, |turns|);
      }
    }
  }

  lemma BoundedIsSafe(s: WG)
    requires Consistent(s) && Bounded(s)
    ensures !CanExceed(s)
  {
    forall turns: seq<Turn>, ss: seq<WG> ensures !Exceeding(s, turns, ss) {
      if Run(turns, ss) && Unattended(turns) && ss[0] == s {
        BoundedSuffices(s, turns, ss, |turns|);
      }
    }
  }

  lemma AtMostOneBlocked(s: WG)
    requires Bounded(s)
    ensures |s.blocked| <= 1
  {
    if a :| a in s.blocked {
      assert s.blocked.Keys == {a};
    }
  }

  /** When a further `go` is safe. It can lead to more than `limit` tasks if and only if
      another `go` is blocked and at most one place is free; a limit of zero never starts
      anything. */
  lemma SecondCallExceedsIff(s: WG, a: Action)
    requires Consistent(s) && Bounded(s) && Unknown(s, a)
    ensures CanExceed(Called(s, a)) <==> s.blocked != map[] && 1 <= s.limit <= |s.tasks| + 1
  {
    if s.blocked == map[] {
      NextConsistent(s, Go(a));
      NextBounded(s, Go(a));
      BoundedIsSafe(Called(s, a));
    } else {
      var b :| b in s.blocked;
      SecondCaller(s, a, b);
    }
  }

  lemma SecondCaller(s: WG, a: Action, b: Action)
    requires Consistent(s) && Bounded(s) && Unknown(s, a) && b in s.blocked
    ensures CanExceed(Called(s, a)) <==> 1 <= s.limit <= |s.tasks| + 1
  {
    if s.limit == 0 {
      NeverStarts(s, a);
    } else if |s.tasks| == s.limit {
      FullGroupExceeds(s, a, b);
    } else if |s.tasks| + 1 == s.limit {
      LastPlaceExceeds(s, a, b);
    } else {
      AtMostOneBlocked(s);
      assert a !in s.blocked && s.blocked - {a} == s.blocked;
      RoomyIsSafe(Called(s, a));
    }
  }

  /** With a limit of zero there is nothing to settle and nothing to wake. */
  ghost predicate Idle(s: WG) { s.tasks == {} && forall a :: a in s.blocked ==> s.blocked[a] == {} }

  lemma NeverStarts(s: WG, a: Action)
    requires Consistent(s) && Bounded(s) && s.limit == 0
    ensures !CanExceed(Called(s, a))
  {
    var s1 := Called(s, a);
    assert Idle(s1);
    forall turns: seq<Turn>, ss: seq<WG> ensures !Exceeding(s1, turns, ss) {
      if Run(turns, ss) && Unattended(turns) && ss[0] == s1 {
        IdleStays(s1, turns, ss, if turns == [] then Settle(a) else turns[0]);
      }
    }
  }

  lemma IdleStays(s: WG, turns: seq<Turn>, ss: seq<WG>, first: Turn)
    requires Idle(s) && Run(turns, ss) && Unattended(turns) && ss[0] == s
    requires turns == [] || turns[0] == first
    ensures turns == []
  {
  }

  /** The least run that breaks the bound: two callers blocked on the same full group are
      both woken by one settled task and both start. */
  lemma TwoCallersExceed(s: WG, a: Action, b: Action)
    requires Consistent(s) && Bounded(s) && s.blocked == map[] && 1 <= s.limit == |s.tasks|
    requires Unknown(s, a) && Unknown(s, b) && a != b
    ensures CanExceed(Called(Called(s, a), b))
  {
    NextConsistent(s, Go(a));
    NextBounded(s, Go(a));
    SecondCallExceedsIff(Called(s, a), b);
  }
}
