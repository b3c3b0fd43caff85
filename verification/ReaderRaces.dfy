/** Starts and stops of the reader that overlap
    (src/app-events-reader/events-reader/reader-tasks.provider.ts): a start looks at the
    newest log, then renews the abort signal, then writes its log; a stop raises the signal,
    then looks at the newest log, then ends it. Other calls may come in between. */
module ReaderRaces {
  import opened Prelude
  import opened ReaderTasks

  /** A start `p` looks, resets and writes; a stop `p` aborts, finds and ends. */
  datatype RaceOp =
    | Look(p: nat) | Reset(p: nat) | Write(p: nat, uuid: LogId, log: StateLog)
    | Abort(p: nat) | Find(p: nat) | End(p: nat, at: nat)
    | Rebooting

  /** `looked`: starts that found no log in progress. `cleared`: those that have also
      renewed the signal and will write. `aborting`: stops that have raised the signal and
      will look. `ending`: those that found a log in progress and will end it. */
  datatype Race = Race(state: State, looked: set<nat>, cleared: set<nat>, aborting: set<nat>, ending: map<nat, LogId>)

  function Written(s: State, uuid: LogId, log: StateLog): State { State(s.logs[uuid := log], s.aborted, s.clock + 1) }

  function Ended(s: State, id: LogId, at: nat): State
    requires id in s.logs
  {
    State(s.logs[id := s.logs[id].(inProgress := false, endAt := Some(at))], s.aborted, s.clock + 1)
  }

  ghost predicate Fits(s: State, uuid: LogId, log: StateLog)
  {
    uuid !in s.logs && log.inProgress && log.startAt == s.clock + 1
  }

  ghost predicate Looks(s: Race, p: nat, s': Race) {
    exists r: Option<LogId> :: IsCurrent(s.state.logs, r) &&
      s' == if r.Some? && s.state.logs[r.value].inProgress then s else s.(looked := s.looked + {p})
  }

  ghost predicate Finds(s: Race, p: nat, s': Race) {
    exists r: Option<LogId> :: IsCurrent(s.state.logs, r) &&
      s' == if r.Some? && s.state.logs[r.value].inProgress
            then s.(aborting := s.aborting - {p}, ending := s.ending[p := r.value])
            else s.(aborting := s.aborting - {p})
  }

  ghost predicate Happens(op: RaceOp, s: Race, s': Race) {
    match op
    case Look(p) => p !in s.looked && p !in s.cleared && Looks(s, p, s')
    case Reset(p) => p in s.looked
        && s' == s.(state := s.state.(aborted := false), looked := s.looked - {p}, cleared := s.cleared + {p})
    case Write(p, uuid, log) =>
      p in s.cleared && Fits(s.state, uuid, log)
        && s' == s.(state := Written(s.state, uuid, log), cleared := s.cleared - {p})
    case Abort(p) =>
      p !in s.aborting && p !in s.ending && s' == s.(state := s.state.(aborted := true), aborting := s.aborting + {p})
    case Find(p) => p in s.aborting && p !in s.ending && Finds(s, p, s')
    case End(p, at) =>
      p in s.ending && s.ending[p] in s.state.logs
      && s' == s.(state := Ended(s.state, s.ending[p], at), ending := s.ending - {p})
    case Rebooting => s' == Race(s.state.(aborted := false), {}, {}, {}, map[])
  }

  ghost predicate RaceRun(ops: seq<RaceOp>, ss: seq<Race>) {
    && |ss| == |ops| + 1
    && forall i: nat {:trigger HappensAt(ops, ss, i)} :: i < |ops| ==> HappensAt(ops, ss, i)
  }

  ghost predicate HappensAt(ops: seq<RaceOp>, ss: seq<Race>, i: nat)
    requires i < |ops| && |ss| == |ops| + 1
  {
    Happens(ops[i], ss[i], ss[i + 1])
  }

  // ---- One step ----

  ghost predicate IsNewest(s: State, id: LogId)
  {
    id in s.logs && forall k :: k in s.logs ==> s.logs[k].startAt <= s.logs[id].startAt
  }

  /** Start times are distinct and only the newest log can be in progress: `Safe` without
      the signal. */
  ghost predicate LogSafe(s: State) {
    && (forall k :: k in s.logs ==> s.logs[k].startAt <= s.clock)
    && (forall j, k :: j in s.logs && k in s.logs && j != k ==> s.logs[j].startAt != s.logs[k].startAt)
    && (forall j :: j in s.logs && s.logs[j].inProgress ==> IsNewest(s, j))
  }

  lemma SafeIsLogSafe(s: State)
    ensures Safe(s) <==> LogSafe(s) && !(Running(s) && s.aborted)
  {
  }

  /** A start's write keeps the log safe if and only if at that moment no log is in progress,
      whatever the start saw when it looked. */
  lemma WriteSafeIff(s: State, uuid: LogId, log: StateLog)
    requires LogSafe(s) && Fits(s, uuid, log)
    ensures LogSafe(Written(s, uuid, log)) <==> !Running(s)
  {
    var s' := Written(s, uuid, log);
    if Running(s) {
      var k :| k in s.logs && s.logs[k].inProgress;
      assert k in s'.logs && s'.logs[k].inProgress && s'.logs[k].startAt < s'.logs[uuid].startAt;
      assert !IsNewest(s', k);
    } else {
      forall j | j in s'.logs && s'.logs[j].inProgress ensures IsNewest(s', j) {
        assert j == uuid;
      }
    }
  }

  lemma WriteRuns(s: State, uuid: LogId, log: StateLog)
    requires LogSafe(s) && Fits(s, uuid, log)
    ensures Running(Written(s, uuid, log))
    ensures forall k :: k in s.logs ==> !IsNewest(Written(s, uuid, log), k)
  {
    var s' := Written(s, uuid, log);
    assert s'.logs[uuid].inProgress;
    forall k | k in s.logs ensures !IsNewest(s', k) {
      assert s'.logs[k].startAt < s'.logs[uuid].startAt;
    }
  }

  /** Ending a log keeps the log safe. Nothing is in progress afterwards if it was the newest;
      otherwise nothing changes in that. */
  lemma EndKeeps(s: State, id: LogId, at: nat)
    requires LogSafe(s) && id in s.logs
    ensures LogSafe(Ended(s, id, at))
    ensures Running(Ended(s, id, at)) <==> Running(s) && !IsNewest(s, id)
    ensures forall k :: IsNewest(Ended(s, id, at), k) <==> IsNewest(s, k)
  {
    var s' := Ended(s, id, at);
    forall k ensures IsNewest(s', k) <==> IsNewest(s, k) {
      if k in s.logs {
        assert forall j :: j in s.logs ==> s'.logs[j].startAt == s.logs[j].startAt;
      }
    }
    EndRuns(s, id, at);
  }

  lemma EndRuns(s: State, id: LogId, at: nat)
    requires LogSafe(s) && id in s.logs
    ensures Running(Ended(s, id, at)) <==> Running(s) && !IsNewest(s, id)
  {
    var s' := Ended(s, id, at);
    if Running(s) {
      var k :| k in s.logs && s.logs[k].inProgress;
      assert IsNewest(s, k);
      if !IsNewest(s, id) {
        assert k in s'.logs && s'.logs[k].inProgress;
      }
    }
    if Running(s') {
      var k :| k in s'.logs && s'.logs[k].inProgress;
      assert k in s.logs && s.logs[k].inProgress && k != id;
      assert IsNewest(s, k);
    }
  }

  // ---- Runs ----

  /** Read off the order of the calls alone. A stop that found its log, and no start has
      written since. */
  function UpToDate(ops: seq<RaceOp>, p: nat): bool {
    if ops == [] then false
    else match ops[|ops| - 1]
      case Find(q) => q == p || UpToDate(ops[..|ops| - 1], p)
      case Write(_, _, _) => false
      case _ => UpToDate(ops[..|ops| - 1], p)
  }

  /** A log is in progress after a write, until a stop ends it that had found it. */
  function InProgressAfter(ops: seq<RaceOp>, running: bool): bool {
    if ops == [] then running
    else
      var init := ops[..|ops| - 1];
      match ops[|ops| - 1]
      case Write(_, _, _) => true
      case End(p, _) => InProgressAfter(init, running) && !UpToDate(init, p)
      case _ => InProgressAfter(init, running)
  }

  /** The signal is raised after a stop's first step, until a reset or a reboot. */
  function RaisedAfter(ops: seq<RaceOp>, aborted: bool): bool {
    if ops == [] then aborted
    else match ops[|ops| - 1]
      case Abort(_) => true
      case Reset(_) => false
      case Rebooting => false
      case _ => RaisedAfter(ops[..|ops| - 1], aborted)
  }

  /** No start writes while a log is in progress. */
  ghost predicate WritesInOrder(ops: seq<RaceOp>, running: bool) {
    forall j: nat {:trigger InOrderAt(ops, j, running)} :: j < |ops| ==> InOrderAt(ops, j, running)
  }

  ghost predicate InOrderAt(ops: seq<RaceOp>, j: nat, running: bool)
    requires j < |ops|
  {
    ops[j].Write? ==> !InProgressAfter(ops[..j], running)
  }

  /** A stop about to end a log knows the newest one exactly if it is up to date. */
  ghost predicate Aims(ops: seq<RaceOp>, s: Race) {
    forall p :: p in s.ending ==> s.ending[p] in s.state.logs && (IsNewest(s.state, s.ending[p]) <==> UpToDate(ops, p))
  }

  /** What the order of the calls tells about the state. */
  ghost predicate Told(ops: seq<RaceOp>, first: Race, s: Race) {
    && Running(s.state) == InProgressAfter(ops, Running(first.state))
    && s.state.aborted == RaisedAfter(ops, first.state.aborted)
    && Aims(ops, s)
  }

  lemma LookTold(ops: seq<RaceOp>, op: RaceOp, first: Race, s: Race, s': Race)
    requires Told(ops, first, s) && Happens(op, s, s') && !op.Write? && !op.End? && !op.Find?
    ensures Told(ops + [op], first, s') && s'.state.logs == s.state.logs && s'.state.clock == s.state.clock
  {
    assert (ops + [op])[..|ops|] == ops;
    assert s'.state.logs == s.state.logs;
    SameNewest(s.state, s'.state);
  }

  lemma SameNewest(s: State, s': State)
    requires s'.logs == s.logs
    ensures Running(s') == Running(s) && forall id :: IsNewest(s', id) <==> IsNewest(s, id)
  {
  }

  lemma FindsNewest(s: Race, p: nat, s': Race)
    requires Finds(s, p, s') && p !in s.ending
    ensures s'.state == s.state
    ensures forall q ::
        q in s'.ending
        ==> if q == p then IsNewest(s.state, s'.ending[q]) else q in s.ending && s'.ending[q] == s.ending[q]
  {
    var r: Option<LogId> :| IsCurrent(s.state.logs, r) &&
      s' == if r.Some? && s.state.logs[r.value].inProgress
            then s.(aborting := s.aborting - {p}, ending := s.ending[p := r.value])
            else s.(aborting := s.aborting - {p});
  }

  lemma FindTold(ops: seq<RaceOp>, p: nat, first: Race, s: Race, s': Race)
    requires Told(ops, first, s) && Happens(Find(p), s, s')
    ensures Told(ops + [Find(p)], first, s') && s'.state == s.state
  {
    assert (ops + [Find(p)])[..|ops|] == ops;
    FindsNewest(s, p, s');
  }

  lemma WriteTold(ops: seq<RaceOp>, op: RaceOp, first: Race, s: Race, s': Race)
    requires LogSafe(s.state) && Told(ops, first, s) && op.Write? && Happens(op, s, s')
    ensures Told(ops + [op], first, s')
  {
    assert (ops + [op])[..|ops|] == ops;
    WriteRuns(s.state, op.uuid, op.log);
  }

  lemma EndTold(ops: seq<RaceOp>, op: RaceOp, first: Race, s: Race, s': Race)
    requires LogSafe(s.state) && Told(ops, first, s) && op.End? && Happens(op, s, s')
    ensures Told(ops + [op], first, s') && LogSafe(s'.state)
  {
    assert (ops + [op])[..|ops|] == ops;
    EndKeeps(s.state, s.ending[op.p], op.at);
  }

  /** Every step keeps what is told; only a write can make the log unsafe. */
  lemma StepTold(ops: seq<RaceOp>, op: RaceOp, first: Race, s: Race, s': Race)
    requires LogSafe(s.state) && Told(ops, first, s) && Happens(op, s, s')
    ensures Told(ops + [op], first, s')
    ensures !op.Write? ==> LogSafe(s'.state)
  {
    if op.Write? {
      WriteTold(ops, op, first, s, s');
    } else if op.End? {
      EndTold(ops, op, first, s, s');
    } else if op.Find? {
      FindTold(ops, op.p, first, s, s');
    } else {
      LookTold(ops, op, first, s, s');
      SameNewest(s.state, s'.state);
    }
  }

  ghost predicate SafeUpTo(ss: seq<Race>, i: nat) { i < |ss| && forall j :: 0 <= j <= i ==> LogSafe(ss[j].state) }

  /** The run begins with no stop under way. */
  ghost predicate Begins(ss: seq<Race>) { ss != [] && ss[0].ending == map[] && LogSafe(ss[0].state) }

  /** As long as the log is safe, the order of the calls tells whether a log is in progress
      and whether the signal is raised. */
  lemma {:induction false} OrderTells(ops: seq<RaceOp>, ss: seq<Race>, i: nat)
    requires RaceRun(ops, ss) && Begins(ss) && i <= |ops| && (i == 0 || SafeUpTo(ss, i - 1))
    ensures Told(ops[..i], ss[0], ss[i])
  {
    if 0 < i {
      OrderTells(ops, ss, i - 1);
      assert HappensAt(ops, ss, i - 1);
      StepTold(ops[..i - 1], ops[i - 1], ss[0], ss[i - 1], ss[i]);
      assert ops[..i] == ops[..i - 1] + [ops[i - 1]];
    }
  }

  lemma NextSafeIff(ops: seq<RaceOp>, ss: seq<Race>, i: nat)
    requires RaceRun(ops, ss) && Begins(ss) && i < |ops| && SafeUpTo(ss, i)
    ensures LogSafe(ss[i + 1].state) <==> InOrderAt(ops, i, Running(ss[0].state))
  {
    assert HappensAt(ops, ss, i);
    OrderTells(ops, ss, i);
    if ops[i].Write? {
      WriteSafeIff(ss[i].state, ops[i].uuid, ops[i].log);
    } else {
      StepTold(ops[..i], ops[i], ss[0], ss[i], ss[i + 1]);
    }
  }

  lemma {:induction false} OrderKeepsSafe(ops: seq<RaceOp>, ss: seq<Race>, i: nat)
    requires RaceRun(ops, ss) && Begins(ss) && i <= |ops| && WritesInOrder(ops, Running(ss[0].state))
    ensures SafeUpTo(ss, i)
  {
    if 0 < i {
      OrderKeepsSafe(ops, ss, i - 1);
      NextSafeIff(ops, ss, i - 1);
      assert InOrderAt(ops, i - 1, Running(ss[0].state));
    }
  }

  /** Overlapping starts and stops: at most one log is in progress, the newest, in every
      state of a run if and only if no start writes while a log is in progress, that is,
      after another start's write without a stop in between that found and ended its log. */
  lemma RaceSafeIff(ops: seq<RaceOp>, ss: seq<Race>)
    requires RaceRun(ops, ss) && Begins(ss)
    ensures SafeUpTo(ss, |ops|) <==> WritesInOrder(ops, Running(ss[0].state))
  {
    if WritesInOrder(ops, Running(ss[0].state)) {
      OrderKeepsSafe(ops, ss, |ops|);
    }
    if SafeUpTo(ss, |ops|) {
      forall j: nat | j < |ops| ensures InOrderAt(ops, j, Running(ss[0].state)) {
        NextSafeIff(ops, ss, j);
      }
    }
  }

  /** With the writes in order, the log and the signal then agree as the order of the calls
      says: a task in progress has been told to stop exactly when a write is not yet ended
      and an abort not yet reset; a task whose log has ended goes on unaware exactly when the
      write is ended and the signal was reset after the last abort, or never raised. */
  lemma SignalIff(ops: seq<RaceOp>, ss: seq<Race>)
    requires RaceRun(ops, ss) && Begins(ss) && WritesInOrder(ops, Running(ss[0].state))
    ensures
      var s := ss[|ops|].state;
      var running, raised := InProgressAfter(ops, Running(ss[0].state)), RaisedAfter(ops, ss[0].state.aborted);
      && (Safe(s) <==> !(running && raised))
      && (!Running(s) && !s.aborted <==> !running && !raised)
  {
    OrderKeepsSafe(ops, ss, |ops|);
    OrderTells(ops, ss, |ops|);
    assert ops[..|ops|] == ops;
    SafeIsLogSafe(ss[|ops|].state);
  }

  /** A start whose three steps are not interrupted is the atomic start. */
  lemma UninterruptedStart(s: Race, s1: Race, s2: Race, s3: Race, p: nat, uuid: LogId, log: StateLog)
    requires Safe(s.state) && !Running(s.state)
    requires Happens(Look(p), s, s1) && Happens(Reset(p), s1, s2) && Happens(Write(p, uuid, log), s2, s3)
    ensures Step(Start(uuid, log), s.state, s3.state)
  {
    var r: Option<LogId> :| IsCurrent(s.state.logs, r) &&
      s1 == if r.Some? && s.state.logs[r.value].inProgress then s else s.(looked := s.looked + {p});
    CurrentDecides(s.state, r);
  }

  /** So is a stop, of two steps if it finds no log in progress. */
  lemma UninterruptedStop(s: Race, s1: Race, s2: Race, s3: Race, p: nat, at: nat)
    requires Safe(s.state) && Happens(Abort(p), s, s1) && Happens(Find(p), s1, s2)
    ensures p in s2.ending <==> Running(s.state)
    ensures p !in s2.ending ==> Step(Stop, s.state, s2.state)
    ensures p in s2.ending && Happens(End(p, at), s2, s3) ==> Step(Stop, s.state, s3.state)
  {
    var r: Option<LogId> :| IsCurrent(s1.state.logs, r) &&
      s2 == if r.Some? && s1.state.logs[r.value].inProgress
            then s1.(aborting := s1.aborting - {p}, ending := s1.ending[p := r.value])
            else s1.(aborting := s1.aborting - {p});
    CurrentDecides(s.state, r);
  }

  // ---- Three races ----

  const NOBODY := Quiet(State(map[], false, 0))

  function Quiet(s: State): Race { Race(s, {}, {}, {}, map[]) }

  function NewLog(at: nat): StateLog { StateLog(None, None, NEW_ONLY, true, at, None) }

  lemma LookFinds(s: Race, p: nat)
    requires s.state.logs == map[]
    ensures Looks(s, p, s.(looked := s.looked + {p}))
    ensures Finds(s, p, s.(aborting := s.aborting - {p}))
  {
    assert IsCurrent(s.state.logs, None);
  }

  const BOTH := State(map[0 := NewLog(1), 1 := NewLog(2)], false, 2)

  /** Two starts that both look before either writes: both logs end in progress. */
  lemma RacingStarts()
    ensures
      var ops := [Look(0), Look(1), Reset(0), Reset(1), Write(0, 0, NewLog(1)), Write(1, 1, NewLog(2))];
      exists ss: seq<Race> :: RaceRun(ops, ss) && ss[0] == NOBODY && ss[6].state == BOTH
    ensures !LogSafe(BOTH)
  {
    var none: Logs := map[];
    var a := NOBODY.(looked := {0});
    var b := NOBODY.(looked := {0, 1});
    var c := NOBODY.(looked := {1}, cleared := {0});
    var d := NOBODY.(cleared := {0, 1});
    var e := Quiet(State(map[0 := NewLog(1)], false, 1)).(cleared := {1});
    LookFinds(NOBODY, 0);
    LookFinds(a, 1);
    assert RaceRun([Look(0), Look(1), Reset(0), Reset(1), Write(0, 0, NewLog(1)), Write(1, 1, NewLog(2))],
                   [NOBODY, a, b, c, d, e, Quiet(BOTH)]);
    assert BOTH.logs[0].inProgress && BOTH.logs[1].startAt == 2;
    assert !IsNewest(BOTH, 0);
  }

  /** A stop between a start's reset and its write is refused but leaves the signal raised
      on the new task. */
  lemma StopDuringStart()
    ensures
      var ops := [Look(0), Reset(0), Abort(1), Find(1), Write(0, 0, NewLog(1))];
      exists ss: seq<Race> :: RaceRun(ops, ss) && ss[0] == NOBODY && ss[5] == Quiet(State(map[0 := NewLog(1)], true, 1))
  {
    var none: Logs := map[];
    var a := NOBODY.(looked := {0});
    var b := NOBODY.(cleared := {0});
    var c := Race(State(none, true, 0), {}, {0}, {1}, map[]);
    var d := Race(State(none, true, 0), {}, {0}, {}, map[]);
    LookFinds(NOBODY, 0);
    LookFinds(c, 1);
    assert RaceRun([Look(0), Reset(0), Abort(1), Find(1), Write(0, 0, NewLog(1))],
                   [NOBODY, a, b, c, d, Quiet(State(map[0 := NewLog(1)], true, 1))]);
  }

  /** A stop that aborts before a start's reset and looks after its write ends the new log
      while the signal of its task stays clear: the task goes on. */
  lemma StartDuringStop()
    ensures
      var ops := [Look(0), Abort(1), Reset(0), Write(0, 0, NewLog(1)), Find(1), End(1, 1)];
      exists ss: seq<Race> :: RaceRun(ops, ss) && ss[0] == NOBODY
        && ss[6] == Quiet(Ended(State(map[0 := NewLog(1)], false, 1), 0, 1))
  {
    var none: Logs := map[];
    var one := State(map[0 := NewLog(1)], false, 1);
    var a := NOBODY.(looked := {0});
    var b := Race(State(none, true, 0), {0}, {}, {1}, map[]);
    var c := Race(State(none, false, 0), {}, {0}, {1}, map[]);
    var d := Race(one, {}, {}, {1}, map[]);
    var e := Race(one, {}, {}, {}, map[1 := 0]);
    LookFinds(NOBODY, 0);
    assert IsCurrent(one.logs, Some(0));
    assert RaceRun([Look(0), Abort(1), Reset(0), Write(0, 0, NewLog(1)), Find(1), End(1, 1)],
                   [NOBODY, a, b, c, d, e, Quiet(Ended(one, 0, 1))]);
  }
}
