/** Starting and stopping the reader
    (src/app-events-reader/events-reader/reader-tasks.provider.ts) over its state log
    (src/shared/events/state-log-repo.ts). */
module ReaderTasks {
  import opened Prelude

  datatype IndexType = NEW_ONLY | REINDEX

  type LogId = nat

  datatype StateLog = StateLog(blockFrom: Option<nat>, blockTo: Option<nat>, kind: IndexType, inProgress: bool,
    startAt: nat, endAt: Option<nat>)

  type Logs = map<LogId, StateLog>

  /** The fields a caller passes to `insertOrUpdate`; an absent one is left alone. */
  datatype Attributes = Attributes(
    id: Option<LogId>, blockFrom: Option<Option<nat>>, blockTo: Option<Option<nat>>, kind: Option<IndexType>,
    inProgress: Option<bool>, endAt: Option<nat>)

  /** The newest log, by `startAt`; of several it may be any. */
  ghost predicate IsCurrent(logs: Logs, r: Option<LogId>) {
    match r
    case None => logs == map[]
    case Some(id) => id in logs && forall k :: k in logs ==> logs[k].startAt <= logs[id].startAt
  }

  function Merge(log: StateLog, a: Attributes): StateLog {
    StateLog(
      if a.blockFrom.Some? then a.blockFrom.value else log.blockFrom,
      if a.blockTo.Some? then a.blockTo.value else log.blockTo,
      if a.kind.Some? then a.kind.value else log.kind,
      (a.inProgress.Some? && a.inProgress.value) || a.endAt.None?,
      log.startAt,
      if a.endAt.Some? then a.endAt else log.endAt)
  }

  /** The provider's state: the log, the abort signal and the clock. */
  datatype State = State(logs: Logs, aborted: bool, clock: nat)

  /** Where the newest log can be in progress, and only it; then the signal is clear. */
  ghost predicate Safe(s: State) {
    && (forall k :: k in s.logs ==> s.logs[k].startAt <= s.clock)
    && (forall j, k :: j in s.logs && k in s.logs && j != k ==> s.logs[j].startAt != s.logs[k].startAt)
    && (forall j, k :: j in s.logs && k in s.logs && s.logs[j].inProgress ==> s.logs[k].startAt <= s.logs[j].startAt)
    && (forall j :: j in s.logs && s.logs[j].inProgress ==> !s.aborted)
  }

  ghost predicate Running(s: State) { exists k :: k in s.logs && s.logs[k].inProgress }

  /** `x || null` on numbers: zero counts as absent. */
  function OrNull(x: Option<nat>): Option<nat> { if x == Some(0) then None else x }

  class ReaderTasksProvider {
    var logs: Logs
    var aborted: bool
    var clock: nat

    constructor ()
      ensures Abs() == State(map[], false, 0)
    {
      logs, aborted, clock := map[], false, 0;
    }

    ghost function Abs(): State
      reads this
    {
      State(logs, aborted, clock)
    }

    method GetCurrentLog() returns (r: Option<LogId>)
      ensures IsCurrent(logs, r)
    {
      r := None;
      var rest := logs.Keys;
      while rest != {}
        invariant rest <= logs.Keys
        invariant r.None? ==> rest == logs.Keys
        invariant r.Some? ==>
          r.value in logs && forall k :: k in logs && k !in rest ==> logs[k].startAt <= logs[r.value].startAt
        decreases |rest|
      {
        var id :| id in rest;
        if r.None? || logs[r.value].startAt < logs[id].startAt {
          r := Some(id);
        }
        rest := rest - {id};
      }
    }

    /** `uuid` is the identifier generated for a log without one; the clock has ticked
        since the last write. */
    method InsertOrUpdate(a: Attributes, uuid: LogId) returns (id: LogId)
      modifies this`logs, this`clock
      ensures id == if a.id.Some? then a.id.value else uuid
      ensures clock == old(clock) + 1
      ensures logs == old(logs)[id :=
        Merge(if id in old(logs) then old(logs)[id] else StateLog(None, None, NEW_ONLY, false, clock, None), a)]
      ensures
        var log := logs[id];
        && (a.blockFrom.Some? ==> log.blockFrom == a.blockFrom.value)
        && (a.blockTo.Some? ==> log.blockTo == a.blockTo.value)
        && (a.kind.Some? ==> log.kind == a.kind.value)
        && (a.endAt.Some? ==> log.endAt == a.endAt)
        && (log.inProgress <==> a.inProgress == Some(true) || a.endAt.None?)
      ensures id in old(logs) ==>
        var log, was := logs[id], old(logs)[id];
        && log.startAt == was.startAt && (a.blockFrom.None? ==> log.blockFrom == was.blockFrom)
        && (a.blockTo.None? ==> log.blockTo == was.blockTo) && (a.kind.None? ==> log.kind == was.kind)
        && (a.endAt.None? ==> log.endAt == was.endAt)
      ensures id !in old(logs) ==> logs[id].startAt == clock
    {
      id := if a.id.Some? then a.id.value else uuid;
      clock := clock + 1;
      var setProgress := if a.inProgress == Some(true) then true else if a.endAt.Some? then false else true;
      var log := if id in logs then logs[id] else StateLog(None, None, NEW_ONLY, false, clock, None);
      log := log.(inProgress := setProgress);
      if a.blockFrom.Some? {
        log := log.(blockFrom := a.blockFrom.value);
      }
      if a.blockTo.Some? {
        log := log.(blockTo := a.blockTo.value);
      }
      if a.kind.Some? {
        log := log.(kind := a.kind.value);
      }
      if a.endAt.Some? {
        log := log.(endAt := a.endAt);
      }
      logs := logs[id := log];
    }

    /** Refused exactly when some log is in progress; otherwise a new log is the one in
        progress and the signal is clear. */
    method StartReaderTask(blockFrom: Option<nat>, blockTo: Option<nat>, kind: Option<IndexType>, uuid: LogId)
      returns (r: Result<LogId>)
      requires Safe(Abs()) && uuid !in logs
      modifies this
      ensures Safe(Abs())
      ensures r.Err? <==> Running(old(Abs()))
      ensures r.Err? ==> Abs() == old(Abs())
      ensures r == Ok(uuid) || r == Err
      ensures r.Ok? ==> Abs() == State(
        old(logs)[uuid :=
          StateLog(OrNull(blockFrom), OrNull(blockTo), if kind.Some? then kind.value else NEW_ONLY, true,
                   old(clock) + 1, None)],
        false, old(clock) + 1)
      ensures r.Ok? ==>
        && (blockFrom.Some? && blockFrom.value != 0 ==> logs[uuid].blockFrom == blockFrom)
        && (blockTo.Some? && blockTo.value != 0 ==> logs[uuid].blockTo == blockTo)
        && (blockFrom.None? || blockFrom.value == 0 ==> logs[uuid].blockFrom == None)
        && (blockTo.None? || blockTo.value == 0 ==> logs[uuid].blockTo == None)
    {
      var current := GetCurrentLog();
      CurrentDecides(Abs(), current);
      if current.Some? && logs[current.value].inProgress {
        return Err;
      }
      aborted := false;
      var id := InsertOrUpdate(
        Attributes(None, Some(OrNull(blockFrom)), Some(OrNull(blockTo)),
                   Some(if kind.Some? then kind.value else NEW_ONLY), None, None), uuid);
      StartKeepsSafe(old(Abs()), Abs(), uuid);
      return Ok(id);
    }

    /** Refused exactly when no log is in progress; the signal is raised either way. */
    method StopReaderTask() returns (r: Result<LogId>)
      requires Safe(Abs())
      modifies this
      ensures Safe(Abs()) && aborted && !Running(Abs())
      ensures r.Ok? <==> Running(old(Abs()))
      ensures r.Err? ==> logs == old(logs)
      ensures r.Ok? ==> r.value in old(logs) && old(logs)[r.value].inProgress
      ensures r.Ok?
        ==> logs == old(logs)[r.value := old(logs)[r.value].(inProgress := false, endAt := Some(old(clock)))]
    {
      aborted := true;
      var current := GetCurrentLog();
      CurrentDecides(old(Abs()), current);
      if current.None? || !logs[current.value].inProgress {
        return Err;
      }
      var id := InsertOrUpdate(Attributes(current, None, None, None, Some(false), Some(clock)), 0);
      StopKeepsSafe(old(Abs()), Abs(), id);
      return Ok(id);
    }

    /** The task the loop should run: the log in progress, if any. */
    method GetActiveReaderTask() returns (r: Option<StateLog>)
      requires Safe(Abs())
      ensures r.Some? <==> Running(Abs())
      ensures r.Some? ==> r.value.inProgress && !aborted && exists k :: k in logs && logs[k] == r.value
    {
      var current := GetCurrentLog();
      CurrentDecides(Abs(), current);
      if current.None? || !logs[current.value].inProgress {
        return None;
      }
      return Some(logs[current.value]);
    }
  }

  /** Looking at the newest log alone decides whether any log is in progress. */
  lemma CurrentDecides(s: State, r: Option<LogId>)
    requires Safe(s) && IsCurrent(s.logs, r)
    ensures Running(s) <==> r.Some? && s.logs[r.value].inProgress
  {
    if Running(s) {
      var k :| k in s.logs && s.logs[k].inProgress;
      assert k == r.value;
    }
  }

  lemma StartKeepsSafe(s: State, s': State, id: LogId)
    requires Safe(s) && !Running(s) && id !in s.logs && !s'.aborted && s'.clock == s.clock + 1
    requires exists log: StateLog :: log.startAt == s'.clock && s'.logs == s.logs[id := log]
    ensures Safe(s')
  {
    var log: StateLog :| log.startAt == s'.clock && s'.logs == s.logs[id := log];
    assert forall k :: k in s.logs ==> !s.logs[k].inProgress;
  }

  lemma StopKeepsSafe(s: State, s': State, id: LogId)
    requires Safe(s) && id in s.logs && s.logs[id].inProgress && s'.clock == s.clock + 1
    requires exists log: StateLog ::
        log.startAt == s.logs[id].startAt && !log.inProgress && s'.logs == s.logs[id := log]
    ensures Safe(s') && !Running(s')
  {
    var log: StateLog :| log.startAt == s.logs[id].startAt && !log.inProgress && s'.logs == s.logs[id := log];
    assert forall k :: k in s.logs && k != id ==> !s.logs[k].inProgress;
  }

  // ---- Runs ----

  /** `Start` and `Stop` as the provider does them (`Stop` also when a range task ends by
      itself); `Reboot`: the process restarts with a fresh abort controller. */
  datatype Op = Start(uuid: LogId, log: StateLog) | Stop | Reboot

  ghost predicate Step(op: Op, s: State, s': State) {
    match op
    case Start(uuid, log) =>
      if Running(s) then s' == s
      else
        && uuid !in s.logs && log.inProgress && log.startAt == s.clock + 1
        && s' == State(s.logs[uuid := log], false, s.clock + 1)
    case Stop =>
      s'.aborted &&
      if !Running(s) then s'.logs == s.logs && s'.clock == s.clock
      else s'.clock == s.clock + 1 && exists k: LogId, at: nat ::
             k in s.logs && s.logs[k].inProgress
               && s'.logs == s.logs[k := s.logs[k].(inProgress := false, endAt := Some(at))]
    case Reboot => s' == s.(aborted := false)
  }

  /** Over any run of starts, stops and reboots, at most one log is in progress, it is the
      newest, and the abort signal is clear while it is. */
  lemma {:induction false} ReaderTaskSafety(ops: seq<Op>, ss: seq<State>, i: nat)
    requires |ss| == |ops| + 1 && ss[0] == State(map[], false, 0) && i < |ss|
    requires forall k :: 0 <= k < |ops| ==> Step(ops[k], ss[k], ss[k + 1])
    ensures Safe(ss[i])
    ensures forall j, k ::
        j in ss[i].logs && k in ss[i].logs && ss[i].logs[j].inProgress && ss[i].logs[k].inProgress ==> j == k
  {
    if 0 < i {
      ReaderTaskSafety(ops, ss, i - 1);
      StepKeepsSafe(ops[i - 1], ss[i - 1], ss[i]);
    }
  }

  lemma StepKeepsSafe(op: Op, s: State, s': State)
    requires Safe(s) && Step(op, s, s')
    ensures Safe(s')
  {
    match op
    case Start(uuid, log) => if !Running(s) { StartKeepsSafe(s, s', uuid); }
    case Stop =>
      if Running(s) {
        var k: LogId, at: nat :| k in s.logs && s.logs[k].inProgress
            && s'.logs == s.logs[k := s.logs[k].(inProgress := false, endAt := Some(at))];
        StopKeepsSafe(s, s', k);
      }
    case Reboot =>
  }
}
