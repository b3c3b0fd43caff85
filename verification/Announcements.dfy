/** When every range a range task logs is also announced: the log entry and the
    INDEX_BLOCK_RANGE message are two steps, and the task may die between them. */
module Announcements {
  import opened Prelude
  import opened Ethnode
  import opened BlocksQueue
  import opened Reader
  import opened CrashRecovery

  /** `pending`: the message of a range that was just logged. */
  datatype Announcer = Announcer(task: Task, pending: Option<IndexBlockRange>, bus: seq<IndexBlockRange>)

  function MessageOf(r: Record): IndexBlockRange { IndexBlockRange(false, r.from, r.to) }

  function Messages(q: Queue): seq<IndexBlockRange> {
    if q == [] then [] else Messages(q[..|q| - 1]) + [MessageOf(q[|q| - 1])]
  }

  ghost predicate Works(job: Job, a: Announcer, a': Announcer) {
    && a.pending.None? && a'.pending.None? && a'.bus == a.bus
    && (Restart(job, a.task, a'.task) || Begin(job, a.task, a'.task) || Insert(job, a.task, a'.task))
  }

  ghost predicate Logs(job: Job, a: Announcer, a': Announcer) {
    && a.pending.None? && a'.bus == a.bus && LogRange(job, a.task, a'.task)
    && a'.pending == Some(MessageOf(a'.task.queue[|a'.task.queue| - 1]))
  }

  ghost predicate Announces(a: Announcer, a': Announcer) {
    a.pending.Some? && a' == Announcer(a.task, None, a.bus + [a.pending.value])
  }

  ghost predicate Dies(a: Announcer, a': Announcer) {
    Crash(a.task, a'.task) && a'.pending.None? && a'.bus == a.bus
  }

  ghost predicate NextAt(job: Job, run: seq<Announcer>, i: nat)
    requires i + 1 < |run|
  {
    Works(job, run[i], run[i + 1]) || Logs(job, run[i], run[i + 1]) || Announces(run[i], run[i + 1])
      || Dies(run[i], run[i + 1])
  }

  ghost predicate AnnouncerRun(job: Job, run: seq<Announcer>) {
    && run != [] && run[0].pending.None? && run[0].bus == Messages(run[0].task.queue)
    && forall i: nat {:trigger NextAt(job, run, i)} :: i + 1 < |run| ==> NextAt(job, run, i)
  }

  /** The task dies between a log entry and its message. */
  ghost predicate LosesAt(run: seq<Announcer>, i: nat)
    requires i + 1 < |run|
  {
    run[i].pending.Some? && Dies(run[i], run[i + 1])
  }

  ghost predicate LostBy(run: seq<Announcer>, i: nat) { exists k: nat :: k < i && k + 1 < |run| && LosesAt(run, k) }

  /** Everything sent, and the message about to be. */
  function Due(a: Announcer): seq<IndexBlockRange> { a.bus + if a.pending.Some? then [a.pending.value] else [] }

  lemma MessagesAppend(q: Queue, r: Record)
    ensures Messages(q + [r]) == Messages(q) + [MessageOf(r)]
  {
    assert (q + [r])[..|q|] == q;
  }

  lemma {:induction false} MessagesLength(q: Queue)
    ensures |Messages(q)| == |q|
  {
    if q != [] {
      MessagesLength(q[..|q| - 1]);
    }
  }

  /** No step but a death with a message pending loses one. */
  lemma NextDue(job: Job, run: seq<Announcer>, i: nat)
    requires i + 1 < |run| && NextAt(job, run, i) && !LosesAt(run, i) && Due(run[i]) == Messages(run[i].task.queue)
    ensures Due(run[i + 1]) == Messages(run[i + 1].task.queue)
  {
    var a, a' := run[i], run[i + 1];
    if Logs(job, a, a') {
      MessagesAppend(a.task.queue, a'.task.queue[|a'.task.queue| - 1]);
    }
  }

  /** What is sent or due never outnumbers what is logged, and a lost message is never made
      up for. */
  lemma NextBehind(job: Job, run: seq<Announcer>, i: nat, lost: nat)
    requires i + 1 < |run| && NextAt(job, run, i) && |Due(run[i])| + lost <= |run[i].task.queue|
    ensures |Due(run[i + 1])| + lost <= |run[i + 1].task.queue|
    ensures LosesAt(run, i) ==> |Due(run[i + 1])| + lost + 1 <= |run[i + 1].task.queue|
  {
  }

  lemma {:induction false} DueOrBehind(job: Job, run: seq<Announcer>, i: nat)
    requires AnnouncerRun(job, run) && i < |run|
    ensures !LostBy(run, i) ==> Due(run[i]) == Messages(run[i].task.queue)
    ensures |Due(run[i])| + (if LostBy(run, i) then 1 else 0) <= |run[i].task.queue|
  {
    MessagesLength(run[0].task.queue);
    if 0 < i {
      DueOrBehind(job, run, i - 1);
      assert NextAt(job, run, i - 1);
      NextBehind(job, run, i - 1, if LostBy(run, i - 1) then 1 else 0);
      if !LostBy(run, i) {
        assert !LosesAt(run, i - 1);
        NextDue(job, run, i - 1);
      }
    }
  }

  /** The message of a record is the one `read` sends for its range. */
  lemma MessageOfRead(n: Node, from: nat, to: nat, s: State)
    ensures var t := Logged(n, from, to, false, false, s);
      t.bus == s.bus + [MessageOf(t.queue[|t.queue| - 1])]
  {
  }

  /** Over any run that starts with every logged range announced, say with none, and with any
      crashes, the messages sent are those of the ranges logged, in order, if and only if no
      message is pending and the task never died between a log entry and its message. No
      restart makes up for a lost one. */
  lemma AnnouncedIff(job: Job, run: seq<Announcer>, i: nat)
    requires AnnouncerRun(job, run) && i < |run|
    ensures run[i].bus == Messages(run[i].task.queue) <==> run[i].pending.None? && !LostBy(run, i)
  {
    DueOrBehind(job, run, i);
    MessagesLength(run[i].task.queue);
  }
}
