/** `TokenProcessorProvider.process`
    (src/app-indexer/token-processor/token-processor.provider.ts): its tasks run
    concurrently, at most `workersCount` at a time, in any interleaving of their database
    and bus operations, and yet always end in the same place. */
module TokenProcessor {
  import opened Prelude
  import opened Ethnode
  import opened TokenTasks

  /** A task writes, then announces; either may throw, which ends the task. */
  datatype Stage = Ready | Written(inserted: bool) | Done(wrote: bool, sent: bool)

  /** The tasks started so far, each at its stage, and what they share. */
  datatype Pool = Pool(limit: nat, table: Table, bus: seq<Message>, tasks: seq<Task>, stages: seq<Stage>)

  /** The keys whose write throws, and those whose message cannot be sent. */
  datatype Faults = Faults(write: set<Key>, send: set<Key>)

  function Active(stages: seq<Stage>): nat {
    if stages == [] then 0 else Active(stages[..|stages| - 1]) + if stages[|stages| - 1].Done? then 0 else 1
  }

  function Work(stages: seq<Stage>): nat {
    if stages == [] then 0
    else
      Work(stages[..|stages| - 1]) +
      match stages[|stages| - 1] case Ready => 2 case Written(_) => 1 case Done(_, _) => 0
  }

  predicate Wrote(st: Stage) { st.Written? || (st.Done? && st.wrote) }

  /** The next operation of task `i`. */
  function Next(p: Pool, f: Faults, i: nat): Pool
    requires i < |p.tasks| == |p.stages| && !p.stages[i].Done?
  {
    var t := p.tasks[i];
    match p.stages[i]
    case Ready =>
      if t.key in f.write then p.(stages := p.stages[i := Done(false, false)])
      else p.(table := Upserted(p.table, t), stages := p.stages[i := Written(t.key !in p.table)])
    case Written(inserted) =>
      if (t.key.ContractKey? || inserted) && t.key !in f.send
      then p.(bus := p.bus + [t.message], stages := p.stages[i := Done(true, true)])
      else p.(stages := p.stages[i := Done(true, false)])
  }

  function Begin(p: Pool, t: Task): Pool { p.(tasks := p.tasks + [t], stages := p.stages + [Ready]) }

  /** A sent message of task `t`, when all goes as it may. */
  predicate Sends(t: Task, table0: Table, f: Faults) { Announces(t, table0) && t.key !in f.write && t.key !in f.send }

  /** The tasks are those of one call: distinct keys, messages naming them. */
  ghost predicate OneCall(p: Pool) {
    && |p.stages| == |p.tasks| && DistinctKeys(p.tasks)
    && forall i :: 0 <= i < |p.tasks| ==> p.tasks[i].message.key == p.tasks[i].key
  }

  ghost predicate StagesOk(p: Pool, f: Faults, table0: Table)
    requires |p.stages| == |p.tasks|
  {
    forall i :: 0 <= i < |p.tasks| ==> StageOk(p.tasks[i], p.stages[i], table0, f)
  }

  /** The table holds the old rows and those of the tasks that have written. */
  ghost predicate TableOk(p: Pool, table0: Table)
    requires |p.stages| == |p.tasks|
  {
    && (forall k :: k in p.table ==> k in table0 || WroteKey(p, k))
    && (forall k :: k in table0 ==> k in p.table && p.table[k] == table0[k])
    && (forall i :: 0 <= i < |p.tasks| && Wrote(p.stages[i]) ==>
          p.tasks[i].key in p.table && (p.tasks[i].key !in table0 ==> p.table[p.tasks[i].key] == p.tasks[i].row))
  }

  /** What every interleaving keeps. */
  ghost predicate Inv(p: Pool, f: Faults, table0: Table, bus0: seq<Message>) {
    && OneCall(p) && StagesOk(p, f, table0) && TableOk(p, table0)
    && bus0 <= p.bus && SentOnce(p, p.bus[|bus0|..])
  }

  ghost predicate StageOk(t: Task, st: Stage, table0: Table, f: Faults) {
    match st
    case Ready => true
    case Written(inserted) => t.key !in f.write && (inserted <==> t.key !in table0)
    case Done(wrote, sent) => (wrote <==> t.key !in f.write) && (sent <==> Sends(t, table0, f))
  }

  ghost predicate WroteKey(p: Pool, k: Key)
    requires |p.stages| == |p.tasks|
  {
    exists i :: 0 <= i < |p.tasks| && p.tasks[i].key == k && Wrote(p.stages[i])
  }

  predicate HasSent(st: Stage) { st.Done? && st.sent }

  ghost predicate SentOnce(p: Pool, out: seq<Message>)
    requires |p.stages| == |p.tasks|
  {
    && (forall i :: 0 <= i < |p.tasks| ==> multiset(out)[p.tasks[i].message] == if HasSent(p.stages[i]) then 1 else 0)
    && (forall m :: m in out ==> exists i :: 0 <= i < |p.tasks| && p.tasks[i].message == m)
  }

  // ---- Steps ----

  lemma {:induction false} WorkUpdate(stages: seq<Stage>, i: nat, st: Stage)
    requires i < |stages|
    ensures Work(stages[i := st]) == Work(stages)
      - (match stages[i] case Ready => 2 case Written(_) => 1 case Done(_, _) => 0)
      + (match st case Ready => 2 case Written(_) => 1 case Done(_, _) => 0)
  {
    var k := |stages| - 1;
    if i < k {
      WorkUpdate(stages[..k], i, st);
      assert stages[i := st][..k] == stages[..k][i := st];
    } else {
      assert stages[i := st][..k] == stages[..k];
    }
  }

  lemma {:induction false} ActiveUpdate(stages: seq<Stage>, i: nat, st: Stage)
    requires i < |stages|
    ensures Active(stages[i := st]) == Active(stages) - (if stages[i].Done? then 0 else 1) + (if st.Done? then 0 else 1)
  {
    var k := |stages| - 1;
    if i < k {
      ActiveUpdate(stages[..k], i, st);
      assert stages[i := st][..k] == stages[..k][i := st];
    } else {
      assert stages[i := st][..k] == stages[..k];
    }
  }

  lemma {:induction false} SomeActive(stages: seq<Stage>)
    requires 0 < Active(stages)
    ensures exists i :: 0 <= i < |stages| && !stages[i].Done?
  {
    var k := |stages| - 1;
    if stages[k].Done? {
      SomeActive(stages[..k]);
      var i :| 0 <= i < |stages[..k]| && !stages[..k][i].Done?;
      assert !stages[i].Done?;
    }
  }

  lemma {:induction false} NoneActive(stages: seq<Stage>)
    requires Active(stages) == 0
    ensures forall i :: 0 <= i < |stages| ==> stages[i].Done?
  {
    if stages != [] {
      NoneActive(stages[..|stages| - 1]);
    }
  }

  lemma NextShrinks(p: Pool, f: Faults, i: nat)
    requires i < |p.tasks| == |p.stages| && !p.stages[i].Done?
    ensures Work(Next(p, f, i).stages) < Work(p.stages) && Active(Next(p, f, i).stages) <= Active(p.stages)
    ensures Next(p, f, i).tasks == p.tasks && Next(p, f, i).limit == p.limit
  {
    var st := Next(p, f, i).stages[i];
    WorkUpdate(p.stages, i, st);
    ActiveUpdate(p.stages, i, st);
  }

  lemma DistinctMessages(p: Pool, i: nat, j: nat)
    requires DistinctKeys(p.tasks) && i < |p.tasks| && j < |p.tasks| && i != j
    requires forall k :: 0 <= k < |p.tasks| ==> p.tasks[k].message.key == p.tasks[k].key
    ensures p.tasks[i].key != p.tasks[j].key && p.tasks[i].message != p.tasks[j].message
  {
  }

  /** A task that is still ready finds its key as it was before the call. */
  lemma KeyUntouched(p: Pool, i: nat, table0: Table)
    requires OneCall(p) && TableOk(p, table0) && i < |p.tasks| && p.stages[i].Ready?
    ensures p.tasks[i].key in p.table <==> p.tasks[i].key in table0
  {
    forall j | 0 <= j < |p.tasks| && j != i ensures p.tasks[j].key != p.tasks[i].key {
      DistinctMessages(p, i, j);
    }
  }

  lemma WriteKeepsTable(p: Pool, f: Faults, i: nat, table0: Table)
    requires OneCall(p) && TableOk(p, table0) && i < |p.tasks| && p.stages[i].Ready?
    ensures TableOk(Next(p, f, i), table0)
  {
    var p', t := Next(p, f, i), p.tasks[i];
    KeyUntouched(p, i, table0);
    forall j | 0 <= j < |p.tasks| && j != i ensures p.tasks[j].key != t.key && p'.stages[j] == p.stages[j] {
      DistinctMessages(p, i, j);
    }
    forall k | k in p'.table && k !in table0 ensures WroteKey(p', k) {
      if k == t.key {
        assert p'.tasks[i].key == k && Wrote(p'.stages[i]);
      } else {
        var j :| 0 <= j < |p.tasks| && p.tasks[j].key == k && Wrote(p.stages[j]);
        assert p'.tasks[j].key == k && Wrote(p'.stages[j]);
      }
    }
  }

  lemma WriteKeeps(p: Pool, f: Faults, i: nat, table0: Table, bus0: seq<Message>)
    requires Inv(p, f, table0, bus0) && i < |p.tasks| && p.stages[i].Ready?
    ensures Inv(Next(p, f, i), f, table0, bus0)
  {
    KeyUntouched(p, i, table0);
    WriteKeepsTable(p, f, i, table0);
  }

  lemma SendKeepsTable(p: Pool, f: Faults, i: nat, table0: Table)
    requires OneCall(p) && TableOk(p, table0) && i < |p.tasks| && p.stages[i].Written?
    ensures TableOk(Next(p, f, i), table0)
  {
    var p' := Next(p, f, i);
    forall k | k in p'.table && k !in table0 ensures WroteKey(p', k) {
      var j :| 0 <= j < |p.tasks| && p.tasks[j].key == k && Wrote(p.stages[j]);
      assert p'.tasks[j].key == k && Wrote(p'.stages[j]);
    }
  }

  lemma SendKeepsBus(p: Pool, f: Faults, i: nat, out: seq<Message>, out': seq<Message>)
    requires OneCall(p) && i < |p.tasks| && p.stages[i].Written? && SentOnce(p, out)
    requires out' == out + if HasSent(Next(p, f, i).stages[i]) then [p.tasks[i].message] else []
    ensures SentOnce(Next(p, f, i), out')
  {
    forall j | 0 <= j < |p.tasks| && j != i ensures p.tasks[j].message != p.tasks[i].message {
      DistinctMessages(p, i, j);
    }
  }

  lemma SendKeeps(p: Pool, f: Faults, i: nat, table0: Table, bus0: seq<Message>)
    requires Inv(p, f, table0, bus0) && i < |p.tasks| && p.stages[i].Written?
    ensures Inv(Next(p, f, i), f, table0, bus0)
  {
    var p', t := Next(p, f, i), p.tasks[i];
    assert StageOk(t, p.stages[i], table0, f);
    SendKeepsTable(p, f, i, table0);
    SendKeepsBus(p, f, i, p.bus[|bus0|..], p'.bus[|bus0|..]);
  }

  lemma NextKeeps(p: Pool, f: Faults, i: nat, table0: Table, bus0: seq<Message>)
    requires Inv(p, f, table0, bus0) && i < |p.tasks| && !p.stages[i].Done?
    ensures Inv(Next(p, f, i), f, table0, bus0)
  {
    if p.stages[i].Ready? {
      WriteKeeps(p, f, i, table0, bus0);
    } else {
      SendKeeps(p, f, i, table0, bus0);
    }
  }

  /** Starting a task with a new key changes nothing yet. */
  lemma BeginKeeps(p: Pool, f: Faults, t: Task, table0: Table, bus0: seq<Message>)
    requires Inv(p, f, table0, bus0) && t.key !in Keys(p.tasks) && t.message.key == t.key
    ensures Inv(Begin(p, t), f, table0, bus0)
    ensures Active(Begin(p, t).stages) == Active(p.stages) + 1
  {
    var p' := Begin(p, t);
    assert p'.stages[..|p.stages|] == p.stages;
    forall i | 0 <= i < |p.tasks|
        ensures p.tasks[i].key != t.key && p'.tasks[i] == p.tasks[i] && p'.stages[i] == p.stages[i] {
      assert p.tasks[i] in p.tasks;
    }
    BeginKeepsTable(p, t, table0);
    BeginKeepsBus(p, t, p.bus[|bus0|..]);
  }

  lemma BeginKeepsTable(p: Pool, t: Task, table0: Table)
    requires |p.stages| == |p.tasks| && TableOk(p, table0)
    ensures TableOk(Begin(p, t), table0)
  {
    var p' := Begin(p, t);
    forall k | k in p'.table && k !in table0 ensures WroteKey(p', k) {
      var j :| 0 <= j < |p.tasks| && p.tasks[j].key == k && Wrote(p.stages[j]);
      assert p'.tasks[j].key == k && Wrote(p'.stages[j]);
    }
  }

  lemma BeginKeepsBus(p: Pool, t: Task, out: seq<Message>)
    requires OneCall(p) && SentOnce(p, out) && t.key !in Keys(p.tasks) && t.message.key == t.key
    ensures SentOnce(Begin(p, t), out)
  {
    var p' := Begin(p, t);
    forall i | 0 <= i < |p.tasks| ensures p.tasks[i].message != t.message {
      assert p.tasks[i] in p.tasks;
    }
    assert t.message !in out;
    forall m | m in out ensures exists i :: 0 <= i < |p'.tasks| && p'.tasks[i].message == m {
      var i :| 0 <= i < |p.tasks| && p.tasks[i].message == m;
      assert p'.tasks[i].message == m;
    }
  }

  // ---- The end ----

  /** The tasks whose key is not among these. */
  function Without(ts: seq<Task>, bad: set<Key>): seq<Task> {
    if ts == [] then []
    else Without(ts[..|ts| - 1], bad) + if ts[|ts| - 1].key in bad then [] else [ts[|ts| - 1]]
  }

  lemma {:induction false} WithoutIn(ts: seq<Task>, bad: set<Key>)
    ensures forall t :: t in Without(ts, bad) <==> t in ts && t.key !in bad
  {
    if ts != [] {
      WithoutIn(ts[..|ts| - 1], bad);
      assert ts == ts[..|ts| - 1] + [ts[|ts| - 1]];
    }
  }

  lemma {:induction false} WithoutDistinct(ts: seq<Task>, bad: set<Key>)
    requires DistinctKeys(ts)
    ensures DistinctKeys(Without(ts, bad))
  {
    if ts != [] {
      var init, last := ts[..|ts| - 1], ts[|ts| - 1];
      WithoutDistinct(init, bad);
      WithoutIn(init, bad);
      LastIsNew(ts);
      forall i | 0 <= i < |Without(init, bad)| ensures Without(init, bad)[i].key != last.key {
        assert Without(init, bad)[i] in init;
      }
    }
  }

  lemma {:induction false} WithoutNone(ts: seq<Task>)
    ensures Without(ts, {}) == ts
  {
    if ts != [] {
      WithoutNone(ts[..|ts| - 1]);
    }
  }

  /** What a call comes to: the tasks of its plan that do not fail, in any order. */
  function Outcome(p: Provider, es: seq<Event>, f: Faults): Provider {
    var plan := Plan(p.seen, es);
    Provider(SeenAfter(p.seen, es),
             Stored(p.table, Without(plan, f.write)),
             p.bus + multiset(Announced(p.table, Without(plan, f.write + f.send))))
  }

  /** Without failures that is the call the redelivery theorems are about. */
  lemma FaultlessOutcome(p: Provider, es: seq<Event>)
    ensures Outcome(p, es, Faults({}, {})) == Process(p, es)
  {
    var none: set<Key> := {};
    assert none + none == none;
    WithoutNone(Plan(p.seen, es));
  }

  /** Confluence: once all tasks are done, in whatever interleaving, the table is the old
      one plus each new key with its task's row, and the bus has gained exactly the
      messages of the tasks that announce, each once. */
  lemma AllDone(p: Pool, f: Faults, table0: Table, bus0: seq<Message>)
    requires Inv(p, f, table0, bus0) && Active(p.stages) == 0
    ensures p.table == Stored(table0, Without(p.tasks, f.write))
    ensures multiset(p.bus) == multiset(bus0) + multiset(Announced(table0, Without(p.tasks, f.write + f.send)))
  {
    NoneActive(p.stages);
    DoneTable(p, f, table0);
    DoneBus(p, f, table0, p.bus[|bus0|..]);
    assert p.bus == bus0 + p.bus[|bus0|..];
  }

  lemma DoneTable(p: Pool, f: Faults, table0: Table)
    requires OneCall(p) && StagesOk(p, f, table0) && TableOk(p, table0)
      && (forall i :: 0 <= i < |p.stages| ==> p.stages[i].Done?)
    ensures p.table == Stored(table0, Without(p.tasks, f.write))
  {
    var final := Stored(table0, Without(p.tasks, f.write));
    forall k ensures (k in p.table <==> k in final) && (k in p.table ==> p.table[k] == final[k]) {
      DoneTableAt(p, f, table0, k);
    }
  }

  lemma DoneBus(p: Pool, f: Faults, table0: Table, out: seq<Message>)
    requires OneCall(p) && StagesOk(p, f, table0) && SentOnce(p, out)
      && (forall i :: 0 <= i < |p.stages| ==> p.stages[i].Done?)
    ensures multiset(out) == multiset(Announced(table0, Without(p.tasks, f.write + f.send)))
  {
    forall m: Message ensures multiset(out)[m] == multiset(Announced(table0, Without(p.tasks, f.write + f.send)))[m] {
      DoneBusAt(p, f, table0, out, m);
    }
  }

  lemma DoneTableAt(p: Pool, f: Faults, table0: Table, k: Key)
    requires OneCall(p) && StagesOk(p, f, table0) && TableOk(p, table0)
      && (forall i :: 0 <= i < |p.stages| ==> p.stages[i].Done?)
    ensures
      var final := Stored(table0, Without(p.tasks, f.write));
      (k in p.table <==> k in final) && (k in p.table ==> p.table[k] == final[k])
  {
    var ts := Without(p.tasks, f.write);
    WithoutIn(p.tasks, f.write);
    WithoutDistinct(p.tasks, f.write);
    StoredAt(table0, ts, k);
    forall t | t in ts ensures t.key in p.table {
      var i :| 0 <= i < |p.tasks| && p.tasks[i] == t;
      assert StageOk(p.tasks[i], p.stages[i], table0, f);
    }
    if k !in table0 && k in p.table {
      var i :| 0 <= i < |p.tasks| && p.tasks[i].key == k && Wrote(p.stages[i]);
      assert StageOk(p.tasks[i], p.stages[i], table0, f);
      assert p.tasks[i] in ts;
      var j :| 0 <= j < |ts| && ts[j] == p.tasks[i];
    }
  }

  lemma DoneBusAt(p: Pool, f: Faults, table0: Table, out: seq<Message>, m: Message)
    requires OneCall(p) && StagesOk(p, f, table0) && SentOnce(p, out)
      && (forall i :: 0 <= i < |p.stages| ==> p.stages[i].Done?)
    ensures multiset(out)[m] == multiset(Announced(table0, Without(p.tasks, f.write + f.send)))[m]
  {
    var ts := Without(p.tasks, f.write + f.send);
    WithoutIn(p.tasks, f.write + f.send);
    WithoutDistinct(p.tasks, f.write + f.send);
    forall t | t in ts ensures t.message.key == t.key {
      var i :| 0 <= i < |p.tasks| && p.tasks[i] == t;
    }
    AnnouncedOnce(table0, ts, m);
    AnnouncedIn(table0, ts, m);
    if i :| 0 <= i < |p.tasks| && p.tasks[i].message == m {
      assert StageOk(p.tasks[i], p.stages[i], table0, f);
      OnlySender(p, i, ts);
    } else {
      assert m !in out;
    }
  }

  /** A message belongs to one task. */
  lemma OnlySender(p: Pool, i: nat, ts: seq<Task>)
    requires OneCall(p) && i < |p.tasks| && forall t :: t in ts ==> t in p.tasks
    ensures forall t :: t in ts && t.message == p.tasks[i].message ==> t == p.tasks[i]
  {
    forall j | 0 <= j < |p.tasks| && j != i ensures p.tasks[j].message != p.tasks[i].message {
      DistinctMessages(p, i, j);
    }
    forall t | t in ts && t.message == p.tasks[i].message ensures t == p.tasks[i] {
      var j :| 0 <= j < |p.tasks| && p.tasks[j] == t;
    }
  }

  // ---- The method ----

  lemma EmptyPool(limit: nat, f: Faults, table: Table, bus: seq<Message>)
    ensures Inv(Pool(limit, table, bus, [], []), f, table, bus)
  {
    assert bus[|bus|..] == [];
  }

  class TokenProcessorProvider {
    const workersCount: nat
    var contracts: set<Address>
    var table: Table
    var bus: seq<Message>

    constructor (workersCount: nat, table: Table)
      ensures this.workersCount == workersCount && this.table == table && contracts == {} && bus == []
    {
      this.workersCount, this.table, contracts, bus := workersCount, table, {}, [];
    }

    ghost function Seen(): set<Key>
      reads this
    {
      set c | c in contracts :: ContractKey(c)
    }

    ghost function Abs(): Provider
      reads this
    {
      Provider(Seen(), table, multiset(bus))
    }

    /** Any tasks make any progress. */
    method Interleave(p: Pool, f: Faults, ghost table0: Table, ghost bus0: seq<Message>) returns (p': Pool)
      requires Inv(p, f, table0, bus0)
      ensures Inv(p', f, table0, bus0) && p'.tasks == p.tasks && p'.limit == p.limit
        && Active(p'.stages) <= Active(p.stages)
    {
      p' := p;
      var more: bool := *;
      while more && 0 < Active(p'.stages)
        invariant Inv(p', f, table0, bus0) && p'.tasks == p.tasks && p'.limit == p.limit
          && Active(p'.stages) <= Active(p.stages)
        decreases Work(p'.stages)
      {
        SomeActive(p'.stages);
        var i :| 0 <= i < |p'.stages| && !p'.stages[i].Done?;
        NextKeeps(p', f, i, table0, bus0);
        NextShrinks(p', f, i);
        p' := Next(p', f, i);
        more := *;
      }
    }

    /** `wg.go`: with the group full, wait until some task is done. `hangs`: with a limit of
        zero the race is over no tasks and never resolves. */
    method Go(p: Pool, t: Task, f: Faults, ghost table0: Table, ghost bus0: seq<Message>)
      returns (p': Pool, hangs: bool)
      requires Active(p.stages) <= p.limit
      requires Inv(p, f, table0, bus0) && t.key !in Keys(p.tasks) && t.message.key == t.key
      ensures hangs <==> p.limit == 0
      ensures !hangs
        ==> Inv(p', f, table0, bus0) && p'.tasks == p.tasks + [t] && p'.limit == p.limit && Active(p'.stages) <= p.limit
    {
      hangs := p.limit == 0;
      if hangs {
        return p, true;
      }
      p' := Interleave(p, f, table0, bus0);
      while Active(p'.stages) == p'.limit
        invariant Inv(p', f, table0, bus0) && p'.tasks == p.tasks && p'.limit == p.limit && Active(p'.stages) <= p.limit
        decreases Work(p'.stages)
      {
        SomeActive(p'.stages);
        var i :| 0 <= i < |p'.stages| && !p'.stages[i].Done?;
        NextKeeps(p', f, i, table0, bus0);
        NextShrinks(p', f, i);
        p' := Next(p', f, i);
      }
      BeginKeeps(p', f, t, table0, bus0);
      p' := Begin(p', t);
    }

    /** `wg.wait`. */
    method Wait(p: Pool, f: Faults, ghost table0: Table, ghost bus0: seq<Message>) returns (p': Pool)
      requires Inv(p, f, table0, bus0)
      ensures Inv(p', f, table0, bus0) && p'.tasks == p.tasks && Active(p'.stages) == 0
    {
      p' := p;
      while 0 < Active(p'.stages)
        invariant Inv(p', f, table0, bus0) && p'.tasks == p.tasks
        decreases Work(p'.stages)
      {
        SomeActive(p'.stages);
        var i :| 0 <= i < |p'.stages| && !p'.stages[i].Done?;
        NextKeeps(p', f, i, table0, bus0);
        NextShrinks(p', f, i);
        p' := Next(p', f, i);
      }
    }

    /** Start the task of a candidate unless its key is known already. */
    method Consider(p: Pool, t: Task, known: bool, f: Faults,
                    ghost ts: seq<Task>, ghost seen: set<Key>, ghost table0: Table, ghost bus0: seq<Message>)
      returns (p': Pool, hangs: bool)
      requires Going(p, f, ts, seen, table0, bus0) && t.message.key == t.key
      requires known <==> t.key in seen || t.key in Keys(p.tasks)
      ensures hangs ==> p.limit == 0 && Dedup(ts + [t], seen) != []
      ensures !hangs ==> Going(p', f, ts + [t], seen, table0, bus0) && p'.limit == p.limit
      ensures !hangs ==> Keys(p'.tasks) == Keys(p.tasks) + if known then {} else {t.key}
    {
      NextCandidate(ts, t, seen);
      KeysAppend(p.tasks, t);
      if known {
        return p, false;
      }
      p', hangs := Go(p, t, f, table0, bus0);
    }

    /** One token of the loop below. */
    method ProcessToken(p: Pool, found: set<Key>, t: Task, f: Faults,
                        ghost ts: seq<Task>, ghost base: set<Key>, ghost seen: set<Key>,
                        ghost table0: Table, ghost bus0: seq<Message>)
      returns (p': Pool, found': set<Key>, hangs: bool)
      requires t.key.TokenKey? && t.message.key == t.key && Looping(p, found, f, ts, base, seen, table0, bus0)
      ensures hangs ==> p.limit == 0 && Dedup(ts + [t], seen) != []
      ensures !hangs ==> Looping(p', found', f, ts + [t], base, seen, table0, bus0) && p'.limit == p.limit
    {
      FoundStep(base, found, Keys(p.tasks), seen, t.key);
      p', hangs := Consider(p, t, t.key in found, f, ts, seen, table0, bus0);
      found' := found + {t.key};
    }

    /** The token loop of one event, whose candidates come after `ts`. */
    method ProcessTokens(p: Pool, found: set<Key>, e: Event, f: Faults,
                         ghost ts: seq<Task>, ghost base: set<Key>, ghost seen: set<Key>,
                         ghost table0: Table, ghost bus0: seq<Message>)
      returns (p': Pool, found': set<Key>, hangs: bool)
      requires Looping(p, found, f, ts, base, seen, table0, bus0)
      ensures hangs ==> p.limit == 0 && Dedup(ts + TokenTasksOf(e, |e.ids|), seen) != []
      ensures !hangs
        ==> Looping(p', found', f, ts + TokenTasksOf(e, |e.ids|), base, seen, table0, bus0) && p'.limit == p.limit
    {
      p', found', hangs := p, found, false;
      NoTokenYet(ts, e);
      for k := 0 to |e.ids|
        invariant Looping(p', found', f, ts + TokenTasksOf(e, k), base, seen, table0, bus0) && p'.limit == p.limit
          && !hangs
      {
        OneMoreToken(ts, e, k);
        p', found', hangs :=
          ProcessToken(p', found', TokenTask(e, e.ids[k]), f, ts + TokenTasksOf(e, k), base, seen, table0, bus0);
        if hangs {
          TokensGrow(ts, e, k + 1, seen);
          return;
        }
      }
    }

    /** `f` says which writes and which sends throw. However the tasks interleave, the
        call ends with every plan task that can write written, and every message that can
        be sent sent once. */
    method Process(events: seq<Event>, f: Faults) returns (hangs: bool)
      modifies this
      ensures hangs <==> workersCount == 0 && Plan(old(Seen()), events) != []
      ensures hangs ==> table == old(table) && bus == old(bus)
      ensures !hangs ==> Abs() == Outcome(old(Abs()), events, f)
    {
      ghost var seen, table0, bus0 := Seen(), table, bus;
      var p;
      p, hangs := ProcessEvents(events, f, seen);
      if hangs {
        return;
      }
      p := Wait(p, f, table0, bus0);
      AllDone(p, f, table0, bus0);
      table, bus := p.table, p.bus;
    }

    /** One event: its contract, unless met before, and then its tokens. */
    method ProcessEvent(p: Pool, found: set<Key>, e: Event, f: Faults, ghost ts: seq<Task>, ghost seen: set<Key>)
      returns (p': Pool, found': set<Key>, hangs: bool)
      requires Going(p, f, ts, seen, table, bus) && OnlyContracts(seen)
      requires FoundOk(found, Keys(p.tasks)) && ContractsOk(contracts, seen, Keys(p.tasks))
      modifies this`contracts
      ensures hangs ==> p.limit == 0 && Dedup(ts + CandidatesOf(e), seen) != []
      ensures !hangs ==> Going(p', f, ts + CandidatesOf(e), seen, table, bus) && p'.limit == p.limit
      ensures !hangs ==> FoundOk(found', Keys(p'.tasks)) && ContractsOk(contracts, seen, Keys(p'.tasks))
    {
      var c := ContractTask(e);
      Assoc(ts, [c], TokenTasksOf(e, |e.ids|));
      found' := found;
      var known := e.contractAddress in contracts;
      contracts := contracts + {e.contractAddress};
      p', hangs := Consider(p, c, known, f, ts, seen, table, bus);
      if hangs {
        DedupGrows(ts + [c], TokenTasksOf(e, |e.ids|), seen);
        return;
      }
      p', found', hangs := ProcessTokens(p', found, e, f, ts + [c], Keys(p'.tasks), seen, table, bus);
    }

    /** The loop over the events, starting each candidate that is new. */
    method ProcessEvents(events: seq<Event>, f: Faults, ghost seen: set<Key>) returns (p: Pool, hangs: bool)
      requires seen == Seen()
      modifies this`contracts
      ensures hangs ==> workersCount == 0 && Plan(seen, events) != []
      ensures !hangs ==> Going(p, f, Candidates(events), seen, table, bus) && p.limit == workersCount
      ensures !hangs ==> Seen() == SeenAfter(seen, events)
    {
      hangs := false;
      var found: set<Key> := {};
      p := Pool(workersCount, table, bus, [], []);
      EmptyPool(workersCount, f, table, bus);
      for i := 0 to |events|
        invariant Going(p, f, Candidates(events[..i]), seen, table, bus) && p.limit == workersCount && !hangs
        invariant FoundOk(found, Keys(p.tasks)) && ContractsOk(contracts, seen, Keys(p.tasks))
      {
        NextEvent(events, i);
        p, found, hangs := ProcessEvent(p, found, events[i], f, Candidates(events[..i]), seen);
        if hangs {
          PlanGrows(events, i + 1, seen);
          return;
        }
      }
      assert events[..|events|] == events;
      SeenIsAfter(contracts, seen, events);
    }
  }

  /** The candidates of one event. */
  function CandidatesOf(e: Event): seq<Task> { [ContractTask(e)] + TokenTasksOf(e, |e.ids|) }

  lemma NextEvent(events: seq<Event>, i: nat)
    requires i < |events|
    ensures Candidates(events[..i + 1]) == Candidates(events[..i]) + CandidatesOf(events[i])
  {
    assert events[..i + 1][..i] == events[..i];
  }

  /** The candidates `ts` have been considered, and the group is within its limit. */
  ghost predicate Going(p: Pool, f: Faults, ts: seq<Task>, seen: set<Key>, table0: Table, bus0: seq<Message>) {
    Inv(p, f, table0, bus0) && p.tasks == Dedup(ts, seen) && (p.limit == 0 ==> p.tasks == [])
      && Active(p.stages) <= p.limit
  }

  ghost predicate SameContracts(a: set<Key>, b: set<Key>) {
    forall k: Key :: k.ContractKey? ==> (k in a <==> k in b)
  }

  /** `foundTokens` holds the tokens of the tasks started. */
  ghost predicate FoundOk(found: set<Key>, started: set<Key>) {
    forall k: Key :: k in found <==> k.TokenKey? && k in started
  }

  /** Inside the token loop of one event: `base` were the keys before it. */
  ghost predicate Looping(p: Pool, found: set<Key>, f: Faults, ts: seq<Task>, base: set<Key>, seen: set<Key>,
                          table0: Table, bus0: seq<Message>)
  {
    && Going(p, f, ts, seen, table0, bus0) && OnlyContracts(seen)
    && FoundOk(found, Keys(p.tasks)) && SameContracts(base, Keys(p.tasks))
  }

  /** A key that is new stays part of the plan. */
  lemma {:induction false} DedupGrows(a: seq<Task>, b: seq<Task>, seen: set<Key>)
    requires Dedup(a, seen) != []
    ensures Dedup(a + b, seen) != []
  {
    if b == [] {
      AppendNone(a);
    } else {
      DedupGrows(a, b[..|b| - 1], seen);
      assert (a + b)[..|a + b| - 1] == a + b[..|b| - 1];
    }
  }

  lemma TokensGrow(ts: seq<Task>, e: Event, k: nat, seen: set<Key>)
    requires k <= |e.ids| && Dedup(ts + TokenTasksOf(e, k), seen) != []
    ensures Dedup(ts + TokenTasksOf(e, |e.ids|), seen) != []
    decreases |e.ids| - k
  {
    if k < |e.ids| {
      OneMoreToken(ts, e, k);
      DedupGrows(ts + TokenTasksOf(e, k), [TokenTask(e, e.ids[k])], seen);
      TokensGrow(ts, e, k + 1, seen);
    }
  }

  lemma PlanGrows(events: seq<Event>, k: nat, seen: set<Key>)
    requires k <= |events|
    ensures Plan(seen, events[..k]) != [] ==> Plan(seen, events) != []
  {
    CandidatesConcat(events[..k], events[k..]);
    assert events[..k] + events[k..] == events;
    if Plan(seen, events[..k]) != [] {
      DedupGrows(Candidates(events[..k]), Candidates(events[k..]), seen);
    }
  }

  lemma NoTokenYet(ts: seq<Task>, e: Event)
    ensures ts + TokenTasksOf(e, 0) == ts
  {
  }

  lemma OneMoreToken(ts: seq<Task>, e: Event, k: nat)
    requires k < |e.ids|
    ensures ts + TokenTasksOf(e, k + 1) == (ts + TokenTasksOf(e, k)) + [TokenTask(e, e.ids[k])]
  {
    Assoc(ts, TokenTasksOf(e, k), [TokenTask(e, e.ids[k])]);
  }

  lemma FoundStep(base: set<Key>, found: set<Key>, started: set<Key>, seen: set<Key>, key: Key)
    requires key.TokenKey? && OnlyContracts(seen) && FoundOk(found, started) && SameContracts(base, started)
    ensures key in found <==> key in seen || key in started
    ensures
      var started' := started + if key in found then {} else {key};
      FoundOk(found + {key}, started') && SameContracts(base, started')
  {
  }

  /** `contracts` holds the contracts met before and those of the tasks started. */
  ghost predicate ContractsOk(contracts: set<Address>, seen: set<Key>, started: set<Key>) {
    forall c: Address :: c in contracts <==> ContractKey(c) in seen || ContractKey(c) in started
  }

  lemma NextCandidate(ts: seq<Task>, t: Task, seen: set<Key>)
    ensures Dedup(ts + [t], seen) ==
      if t.key in seen || t.key in Keys(Dedup(ts, seen)) then Dedup(ts, seen) else Dedup(ts, seen) + [t]
  {
    assert (ts + [t])[..|ts|] == ts;
  }

  lemma SeenIsAfter(contracts: set<Address>, seen: set<Key>, es: seq<Event>)
    requires OnlyContracts(seen) && ContractsOk(contracts, seen, Keys(Plan(seen, es)))
    ensures (set c | c in contracts :: ContractKey(c)) == SeenAfter(seen, es)
  {
    CandidateKeys(es);
    forall k: Key ensures k in (set c | c in contracts :: ContractKey(c)) <==> k in SeenAfter(seen, es) {
      FirstIn(Candidates(es), k);
      StartedIffFirst(Candidates(es), seen, Task(k, ContractRow(ERC721, 0), Message(k, ERC721, 0)));
    }
  }
}
