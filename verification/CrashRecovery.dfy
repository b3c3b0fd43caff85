/** A NEW_ONLY range task that may die at any moment: before or after any single insert
    of a bulk write, between the write and the log entry, or after the last chunk. */
module CrashRecovery {
  import opened Prelude
  import opened Ethnode
  import opened EventStore
  import opened BlocksQueue
  import opened Reader
  import opened Reorg
  import opened RangeTask
  import opened ExampleChains

  /** `Down`: not running. `Ready`: about to read the chunk from a block. `Writing`: `k`
      events of the chunk inserted. `Failed`: an insert met a taken id and threw. */
  datatype Phase = Down | Ready(from: nat) | Writing(from: nat, to: nat, k: nat) | Complete | Failed

  datatype Task = Task(store: Store, queue: Queue, phase: Phase)

  /** What the task is asked to do. */
  datatype Job = Job(node: Node, lo: nat, blockTo: nat, limit: nat)

  function ChunkEnd(job: Job, from: nat): nat {
    if from + job.limit > job.blockTo then job.blockTo else from + job.limit
  }

  function Chunk(job: Job, from: nat, to: nat): seq<Event> { RangeEvents(job.node, from, to + 1) }

  ghost predicate Restart(job: Job, t: Task, t': Task) {
    && t.phase.Down?
    && var s := ResumeState(State(t.store, t.queue, []), job.blockTo, false);
       t' == Task(s.store, t.queue, Ready(ResumeFrom(t.queue, Some(job.lo), job.blockTo, false)))
  }

  ghost predicate Begin(job: Job, t: Task, t': Task) {
    && t.phase.Ready?
    && t' == t.(phase := Writing(t.phase.from, ChunkEnd(job, t.phase.from), 0))
  }

  ghost predicate Insert(job: Job, t: Task, t': Task) {
    && t.phase.Writing?
    && var es := Chunk(job, t.phase.from, t.phase.to);
       && t.phase.k < |es|
       && var e := es[t.phase.k];
          t' == if IdOf(e) in t.store then t.(phase := Failed)
                else t.(store := t.store[IdOf(e) := DocOf(e)],
                        phase := Writing(t.phase.from, t.phase.to, t.phase.k + 1))
  }

  ghost predicate LogRange(job: Job, t: Task, t': Task) {
    && t.phase.Writing?
    && t.phase.k == |Chunk(job, t.phase.from, t.phase.to)|
    && t' == Task(t.store, t.queue + [Record(t.phase.from, t.phase.to, None, false)],
                  if t.phase.to == job.blockTo then Complete else Ready(t.phase.to + 1))
  }

  ghost predicate Crash(t: Task, t': Task) { t' == t.(phase := Down) }

  ghost predicate Next(job: Job, t: Task, t': Task) {
    Restart(job, t, t') || Begin(job, t, t') || Insert(job, t, t') || LogRange(job, t, t') || Crash(t, t')
  }

  /** The chunk it begins is the first that the task's loop reads from there. */
  lemma ChunkIsFirst(job: Job, from: nat)
    ensures Ranges(from, job.blockTo, job.limit)[0] == (from, ChunkEnd(job, from))
  {
  }

  // ---- What a run keeps ----

  /** Where a restart would resume. */
  function Point(job: Job, q: Queue): nat { ResumeFrom(q, Some(job.lo), job.blockTo, false) }

  /** The store the task is to end with, block by block: what was stored below its
      starting block, then the chain's events up to its end. */
  function Expected(job: Job, base: Store, start: nat, b: nat): Store {
    if b < start then AtBlock(base, b) else if b <= job.blockTo then BlockDocs(job.node, b) else map[]
  }

  ghost predicate Settled(job: Job, base: Store, start: nat, s: Store, end: nat) {
    forall b: nat {:trigger AtBlock(s, b)} | b < end :: AtBlock(s, b) == Expected(job, base, start, b)
  }

  ghost predicate EmptyFrom(s: Store, from: nat) {
    forall b: nat {:trigger AtBlock(s, b)} | from <= b :: AtBlock(s, b) == map[]
  }

  /** Nothing from `from` on but the first `k` events of the chunk being written. */
  ghost predicate Partial(s: Store, es: seq<Event>, k: nat, from: nat) {
    && k <= |es|
    && forall b: nat {:trigger AtBlock(s, b)} | from <= b :: AtBlock(s, b) == AtBlock(Docs(es[..k]), b)
  }

  /** A restart finds a log entry to resume from, or nothing stored to collide with. */
  ghost predicate Clean(job: Job, t: Task) {
    LatestEnd(t.queue, job.blockTo).Some? || EmptyFrom(t.store, job.lo)
  }

  /** Block by block what an uninterrupted task leaves. */
  ghost predicate AsExpected(job: Job, base: Store, start: nat, s: Store) {
    forall b: nat {:trigger AtBlock(s, b)} :: AtBlock(s, b) == Expected(job, base, start, b)
  }

  ghost predicate Good(job: Job, base: Store, start: nat, t: Task) {
    var p := Point(job, t.queue);
    && start <= p <= job.blockTo
    && Settled(job, base, start, t.store, p)
    && match t.phase
       case Down => Clean(job, t)
       case Ready(from) => from == p && EmptyFrom(t.store, p)
       case Writing(from, to, k) => from == p && to == ChunkEnd(job, p) && Partial(t.store, Chunk(job, from, to), k, p)
       case Complete => ChunkEnd(job, p) == job.blockTo && AsExpected(job, base, start, t.store)
       case Failed => false
  }

  /** No log entry to resume from, and the very first event is already stored: the next
      attempt must insert it again. */
  ghost predicate Dirty(job: Job, t: Task) {
    && LatestEnd(t.queue, job.blockTo).None?
    && var to := ChunkEnd(job, job.lo);
       var es := Chunk(job, job.lo, to);
       && es != [] && IdOf(es[0]) in t.store
       && t.phase in {Down, Ready(job.lo), Writing(job.lo, to, 0), Failed}
  }

  // ---- Steps ----

  lemma UpToAt(s: Store, m: nat)
    ensures forall b: nat {:trigger AtBlock(UpTo(s, m), b)} ::
        AtBlock(UpTo(s, m), b) == if b <= m then AtBlock(s, b) else map[]
  {
  }

  lemma RestartKeeps(job: Job, base: Store, start: nat, t: Task, t': Task)
    requires Good(job, base, start, t) && Restart(job, t, t')
    ensures Good(job, base, start, t')
  {
    var latest := LatestEnd(t.queue, job.blockTo);
    if latest.Some? {
      UpToAt(t.store, latest.value);
    }
  }

  lemma BeginKeeps(job: Job, base: Store, start: nat, t: Task, t': Task)
    requires Good(job, base, start, t) && Begin(job, t, t')
    ensures Good(job, base, start, t')
  {
    var es := Chunk(job, t'.phase.from, t'.phase.to);
    assert es[..0] == [];
    assert forall b: nat :: AtBlock(map[], b) == map[];
  }

  /** An insert of the chunk finds its id free. */
  lemma InsertFree(n: Node, s: Store, from: nat, to: nat, k: nat)
    requires ValidNode(n) && k < |RangeEvents(n, from, to + 1)| && Partial(s, RangeEvents(n, from, to + 1), k, from)
    ensures IdOf(RangeEvents(n, from, to + 1)[k]) !in s
  {
    var es := RangeEvents(n, from, to + 1);
    RangeIsProper(n, from, to + 1);
    DocsKeys(es[..k]);
    var id := IdOf(es[k]);
    if id in s {
      InItsBlock(s, id);
      assert false;
    }
  }

  lemma InsertPartial(s: Store, es: seq<Event>, k: nat, from: nat)
    requires k < |es| && Partial(s, es, k, from)
    ensures Partial(s[IdOf(es[k]) := DocOf(es[k])], es, k + 1, from)
  {
    var s' := s[IdOf(es[k]) := DocOf(es[k])];
    assert es[..k + 1][..k] == es[..k];
    forall b: nat | from <= b ensures AtBlock(s', b) == AtBlock(Docs(es[..k + 1]), b) {
      AtBlockInsert(s, IdOf(es[k]), DocOf(es[k]), b);
      AtBlockInsert(Docs(es[..k]), IdOf(es[k]), DocOf(es[k]), b);
    }
  }

  lemma AtBlockInsert(s: Store, id: EventId, d: Doc, b: nat)
    ensures AtBlock(s[id := d], b) == if id.blockNumber == b then AtBlock(s, b)[id := d] else AtBlock(s, b)
  {
  }

  lemma InsertKeeps(job: Job, base: Store, start: nat, t: Task, t': Task)
    requires ValidNode(job.node) && Good(job, base, start, t) && Insert(job, t, t')
    ensures Good(job, base, start, t')
  {
    var from, to, k := t.phase.from, t.phase.to, t.phase.k;
    var es := Chunk(job, from, to);
    InsertFree(job.node, t.store, from, to, k);
    InsertPartial(t.store, es, k, from);
    RangeIsProper(job.node, from, to + 1);
    assert from <= es[k].blockNumber;
    forall b: nat | b < from ensures AtBlock(t'.store, b) == AtBlock(t.store, b) {
      AtBlockInsert(t.store, IdOf(es[k]), DocOf(es[k]), b);
    }
  }

  lemma LatestEndAppend(q: Queue, r: Record, blockTo: nat)
    requires !r.isDeleted && (LatestEnd(q, blockTo).Some? ==> LatestEnd(q, blockTo).value < r.to)
    ensures LatestEnd(q + [r], blockTo) == if r.to < blockTo then Some(r.to) else LatestEnd(q, blockTo)
  {
    assert (q + [r])[..|q|] == q;
  }

  /** With its whole chunk stored, the task is settled up to the chunk's end. */
  lemma ChunkSettles(job: Job, base: Store, start: nat, s: Store, from: nat, to: nat)
    requires ValidNode(job.node) && start <= from <= to <= job.blockTo
    requires Settled(job, base, start, s, from) && Partial(s, Chunk(job, from, to), |Chunk(job, from, to)|, from)
    ensures Settled(job, base, start, s, to + 1) && EmptyFrom(s, to + 1)
  {
    var es := Chunk(job, from, to);
    assert es[..|es|] == es;
    forall b: nat | from <= b ensures AtBlock(s, b) == if b <= to then BlockDocs(job.node, b) else map[] {
      if b <= to {
        RangeDocsAt(job.node, from, to + 1, b);
      } else {
        RangeDocsOutside(job.node, from, to + 1, b);
      }
    }
  }

  lemma LogKeeps(job: Job, base: Store, start: nat, t: Task, t': Task)
    requires ValidNode(job.node) && Good(job, base, start, t) && LogRange(job, t, t')
    ensures Good(job, base, start, t')
  {
    var from, to := t.phase.from, t.phase.to;
    ChunkSettles(job, base, start, t.store, from, to);
    LatestEndAppend(t.queue, Record(from, to, None, false), job.blockTo);
    if to == job.blockTo {
      forall b: nat ensures AtBlock(t'.store, b) == Expected(job, base, start, b) {
      }
    }
  }

  /** The first event of a nonempty insert is there to collide with. */
  lemma FirstIsStored(n: Node, s: Store, es: seq<Event>, k: nat, from: nat, end: nat)
    requires ProperRange(es, from, end) && 0 < k && Partial(s, es, k, from)
    ensures es != [] && IdOf(es[0]) in s
  {
    var b := es[0].blockNumber;
    DocsLookup(es[..k], 0);
    assert es[..k][0] == es[0];
    InItsBlock(Docs(es[..k]), IdOf(es[0]));
    assert AtBlock(s, b) == AtBlock(Docs(es[..k]), b);
  }

  /** A crash leaves a clean task, or a dirty one: it died in its first chunk after an
      insert, or after its only chunk. */
  lemma CrashKeeps(job: Job, base: Store, start: nat, t: Task, t': Task)
    requires ValidNode(job.node) && Good(job, base, start, t) && Crash(t, t')
    ensures Good(job, base, start, t') || (Dirty(job, t') && t'.phase.Down?)
  {
    if LatestEnd(t.queue, job.blockTo).None? && !Clean(job, t) {
      DirtyAfterCrash(job, base, start, t);
    }
  }

  lemma DirtyAfterCrash(job: Job, base: Store, start: nat, t: Task)
    requires ValidNode(job.node) && Good(job, base, start, t) && LatestEnd(t.queue, job.blockTo).None? && !Clean(job, t)
    ensures Dirty(job, t.(phase := Down))
  {
    var to := ChunkEnd(job, job.lo);
    var es := Chunk(job, job.lo, to);
    RangeIsProper(job.node, job.lo, to + 1);
    match t.phase
    case Writing(_, _, k) => SomethingInserted(job, t.store, es, k);
    case Complete =>
      WholeChunk(job, base, start, t.store);
      SomethingInserted(job, t.store, es, |es|);
    case Down =>
    case Ready(_) =>
  }

  lemma WholeChunk(job: Job, base: Store, start: nat, s: Store)
    requires ValidNode(job.node) && start <= job.lo
    requires AsExpected(job, base, start, s)
    ensures Partial(s, Chunk(job, job.lo, job.blockTo), |Chunk(job, job.lo, job.blockTo)|, job.lo)
  {
    var es := Chunk(job, job.lo, job.blockTo);
    assert es[..|es|] == es;
    forall b: nat | job.lo <= b ensures AtBlock(s, b) == AtBlock(Docs(es), b) {
      if b <= job.blockTo {
        RangeDocsAt(job.node, job.lo, job.blockTo + 1, b);
      } else {
        RangeDocsOutside(job.node, job.lo, job.blockTo + 1, b);
      }
    }
  }

  lemma SomethingInserted(job: Job, s: Store, es: seq<Event>, k: nat)
    requires ProperRange(es, job.lo, ChunkEnd(job, job.lo) + 1) && Partial(s, es, k, job.lo) && !EmptyFrom(s, job.lo)
    ensures es != [] && IdOf(es[0]) in s
  {
    if k == 0 {
      NothingInserted(s, es, job.lo);
      assert false;
    }
    FirstIsStored(job.node, s, es, k, job.lo, ChunkEnd(job, job.lo) + 1);
  }

  lemma NothingInserted(s: Store, es: seq<Event>, from: nat)
    requires Partial(s, es, 0, from)
    ensures EmptyFrom(s, from)
  {
    assert es[..0] == [];
    assert forall b: nat :: AtBlock(map[], b) == map[];
  }

  lemma NextKeeps(job: Job, base: Store, start: nat, t: Task, t': Task)
    requires ValidNode(job.node) && Next(job, t, t') && Good(job, base, start, t)
    ensures Good(job, base, start, t') || (Dirty(job, t') && t'.phase.Down?)
  {
    if Restart(job, t, t') {
      RestartKeeps(job, base, start, t, t');
    } else if Begin(job, t, t') {
      BeginKeeps(job, base, start, t, t');
    } else if Insert(job, t, t') {
      InsertKeeps(job, base, start, t, t');
    } else if LogRange(job, t, t') {
      LogKeeps(job, base, start, t, t');
    } else {
      CrashKeeps(job, base, start, t, t');
    }
  }

  /** Once dirty, always dirty: every later attempt throws at its first insert. */
  lemma DirtyForever(job: Job, t: Task, t': Task)
    requires Dirty(job, t) && Next(job, t, t')
    ensures Dirty(job, t') && !t'.phase.Complete?
  {
  }

  // ---- Runs ----

  /** A run of the task: any steps, any number of crashes. */
  ghost predicate Run(job: Job, ts: seq<Task>) {
    ts != [] && forall i :: 0 <= i < |ts| - 1 ==> Next(job, ts[i], ts[i + 1])
  }

  /** A fresh or resumed task whose log ends below `blockTo`: the store holds nothing
      from the resume point on. */
  ghost predicate Start(job: Job, t: Task) {
    && t.phase == Down
    && Point(job, t.queue) <= job.blockTo
    && EmptyFrom(t.store, Point(job, t.queue))
  }

  /** No restart so far found stored events above an empty log. */
  ghost predicate AlwaysClean(job: Job, ts: seq<Task>, i: nat)
    requires i < |ts|
  {
    forall j :: 0 <= j <= i && ts[j].phase.Down? ==> Clean(job, ts[j])
  }

  lemma DirtyIsUnclean(job: Job, t: Task)
    requires ValidNode(job.node) && Dirty(job, t)
    ensures !Clean(job, t)
  {
    var to := ChunkEnd(job, job.lo);
    var es := Chunk(job, job.lo, to);
    RangeIsProper(job.node, job.lo, to + 1);
    InItsBlock(t.store, IdOf(es[0]));
  }

  lemma StartIsGood(job: Job, t: Task)
    requires Start(job, t)
    ensures Good(job, t.store, Point(job, t.queue), t)
  {
  }

  /** In any run each state is good or dirty, a completed one is good, and as long as no
      restart finds stored events above an empty log, the state is good: no insert meets a
      taken id. */
  lemma {:induction false} GoodOrDirty(job: Job, ts: seq<Task>, i: nat)
    requires ValidNode(job.node) && Run(job, ts) && Start(job, ts[0]) && i < |ts|
    ensures Good(job, ts[0].store, Point(job, ts[0].queue), ts[i]) || Dirty(job, ts[i])
    ensures ts[i].phase.Complete? ==> AsExpected(job, ts[0].store, Point(job, ts[0].queue), ts[i].store)
    ensures AlwaysClean(job, ts, i) ==> Good(job, ts[0].store, Point(job, ts[0].queue), ts[i]) && !ts[i].phase.Failed?
  {
    var base, start := ts[0].store, Point(job, ts[0].queue);
    if i == 0 {
      StartIsGood(job, ts[0]);
    } else {
      GoodOrDirty(job, ts, i - 1);
      assert Next(job, ts[i - 1], ts[i - 1 + 1]);
      if Good(job, base, start, ts[i - 1]) {
        NextKeeps(job, base, start, ts[i - 1], ts[i]);
        if !Good(job, base, start, ts[i]) {
          DirtyIsUnclean(job, ts[i]);
        }
      } else {
        DirtyForever(job, ts[i - 1], ts[i]);
      }
    }
  }

  /** What a restarted attempt, left alone, goes on to do. */
  function Attempt(job: Job, t: Task): State {
    ResumeState(State(t.store, t.queue, []), job.blockTo, false)
  }

  lemma ResumedStore(job: Job, base: Store, start: nat, t: Task)
    requires Good(job, base, start, t) && t.phase.Down?
    ensures Settled(job, base, start, Attempt(job, t).store, Point(job, t.queue))
      && EmptyFrom(Attempt(job, t).store, Point(job, t.queue))
  {
    RestartKeeps(job, base, start, t, Task(Attempt(job, t).store, t.queue, Ready(Point(job, t.queue))));
  }

  /** The attempt after a crash reads its remaining chunks to the end if and only if the
      restart is clean, and then leaves what an uninterrupted task leaves. */
  lemma AttemptCompletesIff(job: Job, base: Store, start: nat, t: Task)
    requires ValidNode(job.node) && Decodable(job.node, Point(job, t.queue), job.blockTo + 1)
      && Point(job, t.queue) <= job.blockTo
    requires t.phase.Down? && (Good(job, base, start, t) || Dirty(job, t))
    ensures
      var p := Point(job, t.queue);
      RangesComplete(job.node, Ranges(p, job.blockTo, job.limit), false, Attempt(job, t)) <==> Clean(job, t)
    ensures Clean(job, t) ==>
      var s := AfterRanges(job.node, Ranges(Point(job, t.queue), job.blockTo, job.limit), false, Attempt(job, t)).store;
      AsExpected(job, base, start, s)
  {
    AttemptWrites(job, t);
    if Dirty(job, t) {
      DirtyIsUnclean(job, t);
      DirtyCollides(job, t);
    } else {
      CleanAttempt(job, base, start, t);
    }
  }

  /** It reads its chunks to the end exactly when one insert of them all would succeed. */
  lemma AttemptWrites(job: Job, t: Task)
    requires ValidNode(job.node) && Decodable(job.node, Point(job, t.queue), job.blockTo + 1)
      && Point(job, t.queue) <= job.blockTo
    ensures
      var p := Point(job, t.queue);
      RangesComplete(job.node, Ranges(p, job.blockTo, job.limit), false, Attempt(job, t))
      <==> Writable(Attempt(job, t).store, RangeEvents(job.node, p, job.blockTo + 1), false)
  {
    var p := Point(job, t.queue);
    RangesPartition(p, job.blockTo, job.limit);
    SplitCompletes(job.node, Ranges(p, job.blockTo, job.limit), p, job.blockTo + 1, false, Attempt(job, t));
  }

  lemma CleanAttempt(job: Job, base: Store, start: nat, t: Task)
    requires ValidNode(job.node) && Good(job, base, start, t) && t.phase.Down?
    ensures Writable(Attempt(job, t).store, RangeEvents(job.node, Point(job, t.queue), job.blockTo + 1), false)
    ensures
      var s := AfterRanges(job.node, Ranges(Point(job, t.queue), job.blockTo, job.limit), false, Attempt(job, t)).store;
      AsExpected(job, base, start, s)
  {
    var p := Point(job, t.queue);
    ResumedStore(job, base, start, t);
    EmptyIsWritable(job.node, Attempt(job, t).store, p, job.blockTo + 1);
    RangesPartition(p, job.blockTo, job.limit);
    ChunksAsExpected(job, base, start, Ranges(p, job.blockTo, job.limit), Attempt(job, t), p);
  }

  lemma EmptyIsWritable(n: Node, s: Store, p: nat, end: nat)
    requires ValidNode(n) && EmptyFrom(s, p)
    ensures Writable(s, RangeEvents(n, p, end), false)
  {
    RangeIsProper(n, p, end);
    FreshIfEmpty(s, RangeEvents(n, p, end), p, end);
  }

  lemma ChunksAsExpected(job: Job, base: Store, start: nat, rs: seq<(nat, nat)>, s: State, p: nat)
    requires ValidNode(job.node) && start <= p <= job.blockTo && Contiguous(rs, p, job.blockTo + 1)
    requires Settled(job, base, start, s.store, p) && EmptyFrom(s.store, p)
    ensures AsExpected(job, base, start, AfterRanges(job.node, rs, false, s).store)
  {
    SplitStores(job.node, rs, p, job.blockTo + 1, false, s);
    WrittenIsExpected(job, base, start, s.store, p);
  }

  lemma WrittenIsExpected(job: Job, base: Store, start: nat, s: Store, p: nat)
    requires ValidNode(job.node) && start <= p <= job.blockTo && Settled(job, base, start, s, p) && EmptyFrom(s, p)
    ensures
      var s' := s + Docs(RangeEvents(job.node, p, job.blockTo + 1));
      AsExpected(job, base, start, s')
  {
    forall b: nat
        ensures AtBlock(s + Docs(RangeEvents(job.node, p, job.blockTo + 1)), b) == Expected(job, base, start, b) {
      LoggedAt(job.node, p, job.blockTo, s, b);
    }
  }

  lemma DirtyCollides(job: Job, t: Task)
    requires ValidNode(job.node) && Dirty(job, t) && Point(job, t.queue) <= job.blockTo
    ensures !Writable(Attempt(job, t).store, RangeEvents(job.node, Point(job, t.queue), job.blockTo + 1), false)
  {
    var to := ChunkEnd(job, job.lo);
    RangeSplit(job.node, job.lo, to + 1, job.blockTo + 1);
    FirstCollides(t.store, RangeEvents(job.node, job.lo, job.blockTo + 1), Chunk(job, job.lo, to),
                  RangeEvents(job.node, to + 1, job.blockTo + 1));
  }

  lemma FirstCollides(s: Store, all: seq<Event>, a: seq<Event>, b: seq<Event>)
    requires all == a + b && a != [] && IdOf(a[0]) in s
    ensures !Fresh(s, all)
  {
    assert all[0] == a[0];
  }

  lemma SameAsExpected(job: Job, base: Store, start: nat, s: Store, t: Store)
    requires AsExpected(job, base, start, s) && AsExpected(job, base, start, t)
    ensures s == t
  {
    forall b: nat ensures AtBlock(s, b) == AtBlock(t, b) {
    }
    SameBlocks(s, t);
  }

  /** Crash recovery: a task that completes, however often and wherever it crashed, ends
      with the event store of a task that never crashed; and while no restart finds stored
      events above an empty log, no insert meets a taken id. */
  lemma CrashSafe(job: Job, ts: seq<Task>, i: nat)
    requires ValidNode(job.node) && Run(job, ts) && Start(job, ts[0]) && i < |ts|
    ensures ts[i].phase.Complete? ==>
      ts[i].store == AfterRanges(job.node, Ranges(Point(job, ts[0].queue), job.blockTo, job.limit), false,
        Attempt(job, ts[0])).store
    ensures AlwaysClean(job, ts, i) ==> !ts[i].phase.Failed?
  {
    GoodOrDirty(job, ts, i);
    if ts[i].phase.Complete? {
      StartIsGood(job, ts[0]);
      CleanAttempt(job, ts[0].store, Point(job, ts[0].queue), ts[0]);
      SameAsExpected(job, ts[0].store, Point(job, ts[0].queue), ts[i].store,
                     AfterRanges(job.node, Ranges(Point(job, ts[0].queue), job.blockTo, job.limit), false,
                                 Attempt(job, ts[0])).store);
    }
  }

  // ---- A crash that cannot be recovered from ----

  const D := Node([Block(30, 1, [Mint(0)]), Empty(31, 30)], {})
  const JOB := Job(D, 0, 1, 0)

  /** The task's only event is inserted, and the process dies before its range is logged. */
  const CRASHED := [
    Task(map[], [], Down),
    Task(map[], [], Ready(0)),
    Task(map[], [], Writing(0, 0, 0)),
    Task(map[IdAt(0) := DOC], [], Writing(0, 0, 1)),
    Task(map[IdAt(0) := DOC], [], Down)]

  lemma CrashSteps()
    ensures Restart(JOB, CRASHED[0], CRASHED[1]) && Begin(JOB, CRASHED[1], CRASHED[2])
      && Insert(JOB, CRASHED[2], CRASHED[3])
    ensures Crash(CRASHED[3], CRASHED[4])
  {
    OneEvent(D, 0);
    assert map[][IdAt(0) := DOC] == CRASHED[3].store;
  }

  /** From an empty database, a crash in the very first chunk leaves the task dirty: by
      `DirtyForever` no later attempt completes. */
  lemma DirtyReached()
    ensures ValidNode(D) && Run(JOB, CRASHED) && Start(JOB, CRASHED[0]) && Dirty(JOB, CRASHED[4])
  {
    CrashSteps();
    OneEvent(D, 0);
    assert EmptyFrom(map[], 0);
  }
}
