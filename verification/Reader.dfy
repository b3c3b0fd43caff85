/** `EventsReaderService.read` and `reread`
    (src/app-events-reader/events-reader/events-reader.service.ts): read a block range
    into the event store, log it, and walk back over stale ranges after a reorg. */
module Reader {
  import opened Prelude
  import opened Ethnode
  import opened EventStore
  import opened BlocksQueue

  /** The message that hands a range to the indexer. */
  datatype IndexBlockRange = IndexBlockRange(reread: bool, blockFrom: nat, blockTo: nat)

  datatype State = State(store: Store, queue: Queue, bus: seq<IndexBlockRange>)

  function HashAt(n: Node, b: nat): Option<Hash> {
    match GetBlock(n, b) case Some(block) => Some(block.hash) case None => None
  }

  /** The parent of block `from` is not the block the latest record ended with. A record
      without a hash (saved by a range task) always diverges. */
  predicate Diverges(n: Node, from: nat, latest: Option<Record>) {
    && from < |n.blocks| && latest.Some?
    && Some(n.blocks[from].parentHash) != latest.value.toHash
  }

  /** A bulk write of these events succeeds: upserts always do, inserts need free ids. */
  ghost predicate Writable(s: Store, es: seq<Event>, upsert: bool) {
    upsert || (DistinctIds(es) && Fresh(s, es))
  }

  /** The state once the range is stored, logged and announced. */
  function Logged(n: Node, from: nat, to: nat, reorg: bool, reread: bool, s: State): State {
    State(s.store + Docs(RangeEvents(n, from, to + 1)),
          s.queue + [Record(from, to, if reorg then HashAt(n, to) else None, false)],
          s.bus + [IndexBlockRange(reread, from, to)])
  }

  /** How a call ends: normally, thrown, or cut off because the process dies with a re-read
      pending. */
  datatype ReadEnd = Completed | Threw | Died

  /** `read(from, to, reorg, reread)` started in `s` can end so in `s'`, if the process lives
      to begin `most` re-reads. The recursion of the source need not end by itself. */
  ghost predicate Reads(n: Node, from: nat, to: nat, reorg: bool, reread: bool, most: nat, s: State, s': State,
                        end: ReadEnd)
    decreases most, 2
  {
    if !(Decodable(n, from, to + 1) && Writable(s.store, RangeEvents(n, from, to + 1), reread))
    then end == Threw && FailsToWrite(n, from, to, s, s')
    else
      var t := Logged(n, from, to, reorg, reread, s);
      if !reorg then end == Completed && s' == t else WalksBack(n, from, most, s.queue, t, s', end)
  }

  /** With the range logged in state `t`: stop, or go on to re-read the latest record that
      was in the log before, `q`. */
  ghost predicate WalksBack(n: Node, from: nat, most: nat, q: Queue, t: State, s': State, end: ReadEnd)
    decreases most, 1
  {
    exists latest: Option<Record> :: (
      && IsLatest(q, from, latest)
      && if !Diverges(n, from, latest) then end == Completed && s' == t
         else if most == 0 then end == Died && s' == t
         else Rereads(n, latest.value, most - 1, t, s', end))
  }

  /** Likewise `reread` of the range of a record, started in `t`. */
  ghost predicate Rereads(n: Node, l: Record, most: nat, t: State, s': State, end: ReadEnd)
    decreases most, 3
  {
    exists q: Queue :: SoftDeletes(t.queue, l.from, l.to, q)
      && Reads(n, l.from, l.to, true, true, most, Retired(t, l, q), s', end)
  }

  /** The state in which the re-read of record `l` begins to read. */
  function Retired(t: State, l: Record, q: Queue): State {
    State(WithoutRange(t.store, l.from, l.to), q, t.bus)
  }

  /** `read` started in `s` can complete in `s'`. */
  ghost predicate Completes(n: Node, from: nat, to: nat, reorg: bool, reread: bool, s: State, s': State) {
    exists most: nat :: Reads(n, from, to, reorg, reread, most, s, s', Completed)
  }

  ghost predicate FailsToWrite(n: Node, from: nat, to: nat, s: State, s': State) {
    s'.queue == s.queue && s'.bus == s.bus && PartlyInserted(s.store, RangeEvents(n, from, to + 1), s'.store)
  }

  class EventsReaderService {
    const events: EventsRepo
    const blockQueue: BlocksQueueRepo
    var bus: seq<IndexBlockRange>

    constructor (events: EventsRepo, blockQueue: BlocksQueueRepo)
      ensures this.events == events && this.blockQueue == blockQueue && bus == []
    {
      this.events, this.blockQueue, bus := events, blockQueue, [];
    }

    ghost function Abs(): State
      reads this, events, blockQueue
    {
      State(events.docs, blockQueue.records, bus)
    }

    /** Fetch the range and write its events; a range without events writes nothing. */
    method Save(n: Node, from: nat, to: nat, upsert: bool) returns (ok: bool)
      modifies events
      ensures ok <==> Decodable(n, from, to + 1) && Writable(old(events.docs), RangeEvents(n, from, to + 1), upsert)
      ensures ok ==> events.docs == old(events.docs) + Docs(RangeEvents(n, from, to + 1))
      ensures !ok ==> PartlyInserted(old(events.docs), RangeEvents(n, from, to + 1), events.docs)
    {
      var fetched := GetEthNodeTransferEvents(n, from, to);
      if fetched.Err? {
        assert events.docs == old(events.docs) + Docs(RangeEvents(n, from, to + 1)[..0]);
        return false;
      }
      ok := true;
      if |fetched.value| > 0 {
        if upsert {
          events.BulkUpsert(fetched.value);
        } else {
          ok := events.BulkSave(fetched.value);
        }
      } else {
        assert events.docs + map[] == events.docs;
      }
    }

    /** Log and announce a stored range; with reorg handling, look up its first block and the
        record before it. */
    method Log(n: Node, from: nat, to: nat, reorg: bool, reread: bool)
      returns (fromBlock: Option<Block>, latest: Option<Record>)
      modifies this, blockQueue
      ensures bus == old(bus) + [IndexBlockRange(reread, from, to)]
      ensures blockQueue.records
        == old(blockQueue.records) + [Record(from, to, if reorg then HashAt(n, to) else None, false)]
      ensures if reorg then fromBlock == GetBlock(n, from) && IsLatest(old(blockQueue.records), from, latest)
              else fromBlock == None && latest == None
    {
      fromBlock, latest := None, None;
      if reorg {
        fromBlock := GetBlock(n, from);
        var toBlock := if from == to then fromBlock else GetBlock(n, to);
        latest := blockQueue.GetLatest(from);
        blockQueue.Save(from, to, if toBlock.Some? then Some(toBlock.value.hash) else None);
      } else {
        blockQueue.Save(from, to, None);
      }
      bus := bus + [IndexBlockRange(reread, from, to)];
    }

    /** `most`: see `Reads`. */
    method Read(n: Node, from: nat, to: nat, reorg: bool, reread: bool, most: nat) returns (end: ReadEnd)
      modifies this, events, blockQueue
      ensures Reads(n, from, to, reorg, reread, most, old(Abs()), Abs(), end)
      decreases most, 2
    {
      ghost var s := Abs();
      var saved := Save(n, from, to, reread);
      if !saved {
        return Threw;
      }
      var fromBlock, latest := Log(n, from, to, reorg, reread);
      ghost var t := Abs();
      end := Completed;
      if fromBlock.Some? && latest.Some? && Some(fromBlock.value.parentHash) != latest.value.toHash {
        if most == 0 {
          end := Died;
        } else {
          end := Reread(n, latest.value, most - 1);
        }
      }
      if reorg {
        LatestDecides(n, from, to, reread, most, s, latest, t, Abs(), end);
      }
    }

    method Reread(n: Node, l: Record, most: nat) returns (end: ReadEnd)
      modifies this, events, blockQueue
      ensures Rereads(n, l, most, old(Abs()), Abs(), end)
      decreases most, 3
    {
      events.DeleteByBlockRange(l.from, l.to);
      blockQueue.SoftDelete(l.from, l.to);
      ghost var mid := Abs();
      end := Read(n, l.from, l.to, true, true, most);
      assert SoftDeletes(old(Abs()).queue, l.from, l.to, mid.queue);
    }
  }

  /** What follows once the range is logged depends on the latest record before it. */
  lemma LatestDecides(n: Node, from: nat, to: nat, reread: bool, most: nat, s: State, latest: Option<Record>, t: State,
                      s': State, end: ReadEnd)
    requires Decodable(n, from, to + 1) && Writable(s.store, RangeEvents(n, from, to + 1), reread)
    requires t == Logged(n, from, to, true, reread, s) && IsLatest(s.queue, from, latest)
    requires if !Diverges(n, from, latest) then end == Completed && s' == t
             else if most == 0 then end == Died && s' == t
             else Rereads(n, latest.value, most - 1, t, s', end)
    ensures Reads(n, from, to, true, reread, most, s, s', end)
  {
    assert WalksBack(n, from, most, s.queue, t, s', end);
  }

  lemma RereadReads(n: Node, l: Record, most: nat, t: State, s': State, end: ReadEnd) returns (q: Queue)
    requires Rereads(n, l, most, t, s', end)
    ensures SoftDeletes(t.queue, l.from, l.to, q) && Reads(n, l.from, l.to, true, true, most, Retired(t, l, q), s', end)
  {
    q :| SoftDeletes(t.queue, l.from, l.to, q) && Reads(n, l.from, l.to, true, true, most, Retired(t, l, q), s', end);
  }

  /** Without reorg handling a call completes exactly when its events can be written. */
  lemma PlainCompletes(n: Node, from: nat, to: nat, upsert: bool, s: State, s': State)
    ensures Completes(n, from, to, false, upsert, s, s') <==>
      Decodable(n, from, to + 1) && Writable(s.store, RangeEvents(n, from, to + 1), upsert)
        && s' == Logged(n, from, to, false, upsert, s)
  {
    if Decodable(n, from, to + 1) && Writable(s.store, RangeEvents(n, from, to + 1), upsert)
        && s' == Logged(n, from, to, false, upsert, s) {
      assert Reads(n, from, to, false, upsert, 0, s, s', Completed);
    }
  }

  /** A call that ends neither at once nor by failing to write re-reads its latest record. */
  lemma FindLatest(n: Node, from: nat, to: nat, reread: bool, most: nat, s: State, s': State, end: ReadEnd)
    returns (latest: Option<Record>, t: State)
    requires Decodable(n, from, to + 1) && Writable(s.store, RangeEvents(n, from, to + 1), reread)
    requires Reads(n, from, to, true, reread, most, s, s', end)
    ensures t == Logged(n, from, to, true, reread, s) && IsLatest(s.queue, from, latest)
    ensures if !Diverges(n, from, latest) then end == Completed && s' == t
            else if most == 0 then end == Died && s' == t
            else Rereads(n, latest.value, most - 1, t, s', end)
  {
    t := Logged(n, from, to, true, reread, s);
    assert WalksBack(n, from, most, s.queue, t, s', end);
    latest :|
      && IsLatest(s.queue, from, latest)
      && if !Diverges(n, from, latest) then end == Completed && s' == t
         else if most == 0 then end == Died && s' == t
         else Rereads(n, latest.value, most - 1, t, s', end);
  }

  /** A call that fails once its range is logged does so in its re-read, or dies before it. */
  lemma FailsLater(n: Node, from: nat, to: nat, reread: bool, most: nat, s: State, s': State, end: ReadEnd)
    returns (l: Record, u: State)
    requires Decodable(n, from, to + 1) && Writable(s.store, RangeEvents(n, from, to + 1), reread)
    requires Reads(n, from, to, true, reread, most, s, s', end) && end != Completed
    ensures IsLatest(s.queue, from, Some(l)) && Diverges(n, from, Some(l)) && (most == 0 ==> end == Died)
    ensures 0 < most ==>
      && SoftDeletes(s.queue + [Record(from, to, HashAt(n, to), false)], l.from, l.to, u.queue)
      && Reads(n, l.from, l.to, true, true, most - 1, u, s', end)
  {
    var latest, t := FindLatest(n, from, to, reread, most, s, s', end);
    l, u := latest.value, t;
    if 0 < most {
      var q := RereadReads(n, l, most - 1, t, s', end);
      u := Retired(t, l, q);
    }
  }

  lemma NextThrows(n: Node, from: nat, to: nat, reread: bool, most: nat, s: State, s': State)
    returns (l: Record, u: State)
    requires Decodable(n, from, to + 1) && Writable(s.store, RangeEvents(n, from, to + 1), reread)
    requires Reads(n, from, to, true, reread, most, s, s', Threw)
    ensures 0 < most && Reads(n, l.from, l.to, true, true, most - 1, u, s', Threw)
  {
    l, u := FailsLater(n, from, to, reread, most, s, s', Threw);
  }

  lemma PlainNeverThrows(n: Node, from: nat, to: nat, reread: bool, most: nat, s: State, s': State)
    requires Decodable(n, from, to + 1) && Writable(s.store, RangeEvents(n, from, to + 1), reread)
    ensures !Reads(n, from, to, false, reread, most, s, s', Threw)
  {
  }

  lemma {:induction false} CascadeNeverThrows(n: Node, from: nat, to: nat, reread: bool, most: nat, s: State, s': State)
    requires (forall b: nat :: DecodableBlock(n, b)) && Writable(s.store, RangeEvents(n, from, to + 1), reread)
    ensures !Reads(n, from, to, true, reread, most, s, s', Threw)
    decreases most
  {
    if Reads(n, from, to, true, reread, most, s, s', Threw) {
      var l, u := NextThrows(n, from, to, reread, most, s, s');
      CascadeNeverThrows(n, l.from, l.to, true, most - 1, u, s');
    }
  }

  /** With every log decodable and no id of its range taken, a call cannot throw. */
  lemma NeverThrows(n: Node, from: nat, to: nat, reorg: bool, reread: bool, most: nat, s: State, s': State)
    requires (forall b: nat :: DecodableBlock(n, b)) && Writable(s.store, RangeEvents(n, from, to + 1), reread)
    ensures !Reads(n, from, to, reorg, reread, most, s, s', Threw)
  {
    if reorg {
      CascadeNeverThrows(n, from, to, reread, most, s, s');
    } else {
      PlainNeverThrows(n, from, to, reread, most, s, s');
    }
  }

  lemma DiedWrote(n: Node, from: nat, to: nat, reread: bool, most: nat, s: State, s': State)
    requires Reads(n, from, to, true, reread, most, s, s', Died)
    ensures Decodable(n, from, to + 1) && Writable(s.store, RangeEvents(n, from, to + 1), reread)
  {
  }

  lemma ProperBelow(q: Queue, from: nat, r: Record, l: Record, q': Queue)
    requires Proper(q) && r.from <= r.to && IsLatest(q, from, Some(l)) && SoftDeletes(q + [r], l.from, l.to, q')
    ensures l.from <= l.to < from && Proper(q')
  {
    SoftDeleteProper(q + [r], l.from, l.to, q');
  }

  lemma NextDies(n: Node, from: nat, to: nat, reread: bool, most: nat, s: State, s': State)
    returns (l: Record, u: State)
    requires from <= to && Proper(s.queue) && 0 < most && Reads(n, from, to, true, reread, most, s, s', Died)
    ensures l.from <= l.to < from && Proper(u.queue) && Reads(n, l.from, l.to, true, true, most - 1, u, s', Died)
  {
    DiedWrote(n, from, to, reread, most, s, s');
    l, u := FailsLater(n, from, to, reread, most, s, s', Died);
    ProperBelow(s.queue, from, Record(from, to, HashAt(n, to), false), l, u.queue);
  }

  lemma FirstDies(n: Node, from: nat, to: nat, reread: bool, most: nat, s: State, s': State)
    requires Reads(n, from, to, true, reread, most, s, s', Died)
    ensures 0 < from
  {
    DiedWrote(n, from, to, reread, most, s, s');
    var l, u := FailsLater(n, from, to, reread, most, s, s', Died);
    assert l in s.queue;
  }

  /** Over proper ranges the walk back starts lower with each re-read: it ends by itself
      after no more re-reads than the number of the block it starts from. */
  lemma {:induction false} ProperWalkEnds(n: Node, from: nat, to: nat, reread: bool, most: nat, s: State, s': State)
    requires from <= to && Proper(s.queue) && from <= most
    ensures !Reads(n, from, to, true, reread, most, s, s', Died)
    decreases most
  {
    if Reads(n, from, to, true, reread, most, s, s', Died) {
      FirstDies(n, from, to, reread, most, s, s');
      var l, u := NextDies(n, from, to, reread, most, s, s');
      ProperWalkEnds(n, l.from, l.to, true, most - 1, u, s');
    }
  }

  lemma SoftDeleteProper(q: Queue, from: nat, to: nat, q': Queue)
    requires Proper(q) && SoftDeletes(q, from, to, q')
    ensures Proper(q')
  {
    forall r | r in q' ensures r.from <= r.to {
      SoftDeleteFrame(q, from, to, q');
      var i :| 0 <= i < |q'| && q'[i] == r;
      assert q[i] in q;
    }
  }
}
