/** The lazy-mint indexer (src/app-lazy-mint-indexer/app.module.ts and
    src/app-lazy-mint-indexer/events-reader/events-reader.service.ts): go over blocks
    again, window by window, store the events that are missing and process only those. */
module LazyMint {
  import opened Prelude
  import opened Ethnode
  import opened EventStore
  import opened BlocksQueue
  import opened Reader
  import opened Reorg
  import opened RangeTask
  import opened CrashRecovery

  /** This reader never decodes pre-721 contracts. */
  function Plain(n: Node): Node { n.(pre721 := {}) }

  /** The chain's documents of the blocks `from <= b < end`. */
  function ChainDocs(n: Node, from: nat, end: nat): Store { Docs(RangeEvents(Plain(n), from, end)) }

  /** The events whose `_id` the store does not hold. */
  function Missing(es: seq<Event>, s: Store): seq<Event> {
    if es == [] then []
    else
      var e := es[|es| - 1];
      Missing(es[..|es| - 1], s) + if IdOf(e) in s then [] else [e]
  }

  function Windows(i: nat, to: nat, limit: nat): seq<(nat, nat)>
    requires 1 <= limit
    decreases 1 + to - i
  {
    if i > to then []
    else [(i, if i + limit - 1 > to then to else i + limit - 1)] + Windows(i + limit, to, limit)
  }

  /** The store after the windows, and what was handed to the token processor. */
  function AfterWindows(n: Node, ws: seq<(nat, nat)>, s: Store): Store {
    if ws == [] then s
    else
      var before, w := AfterWindows(n, ws[..|ws| - 1], s), ws[|ws| - 1];
      before + (ChainDocs(n, w.0, w.1 + 1) - before.Keys)
  }

  function Processed(n: Node, ws: seq<(nat, nat)>, s: Store): Store {
    if ws == [] then map[]
    else
      var before, w := AfterWindows(n, ws[..|ws| - 1], s), ws[|ws| - 1];
      Processed(n, ws[..|ws| - 1], s) + (ChainDocs(n, w.0, w.1 + 1) - before.Keys)
  }

  class LazyMintIndexer {
    const events: EventsRepo
    const blockQueue: BlocksQueueRepo

    constructor (events: EventsRepo, blockQueue: BlocksQueueRepo)
      ensures this.events == events && this.blockQueue == blockQueue
    {
      this.events, this.blockQueue := events, blockQueue;
    }

    /** Insert the missing events and read them back. */
    method StoreMissing(difference: seq<Event>) returns (results: Store)
      requires DistinctIds(difference) && Fresh(events.docs, difference)
      modifies events
      ensures results == Docs(difference) && events.docs == old(events.docs) + results
    {
      ghost var s := events.docs;
      results := map[];
      if |difference| > 0 {
        var saved := events.BulkSave(difference);
        assert saved;
        results := map id | id in events.docs && exists i :: 0 <= i < |difference| && IdOf(difference[i]) == id
                   :: events.docs[id];
        ReadBack(s, difference, results, events.docs);
      } else {
        assert Docs(difference) == map[];
        assert s + map[] == s;
      }
    }

    /** The fetched events whose `_id` the window's stored events lack. */
    method Difference(es: seq<Event>, from: nat, to: nat) returns (difference: seq<Event>)
      requires ProperRange(es, from, to + 1)
      ensures DistinctIds(difference) && Fresh(events.docs, difference)
      ensures Docs(difference) == Docs(es) - events.docs.Keys
    {
      var fromDb := map id | id in events.docs && from <= id.blockNumber <= to :: events.docs[id];
      difference := Missing(es, fromDb);
      MissingInRange(es, events.docs, from, to + 1);
      MissingDocs(es, events.docs);
    }

    /** `read`: fetch the window, keep the events the store does not hold, insert them
        and read them back. It throws only on an undecodable log. */
    method Read(n: Node, from: nat, to: nat) returns (r: Result<Store>)
      requires ValidNode(n)
      modifies events, blockQueue
      ensures r.Ok? <==> Decodable(Plain(n), from, to + 1)
      ensures r.Ok? ==> r.value == ChainDocs(n, from, to + 1) - old(events.docs).Keys
      ensures r.Ok? ==> events.docs == old(events.docs) + r.value
      ensures r.Ok? ==> blockQueue.records == old(blockQueue.records) + [Record(from, to, None, false)]
      ensures r.Err? ==> events.docs == old(events.docs) && blockQueue.records == old(blockQueue.records)
    {
      var fetched := GetEthNodeTransferEvents(Plain(n), from, to);
      if fetched.Err? {
        return Err;
      }
      PlainIsValid(n);
      RangeIsProper(Plain(n), from, to + 1);
      var difference := Difference(fetched.value, from, to);
      var results := StoreMissing(difference);
      blockQueue.Save(from, to, None);
      return Ok(results);
    }

    method Resume(blockNumberFrom: nat, to: nat, limit: nat) returns (from: nat)
      requires 1 <= limit
      modifies events
      ensures from == LazyStart(blockQueue.records, blockNumberFrom, to)
      ensures events.docs == LazyCleared(old(events.docs), blockQueue.records, to, limit)
    {
      from := blockNumberFrom;
      var actualLimit := limit - 1;
      var latest := blockQueue.GetLatest(to);
      LatestEndIs(blockQueue.records, to, latest);
      if latest.Some? {
        var blockFrom := latest.value.to + 1;
        events.DeleteByBlockRange(blockFrom, blockFrom + actualLimit);
        from := latest.value.to + 1;
      }
    }

    /** `runLoop`: resume after the last logged window, clear one window's worth of
        blocks, then read on, handing what was missing to the token processor. It reads
        all its windows, or throws out of the first one with an undecodable log. */
    method RunLoop(n: Node, blockNumberFrom: nat, to: nat, limit: nat)
      returns (ok: bool, processed: Store, ghost read: seq<(nat, nat)>)
      requires ValidNode(n) && 1 <= limit
      modifies events, blockQueue
      ensures
        var ws := Windows(LazyStart(old(blockQueue.records), blockNumberFrom, to), to, limit);
        Ends(n, ws, ok, read)
      ensures Went(n, read, LazyCleared(old(events.docs), old(blockQueue.records), to, limit), events.docs, processed)
      ensures blockQueue.records == old(blockQueue.records) + LogOf(read)
    {
      var from := Resume(blockNumberFrom, to, limit);
      ok, processed, read := ReadWindows(n, from, to, limit);
    }

    /** One window: read it and hand what was missing to the token processor. */
    method ReadWindow(n: Node, i: nat, curTo: nat, processed0: Store, ghost read: seq<(nat, nat)>, ghost s: Store,
                      ghost q: Queue)
      returns (ok: bool, processed: Store)
      requires ValidNode(n) && Went(n, read, s, events.docs, processed0) && Recorded(q, read, blockQueue.records)
      modifies events, blockQueue
      ensures ok <==> Decodable(Plain(n), i, curTo + 1)
      ensures Went(n, if ok then read + [(i, curTo)] else read, s, events.docs, processed)
      ensures Recorded(q, if ok then read + [(i, curTo)] else read, blockQueue.records)
    {
      ghost var before := events.docs;
      OneMoreLogged(q, read, i, curTo);
      var r := Read(n, i, curTo);
      if r.Err? {
        return false, processed0;
      }
      WentOn(n, read, i, curTo, s, before, events.docs, processed0, r.value);
      return true, processed0 + r.value;
    }

    method ReadWindows(n: Node, from: nat, to: nat, limit: nat)
      returns (ok: bool, processed: Store, ghost read: seq<(nat, nat)>)
      requires ValidNode(n) && 1 <= limit
      modifies events, blockQueue
      ensures Ends(n, Windows(from, to, limit), ok, read)
      ensures Went(n, read, old(events.docs), events.docs, processed)
      ensures blockQueue.records == old(blockQueue.records) + LogOf(read)
    {
      var actualLimit := limit - 1;
      var i: nat := from;
      processed := map[];
      ghost var s, q := events.docs, blockQueue.records;
      read := [];
      AllLeft(from, to, limit);
      NothingLogged(q);
      while i <= to
        invariant Went(n, read, s, events.docs, processed)
        invariant Recorded(q, read, blockQueue.records)
        invariant LeftFrom(from, to, limit, read, i)
        decreases 1 + to - i
      {
        var curTo: nat := i + actualLimit;
        if curTo > to {
          curTo := to;
        }
        var next := i + actualLimit + 1;
        NextWindow(from, read, i, curTo, to, limit, next);
        ok, processed := ReadWindow(n, i, curTo, processed, read, s, q);
        if !ok {
          ThrowsHere(n, from, to, limit, read, i, curTo, next);
          return;
        }
        read := read + [(i, curTo)];
        i := next;
      }
      NoneLeft(from, to, limit, read, i);
      ok := true;
    }
  }

  /** The log entries of these windows. */
  function LogOf(ws: seq<(nat, nat)>): Queue {
    if ws == [] then [] else LogOf(ws[..|ws| - 1]) + [Record(ws[|ws| - 1].0, ws[|ws| - 1].1, None, false)]
  }

  ghost predicate Recorded(q: Queue, ws: seq<(nat, nat)>, now: Queue) { now == q + LogOf(ws) }

  lemma NothingLogged(q: Queue)
    ensures Recorded(q, [], q)
  {
  }

  lemma OneMoreLogged(q: Queue, read: seq<(nat, nat)>, i: nat, curTo: nat)
    ensures q + LogOf(read) + [Record(i, curTo, None, false)] == q + LogOf(read + [(i, curTo)])
  {
    assert (read + [(i, curTo)])[..|read|] == read;
    Assoc(q, LogOf(read), [Record(i, curTo, None, false)]);
  }

  /** A run over the windows `ws` ends having read them all, or out of the first one that
      does not decode. */
  ghost predicate Ends(n: Node, ws: seq<(nat, nat)>, ok: bool, read: seq<(nat, nat)>) {
    if ok then read == ws
    else |read| < |ws| && read == ws[..|read|] && !Decodable(Plain(n), ws[|read|].0, ws[|read|].1 + 1)
  }

  lemma ThrowsHere(n: Node, from: nat, to: nat, limit: nat, read: seq<(nat, nat)>, i: nat, curTo: nat, next: nat)
    requires 1 <= limit && LeftFrom(from, to, limit, read + [(i, curTo)], next) && !Decodable(Plain(n), i, curTo + 1)
    ensures Ends(n, Windows(from, to, limit), false, read)
  {
    PrefixOf(Windows(from, to, limit), read, (i, curTo), Windows(next, to, limit));
  }

  lemma PrefixOf(ws: seq<(nat, nat)>, read: seq<(nat, nat)>, w: (nat, nat), rest: seq<(nat, nat)>)
    requires ws == (read + [w]) + rest
    ensures |read| < |ws| && read == ws[..|read|] && ws[|read|] == w
  {
  }

  function LazyStart(q: Queue, blockNumberFrom: nat, to: nat): nat {
    var latest := LatestEnd(q, to);
    if latest.Some? then latest.value + 1 else blockNumberFrom
  }

  function LazyCleared(s: Store, q: Queue, to: nat, limit: nat): Store {
    var latest := LatestEnd(q, to);
    if latest.Some? then WithoutRange(s, latest.value + 1, latest.value + limit) else s
  }

  lemma PlainIsValid(n: Node)
    requires ValidNode(n)
    ensures ValidNode(Plain(n))
  {
    forall b: nat | b < |Plain(n).blocks| ensures ValidBlock(Plain(n), b) {
      assert ValidBlock(n, b);
    }
  }

  /** Asking the store for the window's ids is as good as asking for all of them. */
  lemma {:induction false} MissingInRange(es: seq<Event>, s: Store, from: nat, end: nat)
    requires forall i :: 0 <= i < |es| ==> from <= es[i].blockNumber < end
    ensures Missing(es, map id | id in s && from <= id.blockNumber <= end - 1 :: s[id]) == Missing(es, s)
  {
    if es != [] {
      MissingInRange(es[..|es| - 1], s, from, end);
    }
  }

  lemma {:induction false} MissingIn(es: seq<Event>, s: Store)
    ensures forall e :: e in Missing(es, s) <==> e in es && IdOf(e) !in s
  {
    if es != [] {
      MissingIn(es[..|es| - 1], s);
    }
  }

  lemma {:induction false} MissingDistinct(es: seq<Event>, s: Store)
    requires DistinctIds(es)
    ensures DistinctIds(Missing(es, s)) && Fresh(s, Missing(es, s))
  {
    if es != [] {
      var init, e := es[..|es| - 1], es[|es| - 1];
      MissingDistinct(init, s);
      MissingIn(init, s);
      forall i | 0 <= i < |Missing(init, s)| ensures IdOf(Missing(init, s)[i]) != IdOf(e) {
        assert Missing(init, s)[i] in init;
      }
    }
  }

  lemma UpdateMinus(m: Store, id: EventId, d: Doc, s: Store)
    ensures m[id := d] - s.Keys == if id in s then m - s.Keys else (m - s.Keys)[id := d]
  {
  }

  /** The missing events are exactly the documents the store lacks. */
  lemma {:induction false} MissingLacks(es: seq<Event>, s: Store)
    ensures Docs(Missing(es, s)) == Docs(es) - s.Keys
  {
    if es != [] {
      var init, e := es[..|es| - 1], es[|es| - 1];
      MissingLacks(init, s);
      UpdateMinus(Docs(init), IdOf(e), DocOf(e), s);
      if IdOf(e) !in s {
        assert (Missing(init, s) + [e])[..|Missing(init, s)|] == Missing(init, s);
      } else {
        assert Missing(es, s) == Missing(init, s);
      }
    }
  }

  lemma MissingDocs(es: seq<Event>, s: Store)
    requires DistinctIds(es)
    ensures DistinctIds(Missing(es, s)) && Fresh(s, Missing(es, s))
    ensures Docs(Missing(es, s)) == Docs(es) - s.Keys
  {
    MissingDistinct(es, s);
    MissingLacks(es, s);
  }

  lemma ReadBack(s: Store, es: seq<Event>, results: Store, s': Store)
    requires s' == s + Docs(es)
    requires results == map id | id in s' && exists i :: 0 <= i < |es| && IdOf(es[i]) == id :: s'[id]
    ensures results == Docs(es)
  {
    DocsKeys(es);
  }

  /** The windows `ws` have been read, starting from store `s`. */
  ghost predicate Went(n: Node, ws: seq<(nat, nat)>, s: Store, now: Store, processed: Store) {
    now == AfterWindows(n, ws, s) && processed == Processed(n, ws, s)
  }

  lemma OneMoreWindow(n: Node, ws: seq<(nat, nat)>, w: (nat, nat), s: Store)
    ensures
      var before := AfterWindows(n, ws, s);
      && AfterWindows(n, ws + [w], s) == before + (ChainDocs(n, w.0, w.1 + 1) - before.Keys)
      && Processed(n, ws + [w], s) == Processed(n, ws, s) + (ChainDocs(n, w.0, w.1 + 1) - before.Keys)
  {
    assert (ws + [w])[..|ws|] == ws;
  }

  lemma WentOn(n: Node, ws: seq<(nat, nat)>, i: nat, curTo: nat, s: Store, before: Store, now: Store, processed: Store,
               missing: Store)
    requires Went(n, ws, s, before, processed)
    requires missing == ChainDocs(n, i, curTo + 1) - before.Keys && now == before + missing
    ensures Went(n, ws + [(i, curTo)], s, now, processed + missing)
  {
    OneMoreWindow(n, ws, (i, curTo), s);
  }

  /** The windows in `read` are done and those from `i` on are left. */
  ghost predicate LeftFrom(from: nat, to: nat, limit: nat, read: seq<(nat, nat)>, i: nat)
    requires 1 <= limit
  {
    Windows(from, to, limit) == read + Windows(i, to, limit)
  }

  lemma AllLeft(from: nat, to: nat, limit: nat)
    requires 1 <= limit
    ensures LeftFrom(from, to, limit, [], from)
  {
    assert [] + Windows(from, to, limit) == Windows(from, to, limit);
  }

  lemma NoneLeft(from: nat, to: nat, limit: nat, read: seq<(nat, nat)>, i: nat)
    requires 1 <= limit && LeftFrom(from, to, limit, read, i) && i > to
    ensures read == Windows(from, to, limit)
  {
    AppendNone(read);
  }

  lemma NextWindow(from: nat, read: seq<(nat, nat)>, i: nat, curTo: nat, to: nat, limit: nat, next: nat)
    requires 1 <= limit && i <= to && next == i + limit && curTo == if i + limit - 1 > to then to else i + limit - 1
    requires LeftFrom(from, to, limit, read, i)
    ensures LeftFrom(from, to, limit, read + [(i, curTo)], next)
  {
    Assoc(read, [(i, curTo)], Windows(i + limit, to, limit));
  }

  // ---- What this reader keeps ----

  /** Unlike the live reader's, the chain's events here are those of the logs with four topics
      alone, whatever contracts the service treats as pre-721, each decoded as an ERC-721 or
      ERC-1155 transfer. */
  lemma PlainYields(n: Node, from: nat, end: nat, e: Event)
    ensures e in RangeEvents(Plain(n), from, end) <==>
      exists b: nat, k: nat {:trigger n.blocks[b].logs[k]} ::
        from <= b < end && b < |n.blocks| && k < |n.blocks[b].logs| && Yields(n.blocks[b].logs[k], {}, e)
  {
    RangeYields(Plain(n), from, end, e);
    if b: nat :| from <= b < end && InBlock(Plain(n), b, e) {
      var k: nat :| k < |n.blocks[b].logs| && Yields(n.blocks[b].logs[k], {}, e);
    }
    if b: nat, k: nat {:trigger n.blocks[b].logs[k]} :|
      from <= b < end && b < |n.blocks| && k < |n.blocks[b].logs| && Yields(n.blocks[b].logs[k], {}, e) {
      assert InBlock(Plain(n), b, e);
    }
  }

  // ---- What a run does ----

  /** The windows partition the remaining range in order. */
  lemma {:induction false} WindowsPartition(i: nat, to: nat, limit: nat)
    requires 1 <= limit && i <= to + 1
    ensures Contiguous(Windows(i, to, limit), i, to + 1)
    decreases 1 + to - i
  {
    if i <= to {
      var curTo := if i + limit - 1 > to then to else i + limit - 1;
      if i + limit <= to {
        WindowsPartition(i + limit, to, limit);
      }
      ContiguousPrepend(i, curTo, Windows(i + limit, to, limit), to + 1);
    }
  }

  /** Every window but the last has exactly `limit` blocks, and the last one ends the run. */
  lemma {:induction false} WindowSizes(i: nat, to: nat, limit: nat, k: nat)
    requires 1 <= limit && k < |Windows(i, to, limit)|
    ensures
      var w := Windows(i, to, limit)[k];
      if k < |Windows(i, to, limit)| - 1 then w.1 == w.0 + limit - 1 && w.1 < to
      else w.1 == to && w.1 <= w.0 + limit - 1
    decreases k
  {
    var first := (i, if i + limit - 1 > to then to else i + limit - 1);
    assert Windows(i, to, limit) == [first] + Windows(i + limit, to, limit);
    if 0 < k {
      WindowSizes(i + limit, to, limit, k - 1);
    }
  }

  /** The windows so far have stored and handed on what the range lacked. */
  ghost predicate Covered(n: Node, ws: seq<(nat, nat)>, from: nat, end: nat, s: Store) {
    && AfterWindows(n, ws, s) == s + (ChainDocs(n, from, end) - s.Keys)
    && Processed(n, ws, s) == ChainDocs(n, from, end) - s.Keys
  }

  lemma CoveredMore(n: Node, init: seq<(nat, nat)>, w: (nat, nat), from: nat, s: Store)
    requires ValidNode(n) && from <= w.0 <= w.1 && Covered(n, init, from, w.0, s)
    ensures Covered(n, init + [w], from, w.1 + 1, s)
  {
    OneMoreWindow(n, init, w, s);
    WindowStep(n, from, w.0, w.1 + 1, s, AfterWindows(n, init, s), Processed(n, init, s));
  }

  lemma LastApart(ws: seq<(nat, nat)>)
    requires ws != []
    ensures ws == ws[..|ws| - 1] + [ws[|ws| - 1]]
  {
  }

  lemma CoveredNone(n: Node, b: nat, s: Store)
    ensures Covered(n, [], b, b, s)
  {
    NothingMissing(n, b, s);
  }

  lemma {:induction false} WindowsCover(n: Node, ws: seq<(nat, nat)>, from: nat, end: nat, s: Store)
    requires ValidNode(n)
    ensures !Contiguous(ws, from, end) || (from <= end && Covered(n, ws, from, end, s))
  {
    if Contiguous(ws, from, end) {
      if ws == [] {
        CoveredNone(n, from, s);
      } else {
        var w, init := ws[|ws| - 1], ws[..|ws| - 1];
        WindowsCover(n, init, from, w.0, s);
        LastApart(ws);
        CoveredMore(n, init, w, from, s);
      }
    }
  }

  lemma WindowsStores(n: Node, ws: seq<(nat, nat)>, from: nat, end: nat, s: Store)
    requires ValidNode(n) && Contiguous(ws, from, end)
    ensures from <= end
    ensures AfterWindows(n, ws, s) == s + (ChainDocs(n, from, end) - s.Keys)
    ensures Processed(n, ws, s) == ChainDocs(n, from, end) - s.Keys
  {
    WindowsCover(n, ws, from, end, s);
  }

  lemma NothingMissing(n: Node, b: nat, s: Store)
    ensures ChainDocs(n, b, b) - s.Keys == map[] && s + map[] == s
  {
  }

  lemma WindowStep(n: Node, from: nat, mid: nat, end: nat, s: Store, before: Store, processed: Store)
    requires ValidNode(n) && from <= mid <= end
    requires before == s + (ChainDocs(n, from, mid) - s.Keys) && processed == ChainDocs(n, from, mid) - s.Keys
    ensures before + (ChainDocs(n, mid, end) - before.Keys) == s + (ChainDocs(n, from, end) - s.Keys)
    ensures processed + (ChainDocs(n, mid, end) - before.Keys) == ChainDocs(n, from, end) - s.Keys
  {
    var p := Plain(n);
    PlainIsValid(n);
    RangeIsProper(p, from, mid);
    RangeIsProper(p, mid, end);
    ProperDocs(RangeEvents(p, from, mid), from, mid);
    ProperDocs(RangeEvents(p, mid, end), mid, end);
    RangeSplit(p, from, mid, end);
    DocsConcat(RangeEvents(p, from, mid), RangeEvents(p, mid, end));
    DisjointStep(s, ChainDocs(n, from, mid), ChainDocs(n, mid, end), mid);
  }

  lemma DisjointStep(s: Store, a: Store, b: Store, mid: nat)
    requires (forall id :: id in a ==> id.blockNumber < mid) && (forall id :: id in b ==> mid <= id.blockNumber)
    ensures
      var before := s + (a - s.Keys);
      && before + (b - before.Keys) == s + ((a + b) - s.Keys)
      && (a - s.Keys) + (b - before.Keys) == (a + b) - s.Keys
  {
    var before := s + (a - s.Keys);
    assert b - before.Keys == b - s.Keys;
  }

  /** A completed run adds exactly the chain events its range lacked and hands exactly
      those to the token processor, whatever the window size. */
  lemma RunAddsMissing(n: Node, from: nat, to: nat, limit: nat, s: Store)
    requires ValidNode(n) && 1 <= limit && from <= to + 1
    ensures AfterWindows(n, Windows(from, to, limit), s) == s + (ChainDocs(n, from, to + 1) - s.Keys)
    ensures Processed(n, Windows(from, to, limit), s) == ChainDocs(n, from, to + 1) - s.Keys
  {
    WindowsPartition(from, to, limit);
    WindowsStores(n, Windows(from, to, limit), from, to + 1, s);
  }

  /** The store holds nothing in these blocks that is not on the chain. */
  ghost predicate OnChain(s: Store, n: Node, from: nat, end: nat) {
    forall id :: id in s && from <= id.blockNumber < end
        ==> id in ChainDocs(n, from, end) && s[id] == ChainDocs(n, from, end)[id]
  }

  /** If what was stored is on the chain, the range mirrors the chain after the read, and
      a second read of it finds nothing missing. */
  lemma ReadCovers(n: Node, from: nat, end: nat, s: Store)
    requires ValidNode(n) && OnChain(s, n, from, end)
    ensures
      var s' := s + (ChainDocs(n, from, end) - s.Keys);
      Mirrors(s', Plain(n), from, end) && ChainDocs(n, from, end) - s'.Keys == map[]
  {
    var c := ChainDocs(n, from, end);
    var s' := s + (c - s.Keys);
    PlainIsValid(n);
    forall b: nat | from <= b < end ensures AtBlock(s', b) == BlockDocs(Plain(n), b) {
      RangeDocsAt(Plain(n), from, end, b);
      CoverAt(s, c, from, end, b);
    }
  }

  lemma CoverAt(s: Store, c: Store, from: nat, end: nat, b: nat)
    requires from <= b < end
    requires forall id :: id in s && from <= id.blockNumber < end ==> id in c && s[id] == c[id]
    ensures AtBlock(s + (c - s.Keys), b) == AtBlock(c, b)
  {
  }

  /** Resuming clears a whole window, even past the end of the run. Blocks above the end
      keep their events exactly when none is stored there within that window. */
  lemma ResumeKeepsBeyondIff(s: Store, q: Queue, to: nat, limit: nat)
    requires 1 <= limit && LatestEnd(q, to).Some?
    ensures
      (forall b: nat {:trigger AtBlock(s, b)} | to < b :: AtBlock(LazyCleared(s, q, to, limit), b) == AtBlock(s, b))
      <==> forall id :: id in s && to < id.blockNumber ==> LatestEnd(q, to).value + limit < id.blockNumber
  {
    var latest := LatestEnd(q, to).value;
    LatestEndBounds(q, to);
    if forall id :: id in s && to < id.blockNumber ==> latest + limit < id.blockNumber {
      forall b: nat | to < b ensures AtBlock(LazyCleared(s, q, to, limit), b) == AtBlock(s, b) {
        WithoutRangeAt(s, latest + 1, latest + limit, b);
        UnclearedAt(s, b, to, latest + limit);
      }
    } else {
      var id :| id in s && to < id.blockNumber && !(latest + limit < id.blockNumber);
      WithoutRangeAt(s, latest + 1, latest + limit, id.blockNumber);
      InItsBlock(s, id);
      assert AtBlock(s, id.blockNumber) != map[];
    }
  }

  lemma UnclearedAt(s: Store, b: nat, to: nat, upTo: nat)
    requires to < b && forall id :: id in s && to < id.blockNumber ==> upTo < id.blockNumber
    ensures b <= upTo ==> AtBlock(s, b) == map[]
  {
  }
}
