/** Range tasks: a block range read in chunks, resumable from the log of ranges. What
    `blockRangeProcessing` in src/app-events-reader/events-reader/events-reader.module.ts
    has to do, and why its chunk size does not matter. */
module RangeTask {
  import opened Prelude
  import opened Ethnode
  import opened EventStore
  import opened BlocksQueue
  import opened Reader

  /** The chunks a task reads: each of `limit + 1` blocks, the last one cut at `blockTo`. */
  function Ranges(from: nat, blockTo: nat, limit: nat): seq<(nat, nat)>
    decreases if from + limit > blockTo then 0 else blockTo + 1 - from
  {
    var to := if from + limit > blockTo then blockTo else from + limit;
    [(from, to)] + if to == blockTo then [] else Ranges(to + 1, blockTo, limit)
  }

  /** What is left to read once the chunk ending in `to` has been read. */
  function Rest(to: nat, from: nat, blockTo: nat, limit: nat): seq<(nat, nat)> {
    if to == blockTo then [] else Ranges(from, blockTo, limit)
  }

  /** The state after reading chunks one by one, without reorg handling. */
  function AfterRanges(n: Node, rs: seq<(nat, nat)>, rewrite: bool, s: State): State {
    if rs == [] then s
    else
      var r := rs[|rs| - 1];
      Logged(n, r.0, r.1, false, rewrite, AfterRanges(n, rs[..|rs| - 1], rewrite, s))
  }

  /** Each of these reads completes. */
  ghost predicate RangesComplete(n: Node, rs: seq<(nat, nat)>, rewrite: bool, s: State) {
    rs == [] ||
    var r, init := rs[|rs| - 1], rs[..|rs| - 1];
    && RangesComplete(n, init, rewrite, s)
    && Decodable(n, r.0, r.1 + 1)
    && Writable(AfterRanges(n, init, rewrite, s).store, RangeEvents(n, r.0, r.1 + 1), rewrite)
  }

  /** The chunks cover the blocks `from <= b < end` in order, without gap or overlap. */
  ghost predicate Contiguous(rs: seq<(nat, nat)>, from: nat, end: nat) {
    if rs == [] then end == from
    else
      var r := rs[|rs| - 1];
      r.0 <= r.1 && r.1 + 1 == end && Contiguous(rs[..|rs| - 1], from, r.0)
  }

  /** The greatest end below `to` among the live records. */
  function LatestEnd(q: Queue, to: nat): Option<nat> {
    if q == [] then None
    else
      var rest, r := LatestEnd(q[..|q| - 1], to), q[|q| - 1];
      if !r.isDeleted && r.to < to && (rest.None? || rest.value <= r.to) then Some(r.to) else rest
  }

  /** Where a task starts, and from which store: after the last logged range below its
      end, dropping every event beyond it. */
  function ResumeFrom(q: Queue, blockFrom: Option<nat>, blockTo: nat, rewrite: bool): nat {
    var latest := LatestEnd(q, blockTo);
    if !rewrite && latest.Some? then latest.value + 1
    else if blockFrom.Some? then blockFrom.value else 0
  }

  function ResumeState(s: State, blockTo: nat, rewrite: bool): State {
    var latest := LatestEnd(s.queue, blockTo);
    if !rewrite && latest.Some? then s.(store := UpTo(s.store, latest.value)) else s
  }

  datatype TaskEnd = Finished | Interrupted | Thrown

  /** The chunks `read` have been read, bringing state `s` to `now`. */
  ghost predicate Progress(n: Node, read: seq<(nat, nat)>, rewrite: bool, s: State, now: State) {
    RangesComplete(n, read, rewrite, s) && now == AfterRanges(n, read, rewrite, s)
  }

  /** The chunks `read` have been read, and the write of the next one has failed. */
  ghost predicate Halted(n: Node, read: seq<(nat, nat)>, next: (nat, nat), rewrite: bool, s: State, s': State) {
    RangesComplete(n, read, rewrite, s) && FailsToWrite(n, next.0, next.1, AfterRanges(n, read, rewrite, s), s')
  }

  /** How a task over the chunks `rs` ends, having read the first `read` of them: all
      read, interrupted before the next, or thrown out of the next, of whose events some
      first ones may have been inserted. */
  ghost predicate Outcome(n: Node, rs: seq<(nat, nat)>, rewrite: bool, abortAfter: Option<nat>, s: State, s': State,
                          end: TaskEnd, read: seq<(nat, nat)>) {
    match end
    case Finished => read == rs && Progress(n, read, rewrite, s, s')
    case Interrupted => read <= rs && abortAfter == Some(|read|) && Progress(n, read, rewrite, s, s')
    case Thrown =>
      && |read| < |rs| && read + [rs[|read|]] <= rs && !RangesComplete(n, read + [rs[|read|]], rewrite, s)
      && Halted(n, read, rs[|read|], rewrite, s, s')
  }

  lemma NextChunk(read: seq<(nat, nat)>, from: nat, to: nat, blockTo: nat, limit: nat)
    requires to == if from + limit > blockTo then blockTo else from + limit
    ensures Ranges(from, blockTo, limit) == [(from, to)] + Rest(to, to + 1, blockTo, limit)
    ensures read + Ranges(from, blockTo, limit) == (read + [(from, to)]) + Rest(to, to + 1, blockTo, limit)
  {
    Assoc(read, [(from, to)], Rest(to, to + 1, blockTo, limit));
  }

  lemma {:induction false} LatestEndIs(q: Queue, to: nat, r: Option<Record>)
    requires IsLatest(q, to, r)
    ensures LatestEnd(q, to) == if r.None? then None else Some(r.value.to)
  {
    LatestEndBounds(q, to);
    if r.Some? {
      var i :| 0 <= i < |q| && q[i] == r.value;
    }
  }

  lemma {:induction false} LatestEndBounds(q: Queue, to: nat)
    ensures forall i ::
        0 <= i < |q| && !q[i].isDeleted && q[i].to < to ==> LatestEnd(q, to).Some? && q[i].to <= LatestEnd(q, to).value
    ensures LatestEnd(q, to).Some?
      ==> exists i :: 0 <= i < |q| && !q[i].isDeleted && q[i].to < to && q[i].to == LatestEnd(q, to).value
  {
    if q != [] {
      LatestEndBounds(q[..|q| - 1], to);
    }
  }

  // ---- Splitting does not matter ----

  lemma {:induction false} ContiguousPrepend(from: nat, to: nat, rs: seq<(nat, nat)>, end: nat)
    requires from <= to && Contiguous(rs, to + 1, end)
    ensures Contiguous([(from, to)] + rs, from, end)
  {
    var all := [(from, to)] + rs;
    if rs == [] {
      assert all[..0] == [];
    } else {
      ContiguousPrepend(from, to, rs[..|rs| - 1], rs[|rs| - 1].0);
      assert all[..|all| - 1] == [(from, to)] + rs[..|rs| - 1];
    }
  }

  /** The chunks partition the task's range in order, whatever the limit. */
  lemma {:induction false} RangesPartition(from: nat, blockTo: nat, limit: nat)
    requires from <= blockTo
    ensures Contiguous(Ranges(from, blockTo, limit), from, blockTo + 1)
    ensures forall i ::
        0 <= i < |Ranges(from, blockTo, limit)|
        ==> Ranges(from, blockTo, limit)[i].1 <= Ranges(from, blockTo, limit)[i].0 + limit
    decreases blockTo - from
  {
    var to := if from + limit > blockTo then blockTo else from + limit;
    if to != blockTo {
      RangesPartition(to + 1, blockTo, limit);
      ContiguousPrepend(from, to, Ranges(to + 1, blockTo, limit), blockTo + 1);
    } else {
      ContiguousPrepend(from, to, [], blockTo + 1);
    }
  }

  lemma {:induction false} ContiguousPrefix(rs: seq<(nat, nat)>, from: nat, end: nat, k: nat)
    requires Contiguous(rs, from, end) && k <= |rs|
    ensures Contiguous(rs[..k], from, if k == |rs| then end else rs[k].0)
    ensures from <= end
  {
    if rs != [] {
      var init := rs[..|rs| - 1];
      ContiguousPrefix(init, from, rs[|rs| - 1].0, if k < |rs| then k else 0);
      if k < |rs| {
        assert init[..k] == rs[..k];
      } else {
        assert rs[..k] == rs;
      }
    }
  }

  /** Every chunk but the last has exactly `limit + 1` blocks, and the last one ends the task. */
  lemma {:induction false} ChunkSizes(from: nat, blockTo: nat, limit: nat, rs: seq<(nat, nat)>, i: nat)
    requires from <= blockTo && rs == Ranges(from, blockTo, limit) && i < |rs|
    ensures
      if i < |rs| - 1 then rs[i].1 == rs[i].0 + limit && rs[i].1 < blockTo
      else rs[i].1 == blockTo && rs[i].1 <= rs[i].0 + limit
    decreases i
  {
    if from + limit < blockTo {
      FirstChunk(from, blockTo, limit);
      if 0 < i {
        ChunkSizes(from + limit + 1, blockTo, limit, rs[1..], i - 1);
      }
    } else {
      OneChunk(from, blockTo, limit);
    }
  }

  lemma FirstChunk(from: nat, blockTo: nat, limit: nat)
    ensures from + limit < blockTo
      ==> Ranges(from, blockTo, limit) == [(from, from + limit)] + Ranges(from + limit + 1, blockTo, limit)
          && 0 < |Ranges(from + limit + 1, blockTo, limit)|
  {
  }

  lemma OneChunk(from: nat, blockTo: nat, limit: nat)
    ensures from <= blockTo <= from + limit ==> Ranges(from, blockTo, limit) == [(from, blockTo)]
  {
  }

  /** Reading contiguous chunks stores what one unsplit read stores. */
  lemma {:induction false} SplitStores(n: Node, rs: seq<(nat, nat)>, from: nat, end: nat, rewrite: bool, s: State)
    requires Contiguous(rs, from, end)
    ensures from <= end
    ensures AfterRanges(n, rs, rewrite, s).store == s.store + Docs(RangeEvents(n, from, end))
  {
    if rs == [] {
      EmptyRange(n, from, s.store);
    } else {
      var r, init := rs[|rs| - 1], rs[..|rs| - 1];
      var before := AfterRanges(n, init, rewrite, s).store;
      assert AfterRanges(n, rs, rewrite, s).store == before + Docs(RangeEvents(n, r.0, end));
      SplitStores(n, init, from, r.0, rewrite, s);
      SplitStep(before, s.store, n, from, r.0, end);
    }
  }

  lemma EmptyRange(n: Node, b: nat, s: Store)
    ensures s + Docs(RangeEvents(n, b, b)) == s
  {
  }

  lemma SplitStep(before: Store, s: Store, n: Node, from: nat, mid: nat, end: nat)
    requires from <= mid <= end && before == s + Docs(RangeEvents(n, from, mid))
    ensures before + Docs(RangeEvents(n, mid, end)) == s + Docs(RangeEvents(n, from, end))
  {
    SplitJoin(n, from, mid, end, s);
  }

  lemma SplitJoin(n: Node, from: nat, mid: nat, end: nat, s: Store)
    requires from <= mid <= end
    ensures s + Docs(RangeEvents(n, from, mid)) + Docs(RangeEvents(n, mid, end)) == s + Docs(RangeEvents(n, from, end))
  {
    var a, b := RangeEvents(n, from, mid), RangeEvents(n, mid, end);
    RangeSplit(n, from, mid, end);
    DocsConcat(a, b);
    UnionAssoc(s, Docs(a), Docs(b));
  }

  lemma UnionAssoc(s: Store, a: Store, b: Store)
    ensures s + a + b == s + (a + b)
  {
  }

  lemma DecodableSplit(n: Node, from: nat, mid: nat, end: nat)
    requires from <= mid <= end
    ensures Decodable(n, from, end) <==> Decodable(n, from, mid) && Decodable(n, mid, end)
  {
  }

  /** Inserting two adjacent ranges one after the other meets a taken id exactly when
      inserting them at once does. */
  lemma WritableSplit(n: Node, from: nat, mid: nat, end: nat, upsert: bool, s: Store)
    requires ValidNode(n) && from <= mid <= end
    ensures Writable(s, RangeEvents(n, from, end), upsert) <==>
      && Writable(s, RangeEvents(n, from, mid), upsert)
      && Writable(s + Docs(RangeEvents(n, from, mid)), RangeEvents(n, mid, end), upsert)
  {
    RangeIsProper(n, from, mid);
    RangeIsProper(n, mid, end);
    RangeIsProper(n, from, end);
    RangeSplit(n, from, mid, end);
    FreshJoin(s, RangeEvents(n, from, mid), RangeEvents(n, mid, end), from, mid, end);
  }

  lemma FreshJoin(s: Store, a: seq<Event>, b: seq<Event>, from: nat, mid: nat, end: nat)
    requires ProperRange(a, from, mid) && ProperRange(b, mid, end)
    ensures Fresh(s, a + b) <==> Fresh(s, a) && Fresh(s + Docs(a), b)
  {
    ProperDocs(a, from, mid);
    forall i | 0 <= i < |b| ensures IdOf(b[i]) !in Docs(a) {
    }
    if Fresh(s, a + b) {
      forall i | 0 <= i < |a| ensures IdOf(a[i]) !in s {
        assert (a + b)[i] == a[i];
      }
      forall i | 0 <= i < |b| ensures IdOf(b[i]) !in s {
        assert (a + b)[|a| + i] == b[i];
      }
    }
  }

  lemma CompletesStep(n: Node, from: nat, mid: nat, end: nat, upsert: bool, s: Store, before: Store)
    requires ValidNode(n) && from <= mid <= end && before == s + Docs(RangeEvents(n, from, mid))
    ensures Decodable(n, from, end) && Writable(s, RangeEvents(n, from, end), upsert) <==>
      && Decodable(n, from, mid) && Writable(s, RangeEvents(n, from, mid), upsert)
      && Decodable(n, mid, end) && Writable(before, RangeEvents(n, mid, end), upsert)
  {
    DecodableSplit(n, from, mid, end);
    WritableSplit(n, from, mid, end, upsert, s);
  }

  lemma {:induction false} SplitCompletes(n: Node, rs: seq<(nat, nat)>, from: nat, end: nat, rewrite: bool, s: State)
    requires ValidNode(n) && Contiguous(rs, from, end)
    ensures from <= end
    ensures RangesComplete(n, rs, rewrite, s)
      <==> Decodable(n, from, end) && Writable(s.store, RangeEvents(n, from, end), rewrite)
  {
    if rs != [] {
      var r, init := rs[|rs| - 1], rs[..|rs| - 1];
      SplitCompletes(n, init, from, r.0, rewrite, s);
      SplitStores(n, init, from, r.0, rewrite, s);
      LastRangeCompletes(n, rs, rewrite, s);
      ContiguousPrefix(init, from, r.0, 0);
      CompletesStep(n, from, r.0, end, rewrite, s.store, AfterRanges(n, init, rewrite, s).store);
    }
  }

  lemma LastRangeCompletes(n: Node, rs: seq<(nat, nat)>, rewrite: bool, s: State)
    requires rs != []
    ensures var r, init := rs[|rs| - 1], rs[..|rs| - 1];
      RangesComplete(n, rs, rewrite, s) <==>
        && RangesComplete(n, init, rewrite, s) && Decodable(n, r.0, r.1 + 1)
        && Writable(AfterRanges(n, init, rewrite, s).store, RangeEvents(n, r.0, r.1 + 1), rewrite)
  {
  }

  /** A range task, in whatever chunks, completes exactly when one unsplit read of the
      whole range would, and leaves the same event store. */
  lemma RangeTaskRefinesOneRead(n: Node, from: nat, blockTo: nat, limit: nat, rewrite: bool, s: State)
    requires ValidNode(n) && from <= blockTo
    ensures
      var one, rs := Logged(n, from, blockTo, false, rewrite, s), Ranges(from, blockTo, limit);
      && (RangesComplete(n, rs, rewrite, s) <==> Completes(n, from, blockTo, false, rewrite, s, one))
      && AfterRanges(n, rs, rewrite, s).store == one.store
  {
    RangesPartition(from, blockTo, limit);
    var rs := Ranges(from, blockTo, limit);
    SplitCompletes(n, rs, from, blockTo + 1, rewrite, s);
    SplitStores(n, rs, from, blockTo + 1, rewrite, s);
    PlainCompletes(n, from, blockTo, rewrite, s, Logged(n, from, blockTo, false, rewrite, s));
  }

  /** A task interrupted after `k` chunks has stored exactly a prefix of its range. */
  lemma InterruptedCoversPrefix(n: Node, from: nat, blockTo: nat, limit: nat, rewrite: bool, s: State, k: nat)
    requires from <= blockTo && k <= |Ranges(from, blockTo, limit)|
    ensures
      var rs := Ranges(from, blockTo, limit);
      var end := if k == |rs| then blockTo + 1 else rs[k].0;
      from <= end && AfterRanges(n, rs[..k], rewrite, s).store == s.store + Docs(RangeEvents(n, from, end))
  {
    RangesPartition(from, blockTo, limit);
    var rs := Ranges(from, blockTo, limit);
    ContiguousPrefix(rs, from, blockTo + 1, k);
    SplitStores(n, rs[..k], from, if k == |rs| then blockTo + 1 else rs[k].0, rewrite, s);
  }
}
