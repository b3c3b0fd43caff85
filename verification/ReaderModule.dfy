/** The task loops of `EventsReaderModule`
    (src/app-events-reader/events-reader/events-reader.module.ts). */
module ReaderModule {
  import opened Prelude
  import opened Ethnode
  import opened EventStore
  import opened BlocksQueue
  import opened Reader
  import opened ReorgRuns
  import opened RangeTask
  import opened LiveTask

  class EventsReaderModule {
    const reader: EventsReaderService

    constructor (reader: EventsReaderService)
      ensures this.reader == reader
    {
      this.reader := reader;
    }

    /** The start of a task: resume after the last logged range, clearing what a crash
        may have left beyond it. */
    method Resume(blockFrom: Option<nat>, blockTo: nat, rewrite: bool) returns (from: nat)
      modifies reader.events
      ensures from == ResumeFrom(old(reader.Abs()).queue, blockFrom, blockTo, rewrite)
      ensures reader.Abs() == ResumeState(old(reader.Abs()), blockTo, rewrite)
      ensures rewrite || (forall r :: r in reader.blockQueue.records && !r.isDeleted ==> blockTo <= r.to) ==>
        from == (if blockFrom.Some? then blockFrom.value else 0) && reader.Abs() == old(reader.Abs())
      ensures !rewrite ==> forall r :: r in reader.blockQueue.records && !r.isDeleted && r.to < blockTo ==>
        && r.to < from
          && (exists x :: x in reader.blockQueue.records && !x.isDeleted && x.to < blockTo && x.to + 1 == from)
        && reader.events.docs == map id | id in old(reader.events.docs)
          && id.blockNumber < from :: old(reader.events.docs)[id]
    {
      from := if blockFrom.Some? then blockFrom.value else 0;
      if !rewrite {
        var latest := reader.blockQueue.GetLatest(blockTo);
        LatestEndIs(reader.blockQueue.records, blockTo, latest);
        if latest.Some? {
          from := latest.value.to + 1;
          reader.events.DeleteWhereBlockNumberGreaterThan(latest.value.to);
        }
      }
    }

    /** One iteration's read, seen as progress through the chunks of the task. */
    method ReadChunk(n: Node, from: nat, to: nat, rewrite: bool, ghost read: seq<(nat, nat)>, ghost s: State)
      returns (ok: bool)
      requires Progress(n, read, rewrite, s, reader.Abs())
      modifies reader, reader.events, reader.blockQueue
      ensures ok ==> Progress(n, read + [(from, to)], rewrite, s, reader.Abs())
      ensures !ok ==> !RangesComplete(n, read + [(from, to)], rewrite, s)
      ensures !ok ==> Halted(n, read, (from, to), rewrite, s, reader.Abs())
    {
      assert (read + [(from, to)])[..|read|] == read;
      var end := reader.Read(n, from, to, false, rewrite, 0);
      ok := end == Completed;
    }

    /** The task's loop. `abortAfter` counts the iterations that pass before the abort
        signal is seen; a task that runs to the end is then stopped (`Finished`). */
    method ReadChunks(n: Node, from0: nat, blockTo: nat, rewrite: bool, limit: nat, abortAfter: Option<nat>)
      returns (end: TaskEnd, ghost read: seq<(nat, nat)>)
      requires 0 < blockTo
      modifies reader, reader.events, reader.blockQueue
      ensures Outcome(n, Ranges(from0, blockTo, limit), rewrite, abortAfter, old(reader.Abs()), reader.Abs(), end, read)
    {
      ghost var s := reader.Abs();
      ghost var rest := Ranges(from0, blockTo, limit);
      var to: nat := 0;
      var from: nat := from0;
      var done := 0;
      read := [];
      while abortAfter != Some(done) && to != blockTo
        invariant done == |read| && Progress(n, read, rewrite, s, reader.Abs())
        invariant Ranges(from0, blockTo, limit) == read + rest
        invariant rest == Rest(to, from, blockTo, limit)
        decreases |rest|
      {
        to := if from + limit > blockTo then blockTo else from + limit;
        ghost var chunk, tail := [(from, to)], Rest(to, to + 1, blockTo, limit);
        NextChunk(read, from, to, blockTo, limit);
        var ok := ReadChunk(n, from, to, rewrite, read, s);
        if !ok {
          assert |chunk| == 1 && (read + chunk)[|read|] == (from, to);
          return Thrown, read;
        }
        read, rest := read + chunk, tail;
        done := done + 1;
        from := to + 1;
      }
      end := if abortAfter == Some(done) then Interrupted else Finished;
    }

    method BlockRangeProcessing(n: Node, blockFrom: Option<nat>, blockTo: nat, rewrite: bool, limit: nat,
                                abortAfter: Option<nat>)
      returns (end: TaskEnd, ghost read: seq<(nat, nat)>)
      requires 0 < blockTo
      modifies reader, reader.events, reader.blockQueue
      ensures
        var rs := Ranges(ResumeFrom(old(reader.Abs()).queue, blockFrom, blockTo, rewrite), blockTo, limit);
        Outcome(n, rs, rewrite, abortAfter, ResumeState(old(reader.Abs()), blockTo, rewrite), reader.Abs(), end, read)
    {
      var from := Resume(blockFrom, blockTo, rewrite);
      end, read := ReadChunks(n, from, blockTo, rewrite, limit, abortAfter);
    }

    /** The body of the live loop: wait if the head has been read, else read towards it. */
    method Iterate(n: Node, from0: nat, to0: nat, limit: nat, most: nat) returns (end: ReadEnd, from: nat, to: nat)
      modifies reader, reader.events, reader.blockQueue
      ensures Passes(n, limit, most, from0, to0, from, to, old(reader.Abs()), reader.Abs(), end)
    {
      end, from, to := Completed, from0, to0;
      if to == Head(n) {
        return;
      }
      to := if from + limit > Head(n) then Head(n) else from + limit;
      end := reader.Read(n, from, to, true, false, most);
      from := to + 1;
    }

    /** The live loop: `views[i]` is the chain iteration `i` sees; the task is aborted
        after the last view. `most`: see `Reads`. */
    method FollowHead(views: seq<Node>, start: nat, limit: nat, most: nat)
      returns (end: LiveEnd, ghost calls: seq<Call>, ghost states: seq<State>)
      modifies reader, reader.events, reader.blockQueue
      ensures Followed(LiveCalls(views, start, 0, limit), most, calls, states, old(reader.Abs()), reader.Abs(), end)
    {
      var from: nat, to: nat := start, 0;
      calls, states := [], [reader.Abs()];
      ghost var first := reader.Abs();
      FollowingBegins(views, start, limit, first);
      for i := 0 to |views|
        invariant Following(views, start, limit, i, from, to, calls, states, first, reader.Abs())
      {
        ghost var now := reader.Abs();
        if to != Head(views[i]) {
          NextCall(views, start, limit, i, from, to, calls, states, first, now);
        }
        var readEnd, from', to' := Iterate(views[i], from, to, limit, most);
        if readEnd != Completed {
          end := if readEnd == Threw then CallThrew else CallDied;
          return;
        }
        calls, states :=
          AfterPass(views, start, limit, most, i, from, to, from', to', calls, states, first, now, reader.Abs());
        from, to := from', to';
      }
      FollowingEnds(views, start, limit, most, from, to, calls, states, first, reader.Abs());
      end := Aborted;
    }

    /** `first` answers the initial head query. */
    method LiveProcessing(first: Node, views: seq<Node>, blockFrom: Option<nat>, limit: nat, most: nat)
      returns (end: LiveEnd, ghost calls: seq<Call>, ghost states: seq<State>)
      modifies reader, reader.events, reader.blockQueue
      ensures
        var all := LiveCalls(views, ResumeFrom(old(reader.Abs()).queue, blockFrom, Head(first), false), 0, limit);
        Followed(all, most, calls, states, ResumeState(old(reader.Abs()), Head(first), false), reader.Abs(), end)
    {
      var from := Resume(blockFrom, Head(first), false);
      end, calls, states := FollowHead(views, from, limit, most);
    }
  }
}
