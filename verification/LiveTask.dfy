/** The live loop: follow the head of a chain that may reorganise between any two
    iterations. What `liveProcessing` in
    src/app-events-reader/events-reader/events-reader.module.ts has to do and keeps. */
module LiveTask {
  import opened Prelude
  import opened Ethnode
  import opened EventStore
  import opened BlocksQueue
  import opened Reader
  import opened Reorg
  import opened ReorgRuns
  import opened RangeTask

  /** `getLatestBlock`; every chain has its genesis block. */
  function Head(n: Node): nat { if n.blocks == [] then 0 else |n.blocks| - 1 }

  /** The calls of the loop, one chain view per iteration: an iteration waits when the
      head is the last block read, and else reads up to `limit + 1` blocks towards it. */
  function LiveCalls(views: seq<Node>, from: nat, to: nat, limit: nat): seq<Call>
  {
    if views == [] then []
    else
      var head := Head(views[0]);
      if to == head then LiveCalls(views[1..], from, to, limit)
      else
        var next := if from + limit > head then head else from + limit;
        [Call(views[0], from, next)] + LiveCalls(views[1..], next + 1, next, limit)
  }

  /** Call `i` brings state `i` to state `i + 1`. */
  ghost predicate StepAt(calls: seq<Call>, states: seq<State>, i: nat)
    requires i < |calls| && |states| == |calls| + 1
  {
    Completes(calls[i].node, calls[i].from, calls[i].to, true, false, states[i], states[i + 1])
  }

  ghost predicate Executes(calls: seq<Call>, states: seq<State>) {
    && |states| == |calls| + 1
    && forall i: nat {:trigger StepAt(calls, states, i)} :: i < |calls| ==> StepAt(calls, states, i)
  }

  /** Every logged range is proper and every stored event lies below `from`. */
  ghost predicate Healthy(s: State, from: nat) { Proper(s.queue) && Within(s.store, 0, from) }

  /** Each view is a well-formed chain whose head is not below the previous one. */
  ghost predicate Growing(head: nat, views: seq<Node>)
    decreases |views|
  {
    views == [] || (ValidNode(views[0]) && head < |views[0].blocks| && Growing(Head(views[0]), views[1..]))
  }

  /** A resume leaves no stored event from its start on: there is a log entry to clear
      beyond, or nothing was stored there. */
  ghost predicate CleanStart(s: State, blockFrom: Option<nat>, head: nat) {
    LatestEnd(s.queue, head).Some? || Within(s.store, 0, ResumeFrom(s.queue, blockFrom, head, false))
  }

  lemma StartIsHealthy(s: State, blockFrom: Option<nat>, head: nat)
    requires Proper(s.queue) && CleanStart(s, blockFrom, head)
    ensures Healthy(ResumeState(s, head, false), ResumeFrom(s.queue, blockFrom, head, false))
  {
  }

  // ---- A live call stays below its end ----

  lemma UnionWithin(s: Store, d: Store, lo: nat, end: nat)
    requires Within(s, lo, end) && Within(d, lo, end)
    ensures Within(s + d, lo, end)
  {
  }

  lemma LoggedWithin(n: Node, from: nat, to: nat, s: Store, end: nat)
    requires ValidNode(n) && Within(s, 0, end) && to < end
    ensures Within(s + Docs(RangeEvents(n, from, to + 1)), 0, end)
  {
    var es := RangeEvents(n, from, to + 1);
    RangeIsProper(n, from, to + 1);
    ProperDocs(es, from, to + 1);
    UnionWithin(s, Docs(es), 0, end);
  }

  lemma LoggedProper(n: Node, from: nat, to: nat, reread: bool, s: State)
    requires from <= to && Proper(s.queue)
    ensures Proper(Logged(n, from, to, true, reread, s).queue)
  {
  }

  /** Whatever a live call re-reads, and whichever records the database picks, it stores
      nothing at or above a bound that was above its own range. */
  lemma {:induction false} CallStaysBelow(n: Node, from: nat, to: nat, reread: bool, s: State, s': State, end: nat)
    requires ValidNode(n) && from <= to < end && Proper(s.queue) && Within(s.store, 0, end)
    requires Completes(n, from, to, true, reread, s, s')
    ensures Within(s'.store, 0, end) && Proper(s'.queue)
    decreases from
  {
    var latest, t, q := CallUnfolds(n, from, to, reread, s, s');
    LoggedProper(n, from, to, reread, s);
    LoggedWithin(n, from, to, s.store, end);
    if Diverges(n, from, latest) {
      var l := latest.value;
      SoftDeleteProper(t.queue, l.from, l.to, q);
      CallStaysBelow(n, l.from, l.to, true, Retired(t, l, q), s', end);
    }
  }

  lemma AboveIsWritable(n: Node, from: nat, to: nat, s: Store)
    requires ValidNode(n) && Within(s, 0, from)
    ensures Writable(s, RangeEvents(n, from, to + 1), false)
  {
    var es := RangeEvents(n, from, to + 1);
    RangeIsProper(n, from, to + 1);
    forall i | 0 <= i < |es| ensures IdOf(es[i]) !in s {
    }
  }

  /** One more call leaves the earlier steps as they are. */
  lemma ExtendedAt(calls: seq<Call>, states: seq<State>, c: Call, s: State, i: nat)
    requires |states| == |calls| + 1 && i <= |calls|
    ensures StepAt(calls + [c], states + [s], i) <==>
      if i < |calls| then StepAt(calls, states, i) else Completes(c.node, c.from, c.to, true, false, states[|calls|], s)
  {
    if i < |calls| {
      assert (calls + [c])[i] == calls[i];
      assert (states + [s])[i + 1] == states[i + 1];
    }
    assert (states + [s])[i] == states[i];
  }

  lemma ExtendRun(calls: seq<Call>, states: seq<State>, c: Call, s: State)
    requires Executes(calls, states) && Completes(c.node, c.from, c.to, true, false, states[|calls|], s)
    ensures Executes(calls + [c], states + [s])
  {
    forall i: nat | i <= |calls| {
      ExtendedAt(calls, states, c, s, i);
    }
  }

  function Next(n: Node, from: nat, limit: nat): nat {
    if from + limit > Head(n) then Head(n) else from + limit
  }

  /** The calls made so far lead from state `first` to `now`. */
  ghost predicate Made(calls: seq<Call>, states: seq<State>, first: State, now: State) {
    Executes(calls, states) && states[0] == first && now == states[|calls|]
  }

  lemma MadeOne(calls: seq<Call>, states: seq<State>, first: State, now: State, c: Call, now': State)
    requires Made(calls, states, first, now) && Completes(c.node, c.from, c.to, true, false, now, now')
    ensures Made(calls + [c], states + [now'], first, now')
  {
    ExtendRun(calls, states, c, now');
  }

  /** How the task ends: aborted after its last view, thrown out of a call, or dead with a
      re-read pending. */
  datatype LiveEnd = Aborted | CallThrew | CallDied

  /** How a call ends that ends the task so. */
  function CallEnd(end: LiveEnd): ReadEnd { if end.Aborted? then Completed else if end.CallThrew? then Threw else Died }

  /** Iteration `i` begins: `calls` have been made, `from` and `to` are the loop's
      variables, `now` the state. */
  ghost predicate Following(views: seq<Node>, start: nat, limit: nat, i: nat, from: nat, to: nat,
                            calls: seq<Call>, states: seq<State>, first: State, now: State) {
    && i <= |views| && Made(calls, states, first, now)
    && LiveCalls(views, start, 0, limit) == calls + LiveCalls(views[i..], from, to, limit)
  }

  /** The calls made, and how they relate to all the calls the views ask for. */
  ghost predicate Followed(all: seq<Call>, most: nat, calls: seq<Call>, states: seq<State>, first: State, now: State,
                           end: LiveEnd)
  {
    && Executes(calls, states) && states[0] == first && calls <= all
    && if end.Aborted? then calls == all && now == states[|calls|]
       else
         |calls| < |all| &&
         var c := all[|calls|];
         Reads(c.node, c.from, c.to, true, false, most, states[|calls|], now, CallEnd(end))
  }

  lemma FollowingBegins(views: seq<Node>, start: nat, limit: nat, s: State)
    ensures Following(views, start, limit, 0, start, 0, [], [s], s, s)
  {
    assert views[0..] == views;
    var all := LiveCalls(views, start, 0, limit);
    assert [] + all == all;
  }

  lemma FollowingEnds(views: seq<Node>, start: nat, limit: nat, most: nat, from: nat, to: nat,
                      calls: seq<Call>, states: seq<State>, first: State, now: State)
    requires Following(views, start, limit, |views|, from, to, calls, states, first, now)
    ensures Followed(LiveCalls(views, start, 0, limit), most, calls, states, first, now, Aborted)
  {
    AppendNone(calls);
  }

  /** The call the loop makes next. */
  lemma NextCall(views: seq<Node>, start: nat, limit: nat, i: nat, from: nat, to: nat,
                 calls: seq<Call>, states: seq<State>, first: State, now: State)
    requires i < |views| && Following(views, start, limit, i, from, to, calls, states, first, now)
      && to != Head(views[i])
    ensures var all := LiveCalls(views, start, 0, limit);
      |calls| < |all| && calls <= all && all[|calls|] == Call(views[i], from, Next(views[i], from, limit))
  {
    AfterReadCalls(views, i, from, to, limit, calls);
  }

  /** One pass through the loop's body: wait, or read up to `to'`, proper range or not. */
  ghost predicate Passes(n: Node, limit: nat, most: nat, from: nat, to: nat, from': nat, to': nat, now: State,
                         now': State, end: ReadEnd)
  {
    if to == Head(n) then end == Completed && from' == from && to' == to && now' == now
    else to' == Next(n, from, limit) && from' == to' + 1 && Reads(n, from, to', true, false, most, now, now', end)
  }

  lemma AfterPass(views: seq<Node>, start: nat, limit: nat, most: nat, i: nat, from: nat, to: nat, from': nat, to': nat,
                  calls: seq<Call>, states: seq<State>, first: State, now: State, now': State)
    returns (calls': seq<Call>, states': seq<State>)
    requires i < |views| && Following(views, start, limit, i, from, to, calls, states, first, now)
    requires Passes(views[i], limit, most, from, to, from', to', now, now', Completed)
    ensures Following(views, start, limit, i + 1, from', to', calls', states', first, now')
  {
    if to == Head(views[i]) {
      assert views[i..][0] == views[i] && views[i..][1..] == views[i + 1..];
      calls', states' := calls, states;
    } else {
      calls', states' := calls + [Call(views[i], from, to')], states + [now'];
      MadeOne(calls, states, first, now, Call(views[i], from, to'), now');
      AfterReadCalls(views, i, from, to, limit, calls);
    }
  }

  lemma AfterReadCalls(views: seq<Node>, i: nat, from: nat, to: nat, limit: nat, calls: seq<Call>)
    requires i < |views| && to != Head(views[i])
    ensures
      var next := Next(views[i], from, limit);
      calls + LiveCalls(views[i..], from, to, limit)
        == (calls + [Call(views[i], from, next)]) + LiveCalls(views[i + 1..], next + 1, next, limit)
  {
    var next := Next(views[i], from, limit);
    assert views[i..][0] == views[i] && views[i..][1..] == views[i + 1..];
    Assoc(calls, [Call(views[i], from, next)], LiveCalls(views[i + 1..], next + 1, next, limit));
  }

  // ---- What the loop's calls do together ----

  /** Each call starts right after the previous one and ends on its chain. */
  ghost predicate Chained(calls: seq<Call>, from: nat)
    decreases |calls|
  {
    |calls| == 0 ||
    (calls[0].from == from && from <= calls[0].to < |calls[0].node.blocks| && ValidNode(calls[0].node)
     && Chained(calls[1..], calls[0].to + 1))
  }

  /** Each call reads `limit + 1` blocks, or up to its chain's last block if that comes first,
      from where the one before ended. */
  lemma {:induction false} LiveCallAt(views: seq<Node>, from: nat, to: nat, limit: nat, i: nat)
    requires i < |LiveCalls(views, from, to, limit)|
    ensures
      var calls := LiveCalls(views, from, to, limit);
      && calls[i].node in views
      && calls[i].from == (if i == 0 then from else calls[i - 1].to + 1)
      && (0 < |calls[i].node.blocks| ==>
            calls[i].to ==
            if calls[i].from + limit >= |calls[i].node.blocks| then |calls[i].node.blocks| - 1
                else calls[i].from + limit)
    decreases |views|
  {
    if to == Head(views[0]) {
      LiveCallAt(views[1..], from, to, limit, i);
    } else {
      var next := Next(views[0], from, limit);
      assert LiveCalls(views, from, to, limit) ==
        [Call(views[0], from, next)] + LiveCalls(views[1..], next + 1, next, limit);
      if 0 < i {
        LiveCallAt(views[1..], next + 1, next, limit, i - 1);
      }
    }
  }

  /** The last block the loop has tried to read. */
  function LastTo(calls: seq<Call>, to: nat): nat { if calls == [] then to else calls[|calls| - 1].to }

  lemma LastToLater(c: Call, calls: seq<Call>, to: nat)
    ensures LastTo([c] + calls, to) == LastTo(calls, c.to)
  {
  }

  /** A further iteration makes a call if and only if the last block of its chain is not the
      one the loop read up to before, be it higher or lower. */
  lemma {:induction false} LiveCallIff(views: seq<Node>, n: Node, from: nat, to: nat, limit: nat)
    requires n.blocks != []
    ensures
      var calls, more := LiveCalls(views, from, to, limit), LiveCalls(views + [n], from, to, limit);
      calls <= more && |more| == |calls| + if LastTo(calls, to) == |n.blocks| - 1 then 0 else 1
    decreases |views|
  {
    if views == [] {
      assert LiveCalls([n][1..], Next(n, from, limit) + 1, Next(n, from, limit), limit) == [];
    } else {
      assert (views + [n])[1..] == views[1..] + [n];
      if to == Head(views[0]) {
        LiveCallIff(views[1..], n, from, to, limit);
      } else {
        var next := Next(views[0], from, limit);
        LiveCallIff(views[1..], n, next + 1, next, limit);
        LastToLater(Call(views[0], from, next), LiveCalls(views[1..], next + 1, next, limit), to);
      }
    }
  }

  /** While the head never drops, the ranges of the loop (cascades apart) are contiguous. */
  lemma {:induction false} LiveCallsChained(views: seq<Node>, head: nat, from: nat, to: nat, limit: nat)
    requires Growing(head, views) && (from <= head || (from == to + 1 && to == head))
    ensures Chained(LiveCalls(views, from, to, limit), from)
    ensures forall i ::
        0 <= i < |LiveCalls(views, from, to, limit)| ==> LiveCalls(views, from, to, limit)[i].node in views
    decreases |views|
  {
    if views != [] {
      var n, rest := views[0], views[1..];
      if to == Head(n) {
        LiveCallsChained(rest, Head(n), from, to, limit);
      } else {
        var next := Next(n, from, limit);
        LiveCallsChained(rest, Head(n), next + 1, next, limit);
        assert LiveCalls(views, from, to, limit) == [Call(n, from, next)] + LiveCalls(rest, next + 1, next, limit);
      }
    }
  }

  /** A head that never drops never leads to an improper range. */
  lemma GrowingNeverDrops(views: seq<Node>, head: nat, start: nat, limit: nat, i: nat)
    requires Growing(head, views) && start <= head && i < |LiveCalls(views, start, 0, limit)|
    ensures var c := LiveCalls(views, start, 0, limit)[i]; c.from <= c.to < |c.node.blocks|
  {
    LiveCallsChained(views, head, start, 0, limit);
    ChainedAt(LiveCalls(views, start, 0, limit), start, i);
  }

  /** The next range is a proper one exactly when the head has not dropped below its start. */
  lemma RangeProperIff(n: Node, from: nat, limit: nat, s: State)
    requires Proper(s.queue)
    ensures Proper(Logged(n, from, Next(n, from, limit), true, false, s).queue) <==> from <= Head(n)
  {
    var r := Record(from, Next(n, from, limit), HashAt(n, Next(n, from, limit)), false);
    assert r in s.queue + [r];
  }

  /** While the ranges are contiguous, the state before and after each call made is healthy. */
  lemma {:induction false} HealthyAt(all: seq<Call>, calls: seq<Call>, states: seq<State>, from: nat, i: nat)
    requires calls <= all && Executes(calls, states) && Chained(all, from) && Healthy(states[0], from) && i <= |calls|
    ensures Healthy(states[i], EndAt(from, all, i))
  {
    if 0 < i {
      var c := calls[i - 1];
      HealthyAt(all, calls, states, from, i - 1);
      ChainedAt(all, from, i - 1);
      assert StepAt(calls, states, i - 1) && all[i - 1] == c;
      assert Within(states[i - 1].store, 0, c.to + 1);
      CallStaysBelow(c.node, c.from, c.to, false, states[i - 1], states[i], c.to + 1);
    }
  }

  /** Before every call of the loop, whatever was re-read in between and however soft
      deletes were resolved, each stored event lies below the call's range, so the insert
      never meets a taken id. */
  lemma LiveNeverCollides(all: seq<Call>, calls: seq<Call>, states: seq<State>, from: nat, i: nat)
    requires calls <= all && Executes(calls, states) && Chained(all, from) && Healthy(states[0], from) && i <= |calls|
      && i < |all|
    ensures Healthy(states[i], all[i].from)
    ensures Writable(states[i].store, RangeEvents(all[i].node, all[i].from, all[i].to + 1), false)
  {
    HealthyAt(all, calls, states, from, i);
    ChainedAt(all, from, i);
    AboveIsWritable(all[i].node, all[i].from, all[i].to, states[i].store);
  }

  /** A live task that starts clean and sees no head drop ends only by being aborted: no call
      throws, unless on an undecodable log, and none needs more re-reads than it has blocks
      below it. */
  lemma LiveEndsAborted(views: seq<Node>, head: nat, start: nat, limit: nat, most: nat,
                        calls: seq<Call>, states: seq<State>, first: State, now: State, end: LiveEnd)
    requires Growing(head, views) && start <= head && Healthy(first, start)
    requires Followed(LiveCalls(views, start, 0, limit), most, calls, states, first, now, end)
    requires forall n: Node, b: nat :: n in views ==> DecodableBlock(n, b)
    requires forall n: Node :: n in views ==> |n.blocks| <= most
    ensures end == Aborted
  {
    var all := LiveCalls(views, start, 0, limit);
    LiveCallsChained(views, head, start, 0, limit);
    if end != Aborted {
      var c, s := all[|calls|], states[|calls|];
      assert c.node in views;
      LiveNeverCollides(all, calls, states, start, |calls|);
      ChainedAt(all, start, |calls|);
      NeverThrows(c.node, c.from, c.to, true, false, most, s, now);
      ProperWalkEnds(c.node, c.from, c.to, false, most, s, now);
    }
  }

  /** In particular from the resume point of a task whose log is proper and which resumes
      clean. */
  lemma ResumedEndsAborted(s: State, head: nat, views: seq<Node>, blockFrom: Option<nat>, limit: nat, most: nat,
                           calls: seq<Call>, states: seq<State>, now: State, end: LiveEnd)
    requires Proper(s.queue) && CleanStart(s, blockFrom, head)
    requires Growing(head, views) && ResumeFrom(s.queue, blockFrom, head, false) <= head
    requires var all := LiveCalls(views, ResumeFrom(s.queue, blockFrom, head, false), 0, limit);
      Followed(all, most, calls, states, ResumeState(s, head, false), now, end)
    requires forall n: Node, b: nat :: n in views ==> DecodableBlock(n, b)
    requires forall n: Node :: n in views ==> |n.blocks| <= most
    ensures end == Aborted
  {
    StartIsHealthy(s, blockFrom, head);
    LiveEndsAborted(views, head, ResumeFrom(s.queue, blockFrom, head, false), limit, most, calls, states,
                    ResumeState(s, head, false), now, end);
  }

  /** No call finds a stale live record with a soft-deleted twin. */
  ghost predicate NeverAmbiguous(calls: seq<Call>, states: seq<State>)
    requires |states| == |calls| + 1
  {
    forall i: nat {:trigger states[i].queue} :: i < |calls| ==> Unambiguous(states[i].queue, calls[i].node)
  }

  lemma ExecutesIsRun(u: set<Node>, calls: seq<Call>, states: seq<State>, from: nat)
    requires Executes(calls, states) && Chained(calls, from) && NeverAmbiguous(calls, states)
    requires forall i :: 0 <= i < |calls| ==> calls[i].node in u
    ensures Run(u, from, calls, states)
  {
    forall i: nat | i < |calls| ensures GoesOn(u, from, calls, states, i) {
      assert StepAt(calls, states, i);
      assert Unambiguous(states[i].queue, calls[i].node);
      ChainedAt(calls, from, i);
    }
  }

  lemma {:induction false} ChainedAt(calls: seq<Call>, from: nat, i: nat)
    requires Chained(calls, from) && i < |calls|
    ensures calls[i].from == EndAt(from, calls, i) && calls[i].from <= calls[i].to < |calls[i].node.blocks|
      && ValidNode(calls[i].node)
    decreases i
  {
    if 0 < i {
      ChainedAt(calls[1..], calls[0].to + 1, i - 1);
      assert calls[1..][i - 1] == calls[i];
      assert 1 < i ==> calls[1..][i - 2] == calls[i - 1];
    }
  }

  /** The live loop follows the chain: after each of its calls every covered block holds
      the events of the chain that call saw. */
  lemma LiveFollowsChain(u: set<Node>, views: seq<Node>, head: nat, from: nat, limit: nat,
                         ls: seq<Record>, ws: seq<Node>, lo: nat, states: seq<State>)
    requires World(u) && (forall n :: n in views ==> n in u) && Growing(head, views) && from <= head
    requires Executes(LiveCalls(views, from, 0, limit), states)
      && NeverAmbiguous(LiveCalls(views, from, 0, limit), states)
    requires Inv(u, states[0], ls, ws, lo, from)
    ensures
      var calls := LiveCalls(views, from, 0, limit);
      forall i :: 0 <= i < |calls| ==> Correct(lo, calls[i], states[i + 1])
  {
    var calls := LiveCalls(views, from, 0, limit);
    LiveCallsChained(views, head, from, 0, limit);
    ExecutesIsRun(u, calls, states, from);
    ReorgCorrect(u, ls, ws, lo, from, calls, states);
  }
}
