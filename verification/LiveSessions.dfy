/** The live task across restarts of the service: each session resumes from the log
    (src/app-events-reader/events-reader/events-reader.module.ts) and follows the head until
    the process dies, between two calls or while it writes the events of the next range.
    When a resume keeps what reorg correctness needs, and that it then lasts over any number
    of sessions. */
module LiveSessions {
  import opened Prelude
  import opened Ethnode
  import opened EventStore
  import opened BlocksQueue
  import opened Reader
  import opened Reorg
  import opened ReorgRuns
  import opened RangeTask
  import opened LiveTask

  // ---- Where a session resumes ----

  function Base(blockFrom: Option<nat>): nat { if blockFrom.Some? then blockFrom.value else 0 }

  lemma TilesEmptyIff(ls: seq<Record>, lo: nat, end: nat)
    requires Tiles(ls, lo, end)
    ensures ls == [] <==> lo == end
  {
    TilesBounds(ls, lo, end);
    if ls != [] {
      assert lo <= ls[0].from <= ls[0].to < end;
    }
  }

  /** The greatest live end below the head, in terms of the live records. */
  lemma LatestLive(q: Queue, ls: seq<Record>, lo: nat, end: nat, head: nat)
    requires Tiles(ls, lo, end) && Live(q) == multiset(ls)
    ensures LatestEnd(q, head).Some? ==>
      LatestEnd(q, head).value < head && exists i :: 0 <= i < |ls| && ls[i].to == LatestEnd(q, head).value
    ensures forall i ::
        0 <= i < |ls| && ls[i].to < head ==> LatestEnd(q, head).Some? && ls[i].to <= LatestEnd(q, head).value
  {
    LatestEndBounds(q, head);
    if LatestEnd(q, head).Some? {
      var i :| 0 <= i < |q| && !q[i].isDeleted && q[i].to < head && q[i].to == LatestEnd(q, head).value;
      LiveIn(q, q[i]);
      assert q[i] in multiset(ls);
    }
    forall i | 0 <= i < |ls| && ls[i].to < head
        ensures LatestEnd(q, head).Some? && ls[i].to <= LatestEnd(q, head).value {
      LiveIn(q, ls[i]);
      assert ls[i] in multiset(ls);
      var j :| 0 <= j < |q| && q[j] == ls[i];
    }
  }

  /** With something logged, a session resumes at the end of the log exactly when the head
      has moved past it (or, by accident, when it is told to start there and nothing below
      the head is logged). */
  lemma ResumePointIff(q: Queue, ls: seq<Record>, lo: nat, end: nat, head: nat, blockFrom: Option<nat>)
    requires Tiles(ls, lo, end) && Live(q) == multiset(ls) && ls != []
    ensures ResumeFrom(q, blockFrom, head, false) == end
      <==> end <= head || (head <= ls[0].to && Base(blockFrom) == end)
    ensures Base(blockFrom) <= lo ==> (ResumeFrom(q, blockFrom, head, false) == end <==> end <= head)
  {
    TilesBounds(ls, lo, end);
    LatestLive(q, ls, lo, end, head);
    var last := ls[|ls| - 1];
    assert last.to + 1 == end && ls[0].to <= last.to;
    if LatestEnd(q, head).Some? {
      var i :| 0 <= i < |ls| && ls[i].to == LatestEnd(q, head).value;
      assert ls[0].to <= ls[i].to <= last.to;
    }
  }

  /** Some live records make the invariant hold up to block `p`. */
  ghost predicate Resumable(u: set<Node>, s: State, p: nat) {
    exists ls: seq<Record>, ws: seq<Node>, lo: nat :: Inv(u, s, ls, ws, lo, p)
  }

  lemma {:induction false} TilesEndUnique(ls: seq<Record>, lo: nat, end: nat, ls': seq<Record>, lo': nat, end': nat)
    requires Tiles(ls, lo, end) && Tiles(ls', lo', end') && multiset(ls) == multiset(ls') && ls != []
    ensures end == end'
  {
    TilesBounds(ls, lo, end);
    TilesBounds(ls', lo', end');
    var last := ls[|ls| - 1];
    assert last in multiset(ls');
    assert last.to < end';
    var last' := ls'[|ls'| - 1];
    assert last' in multiset(ls);
    assert last'.to < end;
  }

  lemma UpToAll(s: Store, lo: nat, end: nat, b: nat)
    requires Within(s, lo, end) && end <= b + 1
    ensures UpTo(s, b) == s
  {
  }

  lemma ResumedStoreKept(u: set<Node>, s: State, ls: seq<Record>, ws: seq<Node>, lo: nat, end: nat, head: nat,
                         blockFrom: Option<nat>)
    requires Inv(u, s, ls, ws, lo, end) && ResumeFrom(s.queue, blockFrom, head, false) == end
    ensures ResumeState(s, head, false) == s
  {
    var latest := LatestEnd(s.queue, head);
    if latest.Some? {
      UpToAll(s.store, lo, end, latest.value);
    }
  }

  lemma NothingLogged(u: set<Node>, s: State, ws: seq<Node>, lo: nat, end: nat, head: nat, blockFrom: Option<nat>)
    requires Inv(u, s, [], ws, lo, end)
    ensures ResumeState(s, head, false) == s
    ensures ResumeFrom(s.queue, blockFrom, head, false) == Base(blockFrom)
    ensures Inv(u, s, [], [], Base(blockFrom), Base(blockFrom))
  {
    LatestLive(s.queue, [], lo, end, head);
  }

  /** A resume keeps the invariant exactly when nothing is logged or it resumes at the end
      of the log: that is, when the head has moved past the last logged block. */
  lemma ResumeKeepsInvIff(u: set<Node>, s: State, ls: seq<Record>, ws: seq<Node>, lo: nat, end: nat, head: nat,
                          blockFrom: Option<nat>)
    requires Inv(u, s, ls, ws, lo, end)
    ensures Resumable(u, ResumeState(s, head, false), ResumeFrom(s.queue, blockFrom, head, false)) <==>
      ls == [] || end <= head || (head <= ls[0].to && Base(blockFrom) == end)
  {
    var p, s' := ResumeFrom(s.queue, blockFrom, head, false), ResumeState(s, head, false);
    if ls == [] {
      NothingLogged(u, s, ws, lo, end, head, blockFrom);
      assert Resumable(u, s', p);
    } else {
      ResumePointIff(s.queue, ls, lo, end, head, blockFrom);
      if p == end {
        ResumedStoreKept(u, s, ls, ws, lo, end, head, blockFrom);
        assert Resumable(u, s', p);
      } else if Resumable(u, s', p) {
        var ls', ws', lo' :| Inv(u, s', ls', ws', lo', p);
        TilesEndUnique(ls, lo, end, ls', lo', p);
      }
    }
  }

  // ---- Sessions ----

  /** `first` answers the initial head query; `views` are the chains the iterations see;
      `states` the states between the calls made; `left` the events the process leaves when
      it dies. */
  datatype Session = Session(first: Node, views: seq<Node>, blockFrom: Option<nat>, limit: nat, states: seq<State>,
    left: Store)

  function From(s: State, x: Session): nat { ResumeFrom(s.queue, x.blockFrom, Head(x.first), false) }

  function Calls(s: State, x: Session): seq<Call> { LiveCalls(x.views, From(s, x), 0, x.limit) }

  /** The session starts in `s` and all its calls complete. */
  ghost predicate Lives(u: set<Node>, s: State, x: Session) {
    && x.first.blocks != [] && (forall n :: n in x.views ==> n in u)
    && Growing(Head(x.first), x.views) && From(s, x) <= Head(x.first)
    && Executes(Calls(s, x), x.states) && x.states[0] == ResumeState(s, Head(x.first), false)
    && NeverAmbiguous(Calls(s, x), x.states)
  }

  function Last(x: Session): State
    requires x.states != []
  {
    x.states[|x.states| - 1]
  }

  function EndAfter(s: State, x: Session): nat { EndAt(From(s, x), Calls(s, x), |Calls(s, x)|) }

  /** Beyond the events of `store`, which all lie below `end`, there may be some from `end`
      on: those of a range that was being written. */
  ghost predicate Debris(store: Store, left: Store, end: nat) {
    && (forall id :: id in store <==> id in left && id.blockNumber < end)
    && (forall id :: id in store ==> left[id] == store[id])
  }

  lemma DebrisCleared(store: Store, left: Store, end: nat)
    requires Debris(store, left, end) && 0 < end
    ensures UpTo(left, end - 1) == store
  {
  }

  /** What a crash in the bulk insert of a later range leaves is debris. */
  lemma HalfWrittenIsDebris(n: Node, from: nat, to: nat, store: Store, left: Store, lo: nat)
    requires ValidNode(n) && Within(store, lo, from) && PartlyInserted(store, RangeEvents(n, from, to + 1), left)
    ensures Debris(store, left, from)
  {
    var es := RangeEvents(n, from, to + 1);
    RangeIsProper(n, from, to + 1);
    var k {:trigger es[..k]} :| 0 <= k <= |es| && left == store + Docs(es[..k]);
    ProperDocs(es[..k], from, to + 1);
  }

  lemma NoDebris(store: Store, lo: nat, end: nat)
    requires Within(store, lo, end)
    ensures Debris(store, store, end)
  {
  }

  lemma SessionRuns(u: set<Node>, s: State, x: Session)
    requires Lives(u, s, x)
    ensures Run(u, From(s, x), Calls(s, x), x.states)
  {
    LiveCallsChained(x.views, Head(x.first), From(s, x), 0, x.limit);
    ExecutesIsRun(u, Calls(s, x), x.states, From(s, x));
  }

  /** What a session may find: the log of a state `s` that satisfies the invariant, and its
      events, beyond which there is debris only if something is logged. */
  ghost predicate Finds(s: State, found: State, ls: seq<Record>, end: nat) {
    found.queue == s.queue && Debris(s.store, found.store, end) && (ls == [] ==> found.store == s.store)
  }

  lemma LatestPastLog(q: Queue, ls: seq<Record>, lo: nat, end: nat, head: nat)
    requires Tiles(ls, lo, end) && Live(q) == multiset(ls) && ls != [] && end <= head
    ensures 0 < end && LatestEnd(q, head) == Some(end - 1)
  {
    TilesBounds(ls, lo, end);
    LatestLive(q, ls, lo, end, head);
    var last := ls[|ls| - 1];
    assert last.to + 1 == end;
  }

  /** With the head past the log, the resume clears the debris and the invariant holds at
      the resume point. */
  lemma ResumesAtEnd(u: set<Node>, s: State, found: State, ls: seq<Record>, ws: seq<Node>, lo: nat, end: nat, head: nat,
                     blockFrom: Option<nat>)
    requires Inv(u, s, ls, ws, lo, end) && Finds(s, found, ls, end) && ls != [] && end <= head
    ensures ResumeFrom(found.queue, blockFrom, head, false) == end
    ensures Inv(u, ResumeState(found, head, false), ls, ws, lo, end)
  {
    LatestPastLog(s.queue, ls, lo, end, head);
    DebrisCleared(s.store, found.store, end);
  }

  lemma SessionBegins(u: set<Node>, s: State, found: State, ls: seq<Record>, ws: seq<Node>, lo: nat, end: nat,
                      x: Session)
    returns (ws': seq<Node>)
    requires Inv(u, s, ls, ws, lo, end) && Finds(s, found, ls, end) && (ls == [] || end <= Head(x.first))
    ensures Inv(u, ResumeState(found, Head(x.first), false), ls, ws', if ls == [] then From(found, x) else lo,
      From(found, x))
  {
    if ls == [] {
      NothingLogged(u, found, ws, lo, end, Head(x.first), x.blockFrom);
      ws' := [];
    } else {
      ResumesAtEnd(u, s, found, ls, ws, lo, end, Head(x.first), x.blockFrom);
      ws' := ws;
    }
  }

  /** One session that starts with the head past the log: all its calls are correct, and
      the invariant holds again where it ends. */
  lemma SessionKeeps(u: set<Node>, s: State, found: State, ls: seq<Record>, ws: seq<Node>, lo: nat, end: nat,
                     x: Session)
    returns (ls': seq<Record>, ws': seq<Node>)
    requires World(u) && Inv(u, s, ls, ws, lo, end) && Finds(s, found, ls, end) && Lives(u, found, x)
      && (ls == [] || end <= Head(x.first))
    ensures
      var lo' := if ls == [] then From(found, x) else lo;
      && Inv(u, Last(x), ls', ws', lo', EndAfter(found, x))
      && forall i :: 0 <= i < |Calls(found, x)| ==> Correct(lo', Calls(found, x)[i], x.states[i + 1])
  {
    var lo' := if ls == [] then From(found, x) else lo;
    var ws0 := SessionBegins(u, s, found, ls, ws, lo, end, x);
    SessionRuns(u, found, x);
    ReorgCorrect(u, ls, ws0, lo', From(found, x), Calls(found, x), x.states);
    ls', ws' := RunKeeps(u, ls, ws0, lo', From(found, x), Calls(found, x), x.states, |Calls(found, x)|);
  }

  // ---- Any number of sessions ----

  /** The state the calls before session `k` end in, and the one the session finds. */
  function Reached(s: State, xs: seq<Session>, k: nat): State
    requires k <= |xs| && forall x :: x in xs ==> x.states != []
  {
    if k == 0 then s else Last(xs[k - 1])
  }

  function Found(s: State, xs: seq<Session>, k: nat): State
    requires k <= |xs| && forall x :: x in xs ==> x.states != []
  {
    if k == 0 then s else Last(xs[k - 1]).(store := xs[k - 1].left)
  }

  /** The blocks covered before session `k`: from the first one ever read to the end of the
      last call. */
  function Covered(s: State, xs: seq<Session>, k: nat, lo: nat, end: nat): (nat, nat)
    requires k <= |xs| && forall x :: x in xs ==> x.states != []
  {
    if k == 0 then (lo, end)
    else
      var c, found := Covered(s, xs, k - 1, lo, end), Found(s, xs, k - 1);
      (if c.0 == c.1 then From(found, xs[k - 1]) else c.0, EndAfter(found, xs[k - 1]))
  }

  /** Session `k` lives; it starts with the head past the covered blocks, or with nothing
      covered and then without debris. */
  ghost predicate SessionOk(u: set<Node>, s: State, xs: seq<Session>, k: nat, lo: nat, end: nat)
    requires k < |xs| && forall x :: x in xs ==> x.states != []
  {
    var c, reached, found := Covered(s, xs, k, lo, end), Reached(s, xs, k), Found(s, xs, k);
    && Lives(u, found, xs[k])
    && if c.0 == c.1 then found.store == reached.store
       else c.1 <= Head(xs[k].first) && Debris(reached.store, found.store, c.1)
  }

  ghost predicate SessionsOk(u: set<Node>, s: State, xs: seq<Session>, lo: nat, end: nat) {
    && (forall x :: x in xs ==> x.states != [])
    && forall k: nat {:trigger SessionOk(u, s, xs, k, lo, end)} :: k < |xs| ==> SessionOk(u, s, xs, k, lo, end)
  }

  lemma {:induction false} SessionsKeep(u: set<Node>, s: State, ls: seq<Record>, ws: seq<Node>, lo: nat, end: nat,
                                        xs: seq<Session>, k: nat)
    returns (ls': seq<Record>, ws': seq<Node>)
    requires World(u) && Inv(u, s, ls, ws, lo, end) && SessionsOk(u, s, xs, lo, end) && k <= |xs|
    ensures var c := Covered(s, xs, k, lo, end); Inv(u, Reached(s, xs, k), ls', ws', c.0, c.1)
  {
    if k == 0 {
      ls', ws' := ls, ws;
    } else {
      ls', ws' := SessionsKeep(u, s, ls, ws, lo, end, xs, k - 1);
      ls', ws' := OneMoreSession(u, s, ls', ws', lo, end, xs, k - 1);
    }
  }

  lemma OneMoreSession(u: set<Node>, s: State, ls: seq<Record>, ws: seq<Node>, lo: nat, end: nat, xs: seq<Session>,
                       k: nat)
    returns (ls': seq<Record>, ws': seq<Node>)
    requires World(u) && SessionsOk(u, s, xs, lo, end) && k < |xs|
    requires var c := Covered(s, xs, k, lo, end); Inv(u, Reached(s, xs, k), ls, ws, c.0, c.1)
    ensures var c := Covered(s, xs, k + 1, lo, end); Inv(u, Reached(s, xs, k + 1), ls', ws', c.0, c.1)
    ensures CorrectSession(s, xs, k, lo, end)
  {
    var c, reached, found := Covered(s, xs, k, lo, end), Reached(s, xs, k), Found(s, xs, k);
    assert SessionOk(u, s, xs, k, lo, end);
    TilesEmptyIff(ls, c.0, c.1);
    if ls == [] {
      NoDebris(reached.store, c.0, c.1);
    }
    ls', ws' := SessionKeeps(u, reached, found, ls, ws, c.0, c.1, xs[k]);
  }

  /** After each call of session `k` every block covered so far, in this session or an
      earlier one, holds exactly the events of the chain the call saw. */
  ghost predicate CorrectSession(s: State, xs: seq<Session>, k: nat, lo: nat, end: nat)
    requires k < |xs| && forall x :: x in xs ==> x.states != []
  {
    var found, lo' := Found(s, xs, k), Covered(s, xs, k + 1, lo, end).0;
    |xs[k].states| == |Calls(found, xs[k])| + 1 &&
    forall i :: 0 <= i < |Calls(found, xs[k])| ==> Correct(lo', Calls(found, xs[k])[i], xs[k].states[i + 1])
  }

  /** Reorg correctness over restarts: over any number of sessions, with any reorgs within
      and between them and any range left half written, every call is correct, provided
      each session starts with the head past the last logged block. */
  lemma SessionsFollowChain(u: set<Node>, s: State, ls: seq<Record>, ws: seq<Node>, lo: nat, end: nat, xs: seq<Session>,
                            k: nat)
    requires World(u) && Inv(u, s, ls, ws, lo, end) && SessionsOk(u, s, xs, lo, end) && k < |xs|
    ensures CorrectSession(s, xs, k, lo, end)
  {
    var ls', ws' := SessionsKeep(u, s, ls, ws, lo, end, xs, k);
    ls', ws' := OneMoreSession(u, s, ls', ws', lo, end, xs, k);
  }

  /** In particular from an empty database. */
  lemma FreshSessions(u: set<Node>, xs: seq<Session>, k: nat)
    requires World(u) && SessionsOk(u, State(map[], [], []), xs, 0, 0) && k < |xs|
    ensures CorrectSession(State(map[], [], []), xs, k, 0, 0)
  {
    SessionsFollowChain(u, State(map[], [], []), [], [], 0, 0, xs, k);
  }
}
