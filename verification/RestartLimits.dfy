/** Where reorg correctness stops short across restarts: a session that starts while the head
    is the last logged block. */
module RestartLimits {
  import opened Prelude
  import opened Ethnode
  import opened EventStore
  import opened BlocksQueue
  import opened Reader
  import opened Reorg
  import opened ReorgRuns
  import opened RangeTask
  import opened LiveTask
  import opened LiveSessions
  import opened ExampleChains

  const A := Node([Empty(10, 1), Empty(11, 10)], {})
  const B := Node([Empty(10, 1), Block(21, 10, [Mint(1)])], {})
  const A2 := Node([Empty(10, 1), Empty(11, 10), Empty(12, 11)], {})

  const R0 := State(map[], [], [])
  const R1 := State(map[], [Rec(0, 10, false)], [Msg(false, 0)])
  const R2 := State(map[], [Rec(0, 10, false), Rec(1, 11, false)], [Msg(false, 0), Msg(false, 1)])
  const R3 := State(map[IdAt(1) := DOC], [Rec(0, 10, false), Rec(1, 11, false), Rec(1, 21, false)],
    [Msg(false, 0), Msg(false, 1), Msg(false, 1)])
  const R4 := State(map[IdAt(1) := DOC], [Rec(0, 10, false), Rec(1, 11, false), Rec(1, 21, false), Rec(2, 12, false)],
                    [Msg(false, 0), Msg(false, 1), Msg(false, 1), Msg(false, 2)])

  /** The first session reads both blocks of `A`; the second starts while the head is block
      1 again, on `B`, and then sees `A2`. */
  const X := Session(A, [A, A], None, 0, [R0, R1, R2], map[])
  const Y := Session(B, [B, A2], None, 0, [R2, R3, R4], map[IdAt(1) := DOC])

  lemma ReadsA0()
    ensures Completes(A, 0, 0, true, false, R0, R1)
  {
    LogEmpty(A, 0, false, R0, R1);
    Stops(A, 0, 0, false, R0, None);
  }

  lemma ReadsA1()
    ensures Completes(A, 1, 1, true, false, R1, R2)
  {
    LogEmpty(A, 1, false, R1, R2);
    LatestAt(R1.queue, 1, 0);
    Stops(A, 1, 1, false, R1, Some(Rec(0, 10, false)));
  }

  lemma ReadsB()
    ensures Completes(B, 1, 1, true, false, R2, R3)
  {
    LogMint(B, 1, false, R2, R3);
    LatestAt(R2.queue, 1, 0);
    Stops(B, 1, 1, false, R2, Some(Rec(0, 10, false)));
  }

  /** Of the two records ending in block 1, the query answers the one of `A`. */
  lemma ReadsA2()
    ensures Completes(A2, 2, 2, true, false, R3, R4)
  {
    LogEmpty(A2, 2, false, R3, R4);
    LatestAt(R3.queue, 2, 1);
    Stops(A2, 2, 2, false, R3, Some(Rec(1, 11, false)));
  }

  lemma ThreeChains()
    ensures World({A, B, A2})
  {
    ThreeChainsValid();
  }

  lemma ThreeChainsValid()
    ensures ValidNode(A) && ValidNode(B) && ValidNode(A2)
  {
  }

  lemma CallsMade()
    ensures Calls(R0, X) == [Call(A, 0, 0), Call(A, 1, 1)]
    ensures From(R2, Y) == 1 && Calls(R2, Y) == [Call(B, 1, 1), Call(A2, 2, 2)]
  {
    TwoViews([A, A], 0, 0, 0);
    TwoViews([B, A2], 1, 0, 0);
    LatestOfTwo();
  }

  lemma LatestOfTwo()
    ensures LatestEnd(R2.queue, 1) == Some(0)
  {
    assert R2.queue[..1] == [Rec(0, 10, false)];
    assert R2.queue[..1][..0] == [];
  }

  lemma TwoViews(views: seq<Node>, from: nat, to: nat, limit: nat)
    requires |views| == 2 && to != Head(views[0]) && Next(views[0], from, limit) != Head(views[1])
    ensures
      var a := Next(views[0], from, limit);
      var b := Next(views[1], a + 1, limit);
      LiveCalls(views, from, to, limit) == [Call(views[0], from, a), Call(views[1], a + 1, b)]
  {
    var a := Next(views[0], from, limit);
    var b := Next(views[1], a + 1, limit);
    assert views[1..][1..] == [];
    assert LiveCalls(views[1..], a + 1, a, limit)
      == [Call(views[1], a + 1, b)] + LiveCalls(views[1..][1..], b + 1, b, limit);
  }

  lemma ViewsGrow()
    ensures Growing(Head(A), [A, A]) && Growing(Head(B), [B, A2])
  {
    ThreeChainsValid();
    assert [A, A][1..] == [A] && [A][1..] == [];
    assert [B, A2][1..] == [A2] && [A2][1..] == [];
  }

  lemma TwoCallsExecute(calls: seq<Call>, states: seq<State>)
    requires |calls| == 2 && |states| == 3 && StepAt(calls, states, 0) && StepAt(calls, states, 1)
    requires (forall r :: r in states[0].queue ==> !r.isDeleted) && (forall r :: r in states[1].queue ==> !r.isDeleted)
    ensures Executes(calls, states) && NeverAmbiguous(calls, states)
  {
    assert Unambiguous(states[0].queue, calls[0].node) && Unambiguous(states[1].queue, calls[1].node);
  }

  lemma FirstLives()
    ensures Lives({A, B, A2}, R0, X)
  {
    CallsMade();
    ReadsA0();
    ReadsA1();
    ViewsGrow();
    TwoCallsExecute([Call(A, 0, 0), Call(A, 1, 1)], X.states);
  }

  lemma SecondExecutes()
    ensures Executes([Call(B, 1, 1), Call(A2, 2, 2)], Y.states)
      && NeverAmbiguous([Call(B, 1, 1), Call(A2, 2, 2)], Y.states)
  {
    ReadsB();
    ReadsA2();
    TwoCallsExecute([Call(B, 1, 1), Call(A2, 2, 2)], Y.states);
  }

  lemma SecondResumes()
    ensures ResumeState(R2, 1, false) == R2
  {
    LatestOfTwo();
    assert UpTo(R2.store, 0) == R2.store;
  }

  lemma SecondLives()
    ensures Lives({A, B, A2}, R2, Y)
  {
    CallsMade();
    SecondExecutes();
    SecondResumes();
    ViewsGrow();
  }

  /** Restarting while the head is the last logged block breaks reorg correctness, with no
      record soft-deleted and no head dropping: its range is logged a second time, and the
      next call may find either record as the latest. */
  lemma RestartBreaksReorg()
    ensures World({A, B, A2}) && Lives({A, B, A2}, R0, X) && Last(X) == R2 && X.left == R2.store
      && Lives({A, B, A2}, R2, Y)
    ensures Calls(R2, Y)[1] == Call(A2, 2, 2) && !Correct(0, Call(A2, 2, 2), Y.states[2])
  {
    ThreeChains();
    FirstLives();
    SecondLives();
    CallsMade();
    StaleMint();
  }

  lemma StaleMint()
    ensures !Mirrors(R4.store, A2, 0, 3)
  {
    assert BlockLogs(A2, 1) == [];
    assert BlockDocs(A2, 1) == map[];
    assert IdAt(1) in AtBlock(R4.store, 1);
  }
}
