/** A live task whose walk back need never end: it starts above the head, and the chain
    reorganises twice. */
module WalkLimits {
  import opened Prelude
  import opened Ethnode
  import opened EventStore
  import opened BlocksQueue
  import opened Reader
  import opened Reorg
  import opened ReorgRuns
  import opened RangeTask
  import opened LiveTask
  import opened WalkBack
  import opened ExampleChains

  /** Three competing chains without any transfer. */
  const A := Node([Empty(10, 1), Empty(11, 10)], {})
  const B := Node([Empty(20, 1), Empty(21, 20), Empty(22, 21), Empty(23, 22)], {})
  const C := Node([Empty(30, 1), Empty(31, 30), Empty(32, 31), Empty(33, 32), Empty(34, 33)], {})

  function Span(from: nat, to: nat, h: Hash, deleted: bool): Record { Record(from, to, Some(h), deleted) }

  const X := Span(3, 1, 21, false)

  const S0 := State(map[], [], [])
  const S1 := State(map[], [W], [IndexBlockRange(false, 3, 1)])
  const S2 := State(map[], [Span(3, 1, 11, true), Span(2, 3, 23, false), X],
                    [IndexBlockRange(false, 3, 1), IndexBlockRange(false, 2, 3), IndexBlockRange(true, 3, 1)])

  // ---- Reading ranges of blocks without logs ----

  ghost predicate NoLogs(n: Node) { forall b :: 0 <= b < |n.blocks| ==> n.blocks[b].logs == [] }

  lemma {:induction false} NothingInRange(n: Node, from: nat, end: nat)
    requires NoLogs(n)
    ensures RangeEvents(n, from, end) == []
    decreases end
  {
    if from < end {
      NothingInRange(n, from, end - 1);
    }
  }

  lemma NothingUndecodable(n: Node)
    requires NoLogs(n)
    ensures forall b: nat :: DecodableBlock(n, b)
  {
  }

  /** Logging a range of such blocks. */
  lemma LogNothing(n: Node, from: nat, to: nat, reread: bool, s: State, t: State)
    requires NoLogs(n)
    requires t == State(s.store, s.queue + [Record(from, to, HashAt(n, to), false)],
      s.bus + [IndexBlockRange(reread, from, to)])
    ensures Decodable(n, from, to + 1) && Writable(s.store, RangeEvents(n, from, to + 1), reread)
    ensures Logged(n, from, to, true, reread, s) == t
  {
    NothingInRange(n, from, to + 1);
    NothingUndecodable(n);
    assert s.store + map[] == s.store;
  }

  // ---- The two calls that complete ----

  /** The task starts above the head of `A` and logs an improper range. */
  lemma ReadsA()
    ensures Completes(A, 3, 1, true, false, S0, S1)
  {
    LogNothing(A, 3, 1, false, S0, S1);
    Stops(A, 3, 1, false, S0, None);
  }

  const W := Span(3, 1, 11, false)
  const T2 := State(map[], [W, Span(2, 3, 23, false)], [IndexBlockRange(false, 3, 1), IndexBlockRange(false, 2, 3)])
  const U2 := State(map[], [Span(3, 1, 11, true), Span(2, 3, 23, false)], T2.bus)

  lemma RereadsOnB()
    ensures Completes(B, 3, 1, true, true, U2, S2)
  {
    LogNothing(B, 3, 1, true, U2, S2);
    Stops(B, 3, 1, true, U2, None);
  }

  /** On `B` the improper range is found stale and is retired. */
  lemma LeadsB()
    ensures Leads(B, 2, 3, false, S1, W, T2, U2)
  {
    LogNothing(B, 2, 3, false, S1, T2);
    Flagged(T2.queue, 0, 3, 1, U2.queue);
    LatestAt(S1.queue, 2, 0);
  }

  lemma ReadsB()
    ensures Completes(B, 2, 3, true, false, S1, S2)
  {
    LeadsB();
    RereadsOnB();
    RereadNext(B, 2, 3, false, S1, W, T2, U2, S2);
  }

  // ---- The call that need not end ----

  const Q3 := [Span(3, 1, 11, true), Span(2, 3, 23, true), X, Span(4, 4, 34, false)]
  const Q4 := Q3 + [Span(2, 3, 33, false)]

  lemma FirstReread()
    ensures GoesOnTo(C, S2.queue, 4, 4, Span(2, 3, 23, false), Q3)
  {
    LatestAt(S2.queue, 4, 1);
    Flagged(S2.queue + [Span(4, 4, 34, false)], 1, 2, 3, Q3);
  }

  /** The soft delete of `3..1` meets the record of `A`. */
  lemma SecondReread()
    ensures GoesOnTo(C, Q3, 2, 3, X, Q4)
  {
    LatestAt(Q3, 2, 2);
    Flagged(Q4, 0, 3, 1, Q4);
  }

  lemma LoopingOnC()
    ensures !NoTwin(Q4, 3, 1) && IsLatest(Q4, 3, Some(X)) && Diverges(C, 3, Some(X))
  {
    assert Q4[0] in Q4;
    LatestAt(Q4, 3, 2);
  }

  lemma LoopOfAnyLength(k: nat)
    ensures Walks(C, Q4, 3, 1, k)
  {
    LoopingOnC();
    LoopsForever(C, Q4, X, k);
  }

  lemma RestOfAnyLength(k: nat)
    ensures Walks(C, Q3, 2, 3, k)
  {
    if 0 < k {
      SecondReread();
      LoopOfAnyLength(k - 1);
      WalkOn(C, Q3, 2, 3, k - 1, X, Q4);
    }
  }

  lemma WalkOfAnyLength(k: nat)
    ensures Walks(C, S2.queue, 4, 4, k)
  {
    if 0 < k {
      FirstReread();
      RestOfAnyLength(k - 1);
      WalkOn(C, S2.queue, 4, 4, k - 1, Span(2, 3, 23, false), Q3);
    }
  }

  lemma BeginsAnyNumber(k: nat)
    ensures Begins(C, 4, 4, false, k, S2)
  {
    NothingUndecodable(C);
    NothingInRange(C, 4, 5);
    WalkOfAnyLength(k);
    WalksIff(C, 4, 4, false, k, S2);
  }

  lemma CallsMade()
    ensures LiveCalls([A, B, C], 3, 0, 1) == [Call(A, 3, 1), Call(B, 2, 3), Call(C, 4, 4)]
  {
    assert [A, B, C][1..] == [B, C] && [B, C][1..] == [C] && [C][1..] == [];
    assert LiveCalls([C], 4, 3, 1) == [Call(C, 4, 4)];
    assert LiveCalls([B, C], 2, 1, 1) == [Call(B, 2, 3)] + LiveCalls([C], 4, 3, 1);
  }

  lemma ThreeValid()
    ensures ValidNode(A) && ValidNode(B) && ValidNode(C)
  {
  }

  lemma ThreeChains()
    ensures World({A, B, C})
  {
    ThreeValid();
  }

  /** From an empty database: a live task told to start at block 3 finds the head at block 1
      and logs `3..1`; after a reorg its second call repairs that range and completes; after
      another reorg its third call can go on to any number of re-reads. */
  lemma ThirdCallNeedNotEnd()
    ensures World({A, B, C})
    ensures LiveCalls([A, B, C], ResumeFrom(S0.queue, Some(3), Head(A), false), 0, 1)
      == [Call(A, 3, 1), Call(B, 2, 3), Call(C, 4, 4)]
    ensures Completes(A, 3, 1, true, false, S0, S1) && Completes(B, 2, 3, true, false, S1, S2)
    ensures forall k: nat :: Begins(C, 4, 4, false, k, S2)
  {
    ThreeChains();
    CallsMade();
    ReadsA();
    ReadsB();
    forall k: nat ensures Begins(C, 4, 4, false, k, S2) {
      BeginsAnyNumber(k);
    }
  }
}
