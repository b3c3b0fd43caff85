/** Where the reorg repair stops short: a crash between logging a range and re-reading
    the stale ones, and a soft delete that meets an already deleted twin. */
module ReorgLimits {
  import opened Prelude
  import opened Ethnode
  import opened EventStore
  import opened BlocksQueue
  import opened Reader
  import opened Reorg
  import opened ReorgRuns
  import opened ExampleChains

  // ---- A crash in the middle of a call ----

  lemma FreshlyLogged(n: Node, from: nat, to: nat, q: Queue, ls: seq<Record>, ls': seq<Record>, lo: nat)
    requires ValidNode(n) && from <= to && to + 1 < |n.blocks| && Tiles(ls, lo, from)
    requires ls' == ls + [Record(from, to, HashAt(n, to), false)] && Live(q) == multiset(ls')
    ensures Tiles(ls', lo, to + 1) && LiveBelow(q, to + 1, ls') && Stale(n, ls', to + 1) == []
  {
    assert ls'[..|ls|] == ls;
    LiveIsBelow(q, ls', lo, to + 1);
    assert ValidBlock(n, to + 1);
  }

  /** With its predecessor freshly logged on the same chain, a live call re-reads nothing. */
  lemma NothingToRepair(n: Node, from: nat, to: nat, to': nat, t: State, s': State, ls: seq<Record>, lo: nat)
    requires ValidNode(n) && from <= to < to' < |n.blocks| && Tiles(ls, lo, from)
    requires Live(t.queue) == multiset(ls + [Record(from, to, HashAt(n, to), false)])
    requires Completes(n, to + 1, to', true, false, t, s')
    ensures s' == Logged(n, to + 1, to', true, false, t)
  {
    var ls' := ls + [Record(from, to, HashAt(n, to), false)];
    FreshlyLogged(n, from, to, t.queue, ls, ls', lo);
    var t', u := Unfold(n, to + 1, to', false, t, s', ls', lo);
  }

  lemma LiveLogged(q: Queue, r: Record, ls: seq<Record>)
    requires Live(q) == multiset(ls) && !r.isDeleted
    ensures Live(q + [r]) == multiset(ls + [r])
  {
    LiveAppend(q, r);
  }

  lemma LoggedTwice(n: Node, from: nat, to: nat, to': nat, s: Store, lo: nat, b: nat)
    requires ValidNode(n) && Within(s, lo, from) && from <= to < to'
    ensures AtBlock(s + Docs(RangeEvents(n, from, to + 1)) + Docs(RangeEvents(n, to + 1, to' + 1)), b) ==
      if from <= b <= to' then BlockDocs(n, b) else AtBlock(s, b)
  {
    EmptyBeyond(s, lo, from);
    LoggedAt(n, from, to, s, b);
    LoggedAt(n, to + 1, to', s + Docs(RangeEvents(n, from, to + 1)), b);
  }

  /** If the process dies once the new range is logged, the pending repair is lost: the
      next live call on the same chain finds its parent hash logged and re-reads
      nothing, so every block below the interrupted range keeps what it held. */
  lemma CrashLosesRepair(n: Node, from: nat, to: nat, to': nat, s: State, t: State, s': State, ls: seq<Record>, lo: nat,
                         b: nat)
    requires ValidNode(n) && from <= to < to' < |n.blocks|
    requires Tiles(ls, lo, from) && Live(s.queue) == multiset(ls) && Within(s.store, lo, from)
    requires t == Logged(n, from, to, true, false, s) && Completes(n, to + 1, to', true, false, t, s')
    ensures AtBlock(s'.store, b) == if from <= b <= to' then BlockDocs(n, b) else AtBlock(s.store, b)
    ensures s'.bus == t.bus + [IndexBlockRange(false, to + 1, to')]
  {
    assert s' == Logged(n, to + 1, to', true, false, t) by {
      LiveLogged(s.queue, Record(from, to, HashAt(n, to), false), ls);
      NothingToRepair(n, from, to, to', t, s', ls, lo);
    }
    LoggedTwice(n, from, to, to', s.store, lo, b);
  }

  /** After such a crash the store is right exactly if it was right before the interrupted
      call, that is, if there was nothing to repair. */
  lemma CrashHarmlessIff(n: Node, from: nat, to: nat, to': nat, s: State, t: State, s': State, ls: seq<Record>, lo: nat)
    requires ValidNode(n) && from <= to < to' < |n.blocks|
    requires Tiles(ls, lo, from) && Live(s.queue) == multiset(ls) && Within(s.store, lo, from)
    requires t == Logged(n, from, to, true, false, s) && Completes(n, to + 1, to', true, false, t, s')
    ensures Mirrors(s'.store, n, lo, to' + 1) <==> Mirrors(s.store, n, lo, from)
  {
    TilesBounds(ls, lo, from);
    forall b: nat ensures AtBlock(s'.store, b) == if from <= b <= to' then BlockDocs(n, b) else AtBlock(s.store, b) {
      CrashLosesRepair(n, from, to, to', s, t, s', ls, lo, b);
    }
    MirrorsIff(n, lo, from, to', s.store, s'.store);
  }

  lemma MirrorsIff(n: Node, lo: nat, from: nat, to': nat, s: Store, s': Store)
    requires lo <= from <= to' && Rewritten(s, s', n, from, to')
    ensures Mirrors(s', n, lo, to' + 1) <==> Mirrors(s, n, lo, from)
  {
    if Mirrors(s', n, lo, to' + 1) {
      forall b: nat | lo <= b < from ensures AtBlock(s, b) == BlockDocs(n, b) {
        assert AtBlock(s', b) == AtBlock(s, b);
      }
    }
  }

  /** Under the invariant of reorg correctness, a latest record that does not diverge says
      that there is nothing to repair. */
  lemma NothingDue(u: set<Node>, n: Node, from: nat, s: State, ls: seq<Record>, ws: seq<Node>, lo: nat)
    requires World(u) && n in u && from < |n.blocks| && Inv(u, s, ls, ws, lo, from)
    requires ls == [] || !Diverges(n, from, Some(ls[|ls| - 1]))
    ensures Mirrors(s.store, n, lo, from)
  {
    if ls != [] {
      assert ValidBlock(n, from);
      CertifiedPrefix(u, s.store, ls, ws, lo, n, |ls| - 1);
    }
  }

  /** So the crash is harmless if the guard of the interrupted call's re-read is false. */
  lemma CrashHarmlessIfCurrent(u: set<Node>, n: Node, from: nat, to: nat, to': nat, s: State, t: State, s': State,
                               ls: seq<Record>, ws: seq<Node>, lo: nat)
    requires World(u) && n in u && from <= to < to' < |n.blocks| && Inv(u, s, ls, ws, lo, from)
    requires ls == [] || !Diverges(n, from, Some(ls[|ls| - 1]))
    requires t == Logged(n, from, to, true, false, s) && Completes(n, to + 1, to', true, false, t, s')
    ensures Mirrors(s'.store, n, lo, to' + 1)
  {
    NothingDue(u, n, from, s, ls, ws, lo);
    CrashHarmlessIff(n, from, to, to', s, t, s', ls, lo);
  }

  // ---- A twin, reached from an empty database ----

  /** Three competing chains; only block 0 of `C` holds a transfer. */
  const A := Node([Empty(10, 1)], {})
  const B := Node([Empty(20, 1), Empty(21, 20), Empty(22, 21), Empty(23, 22)], {})
  const C := Node([Block(30, 1, [Mint(0)]), Empty(31, 30), Empty(32, 31)], {})

  const S0 := State(map[], [], [])
  const S1 := State(map[], [Rec(0, 10, false)], [Msg(false, 0)])
  const S2 := State(map[], [Rec(0, 10, true), Rec(1, 21, false), Rec(0, 20, false)],
                    [Msg(false, 0), Msg(false, 1), Msg(true, 0)])
  /** The second soft delete of block 0 meets the record deleted first. */
  const S3 := State(map[IdAt(0) := DOC],
                    [Rec(0, 10, true), Rec(1, 21, true), Rec(0, 20, false), Rec(2, 32, false), Rec(1, 31, false),
                      Rec(0, 30, false)],
                    [Msg(false, 0), Msg(false, 1), Msg(true, 0), Msg(false, 2), Msg(true, 1), Msg(true, 0)])
  const S4 := State(map[IdAt(0) := DOC],
                    [Rec(0, 10, true), Rec(1, 21, true), Rec(0, 20, false), Rec(2, 32, true), Rec(1, 31, true),
                      Rec(0, 30, false),
                     Rec(3, 23, false), Rec(2, 22, false), Rec(1, 21, false)],
                    [Msg(false, 0), Msg(false, 1), Msg(true, 0), Msg(false, 2), Msg(true, 1), Msg(true, 0),
                      Msg(false, 3), Msg(true, 2), Msg(true, 1)])

  lemma Call1()
    ensures Completes(A, 0, 0, true, false, S0, S1)
  {
    LogEmpty(A, 0, false, S0, S1);
    Stops(A, 0, 0, false, S0, None);
  }

  const T2 := State(map[], [Rec(0, 10, false), Rec(1, 21, false)], [Msg(false, 0), Msg(false, 1)])
  const U2 := State(map[], [Rec(0, 10, true), Rec(1, 21, false)], T2.bus)

  lemma Leads2()
    ensures Leads(B, 1, 1, false, S1, Rec(0, 10, false), T2, U2)
  {
    LogEmpty(B, 1, false, S1, T2);
    Flagged(T2.queue, 0, 0, 0, U2.queue);
    LatestAt(S1.queue, 1, 0);
  }

  lemma Call2()
    ensures Completes(B, 1, 1, true, false, S1, S2)
  {
    Leads2();
    LogEmpty(B, 0, true, U2, S2);
    Stops(B, 0, 0, true, U2, None);
    RereadNext(B, 1, 1, false, S1, Rec(0, 10, false), T2, U2, S2);
  }

  const T3 := State(map[], S2.queue + [Rec(2, 32, false)], S2.bus + [Msg(false, 2)])
  const U3 := State(map[], T3.queue[1 := Rec(1, 21, true)], T3.bus)
  const V3 := State(map[], U3.queue + [Rec(1, 31, false)], U3.bus + [Msg(true, 1)])

  lemma Leads3()
    ensures Leads(C, 2, 2, false, S2, Rec(1, 21, false), T3, U3)
  {
    LogEmpty(C, 2, false, S2, T3);
    Flagged(T3.queue, 1, 1, 1, U3.queue);
    LatestAt(S2.queue, 2, 1);
  }

  /** The soft delete of block 0 flags the record deleted before. */
  lemma Leads3Block1()
    ensures Leads(C, 1, 1, true, U3, Rec(0, 20, false), V3, V3)
  {
    LogEmpty(C, 1, true, U3, V3);
    Flagged(V3.queue, 0, 0, 0, V3.queue);
    LatestAt(U3.queue, 1, 2);
  }

  lemma Call3Block0()
    ensures Completes(C, 0, 0, true, true, V3, S3)
  {
    assert V3.queue + [Rec(0, 30, false)] == S3.queue;
    LogMint(C, 0, true, V3, S3);
    Stops(C, 0, 0, true, V3, None);
  }

  lemma Call3()
    ensures Completes(C, 2, 2, true, false, S2, S3)
  {
    Leads3();
    Leads3Block1();
    Call3Block0();
    RereadNext(C, 1, 1, true, U3, Rec(0, 20, false), V3, V3, S3);
    RereadNext(C, 2, 2, false, S2, Rec(1, 21, false), T3, U3, S3);
  }

  const T4 := State(S3.store, S3.queue + [Rec(3, 23, false)], S3.bus + [Msg(false, 3)])
  const U4 := State(S3.store, T4.queue[3 := Rec(2, 32, true)], T4.bus)
  const V4 := State(S3.store, U4.queue + [Rec(2, 22, false)], U4.bus + [Msg(true, 2)])
  const W4 := State(S3.store, V4.queue[4 := Rec(1, 31, true)], V4.bus)

  lemma Leads4()
    ensures Leads(B, 3, 3, false, S3, Rec(2, 32, false), T4, U4)
  {
    LogEmpty(B, 3, false, S3, T4);
    Flagged(T4.queue, 3, 2, 2, U4.queue);
    LatestAt(S3.queue, 3, 3);
  }

  lemma Leads4Block2()
    ensures Leads(B, 2, 2, true, U4, Rec(1, 31, false), V4, W4)
  {
    LogEmpty(B, 2, true, U4, V4);
    Flagged(V4.queue, 4, 1, 1, W4.queue);
    LatestAt(U4.queue, 2, 4);
  }

  lemma Call4()
    ensures Completes(B, 3, 3, true, false, S3, S4)
  {
    Leads4();
    Leads4Block2();
    Call4Block1();
    RereadNext(B, 2, 2, true, U4, Rec(1, 31, false), V4, W4, S4);
    RereadNext(B, 3, 3, false, S3, Rec(2, 32, false), T4, U4, S4);
  }

  /** The stale twin of block 0 answers, and its hash matches. */
  lemma Call4Block1()
    ensures Completes(B, 1, 1, true, true, W4, S4)
  {
    assert W4.queue + [Rec(1, 21, false)] == S4.queue;
    LogEmpty(B, 1, true, W4, S4);
    LatestAt(W4.queue, 1, 2);
    Stops(B, 1, 1, true, W4, Some(Rec(0, 20, false)));
  }

  /** Without the no-twin condition reorg correctness fails. From an empty database, the
      chain turns from `A` to `B`, to `C` and back to `B`; all four live calls complete,
      yet the store keeps the transfer that only `C` holds. */
  lemma TwinBreaksReorg()
    ensures Completes(A, 0, 0, true, false, S0, S1) && Completes(B, 1, 1, true, false, S1, S2)
    ensures Completes(C, 2, 2, true, false, S2, S3) && Completes(B, 3, 3, true, false, S3, S4)
    ensures !Unambiguous(S2.queue, C)
    ensures !Correct(0, Call(B, 3, 3), S4)
  {
    Call1();
    Call2();
    Call3();
    Call4();
    TwinPresent();
    StaleOnB(S4.store, 3);
  }

  lemma TwinPresent()
    ensures !Unambiguous(S2.queue, C)
  {
    assert S2.queue[0] in S2.queue && S2.queue[2] in S2.queue;
  }

  /** Chain `B` has no transfer in block 0. */
  lemma StaleOnB(store: Store, to: nat)
    requires IdAt(0) in store
    ensures !Mirrors(store, B, 0, to + 1)
  {
    assert BlockLogs(B, 0) == [];
    assert BlockDocs(B, 0) == map[];
    assert IdAt(0) in AtBlock(store, 0);
  }

  lemma FirstGoesOn()
    ensures GoesOn({A, B, C}, 0, [Call(A, 0, 0), Call(B, 1, 1)], [S0, S1, S2], 0)
  {
    Call1();
  }

  lemma SecondGoesOn()
    ensures GoesOn({A, B, C}, 0, [Call(A, 0, 0), Call(B, 1, 1)], [S0, S1, S2], 1)
  {
    Call2();
    NoTwinYet();
  }

  lemma NoTwinYet()
    ensures Unambiguous(S1.queue, B)
  {
  }

  // ---- A crash that loses a repair ----

  const K1 := State(map[IdAt(0) := DOC], [Rec(0, 30, false)], [Msg(false, 0)])
  const K2 := State(map[IdAt(0) := DOC], [Rec(0, 30, false), Rec(1, 21, false)], [Msg(false, 0), Msg(false, 1)])
  const K3 := State(map[IdAt(0) := DOC], [Rec(0, 30, false), Rec(1, 21, false), Rec(2, 22, false)],
    [Msg(false, 0), Msg(false, 1), Msg(false, 2)])

  lemma ReadsC()
    ensures Completes(C, 0, 0, true, false, S0, K1)
  {
    assert map[][IdAt(0) := DOC] == K1.store;
    LogMint(C, 0, false, S0, K1);
    Stops(C, 0, 0, false, S0, None);
  }

  lemma ReadsOnB()
    ensures Logged(B, 1, 1, true, false, K1) == K2 && Diverges(B, 1, Some(Rec(0, 30, false)))
      && Completes(B, 2, 2, true, false, K2, K3)
  {
    LogEmpty(B, 1, false, K1, K2);
    LogEmpty(B, 2, false, K2, K3);
    LatestAt(K2.queue, 2, 1);
    Stops(B, 2, 2, false, K2, Some(Rec(1, 21, false)));
  }

  /** From an empty database: block 0 is read on `C`, the chain turns to `B`, the call on
      block 1 dies once its range is logged, and after the next, completed, call the store
      still holds the transfer that only `C` has. */
  lemma CrashBreaksReorg()
    ensures Completes(C, 0, 0, true, false, S0, K1)
    ensures Logged(B, 1, 1, true, false, K1) == K2 && Diverges(B, 1, Some(K1.queue[0]))
    ensures Completes(B, 2, 2, true, false, K2, K3)
    ensures !Correct(0, Call(B, 2, 2), K3)
  {
    ReadsC();
    ReadsOnB();
    StaleOnB(K3.store, 2);
  }

  /** The first two calls, the second of them repairing a reorg, are a run as reorg
      correctness assumes it. */
  lemma RunOfTwo()
    ensures World({A, B, C})
    ensures var calls, states := [Call(A, 0, 0), Call(B, 1, 1)], [S0, S1, S2];
      GoesOn({A, B, C}, 0, calls, states, 0) && GoesOn({A, B, C}, 0, calls, states, 1)
  {
    WorldOfThree();
    FirstGoesOn();
    SecondGoesOn();
  }

  /** The three chains are a legitimate world. */
  lemma WorldOfThree()
    ensures World({A, B, C})
  {
    ThreeValid();
  }

  lemma ThreeValid()
    ensures ValidNode(A) && ValidNode(B) && ValidNode(C)
  {
  }
}
