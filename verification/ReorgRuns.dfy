/** Over any run of completed live reads, with any reorgs between them, the stored events
    are those of the current chain: the hash of the newest live record certifies the
    whole stored prefix. */
module ReorgRuns {
  import opened Prelude
  import opened Ethnode
  import opened EventStore
  import opened BlocksQueue
  import opened Reader
  import opened Reorg

  /** The chains the node has shown so far: each is well formed, and a block hash
      commits to the block's number and content across all of them. */
  ghost predicate World(u: set<Node>) {
    && (forall a :: a in u ==> ValidNode(a))
    && (forall a, b :: a in u && b in u ==> HashesAgree(a, b) && a.pre721 == b.pre721)
  }

  /** Record `ls[i]` was logged on chain `ws[i]`; if it has a hash, the hash is that
      chain's, and the store still holds that chain's events up to the record's end. */
  ghost predicate Certified(u: set<Node>, store: Store, ls: seq<Record>, ws: seq<Node>, lo: nat) {
    && |ws| == |ls|
    && forall i :: 0 <= i < |ls| && ls[i].toHash.Some? ==>
         ws[i] in u && HashAt(ws[i], ls[i].to) == ls[i].toHash && Mirrors(store, ws[i], lo, ls[i].to + 1)
  }

  ghost predicate Inv(u: set<Node>, s: State, ls: seq<Record>, ws: seq<Node>, lo: nat, end: nat) {
    && Tiles(ls, lo, end)
    && Live(s.queue) == multiset(ls)
    && Within(s.store, lo, end)
    && Certified(u, s.store, ls, ws, lo)
  }

  /** No live record whose hash is off the chain has a soft-deleted twin. */
  ghost predicate Unambiguous(q: Queue, n: Node) {
    forall r :: r in q && !r.isDeleted && r.toHash != HashAt(n, r.to) ==> NoTwin(q, r.from, r.to)
  }

  // ---- Parts of the step ----

  /** A matching hash certifies the whole prefix for the current chain. */
  lemma CertifiedPrefix(u: set<Node>, store: Store, ls: seq<Record>, ws: seq<Node>, lo: nat, n: Node, i: nat)
    requires World(u) && n in u && Certified(u, store, ls, ws, lo)
    requires i < |ls| && ls[i].to < |n.blocks| && ls[i].toHash == HashAt(n, ls[i].to)
    ensures Mirrors(store, n, lo, ls[i].to + 1)
  {
    var w, to := ws[i], ls[i].to;
    assert w in u && Mirrors(store, w, lo, to + 1);
    HashDeterminesAncestry(w, n, to);
    forall b: nat | lo <= b < to + 1 ensures AtBlock(store, b) == BlockDocs(n, b) {
      assert w.blocks[..to + 1][b] == n.blocks[..to + 1][b];
      SameBlockDocs(w, n, b);
    }
  }

  lemma SameBlockDocs(a: Node, b: Node, k: nat)
    requires k < |a.blocks| && k < |b.blocks| && a.blocks[k] == b.blocks[k] && a.pre721 == b.pre721
    ensures BlockDocs(a, k) == BlockDocs(b, k)
  {
    assert BlockLogs(a, k) == BlockLogs(b, k);
  }

  lemma LiveIsBelow(q: Queue, ls: seq<Record>, lo: nat, end: nat)
    requires Tiles(ls, lo, end) && Live(q) == multiset(ls)
    ensures LiveBelow(q, end, ls)
  {
    TilesBounds(ls, lo, end);
    forall r ensures r in ls <==> r in q && !r.isDeleted && r.to < end {
      LiveIn(q, r);
      assert r in ls <==> r in multiset(ls);
    }
  }

  lemma EmptyBeyond(s: Store, lo: nat, end: nat)
    requires Within(s, lo, end)
    ensures forall b: nat {:trigger AtBlock(s, b)} :: !(lo <= b < end) ==> AtBlock(s, b) == map[]
  {
  }

  lemma {:induction false} CountOnce(ls: seq<Record>, lo: nat, end: nat, i: nat)
    requires Tiles(ls, lo, end) && i < |ls|
    ensures multiset(ls)[ls[i]] == 1
  {
    TilesBounds(ls, lo, end);
    assert ls == ls[..i] + [ls[i]] + ls[i + 1..];
    assert ls[i] !in ls[..i] && ls[i] !in ls[i + 1..];
  }

  lemma OneIsRetirable(q: Queue, ls: seq<Record>, lo: nat, end: nat, n: Node, i: nat)
    requires Tiles(ls, lo, end) && Live(q) == multiset(ls) && Unambiguous(q, n)
    requires i < |ls| && ls[i].toHash != HashAt(n, ls[i].to)
    ensures OneLive(q, ls[i]) && NoTwin(q, ls[i].from, ls[i].to)
  {
    LiveIsBelow(q, ls, lo, end);
    CountOnce(ls, lo, end, i);
    OnlyOne(q, ls, lo, end, i);
    assert ls[i] in ls;
  }

  lemma SuffixIsRetirable(q: Queue, ls: seq<Record>, lo: nat, end: nat, n: Node, k: nat)
    requires Tiles(ls, lo, end) && Live(q) == multiset(ls) && Unambiguous(q, n) && k <= |ls|
    requires forall i :: k <= i < |ls| ==> ls[i].toHash != HashAt(n, ls[i].to)
    ensures Retirable(q, ls[k..]) && multiset(ls[k..]) <= Live(q)
  {
    forall i | 0 <= i < |ls[k..]| ensures OneLive(q, ls[k..][i]) && NoTwin(q, ls[k..][i].from, ls[k..][i].to) {
      OneIsRetirable(q, ls, lo, end, n, k + i);
    }
    SuffixCount(ls, k);
  }

  lemma StaleSplit(n: Node, ls: seq<Record>, lo: nat, end: nat) returns (k: nat)
    requires ValidNode(n) && end < |n.blocks| && Tiles(ls, lo, end)
    ensures k <= |ls| && Stale(n, ls, end) == ls[k..]
    ensures forall i :: k <= i < |ls| ==> ls[i].toHash != HashAt(n, ls[i].to)
  {
    StaleIsSuffix(n, ls, end);
    StaleIsMaximalSuffix(n, ls, lo, end);
    k := |ls| - |Stale(n, ls, end)|;
  }

  lemma StaleAreRetirable(q: Queue, ls: seq<Record>, lo: nat, end: nat, n: Node)
    requires ValidNode(n) && end < |n.blocks| && Tiles(ls, lo, end) && Live(q) == multiset(ls) && Unambiguous(q, n)
    ensures Retirable(q, Stale(n, ls, end))
    ensures multiset(Stale(n, ls, end)) <= Live(q)
  {
    var k := StaleSplit(n, ls, lo, end);
    SuffixIsRetirable(q, ls, lo, end, n, k);
  }

  lemma SuffixCount(ls: seq<Record>, k: nat)
    requires k <= |ls|
    ensures multiset(ls[k..]) <= multiset(ls)
    ensures multiset(ls) == multiset(ls[..k]) + multiset(ls[k..])
  {
    assert ls == ls[..k] + ls[k..];
  }

  lemma OnlyOne(q: Queue, ls: seq<Record>, lo: nat, end: nat, i: nat)
    requires Tiles(ls, lo, end) && LiveBelow(q, end, ls) && i < |ls|
    ensures forall r :: r in q && !r.isDeleted && Covers(r, ls[i].from, ls[i].to) ==> r == ls[i]
  {
    TilesBounds(ls, lo, end);
    forall r | r in q && !r.isDeleted && Covers(r, ls[i].from, ls[i].to) ensures r == ls[i] {
      assert r in ls;
      var j :| 0 <= j < |ls| && ls[j] == r;
      assert !(j < i) && !(i < j);
    }
  }

  // ---- The records after the call ----

  lemma {:induction false} RefreshedAt(n: Node, rs: seq<Record>)
    ensures |Refreshed(n, rs)| == |rs|
    ensures forall i :: 0 <= i < |rs| ==> Refreshed(n, rs)[i] == Refresh(n, rs[i])
  {
    if rs != [] {
      RefreshedAt(n, rs[..|rs| - 1]);
    }
  }

  /** Replacing records by fresh ones of the same ranges keeps the tiling. */
  lemma {:induction false} TilesRefreshed(n: Node, ls: seq<Record>, ls': seq<Record>, lo: nat, end: nat)
    requires Tiles(ls, lo, end) && |ls'| == |ls|
    requires forall i :: 0 <= i < |ls| ==> ls'[i] == ls[i] || ls'[i] == Refresh(n, ls[i])
    ensures Tiles(ls', lo, end)
  {
    if ls != [] {
      TilesRefreshed(n, ls[..|ls| - 1], ls'[..|ls| - 1], lo, ls[|ls| - 1].from);
    }
  }

  lemma {:induction false} TilesSplit(ls: seq<Record>, lo: nat, end: nat, k: nat)
    requires Tiles(ls, lo, end) && k <= |ls|
    ensures Tiles(ls[..k], lo, if k == |ls| then end else ls[k].from)
  {
    if k == |ls| {
      assert ls[..k] == ls;
    } else {
      var init := ls[..|ls| - 1];
      TilesSplit(init, lo, ls[|ls| - 1].from, k);
      assert init[..k] == ls[..k];
    }
  }

  /** The stale records are those from the `k`-th on, and the re-read starts with them. */
  ghost predicate StartsAt(n: Node, ls: seq<Record>, lo: nat, from: nat, k: nat) {
    && k <= |ls| && Stale(n, ls, from) == ls[k..]
    && Start(n, ls, from) == (if k == |ls| then from else ls[k].from)
    && (if k == 0 then Start(n, ls, from) == lo else ls[k - 1].to + 1 == Start(n, ls, from))
  }

  lemma StartsSomewhere(n: Node, ls: seq<Record>, lo: nat, from: nat) returns (k: nat)
    requires Tiles(ls, lo, from)
    ensures StartsAt(n, ls, lo, from, k)
  {
    StaleIsSuffix(n, ls, from);
    k := |ls| - |Stale(n, ls, from)|;
    TilesSplit(ls, lo, from, k);
  }

  /** The live records after the call: kept, refreshed, and the call's own. */
  ghost predicate Renewed(n: Node, ls: seq<Record>, from: nat, to: nat, k: nat, ls': seq<Record>) {
    && k <= |ls| && |ls'| == |ls| + 1
    && ls'[|ls|] == Record(from, to, HashAt(n, to), false)
    && forall i :: 0 <= i < |ls| ==> ls'[i] == if i < k then ls[i] else Refresh(n, ls[i])
  }

  lemma RecordsAfter(n: Node, ls: seq<Record>, from: nat, to: nat, k: nat, ls': seq<Record>)
    requires k <= |ls|
    requires ls' == ls[..k] + Refreshed(n, ls[k..]) + [Record(from, to, HashAt(n, to), false)]
    ensures Renewed(n, ls, from, to, k, ls')
  {
    RefreshedAt(n, ls[k..]);
  }

  lemma TilesAfter(n: Node, ls: seq<Record>, lo: nat, from: nat, to: nat, k: nat, ls': seq<Record>)
    requires from <= to && Tiles(ls, lo, from) && Renewed(n, ls, from, to, k, ls')
    ensures Tiles(ls', lo, to + 1)
  {
    TilesRefreshed(n, ls, ls'[..|ls|], lo, from);
  }

  lemma LiveAfter(n: Node, q: Queue, ls: seq<Record>, lo: nat, from: nat, to: nat, k: nat, ls': seq<Record>, q': Queue)
    requires k <= |ls| && Live(q) == multiset(ls)
    requires ls' == ls[..k] + Refreshed(n, ls[k..]) + [Record(from, to, HashAt(n, to), false)]
    requires Live(q')
      == Live(q) - multiset(ls[k..]) + multiset(Refreshed(n, ls[k..]))
        + multiset{Record(from, to, HashAt(n, to), false)}
    ensures Live(q') == multiset(ls')
  {
    SuffixCount(ls, k);
  }

  lemma QueueAfter(s: State, s': State, ls: seq<Record>, lo: nat, n: Node, from: nat, to: nat, k: nat, ls': seq<Record>)
    requires ValidNode(n) && from <= to < |n.blocks| && Tiles(ls, lo, from) && Live(s.queue) == multiset(ls)
      && Unambiguous(s.queue, n)
    requires Completes(n, from, to, true, false, s, s')
    requires k <= |ls| && Stale(n, ls, from) == ls[k..]
    requires ls' == ls[..k] + Refreshed(n, ls[k..]) + [Record(from, to, HashAt(n, to), false)]
    ensures Live(s'.queue) == multiset(ls')
  {
    LiveIsBelow(s.queue, ls, lo, from);
    StaleAreRetirable(s.queue, ls, lo, from, n);
    CascadeRelogs(n, from, to, false, s, s', ls, lo);
    LiveAfter(n, s.queue, ls, lo, from, to, k, ls', s'.queue);
  }

  // ---- The store after the call ----

  /** Block by block: the chain's events from `start` to `to`, the old ones elsewhere. */
  ghost predicate Rewritten(s: Store, s': Store, n: Node, start: nat, to: nat) {
    forall b: nat {:trigger AtBlock(s', b)} :: AtBlock(s', b) ==
        if start <= b <= to then BlockDocs(n, b) else AtBlock(s, b)
  }

  lemma BlocksAfter(s: State, s': State, ls: seq<Record>, lo: nat, n: Node, from: nat, to: nat)
    requires ValidNode(n) && from <= to && Tiles(ls, lo, from) && Live(s.queue) == multiset(ls)
      && Within(s.store, lo, from)
    requires Completes(n, from, to, true, false, s, s')
    ensures Rewritten(s.store, s'.store, n, Start(n, ls, from), to)
  {
    LiveIsBelow(s.queue, ls, lo, from);
    EmptyBeyond(s.store, lo, from);
    forall b: nat
        ensures AtBlock(s'.store, b) == if Start(n, ls, from) <= b <= to then BlockDocs(n, b) else AtBlock(s.store, b) {
      CascadeStores(n, from, to, false, s, s', ls, lo, b);
    }
  }

  lemma WithinFromBlocks(s: Store, lo: nat, end: nat)
    requires forall b: nat {:trigger AtBlock(s, b)} :: !(lo <= b < end) ==> AtBlock(s, b) == map[]
    ensures Within(s, lo, end)
  {
    forall id | id in s ensures lo <= id.blockNumber < end {
      InItsBlock(s, id);
    }
  }

  lemma WithinAfter(s: Store, s': Store, n: Node, lo: nat, from: nat, start: nat, to: nat)
    requires Rewritten(s, s', n, start, to) && Within(s, lo, from) && lo <= start <= from <= to
    ensures Within(s', lo, to + 1)
  {
    EmptyBeyond(s, lo, from);
    WithinFromBlocks(s', lo, to + 1);
  }

  lemma MirrorsAfter(s: Store, s': Store, n: Node, lo: nat, start: nat, to: nat)
    requires Rewritten(s, s', n, start, to) && Mirrors(s, n, lo, start)
    ensures Mirrors(s', n, lo, to + 1)
  {
  }

  lemma MirrorsKept(s: Store, s': Store, n: Node, w: Node, lo: nat, end: nat, start: nat, to: nat)
    requires Rewritten(s, s', n, start, to) && Mirrors(s, w, lo, end) && end <= start
    ensures Mirrors(s', w, lo, end)
  {
  }

  lemma StoreAfter(u: set<Node>, s: State, s': State, ls: seq<Record>, ws: seq<Node>, lo: nat, n: Node, from: nat,
                   to: nat, k: nat)
    requires World(u) && n in u && from <= to < |n.blocks| && Inv(u, s, ls, ws, lo, from)
    requires Rewritten(s.store, s'.store, n, Start(n, ls, from), to)
    requires StartsAt(n, ls, lo, from, k)
    ensures Mirrors(s'.store, n, lo, to + 1) && Within(s'.store, lo, to + 1)
  {
    var start := Start(n, ls, from);
    TilesBounds(ls, lo, from);
    if 0 < k {
      assert |Stale(n, ls, from)| == |ls| - k;
      StaleIsMaximalSuffix(n, ls, lo, from);
      CertifiedPrefix(u, s.store, ls, ws, lo, n, k - 1);
    }
    MirrorsAfter(s.store, s'.store, n, lo, start, to);
    WithinAfter(s.store, s'.store, n, lo, from, start, to);
  }

  lemma CertifiedAfter(u: set<Node>, s: Store, s': Store, ls: seq<Record>, ws: seq<Node>, lo: nat, n: Node, start: nat,
                       to: nat, k: nat, ls': seq<Record>, ws': seq<Node>)
    requires n in u && Certified(u, s, ls, ws, lo) && Rewritten(s, s', n, start, to) && Mirrors(s', n, lo, to + 1)
    requires k <= |ls| && |ls'| == |ls| + 1
    requires forall i :: 0 <= i < k ==> ls'[i] == ls[i] && ls[i].to < start
    requires forall i :: k <= i < |ls'| ==> ls'[i].to <= to && ls'[i].toHash == HashAt(n, ls'[i].to)
    requires ws' == ws[..k] + seq(|ls'| - k, i => n)
    ensures Certified(u, s', ls', ws', lo)
  {
    forall i | 0 <= i < |ls'| && ls'[i].toHash.Some?
      ensures ws'[i] in u && HashAt(ws'[i], ls'[i].to) == ls'[i].toHash && Mirrors(s', ws'[i], lo, ls'[i].to + 1)
    {
      if i < k {
        assert ws'[i] == ws[i];
        MirrorsKept(s, s', n, ws[i], lo, ls[i].to + 1, start, to);
      } else {
        assert ws'[i] == n;
      }
    }
  }

  lemma HashesAfter(n: Node, ls: seq<Record>, lo: nat, from: nat, to: nat, k: nat, ls': seq<Record>)
    requires from <= to && Tiles(ls, lo, from) && StartsAt(n, ls, lo, from, k) && Renewed(n, ls, from, to, k, ls')
    ensures forall i :: 0 <= i < k ==> ls'[i] == ls[i] && ls[i].to < Start(n, ls, from)
    ensures forall i :: k <= i < |ls'| ==> ls'[i].to <= to && ls'[i].toHash == HashAt(n, ls'[i].to)
  {
    TilesBounds(ls, lo, from);
  }

  lemma Assemble(u: set<Node>, s: State, s': State, ls: seq<Record>, ws: seq<Node>, lo: nat, n: Node, from: nat,
                 to: nat, k: nat, ls': seq<Record>)
    returns (ws': seq<Node>)
    requires World(u) && n in u && from <= to < |n.blocks| && Inv(u, s, ls, ws, lo, from)
    requires Rewritten(s.store, s'.store, n, Start(n, ls, from), to) && Live(s'.queue) == multiset(ls')
    requires StartsAt(n, ls, lo, from, k) && Renewed(n, ls, from, to, k, ls')
    ensures Inv(u, s', ls', ws', lo, to + 1) && Mirrors(s'.store, n, lo, to + 1)
  {
    ws' := ws[..k] + seq(|ls'| - k, i => n);
    HashesAfter(n, ls, lo, from, to, k, ls');
    TilesAfter(n, ls, lo, from, to, k, ls');
    StoreAfter(u, s, s', ls, ws, lo, n, from, to, k);
    CertifiedAfter(u, s.store, s'.store, ls, ws, lo, n, Start(n, ls, from), to, k, ls', ws');
  }

  /** A live call on chain `n` keeps the invariant and leaves the stored events equal to
      the chain's on every covered block. */
  lemma LiveStep(u: set<Node>, s: State, s': State, ls: seq<Record>, ws: seq<Node>, lo: nat, n: Node, from: nat,
                 to: nat)
    returns (ls': seq<Record>, ws': seq<Node>)
    requires World(u) && n in u && from <= to < |n.blocks|
    requires Inv(u, s, ls, ws, lo, from) && Unambiguous(s.queue, n)
    requires Completes(n, from, to, true, false, s, s')
    ensures Inv(u, s', ls', ws', lo, to + 1)
    ensures Mirrors(s'.store, n, lo, to + 1)
  {
    var k := StartsSomewhere(n, ls, lo, from);
    ls' := ls[..k] + Refreshed(n, ls[k..]) + [Record(from, to, HashAt(n, to), false)];
    RecordsAfter(n, ls, from, to, k, ls');
    BlocksAfter(s, s', ls, lo, n, from, to);
    QueueAfter(s, s', ls, lo, n, from, to, k, ls');
    ws' := Assemble(u, s, s', ls, ws, lo, n, from, to, k, ls');
  }

  // ---- Runs ----

  /** One live call and the chain it saw. */
  datatype Call = Call(node: Node, from: nat, to: nat)

  /** Where the calls before the `i`-th have got to. */
  function EndAt(start: nat, calls: seq<Call>, i: nat): nat
    requires i <= |calls|
  {
    if i == 0 then start else calls[i - 1].to + 1
  }

  /** Call `i` goes on where the previous one ended, and completes. */
  ghost predicate GoesOn(u: set<Node>, start: nat, calls: seq<Call>, states: seq<State>, i: nat)
    requires i < |calls| && |states| == |calls| + 1
  {
    var c := calls[i];
    && c.node in u && c.from == EndAt(start, calls, i) && c.from <= c.to < |c.node.blocks|
    && Unambiguous(states[i].queue, c.node)
    && Completes(c.node, c.from, c.to, true, false, states[i], states[i + 1])
  }

  /** Consecutive completed live calls; between two of them the chain may reorganise at will. */
  ghost predicate Run(u: set<Node>, start: nat, calls: seq<Call>, states: seq<State>) {
    && |states| == |calls| + 1
    && forall i: nat {:trigger GoesOn(u, start, calls, states, i)} :: i < |calls| ==> GoesOn(u, start, calls, states, i)
  }

  /** After the call, each covered block holds exactly the events of the chain the call
      saw, and nothing else is stored. */
  ghost predicate Correct(lo: nat, c: Call, after: State) {
    Mirrors(after.store, c.node, lo, c.to + 1) && Within(after.store, lo, c.to + 1)
  }

  lemma RunStep(u: set<Node>, ls: seq<Record>, ws: seq<Node>, lo: nat, start: nat, calls: seq<Call>, states: seq<State>,
                k: nat)
    returns (ls': seq<Record>, ws': seq<Node>)
    requires World(u) && Run(u, start, calls, states) && k < |calls|
      && Inv(u, states[k], ls, ws, lo, EndAt(start, calls, k))
    ensures Inv(u, states[k + 1], ls', ws', lo, EndAt(start, calls, k + 1))
    ensures Correct(lo, calls[k], states[k + 1])
  {
    assert GoesOn(u, start, calls, states, k);
    ls', ws' := CallKeeps(u, states[k], states[k + 1], ls, ws, lo, calls[k]);
  }

  lemma CallKeeps(u: set<Node>, s: State, s': State, ls: seq<Record>, ws: seq<Node>, lo: nat, c: Call)
    returns (ls': seq<Record>, ws': seq<Node>)
    requires World(u) && c.node in u && c.from <= c.to < |c.node.blocks|
    requires Inv(u, s, ls, ws, lo, c.from) && Unambiguous(s.queue, c.node)
    requires Completes(c.node, c.from, c.to, true, false, s, s')
    ensures Inv(u, s', ls', ws', lo, c.to + 1) && Correct(lo, c, s')
  {
    ls', ws' := LiveStep(u, s, s', ls, ws, lo, c.node, c.from, c.to);
  }

  /** After the first `i` calls the invariant holds, and each of them ended correctly. */
  lemma {:induction false} RunKeeps(u: set<Node>, ls: seq<Record>, ws: seq<Node>, lo: nat, start: nat, calls: seq<Call>,
                                    states: seq<State>, i: nat)
    returns (ls': seq<Record>, ws': seq<Node>)
    requires World(u) && Run(u, start, calls, states) && Inv(u, states[0], ls, ws, lo, start) && i <= |calls|
    ensures Inv(u, states[i], ls', ws', lo, EndAt(start, calls, i))
    ensures 0 < i ==> Correct(lo, calls[i - 1], states[i])
  {
    if i == 0 {
      ls', ws' := ls, ws;
    } else {
      ls', ws' := RunKeeps(u, ls, ws, lo, start, calls, states, i - 1);
      ls', ws' := RunStep(u, ls', ws', lo, start, calls, states, i - 1);
    }
  }

  /** Reorg correctness: every call of a run ends in a correct state. */
  lemma ReorgCorrect(u: set<Node>, ls: seq<Record>, ws: seq<Node>, lo: nat, start: nat, calls: seq<Call>,
                     states: seq<State>)
    requires World(u) && Run(u, start, calls, states) && Inv(u, states[0], ls, ws, lo, start)
    ensures forall i :: 0 <= i < |calls| ==> Correct(lo, calls[i], states[i + 1])
  {
    forall i | 0 <= i < |calls| ensures Correct(lo, calls[i], states[i + 1]) {
      var ls', ws' := RunKeeps(u, ls, ws, lo, start, calls, states, i + 1);
    }
  }

  /** In particular from an empty database. */
  lemma FreshRun(u: set<Node>, start: nat, calls: seq<Call>, states: seq<State>)
    requires World(u) && Run(u, start, calls, states) && states[0] == State(map[], [], [])
    ensures forall i :: 0 <= i < |calls| ==> Correct(start, calls[i], states[i + 1])
  {
    ReorgCorrect(u, [], [], start, start, calls, states);
  }
}
