/** Small concrete chains, and live calls on single blocks of them: the material of the
    witnesses that show where a property fails. */
module ExampleChains {
  import opened Prelude
  import opened Ethnode
  import opened EventStore
  import opened BlocksQueue
  import opened Reader
  import opened Reorg

  function Empty(hash: Hash, parent: Hash): Block { Block(hash, parent, []) }

  /** The one transfer of a block `b` that has one. */
  function Mint(b: nat): Log { Log(b, 7, 0, "nft", 4, Transfer("0x0", "alice", "0x1")) }
  function Minted(b: nat): Event { Event(b, 0, 7, "nft", ERC721, "0x0", "alice", ["0x1"], [1]) }
  function IdAt(b: nat): EventId { EventId(b, 7, 0) }
  const DOC := Doc("nft", ERC721, "0x0", "alice", ["0x1"], [1])

  function Rec(b: nat, h: Hash, deleted: bool): Record { Record(b, b, Some(h), deleted) }
  function Msg(reread: bool, b: nat): IndexBlockRange { IndexBlockRange(reread, b, b) }

  // ---- Events of one block ----

  lemma NoEvents(n: Node, b: nat)
    requires b < |n.blocks| && n.blocks[b].logs == []
    ensures RangeEvents(n, b, b + 1) == [] && Decodable(n, b, b + 1)
  {
    assert RangeEvents(n, b, b) == [];
  }

  lemma OneLog(b: nat)
    ensures Events([Mint(b)], {}) == [Minted(b)]
    ensures Docs([Minted(b)]) == map[IdAt(b) := DOC]
  {
    assert [Mint(b)][..0] == [];
    assert [Minted(b)][..0] == [];
  }

  lemma OneEvent(n: Node, b: nat)
    requires b < |n.blocks| && n.blocks[b].logs == [Mint(b)] && n.pre721 == {}
    ensures RangeEvents(n, b, b + 1) == [Minted(b)] && Decodable(n, b, b + 1)
  {
    OneLog(b);
    assert RangeEvents(n, b, b) == [];
  }

  // ---- Reading one block ----

  /** Logging a block without events. */
  lemma LogEmpty(n: Node, b: nat, reread: bool, s: State, t: State)
    requires b < |n.blocks| && n.blocks[b].logs == []
    requires t == State(s.store, s.queue + [Rec(b, n.blocks[b].hash, false)], s.bus + [Msg(reread, b)])
    ensures Decodable(n, b, b + 1) && Writable(s.store, RangeEvents(n, b, b + 1), reread)
    ensures Logged(n, b, b, true, reread, s) == t
  {
    NoEvents(n, b);
    assert s.store + map[] == s.store;
  }

  lemma MintFits(s: Store, b: nat, es: seq<Event>)
    requires es == [Minted(b)] && IdAt(b) !in s
    ensures DistinctIds(es) && Fresh(s, es) && s + Docs(es) == s[IdAt(b) := DOC]
  {
    OneLog(b);
    assert s + map[IdAt(b) := DOC] == s[IdAt(b) := DOC];
  }

  /** Logging a block with its one transfer. */
  lemma LogMint(n: Node, b: nat, reread: bool, s: State, t: State)
    requires b < |n.blocks| && n.blocks[b].logs == [Mint(b)] && n.pre721 == {} && IdAt(b) !in s.store
    requires t == State(s.store[IdAt(b) := DOC], s.queue + [Rec(b, n.blocks[b].hash, false)], s.bus + [Msg(reread, b)])
    ensures Decodable(n, b, b + 1) && Writable(s.store, RangeEvents(n, b, b + 1), reread)
    ensures Logged(n, b, b, true, reread, s) == t
  {
    OneEvent(n, b);
    MintFits(s.store, b, RangeEvents(n, b, b + 1));
  }

  lemma LatestAt(q: Queue, to: nat, k: nat)
    requires k < |q| && !q[k].isDeleted && q[k].to < to
    requires forall i :: 0 <= i < |q| && !q[i].isDeleted && q[i].to < to ==> q[i].to <= q[k].to
    ensures IsLatest(q, to, Some(q[k]))
  {
  }

  lemma Flagged(q: Queue, k: nat, from: nat, to: nat, q': Queue)
    requires k < |q| && Covers(q[k], from, to) && q' == q[k := q[k].(isDeleted := true)]
    ensures SoftDeletes(q, from, to, q')
  {
  }

  /** Reading `from..to` leads to state `t` and on to `u`, in which the re-read of record `l`
      begins. */
  ghost predicate Leads(n: Node, from: nat, to: nat, reread: bool, s: State, l: Record, t: State, u: State) {
    && Decodable(n, from, to + 1) && Writable(s.store, RangeEvents(n, from, to + 1), reread)
    && t == Logged(n, from, to, true, reread, s)
    && IsLatest(s.queue, from, Some(l)) && Diverges(n, from, Some(l))
    && SoftDeletes(t.queue, l.from, l.to, u.queue) && u == Retired(t, l, u.queue)
  }

  lemma RereadNext(n: Node, from: nat, to: nat, reread: bool, s: State, l: Record, t: State, u: State, s': State)
    requires Leads(n, from, to, reread, s, l, t, u) && Completes(n, l.from, l.to, true, true, u, s')
    ensures Completes(n, from, to, true, reread, s, s')
  {
    GoesBack(n, from, to, reread, s, l, u.queue, s');
  }
}
