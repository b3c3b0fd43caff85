/** The `events` collection (src/shared/events/events-repo.ts): a map from `_id` to
    document, written by bulk operations and cleared by block ranges. */
module EventStore {
  import opened Prelude
  import opened Ethnode

  /** A stored document. Its `blockNumber` and `logIndex` fields always repeat those of
      its `_id` (every writer takes all of them from one event), so they live in the key. */
  datatype Doc = Doc(contractAddress: Address, standard: TokenStandard, from: Address, to: Address, ids: seq<string>,
    values: seq<nat>)

  type Store = map<EventId, Doc>

  function DocOf(e: Event): Doc { Doc(e.contractAddress, e.standard, e.from, e.to, e.ids, e.values) }

  /** The documents of a list of events; a repeated id keeps the last one. */
  function Docs(es: seq<Event>): Store {
    if es == [] then map[] else Docs(es[..|es| - 1])[IdOf(es[|es| - 1]) := DocOf(es[|es| - 1])]
  }

  /** What the store holds for one block. */
  function AtBlock(s: Store, b: nat): Store { map id | id in s && id.blockNumber == b :: s[id] }

  /** What the store ought to hold for block `b` of the chain. */
  function BlockDocs(n: Node, b: nat): Store { Docs(BlockEvents(n, b)) }

  function WithoutRange(s: Store, from: nat, to: nat): Store {
    map id | id in s && !(from <= id.blockNumber <= to) :: s[id]
  }

  function UpTo(s: Store, b: nat): Store { map id | id in s && id.blockNumber <= b :: s[id] }

  ghost predicate Fresh(s: Store, es: seq<Event>) { forall i :: 0 <= i < |es| ==> IdOf(es[i]) !in s }

  /** An insert that stopped after some prefix of the events. */
  ghost predicate PartlyInserted(s: Store, es: seq<Event>, s': Store) {
    exists k {:trigger es[..k]} :: 0 <= k <= |es| && s' == s + Docs(es[..k])
  }

  /** The store agrees with the chain on every block `lo <= b < end`. */
  ghost predicate Mirrors(s: Store, n: Node, lo: nat, end: nat) {
    forall b: nat {:trigger AtBlock(s, b)} | lo <= b < end :: AtBlock(s, b) == BlockDocs(n, b)
  }

  /** No stored event lies outside the blocks `lo <= b < end`. */
  ghost predicate Within(s: Store, lo: nat, end: nat) {
    forall id | id in s :: lo <= id.blockNumber < end
  }

  class EventsRepo {
    var docs: Store

    constructor ()
      ensures docs == map[]
    {
      docs := map[];
    }

    /** An ordered `bulkWrite` of inserts: it stops, and throws, at the first `_id` that
        is already taken, leaving the documents before it in place. */
    method BulkSave(es: seq<Event>) returns (ok: bool)
      modifies this
      ensures ok <==> DistinctIds(es) && Fresh(old(docs), es)
      ensures ok ==> docs == old(docs) + Docs(es)
      ensures !ok ==> exists k {:trigger es[k]} ::
          0 <= k < |es| && docs == old(docs) + Docs(es[..k]) && IdOf(es[k]) in docs
    {
      for i := 0 to |es|
        invariant docs == old(docs) + Docs(es[..i])
        invariant DistinctIds(es[..i]) && Fresh(old(docs), es[..i])
      {
        ClashIff(old(docs), es, i);
        if IdOf(es[i]) in docs {
          return false;
        }
        assert es[..i + 1][..i] == es[..i];
        docs := docs[IdOf(es[i]) := DocOf(es[i])];
      }
      assert es[..|es|] == es;
      return true;
    }

    /** A `bulkWrite` of upserts never fails and overwrites. */
    method BulkUpsert(es: seq<Event>)
      modifies this
      ensures docs == old(docs) + Docs(es)
    {
      for i := 0 to |es|
        invariant docs == old(docs) + Docs(es[..i])
      {
        assert es[..i + 1][..i] == es[..i];
        docs := docs[IdOf(es[i]) := DocOf(es[i])];
      }
      assert es[..|es|] == es;
    }

    method DeleteByBlockRange(from: nat, to: nat)
      modifies this
      ensures docs == WithoutRange(old(docs), from, to)
    {
      docs := map id | id in docs && !(from <= id.blockNumber <= to) :: docs[id];
    }

    method DeleteWhereBlockNumberGreaterThan(b: nat)
      modifies this
      ensures docs == UpTo(old(docs), b)
    {
      docs := map id | id in docs && !(id.blockNumber > b) :: docs[id];
    }
  }

  // ---- Documents of event lists ----

  lemma {:induction false} DocsKeys(es: seq<Event>)
    ensures forall id :: id in Docs(es) <==> exists i :: 0 <= i < |es| && IdOf(es[i]) == id
  {
    if es != [] {
      var k := |es| - 1;
      DocsKeys(es[..k]);
      forall id ensures id in Docs(es) <==> exists i :: 0 <= i < |es| && IdOf(es[i]) == id {
        if id in Docs(es[..k]) {
          var i :| 0 <= i < k && IdOf(es[..k][i]) == id;
          assert IdOf(es[i]) == id;
        }
        if i :| 0 <= i < |es| && IdOf(es[i]) == id && i < k {
          assert IdOf(es[..k][i]) == id;
        }
      }
    }
  }

  lemma {:induction false} DocsConcat(a: seq<Event>, b: seq<Event>)
    ensures Docs(a + b) == Docs(a) + Docs(b)
  {
    if b == [] {
      assert a + b == a;
    } else {
      DocsConcat(a, b[..|b| - 1]);
      assert (a + b)[..|a + b| - 1] == a + b[..|b| - 1];
    }
  }

  /** With distinct ids no document is overwritten: each event finds its own. */
  lemma {:induction false} DocsLookup(es: seq<Event>, i: nat)
    requires i < |es| && DistinctIds(es)
    ensures IdOf(es[i]) in Docs(es) && Docs(es)[IdOf(es[i])] == DocOf(es[i])
  {
    if i < |es| - 1 {
      DocsLookup(es[..|es| - 1], i);
    }
  }

  /** The document of each event, field by field. */
  lemma DocsHold(es: seq<Event>, i: nat)
    requires i < |es| && DistinctIds(es)
    ensures
      var e, id := es[i], EventId(es[i].blockNumber, es[i].txHash, es[i].logIndex);
      && id in Docs(es)
      && Docs(es)[id] == Doc(e.contractAddress, e.standard, e.from, e.to, e.ids, e.values)
  {
    DocsLookup(es, i);
  }

  /** The next insert of a bulk fails exactly when it repeats an id of the store or of
      the bulk so far. */
  lemma ClashIff(s: Store, es: seq<Event>, i: nat)
    requires i < |es| && DistinctIds(es[..i]) && Fresh(s, es[..i])
    ensures IdOf(es[i]) in s + Docs(es[..i]) <==> !(DistinctIds(es[..i + 1]) && Fresh(s, es[..i + 1]))
    ensures IdOf(es[i]) in s + Docs(es[..i]) ==> !(DistinctIds(es) && Fresh(s, es))
  {
    DocsKeys(es[..i]);
    if IdOf(es[i]) in Docs(es[..i]) {
      var j :| 0 <= j < i && IdOf(es[..i][j]) == IdOf(es[i]);
      assert IdOf(es[j]) == IdOf(es[i]) && IdOf(es[..i + 1][j]) == IdOf(es[..i + 1][i]);
    }
    if IdOf(es[i]) in s {
      assert IdOf(es[..i + 1][i]) in s;
    }
    if IdOf(es[i]) !in s + Docs(es[..i]) {
      forall j {:trigger es[j]} | 0 <= j < i ensures IdOf(es[j]) != IdOf(es[i]) {
        assert IdOf(es[..i][j]) == IdOf(es[j]);
      }
    }
  }

  lemma ProperDocs(es: seq<Event>, from: nat, end: nat)
    requires ProperRange(es, from, end)
    ensures Within(Docs(es), from, end)
  {
    DocsKeys(es);
  }

  // ---- Per-block view ----

  lemma AtBlockUnion(s: Store, t: Store, b: nat)
    ensures AtBlock(s + t, b) == AtBlock(s, b) + AtBlock(t, b)
    ensures AtBlock(t, b) == map[] ==> AtBlock(s + t, b) == AtBlock(s, b)
    ensures AtBlock(s, b) == map[] ==> AtBlock(s + t, b) == AtBlock(t, b)
  {
  }

  lemma AtBlockOutside(s: Store, lo: nat, end: nat, b: nat)
    requires Within(s, lo, end) && !(lo <= b < end)
    ensures AtBlock(s, b) == map[]
  {
  }

  lemma RangeDocsOutside(n: Node, from: nat, end: nat, b: nat)
    requires ValidNode(n) && !(from <= b < end)
    ensures AtBlock(Docs(RangeEvents(n, from, end)), b) == map[]
  {
    RangeIsProper(n, from, end);
    ProperDocs(RangeEvents(n, from, end), from, end);
    AtBlockOutside(Docs(RangeEvents(n, from, end)), from, end, b);
  }

  lemma BlockDocsAt(n: Node, k: nat, b: nat)
    requires ValidNode(n)
    ensures AtBlock(BlockDocs(n, k), b) == if b == k then BlockDocs(n, k) else map[]
  {
    BlockIsProper(n, k);
    ProperDocs(BlockEvents(n, k), k, k + 1);
  }

  /** Storing one fetch stores, block by block, what the chain holds. */
  lemma {:induction false} RangeDocsAt(n: Node, from: nat, end: nat, b: nat)
    requires ValidNode(n) && from <= b < end
    ensures AtBlock(Docs(RangeEvents(n, from, end)), b) == BlockDocs(n, b)
    decreases end
  {
    var a, c := RangeEvents(n, from, end - 1), BlockEvents(n, end - 1);
    assert RangeEvents(n, from, end) == a + c;
    BlockDocsAt(n, end - 1, b);
    DocsOfJoinAt(a, c, b);
    if b == end - 1 {
      RangeDocsOutside(n, from, end - 1, b);
    } else {
      RangeDocsAt(n, from, end - 1, b);
    }
  }

  lemma DocsOfJoinAt(a: seq<Event>, c: seq<Event>, b: nat)
    ensures AtBlock(Docs(a + c), b) == AtBlock(Docs(a), b) + AtBlock(Docs(c), b)
    ensures AtBlock(Docs(a), b) == map[] ==> AtBlock(Docs(a + c), b) == AtBlock(Docs(c), b)
    ensures AtBlock(Docs(c), b) == map[] ==> AtBlock(Docs(a + c), b) == AtBlock(Docs(a), b)
  {
    DocsConcat(a, c);
    AtBlockUnion(Docs(a), Docs(c), b);
  }

  /** Two stores with the same per-block view are the same store. */
  lemma SameBlocks(s: Store, t: Store)
    requires forall b: nat :: AtBlock(s, b) == AtBlock(t, b)
    ensures s == t
  {
    forall id ensures id in s <==> id in t {
      assert id in s <==> id in AtBlock(s, id.blockNumber);
      assert id in t <==> id in AtBlock(t, id.blockNumber);
    }
    forall id | id in s ensures s[id] == t[id] {
      assert s[id] == AtBlock(s, id.blockNumber)[id];
      assert t[id] == AtBlock(t, id.blockNumber)[id];
    }
  }

  lemma InItsBlock(s: Store, id: EventId)
    requires id in s
    ensures id in AtBlock(s, id.blockNumber)
  {
  }

  /** A range with no stored block of its own is free for inserting. */
  lemma FreshIfEmpty(s: Store, es: seq<Event>, from: nat, end: nat)
    requires ProperRange(es, from, end)
    requires forall b: nat | from <= b < end :: AtBlock(s, b) == map[]
    ensures Fresh(s, es)
  {
    forall i | 0 <= i < |es| ensures IdOf(es[i]) !in s {
      var b := es[i].blockNumber;
      assert AtBlock(s, b) == map[];
      if IdOf(es[i]) in s {
        InItsBlock(s, IdOf(es[i]));
        assert false;
      }
    }
  }
}
