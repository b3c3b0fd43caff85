/** The Ethereum node as the indexer sees it: hash-linked blocks of logs, and the
    loop that filters and decodes the logs of a block range into transfer events
    (src/shared/ethnode/events.ts, src/shared/ethnode/block.ts). */
module Ethnode {
  import opened Prelude

  /** A 256-bit hash, as a number. */
  type Hash = nat
  type Address = string

  datatype TokenStandard = ERC721 | ERC1155 | PRE721 | PRE1151

  /** What `iface.parseLog` gives for a log, with ids already in hexadecimal;
      `Unsuitable` is a log whose name is none of the three, or that does not parse. */
  datatype ParsedLog =
    | Transfer(from: Address, to: Address, tokenId: string)
    | TransferSingle(from: Address, to: Address, id: string, value: nat)
    | TransferBatch(from: Address, to: Address, ids: seq<string>, values: seq<nat>)
    | Unsuitable

  datatype Log = Log(blockNumber: nat, txHash: Hash, logIndex: nat, address: Address, topics: nat, parsed: ParsedLog)

  datatype Block = Block(hash: Hash, parentHash: Hash, logs: seq<Log>)

  /** One view of the chain: block `b` is `blocks[b]`, the head is the last one.
      `pre721` holds the pre-721 contracts the service decodes specially. */
  datatype Node = Node(blocks: seq<Block>, pre721: set<Address>)

  /** `_id` of a stored event. The source builds the string
      `blockNumber:transactionHash:logIndex`; its parts contain no colon. */
  datatype EventId = EventId(blockNumber: nat, txHash: Hash, logIndex: nat)

  datatype Event = Event(
    blockNumber: nat, logIndex: nat, txHash: Hash, contractAddress: Address,
    standard: TokenStandard, from: Address, to: Address, ids: seq<string>, values: seq<nat>)

  function IdOf(e: Event): EventId { EventId(e.blockNumber, e.txHash, e.logIndex) }

  /** ERC-20 transfers share topic 0 with ERC-721 ones but have three topics. */
  predicate Skipped(log: Log, pre721: set<Address>) { log.topics != 4 && log.address !in pre721 }

  predicate Undecodable(log: Log, pre721: set<Address>) { !Skipped(log, pre721) && log.parsed.Unsuitable? }

  function StandardOf(log: Log, pre721: set<Address>): TokenStandard {
    if log.parsed.Transfer? then (if log.address in pre721 then PRE721 else ERC721)
    else (if log.address in pre721 then PRE1151 else ERC1155)
  }

  function Decode(log: Log, pre721: set<Address>): Event
    requires !log.parsed.Unsuitable?
  {
    var ids := match log.parsed
      case Transfer(_, _, t) => [t] case TransferSingle(_, _, t, _) => [t] case TransferBatch(_, _, ts, _) => ts;
    var values := match log.parsed
      case Transfer(_, _, _) => [1] case TransferSingle(_, _, _, v) => [v] case TransferBatch(_, _, _, vs) => vs;
    Event(log.blockNumber, log.logIndex, log.txHash, log.address, StandardOf(log, pre721), log.parsed.from,
          log.parsed.to, ids, values)
  }

  /** The event of a log, if it is kept and decodable. */
  function EventsOf(log: Log, pre721: set<Address>): seq<Event> {
    if Skipped(log, pre721) || log.parsed.Unsuitable? then [] else [Decode(log, pre721)]
  }

  /** The events of a list of logs, undecodable ones left out. */
  function Events(logs: seq<Log>, pre721: set<Address>): seq<Event> {
    if logs == [] then [] else Events(logs[..|logs| - 1], pre721) + EventsOf(logs[|logs| - 1], pre721)
  }

  function BlockLogs(n: Node, b: nat): seq<Log> {
    if b < |n.blocks| then n.blocks[b].logs else []
  }

  /** `provider.getLogs` for the blocks `from <= b < end`; blocks past the head have none. */
  function LogsIn(n: Node, from: nat, end: nat): seq<Log> {
    if end <= from then [] else LogsIn(n, from, end - 1) + BlockLogs(n, end - 1)
  }

  /** The transfer events of one block. */
  function BlockEvents(n: Node, b: nat): seq<Event> { Events(BlockLogs(n, b), n.pre721) }

  /** The transfer events the chain holds in the blocks `from <= b < end`, block by block. */
  function RangeEvents(n: Node, from: nat, end: nat): seq<Event> {
    if end <= from then [] else RangeEvents(n, from, end - 1) + BlockEvents(n, end - 1)
  }

  predicate AllDecodable(logs: seq<Log>, pre721: set<Address>) {
    forall log | log in logs :: !Undecodable(log, pre721)
  }

  predicate DecodableBlock(n: Node, b: nat) {
    AllDecodable(BlockLogs(n, b), n.pre721)
  }

  predicate Decodable(n: Node, from: nat, end: nat) {
    forall b | from <= b < end :: DecodableBlock(n, b)
  }

  /** The result of asking for the inclusive range `from..to`. */
  function Fetch(n: Node, from: nat, to: nat): Result<seq<Event>> {
    if Decodable(n, from, to + 1) then Ok(RangeEvents(n, from, to + 1)) else Err
  }

  /** `getEthNodeTransferEvents`: one pass over the logs, throwing at the first one
      whose name is unsuitable. */
  method GetEthNodeTransferEvents(n: Node, from: nat, to: nat) returns (r: Result<seq<Event>>)
    ensures r == Fetch(n, from, to)
  {
    var logs := LogsIn(n, from, to + 1);
    LogsByBlock(n, from, to + 1);
    DecodableByBlock(n, from, to + 1);
    r := DecodeAll(logs, n.pre721);
  }

  /** The decoding loop. */
  method DecodeAll(logs: seq<Log>, pre721: set<Address>) returns (r: Result<seq<Event>>)
    ensures r == if AllDecodable(logs, pre721) then Ok(Events(logs, pre721)) else Err
  {
    var res: seq<Event> := [];
    for i := 0 to |logs|
      invariant res == Events(logs[..i], pre721)
      invariant forall k :: 0 <= k < i ==> !Undecodable(logs[k], pre721)
    {
      assert logs[..i + 1][..i] == logs[..i];
      var log := logs[i];
      if log.topics != 4 && log.address !in pre721 {
        continue;
      }
      var ids, values, standard := [], [], ERC721;
      match log.parsed {
        case Transfer(_, _, tokenId) =>
          ids, values, standard := [tokenId], [1], ERC721;
        case TransferSingle(_, _, id, value) =>
          ids, values, standard := [id], [value], ERC1155;
        case TransferBatch(_, _, batchIds, batchValues) =>
          ids, values, standard := batchIds, batchValues, ERC1155;
        case Unsuitable =>
          assert Undecodable(log, pre721) && log in logs;
          return Err;
      }
      if log.address in pre721 && standard == ERC721 {
        standard := PRE721;
      }
      if log.address in pre721 && standard == ERC1155 {
        standard := PRE1151;
      }
      res := res + [Event(log.blockNumber, log.logIndex, log.txHash, log.address, standard, log.parsed.from,
        log.parsed.to, ids, values)];
    }
    assert logs[..|logs|] == logs;
    return Ok(res);
  }

  /** `getBlock`: the node answers null past its head. */
  function GetBlock(n: Node, b: nat): Option<Block> {
    if b < |n.blocks| then Some(n.blocks[b]) else None
  }

  /** What every Ethereum node guarantees of a block: its logs carry its number and
      distinct indexes, and it names its parent. */
  ghost predicate ValidBlock(n: Node, b: nat)
    requires b < |n.blocks|
  {
    && (forall k :: 0 <= k < |n.blocks[b].logs| ==> n.blocks[b].logs[k].blockNumber == b)
    && (forall j, k :: 0 <= j < k < |n.blocks[b].logs| ==> n.blocks[b].logs[j].logIndex != n.blocks[b].logs[k].logIndex)
    && (0 < b ==> n.blocks[b].parentHash == n.blocks[b - 1].hash)
  }

  ghost predicate ValidNode(n: Node) {
    forall b: nat {:trigger ValidBlock(n, b)} :: b < |n.blocks| ==> ValidBlock(n, b)
  }

  // ---- What a log becomes ----

  /** `e` is the event of a log that is kept: every one with four topics or of a contract in
      `pre721`. */
  ghost predicate Yields(log: Log, pre721: set<Address>, e: Event) {
    && (log.topics == 4 || log.address in pre721)
    && e.blockNumber == log.blockNumber && e.logIndex == log.logIndex && e.txHash == log.txHash
    && e.contractAddress == log.address
    && match log.parsed
       case Transfer(from, to, tokenId) =>
         && e.from == from && e.to == to && e.ids == [tokenId] && e.values == [1]
         && e.standard == if log.address in pre721 then PRE721 else ERC721
       case TransferSingle(from, to, id, value) =>
         && e.from == from && e.to == to && e.ids == [id] && e.values == [value]
         && e.standard == if log.address in pre721 then PRE1151 else ERC1155
       case TransferBatch(from, to, ids, values) =>
         && e.from == from && e.to == to && e.ids == ids && e.values == values
         && e.standard == if log.address in pre721 then PRE1151 else ERC1155
       case Unsuitable => false
  }

  /** `kept` lists the places of the kept logs, in order. */
  ghost predicate KeptAt(logs: seq<Log>, pre721: set<Address>, kept: seq<nat>) {
    && (forall i :: 0 <= i < |kept| ==> kept[i] < |logs|)
    && (forall i, j :: 0 <= i < j < |kept| ==> kept[i] < kept[j])
    && (forall k ::
        0 <= k < |logs|
        ==> (k in kept <==> (logs[k].topics == 4 || logs[k].address in pre721) && !logs[k].parsed.Unsuitable?))
  }

  lemma KeepLast(logs: seq<Log>, last: Log, pre721: set<Address>, kept: seq<nat>)
    requires KeptAt(logs, pre721, kept) && (last.topics == 4 || last.address in pre721) && !last.parsed.Unsuitable?
    ensures KeptAt(logs + [last], pre721, kept + [|logs|])
  {
    var all := kept + [|logs|];
    forall k | 0 <= k < |logs| ensures k in all <==> k in kept {
    }
    assert all[|kept|] == |logs|;
  }

  lemma DropLast(logs: seq<Log>, last: Log, pre721: set<Address>, kept: seq<nat>)
    requires KeptAt(logs, pre721, kept) && !((last.topics == 4 || last.address in pre721) && !last.parsed.Unsuitable?)
    ensures KeptAt(logs + [last], pre721, kept)
  {
    assert |logs| !in kept;
  }

  /** One more log adds its event, if it yields one. */
  lemma LastYields(logs: seq<Log>, pre721: set<Address>) returns (more: seq<Event>)
    requires logs != []
    ensures var last := logs[|logs| - 1];
      && Events(logs, pre721) == Events(logs[..|logs| - 1], pre721) + more
      && |more| == (if (last.topics == 4 || last.address in pre721) && !last.parsed.Unsuitable? then 1 else 0)
      && forall e :: e in more <==> Yields(last, pre721, e)
  {
    more := EventsOf(logs[|logs| - 1], pre721);
  }

  /** Event `i` is that of log `kept[i]`. */
  ghost predicate YieldedAt(logs: seq<Log>, pre721: set<Address>, es: seq<Event>, kept: seq<nat>) {
    |kept| == |es| && forall i :: 0 <= i < |es| ==> kept[i] < |logs| && Yields(logs[kept[i]], pre721, es[i])
  }

  lemma YieldedMore(init: seq<Log>, last: Log, pre721: set<Address>, es: seq<Event>, kept: seq<nat>, e: Event)
    requires YieldedAt(init, pre721, es, kept)
    ensures YieldedAt(init + [last], pre721, es, kept)
    ensures Yields(last, pre721, e) ==> YieldedAt(init + [last], pre721, es + [e], kept + [|init|])
  {
  }

  /** The events of a list of logs are those of its kept logs, one each, in order. */
  lemma {:induction false} EventsYielded(logs: seq<Log>, pre721: set<Address>) returns (kept: seq<nat>)
    ensures KeptAt(logs, pre721, kept) && YieldedAt(logs, pre721, Events(logs, pre721), kept)
  {
    if logs == [] {
      kept := [];
    } else {
      var init, last := logs[..|logs| - 1], logs[|logs| - 1];
      kept := EventsYielded(init, pre721);
      var more := LastYields(logs, pre721);
      kept := YieldedNext(init, last, pre721, Events(init, pre721), kept, more);
      assert logs == init + [last];
    }
  }

  lemma YieldedNext(init: seq<Log>, last: Log, pre721: set<Address>, es: seq<Event>, kept: seq<nat>, more: seq<Event>)
    returns (kept': seq<nat>)
    requires KeptAt(init, pre721, kept) && YieldedAt(init, pre721, es, kept)
    requires |more| == if (last.topics == 4 || last.address in pre721) && !last.parsed.Unsuitable? then 1 else 0
    requires forall e :: e in more <==> Yields(last, pre721, e)
    ensures KeptAt(init + [last], pre721, kept') && YieldedAt(init + [last], pre721, es + more, kept')
  {
    if more == [] {
      kept' := kept;
      DropLast(init, last, pre721, kept);
      assert es + more == es;
    } else {
      kept' := kept + [|init|];
      KeepLast(init, last, pre721, kept);
      assert more[0] in more && more == [more[0]];
      YieldedMore(init, last, pre721, es, kept, more[0]);
    }
  }

  /** A log yields at most one event, and throws only if it is kept and unsuitable. */
  lemma LogDecodes(log: Log, pre721: set<Address>)
    ensures AllDecodable([log], pre721) <==> (log.topics == 4 || log.address in pre721 ==> !log.parsed.Unsuitable?)
    ensures forall e :: e in Events([log], pre721) <==> Yields(log, pre721, e)
  {
    var logs := [log];
    assert log in logs && logs[..0] == [];
    assert Events(logs, pre721) == EventsOf(log, pre721);
  }

  /** Block `b` has a log that yields `e`. */
  ghost predicate InBlock(n: Node, b: nat, e: Event) {
    b < |n.blocks| && exists k: nat :: k < |n.blocks[b].logs| && Yields(n.blocks[b].logs[k], n.pre721, e)
  }

  /** What a fetched range holds: exactly the events of the kept logs of its blocks. */
  lemma {:induction false} RangeYields(n: Node, from: nat, end: nat, e: Event)
    ensures e in RangeEvents(n, from, end) <==> exists b: nat :: from <= b < end && InBlock(n, b, e)
    decreases end
  {
    if from < end {
      RangeYields(n, from, end - 1, e);
      EventIn(BlockLogs(n, end - 1), n.pre721, e);
      LastBlock(n, from, end);
      assert e in BlockEvents(n, end - 1) <==> InBlock(n, end - 1, e);
    }
  }

  lemma {:induction false} EventIn(logs: seq<Log>, pre721: set<Address>, e: Event)
    ensures e in Events(logs, pre721) <==> exists k: nat :: k < |logs| && Yields(logs[k], pre721, e)
  {
    if logs != [] {
      var init := logs[..|logs| - 1];
      EventIn(init, pre721, e);
      var more := LastYields(logs, pre721);
      YieldsSomewhere(logs, pre721, e);
    }
  }

  lemma YieldsSomewhere(logs: seq<Log>, pre721: set<Address>, e: Event)
    requires logs != []
    ensures var init := logs[..|logs| - 1];
      (exists k: nat :: k < |logs| && Yields(logs[k], pre721, e)) <==>
      (exists k: nat :: k < |init| && Yields(init[k], pre721, e)) || Yields(logs[|logs| - 1], pre721, e)
  {
    var init := logs[..|logs| - 1];
    if k: nat :| k < |init| && Yields(init[k], pre721, e) {
      assert logs[k] == init[k];
    }
    if k: nat :| k < |logs| && Yields(logs[k], pre721, e) && k < |init| {
      assert logs[k] == init[k];
    }
  }

  // ---- Splitting a range ----

  lemma EventsUnfold(logs: seq<Log>, init: seq<Log>, last: Log, pre721: set<Address>)
    requires logs == init + [last]
    ensures Events(logs, pre721) == Events(init, pre721) + EventsOf(last, pre721)
  {
    assert logs[..|logs| - 1] == init;
  }

  lemma {:induction false} EventsConcat(a: seq<Log>, b: seq<Log>, pre721: set<Address>)
    ensures Events(a + b, pre721) == Events(a, pre721) + Events(b, pre721)
  {
    if b == [] {
      assert a + b == a;
    } else {
      var init, last := b[..|b| - 1], b[|b| - 1];
      EventsConcat(a, init, pre721);
      EventsUnfold(b, init, last, pre721);
      EventsUnfold(a + b, a + init, last, pre721);
      Assoc(Events(a, pre721), Events(init, pre721), EventsOf(last, pre721));
    }
  }

  lemma Assoc<T>(a: seq<T>, b: seq<T>, c: seq<T>)
    ensures (a + b) + c == a + (b + c)
  {
  }

  lemma LastBlock(n: Node, from: nat, end: nat)
    requires from < end
    ensures LogsIn(n, from, end) == LogsIn(n, from, end - 1) + BlockLogs(n, end - 1)
    ensures RangeEvents(n, from, end) == RangeEvents(n, from, end - 1) + BlockEvents(n, end - 1)
  {
  }

  /** Decoding all logs of a range at once is decoding it block by block. */
  lemma {:induction false} LogsByBlock(n: Node, from: nat, end: nat)
    ensures Events(LogsIn(n, from, end), n.pre721) == RangeEvents(n, from, end)
    decreases end
  {
    if from < end {
      LogsByBlock(n, from, end - 1);
      LastBlock(n, from, end);
      EventsConcat(LogsIn(n, from, end - 1), BlockLogs(n, end - 1), n.pre721);
    }
  }

  lemma {:induction false} DecodableByBlock(n: Node, from: nat, end: nat)
    ensures Decodable(n, from, end) <==> AllDecodable(LogsIn(n, from, end), n.pre721)
    decreases end
  {
    if from < end {
      DecodableByBlock(n, from, end - 1);
      assert Decodable(n, from, end) <==> Decodable(n, from, end - 1) && DecodableBlock(n, end - 1);
    }
  }

  /** Fetching a range in two pieces gives the events of the whole, in order. */
  lemma {:induction false} RangeSplit(n: Node, from: nat, mid: nat, end: nat)
    requires from <= mid <= end
    ensures RangeEvents(n, from, end) == RangeEvents(n, from, mid) + RangeEvents(n, mid, end)
  {
    if mid < end {
      var a, b, c := RangeEvents(n, from, mid), RangeEvents(n, mid, end - 1), BlockEvents(n, end - 1);
      RangeSplit(n, from, mid, end - 1);
      LastBlock(n, from, end);
      LastBlock(n, mid, end);
      Assoc(a, b, c);
    } else {
      var a := RangeEvents(n, from, mid);
      assert a == a + [];
    }
  }

  // ---- Identifiers are unique ----

  /** Every event of a block carries the block's number. */
  lemma {:induction false} EventsFromLogs(logs: seq<Log>, pre721: set<Address>)
    ensures forall e :: e in Events(logs, pre721) ==>
      exists k :: 0 <= k < |logs| && logs[k].blockNumber == e.blockNumber && logs[k].logIndex == e.logIndex
  {
    if logs != [] {
      var k := |logs| - 1;
      EventsFromLogs(logs[..k], pre721);
      forall e | e in Events(logs, pre721)
        ensures exists j :: 0 <= j < |logs| && logs[j].blockNumber == e.blockNumber && logs[j].logIndex == e.logIndex
      {
        if e in Events(logs[..k], pre721) {
          var j :| 0 <= j < k && logs[..k][j].blockNumber == e.blockNumber && logs[..k][j].logIndex == e.logIndex;
          assert logs[j] == logs[..k][j];
        } else {
          assert logs[k].blockNumber == e.blockNumber;
        }
      }
    }
  }

  ghost predicate DistinctIds(es: seq<Event>) {
    forall i, j :: 0 <= i < j < |es| ==> IdOf(es[i]) != IdOf(es[j])
  }

  lemma {:induction false} DistinctWithinLogs(logs: seq<Log>, pre721: set<Address>)
    requires forall j, k :: 0 <= j < k < |logs| ==> logs[j].logIndex != logs[k].logIndex
    ensures DistinctIds(Events(logs, pre721))
  {
    if logs != [] {
      var k := |logs| - 1;
      DistinctWithinLogs(logs[..k], pre721);
      EventsFromLogs(logs[..k], pre721);
    }
  }

  /** The events lie in blocks `from <= b < end` and have distinct ids. */
  ghost predicate ProperRange(es: seq<Event>, from: nat, end: nat) {
    DistinctIds(es) && forall i :: 0 <= i < |es| ==> from <= es[i].blockNumber < end
  }

  lemma BlockIsProper(n: Node, b: nat)
    requires ValidNode(n)
    ensures ProperRange(BlockEvents(n, b), b, b + 1)
  {
    var logs, es := BlockLogs(n, b), BlockEvents(n, b);
    assert b < |n.blocks| ==> ValidBlock(n, b);
    EventsFromLogs(logs, n.pre721);
    DistinctWithinLogs(logs, n.pre721);
    forall i | 0 <= i < |es| ensures es[i].blockNumber == b {
      assert es[i] in es;
    }
  }

  lemma JoinRange(a: seq<Event>, b: seq<Event>, from: nat, mid: nat, end: nat)
    requires from <= mid <= end && ProperRange(a, from, mid) && ProperRange(b, mid, end)
    ensures ProperRange(a + b, from, end)
  {
  }

  /** Events of a range lie in it, and their ids are distinct: a bulk insert of one
      fetch never collides with itself. */
  lemma {:induction false} RangeIsProper(n: Node, from: nat, end: nat)
    requires ValidNode(n)
    ensures ProperRange(RangeEvents(n, from, end), from, end)
    decreases end
  {
    if from < end {
      var a, b := RangeEvents(n, from, end - 1), BlockEvents(n, end - 1);
      assert RangeEvents(n, from, end) == a + b;
      RangeIsProper(n, from, end - 1);
      BlockIsProper(n, end - 1);
      JoinRange(a, b, from, end - 1, end);
    }
  }

  // ---- Hashes determine ancestry ----

  /** A block hash commits to the block's number and its whole content. */
  ghost predicate HashesAgree(a: Node, b: Node) {
    forall i: nat, j: nat {:trigger SameHash(a, i, b, j)} | SameHash(a, i, b, j) :: i == j && a.blocks[i] == b.blocks[j]
  }

  predicate SameHash(a: Node, i: nat, b: Node, j: nat) {
    i < |a.blocks| && j < |b.blocks| && a.blocks[i].hash == b.blocks[j].hash
  }

  /** Two chains that agree on one block hash agree on everything below it. */
  lemma {:induction false} HashDeterminesAncestry(a: Node, b: Node, i: nat)
    requires ValidNode(a) && ValidNode(b) && HashesAgree(a, b)
    requires i < |a.blocks| && i < |b.blocks| && a.blocks[i].hash == b.blocks[i].hash
    ensures a.blocks[..i + 1] == b.blocks[..i + 1]
  {
    assert SameHash(a, i, b, i);
    assert ValidBlock(a, i) && ValidBlock(b, i);
    if 0 < i {
      HashDeterminesAncestry(a, b, i - 1);
      assert a.blocks[..i + 1] == a.blocks[..i] + [a.blocks[i]];
      assert b.blocks[..i + 1] == b.blocks[..i] + [b.blocks[i]];
    }
  }
}
