/** The NFTs of a wallet (src/api/wallet/wallet.service.ts), computed from its transfer
    events (the events of the "Specification" sections of EIP-721 and EIP-1155). */
module Wallet {
  import opened Prelude
  import opened Ethnode

  datatype Key = Key(contract: Address, tokenId: string)

  /** An explorer event as the loop sees it. A single transfer has one id and one value
      (1 for ERC-721); only a batch can carry arrays of different lengths. */
  datatype Log =
    | Undecodable
    | Decoded(from: Address, to: Address, operator: Option<Address>, contract: Address,
              ids: seq<string>, values: seq<nat>)

  /** A JavaScript object from ids to amounts: keys in insertion order; a missing value
      stored under a key is `None`. */
  datatype Cache = Cache(order: seq<Key>, cells: map<Key, Option<int>>)

  const EMPTY := Cache([], map[])

  function Put(c: Cache, k: Key, v: Option<int>): Cache {
    Cache(if k in c.cells then c.order else c.order + [k], c.cells[k := v])
  }

  /** `tokensCache[id]` is truthy. */
  predicate Holds(c: Cache, k: Key) { k in c.cells && c.cells[k].Some? }

  function KeyAt(log: Log, i: nat): Key
    requires log.Decoded? && i < |log.ids|
  {
    Key(log.contract, log.ids[i])
  }

  function ValueAt(log: Log, i: nat): Option<int>
    requires log.Decoded?
  {
    if i < |log.values| then Some(log.values[i]) else None
  }

  /** Ids `i..` of an incoming event; adding a missing value throws and ends the event. */
  function Receive(c: Cache, log: Log, i: nat): Cache
    requires log.Decoded? && i <= |log.ids|
    decreases |log.ids| - i
  {
    if i == |log.ids| then c
    else
      var k, v := KeyAt(log, i), ValueAt(log, i);
      if !Holds(c, k) then Receive(Put(c, k, v), log, i + 1)
      else if v.None? then c
      else Receive(Put(c, k, Some(c.cells[k].value + v.value)), log, i + 1)
  }

  /** Ids `i..` of an outgoing event; ids not held are only logged. */
  function Send(c: Cache, log: Log, i: nat): Cache
    requires log.Decoded? && i <= |log.ids|
    decreases |log.ids| - i
  {
    if i == |log.ids| then c
    else
      var k, v := KeyAt(log, i), ValueAt(log, i);
      if !Holds(c, k) then Send(c, log, i + 1)
      else if v.None? then c
      else Send(Put(c, k, Some(c.cells[k].value - v.value)), log, i + 1)
  }

  function Apply(c: Cache, log: Log, wallet: Address): Cache {
    if log.Undecodable? then c
    else if log.operator == Some(wallet) && log.from != wallet && log.to != wallet then c
    else if log.to == wallet then Receive(c, log, 0)
    else if log.from == wallet then Send(c, log, 0)
    else c
  }

  /** The loop runs from the last event to the first. */
  function AfterLogs(logs: seq<Log>, wallet: Address): Cache {
    if logs == [] then EMPTY else Apply(AfterLogs(logs[1..], wallet), logs[0], wallet)
  }

  predicate Passes(k: Key, filterContract: Option<Address>)
  {
    filterContract.None? || filterContract.value == k.contract
  }

  /** The ids with a positive amount, in cache order; comparing a missing value throws. */
  function Positive(c: Cache, ks: seq<Key>, filterContract: Option<Address>): Result<seq<Key>>
    requires forall k :: k in ks ==> k in c.cells
  {
    if ks == [] then Ok([])
    else
      var k := ks[|ks| - 1];
      var rest := Positive(c, ks[..|ks| - 1], filterContract);
      if rest.Err? || !Passes(k, filterContract) then rest
      else if c.cells[k].None? then Err
      else if c.cells[k].value > 0 then Ok(rest.value + [k]) else rest
  }

  /** `slice(offset, offset + limit)`. */
  function Slice<T>(s: seq<T>, offset: nat, limit: nat): seq<T> {
    if |s| <= offset then [] else if |s| <= offset + limit then s[offset..] else s[offset..offset + limit]
  }

  ghost predicate Orderly(c: Cache) {
    Distinct(c.order) && (forall k :: k in c.order <==> k in c.cells)
  }

  lemma PutOrderly(c: Cache, k: Key, v: Option<int>)
    requires Orderly(c)
    ensures Orderly(Put(c, k, v))
  {
  }

  lemma {:induction false} ReceiveOrderly(c: Cache, log: Log, i: nat)
    requires log.Decoded? && i <= |log.ids|
    ensures !Orderly(c) || Orderly(Receive(c, log, i))
    decreases |log.ids| - i
  {
    if i < |log.ids| && Orderly(c) {
      var k, v := KeyAt(log, i), ValueAt(log, i);
      if !Holds(c, k) {
        PutOrderly(c, k, v);
        ReceiveOrderly(Put(c, k, v), log, i + 1);
      } else if v.Some? {
        PutOrderly(c, k, Some(c.cells[k].value + v.value));
        ReceiveOrderly(Put(c, k, Some(c.cells[k].value + v.value)), log, i + 1);
      }
    }
  }

  lemma {:induction false} SendOrderly(c: Cache, log: Log, i: nat)
    requires log.Decoded? && i <= |log.ids|
    ensures !Orderly(c) || Orderly(Send(c, log, i))
    decreases |log.ids| - i
  {
    if i < |log.ids| && Orderly(c) {
      var k, v := KeyAt(log, i), ValueAt(log, i);
      if !Holds(c, k) {
        SendOrderly(c, log, i + 1);
      } else if v.Some? {
        PutOrderly(c, k, Some(c.cells[k].value - v.value));
        SendOrderly(Put(c, k, Some(c.cells[k].value - v.value)), log, i + 1);
      }
    }
  }

  /** The cache's order lists each of its keys once. */
  lemma {:induction false} AfterLogsOrderly(logs: seq<Log>, wallet: Address)
    ensures Orderly(AfterLogs(logs, wallet))
  {
    if logs != [] {
      var c, log := AfterLogs(logs[1..], wallet), logs[0];
      AfterLogsOrderly(logs[1..], wallet);
      if log.Decoded? {
        ReceiveOrderly(c, log, 0);
        SendOrderly(c, log, 0);
      }
    }
  }

  /** All ids to list for a wallet. */
  function Listed(logs: seq<Log>, wallet: Address, filterContract: Option<Address>): Result<seq<Key>> {
    AfterLogsOrderly(logs, wallet);
    var c := AfterLogs(logs, wallet);
    Positive(c, c.order, filterContract)
  }

  class WalletService {
    /** The ids of an incoming event. */
    method ReceiveIds(c: Cache, log: Log) returns (c': Cache)
      requires Orderly(c) && log.Decoded?
      ensures c' == Receive(c, log, 0) && Orderly(c')
    {
      c' := c;
      for i := 0 to |log.ids|
        invariant Receive(c', log, i) == Receive(c, log, 0) && Orderly(c')
      {
        var k, v := KeyAt(log, i), ValueAt(log, i);
        PutOrderly(c', k, v);
        if Holds(c', k) {
          if v.None? {
            return;
          }
          PutOrderly(c', k, Some(c'.cells[k].value + v.value));
          c' := Put(c', k, Some(c'.cells[k].value + v.value));
        } else {
          c' := Put(c', k, v);
        }
      }
    }

    /** The ids of an outgoing event. */
    method SendIds(c: Cache, log: Log) returns (c': Cache)
      requires Orderly(c) && log.Decoded?
      ensures c' == Send(c, log, 0) && Orderly(c')
    {
      c' := c;
      for i := 0 to |log.ids|
        invariant Send(c', log, i) == Send(c, log, 0) && Orderly(c')
      {
        var k, v := KeyAt(log, i), ValueAt(log, i);
        if Holds(c', k) {
          if v.None? {
            return;
          }
          PutOrderly(c', k, Some(c'.cells[k].value - v.value));
          c' := Put(c', k, Some(c'.cells[k].value - v.value));
        }
      }
    }

    /** What one event does to the cache. */
    method ApplyLog(c: Cache, log: Log, wallet: Address) returns (c': Cache)
      requires Orderly(c)
      ensures c' == Apply(c, log, wallet) && Orderly(c')
    {
      c' := c;
      if log.Undecodable? {
        return;
      }
      if log.operator == Some(wallet) && log.from != wallet && log.to != wallet {
        return;
      }
      if log.to == wallet {
        c' := ReceiveIds(c, log);
      } else if log.from == wallet {
        c' := SendIds(c, log);
      }
    }

    /** All events, from the last of the concatenated list to the first. */
    method Balances(all: seq<Log>, wallet: Address) returns (c: Cache)
      ensures c == AfterLogs(all, wallet) && Orderly(c)
    {
      c := EMPTY;
      var i := |all|;
      while 0 < i
        invariant 0 <= i <= |all| && c == AfterLogs(all[i..], wallet) && Orderly(c)
      {
        assert all[i - 1..][1..] == all[i..];
        i := i - 1;
        c := ApplyLog(c, all[i], wallet);
      }
      assert all[0..] == all;
    }

    method Filter(c: Cache, filterContract: Option<Address>) returns (r: Result<seq<Key>>)
      requires Orderly(c)
      ensures r == Positive(c, c.order, filterContract)
    {
      var filtered: seq<Key> := [];
      for j := 0 to |c.order|
        invariant Positive(c, c.order[..j], filterContract) == Ok(filtered)
      {
        var k := c.order[j];
        assert c.order[..j + 1][..j] == c.order[..j];
        if Passes(k, filterContract) {
          if c.cells[k].None? {
            PositiveErr(c, c.order, filterContract, j + 1);
            return Err;
          }
          if c.cells[k].value > 0 {
            filtered := filtered + [k];
          }
        }
      }
      assert c.order[..|c.order|] == c.order;
      return Ok(filtered);
    }

    /** `slice` of the list. */
    method CutPage(ks: seq<Key>, page: nat, limit: nat) returns (ids: seq<Key>)
      requires 1 <= page
      ensures ids == Slice(ks, (page - 1) * limit, limit) && IsPage(ks, (page - 1) * limit, limit, ids)
    {
      PageAt(ks, page, limit);
      ids := Slice(ks, (page - 1) * limit, limit);
    }

    method GetNFTs(transfers: seq<Log>, singles: seq<Log>, batches: seq<Log>, wallet: Address, page: nat, limit: nat,
                   filterContract: Option<Address>)
      returns (r: Result<seq<Key>>)
      requires 1 <= page && 1 <= limit
      ensures r == match Listed(transfers + singles + batches, wallet, filterContract)
        case Ok(ks) => Ok(Slice(ks, (page - 1) * limit, limit))
        case Err => Err
      ensures r.Ok? ==>
        IsPage(Listed(transfers + singles + batches, wallet, filterContract).value, (page - 1) * limit, limit, r.value)
    {
      var c := Balances(transfers + singles + batches, wallet);
      var filtered := Filter(c, filterContract);
      if filtered.Err? {
        return Err;
      }
      var ids := CutPage(filtered.value, page, limit);
      return Ok(ids);
    }
  }

  lemma {:induction false} PositiveErr(c: Cache, ks: seq<Key>, filterContract: Option<Address>, j: nat)
    requires (forall k :: k in ks ==> k in c.cells) && j <= |ks| && Positive(c, ks[..j], filterContract).Err?
    ensures Positive(c, ks, filterContract).Err?
  {
    if j < |ks| {
      var init := ks[..|ks| - 1];
      assert init[..j] == ks[..j];
      PositiveErr(c, init, filterContract, j);
    } else {
      assert ks[..j] == ks;
    }
  }

  // ---- What the cache means ----

  /** The arrays of a batch have the same length, as EIP-1155 requires. */
  predicate WellFormed(log: Log) { log.Decoded? ==> |log.ids| == |log.values| }

  /** How much of `k` the ids `i..` of an event move. */
  function AmountFrom(log: Log, k: Key, i: nat): nat
    requires log.Decoded? && WellFormed(log) && i <= |log.ids|
    decreases |log.ids| - i
  {
    if i == |log.ids| then 0 else (if KeyAt(log, i) == k then log.values[i] else 0) + AmountFrom(log, k, i + 1)
  }

  predicate Incoming(log: Log, wallet: Address) { log.Decoded? && log.to == wallet }

  predicate Outgoing(log: Log, wallet: Address) { log.Decoded? && log.from == wallet }

  predicate Mentions(log: Log, k: Key) { log.Decoded? && log.contract == k.contract && k.tokenId in log.ids }

  ghost predicate AllWellFormed(logs: seq<Log>) { forall log :: log in logs ==> WellFormed(log) }

  /** Everything the wallet received, or sent; a transfer to itself counts in both. */
  function Received(logs: seq<Log>, wallet: Address, k: Key): nat
    requires AllWellFormed(logs)
  {
    if logs == [] then 0
    else Received(logs[1..], wallet, k) + if Incoming(logs[0], wallet) then AmountFrom(logs[0], k, 0) else 0
  }

  function Sent(logs: seq<Log>, wallet: Address, k: Key): nat
    requires AllWellFormed(logs)
  {
    if logs == [] then 0
    else Sent(logs[1..], wallet, k) + if Outgoing(logs[0], wallet) then AmountFrom(logs[0], k, 0) else 0
  }

  /** What the wallet sent to itself. */
  function SelfSent(logs: seq<Log>, wallet: Address, k: Key): nat
    requires AllWellFormed(logs)
  {
    if logs == [] then 0
    else
      SelfSent(logs[1..], wallet, k) +
      if Incoming(logs[0], wallet) && Outgoing(logs[0], wallet) then AmountFrom(logs[0], k, 0) else 0
  }

  /** What it sent of `k` before any event, in processing order, had brought some. */
  function SentUnheld(logs: seq<Log>, wallet: Address, k: Key): nat
    requires AllWellFormed(logs)
  {
    if logs == [] then 0
    else
      SentUnheld(logs[1..], wallet, k) +
      if Outgoing(logs[0], wallet) && !Incoming(logs[0], wallet) && !Holds(AfterLogs(logs[1..], wallet), k)
      then AmountFrom(logs[0], k, 0) else 0
  }

  /** The amount the cache attributes to the wallet. */
  function Amount(c: Cache, k: Key): int { if Holds(c, k) then c.cells[k].value else 0 }

  /** Every key present has an amount. */
  ghost predicate Defined(c: Cache) { forall k :: k in c.cells ==> c.cells[k].Some? }

  /** The cache after the first of the ids `i..` of an incoming event. */
  ghost function ReceivedOne(c: Cache, log: Log, i: nat): Cache
    requires log.Decoded? && WellFormed(log) && i < |log.ids| && Defined(c)
  {
    var x, v := KeyAt(log, i), ValueAt(log, i);
    if !Holds(c, x) then Put(c, x, v) else Put(c, x, Some(c.cells[x].value + v.value))
  }

  lemma ReceiveOne(c: Cache, log: Log, i: nat, k: Key)
    requires log.Decoded? && WellFormed(log) && i < |log.ids| && Defined(c)
    ensures var c' := ReceivedOne(c, log, i);
      && Defined(c') && Receive(c, log, i) == Receive(c', log, i + 1)
      && Amount(c', k) == Amount(c, k) + (if KeyAt(log, i) == k then log.values[i] else 0)
      && (Holds(c', k) <==> Holds(c, k) || KeyAt(log, i) == k)
  {
  }

  lemma {:induction false} ReceiveAdds(c: Cache, log: Log, i: nat, k: Key)
    requires log.Decoded? && WellFormed(log) && i <= |log.ids| && Defined(c)
    ensures Defined(Receive(c, log, i))
    ensures Amount(Receive(c, log, i), k) == Amount(c, k) + AmountFrom(log, k, i)
    ensures Holds(Receive(c, log, i), k) <==> Holds(c, k) || exists j :: i <= j < |log.ids| && KeyAt(log, j) == k
    decreases |log.ids| - i
  {
    if i < |log.ids| {
      ReceiveOne(c, log, i, k);
      ReceiveAdds(ReceivedOne(c, log, i), log, i + 1, k);
    }
  }

  lemma {:induction false} SendSubtracts(c: Cache, log: Log, i: nat, k: Key)
    requires log.Decoded? && WellFormed(log) && i <= |log.ids| && Defined(c)
    ensures Defined(Send(c, log, i))
    ensures Amount(Send(c, log, i), k) == Amount(c, k) - if Holds(c, k) then AmountFrom(log, k, i) else 0
    ensures Holds(Send(c, log, i), k) <==> Holds(c, k)
    decreases |log.ids| - i
  {
    if i < |log.ids| {
      var x, v := KeyAt(log, i), ValueAt(log, i);
      var c' := if !Holds(c, x) then c else Put(c, x, Some(c.cells[x].value - v.value));
      SendSubtracts(c', log, i + 1, k);
    }
  }

  /** The exact amount: received minus sent, plus what the wallet sent to itself (only the
      receipt is counted) and what it sent while the cache held none (it is dropped). */
  lemma {:induction false} BalanceExact(logs: seq<Log>, wallet: Address, k: Key)
    requires AllWellFormed(logs)
    ensures Defined(AfterLogs(logs, wallet))
    ensures Amount(AfterLogs(logs, wallet), k) ==
      Received(logs, wallet, k) - Sent(logs, wallet, k) + SelfSent(logs, wallet, k) + SentUnheld(logs, wallet, k)
  {
    if logs != [] {
      var c, log := AfterLogs(logs[1..], wallet), logs[0];
      BalanceExact(logs[1..], wallet, k);
      if Incoming(log, wallet) {
        ReceiveAdds(c, log, 0, k);
      } else if Outgoing(log, wallet) {
        SendSubtracts(c, log, 0, k);
      }
    }
  }

  /** An id is in the cache once some incoming event has named it. */
  lemma {:induction false} HeldIff(logs: seq<Log>, wallet: Address, k: Key)
    requires AllWellFormed(logs)
    ensures Holds(AfterLogs(logs, wallet), k)
      <==> exists i :: 0 <= i < |logs| && Incoming(logs[i], wallet) && Mentions(logs[i], k)
  {
    if logs != [] {
      var c, log := AfterLogs(logs[1..], wallet), logs[0];
      HeldIff(logs[1..], wallet, k);
      BalanceExact(logs[1..], wallet, k);
      if Incoming(log, wallet) {
        ReceiveAdds(c, log, 0, k);
        MentionsAt(log, k);
      } else if Outgoing(log, wallet) {
        SendSubtracts(c, log, 0, k);
      }
      if i :| 0 <= i < |logs| && Incoming(logs[i], wallet) && Mentions(logs[i], k) && 0 < i {
        assert logs[1..][i - 1] == logs[i];
      }
      if i :| 0 <= i < |logs[1..]| && Incoming(logs[1..][i], wallet) && Mentions(logs[1..][i], k) {
        assert logs[i + 1] == logs[1..][i];
      }
    }
  }

  lemma MentionsAt(log: Log, k: Key)
    requires log.Decoded?
    ensures Mentions(log, k) <==> exists j :: 0 <= j < |log.ids| && KeyAt(log, j) == k
  {
    if Mentions(log, k) {
      var j :| 0 <= j < |log.ids| && log.ids[j] == k.tokenId;
      assert KeyAt(log, j) == k;
    }
  }

  lemma {:induction false} NotMentioned(log: Log, k: Key, i: nat)
    requires log.Decoded? && WellFormed(log) && !Mentions(log, k) && i <= |log.ids|
    ensures AmountFrom(log, k, i) == 0
    decreases |log.ids| - i
  {
    if i < |log.ids| {
      NotMentioned(log, k, i + 1);
    }
  }

  /** Event `i` moves some of `k` out of the wallet to somebody else. */
  predicate TakesAway(log: Log, wallet: Address, k: Key)
    requires WellFormed(log)
  {
    Outgoing(log, wallet) && !Incoming(log, wallet) && AmountFrom(log, k, 0) > 0
  }

  /** Some event processed before event `i`, so later in the list, names `k` and comes in. */
  ghost predicate BroughtBefore(logs: seq<Log>, wallet: Address, k: Key, i: int) {
    exists j :: i < j < |logs| && 0 <= j && Incoming(logs[j], wallet) && Mentions(logs[j], k)
  }

  /** Each event that takes some of `k` away is processed after one that brought some. */
  ghost predicate Backed(logs: seq<Log>, wallet: Address, k: Key)
    requires AllWellFormed(logs)
  {
    forall i {:trigger BroughtBefore(logs, wallet, k, i)} :: 0 <= i < |logs| && TakesAway(logs[i], wallet, k)
        ==> BroughtBefore(logs, wallet, k, i)
  }

  lemma BroughtTail(logs: seq<Log>, wallet: Address, k: Key, i: int)
    requires logs != [] && -1 <= i
    ensures BroughtBefore(logs, wallet, k, i + 1) <==> BroughtBefore(logs[1..], wallet, k, i)
  {
    var rest := logs[1..];
    if BroughtBefore(logs, wallet, k, i + 1) {
      var j :| i + 1 < j < |logs| && 0 <= j && Incoming(logs[j], wallet) && Mentions(logs[j], k);
      assert rest[j - 1] == logs[j];
    }
    if BroughtBefore(rest, wallet, k, i) {
      var j :| i < j < |rest| && 0 <= j && Incoming(rest[j], wallet) && Mentions(rest[j], k);
      assert logs[j + 1] == rest[j];
    }
  }

  lemma BackedStep(logs: seq<Log>, wallet: Address, k: Key)
    requires logs != [] && AllWellFormed(logs)
    ensures Backed(logs, wallet, k) <==>
      Backed(logs[1..], wallet, k) && (TakesAway(logs[0], wallet, k) ==> BroughtBefore(logs[1..], wallet, k, -1))
  {
    var rest := logs[1..];
    BroughtTail(logs, wallet, k, -1);
    if Backed(logs, wallet, k) {
      assert TakesAway(logs[0], wallet, k) ==> BroughtBefore(logs, wallet, k, 0);
      forall i | 0 <= i < |rest| && TakesAway(rest[i], wallet, k) ensures BroughtBefore(rest, wallet, k, i) {
        BroughtTail(logs, wallet, k, i);
        assert logs[i + 1] == rest[i];
      }
    }
    if Backed(rest, wallet, k) && (TakesAway(logs[0], wallet, k) ==> BroughtBefore(rest, wallet, k, -1)) {
      forall i | 0 <= i < |logs| && TakesAway(logs[i], wallet, k) ensures BroughtBefore(logs, wallet, k, i) {
        BroughtTail(logs, wallet, k, i - 1);
        if 0 < i {
          assert rest[i - 1] == logs[i];
        }
      }
    }
  }

  /** Nothing is dropped if and only if every event that takes some of the id away comes,
      in processing order, after one that brought some. */
  lemma {:induction false} UnheldIff(logs: seq<Log>, wallet: Address, k: Key)
    requires AllWellFormed(logs)
    ensures SentUnheld(logs, wallet, k) == 0 <==> Backed(logs, wallet, k)
  {
    if logs != [] {
      var rest := logs[1..];
      UnheldIff(rest, wallet, k);
      BackedStep(logs, wallet, k);
      HeldIff(rest, wallet, k);
    }
  }

  /** The wallet's amount of an id is what it received minus what it sent if and only if
      it moved none of it to itself and every event that takes some away is processed
      after one that brought some. */
  lemma BalanceIff(logs: seq<Log>, wallet: Address, k: Key)
    requires AllWellFormed(logs)
    ensures Amount(AfterLogs(logs, wallet), k) == Received(logs, wallet, k) - Sent(logs, wallet, k) <==>
      SelfSent(logs, wallet, k) == 0 && Backed(logs, wallet, k)
  {
    BalanceExact(logs, wallet, k);
    UnheldIff(logs, wallet, k);
  }

  /** Each event that names `k` as sent is processed after one that names it as received. */
  ghost predicate IncomingFirst(logs: seq<Log>, wallet: Address, k: Key) {
    forall i {:trigger BroughtBefore(logs, wallet, k, i)} ::
      0 <= i < |logs| && Outgoing(logs[i], wallet) && Mentions(logs[i], k) ==> BroughtBefore(logs, wallet, k, i)
  }

  /** With incoming events first and no transfer to itself, the balance is right. */
  lemma IncomingFirstSuffices(logs: seq<Log>, wallet: Address, k: Key)
    requires AllWellFormed(logs) && IncomingFirst(logs, wallet, k)
    ensures SentUnheld(logs, wallet, k) == 0
  {
    UnheldIff(logs, wallet, k);
    forall i | 0 <= i < |logs| && TakesAway(logs[i], wallet, k) ensures BroughtBefore(logs, wallet, k, i) {
      if !Mentions(logs[i], k) {
        NotMentioned(logs[i], k, 0);
      }
    }
  }

  // ---- Single transfers ----

  /** What one transfer of one id does: it adds to the wallet's amount of exactly that id if it
      comes in, else takes from it if it goes out and the id is held, and else does nothing. */
  lemma OneTransfer(c: Cache, from: Address, to: Address, operator: Option<Address>, contract: Address, id: string,
                    v: nat, wallet: Address, k: Key)
    requires Defined(c)
    ensures
      var c' := Apply(c, Decoded(from, to, operator, contract, [id], [v]), wallet);
      && Defined(c')
      && (to == wallet ==>
            && Amount(c', k) == Amount(c, k) + (if k == Key(contract, id) then v else 0)
            && (k in c'.cells <==> k in c.cells || k == Key(contract, id)))
      && (to != wallet && from == wallet ==>
            && Amount(c', k) == Amount(c, k) - (if k == Key(contract, id) && k in c.cells then v else 0)
            && (k in c'.cells <==> k in c.cells))
      && (to != wallet && from != wallet ==> c' == c)
  {
    var log := Decoded(from, to, operator, contract, [id], [v]);
    if to == wallet {
      ReceiveAdds(c, log, 0, k);
      assert KeyAt(log, 0) == Key(contract, id);
    } else if from == wallet {
      SendSubtracts(c, log, 0, k);
    }
  }

  /** `tail` is the event without its first id and value. */
  ghost predicate TailOf(log: Log, tail: Log) {
    && log.Decoded? && tail.Decoded? && log.contract == tail.contract && log.ids != [] && log.ids[1..] == tail.ids
    && tail.values == if log.values == [] then [] else log.values[1..]
  }

  lemma TailAt(log: Log, tail: Log, i: nat)
    requires TailOf(log, tail) && i < |tail.ids|
    ensures i + 1 < |log.ids| && KeyAt(log, i + 1) == KeyAt(tail, i) && ValueAt(log, i + 1) == ValueAt(tail, i)
  {
  }

  lemma {:induction false} ReceiveTail(c: Cache, log: Log, tail: Log, i: nat)
    requires TailOf(log, tail) && i <= |tail.ids|
    ensures Receive(c, log, i + 1) == Receive(c, tail, i)
    decreases |tail.ids| - i
  {
    if i < |tail.ids| {
      TailAt(log, tail, i);
      var k, v := KeyAt(tail, i), ValueAt(tail, i);
      if !Holds(c, k) {
        ReceiveTail(Put(c, k, v), log, tail, i + 1);
      } else if v.Some? {
        ReceiveTail(Put(c, k, Some(c.cells[k].value + v.value)), log, tail, i + 1);
      }
    }
  }

  lemma {:induction false} SendTail(c: Cache, log: Log, tail: Log, i: nat)
    requires TailOf(log, tail) && i <= |tail.ids|
    ensures Send(c, log, i + 1) == Send(c, tail, i)
    decreases |tail.ids| - i
  {
    if i < |tail.ids| {
      TailAt(log, tail, i);
      var k, v := KeyAt(tail, i), ValueAt(tail, i);
      if !Holds(c, k) {
        SendTail(c, log, tail, i + 1);
      } else if v.Some? {
        SendTail(Put(c, k, Some(c.cells[k].value - v.value)), log, tail, i + 1);
      }
    }
  }

  /** A batch is worth its first transfer followed by the rest. */
  lemma BatchIsSingles(c: Cache, from: Address, to: Address, operator: Option<Address>, contract: Address,
                       id: string, v: nat, ids: seq<string>, values: seq<nat>, wallet: Address)
    ensures
      Apply(c, Decoded(from, to, operator, contract, [id] + ids, [v] + values), wallet) ==
      Apply(Apply(c, Decoded(from, to, operator, contract, [id], [v]), wallet),
            Decoded(from, to, operator, contract, ids, values), wallet)
  {
    var log := Decoded(from, to, operator, contract, [id] + ids, [v] + values);
    var one := Decoded(from, to, operator, contract, [id], [v]);
    var rest := Decoded(from, to, operator, contract, ids, values);
    var k := Key(contract, id);
    FirstOfBatch(c, log, one, k, v);
    if to == wallet {
      ReceiveTail(Receive(c, one, 0), log, rest, 0);
    } else if from == wallet {
      SendTail(Send(c, one, 0), log, rest, 0);
    }
  }

  lemma FirstOfBatch(c: Cache, log: Log, one: Log, k: Key, v: nat)
    requires log.Decoded? && one.Decoded? && |log.ids| >= 1 && |one.ids| == 1 && KeyAt(log, 0) == KeyAt(one, 0) == k
    requires ValueAt(log, 0) == ValueAt(one, 0) == Some(v)
    ensures Receive(c, log, 0) == Receive(Receive(c, one, 0), log, 1)
    ensures Send(c, log, 0) == Send(Send(c, one, 0), log, 1)
  {
    assert Receive(c, one, 0) == if !Holds(c, k) then Put(c, k, Some(v)) else Put(c, k, Some(c.cells[k].value + v));
    assert Send(c, one, 0) == if !Holds(c, k) then c else Put(c, k, Some(c.cells[k].value - v));
  }

  /** Ids without a value: one that the wallet holds ends the event; one it does not hold is
      stored without an amount if it comes in, and skipped if it goes out. */
  lemma MissingValue(c: Cache, from: Address, to: Address, operator: Option<Address>, contract: Address, id: string,
                     ids: seq<string>, wallet: Address)
    requires to == wallet || from == wallet
    ensures
      var k := Key(contract, id);
      var c' := Apply(c, Decoded(from, to, operator, contract, [id] + ids, []), wallet);
      var rest := Decoded(from, to, operator, contract, ids, []);
      if k in c.cells && c.cells[k].Some? then c' == c
      else if to == wallet then
        c' == Apply(Cache(if k in c.cells then c.order else c.order + [k], c.cells[k := None]), rest, wallet)
      else c' == Apply(c, rest, wallet)
  {
    var k, log := Key(contract, id), Decoded(from, to, operator, contract, [id] + ids, []);
    var rest := Decoded(from, to, operator, contract, ids, []);
    assert KeyAt(log, 0) == k && ValueAt(log, 0) == None;
    ReceiveTail(Put(c, k, None), log, rest, 0);
    SendTail(c, log, rest, 0);
  }

  // ---- Filtering and pages ----

  /** The ids are listed in the order of the cache. */
  lemma {:induction false} PositiveInOrder(c: Cache, ks: seq<Key>, filterContract: Option<Address>)
    returns (places: seq<nat>)
    requires (forall k :: k in ks ==> k in c.cells) && Positive(c, ks, filterContract).Ok?
    ensures |places| == |Positive(c, ks, filterContract).value|
    ensures forall i :: 0 <= i < |places| ==>
      places[i] < |ks| && ks[places[i]] == Positive(c, ks, filterContract).value[i]
    ensures forall i, j :: 0 <= i < j < |places| ==> places[i] < places[j]
  {
    if ks == [] {
      places := [];
    } else {
      var init := ks[..|ks| - 1];
      places := PositiveInOrder(c, init, filterContract);
      if Positive(c, ks, filterContract) != Positive(c, init, filterContract) {
        places := places + [|init|];
      }
    }
  }

  /** A new key comes last in the cache's order. */
  lemma PutLast(c: Cache, k: Key, v: Option<int>)
    ensures k !in c.cells ==> Put(c, k, v).order == c.order + [k]
    ensures k in c.cells ==> Put(c, k, v).order == c.order
  {
  }

  /** Listing throws exactly when an id that passes the filter is stored without an amount. */
  lemma ListingThrowsIff(logs: seq<Log>, wallet: Address, filterContract: Option<Address>)
    ensures Listed(logs, wallet, filterContract).Err? <==>
      exists k ::
        && k in AfterLogs(logs, wallet).cells && AfterLogs(logs, wallet).cells[k].None?
        && (filterContract.None? || filterContract == Some(k.contract))
  {
    var c := AfterLogs(logs, wallet);
    AfterLogsOrderly(logs, wallet);
    PositiveErrIff(c, c.order, filterContract);
  }

  lemma {:induction false} PositiveErrIff(c: Cache, ks: seq<Key>, filterContract: Option<Address>)
    requires forall k :: k in ks ==> k in c.cells
    ensures Positive(c, ks, filterContract).Err? <==>
      exists k :: k in ks && c.cells[k].None? && (filterContract.None? || filterContract == Some(k.contract))
  {
    if ks != [] {
      PositiveErrIff(c, ks[..|ks| - 1], filterContract);
      assert ks == ks[..|ks| - 1] + [ks[|ks| - 1]];
    }
  }

  /** Of well-formed events, the ids listed are exactly those of the filtered contract
      with a positive amount, each once. */
  lemma ListedIff(logs: seq<Log>, wallet: Address, filterContract: Option<Address>, k: Key)
    requires AllWellFormed(logs)
    ensures
      var listed := Listed(logs, wallet, filterContract);
      && listed.Ok? && Distinct(listed.value)
      && (k in listed.value <==>
           (filterContract.None? || filterContract == Some(k.contract)) && Amount(AfterLogs(logs, wallet), k) > 0)
  {
    var c := AfterLogs(logs, wallet);
    AfterLogsOrderly(logs, wallet);
    BalanceExact(logs, wallet, k);
    PositiveIn(c, c.order, filterContract, k);
  }

  lemma {:induction false} PositiveIn(c: Cache, ks: seq<Key>, filterContract: Option<Address>, k: Key)
    requires Defined(c) && Distinct(ks) && forall x :: x in ks ==> x in c.cells
    ensures Positive(c, ks, filterContract).Ok? && Distinct(Positive(c, ks, filterContract).value)
    ensures forall x ::
        x in Positive(c, ks, filterContract).value <==> x in ks && Passes(x, filterContract) && Amount(c, x) > 0
  {
    if ks != [] {
      var init, last := ks[..|ks| - 1], ks[|ks| - 1];
      PositiveIn(c, init, filterContract, k);
      assert ks == init + [last];
      assert last !in init;
    }
  }

  /** `page` has the elements from `offset` on, `limit` of them or what is left. */
  ghost predicate IsPage<T>(s: seq<T>, offset: nat, limit: nat, page: seq<T>) {
    && |page| == (if |s| <= offset then 0 else if |s| - offset < limit then |s| - offset else limit)
    && forall j :: 0 <= j < |page| ==> page[j] == s[offset + j]
  }

  /** Page `p` holds the ids from place `(p - 1) * limit` on, `limit` of them or what is left. */
  lemma PageAt<T>(s: seq<T>, p: nat, limit: nat)
    requires 1 <= p
    ensures IsPage(s, (p - 1) * limit, limit, Slice(s, (p - 1) * limit, limit))
  {
  }

  function Pages<T>(s: seq<T>, limit: nat, n: nat): seq<T> {
    if n == 0 then [] else Pages(s, limit, n - 1) + Slice(s, (n - 1) * limit, limit)
  }

  /** Pages 1 to n, put together, are the first n * limit ids of the list: every id is on
      one page, once. */
  lemma {:induction false} PagesCover<T>(s: seq<T>, limit: nat, n: nat)
    ensures Pages(s, limit, n) == if |s| <= n * limit then s else s[..n * limit]
  {
    if n > 0 {
      PagesCover(s, limit, n - 1);
      PageAt(s, n, limit);
      assert n * limit == (n - 1) * limit + limit;
      PrefixJoin(s, (n - 1) * limit, n * limit, Slice(s, (n - 1) * limit, limit));
    }
  }

  lemma PrefixJoin<T>(s: seq<T>, a: nat, b: nat, page: seq<T>)
    requires a <= b && |page| == if |s| <= a then 0 else if |s| <= b then |s| - a else b - a
    requires forall j :: 0 <= j < |page| ==> page[j] == s[a + j]
    ensures (if |s| <= a then s else s[..a]) + page == if |s| <= b then s else s[..b]
  {
  }
}
