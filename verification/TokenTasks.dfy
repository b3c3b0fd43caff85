/** What `TokenProcessorProvider.process` is to do with a list of events
    (src/app-indexer/token-processor/token-processor.provider.ts): which tasks it starts,
    and what they leave in the collections and on the bus once all are done. */
module TokenTasks {
  import opened Prelude
  import opened Ethnode

  /** `_id` in the contracts or in the tokens collection, the chain's name aside. */
  datatype Key = ContractKey(address: Address) | TokenKey(address: Address, tokenId: string)

  /** A stored contract (its standard) or token (with an empty URI and a count of one). */
  datatype Row = ContractRow(standard: TokenStandard, block: nat) | TokenRow(from: Address, block: nat)

  /** READ_CONTRACT or READ_TOKEN for the key. */
  datatype Message = Message(key: Key, standard: TokenStandard, block: nat)

  type Table = map<Key, Row>

  datatype Task = Task(key: Key, row: Row, message: Message)

  function ContractTask(e: Event): Task {
    var k := ContractKey(e.contractAddress);
    Task(k, ContractRow(e.standard, e.blockNumber), Message(k, e.standard, e.blockNumber))
  }

  function TokenTask(e: Event, id: string): Task {
    var k := TokenKey(e.contractAddress, id);
    Task(k, TokenRow(e.from, e.blockNumber), Message(k, e.standard, e.blockNumber))
  }

  function TokenTasksOf(e: Event, k: nat): seq<Task>
    requires k <= |e.ids|
  {
    if k == 0 then [] else TokenTasksOf(e, k - 1) + [TokenTask(e, e.ids[k - 1])]
  }

  /** All tasks the events ask for, repetitions included, in processing order. */
  function Candidates(es: seq<Event>): seq<Task> {
    if es == [] then []
    else
      var e := es[|es| - 1];
      Candidates(es[..|es| - 1]) + ([ContractTask(e)] + TokenTasksOf(e, |e.ids|))
  }

  function Keys(ts: seq<Task>): set<Key> { set t | t in ts :: t.key }

  /** The first candidate of each key that has not been seen. */
  function Dedup(ts: seq<Task>, seen: set<Key>): seq<Task> {
    if ts == [] then []
    else
      var rest, t := Dedup(ts[..|ts| - 1], seen), ts[|ts| - 1];
      if t.key in seen || t.key in Keys(rest) then rest else rest + [t]
  }

  /** The first candidate with this key. */
  function First(ts: seq<Task>, key: Key): Option<Task> {
    if ts == [] then None
    else
      var rest := First(ts[..|ts| - 1], key);
      if rest.Some? then rest else if ts[|ts| - 1].key == key then Some(ts[|ts| - 1]) else None
  }

  /** `upsert` with `$setOnInsert`: the first writer wins. */
  function Upserted(table: Table, t: Task): Table { if t.key in table then table else table[t.key := t.row] }

  /** READ_CONTRACT is sent whenever the write did not throw, READ_TOKEN only when the
      upsert inserted. */
  predicate Announces(t: Task, before: Table) { t.key.ContractKey? || t.key !in before }

  /** The table once the tasks are done. */
  function Stored(table: Table, ts: seq<Task>): Table {
    if ts == [] then table else Upserted(Stored(table, ts[..|ts| - 1]), ts[|ts| - 1])
  }

  /** What they announce, started from this table. */
  function Announced(table: Table, ts: seq<Task>): seq<Message> {
    if ts == [] then []
    else Announced(table, ts[..|ts| - 1]) + if Announces(ts[|ts| - 1], table) then [ts[|ts| - 1].message] else []
  }

  ghost predicate DistinctKeys(ts: seq<Task>) { forall i, j :: 0 <= i < j < |ts| ==> ts[i].key != ts[j].key }

  // ---- Which tasks are started ----

  /** A task is started exactly when it is the first of its key and the key is new. */
  lemma {:induction false} StartedIffFirst(ts: seq<Task>, seen: set<Key>, t: Task)
    ensures t in Dedup(ts, seen) <==> t.key !in seen && First(ts, t.key) == Some(t)
    ensures t.key in Keys(Dedup(ts, seen)) <==> t.key !in seen && First(ts, t.key).Some?
    ensures First(ts, t.key).Some? ==> First(ts, t.key).value.key == t.key
  {
    if ts != [] {
      var init, last := ts[..|ts| - 1], ts[|ts| - 1];
      StartedIffFirst(init, seen, t);
      StartedIffFirst(init, seen, last);
      KeysAppend(Dedup(init, seen), last);
    }
  }

  lemma KeysAppend(ts: seq<Task>, t: Task)
    ensures Keys(ts + [t]) == Keys(ts) + {t.key}
  {
  }

  lemma {:induction false} StartedDistinct(ts: seq<Task>, seen: set<Key>)
    ensures DistinctKeys(Dedup(ts, seen))
  {
    if ts != [] {
      var rest := Dedup(ts[..|ts| - 1], seen);
      StartedDistinct(ts[..|ts| - 1], seen);
      forall i | 0 <= i < |rest| && ts[|ts| - 1].key !in Keys(rest) ensures rest[i].key != ts[|ts| - 1].key {
        assert rest[i] in rest;
      }
    }
  }

  lemma {:induction false} FirstConcat(a: seq<Task>, b: seq<Task>, key: Key)
    ensures First(a + b, key) == if First(a, key).Some? then First(a, key) else First(b, key)
  {
    if b == [] {
      assert a + b == a;
    } else {
      FirstConcat(a, b[..|b| - 1], key);
      assert (a + b)[..|a + b| - 1] == a + b[..|b| - 1];
    }
  }

  lemma {:induction false} CandidatesConcat(a: seq<Event>, b: seq<Event>)
    ensures Candidates(a + b) == Candidates(a) + Candidates(b)
  {
    if b == [] {
      assert a + b == a;
    } else {
      var e := b[|b| - 1];
      CandidatesConcat(a, b[..|b| - 1]);
      assert (a + b)[..|a + b| - 1] == a + b[..|b| - 1];
      Assoc(Candidates(a), Candidates(b[..|b| - 1]), [ContractTask(e)] + TokenTasksOf(e, |e.ids|));
    }
  }

  // ---- What they leave ----

  /** Tasks of one run touch distinct keys: the table ends as the old one plus each new
      key with the row of its task. */
  lemma {:induction false} StoredAt(table: Table, ts: seq<Task>, key: Key)
    requires DistinctKeys(ts)
    ensures key in Stored(table, ts) <==> key in table || key in Keys(ts)
    ensures key in table ==> Stored(table, ts)[key] == table[key]
    ensures forall i ::
        0 <= i < |ts| && ts[i].key == key && key !in table
        ==> key in Stored(table, ts) && Stored(table, ts)[key] == ts[i].row
  {
    if ts != [] {
      var init, last := ts[..|ts| - 1], ts[|ts| - 1];
      StoredAt(table, init, key);
      StoredAt(table, init, last.key);
      assert ts == init + [last];
      KeysAppend(init, last);
      forall i | 0 <= i < |init| ensures init[i].key != last.key && init[i] == ts[i] {
      }
      LastIsNew(ts);
    }
  }

  lemma LastIsNew(ts: seq<Task>)
    requires ts != [] && DistinctKeys(ts)
    ensures ts[|ts| - 1].key !in Keys(ts[..|ts| - 1])
  {
  }

  // ---- One call, and calls in a row ----

  /** The provider across calls: the contracts it has met, the collections, and the
      messages sent so far, counted. */
  datatype Provider = Provider(seen: set<Key>, table: Table, bus: multiset<Message>)

  /** The tasks a call starts. */
  function Plan(seen: set<Key>, es: seq<Event>): seq<Task> { Dedup(Candidates(es), seen) }

  function SeenAfter(seen: set<Key>, es: seq<Event>): set<Key> {
    seen + set e | e in es :: ContractKey(e.contractAddress)
  }

  function Process(p: Provider, es: seq<Event>): Provider {
    Provider(SeenAfter(p.seen, es), Stored(p.table, Plan(p.seen, es)),
             p.bus + multiset(Announced(p.table, Plan(p.seen, es))))
  }

  /** Only contracts are remembered between calls. */
  ghost predicate OnlyContracts(seen: set<Key>) { forall k :: k in seen ==> k.ContractKey? }

  lemma {:induction false} TokenTasksAreTokens(e: Event, k: nat)
    requires k <= |e.ids|
    ensures forall t :: t in TokenTasksOf(e, k) ==> t.key.TokenKey? && t.message.key == t.key
  {
    if 0 < k {
      TokenTasksAreTokens(e, k - 1);
    }
  }

  /** Contract candidates are the contracts of the events; a message names its key. */
  lemma {:induction false} CandidateKeys(es: seq<Event>)
    ensures forall t :: t in Candidates(es) ==> t.message.key == t.key
    ensures forall k: Key :: k.ContractKey? ==> (k in Keys(Candidates(es)) <==> k in SeenAfter({}, es))
  {
    if es != [] {
      var init, e := es[..|es| - 1], es[|es| - 1];
      CandidateKeys(init);
      TokenTasksAreTokens(e, |e.ids|);
      forall k: Key | k.ContractKey? ensures k in Keys(Candidates(es)) <==> k in SeenAfter({}, es) {
        CandidateStep(Candidates(init), ContractTask(e), TokenTasksOf(e, |e.ids|), k);
        assert es == init + [e];
      }
    }
  }

  lemma CandidateStep(ts: seq<Task>, c: Task, tokens: seq<Task>, k: Key)
    requires k.ContractKey? && forall t :: t in tokens ==> t.key.TokenKey?
    ensures k in Keys(ts + ([c] + tokens)) <==> k in Keys(ts) || k == c.key
  {
    var all := ts + ([c] + tokens);
    if k in Keys(ts) {
      var t :| t in ts && t.key == k;
      assert t in all;
    }
    assert all[|ts|] == c;
    if k in Keys(all) {
      var t :| t in all && t.key == k;
      assert t in ts || t == c || t in tokens;
    }
  }

  lemma {:induction false} FirstIn(ts: seq<Task>, key: Key)
    ensures First(ts, key).Some? <==> key in Keys(ts)
    ensures First(ts, key).Some? ==> First(ts, key).value in ts && First(ts, key).value.key == key
  {
    if ts != [] {
      var init, last := ts[..|ts| - 1], ts[|ts| - 1];
      FirstIn(init, key);
      assert ts == init + [last];
      KeysAppend(init, last);
    }
  }

  /** The row a key ends with: the old one, else that of its first event. */
  lemma TableAt(p: Provider, es: seq<Event>, key: Key)
    ensures
      var t := Process(p, es).table;
      var first := First(Candidates(es), key);
      && (key in t <==> key in p.table || (key !in p.seen && first.Some?))
      && (key in t ==> t[key] == if key in p.table then p.table[key] else first.value.row)
  {
    var plan, first := Plan(p.seen, es), First(Candidates(es), key);
    StartedDistinct(Candidates(es), p.seen);
    StoredAt(p.table, plan, key);
    FirstIn(Candidates(es), key);
    if first.Some? {
      StartedIffFirst(Candidates(es), p.seen, first.value);
    }
    if key in Keys(plan) {
      var t :| t in plan && t.key == key;
      StartedIffFirst(Candidates(es), p.seen, t);
    }
  }

  lemma {:induction false} AnnouncedIn(table: Table, ts: seq<Task>, m: Message)
    ensures m in Announced(table, ts) <==> exists t :: t in ts && Announces(t, table) && t.message == m
  {
    if ts != [] {
      AnnouncedIn(table, ts[..|ts| - 1], m);
      assert ts == ts[..|ts| - 1] + [ts[|ts| - 1]];
    }
  }

  lemma {:induction false} AnnouncedOnce(table: Table, ts: seq<Task>, m: Message)
    requires DistinctKeys(ts) && forall t :: t in ts ==> t.message.key == t.key
    ensures multiset(Announced(table, ts))[m] == if m in Announced(table, ts) then 1 else 0
  {
    if ts != [] {
      var init, last := ts[..|ts| - 1], ts[|ts| - 1];
      AnnouncedOnce(table, init, m);
      if Announces(last, table) {
        assert last in ts;
        LastIsNew(ts);
        AnnouncedIn(table, init, last.message);
        CountAppend(Announced(table, init), last.message, m);
      }
    }
  }

  lemma CountAppend(ms: seq<Message>, x: Message, m: Message)
    requires x !in ms && multiset(ms)[m] == if m in ms then 1 else 0
    ensures multiset(ms + [x])[m] == if m in ms + [x] then 1 else 0
  {
  }

  /** Which messages a call sends, each once: the one of its key's first event, if the
      contract is new to the provider, or the token new to the table. */
  lemma SentAt(p: Provider, es: seq<Event>, m: Message)
    ensures
      var first := First(Candidates(es), m.key);
      Process(p, es).bus[m] == p.bus[m] +
        if m.key !in p.seen && first.Some? && first.value.message == m && Announces(first.value, p.table) then 1 else 0
  {
    var plan := Plan(p.seen, es);
    StartedDistinct(Candidates(es), p.seen);
    CandidateKeys(es);
    FirstIn(Candidates(es), m.key);
    forall t | t in plan ensures t.message.key == t.key && First(Candidates(es), t.key) == Some(t) && t.key !in p.seen {
      StartedIffFirst(Candidates(es), p.seen, t);
      FirstIn(Candidates(es), t.key);
    }
    AnnouncedOnce(p.table, plan, m);
    AnnouncedIn(p.table, plan, m);
    var first := First(Candidates(es), m.key);
    if first.Some? {
      StartedIffFirst(Candidates(es), p.seen, first.value);
    }
  }

  /** Redelivery: processing two event lists one after the other, however the events were
      split between them or repeated, ends in the same tables and sends the same messages
      as processing them at once. */
  lemma ProcessSplit(p: Provider, a: seq<Event>, b: seq<Event>)
    requires OnlyContracts(p.seen)
    ensures Process(Process(p, a), b) == Process(p, a + b)
  {
    var q, both := Process(Process(p, a), b), Process(p, a + b);
    assert q.seen == both.seen;
    SplitTables(p, a, b);
    SplitBuses(p, a, b);
  }

  lemma SplitTables(p: Provider, a: seq<Event>, b: seq<Event>)
    requires OnlyContracts(p.seen)
    ensures Process(Process(p, a), b).table == Process(p, a + b).table
  {
    var q, both := Process(Process(p, a), b).table, Process(p, a + b).table;
    forall key ensures (key in q <==> key in both) && (key in q ==> q[key] == both[key]) {
      SplitAt(p, a, b, key);
    }
  }

  lemma SplitBuses(p: Provider, a: seq<Event>, b: seq<Event>)
    requires OnlyContracts(p.seen)
    ensures Process(Process(p, a), b).bus == Process(p, a + b).bus
  {
    var q, both := Process(Process(p, a), b).bus, Process(p, a + b).bus;
    forall m: Message ensures q[m] == both[m] {
      SplitSent(p, a, b, m);
    }
  }

  lemma SplitAt(p: Provider, a: seq<Event>, b: seq<Event>, key: Key)
    requires OnlyContracts(p.seen)
    ensures
      var q, both := Process(Process(p, a), b).table, Process(p, a + b).table;
      (key in q <==> key in both) && (key in q ==> q[key] == both[key])
  {
    TableAt(p, a, key);
    TableAt(Process(p, a), b, key);
    TableAt(p, a + b, key);
    SplitFirst(p.seen, a, b, key);
  }

  lemma SplitFirst(seen: set<Key>, a: seq<Event>, b: seq<Event>, key: Key)
    requires OnlyContracts(seen)
    ensures First(Candidates(a + b), key) ==
      if First(Candidates(a), key).Some? then First(Candidates(a), key) else First(Candidates(b), key)
    ensures key in SeenAfter(seen, a) <==> key in seen || (key.ContractKey? && First(Candidates(a), key).Some?)
  {
    CandidatesConcat(a, b);
    FirstConcat(Candidates(a), Candidates(b), key);
    CandidateKeys(a);
    FirstIn(Candidates(a), key);
  }

  lemma SplitSent(p: Provider, a: seq<Event>, b: seq<Event>, m: Message)
    requires OnlyContracts(p.seen)
    ensures Process(Process(p, a), b).bus[m] == Process(p, a + b).bus[m]
  {
    SentAt(p, a, m);
    SentAt(Process(p, a), b, m);
    SentAt(p, a + b, m);
    TableAt(p, a, m.key);
    SplitFirst(p.seen, a, b, m.key);
    FirstIn(Candidates(a), m.key);
    FirstIn(Candidates(b), m.key);
  }

  function ProcessAll(p: Provider, lists: seq<seq<Event>>): Provider {
    if lists == [] then p else Process(ProcessAll(p, lists[..|lists| - 1]), lists[|lists| - 1])
  }

  function Flat(lists: seq<seq<Event>>): seq<Event> {
    if lists == [] then [] else Flat(lists[..|lists| - 1]) + lists[|lists| - 1]
  }

  /** Any sequence of calls amounts to one call with all the events. */
  lemma {:induction false} CallsAmountToOne(p: Provider, lists: seq<seq<Event>>)
    requires OnlyContracts(p.seen)
    ensures ProcessAll(p, lists) == Process(p, Flat(lists))
    decreases |lists|
  {
    if lists == [] {
      assert SeenAfter(p.seen, []) == p.seen;
    } else {
      var init := lists[..|lists| - 1];
      CallsAmountToOne(p, init);
      ProcessSplit(p, Flat(init), lists[|lists| - 1]);
    }
  }

  /** READ_TOKEN is sent exactly once for each token ever inserted, and READ_CONTRACT at
      most once per contract, over any sequence of calls of one provider. */
  lemma SentExactlyOnce(p: Provider, lists: seq<seq<Event>>, key: Key)
    requires OnlyContracts(p.seen) && p.bus == multiset{}
    ensures
      var q := ProcessAll(p, lists);
      && (forall m: Message, m': Message :: m in q.bus && m' in q.bus && m.key == m'.key ==> m == m' && q.bus[m] == 1)
      && (key.TokenKey? ==> ((exists m: Message :: m in q.bus && m.key == key) <==> key in q.table && key !in p.table))
  {
    var es := Flat(lists);
    var q := ProcessAll(p, lists);
    CallsAmountToOne(p, lists);
    forall m: Message, m': Message | m in q.bus && m' in q.bus && m.key == m'.key ensures m == m' && q.bus[m] == 1 {
      SentAt(p, es, m);
      SentAt(p, es, m');
    }
    if key.TokenKey? {
      TableAt(p, es, key);
      CandidateKeys(es);
      FirstIn(Candidates(es), key);
      var first := First(Candidates(es), key);
      if first.Some? {
        SentAt(p, es, first.value.message);
      }
      if m: Message :| m in q.bus && m.key == key {
        SentAt(p, es, m);
      }
    }
  }
}
