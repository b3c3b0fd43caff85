/** A lazy-mint run that dies after a window was stored and logged and before its events
    went to the token processor, and the run after it. */
module LazyCrash {
  import opened Prelude
  import opened Ethnode
  import opened EventStore
  import opened BlocksQueue
  import opened RangeTask
  import opened CrashRecovery
  import opened LazyMint

  /** What a run leaves behind: the events, the log, and the events handed on. */
  datatype Left = Left(store: Store, queue: Queue, processed: Store)

  /** The run read the windows `before` and handed them on, read window `w` and died. */
  function Died(n: Node, before: seq<(nat, nat)>, w: (nat, nat), s: Store, q: Queue): Left {
    Left(AfterWindows(n, before + [w], s), q + LogOf(before + [w]), Processed(n, before, s))
  }

  /** What the next run, with the same input, hands on. */
  function NextRun(n: Node, l: Left, blockNumberFrom: nat, to: nat, limit: nat): Store
    requires 1 <= limit
  {
    Processed(n, Windows(LazyStart(l.queue, blockNumberFrom, to), to, limit), LazyCleared(l.store, l.queue, to, limit))
  }

  /** The chain's events of the blocks `from <= b < end` that the store lacks. */
  function Lacking(n: Node, from: nat, end: nat, s: Store): Store { ChainDocs(n, from, end) - s.Keys }

  /** Every lacking event is in one of the two lots handed on. */
  ghost predicate AllHandedOn(lacking: Store, first: Store, second: Store) {
    forall id :: id in lacking ==> id in first || id in second
  }

  /** The dead run and the next one together hand on every event the range lacked. */
  ghost predicate Recovers(n: Node, l: Left, s: Store, blockNumberFrom: nat, from: nat, to: nat, limit: nat) {
    1 <= limit && AllHandedOn(Lacking(n, from, to + 1, s), l.processed, NextRun(n, l, blockNumberFrom, to, limit))
  }

  /** The dead run stored everything up to `mid'` and handed on everything up to `mid`. */
  ghost predicate Lost(n: Node, l: Left, s: Store, from: nat, mid: nat, mid': nat) {
    from <= mid <= mid' && l.store == s + Lacking(n, from, mid', s) && l.processed == Lacking(n, from, mid, s)
  }

  // ---- Windows and their log ----

  lemma {:induction false} ContiguousParts(ws: seq<(nat, nat)>, before: seq<(nat, nat)>, w: (nat, nat),
                                           rest: seq<(nat, nat)>, from: nat, end: nat)
    requires Contiguous(ws, from, end) && ws == before + [w] + rest
    ensures Contiguous(before, from, w.0) && from <= w.0 <= w.1 < end
    decreases |rest|
  {
    var k := |ws| - 1;
    ContiguousOrder(ws[..k], from, ws[k].0);
    if rest == [] {
      assert ws[..k] == before && ws[k] == w;
    } else {
      assert ws[..k] == before + [w] + rest[..|rest| - 1];
      ContiguousParts(ws[..k], before, w, rest[..|rest| - 1], from, ws[k].0);
    }
  }

  lemma ContiguousOneMore(before: seq<(nat, nat)>, w: (nat, nat), from: nat)
    requires Contiguous(before, from, w.0) && w.0 <= w.1
    ensures Contiguous(before + [w], from, w.1 + 1)
  {
    assert (before + [w])[..|before|] == before;
  }

  lemma {:induction false} ContiguousOrder(ws: seq<(nat, nat)>, from: nat, end: nat)
    requires Contiguous(ws, from, end)
    ensures from <= end && (ws != [] ==> from < end)
  {
    if ws != [] {
      ContiguousOrder(ws[..|ws| - 1], from, ws[|ws| - 1].0);
    }
  }

  lemma {:induction false} WindowFits(i: nat, to: nat, limit: nat, w: (nat, nat))
    requires 1 <= limit && w in Windows(i, to, limit)
    ensures w.1 < w.0 + limit
    decreases 1 + to - i
  {
    var first := (i, if i + limit - 1 > to then to else i + limit - 1);
    assert Windows(i, to, limit) == [first] + Windows(i + limit, to, limit);
    if w != first {
      WindowFits(i + limit, to, limit, w);
    }
  }

  /** Logged windows below `to` move the resume point to their end. */
  lemma {:induction false} LatestOfLog(q: Queue, ws: seq<(nat, nat)>, from: nat, end: nat, to: nat)
    requires Contiguous(ws, from, end) && end <= to && (LatestEnd(q, to).Some? ==> LatestEnd(q, to).value < from)
    ensures LatestEnd(q + LogOf(ws), to) == if ws == [] then LatestEnd(q, to) else Some(end - 1)
  {
    if ws == [] {
      AppendNone(q);
    } else {
      var w, init := ws[|ws| - 1], ws[..|ws| - 1];
      ContiguousOrder(init, from, w.0);
      LatestOfLog(q, init, from, w.0, to);
      OneMoreLogged(q, init, w.0, w.1);
      assert init + [(w.0, w.1)] == ws;
      LatestEndAppend(q + LogOf(init), Record(w.0, w.1, None, false), to);
    }
  }

  // ---- The events of a range, by blocks ----

  lemma ChainSplit(n: Node, from: nat, mid: nat, end: nat)
    requires ValidNode(n) && from <= mid <= end
    ensures ChainDocs(n, from, end) == ChainDocs(n, from, mid) + ChainDocs(n, mid, end)
    ensures Within(ChainDocs(n, from, mid), from, mid) && Within(ChainDocs(n, mid, end), mid, end)
  {
    var p := Plain(n);
    PlainIsValid(n);
    RangeIsProper(p, from, mid);
    RangeIsProper(p, mid, end);
    ProperDocs(RangeEvents(p, from, mid), from, mid);
    ProperDocs(RangeEvents(p, mid, end), mid, end);
    RangeSplit(p, from, mid, end);
    DocsConcat(RangeEvents(p, from, mid), RangeEvents(p, mid, end));
  }

  /** `first` holds what `a` has and `s` lacks. */
  ghost predicate Lacks(s: Store, a: Store, first: Store) { forall id :: id in first <==> id in a && id !in s }

  /** Once what `s` lacks of `a` and `c` is handed on, what is missing is `b`. */
  lemma MiddleMissing(s: Store, a: Store, b: Store, c: Store, lo: nat, mid: nat, mid': nat, end: nat, first: Store,
                      second: Store)
    requires Within(a, lo, mid) && Within(b, mid, mid') && Within(c, mid', end) && mid <= mid'
    requires Lacks(s, a, first) && second.Keys <= c.Keys && c.Keys - s.Keys <= second.Keys
    ensures AllHandedOn(a + b + c - s.Keys, first, second) <==> b - s.Keys == map[]
  {
    var all := a + b + c;
    if b - s.Keys == map[] {
      forall id | id in all - s.Keys ensures id in first || id in second {
        assert id !in b - s.Keys;
      }
    } else {
      var id :| id in b - s.Keys;
      assert id in all - s.Keys && id !in first && id !in second;
    }
  }

  /** The next run finds the lost window stored and has no log entry to clear beyond. */
  lemma FindsStored(n: Node, s: Store, s1: Store, from: nat, end: nat)
    requires s1 == s + Lacking(n, from, end, s)
    ensures AllHandedOn(Lacking(n, from, end, s), map[], ChainDocs(n, from, end) - s1.Keys)
      <==> Lacking(n, from, end, s) == map[]
  {
  }

  // ---- The two runs ----

  lemma DiedAt(n: Node, before: seq<(nat, nat)>, w: (nat, nat), s: Store, q: Queue, from: nat)
    requires ValidNode(n) && Contiguous(before, from, w.0) && w.0 <= w.1
    ensures Lost(n, Died(n, before, w, s, q), s, from, w.0, w.1 + 1)
  {
    ContiguousOneMore(before, w, from);
    WindowsStores(n, before, from, w.0, s);
    WindowsStores(n, before + [w], from, w.1 + 1, s);
  }

  /** What the next run hands on: whatever lies from its start on and is not stored then. */
  function SecondLot(n: Node, l: Left, blockNumberFrom: nat, to: nat, limit: nat): Store {
    ChainDocs(n, LazyStart(l.queue, blockNumberFrom, to), to + 1) - LazyCleared(l.store, l.queue, to, limit).Keys
  }

  lemma RecoversIff(n: Node, l: Left, s: Store, blockNumberFrom: nat, from: nat, to: nat, limit: nat)
    requires ValidNode(n) && 1 <= limit && LazyStart(l.queue, blockNumberFrom, to) <= to
    ensures Recovers(n, l, s, blockNumberFrom, from, to, limit)
      <==> AllHandedOn(Lacking(n, from, to + 1, s), l.processed, SecondLot(n, l, blockNumberFrom, to, limit))
  {
    RunAddsMissing(n, LazyStart(l.queue, blockNumberFrom, to), to, limit, LazyCleared(l.store, l.queue, to, limit));
  }

  lemma ClearedHolds(l: Left, blockNumberFrom: nat, to: nat, limit: nat, latest: nat)
    requires LatestEnd(l.queue, to) == Some(latest)
    ensures LazyStart(l.queue, blockNumberFrom, to) == latest + 1
    ensures forall id ::
        id in LazyCleared(l.store, l.queue, to, limit)
        <==> id in l.store && !(latest + 1 <= id.blockNumber <= latest + limit)
  {
  }

  /** From `mid'` on the dead run stored nothing. */
  ghost predicate NothingAbove(store: Store, s: Store, mid': nat) {
    forall id :: id in store && mid' <= id.blockNumber ==> id in s
  }

  lemma NothingNewAbove(n: Node, l: Left, s: Store, from: nat, mid: nat, mid': nat)
    requires ValidNode(n) && Lost(n, l, s, from, mid, mid')
    ensures NothingAbove(l.store, s, mid')
  {
    ChainSplit(n, from, mid', mid');
  }

  lemma KeysAbove(s: Store, store: Store, cleared: Store, c: Store, mid: nat, end: nat)
    requires Within(c, mid, end) && cleared.Keys <= store.Keys && NothingAbove(store, s, mid)
    ensures (c - cleared.Keys).Keys <= c.Keys && c.Keys - s.Keys <= (c - cleared.Keys).Keys
  {
  }

  lemma SecondAfter(n: Node, l: Left, s: Store, blockNumberFrom: nat, mid': nat, to: nat, limit: nat)
    requires ValidNode(n) && NothingAbove(l.store, s, mid') && 0 < mid' <= to
    requires LatestEnd(l.queue, to) == Some(mid' - 1)
    ensures var c, second := ChainDocs(n, mid', to + 1), SecondLot(n, l, blockNumberFrom, to, limit);
      second.Keys <= c.Keys && c.Keys - s.Keys <= second.Keys
  {
    ClearedHolds(l, blockNumberFrom, to, limit, mid' - 1);
    ChainSplit(n, mid', mid', to + 1);
    KeysAbove(s, l.store, LazyCleared(l.store, l.queue, to, limit), ChainDocs(n, mid', to + 1), mid', to + 1);
  }

  /** The next run starts after the lost window and hands on what lies there. */
  lemma StartsAfter(n: Node, l: Left, s: Store, blockNumberFrom: nat, from: nat, mid: nat, mid': nat, to: nat,
                    limit: nat)
    requires ValidNode(n) && Lost(n, l, s, from, mid, mid') && 0 < mid' <= to
      && LatestEnd(l.queue, to) == Some(mid' - 1)
    ensures var c, second := ChainDocs(n, mid', to + 1), SecondLot(n, l, blockNumberFrom, to, limit);
      second.Keys <= c.Keys && c.Keys - s.Keys <= second.Keys
  {
    NothingNewAbove(n, l, s, from, mid, mid');
    SecondAfter(n, l, s, blockNumberFrom, mid', to, limit);
  }

  /** The next run hands on what lies after the lost window. */
  lemma LostInside(n: Node, s: Store, from: nat, mid: nat, mid': nat, to: nat, first: Store, second: Store)
    requires ValidNode(n) && from <= mid <= mid' <= to && first == Lacking(n, from, mid, s)
    requires second.Keys <= ChainDocs(n, mid', to + 1).Keys && ChainDocs(n, mid', to + 1).Keys - s.Keys <= second.Keys
    ensures AllHandedOn(Lacking(n, from, to + 1, s), first, second) <==> Lacking(n, mid, mid', s) == map[]
  {
    ChainSplit(n, from, mid, mid');
    ChainSplit(n, from, mid', to + 1);
    MiddleMissing(s, ChainDocs(n, from, mid), ChainDocs(n, mid, mid'), ChainDocs(n, mid', to + 1), from, mid, mid',
                  to + 1, first, second);
  }

  /** The next run clears the lost window, reads it again and hands all of it on. */
  lemma StartsAt(n: Node, l: Left, blockNumberFrom: nat, mid: nat, to: nat, limit: nat)
    requires ValidNode(n) && 0 < mid <= to < mid + limit && LatestEnd(l.queue, to) == Some(mid - 1)
    ensures ChainDocs(n, mid, to + 1).Keys <= SecondLot(n, l, blockNumberFrom, to, limit).Keys
  {
    ClearedHolds(l, blockNumberFrom, to, limit, mid - 1);
    ChainSplit(n, mid, mid, to + 1);
  }

  /** The lost window ends the range, and the last one found in the log is the one before. */
  lemma LostAfterAnother(n: Node, l: Left, s: Store, blockNumberFrom: nat, from: nat, mid: nat, to: nat, limit: nat)
    requires ValidNode(n) && Lost(n, l, s, from, mid, to + 1) && 0 < mid <= to < mid + limit
      && LatestEnd(l.queue, to) == Some(mid - 1)
    ensures AllHandedOn(Lacking(n, from, to + 1, s), l.processed, SecondLot(n, l, blockNumberFrom, to, limit))
  {
    StartsAt(n, l, blockNumberFrom, mid, to, limit);
    ChainSplit(n, from, mid, to + 1);
    BothHandedOn(s, ChainDocs(n, from, mid), ChainDocs(n, mid, to + 1), l.processed,
                 SecondLot(n, l, blockNumberFrom, to, limit));
  }

  lemma BothHandedOn(s: Store, a: Store, c: Store, first: Store, second: Store)
    requires Lacks(s, a, first) && c.Keys - s.Keys <= second.Keys
    ensures AllHandedOn(a + c - s.Keys, first, second)
  {
  }

  /** None is found. */
  lemma LostAlone(n: Node, l: Left, s: Store, from: nat, to: nat, limit: nat)
    requires ValidNode(n) && from <= to && Lost(n, l, s, from, from, to + 1) && LatestEnd(l.queue, to).None?
    ensures AllHandedOn(Lacking(n, from, to + 1, s), l.processed, SecondLot(n, l, from, to, limit))
      <==> Lacking(n, from, to + 1, s) == map[]
  {
    NothingMissing(n, from, s);
    FindsStored(n, s, l.store, from, to + 1);
  }

  /** A run died with the window from `mid` to `mid' - 1` stored and not handed on; `e` is the
      last end logged before that window. */
  ghost predicate Interrupted(n: Node, l: Left, s: Store, blockNumberFrom: nat, from: nat, mid: nat, mid': nat,
                              to: nat, limit: nat, e: Option<nat>)
  {
    && Lost(n, l, s, from, mid, mid') && mid < mid' <= to + 1 && mid' <= mid + limit
    && LatestEnd(l.queue, to) == (if mid' <= to then Some(mid' - 1) else e)
    && if e.Some? then e.value + 1 == mid else mid == from == blockNumberFrom
  }

  /** Every event that `s` lacked is handed on by one of the two runs. */
  ghost predicate MadeUp(n: Node, l: Left, s: Store, blockNumberFrom: nat, from: nat, to: nat, limit: nat) {
    AllHandedOn(Lacking(n, from, to + 1, s), l.processed, SecondLot(n, l, blockNumberFrom, to, limit))
  }

  /** The case of a window that ends inside the range. */
  lemma InsideIff(n: Node, l: Left, s: Store, blockNumberFrom: nat, from: nat, mid: nat, mid': nat, to: nat, limit: nat,
                  e: Option<nat>)
    requires ValidNode(n)
    ensures Interrupted(n, l, s, blockNumberFrom, from, mid, mid', to, limit, e) && mid' <= to ==>
      (MadeUp(n, l, s, blockNumberFrom, from, to, limit) <==> Lacking(n, mid, mid', s) == map[])
  {
    if Interrupted(n, l, s, blockNumberFrom, from, mid, mid', to, limit, e) && mid' <= to {
      StartsAfter(n, l, s, blockNumberFrom, from, mid, mid', to, limit);
      LostInside(n, s, from, mid, mid', to, l.processed, SecondLot(n, l, blockNumberFrom, to, limit));
    }
  }

  /** And of one that ends it. */
  lemma AtEndIff(n: Node, l: Left, s: Store, blockNumberFrom: nat, from: nat, mid: nat, to: nat, limit: nat,
                 e: Option<nat>)
    requires ValidNode(n)
    ensures Interrupted(n, l, s, blockNumberFrom, from, mid, to + 1, to, limit, e) ==>
      (MadeUp(n, l, s, blockNumberFrom, from, to, limit) <==> Lacking(n, mid, to + 1, s) == map[] || e.Some?)
  {
    if Interrupted(n, l, s, blockNumberFrom, from, mid, to + 1, to, limit, e) {
      if e.Some? {
        LostAfterAnother(n, l, s, blockNumberFrom, from, mid, to, limit);
      } else {
        LostAlone(n, l, s, from, to, limit);
      }
    }
  }

  lemma LostIff(n: Node, l: Left, s: Store, blockNumberFrom: nat, from: nat, mid: nat, mid': nat, to: nat, limit: nat,
                e: Option<nat>)
    requires ValidNode(n)
    ensures Interrupted(n, l, s, blockNumberFrom, from, mid, mid', to, limit, e) ==>
      (MadeUp(n, l, s, blockNumberFrom, from, to, limit) <==>
         Lacking(n, mid, mid', s) == map[] || (mid' == to + 1 && e.Some?))
  {
    if mid' <= to {
      InsideIff(n, l, s, blockNumberFrom, from, mid, mid', to, limit, e);
    } else if mid' == to + 1 {
      AtEndIff(n, l, s, blockNumberFrom, from, mid, to, limit, e);
    }
  }

  lemma InterruptedIff(n: Node, l: Left, s: Store, blockNumberFrom: nat, from: nat, mid: nat, mid': nat, to: nat,
                       limit: nat, e: Option<nat>)
    requires ValidNode(n)
    ensures Interrupted(n, l, s, blockNumberFrom, from, mid, mid', to, limit, e) ==>
      (Recovers(n, l, s, blockNumberFrom, from, to, limit) <==>
         Lacking(n, mid, mid', s) == map[] || (mid' == to + 1 && e.Some?))
  {
    if Interrupted(n, l, s, blockNumberFrom, from, mid, mid', to, limit, e) {
      RecoversIff(n, l, s, blockNumberFrom, from, to, limit);
      LostIff(n, l, s, blockNumberFrom, from, mid, mid', to, limit, e);
    }
  }

  /** A record that ends at the bound is not found. */
  lemma EndNotLatest(q: Queue, r: Record, to: nat)
    requires r.to == to
    ensures LatestEnd(q + [r], to) == LatestEnd(q, to)
  {
    assert (q + [r])[..|q|] == q;
  }

  /** The last entry a later run finds: a window that ends inside the range, or the one
      before a window that ends it. */
  lemma LatestLeft(q: Queue, before: seq<(nat, nat)>, w: (nat, nat), blockNumberFrom: nat, from: nat, to: nat)
    requires Contiguous(before, from, w.0) && w.0 <= w.1 <= to && from == LazyStart(q, blockNumberFrom, to)
    ensures var e, e' := LatestEnd(q + LogOf(before), to), LatestEnd(q + LogOf(before + [w]), to);
      && e' == (if w.1 < to then Some(w.1) else e)
      && (if e.Some? then e.value + 1 == w.0 else w.0 == from == blockNumberFrom)
  {
    LatestOfLog(q, before, from, w.0, to);
    ContiguousOrder(before, from, w.0);
    if w.1 < to {
      ContiguousOneMore(before, w, from);
      LatestOfLog(q, before + [w], from, w.1 + 1, to);
    } else {
      OneMoreLogged(q, before, w.0, w.1);
      EndNotLatest(q + LogOf(before), Record(w.0, w.1, None, false), to);
    }
  }

  lemma WindowLost(n: Node, s: Store, q: Queue, blockNumberFrom: nat, from: nat, to: nat, limit: nat,
                   before: seq<(nat, nat)>, w: (nat, nat), rest: seq<(nat, nat)>)
    requires ValidNode(n) && 1 <= limit && from == LazyStart(q, blockNumberFrom, to) <= to
    requires Windows(from, to, limit) == before + [w] + rest
    ensures Interrupted(n, Died(n, before, w, s, q), s, blockNumberFrom, from, w.0, w.1 + 1, to, limit,
      LatestEnd(q + LogOf(before), to))
  {
    WindowsPartition(from, to, limit);
    ContiguousParts(Windows(from, to, limit), before, w, rest, from, to + 1);
    WindowFits(from, to, limit, w);
    DiedAt(n, before, w, s, q, from);
    LatestLeft(q, before, w, blockNumberFrom, from, to);
  }

  /** A lazy-mint run dies after it stored and logged window `w` and before it handed that
      window's events on; `s` is the store it began its windows with. The next run with the
      same input makes up for it, so that every event `s` lacked has been handed on, if and
      only if `s` lacked none of the window's, or it was the last window and the log holds one
      before it. */
  lemma LostWindowIff(n: Node, s: Store, q: Queue, blockNumberFrom: nat, from: nat, to: nat, limit: nat,
                      before: seq<(nat, nat)>, w: (nat, nat), rest: seq<(nat, nat)>)
    requires ValidNode(n) && 1 <= limit && from == LazyStart(q, blockNumberFrom, to) <= to
    requires Windows(from, to, limit) == before + [w] + rest
    ensures Recovers(n, Died(n, before, w, s, q), s, blockNumberFrom, from, to, limit)
      <==> Lacking(n, w.0, w.1 + 1, s) == map[] || (w.1 == to && LatestEnd(q + LogOf(before), to).Some?)
  {
    WindowLost(n, s, q, blockNumberFrom, from, to, limit, before, w, rest);
    InterruptedIff(n, Died(n, before, w, s, q), s, blockNumberFrom, from, w.0, w.1 + 1, to, limit,
                   LatestEnd(q + LogOf(before), to));
  }

  // ---- A death before the window is logged ----

  /** The run read the windows `before`, and inserted the first `k` of the events that window
      `w` lacked, before it died. */
  function DiedStoring(n: Node, before: seq<(nat, nat)>, w: (nat, nat), k: nat, s: Store, q: Queue): Left
    requires k <= |ToInsert(n, before, w, s)|
  {
    Left(AfterWindows(n, before, s) + Docs(ToInsert(n, before, w, s)[..k]), q + LogOf(before), Processed(n, before, s))
  }

  /** What the run inserts for window `w`. */
  function ToInsert(n: Node, before: seq<(nat, nat)>, w: (nat, nat), s: Store): seq<Event> {
    Missing(RangeEvents(Plain(n), w.0, w.1 + 1), AfterWindows(n, before, s))
  }

  /** The dead run handed on everything up to `mid`, and stored `part` of the blocks from `mid`
      to `mid' - 1` besides. */
  ghost predicate HalfStored(n: Node, l: Left, s: Store, from: nat, mid: nat, mid': nat, part: Store) {
    && from <= mid <= mid' && l.store == s + Lacking(n, from, mid, s) + part && l.processed == Lacking(n, from, mid, s)
    && part.Keys <= ChainDocs(n, mid, mid').Keys && part.Keys !! s.Keys
  }

  lemma InsertedPart(es: seq<Event>, s: Store, k: nat)
    requires DistinctIds(es) && k <= |Missing(es, s)|
    ensures Docs(Missing(es, s)[..k]).Keys <= Docs(es).Keys && Docs(Missing(es, s)[..k]).Keys !! s.Keys
    ensures Docs(Missing(es, s)[..k]) == map[] <==> k == 0
  {
    var difference := Missing(es, s);
    MissingDocs(es, s);
    PrefixKeys(difference, k);
    if 0 < k {
      DocsKeys(difference[..k]);
      assert IdOf(difference[..k][0]) in Docs(difference[..k]);
    } else {
      assert difference[..0] == [];
    }
  }

  lemma PrefixKeys(es: seq<Event>, k: nat)
    requires k <= |es|
    ensures Docs(es[..k]).Keys <= Docs(es).Keys
  {
    assert es == es[..k] + es[k..];
    DocsConcat(es[..k], es[k..]);
  }

  lemma DiedStoringAt(n: Node, before: seq<(nat, nat)>, w: (nat, nat), k: nat, s: Store, q: Queue, from: nat)
    requires ValidNode(n) && Contiguous(before, from, w.0) && w.0 <= w.1 && k <= |ToInsert(n, before, w, s)|
    ensures HalfStored(n, DiedStoring(n, before, w, k, s, q), s, from, w.0, w.1 + 1,
      Docs(ToInsert(n, before, w, s)[..k]))
    ensures Docs(ToInsert(n, before, w, s)[..k]) == map[] <==> k == 0
  {
    WindowsStores(n, before, from, w.0, s);
    InsertedOfWindow(n, before, w, k, s);
    StillApart(s, Lacking(n, from, w.0, s), AfterWindows(n, before, s), Docs(ToInsert(n, before, w, s)[..k]));
  }

  lemma InsertedOfWindow(n: Node, before: seq<(nat, nat)>, w: (nat, nat), k: nat, s: Store)
    requires ValidNode(n) && w.0 <= w.1 && k <= |ToInsert(n, before, w, s)|
    ensures var part := Docs(ToInsert(n, before, w, s)[..k]);
      part.Keys <= ChainDocs(n, w.0, w.1 + 1).Keys && part.Keys !! AfterWindows(n, before, s).Keys
        && (part == map[] <==> k == 0)
  {
    PlainIsValid(n);
    RangeIsProper(Plain(n), w.0, w.1 + 1);
    InsertedPart(RangeEvents(Plain(n), w.0, w.1 + 1), AfterWindows(n, before, s), k);
  }

  lemma StillApart(s: Store, more: Store, grown: Store, part: Store)
    requires grown == s + more && part.Keys !! grown.Keys
    ensures part.Keys !! s.Keys
  {
  }

  /** What is stored besides is never handed on. */
  lemma PartLost(s: Store, c: Store, part: Store, s1: Store, first: Store)
    requires s1.Keys == s.Keys + part.Keys && part.Keys <= c.Keys && part.Keys !! s.Keys && first == map[]
    ensures AllHandedOn(c - s.Keys, first, c - s1.Keys) <==> part == map[]
  {
    if id :| id in part {
      assert id in c - s.Keys && id !in c - s1.Keys;
    }
  }

  lemma HalfStoredFirst(n: Node, l: Left, s: Store, from: nat, mid': nat, to: nat, limit: nat, part: Store)
    requires ValidNode(n) && HalfStored(n, l, s, from, from, mid', part) && from <= mid' <= to + 1
      && LatestEnd(l.queue, to).None?
    ensures AllHandedOn(Lacking(n, from, to + 1, s), l.processed, SecondLot(n, l, from, to, limit)) <==> part == map[]
  {
    NothingMissing(n, from, s);
    ChainSplit(n, from, mid', to + 1);
    PartLost(s, ChainDocs(n, from, to + 1), part, l.store, l.processed);
  }

  lemma HalfNothingAbove(n: Node, l: Left, s: Store, from: nat, mid: nat, mid': nat, part: Store)
    requires ValidNode(n)
    ensures HalfStored(n, l, s, from, mid, mid', part) ==> NothingAbove(l.store, s, mid')
  {
    if HalfStored(n, l, s, from, mid, mid', part) {
      ChainSplit(n, from, mid, mid);
      ChainSplit(n, mid, mid', mid');
    }
  }

  lemma KeysFrom(s: Store, store: Store, cleared: Store, c: Store, mid: nat, mid': nat, upTo: nat, end: nat)
    requires Within(c, mid, end) && mid' <= upTo + 1 && NothingAbove(store, s, mid')
    requires forall id :: id in cleared ==> id in store && !(mid <= id.blockNumber <= upTo)
    ensures c.Keys - s.Keys <= (c - cleared.Keys).Keys
  {
  }

  /** The next run clears at least the blocks from `mid` to `mid' - 1` and hands on all that
      lies from `mid` on. */
  lemma HalfStartsAt(n: Node, l: Left, s: Store, blockNumberFrom: nat, mid: nat, mid': nat, to: nat, limit: nat)
    requires ValidNode(n) && NothingAbove(l.store, s, mid') && 0 < mid <= to && mid' <= mid + limit
    requires LatestEnd(l.queue, to) == Some(mid - 1)
    ensures ChainDocs(n, mid, to + 1).Keys - s.Keys <= SecondLot(n, l, blockNumberFrom, to, limit).Keys
  {
    ClearedHolds(l, blockNumberFrom, to, limit, mid - 1);
    ChainSplit(n, mid, mid, to + 1);
    KeysFrom(s, l.store, LazyCleared(l.store, l.queue, to, limit), ChainDocs(n, mid, to + 1), mid, mid',
             mid - 1 + limit, to + 1);
  }

  lemma HalfStoredLater(n: Node, l: Left, s: Store, blockNumberFrom: nat, from: nat, mid: nat, mid': nat, to: nat,
                        limit: nat)
    requires ValidNode(n) && from <= mid && l.processed == Lacking(n, from, mid, s) && NothingAbove(l.store, s, mid')
    requires 0 < mid <= to && mid' <= mid + limit && LatestEnd(l.queue, to) == Some(mid - 1)
    ensures AllHandedOn(Lacking(n, from, to + 1, s), l.processed, SecondLot(n, l, blockNumberFrom, to, limit))
  {
    HalfStartsAt(n, l, s, blockNumberFrom, mid, mid', to, limit);
    ChainSplit(n, from, mid, to + 1);
    BothHandedOn(s, ChainDocs(n, from, mid), ChainDocs(n, mid, to + 1), l.processed,
                 SecondLot(n, l, blockNumberFrom, to, limit));
  }

  /** `e` is the last end the next run finds in the log. */
  ghost predicate Halfway(n: Node, l: Left, s: Store, blockNumberFrom: nat, from: nat, mid: nat, mid': nat,
                          to: nat, limit: nat, part: Store, e: Option<nat>)
  {
    && HalfStored(n, l, s, from, mid, mid', part) && mid < mid' <= to + 1 && mid' <= mid + limit
    && LatestEnd(l.queue, to) == e && if e.Some? then e.value + 1 == mid else mid == from == blockNumberFrom
  }

  lemma HalfwayIff(n: Node, l: Left, s: Store, blockNumberFrom: nat, from: nat, mid: nat, mid': nat,
                   to: nat, limit: nat, part: Store, e: Option<nat>)
    requires ValidNode(n) && Halfway(n, l, s, blockNumberFrom, from, mid, mid', to, limit, part, e)
    ensures AllHandedOn(Lacking(n, from, to + 1, s), l.processed, SecondLot(n, l, blockNumberFrom, to, limit))
      <==> part == map[] || e.Some?
  {
    if e.Some? {
      HalfNothingAbove(n, l, s, from, mid, mid', part);
      HalfStoredLater(n, l, s, blockNumberFrom, from, mid, mid', to, limit);
    } else {
      HalfStoredFirst(n, l, s, from, mid', to, limit, part);
    }
  }

  lemma HalfRecoversIff(n: Node, l: Left, s: Store, blockNumberFrom: nat, from: nat, mid: nat, mid': nat,
                        to: nat, limit: nat, part: Store, e: Option<nat>)
    requires ValidNode(n)
    ensures Halfway(n, l, s, blockNumberFrom, from, mid, mid', to, limit, part, e) ==>
      (Recovers(n, l, s, blockNumberFrom, from, to, limit) <==> part == map[] || e.Some?)
  {
    if Halfway(n, l, s, blockNumberFrom, from, mid, mid', to, limit, part, e) {
      RecoversIff(n, l, s, blockNumberFrom, from, to, limit);
      HalfwayIff(n, l, s, blockNumberFrom, from, mid, mid', to, limit, part, e);
    }
  }

  lemma WindowHalfway(n: Node, s: Store, q: Queue, blockNumberFrom: nat, from: nat, to: nat, limit: nat,
                      before: seq<(nat, nat)>, w: (nat, nat), rest: seq<(nat, nat)>, k: nat)
    requires ValidNode(n) && 1 <= limit && from == LazyStart(q, blockNumberFrom, to) <= to
    requires Windows(from, to, limit) == before + [w] + rest && k <= |ToInsert(n, before, w, s)|
    ensures Halfway(n, DiedStoring(n, before, w, k, s, q), s, blockNumberFrom, from, w.0, w.1 + 1, to, limit,
                    Docs(ToInsert(n, before, w, s)[..k]), LatestEnd(q + LogOf(before), to))
    ensures Docs(ToInsert(n, before, w, s)[..k]) == map[] <==> k == 0
  {
    WindowsPartition(from, to, limit);
    ContiguousParts(Windows(from, to, limit), before, w, rest, from, to + 1);
    WindowFits(from, to, limit, w);
    DiedStoringAt(n, before, w, k, s, q, from);
    LatestLeft(q, before, w, blockNumberFrom, from, to);
  }

  /** A lazy-mint run dies in or after the insert of window `w`, with `k` of its events
      inserted, and before it logs the window. The next run with the same input makes up for
      it if and only if nothing was inserted, or it finds a window before `w` in the log and
      so clears `w`. */
  lemma HalfStoredIff(n: Node, s: Store, q: Queue, blockNumberFrom: nat, from: nat, to: nat, limit: nat,
                      before: seq<(nat, nat)>, w: (nat, nat), rest: seq<(nat, nat)>, k: nat)
    requires ValidNode(n) && 1 <= limit && from == LazyStart(q, blockNumberFrom, to) <= to
    requires Windows(from, to, limit) == before + [w] + rest && k <= |ToInsert(n, before, w, s)|
    ensures Recovers(n, DiedStoring(n, before, w, k, s, q), s, blockNumberFrom, from, to, limit)
      <==> k == 0 || LatestEnd(q + LogOf(before), to).Some?
  {
    WindowHalfway(n, s, q, blockNumberFrom, from, to, limit, before, w, rest, k);
    HalfRecoversIff(n, DiedStoring(n, before, w, k, s, q), s, blockNumberFrom, from, w.0, w.1 + 1, to, limit,
                    Docs(ToInsert(n, before, w, s)[..k]), LatestEnd(q + LogOf(before), to));
  }
}
