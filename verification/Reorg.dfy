/** What a completed live `read` does to the event store, the queue and the bus, and
    why the stored events follow the chain over any run of reorgs. */
module Reorg {
  import opened Prelude
  import opened Ethnode
  import opened EventStore
  import opened BlocksQueue
  import opened Reader

  /** The live records, oldest first, cover the blocks `lo <= b < end` without gap or overlap. */
  ghost predicate Tiles(ls: seq<Record>, lo: nat, end: nat) {
    if ls == [] then end == lo
    else
      var r := ls[|ls| - 1];
      !r.isDeleted && r.from <= r.to && r.to + 1 == end && Tiles(ls[..|ls| - 1], lo, r.from)
  }

  /** The records the walk back from block `from` re-reads. */
  function Stale(n: Node, ls: seq<Record>, from: nat): seq<Record> {
    if ls == [] || !Diverges(n, from, Some(ls[|ls| - 1])) then []
    else Stale(n, ls[..|ls| - 1], ls[|ls| - 1].from) + [ls[|ls| - 1]]
  }

  function Refresh(n: Node, r: Record): Record { Record(r.from, r.to, HashAt(n, r.to), false) }

  function Refreshed(n: Node, rs: seq<Record>): seq<Record> {
    if rs == [] then [] else Refreshed(n, rs[..|rs| - 1]) + [Refresh(n, rs[|rs| - 1])]
  }

  /** The announcements of re-read ranges: newest range first. */
  function Announced(rs: seq<Record>): seq<IndexBlockRange> {
    if rs == [] then []
    else [IndexBlockRange(true, rs[|rs| - 1].from, rs[|rs| - 1].to)] + Announced(rs[..|rs| - 1])
  }

  /** The first block the call rewrites. */
  function Start(n: Node, ls: seq<Record>, from: nat): nat {
    var rs := Stale(n, ls, from);
    if rs == [] then from else rs[0].from
  }

  /** `ls` are the live records ending below `from`. */
  ghost predicate LiveBelow(q: Queue, from: nat, ls: seq<Record>) {
    forall r :: r in ls <==> r in q && !r.isDeleted && r.to < from
  }

  // ---- The re-read ranges ----

  lemma {:induction false} TilesBounds(ls: seq<Record>, lo: nat, end: nat)
    requires Tiles(ls, lo, end)
    ensures lo <= end
    ensures forall i :: 0 <= i < |ls| ==> lo <= ls[i].from <= ls[i].to < end && !ls[i].isDeleted
    ensures forall i, j :: 0 <= i < j < |ls| ==> ls[i].to < ls[j].from
  {
    if ls != [] {
      TilesBounds(ls[..|ls| - 1], lo, ls[|ls| - 1].from);
    }
  }

  lemma {:induction false} StaleIsSuffix(n: Node, ls: seq<Record>, from: nat)
    ensures |Stale(n, ls, from)| <= |ls|
    ensures Stale(n, ls, from) == ls[|ls| - |Stale(n, ls, from)|..]
  {
    if ls != [] && Diverges(n, from, Some(ls[|ls| - 1])) {
      StaleIsSuffix(n, ls[..|ls| - 1], ls[|ls| - 1].from);
    }
  }

  /** Cascade exactness: the re-read records are the longest suffix of the live records
      whose stored hash is not the chain's hash at their last block. */
  lemma {:induction false} StaleIsMaximalSuffix(n: Node, ls: seq<Record>, lo: nat, from: nat)
    requires ValidNode(n) && from < |n.blocks| && Tiles(ls, lo, from)
    ensures var k := |ls| - |Stale(n, ls, from)|;
      && 0 <= k
      && (forall i :: k <= i < |ls| ==> ls[i].toHash != HashAt(n, ls[i].to))
      && (0 < k ==> ls[k - 1].toHash == HashAt(n, ls[k - 1].to))
  {
    if ls != [] {
      var last := ls[|ls| - 1];
      assert ValidBlock(n, from);
      if Diverges(n, from, Some(last)) {
        StaleIsMaximalSuffix(n, ls[..|ls| - 1], lo, last.from);
      }
    }
  }

  lemma LatestIsLast(q: Queue, ls: seq<Record>, lo: nat, from: nat, latest: Option<Record>)
    requires Tiles(ls, lo, from) && LiveBelow(q, from, ls) && IsLatest(q, from, latest)
    ensures latest == if ls == [] then None else Some(ls[|ls| - 1])
  {
    TilesBounds(ls, lo, from);
    if ls != [] {
      var last := ls[|ls| - 1];
      assert last in ls;
      if latest.Some? {
        assert latest.value in ls;
      }
    }
  }

  // ---- One completed call ----

  /** What the first write of a call does to each block. */
  lemma LoggedAt(n: Node, from: nat, to: nat, s: Store, b: nat)
    requires ValidNode(n)
    requires from <= b <= to ==> AtBlock(s, b) == map[]
    ensures AtBlock(s + Docs(RangeEvents(n, from, to + 1)), b) ==
      if from <= b <= to then BlockDocs(n, b) else AtBlock(s, b)
  {
    var es := RangeEvents(n, from, to + 1);
    AtBlockUnion(s, Docs(es), b);
    if from <= b <= to {
      RangeDocsAt(n, from, to + 1, b);
    } else {
      RangeDocsOutside(n, from, to + 1, b);
    }
  }

  lemma WithoutRangeAt(s: Store, from: nat, to: nat, b: nat)
    ensures AtBlock(WithoutRange(s, from, to), b) == if from <= b <= to then map[] else AtBlock(s, b)
  {
  }

  /** Below the range being re-read, the queue's live records are the ones before it. */
  lemma LiveBelowStep(q: Queue, r: Record, from: nat, ls: seq<Record>, lo: nat, q': Queue)
    requires ls != [] && Tiles(ls, lo, from) && LiveBelow(q, from, ls) && from <= r.to
    requires SoftDeletes(q + [r], ls[|ls| - 1].from, ls[|ls| - 1].to, q')
    ensures LiveBelow(q', ls[|ls| - 1].from, ls[..|ls| - 1])
  {
    var l := ls[|ls| - 1];
    TilesBounds(ls, lo, from);
    SoftDeleteFrame(q + [r], l.from, l.to, q');
    forall x ensures x in ls[..|ls| - 1] <==> x in q' && !x.isDeleted && x.to < l.from {
      if x.to < l.from {
        assert !Covers(x, l.from, l.to) && x != l && x != r;
        assert x in q' <==> x in q;
        assert x in ls <==> x in ls[..|ls| - 1];
      }
    }
  }

  lemma CallFinds(n: Node, from: nat, to: nat, reread: bool, s: State, s': State)
    returns (latest: Option<Record>, t: State, most: nat)
    requires Completes(n, from, to, true, reread, s, s')
    ensures t == Logged(n, from, to, true, reread, s) && IsLatest(s.queue, from, latest)
    ensures !Diverges(n, from, latest) ==> s' == t
    ensures Diverges(n, from, latest) ==> Rereads(n, latest.value, most, t, s', Completed)
  {
    most :| Reads(n, from, to, true, reread, most, s, s', Completed);
    latest, t := FindLatest(n, from, to, reread, most, s, s', Completed);
    if 0 < most {
      most := most - 1;
    }
  }

  /** The latest record a completed call found, and the queue its re-read began with. */
  lemma CallUnfolds(n: Node, from: nat, to: nat, reread: bool, s: State, s': State)
    returns (latest: Option<Record>, t: State, q: Queue)
    requires Completes(n, from, to, true, reread, s, s')
    ensures t == Logged(n, from, to, true, reread, s) && IsLatest(s.queue, from, latest)
    ensures !Diverges(n, from, latest) ==> s' == t
    ensures Diverges(n, from, latest) ==>
      var l := latest.value;
      SoftDeletes(t.queue, l.from, l.to, q) && Completes(n, l.from, l.to, true, true, Retired(t, l, q), s')
  {
    var most;
    latest, t, most := CallFinds(n, from, to, reread, s, s');
    q := t.queue;
    if Diverges(n, from, latest) {
      q := RereadReads(n, latest.value, most, t, s', Completed);
    }
  }

  /** The call either stops after logging its range, or re-reads the last live record's. */
  lemma Unfold(n: Node, from: nat, to: nat, reread: bool, s: State, s': State, ls: seq<Record>, lo: nat)
    returns (t: State, u: State)
    requires from <= to && Tiles(ls, lo, from) && LiveBelow(s.queue, from, ls)
    requires Completes(n, from, to, true, reread, s, s')
    ensures t == Logged(n, from, to, true, reread, s)
    ensures Stale(n, ls, from) == [] ==> s' == t
    ensures Stale(n, ls, from) != [] ==>
      var l, init := ls[|ls| - 1], ls[..|ls| - 1];
      && Stale(n, ls, from) == Stale(n, init, l.from) + [l] && l.from <= l.to && l.to + 1 == from
        && Tiles(init, lo, l.from)
      && SoftDeletes(t.queue, l.from, l.to, u.queue) && u == Retired(t, l, u.queue)
      && LiveBelow(u.queue, l.from, init)
      && Completes(n, l.from, l.to, true, true, u, s')
  {
    var latest, q;
    latest, t, q := CallUnfolds(n, from, to, reread, s, s');
    u := s;
    LatestIsLast(s.queue, ls, lo, from, latest);
    if Diverges(n, from, latest) {
      u := Retired(t, latest.value, q);
      LiveBelowStep(s.queue, Record(from, to, HashAt(n, to), false), from, ls, lo, q);
    }
  }

  lemma Stops(n: Node, from: nat, to: nat, reread: bool, s: State, latest: Option<Record>)
    requires Decodable(n, from, to + 1) && Writable(s.store, RangeEvents(n, from, to + 1), reread)
    requires IsLatest(s.queue, from, latest) && !Diverges(n, from, latest)
    ensures Completes(n, from, to, true, reread, s, Logged(n, from, to, true, reread, s))
  {
    var t := Logged(n, from, to, true, reread, s);
    LatestDecides(n, from, to, reread, 0, s, latest, t, t, Completed);
  }

  /** A call whose latest record diverges ends as the re-read of that record does. */
  lemma ReadsOn(n: Node, from: nat, to: nat, reread: bool, most: nat, s: State, l: Record, q: Queue, s': State,
                end: ReadEnd)
    requires Decodable(n, from, to + 1) && Writable(s.store, RangeEvents(n, from, to + 1), reread)
    requires IsLatest(s.queue, from, Some(l)) && Diverges(n, from, Some(l))
    requires var t := Logged(n, from, to, true, reread, s);
      SoftDeletes(t.queue, l.from, l.to, q) && Reads(n, l.from, l.to, true, true, most, Retired(t, l, q), s', end)
    ensures Reads(n, from, to, true, reread, most + 1, s, s', end)
  {
    var t := Logged(n, from, to, true, reread, s);
    assert Rereads(n, l, most, t, s', end);
    LatestDecides(n, from, to, reread, most + 1, s, Some(l), t, s', end);
  }

  lemma GoesBack(n: Node, from: nat, to: nat, reread: bool, s: State, l: Record, q: Queue, s': State)
    requires Decodable(n, from, to + 1) && Writable(s.store, RangeEvents(n, from, to + 1), reread)
    requires IsLatest(s.queue, from, Some(l)) && Diverges(n, from, Some(l))
    requires var t := Logged(n, from, to, true, reread, s);
      SoftDeletes(t.queue, l.from, l.to, q) && Completes(n, l.from, l.to, true, true, Retired(t, l, q), s')
    ensures Completes(n, from, to, true, reread, s, s')
  {
    var t := Logged(n, from, to, true, reread, s);
    var most: nat :| Reads(n, l.from, l.to, true, true, most, Retired(t, l, q), s', Completed);
    ReadsOn(n, from, to, reread, most, s, l, q, s', Completed);
  }

  lemma AnnouncedStep(before: seq<IndexBlockRange>, m: IndexBlockRange, rs: seq<Record>, l: Record,
                      after: seq<IndexBlockRange>)
    requires after == before + [m] + [IndexBlockRange(true, l.from, l.to)] + Announced(rs)
    ensures after == before + [m] + Announced(rs + [l])
  {
    assert (rs + [l])[..|rs|] == rs;
  }

  /** A completed live call announces its range and then the stale ones, newest first. */
  lemma {:induction false} CascadeAnnounces(n: Node, from: nat, to: nat, reread: bool, s: State, s': State,
                                            ls: seq<Record>, lo: nat)
    requires from <= to && Tiles(ls, lo, from) && LiveBelow(s.queue, from, ls)
    requires Completes(n, from, to, true, reread, s, s')
    ensures s'.bus == s.bus + [IndexBlockRange(reread, from, to)] + Announced(Stale(n, ls, from))
    decreases |ls|
  {
    var t, u := Unfold(n, from, to, reread, s, s', ls, lo);
    if Stale(n, ls, from) != [] {
      var l, init := ls[|ls| - 1], ls[..|ls| - 1];
      CascadeAnnounces(n, l.from, l.to, true, u, s', init, lo);
      AnnouncedStep(s.bus, IndexBlockRange(reread, from, to), Stale(n, init, l.from), l, s'.bus);
    }
  }

  /** It replaces, by what the chain holds, the events of its range and of the stale
      ranges, and leaves every other block alone. */
  lemma {:induction false} CascadeStores(n: Node, from: nat, to: nat, reread: bool, s: State, s': State,
                                         ls: seq<Record>, lo: nat, b: nat)
    requires ValidNode(n) && from <= to && Tiles(ls, lo, from) && LiveBelow(s.queue, from, ls)
    requires forall c: nat | from <= c <= to :: AtBlock(s.store, c) == map[]
    requires Completes(n, from, to, true, reread, s, s')
    ensures Start(n, ls, from) <= from
    ensures AtBlock(s'.store, b) == if Start(n, ls, from) <= b <= to then BlockDocs(n, b) else AtBlock(s.store, b)
    decreases |ls|
  {
    var more, l, init, u := NextStores(n, from, to, reread, s, s', ls, lo);
    if more {
      RetiredIsEmpty(s.store + Docs(RangeEvents(n, from, to + 1)), l.from, l.to);
      CascadeStores(n, l.from, l.to, true, u, s', init, lo, b);
      RereadThenBlock(s.store, s'.store, n, from, to, l, Start(n, init, l.from), b);
    } else {
      LoggedAt(n, from, to, s.store, b);
    }
  }

  /** The call stores its own range, and may go on to re-read the range just below. */
  lemma NextStores(n: Node, from: nat, to: nat, reread: bool, s: State, s': State, ls: seq<Record>, lo: nat)
    returns (more: bool, l: Record, init: seq<Record>, u: State)
    requires from <= to && Tiles(ls, lo, from) && LiveBelow(s.queue, from, ls)
    requires Completes(n, from, to, true, reread, s, s')
    ensures !more ==> s'.store == s.store + Docs(RangeEvents(n, from, to + 1)) && Start(n, ls, from) == from
    ensures more ==>
      && |init| < |ls| && l.from <= l.to && l.to + 1 == from && Tiles(init, lo, l.from)
      && LiveBelow(u.queue, l.from, init) && Completes(n, l.from, l.to, true, true, u, s')
      && u.store == WithoutRange(s.store + Docs(RangeEvents(n, from, to + 1)), l.from, l.to)
      && Start(n, ls, from) == Start(n, init, l.from)
  {
    var t;
    t, u := Unfold(n, from, to, reread, s, s', ls, lo);
    more := Stale(n, ls, from) != [];
    if more {
      l, init := ls[|ls| - 1], ls[..|ls| - 1];
      StartStep(n, ls, lo, from);
    } else {
      l, init := Record(from, to, None, false), [];
    }
  }

  /** A block after its range was written and a range below it was cleared and re-read. */
  lemma RereadThenBlock(s: Store, s': Store, n: Node, from: nat, to: nat, l: Record, start: nat, b: nat)
    requires ValidNode(n) && start <= l.from <= l.to && l.to + 1 == from <= to
    requires forall c: nat | from <= c <= to :: AtBlock(s, c) == map[]
    requires AtBlock(s', b) ==
      if start <= b <= l.to then BlockDocs(n, b)
      else AtBlock(WithoutRange(s + Docs(RangeEvents(n, from, to + 1)), l.from, l.to), b)
    ensures AtBlock(s', b) == if start <= b <= to then BlockDocs(n, b) else AtBlock(s, b)
  {
    LoggedAt(n, from, to, s, b);
    WithoutRangeAt(s + Docs(RangeEvents(n, from, to + 1)), l.from, l.to, b);
  }

  lemma RetiredIsEmpty(s: Store, from: nat, to: nat)
    ensures forall c: nat | from <= c <= to :: AtBlock(WithoutRange(s, from, to), c) == map[]
  {
  }

  lemma StartStep(n: Node, ls: seq<Record>, lo: nat, from: nat)
    requires Tiles(ls, lo, from) && Stale(n, ls, from) != []
    ensures Start(n, ls, from) == Start(n, ls[..|ls| - 1], ls[|ls| - 1].from)
  {
  }

  /** Each re-read range has one live record and no soft-deleted twin. */
  ghost predicate Retirable(q: Queue, rs: seq<Record>) {
    forall i :: 0 <= i < |rs| ==> OneLive(q, rs[i]) && NoTwin(q, rs[i].from, rs[i].to)
  }

  /** Logging a later range and retiring another leave a record's own range as it was. */
  lemma OtherStaysRetirable(q: Queue, r: Record, l: Record, q': Queue, x: Record)
    requires x.from <= x.to < l.from <= l.to < r.to
    requires OneLive(q, x) && NoTwin(q, x.from, x.to)
    requires forall y :: !Covers(y, l.from, l.to) ==> (y in q' <==> y in q + [r])
    requires Live(q') == Live(q) + multiset{r} - multiset{l}
    ensures OneLive(q', x) && NoTwin(q', x.from, x.to)
  {
    forall y | y in q' && Covers(y, x.from, x.to) ensures y in q {
      assert !Covers(y, l.from, l.to) && y != r;
    }
  }

  ghost predicate AllBefore(rs: seq<Record>, l: Record) {
    forall i :: 0 <= i < |rs| ==> rs[i].from <= rs[i].to < l.from
  }

  lemma RetireNewest(q: Queue, r: Record, l: Record, q': Queue)
    requires OneLive(q, l) && NoTwin(q, l.from, l.to) && l.to < r.to && !r.isDeleted
    requires SoftDeletes(q + [r], l.from, l.to, q')
    ensures Live(q') == Live(q) + multiset{r} - multiset{l}
  {
    LiveAppend(q, r);
    assert OneLive(q + [r], l);
    SoftDeleteRetires(q + [r], l, q');
  }

  lemma RestStaysRetirable(q: Queue, r: Record, rest: seq<Record>, l: Record, q': Queue)
    requires Retirable(q, rest) && AllBefore(rest, l) && l.from <= l.to < r.to
    requires SoftDeletes(q + [r], l.from, l.to, q') && Live(q') == Live(q) + multiset{r} - multiset{l}
    ensures Retirable(q', rest)
  {
    SoftDeleteFrame(q + [r], l.from, l.to, q');
    forall i | 0 <= i < |rest| ensures OneLive(q', rest[i]) && NoTwin(q', rest[i].from, rest[i].to) {
      OtherStaysRetirable(q, r, l, q', rest[i]);
    }
  }

  lemma StaleBefore(n: Node, ls: seq<Record>, lo: nat, from: nat)
    requires Tiles(ls, lo, from) && Stale(n, ls, from) != []
    ensures var l := ls[|ls| - 1];
      var rest := Stale(n, ls[..|ls| - 1], l.from);
      Stale(n, ls, from) == rest + [l] && AllBefore(rest, l) && l.from <= l.to < from
  {
    TilesBounds(ls, lo, from);
    StaleIsSuffix(n, ls[..|ls| - 1], ls[|ls| - 1].from);
  }

  lemma RetirablePrefix(q: Queue, rest: seq<Record>, l: Record)
    requires Retirable(q, rest + [l])
    ensures Retirable(q, rest) && OneLive(q, l) && NoTwin(q, l.from, l.to)
  {
    var rs := rest + [l];
    assert rs[|rest|] == l;
    forall i | 0 <= i < |rest| ensures OneLive(q, rest[i]) && NoTwin(q, rest[i].from, rest[i].to) {
      assert rs[i] == rest[i];
    }
  }

  lemma RetirableStep(q: Queue, r: Record, ls: seq<Record>, lo: nat, n: Node, from: nat, q': Queue)
    requires Tiles(ls, lo, from) && Stale(n, ls, from) != [] && from <= r.to && !r.isDeleted
    requires Retirable(q, Stale(n, ls, from)) && SoftDeletes(q + [r], ls[|ls| - 1].from, ls[|ls| - 1].to, q')
    ensures Live(q') == Live(q) + multiset{r} - multiset{ls[|ls| - 1]}
    ensures Retirable(q', Stale(n, ls[..|ls| - 1], ls[|ls| - 1].from))
  {
    var l := ls[|ls| - 1];
    var rest := Stale(n, ls[..|ls| - 1], l.from);
    StaleBefore(n, ls, lo, from);
    RetirablePrefix(q, rest, l);
    RetireNewest(q, r, l, q');
    RestStaysRetirable(q, r, rest, l, q');
  }

  lemma UnfoldQueue(n: Node, from: nat, to: nat, reread: bool, s: State, s': State, ls: seq<Record>, lo: nat)
    returns (u: State)
    requires from <= to && Tiles(ls, lo, from) && LiveBelow(s.queue, from, ls)
    requires Retirable(s.queue, Stale(n, ls, from)) && multiset(Stale(n, ls, from)) <= Live(s.queue)
    requires Completes(n, from, to, true, reread, s, s')
    ensures Stale(n, ls, from) == []
      ==> Live(s'.queue) == Live(s.queue) + multiset{Record(from, to, HashAt(n, to), false)}
    ensures Stale(n, ls, from) != [] ==>
      var l, init := ls[|ls| - 1], ls[..|ls| - 1];
      var rest := Stale(n, init, l.from);
      && Stale(n, ls, from) == rest + [l] && l.from <= l.to && Tiles(init, lo, l.from)
        && LiveBelow(u.queue, l.from, init)
      && Live(u.queue) == Live(s.queue) + multiset{Record(from, to, HashAt(n, to), false)} - multiset{l}
      && Retirable(u.queue, rest) && multiset(rest) <= Live(u.queue)
      && Completes(n, l.from, l.to, true, true, u, s')
  {
    var t;
    t, u := Unfold(n, from, to, reread, s, s', ls, lo);
    var r := Record(from, to, HashAt(n, to), false);
    LiveAppend(s.queue, r);
    if Stale(n, ls, from) != [] {
      RetirableStep(s.queue, r, ls, lo, n, from, u.queue);
      SubStep(Live(s.queue), Stale(n, ls[..|ls| - 1], ls[|ls| - 1].from), ls[|ls| - 1], r);
    }
  }

  /** Afterwards the stale records are retired and replaced by fresh ones with the
      chain's hashes, provided no soft delete could hit an already deleted twin. */
  lemma {:induction false} CascadeRelogs(n: Node, from: nat, to: nat, reread: bool, s: State, s': State,
                                         ls: seq<Record>, lo: nat)
    requires from <= to && Tiles(ls, lo, from) && LiveBelow(s.queue, from, ls)
    requires Retirable(s.queue, Stale(n, ls, from)) && multiset(Stale(n, ls, from)) <= Live(s.queue)
    requires Completes(n, from, to, true, reread, s, s')
    ensures Live(s'.queue) == Live(s.queue) - multiset(Stale(n, ls, from)) + multiset(Refreshed(n, Stale(n, ls, from)))
                              + multiset{Record(from, to, HashAt(n, to), false)}
    decreases |ls|
  {
    var u := UnfoldQueue(n, from, to, reread, s, s', ls, lo);
    if Stale(n, ls, from) != [] {
      var l, init := ls[|ls| - 1], ls[..|ls| - 1];
      CascadeRelogs(n, l.from, l.to, true, u, s', init, lo);
      RelogStep(n, Live(s.queue), Stale(n, init, l.from), l, Record(from, to, HashAt(n, to), false), Live(s'.queue));
    } else {
      NoneRelogged(n, Live(s.queue), Record(from, to, HashAt(n, to), false));
    }
  }

  lemma NoneRelogged(n: Node, before: multiset<Record>, r: Record)
    ensures before + multiset{r} == before - multiset([]) + multiset(Refreshed(n, [])) + multiset{r}
  {
    assert before - multiset([]) + multiset([]) == before;
  }

  lemma SubStep(before: multiset<Record>, rs: seq<Record>, l: Record, r: Record)
    requires multiset(rs + [l]) <= before
    ensures multiset(rs) <= before + multiset{r} - multiset{l}
  {
  }

  lemma RelogStep(n: Node, before: multiset<Record>, rs: seq<Record>, l: Record, r: Record, after: multiset<Record>)
    requires multiset(rs + [l]) <= before
    requires after
      == before + multiset{r} - multiset{l} - multiset(rs) + multiset(Refreshed(n, rs)) + multiset{Refresh(n, l)}
    ensures after == before - multiset(rs + [l]) + multiset(Refreshed(n, rs + [l])) + multiset{r}
  {
    assert (rs + [l])[..|rs|] == rs;
  }
}
