/** The cascade's queue, exactly: when every completion of a live call retires the stale
    records, and that a completion exists. */
module ReorgExact {
  import opened Prelude
  import opened Ethnode
  import opened EventStore
  import opened BlocksQueue
  import opened Reader
  import opened Reorg
  import opened ReorgRuns

  lemma SoftDeleteExists(q: Queue, from: nat, to: nat) returns (q': Queue)
    ensures SoftDeletes(q, from, to, q')
  {
    if i :| 0 <= i < |q| && Covers(q[i], from, to) {
      q' := q[i := q[i].(isDeleted := true)];
    } else {
      q' := q;
    }
  }

  lemma LastIsLatest(q: Queue, ls: seq<Record>, lo: nat, from: nat)
    requires Tiles(ls, lo, from) && LiveBelow(q, from, ls)
    ensures IsLatest(q, from, if ls == [] then None else Some(ls[|ls| - 1]))
  {
    TilesBounds(ls, lo, from);
    if ls != [] {
      var last := ls[|ls| - 1];
      assert last in ls;
      forall y | y in q && !y.isDeleted && y.to < from ensures y.to <= last.to {
        assert y in ls;
      }
    }
  }

  /** The last live record is stale: from any soft delete of its range the walk goes on. */
  lemma GoesBackToLast(n: Node, from: nat, to: nat, reread: bool, s: State, ls: seq<Record>, lo: nat, q: Queue,
                       s': State)
    requires Tiles(ls, lo, from) && LiveBelow(s.queue, from, ls) && ls != [] && Diverges(n, from, Some(ls[|ls| - 1]))
    requires Decodable(n, from, to + 1) && Writable(s.store, RangeEvents(n, from, to + 1), reread)
    requires var t, l := Logged(n, from, to, true, reread, s), ls[|ls| - 1];
      SoftDeletes(t.queue, l.from, l.to, q) && Completes(n, l.from, l.to, true, true, Retired(t, l, q), s')
    ensures Completes(n, from, to, true, reread, s, s')
  {
    LastIsLatest(s.queue, ls, lo, from);
    GoesBack(n, from, to, reread, s, ls[|ls| - 1], q, s');
  }

  /** With every log decodable and no id of its range taken, a live call can complete. */
  lemma {:induction false} CompletionExists(n: Node, from: nat, to: nat, reread: bool, s: State, ls: seq<Record>,
                                            lo: nat)
    returns (s': State)
    requires from <= to && Tiles(ls, lo, from) && LiveBelow(s.queue, from, ls)
    requires Decodable(n, lo, to + 1) && Writable(s.store, RangeEvents(n, from, to + 1), reread)
    ensures Completes(n, from, to, true, reread, s, s')
    decreases |ls|
  {
    TilesBounds(ls, lo, from);
    var t := Logged(n, from, to, true, reread, s);
    if ls == [] || !Diverges(n, from, Some(ls[|ls| - 1])) {
      LastIsLatest(s.queue, ls, lo, from);
      Stops(n, from, to, reread, s, if ls == [] then None else Some(ls[|ls| - 1]));
      s' := t;
    } else {
      var l := ls[|ls| - 1];
      var q := SoftDeleteExists(t.queue, l.from, l.to);
      LiveBelowStep(s.queue, Record(from, to, HashAt(n, to), false), from, ls, lo, q);
      s' := CompletionExists(n, l.from, l.to, true, Retired(t, l, q), ls[..|ls| - 1], lo);
      GoesBackToLast(n, from, to, reread, s, ls, lo, q, s');
    }
  }

  /** A call soft-deletes only records that end below its range. */
  lemma {:induction false} KeepsAbove(n: Node, from: nat, to: nat, reread: bool, s: State, s': State, ls: seq<Record>,
                                      lo: nat, r: Record)
    requires from <= to && Tiles(ls, lo, from) && LiveBelow(s.queue, from, ls)
    requires Completes(n, from, to, true, reread, s, s') && r in s.queue && from <= r.to
    ensures r in s'.queue
    decreases |ls|
  {
    var t, u := Unfold(n, from, to, reread, s, s', ls, lo);
    assert r in t.queue;
    if Stale(n, ls, from) != [] {
      var l, init := ls[|ls| - 1], ls[..|ls| - 1];
      SoftDeleteFrame(t.queue, l.from, l.to, u.queue);
      assert !Covers(r, l.from, l.to);
      KeepsAbove(n, l.from, l.to, true, u, s', init, lo, r);
    }
  }

  /** Some stale record has a soft-deleted twin. */
  ghost predicate TwinAmong(q: Queue, rs: seq<Record>) {
    exists i :: 0 <= i < |rs| && !NoTwin(q, rs[i].from, rs[i].to)
  }

  lemma TwinOf(q: Queue, from: nat, to: nat) returns (k: nat)
    requires !NoTwin(q, from, to)
    ensures k < |q| && Covers(q[k], from, to) && q[k].isDeleted
  {
    var r :| r in q && Covers(r, from, to) && r.isDeleted;
    k :| 0 <= k < |q| && q[k] == r;
  }

  /** A soft delete that meets a twin changes nothing. */
  lemma TwinAnswers(q: Queue, r: Record, l: Record)
    requires !NoTwin(q, l.from, l.to)
    ensures SoftDeletes(q + [r], l.from, l.to, q + [r])
  {
    var k := TwinOf(q, l.from, l.to);
    var all := q + [r];
    assert all[k] == q[k];
    assert all[k := all[k].(isDeleted := true)] == all;
  }

  /** The twins of other ranges stay. */
  lemma TwinStays(q: Queue, r: Record, l: Record, q': Queue, x: Record)
    requires !NoTwin(q, x.from, x.to) && SoftDeletes(q + [r], l.from, l.to, q') && x.to < l.to
    ensures !NoTwin(q', x.from, x.to)
  {
    var k := TwinOf(q, x.from, x.to);
    SoftDeleteFrame(q + [r], l.from, l.to, q');
    assert q[k] in q + [r] && !Covers(q[k], l.from, l.to);
  }

  lemma SplitTwin(q: Queue, rest: seq<Record>, l: Record)
    requires TwinAmong(q, rest + [l]) && NoTwin(q, l.from, l.to)
    ensures TwinAmong(q, rest)
  {
    var rs := rest + [l];
    var i :| 0 <= i < |rs| && !NoTwin(q, rs[i].from, rs[i].to);
    assert rest[i] == rs[i];
  }

  lemma TwinsStay(q: Queue, r: Record, rest: seq<Record>, l: Record, q': Queue)
    requires TwinAmong(q, rest) && AllBefore(rest, l) && l.from <= l.to && SoftDeletes(q + [r], l.from, l.to, q')
    ensures TwinAmong(q', rest)
  {
    var i :| 0 <= i < |rest| && !NoTwin(q, rest[i].from, rest[i].to);
    TwinStays(q, r, l, q', rest[i]);
  }

  /** With a twin among the stale ranges, some completion leaves a stale record live. */
  lemma {:induction false} BadCompletion(n: Node, from: nat, to: nat, reread: bool, s: State, ls: seq<Record>, lo: nat)
    returns (s': State, x: Record)
    requires from <= to && Tiles(ls, lo, from) && LiveBelow(s.queue, from, ls)
    requires Decodable(n, lo, to + 1) && Writable(s.store, RangeEvents(n, from, to + 1), reread)
    requires TwinAmong(s.queue, Stale(n, ls, from))
    ensures Completes(n, from, to, true, reread, s, s') && x in Stale(n, ls, from) && x in s'.queue
    decreases |ls|
  {
    StaleBefore(n, ls, lo, from);
    TilesBounds(ls, lo, from);
    var l, init := ls[|ls| - 1], ls[..|ls| - 1];
    var rest := Stale(n, init, l.from);
    var r := Record(from, to, HashAt(n, to), false);
    var t := Logged(n, from, to, true, reread, s);
    if NoTwin(s.queue, l.from, l.to) {
      var q := SoftDeleteExists(t.queue, l.from, l.to);
      LiveBelowStep(s.queue, r, from, ls, lo, q);
      SplitTwin(s.queue, rest, l);
      TwinsStay(s.queue, r, rest, l, q);
      s', x := BadCompletion(n, l.from, l.to, true, Retired(t, l, q), init, lo);
      GoesBackToLast(n, from, to, reread, s, ls, lo, q, s');
    } else {
      TwinAnswers(s.queue, r, l);
      LiveBelowStep(s.queue, r, from, ls, lo, t.queue);
      s' := CompletionExists(n, l.from, l.to, true, Retired(t, l, t.queue), init, lo);
      x := l;
      assert l in ls;
      KeepsAbove(n, l.from, l.to, true, Retired(t, l, t.queue), s', init, lo, l);
      GoesBackToLast(n, from, to, reread, s, ls, lo, t.queue, s');
    }
  }

  /** The live records a repaired log holds. */
  ghost function Repaired(n: Node, q: Queue, rs: seq<Record>, r: Record): multiset<Record> {
    Live(q) - multiset(rs) + multiset(Refreshed(n, rs)) + multiset{r}
  }

  /** A record whose hash is off the chain is not among the fresh ones. */
  lemma {:induction false} NotRefreshed(n: Node, rs: seq<Record>, x: Record)
    requires x.toHash != HashAt(n, x.to)
    ensures x !in Refreshed(n, rs)
  {
    if rs != [] {
      NotRefreshed(n, rs[..|rs| - 1], x);
    }
  }

  lemma StaleIsGone(n: Node, q: Queue, rs: seq<Record>, r: Record, x: Record)
    requires x in rs && Live(q)[x] == 1 && x.toHash != HashAt(n, x.to) && r.toHash == HashAt(n, r.to)
    ensures x !in Repaired(n, q, rs, r)
  {
    NotRefreshed(n, rs, x);
    assert multiset(rs)[x] >= 1;
    assert multiset(Refreshed(n, rs))[x] == 0;
  }

  lemma NotRetirable(q: Queue, ls: seq<Record>, lo: nat, from: nat, k: nat)
    requires Tiles(ls, lo, from) && Live(q) == multiset(ls) && k <= |ls| && !Retirable(q, ls[k..])
    ensures TwinAmong(q, ls[k..])
  {
    LiveIsBelow(q, ls, lo, from);
    var rs := ls[k..];
    var i :| 0 <= i < |rs| && !(OneLive(q, rs[i]) && NoTwin(q, rs[i].from, rs[i].to));
    assert rs[i] == ls[k + i];
    CountOnce(ls, lo, from, k + i);
    OnlyOne(q, ls, lo, from, k + i);
  }

  /** Exactly when a live call is sure to repair the log: every completion retires the
      stale records and logs fresh ones in their place if and only if none of the stale
      ranges has a soft-deleted twin. */
  lemma CascadeRelogsIff(n: Node, from: nat, to: nat, reread: bool, s: State, ls: seq<Record>, lo: nat)
    requires ValidNode(n) && from <= to && from < |n.blocks| && Tiles(ls, lo, from) && Live(s.queue) == multiset(ls)
    requires Decodable(n, lo, to + 1) && Writable(s.store, RangeEvents(n, from, to + 1), reread)
    ensures
      var rs, r := Stale(n, ls, from), Record(from, to, HashAt(n, to), false);
      (forall s': State :: Completes(n, from, to, true, reread, s, s')
        ==> Live(s'.queue) == Repaired(n, s.queue, rs, r)) <==> Retirable(s.queue, rs)
  {
    var rs, r := Stale(n, ls, from), Record(from, to, HashAt(n, to), false);
    LiveIsBelow(s.queue, ls, lo, from);
    var k := StaleSplit(n, ls, lo, from);
    SuffixCount(ls, k);
    if Retirable(s.queue, rs) {
      forall s': State | Completes(n, from, to, true, reread, s, s')
          ensures Live(s'.queue) == Repaired(n, s.queue, rs, r) {
        CascadeRelogs(n, from, to, reread, s, s', ls, lo);
      }
    } else {
      NotRetirable(s.queue, ls, lo, from, k);
      var s', x := BadCompletion(n, from, to, reread, s, ls, lo);
      StaleStaysLive(n, from, s.queue, ls, lo, k, r, s'.queue, x);
    }
  }

  lemma StaleOnce(n: Node, from: nat, q: Queue, ls: seq<Record>, lo: nat, k: nat, x: Record)
    requires Tiles(ls, lo, from) && Live(q) == multiset(ls) && k <= |ls| && x in ls[k..]
    requires forall i :: k <= i < |ls| ==> ls[i].toHash != HashAt(n, ls[i].to)
    ensures Live(q)[x] == 1 && x.toHash != HashAt(n, x.to) && !x.isDeleted
  {
    var j := InSuffix(ls, k, x);
    TilesBounds(ls, lo, from);
    CountOnce(ls, lo, from, j);
  }

  lemma InSuffix(ls: seq<Record>, k: nat, x: Record) returns (j: nat)
    requires k <= |ls| && x in ls[k..]
    ensures k <= j < |ls| && ls[j] == x
  {
    var i :| 0 <= i < |ls[k..]| && ls[k..][i] == x;
    j := k + i;
  }

  lemma Differ(a: multiset<Record>, b: multiset<Record>, x: Record)
    requires x in a && x !in b
    ensures a != b
  {
  }

  lemma StaleStaysLive(n: Node, from: nat, q: Queue, ls: seq<Record>, lo: nat, k: nat, r: Record, q': Queue, x: Record)
    requires Tiles(ls, lo, from) && Live(q) == multiset(ls) && k <= |ls| && x in ls[k..] && x in q'
      && r.toHash == HashAt(n, r.to)
    requires forall i :: k <= i < |ls| ==> ls[i].toHash != HashAt(n, ls[i].to)
    ensures Live(q') != Repaired(n, q, ls[k..], r)
  {
    StaleOnce(n, from, q, ls, lo, k, x);
    StaleIsGone(n, q, ls[k..], r, x);
    LiveIn(q', x);
    Differ(Live(q'), Repaired(n, q, ls[k..], r), x);
  }
}
