/** How long the walk back of `read` and `reread` goes on once logged ranges may be
    improper, that is, start above their end: by the number of re-reads it begins. */
module WalkBack {
  import opened Prelude
  import opened Ethnode
  import opened EventStore
  import opened BlocksQueue
  import opened Reader
  import opened Reorg
  import opened ReorgExact

  /** Having logged `from..to` over the log `q`, the walk goes on to re-read record `l`, and
      `q'` is the log that re-read begins with. */
  ghost predicate GoesOnTo(n: Node, q: Queue, from: nat, to: nat, l: Record, q': Queue) {
    && IsLatest(q, from, Some(l)) && Diverges(n, from, Some(l))
    && SoftDeletes(q + [Record(from, to, HashAt(n, to), false)], l.from, l.to, q')
  }

  /** A read of `from..to` over the log `q` can lead to `k` re-reads, one inside the other. */
  ghost predicate Walks(n: Node, q: Queue, from: nat, to: nat, k: nat)
    decreases k
  {
    k == 0 || exists l: Record, q': Queue :: GoesOnTo(n, q, from, to, l, q') && Walks(n, q', l.from, l.to, k - 1)
  }

  /** So can a re-read of the range of `x`. */
  ghost predicate RereadWalks(n: Node, q: Queue, x: Record, k: nat) {
    exists q': Queue :: SoftDeletes(q, x.from, x.to, q') && Walks(n, q', x.from, x.to, k)
  }

  // ---- Walks of the log are calls of the reader ----

  lemma WalkStep(n: Node, q: Queue, from: nat, to: nat, k: nat) returns (l: Record, q': Queue)
    requires 0 < k && Walks(n, q, from, to, k)
    ensures GoesOnTo(n, q, from, to, l, q') && Walks(n, q', l.from, l.to, k - 1)
  {
    l, q' :| GoesOnTo(n, q, from, to, l, q') && Walks(n, q', l.from, l.to, k - 1);
  }

  lemma WalkOn(n: Node, q: Queue, from: nat, to: nat, k: nat, l: Record, q': Queue)
    requires GoesOnTo(n, q, from, to, l, q')
    ensures Walks(n, q', l.from, l.to, k) ==> Walks(n, q, from, to, k + 1)
  {
  }

  /** A call started in `s` can be cut off after `most` re-reads, with another one pending. */
  ghost predicate CanDie(n: Node, from: nat, to: nat, reread: bool, most: nat, s: State) {
    exists s': State :: Reads(n, from, to, true, reread, most, s, s', Died)
  }

  /** It can begin `k` re-reads. */
  ghost predicate Begins(n: Node, from: nat, to: nat, reread: bool, k: nat, s: State) {
    k == 0 || CanDie(n, from, to, reread, k - 1, s)
  }

  /** The re-reads of a call are a walk of its log. */
  lemma {:induction false} DiedWalks(n: Node, from: nat, to: nat, reread: bool, most: nat, s: State, s': State)
    requires Reads(n, from, to, true, reread, most, s, s', Died)
    ensures Walks(n, s.queue, from, to, most + 1)
    decreases most
  {
    DiedWrote(n, from, to, reread, most, s, s');
    var l, u := FailsLater(n, from, to, reread, most, s, s', Died);
    if most == 0 {
      var q' := SoftDeleteExists(s.queue + [Record(from, to, HashAt(n, to), false)], l.from, l.to);
      WalkOn(n, s.queue, from, to, 0, l, q');
    } else {
      DiedWalks(n, l.from, l.to, true, most - 1, u, s');
      WalkOn(n, s.queue, from, to, most, l, u.queue);
    }
  }

  lemma BeganWalked(n: Node, from: nat, to: nat, reread: bool, k: nat, s: State)
    ensures Begins(n, from, to, reread, k, s) ==> Walks(n, s.queue, from, to, k)
  {
    if 0 < k && Begins(n, from, to, reread, k, s) {
      var most := k - 1;
      var s': State :| Reads(n, from, to, true, reread, most, s, s', Died);
      DiedWalks(n, from, to, reread, most, s, s');
    }
  }

  lemma BeginsOne(n: Node, from: nat, to: nat, reread: bool, s: State, l: Record)
    requires Decodable(n, from, to + 1) && Writable(s.store, RangeEvents(n, from, to + 1), reread)
    requires IsLatest(s.queue, from, Some(l)) && Diverges(n, from, Some(l))
    ensures Begins(n, from, to, reread, 1, s)
  {
    var t := Logged(n, from, to, true, reread, s);
    LatestDecides(n, from, to, reread, 0, s, Some(l), t, t, Died);
  }

  lemma BeginsMore(n: Node, from: nat, to: nat, reread: bool, k: nat, s: State, l: Record, u: State)
    requires Decodable(n, from, to + 1) && Writable(s.store, RangeEvents(n, from, to + 1), reread)
    requires GoesOnTo(n, s.queue, from, to, l, u.queue)
      && u == Retired(Logged(n, from, to, true, reread, s), l, u.queue) && 0 < k
    ensures Begins(n, l.from, l.to, true, k - 1, u) ==> Begins(n, from, to, reread, k, s)
  {
    if k == 1 {
      BeginsOne(n, from, to, reread, s, l);
    } else {
      var most := k - 2;
      if s': State :| Reads(n, l.from, l.to, true, true, most, u, s', Died) {
        ReadsOn(n, from, to, reread, most, s, l, u.queue, s', Died);
      }
    }
  }

  lemma BeginsNext(n: Node, from: nat, to: nat, reread: bool, k: nat, s: State) returns (l: Record, u: State)
    requires Decodable(n, from, to + 1) && Writable(s.store, RangeEvents(n, from, to + 1), reread)
    requires 0 < k && Walks(n, s.queue, from, to, k)
    ensures Walks(n, u.queue, l.from, l.to, k - 1)
    ensures Begins(n, l.from, l.to, true, k - 1, u) ==> Begins(n, from, to, reread, k, s)
  {
    var q;
    l, q := WalkStep(n, s.queue, from, to, k);
    u := Retired(Logged(n, from, to, true, reread, s), l, q);
    BeginsMore(n, from, to, reread, k, s, l, u);
  }

  /** The walks of the log are those of the reader: with every log decodable and no id of its
      range taken, a call can begin `k` re-reads if and only if its log alone allows them. */
  lemma {:induction false} WalksIff(n: Node, from: nat, to: nat, reread: bool, k: nat, s: State)
    requires (forall b: nat :: DecodableBlock(n, b)) && Writable(s.store, RangeEvents(n, from, to + 1), reread)
    ensures Begins(n, from, to, reread, k, s) <==> Walks(n, s.queue, from, to, k)
    decreases k
  {
    BeganWalked(n, from, to, reread, k, s);
    if 0 < k && Walks(n, s.queue, from, to, k) {
      var l, u := BeginsNext(n, from, to, reread, k, s);
      WalksIff(n, l.from, l.to, true, k - 1, u);
    }
  }

  // ---- A re-read that leads back to itself ----

  /** A live record whose range is improper, and which has a soft-deleted twin, may be its
      own latest record: its re-read leads back to itself, adding a record each time. */
  lemma ImproperRangeLoops(n: Node, q: Queue, x: Record)
    requires x.to < x.from && !NoTwin(q, x.from, x.to) && IsLatest(q, x.from, Some(x)) && Diverges(n, x.from, Some(x))
    ensures
      var q' := q + [Record(x.from, x.to, HashAt(n, x.to), false)];
      GoesOnTo(n, q, x.from, x.to, x, q') && !NoTwin(q', x.from, x.to) && IsLatest(q', x.from, Some(x))
  {
    TwinAnswers(q, Record(x.from, x.to, HashAt(n, x.to), false), x);
  }

  /** So it need never end. */
  lemma {:induction false} LoopsForever(n: Node, q: Queue, x: Record, k: nat)
    requires x.to < x.from && !NoTwin(q, x.from, x.to) && IsLatest(q, x.from, Some(x)) && Diverges(n, x.from, Some(x))
    ensures Walks(n, q, x.from, x.to, k)
    decreases k
  {
    if 0 < k {
      var q' := q + [Record(x.from, x.to, HashAt(n, x.to), false)];
      ImproperRangeLoops(n, q, x);
      LoopsForever(n, q', x, k - 1);
      WalkOn(n, q, x.from, x.to, k - 1, x, q');
    }
  }

  // ---- Walks that end ----

  /** Every live record that ends below `from` is proper and ends at `to` or before. */
  ghost predicate TidyBelow(q: Queue, from: nat, to: nat) {
    forall y :: y in q && !y.isDeleted && y.to < from ==> y.from <= y.to <= to
  }

  /** A soft delete brings no record to life. */
  lemma LiveOnlyShrinks(q: Queue, from: nat, to: nat, q': Queue)
    requires SoftDeletes(q, from, to, q')
    ensures forall y :: y in q' && !y.isDeleted ==> y in q
  {
    forall y | y in q' && !y.isDeleted ensures y in q {
      var i :| 0 <= i < |q'| && q'[i] == y;
      assert q[i] == y;
    }
  }

  lemma StaysTidy(n: Node, q: Queue, from: nat, to: nat, l: Record, q': Queue)
    requires TidyBelow(q, from, to) && GoesOnTo(n, q, from, to, l, q')
    ensures l.from <= l.to < from && TidyBelow(q', l.from, l.to)
  {
    var r := Record(from, to, HashAt(n, to), false);
    LiveOnlyShrinks(q + [r], l.from, l.to, q');
    assert l in q;
    forall y | y in q' && !y.isDeleted && y.to < l.from ensures y.from <= y.to <= l.to {
      assert y in q || y == r;
    }
  }

  lemma TidyStep(n: Node, q: Queue, from: nat, to: nat, k: nat) returns (l: Record, q': Queue)
    requires TidyBelow(q, from, to) && 0 < k && Walks(n, q, from, to, k)
    ensures l.from < from && TidyBelow(q', l.from, l.to) && Walks(n, q', l.from, l.to, k - 1)
  {
    l, q' := WalkStep(n, q, from, to, k);
    StaysTidy(n, q, from, to, l, q');
  }

  /** Then each re-read starts lower than the one before. */
  lemma {:induction false} WalkBounded(n: Node, q: Queue, from: nat, to: nat, k: nat)
    requires TidyBelow(q, from, to) && from < k
    ensures !Walks(n, q, from, to, k)
    decreases k
  {
    if Walks(n, q, from, to, k) {
      var l, q' := TidyStep(n, q, from, to, k);
      WalkBounded(n, q', l.from, l.to, k - 1);
    }
  }

  /** Every live record but `x` is proper. */
  ghost predicate OthersProper(q: Queue, x: Record) {
    forall y :: y in q && !y.isDeleted && y != x ==> y.from <= y.to
  }

  /** If the re-read of `x` does not lead back to `x`, the log is proper below where it leads. */
  lemma LeadsElsewhere(n: Node, q: Queue, x: Record, q': Queue, l: Record, q'': Queue)
    requires x.to < x.from && IsLatest(q, x.from, Some(x)) && OthersProper(q, x)
    requires SoftDeletes(q, x.from, x.to, q') && GoesOnTo(n, q', x.from, x.to, l, q'') && l != x
    ensures l.from <= l.to <= x.to && TidyBelow(q'', l.from, l.to)
  {
    var r := Record(x.from, x.to, HashAt(n, x.to), false);
    LiveOnlyShrinks(q, x.from, x.to, q');
    LiveOnlyShrinks(q' + [r], l.from, l.to, q'');
    assert l in q';
    forall y | y in q'' && !y.isDeleted && y.to < l.from ensures y.from <= y.to <= l.to {
      assert y in q' || y == r;
    }
  }

  /** Without a twin the re-read retires `x`. */
  lemma RetiredNotLatest(q: Queue, x: Record, q': Queue, l: Record)
    requires OneLive(q, x) && NoTwin(q, x.from, x.to) && SoftDeletes(q, x.from, x.to, q')
    requires IsLatest(q', x.from, Some(l))
    ensures l != x
  {
    SoftDeleteRetires(q, x, q');
    LiveIn(q', x);
  }

  lemma NotBackToItself(n: Node, q: Queue, x: Record, q': Queue, l: Record, q'': Queue)
    requires OneLive(q, x) && SoftDeletes(q, x.from, x.to, q') && GoesOnTo(n, q', x.from, x.to, l, q'')
    requires NoTwin(q, x.from, x.to) || !Diverges(n, x.from, Some(x))
    ensures l != x
  {
    if NoTwin(q, x.from, x.to) {
      RetiredNotLatest(q, x, q', l);
    }
  }

  /** Wherever a read of the range of `x` leads, the log is tidy below. */
  ghost predicate Settles(n: Node, q: Queue, x: Record) {
    forall l: Record, q': Queue :: GoesOnTo(n, q, x.from, x.to, l, q') ==> l.from <= x.to && TidyBelow(q', l.from, l.to)
  }

  lemma SettledStep(n: Node, q: Queue, x: Record, k: nat) returns (l: Record, q': Queue)
    requires Settles(n, q, x) && 0 < k && Walks(n, q, x.from, x.to, k)
    ensures l.from <= x.to && TidyBelow(q', l.from, l.to) && Walks(n, q', l.from, l.to, k - 1)
  {
    l, q' := WalkStep(n, q, x.from, x.to, k);
  }

  lemma SettledBounded(n: Node, q: Queue, x: Record, k: nat)
    requires x.to < x.from < k && Settles(n, q, x)
    ensures !Walks(n, q, x.from, x.to, k)
  {
    if Walks(n, q, x.from, x.to, k) {
      var l, q' := SettledStep(n, q, x, k);
      WalkBounded(n, q', l.from, l.to, k - 1);
    }
  }

  lemma RereadSettles(n: Node, q: Queue, x: Record, q': Queue)
    requires x.to < x.from && OneLive(q, x) && IsLatest(q, x.from, Some(x)) && OthersProper(q, x)
    requires NoTwin(q, x.from, x.to) || !Diverges(n, x.from, Some(x))
    requires SoftDeletes(q, x.from, x.to, q')
    ensures Settles(n, q', x)
  {
    forall l: Record, q'': Queue | GoesOnTo(n, q', x.from, x.to, l, q'')
        ensures l.from <= x.to && TidyBelow(q'', l.from, l.to) {
      NotBackToItself(n, q, x, q', l, q'');
      LeadsElsewhere(n, q, x, q', l, q'');
    }
  }

  /** The re-read of `x` ends by itself unless it can lead back to `x`. */
  lemma ImproperWalkBounded(n: Node, q: Queue, x: Record, k: nat)
    requires x.to < x.from < k && OneLive(q, x) && IsLatest(q, x.from, Some(x)) && OthersProper(q, x)
    requires NoTwin(q, x.from, x.to) || !Diverges(n, x.from, Some(x))
    ensures !RereadWalks(n, q, x, k)
  {
    if q': Queue :| SoftDeletes(q, x.from, x.to, q') && Walks(n, q', x.from, x.to, k) {
      RereadSettles(n, q, x, q');
      SettledBounded(n, q', x, k);
    }
  }

  lemma TwinLeavesLog(q: Queue, from: nat, to: nat)
    requires !NoTwin(q, from, to)
    ensures SoftDeletes(q, from, to, q)
  {
    var k := TwinOf(q, from, to);
    assert q[k := q[k].(isDeleted := true)] == q;
  }

  /** Exactly when re-reading an improper range need never end: for every `k` some soft
      delete of its range is followed by `k` more re-reads if and only if the range has a
      soft-deleted twin and its record looks stale to its own re-read. Otherwise no more
      than `x.from` follow. */
  lemma ImproperWalkIff(n: Node, q: Queue, x: Record)
    requires x.to < x.from && OneLive(q, x) && IsLatest(q, x.from, Some(x)) && OthersProper(q, x)
    ensures (forall k: nat :: RereadWalks(n, q, x, k)) <==> !NoTwin(q, x.from, x.to) && Diverges(n, x.from, Some(x))
    ensures (forall k: nat :: RereadWalks(n, q, x, k)) || forall k: nat :: RereadWalks(n, q, x, k) ==> k <= x.from
  {
    if !NoTwin(q, x.from, x.to) && Diverges(n, x.from, Some(x)) {
      forall k: nat ensures RereadWalks(n, q, x, k) {
        TwinLeavesLog(q, x.from, x.to);
        LoopsForever(n, q, x, k);
      }
    } else {
      forall k: nat | x.from < k ensures !RereadWalks(n, q, x, k) {
        ImproperWalkBounded(n, q, x, k);
      }
      assert !RereadWalks(n, q, x, x.from + 1);
    }
  }
}
