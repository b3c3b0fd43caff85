/** The `blocks_queue` collection (src/shared/blocks-queue/repo.ts): the log of block
    ranges already read. Records are never removed, only flagged as deleted. */
module BlocksQueue {
  import opened Prelude
  import opened Ethnode

  datatype Record = Record(from: nat, to: nat, toHash: Option<Hash>, isDeleted: bool)

  type Queue = seq<Record>

  predicate Covers(r: Record, from: nat, to: nat) { r.from == from && r.to == to }

  /** `updateOne({from, to}, {isDeleted: true})`: some record of the range, whichever
      the database picks and whether or not it is deleted already. */
  ghost predicate SoftDeletes(q: Queue, from: nat, to: nat, q': Queue) {
    if exists i :: 0 <= i < |q| && Covers(q[i], from, to)
    then exists i :: 0 <= i < |q| && Covers(q[i], from, to) && q' == q[i := q[i].(isDeleted := true)]
    else q' == q
  }

  /** `findOne` of the live records ending below `to`, greatest end first; of several
      with the greatest end it may be any. */
  ghost predicate IsLatest(q: Queue, to: nat, r: Option<Record>) {
    match r
    case Some(x) => x in q && !x.isDeleted && x.to < to
        && forall y :: y in q && !y.isDeleted && y.to < to ==> y.to <= x.to
    case None => forall y :: y in q && !y.isDeleted ==> to <= y.to
  }

  /** The live records, counted. */
  ghost function Live(q: Queue): multiset<Record> {
    if q == [] then multiset{}
    else Live(q[..|q| - 1]) + (if q[|q| - 1].isDeleted then multiset{} else multiset{q[|q| - 1]})
  }

  /** Every record covers at least one block. */
  ghost predicate Proper(q: Queue) { forall r :: r in q ==> r.from <= r.to }

  class BlocksQueueRepo {
    var records: Queue

    constructor ()
      ensures records == []
    {
      records := [];
    }

    method SoftDelete(from: nat, to: nat)
      modifies this
      ensures SoftDeletes(old(records), from, to, records)
    {
      if i :| 0 <= i < |records| && Covers(records[i], from, to) {
        records := records[i := records[i].(isDeleted := true)];
      }
    }

    method Save(from: nat, to: nat, toHash: Option<Hash>)
      modifies this
      ensures records == old(records) + [Record(from, to, toHash, false)]
    {
      records := records + [Record(from, to, toHash, false)];
    }

    method GetLatest(to: nat) returns (r: Option<Record>)
      ensures IsLatest(records, to, r)
    {
      r := None;
      for i := 0 to |records|
        invariant IsLatest(records[..i], to, r)
      {
        var x := records[i];
        if !x.isDeleted && x.to < to && (r.None? || r.value.to <= x.to) {
          r := Some(x);
        }
        assert records[..i + 1] == records[..i] + [x];
      }
      assert records[..|records|] == records;
    }
  }

  // ---- Live records ----

  lemma {:induction false} LiveIn(q: Queue, r: Record)
    ensures r in Live(q) <==> r in q && !r.isDeleted
  {
    if q != [] {
      LiveIn(q[..|q| - 1], r);
      assert q == q[..|q| - 1] + [q[|q| - 1]];
    }
  }

  lemma LiveAppend(q: Queue, r: Record)
    ensures Live(q + [r]) == Live(q) + (if r.isDeleted then multiset{} else multiset{r})
  {
    assert (q + [r])[..|q|] == q;
  }

  /** Flagging a live record takes exactly that one out; flagging a deleted one changes
      nothing. */
  lemma {:induction false} LiveFlag(q: Queue, i: nat)
    requires i < |q|
    ensures Live(q[i := q[i].(isDeleted := true)]) == Live(q) - (if q[i].isDeleted then multiset{} else multiset{q[i]})
  {
    var q' := q[i := q[i].(isDeleted := true)];
    var k := |q| - 1;
    if i == k {
      assert q'[..k] == q[..k];
    } else {
      LiveFlag(q[..k], i);
      assert q'[..k] == q[..k][i := q[i].(isDeleted := true)];
      LiveIn(q[..k], q[i]);
      assert q[..k][i] == q[i];
    }
  }

  /** No record of this range has been soft-deleted before. */
  ghost predicate NoTwin(q: Queue, from: nat, to: nat) {
    forall r :: r in q && Covers(r, from, to) ==> !r.isDeleted
  }

  /** The range has one live record. */
  ghost predicate OneLive(q: Queue, l: Record) {
    Live(q)[l] == 1 && forall r :: r in q && !r.isDeleted && Covers(r, l.from, l.to) ==> r == l
  }

  /** Without a soft-deleted twin, a soft delete retires the live record of the range. */
  lemma SoftDeleteRetires(q: Queue, l: Record, q': Queue)
    requires OneLive(q, l) && NoTwin(q, l.from, l.to) && SoftDeletes(q, l.from, l.to, q')
    ensures Live(q') == Live(q) - multiset{l}
  {
    LiveIn(q, l);
    var k :| 0 <= k < |q| && q[k] == l;
    assert Covers(q[k], l.from, l.to);
    var i :| 0 <= i < |q| && Covers(q[i], l.from, l.to) && q' == q[i := q[i].(isDeleted := true)];
    assert q[i] in q;
    LiveFlag(q, i);
  }

  /** Exactly then: a soft delete is sure to retire the live record of its range,
      whichever matching record the database updates, if and only if the range has no
      soft-deleted twin. */
  lemma SoftDeleteSureIff(q: Queue, l: Record)
    requires OneLive(q, l)
    ensures (forall q' :: SoftDeletes(q, l.from, l.to, q') ==> l !in Live(q')) <==> NoTwin(q, l.from, l.to)
  {
    if NoTwin(q, l.from, l.to) {
      forall q' | SoftDeletes(q, l.from, l.to, q') ensures l !in Live(q') {
        SoftDeleteRetires(q, l, q');
      }
    } else {
      var r :| r in q && Covers(r, l.from, l.to) && r.isDeleted;
      var i :| 0 <= i < |q| && q[i] == r;
      assert Covers(q[i], l.from, l.to);
      LiveFlag(q, i);
      assert SoftDeletes(q, l.from, l.to, q[i := q[i].(isDeleted := true)]);
    }
  }

  /** Records of other ranges are untouched by a soft delete. */
  lemma SoftDeleteFrame(q: Queue, from: nat, to: nat, q': Queue)
    requires SoftDeletes(q, from, to, q')
    ensures |q'| == |q|
    ensures forall i :: 0 <= i < |q| ==> q'[i].from == q[i].from && q'[i].to == q[i].to && q'[i].toHash == q[i].toHash
    ensures forall i :: 0 <= i < |q| && !Covers(q[i], from, to) ==> q'[i] == q[i]
    ensures forall r :: !Covers(r, from, to) ==> (r in q' <==> r in q)
  {
    forall r | !Covers(r, from, to) ensures r in q' <==> r in q {
      if r in q {
        var i :| 0 <= i < |q| && q[i] == r;
        assert q'[i] == r;
      }
      if r in q' {
        var i :| 0 <= i < |q'| && q'[i] == r;
        assert q[i] == r;
      }
    }
  }
}
