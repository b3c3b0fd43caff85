/** When every range that calls of `read` log is also announced, those of the cascades
    included: any of them may die between a log entry and its message. */
module LiveAnnouncements {
  import opened Prelude
  import opened Ethnode
  import opened EventStore
  import opened BlocksQueue
  import opened Reader

  /** The ranges in the log, deleted or not, and those announced. */
  function Logs(q: Queue): seq<(nat, nat)> { seq(|q|, i requires 0 <= i < |q| => (q[i].from, q[i].to)) }

  function Messages(bus: seq<IndexBlockRange>): seq<(nat, nat)> {
    seq(|bus|, i requires 0 <= i < |bus| => (bus[i].blockFrom, bus[i].blockTo))
  }

  /** The state once the range is stored and logged, its message not yet sent. */
  function Unannounced(n: Node, from: nat, to: nat, reorg: bool, reread: bool, s: State): State {
    Logged(n, from, to, reorg, reread, s).(bus := s.bus)
  }

  /** A call started in `s` begins `most` re-reads, and dies in `s'` between the log entry of
      the last of them, or of its own range, and its message. */
  ghost predicate DiesSilent(n: Node, from: nat, to: nat, reorg: bool, reread: bool, most: nat, s: State, s': State)
    decreases most, 1
  {
    && Decodable(n, from, to + 1) && Writable(s.store, RangeEvents(n, from, to + 1), reread)
    && if most == 0 then s' == Unannounced(n, from, to, reorg, reread, s)
       else reorg && RereadDiesSilent(n, from, to, reread, most, s, s')
  }

  ghost predicate RereadDiesSilent(n: Node, from: nat, to: nat, reread: bool, most: nat, s: State, s': State)
    requires 0 < most
    decreases most, 0
  {
    exists l: Record, u: State ::
      RereadFollows(n, from, to, reread, s, l, u) && DiesSilent(n, l.from, l.to, true, true, most - 1, u, s')
  }

  /** Having logged and announced its range, the call goes on to re-read `l`, from state `u`. */
  ghost predicate RereadFollows(n: Node, from: nat, to: nat, reread: bool, s: State, l: Record, u: State) {
    var t := Logged(n, from, to, true, reread, s);
    && IsLatest(s.queue, from, Some(l)) && Diverges(n, from, Some(l))
    && SoftDeletes(t.queue, l.from, l.to, u.queue) && u == Retired(t, l, u.queue)
  }

  /** The parameters of one call. */
  datatype Params = Params(node: Node, from: nat, to: nat, reorg: bool, reread: bool, most: nat)

  /** What happens to the service: a call ends in one of the ways of `Reads`, dies silently, or
      something happens that touches neither the ranges in the log nor the bus: a resume, or a
      death in a write of events or after a soft delete. */
  datatype Happening = Call(p: Params, end: ReadEnd) | Silent(p: Params) | Other

  ghost predicate Happens(e: Happening, s: State, s': State) {
    match e
    case Call(p, end) => Reads(p.node, p.from, p.to, p.reorg, p.reread, p.most, s, s', end)
    case Silent(p) => DiesSilent(p.node, p.from, p.to, p.reorg, p.reread, p.most, s, s')
    case Other => Logs(s'.queue) == Logs(s.queue) && s'.bus == s.bus
  }

  ghost predicate HappensAt(es: seq<Happening>, ss: seq<State>, i: nat)
    requires i < |es| && |ss| == |es| + 1
  {
    Happens(es[i], ss[i], ss[i + 1])
  }

  ghost predicate History(es: seq<Happening>, ss: seq<State>) {
    && |ss| == |es| + 1 && Messages(ss[0].bus) == Logs(ss[0].queue)
    && forall i: nat {:trigger HappensAt(es, ss, i)} :: i < |es| ==> HappensAt(es, ss, i)
  }

  // ---- One call ----

  /** Both have grown by the same ranges. */
  ghost predicate GrewAlike(s: State, s': State) {
    exists more :: Logs(s'.queue) == Logs(s.queue) + more && Messages(s'.bus) == Messages(s.bus) + more
  }

  /** So they have, but for a last range that is logged and not announced. */
  ghost predicate GrewSilently(s: State, s': State) {
    exists more, x :: Logs(s'.queue) == Logs(s.queue) + more + [x] && Messages(s'.bus) == Messages(s.bus) + more
  }

  lemma LoggedGrows(n: Node, from: nat, to: nat, reorg: bool, reread: bool, s: State)
    ensures Logs(Logged(n, from, to, reorg, reread, s).queue) == Logs(s.queue) + [(from, to)]
    ensures Messages(Logged(n, from, to, reorg, reread, s).bus) == Messages(s.bus) + [(from, to)]
  {
  }

  /** A soft delete leaves the ranges in the log. */
  lemma SoftDeleteLogs(q: Queue, from: nat, to: nat, q': Queue)
    requires SoftDeletes(q, from, to, q')
    ensures Logs(q') == Logs(q)
  {
    SoftDeleteFrame(q, from, to, q');
  }

  lemma GrowsOn(a: seq<(nat, nat)>, x: (nat, nat), more: seq<(nat, nat)>)
    ensures (a + [x]) + more == a + ([x] + more)
  {
  }

  /** Range `x` has been logged and announced. */
  ghost predicate OneMore(s: State, u: State, x: (nat, nat)) {
    Logs(u.queue) == Logs(s.queue) + [x] && Messages(u.bus) == Messages(s.bus) + [x]
  }

  /** A range, then what the re-read adds. */
  lemma GrewTogether(s: State, u: State, s': State, x: (nat, nat))
    ensures OneMore(s, u, x) && GrewAlike(u, s') ==> GrewAlike(s, s')
  {
    if OneMore(s, u, x) && GrewAlike(u, s') {
      var more :| Logs(s'.queue) == Logs(u.queue) + more && Messages(s'.bus) == Messages(u.bus) + more;
      GrowsOn(Logs(s.queue), x, more);
      GrowsOn(Messages(s.bus), x, more);
    }
  }

  lemma GrewSilentlyTogether(s: State, u: State, s': State, x: (nat, nat))
    ensures OneMore(s, u, x) && GrewSilently(u, s') ==> GrewSilently(s, s')
  {
    if OneMore(s, u, x) && GrewSilently(u, s') {
      var more, y :| Logs(s'.queue) == Logs(u.queue) + more + [y] && Messages(s'.bus) == Messages(u.bus) + more;
      GrowsOn(Logs(s.queue), x, more);
      GrowsOn(Messages(s.bus), x, more);
    }
  }

  lemma RereadStart(n: Node, from: nat, to: nat, reread: bool, s: State, l: Record, u: State)
    ensures RereadFollows(n, from, to, reread, s, l, u) ==> OneMore(s, u, (from, to))
  {
    if RereadFollows(n, from, to, reread, s, l, u) {
      LoggedGrows(n, from, to, true, reread, s);
      SoftDeleteLogs(Logged(n, from, to, true, reread, s).queue, l.from, l.to, u.queue);
    }
  }

  lemma NothingGrew(s: State, s': State)
    requires Logs(s'.queue) == Logs(s.queue) && s'.bus == s.bus
    ensures GrewAlike(s, s')
  {
    assert Logs(s'.queue) == Logs(s.queue) + [] && Messages(s'.bus) == Messages(s.bus) + [];
  }

  /** The range is logged and announced. */
  lemma OneGrew(n: Node, from: nat, to: nat, reorg: bool, reread: bool, s: State)
    ensures GrewAlike(s, Logged(n, from, to, reorg, reread, s))
  {
    LoggedGrows(n, from, to, reorg, reread, s);
  }

  lemma WrittenCall(n: Node, from: nat, to: nat, reread: bool, most: nat, s: State, s': State, end: ReadEnd)
    returns (l: Record, u: State)
    requires Decodable(n, from, to + 1) && Writable(s.store, RangeEvents(n, from, to + 1), reread)
    requires Reads(n, from, to, true, reread, most, s, s', end)
    ensures GrewAlike(s, s') ||
      (0 < most && RereadFollows(n, from, to, reread, s, l, u)
        && Reads(n, l.from, l.to, true, true, most - 1, u, s', end))
  {
    var latest, t := FindLatest(n, from, to, reread, most, s, s', end);
    if Diverges(n, from, latest) && 0 < most {
      l := latest.value;
      var q := RereadReads(n, l, most - 1, t, s', end);
      u := Retired(t, l, q);
    } else {
      l, u := Record(from, to, None, false), s;
      OneGrew(n, from, to, true, reread, s);
    }
  }

  /** A call has announced all it logged, or ends as its re-read does. */
  lemma CallGoesOn(n: Node, from: nat, to: nat, reorg: bool, reread: bool, most: nat, s: State, s': State, end: ReadEnd)
    returns (l: Record, u: State)
    requires Reads(n, from, to, reorg, reread, most, s, s', end)
    ensures GrewAlike(s, s') ||
      (0 < most && OneMore(s, u, (from, to)) && Reads(n, l.from, l.to, true, true, most - 1, u, s', end))
  {
    l, u := Record(from, to, None, false), s;
    if !(Decodable(n, from, to + 1) && Writable(s.store, RangeEvents(n, from, to + 1), reread)) {
      NothingGrew(s, s');
    } else if reorg {
      l, u := WrittenCall(n, from, to, reread, most, s, s', end);
      RereadStart(n, from, to, reread, s, l, u);
    } else {
      OneGrew(n, from, to, false, reread, s);
    }
  }

  /** However a call ends, it has announced what it logged. */
  lemma {:induction false} CallAnnounces(n: Node, from: nat, to: nat, reorg: bool, reread: bool, most: nat,
                                         s: State, s': State, end: ReadEnd)
    ensures !Reads(n, from, to, reorg, reread, most, s, s', end) || GrewAlike(s, s')
    decreases most
  {
    if Reads(n, from, to, reorg, reread, most, s, s', end) {
      var l, u := CallGoesOn(n, from, to, reorg, reread, most, s, s', end);
      if !GrewAlike(s, s') {
        CallAnnounces(n, l.from, l.to, true, true, most - 1, u, s', end);
        GrewTogether(s, u, s', (from, to));
      }
    }
  }

  lemma SilentOne(n: Node, from: nat, to: nat, reorg: bool, reread: bool, s: State)
    ensures GrewSilently(s, Unannounced(n, from, to, reorg, reread, s))
  {
    var s' := Unannounced(n, from, to, reorg, reread, s);
    LoggedGrows(n, from, to, reorg, reread, s);
    assert Logs(s'.queue) == Logs(s.queue) + [] + [(from, to)] && Messages(s'.bus) == Messages(s.bus) + [];
  }

  lemma SilentGoesOn(n: Node, from: nat, to: nat, reorg: bool, reread: bool, most: nat, s: State, s': State)
    returns (l: Record, u: State)
    requires DiesSilent(n, from, to, reorg, reread, most, s, s') && 0 < most
    ensures OneMore(s, u, (from, to)) && DiesSilent(n, l.from, l.to, true, true, most - 1, u, s')
  {
    assert RereadDiesSilent(n, from, to, reread, most, s, s');
    l, u :| RereadFollows(n, from, to, reread, s, l, u) && DiesSilent(n, l.from, l.to, true, true, most - 1, u, s');
    RereadStart(n, from, to, reread, s, l, u);
  }

  /** One that dies silently has announced all it logged but the last range. */
  lemma {:induction false} SilentLoses(n: Node, from: nat, to: nat, reorg: bool, reread: bool, most: nat, s: State,
                                       s': State)
    ensures !DiesSilent(n, from, to, reorg, reread, most, s, s') || GrewSilently(s, s')
    decreases most
  {
    if DiesSilent(n, from, to, reorg, reread, most, s, s') {
      if most == 0 {
        SilentOne(n, from, to, reorg, reread, s);
      } else {
        var l, u := SilentGoesOn(n, from, to, reorg, reread, most, s, s');
        SilentLoses(n, l.from, l.to, true, true, most - 1, u, s');
        GrewSilentlyTogether(s, u, s', (from, to));
      }
    }
  }

  // ---- Histories ----

  lemma EventGrows(e: Happening, s: State, s': State)
    requires Happens(e, s, s')
    ensures if e.Silent? then GrewSilently(s, s') else GrewAlike(s, s')
  {
    match e
    case Call(p, end) => CallAnnounces(p.node, p.from, p.to, p.reorg, p.reread, p.most, s, s', end);
    case Silent(p) => SilentLoses(p.node, p.from, p.to, p.reorg, p.reread, p.most, s, s');
    case Other => NothingGrew(s, s');
  }

  ghost predicate SilentBy(es: seq<Happening>, i: nat) { exists k :: 0 <= k < i && k < |es| && es[k].Silent? }

  lemma {:induction false} AlikeOrBehind(es: seq<Happening>, ss: seq<State>, i: nat)
    requires History(es, ss) && i <= |es|
    ensures !SilentBy(es, i) ==> Messages(ss[i].bus) == Logs(ss[i].queue)
    ensures |Messages(ss[i].bus)| + (if SilentBy(es, i) then 1 else 0) <= |Logs(ss[i].queue)|
  {
    if 0 < i {
      AlikeOrBehind(es, ss, i - 1);
      assert HappensAt(es, ss, i - 1);
      EventGrows(es[i - 1], ss[i - 1], ss[i]);
      assert !SilentBy(es, i) ==> !SilentBy(es, i - 1) && !es[i - 1].Silent?;
    }
  }

  lemma SameRanges(bus: seq<IndexBlockRange>, q: Queue)
    ensures Messages(bus) == Logs(q) <==>
      |bus| == |q| && forall k :: 0 <= k < |bus| ==> bus[k].blockFrom == q[k].from && bus[k].blockTo == q[k].to
  {
    if Messages(bus) == Logs(q) {
      assert |Messages(bus)| == |Logs(q)|;
      forall k | 0 <= k < |bus| ensures bus[k].blockFrom == q[k].from && bus[k].blockTo == q[k].to {
        assert Messages(bus)[k] == Logs(q)[k];
      }
    }
  }

  /** Over any history of calls, live or not, with any reorgs, restarts and deaths, the ranges
      announced are the ranges logged, in order, if and only if no call or re-read ever died
      between a log entry and its message. Nothing makes up for a lost one. */
  lemma CallsAnnouncedIff(es: seq<Happening>, ss: seq<State>, i: nat)
    requires History(es, ss) && i <= |es|
    ensures Messages(ss[i].bus) == Logs(ss[i].queue) <==> !SilentBy(es, i)
    ensures Messages(ss[i].bus) == Logs(ss[i].queue) <==>
      |ss[i].bus| == |ss[i].queue| &&
      forall k :: 0 <= k < |ss[i].bus| ==>
        ss[i].bus[k].blockFrom == ss[i].queue[k].from && ss[i].bus[k].blockTo == ss[i].queue[k].to
  {
    AlikeOrBehind(es, ss, i);
    SameRanges(ss[i].bus, ss[i].queue);
  }
}
