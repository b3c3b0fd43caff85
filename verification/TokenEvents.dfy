/** What a call of the token processor leaves, read off its events alone: which token and
    contract each event asks for, with which fields, and what is announced of it. */
module TokenEvents {
  import opened Prelude
  import opened Ethnode
  import opened TokenTasks
  import opened TokenProcessor
  import opened TokenFaults

  /** The event moves token `id` of contract `c`. */
  predicate Moves(e: Event, c: Address, id: string) { e.contractAddress == c && id in e.ids }

  /** Event `i` is the first to move the token. */
  ghost predicate FirstMoves(es: seq<Event>, i: nat, c: Address, id: string) {
    i < |es| && Moves(es[i], c, id) && forall j :: 0 <= j < i ==> !Moves(es[j], c, id)
  }

  /** Event `i` is the first of the contract. */
  ghost predicate FirstOf(es: seq<Event>, i: nat, c: Address) {
    i < |es| && es[i].contractAddress == c && forall j :: 0 <= j < i ==> es[j].contractAddress != c
  }

  // ---- The first candidate of a key ----

  lemma {:induction false} FirstTokenOf(e: Event, k: nat, c: Address, id: string)
    requires k <= |e.ids|
    ensures First(TokenTasksOf(e, k), TokenKey(c, id)) ==
      if e.contractAddress == c && id in e.ids[..k]
      then Some(Task(TokenKey(c, id), TokenRow(e.from, e.blockNumber),
        Message(TokenKey(c, id), e.standard, e.blockNumber)))
      else None
  {
    if 0 < k {
      FirstTokenOf(e, k - 1, c, id);
      assert e.ids[..k] == e.ids[..k - 1] + [e.ids[k - 1]];
      FirstConcat(TokenTasksOf(e, k - 1), [TokenTask(e, e.ids[k - 1])], TokenKey(c, id));
    }
  }

  lemma {:induction false} NoContractAmong(e: Event, k: nat, c: Address)
    requires k <= |e.ids|
    ensures First(TokenTasksOf(e, k), ContractKey(c)) == None
  {
    if 0 < k {
      NoContractAmong(e, k - 1, c);
      FirstConcat(TokenTasksOf(e, k - 1), [TokenTask(e, e.ids[k - 1])], ContractKey(c));
    }
  }

  lemma FirstOne(t: Task, key: Key)
    ensures First([t], key) == if t.key == key then Some(t) else None
  {
    assert [t][..0] == [];
  }

  /** What one event asks for of a key. */
  lemma FirstOfEvent(e: Event, key: Key)
    ensures First([ContractTask(e)] + TokenTasksOf(e, |e.ids|), key) ==
      match key
      case ContractKey(c) =>
        if e.contractAddress == c
        then Some(Task(key, ContractRow(e.standard, e.blockNumber), Message(key, e.standard, e.blockNumber))) else None
      case TokenKey(c, id) =>
        if Moves(e, c, id)
        then Some(Task(key, TokenRow(e.from, e.blockNumber), Message(key, e.standard, e.blockNumber))) else None
  {
    FirstConcat([ContractTask(e)], TokenTasksOf(e, |e.ids|), key);
    FirstOne(ContractTask(e), key);
    match key
    case ContractKey(c) => NoContractAmong(e, |e.ids|, c);
    case TokenKey(c, id) =>
      FirstTokenOf(e, |e.ids|, c, id);
      assert e.ids[..|e.ids|] == e.ids;
  }

  lemma FirstUnfold(es: seq<Event>, key: Key)
    requires es != []
    ensures var init, e := es[..|es| - 1], es[|es| - 1];
      First(Candidates(es), key) ==
      if First(Candidates(init), key).Some? then First(Candidates(init), key)
      else First([ContractTask(e)] + TokenTasksOf(e, |e.ids|), key)
  {
    var init, e := es[..|es| - 1], es[|es| - 1];
    FirstConcat(Candidates(init), [ContractTask(e)] + TokenTasksOf(e, |e.ids|), key);
  }

  /** A token is asked for by the first event that moves it. */
  lemma {:induction false} FirstToken(es: seq<Event>, c: Address, id: string) returns (i: nat)
    ensures if FirstMoves(es, i, c, id)
      then First(Candidates(es), TokenKey(c, id)) ==
           Some(Task(TokenKey(c, id), TokenRow(es[i].from, es[i].blockNumber),
                     Message(TokenKey(c, id), es[i].standard, es[i].blockNumber)))
      else First(Candidates(es), TokenKey(c, id)) == None && forall j :: 0 <= j < |es| ==> !Moves(es[j], c, id)
  {
    i := 0;
    if es != [] {
      var init := es[..|es| - 1];
      i := FirstToken(init, c, id);
      FirstUnfold(es, TokenKey(c, id));
      FirstOfEvent(es[|es| - 1], TokenKey(c, id));
      if !FirstMoves(init, i, c, id) {
        i := |init|;
        assert forall j :: 0 <= j < |init| ==> init[j] == es[j];
      }
    }
  }

  /** A contract by its first event. */
  lemma {:induction false} FirstContract(es: seq<Event>, c: Address) returns (i: nat)
    ensures if FirstOf(es, i, c)
      then First(Candidates(es), ContractKey(c)) ==
           Some(Task(ContractKey(c), ContractRow(es[i].standard, es[i].blockNumber),
                     Message(ContractKey(c), es[i].standard, es[i].blockNumber)))
      else First(Candidates(es), ContractKey(c)) == None && forall j :: 0 <= j < |es| ==> es[j].contractAddress != c
  {
    i := 0;
    if es != [] {
      var init := es[..|es| - 1];
      i := FirstContract(init, c);
      FirstUnfold(es, ContractKey(c));
      FirstOfEvent(es[|es| - 1], ContractKey(c));
      if !FirstOf(init, i, c) {
        i := |init|;
        assert forall j :: 0 <= j < |init| ==> init[j] == es[j];
      }
    }
  }

  // ---- What a call with failures leaves of a key ----

  lemma OutcomeTableAt(p: Provider, es: seq<Event>, f: Faults, key: Key)
    ensures
      var t, first := Outcome(p, es, f).table, First(Candidates(es), key);
      && (key in t <==> key in p.table || (key !in p.seen && key !in f.write && first.Some?))
      && (key in t ==> t[key] == if key in p.table then p.table[key] else first.value.row)
  {
    var plan := Plan(p.seen, es);
    var kept, first := Without(plan, f.write), First(Candidates(es), key);
    PlanIsNew(p.seen, es);
    WithoutIn(plan, f.write);
    WithoutDistinct(plan, f.write);
    StoredAt(p.table, kept, key);
    FirstIn(Candidates(es), key);
    if first.Some? {
      StartedIffFirst(Candidates(es), p.seen, first.value);
    }
    if key in Keys(kept) {
      var t :| t in kept && t.key == key;
      StartedIffFirst(Candidates(es), p.seen, t);
    }
  }

  lemma OutcomeSentAt(p: Provider, es: seq<Event>, f: Faults, m: Message)
    ensures
      var first := First(Candidates(es), m.key);
      Outcome(p, es, f).bus[m] == p.bus[m] +
        if m.key !in p.seen && m.key !in f.write && m.key !in f.send && first.Some? && first.value.message == m
           && Announces(first.value, p.table) then 1 else 0
  {
    var first := First(Candidates(es), m.key);
    OutcomeSent(p, es, f, m);
    PlanIsNew(p.seen, es);
    FirstIn(Candidates(es), m.key);
    if first.Some? {
      StartedIffFirst(Candidates(es), p.seen, first.value);
      if first.value.message == m && m.key !in p.seen && Announces(first.value, p.table) && m.key !in f.write + f.send {
        assert SentBy(p, es, f, m, first.value);
      }
    }
    if t :| SentBy(p, es, f, m, t) {
      StartedIffFirst(Candidates(es), p.seen, t);
    }
  }

  // ---- Tokens ----

  lemma FirstMovesOnce(es: seq<Event>, i: nat, j: nat, c: Address, id: string)
    requires FirstMoves(es, i, c, id) && FirstMoves(es, j, c, id)
    ensures i == j
  {
  }

  /** A token is in the table afterwards exactly if it was before, or an event moves it and
      its write does not throw. */
  lemma TokenStoredIff(p: Provider, es: seq<Event>, f: Faults, c: Address, id: string)
    requires OnlyContracts(p.seen)
    ensures TokenKey(c, id) in Outcome(p, es, f).table <==>
      TokenKey(c, id) in p.table ||
      (TokenKey(c, id) !in f.write && exists i :: 0 <= i < |es| && es[i].contractAddress == c && id in es[i].ids)
  {
    var i := FirstToken(es, c, id);
    OutcomeTableAt(p, es, f, TokenKey(c, id));
    if FirstMoves(es, i, c, id) {
      assert es[i].contractAddress == c && id in es[i].ids;
    } else if j :| 0 <= j < |es| && es[j].contractAddress == c && id in es[j].ids {
      assert Moves(es[j], c, id);
    }
  }

  /** Its fields and its one message are those of the first event that moves it. */
  lemma NewTokenIs(p: Provider, es: seq<Event>, f: Faults, c: Address, id: string, i: nat, m: Message)
    requires OnlyContracts(p.seen) && TokenKey(c, id) !in p.table && m.key == TokenKey(c, id)
    requires TokenKey(c, id) !in f.write
    requires i < |es| && es[i].contractAddress == c && id in es[i].ids
    requires forall j :: 0 <= j < i ==> !(es[j].contractAddress == c && id in es[j].ids)
    ensures TokenKey(c, id) in Outcome(p, es, f).table
    ensures Outcome(p, es, f).table[TokenKey(c, id)] == TokenRow(es[i].from, es[i].blockNumber)
    ensures Outcome(p, es, f).bus[m] ==
      p.bus[m] +
      if m == Message(TokenKey(c, id), es[i].standard, es[i].blockNumber) && TokenKey(c, id) !in f.send then 1 else 0
  {
    var j := FirstToken(es, c, id);
    assert FirstMoves(es, i, c, id);
    assert Moves(es[i], c, id);
    FirstMovesOnce(es, i, j, c, id);
    OutcomeTableAt(p, es, f, TokenKey(c, id));
    OutcomeSentAt(p, es, f, m);
  }

  /** A token stored before, or moved by no event, or whose write throws, is left as it is and
      not announced. */
  lemma OldTokenStays(p: Provider, es: seq<Event>, f: Faults, c: Address, id: string, m: Message)
    requires OnlyContracts(p.seen) && m.key == TokenKey(c, id)
    requires TokenKey(c, id) in p.table || TokenKey(c, id) in f.write
      || forall i :: 0 <= i < |es| ==> !(es[i].contractAddress == c && id in es[i].ids)
    ensures Outcome(p, es, f).bus[m] == p.bus[m]
    ensures TokenKey(c, id) in p.table ==>
      TokenKey(c, id) in Outcome(p, es, f).table && Outcome(p, es, f).table[TokenKey(c, id)] == p.table[TokenKey(c, id)]
  {
    var i := FirstToken(es, c, id);
    OutcomeTableAt(p, es, f, TokenKey(c, id));
    OutcomeSentAt(p, es, f, m);
  }

  // ---- Contracts ----

  lemma FirstOfOnce(es: seq<Event>, i: nat, j: nat, c: Address)
    requires FirstOf(es, i, c) && FirstOf(es, j, c)
    ensures i == j
  {
  }

  /** A contract is in the table afterwards exactly if it was before, or the provider had
      not met it, it has an event and its write does not throw. */
  lemma ContractStoredIff(p: Provider, es: seq<Event>, f: Faults, c: Address)
    ensures ContractKey(c) in Outcome(p, es, f).table <==>
      ContractKey(c) in p.table ||
      (ContractKey(c) !in p.seen && ContractKey(c) !in f.write
        && exists i :: 0 <= i < |es| && es[i].contractAddress == c)
  {
    var i := FirstContract(es, c);
    OutcomeTableAt(p, es, f, ContractKey(c));
    if FirstOf(es, i, c) {
      assert es[i].contractAddress == c;
    }
  }

  /** A contract the provider had not met: its fields, if it is new to the table, and its one
      message are those of its first event. */
  lemma NewContractIs(p: Provider, es: seq<Event>, f: Faults, c: Address, i: nat, m: Message)
    requires ContractKey(c) !in p.seen && ContractKey(c) !in f.write && m.key == ContractKey(c)
    requires i < |es| && es[i].contractAddress == c && forall j :: 0 <= j < i ==> es[j].contractAddress != c
    ensures ContractKey(c) in Outcome(p, es, f).table
    ensures Outcome(p, es, f).table[ContractKey(c)] ==
      if ContractKey(c) in p.table then p.table[ContractKey(c)] else ContractRow(es[i].standard, es[i].blockNumber)
    ensures Outcome(p, es, f).bus[m] ==
      p.bus[m] +
      if m == Message(ContractKey(c), es[i].standard, es[i].blockNumber) && ContractKey(c) !in f.send then 1 else 0
  {
    var j := FirstContract(es, c);
    assert FirstOf(es, i, c);
    FirstOfOnce(es, i, j, c);
    OutcomeTableAt(p, es, f, ContractKey(c));
    OutcomeSentAt(p, es, f, m);
  }

  /** A contract met before, or without an event, or whose write throws, is left as it is and
      not announced. */
  lemma OldContractStays(p: Provider, es: seq<Event>, f: Faults, c: Address, m: Message)
    requires m.key == ContractKey(c)
    requires ContractKey(c) in p.seen || ContractKey(c) in f.write
      || forall i :: 0 <= i < |es| ==> es[i].contractAddress != c
    ensures Outcome(p, es, f).bus[m] == p.bus[m]
    ensures ContractKey(c) in p.table ==>
      ContractKey(c) in Outcome(p, es, f).table && Outcome(p, es, f).table[ContractKey(c)] == p.table[ContractKey(c)]
  {
    var i := FirstContract(es, c);
    OutcomeTableAt(p, es, f, ContractKey(c));
    OutcomeSentAt(p, es, f, m);
  }

  /** The contracts the provider has met are those it had and those with an event. */
  lemma MetIff(p: Provider, es: seq<Event>, f: Faults, key: Key)
    ensures key in Outcome(p, es, f).seen <==>
      key in p.seen || exists i :: 0 <= i < |es| && key == ContractKey(es[i].contractAddress)
  {
    if e :| e in es && key == ContractKey(e.contractAddress) {
      var i :| 0 <= i < |es| && es[i] == e;
    }
  }
}
