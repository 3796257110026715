/**
 The agent with the two releases of a finished task in the wrong order: the claim first and
 the reservation after it. It is not the agent's code; it shows what the order is for.
 */
module HastyRelease {
  import opened DiskLedger

  datatype Phase =
    | Admitted(amount: nat)
    | Added(amount: nat)
    | Reserved(amount: nat)
    | Removed(amount: nat)
    | Done

  /** A task, and whether it still has its claim. */
  datatype Task = Task(id: nat, claimed: bool, phase: Phase)

  /** Tasks are named by tokens here, since two of them may have the same id. */
  datatype State = State(claims: set<nat>, tasks: map<nat, Task>, ledger: Ledger)

  datatype Action =
    | Begin(token: nat, id: nat, amount: nat)
    | AddTotal(token: nat)
    | PutEntry(token: nat)
    | Unclaim(token: nat)
    | DelEntry(token: nat)
    | SubTotal(token: nat)
    | End(token: nat)

  predicate Enabled(s: State, a: Action) {
    if a.Begin? then a.token !in s.tasks && a.id !in s.claims
    else
      a.token in s.tasks &&
      var t := s.tasks[a.token];
      match a
      case AddTotal(_) => t.phase.Admitted?
      case PutEntry(_) => t.phase.Added?
      case Unclaim(_) => t.phase.Reserved? && t.claimed
      case DelEntry(_) => t.phase.Reserved? && !t.claimed
      case SubTotal(_) => t.phase.Removed?
      case End(_) => t.phase.Done?
  }

  function Now(s: State, token: nat, p: Phase, l: Ledger): State
    requires token in s.tasks
  {
    s.(tasks := s.tasks[token := s.tasks[token].(phase := p)], ledger := l)
  }

  function Do(s: State, a: Action): State
    requires Enabled(s, a)
  {
    match a
    case Begin(token, id, n) =>
      s.(claims := s.claims + {id}, tasks := s.tasks[token := Task(id, true, Admitted(n))])
    case AddTotal(token) =>
      var n := s.tasks[token].phase.amount;
      Now(s, token, Added(n), Add(s.ledger, n))
    case PutEntry(token) =>
      var n := s.tasks[token].phase.amount;
      Now(s, token, Reserved(n), Put(s.ledger, s.tasks[token].id, n))
    case Unclaim(token) =>
      s.(claims := s.claims - {s.tasks[token].id}, tasks := s.tasks[token := s.tasks[token].(claimed := false)])
    case DelEntry(token) =>
      var id := s.tasks[token].id;
      if id in s.ledger.entries
      then Now(s, token, Removed(s.ledger.entries[id]), Del(s.ledger, id))
      else Now(s, token, Done, s.ledger)
    case SubTotal(token) => Now(s, token, Done, Add(s.ledger, 0 - s.tasks[token].phase.amount))
    case End(token) => s.(tasks := s.tasks - {token})
  }

  /** The actions lead from one state to the other, each enabled in its turn. */
  predicate Leads(s: State, acts: seq<Action>, x: State)
    decreases |acts|
  {
    if acts == [] then s == x
    else Enabled(s, acts[0]) && Leads(Do(s, acts[0]), acts[1..], x)
  }

  lemma {:induction false} LeadsOn(s: State, a: seq<Action>, x: State, b: seq<Action>, y: State)
    requires Leads(s, a, x) && Leads(x, b, y)
    ensures Leads(s, a + b, y)
    decreases |a|
  {
    if a == [] {
      assert a + b == b;
    } else {
      assert (a + b)[1..] == a[1..] + b;
      LeadsOn(Do(s, a[0]), a[1..], x, b, y);
    }
  }

  /** A task claims, reserves and gives its claim back. */
  lemma ReservesAndUnclaims(s: State, token: nat, id: nat, n: nat) returns (acts: seq<Action>)
    requires token !in s.tasks && id !in s.claims
    ensures Leads(s, acts, State(s.claims, s.tasks[token := Task(id, false, Reserved(n))],
                                 Reserve(s.ledger, id, n)))
  {
    var s1 := Do(s, Begin(token, id, n));
    var s2 := Do(s1, AddTotal(token));
    var s3 := Do(s2, PutEntry(token));
    LeadsOn(s, [Begin(token, id, n)], s1, [AddTotal(token)], s2);
    acts := [Begin(token, id, n)] + [AddTotal(token)];
    LeadsOn(s, acts, s2, [PutEntry(token)], s3);
    acts := acts + [PutEntry(token)];
    LeadsOn(s, acts, s3, [Unclaim(token)], Do(s3, Unclaim(token)));
    acts := acts + [Unclaim(token)];
    assert Do(s3, Unclaim(token)) ==
           State(s.claims, s.tasks[token := Task(id, false, Reserved(n))], Reserve(s.ledger, id, n));
  }

  /** A task without its claim releases what the map holds under its id, and ends. */
  lemma ReleasesAndEnds(s: State, token: nat) returns (acts: seq<Action>)
    requires token in s.tasks && s.tasks[token].phase.Reserved? && !s.tasks[token].claimed
    ensures Leads(s, acts, State(s.claims, s.tasks - {token}, Release(s.ledger, s.tasks[token].id)))
  {
    var id := s.tasks[token].id;
    var s1 := Do(s, DelEntry(token));
    acts := [DelEntry(token)];
    var s2 := s1;
    if id in s.ledger.entries {
      s2 := Do(s1, SubTotal(token));
      LeadsOn(s, acts, s1, [SubTotal(token)], s2);
      acts := acts + [SubTotal(token)];
    }
    LeadsOn(s, acts, s2, [End(token)], Do(s2, End(token)));
    acts := acts + [End(token)];
    assert Do(s2, End(token)).tasks == s.tasks - {token};
  }

  /**
   Why ReleaseDisk comes before the release of the claim: with the order reversed some run
   of two tasks for one request ends with no task and no claim, and the first amount in the
   total for good. In the right order that is impossible, by TaskRuns.IdleMeansZero.
   */
  lemma ReleasedTooEarlyLeaks(id: nat, a: nat, b: nat) returns (acts: seq<Action>)
    requires a < TWO63
    ensures Leads(State({}, map[], Ledger(0, map[])), acts, State({}, map[], Ledger(a, map[])))
  {
    var s := State({}, map[], Ledger(0, map[]));
    var t0, t1 := Task(id, false, Reserved(a)), Task(id, false, Reserved(b));
    var l1 := Reserve(s.ledger, id, a);
    var l2 := Reserve(l1, id, b);
    var l3 := Release(l2, id);
    var s1, s2 := State({}, map[0 := t0], l1), State({}, map[0 := t0, 1 := t1], l2);
    var s3, s4 := State({}, map[1 := t1], l3), State({}, map[], Release(l3, id));
    acts := ReservesAndUnclaims(s, 0, id, a);
    assert s.tasks[0 := t0] == s1.tasks;
    var more := ReservesAndUnclaims(s1, 1, id, b);
    assert s1.tasks[1 := t1] == s2.tasks;
    LeadsOn(s, acts, s1, more, s2);
    acts := acts + more;
    more := ReleasesAndEnds(s2, 0);
    assert s2.tasks - {0} == s3.tasks;
    LeadsOn(s, acts, s2, more, s3);
    acts := acts + more;
    more := ReleasesAndEnds(s3, 1);
    assert s3.tasks - {1} == s4.tasks;
    LeadsOn(s, acts, s3, more, s4);
    acts := acts + more;
    SecondReserveLeaks(s.ledger, id, a, b);
    WrapInRange(a);
  }
}
