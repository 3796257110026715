/**
 Tasks and the disk ledger as a concurrent protocol: claim, pre-flight check, the two
 halves of ReserveDisk, the two halves of ReleaseDisk, and the release of the claim, in any
 interleaving of any number of tasks.
 */
module TaskRuns {
  import opened Wrappers
  import opened DiskLedger

  /** The set behind claimTask and releaseTask. */
  class ActiveTasks {
    var active: set<nat>

    constructor ()
      ensures active == {}
    {
      active := {};
    }

    /** Only one claimer of an id succeeds until it is released. */
    method ClaimTask(id: nat) returns (ok: bool)
      modifies this
      ensures ok <==> id !in old(active)
      ensures active == old(active) + {id}
    {
      if id in active {
        return false;
      }
      active := active + {id};
      ok := true;
    }

    method ReleaseTask(id: nat)
      modifies this
      ensures active == old(active) - {id}
    {
      active := active - {id};
    }
  }

  datatype Phase =
    | Fresh
    | Refused
    | Admitted(amount: nat)
    | Added(amount: nat)
    | Reserved(amount: nat)
    | Removed(amount: nat)
    | Done

  datatype State = State(tasks: map<nat, Phase>, ledger: Ledger)

  /** `budget` is what a check measured, None when it could not. */
  datatype Action =
    | Claim(id: nat)
    | Skip(id: nat)
    | Check(id: nat, required: nat, budget: Option<nat>)
    | AddTotal(id: nat)
    | PutEntry(id: nat)
    | DelEntry(id: nat)
    | SubTotal(id: nat)
    | Leave(id: nat)

  predicate Enabled(s: State, a: Action) {
    match a
    case Claim(_) => true
    case Skip(id) => id in s.tasks && s.tasks[id].Fresh?
    case Check(id, required, budget) => id in s.tasks && s.tasks[id].Fresh? && (budget.Some? ==> budget.value < TWO63)
    case AddTotal(id) => id in s.tasks && s.tasks[id].Admitted?
    case PutEntry(id) => id in s.tasks && s.tasks[id].Added?
    case DelEntry(id) => id in s.tasks && (s.tasks[id].Fresh? || s.tasks[id].Refused? || s.tasks[id].Reserved?)
    case SubTotal(id) => id in s.tasks && s.tasks[id].Removed?
    case Leave(id) => id in s.tasks && s.tasks[id].Done?
  }

  /** A check that cannot measure admits the task; otherwise the effective space must suffice. */
  predicate Passes(reserved: int, required: nat, budget: Option<nat>) {
    budget.Some? ==> Effective(budget.value, reserved) >= required
  }

  function Enter(s: State, id: nat, p: Phase): State { s.(tasks := s.tasks[id := p]) }

  function Do(s: State, a: Action): State
    requires Enabled(s, a)
  {
    match a
    case Claim(id) => if id in s.tasks then s else Enter(s, id, Fresh)
    case Skip(id) => Enter(s, id, Done)
    case Check(id, required, budget) =>
      Enter(s, id, if Passes(s.ledger.total, required, budget) then Admitted(required) else Refused)
    case AddTotal(id) =>
      var n := s.tasks[id].amount;
      Enter(s, id, Added(n)).(ledger := Add(s.ledger, n))
    case PutEntry(id) =>
      var n := s.tasks[id].amount;
      Enter(s, id, Reserved(n)).(ledger := Put(s.ledger, id, n))
    case DelEntry(id) =>
      if id in s.ledger.entries
      then Enter(s, id, Removed(s.ledger.entries[id])).(ledger := Del(s.ledger, id))
      else Enter(s, id, Done)
    case SubTotal(id) => Enter(s, id, Done).(ledger := Add(s.ledger, 0 - s.tasks[id].amount))
    case Leave(id) => s.(tasks := s.tasks - {id})
  }

  const START := State(map[], Ledger(0, map[]))

  // ------------------------------------------------------------------- sums

  ghost function Sum(m: map<nat, int>): int
    decreases |m|
  {
    if m == map[] then 0 else
      var k :| k in m;
      assert |m - {k}| < |m| by { assert m.Keys == (m - {k}).Keys + {k}; }
      m[k] + Sum(m - {k})
  }

  /** Any key may be taken out first. */
  lemma {:induction false} SumOut(m: map<nat, int>, k: nat)
    requires k in m
    ensures Sum(m) == m[k] + Sum(m - {k})
    decreases |m|
  {
    var j :| j in m && Sum(m) == m[j] + Sum(m - {j});
    if j != k {
      assert |m - {j}| < |m| by { assert m.Keys == (m - {j}).Keys + {j}; }
      assert |m - {k}| < |m| by { assert m.Keys == (m - {k}).Keys + {k}; }
      SumOut(m - {j}, k);
      SumOut(m - {k}, j);
      assert m - {j} - {k} == m - {k} - {j};
    }
  }

  lemma SumSet(m: map<nat, int>, k: nat, x: int)
    ensures Sum(m[k := x]) == Sum(m) + x - if k in m then m[k] else 0
  {
    SumOut(m[k := x], k);
    assert m[k := x] - {k} == m - {k};
    if k in m { SumOut(m, k); } else { assert m - {k} == m; }
  }

  lemma {:induction false} SumNonNegative(m: map<nat, int>)
    requires forall k :: k in m ==> m[k] >= 0
    ensures Sum(m) >= 0
    decreases |m|
  {
    if m != map[] {
      var k :| k in m;
      SumOut(m, k);
      assert |m - {k}| < |m| by { assert m.Keys == (m - {k}).Keys + {k}; }
      SumNonNegative(m - {k});
    }
  }

  // -------------------------------------------------------------- invariant

  /** What a task has in the total. */
  function Share(p: Phase): nat {
    match p case Added(n) => n case Reserved(n) => n case Removed(n) => n case _ => 0
  }

  /** What a task has in the total but not in the map: between two steps. */
  function Flight(p: Phase): nat { match p case Added(n) => n case Removed(n) => n case _ => 0 }

  function Shares(s: State): map<nat, int> { map i | i in s.tasks :: Share(s.tasks[i]) }

  function Flights(s: State): map<nat, int> { map i | i in s.tasks :: Flight(s.tasks[i]) }

  /** The map has an entry for exactly the tasks between PutEntry and DelEntry. */
  ghost predicate EntriesOk(s: State) {
    && (forall i :: i in s.ledger.entries ==> i in s.tasks && s.tasks[i] == Reserved(s.ledger.entries[i]))
    && (forall i :: i in s.tasks && s.tasks[i].Reserved? ==> i in s.ledger.entries)
  }

  ghost predicate Inv(s: State) {
    EntriesOk(s) && s.ledger.total == Wrap64(Sum(Shares(s)))
  }

  lemma EnterShares(s: State, id: nat, p: Phase)
    ensures Shares(Enter(s, id, p)) == Shares(s)[id := Share(p)]
    ensures Sum(Shares(Enter(s, id, p))) == Sum(Shares(s)) + Share(p) - if id in s.tasks then Share(s.tasks[id]) else 0
  {
    assert Shares(Enter(s, id, p)) == Shares(s)[id := Share(p)];
    SumSet(Shares(s), id, Share(p));
  }

  lemma LeaveShares(s: State, id: nat)
    requires id in s.tasks
    ensures Sum(Shares(s.(tasks := s.tasks - {id}))) == Sum(Shares(s)) - Share(s.tasks[id])
  {
    assert Shares(s.(tasks := s.tasks - {id})) == Shares(s) - {id};
    SumOut(Shares(s), id);
  }

  lemma StepEntries(s: State, a: Action)
    requires EntriesOk(s) && Enabled(s, a)
    ensures EntriesOk(Do(s, a))
  {
  }

  /** How much a step moves the total. */
  function Delta(s: State, a: Action): int
    requires Enabled(s, a)
  {
    if a.AddTotal? then s.tasks[a.id].amount else if a.SubTotal? then 0 - s.tasks[a.id].amount else 0
  }

  lemma StepShares(s: State, a: Action)
    requires EntriesOk(s) && Enabled(s, a)
    ensures Sum(Shares(Do(s, a))) == Sum(Shares(s)) + Delta(s, a)
  {
    var x := Do(s, a);
    match a
    case Leave(id) => LeaveShares(s, id);
    case _ =>
      if x != s {
        EnterShares(s, a.id, x.tasks[a.id]);
        assert x.tasks == Enter(s, a.id, x.tasks[a.id]).tasks;
      }
  }

  lemma StepTotal(s: State, a: Action)
    requires Inv(s) && Enabled(s, a)
    ensures Inv(Do(s, a))
  {
    StepEntries(s, a);
    StepShares(s, a);
    WrapAdd(Sum(Shares(s)), Delta(s, a));
    WrapInRange(Sum(Shares(s)));
  }

  // ------------------------------------------------------------------- runs

  ghost predicate Run(ss: seq<State>, acts: seq<Action>) {
    && |ss| == |acts| + 1
    && ss[0] == START
    && forall i :: 0 <= i < |acts| ==> Enabled(ss[i], acts[i]) && ss[i + 1] == Do(ss[i], acts[i])
  }

  lemma {:induction false} RunInv(ss: seq<State>, acts: seq<Action>, k: nat)
    requires Run(ss, acts) && k < |ss|
    ensures Inv(ss[k])
  {
    if k > 0 {
      RunInv(ss, acts, k - 1);
      StepTotal(ss[k - 1], acts[k - 1]);
    } else {
      assert Shares(START) == map[];
    }
  }

  // --------------------------------------------------------------- theorems

  lemma {:induction false} SumAdd(a: map<nat, int>, b: map<nat, int>, c: map<nat, int>)
    requires a.Keys == b.Keys && c.Keys <= a.Keys
    requires forall k :: k in a ==> a[k] == b[k] + if k in c then c[k] else 0
    ensures Sum(a) == Sum(b) + Sum(c)
    decreases |a|
  {
    if a != map[] {
      var k :| k in a;
      assert |a - {k}| < |a| by { assert a.Keys == (a - {k}).Keys + {k}; }
      SumAdd(a - {k}, b - {k}, c - {k});
      SumOut(a, k);
      SumOut(b, k);
      if k in c { SumOut(c, k); } else { assert c - {k} == c; }
    } else {
      assert c == map[] && b == map[];
    }
  }

  lemma SharesAre(s: State)
    requires EntriesOk(s)
    ensures Sum(Shares(s)) == Sum(s.ledger.entries) + Sum(Flights(s))
  {
    SumAdd(Shares(s), Flights(s), s.ledger.entries);
  }

  /** In every reachable state the total is the map's sum plus the amounts in flight, as int64. */
  lemma LedgerBalanced(ss: seq<State>, acts: seq<Action>, k: nat)
    requires Run(ss, acts) && k < |ss|
    ensures ss[k].ledger.total == Wrap64(Sum(ss[k].ledger.entries) + Sum(Flights(ss[k])))
  {
    RunInv(ss, acts, k);
    SharesAre(ss[k]);
  }

  /** It is never negative while the reservations fit an int64. */
  lemma NeverNegative(ss: seq<State>, acts: seq<Action>, k: nat)
    requires Run(ss, acts) && k < |ss|
    ensures Sum(Shares(ss[k])) >= 0
    ensures Sum(Shares(ss[k])) < TWO63 ==> 0 <= ss[k].ledger.total == Sum(Shares(ss[k]))
  {
    RunInv(ss, acts, k);
    SumNonNegative(Shares(ss[k]));
    WrapInRange(Sum(Shares(ss[k])));
  }

  /** With no task active the total is 0 and the map empty, whatever overflowed on the way. */
  lemma IdleMeansZero(ss: seq<State>, acts: seq<Action>, k: nat)
    requires Run(ss, acts) && k < |ss| && ss[k].tasks == map[]
    ensures ss[k].ledger == Ledger(0, map[])
  {
    RunInv(ss, acts, k);
    assert Shares(ss[k]) == map[];
    assert ss[k].ledger.entries == map[];
  }

  // ------------------------------------------------------------- admission

  /** What an action adds to the total. */
  function InAt(s: State, a: Action): nat
    requires Enabled(s, a)
  {
    if a.AddTotal? then s.tasks[a.id].amount else 0
  }

  /** What an action takes off the total. */
  function OutAt(s: State, a: Action): nat
    requires Enabled(s, a)
  {
    if a.SubTotal? then s.tasks[a.id].amount else 0
  }

  /** What the actions j..k added. */
  ghost function Inflow(ss: seq<State>, acts: seq<Action>, j: nat, k: nat): nat
    requires Run(ss, acts) && j <= k <= |acts|
  {
    if j == k then 0 else Inflow(ss, acts, j, k - 1) + InAt(ss[k - 1], acts[k - 1])
  }

  /** What they took off. */
  ghost function Outflow(ss: seq<State>, acts: seq<Action>, j: nat, k: nat): nat
    requires Run(ss, acts) && j <= k <= |acts|
  {
    if j == k then 0 else Outflow(ss, acts, j, k - 1) + OutAt(ss[k - 1], acts[k - 1])
  }

  lemma SharesMove(ss: seq<State>, acts: seq<Action>, k: nat)
    requires Run(ss, acts) && k < |acts|
    ensures Sum(Shares(ss[k + 1])) == Sum(Shares(ss[k])) + InAt(ss[k], acts[k]) - OutAt(ss[k], acts[k])
  {
    RunInv(ss, acts, k);
    StepShares(ss[k], acts[k]);
  }

  lemma {:induction false} SharesFlow(ss: seq<State>, acts: seq<Action>, j: nat, k: nat)
    requires Run(ss, acts) && j <= k <= |acts|
    ensures Sum(Shares(ss[k])) == Sum(Shares(ss[j])) + Inflow(ss, acts, j, k) - Outflow(ss, acts, j, k)
  {
    if j < k {
      SharesFlow(ss, acts, j, k - 1);
      SharesMove(ss, acts, k - 1);
    }
  }

  lemma {:induction false} StaysAdmitted(ss: seq<State>, acts: seq<Action>, j: nat, k: nat, id: nat)
    requires Run(ss, acts) && j <= k <= |acts| && forall m :: j <= m < k ==> acts[m] != AddTotal(id)
    requires id in ss[j].tasks && ss[j].tasks[id].Admitted?
    ensures id in ss[k].tasks && ss[k].tasks[id] == ss[j].tasks[id]
  {
    if j < k {
      StaysAdmitted(ss, acts, j, k - 1, id);
    }
  }

  /** The check at j passed, and the same task adds at k. */
  ghost predicate Admission(ss: seq<State>, acts: seq<Action>, j: nat, k: nat) {
    && Run(ss, acts) && j < k < |acts|
    && acts[j].Check? && ss[j + 1].tasks[acts[j].id].Admitted?
    && acts[k] == AddTotal(acts[j].id) && forall m :: j < m < k ==> acts[m] != acts[k]
  }

  /**
   From a passed check to its add, over every interleaving: what is reserved afterwards is
   what was reserved at the check, and what others added in between, less what others
   released, and the amount itself.
   */
  lemma AdmissionLaw(ss: seq<State>, acts: seq<Action>, j: nat, k: nat)
    requires Admission(ss, acts, j, k)
    ensures Sum(Shares(ss[k + 1])) == Sum(Shares(ss[j])) + Inflow(ss, acts, j + 1, k) - Outflow(ss, acts, j + 1, k)
                                      + acts[j].required
  {
    StaysAdmitted(ss, acts, j + 1, k, acts[j].id);
    SharesFlow(ss, acts, j + 1, k);
    SharesMove(ss, acts, j);
    SharesMove(ss, acts, k);
  }

  /**
   The total after the add is within the budget that the check measured if and only if the
   others' net additions fit into what the request left free; with no addition by others it
   is, unless nothing was asked for.
   */
  lemma AdmissionIff(ss: seq<State>, acts: seq<Action>, j: nat, k: nat)
    requires Admission(ss, acts, j, k) && acts[j].budget.Some?
    requires Sum(Shares(ss[j])) < TWO63 && Sum(Shares(ss[k + 1])) < TWO63
    ensures var left := acts[j].budget.value - ss[j].ledger.total - acts[j].required;
            && (acts[j].required > 0 ==> left >= 0)
            && (ss[k + 1].ledger.total <= acts[j].budget.value <==>
                Inflow(ss, acts, j + 1, k) - Outflow(ss, acts, j + 1, k) <= left)
  {
    AdmissionLaw(ss, acts, j, k);
    NeverNegative(ss, acts, j);
    NeverNegative(ss, acts, k + 1);
    AdmitIff(acts[j].budget.value, ss[j].ledger.total, acts[j].required);
  }

  /**
   In every run a check admits a task exactly when the space could not be measured, nothing
   is asked for, or the request fits into the budget beside all that is reserved.
   */
  lemma CheckDecides(ss: seq<State>, acts: seq<Action>, k: nat)
    requires Run(ss, acts) && k < |acts| && acts[k].Check? && Sum(Shares(ss[k])) < TWO63
    ensures var Check(id, required, budget) := acts[k];
            var fits := budget.None? || required == 0 || Sum(Shares(ss[k])) + required <= budget.value;
            ss[k + 1] == ss[k].(tasks := ss[k].tasks[id := if fits then Admitted(required) else Refused])
  {
    NeverNegative(ss, acts, k);
    var Check(id, required, budget) := acts[k];
    if budget.Some? { AdmitIff(budget.value, ss[k].ledger.total, required); }
  }

  lemma {:induction false} NoInflow(ss: seq<State>, acts: seq<Action>, j: nat, k: nat)
    requires Run(ss, acts) && j <= k <= |acts| && forall m :: j <= m < k ==> !acts[m].AddTotal?
    ensures Inflow(ss, acts, j, k) == 0
  {
    if j < k { NoInflow(ss, acts, j, k - 1); }
  }

  /** When nobody else adds between the check and the add, the total stays within the measured budget. */
  lemma AdmissionBound(ss: seq<State>, acts: seq<Action>, j: nat, k: nat)
    requires Admission(ss, acts, j, k) && acts[j].budget.Some? && Sum(Shares(ss[j])) < TWO63
    requires forall m :: j < m < k ==> !acts[m].AddTotal?
    ensures acts[j].required > 0 ==> 0 <= ss[k + 1].ledger.total <= acts[j].budget.value
    ensures acts[j].required == 0 ==> ss[k + 1].ledger.total <= ss[j].ledger.total
  {
    NoInflow(ss, acts, j + 1, k);
    AdmissionLaw(ss, acts, j, k);
    NeverNegative(ss, acts, j);
    NeverNegative(ss, acts, k + 1);
    AdmitIff(acts[j].budget.value, ss[j].ledger.total, acts[j].required);
  }

  /** Two checks in a row both pass against the same budget, and the total ends above it. */
  lemma InterleavedChecksOvercommit(budget: nat, a: nat, b: nat)
    requires a <= budget < TWO63 && b <= budget && budget < a + b < TWO63
    ensures var s2 := Enter(Enter(START, 1, Fresh), 2, Fresh);
            var s3 := Do(s2, Check(1, a, Some(budget)));
            Enabled(s3, Check(2, b, Some(budget))) &&
            var s4 := Do(s3, Check(2, b, Some(budget)));
            Enabled(s4, AddTotal(1)) &&
            var s5 := Do(s4, AddTotal(1));
            Enabled(s5, AddTotal(2)) && Do(s5, AddTotal(2)).ledger.total == a + b
  {
    WrapInRange(a);
    WrapInRange(a + b);
  }
}
