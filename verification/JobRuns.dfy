/**
 Runs of the job queue: the watcher, the one processor, retries and deletions from the UI,
 crashes and restarts. A claim is two statements, so anything may happen in between; the
 clock may jump.
 */
module JobRuns {
  import opened Wrappers
  import opened JobQueue

  /** `path` is that of the job when it was claimed. */
  datatype Processor =
    | Down
    | Idle
    | Claiming(id: nat, path: string)
    | Running(id: nat, path: string)

  datatype State = State(rows: Rows, nextId: nat, proc: Processor)

  datatype Action =
    | Watch(path: string, now: int)
    | ClaimUpdate(id: nat, now: int)
    | ClaimQuery(row: nat)
    | ClaimMiss
    | Finish(outcome: Outcome, now: int)
    | Retry(id: nat)
    | Delete(id: nat)
    | Crash
    | Boot

  ghost predicate Enabled(s: State, a: Action) {
    match a
    case Watch(_, _) => true
    case ClaimUpdate(id, _) => s.proc.Idle? && Oldest(s.rows, id)
    case ClaimQuery(row) => s.proc.Claiming? && Newest(s.rows, row)
    case ClaimMiss => s.proc.Claiming? && forall i :: !IsProcessing(s.rows, i)
    case Finish(_, _) => s.proc.Running?
    case Retry(id) => id in s.rows
    case Delete(id) => id in s.rows
    case Crash => true
    case Boot => s.proc.Down?
  }

  predicate PathTaken(rows: Rows, path: string) { exists i <- rows.Keys :: rows[i].path == path }

  ghost function Do(s: State, a: Action): State
    requires Enabled(s, a)
  {
    match a
    case Watch(path, now) =>
      if PathTaken(s.rows, path) then s
      else s.(rows := s.rows[s.nextId := NewJob(path, now)], nextId := s.nextId + 1)
    case ClaimUpdate(id, now) =>
      s.(rows := s.rows[id := Started(s.rows[id], now)], proc := Claiming(id, s.rows[id].path))
    case ClaimQuery(row) => s.(proc := Running(row, s.rows[row].path))
    case ClaimMiss => s.(proc := Idle)
    case Finish(o, now) => s.(rows := MarkRow(s.rows, s.proc.id, o, now), proc := Idle)
    case Retry(id) => s.(rows := s.rows[id := Reset(s.rows[id])])
    case Delete(id) => s.(rows := s.rows - {id})
    case Crash => s.(proc := Down)
    case Boot => s.(rows := RequeueRows(s.rows), proc := Idle)
  }

  /** A database left behind by any earlier process, which has ended. */
  ghost predicate Init(s: State) {
    s.proc.Down? && UniquePaths(s.rows) && forall i :: i in s.rows ==> i < s.nextId
  }

  ghost predicate UniquePaths(rows: Rows) {
    forall i, j :: i in rows && j in rows && rows[i].path == rows[j].path ==> i == j
  }

  // ------------------------------------------------------------- invariant

  predicate Holds(p: Processor, i: nat) { (p.Claiming? || p.Running?) && p.id == i }

  ghost predicate Inv(s: State) {
    && (forall i :: i in s.rows ==> i < s.nextId)
    && UniquePaths(s.rows)
    && (s.proc.Claiming? || s.proc.Running? ==>
          s.proc.id < s.nextId && (s.proc.id in s.rows ==> s.rows[s.proc.id].path == s.proc.path))
    && (!s.proc.Down? ==> forall i :: IsProcessing(s.rows, i) ==> Holds(s.proc, i))
  }

  lemma StepInv(s: State, a: Action)
    requires Inv(s) && Enabled(s, a)
    ensures Inv(Do(s, a))
  {
    if !a.Watch? && !a.Boot? {
      OtherInv(s, a);
    }
  }

  lemma OtherInv(s: State, a: Action)
    requires Inv(s) && Enabled(s, a) && !a.Watch? && !a.Boot?
    ensures Inv(Do(s, a))
  {
    var x := Do(s, a);
    assert forall i :: i in x.rows ==> i in s.rows && x.rows[i].path == s.rows[i].path;
    assert forall i :: IsProcessing(x.rows, i) ==> IsProcessing(s.rows, i) || (a.ClaimUpdate? && i == a.id);
  }

  // ------------------------------------------------------------------ runs

  /** The states that the actions lead through, each action enabled in its turn. */
  ghost predicate Steps(ss: seq<State>, acts: seq<Action>) {
    && |ss| == |acts| + 1
    && forall i :: 0 <= i < |acts| ==> Enabled(ss[i], acts[i]) && ss[i + 1] == Do(ss[i], acts[i])
  }

  ghost predicate Run(ss: seq<State>, acts: seq<Action>) { Steps(ss, acts) && Init(ss[0]) }

  lemma {:induction false} RunInv(ss: seq<State>, acts: seq<Action>, k: nat)
    requires Run(ss, acts) && k < |ss|
    ensures Inv(ss[k])
  {
    if k > 0 {
      RunInv(ss, acts, k - 1);
      StepInv(ss[k - 1], acts[k - 1]);
    }
  }

  // -------------------------------------------------------------- theorems

  /** The rows in processing are at most the processor's own job; an idle processor strands nothing. */
  lemma OnlyTheCurrentJob(ss: seq<State>, acts: seq<Action>, k: nat, i: nat)
    requires Run(ss, acts) && k < |ss| && !ss[k].proc.Down? && IsProcessing(ss[k].rows, i)
    ensures Holds(ss[k].proc, i) && ss[k].rows[i].path == ss[k].proc.path
  {
    RunInv(ss, acts, k);
  }

  /** The second query of a claim returns the row the first statement claimed, or nothing at all. */
  lemma QueryReturnsClaimed(ss: seq<State>, acts: seq<Action>, k: nat)
    requires Run(ss, acts) && k < |acts| && acts[k].ClaimQuery?
    ensures acts[k].row == ss[k].proc.id && ss[k + 1].proc == Running(ss[k].proc.id, ss[k].proc.path)
  {
    RunInv(ss, acts, k);
  }

  /** The row was deleted or reset by one of the actions j..k. */
  ghost predicate Disturbed(acts: seq<Action>, j: nat, k: nat, id: nat) {
    exists m :: j <= m < k && m < |acts| && (acts[m] == Delete(id) || acts[m] == Retry(id))
  }

  lemma ClaimingStep(s: State, a: Action)
    requires Enabled(s, a) && s.proc.Claiming? && s.proc.id < s.nextId && Do(s, a).proc.Claiming?
    ensures Do(s, a).proc == s.proc
    ensures var id := s.proc.id;
            IsProcessing(Do(s, a).rows, id) <==> IsProcessing(s.rows, id) && a != Delete(id) && a != Retry(id)
  {
  }

  lemma {:induction false} ProcessingUntilDisturbed(ss: seq<State>, acts: seq<Action>, j: nat, k: nat)
    requires Run(ss, acts) && j < k < |ss| && acts[j].ClaimUpdate?
    requires forall m :: j < m <= k ==> ss[m].proc.Claiming?
    ensures ss[k].proc.id == acts[j].id
    ensures IsProcessing(ss[k].rows, acts[j].id) <==> !Disturbed(acts, j + 1, k, acts[j].id)
  {
    if k > j + 1 {
      ProcessingUntilDisturbed(ss, acts, j, k - 1);
      var a, id := acts[k - 1], acts[j].id;
      assert ss[k - 1].proc.Claiming? && ss[k].proc.Claiming?;
      RunInv(ss, acts, k - 1);
      ClaimingStep(ss[k - 1], a);
      assert Disturbed(acts, j + 1, k, id) <==> Disturbed(acts, j + 1, k - 1, id) || a == Delete(id) || a == Retry(id);
    }
  }

  /** The second query of a claim misses exactly when the claimed row was deleted or retried in between. */
  lemma QueryMissesIff(ss: seq<State>, acts: seq<Action>, j: nat, k: nat)
    requires Run(ss, acts) && j < k < |ss| && acts[j].ClaimUpdate?
    requires forall m :: j < m <= k ==> ss[m].proc.Claiming?
    ensures Enabled(ss[k], ClaimMiss) <==> Disturbed(acts, j + 1, k, acts[j].id)
    ensures Enabled(ss[k], ClaimQuery(acts[j].id)) <==> !Disturbed(acts, j + 1, k, acts[j].id)
  {
    RunInv(ss, acts, k);
    ProcessingUntilDisturbed(ss, acts, j, k);
  }

  /** A Mark, however late, changes at most the row that was claimed, under the path it was claimed with. */
  lemma MarkHitsOwnRow(ss: seq<State>, acts: seq<Action>, k: nat, i: nat)
    requires Run(ss, acts) && k < |acts| && acts[k].Finish?
    requires i in ss[k].rows
    ensures i in ss[k + 1].rows
    ensures ss[k + 1].rows[i] != ss[k].rows[i] ==> i == ss[k].proc.id && ss[k].rows[i].path == ss[k].proc.path
  {
    RunInv(ss, acts, k);
  }

  /** What the end of a run leaves in the row of its job. */
  predicate Shows(j: Job, o: Outcome) {
    match o
    case Success(nzb) => j.status == Completed && j.nzbPath == Some(nzb)
    case Failure(e) => j.status == Failed && j.error == Some(e)
  }

  /** A run that ends well completes its job, one that fails fails it; nothing else about the job changes. */
  lemma FinishShows(ss: seq<State>, acts: seq<Action>, k: nat)
    requires Run(ss, acts) && k < |acts| && acts[k].Finish? && ss[k].proc.id in ss[k].rows
    ensures var id, o := ss[k].proc.id, acts[k].outcome;
            id in ss[k + 1].rows &&
            var was, job := ss[k].rows[id], ss[k + 1].rows[id];
            && Shows(job, o) && job.completedAt == Some(acts[k].now)
            && job.path == was.path && job.createdAt == was.createdAt && job.startedAt == was.startedAt
            && (o.Success? ==> job.error == was.error) && (o.Failure? ==> job.nzbPath == was.nzbPath)
  {
  }

  predicate Ended(rows: Rows, i: nat) { i in rows && (rows[i].status == Completed || rows[i].status == Failed) }

  /** Action m ended the run of job i with outcome o, and no action up to k reset or ended it again. */
  ghost predicate LastEnd(ss: seq<State>, acts: seq<Action>, m: nat, k: nat, i: nat, o: Outcome) {
    && m < k <= |acts| && k < |ss| && acts[m].Finish? && acts[m].outcome == o && AtWork(ss[m].proc, i)
    && forall q :: m < q < k ==> acts[q] != Retry(i) && !(acts[q].Finish? && AtWork(ss[q].proc, i))
  }

  lemma EndedStep(s: State, a: Action, i: nat)
    requires Inv(s) && Enabled(s, a) && Ended(Do(s, a).rows, i)
    requires !(a.Finish? && AtWork(s.proc, i))
    ensures Ended(s.rows, i) && Do(s, a).rows[i] == s.rows[i] && a != Retry(i)
  {
  }

  /** A job is completed or failed only by the end of its own last run, and shows how that ended. */
  lemma {:induction false} EndedBy(ss: seq<State>, acts: seq<Action>, k: nat, i: nat)
    returns (m: nat, o: Outcome)
    requires Run(ss, acts) && k < |ss| && Ended(ss[k].rows, i)
    ensures || (Ended(ss[0].rows, i) && ss[k].rows[i] == ss[0].rows[i])
            || (LastEnd(ss, acts, m, k, i, o) && Shows(ss[k].rows[i], o))
  {
    m, o := 0, Failure("");
    if k > 0 {
      RunInv(ss, acts, k - 1);
      var a := acts[k - 1];
      if a.Finish? && AtWork(ss[k - 1].proc, i) {
        m, o := k - 1, a.outcome;
      } else {
        EndedStep(ss[k - 1], a, i);
        m, o := EndedBy(ss, acts, k - 1, i);
      }
    }
  }

  /** Ids only grow, and a row keeps its path for as long as it lives. */
  ghost predicate KeepsIds(s: State, x: State) {
    && x.nextId >= s.nextId
    && forall i :: i in x.rows && i < s.nextId ==> i in s.rows && x.rows[i].path == s.rows[i].path
  }

  lemma {:induction false} IdsAlong(ss: seq<State>, j: nat, k: nat)
    requires forall m :: 0 <= m < |ss| - 1 ==> KeepsIds(ss[m], ss[m + 1])
    requires j <= k < |ss|
    ensures KeepsIds(ss[j], ss[k])
  {
    if j < k {
      IdsAlong(ss, j, k - 1);
      assert KeepsIds(ss[k - 1], ss[k - 1 + 1]);
    }
  }

  /** An id is never given out twice: a row found later under an old id is the old row. */
  lemma IdsNeverReused(ss: seq<State>, acts: seq<Action>, j: nat, k: nat)
    requires Run(ss, acts) && j <= k < |ss|
    ensures KeepsIds(ss[j], ss[k])
  {
    forall m | 0 <= m < |ss| - 1 ensures KeepsIds(ss[m], ss[m + 1]) { }
    IdsAlong(ss, j, k);
  }

  /**
   A job that was deleted while it ran, and whose path was queued again: the new row has an
   id given out after the claim, and the Mark of the old run leaves it alone.
   */
  lemma RequeuedPathIsSafe(ss: seq<State>, acts: seq<Action>, j: nat, k: nat, i: nat)
    requires Run(ss, acts) && j < k < |acts| && acts[j].ClaimUpdate? && acts[k].Finish?
    requires ss[k].proc.id == acts[j].id && acts[j].id !in ss[k].rows
    requires i in ss[k].rows && ss[k].rows[i].path == ss[j].rows[acts[j].id].path
    ensures i >= ss[j].nextId && ss[k + 1].rows[i] == ss[k].rows[i]
  {
    RunInv(ss, acts, j);
    IdsNeverReused(ss, acts, j, k);
  }

  // ------------------------------------------------------- first come, first served

  /** The queued rows other than `id` that a claim could take before a job created at t. */
  ghost function Ahead(rows: Rows, id: nat, t: int): set<nat> {
    set i | i in rows && i != id && rows[i].status.Queued? && rows[i].createdAt <= t
  }

  /** No other row created up to t enters the queue, or enters it again. */
  ghost predicate Orderly(rows: Rows, a: Action, id: nat, t: int) {
    match a
    case Watch(_, now) => now > t
    case Retry(i) => i == id || IsQueued(rows, i) || (i in rows && rows[i].createdAt > t)
    case Boot => forall i :: IsProcessing(rows, i) ==> rows[i].createdAt > t
    case _ => true
  }

  predicate Waiting(rows: Rows, id: nat, t: int) { IsQueued(rows, id) && rows[id].createdAt == t }

  ghost predicate Nears(rows: Rows, a: Action, after: Rows, id: nat, t: int) {
    && Ahead(after, id, t) <= Ahead(rows, id, t)
    && (a.ClaimUpdate? ==> a.id in Ahead(rows, id, t) && a.id !in Ahead(after, id, t))
  }

  lemma StepNears(s: State, a: Action, id: nat, t: int)
    requires Inv(s) && Enabled(s, a) && Orderly(s.rows, a, id, t)
    requires Waiting(s.rows, id, t) && Waiting(Do(s, a).rows, id, t)
    ensures Nears(s.rows, a, Do(s, a).rows, id, t)
  {
    if a.Boot? {
      var after := Do(s, a).rows;
      assert forall i :: i in after && after[i].status.Queued? ==> IsQueued(s.rows, i) || IsProcessing(s.rows, i);
    }
  }

  function Claims(acts: seq<Action>): nat {
    if acts == [] then 0
    else Claims(acts[..|acts| - 1]) + if acts[|acts| - 1].ClaimUpdate? then 1 else 0
  }

  lemma {:induction false} NearsAlong(ss: seq<State>, acts: seq<Action>, j: nat, k: nat, id: nat, t: int)
    requires |ss| == |acts| + 1 && j <= k < |ss|
    requires forall m :: j <= m < k ==> Nears(ss[m].rows, acts[m], ss[m + 1].rows, id, t)
    ensures Claims(acts[j..k]) + |Ahead(ss[k].rows, id, t)| <= |Ahead(ss[j].rows, id, t)|
  {
    if j < k {
      NearsAlong(ss, acts, j, k - 1, id, t);
      var a := acts[k - 1];
      assert Nears(ss[k - 1].rows, a, ss[k - 1 + 1].rows, id, t);
      assert acts[j..k][..k - 1 - j] == acts[j..k - 1];
      SubsetSize(Ahead(ss[k].rows, id, t), Ahead(ss[k - 1].rows, id, t), if a.ClaimUpdate? then {a.id} else {});
    }
  }

  /** While a job waits, no more claims happen than there were older jobs queued before it. */
  lemma NoOvertaking(ss: seq<State>, acts: seq<Action>, j: nat, k: nat, id: nat, t: int)
    requires Run(ss, acts) && j <= k < |ss|
    requires forall m :: j <= m <= k ==> Waiting(ss[m].rows, id, t)
    requires forall m :: j <= m < k ==> Orderly(ss[m].rows, acts[m], id, t)
    ensures Claims(acts[j..k]) <= |Ahead(ss[j].rows, id, t)|
  {
    forall m | j <= m < k ensures Nears(ss[m].rows, acts[m], ss[m + 1].rows, id, t) {
      RunInv(ss, acts, m);
      assert Waiting(ss[m].rows, id, t) && Waiting(ss[m + 1].rows, id, t);
      StepNears(ss[m], acts[m], id, t);
    }
    NearsAlong(ss, acts, j, k, id, t);
  }

  lemma SubsetSize(small: set<nat>, big: set<nat>, extra: set<nat>)
    requires small <= big && extra <= big && small !! extra
    ensures |small| + |extra| <= |big|
  {
    var rest := big - small - extra;
    assert big == small + extra + rest;
  }

  // ------------------------------------------------------- the queue is worked off

  predicate OwnAction(a: Action) { a.ClaimUpdate? || a.ClaimQuery? || a.ClaimMiss? || a.Finish? }

  ghost function Queue(rows: Rows): set<nat> { set i | i in rows && rows[i].status.Queued? }

  /** Three steps for each queued job, and what is left of the current one. */
  ghost function Work(s: State): nat {
    3 * |Queue(s.rows)| + match s.proc case Claiming(_, _) => 2 case Running(_, _) => 1 case _ => 0
  }

  lemma OwnStep(s: State, a: Action)
    requires Inv(s) && Enabled(s, a) && OwnAction(a)
    ensures Work(Do(s, a)) < Work(s) && Do(s, a).rows.Keys == s.rows.Keys && !Do(s, a).proc.Down?
  {
    if a.ClaimUpdate? {
      Dequeues(s.rows, a.id, Started(s.rows[a.id], a.now));
    } else if a.Finish? {
      MarkQueuesNothing(s.rows, s.proc.id, a.outcome, a.now);
    }
  }

  lemma Dequeues(rows: Rows, id: nat, j: Job)
    requires IsQueued(rows, id) && !j.status.Queued?
    ensures |Queue(rows)| == |Queue(rows[id := j])| + 1
  {
    assert Queue(rows) == Queue(rows[id := j]) + {id};
  }

  lemma MarkQueuesNothing(rows: Rows, id: nat, o: Outcome, now: int)
    ensures |Queue(MarkRow(rows, id, o, now))| <= |Queue(rows)| && MarkRow(rows, id, o, now).Keys == rows.Keys
  {
    SubsetSize(Queue(MarkRow(rows, id, o, now)), Queue(rows), {});
  }

  /** A queued row with the least creation time. */
  lemma SomeOldest(rows: Rows, todo: set<nat>, id: nat) returns (first: nat)
    requires IsQueued(rows, id)
    requires forall j :: IsQueued(rows, j) && j !in todo ==> rows[id].createdAt <= rows[j].createdAt
    ensures Oldest(rows, first)
    decreases todo
  {
    first := id;
    if j :| j in todo && IsQueued(rows, j) && rows[j].createdAt < rows[id].createdAt {
      first := SomeOldest(rows, todo - {j}, j);
    }
  }

  /** A processor that is up can move, unless it is idle and nothing is queued. */
  lemma ProcessorMoves(s: State)
    requires Inv(s) && !s.proc.Down?
    ensures (exists a :: OwnAction(a) && Enabled(s, a)) <==> !(s.proc.Idle? && Queue(s.rows) == {})
  {
    if s.proc.Idle? {
      assert forall id :: IsQueued(s.rows, id) ==> id in Queue(s.rows);
      if Queue(s.rows) != {} {
        var id :| id in Queue(s.rows);
        var first := SomeOldest(s.rows, s.rows.Keys, id);
        assert Enabled(s, ClaimUpdate(first, 0));
      }
    } else if s.proc.Claiming? {
      if i :| IsProcessing(s.rows, i) {
        assert Enabled(s, ClaimQuery(i));
      } else {
        assert Enabled(s, ClaimMiss);
      }
    } else {
      assert Enabled(s, Finish(Failure(""), 0));
    }
  }

  lemma {:induction false} OwnSteps(ss: seq<State>, acts: seq<Action>, k: nat)
    requires Steps(ss, acts) && Inv(ss[0]) && !ss[0].proc.Down? && k < |ss|
    requires forall i :: 0 <= i < |acts| ==> OwnAction(acts[i])
    ensures Inv(ss[k]) && !ss[k].proc.Down? && ss[k].rows.Keys == ss[0].rows.Keys && Work(ss[k]) + k <= Work(ss[0])
  {
    if k > 0 {
      OwnSteps(ss, acts, k - 1);
      StepInv(ss[k - 1], acts[k - 1]);
      OwnStep(ss[k - 1], acts[k - 1]);
    }
  }

  /**
   Left alone, the processor works off its queue: from every reachable state it takes at most
   three steps for each queued job and two for the current one, and where it stops, every
   row there was is completed or failed.
   */
  lemma QueueDrains(ss: seq<State>, acts: seq<Action>, i: nat)
    requires Steps(ss, acts) && Inv(ss[0]) && !ss[0].proc.Down? && i in ss[0].rows
    requires forall j :: 0 <= j < |acts| ==> OwnAction(acts[j])
    ensures |acts| <= 3 * |Queue(ss[0].rows)| + 2
    ensures (forall a :: OwnAction(a) ==> !Enabled(ss[|acts|], a)) ==> Ended(ss[|acts|].rows, i)
  {
    var n := |acts|;
    OwnSteps(ss, acts, n);
    ProcessorMoves(ss[n]);
    if forall a :: OwnAction(a) ==> !Enabled(ss[n], a) {
      assert i !in Queue(ss[n].rows) && !IsProcessing(ss[n].rows, i);
    }
  }

  // --------------------------------------------------------- when a retry counts

  /** The processor is at work on the job, so that its Mark is still to come. */
  predicate AtWork(p: Processor, id: nat) { p.Running? && p.id == id }

  /** Nobody deletes or claims the job. */
  predicate Spares(acts: seq<Action>, id: nat) {
    forall m :: 0 <= m < |acts| ==> acts[m] != Delete(id) && !(acts[m].ClaimUpdate? && acts[m].id == id)
  }

  lemma StaysQueued(s: State, a: Action, id: nat)
    requires Enabled(s, a) && IsQueued(s.rows, id) && !AtWork(s.proc, id)
    requires a != Delete(id) && !(a.ClaimUpdate? && a.id == id)
    ensures IsQueued(Do(s, a).rows, id) && !AtWork(Do(s, a).proc, id)
  {
  }

  lemma {:induction false} QueuedAlong(ss: seq<State>, acts: seq<Action>, id: nat, k: nat)
    requires Steps(ss, acts) && Spares(acts, id) && IsQueued(ss[0].rows, id) && !AtWork(ss[0].proc, id)
    requires k < |ss|
    ensures IsQueued(ss[k].rows, id) && !AtWork(ss[k].proc, id)
  {
    if k > 0 {
      QueuedAlong(ss, acts, id, k - 1);
      StaysQueued(ss[k - 1], acts[k - 1], id);
    }
  }

  /** After a retry the job waits until it is claimed or deleted, however the run goes on. */
  ghost predicate RetryHolds(s: State, id: nat)
    requires id in s.rows
  {
    forall ss: seq<State>, acts: seq<Action> ::
      Steps(ss, acts) && ss[0] == Do(s, Retry(id)) && Spares(acts, id) ==>
      IsQueued(ss[|acts|].rows, id)
  }

  /** The retry of the running job is lost as soon as that run ends. */
  lemma RetryIsLost(s: State, id: nat, o: Outcome, now: int)
    requires id in s.rows && AtWork(s.proc, id)
    ensures !RetryHolds(s, id)
  {
    var x := Do(s, Retry(id));
    var ss, acts := [x, Do(x, Finish(o, now))], [Finish(o, now)];
    assert Steps(ss, acts) && Spares(acts, id) && !IsQueued(ss[|acts|].rows, id);
  }

  /** A retry counts if and only if the processor is not at work on that job. */
  lemma RetryHoldsIff(s: State, id: nat)
    requires id in s.rows
    ensures RetryHolds(s, id) <==> !AtWork(s.proc, id)
  {
    if AtWork(s.proc, id) {
      RetryIsLost(s, id, Success(""), 0);
    } else {
      forall ss: seq<State>, acts: seq<Action> | Steps(ss, acts) && ss[0] == Do(s, Retry(id)) && Spares(acts, id)
        ensures IsQueued(ss[|acts|].rows, id) {
        QueuedAlong(ss, acts, id, |acts|);
      }
    }
  }

  lemma Extend(ss: seq<State>, acts: seq<Action>, a: Action, x: State)
    requires Run(ss, acts) && Enabled(ss[|acts|], a) && x == Do(ss[|acts|], a)
    ensures Run(ss + [x], acts + [a])
  {
    var ts, bs := ss + [x], acts + [a];
    forall i | 0 <= i < |bs| ensures Enabled(ts[i], bs[i]) && ts[i + 1] == Do(ts[i], bs[i]) {
      assert i < |acts| ==> ts[i] == ss[i] && ts[i + 1] == ss[i + 1] && bs[i] == acts[i];
    }
  }

  /** A file is queued and claimed, and its run begins. */
  lemma RunBegins(path: string) returns (ss: seq<State>, acts: seq<Action>)
    ensures Run(ss, acts) && ss[|acts|] == State(map[1 := Started(NewJob(path, 0), 0)], 2, Running(1, path))
  {
    var rows, busy := map[1 := NewJob(path, 0)], map[1 := Started(NewJob(path, 0), 0)];
    var s0, s1, s2 := State(map[], 1, Down), State(map[], 1, Idle), State(rows, 2, Idle);
    var s3, s4 := State(busy, 2, Claiming(1, path)), State(busy, 2, Running(1, path));
    assert RequeueRows(map[]) == map[];
    assert IsQueued(rows, 1) && IsProcessing(busy, 1);
    Extend([s0], [], Boot, s1);
    Extend([s0] + [s1], [Boot], Watch(path, 0), s2);
    ss, acts := [s0] + [s1] + [s2], [Boot] + [Watch(path, 0)];
    Extend(ss, acts, ClaimUpdate(1, 0), s3);
    ss, acts := ss + [s3], acts + [ClaimUpdate(1, 0)];
    Extend(ss, acts, ClaimQuery(1), s4);
    ss, acts := ss + [s4], acts + [ClaimQuery(1)];
  }

  /** A run in which the retry is lost: it comes while the job runs, and the run is then marked. */
  lemma RetryWhileRunningIsLost(path: string, o: Outcome, now: int) returns (ss: seq<State>, acts: seq<Action>)
    ensures var n := |acts|;
            && Run(ss, acts) && n >= 2 && acts[n - 2] == Retry(1) && acts[n - 1] == Finish(o, now)
            && IsQueued(ss[n - 1].rows, 1) && 1 in ss[n].rows && !IsQueued(ss[n].rows, 1) && ss[n].proc.Idle?
  {
    ss, acts := RunBegins(path);
    var x := Do(ss[|acts|], Retry(1));
    Extend(ss, acts, Retry(1), x);
    Extend(ss + [x], acts + [Retry(1)], Finish(o, now), Do(x, Finish(o, now)));
    ss, acts := ss + [x] + [Do(x, Finish(o, now))], acts + [Retry(1)] + [Finish(o, now)];
  }

  // ---------------------------------------------------------- what goes wrong

  /**
   When a Mark was lost, its row stays in processing. A later claim then returns that stale
   row if the clock stands behind its start, and leaves the claimed row without a processor.
   */
  lemma LostMarkMixesJobs(a: Job, b: Job, now: int)
    requires a.status.Processing? && a.startedAt.Some? && now < a.startedAt.value && b.status.Queued?
    ensures var s := State(map[1 := a, 2 := b], 3, Idle);
            Enabled(s, ClaimUpdate(2, now)) &&
            var t := Do(s, ClaimUpdate(2, now));
            Newest(t.rows, 1) && !Newest(t.rows, 2)
  {
    var s := State(map[1 := a, 2 := b], 3, Idle);
    assert IsQueued(s.rows, 2);
    var t := Do(s, ClaimUpdate(2, now));
    assert IsProcessing(t.rows, 1);
  }
}
