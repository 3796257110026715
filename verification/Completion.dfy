/**
 Delivery of a finished upload: the retry loop around the completion report, the backup
 file that stands in when it gives up, and the backfill that submits backups at the next
 start. The site is an environment that may record a report and still lose the reply.
 */
module Completion {

  datatype Reply = Accepted | Maintenance | Error

  /** One attempt: what came back, and whether the task was cancelled by then. */
  datatype Attempt = Attempt(reply: Reply, cancelled: bool)

  datatype Verdict = Delivered | GaveUp | Waiting

  const MAX_ERRORS := 3

  // --------------------------------------------------- when the loop stops, and how

  function Errors(script: seq<Attempt>): nat {
    if script == [] then 0
    else Errors(script[..|script| - 1]) + if script[|script| - 1].reply.Error? then 1 else 0
  }

  /** Attempt k ends the loop: accepted, in maintenance after a cancellation, or the third error. */
  predicate Ends(script: seq<Attempt>, k: nat) {
    k < |script| &&
    match script[k].reply
    case Accepted => true
    case Maintenance => script[k].cancelled
    case Error => Errors(script[..k + 1]) >= 3
  }

  ghost predicate FirstEnd(script: seq<Attempt>, k: nat) {
    Ends(script, k) && forall j :: 0 <= j < k ==> !Ends(script, j)
  }

  /** The retry loop, run against the replies it will get; it is still waiting when they run out. */
  method ReportCompletion(script: seq<Attempt>) returns (v: Verdict, attempts: nat)
    ensures v.Waiting? <==> forall j: nat :: !Ends(script, j)
    ensures v.Waiting? ==> attempts == |script|
    ensures !v.Waiting? ==> attempts >= 1 && FirstEnd(script, attempts - 1)
    ensures !v.Waiting? ==> (v.Delivered? <==> script[attempts - 1].reply.Accepted?)
    ensures Errors(script[..attempts]) <= 3
    ensures v.GaveUp? && script[attempts - 1].reply.Error? ==> Errors(script[..attempts]) == 3
  {
    var normalAttempt := 0;
    attempts := 0;
    v := Waiting;
    while attempts < |script|
      invariant attempts <= |script| && v == Waiting
      invariant normalAttempt == Errors(script[..attempts]) < MAX_ERRORS
      invariant forall j: nat :: j < attempts ==> !Ends(script, j)
    {
      assert script[..attempts + 1][..attempts] == script[..attempts];
      var a := script[attempts];
      attempts := attempts + 1;
      assert Ends(script, attempts - 1) ==> exists j: nat :: Ends(script, j);
      if a.reply.Accepted? {
        return Delivered, attempts;
      }
      if a.reply.Maintenance? {
        if a.cancelled {
          return GaveUp, attempts;
        }
        continue;
      }
      normalAttempt := normalAttempt + 1;
      if normalAttempt >= MAX_ERRORS {
        return GaveUp, attempts;
      }
    }
  }

  lemma {:induction false} ErrorsBetween(script: seq<Attempt>, j: nat, k: nat)
    requires j <= k <= |script| && forall m :: j <= m < k ==> script[m].reply.Error?
    ensures Errors(script[..k]) == Errors(script[..j]) + k - j
  {
    if j < k {
      assert script[..k][..k - 1] == script[..k - 1];
      ErrorsBetween(script, j, k - 1);
    }
  }

  /** Once cancelled, the loop ends within three further attempts, whatever the site answers. */
  lemma EndsAfterCancel(script: seq<Attempt>, n: nat) returns (k: nat)
    requires n + 3 <= |script| && forall i :: n <= i < |script| ==> script[i].cancelled
    ensures n <= k < n + 3 && Ends(script, k)
  {
    k := n;
    while k < n + 2 && script[k].reply.Error?
      invariant n <= k <= n + 2 && forall m :: n <= m < k ==> script[m].reply.Error?
    {
      k := k + 1;
    }
    ErrorsBetween(script, n, k);
    if script[k].reply.Error? { ErrorsBetween(script, n, k + 1); }
  }

  /** Without a cancellation, maintenance never ends it, however long it lasts. */
  lemma MaintenanceWaits(script: seq<Attempt>, j: nat)
    requires forall i :: 0 <= i < |script| ==> script[i] == Attempt(Maintenance, false)
    ensures !Ends(script, j)
  {
  }

  // ----------------------------------------------------------------- the files

  /** The backups on disk and what the site has recorded. */
  class Agent {
    var backups: set<nat>
    var fulfilled: set<nat>

    constructor ()
      ensures backups == {} && fulfilled == {}
    {
      backups, fulfilled := {}, {};
    }

    /**
     runBackfill over the files found: each is submitted, and removed only when the site
     accepted it. `accepted` and `removable` are the environment's answers.
     */
    method RunBackfill(files: seq<nat>, accepted: nat -> bool, removable: nat -> bool)
      modifies this
      ensures fulfilled == old(fulfilled) + set id | id in files && accepted(id)
      ensures backups == old(backups) - set id | id in files && accepted(id) && removable(id)
      ensures old(backups) - backups <= fulfilled
      ensures (forall id :: id in files ==> accepted(id) && removable(id)) ==> backups !! (set id | id in files)
    {
      for i := 0 to |files|
        invariant fulfilled == old(fulfilled) + set id | id in files[..i] && accepted(id)
        invariant backups == old(backups) - set id | id in files[..i] && accepted(id) && removable(id)
      {
        var id := files[i];
        assert files[..i + 1] == files[..i] + [id];
        if accepted(id) {
          fulfilled := fulfilled + {id};
          if removable(id) {
            backups := backups - {id};
          }
        }
      }
      assert files[..|files|] == files;
    }
  }

  // -------------------------------------------------------- delivery over runs

  /** A task in the retry loop with its errors so far, or one that must still save its backup. */
  datatype Phase = Reporting(errors: nat) | Saving

  /**
   `left` are the requests whose task left the loop and finished. `listed` are the files
   the running backfill still has to submit, `accepted` those it is about to remove.
   */
  datatype State = State(
    tasks: map<nat, Phase>, left: set<nat>,
    backups: set<nat>, fulfilled: set<nat>,
    listed: set<nat>, accepted: set<nat>)

  datatype Action =
    | Begin(id: nat)
    | Report(id: nat, attempt: Attempt, recorded: bool)
    | Save(id: nat)
    | Boot
    | Submit(id: nat, replied: bool, recorded: bool)
    | Remove(id: nat, removed: bool)
    | Crash

  predicate Enabled(s: State, a: Action) {
    match a
    case Begin(id) => id !in s.tasks
    case Report(id, attempt, recorded) =>
      id in s.tasks && s.tasks[id].Reporting? && (attempt.reply.Accepted? ==> recorded)
    case Save(id) => id in s.tasks && s.tasks[id].Saving?
    case Boot => true
    case Submit(id, replied, recorded) => id in s.listed && (replied ==> recorded)
    case Remove(id, _) => id in s.accepted
    case Crash => true
  }

  function Leave(s: State, id: nat): State { s.(tasks := s.tasks - {id}, left := s.left + {id}) }

  /** One turn of the retry loop. */
  function OnReport(s: State, id: nat, a: Attempt, recorded: bool): State
    requires id in s.tasks && s.tasks[id].Reporting?
  {
    var t := if recorded then s.(fulfilled := s.fulfilled + {id}) else s;
    var errors := s.tasks[id].errors;
    match a.reply
    case Accepted => Leave(t, id)
    case Maintenance => if a.cancelled then t.(tasks := t.tasks[id := Saving]) else t
    case Error =>
      if errors + 1 >= MAX_ERRORS then t.(tasks := t.tasks[id := Saving])
      else t.(tasks := t.tasks[id := Reporting(errors + 1)])
  }

  function Do(s: State, a: Action): State
    requires Enabled(s, a)
  {
    match a
    case Begin(id) => s.(tasks := s.tasks[id := Reporting(0)])
    case Report(id, attempt, recorded) => OnReport(s, id, attempt, recorded)
    case Save(id) => Leave(s.(backups := s.backups + {id}), id)
    case Boot => s.(listed := s.backups, accepted := {})
    case Submit(id, replied, recorded) =>
      s.(listed := s.listed - {id},
         fulfilled := if recorded then s.fulfilled + {id} else s.fulfilled,
         accepted := if replied then s.accepted + {id} else s.accepted)
    case Remove(id, removed) =>
      s.(accepted := s.accepted - {id}, backups := if removed then s.backups - {id} else s.backups)
    case Crash => s.(tasks := map[], listed := {}, accepted := {})
  }

  ghost predicate Inv(s: State) {
    && s.left <= s.fulfilled + s.backups
    && s.accepted <= s.fulfilled
    && forall id :: id in s.tasks && s.tasks[id].Reporting? ==> s.tasks[id].errors < MAX_ERRORS
  }

  lemma StepInv(s: State, a: Action)
    requires Inv(s) && Enabled(s, a)
    ensures Inv(Do(s, a))
    ensures s.fulfilled <= Do(s, a).fulfilled && s.left <= Do(s, a).left
  {
  }

  ghost predicate Run(ss: seq<State>, acts: seq<Action>) {
    && |ss| == |acts| + 1
    && Inv(ss[0]) && ss[0].left == {} && ss[0].tasks == map[] && ss[0].accepted == {}
    && forall i :: 0 <= i < |acts| ==> Enabled(ss[i], acts[i]) && ss[i + 1] == Do(ss[i], acts[i])
  }

  lemma {:induction false} RunInv(ss: seq<State>, acts: seq<Action>, k: nat)
    requires Run(ss, acts) && k < |ss|
    ensures Inv(ss[k])
  {
    if k > 0 {
      RunInv(ss, acts, k - 1);
      StepInv(ss[k - 1], acts[k - 1]);
    }
  }

  /** Nothing that was uploaded is lost: what left the loop is fulfilled or still has its backup. */
  lemma NothingLost(ss: seq<State>, acts: seq<Action>, k: nat, id: nat)
    requires Run(ss, acts) && k < |ss| && id in ss[k].left
    ensures id in ss[k].fulfilled || id in ss[k].backups
  {
    RunInv(ss, acts, k);
  }

  /** A backup disappears only in a backfill's removal, after the site recorded the request. */
  lemma RemovedOnlyAccepted(ss: seq<State>, acts: seq<Action>, k: nat, id: nat)
    requires Run(ss, acts) && k < |acts| && id in ss[k].backups && id !in ss[k + 1].backups
    ensures acts[k] == Remove(id, true) && id in ss[k].fulfilled
  {
    RunInv(ss, acts, k);
  }

  // ------------------------------------------------------------- backfill

  /** The action does not concern the running backfill's file id. */
  predicate LeavesListed(a: Action, id: nat) { !(a.Submit? && a.id == id) && !a.Crash? && !a.Boot? }

  lemma {:induction false} ListedUntilSubmitted(ss: seq<State>, acts: seq<Action>, k: nat, m: nat, id: nat)
    requires Run(ss, acts) && k < m < |ss| && acts[k] == Boot && id in ss[k].backups
    requires forall q :: k < q < m ==> LeavesListed(acts[q], id)
    ensures id in ss[m].listed
  {
    if m > k + 1 { ListedUntilSubmitted(ss, acts, k, m - 1, id); }
  }

  /**
   Every backup present at a start can be submitted until that happens or the agent stops,
   and once the site has accepted it and the file is removed, the request is fulfilled and
   the backup gone.
   */
  lemma BackupsAreSubmitted(ss: seq<State>, acts: seq<Action>, k: nat, m: nat, id: nat)
    requires Run(ss, acts) && k < m < |ss| && acts[k] == Boot && id in ss[k].backups
    requires forall q :: k < q < m ==> LeavesListed(acts[q], id)
    ensures Enabled(ss[m], Submit(id, true, true))
    ensures var x := Do(ss[m], Submit(id, true, true));
            Enabled(x, Remove(id, true)) &&
            var y := Do(x, Remove(id, true));
            id in y.fulfilled && id !in y.backups
  {
    ListedUntilSubmitted(ss, acts, k, m, id);
  }

  // ------------------------------------------- the loop inside the machine

  /** The state after the first k attempts of a task, nothing else happening. */
  function Turns(s: State, id: nat, script: seq<Attempt>, recorded: nat -> bool, k: nat): State
    requires k <= |script|
    decreases k
  {
    if k == 0 then s else
      var t := Turns(s, id, script, recorded, k - 1);
      if id in t.tasks && t.tasks[id].Reporting? then OnReport(t, id, script[k - 1], recorded(k - 1)) else t
  }

  /** From its beginning a task reports exactly as long as the retry loop runs. */
  lemma {:induction false} TurnsFollowLoop(s: State, id: nat, script: seq<Attempt>, recorded: nat -> bool, k: nat)
    requires id !in s.tasks && k <= |script|
    requires forall j :: 0 <= j < k ==> !Ends(script, j)
    ensures var t := Turns(Do(s, Begin(id)), id, script, recorded, k);
            id in t.tasks && t.tasks[id] == Reporting(Errors(script[..k])) && Errors(script[..k]) < 3
    ensures k < |script| ==>
              var t := Turns(Do(s, Begin(id)), id, script, recorded, k + 1);
              && (Ends(script, k) <==> !(id in t.tasks && t.tasks[id].Reporting?))
              && (Ends(script, k) && script[k].reply.Accepted? <==> id !in t.tasks)
  {
    if k > 0 {
      TurnsFollowLoop(s, id, script, recorded, k - 1);
      assert script[..k][..k - 1] == script[..k - 1];
    }
    assert k < |script| ==> script[..k + 1][..k] == script[..k];
  }

  /** The action is a report of the task that failed with an ordinary error. */
  function Fail(a: Action, id: nat): nat { if a.Report? && a.id == id && a.attempt.reply.Error? then 1 else 0 }

  /** How often that happened. */
  function Failures(acts: seq<Action>, id: nat): nat {
    if acts == [] then 0 else Failures(acts[..|acts| - 1], id) + Fail(acts[|acts| - 1], id)
  }

  function Counted(s: State, id: nat): nat {
    if id !in s.tasks then 0 else match s.tasks[id] case Reporting(e) => e case Saving => MAX_ERRORS
  }

  /** A step counts each failure of a task that is there, and none of one that is not. */
  ghost predicate Counts(s: State, a: Action, x: State, id: nat) {
    if id !in s.tasks then id !in x.tasks && Fail(a, id) == 0
    else if id in x.tasks then Counted(s, id) + Fail(a, id) <= Counted(x, id)
    else Fail(a, id) == 0
  }

  lemma StepCounts(s: State, a: Action, id: nat)
    requires Inv(s) && Enabled(s, a) && a != Begin(id)
    ensures Counts(s, a, Do(s, a), id)
  {
  }

  lemma {:induction false} CountsAlong(ss: seq<State>, acts: seq<Action>, j: nat, k: nat, id: nat)
    requires |ss| == |acts| + 1 && j < k <= |acts| && acts[j] == Begin(id)
    requires forall m :: j < m < k ==> Counts(ss[m], acts[m], ss[m + 1], id)
    requires forall m :: 0 <= m < |ss| ==> Counted(ss[m], id) <= 3
    ensures Failures(acts[j..k], id) <= 3
    ensures id in ss[k].tasks ==> Failures(acts[j..k], id) <= Counted(ss[k], id)
  {
    assert acts[j..k][..k - 1 - j] == acts[j..k - 1];
    if j < k - 1 {
      CountsAlong(ss, acts, j, k - 1, id);
      assert Counts(ss[k - 1], acts[k - 1], ss[k - 1 + 1], id);
    } else {
      assert acts[j..k - 1] == [];
    }
  }

  /** From its start on, a task sees at most three ordinary errors. */
  lemma AtMostThreeErrors(ss: seq<State>, acts: seq<Action>, j: nat, k: nat, id: nat)
    requires Run(ss, acts) && j < k <= |acts| && acts[j] == Begin(id)
    requires forall m :: j < m < k ==> acts[m] != Begin(id)
    ensures Failures(acts[j..k], id) <= 3
  {
    forall m | j < m < k ensures Counts(ss[m], acts[m], ss[m + 1], id) {
      RunInv(ss, acts, m);
      StepCounts(ss[m], acts[m], id);
    }
    forall m | 0 <= m < |ss| ensures Counted(ss[m], id) <= 3 { RunInv(ss, acts, m); }
    CountsAlong(ss, acts, j, k, id);
  }
}
