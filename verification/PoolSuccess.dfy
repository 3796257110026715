/**
 When the pool succeeds. Failed attempts are counted over the actions of a run: three
 failures of one chunk, a failed read or a cancellation make the pool return an error, and
 nothing else does.
 */
module PoolSuccess {
  import opened UploadPool
  import opened PoolLeak

  /** A run with its actions. */
  ghost predicate Trace(c: Config, ss: seq<State>, acts: seq<Action>) {
    && |ss| == |acts| + 1 && ss[0] == Init(c)
    && forall i :: 0 <= i < |acts| ==> Enabled(c, ss[i], acts[i]) && ss[i + 1] == Do(c, ss[i], acts[i])
  }

  lemma TraceIsRun(c: Config, ss: seq<State>, acts: seq<Action>)
    requires Trace(c, ss, acts)
    ensures IsRun(c, ss)
  {
    forall k | 0 <= k < |ss| - 1 ensures Next(c, ss[k], ss[k + 1]) {
      assert Enabled(c, ss[k], acts[k]) && ss[k + 1] == Do(c, ss[k], acts[k]);
    }
  }

  /** The action is a failed attempt to upload chunk j. */
  function Failed(s: State, a: Action, j: nat): nat {
    if a.Try? && !a.outcome.PostOk? && a.w < |s.workers| && s.workers[a.w].Trying? && s.workers[a.w].job == j
    then 1 else 0
  }

  /** How many of the first k actions were. */
  function Failures(ss: seq<State>, acts: seq<Action>, k: nat, j: nat): nat {
    if k == 0 || k > |acts| || k > |ss| then 0
    else Failures(ss, acts, k - 1, j) + Failed(ss[k - 1], acts[k - 1], j)
  }

  function Tally(ss: seq<State>, acts: seq<Action>, k: nat): (f: nat -> nat)
    ensures forall j: nat :: f(j) == Failures(ss, acts, k, j)
  {
    j => Failures(ss, acts, k, j)
  }

  /** A read that failed while there was something to read. */
  predicate BadRead(c: Config, s: State, a: Action) { a == Read(false) && s.sent < c.total }

  ghost predicate SomeBadRead(c: Config, ss: seq<State>, acts: seq<Action>, k: nat) {
    exists m :: 0 <= m < k && m < |acts| && m < |ss| && BadRead(c, ss[m], acts[m])
  }

  // ------------------------------------------------- failures and attempts agree

  /** f counts the failures: none before the first attempt, and one less than the attempt under way. */
  ghost predicate Tallied(s: State, f: nat -> nat) {
    && (forall j: nat :: j > s.sent ==> f(j) == 0)
    && (forall i :: 0 <= i < |s.jobs| ==> f(s.jobs[i]) == 0)
    && (forall w :: 0 <= w < |s.workers| && s.workers[w].Received? ==> f(s.workers[w].job) == 0)
    && (forall w :: 0 <= w < |s.workers| && s.workers[w].Trying? ==> f(s.workers[w].job) + 1 == s.workers[w].attempt)
  }

  lemma TryTallied(s: State, w: nat, outcome: Attempt, f: nat -> nat, g: nat -> nat)
    requires Conserved(s) && Tallied(s, f) && w < |s.workers| && s.workers[w].Trying?
    requires forall j: nat :: g(j) == f(j) + if !outcome.PostOk? && j == s.workers[w].job then 1 else 0
    ensures Tallied(OnTry(s, w, outcome), g)
  {
    SoleHolder(s, w, s.workers[w].job);
  }

  /** Nobody tries, and the holders of untried chunks only lose or pass on what they have. */
  lemma SameTallied(s: State, x: State, f: nat -> nat)
    requires Tallied(s, f) && x.sent >= s.sent
    requires forall i :: 0 <= i < |x.jobs| ==> x.jobs[i] in s.jobs || x.jobs[i] > s.sent
    requires forall w :: 0 <= w < |x.workers| && x.workers[w].Received? ==>
               (w < |s.workers| && x.workers[w] == s.workers[w]) || x.workers[w].job in s.jobs
    requires forall w :: 0 <= w < |x.workers| && x.workers[w].Trying? ==>
               w < |s.workers| && (x.workers[w] == s.workers[w]
                                   || (s.workers[w] == Received(x.workers[w].job) && x.workers[w].attempt == 1))
    ensures Tallied(x, f)
  {
    assert forall j: nat :: j in s.jobs ==> f(j) == 0;
  }

  lemma PassTallied(c: Config, s: State, a: Action, f: nat -> nat)
    requires Tallied(s, f) && Enabled(c, s, a) && (a.Take? || a.Leave? || a.Deliver?)
    ensures Tallied(Do(c, s, a), f)
  {
    SameTallied(s, Do(c, s, a), f);
  }

  lemma LookTallied(c: Config, s: State, a: Action, f: nat -> nat)
    requires Tallied(s, f) && Enabled(c, s, a) && (a.Look? || a.GiveUp?)
    ensures Tallied(Do(c, s, a), f)
  {
    SameTallied(s, Do(c, s, a), f);
  }

  lemma OtherTallied(c: Config, s: State, a: Action, f: nat -> nat)
    requires Tallied(s, f) && Enabled(c, s, a) && !WorkerAction(a)
    ensures Tallied(Do(c, s, a), f)
  {
    SameTallied(s, Do(c, s, a), f);
  }

  lemma StepTallied(c: Config, s: State, a: Action, f: nat -> nat, g: nat -> nat)
    requires Conserved(s) && Tallied(s, f) && Enabled(c, s, a)
    requires forall j: nat :: g(j) == f(j) + Failed(s, a, j)
    ensures Tallied(Do(c, s, a), g)
  {
    if a.Try? {
      TryTallied(s, a.w, a.outcome, f, g);
    } else if a.Take? || a.Leave? || a.Deliver? {
      PassTallied(c, s, a, g);
    } else if a.Look? || a.GiveUp? {
      LookTallied(c, s, a, g);
    } else {
      OtherTallied(c, s, a, g);
    }
  }

  // -------------------------------------------------------- who is to blame

  /** A third failure is on its way to an error, and an error has a third failure or a bad read behind it. */
  ghost predicate Blamed(s: State, f: nat -> nat, bad: bool) {
    && (forall j: nat :: f(j) >= 3 ==> s.error || AtFourth(s, j))
    && (bad ==> s.error)
    && (s.error ==> bad || exists j: nat :: f(j) >= 3)
  }

  predicate AtFourth(s: State, j: nat) { exists w :: 0 <= w < |s.workers| && s.workers[w] == Trying(j, 4) }

  lemma TryBlamed(s: State, w: nat, outcome: Attempt, f: nat -> nat, g: nat -> nat, bad: bool)
    requires Tallied(s, f) && Blamed(s, f, bad) && w < |s.workers| && s.workers[w].Trying?
    requires s.workers[w].attempt <= MAX_RETRIES
    requires forall j: nat :: g(j) == f(j) + if !outcome.PostOk? && j == s.workers[w].job then 1 else 0
    ensures Blamed(OnTry(s, w, outcome), g, bad)
  {
    var x, job := OnTry(s, w, outcome), s.workers[w].job;
    forall j: nat | g(j) >= 3 ensures x.error || AtFourth(x, j) {
      if j == job {
        assert f(j) + 1 == s.workers[w].attempt;
        assert x.workers[w] == Trying(j, 4);
      } else if !s.error {
        var v :| 0 <= v < |s.workers| && s.workers[v] == Trying(j, 4);
        assert x.workers[v] == Trying(j, 4);
      }
    }
    if x.error && !bad {
      var j: nat :| f(j) >= 3;
      assert g(j) >= 3;
    }
  }

  lemma GiveUpBlamed(s: State, w: nat, f: nat -> nat, bad: bool)
    requires Tallied(s, f) && Blamed(s, f, bad) && w < |s.workers| && s.workers[w].Trying?
    requires s.workers[w].attempt > MAX_RETRIES
    ensures Blamed(OnGiveUp(s, w), f, bad)
  {
    assert f(s.workers[w].job) >= 3;
  }

  /** A step that leaves the trying workers and the error alone. */
  lemma SameBlamed(s: State, x: State, f: nat -> nat, bad: bool)
    requires Blamed(s, f, bad) && x.error == s.error && |x.workers| == |s.workers|
    requires forall w :: 0 <= w < |s.workers| && s.workers[w].Trying? ==> x.workers[w] == s.workers[w]
    ensures Blamed(x, f, bad)
  {
    forall j: nat | f(j) >= 3 ensures x.error || AtFourth(x, j) {
      if !s.error {
        var v :| 0 <= v < |s.workers| && s.workers[v] == Trying(j, 4);
        assert x.workers[v] == Trying(j, 4);
      }
    }
  }

  lemma ReadBlamed(c: Config, s: State, ok: bool, f: nat -> nat, bad: bool)
    requires Blamed(s, f, bad) && !s.cancelled
    ensures Blamed(OnRead(c, s, ok), f, bad || BadRead(c, s, Read(ok)))
  {
    if !BadRead(c, s, Read(ok)) { SameBlamed(s, OnRead(c, s, ok), f, bad); }
  }

  lemma StepBlamed(c: Config, s: State, a: Action, f: nat -> nat, g: nat -> nat, bad: bool)
    requires Tallied(s, f) && Blamed(s, f, bad) && Enabled(c, s, a) && !s.cancelled && !a.Cancel?
    requires forall j: nat :: g(j) == f(j) + Failed(s, a, j)
    ensures Blamed(Do(c, s, a), g, bad || BadRead(c, s, a))
  {
    if a.Try? {
      TryBlamed(s, a.w, a.outcome, f, g, bad);
    } else {
      if a.GiveUp? {
        GiveUpBlamed(s, a.w, f, bad);
      } else if a.Read? {
        ReadBlamed(c, s, a.readOk, f, bad);
      } else {
        SameBlamed(s, Do(c, s, a), f, bad);
      }
      SameCounts(Do(c, s, a), f, g, bad || BadRead(c, s, a));
    }
  }

  lemma SameCounts(s: State, f: nat -> nat, g: nat -> nat, bad: bool)
    requires Blamed(s, f, bad) && forall j: nat :: g(j) == f(j)
    ensures Blamed(s, g, bad)
  {
    if s.error && !bad {
      var j: nat :| f(j) >= 3;
      assert g(j) >= 3;
    }
  }

  // --------------------------------------------------------------- the return

  /** Without a cancellation the pool returns what the error slot says. */
  predicate Honest(s: State) { !s.cancelled && (s.coll.Returned? ==> (s.coll.ok <==> !s.error)) }

  lemma StepHonest(c: Config, s: State, a: Action)
    requires Control(c, s) && Honest(s) && c.workers >= 1 && Enabled(c, s, a) && !a.Cancel?
    ensures Honest(Do(c, s, a))
  {
    if s.coll.Returned? && !s.error {
      assert s.workers[0].Exited?;
    }
  }

  lemma {:induction false} TraceLaw(c: Config, ss: seq<State>, acts: seq<Action>, k: nat)
    requires Trace(c, ss, acts) && k < |ss| && c.workers >= 1 && Cancel !in acts
    ensures Tallied(ss[k], Tally(ss, acts, k)) && Blamed(ss[k], Tally(ss, acts, k), SomeBadRead(c, ss, acts, k))
    ensures Honest(ss[k])
  {
    if k > 0 {
      var s, a := ss[k - 1], acts[k - 1];
      var f, g := Tally(ss, acts, k - 1), Tally(ss, acts, k);
      TraceLaw(c, ss, acts, k - 1);
      TraceIsRun(c, ss, acts);
      PostsBounded(c, ss, k - 1);
      RunLength(c, ss, k - 1);
      StepTallied(c, s, a, f, g);
      StepBlamed(c, s, a, f, g, SomeBadRead(c, ss, acts, k - 1));
      StepHonest(c, s, a);
      assert SomeBadRead(c, ss, acts, k) <==> SomeBadRead(c, ss, acts, k - 1) || BadRead(c, s, a);
    }
  }

  /** No chunk failed three times. */
  ghost predicate Tolerable(ss: seq<State>, acts: seq<Action>, k: nat) {
    forall j: nat :: Failures(ss, acts, k, j) <= 2
  }

  lemma BlameAtEnd(s: State, f: nat -> nat, bad: bool, ss: seq<State>, acts: seq<Action>, k: nat)
    requires Blamed(s, f, bad) && AllExited(s.workers) && forall j: nat :: f(j) == Failures(ss, acts, k, j)
    ensures !s.error <==> Tolerable(ss, acts, k) && !bad
  {
    assert forall j: nat :: !AtFourth(s, j);
    if !s.error {
      forall j: nat ensures Failures(ss, acts, k, j) <= 2 { assert !(f(j) >= 3); }
    }
    if Tolerable(ss, acts, k) {
      forall j: nat ensures !(f(j) >= 3) { assert Failures(ss, acts, k, j) <= 2; }
    }
  }

  lemma ErrorAtEnd(c: Config, ss: seq<State>, acts: seq<Action>)
    requires Trace(c, ss, acts) && c.workers >= 1 && Cancel !in acts && AllExited(ss[|acts|].workers)
    ensures !ss[|acts|].error <==> Tolerable(ss, acts, |acts|) && !SomeBadRead(c, ss, acts, |acts|)
    ensures Honest(ss[|acts|])
  {
    TraceLaw(c, ss, acts, |acts|);
    BlameAtEnd(ss[|acts|], Tally(ss, acts, |acts|), SomeBadRead(c, ss, acts, |acts|), ss, acts, |acts|);
  }

  /**
   A run without cancellation that cannot go on has succeeded, with one segment for each of
   1..total, if and only if no chunk failed three times and no read failed.
   */
  lemma PoolSucceedsIff(c: Config, ss: seq<State>, acts: seq<Action>)
    requires Trace(c, ss, acts) && c.workers >= 1 && Cancel !in acts
    requires forall a :: Enabled(c, ss[|acts|], a) ==> a.Cancel?
    ensures var s := ss[|acts|];
            && s.coll.Returned?
            && (s.coll.ok <==> Tolerable(ss, acts, |acts|) && !SomeBadRead(c, ss, acts, |acts|))
            && (s.coll.ok ==> Complete(c, s.segments))
  {
    TraceIsRun(c, ss, acts);
    DeadEnd(c, ss);
    ErrorAtEnd(c, ss, acts);
    assert Reachable(c, ss[|acts|]);
    ReachableInv(c, ss[|acts|]);
  }

  // ------------------------------------------------------------ cancellation

  /** Cancelled before the results were drained: the pool will not report success. */
  predicate Doomed(s: State) { s.cancelled && (s.coll.Waiting? || s.coll.Holding? || s.coll == Returned(false)) }

  lemma StaysDoomed(c: Config, s: State, a: Action)
    requires Doomed(s) && Enabled(c, s, a)
    ensures Doomed(Do(c, s, a))
  {
  }

  lemma {:induction false} CancelledFails(c: Config, ss: seq<State>, acts: seq<Action>, m: nat, k: nat)
    requires Trace(c, ss, acts) && m < k < |ss| && acts[m] == Cancel && (ss[m].coll.Waiting? || ss[m].coll.Holding?)
    ensures Doomed(ss[k]) && ss[k].coll != Returned(true)
  {
    if k > m + 1 {
      CancelledFails(c, ss, acts, m, k - 1);
      StaysDoomed(c, ss[k - 1], acts[k - 1]);
    }
  }

  /** Chunk j has not been tried, and nobody is about to. */
  predicate Untried(s: State, j: nat) {
    Posts(s, j) == 0 && forall w :: 0 <= w < |s.workers| ==> !(s.workers[w].Trying? && s.workers[w].job == j)
  }

  lemma StaysUntried(c: Config, s: State, a: Action, j: nat)
    requires s.cancelled && Enabled(c, s, a)
    ensures Untried(s, j) ==> Untried(Do(c, s, a), j)
    ensures Do(c, s, a).cancelled && Do(c, s, a).segments == s.segments
    ensures Do(c, s, a).sent + Pending(Do(c, s, a)) <= s.sent + Pending(s)
  {
  }

  /** The chunk that the dispatcher has read and not sent. */
  function Pending(s: State): nat { if s.disp.Sending? then 1 else 0 }

  /**
   After a cancellation no further chunk is read, so at most one is still sent; no untried
   chunk is posted, and no further segment collected.
   */
  lemma {:induction false} CancelStops(c: Config, ss: seq<State>, acts: seq<Action>, m: nat, k: nat, j: nat)
    requires Trace(c, ss, acts) && m < k < |ss| && acts[m] == Cancel
    ensures Untried(ss[m], j) ==> Untried(ss[k], j)
    ensures ss[k].cancelled && ss[k].segments == ss[m].segments
    ensures ss[k].sent + Pending(ss[k]) <= ss[m].sent + Pending(ss[m])
  {
    if k > m + 1 {
      CancelStops(c, ss, acts, m, k - 1, j);
      StaysUntried(c, ss[k - 1], acts[k - 1], j);
    }
  }

  // ------------------------------------------------------- the result channel

  /** Worker 0 has delivered n chunks that nobody has collected. */
  predicate Piled(c: Config, s: State, n: nat) {
    && |s.workers| == c.workers >= 1 && s.workers[0] == Idle && |s.results| == n && s.sent == n
    && s.disp.Reading? && s.jobs == [] && !s.cancelled && s.coll.Waiting?
  }

  lemma OneMore(c: Config, s: State, n: nat) returns (x: State)
    requires c.workers >= 1 && Reachable(c, s) && Piled(c, s, n) && n < c.total && n < 2 * c.workers
    ensures Reachable(c, x) && Piled(c, x, n + 1)
  {
    ReachStep(c, s, Read(true));
    x := Do(c, s, Read(true));
    ReachStep(c, x, Send);
    x := Do(c, x, Send);
    ReachStep(c, x, Take(0));
    x := Do(c, x, Take(0));
    ReachStep(c, x, Look(0));
    x := Do(c, x, Look(0));
    ReachStep(c, x, Try(0, PostOk));
    x := Do(c, x, Try(0, PostOk));
    ReachStep(c, x, Deliver(0));
    x := Do(c, x, Deliver(0));
  }

  /** Up to two results for each worker can wait for the collector. */
  lemma {:induction false} ResultsPile(c: Config, n: nat) returns (s: State)
    requires c.workers >= 1 && n <= c.total && n <= 2 * c.workers
    ensures Reachable(c, s) && |s.results| == n && Piled(c, s, n)
    decreases n
  {
    if n == 0 {
      s := Init(c);
      assert IsRun(c, [s]) && [s][|[s]| - 1] == s;
    } else {
      s := ResultsPile(c, n - 1);
      s := OneMore(c, s, n - 1);
    }
  }

  // -------------------------------------------------------------- three posts

  /** A chunk can be posted three times, the third post being the one that counts. */
  lemma ThreePosts(c: Config) returns (s: State)
    requires c.workers >= 1 && c.total >= 1
    ensures Reachable(c, s) && Posts(s, 1) == 3 && Uploaded(1) in s.workers && !s.error
  {
    s := Init(c);
    assert IsRun(c, [s]) && [s][|[s]| - 1] == s;
    s := TakesChunk(c, s, 0);
    ReachStep(c, s, Try(0, PostFailed));
    s := Do(c, s, Try(0, PostFailed));
    ReachStep(c, s, Try(0, PostFailed));
    s := Do(c, s, Try(0, PostFailed));
    ReachStep(c, s, Try(0, PostOk));
    s := Do(c, s, Try(0, PostOk));
    assert s.workers[0] == Uploaded(1);
  }
}
