/**
 What is left of the pool after it returned: the dispatcher may stay blocked for ever on the
 job channel, with its file buffer and goroutine. This module says exactly when.
 */
module PoolLeak {
  import opened UploadPool

  /** The dispatcher waits for room in a full channel that nobody will read again. */
  predicate Leaked(c: Config, s: State) {
    s.disp.Sending? && |s.jobs| >= 2 * c.workers && AllExited(s.workers)
  }

  /** No step, not even a cancellation, ends that wait. */
  lemma LeakStays(c: Config, s: State, a: Action)
    requires Leaked(c, s) && Enabled(c, s, a)
    ensures Leaked(c, Do(c, s, a))
  {
  }

  /** A run that cannot go on has returned, its workers are gone, and its dispatcher has stopped or leaks. */
  lemma DeadEnd(c: Config, run: seq<State>)
    requires IsRun(c, run) && forall a :: Enabled(c, run[|run| - 1], a) ==> a.Cancel?
    ensures var s := run[|run| - 1];
            s.coll.Returned? && AllExited(s.workers) && (s.disp.Stopped? <==> !Leaked(c, s))
  {
    var s := run[|run| - 1];
    if !s.coll.Returned? {
      var a := NeverStuck(c, run);
    }
    RunLength(c, run, |run| - 1);
    assert s.disp.Reading? ==> Enabled(c, s, Read(true));
    assert s.disp.Sending? && |s.jobs| < 2 * c.workers ==> Enabled(c, s, Send);
  }

  // ---------------------------------------------------- a leak needs many chunks

  function CountIf(ws: seq<Worker>, f: Worker -> bool): nat {
    if ws == [] then 0 else (if f(ws[0]) then 1 else 0) + CountIf(ws[1..], f)
  }

  lemma {:induction false} CountUpdate(ws: seq<Worker>, w: nat, to: Worker, f: Worker -> bool)
    requires w < |ws|
    ensures CountIf(ws[w := to], f) == CountIf(ws, f) - (if f(ws[w]) then 1 else 0) + if f(to) then 1 else 0
  {
    if w == 0 {
      assert ws[w := to][1..] == ws[1..];
    } else {
      assert ws[w := to][1..] == ws[1..][w - 1 := to];
      CountUpdate(ws[1..], w - 1, to, f);
    }
  }

  lemma {:induction false} CountAll(ws: seq<Worker>, f: Worker -> bool)
    ensures (forall i :: 0 <= i < |ws| ==> f(ws[i])) ==> CountIf(ws, f) == |ws|
    ensures (forall i :: 0 <= i < |ws| ==> !f(ws[i])) ==> CountIf(ws, f) == 0
  {
    if ws != [] { CountAll(ws[1..], f); }
  }

  predicate IsExited(w: Worker) { w.Exited? }

  predicate IsBusy(w: Worker) { w.Received? || w.Trying? || w.Uploaded? }

  /** Where the chunks sent so far are, counted. */
  function Spread(s: State): nat {
    |s.jobs| + CountIf(s.workers, IsBusy) + |s.results| + (if s.coll.Holding? then 1 else 0)
    + |s.segments| + |s.lost| + |s.skipped| + |s.drained|
  }

  /** Until the dispatcher stops, every worker that exited took a chunk with it. */
  predicate Toll(s: State) {
    s.sent == Spread(s) && (!s.disp.Stopped? ==> CountIf(s.workers, IsExited) <= |s.lost| + |s.skipped|)
  }

  lemma InitToll(c: Config)
    ensures Toll(Init(c))
  {
    CountAll(Init(c).workers, IsBusy);
    CountAll(Init(c).workers, IsExited);
  }

  /** How a step of worker w changes the two counts. */
  lemma MoveCounts(s: State, w: nat, to: Worker)
    requires w < |s.workers|
    ensures var ws := Move(s, w, to).workers;
            && CountIf(ws, IsBusy) == CountIf(s.workers, IsBusy)
                                      - (if IsBusy(s.workers[w]) then 1 else 0) + (if IsBusy(to) then 1 else 0)
            && CountIf(ws, IsExited) == CountIf(s.workers, IsExited)
                                        - (if IsExited(s.workers[w]) then 1 else 0) + (if IsExited(to) then 1 else 0)
  {
    CountUpdate(s.workers, w, to, IsBusy);
    CountUpdate(s.workers, w, to, IsExited);
  }

  lemma TakeToll(c: Config, s: State, a: Action)
    requires Toll(s) && Enabled(c, s, a) && (a.Take? || a.Leave? || a.Look?)
    ensures Toll(Do(c, s, a))
  {
    MoveCounts(s, a.w, Do(c, s, a).workers[a.w]);
  }

  lemma TryToll(s: State, w: nat, outcome: Attempt)
    requires Toll(s) && w < |s.workers| && s.workers[w].Trying?
    ensures Toll(OnTry(s, w, outcome))
  {
    MoveCounts(s, w, OnTry(s, w, outcome).workers[w]);
  }

  lemma GiveUpToll(s: State, w: nat)
    requires Toll(s) && w < |s.workers| && s.workers[w].Trying?
    ensures Toll(OnGiveUp(s, w))
  {
    MoveCounts(s, w, Exited);
  }

  lemma DeliverToll(s: State, w: nat)
    requires Toll(s) && w < |s.workers| && s.workers[w].Uploaded?
    ensures Toll(OnDeliver(s, w))
  {
    MoveCounts(s, w, Idle);
  }

  lemma StepToll(c: Config, s: State, a: Action)
    requires Toll(s) && Enabled(c, s, a)
    ensures Toll(Do(c, s, a))
  {
    match a
    case Try(w, outcome) => TryToll(s, w, outcome);
    case GiveUp(w) => GiveUpToll(s, w);
    case Deliver(w) => DeliverToll(s, w);
    case _ =>
      if WorkerAction(a) {
        TakeToll(c, s, a);
      }
  }

  lemma {:induction false} RunToll(c: Config, run: seq<State>, k: nat)
    requires IsRun(c, run) && k < |run|
    ensures Toll(run[k])
  {
    if k == 0 {
      InitToll(c);
    } else {
      RunToll(c, run, k - 1);
      assert Next(c, run[k - 1], run[k - 1 + 1]);
      var a :| Enabled(c, run[k - 1], a) && run[k] == Do(c, run[k - 1], a);
      StepToll(c, run[k - 1], a);
    }
  }

  lemma LeakNeedsChunks(c: Config, s: State)
    requires Reachable(c, s) && Leaked(c, s)
    ensures c.total > 3 * c.workers
  {
    var run :| IsRun(c, run) && run[|run| - 1] == s;
    RunToll(c, run, |run| - 1);
    RunLength(c, run, |run| - 1);
    CountAll(s.workers, IsExited);
  }

  // ------------------------------------------------------- and many chunks can leak

  /** w workers are gone with one chunk each, the others idle, nothing is queued. */
  predicate Doomed(c: Config, s: State, w: nat) {
    && |s.workers| == c.workers && w <= c.workers
    && (forall i :: 0 <= i < c.workers ==> s.workers[i] == if i < w then Exited else Idle)
    && s.disp.Reading? && s.sent == w && s.jobs == [] && s.results == []
    && !s.cancelled && !s.closed && s.coll.Waiting?
  }

  /** The next chunk reaches worker w. */
  lemma TakesChunk(c: Config, s: State, w: nat) returns (x: State)
    requires Reachable(c, s) && Doomed(c, s, w) && w < c.workers && w < c.total
    ensures Reachable(c, x) && x.workers == s.workers[w := Trying(w + 1, 1)]
    ensures x == s.(workers := x.workers, sent := w + 1)
  {
    ReachStep(c, s, Read(true));
    x := Do(c, s, Read(true));
    ReachStep(c, x, Send);
    x := Do(c, x, Send);
    ReachStep(c, x, Take(w));
    x := Do(c, x, Take(w));
    ReachStep(c, x, Look(w));
    x := Do(c, x, Look(w));
    assert x.jobs == [];
  }

  lemma Retry(c: Config, s: State, w: nat) returns (x: State)
    requires Reachable(c, s) && w < |s.workers| && s.workers[w].Trying? && s.workers[w].attempt <= MAX_RETRIES
    ensures Reachable(c, x)
    ensures x == Move(s, w, Trying(s.workers[w].job, s.workers[w].attempt + 1))
  {
    ReachStep(c, s, Try(w, NoConnection));
    x := Do(c, s, Try(w, NoConnection));
  }

  /** Worker w fails three times and exits. */
  lemma WorkerDies(c: Config, s: State, w: nat) returns (x: State)
    requires Reachable(c, s) && Doomed(c, s, w) && w < c.workers && w < c.total
    ensures Reachable(c, x) && Doomed(c, x, w + 1)
  {
    x := TakesChunk(c, s, w);
    x := Retry(c, x, w);
    x := Retry(c, x, w);
    x := Retry(c, x, w);
    ReachStep(c, x, GiveUp(w));
    x := Do(c, x, GiveUp(w));
  }

  lemma {:induction false} WorkersDie(c: Config, w: nat) returns (s: State)
    requires w <= c.workers && w <= c.total
    ensures Reachable(c, s) && Doomed(c, s, w)
    decreases w
  {
    if w == 0 {
      s := Init(c);
      assert IsRun(c, [s]) && [s][|[s]| - 1] == s;
    } else {
      s := WorkersDie(c, w - 1);
      s := WorkerDies(c, s, w - 1);
    }
  }

  /** All workers gone, n chunks queued. */
  predicate Filled(c: Config, s: State, n: nat) {
    && AllExited(s.workers) && |s.jobs| == n && s.sent == c.workers + n
    && s.disp.Reading? && s.results == [] && !s.cancelled && !s.closed && s.coll.Waiting?
  }

  lemma {:induction false} QueueFills(c: Config, n: nat) returns (s: State)
    requires n <= 2 * c.workers && c.total > 3 * c.workers
    ensures Reachable(c, s) && Filled(c, s, n)
    decreases n
  {
    if n == 0 {
      s := WorkersDie(c, c.workers);
    } else {
      s := QueueFills(c, n - 1);
      ReachStep(c, s, Read(true));
      s := Do(c, s, Read(true));
      ReachStep(c, s, Send);
      s := Do(c, s, Send);
    }
  }

  /** The pool returns while the dispatcher leaks. */
  lemma ReturnsLeaking(c: Config) returns (s: State)
    requires c.total > 3 * c.workers
    ensures Reachable(c, s) && s.coll.Returned? && Leaked(c, s)
  {
    s := QueueFills(c, 2 * c.workers);
    ReachStep(c, s, Read(true));
    s := Do(c, s, Read(true));
    ReachStep(c, s, Close);
    s := Do(c, s, Close);
    ReachStep(c, s, Finish);
    s := Do(c, s, Finish);
    ReachStep(c, s, CheckErrors);
    s := Do(c, s, CheckErrors);
  }

  /**
   The dispatcher can be left blocked for ever if and only if the file has more than three
   chunks for each worker: one that each takes along, two in the channel, and one in hand.
   */
  lemma LeakIff(c: Config)
    ensures (exists s :: Reachable(c, s) && s.coll.Returned? && Leaked(c, s)) <==> c.total > 3 * c.workers
  {
    if s :| Reachable(c, s) && s.coll.Returned? && Leaked(c, s) {
      LeakNeedsChunks(c, s);
    }
    if c.total > 3 * c.workers {
      var s := ReturnsLeaking(c);
    }
  }
}
