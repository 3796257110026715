/**
 The upload pool: a dispatcher, W workers, a closer and a collector joined by two
 bounded channels, a one-slot error channel and a cancellable context. One state
 machine, one atomic action per channel operation or context check.
 */
module UploadPool {

  /** Number of chunks of the file and number of NNTP connections. */
  datatype Config = Config(total: nat, workers: nat)

  datatype Worker =
    | Idle
    | Received(job: nat)
    | Trying(job: nat, attempt: nat)
    | Uploaded(job: nat)
    | Exited

  datatype Dispatcher = Reading | Sending | Stopped

  datatype Collector =
    | Waiting
    | Holding(seg: nat)
    | Checking
    | Returned(ok: bool)

  /** `sent` chunks were put into the job channel; chunk sent+1 is next. The job channel
      is closed when the dispatcher has stopped. `lost` and `skipped` record the chunks that a
      worker dropped with an error and with a cancellation, `drained` the segments that the
      collector dropped; `posts` counts calls of uploadChunk, `stored` lists the chunks whose
      post the server accepted. */
  datatype State = State(
    disp: Dispatcher, sent: nat, jobs: seq<nat>, workers: seq<Worker>,
    results: seq<nat>, closed: bool, error: bool, cancelled: bool,
    coll: Collector, segments: seq<nat>,
    lost: seq<nat>, skipped: seq<nat>, drained: seq<nat>, posts: map<nat, nat>, stored: seq<nat>)

  datatype Attempt = NoConnection | PostFailed | PostOk

  datatype Action =
    | Cancel
    | Read(readOk: bool)
    | Send
    | Take(w: nat)
    | Leave(w: nat)
    | Look(w: nat)
    | Try(w: nat, outcome: Attempt)
    | GiveUp(w: nat)
    | Deliver(w: nat)
    | Close
    | Receive
    | Keep
    | Finish
    | CheckErrors

  const MAX_RETRIES := 3

  function Init(c: Config): State {
    State(Reading, 0, [], seq(c.workers, _ => Idle), [], false, false, false,
          Waiting, [], [], [], [], map[], [])
  }

  predicate AllExited(ws: seq<Worker>) {
    forall w :: 0 <= w < |ws| ==> ws[w].Exited?
  }

  predicate Enabled(c: Config, s: State, a: Action) {
    match a
    case Cancel => !s.cancelled
    case Read(_) => s.disp.Reading?
    case Send => s.disp.Sending? && |s.jobs| < 2 * c.workers
    case Take(w) => w < |s.workers| && s.workers[w].Idle? && s.jobs != []
    case Leave(w) => w < |s.workers| && s.workers[w].Idle? && s.jobs == [] && s.disp.Stopped?
    case Look(w) => w < |s.workers| && s.workers[w].Received?
    case Try(w, _) => w < |s.workers| && s.workers[w].Trying? && s.workers[w].attempt <= MAX_RETRIES
    case GiveUp(w) => w < |s.workers| && s.workers[w].Trying? && s.workers[w].attempt > MAX_RETRIES
    case Deliver(w) => w < |s.workers| && s.workers[w].Uploaded? && |s.results| < 2 * c.workers
    case Close => !s.closed && AllExited(s.workers)
    case Receive => s.coll.Waiting? && s.results != []
    case Keep => s.coll.Holding?
    case Finish => s.coll.Waiting? && s.results == [] && s.closed
    case CheckErrors => s.coll.Checking?
  }

  function Posts(s: State, j: nat): nat { if j in s.posts then s.posts[j] else 0 }

  function Move(s: State, w: nat, to: Worker): State
    requires w < |s.workers|
  {
    s.(workers := s.workers[w := to])
  }

  function OnRead(c: Config, s: State, readOk: bool): State {
    if s.sent >= c.total || s.cancelled then s.(disp := Stopped)
    else if !readOk then s.(disp := Stopped, error := true)
    else s.(disp := Sending)
  }

  function OnSend(s: State): State {
    s.(disp := Reading, sent := s.sent + 1, jobs := s.jobs + [s.sent + 1])
  }

  function OnTake(s: State, w: nat): State
    requires w < |s.workers| && s.jobs != []
  {
    Move(s, w, Received(s.jobs[0])).(jobs := s.jobs[1..])
  }

  function OnLook(s: State, w: nat): State
    requires w < |s.workers| && s.workers[w].Received?
  {
    var j := s.workers[w].job;
    if s.cancelled then Move(s, w, Exited).(skipped := s.skipped + [j]) else Move(s, w, Trying(j, 1))
  }

  function OnTry(s: State, w: nat, outcome: Attempt): State
    requires w < |s.workers| && s.workers[w].Trying?
  {
    var Trying(j, k) := s.workers[w];
    match outcome
    case NoConnection => Move(s, w, Trying(j, k + 1))
    case PostFailed => Move(s, w, Trying(j, k + 1)).(posts := s.posts[j := Posts(s, j) + 1])
    case PostOk => Move(s, w, Uploaded(j)).(posts := s.posts[j := Posts(s, j) + 1], stored := s.stored + [j])
  }

  function OnGiveUp(s: State, w: nat): State
    requires w < |s.workers| && s.workers[w].Trying?
  {
    Move(s, w, Exited).(error := true, lost := s.lost + [s.workers[w].job])
  }

  function OnDeliver(s: State, w: nat): State
    requires w < |s.workers| && s.workers[w].Uploaded?
  {
    Move(s, w, Idle).(results := s.results + [s.workers[w].job])
  }

  function OnReceive(s: State): State
    requires s.results != []
  {
    s.(coll := Holding(s.results[0]), results := s.results[1..])
  }

  function OnKeep(s: State): State
    requires s.coll.Holding?
  {
    if s.cancelled then s.(coll := Waiting, drained := s.drained + [s.coll.seg])
    else s.(coll := Waiting, segments := s.segments + [s.coll.seg])
  }

  function Do(c: Config, s: State, a: Action): State
    requires Enabled(c, s, a)
  {
    match a
    case Cancel => s.(cancelled := true)
    case Read(readOk) => OnRead(c, s, readOk)
    case Send => OnSend(s)
    case Take(w) => OnTake(s, w)
    case Leave(w) => Move(s, w, Exited)
    case Look(w) => OnLook(s, w)
    case Try(w, outcome) => OnTry(s, w, outcome)
    case GiveUp(w) => OnGiveUp(s, w)
    case Deliver(w) => OnDeliver(s, w)
    case Close => s.(closed := true)
    case Receive => OnReceive(s)
    case Keep => OnKeep(s)
    case Finish => s.(coll := if s.cancelled then Returned(false) else Checking)
    case CheckErrors => s.(coll := Returned(!s.error))
  }

  ghost predicate Next(c: Config, s: State, s': State) {
    exists a :: Enabled(c, s, a) && s' == Do(c, s, a)
  }

  /** Every interleaving: a finite sequence of states from Init, each one action apart. */
  ghost predicate IsRun(c: Config, run: seq<State>) {
    && |run| > 0 && run[0] == Init(c)
    && forall k :: 0 <= k < |run| - 1 ==> Next(c, run[k], run[k + 1])
  }

  // ---------------------------------------------------------- conservation

  predicate Holds(w: Worker, j: nat) {
    (w.Received? || w.Trying? || w.Uploaded?) && w.job == j
  }

  function Load(w: Worker, j: nat): nat { if Holds(w, j) then 1 else 0 }

  /** How many workers hold chunk j. */
  function Held(ws: seq<Worker>, j: nat): nat {
    if ws == [] then 0 else Load(ws[0], j) + Held(ws[1..], j)
  }

  function InHand(k: Collector, j: nat): nat { if k == Holding(j) then 1 else 0 }

  lemma {:induction false} HeldUpdate(ws: seq<Worker>, w: nat, to: Worker, j: nat)
    requires w < |ws|
    ensures Held(ws[w := to], j) == Held(ws, j) - Load(ws[w], j) + Load(to, j)
  {
    if w == 0 {
      assert ws[0 := to][1..] == ws[1..];
    } else {
      assert ws[w := to][1..] == ws[1..][w - 1 := to];
      HeldUpdate(ws[1..], w - 1, to, j);
    }
  }

  lemma {:induction false} HeldZero(ws: seq<Worker>, j: nat)
    requires forall w :: 0 <= w < |ws| ==> !Holds(ws[w], j)
    ensures Held(ws, j) == 0
  {
    if ws != [] { HeldZero(ws[1..], j); }
  }

  lemma {:induction false} HeldOnce(ws: seq<Worker>, w: nat, j: nat)
    requires w < |ws|
    ensures Load(ws[w], j) <= Held(ws, j)
  {
    if w > 0 { HeldOnce(ws[1..], w - 1, j); }
  }

  lemma {:induction false} HeldTwice(ws: seq<Worker>, v: nat, w: nat, j: nat)
    requires v < w < |ws|
    ensures Load(ws[v], j) + Load(ws[w], j) <= Held(ws, j)
  {
    if v == 0 {
      HeldOnce(ws[1..], w - 1, j);
    } else {
      HeldTwice(ws[1..], v - 1, w - 1, j);
    }
  }

  /** Occurrences of j in a list. */
  function Occ(q: seq<nat>, j: nat): nat {
    if q == [] then 0 else (if q[0] == j then 1 else 0) + Occ(q[1..], j)
  }

  lemma {:induction false} OccPush(q: seq<nat>, x: nat, j: nat)
    ensures Occ(q + [x], j) == Occ(q, j) + if x == j then 1 else 0
  {
    if q == [] {
      assert q + [x] == [x] && [x][1..] == [];
    } else {
      assert (q + [x])[1..] == q[1..] + [x];
      OccPush(q[1..], x, j);
    }
  }

  /** In how many places chunk j is: queued, held, delivered, in hand, collected or dropped. */
  function Count(s: State, j: nat): nat {
    Occ(s.jobs, j) + Held(s.workers, j) + Occ(s.results, j) + InHand(s.coll, j)
    + Occ(s.segments, j) + Occ(s.lost, j) + Occ(s.skipped, j) + Occ(s.drained, j)
  }

  /** Each dispatched chunk is in exactly one place, and nothing else is anywhere. */
  ghost predicate Conserved(s: State) {
    forall j: nat :: Count(s, j) == if 1 <= j <= s.sent then 1 else 0
  }

  lemma MoveCount(s: State, w: nat, to: Worker, j: nat)
    requires w < |s.workers|
    ensures Count(Move(s, w, to), j) == Count(s, j) - Load(s.workers[w], j) + Load(to, j)
  {
    HeldUpdate(s.workers, w, to, j);
  }

  lemma TakeCount(s: State, w: nat, j: nat)
    requires w < |s.workers| && s.jobs != [] && s.workers[w].Idle?
    ensures Count(OnTake(s, w), j) == Count(s, j)
  {
    MoveCount(s, w, Received(s.jobs[0]), j);
  }

  lemma LookCount(s: State, w: nat, j: nat)
    requires w < |s.workers| && s.workers[w].Received?
    ensures Count(OnLook(s, w), j) == Count(s, j)
  {
    MoveCount(s, w, OnLook(s, w).workers[w], j);
    OccPush(s.skipped, s.workers[w].job, j);
  }

  lemma TryCount(s: State, w: nat, outcome: Attempt, j: nat)
    requires w < |s.workers| && s.workers[w].Trying?
    ensures Count(OnTry(s, w, outcome), j) == Count(s, j)
  {
    MoveCount(s, w, OnTry(s, w, outcome).workers[w], j);
  }

  lemma GiveUpCount(s: State, w: nat, j: nat)
    requires w < |s.workers| && s.workers[w].Trying?
    ensures Count(OnGiveUp(s, w), j) == Count(s, j)
  {
    MoveCount(s, w, Exited, j);
    OccPush(s.lost, s.workers[w].job, j);
  }

  lemma DeliverCount(s: State, w: nat, j: nat)
    requires w < |s.workers| && s.workers[w].Uploaded?
    ensures Count(OnDeliver(s, w), j) == Count(s, j)
  {
    MoveCount(s, w, Idle, j);
    OccPush(s.results, s.workers[w].job, j);
  }

  lemma KeepCount(s: State, j: nat)
    requires s.coll.Holding?
    ensures Count(OnKeep(s), j) == Count(s, j)
  {
    OccPush(s.segments, s.coll.seg, j);
    OccPush(s.drained, s.coll.seg, j);
  }

  predicate WorkerAction(a: Action) {
    a.Take? || a.Leave? || a.Look? || a.Try? || a.GiveUp? || a.Deliver?
  }

  lemma WorkerCount(c: Config, s: State, a: Action, j: nat)
    requires Enabled(c, s, a) && WorkerAction(a)
    ensures Count(Do(c, s, a), j) == Count(s, j)
  {
    match a
    case Take(w) => TakeCount(s, w, j);
    case Leave(w) => MoveCount(s, w, Exited, j);
    case Look(w) => LookCount(s, w, j);
    case Try(w, outcome) => TryCount(s, w, outcome, j);
    case GiveUp(w) => GiveUpCount(s, w, j);
    case Deliver(w) => DeliverCount(s, w, j);
  }

  /** One action changes the number of places of chunk j only by dispatching it. */
  lemma StepCount(c: Config, s: State, a: Action, j: nat)
    requires Enabled(c, s, a)
    ensures Count(Do(c, s, a), j) == Count(s, j) + if a.Send? && j == s.sent + 1 then 1 else 0
  {
    if WorkerAction(a) {
      WorkerCount(c, s, a, j);
    } else if a.Send? {
      OccPush(s.jobs, s.sent + 1, j);
    } else if a.Keep? {
      KeepCount(s, j);
    }
  }

  lemma StepConserves(c: Config, s: State, a: Action)
    requires Conserved(s) && Enabled(c, s, a)
    ensures Conserved(Do(c, s, a))
  {
    var s' := Do(c, s, a);
    assert s'.sent == if a.Send? then s.sent + 1 else s.sent;
    forall j: nat ensures Count(s', j) == if 1 <= j <= s'.sent then 1 else 0 {
      StepCount(c, s, a, j);
    }
  }

  // ---------------------------------------------------------------- safety

  predicate SomeExited(ws: seq<Worker>) {
    exists w :: 0 <= w < |ws| && ws[w].Exited?
  }

  predicate Drained(s: State) { s.disp.Stopped? && s.jobs == [] }

  /** Control facts: why the dispatcher, a worker or the closer may have stopped, and that
      nothing is dropped without a record of the reason. */
  predicate Control(c: Config, s: State) {
    && |s.workers| == c.workers
    && s.sent <= c.total
    && (s.disp.Sending? ==> s.sent < c.total)
    && (s.disp.Stopped? ==> s.sent == c.total || s.error || s.cancelled)
    && (SomeExited(s.workers) ==> s.error || s.cancelled || Drained(s))
    && (s.lost != [] ==> s.error)
    && (s.skipped != [] || s.drained != [] ==> s.cancelled)
    && (s.closed ==> AllExited(s.workers))
    && (s.coll.Checking? || s.coll.Returned? ==> s.closed && s.results == [])
  }

  /** The collected segments are the numbers 1..total, each exactly once. */
  ghost predicate Complete(c: Config, segments: seq<nat>) {
    forall j: nat :: Occ(segments, j) == if 1 <= j <= c.total then 1 else 0
  }

  /** What the collector has established once it is past its loop. */
  ghost predicate Verdict(c: Config, s: State) {
    && (s.coll.Checking? ==> s.error || Complete(c, s.segments))
    && (s.coll == Returned(true) ==> Complete(c, s.segments))
  }

  /** At least one worker, or nothing to do. */
  predicate Staffed(c: Config) { c.workers >= 1 || c.total == 0 }

  ghost predicate Inv(c: Config, s: State) { Conserved(s) && Control(c, s) && Verdict(c, s) }

  lemma InitInv(c: Config)
    ensures Inv(c, Init(c))
  {
    forall j: nat ensures Count(Init(c), j) == 0 {
      HeldZero(Init(c).workers, j);
    }
  }

  lemma WorkerControl(c: Config, s: State, a: Action)
    requires Control(c, s) && Enabled(c, s, a) && WorkerAction(a)
    ensures Control(c, Do(c, s, a))
  {
  }

  lemma StepControl(c: Config, s: State, a: Action)
    requires Control(c, s) && Enabled(c, s, a)
    ensures Control(c, Do(c, s, a))
  {
    if WorkerAction(a) { WorkerControl(c, s, a); }
  }

  /** The heart of the matter: a clean end of the collector's loop means nothing is missing. */
  lemma CleanFinish(c: Config, s: State)
    requires Staffed(c) && Conserved(s) && Control(c, s)
    requires s.closed && s.results == [] && s.coll.Waiting? && !s.cancelled && !s.error
    ensures Complete(c, s.segments)
  {
    if c.workers >= 1 {
      assert s.workers[0].Exited?;
      assert Drained(s);
    }
    forall j: nat ensures Occ(s.segments, j) == if 1 <= j <= c.total then 1 else 0 {
      HeldZero(s.workers, j);
      assert Count(s, j) == if 1 <= j <= s.sent then 1 else 0;
      assert c.total == 0 ==> s.sent == 0;
    }
  }

  lemma StepVerdict(c: Config, s: State, a: Action)
    requires Staffed(c) && Inv(c, s) && Enabled(c, s, a)
    ensures Verdict(c, Do(c, s, a))
  {
    if a.Finish? && !s.cancelled && !s.error {
      CleanFinish(c, s);
    }
  }

  lemma StepInv(c: Config, s: State, a: Action)
    requires Staffed(c) && Inv(c, s) && Enabled(c, s, a)
    ensures Inv(c, Do(c, s, a))
  {
    StepConserves(c, s, a);
    StepControl(c, s, a);
    StepVerdict(c, s, a);
  }

  /** Safety over every interleaving. */
  lemma {:induction false} RunInv(c: Config, run: seq<State>, k: nat)
    requires Staffed(c) && IsRun(c, run) && k < |run|
    ensures Inv(c, run[k])
  {
    if k == 0 {
      InitInv(c);
    } else {
      RunInv(c, run, k - 1);
      assert Next(c, run[k - 1], run[k - 1 + 1]);
      var a :| Enabled(c, run[k - 1], a) && run[k] == Do(c, run[k - 1], a);
      StepInv(c, run[k - 1], a);
    }
  }

  ghost predicate Reachable(c: Config, s: State) {
    exists run :: IsRun(c, run) && run[|run| - 1] == s
  }

  lemma ReachableInv(c: Config, s: State)
    requires Staffed(c) && Reachable(c, s)
    ensures Inv(c, s)
  {
    var run :| IsRun(c, run) && run[|run| - 1] == s;
    RunInv(c, run, |run| - 1);
  }

  lemma ReachStep(c: Config, s: State, a: Action)
    requires Reachable(c, s) && Enabled(c, s, a)
    ensures Reachable(c, Do(c, s, a))
  {
    var run :| IsRun(c, run) && run[|run| - 1] == s;
    var run' := run + [Do(c, s, a)];
    assert forall k :: 0 <= k < |run| ==> run'[k] == run[k];
    assert Next(c, s, Do(c, s, a));
    assert IsRun(c, run') && run'[|run'| - 1] == Do(c, s, a);
  }

  /** With no workers the pool reports success without a single segment, whatever the file. */
  lemma NobodyUploads(c: Config) returns (s: State)
    requires c.workers == 0
    ensures Reachable(c, s) && s.coll == Returned(true) && s.segments == []
  {
    s := Init(c);
    assert IsRun(c, [s]) && [s][|[s]| - 1] == s;
    ReachStep(c, s, Close);
    s := Do(c, s, Close);
    ReachStep(c, s, Finish);
    s := Do(c, s, Finish);
    ReachStep(c, s, CheckErrors);
    s := Do(c, s, CheckErrors);
  }

  /**
   A nil-error return holds exactly one segment for each chunk, over every interleaving,
   if and only if there is a worker or nothing to upload.
   */
  lemma SuccessIffStaffed(c: Config)
    ensures Staffed(c) <==>
            forall s :: Reachable(c, s) && s.coll == Returned(true) ==> Complete(c, s.segments)
  {
    if Staffed(c) {
      forall s | Reachable(c, s) && s.coll == Returned(true) ensures Complete(c, s.segments) {
        ReachableInv(c, s);
      }
    } else {
      var s := NobodyUploads(c);
      assert Occ(s.segments, 1) == 0;
      assert !Complete(c, s.segments);
    }
  }

  // ---------------------------------------------------------- retry bound

  /** Posting counts, by where a chunk is. */
  ghost predicate Bounded(s: State) {
    && (forall j: nat :: Posts(s, j) <= MAX_RETRIES)
    && (forall j: nat :: j > s.sent ==> Posts(s, j) == 0)
    && (forall i :: 0 <= i < |s.jobs| ==> Posts(s, s.jobs[i]) == 0)
    && (forall w :: 0 <= w < |s.workers| && s.workers[w].Received? ==> Posts(s, s.workers[w].job) == 0)
    && (forall w :: 0 <= w < |s.workers| && s.workers[w].Trying? ==> Posts(s, s.workers[w].job) < s.workers[w].attempt)
  }

  /** Chunk held by worker w: nobody else holds it and it is not queued. */
  lemma SoleHolder(s: State, w: nat, j: nat)
    requires Conserved(s) && w < |s.workers| && Holds(s.workers[w], j)
    ensures 1 <= j <= s.sent
    ensures forall v :: 0 <= v < |s.workers| && v != w ==> !Holds(s.workers[v], j)
    ensures forall i :: 0 <= i < |s.jobs| ==> s.jobs[i] != j
  {
    HeldOnce(s.workers, w, j);
    assert Count(s, j) == if 1 <= j <= s.sent then 1 else 0;
    forall v | 0 <= v < |s.workers| && v != w ensures !Holds(s.workers[v], j) {
      if v < w { HeldTwice(s.workers, v, w, j); } else { HeldTwice(s.workers, w, v, j); }
    }
    forall i | 0 <= i < |s.jobs| ensures s.jobs[i] != j {
      OccAt(s.jobs, i);
    }
  }

  lemma {:induction false} OccAt(q: seq<nat>, i: nat)
    requires i < |q|
    ensures Occ(q, q[i]) >= 1
  {
    if i > 0 { OccAt(q[1..], i - 1); }
  }

  lemma TryBounded(s: State, w: nat, outcome: Attempt)
    requires Conserved(s) && Bounded(s) && w < |s.workers| && s.workers[w].Trying?
    requires s.workers[w].attempt <= MAX_RETRIES
    ensures Bounded(OnTry(s, w, outcome))
  {
    var s', j0 := OnTry(s, w, outcome), s.workers[w].job;
    SoleHolder(s, w, j0);
    assert forall j: nat :: j != j0 ==> Posts(s', j) == Posts(s, j);
    assert Posts(s', j0) <= Posts(s, j0) + 1;
  }

  /** Nothing is posted, and the holders of untried chunks only lose or pass on what they have. */
  lemma SameBounded(s: State, s': State)
    requires Bounded(s) && s'.posts == s.posts && s'.sent >= s.sent
    requires forall i :: 0 <= i < |s'.jobs| ==> s'.jobs[i] in s.jobs || s'.jobs[i] > s.sent
    requires forall w :: 0 <= w < |s'.workers| && s'.workers[w].Received? ==>
               (w < |s.workers| && s'.workers[w] == s.workers[w]) || s'.workers[w].job in s.jobs
    requires forall w :: 0 <= w < |s'.workers| && s'.workers[w].Trying? ==>
               w < |s.workers| && (s'.workers[w] == s.workers[w]
                                   || (s.workers[w] == Received(s'.workers[w].job) && s'.workers[w].attempt == 1))
    ensures Bounded(s')
  {
    assert forall j: nat :: Posts(s', j) == Posts(s, j);
    assert forall j: nat :: j in s.jobs ==> Posts(s, j) == 0;
  }

  lemma PassBounded(c: Config, s: State, a: Action)
    requires Bounded(s) && Enabled(c, s, a) && (a.Take? || a.Leave? || a.Deliver?)
    ensures Bounded(Do(c, s, a))
  {
    match a
    case Take(w) => SameBounded(s, OnTake(s, w));
    case Leave(w) => SameBounded(s, Move(s, w, Exited));
    case Deliver(w) => SameBounded(s, OnDeliver(s, w));
  }

  lemma LookBounded(c: Config, s: State, a: Action)
    requires Bounded(s) && Enabled(c, s, a) && (a.Look? || a.GiveUp?)
    ensures Bounded(Do(c, s, a))
  {
    match a
    case Look(w) => SameBounded(s, OnLook(s, w));
    case GiveUp(w) => SameBounded(s, OnGiveUp(s, w));
  }

  lemma OtherBounded(c: Config, s: State, a: Action)
    requires Bounded(s) && Enabled(c, s, a) && !WorkerAction(a)
    ensures Bounded(Do(c, s, a))
  {
    var s' := Do(c, s, a);
    assert s'.workers == s.workers && s'.posts == s.posts;
    assert s'.jobs == s.jobs || s'.jobs == s.jobs + [s.sent + 1];
    SameBounded(s, s');
  }

  lemma StepBounded(c: Config, s: State, a: Action)
    requires Conserved(s) && Bounded(s) && Enabled(c, s, a)
    ensures Bounded(Do(c, s, a))
  {
    if a.Try? {
      TryBounded(s, a.w, a.outcome);
    } else if a.Take? || a.Leave? || a.Deliver? {
      PassBounded(c, s, a);
    } else if a.Look? || a.GiveUp? {
      LookBounded(c, s, a);
    } else {
      OtherBounded(c, s, a);
    }
  }

  /** No chunk is posted more than three times, whatever happens and however many workers. */
  lemma {:induction false} PostsBounded(c: Config, run: seq<State>, k: nat)
    requires IsRun(c, run) && k < |run|
    ensures Conserved(run[k]) && Bounded(run[k])
    ensures forall j: nat :: Posts(run[k], j) <= 3
  {
    if k == 0 {
      InitInv(c);
    } else {
      PostsBounded(c, run, k - 1);
      assert Next(c, run[k - 1], run[k - 1 + 1]);
      var a :| Enabled(c, run[k - 1], a) && run[k] == Do(c, run[k - 1], a);
      StepConserves(c, run[k - 1], a);
      StepBounded(c, run[k - 1], a);
    }
  }

  // --------------------------------------------------------------- progress

  function WorkerRank(w: Worker): nat {
    match w
    case Exited => 0
    case Idle => 1
    case Uploaded(_) => 4
    case Trying(_, k) => if k <= 4 then 9 - k else 5
    case Received(_) => 9
  }

  function WorkersRank(ws: seq<Worker>): nat {
    if ws == [] then 0 else WorkerRank(ws[0]) + WorkersRank(ws[1..])
  }

  function CollectorRank(k: Collector): nat {
    match k
    case Holding(_) => 3
    case Waiting => 2
    case Checking => 1
    case Returned(_) => 0
  }

  function DispatcherRank(c: Config, s: State): nat {
    var left := if s.sent <= c.total then c.total - s.sent else 0;
    match s.disp
    case Reading => 12 * left + 1
    case Sending => 12 * left
    case Stopped => 0
  }

  /** What is left to do; an upper bound on the number of further actions of all goroutines. */
  function Rank(c: Config, s: State): nat {
    DispatcherRank(c, s) + 9 * |s.jobs| + WorkersRank(s.workers) + 2 * |s.results| + CollectorRank(s.coll)
    + (if s.closed then 0 else 1) + (if s.cancelled then 0 else 1)
  }

  lemma {:induction false} RankUpdate(ws: seq<Worker>, w: nat, to: Worker)
    requires w < |ws|
    ensures WorkersRank(ws[w := to]) == WorkersRank(ws) - WorkerRank(ws[w]) + WorkerRank(to)
  {
    if w == 0 {
      assert ws[0 := to][1..] == ws[1..];
    } else {
      assert ws[w := to][1..] == ws[1..][w - 1 := to];
      RankUpdate(ws[1..], w - 1, to);
    }
  }

  lemma MoveRank(c: Config, s: State, w: nat, to: Worker)
    requires w < |s.workers|
    ensures Rank(c, Move(s, w, to)) == Rank(c, s) - WorkerRank(s.workers[w]) + WorkerRank(to)
  {
    RankUpdate(s.workers, w, to);
  }

  lemma LookDown(c: Config, s: State, w: nat)
    requires Enabled(c, s, Look(w))
    ensures Rank(c, OnLook(s, w)) < Rank(c, s)
  {
    MoveRank(c, s, w, OnLook(s, w).workers[w]);
  }

  lemma TryDown(c: Config, s: State, w: nat, outcome: Attempt)
    requires Enabled(c, s, Try(w, outcome))
    ensures Rank(c, OnTry(s, w, outcome)) < Rank(c, s)
  {
    MoveRank(c, s, w, OnTry(s, w, outcome).workers[w]);
  }

  lemma GiveUpDown(c: Config, s: State, w: nat)
    requires Enabled(c, s, GiveUp(w))
    ensures Rank(c, OnGiveUp(s, w)) < Rank(c, s)
  {
    MoveRank(c, s, w, Exited);
  }

  lemma WorkerDown(c: Config, s: State, a: Action)
    requires Enabled(c, s, a) && (a.Leave? || a.Look? || a.Try? || a.GiveUp?)
    ensures Rank(c, Do(c, s, a)) < Rank(c, s)
  {
    match a
    case Leave(w) => MoveRank(c, s, w, Exited);
    case Look(w) => LookDown(c, s, w);
    case Try(w, outcome) => TryDown(c, s, w, outcome);
    case GiveUp(w) => GiveUpDown(c, s, w);
  }

  lemma QueueDown(c: Config, s: State, a: Action)
    requires Control(c, s) && Enabled(c, s, a) && (a.Take? || a.Deliver?)
    ensures Rank(c, Do(c, s, a)) < Rank(c, s)
  {
    MoveRank(c, s, a.w, Do(c, s, a).workers[a.w]);
  }

  /** Every action of every goroutine, and a cancellation, uses up rank. */
  lemma StepDown(c: Config, s: State, a: Action)
    requires Control(c, s) && Enabled(c, s, a)
    ensures Rank(c, Do(c, s, a)) < Rank(c, s)
  {
    if a.Take? || a.Deliver? {
      QueueDown(c, s, a);
    } else if WorkerAction(a) {
      WorkerDown(c, s, a);
    }
  }

  lemma {:induction false} IdleRank(ws: seq<Worker>)
    requires forall w :: 0 <= w < |ws| ==> ws[w].Idle?
    ensures WorkersRank(ws) == |ws|
  {
    if ws != [] { IdleRank(ws[1..]); }
  }

  /** Every run is finite: no more actions than the initial rank allows. */
  lemma {:induction false} RunLength(c: Config, run: seq<State>, k: nat)
    requires IsRun(c, run) && k < |run|
    ensures Control(c, run[k])
    ensures k + Rank(c, run[k]) <= 12 * c.total + c.workers + 5
  {
    if k == 0 {
      InitInv(c);
      IdleRank(Init(c).workers);
    } else {
      RunLength(c, run, k - 1);
      assert Next(c, run[k - 1], run[k - 1 + 1]);
      var a :| Enabled(c, run[k - 1], a) && run[k] == Do(c, run[k - 1], a);
      StepControl(c, run[k - 1], a);
      StepDown(c, run[k - 1], a);
    }
  }

  /** A worker that has not exited can act, or the dispatcher can, once the result queue is empty. */
  lemma WorkerCanAct(c: Config, s: State, w: nat) returns (a: Action)
    requires Control(c, s) && w < |s.workers| && !s.workers[w].Exited? && s.results == []
    ensures !a.Cancel? && Enabled(c, s, a)
  {
    match s.workers[w]
    case Idle =>
      a := if s.jobs != [] then Take(w)
           else if s.disp.Stopped? then Leave(w)
           else if s.disp.Reading? then Read(true) else Send;
    case Received(_) => a := Look(w);
    case Trying(_, k) => a := if k <= MAX_RETRIES then Try(w, NoConnection) else GiveUp(w);
    case Uploaded(_) => a := Deliver(w);
  }

  /**
   No reachable state is stuck before the collector returns: some goroutine other than an
   outside cancellation can move, even when every worker died with the dispatcher blocked.
   */
  lemma NeverStuck(c: Config, run: seq<State>) returns (a: Action)
    requires IsRun(c, run) && !run[|run| - 1].coll.Returned?
    ensures !a.Cancel? && Enabled(c, run[|run| - 1], a)
  {
    var s := run[|run| - 1];
    RunLength(c, run, |run| - 1);
    if s.coll.Holding? {
      a := Keep;
    } else if s.coll.Checking? {
      a := CheckErrors;
    } else if s.results != [] {
      a := Receive;
    } else if AllExited(s.workers) {
      a := if s.closed then Finish else Close;
    } else {
      var w :| 0 <= w < |s.workers| && !s.workers[w].Exited?;
      a := WorkerCanAct(c, s, w);
    }
  }
}
