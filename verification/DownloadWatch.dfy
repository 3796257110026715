/**
 The tick loop of a torrent download: three countdown rules and the full-seed gate,
 checked in a fixed order on every tick, the first that fires ending the download.
 */
module DownloadWatch {
  import opened Wrappers
  import opened RejectionTimer

  /** The settings of one download. Durations and instants are in nanoseconds; a rule with a
      timeout of 0 is off, and so is the low-peers rule with a negative threshold. */
  datatype Settings = Settings(
    total: int, startedAt: int,
    slowThreshold: real, slowTimeout: int, boosted: bool,
    requireFull: bool, stallTimeout: int,
    peersThreshold: int, peersTimeout: int)

  const FULL_SEED_GRACE := 60_000_000_000

  /** One tick: what the client reports, and the clock as each check reads it. */
  datatype Tick = Tick(completed: int, peers: int, slowNow: int, fullNow: int, stallNow: int, peersNow: int)

  datatype Rule = Slow | FullSeed | Stalled | LowPeers

  datatype Warning = Warning(rule: Rule, expiresAt: int)

  /** Bytes gained since the last tick; ticks come once a second. */
  function Speed(completed: int, last: int): int { completed - last }

  /** The speed in MB per second is below the threshold. */
  predicate IsBelow(speed: int, threshold: real) { speed as real < threshold * 1048576.0 }

  /** percent < 95 */
  predicate Below95(s: Settings, completed: int) { completed * 100 < s.total * 95 }

  // -------------------------------------------------- what each rule sees

  function SlowView(s: Settings, last: int, t: Tick): View {
    View(t.slowNow,
         s.total > 0 && s.slowTimeout > 0 && s.slowThreshold > 0.0 && Below95(s, t.completed),
         if s.boosted then Speed(t.completed, last) == 0 else IsBelow(Speed(t.completed, last), s.slowThreshold))
  }

  function StallView(s: Settings, last: int, t: Tick): View {
    View(t.stallNow, s.total > 0 && s.stallTimeout > 0, Speed(t.completed, last) == 0)
  }

  function PeersView(s: Settings, last: int, t: Tick): View {
    View(t.peersNow,
         s.total > 0 && s.peersTimeout > 0 && s.peersThreshold >= 0 && Below95(s, t.completed),
         t.peers <= s.peersThreshold)
  }

  predicate NoFullSeed(s: Settings, t: Tick) {
    s.total > 0 && s.requireFull && t.completed == 0 && t.fullNow - s.startedAt > FULL_SEED_GRACE
  }

  /** Bytes completed as of the tick before tick k. */
  function Last(ticks: seq<Tick>, k: nat): int
    requires k <= |ticks|
  {
    if k == 0 then 0 else ticks[k - 1].completed
  }

  function SlowTrace(s: Settings, ticks: seq<Tick>): (vs: seq<View>)
    ensures |vs| == |ticks|
    ensures forall k {:trigger vs[k]} :: 0 <= k < |ticks| ==> vs[k] == SlowView(s, Last(ticks, k), ticks[k])
  {
    seq(|ticks|, k requires 0 <= k < |ticks| => SlowView(s, Last(ticks, k), ticks[k]))
  }

  function StallTrace(s: Settings, ticks: seq<Tick>): (vs: seq<View>)
    ensures |vs| == |ticks|
    ensures forall k {:trigger vs[k]} :: 0 <= k < |ticks| ==> vs[k] == StallView(s, Last(ticks, k), ticks[k])
  {
    seq(|ticks|, k requires 0 <= k < |ticks| => StallView(s, Last(ticks, k), ticks[k]))
  }

  function PeersTrace(s: Settings, ticks: seq<Tick>): (vs: seq<View>)
    ensures |vs| == |ticks|
    ensures forall k {:trigger vs[k]} :: 0 <= k < |ticks| ==> vs[k] == PeersView(s, Last(ticks, k), ticks[k])
  {
    seq(|ticks|, k requires 0 <= k < |ticks| => PeersView(s, Last(ticks, k), ticks[k]))
  }

  /** Rule `r` is due at tick k by the history of the trace alone. */
  ghost predicate Fires(s: Settings, ticks: seq<Tick>, r: Rule, k: nat)
    requires k < |ticks|
  {
    match r
    case Slow => Overdue(SlowTrace(s, ticks), s.slowTimeout, k)
    case FullSeed => NoFullSeed(s, ticks[k])
    case Stalled => Overdue(StallTrace(s, ticks), s.stallTimeout, k)
    case LowPeers => Overdue(PeersTrace(s, ticks), s.peersTimeout, k)
  }

  ghost predicate Quiet(s: Settings, ticks: seq<Tick>, k: nat)
    requires k < |ticks|
  {
    forall r :: !Fires(s, ticks, r, k)
  }

  /** The order of the checks within one tick. */
  function Order(r: Rule): nat {
    match r
    case Slow => 0
    case FullSeed => 1
    case Stalled => 2
    case LowPeers => 3
  }

  // ------------------------------------------------------------- the loop

  /** What one tick does to the loop's variables, or the rule that ended the download. */
  datatype Verdict =
    | Rejected(rule: Rule)
    | Running(slow: Timer, stall: Timer, low: Timer, warnings: seq<Warning>)

  function Warn(r: Rule, expires: Option<int>): seq<Warning> {
    match expires
    case None => []
    case Some(e) => [Warning(r, e)]
  }

  function TickSpec(s: Settings, last: int, slow: Timer, stall: Timer, low: Timer, t: Tick): Verdict {
    var a := Step(slow, s.slowTimeout, SlowView(s, last, t));
    if a.Reject? then Rejected(Slow)
    else if NoFullSeed(s, t) then Rejected(FullSeed)
    else
      var b := Step(stall, s.stallTimeout, StallView(s, last, t));
      if b.Reject? then Rejected(Stalled)
      else
        var c := Step(low, s.peersTimeout, PeersView(s, last, t));
        if c.Reject? then Rejected(LowPeers)
        else Running(a.timer, b.timer, c.timer,
                     Warn(Slow, a.expires) + Warn(Stalled, b.expires) + Warn(LowPeers, c.expires))
  }

  class DownloadLoop {
    const settings: Settings
    var lastCompleted: int
    var slowSince: Option<int>
    var slowRecovery: nat
    var stallSince: Option<int>
    var stallRecovery: nat
    var lowPeersSince: Option<int>
    var lowPeersRecovery: nat

    constructor (s: Settings)
      ensures settings == s && lastCompleted == 0
      ensures SlowTimer() == FRESH && StallTimer() == FRESH && PeersTimer() == FRESH
    {
      settings := s;
      lastCompleted := 0;
      slowSince, slowRecovery := None, 0;
      stallSince, stallRecovery := None, 0;
      lowPeersSince, lowPeersRecovery := None, 0;
    }

    ghost function SlowTimer(): Timer reads this { Timer(slowSince, slowRecovery) }
    ghost function StallTimer(): Timer reads this { Timer(stallSince, stallRecovery) }
    ghost function PeersTimer(): Timer reads this { Timer(lowPeersSince, lowPeersRecovery) }

    /** The slow rule on one tick: whether it rejects, and its warning if it is counting down. */
    method CheckSlow(last: int, t: Tick) returns (reject: bool, warning: Option<int>)
      requires settings.total > 0
      modifies `slowSince, `slowRecovery
      ensures Matches(old(SlowTimer()), SlowTimer(), settings.slowTimeout, SlowView(settings, last, t), reject, warning)
    {
      reject, warning := false, None;
      var active := false;
      if settings.slowTimeout > 0 && settings.slowThreshold > 0.0 && Below95(settings, t.completed) {
        var isSlow := IsBelow(Speed(t.completed, last), settings.slowThreshold);
        if settings.boosted {
          isSlow := Speed(t.completed, last) == 0;
        }
        if isSlow {
          slowRecovery := 0;
          if slowSince.None? {
            slowSince := Some(t.slowNow);
          } else if t.slowNow - slowSince.value > settings.slowTimeout {
            return true, None;
          }
          active := true;
        } else if slowSince.Some? {
          slowRecovery := slowRecovery + 1;
          if slowRecovery >= 3 {
            slowSince := None;
            slowRecovery := 0;
          } else {
            active := true;
          }
        }
      }
      if active && slowSince.Some? {
        warning := Some(slowSince.value + settings.slowTimeout);
      }
    }

    method CheckStall(last: int, t: Tick) returns (reject: bool, warning: Option<int>)
      requires settings.total > 0
      modifies `stallSince, `stallRecovery
      ensures Matches(old(StallTimer()), StallTimer(), settings.stallTimeout, StallView(settings, last, t),
                      reject, warning)
    {
      reject, warning := false, None;
      var active := false;
      if settings.stallTimeout > 0 {
        if Speed(t.completed, last) == 0 {
          stallRecovery := 0;
          if stallSince.None? {
            stallSince := Some(t.stallNow);
          } else if t.stallNow - stallSince.value > settings.stallTimeout {
            return true, None;
          }
          active := true;
        } else if stallSince.Some? {
          stallRecovery := stallRecovery + 1;
          if stallRecovery >= 3 {
            stallSince := None;
            stallRecovery := 0;
          } else {
            active := true;
          }
        }
      }
      if active && stallSince.Some? {
        warning := Some(stallSince.value + settings.stallTimeout);
      }
    }

    method CheckPeers(last: int, t: Tick) returns (reject: bool, warning: Option<int>)
      requires settings.total > 0
      modifies `lowPeersSince, `lowPeersRecovery
      ensures Matches(old(PeersTimer()), PeersTimer(), settings.peersTimeout, PeersView(settings, last, t),
                      reject, warning)
    {
      reject, warning := false, None;
      var active := false;
      if settings.peersTimeout > 0 && settings.peersThreshold >= 0 && Below95(settings, t.completed) {
        if t.peers <= settings.peersThreshold {
          lowPeersRecovery := 0;
          if lowPeersSince.None? {
            lowPeersSince := Some(t.peersNow);
          } else if t.peersNow - lowPeersSince.value > settings.peersTimeout {
            return true, None;
          }
          active := true;
        } else if lowPeersSince.Some? {
          lowPeersRecovery := lowPeersRecovery + 1;
          if lowPeersRecovery >= 3 {
            lowPeersSince := None;
            lowPeersRecovery := 0;
          } else {
            active := true;
          }
        }
      }
      if active && lowPeersSince.Some? {
        warning := Some(lowPeersSince.value + settings.peersTimeout);
      }
    }

    /** One turn of the loop body: the checks in order, then the warnings. */
    method OnTick(t: Tick) returns (v: Verdict)
      modifies this
      ensures v == old(TickSpec(settings, lastCompleted, SlowTimer(), StallTimer(), PeersTimer(), t))
      ensures v.Running? ==> v.slow == SlowTimer() && v.stall == StallTimer() && v.low == PeersTimer()
      ensures lastCompleted == if settings.total > 0 then t.completed else old(lastCompleted)
    {
      var warnings: seq<Warning> := [];
      if settings.total > 0 {
        var last := lastCompleted;
        lastCompleted := t.completed;
        var slowReject, slowWarning := CheckSlow(last, t);
        if slowReject {
          return Rejected(Slow);
        }
        if settings.requireFull && t.completed == 0 && t.fullNow - settings.startedAt > FULL_SEED_GRACE {
          return Rejected(FullSeed);
        }
        var stallReject, stallWarning := CheckStall(last, t);
        if stallReject {
          return Rejected(Stalled);
        }
        var peersReject, peersWarning := CheckPeers(last, t);
        if peersReject {
          return Rejected(LowPeers);
        }
        warnings := Warn(Slow, slowWarning) + Warn(Stalled, stallWarning) + Warn(LowPeers, peersWarning);
      }
      v := Running(Timer(slowSince, slowRecovery), Timer(stallSince, stallRecovery),
                   Timer(lowPeersSince, lowPeersRecovery), warnings);
    }
  }

  /** A rule's code did to its variables what Step says. */
  ghost predicate Matches(before: Timer, after: Timer, timeout: int, v: View, reject: bool, warning: Option<int>) {
    Step(before, timeout, v) == if reject then Reject else Continue(after, warning)
  }

  /** The clock each check reads never goes back. */
  ghost predicate ClockMonotone(s: Settings, ticks: seq<Tick>) {
    Monotone(SlowTrace(s, ticks)) && Monotone(StallTrace(s, ticks)) && Monotone(PeersTrace(s, ticks))
  }

  /** No rule has rejected in the first k ticks, and these are the timers it left. */
  ghost predicate At(s: Settings, ticks: seq<Tick>, k: nat, slow: Timer, stall: Timer, low: Timer)
    requires k <= |ticks|
  {
    var a, b, c := After(SlowTrace(s, ticks), s.slowTimeout, k), After(StallTrace(s, ticks), s.stallTimeout, k),
                   After(PeersTrace(s, ticks), s.peersTimeout, k);
    a.Continue? && b.Continue? && c.Continue? && a.timer == slow && b.timer == stall && c.timer == low
  }

  /** One rule at one tick: its Step is the next After, and it rejects exactly when due. */
  lemma RuleAt(vs: seq<View>, timeout: int, k: nat, t: Timer, v: View)
    requires k < |vs| && Monotone(vs) && vs[k] == v
    requires After(vs, timeout, k).Continue? && After(vs, timeout, k).timer == t
    ensures After(vs, timeout, k + 1) == Step(t, timeout, v)
    ensures Step(t, timeout, v).Reject? <==> Overdue(vs, timeout, k)
  {
    RejectIffOverdue(vs, timeout, k);
  }

  /** No rule is due at any of the first k ticks. */
  ghost predicate QuietUpTo(s: Settings, ticks: seq<Tick>, k: nat)
    requires k <= |ticks|
  {
    k == 0 || (QuietUpTo(s, ticks, k - 1) && Quiet(s, ticks, k - 1))
  }

  /** The right end of a download: the earliest due tick and its first due rule, if any. */
  ghost predicate FirstDue(s: Settings, ticks: seq<Tick>, end: Option<(nat, Rule)>) {
    match end
    case None => QuietUpTo(s, ticks, |ticks|)
    case Some((k, rule)) =>
      && k < |ticks| && QuietUpTo(s, ticks, k) && Fires(s, ticks, rule, k)
      && (forall r :: Order(r) < Order(rule) ==> !Fires(s, ticks, r, k))
  }

  /** The verdict on tick k follows from the trace. */
  lemma TickLaw(s: Settings, ticks: seq<Tick>, k: nat, slow: Timer, stall: Timer, low: Timer)
    requires k < |ticks| && ClockMonotone(s, ticks) && At(s, ticks, k, slow, stall, low) && QuietUpTo(s, ticks, k)
    ensures var v := TickSpec(s, Last(ticks, k), slow, stall, low, ticks[k]);
            if v.Rejected? then FirstDue(s, ticks, Some((k, v.rule)))
            else QuietUpTo(s, ticks, k + 1) && At(s, ticks, k + 1, v.slow, v.stall, v.low)
  {
    var last, t := Last(ticks, k), ticks[k];
    RuleAt(SlowTrace(s, ticks), s.slowTimeout, k, slow, SlowView(s, last, t));
    RuleAt(StallTrace(s, ticks), s.stallTimeout, k, stall, StallView(s, last, t));
    RuleAt(PeersTrace(s, ticks), s.peersTimeout, k, low, PeersView(s, last, t));
  }

  /** How a download that is still running at tick k ends. */
  function EndFrom(s: Settings, ticks: seq<Tick>, k: nat, slow: Timer, stall: Timer, low: Timer): Option<(nat, Rule)>
    requires k <= |ticks|
    decreases |ticks| - k
  {
    if k == |ticks| then None
    else
      match TickSpec(s, Last(ticks, k), slow, stall, low, ticks[k])
      case Rejected(rule) => Some((k, rule))
      case Running(a, b, c, _) => EndFrom(s, ticks, k + 1, a, b, c)
  }

  /** The loop over the ticks, until the first verdict. */
  method Watch(s: Settings, ticks: seq<Tick>) returns (end: Option<(nat, Rule)>)
    ensures end == EndFrom(s, ticks, 0, FRESH, FRESH, FRESH)
    ensures ClockMonotone(s, ticks) ==> FirstDue(s, ticks, end)
  {
    if ClockMonotone(s, ticks) { WatchLaw(s, ticks); }
    var loop := new DownloadLoop(s);
    var k := 0;
    while k < |ticks|
      invariant 0 <= k <= |ticks|
      invariant loop.settings == s && fresh(loop)
      invariant s.total > 0 ==> loop.lastCompleted == Last(ticks, k)
      invariant EndFrom(s, ticks, k, loop.SlowTimer(), loop.StallTimer(), loop.PeersTimer())
             == EndFrom(s, ticks, 0, FRESH, FRESH, FRESH)
    {
      var v := loop.OnTick(ticks[k]);
      if v.Rejected? {
        return Some((k, v.rule));
      }
      k := k + 1;
    }
    end := None;
  }

  lemma {:induction false} EndIsFirstDue(s: Settings, ticks: seq<Tick>, k: nat, slow: Timer, stall: Timer, low: Timer)
    requires k <= |ticks| && ClockMonotone(s, ticks) && At(s, ticks, k, slow, stall, low) && QuietUpTo(s, ticks, k)
    ensures FirstDue(s, ticks, EndFrom(s, ticks, k, slow, stall, low))
    decreases |ticks| - k
  {
    if k < |ticks| {
      TickLaw(s, ticks, k, slow, stall, low);
      var v := TickSpec(s, Last(ticks, k), slow, stall, low, ticks[k]);
      if v.Running? {
        EndIsFirstDue(s, ticks, k + 1, v.slow, v.stall, v.low);
      }
    }
  }

  /**
   The whole loop ends at the earliest tick at which some rule is due by the trace, with the
   first due rule in checking order; if no tick is due it runs through.
   */
  lemma WatchLaw(s: Settings, ticks: seq<Tick>)
    requires ClockMonotone(s, ticks)
    ensures FirstDue(s, ticks, EndFrom(s, ticks, 0, FRESH, FRESH, FRESH))
  {
    EndIsFirstDue(s, ticks, 0, FRESH, FRESH, FRESH);
  }

  /** The warnings pushed to the dashboard on tick k are those of the three countdowns. */
  lemma WarningsPushed(s: Settings, ticks: seq<Tick>, k: nat, slow: Timer, stall: Timer, low: Timer)
    requires k < |ticks| && At(s, ticks, k, slow, stall, low)
    ensures var v := TickSpec(s, Last(ticks, k), slow, stall, low, ticks[k]);
            v.Running? ==>
              v.warnings == Warn(Slow, WarningAt(SlowTrace(s, ticks), s.slowTimeout, k))
                          + Warn(Stalled, WarningAt(StallTrace(s, ticks), s.stallTimeout, k))
                          + Warn(LowPeers, WarningAt(PeersTrace(s, ticks), s.peersTimeout, k))
  {
    var a, b, c := SlowTrace(s, ticks), StallTrace(s, ticks), PeersTrace(s, ticks);
    assert After(a, s.slowTimeout, k + 1) == Step(slow, s.slowTimeout, a[k]);
    assert After(b, s.stallTimeout, k + 1) == Step(stall, s.stallTimeout, b[k]);
    assert After(c, s.peersTimeout, k + 1) == Step(low, s.peersTimeout, c[k]);
  }

  // --------------------------------------------- the countdown of the whole loop

  /** The loop after its first k ticks. */
  function LoopAt(s: Settings, ticks: seq<Tick>, k: nat): Verdict
    requires k <= |ticks|
  {
    if k == 0 then Running(FRESH, FRESH, FRESH, [])
    else
      match LoopAt(s, ticks, k - 1)
      case Rejected(rule) => Rejected(rule)
      case Running(a, b, c, _) => TickSpec(s, Last(ticks, k - 1), a, b, c, ticks[k - 1])
  }

  /** The end of the loop is where it turns from running to rejected. */
  lemma {:induction false} EndReached(s: Settings, ticks: seq<Tick>, j: nat, k: nat, r: Rule)
    requires j <= |ticks| && LoopAt(s, ticks, j).Running?
    requires var v := LoopAt(s, ticks, j); EndFrom(s, ticks, j, v.slow, v.stall, v.low) == Some((k, r))
    ensures j <= k < |ticks| && LoopAt(s, ticks, k).Running? && LoopAt(s, ticks, k + 1) == Rejected(r)
    decreases |ticks| - j
  {
    if LoopAt(s, ticks, j + 1).Running? {
      EndReached(s, ticks, j + 1, k, r);
    }
  }

  function TraceOf(s: Settings, ticks: seq<Tick>, r: Rule): (vs: seq<View>)
    requires r != FullSeed
    ensures |vs| == |ticks|
  {
    match r
    case Slow => SlowTrace(s, ticks)
    case Stalled => StallTrace(s, ticks)
    case LowPeers => PeersTrace(s, ticks)
  }

  function TimeoutOf(s: Settings, r: Rule): int
    requires r != FullSeed
  {
    match r
    case Slow => s.slowTimeout
    case Stalled => s.stallTimeout
    case LowPeers => s.peersTimeout
  }

  /** The clock as rule r reads it on a tick. */
  function ClockOf(t: Tick, r: Rule): int {
    match r
    case Slow => t.slowNow
    case FullSeed => t.fullNow
    case Stalled => t.stallNow
    case LowPeers => t.peersNow
  }

  lemma {:induction false} LoopTracks(s: Settings, ticks: seq<Tick>, k: nat)
    requires k <= |ticks| && LoopAt(s, ticks, k).Running?
    ensures var v := LoopAt(s, ticks, k); At(s, ticks, k, v.slow, v.stall, v.low)
  {
    if k > 0 { LoopTracks(s, ticks, k - 1); }
  }

  lemma LoopRejects(s: Settings, ticks: seq<Tick>, k: nat, r: Rule)
    requires k < |ticks| && LoopAt(s, ticks, k).Running? && LoopAt(s, ticks, k + 1) == Rejected(r) && r != FullSeed
    ensures var vs, d := TraceOf(s, ticks, r), TimeoutOf(s, r);
            After(vs, d, k).Continue? && After(vs, d, k + 1).Reject?
  {
    LoopTracks(s, ticks, k);
  }

  lemma {:induction false} RanBefore(s: Settings, ticks: seq<Tick>, j: nat, k: nat)
    requires j <= k <= |ticks| && LoopAt(s, ticks, k).Running?
    ensures LoopAt(s, ticks, j).Running?
  {
    if j < k { RanBefore(s, ticks, j, k - 1); }
  }

  /** Tick k kept the download running and pushed a warning of rule r. */
  predicate Pushes(s: Settings, ticks: seq<Tick>, k: nat, r: Rule, e: int) {
    k < |ticks| && LoopAt(s, ticks, k + 1).Running? && Warning(r, e) in LoopAt(s, ticks, k + 1).warnings
  }

  /** On a tick that keeps running, the warnings pushed for a rule are those of its own countdown. */
  lemma PushedFor(s: Settings, ticks: seq<Tick>, k: nat, r: Rule, e: int)
    requires k < |ticks| && LoopAt(s, ticks, k + 1).Running? && r != FullSeed
    ensures Pushes(s, ticks, k, r, e) <==>
            WarningAt(TraceOf(s, ticks, r), TimeoutOf(s, r), k) == Some(e)
  {
    RanBefore(s, ticks, k, k + 1);
    LoopTracks(s, ticks, k);
    var v := LoopAt(s, ticks, k);
    WarningsPushed(s, ticks, k, v.slow, v.stall, v.low);
  }

  /**
   The countdown promise of the loop: a download that a timer rule ends at tick k was told
   so. An earlier tick that kept running pushed a warning of that rule, its expiry is before
   the rule's clock at k, and no tick from there on pushed another expiry for it.
   */
  lemma CountdownKept(s: Settings, ticks: seq<Tick>, k: nat, r: Rule) returns (i: nat, e: int)
    requires EndFrom(s, ticks, 0, FRESH, FRESH, FRESH) == Some((k, r)) && r != FullSeed
    ensures i < k < |ticks| && Pushes(s, ticks, i, r, e)
    ensures e < ClockOf(ticks[k], r)
    ensures forall m, f :: i <= m < k && Pushes(s, ticks, m, r, f) ==> f == e
  {
    EndReached(s, ticks, 0, k, r);
    LoopRejects(s, ticks, k, r);
    var vs, d := TraceOf(s, ticks, r), TimeoutOf(s, r);
    i := RejectionAnnounced(vs, d, k);
    e := vs[i].time + d;
    RanBefore(s, ticks, i + 1, k);
    PushedFor(s, ticks, i, r, e);
    assert vs[k].time == ClockOf(ticks[k], r);
    forall m, f | i <= m < k && Pushes(s, ticks, m, r, f) ensures f == e {
      PushedFor(s, ticks, m, r, f);
      assert WarningAt(vs, d, m) in {None, WarningAt(vs, d, i)};
    }
  }
}
