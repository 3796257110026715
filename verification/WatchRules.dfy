/**
 What ends a download, in terms of its ticks and settings alone: which bytes, peers and
 clock readings each rule needs, and which force it. `Outcome` is what DownloadWatch.Watch
 returns.
 */
module WatchRules {
  import opened Wrappers
  import opened RejectionTimer
  import opened DownloadWatch

  function Outcome(s: Settings, ticks: seq<Tick>): Option<(nat, Rule)> { EndFrom(s, ticks, 0, FRESH, FRESH, FRESH) }

  /** Bytes gained on tick k. */
  function Gain(ticks: seq<Tick>, k: nat): int
    requires k < |ticks|
  {
    ticks[k].completed - if k == 0 then 0 else ticks[k - 1].completed
  }

  /** No clock reading goes back. */
  ghost predicate TimesGrow(ticks: seq<Tick>) {
    forall i, j :: 0 <= i <= j < |ticks| ==>
      && ticks[i].slowNow <= ticks[j].slowNow && ticks[i].stallNow <= ticks[j].stallNow
      && ticks[i].peersNow <= ticks[j].peersNow
  }

  lemma TimesAreMonotone(s: Settings, ticks: seq<Tick>)
    requires TimesGrow(ticks)
    ensures ClockMonotone(s, ticks)
  {
  }

  // ------------------------------------------------------------- what an end means

  /** A timer rule ends a download on a bad tick, more than its timeout after an earlier bad tick. */
  lemma TimerEnd(s: Settings, ticks: seq<Tick>, k: nat, r: Rule) returns (i: nat)
    requires Outcome(s, ticks) == Some((k, r)) && r != FullSeed
    ensures i < k < |ticks|
    ensures var vs := TraceOf(s, ticks, r);
            BadTick(vs, k) && BadTick(vs, i) && vs[k].time - vs[i].time > TimeoutOf(s, r)
  {
    EndReached(s, ticks, 0, k, r);
    LoopRejects(s, ticks, k, r);
    i := RejectionAnnounced(TraceOf(s, ticks, r), TimeoutOf(s, r), k);
  }

  /** Ended as slow: twice below the threshold (boosted: at a standstill) under 95%, further apart than the timeout. */
  lemma SlowEnd(s: Settings, ticks: seq<Tick>, k: nat) returns (i: nat)
    requires Outcome(s, ticks) == Some((k, Slow))
    ensures i < k < |ticks| && s.total > 0 && s.slowTimeout > 0 && s.slowThreshold > 0.0
    ensures ticks[k].slowNow - ticks[i].slowNow > s.slowTimeout
    ensures forall m :: m == i || m == k ==>
              && ticks[m].completed * 100 < s.total * 95
              && (if s.boosted then Gain(ticks, m) == 0 else Gain(ticks, m) as real < s.slowThreshold * 1048576.0)
  {
    i := TimerEnd(s, ticks, k, Slow);
  }

  /** Ended as stalled: twice at a standstill, further apart than the timeout. */
  lemma StalledEnd(s: Settings, ticks: seq<Tick>, k: nat) returns (i: nat)
    requires Outcome(s, ticks) == Some((k, Stalled))
    ensures i < k < |ticks| && s.total > 0 && s.stallTimeout > 0
    ensures ticks[k].stallNow - ticks[i].stallNow > s.stallTimeout
    ensures Gain(ticks, i) == 0 && Gain(ticks, k) == 0
  {
    i := TimerEnd(s, ticks, k, Stalled);
  }

  /** Ended for lack of peers: twice at or below the threshold under 95%, further apart than the timeout. */
  lemma PeersEnd(s: Settings, ticks: seq<Tick>, k: nat) returns (i: nat)
    requires Outcome(s, ticks) == Some((k, LowPeers))
    ensures i < k < |ticks| && s.total > 0 && s.peersTimeout > 0 && s.peersThreshold >= 0
    ensures ticks[k].peersNow - ticks[i].peersNow > s.peersTimeout
    ensures forall m :: m == i || m == k ==>
              ticks[m].completed * 100 < s.total * 95 && ticks[m].peers <= s.peersThreshold
  {
    i := TimerEnd(s, ticks, k, LowPeers);
  }

  /** Ended by the full-seed gate: nothing at all after more than a minute. */
  lemma FullSeedEnd(s: Settings, ticks: seq<Tick>, k: nat)
    requires Outcome(s, ticks) == Some((k, FullSeed))
    ensures k < |ticks| && s.total > 0 && s.requireFull
    ensures ticks[k].completed == 0 && ticks[k].fullNow - s.startedAt > 60_000_000_000
  {
    EndReached(s, ticks, 0, k, FullSeed);
  }

  // ------------------------------------------------------------------ never ended

  /** A boosted download whose bytes change on every tick is never slow and never stalled. */
  lemma BoostedAndMoving(s: Settings, ticks: seq<Tick>)
    requires s.boosted && forall k :: 0 <= k < |ticks| ==> Gain(ticks, k) != 0
    ensures Outcome(s, ticks).Some? ==> Outcome(s, ticks).value.1 != Slow && Outcome(s, ticks).value.1 != Stalled
  {
    if Outcome(s, ticks).Some? {
      var (k, r) := Outcome(s, ticks).value;
      if r == Slow {
        var i := SlowEnd(s, ticks, k);
      } else if r == Stalled {
        var i := StalledEnd(s, ticks, k);
      }
    }
  }

  /** An ordinary one that gains the threshold's worth of bytes on every tick is never slow. */
  lemma FastEnough(s: Settings, ticks: seq<Tick>)
    requires !s.boosted
    requires forall k :: 0 <= k < |ticks| ==> Gain(ticks, k) as real >= s.slowThreshold * 1048576.0
    ensures Outcome(s, ticks).Some? ==> Outcome(s, ticks).value.1 != Slow
  {
    if Outcome(s, ticks).Some? && Outcome(s, ticks).value.1 == Slow {
      var i := SlowEnd(s, ticks, Outcome(s, ticks).value.0);
    }
  }

  /** From 95% on, neither speed nor peers end a download. */
  lemma NearlyDone(s: Settings, ticks: seq<Tick>)
    requires forall k :: 0 <= k < |ticks| ==> ticks[k].completed * 100 >= s.total * 95
    ensures Outcome(s, ticks).Some? ==> Outcome(s, ticks).value.1 != Slow && Outcome(s, ticks).value.1 != LowPeers
  {
    if Outcome(s, ticks).Some? {
      var (k, r) := Outcome(s, ticks).value;
      if r == Slow {
        var i := SlowEnd(s, ticks, k);
      } else if r == LowPeers {
        var i := PeersEnd(s, ticks, k);
      }
    }
  }

  /** With more peers than the threshold on every tick, peers do not end it. */
  lemma EnoughPeers(s: Settings, ticks: seq<Tick>)
    requires forall k :: 0 <= k < |ticks| ==> ticks[k].peers > s.peersThreshold
    ensures Outcome(s, ticks).Some? ==> Outcome(s, ticks).value.1 != LowPeers
  {
    if Outcome(s, ticks).Some? && Outcome(s, ticks).value.1 == LowPeers {
      var i := PeersEnd(s, ticks, Outcome(s, ticks).value.0);
    }
  }

  // ----------------------------------------------------------------- forced to end

  lemma {:induction false} QuietAt(s: Settings, ticks: seq<Tick>, n: nat, k: nat)
    requires n <= |ticks| && QuietUpTo(s, ticks, n) && k < n
    ensures Quiet(s, ticks, k)
  {
    if k < n - 1 { QuietAt(s, ticks, n - 1, k); }
  }

  /** A rule due at tick k ends the download there, unless it ended before or a rule checked earlier does. */
  lemma DueEnds(s: Settings, ticks: seq<Tick>, k: nat, r: Rule)
    requires k < |ticks| && TimesGrow(ticks) && Fires(s, ticks, r, k)
    ensures Outcome(s, ticks).Some?
    ensures var (e, q) := Outcome(s, ticks).value; e < k || (e == k && Order(q) <= Order(r))
    ensures var (e, q) := Outcome(s, ticks).value; e < |ticks| && Fires(s, ticks, q, e)
  {
    TimesAreMonotone(s, ticks);
    WatchLaw(s, ticks);
    if Outcome(s, ticks).None? {
      QuietAt(s, ticks, |ticks|, k);
    } else {
      var (e, q) := Outcome(s, ticks).value;
      if k < e { QuietAt(s, ticks, e, k); }
    }
  }

  /** k is the first tick more than `timeout` after the first one, by this clock. */
  predicate FirstPast(times: seq<int>, k: nat, timeout: int) {
    k < |times| && times[k] - times[0] > timeout && forall m :: 0 <= m < k ==> times[m] - times[0] <= timeout
  }

  function Times(vs: seq<View>): (ts: seq<int>)
    ensures |ts| == |vs| && forall k :: 0 <= k < |vs| ==> ts[k] == vs[k].time
  {
    seq(|vs|, k requires 0 <= k < |vs| => vs[k].time)
  }

  /** Bad on every tick, a timer rule is due at the first tick past its timeout and not before. */
  lemma BadThroughout(vs: seq<View>, timeout: int, k: nat)
    requires Monotone(vs) && timeout >= 0 && FirstPast(Times(vs), k, timeout)
    requires forall m :: 0 <= m <= k ==> BadTick(vs, m)
    ensures Overdue(vs, timeout, k) && forall m :: 0 <= m < k ==> !Overdue(vs, timeout, m)
  {
    assert BadTick(vs, 0) && 0 < k;
    forall p, q, r ensures !(0 < p && r < k && Recovery(vs, p, q, r)) {
      assert 0 <= p <= k ==> BadTick(vs, p);
    }
    forall m | 0 <= m < k ensures !Overdue(vs, timeout, m) {
      assert forall i :: 0 <= i < m ==> vs[m].time - vs[i].time <= vs[m].time - vs[0].time;
    }
  }

  lemma TimerForced(s: Settings, ticks: seq<Tick>, k: nat, r: Rule)
    requires r != FullSeed && TimesGrow(ticks) && TimeoutOf(s, r) >= 0
    requires FirstPast(Times(TraceOf(s, ticks, r)), k, TimeoutOf(s, r))
    requires forall m :: 0 <= m <= k ==> BadTick(TraceOf(s, ticks, r), m)
    ensures Outcome(s, ticks).Some?
    ensures var (e, q) := Outcome(s, ticks).value; (e < k && q != r) || (e == k && Order(q) <= Order(r))
  {
    TimesAreMonotone(s, ticks);
    BadThroughout(TraceOf(s, ticks, r), TimeoutOf(s, r), k);
    DueEnds(s, ticks, k, r);
  }

  /** Too slow on every tick under 95%: slow ends it at the first tick past the timeout, unless it has ended before. */
  lemma SlowForced(s: Settings, ticks: seq<Tick>, k: nat)
    requires TimesGrow(ticks) && s.total > 0 && s.slowTimeout > 0 && s.slowThreshold > 0.0
    requires k < |ticks| && ticks[k].slowNow - ticks[0].slowNow > s.slowTimeout
    requires forall m :: 0 <= m < k ==> ticks[m].slowNow - ticks[0].slowNow <= s.slowTimeout
    requires forall m :: 0 <= m <= k ==> ticks[m].completed * 100 < s.total * 95
    requires forall m :: 0 <= m <= k ==>
               if s.boosted then Gain(ticks, m) == 0 else Gain(ticks, m) as real < s.slowThreshold * 1048576.0
    ensures Outcome(s, ticks).Some?
    ensures var (e, q) := Outcome(s, ticks).value; (e < k && q != Slow) || (e == k && q == Slow)
  {
    var vs := SlowTrace(s, ticks);
    forall m | 0 <= m <= k ensures BadTick(vs, m) {
      assert Gain(ticks, m) == Speed(ticks[m].completed, Last(ticks, m));
      assert vs[m] == SlowView(s, Last(ticks, m), ticks[m]);
    }
    TimerForced(s, ticks, k, Slow);
  }

  /** At a standstill on every tick: ended at the latest at the first tick past the timeout, and not for peers. */
  lemma StalledForced(s: Settings, ticks: seq<Tick>, k: nat)
    requires TimesGrow(ticks) && s.total > 0 && s.stallTimeout > 0
    requires k < |ticks| && ticks[k].stallNow - ticks[0].stallNow > s.stallTimeout
    requires forall m :: 0 <= m < k ==> ticks[m].stallNow - ticks[0].stallNow <= s.stallTimeout
    requires forall m :: 0 <= m <= k ==> Gain(ticks, m) == 0
    ensures Outcome(s, ticks).Some?
    ensures var (e, q) := Outcome(s, ticks).value; (e < k && q != Stalled) || (e == k && q != LowPeers)
  {
    var vs := StallTrace(s, ticks);
    forall m | 0 <= m <= k ensures BadTick(vs, m) {
      assert Gain(ticks, m) == Speed(ticks[m].completed, Last(ticks, m));
      assert vs[m] == StallView(s, Last(ticks, m), ticks[m]);
    }
    TimerForced(s, ticks, k, Stalled);
  }

  /** Too few peers on every tick under 95%: ended at the latest at the first tick past the timeout. */
  lemma PeersForced(s: Settings, ticks: seq<Tick>, k: nat)
    requires TimesGrow(ticks) && s.total > 0 && s.peersTimeout > 0 && s.peersThreshold >= 0
    requires k < |ticks| && ticks[k].peersNow - ticks[0].peersNow > s.peersTimeout
    requires forall m :: 0 <= m < k ==> ticks[m].peersNow - ticks[0].peersNow <= s.peersTimeout
    requires forall m :: 0 <= m <= k ==> ticks[m].completed * 100 < s.total * 95 && ticks[m].peers <= s.peersThreshold
    ensures Outcome(s, ticks).Some?
    ensures var (e, q) := Outcome(s, ticks).value; (e < k && q != LowPeers) || e == k
  {
    var vs := PeersTrace(s, ticks);
    forall m | 0 <= m <= k ensures BadTick(vs, m) { assert vs[m] == PeersView(s, Last(ticks, m), ticks[m]); }
    TimerForced(s, ticks, k, LowPeers);
  }

  /** Nothing after more than a minute, with a full seed required: ended there at the latest. */
  lemma FullSeedForced(s: Settings, ticks: seq<Tick>, k: nat)
    requires TimesGrow(ticks) && s.total > 0 && s.requireFull && k < |ticks|
    requires ticks[k].completed == 0 && ticks[k].fullNow - s.startedAt > 60_000_000_000
    ensures Outcome(s, ticks).Some?
    ensures var (e, q) := Outcome(s, ticks).value; e < k || (e == k && (q == Slow || q == FullSeed))
  {
    DueEnds(s, ticks, k, FullSeed);
  }
}
