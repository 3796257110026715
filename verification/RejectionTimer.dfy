/**
 One countdown rule of the download loop (slow, stalled or low peers): a timer that
 starts at the first bad tick and is cleared only by three consecutive good ticks.
 A tick on which the rule's gate is closed leaves the timer alone.
 */
module RejectionTimer {
  import opened Wrappers

  /** What the rule sees of one tick. */
  datatype View = View(time: int, gate: bool, bad: bool)

  /** `since` is unset (the zero time) while the rule is not counting down. */
  datatype Timer = Timer(since: Option<int>, recovery: nat)

  datatype Outcome = Reject | Continue(timer: Timer, expires: Option<int>)

  const RECOVERY_TICKS := 3

  const FRESH := Timer(None, 0)

  /** One tick of the rule; `expires` is the ExpiresAt of the warning it emits, if any. */
  function Step(t: Timer, timeout: int, v: View): Outcome {
    if !v.gate then Continue(t, None)
    else if v.bad then
      match t.since
      case None => Continue(Timer(Some(v.time), 0), Some(v.time + timeout))
      case Some(s) =>
        if v.time - s > timeout then Reject
        else Continue(Timer(t.since, 0), Some(s + timeout))
    else
      match t.since
      case None => Continue(t, None)
      case Some(s) =>
        if t.recovery + 1 >= RECOVERY_TICKS then Continue(FRESH, None)
        else Continue(Timer(t.since, t.recovery + 1), Some(s + timeout))
  }

  /** The rule after the first n ticks. */
  function After(vs: seq<View>, timeout: int, n: nat): Outcome
    requires n <= |vs|
  {
    if n == 0 then Continue(FRESH, None)
    else
      match After(vs, timeout, n - 1)
      case Reject => Reject
      case Continue(t, _) => Step(t, timeout, vs[n - 1])
  }

  // ------------------------------------------------------- specification

  predicate BadTick(vs: seq<View>, k: int) { 0 <= k < |vs| && vs[k].gate && vs[k].bad }

  predicate GoodTick(vs: seq<View>, k: int) { 0 <= k < |vs| && vs[k].gate && !vs[k].bad }

  /** Ticks p, q, r are three good ticks of the rule with no bad one among them. */
  predicate Recovery(vs: seq<View>, p: int, q: int, r: int) {
    && p < q < r && GoodTick(vs, p) && GoodTick(vs, q) && GoodTick(vs, r)
    && forall k :: p < k < r ==> !BadTick(vs, k)
  }

  /** Three consecutive good ticks lie strictly between ticks i and n. */
  ghost predicate Broken(vs: seq<View>, i: int, n: int) {
    exists p, q, r :: i < p && r < n && Recovery(vs, p, q, r)
  }

  /** Tick j is bad, and an earlier bad tick is more than `timeout` old with no recovery since. */
  ghost predicate Overdue(vs: seq<View>, timeout: int, j: int) {
    BadTick(vs, j) &&
    exists i {:trigger BadTick(vs, i)} ::
      0 <= i < j && BadTick(vs, i) && vs[j].time - vs[i].time > timeout && !Broken(vs, i, j)
  }

  predicate Monotone(vs: seq<View>) {
    forall i, j :: 0 <= i <= j < |vs| ==> vs[i].time <= vs[j].time
  }

  // ----------------------------------------------------------- good runs

  /** Good ticks among the first n since the last bad one. */
  function GoodRun(vs: seq<View>, n: nat): nat
    requires n <= |vs|
  {
    if n == 0 then 0
    else if BadTick(vs, n - 1) then 0
    else if GoodTick(vs, n - 1) then GoodRun(vs, n - 1) + 1
    else GoodRun(vs, n - 1)
  }

  /** The last good tick before n, when there is one since the last bad tick. */
  lemma {:induction false} LastGood(vs: seq<View>, n: nat) returns (p: nat)
    requires n <= |vs| && GoodRun(vs, n) >= 1
    ensures p < n && GoodTick(vs, p) && GoodRun(vs, p) == GoodRun(vs, n) - 1
    ensures forall k :: p < k < n ==> !BadTick(vs, k)
  {
    if GoodTick(vs, n - 1) {
      p := n - 1;
    } else {
      p := LastGood(vs, n - 1);
    }
  }

  /** A run of three good ticks that ends at n breaks every countdown begun before it. */
  lemma RunBreaks(vs: seq<View>, i: nat, n: nat)
    requires i < n <= |vs| && BadTick(vs, i) && GoodRun(vs, n) >= 3
    ensures Broken(vs, i, n)
  {
    var r := LastGood(vs, n);
    var q := LastGood(vs, r);
    var p := LastGood(vs, q);
    assert Recovery(vs, p, q, r);
    assert i < p;
  }

  lemma {:induction false} RunSpan(vs: seq<View>, p: nat, n: nat)
    requires p < n <= |vs| && GoodTick(vs, p)
    requires forall k :: p < k < n ==> !BadTick(vs, k)
    ensures GoodRun(vs, n) >= GoodRun(vs, p) + 1
    decreases n
  {
    if n > p + 1 { RunSpan(vs, p, n - 1); }
  }

  /** Conversely three consecutive good ticks make a run of at least three. */
  lemma RecoveryRun(vs: seq<View>, p: nat, q: nat, r: nat)
    requires Recovery(vs, p, q, r)
    ensures GoodRun(vs, r + 1) >= 3
  {
    RunSpan(vs, p, q);
    RunSpan(vs, q, r);
  }

  // ---------------------------------------------------------- invariant

  /** The timer counts from bad tick i, the earliest that no recovery has broken. */
  ghost predicate CountingFrom(vs: seq<View>, n: nat, t: Timer, i: nat)
    requires n <= |vs|
  {
    && i < n && BadTick(vs, i) && t == Timer(Some(vs[i].time), GoodRun(vs, n))
    && (forall m :: i < m <= n ==> GoodRun(vs, m) < 3)
    && (forall k :: 0 <= k < i && BadTick(vs, k) ==> Broken(vs, k, n))
  }

  ghost predicate AllBroken(vs: seq<View>, n: nat) {
    forall k :: 0 <= k < n && BadTick(vs, k) ==> Broken(vs, k, n)
  }

  ghost predicate Tracks(vs: seq<View>, n: nat, t: Timer)
    requires n <= |vs|
  {
    (t == FRESH && AllBroken(vs, n)) || exists i: nat :: CountingFrom(vs, n, t, i)
  }

  lemma NotBroken(vs: seq<View>, n: nat, t: Timer, i: nat)
    requires n <= |vs| && CountingFrom(vs, n, t, i)
    ensures !Broken(vs, i, n)
  {
    forall p, q, r | i < p && r < n && Recovery(vs, p, q, r) ensures false {
      RecoveryRun(vs, p, q, r);
    }
  }

  /** A tick that neither clears nor starts the countdown. */
  lemma CountingGrows(vs: seq<View>, n: nat, t: Timer, i: nat)
    requires n < |vs| && CountingFrom(vs, n, t, i) && GoodRun(vs, n + 1) < 3
    ensures CountingFrom(vs, n + 1, Timer(t.since, GoodRun(vs, n + 1)), i)
  {
  }

  lemma CountingClears(vs: seq<View>, n: nat)
    requires n < |vs| && !BadTick(vs, n) && GoodRun(vs, n + 1) >= 3
    ensures AllBroken(vs, n + 1)
  {
    forall k | 0 <= k < n + 1 && BadTick(vs, k) ensures Broken(vs, k, n + 1) {
      RunBreaks(vs, k, n + 1);
    }
  }

  lemma CountingStarts(vs: seq<View>, n: nat)
    requires n < |vs| && AllBroken(vs, n) && BadTick(vs, n)
    ensures CountingFrom(vs, n + 1, Timer(Some(vs[n].time), 0), n)
  {
  }

  lemma StepTracks(vs: seq<View>, timeout: int, n: nat, t: Timer)
    requires n < |vs| && Tracks(vs, n, t) && Step(t, timeout, vs[n]).Continue?
    ensures Tracks(vs, n + 1, Step(t, timeout, vs[n]).timer)
  {
    if t == FRESH && AllBroken(vs, n) {
      if BadTick(vs, n) { CountingStarts(vs, n); }
    } else {
      var i: nat :| CountingFrom(vs, n, t, i);
      if GoodRun(vs, n + 1) < 3 {
        CountingGrows(vs, n, t, i);
      } else {
        CountingClears(vs, n);
      }
    }
  }

  /** The timer tracks the countdown described by the trace, after any number of ticks. */
  lemma {:induction false} AfterTracks(vs: seq<View>, timeout: int, n: nat)
    requires n <= |vs| && After(vs, timeout, n).Continue?
    ensures Tracks(vs, n, After(vs, timeout, n).timer)
  {
    if n > 0 {
      AfterTracks(vs, timeout, n - 1);
      StepTracks(vs, timeout, n - 1, After(vs, timeout, n - 1).timer);
    }
  }

  // -------------------------------------------------------- rejection law

  /** At one tick: the rule rejects exactly when the trace makes the tick overdue. */
  lemma RejectIffOverdue(vs: seq<View>, timeout: int, j: nat)
    requires j < |vs| && Monotone(vs) && After(vs, timeout, j).Continue?
    ensures After(vs, timeout, j + 1).Reject? <==> Overdue(vs, timeout, j)
  {
    AfterTracks(vs, timeout, j);
    var t := After(vs, timeout, j).timer;
    if !(t == FRESH && AllBroken(vs, j)) {
      var i: nat :| CountingFrom(vs, j, t, i);
      NotBroken(vs, j, t, i);
      if Overdue(vs, timeout, j) {
        var k :| 0 <= k < j && BadTick(vs, k) && vs[j].time - vs[k].time > timeout && !Broken(vs, k, j);
        assert i <= k;
      }
    }
  }

  /** The rule has rejected within n ticks exactly when one of them was overdue. */
  lemma {:induction false} RejectedIff(vs: seq<View>, timeout: int, n: nat)
    requires n <= |vs| && Monotone(vs)
    ensures After(vs, timeout, n).Reject? <==> exists j :: 0 <= j < n && Overdue(vs, timeout, j)
  {
    if n > 0 {
      RejectedIff(vs, timeout, n - 1);
      if After(vs, timeout, n - 1).Continue? {
        RejectIffOverdue(vs, timeout, n - 1);
      }
    }
  }

  /** The exact rejection law: the rule first rejects at the least overdue tick. */
  lemma FirstRejection(vs: seq<View>, timeout: int, j: nat)
    requires j < |vs| && Monotone(vs)
    ensures After(vs, timeout, j).Continue? && After(vs, timeout, j + 1).Reject?
            <==> Overdue(vs, timeout, j) && forall k :: 0 <= k < j ==> !Overdue(vs, timeout, k)
  {
    RejectedIff(vs, timeout, j);
    if After(vs, timeout, j).Continue? {
      RejectIffOverdue(vs, timeout, j);
    }
  }

  // ----------------------------------------------------- countdown promise

  /** ExpiresAt of the warning emitted at tick k, if the rule emitted one. */
  function WarningAt(vs: seq<View>, timeout: int, k: nat): Option<int>
    requires k < |vs|
  {
    match After(vs, timeout, k + 1)
    case Reject => None
    case Continue(_, expires) => expires
  }

  /** A warning at tick k announces the earliest unbroken bad tick plus the timeout. */
  lemma WarningOrigin(vs: seq<View>, timeout: int, k: nat) returns (i: nat)
    requires k < |vs| && WarningAt(vs, timeout, k).Some?
    ensures i <= k && CountingFrom(vs, k + 1, After(vs, timeout, k + 1).timer, i)
    ensures WarningAt(vs, timeout, k) == Some(vs[i].time + timeout)
  {
    AfterTracks(vs, timeout, k + 1);
    var t := After(vs, timeout, k + 1).timer;
    assert t.since.Some?;
    i :| CountingFrom(vs, k + 1, t, i);
  }

  /** A tick emits a warning exactly when its gate is open, nothing is rejected, and a bad tick counts unbroken. */
  lemma WarningIff(vs: seq<View>, timeout: int, k: nat)
    requires k < |vs|
    ensures WarningAt(vs, timeout, k).Some? <==>
            && vs[k].gate && After(vs, timeout, k + 1).Continue?
            && exists i :: 0 <= i <= k && BadTick(vs, i) && !Broken(vs, i, k + 1)
  {
    if After(vs, timeout, k + 1).Continue? {
      AfterTracks(vs, timeout, k + 1);
      var t := After(vs, timeout, k + 1).timer;
      if t.since.Some? {
        var i: nat :| CountingFrom(vs, k + 1, t, i);
        NotBroken(vs, k + 1, t, i);
      }
    }
  }

  /** ExpiresAt does not move until three consecutive good ticks have completed. */
  lemma ExpiryFixed(vs: seq<View>, timeout: int, a: nat, b: nat)
    requires a <= b < |vs| && WarningAt(vs, timeout, a).Some? && WarningAt(vs, timeout, b).Some?
    requires forall p, q, r :: Recovery(vs, p, q, r) && a < r ==> b < r
    ensures WarningAt(vs, timeout, a) == WarningAt(vs, timeout, b)
  {
    var i := WarningOrigin(vs, timeout, a);
    var j := WarningOrigin(vs, timeout, b);
    NotBroken(vs, a + 1, After(vs, timeout, a + 1).timer, i);
    NotBroken(vs, b + 1, After(vs, timeout, b + 1).timer, j);
    assert Broken(vs, i, b + 1) ==> Broken(vs, i, a + 1);
    assert i == j;
  }

  /**
   A rejection at tick j was announced: some earlier bad tick i carried a warning whose
   ExpiresAt has passed, and every warning since then named that same instant.
   */
  lemma RejectionAnnounced(vs: seq<View>, timeout: int, j: nat) returns (i: nat)
    requires j < |vs|
    requires After(vs, timeout, j).Continue? && After(vs, timeout, j + 1).Reject?
    ensures i < j && BadTick(vs, i) && WarningAt(vs, timeout, i) == Some(vs[i].time + timeout)
    ensures vs[i].time + timeout < vs[j].time
    ensures forall k :: i <= k < j ==> WarningAt(vs, timeout, k) in {None, WarningAt(vs, timeout, i)}
  {
    AfterTracks(vs, timeout, j);
    var t := After(vs, timeout, j).timer;
    assert t.since.Some?;
    i :| CountingFrom(vs, j, t, i);
    NotRejectedBefore(vs, timeout, i + 1, j);
    forall k | i <= k < j ensures WarningAt(vs, timeout, k) in {None, WarningAt(vs, timeout, i)} {
      if WarningAt(vs, timeout, k).Some? {
        SameOrigin(vs, timeout, j, t, i, k);
        SameOrigin(vs, timeout, j, t, i, i);
      }
    }
    SameOrigin(vs, timeout, j, t, i, i);
  }

  lemma {:induction false} NotRejectedBefore(vs: seq<View>, timeout: int, k: nat, n: nat)
    requires k <= n <= |vs| && After(vs, timeout, n).Continue?
    ensures After(vs, timeout, k).Continue?
    decreases n - k
  {
    if k < n { NotRejectedBefore(vs, timeout, k + 1, n); }
  }

  /** No recovery completes while the countdown of tick i is running. */
  lemma NoLateBreak(vs: seq<View>, o: nat, i: nat, m: nat, n: nat)
    requires i < m <= n <= |vs|
    requires forall l :: i < l <= n ==> GoodRun(vs, l) < 3
    ensures Broken(vs, o, n) ==> Broken(vs, o, m)
  {
    if Broken(vs, o, n) {
      var p, q, r :| o < p && r < n && Recovery(vs, p, q, r);
      RecoveryRun(vs, p, q, r);
      assert r < m;
    }
  }

  /** While the countdown of tick i is running, every warning counts from i. */
  lemma SameOrigin(vs: seq<View>, timeout: int, n: nat, t: Timer, i: nat, k: nat)
    requires n <= |vs| && CountingFrom(vs, n, t, i) && i <= k < n && WarningAt(vs, timeout, k).Some?
    ensures WarningAt(vs, timeout, k) == Some(vs[i].time + timeout)
  {
    var o := WarningOrigin(vs, timeout, k);
    NotBroken(vs, n, t, i);
    NotBroken(vs, k + 1, After(vs, timeout, k + 1).timer, o);
    NoLateBreak(vs, o, i, k + 1, n);
    assert i == o;
  }

  lemma {:induction false} StaysBad(vs: seq<View>, timeout: int, a: nat, e: int, k: nat)
    requires a <= k < |vs| && WarningAt(vs, timeout, a) == Some(e)
    requires forall m :: a < m <= k ==> BadTick(vs, m) && vs[m].time <= e
    ensures After(vs, timeout, k + 1).Continue? && After(vs, timeout, k + 1).timer.since == Some(e - timeout)
    decreases k
  {
    if k > a {
      StaysBad(vs, timeout, a, e, k - 1);
    }
  }

  /** Once warned, unbroken bad ticks reject at the first tick after ExpiresAt, not before. */
  lemma WarningKept(vs: seq<View>, timeout: int, a: nat, e: int, j: nat)
    requires a < j < |vs| && WarningAt(vs, timeout, a) == Some(e)
    requires forall k :: a < k <= j ==> BadTick(vs, k)
    requires forall k :: a < k < j ==> vs[k].time <= e
    requires vs[j].time > e
    ensures After(vs, timeout, j).Continue? && After(vs, timeout, j + 1).Reject?
  {
    StaysBad(vs, timeout, a, e, j - 1);
    assert BadTick(vs, j);
    assert After(vs, timeout, j + 1) == Step(After(vs, timeout, j).timer, timeout, vs[j]);
  }
}
