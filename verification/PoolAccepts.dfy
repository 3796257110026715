/**
 What the pool leaves at the server: the accepted articles are exactly the chunks that are
 past their upload, one article each. Failed posts are not counted here, since the pool does
 not learn what became of them.
 */
module PoolAccepts {
  import opened UploadPool
  import opened PoolLeak

  /** How many workers have chunk j uploaded and not yet delivered. */
  function AtDelivery(ws: seq<Worker>, j: nat): nat { CountIf(ws, w => w == Uploaded(j)) }

  /** Where chunk j is past its upload: to be delivered, delivered, in hand, collected or drained. */
  function Past(s: State, j: nat): nat {
    AtDelivery(s.workers, j) + Occ(s.results, j) + InHand(s.coll, j) + Occ(s.segments, j) + Occ(s.drained, j)
  }

  ghost predicate Accounted(s: State) { forall j: nat :: Occ(s.stored, j) == Past(s, j) }

  lemma MoveDelivery(s: State, w: nat, to: Worker, j: nat)
    requires w < |s.workers|
    ensures AtDelivery(Move(s, w, to).workers, j) == AtDelivery(s.workers, j)
            - (if s.workers[w] == Uploaded(j) then 1 else 0) + (if to == Uploaded(j) then 1 else 0)
  {
    CountUpdate(s.workers, w, to, x => x == Uploaded(j));
  }

  /** The difference between what is stored and what is past its upload does not change. */
  lemma TryPast(s: State, w: nat, outcome: Attempt, j: nat)
    requires w < |s.workers| && s.workers[w].Trying?
    ensures var x := OnTry(s, w, outcome); Occ(x.stored, j) - Past(x, j) == Occ(s.stored, j) - Past(s, j)
  {
    MoveDelivery(s, w, OnTry(s, w, outcome).workers[w], j);
    OccPush(s.stored, s.workers[w].job, j);
  }

  lemma DeliverPast(s: State, w: nat, j: nat)
    requires w < |s.workers| && s.workers[w].Uploaded?
    ensures Past(OnDeliver(s, w), j) == Past(s, j)
  {
    MoveDelivery(s, w, Idle, j);
    OccPush(s.results, s.workers[w].job, j);
  }

  lemma KeepPast(s: State, j: nat)
    requires s.coll.Holding?
    ensures Past(OnKeep(s), j) == Past(s, j)
  {
    OccPush(s.segments, s.coll.seg, j);
    OccPush(s.drained, s.coll.seg, j);
  }

  lemma OtherPast(c: Config, s: State, a: Action, j: nat)
    requires Enabled(c, s, a) && !a.Try? && !a.Deliver? && !a.Keep?
    ensures Do(c, s, a).stored == s.stored && Past(Do(c, s, a), j) == Past(s, j)
  {
    if WorkerAction(a) { MoveDelivery(s, a.w, Do(c, s, a).workers[a.w], j); }
  }

  lemma StepAccounted(c: Config, s: State, a: Action)
    requires Accounted(s) && Enabled(c, s, a)
    ensures Accounted(Do(c, s, a))
  {
    forall j: nat ensures Occ(Do(c, s, a).stored, j) == Past(Do(c, s, a), j) {
      match a
      case Try(w, outcome) => TryPast(s, w, outcome, j);
      case Deliver(w) => DeliverPast(s, w, j);
      case Keep => KeepPast(s, j);
      case _ => OtherPast(c, s, a, j);
    }
  }

  /** Over every run, the accepted articles are exactly the chunks past their upload. */
  lemma {:induction false} AcceptedExactly(c: Config, run: seq<State>, k: nat)
    requires IsRun(c, run) && k < |run|
    ensures Accounted(run[k])
  {
    if k == 0 {
      forall j: nat ensures AtDelivery(Init(c).workers, j) == 0 {
        CountAll(Init(c).workers, x => x == Uploaded(j));
      }
    } else {
      AcceptedExactly(c, run, k - 1);
      assert Next(c, run[k - 1], run[k - 1 + 1]);
      var a :| Enabled(c, run[k - 1], a) && run[k] == Do(c, run[k - 1], a);
      StepAccounted(c, run[k - 1], a);
    }
  }

  lemma {:induction false} DeliveryHeld(ws: seq<Worker>, j: nat)
    ensures AtDelivery(ws, j) <= Held(ws, j)
  {
    if ws != [] { DeliveryHeld(ws[1..], j); }
  }

  /** No chunk is accepted twice, collected segments were accepted, and on success the server has each chunk once. */
  lemma AcceptedOnce(c: Config, s: State, j: nat)
    requires Staffed(c) && Reachable(c, s)
    ensures Occ(s.segments, j) <= Occ(s.stored, j) <= 1
    ensures s.coll == Returned(true) ==> Occ(s.stored, j) == if 1 <= j <= c.total then 1 else 0
  {
    var run :| IsRun(c, run) && run[|run| - 1] == s;
    AcceptedExactly(c, run, |run| - 1);
    ReachableInv(c, s);
    DeliveryHeld(s.workers, j);
    assert Occ(s.stored, j) == Past(s, j);
    assert Count(s, j) == if 1 <= j <= s.sent then 1 else 0;
  }
}
