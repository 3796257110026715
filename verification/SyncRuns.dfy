/**
 Runs of the sync against a live site: the catalog is edited at growing versions, the
 operator edits local rows, fetches fail, the agent restarts, and the pushes of one poll
 interleave with all of that.
 */
module SyncRuns {
  import opened Text
  import opened Groups
  import opened GroupStore
  import opened GroupSync

  datatype Published = Published(content: Content, version: int)

  type Catalog = map<string, Published>

  /** A poll in progress carries the groups still to push and the mark it will set. */
  datatype Poll = Idle | Pushing(rest: seq<SiteGroup>, live: set<string>, mark: int)

  /**
   Site and agent. The last five fields are bookkeeping of the model: the catalog at the
   last successful fetch, the names published since then, the names the operator touched and
   the names whose push failed since a fetch last listed them, and the names the site listed
   since the last full fetch.
   */
  datatype World = World(
    catalog: Catalog, clock: int,
    view: View, lastVersion: int, full: bool, poll: Poll,
    snapshot: Catalog, edited: set<string>, touched: set<string>, missed: set<string>, listed: set<string>)

  datatype Action =
    | Publish(name: string, content: Content)
    | Withdraw(name: string)
    | Operate(names: set<string>, after: View)
    | Fetch(groups: seq<SiteGroup>, maxVersion: int)
    | FetchFails
    | PushNext
    | PushFails
    | Finish
    | Restart

  function Since(w: World): int { if w.full then 0 else w.lastVersion }

  /** A catalog group passes the agent's validation and has a trimmed name. */
  predicate Proper(name: string, content: Content) {
    name != "" && Trimmed(name) && CleanNames(content.newsgroups) != []
  }

  /** The response to a poll: each group published above `since`, in any order. */
  ghost predicate Answers(groups: seq<SiteGroup>, c: Catalog, since: int) {
    && (forall i :: 0 <= i < |groups| ==>
          groups[i].name in c && c[groups[i].name] == Published(groups[i].content, groups[i].version))
    && (forall n :: n in c && c[n].version > since ==> n in RawNames(groups))
  }

  /** Outside `names` nothing changes, as for every operation of the table behind the UI. */
  ghost predicate SameOutside(v: View, w: View, names: set<string>) {
    forall n :: n !in names ==> (n in v <==> n in w) && (n in v ==> v[n] == w[n])
  }

  ghost predicate Enabled(w: World, a: Action) {
    match a
    case Publish(n, c) => Proper(n, c)
    case Withdraw(_) => true
    case Operate(names, after) => SameOutside(w.view, after, names)
    case Fetch(groups, m) => w.poll.Idle? && m <= w.clock && Answers(groups, w.catalog, Since(w))
    case FetchFails => w.poll.Idle?
    case PushNext => w.poll.Pushing? && w.poll.rest != []
    case PushFails => w.poll.Pushing? && w.poll.rest != []
    case Finish => w.poll.Pushing? && w.poll.rest == []
    case Restart => true
  }

  function OnPublish(w: World, n: string, c: Content): World {
    w.(clock := w.clock + 1, catalog := w.catalog[n := Published(c, w.clock + 1)], edited := w.edited + {n})
  }

  function OnFetch(w: World, groups: seq<SiteGroup>, m: int): World {
    w.(poll := Pushing(groups, RawNames(groups), m), snapshot := w.catalog, edited := {},
       touched := if w.full then {} else w.touched - RawNames(groups),
       missed := if w.full then {} else w.missed - RawNames(groups),
       listed := (if w.full then {} else w.listed) + RawNames(groups))
  }

  function OnPush(w: World): World
    requires w.poll.Pushing? && w.poll.rest != []
  {
    w.(view := Push(w.view, w.poll.rest[0]), poll := w.poll.(rest := w.poll.rest[1..]))
  }

  /** The upsert returned an error: the group is passed over. */
  function OnPushFails(w: World): World
    requires w.poll.Pushing? && w.poll.rest != []
  {
    w.(missed := w.missed + {w.poll.rest[0].name}, poll := w.poll.(rest := w.poll.rest[1..]))
  }

  function OnFinish(w: World): World
    requires w.poll.Pushing?
  {
    w.(view := if w.full then ReconcileView(w.view, w.poll.live) else w.view,
       full := false, poll := Idle,
       lastVersion := if w.poll.mark > w.lastVersion then w.poll.mark else w.lastVersion)
  }

  ghost function Do(w: World, a: Action): World
    requires Enabled(w, a)
  {
    match a
    case Publish(n, c) => OnPublish(w, n, c)
    case Withdraw(n) => w.(catalog := w.catalog - {n})
    case Operate(names, after) => w.(view := after, touched := w.touched + names)
    case Fetch(groups, m) => OnFetch(w, groups, m)
    case FetchFails => w
    case PushNext => OnPush(w)
    case PushFails => OnPushFails(w)
    case Finish => OnFinish(w)
    case Restart => w.(poll := Idle, full := true, lastVersion := 0)
  }

  /** An agent that just started against a site whose versions are in 1..clock. */
  ghost predicate Init(w: World) {
    && w.poll.Idle? && w.full && w.lastVersion == 0
    && w.clock >= 0
    && Dated(w.catalog, w.clock)
  }

  ghost predicate Dated(c: Catalog, clock: int) {
    forall n :: n in c ==> 1 <= c[n].version <= clock && Proper(n, c[n].content)
  }

  // ------------------------------------------------------------------ invariant

  /** The row under n is there, and is the operator's own or carries the site's settings. */
  predicate Agrees(v: View, n: string, c: Content) {
    n in v && (v[n].source.Local? || v[n].content == Normal(c))
  }

  /** What was not published since the last fetch is as the snapshot has it. */
  ghost predicate SnapshotFresh(w: World) {
    forall n :: n in w.catalog && n !in w.edited ==> n in w.snapshot && w.snapshot[n] == w.catalog[n]
  }

  /** The mark the next poll will start from. */
  function Mark(w: World): int {
    if w.poll.Pushing? && w.poll.mark > w.lastVersion then w.poll.mark else w.lastVersion
  }

  /** What was published since the last fetch is above the mark, so the next poll asks for it. */
  ghost predicate EditsAhead(w: World) {
    && w.clock >= Mark(w)
    && (forall n :: n in w.catalog && n in w.edited ==> w.catalog[n].version > Mark(w))
  }

  /** Each snapshot name neither touched nor missed agrees already or is still to be pushed. */
  ghost predicate Caught(w: World) {
    forall n :: n in w.snapshot && n !in w.touched && n !in w.missed ==>
      Agrees(w.view, n, w.snapshot[n].content) || (w.poll.Pushing? && n in RawNames(w.poll.rest))
  }

  ghost predicate PollOk(w: World) {
    w.poll.Pushing? ==>
      && (w.full ==> forall n :: n in w.snapshot ==> n in w.poll.live)
      && w.poll.live <= w.listed
      && RawNames(w.poll.rest) <= w.listed
      && (forall i :: 0 <= i < |w.poll.rest| ==>
            var g := w.poll.rest[i];
            g.name in w.snapshot && w.snapshot[g.name].content == g.content && Proper(g.name, g.content))
  }

  /** Every site row the operator left alone was listed by the site since the full fetch. */
  ghost predicate NoStrays(w: World) {
    !w.full ==> forall n :: IsSite(w.view, n) && n !in w.touched ==> n in w.listed
  }

  /** A booted agent (one that completed a fetch since its start) follows the snapshot. */
  ghost predicate Booted(w: World) { !w.full || w.poll.Pushing? }

  ghost predicate Inv(w: World) {
    && Dated(w.catalog, w.clock)
    && (w.full ==> w.lastVersion == 0)
    && w.clock >= 0
    && (Booted(w) ==> SnapshotFresh(w) && EditsAhead(w) && PollOk(w) && Caught(w) && NoStrays(w))
  }

  // -------------------------------------------------------------- preservation

  lemma PublishKeeps(w: World, n: string, c: Content)
    requires Inv(w) && Proper(n, c)
    ensures Inv(OnPublish(w, n, c))
  {
  }

  lemma OperateKeeps(w: World, names: set<string>, after: View)
    requires Inv(w) && SameOutside(w.view, after, names)
    ensures Inv(w.(view := after, touched := w.touched + names))
  {
  }

  lemma FetchKeeps(w: World, groups: seq<SiteGroup>, m: int)
    requires Inv(w) && w.poll.Idle? && m <= w.clock && Answers(groups, w.catalog, Since(w))
    ensures Inv(OnFetch(w, groups, m))
  {
  }

  /** Pushing a proper group makes its name agree and disturbs no other. */
  lemma PushAgrees(v: View, g: SiteGroup, n: string, c: Content)
    requires Proper(g.name, g.content)
    ensures n == g.name && c == g.content ==> Agrees(Push(v, g), n, c)
    ensures n != g.name && Agrees(v, n, c) ==> Agrees(Push(v, g), n, c)
    ensures IsSite(Push(v, g), n) ==> IsSite(v, n) || n == g.name
  {
    TrimSpaceTrims(g.name);
    PushLaw(v, g);
  }

  lemma PushKeeps(w: World)
    requires Inv(w) && w.poll.Pushing? && w.poll.rest != []
    ensures Inv(OnPush(w))
  {
    var x, g := OnPush(w), w.poll.rest[0];
    forall n | n in x.snapshot && n !in x.touched && n !in x.missed
      ensures Agrees(x.view, n, x.snapshot[n].content) || n in RawNames(x.poll.rest) {
      PushAgrees(w.view, g, n, w.snapshot[n].content);
    }
    forall n | IsSite(x.view, n) ensures IsSite(w.view, n) || n == g.name {
      PushAgrees(w.view, g, n, g.content);
    }
  }

  lemma PushFailsKeeps(w: World)
    requires Inv(w) && w.poll.Pushing? && w.poll.rest != []
    ensures Inv(OnPushFails(w))
  {
  }

  lemma FinishKeeps(w: World)
    requires Inv(w) && w.poll.Pushing? && w.poll.rest == []
    ensures Inv(OnFinish(w))
  {
  }

  lemma StepKeeps(w: World, a: Action)
    requires Inv(w) && Enabled(w, a)
    ensures Inv(Do(w, a))
  {
    match a
    case Publish(n, c) => PublishKeeps(w, n, c);
    case Operate(names, after) => OperateKeeps(w, names, after);
    case Fetch(groups, m) => FetchKeeps(w, groups, m);
    case PushNext => PushKeeps(w);
    case PushFails => PushFailsKeeps(w);
    case Finish => FinishKeeps(w);
    case _ =>
  }

  // ----------------------------------------------------------------------- runs

  ghost predicate Run(ws: seq<World>, acts: seq<Action>) {
    && |ws| == |acts| + 1
    && Init(ws[0])
    && forall i :: 0 <= i < |acts| ==> Enabled(ws[i], acts[i]) && ws[i + 1] == Do(ws[i], acts[i])
  }

  lemma {:induction false} RunInv(ws: seq<World>, acts: seq<Action>, k: nat)
    requires Run(ws, acts) && k < |ws|
    ensures Inv(ws[k])
  {
    if k > 0 {
      RunInv(ws, acts, k - 1);
      StepKeeps(ws[k - 1], acts[k - 1]);
    }
  }

  /** Neither published, touched nor missed since a fetch last listed it. */
  predicate Settled(w: World, n: string) { n !in w.edited && n !in w.touched && n !in w.missed }

  lemma FinishIdles(w: World, a: Action)
    requires Enabled(w, a) && a.Finish?
    ensures Do(w, a).poll.Idle? && !Do(w, a).full
  {
  }

  lemma IdleAgrees(w: World, n: string)
    requires Inv(w) && w.poll.Idle? && !w.full && n in w.catalog && Settled(w, n)
    ensures Agrees(w.view, n, w.catalog[n].content)
  {
    assert SnapshotFresh(w) && Caught(w);
  }

  /**
   After every successful poll of every run, each catalog name that was not published since
   that poll's fetch, and that was neither touched by the operator nor missed by a push since
   it was last listed, has its row: a local override, or the catalog's settings.
   */
  lemma Convergence(ws: seq<World>, acts: seq<Action>, k: nat, n: string)
    requires Run(ws, acts) && k < |acts| && acts[k].Finish?
    requires n in ws[k + 1].catalog && Settled(ws[k + 1], n)
    ensures n in ws[k + 1].view
    ensures ws[k + 1].view[n].source.Site? ==> ws[k + 1].view[n].content == Normal(ws[k + 1].catalog[n].content)
  {
    RunInv(ws, acts, k + 1);
    FinishIdles(ws[k], acts[k]);
    IdleAgrees(ws[k + 1], n);
  }

  /** After every successful poll, every site row comes from the site or from the operator. */
  lemma NoStrayRows(ws: seq<World>, acts: seq<Action>, k: nat, n: string)
    requires Run(ws, acts) && k < |acts| && acts[k].Finish? && IsSite(ws[k + 1].view, n)
    ensures n in ws[k + 1].listed || n in ws[k + 1].touched
  {
    RunInv(ws, acts, k + 1);
  }

  // ------------------------------------------------------- recovery and loss

  /** The step does not publish, withdraw, operate on or fail to push n, and the agent runs on. */
  ghost predicate Undisturbed(w: World, a: Action, n: string) {
    match a
    case Publish(m, _) => m != n
    case Withdraw(m) => m != n
    case Operate(names, _) => n !in names
    case PushFails => w.poll.Pushing? && w.poll.rest != [] && w.poll.rest[0].name != n
    case Restart => false
    case _ => true
  }

  lemma {:induction false} StaysSettled(ws: seq<World>, acts: seq<Action>, j: nat, k: nat, n: string)
    requires Run(ws, acts) && j <= k < |ws|
    requires n in ws[j].catalog && Settled(ws[j], n)
    requires forall m :: j <= m < k ==> Undisturbed(ws[m], acts[m], n)
    ensures n in ws[k].catalog && ws[k].catalog[n] == ws[j].catalog[n] && Settled(ws[k], n)
  {
    if j < k {
      StaysSettled(ws, acts, j, k - 1, n);
      assert Undisturbed(ws[k - 1], acts[k - 1], n);
    }
  }

  /** A poll that lists a name repairs it, whatever happened to its row before. */
  lemma ListingRepairs(ws: seq<World>, acts: seq<Action>, j: nat, k: nat, n: string)
    requires Run(ws, acts) && j < k < |acts| && acts[j].Fetch? && n in RawNames(acts[j].groups) && acts[k].Finish?
    requires forall m :: j < m < k ==> Undisturbed(ws[m], acts[m], n)
    ensures n in ws[k + 1].view
    ensures ws[k + 1].view[n].source.Site? ==> ws[k + 1].view[n].content == Normal(ws[j].catalog[n].content)
  {
    assert n in ws[j + 1].catalog && Settled(ws[j + 1], n) && ws[j + 1].catalog == ws[j].catalog;
    StaysSettled(ws, acts, j + 1, k, n);
    Convergence(ws, acts, k, n);
  }

  /** Under n the two views hold the same, or nothing both. */
  predicate SameUnder(v: View, w: View, n: string) { (n in v <==> n in w) && (n in v ==> v[n] == w[n]) }

  /** A booted agent with nothing left to push under n. */
  ghost predicate Past(w: World, n: string) {
    !w.full && (w.poll.Pushing? ==> n !in RawNames(w.poll.rest))
  }

  /** The step neither operates on n nor lists it, and the agent runs on. */
  ghost predicate Ignores(a: Action, n: string) {
    match a
    case Operate(names, _) => n !in names
    case Fetch(groups, _) => n !in RawNames(groups)
    case Restart => false
    case _ => true
  }

  lemma RestNames(rest: seq<SiteGroup>)
    requires rest != []
    ensures RawNames(rest) == {rest[0].name} + RawNames(rest[1..])
  {
    assert rest == [rest[0]] + rest[1..];
  }

  lemma PushElsewhere(v: View, g: SiteGroup, n: string)
    requires Proper(g.name, g.content) && n != g.name
    ensures SameUnder(v, Push(v, g), n)
  {
    TrimSpaceTrims(g.name);
    PushLaw(v, g);
  }

  lemma IgnoredPush(w: World, n: string)
    requires Inv(w) && Past(w, n) && w.poll.Pushing? && w.poll.rest != []
    ensures Past(OnPush(w), n) && SameUnder(w.view, OnPush(w).view, n) && Past(OnPushFails(w), n)
  {
    RestNames(w.poll.rest);
    PushElsewhere(w.view, w.poll.rest[0], n);
  }

  lemma IgnoredStep(w: World, a: Action, n: string)
    requires Inv(w) && Enabled(w, a) && Past(w, n) && Ignores(a, n)
    ensures Past(Do(w, a), n) && SameUnder(w.view, Do(w, a).view, n)
  {
    if a.PushNext? || a.PushFails? { IgnoredPush(w, n); }
  }

  /** Until a fetch lists it, the row under a name stays as it is: missing, stale or right. */
  lemma {:induction false} UnlistedStays(ws: seq<World>, acts: seq<Action>, j: nat, k: nat, n: string)
    requires Run(ws, acts) && j <= k < |ws| && Past(ws[j], n)
    requires forall m :: j <= m < k ==> Ignores(acts[m], n)
    ensures Past(ws[k], n) && SameUnder(ws[j].view, ws[k].view, n)
  {
    if j < k {
      UnlistedStays(ws, acts, j, k - 1, n);
      RunInv(ws, acts, k - 1);
      assert Ignores(acts[k - 1], n);
      IgnoredStep(ws[k - 1], acts[k - 1], n);
    }
  }

  /** The site lists only groups above the version it was asked for. */
  ghost predicate Frugal(w: World, a: Action) {
    a.Fetch? ==> forall i :: 0 <= i < |a.groups| ==> a.groups[i].version > Since(w)
  }

  /** The step leaves n alone: no publication, no operation, no restart. */
  ghost predicate LeftAlone(a: Action, n: string) {
    match a
    case Publish(m, _) => m != n
    case Operate(names, _) => n !in names
    case Restart => false
    case _ => true
  }

  /** Published at or below the mark, or not at all. */
  ghost predicate Behind(w: World, n: string) { n in w.catalog ==> w.catalog[n].version <= w.lastVersion }

  lemma BehindStep(w: World, a: Action, n: string)
    requires Enabled(w, a) && Frugal(w, a) && LeftAlone(a, n) && !w.full && Behind(w, n)
    ensures Ignores(a, n) && Behind(Do(w, a), n)
  {
  }

  /**
   The lasting divergence: a name behind the mark, lost to a failed push or a deleted
   override, stays as it is however many polls follow, until the site publishes it again,
   the operator touches it or the agent restarts.
   */
  lemma {:induction false} DivergenceLasts(ws: seq<World>, acts: seq<Action>, j: nat, k: nat, n: string)
    requires Run(ws, acts) && j <= k < |ws| && Past(ws[j], n) && Behind(ws[j], n)
    requires forall m :: j <= m < k ==> Frugal(ws[m], acts[m]) && LeftAlone(acts[m], n)
    ensures Past(ws[k], n) && Behind(ws[k], n) && SameUnder(ws[j].view, ws[k].view, n)
  {
    if j < k {
      DivergenceLasts(ws, acts, j, k - 1, n);
      RunInv(ws, acts, k - 1);
      assert Frugal(ws[k - 1], acts[k - 1]) && LeftAlone(acts[k - 1], n);
      BehindStep(ws[k - 1], acts[k - 1], n);
      IgnoredStep(ws[k - 1], acts[k - 1], n);
    }
  }

  /** A site that has published n once, an agent about to start with the given rows. */
  function Starting(n: string, c: Content, v: View): World {
    World(map[n := Published(c, 1)], 1, v, 0, true, Idle, map[], {}, {}, {}, {})
  }

  lemma OneGroup(n: string, c: Content)
    ensures var g := SiteGroup(n, c, 1);
            && RawNames([g]) == {n} && [g][1..] == []
            && (forall since :: since < 1 ==> Answers([g], map[n := Published(c, 1)], since))
            && Answers([], map[n := Published(c, 1)], 1)
  {
  }

  ghost predicate RunTo(ws: seq<World>, acts: seq<Action>, w: World) { Run(ws, acts) && ws[|acts|] == w }

  lemma Extend(ws: seq<World>, acts: seq<Action>, w: World, a: Action, x: World)
    requires RunTo(ws, acts, w) && Enabled(w, a) && x == Do(w, a)
    ensures RunTo(ws + [x], acts + [a], x)
  {
  }

  /** The agent after its first full sync, with rows v and the mark at 1. */
  function Synced1(n: string, c: Content, v: View, missed: set<string>): World {
    var cat := map[n := Published(c, 1)];
    World(cat, 1, v, 1, false, Idle, cat, {}, {}, missed, {n})
  }

  lemma ShadowedViews(n: string, c: Content, own: Entry)
    requires Proper(n, c) && own.source.Local?
    ensures var v := map[n := own]; Push(v, SiteGroup(n, c, 1)) == v && ReconcileView(v, {n}) == v
  {
    TrimSpaceTrims(n);
    PushLaw(map[n := own], SiteGroup(n, c, 1));
  }

  /** The full fetch of the one group. */
  lemma BootFetch(n: string, c: Content, v: View) returns (ws: seq<World>, acts: seq<Action>)
    requires Proper(n, c)
    ensures RunTo(ws, acts, OnFetch(Starting(n, c, v), [SiteGroup(n, c, 1)], 1))
  {
    var w0, a := Starting(n, c, v), Fetch([SiteGroup(n, c, 1)], 1);
    OneGroup(n, c);
    ws, acts := [w0] + [OnFetch(w0, a.groups, 1)], [] + [a];
    Extend([w0], [], w0, a, OnFetch(w0, a.groups, 1));
  }

  /** The full sync of a shadowed group: the override stays, the mark moves to 1. */
  lemma ShadowedBoot(n: string, c: Content, own: Entry) returns (ws: seq<World>, acts: seq<Action>)
    requires Proper(n, c) && own.source.Local?
    ensures RunTo(ws, acts, Synced1(n, c, map[n := own], {}))
  {
    ws, acts := BootFetch(n, c, map[n := own]);
    OneGroup(n, c);
    ShadowedViews(n, c, own);
    var w1 := ws[|acts|];
    var w2 := OnPush(w1);
    Extend(ws, acts, w1, PushNext, w2);
    Extend(ws + [w2], acts + [PushNext], w2, Finish, OnFinish(w2));
    ws, acts := ws + [w2] + [OnFinish(w2)], acts + [PushNext] + [Finish];
  }

  /** The full sync of a group whose push fails. */
  lemma FailingBoot(n: string, c: Content) returns (ws: seq<World>, acts: seq<Action>)
    requires Proper(n, c)
    ensures RunTo(ws, acts, Synced1(n, c, map[], {n})) && PushFails in acts
  {
    ws, acts := BootFetch(n, c, map[]);
    OneGroup(n, c);
    var w1 := ws[|acts|];
    var w2 := OnPushFails(w1);
    Extend(ws, acts, w1, PushFails, w2);
    Extend(ws + [w2], acts + [PushFails], w2, Finish, OnFinish(w2));
    ws, acts := ws + [w2] + [OnFinish(w2)], acts + [PushFails] + [Finish];
  }

  /** A poll that finds nothing new. */
  lemma EmptyPoll(ws: seq<World>, acts: seq<Action>, w: World, n: string, c: Content)
    requires RunTo(ws, acts, w) && w.poll.Idle? && !w.full && w.lastVersion == 1 <= w.clock
    requires w.catalog == map[n := Published(c, 1)]
    ensures var x := OnFinish(OnFetch(w, [], 1));
            && RunTo(ws + [OnFetch(w, [], 1)] + [x], acts + [Fetch([], 1)] + [Finish], x)
            && x.view == w.view && x.catalog == w.catalog && Past(x, n) && Behind(x, n)
  {
  }

  /**
   An override that the operator deletes after the full sync is missing after the next poll,
   and by DivergenceLasts after all that follow, although the catalog has the name.
   */
  lemma DeletedOverrideIsMissing(n: string, c: Content, own: Entry)
    returns (ws: seq<World>, acts: seq<Action>, w: World)
    requires Proper(n, c) && own.source.Local?
    ensures RunTo(ws, acts, w) && |acts| >= 3 && acts[|acts| - 3..] == [Operate({n}, map[]), Fetch([], 1), Finish]
    ensures n in ws[|acts| - 3].view && n in w.catalog && n !in w.view && Past(w, n) && Behind(w, n)
  {
    ws, acts := ShadowedBoot(n, c, own);
    var w3 := Synced1(n, c, map[n := own], {});
    var w4 := w3.(view := map[], touched := w3.touched + {n});
    Extend(ws, acts, w3, Operate({n}, map[]), w4);
    EmptyPoll(ws + [w4], acts + [Operate({n}, map[])], w4, n, c);
    w := OnFinish(OnFetch(w4, [], 1));
    ws := ws + [w4] + [OnFetch(w4, [], 1)] + [w];
    acts := acts + [Operate({n}, map[])] + [Fetch([], 1)] + [Finish];
  }

  /** A failed push leaves its name missing although the mark has passed it, and the next poll does not help. */
  lemma FailedPushIsMissing(n: string, c: Content)
    returns (ws: seq<World>, acts: seq<Action>, w: World)
    requires Proper(n, c)
    ensures RunTo(ws, acts, w) && PushFails in acts
    ensures n in w.catalog && n !in w.view && Past(w, n) && Behind(w, n)
  {
    ws, acts := FailingBoot(n, c);
    var w3 := Synced1(n, c, map[], {n});
    EmptyPoll(ws, acts, w3, n, c);
    w := OnFinish(OnFetch(w3, [], 1));
    ws, acts := ws + [OnFetch(w3, [], 1)] + [w], acts + [Fetch([], 1)] + [Finish];
  }

  // ------------------------------------------------------ a poll that runs alone

  function PushMany(w: World, k: nat): World
    requires w.poll.Pushing? && k <= |w.poll.rest|
    decreases k
  {
    if k == 0 then w else
      var x := PushMany(w, k - 1);
      if x.poll.Pushing? && x.poll.rest != [] then OnPush(x) else x
  }

  lemma {:induction false} PushManyLaw(w: World, k: nat)
    requires w.poll.Pushing? && k <= |w.poll.rest|
    ensures PushMany(w, k) ==
            w.(view := PushAll(w.view, w.poll.rest[..k]), poll := w.poll.(rest := w.poll.rest[k..]))
  {
    if k > 0 {
      PushManyLaw(w, k - 1);
      var rest := w.poll.rest;
      assert rest[k - 1..][0] == rest[k - 1] && rest[k - 1..][1..] == rest[k..];
      assert rest[..k][..k - 1] == rest[..k - 1];
    } else {
      assert w.poll.rest[..0] == [] && w.poll.rest[0..] == w.poll.rest;
    }
  }

  /** With nothing in between, the steps of a poll do to the agent what RunOnce does. */
  lemma PollIsRunOnce(w: World, groups: seq<SiteGroup>, m: int)
    ensures var x := PushMany(OnFetch(w, groups, m), |groups|);
            && x.poll.Pushing? && x.poll.rest == []
            && OnFinish(x).view == Synced(w.view, groups, w.full)
            && OnFinish(x).lastVersion == (if m > w.lastVersion then m else w.lastVersion)
            && !OnFinish(x).full
  {
    PushManyLaw(OnFetch(w, groups, m), |groups|);
    assert groups[..|groups|] == groups;
  }
}
