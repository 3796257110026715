/**
 The site-groups sync: one full fetch with reconciliation, then incremental polls above a
 version high-water mark. Its effect on the table is a function of the view and the
 response; the lemmas say exactly which rows a sync leaves.
 */
module GroupSync {
  import opened Wrappers
  import opened Text
  import opened Groups
  import opened GroupStore

  datatype SiteGroup = SiteGroup(name: string, content: Content, version: int)

  datatype Response = Response(groups: seq<SiteGroup>, maxVersion: int)

  // --------------------------------------------------------- one sync as a function

  function Incoming(sg: SiteGroup): Group { Group(sg.name, sg.content, "", sg.version) }

  function Push(v: View, sg: SiteGroup): View { UpsertView(v, Incoming(sg)) }

  function PushAll(v: View, gs: seq<SiteGroup>): View {
    if gs == [] then v else Push(PushAll(v, gs[..|gs| - 1]), gs[|gs| - 1])
  }

  function RawNames(gs: seq<SiteGroup>): set<string> { set g <- gs :: g.name }

  function Synced(v: View, gs: seq<SiteGroup>, full: bool): View {
    if full then ReconcileView(PushAll(v, gs), RawNames(gs)) else PushAll(v, gs)
  }

  /** The name a pushed group is stored under is not empty, and it has a newsgroup. */
  predicate Accepted(g: SiteGroup) {
    TrimSpace(g.name) != "" && CleanNames(g.content.newsgroups) != []
  }

  predicate IsLocal(v: View, n: string) { n in v && v[n].source.Local? }

  predicate IsSite(v: View, n: string) { n in v && v[n].source.Site? }

  /** How many of the groups pass validation and are not shadowed by a local row. */
  function Landed(v: View, gs: seq<SiteGroup>): nat {
    if gs == [] then 0
    else
      var g := gs[|gs| - 1];
      Landed(v, gs[..|gs| - 1]) + if Accepted(g) && !IsLocal(v, TrimSpace(g.name)) then 1 else 0
  }

  predicate Lands(v: View, g: SiteGroup) { Accepted(g) && !IsLocal(v, TrimSpace(g.name)) }

  /** The positions of the groups that pass a test. */
  ghost function Where(gs: seq<SiteGroup>, test: SiteGroup -> bool): set<nat> {
    set i: nat | i < |gs| && test(gs[i])
  }

  lemma WhereNext(gs: seq<SiteGroup>, test: SiteGroup -> bool)
    requires gs != []
    ensures var n := |gs| - 1;
            |Where(gs, test)| == |Where(gs[..n], test)| + if test(gs[n]) then 1 else 0
  {
    var n := |gs| - 1;
    assert Where(gs, test) == Where(gs[..n], test) + if test(gs[n]) then {n} else {};
  }

  /** The count is the number of groups that land. */
  lemma {:induction false} LandedCounts(v: View, gs: seq<SiteGroup>)
    ensures Landed(v, gs) == |Where(gs, g => Lands(v, g))|
  {
    if gs != [] {
      LandedCounts(v, gs[..|gs| - 1]);
      WhereNext(gs, g => Lands(v, g));
    }
  }

  // ------------------------------------------------------------ the polling loop

  class SiteGroupsSync {
    const table: GroupsTable
    var lastVersion: int
    var doFullSync: bool

    constructor (t: GroupsTable)
      ensures table == t && lastVersion == 0 && doFullSync
    {
      table, lastVersion, doFullSync := t, 0, true;
    }

    /** One poll; `fetch` is the site, and None a failed fetch. */
    method RunOnce(fetch: int -> Option<Response>) returns (upserted: nat)
      requires table.Valid()
      modifies this, table
      ensures table.Valid()
      ensures old(fetch(if doFullSync then 0 else lastVersion)).None? ==>
                table.View() == old(table.View()) && lastVersion == old(lastVersion) && doFullSync == old(doFullSync)
      ensures old(fetch(if doFullSync then 0 else lastVersion)).Some? ==>
                var resp := old(fetch(if doFullSync then 0 else lastVersion)).value;
                && table.View() == Synced(old(table.View()), resp.groups, old(doFullSync))
                && lastVersion == (if resp.maxVersion > old(lastVersion) then resp.maxVersion else old(lastVersion))
                && !doFullSync
                && upserted == Landed(old(table.View()), resp.groups)
    {
      upserted := 0;
      var since := lastVersion;
      if doFullSync {
        since := 0;
      }
      var answer := fetch(since);
      if answer.None? {
        return;
      }
      var gs := answer.value.groups;
      upserted := UpsertEach(gs);
      if doFullSync {
        var live := LiveNames(gs);
        var removed := table.ReconcileSiteGroups(live);
        doFullSync := false;
      }
      if answer.value.maxVersion > lastVersion {
        lastVersion := answer.value.maxVersion;
      }
    }

    method UpsertOne(sg: SiteGroup) returns (landed: bool)
      requires table.Valid()
      modifies table
      ensures table.Valid() && table.View() == Push(old(table.View()), sg)
      ensures landed <==> Accepted(sg) && !IsLocal(old(table.View()), TrimSpace(sg.name))
    {
      var pushed := table.UpsertSiteGroup(Incoming(sg));
      landed := pushed.Ok? && pushed.value;
    }

    /** The upsert loop: a group that fails validation or is shadowed is passed over. */
    method UpsertEach(gs: seq<SiteGroup>) returns (upserted: nat)
      requires table.Valid()
      modifies table
      ensures table.Valid() && table.View() == PushAll(old(table.View()), gs)
      ensures upserted == Landed(old(table.View()), gs)
    {
      upserted := 0;
      for i := 0 to |gs|
        invariant table.Valid() && table.View() == PushAll(old(table.View()), gs[..i])
        invariant upserted == Landed(old(table.View()), gs[..i])
      {
        PushNext(old(table.View()), gs, i);
        var landed := UpsertOne(gs[i]);
        if landed {
          upserted := upserted + 1;
        }
      }
      assert gs[..|gs|] == gs;
    }
  }

  method LiveNames(gs: seq<SiteGroup>) returns (live: set<string>)
    ensures live == RawNames(gs)
  {
    live := {};
    for i := 0 to |gs|
      invariant live == set g <- gs[..i] :: g.name
    {
      assert gs[..i + 1] == gs[..i] + [gs[i]];
      live := live + {gs[i].name};
    }
    assert gs[..|gs|] == gs;
  }

  // ---------------------------------------------------- what a list of pushes does

  /** A push stores under the trimmed name unless a local row holds it. */
  lemma PushLaw(v: View, g: SiteGroup)
    ensures forall n :: n in Push(v, g) <==> n in v || (Accepted(g) && n == TrimSpace(g.name))
    ensures forall n :: n in v && (IsLocal(v, n) || !Accepted(g) || n != TrimSpace(g.name)) ==> Push(v, g)[n] == v[n]
    ensures Accepted(g) && !IsLocal(v, TrimSpace(g.name)) ==>
              var e := Push(v, g)[TrimSpace(g.name)];
              e.source.Site? && e.content == Normal(g.content)
  {
  }

  predicate Concerns(gs: seq<SiteGroup>, i: int, n: string) {
    0 <= i < |gs| && Accepted(gs[i]) && TrimSpace(gs[i].name) == n
  }

  ghost predicate Mentions(gs: seq<SiteGroup>, n: string) { exists i :: Concerns(gs, i, n) }

  ghost predicate LastFor(gs: seq<SiteGroup>, k: nat, n: string) {
    Concerns(gs, k, n) && forall i :: k < i < |gs| ==> !Concerns(gs, i, n)
  }

  lemma MentionsSplit(gs: seq<SiteGroup>, n: string)
    requires gs != []
    ensures Mentions(gs, n) <==> Mentions(gs[..|gs| - 1], n) || Concerns(gs, |gs| - 1, n)
  {
    var cut := gs[..|gs| - 1];
    forall i | 0 <= i < |cut| ensures Concerns(cut, i, n) <==> Concerns(gs, i, n) { assert cut[i] == gs[i]; }
    if Mentions(gs, n) {
      var i :| Concerns(gs, i, n);
      assert i == |gs| - 1 || Concerns(cut, i, n);
    }
  }

  /** Local rows and unmentioned names are as they were; the mentioned ones are present. */
  lemma {:induction false} PushAllLaw(v: View, gs: seq<SiteGroup>, n: string)
    ensures n in PushAll(v, gs) <==> n in v || Mentions(gs, n)
    ensures n in v && (v[n].source.Local? || !Mentions(gs, n)) ==> PushAll(v, gs)[n] == v[n]
    ensures IsLocal(PushAll(v, gs), n) <==> IsLocal(v, n)
  {
    if gs != [] {
      var cut := gs[..|gs| - 1];
      PushAllLaw(v, cut, n);
      MentionsSplit(gs, n);
      PushLaw(PushAll(v, cut), gs[|gs| - 1]);
    }
  }

  /** One more group of the list. */
  lemma PushNext(v: View, gs: seq<SiteGroup>, i: nat)
    requires i < |gs|
    ensures var before, n := PushAll(v, gs[..i]), TrimSpace(gs[i].name);
            && PushAll(v, gs[..i + 1]) == Push(before, gs[i])
            && Landed(v, gs[..i + 1]) == Landed(v, gs[..i]) + if Accepted(gs[i]) && !IsLocal(before, n) then 1 else 0
  {
    assert gs[..i + 1][..i] == gs[..i];
    PushAllLaw(v, gs[..i], TrimSpace(gs[i].name));
  }

  /** A name no local row holds ends with the content of the last group pushed for it. */
  lemma {:induction false} PushAllContent(v: View, gs: seq<SiteGroup>, n: string, k: nat)
    requires !IsLocal(v, n) && LastFor(gs, k, n)
    ensures IsSite(PushAll(v, gs), n) && PushAll(v, gs)[n].content == Normal(gs[k].content)
  {
    var cut := gs[..|gs| - 1];
    PushAllLaw(v, cut, n);
    PushLaw(PushAll(v, cut), gs[|gs| - 1]);
    if k < |gs| - 1 {
      assert !Concerns(gs, |gs| - 1, n);
      assert forall i :: 0 <= i < |cut| && Concerns(cut, i, n) ==> Concerns(gs, i, n);
      assert Concerns(cut, k, n);
      PushAllContent(v, cut, n, k);
    }
  }

  // --------------------------------------------------------------- sync theorems

  /** No sync creates, changes or deletes a local row. */
  lemma OverridesKept(v: View, gs: seq<SiteGroup>, full: bool, n: string)
    ensures IsLocal(Synced(v, gs, full), n) <==> IsLocal(v, n)
    ensures IsLocal(v, n) ==> Synced(v, gs, full)[n] == v[n]
  {
    PushAllLaw(v, gs, n);
  }

  /**
   A group that the operator saves survives every sync as it is, unless it is saved as a site
   group; then a full sync that does not list its name removes it.
   */
  lemma SavedGroupSynced(v: View, g: Group, version: int, gs: seq<SiteGroup>, full: bool)
    requires Validated(g).Ok?
    ensures var n := TrimSpace(g.name);
            var w := v[n := Written(Validated(g).value, version)];
            && (g.source == "" || g.source == "local" ==>
                IsLocal(w, n) && n in Synced(w, gs, full) && Synced(w, gs, full)[n] == w[n])
            && (g.source == "site" ==> IsSite(w, n) && (n !in RawNames(gs) ==> n !in Synced(w, gs, true)))
  {
    var n := TrimSpace(g.name);
    var w := v[n := Written(Validated(g).value, version)];
    WrittenIs(g, version);
    OverridesKept(w, gs, full, n);
    OverridesKept(w, gs, true, n);
    FullSyncNames(w, gs, n);
  }

  /** Exactly which site rows a full sync leaves, whatever the list holds. */
  lemma FullSyncNames(v: View, gs: seq<SiteGroup>, n: string)
    ensures IsSite(Synced(v, gs, true), n) <==>
            n in RawNames(gs) && !IsLocal(v, n) && (n in v || Mentions(gs, n))
  {
    PushAllLaw(v, gs, n);
  }

  /**
   A full sync leaves exactly the catalog minus the shadowed names iff every catalog name is
   shadowed, already a site row, or the trimmed name of some group that passes validation.
   */
  lemma FullSyncExactIff(v: View, gs: seq<SiteGroup>)
    ensures (forall n :: IsSite(Synced(v, gs, true), n) <==> n in RawNames(gs) && !IsLocal(v, n)) <==>
            (forall i :: 0 <= i < |gs| ==> gs[i].name in v || Mentions(gs, gs[i].name))
  {
    forall n ensures IsSite(Synced(v, gs, true), n) <==>
                     n in RawNames(gs) && !IsLocal(v, n) && (n in v || Mentions(gs, n)) {
      FullSyncNames(v, gs, n);
    }
    forall i | 0 <= i < |gs| ensures gs[i].name in RawNames(gs) { }
    forall n | n in RawNames(gs) ensures exists i :: 0 <= i < |gs| && gs[i].name == n { }
  }

  /** A catalog as the site should publish it: its names are trimmed and its groups valid. */
  predicate WellFormed(gs: seq<SiteGroup>) {
    forall i :: 0 <= i < |gs| ==> Accepted(gs[i]) && Trimmed(gs[i].name)
  }

  /** The catalog's settings by name; the later of two groups counts. */
  function Settings(gs: seq<SiteGroup>): map<string, Content> {
    if gs == [] then map[]
    else Settings(gs[..|gs| - 1])[gs[|gs| - 1].name := Normal(gs[|gs| - 1].content)]
  }

  function SiteSettings(v: View): map<string, Content> {
    map n | n in v && v[n].source.Site? :: v[n].content
  }

  function Locals(v: View): View { map n | n in v && v[n].source.Local? :: v[n] }

  lemma {:induction false} SettingsLaw(v: View, gs: seq<SiteGroup>, n: string)
    requires WellFormed(gs)
    ensures n in RawNames(gs) <==> n in Settings(gs)
    ensures n in Settings(gs) ==> n in PushAll(v, gs)
    ensures n in Settings(gs) && !IsLocal(v, n) ==> PushAll(v, gs)[n].content == Settings(gs)[n]
  {
    if gs != [] {
      var cut, g := gs[..|gs| - 1], gs[|gs| - 1];
      assert gs == cut + [g];
      assert RawNames(gs) == RawNames(cut) + {g.name};
      SettingsLaw(v, cut, n);
      TrimSpaceTrims(g.name);
      PushAllLaw(v, cut, n);
      PushLaw(PushAll(v, cut), g);
    }
  }

  /** The site rows equal the catalog minus the names that local rows shadow. */
  lemma FullSyncExact(v: View, gs: seq<SiteGroup>)
    requires WellFormed(gs)
    ensures SiteSettings(Synced(v, gs, true)) == Settings(gs) - Locals(v).Keys
    ensures Locals(Synced(v, gs, true)) == Locals(v)
  {
    var w, s := Synced(v, gs, true), Settings(gs);
    forall n ensures SameLocal(v, w, n) && Follows(v, s, w, n) {
      OverridesKept(v, gs, true, n);
      FullSyncEntry(v, gs, n);
    }
    Pointwise(v, s, w);
  }

  predicate SameLocal(v: View, w: View, n: string) {
    (IsLocal(w, n) <==> IsLocal(v, n)) && (IsLocal(v, n) ==> w[n] == v[n])
  }

  /** Under n, w has the site row that s asks for beside the local rows of v. */
  predicate Follows(v: View, s: map<string, Content>, w: View, n: string) {
    && (IsSite(w, n) <==> n in s && !IsLocal(v, n))
    && (IsSite(w, n) ==> w[n].content == s[n])
  }

  lemma Pointwise(v: View, s: map<string, Content>, w: View)
    requires forall n :: SameLocal(v, w, n) && Follows(v, s, w, n)
    ensures SiteSettings(w) == s - Locals(v).Keys && Locals(w) == Locals(v)
  {
    var a, b := SiteSettings(w), s - Locals(v).Keys;
    forall n ensures (n in a <==> n in b) && (n in a ==> a[n] == b[n]) { assert Follows(v, s, w, n); }
    var c, d := Locals(w), Locals(v);
    forall n ensures (n in c <==> n in d) && (n in c ==> c[n] == d[n]) { assert SameLocal(v, w, n); }
  }

  lemma FullSyncEntry(v: View, gs: seq<SiteGroup>, n: string)
    requires WellFormed(gs)
    ensures IsSite(Synced(v, gs, true), n) <==> n in Settings(gs) && !IsLocal(v, n)
    ensures IsSite(Synced(v, gs, true), n) ==> Synced(v, gs, true)[n].content == Settings(gs)[n]
  {
    PushAllLaw(v, gs, n);
    SettingsLaw(v, gs, n);
  }

  /** The empty catalog, which is also what a 404 stands for, removes every site row. */
  lemma EmptyCatalog(v: View)
    ensures Synced(v, [], true) == Locals(v)
    ensures Synced(v, [], false) == v
  {
  }

  // -------------------------------------------------------------- what goes wrong

  /** A name with a space at its end is stored trimmed and removed again by the same full sync. */
  lemma PaddedNameIsLost(c: Content)
    requires CleanNames(c.newsgroups) != []
    ensures Push(map[], SiteGroup("a ", c, 1)).Keys == {"a"}
    ensures Synced(map[], [SiteGroup("a ", c, 1)], true) == map[]
    ensures Synced(map[], [SiteGroup("a ", c, 1)], false).Keys == {"a"}
  {
    var g := SiteGroup("a ", c, 1);
    TrimMiddle("", "a", " ", IsSpace);
    assert "" + "a" + " " == "a ";
    PushLaw(map[], g);
    assert [g][..0] == [];
    assert PushAll(map[], [g]) == Push(PushAll(map[], []), g);
    forall n ensures !IsSite(Synced(map[], [g], true), n) && !IsLocal(Synced(map[], [g], true), n) {
      assert n in RawNames([g]) ==> n == "a ";
    }
    assert Synced(map[], [g], true).Keys == {};
  }

  function Iterate(step: View -> View, v: View, k: nat): View {
    if k == 0 then v else step(Iterate(step, v, k - 1))
  }

  lemma {:induction false} TwoCycle(step: View -> View, v: View, a: View, b: View, k: nat)
    requires step(v) == a && step(a) == b && step(b) == a && k >= 1
    ensures Iterate(step, v, k) == if k % 2 == 1 then a else b
  {
    if k > 1 {
      TwoCycle(step, v, a, b, k - 1);
    } else {
      assert Iterate(step, v, 0) == v;
    }
  }

  /** A first push stores the version, a further one sends it through the trigger. */
  lemma PushTwice(v: View, g: SiteGroup, stored: int)
    requires Accepted(g) && TrimSpace(g.name) !in v
    ensures var n, c := TrimSpace(g.name), Normal(g.content);
            && Push(v, g) == v[n := Entry(c, Site, g.version)]
            && Push(v[n := Entry(c, Site, stored)], g) == v[n := Entry(c, Site, Triggered(stored, g.version))]
  {
  }

  /** Pushing the same group over and over alternates between its version and the next one. */
  lemma VersionAlternates(v: View, g: SiteGroup, k: nat)
    requires Accepted(g) && TrimSpace(g.name) !in v && k >= 1
    ensures Iterate(x => Push(x, g), v, k) ==
            v[TrimSpace(g.name) := Entry(Normal(g.content), Site, if k % 2 == 1 then g.version else g.version + 1)]
  {
    var n, c := TrimSpace(g.name), Normal(g.content);
    PushTwice(v, g, g.version);
    PushTwice(v, g, g.version + 1);
    TwoCycle(x => Push(x, g), v, v[n := Entry(c, Site, g.version)], v[n := Entry(c, Site, g.version + 1)], k);
  }
}
