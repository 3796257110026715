/**
 The groups table: rows keyed by an AUTOINCREMENT id under UNIQUE(name), with the version
 trigger. What a group is, seen from outside, is its entry under its name: the View.
 */
module GroupStore {
  import opened Wrappers
  import opened Groups
  import opened Text

  datatype Source = Local | Site

  datatype Entry = Entry(content: Content, source: Source, version: int)

  datatype Row = Row(name: string, entry: Entry)

  type View = map<string, Entry>

  // ------------------------------------------------ what each operation means

  function SourceOf(s: string): Source { if s == "local" then Local else Site }

  /** UPDATE fires the trigger when the version column kept its value. */
  function Triggered(before: int, written: int): int {
    if written == before then before + 1 else written
  }

  /** A valid site group: inserted, passed over for a local row, or written over the site row. */
  function PutSite(v: View, h: Group): View {
    if h.name !in v then v[h.name := Entry(h.content, Site, h.version)]
    else if v[h.name].source.Local? then v
    else v[h.name := Entry(h.content, Site, Triggered(v[h.name].version, h.version))]
  }

  /** What a site push does to the table. */
  function UpsertView(v: View, g: Group): View {
    match Validated(g.(source := "site"))
    case Err(_) => v
    case Ok(h) => PutSite(v, h)
  }

  /** Site entries whose names are not live go; everything else stays. */
  function ReconcileView(v: View, live: set<string>): View {
    map n | n in v && (v[n].source.Local? || n in live) :: v[n]
  }

  /** What the UI's create and update write under a name. */
  function Written(g: Group, version: int): Entry {
    Entry(g.content, SourceOf(g.source), version)
  }

  /** The row `was` gives way to one with h's name and content and the next version. */
  function Replaced(v: View, was: Row, h: Group): View {
    (v - {was.name})[h.name := Written(h, was.entry.version + 1)]
  }

  /** What is written for a valid group: its normal form, local unless the group says site. */
  lemma WrittenIs(g: Group, version: int)
    ensures Validated(g).Ok? ==>
              && Validated(g).value.name == TrimSpace(g.name)
              && Written(Validated(g).value, version) ==
                 Entry(Normal(g.content), if g.source == "site" then Site else Local, version)
  {
  }

  // -------------------------------------------------- only valid rows are stored

  /** Validation accepts every stored entry as it is. */
  ghost predicate AllStored(v: View) {
    forall n :: n in v ==> Stored(n, v[n].content)
  }

  ghost predicate Stored(n: string, c: Content) {
    Validated(Group(n, c, "site", 0)) == Ok(Group(n, c, "site", 0))
  }

  lemma ValidatedIsStored(g: Group)
    ensures Validated(g).Ok? ==> Stored(Validated(g).value.name, Validated(g).value.content)
  {
    ValidationIdempotent(g);
  }

  lemma UpsertStores(v: View, g: Group)
    requires AllStored(v)
    ensures AllStored(UpsertView(v, g))
  {
    ValidatedIsStored(g.(source := "site"));
  }

  // ------------------------------------------------------------- the table

  class GroupsTable {
    var rows: map<nat, Row>
    /** The index behind UNIQUE(name). */
    var index: map<string, nat>
    var nextId: nat

    ghost predicate Valid() reads this {
      && 1 <= nextId
      && (forall i :: i in rows ==> 1 <= i < nextId && rows[i].name in index && index[rows[i].name] == i)
      && (forall n :: n in index ==> index[n] in rows && rows[index[n]].name == n)
    }

    ghost function View(): View
      requires Valid()
      reads this
    {
      map n | n in index :: rows[index[n]].entry
    }

    constructor ()
      ensures Valid() && View() == map[]
    {
      rows, index, nextId := map[], map[], 1;
    }

    /** INSERT: fails on a name that is taken. */
    method Insert(name: string, entry: Entry) returns (r: Result<nat, Error>)
      requires Valid()
      modifies this
      ensures Valid()
      ensures r.Ok? <==> name !in old(View())
      ensures r.Ok? ==> r.value == old(nextId) && nextId == r.value + 1
      ensures r.Ok? ==> rows == old(rows)[r.value := Row(name, entry)]
      ensures r.Ok? ==> View() == old(View())[name := entry]
      ensures r.Err? ==> rows == old(rows) && nextId == old(nextId) && View() == old(View())
    {
      if name in index {
        return Err(NameTaken);
      }
      r := Ok(nextId);
      rows, index := rows[nextId := Row(name, entry)], index[name := nextId];
      nextId := nextId + 1;
    }

    /** A new row starts at version 1 under a name nobody has. */
    method CreateGroup(g: Group) returns (r: Result<nat, Error>)
      requires Valid()
      modifies this
      ensures Valid()
      ensures r.Ok? <==> Validated(g).Ok? && Validated(g).value.name !in old(View())
      ensures r.Ok? ==> r.value !in old(rows) && nextId == r.value + 1
      ensures r.Ok? ==>
                View() == old(View())[TrimSpace(g.name) :=
                                        Entry(Normal(g.content), if g.source == "site" then Site else Local, 1)]
      ensures r.Err? ==> rows == old(rows) && nextId == old(nextId) && View() == old(View())
    {
      var checked := ValidateGroup(g);
      if checked.Err? {
        return Err(checked.error);
      }
      WrittenIs(g, 1);
      r := Insert(checked.value.name, Written(checked.value, 1));
    }

    /** The row keeps its id, may change its name, and its version grows by one. */
    method UpdateGroup(id: nat, g: Group) returns (r: Result<(), Error>)
      requires Valid()
      modifies this
      ensures Valid() && nextId == old(nextId) && rows.Keys == old(rows.Keys)
      ensures r.Ok? <==> Validated(g).Ok? && id in old(rows) && old(Free(id, Validated(g).value.name))
      ensures r.Ok? ==>
                View() == (old(View()) - {old(rows)[id].name})[TrimSpace(g.name) :=
                             Entry(Normal(g.content), if g.source == "site" then Site else Local,
                                   old(rows)[id].entry.version + 1)]
      ensures r.Err? ==> rows == old(rows) && View() == old(View())
    {
      if id == 0 {
        return Err(IdRequired);
      }
      var checked := ValidateGroup(g);
      if checked.Err? {
        return Err(checked.error);
      }
      if id in rows { WrittenIs(g, rows[id].entry.version + 1); }
      r := Rewrite(id, checked.value);
    }

    ghost predicate Free(id: nat, name: string)
      requires Valid() && id in rows
      reads this
    {
      name == rows[id].name || name !in View()
    }

    method Rewrite(id: nat, h: Group) returns (r: Result<(), Error>)
      requires Valid()
      modifies this
      ensures Valid() && nextId == old(nextId) && rows.Keys == old(rows.Keys)
      ensures r.Ok? <==> id in old(rows) && old(Free(id, h.name))
      ensures r.Ok? ==> View() == Replaced(old(View()), old(rows)[id], h)
      ensures r.Err? ==> rows == old(rows) && View() == old(View())
    {
      if id !in rows {
        return Err(GroupNotFound);
      }
      if h.name in index && index[h.name] != id {
        return Err(NameTaken);
      }
      var was := rows[id].entry.version;
      Update(id, Row(h.name, Written(h, Triggered(was, was))));
      r := Ok(());
    }

    /** UPDATE … WHERE id = ? under a name that is free or the row's own. */
    method Update(id: nat, row: Row)
      requires Valid() && id in rows
      requires row.name in index ==> index[row.name] == id
      modifies this
      ensures Valid() && nextId == old(nextId) && rows == old(rows)[id := row]
      ensures View() == (old(View()) - {old(rows)[id].name})[row.name := row.entry]
    {
      index := (index - {rows[id].name})[row.name := id];
      rows := rows[id := row];
    }

    method DeleteGroup(id: nat) returns (r: Result<(), Error>)
      requires Valid()
      modifies this
      ensures Valid() && nextId == old(nextId)
      ensures r.Ok? <==> id in old(rows)
      ensures r.Ok? ==> rows == old(rows) - {id} && View() == old(View()) - {old(rows)[id].name}
      ensures r.Err? ==> rows == old(rows) && View() == old(View())
    {
      if id !in rows {
        return Err(GroupNotFound);
      }
      Delete(id);
      r := Ok(());
    }

    /** DELETE … WHERE id = ? on a row that exists. */
    method Delete(id: nat)
      requires Valid() && id in rows
      modifies this
      ensures Valid() && nextId == old(nextId) && rows == old(rows) - {id}
      ensures View() == old(View()) - {old(rows)[id].name}
    {
      index := index - {rows[id].name};
      rows := rows - {id};
    }

    /** A site push: local rows win, site rows are updated in place, new names are inserted. */
    method UpsertSiteGroup(g: Group) returns (r: Result<bool, Error>)
      requires Valid()
      modifies this
      ensures Valid() && nextId >= old(nextId)
      ensures View() == UpsertView(old(View()), g)
      ensures forall i :: i in old(rows) ==> i in rows && rows[i].name == old(rows)[i].name
      ensures r.Err? <==> Validated(g.(source := "site")).Err?
      ensures r.Ok? ==>
                var n := Validated(g.(source := "site")).value.name;
                r.value <==> !(n in old(View()) && old(View())[n].source.Local?)
    {
      var checked := ValidateGroup(g.(source := "site"));
      if checked.Err? {
        return Err(checked.error);
      }
      var upserted := UpsertRow(checked.value);
      r := Ok(upserted);
    }

    /** The look-up by name and the write that follows it. */
    method UpsertRow(h: Group) returns (upserted: bool)
      requires Valid()
      modifies this
      ensures Valid() && nextId >= old(nextId)
      ensures View() == PutSite(old(View()), h)
      ensures forall i :: i in old(rows) ==> i in rows && rows[i].name == old(rows)[i].name
      ensures upserted <==> !(h.name in old(View()) && old(View())[h.name].source.Local?)
    {
      if h.name !in index {
        var inserted := Insert(h.name, Entry(h.content, Site, h.version));
        return true;
      }
      var id := index[h.name];
      assert View()[h.name] == rows[id].entry;
      if rows[id].entry.source.Local? {
        return false;
      }
      Update(id, Row(h.name, Entry(h.content, Site, Triggered(rows[id].entry.version, h.version))));
      upserted := true;
    }

    /** SELECT … WHERE source = 'site', keeping the rows whose names are not live. */
    method StaleRows(live: set<string>) returns (stale: set<nat>)
      ensures stale == Stale(rows, live)
    {
      stale := {};
      var todo := rows.Keys;
      while todo != {}
        invariant todo <= rows.Keys
        invariant stale == Stale(rows, live) - todo
        decreases |todo|
      {
        var id :| id in todo;
        if rows[id].entry.source.Site? && rows[id].name !in live {
          stale := stale + {id};
        }
        todo := todo - {id};
      }
    }

    method DeleteStale(id: nat, live: set<string>)
      requires Valid() && id in Stale(rows, live)
      modifies this
      ensures Valid() && nextId == old(nextId)
      ensures Stale(rows, live) == old(Stale(rows, live)) - {id}
      ensures ReconcileView(View(), live) == ReconcileView(old(View()), live)
    {
      assert View()[rows[id].name] == rows[id].entry;
      ReconcileAfterDrop(View(), rows[id].name, live);
      Delete(id);
    }

    /** Removes the site rows whose names are not live. */
    method ReconcileSiteGroups(live: set<string>) returns (removed: nat)
      requires Valid()
      modifies this
      ensures Valid() && nextId == old(nextId)
      ensures View() == ReconcileView(old(View()), live)
      ensures removed == |Stale(old(rows), live)|
    {
      var stale := StaleRows(live);
      removed := 0;
      while stale != {}
        invariant Valid() && nextId == old(nextId)
        invariant stale == Stale(rows, live)
        invariant ReconcileView(View(), live) == ReconcileView(old(View()), live)
        invariant removed == |Stale(old(rows), live)| - |stale|
        decreases |stale|
      {
        var id :| id in stale;
        DeleteStale(id, live);
        stale := stale - {id};
        removed := removed + 1;
      }
      assert forall n :: n in index ==> index[n] !in Stale(rows, live);
    }
  }

  ghost function Stale(rows: map<nat, Row>, live: set<string>): set<nat> {
    set i | i in rows && rows[i].entry.source.Site? && rows[i].name !in live
  }

  lemma ReconcileAfterDrop(v: View, n: string, live: set<string>)
    requires n in v && v[n].source.Site? && n !in live
    ensures ReconcileView(v - {n}, live) == ReconcileView(v, live)
  {
  }
}
