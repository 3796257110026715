/** One scan of a watch folder: which directory entries become jobs. */
module Watcher {
  import opened Wrappers
  import opened JobQueue

  /** A directory entry; `age` is the nanoseconds since its last change, None when it cannot be read. */
  datatype DirEntry = DirEntry(name: string, age: Option<int>)

  const QUIET_PERIOD := 30_000_000_000

  predicate HasPrefix(s: string, p: string) { |p| <= |s| && s[..|p|] == p }

  predicate HasSuffix(s: string, p: string) { |p| <= |s| && s[|s| - |p|..] == p }

  /** Hidden or half-written, by its name. */
  predicate Staging(name: string) {
    HasPrefix(name, ".") || HasSuffix(name, ".part") || HasSuffix(name, ".tmp")
  }

  predicate Eligible(e: DirEntry) {
    !Staging(e.name) && e.age.Some? && e.age.value >= QUIET_PERIOD
  }

  lemma PrefixIff(s: string, p: string)
    ensures HasPrefix(s, p) <==> exists x: string :: s == p + x
  {
    if HasPrefix(s, p) { assert s == p + s[|p|..]; }
  }

  lemma SuffixIff(s: string, p: string)
    ensures HasSuffix(s, p) <==> exists x: string :: s == x + p
  {
    if HasSuffix(s, p) { assert s == s[..|s| - |p|] + p; }
  }

  /** Not hidden, not called *.part or *.tmp, and unchanged for half a minute. */
  lemma EligibleIff(e: DirEntry)
    ensures Eligible(e) <==>
            && (forall x: string :: e.name != "." + x && e.name != x + ".part" && e.name != x + ".tmp")
            && e.age.Some? && e.age.value >= 30_000_000_000
  {
    var n := e.name;
    PrefixIff(n, ".");
    SuffixIff(n, ".part");
    SuffixIff(n, ".tmp");
  }

  ghost function Paths(rows: Rows): set<string> { set i | i in rows :: rows[i].path }

  ghost function Wanted(entries: seq<DirEntry>, join: string -> string): set<string> {
    set e | e in entries && Eligible(e) :: join(e.name)
  }

  /** Old rows stay as they are; every other row is a fresh queued job. */
  ghost predicate Extends(before: Rows, after: Rows) {
    && (forall i :: i in before ==> i in after && after[i] == before[i])
    && (forall i :: i in after && i !in before ==>
          exists t :: after[i] == NewJob(after[i].path, t) == Job(after[i].path, Queued, t, None, None, None, None))
  }

  /** Queues a path unless it has a row. */
  method Offer(table: JobsTable, path: string, now: int)
    requires table.Valid()
    modifies table
    ensures table.Valid()
    ensures Extends(old(table.rows), table.rows)
    ensures Paths(table.rows) == Paths(old(table.rows)) + {path}
    ensures path in Paths(old(table.rows)) ==> table.rows == old(table.rows)
  {
    var known := table.SourcePathExists(path);
    if known {
      return;
    }
    ghost var before := table.rows;
    var created := table.CreateOfflineJob(path, now);
    assert table.rows[created.value] == NewJob(path, now);
  }

  /** Afterwards the table holds a job for each eligible path and for those it held before, one each. */
  method ScanOneWatch(table: JobsTable, entries: seq<DirEntry>, join: string -> string, clock: nat -> int)
    requires table.Valid()
    modifies table
    ensures table.Valid()
    ensures Extends(old(table.rows), table.rows)
    ensures Paths(table.rows) == Paths(old(table.rows)) + Wanted(entries, join)
    ensures Wanted(entries, join) <= Paths(old(table.rows)) ==> table.rows == old(table.rows)
  {
    for k := 0 to |entries|
      invariant table.Valid() && Extends(old(table.rows), table.rows)
      invariant Paths(table.rows) == Paths(old(table.rows)) + Wanted(entries[..k], join)
      invariant Wanted(entries, join) <= Paths(old(table.rows)) ==> table.rows == old(table.rows)
    {
      var e := entries[k];
      WantedNext(entries, k, join);
      if Staging(e.name) {
        continue;
      }
      if e.age.None? || e.age.value < QUIET_PERIOD {
        continue;
      }
      ghost var before := table.rows;
      Offer(table, join(e.name), clock(k));
    }
    assert entries[..|entries|] == entries;
  }

  lemma WantedNext(entries: seq<DirEntry>, k: nat, join: string -> string)
    requires k < |entries|
    ensures Wanted(entries[..k + 1], join) ==
            Wanted(entries[..k], join) + if Eligible(entries[k]) then {join(entries[k].name)} else {}
    ensures Wanted(entries[..k + 1], join) <= Wanted(entries, join)
  {
  }
}
