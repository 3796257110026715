/**
 The offline_jobs table: rows keyed by an AUTOINCREMENT id under UNIQUE(source_path). Each
 operation is a function on the rows; the class performs it in place.
 */
module JobQueue {
  import opened Wrappers

  datatype Status = Queued | Processing | Completed | Failed

  datatype Job = Job(
    path: string, status: Status, createdAt: int,
    startedAt: Option<int>, completedAt: Option<int>,
    error: Option<string>, nzbPath: Option<string>)

  datatype Error = PathTaken | JobNotFound

  type Rows = map<nat, Job>

  datatype Outcome = Success(nzbPath: string) | Failure(error: string)

  // ------------------------------------------------------ the row operations

  function NewJob(path: string, now: int): Job { Job(path, Queued, now, None, None, None, None) }

  function Started(j: Job, now: int): Job { j.(status := Processing, startedAt := Some(now)) }

  function Reset(j: Job): Job {
    j.(status := Queued, startedAt := None, completedAt := None, error := None, nzbPath := None)
  }

  function Requeued(j: Job): Job {
    if j.status.Processing? then j.(status := Queued, startedAt := None) else j
  }

  function Marked(j: Job, o: Outcome, now: int): Job {
    match o
    case Success(nzb) => j.(status := Completed, nzbPath := Some(nzb), completedAt := Some(now))
    case Failure(e) => j.(status := Failed, error := Some(e), completedAt := Some(now))
  }

  /** UPDATE … WHERE id = ?: no effect on an id that is gone. */
  function MarkRow(rows: Rows, id: nat, o: Outcome, now: int): Rows {
    if id in rows then rows[id := Marked(rows[id], o, now)] else rows
  }

  function RequeueRows(rows: Rows): Rows { map i | i in rows :: Requeued(rows[i]) }

  predicate IsQueued(rows: Rows, i: nat) { i in rows && rows[i].status.Queued? }

  predicate IsProcessing(rows: Rows, i: nat) { i in rows && rows[i].status.Processing? }

  /** A row that ORDER BY created_at ASC LIMIT 1 may return. */
  ghost predicate Oldest(rows: Rows, id: nat) {
    IsQueued(rows, id) && forall j :: IsQueued(rows, j) ==> rows[id].createdAt <= rows[j].createdAt
  }

  /** started_at as ORDER BY sees it: NULL sorts below every time. */
  function StartedKey(j: Job): (bool, int) {
    match j.startedAt case Some(t) => (true, t) case None => (false, 0)
  }

  predicate NotLater(a: (bool, int), b: (bool, int)) { !a.0 || (b.0 && a.1 <= b.1) }

  /** A row that ORDER BY started_at DESC LIMIT 1 may return. */
  ghost predicate Newest(rows: Rows, id: nat) {
    IsProcessing(rows, id) &&
    forall j :: IsProcessing(rows, j) ==> NotLater(StartedKey(rows[j]), StartedKey(rows[id]))
  }

  /**
   The second query of a claim can only return the claimed row if and only if every other
   processing row started earlier or has no start time.
   */
  lemma QueryFindsClaimedIff(rows: Rows, id: nat)
    requires IsProcessing(rows, id) && rows[id].startedAt.Some?
    ensures (forall r :: Newest(rows, r) ==> r == id) <==>
            (forall j :: IsProcessing(rows, j) && j != id ==>
               rows[j].startedAt.None? || rows[j].startedAt.value < rows[id].startedAt.value)
  {
    if forall r :: Newest(rows, r) ==> r == id {
      var top := SomeNewest(rows, id);
      forall j | IsProcessing(rows, j) && j != id ensures !NotLater(StartedKey(rows[id]), StartedKey(rows[j])) {
        assert !Newest(rows, j);
      }
    }
  }

  /** Some processing row has the greatest start time. */
  lemma SomeNewest(rows: Rows, id: nat) returns (top: nat)
    requires IsProcessing(rows, id)
    ensures Newest(rows, top)
  {
    top := id;
    var todo := rows.Keys;
    while todo != {}
      invariant todo <= rows.Keys && IsProcessing(rows, top)
      invariant forall j :: IsProcessing(rows, j) && j !in todo ==> NotLater(StartedKey(rows[j]), StartedKey(rows[top]))
      decreases |todo|
    {
      var j :| j in todo;
      if IsProcessing(rows, j) && !NotLater(StartedKey(rows[j]), StartedKey(rows[top])) { top := j; }
      todo := todo - {j};
    }
  }

  // -------------------------------------------------------------- the table

  class JobsTable {
    var rows: Rows
    /** The index behind UNIQUE(source_path). */
    var index: map<string, nat>
    var nextId: nat

    ghost predicate Valid() reads this {
      && 1 <= nextId
      && (forall i :: i in rows ==> 1 <= i < nextId && rows[i].path in index && index[rows[i].path] == i)
      && (forall p :: p in index ==> index[p] in rows && rows[index[p]].path == p)
    }

    constructor ()
      ensures Valid() && rows == map[]
    {
      rows, index, nextId := map[], map[], 1;
    }

    method SourcePathExists(path: string) returns (found: bool)
      requires Valid()
      ensures found <==> exists i :: i in rows && rows[i].path == path
    {
      found := path in index;
      assert found ==> index[path] in rows && rows[index[path]].path == path;
    }

    method CreateOfflineJob(path: string, now: int) returns (r: Result<nat, Error>)
      requires Valid()
      modifies this
      ensures Valid()
      ensures r.Ok? <==> forall i :: i in old(rows) ==> old(rows)[i].path != path
      ensures r.Ok? ==> r.value == old(nextId) && r.value !in old(rows) && nextId == r.value + 1
      ensures r.Ok? ==> rows == old(rows)[r.value := Job(path, Queued, now, None, None, None, None)]
      ensures r.Err? ==> rows == old(rows) && nextId == old(nextId)
    {
      if path in index {
        assert rows[index[path]].path == path;
        return Err(PathTaken);
      }
      r := Ok(nextId);
      rows, index := rows[nextId := NewJob(path, now)], index[path := nextId];
      nextId := nextId + 1;
    }

    /** The claim's first statement: UPDATE the oldest queued row. */
    method ClaimUpdate(now: int) returns (claimed: Option<nat>)
      requires Valid()
      modifies this`rows
      ensures Valid()
      ensures claimed.None? <==> forall i :: !IsQueued(old(rows), i)
      ensures claimed.None? ==> rows == old(rows)
      ensures claimed.Some? ==>
                var id := claimed.value;
                && Oldest(old(rows), id)
                && rows == old(rows)[id := old(rows)[id].(status := Processing, startedAt := Some(now))]
    {
      claimed := None;
      var todo := rows.Keys;
      while todo != {}
        invariant todo <= rows.Keys && rows == old(rows)
        invariant claimed.None? ==> forall j :: IsQueued(rows, j) ==> j in todo
        invariant claimed.Some? ==> IsQueued(rows, claimed.value)
        invariant claimed.Some? ==>
                    forall j :: IsQueued(rows, j) && j !in todo ==> rows[claimed.value].createdAt <= rows[j].createdAt
        decreases |todo|
      {
        var j :| j in todo;
        if rows[j].status.Queued? && (claimed.None? || rows[j].createdAt < rows[claimed.value].createdAt) {
          claimed := Some(j);
        }
        todo := todo - {j};
      }
      if claimed.Some? {
        rows := rows[claimed.value := Started(rows[claimed.value], now)];
      }
    }

    /** The claim's second statement: the processing row with the latest start. */
    method NewestProcessing() returns (r: Option<nat>)
      ensures r.None? <==> forall i :: !IsProcessing(rows, i)
      ensures r.Some? ==> Newest(rows, r.value)
    {
      r := None;
      var todo := rows.Keys;
      while todo != {}
        invariant todo <= rows.Keys
        invariant r.None? ==> forall j :: IsProcessing(rows, j) ==> j in todo
        invariant r.Some? ==> IsProcessing(rows, r.value)
        invariant r.Some? ==>
                    forall j :: IsProcessing(rows, j) && j !in todo ==>
                      NotLater(StartedKey(rows[j]), StartedKey(rows[r.value]))
        decreases |todo|
      {
        var j :| j in todo;
        if rows[j].status.Processing? && (r.None? || !NotLater(StartedKey(rows[j]), StartedKey(rows[r.value]))) {
          r := Some(j);
        }
        todo := todo - {j};
      }
    }

    /** The whole claim with nothing in between; with no other row processing it returns the oldest queued row. */
    method ClaimNextJob(now: int) returns (r: Option<nat>)
      requires Valid()
      modifies this`rows
      ensures Valid()
      ensures r.None? <==> forall i :: !IsQueued(old(rows), i)
      ensures r.None? ==> rows == old(rows)
      ensures r.Some? ==> Newest(rows, r.value)
      ensures r.Some? && (forall i :: !IsProcessing(old(rows), i)) ==>
                && Oldest(old(rows), r.value)
                && rows == old(rows)[r.value := old(rows)[r.value].(status := Processing, startedAt := Some(now))]
    {
      var claimed := ClaimUpdate(now);
      if claimed.None? {
        return None;
      }
      assert IsProcessing(rows, claimed.value);
      r := NewestProcessing();
      assert IsProcessing(rows, r.value);
      assert r.value != claimed.value ==> IsProcessing(old(rows), r.value);
    }

    /** MarkJobCompleted and MarkJobFailed. */
    method MarkJob(id: nat, o: Outcome, now: int)
      requires Valid()
      modifies this`rows
      ensures Valid() && rows == MarkRow(old(rows), id, o, now)
      ensures rows.Keys == old(rows.Keys) && forall i :: i in rows && i != id ==> rows[i] == old(rows)[i]
      ensures id in rows ==>
                rows[id] == match o
                            case Success(nzb) =>
                              old(rows)[id].(status := Completed, nzbPath := Some(nzb), completedAt := Some(now))
                            case Failure(e) =>
                              old(rows)[id].(status := Failed, error := Some(e), completedAt := Some(now))
    {
      if id in rows {
        rows := rows[id := Marked(rows[id], o, now)];
      }
    }

    method ResetQueuedJob(id: nat) returns (r: Result<(), Error>)
      requires Valid()
      modifies this`rows
      ensures Valid()
      ensures r.Ok? <==> id in old(rows)
      ensures r.Err? ==> rows == old(rows)
      ensures r.Ok? ==>
                rows == old(rows)[id := old(rows)[id].(status := Queued, startedAt := None, completedAt := None,
                                                       error := None, nzbPath := None)]
    {
      if id !in rows {
        return Err(JobNotFound);
      }
      rows := rows[id := Reset(rows[id])];
      r := Ok(());
    }

    /** At boot: every processing row is queued again. */
    method RequeueStuckJobs()
      requires Valid()
      modifies this`rows
      ensures Valid() && rows == RequeueRows(old(rows)) && rows.Keys == old(rows.Keys)
      ensures forall i :: i in rows ==>
                rows[i] == if IsProcessing(old(rows), i) then old(rows)[i].(status := Queued, startedAt := None)
                           else old(rows)[i]
      ensures forall i :: !IsProcessing(rows, i)
    {
      rows := map i | i in rows :: Requeued(rows[i]);
    }

    method DeleteJob(id: nat) returns (r: Result<(), Error>)
      requires Valid()
      modifies this`rows, this`index
      ensures Valid()
      ensures r.Ok? <==> id in old(rows)
      ensures rows == old(rows) - {id}
    {
      if id !in rows {
        assert rows == rows - {id};
        return Err(JobNotFound);
      }
      index := index - {rows[id].path};
      rows := rows - {id};
      r := Ok(());
    }
  }
}
