/**
 The durable `task_queue` table and the SQL statements of the task store that
 read and write it.  A table maps a task id to its row; every statement or
 committed transaction is one function from tables to tables.  Times are
 integers (nanoseconds): the stored timestamps have a fixed width and zone, so
 comparing them as text compares the instants.
 */
module TaskTable {
  import opened Text
  import opened Wrappers

  datatype Status = Queued | Running | Completed | Failed | Dead | Canceled | Other(text: string)

  type TaskId = string
  type WorkerId = string
  type Time = int

  const DEFAULT_LEASE: int := 120_000_000_000
  const DEFAULT_RETRY_BASE: int := 5_000_000_000
  const DEFAULT_MAX_ATTEMPTS: int := 3

  datatype Row = Row(
    kind: string, priority: int, status: Status, attempts: nat, maxAttempts: int,
    availableAt: Time, leaseUntil: Option<Time>, worker: Option<WorkerId>, lastError: string,
    createdAt: Time, updatedAt: Time, startedAt: Option<Time>, endedAt: Option<Time>)

  type Table = map<TaskId, Row>

  /** What a caller of EnqueueTask fills in; `None` stands for an empty field. */
  datatype NewTask = NewTask(
    id: TaskId, kind: string, priority: int, status: Option<Status>, maxAttempts: int,
    availableAt: Option<Time>)

  datatype Failure = TypeRequired | WorkerRequired | QueueFull | DuplicateId | NoRows | NotLeased

  // ---------------------------------------------------------------- rows

  predicate Live(row: Row) {
    row.status.Queued? || row.status.Running?
  }

  /** Worker `w` holds the lease on `id`: the guard of every conditional UPDATE. */
  predicate HeldBy(t: Table, id: TaskId, w: WorkerId) {
    id in t && t[id].status.Running? && t[id].worker == Some(w)
  }

  /** `lease_until < now`; a NULL lease never compares. */
  predicate Expired(row: Row, now: Time) {
    row.status.Running? && row.leaseUntil.Some? && row.leaseUntil.value < now
  }

  predicate Due(row: Row, now: Time) {
    row.status.Queued? && row.availableAt <= now
  }

  function Positive(x: int, default: int): int {
    if x <= 0 then default else x
  }

  // ------------------------------------------------------------ enqueueing

  function PendingIds(t: Table): set<TaskId> {
    set id | id in t && Live(t[id])
  }

  function FreshRow(task: NewTask, now: Time): Row {
    Row(task.kind, task.priority,
        if task.status.None? then Queued else task.status.value,
        0, Positive(task.maxAttempts, DEFAULT_MAX_ATTEMPTS),
        if task.availableAt.None? then now else task.availableAt.value,
        None, None, "", now, now, None, None)
  }

  /** The reason EnqueueTask refuses, or `None`.  Checks run in source order. */
  function EnqueueRefusal(t: Table, id: TaskId, task: NewTask, maxPending: int): Option<Failure> {
    if task.kind == "" then Some(TypeRequired)
    else if maxPending > 0 && |PendingIds(t)| >= maxPending then Some(QueueFull)
    else if id in t then Some(DuplicateId)
    else None
  }

  // --------------------------------------------------------------- leasing

  function Reclaim(row: Row, now: Time): Row {
    var spent := row.attempts >= row.maxAttempts;
    row.(status := if spent then Dead else Queued,
         availableAt := now, leaseUntil := None, worker := None,
         lastError := if row.lastError == "" then "worker lease expired" else row.lastError,
         endedAt := if spent then Some(now) else row.endedAt,
         updatedAt := now)
  }

  function RequeueExpired(t: Table, now: Time): (r: Table)
    ensures r.Keys == t.Keys
  {
    map id | id in t :: if Expired(t[id], now) then Reclaim(t[id], now) else t[id]
  }

  function Claim(row: Row, w: WorkerId, until: Time, now: Time): Row {
    row.(status := Running, attempts := row.attempts + 1, leaseUntil := Some(until),
         worker := Some(w), lastError := "",
         startedAt := if row.startedAt.None? then Some(now) else row.startedAt,
         updatedAt := now)
  }

  /** `ORDER BY priority DESC, created_at, id`. */
  predicate Precedes(t: Table, a: TaskId, b: TaskId)
    requires a in t && b in t
  {
    var x, y := t[a], t[b];
    if x.priority != y.priority then x.priority > y.priority
    else if x.createdAt != y.createdAt then x.createdAt < y.createdAt
    else TextLess(a, b)
  }

  /** What the caller can see before the call: a row this lease could take. */
  predicate Leasable(row: Row, now: Time) {
    Due(row, now) || (Expired(row, now) && row.attempts < row.maxAttempts)
  }

  /** `id` is the first leasable row in the queue's order. */
  ghost predicate IsBest(t: Table, now: Time, id: TaskId) {
    && id in t && Leasable(t[id], now)
    && forall other :: other in t && Leasable(t[other], now) && other != id ==> Precedes(t, id, other)
  }

  ghost predicate NothingToLease(t: Table, now: Time) {
    && (forall id :: id in t && t[id].status.Queued? ==> t[id].availableAt > now)
    && (forall id :: id in t && Expired(t[id], now) ==> t[id].attempts >= t[id].maxAttempts)
  }

  /** The committed table of a lease that takes `id`. */
  function AfterLease(t: Table, id: TaskId, w: WorkerId, now: Time, until: Time): Table
    requires id in t
  {
    var requeued := RequeueExpired(t, now);
    requeued[id := Claim(requeued[id], w, until, now)]
  }

  // ----------------------------------------------- renewing and finishing

  function AfterRenew(t: Table, id: TaskId, w: WorkerId, now: Time, until: Time): Table {
    if HeldBy(t, id, w) then t[id := t[id].(leaseUntil := Some(until), updatedAt := now)] else t
  }

  function AfterFinish(t: Table, id: TaskId, w: WorkerId, status: Status, message: string, now: Time): Table {
    if HeldBy(t, id, w) then
      t[id := t[id].(status := status, leaseUntil := None, worker := None, lastError := message,
                     updatedAt := now, endedAt := Some(now))]
    else t
  }

  function Pow2(n: nat): (p: nat)
    ensures p >= 1
  {
    if n == 0 then 1 else 2 * Pow2(n - 1)
  }

  /** The n-th doubling of the retry base. */
  function Backoff(n: nat, base: nat): nat {
    if n == 0 then base else 2 * Backoff(n - 1, base)
  }

  lemma {:induction false} BackoffClosedForm(n: nat, base: nat)
    ensures Backoff(n, base) == Pow2(n) * base
  {
    if n > 0 {
      BackoffClosedForm(n - 1, base);
      assert Pow2(n) * base == 2 * (Pow2(n - 1) * base);
    }
  }

  /** `time.Duration(math.Pow(2, attempts-1)) * base`: a negative exponent truncates to zero. */
  function RetryDelay(attempts: nat, base: int): int {
    if attempts == 0 then 0 else Backoff(attempts - 1, Positive(base, DEFAULT_RETRY_BASE))
  }

  /** FailTask's conditional write, deciding on the row `seen` by its earlier read. */
  function AfterFail(t: Table, id: TaskId, w: WorkerId, seen: Row, message: string, base: int, now: Time): Table {
    if seen.attempts >= seen.maxAttempts then AfterFinish(t, id, w, Dead, message, now)
    else if HeldBy(t, id, w) then
      t[id := t[id].(status := Queued, availableAt := now + RetryDelay(seen.attempts, base),
                     leaseUntil := None, worker := None, lastError := message, updatedAt := now)]
    else t
  }

  function AfterCancel(t: Table, id: TaskId, now: Time): Table {
    if id in t && Live(t[id]) then
      t[id := t[id].(status := Canceled, leaseUntil := None, worker := None,
                     updatedAt := now, endedAt := Some(now))]
    else t
  }

  predicate Purgeable(row: Row, cutoff: Time) {
    (row.status.Completed? || row.status.Dead? || row.status.Canceled?) && row.updatedAt < cutoff
  }

  /** History pruning deletes old finished rows. */
  function AfterPurge(t: Table, cutoff: Time): Table {
    map id | id in t && !Purgeable(t[id], cutoff) :: t[id]
  }

  /** A purge is invisible to the queue: it changes neither what waits or runs nor what a lease takes. */
  lemma PurgeInvisibleToQueue(t: Table, cutoff: Time, now: Time, id: TaskId)
    ensures PendingIds(AfterPurge(t, cutoff)) == PendingIds(t)
    ensures NothingToLease(AfterPurge(t, cutoff), now) <==> NothingToLease(t, now)
    ensures IsBest(AfterPurge(t, cutoff), now, id) <==> IsBest(t, now, id)
  {
    var u := AfterPurge(t, cutoff);
    forall k | k in t && (Live(t[k]) || Leasable(t[k], now) || Expired(t[k], now)) ensures k in u && u[k] == t[k] {
    }
    if IsBest(u, now, id) {
      forall other | other in t && Leasable(t[other], now) && other != id ensures Precedes(t, id, other) {
        assert other in u && Precedes(u, id, other);
      }
    }
    if IsBest(t, now, id) {
      forall other | other in u && Leasable(u[other], now) && other != id ensures Precedes(u, id, other) {
        assert Precedes(t, id, other);
      }
    }
  }

  // ------------------------------------------------ the order is total

  lemma PrecedesTotal(t: Table, a: TaskId, b: TaskId)
    requires a in t && b in t && a != b
    ensures Precedes(t, a, b) != Precedes(t, b, a)
  {
    TextLessTotal(a, b);
  }

  lemma PrecedesTransitive(t: Table, a: TaskId, b: TaskId, c: TaskId)
    requires a in t && b in t && c in t
    requires Precedes(t, a, b) && Precedes(t, b, c)
    ensures Precedes(t, a, c)
  {
    if TextLess(a, b) && TextLess(b, c) {
      TextLessTransitive(a, b, c);
    }
  }

  /** A non-empty set of rows has a first row. */
  lemma {:induction false} FirstExists(t: Table, ids: set<TaskId>) returns (first: TaskId)
    requires ids != {} && ids <= t.Keys
    ensures first in ids
    ensures forall other :: other in ids && other != first ==> Precedes(t, first, other)
    decreases ids
  {
    first :| first in ids;
    var rest := ids - {first};
    assert forall other :: other in ids && other != first ==> other in rest;
    if rest != {} {
      var best := FirstExists(t, rest);
      PrecedesTotal(t, first, best);
      if Precedes(t, best, first) {
        first := best;
      } else {
        forall other | other in rest && other != best ensures Precedes(t, first, other) {
          PrecedesTransitive(t, first, best, other);
        }
      }
    }
  }

  /** The queue's order names at most one best row. */
  lemma BestUnique(t: Table, now: Time, a: TaskId, b: TaskId)
    requires IsBest(t, now, a) && IsBest(t, now, b)
    ensures a == b
  {
    if a != b {
      PrecedesTotal(t, a, b);
    }
  }

  /** After the reclaim, the due rows are exactly the rows that were leasable before it. */
  lemma ReclaimMakesDue(t: Table, now: Time, id: TaskId)
    requires id in t
    ensures Due(RequeueExpired(t, now)[id], now) <==> Leasable(t[id], now)
  {
  }

  lemma NoneDue(t: Table, now: Time, due: set<TaskId>)
    requires due == (set id | id in t && Due(RequeueExpired(t, now)[id], now))
    ensures due == {} <==> NothingToLease(t, now)
  {
    forall id | id in t ensures id in due <==> Leasable(t[id], now) {
      ReclaimMakesDue(t, now, id);
    }
    if due == {} {
      forall id | id in t ensures !Leasable(t[id], now) {
        assert id !in due;
      }
    }
  }

  lemma FirstDueIsBest(t: Table, now: Time, due: set<TaskId>, id: TaskId)
    requires due == (set k | k in t && Due(RequeueExpired(t, now)[k], now)) && id in due
    requires forall other :: other in due && other != id ==> Precedes(RequeueExpired(t, now), id, other)
    ensures IsBest(t, now, id) && !NothingToLease(t, now)
  {
    NoneDue(t, now, due);
    ReclaimMakesDue(t, now, id);
    forall other | other in t && Leasable(t[other], now) && other != id ensures Precedes(t, id, other) {
      ReclaimMakesDue(t, now, other);
      assert other in due && Precedes(RequeueExpired(t, now), id, other);
    }
  }

  /** The statement touched no row but this one. */
  predicate OthersKept(t: Table, t': Table, id: TaskId) {
    && (forall k :: k in t && k != id ==> k in t' && t'[k] == t[k])
    && (forall k :: k in t' && k != id ==> k in t)
    && (id in t ==> id in t')
  }

  /** The row gave up worker and lease, and kept its identity and its attempts. */
  predicate Released(was: Row, row: Row, now: Time) {
    && row.worker == None && row.leaseUntil == None && row.updatedAt == now && row.startedAt == was.startedAt
    && row.attempts == was.attempts && row.maxAttempts == was.maxAttempts
    && row.kind == was.kind && row.priority == was.priority && row.createdAt == was.createdAt
  }

  /** `b` is no more urgent than `a`: lower priority, or as urgent and created later, or at once with a later id. */
  predicate ComesLater(a: Row, x: TaskId, b: Row, y: TaskId) {
    || a.priority > b.priority
    || (a.priority == b.priority && a.createdAt < b.createdAt)
    || (a.priority == b.priority && a.createdAt == b.createdAt && TextLess(x, y))
  }

  /** The row now runs under `w` until `until`, one attempt further. */
  predicate Leased(was: Row, row: Row, w: WorkerId, now: Time, until: Time) {
    && row.status.Running? && row.worker == Some(w) && row.leaseUntil == Some(until) && row.lastError == ""
    && row.updatedAt == now && row.startedAt == Some(if was.startedAt.Some? then was.startedAt.value else now)
    && row.attempts == was.attempts + 1 && row.maxAttempts == was.maxAttempts
    && row.kind == was.kind && row.priority == was.priority && row.createdAt == was.createdAt
  }

  /** What a lease does to the row it takes, which row that is, and what becomes of the others. */
  lemma LeaseMeans(t: Table, now: Time, id: TaskId, w: WorkerId, until: Time)
    requires IsBest(t, now, id)
    ensures AfterLease(t, id, w, now, until).Keys == t.Keys
    ensures Leased(t[id], AfterLease(t, id, w, now, until)[id], w, now, until)
    ensures forall k :: k in t && k != id && Leasable(t[k], now) ==> ComesLater(t[id], id, t[k], k)
    ensures forall k :: k in t && k != id ==>
              var row := AfterLease(t, id, w, now, until)[k];
              if t[k].status.Running? && t[k].leaseUntil.Some? && t[k].leaseUntil.value < now
              then
                && Released(t[k], row, now)
                && row.lastError == (if t[k].lastError != "" then t[k].lastError else "worker lease expired")
                && (if t[k].attempts >= t[k].maxAttempts then row.status.Dead? && row.endedAt == Some(now)
                    else row.status.Queued? && row.availableAt == now)
              else row == t[k]
  {
    forall k | k in t && k != id && Leasable(t[k], now) ensures ComesLater(t[id], id, t[k], k) {
      assert Precedes(t, id, k);
    }
  }

  // ------------------------------------------------------------ the store

  /** The task store: one database connection, so every method body is atomic. */
  class TaskStore {
    var rows: Table

    constructor ()
      ensures rows == map[]
    {
      rows := map[];
    }

    /** `freshId` is the random id used when the caller leaves the id empty. */
    method EnqueueTask(task: NewTask, maxPending: int, now: Time, freshId: TaskId)
      returns (r: Result<TaskId, Failure>)
      modifies this
      ensures var id := if task.id == "" then freshId else task.id;
              match EnqueueRefusal(old(rows), id, task, maxPending)
              case Some(why) => r == Err(why) && rows == old(rows)
              case None => r == Ok(id) && rows == old(rows)[id := FreshRow(task, now)]
      ensures r.Ok? ==>
                && task.kind != "" && r.value !in old(rows) && OthersKept(old(rows), rows, r.value)
                && (maxPending > 0 ==> |PendingIds(old(rows))| < maxPending)
                && var row := rows[r.value];
                && row.kind == task.kind && row.priority == task.priority && row.attempts == 0
                && row.maxAttempts == (if task.maxAttempts > 0 then task.maxAttempts else 3)
                && row.worker == None && row.leaseUntil == None && row.createdAt == now
                && (task.status == None ==> row.status.Queued?)
                && (task.status == None && task.availableAt == None ==> Leasable(row, now))
                && (task.availableAt.Some? ==> row.availableAt == task.availableAt.value)
    {
      var id := if task.id == "" then freshId else task.id;
      if task.kind == "" {
        return Err(TypeRequired);
      }
      if maxPending > 0 {
        var pending := |PendingIds(rows)|;
        if pending >= maxPending {
          return Err(QueueFull);
        }
      }
      if id in rows {
        return Err(DuplicateId);
      }
      rows := rows[id := FreshRow(task, now)];
      return Ok(id);
    }

    /**
     Finds no row exactly when no queued row is due and every expired row has used
     up its attempts, and then the transaction is rolled back; otherwise takes the
     best leasable row, reclaiming every expired row on the way.
     */
    method LeaseTask(w: WorkerId, lease: int, now: Time) returns (r: Result<TaskId, Failure>)
      modifies this
      ensures w == "" ==> r == Err(WorkerRequired) && rows == old(rows)
      ensures w != "" && NothingToLease(old(rows), now) ==> r == Err(NoRows) && rows == old(rows)
      ensures w != "" && !NothingToLease(old(rows), now) ==>
                r.Ok? && IsBest(old(rows), now, r.value) &&
                rows == AfterLease(old(rows), r.value, w, now, now + Positive(lease, DEFAULT_LEASE))
      ensures r.Ok? ==> r.value in old(rows) && rows.Keys == old(rows).Keys
      ensures r.Ok? ==>
                Leased(old(rows)[r.value], rows[r.value], w, now, now + (if lease > 0 then lease else 120_000_000_000))
      ensures r.Ok? ==> forall id :: id in old(rows) && id != r.value && Leasable(old(rows)[id], now) ==>
                          ComesLater(old(rows)[r.value], r.value, old(rows)[id], id)
    {
      if w == "" {
        return Err(WorkerRequired);
      }
      var until := now + Positive(lease, DEFAULT_LEASE);
      var tx := RequeueExpired(rows, now);
      var due := set id | id in tx && Due(tx[id], now);
      if due == {} {
        NoneDue(rows, now, due);
        return Err(NoRows);
      }
      ghost var _ := FirstExists(tx, due);
      var id :| id in due && forall other :: other in due && other != id ==> Precedes(tx, id, other);
      FirstDueIsBest(rows, now, due, id);
      LeaseMeans(rows, now, id, w, until);
      tx := tx[id := Claim(tx[id], w, until, now)];
      rows := tx;
      return Ok(id);
    }

    method RenewTaskLease(id: TaskId, w: WorkerId, lease: int, now: Time) returns (ok: bool)
      modifies this
      ensures ok == HeldBy(old(rows), id, w)
      ensures rows == AfterRenew(old(rows), id, w, now, now + Positive(lease, DEFAULT_LEASE))
      ensures OthersKept(old(rows), rows, id) && (!ok ==> rows == old(rows))
      ensures ok ==> HeldBy(rows, id, w) && rows[id].attempts == old(rows)[id].attempts
                     && rows[id].leaseUntil == Some(now + (if lease > 0 then lease else 120_000_000_000))
    {
      var until := now + Positive(lease, DEFAULT_LEASE);
      ok := HeldBy(rows, id, w);
      if ok {
        rows := rows[id := rows[id].(leaseUntil := Some(until), updatedAt := now)];
      }
    }

    method FinishTask(id: TaskId, w: WorkerId, status: Status, message: string, now: Time)
      returns (r: Result<(), Failure>)
      modifies this
      ensures r == if HeldBy(old(rows), id, w) then Ok(()) else Err(NotLeased)
      ensures rows == AfterFinish(old(rows), id, w, status, message, now)
      ensures OthersKept(old(rows), rows, id) && (r.Err? ==> rows == old(rows))
      ensures r.Ok? ==> Released(old(rows)[id], rows[id], now) && rows[id].status == status
                        && rows[id].lastError == message && rows[id].endedAt == Some(now)
    {
      if !HeldBy(rows, id, w) {
        return Err(NotLeased);
      }
      rows := rows[id := rows[id].(status := status, leaseUntil := None, worker := None, lastError := message,
                                   updatedAt := now, endedAt := Some(now))];
      return Ok(());
    }

    method CompleteTask(id: TaskId, w: WorkerId, now: Time) returns (r: Result<(), Failure>)
      modifies this
      ensures r == if HeldBy(old(rows), id, w) then Ok(()) else Err(NotLeased)
      ensures rows == AfterFinish(old(rows), id, w, Completed, "", now)
      ensures OthersKept(old(rows), rows, id) && (r.Err? ==> rows == old(rows))
      ensures r.Ok? ==> Released(old(rows)[id], rows[id], now) && rows[id].status.Completed?
                        && rows[id].endedAt == Some(now)
    {
      r := FinishTask(id, w, Completed, "", now);
    }

    /** FailTask's first half: GetTask and the lease check, on a NULL worker read as "". */
    method FailRead(id: TaskId, w: WorkerId) returns (r: Result<Row, Failure>)
      ensures id !in rows ==> r == Err(NoRows)
      ensures HeldBy(rows, id, w) ==> r == Ok(rows[id])
      ensures id in rows && w != "" && !HeldBy(rows, id, w) ==> r == Err(NotLeased)
      ensures id in rows && w == "" ==>
                r == if rows[id].status.Running? && (rows[id].worker.None? || rows[id].worker == Some(""))
                     then Ok(rows[id]) else Err(NotLeased)
    {
      if id !in rows {
        return Err(NoRows);
      }
      var task := rows[id];
      var holder := if task.worker.Some? then task.worker.value else "";
      if !task.status.Running? || holder != w {
        return Err(NotLeased);
      }
      return Ok(task);
    }

    /** FailTask's second half; the retry branch ignores how many rows it affected. */
    method FailWrite(id: TaskId, w: WorkerId, seen: Row, message: string, base: int, now: Time)
      returns (r: Result<(), Failure>)
      modifies this
      ensures rows == AfterFail(old(rows), id, w, seen, message, base, now)
      ensures OthersKept(old(rows), rows, id) && (!HeldBy(old(rows), id, w) ==> rows == old(rows))
      ensures HeldBy(old(rows), id, w) ==>
                && Released(old(rows)[id], rows[id], now) && rows[id].lastError == message
                && (if seen.attempts >= seen.maxAttempts then rows[id].status.Dead? && rows[id].endedAt == Some(now)
                    else
                      rows[id].status.Queued?
                      && (seen.attempts >= 1 ==>
                            rows[id].availableAt
                            == now + Pow2(seen.attempts - 1) * (if base > 0 then base else 5_000_000_000)))
      ensures r == if seen.attempts >= seen.maxAttempts && !HeldBy(old(rows), id, w) then Err(NotLeased) else Ok(())
    {
      if seen.attempts >= seen.maxAttempts {
        r := FinishTask(id, w, Dead, message, now);
        return;
      }
      var retryBase := if base <= 0 then DEFAULT_RETRY_BASE else base;
      var delay := if seen.attempts == 0 then 0 else Pow2(seen.attempts - 1) * retryBase;
      if seen.attempts > 0 {
        BackoffClosedForm(seen.attempts - 1, retryBase);
      }
      if HeldBy(rows, id, w) {
        rows := rows[id := rows[id].(status := Queued, availableAt := now + delay,
                                     leaseUntil := None, worker := None, lastError := message, updatedAt := now)];
      }
      return Ok(());
    }

    method CancelTask(id: TaskId, now: Time) returns (r: Result<(), Failure>)
      modifies this
      ensures r == if id in old(rows) && Live(old(rows)[id]) then Ok(()) else Err(NoRows)
      ensures rows == AfterCancel(old(rows), id, now)
      ensures OthersKept(old(rows), rows, id) && (r.Err? ==> rows == old(rows))
      ensures r.Ok? ==> Released(old(rows)[id], rows[id], now) && rows[id].status.Canceled?
                        && rows[id].endedAt == Some(now)
    {
      if id !in rows || !Live(rows[id]) {
        return Err(NoRows);
      }
      rows := rows[id := rows[id].(status := Canceled, leaseUntil := None, worker := None,
                                   updatedAt := now, endedAt := Some(now))];
      return Ok(());
    }

    /** Deletes the old finished rows; a row that is left is the row it was, and a live row is always left. */
    method PurgeFinished(cutoff: Time)
      modifies this
      ensures rows == AfterPurge(old(rows), cutoff)
      ensures forall id :: id in rows ==> id in old(rows) && rows[id] == old(rows)[id]
      ensures forall id :: id in old(rows) ==>
                var row := old(rows)[id];
                id !in rows <==> row.updatedAt < cutoff && row.status in {Completed, Dead, Canceled}
    {
      var todo := rows.Keys;
      while todo != {}
        invariant todo <= old(rows).Keys
        invariant rows == map id | id in old(rows) && (id in todo || !Purgeable(old(rows)[id], cutoff)) :: old(rows)[id]
        decreases todo
      {
        var id :| id in todo;
        if Purgeable(rows[id], cutoff) {
          rows := rows - {id};
        }
        todo := todo - {id};
      }
    }
  }
}
