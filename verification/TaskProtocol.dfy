/**
 The lease protocol: any number of worker loops sharing one task table.

 A state is the table together with the phase of every worker loop.  A loop owns
 its worker id and runs one task at a time: it leases, executes (with heartbeats),
 then completes or fails.  FailTask is two steps, a read and a later conditional
 write, and any other step may come between them.  Every database call may also
 fail: it then either did nothing, or committed without the caller learning of it.
 */
module TaskProtocol {
  import opened TaskTable
  import opened Wrappers

  datatype Phase =
    | Idle
    | Executing(id: TaskId, attempt: nat)
    | Failing(id: TaskId, attempt: nat, seen: Row)

  datatype State = State(rows: Table, phases: map<WorkerId, Phase>)

  const START := State(map[], map[])

  /** `got`: the row a lease committed, `delivered`: whether the worker learnt of it;
      `applied`: whether the statement reached the database. */
  datatype Event =
    | Enqueue(id: TaskId, task: NewTask, maxPending: int, now: Time)
    | Lease(w: WorkerId, now: Time, lease: int, got: Option<TaskId>, delivered: bool)
    | Renew(w: WorkerId, now: Time, lease: int, applied: bool)
    | Complete(w: WorkerId, now: Time, applied: bool)
    | ReadForFail(w: WorkerId, answered: bool)
    | WriteFail(w: WorkerId, now: Time, message: string, base: int, applied: bool)
    | Cancel(id: TaskId, now: Time)
    | Purge(cutoff: Time)
    | Crash(w: WorkerId)

  function PhaseOf(s: State, w: WorkerId): Phase {
    if w in s.phases then s.phases[w] else Idle
  }

  ghost predicate Enabled(s: State, e: Event) {
    match e
    case Lease(w, now, _, got, _) =>
      w != "" && PhaseOf(s, w).Idle? && (got.Some? ==> IsBest(s.rows, now, got.value))
    case Renew(w, _, _, _) => PhaseOf(s, w).Executing?
    case Complete(w, _, _) => PhaseOf(s, w).Executing?
    case ReadForFail(w, _) => PhaseOf(s, w).Executing?
    case WriteFail(w, _, _, _, _) => PhaseOf(s, w).Failing?
    case _ => true
  }

  ghost function NewRows(s: State, e: Event): Table
    requires Enabled(s, e)
  {
    match e
    case Enqueue(id, task, maxPending, now) =>
      if EnqueueRefusal(s.rows, id, task, maxPending).None? then s.rows[id := FreshRow(task, now)] else s.rows
    case Lease(w, now, lease, got, _) =>
      if got.None? then s.rows
      else AfterLease(s.rows, got.value, w, now, now + Positive(lease, DEFAULT_LEASE))
    case Renew(w, now, lease, applied) =>
      if applied then AfterRenew(s.rows, PhaseOf(s, w).id, w, now, now + Positive(lease, DEFAULT_LEASE)) else s.rows
    case Complete(w, now, applied) =>
      if applied then AfterFinish(s.rows, PhaseOf(s, w).id, w, Completed, "", now) else s.rows
    case WriteFail(w, now, message, base, applied) =>
      if applied then AfterFail(s.rows, PhaseOf(s, w).id, w, PhaseOf(s, w).seen, message, base, now) else s.rows
    case Cancel(id, now) => AfterCancel(s.rows, id, now)
    case Purge(cutoff) => AfterPurge(s.rows, cutoff)
    case _ => s.rows
  }

  ghost function NewPhases(s: State, e: Event): map<WorkerId, Phase>
    requires Enabled(s, e)
  {
    match e
    case Lease(w, _, _, got, delivered) =>
      if got.Some? && delivered
      then s.phases[w := Executing(got.value, NewRows(s, e)[got.value].attempts)] else s.phases
    case Complete(w, _, _) => s.phases[w := Idle]
    case ReadForFail(w, answered) =>
      var p := PhaseOf(s, w);
      s.phases[w := if answered && HeldBy(s.rows, p.id, w) then Failing(p.id, p.attempt, s.rows[p.id]) else Idle]
    case WriteFail(w, _, _, _, _) => s.phases[w := Idle]
    case Crash(w) => s.phases[w := Idle]
    case _ => s.phases
  }

  ghost function Step(s: State, e: Event): State
    requires Enabled(s, e)
  {
    State(NewRows(s, e), NewPhases(s, e))
  }

  /** A run: every event is enabled where it happens. */
  ghost predicate Legal(s: State, run: seq<Event>)
    decreases |run|
  {
    run == [] || (Enabled(s, run[0]) && Legal(Step(s, run[0]), run[1..]))
  }

  ghost function After(s: State, run: seq<Event>): State
    requires Legal(s, run)
    decreases |run|
  {
    if run == [] then s else After(Step(s, run[0]), run[1..])
  }

  /** No caller hands EnqueueTask a status of `running`; see `EnqueueKeepsRowsOk`. */
  predicate Honest(e: Event) {
    e.Enqueue? ==> e.task.status != Some(Running)
  }

  predicate AllHonest(run: seq<Event>) {
    forall e :: e in run ==> Honest(e)
  }

  /** A worker is busy from the lease it learns of until it completes, fails or crashes. */
  lemma PhasesMean(s: State, e: Event, w: WorkerId)
    requires Enabled(s, e)
    ensures var p, p' := PhaseOf(s, w), PhaseOf(Step(s, e), w);
            && (e.Lease? && e.w == w && e.got.Some? && e.delivered ==> p'.Executing? && p'.id == e.got.value)
            && ((e.Complete? || e.WriteFail? || e.Crash?) && e.w == w ==> p'.Idle?)
            && (e.ReadForFail? && e.w == w && e.answered && HeldBy(s.rows, p.id, w) ==>
                  p'.Failing? && p'.id == p.id && p'.attempt == p.attempt && p'.seen == s.rows[p.id])
            && (e.ReadForFail? && e.w == w && !(e.answered && HeldBy(s.rows, p.id, w)) ==> p'.Idle?)
            && (e.Enqueue? || e.Cancel? || e.Purge? || e.Renew? ==> p' == p)
            && ((e.Lease? || e.Complete? || e.WriteFail? || e.ReadForFail? || e.Crash?) && e.w != w ==> p' == p)
  {
  }

  // ------------------------------------------------------- the invariant

  ghost predicate RowOk(row: Row) {
    && 1 <= row.maxAttempts && row.attempts <= row.maxAttempts
    && (row.status.Queued? ==> row.attempts < row.maxAttempts)
    && (row.status.Running? ==> row.attempts >= 1)
    && row.status.Running? == row.worker.Some? == row.leaseUntil.Some?
  }

  ghost predicate RowsOk(t: Table) {
    forall id :: id in t ==> RowOk(t[id])
  }

  /** A row enqueued as running: no worker, no lease, so nobody completes, fails, reclaims or leases it. */
  ghost predicate Stray(row: Row) {
    row.status.Running? && row.worker.None? && row.leaseUntil.None? && row.attempts == 0 && row.maxAttempts >= 1
  }

  ghost predicate RowSound(row: Row) {
    RowOk(row) || Stray(row)
  }

  ghost predicate RowsSound(t: Table) {
    forall id :: id in t ==> RowSound(t[id])
  }

  /** Worker `w` holds, if anything, the very attempt it is executing. */
  ghost predicate Fenced(s: State, w: WorkerId) {
    match PhaseOf(s, w)
    case Idle => true
    case Executing(id, k) => HeldBy(s.rows, id, w) ==> s.rows[id].attempts == k
    case Failing(id, k, seen) =>
      && seen.attempts == k
      && (HeldBy(s.rows, id, w) ==> s.rows[id].attempts == k && s.rows[id].maxAttempts == seen.maxAttempts)
  }

  ghost predicate AllFenced(s: State) {
    forall w :: Fenced(s, w)
  }

  /** What every step keeps, whatever callers enqueue. */
  ghost predicate Inv(s: State) {
    RowsSound(s.rows) && AllFenced(s)
  }

  /** Only `w`'s own lease gives `w` a row: no other step moves a row under a busy worker. */
  lemma NoTakeover(s: State, e: Event, w: WorkerId, id: TaskId)
    requires Enabled(s, e)
    requires e.Lease? ==> e.w != w
    requires HeldBy(NewRows(s, e), id, w)
    ensures HeldBy(s.rows, id, w)
    ensures NewRows(s, e)[id].attempts == s.rows[id].attempts
    ensures NewRows(s, e)[id].maxAttempts == s.rows[id].maxAttempts
  {
  }

  lemma FencedStep(s: State, e: Event, w: WorkerId)
    requires Fenced(s, w) && Enabled(s, e)
    ensures Fenced(Step(s, e), w)
  {
    var p := PhaseOf(Step(s, e), w);
    if !p.Idle? && !(e.Lease? && e.w == w) && HeldBy(NewRows(s, e), p.id, w) {
      NoTakeover(s, e, w, p.id);
    }
  }

  lemma RowsSoundStep(s: State, e: Event)
    requires Inv(s) && Enabled(s, e)
    ensures RowsSound(NewRows(s, e))
  {
    if e.WriteFail? {
      assert Fenced(s, e.w);
    }
  }

  lemma RowsOkStep(s: State, e: Event)
    requires RowsOk(s.rows) && AllFenced(s) && Enabled(s, e) && Honest(e)
    ensures RowsOk(NewRows(s, e))
  {
    if e.WriteFail? {
      assert Fenced(s, e.w);
    }
  }

  lemma {:induction false} FencedRun(s: State, run: seq<Event>)
    requires AllFenced(s) && Legal(s, run)
    ensures AllFenced(After(s, run))
    decreases |run|
  {
    if run != [] {
      forall w ensures Fenced(Step(s, run[0]), w) { FencedStep(s, run[0], w); }
      FencedRun(Step(s, run[0]), run[1..]);
    }
  }

  lemma InvStep(s: State, e: Event)
    requires Inv(s) && Enabled(s, e)
    ensures Inv(Step(s, e))
  {
    RowsSoundStep(s, e);
    forall w ensures Fenced(Step(s, e), w) { FencedStep(s, e, w); }
  }

  lemma {:induction false} InvariantHolds(s: State, run: seq<Event>)
    requires Inv(s) && Legal(s, run)
    ensures Inv(After(s, run))
    decreases |run|
  {
    if run != [] {
      InvStep(s, run[0]);
      InvariantHolds(Step(s, run[0]), run[1..]);
    }
  }

  lemma {:induction false} RowsOkHold(s: State, run: seq<Event>)
    requires RowsOk(s.rows) && AllFenced(s) && Legal(s, run) && AllHonest(run)
    ensures RowsOk(After(s, run).rows)
    decreases |run|
  {
    if run != [] {
      assert run[0] in run;
      RowsOkStep(s, run[0]);
      forall w ensures Fenced(Step(s, run[0]), w) { FencedStep(s, run[0], w); }
      RowsOkHold(Step(s, run[0]), run[1..]);
    }
  }

  // ------------------------------------------------------------- theorems

  /** In every reachable state the rows respect their budget and worker and lease mark running rows. */
  lemma ReachableRowsOk(run: seq<Event>)
    requires Legal(START, run) && AllHonest(run)
    ensures RowsOk(After(START, run).rows)
  {
    RowsOkHold(START, run);
  }

  /** Whatever callers enqueue, a row either respects its budget or was enqueued as running and never taken. */
  lemma ReachableRowsSound(run: seq<Event>)
    requires Legal(START, run)
    ensures RowsSound(After(START, run).rows)
  {
    InvariantHolds(START, run);
  }

  /** Fencing: a worker that holds the row it is executing holds exactly the attempt it is executing. */
  lemma Fencing(run: seq<Event>, w: WorkerId, id: TaskId)
    requires Legal(START, run)
    ensures var s := After(START, run);
            var p := PhaseOf(s, w);
            !p.Idle? && p.id == id && HeldBy(s.rows, id, w) ==> s.rows[id].attempts == p.attempt
  {
    FencedRun(START, run);
    assert Fenced(After(START, run), w);
  }

  /** A worker whose task moved on to another attempt cannot renew, complete or fail that attempt. */
  lemma StaleWorkerIsHarmless(run: seq<Event>, e: Event)
    requires Legal(START, run)
    requires e.Renew? || e.Complete? || e.ReadForFail? || e.WriteFail?
    requires Enabled(After(START, run), e)
    requires var s := After(START, run);
             var p := PhaseOf(s, e.w);
             p.id in s.rows ==> s.rows[p.id].attempts != p.attempt
    ensures NewRows(After(START, run), e) == After(START, run).rows
  {
    FencedRun(START, run);
    assert Fenced(After(START, run), e.w);
  }

  /** Whether the table invariant survives an accepted enqueue is decided by the requested status alone. */
  lemma EnqueueKeepsRowsOk(t: Table, id: TaskId, task: NewTask, now: Time)
    requires RowsOk(t)
    ensures RowsOk(t[id := FreshRow(task, now)]) <==> task.status != Some(Running)
  {
    var t' := t[id := FreshRow(task, now)];
    assert id in t' && t'[id] == FreshRow(task, now);
    if task.status != Some(Running) {
      forall other | other in t' ensures RowOk(t'[other]) {
        if other != id {
          assert RowOk(t[other]);
        }
      }
    }
  }

  /**
   Without distinct worker ids the budget fails.  One loop named `w` has read its row `seen`; its lease
   expires and a second loop named `w` takes the best row, the same one; then the first loop's write
   puts the row back in the queue with no attempt left.
   */
  lemma SharedWorkerIdOverrunsBudget()
    ensures exists t: Table, id: TaskId, w: WorkerId, now: Time, until: Time ::
              && RowsOk(t) && HeldBy(t, id, w) && IsBest(t, now, id)
              && RowsOk(AfterLease(t, id, w, now, until))
              && !RowsOk(AfterFail(AfterLease(t, id, w, now, until), id, w, t[id], "", 1, now))
  {
    var seen := Row("fetch", 0, Running, 1, 2, 0, Some(5), Some("w"), "", 0, 0, Some(0), None);
    var t := map["T" := seen];
    var leased := AfterLease(t, "T", "w", 6, 9);
    var failed := AfterFail(leased, "T", "w", t["T"], "", 1, 6);
    assert "T" in t && RowOk(t["T"]) && "T" in leased && RowOk(leased["T"]);
    assert "T" in failed && !RowOk(failed["T"]);
    assert RowsOk(t) && HeldBy(t, "T", "w") && IsBest(t, 6, "T") && RowsOk(leased) && !RowsOk(failed);
  }

  // -------------------------------------------------- a lease protects

  /** The step by which worker `w`, or a caller, gives up the row `id`. */
  ghost predicate GivesUp(s: State, e: Event, id: TaskId, w: WorkerId)
    requires Enabled(s, e)
  {
    || (e.Cancel? && e.id == id)
    || ((e.Complete? || e.WriteFail?) && e.w == w && PhaseOf(s, w).id == id)
  }

  /** Up to `until` nobody gives up the row, and its holder's heartbeats ask for at least that much. */
  ghost predicate Undisturbed(s: State, run: seq<Event>, id: TaskId, w: WorkerId, until: Time)
    requires Legal(s, run)
    decreases |run|
  {
    run == [] ||
    (&& (run[0].Lease? ==> run[0].now <= until) && !GivesUp(s, run[0], id, w)
     && (run[0].Renew? && run[0].w == w ==> run[0].now + Positive(run[0].lease, DEFAULT_LEASE) >= until)
     && Undisturbed(Step(s, run[0]), run[1..], id, w, until))
  }

  /** Worker `w` holds the row with a lease that lasts at least until `until`. */
  ghost predicate Holds(t: Table, id: TaskId, w: WorkerId, until: Time) {
    HeldBy(t, id, w) && t[id].leaseUntil.Some? && t[id].leaseUntil.value >= until
  }

  lemma HoldsStep(s: State, e: Event, id: TaskId, w: WorkerId, until: Time)
    requires Enabled(s, e) && Holds(s.rows, id, w, until) && !GivesUp(s, e, id, w)
    requires e.Lease? ==> e.now <= until
    requires e.Renew? && e.w == w ==> e.now + Positive(e.lease, DEFAULT_LEASE) >= until
    ensures Holds(NewRows(s, e), id, w, until) && NewRows(s, e)[id].attempts == s.rows[id].attempts
  {
  }

  lemma {:induction false} HeldThroughout(s: State, run: seq<Event>, id: TaskId, w: WorkerId, until: Time)
    requires Legal(s, run) && Holds(s.rows, id, w, until) && Undisturbed(s, run, id, w, until)
    ensures HeldBy(After(s, run).rows, id, w) && After(s, run).rows[id].attempts == s.rows[id].attempts
    decreases |run|
  {
    if run != [] {
      HoldsStep(s, run[0], id, w, until);
      HeldThroughout(Step(s, run[0]), run[1..], id, w, until);
    }
  }

  /**
   A lease protects its holder: until the time it was asked for has passed, whatever other workers and callers do,
   the row stays the holder's and at the attempt it was given.
   */
  lemma LeaseProtects(s: State, e: Event, run: seq<Event>, id: TaskId)
    requires Enabled(s, e) && e.Lease? && e.got == Some(id) && Legal(Step(s, e), run)
    requires Undisturbed(Step(s, e), run, id, e.w, e.now + (if e.lease > 0 then e.lease else 120_000_000_000))
    ensures HeldBy(After(Step(s, e), run).rows, id, e.w)
    ensures After(Step(s, e), run).rows[id].attempts == s.rows[id].attempts + 1
  {
    HeldThroughout(Step(s, e), run, id, e.w, e.now + Positive(e.lease, DEFAULT_LEASE));
  }

  /** And so does a heartbeat that reached the database. */
  lemma RenewProtects(s: State, e: Event, run: seq<Event>, id: TaskId)
    requires Enabled(s, e) && e.Renew? && e.applied && PhaseOf(s, e.w).id == id && HeldBy(s.rows, id, e.w)
    requires Legal(Step(s, e), run)
    requires Undisturbed(Step(s, e), run, id, e.w, e.now + (if e.lease > 0 then e.lease else 120_000_000_000))
    ensures HeldBy(After(Step(s, e), run).rows, id, e.w)
    ensures After(Step(s, e), run).rows[id].attempts == s.rows[id].attempts
  {
    HeldThroughout(Step(s, e), run, id, e.w, e.now + Positive(e.lease, DEFAULT_LEASE));
  }

  /** A run that happens before `until` at steady lease lengths is undisturbed if nobody gives the row up. */
  lemma {:induction false} SteadyRun(s: State, run: seq<Event>, id: TaskId, w: WorkerId, from: Time, lease: int)
    requires Legal(s, run) && lease > 0
    requires forall e :: e in run && e.Lease? ==> e.now <= from + lease
    requires forall e :: e in run && e.Renew? ==> e.now >= from && e.lease == lease
    requires forall e :: e in run ==>
               !(e.Cancel? && e.id == id) && !(e.Complete? && e.w == w) && !(e.WriteFail? && e.w == w)
    ensures Undisturbed(s, run, id, w, from + lease)
    decreases |run|
  {
    if run != [] {
      assert run[0] in run;
      SteadyRun(Step(s, run[0]), run[1..], id, w, from, lease);
    }
  }

  // --------------------------------------------------- the pending bound

  /** Only an accepted enqueue makes a row live. */
  lemma PendingGrowsByEnqueue(s: State, e: Event)
    requires Enabled(s, e)
    ensures PendingIds(NewRows(s, e)) <= PendingIds(s.rows) + (if e.Enqueue? then {e.id} else {})
    ensures e.Enqueue? && EnqueueRefusal(s.rows, e.id, e.task, e.maxPending).Some? ==> NewRows(s, e) == s.rows
  {
  }

  lemma SubsetCardinality<T>(a: set<T>, b: set<T>)
    requires a <= b
    ensures |a| <= |b|
  {
    assert b == a + (b - a);
  }

  lemma {:induction false} PendingBoundFrom(s: State, run: seq<Event>, maxPending: nat)
    requires Legal(s, run)
    requires maxPending > 0 && |PendingIds(s.rows)| <= maxPending
    requires forall e :: e in run && e.Enqueue? ==> e.maxPending == maxPending
    ensures |PendingIds(After(s, run).rows)| <= maxPending
    decreases |run|
  {
    if run != [] {
      var e := run[0];
      PendingGrowsByEnqueue(s, e);
      var before, after := PendingIds(s.rows), PendingIds(NewRows(s, e));
      if e.Enqueue? && EnqueueRefusal(s.rows, e.id, e.task, e.maxPending).None? {
        SubsetCardinality(after, before + {e.id});
      } else if !e.Enqueue? {
        SubsetCardinality(after, before);
      }
      PendingBoundFrom(Step(s, e), run[1..], maxPending);
    }
  }

  /** Queued and running rows together never exceed a fixed positive limit. */
  lemma PendingBound(run: seq<Event>, maxPending: nat)
    requires Legal(START, run) && maxPending > 0
    requires forall e :: e in run && e.Enqueue? ==> e.maxPending == maxPending
    ensures |PendingIds(After(START, run).rows)| <= maxPending
  {
    PendingBoundFrom(START, run, maxPending);
  }

  // ------------------------------------------------- terminal rows freeze

  /** No purge of the run has a cutoff past the row's last update. */
  predicate Spared(run: seq<Event>, row: Row) {
    forall e :: e in run && e.Purge? ==> !Purgeable(row, e.cutoff)
  }

  /** A finished row that no purge reaches stays as it is, whatever happens: even enqueueing its id again. */
  lemma {:induction false} TerminalRowsFrozen(s: State, run: seq<Event>, id: TaskId)
    requires Legal(s, run)
    requires id in s.rows && !Live(s.rows[id]) && Spared(run, s.rows[id])
    ensures id in After(s, run).rows && After(s, run).rows[id] == s.rows[id]
    decreases |run|
  {
    if run != [] {
      assert run[0] in run;
      TerminalRowsFrozen(Step(s, run[0]), run[1..], id);
    }
  }

  /** A row that is gone stays gone until its id is enqueued again. */
  lemma {:induction false} GoneUntilEnqueued(s: State, run: seq<Event>, id: TaskId)
    requires Legal(s, run) && id !in s.rows
    requires forall e :: e in run && e.Enqueue? ==> e.id != id
    ensures id !in After(s, run).rows
    decreases |run|
  {
    if run != [] {
      assert run[0] in run;
      GoneUntilEnqueued(Step(s, run[0]), run[1..], id);
    }
  }

  // ------------------------------------------------------------ the ledger

  /** What a run can spend on one task: status changes, executions, successful
      completions, and retry delay, the last with every retry base at most `base`. */
  datatype Item = Changes | Leases | Completions | Delay(base: nat)

  /** 1 if the statement from `t` to `t'` rewrote the status of `id`. */
  function StatusChange(t: Table, t': Table, id: TaskId): int {
    if id in t && id in t' && t[id].status != t'[id].status then 1 else 0
  }

  /** The table between the two statements of a lease; other steps have one statement. */
  ghost function Between(s: State, e: Event): Table {
    if e.Lease? && e.got.Some? then RequeueExpired(s.rows, e.now) else s.rows
  }

  ghost predicate Completes(s: State, e: Event, id: TaskId)
    requires Enabled(s, e)
  {
    e.Complete? && e.applied && PhaseOf(s, e.w).id == id && HeldBy(s.rows, id, e.w)
  }

  ghost predicate Retries(s: State, e: Event, id: TaskId)
    requires Enabled(s, e)
  {
    e.WriteFail? && e.applied && PhaseOf(s, e.w).id == id && HeldBy(s.rows, id, e.w) &&
    PhaseOf(s, e.w).seen.attempts < PhaseOf(s, e.w).seen.maxAttempts
  }

  /** What one step spends on `id`. */
  ghost function Spent(what: Item, s: State, e: Event, id: TaskId): int
    requires Enabled(s, e)
  {
    match what
    case Changes => StatusChange(s.rows, Between(s, e), id) + StatusChange(Between(s, e), NewRows(s, e), id)
    case Leases => if e.Lease? && e.got == Some(id) then 1 else 0
    case Completions => if Completes(s, e, id) then 1 else 0
    case Delay(_) => if Retries(s, e, id) then NewRows(s, e)[id].availableAt - e.now else 0
  }

  ghost function TotalSpent(what: Item, s: State, run: seq<Event>, id: TaskId): int
    requires Legal(s, run)
    decreases |run|
  {
    if run == [] then 0
    else Spent(what, s, run[0], id) + TotalSpent(what, Step(s, run[0]), run[1..], id)
  }

  /** What a row can still spend; a stray one can only be cancelled. */
  ghost function RowReserve(what: Item, row: Row): int
    requires RowSound(row)
  {
    var left, running := row.maxAttempts - row.attempts, if row.status.Running? then 1 else 0;
    if !Live(row) then 0
    else if Stray(row) then if what.Changes? then 1 else 0
    else
      match what
      case Changes => 2 * left + running
      case Leases => left
      case Completions => 1
      case Delay(base) => Backoff(row.maxAttempts - 1, base) - Backoff(row.attempts - running, base)
  }

  ghost function Reserve(what: Item, t: Table, id: TaskId): int
    requires RowsSound(t)
  {
    if id in t then RowReserve(what, t[id]) else 0
  }

  /** The allowance of one task: two status changes per attempt, its attempts, one
      completion, and the doubling delays that can precede its last attempt. */
  function Allowance(what: Item, maxAttempts: int): int
    requires maxAttempts >= 1
  {
    match what
    case Changes => 2 * maxAttempts
    case Leases => maxAttempts
    case Completions => 1
    case Delay(base) => Backoff(maxAttempts - 1, base) - base
  }

  /** An accepted enqueue of `id` grants a fresh allowance. */
  ghost function Granted(what: Item, s: State, e: Event, id: TaskId): int {
    if e.Enqueue? && e.id == id && EnqueueRefusal(s.rows, id, e.task, e.maxPending).None?
    then Allowance(what, FreshRow(e.task, e.now).maxAttempts) else 0
  }

  ghost function TotalGranted(what: Item, s: State, run: seq<Event>, id: TaskId): int
    requires Legal(s, run)
    decreases |run|
  {
    if run == [] then 0
    else Granted(what, s, run[0], id) + TotalGranted(what, Step(s, run[0]), run[1..], id)
  }

  /** Every retry in the run uses a base of at most the item's. */
  predicate BaseAtMost(what: Item, run: seq<Event>) {
    forall e :: e in run && e.WriteFail? && what.Delay? ==> Positive(e.base, DEFAULT_RETRY_BASE) <= what.base
  }

  lemma {:induction false} BackoffGrows(m: nat, n: nat, base: nat)
    requires m <= n
    ensures Backoff(m, base) <= Backoff(n, base)
    decreases n - m
  {
    if m < n {
      BackoffGrows(m + 1, n, base);
    }
  }

  lemma {:induction false} BackoffScales(n: nat, a: nat, b: nat)
    requires a <= b
    ensures Backoff(n, a) <= Backoff(n, b)
  {
    if n > 0 {
      BackoffScales(n - 1, a, b);
    }
  }

  lemma ReserveNonNegative(what: Item, row: Row)
    requires RowSound(row)
    ensures RowReserve(what, row) >= 0
  {
    if what.Delay? && Live(row) && RowOk(row) {
      BackoffGrows(row.attempts - (if row.status.Running? then 1 else 0), row.maxAttempts - 1, what.base);
    }
  }

  /** A running row giving up its lease pays for a status change, and for the retry delay if it is requeued. */
  lemma ReleaseSpends(what: Item, row: Row, row': Row)
    requires RowOk(row) && RowOk(row') && row.status.Running? && !row'.status.Running?
    requires row'.attempts == row.attempts && row'.maxAttempts == row.maxAttempts
    ensures RowReserve(what, row') <= RowReserve(what, row)
    ensures what.Changes? ==> RowReserve(what, row') + 1 <= RowReserve(what, row)
    ensures what.Completions? && !row'.status.Queued? ==> RowReserve(what, row') + 1 <= RowReserve(what, row)
    ensures what.Delay? && row'.status.Queued? ==>
              RowReserve(what, row') + Backoff(row.attempts - 1, what.base) == RowReserve(what, row)
  {
    ReserveNonNegative(what, row);
  }

  lemma ClaimSpends(what: Item, row: Row, w: WorkerId, until: Time, now: Time)
    requires RowOk(row) && row.status.Queued?
    ensures RowOk(Claim(row, w, until, now))
    ensures RowReserve(what, Claim(row, w, until, now)) + (if what.Changes? || what.Leases? then 1 else 0)
            == RowReserve(what, row)
  {
  }

  lemma LeaseSpends(what: Item, s: State, e: Event, id: TaskId)
    requires Inv(s) && Enabled(s, e) && e.Lease? && e.got.Some?
    requires RowsSound(NewRows(s, e))
    ensures Spent(what, s, e, id) + Reserve(what, NewRows(s, e), id) <= Reserve(what, s.rows, id)
  {
    var t, mid := s.rows, Between(s, e);
    if id in t {
      assert RowSound(t[id]);
      if Expired(t[id], e.now) {
        ReleaseSpends(what, t[id], mid[id]);
      }
      if e.got.value == id {
        ReclaimMakesDue(t, e.now, id);
        ClaimSpends(what, mid[id], e.w, e.now + Positive(e.lease, DEFAULT_LEASE), e.now);
      }
    }
  }

  lemma RetrySpends(what: Item, s: State, e: Event, id: TaskId)
    requires Inv(s) && Enabled(s, e) && e.WriteFail? && BaseAtMost(what, [e])
    requires RowsSound(NewRows(s, e))
    ensures Spent(what, s, e, id) + Reserve(what, NewRows(s, e), id) <= Reserve(what, s.rows, id)
  {
    if e.applied && PhaseOf(s, e.w).id == id && HeldBy(s.rows, id, e.w) {
      assert Fenced(s, e.w);
      var row, row' := s.rows[id], NewRows(s, e)[id];
      assert RowSound(row) && RowSound(row');
      ReleaseSpends(what, row, row');
      if what.Delay? && Retries(s, e, id) {
        assert e in [e];
        BackoffScales(row.attempts - 1, Positive(e.base, DEFAULT_RETRY_BASE), what.base);
      }
    }
  }

  /** An accepted enqueue grants what the fresh row can spend; a refused one changes nothing. */
  lemma EnqueueSpends(what: Item, s: State, e: Event, id: TaskId)
    requires Inv(s) && Enabled(s, e) && e.Enqueue?
    requires RowsSound(NewRows(s, e))
    ensures Spent(what, s, e, id) + Reserve(what, NewRows(s, e), id)
            <= Reserve(what, s.rows, id) + Granted(what, s, e, id)
  {
    if id !in s.rows && id in NewRows(s, e) && what.Delay? {
      BackoffGrows(0, NewRows(s, e)[id].maxAttempts - 1, what.base);
    }
  }

  /** Completing and cancelling end a live row. */
  lemma EndSpends(what: Item, s: State, e: Event, id: TaskId)
    requires Inv(s) && Enabled(s, e) && (e.Complete? || e.Cancel?)
    requires RowsSound(NewRows(s, e))
    ensures Spent(what, s, e, id) + Reserve(what, NewRows(s, e), id) <= Reserve(what, s.rows, id)
  {
    var t, t' := s.rows, NewRows(s, e);
    if id in t && t'[id] != t[id] {
      assert RowSound(t[id]);
      ReserveNonNegative(what, t[id]);
      if t[id].status.Running? && RowOk(t[id]) {
        ReleaseSpends(what, t[id], t'[id]);
      }
    }
  }

  /** The other steps leave a row's status and attempts alone, or delete a finished row. */
  lemma QuietSpends(what: Item, s: State, e: Event, id: TaskId)
    requires Inv(s) && Enabled(s, e)
    requires e.Renew? || e.ReadForFail? || e.Purge? || e.Crash? || (e.Lease? && e.got.None?)
    requires RowsSound(NewRows(s, e))
    ensures Spent(what, s, e, id) + Reserve(what, NewRows(s, e), id) <= Reserve(what, s.rows, id)
  {
    if id in s.rows {
      assert RowSound(s.rows[id]);
    }
  }

  lemma StepBalances(what: Item, s: State, e: Event, id: TaskId)
    requires Inv(s) && Enabled(s, e) && BaseAtMost(what, [e])
    ensures Inv(Step(s, e))
    ensures Spent(what, s, e, id) + Reserve(what, NewRows(s, e), id)
            <= Reserve(what, s.rows, id) + Granted(what, s, e, id)
  {
    InvStep(s, e);
    if e.WriteFail? {
      RetrySpends(what, s, e, id);
    } else if e.Lease? && e.got.Some? {
      LeaseSpends(what, s, e, id);
    } else if e.Enqueue? {
      EnqueueSpends(what, s, e, id);
    } else if e.Complete? || e.Cancel? {
      EndSpends(what, s, e, id);
    } else {
      QuietSpends(what, s, e, id);
    }
  }

  lemma {:induction false} LedgerBalances(what: Item, s: State, run: seq<Event>, id: TaskId)
    requires Inv(s) && Legal(s, run) && BaseAtMost(what, run)
    ensures Inv(After(s, run))
    ensures TotalSpent(what, s, run, id) + Reserve(what, After(s, run).rows, id)
            <= Reserve(what, s.rows, id) + TotalGranted(what, s, run, id)
    decreases |run|
  {
    if run != [] {
      assert run[0] in run;
      StepBalances(what, s, run[0], id);
      LedgerBalances(what, Step(s, run[0]), run[1..], id);
    }
  }

  /**
   A run spends on a task at most the allowance of its accepted enqueues, however
   failures, lease expiries, cancellations, crashes and purges mix.
   */
  lemma TaskBudget(what: Item, run: seq<Event>, id: TaskId)
    requires Legal(START, run) && BaseAtMost(what, run)
    ensures TotalSpent(what, START, run, id) <= TotalGranted(what, START, run, id)
  {
    LedgerBalances(what, START, run, id);
    var rows := After(START, run).rows;
    if id in rows {
      ReserveNonNegative(what, rows[id]);
    }
  }

  ghost predicate Accepts(s: State, e: Event, id: TaskId) {
    e.Enqueue? && e.id == id && EnqueueRefusal(s.rows, id, e.task, e.maxPending).None?
  }

  /** How often the run enqueues `id` with success. */
  ghost function Accepted(s: State, run: seq<Event>, id: TaskId): nat
    requires Legal(s, run)
    decreases |run|
  {
    if run == [] then 0
    else (if Accepts(s, run[0], id) then 1 else 0) + Accepted(Step(s, run[0]), run[1..], id)
  }

  /** The attempts those enqueues allow together. */
  ghost function AttemptsAllowed(s: State, run: seq<Event>, id: TaskId): nat
    requires Legal(s, run)
    decreases |run|
  {
    if run == [] then 0
    else
      (if Accepts(s, run[0], id) then Positive(run[0].task.maxAttempts, DEFAULT_MAX_ATTEMPTS) else 0)
      + AttemptsAllowed(Step(s, run[0]), run[1..], id)
  }

  /** Allowances add up, whatever is refused in between. */
  lemma {:induction false} GrantsFollowAccepted(what: Item, s: State, run: seq<Event>, id: TaskId)
    requires Legal(s, run)
    ensures what.Changes? ==> TotalGranted(what, s, run, id) == 2 * AttemptsAllowed(s, run, id)
    ensures what.Leases? ==> TotalGranted(what, s, run, id) == AttemptsAllowed(s, run, id)
    ensures what.Completions? ==> TotalGranted(what, s, run, id) == Accepted(s, run, id)
    ensures Accepted(s, run, id) == 0 ==> TotalGranted(what, s, run, id) == 0 && AttemptsAllowed(s, run, id) == 0
    ensures Accepted(s, run, id) == 1 ==>
              AttemptsAllowed(s, run, id) >= 1
              && TotalGranted(what, s, run, id) == Allowance(what, AttemptsAllowed(s, run, id))
    decreases |run|
  {
    if run != [] {
      GrantsFollowAccepted(what, Step(s, run[0]), run[1..], id);
    }
  }

  /**
   In every run: at most two status changes for each attempt that the accepted enqueues of a task allow, at
   most so many executions, and at most one successful completion for each accepted enqueue.
   */
  lemma BudgetByAccepted(run: seq<Event>, id: TaskId)
    requires Legal(START, run)
    ensures TotalSpent(Changes, START, run, id) <= 2 * AttemptsAllowed(START, run, id)
    ensures TotalSpent(Leases, START, run, id) <= AttemptsAllowed(START, run, id)
    ensures TotalSpent(Completions, START, run, id) <= Accepted(START, run, id)
  {
    TaskBudget(Changes, run, id);
    TaskBudget(Leases, run, id);
    TaskBudget(Completions, run, id);
    GrantsFollowAccepted(Changes, START, run, id);
    GrantsFollowAccepted(Leases, START, run, id);
    GrantsFollowAccepted(Completions, START, run, id);
  }

  /** A task accepted at most once: at most 2*max_attempts status changes, max_attempts executions,
      one successful completion, and total backoff (2^(max_attempts-1) - 1) * base, in any run. */
  lemma OneEnqueueBudget(run: seq<Event>, id: TaskId, maxAttempts: int, base: nat)
    requires Legal(START, run) && BaseAtMost(Delay(base), run)
    requires Accepted(START, run, id) <= 1 && AttemptsAllowed(START, run, id) <= maxAttempts && maxAttempts >= 1
    ensures TotalSpent(Changes, START, run, id) <= 2 * maxAttempts
    ensures TotalSpent(Leases, START, run, id) <= maxAttempts
    ensures TotalSpent(Completions, START, run, id) <= 1
    ensures TotalSpent(Delay(base), START, run, id) <= (Pow2(maxAttempts - 1) - 1) * base
  {
    BudgetByAccepted(run, id);
    DelayBudget(run, id, maxAttempts, base);
    DelayClosedForm(maxAttempts, base);
  }

  lemma DelayBudget(run: seq<Event>, id: TaskId, maxAttempts: int, base: nat)
    requires Legal(START, run) && BaseAtMost(Delay(base), run)
    requires Accepted(START, run, id) <= 1 && AttemptsAllowed(START, run, id) <= maxAttempts && maxAttempts >= 1
    ensures TotalSpent(Delay(base), START, run, id) <= Backoff(maxAttempts - 1, base) - base
  {
    TaskBudget(Delay(base), run, id);
    GrantsFollowAccepted(Delay(base), START, run, id);
    BackoffGrows(0, maxAttempts - 1, base);
    if Accepted(START, run, id) == 1 {
      BackoffGrows(AttemptsAllowed(START, run, id) - 1, maxAttempts - 1, base);
    }
  }

  lemma DelayClosedForm(maxAttempts: int, base: nat)
    requires maxAttempts >= 1
    ensures Backoff(maxAttempts - 1, base) - base == (Pow2(maxAttempts - 1) - 1) * base
  {
    BackoffClosedForm(maxAttempts - 1, base);
  }

  /** No step of the run deletes the row of `id`. */
  ghost predicate NeverDeleted(s: State, run: seq<Event>, id: TaskId)
    requires Legal(s, run)
    decreases |run|
  {
    run == [] ||
    (&& (id in s.rows ==> id in Step(s, run[0]).rows)
     && NeverDeleted(Step(s, run[0]), run[1..], id))
  }

  /** Only purges delete rows. */
  lemma {:induction false} WithoutPurges(s: State, run: seq<Event>, id: TaskId)
    requires Legal(s, run) && forall e :: e in run ==> !e.Purge?
    ensures NeverDeleted(s, run, id)
    decreases |run|
  {
    if run != [] {
      assert run[0] in run;
      WithoutPurges(Step(s, run[0]), run[1..], id);
    }
  }

  /** As long as its row is not deleted, an id is accepted at most once: the primary key refuses it again. */
  lemma {:induction false} AcceptedOnce(s: State, run: seq<Event>, id: TaskId)
    requires Legal(s, run) && NeverDeleted(s, run, id)
    ensures Accepted(s, run, id) <= if id in s.rows then 0 else 1
    decreases |run|
  {
    if run != [] {
      AcceptedOnce(Step(s, run[0]), run[1..], id);
    }
  }

  /** In a run without purges the bounds hold for every task, however often its id is submitted. */
  lemma BudgetWithoutPurges(run: seq<Event>, id: TaskId, maxAttempts: int, base: nat)
    requires Legal(START, run) && BaseAtMost(Delay(base), run) && forall e :: e in run ==> !e.Purge?
    requires AttemptsAllowed(START, run, id) <= maxAttempts && maxAttempts >= 1
    ensures TotalSpent(Changes, START, run, id) <= 2 * maxAttempts
    ensures TotalSpent(Leases, START, run, id) <= maxAttempts
    ensures TotalSpent(Completions, START, run, id) <= 1
    ensures TotalSpent(Delay(base), START, run, id) <= (Pow2(maxAttempts - 1) - 1) * base
  {
    WithoutPurges(START, run, id);
    AcceptedOnce(START, run, id);
    OneEnqueueBudget(run, id, maxAttempts, base);
  }

  // ------------------------------------------------------- delays are kept

  /** A row that waits for its time, or is finished. */
  ghost predicate Waits(t: Table, id: TaskId, due: Time) {
    id in t && (!Live(t[id]) || (t[id].status.Queued? && t[id].availableAt >= due))
  }

  /** Nobody is given a waiting row before its time, as long as it is not deleted and enqueued anew. */
  lemma {:induction false} NotLeasedBefore(s: State, run: seq<Event>, id: TaskId, due: Time)
    requires Legal(s, run) && Waits(s.rows, id, due) && NeverDeleted(s, run, id)
    requires forall e :: e in run && e.Lease? ==> e.now < due
    ensures TotalSpent(Leases, s, run, id) == 0 && Waits(After(s, run).rows, id, due)
    decreases |run|
  {
    if run != [] {
      assert run[0] in run;
      NotLeasedBefore(Step(s, run[0]), run[1..], id, due);
    }
  }

  /** A failed attempt k is not followed by another before 2^(k-1) times the retry base has passed. */
  lemma RetryWaits(s: State, e: Event, run: seq<Event>, id: TaskId)
    requires Enabled(s, e) && Retries(s, e, id) && Legal(Step(s, e), run) && NeverDeleted(Step(s, e), run, id)
    requires var k := PhaseOf(s, e.w).seen.attempts;
             k >= 1 && forall x :: x in run && x.Lease? ==>
               x.now < e.now + Pow2(k - 1) * (if e.base > 0 then e.base else 5_000_000_000)
    ensures TotalSpent(Leases, Step(s, e), run, id) == 0
  {
    var k := PhaseOf(s, e.w).seen.attempts;
    var base := Positive(e.base, DEFAULT_RETRY_BASE);
    BackoffClosedForm(k - 1, base);
    NotLeasedBefore(Step(s, e), run, id, e.now + Pow2(k - 1) * base);
  }

  /** A task enqueued for a later time is not given to anybody before it. */
  lemma EnqueueWaits(s: State, e: Event, run: seq<Event>, id: TaskId)
    requires Enabled(s, e) && Accepts(s, e, id) && e.task.status == None && e.task.availableAt.Some?
    requires Legal(Step(s, e), run) && NeverDeleted(Step(s, e), run, id)
    requires forall x :: x in run && x.Lease? ==> x.now < e.task.availableAt.value
    ensures TotalSpent(Leases, Step(s, e), run, id) == 0
  {
    NotLeasedBefore(Step(s, e), run, id, e.task.availableAt.value);
  }
}
