/**
 * The lease queue of pkg/datastore/file_gc_tasks.go: cleanup tasks are claimed under a fresh
 * receipt, acknowledged or retried while the lease lasts, and requeued once it has expired.
 * One statement or transaction is one step; times are nanoseconds.
 */
module GcLease {
  import opened Options
  import opened TextOps

  datatype Status = Queued | Processing | Succeeded | DeadLettered
  datatype Lease = Lease(receipt: string, until: int)

  /** The receipt and lease columns are set and cleared together. */
  datatype Task = Task(file: string, status: Status, attempts: nat, maxAttempts: nat, lease: Option<Lease>,
                       availableAt: int)

  type Table = map<string, Task>

  /** The table, and every receipt handed out so far. */
  datatype State = State(tasks: Table, issued: set<string>)

  datatype Step =
    | Enqueue(id: string, file: string, max: int, at: int)
    | Claim(id: string, receipt: string, now: int, duration: int)
    | Ack(id: string, receipt: string, now: int)
    | Retry(id: string, receipt: string, now: int, retryAt: int)
    | Recover(id: string, now: int)

  const SECOND := 1_000_000_000
  const DEFAULT_LEASE := 30 * SECOND
  const EMPTY := State(map[], {})

  // ---------------------------------------------------------------- guards

  predicate HasFile(tasks: Table, file: string) { exists id :: id in tasks && tasks[id].file == file }

  function TaskId(id: string, file: string): string { if Trim(id) == "" then file else id }

  predicate Claimable(tasks: Table, id: string, now: int) {
    id in tasks && tasks[id].status.Queued? && tasks[id].availableAt <= now
  }

  /** The guard of ack and of retry: the caller's receipt is the current one and still runs. */
  predicate Holds(tasks: Table, id: string, receipt: string, now: int) {
    id in tasks && tasks[id].status.Processing? && tasks[id].lease.Some?
    && tasks[id].lease.value.receipt == receipt && tasks[id].lease.value.until > now
  }

  predicate Expired(tasks: Table, id: string, now: int) {
    id in tasks && tasks[id].status.Processing? && tasks[id].lease.Some? && tasks[id].lease.value.until < now
  }

  // ---------------------------------------------------------------- steps

  function Leased(t: Task, receipt: string, now: int, duration: int): Task {
    t.(status := Processing, attempts := t.attempts + 1,
    lease := Some(Lease(receipt, now + (if duration <= 0 then DEFAULT_LEASE else duration))))
  }

  function Retried(t: Task, retryAt: int): Task {
    if t.maxAttempts > 0 && t.attempts >= t.maxAttempts then t.(status := DeadLettered, lease := None)
    else t.(status := Queued, lease := None, availableAt := retryAt)
  }

  function Inserted(tasks: Table, id: string, file: string, max: int, at: int): Table {
    if Trim(file) == "" || TaskId(id, file) in tasks || HasFile(tasks, file) then tasks
    else tasks[TaskId(id, file) := Task(file, Queued, 0, if max <= 0 then 0 else max, None, at)]
  }

  function Next(s: State, e: Step): State {
    match e
    case Enqueue(id, file, max, at) => s.(tasks := Inserted(s.tasks, id, file, max, at))
    case Claim(id, receipt, now, duration) =>
      if Claimable(s.tasks, id, now)
      then State(s.tasks[id := Leased(s.tasks[id], receipt, now, duration)], s.issued + {receipt}) else s
    case Ack(id, receipt, now) =>
      if Holds(s.tasks, id, receipt, now)
      then s.(tasks := s.tasks[id := s.tasks[id].(status := Succeeded, lease := None)]) else s
    case Retry(id, receipt, now, retryAt) =>
      if Holds(s.tasks, id, receipt, now)
      then s.(tasks := s.tasks[id := Retried(s.tasks[id], retryAt)]) else s
    case Recover(id, now) =>
      if Expired(s.tasks, id, now)
      then s.(tasks := s.tasks[id := s.tasks[id].(status := Queued, lease := None, availableAt := now)]) else s
  }

  function Run(s: State, es: seq<Step>): State
    decreases |es|
  {
    if es == [] then s else Run(Next(s, es[0]), es[1..])
  }

  /** A claim draws a receipt that was never handed out. */
  predicate Fresh(s: State, e: Step) { e.Claim? ==> e.receipt !in s.issued }

  predicate FreshRun(s: State, es: seq<Step>)
    decreases |es|
  {
    es == [] || (Fresh(s, es[0]) && FreshRun(Next(s, es[0]), es[1..]))
  }

  // ---------------------------------------------------------------- what each statement does to its row

  /** A file id gets its one row: queued, never attempted, available at the given time. */
  lemma EnqueueExact(s: State, id: string, file: string, max: int, at: int)
    ensures var n := Next(s, Enqueue(id, file, max, at));
            var key := if Trim(id) == "" then file else id;
            var fits := Trim(file) != "" && key !in s.tasks && forall k :: k in s.tasks ==> s.tasks[k].file != file;
            && n.issued == s.issued
            && (!fits ==> n.tasks == s.tasks)
            && (fits ==> n.tasks == s.tasks[key := Task(file, Queued, 0, if max > 0 then max else 0, None, at)])
  {
  }

  /** A queued row is claimed exactly from its time on; the lease then runs for the duration, or 30 seconds. */
  lemma ClaimExact(s: State, id: string, receipt: string, now: int, duration: int)
    ensures var n := Next(s, Claim(id, receipt, now, duration));
            var can := id in s.tasks && s.tasks[id].status == Queued && s.tasks[id].availableAt <= now;
            && (!can ==> n == s)
            && (can ==>
                  && n.issued == s.issued + {receipt} && n.tasks.Keys == s.tasks.Keys
                  && (forall k :: k in s.tasks && k != id ==> n.tasks[k] == s.tasks[k])
                  && n.tasks[id].status == Processing && n.tasks[id].attempts == s.tasks[id].attempts + 1
                  && n.tasks[id].lease ==
                     Some(Lease(receipt, now + (if duration > 0 then duration else 30_000_000_000)))
                  && n.tasks[id].file == s.tasks[id].file && n.tasks[id].maxAttempts == s.tasks[id].maxAttempts
                  && n.tasks[id].availableAt == s.tasks[id].availableAt)
  {
  }

  /** The holder of a running lease. */
  predicate Runs(s: State, id: string, receipt: string, now: int) {
    && id in s.tasks && s.tasks[id].status == Processing && s.tasks[id].lease.Some?
    && s.tasks[id].lease.value.receipt == receipt && now < s.tasks[id].lease.value.until
  }

  /** What the holder, and only the holder, can make of the row, and what a sweep makes of a lapsed one. */
  lemma LeaseEndsExact(s: State, id: string, receipt: string, now: int, retryAt: int)
    ensures var acked, retried := Next(s, Ack(id, receipt, now)), Next(s, Retry(id, receipt, now, retryAt));
            && (!Runs(s, id, receipt, now) ==> acked == s && retried == s)
            && (Runs(s, id, receipt, now) ==>
                  var t := s.tasks[id];
                  var n, max := t.attempts, t.maxAttempts;
                  && acked == State(s.tasks[id := Task(t.file, Succeeded, n, max, None, t.availableAt)], s.issued)
                  && (max == 0 || n < max ==>
                        retried == State(s.tasks[id := Task(t.file, Queued, n, max, None, retryAt)], s.issued))
                  && (0 < max <= n ==>
                        retried ==
                        State(s.tasks[id := Task(t.file, DeadLettered, n, max, None, t.availableAt)], s.issued)))
  {
  }

  lemma RecoverExact(s: State, id: string, now: int)
    ensures var n := Next(s, Recover(id, now));
            var lapsed := id in s.tasks && s.tasks[id].status == Processing && s.tasks[id].lease.Some?
                          && s.tasks[id].lease.value.until < now;
            && (!lapsed ==> n == s)
            && (lapsed ==>
                  var t := s.tasks[id];
                  n == State(s.tasks[id := Task(t.file, Queued, t.attempts, t.maxAttempts, None, now)], s.issued))
  {
  }

  /** A row its holder retried cannot be claimed before the retry time. */
  lemma RetriedWaits(s: State, id: string, receipt: string, now: int, retryAt: int, next: string, at: int,
                     duration: int)
    requires Runs(s, id, receipt, now) && at < retryAt
    ensures var retried := Next(s, Retry(id, receipt, now, retryAt));
            Next(retried, Claim(id, next, at, duration)) == retried
  {
  }

  // ---------------------------------------------------------------- the invariant

  predicate RowOk(t: Task, issued: set<string>) {
    && (t.status.Processing? <==> t.lease.Some?)
    && (t.lease.Some? ==> t.lease.value.receipt in issued)
    && (t.status.DeadLettered? ==> 0 < t.maxAttempts <= t.attempts)
  }

  predicate RowsOk(s: State) { forall id :: id in s.tasks ==> RowOk(s.tasks[id], s.issued) }

  predicate OnePerFile(tasks: Table) {
    forall i, j :: i in tasks && j in tasks && tasks[i].file == tasks[j].file ==> i == j
  }

  /** Whether a row carries this receipt now. */
  predicate Carries(s: State, id: string, receipt: string) {
    id in s.tasks && s.tasks[id].lease.Some? && s.tasks[id].lease.value.receipt == receipt
  }

  ghost predicate OnePerReceipt(s: State) {
    forall i, j, r :: Carries(s, i, r) && Carries(s, j, r) ==> i == j
  }

  ghost predicate Sound(s: State) { RowsOk(s) && OnePerFile(s.tasks) && OnePerReceipt(s) }

  lemma StepCarries(s: State, e: Step, id: string, r: string)
    requires RowsOk(s) && Carries(Next(s, e), id, r)
    ensures Carries(s, id, r) || (e.Claim? && e.id == id && e.receipt == r && Claimable(s.tasks, id, e.now))
  {
  }

  lemma StepKeepsRows(s: State, e: Step)
    requires RowsOk(s)
    ensures RowsOk(Next(s, e)) && s.issued <= Next(s, e).issued
  {
  }

  lemma StepKeepsRow(s: State, e: Step, id: string)
    requires id in s.tasks
    ensures id in Next(s, e).tasks && Next(s, e).tasks[id].file == s.tasks[id].file
            && Next(s, e).tasks[id].maxAttempts == s.tasks[id].maxAttempts
  {
  }

  lemma StepKeepsFiles(s: State, e: Step)
    requires OnePerFile(s.tasks)
    ensures OnePerFile(Next(s, e).tasks)
  {
  }

  lemma StepKeepsReceipts(s: State, e: Step)
    requires Sound(s) && Fresh(s, e)
    ensures OnePerReceipt(Next(s, e))
  {
    var n := Next(s, e);
    forall i, j, r | Carries(n, i, r) && Carries(n, j, r)
      ensures i == j
    {
      StepCarries(s, e, i, r);
      StepCarries(s, e, j, r);
      assert Carries(s, i, r) ==> RowOk(s.tasks[i], s.issued);
      assert Carries(s, j, r) ==> RowOk(s.tasks[j], s.issued);
    }
  }

  /** Every run keeps one task per file, one row per receipt and a well-formed lease on each row. */
  lemma {:induction false} RunKeepsSound(s: State, es: seq<Step>)
    requires Sound(s) && FreshRun(s, es)
    ensures Sound(Run(s, es))
    decreases |es|
  {
    if es != [] {
      StepKeepsRows(s, es[0]);
      StepKeepsFiles(s, es[0]);
      StepKeepsReceipts(s, es[0]);
      RunKeepsSound(Next(s, es[0]), es[1..]);
    }
  }

  lemma EveryReachableIsSound(es: seq<Step>)
    requires FreshRun(EMPTY, es)
    ensures Sound(Run(EMPTY, es))
  {
    RunKeepsSound(EMPTY, es);
  }

  /** A file that has a task keeps that task, under the same id, and never gets another. */
  lemma {:induction false} OneTaskPerFile(s: State, es: seq<Step>, id: string, j: string)
    requires OnePerFile(s.tasks) && id in s.tasks
    ensures id in Run(s, es).tasks && Run(s, es).tasks[id].file == s.tasks[id].file
    ensures j in Run(s, es).tasks && Run(s, es).tasks[j].file == s.tasks[id].file ==> j == id
    decreases |es|
  {
    if es != [] {
      StepKeepsFiles(s, es[0]);
      StepKeepsRow(s, es[0], id);
      OneTaskPerFile(Next(s, es[0]), es[1..], id, j);
    }
  }

  // ---------------------------------------------------------------- stale receipts

  ghost predicate Spent(s: State, r: string) { r in s.issued && forall id :: !Carries(s, id, r) }

  /** A receipt no row carries any more never comes back. */
  lemma {:induction false} SpentStaysSpent(s: State, es: seq<Step>, r: string)
    requires RowsOk(s) && FreshRun(s, es) && Spent(s, r)
    ensures Spent(Run(s, es), r)
    decreases |es|
  {
    if es != [] {
      var n := Next(s, es[0]);
      StepKeepsRows(s, es[0]);
      forall id
        ensures !Carries(n, id, r)
      {
        if Carries(n, id, r) {
          StepCarries(s, es[0], id, r);
        }
      }
      SpentStaysSpent(n, es[1..], r);
    }
  }

  /** Whatever takes a receipt off its row: the ack, the retry or the recovery of its lease. */
  predicate Releases(s: State, e: Step, id: string, r: string) { Carries(s, id, r) && !Carries(Next(s, e), id, r) }

  lemma ReleaseSpends(s: State, e: Step, id: string, r: string)
    requires Sound(s) && Fresh(s, e) && Releases(s, e, id, r)
    ensures Spent(Next(s, e), r)
  {
    assert RowOk(s.tasks[id], s.issued);
    forall j
      ensures !Carries(Next(s, e), j, r)
    {
      if Carries(Next(s, e), j, r) {
        StepCarries(s, e, j, r);
      }
    }
  }

  /** A worker whose task was recovered, retried or acknowledged, and perhaps claimed again, changes nothing. */
  lemma StaleWorkerIsRefused(s: State, e: Step, es: seq<Step>, id: string, r: string, task: string, t: int,
                             retryAt: int)
    requires Sound(s) && Fresh(s, e) && Releases(s, e, id, r) && FreshRun(Next(s, e), es)
    ensures var later := Run(Next(s, e), es);
            Next(later, Ack(task, r, t)) == later && Next(later, Retry(task, r, t, retryAt)) == later
  {
    ReleaseSpends(s, e, id, r);
    StepKeepsRows(s, e);
    SpentStaysSpent(Next(s, e), es, r);
    assert !Carries(Run(Next(s, e), es), task, r);
  }

  /** While a receipt is on a row, its lease does not move: nothing extends a lease. */
  lemma StepKeepsLease(s: State, e: Step, id: string, r: string)
    requires Sound(s) && Fresh(s, e) && Carries(s, id, r) && Carries(Next(s, e), id, r)
    ensures Next(s, e).tasks[id].lease == s.tasks[id].lease
  {
  }

  /** With a clock that does not run backwards, an expired lease can never be acknowledged or retried. */
  lemma {:induction false} ExpiredLeaseIsLost(s: State, es: seq<Step>, id: string, r: string, later: int, retryAt: int)
    requires Sound(s) && FreshRun(s, es) && Carries(s, id, r)
    requires s.tasks[id].lease.value.until <= later
    ensures var end := Run(s, es);
            Next(end, Ack(id, r, later)) == end && Next(end, Retry(id, r, later, retryAt)) == end
    decreases |es|
  {
    if es != [] {
      var n := Next(s, es[0]);
      StepKeepsRows(s, es[0]);
      StepKeepsFiles(s, es[0]);
      StepKeepsReceipts(s, es[0]);
      if Carries(n, id, r) {
        StepKeepsLease(s, es[0], id, r);
        ExpiredLeaseIsLost(n, es[1..], id, r, later, retryAt);
      } else {
        StaleWorkerIsRefused(s, es[0], es[1..], id, r, id, later, retryAt);
      }
    }
  }

  /**
   * Ack and recovery of one lease exclude each other at every moment, and at the exact
   * moment the lease ends neither is possible.
   */
  lemma AckExcludesRecovery(s: State, id: string, r: string, now: int)
    requires Sound(s) && Carries(s, id, r)
    ensures Holds(s.tasks, id, r, now) <==> now < s.tasks[id].lease.value.until
    ensures Expired(s.tasks, id, now) <==> now > s.tasks[id].lease.value.until
  {
  }

  // ---------------------------------------------------------------- final states and accounting

  predicate Settled(s: State, id: string) {
    id in s.tasks && (s.tasks[id].status.Succeeded? || s.tasks[id].status.DeadLettered?)
  }

  /** Succeeded and dead-lettered rows never change again. */
  lemma {:induction false} SettledIsFinal(s: State, es: seq<Step>, id: string)
    requires Settled(s, id)
    ensures id in Run(s, es).tasks && Run(s, es).tasks[id] == s.tasks[id]
    decreases |es|
  {
    if es != [] {
      SettledIsFinal(Next(s, es[0]), es[1..], id);
    }
  }

  /** No run dead-letters a task whose max_attempts is zero. */
  lemma NeverDeadLettered(s: State, es: seq<Step>, id: string)
    requires Sound(s) && FreshRun(s, es) && id in s.tasks && s.tasks[id].maxAttempts == 0
    ensures id in Run(s, es).tasks && !Run(s, es).tasks[id].status.DeadLettered?
  {
    RunKeepsSound(s, es);
    RunKeepsLimit(s, es, id);
    assert RowOk(Run(s, es).tasks[id], Run(s, es).issued);
  }

  lemma {:induction false} RunKeepsLimit(s: State, es: seq<Step>, id: string)
    requires id in s.tasks
    ensures id in Run(s, es).tasks && Run(s, es).tasks[id].maxAttempts == s.tasks[id].maxAttempts
    decreases |es|
  {
    if es != [] {
      StepKeepsRow(s, es[0], id);
      RunKeepsLimit(Next(s, es[0]), es[1..], id);
    }
  }

  function Attempts(s: State, id: string): nat { if id in s.tasks then s.tasks[id].attempts else 0 }

  predicate InWork(s: State, id: string) { id in s.tasks && s.tasks[id].status.Processing? }

  predicate Done(s: State, id: string) { id in s.tasks && s.tasks[id].status.Succeeded? }

  function Bit(b: bool): nat { if b then 1 else 0 }

  /** How often a run starts work on a task, ends it, and ends it with success. */
  function Starts(s: State, es: seq<Step>, id: string): nat
    decreases |es|
  {
    if es == [] then 0
    else Bit(!InWork(s, id) && InWork(Next(s, es[0]), id)) + Starts(Next(s, es[0]), es[1..], id)
  }

  function Ends(s: State, es: seq<Step>, id: string): nat
    decreases |es|
  {
    if es == [] then 0
    else Bit(InWork(s, id) && !InWork(Next(s, es[0]), id)) + Ends(Next(s, es[0]), es[1..], id)
  }

  function Successes(s: State, es: seq<Step>, id: string): nat
    decreases |es|
  {
    if es == [] then 0
    else Bit(es[0].Ack? && es[0].id == id && Next(s, es[0]) != s) + Successes(Next(s, es[0]), es[1..], id)
  }

  lemma StepAccounts(s: State, e: Step, id: string)
    requires Sound(s)
    ensures Attempts(Next(s, e), id) == Attempts(s, id) + Bit(!InWork(s, id) && InWork(Next(s, e), id))
    ensures Bit(e.Ack? && e.id == id && Next(s, e) != s) == Bit(Done(Next(s, e), id)) - Bit(Done(s, id))
  {
  }

  /**
   * The attempt count of a row is the number of leases handed out for it; each but the
   * one still open was ended once; and a row is acknowledged once exactly when it succeeded.
   */
  lemma {:induction false} LeasesAreAccounted(s: State, es: seq<Step>, id: string)
    requires Sound(s) && FreshRun(s, es)
    ensures Attempts(Run(s, es), id) == Attempts(s, id) + Starts(s, es, id)
    ensures Starts(s, es, id) + Bit(InWork(s, id)) == Ends(s, es, id) + Bit(InWork(Run(s, es), id))
    ensures Successes(s, es, id) + Bit(Done(s, id)) == Bit(Done(Run(s, es), id))
    decreases |es|
  {
    if es != [] {
      StepAccounts(s, es[0], id);
      StepKeepsRows(s, es[0]);
      StepKeepsFiles(s, es[0]);
      StepKeepsReceipts(s, es[0]);
      LeasesAreAccounted(Next(s, es[0]), es[1..], id);
    }
  }

  // ---------------------------------------------------------------- the store

  datatype Outcome = Ok | NotFound | LeaseMismatch

  function Requeued(t: Task, now: int): Task { t.(status := Queued, lease := None, availableAt := now) }

  /** Exactly the expired rows among the named ones, requeued. */
  function Recovered(tasks: Table, ids: seq<string>, now: int): Table {
    map id | id in tasks :: if id in ids && Expired(tasks, id, now) then Requeued(tasks[id], now) else tasks[id]
  }

  function Sweep(ids: seq<string>, now: int): seq<Step> {
    if ids == [] then [] else [Recover(ids[0], now)] + Sweep(ids[1..], now)
  }

  lemma RecoveredFirst(s: State, id: string, rest: seq<string>, now: int)
    ensures Recovered(Next(s, Recover(id, now)).tasks, rest, now) == Recovered(s.tasks, [id] + rest, now)
  {
  }

  /** A sweep is a run of recovery steps. */
  lemma {:induction false} SweepIsARun(s: State, ids: seq<string>, now: int)
    ensures Run(s, Sweep(ids, now)) == s.(tasks := Recovered(s.tasks, ids, now))
    decreases |ids|
  {
    if ids == [] {
      assert Recovered(s.tasks, ids, now) == s.tasks;
    } else {
      SweepIsARun(Next(s, Recover(ids[0], now)), ids[1..], now);
      RecoveredFirst(s, ids[0], ids[1..], now);
      assert ids == [ids[0]] + ids[1..];
    }
  }

  function ExpiredCount(tasks: Table, ids: seq<string>, now: int): nat {
    if ids == [] then 0
    else ExpiredCount(tasks, ids[..|ids| - 1], now) + Bit(Expired(tasks, ids[|ids| - 1], now))
  }

  lemma RecoveredSnoc(tasks: Table, ids: seq<string>, id: string, now: int)
    requires id !in ids
    ensures var done := Recovered(tasks, ids, now);
            Recovered(tasks, ids + [id], now) ==
            (if Expired(tasks, id, now) then done[id := Requeued(tasks[id], now)] else done)
            && (id in done <==> id in tasks) && (id in tasks ==> done[id] == tasks[id])
  {
  }

  class Queue {
    var tasks: Table

    constructor ()
      ensures tasks == map[]
    {
      tasks := map[];
    }

    method Enqueue(id: string, file: string, max: int, at: int) returns (inserted: bool)
      modifies this
      ensures tasks == Inserted(old(tasks), id, file, max, at)
      ensures inserted <==> tasks != old(tasks)
    {
      var taskId := if Trim(id) == "" then file else id;
      if Trim(file) == "" || taskId in tasks || HasFile(tasks, file) {
        return false;
      }
      tasks := tasks[taskId := Task(file, Queued, 0, if max <= 0 then 0 else max, None, at)];
      inserted := true;
    }

    /** Claims the selected row if it is still claimable. */
    method Claim(id: string, receipt: string, now: int, leaseDuration: int) returns (found: bool)
      modifies this
      ensures found <==> Claimable(old(tasks), id, now)
      ensures forall issued :: State(tasks, issued + (if found then {receipt} else {}))
                               == Next(State(old(tasks), issued), Step.Claim(id, receipt, now, leaseDuration))
    {
      if id !in tasks || !tasks[id].status.Queued? || tasks[id].availableAt > now {
        return false;
      }
      var duration := leaseDuration;
      if duration <= 0 {
        duration := DEFAULT_LEASE;
      }
      var t := tasks[id];
      tasks := tasks[id := t.(status := Processing, attempts := t.attempts + 1,
          lease := Some(Lease(receipt, now + duration)))];
      found := true;
    }

    method Ack(id: string, receipt: string, now: int) returns (r: Outcome)
      modifies this
      ensures tasks == Next(State(old(tasks), {}), Step.Ack(id, receipt, now)).tasks
      ensures r == Ok <==> Holds(old(tasks), id, receipt, now)
      ensures r == NotFound <==> id !in old(tasks)
    {
      if id !in tasks {
        return NotFound;
      }
      var t := tasks[id];
      if !t.status.Processing? || t.lease.None? || t.lease.value.receipt != receipt || t.lease.value.until <= now {
        return LeaseMismatch;
      }
      tasks := tasks[id := t.(status := Succeeded, lease := None)];
      r := Ok;
    }

    method Retry(id: string, receipt: string, now: int, retryAt: int) returns (r: Outcome)
      modifies this
      ensures tasks == Next(State(old(tasks), {}), Step.Retry(id, receipt, now, retryAt)).tasks
      ensures r == Ok <==> Holds(old(tasks), id, receipt, now)
      ensures r == NotFound <==> id !in old(tasks)
      ensures r == Ok ==> (tasks[id].status.DeadLettered? <==> 0 < tasks[id].maxAttempts <= tasks[id].attempts)
    {
      if id !in tasks {
        return NotFound;
      }
      var t := tasks[id];
      if !t.status.Processing? || t.lease.None? || t.lease.value.receipt != receipt || t.lease.value.until <= now {
        return LeaseMismatch;
      }
      if t.maxAttempts > 0 && t.attempts >= t.maxAttempts {
        tasks := tasks[id := t.(status := DeadLettered, lease := None)];
      } else {
        tasks := tasks[id := t.(status := Queued, lease := None, availableAt := retryAt)];
      }
      r := Ok;
    }

    /** The sweep over the ids its query selected. */
    method RecoverExpired(ids: seq<string>, now: int) returns (recovered: nat)
      requires forall i, j :: 0 <= i < j < |ids| ==> ids[i] != ids[j]
      modifies this
      ensures tasks == Recovered(old(tasks), ids, now)
      ensures recovered == ExpiredCount(old(tasks), ids, now)
    {
      recovered := 0;
      ghost var before := tasks;
      for i := 0 to |ids|
        invariant tasks == Recovered(before, ids[..i], now) && recovered == ExpiredCount(before, ids[..i], now)
      {
        var id := ids[i];
        assert ids[..i + 1] == ids[..i] + [id] && (ids[..i] + [id])[..i] == ids[..i];
        RecoveredSnoc(before, ids[..i], id, now);
        if id in tasks && tasks[id].status.Processing? && tasks[id].lease.Some? && tasks[id].lease.value.until < now {
          tasks := tasks[id := tasks[id].(status := Queued, lease := None, availableAt := now)];
          recovered := recovered + 1;
        }
      }
      assert ids[..|ids|] == ids;
    }
  }

  // ---------------------------------------------------------------- the retry delay

  const RETRY_BASE := 2 * SECOND
  const RETRY_MAX := 120 * SECOND

  function Doubled(base: int, n: nat): int { if n == 0 then base else 2 * Doubled(base, n - 1) }

  lemma {:induction false} DoubledGrows(base: int, m: nat, n: nat)
    requires base > 0 && m <= n
    ensures base <= Doubled(base, m) <= Doubled(base, n)
  {
    if n > 0 {
      DoubledGrows(base, if m == n then m - 1 else m, n - 1);
    }
  }

  function Delay(attempt: int, base: int, max: int): int {
    var b := if base <= 0 then RETRY_BASE else base;
    var m := if max <= 0 then RETRY_MAX else max;
    if attempt <= 1 then b else if Doubled(b, attempt - 1) < m then Doubled(b, attempt - 1) else m
  }

  /** From 2 seconds or the given base, each delay is twice the one before, up to 2 minutes or the given maximum. */
  lemma DelayDoubles(attempt: nat, base: int, max: int)
    requires attempt >= 1
    ensures Delay(1, base, max) == (if base > 0 then base else 2_000_000_000)
    ensures var m, twice := if max > 0 then max else 120_000_000_000, 2 * Delay(attempt, base, max);
            Delay(attempt + 1, base, max) == (if twice < m then twice else m)
  {
    DoubledGrows(if base <= 0 then RETRY_BASE else base, 0, attempt - 1);
  }

  /** Doubles with every attempt and stops at the maximum; the first attempt waits the base even above it. */
  method RetryDelay(attempt: int, base: int, max: int) returns (r: int)
    ensures r == Delay(attempt, base, max)
  {
    var b := if base <= 0 then RETRY_BASE else base;
    var m := if max <= 0 then RETRY_MAX else max;
    if attempt <= 1 {
      return b;
    }
    var delay, i := b, 1;
    while i < attempt && delay < m
      invariant 1 <= i <= attempt && delay == Doubled(b, i - 1)
    {
      delay := delay * 2;
      i := i + 1;
    }
    DoubledGrows(b, i - 1, attempt - 1);
    if delay > m {
      return m;
    }
    r := delay;
  }
}
