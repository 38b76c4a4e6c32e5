/**
 * Runs of the central quota saga: every interleaving of reservations, aborts, log inserts,
 * inline and replayed applies, retries, expiry sweeps and garbage collection.
 */
module QuotaSaga {
  import opened QuotaLedger

  /**
   * AbortRelease and GcDelete carry what the caller read before the transaction began, so a
   * stale read is just another step. `fails` is a transaction the server DB rejected.
   */
  datatype Step =
    | ReserveStep(upload: UploadId, bytes: int, limit: int, expiresAt: int)
    | AbortStep(upload: UploadId, bytes: int)
    | InsertStep(payload: Payload)
    | AttemptStep(id: nat, fails: bool)
    | RetryStep(id: nat)
    | ExpireStep(now: int)
    | GcStep(file: FileId, size: int, isMedia: bool)

  ghost function Next(db: Db, s: Step): Db {
    match s
    case ReserveStep(upload, bytes, limit, expiresAt) => Reserve(db, upload, bytes, limit, expiresAt)
    case AbortStep(upload, bytes) => AbortRelease(db, upload, bytes)
    case InsertStep(payload) => db.(log := db.log + [Entry(payload, Pending, 0)])
    case AttemptStep(id, fails) => if fails then db else Attempt(db, id)
    case RetryStep(id) => Retry(db, id)
    case ExpireStep(now) => Expire(db, now)
    case GcStep(file, size, isMedia) => DeleteMeta(db, file, size, isMedia)
  }

  ghost function Run(db: Db, steps: seq<Step>): Db
    decreases |steps|
  {
    if steps == [] then db else Run(Next(db, steps[0]), steps[1..])
  }

  // ---------------------------------------------------------------- counters equal the rows

  /** What the caller read, or wrote into the payload, is what the rows hold when it commits. */
  predicate Sound(db: Db, s: Step) {
    match s
    case AbortStep(upload, bytes) => bytes == HeldBytes(db, upload)
    case AttemptStep(id, fails) => !fails && IsPending(db, id) ==> Matches(db, db.log[id].payload)
    case GcStep(file, size, isMedia) => file in db.meta ==> db.meta[file] == FileMeta(size, isMedia)
    case _ => true
  }

  lemma AttemptExact(db: Db, id: nat)
    requires Consistent(db) && IsPending(db, id)
    ensures Consistent(Attempt(db, id)) <==> Matches(db, db.log[id].payload)
  {
    var after := Effect(db, db.log[id].payload);
    EffectExact(db, db.log[id].payload);
    assert Consistent(Attempt(db, id)) == Consistent(after);
  }

  lemma ReserveExact(db: Db, upload: UploadId, bytes: int, limit: int, expiresAt: int)
    requires Consistent(db)
    ensures Consistent(Reserve(db, upload, bytes, limit, expiresAt))
  {
    ReservationTotals(db, upload, Reservation(bytes, Active, expiresAt));
  }

  lemma AbortExact(db: Db, upload: UploadId, bytes: int)
    requires Consistent(db)
    ensures Consistent(AbortRelease(db, upload, bytes)) <==> bytes == HeldBytes(db, upload)
  {
    SettleTotals(db, upload, Aborted);
    assert AbortRelease(db, upload, bytes).reservations == Settle(db, upload, Aborted).reservations;
  }

  /** A step keeps every counter equal to its rows exactly when it is sound. */
  lemma StepExact(db: Db, s: Step)
    requires Consistent(db)
    ensures Consistent(Next(db, s)) <==> Sound(db, s)
  {
    match s
    case ReserveStep(upload, bytes, limit, expiresAt) => ReserveExact(db, upload, bytes, limit, expiresAt);
    case AbortStep(upload, bytes) => AbortExact(db, upload, bytes);
    case InsertStep(payload) =>
    case AttemptStep(id, fails) => if !fails && IsPending(db, id) { AttemptExact(db, id); }
    case RetryStep(id) =>
    case ExpireStep(now) => ExpireReleases(db, now);
    case GcStep(file, size, isMedia) => DeleteExact(db, file, size, isMedia);
  }

  ghost predicate SoundRun(db: Db, steps: seq<Step>)
    decreases |steps|
  {
    steps == [] || (Sound(db, steps[0]) && SoundRun(Next(db, steps[0]), steps[1..]))
  }

  lemma {:induction false} SoundRunKeepsCounters(db: Db, steps: seq<Step>)
    requires Consistent(db) && SoundRun(db, steps)
    ensures Consistent(Run(db, steps))
    decreases |steps|
  {
    if steps != [] {
      StepExact(db, steps[0]);
      SoundRunKeepsCounters(Next(db, steps[0]), steps[1..]);
    }
  }

  // ---------------------------------------------------------------- stale reads

  /** A reservation row keeps its size, and a settled one is never active again. */
  lemma RowIsStable(db: Db, s: Step, upload: UploadId)
    requires upload in db.reservations
    ensures upload in Next(db, s).reservations
    ensures Next(db, s).reservations[upload].bytes == db.reservations[upload].bytes
    ensures !db.reservations[upload].status.Active? ==> !Next(db, s).reservations[upload].status.Active?
  {
    match s
    case AttemptStep(id, fails) =>
      if !fails && IsPending(db, id) {
        assert Attempt(db, id).reservations == Effect(db, db.log[id].payload).reservations;
      }
    case _ =>
  }

  lemma {:induction false} RowIsStableOverRuns(db: Db, steps: seq<Step>, upload: UploadId)
    requires upload in db.reservations
    ensures upload in Run(db, steps).reservations
    ensures Run(db, steps).reservations[upload].bytes == db.reservations[upload].bytes
    ensures !db.reservations[upload].status.Active? ==> !Run(db, steps).reservations[upload].status.Active?
    decreases |steps|
  {
    if steps != [] {
      RowIsStable(db, steps[0], upload);
      RowIsStableOverRuns(Next(db, steps[0]), steps[1..], upload);
    }
  }

  /**
   * abortUploadReservation looks the row up, then releases in a later transaction whose status
   * update silently skips a settled row. Whatever ran in between, the release is right exactly
   * when the row is still active (or held nothing).
   */
  lemma StaleAbortExact(db: Db, between: seq<Step>, upload: UploadId)
    requires IsActive(db, upload) && Consistent(Run(db, between))
    ensures Consistent(AbortRelease(Run(db, between), upload, db.reservations[upload].bytes)) <==>
            IsActive(Run(db, between), upload) || db.reservations[upload].bytes == 0
  {
    RowIsStableOverRuns(db, between, upload);
    AbortExact(Run(db, between), upload, db.reservations[upload].bytes);
  }

  /** Two aborts that both looked the row up release it twice. */
  lemma DoubleAbortReleasesTwice(upload: UploadId, bytes: int)
    requires bytes > 0
    ensures var db := Db(0, bytes, 0, 0, map[], map[upload := Reservation(bytes, Active, 0)], []);
            Run(db, [AbortStep(upload, bytes), AbortStep(upload, bytes)]).reserved == -bytes
  {
    var a := AbortStep(upload, bytes);
    var db := Db(0, bytes, 0, 0, map[], map[upload := Reservation(bytes, Active, 0)], []);
    assert [a, a][1..] == [a] && [a][1..] == [];
    assert Run(Next(db, a), [a]) == Next(Next(db, a), a);
  }

  /** The collector's read of the row is likewise used later: exact only if the row is unchanged or gone. */
  lemma StaleGcExact(db: Db, between: seq<Step>, file: FileId)
    requires file in db.meta && Consistent(Run(db, between))
    ensures var now := Run(db, between);
            Consistent(DeleteMeta(now, file, db.meta[file].size, db.meta[file].isMedia)) <==>
            (file in now.meta ==> now.meta[file] == db.meta[file])
  {
    DeleteExact(Run(db, between), file, db.meta[file].size, db.meta[file].isMedia);
  }

  // ---------------------------------------------------------------- settle branches

  /** The sweep of one row more or less: completing an upload takes its row out of later sweeps. */
  lemma SweepWithoutRow(db: Db, p: Payload, now: int)
    requires p.UploadComplete?
    ensures Total(ExpiredBytes(CompleteUpload(db, p).reservations, now)) ==
            Total(ExpiredBytes(db.reservations, now)) - At(ExpiredBytes(db.reservations, now), p.upload)
  {
    var rows := db.reservations;
    CompleteUploadColumns(db, p);
    if IsActive(db, p.upload) {
      var settled := rows[p.upload := rows[p.upload].(status := Completed)];
      assert ExpiredBytes(settled, now) == ExpiredBytes(rows, now)[p.upload := 0];
      TotalUpdate(ExpiredBytes(rows, now), p.upload, 0);
    }
  }

  /** Settling and sweeping touch a row once, whichever comes first. */
  lemma SweptRows(db: Db, upload: UploadId, now: int)
    ensures var late, early := Settle(Expire(db, now), upload, Completed).reservations,
                               ExpireRows(Settle(db, upload, Completed).reservations, now);
            && late == (if Sweeps(db, upload, now)
                        then early[upload := db.reservations[upload].(status := Aborted)] else early)
            && (IsActive(Expire(db, now), upload) <==> IsActive(db, upload) && !Sweeps(db, upload, now))
  {
  }

  /** The sweep takes this upload's own row. */
  predicate Sweeps(db: Db, upload: UploadId, now: int) {
    upload in db.reservations && Expired(db.reservations[upload], now)
  }

  /**
   * An expiry sweep that overtakes the completion of an upload sends it into the other settle
   * branch. Both orders end on the same counters and file rows, exactly when the row was not
   * swept or the payload's reserved and new sizes are the row's bytes. The reservation rows
   * then differ in the name of the swept row's final status only.
   */
  lemma SettleBranchesAgree(db: Db, p: Payload, now: int)
    requires p.UploadComplete?
    ensures var late, early := CompleteUpload(Expire(db, now), p), Expire(CompleteUpload(db, p), now);
            && (late.(reservations := map[]) == early.(reservations := map[]) <==>
                (Sweeps(db, p.upload, now) ==> db.reservations[p.upload].bytes == p.reserved == p.newSize))
            && late.reservations == (if Sweeps(db, p.upload, now)
                                     then early.reservations[p.upload := db.reservations[p.upload].(status := Aborted)]
                                     else early.reservations)
  {
    SweepWithoutRow(db, p, now);
    SweptRows(db, p.upload, now);
    CompleteUploadColumns(db, p);
    CompleteUploadColumns(Expire(db, now), p);
  }

  // ---------------------------------------------------------------- exactly once

  datatype Counter = StorageBytes | MediaFiles | LlmCostTotal

  function Value(db: Db, c: Counter): int {
    match c case StorageBytes => db.storage case MediaFiles => db.media case LlmCostTotal => db.llmCost
  }

  /** finalizeUpload passes the upload's total size both as reserved and as new size. */
  predicate FromCallers(p: Payload) {
    !p.FileDelete? && (p.UploadComplete? ==> p.reserved == p.newSize)
  }

  /** What a mutation is worth to a counter, whatever state it meets. */
  function Worth(c: Counter, p: Payload): int {
    match c
    case StorageBytes =>
      if p.FileCreate? then p.size
      else if p.FileOverwrite? || p.UploadComplete? then p.newSize - p.oldSize
      else 0
    case MediaFiles =>
      if p.FileCreate? then MediaUnit(p.isMedia)
      else if p.FileOverwrite? || p.UploadComplete? then MediaUnit(p.newMedia) - MediaUnit(p.oldMedia)
      else 0
    case LlmCostTotal => if p.LlmCost? then p.cost else 0
  }

  function WorthSum(c: Counter, ps: seq<Payload>): int {
    if ps == [] then 0 else Worth(c, ps[0]) + WorthSum(c, ps[1..])
  }

  function AppliedPayloads(log: seq<Entry>): seq<Payload> {
    if log == [] then []
    else (if log[0].status.Applied? then [log[0].payload] else []) + AppliedPayloads(log[1..])
  }

  function AppliedTotal(c: Counter, log: seq<Entry>): int {
    if log == [] then 0
    else (if log[0].status.Applied? then Worth(c, log[0].payload) else 0) + AppliedTotal(c, log[1..])
  }

  predicate LogFromCallers(log: seq<Entry>) { forall i :: 0 <= i < |log| ==> FromCallers(log[i].payload) }

  predicate StepFromCallers(s: Step) { s.InsertStep? ==> FromCallers(s.payload) }

  lemma EffectCharges(db: Db, p: Payload, c: Counter)
    requires FromCallers(p)
    ensures Value(Effect(db, p), c) == Value(db, c) + Worth(c, p)
  {
  }

  /** Rewriting a pending entry moves the applied total by what the new entry is worth. */
  lemma {:induction false} AppliedTotalUpdate(c: Counter, log: seq<Entry>, id: nat, e: Entry)
    requires id < |log| && !log[id].status.Applied?
    ensures AppliedTotal(c, log[id := e]) == AppliedTotal(c, log) + if e.status.Applied? then Worth(c, e.payload) else 0
  {
    if id == 0 {
      assert log[id := e][1..] == log[1..];
    } else {
      assert log[id := e][1..] == log[1..][id - 1 := e];
      AppliedTotalUpdate(c, log[1..], id - 1, e);
    }
  }

  lemma {:induction false} AppliedTotalSnoc(c: Counter, log: seq<Entry>, e: Entry)
    requires e.status.Pending?
    ensures AppliedTotal(c, log + [e]) == AppliedTotal(c, log)
  {
    if log == [] {
      assert (log + [e])[1..] == [];
    } else {
      assert (log + [e])[1..] == log[1..] + [e];
      AppliedTotalSnoc(c, log[1..], e);
    }
  }

  /** What a collection step takes out of a counter. */
  function CollectedBy(db: Db, s: Step, c: Counter): int {
    if s.GcStep? && s.file in db.meta then
      match c case StorageBytes => s.size case MediaFiles => MediaUnit(s.isMedia) case LlmCostTotal => 0
    else 0
  }

  ghost function Collected(db: Db, steps: seq<Step>, c: Counter): int
    decreases |steps|
  {
    if steps == [] then 0 else CollectedBy(db, steps[0], c) + Collected(Next(db, steps[0]), steps[1..], c)
  }

  /** The part of a counter that no applied entry explains. */
  function Unexplained(db: Db, c: Counter): int { Value(db, c) - AppliedTotal(c, db.log) }

  lemma AttemptAccounts(db: Db, id: nat, c: Counter)
    requires LogFromCallers(db.log) && IsPending(db, id)
    ensures LogFromCallers(Attempt(db, id).log) && Unexplained(Attempt(db, id), c) == Unexplained(db, c)
  {
    EffectCharges(db, db.log[id].payload, c);
    AppliedTotalUpdate(c, db.log, id, db.log[id].(status := Applied));
  }

  lemma RetryAccounts(db: Db, id: nat, c: Counter)
    requires LogFromCallers(db.log) && IsPending(db, id)
    ensures LogFromCallers(Retry(db, id).log) && Unexplained(Retry(db, id), c) == Unexplained(db, c)
  {
    AppliedTotalUpdate(c, db.log, id, Retry(db, id).log[id]);
  }

  lemma StepAccounts(db: Db, s: Step, c: Counter)
    requires LogFromCallers(db.log) && StepFromCallers(s)
    ensures LogFromCallers(Next(db, s).log)
    ensures Unexplained(Next(db, s), c) == Unexplained(db, c) - CollectedBy(db, s, c)
  {
    match s
    case InsertStep(payload) => AppliedTotalSnoc(c, db.log, Entry(payload, Pending, 0));
    case AttemptStep(id, fails) => if !fails && IsPending(db, id) { AttemptAccounts(db, id, c); }
    case RetryStep(id) => if IsPending(db, id) { RetryAccounts(db, id, c); }
    case _ =>
  }

  /**
   * Over every run, each counter moves by exactly the entries that are marked applied, each
   * counted once, less what was collected: a rolled-back or repeated apply moves nothing.
   */
  lemma {:induction false} CountersFollowTheLog(db: Db, steps: seq<Step>, c: Counter)
    requires LogFromCallers(db.log) && forall i :: 0 <= i < |steps| ==> StepFromCallers(steps[i])
    ensures Unexplained(Run(db, steps), c) == Unexplained(db, c) - Collected(db, steps, c)
    decreases |steps|
  {
    if steps != [] {
      StepAccounts(db, steps[0], c);
      CountersFollowTheLog(Next(db, steps[0]), steps[1..], c);
    }
  }

  // ---------------------------------------------------------------- order of application

  lemma {:induction false} AppliedTotalIsSum(c: Counter, log: seq<Entry>)
    ensures AppliedTotal(c, log) == WorthSum(c, AppliedPayloads(log))
  {
    if log != [] {
      AppliedTotalIsSum(c, log[1..]);
      if log[0].status.Applied? {
        assert AppliedPayloads(log)[1..] == AppliedPayloads(log[1..]);
      } else {
        assert AppliedPayloads(log) == AppliedPayloads(log[1..]);
      }
    }
  }

  lemma {:induction false} WorthSumTakeOut(c: Counter, ps: seq<Payload>, k: nat)
    requires k < |ps|
    ensures WorthSum(c, ps) == Worth(c, ps[k]) + WorthSum(c, ps[..k] + ps[k + 1..])
  {
    if k == 0 {
      assert ps[..0] + ps[1..] == ps[1..];
    } else {
      var rest := ps[..k] + ps[k + 1..];
      assert rest[0] == ps[0] && rest[1..] == ps[1..][..k - 1] + ps[1..][k..];
      WorthSumTakeOut(c, ps[1..], k - 1);
    }
  }

  lemma TakeOutOfBag<T>(b: seq<T>, k: nat)
    requires k < |b|
    ensures multiset(b[..k] + b[k + 1..]) == multiset(b) - multiset{b[k]}
  {
    assert b == b[..k] + [b[k]] + b[k + 1..];
    assert multiset(b) == multiset(b[..k]) + multiset{b[k]} + multiset(b[k + 1..]);
  }

  lemma FirstOutOfBag<T>(a: seq<T>)
    requires a != []
    ensures multiset(a[1..]) == multiset(a) - multiset{a[0]}
  {
    assert a == [a[0]] + a[1..];
  }

  lemma SameBagRest<T>(a: seq<T>, b: seq<T>) returns (k: nat)
    requires multiset(a) == multiset(b) && a != []
    ensures k < |b| && b[k] == a[0] && multiset(a[1..]) == multiset(b[..k] + b[k + 1..])
  {
    assert a[0] in multiset(b);
    k :| 0 <= k < |b| && b[k] == a[0];
    TakeOutOfBag(b, k);
    FirstOutOfBag(a);
  }

  lemma {:induction false} WorthSumOrder(c: Counter, a: seq<Payload>, b: seq<Payload>)
    requires multiset(a) == multiset(b)
    ensures WorthSum(c, a) == WorthSum(c, b)
    decreases |a|
  {
    if a == [] {
      assert |b| == |multiset(b)|;
    } else {
      var k := SameBagRest(a, b);
      WorthSumTakeOut(c, b, k);
      WorthSumOrder(c, a[1..], b[..k] + b[k + 1..]);
    }
  }

  /** Two runs that applied the same mutations, in any order and by any path, end on the same counters. */
  lemma OrderDoesNotMatter(db: Db, one: seq<Step>, two: seq<Step>, c: Counter)
    requires LogFromCallers(db.log)
    requires forall i :: 0 <= i < |one| ==> StepFromCallers(one[i]) && !one[i].GcStep?
    requires forall i :: 0 <= i < |two| ==> StepFromCallers(two[i]) && !two[i].GcStep?
    requires multiset(AppliedPayloads(Run(db, one).log)) == multiset(AppliedPayloads(Run(db, two).log))
    ensures Value(Run(db, one), c) == Value(Run(db, two), c)
  {
    CountersFollowTheLog(db, one, c);
    CountersFollowTheLog(db, two, c);
    NothingCollected(db, one, c);
    NothingCollected(db, two, c);
    AppliedTotalIsSum(c, Run(db, one).log);
    AppliedTotalIsSum(c, Run(db, two).log);
    WorthSumOrder(c, AppliedPayloads(Run(db, one).log), AppliedPayloads(Run(db, two).log));
  }

  lemma {:induction false} NothingCollected(db: Db, steps: seq<Step>, c: Counter)
    requires forall i :: 0 <= i < |steps| ==> !steps[i].GcStep?
    ensures Collected(db, steps, c) == 0
    decreases |steps|
  {
    if steps != [] {
      NothingCollected(Next(db, steps[0]), steps[1..], c);
    }
  }

  /** An entry keeps its payload, and applied or failed is final. */
  lemma {:induction false} SettledEntriesStay(db: Db, steps: seq<Step>, id: nat)
    requires id < |db.log|
    ensures id < |Run(db, steps).log| && Run(db, steps).log[id].payload == db.log[id].payload
    ensures !db.log[id].status.Pending? ==> Run(db, steps).log[id] == db.log[id]
    decreases |steps|
  {
    if steps != [] {
      EntryStays(db, steps[0], id);
      SettledEntriesStay(Next(db, steps[0]), steps[1..], id);
    }
  }

  lemma EntryStays(db: Db, s: Step, id: nat)
    requires id < |db.log|
    ensures id < |Next(db, s).log| && Next(db, s).log[id].payload == db.log[id].payload
    ensures !db.log[id].status.Pending? ==> Next(db, s).log[id] == db.log[id]
    ensures |db.log| <= |Next(db, s).log|
  {
  }

  // ---------------------------------------------------------------- the collector's guard

  /** The payload writes a row for the file. */
  predicate Writes(p: Payload, file: FileId) {
    (p.FileCreate? || p.FileOverwrite? || p.UploadComplete?) && p.file == file
  }

  predicate HasPendingUpload(db: Db, file: FileId) {
    exists id :: 0 <= id < |db.log| && db.log[id].status.Pending?
                 && db.log[id].payload.UploadComplete? && db.log[id].payload.file == file
  }

  /** No step of the run logs a new write of the file. */
  predicate NoNewWrites(steps: seq<Step>, file: FileId) {
    forall s :: s in steps && s.InsertStep? ==> !Writes(s.payload, file)
  }

  predicate NothingPendingFor(db: Db, file: FileId) {
    forall e :: e in db.log && e.status.Pending? ==> !Writes(e.payload, file)
  }

  lemma OtherEffectsSpareRow(db: Db, p: Payload, file: FileId)
    requires file !in db.meta && !Writes(p, file)
    ensures file !in Effect(db, p).meta
  {
  }

  lemma StaysCollected(db: Db, s: Step, file: FileId)
    requires file !in db.meta && NothingPendingFor(db, file)
    requires s.InsertStep? ==> !Writes(s.payload, file)
    ensures file !in Next(db, s).meta && NothingPendingFor(Next(db, s), file)
  {
    if s.AttemptStep? && !s.fails && IsPending(db, s.id) {
      OtherEffectsSpareRow(db, db.log[s.id].payload, file);
    }
  }

  lemma {:induction false} StaysCollectedOverRuns(db: Db, steps: seq<Step>, file: FileId)
    requires file !in db.meta && NothingPendingFor(db, file) && NoNewWrites(steps, file)
    ensures file !in Run(db, steps).meta
    decreases |steps|
  {
    if steps != [] {
      StaysCollected(db, steps[0], file);
      StaysCollectedOverRuns(Next(db, steps[0]), steps[1..], file);
    }
  }

  /** What may still write the file is what the guard looks for and the upload completions it does not. */
  lemma PendingSplits(db: Db, file: FileId)
    ensures NothingPendingFor(db, file) <==> !HasPendingFileMutation(db, file) && !HasPendingUpload(db, file)
  {
    if !NothingPendingFor(db, file) {
      var id :| 0 <= id < |db.log| && db.log[id].status.Pending? && Writes(db.log[id].payload, file);
    }
  }

  /** Logging nothing new for the file, a run cannot make its create or overwrite pending. */
  lemma {:induction false} GuardPersists(db: Db, steps: seq<Step>, file: FileId)
    requires !HasPendingFileMutation(db, file) && NoNewWrites(steps, file)
    ensures !HasPendingFileMutation(Run(db, steps), file)
    decreases |steps|
  {
    if steps != [] {
      GuardStep(db, steps[0], file);
      GuardPersists(Next(db, steps[0]), steps[1..], file);
    }
  }

  lemma GuardStep(db: Db, s: Step, file: FileId)
    requires !HasPendingFileMutation(db, file) && (s.InsertStep? ==> !Writes(s.payload, file))
    ensures !HasPendingFileMutation(Next(db, s), file)
  {
    var log := Next(db, s).log;
    forall id | 0 <= id < |log| && log[id].status.Pending?
                && (log[id].payload.FileCreate? || log[id].payload.FileOverwrite?)
      ensures log[id].payload.file != file
    {
      if id < |db.log| {
        EntryStays(db, s, id);
      }
    }
  }

  /** No continuation of the run that logs no new write of the file brings its row back. */
  ghost predicate StaysGone(db: Db, file: FileId) {
    forall steps :: NoNewWrites(steps, file) ==> file !in Run(db, steps).meta
  }

  lemma ReplayRestores(db: Db, id: nat, file: FileId)
    requires IsPending(db, id) && Writes(db.log[id].payload, file)
    ensures file in Run(db, [AttemptStep(id, false)]).meta && NoNewWrites([AttemptStep(id, false)], file)
  {
    assert [AttemptStep(id, false)][1..] == [];
    assert file in Effect(db, db.log[id].payload).meta;
  }

  /** A row that is gone stays gone exactly when no write of the file is pending. */
  lemma StaysGoneExactly(db: Db, file: FileId)
    requires file !in db.meta
    ensures StaysGone(db, file) <==> NothingPendingFor(db, file)
  {
    if NothingPendingFor(db, file) {
      forall steps | NoNewWrites(steps, file)
        ensures file !in Run(db, steps).meta
      {
        StaysCollectedOverRuns(db, steps, file);
      }
    } else {
      var id :| 0 <= id < |db.log| && db.log[id].status.Pending? && Writes(db.log[id].payload, file);
      ReplayRestores(db, id, file);
    }
  }

  /**
   * The collector reads its guard, and deletes the row in a later transaction; `between` is
   * everything from the one to the other, the deletion included. The row stays gone exactly
   * when no write of the file is pending by then. If none was logged meanwhile, that is when
   * no upload completion is pending: creates and overwrites the guard has ruled out, but it
   * does not look at completions.
   */
  lemma CollectorGuardExact(db: Db, between: seq<Step>, file: FileId)
    requires !HasPendingFileMutation(db, file) && file !in Run(db, between).meta
    ensures StaysGone(Run(db, between), file) <==> NothingPendingFor(Run(db, between), file)
    ensures NoNewWrites(between, file) ==>
              (StaysGone(Run(db, between), file) <==> !HasPendingUpload(Run(db, between), file))
  {
    StaysGoneExactly(Run(db, between), file);
    if NoNewWrites(between, file) {
      GuardPersists(db, between, file);
      PendingSplits(Run(db, between), file);
    }
  }

  /** An overwrite logged after the guard was read outlives the deletion, and its replay restores the row. */
  lemma StaleGuardRestores(db: Db, p: Payload, size: int, isMedia: bool)
    requires p.FileOverwrite?
    ensures var gone := Next(Next(db, InsertStep(p)), GcStep(p.file, size, isMedia));
            p.file !in gone.meta && p.file in Run(gone, [AttemptStep(|db.log|, false)]).meta
  {
    var gone := Next(Next(db, InsertStep(p)), GcStep(p.file, size, isMedia));
    PendingAfterGc(db, p, size, isMedia);
    ReplayRestores(gone, |db.log|, p.file);
  }

  lemma PendingAfterGc(db: Db, p: Payload, size: int, isMedia: bool)
    requires p.FileOverwrite?
    ensures var gone := Next(Next(db, InsertStep(p)), GcStep(p.file, size, isMedia));
            p.file !in gone.meta && IsPending(gone, |db.log|) && gone.log[|db.log|].payload == p
  {
  }

  // ---------------------------------------------------------------- collecting again

  /** Step k of the run collects the file and changes nothing. */
  ghost predicate CollectsInVain(db: Db, steps: seq<Step>, k: nat, file: FileId)
    requires k < |steps|
  {
    steps[k].GcStep? && steps[k].file == file ==> Next(Run(db, steps[..k]), steps[k]) == Run(db, steps[..k])
  }

  /**
   * Once the row is gone, every later collection of the file changes nothing, whatever else
   * commits in between and whatever it read: exactly when no write of the file was pending.
   */
  lemma LaterGcIsInVain(db: Db, file: FileId)
    requires file !in db.meta
    ensures (forall steps, k :: 0 <= k < |steps| && NoNewWrites(steps, file) ==> CollectsInVain(db, steps, k, file))
            <==> NothingPendingFor(db, file)
  {
    if NothingPendingFor(db, file) {
      forall steps, k | 0 <= k < |steps| && NoNewWrites(steps, file)
        ensures CollectsInVain(db, steps, k, file)
      {
        StaysCollectedOverRuns(db, steps[..k], file);
      }
    } else {
      var id :| 0 <= id < |db.log| && db.log[id].status.Pending? && Writes(db.log[id].payload, file);
      ReplayRestores(db, id, file);
      var steps := [AttemptStep(id, false), GcStep(file, 0, false)];
      assert steps[..1] == [AttemptStep(id, false)];
      assert file !in Next(Run(db, steps[..1]), steps[1]).meta;
      assert NoNewWrites(steps, file) && !CollectsInVain(db, steps, 1, file);
    }
  }

  /** What the collections of one file take out of a counter over a run. */
  ghost function CollectedOf(db: Db, steps: seq<Step>, file: FileId, c: Counter): int
    decreases |steps|
  {
    if steps == [] then 0
    else (if steps[0].GcStep? && steps[0].file == file then CollectedBy(db, steps[0], c) else 0)
         + CollectedOf(Next(db, steps[0]), steps[1..], file, c)
  }

  lemma {:induction false} NothingMoreCollected(db: Db, steps: seq<Step>, file: FileId, c: Counter)
    requires file !in db.meta && NothingPendingFor(db, file) && NoNewWrites(steps, file)
    ensures CollectedOf(db, steps, file, c) == 0
    decreases |steps|
  {
    if steps != [] {
      StaysCollected(db, steps[0], file);
      NothingMoreCollected(Next(db, steps[0]), steps[1..], file, c);
    }
  }

  /** A collection and any run after it, with further collections of the file anywhere, subtract once. */
  lemma GcSubtractsOnce(db: Db, file: FileId, first: FileMeta, rest: seq<Step>, c: Counter)
    requires NothingPendingFor(db, file) && NoNewWrites(rest, file)
    ensures var collect := GcStep(file, first.size, first.isMedia);
            CollectedOf(db, [collect] + rest, file, c) == CollectedBy(db, collect, c)
  {
    var collect := GcStep(file, first.size, first.isMedia);
    assert ([collect] + rest)[1..] == rest;
    NothingMoreCollected(Next(db, collect), rest, file, c);
  }

  // ---------------------------------------------------------------- reserve

  /** A reservation never takes the tenant past its limit, and a refusal changes nothing. */
  lemma ReserveRespectsLimit(db: Db, upload: UploadId, bytes: int, limit: int, expiresAt: int)
    ensures var after := Reserve(db, upload, bytes, limit, expiresAt);
            && (after != db ==> after.storage + after.reserved <= limit && upload !in db.reservations)
            && (ReserveOutcomeOf(db, upload, bytes, limit).QuotaExceeded? ==> after == db)
  {
  }

  /**
   * A retried initiate never claims twice; it is recognised as a duplicate exactly when it
   * would still fit, because the quota test runs first.
   */
  lemma RetriedReserve(db: Db, upload: UploadId, bytes: int, limit: int, expiresAt: int)
    requires upload in db.reservations
    ensures Reserve(db, upload, bytes, limit, expiresAt) == db
    ensures ReserveOutcomeOf(db, upload, bytes, limit).AlreadyExists? <==> db.storage + db.reserved + bytes <= limit
  {
  }
}
