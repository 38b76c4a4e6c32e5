/**
 * The central quota of one tenant: counters, per-file shadow metadata, upload reservations
 * and the durable mutation log (pkg/backend/upload_reservation.go, quota_mutation.go,
 * mutation_replay.go, file_gc_worker.go over the store of pkg/meta/quota.go). One server-DB
 * transaction is one step; a transaction that fails leaves the database as it was.
 */
module QuotaLedger {

  type FileId = string
  type UploadId = string

  datatype FileMeta = FileMeta(size: int, isMedia: bool)
  datatype ReservationStatus = Active | Completed | Aborted
  datatype Reservation = Reservation(bytes: int, status: ReservationStatus, expiresAt: int)

  datatype Payload =
    | FileCreate(file: FileId, size: int, isMedia: bool)
    | FileOverwrite(file: FileId, oldSize: int, oldMedia: bool, newSize: int, newMedia: bool)
    | FileDelete(file: FileId, size: int, isMedia: bool)
    | UploadComplete(upload: UploadId, file: FileId, reserved: int,
                     oldSize: int, oldMedia: bool, newSize: int, newMedia: bool)
    | LlmCost(cost: int)
    | UnknownType

  datatype EntryStatus = Pending | Applied | Failed
  datatype Entry = Entry(payload: Payload, status: EntryStatus, retries: nat)

  /** The rows of one tenant; a log id is an index into `log`. */
  datatype Db = Db(storage: int, reserved: int, media: int, llmCost: int,
                   meta: map<FileId, FileMeta>,
                   reservations: map<UploadId, Reservation>,
                   log: seq<Entry>)

  const REPLAY_MAX_RETRIES := 5

  // ---------------------------------------------------------------- transactions

  function Charge(db: Db, bytes: int, files: int): Db {
    db.(storage := db.storage + bytes, media := db.media + files)
  }

  function MediaDelta(oldMedia: bool, newMedia: bool): int {
    if !oldMedia && newMedia then 1 else if oldMedia && !newMedia then -1 else 0
  }

  function MediaUnit(isMedia: bool): int { if isMedia then 1 else 0 }

  function Upsert(db: Db, file: FileId, size: int, isMedia: bool): Db {
    db.(meta := db.meta[file := FileMeta(size, isMedia)])
  }

  /** DeleteFileMetaIfExistsTx with the counter updates that follow a deletion. */
  function DeleteMeta(db: Db, file: FileId, size: int, isMedia: bool): Db {
    if file in db.meta then Charge(db.(meta := db.meta - {file}), -size, -MediaUnit(isMedia)) else db
  }

  predicate IsActive(db: Db, upload: UploadId) {
    upload in db.reservations && db.reservations[upload].status.Active?
  }

  /** The status update guarded by status = 'active', shared by settle and abort. */
  function Settle(db: Db, upload: UploadId, status: ReservationStatus): Db {
    if IsActive(db, upload)
    then db.(reservations := db.reservations[upload := db.reservations[upload].(status := status)])
    else db
  }

  function CompleteUpload(db: Db, p: Payload): Db
    requires p.UploadComplete?
  {
    var settled := Settle(db, p.upload, Completed);
    var paid := if IsActive(db, p.upload)
                then Charge(settled.(reserved := settled.reserved - p.reserved), p.reserved, 0)
                else Charge(settled, p.newSize, 0);
    Charge(Upsert(paid, p.file, p.newSize, p.newMedia), -p.oldSize, MediaDelta(p.oldMedia, p.newMedia))
  }

  /** applyMutation: what one log entry does to the tenant's rows. */
  function Effect(db: Db, p: Payload): Db {
    match p
    case FileCreate(file, size, isMedia) => Charge(Upsert(db, file, size, isMedia), size, MediaUnit(isMedia))
    case FileOverwrite(file, oldSize, oldMedia, newSize, newMedia) =>
      Charge(Upsert(db, file, newSize, newMedia), newSize - oldSize, MediaDelta(oldMedia, newMedia))
    case FileDelete(file, size, isMedia) => DeleteMeta(db, file, size, isMedia)
    case UploadComplete(_, _, _, _, _, _, _) => CompleteUpload(db, p)
    case LlmCost(cost) => db.(llmCost := db.llmCost + cost)
    case UnknownType => db
  }

  predicate IsPending(db: Db, id: nat) { id < |db.log| && db.log[id].status.Pending? }

  /** One apply transaction, inline or replayed; it rolls back unless the entry is pending. */
  function Attempt(db: Db, id: nat): Db {
    if IsPending(db, id)
    then Effect(db, db.log[id].payload).(log := db.log[id := db.log[id].(status := Applied)])
    else db
  }

  function Retry(db: Db, id: nat): Db {
    if IsPending(db, id) then
      var e := db.log[id];
      db.(log := db.log[id := e.(retries := e.retries + 1,
                                 status := if e.retries + 1 >= REPLAY_MAX_RETRIES then Failed else Pending)])
    else db
  }

  datatype ReserveOutcome = Reserved | QuotaExceeded | AlreadyExists

  /** AtomicReserveAndInsertUpload: the quota test comes before the duplicate test. */
  function ReserveOutcomeOf(db: Db, upload: UploadId, bytes: int, limit: int): ReserveOutcome {
    if db.storage + db.reserved + bytes > limit then QuotaExceeded
    else if upload in db.reservations then AlreadyExists
    else Reserved
  }

  function Reserve(db: Db, upload: UploadId, bytes: int, limit: int, expiresAt: int): Db {
    if ReserveOutcomeOf(db, upload, bytes, limit).Reserved?
    then db.(reserved := db.reserved + bytes,
             reservations := db.reservations[upload := Reservation(bytes, Active, expiresAt)])
    else db
  }

  /** The transaction of abortUploadReservation; `bytes` was read before it started. */
  function AbortRelease(db: Db, upload: UploadId, bytes: int): Db {
    Settle(db.(reserved := db.reserved - bytes), upload, Aborted)
  }

  function Expired(r: Reservation, now: int): bool { r.status.Active? && r.expiresAt < now }

  function ExpireRows(rs: map<UploadId, Reservation>, now: int): map<UploadId, Reservation> {
    map u | u in rs :: if Expired(rs[u], now) then rs[u].(status := Aborted) else rs[u]
  }

  ghost function Expire(db: Db, now: int): Db {
    db.(reserved := db.reserved - Total(ExpiredBytes(db.reservations, now)),
        reservations := ExpireRows(db.reservations, now))
  }

  /** HasPendingFileMutation: it looks for creates and overwrites only. */
  predicate HasPendingFileMutation(db: Db, file: FileId) {
    exists id :: 0 <= id < |db.log| && db.log[id].status.Pending?
                 && (db.log[id].payload.FileCreate? || db.log[id].payload.FileOverwrite?)
                 && db.log[id].payload.file == file
  }

  // ---------------------------------------------------------------- totals over rows

  ghost function Total(m: map<string, int>): int
    decreases |m|
  {
    if m == map[] then 0 else
      var k :| k in m;
      m[k] + Total(m - {k})
  }

  lemma {:induction false} TotalWithout(m: map<string, int>, k: string)
    requires k in m
    ensures Total(m) == m[k] + Total(m - {k})
    decreases |m|
  {
    var j :| j in m && Total(m) == m[j] + Total(m - {j});
    if j != k {
      TotalWithout(m - {j}, k);
      TotalWithout(m - {k}, j);
      assert m - {j} - {k} == m - {k} - {j};
    }
  }

  function At(m: map<string, int>, k: string): int { if k in m then m[k] else 0 }

  lemma TotalUpdate(m: map<string, int>, k: string, v: int)
    ensures Total(m[k := v]) == Total(m) - At(m, k) + v
    ensures Total(m - {k}) == Total(m) - At(m, k)
  {
    TotalWithout(m[k := v], k);
    assert m[k := v] - {k} == m - {k};
    if k in m {
      TotalWithout(m, k);
    } else {
      assert m - {k} == m;
    }
  }

  function Sizes(meta: map<FileId, FileMeta>): map<string, int> { map f | f in meta :: meta[f].size }
  function MediaUnits(meta: map<FileId, FileMeta>): map<string, int> { map f | f in meta :: MediaUnit(meta[f].isMedia) }
  function ActiveBytes(rs: map<UploadId, Reservation>): map<string, int> {
    map u | u in rs :: if rs[u].status.Active? then rs[u].bytes else 0
  }
  function ExpiredBytes(rs: map<UploadId, Reservation>, now: int): map<string, int> {
    map u | u in rs :: if Expired(rs[u], now) then rs[u].bytes else 0
  }

  lemma {:induction false} TotalMinus(a: map<string, int>, b: map<string, int>, c: map<string, int>)
    requires a.Keys == b.Keys == c.Keys
    requires forall k :: k in a ==> a[k] == b[k] + c[k]
    ensures Total(a) == Total(b) + Total(c)
    decreases |a|
  {
    if a != map[] {
      var k :| k in a;
      TotalWithout(a, k);
      TotalWithout(b, k);
      TotalWithout(c, k);
      TotalMinus(a - {k}, b - {k}, c - {k});
    } else {
      assert b == map[] && c == map[];
    }
  }

  // ---------------------------------------------------------------- the counters agree with the rows

  ghost predicate Consistent(db: Db) {
    && db.storage == Total(Sizes(db.meta))
    && db.media == Total(MediaUnits(db.meta))
    && db.reserved == Total(ActiveBytes(db.reservations))
  }

  function CurSize(db: Db, file: FileId): int { if file in db.meta then db.meta[file].size else 0 }
  predicate CurMedia(db: Db, file: FileId) { file in db.meta && db.meta[file].isMedia }
  function HeldBytes(db: Db, upload: UploadId): int {
    if IsActive(db, upload) then db.reservations[upload].bytes else 0
  }

  lemma SizeTotals(db: Db, file: FileId, v: FileMeta)
    ensures Total(Sizes(db.meta[file := v])) == Total(Sizes(db.meta)) - CurSize(db, file) + v.size
    ensures Total(Sizes(db.meta - {file})) == Total(Sizes(db.meta)) - CurSize(db, file)
  {
    assert Sizes(db.meta[file := v]) == Sizes(db.meta)[file := v.size];
    assert Sizes(db.meta - {file}) == Sizes(db.meta) - {file};
    TotalUpdate(Sizes(db.meta), file, v.size);
  }

  lemma MediaTotals(db: Db, file: FileId, v: FileMeta)
    ensures Total(MediaUnits(db.meta[file := v])) ==
            Total(MediaUnits(db.meta)) - MediaUnit(CurMedia(db, file)) + MediaUnit(v.isMedia)
    ensures Total(MediaUnits(db.meta - {file})) == Total(MediaUnits(db.meta)) - MediaUnit(CurMedia(db, file))
  {
    assert MediaUnits(db.meta[file := v]) == MediaUnits(db.meta)[file := MediaUnit(v.isMedia)];
    assert MediaUnits(db.meta - {file}) == MediaUnits(db.meta) - {file};
    TotalUpdate(MediaUnits(db.meta), file, MediaUnit(v.isMedia));
  }

  lemma ReservationTotals(db: Db, upload: UploadId, r: Reservation)
    ensures Total(ActiveBytes(db.reservations[upload := r])) ==
            Total(ActiveBytes(db.reservations)) - HeldBytes(db, upload) + (if r.status.Active? then r.bytes else 0)
  {
    TotalUpdate(ActiveBytes(db.reservations), upload, if r.status.Active? then r.bytes else 0);
    assert ActiveBytes(db.reservations[upload := r]) ==
           ActiveBytes(db.reservations)[upload := if r.status.Active? then r.bytes else 0];
  }

  lemma SettleTotals(db: Db, upload: UploadId, status: ReservationStatus)
    requires !status.Active?
    ensures Total(ActiveBytes(Settle(db, upload, status).reservations)) ==
            Total(ActiveBytes(db.reservations)) - HeldBytes(db, upload)
  {
    if IsActive(db, upload) {
      ReservationTotals(db, upload, db.reservations[upload].(status := status));
    }
  }

  /** The payload's claims about the old file, and about its reservation, are what the rows hold. */
  predicate Matches(db: Db, p: Payload) {
    match p
    case FileCreate(file, _, _) => CurSize(db, file) == 0 && !CurMedia(db, file)
    case FileOverwrite(file, oldSize, oldMedia, _, _) => oldSize == CurSize(db, file) && oldMedia == CurMedia(db, file)
    case FileDelete(file, size, isMedia) => file in db.meta ==> db.meta[file] == FileMeta(size, isMedia)
    case UploadComplete(upload, file, reserved, oldSize, oldMedia, newSize, _) =>
      && oldMedia == CurMedia(db, file)
      && (if IsActive(db, upload)
          then reserved == db.reservations[upload].bytes && reserved - oldSize == newSize - CurSize(db, file)
          else oldSize == CurSize(db, file))
    case _ => true
  }

  /** Upserting a file's row while charging ds bytes and dm media files. */
  lemma UpsertExact(db: Db, file: FileId, size: int, isMedia: bool, ds: int, dm: int)
    ensures Charge(Upsert(db, file, size, isMedia), ds, dm).storage
            - Total(Sizes(Upsert(db, file, size, isMedia).meta)) ==
            db.storage - Total(Sizes(db.meta)) + ds - (size - CurSize(db, file))
    ensures Charge(Upsert(db, file, size, isMedia), ds, dm).media
            - Total(MediaUnits(Upsert(db, file, size, isMedia).meta)) ==
            db.media - Total(MediaUnits(db.meta)) + dm - (MediaUnit(isMedia) - MediaUnit(CurMedia(db, file)))
  {
    SizeTotals(db, file, FileMeta(size, isMedia));
    MediaTotals(db, file, FileMeta(size, isMedia));
  }

  lemma DeleteExact(db: Db, file: FileId, size: int, isMedia: bool)
    requires Consistent(db)
    ensures Consistent(DeleteMeta(db, file, size, isMedia)) <==>
            (file in db.meta ==> db.meta[file] == FileMeta(size, isMedia))
  {
    if file in db.meta {
      SizeTotals(db, file, FileMeta(size, isMedia));
      MediaTotals(db, file, FileMeta(size, isMedia));
    }
  }

  /** Where a completed upload leaves each column. */
  lemma CompleteUploadColumns(db: Db, p: Payload)
    requires p.UploadComplete?
    ensures var t := CompleteUpload(db, p);
            && t.storage == db.storage + (if IsActive(db, p.upload) then p.reserved else p.newSize) - p.oldSize
            && t.reserved == db.reserved - (if IsActive(db, p.upload) then p.reserved else 0)
            && t.media == db.media + MediaUnit(p.newMedia) - MediaUnit(p.oldMedia)
            && t.meta == db.meta[p.file := FileMeta(p.newSize, p.newMedia)]
            && t.reservations == Settle(db, p.upload, Completed).reservations
            && t.llmCost == db.llmCost && t.log == db.log
  {
  }

  lemma CompleteUploadExact(db: Db, p: Payload)
    requires Consistent(db) && p.UploadComplete?
    ensures Consistent(CompleteUpload(db, p)) <==> Matches(db, p)
  {
    CompleteUploadColumns(db, p);
    SettleTotals(db, p.upload, Completed);
    SizeTotals(db, p.file, FileMeta(p.newSize, p.newMedia));
    MediaTotals(db, p.file, FileMeta(p.newSize, p.newMedia));
  }

  /** Applying an entry keeps the counters right exactly when its payload matches the rows. */
  lemma EffectExact(db: Db, p: Payload)
    requires Consistent(db)
    ensures Consistent(Effect(db, p)) <==> Matches(db, p)
  {
    match p
    case FileCreate(file, size, isMedia) => UpsertExact(db, file, size, isMedia, size, MediaUnit(isMedia));
    case FileOverwrite(file, oldSize, oldMedia, newSize, newMedia) =>
      UpsertExact(db, file, newSize, newMedia, newSize - oldSize, MediaDelta(oldMedia, newMedia));
    case FileDelete(file, size, isMedia) => DeleteExact(db, file, size, isMedia);
    case UploadComplete(_, _, _, _, _, _, _) => CompleteUploadExact(db, p);
    case _ =>
  }

  lemma ExpireReleases(db: Db, now: int)
    ensures Total(ActiveBytes(ExpireRows(db.reservations, now))) ==
            Total(ActiveBytes(db.reservations)) - Total(ExpiredBytes(db.reservations, now))
  {
    TotalMinus(ActiveBytes(db.reservations), ActiveBytes(ExpireRows(db.reservations, now)),
               ExpiredBytes(db.reservations, now));
  }

  /** The bytes of the reservations that are active and have not expired by `now`. */
  function LiveBytes(rows: map<UploadId, Reservation>, now: int): map<string, int> {
    map u | u in rows :: if rows[u].status.Active? && rows[u].expiresAt >= now then rows[u].bytes else 0
  }

  /**
   * A sweep aborts exactly the active rows whose time is past and leaves every other column
   * alone. From right counters, what stays reserved is the bytes of the rows still live.
   */
  lemma SweepExact(db: Db, now: int)
    ensures Expire(db, now).reservations.Keys == db.reservations.Keys
    ensures forall u :: u in db.reservations ==>
              var before, after := db.reservations[u], Expire(db, now).reservations[u];
              && after.bytes == before.bytes && after.expiresAt == before.expiresAt
              && after.status == (if before.status.Active? && before.expiresAt < now then Aborted else before.status)
    ensures Expire(db, now).(reserved := db.reserved, reservations := db.reservations) == db
    ensures Consistent(db) ==> Expire(db, now).reserved == Total(LiveBytes(db.reservations, now))
  {
    TotalMinus(ActiveBytes(db.reservations), LiveBytes(db.reservations, now), ExpiredBytes(db.reservations, now));
  }

  /** What abort and completion do to their reservation row, and that they touch no other. */
  lemma SettledRow(db: Db, upload: UploadId, bytes: int, p: Payload)
    requires p.UploadComplete? && p.upload == upload
    ensures var rows, aborted, completed :=
                  db.reservations, AbortRelease(db, upload, bytes).reservations, CompleteUpload(db, p).reservations;
            && (upload in rows && rows[upload].status.Active? ==>
                  aborted == rows[upload := rows[upload].(status := Aborted)]
                  && completed == rows[upload := rows[upload].(status := Completed)])
            && (!(upload in rows && rows[upload].status.Active?) ==> aborted == rows && completed == rows)
  {
  }

  /**
   * A reservation is granted exactly to a new upload that fits under the limit; it then adds
   * one active row and its bytes, and nothing else.
   */
  lemma ReserveGrants(db: Db, upload: UploadId, bytes: int, limit: int, expiresAt: int)
    ensures var after := Reserve(db, upload, bytes, limit, expiresAt);
            var outcome := ReserveOutcomeOf(db, upload, bytes, limit);
            && (outcome.Reserved? <==> db.storage + db.reserved + bytes <= limit && upload !in db.reservations)
            && (outcome.QuotaExceeded? <==> db.storage + db.reserved + bytes > limit)
            && (!outcome.Reserved? ==> after == db)
            && (outcome.Reserved? ==>
                  && after.(reserved := db.reserved, reservations := db.reservations) == db
                  && after.reserved == db.reserved + bytes
                  && after.reservations == db.reservations[upload := Reservation(bytes, Active, expiresAt)])
  {
  }

  /** A retry counts on a pending entry, which fails at the fifth; nothing else changes. */
  lemma RetryExact(db: Db, id: nat)
    ensures var after := Retry(db, id);
            && after.(log := db.log) == db && |after.log| == |db.log|
            && (forall k :: 0 <= k < |db.log| && (k != id || !db.log[k].status.Pending?) ==> after.log[k] == db.log[k])
            && (id < |db.log| && db.log[id].status.Pending? ==>
                  && after.log[id].payload == db.log[id].payload && after.log[id].retries == db.log[id].retries + 1
                  && after.log[id].status == (if db.log[id].retries >= 4 then Failed else Pending))
  {
  }
}
