/**
 * The tenant's server-DB rows as an object: the transactions of pkg/meta/quota.go and the
 * apply, abort, expire and collect code of pkg/backend that runs on top of them.
 */
module QuotaStore {
  import opened QuotaLedger

  class Store {
    var storage: int
    var reserved: int
    var media: int
    var llmCost: int
    var meta: map<FileId, FileMeta>
    var reservations: map<UploadId, Reservation>
    var log: seq<Entry>

    function View(): Db
      reads this
    {
      Db(storage, reserved, media, llmCost, meta, reservations, log)
    }

    constructor ()
      ensures View() == Db(0, 0, 0, 0, map[], map[], []) && Consistent(View())
    {
      storage, reserved, media, llmCost := 0, 0, 0, 0;
      meta, reservations, log := map[], map[], [];
      new;
      assert Sizes(meta) == map[] && MediaUnits(meta) == map[] && ActiveBytes(reservations) == map[];
    }

    /** Returns to the rows a transaction started from. */
    method Rollback(saved: Db)
      modifies this
      ensures View() == saved
    {
      storage, reserved, media, llmCost := saved.storage, saved.reserved, saved.media, saved.llmCost;
      meta, reservations, log := saved.meta, saved.reservations, saved.log;
    }

    // -------------------------------------------------------------- reservations

    /** The conditional counter update runs first; a duplicate row then rolls it back. */
    method AtomicReserveAndInsertUpload(upload: UploadId, bytes: int, limit: int, expiresAt: int)
        returns (outcome: ReserveOutcome)
      modifies this
      ensures outcome == ReserveOutcomeOf(old(View()), upload, bytes, limit)
      ensures View() == Reserve(old(View()), upload, bytes, limit, expiresAt)
    {
      var saved := View();
      if storage + reserved + bytes > limit {
        return QuotaExceeded;
      }
      reserved := reserved + bytes;
      if upload in reservations {
        Rollback(saved);
        return AlreadyExists;
      }
      reservations := reservations[upload := Reservation(bytes, Active, expiresAt)];
      return Reserved;
    }

    method SettleActiveReservation(upload: UploadId, status: ReservationStatus) returns (settled: bool)
      modifies this
      ensures settled == IsActive(old(View()), upload)
      ensures View() == Settle(old(View()), upload, status)
    {
      settled := upload in reservations && reservations[upload].status.Active?;
      if settled {
        reservations := reservations[upload := reservations[upload].(status := status)];
      }
    }

    /** The release transaction of an abort, with the size its lookup returned. */
    method ReleaseAborted(upload: UploadId, bytes: int)
      modifies this
      ensures View() == AbortRelease(old(View()), upload, bytes)
    {
      reserved := reserved - bytes;
      var _ := SettleActiveReservation(upload, Aborted);
    }

    /** Lookup and release with nothing in between: the counters stay right. */
    method AbortUploadReservation(upload: UploadId)
      modifies this
      ensures View() == if IsActive(old(View()), upload)
                        then AbortRelease(old(View()), upload, old(reservations)[upload].bytes) else old(View())
      ensures old(Consistent(View())) ==> Consistent(View())
    {
      if upload !in reservations || !reservations[upload].status.Active? {
        return;
      }
      SettleTotals(View(), upload, Aborted);
      ReleaseAborted(upload, reservations[upload].bytes);
    }

    /** The sum the expiry sweep reads before it releases. */
    method SumExpired(now: int) returns (total: int)
      ensures total == Total(ExpiredBytes(reservations, now))
    {
      var rows := ExpiredBytes(reservations, now);
      total := 0;
      ghost var all := rows;
      while rows != map[]
        invariant total + Total(rows) == Total(all)
        decreases |rows|
      {
        var u :| u in rows;
        TotalWithout(rows, u);
        total := total + rows[u];
        rows := rows - {u};
      }
    }

    method ExpireActiveReservations(now: int) returns (released: int)
      modifies this
      ensures View() == Expire(old(View()), now)
      ensures released == old(reserved) - reserved
    {
      released := SumExpired(now);
      reserved := reserved - released;
      reservations := ExpireRows(reservations, now);
    }

    // -------------------------------------------------------------- applying a mutation

    method UpsertFileMeta(file: FileId, size: int, isMedia: bool)
      modifies this
      ensures View() == Upsert(old(View()), file, size, isMedia)
    {
      meta := meta[file := FileMeta(size, isMedia)];
    }

    method DeleteFileMetaIfExists(file: FileId) returns (deleted: bool)
      modifies this
      ensures deleted == (file in old(meta))
      ensures View() == old(View()).(meta := old(meta) - {file})
    {
      deleted := file in meta;
      meta := meta - {file};
    }

    /** applyUploadCompleteTx: the settled flag picks which counter pays for the new bytes. */
    method ApplyUploadComplete(p: Payload)
      requires p.UploadComplete?
      modifies this
      ensures View() == CompleteUpload(old(View()), p)
    {
      var mediaDelta := 0;
      if !p.oldMedia && p.newMedia {
        mediaDelta := 1;
      } else if p.oldMedia && !p.newMedia {
        mediaDelta := -1;
      }
      var settled := SettleActiveReservation(p.upload, Completed);
      if settled {
        reserved := reserved - p.reserved;
        storage := storage + p.reserved;
      } else if p.newSize != 0 {
        storage := storage + p.newSize;
      }
      if p.oldSize != 0 {
        storage := storage - p.oldSize;
      }
      UpsertFileMeta(p.file, p.newSize, p.newMedia);
      if mediaDelta != 0 {
        media := media + mediaDelta;
      }
    }

    method ApplyDelete(file: FileId, size: int, isMedia: bool)
      modifies this
      ensures View() == DeleteMeta(old(View()), file, size, isMedia)
    {
      var deleted := DeleteFileMetaIfExists(file);
      if !deleted {
        assert old(meta) - {file} == old(meta);
        return;
      }
      if size != 0 {
        storage := storage - size;
      }
      if isMedia {
        media := media - 1;
      }
    }

    method ApplyMutation(p: Payload)
      modifies this
      ensures View() == Effect(old(View()), p)
    {
      match p
      case FileCreate(file, size, isMedia) =>
        UpsertFileMeta(file, size, isMedia);
        if size != 0 {
          storage := storage + size;
        }
        if isMedia {
          media := media + 1;
        }
      case FileOverwrite(file, oldSize, oldMedia, newSize, newMedia) =>
        UpsertFileMeta(file, newSize, newMedia);
        var storageDelta := newSize - oldSize;
        if storageDelta != 0 {
          storage := storage + storageDelta;
        }
        if !oldMedia && newMedia {
          media := media + 1;
        } else if oldMedia && !newMedia {
          media := media - 1;
        }
      case FileDelete(file, size, isMedia) => ApplyDelete(file, size, isMedia);
      case UploadComplete(_, _, _, _, _, _, _) => ApplyUploadComplete(p);
      case LlmCost(cost) => llmCost := llmCost + cost;
      case UnknownType =>
    }

    method InsertMutationLog(p: Payload) returns (id: nat)
      modifies this
      ensures id == old(|log|)
      ensures View() == old(View()).(log := old(log) + [Entry(p, Pending, 0)])
    {
      id := |log|;
      log := log + [Entry(p, Pending, 0)];
    }

    method MarkMutationApplied(id: nat) returns (ok: bool)
      modifies this
      ensures ok == IsPending(old(View()), id)
      ensures View() == if ok then old(View()).(log := old(log)[id := old(log)[id].(status := Applied)])
                        else old(View())
    {
      ok := id < |log| && log[id].status.Pending?;
      if ok {
        log := log[id := log[id].(status := Applied)];
      }
    }

    /** replayOne and the inline path: apply, then mark; not pending or rejected rolls both back. */
    method ApplyInTx(id: nat, p: Payload, fails: bool) returns (ok: bool)
      requires id < |log| ==> log[id].payload == p
      modifies this
      ensures ok == (!fails && IsPending(old(View()), id))
      ensures View() == if fails then old(View()) else Attempt(old(View()), id)
    {
      var saved := View();
      ApplyMutation(p);
      EffectKeepsLog(saved, p);
      ok := MarkMutationApplied(id);
      if fails || !ok {
        ok := false;
        Rollback(saved);
      }
    }

    /** applyLoggedQuotaMutation: a durable entry first, then one attempt to apply it. */
    method LogAndApply(p: Payload, fails: bool) returns (id: nat)
      modifies this
      ensures id == old(|log|)
      ensures var logged := old(View()).(log := old(log) + [Entry(p, Pending, 0)]);
              View() == if fails then logged else Attempt(logged, id)
      ensures log[id].status == if fails then Pending else Applied
    {
      id := InsertMutationLog(p);
      EffectKeepsLog(View(), p);
      var _ := ApplyInTx(id, p, fails);
    }

    method IncrMutationRetry(id: nat)
      modifies this
      ensures View() == Retry(old(View()), id)
    {
      if id < |log| && log[id].status.Pending? {
        var e := log[id];
        var status := Pending;
        if e.retries + 1 >= REPLAY_MAX_RETRIES {
          status := Failed;
        }
        log := log[id := e.(retries := e.retries + 1, status := status)];
      }
    }

    /** deleteCentralFileMetaForGCTask with nothing between its read and its transaction. */
    method CollectFile(file: FileId) returns (ok: bool)
      modifies this
      ensures ok == !HasPendingFileMutation(old(View()), file)
      ensures View() == if ok && file in old(meta)
                        then DeleteMeta(old(View()), file, old(meta)[file].size, old(meta)[file].isMedia)
                        else old(View())
      ensures old(Consistent(View())) ==> Consistent(View())
      ensures ok ==> file !in meta
    {
      ok := !HasPendingFileMutation(View(), file);
      if !ok || file !in meta {
        return;
      }
      var fm := meta[file];
      if Consistent(View()) {
        DeleteExact(View(), file, fm.size, fm.isMedia);
      }
      ApplyDelete(file, fm.size, fm.isMedia);
    }
  }

  lemma EffectKeepsLog(db: Db, p: Payload)
    ensures Effect(db, p).log == db.log
  {
  }
}
