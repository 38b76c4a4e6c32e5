/**
 * The file rows of pkg/datastore/file_tx.go, written twice: into the legacy files table while
 * it exists, and into the split inodes and contents tables. One simple table of files is the
 * reference both have to follow. A transaction that fails changes nothing.
 */
module FileTables {
  import opened Options

  datatype Status = Pending | Confirmed | Deleted

  /** A file as one row: the legacy columns, and the join of the split ones. */
  datatype File = File(revision: int, size: int, status: Status, storageType: string, storageRef: string,
                       refHash: string, contentType: Option<string>, checksum: Option<string>)
  datatype Inode = Inode(size: int, revision: int, status: Status)
  datatype Content = Content(storageType: string, storageRef: string, refHash: string, contentType: Option<string>,
                             checksum: Option<string>)

  datatype Body = Body(storageType: string, storageRef: string, contentType: string, checksum: string, size: int)

  datatype Db = Db(useLegacy: bool, legacy: map<string, File>, inodes: map<string, Inode>,
                   contents: map<string, Content>)

  datatype Step =
    | Insert(id: string, body: Body, revision: int, status: Status)
    | Update(id: string, expected: int, body: Body)
    | Confirm(id: string, body: Body)
    | DeletePending(id: string)

  datatype Result = Done(revision: int) | NotFound | Conflict | Failed

  type Hash = string -> string

  function RefHash(h: Hash, ref: string): string { if ref == "" then "" else h(ref) }

  /** An empty string is stored as NULL. */
  function NullStr(s: string): Option<string> { if s == "" then None else Some(s) }

  function FileOf(i: Inode, c: Content): File {
    File(i.revision, i.size, i.status, c.storageType, c.storageRef, c.refHash, c.contentType, c.checksum)
  }

  function Split(db: Db): map<string, File> {
    map id | id in db.inodes && id in db.contents :: FileOf(db.inodes[id], db.contents[id])
  }

  // ---------------------------------------------------------------- the reference table

  function RowOf(h: Hash, body: Body, revision: int, status: Status): File {
    File(revision, body.size, status, body.storageType, body.storageRef, RefHash(h, body.storageRef),
         NullStr(body.contentType), NullStr(body.checksum))
  }

  /** A stored row, column by column: an empty content type or checksum is NULL, a reference has its hash. */
  lemma RowColumns(h: Hash, body: Body, revision: int, status: Status)
    ensures var f := RowOf(h, body, revision, status);
            && f.revision == revision && f.status == status && f.size == body.size
            && f.storageType == body.storageType && f.storageRef == body.storageRef
            && f.refHash == (if body.storageRef == "" then "" else h(body.storageRef))
            && (f.contentType.None? <==> body.contentType == "") && (f.checksum.None? <==> body.checksum == "")
            && (f.contentType.Some? ==> f.contentType.value == body.contentType)
            && (f.checksum.Some? ==> f.checksum.value == body.checksum)
  {
  }

  /** Without a legacy table even an unconditional update needs a confirmed file. */
  predicate Updatable(legacy: bool, files: map<string, File>, id: string, expected: int) {
    id in files && (if expected > 0 then files[id].revision == expected && files[id].status.Confirmed?
                    else legacy || files[id].status.Confirmed?)
  }

  predicate IsPending(files: map<string, File>, id: string) { id in files && files[id].status.Pending? }

  function NextFiles(h: Hash, legacy: bool, files: map<string, File>, e: Step): map<string, File> {
    match e
    case Insert(id, body, revision, status) =>
      if id in files then files else files[id := RowOf(h, body, revision, status)]
    case Update(id, expected, body) =>
      if Updatable(legacy, files, id, expected)
      then files[id := RowOf(h, body, files[id].revision + 1, Confirmed)] else files
    case Confirm(id, body) =>
      if IsPending(files, id)
      then files[id := RowOf(h, body.(checksum := ""), files[id].revision, Confirmed)] else files
    case DeletePending(id) =>
      if IsPending(files, id)
      then files[id := files[id].(status := Deleted, storageRef := "", refHash := "")] else files
  }

  // ---------------------------------------------------------------- the tables

  /** An update of a row that is not there changes nothing. */
  function SetInode(inodes: map<string, Inode>, id: string, i: Inode): map<string, Inode> {
    if id in inodes then inodes[id := i] else inodes
  }

  function ContentOf(h: Hash, body: Body): Content {
    Content(body.storageType, body.storageRef, RefHash(h, body.storageRef), NullStr(body.contentType),
            NullStr(body.checksum))
  }

  function SetContent(h: Hash, contents: map<string, Content>, id: string, body: Body): map<string, Content> {
    if id in contents then contents[id := ContentOf(h, body)] else contents
  }

  function InsertTx(h: Hash, db: Db, id: string, body: Body, revision: int, status: Status): (Db, Result) {
    if (db.useLegacy && id in db.legacy) || id in db.inodes || id in db.contents then (db, Failed)
    else
      var row := RowOf(h, body, revision, status);
      (Db(db.useLegacy, if db.useLegacy then db.legacy[id := row] else db.legacy,
          db.inodes[id := Inode(body.size, revision, status)],
          db.contents[id := ContentOf(h, body)]), Done(revision))
  }

  /** The revision the legacy row gets, or the split row when there is no legacy table; None when the guard fails. */
  function NewRevision(db: Db, id: string, expected: int): Option<int> {
    if db.useLegacy then
      if id in db.legacy && (expected > 0 ==> db.legacy[id].revision == expected && db.legacy[id].status.Confirmed?)
      then Some(db.legacy[id].revision + 1) else None
    else if id in db.inodes && db.inodes[id].status.Confirmed? && (expected > 0 ==> db.inodes[id].revision == expected)
    then Some(db.inodes[id].revision + 1) else None
  }

  function UpdateTx(h: Hash, db: Db, id: string, expected: int, body: Body): (Db, Result) {
    var rev := NewRevision(db, id, expected);
    if rev.None? then (db, if expected > 0 then Conflict else NotFound)
    else if id !in db.contents then (db, Failed)
    else
      (Db(db.useLegacy, if db.useLegacy then db.legacy[id := RowOf(h, body, rev.value, Confirmed)] else db.legacy,
          SetInode(db.inodes, id, Inode(body.size, rev.value, Confirmed)), SetContent(h, db.contents, id, body)),
       Done(rev.value))
  }

  predicate PendingRow(db: Db, id: string) {
    if db.useLegacy then id in db.legacy && db.legacy[id].status.Pending?
    else id in db.inodes && db.inodes[id].status.Pending?
  }

  /** Confirming writes revision 1 into the inode and leaves the legacy revision as it is. */
  function ConfirmTx(h: Hash, db: Db, id: string, body: Body): (Db, Result) {
    if !PendingRow(db, id) then (db, NotFound)
    else
      var plain := body.(checksum := "");
      (Db(db.useLegacy,
          if db.useLegacy then db.legacy[id := RowOf(h, plain, db.legacy[id].revision, Confirmed)] else db.legacy,
          SetInode(db.inodes, id, Inode(body.size, 1, Confirmed)), SetContent(h, db.contents, id, plain)), Done(1))
  }

  function DeletePendingTx(db: Db, id: string): (Db, Result) {
    if (db.useLegacy && !(id in db.legacy && db.legacy[id].status.Pending?))
       || !(id in db.inodes && db.inodes[id].status.Pending?)
    then (db, NotFound)
    else
      (Db(db.useLegacy,
          if db.useLegacy then db.legacy[id := db.legacy[id].(status := Deleted, storageRef := "", refHash := "")]
          else db.legacy,
          db.inodes[id := db.inodes[id].(status := Deleted)],
          if id in db.contents then db.contents[id := db.contents[id].(storageRef := "", refHash := "")]
          else db.contents),
       Done(0))
  }

  function NextDb(h: Hash, db: Db, e: Step): Db {
    match e
    case Insert(id, body, revision, status) => InsertTx(h, db, id, body, revision, status).0
    case Update(id, expected, body) => UpdateTx(h, db, id, expected, body).0
    case Confirm(id, body) => ConfirmTx(h, db, id, body).0
    case DeletePending(id) => DeletePendingTx(db, id).0
  }

  // ---------------------------------------------------------------- agreement

  predicate PendingAtOne(files: map<string, File>) {
    forall id :: id in files ==> files[id].status.Pending? ==> files[id].revision == 1
  }

  /** The split tables hold the same files, and pending ones are at revision 1. */
  predicate Sound(db: Db) { db.inodes.Keys == db.contents.Keys && PendingAtOne(Split(db)) }

  predicate Agree(db: Db) { db.useLegacy ==> db.legacy == Split(db) }

  lemma SplitUpdate(db: Db, id: string, i: Inode, c: Content)
    requires db.inodes.Keys == db.contents.Keys
    ensures Split(db.(inodes := db.inodes[id := i], contents := db.contents[id := c])) == Split(db)[id := FileOf(i, c)]
  {
  }

  lemma InsertFollows(h: Hash, db: Db, id: string, body: Body, revision: int, status: Status)
    requires Sound(db) && Agree(db)
    ensures var e, t := Insert(id, body, revision, status), InsertTx(h, db, id, body, revision, status).0;
            t.inodes.Keys == t.contents.Keys && Split(t) == NextFiles(h, db.useLegacy, Split(db), e)
            && (db.useLegacy ==> t.legacy == NextFiles(h, true, db.legacy, e))
  {
    SplitUpdate(db, id, Inode(body.size, revision, status), ContentOf(h, body));
  }

  lemma UpdateFollows(h: Hash, db: Db, id: string, expected: int, body: Body)
    requires Sound(db) && Agree(db)
    ensures var e, t := Update(id, expected, body), UpdateTx(h, db, id, expected, body).0;
            t.inodes.Keys == t.contents.Keys && Split(t) == NextFiles(h, db.useLegacy, Split(db), e)
            && (db.useLegacy ==> t.legacy == NextFiles(h, true, db.legacy, e))
  {
    var rev := NewRevision(db, id, expected);
    if rev.Some? {
      SplitUpdate(db, id, Inode(body.size, rev.value, Confirmed), ContentOf(h, body));
    }
  }

  lemma ConfirmFollows(h: Hash, db: Db, id: string, body: Body)
    requires Sound(db) && Agree(db)
    ensures var e, t := Confirm(id, body), ConfirmTx(h, db, id, body).0;
            t.inodes.Keys == t.contents.Keys && Split(t) == NextFiles(h, db.useLegacy, Split(db), e)
            && (db.useLegacy ==> t.legacy == NextFiles(h, true, db.legacy, e))
  {
    SplitUpdate(db, id, Inode(body.size, 1, Confirmed), ContentOf(h, body.(checksum := "")));
  }

  lemma DeleteFollows(h: Hash, db: Db, id: string)
    requires Sound(db) && Agree(db)
    ensures var e, t := DeletePending(id), DeletePendingTx(db, id).0;
            t.inodes.Keys == t.contents.Keys && Split(t) == NextFiles(h, db.useLegacy, Split(db), e)
            && (db.useLegacy ==> t.legacy == NextFiles(h, true, db.legacy, e))
  {
    if IsPending(Split(db), id) {
      SplitUpdate(db, id, db.inodes[id].(status := Deleted), db.contents[id].(storageRef := "", refHash := ""));
    }
  }

  lemma FilesKeepPending(h: Hash, legacy: bool, files: map<string, File>, e: Step)
    requires PendingAtOne(files) && (e.Insert? ==> e.revision == 1)
    ensures PendingAtOne(NextFiles(h, legacy, files, e))
  {
  }

  /** Every transaction does to the split tables, and to the legacy table, what it does to the one simple table. */
  lemma StepFollows(h: Hash, db: Db, e: Step)
    requires Sound(db) && Agree(db) && (e.Insert? ==> e.revision == 1)
    ensures Sound(NextDb(h, db, e)) && Agree(NextDb(h, db, e)) && NextDb(h, db, e).useLegacy == db.useLegacy
    ensures Split(NextDb(h, db, e)) == NextFiles(h, db.useLegacy, Split(db), e)
  {
    match e {
      case Insert(id, body, revision, status) => InsertFollows(h, db, id, body, revision, status);
      case Update(id, expected, body) => UpdateFollows(h, db, id, expected, body);
      case Confirm(id, body) => ConfirmFollows(h, db, id, body);
      case DeletePending(id) => DeleteFollows(h, db, id);
    }
    FilesKeepPending(h, db.useLegacy, Split(db), e);
  }

  function RunDb(h: Hash, db: Db, es: seq<Step>): Db
    decreases |es|
  {
    if es == [] then db else RunDb(h, NextDb(h, db, es[0]), es[1..])
  }

  function RunFiles(h: Hash, legacy: bool, files: map<string, File>, es: seq<Step>): map<string, File>
    decreases |es|
  {
    if es == [] then files else RunFiles(h, legacy, NextFiles(h, legacy, files, es[0]), es[1..])
  }

  predicate InsertsAtOne(es: seq<Step>) { forall i :: 0 <= i < |es| ==> es[i].Insert? ==> es[i].revision == 1 }

  /** Over every run the legacy rows and the split rows agree, and both are the simple table's. */
  lemma {:induction false} RunsAgree(h: Hash, db: Db, es: seq<Step>)
    requires Sound(db) && Agree(db) && InsertsAtOne(es)
    ensures Sound(RunDb(h, db, es)) && Agree(RunDb(h, db, es))
    ensures Split(RunDb(h, db, es)) == RunFiles(h, db.useLegacy, Split(db), es)
    decreases |es|
  {
    if es != [] {
      StepFollows(h, db, es[0]);
      RunsAgree(h, NextDb(h, db, es[0]), es[1..]);
    }
  }

  /** Confirming a pending file keeps the tables in agreement exactly when it was inserted at revision 1. */
  lemma ConfirmAgreesExactly(h: Hash, db: Db, id: string, body: Body)
    requires db.useLegacy && db.inodes.Keys == db.contents.Keys && Agree(db) && IsPending(db.legacy, id)
    ensures Agree(ConfirmTx(h, db, id, body).0) <==> db.legacy[id].revision == 1
  {
    var t := ConfirmTx(h, db, id, body).0;
    assert Split(t)[id].revision == 1 && t.legacy[id].revision == db.legacy[id].revision;
    SplitUpdate(db, id, Inode(body.size, 1, Confirmed), ContentOf(h, body.(checksum := "")));
  }

  /**
   * Dropping the legacy table does not change what an update does to the split tables, except
   * for an unconditional update of a file that is not confirmed.
   */
  lemma ModesAgreeExactly(h: Hash, db: Db, id: string, expected: int, body: Body)
    requires Sound(db) && Agree(db) && db.useLegacy
    ensures Split(UpdateTx(h, db, id, expected, body).0) ==
            Split(UpdateTx(h, db.(useLegacy := false), id, expected, body).0)
            <==> expected > 0 || id !in db.legacy || db.legacy[id].status.Confirmed?
  {
    UpdateFollows(h, db, id, expected, body);
    UpdateFollows(h, db.(useLegacy := false), id, expected, body);
  }

  /** What an update answers: the revision after the one it replaces, or the right refusal. */
  lemma UpdateAnswers(h: Hash, db: Db, id: string, expected: int, body: Body)
    requires Sound(db) && Agree(db)
    ensures var files, r := Split(db), UpdateTx(h, db, id, expected, body).1;
            && (r.Done? <==> id in files && (files[id].status.Confirmed? || (db.useLegacy && expected <= 0))
                             && (expected > 0 ==> files[id].revision == expected))
            && (r.Done? ==> r.revision == files[id].revision + 1)
            && (!r.Done? ==> r == (if expected > 0 then Conflict else NotFound))
  {
  }

  /** Inserting succeeds exactly for a new id, confirming and deleting exactly for a pending file. */
  lemma OtherAnswers(h: Hash, db: Db, id: string, body: Body, revision: int, status: Status)
    requires Sound(db) && Agree(db)
    ensures var files := Split(db);
            && InsertTx(h, db, id, body, revision, status).1 == (if id in files then Failed else Done(revision))
            && ConfirmTx(h, db, id, body).1 == (if id in files && files[id].status.Pending? then Done(1) else NotFound)
            && (DeletePendingTx(db, id).1.Done? <==> id in files && files[id].status.Pending?)
  {
  }

  // ---------------------------------------------------------------- what the revision counts

  /** The updates of a file that a run commits. */
  function Commits(h: Hash, legacy: bool, files: map<string, File>, es: seq<Step>, id: string): nat
    decreases |es|
  {
    if es == [] then 0
    else (if es[0].Update? && es[0].id == id && Updatable(legacy, files, id, es[0].expected) then 1 else 0)
         + Commits(h, legacy, NextFiles(h, legacy, files, es[0]), es[1..], id)
  }

  /** A file's revision is the one it had plus the number of updates committed to it. */
  lemma {:induction false} RevisionCountsCommits(h: Hash, legacy: bool, files: map<string, File>, es: seq<Step>,
                                                 id: string)
    requires id in files
    ensures id in RunFiles(h, legacy, files, es)
    ensures RunFiles(h, legacy, files, es)[id].revision == files[id].revision + Commits(h, legacy, files, es, id)
    decreases |es|
  {
    if es != [] {
      RevisionCountsCommits(h, legacy, NextFiles(h, legacy, files, es[0]), es[1..], id);
    }
  }

  predicate Hashed(h: Hash, files: map<string, File>) {
    forall id :: id in files ==>
      files[id].refHash == (if files[id].storageRef == "" then "" else h(files[id].storageRef))
  }

  /** Every stored hash is the hash of the reference beside it. */
  lemma {:induction false} HashesMatch(h: Hash, legacy: bool, files: map<string, File>, es: seq<Step>)
    requires Hashed(h, files)
    ensures Hashed(h, RunFiles(h, legacy, files, es))
    decreases |es|
  {
    if es != [] {
      HashesMatch(h, legacy, NextFiles(h, legacy, files, es[0]), es[1..]);
    }
  }

  // ---------------------------------------------------------------- the store

  class Store {
    const useLegacy: bool
    var legacy: map<string, File>
    var inodes: map<string, Inode>
    var contents: map<string, Content>

    function View(): Db
      reads this
    {
      Db(useLegacy, legacy, inodes, contents)
    }

    constructor (hasLegacy: bool)
      ensures useLegacy == hasLegacy && Sound(View()) && Agree(View()) && Split(View()) == map[]
    {
      useLegacy := hasLegacy;
      legacy, inodes, contents := map[], map[], map[];
    }

    method InsertFile(h: Hash, id: string, body: Body, revision: int, status: Status) returns (r: Result)
      modifies this
      ensures (View(), r) == InsertTx(h, old(View()), id, body, revision, status)
    {
      var before := legacy;
      if useLegacy {
        if id in legacy {
          return Failed;
        }
        legacy := legacy[id := RowOf(h, body, revision, status)];
      }
      if id in inodes || id in contents {
        legacy := before;
        return Failed;
      }
      inodes := inodes[id := Inode(body.size, revision, status)];
      contents := contents[id := ContentOf(h, body)];
      r := Done(revision);
    }

    /** The guarded update of the legacy row, then the split rows at the revision it got. */
    method UpdateFileContent(h: Hash, id: string, expected: int, body: Body) returns (r: Result)
      modifies this
      ensures (View(), r) == UpdateTx(h, old(View()), id, expected, body)
    {
      var before := legacy;
      var rev: int;
      if useLegacy {
        if id !in legacy || (expected > 0 && !(legacy[id].revision == expected && legacy[id].status.Confirmed?)) {
          return if expected > 0 then Conflict else NotFound;
        }
        legacy := legacy[id := RowOf(h, body, legacy[id].revision + 1, Confirmed)];
        rev := if expected > 0 then expected + 1 else legacy[id].revision;
      } else {
        if id !in inodes || !inodes[id].status.Confirmed? {
          return if expected > 0 then Conflict else NotFound;
        }
        if expected > 0 && inodes[id].revision != expected {
          return Conflict;
        }
        rev := inodes[id].revision + 1;
      }
      if id !in contents {
        legacy := before;
        return Failed;
      }
      inodes := SetInode(inodes, id, Inode(body.size, rev, Confirmed));
      contents := SetContent(h, contents, id, body);
      r := Done(rev);
    }

    method ConfirmPendingFile(h: Hash, id: string, body: Body) returns (r: Result)
      modifies this
      ensures (View(), r) == ConfirmTx(h, old(View()), id, body)
    {
      var plain := body.(checksum := "");
      if useLegacy {
        if id !in legacy || !legacy[id].status.Pending? {
          return NotFound;
        }
        legacy := legacy[id := RowOf(h, plain, legacy[id].revision, Confirmed)];
      } else if id !in inodes || !inodes[id].status.Pending? {
        return NotFound;
      }
      inodes := SetInode(inodes, id, Inode(body.size, 1, Confirmed));
      contents := SetContent(h, contents, id, plain);
      r := Done(1);
    }

    method DeletePendingFile(id: string) returns (r: Result)
      modifies this
      ensures (View(), r) == DeletePendingTx(old(View()), id)
    {
      var before := legacy;
      if useLegacy {
        if id !in legacy || !legacy[id].status.Pending? {
          return NotFound;
        }
        legacy := legacy[id := legacy[id].(status := Deleted, storageRef := "", refHash := "")];
      }
      if id !in inodes || !inodes[id].status.Pending? {
        legacy := before;
        return NotFound;
      }
      inodes := inodes[id := inodes[id].(status := Deleted)];
      if id in contents {
        contents := contents[id := contents[id].(storageRef := "", refHash := "")];
      }
      r := Done(0);
    }
  }
}
