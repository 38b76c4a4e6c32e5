/**
 * Conditional writes over the file rows: direct writes (pkg/backend/dat9.go), which look at
 * the path first and commit later, and multipart finalizes (pkg/backend/upload.go). What a
 * direct writer saw is any value at all, so every stale read and every interleaving of reads
 * and commits is covered. One transaction is one step.
 */
module RevisionCas {
  import opened Options
  import T = FileTables

  /** What a path named when the writer looked: a directory, or a file at some revision. */
  datatype Seen = SeenDirectory | SeenFile(id: string, revision: int)
  datatype Node = Directory | Entry(id: string)

  datatype State = State(nodes: map<string, Node>, files: map<string, T.File>)

  datatype Step =
    | Write(path: string, seen: Option<Seen>, expected: int, create: bool, exclusive: bool, newId: string, body: T.Body)
    | Initiate(upload: string, body: T.Body)
    | Finalize(path: string, upload: string, expected: int, body: T.Body)
    | Attach(path: string, node: Node)
    | Unlink(path: string)

  datatype Outcome = Done(revision: int) | RevisionConflict | PathConflict | NotFound | Refused

  /** The store's hash and whether it has the legacy table. */
  datatype Config = Config(h: T.Hash, legacy: bool)

  function Apply(c: Config, s: State, e: T.Step): State { s.(files := T.NextFiles(c.h, c.legacy, s.files, e)) }

  // ---------------------------------------------------------------- direct writes

  function CreateTx(c: Config, s: State, path: string, expected: int, newId: string, body: T.Body): (State, Outcome) {
    if newId in s.files then (s, Refused)
    else if path in s.nodes then (s, if expected == 0 then RevisionConflict else PathConflict)
    else (Apply(c, s, T.Insert(newId, body, 1, T.Confirmed)).(nodes := s.nodes[path := Entry(newId)]), Done(1))
  }

  function OverwriteTx(c: Config, s: State, id: string, expected: int, body: T.Body): (State, Outcome) {
    if T.Updatable(c.legacy, s.files, id, expected)
    then (Apply(c, s, T.Update(id, expected, body)), Done(s.files[id].revision + 1))
    else (s, if expected > 0 then RevisionConflict else NotFound)
  }

  function WriteTx(c: Config, s: State, e: Step): (State, Outcome)
    requires e.Write?
  {
    match e.seen
    case None =>
      if e.expected > 0 then (s, RevisionConflict)
      else if !e.create then (s, if e.expected == 0 then RevisionConflict else NotFound)
      else CreateTx(c, s, e.path, e.expected, e.newId, e.body)
    case Some(SeenDirectory) => (s, if e.expected == 0 then RevisionConflict else Refused)
    case Some(SeenFile(id, revision)) =>
      if e.expected == 0 then (s, RevisionConflict)
      else if e.exclusive then (s, Refused)
      else if e.expected > 0 && revision != e.expected then (s, RevisionConflict)
      else OverwriteTx(c, s, id, e.expected, e.body)
  }

  // ---------------------------------------------------------------- finalize

  /** The overwrite branch also retires the upload's own pending file; if it cannot, nothing is kept. */
  function FinalizeOver(c: Config, s: State, id: string, upload: string, expected: int, body: T.Body)
    : (State, Outcome)
  {
    if expected == 0 || id !in s.files || !s.files[id].status.Confirmed? then (s, RevisionConflict)
    else if expected > 0 && s.files[id].revision != expected then (s, RevisionConflict)
    else
      var t := Apply(c, s, T.Update(id, expected, body));
      if T.IsPending(t.files, upload)
      then (Apply(c, t, T.DeletePending(upload)), Done(s.files[id].revision + 1))
      else (s, NotFound)
  }

  function FinalizeTx(c: Config, s: State, e: Step): (State, Outcome)
    requires e.Finalize?
  {
    if e.path in s.nodes && s.nodes[e.path].Entry?
    then FinalizeOver(c, s, s.nodes[e.path].id, e.upload, e.expected, e.body)
    else if e.expected > 0 then (s, RevisionConflict)
    else if !T.IsPending(s.files, e.upload) then (s, NotFound)
    else if e.path in s.nodes then (s, if e.expected == 0 then RevisionConflict else PathConflict)
    else (Apply(c, s, T.Confirm(e.upload, e.body)).(nodes := s.nodes[e.path := Entry(e.upload)]), Done(1))
  }

  // ---------------------------------------------------------------- runs

  /** A file whose last path goes away is marked deleted; without its row the removal is rolled back. */
  function UnlinkTx(s: State, path: string): State {
    if path !in s.nodes then s
    else
      var nodes := s.nodes - {path};
      if s.nodes[path].Directory? || (exists p :: p in nodes && nodes[p] == s.nodes[path]) then s.(nodes := nodes)
      else
        var id := s.nodes[path].id;
        if id in s.files then State(nodes, s.files[id := s.files[id].(status := T.Deleted)]) else s
  }

  predicate IsConfirmed(s: State, id: string) { id in s.files && s.files[id].status.Confirmed? }

  /** Making a directory, or giving a confirmed file one more path. */
  function AttachTx(s: State, path: string, node: Node): State {
    if path in s.nodes || (node.Entry? && !IsConfirmed(s, node.id)) then s else s.(nodes := s.nodes[path := node])
  }

  /** Initiating an upload inserts its pending file at revision 1. */
  function Tx(c: Config, s: State, e: Step): (State, Outcome) {
    match e
    case Write(_, _, _, _, _, _, _) => WriteTx(c, s, e)
    case Initiate(upload, body) => (Apply(c, s, T.Insert(upload, body, 1, T.Pending)), Refused)
    case Finalize(_, _, _, _) => FinalizeTx(c, s, e)
    case Attach(path, node) => (AttachTx(s, path, node), Refused)
    case Unlink(path) => (UnlinkTx(s, path), Refused)
  }

  function Next(c: Config, s: State, e: Step): State { Tx(c, s, e).0 }

  predicate Commits(c: Config, s: State, e: Step) { Tx(c, s, e).1.Done? }

  function Run(c: Config, s: State, es: seq<Step>): State
    decreases |es|
  {
    if es == [] then s else Run(c, Next(c, s, es[0]), es[1..])
  }

  function Expected(e: Step): int { if e.Write? || e.Finalize? then e.expected else -1 }

  /** The file an overwriting write or finalize goes for. */
  function Target(s: State, e: Step): Option<string> {
    match e
    case Write(_, Some(SeenFile(id, _)), _, _, _, _, _) => Some(id)
    case Finalize(path, _, _, _) => if path in s.nodes && s.nodes[path].Entry? then Some(s.nodes[path].id) else None
    case _ => None
  }

  // ---------------------------------------------------------------- one commit

  /** A conditional writer commits only over the revision it expects, and yields the next one. */
  lemma ConditionalCommit(c: Config, s: State, e: Step)
    requires Commits(c, s, e) && Expected(e) > 0
    ensures Target(s, e).Some? && Target(s, e).value in s.files
    ensures var f, n := Target(s, e).value, Next(c, s, e);
            && s.files[f].revision == Expected(e) && s.files[f].status.Confirmed?
            && f in n.files && n.files[f] == T.RowOf(c.h, e.body, Expected(e) + 1, T.Confirmed)
            && Tx(c, s, e).1 == Done(Expected(e) + 1) && n.nodes == s.nodes
  {
  }

  /** A create-if-absent commits only on an absent path, and leaves a confirmed file at revision 1 there. */
  lemma CreateCommit(c: Config, s: State, e: Step)
    requires Commits(c, s, e) && Expected(e) == 0
    ensures e.path !in s.nodes && Tx(c, s, e).1 == Done(1)
    ensures var n := Next(c, s, e);
            e.path in n.nodes && n.nodes[e.path].Entry? && n.nodes[e.path].id in n.files
            && n.files[n.nodes[e.path].id].status.Confirmed?
            && (e.Write? || T.PendingAtOne(s.files) ==> n.files[n.nodes[e.path].id].revision == 1)
  {
  }

  /** Whatever does not commit, of the writes and finalizes, changes nothing. */
  lemma RefusedChangesNothing(c: Config, s: State, e: Step)
    requires (e.Write? || e.Finalize?) && !Commits(c, s, e)
    ensures Next(c, s, e) == s
  {
  }

  // ---------------------------------------------------------------- every commit, exactly

  /** The file a write or finalize names: the one it saw or found at the path, else its new one. */
  function Named(s: State, e: Step): string
    requires e.Write? || e.Finalize?
  {
    if e.Write? then (if e.seen.Some? && e.seen.value.SeenFile? then e.seen.value.id else e.newId)
    else if e.path in s.nodes && s.nodes[e.path].Entry? then s.nodes[e.path].id
    else e.upload
  }

  /** The named file is overwritten, and was there before; otherwise the commit creates it at the path. */
  predicate Overwrites(s: State, e: Step)
    requires e.Write? || e.Finalize?
  {
    if e.Write? then e.seen.Some? else e.path in s.nodes && s.nodes[e.path].Entry?
  }

  /**
   * A committed write, with whatever expectation: the row of the named file holds the body at
   * the answered revision, which follows the old one, or is 1 for a new file. An overwrite
   * leaves the tree alone, a creation adds its one node.
   */
  lemma WriteStores(c: Config, s: State, e: Step)
    requires e.Write? && Commits(c, s, e)
    ensures var f, n, r := Named(s, e), Next(c, s, e), Tx(c, s, e).1.revision;
            && n.files.Keys == s.files.Keys + {f} && n.files[f] == T.RowOf(c.h, e.body, r, T.Confirmed)
            && (Overwrites(s, e) ==> f in s.files && r == s.files[f].revision + 1 && n.nodes == s.nodes)
            && (!Overwrites(s, e) ==>
                  f !in s.files && r == 1 && e.path !in s.nodes && n.nodes == s.nodes[e.path := Entry(f)])
  {
  }

  /**
   * A committed finalize likewise. Over an existing file it retires its own pending one;
   * otherwise that one is confirmed, without a checksum, and gets the path.
   */
  lemma FinalizeStores(c: Config, s: State, e: Step)
    requires e.Finalize? && Commits(c, s, e) && T.PendingAtOne(s.files)
    ensures var f, n, r := Named(s, e), Next(c, s, e), Tx(c, s, e).1.revision;
            && n.files.Keys == s.files.Keys && f in s.files && e.upload in s.files
            && (Overwrites(s, e) ==>
                  && n.files[f] == T.RowOf(c.h, e.body, r, T.Confirmed) && r == s.files[f].revision + 1
                  && n.nodes == s.nodes && e.upload != f && n.files[e.upload].status == T.Deleted
                  && n.files[e.upload].storageRef == "" && n.files[e.upload].refHash == "")
            && (!Overwrites(s, e) ==>
                  && f == e.upload && r == 1 && s.files[f].status.Pending? && e.path !in s.nodes
                  && n.files[f] == T.RowOf(c.h, e.body.(checksum := ""), 1, T.Confirmed)
                  && n.nodes == s.nodes[e.path := Entry(f)])
  {
  }

  /** No other row changes. */
  lemma CommitSparesOthers(c: Config, s: State, e: Step, g: string)
    requires (e.Write? || e.Finalize?) && g in s.files && g != Named(s, e) && (e.Finalize? ==> g != e.upload)
    ensures g in Next(c, s, e).files && Next(c, s, e).files[g] == s.files[g]
  {
  }

  /** When a write commits, and when it is refused as a conflict, on what it saw, asks and finds. */
  lemma WriteCommitsExactly(c: Config, s: State, e: Step)
    requires e.Write?
    ensures e.seen.None? ==>
              && (Commits(c, s, e) <==> e.expected <= 0 && e.create && e.newId !in s.files && e.path !in s.nodes)
              && (Tx(c, s, e).1.RevisionConflict? <==>
                  e.expected > 0 || (e.expected == 0 && (!e.create || (e.newId !in s.files && e.path in s.nodes))))
              && (Tx(c, s, e).1.PathConflict? <==>
                  e.expected < 0 && e.create && e.newId !in s.files && e.path in s.nodes)
              && (Tx(c, s, e).1.NotFound? <==> e.expected < 0 && !e.create)
    ensures e.seen.Some? && e.seen.value.SeenFile? ==>
              var id := e.seen.value.id;
              var fits := id in s.files && (e.expected > 0 ==> s.files[id].revision == e.expected)
                          && (s.files[id].status.Confirmed? || (c.legacy && e.expected < 0));
              && (Commits(c, s, e) <==>
                  fits && e.expected != 0 && !e.exclusive && (e.expected > 0 ==> e.seen.value.revision == e.expected))
              && (Tx(c, s, e).1.RevisionConflict? <==>
                  e.expected == 0
                  || (!e.exclusive && e.expected > 0 && (e.seen.value.revision != e.expected || !fits)))
              && (Tx(c, s, e).1.NotFound? <==> e.expected < 0 && !e.exclusive && !fits)
              && !Tx(c, s, e).1.PathConflict?
    ensures e.seen.Some? && e.seen.value.SeenDirectory? ==>
              !Commits(c, s, e) && (Tx(c, s, e).1.RevisionConflict? <==> e.expected == 0)
  {
  }

  /** When a finalize commits, on the path as it is, the upload's file and the expectation. */
  lemma FinalizeCommitsExactly(c: Config, s: State, e: Step)
    requires e.Finalize?
    ensures var pending := e.upload in s.files && s.files[e.upload].status.Pending?;
            Commits(c, s, e) <==>
            if e.path in s.nodes && s.nodes[e.path].Entry? then
              var f := s.nodes[e.path].id;
              && e.expected != 0 && pending && f in s.files && s.files[f].status.Confirmed?
              && (e.expected > 0 ==> s.files[f].revision == e.expected)
            else e.expected <= 0 && pending && e.path !in s.nodes
  {
  }

  /** How a finalize that does not commit is refused. */
  lemma FinalizeRefusesExactly(c: Config, s: State, e: Step)
    requires e.Finalize?
    ensures var pending := e.upload in s.files && s.files[e.upload].status.Pending?;
            var out := Tx(c, s, e).1;
            if e.path in s.nodes && s.nodes[e.path].Entry? then
              var f := s.nodes[e.path].id;
              && !out.PathConflict?
              && (out.RevisionConflict? <==>
                  e.expected == 0 || f !in s.files || s.files[f].status != T.Confirmed
                  || (e.expected > 0 && s.files[f].revision != e.expected))
            else
              && (out.RevisionConflict? <==> e.expected > 0 || (e.expected == 0 && pending && e.path in s.nodes))
              && (out.PathConflict? <==> e.expected < 0 && pending && e.path in s.nodes)
  {
  }

  /** No path but this one names the file. */
  ghost predicate OnlyPath(s: State, path: string, f: string) {
    path in s.nodes && s.nodes[path] == Entry(f) && forall p :: p in s.nodes && s.nodes[p] == Entry(f) ==> p == path
  }

  /**
   * Unlinking takes away the one path, unless the row it would have to mark is missing; a file
   * is marked deleted exactly if no other path names it.
   */
  lemma UnlinkExact(c: Config, s: State, path: string)
    ensures var n := Next(c, s, Unlink(path));
            && n.files.Keys == s.files.Keys
            && (forall f :: f in s.files ==>
                              n.files[f] == if OnlyPath(s, path, f) then s.files[f].(status := T.Deleted)
                                            else s.files[f])
            && n.nodes == if exists f :: f !in s.files && OnlyPath(s, path, f) then s.nodes else s.nodes - {path}
  {
    if path in s.nodes {
      assert forall p :: p in s.nodes && p != path ==> p in s.nodes - {path};
      if s.nodes[path].Entry? && !(exists p :: p in s.nodes - {path} && s.nodes[p] == s.nodes[path]) {
        assert OnlyPath(s, path, s.nodes[path].id);
      }
    } else {
      assert s.nodes - {path} == s.nodes;
    }
  }

  /** A path is never taken over: a node gets a free one, a file only while it is confirmed, and no file changes. */
  lemma AttachExact(c: Config, s: State, path: string, node: Node)
    ensures var n := Next(c, s, Attach(path, node));
            && n.files == s.files
            && n.nodes == if node.Entry? && (node.id !in s.files || s.files[node.id].status != T.Confirmed) then s.nodes
                          else map[path := node] + s.nodes
  {
  }

  /** Initiating an upload gives its new id a pending row at revision 1 and no path. */
  lemma InitiateStores(c: Config, s: State, upload: string, body: T.Body)
    ensures var n := Next(c, s, Initiate(upload, body));
            && n.nodes == s.nodes
            && n.files == (if upload in s.files then s.files else s.files[upload := T.RowOf(c.h, body, 1, T.Pending)])
  {
  }

  lemma StepKeepsPending(c: Config, s: State, e: Step)
    requires T.PendingAtOne(s.files)
    ensures T.PendingAtOne(Next(c, s, e).files)
  {
  }

  /** Every run from an empty tree keeps pending uploads at revision 1, as the exact commits above need. */
  lemma {:induction false} RunKeepsPending(c: Config, s: State, es: seq<Step>)
    requires T.PendingAtOne(s.files)
    ensures T.PendingAtOne(Run(c, s, es).files)
    decreases |es|
  {
    if es != [] {
      StepKeepsPending(c, s, es[0]);
      RunKeepsPending(c, Next(c, s, es[0]), es[1..]);
    }
  }

  // ---------------------------------------------------------------- paths and files

  predicate HasPath(s: State, f: string) { exists p :: p in s.nodes && s.nodes[p] == Entry(f) }

  /** Every path of a file names a confirmed row. */
  predicate NoDanglingPath(s: State) {
    forall p :: p in s.nodes && s.nodes[p].Entry? ==> IsConfirmed(s, s.nodes[p].id)
  }

  /** Every confirmed row has a path. */
  ghost predicate NoOrphan(s: State) { forall f :: IsConfirmed(s, f) ==> HasPath(s, f) }

  /** The unconditional direct write that reaches a row which is not confirmed. */
  predicate Revives(c: Config, s: State, e: Step) {
    c.legacy && e.Write? && e.seen.Some? && e.seen.value.SeenFile? && e.expected < 0 && !e.exclusive
    && e.seen.value.id in s.files && s.files[e.seen.value.id].status != T.Confirmed
  }

  lemma StepKeepsPaths(c: Config, s: State, e: Step)
    requires NoDanglingPath(s)
    ensures NoDanglingPath(Next(c, s, e))
  {
  }

  /** In every reachable tree no path dangles. */
  lemma {:induction false} RunKeepsPaths(c: Config, s: State, es: seq<Step>)
    requires NoDanglingPath(s)
    ensures NoDanglingPath(Run(c, s, es))
    decreases |es|
  {
    if es != [] {
      StepKeepsPaths(c, s, es[0]);
      RunKeepsPaths(c, Next(c, s, es[0]), es[1..]);
    }
  }

  lemma RevivedIsOrphan(c: Config, s: State, e: Step)
    requires NoDanglingPath(s) && Revives(c, s, e)
    ensures IsConfirmed(Next(c, s, e), e.seen.value.id) && !HasPath(Next(c, s, e), e.seen.value.id)
  {
  }

  lemma WriteKeepsReach(c: Config, s: State, e: Step, f: string)
    requires (e.Write? || e.Finalize?) && NoOrphan(s) && !Revives(c, s, e) && IsConfirmed(Next(c, s, e), f)
    ensures HasPath(Next(c, s, e), f)
  {
    var n := Next(c, s, e);
    if IsConfirmed(s, f) {
      var p :| p in s.nodes && s.nodes[p] == Entry(f);
      assert p in n.nodes && n.nodes[p] == Entry(f);
    } else {
      assert n.nodes[e.path] == Entry(f);
    }
  }

  lemma UnlinkKeepsReach(c: Config, s: State, path: string, f: string)
    requires NoOrphan(s) && IsConfirmed(Next(c, s, Unlink(path)), f)
    ensures HasPath(Next(c, s, Unlink(path)), f)
  {
    var n := Next(c, s, Unlink(path));
    assert IsConfirmed(s, f);
    var p :| p in s.nodes && s.nodes[p] == Entry(f);
    if p == path && path !in n.nodes {
      var q :| q in n.nodes && n.nodes[q] == s.nodes[path];
    } else {
      assert p in n.nodes && n.nodes[p] == Entry(f);
    }
  }

  /** A step leaves a confirmed row without a path exactly if it is a write that revives one. */
  lemma OrphanExact(c: Config, s: State, e: Step)
    requires NoDanglingPath(s) && NoOrphan(s)
    ensures NoOrphan(Next(c, s, e)) <==> !Revives(c, s, e)
  {
    var n := Next(c, s, e);
    if Revives(c, s, e) {
      RevivedIsOrphan(c, s, e);
    } else {
      forall f | IsConfirmed(n, f)
        ensures HasPath(n, f)
      {
        if e.Write? || e.Finalize? {
          WriteKeepsReach(c, s, e, f);
        } else if e.Unlink? {
          UnlinkKeepsReach(c, s, e.path, f);
        } else {
          assert IsConfirmed(s, f);
          var p :| p in s.nodes && s.nodes[p] == Entry(f);
          assert p in n.nodes && n.nodes[p] == Entry(f);
        }
      }
    }
  }

  /** Without the legacy table nothing revives: over every run, a file is confirmed exactly while it has a path. */
  lemma {:induction false} ConfirmedIffReachable(c: Config, s: State, es: seq<Step>)
    requires !c.legacy && NoDanglingPath(s) && NoOrphan(s)
    ensures forall f :: IsConfirmed(Run(c, s, es), f) <==> HasPath(Run(c, s, es), f)
    decreases |es|
  {
    if es != [] {
      StepKeepsPaths(c, s, es[0]);
      OrphanExact(c, s, es[0]);
      ConfirmedIffReachable(c, Next(c, s, es[0]), es[1..]);
    }
  }

  // ---------------------------------------------------------------- revisions never fall

  lemma StepKeepsFile(c: Config, s: State, e: Step, f: string)
    requires f in s.files
    ensures f in Next(c, s, e).files && Next(c, s, e).files[f].revision >= s.files[f].revision
  {
  }

  /** How many conditional writers that expect revision r of file f commit in a run. */
  function CommitsAt(c: Config, s: State, es: seq<Step>, f: string, r: int): nat
    decreases |es|
  {
    if es == [] then 0
    else (if Commits(c, s, es[0]) && Expected(es[0]) == r && Target(s, es[0]) == Some(f) then 1 else 0)
         + CommitsAt(c, Next(c, s, es[0]), es[1..], f, r)
  }

  lemma {:induction false} NoneCommitsBelow(c: Config, s: State, es: seq<Step>, f: string, r: int)
    requires r > 0 && f in s.files && s.files[f].revision > r
    ensures CommitsAt(c, s, es, f, r) == 0
    decreases |es|
  {
    if es != [] {
      if Commits(c, s, es[0]) && Expected(es[0]) == r {
        ConditionalCommit(c, s, es[0]);
      }
      StepKeepsFile(c, s, es[0], f);
      NoneCommitsBelow(c, Next(c, s, es[0]), es[1..], f, r);
    }
  }

  /** Over every run, at most one conditional writer commits for a file and an expected revision. */
  lemma {:induction false} AtMostOneCommit(c: Config, s: State, es: seq<Step>, f: string, r: int)
    requires r > 0
    ensures CommitsAt(c, s, es, f, r) <= 1
    decreases |es|
  {
    if es != [] {
      if Commits(c, s, es[0]) && Expected(es[0]) == r && Target(s, es[0]) == Some(f) {
        ConditionalCommit(c, s, es[0]);
        NoneCommitsBelow(c, Next(c, s, es[0]), es[1..], f, r);
      } else {
        AtMostOneCommit(c, Next(c, s, es[0]), es[1..], f, r);
      }
    }
  }

  // ---------------------------------------------------------------- no lost update

  /** The version a reader saw can no longer be the one a conditional commit replaces. */
  predicate Superseded(s: State, f: string, r: int) {
    f in s.files && (s.files[f].revision > r || (s.files[f].revision == r && s.files[f].status.Deleted?))
  }

  lemma StepKeepsSuperseded(c: Config, s: State, e: Step, f: string, r: int)
    requires Superseded(s, f, r)
    ensures Superseded(Next(c, s, e), f, r)
  {
  }

  lemma {:induction false} RunKeepsSuperseded(c: Config, s: State, es: seq<Step>, f: string, r: int)
    requires Superseded(s, f, r)
    ensures Superseded(Run(c, s, es), f, r)
    decreases |es|
  {
    if es != [] {
      StepKeepsSuperseded(c, s, es[0], f, r);
      RunKeepsSuperseded(c, Next(c, s, es[0]), es[1..], f, r);
    }
  }

  lemma StepChangesOrKeeps(c: Config, s: State, e: Step, f: string)
    requires f in s.files && s.files[f].status.Confirmed?
    ensures f in Next(c, s, e).files
    ensures Next(c, s, e).files[f] == s.files[f] || Superseded(Next(c, s, e), f, s.files[f].revision)
  {
  }

  /**
   * No lost update: a file is read, anything happens, and a writer that expects the revision
   * read commits. Then the row it replaces is exactly the row that was read.
   */
  lemma {:induction false} NoLostUpdate(c: Config, s: State, es: seq<Step>, e: Step, f: string)
    requires f in s.files && s.files[f].status.Confirmed? && s.files[f].revision > 0
    requires Commits(c, Run(c, s, es), e) && Target(Run(c, s, es), e) == Some(f) && Expected(e) == s.files[f].revision
    ensures f in Run(c, s, es).files && Run(c, s, es).files[f] == s.files[f]
    decreases |es|
  {
    if es != [] {
      var n := Next(c, s, es[0]);
      StepChangesOrKeeps(c, s, es[0], f);
      if n.files[f] == s.files[f] {
        NoLostUpdate(c, n, es[1..], e, f);
      } else {
        RunKeepsSuperseded(c, n, es[1..], f, s.files[f].revision);
        ConditionalCommit(c, Run(c, s, es), e);
        assert false;
      }
    }
  }

  // ---------------------------------------------------------------- create-if-absent

  /** How many create-if-absent writers win a path in a run. */
  function Wins(c: Config, s: State, es: seq<Step>, path: string): nat
    decreases |es|
  {
    if es == [] then 0
    else (if Commits(c, s, es[0]) && Expected(es[0]) == 0 && es[0].path == path then 1 else 0)
         + Wins(c, Next(c, s, es[0]), es[1..], path)
  }

  predicate NeverUnlinked(es: seq<Step>, path: string) {
    forall i :: 0 <= i < |es| ==> !(es[i].Unlink? && es[i].path == path)
  }

  lemma PathStays(c: Config, s: State, e: Step, path: string)
    requires path in s.nodes && !(e.Unlink? && e.path == path)
    ensures path in Next(c, s, e).nodes && Next(c, s, e).nodes[path] == s.nodes[path]
  {
  }

  /** While the path is not unlinked, at most one create-if-absent wins it, and none if it was there. */
  lemma {:induction false} AtMostOneWins(c: Config, s: State, es: seq<Step>, path: string)
    requires NeverUnlinked(es, path)
    ensures Wins(c, s, es, path) + (if path in s.nodes then 1 else 0) <= 1
    decreases |es|
  {
    if es != [] {
      var n := Next(c, s, es[0]);
      assert !(es[0].Unlink? && es[0].path == path);
      assert forall i :: 0 <= i < |es[1..]| ==> es[1..][i] == es[i + 1];
      if path in s.nodes {
        PathStays(c, s, es[0], path);
      }
      if Commits(c, s, es[0]) && Expected(es[0]) == 0 && es[0].path == path {
        CreateCommit(c, s, es[0]);
      }
      AtMostOneWins(c, n, es[1..], path);
    }
  }

  // ---------------------------------------------------------------- the backend

  class Backend {
    const config: Config
    var nodes: map<string, Node>
    var files: map<string, T.File>

    function View(): State
      reads this
    {
      State(nodes, files)
    }

    constructor (c: Config)
      ensures config == c && View() == State(map[], map[])
    {
      config := c;
      nodes, files := map[], map[];
    }

    /** One statement on the file rows. */
    method Exec(e: T.Step)
      modifies this`files
      ensures View() == Apply(config, old(View()), e)
    {
      files := T.NextFiles(config.h, config.legacy, files, e);
    }

    method CreateAndWrite(path: string, newId: string, body: T.Body) returns (r: Outcome)
      modifies this
      ensures forall expected :: (View(), if r == PathConflict && expected == 0 then RevisionConflict else r)
                                 == CreateTx(config, old(View()), path, expected, newId, body)
    {
      if newId in files {
        return Refused;
      }
      var before := files;
      Exec(T.Insert(newId, body, 1, T.Confirmed));
      if path in nodes {
        files := before;
        return PathConflict;
      }
      nodes := nodes[path := Entry(newId)];
      r := Done(1);
    }

    method Overwrite(id: string, expected: int, body: T.Body) returns (r: Outcome)
      modifies this
      ensures (View(), r) == OverwriteTx(config, old(View()), id, expected, body)
    {
      if !T.Updatable(config.legacy, files, id, expected) {
        return if expected > 0 then RevisionConflict else NotFound;
      }
      Exec(T.Update(id, expected, body));
      r := Done(files[id].revision);
    }

    /** A write that looked at the path earlier and saw `seen`. */
    method Write(path: string, seen: Option<Seen>, expected: int, create: bool, exclusive: bool, newId: string,
                 body: T.Body)
      returns (r: Outcome)
      modifies this
      ensures (View(), r) == Tx(config, old(View()), Step.Write(path, seen, expected, create, exclusive, newId, body))
    {
      if seen.None? {
        if expected > 0 {
          return RevisionConflict;
        }
        if !create {
          return if expected == 0 then RevisionConflict else NotFound;
        }
        r := CreateAndWrite(path, newId, body);
        if expected == 0 && r == PathConflict {
          r := RevisionConflict;
        }
        return r;
      }
      if expected == 0 {
        return RevisionConflict;
      }
      if seen.value.SeenDirectory? || exclusive {
        return Refused;
      }
      if expected > 0 && seen.value.revision != expected {
        return RevisionConflict;
      }
      r := Overwrite(seen.value.id, expected, body);
    }

    /** The overwrite branch of finalizing an upload; on an error the transaction is rolled back. */
    method FinalizeOverwrite(id: string, upload: string, expected: int, body: T.Body) returns (r: Outcome)
      modifies this`files
      ensures (View(), r) == FinalizeOver(config, old(View()), id, upload, expected, body)
    {
      if expected == 0 || id !in files || !files[id].status.Confirmed? {
        return RevisionConflict;
      }
      if expected > 0 && files[id].revision != expected {
        return RevisionConflict;
      }
      var before := files;
      Exec(T.Update(id, expected, body));
      var newRev := files[id].revision;
      if !T.IsPending(files, upload) {
        files := before;
        return NotFound;
      }
      Exec(T.DeletePending(upload));
      r := Done(newRev);
    }

    method Finalize(path: string, upload: string, expected: int, body: T.Body) returns (r: Outcome)
      modifies this
      ensures (View(), r) == Tx(config, old(View()), Step.Finalize(path, upload, expected, body))
    {
      if path in nodes && nodes[path].Entry? {
        r := FinalizeOverwrite(nodes[path].id, upload, expected, body);
        return r;
      }
      if expected > 0 {
        return RevisionConflict;
      }
      if !T.IsPending(files, upload) {
        return NotFound;
      }
      if path in nodes {
        return if expected >= 0 then RevisionConflict else PathConflict;
      }
      Exec(T.Confirm(upload, body));
      nodes := nodes[path := Entry(upload)];
      r := Done(1);
    }
  }
}
