/**
 * The hash-chained journal (pkg/datastore/journal.go, pkg/journal/journal.go). The hash is a
 * parameter `h` over canonical documents; where collision freedom matters it is assumed
 * injective over genesis, entry, create and request documents together.
 */
module JournalChain {
  import opened Options

  datatype Actor = Actor(kind: string, id: string)

  datatype CreateRequest = CreateRequest(kind: string, title: string, actor: Actor, source: string,
                                         labels: seq<(string, string)>, retention: string)
  datatype Genesis = Genesis(request: CreateRequest, createdAt: int)

  /** A normalized entry as the writer sent it. */
  datatype Input = Input(typ: string, schemaVersion: int, status: string, occurredAt: Option<int>, actor: Actor,
                         source: string, parent: string, correlation: string, subjects: seq<string>, summary: string)

  datatype Entry = Entry(seqNo: int, entryId: string, typ: string, schemaVersion: int, status: string,
                         occurredAt: int, observedAt: int, actor: Actor, source: string,
                         parent: string, correlation: string, subjects: seq<string>, summary: string,
                         prevHash: string, entryHash: string)

  /** The documents that are hashed. EntryDoc holds every column of the entry but its own hash. */
  datatype Doc =
    | GenesisDoc(genesis: Genesis)
    | EntryDoc(unsealed: Entry)
    | CreateDoc(request: CreateRequest)
    | RequestDoc(inputs: seq<Input>)

  type Hasher = Doc -> string

  ghost predicate Injective(h: Hasher) { forall a, b :: h(a) == h(b) ==> a == b }

  function EntryHashOf(h: Hasher, e: Entry): string { h(EntryDoc(e.(entryHash := ""))) }

  // ---------------------------------------------------------------- chains

  function LastHash(prev: string, es: seq<Entry>): string {
    if es == [] then prev else es[|es| - 1].entryHash
  }

  /** What VerifyJournal tests of each entry: it points at its predecessor and hashes to its own hash. */
  predicate Linked(h: Hasher, prev: string, es: seq<Entry>)
    decreases |es|
  {
    es == [] || (es[0].prevHash == prev && es[0].entryHash == EntryHashOf(h, es[0])
                 && Linked(h, es[0].entryHash, es[1..]))
  }

  /** Sequence numbers run from `first` without a gap. */
  predicate Numbered(first: int, es: seq<Entry>) {
    forall i :: 0 <= i < |es| ==> es[i].seqNo == first + i
  }

  lemma {:induction false} LinkedConcat(h: Hasher, prev: string, a: seq<Entry>, b: seq<Entry>)
    ensures Linked(h, prev, a + b) <==> Linked(h, prev, a) && Linked(h, LastHash(prev, a), b)
    ensures LastHash(prev, a + b) == LastHash(LastHash(prev, a), b)
    decreases |a|
  {
    if a == [] {
      assert a + b == b;
    } else {
      assert (a + b)[1..] == a[1..] + b;
      LinkedConcat(h, a[0].entryHash, a[1..], b);
    }
  }

  /** The last entry of a linked chain seals the hash of everything before it. */
  lemma LinkedSnoc(h: Hasher, prev: string, es: seq<Entry>)
    requires Linked(h, prev, es) && es != []
    ensures var k := |es| - 1;
            Linked(h, prev, es[..k]) && es[k].prevHash == LastHash(prev, es[..k])
            && es[k].entryHash == EntryHashOf(h, es[k])
  {
    var k := |es| - 1;
    assert es == es[..k] + [es[k]];
    LinkedConcat(h, prev, es[..k], [es[k]]);
  }

  /** Two linked chains with one head hash start from one genesis and hold the same entries. */
  lemma {:induction false} HeadFixesChain(h: Hasher, g1: Genesis, a: seq<Entry>, g2: Genesis, b: seq<Entry>)
    requires Injective(h)
    requires Linked(h, h(GenesisDoc(g1)), a) && Linked(h, h(GenesisDoc(g2)), b)
    requires LastHash(h(GenesisDoc(g1)), a) == LastHash(h(GenesisDoc(g2)), b)
    ensures g1 == g2 && a == b
    decreases |a|
  {
    if a != [] { LinkedSnoc(h, h(GenesisDoc(g1)), a); }
    if b != [] { LinkedSnoc(h, h(GenesisDoc(g2)), b); }
    if a != [] && b != [] {
      var x, y := a[|a| - 1], b[|b| - 1];
      assert h(EntryDoc(x.(entryHash := ""))) == h(EntryDoc(y.(entryHash := "")));
      assert x.(entryHash := "") == y.(entryHash := "");
      HeadFixesChain(h, g1, a[..|a| - 1], g2, b[..|b| - 1]);
      assert a == a[..|a| - 1] + [x] && b == b[..|b| - 1] + [y];
    } else if a != [] || b != [] {
      assert false;
    }
  }

  // ---------------------------------------------------------------- the journal and its operations

  datatype Writer = Writer(kind: string, id: string)

  datatype RequestRow = RequestRow(requestHash: string, writer: Writer, source: string,
                                   firstSeq: int, lastSeq: int, count: int, headHash: string)

  datatype Journal = Journal(genesis: Genesis, createHash: string, genesisHash: string, headHash: string,
                             nextSeq: int, closed: bool,
                             entries: seq<Entry>, requests: map<string, RequestRow>)

  /** One append call: its idempotency key, who writes, and the values the server draws for it. */
  datatype AppendCall = AppendCall(appendId: string, writer: Writer, source: string, inputs: seq<Input>,
                                   entryIds: seq<string>, observedAt: int)

  datatype Response = Response(firstSeq: int, lastSeq: int, count: int, headHash: string, idempotent: bool)
  datatype Outcome = Answered(response: Response) | Invalid | TooLarge | Closed | IdempotencyConflict

  const SOURCE_SELF := "self"
  const MAX_ENTRIES_PER_BATCH := 500

  predicate NoActor(a: Actor) { a.kind == "" && a.id == "" }

  function ResolveActor(journal: Actor, w: Writer, own: Actor): Actor {
    if !NoActor(own) then own else if !NoActor(journal) then journal else Actor(w.kind, w.id)
  }

  function Seal(h: Hasher, journal: Actor, c: AppendCall, input: Input, entryId: string, seqNo: int,
                prev: string): Entry
  {
    var e := Entry(seqNo, entryId, input.typ, input.schemaVersion, input.status,
                   if input.occurredAt.Some? then input.occurredAt.value else c.observedAt, c.observedAt,
                   ResolveActor(journal, c.writer, input.actor), c.source,
                   input.parent, input.correlation, input.subjects, input.summary, prev, "");
    e.(entryHash := EntryHashOf(h, e))
  }

  predicate WellFormed(c: AppendCall) {
    && c.appendId != "" && c.inputs != [] && |c.entryIds| == |c.inputs|
    && forall i :: 0 <= i < |c.inputs| ==> c.inputs[i].source == SOURCE_SELF || c.inputs[i].source == c.source
  }

  /** The entries a new batch adds, from input k on. */
  function Build(h: Hasher, journal: Actor, c: AppendCall, k: nat, seqNo: int, prev: string): seq<Entry>
    requires k <= |c.inputs| == |c.entryIds|
    decreases |c.inputs| - k
  {
    if k == |c.inputs| then [] else
      var e := Seal(h, journal, c, c.inputs[k], c.entryIds[k], seqNo, prev);
      [e] + Build(h, journal, c, k + 1, seqNo + 1, e.entryHash)
  }

  function Batch(h: Hasher, j: Journal, c: AppendCall): seq<Entry>
    requires WellFormed(c)
  {
    Build(h, j.genesis.request.actor, c, 0, j.nextSeq, j.headHash)
  }

  predicate SameRequest(h: Hasher, r: RequestRow, c: AppendCall) {
    r.requestHash == h(RequestDoc(c.inputs)) && r.writer == c.writer && r.source == c.source
  }

  function ResponseOf(r: RequestRow, idempotent: bool): Response {
    Response(r.firstSeq, r.lastSeq, r.count, r.headHash, idempotent)
  }

  function NewRow(h: Hasher, j: Journal, c: AppendCall): RequestRow
    requires WellFormed(c)
  {
    RequestRow(h(RequestDoc(c.inputs)), c.writer, c.source, j.nextSeq, j.nextSeq + |c.inputs| - 1, |c.inputs|,
               LastHash(j.headHash, Batch(h, j, c)))
  }

  /** A call that passes the tests made before the transaction. */
  predicate Acceptable(c: AppendCall) { WellFormed(c) && |c.inputs| <= MAX_ENTRIES_PER_BATCH }

  predicate Commits(j: Journal, c: AppendCall) { Acceptable(c) && !j.closed && c.appendId !in j.requests }

  function OutcomeOf(h: Hasher, j: Journal, c: AppendCall): Outcome {
    if c.appendId == "" || c.inputs == [] then Invalid
    else if |c.inputs| > MAX_ENTRIES_PER_BATCH then TooLarge
    else if !WellFormed(c) then Invalid
    else if j.closed then Closed
    else if c.appendId in j.requests then
      if SameRequest(h, j.requests[c.appendId], c) then Answered(ResponseOf(j.requests[c.appendId], true))
      else IdempotencyConflict
    else Answered(ResponseOf(NewRow(h, j, c), false))
  }

  function Append(h: Hasher, j: Journal, c: AppendCall): Journal {
    if Commits(j, c) then
      var row := NewRow(h, j, c);
      j.(entries := j.entries + Batch(h, j, c), nextSeq := row.lastSeq + 1, headHash := row.headHash,
         requests := j.requests[c.appendId := row])
    else j
  }

  function NewJournal(h: Hasher, g: Genesis): Journal {
    var gh := h(GenesisDoc(g));
    Journal(g, h(CreateDoc(g.request)), gh, gh, 1, false, [], map[])
  }

  // ---------------------------------------------------------------- what every run keeps

  predicate Chained(h: Hasher, j: Journal) {
    && j.createHash == h(CreateDoc(j.genesis.request)) && j.genesisHash == h(GenesisDoc(j.genesis))
    && Linked(h, j.genesisHash, j.entries)
    && Numbered(1, j.entries) && j.nextSeq == |j.entries| + 1
    && j.headHash == LastHash(j.genesisHash, j.entries)
  }

  /** A request row names a range of the entries, and the head as its last entry left it. */
  predicate RowInRange(j: Journal, r: RequestRow) {
    && 1 <= r.firstSeq <= r.lastSeq <= |j.entries|
    && r.count == r.lastSeq - r.firstSeq + 1
    && r.headHash == j.entries[r.lastSeq - 1].entryHash
  }

  predicate Disjoint(a: RequestRow, b: RequestRow) { a.lastSeq < b.firstSeq || b.lastSeq < a.firstSeq }

  predicate RowsOk(j: Journal) {
    && (forall k :: k in j.requests ==> RowInRange(j, j.requests[k]))
    && (forall k, l :: k in j.requests && l in j.requests && k != l ==> Disjoint(j.requests[k], j.requests[l]))
  }

  lemma {:induction false} BuildIsLinked(h: Hasher, journal: Actor, c: AppendCall, k: nat, seqNo: int, prev: string)
    requires k <= |c.inputs| == |c.entryIds|
    ensures var es := Build(h, journal, c, k, seqNo, prev);
            && |es| == |c.inputs| - k
            && Linked(h, prev, es) && Numbered(seqNo, es)
    decreases |c.inputs| - k
  {
    if k < |c.inputs| {
      var e := Seal(h, journal, c, c.inputs[k], c.entryIds[k], seqNo, prev);
      assert e.(entryHash := "").entryHash == "" && EntryHashOf(h, e) == e.entryHash;
      BuildIsLinked(h, journal, c, k + 1, seqNo + 1, e.entryHash);
    }
  }

  lemma NumberedConcat(first: int, a: seq<Entry>, b: seq<Entry>)
    requires Numbered(first, a) && Numbered(first + |a|, b)
    ensures Numbered(first, a + b)
  {
  }

  lemma AppendKeepsChain(h: Hasher, j: Journal, c: AppendCall)
    requires Chained(h, j)
    ensures Chained(h, Append(h, j, c))
  {
    if Commits(j, c) {
      var b := Batch(h, j, c);
      BuildIsLinked(h, j.genesis.request.actor, c, 0, j.nextSeq, j.headHash);
      LinkedConcat(h, j.genesisHash, j.entries, b);
      NumberedConcat(1, j.entries, b);
    }
  }

  /** The actor an entry is stored with: its own, else the journal's, else the writer. */
  predicate StoredActor(a: Actor, own: Actor, journal: Actor, w: Writer) {
    && (own.kind != "" || own.id != "" ==> a == own)
    && (own.kind == "" && own.id == "" && (journal.kind != "" || journal.id != "") ==> a == journal)
    && (own.kind == "" && own.id == "" && journal.kind == "" && journal.id == "" ==> a == Actor(w.kind, w.id))
  }

  /** What the table holds of one input: every column of the entry. */
  predicate Stores(e: Entry, input: Input, entryId: string, journal: Actor, c: AppendCall) {
    && e.entryId == entryId && e.typ == input.typ && e.schemaVersion == input.schemaVersion
    && e.status == input.status && e.parent == input.parent && e.correlation == input.correlation
    && e.subjects == input.subjects && e.summary == input.summary && e.source == c.source
    && e.observedAt == c.observedAt && (input.occurredAt.None? ==> e.occurredAt == c.observedAt)
    && (input.occurredAt.Some? ==> e.occurredAt == input.occurredAt.value)
    && StoredActor(e.actor, input.actor, journal, c.writer)
  }

  lemma SealStores(h: Hasher, journal: Actor, c: AppendCall, input: Input, entryId: string, seqNo: int, prev: string)
    ensures Stores(Seal(h, journal, c, input, entryId, seqNo, prev), input, entryId, journal, c)
  {
  }

  lemma {:induction false} BuildSeals(h: Hasher, journal: Actor, c: AppendCall, k: nat, seqNo: int, prev: string,
                                      i: nat)
    requires k <= i < |c.inputs| == |c.entryIds|
    ensures |Build(h, journal, c, k, seqNo, prev)| == |c.inputs| - k
    ensures exists n, p :: Build(h, journal, c, k, seqNo, prev)[i - k] ==
                           Seal(h, journal, c, c.inputs[i], c.entryIds[i], n, p)
    decreases |c.inputs| - k
  {
    var e := Seal(h, journal, c, c.inputs[k], c.entryIds[k], seqNo, prev);
    BuildIsLinked(h, journal, c, k, seqNo, prev);
    if i > k {
      BuildSeals(h, journal, c, k + 1, seqNo + 1, e.entryHash, i);
    }
  }

  lemma BuildStores(h: Hasher, journal: Actor, c: AppendCall, seqNo: int, prev: string, i: nat)
    requires i < |c.inputs| == |c.entryIds|
    ensures |Build(h, journal, c, 0, seqNo, prev)| == |c.inputs|
    ensures Stores(Build(h, journal, c, 0, seqNo, prev)[i], c.inputs[i], c.entryIds[i], journal, c)
  {
    BuildSeals(h, journal, c, 0, seqNo, prev, i);
    var n, p :| Build(h, journal, c, 0, seqNo, prev)[i] == Seal(h, journal, c, c.inputs[i], c.entryIds[i], n, p);
    SealStores(h, journal, c, c.inputs[i], c.entryIds[i], n, p);
  }

  /** After a committed append, entry firstSeq + k holds input k, and the earlier entries are untouched. */
  lemma EntriesHoldTheInputs(h: Hasher, j: Journal, c: AppendCall, k: nat)
    requires Chained(h, j) && Commits(j, c) && k < |c.inputs|
    ensures var after := Append(h, j, c);
            && |after.entries| == |j.entries| + |c.inputs| && j.entries <= after.entries
            && after.entries[|j.entries| + k].seqNo == |j.entries| + k + 1
            && Stores(after.entries[|j.entries| + k], c.inputs[k], c.entryIds[k], j.genesis.request.actor, c)
  {
    BuildStores(h, j.genesis.request.actor, c, j.nextSeq, j.headHash, k);
    AppendKeepsChain(h, j, c);
  }

  /** Which answer a call gets, on what it carries and on the journal's columns. */
  lemma OutcomeExact(h: Hasher, j: Journal, c: AppendCall)
    requires |c.entryIds| == |c.inputs|
    ensures var foreign := exists i :: 0 <= i < |c.inputs| && c.inputs[i].source != SOURCE_SELF
                                       && c.inputs[i].source != c.source;
            var sized := c.appendId != "" && 1 <= |c.inputs| <= 500;
            && (OutcomeOf(h, j, c).TooLarge? <==> c.appendId != "" && |c.inputs| > 500)
            && (OutcomeOf(h, j, c).Invalid? <==> c.appendId == "" || c.inputs == [] || (sized && foreign))
            && (OutcomeOf(h, j, c).Closed? <==> sized && !foreign && j.closed)
            && (OutcomeOf(h, j, c).IdempotencyConflict? <==>
                sized && !foreign && !j.closed && c.appendId in j.requests
                && !(j.requests[c.appendId].requestHash == h(RequestDoc(c.inputs))
                     && j.requests[c.appendId].writer == c.writer && j.requests[c.appendId].source == c.source))
            && (OutcomeOf(h, j, c).Answered? && !OutcomeOf(h, j, c).response.idempotent <==> Append(h, j, c) != j)
  {
    if Commits(j, c) {
      BuildIsLinked(h, j.genesis.request.actor, c, 0, j.nextSeq, j.headHash);
      assert |Append(h, j, c).entries| > |j.entries|;
    }
  }

  lemma RowSurvives(j: Journal, j': Journal, r: RequestRow)
    requires RowInRange(j, r) && j.entries <= j'.entries
    ensures RowInRange(j', r)
  {
  }

  lemma NewRowInRange(h: Hasher, j: Journal, c: AppendCall)
    requires Chained(h, j) && Commits(j, c)
    ensures RowInRange(Append(h, j, c), NewRow(h, j, c))
  {
    BuildIsLinked(h, j.genesis.request.actor, c, 0, j.nextSeq, j.headHash);
    var b := Batch(h, j, c);
    assert (j.entries + b)[|j.entries| + |b| - 1] == b[|b| - 1];
  }

  lemma AppendKeepsRows(h: Hasher, j: Journal, c: AppendCall)
    requires Chained(h, j) && RowsOk(j)
    ensures RowsOk(Append(h, j, c))
  {
    if Commits(j, c) {
      var row, j' := NewRow(h, j, c), Append(h, j, c);
      NewRowInRange(h, j, c);
      forall k | k in j.requests
        ensures RowInRange(j', j.requests[k]) && Disjoint(j.requests[k], row)
      {
        assert RowInRange(j, j.requests[k]);
        RowSurvives(j, j', j.requests[k]);
      }
    }
  }

  // ---------------------------------------------------------------- runs

  function Run(h: Hasher, j: Journal, calls: seq<AppendCall>): Journal
    decreases |calls|
  {
    if calls == [] then j else Run(h, Append(h, j, calls[0]), calls[1..])
  }

  /** Call k is the first acceptable one with its key, and the journal is open and has no row for that key. */
  predicate FirstOfItsKey(j: Journal, calls: seq<AppendCall>, k: nat) {
    && k < |calls| && Acceptable(calls[k]) && !j.closed && calls[k].appendId !in j.requests
    && forall i :: 0 <= i < k && Acceptable(calls[i]) ==> calls[i].appendId != calls[k].appendId
  }

  /** The batches of the first call of each key, in call order, each sealed where the calls before it left the chain. */
  function FirstBatches(h: Hasher, j: Journal, calls: seq<AppendCall>): seq<seq<Entry>>
    decreases |calls|
  {
    if calls == [] then [] else
      var k := |calls| - 1;
      FirstBatches(h, j, calls[..k])
      + (if FirstOfItsKey(j, calls, k) then [Batch(h, Run(h, j, calls[..k]), calls[k])] else [])
  }

  function Flatten(bs: seq<seq<Entry>>): seq<Entry> {
    if bs == [] then [] else bs[0] + Flatten(bs[1..])
  }

  lemma {:induction false} RunKeepsChain(h: Hasher, j: Journal, calls: seq<AppendCall>)
    requires Chained(h, j) && RowsOk(j)
    ensures Chained(h, Run(h, j, calls)) && RowsOk(Run(h, j, calls))
    decreases |calls|
  {
    if calls != [] {
      AppendKeepsChain(h, j, calls[0]);
      AppendKeepsRows(h, j, calls[0]);
      RunKeepsChain(h, Append(h, j, calls[0]), calls[1..]);
    }
  }

  lemma {:induction false} RunConcat(h: Hasher, j: Journal, a: seq<AppendCall>, b: seq<AppendCall>)
    ensures Run(h, j, a + b) == Run(h, Run(h, j, a), b)
    decreases |a|
  {
    if a == [] {
      assert a + b == b;
    } else {
      assert (a + b)[1..] == a[1..] + b;
      RunConcat(h, Append(h, j, a[0]), a[1..], b);
    }
  }

  lemma ConcatAssoc(a: seq<Entry>, b: seq<Entry>, c: seq<Entry>)
    ensures (a + b) + c == a + (b + c)
  {
  }

  lemma RunSnoc(h: Hasher, j: Journal, calls: seq<AppendCall>, c: AppendCall)
    ensures Run(h, j, calls + [c]) == Append(h, Run(h, j, calls), c)
  {
    RunConcat(h, j, calls, [c]);
    assert [c][1..] == [];
  }

  /** A run leaves rows for the keys it found and, if the journal is open, for those of its acceptable calls. */
  lemma {:induction false} KeysOfRun(h: Hasher, j: Journal, calls: seq<AppendCall>, key: string)
    ensures Run(h, j, calls).closed == j.closed
    ensures key in Run(h, j, calls).requests <==>
            key in j.requests
            || (!j.closed && exists i :: 0 <= i < |calls| && Acceptable(calls[i]) && calls[i].appendId == key)
    decreases |calls|
  {
    if calls != [] {
      KeysOfRun(h, Append(h, j, calls[0]), calls[1..], key);
      assert forall i :: 0 < i < |calls| ==> calls[i] == calls[1..][i - 1];
    }
  }

  /** Over every run, exactly the first acceptable call with each key commits. */
  lemma FirstOfItsKeyCommits(h: Hasher, j: Journal, calls: seq<AppendCall>, k: nat)
    requires k < |calls|
    ensures Commits(Run(h, j, calls[..k]), calls[k]) <==> FirstOfItsKey(j, calls, k)
  {
    KeysOfRun(h, j, calls[..k], calls[k].appendId);
  }

  /** No key commits twice, whatever its calls carry. */
  lemma NoKeyCommitsTwice(h: Hasher, j: Journal, calls: seq<AppendCall>, a: nat, b: nat)
    requires a < b < |calls| && calls[a].appendId == calls[b].appendId
    requires Commits(Run(h, j, calls[..a]), calls[a])
    ensures !Commits(Run(h, j, calls[..b]), calls[b])
  {
    FirstOfItsKeyCommits(h, j, calls, a);
    FirstOfItsKeyCommits(h, j, calls, b);
  }

  lemma {:induction false} FlattenSnoc(bs: seq<seq<Entry>>, b: seq<Entry>)
    ensures Flatten(bs + [b]) == Flatten(bs) + b
  {
    if bs == [] {
      assert (bs + [b])[1..] == [] && b + [] == b;
    } else {
      assert (bs + [b])[1..] == bs[1..] + [b];
      FlattenSnoc(bs[1..], b);
      ConcatAssoc(bs[0], Flatten(bs[1..]), b);
    }
  }

  /** Whatever is retried or reused, the entries are the batches of the first call of each key, in order. */
  lemma {:induction false} EntriesAreTheBatches(h: Hasher, j: Journal, calls: seq<AppendCall>)
    ensures Run(h, j, calls).entries == j.entries + Flatten(FirstBatches(h, j, calls))
    decreases |calls|
  {
    if calls == [] {
      assert j.entries + [] == j.entries;
    } else {
      var k := |calls| - 1;
      var before, bs := Run(h, j, calls[..k]), FirstBatches(h, j, calls[..k]);
      assert calls == calls[..k] + [calls[k]];
      RunSnoc(h, j, calls[..k], calls[k]);
      FirstOfItsKeyCommits(h, j, calls, k);
      EntriesAreTheBatches(h, j, calls[..k]);
      if FirstOfItsKey(j, calls, k) {
        FlattenSnoc(bs, Batch(h, before, calls[k]));
        ConcatAssoc(j.entries, Flatten(bs), Batch(h, before, calls[k]));
      } else {
        assert FirstBatches(h, j, calls) == bs + [] == bs;
      }
    }
  }

  /** A key that has a row keeps that row for good, and entries only grow at the end. */
  lemma {:induction false} RowsAreFinal(h: Hasher, j: Journal, calls: seq<AppendCall>, key: string)
    requires key in j.requests
    ensures key in Run(h, j, calls).requests && Run(h, j, calls).requests[key] == j.requests[key]
    ensures j.entries <= Run(h, j, calls).entries && Run(h, j, calls).closed == j.closed
    decreases |calls|
  {
    if calls != [] {
      RowsAreFinal(h, Append(h, j, calls[0]), calls[1..], key);
    }
  }

  lemma PrefixRange(a: seq<Entry>, b: seq<Entry>, all: seq<Entry>)
    requires a + b <= all
    ensures all[|a|..|a| + |b|] == b
  {
  }

  /** The first answer: the numbers after the journal's last, one for each input, and the new head. */
  lemma FirstAnswer(h: Hasher, j: Journal, c: AppendCall)
    requires Chained(h, j) && Commits(j, c)
    ensures var n, after := |j.entries|, Append(h, j, c);
            && OutcomeOf(h, j, c) == Answered(Response(n + 1, n + |c.inputs|, |c.inputs|, after.headHash, false))
            && after.entries == j.entries + Batch(h, j, c) && |Batch(h, j, c)| == |c.inputs|
            && c.appendId in after.requests && SameRequest(h, after.requests[c.appendId], c)
            && ResponseOf(after.requests[c.appendId], false) == OutcomeOf(h, j, c).response
  {
    BuildIsLinked(h, j.genesis.request.actor, c, 0, j.nextSeq, j.headHash);
  }

  lemma RetryAnswer(h: Hasher, after: Journal, again: AppendCall)
    requires WellFormed(again) && |again.inputs| <= MAX_ENTRIES_PER_BATCH && !after.closed
    requires again.appendId in after.requests && SameRequest(h, after.requests[again.appendId], again)
    ensures OutcomeOf(h, after, again) == Answered(ResponseOf(after.requests[again.appendId], true))
    ensures Append(h, after, again) == after
  {
  }

  /**
   * The first answer names exactly the range its batch occupies. After any further calls the
   * range still holds that batch, and a retry while the journal is open gets the same range
   * and changes nothing.
   */
  lemma RetryNamesTheSameRange(h: Hasher, j: Journal, c: AppendCall, more: seq<AppendCall>, again: AppendCall)
    requires Chained(h, j) && Commits(j, c)
    requires again.appendId == c.appendId && again.inputs == c.inputs && again.writer == c.writer
             && again.source == c.source
    requires WellFormed(again)
    ensures var after := Run(h, Append(h, j, c), more);
            && OutcomeOf(h, j, c).Answered? && OutcomeOf(h, after, again).Answered?
            && var first, retry := OutcomeOf(h, j, c).response, OutcomeOf(h, after, again).response;
            && retry == first.(idempotent := true)
            && Append(h, after, again) == after
            && 1 <= first.firstSeq <= first.lastSeq <= |after.entries|
            && after.entries[first.firstSeq - 1..first.lastSeq] == Batch(h, j, c)
  {
    FirstAnswer(h, j, c);
    RowsAreFinal(h, Append(h, j, c), more, c.appendId);
    RetryAnswer(h, Run(h, Append(h, j, c), more), again);
    PrefixRange(j.entries, Batch(h, j, c), Run(h, Append(h, j, c), more).entries);
  }

  /** A key reused for another request, writer or source is refused and changes nothing. */
  lemma ReuseConflicts(h: Hasher, j: Journal, c: AppendCall, more: seq<AppendCall>, other: AppendCall)
    requires Injective(h) && Commits(j, c)
    requires other.appendId == c.appendId && WellFormed(other) && |other.inputs| <= MAX_ENTRIES_PER_BATCH
    requires other.inputs != c.inputs || other.writer != c.writer || other.source != c.source
    ensures var after := Run(h, Append(h, j, c), more);
            OutcomeOf(h, after, other).IdempotencyConflict? && Append(h, after, other) == after
  {
    RowsAreFinal(h, Append(h, j, c), more, c.appendId);
    if h(RequestDoc(other.inputs)) == h(RequestDoc(c.inputs)) {
      assert RequestDoc(other.inputs) == RequestDoc(c.inputs);
    }
  }

  // ---------------------------------------------------------------- verification

  /** The verdict of VerifyJournal on a stored genesis, genesis hash, head and listed entries. */
  predicate HashChainOk(h: Hasher, g: Genesis, storedGenesisHash: string, storedHead: string, es: seq<Entry>) {
    var gh := h(GenesisDoc(g));
    gh == storedGenesisHash && Linked(h, gh, es) && LastHash(gh, es) == storedHead
  }

  /** Every journal that create and append can produce verifies. */
  lemma ReachableVerifies(h: Hasher, g: Genesis, calls: seq<AppendCall>)
    ensures var j := Run(h, NewJournal(h, g), calls);
            HashChainOk(h, j.genesis, j.genesisHash, j.headHash, j.entries) && Numbered(1, j.entries)
  {
    RunKeepsChain(h, NewJournal(h, g), calls);
  }

  /** Tamper evidence: with the original head, only the original genesis and entries verify. */
  lemma TamperEvidence(h: Hasher, j: Journal, g: Genesis, storedGenesisHash: string, listed: seq<Entry>)
    requires Injective(h) && Chained(h, j)
    ensures HashChainOk(h, g, storedGenesisHash, j.headHash, listed) <==>
            g == j.genesis && storedGenesisHash == j.genesisHash && listed == j.entries
  {
    if HashChainOk(h, g, storedGenesisHash, j.headHash, listed) {
      HeadFixesChain(h, g, listed, j.genesis, j.entries);
    }
  }

  /** A run adds entries exactly when one of its calls commits. */
  lemma {:induction false} GrowsExactly(h: Hasher, j: Journal, calls: seq<AppendCall>)
    ensures j.entries <= Run(h, j, calls).entries
    ensures Run(h, j, calls).entries == j.entries <==>
            forall k :: 0 <= k < |calls| ==> !Commits(Run(h, j, calls[..k]), calls[k])
    decreases |calls|
  {
    if calls != [] {
      var n := |calls| - 1;
      var before := Run(h, j, calls[..n]);
      assert calls == calls[..n] + [calls[n]];
      RunSnoc(h, j, calls[..n], calls[n]);
      GrowsExactly(h, j, calls[..n]);
      assert forall k :: 0 <= k < n ==> calls[..n][..k] == calls[..k];
      if Commits(before, calls[n]) {
        BuildIsLinked(h, before.genesis.request.actor, calls[n], 0, before.nextSeq, before.headHash);
      }
    }
  }

  /** Against a head read before some appends, the entries after them verify exactly when none committed. */
  lemma SnapshotVerifies(h: Hasher, j: Journal, calls: seq<AppendCall>)
    requires Injective(h) && Chained(h, j)
    ensures HashChainOk(h, j.genesis, j.genesisHash, j.headHash, Run(h, j, calls).entries) <==>
            forall k :: 0 <= k < |calls| ==> !Commits(Run(h, j, calls[..k]), calls[k])
  {
    TamperEvidence(h, j, j.genesis, j.genesisHash, Run(h, j, calls).entries);
    GrowsExactly(h, j, calls);
  }
}

/** The journal tables as an object, with the append loop and the paged verification. */
module JournalStore {
  import opened Options
  import opened JournalChain

  /** Rows come back in key order, and the key is the sequence number. */
  predicate Ordered(es: seq<Entry>) {
    forall i, j :: 0 <= i < j < |es| ==> es[i].seqNo < es[j].seqNo
  }

  function After(es: seq<Entry>, seqNo: int): seq<Entry> {
    if es == [] then [] else if es[0].seqNo > seqNo then es else After(es[1..], seqNo)
  }

  function Min(a: nat, b: nat): nat { if a <= b then a else b }

  function Page(es: seq<Entry>, afterSeq: int, limit: nat): seq<Entry> {
    var rest := After(es, afterSeq);
    rest[..Min(limit, |rest|)]
  }

  /** Listing is by sequence number: exactly the rows past `seqNo`, in order. */
  lemma {:induction false} AfterIsSuffix(es: seq<Entry>, seqNo: int)
    requires Ordered(es)
    ensures |After(es, seqNo)| <= |es| && After(es, seqNo) == es[|es| - |After(es, seqNo)|..]
    ensures forall i :: 0 <= i < |es| ==> (es[i].seqNo > seqNo <==> |es| - |After(es, seqNo)| <= i)
  {
    if es != [] && es[0].seqNo <= seqNo {
      AfterIsSuffix(es[1..], seqNo);
      assert forall i :: 0 < i < |es| ==> es[i] == es[1..][i - 1];
    }
  }

  /** Asking for what follows the k-th listed row gives the rows from k on. */
  lemma AfterPage(es: seq<Entry>, k: nat)
    requires Ordered(es) && 0 < k <= |After(es, 0)|
    ensures After(es, After(es, 0)[k - 1].seqNo) == After(es, 0)[k..]
  {
    var listed := After(es, 0);
    AfterIsSuffix(es, 0);
    var d := |es| - |listed|;
    var s := listed[k - 1].seqNo;
    assert listed[k - 1] == es[d + k - 1];
    AfterIsSuffix(es, s);
    var e := |es| - |After(es, s)|;
    assert e == d + k;
    assert es[e..] == es[d..][k..];
  }

  /** On a journal that appends built, listing from zero gives every entry. */
  lemma ListedIsEverything(h: Hasher, j: Journal)
    requires Chained(h, j)
    ensures Ordered(j.entries) && After(j.entries, 0) == j.entries
  {
  }

  /** The k-th page slice of a listing. */
  function Slice(listed: seq<Entry>, count: nat, limit: nat): seq<Entry>
    requires count <= |listed|
  {
    listed[count..count + Min(limit, |listed| - count)]
  }

  lemma FirstPage(es: seq<Entry>, limit: nat)
    ensures Page(es, 0, limit) == Slice(After(es, 0), 0, limit)
  {
  }

  lemma SliceFacts(l: seq<Entry>, a: nat, b: nat, m: nat)
    requires a < b && b + m <= |l|
    ensures l[..b] == l[..a] + l[a..b] && l[a..b][b - a - 1] == l[b - 1] && l[b..][..m] == l[b..b + m]
  {
  }

  lemma NextPage(es: seq<Entry>, listed: seq<Entry>, b: nat, limit: nat)
    requires Ordered(es) && listed == After(es, 0) && 0 < b <= |listed|
    ensures Page(es, listed[b - 1].seqNo, limit) == Slice(listed, b, limit)
  {
    AfterPage(es, b);
    var rest := listed[b..];
    assert Page(es, listed[b - 1].seqNo, limit) == rest[..Min(limit, |rest|)];
  }

  /** A page continues the list, and asking past its last row gives the next page. */
  lemma PageStep(es: seq<Entry>, listed: seq<Entry>, count: nat, page: seq<Entry>, limit: nat)
    requires Ordered(es) && listed == After(es, 0)
    requires count <= |listed| && page == Slice(listed, count, limit) && page != []
    ensures count + |page| <= |listed| && listed[..count] + page == listed[..count + |page|]
    ensures Page(es, page[|page| - 1].seqNo, limit) == Slice(listed, count + |page|, limit)
  {
    SliceFacts(listed, count, count + |page|, 0);
    NextPage(es, listed, count + |page|, limit);
  }

  // ---------------------------------------------------------------- pages read between appends

  /** A paged listing: cut off, or all pages and the read whose empty page ended it. */
  datatype Reading = Unfinished | Finished(listed: seq<Entry>, at: nat)

  /** What successive reads find while entries are only appended. */
  predicate Growing(views: seq<seq<Entry>>) {
    && (forall i :: 0 <= i < |views| ==> Numbered(1, views[i]))
    && (forall i, k :: 0 <= i < k < |views| ==> views[i] <= views[k])
  }

  lemma GrowingTail(views: seq<seq<Entry>>)
    requires Growing(views) && views != []
    ensures Growing(views[1..]) && (|views| > 1 ==> |views[0]| <= |views[1..][0]|)
  {
    assert |views| > 1 ==> views[0] <= views[1];
  }

  /** Read i takes a page of views[i], past the last row of the page before it. */
  function ReadPages(views: seq<seq<Entry>>, afterSeq: int, limit: nat): Reading {
    if views == [] then Unfinished else
      var page := Page(views[0], afterSeq, limit);
      if page == [] then Finished([], 0) else
        var rest := ReadPages(views[1..], page[|page| - 1].seqNo, limit);
        if rest.Unfinished? then Unfinished else Finished(page + rest.listed, rest.at + 1)
  }

  lemma AfterCount(es: seq<Entry>, n: nat)
    requires Numbered(1, es) && n <= |es|
    ensures After(es, n) == es[n..]
  {
    AfterIsSuffix(es, n);
    if n < |es| {
      assert es[n].seqNo == 1 + n;
    }
    if n > 0 {
      assert es[n - 1].seqNo == n;
    }
  }

  lemma PageAfter(es: seq<Entry>, n: nat, limit: nat)
    requires Numbered(1, es) && n <= |es| && limit > 0
    ensures var page := Page(es, n, limit);
            && n + |page| <= |es| && page == es[n..n + |page|]
            && (page == [] ==> n == |es|) && (page != [] ==> page[|page| - 1].seqNo == n + |page|)
  {
    AfterCount(es, n);
  }

  lemma PrefixSlice(a: seq<Entry>, b: seq<Entry>, lo: nat, hi: nat)
    requires a <= b && lo <= hi <= |a|
    ensures a[lo..hi] + b[hi..] == b[lo..]
  {
  }

  /** However appends fall between its pages, a listing that ends is the journal as its last read found it. */
  lemma {:induction false} PagesAreASnapshot(views: seq<seq<Entry>>, n: nat, limit: nat)
    requires Growing(views) && limit > 0 && (views != [] ==> n <= |views[0]|)
    requires ReadPages(views, n, limit).Finished?
    ensures var r := ReadPages(views, n, limit);
            r.at < |views| && n <= |views[r.at]| && r.listed == views[r.at][n..]
    decreases |views|
  {
    var r, page := ReadPages(views, n, limit), Page(views[0], n, limit);
    PageAfter(views[0], n, limit);
    if page != [] {
      GrowingTail(views);
      PagesAreASnapshot(views[1..], n + |page|, limit);
      PrefixSlice(views[0], views[r.at], n, n + |page|);
    }
  }

  /** The entries after the first moments[i] of the calls. */
  function Views(h: Hasher, j: Journal, calls: seq<AppendCall>, moments: seq<nat>): seq<seq<Entry>>
    requires forall i :: 0 <= i < |moments| ==> moments[i] <= |calls|
  {
    seq(|moments|, i requires 0 <= i < |moments| => Run(h, j, calls[..moments[i]]).entries)
  }

  lemma EarlierIsPrefix(h: Hasher, j: Journal, calls: seq<AppendCall>, m: nat, n: nat)
    requires m <= n <= |calls|
    ensures Run(h, j, calls[..m]).entries <= Run(h, j, calls[..n]).entries
  {
    RunConcat(h, j, calls[..m], calls[m..n]);
    assert calls[..n] == calls[..m] + calls[m..n];
    GrowsExactly(h, Run(h, j, calls[..m]), calls[m..n]);
  }

  lemma ViewsGrow(h: Hasher, j: Journal, calls: seq<AppendCall>, moments: seq<nat>)
    requires Chained(h, j) && RowsOk(j) && (forall i :: 0 <= i < |moments| ==> moments[i] <= |calls|)
    requires forall i, k :: 0 <= i < k < |moments| ==> moments[i] <= moments[k]
    ensures Growing(Views(h, j, calls, moments))
  {
    var views := Views(h, j, calls, moments);
    forall i | 0 <= i < |views|
      ensures Numbered(1, views[i])
    {
      RunKeepsChain(h, j, calls[..moments[i]]);
    }
    forall i, k | 0 <= i < k < |views|
      ensures views[i] <= views[k]
    {
      EarlierIsPrefix(h, j, calls, moments[i], moments[k]);
    }
  }

  /**
   * VerifyJournal reads the head first and then the entries, page by page, while appends go
   * on. It reports a good chain exactly when none committed before its last read.
   */
  lemma VerifyDuringAppends(h: Hasher, j: Journal, calls: seq<AppendCall>, moments: seq<nat>, limit: nat)
    requires Injective(h) && Chained(h, j) && RowsOk(j) && limit > 0
    requires forall i :: 0 <= i < |moments| ==> moments[i] <= |calls|
    requires forall i, k :: 0 <= i < k < |moments| ==> moments[i] <= moments[k]
    requires ReadPages(Views(h, j, calls, moments), 0, limit).Finished?
    ensures var r := ReadPages(Views(h, j, calls, moments), 0, limit);
            && r.at < |moments|
            && (HashChainOk(h, j.genesis, j.genesisHash, j.headHash, r.listed) <==>
                forall k :: 0 <= k < moments[r.at] ==> !Commits(Run(h, j, calls[..k]), calls[k]))
  {
    ViewsGrow(h, j, calls, moments);
    PagesAreASnapshot(Views(h, j, calls, moments), 0, limit);
    var last := moments[ReadPages(Views(h, j, calls, moments), 0, limit).at];
    SnapshotVerifies(h, j, calls[..last]);
    forall k | 0 <= k < last
      ensures Commits(Run(h, j, calls[..last][..k]), calls[..last][k]) <==> Commits(Run(h, j, calls[..k]), calls[k])
    {
      assert calls[..last][..k] == calls[..k];
    }
  }

  // ---------------------------------------------------------------- the store

  /** What the running flag and hash say about the entries seen so far. */
  predicate Verified(h: Hasher, gh: string, genesisHash: string, seen: seq<Entry>, ok: bool, prev: string) {
    (ok <==> gh == genesisHash && Linked(h, gh, seen)) && (ok ==> prev == LastHash(gh, seen))
  }

  lemma VerifiedNext(h: Hasher, gh: string, genesisHash: string, seen: seq<Entry>, e: Entry, ok: bool, prev: string)
    requires Verified(h, gh, genesisHash, seen, ok, prev)
    ensures Verified(h, gh, genesisHash, seen + [e],
                     ok && e.prevHash == prev && EntryHashOf(h, e) == e.entryHash, EntryHashOf(h, e))
  {
    LinkedConcat(h, gh, seen, [e]);
  }

  class Store {
    const h: Hasher
    var genesis: Genesis
    var createHash: string
    var genesisHash: string
    var headHash: string
    var nextSeq: int
    var closed: bool
    var entries: seq<Entry>
    var requests: map<string, RequestRow>

    function View(): Journal
      reads this
    {
      Journal(genesis, createHash, genesisHash, headHash, nextSeq, closed, entries, requests)
    }

    constructor (h: Hasher, request: CreateRequest, now: int)
      ensures this.h == h && View() == NewJournal(h, Genesis(request, now))
      ensures Chained(h, View()) && RowsOk(View())
    {
      this.h := h;
      genesis := Genesis(request, now);
      createHash := h(CreateDoc(request));
      genesisHash, headHash := h(GenesisDoc(Genesis(request, now))), h(GenesisDoc(Genesis(request, now)));
      nextSeq, closed, entries, requests := 1, false, [], map[];
    }

    /** CreateJournal on an existing row: accepted exactly for the request it was created with. */
    method CreateAgain(request: CreateRequest) returns (ok: bool)
      ensures Chained(h, View()) && request == genesis.request ==> ok
      ensures Chained(h, View()) && Injective(h) && ok ==> request == genesis.request
    {
      ok := createHash == h(CreateDoc(request));
    }

    /** The loop that seals each input onto the chain. */
    method BuildBatch(c: AppendCall) returns (inserted: seq<Entry>)
      requires WellFormed(c)
      ensures inserted == Batch(h, View(), c) && |inserted| == |c.inputs|
    {
      var actor := genesis.request.actor;
      var prevHash := headHash;
      inserted := [];
      for i := 0 to |c.inputs|
        invariant |inserted| == i
        invariant inserted + Build(h, actor, c, i, nextSeq + i, prevHash) == Batch(h, View(), c)
      {
        var entry := Seal(h, actor, c, c.inputs[i], c.entryIds[i], nextSeq + i, prevHash);
        assert inserted + ([entry] + Build(h, actor, c, i + 1, nextSeq + i + 1, entry.entryHash))
            == (inserted + [entry]) + Build(h, actor, c, i + 1, nextSeq + i + 1, entry.entryHash);
        inserted := inserted + [entry];
        prevHash := entry.entryHash;
      }
    }

    method AppendJournalEntries(c: AppendCall) returns (out: Outcome)
      requires Chained(h, View()) && RowsOk(View()) && |c.entryIds| == |c.inputs|
      modifies this
      ensures out == OutcomeOf(h, old(View()), c)
      ensures View() == Append(h, old(View()), c)
      ensures Chained(h, View()) && RowsOk(View())
    {
      AppendKeepsChain(h, View(), c);
      AppendKeepsRows(h, View(), c);
      if c.appendId == "" || c.inputs == [] {
        return Invalid;
      }
      if |c.inputs| > MAX_ENTRIES_PER_BATCH {
        return TooLarge;
      }
      if !WellFormed(c) {
        return Invalid;
      }
      if closed {
        return Closed;
      }
      if c.appendId in requests {
        var existing := requests[c.appendId];
        if existing.requestHash != h(RequestDoc(c.inputs)) || existing.writer != c.writer
           || existing.source != c.source {
          return IdempotencyConflict;
        }
        return Answered(ResponseOf(existing, true));
      }
      out := CommitBatch(c);
    }

    method CommitBatch(c: AppendCall) returns (out: Outcome)
      requires Commits(View(), c)
      modifies this
      ensures out == Answered(ResponseOf(NewRow(h, old(View()), c), false))
      ensures View() == Append(h, old(View()), c)
    {
      var inserted := BuildBatch(c);
      BuildIsLinked(h, genesis.request.actor, c, 0, nextSeq, headHash);
      var firstSeq, lastSeq := inserted[0].seqNo, inserted[|inserted| - 1].seqNo;
      var head := inserted[|inserted| - 1].entryHash;
      var row := RequestRow(h(RequestDoc(c.inputs)), c.writer, c.source, firstSeq, lastSeq, |inserted|, head);
      assert row == NewRow(h, View(), c);
      requests := requests[c.appendId := row];
      entries := entries + inserted;
      nextSeq, headHash := lastSeq + 1, head;
      out := Answered(ResponseOf(row, false));
    }

    /**
     * VerifyJournal over whatever rows are stored, in pages of any positive size: every row
     * with a positive sequence number is visited once, and the verdict is HashChainOk of them.
     */
    method VerifyJournal(limit: nat) returns (hashChainOk: bool, count: nat)
      requires limit > 0 && Ordered(entries)
      ensures hashChainOk <==> HashChainOk(h, genesis, genesisHash, headHash, After(entries, 0))
      ensures count == |After(entries, 0)|
    {
      var gh := h(GenesisDoc(genesis));
      var prev := gh;
      hashChainOk := gh == genesisHash;
      count := 0;
      ghost var listed := After(entries, 0);
      FirstPage(entries, limit);
      var page := Page(entries, 0, limit);
      while |page| > 0
        invariant count <= |listed| && page == Slice(listed, count, limit)
        invariant Verified(h, gh, genesisHash, listed[..count], hashChainOk, prev)
        decreases |listed| - count
      {
        PageStep(entries, listed, count, page, limit);
        hashChainOk, prev := VerifyPage(page, prev, hashChainOk, gh, listed[..count]);
        count := count + |page|;
        page := Page(entries, page[|page| - 1].seqNo, limit);
      }
      assert listed[..count] == listed;
      if prev != headHash {
        hashChainOk := false;
      }
    }

    /** One page: `seen` are the entries of the pages before it. */
    method VerifyPage(page: seq<Entry>, prev0: string, ok0: bool, ghost gh: string, ghost seen: seq<Entry>)
        returns (ok: bool, prev: string)
      requires Verified(h, gh, genesisHash, seen, ok0, prev0)
      ensures Verified(h, gh, genesisHash, seen + page, ok, prev)
    {
      ok, prev := ok0, prev0;
      assert seen + page[..0] == seen;
      for i := 0 to |page|
        invariant Verified(h, gh, genesisHash, seen + page[..i], ok, prev)
      {
        var entry := page[i];
        assert seen + page[..i + 1] == (seen + page[..i]) + [entry];
        VerifiedNext(h, gh, genesisHash, seen + page[..i], entry, ok, prev);
        var stored := entry.entryHash;
        if entry.prevHash != prev {
          ok := false;
        }
        var recomputed := EntryHashOf(h, entry);
        if recomputed != stored {
          ok := false;
        }
        prev := recomputed;
      }
      assert page[..|page|] == page;
    }
  }
}
