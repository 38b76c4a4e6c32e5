/**
 * The streaming multipart writer of pkg/client/stream.go as a concurrent state machine. A
 * section run under the mutex, a semaphore or wait-group event, and a network outcome are
 * one step each; steps of different callers interleave freely.
 */
module StreamWriter {
  import opened Options

  datatype Part = Part(number: int, tag: string)

  /** The fields guarded by the mutex. */
  datatype Core = Core(started: bool, completed: bool, aborted: bool, closing: bool, err: Option<string>,
                       uploaded: map<int, string>)

  datatype Phase = Waiting | Running | Finished
  datatype Worker = Worker(part: int, phase: Phase)

  /** Where the one call of Complete that got past the seal stands. */
  datatype Completer = Idle | Sealed | Waited | Ready | Assembling | Sent | Failed

  /**
   * The writer with the parts in flight, the calls of Abort that wait, and three histories:
   * what was recorded, whether a background part failed, and what was sent to the server.
   */
  datatype State = State(core: Core, flight: map<nat, Worker>, nextId: nat, completer: Completer, aborters: nat,
                         log: seq<Part>, failed: bool, sent: seq<seq<Part>>, aborts: nat)

  datatype Step =
    | Enter(part: int, init: Option<string>)
    | Cancel(id: nat)
    | Start(id: nat)
    | Fail(id: nat, message: string)
    | Record(id: nat, tag: string)
    | Done(id: nat)
    | Seal
    | CompleterWaited
    | CheckError
    | FinalPart(number: int, result: Option<string>)
    | NoFinalPart
    | Send(list: Option<seq<Part>>)
    | AbortSeal
    | AbortFinish

  const FRESH := State(Core(false, false, false, false, None, map[]), map[], 0, Idle, 0, [], false, [], 0)

  // ---------------------------------------------------------------- sections under the mutex

  predicate Refuses(c: Core) { c.err.Some? || c.completed || c.aborted || c.closing }

  /** The first section of WritePart; init is None when the lazy initiation succeeds. */
  function Admit(c: Core, init: Option<string>): Core {
    if Refuses(c) || c.started then c
    else if init.Some? then c.(err := init)
    else c.(started := true)
  }

  predicate Admits(c: Core, init: Option<string>) { !Refuses(c) && (c.started || init.None?) }

  /** Only the first error is kept. */
  function WithError(c: Core, message: string): Core { if c.err.None? then c.(err := Some(message)) else c }

  predicate Sealable(c: Core) { !c.completed && !c.aborted && !c.closing }

  function Recorded(s: State, number: int, tag: string): State {
    s.(core := s.core.(uploaded := s.core.uploaded[number := tag]), log := s.log + [Part(number, tag)])
  }

  /** Parts 1 to n, if all are there. */
  function PartsUpTo(uploaded: map<int, string>, n: nat): Option<seq<Part>> {
    if n == 0 then Some([])
    else
      var before := PartsUpTo(uploaded, n - 1);
      if before.None? || n !in uploaded then None else Some(before.value + [Part(n, uploaded[n])])
  }

  predicate IsTop(uploaded: map<int, string>, n: nat) {
    (n == 0 || n in uploaded) && forall k :: k in uploaded ==> k <= n
  }

  ghost predicate Lists(uploaded: map<int, string>, r: Option<seq<Part>>) {
    if uploaded == map[] then r.None? else exists n: nat :: IsTop(uploaded, n) && r == PartsUpTo(uploaded, n)
  }

  lemma SomeMember(numbers: set<int>)
    requires numbers != {}
    ensures exists k: int :: k in numbers
  {
    assert (forall k: int :: k !in numbers) ==> numbers == {};
  }

  /** The highest part number, or zero when there is none above it. */
  method Highest(numbers: set<int>) returns (n: nat)
    ensures n == 0 || n in numbers
    ensures forall k :: k in numbers ==> k <= n
  {
    n := 0;
    var rest: set<int> := numbers;
    while rest != {}
      invariant rest <= numbers
      invariant n == 0 || n in numbers
      invariant forall k :: k in numbers && k !in rest ==> k <= n
      decreases |rest|
    {
      SomeMember(rest);
      var number: int :| number in rest;
      if number > n {
        n := number;
      }
      rest := rest - {number};
    }
  }

  /** The two loops at the end of Complete: the highest part number, then the list. */
  method BuildParts(uploaded: map<int, string>) returns (r: Option<seq<Part>>)
    ensures Lists(uploaded, r)
  {
    if |uploaded| == 0 {
      return None;
    }
    var maxPart := Highest(uploaded.Keys);
    assert IsTop(uploaded, maxPart);
    var parts: seq<Part> := [];
    for i := 1 to maxPart + 1
      invariant PartsUpTo(uploaded, i - 1) == Some(parts)
    {
      if i !in uploaded {
        NoPartsPastGap(uploaded, i, maxPart);
        return None;
      }
      parts := parts + [Part(i, uploaded[i])];
    }
    r := Some(parts);
  }

  lemma {:induction false} NoPartsPastGap(uploaded: map<int, string>, gap: nat, n: nat)
    requires 1 <= gap <= n && gap !in uploaded
    ensures PartsUpTo(uploaded, n).None?
  {
    if gap < n {
      NoPartsPastGap(uploaded, gap, n - 1);
    }
  }

  lemma {:induction false} PartsUpToExact(uploaded: map<int, string>, n: nat)
    ensures PartsUpTo(uploaded, n).Some? <==> forall k :: 1 <= k <= n ==> k in uploaded
    ensures PartsUpTo(uploaded, n).Some? ==>
              |PartsUpTo(uploaded, n).value| == n
              && forall k :: 0 <= k < n ==>
                 k + 1 in uploaded && PartsUpTo(uploaded, n).value[k] == Part(k + 1, uploaded[k + 1])
  {
    if n > 0 {
      PartsUpToExact(uploaded, n - 1);
    }
  }

  /** The list names parts 1 to n in order, each with its recorded tag, and n is the highest number. */
  lemma ListExact(uploaded: map<int, string>, r: Option<seq<Part>>)
    requires Lists(uploaded, r)
    ensures r.Some? <==> uploaded != map[] && forall k, j :: j in uploaded && 1 <= k <= j ==> k in uploaded
    ensures r.Some? ==> forall k :: 0 <= k < |r.value| ==>
            k + 1 in uploaded && r.value[k] == Part(k + 1, uploaded[k + 1])
    ensures r.Some? ==> forall k :: k in uploaded ==> k <= |r.value|
  {
    if uploaded != map[] {
      var n: nat :| IsTop(uploaded, n) && r == PartsUpTo(uploaded, n);
      PartsUpToExact(uploaded, n);
    }
  }

  // ---------------------------------------------------------------- steps

  predicate InPhase(s: State, id: nat, phase: Phase) { id in s.flight && s.flight[id].phase == phase }

  function Moved(s: State, id: nat, phase: Phase): State
    requires id in s.flight
  {
    s.(flight := s.flight[id := s.flight[id].(phase := phase)])
  }

  predicate IsPartStep(e: Step) { e.Enter? || e.Cancel? || e.Start? || e.Fail? || e.Record? || e.Done? }

  /** A call of WritePart, its background part, and the end of both. */
  function NextPart(s: State, e: Step): State
    requires IsPartStep(e)
  {
    match e
    case Enter(part, init) =>
      var t := s.(core := Admit(s.core, init));
      if Admits(s.core, init) then t.(flight := s.flight[s.nextId := Worker(part, Waiting)], nextId := s.nextId + 1)
      else t
    case Cancel(id) => if InPhase(s, id, Waiting) then s.(flight := s.flight - {id}) else s
    case Start(id) => if InPhase(s, id, Waiting) then Moved(s, id, Running) else s
    case Fail(id, message) =>
      if InPhase(s, id, Running) then Moved(s, id, Finished).(core := WithError(s.core, message), failed := true) else s
    case Record(id, tag) =>
      if InPhase(s, id, Running) then Recorded(Moved(s, id, Finished), s.flight[id].part, tag) else s
    case Done(id) => if InPhase(s, id, Finished) then s.(flight := s.flight - {id}) else s
  }

  /** The calls of Complete and Abort. */
  function NextClose(s: State, e: Step): State
    requires !IsPartStep(e)
  {
    match e
    case Seal => if Sealable(s.core) then s.(core := s.core.(closing := true), completer := Sealed) else s
    case CompleterWaited => if s.completer.Sealed? && s.flight == map[] then s.(completer := Waited) else s
    case CheckError =>
      if !s.completer.Waited? then s
      else s.(completer := if s.core.err.Some? || !s.core.started then Failed else Ready)
    case FinalPart(number, result) =>
      if !s.completer.Ready? then s
      else if result.None? then s.(completer := Failed)
      else Recorded(s, number, result.value).(completer := Assembling)
    case NoFinalPart => if s.completer.Ready? then s.(completer := Assembling) else s
    case Send(list) =>
      if !s.completer.Assembling? then s
      else if list.None? then s.(completer := Failed)
      else s.(core := s.core.(completed := true), completer := Sent, sent := s.sent + [list.value])
    case AbortSeal => if s.core.aborted then s else s.(core := s.core.(closing := true), aborters := s.aborters + 1)
    case AbortFinish =>
      if s.aborters == 0 || s.flight != map[] then s
      else s.(core := s.core.(aborted := true), aborters := s.aborters - 1,
              aborts := s.aborts + (if s.core.started then 1 else 0))
  }

  function Next(s: State, e: Step): State {
    if IsPartStep(e) then NextPart(s, e) else NextClose(s, e)
  }

  /** The list a send carries is the one the loops build from the recorded parts. */
  ghost predicate Possible(s: State, e: Step) { e.Send? ==> Lists(s.core.uploaded, e.list) }

  function Run(s: State, es: seq<Step>): State
    decreases |es|
  {
    if es == [] then s else Run(Next(s, es[0]), es[1..])
  }

  ghost predicate PossibleRun(s: State, es: seq<Step>)
    decreases |es|
  {
    es == [] || (Possible(s, es[0]) && PossibleRun(Next(s, es[0]), es[1..]))
  }

  // ---------------------------------------------------------------- the invariant

  /** The tag recorded last for a part. */
  function LastTag(log: seq<Part>, number: int): Option<string> {
    if log == [] then None
    else if log[|log| - 1].number == number then Some(log[|log| - 1].tag)
    else LastTag(log[..|log| - 1], number)
  }

  predicate Tracks(uploaded: map<int, string>, log: seq<Part>, number: int) {
    LastTag(log, number) == if number in uploaded then Some(uploaded[number]) else None
  }

  ghost predicate Consistent(s: State) { forall k :: Tracks(s.core.uploaded, s.log, k) }

  predicate PastWait(c: Completer) { !c.Idle? && !c.Sealed? }

  predicate PastCheck(c: Completer) { c.Ready? || c.Assembling? || c.Sent? }

  predicate Orderly(s: State) {
    && (forall id :: id in s.flight ==> id < s.nextId)
    && (!s.completer.Idle? || s.aborters > 0 || s.core.aborted ==> s.core.closing)
    && (PastWait(s.completer) || s.core.aborted ==> s.flight == map[])
    && (s.aborts > 0 <==> s.core.aborted && s.core.started)
    && (PastCheck(s.completer) ==> s.core.err.None? && s.core.started)
    && (s.failed ==> s.core.err.Some?)
    && (s.core.completed <==> s.completer.Sent?)
    && |s.sent| == (if s.completer.Sent? then 1 else 0)
  }

  ghost predicate Sound(s: State) {
    Orderly(s) && Consistent(s) && (s.completer.Sent? ==> Lists(s.core.uploaded, Some(s.sent[0])))
  }

  lemma PartKeepsOrder(s: State, e: Step)
    requires Orderly(s) && IsPartStep(e)
    ensures Orderly(NextPart(s, e))
  {
  }

  lemma CloseKeepsOrder(s: State, e: Step)
    requires Orderly(s) && !IsPartStep(e)
    ensures Orderly(NextClose(s, e))
  {
  }

  lemma RecordTracks(s: State, number: int, tag: string)
    requires Consistent(s)
    ensures Consistent(Recorded(s, number, tag))
  {
    var t := Recorded(s, number, tag);
    assert t.log[..|t.log| - 1] == s.log;
    forall k
      ensures Tracks(t.core.uploaded, t.log, k)
    {
      assert Tracks(s.core.uploaded, s.log, k);
    }
  }

  /** Only the two recording steps touch the recorded parts. */
  lemma OtherStepsKeepTags(s: State, e: Step)
    requires !e.Record? && !e.FinalPart?
    ensures Next(s, e).log == s.log && Next(s, e).core.uploaded == s.core.uploaded
  {
  }

  lemma StepKeepsTags(s: State, e: Step)
    requires Consistent(s)
    ensures Consistent(Next(s, e))
  {
    if e.Record? {
      if InPhase(s, e.id, Running) {
        RecordTracks(Moved(s, e.id, Finished), s.flight[e.id].part, e.tag);
      }
    } else if e.FinalPart? {
      if s.completer.Ready? && e.result.Some? {
        RecordTracks(s, e.number, e.result.value);
      }
    } else {
      OtherStepsKeepTags(s, e);
    }
  }

  lemma StepKeepsSound(s: State, e: Step)
    requires Sound(s) && Possible(s, e)
    ensures Sound(Next(s, e))
  {
    if IsPartStep(e) {
      PartKeepsOrder(s, e);
    } else {
      CloseKeepsOrder(s, e);
    }
    StepKeepsTags(s, e);
  }

  lemma {:induction false} RunKeepsSound(s: State, es: seq<Step>)
    requires Sound(s) && PossibleRun(s, es)
    ensures Sound(Run(s, es))
    decreases |es|
  {
    if es != [] {
      StepKeepsSound(s, es[0]);
      RunKeepsSound(Next(s, es[0]), es[1..]);
    }
  }

  // ---------------------------------------------------------------- what every run guarantees

  /**
   * Complete is sent at most once, only when no background part ever failed, and then the
   * list is the parts 1 to n in order, each with the tag recorded last for it.
   */
  lemma SentOnceAndExactly(es: seq<Step>)
    requires PossibleRun(FRESH, es)
    ensures var s := Run(FRESH, es);
            |s.sent| <= 1 && (s.sent != [] ==>
                                !s.failed && s.flight == map[]
                                && (forall k :: 0 <= k < |s.sent[0]| ==>
                                                  s.sent[0][k].number == k + 1
                                                  && LastTag(s.log, k + 1) == Some(s.sent[0][k].tag))
                                && (forall k :: LastTag(s.log, k).Some? ==> k <= |s.sent[0]|))
  {
    var s := Run(FRESH, es);
    RunKeepsSound(FRESH, es);
    if s.sent != [] {
      ListExact(s.core.uploaded, Some(s.sent[0]));
      forall k | 0 <= k < |s.sent[0]|
        ensures s.sent[0][k].number == k + 1 && LastTag(s.log, k + 1) == Some(s.sent[0][k].tag)
      {
        assert Tracks(s.core.uploaded, s.log, k + 1);
      }
      forall k | LastTag(s.log, k).Some?
        ensures k <= |s.sent[0]|
      {
        assert Tracks(s.core.uploaded, s.log, k);
      }
    }
  }

  /** Nothing recorded is left out of the list, provided part numbers start at 1. */
  lemma EveryPartIsSent(es: seq<Step>)
    requires PossibleRun(FRESH, es) && Run(FRESH, es).sent != []
    ensures var s := Run(FRESH, es);
            (forall k :: LastTag(s.log, k).Some? ==> exists i :: 0 <= i < |s.sent[0]| && s.sent[0][i].number == k)
            <==> (forall k :: LastTag(s.log, k).Some? ==> k >= 1)
  {
    SentOnceAndExactly(es);
    var s := Run(FRESH, es);
    forall k | LastTag(s.log, k).Some? && k >= 1
      ensures exists i :: 0 <= i < |s.sent[0]| && s.sent[0][i].number == k
    {
      assert s.sent[0][k - 1].number == k;
    }
  }

  lemma CloseKeepsFlight(s: State, e: Step)
    requires !IsPartStep(e)
    ensures NextClose(s, e).flight == s.flight && (s.core.closing ==> NextClose(s, e).core.closing)
    ensures s.core.err.Some? ==> NextClose(s, e).core.err == s.core.err
  {
  }

  /** A refused writer lets no part in; parts in flight only leave. */
  lemma RefusedPartsLeave(s: State, e: Step)
    requires IsPartStep(e) && Refuses(s.core)
    ensures NextPart(s, e).flight.Keys <= s.flight.Keys && NextPart(s, e).core.closing == s.core.closing
    ensures s.core.err.Some? ==> NextPart(s, e).core.err == s.core.err
  {
  }

  lemma SealedStep(s: State, e: Step)
    requires s.core.closing
    ensures Next(s, e).core.closing && Next(s, e).flight.Keys <= s.flight.Keys
  {
    if IsPartStep(e) {
      RefusedPartsLeave(s, e);
    } else {
      CloseKeepsFlight(s, e);
    }
  }

  /** Once the writer is sealed, no part newly enters flight. */
  lemma {:induction false} NothingEntersAfterSeal(s: State, es: seq<Step>)
    requires s.core.closing
    ensures Run(s, es).core.closing && Run(s, es).flight.Keys <= s.flight.Keys
    decreases |es|
  {
    if es != [] {
      SealedStep(s, es[0]);
      NothingEntersAfterSeal(Next(s, es[0]), es[1..]);
    }
  }

  /** Nothing is in flight once the wait of Complete is over, at any later time. */
  lemma {:induction false} NothingInFlightAfterWait(s: State, es: seq<Step>)
    requires Sound(s) && PossibleRun(s, es) && PastWait(s.completer)
    ensures Run(s, es).flight == map[]
    decreases |es|
  {
    if es != [] {
      StepKeepsSound(s, es[0]);
      NothingInFlightAfterWait(Next(s, es[0]), es[1..]);
    }
  }

  lemma ErrorStep(s: State, e: Step)
    requires s.core.err.Some?
    ensures Next(s, e).core.err == s.core.err && Next(s, e).flight.Keys <= s.flight.Keys
  {
    if IsPartStep(e) {
      RefusedPartsLeave(s, e);
    } else {
      CloseKeepsFlight(s, e);
    }
  }

  /** The first error stays, and lets neither a new part in nor a complete out. */
  lemma {:induction false} ErrorIsSticky(s: State, es: seq<Step>)
    requires Sound(s) && PossibleRun(s, es) && s.core.err.Some?
    ensures Run(s, es).core.err == s.core.err && Run(s, es).sent == []
    ensures Run(s, es).flight.Keys <= s.flight.Keys
    decreases |es|
  {
    if es != [] {
      StepKeepsSound(s, es[0]);
      ErrorStep(s, es[0]);
      ErrorIsSticky(Next(s, es[0]), es[1..]);
    }
  }

  /** If Abort seals before any Complete did, complete is never sent. */
  lemma {:induction false} AbortFirstWins(s: State, es: seq<Step>)
    requires Sound(s) && PossibleRun(s, es) && s.core.closing && s.completer.Idle?
    ensures Run(s, es).sent == [] && Run(s, es).completer.Idle?
    decreases |es|
  {
    if es != [] {
      StepKeepsSound(s, es[0]);
      AbortFirstWins(Next(s, es[0]), es[1..]);
    }
  }

  /** An aborted writer has no part in flight, at any later time, and told the server iff the upload was started. */
  lemma AbortWaitsForParts(es: seq<Step>, later: seq<Step>)
    requires PossibleRun(FRESH, es) && Run(FRESH, es).core.aborted
    requires PossibleRun(Run(FRESH, es), later)
    ensures var s := Run(Run(FRESH, es), later);
            s.core.aborted && s.flight == map[] && (s.aborts > 0 <==> s.core.started)
            && s.core.started == Run(FRESH, es).core.started
  {
    RunKeepsSound(FRESH, es);
    AbortedStays(Run(FRESH, es), later);
  }

  lemma {:induction false} AbortedStays(s: State, es: seq<Step>)
    requires Sound(s) && PossibleRun(s, es) && s.core.aborted
    ensures Sound(Run(s, es)) && Run(s, es).core.aborted && Run(s, es).core.started == s.core.started
    decreases |es|
  {
    if es != [] {
      StepKeepsSound(s, es[0]);
      AbortedStays(Next(s, es[0]), es[1..]);
    }
  }

  /** Abort does not look at the completed flag: after every complete, an abort still goes out. */
  lemma AbortFollowsComplete(s: State)
    requires Sound(s) && s.completer.Sent? && !s.core.aborted
    ensures var t := Next(Next(s, AbortSeal), AbortFinish);
            t.core.aborted && t.aborts == s.aborts + 1 && t.sent == s.sent && |t.sent| == 1
  {
  }

  // ---------------------------------------------------------------- what an open writer does

  /** A part enters flight exactly when nothing failed or closed the writer and the upload is, or gets, initiated. */
  lemma EnterExact(s: State, part: int, init: Option<string>)
    ensures var n := Next(s, Enter(part, init));
            var open := s.core.err.None? && !s.core.completed && !s.core.aborted && !s.core.closing;
            && (open && (s.core.started || init.None?) ==>
                  n == s.(core := s.core.(started := true), nextId := s.nextId + 1,
                          flight := s.flight[s.nextId := Worker(part, Waiting)]))
            && (open && !s.core.started && init.Some? ==> n == s.(core := s.core.(err := init)))
            && (!open ==> n == s)
  {
  }

  /** A part that waits for a slot either starts or leaves; one that no longer waits does neither again. */
  lemma SlotExact(s: State, id: nat)
    ensures var started, left := Next(s, Start(id)), Next(s, Cancel(id));
            if id in s.flight && s.flight[id].phase == Waiting then
              && started == s.(flight := s.flight[id := Worker(s.flight[id].part, Running)])
              && left == s.(flight := s.flight - {id})
            else started == s && left == s
  {
  }

  /** After the wait: on with the upload exactly if it was started and nothing failed. */
  lemma CheckExact(s: State)
    requires s.completer == Waited
    ensures Next(s, CheckError) == s.(completer := if s.core.err.None? && s.core.started then Ready else Failed)
  {
  }

  /** A final part that fails ends the call; one that succeeds is recorded under its own number. */
  lemma FinalPartExact(s: State, number: int, result: Option<string>)
    requires s.completer == Ready
    ensures var n := Next(s, FinalPart(number, result));
            && (result.None? ==> n == s.(completer := Failed))
            && (result.Some? ==>
                  n.completer == Assembling && n.core.uploaded == s.core.uploaded[number := result.value])
  {
  }

  /** A call of Complete that failed never sends anything. */
  lemma {:induction false} FailedNeverSends(s: State, es: seq<Step>)
    requires Sound(s) && PossibleRun(s, es) && s.completer == Failed
    ensures Run(s, es).sent == [] && Run(s, es).completer == Failed
    decreases |es|
  {
    if es != [] {
      StepKeepsSound(s, es[0]);
      assert Next(s, es[0]).completer == Failed;
      FailedNeverSends(Next(s, es[0]), es[1..]);
    }
  }

  /** Some step of the run is the failure of a part that runs. */
  predicate PartFails(s: State, es: seq<Step>)
    decreases |es|
  {
    es != [] && ((es[0].Fail? && es[0].id in s.flight && s.flight[es[0].id].phase == Running)
                 || PartFails(Next(s, es[0]), es[1..]))
  }

  lemma FailureIsNoted(s: State, e: Step)
    ensures Next(s, e).failed <==> s.failed || PartFails(s, [e])
  {
    assert !PartFails(Next(s, e), [e][1..]);
    if !IsPartStep(e) {
      assert NextClose(s, e).failed == s.failed;
    }
  }

  /** Over every run, failed says whether a part failed; with the above, complete then never goes out. */
  lemma {:induction false} FailedIsTheRun(s: State, es: seq<Step>)
    ensures Run(s, es).failed <==> s.failed || PartFails(s, es)
    decreases |es|
  {
    if es != [] {
      FailureIsNoted(s, es[0]);
      assert !PartFails(Next(s, es[0]), [es[0]][1..]);
      FailedIsTheRun(Next(s, es[0]), es[1..]);
    }
  }

  /** A call of Abort seals the writer and waits, unless one has finished before. */
  lemma AbortSealExact(s: State)
    ensures s.core.aborted ==> Next(s, AbortSeal) == s
    ensures !s.core.aborted ==>
              Next(s, AbortSeal) == s.(core := s.core.(closing := true), aborters := s.aborters + 1)
  {
  }

  /** The worker numbers that are taken, each with the part its Enter carried. */
  predicate Carried(s: State, entered: seq<int>) {
    s.nextId == |entered| && forall id :: id in s.flight ==> id < |entered| && s.flight[id].part == entered[id]
  }

  function EnteredBy(s: State, e: Step, entered: seq<int>): seq<int> {
    if e.Enter? && Next(s, e).nextId > s.nextId then entered + [e.part] else entered
  }

  /** The part numbers and tags that a step reports: of the worker's own part, or of the final one. */
  function LoggedBy(s: State, e: Step, entered: seq<int>): seq<Part> {
    if e.Record? && e.id in s.flight && s.flight[e.id].phase == Running && e.id < |entered|
    then [Part(entered[e.id], e.tag)]
    else if e.FinalPart? && s.completer == Ready && e.result.Some? then [Part(e.number, e.result.value)]
    else []
  }

  function Logged(s: State, es: seq<Step>, entered: seq<int>): seq<Part>
    decreases |es|
  {
    if es == [] then []
    else LoggedBy(s, es[0], entered) + Logged(Next(s, es[0]), es[1..], EnteredBy(s, es[0], entered))
  }

  lemma LogAssoc(a: seq<Part>, b: seq<Part>, c: seq<Part>)
    ensures (a + b) + c == a + (b + c)
  {
  }

  lemma PartStepLogs(s: State, e: Step, entered: seq<int>)
    requires Carried(s, entered) && IsPartStep(e)
    ensures Carried(Next(s, e), EnteredBy(s, e, entered)) && Next(s, e).log == s.log + LoggedBy(s, e, entered)
  {
  }

  lemma CloseStepLogs(s: State, e: Step, entered: seq<int>)
    requires Carried(s, entered) && !IsPartStep(e)
    ensures Carried(Next(s, e), EnteredBy(s, e, entered)) && Next(s, e).log == s.log + LoggedBy(s, e, entered)
  {
    CloseKeepsFlight(s, e);
  }

  lemma StepLogs(s: State, e: Step, entered: seq<int>)
    requires Carried(s, entered)
    ensures Carried(Next(s, e), EnteredBy(s, e, entered)) && Next(s, e).log == s.log + LoggedBy(s, e, entered)
  {
    if IsPartStep(e) {
      PartStepLogs(s, e, entered);
    } else {
      CloseStepLogs(s, e, entered);
    }
  }

  /** Over every run, what is recorded is what the steps reported, each part under the number it entered with. */
  lemma {:induction false} LogIsTheRun(s: State, es: seq<Step>, entered: seq<int>)
    requires Carried(s, entered)
    ensures Run(s, es).log == s.log + Logged(s, es, entered)
    decreases |es|
  {
    if es == [] {
      assert s.log + [] == s.log;
    } else {
      var rest := Logged(Next(s, es[0]), es[1..], EnteredBy(s, es[0], entered));
      StepLogs(s, es[0], entered);
      LogIsTheRun(Next(s, es[0]), es[1..], EnteredBy(s, es[0], entered));
      LogAssoc(s.log, LoggedBy(s, es[0], entered), rest);
    }
  }

  // ---------------------------------------------------------------- what was written is what is sent

  /** One part from entry to the end of worker `id`. */
  function PartSteps(id: nat, part: int, tag: string): seq<Step> {
    [Enter(part, None)] + ([Start(id)] + ([Record(id, tag)] + ([Done(id)] + [])))
  }

  /** Parts 1 to |tags|, one after the other. */
  function AllSteps(tags: seq<string>): seq<Step> {
    if tags == [] then []
    else AllSteps(tags[..|tags| - 1]) + PartSteps(|tags| - 1, |tags|, tags[|tags| - 1])
  }

  /** A call of Complete without a final part. */
  function CompleteSteps(list: seq<Part>): seq<Step> {
    [Seal] + ([CompleterWaited] + ([CheckError] + ([NoFinalPart] + ([Send(Some(list))] + []))))
  }

  function PartsOf(tags: seq<string>): seq<Part> {
    if tags == [] then [] else PartsOf(tags[..|tags| - 1]) + [Part(|tags|, tags[|tags| - 1])]
  }

  function TagMap(tags: seq<string>): map<int, string> {
    if tags == [] then map[] else TagMap(tags[..|tags| - 1])[|tags| := tags[|tags| - 1]]
  }

  /** An open writer with nothing in flight and nobody closing it. */
  function Rested(started: bool, uploaded: map<int, string>, nextId: nat, log: seq<Part>): State {
    State(Core(started, false, false, false, None, uploaded), map[], nextId, Idle, 0, log, false, [], 0)
  }

  lemma RunCons(s: State, e: Step, rest: seq<Step>)
    ensures Run(s, [e] + rest) == Run(Next(s, e), rest)
    ensures PossibleRun(s, [e] + rest) <==> Possible(s, e) && PossibleRun(Next(s, e), rest)
  {
    assert ([e] + rest)[0] == e && ([e] + rest)[1..] == rest;
  }

  lemma {:induction false} RunConcat(s: State, a: seq<Step>, b: seq<Step>)
    ensures Run(s, a + b) == Run(Run(s, a), b)
    ensures PossibleRun(s, a + b) <==> PossibleRun(s, a) && PossibleRun(Run(s, a), b)
    decreases |a|
  {
    if a == [] {
      assert a + b == b;
    } else {
      assert a + b == [a[0]] + (a[1..] + b) && a == [a[0]] + a[1..];
      RunCons(s, a[0], a[1..] + b);
      RunCons(s, a[0], a[1..]);
      RunConcat(Next(s, a[0]), a[1..], b);
    }
  }

  /** Where a part stands between its steps. */
  function InFlight(u: map<int, string>, id: nat, log: seq<Part>, part: int, phase: Phase): State {
    Rested(true, u, id + 1, log).(flight := map[id := Worker(part, phase)])
  }

  lemma PartGoes(started: bool, u: map<int, string>, id: nat, log: seq<Part>, part: int)
    ensures Next(Rested(started, u, id, log), Enter(part, None)) == InFlight(u, id, log, part, Waiting)
    ensures Next(InFlight(u, id, log, part, Waiting), Start(id)) == InFlight(u, id, log, part, Running)
  {
  }

  lemma PartEnds(u: map<int, string>, id: nat, log: seq<Part>, part: int, tag: string)
    ensures Next(InFlight(u, id, log, part, Running), Record(id, tag)) ==
            InFlight(u[part := tag], id, log + [Part(part, tag)], part, Finished)
    ensures Next(InFlight(u, id, log, part, Finished), Done(id)) == Rested(true, u, id + 1, log)
  {
    assert map[id := Worker(part, Finished)] - {id} == map[];
  }

  lemma OnePart(started: bool, u: map<int, string>, id: nat, log: seq<Part>, part: int, tag: string)
    ensures var s := Rested(started, u, id, log);
            && Run(s, PartSteps(id, part, tag)) == Rested(true, u[part := tag], id + 1, log + [Part(part, tag)])
            && PossibleRun(s, PartSteps(id, part, tag))
  {
    var u', log' := u[part := tag], log + [Part(part, tag)];
    PartGoes(started, u, id, log, part);
    PartEnds(u, id, log, part, tag);
    PartEnds(u', id, log', part, tag);
    RunCons(Rested(started, u, id, log), Enter(part, None), [Start(id)] + ([Record(id, tag)] + ([Done(id)] + [])));
    RunCons(InFlight(u, id, log, part, Waiting), Start(id), [Record(id, tag)] + ([Done(id)] + []));
    RunCons(InFlight(u, id, log, part, Running), Record(id, tag), [Done(id)] + []);
    RunCons(InFlight(u', id, log', part, Finished), Done(id), []);
  }

  lemma {:induction false} AllParts(tags: seq<string>)
    ensures Run(FRESH, AllSteps(tags)) == Rested(tags != [], TagMap(tags), |tags|, PartsOf(tags))
    ensures PossibleRun(FRESH, AllSteps(tags))
  {
    if tags != [] {
      var k := |tags| - 1;
      AllParts(tags[..k]);
      RunConcat(FRESH, AllSteps(tags[..k]), PartSteps(k, |tags|, tags[k]));
      OnePart(tags[..k] != [], TagMap(tags[..k]), k, PartsOf(tags[..k]), |tags|, tags[k]);
    }
  }

  lemma {:induction false} TagsUpTo(tags: seq<string>, m: map<int, string>)
    requires forall k :: 1 <= k <= |tags| ==> k in m && m[k] == tags[k - 1]
    ensures PartsUpTo(m, |tags|) == Some(PartsOf(tags))
  {
    if tags != [] {
      TagsUpTo(tags[..|tags| - 1], m);
    }
  }

  lemma {:induction false} TagMapIs(tags: seq<string>, k: int)
    ensures k in TagMap(tags) <==> 1 <= k <= |tags|
    ensures k in TagMap(tags) ==> TagMap(tags)[k] == tags[k - 1]
  {
    if tags != [] {
      TagMapIs(tags[..|tags| - 1], k);
    }
  }

  lemma TagsList(tags: seq<string>)
    requires tags != []
    ensures Lists(TagMap(tags), Some(PartsOf(tags)))
  {
    forall k: int
      ensures k in TagMap(tags) <==> 1 <= k <= |tags|
      ensures k in TagMap(tags) ==> TagMap(tags)[k] == tags[k - 1]
    {
      TagMapIs(tags, k);
    }
    TagsUpTo(tags, TagMap(tags));
    assert |tags| in TagMap(tags) && IsTop(TagMap(tags), |tags|);
  }

  lemma CompleteSends(u: map<int, string>, id: nat, log: seq<Part>, list: seq<Part>)
    requires Lists(u, Some(list))
    ensures var s := Rested(true, u, id, log);
            && PossibleRun(s, CompleteSteps(list))
            && Run(s, CompleteSteps(list)).sent == [list] && Run(s, CompleteSteps(list)).core.completed
  {
    var s := Rested(true, u, id, log);
    var s1 := s.(core := s.core.(closing := true), completer := Sealed);
    var s2, s3, s4 := s1.(completer := Waited), s1.(completer := Ready), s1.(completer := Assembling);
    var s5 := s4.(core := s4.core.(completed := true), completer := Sent, sent := [list]);
    assert Next(s, Seal) == s1 && Next(s1, CompleterWaited) == s2;
    assert Next(s2, CheckError) == s3 && Next(s3, NoFinalPart) == s4;
    assert Next(s4, Send(Some(list))) == s5;
    RunCons(s, Seal, [CompleterWaited] + ([CheckError] + ([NoFinalPart] + ([Send(Some(list))] + []))));
    RunCons(s1, CompleterWaited, [CheckError] + ([NoFinalPart] + ([Send(Some(list))] + [])));
    RunCons(s2, CheckError, [NoFinalPart] + ([Send(Some(list))] + []));
    RunCons(s3, NoFinalPart, [Send(Some(list))] + []);
    RunCons(s4, Send(Some(list)), []);
  }

  /** Write parts 1 to n, complete: the server is sent exactly those parts, in order, with their tags. */
  lemma WrittenIsSent(tags: seq<string>)
    requires tags != []
    ensures var es := AllSteps(tags) + CompleteSteps(PartsOf(tags));
            PossibleRun(FRESH, es) && Run(FRESH, es).sent == [PartsOf(tags)] && Run(FRESH, es).core.completed
  {
    AllParts(tags);
    TagsList(tags);
    RunConcat(FRESH, AllSteps(tags), CompleteSteps(PartsOf(tags)));
    CompleteSends(TagMap(tags), |tags|, PartsOf(tags), PartsOf(tags));
  }

  // ---------------------------------------------------------------- the writer's own sections

  class Writer {
    var started: bool
    var completed: bool
    var aborted: bool
    var closing: bool
    var err: Option<string>
    var uploaded: map<int, string>

    function View(): Core
      reads this
    {
      Core(started, completed, aborted, closing, err, uploaded)
    }

    constructor ()
      ensures View() == FRESH.core
    {
      started, completed, aborted, closing := false, false, false, false;
      err, uploaded := None, map[];
    }

    /** The locked start of WritePart: whether the part enters flight. */
    method EnterPart(init: Option<string>) returns (admitted: bool)
      modifies this
      ensures View() == Admit(old(View()), init) && admitted == Admits(old(View()), init)
    {
      if err.Some? || completed || aborted || closing {
        return false;
      }
      if !started {
        if init.Some? {
          err := init;
          return false;
        }
        started := true;
      }
      admitted := true;
    }

    method SetError(message: string)
      modifies this
      ensures View() == WithError(old(View()), message)
    {
      if err.None? {
        err := Some(message);
      }
    }

    method RecordPart(number: int, tag: string)
      modifies this
      ensures forall s: State :: s.core == old(View()) ==> View() == Recorded(s, number, tag).core
    {
      uploaded := uploaded[number := tag];
    }

    method SealComplete() returns (ok: bool)
      modifies this
      ensures ok == Sealable(old(View()))
      ensures forall s: State :: s.core == old(View()) ==> View() == Next(s, Seal).core && ok == (Next(s, Seal) != s)
    {
      if completed || aborted || closing {
        return false;
      }
      closing := true;
      ok := true;
    }

    /** The locked end of Complete: the list to send, or nothing and no change. */
    method FinishComplete() returns (list: Option<seq<Part>>)
      modifies this
      ensures Lists(old(View()).uploaded, list)
      ensures forall s: State :: s.core == old(View()) && s.completer.Assembling? ==> View() == Next(s, Send(list)).core
    {
      list := BuildParts(uploaded);
      if list.Some? {
        completed := true;
      }
    }

    method SealAbort() returns (proceeds: bool)
      modifies this
      ensures proceeds == !old(aborted)
      ensures forall s: State :: s.core == old(View()) ==> View() == Next(s, AbortSeal).core
    {
      if aborted {
        return false;
      }
      closing := true;
      proceeds := true;
    }
  }
}
