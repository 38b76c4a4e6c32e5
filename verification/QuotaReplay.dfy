/**
 * One batch of the replay worker (pkg/backend/mutation_replay.go, replayBatch) over the rows
 * of all tenants: a failed entry blocks the rest of its tenant's entries in the batch.
 */
module QuotaReplay {
  import opened QuotaLedger
  import Saga = QuotaSaga

  type Tenant = string
  type World = map<Tenant, Db>

  /** A listed entry, and what the server DB does to its transaction and to its retry update. */
  datatype Item = Item(tenant: Tenant, id: nat, applyFails: bool, retryFails: bool)
  datatype Outcome = AppliedNow | FailedNow | SkippedNow
  datatype Batch = Batch(world: World, outcomes: seq<Outcome>)

  predicate Succeeds(w: World, it: Item) {
    it.tenant in w && !it.applyFails && IsPending(w[it.tenant], it.id)
  }

  function OutcomeOf(w: World, blocked: set<Tenant>, it: Item): Outcome {
    if it.tenant in blocked then SkippedNow else if Succeeds(w, it) then AppliedNow else FailedNow
  }

  function WorldAfter(w: World, blocked: set<Tenant>, it: Item): World {
    if it.tenant !in w || it.tenant in blocked then w
    else if Succeeds(w, it) then w[it.tenant := Attempt(w[it.tenant], it.id)]
    else if it.retryFails then w
    else w[it.tenant := Retry(w[it.tenant], it.id)]
  }

  function BlockedAfter(w: World, blocked: set<Tenant>, it: Item): set<Tenant> {
    if OutcomeOf(w, blocked, it).FailedNow? then blocked + {it.tenant} else blocked
  }

  function Replay(w: World, blocked: set<Tenant>, items: seq<Item>): (b: Batch)
    ensures |b.outcomes| == |items|
    decreases |items|
  {
    if items == [] then Batch(w, [])
    else
      var it := items[0];
      var rest := Replay(WorldAfter(w, blocked, it), BlockedAfter(w, blocked, it), items[1..]);
      Batch(rest.world, [OutcomeOf(w, blocked, it)] + rest.outcomes)
  }

  function CountOf(o: Outcome, os: seq<Outcome>): nat {
    if os == [] then 0 else (if os[0] == o then 1 else 0) + CountOf(o, os[1..])
  }

  lemma {:induction false} BlockedStaysSkipped(w: World, blocked: set<Tenant>, items: seq<Item>, j: nat)
    requires j < |items| && items[j].tenant in blocked
    ensures Replay(w, blocked, items).outcomes[j].SkippedNow?
    decreases |items|
  {
    if j > 0 {
      BlockedStaysSkipped(WorldAfter(w, blocked, items[0]), BlockedAfter(w, blocked, items[0]), items[1..], j - 1);
    }
  }

  /** The barrier: after a tenant's first entry that is not applied, all its later ones are skipped. */
  lemma {:induction false} Barrier(w: World, blocked: set<Tenant>, items: seq<Item>, i: nat, j: nat)
    requires i < j < |items| && items[i].tenant == items[j].tenant
    requires !Replay(w, blocked, items).outcomes[i].AppliedNow?
    ensures Replay(w, blocked, items).outcomes[j].SkippedNow?
    decreases |items|
  {
    var w', blocked' := WorldAfter(w, blocked, items[0]), BlockedAfter(w, blocked, items[0]);
    if i == 0 {
      BlockedStaysSkipped(w', blocked', items[1..], j - 1);
    } else {
      Barrier(w', blocked', items[1..], i - 1, j - 1);
    }
  }

  // ---------------------------------------------------------------- tenants do not disturb each other

  function Only(items: seq<Item>, t: Tenant): seq<Item> {
    if items == [] then [] else (if items[0].tenant == t then [items[0]] else []) + Only(items[1..], t)
  }

  predicate Agree(w: World, v: World, b: set<Tenant>, c: set<Tenant>, t: Tenant) {
    && (t in w <==> t in v) && (t in w ==> w[t] == v[t])
    && (t in b <==> t in c)
  }

  /** A tenant ends a mixed batch as if the batch had held only its own entries. */
  lemma {:induction false} TenantsAreIsolated(w: World, v: World, b: set<Tenant>, c: set<Tenant>, items: seq<Item>,
                                              t: Tenant)
    requires Agree(w, v, b, c, t)
    ensures var mixed, own := Replay(w, b, items).world, Replay(v, c, Only(items, t)).world;
            (t in mixed <==> t in own) && (t in mixed ==> mixed[t] == own[t])
    decreases |items|
  {
    if items != [] {
      var it := items[0];
      if it.tenant == t {
        assert Only(items, t)[0] == it && Only(items, t)[1..] == Only(items[1..], t);
        TenantsAreIsolated(WorldAfter(w, b, it), WorldAfter(v, c, it), BlockedAfter(w, b, it), BlockedAfter(v, c, it),
                           items[1..], t);
      } else {
        assert Only(items, t) == Only(items[1..], t);
        TenantsAreIsolated(WorldAfter(w, b, it), v, BlockedAfter(w, b, it), c, items[1..], t);
      }
    }
  }

  // ---------------------------------------------------------------- what a batch does to the rows

  /**
   * One item, on the tenant's own log and counters. It counts as applied exactly when its
   * entry goes from pending to applied, and the counters then move by the entry's worth. A
   * failure raises the retry count of a pending entry, unless that update fails too. A
   * skipped item, and every other tenant, is left alone.
   */
  lemma ItemExact(w: World, blocked: set<Tenant>, it: Item, c: Saga.Counter, other: Tenant)
    requires it.tenant in w && (other in w ==> other != it.tenant)
    ensures var after, o := WorldAfter(w, blocked, it), OutcomeOf(w, blocked, it);
            && after.Keys == w.Keys && (other in w ==> after[other] == w[other])
            && var before, later := w[it.tenant], after[it.tenant];
            && (o.AppliedNow? <==> IsPending(before, it.id) && it.id < |later.log| && later.log[it.id].status.Applied?)
            && (o.AppliedNow? <==> it.tenant !in blocked && !it.applyFails && IsPending(before, it.id))
            && (o.AppliedNow? && Saga.FromCallers(before.log[it.id].payload) ==>
                  Saga.Value(later, c) == Saga.Value(before, c) + Saga.Worth(c, before.log[it.id].payload))
            && (o.FailedNow? ==> Saga.Value(later, c) == Saga.Value(before, c) && later.meta == before.meta)
            && (o.FailedNow? && IsPending(before, it.id) ==>
                  it.id < |later.log|
                  && later.log[it.id].retries == before.log[it.id].retries + (if it.retryFails then 0 else 1))
            && (o.SkippedNow? <==> it.tenant in blocked) && (o.SkippedNow? ==> later == before)
  {
    if OutcomeOf(w, blocked, it).AppliedNow? {
      var before := w[it.tenant];
      if Saga.FromCallers(before.log[it.id].payload) {
        Saga.EffectCharges(before, before.log[it.id].payload, c);
      }
    }
  }

  /** The steps of the saga that an item stands for, given how it came out. */
  function ItemSteps(it: Item, o: Outcome): seq<Saga.Step> {
    match o
    case SkippedNow => []
    case AppliedNow => [Saga.AttemptStep(it.id, false)]
    case FailedNow =>
      if it.retryFails then [Saga.AttemptStep(it.id, it.applyFails)]
      else [Saga.AttemptStep(it.id, it.applyFails), Saga.RetryStep(it.id)]
  }

  /** The steps of one tenant's items, in order. */
  function StepsOf(items: seq<Item>, outcomes: seq<Outcome>, t: Tenant): seq<Saga.Step>
    requires |items| == |outcomes|
  {
    if items == [] then []
    else if items[0].tenant != t then StepsOf(items[1..], outcomes[1..], t)
    else ItemSteps(items[0], outcomes[0]) + StepsOf(items[1..], outcomes[1..], t)
  }

  lemma RunOne(db: Db, a: Saga.Step, rest: seq<Saga.Step>)
    ensures Saga.Run(db, [a] + rest) == Saga.Run(Saga.Next(db, a), rest)
  {
    assert ([a] + rest)[1..] == rest;
  }

  lemma RunTwo(db: Db, a: Saga.Step, b: Saga.Step, rest: seq<Saga.Step>)
    ensures Saga.Run(db, [a, b] + rest) == Saga.Run(Saga.Next(Saga.Next(db, a), b), rest)
  {
    assert [a, b] + rest == [a] + ([b] + rest);
    RunOne(db, a, [b] + rest);
    RunOne(Saga.Next(db, a), b, rest);
  }

  /** What an item does to its own tenant is what its steps do. */
  lemma ItemIsSteps(w: World, blocked: set<Tenant>, it: Item, rest: seq<Saga.Step>)
    requires it.tenant in w
    ensures Saga.Run(w[it.tenant], ItemSteps(it, OutcomeOf(w, blocked, it)) + rest)
            == Saga.Run(WorldAfter(w, blocked, it)[it.tenant], rest)
  {
    var before := w[it.tenant];
    match OutcomeOf(w, blocked, it)
    case SkippedNow => assert [] + rest == rest;
    case AppliedNow => RunOne(before, Saga.AttemptStep(it.id, false), rest);
    case FailedNow =>
      if it.retryFails {
        RunOne(before, Saga.AttemptStep(it.id, it.applyFails), rest);
      } else {
        RunTwo(before, Saga.AttemptStep(it.id, it.applyFails), Saga.RetryStep(it.id), rest);
      }
  }

  /** A batch leaves each tenant's rows as a run of the saga over the steps of its unskipped items. */
  lemma {:induction false} BatchIsARun(w: World, blocked: set<Tenant>, items: seq<Item>, t: Tenant)
    requires t in w
    ensures var b := Replay(w, blocked, items);
            b.world.Keys == w.Keys && b.world[t] == Saga.Run(w[t], StepsOf(items, b.outcomes, t))
    decreases |items|
  {
    if items != [] {
      var it := items[0];
      var w', blocked' := WorldAfter(w, blocked, it), BlockedAfter(w, blocked, it);
      var rest := Replay(w', blocked', items[1..]);
      BatchIsARun(w', blocked', items[1..], t);
      assert Replay(w, blocked, items).outcomes[1..] == rest.outcomes;
      if it.tenant == t {
        ItemIsSteps(w, blocked, it, StepsOf(items[1..], rest.outcomes, t));
      }
    }
  }

  // ---------------------------------------------------------------- the loop

  lemma ConcatOutcomes(a: seq<Outcome>, o: Outcome, b: seq<Outcome>)
    ensures a + ([o] + b) == (a + [o]) + b
  {
  }

  lemma {:induction false} CountSnoc(o: Outcome, os: seq<Outcome>, x: Outcome)
    ensures CountOf(o, os + [x]) == CountOf(o, os) + if x == o then 1 else 0
  {
    if os == [] {
      assert (os + [x])[1..] == [];
    } else {
      assert (os + [x])[1..] == os[1..] + [x];
      CountSnoc(o, os[1..], x);
    }
  }

  method ReplayBatch(w: World, items: seq<Item>) returns (world: World, applied: nat, failed: nat, skipped: nat)
    ensures var b := Replay(w, {}, items);
            && world == b.world
            && applied == CountOf(AppliedNow, b.outcomes)
            && failed == CountOf(FailedNow, b.outcomes)
            && skipped == CountOf(SkippedNow, b.outcomes)
    ensures applied + failed + skipped == |items|
  {
    world, applied, failed, skipped := w, 0, 0, 0;
    var blocked: set<Tenant> := {};
    ghost var done: seq<Outcome> := [];
    for i := 0 to |items|
      invariant |done| == i
      invariant Replay(world, blocked, items[i..]).world == Replay(w, {}, items).world
      invariant done + Replay(world, blocked, items[i..]).outcomes == Replay(w, {}, items).outcomes
      invariant applied == CountOf(AppliedNow, done) && failed == CountOf(FailedNow, done)
      invariant skipped == CountOf(SkippedNow, done) && applied + failed + skipped == i
    {
      var it := items[i];
      assert items[i..][0] == it && items[i..][1..] == items[i + 1..];
      ghost var o := OutcomeOf(world, blocked, it);
      ConcatOutcomes(done, o,
                     Replay(WorldAfter(world, blocked, it), BlockedAfter(world, blocked, it), items[i + 1..]).outcomes);
      CountSnoc(AppliedNow, done, o);
      CountSnoc(FailedNow, done, o);
      CountSnoc(SkippedNow, done, o);
      done := done + [o];
      if it.tenant in blocked {
        skipped := skipped + 1;
        continue;
      }
      if Succeeds(world, it) {
        world := world[it.tenant := Attempt(world[it.tenant], it.id)];
        applied := applied + 1;
      } else {
        if it.tenant in world && !it.retryFails {
          world := world[it.tenant := Retry(world[it.tenant], it.id)];
        }
        blocked := blocked + {it.tenant};
        failed := failed + 1;
      }
    }
    assert items[|items|..] == [] && done + [] == done;
  }
}
