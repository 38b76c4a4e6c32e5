/**
 * Appending to a large object: the server marks the dirty tail, copies the rest, and the
 * client fills the dirty parts from the bytes it reads back and the bytes it appends.
 */
module AppendUpload {
  import opened Options
  import opened PartLayout
  import opened PatchUpload

  /** The first part that the append touches, counted from zero. */
  function FirstDirty(base: nat, ps: nat): nat
    requires ps > 0
  {
    base / ps
  }

  lemma FirstDirtyExact(base: nat, size: nat, ps: nat)
    requires ps > 0 && base < size
    ensures var f := FirstDirty(base, ps);
            && f * ps <= base < (f + 1) * ps
            && f < Count(size, ps) && Cut(size, ps, f) <= base
            && Count(base, ps) == (if base % ps == 0 then f else f + 1)
  {
    var f := FirstDirty(base, ps);
    assert base == f * ps + base % ps;
    MulSucc(f, ps);
    CountExact(size, ps);
    if Count(size, ps) <= f {
      MulMonotone(Count(size, ps), f, ps);
    }
    CutAtMultiple(size, ps, f);
    if base % ps == 0 {
      if f > 0 { MulSucc(f - 1, ps); }
      CountUnique(base, ps, f);
    } else {
      CountUnique(base, ps, f + 1);
    }
  }

  /** Parts before the first dirty one end inside the base; all others end past it. */
  lemma DirtyEndsPastBase(base: nat, size: nat, ps: nat, i: nat)
    requires ps > 0 && base < size && i < Count(size, ps)
    ensures Cut(size, ps, i + 1) > base <==> i >= FirstDirty(base, ps)
    ensures i > FirstDirty(base, ps) ==> Cut(size, ps, i) > base && i + 1 > Count(base, ps)
    ensures i < FirstDirty(base, ps) ==> i + 1 <= Count(base, ps)
  {
    var f := FirstDirty(base, ps);
    FirstDirtyExact(base, size, ps);
    if i < f {
      MulMonotone(i + 1, f, ps);
    } else {
      MulMonotone(f + 1, i + 1, ps);
      if i > f {
        CutAtMultiple(size, ps, i);
        MulMonotone(f + 1, i, ps);
      }
    }
  }

  method AppendDirtyPartNumbers(base: nat, size: nat, ps: int) returns (dirty: seq<nat>)
    ensures size <= base || ps <= 0 ==> dirty == []
    ensures size > base && ps > 0 ==>
              && (forall a, b :: 0 <= a < b < |dirty| ==> dirty[a] < dirty[b])
              && (forall k :: k in dirty <==> 1 <= k <= Count(size, ps) && Cut(size, ps, k) > base)
  {
    if size <= base || ps <= 0 {
      return [];
    }
    FirstDirtyExact(base, size, ps);
    CountExact(base, ps);
    ghost var f := FirstDirty(base, ps);
    var newParts := CalcParts(size, ps);
    var basePartCount := 0;
    if base > 0 {
      var baseParts := CalcParts(base, ps);
      basePartCount := |baseParts|;
    }
    dirty := [];
    if base > 0 && base % ps != 0 {
      dirty := dirty + [basePartCount];
    }
    var start := basePartCount + 1;
    for pn := start to |newParts| + 1
      invariant f + 1 <= pn && |dirty| == pn - (f + 1)
      invariant forall a :: 0 <= a < |dirty| ==> dirty[a] == f + 1 + a
    {
      dirty := dirty + [pn];
    }
    assert |dirty| > 0; // so the source's fallback for an empty list never applies
    forall k: nat
      ensures k in dirty <==> 1 <= k <= Count(size, ps) && Cut(size, ps, k) > base
    {
      if 1 <= k <= Count(size, ps) {
        DirtyEndsPastBase(base, size, ps, k - 1);
        if k >= f + 1 {
          assert dirty[k - (f + 1)] == k;
        }
      }
    }
  }

  /** The dirty set of an append leaves exactly the full parts inside the base to be copied. */
  ghost predicate AppendDirty(base: nat, size: nat, ps: nat, dirty: set<nat>)
    requires ps > 0
  {
    forall k :: k in dirty <==> 1 <= k <= Count(size, ps) && Cut(size, ps, k) > base
  }

  lemma AppendCopies(base: nat, size: nat, ps: nat, dirty: set<nat>, i: nat)
    requires ps > 0 && base < size && i < Count(size, ps) && AppendDirty(base, size, ps, dirty)
    ensures IsCopied(base, ps, dirty, i) <==> i < FirstDirty(base, ps)
    ensures IsCopied(base, ps, dirty, i) ==> Cut(size, ps, i + 1) <= base
  {
    DirtyEndsPastBase(base, size, ps, i);
    var k := i + 1;
    assert k in dirty <==> 1 <= k <= Count(size, ps) && Cut(size, ps, k) > base;
  }

  lemma AppendNeverShort(base: nat, size: nat, ps: nat, dirty: set<nat>)
    requires ps > 0 && base < size && AppendDirty(base, size, ps, dirty)
    ensures !ShortCopy(base, size, ps, dirty)
  {
  }

  /** The uploads of an append plan are the parts from the first dirty one on. */
  lemma {:induction false} AppendUploadsAre(base: nat, size: nat, ps: nat, dirty: set<nat>, n: nat)
    requires ps > 0 && base < size && AppendDirty(base, size, ps, dirty) && n <= Count(size, ps)
    ensures var f, p := FirstDirty(base, ps), Picked(base, ps, dirty, false, n);
            && |p| == (if n <= f then 0 else n - f)
            && forall a :: 0 <= a < |p| ==> p[a] == f + a
  {
    if n > 0 {
      AppendUploadsAre(base, size, ps, dirty, n - 1);
      AppendCopies(base, size, ps, dirty, n - 1);
    }
  }

  // ---------------------------------------------------------------- the client

  predicate OverlapsExisting(base: nat, ps: int, number: int) {
    base > 0 && ps > 0 && number > 0 && (number - 1) * ps < base
  }

  /** A part overlaps the base exactly when the server offers a range to read back. */
  lemma OverlapMeansRead(base: nat, size: nat, ps: nat, i: nat)
    requires ps > 0
    ensures OverlapsExisting(base, ps, i + 1) <==> UploadOf(base, size, ps, i).read.Some?
  {
    CountExact(base, ps);
    if i + 1 <= Count(base, ps) {
      MulMonotone(i, Count(base, ps) - 1, ps);
    } else {
      MulMonotone(Count(base, ps), i, ps);
    }
  }

  /** How far into the appended bytes the parts before the a-th upload reach. */
  function Consumed(base: nat, size: nat, ps: nat, a: nat): int
    requires ps > 0
  {
    if a == 0 then 0 else Cut(size, ps, FirstDirty(base, ps) + a) - base
  }

  /** Where the a-th uploaded part lies: only the first one starts inside the base. */
  lemma UploadBounds(base: nat, size: nat, ps: nat, a: nat)
    requires ps > 0 && base < size && FirstDirty(base, ps) + a < Count(size, ps)
    ensures var i := FirstDirty(base, ps) + a;
            && (a == 0 ==> Cut(size, ps, i) <= base)
            && (a > 0 ==> base < Cut(size, ps, i) && i + 1 > Count(base, ps))
            && base < Cut(size, ps, i + 1) <= size && Cut(size, ps, i) < Cut(size, ps, i + 1)
            && (a == 0 && i + 1 > Count(base, ps) ==> Cut(size, ps, i) == base)
  {
    var f := FirstDirty(base, ps);
    FirstDirtyExact(base, size, ps);
    CutAtMultiple(size, ps, f);
    CutsTile(size, ps, f + a);
    DirtyEndsPastBase(base, size, ps, f + a);
  }

  lemma OrigData(b: Bytes, size: nat, ps: nat, a: nat)
    requires ps > 0 && |b| < size && FirstDirty(|b|, ps) + a < Count(size, ps)
    ensures var i := FirstDirty(|b|, ps) + a;
            (a == 0 ==> Cut(size, ps, i) <= |b|) &&
            (if i + 1 <= Count(|b|, ps) then Clamped(b, size, ps, i) else []) ==
            (if a == 0 then b[Cut(size, ps, i)..] else [])
  {
    var i := FirstDirty(|b|, ps) + a;
    UploadBounds(|b|, size, ps, a);
    if i + 1 <= Count(|b|, ps) {
      ClampedExact(b, size, ps, i);
    }
  }

  lemma ConcatSlice(b: Bytes, app: Bytes, lo: nat, hi: nat)
    requires lo < hi <= |b| + |app| && |b| < hi
    ensures lo <= |b| ==> b[lo..] + app[0..hi - |b|] == (b + app)[lo..hi]
    ensures |b| <= lo ==> [] + app[lo - |b|..hi - |b|] == (b + app)[lo..hi]
  {
  }

  /** A part is what the base still holds of it, followed by the next appended bytes. */
  lemma PartData(b: Bytes, app: Bytes, ps: nat, a: nat)
    requires ps > 0 && |app| > 0 && FirstDirty(|b|, ps) + a < Count(|b| + |app|, ps)
    ensures var size, i := |b| + |app|, FirstDirty(|b|, ps) + a;
            var lo, hi := Consumed(|b|, size, ps, a), Consumed(|b|, size, ps, a + 1);
            && (a == 0 ==> Cut(size, ps, i) <= |b|)
            && 0 <= lo < hi <= |app|
            && IsSlice((if a == 0 then b[Cut(size, ps, i)..] else []) + app[lo..hi], b + app, ps, i)
  {
    var size, i := |b| + |app|, FirstDirty(|b|, ps) + a;
    UploadBounds(|b|, size, ps, a);
    ConcatSlice(b, app, Cut(size, ps, i), Cut(size, ps, i + 1));
  }

  /** The plan as the client received it: a read range may be missing if signing it failed. */
  predicate Offered(u: UploadPart, plan: UploadPart) { u == plan || u == plan.(read := None) }

  predicate ReadsPresent(base: nat, ps: nat, uploads: seq<UploadPart>) {
    forall a :: 0 <= a < |uploads| && OverlapsExisting(base, ps, uploads[a].number) ==> uploads[a].read.Some?
  }

  /** The bytes read back for a part: nothing unless the plan offered a range. */
  function ReadBack(b: Bytes, u: UploadPart): Bytes {
    if u.read.Some? && 0 <= u.read.value.first <= u.read.value.last < |b|
    then b[u.read.value.first..u.read.value.last + 1] else []
  }

  lemma ReadBackIs(b: Bytes, size: nat, ps: nat, a: nat, u: UploadPart)
    requires ps > 0 && |b| < size && FirstDirty(|b|, ps) + a < Count(size, ps)
    requires Offered(u, UploadOf(|b|, size, ps, FirstDirty(|b|, ps) + a))
    requires OverlapsExisting(|b|, ps, u.number) ==> u.read.Some?
    ensures a == 0 ==> Cut(size, ps, FirstDirty(|b|, ps)) <= |b|
    ensures ReadBack(b, u) == if a == 0 then b[Cut(size, ps, FirstDirty(|b|, ps))..] else []
  {
    var i := FirstDirty(|b|, ps) + a;
    OverlapMeansRead(|b|, size, ps, i);
    OrigData(b, size, ps, a);
    assert u == UploadOf(|b|, size, ps, i);
  }

  /** The a-th uploaded part as the plan offers it, with its read-back range where one is needed. */
  predicate PlannedPart(b: Bytes, size: nat, ps: nat, part: UploadPart, a: nat) {
    && ps > 0 && size > 0 && FirstDirty(|b|, ps) + a < Count(|b| + size, ps)
    && Offered(part, UploadOf(|b|, |b| + size, ps, FirstDirty(|b|, ps) + a))
    && (OverlapsExisting(|b|, ps, part.number) ==> part.read.Some?)
  }

  lemma PartFits(b: Bytes, size: nat, ps: nat, part: UploadPart, a: nat)
    requires PlannedPart(b, size, ps, part, a)
    ensures var need := part.size - |ReadBack(b, part)|;
            need >= 0 && Consumed(|b|, |b| + size, ps, a) + need == Consumed(|b|, |b| + size, ps, a + 1) <= size
  {
    ReadBackIs(b, |b| + size, ps, a, part);
    PartSizes(|b|, size, ps, a);
  }

  lemma PartIsSlice(b: Bytes, app: Bytes, ps: nat, part: UploadPart, a: nat)
    requires PlannedPart(b, |app|, ps, part, a)
    ensures var lo, hi := Consumed(|b|, |b| + |app|, ps, a), Consumed(|b|, |b| + |app|, ps, a + 1);
            0 <= lo <= hi <= |app| && IsSlice(ReadBack(b, part) + app[lo..hi], b + app, ps, FirstDirty(|b|, ps) + a)
  {
    ReadBackIs(b, |b| + |app|, ps, a, part);
    PartData(b, app, ps, a);
  }

  /** One dirty part: what was read back, then the next bytes of the reader; fails if they run out. */
  method BuildPart(b: Bytes, r: Bytes, size: nat, ps: nat, part: UploadPart, pos: nat, ghost a: nat)
      returns (ok: bool, data: Bytes, need: nat)
    requires PlannedPart(b, size, ps, part, a)
    requires pos == Consumed(|b|, |b| + size, ps, a) && pos <= |r|
    ensures pos + need == Consumed(|b|, |b| + size, ps, a + 1) <= size
    ensures ok <==> pos + need <= |r|
    ensures ok && |r| >= size ==> IsSlice(data, b + r[..size], ps, FirstDirty(|b|, ps) + a)
  {
    PartFits(b, size, ps, part, a);
    var origData := ReadBack(b, part);
    need := part.size - |origData|;
    ok := |r| - pos >= need;
    data := [];
    if ok {
      data := origData + r[pos..pos + need];
      if |r| >= size {
        PartIsSlice(b, r[..size], ps, part, a);
        assert r[..size][pos..pos + need] == r[pos..pos + need];
      }
    }
  }

  method CheckReads(base: nat, ps: nat, uploads: seq<UploadPart>) returns (ok: bool)
    ensures ok <==> ReadsPresent(base, ps, uploads)
  {
    for a := 0 to |uploads|
      invariant forall k :: 0 <= k < a && OverlapsExisting(base, ps, uploads[k].number) ==> uploads[k].read.Some?
    {
      if OverlapsExisting(base, ps, uploads[a].number) && uploads[a].read.None? {
        return false;
      }
    }
    return true;
  }

  lemma AllConsumed(base: nat, size: nat, ps: nat)
    requires ps > 0 && size > 0
    ensures FirstDirty(base, ps) < Count(base + size, ps)
    ensures Consumed(base, base + size, ps, Count(base + size, ps) - FirstDirty(base, ps)) == size
  {
    FirstDirtyExact(base, base + size, ps);
    CutsTile(base + size, ps, FirstDirty(base, ps));
  }

  /**
   * AppendStream over a plan for `size` more bytes: it succeeds exactly when the reader holds
   * that many bytes and no read-back range is missing; then nothing remains and every part is
   * the slice of base followed by appended bytes at its place.
   */
  method BuildParts(b: Bytes, r: Bytes, size: nat, ps: nat, uploads: seq<UploadPart>)
      returns (ok: bool, parts: seq<Bytes>, remaining: int)
    requires ps > 0 && size > 0
    requires |uploads| == Count(|b| + size, ps) - FirstDirty(|b|, ps)
    requires forall a :: 0 <= a < |uploads| ==>
             Offered(uploads[a], UploadOf(|b|, |b| + size, ps, FirstDirty(|b|, ps) + a))
    ensures ok <==> |r| >= size && ReadsPresent(|b|, ps, uploads)
    ensures ok ==> remaining == 0 && |parts| == |uploads|
    ensures ok ==> forall a :: 0 <= a < |parts| ==> IsSlice(parts[a], b + r[..size], ps, FirstDirty(|b|, ps) + a)
  {
    parts, remaining := [], size;
    ok := CheckReads(|b|, ps, uploads);
    if !ok {
      return;
    }
    AllConsumed(|b|, size, ps);
    var pos: nat := 0;
    for a := 0 to |uploads|
      invariant |parts| == a && pos == Consumed(|b|, |b| + size, ps, a) && remaining == size - pos && pos <= |r|
      invariant |r| >= size ==> forall k :: 0 <= k < a ==> IsSlice(parts[k], b + r[..size], ps, FirstDirty(|b|, ps) + k)
    {
      var data, need;
      ok, data, need := BuildPart(b, r, size, ps, uploads[a], pos, a);
      if !ok {
        return;
      }
      parts := parts + [data];
      pos := pos + need;
      remaining := remaining - need;
    }
    ok := true;
  }

  predicate IsSlice(part: Bytes, x: Bytes, ps: nat, i: nat) {
    Cut(|x|, ps, i) <= Cut(|x|, ps, i + 1) && part == x[Cut(|x|, ps, i)..Cut(|x|, ps, i + 1)]
  }

  /** What is missing from a part is exactly the next stretch of appended bytes. */
  lemma PartSizes(base: nat, size: nat, ps: nat, a: nat)
    requires ps > 0 && size > 0 && FirstDirty(base, ps) + a < Count(base + size, ps)
    ensures var total, f := base + size, FirstDirty(base, ps);
            && (a == 0 ==> Cut(total, ps, f) <= base)
            && SizeAt(total, ps, f + a) == (if a == 0 then base - Cut(total, ps, f) else 0)
               + Consumed(base, total, ps, a + 1) - Consumed(base, total, ps, a)
            && 0 <= Consumed(base, total, ps, a) < Consumed(base, total, ps, a + 1) <= size
  {
    UploadBounds(base, base + size, ps, a);
  }

  /** A copied part of an append holds the right slice of the result. */
  lemma CopiedSlice(b: Bytes, app: Bytes, ps: nat, i: nat)
    requires ps > 0 && app != [] && i < FirstDirty(|b|, ps) && i < Count(|b| + |app|, ps)
    ensures IsSlice(Clamped(b, |b| + |app|, ps, i), b + app, ps, i)
  {
    var x := b + app;
    DirtyEndsPastBase(|b|, |x|, ps, i);
    CutsTile(|x|, ps, i);
    ClampedExact(b, |x|, ps, i);
    assert b[Cut(|x|, ps, i)..Cut(|x|, ps, i + 1)] == x[Cut(|x|, ps, i)..Cut(|x|, ps, i + 1)];
  }

  /** What the slots hold once the client has put its parts. */
  predicate AppendStored(b: Bytes, app: Bytes, ps: nat, slots: Slots, parts: seq<Bytes>)
    requires ps > 0
  {
    var size, f := |b| + |app|, FirstDirty(|b|, ps);
    && |slots| == Count(size, ps) && f <= |slots| && |parts| == |slots| - f
    && (forall i :: 0 <= i < f ==> slots[i] == Some(Clamped(b, size, ps, i)))
    && (forall i :: f <= i < |slots| ==> slots[i] == Some(parts[i - f]))
    && (forall a :: 0 <= a < |parts| ==> IsSlice(parts[a], b + app, ps, f + a))
  }

  lemma AppendSlot(b: Bytes, app: Bytes, ps: nat, slots: Slots, parts: seq<Bytes>, i: nat)
    requires ps > 0 && app != [] && AppendStored(b, app, ps, slots, parts) && i < |slots|
    ensures slots[i].Some? && IsSlice(slots[i].value, b + app, ps, i)
  {
    var f := FirstDirty(|b|, ps);
    if i < f {
      CopiedSlice(b, app, ps, i);
    } else {
      assert IsSlice(parts[i - f], b + app, ps, f + (i - f));
    }
  }

  /** The finished upload: the server's copies and the client's parts are the base followed by the append. */
  lemma AppendEndToEnd(b: Bytes, app: Bytes, ps: nat, slots: Slots, parts: seq<Bytes>)
    requires ps > 0 && app != [] && AppendStored(b, app, ps, slots, parts)
    ensures Confirmed(Listed(slots), |b| + |app|, ps)
    ensures Assembled(slots, 0) == b + app
  {
    var x := b + app;
    forall i | 0 <= i < |slots|
      ensures slots[i].Some? && IsSlice(slots[i].value, x, ps, i) && SliceOk(slots, x, ps, i)
    {
      AppendSlot(b, app, ps, slots, parts, i);
    }
    SlicesConfirm(slots, x, ps);
    SlicesAssemble(slots, x, ps, 0);
    assert Cut(|x|, ps, 0) == 0 && x[0..] == x;
  }

  lemma SlicesConfirm(slots: Slots, x: Bytes, ps: nat)
    requires ps > 0 && |slots| == Count(|x|, ps)
    requires forall i :: 0 <= i < |slots| ==> slots[i].Some? && IsSlice(slots[i].value, x, ps, i)
    ensures Confirmed(Listed(slots), |x|, ps)
  {
    ConfirmExact(slots, |x|, ps);
  }

  predicate IsPut(copies: Slots, parts: seq<Bytes>, f: nat, slots: Slots) {
    && f + |parts| == |copies| == |slots| && (forall i :: 0 <= i < f ==> slots[i] == copies[i])
    && (forall i :: f <= i < |slots| ==> slots[i] == Some(parts[i - f]))
  }

  /** The client's parts go into the slots the server left open. */
  method PutParts(copies: Slots, parts: seq<Bytes>, f: nat) returns (slots: Slots)
    requires f + |parts| == |copies|
    ensures IsPut(copies, parts, f, slots)
  {
    slots := copies;
    for a := 0 to |parts|
      invariant |slots| == |copies| && (forall i :: 0 <= i < f ==> slots[i] == copies[i])
      invariant forall i :: f <= i < f + a ==> slots[i] == Some(parts[i - f])
    {
      slots := slots[f + a := Some(parts[a])];
    }
  }

  /** The server side of an append: the dirty tail is offered for upload, everything before it is copied. */
  method PlanAppend(b: Bytes, size: nat, ps: nat) returns (copies: Slots, copied: seq<nat>, uploads: seq<UploadPart>)
    requires ps > 0 && size > 0
    ensures var total, f := |b| + size, FirstDirty(|b|, ps);
            && f < |copies| == Count(total, ps) && |copied| == f && |uploads| == |copies| - f
            && (forall i :: 0 <= i < f ==> copies[i] == Some(Clamped(b, total, ps, i)))
            && (forall a :: 0 <= a < |uploads| ==> uploads[a] == UploadOf(|b|, total, ps, f + a))
  {
    var total := |b| + size;
    var dirtyParts := AppendDirtyPartNumbers(|b|, total, ps);
    var dirty := DirtySet(dirtyParts);
    assert AppendDirty(|b|, total, ps, dirty);
    copies, copied, uploads := SplitParts(b, total, dirty, ps);
    AllConsumed(|b|, size, ps);
    AppendUploadsAre(|b|, total, ps, dirty, Count(total, ps));
    AppendCopiedCount(|b|, total, ps, dirty, Count(total, ps));
    forall i | 0 <= i < FirstDirty(|b|, ps)
      ensures copies[i] == Some(Clamped(b, total, ps, i))
    {
      AppendCopies(|b|, total, ps, dirty, i);
    }
  }

  /**
   * The whole append: plan, copy, build, put, confirm, complete. It succeeds exactly when the
   * reader delivers `size` bytes, and the object is then the base followed by those bytes.
   */
  method AppendFlow(b: Bytes, r: Bytes, size: nat, ps: nat) returns (ok: bool, result: Bytes)
    requires ps > 0 && size > 0
    ensures ok <==> |r| >= size
    ensures ok ==> result == b + r[..size]
  {
    result := [];
    var copies, copied, uploads := PlanAppend(b, size, ps);
    AllReadsPresent(|b|, |b| + size, ps, uploads);
    var parts, remaining;
    ok, parts, remaining := BuildParts(b, r, size, ps, uploads);
    if !ok {
      return;
    }
    ok, result := FinishAppend(b, r[..size], ps, copies, parts, |copied|);
  }

  /** Ready to finish: the copies are in place, and the built parts are their slices of the result. */
  predicate ReadyToPut(b: Bytes, app: Bytes, ps: nat, copies: Slots, parts: seq<Bytes>, f: nat) {
    && ps > 0 && app != [] && f == FirstDirty(|b|, ps) <= |copies| == Count(|b| + |app|, ps) && f + |parts| == |copies|
    && (forall i :: 0 <= i < f ==> copies[i] == Some(Clamped(b, |b| + |app|, ps, i)))
    && (forall a :: 0 <= a < |parts| ==> IsSlice(parts[a], b + app, ps, f + a))
  }

  lemma FinishedAppend(b: Bytes, app: Bytes, ps: nat, copies: Slots, parts: seq<Bytes>, f: nat, slots: Slots)
    requires ReadyToPut(b, app, ps, copies, parts, f) && IsPut(copies, parts, f, slots)
    ensures ps > 0 && |slots| == Count(|b| + |app|, ps)
    ensures Confirmed(Listed(slots), |b| + |app|, ps) && Assembled(slots, 0) == b + app
  {
    assert AppendStored(b, app, ps, slots, parts);
    AppendEndToEnd(b, app, ps, slots, parts);
  }

  /** Put the built parts, confirm and complete. */
  method FinishAppend(b: Bytes, app: Bytes, ps: nat, copies: Slots, parts: seq<Bytes>, f: nat)
      returns (ok: bool, result: Bytes)
    requires ReadyToPut(b, app, ps, copies, parts, f)
    ensures ok && result == b + app
  {
    var slots := PutParts(copies, parts, f);
    FinishedAppend(b, app, ps, copies, parts, f, slots);
    ok, result := ConfirmUpload(slots, |b| + |app|, ps);
  }

  /** Confirm, then complete the multipart upload. */
  method ConfirmUpload(slots: Slots, size: nat, ps: nat) returns (ok: bool, result: Bytes)
    requires ps > 0 && |slots| == Count(size, ps)
    ensures ok <==> Confirmed(Listed(slots), size, ps)
    ensures ok ==> result == Assembled(slots, 0)
  {
    ok := ConfirmSizes(Listed(slots), |slots|, size, ps);
    result := if ok then Assembled(slots, 0) else [];
  }

  lemma AllReadsPresent(base: nat, total: nat, ps: nat, uploads: seq<UploadPart>)
    requires ps > 0
    requires forall a :: 0 <= a < |uploads| ==> uploads[a] == UploadOf(base, total, ps, FirstDirty(base, ps) + a)
    ensures ReadsPresent(base, ps, uploads)
  {
    forall a | 0 <= a < |uploads| && OverlapsExisting(base, ps, uploads[a].number)
      ensures uploads[a].read.Some?
    {
      OverlapMeansRead(base, total, ps, FirstDirty(base, ps) + a);
    }
  }

  lemma {:induction false} AppendCopiedCount(base: nat, size: nat, ps: nat, dirty: set<nat>, n: nat)
    requires ps > 0 && base < size && AppendDirty(base, size, ps, dirty) && n <= Count(size, ps)
    ensures |Picked(base, ps, dirty, true, n)| == if n <= FirstDirty(base, ps) then n else FirstDirty(base, ps)
  {
    PickedCounts(base, ps, dirty, n);
    AppendUploadsAre(base, size, ps, dirty, n);
  }

  // ---------------------------------------------------------------- the part size

  /** The part size the append initiate settles on, from the client's wish. */
  function AppendPartSize(base: nat, size: nat, wish: int): (ps: nat)
    ensures ps > 0
  {
    AdaptiveFits(base);
    AdaptiveFits(size);
    var first := if wish < MIN_PART_SIZE then AdaptivePartSize(base) else wish;
    if Count(size, first) > MAX_MULTIPART_PARTS then AdaptivePartSize(size) else first
  }

  /**
   * A wish of at least 5 MiB that keeps the new file to 10000 parts is granted. Without such a
   * wish the base file's adaptive size is used if the new file fits, and otherwise its own.
   */
  lemma AppendPartSizeExact(base: nat, size: nat, wish: int)
    ensures wish >= 5_242_880 && size <= 10000 * wish ==> AppendPartSize(base, size, wish) == wish
    ensures wish < 5_242_880 && size <= 10000 * AdaptivePartSize(base) ==>
              AppendPartSize(base, size, wish) == AdaptivePartSize(base)
    ensures size > 10000 * (if wish < 5_242_880 then AdaptivePartSize(base) else wish) ==>
              AppendPartSize(base, size, wish) == AdaptivePartSize(size)
  {
    AdaptiveFits(base);
    CountWithin(size, if wish < MIN_PART_SIZE then AdaptivePartSize(base) else wish, MAX_MULTIPART_PARTS);
  }

  /** The patch initiate: its own fallback, then the two limits. */
  function PatchPartSize(size: nat, wish: int): Option<nat> {
    var ps: nat := if wish < MIN_PART_SIZE then PART_SIZE else wish;
    if ps > MAX_PART_SIZE || Count(size, ps) > MAX_MULTIPART_PARTS then None else Some(ps)
  }

  /**
   * The patch step keeps the part size the append step computed the dirty parts with. It
   * accepts exactly a wish of at most 5 GiB for a file that 10000 parts can hold, at the
   * wished size or at the largest adaptive one.
   */
  lemma AppendAndPatchAgree(base: nat, size: nat, wish: int)
    ensures var ps := AppendPartSize(base, size, wish);
            && (PatchPartSize(size, ps).Some? ==> PatchPartSize(size, ps).value == ps)
            && (PatchPartSize(size, ps).Some? <==>
                wish <= MAX_PART_SIZE
                && (size <= MAX_MULTIPART_PARTS * MAX_ADAPTIVE_PART_SIZE || size <= MAX_MULTIPART_PARTS * wish))
  {
    AdaptiveFits(base);
    AdaptiveFits(size);
    CountWithin(size, AdaptivePartSize(base), MAX_MULTIPART_PARTS);
    if wish >= MIN_PART_SIZE {
      CountWithin(size, wish, MAX_MULTIPART_PARTS);
    }
  }
}
