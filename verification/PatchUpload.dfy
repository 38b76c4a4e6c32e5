/**
 * Patch and append uploads: the server's copy/upload split (pkg/backend/patch.go), the
 * client's part assembly (pkg/client/append.go) and the size checks of the confirm step
 * (pkg/backend/upload.go). Index i stands for part number i + 1; the multipart upload in S3
 * has one slot for each part that may be put into it.
 */
module PatchUpload {
  import opened Options
  import opened PartLayout

  type Bytes = seq<bv8>

  type Slots = seq<Option<Bytes>>

  /** A byte range of the source object, both ends included. */
  datatype ByteRange = ByteRange(first: int, last: int)
  datatype UploadPart = UploadPart(number: nat, size: int, read: Option<ByteRange>)

  function SizeAt(size: nat, ps: nat, i: nat): int { Cut(size, ps, i + 1) - Cut(size, ps, i) }

  // ---------------------------------------------------------------- the copy/upload split

  /** The part is not dirty and the source has such a part. */
  predicate IsCopied(orig: nat, ps: nat, dirty: set<nat>, i: nat)
    requires ps > 0
  {
    i + 1 !in dirty && i + 1 <= Count(orig, ps)
  }

  /** The indices below n that are copied, or that are not. */
  function Picked(orig: nat, ps: nat, dirty: set<nat>, copied: bool, n: nat): seq<nat>
    requires ps > 0
  {
    if n == 0 then []
    else Picked(orig, ps, dirty, copied, n - 1) + (if IsCopied(orig, ps, dirty, n - 1) == copied then [n - 1] else [])
  }

  lemma {:induction false} PickedMembers(orig: nat, ps: nat, dirty: set<nat>, copied: bool, n: nat)
    requires ps > 0
    ensures forall k :: k in Picked(orig, ps, dirty, copied, n) <==>
            0 <= k < n && IsCopied(orig, ps, dirty, k) == copied
  {
    if n > 0 {
      PickedMembers(orig, ps, dirty, copied, n - 1);
    }
  }

  lemma {:induction false} PickedAscends(orig: nat, ps: nat, dirty: set<nat>, copied: bool, n: nat)
    requires ps > 0
    ensures forall a, b :: 0 <= a < b < |Picked(orig, ps, dirty, copied, n)| ==>
              Picked(orig, ps, dirty, copied, n)[a] < Picked(orig, ps, dirty, copied, n)[b]
  {
    if n > 0 {
      PickedAscends(orig, ps, dirty, copied, n - 1);
      PickedMembers(orig, ps, dirty, copied, n - 1);
      var rest := Picked(orig, ps, dirty, copied, n - 1);
      assert forall a :: 0 <= a < |rest| ==> rest[a] in rest;
    }
  }

  lemma {:induction false} PickedCounts(orig: nat, ps: nat, dirty: set<nat>, n: nat)
    requires ps > 0
    ensures |Picked(orig, ps, dirty, true, n)| + |Picked(orig, ps, dirty, false, n)| == n
  {
    if n > 0 {
      PickedCounts(orig, ps, dirty, n - 1);
    }
  }

  /** Copied and uploaded parts partition the new object's parts: each index once, in one list, in order. */
  lemma SplitIsPartition(orig: nat, size: nat, ps: nat, dirty: set<nat>)
    requires ps > 0
    ensures var n := Count(size, ps);
            var c, u := Picked(orig, ps, dirty, true, n), Picked(orig, ps, dirty, false, n);
            && (forall k :: k in c || k in u <==> 0 <= k < n) && (forall k :: !(k in c && k in u)) && |c| + |u| == n
            && (forall a, b :: 0 <= a < b < |c| ==> c[a] < c[b]) && (forall a, b :: 0 <= a < b < |u| ==> u[a] < u[b])
  {
    var n := Count(size, ps);
    PickedMembers(orig, ps, dirty, true, n);
    PickedMembers(orig, ps, dirty, false, n);
    PickedAscends(orig, ps, dirty, true, n);
    PickedAscends(orig, ps, dirty, false, n);
    PickedCounts(orig, ps, dirty, n);
  }

  /** Where the part lies in the source, clamped to the source's end. */
  function SourceRange(orig: nat, size: nat, ps: nat, i: nat): ByteRange {
    var last := i * ps + SizeAt(size, ps, i) - 1;
    ByteRange(i * ps, if last >= orig then orig - 1 else last)
  }

  /** Every range inside the source is non-empty and ends where the part or the source ends. */
  lemma RangeInSource(orig: nat, size: nat, ps: nat, i: nat)
    requires ps > 0 && i < Count(size, ps) && i + 1 <= Count(orig, ps)
    ensures var r := SourceRange(orig, size, ps, i);
            && 0 <= r.first == Cut(size, ps, i) <= r.last < orig
            && r.last + 1 == (if Cut(size, ps, i + 1) <= orig then Cut(size, ps, i + 1) else orig)
  {
    CutsTile(size, ps, i);
    CutAtMultiple(size, ps, i);
    CutAtMultiple(orig, ps, i);
  }

  /** UploadPartCopy, or a ranged GET, of the clamped range. */
  function Clamped(source: Bytes, size: nat, ps: nat, i: nat): Bytes {
    var r := SourceRange(|source|, size, ps, i);
    if 0 <= r.first <= r.last < |source| then source[r.first..r.last + 1] else []
  }

  lemma ClampedExact(source: Bytes, size: nat, ps: nat, i: nat)
    requires ps > 0 && i < Count(size, ps) && i + 1 <= Count(|source|, ps)
    ensures var lo, hi := Cut(size, ps, i), if Cut(size, ps, i + 1) <= |source| then Cut(size, ps, i + 1) else |source|;
            && 0 <= lo <= hi <= |source| && Clamped(source, size, ps, i) == source[lo..hi]
            && (|Clamped(source, size, ps, i)| == SizeAt(size, ps, i) <==> Cut(size, ps, i + 1) <= |source|)
  {
    RangeInSource(|source|, size, ps, i);
    CutsTile(size, ps, i);
  }

  function UploadOf(orig: nat, size: nat, ps: nat, i: nat): UploadPart
    requires ps > 0
  {
    UploadPart(i + 1, SizeAt(size, ps, i),
               if i + 1 <= Count(orig, ps) then Some(SourceRange(orig, size, ps, i)) else None)
  }

  function CopiedSlot(source: Bytes, size: nat, ps: nat, dirty: set<nat>, i: nat): Option<Bytes>
    requires ps > 0
  {
    if IsCopied(|source|, ps, dirty, i) then Some(Clamped(source, size, ps, i)) else None
  }

  method DirtySet(dirtyParts: seq<nat>) returns (dirty: set<nat>)
    ensures forall d :: d in dirty <==> d in dirtyParts
  {
    dirty := {};
    for k := 0 to |dirtyParts|
      invariant forall d :: d in dirty <==> d in dirtyParts[..k]
    {
      dirty := dirty + {dirtyParts[k]};
    }
  }

  predicate CopyNumbers(copied: seq<nat>, p: seq<nat>) {
    |copied| == |p| && forall a :: 0 <= a < |p| ==> copied[a] == p[a] + 1
  }

  predicate UploadParts(orig: nat, size: nat, ps: nat, uploads: seq<UploadPart>, p: seq<nat>)
    requires ps > 0
  {
    |uploads| == |p| && forall a :: 0 <= a < |p| ==> uploads[a] == UploadOf(orig, size, ps, p[a])
  }

  /** The plan as far as the first n parts. */
  ghost predicate Planned(source: Bytes, size: nat, ps: nat, dirty: set<nat>, n: nat, slots: Slots, copied: seq<nat>,
                          uploads: seq<UploadPart>)
    requires ps > 0
  {
    && |slots| == n && (forall i :: 0 <= i < n ==> slots[i] == CopiedSlot(source, size, ps, dirty, i))
    && CopyNumbers(copied, Picked(|source|, ps, dirty, true, n))
    && UploadParts(|source|, size, ps, uploads, Picked(|source|, ps, dirty, false, n))
  }

  lemma PlannedStep(source: Bytes, size: nat, ps: nat, dirty: set<nat>, n: nat, slots: Slots, copied: seq<nat>,
                    uploads: seq<UploadPart>)
    requires ps > 0 && Planned(source, size, ps, dirty, n, slots, copied, uploads)
    ensures IsCopied(|source|, ps, dirty, n) ==>
              Planned(source, size, ps, dirty, n + 1, slots + [Some(Clamped(source, size, ps, n))], copied + [n + 1],
                      uploads)
    ensures !IsCopied(|source|, ps, dirty, n) ==>
              Planned(source, size, ps, dirty, n + 1, slots + [None], copied,
                      uploads + [UploadOf(|source|, size, ps, n)])
  {
  }

  /** The split loop: copies go straight into their slots, the rest is handed to the client. */
  method SplitParts(source: Bytes, size: nat, dirty: set<nat>, ps: nat)
      returns (slots: Slots, copied: seq<nat>, uploads: seq<UploadPart>)
    requires ps > 0
    ensures Planned(source, size, ps, dirty, Count(size, ps), slots, copied, uploads)
  {
    var newParts := CalcParts(size, ps);
    var origPartCount := 0;
    if |source| > 0 {
      var origParts := CalcParts(|source|, ps);
      origPartCount := |origParts|;
    }
    CountExact(|source|, ps);
    slots, copied, uploads := [], [], [];
    for i := 0 to |newParts|
      invariant Planned(source, size, ps, dirty, i, slots, copied, uploads)
    {
      PartsAt(size, ps, 0, i);
      PlannedStep(source, size, ps, dirty, i, slots, copied, uploads);
      var p := newParts[i];
      var copy := p.number !in dirty && p.number <= origPartCount;
      var slot, read := PlanPart(source, size, ps, i, p, copy, origPartCount);
      slots := slots + [slot];
      if copy {
        copied := copied + [p.number];
      } else {
        uploads := uploads + [UploadPart(p.number, p.size, read)];
      }
    }
  }

  /** One part of the loop: the copied bytes, or the range the client must read back. */
  method PlanPart(source: Bytes, size: nat, ps: nat, i: nat, p: Part, copy: bool, origPartCount: nat)
      returns (slot: Option<Bytes>, read: Option<ByteRange>)
    requires ps > 0 && i < Count(size, ps) && p == Part(i + 1, SizeAt(size, ps, i))
             && origPartCount == Count(|source|, ps)
    requires copy ==> i + 1 <= origPartCount
    ensures slot == if copy then Some(Clamped(source, size, ps, i)) else None
    ensures read == if i + 1 <= origPartCount then Some(SourceRange(|source|, size, ps, i)) else None
  {
    slot, read := None, None;
    if p.number <= origPartCount {
      var partStart := (p.number - 1) * ps;
      var partEnd := partStart + p.size - 1;
      if partEnd >= |source| {
        partEnd := |source| - 1;
      }
      read := Some(ByteRange(partStart, partEnd));
      if copy {
        RangeInSource(|source|, size, ps, i);
        slot := Some(source[partStart..partEnd + 1]);
      }
    }
  }

  // ---------------------------------------------------------------- what the confirm step accepts

  /** ListParts: the stored parts in number order. */
  function Listed(slots: Slots): seq<Bytes> {
    if slots == [] then [] else (if slots[0].Some? then [slots[0].value] else []) + Listed(slots[1..])
  }

  /** The count and size checks of ConfirmUpload, by position in the listing. */
  predicate Confirmed(listed: seq<Bytes>, size: nat, ps: nat)
    requires ps > 0
  {
    |listed| == Count(size, ps) && forall i :: 0 <= i < |listed| ==> |listed[i]| == SizeAt(size, ps, i)
  }

  predicate FullyStored(slots: Slots, size: nat, ps: nat) {
    forall i :: 0 <= i < |slots| ==> slots[i].Some? && |slots[i].value| == SizeAt(size, ps, i)
  }

  lemma {:induction false} ListedAll(slots: Slots)
    ensures |Listed(slots)| <= |slots|
    ensures |Listed(slots)| == |slots| <==> forall i :: 0 <= i < |slots| ==> slots[i].Some?
    ensures |Listed(slots)| == |slots| ==> forall i :: 0 <= i < |slots| ==> Some(Listed(slots)[i]) == slots[i]
  {
    if slots != [] {
      ListedAll(slots[1..]);
      assert forall i :: 0 < i < |slots| ==> slots[i] == slots[1..][i - 1];
      assert slots == [slots[0]] + slots[1..];
    }
  }

  /** Counting and comparing by position accepts exactly the uploads that hold every part at its size. */
  lemma ConfirmExact(slots: Slots, size: nat, ps: nat)
    requires ps > 0 && |slots| == Count(size, ps)
    ensures Confirmed(Listed(slots), size, ps) <==> FullyStored(slots, size, ps)
  {
    ListedAll(slots);
    var listed := Listed(slots);
    if |listed| == |slots| {
      assert forall i :: 0 <= i < |slots| ==> slots[i] == Some(listed[i]);
    }
  }

  method ConfirmSizes(listed: seq<Bytes>, partsTotal: nat, size: nat, ps: nat) returns (ok: bool)
    requires ps > 0 && partsTotal == Count(size, ps)
    ensures ok <==> Confirmed(listed, size, ps)
  {
    if |listed| != partsTotal {
      return false;
    }
    var expected := CalcParts(size, ps);
    for i := 0 to |listed|
      invariant forall k :: 0 <= k < i ==> |listed[k]| == SizeAt(size, ps, k)
    {
      PartsAt(size, ps, 0, i);
      if |listed[i]| != expected[i].size {
        return false;
      }
    }
    return true;
  }

  // ---------------------------------------------------------------- the assembled object

  /** CompleteMultipartUpload: the stored parts one after another, from slot i on. */
  function Assembled(slots: Slots, i: nat): Bytes
    requires i <= |slots|
    decreases |slots| - i
  {
    if i == |slots| then [] else (if slots[i].Some? then slots[i].value else []) + Assembled(slots, i + 1)
  }

  lemma SkipMore(x: Bytes, a: nat, b: nat, head: Bytes, tail: Bytes)
    requires a <= b <= |x| && x[a..] == head + tail && b - a == |head|
    ensures x[b..] == tail && x[a..b] == head
  {
  }

  lemma {:induction false} AssembledLength(slots: Slots, size: nat, ps: nat, i: nat)
    requires ps > 0 && i <= |slots| == Count(size, ps) && FullyStored(slots, size, ps)
    ensures |Assembled(slots, i)| == size - Cut(size, ps, i)
    decreases |slots| - i
  {
    CountExact(size, ps);
    if i < |slots| {
      AssembledLength(slots, size, ps, i + 1);
      var part, rest := slots[i].value, Assembled(slots, i + 1);
      assert |part| == SizeAt(size, ps, i);
      assert |part + rest| == |part| + |rest|;
      assert Assembled(slots, i) == part + rest;
    }
  }

  /** Dropping the bytes up to a boundary drops the parts before it. */
  lemma {:induction false} AssembledDrop(slots: Slots, size: nat, ps: nat, k: nat)
    requires ps > 0 && k <= |slots| == Count(size, ps) && FullyStored(slots, size, ps)
    ensures |Assembled(slots, 0)| == size && Cut(size, ps, k) <= size
    ensures Assembled(slots, 0)[Cut(size, ps, k)..] == Assembled(slots, k)
  {
    AssembledLength(slots, size, ps, 0);
    if k == 0 {
      assert Cut(size, ps, 0) == 0;
    } else {
      AssembledDrop(slots, size, ps, k - 1);
      CutsTile(size, ps, k - 1);
      SkipMore(Assembled(slots, 0), Cut(size, ps, k - 1), Cut(size, ps, k), slots[k - 1].value, Assembled(slots, k));
    }
  }

  /** Each confirmed part ends up at its own offset. */
  lemma AssembledAt(slots: Slots, size: nat, ps: nat, k: nat)
    requires ps > 0 && k < |slots| == Count(size, ps) && FullyStored(slots, size, ps)
    ensures |Assembled(slots, 0)| == size && Cut(size, ps, k) <= Cut(size, ps, k + 1) <= size
    ensures Assembled(slots, 0)[Cut(size, ps, k)..Cut(size, ps, k + 1)] == slots[k].value
  {
    AssembledDrop(slots, size, ps, k);
    CutsTile(size, ps, k);
    SkipMore(Assembled(slots, 0), Cut(size, ps, k), Cut(size, ps, k + 1), slots[k].value, Assembled(slots, k + 1));
  }

  /** The slot holds the slice of x at its place. */
  predicate SliceOk(slots: Slots, x: Bytes, ps: nat, k: nat)
    requires k < |slots|
  {
    Cut(|x|, ps, k) <= Cut(|x|, ps, k + 1) && slots[k] == Some(x[Cut(|x|, ps, k)..Cut(|x|, ps, k + 1)])
  }

  lemma {:induction false} SlicesAssemble(slots: Slots, x: Bytes, ps: nat, i: nat)
    requires ps > 0 && i <= |slots| == Count(|x|, ps)
    requires forall k :: i <= k < |slots| ==> SliceOk(slots, x, ps, k)
    ensures Assembled(slots, i) == x[Cut(|x|, ps, i)..]
    decreases |slots| - i
  {
    if i == |slots| {
      CountExact(|x|, ps);
    } else {
      SlicesAssemble(slots, x, ps, i + 1);
      assert SliceOk(slots, x, ps, i);
      var a, b := Cut(|x|, ps, i), Cut(|x|, ps, i + 1);
      assert x[a..] == x[a..b] + x[b..];
    }
  }

  // ---------------------------------------------------------------- patch

  /** What S3 holds at confirm: the server's copies, and for the rest what the client put there. */
  predicate PatchStored(slots: Slots, source: Bytes, size: nat, ps: nat, dirty: set<nat>)
    requires ps > 0
  {
    |slots| == Count(size, ps) &&
    forall i :: 0 <= i < |slots| && IsCopied(|source|, ps, dirty, i) ==> slots[i] == Some(Clamped(source, size, ps, i))
  }

  /**
   * A patch that passes confirm: the object has the announced size, and each of its parts is
   * what the client put there or exactly the source's bytes at the same offset.
   */
  lemma ConfirmedPatchIsFaithful(slots: Slots, source: Bytes, size: nat, ps: nat, dirty: set<nat>, i: nat)
    requires ps > 0 && PatchStored(slots, source, size, ps, dirty)
    requires Confirmed(Listed(slots), size, ps)
    requires i < |slots|
    ensures |Assembled(slots, 0)| == size && 0 <= Cut(size, ps, i) < Cut(size, ps, i + 1) <= size
    ensures IsCopied(|source|, ps, dirty, i) ==>
              && Cut(size, ps, i + 1) <= |source|
              && Assembled(slots, 0)[Cut(size, ps, i)..Cut(size, ps, i + 1)] ==
                 source[Cut(size, ps, i)..Cut(size, ps, i + 1)]
    ensures !IsCopied(|source|, ps, dirty, i) ==>
              slots[i] == Some(Assembled(slots, 0)[Cut(size, ps, i)..Cut(size, ps, i + 1)])
  {
    ConfirmExact(slots, size, ps);
    AssembledAt(slots, size, ps, i);
    CutsTile(size, ps, i);
    if IsCopied(|source|, ps, dirty, i) {
      ClampedExact(source, size, ps, i);
    }
  }

  /** Some copied part would run past the end of the source. */
  predicate ShortCopy(orig: nat, size: nat, ps: nat, dirty: set<nat>)
    requires ps > 0
  {
    exists i :: 0 <= i < Count(size, ps) && IsCopied(orig, ps, dirty, i) && Cut(size, ps, i + 1) > orig
  }

  /** With every client part in place, confirm succeeds exactly when no copy was cut short. */
  lemma PatchConfirmsExact(slots: Slots, source: Bytes, size: nat, ps: nat, dirty: set<nat>)
    requires ps > 0 && PatchStored(slots, source, size, ps, dirty)
    requires forall i :: 0 <= i < |slots| && !IsCopied(|source|, ps, dirty, i) ==>
                           slots[i].Some? && |slots[i].value| == SizeAt(size, ps, i)
    ensures Confirmed(Listed(slots), size, ps) <==> !ShortCopy(|source|, size, ps, dirty)
  {
    ConfirmExact(slots, size, ps);
    forall i | 0 <= i < |slots| && IsCopied(|source|, ps, dirty, i)
      ensures slots[i].Some? && (|slots[i].value| == SizeAt(size, ps, i) <==> Cut(size, ps, i + 1) <= |source|)
    {
      ClampedExact(source, size, ps, i);
    }
    if ShortCopy(|source|, size, ps, dirty) {
      var i :| 0 <= i < Count(size, ps) && IsCopied(|source|, ps, dirty, i) && Cut(size, ps, i + 1) > |source|;
      assert |slots[i].value| != SizeAt(size, ps, i);
    }
  }

  /** That can only be the part with the source's last byte: left out of the dirty set while the file grows past it. */
  lemma ShortCopyExact(orig: nat, size: nat, ps: nat, dirty: set<nat>)
    requires ps > 0
    ensures ShortCopy(orig, size, ps, dirty) <==>
            var b := Count(orig, ps);
            1 <= b <= Count(size, ps) && b !in dirty && Cut(size, ps, b) > orig
  {
    var b := Count(orig, ps);
    if 1 <= b <= Count(size, ps) && b !in dirty && Cut(size, ps, b) > orig {
      assert IsCopied(orig, ps, dirty, b - 1);
    }
    forall i | 0 <= i < Count(size, ps) && IsCopied(orig, ps, dirty, i) && Cut(size, ps, i + 1) > orig
      ensures i + 1 == b
    {
      if i + 1 < b { CutAtMultiple(orig, ps, i + 1); }
    }
  }
}
