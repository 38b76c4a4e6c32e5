/** Multipart layout arithmetic (pkg/s3client/s3client.go): where parts begin and end. */
module PartLayout {

  const PART_SIZE := 8388608
  const MIN_PART_SIZE := 5242880
  const MAX_ADAPTIVE_PART_SIZE := 536870912
  const MAX_PART_SIZE := 5368709120
  const MAX_MULTIPART_PARTS := 10000
  const ALIGN := 1048576

  datatype Part = Part(number: nat, size: int)

  /** How many parts of `ps` bytes cover `total` bytes. */
  function Count(total: nat, ps: nat): nat
    requires ps > 0
  {
    (total + ps - 1) / ps
  }

  /** The offset of the i-th boundary: multiples of the part size, cut off at the end. */
  function Cut(total: nat, ps: nat, i: nat): nat {
    if i * ps <= total then i * ps else total
  }

  lemma MulSucc(i: nat, ps: nat)
    ensures (i + 1) * ps == i * ps + ps
  {
  }

  lemma MulMonotone(i: nat, j: nat, ps: nat)
    requires i <= j
    ensures i * ps <= j * ps
  {
  }

  /** The last part is the one that reaches the end, and it is not empty. */
  lemma CountExact(total: nat, ps: nat)
    requires ps > 0
    ensures total <= Count(total, ps) * ps
    ensures Count(total, ps) > 0 <==> total > 0
    ensures total > 0 ==> (Count(total, ps) - 1) * ps < total
  {
  }

  lemma CountUnique(total: nat, ps: nat, n: nat)
    requires ps > 0 && total <= n * ps && (n > 0 ==> (n - 1) * ps < total)
    ensures Count(total, ps) == n
  {
    var c := Count(total, ps);
    CountExact(total, ps);
    if c < n {
      MulMonotone(c, n - 1, ps);
    } else if n < c {
      MulMonotone(n, c - 1, ps);
    }
  }

  /** Boundaries grow strictly from 0 up to the total: parts are non-empty and tile the object. */
  lemma CutsTile(total: nat, ps: nat, i: nat)
    requires ps > 0 && i < Count(total, ps)
    ensures Cut(total, ps, 0) == 0 && Cut(total, ps, Count(total, ps)) == total
    ensures Cut(total, ps, i) < Cut(total, ps, i + 1) <= total
    ensures Cut(total, ps, i + 1) - Cut(total, ps, i) <= ps
    ensures i + 1 < Count(total, ps) ==> Cut(total, ps, i + 1) == Cut(total, ps, i) + ps
  {
    var n := Count(total, ps);
    CutAtMultiple(total, ps, i);
    CountExact(total, ps);
    if i + 1 < n {
      CutAtMultiple(total, ps, i + 1);
      MulSucc(i, ps);
    }
  }

  /** Below the last boundary, a boundary is an exact multiple. */
  lemma CutAtMultiple(total: nat, ps: nat, i: nat)
    requires ps > 0 && i < Count(total, ps)
    ensures Cut(total, ps, i) == i * ps < total
  {
    CountExact(total, ps);
    MulMonotone(i, Count(total, ps) - 1, ps);
  }

  function PartsFrom(total: nat, ps: nat, i: nat): seq<Part>
    requires ps > 0 && i <= Count(total, ps)
    decreases Count(total, ps) - i
  {
    if i == Count(total, ps) then []
    else [Part(i + 1, Cut(total, ps, i + 1) - Cut(total, ps, i))] + PartsFrom(total, ps, i + 1)
  }

  lemma {:induction false} PartsAt(total: nat, ps: nat, i: nat, k: nat)
    requires ps > 0 && i <= k < Count(total, ps)
    ensures |PartsFrom(total, ps, i)| == Count(total, ps) - i
    ensures PartsFrom(total, ps, i)[k - i] == Part(k + 1, Cut(total, ps, k + 1) - Cut(total, ps, k))
    decreases Count(total, ps) - i
  {
    if i + 1 < Count(total, ps) {
      PartsAt(total, ps, i + 1, if i < k then k else i + 1);
    }
  }

  lemma PartsGrow(total: nat, ps: nat, i: nat, parts: seq<Part>, size: int)
    requires ps > 0 && i < Count(total, ps)
    requires parts + PartsFrom(total, ps, i) == PartsFrom(total, ps, 0)
    requires size == if i == Count(total, ps) - 1 then total - i * ps else ps
    ensures (parts + [Part(i + 1, size)]) + PartsFrom(total, ps, i + 1) == PartsFrom(total, ps, 0)
  {
    CutsTile(total, ps, i);
    CutAtMultiple(total, ps, i);
    var x, rest := Part(i + 1, size), PartsFrom(total, ps, i + 1);
    assert (parts + [x]) + rest == parts + ([x] + rest);
  }

  method CalcPartsOf(total: nat, ps: nat) returns (parts: seq<Part>)
    requires ps > 0
    ensures parts == PartsFrom(total, ps, 0) && |parts| == Count(total, ps)
  {
    var n := (total + ps - 1) / ps;
    parts := [];
    for i := 0 to n
      invariant |parts| == i
      invariant parts + PartsFrom(total, ps, i) == PartsFrom(total, ps, 0)
    {
      var size: int := ps;
      if i == n - 1 {
        size := total - i * ps;
      }
      PartsGrow(total, ps, i, parts, size);
      parts := parts + [Part(i + 1, size)];
    }
  }

  /** CalcParts, with its fallback for a non-positive part size. */
  method CalcParts(total: nat, partSize: int) returns (parts: seq<Part>)
    ensures var ps: nat := if partSize <= 0 then PART_SIZE else partSize;
            parts == PartsFrom(total, ps, 0) && |parts| == Count(total, ps)
  {
    if partSize <= 0 {
      parts := CalcPartsOf(total, PART_SIZE);
    } else {
      parts := CalcPartsOf(total, partSize);
    }
  }

  function AdaptivePartSize(total: nat): nat {
    var ps := (total + 9999) / 10000;
    var aligned := (ps + ALIGN - 1) / ALIGN * ALIGN;
    if aligned < PART_SIZE then PART_SIZE
    else if aligned > MAX_ADAPTIVE_PART_SIZE then MAX_ADAPTIVE_PART_SIZE
    else aligned
  }

  /** The parts of a total are at most n exactly when n parts can hold it. */
  lemma CountWithin(total: nat, ps: nat, n: nat)
    requires ps > 0
    ensures Count(total, ps) <= n <==> total <= n * ps
  {
    CountExact(total, ps);
    if Count(total, ps) <= n {
      MulMonotone(Count(total, ps), n, ps);
    } else {
      MulMonotone(n, Count(total, ps) - 1, ps);
    }
  }

  /** The adaptive size is a legal part size, and keeps to the part limit exactly when that is possible at 512 MiB. */
  lemma AdaptiveFits(total: nat)
    ensures PART_SIZE <= AdaptivePartSize(total) <= MAX_ADAPTIVE_PART_SIZE
    ensures Count(total, AdaptivePartSize(total)) <= MAX_MULTIPART_PARTS <==>
            total <= MAX_MULTIPART_PARTS * MAX_ADAPTIVE_PART_SIZE
  {
    var ps, a := (total + 9999) / 10000, AdaptivePartSize(total);
    assert ps <= (ps + ALIGN - 1) / ALIGN * ALIGN;
    assert total <= 10000 * ps;
    CountWithin(total, a, MAX_MULTIPART_PARTS);
  }

  /** Of the part sizes in whole MiB from 8 MiB up that keep a file to 10000 parts, it is the smallest. */
  lemma AdaptiveIsSmallest(total: nat, ps: nat)
    ensures AdaptivePartSize(total) % ALIGN == 0
    ensures total <= MAX_MULTIPART_PARTS * MAX_ADAPTIVE_PART_SIZE && ps >= PART_SIZE && ps % ALIGN == 0
            && Count(total, ps) <= MAX_MULTIPART_PARTS ==>
              AdaptivePartSize(total) <= ps
  {
    if ps > 0 {
      CountWithin(total, ps, MAX_MULTIPART_PARTS);
    }
  }
}
