/** The host side of GPU bit-parallel (BPM) candidate filtering
    (tools/gem3-mapper/resources/gem-cutter/src/gpu_bpm_primitives_filter.c):
    candidates are binned by the size of their query, laid out bucket by
    bucket in warp-sized groups padded by replication, and the results the
    device returns in that layout are scattered back into candidate order.

    The warp size, the number of buckets and the pattern length one thread
    handles are compile-time constants defined outside this file; they are
    parameters here. */
module BpmBinning {

  /** `GPU_UINT32_ONES`, the mark of a slot no candidate has been placed in. */
  const Ones: int := 0xFFFF_FFFF

  const Two32: int := 0x1_0000_0000

  type U32 = x: int | 0 <= x < 0x1_0000_0000

  /** `GPU_WARP_SIZE`, `GPU_BPM_FILTER_NUM_BUCKETS_FOR_BINNING`,
      `GPU_BPM_FILTER_PEQ_LENGTH_PER_CUDA_THREAD`. */
  datatype Config = Config(warpSize: nat, numBuckets: nat, peqPerThread: nat)

  /** The constants the host code relies on: every non-overflow bucket `b`
      fits at least one query in a warp (`warpSize / (b + 1) > 0`). */
  predicate Valid(cfg: Config)
  {
    cfg.warpSize > 0 && cfg.peqPerThread > 0 && 1 <= cfg.numBuckets && cfg.numBuckets - 1 <= cfg.warpSize
  }

  /** The query size of each candidate, in candidate order; a buffer holds
      fewer than 2^32 candidates. */
  predicate Candidates(sizes: seq<U32>)
  {
    |sizes| < Two32
  }

  /** `(size - 1) / PEQ_LENGTH_PER_CUDA_THREAD` in 32-bit arithmetic: a zero
      size wraps to the largest bucket number. */
  function RawBucket(cfg: Config, size: U32): nat
    requires Valid(cfg)
  {
    ((size - 1) % Two32) / cfg.peqPerThread
  }

  /** The bucket a candidate is counted in: the raw bucket, clamped to the overflow bucket. */
  function Bucket(cfg: Config, size: U32): (b: nat)
    requires Valid(cfg)
    ensures b < cfg.numBuckets
  {
    if RawBucket(cfg, size) < cfg.numBuckets - 1 then RawBucket(cfg, size) else cfg.numBuckets - 1
  }

  /** A candidate the layout places: one outside the overflow bucket. */
  predicate Binned(cfg: Config, size: U32)
    requires Valid(cfg)
  {
    RawBucket(cfg, size) < cfg.numBuckets - 1
  }

  /** The number of the first `n` candidates counted in bucket `b`. */
  function CountIn(cfg: Config, sizes: seq<U32>, n: nat, b: nat): (k: nat)
    requires Valid(cfg) && n <= |sizes|
    ensures k <= n
  {
    if n == 0 then 0 else CountIn(cfg, sizes, n - 1, b) + (if Bucket(cfg, sizes[n - 1]) == b then 1 else 0)
  }

  /** The reference per-bucket counts. */
  function Counts(cfg: Config, sizes: seq<U32>): (counts: seq<nat>)
    requires Valid(cfg)
    ensures |counts| == cfg.numBuckets
  {
    seq(cfg.numBuckets, b requires 0 <= b < cfg.numBuckets => CountIn(cfg, sizes, |sizes|, b))
  }

  /** Integer division, by repeated subtraction (lemma `QuotIsDivision`). */
  function Quot(a: nat, d: nat): nat
    requires d > 0
    decreases a
  {
    if a < d then 0 else 1 + Quot(a - d, d)
  }

  /** Multiplication, by repeated addition (lemma `TimesIsProduct`). */
  function Times(k: nat, d: nat): nat
  {
    if k == 0 then 0 else Times(k - 1, d) + d
  }

  /** `GPU_DIV_CEIL`: the quotient rounded up. */
  function DivCeil(a: nat, d: nat): nat
    requires d > 0
  {
    Quot(a + d - 1, d)
  }

  /** Queries of bucket `b` one warp handles: `b + 1` threads per query. */
  function PerWarp(cfg: Config, b: nat): (q: nat)
    requires Valid(cfg) && b < cfg.numBuckets - 1
    ensures q > 0
  {
    Quot(cfg.warpSize, b + 1)
  }

  function Warps(cfg: Config, counts: seq<nat>, b: nat): nat
    requires Valid(cfg) && |counts| == cfg.numBuckets && b < cfg.numBuckets - 1
  {
    DivCeil(counts[b], PerWarp(cfg, b))
  }

  /** The slots of bucket `b`: whole warps of queries. */
  function Slots(cfg: Config, counts: seq<nat>, b: nat): nat
    requires Valid(cfg) && |counts| == cfg.numBuckets && b < cfg.numBuckets - 1
  {
    Times(Warps(cfg, counts, b), PerWarp(cfg, b))
  }

  /** The first slot of bucket `b`: the slots of the buckets before it. */
  function PosPrefix(cfg: Config, counts: seq<nat>, b: nat): nat
    requires Valid(cfg) && |counts| == cfg.numBuckets && b <= cfg.numBuckets - 1
  {
    if b == 0 then 0 else PosPrefix(cfg, counts, b - 1) + Slots(cfg, counts, b - 1)
  }

  /** The first warp of bucket `b`: the warps of the buckets before it. */
  function WarpPrefix(cfg: Config, counts: seq<nat>, b: nat): nat
    requires Valid(cfg) && |counts| == cfg.numBuckets && b <= cfg.numBuckets - 1
  {
    if b == 0 then 0 else WarpPrefix(cfg, counts, b - 1) + Warps(cfg, counts, b - 1)
  }

  /** The slot of a binned candidate: its bucket's first slot plus the number
      of earlier candidates of the same bucket. */
  function Slot(cfg: Config, sizes: seq<U32>, c: nat): nat
    requires Valid(cfg) && c < |sizes| && Binned(cfg, sizes[c])
  {
    PosPrefix(cfg, Counts(cfg, sizes), Bucket(cfg, sizes[c])) + CountIn(cfg, sizes, c, Bucket(cfg, sizes[c]))
  }

  // ---------------------------------------------------------------------------
  // Arithmetic facts about the layout
  // ---------------------------------------------------------------------------

  lemma {:induction false} QuotIsDivision(a: nat, d: nat)
    requires d > 0
    ensures Quot(a, d) == a / d
    decreases a
  {
    QuotBounds(a, d);
    TimesIsProduct(Quot(a, d), d);
    var q := Quot(a, d);
    MultipleWithinDivisor(d, q - a / d, a % d - (a - q * d));
  }

  /** The only multiple of `d` strictly between `-d` and `d` is zero. */
  lemma MultipleWithinDivisor(d: int, x: int, y: int)
    requires d > 0 && d * x == y && -d < y < d
    ensures x == 0
  {
    MultipleSign(d, x);
  }

  lemma MultipleSign(d: int, x: int)
    requires d > 0
    ensures x >= 1 ==> d * x >= d
    ensures x <= -1 ==> d * x <= -d
  {
    if x >= 1 {
      assert d * x == d + d * (x - 1);
    } else if x <= -1 {
      assert d * x == -d + d * (x + 1);
    }
  }

  lemma {:induction false} TimesIsProduct(k: nat, d: nat)
    ensures Times(k, d) == k * d
  {
    if k > 0 {
      TimesIsProduct(k - 1, d);
    }
  }

  /** The quotient's multiple lies within one divisor below the dividend. */
  lemma {:induction false} QuotBounds(a: nat, d: nat)
    requires d > 0
    ensures Times(Quot(a, d), d) <= a < Times(Quot(a, d), d) + d
    decreases a
  {
    if a >= d {
      QuotBounds(a - d, d);
    }
  }

  /** Whole warps hold every query, and fewer than one warp of padding. */
  lemma DivCeilBounds(a: nat, d: nat)
    requires d > 0
    ensures a <= Times(DivCeil(a, d), d) < a + d
    ensures DivCeil(a, d) > 0 <==> a > 0
  {
    QuotBounds(a + d - 1, d);
  }

  lemma {:induction false} PosPrefixMonotone(cfg: Config, counts: seq<nat>, b1: nat, b2: nat)
    requires Valid(cfg) && |counts| == cfg.numBuckets && b1 <= b2 <= cfg.numBuckets - 1
    ensures PosPrefix(cfg, counts, b1) <= PosPrefix(cfg, counts, b2)
    decreases b2
  {
    if b1 < b2 {
      PosPrefixMonotone(cfg, counts, b1, b2 - 1);
    }
  }

  /** The slots of bucket `b` hold its count. */
  lemma BucketFits(cfg: Config, counts: seq<nat>, b: nat)
    requires Valid(cfg) && |counts| == cfg.numBuckets && b < cfg.numBuckets - 1
    ensures PosPrefix(cfg, counts, b) + counts[b] <= PosPrefix(cfg, counts, b + 1)
    ensures PosPrefix(cfg, counts, b + 1) - PosPrefix(cfg, counts, b) - counts[b] < PerWarp(cfg, b)
    ensures Slots(cfg, counts, b) > 0 <==> counts[b] > 0
  {
    DivCeilBounds(counts[b], PerWarp(cfg, b));
  }

  /** A later candidate of the same bucket is counted after this one. */
  lemma {:induction false} CountInMonotone(cfg: Config, sizes: seq<U32>, c1: nat, c2: nat, b: nat)
    requires Valid(cfg) && c1 <= c2 <= |sizes|
    ensures CountIn(cfg, sizes, c1, b) <= CountIn(cfg, sizes, c2, b)
    ensures c1 < c2 && Bucket(cfg, sizes[c1]) == b ==> CountIn(cfg, sizes, c1, b) < CountIn(cfg, sizes, c2, b)
    decreases c2
  {
    if c1 < c2 {
      CountInMonotone(cfg, sizes, c1, c2 - 1, b);
    }
  }

  /** A binned candidate's slot lies in its bucket's range, below the total. */
  lemma SlotBounds(cfg: Config, sizes: seq<U32>, c: nat)
    requires Valid(cfg) && c < |sizes| && Binned(cfg, sizes[c])
    ensures var counts := Counts(cfg, sizes);
            var b := Bucket(cfg, sizes[c]);
            && PosPrefix(cfg, counts, b) <= Slot(cfg, sizes, c) < PosPrefix(cfg, counts, b) + counts[b]
            && Slot(cfg, sizes, c) < PosPrefix(cfg, counts, b + 1) <= PosPrefix(cfg, counts, cfg.numBuckets - 1)
  {
    var counts := Counts(cfg, sizes);
    var b := Bucket(cfg, sizes[c]);
    CountInMonotone(cfg, sizes, c, |sizes|, b);
    BucketFits(cfg, counts, b);
    PosPrefixMonotone(cfg, counts, b + 1, cfg.numBuckets - 1);
  }

  /** Distinct binned candidates get distinct slots; within a bucket, an
      earlier candidate gets an earlier slot. */
  lemma SlotInjective(cfg: Config, sizes: seq<U32>, c1: nat, c2: nat)
    requires Valid(cfg) && c1 < c2 < |sizes| && Binned(cfg, sizes[c1]) && Binned(cfg, sizes[c2])
    ensures Slot(cfg, sizes, c1) != Slot(cfg, sizes, c2)
    ensures Bucket(cfg, sizes[c1]) == Bucket(cfg, sizes[c2]) ==> Slot(cfg, sizes, c1) < Slot(cfg, sizes, c2)
  {
    var counts := Counts(cfg, sizes);
    var b1, b2 := Bucket(cfg, sizes[c1]), Bucket(cfg, sizes[c2]);
    SlotBounds(cfg, sizes, c1);
    SlotBounds(cfg, sizes, c2);
    if b1 == b2 {
      CountInMonotone(cfg, sizes, c1, c2, b1);
    } else if b1 < b2 {
      PosPrefixMonotone(cfg, counts, b1 + 1, b2);
    } else {
      PosPrefixMonotone(cfg, counts, b2 + 1, b1);
    }
  }

  /** A bucket with a candidate has a first candidate, counted at rank zero. */
  lemma {:induction false} FirstOfBucket(cfg: Config, sizes: seq<U32>, n: nat, b: nat) returns (c: nat)
    requires Valid(cfg) && n <= |sizes| && CountIn(cfg, sizes, n, b) > 0
    ensures c < n && Bucket(cfg, sizes[c]) == b && CountIn(cfg, sizes, c, b) == 0
    decreases n
  {
    if CountIn(cfg, sizes, n - 1, b) > 0 {
      c := FirstOfBucket(cfg, sizes, n - 1, b);
    } else {
      c := n - 1;
    }
  }

  /** With any slot at all, some non-empty bucket starts at slot zero. */
  lemma {:induction false} FirstNonEmptyBucket(cfg: Config, counts: seq<nat>, k: nat) returns (b: nat)
    requires Valid(cfg) && |counts| == cfg.numBuckets && k <= cfg.numBuckets - 1 && PosPrefix(cfg, counts, k) > 0
    ensures b < k && counts[b] > 0 && PosPrefix(cfg, counts, b) == 0
    decreases k
  {
    BucketFits(cfg, counts, k - 1);
    if PosPrefix(cfg, counts, k - 1) > 0 {
      b := FirstNonEmptyBucket(cfg, counts, k - 1);
    } else {
      b := k - 1;
    }
  }

  /** The slot-zero candidate: with any slot laid out, some binned candidate owns slot zero. */
  lemma SlotZeroOwned(cfg: Config, sizes: seq<U32>) returns (c: nat)
    requires Valid(cfg) && PosPrefix(cfg, Counts(cfg, sizes), cfg.numBuckets - 1) > 0
    ensures c < |sizes| && Binned(cfg, sizes[c]) && Slot(cfg, sizes, c) == 0
  {
    var counts := Counts(cfg, sizes);
    var b := FirstNonEmptyBucket(cfg, counts, cfg.numBuckets - 1);
    c := FirstOfBucket(cfg, sizes, |sizes|, b);
  }

  /** The sum of the counts of the buckets below `k`. */
  function SumCounts(cfg: Config, sizes: seq<U32>, n: nat, k: nat): nat
    requires Valid(cfg) && n <= |sizes|
  {
    if k == 0 then 0 else SumCounts(cfg, sizes, n, k - 1) + CountIn(cfg, sizes, n, k - 1)
  }

  lemma {:induction false} SumCountsStep(cfg: Config, sizes: seq<U32>, n: nat, k: nat)
    requires Valid(cfg) && n < |sizes|
    ensures SumCounts(cfg, sizes, n + 1, k) == SumCounts(cfg, sizes, n, k) + (if Bucket(cfg, sizes[n]) < k then 1 else 0)
  {
    if k > 0 {
      SumCountsStep(cfg, sizes, n, k - 1);
    }
  }

  lemma {:induction false} NothingCounted(cfg: Config, sizes: seq<U32>, k: nat)
    requires Valid(cfg)
    ensures SumCounts(cfg, sizes, 0, k) == 0
  {
    if k > 0 {
      NothingCounted(cfg, sizes, k - 1);
    }
  }

  /** Every candidate is counted in exactly one bucket: the counts sum to the number of candidates. */
  lemma {:induction false} CountsSumToCandidates(cfg: Config, sizes: seq<U32>, n: nat)
    requires Valid(cfg) && n <= |sizes|
    ensures SumCounts(cfg, sizes, n, cfg.numBuckets) == n
  {
    if n == 0 {
      NothingCounted(cfg, sizes, cfg.numBuckets);
    } else {
      CountsSumToCandidates(cfg, sizes, n - 1);
      SumCountsStep(cfg, sizes, n - 1, cfg.numBuckets);
      assert Bucket(cfg, sizes[n - 1]) < cfg.numBuckets;
    }
  }

  // ---------------------------------------------------------------------------
  // gpu_bpm_filter_reorder_process, step by step
  // ---------------------------------------------------------------------------

  /** Fill the buckets with the number of candidates of each. */
  method CountBuckets(cfg: Config, sizes: seq<U32>) returns (counts: seq<nat>)
    requires Valid(cfg)
    ensures counts == Counts(cfg, sizes)
    ensures SumCounts(cfg, sizes, |sizes|, cfg.numBuckets) == |sizes|
  {
    counts := seq(cfg.numBuckets, _ => 0);
    var c := 0;
    while c < |sizes|
      invariant 0 <= c <= |sizes| && |counts| == cfg.numBuckets
      invariant forall b :: 0 <= b < cfg.numBuckets ==> counts[b] == CountIn(cfg, sizes, c, b)
    {
      var b := RawBucket(cfg, sizes[c]);
      b := if b < cfg.numBuckets - 1 then b else cfg.numBuckets - 1;
      counts := counts[b := counts[b] + 1];
      c := c + 1;
    }
    CountsSumToCandidates(cfg, sizes, |sizes|);
  }

  datatype Layout = Layout(initPos: seq<nat>, initWarp: seq<nat>, elements: nat, numWarps: nat)

  /** The warps of each non-overflow bucket and its first slot; the total of
      the slots. The arrays start zeroed, so the overflow bucket keeps 0. */
  method BucketWarps(cfg: Config, counts: seq<nat>) returns (warps: seq<nat>, initPos: seq<nat>, elements: nat)
    requires Valid(cfg) && |counts| == cfg.numBuckets
    ensures |warps| == cfg.numBuckets && |initPos| == cfg.numBuckets
    ensures forall b :: 0 <= b < cfg.numBuckets - 1 ==> warps[b] == Warps(cfg, counts, b) && initPos[b] == PosPrefix(cfg, counts, b)
    ensures warps[cfg.numBuckets - 1] == 0 && initPos[cfg.numBuckets - 1] == 0
    ensures elements == PosPrefix(cfg, counts, cfg.numBuckets - 1)
  {
    var last := cfg.numBuckets - 1;
    initPos, warps, elements := [], [], 0;
    var b := 0;
    while b != last
      invariant b <= last && LaidOutUpTo(cfg, counts, warps, initPos, elements, b)
    {
      var perWarp := PerWarp(cfg, b);
      var w := DivCeil(counts[b], perWarp);
      LayOutOne(cfg, counts, warps, initPos, elements, b);
      warps := warps + [w];
      initPos := initPos + [elements];
      elements := elements + Slots(cfg, counts, b);
      b := b + 1;
    }
    // the overflow bucket keeps the zero it was reset to
    warps := warps + [0];
    initPos := initPos + [0];
  }

  /** The warps and first slots of the buckets below `b`, and the slots they take. */
  predicate LaidOutUpTo(cfg: Config, counts: seq<nat>, warps: seq<nat>, initPos: seq<nat>, elements: nat, b: nat)
    requires Valid(cfg) && |counts| == cfg.numBuckets && b <= cfg.numBuckets - 1
  {
    && |warps| == b && |initPos| == b
    && elements == PosPrefix(cfg, counts, b)
    && forall k :: 0 <= k < b ==> initPos[k] == PosPrefix(cfg, counts, k) && warps[k] == Warps(cfg, counts, k)
  }

  lemma LayOutOne(cfg: Config, counts: seq<nat>, warps: seq<nat>, initPos: seq<nat>, elements: nat, b: nat)
    requires Valid(cfg) && |counts| == cfg.numBuckets && b < cfg.numBuckets - 1
    requires LaidOutUpTo(cfg, counts, warps, initPos, elements, b)
    ensures LaidOutUpTo(cfg, counts, warps + [Warps(cfg, counts, b)], initPos + [elements], elements + Slots(cfg, counts, b), b + 1)
  {
  }

  /** The first warp of each bucket, the overflow bucket included. */
  method FirstWarps(cfg: Config, counts: seq<nat>, warps: seq<nat>) returns (initWarp: seq<nat>)
    requires Valid(cfg) && |counts| == cfg.numBuckets && |warps| == cfg.numBuckets
    requires forall b :: 0 <= b < cfg.numBuckets - 1 ==> warps[b] == Warps(cfg, counts, b)
    ensures |initWarp| == cfg.numBuckets
    ensures forall b :: 0 <= b < cfg.numBuckets ==> initWarp[b] == WarpPrefix(cfg, counts, b)
  {
    var nb := cfg.numBuckets;
    initWarp := seq(nb, _ => 0);
    var b := 1;
    while b < nb
      invariant 1 <= b <= nb && |initWarp| == nb
      invariant forall k :: 0 <= k < b ==> initWarp[k] == WarpPrefix(cfg, counts, k)
    {
      initWarp := initWarp[b := initWarp[b - 1] + warps[b - 1]];
      b := b + 1;
    }
  }

  /** The warps of all non-overflow buckets. */
  method TotalWarps(cfg: Config, counts: seq<nat>, warps: seq<nat>) returns (numWarps: nat)
    requires Valid(cfg) && |counts| == cfg.numBuckets && |warps| == cfg.numBuckets
    requires forall b :: 0 <= b < cfg.numBuckets - 1 ==> warps[b] == Warps(cfg, counts, b)
    ensures numWarps == WarpPrefix(cfg, counts, cfg.numBuckets - 1)
  {
    numWarps := 0;
    var b := 0;
    while b < cfg.numBuckets - 1
      invariant 0 <= b <= cfg.numBuckets - 1
      invariant numWarps == WarpPrefix(cfg, counts, b)
    {
      numWarps := numWarps + warps[b];
      b := b + 1;
    }
  }

  /** The layout of the buckets: first slots, first warps and totals. */
  method LayOut(cfg: Config, counts: seq<nat>) returns (l: Layout)
    requires Valid(cfg) && |counts| == cfg.numBuckets
    ensures |l.initPos| == cfg.numBuckets && |l.initWarp| == cfg.numBuckets
    ensures forall b :: 0 <= b < cfg.numBuckets - 1 ==> l.initPos[b] == PosPrefix(cfg, counts, b)
    ensures l.initPos[cfg.numBuckets - 1] == 0
    ensures forall b :: 0 <= b < cfg.numBuckets ==> l.initWarp[b] == WarpPrefix(cfg, counts, b)
    ensures l.elements == PosPrefix(cfg, counts, cfg.numBuckets - 1)
    ensures l.numWarps == WarpPrefix(cfg, counts, cfg.numBuckets - 1)
  {
    var warps, initPos, elements := BucketWarps(cfg, counts);
    var initWarp := FirstWarps(cfg, counts, warps);
    var numWarps := TotalWarps(cfg, counts, warps);
    l := Layout(initPos, initWarp, elements, numWarps);
  }

  /** After the first `c` candidates: each binned one sits in its slot, and
      every occupied slot holds the binned candidate whose slot it is. */
  predicate PlacedUpTo(cfg: Config, sizes: seq<U32>, placed: seq<int>, c: nat)
    requires Valid(cfg) && c <= |sizes|
  {
    && (forall d :: 0 <= d < c && Binned(cfg, sizes[d]) ==>
          Slot(cfg, sizes, d) < |placed| && placed[Slot(cfg, sizes, d)] == d)
    && (forall i :: 0 <= i < |placed| && placed[i] != Ones ==>
          0 <= placed[i] < c && Binned(cfg, sizes[placed[i]]) && Slot(cfg, sizes, placed[i]) == i)
  }

  /** After the first `c` candidates, the next free slot of each non-overflow bucket. */
  predicate NextFree(cfg: Config, sizes: seq<U32>, next: seq<nat>, c: nat)
    requires Valid(cfg) && c <= |sizes|
  {
    && |next| == cfg.numBuckets
    && forall b :: 0 <= b < cfg.numBuckets - 1 ==>
         next[b] == PosPrefix(cfg, Counts(cfg, sizes), b) + CountIn(cfg, sizes, c, b)
  }

  /** Writing a binned candidate into its bucket's next free slot places it. */
  lemma PlaceOne(cfg: Config, sizes: seq<U32>, placed: seq<int>, c: nat, slot: nat)
    requires Valid(cfg) && c < |sizes| && Binned(cfg, sizes[c]) && slot == Slot(cfg, sizes, c)
    requires |placed| == PosPrefix(cfg, Counts(cfg, sizes), cfg.numBuckets - 1)
    requires PlacedUpTo(cfg, sizes, placed, c)
    ensures slot < |placed| && PlacedUpTo(cfg, sizes, placed[slot := c], c + 1)
  {
    SlotBounds(cfg, sizes, c);
    var after := placed[slot := c];
    forall d | 0 <= d <= c && Binned(cfg, sizes[d])
      ensures Slot(cfg, sizes, d) < |after| && after[Slot(cfg, sizes, d)] == d
    {
      if d < c {
        SlotInjective(cfg, sizes, d, c);
      }
    }
    forall i | 0 <= i < |after| && after[i] != Ones
      ensures 0 <= after[i] < c + 1 && Binned(cfg, sizes[after[i]]) && Slot(cfg, sizes, after[i]) == i
    {
      if i != slot {
        assert after[i] == placed[i];
      }
    }
  }

  /** The bucket of the candidate just written advances by one slot. */
  lemma AdvanceOne(cfg: Config, sizes: seq<U32>, next: seq<nat>, c: nat)
    requires Valid(cfg) && c < |sizes| && Binned(cfg, sizes[c]) && NextFree(cfg, sizes, next, c)
    ensures var b := RawBucket(cfg, sizes[c]);
            next[b] == Slot(cfg, sizes, c) && NextFree(cfg, sizes, next[b := next[b] + 1], c + 1)
  {
    var b := RawBucket(cfg, sizes[c]);
    var after := next[b := next[b] + 1];
    forall k | 0 <= k < cfg.numBuckets - 1
      ensures after[k] == PosPrefix(cfg, Counts(cfg, sizes), k) + CountIn(cfg, sizes, c + 1, k)
    {
    }
  }

  /** An overflow candidate changes nothing. */
  lemma SkipOne(cfg: Config, sizes: seq<U32>, placed: seq<int>, next: seq<nat>, c: nat)
    requires Valid(cfg) && c < |sizes| && !Binned(cfg, sizes[c])
    requires PlacedUpTo(cfg, sizes, placed, c) && NextFree(cfg, sizes, next, c)
    ensures PlacedUpTo(cfg, sizes, placed, c + 1) && NextFree(cfg, sizes, next, c + 1)
  {
    forall k | 0 <= k < cfg.numBuckets - 1 ensures CountIn(cfg, sizes, c + 1, k) == CountIn(cfg, sizes, c, k) {
    }
  }

  /** Mark every slot free, then write each binned candidate, in increasing
      candidate order, into the next free slot of its bucket. Overflow
      candidates are not placed. */
  method Place(cfg: Config, sizes: seq<U32>, initPos: seq<nat>, elements: nat) returns (placed: seq<int>)
    requires Valid(cfg) && Candidates(sizes)
    requires |initPos| == cfg.numBuckets
    requires forall b :: 0 <= b < cfg.numBuckets - 1 ==> initPos[b] == PosPrefix(cfg, Counts(cfg, sizes), b)
    requires elements == PosPrefix(cfg, Counts(cfg, sizes), cfg.numBuckets - 1)
    ensures |placed| == elements
    ensures PlacedUpTo(cfg, sizes, placed, |sizes|)
  {
    placed := seq(elements, _ => Ones);
    var next := initPos;
    var c := 0;
    assert PlacedUpTo(cfg, sizes, placed, 0);
    assert NextFree(cfg, sizes, next, 0);
    while c < |sizes|
      invariant 0 <= c <= |sizes| && |placed| == elements
      invariant NextFree(cfg, sizes, next, c)
      invariant PlacedUpTo(cfg, sizes, placed, c)
    {
      var b := RawBucket(cfg, sizes[c]);
      if b < cfg.numBuckets - 1 {
        AdvanceOne(cfg, sizes, next, c);
        PlaceOne(cfg, sizes, placed, c, next[b]);
        placed := placed[next[b] := c];
        next := next[b := next[b] + 1];
      } else {
        SkipOne(cfg, sizes, placed, next, c);
      }
      c := c + 1;
    }
  }

  /** The nearest slot at or before `i` that a candidate was placed in. */
  function Origin(placed: seq<int>, i: nat): (j: nat)
    requires i < |placed| && placed[0] != Ones
    ensures j <= i && placed[j] != Ones
    ensures forall k :: j < k <= i ==> placed[k] == Ones
  {
    if placed[i] != Ones then i else Origin(placed, i - 1)
  }

  /** Every slot left free copies the slot before it. Slot zero is never
      free: the first non-empty bucket starts there with its first candidate. */
  method Pad(placed: seq<int>) returns (padded: seq<int>)
    requires |placed| > 0 ==> placed[0] != Ones
    ensures |padded| == |placed|
    ensures forall i :: 0 < i < |placed| && placed[i] == Ones ==> padded[i] == padded[i - 1]
    ensures forall i :: 0 <= i < |placed| ==> padded[i] == placed[Origin(placed, i)]
  {
    padded := placed;
    var i := 0;
    while i < |placed|
      invariant 0 <= i <= |placed| && |padded| == |placed|
      invariant forall k :: i <= k < |placed| ==> padded[k] == placed[k]
      invariant forall k :: 0 <= k < i ==> padded[k] == placed[Origin(placed, k)]
    {
      if padded[i] == Ones {
        padded := padded[i := padded[i - 1]];
      }
      i := i + 1;
    }
  }

  /** The schedule the host hands to the device. */
  datatype Schedule = Schedule(initPos: seq<nat>, initWarp: seq<nat>, numWarps: nat, elements: nat,
                               reorder: seq<int>, numReordered: nat)

  /** A reorder buffer of `n` slots in which every binned candidate appears
      and every slot holds a binned candidate. */
  predicate BinnedLayout(cfg: Config, sizes: seq<U32>, reorder: seq<int>, n: nat)
    requires Valid(cfg)
  {
    && n == |reorder|
    && (forall c :: 0 <= c < |sizes| && Binned(cfg, sizes[c]) ==> exists i :: 0 <= i < n && reorder[i] == c)
    && (forall i :: 0 <= i < n ==> 0 <= reorder[i] < |sizes| && Binned(cfg, sizes[reorder[i]]))
  }

  /** `gpu_bpm_filter_reorder_process`. */
  method ReorderProcess(cfg: Config, sizes: seq<U32>) returns (s: Schedule)
    requires Valid(cfg) && Candidates(sizes)
    ensures var counts := Counts(cfg, sizes);
            && |s.initPos| == cfg.numBuckets && |s.initWarp| == cfg.numBuckets
            && (forall b :: 0 <= b < cfg.numBuckets - 1 ==> s.initPos[b] == PosPrefix(cfg, counts, b))
            && (forall b :: 0 <= b < cfg.numBuckets ==> s.initWarp[b] == WarpPrefix(cfg, counts, b))
            && s.elements == PosPrefix(cfg, counts, cfg.numBuckets - 1)
            && s.numWarps == WarpPrefix(cfg, counts, cfg.numBuckets - 1)
            && s.numReordered == s.elements
    ensures BinnedLayout(cfg, sizes, s.reorder, s.numReordered)
    ensures forall c :: 0 <= c < |sizes| && Binned(cfg, sizes[c]) ==>
              Slot(cfg, sizes, c) < |s.reorder| && s.reorder[Slot(cfg, sizes, c)] == c
  {
    var counts := CountBuckets(cfg, sizes);
    var l := LayOut(cfg, counts);
    var placed := Place(cfg, sizes, l.initPos, l.elements);
    if l.elements > 0 {
      var c0 := SlotZeroOwned(cfg, sizes);
    }
    var reorder := Pad(placed);
    forall c | 0 <= c < |sizes| && Binned(cfg, sizes[c])
      ensures reorder[Slot(cfg, sizes, c)] == c
      ensures exists i :: 0 <= i < l.elements && reorder[i] == c
    {
      var slot := Slot(cfg, sizes, c);
      assert slot < l.elements && placed[slot] == c && c != Ones;
      assert reorder[slot] == c;
    }
    forall i | 0 <= i < l.elements ensures 0 <= reorder[i] < |sizes| && Binned(cfg, sizes[reorder[i]]) {
      assert placed[Origin(placed, i)] != Ones;
    }
    s := Schedule(l.initPos, l.initWarp, l.numWarps, l.elements, reorder, l.elements);
  }

  /** The binning decision of `gpu_bpm_filter_send_buffer_`. */
  datatype SendConfig = SendConfig(binning: bool, binSize: U32)

  /** `GPU_ISPOW2` on a 32-bit word: no two bits set. */
  predicate IsPow2(x: bv32)
  {
    x & (x - 1) == 0
  }

  /** Queries of one power-of-two size class are processed without binning,
      with that size; any other bin size asks for binning, recorded as size 0. */
  function ChooseBinning(queryBinSize: bv32): (sc: SendConfig)
    ensures sc.binning <==> !IsPow2(queryBinSize)
    ensures sc.binning ==> sc.binSize == 0
    ensures !sc.binning ==> sc.binSize == queryBinSize as int
  {
    var binning := !IsPow2(queryBinSize);
    SendConfig(binning, if binning then 0 else queryBinSize as int)
  }

  /** The bit trick accepts exactly zero and the 32 powers of two. */
  lemma IsPow2Iff(x: bv32)
    ensures IsPow2(x) <==>
            || x == 0
            || x == 0x1 || x == 0x2 || x == 0x4 || x == 0x8 || x == 0x10 || x == 0x20 || x == 0x40 || x == 0x80
            || x == 0x100 || x == 0x200 || x == 0x400 || x == 0x800 || x == 0x1000 || x == 0x2000 || x == 0x4000 || x == 0x8000
            || x == 0x10000 || x == 0x20000 || x == 0x40000 || x == 0x80000 || x == 0x100000 || x == 0x200000 || x == 0x400000 || x == 0x800000
            || x == 0x1000000 || x == 0x2000000 || x == 0x4000000 || x == 0x8000000 || x == 0x10000000 || x == 0x20000000 || x == 0x40000000 || x == 0x80000000
  {
  }

  /** `gpu_bpm_filter_reordering_buffer`: reset the buckets, then either bin
      or, for a uniform bin size, give every bucket from `binSize` on the end
      of the candidates and of the warps. */
  method ReorderingBuffer(cfg: Config, sc: SendConfig, sizes: seq<U32>) returns (s: Schedule)
    requires Valid(cfg) && Candidates(sizes)
    ensures |s.initPos| == cfg.numBuckets && |s.initWarp| == cfg.numBuckets
    ensures sc.binning ==> && s.numReordered == s.elements
                           && s.elements == PosPrefix(cfg, Counts(cfg, sizes), cfg.numBuckets - 1)
                           && BinnedLayout(cfg, sizes, s.reorder, s.numReordered)
    ensures !sc.binning ==>
              && s.numWarps == DivCeil(sc.binSize * |sizes|, cfg.warpSize)
              && s.elements == 0 && s.numReordered == 0
              && (forall b :: 0 <= b < cfg.numBuckets ==> s.initPos[b] == (if b >= sc.binSize then |sizes| else 0))
              && (forall b :: 0 <= b < cfg.numBuckets ==> s.initWarp[b] == (if b >= sc.binSize then s.numWarps else 0))
  {
    if sc.binning {
      s := ReorderProcess(cfg, sizes);
    } else {
      var numWarps := DivCeil(sc.binSize * |sizes|, cfg.warpSize);
      var initPos: seq<nat> := seq(cfg.numBuckets, _ => 0);
      var initWarp: seq<nat> := seq(cfg.numBuckets, _ => 0);
      var b := sc.binSize;
      while b < cfg.numBuckets
        invariant |initPos| == cfg.numBuckets && |initWarp| == cfg.numBuckets
        invariant sc.binSize <= b
        invariant forall k :: 0 <= k < cfg.numBuckets ==>
                    initPos[k] == (if sc.binSize <= k < b then |sizes| else 0)
                    && initWarp[k] == (if sc.binSize <= k < b then numWarps else 0)
      {
        initPos := initPos[b := |sizes|];
        initWarp := initWarp[b := numWarps];
        b := b + 1;
      }
      s := Schedule(initPos, initWarp, numWarps, 0, [], 0);
    }
  }

  // ---------------------------------------------------------------------------
  // Scatter back
  // ---------------------------------------------------------------------------

  /** The last of the first `n` slots that holds candidate `j`. */
  function LastWriter(reorder: seq<int>, n: nat, j: int): (r: Option<nat>)
    requires n <= |reorder|
    ensures r.Some? ==> r.value < n && reorder[r.value] == j && forall i :: r.value < i < n ==> reorder[i] != j
    ensures r.None? ==> forall i :: 0 <= i < n ==> reorder[i] != j
  {
    if n == 0 then None
    else if reorder[n - 1] == j then Some(n - 1)
    else LastWriter(reorder, n - 1, j)
  }

  datatype Option<T> = None | Some(value: T)

  /** The reference result of the scatter: each candidate takes the result of
      the last slot holding it, and keeps its old alignment when no slot does. */
  function Scattered<A>(alignments: seq<A>, reorder: seq<int>, results: seq<A>, n: nat): (out: seq<A>)
    requires n <= |reorder| && n <= |results|
    ensures |out| == |alignments|
  {
    seq(|alignments|, j requires 0 <= j < |alignments| =>
      match LastWriter(reorder, n, j)
      case None => alignments[j]
      case Some(i) => results[i])
  }

  /** `gpu_bpm_filter_reordering_alignments`: with binning, write the result
      of every slot back to the candidate the slot holds; without, nothing. */
  method ScatterBack<A>(binning: bool, alignments: seq<A>, reorder: seq<int>, results: seq<A>, n: nat) returns (out: seq<A>)
    requires binning ==> n <= |reorder| && n <= |results| && forall i :: 0 <= i < n ==> 0 <= reorder[i] < |alignments|
    ensures !binning ==> out == alignments
    ensures binning ==> out == Scattered(alignments, reorder, results, n)
  {
    out := alignments;
    if binning {
      var i := 0;
      while i < n
        invariant 0 <= i <= n && |out| == |alignments|
        invariant out == Scattered(alignments, reorder, results, i)
      {
        out := out[reorder[i] := results[i]];
        i := i + 1;
      }
    }
  }

  /** Binning is transparent: when the device computes each slot's result
      from the candidate the slot holds, scattering back gives every binned
      candidate its own result, replicated padding included, and leaves the
      overflow candidates' alignments as they were. */
  lemma ScatterRoundTrip<A>(cfg: Config, sizes: seq<U32>, reorder: seq<int>, n: nat, alignments: seq<A>,
                            results: seq<A>, kernel: nat -> A)
    requires Valid(cfg) && BinnedLayout(cfg, sizes, reorder, n)
    requires |alignments| == |sizes| && n <= |results|
    requires forall i :: 0 <= i < n ==> results[i] == kernel(reorder[i])
    ensures forall c :: 0 <= c < |sizes| ==>
              Scattered(alignments, reorder, results, n)[c] == if Binned(cfg, sizes[c]) then kernel(c) else alignments[c]
  {
    forall c | 0 <= c < |sizes|
      ensures Scattered(alignments, reorder, results, n)[c] == if Binned(cfg, sizes[c]) then kernel(c) else alignments[c]
    {
      assert Binned(cfg, sizes[c]) <==> exists i :: 0 <= i < n && reorder[i] == c;
      var w := LastWriter(reorder, n, c);
      assert w.Some? <==> exists i :: 0 <= i < n && reorder[i] == c;
    }
  }

  // ---------------------------------------------------------------------------
  // Padding allowance
  // ---------------------------------------------------------------------------

  /** `warpSize / 1 + ... + warpSize / k`. */
  function PadSum(cfg: Config, k: nat): nat
    requires Valid(cfg)
  {
    if k == 0 then 0 else PadSum(cfg, k - 1) + Quot(cfg.warpSize, k)
  }

  /** `gpu_bpm_filter_candidates_for_binning_padding`: the dummy candidates
      the buffer reserves for padding. */
  method PaddingAllowance(cfg: Config) returns (pad: nat)
    requires Valid(cfg)
    ensures cfg.numBuckets >= 2 ==> pad == PadSum(cfg, cfg.numBuckets - 2)
    ensures cfg.numBuckets < 2 ==> pad == 0
  {
    pad := 0;
    var b := 1;
    while b < cfg.numBuckets - 1
      invariant 1 <= b && (cfg.numBuckets >= 2 ==> b <= cfg.numBuckets - 1) && (cfg.numBuckets < 2 ==> b == 1)
      invariant pad == PadSum(cfg, b - 1)
    {
      pad := pad + Quot(cfg.warpSize, b);
      b := b + 1;
    }
  }

  /** The padding of the first `k` buckets. */
  function Padding(cfg: Config, counts: seq<nat>, k: nat): nat
    requires Valid(cfg) && |counts| == cfg.numBuckets && k <= cfg.numBuckets - 1
  {
    if k == 0 then 0
    else
      BucketFits(cfg, counts, k - 1);
      Padding(cfg, counts, k - 1) + (Slots(cfg, counts, k - 1) - counts[k - 1])
  }

  lemma {:induction false} PaddingBound(cfg: Config, counts: seq<nat>, k: nat)
    requires Valid(cfg) && |counts| == cfg.numBuckets && k <= cfg.numBuckets - 1
    ensures PosPrefix(cfg, counts, k) == SumFirst(counts, k) + Padding(cfg, counts, k)
    ensures Padding(cfg, counts, k) + k <= PadSum(cfg, k)
  {
    if k > 0 {
      PaddingBound(cfg, counts, k - 1);
      BucketFits(cfg, counts, k - 1);
    }
  }

  function SumFirst(counts: seq<nat>, k: nat): nat
    requires k <= |counts|
  {
    if k == 0 then 0 else SumFirst(counts, k - 1) + counts[k - 1]
  }

  /** The reorder buffer never outgrows the candidates plus the padding
      allowance, provided the last non-overflow bucket's warp holds no more
      queries than there are non-overflow buckets (as with 32-thread warps
      and 32 buckets). */
  lemma ReorderBufferFits(cfg: Config, sizes: seq<U32>)
    requires Valid(cfg) && cfg.numBuckets >= 2
    requires Quot(cfg.warpSize, cfg.numBuckets - 1) <= cfg.numBuckets - 1
    ensures PosPrefix(cfg, Counts(cfg, sizes), cfg.numBuckets - 1) <= |sizes| + PadSum(cfg, cfg.numBuckets - 2)
  {
    var counts := Counts(cfg, sizes);
    var k := cfg.numBuckets - 1;
    PaddingBound(cfg, counts, k);
    SumFirstCounts(cfg, sizes, k);
    CountsSumToCandidates(cfg, sizes, |sizes|);
    SumCountsBelow(cfg, sizes, k);
  }

  lemma {:induction false} SumFirstCounts(cfg: Config, sizes: seq<U32>, k: nat)
    requires Valid(cfg) && k <= cfg.numBuckets
    ensures SumFirst(Counts(cfg, sizes), k) == SumCounts(cfg, sizes, |sizes|, k)
  {
    if k > 0 {
      SumFirstCounts(cfg, sizes, k - 1);
    }
  }

  lemma {:induction false} SumCountsBelow(cfg: Config, sizes: seq<U32>, k: nat)
    requires Valid(cfg) && k <= cfg.numBuckets
    ensures SumCounts(cfg, sizes, |sizes|, k) <= SumCounts(cfg, sizes, |sizes|, cfg.numBuckets)
    decreases cfg.numBuckets - k
  {
    if k < cfg.numBuckets {
      SumCountsBelow(cfg, sizes, k + 1);
    }
  }
}
