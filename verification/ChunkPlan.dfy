/**
 The byte-range layout of a segmented download (`chunk_plan` in src/download.rs) and
 the accounting over it.
 */
module ChunkPlan {
  import opened Basics
  import opened Arithmetic

  const MIN_SEGMENT_BYTES: nat := 0x10_0000
  const MAX_SEGMENT_CHUNKS: nat := 1024

  /** An inclusive byte range. */
  datatype Range = Range(start: int, end: int) {
    function Size(): int {
      end - start + 1
    }

    predicate Contains(at: int) {
      start <= at <= end
    }
  }

  /** The two layout options; `segments` wins, and a zero segment size counts as unset. */
  datatype Options = Options(segments: Option<nat>, segmentSize: Option<nat>)

  /** Rust's `clamp`, for lo <= hi. */
  function Clamp(x: int, lo: int, hi: int): int {
    if x < lo then lo else if x > hi then hi else x
  }

  function SaturatingAdd(a: nat, b: nat): nat {
    Min(a + b, U64_LIMIT - 1)
  }

  function SegmentCount(requested: nat, total: nat): int {
    Clamp(requested, 1, Clamp(Max(DivCeil(total, MIN_SEGMENT_BYTES), 1), 1, MAX_SEGMENT_CHUNKS))
  }

  function EqualSegment(total: nat, n: int, i: int): Range
    requires n >= 1
  {
    var seg := total / n;
    Range(i * seg, if i == n - 1 then total - 1 else (i + 1) * seg - 1)
  }

  /** The segment size after growing it so that at most 1024 chunks are needed. */
  function GrownSize(size: nat, total: nat): nat {
    Max(size, DivCeil(total, MAX_SEGMENT_CHUNKS))
  }

  function FixedSegment(total: nat, size: nat, i: nat): Range {
    Range(i * size, Min(SaturatingAdd(i * size, size), total) - 1)
  }

  function FixedCount(total: nat, size: nat): nat
    requires size > 0
  {
    Min(DivCeil(total, size), MAX_SEGMENT_CHUNKS)
  }

  /** None is the fall back to a single stream. */
  function Plan(opts: Options, total: nat): Option<seq<Range>> {
    if opts.segments.Some? then
      var n := SegmentCount(opts.segments.value, total);
      if n < 2 then None else Some(seq(n, i => EqualSegment(total, n, i)))
    else if opts.segmentSize.Some? && opts.segmentSize.value > 0 then
      var size := GrownSize(opts.segmentSize.value, total);
      Some(seq(FixedCount(total, size), i requires i >= 0 => FixedSegment(total, size, i)))
    else
      None
  }

  // ---- tiling -----------------------------------------------------------------

  /** Non-empty consecutive ranges covering exactly [0, total). */
  predicate Tiles(plan: seq<Range>, total: nat) {
    && (forall i :: 0 <= i < |plan| ==> 0 <= plan[i].start <= plan[i].end)
    && (forall i :: 0 < i < |plan| ==> plan[i].start == plan[i - 1].end + 1)
    && (if |plan| == 0 then total == 0 else plan[0].start == 0 && plan[|plan| - 1].end == total - 1)
  }

  lemma DivCeilBounds(a: nat, b: nat)
    requires b > 0
    ensures (DivCeil(a, b) - 1) * b < a <= DivCeil(a, b) * b || a == 0 == DivCeil(a, b)
  {
    assert a == (a / b) * b + a % b;
    assert (a / b - 1) * b == (a / b) * b - b;
    assert (a / b + 1) * b == (a / b) * b + b;
  }

  /** An equal split into n >= 2 parts of at least half the minimum segment size each. */
  lemma EqualSegmentsAreLarge(requested: nat, total: nat)
    requires SegmentCount(requested, total) >= 2
    ensures
      var n := SegmentCount(requested, total);
      n <= MAX_SEGMENT_CHUNKS && total / n >= MIN_SEGMENT_BYTES / 2 && n * (total / n) <= total
  {
    var n := SegmentCount(requested, total);
    var half := MIN_SEGMENT_BYTES / 2;
    DivCeilBounds(total, MIN_SEGMENT_BYTES);
    TimesMonotone(n - 1, DivCeil(total, MIN_SEGMENT_BYTES) - 1, MIN_SEGMENT_BYTES);
    assert total == n * (total / n) + total % n;
    assert n * half <= total;
    if total / n < half {
      TimesMonotone(total / n + 1, half, n);
      assert false;
    }
  }

  /** The products of an equal split stay within the resource size, so they fit u64. */
  lemma EqualSegmentAt(total: nat, n: int, i: int)
    requires n >= 2 && 0 <= i < n && total / n >= 1
    ensures 0 <= i * (total / n) < (i + 1) * (total / n) <= total
    ensures EqualSegment(total, n, i).start <= EqualSegment(total, n, i).end < total
    ensures EqualSegment(total, n, i).Size() >= total / n
    ensures i > 0 ==> EqualSegment(total, n, i).start == EqualSegment(total, n, i - 1).end + 1
  {
    var seg := total / n;
    assert total == n * seg + total % n;
    TimesMonotone(i + 1, n, seg);
    assert (i + 1) * seg == i * seg + seg;
  }

  lemma EqualPlanTiles(requested: nat, total: nat)
    requires SegmentCount(requested, total) >= 2
    ensures
      var plan := Plan(Options(Some(requested), None), total);
      && plan.Some? && Tiles(plan.value, total)
      && (forall i :: 0 <= i < |plan.value| ==> plan.value[i].Size() >= MIN_SEGMENT_BYTES / 2)
  {
    var n := SegmentCount(requested, total);
    EqualSegmentsAreLarge(requested, total);
    var plan := Plan(Options(Some(requested), None), total).value;
    forall i | 0 <= i < n
      ensures 0 <= plan[i].start <= plan[i].end
      ensures plan[i].Size() >= MIN_SEGMENT_BYTES / 2
      ensures i > 0 ==> plan[i].start == plan[i - 1].end + 1
    {
      EqualSegmentAt(total, n, i);
    }
  }

  /** The growth of the segment size makes the cap on the count a no-op. */
  lemma GrownSizeNeedsFewChunks(size: nat, total: nat)
    requires size > 0
    ensures DivCeil(total, GrownSize(size, total)) <= MAX_SEGMENT_CHUNKS
  {
    var g := GrownSize(size, total);
    DivCeilBounds(total, g);
    DivCeilBounds(total, MAX_SEGMENT_CHUNKS);
    if DivCeil(total, g) > MAX_SEGMENT_CHUNKS {
      TimesMonotone(MAX_SEGMENT_CHUNKS, DivCeil(total, g) - 1, g);
      assert false;
    }
  }

  lemma FixedSegmentAt(total: nat, g: nat, i: nat)
    requires g > 0 && total < U64_LIMIT && i < DivCeil(total, g)
    ensures 0 <= i * g < total
    ensures FixedSegment(total, g, i).start <= FixedSegment(total, g, i).end < total
    ensures i > 0 ==> FixedSegment(total, g, i).start == FixedSegment(total, g, i - 1).end + 1
    ensures i == DivCeil(total, g) - 1 ==> FixedSegment(total, g, i).end == total - 1
  {
    DivCeilBounds(total, g);
    TimesMonotone(i, DivCeil(total, g) - 1, g);
    assert (i + 1) * g == i * g + g;
    if i > 0 {
      assert (i - 1) * g + g == i * g;
    }
  }

  lemma FixedPlanTiles(size: nat, total: nat)
    requires size > 0 && total < U64_LIMIT
    ensures
      var plan := Plan(Options(None, Some(size)), total);
      plan.Some? && Tiles(plan.value, total) && |plan.value| <= MAX_SEGMENT_CHUNKS
  {
    var g := GrownSize(size, total);
    var plan := Plan(Options(None, Some(size)), total).value;
    GrownSizeNeedsFewChunks(size, total);
    DivCeilBounds(total, g);
    forall i | 0 <= i < |plan|
      ensures 0 <= plan[i].start <= plan[i].end
      ensures i > 0 ==> plan[i].start == plan[i - 1].end + 1
      ensures i == |plan| - 1 ==> plan[i].end == total - 1
    {
      FixedSegmentAt(total, g, i);
    }
  }

  /**
   Every plan tiles the resource exactly and holds at most 1024 chunks; in equal-segments
   mode no chunk is shorter than half of the minimum segment size.
   */
  lemma PlanTiles(opts: Options, total: nat)
    requires total < U64_LIMIT
    ensures
      var plan := Plan(opts, total);
      plan.Some? ==>
        && Tiles(plan.value, total)
        && |plan.value| <= MAX_SEGMENT_CHUNKS
        && (opts.segments.Some? ==>
              forall i :: 0 <= i < |plan.value| ==> plan.value[i].Size() >= MIN_SEGMENT_BYTES / 2)
  {
    if Plan(opts, total).Some? {
      if opts.segments.Some? {
        EqualSegmentsAreLarge(opts.segments.value, total);
        EqualPlanTiles(opts.segments.value, total);
        assert Plan(opts, total) == Plan(Options(opts.segments, None), total);
      } else {
        FixedPlanTiles(opts.segmentSize.value, total);
      }
    }
  }

  /** Falling back is decided by the options and the size alone: too small to split, or no layout asked for. */
  lemma FallbackExactly(opts: Options, total: nat)
    ensures Plan(opts, total).None? <==>
            if opts.segments.Some? then opts.segments.value < 2 || total <= MIN_SEGMENT_BYTES
            else opts.segmentSize.GetOr(0) == 0
  {
    DivCeilBounds(total, MIN_SEGMENT_BYTES);
  }

  /** As many equal parts as asked for, up to one per minimum segment and 1024; the last takes the remainder. */
  lemma SegmentsAsAsked(opts: Options, total: nat)
    requires opts.segments.Some? && Plan(opts, total).Some?
    ensures
      var plan, asked := Plan(opts, total).value, opts.segments.value;
      && |plan| <= asked && |plan| <= MAX_SEGMENT_CHUNKS && (|plan| - 1) * MIN_SEGMENT_BYTES < total
      && (|plan| == asked || |plan| == MAX_SEGMENT_CHUNKS || |plan| * MIN_SEGMENT_BYTES >= total)
      && forall i :: 0 <= i < |plan| - 1 ==> plan[i].Size() == total / |plan|
  {
    var n := SegmentCount(opts.segments.value, total);
    DivCeilBounds(total, MIN_SEGMENT_BYTES);
    TimesMonotone(n, DivCeil(total, MIN_SEGMENT_BYTES), MIN_SEGMENT_BYTES);
    TimesMonotone(n - 1, DivCeil(total, MIN_SEGMENT_BYTES) - 1, MIN_SEGMENT_BYTES);
    forall i | 0 <= i < n - 1
      ensures EqualSegment(total, n, i).Size() == total / n
    {
      OneMore(i, total / n);
    }
  }

  /** Chunks of the size asked for, or of the least size that needs no more than 1024; the last takes what is left. */
  lemma SizeAsAsked(opts: Options, total: nat)
    requires opts.segments.None? && opts.segmentSize.Some? && opts.segmentSize.value > 0 && total < U64_LIMIT
    ensures Plan(opts, total).Some?
    ensures
      var plan, size := Plan(opts, total).value, Max(opts.segmentSize.value, DivCeil(total, MAX_SEGMENT_CHUNKS));
      forall i :: 0 <= i < |plan| - 1 ==> plan[i].Size() == size
  {
    FixedPlanTiles(opts.segmentSize.value, total);
    var size := GrownSize(opts.segmentSize.value, total);
    forall i | 0 <= i < FixedCount(total, size) - 1
      ensures FixedSegment(total, size, i).Size() == size
    {
      FixedSegmentAt(total, size, i);
      FixedSegmentAt(total, size, i + 1);
      OneMore(i, size);
    }
  }

  // ---- consequences -------------------------------------------------------------

  lemma {:induction false} StartsIncrease(plan: seq<Range>, total: nat, i: nat, j: nat)
    requires Tiles(plan, total) && i < j < |plan|
    ensures plan[i].end < plan[j].start
    decreases j
  {
    if i < j - 1 {
      StartsIncrease(plan, total, i, j - 1);
    }
  }

  lemma {:induction false} EndsBelow(plan: seq<Range>, total: nat, i: nat)
    requires Tiles(plan, total) && i < |plan|
    ensures plan[i].end < total
  {
    if i < |plan| - 1 {
      StartsIncrease(plan, total, i, |plan| - 1);
    }
  }

  /** Every byte of the resource lies in exactly one chunk. */
  lemma {:induction false} OneChunkPerByte(plan: seq<Range>, total: nat, at: nat, k: nat) returns (i: nat)
    requires Tiles(plan, total) && at < total && k < |plan| && plan[k].start <= at
    ensures i < |plan| && plan[i].Contains(at)
    ensures forall j :: 0 <= j < |plan| && plan[j].Contains(at) ==> j == i
    decreases |plan| - k
  {
    if plan[k].end < at {
      i := OneChunkPerByte(plan, total, at, k + 1);
    } else {
      i := k;
      forall j | 0 <= j < |plan| && plan[j].Contains(at)
        ensures j == i
      {
        if i < j {
          StartsIncrease(plan, total, i, j);
        } else if j < i {
          StartsIncrease(plan, total, j, i);
        }
      }
    }
  }

  /** Bytes in the chunks `done` marks, from chunk `k` on (`plan_done_bytes`). */
  function DoneBytes(plan: seq<Range>, done: seq<bool>, k: nat): int
    requires |done| == |plan| && k <= |plan|
    decreases |plan| - k
  {
    if k == |plan| then 0
    else (if done[k] then plan[k].Size() else 0) + DoneBytes(plan, done, k + 1)
  }

  lemma {:induction false} DoneBytesFrom(plan: seq<Range>, total: nat, done: seq<bool>, k: nat)
    requires Tiles(plan, total) && |done| == |plan| && k < |plan|
    ensures 0 <= DoneBytes(plan, done, k) <= total - plan[k].start
    ensures DoneBytes(plan, done, k) == total - plan[k].start <==> forall i :: k <= i < |plan| ==> done[i]
    decreases |plan| - k
  {
    if k < |plan| - 1 {
      DoneBytesFrom(plan, total, done, k + 1);
    }
  }

  /** The done count never exceeds the size, and reaches it exactly when every chunk is marked. */
  lemma DoneBytesExact(plan: seq<Range>, total: nat, done: seq<bool>)
    requires Tiles(plan, total) && |done| == |plan|
    ensures 0 <= DoneBytes(plan, done, 0) <= total
    ensures DoneBytes(plan, done, 0) == total <==> forall i :: 0 <= i < |plan| ==> done[i]
  {
    if |plan| > 0 {
      DoneBytesFrom(plan, total, done, 0);
    }
  }
}
