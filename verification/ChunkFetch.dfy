/**
 Fetching one chunk of a segmented download: `pump_to_store`, `stream_chunk_once` and
 the retry loop `fetch_chunk_streaming` of src/download.rs.

 The server and the disk are arbitrary: attempt `k` meets `env(k)`, and every pass of
 the copy loop meets its own tick. Whether a connection is cut for low speed is one of
 the things a tick decides.
 */
module ChunkFetch {
  import opened Basics
  import opened Arithmetic
  import opened ResumeMeta
  import opened PartStore
  import opened RetryBudget

  datatype Read = Data(n: nat) | ReadFails
  datatype Write = Lands | WriteFails(landed: nat, denied: bool)

  /** One pass of the copy loop: below the speed floor or not, what the reader and the store do. */
  datatype Tick = Tick(slow: bool, read: Read, write: Write)

  /** A parsed Content-Range. */
  datatype ContentRange = ContentRange(start: nat, end: nat, total: Option<nat>)

  /** What a request meets: no response, or a status, a Content-Range and a body. */
  datatype Reply =
    | SendFails(transient: bool)
    | Response(status: nat, range: Option<ContentRange>, body: bytes, ticks: nat -> Tick)

  datatype Failure = Broken | Denied | LowSpeed

  datatype Pumped = Pumped(wrote: nat, err: Option<Failure>, tooSlow: bool)

  /** How a copy of at most `want` of `length` body bytes goes on after `wrote` bytes and `pass` passes. */
  function Pump(length: nat, ticks: nat -> Tick, want: nat, wrote: nat, pass: nat): (p: Pumped)
    requires wrote <= want && wrote <= length
    ensures wrote <= p.wrote <= want && p.wrote <= length
    decreases want - wrote
  {
    var tick := ticks(pass);
    if wrote == want then Pumped(wrote, None, false)
    else if tick.slow then Pumped(wrote, Some(LowSpeed), true)
    else if tick.read.ReadFails? then Pumped(wrote, Some(Broken), false)
    else
      var n := Min(Min(Max(tick.read.n, 1), Min(want - wrote, BUFFER)), length - wrote);
      if n == 0 then Pumped(wrote, None, false)
      else if tick.write.WriteFails? then Pumped(wrote, Some(if tick.write.denied then Denied else Broken), false)
      else Pump(length, ticks, want, wrote + n, pass + 1)
  }

  /** pump_to_store: copy at most `want` bytes of `body` to the store from offset `at`. */
  method PumpToStore(store: Store, body: bytes, ticks: nat -> Tick, at: nat, want: nat) returns (p: Pumped)
    modifies store`file
    ensures p == Pump(|body|, ticks, want, 0, 0)
    ensures HoldsAt(store.file, at, body[..p.wrote])
    ensures ChangedOnly(old(store.file), store.file, at, want)
    ensures p.err.None? ==> p.wrote == want || p.wrote == |body|
    ensures p.tooSlow <==> p.err == Some(LowSpeed)
  {
    hide ChangedOnly, HoldsAt, Written, Pump;
    var wrote: nat, pass, err := 0, 0, None;
    NothingChanged(store.file, at, want);
    while wrote < want
      invariant wrote <= want && wrote <= |body| && err == None
      invariant Pump(|body|, ticks, want, 0, 0) == Pump(|body|, ticks, want, wrote, pass)
      invariant HoldsAt(store.file, at, body[..wrote])
      invariant ChangedOnly(old(store.file), store.file, at, want)
      decreases want - wrote
    {
      PumpStep(|body|, ticks, want, wrote, pass);
      var tick := ticks(pass);
      if tick.slow {
        err := Some(LowSpeed);
        break;
      }
      if tick.read.ReadFails? {
        err := Some(Broken);
        break;
      }
      var cap := Min(want - wrote, BUFFER);
      var n := Min(Min(Max(tick.read.n, 1), cap), |body| - wrote);
      if n == 0 {
        break;
      }
      var buf := body[wrote..wrote + n];
      ghost var before := store.file;
      var ok, landed := store.WriteAt(at + wrote, buf, if tick.write.Lands? then None else Some(tick.write.landed));
      ChangesWiden(before, store.file, at + wrote, n, want - wrote - n);
      ChangesCompose(old(store.file), before, store.file, at, want, wrote);
      if !ok {
        CopyStays(before, store.file, at, body[..wrote], n);
        err := Some(if tick.write.denied then Denied else Broken);
        break;
      }
      assert buf[..landed] == buf;
      CopyOn(before, store.file, at, body, wrote, n);
      wrote, pass := wrote + n, pass + 1;
    }
    if wrote == want {
      PumpStep(|body|, ticks, want, wrote, pass);
    }
    p := Pumped(wrote, err, err == Some(LowSpeed));
  }

  lemma PumpStep(length: nat, ticks: nat -> Tick, want: nat, wrote: nat, pass: nat)
    requires wrote <= want && wrote <= length
    ensures
      var tick := ticks(pass);
      Pump(length, ticks, want, wrote, pass)
      == if wrote == want then Pumped(wrote, None, false)
         else if tick.slow then Pumped(wrote, Some(LowSpeed), true)
         else if tick.read.ReadFails? then Pumped(wrote, Some(Broken), false)
         else
           var n := Min(Min(Max(tick.read.n, 1), Min(want - wrote, BUFFER)), length - wrote);
           if n == 0 then Pumped(wrote, None, false)
           else if tick.write.WriteFails? then Pumped(wrote, Some(if tick.write.denied then Denied else Broken), false)
           else Pump(length, ticks, want, wrote + n, pass + 1)
  {
  }

  datatype StreamOnce =
    | Advanced(wrote: nat, err: Option<Failure>, tooSlow: bool)
    | Fallback
    | Fatal

  /** A 206 for exactly the bytes asked for, of the size planned against. */
  predicate Accepts(reply: Reply, at: nat, total: nat) {
    && reply.Response? && reply.status == 206
    && reply.range.Some? && reply.range.value.start == at && reply.range.value.total == Some(total)
  }

  /** What one request for [at, at + want) comes to. */
  function AttemptOf(reply: Reply, at: nat, want: nat, total: nat): (r: StreamOnce)
    ensures r.Advanced? ==> r.wrote <= want
    ensures r.Advanced? && r.wrote > 0 ==> Accepts(reply, at, total) && r.wrote <= |reply.body|
  {
    match reply
    case SendFails(transient) => if transient then Advanced(0, Some(Broken), false) else Fatal
    case Response(status, _, body, ticks) =>
      if status == 200 || (status == 206 && !Accepts(reply, at, total)) then Fallback
      else if status == 206 then
        var p := Pump(|body|, ticks, want, 0, 0);
        if p.err == Some(Denied) then Fatal else Advanced(p.wrote, p.err, p.tooSlow)
      else if status >= 500 then Advanced(0, Some(Broken), false)
      else Fatal
  }

  /** stream_chunk_once: one request for [at, at + want). */
  method StreamChunkOnce(store: Store, reply: Reply, at: nat, want: nat, total: nat) returns (r: StreamOnce)
    modifies store`file
    ensures r == AttemptOf(reply, at, want, total)
    ensures r.Advanced? && r.wrote > 0 ==> HoldsAt(store.file, at, reply.body[..r.wrote])
    ensures !Accepts(reply, at, total) ==> store.file == old(store.file)
    ensures ChangedOnly(old(store.file), store.file, at, want)
    ensures r.Fallback? <==>
              reply.Response? && (reply.status == 200 || reply.status == 206) && !Accepts(reply, at, total)
  {
    match reply
    case SendFails(transient) =>
      r := if transient then Advanced(0, Some(Broken), false) else Fatal;
    case Response(status, range, body, ticks) =>
      if status == 200 {
        return Fallback;
      } else if 400 <= status < 500 {
        return Fatal;
      } else if status >= 500 {
        return Advanced(0, Some(Broken), false);
      } else if status != 206 {
        return Fatal;
      }
      if range.None? || range.value.start != at || range.value.total != Some(total) {
        return Fallback;
      }
      var p := PumpToStore(store, body, ticks, at, want);
      r := if p.err == Some(Denied) then Fatal else Advanced(p.wrote, p.err, p.tooSlow);
  }

  // ---- the retry loop -----------------------------------------------------------------

  datatype ChunkResult = ChunkOk | ChunkFallback | ChunkFatal | ChunkExhausted

  /** An attempt that landed bytes over a connection we did not have to cut. */
  predicate Healthy(wrote: nat, tooSlow: bool) {
    wrote > 0 && !tooSlow
  }

  /** A chunk to fetch: `want` bytes from `start` of a resource of `total` bytes, attempt `k` meeting `env(k)`. */
  datatype Job = Job(env: nat -> Reply, start: nat, want: nat, total: nat)

  /** The bytes landed by the first `k` attempts, each starting where the last one stopped. */
  function Got(job: Job, k: nat): (got: nat)
    ensures got <= job.want
  {
    if k == 0 then 0
    else
      var got := Got(job, k - 1);
      var a := AttemptOf(job.env(k - 1), job.start + got, job.want - got, job.total);
      if a.Advanced? then got + a.wrote else got
  }

  /** What attempt `k` comes to. */
  function Nth(job: Job, k: nat): StreamOnce {
    AttemptOf(job.env(k), job.start + Got(job, k), job.want - Got(job, k), job.total)
  }

  predicate HealthyAt(job: Job, k: nat) {
    var a := Nth(job, k);
    a.Advanced? && Healthy(a.wrote, a.tooSlow)
  }

  /** Which of the first `n` attempts made healthy progress. */
  function Trace(job: Job, n: nat): (t: seq<bool>)
    ensures |t| == n
  {
    if n == 0 then [] else Trace(job, n - 1) + [HealthyAt(job, n - 1)]
  }

  /** The attempts in a row without healthy progress at which the loop gives up: one fewer after a refresh. */
  function Allowance(trace: seq<bool>, maxRetries: nat): nat {
    if true in trace then maxRetries else maxRetries + 1
  }

  predicate Spent(trace: seq<bool>, maxRetries: nat) {
    Stall(trace) >= Allowance(trace, maxRetries)
  }

  /** Attempt `k` leaves something to fetch and a retry to do it with. */
  predicate GoesOn(job: Job, maxRetries: nat, k: nat) {
    Nth(job, k).Advanced? && Got(job, k + 1) < job.want && !Spent(Trace(job, k + 1), maxRetries)
  }

  /** The fetch ends with attempt number `n`, counted from 1, and result `r`. */
  ghost predicate Ends(job: Job, maxRetries: nat, n: nat, r: ChunkResult) {
    && n > 0
    && (forall k :: 0 <= k < n - 1 ==> GoesOn(job, maxRetries, k))
    && match r
       case ChunkOk => Nth(job, n - 1).Advanced? && Got(job, n) == job.want
       case ChunkFallback => Nth(job, n - 1).Fallback?
       case ChunkFatal => Nth(job, n - 1).Fatal?
       case ChunkExhausted => Nth(job, n - 1).Advanced? && Got(job, n) < job.want && Spent(Trace(job, n), maxRetries)
  }

  /** The budget left after these attempts; -1 once it is spent. */
  ghost predicate BudgetTracks(trace: seq<bool>, budget: int, maxRetries: nat) {
    budget + Stall(trace) == Allowance(trace, maxRetries) - 1
  }

  lemma AttemptRecorded(trace: seq<bool>, healthy: bool, budget: nat, maxRetries: nat)
    requires BudgetTracks(trace, budget, maxRetries)
    ensures BudgetTracks(trace + [healthy], (if healthy then maxRetries else budget) - 1, maxRetries)
    ensures Spent(trace + [healthy], maxRetries) <==> (if healthy then maxRetries else budget) == 0
  {
    StallSnoc(trace, healthy);
  }

  /** A 206 body carries resource bytes from the offset its Content-Range states. */
  ghost predicate Honest(reply: Reply, resource: bytes) {
    reply.Response? && reply.status == 206 && reply.range.Some? && reply.range.value.start <= |resource| ==>
      reply.body <= resource[reply.range.value.start..]
  }

  /** The bytes are the resource's own, from offset `start`. */
  ghost predicate FromResource(landed: bytes, resource: bytes, start: nat) {
    start + |landed| <= |resource| && landed == resource[start..start + |landed|]
  }

  lemma HonestBytesExtend(landed: bytes, resource: bytes, start: nat, reply: Reply, total: nat, wrote: nat)
    requires FromResource(landed, resource, start) && Honest(reply, resource)
    requires Accepts(reply, start + |landed|, total) && wrote <= |reply.body|
    ensures FromResource(landed + reply.body[..wrote], resource, start)
  {
    var from := start + |landed|;
    assert reply.body[..wrote] == resource[from..][..wrote] == resource[from..from + wrote];
    assert resource[start..from] + resource[from..from + wrote] == resource[start..from + wrote];
  }

  /**
   fetch_chunk_streaming: fetch [start, end], resuming each attempt from the byte where
   the last one stopped. `landed` is what the accepted replies delivered, in order, and
   `n` the number of attempts made.
   */
  method FetchChunk(store: Store, env: nat -> Reply, start: nat, end: nat, total: nat, maxRetries: nat,
                    ghost resource: bytes)
    returns (r: ChunkResult, ghost landed: bytes, ghost n: nat)
    requires start <= end < total
    modifies store`file
    // nothing outside the chunk is touched
    ensures ChangedOnly(old(store.file), store.file, start, end - start + 1)
    // what the attempts delivered is in place; Ok only with every byte of the chunk
    ensures HoldsAt(store.file, start, landed) && |landed| == Got(Job(env, start, end - start + 1, total), n)
    ensures r.ChunkOk? ==> |landed| == end - start + 1
    ensures |resource| == total && (forall k :: Honest(env(k), resource)) ==> FromResource(landed, resource, start)
    // when and how it ends is decided by the replies and the budget
    ensures Ends(Job(env, start, end - start + 1, total), maxRetries, n, r)
  {
    hide ChangedOnly, HoldsAt, Honest, BudgetTracks, Stall, AttemptOf, Spent, FromResource, Trace, Delivered, Landing, Got, Nth;
    var want: nat := end - start + 1;
    var got: nat, budget: nat, attempt: nat := 0, maxRetries, 0;
    ghost var job := Job(env, start, want, total);
    landed := [];
    NothingLanded(job, store.file, resource);
    FullBudget(maxRetries);
    NothingGot(job);
    while true
      invariant got == Got(job, attempt) < want && budget <= maxRetries
      invariant Landing(job, attempt, old(store.file), store.file, landed, resource)
      invariant BudgetTracks(Trace(job, attempt), budget, maxRetries)
      invariant forall k :: 0 <= k < attempt ==> GoesOn(job, maxRetries, k)
      decreases want - got, budget
    {
      ghost var before := store.file;
      GotStep(job, attempt);
      var once := StreamChunkOnce(store, env(attempt), start + got, want - got, total);
      AttemptLands(job, attempt, old(store.file), before, store.file, landed, resource);
      landed := landed + Delivered(job, attempt);
      attempt := attempt + 1;
      n := attempt;
      LandingMeans(job, attempt, old(store.file), store.file, landed, resource);
      if !once.Advanced? {
        r := if once.Fallback? then ChunkFallback else ChunkFatal;
        break;
      }
      got := got + once.wrote;
      if got >= want {
        r := ChunkOk;
        break;
      }
      var healthy := Healthy(once.wrote, once.tooSlow);
      AttemptRecorded(Trace(job, attempt - 1), healthy, budget, maxRetries);
      TraceSnoc(job, attempt - 1);
      if healthy {
        budget := maxRetries;
      }
      if budget == 0 {
        r := ChunkExhausted;
        break;
      }
      assert GoesOn(job, maxRetries, attempt - 1);
      budget := budget - 1;
    }
  }

  /** The bytes attempt `k` adds. */
  function Delivered(job: Job, k: nat): bytes {
    var a := Nth(job, k);
    if a.Advanced? && a.wrote > 0 then job.env(k).body[..a.wrote] else []
  }

  ghost predicate AllHonest(job: Job, resource: bytes) {
    |resource| == job.total && forall k :: Honest(job.env(k), resource)
  }

  /** What `k` attempts have done to the file. */
  ghost predicate Landing(job: Job, k: nat, from: bytes, to: bytes, landed: bytes, resource: bytes) {
    && |landed| == Got(job, k) && ChangedOnly(from, to, job.start, job.want) && HoldsAt(to, job.start, landed)
    && (AllHonest(job, resource) ==> FromResource(landed, resource, job.start))
  }

  lemma LandingMeans(job: Job, k: nat, from: bytes, to: bytes, landed: bytes, resource: bytes)
    requires Landing(job, k, from, to, landed, resource)
    ensures |landed| == Got(job, k) && ChangedOnly(from, to, job.start, job.want) && HoldsAt(to, job.start, landed)
    ensures |resource| == job.total && (forall k :: Honest(job.env(k), resource)) ==> FromResource(landed, resource, job.start)
  {
  }

  lemma NothingLanded(job: Job, file: bytes, resource: bytes)
    requires job.start <= job.total
    ensures Landing(job, 0, file, file, [], resource)
  {
  }

  lemma AttemptLands(job: Job, k: nat, from: bytes, before: bytes, after: bytes, landed: bytes, resource: bytes)
    requires Landing(job, k, from, before, landed, resource)
    requires ChangedOnly(before, after, job.start + Got(job, k), job.want - Got(job, k))
    requires Nth(job, k).Advanced? && Nth(job, k).wrote > 0 ==>
               HoldsAt(after, job.start + Got(job, k), job.env(k).body[..Nth(job, k).wrote])
    ensures Landing(job, k + 1, from, after, landed + Delivered(job, k), resource)
  {
    hide ChangedOnly, HoldsAt, AttemptOf, FromResource, AllHonest, Got;
    GotStep(job, k);
    ChangesCompose(from, before, after, job.start, job.want, Got(job, k));
    MoreLands(before, after, job.start, landed, Delivered(job, k), job.want - Got(job, k));
    if AllHonest(job, resource) {
      DeliveredIsHonest(job, k, landed, resource);
    }
  }

  lemma NothingGot(job: Job)
    ensures Got(job, 0) == 0
  {
  }

  lemma GotStep(job: Job, k: nat)
    ensures Nth(job, k) == AttemptOf(job.env(k), job.start + Got(job, k), job.want - Got(job, k), job.total)
    ensures Got(job, k + 1) == Got(job, k) + if Nth(job, k).Advanced? then Nth(job, k).wrote else 0
    ensures |Delivered(job, k)| == if Nth(job, k).Advanced? then Nth(job, k).wrote else 0
  {
    hide AttemptOf;
  }

  lemma MoreLands(before: bytes, after: bytes, start: nat, landed: bytes, more: bytes, size: nat)
    requires HoldsAt(before, start, landed) && ChangedOnly(before, after, start + |landed|, size)
    requires more != [] ==> HoldsAt(after, start + |landed|, more)
    ensures HoldsAt(after, start, landed + more)
  {
    hide ChangedOnly, HoldsAt;
    NothingChanged(after, start + |landed|, 0);
    HoldsThrough(before, after, start, landed, more, size);
  }

  lemma DeliveredIsHonest(job: Job, k: nat, landed: bytes, resource: bytes)
    requires AllHonest(job, resource) && |landed| == Got(job, k) && FromResource(landed, resource, job.start)
    ensures FromResource(landed + Delivered(job, k), resource, job.start)
  {
    hide AttemptOf, FromResource, Got, Honest;
    var a := Nth(job, k);
    if a.Advanced? && a.wrote > 0 {
      assert Honest(job.env(k), resource);
      HonestBytesExtend(landed, resource, job.start, job.env(k), job.total, a.wrote);
    } else {
      assert landed + [] == landed;
    }
  }

  lemma TraceSnoc(job: Job, k: nat)
    ensures Trace(job, k + 1) == Trace(job, k) + [HealthyAt(job, k)]
  {
  }

  lemma FullBudget(maxRetries: nat)
    ensures forall job :: BudgetTracks(Trace(job, 0), maxRetries, maxRetries)
  {
  }

  // ---- what the budget promises ---------------------------------------------------------

  lemma {:induction false} StallsStayWithin(job: Job, maxRetries: nat, n: nat)
    requires forall k :: 0 <= k < n ==> GoesOn(job, maxRetries, k)
    ensures StallsWithin(Trace(job, n), maxRetries)
  {
    if n > 0 {
      StallsStayWithin(job, maxRetries, n - 1);
      assert GoesOn(job, maxRetries, n - 1);
      WithinSnoc(Trace(job, n - 1), HealthyAt(job, n - 1), maxRetries);
    }
  }

  lemma {:induction false} ProgressesLand(job: Job, n: nat)
    ensures Progresses(Trace(job, n)) <= Got(job, n)
  {
    if n > 0 {
      ProgressesLand(job, n - 1);
      StallSnoc(Trace(job, n - 1), HealthyAt(job, n - 1));
    }
  }

  /**
   However the server behaves, no more than maxRetries + 1 attempts in a row lack healthy
   progress, and the number of attempts is bounded by the bytes wanted and the budget.
   */
  lemma AttemptsBounded(job: Job, maxRetries: nat, n: nat, r: ChunkResult)
    requires Ends(job, maxRetries, n, r)
    ensures StallsWithin(Trace(job, n), maxRetries + 1)
    ensures n <= job.want * (maxRetries + 2) + maxRetries + 1
  {
    StallsStayWithin(job, maxRetries, n - 1);
    var rest, last := Trace(job, n - 1), HealthyAt(job, n - 1);
    StallSnoc(rest, last);
    assert rest[..|rest|] == rest;
    WithinSnoc(rest, last, maxRetries);
    assert StallsWithin(rest, maxRetries + 1);
    WithinSnoc(rest, last, maxRetries + 1);
    TraceBound(Trace(job, n), maxRetries + 1);
    ProgressesLand(job, n);
    var t := Trace(job, n);
    assert t[..|t|] == t;
    TimesMonotone(Progresses(t), job.want, maxRetries + 2);
  }

  /** Every attempt but the last advances and leaves something to fetch. */
  lemma NeverPast(job: Job, maxRetries: nat, n: nat, r: ChunkResult)
    requires Ends(job, maxRetries, n, r) && job.want > 0
    ensures forall k :: 0 <= k < n - 1 ==> Nth(job, k).Advanced?
    ensures forall k :: 0 <= k < n ==> Got(job, k) < job.want
  {
    hide AttemptOf, Spent;
    forall k | 0 <= k < n - 1
      ensures Nth(job, k).Advanced?
    {
      assert GoesOn(job, maxRetries, k);
    }
    forall k | 0 <= k < n
      ensures Got(job, k) < job.want
    {
      if k == 0 {
        NothingGot(job);
      } else {
        assert GoesOn(job, maxRetries, k - 1);
      }
    }
  }

  /** One result and one number of attempts for every job and budget. */
  lemma OneEnd(job: Job, maxRetries: nat, n: nat, r: ChunkResult, m: nat, q: ChunkResult)
    requires Ends(job, maxRetries, n, r) && Ends(job, maxRetries, m, q)
    ensures n == m && r == q
  {
    hide AttemptOf, Spent;
    assert !GoesOn(job, maxRetries, n - 1) && !GoesOn(job, maxRetries, m - 1);
  }

  /** Every attempt of the job, up to the `n`-th, makes healthy progress. */
  ghost predicate KeepsAdvancing(job: Job, n: nat) {
    forall k :: 0 <= k < n ==> HealthyAt(job, k)
  }

  /** No chunk that keeps advancing is given up. */
  ghost predicate AdvancingIsKept(maxRetries: nat) {
    forall job, n: nat :: KeepsAdvancing(job, n) ==> !Ends(job, maxRetries, n, ChunkExhausted)
  }

  /** A server that sends one byte at a time of a resource of two. */
  function OneByte(k: nat): Reply {
    Response(206, Some(ContentRange(k, 1, Some(2))), [7], _ => Tick(false, Data(1), Lands))
  }

  /** The whole of a two-byte resource, from that server. */
  const TWO_BYTES: Job := Job(OneByte, 0, 2, 2)

  /** The first attempt lands one byte, healthily; without retries the chunk is then given up. */
  lemma AdvancesAndIsAbandoned()
    ensures KeepsAdvancing(TWO_BYTES, 1) && Got(TWO_BYTES, 1) == 1
    ensures Ends(TWO_BYTES, 0, 1, ChunkExhausted)
  {
    var ticks: nat -> Tick := OneByte(0).ticks;
    assert Pump(1, ticks, 2, 1, 1) == Pumped(1, None, false);
    assert Pump(1, ticks, 2, 0, 0) == Pumped(1, None, false);
    assert AttemptOf(OneByte(0), 0, 2, 2) == Advanced(1, None, false);
    assert Got(TWO_BYTES, 0) == 0;
    assert Nth(TWO_BYTES, 0) == Advanced(1, None, false);
    assert Trace(TWO_BYTES, 1) == Trace(TWO_BYTES, 0) + [true] == [true];
  }

  /** Only a unit that cannot advance is given up: true exactly when at least one retry is allowed. */
  lemma AdvancingIsKeptExactly(maxRetries: nat)
    ensures AdvancingIsKept(maxRetries) <==> maxRetries > 0
  {
    if maxRetries == 0 {
      AdvancesAndIsAbandoned();
    } else {
      forall job, n: nat | KeepsAdvancing(job, n)
        ensures !Ends(job, maxRetries, n, ChunkExhausted)
      {
        if n > 0 {
          assert HealthyAt(job, n - 1);
          StallSnoc(Trace(job, n - 1), true);
        }
      }
    }
  }

  // ---- which replies are tried again ------------------------------------------------------

  /** A connection that keeps delivering, to a store that takes it. */
  ghost predicate Delivers(ticks: nat -> Tick) {
    forall k: nat :: !ticks(k).slow && ticks(k).read.Data? && ticks(k).write.Lands?
  }

  lemma {:induction false} PumpsAll(length: nat, ticks: nat -> Tick, want: nat, wrote: nat, pass: nat)
    requires wrote <= want <= length && Delivers(ticks)
    ensures Pump(length, ticks, want, wrote, pass) == Pumped(want, None, false)
    decreases want - wrote
  {
    PumpStep(length, ticks, want, wrote, pass);
    if wrote < want {
      PumpsAll(length, ticks, want, wrote + Min(Min(Max(ticks(pass).read.n, 1), Min(want - wrote, BUFFER)), length - wrote), pass + 1);
    }
  }

  /** A server that is busy for now: no connection just yet, or a 5xx. */
  predicate Busy(reply: Reply) {
    (reply.SendFails? && reply.transient) || (reply.Response? && reply.status >= 500)
  }

  /** The whole of the chunk, delivered. */
  ghost predicate Serves(job: Job, reply: Reply) {
    Accepts(reply, job.start, job.total) && |reply.body| >= job.want && Delivers(reply.ticks)
  }

  /** A busy server that then serves the chunk has it fetched in two attempts exactly where a retry is allowed. */
  lemma RecoversFromBusy(job: Job, maxRetries: nat)
    requires job.want > 0 && Busy(job.env(0)) && Serves(job, job.env(1))
    ensures maxRetries > 0 ==> Ends(job, maxRetries, 2, ChunkOk)
    ensures maxRetries == 0 ==> Ends(job, maxRetries, 1, ChunkExhausted)
  {
    hide Pump, Delivers;
    NothingGot(job);
    GotStep(job, 0);
    assert Nth(job, 0) == Advanced(0, Some(Broken), false);
    TraceSnoc(job, 0);
    StallSnoc(Trace(job, 0), false);
    assert Trace(job, 0) == [] && Stall(Trace(job, 1)) == 1 && true !in Trace(job, 1);
    GotStep(job, 1);
    PumpsAll(|job.env(1).body|, job.env(1).ticks, job.want, 0, 0);
    assert Nth(job, 1) == Advanced(job.want, None, false);
  }

  /** Any other refusal ends the fetch at once: a 200 as a fall back, the rest as fatal. */
  lemma RefusalsEndAtOnce(job: Job, maxRetries: nat)
    requires job.want > 0
    ensures job.env(0).SendFails? && !job.env(0).transient ==> Ends(job, maxRetries, 1, ChunkFatal)
    ensures job.env(0).Response? && job.env(0).status == 200 ==> Ends(job, maxRetries, 1, ChunkFallback)
    ensures job.env(0).Response? && job.env(0).status < 500 && job.env(0).status != 200 && job.env(0).status != 206 ==>
              Ends(job, maxRetries, 1, ChunkFatal)
    ensures job.env(0).Response? && job.env(0).status == 206 && !Accepts(job.env(0), job.start, job.total) ==>
              Ends(job, maxRetries, 1, ChunkFallback)
  {
    hide Pump, Spent;
    NothingGot(job);
    GotStep(job, 0);
  }
}
