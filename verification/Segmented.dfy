/**
 The segmented mode of src/download.rs (`resume_ranged`, `bootstrap`, `run_chunks`) as
 interleaved steps: any number of workers claim chunks from a shared counter, stream
 them into one file and record them in a bitmap that is persisted after every chunk;
 the process may be killed between any two steps and started again, with the same or
 another layout; the resource may change at any time.

 The server is honest: a 206 carries the bytes of the version it serves, and `If-Range`
 is honoured. What one chunk request may meet is left open (see module ChunkFetch for
 the retry loop itself).
 */
module Segmented {
  import opened Basics
  import opened ChunkPlan
  import opened ResumeMeta
  import opened Origin
  import opened PartStore

  /** `planKey` stands for the 32-bit layout hash. */
  datatype Config = Config(url: bytes, layouts: seq<Options>, versions: seq<Version>, planKey: seq<Range> -> nat)

  /**
   What the theorems assume of the world. The validators tell versions of equal size
   apart (one unchanging version always does), they fit the meta block, sizes fit u64,
   and the layout hash does not collide on the layouts actually used.
   */
  ghost predicate World(cfg: Config) {
    && (forall v, w :: v in cfg.versions && w in cfg.versions ==> ToldApart(cfg, v, w))
    && (forall v :: v in cfg.versions ==> |v.content| < U64_LIMIT && Encodable(ValidatorsOf(cfg.url, v)))
    && (forall p :: cfg.planKey(p) < U32_LIMIT)
    && (forall o, q, v :: o in cfg.layouts && q in cfg.layouts && v in cfg.versions ==>
          NoCollision(cfg, Plan(o, |v.content|), Plan(q, |v.content|)))
  }

  /** No 206 for the If-Range of one version can carry another version of the same size. */
  predicate ToldApart(cfg: Config, v: Version, w: Version) {
    |v.content| == |w.content| && Answers(cfg.url, IfRange(ValidatorsOf(cfg.url, v)), w) ==> v.content == w.content
  }

  predicate NoCollision(cfg: Config, p: Option<seq<Range>>, q: Option<seq<Range>>) {
    p.Some? && q.Some? && cfg.planKey(p.value) == cfg.planKey(q.value) ==> p == q
  }

  // ---- the state ---------------------------------------------------------------------

  datatype Worker =
    | Ready                                     // top of the loop
    | Claiming                                  // saw no failure; about to take the counter
    | Claimed(i: nat)                           // about to test the bit
    | Fetching(i: nat, got: nat)                // between requests
    | Streaming(i: nat, got: nat, src: Version) // inside a 206 body
    | Landed(i: nat)                            // every byte written; about to lock the bitmap
    | Saving(i: nat)                            // bit set, lock held; the state write not begun, or under way
    | Stopped
    | Panicked

  /** A run of `run_chunks`; `ver` and `layout` record which version and options it is for. */
  datatype Chunks = Chunks(
    ver: Version, layout: Options,
    validators: Validators, total: nat, plan: seq<Range>, key: nat, bitmap: bytes,
    next: nat, claims: seq<nat>, workers: seq<Worker>, lock: Option<nat>, failed: bool, fallback: bool)

  datatype Process =
    | Down
    | Asking(layout: Options, parallelism: nat)  // bootstrap; about to send the first request
    | Copying(ver: Version, layout: Options, parallelism: nat, done: nat, end: nat) // a whole body, which ends before `end`
    | Full(ver: Version, size: nat)              // a whole body has been copied to its end
    | Booting(ver: Version, layout: Options, plan: seq<Range>, parallelism: nat, got: nat, src: Option<Version>)
    | Running(r: Chunks)
    | Done(r: Chunks)   // run_chunks returned Ok
    | FellBack          // over to a single stream
    | Failed            // an error

  /** `cellVer` and `cellPlan` record what the ranged state in the cell was saved for. */
  datatype Disk = Disk(file: bytes, cell: Option<ResumeState>, cellVer: Version, cellPlan: seq<Range>)

  datatype State = State(cur: Version, disk: Disk, process: Process)

  datatype Choice =
    | Whole(hasLength: bool, end: nat)  // a 200
    | Ranged(end: nat)                  // a 206 for bytes 0-; its body ends before `end`
    | NoTotal                           // a 206 without a usable total
    | Unsatisfied                       // a 416
    | Open | Refuse | Write(k: nat) | HalfWrite(k: nat) | Break | Fail | Panic | Proceed | Tear | SaveFails

  datatype Event =
    | Change(v: Version)                      // the resource is replaced
    | Kill
    | Start(layout: Options, parallelism: nat)
    | Boot(c: Choice)
    | Work(w: nat, c: Choice)
    | Join                                    // all workers have ended
    | Single(file: bytes, size: nat, meta: Option<bytes>) // after a fall back, the single stream overwrote the partial

  // ---- starting ------------------------------------------------------------------------

  datatype Resumed = Resumed(total: nat, validators: Validators, key: nat, plan: seq<Range>, bitmap: bytes)

  /** resume_ranged: what the cell gives a run with this layout. */
  function ResumeRanged(cfg: Config, layout: Options, cell: Option<ResumeState>): Option<Resumed> {
    var st :- cell;
    if st.kind != HttpRanged then None
    else
      var (key, validators, bitmap) :- ParseRangedMeta(st.meta);
      if validators.url != cfg.url then None
      else
        var plan :- Plan(layout, st.realSize);
        if cfg.planKey(plan) != key || |bitmap| != DivCeil(|plan|, 8) then None
        else Some(Resumed(st.realSize, validators, key, plan, bitmap))
  }

  function WorkerCount(parallelism: nat, chunks: nat): nat {
    Min(Clamp(parallelism, 1, Max(chunks, 1)), 16)
  }

  function NewRun(layout: Options, ver: Version, d: Resumed, parallelism: nat): Chunks {
    Chunks(ver, layout, d.validators, d.total, d.plan, d.key, d.bitmap, 0, [],
           seq(WorkerCount(parallelism, |d.plan|), _ => Ready), None, false, false)
  }

  /** Resume from the cell, else bootstrap. */
  function StartRun(cfg: Config, s: State, layout: Options, parallelism: nat): State {
    var d := ResumeRanged(cfg, layout, s.disk.cell);
    if d.Some? then s.(process := Running(NewRun(layout, s.disk.cellVer, d.value, parallelism)))
    else s.(process := Asking(layout, parallelism))
  }

  /** The disk once set_len has sized the file. */
  function Sized(d: Disk, n: nat): Disk {
    d.(file := DataRegion(d.file, n), cell := None)
  }

  // ---- the first reply -------------------------------------------------------------------

  /**
   The reply to the first request. A whole body is prepared for by sizing the file, but
   only if its length is known: without one the file and the saved state stay as they are.
   A 416 comes from an empty resource. A size above the maximum, like any other error, is
   `Fail`; a reply that leads to a retry, `Break`.
   */
  function AskStep(s: State, c: Choice): State
    requires s.process.Asking?
  {
    var a, w := s.process, s.cur;
    var size := |w.content|;
    match c
    case Whole(hasLength, end) =>
      if hasLength then s.(disk := Sized(s.disk, size), process := Copying(w, a.layout, a.parallelism, 0, size))
      else s.(process := Copying(w, a.layout, a.parallelism, 0, Min(end, size)))
    case Ranged(end) =>
      var sized, plan := Sized(s.disk, size), Plan(a.layout, size);
      if size == 0 then s.(disk := sized, process := Full(w, 0))
      else if plan.None? then s.(disk := sized, process := Copying(w, a.layout, a.parallelism, 0, Min(end, size)))
      else s.(disk := sized, process := Booting(w, a.layout, plan.value, a.parallelism, 0, Some(w)))
    case NoTotal => s.(process := FellBack)
    case Unsatisfied => if size == 0 then s.(disk := Sized(s.disk, 0), process := Full(w, 0)) else s
    case Fail => s.(process := Failed)
    case _ => s
  }

  /** Copying a whole body from offset 0; a break sends the request again. */
  function CopyStep(s: State, c: Choice): State
    requires s.process.Copying?
  {
    var b := s.process;
    match c
    case Write(k) =>
      if !(b.done + k <= b.end <= |b.ver.content|) then s
      else s.(disk := s.disk.(file := Patch(s.disk.file, b.done, b.ver.content[b.done..b.done + k])), process := b.(done := b.done + k))
    case HalfWrite(k) =>
      if !(b.done + k <= b.end <= |b.ver.content|) then s
      else s.(disk := s.disk.(file := Patch(s.disk.file, b.done, b.ver.content[b.done..b.done + k])), process := Asking(b.layout, b.parallelism))
    case Break => s.(process := Asking(b.layout, b.parallelism))
    case Proceed => if b.done < b.end then s else s.(process := Full(b.ver, b.done))
    case Fail => s.(process := Failed)
    case _ => s
  }

  function Saved(d: Disk, total: nat, meta: bytes, ver: Version, plan: seq<Range>): Disk {
    d.(cell := Some(ResumeState(total, HttpRanged, meta)), cellVer := ver, cellPlan := plan)
  }

  // ---- the first chunk -------------------------------------------------------------------

  function BootStep(cfg: Config, s: State, c: Choice): State
    requires s.process.Booting? && s.process.plan != []
  {
    var b := s.process;
    var total, want := |b.ver.content|, b.plan[0].end + 1;
    var v := ValidatorsOf(cfg.url, b.ver);
    match c
    case Open =>
      if b.src.Some? || b.got >= want then s
      else if Answers(cfg.url, IfRange(v), s.cur) && |s.cur.content| == total then
        s.(process := b.(src := Some(s.cur)))
      else s.(process := FellBack)
    case Refuse => s.(process := FellBack)
    case Write(k) =>
      if b.src.None? || !(b.got + k <= want && want <= |b.src.value.content|) then s
      else s.(disk := s.disk.(file := Patch(s.disk.file, b.got, b.src.value.content[b.got..b.got + k])), process := b.(got := b.got + k))
    case HalfWrite(k) =>
      if b.src.None? || !(b.got + k <= want && want <= |b.src.value.content|) then s
      else s.(disk := s.disk.(file := Patch(s.disk.file, b.got, b.src.value.content[b.got..b.got + k])), process := b.(src := None))
    case Break => s.(process := b.(src := None))
    case Proceed =>
      if b.got < want then s
      else
        var empty := EmptyBitmap(|b.plan|);
        var bitmap := if |empty| > 0 then BitSet(empty, 0) else empty;
        var key := cfg.planKey(b.plan);
        s.(disk := Saved(s.disk, total, RangedMeta(key, total, v, bitmap), b.ver, b.plan),
           process := Running(NewRun(b.layout, b.ver, Resumed(total, v, key, b.plan, bitmap), b.parallelism)))
    case Fail => s.(process := Failed)
    case _ => s
  }

  // ---- the workers -------------------------------------------------------------------------

  function SetWorker(r: Chunks, w: nat, wk: Worker): Chunks
    requires w < |r.workers|
  {
    r.(workers := r.workers[w := wk])
  }

  /**
   One step of worker `w`. A step that is not enabled leaves the state alone. A request may
   be refused with a 200 even by the version planned with. The state saved before stays
   readable until the next write of it has begun (`Tear`), and a write may fail before that.
   */
  function WorkStep(cfg: Config, s: State, w: nat, c: Choice): State
    requires s.process.Running? && w < |s.process.r.workers|
  {
    var r := s.process.r;
    match r.workers[w]
    case Ready =>
      s.(process := Running(SetWorker(r, w,
        if c.Panic? then Panicked else if r.failed || r.fallback then Stopped else Claiming)))
    case Claiming =>
      var i := r.next;
      var r1 := r.(next := i + 1);
      if i >= |r.plan| then s.(process := Running(SetWorker(r1, w, Stopped)))
      else s.(process := Running(SetWorker(r1.(claims := r.claims + [i]), w, Claimed(i))))
    case Claimed(i) =>
      if r.lock.Some? || i / 8 >= |r.bitmap| then s
      else s.(process := Running(SetWorker(r, w, if BitGet(r.bitmap, i) then Ready else Fetching(i, 0))))
    case Fetching(i, got) =>
      if c.Open? then
        if Answers(cfg.url, IfRange(r.validators), s.cur) && |s.cur.content| == r.total then
          s.(process := Running(SetWorker(r, w, Streaming(i, got, s.cur))))
        else s.(process := Running(SetWorker(r.(fallback := true), w, Ready)))
      else if c.Refuse? then s.(process := Running(SetWorker(r.(fallback := true), w, Ready)))
      else if c.Fail? then s.(process := Running(SetWorker(r.(failed := true), w, Ready)))
      else s
    case Streaming(i, got, src) =>
      if i >= |r.plan| then s else StreamStep(s, r, w, c, r.plan[i], i, got, src)
    case Landed(i) =>
      if r.lock.Some? || i / 8 >= |r.bitmap| then s
      else s.(process := Running(SetWorker(r.(bitmap := BitSet(r.bitmap, i), lock := Some(w)), w, Saving(i))))
    case Saving(i) =>
      var r1 := SetWorker(r.(lock := None), w, Ready);
      if c.Tear? then s.(disk := s.disk.(cell := None))
      else if c.SaveFails? then s.(process := Running(r1))
      else s.(disk := Saved(s.disk, r.total, RangedMeta(r.key, r.total, r.validators, r.bitmap), r.ver, r.plan),
              process := Running(r1))
    case _ => s
  }

  /** Inside a body: a read lands `k` bytes, a write fails half way, the stream breaks, or all is lost. */
  function StreamStep(s: State, r: Chunks, w: nat, c: Choice, range: Range, i: nat, got: nat, src: Version): State
    requires s.process == Running(r) && w < |r.workers|
  {
    var at, size := range.start + got, range.Size();
    match c
    case Write(k) =>
      if !(0 <= at && got + k <= size && at + k <= |src.content|) then s
      else
        s.(disk := s.disk.(file := Patch(s.disk.file, at, src.content[at..at + k])),
           process := Running(SetWorker(r, w, if got + k == size then Landed(i) else Streaming(i, got + k, src))))
    case HalfWrite(k) =>
      if !(0 <= at && got + k <= size && at + k <= |src.content|) then s
      else
        s.(disk := s.disk.(file := Patch(s.disk.file, at, src.content[at..at + k])), process := Running(SetWorker(r, w, Fetching(i, got))))
    case Fail => s.(process := Running(SetWorker(r.(failed := true), w, Ready)))
    case Panic => s.(process := Running(SetWorker(r, w, Panicked)))
    case _ => s.(process := Running(SetWorker(r, w, Fetching(i, got))))
  }

  /** run_chunks returns: Ok only without a panic, a failure or a fall back. */
  function JoinAll(s: State): State
    requires s.process.Running?
  {
    var r := s.process.r;
    if !(forall w :: 0 <= w < |r.workers| ==> r.workers[w].Stopped? || r.workers[w].Panicked?) then s
    else if Panicked in r.workers || r.failed then s.(process := Failed)
    else if r.fallback then s.(process := FellBack)
    else s.(process := Done(r))
  }

  function Apply(cfg: Config, s: State, e: Event): State {
    match e
    case Change(v) => if v in cfg.versions then s.(cur := v) else s
    case Kill => s.(process := Down)
    case Start(layout, parallelism) =>
      if s.process.Down? && layout in cfg.layouts then StartRun(cfg, s, layout, parallelism) else s
    case Boot(c) =>
      if s.process.Asking? then AskStep(s, c)
      else if s.process.Copying? then CopyStep(s, c)
      else if s.process.Booting? && s.process.plan != [] then BootStep(cfg, s, c)
      else s
    case Work(w, c) => if s.process.Running? && w < |s.process.r.workers| then WorkStep(cfg, s, w, c) else s
    case Join => if s.process.Running? then JoinAll(s) else s
    case Single(file, size, meta) =>
      if !s.process.FellBack? then s
      else s.(disk := s.disk.(file := file, cell := if meta.Some? then Some(ResumeState(size, HttpStream, meta.value)) else None))
  }

  function Run(cfg: Config, s: State, es: seq<Event>): State
    decreases |es|
  {
    if es == [] then s else Run(cfg, Apply(cfg, s, es[0]), es[1..])
  }

  // ---- what every step keeps ------------------------------------------------------------------

  /** Every chunk the bitmap marks is in the file. */
  ghost predicate MarkedInFile(file: bytes, content: bytes, plan: seq<Range>, bitmap: bytes) {
    && |bitmap| == DivCeil(|plan|, 8)
    && forall i :: 0 <= i < |plan| ==>
         i / 8 < |bitmap| && (BitGet(bitmap, i) ==> Agree(file, content, plan[i].start, plan[i].end + 1))
  }

  /** The meta block in the cell was saved with this bitmap, for the recorded version and layout. */
  ghost predicate CellHolds(cfg: Config, disk: Disk, bitmap: bytes)
    requires disk.cell.Some?
  {
    && disk.cell.value.meta
         == RangedMeta(cfg.planKey(disk.cellPlan), |disk.cellVer.content|, ValidatorsOf(cfg.url, disk.cellVer), bitmap)
    && MarkedInFile(disk.file, disk.cellVer.content, disk.cellPlan, bitmap)
  }

  /** The ranged state in the cell was saved for a known version and layout, and is true of the file. */
  ghost predicate CellSound(cfg: Config, disk: Disk) {
    disk.cell.Some? && disk.cell.value.kind == HttpRanged ==>
      && disk.cellVer in cfg.versions
      && (exists o :: o in cfg.layouts && Plan(o, |disk.cellVer.content|) == Some(disk.cellPlan))
      && disk.cell.value.realSize == |disk.cellVer.content| <= |disk.file|
      && exists bitmap :: CellHolds(cfg, disk, bitmap)
  }

  /** No process, any file; a saved ranged state, if there is one, is true of it. */
  ghost predicate Init(cfg: Config, s: State) {
    s.cur in cfg.versions && s.process == Down && CellSound(cfg, s.disk)
  }

  function Held(wk: Worker): Option<nat> {
    match wk
    case Claimed(i) => Some(i)
    case Fetching(i, _) => Some(i)
    case Streaming(i, _, _) => Some(i)
    case Landed(i) => Some(i)
    case _ => None
  }

  ghost predicate WorkerSound(file: bytes, r: Chunks, w: nat)
    requires w < |r.workers|
  {
    match r.workers[w]
    case Claimed(i) => i < |r.plan|
    case Fetching(i, got) =>
      i < |r.plan| && got < r.plan[i].Size() && Agree(file, r.ver.content, r.plan[i].start, r.plan[i].start + got)
    case Streaming(i, got, src) =>
      && i < |r.plan| && got < r.plan[i].Size() && src.content == r.ver.content
      && Agree(file, r.ver.content, r.plan[i].start, r.plan[i].start + got)
    case Landed(i) => i < |r.plan| && Agree(file, r.ver.content, r.plan[i].start, r.plan[i].end + 1)
    case Saving(i) => r.lock == Some(w)
    case Stopped => r.failed || r.fallback || r.next >= |r.plan|
    case _ => true
  }

  ghost predicate WorkersSound(file: bytes, r: Chunks) {
    forall w :: 0 <= w < |r.workers| ==> WorkerSound(file, r, w)
  }

  /** Chunk `i` is not forgotten: somebody is on it, or the run is not going to succeed. */
  ghost predicate Pending(workers: seq<Worker>, i: nat) {
    Panicked in workers || exists w :: 0 <= w < |workers| && Held(workers[w]) == Some(i)
  }

  /** Every claimed chunk is marked, or still pending. */
  ghost predicate AllAccounted(r: Chunks) {
    forall i :: 0 <= i < |r.plan| && i < r.next ==>
      i / 8 < |r.bitmap| && (BitGet(r.bitmap, i) || r.failed || r.fallback || Pending(r.workers, i))
  }

  function Upto(n: nat): seq<nat> {
    seq(n, i => i)
  }

  /** The parts of a run that never change, and what they say about each other. */
  ghost predicate RunShape(cfg: Config, r: Chunks) {
    && r.ver in cfg.versions && r.layout in cfg.layouts
    && r.total == |r.ver.content| && r.validators == ValidatorsOf(cfg.url, r.ver)
    && Plan(r.layout, r.total) == Some(r.plan) && Tiles(r.plan, r.total) && r.key == cfg.planKey(r.plan)
    && r.claims == Upto(Min(r.next, |r.plan|)) && |r.workers| > 0
  }

  ghost predicate RunSound(cfg: Config, disk: Disk, r: Chunks) {
    && RunShape(cfg, r) && r.total <= |disk.file|
    && MarkedInFile(disk.file, r.ver.content, r.plan, r.bitmap)
    && WorkersSound(disk.file, r)
    && AllAccounted(r)
    && (disk.cell.Some? ==> disk.cellVer == r.ver && disk.cellPlan == r.plan)
  }

  ghost predicate BootSound(cfg: Config, disk: Disk, b: Process)
    requires b.Booting?
  {
    && b.ver in cfg.versions && b.layout in cfg.layouts && disk.cell == None && b.plan != []
    && |b.ver.content| <= |disk.file|
    && Plan(b.layout, |b.ver.content|) == Some(b.plan) && Tiles(b.plan, |b.ver.content|)
    && Agree(disk.file, b.ver.content, 0, b.got)
    && (b.src.Some? ==> b.src.value.content == b.ver.content)
  }

  /** A whole body being copied: what is in the file so far is its own, and no saved state speaks of that file. */
  ghost predicate CopySound(cfg: Config, disk: Disk, b: Process)
    requires b.Copying?
  {
    && b.ver in cfg.versions && b.layout in cfg.layouts && disk.cell == None
    && b.done <= b.end <= |b.ver.content| && Agree(disk.file, b.ver.content, 0, b.done)
  }

  ghost predicate DoneSound(r: Chunks) {
    r.next >= |r.plan| && !r.failed && !r.fallback && forall w :: 0 <= w < |r.workers| ==> r.workers[w].Stopped?
  }

  ghost predicate ProcessSound(cfg: Config, disk: Disk, p: Process) {
    match p
    case Asking(layout, _) => layout in cfg.layouts
    case Copying(_, _, _, _, _) => CopySound(cfg, disk, p)
    case Full(ver, size) => ver in cfg.versions && disk.cell == None && Agree(disk.file, ver.content, 0, size)
    case Booting(_, _, _, _, _, _) => BootSound(cfg, disk, p)
    case Running(r) => RunSound(cfg, disk, r)
    case Done(r) => RunSound(cfg, disk, r) && DoneSound(r)
    case _ => true
  }

  ghost predicate Inv(cfg: Config, s: State) {
    s.cur in cfg.versions && CellSound(cfg, s.disk) && ProcessSound(cfg, s.disk, s.process)
  }

  // ---- writing resource bytes at their own offsets -----------------------------------------------

  lemma PatchMarked(file: bytes, content: bytes, at: nat, k: nat, plan: seq<Range>, bitmap: bytes)
    requires MarkedInFile(file, content, plan, bitmap) && at + k <= |content|
    ensures MarkedInFile(Patch(file, at, content[at..at + k]), content, plan, bitmap)
  {
    hide ChunkPlan.Plan, ResumeMeta.BitGet;
    forall i | 0 <= i < |plan| && BitGet(bitmap, i)
      ensures Agree(Patch(file, at, content[at..at + k]), content, plan[i].start, plan[i].end + 1)
    {
      PatchAgrees(file, content, at, k, plan[i].start, plan[i].end + 1);
    }
  }

  lemma PatchCell(cfg: Config, disk: Disk, at: nat, k: nat, content: bytes)
    requires CellSound(cfg, disk) && at + k <= |content|
    requires disk.cell.Some? ==> disk.cellVer.content == content
    ensures CellSound(cfg, disk.(file := Patch(disk.file, at, content[at..at + k])))
  {
    if disk.cell.Some? && disk.cell.value.kind == HttpRanged {
      var bitmap :| CellHolds(cfg, disk, bitmap);
      PatchMarked(disk.file, content, at, k, disk.cellPlan, bitmap);
      assert CellHolds(cfg, disk.(file := Patch(disk.file, at, content[at..at + k])), bitmap);
    }
  }

  lemma PatchWorkers(file: bytes, r: Chunks, at: nat, k: nat)
    requires WorkersSound(file, r) && at + k <= |r.ver.content|
    ensures WorkersSound(Patch(file, at, r.ver.content[at..at + k]), r)
  {
    var c := r.ver.content;
    var file' := Patch(file, at, c[at..at + k]);
    forall w | 0 <= w < |r.workers|
      ensures WorkerSound(file', r, w)
    {
      assert WorkerSound(file, r, w);
      match r.workers[w] {
        case Fetching(i, got) => PatchAgrees(file, c, at, k, r.plan[i].start, r.plan[i].start + got);
        case Streaming(i, got, _) => PatchAgrees(file, c, at, k, r.plan[i].start, r.plan[i].start + got);
        case Landed(i) => PatchAgrees(file, c, at, k, r.plan[i].start, r.plan[i].end + 1);
        case _ =>
      }
    }
  }

  lemma PatchRun(cfg: Config, disk: Disk, r: Chunks, at: nat, k: nat)
    requires RunSound(cfg, disk, r) && at + k <= r.total
    ensures RunSound(cfg, disk.(file := Patch(disk.file, at, r.ver.content[at..at + k])), r)
  {
    hide ChunkPlan.Plan, ResumeMeta.BitGet;
    PatchMarked(disk.file, r.ver.content, at, k, r.plan, r.bitmap);
    PatchWorkers(disk.file, r, at, k);
  }

  // ---- starting ------------------------------------------------------------------------------------

  /** What resuming from the cell gives is sound for the version and layout it was saved for. */
  lemma ResumeIsSound(cfg: Config, disk: Disk, layout: Options)
    requires World(cfg) && CellSound(cfg, disk) && layout in cfg.layouts
    ensures
      var d := ResumeRanged(cfg, layout, disk.cell);
      d.Some? ==>
        && disk.cellVer in cfg.versions && d.value.total == |disk.cellVer.content| <= |disk.file|
        && d.value.validators == ValidatorsOf(cfg.url, disk.cellVer)
        && d.value.plan == disk.cellPlan && d.value.key == cfg.planKey(disk.cellPlan)
        && MarkedInFile(disk.file, disk.cellVer.content, d.value.plan, d.value.bitmap)
  {
    if ResumeRanged(cfg, layout, disk.cell).Some? {
      var total := |disk.cellVer.content|;
      var bitmap :| CellHolds(cfg, disk, bitmap);
      RangedMetaRoundTrip(cfg.planKey(disk.cellPlan), total, ValidatorsOf(cfg.url, disk.cellVer), bitmap);
      var o :| o in cfg.layouts && Plan(o, total) == Some(disk.cellPlan);
      assert NoCollision(cfg, Plan(o, total), Plan(layout, total));
    }
  }

  /** A freshly started run owes nothing yet. */
  lemma NewRunSound(cfg: Config, disk: Disk, layout: Options, ver: Version, d: Resumed, parallelism: nat)
    requires ver in cfg.versions && layout in cfg.layouts
    requires d.total == |ver.content| <= |disk.file| && d.validators == ValidatorsOf(cfg.url, ver)
    requires Plan(layout, d.total) == Some(d.plan) && Tiles(d.plan, d.total) && d.key == cfg.planKey(d.plan)
    requires MarkedInFile(disk.file, ver.content, d.plan, d.bitmap)
    requires disk.cell.Some? ==> disk.cellVer == ver && disk.cellPlan == d.plan
    ensures RunSound(cfg, disk, NewRun(layout, ver, d, parallelism))
  {
  }

  lemma StartKeeps(cfg: Config, s: State, layout: Options, parallelism: nat)
    requires World(cfg) && Inv(cfg, s) && s.process.Down? && layout in cfg.layouts
    ensures Inv(cfg, StartRun(cfg, s, layout, parallelism))
  {
    var d := ResumeRanged(cfg, layout, s.disk.cell);
    if d.Some? {
      ResumeIsSound(cfg, s.disk, layout);
      PlanTiles(layout, d.value.total);
      NewRunSound(cfg, s.disk, layout, s.disk.cellVer, d.value, parallelism);
    }
  }

  /** A body of unknown length is about to be copied over a file that a saved state speaks of. */
  predicate Clobbers(s: State, e: Event) {
    s.process.Asking? && e.Boot? && e.c.Whole? && !e.c.hasLength && s.disk.cell.Some?
  }

  /** No step of the run does that. */
  ghost predicate Unclobbered(cfg: Config, s: State, es: seq<Event>)
    decreases |es|
  {
    es == [] || (!Clobbers(s, es[0]) && Unclobbered(cfg, Apply(cfg, s, es[0]), es[1..]))
  }

  lemma AskKeeps(cfg: Config, s: State, c: Choice)
    requires World(cfg) && Inv(cfg, s) && s.process.Asking? && !Clobbers(s, Boot(c))
    ensures Inv(cfg, AskStep(s, c))
  {
    hide ChunkPlan.Plan, ResumeMeta.BitGet;
    PlanTiles(s.process.layout, |s.cur.content|);
  }

  lemma CopyKeeps(cfg: Config, s: State, c: Choice)
    requires Inv(cfg, s) && s.process.Copying?
    ensures Inv(cfg, CopyStep(s, c))
  {
    hide ChunkPlan.Plan, ResumeMeta.BitGet, PartStore.Patch;
    var b := s.process;
    if (c.Write? || c.HalfWrite?) && b.done + c.k <= b.end {
      PatchExtends(s.disk.file, b.ver.content, b.done, c.k, 0);
    }
  }

  lemma FirstBitmapMarked(file: bytes, content: bytes, plan: seq<Range>)
    requires Tiles(plan, |content|) && plan != [] && Agree(file, content, 0, plan[0].end + 1)
    ensures |EmptyBitmap(|plan|)| > 0
    ensures MarkedInFile(file, content, plan, BitSet(EmptyBitmap(|plan|), 0))
  {
    var empty := EmptyBitmap(|plan|);
    forall i | 0 <= i < |plan|
      ensures i / 8 < |empty| && BitGet(BitSet(empty, 0), i) == (i == 0)
    {
      EmptyBitmapClear(|plan|, i);
      BitSetGet(empty, 0, i);
    }
  }

  lemma BootWriteKeeps(cfg: Config, s: State, c: Choice)
    requires Inv(cfg, s) && s.process.Booting? && (c.Write? || c.HalfWrite?)
    ensures Inv(cfg, BootStep(cfg, s, c))
  {
    var b := s.process;
    EndsBelow(b.plan, |b.ver.content|, 0);
    if b.src.Some? && b.got + c.k <= b.plan[0].end + 1 {
      PatchExtends(s.disk.file, b.ver.content, b.got, c.k, 0);
      PatchAgrees(s.disk.file, b.ver.content, b.got, c.k, 0, b.got);
    }
  }

  lemma BootProceedKeeps(cfg: Config, s: State)
    requires Inv(cfg, s) && s.process.Booting? && s.process.got >= s.process.plan[0].end + 1
    ensures Inv(cfg, BootStep(cfg, s, Proceed))
  {
    var b := s.process;
    var s' := BootStep(cfg, s, Proceed);
    var total, v, key := |b.ver.content|, ValidatorsOf(cfg.url, b.ver), cfg.planKey(b.plan);
    FirstBitmapMarked(s.disk.file, b.ver.content, b.plan);
    var bitmap := BitSet(EmptyBitmap(|b.plan|), 0);
    assert CellHolds(cfg, s'.disk, bitmap);
    NewRunSound(cfg, s'.disk, b.layout, b.ver, Resumed(total, v, key, b.plan, bitmap), b.parallelism);
  }

  lemma BootKeeps(cfg: Config, s: State, c: Choice)
    requires World(cfg) && Inv(cfg, s) && s.process.Booting?
    ensures Inv(cfg, BootStep(cfg, s, c))
  {
    match c
    case Open => assert ToldApart(cfg, s.process.ver, s.cur);
    case Write(_) => BootWriteKeeps(cfg, s, c);
    case HalfWrite(_) => BootWriteKeeps(cfg, s, c);
    case Proceed =>
      if s.process.got >= s.process.plan[0].end + 1 {
        BootProceedKeeps(cfg, s);
      }
    case _ =>
  }

  // ---- the workers -----------------------------------------------------------------------------------

  lemma MoveKeepsWorkers(file: bytes, r: Chunks, w: nat, wk: Worker)
    requires WorkersSound(file, r) && w < |r.workers| && WorkerSound(file, SetWorker(r, w, wk), w)
    ensures WorkersSound(file, SetWorker(r, w, wk))
  {
    forall x | 0 <= x < |r.workers|
      ensures WorkerSound(file, SetWorker(r, w, wk), x)
    {
      assert x != w ==> WorkerSound(file, r, x);
    }
  }

  /** A chunk stays pending when a worker that does not hold it moves, or the mover keeps it or panics. */
  lemma MoveKeepsPending(workers: seq<Worker>, w: nat, wk: Worker, i: nat)
    requires w < |workers| && !workers[w].Panicked? && Pending(workers, i)
    requires Held(workers[w]) != Some(i) || Held(wk) == Some(i) || wk.Panicked?
    ensures Pending(workers[w := wk], i)
  {
    var ws := workers[w := wk];
    if Panicked in workers {
      var x :| 0 <= x < |workers| && workers[x] == Panicked;
      assert ws[x] == Panicked;
    } else {
      var x :| 0 <= x < |workers| && Held(workers[x]) == Some(i);
      assert ws[w] == wk && (x != w ==> ws[x] == workers[x]);
    }
  }

  /** The chunk the worker lets go of, if any, is settled. */
  ghost predicate LetsGo(r: Chunks, w: nat, wk: Worker)
    requires w < |r.workers|
  {
    Held(r.workers[w]).Some? && Held(wk) != Held(r.workers[w]) ==>
      var i := Held(r.workers[w]).value;
      wk.Panicked? || r.failed || r.fallback || (i / 8 < |r.bitmap| && BitGet(r.bitmap, i))
  }

  lemma MoveWorker(cfg: Config, disk: Disk, r: Chunks, w: nat, wk: Worker)
    requires RunSound(cfg, disk, r) && w < |r.workers| && !r.workers[w].Panicked?
    requires WorkerSound(disk.file, SetWorker(r, w, wk), w) && LetsGo(r, w, wk)
    ensures RunSound(cfg, disk, SetWorker(r, w, wk))
  {
    hide ChunkPlan.Plan, ResumeMeta.BitGet;
    MoveKeepsWorkers(disk.file, r, w, wk);
    forall i | 0 <= i < |r.plan| && i < r.next && !BitGet(r.bitmap, i) && !r.failed && !r.fallback
      ensures Pending(r.workers[w := wk], i)
    {
      MoveKeepsPending(r.workers, w, wk, i);
    }
  }

  /** Raising a flag settles every account. */
  lemma RaiseFlag(cfg: Config, disk: Disk, r: Chunks, failed: bool)
    requires RunSound(cfg, disk, r)
    ensures RunSound(cfg, disk, if failed then r.(failed := true) else r.(fallback := true))
  {
    hide ChunkPlan.Plan, ResumeMeta.BitGet;
    var r' := if failed then r.(failed := true) else r.(fallback := true);
    forall w | 0 <= w < |r.workers|
      ensures WorkerSound(disk.file, r', w)
    {
      assert WorkerSound(disk.file, r, w);
    }
  }

  /** Taking the counter past the last chunk. */
  lemma LastClaimKeeps(cfg: Config, disk: Disk, r: Chunks, w: nat)
    requires RunSound(cfg, disk, r) && w < |r.workers| && r.workers[w].Claiming? && r.next >= |r.plan|
    ensures RunSound(cfg, disk, SetWorker(r.(next := r.next + 1), w, Stopped))
  {
    hide ChunkPlan.Plan, ResumeMeta.BitGet;
    MoveWorker(cfg, disk, r, w, Stopped);
    var r1 := SetWorker(r, w, Stopped);
    var r' := r1.(next := r.next + 1);
    forall x | 0 <= x < |r'.workers|
      ensures WorkerSound(disk.file, r', x)
    {
      assert WorkerSound(disk.file, r1, x);
    }
  }

  /** Taking the counter for chunk `next`: the claimer is on it. */
  lemma NextClaimKeeps(cfg: Config, disk: Disk, r: Chunks, w: nat)
    requires RunSound(cfg, disk, r) && w < |r.workers| && r.workers[w].Claiming? && r.next < |r.plan|
    ensures RunSound(cfg, disk, SetWorker(r.(next := r.next + 1, claims := r.claims + [r.next]), w, Claimed(r.next)))
  {
    hide ChunkPlan.Plan, ResumeMeta.BitGet;
    MoveWorker(cfg, disk, r, w, Claimed(r.next));
    var r1 := SetWorker(r, w, Claimed(r.next));
    var r' := r1.(next := r.next + 1, claims := r.claims + [r.next]);
    forall x | 0 <= x < |r'.workers|
      ensures WorkerSound(disk.file, r', x)
    {
      assert WorkerSound(disk.file, r1, x);
    }
    assert Held(r'.workers[w]) == Some(r.next);
    assert Upto(r.next) + [r.next] == Upto(r.next + 1);
  }

  lemma ClaimKeeps(cfg: Config, s: State, w: nat, c: Choice)
    requires Inv(cfg, s) && s.process.Running? && w < |s.process.r.workers| && s.process.r.workers[w].Claiming?
    ensures Inv(cfg, WorkStep(cfg, s, w, c))
  {
    hide RunShape, MarkedInFile, AllAccounted, WorkersSound, CellSound;
    if s.process.r.next < |s.process.r.plan| {
      NextClaimKeeps(cfg, s.disk, s.process.r, w);
    } else {
      LastClaimKeeps(cfg, s.disk, s.process.r, w);
    }
  }

  /** Landing `k` bytes of a chunk: the run with the new file, and the worker's two ways on. */
  lemma StreamWriteKeeps(cfg: Config, disk: Disk, r: Chunks, w: nat, k: nat)
    requires RunSound(cfg, disk, r) && w < |r.workers| && r.workers[w].Streaming?
    requires r.workers[w].i < |r.plan| && r.workers[w].got + k <= r.plan[r.workers[w].i].Size()
    requires 0 <= r.plan[r.workers[w].i].start + r.workers[w].got
    requires r.plan[r.workers[w].i].start + r.workers[w].got + k <= r.total
    ensures
      var i, got, src := r.workers[w].i, r.workers[w].got, r.workers[w].src;
      var at, size := r.plan[i].start + got, r.plan[i].Size();
      var disk' := disk.(file := Patch(disk.file, at, r.ver.content[at..at + k]));
      && RunSound(cfg, disk', SetWorker(r, w, if got + k == size then Landed(i) else Streaming(i, got + k, src)))
      && RunSound(cfg, disk', SetWorker(r, w, Fetching(i, got)))
  {
    hide ChunkPlan.Plan, Tiles, MarkedInFile, AllAccounted, PartStore.Patch;
    assert WorkerSound(disk.file, r, w);
    var i, got, src := r.workers[w].i, r.workers[w].got, r.workers[w].src;
    var at := r.plan[i].start + got;
    var disk' := disk.(file := Patch(disk.file, at, r.ver.content[at..at + k]));
    PatchRun(cfg, disk, r, at, k);
    PatchExtends(disk.file, r.ver.content, at, k, r.plan[i].start);
    PatchAgrees(disk.file, r.ver.content, at, k, r.plan[i].start, at);
    MoveWorker(cfg, disk', r, w, if got + k == r.plan[i].Size() then Landed(i) else Streaming(i, got + k, src));
    MoveWorker(cfg, disk', r, w, Fetching(i, got));
  }

  lemma StreamKeeps(cfg: Config, s: State, w: nat, c: Choice)
    requires Inv(cfg, s) && s.process.Running? && w < |s.process.r.workers|
    requires s.process.r.workers[w].Streaming? && (c.Write? || c.HalfWrite?)
    ensures Inv(cfg, WorkStep(cfg, s, w, c))
  {
    hide ChunkPlan.Plan, ResumeMeta.BitGet, PartStore.Patch, CellSound, MarkedInFile, AllAccounted;
    var r := s.process.r;
    assert WorkerSound(s.disk.file, r, w);
    var i, got := r.workers[w].i, r.workers[w].got;
    EndsBelow(r.plan, r.total, i);
    if got + c.k <= r.plan[i].Size() {
      StreamWriteKeeps(cfg, s.disk, r, w, c.k);
      PatchCell(cfg, s.disk, r.plan[i].start + got, c.k, r.ver.content);
    }
  }

  lemma StreamStopKeeps(cfg: Config, s: State, w: nat, c: Choice)
    requires Inv(cfg, s) && s.process.Running? && w < |s.process.r.workers|
    requires s.process.r.workers[w].Streaming? && !c.Write? && !c.HalfWrite?
    ensures Inv(cfg, WorkStep(cfg, s, w, c))
  {
    hide ChunkPlan.Plan, ResumeMeta.BitGet;
    var r := s.process.r;
    assert WorkerSound(s.disk.file, r, w);
    if c.Fail? {
      RaiseFlag(cfg, s.disk, r, true);
      MoveWorker(cfg, s.disk, r.(failed := true), w, Ready);
    } else {
      MoveWorker(cfg, s.disk, r, w, if c.Panic? then Panicked else Fetching(r.workers[w].i, r.workers[w].got));
    }
  }

  lemma MarkKeepsMarked(file: bytes, content: bytes, plan: seq<Range>, bitmap: bytes, i: nat)
    requires MarkedInFile(file, content, plan, bitmap) && i < |plan|
    requires Agree(file, content, plan[i].start, plan[i].end + 1)
    ensures MarkedInFile(file, content, plan, BitSet(bitmap, i))
    ensures forall j :: 0 <= j < |plan| ==> BitGet(BitSet(bitmap, i), j) == (j == i || BitGet(bitmap, j))
  {
    hide Agree, Bit, OrBit;
    forall j | 0 <= j < |plan|
      ensures BitGet(BitSet(bitmap, i), j) == (j == i || BitGet(bitmap, j))
    {
      BitSetGet(bitmap, i, j);
    }
  }

  /** Setting the bit of a landed chunk under the bitmap lock. */
  lemma MarkRun(cfg: Config, disk: Disk, r: Chunks, w: nat)
    requires RunSound(cfg, disk, r) && w < |r.workers| && r.workers[w].Landed? && r.lock.None?
    requires r.workers[w].i / 8 < |r.bitmap|
    ensures RunSound(cfg, disk,
                     SetWorker(r.(bitmap := BitSet(r.bitmap, r.workers[w].i), lock := Some(w)), w, Saving(r.workers[w].i)))
  {
    hide ChunkPlan.Plan, BitSet, BitGet, Agree;
    assert WorkerSound(disk.file, r, w);
    var i := r.workers[w].i;
    MarkKeepsMarked(disk.file, r.ver.content, r.plan, r.bitmap, i);
    var r' := SetWorker(r.(bitmap := BitSet(r.bitmap, i), lock := Some(w)), w, Saving(i));
    forall x | 0 <= x < |r'.workers|
      ensures WorkerSound(disk.file, r', x)
    {
      assert WorkerSound(disk.file, r, x);
    }
    forall j | 0 <= j < |r.plan| && j < r.next && !BitGet(r'.bitmap, j) && !r.failed && !r.fallback
      ensures Pending(r'.workers, j)
    {
      MoveKeepsPending(r.workers, w, Saving(i), j);
    }
  }

  lemma MarkKeeps(cfg: Config, s: State, w: nat, c: Choice)
    requires Inv(cfg, s) && s.process.Running? && w < |s.process.r.workers| && s.process.r.workers[w].Landed?
    ensures Inv(cfg, WorkStep(cfg, s, w, c))
  {
    hide RunShape, MarkedInFile, AllAccounted, WorkersSound, BitSet;
    if s.process.r.lock.None? && s.process.r.workers[w].i / 8 < |s.process.r.bitmap| {
      MarkRun(cfg, s.disk, s.process.r, w);
    }
  }

  lemma UnlockKeeps(cfg: Config, disk: Disk, r: Chunks, w: nat)
    requires RunSound(cfg, disk, r) && w < |r.workers| && r.workers[w].Saving?
    ensures RunSound(cfg, disk, SetWorker(r.(lock := None), w, Ready))
  {
    hide ChunkPlan.Plan, ResumeMeta.BitGet;
    var r' := SetWorker(r.(lock := None), w, Ready);
    assert WorkerSound(disk.file, r, w);
    forall x | 0 <= x < |r'.workers|
      ensures WorkerSound(disk.file, r', x)
    {
      assert WorkerSound(disk.file, r, x);
    }
    forall j | 0 <= j < |r.plan| && j < r.next && !BitGet(r.bitmap, j) && !r.failed && !r.fallback
      ensures Pending(r'.workers, j)
    {
      MoveKeepsPending(r.workers, w, Ready, j);
    }
  }

  lemma SaveKeeps(cfg: Config, s: State, w: nat, c: Choice)
    requires Inv(cfg, s) && s.process.Running? && w < |s.process.r.workers| && s.process.r.workers[w].Saving?
    ensures Inv(cfg, WorkStep(cfg, s, w, c))
  {
    var r := s.process.r;
    UnlockKeeps(cfg, s.disk, r, w);
    var s' := WorkStep(cfg, s, w, c);
    if !c.SaveFails? && !c.Tear? {
      assert CellHolds(cfg, s'.disk, r.bitmap);
    }
  }

  lemma OpenKeeps(cfg: Config, s: State, w: nat)
    requires World(cfg) && Inv(cfg, s) && s.process.Running? && w < |s.process.r.workers|
    requires s.process.r.workers[w].Fetching?
    ensures Inv(cfg, WorkStep(cfg, s, w, Open))
  {
    hide ChunkPlan.Plan, ResumeMeta.BitGet;
    var r := s.process.r;
    assert WorkerSound(s.disk.file, r, w);
    assert ToldApart(cfg, r.ver, s.cur);
    if Answers(cfg.url, IfRange(r.validators), s.cur) && |s.cur.content| == r.total {
      MoveWorker(cfg, s.disk, r, w, Streaming(r.workers[w].i, r.workers[w].got, s.cur));
    } else {
      RaiseFlag(cfg, s.disk, r, false);
      MoveWorker(cfg, s.disk, r.(fallback := true), w, Ready);
    }
  }

  lemma ReadyKeeps(cfg: Config, s: State, w: nat, c: Choice)
    requires Inv(cfg, s) && s.process.Running? && w < |s.process.r.workers| && s.process.r.workers[w].Ready?
    ensures Inv(cfg, WorkStep(cfg, s, w, c))
  {
    hide ChunkPlan.Plan, ResumeMeta.BitGet;
    var r := s.process.r;
    MoveWorker(cfg, s.disk, r, w, if c.Panic? then Panicked else if r.failed || r.fallback then Stopped else Claiming);
  }

  lemma TestKeeps(cfg: Config, s: State, w: nat, c: Choice)
    requires Inv(cfg, s) && s.process.Running? && w < |s.process.r.workers| && s.process.r.workers[w].Claimed?
    ensures Inv(cfg, WorkStep(cfg, s, w, c))
  {
    hide ChunkPlan.Plan, Bit, CellSound;
    var r := s.process.r;
    assert WorkerSound(s.disk.file, r, w);
    var i := r.workers[w].i;
    if r.lock.None? {
      if BitGet(r.bitmap, i) {
        MoveWorker(cfg, s.disk, r, w, Ready);
      } else {
        EndsBelow(r.plan, r.total, i);
        MoveWorker(cfg, s.disk, r, w, Fetching(i, 0));
      }
    }
  }

  lemma FetchFailKeeps(cfg: Config, s: State, w: nat, c: Choice)
    requires Inv(cfg, s) && s.process.Running? && w < |s.process.r.workers|
    requires s.process.r.workers[w].Fetching? && !c.Open?
    ensures Inv(cfg, WorkStep(cfg, s, w, c))
  {
    hide ChunkPlan.Plan, ResumeMeta.BitGet;
    if c.Fail? {
      RaiseFlag(cfg, s.disk, s.process.r, true);
      MoveWorker(cfg, s.disk, s.process.r.(failed := true), w, Ready);
    } else if c.Refuse? {
      RaiseFlag(cfg, s.disk, s.process.r, false);
      MoveWorker(cfg, s.disk, s.process.r.(fallback := true), w, Ready);
    }
  }

  lemma WorkKeeps(cfg: Config, s: State, w: nat, c: Choice)
    requires World(cfg) && Inv(cfg, s) && s.process.Running? && w < |s.process.r.workers|
    ensures Inv(cfg, WorkStep(cfg, s, w, c))
  {
    match s.process.r.workers[w]
    case Ready => ReadyKeeps(cfg, s, w, c);
    case Claiming => ClaimKeeps(cfg, s, w, c);
    case Claimed(_) => TestKeeps(cfg, s, w, c);
    case Fetching(_, _) =>
      if c.Open? {
        OpenKeeps(cfg, s, w);
      } else {
        FetchFailKeeps(cfg, s, w, c);
      }
    case Streaming(_, _, _) =>
      if c.Write? || c.HalfWrite? {
        StreamKeeps(cfg, s, w, c);
      } else {
        StreamStopKeeps(cfg, s, w, c);
      }
    case Landed(_) => MarkKeeps(cfg, s, w, c);
    case Saving(_) => SaveKeeps(cfg, s, w, c);
    case _ =>
  }

  lemma JoinKeeps(cfg: Config, s: State)
    requires Inv(cfg, s) && s.process.Running?
    ensures Inv(cfg, JoinAll(s))
  {
    var r := s.process.r;
    if JoinAll(s).process.Done? {
      assert WorkerSound(s.disk.file, r, 0);
      assert r.workers[0] in r.workers;
      forall w | 0 <= w < |r.workers|
        ensures r.workers[w].Stopped?
      {
        assert r.workers[w] in r.workers;
      }
    }
  }

  lemma StepKeeps(cfg: Config, s: State, e: Event)
    requires World(cfg) && Inv(cfg, s) && !Clobbers(s, e)
    ensures Inv(cfg, Apply(cfg, s, e))
  {
    match e
    case Start(layout, parallelism) =>
      if s.process.Down? && layout in cfg.layouts {
        StartKeeps(cfg, s, layout, parallelism);
      }
    case Boot(c) =>
      if s.process.Asking? {
        AskKeeps(cfg, s, c);
      } else if s.process.Copying? {
        CopyKeeps(cfg, s, c);
      } else if s.process.Booting? {
        BootKeeps(cfg, s, c);
      }
    case Work(w, c) =>
      if s.process.Running? && w < |s.process.r.workers| {
        WorkKeeps(cfg, s, w, c);
      }
    case Join =>
      if s.process.Running? {
        JoinKeeps(cfg, s);
      }
    case _ =>
  }

  lemma {:induction false} RunKeeps(cfg: Config, s: State, es: seq<Event>)
    requires World(cfg) && Inv(cfg, s) && Unclobbered(cfg, s, es)
    ensures Inv(cfg, Run(cfg, s, es))
    decreases |es|
  {
    if es != [] {
      StepKeeps(cfg, s, es[0]);
      RunKeeps(cfg, Apply(cfg, s, es[0]), es[1..]);
    }
  }

  // ---- the promises -----------------------------------------------------------------------------

  lemma MarkedEverywhere(file: bytes, content: bytes, plan: seq<Range>, bitmap: bytes)
    requires Tiles(plan, |content|) && |content| <= |file| && MarkedInFile(file, content, plan, bitmap)
    requires forall i :: 0 <= i < |plan| ==> BitGet(bitmap, i)
    ensures file[..|content|] == content
  {
    forall at | 0 <= at < |content|
      ensures file[at] == content[at]
    {
      var i := OneChunkPerByte(plan, |content|, at, 0);
      assert BitGet(bitmap, i);
    }
  }

  /** What Ok of `run_chunks` means. */
  ghost predicate Complete(cfg: Config, s: State, r: Chunks) {
    && r.claims == Upto(|r.plan|)
    && |r.bitmap| == DivCeil(|r.plan|, 8)
    && (forall i :: 0 <= i < |r.plan| ==> i / 8 < |r.bitmap| && BitGet(r.bitmap, i))
    && r.ver in cfg.versions && r.validators == ValidatorsOf(cfg.url, r.ver)
    && r.total == |r.ver.content| <= |s.disk.file| && s.disk.file[..r.total] == r.ver.content
  }

  /**
   Segmented completeness, over every interleaving, crash, restart, layout change and
   resource change without clobbering: when `run_chunks` returns Ok, every chunk index was claimed exactly
   once, every bit is set, and the file is one whole version, the one its validators name.
   */
  lemma SegmentedComplete(cfg: Config, s0: State, es: seq<Event>)
    requires World(cfg) && Init(cfg, s0) && Unclobbered(cfg, s0, es)
    ensures
      var s := Run(cfg, s0, es);
      s.process.Done? ==> Complete(cfg, s, s.process.r)
  {
    RunKeeps(cfg, s0, es);
    var s := Run(cfg, s0, es);
    if s.process.Done? {
      var r := s.process.r;
      forall i | 0 <= i < |r.plan|
        ensures i / 8 < |r.bitmap| && BitGet(r.bitmap, i)
      {
        assert Panicked !in r.workers;
      }
      MarkedEverywhere(s.disk.file, r.ver.content, r.plan, r.bitmap);
    }
  }

  /** What `Full` of `bootstrap` means: the bytes received are a prefix of one version. */
  lemma FullBodyIsOneVersion(cfg: Config, s0: State, es: seq<Event>)
    requires World(cfg) && Init(cfg, s0) && Unclobbered(cfg, s0, es)
    ensures
      var s := Run(cfg, s0, es);
      s.process.Full? ==>
        var w, n := s.process.ver, s.process.size;
        w in cfg.versions && n <= |w.content| && n <= |s.disk.file| && s.disk.file[..n] == w.content[..n]
  {
    RunKeeps(cfg, s0, es);
    var s := Run(cfg, s0, es);
    if s.process.Full? {
      assert Agree(s.disk.file, s.process.ver.content, 0, s.process.size);
    }
  }

  /** A bitmap a restart would trust marks only chunks whose bytes, of the version it names, are all in the file. */
  ghost predicate Trustworthy(cfg: Config, file: bytes, d: Resumed, v: Version) {
    && v in cfg.versions && ValidatorsOf(cfg.url, v) == d.validators && |v.content| == d.total
    && MarkedInFile(file, v.content, d.plan, d.bitmap)
  }

  /** Crash safety: in every state reached without clobbering, with whatever layout the next run is started. */
  lemma CrashSafe(cfg: Config, s0: State, es: seq<Event>, layout: Options)
    requires World(cfg) && Init(cfg, s0) && Unclobbered(cfg, s0, es) && layout in cfg.layouts
    ensures
      var s := Run(cfg, s0, es);
      var d := ResumeRanged(cfg, layout, s.disk.cell);
      d.Some? ==> exists v :: Trustworthy(cfg, s.disk.file, d.value, v)
  {
    RunKeeps(cfg, s0, es);
    var s := Run(cfg, s0, es);
    ResumeIsSound(cfg, s.disk, layout);
    var d := ResumeRanged(cfg, layout, s.disk.cell);
    assert d.Some? ==> Trustworthy(cfg, s.disk.file, d.value, s.disk.cellVer);
  }
}
