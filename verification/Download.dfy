/**
 A whole download of src/download.rs (`Downloader::run`): the segmented mode, and the
 single stream it falls back to, over one store. Whatever either leaves on disk is a sound
 start for both.
 */
module Download {
  import opened Basics
  import opened ResumeMeta
  import opened ChunkPlan
  import opened Origin
  import opened PartStore
  import Segmented
  import SingleStream
  import SegmentedRuns

  datatype Config = Config(url: bytes, layouts: seq<Options>, versions: seq<Version>, planKey: seq<Range> -> nat, maxSize: Option<nat>)

  function InSegments(cfg: Config): Segmented.Config {
    Segmented.Config(cfg.url, cfg.layouts, cfg.versions, cfg.planKey)
  }

  function InOneStream(cfg: Config): SingleStream.Config {
    SingleStream.Config(cfg.url, cfg.versions, cfg.maxSize)
  }

  ghost predicate World(cfg: Config) {
    Segmented.World(InSegments(cfg)) && SingleStream.World(InOneStream(cfg))
  }

  /** Either mode may start from this disk. */
  ghost predicate DiskSound(cfg: Config, disk: Segmented.Disk) {
    && Segmented.CellSound(InSegments(cfg), disk)
    && exists ver :: SingleStream.StateSound(InOneStream(cfg), disk.file, disk.cell, ver)
  }

  predicate Streamed(cell: Option<ResumeState>) {
    cell.Some? && cell.value.kind == HttpStream
  }

  /** A state of the single stream outlives only the time before a segmented run touches the file. */
  ghost predicate StreamKept(s0: Segmented.State, s: Segmented.State) {
    Streamed(s.disk.cell) ==>
      s.disk == s0.disk && (s.process.Down? || s.process.Asking? || s.process.FellBack? || s.process.Failed?)
  }

  lemma StepKeepsStream(cfg: Segmented.Config, s0: Segmented.State, s: Segmented.State, e: Segmented.Event)
    requires StreamKept(s0, s) && !e.Single? && !Segmented.Clobbers(s, e)
    ensures StreamKept(s0, Segmented.Apply(cfg, s, e))
  {
    hide Segmented.ResumeRanged, ChunkPlan.Plan, PartStore.Patch, ResumeMeta.BitGet, ResumeMeta.BitSet, Origin.Answers;
    match e
    case Start(layout, parallelism) => ResumeNeedsRanged(cfg, layout, s.disk.cell);
    case _ =>
  }

  lemma ResumeNeedsRanged(cfg: Segmented.Config, layout: Options, cell: Option<ResumeState>)
    ensures Segmented.ResumeRanged(cfg, layout, cell).Some? ==> !Streamed(cell)
  {
  }

  lemma {:induction false} RunKeepsStream(cfg: Segmented.Config, s0: Segmented.State, s: Segmented.State, es: seq<Segmented.Event>)
    requires StreamKept(s0, s) && Segmented.Unclobbered(cfg, s, es) && forall i :: 0 <= i < |es| ==> !es[i].Single?
    ensures StreamKept(s0, Segmented.Run(cfg, s, es))
    decreases |es|
  {
    hide Segmented.Apply, StreamKept;
    if es != [] {
      StepKeepsStream(cfg, s0, s, es[0]);
      RunKeepsStream(cfg, s0, Segmented.Apply(cfg, s, es[0]), es[1..]);
    }
  }

  lemma OnlyStreamsMatter(cfg: SingleStream.Config, file: bytes, cell: Option<ResumeState>, ver: Version)
    ensures !Streamed(cell) ==> SingleStream.StateSound(cfg, file, cell, ver)
  {
  }

  lemma OnlyRangesMatter(cfg: Segmented.Config, disk: Segmented.Disk)
    ensures !SingleStream.Ranged(disk.cell) ==> Segmented.CellSound(cfg, disk)
  {
  }

  /** However a segmented run goes without clobbering, and wherever it is killed, the disk it leaves is a sound start for both modes. */
  lemma SegmentedLeavesSound(cfg: Config, s0: Segmented.State, es: seq<Segmented.Event>)
    requires World(cfg) && s0.cur in cfg.versions && s0.process == Segmented.Down && DiskSound(cfg, s0.disk)
    requires Segmented.Unclobbered(InSegments(cfg), s0, es) && forall i :: 0 <= i < |es| ==> !es[i].Single?
    ensures DiskSound(cfg, Segmented.Run(InSegments(cfg), s0, es).disk)
  {
    hide Segmented.Run, SingleStream.StateSound, Segmented.CellSound, Segmented.World, SingleStream.World;
    Segmented.RunKeeps(InSegments(cfg), s0, es);
    RunKeepsStream(InSegments(cfg), s0, s0, es);
    var disk := Segmented.Run(InSegments(cfg), s0, es).disk;
    if !Streamed(disk.cell) {
      OnlyStreamsMatter(InOneStream(cfg), disk.file, disk.cell, s0.cur);
    }
  }

  /** What a download has published: a prefix of one version. */
  ghost predicate OneVersion(cfg: Config, published: bytes, ver: Version) {
    ver in cfg.versions && published <= ver.content
  }

  /** A file received to its end: published if the hash check accepts it. */
  function Checked(accept: bytes -> bool, content: bytes): Option<bytes> {
    if accept(content) then Some(content) else None
  }

  /** How the single stream after a fall back ended, after how many attempts. */
  datatype Fall = Fall(out: SingleStream.Outcome, attempts: nat)

  /** What a run of the single stream from position `p` publishes. */
  ghost predicate FallPublishes(cfg: SingleStream.Config, env: nat -> SingleStream.Intent, p: SingleStream.Position,
                                maxRetries: nat, limit: nat, fall: Fall, accept: bytes -> bool,
                                published: Option<bytes>, ver: Version)
  {
    && SingleStream.RunEnds(cfg, env, p, maxRetries, limit, fall.attempts, fall.out)
    && (published.Some? <==> fall.out.Finished?)
    && (fall.attempts > 0 && SingleStream.Nth(cfg, env, p, fall.attempts - 1).Done? ==>
          var written := SingleStream.Nth(cfg, env, p, fall.attempts - 1).written;
          written <= |ver.content| && published == Checked(accept, ver.content[..written]))
    && (fall.out.Finished? ==>
          fall.attempts > 0
          && (published == Some(ver.content) <==> !SingleStream.CutShort(SingleStream.LastReply(cfg, env, p, fall.attempts))))
  }

  /**
   One run of the program over a store left by others: a segmented run that goes through the
   events `es` without clobbering and then, if it fell back, the single stream. What is
   received to its end is published exactly when the hash check accepts it, and is one
   version: whole from `run_chunks`, as far as the body went otherwise. What is left
   where nothing is published is a sound start again.
   */
  method RunDownload(cfg: Config, store: Store, s0: Segmented.State, es: seq<Segmented.Event>,
                     env: nat -> SingleStream.Intent, maxRetries: nat, limit: nat, accept: bytes -> bool)
    returns (published: Option<bytes>, ghost ver: Version, ghost disk: Segmented.Disk, fall: Option<Fall>)
    requires World(cfg) && s0.cur in cfg.versions && s0.process == Segmented.Down && DiskSound(cfg, s0.disk)
    requires store.file == s0.disk.file && store.state == s0.disk.cell
    requires Segmented.Unclobbered(InSegments(cfg), s0, es) && forall i :: 0 <= i < |es| ==> !es[i].Single?
    requires forall k :: SingleStream.Serves(InOneStream(cfg), env(k))
    modifies store
    ensures published.Some? ==> OneVersion(cfg, published.value, ver)
    ensures published.None? ==> DiskSound(cfg, disk) && disk.file == store.file && disk.cell == store.state
    // what comes of each way the segmented run can end
    ensures
      var s := Segmented.Run(InSegments(cfg), s0, es);
      match s.process
      case Done(r) => ver == r.ver && published == Checked(accept, r.ver.content)
      case Full(w, size) => ver == w && size <= |w.content| && published == Checked(accept, w.content[..size])
      case FellBack =>
        && fall.Some?
        && FallPublishes(InOneStream(cfg), env, SingleStream.Opening(cfg.url, s.disk.cell), maxRetries, limit, fall.value,
                         accept, published, ver)
      case _ => published.None? && disk == s.disk
    ensures fall.Some? <==> Segmented.Run(InSegments(cfg), s0, es).process.FellBack?
  {
    hide Segmented.Run, SingleStream.StateSound, Segmented.CellSound, Segmented.World, SingleStream.World, SingleStream.RunEnds,
      SingleStream.ReplyAt, SingleStream.CutShort, SingleStream.Nth, SingleStream.LastReply, Segmented.Unclobbered;
    var s := Segmented.Run(InSegments(cfg), s0, es);
    SegmentedLeavesSound(cfg, s0, es);
    store.file, store.state := s.disk.file, s.disk.cell;
    published, disk, ver, fall := None, s.disk, s0.cur, None;
    match s.process {
      case Done(r) =>
        Segmented.SegmentedComplete(InSegments(cfg), s0, es);
        published, ver, disk := Publish(cfg, store, r.ver, r.total, accept);
      case Full(w, size) =>
        Segmented.FullBodyIsOneVersion(InSegments(cfg), s0, es);
        published, ver, disk := Publish(cfg, store, w, size, accept);
      case FellBack =>
        ghost var ver0 :| SingleStream.StateSound(InOneStream(cfg), s.disk.file, s.disk.cell, ver0);
        var out, attempts;
        out, attempts, ver := SingleStream.RunSingle(InOneStream(cfg), store, env, maxRetries, limit, accept, ver0);
        fall := Some(Fall(out, attempts));
        FinishedIsDone(InOneStream(cfg), env, SingleStream.Opening(cfg.url, s.disk.cell), maxRetries, limit, attempts, out);
        if out.Finished? {
          published := Some(store.file);
        } else {
          disk := Segmented.Disk(store.file, store.state, s.disk.cellVer, s.disk.cellPlan);
          OnlyRangesMatter(InSegments(cfg), disk);
          if SingleStream.Ranged(disk.cell) {
            assert disk == s.disk;
          }
        }
      case _ =>
    }
  }

  lemma FinishedIsDone(cfg: SingleStream.Config, env: nat -> SingleStream.Intent, p: SingleStream.Position,
                       maxRetries: nat, limit: nat, n: nat, out: SingleStream.Outcome)
    requires SingleStream.RunEnds(cfg, env, p, maxRetries, limit, n, out)
    ensures out.Finished? ==> n > 0 && SingleStream.Nth(cfg, env, p, n - 1) == SingleStream.Done(out.written)
    ensures n > 0 && SingleStream.Nth(cfg, env, p, n - 1).Done? && !out.Finished? ==> out.Failed?
  {
    hide SingleStream.Nth;
  }

  /** verify_and_finalize of what a segmented run has received. */
  method Publish(cfg: Config, store: Store, w: Version, size: nat, accept: bytes -> bool)
    returns (published: Option<bytes>, ghost ver: Version, ghost disk: Segmented.Disk)
    requires size <= |store.file| && size <= |w.content| && store.file[..size] == w.content[..size]
    modifies store
    ensures ver == w && published == Checked(accept, w.content[..size])
    ensures published.None? ==> DiskSound(cfg, disk) && disk.file == store.file && disk.cell == store.state
  {
    ver, published := w, None;
    disk := Segmented.Disk([], None, w, []);
    NothingLeft(cfg, disk, w);
    var ok := SingleStream.VerifyAndFinalize(store, size, accept);
    if ok {
      published := Some(store.file);
    }
  }

  lemma NothingLeft(cfg: Config, disk: Segmented.Disk, ver: Version)
    requires disk.cell == None
    ensures DiskSound(cfg, disk)
  {
    OnlyRangesMatter(InSegments(cfg), disk);
    OnlyStreamsMatter(InOneStream(cfg), disk.file, disk.cell, ver);
  }

  // ---- a state of the single stream can be clobbered too ------------------------------------------------

  const PAIR: Config :=
    Config([], [SegmentedRuns.BY_ONE, SegmentedRuns.BY_TWO], [SegmentedRuns.ONES, SegmentedRuns.TWOS], SegmentedRuns.CountKey, None)

  /** One byte of a version of two, saved by the single stream. */
  const HELD: Segmented.Disk :=
    Segmented.Disk([1, 0], Some(ResumeState(2, HttpStream, StreamMeta(2, 1, ValidatorsOf([], SegmentedRuns.ONES)))),
                   SegmentedRuns.ONES, [])

  lemma HeldLoads()
    ensures SingleStream.LoadStream([], HELD.cell) == Some((1, ValidatorsOf([], SegmentedRuns.ONES), 2))
  {
    StreamMetaRoundTrip(2, 1, ValidatorsOf([], SegmentedRuns.ONES));
  }

  lemma PairWorld()
    ensures World(PAIR)
  {
    hide Segmented.World;
    SegmentedRuns.PairWorld();
    assert InSegments(PAIR) == SegmentedRuns.PAIR;
  }

  lemma HeldIsSound()
    ensures DiskSound(PAIR, HELD)
  {
    HeldLoads();
    var held: bytes := [1, 0];
    assert held[0] == SegmentedRuns.ONES.content[0];
    assert SingleStream.StateSound(InOneStream(PAIR), HELD.file, HELD.cell, SegmentedRuns.ONES);
  }

  lemma ClobberedHeld(ver: Version)
    ensures !SingleStream.StateSound(InOneStream(PAIR), [2, 0], HELD.cell, ver)
  {
    HeldLoads();
    var held: bytes := [2, 0];
    assert ver == SegmentedRuns.ONES ==> held[0] != ver.content[0];
  }

  /** A segmented run that copies a body of unknown length over the state of a single stream leaves it false of the file. */
  lemma StreamIsClobbered()
    ensures World(PAIR) && DiskSound(PAIR, HELD)
    ensures !DiskSound(PAIR, Segmented.Run(InSegments(PAIR), SegmentedRuns.LEFT.(disk := HELD), SegmentedRuns.CLOBBERING).disk)
  {
    hide Segmented.Run, Segmented.World, SingleStream.StateSound;
    PairWorld();
    HeldIsSound();
    assert InSegments(PAIR) == SegmentedRuns.PAIR;
    SegmentedRuns.ClobberingRun(HELD);
    forall ver: Version
      ensures !SingleStream.StateSound(InOneStream(PAIR), [2, 0], HELD.cell, ver)
    {
      ClobberedHeld(ver);
    }
  }
}
