/**
 Runs of the segmented mode: that an undisturbed one finishes, that a fetched chunk is a
 run of worker steps, and what the one unguarded branch of `bootstrap` does to a saved state.
 */
module SegmentedRuns {
  import opened Basics
  import opened ResumeMeta
  import opened ChunkPlan
  import opened Origin
  import opened PartStore
  import opened Segmented
  import ChunkFetch

  lemma {:induction false} RunAppend(cfg: Config, s: State, es: seq<Event>, fs: seq<Event>)
    ensures Run(cfg, s, es + fs) == Run(cfg, Run(cfg, s, es), fs)
    decreases |es|
  {
    hide Apply;
    if es == [] {
      assert es + fs == fs;
    } else {
      assert (es + fs)[0] == es[0] && (es + fs)[1..] == es[1..] + fs;
      RunAppend(cfg, Apply(cfg, s, es[0]), es[1..], fs);
    }
  }

  lemma OneEvent(cfg: Config, s: State, e: Event)
    ensures Run(cfg, s, [e]) == Apply(cfg, s, e)
  {
    hide Apply;
    assert [e][1..] == [];
  }

  /** Only steps of the one worker, and the join. */
  predicate WorkOnly(es: seq<Event>) {
    forall i :: 0 <= i < |es| ==> es[i].Work? || es[i].Join?
  }

  lemma {:induction false} WorkNeverClobbers(cfg: Config, s: State, es: seq<Event>)
    requires WorkOnly(es)
    ensures Unclobbered(cfg, s, es)
    decreases |es|
  {
    hide Apply;
    if es != [] {
      WorkNeverClobbers(cfg, Apply(cfg, s, es[0]), es[1..]);
    }
  }

  // ---- an undisturbed run finishes ---------------------------------------------------------------

  /** One worker between chunks, and a server that still answers with what was planned for. */
  ghost predicate Alone(cfg: Config, s: State) {
    && s.process.Running?
    && var r := s.process.r;
       && r.workers == [Ready] && r.lock == None && !r.failed && !r.fallback
       && |r.bitmap| == DivCeil(|r.plan|, 8) && Tiles(r.plan, r.total) && r.next <= |r.plan|
       && Answers(cfg.url, IfRange(r.validators), s.cur) && |s.cur.content| == r.total
  }

  lemma BitmapHolds(plan: seq<Range>, bitmap: bytes, i: nat)
    requires |bitmap| == DivCeil(|plan|, 8) && i < |plan|
    ensures i / 8 < |bitmap|
  {
  }

  /** Chunk `i` of the run has been settled: the one step of a run of its own. */
  ghost predicate Settled(s: State, s': State) {
    && s.process.Running? && s'.process.Running? && s'.cur == s.cur
    && var r, r' := s.process.r, s'.process.r;
       var i := r.next;
       && i < |r.plan| && i / 8 < |r.bitmap|
       && r' == r.(bitmap := r'.bitmap, next := i + 1, claims := r'.claims)
       && var range := r.plan[i];
          && 0 <= range.start <= range.end < |s.cur.content|
          && r'.bitmap == (if BitGet(r.bitmap, i) then r.bitmap else BitSet(r.bitmap, i))
          && s'.disk.file == if BitGet(r.bitmap, i) then s.disk.file
                             else Patch(s.disk.file, range.start, s.cur.content[range.start..range.end + 1])
  }

  lemma SettledAlone(cfg: Config, s: State, s': State)
    requires Alone(cfg, s) && Settled(s, s')
    ensures Alone(cfg, s')
  {
    hide Tiles, BitGet, PartStore.Patch, Answers, OrBit;
  }

  /** The next chunk is skipped if it is marked, else fetched, marked and saved. */
  lemma OneChunk(cfg: Config, s: State) returns (es: seq<Event>)
    requires Alone(cfg, s) && s.process.r.next < |s.process.r.plan|
    ensures WorkOnly(es) && Settled(s, Run(cfg, s, es)) && Alone(cfg, Run(cfg, s, es))
  {
    hide Tiles, BitGet, BitSet, PartStore.Patch, Answers, RangedMeta, Plan, ResumeRanged, Run, DivCeil;
    var r := s.process.r;
    var i := r.next;
    BitmapHolds(r.plan, r.bitmap, i);
    RangeFits(r.plan, r.total, i);
    ClaimSteps(cfg, s);
    es := [Work(0, Proceed), Work(0, Proceed), Work(0, Proceed)];
    if !BitGet(r.bitmap, i) {
      var more := [Work(0, Open), Work(0, Write(r.plan[i].Size())), Work(0, Proceed), Work(0, Proceed)];
      FetchSteps(cfg, Run(cfg, s, es), i);
      RunAppend(cfg, s, es, more);
      es := es + more;
    }
    SettledAlone(cfg, s, Run(cfg, s, es));
  }

  lemma RangeFits(plan: seq<Range>, total: nat, i: nat)
    requires Tiles(plan, total) && i < |plan|
    ensures 0 <= plan[i].start <= plan[i].end < total
  {
    EndsBelow(plan, total, i);
    if i > 0 {
      StartsIncrease(plan, total, 0, i);
    }
  }

  lemma SetOne(r: Chunks, wk: Worker)
    requires |r.workers| == 1
    ensures SetWorker(r, 0, wk) == r.(workers := [wk])
  {
    assert r.workers[0 := wk] == [wk];
  }

  /** A step of the one worker. */
  lemma WorkOne(cfg: Config, s: State, c: Choice)
    requires s.process.Running? && |s.process.r.workers| == 1
    ensures Run(cfg, s, [Work(0, c)]) == WorkStep(cfg, s, 0, c)
  {
    hide WorkStep;
    OneEvent(cfg, s, Work(0, c));
  }

  lemma ReadyStep(cfg: Config, s: State)
    requires s.process.Running? && s.process.r.workers == [Ready] && !s.process.r.failed && !s.process.r.fallback
    ensures Run(cfg, s, [Work(0, Proceed)]) == s.(process := Running(s.process.r.(workers := [Claiming])))
  {
    WorkOne(cfg, s, Proceed);
    SetOne(s.process.r, Claiming);
  }

  lemma ClaimStep(cfg: Config, s: State)
    requires s.process.Running? && s.process.r.workers == [Claiming]
    ensures
      var r := s.process.r;
      var next := r.(next := r.next + 1);
      Run(cfg, s, [Work(0, Proceed)])
      == s.(process := Running(if r.next < |r.plan| then next.(claims := r.claims + [r.next], workers := [Claimed(r.next)])
                               else next.(workers := [Stopped])))
  {
    var r := s.process.r;
    WorkOne(cfg, s, Proceed);
    SetOne(r.(next := r.next + 1), Stopped);
    SetOne(r.(next := r.next + 1, claims := r.claims + [r.next]), Claimed(r.next));
  }

  lemma TestStep(cfg: Config, s: State, i: nat)
    requires s.process.Running? && s.process.r.workers == [Claimed(i)] && s.process.r.lock == None && i / 8 < |s.process.r.bitmap|
    ensures Run(cfg, s, [Work(0, Proceed)])
         == s.(process := Running(s.process.r.(workers := [if BitGet(s.process.r.bitmap, i) then Ready else Fetching(i, 0)])))
  {
    hide BitGet;
    WorkOne(cfg, s, Proceed);
    SetOne(s.process.r, Ready);
    SetOne(s.process.r, Fetching(i, 0));
  }

  lemma OpenStep(cfg: Config, s: State, i: nat)
    requires s.process.Running? && s.process.r.workers == [Fetching(i, 0)]
    requires Answers(cfg.url, IfRange(s.process.r.validators), s.cur) && |s.cur.content| == s.process.r.total
    ensures Run(cfg, s, [Work(0, Open)]) == s.(process := Running(s.process.r.(workers := [Streaming(i, 0, s.cur)])))
  {
    hide Answers;
    WorkOne(cfg, s, Open);
    SetOne(s.process.r, Streaming(i, 0, s.cur));
  }

  lemma WriteAllStep(cfg: Config, s: State, i: nat)
    requires s.process.Running? && s.process.r.workers == [Streaming(i, 0, s.cur)] && i < |s.process.r.plan|
    requires 0 <= s.process.r.plan[i].start <= s.process.r.plan[i].end < |s.cur.content|
    ensures
      var range := s.process.r.plan[i];
      Run(cfg, s, [Work(0, Write(range.Size()))])
      == s.(disk := s.disk.(file := Patch(s.disk.file, range.start, s.cur.content[range.start..range.end + 1])),
            process := Running(s.process.r.(workers := [Landed(i)])))
  {
    hide PartStore.Patch;
    WorkOne(cfg, s, Write(s.process.r.plan[i].Size()));
    SetOne(s.process.r, Landed(i));
  }

  lemma MarkStep(cfg: Config, s: State, i: nat)
    requires s.process.Running? && s.process.r.workers == [Landed(i)] && s.process.r.lock == None && i / 8 < |s.process.r.bitmap|
    ensures
      var r := s.process.r;
      Run(cfg, s, [Work(0, Proceed)])
      == s.(process := Running(r.(bitmap := BitSet(r.bitmap, i), lock := Some(0), workers := [Saving(i)])))
  {
    hide BitSet;
    var r := s.process.r;
    WorkOne(cfg, s, Proceed);
    SetOne(r.(bitmap := BitSet(r.bitmap, i), lock := Some(0)), Saving(i));
  }

  lemma SaveStep(cfg: Config, s: State, i: nat)
    requires s.process.Running? && s.process.r.workers == [Saving(i)]
    ensures
      var r := s.process.r;
      Run(cfg, s, [Work(0, Proceed)])
      == s.(disk := Saved(s.disk, r.total, RangedMeta(r.key, r.total, r.validators, r.bitmap), r.ver, r.plan),
            process := Running(r.(lock := None, workers := [Ready])))
  {
    hide RangedMeta;
    WorkOne(cfg, s, Proceed);
    SetOne(s.process.r.(lock := None), Ready);
  }

  /** Claiming the next chunk and testing its bit. */
  lemma ClaimSteps(cfg: Config, s: State)
    requires Alone(cfg, s) && s.process.r.next < |s.process.r.plan| && s.process.r.next / 8 < |s.process.r.bitmap|
    ensures
      var r := s.process.r;
      var i := r.next;
      Run(cfg, s, [Work(0, Proceed), Work(0, Proceed), Work(0, Proceed)])
      == s.(process := Running(r.(next := i + 1, claims := r.claims + [i],
                                  workers := [if BitGet(r.bitmap, i) then Ready else Fetching(i, 0)])))
  {
    hide Tiles, BitGet, Answers, Run;
    var r, e := s.process.r, Work(0, Proceed);
    var s1 := Run(cfg, s, [e]);
    ReadyStep(cfg, s);
    var s2 := Run(cfg, s1, [e]);
    ClaimStep(cfg, s1);
    TestStep(cfg, s2, r.next);
    assert [e, e, e] == [e] + [e] + [e];
    RunAppend(cfg, s, [e] + [e], [e]);
    RunAppend(cfg, s, [e], [e]);
  }

  /** Fetching a chunk in one reply, marking it and saving the bitmap. */
  lemma FetchSteps(cfg: Config, s: State, i: nat)
    requires s.process.Running?
    requires var r := s.process.r;
      && r.workers == [Fetching(i, 0)] && r.lock == None && i < |r.plan| && i / 8 < |r.bitmap|
      && 0 <= r.plan[i].start <= r.plan[i].end < r.total
      && Answers(cfg.url, IfRange(r.validators), s.cur) && |s.cur.content| == r.total
    ensures
      var r := s.process.r;
      var range, bitmap := r.plan[i], BitSet(r.bitmap, i);
      Run(cfg, s, [Work(0, Open), Work(0, Write(range.Size())), Work(0, Proceed), Work(0, Proceed)])
      == s.(disk := Saved(s.disk.(file := Patch(s.disk.file, range.start, s.cur.content[range.start..range.end + 1])),
                          r.total, RangedMeta(r.key, r.total, r.validators, bitmap), r.ver, r.plan),
            process := Running(r.(bitmap := bitmap, workers := [Ready])))
  {
    hide BitGet, BitSet, PartStore.Patch, Answers, RangedMeta, Run;
    var range := s.process.r.plan[i];
    var a, b, c := Work(0, Open), Work(0, Write(range.Size())), Work(0, Proceed);
    var s1 := Run(cfg, s, [a]);
    OpenStep(cfg, s, i);
    var s2 := Run(cfg, s1, [b]);
    WriteAllStep(cfg, s1, i);
    var s3 := Run(cfg, s2, [c]);
    MarkStep(cfg, s2, i);
    SaveStep(cfg, s3, i);
    assert [a, b, c, c] == [a] + [b] + [c] + [c];
    RunAppend(cfg, s, [a] + [b] + [c], [c]);
    RunAppend(cfg, s, [a] + [b], [c]);
    RunAppend(cfg, s, [a], [b]);
  }

  /** Past the last chunk the worker stops and the run is done. */
  lemma LastSteps(cfg: Config, s: State)
    requires Alone(cfg, s) && s.process.r.next == |s.process.r.plan|
    ensures
      var s' := Run(cfg, s, [Work(0, Proceed), Work(0, Proceed), Join]);
      s'.process.Done? && s'.process.r.ver == s.process.r.ver && s'.disk == s.disk
  {
    hide Tiles, Answers, Run;
    var e := Work(0, Proceed);
    var s1 := Run(cfg, s, [e]);
    ReadyStep(cfg, s);
    var s2 := Run(cfg, s1, [e]);
    ClaimStep(cfg, s1);
    assert Panicked !in [Stopped];
    assert [e, e, Join] == [e] + [e] + [Join];
    RunAppend(cfg, s, [e] + [e], [Join]);
    RunAppend(cfg, s, [e], [e]);
    OneEvent(cfg, s2, Join);
  }

  /** Left alone, a worker brings the run to its end. */
  lemma {:induction false} AloneFinishes(cfg: Config, s: State) returns (es: seq<Event>)
    requires Alone(cfg, s)
    ensures WorkOnly(es) && Run(cfg, s, es).process.Done?
    decreases |s.process.r.plan| - s.process.r.next
  {
    hide Run, Alone;
    AloneBounds(cfg, s);
    var r := s.process.r;
    if r.next == |r.plan| {
      LastSteps(cfg, s);
      es := [Work(0, Proceed), Work(0, Proceed), Join];
    } else {
      var steps := OneChunk(cfg, s);
      var rest := AloneFinishes(cfg, Run(cfg, s, steps));
      RunAppend(cfg, s, steps, rest);
      es := steps + rest;
    }
  }

  lemma AloneBounds(cfg: Config, s: State)
    requires Alone(cfg, s)
    ensures s.process.Running? && s.process.r.next <= |s.process.r.plan|
  {
  }

  /** The resource is the one, if any, that the saved state would be resumed for. */
  ghost predicate Unchanged(cfg: Config, s: State, layout: Options) {
    var d := ResumeRanged(cfg, layout, s.disk.cell);
    d.Some? ==> d.value.validators == ValidatorsOf(cfg.url, s.cur) && d.value.total == |s.cur.content|
  }

  /** Starting with one worker: resuming, or the first chunk in one reply. */
  lemma StartsAlone(cfg: Config, s: State, layout: Options) returns (es: seq<Event>)
    requires World(cfg) && Inv(cfg, s) && s.process.Down? && layout in cfg.layouts && Unchanged(cfg, s, layout)
    requires s.cur.content != [] && Plan(layout, |s.cur.content|).Some?
    ensures Alone(cfg, Run(cfg, s, es)) && Unclobbered(cfg, s, es)
    ensures forall i :: 0 <= i < |es| ==> es[i].Start? || es[i].Boot?
  {
    hide Plan, Tiles, RangedMeta, Inv, World;
    WorldSizes(cfg, s);
    PlanTiles(layout, |s.cur.content|);
    if ResumeRanged(cfg, layout, s.disk.cell).Some? {
      es := [Start(layout, 1)];
      OneEvent(cfg, s, es[0]);
      assert es[1..] == [];
      ResumesAlone(cfg, s, layout);
    } else {
      es := BootSteps(layout, Plan(layout, |s.cur.content|).value);
      BootsAlone(cfg, s, layout);
    }
  }

  lemma WorldSizes(cfg: Config, s: State)
    requires World(cfg) && Inv(cfg, s)
    ensures |s.cur.content| < U64_LIMIT
  {
  }

  lemma SameAnswers(cfg: Config, v: Version)
    ensures Answers(cfg.url, IfRange(ValidatorsOf(cfg.url, v)), v)
  {
  }

  lemma ResumesAlone(cfg: Config, s: State, layout: Options)
    requires World(cfg) && Inv(cfg, s) && s.process.Down? && layout in cfg.layouts && Unchanged(cfg, s, layout)
    requires ResumeRanged(cfg, layout, s.disk.cell).Some?
    ensures Alone(cfg, Apply(cfg, s, Start(layout, 1)))
  {
    hide RangedMeta, ParseRangedMeta, Tiles, MarkedInFile, Answers;
    SameAnswers(cfg, s.cur);
    ResumeIsSound(cfg, s.disk, layout);
    var d := ResumeRanged(cfg, layout, s.disk.cell).value;
    PlanTiles(layout, d.total);
  }

  function BootSteps(layout: Options, plan: seq<Range>): seq<Event> {
    [Start(layout, 1), Boot(Ranged(0)), Boot(Write(if plan == [] || plan[0].end < 0 then 0 else plan[0].end + 1)), Boot(Proceed)]
  }

  lemma BootsAlone(cfg: Config, s: State, layout: Options)
    requires s.process.Down? && layout in cfg.layouts && ResumeRanged(cfg, layout, s.disk.cell).None?
    requires s.cur.content != [] && Plan(layout, |s.cur.content|).Some?
    requires Tiles(Plan(layout, |s.cur.content|).value, |s.cur.content|)
    ensures
      var es := BootSteps(layout, Plan(layout, |s.cur.content|).value);
      Alone(cfg, Run(cfg, s, es)) && Unclobbered(cfg, s, es)
  {
    hide Plan, RangedMeta, ResumeRanged, PartStore.Patch;
    var plan := Plan(layout, |s.cur.content|).value;
    PlanNotEmpty(plan, |s.cur.content|);
    RangeFits(plan, |s.cur.content|, 0);
    var a, b, c, d := Start(layout, 1), Boot(Ranged(0)), Boot(Write(plan[0].end + 1)), Boot(Proceed);
    var s1 := Apply(cfg, s, a);
    assert s1 == s.(process := Asking(layout, 1));
    var s2 := Apply(cfg, s1, b);
    assert s2 == s1.(disk := Sized(s.disk, |s.cur.content|), process := Booting(s.cur, layout, plan, 1, 0, Some(s.cur)));
    var s3 := Apply(cfg, s2, c);
    assert s3.process == Booting(s.cur, layout, plan, 1, plan[0].end + 1, Some(s.cur)) && s3.cur == s.cur;
    var es := BootSteps(layout, plan);
    assert es == [a] + [b] + [c] + [d];
    RunAppend(cfg, s, [a] + [b] + [c], [d]);
    RunAppend(cfg, s, [a] + [b], [c]);
    RunAppend(cfg, s, [a], [b]);
    OneEvent(cfg, s, a);
    OneEvent(cfg, s1, b);
    OneEvent(cfg, s2, c);
    OneEvent(cfg, s3, d);
    BootedAlone(cfg, s3);
    BootNeverClobbers(cfg, s, es);
  }

  lemma PlanNotEmpty(plan: seq<Range>, total: nat)
    requires Tiles(plan, total) && total > 0
    ensures plan != []
  {
  }

  lemma BootedAlone(cfg: Config, s: State)
    requires s.process.Booting? && s.process.plan != [] && s.process.parallelism == 1
    requires s.process.ver == s.cur && s.process.got >= s.process.plan[0].end + 1
    requires Tiles(s.process.plan, |s.cur.content|)
    ensures Alone(cfg, Apply(cfg, s, Boot(Proceed)))
  {
    hide RangedMeta, Tiles;
  }

  lemma {:induction false} BootNeverClobbers(cfg: Config, s: State, es: seq<Event>)
    requires forall i :: 0 <= i < |es| && es[i].Boot? ==> !es[i].c.Whole?
    ensures Unclobbered(cfg, s, es)
    decreases |es|
  {
    hide Apply;
    if es != [] {
      BootNeverClobbers(cfg, Apply(cfg, s, es[0]), es[1..]);
    }
  }

  /**
   Whatever has happened before, a process started over a resource that has not changed
   since can finish: some undisturbed run brings `run_chunks` to Ok, and with it the whole
   resource into the file.
   */
  lemma CanFinish(cfg: Config, s0: State, before: seq<Event>, layout: Options) returns (es: seq<Event>)
    requires World(cfg) && Init(cfg, s0) && Unclobbered(cfg, s0, before) && layout in cfg.layouts
    requires
      var s := Run(cfg, s0, before);
      s.process.Down? && Unchanged(cfg, s, layout) && s.cur.content != [] && Plan(layout, |s.cur.content|).Some?
    ensures forall i :: 0 <= i < |es| ==> es[i].Start? || es[i].Boot? || es[i].Work? || es[i].Join?
    ensures
      var s' := Run(cfg, s0, before + es);
      s'.process.Done? && Complete(cfg, s', s'.process.r)
  {
    hide World, Init, Inv, Alone, Plan, Unchanged, Complete, Run;
    InitIsInv(cfg, s0);
    RunKeeps(cfg, s0, before);
    var s := Run(cfg, s0, before);
    var first := StartsAlone(cfg, s, layout);
    var last := AloneFinishes(cfg, Run(cfg, s, first));
    es := first + last;
    RunAppend(cfg, s, first, last);
    RunAppend(cfg, s0, before, es);
    WorkNeverClobbers(cfg, Run(cfg, s, first), last);
    UnclobberedAppend(cfg, s, first, last);
    UnclobberedAppend(cfg, s0, before, es);
    SegmentedComplete(cfg, s0, before + es);
  }

  lemma InitIsInv(cfg: Config, s: State)
    requires Init(cfg, s)
    ensures Inv(cfg, s)
  {
  }

  lemma {:induction false} UnclobberedAppend(cfg: Config, s: State, es: seq<Event>, fs: seq<Event>)
    requires Unclobbered(cfg, s, es) && Unclobbered(cfg, Run(cfg, s, es), fs)
    ensures Unclobbered(cfg, s, es + fs)
    decreases |es|
  {
    hide Apply;
    if es == [] {
      assert es + fs == fs;
    } else {
      assert (es + fs)[0] == es[0] && (es + fs)[1..] == es[1..] + fs;
      UnclobberedAppend(cfg, Apply(cfg, s, es[0]), es[1..], fs);
    }
  }

  // ---- what a run of the workers comes to ---------------------------------------------------------

  /** A chunk request is answered with a 200, or by another version than the one planned with. */
  predicate Refusal(cfg: Config, s: State, e: Event) {
    && s.process.Running? && e.Work? && e.w < |s.process.r.workers| && s.process.r.workers[e.w].Fetching?
    && (e.c.Refuse? || (e.c.Open? && !(Answers(cfg.url, IfRange(s.process.r.validators), s.cur) && |s.cur.content| == s.process.r.total)))
  }

  /** A fetch is given up, or a worker panics. */
  predicate Failure(s: State, e: Event) {
    && s.process.Running? && e.Work? && e.w < |s.process.r.workers|
    && var wk := s.process.r.workers[e.w];
       || (e.c.Fail? && (wk.Fetching? || (wk.Streaming? && wk.i < |s.process.r.plan|)))
       || (e.c.Panic? && (wk.Ready? || (wk.Streaming? && wk.i < |s.process.r.plan|)))
  }

  predicate Refused(cfg: Config, s: State, es: seq<Event>)
    decreases |es|
  {
    es != [] && (Refusal(cfg, s, es[0]) || Refused(cfg, Apply(cfg, s, es[0]), es[1..]))
  }

  predicate HasFailed(cfg: Config, s: State, es: seq<Event>)
    decreases |es|
  {
    es != [] && (Failure(s, es[0]) || HasFailed(cfg, Apply(cfg, s, es[0]), es[1..]))
  }

  predicate Trouble(r: Chunks) {
    r.failed || Panicked in r.workers
  }

  lemma PanicStays(workers: seq<Worker>, w: nat, wk: Worker)
    requires w < |workers| && !workers[w].Panicked?
    ensures Panicked in workers[w := wk] <==> Panicked in workers || wk == Panicked
  {
    var ws := workers[w := wk];
    if Panicked in workers {
      var x :| 0 <= x < |workers| && workers[x] == Panicked;
      assert ws[x] == Panicked;
    }
    if wk == Panicked {
      assert ws[w] == Panicked;
    }
  }

  /** One step raises the flags exactly for what has happened in it. */
  lemma StepFlags(cfg: Config, s: State, e: Event)
    requires s.process.Running? && e != Kill && Apply(cfg, s, e).process.Running?
    ensures
      var r, r' := s.process.r, Apply(cfg, s, e).process.r;
      && (r'.fallback <==> r.fallback || Refusal(cfg, s, e))
      && (Trouble(r') <==> Trouble(r) || Failure(s, e))
      && |r'.workers| == |r.workers|
  {
    hide ResumeRanged, Plan, Answers, BitGet, BitSet, PartStore.Patch, RangedMeta;
    if e.Work? && e.w < |s.process.r.workers| {
      var r := s.process.r;
      var wk := r.workers[e.w];
      if !wk.Panicked? {
        PanicStays(r.workers, e.w, Apply(cfg, s, e).process.r.workers[e.w]);
        WorkSetsOne(cfg, s, e.w, e.c);
      }
    }
  }

  /** A step of a worker changes no other. */
  lemma WorkSetsOne(cfg: Config, s: State, w: nat, c: Choice)
    requires s.process.Running? && w < |s.process.r.workers|
    ensures
      var s' := WorkStep(cfg, s, w, c);
      && s'.process.Running? && |s'.process.r.workers| == |s.process.r.workers|
      && s'.process.r.workers == s.process.r.workers[w := s'.process.r.workers[w]]
  {
    hide StreamStep, Answers, BitGet, BitSet, RangedMeta;
    var r := s.process.r;
    assert r.workers == r.workers[w := r.workers[w]];
    if r.workers[w].Streaming? && r.workers[w].i < |r.plan| {
      StreamSetsOne(s, r, w, c, r.plan[r.workers[w].i], r.workers[w].i, r.workers[w].got, r.workers[w].src);
    }
  }

  lemma StreamSetsOne(s: State, r: Chunks, w: nat, c: Choice, range: Range, i: nat, got: nat, src: Version)
    requires s.process == Running(r) && w < |r.workers|
    ensures
      var s' := StreamStep(s, r, w, c, range, i, got, src);
      && s'.process.Running? && |s'.process.r.workers| == |r.workers|
      && s'.process.r.workers == r.workers[w := s'.process.r.workers[w]]
  {
    hide PartStore.Patch;
    assert r.workers == r.workers[w := r.workers[w]];
  }

  lemma {:induction false} EndedStaysEnded(cfg: Config, s: State, es: seq<Event>)
    requires !s.process.Running? && !s.process.Down? && !s.process.Booting? && !s.process.Asking? && !s.process.Copying?
    requires Kill !in es
    ensures !Run(cfg, s, es).process.Running?
    decreases |es|
  {
    if es != [] {
      assert es[0] in es;
      EndedStaysEnded(cfg, Apply(cfg, s, es[0]), es[1..]);
    }
  }

  /** The flags of a run tell what has happened in it. */
  lemma {:induction false} FlagsTell(cfg: Config, s: State, es: seq<Event>)
    requires s.process.Running? && Kill !in es && Run(cfg, s, es).process.Running?
    ensures Run(cfg, s, es).process.r.fallback <==> s.process.r.fallback || Refused(cfg, s, es)
    ensures Trouble(Run(cfg, s, es).process.r) <==> Trouble(s.process.r) || HasFailed(cfg, s, es)
    decreases |es|
  {
    hide Refusal, Failure, Trouble, Apply;
    if es != [] {
      assert es[0] in es;
      var s1 := Apply(cfg, s, es[0]);
      if s1.process.Running? {
        StepFlags(cfg, s, es[0]);
        FlagsTell(cfg, s1, es[1..]);
      } else {
        LeavesRunning(cfg, s, es[0]);
        EndedStaysEnded(cfg, s1, es[1..]);
      }
    }
  }

  lemma LeavesRunning(cfg: Config, s: State, e: Event)
    requires s.process.Running? && e != Kill && !Apply(cfg, s, e).process.Running?
    ensures e.Join? && var p := Apply(cfg, s, e).process; p.Done? || p.FellBack? || p.Failed?
  {
    hide ResumeRanged, Plan, Answers, BitGet, BitSet, PartStore.Patch, RangedMeta;
    if e.Work? && e.w < |s.process.r.workers| {
      WorkSetsOne(cfg, s, e.w, e.c);
    }
  }

  predicate Ended(wk: Worker) {
    wk.Stopped? || wk.Panicked?
  }

  /** A run as it starts: nothing refused, nothing failed. */
  predicate Untroubled(r: Chunks) {
    !r.fallback && !Trouble(r)
  }

  lemma StartsUntroubled(layout: Options, ver: Version, d: Resumed, parallelism: nat)
    ensures Untroubled(NewRun(layout, ver, d, parallelism))
  {
  }

  /**
   Joined once all its workers have ended, a run falls back to a single stream exactly when
   some chunk was refused or answered from another version and nothing failed, fails
   exactly when something did, and is done exactly when neither happened.
   */
  lemma JoinDecides(cfg: Config, s: State, es: seq<Event>)
    requires s.process.Running? && Untroubled(s.process.r) && Kill !in es
    requires
      var p := Run(cfg, s, es).process;
      p.Running? && forall w :: 0 <= w < |p.r.workers| ==> Ended(p.r.workers[w])
    ensures
      var p := Run(cfg, s, es + [Join]).process;
      && (p.FellBack? <==> Refused(cfg, s, es) && !HasFailed(cfg, s, es))
      && (p.Failed? <==> HasFailed(cfg, s, es))
      && (p.Done? <==> !Refused(cfg, s, es) && !HasFailed(cfg, s, es))
  {
    hide Refusal, Failure, Run;
    FlagsTell(cfg, s, es);
    RunAppend(cfg, s, es, [Join]);
    OneEvent(cfg, Run(cfg, s, es), Join);
  }

  // ---- a failure stops the run ---------------------------------------------------------------------

  predicate Flagged(r: Chunks) {
    r.failed || r.fallback
  }

  /** How many workers have looked at the flags and are about to claim a chunk. */
  function Claimers(ws: seq<Worker>): (n: nat)
    ensures n <= |ws|
  {
    if ws == [] then 0
    else Claimers(ws[..|ws| - 1]) + if ws[|ws| - 1].Claiming? then 1 else 0
  }

  lemma {:induction false} ClaimersSet(ws: seq<Worker>, w: nat, wk: Worker)
    requires w < |ws|
    ensures Claimers(ws[w := wk]) + (if ws[w].Claiming? then 1 else 0) == Claimers(ws) + if wk.Claiming? then 1 else 0
  {
    var n := |ws| - 1;
    if w == n {
      assert ws[w := wk][..n] == ws[..n];
    } else {
      assert ws[w := wk][..n] == ws[..n][w := wk];
      ClaimersSet(ws[..n], w, wk);
    }
  }

  lemma FlaggedWork(cfg: Config, s: State, w: nat, c: Choice)
    requires s.process.Running? && w < |s.process.r.workers| && Flagged(s.process.r)
    ensures
      var r, s' := s.process.r, WorkStep(cfg, s, w, c);
      && s'.process.Running? && |s'.process.r.workers| == |r.workers| && Flagged(s'.process.r)
      && !s'.process.r.workers[w].Claiming?
      && |s'.process.r.claims| <= |r.claims| + if r.workers[w].Claiming? then 1 else 0
  {
    hide StreamStep, Answers, BitGet, BitSet, RangedMeta;
    var r := s.process.r;
    if r.workers[w].Streaming? && r.workers[w].i < |r.plan| {
      FlaggedStream(s, r, w, c, r.plan[r.workers[w].i], r.workers[w].i, r.workers[w].got, r.workers[w].src);
    }
  }

  lemma FlaggedStream(s: State, r: Chunks, w: nat, c: Choice, range: Range, i: nat, got: nat, src: Version)
    requires s.process == Running(r) && w < |r.workers| && r.workers[w].Streaming? && Flagged(r)
    ensures
      var s' := StreamStep(s, r, w, c, range, i, got, src);
      && s'.process.Running? && |s'.process.r.workers| == |r.workers| && Flagged(s'.process.r)
      && !s'.process.r.workers[w].Claiming? && s'.process.r.claims == r.claims
  {
    hide PartStore.Patch;
  }

  lemma FlaggedStep(cfg: Config, s: State, e: Event)
    requires s.process.Running? && Flagged(s.process.r) && e != Kill && Apply(cfg, s, e).process.Running?
    ensures
      var r, r' := s.process.r, Apply(cfg, s, e).process.r;
      Flagged(r') && |r'.claims| + Claimers(r'.workers) <= |r.claims| + Claimers(r.workers)
  {
    hide WorkStep, Claimers;
    if e.Work? && e.w < |s.process.r.workers| {
      var ws, ws' := s.process.r.workers, WorkStep(cfg, s, e.w, e.c).process.r.workers;
      WorkSetsOne(cfg, s, e.w, e.c);
      FlaggedWork(cfg, s, e.w, e.c);
      ClaimersSet(ws, e.w, ws'[e.w]);
    }
  }

  /** From the first failure or refusal on, only workers already past the test claim a chunk, and each of them but one. */
  lemma {:induction false} ClaimsEnd(cfg: Config, s: State, es: seq<Event>)
    requires s.process.Running? && Flagged(s.process.r) && Kill !in es && Run(cfg, s, es).process.Running?
    ensures
      var r' := Run(cfg, s, es).process.r;
      Flagged(r') && |r'.claims| + Claimers(r'.workers) <= |s.process.r.claims| + Claimers(s.process.r.workers)
    decreases |es|
  {
    hide Flagged, Claimers, Apply;
    if es != [] {
      assert es[0] in es;
      var s1 := Apply(cfg, s, es[0]);
      if s1.process.Running? {
        FlaggedStep(cfg, s, es[0]);
        ClaimsEnd(cfg, s1, es[1..]);
      } else {
        LeavesRunning(cfg, s, es[0]);
        EndedStaysEnded(cfg, s1, es[1..]);
      }
    }
  }

  /** Fetching the first chunk never loses ground: after a break the rest of it is asked for. */
  lemma BootKeepsGround(cfg: Config, s: State, c: Choice)
    requires s.process.Booting? && s.process.plan != []
    ensures
      var b, s' := s.process, Apply(cfg, s, Boot(c));
      && (s'.process.Booting? ==> s'.process.ver == b.ver && s'.process.plan == b.plan && s'.process.got >= b.got)
      && (s'.process.Running? ==> b.got > b.plan[0].end && s'.process.r.ver == b.ver && s'.process.r.plan == b.plan)
      && (c.Break? || c.HalfWrite? ==> s'.process.Booting? && s'.process.got == b.got)
  {
    hide ResumeRanged, Plan, Answers, BitGet, BitSet, PartStore.Patch, RangedMeta;
  }

  /** Before the workers run, bootstrap falls back exactly on a 206 without a total, or where a chunk request would. */
  lemma BootFallsBack(cfg: Config, s: State, c: Choice)
    requires s.process.Asking? || s.process.Copying? || (s.process.Booting? && s.process.plan != [])
    ensures
      var s' := Apply(cfg, s, Boot(c));
      && (s'.process.FellBack? <==>
            || (s.process.Asking? && c.NoTotal?)
            || (s.process.Booting?
                && (c.Refuse?
                    || (c.Open? && s.process.src.None? && s.process.got <= s.process.plan[0].end
                        && !(Answers(cfg.url, IfRange(ValidatorsOf(cfg.url, s.process.ver)), s.cur)
                             && |s.cur.content| == |s.process.ver.content|)))))
      && (s'.process.FellBack? ==> s'.disk == s.disk)
      && (s'.process.Failed? <==> c.Fail?)
  {
    hide ResumeRanged, Plan, Answers, BitGet, BitSet, PartStore.Patch, RangedMeta;
  }

  /** A run has the workers asked for, at least one, at most 16, and no more than chunks. */
  lemma WorkersAsAsked(parallelism: nat, chunks: nat)
    ensures
      var n := WorkerCount(parallelism, chunks);
      && 1 <= n <= 16 && n <= Max(chunks, 1) && n <= Max(parallelism, 1)
      && (n == parallelism || n == 16 || n == chunks || n == 1)
      && (1 <= parallelism <= 16 && parallelism <= chunks ==> n == parallelism)
  {
  }

  // ---- what is saved is used ---------------------------------------------------------------------

  /** A state saved for a layout is what a start with that layout resumes from. */
  lemma ResumeAccepts(cfg: Config, disk: Disk, layout: Options, bitmap: bytes)
    requires World(cfg) && disk.cellVer in cfg.versions && disk.cell.Some? && disk.cell.value.kind == HttpRanged
    requires disk.cell.value.realSize == |disk.cellVer.content| && Plan(layout, |disk.cellVer.content|) == Some(disk.cellPlan)
    requires CellHolds(cfg, disk, bitmap)
    ensures ResumeRanged(cfg, layout, disk.cell)
         == Some(Resumed(|disk.cellVer.content|, ValidatorsOf(cfg.url, disk.cellVer), cfg.planKey(disk.cellPlan), disk.cellPlan, bitmap))
  {
    hide RangedMeta, ParseRangedMeta, Plan;
    RangedMetaRoundTrip(cfg.planKey(disk.cellPlan), |disk.cellVer.content|, ValidatorsOf(cfg.url, disk.cellVer), bitmap);
  }

  /** Once a worker has saved the bitmap, a process killed and started again with the layout goes on from that very bitmap. */
  lemma SavedIsResumed(cfg: Config, s: State, w: nat, parallelism: nat)
    requires World(cfg) && Inv(cfg, s) && s.process.Running? && w < |s.process.r.workers| && s.process.r.workers[w].Saving?
    ensures
      var r := s.process.r;
      var s' := Apply(cfg, Apply(cfg, Apply(cfg, s, Work(w, Proceed)), Kill), Start(r.layout, parallelism));
      && s'.process.Running? && s'.process.r.bitmap == r.bitmap && s'.process.r.plan == r.plan && s'.process.r.ver == r.ver
      && s'.disk.file == s.disk.file
  {
    hide RangedMeta, ParseRangedMeta, Plan, MarkedInFile, WorkersSound, AllAccounted;
    var r := s.process.r;
    var disk := Apply(cfg, Apply(cfg, s, Work(w, Proceed)), Kill).disk;
    assert CellHolds(cfg, disk, r.bitmap);
    ResumeAccepts(cfg, disk, r.layout, r.bitmap);
  }

  /** Where the server states a length but knows no ranges, the whole resource can arrive in one body. */
  lemma WholeCanFinish(cfg: Config, s: State, end: nat)
    requires s.process.Asking?
    ensures
      var size := |s.cur.content|;
      var s' := Run(cfg, s, [Boot(Whole(true, end)), Boot(Write(size)), Boot(Proceed)]);
      s'.process == Full(s.cur, size) && size <= |s'.disk.file| && s'.disk.file[..size] == s.cur.content
  {
    var size := |s.cur.content|;
    var a, b, c := Boot(Whole(true, end)), Boot(Write(size)), Boot(Proceed);
    var s1 := Apply(cfg, s, a);
    var s2 := Apply(cfg, s1, b);
    assert s.cur.content[0..0 + size] == s.cur.content;
    assert [a, b, c] == [a] + [b] + [c];
    RunAppend(cfg, s, [a] + [b], [c]);
    RunAppend(cfg, s, [a], [b]);
    OneEvent(cfg, s, a);
    OneEvent(cfg, s1, b);
    OneEvent(cfg, s2, c);
  }

  /** A whole body that breaks, or a write of it that fails half way, is asked for again, and from its start. */
  lemma BrokenWholeIsAskedAgain(cfg: Config, s: State, c: Choice, end: nat)
    requires s.process.Copying? && s.process.done <= s.process.end <= |s.process.ver.content|
    requires c.Break? || (c.HalfWrite? && s.process.done + c.k <= s.process.end)
    ensures
      var s' := Apply(cfg, s, Boot(c));
      && s'.process == Asking(s.process.layout, s.process.parallelism) && s'.disk.cell == s.disk.cell
      && Apply(cfg, s', Boot(Whole(true, end))).process == Copying(s.cur, s.process.layout, s.process.parallelism, 0, |s.cur.content|)
  {
    hide PartStore.Patch;
  }

  // ---- a fetch is a run of worker steps -------------------------------------------------------------

  /** Worker `w` is about to fetch chunk `i`, which is what the job asks for, from the version planned with. */
  ghost predicate AboutToFetch(cfg: Config, s: State, w: nat, i: nat, job: ChunkFetch.Job) {
    && s.process.Running?
    && var r := s.process.r;
       && w < |r.workers| && r.workers[w] == Fetching(i, 0) && i < |r.plan|
       && r.plan[i].start == job.start && r.plan[i].Size() == job.want > 0 && job.total == r.total
       && job.start + job.want <= |s.cur.content| == r.total
       && Answers(cfg.url, IfRange(r.validators), s.cur) && ChunkFetch.AllHonest(job, s.cur.content)
  }

  /** Where `n` attempts leave the worker. */
  function AfterAttempts(job: ChunkFetch.Job, i: nat, n: nat): Worker {
    if ChunkFetch.Got(job, n) < job.want then Fetching(i, ChunkFetch.Got(job, n)) else Landed(i)
  }

  /** The file holds what `n` attempts landed, and nothing outside the chunk has changed. */
  ghost predicate Fetched(from: bytes, to: bytes, content: bytes, job: ChunkFetch.Job, n: nat)
    requires job.start + job.want <= |content|
  {
    && ChangedOnly(from, to, job.start, job.want)
    && HoldsAt(to, job.start, content[job.start..job.start + ChunkFetch.Got(job, n)])
  }

  lemma PatchLands(from: bytes, file: bytes, content: bytes, job: ChunkFetch.Job, n: nat, k: nat)
    requires job.start + job.want <= |content| && Fetched(from, file, content, job, n)
    requires ChunkFetch.Got(job, n + 1) == ChunkFetch.Got(job, n) + k
    ensures
      var at := job.start + ChunkFetch.Got(job, n);
      at + k <= |content| && Fetched(from, Patch(file, at, content[at..at + k]), content, job, n + 1)
  {
    hide ChunkFetch.Got;
  }

  /** One attempt that lands `k > 0` bytes: a request, a read and, unless that was all, a break. */
  lemma LandingSteps(cfg: Config, s: State, w: nat, i: nat, got: nat, k: nat) returns (es: seq<Event>)
    requires s.process.Running? && w < |s.process.r.workers| && s.process.r.workers[w] == Fetching(i, got) && i < |s.process.r.plan|
    requires Answers(cfg.url, IfRange(s.process.r.validators), s.cur) && |s.cur.content| == s.process.r.total
    requires var range := s.process.r.plan[i]; 0 <= range.start && got + k <= range.Size() && range.start + got + k <= |s.cur.content|
    ensures WorkOnly(es)
    ensures
      var r, range := s.process.r, s.process.r.plan[i];
      var at := range.start + got;
      Run(cfg, s, es)
      == s.(disk := s.disk.(file := Patch(s.disk.file, at, s.cur.content[at..at + k])),
            process := Running(SetWorker(r, w, if got + k == range.Size() then Landed(i) else Fetching(i, got + k))))
  {
    hide PartStore.Patch, Answers;
    var r := s.process.r;
    var open, write, stop := Work(w, Open), Work(w, Write(k)), Work(w, Break);
    OneEvent(cfg, s, open);
    var s1 := Apply(cfg, s, open);
    OneEvent(cfg, s1, write);
    var s2 := Apply(cfg, s1, write);
    RunAppend(cfg, s, [open], [write]);
    es := [open] + [write];
    SetTwice(r, w, Streaming(i, got, s.cur), if got + k == r.plan[i].Size() then Landed(i) else Streaming(i, got + k, s.cur));
    if got + k < r.plan[i].Size() {
      OneEvent(cfg, s2, stop);
      RunAppend(cfg, s, es, [stop]);
      SetTwice(r, w, Streaming(i, got + k, s.cur), Fetching(i, got + k));
      es := es + [stop];
    }
  }

  lemma SetTwice(r: Chunks, w: nat, a: Worker, b: Worker)
    requires w < |r.workers|
    ensures SetWorker(SetWorker(r, w, a), w, b) == SetWorker(r, w, b)
  {
    assert r.workers[w := a][w := b] == r.workers[w := b];
  }

  lemma SetSame(r: Chunks, w: nat)
    requires w < |r.workers|
    ensures SetWorker(r, w, r.workers[w]) == r
  {
    assert r.workers[w := r.workers[w]] == r.workers;
  }

  /** Attempts that advance are runs of the worker's steps. */
  lemma {:induction false} AttemptsAreSteps(cfg: Config, s: State, w: nat, i: nat, job: ChunkFetch.Job, n: nat) returns (es: seq<Event>)
    requires AboutToFetch(cfg, s, w, i, job)
    requires forall k :: 0 <= k < n ==> ChunkFetch.Nth(job, k).Advanced? && ChunkFetch.Got(job, k) < job.want
    ensures WorkOnly(es)
    ensures
      var s' := Run(cfg, s, es);
      && s'.process == Running(SetWorker(s.process.r, w, AfterAttempts(job, i, n)))
      && s'.cur == s.cur && s'.disk == s.disk.(file := s'.disk.file)
      && Fetched(s.disk.file, s'.disk.file, s.cur.content, job, n)
  {
    hide Run, Apply, ChunkFetch.Got, ChunkFetch.Nth, ChunkFetch.AllHonest, Answers, PartStore.Patch, Fetched, SetWorker;
    if n == 0 {
      ChunkFetch.NothingGot(job);
      SetSame(s.process.r, w);
      NothingRun(cfg, s);
      NothingFetched(s.disk.file, s.cur.content, job);
      es := [];
    } else {
      es := AttemptsAreSteps(cfg, s, w, i, job, n - 1);
      ChunkFetch.GotStep(job, n - 1);
      var got, a := ChunkFetch.Got(job, n - 1), ChunkFetch.Nth(job, n - 1);
      var s1 := Run(cfg, s, es);
      WorkerSet(s.process.r, w, AfterAttempts(job, i, n - 1));
      SetTwice(s.process.r, w, AfterAttempts(job, i, n - 1), AfterAttempts(job, i, n));
      if a.wrote > 0 {
        PatchLands(s.disk.file, s1.disk.file, s.cur.content, job, n - 1, a.wrote);
        var more := LandingSteps(cfg, s1, w, i, got, a.wrote);
        RunAppend(cfg, s, es, more);
        es := es + more;
      } else {
        SameGot(s.disk.file, s1.disk.file, s.cur.content, job, n);
        SetSame(s1.process.r, w);
      }
    }
  }

  lemma NothingFetched(file: bytes, content: bytes, job: ChunkFetch.Job)
    requires job.start + job.want <= |content|
    ensures Fetched(file, file, content, job, 0)
  {
    NothingChanged(file, job.start, job.want);
    assert content[job.start..job.start] == [];
  }

  lemma WorkerSet(r: Chunks, w: nat, a: Worker)
    requires w < |r.workers|
    ensures SetWorker(r, w, a).workers[w] == a && SetWorker(r, w, a) == r.(workers := SetWorker(r, w, a).workers)
    ensures |SetWorker(r, w, a).workers| == |r.workers|
  {
  }

  lemma NothingRun(cfg: Config, s: State)
    ensures Run(cfg, s, []) == s
  {
  }

  /**
   However a fetch of a chunk ends, it is a run of the worker's steps: it lands the same
   bytes and leaves the worker with the chunk landed, or the run failed or falling back.
   */
  lemma FetchIsRun(cfg: Config, s: State, w: nat, i: nat, job: ChunkFetch.Job, maxRetries: nat, n: nat, result: ChunkFetch.ChunkResult)
    returns (es: seq<Event>)
    requires AboutToFetch(cfg, s, w, i, job) && ChunkFetch.Ends(job, maxRetries, n, result)
    ensures WorkOnly(es)
    ensures
      var r, s' := s.process.r, Run(cfg, s, es);
      && s'.process == Running(
           match result
           case ChunkOk => SetWorker(r, w, Landed(i))
           case ChunkFallback => SetWorker(r.(fallback := true), w, Ready)
           case _ => SetWorker(r.(failed := true), w, Ready))
      && s'.cur == s.cur && s'.disk == s.disk.(file := s'.disk.file)
      && Fetched(s.disk.file, s'.disk.file, s.cur.content, job, n)
  {
    hide Run, ChunkFetch.Got, ChunkFetch.Nth, ChunkFetch.AllHonest, Answers, ChunkFetch.Spent, Fetched;
    if result.ChunkOk? || result.ChunkExhausted? {
      ChunkFetch.NeverPast(job, maxRetries, n, result);
      es := AttemptsAreSteps(cfg, s, w, i, job, n);
    } else {
      ChunkFetch.NeverPast(job, maxRetries, n, result);
      es := AttemptsAreSteps(cfg, s, w, i, job, n - 1);
      ChunkFetch.GotStep(job, n - 1);
      SameGot(s.disk.file, Run(cfg, s, es).disk.file, s.cur.content, job, n);
    }
    if !result.ChunkOk? {
      var stop := Work(w, if result.ChunkFallback? then Refuse else Fail);
      var s1 := Run(cfg, s, es);
      RunAppend(cfg, s, es, [stop]);
      OneEvent(cfg, s1, stop);
      var r := s.process.r;
      SetTwice(r, w, s1.process.r.workers[w], Ready);
      SetFlag(r, w, s1.process.r.workers[w]);
      es := es + [stop];
    }
  }

  lemma SameGot(from: bytes, to: bytes, content: bytes, job: ChunkFetch.Job, n: nat)
    requires n > 0 && job.start + job.want <= |content| && ChunkFetch.Got(job, n) == ChunkFetch.Got(job, n - 1)
    requires Fetched(from, to, content, job, n - 1)
    ensures Fetched(from, to, content, job, n)
  {
    hide ChunkFetch.Got;
  }

  lemma SetFlag(r: Chunks, w: nat, a: Worker)
    requires w < |r.workers|
    ensures SetWorker(SetWorker(r, w, a).(failed := true), w, Ready) == SetWorker(r.(failed := true), w, Ready)
    ensures SetWorker(SetWorker(r, w, a).(fallback := true), w, Ready) == SetWorker(r.(fallback := true), w, Ready)
  {
    SetTwice(r, w, a, Ready);
  }

  // ---- a body of unknown length over a saved state ---------------------------------------------------

  /** The body's bytes agree with every chunk the bitmap marks, as far as they reach. */
  ghost predicate AgreesWhereMarked(content: bytes, body: bytes, plan: seq<Range>, bitmap: bytes) {
    forall i, at :: 0 <= i < |plan| && i / 8 < |bitmap| && BitGet(bitmap, i) && plan[i].Contains(at) && 0 <= at < |body| && at < |content| ==>
      body[at] == content[at]
  }

  lemma OverwrittenBreaks(file: bytes, content: bytes, body: bytes, plan: seq<Range>, bitmap: bytes)
    requires MarkedInFile(file, content, plan, bitmap)
    requires MarkedInFile(Patch(file, 0, body), content, plan, bitmap)
    ensures AgreesWhereMarked(content, body, plan, bitmap)
  {
    hide BitGet;
    var to := Patch(file, 0, body);
    forall i, at | 0 <= i < |plan| && i / 8 < |bitmap| && BitGet(bitmap, i) && plan[i].Contains(at) && 0 <= at < |body| && at < |content|
      ensures body[at] == content[at]
    {
      assert Agree(to, content, plan[i].start, plan[i].end + 1);
      assert to[at] == body[at];
    }
  }

  lemma OverwrittenKeeps(file: bytes, content: bytes, body: bytes, n: nat, plan: seq<Range>, bitmap: bytes)
    requires MarkedInFile(file, content, plan, bitmap) && AgreesWhereMarked(content, body, plan, bitmap) && n <= |body|
    ensures MarkedInFile(Patch(file, 0, body[..n]), content, plan, bitmap)
  {
    hide BitGet;
    var to := Patch(file, 0, body[..n]);
    forall i | 0 <= i < |plan| && i / 8 < |bitmap| && BitGet(bitmap, i)
      ensures Agree(to, content, plan[i].start, plan[i].end + 1)
    {
      assert Agree(file, content, plan[i].start, plan[i].end + 1);
      forall at | plan[i].start <= at <= plan[i].end
        ensures to[at] == content[at]
      {
        assert plan[i].Contains(at);
      }
    }
  }

  /** Copied over a file from its start, a body leaves the marked chunks intact at every point exactly when it agrees with them. */
  lemma OverwriteExactly(file: bytes, content: bytes, body: bytes, plan: seq<Range>, bitmap: bytes)
    requires MarkedInFile(file, content, plan, bitmap)
    ensures (forall n: nat :: n <= |body| ==> MarkedInFile(Patch(file, 0, body[..n]), content, plan, bitmap))
       <==> AgreesWhereMarked(content, body, plan, bitmap)
  {
    hide MarkedInFile, AgreesWhereMarked, PartStore.Patch;
    if forall n: nat :: n <= |body| ==> MarkedInFile(Patch(file, 0, body[..n]), content, plan, bitmap) {
      assert body[..|body|] == body;
      OverwrittenBreaks(file, content, body, plan, bitmap);
    }
    if AgreesWhereMarked(content, body, plan, bitmap) {
      forall n: nat | n <= |body|
        ensures MarkedInFile(Patch(file, 0, body[..n]), content, plan, bitmap)
      {
        OverwrittenKeeps(file, content, body, n, plan, bitmap);
      }
    }
  }

  /** The reply to the first request is a 200, with or without a length, and some of its body arrives. */
  function BodyArrives(hasLength: bool, end: nat, k: nat): seq<Event> {
    [Boot(Whole(hasLength, end)), Boot(Write(k))]
  }

  /** In every world, what is saved stays true of the file when that happens with, or without, a state saved. */
  ghost predicate BodyKeepsState(hasLength: bool, saved: bool) {
    forall cfg, s, end: nat, k: nat ::
      World(cfg) && Inv(cfg, s) && s.process.Asking? && s.disk.cell.Some? == saved ==>
        CellSound(cfg, Run(cfg, s, BodyArrives(hasLength, end, k)).disk)
  }

  const ONES: Version := Version([1, 1], [1], [])
  const TWOS: Version := Version([2, 2], [2], [])
  const BY_ONE: Options := Options(None, Some(1))
  const BY_TWO: Options := Options(None, Some(2))

  function CountKey(plan: seq<Range>): nat {
    Min(|plan|, 4)
  }

  const PAIR: Config := Config([], [BY_ONE, BY_TWO], [ONES, TWOS], CountKey)

  const SINGLES: seq<Range> := [Range(0, 0), Range(1, 1)]

  /** A partial of `ONES` in one-byte chunks, the first of them marked. */
  const PARTIAL: Disk :=
    Disk([1, 0], Some(ResumeState(2, HttpRanged, RangedMeta(2, 2, ValidatorsOf([], ONES), [1]))), ONES, SINGLES)

  /** By now the server serves `TWOS`. */
  const LEFT: State := State(TWOS, PARTIAL, Down)

  /** A start with the other layout; one byte of a 200 without a length; a kill. */
  const CLOBBERING: seq<Event> := [Start(BY_TWO, 1), Boot(Whole(false, 2)), Boot(Write(1)), Kill]

  lemma PairPlans()
    ensures Plan(BY_ONE, 2) == Some(SINGLES) && Plan(BY_TWO, 2) == Some([Range(0, 1)])
  {
    assert DivCeil(2, MAX_SEGMENT_CHUNKS) == 1;
    assert GrownSize(1, 2) == 1 && GrownSize(2, 2) == 2;
    assert FixedCount(2, 1) == 2 && FixedCount(2, 2) == 1;
    assert FixedSegment(2, 1, 0) == Range(0, 0) && FixedSegment(2, 1, 1) == Range(1, 1) && FixedSegment(2, 2, 0) == Range(0, 1);
    assert Plan(BY_ONE, 2).value == SINGLES && Plan(BY_TWO, 2).value == [Range(0, 1)];
  }

  lemma PairWorld()
    ensures World(PAIR)
  {
    PairPlans();
  }

  lemma FirstMarked()
    ensures BitGet([1], 0) && !BitGet([1], 1) && DivCeil(2, 8) == 1
  {
    assert Bit(1, 0) && !Bit(1, 1);
  }

  lemma PartialMarked()
    ensures MarkedInFile([1, 0], ONES.content, SINGLES, [1])
    ensures !MarkedInFile([2, 0], ONES.content, SINGLES, [1])
  {
    hide BitGet;
    FirstMarked();
    assert SINGLES[0] == Range(0, 0);
    var partial: bytes, clobbered: bytes := [1, 0], [2, 0];
    assert partial[0] == ONES.content[0] && clobbered[0] != ONES.content[0];
    assert Agree(partial, ONES.content, 0, 1) && !Agree(clobbered, ONES.content, 0, 1);
  }

  lemma LeftIsSound()
    ensures World(PAIR) && Init(PAIR, LEFT)
  {
    hide World, Plan, MarkedInFile, RangedMeta;
    PairWorld();
    PairPlans();
    PartialMarked();
    assert CellHolds(PAIR, PARTIAL, [1]);
    assert BY_ONE in PAIR.layouts;
  }

  lemma PartialResumes()
    ensures ResumeRanged(PAIR, BY_ONE, PARTIAL.cell) == Some(Resumed(2, ValidatorsOf([], ONES), 2, SINGLES, [1]))
    ensures ResumeRanged(PAIR, BY_TWO, PARTIAL.cell).None?
  {
    hide RangedMeta, ParseRangedMeta, Plan;
    PairPlans();
    FirstMarked();
    RangedMetaRoundTrip(2, 2, ValidatorsOf([], ONES), [1]);
  }

  /** The run overwrites the file under whatever state is saved. */
  lemma ClobberingRun(disk: Disk)
    requires disk.file == [1, 0] && ResumeRanged(PAIR, BY_TWO, disk.cell).None?
    ensures Run(PAIR, LEFT.(disk := disk), CLOBBERING) == LEFT.(disk := disk.(file := [2, 0]))
    ensures Run(PAIR, LEFT.(disk := disk, process := Asking(BY_TWO, 1)), BodyArrives(false, 2, 1)).disk == disk.(file := [2, 0])
  {
    hide ResumeRanged, Plan, RangedMeta;
    var s0 := LEFT.(disk := disk);
    var a, b, c, d := Start(BY_TWO, 1), Boot(Whole(false, 2)), Boot(Write(1)), Kill;
    var s1 := s0.(process := Asking(BY_TWO, 1));
    assert Apply(PAIR, s0, a) == s1;
    var s2 := s1.(process := Copying(TWOS, BY_TWO, 1, 0, 2));
    assert Apply(PAIR, s1, b) == s2;
    assert Patch([1, 0], 0, [2]) == [2, 0] && TWOS.content[0..1] == [2];
    var s3 := s2.(disk := disk.(file := [2, 0]), process := Copying(TWOS, BY_TWO, 1, 1, 2));
    assert Apply(PAIR, s2, c) == s3;
    assert CLOBBERING == [a] + [b] + [c] + [d] && BodyArrives(false, 2, 1) == [b] + [c];
    RunAppend(PAIR, s0, [a] + [b] + [c], [d]);
    RunAppend(PAIR, s0, [a] + [b], [c]);
    RunAppend(PAIR, s0, [a], [b]);
    RunAppend(PAIR, s1, [b], [c]);
    OneEvent(PAIR, s0, a);
    OneEvent(PAIR, s1, b);
    OneEvent(PAIR, s2, c);
    OneEvent(PAIR, s3, d);
  }

  lemma PartialIsClobbered()
    ensures Run(PAIR, LEFT, CLOBBERING) == LEFT.(disk := PARTIAL.(file := [2, 0]))
    ensures Run(PAIR, LEFT.(process := Asking(BY_TWO, 1)), BodyArrives(false, 2, 1)).disk == PARTIAL.(file := [2, 0])
  {
    hide Run, ResumeRanged, RangedMeta;
    PartialResumes();
    ClobberingRun(PARTIAL);
  }

  /** A restart with the old layout accepts the bitmap, and no version's bytes are where it says. */
  lemma ClobberedIsTrusted()
    ensures
      var disk := Run(PAIR, LEFT, CLOBBERING).disk;
      var d := ResumeRanged(PAIR, BY_ONE, disk.cell);
      d.Some? && forall v :: !Trustworthy(PAIR, disk.file, d.value, v)
  {
    hide ResumeRanged, Run, MarkedInFile;
    PartialIsClobbered();
    PartialResumes();
    PartialMarked();
    assert forall v :: v in PAIR.versions && ValidatorsOf([], v) == ValidatorsOf([], ONES) ==> v == ONES;
  }

  lemma ResumedAlone()
    ensures
      var s := LEFT.(cur := ONES, disk := PARTIAL.(file := [2, 0]));
      && Run(PAIR, s.(cur := TWOS), [Change(ONES), Start(BY_ONE, 1)])
         == s.(process := Running(NewRun(BY_ONE, ONES, Resumed(2, ValidatorsOf([], ONES), 2, SINGLES, [1]), 1)))
      && Alone(PAIR, Run(PAIR, s.(cur := TWOS), [Change(ONES), Start(BY_ONE, 1)]))
  {
    hide ResumeRanged, Plan, RangedMeta;
    PartialResumes();
    PairPlans();
    FirstMarked();
    PlanTiles(BY_ONE, 2);
    var s := LEFT.(disk := PARTIAL.(file := [2, 0]));
    RunAppend(PAIR, s, [Change(ONES)], [Start(BY_ONE, 1)]);
    OneEvent(PAIR, s, Change(ONES));
    OneEvent(PAIR, s.(cur := ONES), Start(BY_ONE, 1));
    assert [Change(ONES)] + [Start(BY_ONE, 1)] == [Change(ONES), Start(BY_ONE, 1)];
  }

  /** Once `ONES` is served again, the restart ends with Ok over a file that is no version at all. */
  lemma ClobberedEndsInSplice() returns (es: seq<Event>)
    ensures
      var s := Run(PAIR, LEFT, CLOBBERING + es);
      && s.process.Done? && s.process.r.ver == ONES && s.disk.file == [2, 1]
      && forall v :: v in PAIR.versions ==> v.content != [2, 1]
  {
    hide Run, Alone, ResumeRanged, RangedMeta, Plan;
    PartialIsClobbered();
    ResumedAlone();
    FirstMarked();
    var s0 := Run(PAIR, LEFT, CLOBBERING);
    es := [Change(ONES), Start(BY_ONE, 1)];
    var s1 := Run(PAIR, s0, es);
    var first := OneChunk(PAIR, s1);
    var s2 := Run(PAIR, s1, first);
    assert s2.disk.file == [2, 0];
    var second := OneChunk(PAIR, s2);
    var s3 := Run(PAIR, s2, second);
    assert ONES.content[1..2] == [1] && Patch([2, 0], 1, [1]) == [2, 1];
    LastSteps(PAIR, s3);
    var last := [Work(0, Proceed), Work(0, Proceed), Join];
    RunAppend(PAIR, s0, es, first);
    RunAppend(PAIR, s0, es + first, second);
    RunAppend(PAIR, s0, es + first + second, last);
    es := es + first + second + last;
    RunAppend(PAIR, LEFT, CLOBBERING, es);
    assert TWOS.content[0] == 2 && TWOS.content[1] == 2 && ONES.content[0] == 1;
  }

  lemma GuardedBodyKeeps(cfg: Config, s: State, hasLength: bool, end: nat, k: nat)
    requires World(cfg) && Inv(cfg, s) && s.process.Asking? && (hasLength || s.disk.cell.None?)
    ensures CellSound(cfg, Run(cfg, s, BodyArrives(hasLength, end, k)).disk)
  {
    hide World, Inv, AskStep;
    var a, b := Boot(Whole(hasLength, end)), Boot(Write(k));
    assert BodyArrives(hasLength, end, k) == [a] + [b];
    RunAppend(cfg, s, [a], [b]);
    OneEvent(cfg, s, a);
    OneEvent(cfg, Apply(cfg, s, a), b);
    StepKeeps(cfg, s, a);
    assert Apply(cfg, s, a).process.Copying? by { WholeIsCopied(s, hasLength, end); }
    StepKeeps(cfg, Apply(cfg, s, a), b);
    InvHasCell(cfg, Apply(cfg, Apply(cfg, s, a), b));
  }

  lemma WholeIsCopied(s: State, hasLength: bool, end: nat)
    requires s.process.Asking?
    ensures AskStep(s, Whole(hasLength, end)).process.Copying?
  {
  }

  lemma InvHasCell(cfg: Config, s: State)
    requires Inv(cfg, s)
    ensures CellSound(cfg, s.disk)
  {
  }

  /**
   When bootstrap copies a whole body, what is saved stays true of the file exactly when
   the reply states a length, which clears the state, or no state is saved.
   */
  lemma BodyKeepsStateExactly(hasLength: bool, saved: bool)
    ensures BodyKeepsState(hasLength, saved) <==> hasLength || !saved
  {
    hide World, Inv, CellSound, Run;
    if hasLength || !saved {
      forall cfg, s, end: nat, k: nat | World(cfg) && Inv(cfg, s) && s.process.Asking? && s.disk.cell.Some? == saved
        ensures CellSound(cfg, Run(cfg, s, BodyArrives(hasLength, end, k)).disk)
      {
        GuardedBodyKeeps(cfg, s, hasLength, end, k);
      }
    } else {
      var s := LEFT.(process := Asking(BY_TWO, 1));
      LeftIsSound();
      AskingIsSound();
      PartialIsClobbered();
      ClobberedIsUnsound();
      assert !CellSound(PAIR, Run(PAIR, s, BodyArrives(false, 2, 1)).disk);
    }
  }

  lemma AskingIsSound()
    ensures Inv(PAIR, LEFT.(process := Asking(BY_TWO, 1)))
  {
    hide CellSound;
    LeftIsSound();
    assert BY_TWO in PAIR.layouts;
  }

  lemma SoundIsTrusted(cfg: Config, disk: Disk, layout: Options)
    requires World(cfg) && layout in cfg.layouts && CellSound(cfg, disk) && ResumeRanged(cfg, layout, disk.cell).Some?
    ensures exists v :: Trustworthy(cfg, disk.file, ResumeRanged(cfg, layout, disk.cell).value, v)
  {
    ResumeIsSound(cfg, disk, layout);
    assert Trustworthy(cfg, disk.file, ResumeRanged(cfg, layout, disk.cell).value, disk.cellVer);
  }

  lemma ClobberedIsUnsound()
    ensures !CellSound(PAIR, PARTIAL.(file := [2, 0]))
  {
    hide ResumeRanged, Run, CellSound, World, Trustworthy;
    PairWorld();
    PartialIsClobbered();
    ClobberedIsTrusted();
    assert BY_ONE in PAIR.layouts;
    if CellSound(PAIR, PARTIAL.(file := [2, 0])) {
      SoundIsTrusted(PAIR, PARTIAL.(file := [2, 0]), BY_ONE);
    }
  }
}
