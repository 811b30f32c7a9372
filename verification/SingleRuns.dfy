/** How long the runs of the single-stream mode can be, and what they can publish. */
module SingleRuns {
  import opened Basics
  import opened Arithmetic
  import opened ResumeMeta
  import opened Origin
  import opened RetryBudget
  import opened SingleStream

  // ---- how far a run can get -------------------------------------------------------------------

  function Longest(versions: seq<Version>): nat {
    if versions == [] then 0 else Max(|versions[0].content|, Longest(versions[1..]))
  }

  lemma {:induction false} LongestBounds(versions: seq<Version>)
    ensures forall v :: v in versions ==> |v.content| <= Longest(versions)
  {
    if versions != [] {
      LongestBounds(versions[1..]);
    }
  }

  ghost predicate ServesAll(cfg: Config, env: nat -> Intent) {
    forall k :: Serves(cfg, env(k))
  }

  lemma StepFits(cfg: Config, intent: Intent, p: Position)
    requires Serves(cfg, intent) && p.have <= Longest(cfg.versions)
    ensures NextPosition(p, StepOf(cfg, intent, p)).have <= Longest(cfg.versions)
  {
    hide Copy, Answers;
    LongestBounds(cfg.versions);
  }

  lemma {:induction false} HaveFits(cfg: Config, env: nat -> Intent, p0: Position, k: nat)
    requires ServesAll(cfg, env) && p0.have <= Longest(cfg.versions)
    ensures At(cfg, env, p0, k).have <= Longest(cfg.versions)
  {
    hide StepOf, NextPosition, Serves;
    if k > 0 {
      HaveFits(cfg, env, p0, k - 1);
      assert Serves(cfg, env(k - 1));
      StepFits(cfg, env(k - 1), At(cfg, env, p0, k - 1));
    }
  }

  /** How many of the first `n` attempts left fewer bytes than they found. */
  function Losses(cfg: Config, env: nat -> Intent, p0: Position, n: nat): nat {
    if n == 0 then 0
    else Losses(cfg, env, p0, n - 1) + if At(cfg, env, p0, n).have < At(cfg, env, p0, n - 1).have then 1 else 0
  }

  /** A reply that makes a run holding bytes start over: a 200, a 206 that does not line up, a 416 of another size. */
  predicate Restarts(reply: Reply, p: Position) {
    p.have > 0 &&
    match reply
    case Ok200(_, _, _, _, _, _) => true
    case Partial206(_, start, _, total, _, _) => start != p.have || (p.known.Some? && total != p.known)
    case Unsatisfied416(total) => total.Some? && total != Some(p.have)
    case _ => false
  }

  lemma StepShrinksOnRestart(cfg: Config, intent: Intent, p: Position)
    ensures NextPosition(p, StepOf(cfg, intent, p)).have < p.have ==> Restarts(ReplyAt(cfg, intent, p), p)
  {
    hide ReplyAt, StreamOutcome, TooBig;
    RespondsInOrder(cfg, intent, p);
  }

  /** Bytes are lost only to a reply that makes the run start over. */
  lemma LossNeedsRestart(cfg: Config, env: nat -> Intent, p0: Position, k: nat)
    requires At(cfg, env, p0, k + 1).have < At(cfg, env, p0, k).have
    ensures Restarts(ReplyAt(cfg, env(k), At(cfg, env, p0, k)), At(cfg, env, p0, k))
  {
    hide StepOf, ReplyAt, Restarts, At, NextPosition;
    AttemptMade(cfg, env, p0, k);
    StepShrinksOnRestart(cfg, env(k), At(cfg, env, p0, k));
  }

  lemma {:induction false} NoRestartNoLoss(cfg: Config, env: nat -> Intent, p0: Position, n: nat)
    requires forall k: nat :: k < n ==> !Restarts(ReplyAt(cfg, env(k), At(cfg, env, p0, k)), At(cfg, env, p0, k))
    ensures Losses(cfg, env, p0, n) == 0
  {
    hide Restarts, ReplyAt, At;
    if n > 0 {
      NoRestartNoLoss(cfg, env, p0, n - 1);
      if At(cfg, env, p0, n).have < At(cfg, env, p0, n - 1).have {
        LossNeedsRestart(cfg, env, p0, n - 1);
      }
    }
  }

  lemma ProgressRaises(cfg: Config, env: nat -> Intent, p0: Position, k: nat)
    ensures ProgressAt(cfg, env, p0, k) ==> At(cfg, env, p0, k + 1).have > At(cfg, env, p0, k).have
  {
    hide StepOf;
    AttemptMade(cfg, env, p0, k);
  }

  /** Progress is paid for in bytes held, and no loss gives back more than the longest version. */
  lemma {:induction false} ProgressAccount(cfg: Config, env: nat -> Intent, p0: Position, n: nat)
    requires ServesAll(cfg, env) && p0.have <= Longest(cfg.versions)
    ensures p0.have + Progresses(Trace(cfg, env, p0, n))
         <= At(cfg, env, p0, n).have + Losses(cfg, env, p0, n) * Longest(cfg.versions)
  {
    hide ServesAll, ProgressAt, Longest, At, Progresses;
    if n == 0 {
      assert At(cfg, env, p0, 0) == p0 && Progresses(Trace(cfg, env, p0, 0)) == 0 by { NothingYet(cfg, env, p0); }
    } else {
      ProgressAccount(cfg, env, p0, n - 1);
      HaveFits(cfg, env, p0, n - 1);
      ProgressRaises(cfg, env, p0, n - 1);
      StallSnoc(Trace(cfg, env, p0, n - 1), ProgressAt(cfg, env, p0, n - 1));
      AccountStep(p0.have, Progresses(Trace(cfg, env, p0, n - 1)), At(cfg, env, p0, n - 1).have, At(cfg, env, p0, n).have,
                  Losses(cfg, env, p0, n - 1), Longest(cfg.versions), ProgressAt(cfg, env, p0, n - 1));
    }
  }

  lemma NothingYet(cfg: Config, env: nat -> Intent, p0: Position)
    ensures At(cfg, env, p0, 0) == p0 && Progresses(Trace(cfg, env, p0, 0)) == 0
  {
  }

  lemma AccountStep(start: nat, done: nat, have: nat, next: nat, losses: nat, size: nat, progress: bool)
    requires start + done <= have + losses * size && have <= size && (progress ==> next > have)
    ensures start + done + (if progress then 1 else 0) <= next + (losses + if next < have then 1 else 0) * size
  {
    OneMore(losses, size);
  }

  lemma {:induction false} GoingOnStays(cfg: Config, env: nat -> Intent, p0: Position, maxRetries: nat, n: nat)
    requires forall k :: 0 <= k < n ==> GoesOn(cfg, env, p0, maxRetries, k)
    ensures StallsWithin(Trace(cfg, env, p0, n), maxRetries)
  {
    hide ProgressAt, Nth;
    if n > 0 {
      GoingOnStays(cfg, env, p0, maxRetries, n - 1);
      assert GoesOn(cfg, env, p0, maxRetries, n - 1);
      WithinSnoc(Trace(cfg, env, p0, n - 1), ProgressAt(cfg, env, p0, n - 1), maxRetries);
    }
  }

  /** The attempts of a run are bounded by the bytes there are, the budget and the number of losses. */
  lemma AttemptsWithinLosses(cfg: Config, env: nat -> Intent, p0: Position, maxRetries: nat, limit: nat, n: nat, out: Outcome)
    requires ServesAll(cfg, env) && p0.have <= Longest(cfg.versions)
    requires RunEnds(cfg, env, p0, maxRetries, limit, n, out) && n > 0
    ensures n <= (Losses(cfg, env, p0, n - 1) + 1) * Longest(cfg.versions) * (maxRetries + 1) + maxRetries + 1
  {
    hide ServesAll, Longest, GoesOn, Progresses, Stall, Losses, At, Trace, StallsWithin;
    var m, size := n - 1, Longest(cfg.versions);
    var t := Trace(cfg, env, p0, m);
    GoingOnStays(cfg, env, p0, maxRetries, m);
    TraceBound(t, maxRetries);
    LastStall(t, maxRetries);
    ProgressAccount(cfg, env, p0, m);
    HaveFits(cfg, env, p0, m);
    AttemptArithmetic(m, Progresses(t), Stall(t), Losses(cfg, env, p0, m), size, maxRetries);
  }

  /** Where no reply makes the run start over, bytes and budget alone bound the attempts. */
  lemma AttemptsWithoutRestart(cfg: Config, env: nat -> Intent, p0: Position, maxRetries: nat, limit: nat, n: nat, out: Outcome)
    requires ServesAll(cfg, env) && p0.have <= Longest(cfg.versions) && RunEnds(cfg, env, p0, maxRetries, limit, n, out)
    requires forall k: nat :: k < n ==> !Restarts(ReplyAt(cfg, env(k), At(cfg, env, p0, k)), At(cfg, env, p0, k))
    ensures n <= Longest(cfg.versions) * (maxRetries + 1) + maxRetries + 1
  {
    hide ServesAll, Longest, RunEnds, Restarts, ReplyAt, At;
    if n > 0 {
      NoRestartNoLoss(cfg, env, p0, n - 1);
      AttemptsWithinLosses(cfg, env, p0, maxRetries, limit, n, out);
    }
  }

  lemma LastStall(trace: seq<bool>, limit: nat)
    requires StallsWithin(trace, limit)
    ensures Stall(trace) <= limit
  {
    assert trace[..|trace|] == trace;
  }

  lemma AttemptArithmetic(m: nat, done: nat, stall: nat, losses: nat, size: nat, maxRetries: nat)
    requires m <= done * (maxRetries + 1) + stall && stall <= maxRetries && done <= size + losses * size
    ensures m + 1 <= (losses + 1) * size * (maxRetries + 1) + maxRetries + 1
  {
    OneMore(losses, size);
    TimesMonotone(done, (losses + 1) * size, maxRetries + 1);
  }

  // ---- when the attempts are bounded ----------------------------------------------------------------

  lemma {:induction false} AlwaysProgressing(cfg: Config, env: nat -> Intent, p0: Position, n: nat)
    requires forall k :: 0 <= k < n ==> GoesOn(cfg, env, p0, 0, k)
    ensures At(cfg, env, p0, n).have >= p0.have + n
  {
    hide Nth, StepOf;
    if n > 0 {
      AlwaysProgressing(cfg, env, p0, n - 1);
      assert GoesOn(cfg, env, p0, 0, n - 1);
      StallSnoc(Trace(cfg, env, p0, n - 1), ProgressAt(cfg, env, p0, n - 1));
      ProgressRaises(cfg, env, p0, n - 1);
    }
  }

  /** No version holds a byte, or not one byte is allowed. */
  predicate NothingToSend(cfg: Config) {
    (forall i :: 0 <= i < |cfg.versions| ==> cfg.versions[i].content == []) || cfg.maxSize == Some(0)
  }

  lemma CopyOfNothing(maxSize: Option<nat>, length: nat, offset: nat, resumable: bool, ticks: nat -> Tick)
    requires length == 0 || maxSize == Some(0)
    ensures Copy(maxSize, length, offset, resumable, ticks, offset, 0).Transient? ==>
              Copy(maxSize, length, offset, resumable, ticks, offset, 0).written == offset
  {
  }

  lemma NoProgress(cfg: Config, env: nat -> Intent, p0: Position, k: nat)
    requires NothingToSend(cfg) && ServesAll(cfg, env)
    ensures !ProgressAt(cfg, env, p0, k)
  {
    hide Copy, Answers;
    var p := At(cfg, env, p0, k);
    assert Serves(cfg, env(k));
    var reply := ReplyAt(cfg, env(k), p);
    if reply.Ok200? {
      CopyOfNothing(cfg.maxSize, reply.end, 0, p.have == 0 && reply.acceptsRanges, reply.ticks);
    } else if reply.Partial206? && reply.start == p.have {
      CopyOfNothing(cfg.maxSize, reply.end - p.have, p.have, true, reply.ticks);
    }
  }

  lemma {:induction false} OnlyStalls(cfg: Config, env: nat -> Intent, p0: Position, n: nat)
    requires NothingToSend(cfg) && ServesAll(cfg, env)
    ensures Stall(Trace(cfg, env, p0, n)) == n
  {
    hide ServesAll, NothingToSend, ProgressAt;
    if n > 0 {
      OnlyStalls(cfg, env, p0, n - 1);
      NoProgress(cfg, env, p0, n - 1);
      StallSnoc(Trace(cfg, env, p0, n - 1), false);
    }
  }

  /** One number bounds the attempts of every run, whatever the server does. */
  ghost predicate AttemptsBounded(cfg: Config, maxRetries: nat) {
    exists bound: nat :: BoundedBy(cfg, maxRetries, bound)
  }

  ghost predicate BoundedBy(cfg: Config, maxRetries: nat, bound: nat) {
    forall env, p0: Position, limit: nat, n: nat, out ::
      ServesAll(cfg, env) && p0.have <= Longest(cfg.versions) && RunEnds(cfg, env, p0, maxRetries, limit, n, out) ==> n <= bound
  }

  lemma NoRetriesRun(cfg: Config, env: nat -> Intent, p0: Position, limit: nat, n: nat, out: Outcome)
    requires ServesAll(cfg, env) && p0.have <= Longest(cfg.versions) && RunEnds(cfg, env, p0, 0, limit, n, out)
    ensures n <= Longest(cfg.versions) + 1
  {
    hide ServesAll, Longest, GoesOn, At, Nth, Stall, Trace;
    if n > 0 {
      AlwaysProgressing(cfg, env, p0, n - 1);
      HaveFits(cfg, env, p0, n - 1);
    }
  }

  lemma NoRetriesBound(cfg: Config)
    ensures BoundedBy(cfg, 0, Longest(cfg.versions) + 1)
  {
    hide ServesAll, Longest, RunEnds;
    forall env, p0: Position, limit: nat, n: nat, out
      | ServesAll(cfg, env) && p0.have <= Longest(cfg.versions) && RunEnds(cfg, env, p0, 0, limit, n, out)
      ensures n <= Longest(cfg.versions) + 1
    {
      NoRetriesRun(cfg, env, p0, limit, n, out);
    }
  }

  lemma NothingToSendRun(cfg: Config, env: nat -> Intent, p0: Position, maxRetries: nat, limit: nat, n: nat, out: Outcome)
    requires NothingToSend(cfg) && ServesAll(cfg, env) && RunEnds(cfg, env, p0, maxRetries, limit, n, out)
    ensures n <= maxRetries + 1
  {
    hide ServesAll, NothingToSend, At, Nth, Stall, Trace;
    if n > 1 {
      assert GoesOn(cfg, env, p0, maxRetries, n - 2);
      OnlyStalls(cfg, env, p0, n - 1);
    }
  }

  lemma NothingBound(cfg: Config, maxRetries: nat)
    requires NothingToSend(cfg)
    ensures BoundedBy(cfg, maxRetries, maxRetries + 1)
  {
    hide ServesAll, Longest, NothingToSend, RunEnds;
    forall env, p0: Position, limit: nat, n: nat, out
      | ServesAll(cfg, env) && p0.have <= Longest(cfg.versions) && RunEnds(cfg, env, p0, maxRetries, limit, n, out)
      ensures n <= maxRetries + 1
    {
      NothingToSendRun(cfg, env, p0, maxRetries, limit, n, out);
    }
  }

  // ---- a server that keeps a run going forever --------------------------------------------------------

  /** One byte is read; the next read fails. */
  function OneByteThenBreak(pass: nat): Tick {
    Tick(false, pass > 0, 1, None, false, false, false, false)
  }

  /**
   Every other reply is a 200, of unknown length, that breaks after one byte; the one in
   between is a 206 that starts at 0 although the run asked from 1.
   */
  function LosingServer(w: Version): nat -> Intent {
    (k: nat) =>
      if k % 2 == 0 then Full(w, |w.content|, false, true, false, OneByteThenBreak)
      else Partial(w, 0, 1, true, false, OneByteThenBreak)
  }

  predicate OneByteAllowed(cfg: Config, w: Version) {
    w in cfg.versions && w.content != [] && cfg.maxSize != Some(0)
  }

  lemma ByteArrives(cfg: Config, w: Version, v: Validators)
    requires OneByteAllowed(cfg, w)
    ensures StepOf(cfg, LosingServer(w)(0), Position(0, v, None)) == Step(Transient(1, true), ValidatorsOf(cfg.url, w), None)
  {
    var length := |w.content|;
    CopyStep(cfg.maxSize, length, 0, true, OneByteThenBreak, 0, 0);
    CopyStep(cfg.maxSize, length, 0, true, OneByteThenBreak, 1, 1);
  }

  lemma ByteIsLost(cfg: Config, w: Version)
    requires OneByteAllowed(cfg, w)
    ensures StepOf(cfg, LosingServer(w)(1), Position(1, ValidatorsOf(cfg.url, w), None))
         == Step(Transient(0, false), ValidatorsOf(cfg.url, w), None)
  {
  }

  /** After an even number of attempts nothing is held, after an odd number one byte; the budget is never spent. */
  lemma {:induction false} LosingRun(cfg: Config, w: Version, k: nat)
    requires OneByteAllowed(cfg, w)
    ensures At(cfg, LosingServer(w), FRESH, k)
         == (if k == 0 then FRESH else Position(k % 2, ValidatorsOf(cfg.url, w), None))
    ensures Stall(Trace(cfg, LosingServer(w), FRESH, k)) == if k == 0 || k % 2 == 1 then 0 else 1
    ensures Nth(cfg, LosingServer(w), FRESH, k).Transient?
  {
    hide StepOf, Stall, OneByteAllowed;
    var env := LosingServer(w);
    if k == 0 {
      NoAttempts(cfg, env, FRESH);
    } else {
      LosingRun(cfg, w, k - 1);
      AttemptMade(cfg, env, FRESH, k - 1);
    }
    ByteArrives(cfg, w, FRESH.v);
    ByteArrives(cfg, w, ValidatorsOf(cfg.url, w));
    ByteIsLost(cfg, w);
    assert env(k) == if k % 2 == 0 then env(0) else env(1);
    assert k > 0 ==> env(k - 1) == if k % 2 == 1 then env(0) else env(1);
  }

  /** With a single retry allowed, such a run is still going after any number of attempts, and comes to nothing else. */
  lemma RunNeverEnds(cfg: Config, w: Version, maxRetries: nat, limit: nat)
    requires OneByteAllowed(cfg, w) && maxRetries > 0
    ensures ServesAll(cfg, LosingServer(w))
    ensures RunEnds(cfg, LosingServer(w), FRESH, maxRetries, limit, limit, Unfinished)
    ensures forall n: nat, out :: RunEnds(cfg, LosingServer(w), FRESH, maxRetries, limit, n, out) ==> n == limit && out == Unfinished
  {
    hide GoesOn, Nth, Trace, Stall, At, OneByteAllowed;
    var env := LosingServer(w);
    LosingServes(cfg, w);
    forall k: nat
      ensures GoesOn(cfg, env, FRESH, maxRetries, k)
    {
      LosingGoesOn(cfg, w, maxRetries, k);
    }
    forall n: nat, out | RunEnds(cfg, env, FRESH, maxRetries, limit, n, out)
      ensures n == limit && out == Unfinished
    {
      if n > 0 {
        LastGoesOn(cfg, env, FRESH, maxRetries, limit, n, out);
      }
    }
  }

  lemma LosingServes(cfg: Config, w: Version)
    requires OneByteAllowed(cfg, w)
    ensures ServesAll(cfg, LosingServer(w))
  {
  }

  lemma LosingGoesOn(cfg: Config, w: Version, maxRetries: nat, k: nat)
    requires OneByteAllowed(cfg, w) && maxRetries > 0
    ensures GoesOn(cfg, LosingServer(w), FRESH, maxRetries, k)
  {
    hide Nth, Trace, Stall, At, OneByteAllowed;
    LosingRun(cfg, w, k);
    LosingRun(cfg, w, k + 1);
  }

  /** A run whose last attempt could be followed by another is unfinished. */
  lemma LastGoesOn(cfg: Config, env: nat -> Intent, p0: Position, maxRetries: nat, limit: nat, n: nat, out: Outcome)
    requires RunEnds(cfg, env, p0, maxRetries, limit, n, out) && n > 0 && GoesOn(cfg, env, p0, maxRetries, n - 1)
    ensures n == limit && out == Unfinished
  {
    hide Nth, Trace, Stall, At;
  }

  /**
   A number that bounds the attempts of every run exists exactly when no retries are
   allowed, or there is not a byte to send: progress that is lost again refreshes the
   budget all the same.
   */
  lemma AttemptsBoundedExactly(cfg: Config, maxRetries: nat)
    ensures AttemptsBounded(cfg, maxRetries) <==> maxRetries == 0 || NothingToSend(cfg)
  {
    hide BoundedBy;
    if maxRetries == 0 {
      NoRetriesBound(cfg);
    } else if NothingToSend(cfg) {
      NothingBound(cfg, maxRetries);
    } else {
      var i :| 0 <= i < |cfg.versions| && cfg.versions[i].content != [];
      forall bound: nat
        ensures !BoundedBy(cfg, maxRetries, bound)
      {
        NoSuchBound(cfg, cfg.versions[i], maxRetries, bound);
      }
    }
  }

  lemma NoSuchBound(cfg: Config, w: Version, maxRetries: nat, bound: nat)
    requires OneByteAllowed(cfg, w) && maxRetries > 0
    ensures !BoundedBy(cfg, maxRetries, bound)
  {
    hide RunEnds, ServesAll;
    RunNeverEnds(cfg, w, maxRetries, bound + 1);
    assert FRESH.have <= Longest(cfg.versions);
  }

  // ---- a proper prefix is published ------------------------------------------------------------------------

  /** A 200 that breaks after one byte, then a 206 for one byte more of three. */
  function ShortServer(w: Version): nat -> Intent {
    (k: nat) =>
      if k == 0 then Full(w, |w.content|, false, true, false, OneByteThenBreak)
      else Partial(w, 1, 2, false, false, OneByteThenEnd)
  }

  function OneByteThenEnd(pass: nat): Tick {
    Tick(false, false, 1, None, false, false, false, false)
  }

  /** The run finishes with two bytes of a version of three: what it publishes is a proper prefix. */
  lemma ShortRun(cfg: Config, w: Version, maxRetries: nat)
    requires w in cfg.versions && |w.content| == 3 && cfg.maxSize == None
    ensures RunEnds(cfg, ShortServer(w), FRESH, maxRetries, 2, 2, Finished(2))
    ensures CutShort(LastReply(cfg, ShortServer(w), FRESH, 2))
  {
    var env := ShortServer(w);
    NoAttempts(cfg, env, FRESH);
    ByteArrives(cfg, w, FRESH.v);
    assert env(0) == LosingServer(w)(0);
    AttemptMade(cfg, env, FRESH, 0);
    var p := Position(1, ValidatorsOf(cfg.url, w), None);
    assert At(cfg, env, FRESH, 1) == p;
    CopyStep(None, 1, 1, true, OneByteThenEnd, 1, 0);
    CopyStep(None, 1, 1, true, OneByteThenEnd, 2, 1);
    assert ReplyAt(cfg, env(1), p) == Partial206(w, 1, 2, None, false, OneByteThenEnd);
    assert StepOf(cfg, env(1), p).a == Done(2);
  }

  /** A 200 without a length, closed after two bytes. */
  function ClosingServer(w: Version): nat -> Intent {
    (_: nat) => Full(w, 2, false, true, false, OneByteThenEnd)
  }

  /** The same in one attempt: the peer closes a 200 that stated no length. */
  lemma ClosedRun(cfg: Config, w: Version, maxRetries: nat)
    requires w in cfg.versions && |w.content| == 3 && cfg.maxSize == None
    ensures RunEnds(cfg, ClosingServer(w), FRESH, maxRetries, 1, 1, Finished(2))
    ensures CutShort(LastReply(cfg, ClosingServer(w), FRESH, 1))
  {
    var env := ClosingServer(w);
    NoAttempts(cfg, env, FRESH);
    CopyStep(None, 2, 0, true, OneByteThenEnd, 0, 0);
    CopyStep(None, 2, 0, true, OneByteThenEnd, 1, 1);
    CopyStep(None, 2, 0, true, OneByteThenEnd, 2, 2);
    assert ReplyAt(cfg, env(0), FRESH) == Ok200(w, 2, None, true, false, OneByteThenEnd);
    assert StepOf(cfg, env(0), FRESH).a == Done(2);
  }

  /** What a sound store holds is no more than some version does, so the bounds hold of every run from one. */
  lemma OpeningFits(cfg: Config, file: bytes, state: Option<ResumeState>, ver: Version)
    requires StateSound(cfg, file, state, ver)
    ensures Opening(cfg.url, state).have <= Longest(cfg.versions)
  {
    LongestBounds(cfg.versions);
  }

  // ---- what a run that stopped leaves to the next ---------------------------------------------------------

  /** The reply whose body is being copied, of known size, with state writes that are not torn; its size. */
  ghost predicate CopiesKnown(cfg: Config, reply: Reply, p: Position, size: nat) {
    match reply
    case Ok200(_, _, length, _, fails, ticks) =>
      length == Some(size) && !TooBig(cfg, length) && !fails && forall k: nat :: !ticks(k).torn
    case Partial206(_, start, end, total, fails, ticks) =>
      && total == Some(size) && start == p.have && (p.known.Some? ==> total == p.known) && p.have <= end
      && !TooBig(cfg, total) && !fails && forall k: nat :: !ticks(k).torn
    case _ => false
  }

  lemma StreamSaves(maxSize: Option<nat>, length: nat, offset: nat, size: nat, v: Validators, resumable: bool, ticks: nat -> Tick,
                    before: Option<(nat, Validators, nat)>)
    requires forall k: nat :: !ticks(k).torn
    requires StreamOutcome(maxSize, length, offset, Some(size), resumable, false, ticks).Transient?
    ensures LoadAfterStream(maxSize, length, offset, Some(size), v, false, ticks, before)
         == Some((StreamOutcome(maxSize, length, offset, Some(size), resumable, false, ticks).written, v, size))
  {
    hide Copy, CopySaves;
    BrokenIsSaved(maxSize, length, offset, resumable, ticks, offset, 0, Unsaved);
  }

  lemma StepSaves(cfg: Config, intent: Intent, p: Position, before: Option<(nat, Validators, nat)>, size: nat)
    requires CopiesKnown(cfg, ReplyAt(cfg, intent, p), p, size) && StepOf(cfg, intent, p).a.Transient?
    ensures LoadAfter(cfg, intent, p, before) == Some((StepOf(cfg, intent, p).a.written, StepOf(cfg, intent, p).v, size))
  {
    hide ReplyAt, StreamOutcome, LoadAfterStream, TooBig;
    RespondsInOrder(cfg, intent, p);
    match ReplyAt(cfg, intent, p)
    case Ok200(w, end, _, acceptsRanges, _, ticks) =>
      StreamSaves(cfg.maxSize, end, 0, size, ValidatorsOf(cfg.url, w), p.have == 0 && acceptsRanges, ticks, before);
    case Partial206(_, _, end, _, _, ticks) =>
      StreamSaves(cfg.maxSize, end - p.have, p.have, size, p.v, true, ticks, before);
  }

  lemma RespondsInOrder(cfg: Config, intent: Intent, p: Position)
    ensures var reply := ReplyAt(cfg, intent, p); reply.Partial206? ==> reply.start <= reply.end
  {
    hide Answers;
  }

  /**
   When the last attempt broke in a body of known size, what is left on disk lets the next
   run start from exactly the offset reached, with the validators and the size of that body.
   */
  lemma BreakIsResumed(cfg: Config, env: nat -> Intent, p0: Position, load0: Option<(nat, Validators, nat)>, n: nat,
                       state: Option<ResumeState>, size: nat)
    requires n > 0 && Nth(cfg, env, p0, n - 1).Transient?
    requires CopiesKnown(cfg, LastReply(cfg, env, p0, n), At(cfg, env, p0, n - 1), size)
    requires LoadStream(cfg.url, state) == LoadAt(cfg, env, p0, load0, n)
    ensures Opening(cfg.url, state)
         == Position(Nth(cfg, env, p0, n - 1).written, At(cfg, env, p0, n).v, Some(size))
  {
    hide Copy, CopySaves, LoadStream, LoadAfter, StepOf, CopiesKnown, LoadAt, At;
    LoadMade(cfg, env, p0, load0, n - 1);
    AttemptMade(cfg, env, p0, n - 1);
    var p := At(cfg, env, p0, n - 1);
    StepSaves(cfg, env(n - 1), p, LoadAt(cfg, env, p0, load0, n - 1), size);
  }

  /** An attempt that got no body, or a body too big, leaves what was saved before. */
  lemma NoBodyKeepsState(cfg: Config, env: nat -> Intent, p0: Position, load0: Option<(nat, Validators, nat)>, k: nat)
    requires
      var reply := ReplyAt(cfg, env(k), At(cfg, env, p0, k));
      reply.SendFails? || reply.OtherStatus?
    ensures LoadAt(cfg, env, p0, load0, k + 1) == LoadAt(cfg, env, p0, load0, k)
  {
    hide ReplyAt;
    LoadMade(cfg, env, p0, load0, k);
  }
}
