/**
 The cancellation token of src/cancel.rs: an atomic flag, a mutex-protected table
 of shutdown hooks with slot reuse, and a re-check after insertion.

 `State` and `Apply` describe every interleaving of any number of threads running
 `cancel`, `register` and the guard's `drop`, one shared access per step. A hook is
 identified with the thread that registered it. `HookTable` holds the critical
 sections in the form the source runs them: on a table updated in place.
 */
module CancelToken {
  import opened Basics

  type Tid = nat

  /** What `register` returned: an expired guard (index usize::MAX) or a slot index. */
  datatype Guard = Expired | Slot(idx: nat)

  datatype Thread =
    // register
    | RegStart                      // about to load the flag
    | RegFireEarly                  // saw the flag set; about to call its own hook
    | RegMiss                       // saw the flag clear; about to lock and insert
    | RegInserted(idx: nat)         // inserted; about to load the flag again
    | RegLost(idx: nat)             // lost the race; about to lock and call slots[idx]
    | Holding(guard: Guard)         // register returned this guard
    | Dropped                       // the guard was dropped
    | RegPanicked                   // the early call of the hook panicked: nothing inserted
    | Leaked(idx: nat)              // the late call panicked: no guard, the hook stays
    // cancel
    | CancelStart                   // about to store the flag
    | CancelFlagged                 // stored; about to lock
    | Sweeping(k: nat, gone: set<Tid>) // holds the lock, next slot k
    | CancelDone(gone: set<Tid>)    // returned
    | CancelPanicked                // a hook panicked inside the sweep

  /** `fired` logs every call of a hook, `gone` the guards dropped when a sweep took the lock. */
  datatype State = State(
    cancelled: bool,
    slots: seq<Option<Tid>>,
    lock: Option<Tid>,
    threads: map<Tid, Thread>,
    fired: seq<Tid>)

  const INIT := State(false, [], None, map[], [])

  /** Start a thread, or let a thread take one step (whose hook call, if any, may panic). */
  datatype Event =
    | Spawn(t: Tid, cancels: bool)
    | Go(t: Tid, panics: bool)

  // ---- the slot table -----------------------------------------------------

  /** Index of the first vacant slot, or the length when there is none. */
  function FirstVacant(slots: seq<Option<Tid>>): (i: nat)
    ensures i <= |slots|
    ensures i < |slots| ==> slots[i].None?
    ensures forall j :: 0 <= j < i ==> slots[j].Some?
  {
    if slots == [] || slots[0].None? then 0 else 1 + FirstVacant(slots[1..])
  }

  function Insert(slots: seq<Option<Tid>>, hook: Tid): seq<Option<Tid>> {
    var i := FirstVacant(slots);
    if i < |slots| then slots[i := Some(hook)] else slots + [Some(hook)]
  }

  function Vacate(slots: seq<Option<Tid>>, idx: nat): seq<Option<Tid>> {
    if idx < |slots| then slots[idx := None] else slots
  }

  /** The hook a locked `get(idx)` finds, as the calls it leads to. */
  function CallsAt(slots: seq<Option<Tid>>, idx: nat): seq<Tid> {
    if idx < |slots| && slots[idx].Some? then [slots[idx].value] else []
  }

  /** The calls of a whole sweep, `hooks.iter().flatten()`. */
  function Calls(slots: seq<Option<Tid>>): seq<Tid> {
    if slots == [] then [] else CallsAt(slots, 0) + Calls(slots[1..])
  }

  // ---- one step of one thread ----------------------------------------------

  function DroppedThreads(threads: map<Tid, Thread>): set<Tid> {
    set t | t in threads && threads[t].Dropped?
  }

  function Apply(s: State, e: Event): State {
    match e
    case Spawn(t, cancels) =>
      if t in s.threads then s
      else s.(threads := s.threads[t := if cancels then CancelStart else RegStart])
    case Go(t, panics) =>
      if t !in s.threads then s else Advance(s, t, panics)
  }

  /** The next shared access of thread `t`; a thread that cannot move leaves the state alone. */
  function Advance(s: State, t: Tid, panics: bool): State
    requires t in s.threads
  {
    match s.threads[t]
    case RegStart =>
      s.(threads := s.threads[t := if s.cancelled then RegFireEarly else RegMiss])
    case RegFireEarly =>
      s.(fired := s.fired + [t],
         threads := s.threads[t := if panics then RegPanicked else Holding(Expired)])
    case RegMiss =>
      if s.lock.Some? then s
      else s.(slots := Insert(s.slots, t),
              threads := s.threads[t := RegInserted(FirstVacant(s.slots))])
    case RegInserted(idx) =>
      s.(threads := s.threads[t := if s.cancelled then RegLost(idx) else Holding(Slot(idx))])
    case RegLost(idx) =>
      if s.lock.Some? then s
      else
        var calls := CallsAt(s.slots, idx);
        s.(fired := s.fired + calls,
           threads := s.threads[t := if panics && calls != [] then Leaked(idx) else Holding(Slot(idx))])
    case Holding(guard) =>
      if guard.Expired? then s.(threads := s.threads[t := Dropped])
      else if s.lock.Some? then s
      else s.(slots := Vacate(s.slots, guard.idx), threads := s.threads[t := Dropped])
    case CancelStart =>
      s.(cancelled := true, threads := s.threads[t := CancelFlagged])
    case CancelFlagged =>
      if s.lock.Some? then s
      else s.(lock := Some(t), threads := s.threads[t := Sweeping(0, DroppedThreads(s.threads))])
    case Sweeping(k, gone) =>
      if k >= |s.slots| then s.(lock := None, threads := s.threads[t := CancelDone(gone)])
      else
        var calls := CallsAt(s.slots, k);
        if panics && calls != [] then
          s.(fired := s.fired + calls, lock := None, threads := s.threads[t := CancelPanicked])
        else
          s.(fired := s.fired + calls, threads := s.threads[t := Sweeping(k + 1, gone)])
    case _ => s
  }

  function Run(s: State, es: seq<Event>): State
    decreases |es|
  {
    if es == [] then s else Run(Apply(s, es[0]), es[1..])
  }

  // ---- what every step keeps -----------------------------------------------

  predicate Owns(th: Thread) {
    th.RegInserted? || th.RegLost? || th.Leaked? || (th.Holding? && th.guard.Slot?)
  }

  function OwnIdx(th: Thread): nat
    requires Owns(th)
  {
    if th.Holding? then th.guard.idx else th.idx
  }

  /** Slots and owners correspond one to one. */
  ghost predicate SlotsOwned(slots: seq<Option<Tid>>, threads: map<Tid, Thread>) {
    && (forall t :: t in threads && Owns(threads[t]) ==>
          OwnIdx(threads[t]) < |slots| && slots[OwnIdx(threads[t])] == Some(t))
    && (forall i :: 0 <= i < |slots| && slots[i].Some? ==>
          slots[i].value in threads && Owns(threads[slots[i].value]) && OwnIdx(threads[slots[i].value]) == i)
  }

  ghost predicate LockHeld(s: State) {
    && (s.lock.Some? ==> s.lock.value in s.threads && s.threads[s.lock.value].Sweeping?)
    && (forall t :: t in s.threads && s.threads[t].Sweeping? ==> s.lock == Some(t))
  }

  ghost predicate FlagSeen(s: State) {
    forall t :: t in s.threads ==>
      match s.threads[t]
      case CancelFlagged => s.cancelled
      case Sweeping(_, _) => s.cancelled
      case CancelDone(_) => s.cancelled
      case RegFireEarly => s.cancelled
      case RegLost(_) => s.cancelled
      case Leaked(_) => s.cancelled
      case _ => true
  }

  /** A returned registration that a finished sweep cannot have missed. */
  ghost predicate Reached(s: State, r: Tid, gone: set<Tid>) {
    r in s.fired || r in gone
  }

  ghost predicate Returned(th: Thread) {
    th.Holding? || th.Dropped?
  }

  /** What cancel thread `c` guarantees about registration `r`, during and after its sweep. */
  ghost predicate PairReach(s: State, c: Tid, r: Tid)
    requires c in s.threads && r in s.threads
  {
    match s.threads[c]
    case CancelDone(gone) => Returned(s.threads[r]) ==> Reached(s, r, gone)
    case Sweeping(k, gone) =>
      && (s.threads[r].Dropped? ==> Reached(s, r, gone))
      && (Owns(s.threads[r]) && OwnIdx(s.threads[r]) < k ==> r in s.fired)
    case _ => true
  }

  ghost predicate SweepsReach(s: State) {
    && (forall t :: t in s.threads && s.threads[t] == Holding(Expired) ==> t in s.fired)
    && (forall c, r :: c in s.threads && r in s.threads ==> PairReach(s, c, r))
  }

  ghost predicate Inv(s: State) {
    SlotsOwned(s.slots, s.threads) && LockHeld(s) && FlagSeen(s) && SweepsReach(s)
  }

  /** Changing one thread without changing what it owns keeps the correspondence. */
  lemma SameOwnerKeepsSlots(slots: seq<Option<Tid>>, threads: map<Tid, Thread>, t: Tid, th: Thread)
    requires SlotsOwned(slots, threads)
    requires t in threads ==> Owns(threads[t]) == Owns(th)
    requires t in threads && Owns(th) ==> OwnIdx(threads[t]) == OwnIdx(th)
    requires t !in threads ==> !Owns(th)
    ensures SlotsOwned(slots, threads[t := th])
  {
  }

  lemma InsertKeepsSlots(slots: seq<Option<Tid>>, threads: map<Tid, Thread>, t: Tid)
    requires SlotsOwned(slots, threads) && t in threads && threads[t].RegMiss?
    ensures SlotsOwned(Insert(slots, t), threads[t := RegInserted(FirstVacant(slots))])
  {
    var i := FirstVacant(slots);
    var slots' := Insert(slots, t);
    assert slots'[i] == Some(t);
    assert forall j :: 0 <= j < |slots'| && j != i ==> j < |slots| && slots'[j] == slots[j];
  }

  lemma VacateKeepsSlots(slots: seq<Option<Tid>>, threads: map<Tid, Thread>, t: Tid)
    requires SlotsOwned(slots, threads) && t in threads && threads[t].Holding? && threads[t].guard.Slot?
    ensures SlotsOwned(Vacate(slots, threads[t].guard.idx), threads[t := Dropped])
  {
    var idx := threads[t].guard.idx;
    assert OwnIdx(threads[t]) == idx;
    var slots' := Vacate(slots, idx);
    assert forall j :: 0 <= j < |slots'| && j != idx ==> slots'[j] == slots[j];
  }

  lemma StepKeepsSlotsOwned(s: State, e: Event)
    requires SlotsOwned(s.slots, s.threads)
    ensures SlotsOwned(Apply(s, e).slots, Apply(s, e).threads)
  {
    hide SlotsOwned, FirstVacant, Insert, Vacate;
    match e
    case Spawn(t, cancels) =>
      if t !in s.threads {
        SameOwnerKeepsSlots(s.slots, s.threads, t, if cancels then CancelStart else RegStart);
      }
    case Go(t, panics) =>
      if t in s.threads && Apply(s, e) != s {
        var th := s.threads[t];
        if th.RegMiss? {
          InsertKeepsSlots(s.slots, s.threads, t);
        } else if th.Holding? && th.guard.Slot? {
          VacateKeepsSlots(s.slots, s.threads, t);
        } else {
          SameOwnerKeepsSlots(s.slots, s.threads, t, Apply(s, e).threads[t]);
        }
      }
  }

  lemma StepKeepsLockAndFlag(s: State, e: Event)
    requires LockHeld(s) && FlagSeen(s)
    ensures LockHeld(Apply(s, e)) && FlagSeen(Apply(s, e))
  {
  }

  lemma FiredOnlyGrows(s: State, e: Event)
    ensures s.fired <= Apply(s, e).fired
  {
  }

  /** A registration that returns after some cancel has set the flag has had its hook called. */
  lemma ReturnsAfterCancel(s: State, e: Event, r: Tid)
    requires Inv(s) && r in s.threads && !Returned(s.threads[r])
    requires Returned(Apply(s, e).threads[r]) && s.cancelled
    ensures r in Apply(s, e).fired
  {
    hide FirstVacant, Insert, Vacate;
    assert e == Go(r, e.panics);
  }

  lemma DoneStaysReached(s: State, e: Event, c: Tid, r: Tid)
    requires Inv(s)
    requires c in s.threads && s.threads[c].CancelDone?
    requires r in Apply(s, e).threads && Returned(Apply(s, e).threads[r])
    ensures Reached(Apply(s, e), r, s.threads[c].gone)
  {
    hide SlotsOwned, FirstVacant, Insert, Vacate;
    FiredOnlyGrows(s, e);
    if r in s.threads && !Returned(s.threads[r]) {
      ReturnsAfterCancel(s, e, r);
    }
  }

  /** The sweep that finishes has called the hook of every guard still held. */
  lemma SweepEnds(s: State, c: Tid, r: Tid)
    requires Inv(s)
    requires c in s.threads && s.threads[c].Sweeping? && s.threads[c].k >= |s.slots|
    requires r in s.threads && Returned(s.threads[r])
    ensures Reached(s, r, s.threads[c].gone)
  {
    if Owns(s.threads[r]) {
      assert OwnIdx(s.threads[r]) < s.threads[c].k;
    }
  }

  /** While a sweep holds the lock, a registration becomes dropped only with an expired guard. */
  lemma SweepDropsOnlyExpired(s: State, e: Event, c: Tid, r: Tid)
    requires Inv(s) && c in s.threads && s.threads[c].Sweeping? && r in Apply(s, e).threads
    ensures Apply(s, e).threads[r].Dropped? ==> Reached(Apply(s, e), r, s.threads[c].gone)
  {
    FiredOnlyGrows(s, e);
    if r in s.threads {
      assert PairReach(s, c, r);
    }
  }

  lemma SweepCallsInOrder(s: State, e: Event, c: Tid, r: Tid)
    requires Inv(s)
    requires c in s.threads && s.threads[c].Sweeping? && Apply(s, e).threads[c].Sweeping?
    requires r in s.threads && Owns(s.threads[r]) && OwnIdx(s.threads[r]) < Apply(s, e).threads[c].k
    ensures r in Apply(s, e).fired
  {
    FiredOnlyGrows(s, e);
    assert PairReach(s, c, r);
    if OwnIdx(s.threads[r]) >= s.threads[c].k {
      assert e.Go? && e.t == c && OwnIdx(s.threads[r]) == s.threads[c].k;
      assert Apply(s, e).fired == s.fired + [r];
    }
  }

  /** Nobody takes or leaves a slot while the lock is held. */
  lemma SweepFreezesOwners(s: State, e: Event, r: Tid)
    requires Inv(s) && s.lock.Some? && r in Apply(s, e).threads && Owns(Apply(s, e).threads[r])
    ensures r in s.threads && Owns(s.threads[r]) && OwnIdx(s.threads[r]) == OwnIdx(Apply(s, e).threads[r])
  {
  }

  /** How a cancel thread can have come to be sweeping or done. */
  lemma CancelMoves(s: State, e: Event, c: Tid)
    requires LockHeld(s) && c in Apply(s, e).threads
    ensures
      var s' := Apply(s, e);
      match s'.threads[c]
      case CancelDone(gone) =>
        c in s.threads && (s.threads[c] == s'.threads[c]
          || (s.threads[c].Sweeping? && s.threads[c].k >= |s.slots| && s.threads[c].gone == gone
              && s'.fired == s.fired && s'.threads == s.threads[c := CancelDone(gone)]))
      case Sweeping(k, gone) =>
        c in s.threads && ((s.threads[c].Sweeping? && s.threads[c].gone == gone)
          || (k == 0 && gone == DroppedThreads(s.threads) && s'.threads == s.threads[c := Sweeping(k, gone)]))
      case _ => true
  {
    hide FirstVacant, Insert, Vacate, CallsAt;
  }

  lemma StepKeepsPair(s: State, e: Event, c: Tid, r: Tid)
    requires Inv(s) && c in Apply(s, e).threads && r in Apply(s, e).threads
    ensures PairReach(Apply(s, e), c, r)
  {
    hide Apply, SlotsOwned, FlagSeen;
    var s' := Apply(s, e);
    CancelMoves(s, e, c);
    if c in s.threads && s.threads[c].CancelDone? {
      if Returned(s'.threads[r]) {
        DoneStaysReached(s, e, c, r);
      }
    } else if s'.threads[c].CancelDone? {
      if Returned(s'.threads[r]) {
        SweepEnds(s, c, r);
      }
    } else if c in s.threads && s.threads[c].Sweeping? && s'.threads[c].Sweeping? {
      SweepDropsOnlyExpired(s, e, c, r);
      if Owns(s'.threads[r]) && OwnIdx(s'.threads[r]) < s'.threads[c].k {
        SweepFreezesOwners(s, e, r);
        SweepCallsInOrder(s, e, c, r);
      }
    }
  }

  lemma ExpiredWasCalled(s: State, e: Event, t: Tid)
    requires Inv(s) && t in Apply(s, e).threads && Apply(s, e).threads[t] == Holding(Expired)
    ensures t in Apply(s, e).fired
  {
    hide SlotsOwned, FirstVacant, Insert, Vacate;
    FiredOnlyGrows(s, e);
  }

  lemma StepKeepsSweepsReach(s: State, e: Event)
    requires Inv(s)
    ensures SweepsReach(Apply(s, e))
  {
    forall c, r | c in Apply(s, e).threads && r in Apply(s, e).threads
      ensures PairReach(Apply(s, e), c, r)
    {
      StepKeepsPair(s, e, c, r);
    }
    forall t | t in Apply(s, e).threads && Apply(s, e).threads[t] == Holding(Expired)
      ensures t in Apply(s, e).fired
    {
      ExpiredWasCalled(s, e, t);
    }
  }

  lemma {:induction false} RunKeepsInv(s: State, es: seq<Event>)
    requires Inv(s)
    ensures Inv(Run(s, es))
    decreases |es|
  {
    if es != [] {
      StepKeepsSlotsOwned(s, es[0]);
      StepKeepsLockAndFlag(s, es[0]);
      StepKeepsSweepsReach(s, es[0]);
      RunKeepsInv(Apply(s, es[0]), es[1..]);
    }
  }

  // ---- the promises ---------------------------------------------------------

  /**
   No lost cancellation. Once a `cancel` and a `register` have both returned, the hook
   has been called, unless its guard was already dropped when that cancel took the lock.
   */
  lemma NoLostCancellation(es: seq<Event>, c: Tid, r: Tid)
    ensures
      var s := Run(INIT, es);
      c in s.threads && s.threads[c].CancelDone? && r in s.threads && Returned(s.threads[r]) ==>
        r in s.fired || r in s.threads[c].gone
  {
    RunKeepsInv(INIT, es);
  }

  /** A live guard's slot holds its own hook, and no two live guards share a slot. */
  lemma GuardsOwnTheirSlots(es: seq<Event>, r: Tid, q: Tid)
    ensures
      var s := Run(INIT, es);
      r in s.threads && s.threads[r].Holding? && s.threads[r].guard.Slot? ==>
        && s.threads[r].guard.idx < |s.slots|
        && s.slots[s.threads[r].guard.idx] == Some(r)
        && (q in s.threads && q != r && s.threads[q].Holding? ==> s.threads[q].guard != s.threads[r].guard)
  {
    RunKeepsInv(INIT, es);
    var s := Run(INIT, es);
    if r in s.threads && s.threads[r].Holding? && s.threads[r].guard.Slot? {
      assert Owns(s.threads[r]) && OwnIdx(s.threads[r]) == s.threads[r].guard.idx;
      if q in s.threads && s.threads[q].Holding? && s.threads[q].guard == s.threads[r].guard {
        assert Owns(s.threads[q]);
      }
    }
  }

  lemma {:induction false} RunAppend(s: State, es: seq<Event>, fs: seq<Event>)
    ensures Run(s, es + fs) == Run(Run(s, es), fs)
    decreases |es|
  {
    if es == [] {
      assert es + fs == fs;
    } else {
      assert (es + fs)[1..] == es[1..] + fs;
      RunAppend(Apply(s, es[0]), es[1..], fs);
    }
  }

  /** Only a registration that owns a slot, or is firing early, can have its hook called. */
  lemma CalledHooksAreLive(s: State, e: Event)
    requires SlotsOwned(s.slots, s.threads)
    ensures
      var s' := Apply(s, e);
      s'.fired == s.fired ||
      exists x :: x in s.threads && (Owns(s.threads[x]) || s.threads[x].RegFireEarly?) && s'.fired == s.fired + [x]
  {
    if e.Go? && e.t in s.threads && Apply(s, e).fired != s.fired {
      var th := s.threads[e.t];
      if th.RegLost? || th.Sweeping? {
        var i := if th.RegLost? then th.idx else th.k;
        assert Apply(s, e).fired == s.fired + [s.slots[i].value];
      } else {
        assert Apply(s, e).fired == s.fired + [e.t];
      }
    }
  }

  lemma DroppedStaysDropped(s: State, e: Event, r: Tid)
    requires r in s.threads && s.threads[r].Dropped?
    ensures r in Apply(s, e).threads && Apply(s, e).threads[r].Dropped?
  {
    hide FirstVacant, Insert, Vacate, CallsAt;
  }

  /** No step calls the hook of a dropped guard. */
  lemma DroppedNotCalled(s: State, e: Event, r: Tid)
    requires Inv(s) && r in s.threads && s.threads[r].Dropped?
    ensures multiset(Apply(s, e).fired)[r] == multiset(s.fired)[r]
  {
    hide Apply;
    CalledHooksAreLive(s, e);
  }

  lemma {:induction false} DroppedStaysSilentFrom(s: State, fs: seq<Event>, r: Tid)
    requires Inv(s) && r in s.threads && s.threads[r].Dropped?
    ensures multiset(Run(s, fs).fired)[r] == multiset(s.fired)[r]
    decreases |fs|
  {
    if fs != [] {
      DroppedNotCalled(s, fs[0], r);
      DroppedStaysDropped(s, fs[0], r);
      RunKeepsInv(s, fs[..1]);
      assert Run(s, fs[..1]) == Apply(s, fs[0]);
      DroppedStaysSilentFrom(Apply(s, fs[0]), fs[1..], r);
    }
  }

  /** A hook whose guard has been dropped is never called again, however the run goes on. */
  lemma DroppedHookStaysSilent(es: seq<Event>, fs: seq<Event>, r: Tid)
    ensures
      var s := Run(INIT, es);
      r in s.threads && s.threads[r].Dropped? ==>
        multiset(Run(INIT, es + fs).fired)[r] == multiset(s.fired)[r]
  {
    RunKeepsInv(INIT, es);
    RunAppend(INIT, es, fs);
    var s := Run(INIT, es);
    if r in s.threads && s.threads[r].Dropped? {
      DroppedStaysSilentFrom(s, fs, r);
    }
  }

  /** Dropping one guard leaves every other registration's hook in its slot. */
  lemma DropRemovesOnlyItsOwn(es: seq<Event>, r: Tid, q: Tid, panics: bool)
    ensures
      var s := Run(INIT, es);
      r in s.threads && s.threads[r].Holding? && q in s.threads && q != r && Owns(s.threads[q]) ==>
        var s' := Apply(s, Go(r, panics));
        OwnIdx(s.threads[q]) < |s'.slots| && s'.slots[OwnIdx(s.threads[q])] == Some(q)
  {
    RunKeepsInv(INIT, es);
    StepKeepsSlotsOwned(Run(INIT, es), Go(r, panics));
  }

  // ---- when a hook may be called --------------------------------------------

  /** While the flag is not set, nothing has been called and nobody is about to call anything. */
  ghost predicate Quiet(s: State) {
    !s.cancelled ==>
      && s.fired == []
      && forall t :: t in s.threads ==>
           var th := s.threads[t];
           !th.RegFireEarly? && !th.RegLost? && !th.CancelFlagged? && !th.Sweeping?
  }

  lemma StepKeepsQuiet(s: State, e: Event)
    requires Quiet(s)
    ensures Quiet(Apply(s, e))
  {
    hide FirstVacant, Insert, Vacate, CallsAt;
  }

  lemma {:induction false} RunKeepsQuiet(s: State, es: seq<Event>)
    requires Quiet(s)
    ensures Quiet(Run(s, es))
    decreases |es|
  {
    hide Apply, Quiet;
    if es != [] {
      StepKeepsQuiet(s, es[0]);
      RunKeepsQuiet(Apply(s, es[0]), es[1..]);
    }
  }

  /** A cancel that sweeps, or a registration that has not returned. */
  predicate MayCall(th: Thread) {
    th.Sweeping? || th.RegFireEarly? || th.RegLost?
  }

  /** In every run, no hook is called before some cancel has set the flag. */
  lemma NoCallWithoutCancel(es: seq<Event>)
    ensures !Run(INIT, es).cancelled ==> Run(INIT, es).fired == []
  {
    hide Run;
    RunKeepsQuiet(INIT, es);
  }

  /**
   In every reachable state, a step adds at most one call, and only if the flag is set and
   the thread is a sweeping cancel, which calls the hook in its present slot, or a
   registration that has not returned, which calls its own. A drop calls nothing.
   */
  lemma CallsOnlyForCancel(es: seq<Event>, e: Event)
    ensures
      var s := Run(INIT, es);
      var s' := Apply(s, e);
      s'.fired != s.fired ==>
        && s.cancelled && e.Go? && e.t in s.threads && MayCall(s.threads[e.t])
        && (s.threads[e.t].Sweeping? ==>
              var k := s.threads[e.t].k;
              k < |s.slots| && s.slots[k].Some? && s'.fired == s.fired + [s.slots[k].value])
        && (!s.threads[e.t].Sweeping? ==> s'.fired == s.fired + [e.t])
  {
    hide Run;
    RunKeepsInv(INIT, es);
    RunKeepsQuiet(INIT, es);
    var s := Run(INIT, es);
    if e.Go? && e.t in s.threads && s.threads[e.t].RegLost? {
      assert Owns(s.threads[e.t]);
    }
  }

  // ---- the table as the source updates it -----------------------------------

  function Steps(t: Tid, n: nat): seq<Event> {
    seq(n, _ => Go(t, false))
  }

  /** Left alone, a sweep from slot `k` calls exactly the remaining hooks, in slot order, and unlocks. */
  lemma {:induction false} SoloSweep(s: State, t: Tid, k: nat)
    requires t in s.threads && s.threads[t].Sweeping? && s.threads[t].k == k <= |s.slots|
    ensures
      var s' := Run(s, Steps(t, |s.slots| - k + 1));
      && s'.fired == s.fired + Calls(s.slots[k..])
      && s'.slots == s.slots && s'.cancelled == s.cancelled && s'.lock == None
    decreases |s.slots| - k
  {
    var n := |s.slots| - k;
    var es := Steps(t, n + 1);
    assert es[1..] == Steps(t, n);
    var s1 := Apply(s, es[0]);
    if n == 0 {
      assert s.slots[k..] == [];
    } else {
      SoloSweep(s1, t, k + 1);
      assert s.slots[k..][0] == s.slots[k] && s.slots[k..][1..] == s.slots[k + 1..];
    }
  }

  /** A registration with nobody else in the table, except perhaps a cancel storing its flag after the insertion. */
  lemma RegisterAlone(s: State, t: Tid, c: Tid, raced: bool)
    requires s.lock == None && t != c
    requires t in s.threads && s.threads[t] == RegStart && c in s.threads && s.threads[c] == CancelStart
    ensures s.cancelled ==>
              var s' := Run(s, Steps(t, 2));
              t in s'.threads && s'.threads[t] == Holding(Expired) && s'.slots == s.slots && s'.fired == s.fired + [t]
    ensures !s.cancelled ==>
              var s' := Run(s, Steps(t, 2) + (if raced then [Go(c, false)] + Steps(t, 2) else Steps(t, 1)));
              && t in s'.threads && s'.threads[t] == Holding(Slot(FirstVacant(s.slots)))
              && s'.slots == Insert(s.slots, t) && s'.cancelled == raced
              && s'.fired == s.fired + (if raced then [t] else [])
  {
    var s1 := Apply(s, Go(t, false));
    var s2 := Apply(s1, Go(t, false));
    TwoSteps(s, t);
    if !s.cancelled {
      if raced {
        RunAppend(s, Steps(t, 2), [Go(c, false)] + Steps(t, 2));
        RunAppend(s2, [Go(c, false)], Steps(t, 2));
        OneStep(s2, Go(c, false));
        TwoSteps(Apply(s2, Go(c, false)), t);
      } else {
        RunAppend(s, Steps(t, 2), Steps(t, 1));
        assert Steps(t, 1) == [Go(t, false)];
        OneStep(s2, Go(t, false));
      }
    }
  }

  lemma OneStep(s: State, e: Event)
    ensures Run(s, [e]) == Apply(s, e)
  {
    assert [e][1..] == [];
  }

  lemma TwoSteps(s: State, t: Tid)
    ensures Run(s, Steps(t, 2)) == Apply(Apply(s, Go(t, false)), Go(t, false))
  {
    assert Steps(t, 2) == [Go(t, false)] + [Go(t, false)];
    RunAppend(s, [Go(t, false)], [Go(t, false)]);
    OneStep(s, Go(t, false));
    OneStep(Apply(s, Go(t, false)), Go(t, false));
  }

  /** Dropping a guard, with nobody holding the lock, vacates its slot and calls nothing. */
  lemma DropAlone(s: State, t: Tid, panics: bool)
    requires s.lock == None && t in s.threads && s.threads[t].Holding?
    ensures
      var guard, s' := s.threads[t].guard, Apply(s, Go(t, panics));
      && s'.threads == s.threads[t := Dropped] && s'.fired == s.fired && s'.cancelled == s.cancelled && s'.lock == None
      && s'.slots == if guard.Slot? then Vacate(s.slots, guard.idx) else s.slots
  {
  }

  /** The token's shared state when one thread runs at a time. */
  class HookTable {
    var cancelled: bool
    var hooks: seq<Option<Tid>>
    var fired: seq<Tid>

    constructor ()
      ensures !cancelled && hooks == [] && fired == []
    {
      cancelled, hooks, fired := false, [], [];
    }

    /** cancel: set the flag, then call every registered hook under the lock. */
    method Cancel()
      modifies this
      ensures cancelled && hooks == old(hooks)
      ensures fired == old(fired) + Calls(old(hooks))
    {
      cancelled := true;
      var k := 0;
      while k < |hooks|
        invariant k <= |hooks| && hooks == old(hooks) && cancelled
        invariant fired + Calls(hooks[k..]) == old(fired) + Calls(hooks)
      {
        assert hooks[k..][0] == hooks[k] && hooks[k..][1..] == hooks[k + 1..];
        if hooks[k].Some? {
          assert fired + Calls(hooks[k..]) == fired + [hooks[k].value] + Calls(hooks[k + 1..]);
          fired := fired + [hooks[k].value];
        }
        k := k + 1;
      }
      assert hooks[k..] == [];
    }

    /** The insertion of `register`: the first vacant slot, else a new one. */
    method InsertHook(hook: Tid) returns (idx: nat)
      modifies this`hooks
      ensures hooks == Insert(old(hooks), hook)
      ensures idx == FirstVacant(old(hooks)) < |hooks| && hooks[idx] == Some(hook)
    {
      idx := 0;
      while idx < |hooks| && hooks[idx].Some?
        invariant idx <= |hooks| && hooks == old(hooks)
        invariant forall j :: 0 <= j < idx ==> hooks[j].Some?
      {
        idx := idx + 1;
      }
      if idx < |hooks| {
        hooks := hooks[idx := Some(hook)];
      } else {
        hooks := hooks + [Some(hook)];
      }
    }

    /**
     register: on a cancelled token the hook is called at once and the guard is expired.
     `raced` says that another thread's store of the flag lands just after the insertion.
     */
    method Register(hook: Tid, raced: bool) returns (guard: Guard)
      modifies this
      ensures old(cancelled) ==>
                && guard == Expired && hooks == old(hooks) && cancelled
                && fired == old(fired) + [hook]
      ensures !old(cancelled) ==>
                && guard == Slot(FirstVacant(old(hooks))) && hooks == Insert(old(hooks), hook)
                && cancelled == raced && fired == old(fired) + (if raced then [hook] else [])
    {
      if cancelled {
        fired := fired + [hook];
        return Expired;
      }
      var idx := InsertHook(hook);
      if raced {
        cancelled := true;
      }
      if cancelled && idx < |hooks| && hooks[idx].Some? {
        fired := fired + [hooks[idx].value];
      }
      guard := Slot(idx);
    }

    /** Drop of the guard: vacate its slot, or nothing for an expired guard. */
    method DropGuard(guard: Guard)
      modifies this`hooks
      ensures hooks == if guard.Slot? then Vacate(old(hooks), guard.idx) else old(hooks)
    {
      if guard.Slot? && guard.idx < |hooks| {
        hooks := hooks[guard.idx := None];
      }
    }
  }
}
