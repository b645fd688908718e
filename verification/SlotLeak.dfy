/**
 Answers without a body wear a pool out: each keeps its slot of `count`. Exactly when an address can still serve, and
 a run after which it never can although all requests have ended.
 */
module SlotLeak {
  import opened Limits
  import opened Sums
  import opened Protocol
  import opened System
  import opened SystemTheorems
  import SystemSafety
  import ProtocolSafety

  /** A whole request whose answer declares no bytes, served by goroutine 0 with an empty stack. */
  function EmptyAnswer(a: Addr): seq<Event> {
    var go, phase := InPool(0, true), PhaseEnds(0, true, 0);
    [Begin(0, a), go, go, go, go, go, go, phase, phase, phase, RequestEnds(0)]
  }

  function EmptyAnswers(a: Addr, n: nat): seq<Event> {
    if n == 0 then [] else EmptyAnswers(a, n - 1) + EmptyAnswer(a)
  }

  /** Where goroutine 0 is after `k` of these events. */
  ghost predicate PhaseAfter(k: nat, a: Addr, p: Phase) {
    if k == 0 || k == 11 then p.Between?
    else if k <= 6 then p == Acquiring(a)
    else AddrOf(p) == Some(a) &&
         if k == 7 then p.WritingHeaders?
         else if k == 8 then p.WritingBody?
         else if k == 9 then p.ReadingHeaders?
         else p.Streaming? && p.body.declared == 0 && !p.body.reader.returned
  }

  function CallAfter(k: nat): Pc {
    if k == 1 then AcquireLock
    else if k == 2 then AcquirePop
    else if k == 3 then AcquireUnlockEmpty
    else if k == 4 then DialCheck
    else if k == 5 then DialCount
    else if k == 6 then Dial
    else Outside
  }

  /** The pool has `n` slots taken, none of them idle. */
  ghost predicate Drained(p: Pool, n: int, holder: Option<nat>) {
    p.free == [] && p.count == n && p.holder == holder
  }

  /** After `k` events of the request that takes slot `n`. */
  ghost predicate Midway(k: nat, s: Proxy, a: Addr, n: int) {
    && s.workers != []
    && PhaseAfter(k, a, s.workers[0].phase) && s.workers[0].call == CallAfter(k)
    && Drained(PoolAt(s.pools, a), if k < 6 then n else n + 1, if k == 2 || k == 3 then Some(0) else None)
    && Sum(LeftBy(a), s.workers) == (if k < 11 then n else n + 1)
    && forall i :: 1 <= i < |s.workers| ==> s.workers[i].phase.Between?
  }

  /** What the event does to the goroutine and to the pool. */
  lemma {:induction false} LocalMidway(cfg: Config, p: Pool, clock: int, k: nat, w: Worker, a: Addr, n: int)
    requires k < 11 && n < DialLimit(cfg)
    requires PhaseAfter(k, a, w.phase) && w.call == CallAfter(k)
    requires Drained(p, if k < 6 then n else n + 1, if k == 2 || k == 3 then Some(0) else None)
    ensures Target(EmptyAnswer(a)[k], w) == a
    ensures var l := LocalStep(cfg, p, clock, EmptyAnswer(a)[k], w, a);
            && PhaseAfter(k + 1, a, l.worker.phase) && l.worker.call == CallAfter(k + 1)
            && Drained(l.pool, if k + 1 < 6 then n else n + 1, if k + 1 == 2 || k + 1 == 3 then Some(0) else None)
            && NumberLeft(a, l.worker.left) == NumberLeft(a, w.left) + (if k == 10 then 1 else 0)
  {
    if k == 10 {
      assert Front(w.left + [w.phase.body]) == w.left;
    }
  }

  lemma {:induction false} NextMidway(cfg: Config, s: Proxy, k: nat, a: Addr, n: int)
    requires k < 11 && n < DialLimit(cfg) && Midway(k, s, a, n)
    ensures Midway(k + 1, Next(cfg, s, EmptyAnswer(a)[k]), a, n)
  {
    var e, w := EmptyAnswer(a)[k], s.workers[0];
    var l := LocalStep(cfg, PoolAt(s.pools, a), s.clock, e, w, a);
    LocalMidway(cfg, PoolAt(s.pools, a), s.clock, k, w, a, n);
    NextIsLocal(cfg, s, e, w, a, l);
    MidwayOn(k, s, Next(cfg, s, e), a, n, l.worker);
  }

  lemma {:induction false} MidwayOn(k: nat, s: Proxy, s': Proxy, a: Addr, n: int, w': Worker)
    requires k < 11 && Midway(k, s, a, n) && s'.workers == s.workers[0 := w']
    requires PhaseAfter(k + 1, a, w'.phase) && w'.call == CallAfter(k + 1)
    requires Drained(PoolAt(s'.pools, a), if k + 1 < 6 then n else n + 1, if k + 1 == 2 || k + 1 == 3 then Some(0) else None)
    requires NumberLeft(a, w'.left) == NumberLeft(a, s.workers[0].left) + (if k == 10 then 1 else 0)
    ensures Midway(k + 1, s', a, n)
  {
    SumUpdate(LeftBy(a), s.workers, 0, w');
  }

  lemma {:induction false} LastMidway(cfg: Config, s: Proxy, events: seq<Event>, k: nat, a: Addr, n: int)
    requires k < 11 && n < DialLimit(cfg) && events != [] && Last(events) == EmptyAnswer(a)[k]
    requires Midway(k, Serve(cfg, s, Front(events)), a, n)
    ensures Midway(k + 1, Serve(cfg, s, events), a, n)
  {
    NextMidway(cfg, Serve(cfg, s, Front(events)), k, a, n);
  }

  lemma {:induction false} ServeMidway(cfg: Config, s: Proxy, k: nat, a: Addr, n: int)
    requires k <= 11 && n < DialLimit(cfg) && Midway(0, s, a, n)
    ensures Midway(k, Serve(cfg, s, EmptyAnswer(a)[..k]), a, n)
  {
    if k == 0 {
    } else {
      ServeMidway(cfg, s, k - 1, a, n);
      assert Front(EmptyAnswer(a)[..k]) == EmptyAnswer(a)[..k - 1];
      LastMidway(cfg, s, EmptyAnswer(a)[..k], k - 1, a, n);
    }
  }

  lemma {:induction false} ServeEmptyAnswer(cfg: Config, s: Proxy, a: Addr, n: int)
    requires n < DialLimit(cfg) && Midway(0, s, a, n)
    ensures Midway(0, Serve(cfg, s, EmptyAnswer(a)), a, n + 1)
  {
    ServeMidway(cfg, s, 11, a, n);
    assert EmptyAnswer(a)[..11] == EmptyAnswer(a);
  }

  lemma {:induction false} OneMoreEmptyAnswer(cfg: Config, s: Proxy, events: seq<Event>, a: Addr, n: int)
    requires n < DialLimit(cfg) && Midway(0, Serve(cfg, s, events), a, n)
    ensures Midway(0, Serve(cfg, s, events + EmptyAnswer(a)), a, n + 1)
  {
    ServeConcat(cfg, s, events, EmptyAnswer(a));
    ServeEmptyAnswer(cfg, Serve(cfg, s, events), a, n);
  }

  lemma {:induction false} NothingServed(cfg: Config, workers: nat, a: Addr)
    requires workers >= 1
    ensures Midway(0, Serve(cfg, Started(workers), []), a, 0)
  {
    SumAllZero(LeftBy(a), Started(workers).workers);
  }

  lemma {:induction false} ServesEmptyAnswers(cfg: Config, workers: nat, a: Addr, n: nat)
    requires workers >= 1 && (n == 0 || n <= DialLimit(cfg))
    ensures Midway(0, Serve(cfg, Started(workers), EmptyAnswers(a, n)), a, n)
  {
    if n == 0 {
      NothingServed(cfg, workers, a);
    } else {
      ServesEmptyAnswers(cfg, workers, a, n - 1);
      OneMoreEmptyAnswer(cfg, Started(workers), EmptyAnswers(a, n - 1), a, n - 1);
    }
  }

  // ---------- No way back ----------

  ghost predicate AllStale(cfg: Config, free: seq<IdleConn>, clock: int) {
    forall e :: e in free ==> IsStale(cfg, e, clock)
  }

  /** Inside an Acquire that has not found, and will not find, a connection to reuse, and has not passed dialNew's check. */
  ghost predicate WithoutHope(cfg: Config, w: Worker, clock: int) {
    && w.phase.Acquiring?
    && match w.call
       case AcquireUnlock(e, _) => IsStale(cfg, e, clock)
       case CheckIdle(e, _) => IsStale(cfg, e, clock)
       case StaleClose(_) => true
       case StaleUncount => true
       case AcquireLock => true
       case AcquirePop => true
       case AcquireUnlockEmpty => true
       case DialCheck => true
       case _ => false
  }

  /** What is idle has been idle since `was`, all of it is stale, and nobody at work for the address owns a connection. */
  ghost predicate Lost(cfg: Config, s: Proxy, a: Addr, was: seq<IdleConn>) {
    && PoolAt(s.pools, a).free <= was && AllStale(cfg, was, s.clock)
    && forall w :: w in s.workers && AddrOf(w.phase) == Some(a) ==> WithoutHope(cfg, w, s.clock)
  }

  lemma {:induction false} LocalLost(cfg: Config, p: Pool, clock: int, e: Event, w: Worker, a: Addr, was: seq<IdleConn>)
    requires !e.Elapse? && Target(e, w) == a
    requires p.free <= was && AllStale(cfg, was, clock) && p.count >= DialLimit(cfg)
    requires AddrOf(w.phase) == Some(a) ==> WithoutHope(cfg, w, clock)
    ensures var l := LocalStep(cfg, p, clock, e, w, a);
            l.pool.free <= was && (AddrOf(l.worker.phase) == Some(a) ==> WithoutHope(cfg, l.worker, clock))
  {
    assert p.free != [] ==> Last(p.free) in was;
  }

  lemma {:induction false} LocalElsewhere(cfg: Config, p: Pool, clock: int, e: Event, w: Worker, a: Addr)
    requires !e.Elapse? && Target(e, w) != a
    requires AddrOf(w.phase) == Some(a) ==> WithoutHope(cfg, w, clock)
    ensures var w' := LocalStep(cfg, p, clock, e, w, Target(e, w)).worker;
            AddrOf(w'.phase) == Some(a) ==> WithoutHope(cfg, w', clock)
  {
  }

  lemma {:induction false} NextLost(cfg: Config, s: Proxy, e: Event, a: Addr, was: seq<IdleConn>)
    requires Lost(cfg, s, a, was) && PoolAt(s.pools, a).count >= DialLimit(cfg)
    ensures Lost(cfg, Next(cfg, s, e), a, was)
  {
    if !e.Elapse? && e.t < |s.workers| {
      var w := s.workers[e.t];
      var b := Target(e, w);
      if b == a {
        LocalLost(cfg, PoolAt(s.pools, a), s.clock, e, w, a, was);
      } else {
        LocalElsewhere(cfg, PoolAt(s.pools, b), s.clock, e, w, a);
      }
    }
  }

  /** An address that is lost while its unsettled bodies take every slot stays lost in every continuation. */
  lemma {:induction false} LostForever(cfg: Config, workers: nat, events: seq<Event>, more: seq<Event>, a: Addr, was: seq<IdleConn>)
    requires cfg.max >= 0
    requires var s := Serve(cfg, Started(workers), events);
             Lost(cfg, s, a, was) && Sum(LeftBy(a), s.workers) >= DialLimit(cfg)
    ensures Lost(cfg, Serve(cfg, Serve(cfg, Started(workers), events), more), a, was)
  {
    if more == [] {
    } else {
      var s := Serve(cfg, Started(workers), events);
      LostForever(cfg, workers, events, Front(more), a, was);
      LeftReachLimit(cfg, workers, events, Front(more), a);
      ServeConcat(cfg, Started(workers), events, Front(more));
      NextLost(cfg, Serve(cfg, s, Front(more)), Last(more), a, was);
    }
  }

  // ---------- A way to a connection ----------

  /** Somebody at work for the address owns a connection. */
  ghost predicate Serving(s: Proxy, a: Addr) {
    exists w :: w in s.workers && AddrOf(w.phase) == Some(a) && OwnedBy(w.phase).Some?
  }

  /** Some continuation brings that about. */
  ghost predicate CanServe(cfg: Config, s: Proxy, a: Addr) {
    exists more :: Serving(Serve(cfg, s, more), a)
  }

  lemma {:induction false} CanServeEarlier(cfg: Config, s: Proxy, events: seq<Event>, a: Addr)
    requires CanServe(cfg, Serve(cfg, s, events), a)
    ensures CanServe(cfg, s, a)
  {
    var more :| Serving(Serve(cfg, Serve(cfg, s, events), more), a);
    ServeConcat(cfg, s, events, more);
  }

  lemma {:induction false} ServesNow(cfg: Config, s: Proxy, t: nat, a: Addr)
    requires t < |s.workers| && AddrOf(s.workers[t].phase) == Some(a) && OwnedBy(s.workers[t].phase).Some?
    ensures CanServe(cfg, s, a)
  {
    assert Serve(cfg, s, []) == s;
    assert s.workers[t] in s.workers;
  }

  lemma {:induction false} CanServeNext(cfg: Config, s: Proxy, e: Event, a: Addr)
    requires CanServe(cfg, Next(cfg, s, e), a)
    ensures CanServe(cfg, s, a)
  {
    assert Front([e]) == [] && Serve(cfg, s, []) == s;
    assert Serve(cfg, s, [e]) == Next(cfg, s, e);
    CanServeEarlier(cfg, s, [e], a);
  }

  /** A request by goroutine 0 that takes the top off the stack and, if that is stale, goes on to dialNew's check. */
  function Pops(a: Addr): seq<Event> {
    var go := InPool(0, true);
    [Begin(0, a), go, go, go, go, go, go]
  }

  /** Its instruction after `k` of these events, when the stack was `free`. */
  function PopCall(k: nat, free: seq<IdleConn>): Pc
    requires free != []
  {
    if k == 1 then AcquireLock
    else if k == 2 then AcquirePop
    else if k == 3 then AcquireUnlock(Last(free), free)
    else if k == 4 then CheckIdle(Last(free), free)
    else if k == 5 then StaleClose(Last(free).conn)
    else if k == 6 then StaleUncount
    else if k == 7 then DialCheck
    else Outside
  }

  ghost predicate PoppedPool(k: nat, p: Pool, free: seq<IdleConn>, n: int)
    requires free != []
  {
    && p.free == (if k <= 2 then free else Front(free))
    && p.count == (if k <= 6 then n else n - 1)
    && p.holder == (if k == 2 || k == 3 then Some(0) else None)
  }

  /** After `k` of these events from a state at rest with stack `free`, `n` counted and `left` bodies unsettled. */
  ghost predicate Popping(k: nat, s: Proxy, a: Addr, free: seq<IdleConn>, n: int, left: int, clock: int)
    requires free != []
  {
    && s.workers != [] && s.clock == clock
    && s.workers[0].phase == (if k == 0 then Between else Acquiring(a)) && s.workers[0].call == PopCall(k, free)
    && PoppedPool(k, PoolAt(s.pools, a), free, n)
    && Sum(LeftBy(a), s.workers) == left
    && forall i :: 1 <= i < |s.workers| ==> s.workers[i].phase.Between?
  }

  lemma {:induction false} LocalPop(cfg: Config, p: Pool, clock: int, k: nat, w: Worker, a: Addr, free: seq<IdleConn>, n: int)
    requires free != [] && k < 7 && (k >= 4 ==> IsStale(cfg, Last(free), clock))
    requires w.phase == (if k == 0 then Between else Acquiring(a)) && w.call == PopCall(k, free)
    requires PoppedPool(k, p, free, n)
    ensures Target(Pops(a)[k], w) == a
    ensures var l := LocalStep(cfg, p, clock, Pops(a)[k], w, a);
            && l.worker.phase == Acquiring(a) && l.worker.call == PopCall(k + 1, free)
            && PoppedPool(k + 1, l.pool, free, n) && l.worker.left == w.left
  {
  }

  lemma {:induction false} NextPop(cfg: Config, s: Proxy, k: nat, a: Addr, free: seq<IdleConn>, n: int, left: int)
    requires free != [] && k < 7 && (k >= 4 ==> IsStale(cfg, Last(free), s.clock))
    requires Popping(k, s, a, free, n, left, s.clock)
    ensures Popping(k + 1, Next(cfg, s, Pops(a)[k]), a, free, n, left, s.clock)
  {
    var e, w := Pops(a)[k], s.workers[0];
    var l := LocalStep(cfg, PoolAt(s.pools, a), s.clock, e, w, a);
    LocalPop(cfg, PoolAt(s.pools, a), s.clock, k, w, a, free, n);
    NextIsLocal(cfg, s, e, w, a, l);
    SumUpdate(LeftBy(a), s.workers, 0, l.worker);
  }

  lemma {:induction false} LastPop(cfg: Config, s: Proxy, events: seq<Event>, k: nat, a: Addr, free: seq<IdleConn>, n: int, left: int, clock: int)
    requires free != [] && k < 7 && (k >= 4 ==> IsStale(cfg, Last(free), clock))
    requires events != [] && Last(events) == Pops(a)[k]
    requires Popping(k, Serve(cfg, s, Front(events)), a, free, n, left, clock)
    ensures Popping(k + 1, Serve(cfg, s, events), a, free, n, left, clock)
  {
    NextPop(cfg, Serve(cfg, s, Front(events)), k, a, free, n, left);
  }

  lemma {:induction false} ServePops(cfg: Config, s: Proxy, k: nat, a: Addr, free: seq<IdleConn>, n: int, left: int)
    requires free != [] && k <= 7 && (k > 4 ==> IsStale(cfg, Last(free), s.clock))
    requires Popping(0, s, a, free, n, left, s.clock)
    ensures Popping(k, Serve(cfg, s, Pops(a)[..k]), a, free, n, left, s.clock)
  {
    if k == 0 {
    } else {
      ServePops(cfg, s, k - 1, a, free, n, left);
      assert Front(Pops(a)[..k]) == Pops(a)[..k - 1] && Last(Pops(a)[..k]) == Pops(a)[k - 1];
      LastPop(cfg, s, Pops(a)[..k], k - 1, a, free, n, left, s.clock);
    }
  }

  lemma {:induction false} FreshIsReused(cfg: Config, s: Proxy, a: Addr, free: seq<IdleConn>, n: int, left: int)
    requires free != [] && !IsStale(cfg, Last(free), s.clock) && Popping(4, s, a, free, n, left, s.clock)
    ensures CanServe(cfg, s, a)
  {
    ServesNow(cfg, Next(cfg, s, InPool(0, true)), 0, a);
    CanServeNext(cfg, s, InPool(0, true), a);
  }

  /** Goroutine 0 is about to execute an instruction of dialNew for the address. */
  ghost predicate AtDial(s: Proxy, a: Addr, pc: Pc) {
    s.workers != [] && s.workers[0].phase == Acquiring(a) && s.workers[0].call == pc
  }

  lemma {:induction false} DialsToServe(cfg: Config, s: Proxy, a: Addr)
    requires AtDial(s, a, Dial)
    ensures CanServe(cfg, s, a)
  {
    ServesNow(cfg, Next(cfg, s, InPool(0, true)), 0, a);
    CanServeNext(cfg, s, InPool(0, true), a);
  }

  lemma {:induction false} CountsToServe(cfg: Config, s: Proxy, a: Addr)
    requires AtDial(s, a, DialCount)
    ensures CanServe(cfg, s, a)
  {
    DialsToServe(cfg, Next(cfg, s, InPool(0, true)), a);
    CanServeNext(cfg, s, InPool(0, true), a);
  }

  lemma {:induction false} ChecksToServe(cfg: Config, s: Proxy, a: Addr)
    requires AtDial(s, a, DialCheck) && PoolAt(s.pools, a).count < DialLimit(cfg)
    ensures CanServe(cfg, s, a)
  {
    CountsToServe(cfg, Next(cfg, s, InPool(0, true)), a);
    CanServeNext(cfg, s, InPool(0, true), a);
  }

  /** A refused request leaves the proxy at rest, with a stale connection fewer. */
  lemma {:induction false} RefusedRests(cfg: Config, s: Proxy, a: Addr, free: seq<IdleConn>, n: int, left: int)
    requires free != [] && n - 1 >= DialLimit(cfg) && Popping(7, s, a, free, n, left, s.clock)
    ensures var s' := Next(cfg, s, InPool(0, true));
            && AtRest(s') && s'.clock == s.clock && |s'.workers| == |s.workers|
            && PoolAt(s'.pools, a).free == Front(free) && Sum(LeftBy(a), s'.workers) == left
  {
    var s', w := Next(cfg, s, InPool(0, true)), s.workers[0];
    assert s'.workers[0].phase == Between && s'.workers[0].left == w.left;
    SumUpdate(LeftBy(a), s.workers, 0, s'.workers[0]);
  }

  lemma {:induction false} EmptyStackServes(cfg: Config, s: Proxy, a: Addr, n: int)
    requires Midway(0, s, a, n) && n < DialLimit(cfg)
    ensures CanServe(cfg, s, a)
  {
    ServeMidway(cfg, s, 7, a, n);
    ServesNow(cfg, Serve(cfg, s, EmptyAnswer(a)[..7]), 0, a);
    CanServeEarlier(cfg, s, EmptyAnswer(a)[..7], a);
  }

  /** Dropping a stale connection makes room for a new one, or leaves the proxy at rest with one fewer. */
  lemma {:induction false} EvictionServesOrRests(cfg: Config, s: Proxy, a: Addr, free: seq<IdleConn>, n: int, left: int)
    requires free != [] && IsStale(cfg, Last(free), s.clock) && Popping(0, s, a, free, n, left, s.clock)
    ensures var s' := Next(cfg, Serve(cfg, s, Pops(a)), InPool(0, true));
            || CanServe(cfg, s, a)
            || (AtRest(s') && |s'.workers| == |s.workers| && PoolAt(s'.pools, a).free == Front(free) &&
                Sum(LeftBy(a), s'.workers) == left)
  {
    ServePops(cfg, s, 7, a, free, n, left);
    assert Pops(a)[..7] == Pops(a);
    var s7 := Serve(cfg, s, Pops(a));
    if n - 1 < DialLimit(cfg) {
      ChecksToServe(cfg, s7, a);
      CanServeEarlier(cfg, s, Pops(a), a);
    } else {
      RefusedRests(cfg, s7, a, free, n, left);
      WorkersStay(cfg, s, Pops(a));
    }
  }

  lemma {:induction false} WorkersStay(cfg: Config, s: Proxy, events: seq<Event>)
    ensures |Serve(cfg, s, events).workers| == |s.workers|
  {
    if events == [] {
    } else {
      WorkersStay(cfg, s, Front(events));
    }
  }

  /** At rest, with a slot that no unsettled body takes: let stale connections go one by one, then dial. */
  lemma {:induction false} FreeSlotServes(cfg: Config, workers: nat, events: seq<Event>, a: Addr)
    requires cfg.max >= 0 && workers >= 1 && AtRest(Serve(cfg, Started(workers), events))
    requires Sum(LeftBy(a), Serve(cfg, Started(workers), events).workers) < DialLimit(cfg)
    ensures CanServe(cfg, Serve(cfg, Started(workers), events), a)
    decreases |PoolAt(Serve(cfg, Started(workers), events).pools, a).free|
  {
    var s := Serve(cfg, Started(workers), events);
    var free, n, left := PoolAt(s.pools, a).free, PoolAt(s.pools, a).count, Sum(LeftBy(a), s.workers);
    RestsAtStart(cfg, workers, events, a);
    if free == [] {
      EmptyStackServes(cfg, s, a, n);
    } else if !IsStale(cfg, Last(free), s.clock) {
      FreshTopServes(cfg, workers, events, a);
    } else {
      EvictionServesOrRests(cfg, s, a, free, n, left);
      if !CanServe(cfg, s, a) {
        RunsOn(cfg, workers, events, a);
        FreeSlotServes(cfg, workers, events + Pops(a) + [InPool(0, true)], a);
        CanServeNext(cfg, Serve(cfg, s, Pops(a)), InPool(0, true), a);
        CanServeEarlier(cfg, s, Pops(a), a);
        assert false;
      }
    }
  }

  lemma {:induction false} RunsOn(cfg: Config, workers: nat, events: seq<Event>, a: Addr)
    ensures Serve(cfg, Started(workers), events + Pops(a) + [InPool(0, true)]) ==
            Next(cfg, Serve(cfg, Serve(cfg, Started(workers), events), Pops(a)), InPool(0, true))
  {
    ServeConcat(cfg, Started(workers), events, Pops(a));
    assert Front(events + Pops(a) + [InPool(0, true)]) == events + Pops(a);
  }

  lemma {:induction false} RestsAtStart(cfg: Config, workers: nat, events: seq<Event>, a: Addr)
    requires cfg.max >= 0 && workers >= 1 && AtRest(Serve(cfg, Started(workers), events))
    ensures var s := Serve(cfg, Started(workers), events);
            var p := PoolAt(s.pools, a);
            && (p.free == [] ==> Midway(0, s, a, p.count) && p.count == Sum(LeftBy(a), s.workers))
            && (p.free != [] ==> Popping(0, s, a, p.free, p.count, Sum(LeftBy(a), s.workers), s.clock))
  {
    var s := Serve(cfg, Started(workers), events);
    AccountsAtRest(cfg, workers, events, a);
    ProxyRefinesProtocol(cfg, workers, events, a);
    RunThreads(cfg, Init(workers), MirrorAll(cfg, a, Started(workers), events));
    assert |At(a, s).threads| == |s.workers|;
    assert s.workers[0] in s.workers;
    assert SystemSafety.WorkerOk(s.workers[0]);
  }

  lemma {:induction false} FreshTopServes(cfg: Config, workers: nat, events: seq<Event>, a: Addr)
    requires cfg.max >= 0 && workers >= 1 && AtRest(Serve(cfg, Started(workers), events))
    requires var s := Serve(cfg, Started(workers), events);
             PoolAt(s.pools, a).free != [] && !IsStale(cfg, Last(PoolAt(s.pools, a).free), s.clock)
    ensures CanServe(cfg, Serve(cfg, Started(workers), events), a)
  {
    var s := Serve(cfg, Started(workers), events);
    var free, n, left := PoolAt(s.pools, a).free, PoolAt(s.pools, a).count, Sum(LeftBy(a), s.workers);
    RestsAtStart(cfg, workers, events, a);
    ServePops(cfg, s, 4, a, free, n, left);
    FreshIsReused(cfg, Serve(cfg, s, Pops(a)[..4]), a, free, n, left);
    CanServeEarlier(cfg, s, Pops(a)[..4], a);
  }

  // ---------- Exactly when an address can serve again ----------

  lemma {:induction false} LostIsNotServing(cfg: Config, s: Proxy, a: Addr, was: seq<IdleConn>)
    requires Lost(cfg, s, a, was)
    ensures !Serving(s, a)
  {
  }

  /** With the top of a sorted stack, all of it is stale. */
  lemma {:induction false} RestIsLost(cfg: Config, workers: nat, events: seq<Event>, a: Addr)
    requires cfg.max >= 0 && AtRest(Serve(cfg, Started(workers), events))
    requires var s := Serve(cfg, Started(workers), events);
             PoolAt(s.pools, a).free == [] || IsStale(cfg, Last(PoolAt(s.pools, a).free), s.clock)
    ensures var s := Serve(cfg, Started(workers), events); Lost(cfg, s, a, PoolAt(s.pools, a).free)
  {
    ProxySafety(cfg, workers, events, a);
    var s := Serve(cfg, Started(workers), events);
    assert ProtocolSafety.Sorted(At(a, s).pool.free);
  }

  /**
   When all requests have ended, an address can ever serve again exactly when a slot is left that no unsettled body
   takes, or the connection returned last is still fresh: reused, it needs no slot.
   */
  lemma {:induction false} CanServeAgainIff(cfg: Config, workers: nat, events: seq<Event>, a: Addr)
    requires cfg.max >= 0 && workers >= 1 && AtRest(Serve(cfg, Started(workers), events))
    ensures var s := Serve(cfg, Started(workers), events);
            var free := PoolAt(s.pools, a).free;
            CanServe(cfg, s, a) <==>
              Sum(LeftBy(a), s.workers) < DialLimit(cfg) ||
              (free != [] && s.clock - free[|free| - 1].returnedAt <= cfg.idleTimeout)
  {
    var s := Serve(cfg, Started(workers), events);
    var free := PoolAt(s.pools, a).free;
    if Sum(LeftBy(a), s.workers) < DialLimit(cfg) {
      FreeSlotServes(cfg, workers, events, a);
    } else if free != [] && !IsStale(cfg, Last(free), s.clock) {
      FreshTopServes(cfg, workers, events, a);
    } else {
      RestIsLost(cfg, workers, events, a);
      forall more ensures !Serving(Serve(cfg, s, more), a) {
        LostForever(cfg, workers, events, more, a, free);
        LostIsNotServing(cfg, Serve(cfg, s, more), a, free);
      }
    }
  }

  /**
   For every limit: that many successful requests with empty answers, one after another and with nothing else idle,
   leave all requests ended and the address unable ever to serve again. In every continuation nothing is idle, every
   slot stays taken, and whoever comes to dial is refused.
   */
  lemma {:induction false} EmptyAnswersExhaust(cfg: Config, workers: nat, a: Addr, more: seq<Event>, t: nat, dialOk: bool)
    requires cfg.max >= 0 && DialLimit(cfg) >= 1 && workers >= 1
    ensures var s := Serve(cfg, Started(workers), EmptyAnswers(a, DialLimit(cfg)));
            && AtRest(s) && PoolAt(s.pools, a).free == [] && PoolAt(s.pools, a).count == DialLimit(cfg)
            && !CanServe(cfg, s, a)
    ensures var s := Serve(cfg, Started(workers), EmptyAnswers(a, DialLimit(cfg)) + more);
            && PoolAt(s.pools, a).free == [] && PoolAt(s.pools, a).count >= DialLimit(cfg)
            && (forall w :: w in s.workers && AddrOf(w.phase) == Some(a) ==> OwnedBy(w.phase) == None)
            && (t < |s.workers| && AddrOf(s.workers[t].phase) == Some(a) && s.workers[t].call.DialCheck? ==>
                  var s' := Next(cfg, s, InPool(t, dialOk));
                  s'.workers[t].phase == Between && a in s'.workers[t].lasts && s'.workers[t].lasts[a] == Refused)
  {
    var spent := EmptyAnswers(a, DialLimit(cfg));
    var s := Serve(cfg, Started(workers), spent);
    ServesEmptyAnswers(cfg, workers, a, DialLimit(cfg));
    CanServeAgainIff(cfg, workers, spent, a);
    RestIsLost(cfg, workers, spent, a);
    LostForever(cfg, workers, spent, more, a, []);
    ServeConcat(cfg, Started(workers), spent, more);
    LostIsNotServing(cfg, Serve(cfg, s, more), a, []);
    LeftReachLimit(cfg, workers, spent, more, a);
    ExhaustedRefuses(cfg, workers, spent, more, a, t, dialOk);
  }

  lemma {:induction false} ExhaustedRefuses(cfg: Config, workers: nat, events: seq<Event>, more: seq<Event>, a: Addr, t: nat, dialOk: bool)
    requires cfg.max >= 0 && Sum(LeftBy(a), Serve(cfg, Started(workers), events).workers) >= DialLimit(cfg)
    ensures var s := Serve(cfg, Started(workers), events + more);
            t < |s.workers| && AddrOf(s.workers[t].phase) == Some(a) && s.workers[t].call.DialCheck? ==>
              var s' := Next(cfg, s, InPool(t, dialOk));
              s'.workers[t].phase == Between && a in s'.workers[t].lasts && s'.workers[t].lasts[a] == Refused
  {
    var s := Serve(cfg, Started(workers), events + more);
    if t < |s.workers| && AddrOf(s.workers[t].phase) == Some(a) && s.workers[t].call.DialCheck? {
      RefusedForever(cfg, workers, events, more, a, t, dialOk);
    }
  }
}
