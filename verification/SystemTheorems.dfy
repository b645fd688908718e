/** What the proxy as a whole guarantees: the pool protocol at every address, and exact accounts at rest. */
module SystemTheorems {
  import opened Limits
  import opened Sums
  import opened Protocol
  import opened ProtocolSafety
  import opened System
  import opened SystemSafety
  import Handler
  import ProtocolTheorems
  import DialRaces
  import PoolReader

  // ---------- The proxy refines the pool protocol at every address ----------

  ghost predicate AllOk(s: Proxy) {
    forall i :: 0 <= i < |s.workers| ==> WorkerOk(s.workers[i])
  }

  /** The protocol action an event is for the pool of address `b`. */
  ghost function MirrorAt(b: Addr, s: Proxy, e: Event): Action {
    if e.Elapse? then Tick(e.elapsed)
    else if e.t < |s.workers| && Target(e, s.workers[e.t]) == b then Mirror(e, s.workers[e.t])
    else Tick(0)
  }

  lemma {:induction false} ClientsUpdate(b: Addr, workers: seq<Worker>, t: nat, w: Worker)
    requires t < |workers|
    ensures Clients(b, workers[t := w]) == Clients(b, workers)[t := ClientAt(b, w)]
    ensures ClientAt(b, w) == ClientAt(b, workers[t]) ==> Clients(b, workers[t := w]) == Clients(b, workers)
  {
  }

  lemma {:induction false} NextKeepsOk(cfg: Config, s: Proxy, e: Event)
    requires AllOk(s)
    ensures AllOk(Next(cfg, s, e))
  {
    if !e.Elapse? && e.t < |s.workers| {
      var w := s.workers[e.t];
      WorkerStaysOk(cfg, PoolAt(s.pools, Target(e, w)), s.clock, e, w);
    }
  }

  /** The step of a worker, as a step of the state that the touched pool sees. */
  lemma {:induction false} MirrorIsStep(cfg: Config, s: State, m: Action, t: nat, p': Pool, th': Thread)
    requires t < |s.threads| && (m == Tick(0) || (!m.Tick? && m.t == t))
    requires (p', th') == MirrorStep(cfg, s.pool, s.clock, m, s.threads[t])
    ensures Step(cfg, s, m) == s.(pool := p', threads := s.threads[t := th'])
  {
    if m.Tick? {
      assert s.threads[t := th'] == s.threads;
    }
  }

  /** A step changes one goroutine and the pool of its address, as its local step says. */
  lemma {:induction false} NextIsLocal(cfg: Config, s: Proxy, e: Event, w: Worker, b: Addr, l: Local)
    requires !e.Elapse? && e.t < |s.workers| && w == s.workers[e.t] && b == Target(e, w)
    requires l == LocalStep(cfg, PoolAt(s.pools, b), s.clock, e, w, b)
    ensures var s' := Next(cfg, s, e);
            s'.workers == s.workers[e.t := l.worker] && PoolAt(s'.pools, b) == l.pool && s'.clock == s.clock
  {
  }

  lemma {:induction false} HereFromLocal(cfg: Config, s: Proxy, s': Proxy, b: Addr, t: nat, m: Action, w': Worker, p': Pool)
    requires t < |s.workers| && s'.workers == s.workers[t := w'] && PoolAt(s'.pools, b) == p' && s'.clock == s.clock
    requires m.Tick? ==> m.elapsed == 0
    requires !m.Tick? ==> m.t == t
    requires (p', ClientAt(b, w')) == MirrorStep(cfg, PoolAt(s.pools, b), s.clock, m, ClientAt(b, s.workers[t]))
    ensures At(b, s') == Step(cfg, At(b, s), m)
  {
    ClientsUpdate(b, s.workers, t, w');
    MirrorIsStep(cfg, At(b, s), m, t, p', ClientAt(b, w'));
  }

  lemma {:induction false} NextHere(cfg: Config, s: Proxy, e: Event)
    requires AllOk(s) && !e.Elapse? && e.t < |s.workers|
    ensures var w := s.workers[e.t];
            var b := Target(e, w);
            At(b, Next(cfg, s, e)) == Step(cfg, At(b, s), Mirror(e, w))
  {
    var t, w := e.t, s.workers[e.t];
    var b := Target(e, w);
    var l := LocalStep(cfg, PoolAt(s.pools, b), s.clock, e, w, b);
    assert Mirrors(cfg, PoolAt(s.pools, b), s.clock, e, w, b) by {
      LocalMirrors(cfg, PoolAt(s.pools, b), s.clock, e, w);
    }
    NextIsLocal(cfg, s, e, w, b, l);
    HereFromLocal(cfg, s, Next(cfg, s, e), b, t, Mirror(e, w), l.worker, l.pool);
  }

  lemma {:induction false} NextElsewhere(cfg: Config, s: Proxy, e: Event, b: Addr)
    requires AllOk(s) && !e.Elapse? && e.t < |s.workers| && b != Target(e, s.workers[e.t])
    ensures At(b, Next(cfg, s, e)) == At(b, s)
  {
    var w := s.workers[e.t];
    var l := LocalStep(cfg, PoolAt(s.pools, Target(e, w)), s.clock, e, w, Target(e, w));
    ElsewhereUnchanged(cfg, PoolAt(s.pools, Target(e, w)), s.clock, e, w, b);
    ClientsUpdate(b, s.workers, e.t, l.worker);
  }

  lemma {:induction false} NextMirrors(cfg: Config, s: Proxy, e: Event, b: Addr)
    requires AllOk(s)
    ensures At(b, Next(cfg, s, e)) == Step(cfg, At(b, s), MirrorAt(b, s, e))
  {
    if !e.Elapse? && e.t < |s.workers| {
      if b == Target(e, s.workers[e.t]) {
        NextHere(cfg, s, e);
      } else {
        NextElsewhere(cfg, s, e, b);
      }
    }
  }

  ghost function MirrorAll(cfg: Config, b: Addr, s: Proxy, events: seq<Event>): seq<Action> {
    if events == [] then []
    else MirrorAll(cfg, b, s, Front(events)) + [MirrorAt(b, Serve(cfg, s, Front(events)), Last(events))]
  }

  /**
   Composition: at every address, every run of the proxy is a run of the pool protocol. The protocol lets a client
   give back only what it leases, so the handlers and the body readers never do anything else.
   */
  lemma {:induction false} ProxyRefinesProtocol(cfg: Config, workers: nat, events: seq<Event>, b: Addr)
    ensures AllOk(Serve(cfg, Started(workers), events))
    ensures At(b, Serve(cfg, Started(workers), events)) ==
            Run(cfg, Init(workers), MirrorAll(cfg, b, Started(workers), events))
  {
    if events == [] {
      assert At(b, Started(workers)).threads == Init(workers).threads;
    } else {
      ProxyRefinesProtocol(cfg, workers, Front(events), b);
      NextMirrors(cfg, Serve(cfg, Started(workers), Front(events)), Last(events), b);
      NextKeepsOk(cfg, Serve(cfg, Started(workers), Front(events)), Last(events));
    }
  }

  /** Hence the protocol's invariant holds at every address, with no assumption about the clients. */
  lemma {:induction false} ProxySafety(cfg: Config, workers: nat, events: seq<Event>, b: Addr)
    requires cfg.max >= 0
    ensures Inv(cfg, At(b, Serve(cfg, Started(workers), events)))
  {
    ProxyRefinesProtocol(cfg, workers, events, b);
    Safety(cfg, workers, MirrorAll(cfg, b, Started(workers), events));
  }

  /** A request that owns a connection has it open, off the stack, and to itself. */
  lemma {:induction false} OwnedByOneRequest(cfg: Config, workers: nat, events: seq<Event>, a: Addr, i: nat, c: ConnId)
    requires cfg.max >= 0
    requires var s := Serve(cfg, Started(workers), events);
             i < |s.workers| && AddrOf(s.workers[i].phase) == Some(a) && OwnedBy(s.workers[i].phase) == Some(c)
    ensures var s := Serve(cfg, Started(workers), events);
            var p := PoolAt(s.pools, a);
            && c in p.open
            && (forall k :: 0 <= k < |p.free| ==> p.free[k].conn != c)
            && (forall j :: 0 <= j < |s.workers| && j != i ==>
                  AddrOf(s.workers[j].phase) != Some(a) || OwnedBy(s.workers[j].phase) != Some(c))
  {
    ProxyRefinesProtocol(cfg, workers, events, a);
    var s := Serve(cfg, Started(workers), events);
    assert Copies(c)(At(a, s).threads[i]) >= 1;
    ProtocolTheorems.OwnedByOne(cfg, workers, MirrorAll(cfg, a, Started(workers), events), i, c);
    forall j | 0 <= j < |s.workers| && j != i
      ensures AddrOf(s.workers[j].phase) != Some(a) || OwnedBy(s.workers[j].phase) != Some(c)
    {
      assert Copies(c)(At(a, s).threads[j]) == 0;
    }
  }

  /** With so many goroutines serving requests, no upstream ever has more than limit - 1 + workers connections counted. */
  lemma {:induction false} ProxyCountBound(cfg: Config, workers: nat, events: seq<Event>, a: Addr)
    requires cfg.max >= 0 && DialLimit(cfg) >= 1 && workers >= 1
    ensures PoolAt(Serve(cfg, Started(workers), events).pools, a).count <= DialLimit(cfg) - 1 + workers
  {
    var schedule := MirrorAll(cfg, a, Started(workers), events);
    ProxyRefinesProtocol(cfg, workers, events, a);
    DialRaces.PeakAtMostThreads(cfg, workers, schedule);
    DialRaces.CountBound(cfg, workers, schedule, workers);
    SumNonNegative(DialRaces.Committed, Run(cfg, Init(workers), schedule).threads);
  }

  // ---------- Accounts ----------

  /** How many bodies of address `a` a worker left without settling. */
  ghost function NumberLeft(a: Addr, left: seq<Body>): nat {
    if left == [] then 0 else NumberLeft(a, Front(left)) + (if Last(left).addr == a then 1 else 0)
  }

  ghost function LeftBy(a: Addr): Worker -> int {
    (w: Worker) => NumberLeft(a, w.left)
  }

  ghost predicate AtRest(s: Proxy) {
    forall w :: w in s.workers ==> w.phase == Between
  }

  lemma {:induction false} NumberLeftIsSize(a: Addr, left: seq<Body>)
    ensures |LeftAt(a, left)| == NumberLeft(a, left)
  {
    if left == [] {
    } else {
      NumberLeftIsSize(a, Front(left));
    }
  }

  lemma {:induction false} ShareCoversLeft(a: Addr, w: Worker)
    ensures Weight(ClientAt(a, w)) >= NumberLeft(a, w.left)
    ensures w.phase == Between && w.call == Outside ==> Weight(ClientAt(a, w)) == NumberLeft(a, w.left)
  {
    NumberLeftIsSize(a, w.left);
  }

  /** The clients' shares of `count` cover the bodies left, and are nothing else when all requests have ended. */
  lemma {:induction false} SharesCoverLeft(a: Addr, workers: seq<Worker>)
    ensures Sum(Weight, Clients(a, workers)) >= Sum(LeftBy(a), workers)
    ensures (forall w :: w in workers ==> w.phase == Between && w.call == Outside) ==>
              Sum(Weight, Clients(a, workers)) == Sum(LeftBy(a), workers)
  {
    if workers == [] {
    } else {
      SharesCoverLeft(a, workers[1..]);
      ShareCoversLeft(a, workers[0]);
      assert Clients(a, workers)[1..] == Clients(a, workers[1..]);
      assert Clients(a, workers)[0] == ClientAt(a, workers[0]);
    }
  }

  /** At any time the bodies left without settling occupy slots of `count` besides the idle connections. */
  lemma {:induction false} LeftOccupiesSlots(cfg: Config, workers: nat, events: seq<Event>, a: Addr)
    requires cfg.max >= 0
    ensures var s := Serve(cfg, Started(workers), events);
            PoolAt(s.pools, a).count >= |PoolAt(s.pools, a).free| + Sum(LeftBy(a), s.workers)
  {
    ProxySafety(cfg, workers, events, a);
    SharesCoverLeft(a, Serve(cfg, Started(workers), events).workers);
  }

  lemma {:induction false} HolderIsCritical(s: State)
    requires Locked(s) && s.pool.holder.Some?
    ensures Critical(s.threads[s.pool.holder.value].pc)
  {
  }

  /**
   Once all requests have ended, `count` of an address is its idle connections plus its bodies that never settled;
   and a body failed to settle only because its length was 0 or it was read neither to its limit nor to an error.
   */
  lemma {:induction false} AccountsAtRest(cfg: Config, workers: nat, events: seq<Event>, a: Addr)
    requires cfg.max >= 0 && AtRest(Serve(cfg, Started(workers), events))
    ensures var s := Serve(cfg, Started(workers), events);
            && PoolAt(s.pools, a).count == |PoolAt(s.pools, a).free| + Sum(LeftBy(a), s.workers)
            && PoolAt(s.pools, a).holder == None
            && forall w, b :: w in s.workers && b in w.left ==> Unsettled(b)
  {
    ProxySafety(cfg, workers, events, a);
    ProxyRefinesProtocol(cfg, workers, events, a);
    var s := Serve(cfg, Started(workers), events);
    assert forall w :: w in s.workers ==> WorkerOk(w) && w.call == Outside;
    SharesCoverLeft(a, s.workers);
    var at := At(a, s);
    if at.pool.holder.Some? {
      HolderIsCritical(at);
      assert false;
    }
  }

  // ---------- Slots that never come back ----------

  lemma {:induction false} LeftOnlyGrows(cfg: Config, s: Proxy, e: Event, a: Addr)
    ensures Sum(LeftBy(a), Next(cfg, s, e).workers) >= Sum(LeftBy(a), s.workers)
    ensures |Next(cfg, s, e).workers| == |s.workers|
  {
    if !e.Elapse? && e.t < |s.workers| {
      var w := s.workers[e.t];
      SumUpdate(LeftBy(a), s.workers, e.t, Next(cfg, s, e).workers[e.t]);
      if w.phase.Streaming? {
        assert Front(w.left + [w.phase.body]) == w.left;
      }
    }
  }

  lemma {:induction false} LeftStays(cfg: Config, s: Proxy, events: seq<Event>, a: Addr)
    ensures Sum(LeftBy(a), Serve(cfg, s, events).workers) >= Sum(LeftBy(a), s.workers)
  {
    if events == [] {
    } else {
      LeftStays(cfg, s, Front(events), a);
      LeftOnlyGrows(cfg, Serve(cfg, s, Front(events)), Last(events), a);
    }
  }

  lemma {:induction false} ServeConcat(cfg: Config, s: Proxy, a: seq<Event>, b: seq<Event>)
    ensures Serve(cfg, s, a + b) == Serve(cfg, Serve(cfg, s, a), b)
  {
    if b == [] {
      assert a + b == a;
    } else {
      ServeConcat(cfg, s, a, Front(b));
      assert Front(a + b) == a + Front(b);
    }
  }

  /** Ending a request whose answer declared no bytes leaves one more body unsettled, whatever was read of it. */
  lemma {:induction false} ZeroLengthLeaves(cfg: Config, s: Proxy, t: nat)
    requires AllOk(s) && t < |s.workers| && s.workers[t].phase.Streaming? && s.workers[t].phase.body.declared == 0
    ensures var a := s.workers[t].phase.body.addr;
            Sum(LeftBy(a), Next(cfg, s, RequestEnds(t)).workers) == Sum(LeftBy(a), s.workers) + 1
  {
    var w := s.workers[t];
    SumUpdate(LeftBy(w.phase.body.addr), s.workers, t, Next(cfg, s, RequestEnds(t)).workers[t]);
    assert Front(w.left + [w.phase.body]) == w.left;
  }

  lemma {:induction false} FullPoolRefuses(cfg: Config, s: Proxy, a: Addr, t: nat, dialOk: bool)
    requires AllOk(s) && t < |s.workers| && AddrOf(s.workers[t].phase) == Some(a) && s.workers[t].call.DialCheck?
    requires PoolAt(s.pools, a).count >= DialLimit(cfg)
    ensures var s' := Next(cfg, s, InPool(t, dialOk));
            && s'.workers[t].phase == Between && a in s'.workers[t].lasts && s'.workers[t].lasts[a] == Refused
            && PoolAt(s'.pools, a) == PoolAt(s.pools, a)
  {
    assert WorkerOk(s.workers[t]);
  }

  lemma {:induction false} LeftReachLimit(cfg: Config, workers: nat, events: seq<Event>, more: seq<Event>, a: Addr)
    requires cfg.max >= 0
    requires Sum(LeftBy(a), Serve(cfg, Started(workers), events).workers) >= DialLimit(cfg)
    ensures PoolAt(Serve(cfg, Started(workers), events + more).pools, a).count >= DialLimit(cfg)
  {
    ServeConcat(cfg, Started(workers), events, more);
    LeftStays(cfg, Serve(cfg, Started(workers), events), more, a);
    LeftOccupiesSlots(cfg, workers, events + more, a);
  }

  /**
   Once the bodies left unsettled at an address reach the limit, every dial for it is refused from then on: those
   requests end with an error before a connection is opened, however long the proxy runs.
   */
  lemma {:induction false} RefusedForever(cfg: Config, workers: nat, events: seq<Event>, more: seq<Event>, a: Addr, t: nat, dialOk: bool)
    requires cfg.max >= 0
    requires Sum(LeftBy(a), Serve(cfg, Started(workers), events).workers) >= DialLimit(cfg)
    requires var s := Serve(cfg, Started(workers), events + more);
             t < |s.workers| && AddrOf(s.workers[t].phase) == Some(a) && s.workers[t].call.DialCheck?
    ensures var s := Serve(cfg, Started(workers), events + more);
            var s' := Next(cfg, s, InPool(t, dialOk));
            && s'.workers[t].phase == Between && a in s'.workers[t].lasts && s'.workers[t].lasts[a] == Refused
            && PoolAt(s'.pools, a) == PoolAt(s.pools, a)
  {
    LeftReachLimit(cfg, workers, events, more, a);
    ProxyRefinesProtocol(cfg, workers, events + more, a);
    FullPoolRefuses(cfg, Serve(cfg, Started(workers), events + more), a, t, dialOk);
  }

  // ---------- bufio objects ----------

  /** The bufio readers a worker's requests hold. */
  ghost function Readers(w: Worker): int {
    |w.left| + (if w.phase.ReadingHeaders? || w.phase.Settling? ||
                   (w.phase.Streaming? && !w.phase.body.reader.returned) then 1 else 0)
  }

  ghost function Writers(w: Worker): int {
    if w.phase.WritingHeaders? then 1 else 0
  }

  ghost predicate BuffersAccounted(s: Proxy) {
    && s.readersHeld == s.failures + Sum(Readers, s.workers)
    && s.writersHeld == Sum(Writers, s.workers)
  }

  lemma {:induction false} LocalBuffers(cfg: Config, p: Pool, clock: int, e: Event, w: Worker)
    requires WorkerOk(w) && !e.Elapse?
    ensures var l := LocalStep(cfg, p, clock, e, w, Target(e, w));
            && l.readers == l.failures + Readers(l.worker) - Readers(w)
            && l.writers == Writers(l.worker) - Writers(w)
  {
    if e.InPool? && !w.call.Outside? {
      var th := ClientAt(Target(e, w), w);
      if w.phase.Acquiring? {
        AcquireReturns(cfg, p, clock, e.t, e.dialOk, th);
      } else {
        GiveBackReturns(cfg, p, clock, e.t, e.dialOk, th);
      }
    }
  }

  /** In every state the readers out are the failed header reads plus the bodies that still have theirs. */
  lemma {:induction false} BufferLedger(cfg: Config, workers: nat, events: seq<Event>)
    ensures BuffersAccounted(Serve(cfg, Started(workers), events))
  {
    if events == [] {
      SumAllZero(Readers, Started(workers).workers);
      SumAllZero(Writers, Started(workers).workers);
    } else {
      BufferLedger(cfg, workers, Front(events));
      ProxyRefinesProtocol(cfg, workers, Front(events), 0);
      var s, e := Serve(cfg, Started(workers), Front(events)), Last(events);
      if !e.Elapse? && e.t < |s.workers| {
        var w := s.workers[e.t];
        LocalBuffers(cfg, PoolAt(s.pools, Target(e, w)), s.clock, e, w);
        SumUpdate(Readers, s.workers, e.t, Next(cfg, s, e).workers[e.t]);
        SumUpdate(Writers, s.workers, e.t, Next(cfg, s, e).workers[e.t]);
      }
    }
  }

  ghost function LeftInAll(w: Worker): int {
    |w.left|
  }

  lemma {:induction false} RestingReaders(workers: seq<Worker>)
    requires forall w :: w in workers ==> w.phase == Between
    ensures Sum(Readers, workers) == Sum(LeftInAll, workers) && Sum(Writers, workers) == 0
  {
    if workers == [] {
    } else {
      RestingReaders(workers[1..]);
    }
  }

  /** At rest every writer is back, and the readers out are the failed header reads plus the unsettled bodies. */
  lemma {:induction false} BuffersAtRest(cfg: Config, workers: nat, events: seq<Event>)
    requires AtRest(Serve(cfg, Started(workers), events))
    ensures var s := Serve(cfg, Started(workers), events);
            s.writersHeld == 0 && s.readersHeld == s.failures + Sum(LeftInAll, s.workers)
  {
    BufferLedger(cfg, workers, events);
    RestingReaders(Serve(cfg, Started(workers), events).workers);
  }

  // ---------- The handler's phases and the proxy's ----------

  /** The three phases after an acquisition, as the environment of a request decides them. */
  ghost function Phases(p: Pool, env: Handler.Env, w: Worker): Local {
    var length := if env.answer.Some? then env.answer.value.contentLength else 0;
    var l1 := PhaseStep(p, !Handler.HeadersFail(env), length, w);
    var l2 := PhaseStep(p, !Handler.BodyFails(env), length, l1.worker);
    var l3 := PhaseStep(p, !Handler.AnswerFails(env), length, l2.worker);
    Local(l3.worker, p, l1.readers + l2.readers + l3.readers, l1.writers + l2.writers + l3.writers,
          l1.failures + l2.failures + l3.failures)
  }

  /**
   The proxy's phases do what the handler object does: the connection goes to a body stream of the declared length,
   or, after any failure, into one CloseAndDrop; the writer comes back; a reader is taken if the header phase began.
   */
  lemma {:induction false} PhasesFollowHandler(p: Pool, env: Handler.Env, w: Worker, a: Addr, c: ConnId)
    requires w.phase == WritingHeaders(a, c)
    ensures var l := Phases(p, env, w);
            && l.worker == (if Handler.SomePhaseFails(env) then DropFrom(w, a, c)
                            else var length := env.answer.value.contentLength;
                                 w.(phase := Streaming(Body(a, c, length, PoolReader.Start([], length), false))))
            && l.writers == -1
            && l.readers == (if Handler.HeadersFail(env) || Handler.BodyFails(env) then 0 else 1)
            && l.failures == (if l.readers == 1 && Handler.AnswerFails(env) then 1 else 0)
  {
  }
}
