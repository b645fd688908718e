/**
 The parts compose: seen from the pool of any one address, every run of the whole proxy is a run of the pool
 protocol whose clients give back only what they lease, once. What the protocol guarantees therefore holds of the
 proxy, and at rest `count` is the idle connections plus the bodies that never settled.
 */
module SystemSafety {
  import opened Limits
  import opened Streams
  import opened Protocol
  import opened PoolReader
  import opened System

  // ---------- What every worker keeps ----------

  ghost predicate InDrop(pc: Pc) {
    pc.DropLock? || pc.DropUncount? || pc.DropUnlock? || pc.DropClose?
  }

  /** A body settled exactly if its declared length is not zero and it was read to its limit or to an error. */
  ghost predicate BodyOk(b: Body) {
    var r := b.reader;
    && r.returned == (b.declared != 0 && (b.failed || (b.declared > 0 && r.remain == 0)))
    && r.settled == (if !r.returned then [] else if b.declared > 0 then [Released] else [Dropped])
    && (if b.declared < 0 then r.remain == b.declared else 0 <= r.remain <= b.declared)
  }

  /** A body that kept its connection: nothing was declared, or it was read neither to its limit nor to an error. */
  ghost predicate Unsettled(b: Body) {
    !b.reader.returned && (b.declared == 0 || (!b.failed && b.reader.remain != 0))
  }

  ghost predicate CallFits(w: Worker) {
    match w.phase
    case Acquiring(_) => InAcquire(w.call) || InDial(w.call)
    case Dropping(_, _) => InDrop(w.call)
    case Settling(b) => (b.declared > 0 && InRelease(w.call)) || (b.declared < 0 && InDrop(w.call))
    case _ => w.call.Outside?
  }

  ghost predicate WorkerOk(w: Worker) {
    && CallFits(w)
    && (w.phase.Streaming? || w.phase.Settling? ==> BodyOk(w.phase.body))
    && (w.phase.Settling? ==> w.phase.body.reader.returned)
    && (forall b :: b in w.left ==> BodyOk(b) && Unsettled(b))
  }

  // ---------- Every step is a step of the protocol, or none ----------

  /** The protocol action a step of the proxy is, seen from the pool it touches; Tick(0) if none. */
  ghost function Mirror(e: Event, w: Worker): Action
    requires !e.Elapse?
  {
    match e
    case Begin(t, _) => if w.phase.Between? then CallAcquire(t) else Tick(0)
    case InPool(t, dialOk) => if w.call.Outside? then Tick(0) else Protocol.Advance(t, dialOk)
    case PhaseEnds(t, ok, _) =>
      if !ok && (w.phase.WritingHeaders? || w.phase.WritingBody? || w.phase.ReadingHeaders?) then
        CallDrop(t, w.phase.conn)
      else Tick(0)
    case Pull(t, size, c) =>
      var w' := PullStep(EMPTY_POOL, size, c, w).worker;
      if w.phase.Streaming? && w'.phase.Settling? then
        if w'.call.ReleaseLock? then CallRelease(t, w.phase.body.conn) else CallDrop(t, w.phase.body.conn)
      else Tick(0)
    case RequestEnds(_) => Tick(0)
  }

  /** What the step of a thread should be, if the step of the worker is `m`. */
  ghost function MirrorStep(cfg: Config, p: Pool, clock: int, m: Action, th: Thread): (Pool, Thread) {
    if m.Tick? then (p, th) else ThreadStep(cfg, p, clock, m, th)
  }

  /** The touched pool and its client move as the protocol does. */
  ghost predicate Mirrors(cfg: Config, p: Pool, clock: int, e: Event, w: Worker, a: Addr)
    requires !e.Elapse?
  {
    var l := LocalStep(cfg, p, clock, e, w, a);
    (l.pool, ClientAt(a, l.worker)) == MirrorStep(cfg, p, clock, Mirror(e, w), ClientAt(a, w))
  }

  /** An instruction of Acquire that returns changes the leases by what it got, and otherwise not at all. */
  lemma {:induction false} AcquireReturns(cfg: Config, p: Pool, now: int, t: nat, dialOk: bool, th: Thread)
    requires InAcquire(th.pc) || InDial(th.pc)
    ensures var th' := ThreadStep(cfg, p, now, Protocol.Advance(t, dialOk), th).1;
            && (th'.pc.Outside? || InAcquire(th'.pc) || InDial(th'.pc))
            && th'.held == if th'.pc.Outside? && th'.last.Got? then th.held + multiset{th'.last.conn} else th.held
  {
  }

  lemma {:induction false} GiveBackReturns(cfg: Config, p: Pool, now: int, t: nat, dialOk: bool, th: Thread)
    requires InRelease(th.pc) || InDrop(th.pc)
    ensures var th' := ThreadStep(cfg, p, now, Protocol.Advance(t, dialOk), th).1;
            && th'.held == th.held
            && (th'.pc.Outside? || (InRelease(th.pc) && InRelease(th'.pc)) || (InDrop(th.pc) && InDrop(th'.pc)))
  {
  }

  lemma {:induction false} PoolStepMirrors(cfg: Config, p: Pool, clock: int, e: Event, w: Worker, a: Addr)
    requires WorkerOk(w) && e.InPool? && !w.call.Outside? && AddrOf(w.phase) == Some(a)
    ensures Mirrors(cfg, p, clock, e, w, a)
  {
    var th := ClientAt(a, w);
    if w.phase.Acquiring? {
      AcquireReturns(cfg, p, clock, e.t, e.dialOk, th);
    } else {
      GiveBackReturns(cfg, p, clock, e.t, e.dialOk, th);
    }
  }

  lemma {:induction false} AddThenRemove(m: multiset<ConnId>, c: ConnId)
    ensures m + multiset{c} - multiset{c} == m
  {
  }

  /** A worker that starts to give back the connection it owns. */
  lemma {:induction false} GivesBack(cfg: Config, p: Pool, clock: int, m: Action, w: Worker, a: Addr, c: ConnId)
    requires AddrOf(w.phase) == Some(a) && OwnedBy(w.phase) == Some(c) && w.call.Outside?
    requires (m.CallRelease? || m.CallDrop?) && m.c == c
    ensures ThreadStep(cfg, p, clock, m, ClientAt(a, w)) ==
            (p, Thread(if m.CallRelease? then ReleaseLock(c) else DropLock(c), LeftAt(a, w.left), LastAt(a, w)))
  {
    AddThenRemove(LeftAt(a, w.left), c);
  }

  lemma {:induction false} PhaseStepMirrors(cfg: Config, p: Pool, clock: int, e: Event, w: Worker, a: Addr)
    requires WorkerOk(w) && e.PhaseEnds? && AddrOf(w.phase) == Some(a)
    ensures Mirrors(cfg, p, clock, e, w, a)
  {
    var m := Mirror(e, w);
    if m.Tick? {
      PhaseKeepsClient(p, e.ok, e.contentLength, w, a);
    } else {
      GivesBack(cfg, p, clock, m, w, a, m.c);
      PhaseFailsDrops(p, e.contentLength, w, a, m.c);
    }
  }

  lemma {:induction false} PhaseFailsDrops(p: Pool, contentLength: int, w: Worker, a: Addr, c: ConnId)
    requires w.phase == WritingHeaders(a, c) || w.phase == WritingBody(a, c) || w.phase == ReadingHeaders(a, c)
    ensures var l := PhaseStep(p, false, contentLength, w);
            l.pool == p && ClientAt(a, l.worker) == Thread(DropLock(c), LeftAt(a, w.left), LastAt(a, w))
  {
    var l := PhaseStep(p, false, contentLength, w);
    assert l.pool == p && l.worker == DropFrom(w, a, c);
    UnowningClient(w, l.worker, a);
  }

  lemma {:induction false} UnowningClient(w: Worker, w': Worker, a: Addr)
    requires AddrOf(w'.phase) == Some(a) && OwnedBy(w'.phase) == None && w'.left == w.left && w'.lasts == w.lasts
    ensures ClientAt(a, w') == Thread(w'.call, LeftAt(a, w.left), LastAt(a, w))
  {
  }

  lemma {:induction false} PhaseKeepsClient(p: Pool, ok: bool, contentLength: int, w: Worker, a: Addr)
    requires AddrOf(w.phase) == Some(a)
    requires ok || !(w.phase.WritingHeaders? || w.phase.WritingBody? || w.phase.ReadingHeaders?)
    ensures ClientAt(a, PhaseStep(p, ok, contentLength, w).worker) == ClientAt(a, w)
    ensures PhaseStep(p, ok, contentLength, w).pool == p
  {
  }

  lemma {:induction false} PullStepMirrors(cfg: Config, p: Pool, clock: int, e: Event, w: Worker, a: Addr)
    requires WorkerOk(w) && e.Pull? && AddrOf(w.phase) == Some(a)
    ensures Mirrors(cfg, p, clock, e, w, a)
  {
    var w' := PullStep(EMPTY_POOL, e.size, e.answer, w).worker;
    assert LocalStep(cfg, p, clock, e, w, a) == Local(w', p, 0, 0, 0);
    var m := Mirror(e, w);
    if m.Tick? {
      PullKeepsClient(e.size, e.answer, w, a);
    } else {
      GivesBack(cfg, p, clock, m, w, a, m.c);
      assert w'.left == w.left && w'.lasts == w.lasts && AddrOf(w'.phase) == Some(a);
      UnowningClient(w, w', a);
    }
  }

  lemma {:induction false} PullKeepsClient(size: nat, c: Chunk, w: Worker, a: Addr)
    requires CallFits(w) && !(w.phase.Streaming? && PullStep(EMPTY_POOL, size, c, w).worker.phase.Settling?)
    ensures ClientAt(a, PullStep(EMPTY_POOL, size, c, w).worker) == ClientAt(a, w)
  {
  }

  lemma {:induction false} RequestEndsMirrors(cfg: Config, p: Pool, clock: int, e: Event, w: Worker, a: Addr)
    requires WorkerOk(w) && e.RequestEnds? && AddrOf(w.phase) == Some(a)
    ensures Mirrors(cfg, p, clock, e, w, a)
  {
    if w.phase.Streaming? {
      assert Front(w.left + [w.phase.body]) == w.left;
    }
  }

  lemma {:induction false} LocalMirrors(cfg: Config, p: Pool, clock: int, e: Event, w: Worker)
    requires WorkerOk(w) && !e.Elapse?
    ensures Mirrors(cfg, p, clock, e, w, Target(e, w))
  {
    var a := Target(e, w);
    match e
    case InPool(_, _) => if !w.call.Outside? { PoolStepMirrors(cfg, p, clock, e, w, a); }
    case PhaseEnds(_, _, _) => if AddrOf(w.phase).Some? { PhaseStepMirrors(cfg, p, clock, e, w, a); }
    case Pull(_, _, _) => if AddrOf(w.phase).Some? { PullStepMirrors(cfg, p, clock, e, w, a); }
    case RequestEnds(_) => if AddrOf(w.phase).Some? { RequestEndsMirrors(cfg, p, clock, e, w, a); }
    case Begin(_, _) => assert Mirrors(cfg, p, clock, e, w, a);
  }

  lemma {:induction false} SameElsewhere(w: Worker, w': Worker, b: Addr)
    requires AddrOf(w.phase) != Some(b) && AddrOf(w'.phase) != Some(b)
    requires LeftAt(b, w'.left) == LeftAt(b, w.left) && LastAt(b, w') == LastAt(b, w)
    ensures ClientAt(b, w') == ClientAt(b, w)
  {
  }

  /** A step leaves the worker's standing with every other address alone. */
  lemma {:induction false} ElsewhereUnchanged(cfg: Config, p: Pool, clock: int, e: Event, w: Worker, b: Addr)
    requires WorkerOk(w) && !e.Elapse? && b != Target(e, w)
    ensures ClientAt(b, LocalStep(cfg, p, clock, e, w, Target(e, w)).worker) == ClientAt(b, w)
  {
    if e.Begin? && !w.phase.Between? {
      return;
    }
    var w' := LocalStep(cfg, p, clock, e, w, Target(e, w)).worker;
    if e.RequestEnds? && w.phase.Streaming? {
      assert Front(w.left + [w.phase.body]) == w.left;
    } else {
      assert w'.left == w.left;
    }
    SameElsewhere(w, w', b);
  }

  lemma {:induction false} WorkerStaysOk(cfg: Config, p: Pool, clock: int, e: Event, w: Worker)
    requires WorkerOk(w) && !e.Elapse?
    ensures WorkerOk(LocalStep(cfg, p, clock, e, w, Target(e, w)).worker)
  {
    if e.InPool? && !w.call.Outside? {
      var th := ClientAt(Target(e, w), w);
      if w.phase.Acquiring? {
        AcquireReturns(cfg, p, clock, e.t, e.dialOk, th);
      } else {
        GiveBackReturns(cfg, p, clock, e.t, e.dialOk, th);
      }
    }
  }
}
