/**
 What becomes of a connection that is given back: a body of declared length returns it to the stack, or closes it when
 the stack is full; a body without a length, and a request whose phase failed, close it.
 */
module Settlement {
  import opened Limits
  import opened Protocol
  import opened ProtocolSafety
  import opened Streams
  import opened PoolReader
  import opened System
  import opened SystemSafety
  import opened SystemTheorems
  import ProtocolTheorems

  // ---------- One call ----------

  ghost predicate Idle(p: Pool, c: ConnId) {
    exists e :: e in p.free && e.conn == c
  }

  /** What a Release has achieved when it returns. */
  ghost predicate Kept(cfg: Config, p: Pool, c: ConnId) {
    Idle(p, c) || (c !in p.open && |p.free| >= cfg.max)
  }

  /** An instruction of a call that gives back `c`, and what that call has done with it so far. */
  ghost predicate Handling(cfg: Config, p: Pool, pc: Pc, c: ConnId) {
    && c < p.next
    && (InRelease(pc) || InDrop(pc))
    && (if pc.ReleaseUnlock? then Kept(cfg, p, c) else pc.conn == c)
    && (pc.OverflowUncount? || pc.OverflowClose? ==> |p.free| >= cfg.max)
  }

  ghost predicate GivingBack(cfg: Config, s: State, t: nat, c: ConnId) {
    t < |s.threads| && Handling(cfg, s.pool, s.threads[t].pc, c)
  }

  lemma {:induction false} ReleaseHandles(cfg: Config, p: Pool, now: int, t: nat, th: Thread, c: ConnId)
    requires InRelease(th.pc) && Handling(cfg, p, th.pc, c)
    ensures var (p', th') := ReleaseStep(cfg, p, now, t, th);
            if th'.pc.Outside? then Kept(cfg, p', c) else InRelease(th'.pc) && Handling(cfg, p', th'.pc, c)
  {
    if th.pc.ReleasePush? {
      var p' := ReleaseStep(cfg, p, now, t, th).0;
      assert p'.free == p.free + [IdleConn(c, th.pc.now)];
      assert IdleConn(c, th.pc.now) in p'.free;
    }
  }

  lemma {:induction false} DropHandles(cfg: Config, p: Pool, t: nat, th: Thread, c: ConnId)
    requires InDrop(th.pc) && Handling(cfg, p, th.pc, c)
    ensures var (p', th') := DropStep(p, t, th);
            if th'.pc.Outside? then c !in p'.open else InDrop(th'.pc) && Handling(cfg, p', th'.pc, c)
  {
  }

  lemma {:induction false} OwnStep(cfg: Config, s: State, a: Action, t: nat, c: ConnId)
    requires GivingBack(cfg, s, t, c) && !a.Tick? && a.t == t
    ensures var s' := Step(cfg, s, a);
            var pc, pc' := s.threads[t].pc, s'.threads[t].pc;
            if pc'.Outside? then (if InRelease(pc) then Kept(cfg, s'.pool, c) else c !in s'.pool.open)
            else GivingBack(cfg, s', t, c) && (InRelease(pc') <==> InRelease(pc))
  {
    var th := s.threads[t];
    if a.Advance? {
      if InRelease(th.pc) {
        ReleaseHandles(cfg, s.pool, s.clock, t, th, c);
        assert ThreadStep(cfg, s.pool, s.clock, a, th) == ReleaseStep(cfg, s.pool, s.clock, t, th);
      } else {
        DropHandles(cfg, s.pool, t, th, c);
        assert ThreadStep(cfg, s.pool, s.clock, a, th) == DropStep(s.pool, t, th);
      }
    } else {
      assert ThreadStep(cfg, s.pool, s.clock, a, th) == (s.pool, th);
    }
  }

  lemma {:induction false} OtherStep(cfg: Config, s: State, a: Action, t: nat, c: ConnId)
    requires Locked(s) && GivingBack(cfg, s, t, c) && (a.Tick? || a.t != t)
    ensures var s' := Step(cfg, s, a); GivingBack(cfg, s', t, c) && s'.threads[t] == s.threads[t]
  {
    var s' := Step(cfg, s, a);
    if s'.pool.free != s.pool.free {
      StackIsGuarded(cfg, s, a);
    }
    if c !in s.pool.open {
      ProtocolTheorems.StepKeepsClosed(cfg, s, a, c);
    }
  }

  // ---------- In the whole proxy ----------

  /** The connection a request is giving back. */
  ghost predicate Gives(p: Phase, a: Addr, c: ConnId) {
    (p.Settling? && p.body.addr == a && p.body.conn == c) || p == Dropping(a, c)
  }

  ghost predicate AllGiving(cfg: Config, s: Proxy) {
    forall i, a, c :: 0 <= i < |s.workers| && Gives(s.workers[i].phase, a, c) ==> GivingBack(cfg, At(a, s), i, c)
  }

  /** A step of a request that begins to give a connection back, or was giving back the same one. */
  lemma {:induction false} BeginsToGive(cfg: Config, p: Pool, clock: int, e: Event, w: Worker, a: Addr, c: ConnId)
    requires WorkerOk(w) && !e.Elapse?
    requires Gives(LocalStep(cfg, p, clock, e, w, Target(e, w)).worker.phase, a, c)
    ensures var l := LocalStep(cfg, p, clock, e, w, Target(e, w));
            || Gives(w.phase, a, c)
            || (Target(e, w) == a && AddrOf(w.phase) == Some(a) && OwnedBy(w.phase) == Some(c) && l.pool == p &&
                (l.worker.call == ReleaseLock(c) || l.worker.call == DropLock(c)))
  {
  }

  lemma {:induction false} NextGives(cfg: Config, s: Proxy, e: Event, i: nat, a: Addr, c: ConnId)
    requires AllOk(s) && AllGiving(cfg, s) && Inv(cfg, At(a, s)) && !e.Elapse? && e.t == i < |s.workers|
    requires Gives(Next(cfg, s, e).workers[i].phase, a, c)
    ensures GivingBack(cfg, At(a, Next(cfg, s, e)), i, c)
  {
    var s', w := Next(cfg, s, e), s.workers[i];
    BeginsToGive(cfg, PoolAt(s.pools, Target(e, w)), s.clock, e, w, a, c);
    if Gives(w.phase, a, c) {
      GivesOn(cfg, s, e, i, a, c);
    } else {
      OwnedWasDialed(At(a, s), i, w, a, c);
    }
  }

  lemma {:induction false} OwnedWasDialed(s: State, i: nat, w: Worker, a: Addr, c: ConnId)
    requires Exclusive(s) && i < |s.threads| && s.threads[i] == ClientAt(a, w)
    requires AddrOf(w.phase) == Some(a) && OwnedBy(w.phase) == Some(c)
    ensures c < s.pool.next
  {
    ProtocolTheorems.OwnedIsOpen(s, i);
    assert c in s.threads[i].held;
    assert ExclusiveAt(s, c);
  }

  lemma {:induction false} GivesOn(cfg: Config, s: Proxy, e: Event, i: nat, a: Addr, c: ConnId)
    requires AllOk(s) && AllGiving(cfg, s) && !e.Elapse? && e.t == i < |s.workers|
    requires Gives(s.workers[i].phase, a, c) && Gives(Next(cfg, s, e).workers[i].phase, a, c)
    ensures GivingBack(cfg, At(a, Next(cfg, s, e)), i, c)
  {
    var w, m := s.workers[i], MirrorAt(a, s, e);
    NextMirrors(cfg, s, e, a);
    NextKeepsOk(cfg, s, e);
    assert WorkerOk(Next(cfg, s, e).workers[i]);
    assert At(a, Next(cfg, s, e)).threads[i].pc == Next(cfg, s, e).workers[i].call;
    if m.Tick? {
      assert Step(cfg, At(a, s), m) == At(a, s);
    } else {
      OwnStep(cfg, At(a, s), m, i, c);
    }
  }

  lemma {:induction false} OthersGive(cfg: Config, s: Proxy, e: Event, i: nat, a: Addr, c: ConnId)
    requires AllOk(s) && AllGiving(cfg, s) && Inv(cfg, At(a, s)) && i < |s.workers| && (e.Elapse? || e.t != i)
    requires Gives(s.workers[i].phase, a, c)
    ensures GivingBack(cfg, At(a, Next(cfg, s, e)), i, c)
  {
    NextMirrors(cfg, s, e, a);
    OtherStep(cfg, At(a, s), MirrorAt(a, s, e), i, c);
  }

  lemma {:induction false} AlwaysGiving(cfg: Config, workers: nat, events: seq<Event>)
    requires cfg.max >= 0
    ensures AllGiving(cfg, Serve(cfg, Started(workers), events))
  {
    if events == [] {
    } else {
      var s, e := Serve(cfg, Started(workers), Front(events)), Last(events);
      AlwaysGiving(cfg, workers, Front(events));
      ProxyRefinesProtocol(cfg, workers, Front(events), 0);
      var s' := Next(cfg, s, e);
      forall i, a, c | 0 <= i < |s'.workers| && Gives(s'.workers[i].phase, a, c)
        ensures GivingBack(cfg, At(a, s'), i, c)
      {
        ProxySafety(cfg, workers, Front(events), a);
        if !e.Elapse? && e.t == i {
          NextGives(cfg, s, e, i, a, c);
        } else {
          OthersGive(cfg, s, e, i, a, c);
        }
      }
    }
  }

  /**
   A settling body is inside Release exactly if it declared a positive length, and inside CloseAndDrop exactly if it
   declared none, for its own connection; when that call returns, the connection is on the stack, or closed because
   the stack was full; or it is closed. A request whose phase failed closes its connection too.
   */
  lemma {:induction false} SettlesAsDeclared(cfg: Config, workers: nat, events: seq<Event>, t: nat, dialOk: bool)
    requires cfg.max >= 0 && t < |Serve(cfg, Started(workers), events).workers|
    ensures var s := Serve(cfg, Started(workers), events);
            var w, s' := s.workers[t], Next(cfg, s, InPool(t, dialOk));
            && (w.phase.Settling? ==>
                  var b := w.phase.body;
                  && (b.declared > 0 <==> InRelease(w.call)) && (b.declared < 0 <==> InDrop(w.call))
                  && (w.call.ReleaseUnlock? || InHand(w.call) == Some(b.conn))
                  && (!s'.workers[t].phase.Settling? ==>
                        && s'.workers[t].phase == Streaming(b)
                        && if b.declared > 0 then Kept(cfg, PoolAt(s'.pools, b.addr), b.conn)
                           else b.conn !in PoolAt(s'.pools, b.addr).open))
            && (w.phase.Dropping? ==>
                  && InDrop(w.call) && InHand(w.call) == Some(w.phase.conn)
                  && (!s'.workers[t].phase.Dropping? ==>
                        s'.workers[t].phase == Between && w.phase.conn !in PoolAt(s'.pools, w.phase.addr).open))
  {
    var s := Serve(cfg, Started(workers), events);
    var w := s.workers[t];
    AlwaysGiving(cfg, workers, events);
    ProxyRefinesProtocol(cfg, workers, events, 0);
    assert WorkerOk(w);
    if w.phase.Settling? {
      Returns(cfg, s, t, dialOk, w.phase.body.addr, w.phase.body.conn);
    } else if w.phase.Dropping? {
      Returns(cfg, s, t, dialOk, w.phase.addr, w.phase.conn);
    }
  }

  lemma {:induction false} Returns(cfg: Config, s: Proxy, t: nat, dialOk: bool, a: Addr, c: ConnId)
    requires AllOk(s) && AllGiving(cfg, s) && t < |s.workers| && Gives(s.workers[t].phase, a, c)
    ensures var w, s' := s.workers[t], Next(cfg, s, InPool(t, dialOk));
            && (w.call.ReleaseUnlock? || InHand(w.call) == Some(c))
            && (!Gives(s'.workers[t].phase, a, c) ==>
                  s'.workers[t].phase == if w.phase.Settling? then Streaming(w.phase.body) else Between)
            && (!Gives(s'.workers[t].phase, a, c) ==>
                  if InRelease(w.call) then Kept(cfg, PoolAt(s'.pools, a), c) else c !in PoolAt(s'.pools, a).open)
  {
    var e, w := InPool(t, dialOk), s.workers[t];
    assert WorkerOk(w);
    assert GivingBack(cfg, At(a, s), t, c);
    NextMirrors(cfg, s, e, a);
    NextKeepsOk(cfg, s, e);
    OwnStep(cfg, At(a, s), MirrorAt(a, s, e), t, c);
    EndsOutside(cfg, PoolAt(s.pools, a), s.clock, t, dialOk, w, a, c);
  }

  /** A Read of a body in the proxy is the reader's own Read of that answer, and a pool call begins when it settles. */
  lemma {:induction false} PullIsTheReaders(p: Pool, size: nat, c: Chunk, w: Worker)
    requires w.phase.Streaming? && |c.data| <= size
    requires w.phase.body.reader.remain >= 0 ==> |c.data| <= w.phase.body.reader.remain
    ensures var b, w' := w.phase.body, PullStep(p, size, c, w).worker;
            var (r, d) := ReadStep(b.reader.(script := [c]), size);
            var b' := Body(b.addr, b.conn, b.declared, r.(script := b.reader.script), b.failed || (b.reader.remain != 0 && c.err != NoError));
            && (b.reader.remain != 0 ==> d == c)
            && w'.phase == if r.returned && !b.reader.returned then Settling(b') else Streaming(b')
  {
  }

  /** The phase changes when the call returns, not before. */
  lemma {:induction false} EndsOutside(cfg: Config, p: Pool, clock: int, t: nat, dialOk: bool, w: Worker, a: Addr, c: ConnId)
    requires WorkerOk(w) && Gives(w.phase, a, c)
    ensures var th := ThreadStep(cfg, p, clock, Protocol.Advance(t, dialOk), ClientAt(a, w)).1;
            var w' := LocalStep(cfg, p, clock, InPool(t, dialOk), w, a).worker;
            if th.pc.Outside? then w'.phase == if w.phase.Settling? then Streaming(w.phase.body) else Between
            else w'.phase == w.phase
  {
  }
}
