/**
 The pool of one upstream address as a concurrent protocol: any number of goroutines, each with a
 program counter, taking the atomic steps of internal/pool/upstream_pool.go and dialNew in any order.
 A schedule is a sequence of actions; an action that is not enabled changes nothing, so every
 sequence of actions is a run and every interleaving is a schedule.
 */
module Protocol {
  import opened Limits

  type ConnId = nat

  datatype IdleConn = IdleConn(conn: ConnId, returnedAt: int)

  /** What a call of AcquireUpstreamConnection returned. */
  datatype Outcome = NoCall | Got(conn: ConnId) | Refused | DialFailed

  /** The next instruction of a goroutine. `from` is the stack an Acquire popped its connection from. */
  datatype Pc =
    | Outside
    // AcquireUpstreamConnection
    | AcquireLock
    | AcquirePop
    | AcquireUnlock(popped: IdleConn, from: seq<IdleConn>)
    | AcquireUnlockEmpty
    | CheckIdle(popped: IdleConn, from: seq<IdleConn>)
    | StaleClose(conn: ConnId)
    | StaleUncount
    // dialNew
    | DialCheck
    | DialCount
    | Dial
    | DialUncount
    // ReleaseUpstreamConnection
    | ReleaseLock(conn: ConnId)
    | ReleaseCheck(conn: ConnId)
    | OverflowUncount(conn: ConnId)
    | OverflowClose(conn: ConnId)
    | ReleaseStamp(conn: ConnId)
    | ReleasePush(conn: ConnId, now: int)
    | ReleaseUnlock
    // CloseAndDropUpstreamConnection
    | DropLock(conn: ConnId)
    | DropUncount(conn: ConnId)
    | DropUnlock(conn: ConnId)
    | DropClose(conn: ConnId)

  /** connPool, with the sockets that are open and the next fresh connection id. */
  datatype Pool = Pool(free: seq<IdleConn>, count: int, holder: Option<nat>, open: set<ConnId>, next: ConnId)

  /** A goroutine: where it is, the connections it leases, and what its last Acquire returned. */
  datatype Thread = Thread(pc: Pc, held: multiset<ConnId>, last: Outcome)

  datatype State = State(pool: Pool, threads: seq<Thread>, clock: int)

  datatype Action =
    | CallAcquire(t: nat)
    | CallRelease(t: nat, c: ConnId)
    | CallDrop(t: nat, c: ConnId)
    | Advance(t: nat, dialOk: bool)
    | Tick(elapsed: nat)

  const EMPTY_POOL := Pool([], 0, None, {}, 0)
  const FRESH_THREAD := Thread(Outside, multiset{}, NoCall)

  function Init(threads: nat): State {
    State(EMPTY_POOL, seq(threads, i => FRESH_THREAD), 0)
  }

  function Last<T>(s: seq<T>): T
    requires s != []
  {
    s[|s| - 1]
  }

  function Front<T>(s: seq<T>): seq<T>
    requires s != []
  {
    s[..|s| - 1]
  }

  function IsStale(cfg: Config, e: IdleConn, now: int): bool {
    now - e.returnedAt > cfg.idleTimeout
  }

  /** The atomic steps of AcquireUpstreamConnection before it reaches dialNew. */
  function AcquireStep(cfg: Config, p: Pool, now: int, t: nat, th: Thread): (Pool, Thread) {
    match th.pc
    case AcquireLock =>
      if p.holder.None? then (p.(holder := Some(t)), th.(pc := AcquirePop)) else (p, th)
    case AcquirePop =>
      if p.free == [] then (p, th.(pc := AcquireUnlockEmpty))
      else (p.(free := Front(p.free)), th.(pc := AcquireUnlock(Last(p.free), p.free)))
    case AcquireUnlock(e, from) => (p.(holder := None), th.(pc := CheckIdle(e, from)))
    case AcquireUnlockEmpty => (p.(holder := None), th.(pc := DialCheck))
    case CheckIdle(e, _) =>
      if IsStale(cfg, e, now) then (p, th.(pc := StaleClose(e.conn)))
      else (p, Thread(Outside, th.held + multiset{e.conn}, Got(e.conn)))
    case StaleClose(c) => (p.(open := p.open - {c}), th.(pc := StaleUncount))
    case StaleUncount => (p.(count := p.count - 1), th.(pc := DialCheck))
    case _ => (p, th)
  }

  /** The atomic steps of dialNew. A successful dial yields a connection never seen before. */
  function DialStep(cfg: Config, p: Pool, th: Thread, dialOk: bool): (Pool, Thread) {
    match th.pc
    case DialCheck =>
      if p.count >= DialLimit(cfg) then (p, th.(pc := Outside, last := Refused))
      else (p, th.(pc := DialCount))
    case DialCount => (p.(count := p.count + 1), th.(pc := Dial))
    case Dial =>
      if dialOk then
        (p.(open := p.open + {p.next}, next := p.next + 1),
         Thread(Outside, th.held + multiset{p.next}, Got(p.next)))
      else (p, th.(pc := DialUncount))
    case DialUncount => (p.(count := p.count - 1), th.(pc := Outside, last := DialFailed))
    case _ => (p, th)
  }

  /** The atomic steps of ReleaseUpstreamConnection. */
  function ReleaseStep(cfg: Config, p: Pool, now: int, t: nat, th: Thread): (Pool, Thread) {
    match th.pc
    case ReleaseLock(c) =>
      if p.holder.None? then (p.(holder := Some(t)), th.(pc := ReleaseCheck(c))) else (p, th)
    case ReleaseCheck(c) =>
      (p, th.(pc := if |p.free| >= cfg.max then OverflowUncount(c) else ReleaseStamp(c)))
    case OverflowUncount(c) => (p.(count := p.count - 1), th.(pc := OverflowClose(c)))
    case OverflowClose(c) => (p.(open := p.open - {c}), th.(pc := ReleaseUnlock))
    case ReleaseStamp(c) => (p, th.(pc := ReleasePush(c, now)))
    case ReleasePush(c, at) => (p.(free := p.free + [IdleConn(c, at)]), th.(pc := ReleaseUnlock))
    case ReleaseUnlock => (p.(holder := None), th.(pc := Outside))
    case _ => (p, th)
  }

  /** The atomic steps of CloseAndDropUpstreamConnection: the deferred unlock runs before the deferred close. */
  function DropStep(p: Pool, t: nat, th: Thread): (Pool, Thread) {
    match th.pc
    case DropLock(c) =>
      if p.holder.None? then (p.(holder := Some(t)), th.(pc := DropUncount(c))) else (p, th)
    case DropUncount(c) => (p.(count := p.count - 1), th.(pc := DropUnlock(c)))
    case DropUnlock(c) => (p.(holder := None), th.(pc := DropClose(c)))
    case DropClose(c) => (p.(open := p.open - {c}), th.(pc := Outside))
    case _ => (p, th)
  }

  predicate InAcquire(pc: Pc) {
    pc.AcquireLock? || pc.AcquirePop? || pc.AcquireUnlock? || pc.AcquireUnlockEmpty? || pc.CheckIdle? ||
    pc.StaleClose? || pc.StaleUncount?
  }

  predicate InDial(pc: Pc) {
    pc.DialCheck? || pc.DialCount? || pc.Dial? || pc.DialUncount?
  }

  predicate InRelease(pc: Pc) {
    pc.ReleaseLock? || pc.ReleaseCheck? || pc.OverflowUncount? || pc.OverflowClose? || pc.ReleaseStamp? ||
    pc.ReleasePush? || pc.ReleaseUnlock?
  }

  /** One instruction of one goroutine, or the start of a call it is entitled to make. */
  function ThreadStep(cfg: Config, p: Pool, now: int, a: Action, th: Thread): (Pool, Thread)
    requires !a.Tick?
  {
    match a
    case CallAcquire(_) =>
      if th.pc.Outside? then (p, th.(pc := AcquireLock, last := NoCall)) else (p, th)
    case CallRelease(_, c) =>
      if th.pc.Outside? && c in th.held then (p, th.(pc := ReleaseLock(c), held := th.held - multiset{c}))
      else (p, th)
    case CallDrop(_, c) =>
      if th.pc.Outside? && c in th.held then (p, th.(pc := DropLock(c), held := th.held - multiset{c}))
      else (p, th)
    case Advance(t, dialOk) =>
      if InAcquire(th.pc) then AcquireStep(cfg, p, now, t, th)
      else if InDial(th.pc) then DialStep(cfg, p, th, dialOk)
      else if InRelease(th.pc) then ReleaseStep(cfg, p, now, t, th)
      else DropStep(p, t, th)
  }

  function Step(cfg: Config, s: State, a: Action): State {
    if a.Tick? then s.(clock := s.clock + a.elapsed)
    else if a.t < |s.threads| then
      var (p, th) := ThreadStep(cfg, s.pool, s.clock, a, s.threads[a.t]);
      s.(pool := p, threads := s.threads[a.t := th])
    else s
  }

  function Run(cfg: Config, s: State, schedule: seq<Action>): State {
    if schedule == [] then s else Step(cfg, Run(cfg, s, Front(schedule)), Last(schedule))
  }

  lemma {:induction false} RunConcat(cfg: Config, s: State, a: seq<Action>, b: seq<Action>)
    ensures Run(cfg, s, a + b) == Run(cfg, Run(cfg, s, a), b)
  {
    if b == [] {
      assert a + b == a;
    } else {
      RunConcat(cfg, s, a, Front(b));
      assert Front(a + b) == a + Front(b);
    }
  }

  lemma {:induction false} RunThreads(cfg: Config, s: State, schedule: seq<Action>)
    ensures |Run(cfg, s, schedule).threads| == |s.threads|
  {
    if schedule == [] {
    } else {
      RunThreads(cfg, s, Front(schedule));
    }
  }
}
