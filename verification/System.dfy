/**
 The whole proxy: any number of goroutines serving requests to any upstream addresses, one atomic step at a time.
 Each request runs the handler's phases and then a body stream that may settle, or be abandoned before it does.
 */
module System {
  import opened Limits
  import opened Streams
  import opened Protocol
  import opened PoolReader

  /** A response body: its connection, its declared length, its reader, and whether a Read has failed. */
  datatype Body = Body(addr: Addr, conn: ConnId, declared: int, reader: Reader, failed: bool)

  /** Where a request is. The phases that write, read and stream own the connection. */
  datatype Phase =
    | Between
    | Acquiring(addr: Addr)
    | WritingHeaders(addr: Addr, conn: ConnId)
    | WritingBody(addr: Addr, conn: ConnId)
    | ReadingHeaders(addr: Addr, conn: ConnId)
    | Dropping(addr: Addr, conn: ConnId)
    | Streaming(body: Body)
    | Settling(body: Body)

  /**
   A goroutine: its request's phase, its instruction inside a pool call, what its last Acquire of each address
   returned, and the bodies of ended requests that never gave their connection back.
   */
  datatype Worker = Worker(phase: Phase, call: Pc, lasts: map<Addr, Outcome>, left: seq<Body>)

  /** The pools, the goroutines, and the bufio objects out; `failures` counts failed response-header reads. */
  datatype Proxy = Proxy(pools: map<Addr, Pool>, workers: seq<Worker>, clock: int,
                         readersHeld: int, writersHeld: int, failures: int)

  datatype Event =
    | Begin(t: nat, addr: Addr)
    | InPool(t: nat, dialOk: bool)
    | PhaseEnds(t: nat, ok: bool, contentLength: int)
    | Pull(t: nat, size: nat, answer: Chunk)
    | RequestEnds(t: nat)
    | Elapse(elapsed: nat)

  const IDLE_WORKER := Worker(Between, Outside, map[], [])

  function Started(workers: nat): Proxy {
    Proxy(map[], seq(workers, i => IDLE_WORKER), 0, 0, 0, 0)
  }

  function PoolAt(pools: map<Addr, Pool>, a: Addr): Pool {
    if a in pools then pools[a] else EMPTY_POOL
  }

  function AddrOf(p: Phase): Option<Addr> {
    match p
    case Between => None
    case Streaming(b) => Some(b.addr)
    case Settling(b) => Some(b.addr)
    case _ => Some(p.addr)
  }

  // ---------- What one worker is to the pool of one address ----------

  ghost function LeftAt(a: Addr, left: seq<Body>): multiset<ConnId> {
    if left == [] then multiset{}
    else if Last(left).addr == a then LeftAt(a, Front(left)) + multiset{Last(left).conn}
    else LeftAt(a, Front(left))
  }

  /** The connection a phase owns. */
  function OwnedBy(p: Phase): Option<ConnId> {
    match p
    case WritingHeaders(_, c) => Some(c)
    case WritingBody(_, c) => Some(c)
    case ReadingHeaders(_, c) => Some(c)
    case Streaming(b) => if b.reader.returned then None else Some(b.conn)
    case _ => None
  }

  /** The connections of address `a` a worker is responsible for outside the pool. */
  ghost function HeldAt(a: Addr, w: Worker): multiset<ConnId> {
    if AddrOf(w.phase) == Some(a) && OwnedBy(w.phase).Some? then LeftAt(a, w.left) + multiset{OwnedBy(w.phase).value}
    else LeftAt(a, w.left)
  }

  ghost function LastAt(a: Addr, w: Worker): Outcome {
    if a in w.lasts then w.lasts[a] else NoCall
  }

  /** A worker as a client of the pool of address `a`. */
  ghost function ClientAt(a: Addr, w: Worker): Thread {
    Thread(if AddrOf(w.phase) == Some(a) then w.call else Outside, HeldAt(a, w), LastAt(a, w))
  }

  ghost function Clients(a: Addr, workers: seq<Worker>): seq<Thread> {
    seq(|workers|, i requires 0 <= i < |workers| => ClientAt(a, workers[i]))
  }

  /** The proxy as seen by the pool of address `a`. */
  ghost function At(a: Addr, s: Proxy): State {
    State(PoolAt(s.pools, a), Clients(a, s.workers), s.clock)
  }

  // ---------- Steps ----------

  /** What a step of a worker did: to itself, to the pool of its address, and to the bufio objects out. */
  datatype Local = Local(worker: Worker, pool: Pool, readers: int, writers: int, failures: int)

  function Absorb(r: Reader, c: Chunk): Reader {
    if r.remain >= 0 then AbsorbLimited(r, c) else AbsorbUnlimited(r, c)
  }

  function DropFrom(w: Worker, a: Addr, c: ConnId): Worker {
    w.(phase := Dropping(a, c), call := DropLock(c))
  }

  /** The phase a pool call leads to when it returns. */
  function Returned(p: Phase, last: Outcome): Phase {
    match p
    case Acquiring(a) => if last.Got? then WritingHeaders(a, last.conn) else Between
    case Settling(b) => Streaming(b)
    case _ => Between
  }

  /** One instruction of a pool call. When the call returns the request goes on. */
  ghost function PoolStep(cfg: Config, p: Pool, clock: int, t: nat, dialOk: bool, w: Worker, a: Addr): Local {
    var (p', th) := ThreadStep(cfg, p, clock, Protocol.Advance(t, dialOk), ClientAt(a, w));
    var w' := w.(call := th.pc, lasts := w.lasts[a := th.last],
                 phase := if th.pc.Outside? then Returned(w.phase, th.last) else w.phase);
    Local(w', p',
          if w.phase.Settling? && th.pc.Outside? then -1 else 0,
          if w'.phase.WritingHeaders? then 1 else 0, 0)
  }

  /** A phase of the handler ends. A writer is returned either way; a reader is lost when the header read fails. */
  function PhaseStep(p: Pool, ok: bool, contentLength: int, w: Worker): Local {
    match w.phase
    case WritingHeaders(a, c) => Local(if ok then w.(phase := WritingBody(a, c)) else DropFrom(w, a, c), p, 0, -1, 0)
    case WritingBody(a, c) =>
      if ok then Local(w.(phase := ReadingHeaders(a, c)), p, 1, 0, 0) else Local(DropFrom(w, a, c), p, 0, 0, 0)
    case ReadingHeaders(a, c) =>
      if ok then Local(w.(phase := Streaming(Body(a, c, contentLength, Start([], contentLength), false))), p, 0, 0, 0)
      else Local(DropFrom(w, a, c), p, 0, 0, 1)
    case _ => Local(w, p, 0, 0, 0)
  }

  /** A Read of the body. If it settles, the pool call it makes begins. */
  function PullStep(p: Pool, size: nat, c: Chunk, w: Worker): Local {
    if w.phase.Streaming? && w.phase.body.reader.remain != 0 && |c.data| <= Ask(w.phase.body.reader, size) then
      var b := w.phase.body;
      var b' := b.(reader := Absorb(b.reader, c), failed := b.failed || c.err != NoError);
      if b'.reader.returned && !b.reader.returned then
        Local(w.(phase := Settling(b'),
                 call := if Last(b'.reader.settled) == Released then ReleaseLock(b.conn) else DropLock(b.conn)),
              p, 0, 0, 0)
      else Local(w.(phase := Streaming(b')), p, 0, 0, 0)
    else Local(w, p, 0, 0, 0)
  }

  ghost function LocalStep(cfg: Config, p: Pool, clock: int, e: Event, w: Worker, a: Addr): Local
    requires !e.Elapse?
  {
    match e
    case Begin(_, addr) =>
      if w.phase.Between? then
        Local(w.(phase := Acquiring(addr), call := AcquireLock, lasts := w.lasts[addr := NoCall]), p, 0, 0, 0)
      else Local(w, p, 0, 0, 0)
    case InPool(t, dialOk) =>
      if w.call.Outside? then Local(w, p, 0, 0, 0) else PoolStep(cfg, p, clock, t, dialOk, w, a)
    case PhaseEnds(_, ok, contentLength) => PhaseStep(p, ok, contentLength, w)
    case Pull(_, size, c) => PullStep(p, size, c, w)
    case RequestEnds(_) =>
      if w.phase.Streaming? then
        Local(w.(phase := Between, left := if w.phase.body.reader.returned then w.left else w.left + [w.phase.body]),
              p, 0, 0, 0)
      else Local(w, p, 0, 0, 0)
  }

  /** The address whose pool a step may touch. */
  function Target(e: Event, w: Worker): Addr
    requires !e.Elapse?
  {
    if e.Begin? then e.addr else if AddrOf(w.phase).Some? then AddrOf(w.phase).value else 0
  }

  ghost function Next(cfg: Config, s: Proxy, e: Event): Proxy {
    if e.Elapse? then s.(clock := s.clock + e.elapsed)
    else if e.t < |s.workers| then
      var w := s.workers[e.t];
      var a := Target(e, w);
      var l := LocalStep(cfg, PoolAt(s.pools, a), s.clock, e, w, a);
      s.(pools := s.pools[a := l.pool], workers := s.workers[e.t := l.worker],
         readersHeld := s.readersHeld + l.readers, writersHeld := s.writersHeld + l.writers,
         failures := s.failures + l.failures)
    else s
  }

  ghost function Serve(cfg: Config, s: Proxy, events: seq<Event>): Proxy {
    if events == [] then s else Next(cfg, Serve(cfg, s, Front(events)), Last(events))
  }
}
