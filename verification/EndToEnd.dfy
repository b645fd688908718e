/**
 The whole proxy with the bytes on its connections: in every interleaving, as long as answers have their declared
 length, idle connections are on a message boundary and every client gets its own body.
 */
module EndToEnd {
  import opened Limits
  import opened Streams
  import opened Protocol
  import opened ProtocolSafety
  import opened PoolReader
  import opened System
  import opened SystemSafety
  import opened SystemTheorems
  import Alignment
  import ProtocolTheorems

  // ---------- Connections with bytes ----------

  const EMPTY_LINK := Alignment.Link([], [], NoError)

  /** What is on the connections and in their bufio.Readers, newest first: the newest entry of a connection counts. */
  datatype Wires = Silent | On(addr: Addr, conn: ConnId, link: Alignment.Link, before: Wires)

  function WireAt(ws: Wires, a: Addr, c: ConnId): Alignment.Link {
    match ws
    case Silent => EMPTY_LINK
    case On(b, d, l, before) => if a == b && c == d then l else WireAt(before, a, c)
  }

  /** The proxy, its wires, and for each goroutine what its upstream sent as a body and what its client has got. */
  datatype Session = Session(proxy: Proxy, wires: Wires, sent: seq<seq<byte>>, got: seq<seq<byte>>)

  /** A response header read to its end, a Read of a body, or any other step. */
  datatype Traffic =
    | Answered(t: nat, response: Alignment.Response, ahead: nat, pending: ReadError)
    | BodyRead(t: nat, capacity: nat, size: nat, grant: nat, err: ReadError)
    | Other(event: Event)

  function Opened(workers: nat): Session {
    Session(Started(workers), Silent, seq(workers, i => []), seq(workers, i => []))
  }

  /** A step that moves no bytes of a response. */
  predicate NoBytes(e: Event, s: Proxy) {
    && !e.Pull?
    && (e.PhaseEnds? && e.ok && e.t < |s.workers| ==> !s.workers[e.t].phase.ReadingHeaders?)
  }

  /** A goroutine that owns the connection of a body with bytes to come. */
  predicate MayRead(w: Worker) {
    w.phase.Streaming? && !w.phase.body.reader.returned && w.phase.body.reader.remain > 0
  }

  /** The bytes a fresh bufio.Reader has and leaves, once it has read the header off the socket. */
  function HeaderRead(l: Alignment.Link, response: Alignment.Response, ahead: nat, pending: ReadError): Alignment.Link {
    Alignment.AfterHeader(l.unread, Alignment.Exchange(response, 0, ahead, pending, [])).link
  }

  function ReadFrom(ws: Wires, b: Body, e: Traffic): (Alignment.Link, Chunk)
    requires e.BodyRead?
  {
    Alignment.BufRead(WireAt(ws, b.addr, b.conn), e.capacity, Ask(b.reader, e.size), e.grant, e.err)
  }

  /** The step of the proxy a step of the session is; Elapse(0) if it is not enabled. */
  function EventOf(s: Session, e: Traffic): Event {
    match e
    case Answered(t, r, _, _) =>
      if t < |s.proxy.workers| && s.proxy.workers[t].phase.ReadingHeaders? then PhaseEnds(t, true, r.length) else Elapse(0)
    case BodyRead(t, _, size, _, _) =>
      if t < |s.proxy.workers| && MayRead(s.proxy.workers[t]) then
        Pull(t, size, ReadFrom(s.wires, s.proxy.workers[t].phase.body, e).1)
      else Elapse(0)
    case Other(event) => if NoBytes(event, s.proxy) then event else Elapse(0)
  }

  ghost function Move(cfg: Config, s: Session, e: Traffic): Session {
    var event := EventOf(s, e);
    var s' := s.(proxy := Next(cfg, s.proxy, event));
    if event.Elapse? || e.Other? || e.t >= |s.sent| || e.t >= |s.got| then s'
    else
      var w := s.proxy.workers[e.t];
      if e.Answered? then
        s'.(wires := On(w.phase.addr, w.phase.conn,
                        HeaderRead(WireAt(s.wires, w.phase.addr, w.phase.conn), e.response, e.ahead, e.pending), s.wires),
            sent := s.sent[e.t := e.response.payload], got := s.got[e.t := []])
      else
        var (l, c) := ReadFrom(s.wires, w.phase.body, e);
        s'.(wires := On(w.phase.body.addr, w.phase.body.conn, l, s.wires), got := s.got[e.t := s.got[e.t] + c.data])
  }

  ghost function Converse(cfg: Config, s: Session, traffic: seq<Traffic>): Session {
    if traffic == [] then s else Move(cfg, Converse(cfg, s, Front(traffic)), Last(traffic))
  }

  /** The upstream sends as many bytes as it declares, and no socket read fails. */
  ghost predicate Honest(e: Traffic) {
    match e
    case Answered(_, r, _, pending) => |r.payload| == r.length && pending == NoError
    case BodyRead(_, _, _, _, err) => err == NoError
    case Other(_) => true
  }

  ghost predicate AllHonest(traffic: seq<Traffic>) {
    forall e :: e in traffic ==> Honest(e)
  }

  // ---------- A session is a run of the proxy ----------

  ghost function Events(cfg: Config, s: Session, traffic: seq<Traffic>): seq<Event> {
    if traffic == [] then []
    else Events(cfg, s, Front(traffic)) + [EventOf(Converse(cfg, s, Front(traffic)), Last(traffic))]
  }

  lemma {:induction false} SessionIsServed(cfg: Config, s: Session, traffic: seq<Traffic>)
    ensures Converse(cfg, s, traffic).proxy == Serve(cfg, s.proxy, Events(cfg, s, traffic))
  {
    if traffic == [] {
    } else {
      SessionIsServed(cfg, s, Front(traffic));
      var before := Events(cfg, s, Front(traffic));
      assert Front(Events(cfg, s, traffic)) == before;
    }
  }

  // ---------- The invariant ----------

  function BodyOf(p: Phase): Option<Body> {
    match p
    case Streaming(b) => Some(b)
    case Settling(b) => Some(b)
    case _ => None
  }

  /** What the client has got and what is still on the wire is what was sent; `remain` counts the latter. */
  ghost predicate BytesOk(w: Worker, ws: Wires, sent: seq<byte>, got: seq<byte>) {
    BodyOf(w.phase).Some? ==>
      var b := BodyOf(w.phase).value;
      if b.reader.returned then got == sent && b.reader.remain == 0
      else
        var l := WireAt(ws, b.addr, b.conn);
        got + (l.buffered + l.unread) == sent && |l.buffered + l.unread| == b.reader.remain && l.pending == NoError
  }

  /** A goroutine whose body stream owns the connection, or has been left without giving it back. */
  ghost predicate Busy(w: Worker, a: Addr, c: ConnId) {
    || (w.phase.Streaming? && !w.phase.body.reader.returned && w.phase.body.addr == a && w.phase.body.conn == c)
    || c in LeftAt(a, w.left)
  }

  ghost predicate SomeBusy(workers: seq<Worker>, a: Addr, c: ConnId) {
    exists i :: 0 <= i < |workers| && Busy(workers[i], a, c)
  }

  /** Bytes wait only on connections of body streams. */
  ghost predicate WiresOk(workers: seq<Worker>, ws: Wires) {
    forall a, c :: WireAt(ws, a, c).unread != [] ==> SomeBusy(workers, a, c)
  }

  ghost predicate SessionOk(s: Session) {
    && |s.sent| == |s.got| == |s.proxy.workers|
    && (forall i :: 0 <= i < |s.sent| ==> BytesOk(s.proxy.workers[i], s.wires, s.sent[i], s.got[i]))
    && WiresOk(s.proxy.workers, s.wires)
  }

  /** No two goroutines have a connection, and none has it twice. */
  ghost predicate Apart(s: Proxy) {
    forall a, c, i, j :: 0 <= i < |s.workers| && 0 <= j < |s.workers| && Owner(s.workers[i], a, c) && Busy(s.workers[j], a, c) ==>
      i == j && s.workers[i].phase.Streaming? && c !in LeftAt(a, s.workers[i].left)
  }

  ghost predicate Owner(w: Worker, a: Addr, c: ConnId) {
    AddrOf(w.phase) == Some(a) && OwnedBy(w.phase) == Some(c)
  }

  lemma {:induction false} OwnersAreApart(cfg: Config, workers: nat, events: seq<Event>)
    requires cfg.max >= 0
    ensures Apart(Serve(cfg, Started(workers), events))
  {
    var s := Serve(cfg, Started(workers), events);
    forall a, c, i, j | 0 <= i < |s.workers| && 0 <= j < |s.workers| && Owner(s.workers[i], a, c) && Busy(s.workers[j], a, c)
      ensures i == j && s.workers[i].phase.Streaming? && c !in LeftAt(a, s.workers[i].left)
    {
      OwnerIsApart(cfg, workers, events, a, c, i, j);
    }
  }

  lemma {:induction false} OwnerIsApart(cfg: Config, workers: nat, events: seq<Event>, a: Addr, c: ConnId, i: nat, j: nat)
    requires cfg.max >= 0
    requires var s := Serve(cfg, Started(workers), events);
             i < |s.workers| && j < |s.workers| && Owner(s.workers[i], a, c) && Busy(s.workers[j], a, c)
    ensures var s := Serve(cfg, Started(workers), events);
            i == j && s.workers[i].phase.Streaming? && c !in LeftAt(a, s.workers[i].left)
  {
    var s := Serve(cfg, Started(workers), events);
    ProxyRefinesProtocol(cfg, workers, events, a);
    OwnerCopies(s.workers[i], a, c);
    assert Copies(c)(At(a, s).threads[i]) >= 1;
    ProtocolTheorems.OwnedByOne(cfg, workers, MirrorAll(cfg, a, Started(workers), events), i, c);
    BusyCopies(s.workers[j], a, c);
    assert Copies(c)(At(a, s).threads[j]) >= 1;
  }

  lemma {:induction false} OwnerCopies(w: Worker, a: Addr, c: ConnId)
    requires Owner(w, a, c)
    ensures Copies(c)(ClientAt(a, w)) >= 1
    ensures !w.phase.Streaming? || c in LeftAt(a, w.left) ==> (Busy(w, a, c) ==> Copies(c)(ClientAt(a, w)) >= 2)
  {
  }

  lemma {:induction false} BusyCopies(w: Worker, a: Addr, c: ConnId)
    requires Busy(w, a, c)
    ensures Copies(c)(ClientAt(a, w)) >= 1
  {
  }

  // ---------- Steps that move no bytes ----------

  lemma {:induction false} LocalOther(cfg: Config, p: Pool, clock: int, e: Event, w: Worker)
    requires WorkerOk(w) && !e.Elapse? && !e.Pull?
    requires e.PhaseEnds? && e.ok ==> !w.phase.ReadingHeaders?
    ensures var w' := LocalStep(cfg, p, clock, e, w, Target(e, w)).worker;
            && (BodyOf(w'.phase).Some? ==> BodyOf(w'.phase) == BodyOf(w.phase))
            && forall a, c :: Busy(w, a, c) ==> Busy(w', a, c)
  {
    var w' := LocalStep(cfg, p, clock, e, w, Target(e, w)).worker;
    if e.RequestEnds? && w.phase.Streaming? {
      assert Front(w.left + [w.phase.body]) == w.left;
    } else {
      assert w'.left == w.left;
    }
  }

  /** Replacing a goroutine by one that is busy wherever it was keeps the wires accounted for. */
  lemma {:induction false} StillBusy(workers: seq<Worker>, ws: Wires, t: nat, w': Worker)
    requires t < |workers| && WiresOk(workers, ws)
    requires forall a, c :: Busy(workers[t], a, c) ==> Busy(w', a, c)
    ensures WiresOk(workers[t := w'], ws)
  {
    forall a, c | WireAt(ws, a, c).unread != [] ensures SomeBusy(workers[t := w'], a, c) {
      var i :| 0 <= i < |workers| && Busy(workers[i], a, c);
      assert Busy(workers[t := w'][i], a, c);
    }
  }

  lemma {:induction false} OtherKeepsOk(cfg: Config, s: Session, e: Event)
    requires SessionOk(s) && AllOk(s.proxy) && NoBytes(e, s.proxy)
    ensures SessionOk(s.(proxy := Next(cfg, s.proxy, e)))
  {
    if !e.Elapse? && e.t < |s.proxy.workers| {
      var w := s.proxy.workers[e.t];
      var w' := Next(cfg, s.proxy, e).workers[e.t];
      LocalOther(cfg, PoolAt(s.proxy.pools, Target(e, w)), s.proxy.clock, e, w);
      StillBusy(s.proxy.workers, s.wires, e.t, w');
    }
  }

  // ---------- Steps that move bytes ----------

  /** A new entry for a connection leaves the bytes of a goroutine that does not own it alone. */
  lemma {:induction false} OthersKeepBytes(w: Worker, ws: Wires, a: Addr, c: ConnId, l: Alignment.Link, sent: seq<byte>, got: seq<byte>)
    requires BytesOk(w, ws, sent, got) && !Busy(w, a, c)
    requires w.phase.Settling? ==> w.phase.body.reader.returned
    ensures BytesOk(w, On(a, c, l, ws), sent, got)
  {
  }

  lemma {:induction false} WiresOkUpdate(workers: seq<Worker>, ws: Wires, t: nat, w': Worker, a: Addr, c: ConnId, l: Alignment.Link)
    requires t < |workers| && WiresOk(workers, ws)
    requires forall b, d :: (b != a || d != c) && Busy(workers[t], b, d) ==> Busy(w', b, d)
    requires l.unread != [] ==> Busy(w', a, c)
    ensures WiresOk(workers[t := w'], On(a, c, l, ws))
  {
    forall b, d | WireAt(On(a, c, l, ws), b, d).unread != [] ensures SomeBusy(workers[t := w'], b, d) {
      if b == a && d == c {
        assert Busy(workers[t := w'][t], b, d);
      } else {
        assert WireAt(ws, b, d).unread != [];
        assert SomeBusy(workers, b, d);
        var i :| 0 <= i < |workers| && Busy(workers[i], b, d);
        assert Busy(workers[t := w'][i], b, d);
      }
    }
  }

  /** The connection of a request that reads its response header has nothing on it from before. */
  lemma {:induction false} OwnedIsClean(s: Session, t: nat)
    requires SessionOk(s) && Apart(s.proxy) && t < |s.proxy.workers| && s.proxy.workers[t].phase.ReadingHeaders?
    ensures var p := s.proxy.workers[t].phase;
            && WireAt(s.wires, p.addr, p.conn).unread == []
            && forall i :: 0 <= i < |s.proxy.workers| ==> !Busy(s.proxy.workers[i], p.addr, p.conn)
  {
    var p := s.proxy.workers[t].phase;
    assert Owner(s.proxy.workers[t], p.addr, p.conn);
  }

  lemma {:induction false} HeaderReadSplits(l: Alignment.Link, r: Alignment.Response, ahead: nat)
    requires l.unread == []
    ensures var l' := HeaderRead(l, r, ahead, NoError); l'.buffered + l'.unread == r.payload && l'.pending == NoError
  {
    var all := l.unread + r.header + r.payload;
    assert all[|r.header|..] == r.payload;
  }

  lemma {:induction false} AnswerKeepsOk(cfg: Config, s: Session, e: Traffic)
    requires SessionOk(s) && AllOk(s.proxy) && Apart(s.proxy) && Honest(e)
    requires e.Answered? && e.t < |s.proxy.workers| && s.proxy.workers[e.t].phase.ReadingHeaders?
    ensures SessionOk(Move(cfg, s, e))
  {
    var w, s' := s.proxy.workers[e.t], Move(cfg, s, e);
    var a, c := w.phase.addr, w.phase.conn;
    var l := HeaderRead(WireAt(s.wires, a, c), e.response, e.ahead, e.pending);
    OwnedIsClean(s, e.t);
    HeaderReadSplits(WireAt(s.wires, a, c), e.response, e.ahead);
    var w' := s'.proxy.workers[e.t];
    assert w'.phase == Streaming(Body(a, c, e.response.length, Start([], e.response.length), false)) && w'.left == w.left;
    assert s'.proxy.workers == s.proxy.workers[e.t := w'];
    WiresOkUpdate(s.proxy.workers, s.wires, e.t, w', a, c, l);
    forall i | 0 <= i < |s'.sent| ensures BytesOk(s'.proxy.workers[i], s'.wires, s'.sent[i], s'.got[i]) {
      if i != e.t {
        assert WorkerOk(s.proxy.workers[i]);
        OthersKeepBytes(s.proxy.workers[i], s.wires, a, c, l, s.sent[i], s.got[i]);
      }
    }
  }

  /** An answer of an unfailing connection: no error, and what it takes off the wire the client gets. */
  lemma {:induction false} ReadKeepsBytes(l: Alignment.Link, capacity: nat, size: nat, grant: nat, sent: seq<byte>, got: seq<byte>)
    requires got + (l.buffered + l.unread) == sent && l.pending == NoError
    ensures var (l', c) := Alignment.BufRead(l, capacity, size, grant, NoError);
            && got + c.data + (l'.buffered + l'.unread) == sent && l'.pending == NoError && c.err == NoError
            && |c.data| <= size && |l'.buffered + l'.unread| == |l.buffered + l.unread| - |c.data|
  {
    Alignment.BufReadConserves(l, capacity, size, grant, NoError);
    var (l', c) := Alignment.BufRead(l, capacity, size, grant, NoError);
    assert got + c.data + (l'.buffered + l'.unread) == got + (c.data + (l'.buffered + l'.unread));
  }

  /** What a Read does to the goroutine: the body goes on, or, drained, is given back. */
  lemma {:induction false} PullReads(p: Pool, size: nat, c: Chunk, w: Worker)
    requires MayRead(w) && c.err == NoError && |c.data| <= Ask(w.phase.body.reader, size)
    ensures var w', b := PullStep(p, size, c, w).worker, w.phase.body;
            && w'.left == w.left && BodyOf(w'.phase).Some?
            && var b' := BodyOf(w'.phase).value;
               && b'.addr == b.addr && b'.conn == b.conn && b'.reader.remain == b.reader.remain - |c.data|
               && (b'.reader.returned <==> b'.reader.remain == 0)
               && (b'.reader.returned || w'.phase.Streaming?)
  {
  }

  lemma {:induction false} StreamIsApart(s: Proxy, t: nat)
    requires Apart(s) && t < |s.workers| && MayRead(s.workers[t])
    ensures var b := s.workers[t].phase.body;
            forall i :: 0 <= i < |s.workers| && i != t ==> !Busy(s.workers[i], b.addr, b.conn)
  {
    var b := s.workers[t].phase.body;
    assert Owner(s.workers[t], b.addr, b.conn);
  }

  lemma {:induction false} ReadKeepsOk(cfg: Config, s: Session, e: Traffic)
    requires SessionOk(s) && AllOk(s.proxy) && Apart(s.proxy) && Honest(e)
    requires e.BodyRead? && e.t < |s.proxy.workers| && MayRead(s.proxy.workers[e.t])
    ensures SessionOk(Move(cfg, s, e))
  {
    var w, s' := s.proxy.workers[e.t], Move(cfg, s, e);
    var b := w.phase.body;
    var (l, c) := ReadFrom(s.wires, b, e);
    ReadKeepsBytes(WireAt(s.wires, b.addr, b.conn), e.capacity, Ask(b.reader, e.size), e.grant, s.sent[e.t], s.got[e.t]);
    PullReads(PoolAt(s.proxy.pools, b.addr), e.size, c, w);
    var w' := s'.proxy.workers[e.t];
    assert w' == PullStep(PoolAt(s.proxy.pools, b.addr), e.size, c, w).worker;
    assert s'.proxy.workers == s.proxy.workers[e.t := w'];
    WiresOkUpdate(s.proxy.workers, s.wires, e.t, w', b.addr, b.conn, l);
    StreamIsApart(s.proxy, e.t);
    forall i | 0 <= i < |s'.sent| ensures BytesOk(s'.proxy.workers[i], s'.wires, s'.sent[i], s'.got[i]) {
      if i != e.t {
        assert WorkerOk(s.proxy.workers[i]);
        OthersKeepBytes(s.proxy.workers[i], s.wires, b.addr, b.conn, l, s.sent[i], s.got[i]);
      }
    }
  }

  lemma {:induction false} MoveKeepsOk(cfg: Config, s: Session, e: Traffic)
    requires SessionOk(s) && AllOk(s.proxy) && Apart(s.proxy) && Honest(e)
    ensures SessionOk(Move(cfg, s, e))
  {
    var event := EventOf(s, e);
    if event.Elapse? || e.Other? {
      OtherKeepsOk(cfg, s, event);
    } else if e.Answered? {
      AnswerKeepsOk(cfg, s, e);
    } else {
      ReadKeepsOk(cfg, s, e);
    }
  }

  // ---------- What the clients get ----------

  lemma {:induction false} SessionStaysOk(cfg: Config, workers: nat, traffic: seq<Traffic>)
    requires cfg.max >= 0 && AllHonest(traffic)
    ensures SessionOk(Converse(cfg, Opened(workers), traffic))
  {
    if traffic == [] {
    } else {
      var s, events := Converse(cfg, Opened(workers), Front(traffic)), Events(cfg, Opened(workers), Front(traffic));
      SessionStaysOk(cfg, workers, Front(traffic));
      SessionIsServed(cfg, Opened(workers), Front(traffic));
      ProxyRefinesProtocol(cfg, workers, events, 0);
      OwnersAreApart(cfg, workers, events);
      MoveKeepsOk(cfg, s, Last(traffic));
    }
  }

  /** However requests interleave, an idle connection has nothing left on it: the next request starts at its answer. */
  lemma {:induction false} IdleIsOnBoundary(cfg: Config, workers: nat, traffic: seq<Traffic>, a: Addr, k: nat)
    requires cfg.max >= 0 && AllHonest(traffic)
    requires k < |PoolAt(Converse(cfg, Opened(workers), traffic).proxy.pools, a).free|
    ensures var s := Converse(cfg, Opened(workers), traffic);
            WireAt(s.wires, a, PoolAt(s.proxy.pools, a).free[k].conn).unread == []
  {
    var s, events := Converse(cfg, Opened(workers), traffic), Events(cfg, Opened(workers), traffic);
    var c := PoolAt(s.proxy.pools, a).free[k].conn;
    SessionStaysOk(cfg, workers, traffic);
    SessionIsServed(cfg, Opened(workers), traffic);
    if WireAt(s.wires, a, c).unread != [] {
      assert SomeBusy(s.proxy.workers, a, c);
      var i: nat :| i < |s.proxy.workers| && Busy(s.proxy.workers[i], a, c);
      BusyIsNotIdle(cfg, workers, events, a, c, i, k);
    }
  }

  lemma {:induction false} BusyIsNotIdle(cfg: Config, workers: nat, events: seq<Event>, a: Addr, c: ConnId, i: nat, k: nat)
    requires cfg.max >= 0
    requires var s := Serve(cfg, Started(workers), events);
             i < |s.workers| && Busy(s.workers[i], a, c) && k < |PoolAt(s.pools, a).free|
    ensures PoolAt(Serve(cfg, Started(workers), events).pools, a).free[k].conn != c
  {
    var s := Serve(cfg, Started(workers), events);
    BusyCopies(s.workers[i], a, c);
    ProxyRefinesProtocol(cfg, workers, events, a);
    assert Copies(c)(At(a, s).threads[i]) >= 1;
    ProtocolTheorems.OwnedByOne(cfg, workers, MirrorAll(cfg, a, Started(workers), events), i, c);
    assert At(a, s).pool.free[k].conn == PoolAt(s.pools, a).free[k].conn;
  }

  /**
   However requests interleave and share connections, each client gets a prefix of the body its own upstream sent
   for it, and all of it once the stream has given the connection back.
   */
  lemma {:induction false} EachGetsItsOwn(cfg: Config, workers: nat, traffic: seq<Traffic>, i: nat)
    requires cfg.max >= 0 && AllHonest(traffic)
    requires var s := Converse(cfg, Opened(workers), traffic);
             i < |s.proxy.workers| && BodyOf(s.proxy.workers[i].phase).Some?
    ensures var s := Converse(cfg, Opened(workers), traffic);
            var b := BodyOf(s.proxy.workers[i].phase).value;
            && |s.sent| == |s.got| == |s.proxy.workers|
            && s.got[i] <= s.sent[i] && |s.sent[i]| - |s.got[i]| == b.reader.remain
            && (b.reader.returned ==> s.got[i] == s.sent[i])
  {
    SessionStaysOk(cfg, workers, traffic);
    SessionIsServed(cfg, Opened(workers), traffic);
    ProxyRefinesProtocol(cfg, workers, Events(cfg, Opened(workers), traffic), 0);
  }
}
