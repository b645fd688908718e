/**
 internal/proxy/handler.go: one request, phase by phase. Everything the phases cannot decide themselves, from
 the dial to the upstream's answer, comes from the environment.
 */
module Handler {
  import opened Limits
  import opened Streams
  import opened Protocol
  import opened Sequential
  import opened UpstreamPool
  import BufferPools
  import PipeCopy
  import ProtocolSafety
  import PoolReader

  const BAD_REQUEST := 400
  const BAD_GATEWAY := 502
  const FIRST_SERVER_ERROR := 500

  /** The request body, in memory or a stream, and what the upstream will do with the Writes of it. */
  datatype RequestBody =
    | Fixed(data: seq<byte>, upstream: PipeCopy.Sink)
    | Stream(script: seq<Chunk>, upstream: PipeCopy.Sink, bufferSize: nat)

  /** The upstream's answer as far as the proxy looks at it, and the body as it will arrive. */
  datatype Answer = Answer(status: int, contentLength: int, script: seq<Chunk>)

  /** `pick` is the random choice among the known upstreams; `host` is None without a Host header. */
  datatype Env = Env(pick: nat, host: Option<Addr>, hostParses: bool, now: int, dialOk: bool,
                     writerReuse: bool, headersWritten: bool, flushed: bool, body: RequestBody,
                     readerReuse: bool, answer: Option<Answer>)

  /** A streamed body is copied through a buffer the pipe pool can give. */
  ghost predicate Served(env: Env, pipes: BufferPools.Pipes) {
    env.body.Stream? ==> BufferPools.MayGet(pipes, env.body.bufferSize)
  }

  /** What became of the connection. */
  datatype Disposition =
    | NoUpstream
    | NotAcquired(addr: Addr)
    | ConnDropped(addr: Addr, conn: ConnId)
    | Streaming(addr: Addr, conn: ConnId, length: int)

  // ---------- Choosing the upstream ----------

  /** The known upstreams after a request, and the address it goes to. */
  function Resolve(keys: seq<Addr>, env: Env): (seq<Addr>, Option<Addr>) {
    if keys != [] then (keys, Some(keys[env.pick % |keys|]))
    else if env.host.None? then (keys, None)
    else ([env.host.value], env.host)
  }

  function ResolveAll(keys: seq<Addr>, envs: seq<Env>): seq<Addr> {
    if envs == [] then keys else Resolve(ResolveAll(keys, Front(envs)), Last(envs)).0
  }

  /** The request's own Host decides exactly when no upstream is known yet. */
  lemma {:induction false} HostDecidesIffUnknown(keys: seq<Addr>, env: Env)
    ensures (forall other: Option<Addr> :: other.Some? ==> Resolve(keys, env.(host := other)).1 == other) <==> keys == []
  {
    if keys != [] {
      var a := keys[env.pick % |keys|];
      assert Resolve(keys, env.(host := Some(a + 1))).1 == Some(a);
    }
  }

  /**
   Started without a list, the proxy sends every request to the first Host it ever saw: the list is documented as
   consulted only when given, but the first request fills it.
   */
  lemma {:induction false} FirstHostSticks(first: Env, envs: seq<Env>, env: Env)
    requires first.host.Some?
    ensures ResolveAll([], [first] + envs) == [first.host.value]
    ensures Resolve(ResolveAll([], [first] + envs), env).1 == first.host
  {
    if envs == [] {
      assert [first] + envs == [first] && Front([first]) == [];
      assert ResolveAll([], Front([first])) == [];
    } else {
      FirstHostSticks(first, Front(envs), env);
      assert Front([first] + envs) == [first] + Front(envs);
    }
  }

  // ---------- What a request should do ----------

  predicate HeadersFail(env: Env) {
    !env.headersWritten || !env.flushed
  }

  /** What the upstream has after the request body, and whether it was written without a failure. */
  function BodyWritten(body: RequestBody): (PipeCopy.Sink, bool) {
    match body
    case Fixed(data, upstream) =>
      if data == [] then (upstream, true)
      else
        var (after, ok) := PipeCopy.SinkWrite(upstream, data);
        (after, ok && |after.received| - |upstream.received| == |data|)
    case Stream(script, upstream, size) =>
      if size == 0 then (upstream, true)
      else
        var (after, r) := PipeCopy.Copy(script, upstream, size);
        (after, r == PipeCopy.Done)
  }

  predicate BodyFails(env: Env) {
    !BodyWritten(env.body).1
  }

  predicate AnswerFails(env: Env) {
    env.answer.None?
  }

  predicate SomePhaseFails(env: Env) {
    HeadersFail(env) || BodyFails(env) || AnswerFails(env)
  }

  /** The status the client sees. */
  function FinalStatus(d: Disposition, env: Env): int {
    match d
    case NoUpstream => BAD_REQUEST
    case Streaming(_, _, _) =>
      if env.answer.Some? && env.answer.value.status < FIRST_SERVER_ERROR then env.answer.value.status else BAD_GATEWAY
    case _ => BAD_GATEWAY
  }

  /** The pools after a request: acquired, and dropped again if a later phase failed. */
  ghost function ViewsAfter(cfg: Config, views: Views, d: Disposition, env: Env): Views {
    if d.NoUpstream? then views
    else
      var acquired := Now(d.addr, Acquired(cfg, View(views, d.addr), env.now, env.dialOk).0, views);
      if d.ConnDropped? then Now(d.addr, Dropped(View(acquired, d.addr), d.conn), acquired) else acquired
  }

  /** The request has a connection exactly when the pool of its address grants one, and it is the one granted. */
  ghost predicate Granted(cfg: Config, views: Views, d: Disposition, env: Env) {
    !d.NoUpstream? ==>
      var r := Acquired(cfg, View(views, d.addr), env.now, env.dialOk).1;
      if r.Got? then (d.ConnDropped? || d.Streaming?) && d.conn == r.conn else d.NotAcquired?
  }

  /**
   The disposition fits the environment: the address is the resolved one, the connection the granted one, and it
   is dropped exactly when a later phase failed.
   */
  ghost predicate Fits(cfg: Config, keys: seq<Addr>, views: Views, d: Disposition, env: Env) {
    && (d.NoUpstream? <==> Resolve(keys, env).1.None?)
    && (!d.NoUpstream? ==> Resolve(keys, env).1 == Some(d.addr))
    && Granted(cfg, views, d, env)
    && (d.ConnDropped? ==> SomePhaseFails(env))
    && (d.Streaming? ==> !SomePhaseFails(env) && d.length == env.answer.value.contentLength)
  }

  /** The Write of a body in memory takes all of it, without an error. */
  ghost predicate WriteTakesAll(upstream: PipeCopy.Sink, n: nat) {
    upstream.plan == [] || upstream.plan[0].Full? || (upstream.plan[0].Short? && upstream.plan[0].taken >= n)
  }

  /**
   A body in memory is written exactly if it is empty or one Write takes all of it; then the upstream has received
   every byte. Unlike a stream's, this needs no trust in the upstream: the count of the Write is compared.
   */
  lemma {:induction false} FixedBodyArrives(data: seq<byte>, upstream: PipeCopy.Sink)
    ensures var (after, ok) := BodyWritten(Fixed(data, upstream));
            && (ok <==> data == [] || WriteTakesAll(upstream, |data|))
            && (ok ==> after.received == upstream.received + data)
  {
    var (after, ok) := BodyWritten(Fixed(data, upstream));
    if data == [] {
      assert upstream.received + data == upstream.received;
    } else if ok {
      assert data[..|data|] == data;
    }
  }

  /** A stream is written exactly if it ends with EOF and no Write fails; to an honest upstream it then arrives. */
  lemma {:induction false} StreamedBodyArrives(script: seq<Chunk>, upstream: PipeCopy.Sink, size: nat)
    requires size >= 1
    ensures var (after, ok) := BodyWritten(Stream(script, upstream, size));
            && (ok <==> PipeCopy.End(script) == Eof && !PipeCopy.SomeFails(upstream.plan, PipeCopy.Writes(script, size)))
            && (ok && PipeCopy.Honest(upstream) ==> after.received == upstream.received + PipeCopy.Payload(script))
  {
    PipeCopy.CompleteIffAllTaken(script, upstream, size);
    if PipeCopy.Honest(upstream) {
      PipeCopy.CopyIsFaithful(script, upstream, size);
    }
  }

  /**
   Exactly when a granted request streams an answer, from what the network did: the header was written and flushed,
   the body was empty, or taken by one Write, or copied to its EOF without a failing Write, and a header came back.
   Otherwise the connection is dropped.
   */
  lemma {:induction false} StreamsExactlyWhen(cfg: Config, keys: seq<Addr>, views: Views, d: Disposition, env: Env)
    requires Fits(cfg, keys, views, d, env) && (d.ConnDropped? || d.Streaming?)
    requires env.body.Stream? ==> env.body.bufferSize >= 1
    ensures d.Streaming? <==>
            && env.headersWritten && env.flushed && env.answer.Some?
            && match env.body
               case Fixed(data, upstream) => data == [] || WriteTakesAll(upstream, |data|)
               case Stream(script, upstream, size) =>
                 PipeCopy.End(script) == Eof && !PipeCopy.SomeFails(upstream.plan, PipeCopy.Writes(script, size))
  {
    match env.body
    case Fixed(data, upstream) => FixedBodyArrives(data, upstream);
    case Stream(script, upstream, size) => StreamedBodyArrives(script, upstream, size);
  }

  /**
   Exactly when a request gets a connection, and which: the one returned last if it has been idle for no longer than
   the timeout, else a new one if a slot is left, counting that of the connection it drops, and the dial succeeds.
   */
  lemma {:induction false} GrantedExactlyWhen(cfg: Config, keys: seq<Addr>, views: Views, d: Disposition, env: Env)
    requires Fits(cfg, keys, views, d, env) && !d.NoUpstream?
    ensures var p := View(views, d.addr);
            var n := |p.free|;
            var young := n > 0 && env.now - p.free[n - 1].returnedAt <= cfg.idleTimeout;
            var taken := if n > 0 then p.count - 1 else p.count;
            && (d.NotAcquired? <==> !young && !(taken < ToInt32(cfg.max) && env.dialOk))
            && (!d.NotAcquired? ==> d.conn == if young then p.free[n - 1].conn else p.next)
  {
    AcquireInFull(cfg, View(views, d.addr), env.now, env.dialOk);
  }

  /** The status the client sees, in numbers; whether the upstream's address parses has no part in it. */
  lemma {:induction false} StatusInNumbers(cfg: Config, keys: seq<Addr>, views: Views, d: Disposition, env: Env)
    requires Fits(cfg, keys, views, d, env)
    ensures FinalStatus(d, env) ==
            if keys == [] && env.host == None then 400
            else if d.Streaming? && env.answer.value.status < 500 then env.answer.value.status
            else 502
  {
  }

  /** Among the known upstreams each is picked by some choice, and nothing else is. */
  lemma {:induction false} EveryUpstreamIsPicked(keys: seq<Addr>, env: Env, a: Addr)
    requires keys != []
    ensures (exists pick :: Resolve(keys, env.(pick := pick)).1 == Some(a)) <==> a in keys
    ensures Resolve(keys, env).0 == keys
  {
    if a in keys {
      var i :| 0 <= i < |keys| && keys[i] == a;
      assert i % |keys| == i;
      assert Resolve(keys, env.(pick := i)).1 == Some(a);
    }
  }

  /** A request that used the connection it was granted, and dropped it if a phase failed, fits. */
  lemma {:induction false} UsedFits(cfg: Config, keys: seq<Addr>, views: Views, d: Disposition, env: Env, a: Addr, c: ConnId)
    requires Resolve(keys, env).1 == Some(a) && Acquired(cfg, View(views, a), env.now, env.dialOk).1 == Got(c)
    requires d == if SomePhaseFails(env) then ConnDropped(a, c) else Streaming(a, c, env.answer.value.contentLength)
    ensures Fits(cfg, keys, views, d, env)
  {
  }

  /** A granted connection was leased to nobody, and is now leased once. */
  lemma {:induction false} GrantedWasFree(cfg: Config, p: HostPool, now: int, dialOk: bool)
    requires HostInv(cfg, p) && Acquired(cfg, p, now, dialOk).1.Got?
    ensures var (q, r) := Acquired(cfg, p, now, dialOk);
            r.conn !in p.leased && q.leased == p.leased + multiset{r.conn}
  {
    var c := Acquired(cfg, p, now, dialOk).1.conn;
    assert HostExclusive(p, c);
    if Reuses(cfg, p, now) {
      ProtocolSafety.IdleCopiesNonNegative(Front(p.free), c);
    } else {
      assert HostExclusive(p, p.next);
      ProtocolSafety.IdleCopiesNonNegative(p.free, p.next);
    }
  }

  lemma {:induction false} FailedKeepsLeases(cfg: Config, p: HostPool, now: int, dialOk: bool)
    requires !Acquired(cfg, p, now, dialOk).1.Got?
    ensures Acquired(cfg, p, now, dialOk).0.leased == p.leased
  {
  }

  lemma {:induction false} DroppedIsForgotten(p: HostPool, before: multiset<ConnId>, c: ConnId)
    requires p.leased == before + multiset{c}
    ensures Dropped(p, c).leased == before && c !in Dropped(p, c).open
  {
    assert before + multiset{c} - multiset{c} == before;
  }

  lemma {:induction false} HandledSoundly(cfg: Config, views: Views, d: Disposition, env: Env)
    requires Sound(cfg, views) && Granted(cfg, views, d, env)
    ensures Sound(cfg, ViewsAfter(cfg, views, d, env))
  {
    if !d.NoUpstream? {
      SoundAcquire(cfg, views, d.addr, env.now, env.dialOk);
      if d.ConnDropped? {
        SoundDrop(cfg, Now(d.addr, Acquired(cfg, View(views, d.addr), env.now, env.dialOk).0, views), d.addr, d.conn);
      }
    }
  }

  /** What a request adds to the leases of an address: the connection a body stream now owns. */
  ghost function Handed(d: Disposition, a: Addr): multiset<ConnId> {
    if d.Streaming? && d.addr == a then multiset{d.conn} else multiset{}
  }

  /**
   Conservation of ownership: after any request every address leases what it leased before, plus the one
   connection that a body stream now owns, if one does; that one was leased to nobody; a dropped one is closed.
   */
  lemma {:induction false} HandledOwnership(cfg: Config, views: Views, d: Disposition, env: Env, a: Addr)
    requires Sound(cfg, views) && Granted(cfg, views, d, env)
    ensures View(ViewsAfter(cfg, views, d, env), a).leased == View(views, a).leased + Handed(d, a)
    ensures d.Streaming? ==> d.conn !in View(views, d.addr).leased
    ensures d.ConnDropped? ==> d.conn !in View(ViewsAfter(cfg, views, d, env), d.addr).open
  {
    if !d.NoUpstream? {
      var p := View(views, d.addr);
      assert HostInv(cfg, p);
      if Acquired(cfg, p, env.now, env.dialOk).1.Got? {
        GrantedWasFree(cfg, p, env.now, env.dialOk);
        DroppedIsForgotten(Acquired(cfg, p, env.now, env.dialOk).0, p.leased, d.conn);
      } else {
        FailedKeepsLeases(cfg, p, env.now, env.dialOk);
      }
    }
  }

  // ---------- Request after request ----------

  /** What happens to the pools over time: requests run, and the body streams they started settle. */
  datatype Episode =
    | Request(d: Disposition, env: Env)
    | Settles(addr: Addr, conn: ConnId, how: PoolReader.Settlement, now: int)

  ghost function ViewsOver(cfg: Config, episodes: seq<Episode>): Views {
    if episodes == [] then Fresh
    else
      var views := ViewsOver(cfg, Front(episodes));
      match Last(episodes)
      case Request(d, env) => ViewsAfter(cfg, views, d, env)
      case Settles(a, c, how, now) => PoolReader.GivenBack(cfg, views, a, c, how, now)
  }

  /** The connections of an address that body streams own: handed to them and not yet given back. */
  ghost function StreamsOf(a: Addr, episodes: seq<Episode>): multiset<ConnId> {
    if episodes == [] then multiset{}
    else
      var before := StreamsOf(a, Front(episodes));
      match Last(episodes)
      case Request(d, _) => before + Handed(d, a)
      case Settles(b, c, _, _) => if a == b then before - multiset{c} else before
  }

  /** Requests get what the pools grant, and only a stream that owns a connection gives it back. */
  ghost predicate Proper(cfg: Config, episodes: seq<Episode>) {
    episodes == [] ||
    (Proper(cfg, Front(episodes)) &&
     match Last(episodes)
     case Request(d, env) => Granted(cfg, ViewsOver(cfg, Front(episodes)), d, env)
     case Settles(a, c, _, _) => c in StreamsOf(a, Front(episodes)))
  }

  /**
   Over any sequence of requests and settlements every pool keeps its invariant, and what an address leases is
   exactly what body streams own: a failed request leaves nothing leased.
   */
  lemma {:induction false} EpisodesKeepSound(cfg: Config, episodes: seq<Episode>)
    requires ValidConfig(cfg) && Proper(cfg, episodes)
    ensures Sound(cfg, ViewsOver(cfg, episodes))
    ensures forall a :: View(ViewsOver(cfg, episodes), a).leased == StreamsOf(a, episodes)
  {
    if episodes == [] {
      SoundAtStart(cfg);
    } else {
      EpisodesKeepSound(cfg, Front(episodes));
      var views := ViewsOver(cfg, Front(episodes));
      match Last(episodes)
      case Request(d, env) =>
        HandledSoundly(cfg, views, d, env);
        forall a ensures View(ViewsOver(cfg, episodes), a).leased == StreamsOf(a, episodes) {
          HandledOwnership(cfg, views, d, env, a);
        }
      case Settles(a, c, how, now) =>
        if how.Released? {
          SoundRelease(cfg, views, a, c, now);
        } else {
          SoundDrop(cfg, views, a, c);
        }
    }
  }

  // ---------- The object ----------

  /** upstreamsObj: the known upstreams, shared by all requests. */
  class UpstreamList {
    var keys: seq<Addr>

    constructor (keys: seq<Addr>)
      ensures this.keys == keys
    {
      this.keys := keys;
    }

    method Random(pick: nat) returns (r: Option<Addr>)
      ensures r == if keys == [] then None else Some(keys[pick % |keys|])
    {
      if |keys| == 0 {
        return None;
      }
      return Some(keys[pick % |keys|]);
    }

    method Append(a: Addr)
      modifies this
      ensures keys == if a in old(keys) then old(keys) else old(keys) + [a]
    {
      if a !in keys {
        keys := keys + [a];
      }
    }
  }

  /** A new reader over these pools that streams the answer and owns the connection. */
  ghost predicate StreamsFor(body: PoolReader.PoolReader, upstreams: Upstreams, d: Disposition, answer: Answer)
    requires d.Streaming?
    reads body, body.source, body.pool, body.pool.repr
  {
    && body.Valid() && body.pool == upstreams
    && body.upstreamAddr == d.addr && body.connection == d.conn
    && body.Abs() == PoolReader.Start(answer.script, d.length)
  }

  class Handler {
    const list: UpstreamList
    const upstreams: Upstreams
    const pools: BufferPools.Pools
    var upstreamAddress: Addr
    var connection: ConnId
    var status: int

    constructor (list: UpstreamList, upstreams: Upstreams, pools: BufferPools.Pools)
      ensures this.list == list && this.upstreams == upstreams && this.pools == pools
    {
      this.list, this.upstreams, this.pools := list, upstreams, pools;
      upstreamAddress, connection, status := 0, 0, 200;
    }

    /** An address that does not parse sets 400 but does not stop the request. */
    method ResolveUpstream(env: Env) returns (ok: bool)
      modifies this`upstreamAddress, this`status, list
      ensures (list.keys, if ok then Some(upstreamAddress) else None) == Resolve(old(list.keys), env)
      ensures !ok ==> status == BAD_REQUEST
    {
      var up := list.Random(env.pick);
      if up.Some? {
        upstreamAddress := up.value;
        return true;
      }
      if env.host.None? {
        status := BAD_REQUEST;
        return false;
      }
      upstreamAddress := env.host.value;
      if !env.hostParses {
        status := BAD_REQUEST;
      }
      list.Append(upstreamAddress);
      assert list.keys == [upstreamAddress];
      return true;
    }

    method AcquireUpstreamConn(env: Env) returns (ok: bool)
      requires upstreams.Valid()
      modifies this`connection, this`status, upstreams, upstreams.repr
      ensures upstreams.Valid() && fresh(upstreams.repr - old(upstreams.repr))
      ensures var (p, r) := Acquired(upstreams.cfg, View(old(upstreams.views), upstreamAddress), env.now, env.dialOk);
              && upstreams.views == Now(upstreamAddress, p, old(upstreams.views))
              && ok == r.Got? && (ok ==> connection == r.conn)
      ensures !ok ==> status == BAD_GATEWAY
    {
      var r := upstreams.Acquire(upstreamAddress, env.now, env.dialOk);
      if !r.Got? {
        status := BAD_GATEWAY;
        return false;
      }
      connection := r.conn;
      return true;
    }

    method WriteRequestHeaders(env: Env) returns (ok: bool)
      requires pools.Valid()
      modifies this`status, pools
      ensures pools.Valid() && ok == !HeadersFail(env) && pools.pipes == old(pools.pipes)
      ensures pools.Held().readersHeld == old(pools.Held().readersHeld)
      ensures pools.Held().writersHeld == old(pools.Held().writersHeld)
      ensures !ok ==> status == BAD_GATEWAY
    {
      pools.AcquireBufIOWriter(env.writerReuse);
      ok := true;
      if !env.headersWritten {
        status, ok := BAD_GATEWAY, false;
      } else if !env.flushed {
        status, ok := BAD_GATEWAY, false;
      }
      pools.ReleaseBufIOWriter();
    }

    method WriteRequestBody(env: Env) returns (ok: bool, ghost sent: PipeCopy.Sink)
      requires pools.Valid() && Served(env, pools.pipes)
      modifies this`status, pools
      ensures pools.Valid() && (sent, ok) == BodyWritten(env.body)
      ensures pools.Held().readersHeld == old(pools.Held().readersHeld)
      ensures pools.Held().writersHeld == old(pools.Held().writersHeld)
      ensures !ok ==> status == BAD_GATEWAY
    {
      match env.body
      case Stream(script, upstream, bufferSize) =>
        var src := new Source(script);
        var dst := new PipeCopy.Conn(upstream);
        var buf := new byte[bufferSize];
        var r := PipeCopy.Run(src, dst, buf, pools);
        ok, sent := r == PipeCopy.Done, dst.state;
        if !ok {
          status := BAD_GATEWAY;
        }
      case Fixed(data, upstream) =>
        if |data| == 0 {
          return true, upstream;
        }
        var dst := new PipeCopy.Conn(upstream);
        var body := new byte[|data|](i requires 0 <= i < |data| => data[i]);
        assert body[..|data|] == data;
        var n;
        n, ok := dst.Write(body, |data|);
        sent := dst.state;
        if !ok {
          status := BAD_GATEWAY;
        } else if n != |data| {
          status, ok := BAD_GATEWAY, false;
        }
    }

    /** The bufio reader acquired here is not returned when the read fails. */
    method ReadResponseHeaders(env: Env) returns (ok: bool)
      requires pools.Valid()
      modifies this`status, pools
      ensures pools.Valid() && ok == !AnswerFails(env)
      ensures pools.Held().readersHeld == old(pools.Held().readersHeld) + 1
      ensures pools.Held().writersHeld == old(pools.Held().writersHeld)
      ensures !ok ==> status == BAD_GATEWAY
    {
      pools.AcquireBufIOReader(env.readerReuse);
      ok := env.answer.Some?;
      if !ok {
        status := BAD_GATEWAY;
      }
    }

    method CopyResponseStatus(answer: Answer)
      modifies this`status
      ensures status == if answer.status >= 500 then 502 else answer.status
    {
      if answer.status >= FIRST_SERVER_ERROR {
        status := BAD_GATEWAY;
      } else {
        status := answer.status;
      }
    }

    method StreamResponseBody(answer: Answer) returns (body: PoolReader.PoolReader)
      requires upstreams.Valid() && connection in View(upstreams.views, upstreamAddress).leased
      ensures fresh(body) && body.Valid() && body.pool == upstreams
      ensures body.upstreamAddr == upstreamAddress && body.connection == connection
      ensures body.Abs() == PoolReader.Start(answer.script, answer.contentLength)
    {
      var source := new Source(answer.script);
      body := new PoolReader.PoolReader(source, upstreams, upstreamAddress, connection, answer.contentLength, true);
    }

    /** The phases after the acquisition, up to the response header. */
    method Converse(env: Env) returns (ok: bool)
      requires pools.Valid() && Served(env, pools.pipes)
      modifies this`status, pools
      ensures pools.Valid() && ok == !SomePhaseFails(env)
      ensures pools.Held().writersHeld == old(pools.Held().writersHeld)
      ensures pools.Held().readersHeld ==
              old(pools.Held().readersHeld) + if HeadersFail(env) || BodyFails(env) then 0 else 1
      ensures !ok ==> status == BAD_GATEWAY
    {
      ok := WriteRequestHeaders(env);
      if !ok {
        return;
      }
      ghost var sent;
      ok, sent := WriteRequestBody(env);
      if !ok {
        return;
      }
      ok := ReadResponseHeaders(env);
    }

    /** What handle() does once it has a connection: drop it after a failed phase, or hand it to a body stream. */
    method UseConnection(env: Env) returns (d: Disposition, body: PoolReader.PoolReader?)
      requires upstreams.Valid() && connection in View(upstreams.views, upstreamAddress).leased
      requires pools.Valid() && Served(env, pools.pipes)
      modifies this`status, upstreams, upstreams.repr, pools
      ensures upstreams.Valid() && pools.Valid()
      ensures d == if SomePhaseFails(env) then ConnDropped(upstreamAddress, connection)
                   else Streaming(upstreamAddress, connection, env.answer.value.contentLength)
      ensures upstreams.views ==
              if d.Streaming? then old(upstreams.views)
              else Now(upstreamAddress, Dropped(View(old(upstreams.views), upstreamAddress), connection), old(upstreams.views))
      ensures status == FinalStatus(d, env)
      ensures pools.Held().writersHeld == old(pools.Held().writersHeld)
      ensures pools.Held().readersHeld ==
              old(pools.Held().readersHeld) + if HeadersFail(env) || BodyFails(env) then 0 else 1
      ensures body != null <==> d.Streaming?
      ensures body != null ==> fresh(body) && env.answer.Some? && StreamsFor(body, upstreams, d, env.answer.value)
    {
      body := null;
      var ok := Converse(env);
      if !ok {
        upstreams.CloseAndDrop(upstreamAddress, connection);
        return ConnDropped(upstreamAddress, connection), null;
      }
      CopyResponseStatus(env.answer.value);
      body := StreamResponseBody(env.answer.value);
      d := Streaming(upstreamAddress, connection, env.answer.value.contentLength);
    }

    /** One request. A failed phase drops the connection; otherwise the body stream owns it. */
    method Handle(env: Env) returns (d: Disposition, body: PoolReader.PoolReader?)
      requires upstreams.Valid() && Sound(upstreams.cfg, upstreams.views) && pools.Valid() && Served(env, pools.pipes)
      modifies this, list, upstreams, upstreams.repr, pools
      ensures upstreams.Valid() && pools.Valid()
      ensures Fits(upstreams.cfg, old(list.keys), old(upstreams.views), d, env)
      ensures list.keys == Resolve(old(list.keys), env).0
      ensures upstreams.views == ViewsAfter(upstreams.cfg, old(upstreams.views), d, env)
      ensures status == FinalStatus(d, env)
      ensures pools.Held().writersHeld == old(pools.Held().writersHeld)
      ensures pools.Held().readersHeld == old(pools.Held().readersHeld) +
              if (d.ConnDropped? || d.Streaming?) && !HeadersFail(env) && !BodyFails(env) then 1 else 0
      ensures body != null <==> d.Streaming?
      ensures body != null ==> fresh(body) && env.answer.Some? && StreamsFor(body, upstreams, d, env.answer.value)
    {
      body := null;
      ghost var before := upstreams.views;
      var ok := ResolveUpstream(env);
      if !ok {
        return NoUpstream, null;
      }
      ok := AcquireUpstreamConn(env);
      if !ok {
        return NotAcquired(upstreamAddress), null;
      }
      SoundAcquire(upstreams.cfg, before, upstreamAddress, env.now, env.dialOk);
      d, body := UseConnection(env);
      UsedFits(upstreams.cfg, old(list.keys), before, d, env, upstreamAddress, connection);
    }
  }
}
