/**
 internal/readers/pool_reader.go: a reader that gives its connection back while the body streams. A run is a
 sequence of Reads with buffers of any sizes over any source.
 */
module PoolReader {
  import opened Streams
  import opened Protocol
  import opened Sequential
  import opened Limits
  import UpstreamPool

  /** Which pool call a reader made when it gave up its connection. */
  datatype Settlement = Released | Dropped

  /**
   A PoolReader, with how often it read its source, how it settled, and how often it called onDone, if it has one.
   */
  datatype Reader = Reader(script: seq<Chunk>, remain: int, returned: bool, onDone: bool, touches: nat,
                           settled: seq<Settlement>, dones: nat)

  /** The reader streamResponseBody makes: it has an onDone. */
  function Start(script: seq<Chunk>, remain: int): Reader {
    Reader(script, remain, false, true, 0, [], 0)
  }

  function Settle(r: Reader, how: Settlement): Reader {
    r.(returned := true, settled := r.settled + [how], dones := r.dones + if r.onDone then 1 else 0)
  }

  /** How many bytes a Read asks its source for: with a declared length, never more than remain. */
  function Ask(r: Reader, size: nat): nat {
    if 0 <= r.remain < size then r.remain else size
  }

  /** What so many bytes and an error do to a reader that counts bytes. */
  function CountedDown(r: Reader, n: nat, err: ReadError): Reader {
    var r1 := r.(remain := r.remain - n);
    if (r1.remain <= 0 || err != NoError) && !r.returned then Settle(r1, Released) else r1
  }

  lemma {:induction false} FieldsCountedDown(r: Reader, r': Reader, n: nat, err: ReadError)
    requires r'.script == r.script && r'.touches == r.touches && r'.onDone == r.onDone && r'.remain == r.remain - n
    requires r'.returned == (r.returned || r'.remain <= 0 || err != NoError)
    requires r'.settled == if r'.returned == r.returned then r.settled else r.settled + [Released]
    requires r'.dones == r.dones + if r'.returned != r.returned && r.onDone then 1 else 0
    ensures r' == CountedDown(r, n, err)
  {
  }

  /** What the source's answer does to a reader that counts bytes. */
  function AbsorbLimited(r: Reader, c: Chunk): Reader {
    CountedDown(r.(touches := r.touches + 1), |c.data|, c.err)
  }

  /** What the source's answer does to a reader that reads to the end of the stream. */
  function AbsorbUnlimited(r: Reader, c: Chunk): Reader {
    var r1 := r.(touches := r.touches + 1);
    if !r.returned && c.err != NoError then Settle(r1, Dropped) else r1
  }

  function LimitStep(r: Reader, size: nat): (Reader, Chunk)
    requires r.remain >= 0
  {
    if r.remain == 0 then (r, Chunk([], Eof))
    else
      var (rest, c) := SourceRead(r.script, Ask(r, size));
      (AbsorbLimited(r.(script := rest), c), c)
  }

  function StreamStep(r: Reader, size: nat): (Reader, Chunk) {
    var (rest, c) := SourceRead(r.script, size);
    (AbsorbUnlimited(r.(script := rest), c), c)
  }

  function ReadStep(r: Reader, size: nat): (Reader, Chunk) {
    if r.remain >= 0 then LimitStep(r, size) else StreamStep(r, size)
  }

  /** The reader after a run, and what its caller got. */
  function After(r: Reader, sizes: seq<nat>): Reader {
    if sizes == [] then r else ReadStep(After(r, Front(sizes)), Last(sizes)).0
  }

  function Results(r: Reader, sizes: seq<nat>): seq<Chunk> {
    if sizes == [] then [] else Results(r, Front(sizes)) + [ReadStep(After(r, Front(sizes)), Last(sizes)).1]
  }

  ghost predicate SawError(results: seq<Chunk>) {
    exists c :: c in results && c.err != NoError
  }

  // ---------- Settling ----------

  ghost predicate SettledExactly(n: int, r: Reader, results: seq<Chunk>) {
    && r.settled == (if n == 0 || !(SawError(results) || (n > 0 && r.remain == 0)) then []
                     else if n > 0 then [Released] else [Dropped])
    && r.onDone && r.dones == |r.settled|
    && r.returned == (r.settled != [])
    && (n < 0 ==> r.remain == n)
    && (n >= 0 ==> 0 <= r.remain <= n)
  }

  /**
   A reader settles at most once, calls onDone exactly as often, and settles exactly when its declared length is
   not zero and it was read to the limit or to an error: by Release for a length, by CloseAndDrop without one.
   */
  lemma {:induction false} SettlesOnce(script: seq<Chunk>, n: int, sizes: seq<nat>)
    ensures SettledExactly(n, After(Start(script, n), sizes), Results(Start(script, n), sizes))
  {
    if sizes == [] {
    } else {
      SettlesOnce(script, n, Front(sizes));
      var r, results := After(Start(script, n), Front(sizes)), Results(Start(script, n), Front(sizes));
      var (r', c) := ReadStep(r, Last(sizes));
      assert SawError(results + [c]) <==> SawError(results) || c.err != NoError by {
        if c.err != NoError {
          assert c in results + [c];
        }
      }
    }
  }

  /** A zero Content-Length is the one length that never settles, whatever is read. */
  lemma {:induction false} ZeroLengthNeverSettles(script: seq<Chunk>, sizes: seq<nat>)
    ensures After(Start(script, 0), sizes) == Start(script, 0)
  {
    if sizes == [] {
    } else {
      ZeroLengthNeverSettles(script, Front(sizes));
    }
  }

  // ---------- io.LimitReader ----------

  datatype Limited = Limited(script: seq<Chunk>, n: int)

  /** io.LimitedReader.Read. */
  function LimitRead(l: Limited, size: nat): (Limited, Chunk) {
    if l.n <= 0 then (l, Chunk([], Eof))
    else
      var (rest, c) := SourceRead(l.script, if size > l.n then l.n else size);
      (Limited(rest, l.n - |c.data|), c)
  }

  function LimitAfter(l: Limited, sizes: seq<nat>): Limited {
    if sizes == [] then l else LimitRead(LimitAfter(l, Front(sizes)), Last(sizes)).0
  }

  function LimitResults(l: Limited, sizes: seq<nat>): seq<Chunk> {
    if sizes == [] then [] else LimitResults(l, Front(sizes)) + [LimitRead(LimitAfter(l, Front(sizes)), Last(sizes)).1]
  }

  /** With a declared length the results, bytes and errors, and the source's position are io.LimitReader's. */
  lemma {:induction false} RefinesLimitReader(script: seq<Chunk>, n: nat, sizes: seq<nat>)
    ensures Results(Start(script, n), sizes) == LimitResults(Limited(script, n), sizes)
    ensures After(Start(script, n), sizes).script == LimitAfter(Limited(script, n), sizes).script
    ensures After(Start(script, n), sizes).remain == LimitAfter(Limited(script, n), sizes).n >= 0
  {
    if sizes == [] {
    } else {
      RefinesLimitReader(script, n, Front(sizes));
    }
  }

  /**
   Without a length the reader is its source: every Read asks for as much as its caller, and passes on the bytes and
   the error it gets, whatever they are.
   */
  lemma {:induction false} PassesOn(script: seq<Chunk>, n: int, sizes: seq<nat>)
    requires n < 0
    ensures Results(Start(script, n), sizes) == Answers(script, sizes)
    ensures After(Start(script, n), sizes).touches == |sizes|
  {
    if sizes == [] {
    } else {
      PassesOn(script, n, Front(sizes));
      AnswersSnoc(script, Front(sizes), Last(sizes));
      UnlimitedPosition(script, n, Front(sizes));
      assert sizes == Front(sizes) + [Last(sizes)];
    }
  }

  lemma {:induction false} UnlimitedPosition(script: seq<Chunk>, n: int, sizes: seq<nat>)
    requires n < 0
    ensures var r := After(Start(script, n), sizes); r.script == Rest(script, sizes) && r.remain == n
  {
    if sizes == [] {
    } else {
      UnlimitedPosition(script, n, Front(sizes));
      RestSnoc(script, Front(sizes), Last(sizes));
      assert sizes == Front(sizes) + [Last(sizes)];
    }
  }

  /** Without a callback everything else is the same, and nothing is called. */
  lemma {:induction false} NoCallbackNoCall(script: seq<Chunk>, n: int, sizes: seq<nat>)
    ensures After(Start(script, n).(onDone := false), sizes) ==
            After(Start(script, n), sizes).(onDone := false, dones := 0)
  {
    if sizes == [] {
    } else {
      NoCallbackNoCall(script, n, Front(sizes));
    }
  }

  /**
   Exactly the delivered bytes left the source, in order; and with a declared length, delivered plus remaining is
   that length, so the source never loses a byte past it.
   */
  lemma {:induction false} ConservesBytes(script: seq<Chunk>, n: int, sizes: seq<nat>)
    ensures var r, got := After(Start(script, n), sizes), Bytes(Results(Start(script, n), sizes));
            && got + Bytes(r.script) == Bytes(script)
            && (if n >= 0 then n == |got| + r.remain && r.remain >= 0 else r.remain == n)
  {
    if sizes == [] {
    } else {
      ConservesBytes(script, n, Front(sizes));
      var r, results := After(Start(script, n), Front(sizes)), Results(Start(script, n), Front(sizes));
      var (r', c) := ReadStep(r, Last(sizes));
      BytesAppend(results, c);
      ReadStepConserves(r, Last(sizes));
      Regroup(Bytes(results), c.data, Bytes(r'.script));
    }
  }

  lemma {:induction false} Regroup(a: seq<byte>, b: seq<byte>, c: seq<byte>)
    ensures a + b + c == a + (b + c)
  {
  }

  lemma {:induction false} ReadStepConserves(r: Reader, size: nat)
    ensures var (r', c) := ReadStep(r, size);
            && c.data + Bytes(r'.script) == Bytes(r.script)
            && (if r.remain >= 0 then 0 <= r'.remain == r.remain - |c.data| else r'.remain == r.remain)
  {
    SourceReadConserves(r.script, Ask(r, size));
  }

  // ---------- After the connection was handed back ----------

  /** Once the limit is reached no later Read reaches the source, whatever the caller does. */
  lemma {:induction false} NoTouchAfterLimit(script: seq<Chunk>, n: int, sizes: seq<nat>, later: seq<nat>)
    requires After(Start(script, n), sizes).remain == 0
    ensures After(Start(script, n), sizes + later) == After(Start(script, n), sizes)
  {
    if later == [] {
      assert sizes + later == sizes;
    } else {
      NoTouchAfterLimit(script, n, sizes, Front(later));
      assert Front(sizes + later) == sizes + Front(later) && Last(sizes + later) == Last(later);
    }
  }

  /** A caller that has seen no error yet and has settled is at the limit: its next Read does not reach the source. */
  lemma {:induction false} NoTouchBeforeError(script: seq<Chunk>, n: int, sizes: seq<nat>, size: nat)
    requires After(Start(script, n), sizes).returned && !SawError(Results(Start(script, n), sizes))
    ensures ReadStep(After(Start(script, n), sizes), size) == (After(Start(script, n), sizes), Chunk([], Eof))
  {
    SettlesOnce(script, n, sizes);
  }

  /** Once settled, a Read reaches the source exactly when bytes remained, and then the caller had seen an error. */
  lemma {:induction false} TouchesAfterSettling(script: seq<Chunk>, n: int, sizes: seq<nat>, size: nat)
    requires After(Start(script, n), sizes).returned
    ensures var r := After(Start(script, n), sizes);
            && (ReadStep(r, size).0.touches > r.touches <==> r.remain != 0)
            && (r.remain != 0 ==> SawError(Results(Start(script, n), sizes)))
  {
    SettlesOnce(script, n, sizes);
  }

  /** Such a Read exists: a caller that goes on after an early error reads a connection it no longer owns. */
  lemma {:induction false} CarelessCallerTouches()
    ensures var r := After(Start([Chunk([], Broken)], 5), [8]);
            r.settled == [Released] && ReadStep(r, 8).0.touches == r.touches + 1
  {
    var start := Start([Chunk([], Broken)], 5);
    assert Front([8]) == [] && After(start, []) == start;
    assert After(start, [8]) == ReadStep(start, 8).0;
  }

  // ---------- The object ----------

  /** A reader that settled by Release leaves its connection open and on top of the stack; by drop, closed. */
  lemma {:induction false} SettlingKeepsOrCloses(cfg: Config, views: UpstreamPool.Views, addr: Addr, c: ConnId, how: Settlement, now: int)
    requires ValidConfig(cfg) && UpstreamPool.Sound(cfg, views) && c in UpstreamPool.View(views, addr).leased
    ensures var p, q := UpstreamPool.View(views, addr), UpstreamPool.View(GivenBack(cfg, views, addr, c, how, now), addr);
            match how
            case Released => q.free == p.free + [IdleConn(c, now)] && c in q.open
            case Dropped => q.free == p.free && c !in q.open
    ensures forall b :: b != addr ==>
              UpstreamPool.View(GivenBack(cfg, views, addr, c, how, now), b) == UpstreamPool.View(views, b)
  {
    UpstreamPool.KeptOrClosed(cfg, views, addr, c, now);
  }

  /** The pools after a connection was given back to its address. */
  ghost function GivenBack(cfg: Config, views: UpstreamPool.Views, addr: Addr, c: ConnId, how: Settlement, now: int): UpstreamPool.Views {
    var before := UpstreamPool.View(views, addr);
    UpstreamPool.Now(addr,
      if how.Released? then Sequential.Released(cfg, before, c, now) else Sequential.Dropped(before, c), views)
  }

  /** PoolReader; `onDone` says whether it was given a callback, and `dones` counts the calls of it. */
  class PoolReader {
    const source: Source
    const pool: UpstreamPool.Upstreams
    const upstreamAddr: Addr
    const connection: ConnId
    const onDone: bool
    var returned: bool
    var remain: int
    ghost var settled: seq<Settlement>
    var dones: nat

    ghost function Abs(): Reader
      reads this, source
    {
      Reader(source.script, remain, returned, onDone, source.touches, settled, dones)
    }

    /** Until it settles the reader leases its connection. */
    ghost predicate Valid()
      reads this, pool, pool.repr
    {
      && pool.Valid()
      && (!returned ==> connection in UpstreamPool.View(pool.views, upstreamAddr).leased)
    }

    constructor (source: Source, pool: UpstreamPool.Upstreams, upstreamAddr: Addr, connection: ConnId,
                 remain: int, onDone: bool)
      requires pool.Valid()
      requires source.touches == 0 && connection in UpstreamPool.View(pool.views, upstreamAddr).leased
      ensures Valid() && Abs() == Start(source.script, remain).(onDone := onDone)
      ensures this.source == source && this.pool == pool
      ensures this.upstreamAddr == upstreamAddr && this.connection == connection
    {
      this.source, this.pool, this.upstreamAddr, this.connection := source, pool, upstreamAddr, connection;
      this.remain, this.onDone, this.returned := remain, onDone, false;
      this.settled, this.dones := [], 0;
    }

    /** The pools after this reader settled as `how`; only its own address changes. */
    ghost function PoolsAfter(views: UpstreamPool.Views, now: int, how: Settlement): UpstreamPool.Views {
      GivenBack(pool.cfg, views, upstreamAddr, connection, how, now)
    }

    method GiveBack(how: Settlement, now: int)
      requires pool.Valid() && connection in UpstreamPool.View(pool.views, upstreamAddr).leased
      modifies pool, pool.repr
      ensures pool.Valid() && pool.views == PoolsAfter(old(pool.views), now, how)
    {
      if how.Released? {
        pool.Release(upstreamAddr, connection, now);
      } else {
        pool.CloseAndDrop(upstreamAddr, connection);
      }
    }

    method SettleAs(how: Settlement, now: int)
      requires Valid() && !returned
      modifies this`returned, this`settled, this`dones, pool, pool.repr
      ensures Valid() && returned && settled == old(settled) + [how]
      ensures dones == old(dones) + if onDone then 1 else 0
      ensures pool.views == PoolsAfter(old(pool.views), now, how)
    {
      returned := true;
      GiveBack(how, now);
      settled, dones := settled + [how], if onDone then dones + 1 else dones;
    }

    /** What a Read with a declared length does after its source has answered. */
    method CountDown(n: nat, err: ReadError, now: int)
      requires Valid()
      modifies this`remain, this`returned, this`settled, this`dones, pool, pool.repr
      ensures Valid() && remain == old(remain) - n
      ensures returned == (old(returned) || remain <= 0 || err != NoError)
      ensures settled == if returned == old(returned) then old(settled) else old(settled) + [Released]
      ensures dones == old(dones) + if returned != old(returned) && onDone then 1 else 0
      ensures pool.views == if returned == old(returned) then old(pool.views)
                            else PoolsAfter(old(pool.views), now, Released)
    {
      remain := remain - n;
      if remain <= 0 && !returned {
        SettleAs(Released, now);
      }
      if err != NoError && !returned {
        SettleAs(Released, now);
      }
    }

    method Read(p: array<byte>, now: int) returns (n: nat, err: ReadError)
      requires Valid()
      modifies this, source, p, pool, pool.repr
      ensures Valid() && n <= p.Length
      ensures (Abs(), Chunk(p[..n], err)) == ReadStep(old(Abs()), p.Length)
      ensures pool.views == if returned == old(returned) then old(pool.views)
                            else PoolsAfter(old(pool.views), now, if old(remain) >= 0 then Released else Dropped)
      ensures 0 <= old(remain) < p.Length ==> p[old(remain)..] == old(p[remain..])
    {
      if remain >= 0 {
        n, err := ReadWithLimit(p, now);
      } else {
        n, err := ReadUntilEOF(p, now);
      }
    }

    method ReadWithLimit(p: array<byte>, now: int) returns (n: nat, err: ReadError)
      requires Valid() && remain >= 0
      modifies this, source, p, pool, pool.repr
      ensures Valid() && n <= p.Length
      ensures (Abs(), Chunk(p[..n], err)) == LimitStep(old(Abs()), p.Length)
      ensures pool.views == if returned == old(returned) then old(pool.views)
                            else PoolsAfter(old(pool.views), now, Released)
      ensures old(remain) < p.Length ==> p[old(remain)..] == old(p[remain..])
    {
      if remain == 0 {
        return 0, Eof;
      }
      var size := p.Length;
      if size > remain {
        size := remain;
      }
      assert size == Ask(Abs(), p.Length);
      n, err := source.Read(p, size);
      ghost var mid, c := old(Abs()).(script := source.script), Chunk(p[..n], err);
      assert LimitStep(old(Abs()), p.Length) == (AbsorbLimited(mid, c), c);
      ghost var before := Abs();
      assert before == mid.(touches := mid.touches + 1);
      CountDown(n, err, now);
      FieldsCountedDown(before, Abs(), n, err);
    }

    method ReadUntilEOF(p: array<byte>, now: int) returns (n: nat, err: ReadError)
      requires Valid() && remain < 0
      modifies this, source, p, pool, pool.repr
      ensures Valid() && n <= p.Length
      ensures (Abs(), Chunk(p[..n], err)) == StreamStep(old(Abs()), p.Length)
      ensures pool.views == if returned == old(returned) then old(pool.views)
                            else PoolsAfter(old(pool.views), now, Dropped)
    {
      n, err := source.Read(p, p.Length);
      if !returned && err != NoError {
        SettleAs(Dropped, now);
      }
    }
  }
}
