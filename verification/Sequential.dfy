/**
 The pool of one address when calls do not overlap: each call as one transition. The pool protocol with a
 single goroutine refines it, and in it a pool with something idle never refuses a request.
 */
module Sequential {
  import opened Limits
  import opened Protocol
  import opened ProtocolSafety

  /** connPool between calls, with the leases its clients hold and the sockets that are open. */
  datatype HostPool = HostPool(free: seq<IdleConn>, count: int, leased: multiset<ConnId>, open: set<ConnId>, next: ConnId)

  datatype Call = Acquire(now: int, dialOk: bool) | Release(conn: ConnId, now: int) | CloseAndDrop(conn: ConnId)

  const EMPTY_HOST := HostPool([], 0, multiset{}, {}, 0)

  function Connected(cfg: Config, p: HostPool, dialOk: bool): (HostPool, Outcome) {
    if p.count >= DialLimit(cfg) then (p, Refused)
    else if dialOk then
      (p.(count := p.count + 1, leased := p.leased + multiset{p.next}, open := p.open + {p.next}, next := p.next + 1),
       Got(p.next))
    else (p, DialFailed)
  }

  /** The pool without its stale top. */
  function Evicted(p: HostPool): HostPool {
    if p.free == [] then p
    else p.(free := Front(p.free), open := p.open - {Last(p.free).conn}, count := p.count - 1)
  }

  predicate Reuses(cfg: Config, p: HostPool, now: int) {
    p.free != [] && !IsStale(cfg, Last(p.free), now)
  }

  function Acquired(cfg: Config, p: HostPool, now: int, dialOk: bool): (HostPool, Outcome) {
    if Reuses(cfg, p, now) then
      var c := Last(p.free).conn;
      (p.(free := Front(p.free), leased := p.leased + multiset{c}), Got(c))
    else Connected(cfg, Evicted(p), dialOk)
  }

  function Released(cfg: Config, p: HostPool, c: ConnId, now: int): HostPool {
    var q := p.(leased := p.leased - multiset{c});
    if |p.free| >= cfg.max then q.(count := p.count - 1, open := p.open - {c})
    else q.(free := p.free + [IdleConn(c, now)])
  }

  function Dropped(p: HostPool, c: ConnId): HostPool {
    p.(leased := p.leased - multiset{c}, count := p.count - 1, open := p.open - {c})
  }

  /** One whole call; a client releases or drops only what it leases. */
  function Apply(cfg: Config, p: HostPool, call: Call): HostPool {
    match call
    case Acquire(now, dialOk) => Acquired(cfg, p, now, dialOk).0
    case Release(c, now) => if c in p.leased then Released(cfg, p, c, now) else p
    case CloseAndDrop(c) => if c in p.leased then Dropped(p, c) else p
  }

  function ApplyAll(cfg: Config, calls: seq<Call>): HostPool {
    if calls == [] then EMPTY_HOST else Apply(cfg, ApplyAll(cfg, Front(calls)), Last(calls))
  }

  /** What the most recent Acquire returned. */
  function LastOutcome(cfg: Config, calls: seq<Call>): Outcome {
    if calls == [] then NoCall
    else
      match Last(calls)
      case Acquire(now, dialOk) => Acquired(cfg, ApplyAll(cfg, Front(calls)), now, dialOk).1
      case _ => LastOutcome(cfg, Front(calls))
  }

  // ---------- What every call keeps ----------

  ghost predicate HostExclusive(p: HostPool, c: ConnId) {
    && IdleCopies(p.free, c) + p.leased[c] == (if c in p.open then 1 else 0)
    && (c in p.open ==> c < p.next)
  }

  ghost predicate HostInv(cfg: Config, p: HostPool) {
    && (forall c: ConnId :: HostExclusive(p, c))
    && p.count == |p.free| + |p.leased|
    && (p.count == 0 || p.count <= DialLimit(cfg))
  }

  lemma {:induction false} AcquiredKeeps(cfg: Config, p: HostPool, now: int, dialOk: bool)
    requires HostInv(cfg, p)
    ensures HostInv(cfg, Acquired(cfg, p, now, dialOk).0)
    ensures p.free != [] ==> Acquired(cfg, p, now, dialOk).1 != Refused
  {
    var q := Acquired(cfg, p, now, dialOk).0;
    forall c: ConnId ensures HostExclusive(q, c) {
      assert HostExclusive(p, c);
      if p.free != [] {
        IdleCopiesNonNegative(Front(p.free), c);
      }
    }
  }

  /**
   An Acquire in terms of the clock, the counter and the configured numbers: a top idle for no longer than the timeout,
   exactly the timeout included, is reused; otherwise it is closed and one dial is made, if a slot is left.
   */
  lemma {:induction false} AcquireInFull(cfg: Config, p: HostPool, now: int, dialOk: bool)
    ensures var (q, r) := Acquired(cfg, p, now, dialOk);
            var n := |p.free|;
            if n > 0 && now - p.free[n - 1].returnedAt <= cfg.idleTimeout then
              && r == Got(p.free[n - 1].conn)
              && q == HostPool(p.free[..n - 1], p.count, p.leased + multiset{p.free[n - 1].conn}, p.open, p.next)
            else
              var free := if n > 0 then p.free[..n - 1] else [];
              var count := if n > 0 then p.count - 1 else p.count;
              var open := if n > 0 then p.open - {p.free[n - 1].conn} else p.open;
              if count < ToInt32(cfg.max) && dialOk then
                && r == Got(p.next)
                && q == HostPool(free, count + 1, p.leased + multiset{p.next}, open + {p.next}, p.next + 1)
              else
                && r == (if count < ToInt32(cfg.max) then DialFailed else Refused)
                && q == HostPool(free, count, p.leased, open, p.next)
  {
  }

  lemma {:induction false} ReleasedKeeps(cfg: Config, p: HostPool, c: ConnId, now: int)
    requires ValidConfig(cfg) && HostInv(cfg, p) && c in p.leased
    ensures HostInv(cfg, Released(cfg, p, c, now))
    ensures Released(cfg, p, c, now) == p.(leased := p.leased - multiset{c}, free := p.free + [IdleConn(c, now)])
  {
    var q := Released(cfg, p, c, now);
    forall d: ConnId ensures HostExclusive(q, d) {
      assert HostExclusive(p, d);
      IdleCopiesNonNegative(p.free, d);
      IdleCopiesPush(p.free, IdleConn(c, now), d);
    }
  }

  lemma {:induction false} DroppedKeeps(cfg: Config, p: HostPool, c: ConnId)
    requires HostInv(cfg, p) && c in p.leased
    ensures HostInv(cfg, Dropped(p, c))
  {
    var q := Dropped(p, c);
    forall d: ConnId ensures HostExclusive(q, d) {
      assert HostExclusive(p, d);
      IdleCopiesNonNegative(p.free, d);
    }
  }

  lemma {:induction false} CallKeeps(cfg: Config, p: HostPool, call: Call)
    requires ValidConfig(cfg) && HostInv(cfg, p)
    ensures HostInv(cfg, Apply(cfg, p, call))
  {
    match call
    case Acquire(now, dialOk) => AcquiredKeeps(cfg, p, now, dialOk);
    case Release(c, now) => if c in p.leased { ReleasedKeeps(cfg, p, c, now); }
    case CloseAndDrop(c) => if c in p.leased { DroppedKeeps(cfg, p, c); }
  }

  lemma {:induction false} CallsKeep(cfg: Config, calls: seq<Call>)
    requires ValidConfig(cfg)
    ensures HostInv(cfg, ApplyAll(cfg, calls))
  {
    if calls == [] {
    } else {
      CallsKeep(cfg, Front(calls));
      CallKeeps(cfg, ApplyAll(cfg, Front(calls)), Last(calls));
    }
  }

  /**
   While something is idle an Acquire is never refused, its only error is the dial's, and an error leaves
   every lease as it was and `count` lower only by the stale connection that was dropped.
   */
  lemma {:induction false} NoRefusalWhileIdle(cfg: Config, calls: seq<Call>, now: int, dialOk: bool)
    requires ValidConfig(cfg)
    requires ApplyAll(cfg, calls).free != []
    ensures var p := ApplyAll(cfg, calls);
            var (q, r) := Acquired(cfg, p, now, dialOk);
            && (r.Got? || (r == DialFailed && !dialOk))
            && (r == DialFailed ==> q.leased == p.leased && q.count == p.count - 1 && q.free == Front(p.free))
  {
    CallsKeep(cfg, calls);
    AcquiredKeeps(cfg, ApplyAll(cfg, calls), now, dialOk);
  }

  /** Without overlapping calls a Release always keeps the connection: the full-stack branch is dead. */
  lemma {:induction false} ReleaseAlwaysKeeps(cfg: Config, calls: seq<Call>, c: ConnId, now: int)
    requires ValidConfig(cfg) && c in ApplyAll(cfg, calls).leased
    ensures var p, q := ApplyAll(cfg, calls), ApplyAll(cfg, calls + [Release(c, now)]);
            q.free == p.free + [IdleConn(c, now)] && q.count == p.count && q.open == p.open
  {
    CallsKeep(cfg, calls);
    ReleasedKeeps(cfg, ApplyAll(cfg, calls), c, now);
    assert Front(calls + [Release(c, now)]) == calls;
  }
}
