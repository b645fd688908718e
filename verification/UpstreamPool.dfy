/** internal/pool/upstream_pool.go as objects updated in place: one ConnPool per upstream address. */
module UpstreamPool {
  import opened Limits
  import opened Protocol
  import opened Sequential
  import ProtocolSafety

  /** connPool of internal/pool/pool.go. Dialing is the environment's: `dialOk` says whether it succeeds. */
  class ConnPool {
    const cfg: Config
    ghost const addr: Addr
    var free: seq<IdleConn>
    var count: int
    var next: ConnId
    ghost var leased: multiset<ConnId>
    ghost var open: set<ConnId>

    ghost function Abs(): HostPool
      reads this
    {
      HostPool(free, count, leased, open, next)
    }

    constructor (cfg: Config, ghost addr: Addr)
      ensures this.cfg == cfg && this.addr == addr && Abs() == EMPTY_HOST
    {
      this.cfg, this.addr := cfg, addr;
      free, count, next, leased, open := [], 0, 0, multiset{}, {};
    }

    method DialNew(dialOk: bool) returns (r: Outcome)
      modifies this
      ensures (Abs(), r) == Connected(cfg, old(Abs()), dialOk)
    {
      if count >= DialLimit(cfg) {
        return Refused;
      }
      count := count + 1;
      if !dialOk {
        count := count - 1;
        return DialFailed;
      }
      r := Got(next);
      leased, open, next := leased + multiset{next}, open + {next}, next + 1;
    }

    method Acquire(now: int, dialOk: bool) returns (r: Outcome)
      modifies this
      ensures Abs() == Acquired(cfg, old(Abs()), now, dialOk).0
      ensures r == Acquired(cfg, old(Abs()), now, dialOk).1
      ensures |old(free)| > 0 ==> free == old(free[..|free| - 1])
      ensures |old(free)| > 0 && now - old(free[|free| - 1]).returnedAt <= cfg.idleTimeout ==>
                r == Got(old(free[|free| - 1]).conn) && count == old(count) && open == old(open)
      ensures |old(free)| > 0 && now - old(free[|free| - 1]).returnedAt > cfg.idleTimeout ==>
                open == old(open) - {old(free[|free| - 1]).conn} + if r.Got? then {r.conn} else {}
    {
      var n := |free|;
      if n > 0 {
        var last := free[n - 1];
        free := free[..n - 1];
        if now - last.returnedAt > cfg.idleTimeout {
          open := open - {last.conn};
          count := count - 1;
          r := DialNew(dialOk);
          return;
        }
        leased := leased + multiset{last.conn};
        return Got(last.conn);
      }
      r := DialNew(dialOk);
    }

    method Release(c: ConnId, now: int)
      modifies this
      ensures Abs() == Released(cfg, old(Abs()), c, now)
    {
      leased := leased - multiset{c};
      if |free| >= cfg.max {
        count := count - 1;
        open := open - {c};
        return;
      }
      free := free + [IdleConn(c, now)];
    }

    method CloseAndDrop(c: ConnId)
      modifies this
      ensures Abs() == Dropped(old(Abs()), c)
    {
      leased := leased - multiset{c};
      count := count - 1;
      open := open - {c};
    }
  }

  /** What became of the pools, as values and newest first: the newest entry of an address is its pool now. */
  datatype Views = Fresh | Now(addr: Addr, pool: HostPool, before: Views)

  /** The pool of an address; one that was never used is empty. */
  ghost function View(views: Views, addr: Addr): HostPool {
    match views
    case Fresh => EMPTY_HOST
    case Now(a, p, before) => if a == addr then p else View(before, addr)
  }

  /** Every pool keeps what whole calls keep. */
  ghost predicate Sound(cfg: Config, views: Views) {
    forall a :: HostInv(cfg, View(views, a))
  }

  lemma {:induction false} SoundAtStart(cfg: Config)
    ensures Sound(cfg, Fresh)
  {
    forall c: ConnId ensures HostExclusive(EMPTY_HOST, c) {
    }
  }

  lemma {:induction false} SoundAcquire(cfg: Config, views: Views, addr: Addr, now: int, dialOk: bool)
    requires Sound(cfg, views)
    ensures var (p, r) := Acquired(cfg, View(views, addr), now, dialOk);
            && Sound(cfg, Now(addr, p, views))
            && (r.Got? ==> r.conn in p.leased)
            && (View(views, addr).free != [] ==> r != Refused)
  {
    AcquiredKeeps(cfg, View(views, addr), now, dialOk);
    forall a ensures HostInv(cfg, View(Now(addr, Acquired(cfg, View(views, addr), now, dialOk).0, views), a)) {
      assert HostInv(cfg, View(views, a));
    }
  }

  lemma {:induction false} SoundRelease(cfg: Config, views: Views, addr: Addr, c: ConnId, now: int)
    requires ValidConfig(cfg) && Sound(cfg, views) && c in View(views, addr).leased
    ensures Sound(cfg, Now(addr, Released(cfg, View(views, addr), c, now), views))
  {
    ReleasedKeeps(cfg, View(views, addr), c, now);
    forall a ensures HostInv(cfg, View(Now(addr, Released(cfg, View(views, addr), c, now), views), a)) {
      assert HostInv(cfg, View(views, a));
    }
  }

  lemma {:induction false} SoundDrop(cfg: Config, views: Views, addr: Addr, c: ConnId)
    requires Sound(cfg, views) && c in View(views, addr).leased
    ensures Sound(cfg, Now(addr, Dropped(View(views, addr), c), views))
  {
    DroppedKeeps(cfg, View(views, addr), c);
    forall a ensures HostInv(cfg, View(Now(addr, Dropped(View(views, addr), c), views), a)) {
      assert HostInv(cfg, View(views, a));
    }
  }

  /**
   The two ways to give a leased connection back differ in what is left: a Release keeps it open, on top of the stack
   with its time; a drop closes it and leaves the stack alone.
   */
  lemma {:induction false} KeptOrClosed(cfg: Config, views: Views, addr: Addr, c: ConnId, now: int)
    requires ValidConfig(cfg) && Sound(cfg, views) && c in View(views, addr).leased
    ensures var p, q := View(views, addr), Released(cfg, View(views, addr), c, now);
            q.free == p.free + [IdleConn(c, now)] && c in q.open && q.open == p.open && q.count == p.count
    ensures var p, q := View(views, addr), Dropped(View(views, addr), c);
            q.free == p.free && c !in q.open && q.open == p.open - {c} && q.count == p.count - 1
  {
    var p := View(views, addr);
    assert HostInv(cfg, p) && HostExclusive(p, c);
    ProtocolSafety.IdleCopiesNonNegative(p.free, c);
    ReleasedKeeps(cfg, p, c, now);
  }

  /** The map of pools. A pool is created by the first call that names its address. */
  class Upstreams {
    const cfg: Config
    var pools: map<Addr, ConnPool>
    ghost var views: Views
    ghost var repr: set<ConnPool>

    /** `views` are the pools as values: one never used is empty. Each pool serves one address. */
    ghost predicate Valid()
      reads this, repr
    {
      && (forall a :: a in pools ==> pools[a] in repr && pools[a].cfg == cfg && pools[a].addr == a)
      && (forall a :: View(views, a) == if a in pools then pools[a].Abs() else EMPTY_HOST)
    }

    /** As `Valid`, but the pool of `addr` has changed and `views` does not say so yet. */
    ghost predicate ValidBut(addr: Addr)
      reads this, repr
    {
      && (forall a :: a in pools ==> pools[a] in repr && pools[a].cfg == cfg && pools[a].addr == a)
      && (forall a :: a != addr ==> View(views, a) == if a in pools then pools[a].Abs() else EMPTY_HOST)
      && addr in pools
    }

    /** What changes the pool of one address alone leaves the others on record. */
    twostate lemma OthersKept(addr: Addr)
      requires old(Valid()) && addr in pools && unchanged(this)
      requires forall cp :: cp in repr && cp != pools[addr] ==> unchanged(cp)
      ensures ValidBut(addr)
    {
    }

    ghost method Record(addr: Addr)
      requires ValidBut(addr)
      modifies this`views
      ensures Valid() && views == Now(addr, pools[addr].Abs(), old(views))
    {
      views := Now(addr, pools[addr].Abs(), views);
    }

    constructor (cfg: Config)
      ensures this.cfg == cfg && Valid() && repr == {}
      ensures views == Fresh
    {
      this.cfg := cfg;
      pools, views, repr := map[], Fresh, {};
    }

    method LoadOrStore(addr: Addr) returns (cp: ConnPool)
      requires Valid()
      modifies this`pools, this`repr
      ensures addr in pools && cp == pools[addr] && pools == old(pools)[addr := cp] && repr == old(repr) + {cp}
      ensures if addr in old(pools) then cp == old(pools)[addr] else fresh(cp)
      ensures Valid()
    {
      if addr in pools {
        cp := pools[addr];
        repr := repr + {cp};
        return;
      }
      cp := new ConnPool(cfg, addr);
      pools, repr := pools[addr := cp], repr + {cp};
    }

    method Acquire(addr: Addr, now: int, dialOk: bool) returns (r: Outcome)
      requires Valid()
      modifies this, repr
      ensures Valid() && fresh(repr - old(repr))
      ensures views == Now(addr, Acquired(cfg, View(old(views), addr), now, dialOk).0, old(views))
      ensures r == Acquired(cfg, View(old(views), addr), now, dialOk).1
    {
      var cp := LoadOrStore(addr);
      r := AcquireAt(cp, addr, now, dialOk);
    }

    method AcquireAt(cp: ConnPool, addr: Addr, now: int, dialOk: bool) returns (r: Outcome)
      requires Valid() && addr in pools && cp == pools[addr]
      modifies this`views, cp
      ensures Valid()
      ensures views == Now(addr, Acquired(cfg, View(old(views), addr), now, dialOk).0, old(views))
      ensures r == Acquired(cfg, View(old(views), addr), now, dialOk).1
    {
      r := cp.Acquire(now, dialOk);
      OthersKept(addr);
      Record(addr);
    }

    method Release(addr: Addr, c: ConnId, now: int)
      requires Valid() && c in View(views, addr).leased
      modifies this, repr
      ensures Valid() && fresh(repr - old(repr))
      ensures views == Now(addr, Released(cfg, View(old(views), addr), c, now), old(views))
    {
      var cp := LoadOrStore(addr);
      ReleaseAt(cp, addr, c, now);
    }

    method CloseAndDrop(addr: Addr, c: ConnId)
      requires Valid() && c in View(views, addr).leased
      modifies this, repr
      ensures Valid() && fresh(repr - old(repr))
      ensures views == Now(addr, Dropped(View(old(views), addr), c), old(views))
    {
      var cp := LoadOrStore(addr);
      CloseAndDropAt(cp, addr, c);
    }

    method ReleaseAt(cp: ConnPool, addr: Addr, c: ConnId, now: int)
      requires Valid() && addr in pools && cp == pools[addr]
      modifies this`views, cp
      ensures Valid() && views == Now(addr, Released(cfg, View(old(views), addr), c, now), old(views))
    {
      cp.Release(c, now);
      OthersKept(addr);
      Record(addr);
    }

    method CloseAndDropAt(cp: ConnPool, addr: Addr, c: ConnId)
      requires Valid() && addr in pools && cp == pools[addr]
      modifies this`views, cp
      ensures Valid() && views == Now(addr, Dropped(View(old(views), addr), c), old(views))
    {
      cp.CloseAndDrop(c);
      OthersKept(addr);
      Record(addr);
    }
  }
}
