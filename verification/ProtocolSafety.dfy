/**
 What every interleaving of the pool protocol keeps: who owns which connection, what `count` counts,
 how many sockets are open, who may touch the stack, and in which order the stack is sorted.
 */
module ProtocolSafety {
  import opened Limits
  import opened Sums
  import opened Protocol

  // ---------- Who owns a connection, and what it weighs in `count` ----------

  /** The connection a goroutine inside a pool call is responsible for and has not closed. */
  ghost function InHand(pc: Pc): Option<ConnId> {
    match pc
    case AcquireUnlock(e, _) => Some(e.conn)
    case CheckIdle(e, _) => Some(e.conn)
    case StaleClose(c) => Some(c)
    case ReleaseLock(c) => Some(c)
    case ReleaseCheck(c) => Some(c)
    case OverflowUncount(c) => Some(c)
    case OverflowClose(c) => Some(c)
    case ReleaseStamp(c) => Some(c)
    case ReleasePush(c, _) => Some(c)
    case DropLock(c) => Some(c)
    case DropUncount(c) => Some(c)
    case DropUnlock(c) => Some(c)
    case DropClose(c) => Some(c)
    case _ => None
  }

  ghost function Holds(pc: Pc, c: ConnId): int {
    if InHand(pc) == Some(c) then 1 else 0
  }

  /** How often one goroutine owns `c`: as a lease, or inside a pool call. */
  ghost function Copies(c: ConnId): Thread -> int {
    (th: Thread) => th.held[c] + Holds(th.pc, c)
  }

  /** Decremented `count`, has not closed the socket yet. */
  ghost predicate IsClosing(pc: Pc) {
    pc.OverflowClose? || pc.DropUnlock? || pc.DropClose?
  }

  /** Counted in `count` without a socket: closed a stale one, is dialing, or failed to dial. */
  ghost predicate IsPending(pc: Pc) {
    pc.StaleUncount? || pc.Dial? || pc.DialUncount?
  }

  ghost function Closing(th: Thread): int {
    if IsClosing(th.pc) then 1 else 0
  }

  ghost function Pending(th: Thread): int {
    if IsPending(th.pc) then 1 else 0
  }

  /**
   The share of `count` a goroutine accounts for: one for each leased connection, one while it inspects a
   popped connection, has closed a stale one but not decremented, dials, or has failed to dial but not
   decremented, and one for a connection it is giving back and has not decremented.
   */
  ghost function Weight(th: Thread): int {
    |th.held| + (if IsPending(th.pc) then 1 else if InHand(th.pc).Some? && !IsClosing(th.pc) then 1 else 0)
  }

  /** How often `c` is on the stack. */
  ghost function IdleCopies(free: seq<IdleConn>, c: ConnId): int {
    if free == [] then 0 else IdleCopies(Front(free), c) + (if Last(free).conn == c then 1 else 0)
  }

  ghost function IsOpen(p: Pool, c: ConnId): int {
    if c in p.open then 1 else 0
  }

  // ---------- The invariant ----------

  /** Every open socket has exactly one owner: the stack or one goroutine, once. A closed one has none. */
  ghost predicate Exclusive(s: State) {
    forall c: ConnId :: ExclusiveAt(s, c)
  }

  ghost predicate ExclusiveAt(s: State, c: ConnId) {
    && IdleCopies(s.pool.free, c) + Sum(Copies(c), s.threads) == IsOpen(s.pool, c)
    && (c in s.pool.open ==> c < s.pool.next)
  }

  ghost predicate Ledger(s: State) {
    s.pool.count == |s.pool.free| + Sum(Weight, s.threads)
  }

  ghost predicate Critical(pc: Pc) {
    pc.AcquirePop? || pc.AcquireUnlock? || pc.AcquireUnlockEmpty? ||
    pc.ReleaseCheck? || pc.OverflowUncount? || pc.OverflowClose? || pc.ReleaseStamp? || pc.ReleasePush? ||
    pc.ReleaseUnlock? || pc.DropUncount? || pc.DropUnlock?
  }

  /** The goroutine in a critical section is the one that holds `mu`. */
  ghost predicate Locked(s: State) {
    && (s.pool.holder.Some? ==> s.pool.holder.value < |s.threads|)
    && forall i :: 0 <= i < |s.threads| ==> (Critical(s.threads[i].pc) <==> s.pool.holder == Some(i))
  }

  ghost predicate Sorted(free: seq<IdleConn>) {
    forall i, j :: 0 <= i < j < |free| ==> free[i].returnedAt <= free[j].returnedAt
  }

  ghost predicate ReturnedBy(free: seq<IdleConn>, now: int) {
    forall i :: 0 <= i < |free| ==> free[i].returnedAt <= now
  }

  ghost predicate PoppedTop(pc: Pc) {
    match pc
    case AcquireUnlock(e, from) => from != [] && e == Last(from) && Sorted(from)
    case CheckIdle(e, from) => from != [] && e == Last(from) && Sorted(from)
    case _ => true
  }

  /** The stack is sorted by time of return and never over the maximum. */
  ghost predicate StackOrdered(cfg: Config, free: seq<IdleConn>, clock: int) {
    Sorted(free) && ReturnedBy(free, clock) && |free| <= cfg.max
  }

  /** A push that was checked still has room, and its time stamp is the latest. */
  ghost predicate ThreadOrdered(cfg: Config, free: seq<IdleConn>, clock: int, pc: Pc) {
    && PoppedTop(pc)
    && (pc.ReleaseStamp? || pc.ReleasePush? ==> |free| < cfg.max)
    && (pc.ReleasePush? ==> ReturnedBy(free, pc.now) && pc.now <= clock)
  }

  ghost predicate Ordered(cfg: Config, s: State) {
    && StackOrdered(cfg, s.pool.free, s.clock)
    && forall i :: 0 <= i < |s.threads| ==> ThreadOrdered(cfg, s.pool.free, s.clock, s.threads[i].pc)
  }

  ghost predicate Inv(cfg: Config, s: State) {
    Exclusive(s) && Ledger(s) && Locked(s) && Ordered(cfg, s)
  }

  // ---------- One step keeps it ----------

  lemma {:induction false} IdleCopiesPush(free: seq<IdleConn>, e: IdleConn, c: ConnId)
    ensures IdleCopies(free + [e], c) == IdleCopies(free, c) + (if e.conn == c then 1 else 0)
  {
    assert Front(free + [e]) == free;
  }

  /** What a goroutine has in hand is open, and open connections were dialed. */
  ghost predicate Entitled(p: Pool, th: Thread, c: ConnId) {
    && (c in p.open ==> c < p.next)
    && (InHand(th.pc) == Some(c) ==> c in p.open)
  }

  /** A step moves `c` between the stack and the goroutine, or opens or closes it: nothing else. */
  ghost predicate Moves(p: Pool, th: Thread, p': Pool, th': Thread, c: ConnId) {
    && IdleCopies(p'.free, c) + Copies(c)(th') - IsOpen(p', c) ==
       IdleCopies(p.free, c) + Copies(c)(th) - IsOpen(p, c)
    && (c in p'.open ==> c < p'.next)
  }

  lemma {:induction false} AcquireMoves(cfg: Config, p: Pool, now: int, t: nat, th: Thread, c: ConnId)
    requires Entitled(p, th, c)
    ensures var (p', th') := AcquireStep(cfg, p, now, t, th); Moves(p, th, p', th', c)
  {
    var (p', th') := AcquireStep(cfg, p, now, t, th);
    match th.pc
    case AcquirePop => assert Moves(p, th, p', th', c);
    case CheckIdle(_, _) => assert Moves(p, th, p', th', c);
    case StaleClose(_) => assert Moves(p, th, p', th', c);
    case _ => assert Moves(p, th, p', th', c);
  }

  lemma {:induction false} DialMoves(cfg: Config, p: Pool, th: Thread, dialOk: bool, c: ConnId)
    requires Entitled(p, th, c)
    ensures var (p', th') := DialStep(cfg, p, th, dialOk); Moves(p, th, p', th', c)
  {
  }

  lemma {:induction false} ReleaseMoves(cfg: Config, p: Pool, now: int, t: nat, th: Thread, c: ConnId)
    requires Entitled(p, th, c)
    ensures var (p', th') := ReleaseStep(cfg, p, now, t, th); Moves(p, th, p', th', c)
  {
    if th.pc.ReleasePush? {
      IdleCopiesPush(p.free, IdleConn(th.pc.conn, th.pc.now), c);
    }
  }

  lemma {:induction false} DropMoves(p: Pool, t: nat, th: Thread, c: ConnId)
    requires Entitled(p, th, c)
    ensures var (p', th') := DropStep(p, t, th); Moves(p, th, p', th', c)
  {
    var (p', th') := DropStep(p, t, th);
    match th.pc
    case DropClose(_) => assert Moves(p, th, p', th', c);
    case _ => assert Moves(p, th, p', th', c);
  }

  lemma {:induction false} ThreadMoves(cfg: Config, p: Pool, now: int, a: Action, th: Thread, c: ConnId)
    requires !a.Tick? && Entitled(p, th, c)
    ensures var (p', th') := ThreadStep(cfg, p, now, a, th); Moves(p, th, p', th', c)
  {
    if a.Advance? {
      AcquireMoves(cfg, p, now, a.t, th, c);
      DialMoves(cfg, p, th, a.dialOk, c);
      ReleaseMoves(cfg, p, now, a.t, th, c);
      DropMoves(p, a.t, th, c);
    }
  }

  lemma {:induction false} ThreadKeepsWeight(cfg: Config, p: Pool, now: int, a: Action, th: Thread)
    requires !a.Tick?
    ensures var (p', th') := ThreadStep(cfg, p, now, a, th);
            p'.count - |p'.free| - Weight(th') == p.count - |p.free| - Weight(th)
  {
    if a.Advance? {
      AcquireKeepsWeight(cfg, p, now, a.t, th);
      DialKeepsWeight(cfg, p, th, a.dialOk);
      ReleaseKeepsWeight(cfg, p, now, a.t, th);
      DropKeepsWeight(p, a.t, th);
    } else {
      CallKeepsWeight(cfg, p, now, a, th);
    }
  }

  lemma {:induction false} CallKeepsWeight(cfg: Config, p: Pool, now: int, a: Action, th: Thread)
    requires !a.Tick? && !a.Advance?
    ensures var (p', th') := ThreadStep(cfg, p, now, a, th);
            p'.count - |p'.free| - Weight(th') == p.count - |p.free| - Weight(th)
  {
  }

  lemma {:induction false} DropKeepsWeight(p: Pool, t: nat, th: Thread)
    ensures var (p', th') := DropStep(p, t, th);
            p'.count - |p'.free| - Weight(th') == p.count - |p.free| - Weight(th)
  {
  }

  lemma {:induction false} AcquireKeepsWeight(cfg: Config, p: Pool, now: int, t: nat, th: Thread)
    ensures var (p', th') := AcquireStep(cfg, p, now, t, th);
            p'.count - |p'.free| - Weight(th') == p.count - |p.free| - Weight(th)
  {
  }

  lemma {:induction false} DialKeepsWeight(cfg: Config, p: Pool, th: Thread, dialOk: bool)
    ensures var (p', th') := DialStep(cfg, p, th, dialOk);
            p'.count - |p'.free| - Weight(th') == p.count - |p.free| - Weight(th)
  {
  }

  lemma {:induction false} ReleaseKeepsWeight(cfg: Config, p: Pool, now: int, t: nat, th: Thread)
    ensures var (p', th') := ReleaseStep(cfg, p, now, t, th);
            p'.count - |p'.free| - Weight(th') == p.count - |p.free| - Weight(th)
  {
  }

  lemma {:induction false} StepExclusive(cfg: Config, s: State, a: Action)
    requires Exclusive(s)
    ensures Exclusive(Step(cfg, s, a))
  {
    forall c: ConnId ensures ExclusiveAt(Step(cfg, s, a), c) {
      assert ExclusiveAt(s, c);
      if !a.Tick? && a.t < |s.threads| {
        var th := s.threads[a.t];
        SumAtLeast(Copies(c), s.threads, a.t);
        SumUpdate(Copies(c), s.threads, a.t, ThreadStep(cfg, s.pool, s.clock, a, th).1);
        IdleCopiesNonNegative(s.pool.free, c);
        ThreadMoves(cfg, s.pool, s.clock, a, th, c);
      }
    }
  }

  lemma {:induction false} IdleCopiesNonNegative(free: seq<IdleConn>, c: ConnId)
    ensures IdleCopies(free, c) >= 0
  {
    if free == [] {
    } else {
      IdleCopiesNonNegative(Front(free), c);
    }
  }

  lemma {:induction false} StepLedger(cfg: Config, s: State, a: Action)
    requires Ledger(s)
    ensures Ledger(Step(cfg, s, a))
  {
    if !a.Tick? && a.t < |s.threads| {
      ThreadKeepsWeight(cfg, s.pool, s.clock, a, s.threads[a.t]);
      SumUpdate(Weight, s.threads, a.t, ThreadStep(cfg, s.pool, s.clock, a, s.threads[a.t]).1);
    }
  }

  lemma {:induction false} StepLocked(cfg: Config, s: State, a: Action)
    requires Locked(s)
    ensures Locked(Step(cfg, s, a))
  {
    if !a.Tick? && a.t < |s.threads| {
      ThreadKeepsLock(cfg, s.pool, s.clock, a, s.threads[a.t]);
    }
  }

  /** A goroutine takes `mu` only when it is free, and gives up only its own hold on it. */
  lemma {:induction false} ThreadKeepsLock(cfg: Config, p: Pool, now: int, a: Action, th: Thread)
    requires !a.Tick?
    requires Critical(th.pc) <==> p.holder == Some(a.t)
    ensures var (p', th') := ThreadStep(cfg, p, now, a, th);
            && (Critical(th'.pc) <==> p'.holder == Some(a.t))
            && (p'.holder != p.holder ==> p.holder.None? || p.holder == Some(a.t))
            && (p'.holder == p.holder || p'.holder.None? || p'.holder == Some(a.t))
  {
  }

  /** Only the holder of `mu` changes the stack. */
  lemma {:induction false} StackIsGuarded(cfg: Config, s: State, a: Action)
    requires Locked(s)
    requires Step(cfg, s, a).pool.free != s.pool.free
    ensures !a.Tick? && s.pool.holder == Some(a.t)
  {
  }

  lemma {:induction false} ThreadKeepsOrder(cfg: Config, p: Pool, now: int, a: Action, th: Thread)
    requires !a.Tick?
    requires StackOrdered(cfg, p.free, now) && ThreadOrdered(cfg, p.free, now, th.pc)
    ensures var (p', th') := ThreadStep(cfg, p, now, a, th);
            StackOrdered(cfg, p'.free, now) && ThreadOrdered(cfg, p'.free, now, th'.pc)
  {
    if a.Advance? && th.pc.AcquirePop? {
      assert ThreadStep(cfg, p, now, a, th) == AcquireStep(cfg, p, now, a.t, th);
    } else if a.Advance? && InRelease(th.pc) {
      assert ThreadStep(cfg, p, now, a, th) == ReleaseStep(cfg, p, now, a.t, th);
    } else {
      assert ThreadStep(cfg, p, now, a, th).0.free == p.free;
    }
  }

  lemma {:induction false} StepOrdered(cfg: Config, s: State, a: Action)
    requires Locked(s) && Ordered(cfg, s)
    ensures Ordered(cfg, Step(cfg, s, a))
  {
    var s' := Step(cfg, s, a);
    if !a.Tick? && a.t < |s.threads| {
      ThreadKeepsOrder(cfg, s.pool, s.clock, a, s.threads[a.t]);
      if s'.pool.free != s.pool.free {
        StackIsGuarded(cfg, s, a);
      }
      forall i | 0 <= i < |s.threads| && i != a.t
        ensures ThreadOrdered(cfg, s'.pool.free, s'.clock, s'.threads[i].pc)
      {
        assert ThreadOrdered(cfg, s.pool.free, s.clock, s.threads[i].pc);
      }
    }
  }

  lemma {:induction false} StepInv(cfg: Config, s: State, a: Action)
    requires Inv(cfg, s)
    ensures Inv(cfg, Step(cfg, s, a))
  {
    StepExclusive(cfg, s, a);
    StepLedger(cfg, s, a);
    StepLocked(cfg, s, a);
    StepOrdered(cfg, s, a);
  }

  lemma {:induction false} InitInv(cfg: Config, threads: nat)
    requires cfg.max >= 0
    ensures Inv(cfg, Init(threads))
  {
    forall c: ConnId ensures ExclusiveAt(Init(threads), c) {
      SumAllZero(Copies(c), Init(threads).threads);
    }
    SumAllZero(Weight, Init(threads).threads);
  }

  /** The invariant holds after every schedule of any number of goroutines. */
  lemma {:induction false} Safety(cfg: Config, threads: nat, schedule: seq<Action>)
    requires cfg.max >= 0
    ensures Inv(cfg, Run(cfg, Init(threads), schedule))
  {
    if schedule == [] {
      InitInv(cfg, threads);
    } else {
      Safety(cfg, threads, Front(schedule));
      StepInv(cfg, Run(cfg, Init(threads), Front(schedule)), Last(schedule));
    }
  }
}
