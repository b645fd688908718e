/** What the invariants mean for a reader of the pool, in every state of every schedule. */
module ProtocolTheorems {
  import opened Limits
  import opened Sums
  import opened Protocol
  import opened ProtocolSafety

  // ---------- What `count` counts ----------

  ghost function One(b: bool): int {
    if b then 1 else 0
  }

  /** Leases, including those being given back whose decrement or push is still to come. */
  ghost function Leased(th: Thread): int {
    |th.held| + One(th.pc.ReleaseLock? || th.pc.ReleaseCheck? || th.pc.OverflowUncount? || th.pc.ReleaseStamp? ||
                    th.pc.ReleasePush? || th.pc.DropLock? || th.pc.DropUncount?)
  }

  ghost function Inspecting(th: Thread): int {
    One(th.pc.AcquireUnlock? || th.pc.CheckIdle? || th.pc.StaleClose?)
  }

  ghost function StaleNotDecremented(th: Thread): int {
    One(th.pc.StaleUncount?)
  }

  ghost function Dialing(th: Thread): int {
    One(th.pc.Dial?)
  }

  ghost function DialFailedNotDecremented(th: Thread): int {
    One(th.pc.DialUncount?)
  }

  lemma {:induction false} WeightSplits(ths: seq<Thread>)
    ensures Sum(Weight, ths) ==
            Sum(Leased, ths) + Sum(Inspecting, ths) + Sum(StaleNotDecremented, ths) + Sum(Dialing, ths) +
            Sum(DialFailedNotDecremented, ths)
  {
    if ths == [] {
    } else {
      WeightSplits(ths[1..]);
      assert Weight(ths[0]) == Leased(ths[0]) + Inspecting(ths[0]) + StaleNotDecremented(ths[0]) + Dialing(ths[0]) +
                               DialFailedNotDecremented(ths[0]);
    }
  }

  /** In every interleaving `count` is exactly the connections and attempts it stands for. */
  lemma {:induction false} CountLedger(cfg: Config, threads: nat, schedule: seq<Action>)
    requires cfg.max >= 0
    ensures var s := Run(cfg, Init(threads), schedule);
            s.pool.count == |s.pool.free| + Sum(Leased, s.threads) + Sum(Inspecting, s.threads) +
                            Sum(StaleNotDecremented, s.threads) + Sum(Dialing, s.threads) +
                            Sum(DialFailedNotDecremented, s.threads)
  {
    Safety(cfg, threads, schedule);
    WeightSplits(Run(cfg, Init(threads), schedule).threads);
  }

  // ---------- How many sockets are open ----------

  ghost predicate Sockets(s: State) {
    |s.pool.open| + Sum(Pending, s.threads) == s.pool.count + Sum(Closing, s.threads)
  }

  lemma {:induction false} ThreadKeepsSockets(cfg: Config, p: Pool, now: int, a: Action, th: Thread)
    requires !a.Tick?
    requires p.next !in p.open
    requires InHand(th.pc).Some? ==> InHand(th.pc).value in p.open
    ensures var (p', th') := ThreadStep(cfg, p, now, a, th);
            |p'.open| + Pending(th') - p'.count - Closing(th') == |p.open| + Pending(th) - p.count - Closing(th)
  {
    if a.Advance? {
      AcquireKeepsSockets(cfg, p, now, a.t, th);
      DialKeepsSockets(cfg, p, th, a.dialOk);
      ReleaseKeepsSockets(cfg, p, now, a.t, th);
    }
  }

  lemma {:induction false} DialKeepsSockets(cfg: Config, p: Pool, th: Thread, dialOk: bool)
    requires p.next !in p.open
    ensures var (p', th') := DialStep(cfg, p, th, dialOk);
            |p'.open| + Pending(th') - p'.count - Closing(th') == |p.open| + Pending(th) - p.count - Closing(th)
  {
  }

  lemma {:induction false} AcquireKeepsSockets(cfg: Config, p: Pool, now: int, t: nat, th: Thread)
    requires InHand(th.pc).Some? ==> InHand(th.pc).value in p.open
    ensures var (p', th') := AcquireStep(cfg, p, now, t, th);
            |p'.open| + Pending(th') - p'.count - Closing(th') == |p.open| + Pending(th) - p.count - Closing(th)
  {
  }

  lemma {:induction false} ReleaseKeepsSockets(cfg: Config, p: Pool, now: int, t: nat, th: Thread)
    requires InHand(th.pc).Some? ==> InHand(th.pc).value in p.open
    ensures var (p', th') := ReleaseStep(cfg, p, now, t, th);
            |p'.open| + Pending(th') - p'.count - Closing(th') == |p.open| + Pending(th) - p.count - Closing(th)
  {
  }

  lemma {:induction false} SocketLedger(cfg: Config, threads: nat, schedule: seq<Action>)
    requires cfg.max >= 0
    ensures Sockets(Run(cfg, Init(threads), schedule))
  {
    if schedule == [] {
      SumAllZero(Pending, Init(threads).threads);
      SumAllZero(Closing, Init(threads).threads);
    } else {
      var s, a := Run(cfg, Init(threads), Front(schedule)), Last(schedule);
      SocketLedger(cfg, threads, Front(schedule));
      Safety(cfg, threads, Front(schedule));
      if !a.Tick? && a.t < |s.threads| {
        var th := s.threads[a.t];
        var th' := ThreadStep(cfg, s.pool, s.clock, a, th).1;
        assert ExclusiveAt(s, s.pool.next);
        OwnedIsOpen(s, a.t);
        ThreadKeepsSockets(cfg, s.pool, s.clock, a, th);
        SumUpdate(Pending, s.threads, a.t, th');
        SumUpdate(Closing, s.threads, a.t, th');
      }
    }
  }

  /** Open sockets exceed `count` by at most the goroutines that have decremented but not yet closed. */
  lemma {:induction false} OpenSocketBound(cfg: Config, threads: nat, schedule: seq<Action>)
    requires cfg.max >= 0
    ensures var s := Run(cfg, Init(threads), schedule); |s.pool.open| <= s.pool.count + Sum(Closing, s.threads)
  {
    SocketLedger(cfg, threads, schedule);
    SumNonNegative(Pending, Run(cfg, Init(threads), schedule).threads);
  }

  // ---------- Who owns what ----------

  lemma {:induction false} OwnedIsOpen(s: State, i: nat)
    requires Exclusive(s) && i < |s.threads|
    ensures InHand(s.threads[i].pc).Some? ==> InHand(s.threads[i].pc).value in s.pool.open
    ensures forall c :: c in s.threads[i].held ==> c in s.pool.open
  {
    forall c: ConnId | Copies(c)(s.threads[i]) >= 1 ensures c in s.pool.open {
      assert ExclusiveAt(s, c);
      SumAtLeast(Copies(c), s.threads, i);
      IdleCopiesNonNegative(s.pool.free, c);
    }
    forall c | c in s.threads[i].held ensures c in s.pool.open {
      assert Copies(c)(s.threads[i]) >= 1;
    }
    if InHand(s.threads[i].pc).Some? {
      assert Copies(InHand(s.threads[i].pc).value)(s.threads[i]) >= 1;
    }
  }

  lemma {:induction false} IdleCopiesIn(free: seq<IdleConn>, i: nat)
    requires i < |free|
    ensures IdleCopies(free, free[i].conn) >= 1
  {
    if i < |free| - 1 {
      IdleCopiesIn(Front(free), i);
    } else {
      IdleCopiesNonNegative(Front(free), free[i].conn);
    }
  }

  lemma {:induction false} IdleCopiesBoth(free: seq<IdleConn>, i: nat, j: nat)
    requires i < j < |free| && free[i].conn == free[j].conn
    ensures IdleCopies(free, free[i].conn) >= 2
  {
    if j < |free| - 1 {
      IdleCopiesBoth(Front(free), i, j);
    } else {
      IdleCopiesIn(Front(free), i);
    }
  }

  /** No connection is on the stack twice. */
  lemma {:induction false} IdleOnce(cfg: Config, threads: nat, schedule: seq<Action>, i: nat, j: nat)
    requires cfg.max >= 0
    requires i < j < |Run(cfg, Init(threads), schedule).pool.free|
    ensures var free := Run(cfg, Init(threads), schedule).pool.free; free[i].conn != free[j].conn
  {
    Safety(cfg, threads, schedule);
    var s := Run(cfg, Init(threads), schedule);
    if s.pool.free[i].conn == s.pool.free[j].conn {
      var c := s.pool.free[i].conn;
      assert ExclusiveAt(s, c);
      IdleCopiesBoth(s.pool.free, i, j);
      SumNonNegative(Copies(c), s.threads);
    }
  }

  /** A connection a goroutine leases or works on is open, is not idle, and nobody else has it. */
  lemma {:induction false} OwnedByOne(cfg: Config, threads: nat, schedule: seq<Action>, i: nat, c: ConnId)
    requires cfg.max >= 0
    requires i < |Run(cfg, Init(threads), schedule).threads|
    requires Copies(c)(Run(cfg, Init(threads), schedule).threads[i]) >= 1
    ensures var s := Run(cfg, Init(threads), schedule);
            && c in s.pool.open
            && Copies(c)(s.threads[i]) == 1
            && (forall k :: 0 <= k < |s.pool.free| ==> s.pool.free[k].conn != c)
            && (forall j :: 0 <= j < |s.threads| && j != i ==> Copies(c)(s.threads[j]) == 0)
  {
    Safety(cfg, threads, schedule);
    var s := Run(cfg, Init(threads), schedule);
    assert ExclusiveAt(s, c);
    IdleCopiesNonNegative(s.pool.free, c);
    SumAtLeast(Copies(c), s.threads, i);
    forall k | 0 <= k < |s.pool.free| ensures s.pool.free[k].conn != c {
      if s.pool.free[k].conn == c {
        IdleCopiesIn(s.pool.free, k);
      }
    }
    forall j | 0 <= j < |s.threads| && j != i ensures Copies(c)(s.threads[j]) == 0 {
      SumAtLeastBoth(Copies(c), s.threads, if i < j then i else j, if i < j then j else i);
    }
  }

  lemma {:induction false} StepKeepsClosed(cfg: Config, s: State, a: Action, c: ConnId)
    requires c < s.pool.next && c !in s.pool.open
    ensures c < Step(cfg, s, a).pool.next && c !in Step(cfg, s, a).pool.open
  {
  }

  /** A connection that was closed stays closed, and is never idle or handed out again. */
  lemma {:induction false} ClosedForever(cfg: Config, threads: nat, before: seq<Action>, after: seq<Action>, c: ConnId)
    requires cfg.max >= 0
    requires c < Run(cfg, Init(threads), before).pool.next && c !in Run(cfg, Init(threads), before).pool.open
    ensures var s := Run(cfg, Init(threads), before + after);
            && c < s.pool.next && c !in s.pool.open
            && (forall k :: 0 <= k < |s.pool.free| ==> s.pool.free[k].conn != c)
            && (forall i :: 0 <= i < |s.threads| ==> Copies(c)(s.threads[i]) == 0)
  {
    if after == [] {
      assert before + after == before;
    } else {
      ClosedForever(cfg, threads, before, Front(after), c);
      assert Front(before + after) == before + Front(after) && Last(before + after) == Last(after);
      StepKeepsClosed(cfg, Run(cfg, Init(threads), before + Front(after)), Last(after), c);
    }
    ClosedIsUnowned(cfg, threads, before + after, c);
  }

  lemma {:induction false} ClosedIsUnowned(cfg: Config, threads: nat, schedule: seq<Action>, c: ConnId)
    requires cfg.max >= 0
    requires c !in Run(cfg, Init(threads), schedule).pool.open
    ensures var s := Run(cfg, Init(threads), schedule);
            && (forall k :: 0 <= k < |s.pool.free| ==> s.pool.free[k].conn != c)
            && (forall i :: 0 <= i < |s.threads| ==> Copies(c)(s.threads[i]) == 0)
  {
    Safety(cfg, threads, schedule);
    var s := Run(cfg, Init(threads), schedule);
    assert ExclusiveAt(s, c);
    IdleCopiesNonNegative(s.pool.free, c);
    SumNonNegative(Copies(c), s.threads);
    forall k | 0 <= k < |s.pool.free| ensures s.pool.free[k].conn != c {
      if s.pool.free[k].conn == c {
        IdleCopiesIn(s.pool.free, k);
      }
    }
    forall i | 0 <= i < |s.threads| ensures Copies(c)(s.threads[i]) == 0 {
      SumAtLeast(Copies(c), s.threads, i);
    }
  }

  // ---------- Looking only at the top of the stack ----------

  ghost predicate PopsFrom(s: State, t: nat, from: seq<IdleConn>) {
    t < |s.threads| && s.threads[t].pc.AcquirePop? && s.pool.free == from
  }

  ghost predicate Carries(s: State, t: nat, from: seq<IdleConn>) {
    t < |s.threads| && match s.threads[t].pc
                       case AcquireUnlock(_, f) => f == from
                       case CheckIdle(_, f) => f == from
                       case _ => false
  }

  /** After `k` actions goroutine `t` was about to pop from `from`, and it has carried that stack ever since. */
  ghost predicate PoppedAt(cfg: Config, threads: nat, schedule: seq<Action>, t: nat, from: seq<IdleConn>, k: nat) {
    && k < |schedule|
    && PopsFrom(Run(cfg, Init(threads), schedule[..k]), t, from)
    && forall j :: k < j <= |schedule| ==> Carries(Run(cfg, Init(threads), schedule[..j]), t, from)
  }

  lemma {:induction false} StillCarries(cfg: Config, threads: nat, schedule: seq<Action>, t: nat, from: seq<IdleConn>, k: nat)
    requires schedule != [] && PoppedAt(cfg, threads, Front(schedule), t, from, k)
    requires Carries(Run(cfg, Init(threads), schedule), t, from)
    ensures PoppedAt(cfg, threads, schedule, t, from, k)
  {
    assert Front(schedule)[..k] == schedule[..k];
    forall j | k < j <= |schedule| ensures Carries(Run(cfg, Init(threads), schedule[..j]), t, from) {
      if j < |schedule| {
        assert Front(schedule)[..j] == schedule[..j];
      } else {
        assert schedule[..j] == schedule;
      }
    }
  }

  lemma {:induction false} JustPopped(cfg: Config, threads: nat, schedule: seq<Action>, t: nat, from: seq<IdleConn>)
    requires schedule != [] && PopsFrom(Run(cfg, Init(threads), Front(schedule)), t, from)
    requires Carries(Run(cfg, Init(threads), schedule), t, from)
    ensures PoppedAt(cfg, threads, schedule, t, from, |schedule| - 1)
  {
    assert schedule[..|schedule| - 1] == Front(schedule) && schedule[..|schedule|] == schedule;
  }

  lemma {:induction false} CarriesOrPops(cfg: Config, s: State, a: Action, t: nat, from: seq<IdleConn>)
    requires Carries(Step(cfg, s, a), t, from) && !Carries(s, t, from)
    ensures PopsFrom(s, t, from)
  {
  }

  /** The stack an Acquire remembers is the pool's at the instant this very call popped. */
  lemma {:induction false} RemembersTheStack(cfg: Config, threads: nat, schedule: seq<Action>, t: nat, from: seq<IdleConn>)
    requires Carries(Run(cfg, Init(threads), schedule), t, from)
    ensures exists k: nat :: PoppedAt(cfg, threads, schedule, t, from, k)
  {
    var s := Run(cfg, Init(threads), Front(schedule));
    if Carries(s, t, from) {
      RemembersTheStack(cfg, threads, Front(schedule), t, from);
      var k: nat :| PoppedAt(cfg, threads, Front(schedule), t, from, k);
      StillCarries(cfg, threads, schedule, t, from, k);
    } else {
      CarriesOrPops(cfg, s, Last(schedule), t, from);
      JustPopped(cfg, threads, schedule, t, from);
    }
  }

  /**
   Testing the top alone is enough: Acquire reuses an idle connection exactly when some connection of the stack it
   popped from has been idle for no longer than the timeout, and then it is one returned last; otherwise it closes it.
   */
  lemma {:induction false} TopDecides(cfg: Config, threads: nat, schedule: seq<Action>, t: nat, dialOk: bool)
    requires cfg.max >= 0
    requires t < |Run(cfg, Init(threads), schedule).threads|
    requires Run(cfg, Init(threads), schedule).threads[t].pc.CheckIdle?
    ensures var s := Run(cfg, Init(threads), schedule);
            var th := s.threads[t];
            var th' := Step(cfg, s, Advance(t, dialOk)).threads[t];
            && th.pc.popped in th.pc.from
            && (forall e :: e in th.pc.from ==> e.returnedAt <= th.pc.popped.returnedAt)
            && if exists e :: e in th.pc.from && s.clock - e.returnedAt <= cfg.idleTimeout then
                 th'.pc.Outside? && th'.last == Got(th.pc.popped.conn) && th'.held == th.held + multiset{th.pc.popped.conn}
               else th'.pc == StaleClose(th.pc.popped.conn) && th'.held == th.held
  {
    Safety(cfg, threads, schedule);
    var s := Run(cfg, Init(threads), schedule);
    assert ThreadOrdered(cfg, s.pool.free, s.clock, s.threads[t].pc);
  }

  // ---------- Progress ----------

  /** An upper bound on the instructions left in the current call. */
  ghost function Remaining(th: Thread): int {
    match th.pc
    case Outside => 0
    case AcquireLock => 10
    case AcquirePop => 9
    case AcquireUnlock(_, _) => 8
    case AcquireUnlockEmpty => 5
    case CheckIdle(_, _) => 7
    case StaleClose(_) => 6
    case StaleUncount => 5
    case DialCheck => 4
    case DialCount => 3
    case Dial => 2
    case DialUncount => 1
    case ReleaseLock(_) => 5
    case ReleaseCheck(_) => 4
    case OverflowUncount(_) => 3
    case OverflowClose(_) => 2
    case ReleaseStamp(_) => 3
    case ReleasePush(_, _) => 2
    case ReleaseUnlock => 1
    case DropLock(_) => 4
    case DropUncount(_) => 3
    case DropUnlock(_) => 2
    case DropClose(_) => 1
  }

  ghost predicate Waits(p: Pool, pc: Pc) {
    p.holder.Some? && (pc.AcquireLock? || pc.ReleaseLock? || pc.DropLock?)
  }

  lemma {:induction false} AcquireProgresses(cfg: Config, p: Pool, now: int, t: nat, th: Thread)
    requires InAcquire(th.pc)
    ensures var (p', th') := AcquireStep(cfg, p, now, t, th);
            if Waits(p, th.pc) then p' == p && th' == th else Remaining(th') < Remaining(th)
  {
  }

  lemma {:induction false} DialProgresses(cfg: Config, p: Pool, th: Thread, dialOk: bool)
    requires InDial(th.pc)
    ensures Remaining(DialStep(cfg, p, th, dialOk).1) < Remaining(th)
  {
  }

  lemma {:induction false} ReleaseProgresses(cfg: Config, p: Pool, now: int, t: nat, th: Thread)
    requires InRelease(th.pc)
    ensures var (p', th') := ReleaseStep(cfg, p, now, t, th);
            if Waits(p, th.pc) then p' == p && th' == th else Remaining(th') < Remaining(th)
  {
  }

  /** An instruction waits for a taken `mu` and changes nothing, or brings its call nearer to its end. */
  lemma {:induction false} ThreadProgresses(cfg: Config, p: Pool, now: int, t: nat, dialOk: bool, th: Thread)
    ensures var (p', th') := ThreadStep(cfg, p, now, Advance(t, dialOk), th);
            if th.pc.Outside? || Waits(p, th.pc) then p' == p && th' == th else Remaining(th') < Remaining(th)
  {
    if InAcquire(th.pc) {
      AcquireProgresses(cfg, p, now, t, th);
    } else if InDial(th.pc) {
      DialProgresses(cfg, p, th, dialOk);
    } else if InRelease(th.pc) {
      ReleaseProgresses(cfg, p, now, t, th);
    }
  }

  /** How many actions of a schedule changed the state. */
  ghost function Effective(cfg: Config, s: State, schedule: seq<Action>): nat {
    if schedule == [] then 0
    else Effective(cfg, s, Front(schedule)) + (if Run(cfg, s, schedule) == Run(cfg, s, Front(schedule)) then 0 else 1)
  }

  /** Calls that have started take a bounded number of instructions in all, however they interleave. */
  lemma {:induction false} CallsEnd(cfg: Config, s: State, schedule: seq<Action>)
    requires forall a :: a in schedule ==> a.Advance?
    ensures Effective(cfg, s, schedule) + Sum(Remaining, Run(cfg, s, schedule).threads) <= Sum(Remaining, s.threads)
  {
    if schedule == [] {
    } else {
      CallsEnd(cfg, s, Front(schedule));
      var s1, a := Run(cfg, s, Front(schedule)), Last(schedule);
      if a.t < |s1.threads| {
        ThreadProgresses(cfg, s1.pool, s1.clock, a.t, a.dialOk, s1.threads[a.t]);
        SumUpdate(Remaining, s1.threads, a.t, Run(cfg, s, schedule).threads[a.t]);
        if Run(cfg, s, schedule).threads[a.t] == s1.threads[a.t] {
          assert Run(cfg, s, schedule).threads == s1.threads;
        }
      }
    }
  }

  lemma {:induction false} CanAdvance(cfg: Config, s: State, t: nat, dialOk: bool)
    requires t < |s.threads| && !s.threads[t].pc.Outside? && !Waits(s.pool, s.threads[t].pc)
    ensures Step(cfg, s, Advance(t, dialOk)) != s
  {
    ThreadProgresses(cfg, s.pool, s.clock, t, dialOk, s.threads[t]);
    var th' := Step(cfg, s, Advance(t, dialOk)).threads[t];
    assert th' == ThreadStep(cfg, s.pool, s.clock, Advance(t, dialOk), s.threads[t]).1;
  }

  /** While any call is unfinished, some goroutine can execute an instruction: the protocol never deadlocks. */
  lemma {:induction false} NoDeadlock(cfg: Config, threads: nat, schedule: seq<Action>, i: nat, dialOk: bool)
    requires cfg.max >= 0
    requires i < |Run(cfg, Init(threads), schedule).threads|
    requires !Run(cfg, Init(threads), schedule).threads[i].pc.Outside?
    ensures var s := Run(cfg, Init(threads), schedule);
            exists t: nat :: t < |s.threads| && Step(cfg, s, Advance(t, dialOk)) != s
  {
    Safety(cfg, threads, schedule);
    var s := Run(cfg, Init(threads), schedule);
    var t: nat := if s.pool.holder.Some? then s.pool.holder.value else i;
    assert Critical(s.threads[t].pc) || s.pool.holder.None?;
    CanAdvance(cfg, s, t, dialOk);
  }

  lemma {:induction false} SomebodyCanGo(s: State) returns (t: nat)
    requires Locked(s) && exists i :: 0 <= i < |s.threads| && !s.threads[i].pc.Outside?
    ensures t < |s.threads| && !s.threads[t].pc.Outside? && !Waits(s.pool, s.threads[t].pc)
  {
    var i :| 0 <= i < |s.threads| && !s.threads[i].pc.Outside?;
    t := if s.pool.holder.Some? then s.pool.holder.value else i;
    assert Critical(s.threads[t].pc) || s.pool.holder.None?;
  }

  lemma {:induction false} SomebodyGoes(cfg: Config, s: State, t: nat, dialOk: bool)
    requires t < |s.threads| && !s.threads[t].pc.Outside? && !Waits(s.pool, s.threads[t].pc)
    ensures Sum(Remaining, Step(cfg, s, Advance(t, dialOk)).threads) < Sum(Remaining, s.threads)
  {
    var th' := ThreadStep(cfg, s.pool, s.clock, Advance(t, dialOk), s.threads[t]).1;
    ThreadProgresses(cfg, s.pool, s.clock, t, dialOk, s.threads[t]);
    SumUpdate(Remaining, s.threads, t, th');
  }

  lemma {:induction false} RemainingNonNegative(s: State)
    ensures Sum(Remaining, s.threads) >= 0
  {
    SumNonNegative(Remaining, s.threads);
  }

  /** A schedule that ends every call that has begun, whatever the dials of each goroutine do. */
  lemma {:induction false} CallsCanEnd(cfg: Config, s: State, dials: nat -> bool) returns (rest: seq<Action>)
    requires Locked(s)
    ensures |rest| <= Sum(Remaining, s.threads)
    ensures forall a :: a in rest ==> a.Advance? && a.dialOk == dials(a.t)
    ensures forall th :: th in Run(cfg, s, rest).threads ==> th.pc.Outside?
    decreases Sum(Remaining, s.threads)
  {
    RemainingNonNegative(s);
    if forall i :: 0 <= i < |s.threads| ==> s.threads[i].pc.Outside? {
      rest := [];
    } else {
      var t := SomebodyCanGo(s);
      var a := Advance(t, dials(t));
      SomebodyGoes(cfg, s, t, dials(t));
      StepLocked(cfg, s, a);
      RemainingNonNegative(Step(cfg, s, a));
      var more := CallsCanEnd(cfg, Step(cfg, s, a), dials);
      rest := [a] + more;
      assert Front([a]) == [] && Run(cfg, s, [a]) == Step(cfg, s, a);
      RunConcat(cfg, s, [a], more);
    }
  }

  /** From every reachable state, within as many instructions as are left in the calls. */
  lemma {:induction false} EveryCallCanEnd(cfg: Config, threads: nat, schedule: seq<Action>, dials: nat -> bool)
    requires cfg.max >= 0
    ensures exists rest: seq<Action> ::
              && |rest| <= Sum(Remaining, Run(cfg, Init(threads), schedule).threads)
              && (forall a :: a in rest ==> a.Advance? && a.dialOk == dials(a.t))
              && forall th :: th in Run(cfg, Init(threads), schedule + rest).threads ==> th.pc.Outside?
  {
    Safety(cfg, threads, schedule);
    var rest := CallsCanEnd(cfg, Run(cfg, Init(threads), schedule), dials);
    RunConcat(cfg, Init(threads), schedule, rest);
  }
}
