/**
 The pool protocol with one goroutine refines the pool of whole calls: wherever its program counter stands,
 the calls it has completed explain the shared state up to the effects of the call in progress.
 */
module Refinement {
  import opened Limits
  import opened Protocol
  import opened Sequential

  /** The shared state and one goroutine's leases, as a pool between calls. */
  function Host(p: Pool, th: Thread): HostPool {
    HostPool(p.free, p.count, th.held, p.open, p.next)
  }

  /** Calls completed so far, and the time at which the call in progress looked at the clock. */
  datatype History = History(calls: seq<Call>, now: int)

  /** The effects of an Acquire in progress, from `p`, the pool it started in. */
  ghost predicate MidAcquire(cfg: Config, p: HostPool, now: int, h: HostPool, pc: Pc) {
    match pc
    case AcquireLock => h == p
    case AcquirePop => h == p
    case AcquireUnlockEmpty => h == p && p.free == []
    case AcquireUnlock(e, _) => p.free != [] && e == Last(p.free) && h == p.(free := Front(p.free))
    case CheckIdle(e, _) => p.free != [] && e == Last(p.free) && h == p.(free := Front(p.free))
    case StaleClose(c) =>
      p.free != [] && !Reuses(cfg, p, now) && c == Last(p.free).conn && h == p.(free := Front(p.free))
    case StaleUncount => p.free != [] && !Reuses(cfg, p, now) && h == Evicted(p).(count := p.count)
    case _ => true
  }

  ghost predicate MidDial(cfg: Config, p: HostPool, now: int, h: HostPool, pc: Pc) {
    var e := Evicted(p);
    && !Reuses(cfg, p, now)
    && match pc
       case DialCheck => h == e
       case DialCount => h == e && e.count < DialLimit(cfg)
       case _ => h == e.(count := e.count + 1) && e.count < DialLimit(cfg)
  }

  ghost predicate MidRelease(cfg: Config, p: HostPool, h: HostPool, pc: Pc)
    requires InRelease(pc)
  {
    match pc
    case ReleaseUnlock => h == p
    case OverflowClose(c) =>
      c in p.leased && |p.free| >= cfg.max && h == p.(leased := p.leased - multiset{c}, count := p.count - 1)
    case _ =>
      && pc.conn in p.leased && h == p.(leased := p.leased - multiset{pc.conn})
      && (pc.OverflowUncount? ==> |p.free| >= cfg.max)
      && (pc.ReleaseStamp? || pc.ReleasePush? ==> |p.free| < cfg.max)
  }

  ghost predicate MidDrop(p: HostPool, h: HostPool, pc: Pc) {
    match pc
    case DropLock(c) => c in p.leased && h == p.(leased := p.leased - multiset{c})
    case DropUncount(c) => c in p.leased && h == p.(leased := p.leased - multiset{c})
    case DropUnlock(c) => c in p.leased && h == p.(leased := p.leased - multiset{c}, count := p.count - 1)
    case DropClose(c) => c in p.leased && h == p.(leased := p.leased - multiset{c}, count := p.count - 1)
    case _ => h == p
  }

  ghost predicate Explains(cfg: Config, p: HostPool, now: int, r: Outcome, h: HostPool, th: Thread) {
    if InAcquire(th.pc) then MidAcquire(cfg, p, now, h, th.pc)
    else if InDial(th.pc) then MidDial(cfg, p, now, h, th.pc)
    else if InRelease(th.pc) then MidRelease(cfg, p, h, th.pc) && th.last == r
    else MidDrop(p, h, th.pc) && th.last == r
  }

  ghost predicate Explained(cfg: Config, hist: History, p: Pool, th: Thread) {
    Explains(cfg, ApplyAll(cfg, hist.calls), hist.now, LastOutcome(cfg, hist.calls), Host(p, th), th)
  }

  function Completing(hist: History, call: Call): History {
    hist.(calls := hist.calls + [call])
  }

  lemma {:induction false} Completed(cfg: Config, hist: History, call: Call)
    ensures var calls := Completing(hist, call).calls;
            && ApplyAll(cfg, calls) == Apply(cfg, ApplyAll(cfg, hist.calls), call)
            && LastOutcome(cfg, calls) ==
                 match call
                 case Acquire(now, dialOk) => Acquired(cfg, ApplyAll(cfg, hist.calls), now, dialOk).1
                 case _ => LastOutcome(cfg, hist.calls)
  {
    assert Front(Completing(hist, call).calls) == hist.calls;
  }

  /** The call, if any, that one more instruction completes, and the clock reading to remember. */
  function Progress(cfg: Config, hist: History, p: Pool, now: int, th: Thread, dialOk: bool): History {
    match th.pc
    case CheckIdle(e, _) =>
      if IsStale(cfg, e, now) then hist.(now := now) else Completing(hist, Acquire(now, dialOk))
    case DialCheck => if p.count >= DialLimit(cfg) then Completing(hist, Acquire(hist.now, dialOk)) else hist
    case Dial => if dialOk then Completing(hist, Acquire(hist.now, true)) else hist
    case DialUncount => Completing(hist, Acquire(hist.now, false))
    case OverflowClose(c) => Completing(hist, Release(c, now))
    case ReleasePush(c, at) => Completing(hist, Release(c, at))
    case DropClose(c) => Completing(hist, CloseAndDrop(c))
    case _ => hist
  }

  lemma {:induction false} AcquireStepExplained(cfg: Config, hist: History, p: Pool, now: int, th: Thread, dialOk: bool)
    requires Explained(cfg, hist, p, th) && InAcquire(th.pc)
    ensures var (p', th') := AcquireStep(cfg, p, now, 0, th);
            Explained(cfg, Progress(cfg, hist, p, now, th, dialOk), p', th')
  {
    if th.pc.CheckIdle? && !IsStale(cfg, th.pc.popped, now) {
      Completed(cfg, hist, Acquire(now, dialOk));
    }
  }

  lemma {:induction false} DialStepRefines(cfg: Config, h: HostPool, now: int, p: Pool, th: Thread, dialOk: bool)
    requires InDial(th.pc) && MidDial(cfg, h, now, Host(p, th), th.pc)
    ensures var (p', th') := DialStep(cfg, p, th, dialOk);
            if th'.pc.Outside? then
              (Host(p', th'), th'.last) == Acquired(cfg, h, now, if th.pc.DialUncount? then false else dialOk)
            else InDial(th'.pc) && MidDial(cfg, h, now, Host(p', th'), th'.pc)
  {
  }

  /** A call that has ended, as the calls so far plus this one. */
  lemma {:induction false} Concluded(cfg: Config, hist: History, call: Call, p: Pool, th: Thread)
    requires th.pc == Outside || th.pc == ReleaseUnlock
    requires Host(p, th) == Apply(cfg, ApplyAll(cfg, hist.calls), call)
    requires th.last == match call
                        case Acquire(now, dialOk) => Acquired(cfg, ApplyAll(cfg, hist.calls), now, dialOk).1
                        case _ => LastOutcome(cfg, hist.calls)
    ensures Explained(cfg, Completing(hist, call), p, th)
  {
    Completed(cfg, hist, call);
  }

  lemma {:induction false} DialStepContinues(cfg: Config, hist: History, p: Pool, th: Thread)
    requires InDial(th.pc) && MidDial(cfg, ApplyAll(cfg, hist.calls), hist.now, Host(p, th), th.pc)
    ensures Explained(cfg, hist, p, th)
  {
  }

  lemma {:induction false} DialStepExplained(cfg: Config, hist: History, p: Pool, now: int, th: Thread, dialOk: bool)
    requires InDial(th.pc) && MidDial(cfg, ApplyAll(cfg, hist.calls), hist.now, Host(p, th), th.pc)
    ensures var (p', th') := DialStep(cfg, p, th, dialOk);
            Explained(cfg, Progress(cfg, hist, p, now, th, dialOk), p', th')
  {
    var (p', th') := DialStep(cfg, p, th, dialOk);
    DialStepRefines(cfg, ApplyAll(cfg, hist.calls), hist.now, p, th, dialOk);
    if th'.pc.Outside? {
      Concluded(cfg, hist, Acquire(hist.now, if th.pc.DialUncount? then false else dialOk), p', th');
    } else {
      DialStepContinues(cfg, hist, p', th');
    }
  }

  lemma {:induction false} ReleaseStepRefines(cfg: Config, h: HostPool, now: int, p: Pool, th: Thread)
    requires InRelease(th.pc) && MidRelease(cfg, h, Host(p, th), th.pc)
    ensures var (p', th') := ReleaseStep(cfg, p, now, 0, th);
            && th'.last == th.last
            && match th.pc
               case OverflowClose(c) =>
                 c in h.leased && th'.pc == ReleaseUnlock && Host(p', th') == Released(cfg, h, c, now)
               case ReleasePush(c, at) =>
                 c in h.leased && th'.pc == ReleaseUnlock && Host(p', th') == Released(cfg, h, c, at)
               case ReleaseUnlock => th'.pc == Outside && Host(p', th') == h
               case _ => InRelease(th'.pc) && MidRelease(cfg, h, Host(p', th'), th'.pc)
  {
  }

  lemma {:induction false} ReleaseStepExplained(cfg: Config, hist: History, p: Pool, now: int, th: Thread, dialOk: bool)
    requires Explained(cfg, hist, p, th) && InRelease(th.pc)
    ensures var (p', th') := ReleaseStep(cfg, p, now, 0, th);
            Explained(cfg, Progress(cfg, hist, p, now, th, dialOk), p', th')
  {
    var (p', th') := ReleaseStep(cfg, p, now, 0, th);
    ReleaseStepRefines(cfg, ApplyAll(cfg, hist.calls), now, p, th);
    if th.pc.OverflowClose? || th.pc.ReleasePush? {
      Concluded(cfg, hist, Release(th.pc.conn, if th.pc.OverflowClose? then now else th.pc.now), p', th');
    }
  }

  lemma {:induction false} DropStepRefines(h: HostPool, p: Pool, th: Thread)
    requires !InAcquire(th.pc) && !InDial(th.pc) && !InRelease(th.pc) && MidDrop(h, Host(p, th), th.pc)
    ensures var (p', th') := DropStep(p, 0, th);
            && th'.last == th.last
            && !InAcquire(th'.pc) && !InDial(th'.pc) && !InRelease(th'.pc)
            && match th.pc
               case DropClose(c) => c in h.leased && MidDrop(Dropped(h, c), Host(p', th'), th'.pc)
               case _ => MidDrop(h, Host(p', th'), th'.pc)
  {
  }

  lemma {:induction false} DropStepExplained(cfg: Config, hist: History, p: Pool, now: int, th: Thread, dialOk: bool)
    requires Explained(cfg, hist, p, th) && !InAcquire(th.pc) && !InDial(th.pc) && !InRelease(th.pc)
    ensures var (p', th') := DropStep(p, 0, th);
            Explained(cfg, Progress(cfg, hist, p, now, th, dialOk), p', th')
  {
    var (p', th') := DropStep(p, 0, th);
    DropStepRefines(ApplyAll(cfg, hist.calls), p, th);
    if th.pc.DropClose? {
      Concluded(cfg, hist, CloseAndDrop(th.pc.conn), p', th');
    }
  }

  lemma {:induction false} AdvanceExplained(cfg: Config, hist: History, p: Pool, now: int, th: Thread, dialOk: bool)
    requires Explained(cfg, hist, p, th)
    ensures var (p', th') := ThreadStep(cfg, p, now, Advance(0, dialOk), th);
            Explained(cfg, Progress(cfg, hist, p, now, th, dialOk), p', th')
  {
    var (p', th') := ThreadStep(cfg, p, now, Advance(0, dialOk), th);
    var hist' := Progress(cfg, hist, p, now, th, dialOk);
    if InAcquire(th.pc) {
      AcquireStepExplained(cfg, hist, p, now, th, dialOk);
      assert (p', th') == AcquireStep(cfg, p, now, 0, th);
      assert Explained(cfg, hist', p', th');
    } else if InDial(th.pc) {
      DialStepExplained(cfg, hist, p, now, th, dialOk);
      assert (p', th') == DialStep(cfg, p, th, dialOk);
      assert Explained(cfg, hist', p', th');
    } else if InRelease(th.pc) {
      ReleaseStepExplained(cfg, hist, p, now, th, dialOk);
      assert (p', th') == ReleaseStep(cfg, p, now, 0, th);
      assert Explained(cfg, hist', p', th');
    } else {
      DropStepExplained(cfg, hist, p, now, th, dialOk);
      assert (p', th') == DropStep(p, 0, th);
      assert Explained(cfg, hist', p', th');
    }
  }

  /** The start of a call has no effect yet, except that a connection to be given back is no longer leased. */
  lemma {:induction false} CallExplained(cfg: Config, h: HostPool, at: int, r: Outcome, p: Pool, now: int, a: Action, th: Thread)
    requires Explains(cfg, h, at, r, Host(p, th), th) && !a.Tick? && !a.Advance?
    ensures var (p', th') := ThreadStep(cfg, p, now, a, th); Explains(cfg, h, at, r, Host(p', th'), th')
  {
    CallChangesThread(cfg, p, now, a, th);
    if a.CallAcquire? && th.pc.Outside? {
      AcquireBegins(cfg, h, at, r, p, th);
    } else if !a.CallAcquire? && th.pc.Outside? && a.c in th.held {
      GiveBackBegins(cfg, h, at, r, p, th, a.c);
    }
  }

  /** A call is begun between calls only, and changes nothing but the goroutine. */
  lemma {:induction false} CallChangesThread(cfg: Config, p: Pool, now: int, a: Action, th: Thread)
    requires !a.Tick? && !a.Advance?
    ensures ThreadStep(cfg, p, now, a, th) ==
            (p, if !th.pc.Outside? then th
                else if a.CallAcquire? then th.(pc := AcquireLock, last := NoCall)
                else if a.c !in th.held then th
                else th.(pc := if a.CallRelease? then ReleaseLock(a.c) else DropLock(a.c), held := th.held - multiset{a.c}))
  {
  }

  lemma {:induction false} AcquireBegins(cfg: Config, h: HostPool, at: int, r: Outcome, p: Pool, th: Thread)
    requires Explains(cfg, h, at, r, Host(p, th), th) && th.pc.Outside?
    ensures var th' := th.(pc := AcquireLock, last := NoCall); Explains(cfg, h, at, r, Host(p, th'), th')
  {
  }

  lemma {:induction false} GiveBackBegins(cfg: Config, h: HostPool, at: int, r: Outcome, p: Pool, th: Thread, c: ConnId)
    requires Explains(cfg, h, at, r, Host(p, th), th) && th.pc.Outside? && c in th.held
    ensures var th' := th.(pc := ReleaseLock(c), held := th.held - multiset{c}); Explains(cfg, h, at, r, Host(p, th'), th')
    ensures var th' := th.(pc := DropLock(c), held := th.held - multiset{c}); Explains(cfg, h, at, r, Host(p, th'), th')
  {
  }

  /** The calls a schedule of one goroutine has completed: each logged at the instruction that takes its last effect. */
  function Log(cfg: Config, schedule: seq<Action>): History {
    if schedule == [] then History([], 0)
    else
      var s, a, hist := Run(cfg, Init(1), Front(schedule)), Last(schedule), Log(cfg, Front(schedule));
      if |s.threads| == 1 && a.Advance? && a.t == 0 then Progress(cfg, hist, s.pool, s.clock, s.threads[0], a.dialOk)
      else hist
  }

  /** Every schedule of one goroutine is explained, at every instruction, by the whole calls it has completed. */
  lemma {:induction false} OneGoroutineRefines(cfg: Config, schedule: seq<Action>)
    ensures var s := Run(cfg, Init(1), schedule);
            |s.threads| == 1 && Explained(cfg, Log(cfg, schedule), s.pool, s.threads[0])
  {
    if schedule == [] {
    } else {
      var s, a, hist := Run(cfg, Init(1), Front(schedule)), Last(schedule), Log(cfg, Front(schedule));
      OneGoroutineRefines(cfg, Front(schedule));
      if !a.Tick? && a.t == 0 {
        if a.Advance? {
          AdvanceExplained(cfg, hist, s.pool, s.clock, s.threads[0], a.dialOk);
        } else {
          CallExplained(cfg, ApplyAll(cfg, hist.calls), hist.now, LastOutcome(cfg, hist.calls), s.pool, s.clock, a,
            s.threads[0]);
        }
      }
    }
  }

  // ---------- The log is the calls that were made ----------

  /** The calls of the schedule that goroutine 0 really began, in order. */
  function Begun(cfg: Config, schedule: seq<Action>): seq<Action> {
    if schedule == [] then []
    else
      var s, a, begun := Run(cfg, Init(1), Front(schedule)), Last(schedule), Begun(cfg, Front(schedule));
      if |s.threads| == 1 && s.threads[0].pc.Outside? && Begins(s.threads[0], a) then begun + [a] else begun
  }

  function Begins(th: Thread, a: Action): bool {
    match a
    case CallAcquire(t) => t == 0
    case CallRelease(t, c) => t == 0 && c in th.held
    case CallDrop(t, c) => t == 0 && c in th.held
    case _ => false
  }

  ghost predicate Names(call: Call, a: Action) {
    match call
    case Acquire(_, _) => a.CallAcquire?
    case Release(c, _) => a.CallRelease? && a.c == c
    case CloseAndDrop(c) => a.CallDrop? && a.c == c
  }

  /** The program counter is inside the call `a` began, before its last effect. */
  ghost predicate InCall(pc: Pc, a: Action) {
    if InAcquire(pc) || InDial(pc) then a.CallAcquire?
    else if InRelease(pc) then !pc.ReleaseUnlock? && a.CallRelease? && a.c == pc.conn
    else !pc.Outside? && a.CallDrop? && a.c == pc.conn
  }

  /** The logged calls are those begun, in order, except for one that is still in progress. */
  ghost predicate Logs(calls: seq<Call>, begun: seq<Action>, pc: Pc) {
    && (forall i :: 0 <= i < |calls| && i < |begun| ==> Names(calls[i], begun[i]))
    && if pc.Outside? || pc.ReleaseUnlock? then |begun| == |calls|
       else |begun| == |calls| + 1 && InCall(pc, Last(begun))
  }

  /** An instruction stays in its call and logs nothing, or logs the call it is in. */
  lemma {:induction false} ProgressLogs(cfg: Config, hist: History, p: Pool, now: int, th: Thread, dialOk: bool, begun: seq<Action>)
    requires Logs(hist.calls, begun, th.pc)
    ensures var th' := ThreadStep(cfg, p, now, Advance(0, dialOk), th).1;
            Logs(Progress(cfg, hist, p, now, th, dialOk).calls, begun, th'.pc)
  {
    var th' := ThreadStep(cfg, p, now, Advance(0, dialOk), th).1;
    if InAcquire(th.pc) {
      assert th' == AcquireStep(cfg, p, now, 0, th).1;
    } else if InDial(th.pc) {
      assert th' == DialStep(cfg, p, th, dialOk).1;
    } else if InRelease(th.pc) {
      assert th' == ReleaseStep(cfg, p, now, 0, th).1;
    } else {
      assert th' == DropStep(p, 0, th).1;
    }
  }

  lemma {:induction false} CallBegins(cfg: Config, p: Pool, now: int, a: Action, th: Thread, calls: seq<Call>, begun: seq<Action>)
    requires Logs(calls, begun, th.pc) && !a.Tick? && !a.Advance? && a.t == 0
    ensures var th' := ThreadStep(cfg, p, now, a, th).1;
            Logs(calls, if th.pc.Outside? && Begins(th, a) then begun + [a] else begun, th'.pc)
  {
  }

  /** The log holds exactly the calls the goroutine began, in order, but for the one it may be in. */
  lemma {:induction false} LogIsWhatWasCalled(cfg: Config, schedule: seq<Action>)
    ensures var s := Run(cfg, Init(1), schedule);
            |s.threads| == 1 && Logs(Log(cfg, schedule).calls, Begun(cfg, schedule), s.threads[0].pc)
  {
    if schedule == [] {
    } else {
      var s, a := Run(cfg, Init(1), Front(schedule)), Last(schedule);
      LogIsWhatWasCalled(cfg, Front(schedule));
      if !a.Tick? && a.t == 0 {
        if a.Advance? {
          ProgressLogs(cfg, Log(cfg, Front(schedule)), s.pool, s.clock, s.threads[0], a.dialOk,
            Begun(cfg, Front(schedule)));
        } else {
          CallBegins(cfg, s.pool, s.clock, a, s.threads[0], Log(cfg, Front(schedule)).calls,
            Begun(cfg, Front(schedule)));
        }
      }
    }
  }

  /** Between calls the protocol's state and last result are exactly those of the calls made, one for one. */
  lemma {:induction false} BetweenCallsAgrees(cfg: Config, schedule: seq<Action>)
    requires |Run(cfg, Init(1), schedule).threads| == 1 && Run(cfg, Init(1), schedule).threads[0].pc.Outside?
    ensures var s, calls, begun := Run(cfg, Init(1), schedule), Log(cfg, schedule).calls, Begun(cfg, schedule);
            && Host(s.pool, s.threads[0]) == ApplyAll(cfg, calls)
            && s.threads[0].last == LastOutcome(cfg, calls)
            && |calls| == |begun| && forall i :: 0 <= i < |calls| ==> Names(calls[i], begun[i])
  {
    OneGoroutineRefines(cfg, schedule);
    LogIsWhatWasCalled(cfg, schedule);
  }
}
