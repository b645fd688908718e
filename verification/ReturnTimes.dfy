/**
 The times on the stack are the times of the returns: every `returnedAt` is what the clock showed when the Release
 that put the connection there looked at it, and the connection has not left the stack since.
 */
module ReturnTimes {
  import opened Limits
  import opened Protocol
  import opened Sequential
  import opened Refinement

  /** Action `j` is the instruction of goroutine `t` that stamps `e.conn`, and the clock shows `e.returnedAt`. */
  ghost predicate StampedAt(cfg: Config, threads: nat, schedule: seq<Action>, j: nat, t: nat, e: IdleConn) {
    && j < |schedule|
    && schedule[j].Advance? && schedule[j].t == t
    && var s := Run(cfg, Init(threads), schedule[..j]);
       t < |s.threads| && s.threads[t].pc == ReleaseStamp(e.conn) && s.clock == e.returnedAt
  }

  /** Goroutine `t` is about to push `e`, or `e` is on the stack. */
  ghost predicate UnderWay(s: State, t: nat, e: IdleConn) {
    (t < |s.threads| && s.threads[t].pc == ReleasePush(e.conn, e.returnedAt)) || e in s.pool.free
  }

  /** Stamped by action `j`, then pushed by the same call, and on the stack ever since. */
  ghost predicate ReturnedAt(cfg: Config, threads: nat, schedule: seq<Action>, j: nat, t: nat, e: IdleConn) {
    && StampedAt(cfg, threads, schedule, j, t, e)
    && forall k :: j < k <= |schedule| ==> UnderWay(Run(cfg, Init(threads), schedule[..k]), t, e)
  }

  lemma {:induction false} StillUnderWay(cfg: Config, threads: nat, schedule: seq<Action>, j: nat, t: nat, e: IdleConn)
    requires schedule != [] && ReturnedAt(cfg, threads, Front(schedule), j, t, e)
    requires UnderWay(Run(cfg, Init(threads), schedule), t, e)
    ensures ReturnedAt(cfg, threads, schedule, j, t, e)
  {
    assert Front(schedule)[..j] == schedule[..j] && Front(schedule)[j] == schedule[j];
    forall k | j < k <= |schedule| ensures UnderWay(Run(cfg, Init(threads), schedule[..k]), t, e) {
      if k < |schedule| {
        assert Front(schedule)[..k] == schedule[..k];
      } else {
        assert schedule[..k] == schedule;
      }
    }
  }

  lemma {:induction false} JustStamped(cfg: Config, threads: nat, schedule: seq<Action>, t: nat, e: IdleConn)
    requires schedule != [] && Last(schedule).Advance? && Last(schedule).t == t
    requires var s := Run(cfg, Init(threads), Front(schedule));
             t < |s.threads| && s.threads[t].pc == ReleaseStamp(e.conn) && s.clock == e.returnedAt
    requires UnderWay(Run(cfg, Init(threads), schedule), t, e)
    ensures ReturnedAt(cfg, threads, schedule, |schedule| - 1, t, e)
  {
    assert schedule[..|schedule| - 1] == Front(schedule) && schedule[..|schedule|] == schedule;
  }

  /** What is new on the stack was pushed, and what is about to be pushed was stamped just now or waits already. */
  lemma {:induction false} StepStamps(cfg: Config, s: State, a: Action)
    ensures var s' := Step(cfg, s, a);
            && (forall e :: e in s'.pool.free && e !in s.pool.free ==>
                  !a.Tick? && a.t < |s.threads| && s.threads[a.t].pc == ReleasePush(e.conn, e.returnedAt))
            && (forall t, c, at :: 0 <= t < |s'.threads| && s'.threads[t].pc == ReleasePush(c, at) ==>
                  || (t < |s.threads| && s.threads[t].pc == ReleasePush(c, at))
                  || (a.Advance? && a.t == t && t < |s.threads| && s.threads[t].pc == ReleaseStamp(c) && s.clock == at))
  {
    if !a.Tick? && a.t < |s.threads| {
      ThreadStamps(cfg, s.pool, s.clock, a, s.threads[a.t]);
    }
  }

  lemma {:induction false} ThreadStamps(cfg: Config, p: Pool, now: int, a: Action, th: Thread)
    requires !a.Tick?
    ensures var (p', th') := ThreadStep(cfg, p, now, a, th);
            && (forall e :: e in p'.free && e !in p.free ==> th.pc == ReleasePush(e.conn, e.returnedAt))
            && (th'.pc.ReleasePush? ==>
                  th'.pc == th.pc || (a.Advance? && th.pc == ReleaseStamp(th'.pc.conn) && th'.pc.now == now))
  {
    if a.Advance? && InRelease(th.pc) {
      assert ThreadStep(cfg, p, now, a, th) == ReleaseStep(cfg, p, now, a.t, th);
    } else if a.Advance? && InAcquire(th.pc) {
      assert ThreadStep(cfg, p, now, a, th) == AcquireStep(cfg, p, now, a.t, th);
    } else {
      assert ThreadStep(cfg, p, now, a, th).0.free == p.free;
    }
  }

  /** A goroutine that is about to push has stamped in this very call. */
  lemma {:induction false} PushWasStamped(cfg: Config, threads: nat, schedule: seq<Action>, t: nat, e: IdleConn)
    requires var s := Run(cfg, Init(threads), schedule);
             t < |s.threads| && s.threads[t].pc == ReleasePush(e.conn, e.returnedAt)
    ensures exists j: nat :: ReturnedAt(cfg, threads, schedule, j, t, e)
  {
    if schedule == [] {
    } else {
      var s := Run(cfg, Init(threads), Front(schedule));
      StepStamps(cfg, s, Last(schedule));
      if t < |s.threads| && s.threads[t].pc == ReleasePush(e.conn, e.returnedAt) {
        PushWasStamped(cfg, threads, Front(schedule), t, e);
        var j: nat :| ReturnedAt(cfg, threads, Front(schedule), j, t, e);
        StillUnderWay(cfg, threads, schedule, j, t, e);
      } else {
        JustStamped(cfg, threads, schedule, t, e);
      }
    }
  }

  /**
   For every idle connection, after any schedule: some Release of it read exactly `returnedAt` off the clock, pushed
   it, and it has been on the stack ever since.
   */
  lemma {:induction false} IdleSinceReturned(cfg: Config, threads: nat, schedule: seq<Action>, e: IdleConn)
    requires e in Run(cfg, Init(threads), schedule).pool.free
    ensures exists j: nat, t: nat :: ReturnedAt(cfg, threads, schedule, j, t, e)
  {
    if schedule == [] {
    } else {
      var s := Run(cfg, Init(threads), Front(schedule));
      StepStamps(cfg, s, Last(schedule));
      if e in s.pool.free {
        IdleSinceReturned(cfg, threads, Front(schedule), e);
        var j: nat, t: nat :| ReturnedAt(cfg, threads, Front(schedule), j, t, e);
        StillUnderWay(cfg, threads, schedule, j, t, e);
      } else {
        var t := Last(schedule).t;
        PushWasStamped(cfg, threads, Front(schedule), t, e);
        var j: nat :| ReturnedAt(cfg, threads, Front(schedule), j, t, e);
        StillUnderWay(cfg, threads, schedule, j, t, e);
      }
    }
  }

  // ---------- The times in the log of one goroutine ----------

  /** The instruction at which `call` takes its time, with the clock at that time; an empty stack needs none. */
  ghost predicate TakesTime(pc: Pc, clock: int, call: Call) {
    match call
    case Acquire(now, _) => pc.AcquireUnlockEmpty? || (pc.CheckIdle? && now == clock)
    case Release(c, at) => (pc == ReleaseStamp(c) || pc == OverflowClose(c)) && at == clock
    case CloseAndDrop(c) => pc == DropClose(c)
  }

  /** Action `j` is that instruction of the call that follows the first `n`. */
  ghost predicate TimedBy(cfg: Config, schedule: seq<Action>, j: nat, n: nat, call: Call) {
    && j < |schedule| && schedule[j].Advance? && schedule[j].t == 0
    && |Log(cfg, schedule[..j]).calls| == n
    && var s := Run(cfg, Init(1), schedule[..j]);
       |s.threads| == 1 && TakesTime(s.threads[0].pc, s.clock, call)
  }

  /** The call in progress that has taken its time but not its last effect. */
  ghost function Timed(hist: History, pc: Pc): Option<Call> {
    if pc.StaleClose? || pc.StaleUncount? || InDial(pc) then Some(Acquire(hist.now, true))
    else if pc.ReleasePush? then Some(Release(pc.conn, pc.now))
    else None
  }

  ghost predicate SomeTime(cfg: Config, schedule: seq<Action>, n: nat, call: Call) {
    exists j: nat :: TimedBy(cfg, schedule, j, n, call)
  }

  lemma {:induction false} TimeStays(cfg: Config, schedule: seq<Action>, n: nat, call: Call)
    requires schedule != [] && SomeTime(cfg, Front(schedule), n, call)
    ensures SomeTime(cfg, schedule, n, call)
  {
    var j: nat :| TimedBy(cfg, Front(schedule), j, n, call);
    assert Front(schedule)[..j] == schedule[..j] && Front(schedule)[j] == schedule[j];
    assert TimedBy(cfg, schedule, j, n, call);
  }

  lemma {:induction false} TimedNow(cfg: Config, schedule: seq<Action>, call: Call)
    requires schedule != [] && Last(schedule).Advance? && Last(schedule).t == 0
    requires var s := Run(cfg, Init(1), Front(schedule));
             |s.threads| == 1 && TakesTime(s.threads[0].pc, s.clock, call)
    ensures SomeTime(cfg, schedule, |Log(cfg, Front(schedule)).calls|, call)
  {
    assert schedule[..|schedule| - 1] == Front(schedule);
    assert TimedBy(cfg, schedule, |schedule| - 1, |Log(cfg, Front(schedule)).calls|, call);
  }

  ghost predicate SameTime(a: Call, b: Call) {
    a == b || (a.Acquire? && b.Acquire? && a.now == b.now)
  }

  /** An instruction logs nothing, or the call that has its time already or takes it now. */
  lemma {:induction false} ProgressTimes(cfg: Config, hist: History, p: Pool, now: int, th: Thread, dialOk: bool)
    ensures var hist' := Progress(cfg, hist, p, now, th, dialOk);
            var th' := ThreadStep(cfg, p, now, Advance(0, dialOk), th).1;
            && (hist'.calls == hist.calls ||
                (exists call :: hist'.calls == hist.calls + [call] && HasTime(th.pc, now, Timed(hist, th.pc), call)))
            && (Timed(hist', th'.pc).Some? ==>
                  hist'.calls == hist.calls && HasTime(th.pc, now, Timed(hist, th.pc), Timed(hist', th'.pc).value))
  {
    var hist' := Progress(cfg, hist, p, now, th, dialOk);
    var th' := ThreadStep(cfg, p, now, Advance(0, dialOk), th).1;
    if InAcquire(th.pc) {
      assert th' == AcquireStep(cfg, p, now, 0, th).1;
    } else if InDial(th.pc) {
      assert th' == DialStep(cfg, p, th, dialOk).1;
    } else if InRelease(th.pc) {
      assert th' == ReleaseStep(cfg, p, now, 0, th).1;
    } else {
      assert th' == DropStep(p, 0, th).1;
    }
    if hist'.calls != hist.calls {
      var call := Last(hist'.calls);
      assert hist'.calls == hist.calls + [call] && HasTime(th.pc, now, Timed(hist, th.pc), call);
    }
  }

  ghost predicate HasTime(pc: Pc, now: int, timed: Option<Call>, call: Call) {
    TakesTime(pc, now, call) || (timed.Some? && SameTime(timed.value, call))
  }

  lemma {:induction false} GetsTime(cfg: Config, schedule: seq<Action>, call: Call)
    requires schedule != [] && Last(schedule).Advance? && Last(schedule).t == 0
    requires |Run(cfg, Init(1), Front(schedule)).threads| == 1
    requires var s, hist := Run(cfg, Init(1), Front(schedule)), Log(cfg, Front(schedule));
             && HasTime(s.threads[0].pc, s.clock, Timed(hist, s.threads[0].pc), call)
             && (Timed(hist, s.threads[0].pc).Some? ==>
                   SomeTime(cfg, Front(schedule), |hist.calls|, Timed(hist, s.threads[0].pc).value))
    ensures SomeTime(cfg, schedule, |Log(cfg, Front(schedule)).calls|, call)
  {
    var s, hist := Run(cfg, Init(1), Front(schedule)), Log(cfg, Front(schedule));
    if TakesTime(s.threads[0].pc, s.clock, call) {
      TimedNow(cfg, schedule, call);
    } else {
      var timed := Timed(hist, s.threads[0].pc).value;
      TimeStays(cfg, schedule, |hist.calls|, timed);
      var j: nat :| TimedBy(cfg, schedule, j, |hist.calls|, timed);
      assert TimedBy(cfg, schedule, j, |hist.calls|, call);
    }
  }

  /** The times of the log: the clock when each call read it, in the call that the log names. */
  lemma {:induction false} LogTimesAreRead(cfg: Config, schedule: seq<Action>)
    ensures AllTimed(cfg, schedule, Log(cfg, schedule).calls)
    ensures |Run(cfg, Init(1), schedule).threads| == 1
    ensures var hist, pc := Log(cfg, schedule), Run(cfg, Init(1), schedule).threads[0].pc;
            Timed(hist, pc).Some? ==> SomeTime(cfg, schedule, |hist.calls|, Timed(hist, pc).value)
  {
    RunThreads(cfg, Init(1), schedule);
    if schedule == [] {
    } else {
      LogTimesAreRead(cfg, Front(schedule));
      var s, a := Run(cfg, Init(1), Front(schedule)), Last(schedule);
      var hist, hist' := Log(cfg, Front(schedule)), Log(cfg, schedule);
      TimesStay(cfg, schedule, hist.calls);
      if a.Advance? && a.t == 0 {
        AdvanceHasTimes(cfg, schedule);
        TimesOneMore(cfg, schedule, hist.calls, hist'.calls);
      } else {
        QuietHasTimes(cfg, schedule);
      }
    }
  }

  ghost predicate AllTimed(cfg: Config, schedule: seq<Action>, calls: seq<Call>) {
    forall i :: 0 <= i < |calls| ==> SomeTime(cfg, schedule, i, calls[i])
  }

  lemma {:induction false} TimesStay(cfg: Config, schedule: seq<Action>, calls: seq<Call>)
    requires schedule != [] && AllTimed(cfg, Front(schedule), calls)
    ensures AllTimed(cfg, schedule, calls)
  {
    forall i | 0 <= i < |calls| ensures SomeTime(cfg, schedule, i, calls[i]) {
      TimeStays(cfg, schedule, i, calls[i]);
    }
  }

  lemma {:induction false} TimesOneMore(cfg: Config, schedule: seq<Action>, calls: seq<Call>, calls': seq<Call>)
    requires AllTimed(cfg, schedule, calls)
    requires calls' == calls ||
             (|calls'| == |calls| + 1 && Front(calls') == calls && SomeTime(cfg, schedule, |calls|, Last(calls')))
    ensures AllTimed(cfg, schedule, calls')
  {
    forall i | 0 <= i < |calls'| ensures SomeTime(cfg, schedule, i, calls'[i]) {
      if i < |calls| {
        assert calls'[i] == calls[i];
      }
    }
  }

  lemma {:induction false} AdvanceHasTimes(cfg: Config, schedule: seq<Action>)
    requires schedule != [] && Last(schedule).Advance? && Last(schedule).t == 0
    requires |Run(cfg, Init(1), Front(schedule)).threads| == 1
    requires var hist, pc := Log(cfg, Front(schedule)), Run(cfg, Init(1), Front(schedule)).threads[0].pc;
             Timed(hist, pc).Some? ==> SomeTime(cfg, Front(schedule), |hist.calls|, Timed(hist, pc).value)
    ensures |Run(cfg, Init(1), schedule).threads| == 1
    ensures var hist, hist' := Log(cfg, Front(schedule)), Log(cfg, schedule);
            var pc' := Run(cfg, Init(1), schedule).threads[0].pc;
            && (hist'.calls == hist.calls ||
                (|hist'.calls| == |hist.calls| + 1 && Front(hist'.calls) == hist.calls &&
                 SomeTime(cfg, schedule, |hist.calls|, Last(hist'.calls))))
            && (Timed(hist', pc').Some? ==> SomeTime(cfg, schedule, |hist'.calls|, Timed(hist', pc').value))
  {
    var s, a := Run(cfg, Init(1), Front(schedule)), Last(schedule);
    var hist, hist' := Log(cfg, Front(schedule)), Log(cfg, schedule);
    var pc' := Run(cfg, Init(1), schedule).threads[0].pc;
    ProgressTimes(cfg, hist, s.pool, s.clock, s.threads[0], a.dialOk);
    if hist'.calls != hist.calls {
      GetsTime(cfg, schedule, Last(hist'.calls));
    }
    if Timed(hist', pc').Some? {
      GetsTime(cfg, schedule, Timed(hist', pc').value);
    }
  }

  lemma {:induction false} QuietHasTimes(cfg: Config, schedule: seq<Action>)
    requires schedule != [] && !(Last(schedule).Advance? && Last(schedule).t == 0)
    requires |Run(cfg, Init(1), Front(schedule)).threads| == 1
    requires var hist, pc := Log(cfg, Front(schedule)), Run(cfg, Init(1), Front(schedule)).threads[0].pc;
             Timed(hist, pc).Some? ==> SomeTime(cfg, Front(schedule), |hist.calls|, Timed(hist, pc).value)
    ensures |Run(cfg, Init(1), schedule).threads| == 1 && Log(cfg, schedule) == Log(cfg, Front(schedule))
    ensures var hist, pc := Log(cfg, schedule), Run(cfg, Init(1), schedule).threads[0].pc;
            Timed(hist, pc).Some? ==> SomeTime(cfg, schedule, |hist.calls|, Timed(hist, pc).value)
  {
    var s, a := Run(cfg, Init(1), Front(schedule)), Last(schedule);
    var hist, pc, pc' := Log(cfg, schedule), s.threads[0].pc, Run(cfg, Init(1), schedule).threads[0].pc;
    assert pc' == pc || pc'.AcquireLock? || pc'.ReleaseLock? || pc'.DropLock?;
    if Timed(hist, pc').Some? {
      TimeStays(cfg, schedule, |hist.calls|, Timed(hist, pc').value);
    }
  }
}
