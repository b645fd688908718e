/**
 The connection limit under races. dialNew reads `count`, then increments it, outside the lock, so several
 goroutines can pass the check before any of them increments. With at most `peak` goroutines inside dialNew
 at any time the overshoot is at most peak - 1, and it happens.
 */
module DialRaces {
  import opened Limits
  import opened Sums
  import opened Protocol
  import opened ProtocolSafety
  import opened ProtocolTheorems

  ghost function InsideDial(th: Thread): int {
    One(InDial(th.pc))
  }

  /** Past the check, not yet incremented. */
  ghost function Committed(th: Thread): int {
    One(th.pc.DialCount?)
  }

  /** At no point of the schedule are more than `peak` goroutines inside dialNew. */
  ghost predicate PeakDialers(cfg: Config, threads: nat, schedule: seq<Action>, peak: nat) {
    forall k :: 0 <= k <= |schedule| ==> Sum(InsideDial, Run(cfg, Init(threads), schedule[..k]).threads) <= peak
  }

  ghost function Max(a: int, b: int): int {
    if a >= b then a else b
  }

  ghost predicate Bounded(cfg: Config, s: State, peak: nat) {
    s.pool.count + Sum(Committed, s.threads) <= Max(0, DialLimit(cfg) - 1 + peak)
  }

  lemma {:induction false} PeakOfPrefix(cfg: Config, threads: nat, schedule: seq<Action>, peak: nat)
    requires schedule != [] && PeakDialers(cfg, threads, schedule, peak)
    ensures PeakDialers(cfg, threads, Front(schedule), peak)
    ensures Sum(InsideDial, Run(cfg, Init(threads), Front(schedule)).threads) <= peak
  {
    forall k | 0 <= k <= |Front(schedule)|
      ensures Sum(InsideDial, Run(cfg, Init(threads), Front(schedule)[..k]).threads) <= peak
    {
      assert Front(schedule)[..k] == schedule[..k];
    }
    assert schedule[..|schedule| - 1] == Front(schedule);
  }

  /** A goroutine at the check is inside dialNew without being committed. */
  lemma {:induction false} CheckerIsNotCommitted(s: seq<Thread>, i: nat)
    requires i < |s| && s[i].pc.DialCheck?
    ensures Sum(Committed, s) + 1 <= Sum(InsideDial, s)
  {
    if i == 0 {
      CommittedAreInside(s[1..]);
    } else {
      CheckerIsNotCommitted(s[1..], i - 1);
    }
  }

  lemma {:induction false} CommittedAreInside(s: seq<Thread>)
    ensures Sum(Committed, s) <= Sum(InsideDial, s)
  {
    if s == [] {
    } else {
      CommittedAreInside(s[1..]);
    }
  }

  /** Only passing the check raises `count` plus the committed, by one, and only below the limit. */
  lemma {:induction false} ThreadKeepsBound(cfg: Config, p: Pool, now: int, a: Action, th: Thread)
    requires !a.Tick?
    ensures var (p', th') := ThreadStep(cfg, p, now, a, th);
            || p'.count + Committed(th') <= p.count + Committed(th)
            || (th.pc.DialCheck? && p'.count == p.count < DialLimit(cfg) && Committed(th) == 0 && Committed(th') == 1)
  {
    if a.Advance? && InAcquire(th.pc) {
      assert ThreadStep(cfg, p, now, a, th) == AcquireStep(cfg, p, now, a.t, th);
    } else if a.Advance? && InRelease(th.pc) {
      assert ThreadStep(cfg, p, now, a, th) == ReleaseStep(cfg, p, now, a.t, th);
    }
  }

  /** `count`, with the goroutines that will increment it, never exceeds the limit by more than peak - 1. */
  lemma {:induction false} CountBound(cfg: Config, threads: nat, schedule: seq<Action>, peak: nat)
    requires cfg.max >= 0
    requires PeakDialers(cfg, threads, schedule, peak)
    ensures Bounded(cfg, Run(cfg, Init(threads), schedule), peak)
  {
    if schedule == [] {
      SumAllZero(Committed, Init(threads).threads);
    } else {
      PeakOfPrefix(cfg, threads, schedule, peak);
      CountBound(cfg, threads, Front(schedule), peak);
      var s, a := Run(cfg, Init(threads), Front(schedule)), Last(schedule);
      if !a.Tick? && a.t < |s.threads| {
        ThreadKeepsBound(cfg, s.pool, s.clock, a, s.threads[a.t]);
        SumUpdate(Committed, s.threads, a.t, ThreadStep(cfg, s.pool, s.clock, a, s.threads[a.t]).1);
        if s.threads[a.t].pc.DialCheck? {
          CheckerIsNotCommitted(s.threads, a.t);
        }
      }
    }
  }

  /** Without overlapping dials the configured maximum is respected, whatever else overlaps. */
  lemma {:induction false} NoOvershootAlone(cfg: Config, threads: nat, schedule: seq<Action>)
    requires ValidConfig(cfg)
    requires PeakDialers(cfg, threads, schedule, 1)
    ensures Run(cfg, Init(threads), schedule).pool.count <= cfg.max
  {
    CountBound(cfg, threads, schedule, 1);
    SumNonNegative(Committed, Run(cfg, Init(threads), schedule).threads);
  }

  /** The counter fits its int32 whenever the limit and the peak together do. */
  lemma {:induction false} CountFitsInt32(cfg: Config, threads: nat, schedule: seq<Action>, peak: nat)
    requires ValidConfig(cfg)
    requires PeakDialers(cfg, threads, schedule, peak)
    requires DialLimit(cfg) - 1 + peak < 0x8000_0000
    ensures var count := Run(cfg, Init(threads), schedule).pool.count;
            0 <= count && IsInt32(count)
  {
    CountBound(cfg, threads, schedule, peak);
    Safety(cfg, threads, schedule);
    SumNonNegative(Committed, Run(cfg, Init(threads), schedule).threads);
    SumNonNegative(Weight, Run(cfg, Init(threads), schedule).threads);
  }

  // ---------- Limits that do not fit 31 bits ----------

  /** Nobody is past dialNew's check, and no connection was ever opened. */
  ghost predicate NeverDialed(s: State) {
    && s.pool.next == 0
    && forall i :: 0 <= i < |s.threads| ==> s.threads[i].pc.DialCheck? || !InDial(s.threads[i].pc)
  }

  lemma {:induction false} CountNonNegative(cfg: Config, s: State)
    requires Inv(cfg, s)
    ensures s.pool.count >= 0
  {
    SumNonNegative(Weight, s.threads);
  }

  lemma {:induction false} StepNeverDials(cfg: Config, s: State, a: Action)
    requires NeverDialed(s) && s.pool.count >= DialLimit(cfg)
    ensures NeverDialed(Step(cfg, s, a))
  {
    if !a.Tick? && a.t < |s.threads| {
      ThreadNeverDials(cfg, s.pool, s.clock, a, s.threads[a.t]);
    }
  }

  lemma {:induction false} ThreadNeverDials(cfg: Config, p: Pool, now: int, a: Action, th: Thread)
    requires !a.Tick? && p.count >= DialLimit(cfg) && (th.pc.DialCheck? || !InDial(th.pc))
    ensures var (p', th') := ThreadStep(cfg, p, now, a, th);
            p'.next == p.next && (th'.pc.DialCheck? || !InDial(th'.pc))
  {
  }

  /** The setter takes any n >= 1, but a limit that is not positive as an int32 refuses every connection. */
  lemma {:induction false} TruncatedLimitRefusesAll(cfg: Config, threads: nat, schedule: seq<Action>)
    requires ValidConfig(cfg) && DialLimit(cfg) <= 0
    ensures NeverDialed(Run(cfg, Init(threads), schedule))
  {
    if schedule == [] {
    } else {
      TruncatedLimitRefusesAll(cfg, threads, Front(schedule));
      Safety(cfg, threads, Front(schedule));
      CountNonNegative(cfg, Run(cfg, Init(threads), Front(schedule)));
      StepNeverDials(cfg, Run(cfg, Init(threads), Front(schedule)), Last(schedule));
    }
  }

  /** A pool can ever hold a connection exactly when its maximum is positive as an int32. */
  lemma {:induction false} UsableIffLimitPositive(cfg: Config)
    requires ValidConfig(cfg)
    ensures DialLimit(cfg) >= 1 <==> exists threads, schedule :: Run(cfg, Init(threads), schedule).pool.count >= 1
  {
    if DialLimit(cfg) >= 1 {
      CountBoundIsTight(cfg, 1);
      assert Run(cfg, Init(1), Overshoot(DialLimit(cfg), 1)).pool.count >= 1;
    } else {
      forall threads, schedule ensures Run(cfg, Init(threads), schedule).pool.count < 1 {
        NoCountWithoutDial(cfg, threads, schedule);
      }
    }
  }

  lemma {:induction false} NoCountWithoutDial(cfg: Config, threads: nat, schedule: seq<Action>)
    requires ValidConfig(cfg) && DialLimit(cfg) <= 0
    ensures Run(cfg, Init(threads), schedule).pool.count <= 0
  {
    if schedule == [] {
    } else {
      NoCountWithoutDial(cfg, threads, Front(schedule));
      TruncatedLimitRefusesAll(cfg, threads, Front(schedule));
    }
  }

  /** The smallest maximum that is accepted but unusable. */
  lemma {:induction false} TwoToThe31IsUnusable()
    ensures ValidConfig(Config(0x8000_0000, SECOND)) && DialLimit(Config(0x8000_0000, SECOND)) == -0x8000_0000
    ensures forall cfg :: ValidConfig(cfg) && DialLimit(cfg) <= 0 ==> cfg.max >= 0x8000_0000
  {
    assert (0x8000_0000 + 0x8000_0000) % 0x1_0000_0000 == 0;
  }

  // ---------- The overflow branch of Release ----------

  /** Release closes a connection because the stack is full only while `count` is over the maximum. */
  lemma {:induction false} OverflowMeansOvershoot(cfg: Config, threads: nat, schedule: seq<Action>, i: nat)
    requires cfg.max >= 0
    requires i < |Run(cfg, Init(threads), schedule).threads|
    requires var s := Run(cfg, Init(threads), schedule);
             s.threads[i].pc.ReleaseCheck? && |s.pool.free| >= cfg.max
    ensures Run(cfg, Init(threads), schedule).pool.count > cfg.max
  {
    Safety(cfg, threads, schedule);
    SumAtLeast(Weight, Run(cfg, Init(threads), schedule).threads, i);
  }

  lemma {:induction false} EntersOverflowFull(cfg: Config, s: State, a: Action, i: nat)
    requires i < |s.threads| && !s.threads[i].pc.OverflowUncount?
    requires Step(cfg, s, a).threads[i].pc.OverflowUncount?
    ensures s.threads[i].pc.ReleaseCheck? && |s.pool.free| >= cfg.max
  {
  }

  /** If dials never overlap, no goroutine ever reaches the branch that closes on a full stack. */
  lemma {:induction false} OverflowNeedsOverlap(cfg: Config, threads: nat, schedule: seq<Action>, i: nat)
    requires ValidConfig(cfg)
    requires PeakDialers(cfg, threads, schedule, 1)
    requires i < |Run(cfg, Init(threads), schedule).threads|
    ensures !Run(cfg, Init(threads), schedule).threads[i].pc.OverflowUncount?
  {
    if schedule == [] {
    } else {
      var s, a := Run(cfg, Init(threads), Front(schedule)), Last(schedule);
      PeakOfPrefix(cfg, threads, schedule, 1);
      OverflowNeedsOverlap(cfg, threads, Front(schedule), i);
      RunThreads(cfg, Init(threads), schedule);
      RunThreads(cfg, Init(threads), Front(schedule));
      if Step(cfg, s, a).threads[i].pc.OverflowUncount? {
        EntersOverflowFull(cfg, s, a, i);
        OverflowMeansOvershoot(cfg, threads, Front(schedule), i);
        NoOvershootAlone(cfg, threads, Front(schedule));
      }
    }
  }

  // ---------- The bound is reached ----------

  /** Call Acquire on an empty stack and stop right after dialNew's check. */
  function ToCommit(t: nat): seq<Action> {
    [CallAcquire(t), Advance(t, true), Advance(t, true), Advance(t, true), Advance(t, true)]
  }

  function Leases(t: nat, n: nat): seq<Action> {
    if n == 0 then [] else Leases(t, n - 1) + ToCommit(t) + [Advance(t, true), Advance(t, true)]
  }

  function Commits(n: nat): seq<Action> {
    if n == 0 then [] else Commits(n - 1) + ToCommit(n - 1)
  }

  function Counts(n: nat): seq<Action> {
    if n == 0 then [] else Counts(n - 1) + [Advance(n - 1, true)]
  }

  /** Take all but one of the slots, let every goroutine pass the check, then let every goroutine increment. */
  function Overshoot(limit: nat, threads: nat): seq<Action>
    requires limit >= 1
  {
    Leases(0, limit - 1) + Commits(threads) + Counts(threads)
  }

  ghost predicate Quiet(s: State, count: int) {
    s.pool.free == [] && s.pool.holder == None && s.pool.count == count
  }

  lemma {:induction false} RunOne(cfg: Config, s: State, a: Action)
    ensures Run(cfg, s, [a]) == Step(cfg, s, a)
  {
    assert Front([a]) == [];
    assert Run(cfg, s, []) == s;
  }

  lemma {:induction false} RunCons(cfg: Config, s: State, a: Action, rest: seq<Action>)
    ensures Run(cfg, s, [a] + rest) == Run(cfg, Step(cfg, s, a), rest)
  {
    RunConcat(cfg, s, [a], rest);
    RunOne(cfg, s, a);
  }

  lemma {:induction false} ToCommitRuns(cfg: Config, s: State, t: nat)
    requires t < |s.threads| && s.threads[t].pc.Outside?
    requires Quiet(s, s.pool.count) && s.pool.count < DialLimit(cfg)
    ensures Run(cfg, s, ToCommit(t)) == s.(threads := s.threads[t := Thread(DialCount, s.threads[t].held, NoCall)])
  {
    var th := s.threads[t].(last := NoCall);
    var s1 := s.(threads := s.threads[t := th.(pc := AcquireLock)]);
    var s2 := s.(pool := s.pool.(holder := Some(t)), threads := s.threads[t := th.(pc := AcquirePop)]);
    var s3 := s2.(threads := s.threads[t := th.(pc := AcquireUnlockEmpty)]);
    var s4 := s.(threads := s.threads[t := th.(pc := DialCheck)]);
    var go := Advance(t, true);
    assert Step(cfg, s, CallAcquire(t)) == s1;
    assert Step(cfg, s1, go) == s2;
    assert Step(cfg, s2, go) == s3;
    assert Step(cfg, s3, go) == s4;
    RunCons(cfg, s, CallAcquire(t), [go, go, go, go]);
    RunCons(cfg, s1, go, [go, go, go]);
    RunCons(cfg, s2, go, [go, go]);
    RunCons(cfg, s3, go, [go]);
    RunOne(cfg, s4, go);
    assert ToCommit(t) == [CallAcquire(t)] + [go, go, go, go];
    assert [go, go, go, go] == [go] + [go, go, go] && [go, go, go] == [go] + [go, go] && [go, go] == [go] + [go];
  }

  ghost predicate AllOutside(s: State, from: nat) {
    forall i :: from <= i < |s.threads| ==> s.threads[i].pc.Outside?
  }

  lemma {:induction false} LeasesRun(cfg: Config, threads: nat, n: nat)
    requires threads >= 1 && n < DialLimit(cfg)
    ensures var s := Run(cfg, Init(threads), Leases(0, n)); Quiet(s, n) && AllOutside(s, 0) && |s.threads| == threads
  {
    if n == 0 {
    } else {
      LeasesRun(cfg, threads, n - 1);
      var before, go := Leases(0, n - 1), Advance(0, true);
      var s := Run(cfg, Init(threads), before);
      ToCommitRuns(cfg, s, 0);
      RunConcat(cfg, Init(threads), before + ToCommit(0), [go, go]);
      RunConcat(cfg, Init(threads), before, ToCommit(0));
      DialSucceeds(cfg, Run(cfg, s, ToCommit(0)), 0);
    }
  }

  lemma {:induction false} DialSucceeds(cfg: Config, s: State, t: nat)
    requires t < |s.threads| && s.threads[t].pc.DialCount?
    ensures var s' := Run(cfg, s, [Advance(t, true), Advance(t, true)]);
            && s'.pool.free == s.pool.free && s'.pool.holder == s.pool.holder && s'.pool.count == s.pool.count + 1
            && |s'.threads| == |s.threads| && s'.threads[t].pc.Outside?
            && forall i :: 0 <= i < |s.threads| && i != t ==> s'.threads[i] == s.threads[i]
  {
    var go := Advance(t, true);
    RunCons(cfg, s, go, [go]);
    RunOne(cfg, Step(cfg, s, go), go);
    assert [go, go] == [go] + [go];
  }

  /** The first `n` goroutines are past the check, the others have not started. */
  ghost predicate Lined(s: State, n: nat) {
    AllOutside(s, n) && forall i :: 0 <= i < n && i < |s.threads| ==> s.threads[i].pc == DialCount
  }

  lemma {:induction false} CommitRuns(cfg: Config, s: State, n: nat)
    requires n < |s.threads| && Lined(s, n)
    requires Quiet(s, s.pool.count) && s.pool.count < DialLimit(cfg)
    ensures var s' := Run(cfg, s, ToCommit(n));
            s'.pool == s.pool && |s'.threads| == |s.threads| && Lined(s', n + 1)
  {
    ToCommitRuns(cfg, s, n);
    assert Run(cfg, s, ToCommit(n)).threads[n].pc == DialCount;
  }

  lemma {:induction false} CommitsRun(cfg: Config, s: State, n: nat)
    requires n <= |s.threads| && AllOutside(s, 0)
    requires Quiet(s, s.pool.count) && s.pool.count < DialLimit(cfg)
    ensures var s' := Run(cfg, s, Commits(n));
            s'.pool == s.pool && |s'.threads| == |s.threads| && Lined(s', n)
  {
    if n == 0 {
    } else {
      CommitsRun(cfg, s, n - 1);
      RunConcat(cfg, s, Commits(n - 1), ToCommit(n - 1));
      CommitRuns(cfg, Run(cfg, s, Commits(n - 1)), n - 1);
    }
  }

  /** The first `n` goroutines have incremented `count`, the others are about to. */
  ghost predicate Waiting(s: State, n: nat) {
    forall i :: n <= i < |s.threads| ==> s.threads[i].pc == DialCount
  }

  lemma {:induction false} CountRuns(cfg: Config, s: State, n: nat)
    requires n < |s.threads| && Waiting(s, n)
    ensures var s' := Run(cfg, s, [Advance(n, true)]);
            s'.pool.count == s.pool.count + 1 && |s'.threads| == |s.threads| && Waiting(s', n + 1)
  {
    RunOne(cfg, s, Advance(n, true));
  }

  lemma {:induction false} CountsRun(cfg: Config, s: State, n: nat)
    requires n <= |s.threads| && Waiting(s, 0)
    ensures var s' := Run(cfg, s, Counts(n));
            s'.pool.count == s.pool.count + n && |s'.threads| == |s.threads| && Waiting(s', n)
  {
    if n == 0 {
    } else {
      CountsRun(cfg, s, n - 1);
      RunConcat(cfg, s, Counts(n - 1), [Advance(n - 1, true)]);
      CountRuns(cfg, Run(cfg, s, Counts(n - 1)), n - 1);
    }
  }

  lemma {:induction false} RunParts(cfg: Config, s: State, a: seq<Action>, b: seq<Action>, c: seq<Action>)
    ensures Run(cfg, s, a + b + c) == Run(cfg, Run(cfg, Run(cfg, s, a), b), c)
  {
    RunConcat(cfg, s, a + b, c);
    RunConcat(cfg, s, a, b);
  }

  lemma {:induction false} OvershootRuns(cfg: Config, threads: nat, limit: nat)
    requires limit == DialLimit(cfg) >= 1 && threads >= 1
    ensures Run(cfg, Init(threads), Overshoot(limit, threads)).pool.count == limit - 1 + threads
  {
    RunParts(cfg, Init(threads), Leases(0, limit - 1), Commits(threads), Counts(threads));
    LeasesRun(cfg, threads, limit - 1);
    RaceRuns(cfg, Run(cfg, Init(threads), Leases(0, limit - 1)), threads);
  }

  /** All goroutines pass the check, then all increment. */
  lemma {:induction false} RaceRuns(cfg: Config, s: State, n: nat)
    requires n == |s.threads| && AllOutside(s, 0)
    requires Quiet(s, s.pool.count) && s.pool.count < DialLimit(cfg)
    ensures Run(cfg, Run(cfg, s, Commits(n)), Counts(n)).pool.count == s.pool.count + n
  {
    CommitsRun(cfg, s, n);
    CountsRun(cfg, Run(cfg, s, Commits(n)), n);
  }

  /** The bound is tight: for every limit and every number of goroutines some schedule reaches it. */
  lemma {:induction false} CountBoundIsTight(cfg: Config, threads: nat)
    requires DialLimit(cfg) >= 1 && threads >= 1
    ensures var schedule := Overshoot(DialLimit(cfg), threads);
            && PeakDialers(cfg, threads, schedule, threads)
            && Run(cfg, Init(threads), schedule).pool.count == DialLimit(cfg) - 1 + threads
  {
    PeakAtMostThreads(cfg, threads, Overshoot(DialLimit(cfg), threads));
    OvershootRuns(cfg, threads, DialLimit(cfg));
  }

  lemma {:induction false} PeakAtMostThreads(cfg: Config, threads: nat, schedule: seq<Action>)
    ensures PeakDialers(cfg, threads, schedule, threads)
  {
    forall k | 0 <= k <= |schedule|
      ensures Sum(InsideDial, Run(cfg, Init(threads), schedule[..k]).threads) <= threads
    {
      RunThreads(cfg, Init(threads), schedule[..k]);
      SumAtMost(InsideDial, Run(cfg, Init(threads), schedule[..k]).threads);
    }
  }
}
