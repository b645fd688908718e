/**
 The branch of Release that closes a connection because the stack is full: unreachable while dials do not overlap,
 and reached, for every limit, as soon as two of them do.
 */
module Overflow {
  import opened Limits
  import opened Sums
  import opened Protocol
  import opened ProtocolTheorems
  import opened DialRaces

  /** The first two goroutines take turns, the others never begin. */
  ghost predicate ByTwo(schedule: seq<Action>) {
    forall a :: a in schedule ==> !a.Tick? && a.t <= 1
  }

  lemma {:induction false} OthersRest(cfg: Config, threads: nat, schedule: seq<Action>)
    requires ByTwo(schedule)
    ensures var s := Run(cfg, Init(threads), schedule);
            |s.threads| == threads && AllOutside(s, 2)
  {
    if schedule == [] {
    } else {
      OthersRest(cfg, threads, Front(schedule));
    }
  }

  lemma {:induction false} AtMostTwoDial(ths: seq<Thread>)
    requires forall i :: 2 <= i < |ths| ==> ths[i].pc.Outside?
    ensures Sum(InsideDial, ths) <= 2
  {
    if |ths| <= 2 {
      SumAtMost(InsideDial, ths);
    } else {
      SumUpToTwo(ths);
    }
  }

  lemma {:induction false} SumUpToTwo(ths: seq<Thread>)
    requires |ths| >= 2 && forall i :: 2 <= i < |ths| ==> ths[i].pc.Outside?
    ensures Sum(InsideDial, ths) <= 2
  {
    var rest := ths[1..][1..];
    assert forall th :: th in rest ==> InsideDial(th) == 0 by {
      forall th | th in rest ensures InsideDial(th) == 0 {
        var i :| 0 <= i < |rest| && rest[i] == th;
        assert ths[i + 2] == th;
      }
    }
    SumAllZero(InsideDial, rest);
    assert Sum(InsideDial, ths) == InsideDial(ths[0]) + Sum(InsideDial, ths[1..]);
    assert Sum(InsideDial, ths[1..]) == InsideDial(ths[1..][0]) + Sum(InsideDial, rest);
  }

  lemma {:induction false} PeakOfTwo(cfg: Config, threads: nat, schedule: seq<Action>)
    requires ByTwo(schedule)
    ensures PeakDialers(cfg, threads, schedule, 2)
  {
    forall k | 0 <= k <= |schedule|
      ensures Sum(InsideDial, Run(cfg, Init(threads), schedule[..k]).threads) <= 2
    {
      OthersRest(cfg, threads, schedule[..k]);
      AtMostTwoDial(Run(cfg, Init(threads), schedule[..k]).threads);
    }
  }

  // ---------- One connection more than the maximum ----------

  /** Goroutines 0 and 1 are between calls and lease so many connections; so many are idle. */
  ghost predicate Shares(s: State, mine: nat, yours: nat, idle: nat) {
    && |s.threads| >= 2 && s.pool.holder == None && |s.pool.free| == idle
    && s.threads[0].pc.Outside? && s.threads[1].pc.Outside?
    && |s.threads[0].held| == mine && |s.threads[1].held| == yours
  }

  lemma {:induction false} DialLeases(cfg: Config, s: State, t: nat)
    requires t < |s.threads| && s.threads[t].pc.DialCount?
    ensures var s' := Run(cfg, s, [Advance(t, true), Advance(t, true)]);
            t < |s'.threads| && |s'.threads[t].held| == |s.threads[t].held| + 1
  {
    var go := Advance(t, true);
    RunCons(cfg, s, go, [go]);
    RunOne(cfg, Step(cfg, s, go), go);
    assert [go, go] == [go] + [go];
  }

  /** Goroutine 0 leases a new connection. */
  function Take(): seq<Action> {
    ToCommit(0) + [Advance(0, true), Advance(0, true)]
  }

  lemma {:induction false} TakesOne(cfg: Config, s: State, n: nat)
    requires Shares(s, n, 0, 0) && s.pool.count == n < DialLimit(cfg)
    ensures var s' := Run(cfg, s, Take());
            Shares(s', n + 1, 0, 0) && s'.pool.count == n + 1
  {
    var go := Advance(0, true);
    ToCommitRuns(cfg, s, 0);
    RunConcat(cfg, s, ToCommit(0), [go, go]);
    DialSucceeds(cfg, Run(cfg, s, ToCommit(0)), 0);
    DialLeases(cfg, Run(cfg, s, ToCommit(0)), 0);
  }

  lemma {:induction false} TakeByTwo()
    ensures ByTwo(Take())
  {
  }

  lemma {:induction false} TakesAfter(cfg: Config, s: State, leases: seq<Action>, n: nat)
    requires var s' := Run(cfg, s, leases); Shares(s', n, 0, 0) && s'.pool.count == n < DialLimit(cfg)
    ensures var s' := Run(cfg, s, leases + Take()); Shares(s', n + 1, 0, 0) && s'.pool.count == n + 1
  {
    RunConcat(cfg, s, leases, Take());
    TakesOne(cfg, Run(cfg, s, leases), n);
  }

  lemma {:induction false} TakesMany(cfg: Config, threads: nat, n: nat) returns (leases: seq<Action>)
    requires threads >= 2 && n <= DialLimit(cfg)
    ensures ByTwo(leases)
    ensures var s := Run(cfg, Init(threads), leases); Shares(s, n, 0, 0) && s.pool.count == n
  {
    if n == 0 {
      leases := [];
    } else {
      var before := TakesMany(cfg, threads, n - 1);
      TakesAfter(cfg, Init(threads), before, n - 1);
      TakeByTwo();
      leases := before + Take();
    }
  }

  /** Both are past the check, and neither has incremented. */
  ghost predicate BothCommitted(s: State, n: nat) {
    && |s.threads| >= 2 && s.pool.holder == None && s.pool.free == []
    && s.threads[0].pc == DialCount && s.threads[1].pc == DialCount
    && |s.threads[0].held| == n && |s.threads[1].held| == 0
  }

  function BothCheck(): seq<Action> {
    ToCommit(0) + ToCommit(1)
  }

  function BothDial(): seq<Action> {
    [Advance(0, true), Advance(0, true)] + [Advance(1, true), Advance(1, true)]
  }

  function Overlap(): seq<Action> {
    BothCheck() + BothDial()
  }

  lemma {:induction false} BothCheckRuns(cfg: Config, s: State, n: nat)
    requires Shares(s, n, 0, 0) && s.pool.count == n < DialLimit(cfg)
    ensures BothCommitted(Run(cfg, s, BothCheck()), n)
  {
    RunConcat(cfg, s, ToCommit(0), ToCommit(1));
    ToCommitRuns(cfg, s, 0);
    ToCommitRuns(cfg, Run(cfg, s, ToCommit(0)), 1);
  }

  lemma {:induction false} BothDialRuns(cfg: Config, s: State, n: nat)
    requires BothCommitted(s, n)
    ensures Shares(Run(cfg, s, BothDial()), n + 1, 1, 0)
  {
    var go0, go1 := Advance(0, true), Advance(1, true);
    var s1 := Run(cfg, s, [go0, go0]);
    RunConcat(cfg, s, [go0, go0], [go1, go1]);
    DialSucceeds(cfg, s, 0);
    DialLeases(cfg, s, 0);
    DialSucceeds(cfg, s1, 1);
    DialLeases(cfg, s1, 1);
  }

  lemma {:induction false} OverlapRuns(cfg: Config, s: State, n: nat)
    requires Shares(s, n, 0, 0) && s.pool.count == n < DialLimit(cfg)
    ensures Shares(Run(cfg, s, Overlap()), n + 1, 1, 0)
  {
    BothCheckRuns(cfg, s, n);
    BothDialRuns(cfg, Run(cfg, s, BothCheck()), n);
    RunConcat(cfg, s, BothCheck(), BothDial());
  }

  // ---------- Filling the stack ----------

  function Asks(c: ConnId): seq<Action> {
    [CallRelease(0, c), Advance(0, true), Advance(0, true)]
  }

  function Pushes(): seq<Action> {
    [Advance(0, true), Advance(0, true), Advance(0, true)]
  }

  lemma {:induction false} RunThree(cfg: Config, s: State, a: Action, b: Action, c: Action)
    ensures Run(cfg, s, [a, b, c]) == Step(cfg, Step(cfg, Step(cfg, s, a), b), c)
  {
    RunCons(cfg, s, a, [b, c]);
    RunCons(cfg, Step(cfg, s, a), b, [c]);
    RunOne(cfg, Step(cfg, Step(cfg, s, a), b), c);
    assert [a, b, c] == [a] + [b, c] && [b, c] == [b] + [c];
  }

  /** Goroutine 0 has the lock and room to push `c`. */
  ghost predicate Pushing(s: State, c: ConnId, mine: nat, idle: nat) {
    && |s.threads| >= 2 && s.pool.holder == Some(0) && |s.pool.free| == idle
    && s.threads[0].pc == ReleaseStamp(c) && s.threads[1].pc.Outside?
    && |s.threads[0].held| == mine && |s.threads[1].held| == 1
  }

  lemma {:induction false} AsksRuns(cfg: Config, s: State, c: ConnId, mine: nat, idle: nat)
    requires mine >= 1 && Shares(s, mine, 1, idle) && c in s.threads[0].held && idle < cfg.max
    ensures Pushing(Run(cfg, s, Asks(c)), c, mine - 1, idle)
  {
    var go := Advance(0, true);
    var th := s.threads[0].(held := s.threads[0].held - multiset{c});
    var s1 := s.(threads := s.threads[0 := th.(pc := ReleaseLock(c))]);
    var s2 := s.(pool := s.pool.(holder := Some(0)), threads := s.threads[0 := th.(pc := ReleaseCheck(c))]);
    assert Step(cfg, s, CallRelease(0, c)) == s1;
    assert Step(cfg, s1, go) == s2;
    RunThree(cfg, s, CallRelease(0, c), go, go);
  }

  lemma {:induction false} PushesRuns(cfg: Config, s: State, c: ConnId, mine: nat, idle: nat)
    requires Pushing(s, c, mine, idle)
    ensures Shares(Run(cfg, s, Pushes()), mine, 1, idle + 1)
  {
    var go := Advance(0, true);
    var s1 := s.(threads := s.threads[0 := s.threads[0].(pc := ReleasePush(c, s.clock))]);
    assert Step(cfg, s, go) == s1;
    RunThree(cfg, s, go, go, go);
  }

  function GivesBack(c: ConnId): seq<Action> {
    Asks(c) + Pushes()
  }

  lemma {:induction false} GivesBackRuns(cfg: Config, s: State, c: ConnId, mine: nat, idle: nat)
    requires mine >= 1 && Shares(s, mine, 1, idle) && c in s.threads[0].held && idle < cfg.max
    ensures Shares(Run(cfg, s, GivesBack(c)), mine - 1, 1, idle + 1)
  {
    AsksRuns(cfg, s, c, mine, idle);
    PushesRuns(cfg, Run(cfg, s, Asks(c)), c, mine - 1, idle);
    RunConcat(cfg, s, Asks(c), Pushes());
  }

  lemma {:induction false} GivesAllBack(cfg: Config, s: State, mine: nat, idle: nat) returns (schedule: seq<Action>)
    requires Shares(s, mine, 1, idle) && mine + idle <= cfg.max
    ensures ByTwo(schedule) && Shares(Run(cfg, s, schedule), 0, 1, idle + mine)
    decreases mine
  {
    if mine == 0 {
      schedule := [];
    } else {
      var c :| c in s.threads[0].held;
      GivesBackRuns(cfg, s, c, mine, idle);
      var rest := GivesAllBack(cfg, Run(cfg, s, GivesBack(c)), mine - 1, idle + 1);
      schedule := GivesBack(c) + rest;
      RunConcat(cfg, s, GivesBack(c), rest);
    }
  }

  lemma {:induction false} OneMoreOverflows(cfg: Config, s: State) returns (schedule: seq<Action>)
    requires cfg.max >= 0 && Shares(s, 0, 1, cfg.max)
    ensures ByTwo(schedule)
    ensures var s' := Run(cfg, s, schedule); |s'.threads| >= 2 && s'.threads[1].pc.OverflowUncount?
  {
    var c :| c in s.threads[1].held;
    var go := Advance(1, true);
    schedule := [CallRelease(1, c), go, go];
    RunThree(cfg, s, CallRelease(1, c), go, go);
    var th := s.threads[1].(held := s.threads[1].held - multiset{c});
    var s1 := s.(threads := s.threads[1 := th.(pc := ReleaseLock(c))]);
    assert Step(cfg, s, CallRelease(1, c)) == s1;
  }

  lemma {:induction false} SomeOverlap(cfg: Config, s: State, n: nat) returns (overlap: seq<Action>)
    requires Shares(s, n, 0, 0) && s.pool.count == n < DialLimit(cfg)
    ensures ByTwo(overlap) && Shares(Run(cfg, s, overlap), n + 1, 1, 0)
  {
    overlap := Overlap();
    OverlapByTwo();
    OverlapRuns(cfg, s, n);
  }

  /** Goroutine 0 takes all slots but one, both overlap in taking the last, and goroutine 0 gives all it has back. */
  lemma {:induction false} FullStack(cfg: Config, threads: nat) returns (schedule: seq<Action>)
    requires ValidConfig(cfg) && cfg.max < 0x8000_0000 && threads >= 2
    ensures ByTwo(schedule) && Shares(Run(cfg, Init(threads), schedule), 0, 1, cfg.max)
  {
    var leases := TakesMany(cfg, threads, cfg.max - 1);
    var overlap := SomeOverlap(cfg, Run(cfg, Init(threads), leases), cfg.max - 1);
    schedule := ThenGivesBack(cfg, Init(threads), leases, overlap);
  }

  lemma {:induction false} ThenGivesBack(cfg: Config, s: State, leases: seq<Action>, overlap: seq<Action>) returns (schedule: seq<Action>)
    requires cfg.max >= 0 && ByTwo(leases) && ByTwo(overlap)
    requires Shares(Run(cfg, Run(cfg, s, leases), overlap), cfg.max, 1, 0)
    ensures ByTwo(schedule) && Shares(Run(cfg, s, schedule), 0, 1, cfg.max)
  {
    var back := GivesAllBack(cfg, Run(cfg, Run(cfg, s, leases), overlap), cfg.max, 0);
    schedule := leases + (overlap + back);
    Joins(cfg, s, leases, overlap, back);
  }

  lemma {:induction false} Joins(cfg: Config, s: State, a: seq<Action>, b: seq<Action>, c: seq<Action>)
    requires ByTwo(a) && ByTwo(b) && ByTwo(c)
    ensures ByTwo(a + (b + c))
    ensures Run(cfg, s, a + (b + c)) == Run(cfg, Run(cfg, Run(cfg, s, a), b), c)
  {
    RunConcat(cfg, s, a, b + c);
    RunConcat(cfg, Run(cfg, s, a), b, c);
  }

  lemma {:induction false} OverlapByTwo()
    ensures ByTwo(Overlap())
  {
  }

  /** For every limit, two overlapping dials are enough: some schedule of two goroutines finds the stack full. */
  lemma {:induction false} TwoDialsOverflow(cfg: Config, threads: nat) returns (schedule: seq<Action>)
    requires ValidConfig(cfg) && cfg.max < 0x8000_0000 && threads >= 2
    ensures PeakDialers(cfg, threads, schedule, 2) && Overflows(cfg, threads, schedule, 1)
  {
    var full := FullStack(cfg, threads);
    var last := OneMoreOverflows(cfg, Run(cfg, Init(threads), full));
    schedule := full + last;
    RunConcat(cfg, Init(threads), full, last);
    PeakOfTwo(cfg, threads, schedule);
  }

  /**
   The exact condition: with at most `peak` goroutines dialing at a time, the branch can be reached if and only if
   `peak` allows two of them.
   */
  lemma {:induction false} OverflowIffOverlap(cfg: Config, threads: nat, peak: nat)
    requires ValidConfig(cfg) && cfg.max < 0x8000_0000 && threads >= 2
    ensures peak >= 2 <==> exists schedule, i :: PeakDialers(cfg, threads, schedule, peak) && Overflows(cfg, threads, schedule, i)
  {
    if peak >= 2 {
      var schedule := TwoDialsOverflow(cfg, threads);
      assert PeakDialers(cfg, threads, schedule, peak);
      assert Overflows(cfg, threads, schedule, 1);
    } else {
      forall schedule, i | PeakDialers(cfg, threads, schedule, peak) ensures !Overflows(cfg, threads, schedule, i) {
        assert PeakDialers(cfg, threads, schedule, 1);
        if Overflows(cfg, threads, schedule, i) {
          OverflowNeedsOverlap(cfg, threads, schedule, i);
        }
      }
    }
  }

  /** Goroutine `i` has found the stack full and is about to close what it gives back. */
  ghost predicate Overflows(cfg: Config, threads: nat, schedule: seq<Action>, i: nat) {
    i < |Run(cfg, Init(threads), schedule).threads| && Run(cfg, Init(threads), schedule).threads[i].pc.OverflowUncount?
  }
}
