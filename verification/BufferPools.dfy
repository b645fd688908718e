/**
 The counters of internal/pool/bufio_pool.go. `reuse` says whether sync.Pool's Get found an object: the garbage
 collector may empty a pool at any time, so both answers are always possible.
 */
module BufferPools {

  datatype Counters = Counters(readerInUse: int, readerIdle: int, writerInUse: int, writerIdle: int,
                               pipeInUse: int, pipeIdle: int)

  datatype Op =
    | AcquireReader(reuse: bool)
    | ReleaseReader
    | AcquireWriter(reuse: bool)
    | ReleaseWriter
    | AcquirePipe
    | ReleasePipe
    | ResizePipes

  const ZERO := Counters(0, 0, 0, 0, 0, 0)

  /** metricsBufIOReader, which metricsBufIOWriter repeats: it too moves the reader counters. */
  function MoveReader(k: Counters, trend: int): Counters {
    k.(readerInUse := k.readerInUse + trend, readerIdle := k.readerIdle - trend)
  }

  function Count(k: Counters, op: Op): Counters {
    match op
    case AcquireReader(reuse) => if reuse then MoveReader(k, 1) else k.(readerInUse := k.readerInUse + 1)
    case ReleaseReader => MoveReader(k, -1)
    case AcquireWriter(reuse) => if reuse then MoveReader(k, 1) else k.(writerInUse := k.writerInUse + 1)
    case ReleaseWriter => MoveReader(k, -1)
    case AcquirePipe => k.(pipeInUse := k.pipeInUse + 1, pipeIdle := k.pipeIdle - 1)
    case ReleasePipe => k.(pipeInUse := k.pipeInUse - 1, pipeIdle := k.pipeIdle + 1)
    case ResizePipes => k.(pipeIdle := 0)
  }

  function CountAll(ops: seq<Op>): Counters {
    if ops == [] then ZERO else Count(CountAll(ops[..|ops| - 1]), ops[|ops| - 1])
  }

  /** What really is out: objects held by callers, objects ever made, and pipe buffers out at the last resize. */
  datatype Truth = Truth(readersHeld: int, writersHeld: int, readersMade: int, writersMade: int,
                         pipesHeld: int, pipesAtResize: int)

  function Witness(v: Truth, op: Op): Truth {
    match op
    case AcquireReader(reuse) =>
      v.(readersHeld := v.readersHeld + 1, readersMade := v.readersMade + if reuse then 0 else 1)
    case ReleaseReader => v.(readersHeld := v.readersHeld - 1)
    case AcquireWriter(reuse) =>
      v.(writersHeld := v.writersHeld + 1, writersMade := v.writersMade + if reuse then 0 else 1)
    case ReleaseWriter => v.(writersHeld := v.writersHeld - 1)
    case AcquirePipe => v.(pipesHeld := v.pipesHeld + 1)
    case ReleasePipe => v.(pipesHeld := v.pipesHeld - 1)
    case ResizePipes => v.(pipesAtResize := v.pipesHeld)
  }

  function WitnessAll(ops: seq<Op>): Truth {
    if ops == [] then Truth(0, 0, 0, 0, 0, 0) else Witness(WitnessAll(ops[..|ops| - 1]), ops[|ops| - 1])
  }

  /** Every counter in terms of what really is out. */
  ghost predicate Lawful(k: Counters, v: Truth) {
    && k.readerInUse == v.readersHeld + v.writersHeld - v.writersMade
    && k.readerIdle == (v.readersMade - v.readersHeld) + (v.writersMade - v.writersHeld)
    && k.writerInUse == v.writersMade
    && k.writerIdle == 0
    && k.pipeInUse == v.pipesHeld
    && k.pipeIdle == v.pipesAtResize - v.pipesHeld
  }

  lemma {:induction false} CountersLawful(ops: seq<Op>)
    ensures Lawful(CountAll(ops), WitnessAll(ops))
  {
    if ops == [] {
    } else {
      CountersLawful(ops[..|ops| - 1]);
    }
  }

  /** The sums that survive the mix-up of the counters. */
  lemma {:induction false} CounterLaws(ops: seq<Op>)
    ensures var k, v := CountAll(ops), WitnessAll(ops);
            && k.readerInUse + k.writerInUse == v.readersHeld + v.writersHeld
            && k.readerInUse + k.readerIdle == v.readersMade
            && k.pipeInUse + k.pipeIdle == v.pipesAtResize
  {
    CountersLawful(ops);
  }

  lemma {:induction false} ResizeChangesBase(ops: seq<Op>, more: seq<Op>)
    requires forall op :: op in more ==> !op.ResizePipes?
    ensures WitnessAll(ops + more).pipesAtResize == WitnessAll(ops).pipesAtResize
  {
    if more == [] {
      assert ops + more == ops;
    } else {
      ResizeChangesBase(ops, more[..|more| - 1]);
      assert (ops + more)[..|ops + more| - 1] == ops + more[..|more| - 1];
    }
  }

  /** Between changes of the pipe buffer size, in-use plus idle never changes. */
  lemma {:induction false} PipeSumConstant(ops: seq<Op>, more: seq<Op>)
    requires forall op :: op in more ==> !op.ResizePipes?
    ensures CountAll(ops + more).pipeInUse + CountAll(ops + more).pipeIdle ==
            CountAll(ops).pipeInUse + CountAll(ops).pipeIdle
  {
    CountersLawful(ops);
    CountersLawful(ops + more);
    ResizeChangesBase(ops, more);
  }

  /**
   The in-use counters are documented as exact. Each of the two for bufio objects is exact precisely while every
   writer ever made is held.
   */
  lemma {:induction false} InUseExactness(ops: seq<Op>)
    ensures var k, v := CountAll(ops), WitnessAll(ops);
            && (k.readerInUse == v.readersHeld <==> v.writersHeld == v.writersMade)
            && (k.writerInUse == v.writersHeld <==> v.writersHeld == v.writersMade)
  {
    CountersLawful(ops);
  }

  /** Once a single writer has been used and returned, both counters are wrong. */
  lemma {:induction false} InUseCanBeWrong()
    ensures var ops := [AcquireWriter(false), ReleaseWriter];
            CountAll(ops).readerInUse == -1 && CountAll(ops).writerInUse == 1 && WitnessAll(ops).writersHeld == 0
  {
    var ops := [AcquireWriter(false), ReleaseWriter];
    assert ops[..1] == [AcquireWriter(false)] && ops[..1][..0] == [];
    assert CountAll(ops[..1]) == Count(ZERO, AcquireWriter(false));
    assert WitnessAll(ops[..1]) == Witness(Truth(0, 0, 0, 0, 0, 0), AcquireWriter(false));
  }

  // ---------- The sizes of pipe buffers ----------

  const DEFAULT_PIPE_SIZE: nat := 65536
  const MIN_PIPE_SIZE: nat := 256

  /** The size of new pipe buffers, and the lengths of those in the pool and of those in use. */
  datatype Pipes = Pipes(size: nat, pooled: multiset<nat>, out: multiset<nat>)

  datatype PipeOp = Get(length: nat) | Put(length: nat) | Resize(n: int)

  const NEW_PIPES := Pipes(DEFAULT_PIPE_SIZE, multiset{}, multiset{})

  /** Get takes a pooled buffer or makes a new one. */
  predicate MayGet(p: Pipes, length: nat) {
    length == p.size || length in p.pooled
  }

  /** A resize replaces the pool; a buffer that is out then goes into the new pool when it is put back. */
  function Change(p: Pipes, op: PipeOp): Pipes {
    match op
    case Get(n) => if MayGet(p, n) then p.(pooled := p.pooled - multiset{n}, out := p.out + multiset{n}) else p
    case Put(n) => if n in p.out then p.(pooled := p.pooled + multiset{n}, out := p.out - multiset{n}) else p
    case Resize(n) => if n >= MIN_PIPE_SIZE then p.(size := n, pooled := multiset{}) else p
  }

  function ChangeAll(p: Pipes, ops: seq<PipeOp>): Pipes {
    if ops == [] then p else Change(ChangeAll(p, ops[..|ops| - 1]), ops[|ops| - 1])
  }

  /** All buffers have at least the minimal size. */
  ghost predicate PipesOk(p: Pipes) {
    p.size >= MIN_PIPE_SIZE && forall n: nat :: n in p.pooled || n in p.out ==> n >= MIN_PIPE_SIZE
  }

  lemma {:induction false} ChangeKeepsOk(p: Pipes, op: PipeOp)
    requires PipesOk(p)
    ensures PipesOk(Change(p, op))
  {
    var q := Change(p, op);
    forall n: nat | n in q.pooled || n in q.out ensures n >= MIN_PIPE_SIZE {
      ChangeMovesOnly(p, op, n);
    }
  }

  /** Every length around was around before, or is that of a new buffer. */
  lemma {:induction false} ChangeMovesOnly(p: Pipes, op: PipeOp, n: nat)
    requires n in Change(p, op).pooled || n in Change(p, op).out
    ensures n in p.pooled || n in p.out || n == p.size
  {
    match op
    case Get(m) => assert n == m || n in p.pooled || n in p.out;
    case Put(m) => assert n == m || n in p.pooled || n in p.out;
    case Resize(_) =>
  }

  /** A copy never gets a buffer smaller than the minimum, so the loop always has room to read. */
  lemma {:induction false} PipesStayOk(p: Pipes, ops: seq<PipeOp>)
    requires PipesOk(p)
    ensures PipesOk(ChangeAll(p, ops))
    ensures forall n: nat :: MayGet(ChangeAll(p, ops), n) ==> n >= 256
  {
    if ops == [] {
    } else {
      PipesStayOk(p, ops[..|ops| - 1]);
      ChangeKeepsOk(ChangeAll(p, ops[..|ops| - 1]), ops[|ops| - 1]);
    }
  }

  ghost predicate NoResize(ops: seq<PipeOp>) {
    forall op :: op in ops ==> !op.Resize?
  }

  /** All buffers have size `n`, or a length that was in `was`. */
  ghost predicate OnlyOld(p: Pipes, n: int, was: multiset<nat>) {
    p.size == n && forall m: nat :: m in p.pooled || m in p.out ==> m == n || m in was
  }

  lemma {:induction false} ChangeKeepsOnlyOld(p: Pipes, op: PipeOp, n: int, was: multiset<nat>)
    requires OnlyOld(p, n, was) && !op.Resize?
    ensures OnlyOld(Change(p, op), n, was)
  {
    var q := Change(p, op);
    forall m: nat | m in q.pooled || m in q.out ensures m == n || m in was {
      ChangeMovesOnly(p, op, m);
    }
  }

  /** After a resize the only buffers of another size are those that were out at the time. */
  lemma {:induction false} OldSizesWereOut(p: Pipes, n: int, ops: seq<PipeOp>)
    requires n >= MIN_PIPE_SIZE && NoResize(ops)
    ensures OnlyOld(ChangeAll(Change(p, Resize(n)), ops), n, p.out)
  {
    if ops == [] {
    } else {
      OldSizesWereOut(p, n, ops[..|ops| - 1]);
      ChangeKeepsOnlyOld(ChangeAll(Change(p, Resize(n)), ops[..|ops| - 1]), ops[|ops| - 1], n, p.out);
    }
  }

  /**
   Buffers of an old size are documented as discarded when they come back after a resize. They are not: any length
   that was out can be had again, so exactly those and the new size are ever handed out.
   */
  lemma {:induction false} OldSizesComeBack(p: Pipes, n: int, m: nat)
    requires n >= MIN_PIPE_SIZE
    ensures (exists ops :: NoResize(ops) && MayGet(ChangeAll(Change(p, Resize(n)), ops), m)) <==>
            m == n || m in p.out
  {
    var q := Change(p, Resize(n));
    if exists ops :: NoResize(ops) && MayGet(ChangeAll(q, ops), m) {
      var ops :| NoResize(ops) && MayGet(ChangeAll(q, ops), m);
      OldSizesWereOut(p, n, ops);
    }
    if m == n {
      assert MayGet(ChangeAll(q, []), m);
    } else if m in p.out {
      var ops := [Put(m)];
      assert ops[..|ops| - 1] == [];
      assert ChangeAll(q, ops) == Change(q, Put(m));
      assert MayGet(ChangeAll(q, ops), m);
    }
  }

  /** The package-level atomics and the pipe buffers, with the operations made so far. */
  class Pools {
    var readerInUse: int
    var readerIdle: int
    var writerInUse: int
    var writerIdle: int
    var pipeInUse: int
    var pipeIdle: int
    var pipeSize: nat
    ghost var pipes: Pipes
    ghost var ops: seq<Op>

    ghost function Abs(): Counters
      reads this
    {
      Counters(readerInUse, readerIdle, writerInUse, writerIdle, pipeInUse, pipeIdle)
    }

    ghost predicate Valid()
      reads this
    {
      Abs() == CountAll(ops) && pipes.size == pipeSize && PipesOk(pipes)
    }

    ghost function Held(): Truth
      reads this
    {
      WitnessAll(ops)
    }

    constructor ()
      ensures Valid() && ops == [] && pipes == NEW_PIPES && pipeSize == 64 * 1024
    {
      pipeSize, pipes := DEFAULT_PIPE_SIZE, NEW_PIPES;
      readerInUse, readerIdle, writerInUse, writerIdle, pipeInUse, pipeIdle, ops := 0, 0, 0, 0, 0, 0, [];
    }

    method AcquireBufIOReader(reuse: bool)
      requires Valid()
      modifies this
      ensures pipes == old(pipes)
      ensures Valid() && ops == old(ops) + [AcquireReader(reuse)]
      ensures Held() == old(Held()).(readersHeld := old(Held().readersHeld) + 1, readersMade := Held().readersMade)
    {
      readerInUse := readerInUse + 1;
      if reuse {
        readerIdle := readerIdle - 1;
      }
      ops := ops + [AcquireReader(reuse)];
    }

    method ReleaseBufIOReader()
      requires Valid()
      modifies this
      ensures pipes == old(pipes)
      ensures Valid() && ops == old(ops) + [ReleaseReader]
      ensures Held() == old(Held()).(readersHeld := old(Held().readersHeld) - 1)
    {
      readerInUse := readerInUse - 1;
      readerIdle := readerIdle + 1;
      ops := ops + [ReleaseReader];
    }

    method AcquireBufIOWriter(reuse: bool)
      requires Valid()
      modifies this
      ensures pipes == old(pipes)
      ensures Valid() && ops == old(ops) + [AcquireWriter(reuse)]
      ensures Held() == old(Held()).(writersHeld := old(Held().writersHeld) + 1, writersMade := Held().writersMade)
    {
      if reuse {
        readerInUse := readerInUse + 1;
        readerIdle := readerIdle - 1;
      } else {
        writerInUse := writerInUse + 1;
      }
      ops := ops + [AcquireWriter(reuse)];
    }

    method ReleaseBufIOWriter()
      requires Valid()
      modifies this
      ensures pipes == old(pipes)
      ensures Valid() && ops == old(ops) + [ReleaseWriter]
      ensures Held() == old(Held()).(writersHeld := old(Held().writersHeld) - 1)
    {
      readerInUse := readerInUse - 1;
      readerIdle := readerIdle + 1;
      ops := ops + [ReleaseWriter];
    }

    method UpPipeCopy(ghost length: nat)
      requires Valid() && MayGet(pipes, length)
      modifies this
      ensures Valid() && ops == old(ops) + [AcquirePipe]
      ensures Held() == old(Held()).(pipesHeld := old(Held().pipesHeld) + 1)
      ensures pipes == Change(old(pipes), Get(length))
    {
      ChangeKeepsOk(pipes, Get(length));
      pipes := Change(pipes, Get(length));
      pipeInUse := pipeInUse + 1;
      pipeIdle := pipeIdle - 1;
      ops := ops + [AcquirePipe];
    }

    method DownPipeCopy(ghost length: nat)
      requires Valid() && length in pipes.out
      modifies this
      ensures Valid() && ops == old(ops) + [ReleasePipe]
      ensures Held() == old(Held()).(pipesHeld := old(Held().pipesHeld) - 1)
      ensures pipes == Change(old(pipes), Put(length))
    {
      ChangeKeepsOk(pipes, Put(length));
      pipes := Change(pipes, Put(length));
      pipeInUse := pipeInUse - 1;
      pipeIdle := pipeIdle + 1;
      ops := ops + [ReleasePipe];
    }

    /** Sizes below 256 are ignored; an accepted size is that of new buffers and discards the pooled ones. */
    method PipeCopyBufferSize(n: int) returns (accepted: bool)
      requires Valid()
      modifies this
      ensures Valid() && accepted == (n >= 256)
      ensures ops == if n >= 256 then old(ops) + [ResizePipes] else old(ops)
      ensures pipes == Change(old(pipes), Resize(n)) && pipeSize == if n >= 256 then n else old(pipeSize)
    {
      if n < 256 {
        return false;
      }
      ChangeKeepsOk(pipes, Resize(n));
      pipeSize, pipes := n, Change(pipes, Resize(n));
      pipeIdle := 0;
      ops := ops + [ResizePipes];
      return true;
    }
  }
}
