/** PipeCopy of internal/pool/bufio_pool.go: the request body, copied to the upstream through one reused buffer. */
module PipeCopy {
  import opened Streams
  import opened BufferPools

  /**
   What a destination does with one Write: takes everything, fails after some bytes, or, against the io.Writer
   contract, takes only some bytes and reports no error.
   */
  datatype Taking = Full | Fails(taken: nat) | Short(taken: nat)

  /** A destination: what it will do with the next Writes (afterwards it takes everything), and what it has got. */
  datatype Sink = Sink(plan: seq<Taking>, received: seq<byte>, lost: nat)

  datatype Outcome = Done | ReadFailed | WriteFailed

  function Taken(how: Taking, n: nat): (k: nat)
    ensures k <= n
  {
    if how.Full? || how.taken > n then n else how.taken
  }

  function SinkWrite(s: Sink, data: seq<byte>): (Sink, bool) {
    var how := if s.plan == [] then Full else s.plan[0];
    var k := Taken(how, |data|);
    (Sink(if s.plan == [] then [] else s.plan[1..], s.received + data[..k],
          s.lost + if how.Short? then |data| - k else 0),
     !how.Fails?)
  }

  ghost predicate Honest(s: Sink) {
    forall how :: how in s.plan ==> !how.Short?
  }

  /** What is left to read: every Read with room takes a byte or a chunk off it. */
  ghost function Left(script: seq<Chunk>): nat {
    |script| + |Bytes(script)|
  }

  lemma {:induction false} ReadShrinks(script: seq<Chunk>, size: nat)
    requires size >= 1 && script != []
    ensures Left(SourceRead(script, size).0) < Left(script)
  {
    SourceReadConserves(script, size);
  }

  /** One Write of what was read; a Read without bytes writes nothing. */
  function Put(dst: Sink, data: seq<byte>): (Sink, bool) {
    if data == [] then (dst, true) else SinkWrite(dst, data)
  }

  /** The whole copy as a function of the source, the destination and the buffer's size. */
  function Copy(script: seq<Chunk>, dst: Sink, size: nat): (Sink, Outcome)
    requires size >= 1
    decreases Left(script)
  {
    var (rest, c) := SourceRead(script, size);
    var (dst', ok) := Put(dst, c.data);
    if !ok then (dst', WriteFailed)
    else if c.err == Eof then (dst', Done)
    else if c.err == Broken then (dst', ReadFailed)
    else
      ReadShrinks(script, size);
      Copy(rest, dst', size)
  }

  /** The bytes a source offers before its first error, and that error. */
  function Payload(script: seq<Chunk>): seq<byte> {
    if script == [] then []
    else if script[0].err != NoError then script[0].data
    else script[0].data + Payload(script[1..])
  }

  function End(script: seq<Chunk>): ReadError {
    if script == [] then Eof
    else if script[0].err != NoError then script[0].err
    else End(script[1..])
  }

  lemma {:induction false} PayloadStep(script: seq<Chunk>, size: nat)
    ensures var (rest, c) := SourceRead(script, size);
            && Payload(script) == c.data + (if c.err == NoError then Payload(rest) else [])
            && End(script) == (if c.err == NoError then End(rest) else c.err)
  {
    if script != [] && |script[0].data| > size {
      var rest := SourceRead(script, size).0;
      var head, tail := script[0].data[..size], script[0].data[size..];
      assert script[0].data == head + tail;
      assert rest[1..] == script[1..];
      if script[0].err == NoError {
        assert head + tail + Payload(script[1..]) == head + (tail + Payload(script[1..]));
      }
    }
  }

  lemma {:induction false} PutFacts(dst: Sink, data: seq<byte>)
    ensures var (dst', ok) := Put(dst, data);
            && dst.received <= dst'.received <= dst.received + data
            && dst'.lost >= dst.lost
            && (Honest(dst) ==> Honest(dst') && dst'.lost == dst.lost)
            && (ok ==> |dst'.received| + dst'.lost == |dst.received| + dst.lost + |data|)
            && (ok && dst'.lost == dst.lost ==> dst'.received == dst.received + data)
  {
  }

  lemma {:induction false} PrefixChain(a: seq<byte>, data: seq<byte>, rest: seq<byte>, got: seq<byte>)
    requires a + data <= got <= a + data + rest
    ensures a <= got <= a + (data + rest)
    ensures got == a + data + rest ==> got == a + (data + rest)
  {
    assert a + data + rest == a + (data + rest);
  }

  /** What a copy into an honest destination achieves. */
  ghost predicate Faithful(script: seq<Chunk>, before: seq<byte>, after: seq<byte>, r: Outcome) {
    && before <= after <= before + Payload(script)
    && (r != WriteFailed ==> after == before + Payload(script) && End(script) == if r == Done then Eof else Broken)
  }

  /**
   Into a destination that keeps the io.Writer contract, PipeCopy writes a prefix of what the source offers; if no
   Write failed, all of it; and it returns nil only if the source ended with EOF.
   */
  lemma {:induction false} CopyIsFaithful(script: seq<Chunk>, dst: Sink, size: nat)
    requires size >= 1 && Honest(dst)
    ensures var (dst', r) := Copy(script, dst, size); Faithful(script, dst.received, dst'.received, r)
    decreases Left(script)
  {
    var (rest, c) := SourceRead(script, size);
    var (mid, ok) := Put(dst, c.data);
    PayloadStep(script, size);
    PutFacts(dst, c.data);
    if ok && c.err == NoError {
      ReadShrinks(script, size);
      CopyIsFaithful(rest, mid, size);
      PrefixChain(dst.received, c.data, Payload(rest), Copy(rest, mid, size).0.received);
    } else {
      assert dst.received + c.data <= dst.received + Payload(script);
    }
  }

  /** With writers that never fail or cheat, PipeCopy returns nil exactly when the source ends with EOF. */
  lemma {:induction false} CopySucceedsOnEof(script: seq<Chunk>, dst: Sink, size: nat)
    requires size >= 1 && forall how :: how in dst.plan ==> how.Full?
    ensures Copy(script, dst, size).1 == if End(script) == Eof then Done else ReadFailed
    decreases Left(script)
  {
    var (rest, c) := SourceRead(script, size);
    PayloadStep(script, size);
    if c.err == NoError {
      ReadShrinks(script, size);
      CopySucceedsOnEof(rest, Put(dst, c.data).0, size);
    }
  }

  /** PipeCopy ignores how much a Write took: bytes cut off without an error are lost, and only those. */
  lemma {:induction false} LostIsCounted(script: seq<Chunk>, dst: Sink, size: nat)
    requires size >= 1
    ensures var (dst', r) := Copy(script, dst, size);
            && dst'.lost >= dst.lost
            && (r == Done ==> |dst'.received| + dst'.lost == |dst.received| + dst.lost + |Payload(script)|)
    decreases Left(script)
  {
    var (rest, c) := SourceRead(script, size);
    PayloadStep(script, size);
    PutFacts(dst, c.data);
    if Put(dst, c.data).1 && c.err == NoError {
      ReadShrinks(script, size);
      LostIsCounted(rest, Put(dst, c.data).0, size);
    }
  }

  lemma {:induction false} NothingLostIsComplete(script: seq<Chunk>, dst: Sink, size: nat)
    requires size >= 1 && Copy(script, dst, size).1 == Done && Copy(script, dst, size).0.lost == dst.lost
    ensures Copy(script, dst, size).0.received == dst.received + Payload(script)
    decreases Left(script)
  {
    var (rest, c) := SourceRead(script, size);
    var mid := Put(dst, c.data).0;
    PayloadStep(script, size);
    PutFacts(dst, c.data);
    if c.err == NoError {
      ReadShrinks(script, size);
      LostIsCounted(rest, mid, size);
      NothingLostIsComplete(rest, mid, size);
      PrefixChain(dst.received, c.data, Payload(rest), mid.received + Payload(rest));
    }
  }

  /** For any destination: nil means the whole payload arrived exactly when no Write was cut short. */
  lemma {:induction false} NilIsCompleteIffNothingLost(script: seq<Chunk>, dst: Sink, size: nat)
    requires size >= 1 && Copy(script, dst, size).1 == Done
    ensures var dst' := Copy(script, dst, size).0;
            dst'.received == dst.received + Payload(script) <==> dst'.lost == dst.lost
  {
    LostIsCounted(script, dst, size);
    if Copy(script, dst, size).0.lost == dst.lost {
      NothingLostIsComplete(script, dst, size);
    }
  }

  // ---------- Exactly when a copy succeeds, and when it is complete ----------

  /** The lengths of the Writes a copy makes up to the source's first error, if none of them fails. */
  function Writes(script: seq<Chunk>, size: nat): seq<nat>
    requires size >= 1
    decreases Left(script)
  {
    var (rest, c) := SourceRead(script, size);
    ReadShrinksIfAny(script, size);
    (if c.data == [] then [] else [|c.data|]) + (if c.err == NoError then Writes(rest, size) else [])
  }

  lemma {:induction false} ReadShrinksIfAny(script: seq<Chunk>, size: nat)
    requires size >= 1
    ensures script != [] ==> Left(SourceRead(script, size).0) < Left(script)
  {
    if script != [] {
      ReadShrinks(script, size);
    }
  }

  /** One of these Writes returns an error. */
  ghost predicate SomeFails(plan: seq<Taking>, writes: seq<nat>) {
    exists i :: 0 <= i < |plan| && i < |writes| && plan[i].Fails?
  }

  /** One of these Writes takes less than it is given, and returns no error. */
  ghost predicate SomeCut(plan: seq<Taking>, writes: seq<nat>) {
    exists i :: 0 <= i < |plan| && i < |writes| && plan[i].Short? && plan[i].taken < writes[i]
  }

  lemma {:induction false} FirstWrite(plan: seq<Taking>, n: nat, writes: seq<nat>)
    requires plan != []
    ensures SomeFails(plan, [n] + writes) <==> plan[0].Fails? || SomeFails(plan[1..], writes)
    ensures SomeCut(plan, [n] + writes) <==> (plan[0].Short? && plan[0].taken < n) || SomeCut(plan[1..], writes)
  {
    var all := [n] + writes;
    assert all[0] == n;
    if SomeFails(plan[1..], writes) {
      var i :| 0 <= i < |plan[1..]| && i < |writes| && plan[1..][i].Fails?;
      assert plan[i + 1].Fails? && i + 1 < |all|;
    }
    if SomeCut(plan[1..], writes) {
      var i :| 0 <= i < |plan[1..]| && i < |writes| && plan[1..][i].Short? && plan[1..][i].taken < writes[i];
      assert plan[i + 1].Short? && plan[i + 1].taken < all[i + 1];
    }
    if SomeFails(plan, all) && !plan[0].Fails? {
      var i :| 0 <= i < |plan| && i < |all| && plan[i].Fails?;
      assert plan[1..][i - 1].Fails?;
    }
    if SomeCut(plan, all) && !(plan[0].Short? && plan[0].taken < n) {
      var i :| 0 <= i < |plan| && i < |all| && plan[i].Short? && plan[i].taken < all[i];
      assert plan[1..][i - 1].Short? && plan[1..][i - 1].taken < writes[i - 1];
    }
  }

  /** What one Write makes of the plan and of the loss. */
  lemma {:induction false} PutDecides(dst: Sink, data: seq<byte>, writes: seq<nat>)
    ensures var (mid, ok) := Put(dst, data);
            var all := (if data == [] then [] else [|data|]) + writes;
            && (SomeFails(dst.plan, all) <==> !ok || SomeFails(mid.plan, writes))
            && (ok ==> (SomeCut(dst.plan, all) <==> mid.lost > dst.lost || SomeCut(mid.plan, writes)))
  {
    if data == [] {
      assert [] + writes == writes;
    } else if dst.plan != [] {
      FirstWrite(dst.plan, |data|, writes);
    }
  }

  /** Whether a copy returns nil, and whether it loses bytes then, is decided by source, destination and size. */
  lemma {:induction false} CopyDecided(script: seq<Chunk>, dst: Sink, size: nat)
    requires size >= 1
    ensures var (dst', r) := Copy(script, dst, size);
            && (r == WriteFailed <==> SomeFails(dst.plan, Writes(script, size)))
            && (r == Done <==> End(script) == Eof && !SomeFails(dst.plan, Writes(script, size)))
            && (r == Done ==> (dst'.lost == dst.lost <==> !SomeCut(dst.plan, Writes(script, size))))
    decreases Left(script)
  {
    var (rest, c) := SourceRead(script, size);
    var (mid, ok) := Put(dst, c.data);
    PayloadStep(script, size);
    PutFacts(dst, c.data);
    PutDecides(dst, c.data, if c.err == NoError then Writes(rest, size) else []);
    if c.err == NoError {
      ReadShrinks(script, size);
      CopyDecided(rest, mid, size);
      LostIsCounted(rest, mid, size);
    }
  }

  /**
   PipeCopy returns nil with everything delivered exactly when the source ends with EOF and each Write it comes to
   reports no error and takes all it is given. Nothing here depends on the copy's result.
   */
  lemma {:induction false} CompleteIffAllTaken(script: seq<Chunk>, dst: Sink, size: nat)
    requires size >= 1
    ensures var (dst', r) := Copy(script, dst, size);
            var writes := Writes(script, size);
            && (r == Done <==> End(script) == Eof && !SomeFails(dst.plan, writes))
            && (r == WriteFailed <==> SomeFails(dst.plan, writes))
            && (r == Done && dst'.received == dst.received + Payload(script) <==>
                  End(script) == Eof && !SomeFails(dst.plan, writes) && !SomeCut(dst.plan, writes))
  {
    CopyDecided(script, dst, size);
    if Copy(script, dst, size).1 == Done {
      NilIsCompleteIffNothingLost(script, dst, size);
    }
  }

  /** A copy that loses a byte and returns nil. */
  lemma {:induction false} NilMayLoseBytes()
    ensures Copy([Chunk([1, 2], NoError)], Sink([Short(1)], [], 0), 8) == (Sink([], [1], 1), Done)
    ensures Payload([Chunk([1, 2], NoError)]) == [1, 2]
  {
    var script, dst := [Chunk([1, 2], NoError)], Sink([Short(1)], [], 0);
    var data: seq<byte> := [1, 2];
    assert script[1..] == [] && SourceRead(script, 8) == ([], script[0]);
    assert data[..1] == [1] && dst.received + data[..1] == [1] && dst.plan[1..] == [];
    assert Put(dst, data) == (Sink([], [1], 1), true);
    assert Copy([], Sink([], [1], 1), 8) == (Sink([], [1], 1), Done);
    assert Payload(script) == [1, 2] + Payload(script[1..]);
  }

  /**
   The buffer's size decides only how the bytes are cut: two successful copies write the same, and when no Write
   fails the whole result is the same.
   */
  lemma {:induction false} SizeDoesNotMatter(script: seq<Chunk>, dst: Sink, size: nat, other: nat)
    requires size >= 1 && other >= 1 && Honest(dst)
    ensures var (a, b) := (Copy(script, dst, size), Copy(script, dst, other));
            && (a.1 == Done && b.1 == Done ==> a.0.received == b.0.received)
            && ((forall how :: how in dst.plan ==> how.Full?) ==> a.1 == b.1 && a.0.received == b.0.received)
  {
    CopyIsFaithful(script, dst, size);
    CopyIsFaithful(script, dst, other);
    if forall how :: how in dst.plan ==> how.Full? {
      CopySucceedsOnEof(script, dst, size);
      CopySucceedsOnEof(script, dst, other);
    }
  }

  /** The upstream connection as the destination of a copy. */
  class Conn {
    var state: Sink

    constructor (state: Sink)
      ensures this.state == state
    {
      this.state := state;
    }

    /** How many bytes it took, and whether without an error. */
    method Write(p: array<byte>, n: nat) returns (taken: nat, ok: bool)
      requires n <= p.Length
      modifies this
      ensures (state, ok) == SinkWrite(old(state), p[..n])
      ensures taken == |state.received| - |old(state.received)|
    {
      var (next, fine) := SinkWrite(state, p[..n]);
      taken, ok := |next.received| - |state.received|, fine;
      state := next;
    }
  }

  /**
   The loop itself, over a buffer taken from the pool with whatever it last held. Source and destination end up
   exactly as the copy of the contents at the start says, and the pipe counters are moved up once and down once.
   */
  method Run(src: Source, dst: Conn, buf: array<byte>, pools: Pools) returns (r: Outcome)
    requires pools.Valid() && MayGet(pools.pipes, buf.Length)
    modifies src, dst, buf, pools
    ensures (dst.state, r) == Copy(old(src.script), old(dst.state), buf.Length)
    ensures pools.Valid() && pools.Held() == old(pools.Held())
    ensures pools.ops == old(pools.ops) + [AcquirePipe, ReleasePipe]
    ensures pools.pipes == Change(Change(old(pools.pipes), PipeOp.Get(buf.Length)), PipeOp.Put(buf.Length))
  {
    pools.UpPipeCopy(buf.Length);
    r := CopyLoop(src, dst, buf);
    pools.DownPipeCopy(buf.Length);
    assert pools.ops == old(pools.ops) + [AcquirePipe, ReleasePipe];
  }

  method CopyLoop(src: Source, dst: Conn, buf: array<byte>) returns (r: Outcome)
    requires buf.Length >= 1
    modifies src, dst, buf
    ensures (dst.state, r) == Copy(old(src.script), old(dst.state), buf.Length)
  {
    while true
      invariant Copy(src.script, dst.state, buf.Length) == Copy(old(src.script), old(dst.state), buf.Length)
      decreases Left(src.script)
    {
      ghost var before := src.script;
      var n, err := src.Read(buf, buf.Length);
      if n > 0 {
        var _, ok := dst.Write(buf, n);
        if !ok {
          return WriteFailed;
        }
      }
      if err == Eof {
        return Done;
      }
      if err != NoError {
        return ReadFailed;
      }
      ReadShrinks(before, buf.Length);
    }
  }
}
