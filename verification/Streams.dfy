/** Byte streams that arrive in chunks: Go's io.Reader, for any source that keeps its contract. */
module Streams {

  newtype byte = x: int | 0 <= x < 256

  /** nil, io.EOF, or any other error. */
  datatype ReadError = NoError | Eof | Broken

  /** One answer of a reader: bytes and, perhaps together with them, an error. */
  datatype Chunk = Chunk(data: seq<byte>, err: ReadError)

  /**
   A source answers one Read after another from a script, then reports the end of the stream. A chunk longer
   than the caller's buffer is delivered in pieces, its error with the last one.
   */
  function SourceRead(script: seq<Chunk>, size: nat): (r: (seq<Chunk>, Chunk))
    ensures |r.1.data| <= size
  {
    if script == [] then ([], Chunk([], Eof))
    else if |script[0].data| > size then
      ([Chunk(script[0].data[size..], script[0].err)] + script[1..], Chunk(script[0].data[..size], NoError))
    else (script[1..], script[0])
  }

  /** All bytes of a script, in order. */
  function Bytes(script: seq<Chunk>): seq<byte> {
    if script == [] then [] else script[0].data + Bytes(script[1..])
  }

  lemma {:induction false} BytesConcat(a: seq<Chunk>, b: seq<Chunk>)
    ensures Bytes(a + b) == Bytes(a) + Bytes(b)
  {
    if a == [] {
      assert a + b == b;
    } else {
      BytesConcat(a[1..], b);
      assert (a + b)[1..] == a[1..] + b;
      assert a[0].data + (Bytes(a[1..]) + Bytes(b)) == a[0].data + Bytes(a[1..]) + Bytes(b);
    }
  }

  lemma {:induction false} BytesAppend(chunks: seq<Chunk>, c: Chunk)
    ensures Bytes(chunks + [c]) == Bytes(chunks) + c.data
  {
    BytesConcat(chunks, [c]);
    assert [c][1..] == [];
    assert Bytes([c]) == c.data + Bytes([c][1..]);
  }

  /** A Read takes its bytes off the front of the stream and loses none. */
  lemma {:induction false} SourceReadConserves(script: seq<Chunk>, size: nat)
    ensures var (rest, c) := SourceRead(script, size); c.data + Bytes(rest) == Bytes(script)
  {
    if script != [] && |script[0].data| > size {
      var rest := SourceRead(script, size).0;
      assert rest[1..] == script[1..];
      assert script[0].data[..size] + script[0].data[size..] == script[0].data;
    }
  }

  /** Reading a script with buffers of the given sizes. */
  function Answers(script: seq<Chunk>, sizes: seq<nat>): seq<Chunk>
    decreases sizes
  {
    if sizes == [] then []
    else
      var (rest, c) := SourceRead(script, sizes[0]);
      [c] + Answers(rest, sizes[1..])
  }

  /** What is left of a script after such Reads. */
  function Rest(script: seq<Chunk>, sizes: seq<nat>): seq<Chunk>
    decreases sizes
  {
    if sizes == [] then script else Rest(SourceRead(script, sizes[0]).0, sizes[1..])
  }

  lemma {:induction false} RestSnoc(script: seq<Chunk>, sizes: seq<nat>, size: nat)
    ensures Rest(script, sizes + [size]) == SourceRead(Rest(script, sizes), size).0
    decreases sizes
  {
    if sizes == [] {
      assert ([] + [size])[1..] == [];
    } else {
      RestSnoc(SourceRead(script, sizes[0]).0, sizes[1..], size);
      assert (sizes + [size])[1..] == sizes[1..] + [size];
    }
  }

  lemma {:induction false} AnswersSnoc(script: seq<Chunk>, sizes: seq<nat>, size: nat)
    ensures Answers(script, sizes + [size]) == Answers(script, sizes) + [SourceRead(Rest(script, sizes), size).1]
    decreases sizes
  {
    if sizes == [] {
      assert ([] + [size])[1..] == [];
    } else {
      AnswersSnoc(SourceRead(script, sizes[0]).0, sizes[1..], size);
      assert (sizes + [size])[1..] == sizes[1..] + [size];
    }
  }

  /** Scripts are general: any answers a reader may give to Reads of these sizes are the answers of a script. */
  lemma {:induction false} EveryReaderHasAScript(answers: seq<Chunk>, sizes: seq<nat>)
    requires |answers| == |sizes|
    requires forall i :: 0 <= i < |answers| ==> |answers[i].data| <= sizes[i]
    ensures Answers(answers, sizes) == answers
  {
    if sizes == [] {
    } else {
      EveryReaderHasAScript(answers[1..], sizes[1..]);
    }
  }

  /** A reader object that fills the caller's buffer. */
  class Source {
    var script: seq<Chunk>
    ghost var touches: nat

    constructor (script: seq<Chunk>)
      ensures this.script == script && touches == 0
    {
      this.script, touches := script, 0;
    }

    /** Reads into the first `size` elements of `p`; what lies beyond them stays as it was. */
    method Read(p: array<byte>, size: nat) returns (n: nat, err: ReadError)
      requires size <= p.Length
      modifies this, p
      ensures n <= size
      ensures (script, Chunk(p[..n], err)) == SourceRead(old(script), size)
      ensures p[size..] == old(p[size..])
      ensures touches == old(touches) + 1
    {
      var (rest, c) := SourceRead(script, size);
      n, err := |c.data|, c.err;
      forall i | 0 <= i < n {
        p[i] := c.data[i];
      }
      script, touches := rest, touches + 1;
      assert p[..n] == c.data;
    }
  }
}
