/**
 Requests served one after another over one pooled connection. The body reader counts bytes above a bufio.Reader
 that reads ahead, and whatever that buffer still holds is thrown away when it is reset for the next request.
 */
module Alignment {
  import opened Streams
  import opened PoolReader
  import opened Protocol

  /**
   Bytes in the bufio.Reader, bytes the upstream sent that nobody has read from the socket, and the error a socket
   read came with that the bufio.Reader has not reported yet.
   */
  datatype Link = Link(buffered: seq<byte>, unread: seq<byte>, pending: ReadError)

  /** No byte is left over: the connection is on a message boundary. */
  predicate Clean(l: Link) {
    l.buffered == [] && l.unread == []
  }

  /** How many bytes one socket read hands over: some, unless there are none or it only fails. */
  function Granted(grant: nat, want: nat, there: nat, err: ReadError): (g: nat)
    requires want >= 1
    ensures g <= want && g <= there
    ensures g == 0 <==> there == 0 || (err != NoError && grant == 0)
    ensures 1 <= grant <= want && grant <= there ==> g == grant
  {
    var most := if want < there then want else there;
    if grant > most then most else if grant == 0 && err == NoError && most > 0 then 1 else grant
  }

  /**
   bufio.Reader.Read with a buffer of `capacity` bytes: buffered bytes first, then a kept error; otherwise one
   socket read, straight to the caller when the caller's buffer is at least as large. A socket read may fail at any
   time, with bytes or without; what was or will be sent stays to be read. An error that comes with bytes goes to the
   caller with them if they do, and is kept until the buffer is empty if they are buffered.
   */
  function BufRead(l: Link, capacity: nat, size: nat, grant: nat, err: ReadError): (Link, Chunk) {
    if l.buffered != [] then
      var k := if size < |l.buffered| then size else |l.buffered|;
      (l.(buffered := l.buffered[k..]), Chunk(l.buffered[..k], NoError))
    else if size == 0 || l.pending != NoError then (l.(pending := NoError), Chunk([], l.pending))
    else
      var g := Granted(grant, if size >= capacity then size else capacity, |l.unread|, err);
      var k := if size < g then size else g;
      if size >= capacity || g == 0 then (l.(unread := l.unread[g..]), Chunk(l.unread[..g], err))
      else (Link(l.unread[k..g], l.unread[g..], err), Chunk(l.unread[..k], NoError))
  }

  lemma {:induction false} BufReadConserves(l: Link, capacity: nat, size: nat, grant: nat, err: ReadError)
    ensures var (l', c) := BufRead(l, capacity, size, grant, err);
            c.data + (l'.buffered + l'.unread) == l.buffered + l.unread && |c.data| <= size
  {
  }

  /**
   An empty buffer is filled by one socket read of up to its capacity, and the caller gets what fits of that; a caller
   with as much room gets the socket read itself, and nothing is buffered.
   */
  lemma {:induction false} OneSocketRead(l: Link, capacity: nat, size: nat, grant: nat, err: ReadError)
    requires size >= 1 && l.buffered == [] && l.pending == NoError
    requires 1 <= grant <= |l.unread| && grant <= if size >= capacity then size else capacity
    ensures var (l', c) := BufRead(l, capacity, size, grant, err);
            && l'.unread == l.unread[grant..]
            && c.data == (if grant <= size then l.unread[..grant] else l.unread[..size])
            && l'.buffered == (if size >= capacity || grant <= size then [] else l.unread[size..grant])
  {
  }

  /** An error a socket read comes with goes to the caller at once, or is kept until the bytes before it are read. */
  lemma {:induction false} ErrorIsKept(l: Link, capacity: nat, size: nat, grant: nat, err: ReadError)
    requires size >= 1
    ensures var (l', c) := BufRead(l, capacity, size, grant, err);
            && (l.buffered != [] ==> c.err == NoError && c.data != [] && l'.pending == l.pending)
            && (l.buffered == [] && l.pending != NoError ==> c == Chunk([], l.pending) && l' == l.(pending := NoError))
            && (l.buffered == [] && l.pending == NoError ==>
                  if size >= capacity || c.data == [] then c.err == err && l'.pending == NoError
                  else c.err == NoError && l'.pending == err)
  {
  }

  /** A body being streamed. */
  datatype Body = Body(link: Link, reader: Reader)

  /** One Read of the client: its buffer, and the bytes or the error the socket answers with if it is asked. */
  datatype Pull = Pull(size: nat, grant: nat, err: ReadError)

  function BodyRead(b: Body, capacity: nat, p: Pull): (Body, Chunk)
    requires b.reader.remain >= 0
  {
    if b.reader.remain == 0 then (b, Chunk([], Eof))
    else
      var (l, c) := BufRead(b.link, capacity, Ask(b.reader, p.size), p.grant, p.err);
      (Body(l, AbsorbLimited(b.reader, c)), c)
  }

  /** A Read of the body is the reader's own Read, over a source that answers as the bufio.Reader does. */
  lemma {:induction false} BodyReadIsTheReaders(b: Body, capacity: nat, p: Pull)
    requires b.reader.remain >= 0
    ensures var a := BufRead(b.link, capacity, Ask(b.reader, p.size), p.grant, p.err).1;
            var (b', c) := BodyRead(b, capacity, p);
            var (r, d) := LimitStep(b.reader.(script := [a]), p.size);
            c == d && b'.reader == r.(script := b.reader.script)
  {
    BufReadConserves(b.link, capacity, Ask(b.reader, p.size), p.grant, p.err);
  }

  function Pulled(b: Body, capacity: nat, pulls: seq<Pull>): (r: Body)
    requires b.reader.remain >= 0
    ensures 0 <= r.reader.remain <= b.reader.remain
  {
    if pulls == [] then b
    else
      BufReadConservesIn(Pulled(b, capacity, Front(pulls)), capacity, Last(pulls));
      BodyRead(Pulled(b, capacity, Front(pulls)), capacity, Last(pulls)).0
  }

  lemma {:induction false} BufReadConservesIn(b: Body, capacity: nat, p: Pull)
    requires b.reader.remain >= 0
    ensures 0 <= BodyRead(b, capacity, p).0.reader.remain <= b.reader.remain
  {
    BufReadConserves(b.link, capacity, Ask(b.reader, p.size), p.grant, p.err);
  }

  /** The bytes the client got. */
  function Received(b: Body, capacity: nat, pulls: seq<Pull>): seq<byte>
    requires b.reader.remain >= 0
  {
    if pulls == [] then []
    else Received(b, capacity, Front(pulls)) +
         BodyRead(Pulled(b, capacity, Front(pulls)), capacity, Last(pulls)).1.data
  }

  /** Received, buffered and unread bytes together are always what there was, and `remain` counts the received. */
  lemma {:induction false} PullsConserve(b: Body, capacity: nat, pulls: seq<Pull>)
    requires b.reader.remain >= 0
    ensures var b', got := Pulled(b, capacity, pulls), Received(b, capacity, pulls);
            && got + (b'.link.buffered + b'.link.unread) == b.link.buffered + b.link.unread
            && |got| + b'.reader.remain == b.reader.remain
  {
    if pulls == [] {
    } else {
      PullsConserve(b, capacity, Front(pulls));
      var m, p := Pulled(b, capacity, Front(pulls)), Last(pulls);
      BufReadConserves(m.link, capacity, Ask(m.reader, p.size), p.grant, p.err);
      var (b', c) := BodyRead(m, capacity, p);
      var got, rest := Received(b, capacity, Front(pulls)), b'.link.buffered + b'.link.unread;
      assert got + c.data + rest == got + (c.data + rest);
    }
  }

  /** A Read failed while bytes of the body were still to come. */
  ghost predicate ReadFailed(b: Body, capacity: nat, pulls: seq<Pull>)
    requires b.reader.remain >= 0
  {
    pulls != [] &&
    var m := Pulled(b, capacity, Front(pulls));
    ReadFailed(b, capacity, Front(pulls)) ||
    (m.reader.remain > 0 && BodyRead(m, capacity, Last(pulls)).1.err != NoError)
  }

  /** The connection is released exactly when the body was drained or a Read failed. */
  lemma {:induction false} ReleasedIffDrainedOrFailed(b: Body, capacity: nat, pulls: seq<Pull>)
    requires b.reader.remain > 0 && !b.reader.returned && b.reader.settled == []
    ensures var r := Pulled(b, capacity, pulls).reader;
            && (r.settled == if r.returned then [Released] else [])
            && (r.returned <==> r.remain == 0 || ReadFailed(b, capacity, pulls))
  {
    if pulls == [] {
    } else {
      ReleasedIffDrainedOrFailed(b, capacity, Front(pulls));
    }
  }

  /** A Read with room for a byte delivers one while any is there and no read fails: so many Reads drain a body. */
  lemma {:induction false} PullsDrain(b: Body, capacity: nat, pulls: seq<Pull>)
    requires 0 <= b.reader.remain <= |b.link.buffered + b.link.unread| && b.link.pending == NoError
    requires forall p :: p in pulls ==> p.size >= 1 && p.err == NoError
    ensures Pulled(b, capacity, pulls).link.pending == NoError
    ensures Pulled(b, capacity, pulls).reader.remain == 0 ||
            Pulled(b, capacity, pulls).reader.remain <= b.reader.remain - |pulls|
  {
    if pulls == [] {
    } else {
      PullsDrain(b, capacity, Front(pulls));
      PullsConserve(b, capacity, Front(pulls));
    }
  }

  // ---------- Request after request ----------

  /** An upstream's answer: header bytes, the Content-Length they declare, and the bytes sent after them. */
  datatype Response = Response(header: seq<byte>, length: nat, payload: seq<byte>)

  /**
   One request: the answer, the size of the bufio.Reader it gets, how far the header read runs ahead into the body
   and the error it leaves unreported, and the client's Reads.
   */
  datatype Exchange = Exchange(response: Response, capacity: nat, ahead: nat, pending: ReadError, pulls: seq<Pull>)

  /**
   A fresh bufio.Reader reads the header off the socket: it consumes exactly the header's bytes and buffers up to
   `ahead` more. `wire` is what the socket held before the answer.
   */
  function AfterHeader(wire: seq<byte>, x: Exchange): Body {
    var all, h := wire + x.response.header + x.response.payload, |x.response.header|;
    var a := if x.ahead < |all| - h then x.ahead else |all| - h;
    Body(Link(all[h..h + a], all[h + a..], x.pending), Start([], x.response.length))
  }

  function Streamed(wire: seq<byte>, x: Exchange): Body {
    Pulled(AfterHeader(wire, x), x.capacity, x.pulls)
  }

  function ClientGot(wire: seq<byte>, x: Exchange): seq<byte> {
    Received(AfterHeader(wire, x), x.capacity, x.pulls)
  }

  /** What the socket holds for the next request: the buffered bytes are gone with the reset. */
  function WireAfter(wire: seq<byte>, xs: seq<Exchange>): seq<byte> {
    if xs == [] then wire else Streamed(WireAfter(wire, Front(xs)), Last(xs)).link.unread
  }

  /** The client read the body to its declared length. */
  ghost predicate Drained(wire: seq<byte>, x: Exchange) {
    Streamed(wire, x).reader.remain == 0
  }

  /** From a message boundary exactly the payload follows the header; any part of it may have been read ahead. */
  lemma {:induction false} HeaderLeavesPayload(x: Exchange)
    ensures var l, payload := AfterHeader([], x).link, x.response.payload;
            && l.buffered + l.unread == payload && l.pending == x.pending
            && (x.ahead <= |payload| ==> l.buffered == payload[..x.ahead])
  {
    var all, h := [] + x.response.header + x.response.payload, |x.response.header|;
    assert all[h..] == x.response.payload;
    assert forall k :: 0 <= k <= |x.response.payload| ==> all[h..h + k] == x.response.payload[..k];
  }

  lemma {:induction false} Splits(a: seq<byte>, b: seq<byte>, whole: seq<byte>)
    requires a + b == whole
    ensures a == whole[..|a|] && b == whole[|a|..]
  {
  }

  /** However the body was read, exactly the payload's undelivered rest is in the buffer and on the socket. */
  lemma {:induction false} RestStaysBehind(x: Exchange)
    ensures var b, payload := Streamed([], x), x.response.payload;
            var got := x.response.length - b.reader.remain;
            && 0 <= got <= |payload|
            && ClientGot([], x) == payload[..got]
            && b.link.buffered + b.link.unread == payload[got..]
  {
    PullsConserve(AfterHeader([], x), x.capacity, x.pulls);
    HeaderLeavesPayload(x);
    var l := Streamed([], x).link;
    Splits(ClientGot([], x), l.buffered + l.unread, x.response.payload);
  }

  /**
   From a message boundary, draining a body of declared length n gives the client the first n payload bytes,
   and exactly the payload's rest is left behind.
   */
  lemma {:induction false} DrainSplitsPayload(x: Exchange)
    requires Drained([], x)
    ensures var l, n, payload := Streamed([], x).link, x.response.length, x.response.payload;
            && n <= |payload|
            && ClientGot([], x) == payload[..n]
            && l.buffered + l.unread == payload[n..]
  {
    RestStaysBehind(x);
  }

  /** A drained connection goes back on a message boundary exactly when the payload had its declared length. */
  lemma {:induction false} BoundaryIffDeclared(x: Exchange)
    requires x.response.length > 0 && Drained([], x)
    ensures Streamed([], x).reader.settled == [Released]
    ensures Clean(Streamed([], x).link) <==> |x.response.payload| == x.response.length
  {
    DrainSplitsPayload(x);
    ReleasedIffDrainedOrFailed(AfterHeader([], x), x.capacity, x.pulls);
    var l := Streamed([], x).link;
    assert l.buffered + l.unread == [] <==> Clean(l);
  }

  /**
   Every Release of a body of positive length, drained or not: it happens exactly when the body was drained or a
   Read failed; the connection is then on a message boundary exactly when the client got the whole payload; and if
   the upstream keeps its word about the length, exactly when the body was drained.
   */
  lemma {:induction false} BoundaryAtRelease(x: Exchange)
    requires x.response.length > 0
    ensures var b := Streamed([], x);
            && (b.reader.settled == [Released] <==>
                  Drained([], x) || ReadFailed(AfterHeader([], x), x.capacity, x.pulls))
            && (Clean(b.link) <==> ClientGot([], x) == x.response.payload)
            && (|x.response.payload| == x.response.length ==>
                  (Clean(b.link) <==> Drained([], x)))
  {
    RestStaysBehind(x);
    ReleasedIffDrainedOrFailed(AfterHeader([], x), x.capacity, x.pulls);
    var l := Streamed([], x).link;
    assert l.buffered + l.unread == [] <==> Clean(l);
  }

  /** The next request finds on the socket what was neither delivered nor read ahead: exactly the payload's tail. */
  lemma {:induction false} NextFindsTheTail(x: Exchange)
    ensures var b, payload := Streamed([], x), x.response.payload;
            var taken := x.response.length - b.reader.remain + |b.link.buffered|;
            && 0 <= taken <= |payload|
            && WireAfter([], [x]) == payload[taken..]
            && (WireAfter([], [x]) == [] <==> taken == |payload|)
  {
    RestStaysBehind(x);
    var b, payload := Streamed([], x), x.response.payload;
    assert Front([x]) == [] && WireAfter([], []) == [];
    var got := x.response.length - b.reader.remain;
    assert b.link.unread == payload[got..][|b.link.buffered|..];
  }

  /** A failed Read puts a connection back with a body still on its way: the next request reads it as an answer. */
  lemma {:induction false} LateBytesReachTheNext()
    ensures var x := Exchange(Response([9], 2, [1, 2]), 16, 0, NoError, [Pull(8, 0, Broken)]);
            && Streamed([], x).reader.settled == [Released]
            && |x.response.payload| == x.response.length
            && WireAfter([], [x]) == [1, 2]
  {
    var x := Exchange(Response([9], 2, [1, 2]), 16, 0, NoError, [Pull(8, 0, Broken)]);
    var b := AfterHeader([], x);
    assert b.link == Link([], [1, 2], NoError);
    assert Front(x.pulls) == [] && Pulled(b, 16, []) == b;
    assert Streamed([], x) == BodyRead(b, 16, Last(x.pulls)).0;
    NextFindsTheTail(x);
  }

  /** So does whatever an upstream sends past its declared length, with no error anywhere. */
  lemma {:induction false} SurplusReachesTheNext()
    ensures var x := Exchange(Response([9], 1, [1, 2]), 16, 0, NoError, [Pull(8, 1, NoError)]);
            && Streamed([], x).reader.settled == [Released]
            && ClientGot([], x) == [1]
            && WireAfter([], [x]) == [2]
  {
    var x := Exchange(Response([9], 1, [1, 2]), 16, 0, NoError, [Pull(8, 1, NoError)]);
    var b := AfterHeader([], x);
    assert b.link == Link([], [1, 2], NoError);
    assert Front(x.pulls) == [] && Pulled(b, 16, []) == b;
    assert Streamed([], x) == BodyRead(b, 16, Last(x.pulls)).0;
    RestStaysBehind(x);
    NextFindsTheTail(x);
  }

  /** The client got exactly the payload, and the connection went back once, with nothing left on it. */
  ghost predicate Faithful(wire: seq<byte>, x: Exchange) {
    && ClientGot(wire, x) == x.response.payload
    && Streamed(wire, x).reader.settled == [Released]
    && Clean(Streamed(wire, x).link)
  }

  lemma {:induction false} AlignedIsFaithful(x: Exchange)
    requires |x.response.payload| == x.response.length > 0 && Drained([], x)
    ensures Faithful([], x)
  {
    DrainSplitsPayload(x);
    BoundaryIffDeclared(x);
  }

  /**
   If every answer so far has exactly its declared positive length and is drained, the connection is on a message
   boundary before request i and client i gets exactly body i, however the reads and the read-ahead fall.
   */
  lemma {:induction false} ReuseStaysAligned(xs: seq<Exchange>, i: nat)
    requires i < |xs|
    requires forall k :: 0 <= k <= i ==> |xs[k].response.payload| == xs[k].response.length > 0
    requires forall k :: 0 <= k <= i ==> Drained(WireAfter([], xs[..k]), xs[k])
    ensures WireAfter([], xs[..i]) == []
    ensures Faithful([], xs[i])
  {
    if i == 0 {
    } else {
      ReuseStaysAligned(xs, i - 1);
      assert Front(xs[..i]) == xs[..i - 1] && Last(xs[..i]) == xs[i - 1];
    }
    assert Drained(WireAfter([], xs[..i]), xs[i]);
    AlignedIsFaithful(xs[i]);
  }

  /**
   An upstream that keeps its word and a client that reads on, in terms of what each of them does: as many Reads as
   the length, each with room for a byte, and no failing socket read.
   */
  ghost predicate Polite(x: Exchange) {
    && |x.response.payload| == x.response.length > 0 && x.pending == NoError
    && |x.pulls| >= x.response.length && forall p :: p in x.pulls ==> p.size >= 1 && p.err == NoError
  }

  lemma {:induction false} PoliteIsDrained(x: Exchange)
    requires Polite(x)
    ensures Drained([], x)
  {
    var b := AfterHeader([], x);
    HeaderLeavesPayload(x);
    PullsDrain(b, x.capacity, x.pulls);
  }

  /** Between polite parties every request over one connection gets its own body, and every Release is on a boundary. */
  lemma {:induction false} PoliteStaysAligned(xs: seq<Exchange>, i: nat)
    requires i < |xs|
    requires forall k :: 0 <= k <= i ==> Polite(xs[k])
    ensures WireAfter([], xs[..i]) == []
    ensures Faithful([], xs[i])
  {
    PoliteIsDrained(xs[i]);
    AlignedIsFaithful(xs[i]);
    if i == 0 {
    } else {
      PoliteStaysAligned(xs, i - 1);
      assert Front(xs[..i]) == xs[..i - 1] && Last(xs[..i]) == xs[i - 1];
    }
  }
}
