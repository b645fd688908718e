# The life cycle of an upstream connection

A Dafny model of how the proxy leases, uses, streams from and gives back its connections to an upstream:

- `Protocol.dfy`: the pool of one address as a step machine. Any number of goroutines, each with a program counter,
  take the atomic steps of `AcquireUpstreamConnection`, `dialNew`, `ReleaseUpstreamConnection` and
  `CloseAndDropUpstreamConnection` in any order. The lock, the atomic counter, the closing of sockets and the reading
  of the clock are separate steps, in the order of the source (the stale path closes first and decrements after;
  `CloseAndDrop` decrements under the lock and closes after unlocking). A schedule is any sequence of actions, so a
  statement about every schedule is one about every interleaving.
- `ProtocolSafety.dfy`, `ProtocolTheorems.dfy`, `DialRaces.dfy`, `Overflow.dfy`, `ReturnTimes.dfy`: what every schedule
  keeps, who owns what, progress, how far racing dials can overshoot the limit, when Release closes what it is given,
  and that the times on the stack are those of the returns.
- `Sequential.dfy`, `Refinement.dfy`, `UpstreamPool.dfy`: the pool call by call, the proof that the step machine with
  one goroutine refines it, and the pool as objects updated in place, tied to the same functions.
- `Streams.dfy`, `PoolReader.dfy`: byte sources that answer in chunks, and the body reader over any of them.
- `Alignment.dfy`: requests one after another over one connection, with a `bufio.Reader` that reads ahead.
- `BufferPools.dfy`, `PipeCopy.dfy`: the buffer counters, and the copy loop over a reused buffer.
- `Handler.dfy`: one request, phase by phase, over the pool, the reader and the buffers as objects.
- `System.dfy`, `SystemSafety.dfy`, `SystemTheorems.dfy`, `Settlement.dfy`, `SlotLeak.dfy`: the proxy as a whole, many goroutines serving
  many addresses. Seen from the pool of any address a run of the proxy is a run of the pool protocol, so the
  protocol's assumption that clients give back only what they lease is discharged by the handler and the reader.
- `EndToEnd.dfy`: the same proxy with the bytes on its connections.
- `Limits.dfy`, `Sums.dfy`: the configuration, and sums over goroutines.

What the network, the peer, the garbage collector and the random generator do is a parameter of every statement:
whether a dial succeeds, what a Read returns, how much of a Write is taken, whether `sync.Pool` has an object, which
upstream is picked. The clock is an integer that only grows. Every lemma carries `{:induction false}`: all inductions
are written out.

## Where the code and its documentation part

The model follows the code; each line names the member that states the difference.

- A body with Content-Length 0 never gives its connection back, although the type comment of `PoolReader` promises the
  return for every `remain >= 0` (`PoolReader.ZeroLengthNeverSettles`). Every such answer takes a slot of the counter
  for good. Once unsettled bodies take all slots and no idle connection is fresh, no request for the address ever owns
  a connection again; with a slot left or a fresh idle connection one still can (`SlotLeak.CanServeAgainIff`). As many
  empty answers as the limit, one after another with nothing else idle, get there (`SlotLeak.EmptyAnswersExhaust`).
- An error before the declared length still puts the connection back on the stack, so an idle connection need not be
  alive; `PoolReader.SettlesOnce` says exactly which call a reader makes. A caller that reads on after such an error
  reads a connection that is no longer its own (`PoolReader.CarelessCallerTouches`), and the rest of the body may be
  what the next request finds on the socket (`Alignment.LateBytesReachTheNext`), as is what an upstream sends past its
  declared length, with no error at all (`Alignment.SurplusReachesTheNext`); the connection goes back on a message
  boundary exactly when the client got the whole payload (`Alignment.BoundaryAtRelease`).
- A failed read of the response headers drops the connection but keeps the `bufio.Reader`
  (`Handler.Handler.ReadResponseHeaders`, `SystemTheorems.BuffersAtRest`).
- The counters of `bufio` objects in use are documented as exact. `metricsBufIOWriter` moves the reader's counters, so
  either is exact only while every writer ever made is held (`BufferPools.InUseExactness`).
- `PipeCopy` ignores how much a Write took: a destination that takes less and reports no error loses bytes although
  nil is returned (`PipeCopy.NilMayLoseBytes`). `PipeCopy.CompleteIffAllTaken` says exactly when nil means complete.
- Pipe buffers of an old size are said to be discarded when they come back after a change of the size. They go into
  the new pool, and exactly those that were out may be handed out again (`BufferPools.OldSizesComeBack`).
- The setter takes every maximum from 1 up, but `dialNew` compares with its low 32 bits as a signed number; a maximum
  of 2^31 refuses every connection (`DialRaces.UsableIffLimitPositive`).
- The maximum bounds `count` only while dials do not overlap (`DialRaces.NoOvershootAlone`); with more goroutines the
  overshoot is exactly the number of dialers less one (`DialRaces.CountBound`, `DialRaces.CountBoundIsTight`).
- An upstream address that does not parse sets 400 and the request goes on. That status never reaches the client: what
  the client sees does not depend on whether the address parses (`Handler.Handler.Handle`).
- Without a configured list the Host of the request is said to decide. The first request fills the list, so its Host
  decides for all later ones (`Handler.FirstHostSticks`).
- The setters say that existing pools keep the values they were made with; the code reads the package variables anew on
  every call. The model holds them fixed, where the two agree.

## Model

| member | source | states |
|---|---|---|
| ProtocolSafety.Safety | internal/pool/upstream_pool.go:18-89 | after every schedule of any number of goroutines: each open socket has one owner, a closed one none; `count` equals its ledger; only the holder of `mu` is in a critical section; the stack is sorted by time of return and not over the maximum |
| ProtocolSafety.StepExclusive | internal/pool/upstream_pool.go:22-47 | one instruction of any goroutine keeps exclusive ownership of every connection, by itself |
| ProtocolSafety.StepLedger | internal/pool/upstream_pool.go:34-38 | one instruction of any goroutine keeps `count` equal to the idle connections plus every goroutine's share |
| ProtocolSafety.StepLocked | internal/pool/upstream_pool.go:56-57 | one instruction of any goroutine keeps mutual exclusion |
| ProtocolSafety.StackIsGuarded | internal/pool/upstream_pool.go:22-26 | a step that changes the stack is a step of the goroutine that holds `mu` |
| ProtocolSafety.StepOrdered | internal/pool/upstream_pool.go:68-71 | the stack stays sorted by `returnedAt`, none of them after the clock, and within the maximum, although the time stamp and the push are separate steps |
| ReturnTimes.IdleSinceReturned | internal/pool/upstream_pool.go:68-71 | after every schedule, each idle connection's `returnedAt` is what the clock showed when the Release that put it there stamped it, and it has been on the stack ever since its push |
| ProtocolTheorems.CountLedger | internal/pool/pool.go:84-97 | in every interleaving `count` is exactly idle + leased + inspecting a popped one + stale not decremented + dialing + failed dial not decremented |
| ProtocolTheorems.SocketLedger | internal/pool/upstream_pool.go:34-38 | open sockets plus those counted without a socket equal `count` plus those decremented but not yet closed |
| ProtocolTheorems.OpenSocketBound | internal/pool/upstream_pool.go:76-89 | open sockets never exceed `count` plus the goroutines that have decremented and not yet closed |
| ProtocolTheorems.IdleOnce | internal/pool/upstream_pool.go:68-71 | no connection is on the stack twice |
| ProtocolTheorems.OwnedByOne | internal/pool/upstream_pool.go:22-47 | a connection a goroutine leases or works on is open, is not idle, is had by it once, and by no other goroutine at all |
| ProtocolTheorems.ClosedForever | internal/pool/upstream_pool.go:76-89 | once closed, a connection stays closed and is never idle, leased or in anyone's hands again, however the run goes on |
| ProtocolTheorems.RemembersTheStack | internal/pool/upstream_pool.go:22-26 | the stack an Acquire decides on is the pool's at the instant this very call popped: the goroutine carries it in every state since |
| ProtocolTheorems.TopDecides | internal/pool/upstream_pool.go:23-43 | Acquire reuses a connection exactly when some connection of the stack it popped from has been idle for no longer than the timeout by the clock, and then one returned last; otherwise it closes the one it popped |
| ProtocolTheorems.ThreadProgresses | internal/pool/upstream_pool.go:18-89 | an instruction either waits for a taken `mu` and changes nothing, or brings its call nearer to its end |
| ProtocolTheorems.CallsEnd | internal/pool/upstream_pool.go:18-89 | the calls under way take a bounded number of effective instructions together, in every interleaving |
| ProtocolTheorems.NoDeadlock | internal/pool/upstream_pool.go:56-57 | while a call is unfinished some goroutine can execute an instruction |
| ProtocolTheorems.EveryCallCanEnd | internal/pool/upstream_pool.go:18-89 | from every reachable state, whatever the dials do, some schedule of at most the instructions left ends every call |
| DialRaces.CountBound | internal/pool/pool.go:85-89 | with at most `peak` goroutines inside dialNew at a time, `count` plus those past the check never exceeds limit - 1 + peak |
| DialRaces.CountBoundIsTight | internal/pool/pool.go:85-89 | for every positive limit and every number of goroutines a concrete schedule reaches limit - 1 + goroutines |
| DialRaces.NoOvershootAlone | internal/pool/pool.go:85-89 | if dials never overlap the configured maximum is kept, whatever else overlaps |
| DialRaces.OverflowMeansOvershoot | internal/pool/upstream_pool.go:59-66 | a Release finds the stack full only while `count` is over the maximum |
| DialRaces.OverflowNeedsOverlap | internal/pool/upstream_pool.go:59-66 | if dials never overlap the branch of Release that closes on a full stack is unreachable |
| Overflow.TwoDialsOverflow | internal/pool/pool.go:85-89 | for every limit a schedule of two goroutines, never more than two dialing, makes Release find the stack full |
| Overflow.OverflowIffOverlap | internal/pool/upstream_pool.go:59-66 | with at most `peak` goroutines dialing at a time the branch of Release that closes on a full stack is reachable if and only if `peak` is at least two |
| DialRaces.CountFitsInt32 | internal/pool/pool.go:23 | `count` is never negative and fits its int32 while limit - 1 + peak does |
| DialRaces.TruncatedLimitRefusesAll | internal/pool/pool.go:85-87 | with a maximum that is not positive as an int32 nobody ever passes the check and no connection is ever opened |
| DialRaces.UsableIffLimitPositive | internal/pool/pool.go:85-87 | some run has a connection counted if and only if the maximum is positive as an int32 |
| DialRaces.TwoToThe31IsUnusable | internal/pool/pool.go:85 | 2^31 is accepted and unusable, and no smaller accepted maximum is |
| Limits.ToInt32 | internal/pool/pool.go:85 | the conversion lands in the int32 range, is the identity there, and never raises a non-negative number |
| Limits.ToInt32KeepsLowBits | internal/pool/pool.go:85 | the conversion changes a number by a multiple of 2^32 only |
| Limits.DialLimitMeetsMax | internal/pool/pool.go:85 | the limit dialNew uses is the configured one if and only if that is below 2^31, and never more |
| Limits.Settings.MaxConnectionsPerHost | internal/pool/pool.go:49-55 | values below 1 are ignored, all others taken; the configuration stays valid |
| Limits.Settings.IdleTimeout | internal/pool/pool.go:74-80 | values below a second are ignored, all others taken; the configuration stays valid |
| Sequential.CallsKeep | internal/pool/upstream_pool.go:18-89 | after any sequence of whole calls `count` is idle plus leased and within the limit, and every open connection is idle or leased, once |
| Sequential.AcquireInFull | internal/pool/upstream_pool.go:22-47 | the whole result of an Acquire, from the clock, the counter and the configured numbers: a top idle for at most the timeout, exactly the timeout included, is reused; otherwise it is closed and uncounted and one dial is made if a slot is left |
| Sequential.NoRefusalWhileIdle | internal/pool/upstream_pool.go:29-41 | with something idle an Acquire is never refused; its only error is the dial's, which costs just the stale connection dropped |
| Sequential.ReleaseAlwaysKeeps | internal/pool/upstream_pool.go:59-71 | without overlapping calls a Release always pushes the connection and closes nothing |
| Refinement.OneGoroutineRefines | internal/pool/upstream_pool.go:18-89 | at every instruction of every schedule of one goroutine, the calls logged step by step explain the shared state up to the call in progress |
| Refinement.LogIsWhatWasCalled | internal/pool/upstream_pool.go:18-89 | the log is, call for call and connection for connection, what the goroutine began, but for the one call it may be in |
| Refinement.BetweenCallsAgrees | internal/pool/upstream_pool.go:18-89 | between calls the step machine's state and last result are those of the calls it made, one logged call for each begun, in order |
| ReturnTimes.LogTimesAreRead | internal/pool/upstream_pool.go:29-71 | the time of each logged call is the clock at the instruction of that very call that read it: the idle test of an Acquire, the stamp of a Release |
| UpstreamPool.ConnPool.DialNew | internal/pool/pool.go:84-97 | the object's new state and result are the specification's, in each of refused, failed and connected |
| UpstreamPool.ConnPool.Acquire | internal/pool/upstream_pool.go:22-47 | a top idle for at most the timeout is popped and returned, open and counted as before; one idle longer is popped and closed, and a dial made; the full new state is as specified |
| UpstreamPool.ConnPool.Release | internal/pool/upstream_pool.go:56-71 | the connection is pushed with its time, or closed and uncounted when the stack is full |
| UpstreamPool.ConnPool.CloseAndDrop | internal/pool/upstream_pool.go:86-88 | the connection is closed and uncounted, the stack untouched |
| UpstreamPool.Upstreams.LoadOrStore | internal/pool/upstream_pool.go:19-20 | the pool of an address is made once and found again; no two addresses share one |
| UpstreamPool.Upstreams.Acquire | internal/pool/upstream_pool.go:18-48 | only the pool of the named address changes, as specified |
| UpstreamPool.Upstreams.Release | internal/pool/upstream_pool.go:52-72 | only the pool of the named address changes, as specified |
| UpstreamPool.Upstreams.CloseAndDrop | internal/pool/upstream_pool.go:76-89 | only the pool of the named address changes, as specified |
| UpstreamPool.SoundAcquire | internal/pool/upstream_pool.go:18-48 | every address's invariant survives an Acquire; what it returns is leased; it does not refuse while something is idle |
| UpstreamPool.SoundRelease | internal/pool/upstream_pool.go:52-72 | every address's invariant survives a Release of a leased connection |
| UpstreamPool.SoundDrop | internal/pool/upstream_pool.go:76-89 | every address's invariant survives a drop of a leased connection |
| UpstreamPool.KeptOrClosed | internal/pool/upstream_pool.go:52-89 | a Release leaves the connection open, on top of the stack with its time and counted; a drop closes and uncounts it and leaves the stack alone |
| PoolReader.SettlesOnce | internal/readers/pool_reader.go:57-108 | over every run and source: at most one settlement, as many onDone calls; one exactly when the length is not 0 and the body was read to its limit or an error; Release for a length, CloseAndDrop without |
| PoolReader.ZeroLengthNeverSettles | internal/readers/pool_reader.go:58-60 | a reader of length 0 never changes at all |
| PoolReader.PassesOn | internal/readers/pool_reader.go:94-108 | without a length every Read passes on exactly the bytes and the error of its source, asked for as much as the caller wants |
| PoolReader.NoCallbackNoCall | internal/readers/pool_reader.go:72-74 | without an onDone all else is the same and nothing is called |
| PoolReader.SettlingKeepsOrCloses | internal/readers/pool_reader.go:69-101 | a reader that settles by Release leaves its connection open and on top of its address's stack, one that drops leaves it closed; no other address changes |
| PoolReader.RefinesLimitReader | internal/readers/pool_reader.go:50-90 | with a length, results, errors and the source's position are those of io.LimitReader, Read for Read |
| PoolReader.ConservesBytes | internal/readers/pool_reader.go:65-66 | delivered bytes plus the source's rest are the stream; delivered plus `remain` is the declared length, never past it |
| PoolReader.NoTouchAfterLimit | internal/readers/pool_reader.go:58-75 | at the limit no later Read changes the reader or its source, whatever the caller does |
| PoolReader.NoTouchBeforeError | internal/readers/pool_reader.go:77-89 | a caller that has seen no error never reaches the source after the settlement |
| PoolReader.TouchesAfterSettling | internal/readers/pool_reader.go:77-89 | after the settlement a Read reaches the source if and only if bytes remained, and only a caller that saw an error can be there |
| PoolReader.CarelessCallerTouches | internal/readers/pool_reader.go:78-84 | such a Read exists after a Release |
| PoolReader.PoolReader.constructor | internal/readers/pool_reader.go:33-41 | a reader starts unsettled, leasing its connection |
| PoolReader.PoolReader.SettleAs | internal/readers/pool_reader.go:69-84 | one settlement makes one pool call for the reader's own address and connection, and one onDone call if there is one |
| PoolReader.PoolReader.GiveBack | internal/readers/pool_reader.go:71-80 | the pool call of a settlement: Release or CloseAndDrop, for the reader's own address and connection |
| PoolReader.PoolReader.Read | internal/readers/pool_reader.go:43-48 | result, buffer, reader and pools change as the specification's step; the buffer beyond `remain` is untouched; the pools move only if the reader settled |
| PoolReader.PoolReader.ReadWithLimit | internal/readers/pool_reader.go:57-90 | the same for a declared length, though limit and error may come together |
| PoolReader.PoolReader.ReadUntilEOF | internal/readers/pool_reader.go:94-108 | the same without a length: any error drops the connection once |
| Streams.EveryReaderHasAScript | internal/readers/pool_reader.go:65 | any answers an io.Reader may give are those of a script, so statements over scripts are over all finite readers |
| Alignment.BoundaryAtRelease | internal/readers/pool_reader.go:68-84 | every Release, drained or not, with errors alone or together with bytes: it happens exactly when the body was drained or a Read failed; no byte is left over exactly when the client got the whole payload, which for a payload of its declared length is exactly when the body was drained |
| Alignment.BoundaryIffDeclared | internal/proxy/handler.go:226-231 | a drained body is released once, and the connection is on a message boundary if and only if the payload had its declared length |
| Alignment.ReleasedIffDrainedOrFailed | internal/readers/pool_reader.go:68-84 | over a buffered connection, a body of positive length is released, once, exactly when drained or when a Read failed before that |
| Alignment.NextFindsTheTail | internal/pool/bufio_pool.go:118-119 | after any reading the next request finds exactly the payload's tail that was neither delivered nor read ahead |
| Alignment.LateBytesReachTheNext | internal/readers/pool_reader.go:77-84 | a failed Read releases a connection on which a whole body is still to come |
| Alignment.SurplusReachesTheNext | internal/readers/pool_reader.go:68-75 | bytes past the declared length are what the next request finds, with no error anywhere |
| Alignment.DrainSplitsPayload | internal/readers/pool_reader.go:61-66 | a drained body delivers the first n payload bytes and leaves exactly the rest, split between buffer and socket |
| Alignment.OneSocketRead | internal/proxy/handler.go:191 | an empty buffered reader makes one socket read, of up to its capacity or, for a caller with as much room, straight to the caller |
| Alignment.ErrorIsKept | internal/proxy/handler.go:191 | an error a socket read comes with is reported once, after the bytes that came before it |
| Alignment.BodyReadIsTheReaders | internal/proxy/handler.go:227-231 | a Read over the buffered connection is PoolReader's Read over a source that answers as the buffered reader does |
| Alignment.ReuseStaysAligned | internal/proxy/handler.go:190-235 | if answers have their declared positive length and are drained, client i gets exactly body i and every Release is on a boundary, however reads, read-ahead and the size of each buffer fall (section 6.3 of RFC 9112) |
| Alignment.PoliteStaysAligned | internal/proxy/handler.go:190-235 | the same from what the parties do: answers of their declared positive length, as many Reads with room as that, and no failing socket read |
| Alignment.PullsDrain | internal/readers/pool_reader.go:57-90 | Reads with room make progress unless a socket read fails, so a body whose bytes are there is drained after as many Reads as its length |
| PipeCopy.CopyIsFaithful | internal/pool/bufio_pool.go:206-219 | into an honest destination a copy writes a prefix of what the source offers, all of it unless a Write failed, and returns nil only at EOF |
| PipeCopy.CopySucceedsOnEof | internal/pool/bufio_pool.go:213-218 | if no Write fails, nil is returned exactly when the source ends with EOF |
| PipeCopy.CompleteIffAllTaken | internal/pool/bufio_pool.go:206-219 | from source, destination and buffer size alone: nil is returned if and only if the source ends with EOF and no Write it comes to fails, the Write's error if and only if one does; and everything arrived as well if and only if none of these takes less than it is given |
| PipeCopy.NilMayLoseBytes | internal/pool/bufio_pool.go:209-211 | a copy of two bytes that delivers one and returns nil |
| PipeCopy.NilIsCompleteIffNothingLost | internal/pool/bufio_pool.go:209-211 | after nil the payload is complete if and only if the destination cut off no byte |
| PipeCopy.LostIsCounted | internal/pool/bufio_pool.go:208-212 | after nil, received plus cut-off bytes are the whole payload |
| PipeCopy.SizeDoesNotMatter | internal/pool/bufio_pool.go:51 | two successful copies with different buffer sizes write the same; if no Write fails the outcome is the same too |
| PipeCopy.CopyLoop | internal/pool/bufio_pool.go:206-219 | the loop over a buffer with any stale contents ends, as the specification of its starting state says |
| PipeCopy.Run | internal/pool/bufio_pool.go:196-220 | the whole call with any buffer the pool can give: the copy, the pipe counters up once and down once, and the buffer put back, on every way out |
| BufferPools.CountersLawful | internal/pool/bufio_pool.go:222-272 | each counter, after any operations, in terms of what is really held and was made |
| BufferPools.CounterLaws | internal/pool/bufio_pool.go:222-272 | the sums that stay right: reader plus writer in use are those held; reader in use plus idle are the readers made |
| BufferPools.PipeSumConstant | internal/pool/bufio_pool.go:254-268 | between size changes pipe in-use plus idle is constant |
| BufferPools.InUseExactness | internal/pool/bufio_pool.go:247-252 | either in-use counter is exact if and only if every writer ever made is held |
| BufferPools.InUseCanBeWrong | internal/pool/bufio_pool.go:244-252 | one writer used and returned makes both wrong |
| BufferPools.Pools.AcquireBufIOReader | internal/pool/bufio_pool.go:110-123 | one more reader is held; the counters keep their laws |
| BufferPools.Pools.ReleaseBufIOReader | internal/pool/bufio_pool.go:126-129 | one reader fewer is held |
| BufferPools.Pools.AcquireBufIOWriter | internal/pool/bufio_pool.go:138-151 | one more writer is held, though a reused one moves the reader's counters |
| BufferPools.Pools.ReleaseBufIOWriter | internal/pool/bufio_pool.go:158-161 | one writer fewer is held |
| BufferPools.Pools.PipeCopyBufferSize | internal/pool/bufio_pool.go:172-187 | sizes below 256 change nothing; others become the size of new buffers, empty the pool and restart the idle count |
| BufferPools.PipesStayOk | internal/pool/bufio_pool.go:172-204 | over every sequence of gets, puts and resizes no buffer is ever shorter than 256, so the copy loop always has room |
| BufferPools.OldSizesComeBack | internal/pool/bufio_pool.go:168-203 | after a resize a length can be handed out if and only if it is the new size or that of a buffer then in use |
| Handler.HostDecidesIffUnknown | internal/proxy/handler.go:88-111 | the request's Host decides where it goes if and only if no upstream is known |
| Handler.FirstHostSticks | internal/proxy/handler.go:89-109 | started without a list, every request after the first goes to the first one's Host |
| Handler.EveryUpstreamIsPicked | internal/upstream/upstream.go:62-67 | with a list, the addresses some random choice leads to are exactly those on it |
| Handler.UpstreamList.Random | internal/upstream/upstream.go:62-67 | a known upstream, or none exactly when the list is empty |
| Handler.UpstreamList.Append | internal/upstream/upstream.go:70-86 | an address is added at the end unless it is known |
| Handler.Handler.ResolveUpstream | internal/proxy/handler.go:88-111 | address and list as specified; without a Host 400; an address that does not parse still goes on |
| Handler.Handler.AcquireUpstreamConn | internal/proxy/handler.go:115-126 | the connection is the one the address's pool grants, or 502 |
| Handler.Handler.WriteRequestHeaders | internal/proxy/handler.go:130-147 | fails exactly when the write or the flush does; the writer is returned either way |
| Handler.Handler.WriteRequestBody | internal/proxy/handler.go:152-186 | what the upstream has received afterwards and whether it succeeded, for a body in memory and for a stream |
| Handler.FixedBodyArrives | internal/proxy/handler.go:167-184 | a body in memory succeeds if and only if it is empty or one Write takes all of it without an error, and then every byte arrived |
| Handler.StreamedBodyArrives | internal/proxy/handler.go:158-165 | a stream succeeds if and only if it ends with EOF and no Write fails; at an honest upstream it then arrived |
| Handler.Handler.ReadResponseHeaders | internal/proxy/handler.go:190-201 | one more reader is held afterwards, also when the read fails |
| Handler.Handler.CopyResponseStatus | internal/proxy/handler.go:205-218 | 5xx becomes 502, any other status is kept |
| Handler.Handler.StreamResponseBody | internal/proxy/handler.go:223-235 | a new reader for this connection, this address and the declared length |
| Handler.Handler.UseConnection | internal/proxy/handler.go:70-83 | dropped once, under its own address, exactly when a phase failed; otherwise owned by one new reader over the same pools |
| Handler.Handler.Handle | internal/proxy/handler.go:57-84 | for every placement of failures: disposition, pools, upstream list, buffers held, the client's status, and the reader that owns the connection |
| Handler.GrantedExactlyWhen | internal/proxy/handler.go:115-126 | a request gets the connection returned last if idle for at most the timeout, else a new one if a slot is left and the dial succeeds, else none |
| Handler.StreamsExactlyWhen | internal/proxy/handler.go:70-83 | with a connection, a request streams an answer if and only if header and flush were written, the body was empty, taken whole by one Write, or copied to EOF without a failing Write, and an answer header came; otherwise it is dropped |
| Handler.StatusInNumbers | internal/proxy/handler.go:88-218 | 400 without list and Host; the answer's status below 500; 502 in every other case |
| Handler.GrantedWasFree | internal/pool/upstream_pool.go:18-48 | a connection Acquire grants was leased to nobody and is now leased once |
| Handler.HandledSoundly | internal/proxy/handler.go:57-84 | every address's invariant survives a whole request |
| Handler.HandledOwnership | internal/proxy/handler.go:57-84 | a request changes no leases but adds the one connection its body stream owns; a dropped connection is closed |
| Handler.EpisodesKeepSound | internal/proxy/handler.go:57-84 | over any sequence of requests and settlements every pool keeps its invariant and leases exactly the connections body streams own |
| SystemSafety.LocalMirrors | internal/proxy/handler.go:57-84 | each step of a request is, for the pool it touches, a step the pool protocol allows, or none |
| SystemSafety.ElsewhereUnchanged | internal/proxy/handler.go:71-79 | a step leaves the request's standing with every other address alone |
| SystemSafety.WorkerStaysOk | internal/readers/pool_reader.go:57-108 | every step keeps: a body has settled exactly if its length is not 0 and it was read to its limit or an error, and the pool call it is in is Release for a positive length, CloseAndDrop for none |
| Settlement.SettlesAsDeclared | internal/readers/pool_reader.go:69-101 | in every run: a settling body is in Release for its own connection exactly if it declared a positive length, in CloseAndDrop exactly if it declared none; when Release returns the connection is on the stack, or closed because that was full; when CloseAndDrop returns it is closed, also after a failed phase |
| Settlement.PullIsTheReaders | internal/readers/pool_reader.go:43-48 | a Read in the proxy does to the body what PoolReader's Read does with the same answer, for every length, and a pool call begins exactly when that settles |
| SystemTheorems.ProxyRefinesProtocol | internal/proxy/handler.go:57-84 | at every address every run of the proxy is a run of the pool protocol, whose clients give back only what they lease |
| SystemTheorems.ProxySafety | internal/proxy/handler.go:57-84 | the protocol's invariant at every address in every run, with no assumption about the clients |
| SystemTheorems.OwnedByOneRequest | internal/proxy/handler.go:115-126 | a connection a request owns is open, not idle, and owned by no other request |
| SystemTheorems.ProxyCountBound | internal/pool/pool.go:85-89 | with so many goroutines no address ever counts more than limit - 1 + goroutines |
| SystemTheorems.AccountsAtRest | internal/proxy/handler.go:57-84 | when all requests have ended `count` is idle plus bodies that never settled, and a body failed to settle only if its length was 0 or it was read neither to its limit nor to an error |
| SystemTheorems.LeftOccupiesSlots | internal/readers/pool_reader.go:58-60 | at any time unsettled bodies of ended requests take slots besides the idle connections |
| SystemTheorems.LeftStays | internal/readers/pool_reader.go:58-60 | their number never falls |
| SystemTheorems.ZeroLengthLeaves | internal/readers/pool_reader.go:58-60 | the end of a request with an empty answer adds one, whatever was read |
| SystemTheorems.RefusedForever | internal/pool/pool.go:85-87 | once they reach the limit every later dial for the address is refused, in every continuation |
| SlotLeak.CanServeAgainIff | internal/pool/upstream_pool.go:18-48 | when all requests have ended, some continuation gives a request for the address a connection if and only if unsettled bodies leave a slot or the connection returned last is not stale |
| SlotLeak.LostForever | internal/pool/upstream_pool.go:22-47 | with all slots taken by unsettled bodies, only stale connections idle and nobody holding one, an address stays so in every continuation, and nothing is ever added to the stack |
| SlotLeak.FreeSlotServes | internal/pool/upstream_pool.go:29-41 | with a slot left, requests evict stale connections one by one until a dial succeeds |
| SlotLeak.EmptyAnswersExhaust | internal/readers/pool_reader.go:57-60 | for every limit: that many successful empty answers, back to back with nothing else idle, end with all requests ended and the address unable to serve; in every continuation nothing is idle, all slots are taken, no request for the address owns a connection, and whoever comes to dial is refused |
| EndToEnd.SessionIsServed | internal/proxy/handler.go:57-84 | the proxy with bytes takes the steps of the proxy without: what is proved of all its runs holds |
| EndToEnd.IdleIsOnBoundary | internal/readers/pool_reader.go:68-75 | in every interleaving at every address, if answers have their declared length and socket reads do not fail, an idle connection has nothing left on its socket |
| EndToEnd.EachGetsItsOwn | internal/proxy/handler.go:223-235 | under the same conditions every client has at any time a prefix of the body sent for its own request, short by exactly `remain`, and all of it once its stream gave the connection back |
| SystemTheorems.BufferLedger | internal/proxy/handler.go:190-234 | in every state the readers out are the failed header reads plus the bodies that still have theirs, and the writers out the requests writing headers |
| SystemTheorems.BuffersAtRest | internal/proxy/handler.go:130-147 | at rest every writer is back and the readers out are failed header reads plus unsettled bodies |
| SystemTheorems.PhasesFollowHandler | internal/proxy/handler.go:70-83 | the proxy's phases do to connection and buffers what the handler's specification says for every environment |

## Left out

- Dialing, TLS and certificates: a dial succeeds with a connection never seen before, or fails.
- The internals of fasthttp and header parsing: a header read consumes exactly the header's bytes or fails, and the
  Content-Length it yields is any integer.
- The other response headers, which the code copies to the client unless the status is 500 or more.
- Chunked coding: the code passes such bytes through, and a library outside the repository encodes and decodes them.
- Prometheus gauges, error counters, histograms and logging.
- `TimedReader`: it passes Reads through.
- Flag parsing, address normalisation and parsing: addresses are opaque keys, and that an address does not parse is an
  input.
- Changes of the maximum or the idle timeout while requests run: they are fixed in a run.
- What the operating system does to a socket; an error of Close, which the code only logs.
- Data races on the list of upstreams, which the source changes without a lock: its methods are modelled one at a time.
- Pipe buffers that the garbage collector takes: a pooled length stays available in the model, and a new buffer may
  always be made instead.
- The two additions to the in-use and idle counters of buffers are one step; only their totals are stated.
- `Limits.Settings`: the fixed configuration of a run is a value; the setters are stated on their own.
- Streams.EveryReaderHasAScript: is about finitely many Reads; a source that never ends is not one a copy can finish.
- PipeCopy.CopyLoop: covers sources that end, since the loop does not end otherwise.
- DialRaces.CountFitsInt32: says when `count` cannot wrap; beyond that the model's `count` is unbounded.
- `EndToEnd`: answers that declare no length are not sent over its wires; their connections are closed, not reused.
- ProtocolTheorems.CallsEnd: bounds instructions, not time, and a fair scheduler is not assumed.
- PoolReader.NoTouchBeforeError: covers callers that stop at the first error; others do reach the source, as
  PoolReader.TouchesAfterSettling states exactly.
