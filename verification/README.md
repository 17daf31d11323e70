# gt: a verified model of its concurrent map and its byte paths

gt tunnels HTTP and TLS connections from a public server to clients behind NAT.
This project models the parts of it that are hardest to get right and proves what
they are for:

- **The concurrent map** `server/sync.Map`, twice. `ConcurrentMap*.dfy` are a
  transition system whose steps are the single atomic loads, stores,
  compare-and-swaps and lock-protected updates, with a program counter per thread.
  `Linearizability.dfy`, `Progress.dfy` (operations return, with and without the lock,
  and nothing deadlocks) and `RangeVisits.dfy` (what a concurrent Range shows) hold
  for every interleaving of every run.
  `SyncMap.dfy` is the object itself, with entries on the heap, used by one thread.
- **The client registry** on top of it (`Registry.dfy`), a protocol of concurrent
  tunnels that join and leave.
- **The tunnel** from end to end: the server's framing (`Frames.dfy`, `Tunnel.dfy`),
  the client's frame loop (`TunnelClient.dfy`) and the streaming replacement of the
  `Host:` line (`HostRewrite.dfy`), composed over any number of interleaved tasks,
  any fragmentation of the tunnel, deadlines and faults (`Tunnel.EndToEnd`). The
  first bytes of a tunnel are in `Handshake.dfy`.
- **Buffered streams**: `Reader.dfy`, `LimitedReader.dfy`, `Scanner.dfy`, `Lines.dfy`,
  `Writer.dfy`. The abstract state of a reader is its buffered bytes followed by the
  unread ones of the source; a source is a byte string with an arbitrary schedule of
  read sizes, empty reads and faults, so that where the next fault comes is a fact of
  the input (`Bufio.Reader.Deadlines`).
- **Incremental parsers**: the chunked coding of RFC 7230, section 4.1 (`Hex.dfy`,
  `Chunked.dfy`), the length-prefixed records inside it (`Records.dfy`) and the
  replies that carry them back (`Replies.dfy`), the
  ClientHello of RFC 8446, section 4.1.2, and RFC 6066, section 3 (`TlsHello.dfy`),
  and the header peeker (`HttpHeader.dfy`).

The objects whose methods update fields are classes, with the same fields, branches
and constants as in Go; the functions beside them say what the bytes mean.
`Wrappers.dfy`, `Bytes.dfy`, `PlainMap.dfy` and `Sink.dfy` are shared. Random keys of
a map iteration, values made by `createFn`, the outcomes of dials and of writes, and
the white-space trimming of the standard library are parameters.

Run `dafny verify dfyconfig.toml`.

Where the code differs from its documentation, or from what its callers rely on, the
code is followed:

- A payload of one byte is judged together with the first byte of the next frame
  (client/conn.go:252), so an `X` alone can be taken for a peer-to-peer request:
  `Tunnel.TakenForP2P` says exactly when, `Tunnel.OneByteMistaken` gives an instance.
  With nothing behind it such a payload is not delivered: the client waits for a second
  byte, and takes a frame exactly when two are there (`Tunnel.TwoBytesBehind`).
- A refused dial drops the frame that came with it (client/conn.go:279-283, 194-210);
  the next frame dials again, and the local service receives the stream without its
  beginning: `Tunnel.RefusedDial` gives an instance. `Tunnel.EndToEnd` says exactly
  what is missing, the payloads of as many frames as dials are refused first, and by
  `Tunnel.ServedWhole` that is nothing if and only if the first dial is accepted or
  nothing was sent.
- `resp` (client/peer.go:144-189) has room for the buffer that the pool gives less ten
  bytes: a reply that fits the buffer but not the room is cut, and a longer one goes out
  under the id 0 without its last ten bytes (`PeerReplies.ReplyWhole`, `ReplyLost`). The
  pool is meant to hold buffers of 4096 bytes (pool/pool.go:14), but the buffer made for
  a longer reply is put into it, so later ones may be longer: `CandidateAstray` gives a
  reply that is sent whole out of such a buffer and cut out of another. A negotiation
  whose replies have at most 4086 bytes each arrives out of any pool, and out of a pool
  of 4096-byte buffers no other does (`PeerReplies.PrintedReadsBack`).
- The length check of the handshake (server/conn.go:189, 211) asks for a length that
  is too small and too large at once and refuses nothing. Lengths are cut to one byte
  (client/conn.go:57-72), and the server reads what was sent if and only if both fit:
  `Handshake.ReadsWhatWasSent`.
- `init` makes the map of tasks in a second section (server/client.go:28-30), so a
  tunnel can be in service while its client has no map of tasks yet and `addTask`
  (server/client.go:85-89) would assign to a nil map: `Registry.ServesWithoutTasks`
  gives a run, and `Registry.TasksReady` says exactly when the map is there.
- peekHost looks for `Host: ` with a space (server/http.go:22, 26-28), which section 3.2
  of RFC 7230 makes optional: `HttpHeader.HostNeedsSpace`.

## Model

| member | source | states |
|---|---|---|
| Linearizability.Linearizable | server/sync/map.go:103-307 | over every interleaving, an operation that returns took effect exactly once between its call and its return, there changing the contents as a plain map does with that result, or it never did and its result was right, and changed nothing, at some instant in between |
| Linearizability.ChangesAreEffects | server/sync/map.go:137-307 | no step changes the contents but the one effect of a pending operation, and that changes them as the plain map |
| Linearizability.ContentsReplay | server/sync/create.go:11-66 | after any run the contents are those of a plain map that was given the effects of the run one after another, each with the result its operation returns |
| Linearizability.RunInv | server/sync/map.go:31-75 | the protocol invariant, of the shared state and of every thread at its program counter, holds in every state of every run |
| Linearizability.SnapshotEntries | server/sync/map.go:31-52 | an entry of any old `read` snapshot is still in `read` or expunged, and one that left `read` never comes back |
| Linearizability.GoneIsExpunged | server/sync/map.go:31-52 | an entry of an old snapshot that is in neither map is expunged, then and for ever |
| Linearizability.ExpungedIffMissing | server/sync/map.go:362-386 | with the lock free, a `read` entry is expunged if and only if its key is missing from a non-nil `dirty`, and shared keys share the entry |
| Linearizability.IgnoredOkIsTrue | server/sync/map.go:210-219 | in the locked branches tryLoadOrStore never meets an expunged entry, so the ignored `ok` is true, and no nil map is assigned to |
| Linearizability.OneAction | server/sync/create.go:44-66 | a pending operation keeps what it was called for, and its result is fixed by its one effect |
| Progress.Returns | server/sync/map.go:103-385 | from any state of a run with the lock free or its own, a pending operation that alone steps returns after a bounded number of its steps, with the lock free: with the result it had if it took effect before, else with a result and contents by which a plain map goes on from the contents there, or with nothing changed and a result that was right at an instant since the call |
| Progress.ReturnsFromCall | server/sync/map.go:103-385 | called with the lock free and not interfered with, each of the five operations returns after ten steps, three for each key of `read` and one for each of `dirty`, and result and contents are those of the plain map on the contents at the call |
| Progress.QuickFromCall | server/sync/map.go:103-142 | the path without the lock: where `read` has the key, with an entry that can be stored into, or tells all there is, an operation returns after five steps (and one for each key visited) though another thread has the lock, and leaves lock, maps and misses alone |
| Progress.MissFromCall | server/sync/map.go:352-360 | where `dirty` has to be asked, Load, LoadAndDelete and LoadOr count one miss, and the last miss promotes what is left of `dirty` |
| Progress.MissesBounded | server/sync/map.go:352-360 | with the lock free, over every run, a dirty map has had fewer misses than it has keys |
| Progress.NoDeadlock | server/sync/map.go:103-385 | from every state of every run each pending operation can return, the lock holder first |
| RangeVisits.ShownWasThere | server/sync/map.go:310-350 | a pair that a concurrent Range shows was in the map at some instant of the call |
| RangeVisits.ShownOnce | server/sync/map.go:310-350 | no key is shown twice |
| RangeVisits.AllShown | server/sync/map.go:319-350 | a Range that is not stopped shows every key that was in the map all along, whatever is promoted, expunged or deleted meanwhile |
| ConcurrentMapSteps.OthersKeep | server/sync/map.go:352-386 | what a thread knows at its program counter survives any step of any other thread |
| ConcurrentMapSteps.StepTryCasFast | server/sync/create.go:44-66 | the lock-free insertion into a deleted entry is the effect of LoadOr and keeps the invariant |
| ConcurrentMapSteps.StepDetach | server/sync/map.go:274-283 | LoadAndDelete of a key only `dirty` has takes effect under the lock, before the entry is emptied |
| ConcurrentMapSteps.StepMiss | server/sync/map.go:352-360 | promoting `dirty` is invisible |
| ConcurrentMapSteps.StepCopyCas | server/sync/map.go:376-386 | expunging a deleted entry while `dirty` is made is invisible |
| ConcurrentMapSteps.StepInsert | server/sync/map.go:155-162 | inserting a new entry is the effect of Store and LoadOr |
| SyncMap.Map.Load | server/sync/map.go:103-126 | returns what the plain map holds and leaves it; a key that `read` has, or lacks for good, is answered without touching the map, else one miss is counted and the last one promotes `dirty` |
| SyncMap.Map.Store | server/sync/map.go:137-164 | changes the plain map at its key alone, through the fast path, the unexpunged entry, `dirty` or a new entry |
| SyncMap.Map.LoadOrStore | server/sync/create.go:11-42 | loads what is there, else stores the value given or made, as the plain map; `createFn` is called once for an absent key, and not at all for a present one |
| SyncMap.Map.LoadAndDelete | server/sync/map.go:269-290 | returns and removes what the plain map holds, and counts a miss where `dirty` was asked |
| SyncMap.Map.Range | server/sync/map.go:319-350 | shows each live key at most once with its value, and every one unless the callback stops it, across promotion |
| SyncMap.Map.MissLocked | server/sync/map.go:352-360 | a miss is counted, and one that reaches the size of `dirty` promotes it; the contents stay |
| SyncMap.Map.DirtyLocked | server/sync/map.go:362-374 | the copy is paid for and the contents stay |
| SyncMap.Call | server/sync/map.go:103-350 | every method call is the plain-map operation |
| SyncMap.Run | server/sync/map.go:352-374 | any sequential run is a run of the plain map, entries copied never exceed missLocked calls plus sizes promoted by Range, and `misses` stays below the size of a non-nil `dirty` and is 0 with a nil one |
| Registry.HolderIsMapped | server/server.go:521-525 | over every run, a client object that holds a tunnel is the one `id2Agent` maps its ID to |
| Registry.InitialisedOnce | server/client.go:23-31 | no object is initialised twice, and one with tunnels exactly once |
| Registry.LostForGood | server/client.go:46-65 | an object that lost its last tunnel never gains another |
| Registry.DeletesItself | server/client.go:57-65 | who removes the last tunnel deletes exactly its own object from the registry |
| Registry.ServesMapped | server/conn.go:244-260 | a tunnel that is being served is a tunnel of the object its ID is mapped to |
| Registry.AddServes | server/client.go:46-55 | a tunnel that joins an object that is initialised and has not lost its last tunnel is added to those it has, and served; at any other object nothing changes and the handler tries again or gives up |
| Registry.GivesUpAfterFive | server/conn.go:244-264 | a handler that ends without having served its tunnel has called addTunnel five times, each time of an object not initialised yet or one that had lost its last tunnel |
| Registry.RemovesOne | server/client.go:57-65 | taking out the last tunnel closes the object and keeps its mutex; taking out another leaves the rest and the mapping alone, and is all there is to it |
| Registry.LastIsUnmapped | server/server.go:609-616 | after that the same handler deletes the mapping of the object, then the user if so configured, and gives the mutex back; nothing can keep it from its next step, and it is over only with all of that done |
| Registry.OnlyLastUnmaps | server/client.go:57-65 | and a mapping goes away in no other way |
| Registry.TasksReady | server/client.go:23-31 | an initialised object has its map of tasks if and only if its creator is not between the two sections of `init` |
| Registry.ServesWithoutTasks | server/conn.go:244-260 | a run in which a tunnel is served before its client has a map of tasks |
| HostRewrite.RewriteFirst | client/task.go:148-181 | the specification puts the configured line in place of the first line that starts with `Host:`, and changes nothing else |
| HostRewrite.RewriteNothing | client/task.go:115-147 | without such a line it changes nothing |
| HostRewrite.Judge | client/task.go:192-204 | `replace` if and only if the bytes begin with `Host:`, `unsure` if and only if they are fewer than five and may |
| HostRewrite.Task.SetHost | client/task.go:41-51 | the buffer is one whole line, `Host: `, the host, CR LF, with no other newline if the host has none; a host above 200 bytes is refused |
| HostRewrite.ReadsBack | client/task.go:41-51 | the first line of the output that starts with `Host:` is where that of the input was, and reads back as the configured host; what is before and behind it is kept |
| HostRewrite.RewriteTwice | client/task.go:53-184 | rewriting again changes nothing, if and only if the host has no newline or there was no such line |
| HostRewrite.Task.Write | client/task.go:53-184 | takes all of its input unless the connection fails; what it sends is right whatever is written next, and a failing connection has received a prefix of it |
| HostRewrite.Feed | client/task.go:53-184 | for every way to cut the input into writes, what was received and what is held (at most 4 bytes) is the rewritten input, and each write reports all its bytes |
| Bufio.Reader.Fill | bufio/bufio.go:87-115 | slides and reads, keeps the stream and the faults to come, and makes progress or sets an error; ErrNoProgress comes of a hundred empty reads in a row, and of nothing less |
| Bufio.Reader.Peek | bufio/bufio.go:130-157 | the next bytes, none consumed whatever the error, and the exact reason for fewer: if a fault of the source comes before them it is reported, once, and if they come first it is not |
| Bufio.Reader.Discard | bufio/bufio.go:164-190 | skips the next bytes; never fails on buffered ones |
| Bufio.Reader.Read | bufio/bufio.go:198-243 | hands over the front of the stream, with one read of the source at most |
| Bufio.Reader.ReadByte | bufio/bufio.go:247-260 | the next byte, or the error with nothing lost |
| Bufio.Reader.ReadSlice | bufio/bufio.go:331-370 | the bytes up to the first delimiter, or all of them, or a full buffer; the error is nil if and only if the line ends in the delimiter |
| Bufio.Reader.ReadLine | bufio/bufio.go:388-421 | a fragment never ends between CR and LF; what is no fragment is the rest of the line without its end |
| Bufio.Reader.JoinLine | bufio/bufio.go:388-421 | fragments joined give exactly the next line and leave exactly what follows it, for every buffer of at least 2 bytes and every fragmentation |
| Bufio.Reader.ReadBytes | bufio/bufio.go:430-473 | everything up to and including the first delimiter, across full buffers |
| Limited.LimitedReader.Read | bufio/reader.go:20-31 | never reads past the limit, and lowers it by what was read |
| Limited.LimitedReader.WriteTo | bufio/reader.go:37-81 | hands the writer exactly the first min(N, remaining) bytes unless it fails, lowers N by the bytes consumed, and leaves the later ones intact |
| Limited.LimitedReader.ReadSlice | bufio/reader.go:105-156 | the bytes up to the first delimiter within N, or the limit, the end or a full buffer; the error is nil if and only if the line ends in the delimiter |
| Frames.OneReading | server/conn.go:438-457 | no stream can be read as two different frames |
| Frames.Put32Get32 | client/conn.go:140 | the four-byte numbers of the frames are read back as written, whatever follows |
| Frames.WireBytes | server/conn.go:438-457 | the signals and frames byte by byte, big-endian |
| TunnelClient.Next32 | client/conn.go:129-150 | a number off the tunnel, or an error that loses nothing, and that is a deadline if and only if that comes before the fourth byte |
| TunnelClient.Client.Dial | client/conn.go:224-249 | a fresh connection that has received nothing, set to replace the Host line if so configured |
| TunnelClient.Client.GetTask | client/conn.go:272-294 | one connection per id, dialled when there is none and kept until it ends; a refused dial leaves all as it was; no other id is touched |
| TunnelClient.Client.ProcessData | client/conn.go:251-316 | the bytes taken off the tunnel go to the connection of the id and to no other; what a refused dial drops, a failed write cuts off or a peer-to-peer request tears out is accounted for |
| TunnelClient.Client.Payload | client/conn.go:184-208 | the loop goes on only when exactly the announced bytes are consumed, although dialing failed or the local write stopped midway |
| TunnelClient.Client.Turn | client/conn.go:120-221 | one round takes exactly one frame, if that comes before the next fault; if a fault comes before the fourth byte it takes nothing, counts a ping and goes on if and only if a ping was sent; a close or error signal ends the loop, and nothing changes for any other task |
| Tunnel.ProcessTurn | server/conn.go:438-472 | one read of a public connection becomes one frame, appended to the tunnel as a whole |
| Tunnel.ProcessEnd | server/conn.go:421-426 | the closing frame |
| Tunnel.ServeTurn | server/conn.go:438-472 | a round of `process` is no step or one Send step of the server: the tunnel holds the frames of the new state, and what is left of the client is what that has still to send |
| Tunnel.ServeEnd | server/conn.go:421-426 | and its end is the End step |
| Tunnel.ServerRuns | server/conn.go:416-473 | over every run with interleaved tasks, the frames of each id carry what was read of its clients in order, and nothing comes after its closing frame unless the id is opened again |
| Tunnel.OneRound | client/conn.go:120-221 | a round on the wire of a server moves to the next frame of that wire |
| Tunnel.ReadLoop | client/conn.go:105-222 | on any part of the wire, what was dropped of a task before its first connection and what that was handed are together a prefix of its frames' payloads, unless one of them looks like a peer-to-peer request; a task for which the tunnel is calm loses nothing but the frames of its first refused dials, whatever becomes of the others; and if all of the wire arrives, with no faults but deadlines between the frames, each answered with a ping and none finding a ping unanswered, the prefix is all of it |
| Tunnel.EndToEnd | client/conn.go:105-316 | for interleaved tasks and any fragmentation, for each calm task whose id is opened once the local service has received, but for at most 4 bytes held, the Host rewrite of what its public client sent, without the frames of the first refused dials, up to some point or, if the wire arrives, deadlines and their pings in between, to the end; and for every task without a peer-to-peer request a prefix of that, though dials are refused and connections fail or end |
| Tunnel.ReceivesHost | client/task.go:41-51 | what the local service receives holds the configured host in its first Host line |
| Tunnel.IdleAtFirst | client/conn.go:120-137 | a tunnel on which the deadline fires before the first frame serves all that comes then |
| Tunnel.ServedWhole | client/conn.go:279-283 | a task is served from its beginning if and only if its first dial is accepted or nothing was sent |
| Tunnel.RefusedDial | client/conn.go:184-210 | one refused dial, and the local service receives the second frame as if the first had not been |
| Tunnel.TakenForP2P | client/conn.go:251-260 | exactly which payloads are taken for peer-to-peer requests, in view of what is behind them |
| Tunnel.OneByteMistaken | client/conn.go:252-260 | a one-byte payload can be mistaken because of the next frame |
| Tunnel.TwoBytesBehind | client/conn.go:251-255 | without faults a round takes a data frame if and only if two bytes are there behind its head, and else nothing is delivered |
| Handshake.ReadsWhatWasSent | client/conn.go:50-78 | the server reads the id and secret sent if and only if both are shorter than 256 bytes; its length check (server/conn.go:189, 211) refuses none of them |
| Handshake.ReadOnlyHellos | server/conn.go:180-239 | and opens a tunnel only for the version, two fields behind their lengths and an option |
| Handshake.NotATunnelIs | server/conn.go:77-98 | two bytes that are not the version, and they alone, are left to the HTTP or TLS handler |
| Handshake.Handle | server/conn.go:180-239 | for every fragmentation the outcome is a function of the bytes, and another protocol's first bytes are not consumed |
| Hex.ParseHexUint | client/internal/chunked.go:223-242 | the value of at most 16 digits, without wrap-around in 64 bits; an error for anything else |
| Hex.ValueOfText | client/internal/chunked.go:190-192 | the parser inverts `%x` on all 64-bit numbers |
| Hex.DigitIs | client/internal/chunked.go:223-242 | the digits are 0-9, a-f and A-F, with the values of their places |
| Hex.ValueInAnyCase | client/internal/chunked.go:223-242 | upper-case and mixed text reads back too |
| Chunked.TrimIs | client/internal/chunked.go:131-140 | only trailing white space is trimmed, and all of it |
| Chunked.ExtensionIgnored | client/internal/chunked.go:142-154 | a size line with an extension or white space has the size of its digits, and none from 4096 bytes on |
| Chunked.WalkAppend | client/internal/chunked.go:57-102 | a frame that ends inside chunk data or before a size line can be followed by another: both decode as one |
| Chunked.RoundTrip | client/internal/chunked.go:183-212 | what any list of writes and a Close produce decodes to their concatenation and then ends, whatever follows |
| Chunked.WalkChunks | client/internal/chunked.go:57-102 | any chunks of the grammar are read as their data, whatever their size lines look like |
| Chunked.EndsOnlyAfterChunks | client/internal/chunked.go:57-102 | and a body ends only behind chunks and a line of size 0 |
| Chunked.ChunkedWriter.Write | client/internal/chunked.go:183-207 | one write is one chunk, or a prefix of it on a failing wire |
| Chunked.ChunkedReader.Read | client/internal/chunked.go:57-102 | what is read, followed by what is still to come, is what the frame decodes to; bytes behind the frame are not touched |
| Chunked.ReadAll | client/internal/chunked.go:57-102 | for every read size and fragmentation the bytes are those the frame decodes to, and the error says how it ended |
| Chunked.ReadBack | client/internal/chunked.go:57-130 | any writes are read back as their concatenation and then EOF, in pieces of any size |
| PeerRecords.RecordsOf | client/peer.go:275-344 | a stream of records holds the messages it was made of |
| PeerRecords.PeerTask.Process | client/peer.go:253-356 | the messages reached are the records of the decoded bytes; a part of one is kept for the next frame, and a length above 4096 or a malformed coding is answered 400 |
| PeerRecords.SkipHeader | client/peer.go:113-135 | succeeds if and only if the header ends in the frame, and then leaves exactly the body |
| PeerRecords.BodyOfText | client/peer.go:113-135 | of a header text of lines that fit and an empty one, what follows is the body |
| PeerRecords.Reassemble | client/peer.go:253-356 | over frames cut where the coding can go on, the messages are the records of the dechunked body, for every fragmentation |
| PeerRecords.Reach | client/peer.go:253-356 | so messages that were put into records, chunks of any sizes and such frames are exactly the messages reached |
| PeerReplies.PrintedIsChunk | client/peer.go:369-377 | what processSDP hands to `resp` for a message is the chunk of its record, in 16-bit lengths |
| PeerReplies.ResponseIs | client/peer.go:369-373 | the response is a whole header that announces the chunked coding and ends in an empty line, and skipHTTPHeader finds its end |
| PeerReplies.PrintedFits | client/peer.go:391-398 | that fits a frame if and only if the message has at most 4077 bytes |
| PeerReplies.Resp | client/peer.go:144-189 | out of any buffer of the pool, what is written of the parts of a reply; and what the pool may hold after that |
| PeerReplies.RespAndClose | client/peer.go:191-244 | the same, and the closing frame if that could be written |
| PeerReplies.ReplyWhole | client/peer.go:163-177 | out of a buffer of B bytes what reaches the tunnel is the data frame of the reply if and only if the reply has between 1 and B - 10 bytes |
| PeerReplies.ReplyLost | client/peer.go:163-177 | up to B bytes it is cut at B - 10; above, it goes to task 0 without its last ten bytes |
| PeerReplies.CandidateCut | client/peer.go:163-169 | out of a 4096-byte buffer a candidate of 4080 bytes loses the last three bytes of its chunk |
| PeerReplies.CandidateAstray | client/peer.go:146-177 | out of a 4096-byte buffer one of 4090 bytes goes to task 0; out of the buffer made for that, one of 4079 bytes goes out whole, which it does not out of a 4096-byte one |
| PeerReplies.ProcessSDP | client/peer.go:358-412 | a negotiation writes the wire of its replies, each out of any buffer that the pool can hold by then, and of its close; if every reply fits 4086 bytes, the frames carry what was printed and the messages are read back from that, and out of a pool of 4096-byte buffers only then |
| PeerReplies.RepliesArrive | client/peer.go:144-189 | the frames of a task carry all of its replies if and only if each fits its buffer, less ten bytes |
| PeerReplies.PrintedReadsBack | client/peer.go:369-412 | if every reply has at most 4086 bytes, the frames of a negotiation carry what was printed out of any buffers, and it reads back as the messages and ends; out of a pool of 4096-byte buffers they carry it only then, as the first reply that does not fit is lost |
| LineScanner.SplitIsLine | bufio/scan.go:350-364 | a token of the buffered bytes is the first line of the whole input, and what is left is the rest of it |
| LineScanner.LinesOfText | bufio/scan.go:350-364 | the lines of a text with CR LF ends are its lines |
| LineScanner.Scanner.Grow | bufio/scan.go:190-209 | doubling keeps the input, and fails only for a full buffer of the maximal size |
| LineScanner.Scanner.Scan | bufio/scan.go:135-235 | a token is the next line; without one the input is at its end, or its first line does not fit |
| LineScanner.ScanAll | bufio/scan.go:135-249 | exactly the lines of the input, for every fragmentation, if each fits |
| BufioWriter.Writer.Flush | bufio/bufio.go:600-621 | nothing is lost when the sink fails or writes short |
| BufioWriter.Writer.Write | bufio/bufio.go:633-655 | sink and buffer gain exactly the accepted bytes, all of them unless there is an error; after an error the sink is left alone |
| BufioWriter.Writer.WriteString | bufio/bufio.go:703-719 | the same through the buffer |
| BufioWriter.Writer.ReadFrom | bufio/bufio.go:724-768 | sink and buffer gain exactly what was read, and without an error that is all there was |
| BufioWriter.Run | bufio/bufio.go:600-768 | over any sequence of operations sink and buffer hold the bytes that the returned counts say, in order, all that was given where there is no error; an error of a write is final, and comes of the last answer of the sink, which failed or was short, and of nothing else |
| TlsHello.PeekTLSHost | server/tls.go:10-106 | ends and stays in bounds on all bytes, consumes nothing, gives what the specification finds, and of a ClientHello that is buffered the name |
| TlsHello.HostOfHello | server/tls.go:61-105 | on the encoding of a ClientHello the name is found, whatever extensions come before it and whatever is buffered behind |
| TlsHello.HostOnlyOfHello | server/tls.go:10-106 | and a name is found only in a handshake record with a ClientHello whose first server_name extension leads with it |
| HttpHeader.ScanHeaders | server/http.go:38-61 | finds the first deciding newline, or there is none |
| HttpHeader.PeekHeader | server/http.go:30-70 | an answer is that of the first deciding newline of the whole input; nothing is consumed, and it ends |
| HttpHeader.PeekEarly | server/http.go:30-70 | for every fragmentation the answer is the one-pass answer if the deciding newline has an index of at most 2048 |
| HttpHeader.PeekText | server/http.go:30-70 | on a header text, lines that do not begin with the target and then one that does, the answer is the trimmed rest of that line, or an error if that is empty or above 512 bytes |
| HttpHeader.PeekWithout | server/http.go:30-70 | on one that ends in an empty line instead, it is the end of the headers |
| HttpHeader.HostNeedsSpace | server/http.go:22-28 | a Host field without a space in front of its value is not found |
| HttpHeader.ParseIDIs | server/http.go:72-88 | a host of three labels or more, the second not empty, gives its first label |
| HttpHeader.ParseIDOnly | server/http.go:72-88 | and no other host gives one |

## Left out

- Sockets, TLS records, deadlines as clock time and goroutine scheduling: they are sequences, faults and interleaved steps.
- lastByte, lastRuneSize, UnreadByte and the UTF-8 functions of bufio: they rest on a library that is not part of this model, and UnreadByte has no clean meaning after Discard or WriteTo.
- Aliasing: a slice that a Reader returns, and `tempBuf` inside the buffer of a task, are values.
- Range under concurrency as one snapshot: its own comment promises none.
- A second call of `createFn` in one LoadOrCreate, when the lock-free path has lost to an expunged entry: the value made is chosen anew.
- SyncMap.Map.Range: the callback is a pure function of key and value.
- Debug branches: the release path is modelled.
- The peer-to-peer branch of processData with STUN servers configured: its byte machine is PeerRecords, its WebRTC and JSON work is not part of this model. Client replies 403 as without STUN servers.
- A message that initSDP or JSON refuses: every message counts as accepted.
- Tunnel.ReadLoop: a Close frame and the end of a local connection forget the connection at once, where the code does so when its goroutine ends; what a second connection of an id receives, after its first has ended, is not stated.
- Chunked.ChunkedWriter.Write: the Flush that follows if the wire is a FlushAfterChunkWriter.
- PeerReplies.ProcessSDP: a negotiation that times out, or whose candidate cannot be encoded, is answered 400.
- Uniqueness of ids across the wrap-around of `taskIDSeed`: an id is opened again only after its task has ended, and of an id that is opened again the client's side claims `Tunnel.ServesPart` alone.
- The server's readLoop: on an id it does not know it reads the op but not the length, so frame synchronisation cannot be claimed there.
- PeerRecords.Reassemble: resuming at other cuts; a partial size line or chunk footer is dropped by the code.
- LineScanner.Scanner.constructor: sizes above 2^62 bytes.
- Limited.LimitedReader.WriteTo: the writer is an HTTP task or, with nothing to replace, its connection; a drained source says EOF at once.
- BufioWriter.Writer.ReadFrom: a sink that can read for itself.
- Handshake.Handle: authentication and the error signal after it; an id and secret that do not fit the 4096-byte buffer.
- removeClientAndTempUser, shutdown, load balancing over tunnels, logging, configuration, the HTTP API.
