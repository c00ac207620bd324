# gotu networking core, modelled in Dafny

gotu is a Go toolkit for building servers and tunnels. This project models
its core and proves properties of the model:

- The socket layer (`pkg/xnet`):
  - TCP, KCP, websocket and UDP sockets, each with a read loop and a write
    loop;
  - a buffer pool that recycles read buffers;
  - the KCP mux, an inline protocol for a 3-way handshake and a 4-way
    teardown over KCP;
  - the UDP session layer. It turns one connectionless socket into many
    virtual per-peer sessions, which are reclaimed when idle.
- The 16-byte message framing (`pkg/xmsg`).
- The command registry and its echo handler (`pkg/xregistry`).
- The actor handler tables and the actor name registry (`pkg/xactor`).
- The UDP tunnel's mode registry, timestamp header and statistics
  (`cmd/udp_tun/internal/handlers`).
- The latency and loss simulator (`pkg/xlatency`).
- `SafeDivision` (`pkg/xcommon`) and the level and colour encoding of the
  logger (`pkg/xlog`).

## How the model is built

- **Modules.** Each Go file, or small package, is one Dafny module in one
  file. `wrappers.dfy`, `bytes.dfy` and `decimal.dfy` hold shared
  definitions:
  - Option and Result;
  - little-endian encoding of `int32` and `int64`, and the Go wrap-around
    of integer conversions;
  - decimal rendering of integers as `fmt` prints them, with its parse-back
    lemma.
- **Imperative code becomes classes.** The sockets, sessions, server,
  client, mux, buffer pool, statistics tables, latency actor, command table
  and actor manager are classes:
  - their fields are the Go fields;
  - their methods update those fields in place;
  - each method is proved against a pure specification function, or states
    the new state outright.
- **Go loops become `while` and `for` loops** with invariants. Examples are
  the cache re-framing loop, the partial-write retry loop, the pool's
  chunking loop, the actor handler table fill, the ticker loop, the latency
  queue tick and the statistics average. Where a goroutine loop runs
  forever, each round is one step method: `ReadStep`, `WriteStep`,
  `HandlerStep`, `CheckStep`.
- **Concurrency becomes parameters.**
  - A Go `select` whose ready cases may both fire is a boolean parameter
    (`preferClose`, `timedOut`).
  - The clock, random draws and the results of I/O calls (`ReadResult`,
    `WriteAttempt`, `UdpRead`) are parameters too.
  - Goroutine exits, `closeCh` closes, `conn.Close` calls and callback
    invocations go into an event log. Contracts count in it "exactly once".
- **Framing callbacks (`OnHandlerOnce`)** are function values
  `seq<Byte> -> Handled`. `Handled` carries the consumed count and whether
  the callback failed.

### Where the code departs from its evident intent

Two loops do not do what the surrounding code shows they are meant to do.
The model keeps both halves of each: the code as written, and the corrected
version that the rest of the model builds on.

- **Buffer pool** (Finding F1). The pool only hands out buffers of
  readBufferSize bytes (pkg/xnet/buffer.go:12-15). The loop at
  pkg/xnet/buffer.go:35-38 pushes `cache[0:1024]` while the cache holds at
  least 1024 bytes, and it can only end by shortening the cache, which it
  never does.
  - The corrected `BufferPool.Put` cuts each pooled chunk off the front.
  - The stream read path builds on that corrected put: `XNetStream.ReadPass`,
    `XNetStream.RecycleFrames`, `TcpSocket.ReadStep` and `KcpSocket.ReadStep`.
  - As written, a TCP or KCP read loop hangs the first time its private
    cache reaches 1024 bytes. For example, a first read of n bytes that the
    handler consumes whole returns 1024 − n bytes and then n bytes to the
    cache.
- **UDP server sweep** (Finding F4). The client's check loop force-closes
  its session on the idle timeout (pkg/xnet/udp_client.go:74-77). The
  server's check loop only deletes expired sessions from its map
  (pkg/xnet/udp_server.go:84-87), so their handler loops keep running.
  `UdpServer.CheckStep` uses the corrected `Sweep`, which also closes them.

### Behaviour the model keeps as written

- **Mux passive close.** A passive close jumps from CloseWait to LastAck
  within one call and replies with both frames. `Inline` models exactly
  that, and the passive side never stays in CloseWait.
- **UDP session disconnect.** The session's `onDisconnect` receives the
  session itself, not the state that `onConnect` returned. The event log
  records `Disconnected(SessionItself)`.

### Call sites that do not match their callees

The Go files do not form one consistent snapshot. Mismatched call sites are
treated as opaque:

- The mux sends a control frame through `sock.send`, which no socket
  defines. The model assumes it frames with `packMsg(true, payload)`, so a
  control frame is `[1] + LE32(state)`.
- The tunnel registry expects `unpack` to return a delay. The codec returns
  only the payload. The model takes the delay to be the arrival time minus
  the header time, wrapped to int64 (`TunRegistry.HeaderDelay`).
- The registry calls the statistics methods `recvClient`, `recvProxy` and
  `addLatency`, which `snmp.go` does not define. The model reports them as
  `Stat` events of the tunnel step.
- `kcp_client.go` builds a KCP socket with a `mux` field that
  `kcp_socket.go` does not have. The KCP socket is modelled without a mux.
- The tunnel's OnConnect, which the model leaves out, has two more:
  - it fills `InLoss`, `InLatency`, `OutLoss` and `OutLatency` in
    `xlatency.LatencyMockArgs` (cmd/udp_tun/internal/handlers/registry.go:84).
    That struct has only `Name`, `Mode`, `Loss` and `Latency`
    (pkg/xlatency/latency.go:18-23).
  - it sets `Timeout` in `xnet.UDPCliArgs`
    (cmd/udp_tun/internal/handlers/registry.go:93), which has no such field
    (pkg/xnet/udp_client.go:14-19).

## Model

| member | source | states |
|---|---|---|
| XNetCommon.SelectSend | pkg/xnet/tcp_socket.go:183-192 | a non-blocking send enqueues only below the queue limit; "msg overflow" exactly when the queue is full and the socket open; "already close" only when closed; both outcomes may occur when closed with room |
| XNetCommon.SendAfterCloseMayEnqueue | pkg/xnet/websocket.go:159-168 | after close, with room in the queue, `select` may still enqueue or may report closed |
| XNetCommon.SelectWake | pkg/xnet/udp_session.go:77-81 | the blocking select blocks only when there is no message and no close; it takes a message whenever one is queued and the session is open |
| XNetBuffer.FreshBuffer | pkg/xnet/buffer.go:9-18 | a buffer allocated when the pool is empty has exactly readBufferSize (1024) bytes |
| XNetBuffer.ChunksSplit | pkg/xnet/buffer.go:35-37 | cutting the cache gives only full 1024-byte chunks taken from the front in order, plus a leftover shorter than one buffer, and loses no byte |
| XNetBuffer.PoolStateDetermined | pkg/xnet/buffer.go:33-38 | the chunks pooled so far and the cache are uniquely determined by the concatenation of everything put |
| XNetBuffer.SharedPool.constructor | pkg/xnet/buffer.go:9-18 | the shared pool starts empty |
| XNetBuffer.BufferPool.constructor | pkg/xnet/buffer.go:20-25 | a new pool has an empty private cache |
| XNetBuffer.BufferPool.Get | pkg/xnet/buffer.go:41-43 | returns 1024 bytes: a fresh buffer when the pool is empty, otherwise one pooled buffer, which leaves the pool |
| XNetBuffer.BufferPool.Put | pkg/xnet/buffer.go:33-38 | (corrected) the argument is appended to the cache; the shared pool gains exactly the new full chunks cut from the front; the invariant that every pooled buffer is 1024 bytes is kept |
| XNetBuffer.PoolIntoChunks | pkg/xnet/buffer.go:35-37 | pooling the front chunks one at a time adds exactly the chunks of the cache |
| XNetBuffer.PoolChunks | pkg/xnet/buffer.go:35-37 | the corrected chunking loop leaves the leftover (under 1024 bytes) and adds the chunks to the pool |
| XNetBuffer.PoolAddFullSize | pkg/xnet/buffer.go:35-37 | adding full-size chunks keeps every pooled buffer full size |
| XNetBuffer.PutKeepsAccount | pkg/xnet/buffer.go:33-38 | after a put, the pooled chunks followed by the cache are everything ever put |
| XNetBuffer.PutStep | pkg/xnet/buffer.go:35-37 | one iteration of the corrected loop: the first chunk goes to the pool, the rest is cut the same way |
| XNetBuffer.PutAsWrittenNeverTerminates | pkg/xnet/buffer.go:35-38 | as written, after any number k of iterations the cache is unchanged and still at least 1024 bytes, and the same front chunk has been pooled k times |
| XNetBuffer.ShortPutPoolsNothing | pkg/xnet/buffer.go:35 | when the cache holds fewer than 1024 bytes after appending, nothing is pooled and the cache keeps everything |
| XNetStream.ReframeConserves | pkg/xnet/tcp_socket.go:96-110 | the frames handed to the handler, followed by what stays in readCaches, are exactly the bytes read |
| XNetStream.ReframeStops | pkg/xnet/tcp_socket.go:96-110 | every consumed frame is non-empty; the loop stops exactly at a handler error, at a zero count, or at a count beyond the cache |
| XNetStream.FramingHandlerNeverOverclaims | pkg/xnet/common.go:41 | a handler that keeps the framing contract (count at most the input) never makes the loop slice past the cache |
| XNetStream.ReframeNeedMore | pkg/xnet/tcp_socket.go:96-103 | a zero count on the whole cache consumes nothing and keeps the cache |
| XNetStream.ReframeLoop | pkg/xnet/tcp_socket.go:96-110 | the re-framing loop computes the frames, the remaining cache and the stop reason of Reframe |
| XNetStream.ReframeUnfold | pkg/xnet/tcp_socket.go:104-108 | one iteration removes exactly the consumed prefix and continues on the rest |
| XNetStream.RecycleFrames | pkg/xnet/tcp_socket.go:107-108 | (corrected pool, Finding F1) every consumed frame goes back to the buffer pool, in order |
| XNetStream.ReadPass | pkg/xnet/tcp_socket.go:82-110 | (corrected pool, Finding F1) one read: take a buffer, read n bytes, return the unread tail, re-frame the cache plus data; the pool receives the tail and then the frames |
| XNetStream.DropBuffer | pkg/xnet/tcp_socket.go:82-89 | a failed read takes a buffer from the pool and never returns it |
| XNetStream.WriteSpec | pkg/xnet/tcp_socket.go:165-181 | the retry loop writes a prefix of the message; "flushed" means the whole message was written; a failing call still counts the bytes it took before its error |
| XNetStream.FailedWriteKeepsTaken | pkg/xnet/tcp_socket.go:171-174 | a partial write of k bytes followed by a call that takes n more and fails reports an error with the first k + n bytes written |
| XNetStream.WholeWriteFlushes | pkg/xnet/tcp_socket.go:165-181 | one complete write flushes the message |
| XNetStream.SplitWriteFlushes | pkg/xnet/tcp_socket.go:165-181 | a partial write followed by the remaining suffix flushes the message |
| XNetStream.WriteAll | pkg/xnet/tcp_socket.go:165-181 | the retry loop resends the unwritten suffix and computes WriteSpec |
| XNetDrain.DrainDeliver | pkg/xnet/websocket.go:128-140 | a nil message stops the writer; a failed write stops it; otherwise exactly that message is sent |
| XNetDrain.DrainWriterPass | pkg/xnet/websocket.go:108-141 | one pass of the drain-after-close writer: it drains exactly when it saw close and the queue is empty; what it sent plus the queue is the old queue, in order; after close it sends at most one message per pass |
| XNetDrain.DrainWriterPassCases | pkg/xnet/websocket.go:108-141 | a nil stops with the nil removed; a failed write stops with the message removed; while open with an empty queue the writer blocks; after close a good write sends the head |
| XNetDrain.DrainWritesHead | pkg/xnet/websocket.go:121-130 | after close, one pass over a queue without nil and with a good write sends exactly the head; an empty poll ends the writer |
| XNetDrain.DrainAfterClose | pkg/xnet/websocket.go:108-141 | the passes after close, repeated until one ends the writer, always end it |
| XNetDrain.DrainWritesAll | pkg/xnet/websocket.go:108-141 | after close, with no nil queued and every write succeeding, the repeated passes send the whole queue in order and end on the empty poll |
| XNetTcpSocket.TcpReaderExitKeepsInv | pkg/xnet/tcp_socket.go:66-72 | the read loop's exit closes closeCh and calls onDisconnect with the connect state, each once |
| XNetTcpSocket.TcpWriterPass | pkg/xnet/tcp_socket.go:150-161 | one writer pass writes a prefix of the drained batch, all of it unless a write fails; a failure happens only on a non-empty batch; an empty batch or a seen close ends the writer |
| XNetTcpSocket.TcpWrite | pkg/xnet/tcp_socket.go:150-161 | the writer pass (empty check, retrying write, exit on close) computes TcpWriterPass |
| XNetTcpSocket.TcpWriterPassKeepsInv | pkg/xnet/tcp_socket.go:114-161 | a writer pass keeps the socket invariant: the wire is a prefix of what SendMsg accepted, and conn.Close is logged once |
| XNetTcpSocket.TcpSendKeepsInv | pkg/xnet/tcp_socket.go:183-192 | enqueuing keeps the socket invariant |
| XNetTcpSocket.TcpSocket.constructor | pkg/xnet/tcp_socket.go:39-60 | a new socket has empty queues and caches, is open, and has logged onConnect |
| XNetTcpSocket.TcpSocket.SendMsg | pkg/xnet/tcp_socket.go:183-192 | the outcome is SelectSend; only an enqueued message joins writeCh, and nothing else changes |
| XNetTcpSocket.TcpSocket.ExitReader | pkg/xnet/tcp_socket.go:66-72 | the read loop's exit marks the reader done and the socket closed, and logs its exit events |
| XNetTcpSocket.TcpSocket.ReadStep | pkg/xnet/tcp_socket.go:62-112 | (corrected pool, Finding F1) a read appends data and re-frames through ReadPass; an error, a handler failure or an overclaimed count ends the reader with its exit events; an overclaimed count is reported as a panic |
| XNetTcpSocket.TcpSocket.WriteStep | pkg/xnet/tcp_socket.go:126-148 | the writer blocks or wakes as SelectWake says; on waking it drains and writes the whole queue as one batch |
| XNetTcpSocket.TcpSocket.WriteBatch | pkg/xnet/tcp_socket.go:150-161 | the batch is the concatenated queue; the wire grows by what TcpWriterPass wrote; the writer's exit logs conn.Close |
| XNetTcpSocket.TcpSocket.Close | pkg/xnet/tcp_socket.go:195-198 | after Close both loops are done and closed, the reader's last pass having read end of stream; if the writer was still running and no write failed, the wire is exactly the concatenation of all accepted messages |
| XNetKcpSocket.CloseOnce | pkg/xnet/kcp_socket.go:205-209 | the CAS moves closeFlag from Start to Close and fires only on the first call |
| XNetKcpSocket.CloseOnceIdempotent | pkg/xnet/kcp_socket.go:197-209 | a second closeOnce changes nothing and does not fire |
| XNetKcpSocket.KcpWriterPass | pkg/xnet/kcp_socket.go:175-183 | every batch is written, even an empty one; a prefix is written, all of it unless a write fails; a seen close ends the writer |
| XNetKcpSocket.KcpWrite | pkg/xnet/kcp_socket.go:175-183 | the writer pass, with its retrying write (123-138), computes KcpWriterPass |
| XNetKcpSocket.WriterPassKeepsInv | pkg/xnet/kcp_socket.go:140-184 | a writer pass keeps the socket invariant |
| XNetKcpSocket.ReaderExitKeepsInv | pkg/xnet/kcp_socket.go:74-81 | the reader's exit (onDisconnect, releaseFn, then closeOnce) keeps the invariant and sets closeFlag to Close |
| XNetKcpSocket.CloseOnceKeepsInv | pkg/xnet/kcp_socket.go:205-209 | closeOnce keeps the invariant: closeCh is closed once iff closeFlag is Close |
| XNetKcpSocket.SendKeepsInv | pkg/xnet/kcp_socket.go:186-195 | enqueuing keeps the socket invariant |
| XNetKcpSocket.KcpSocket.constructor | pkg/xnet/kcp_socket.go:45-68 | a new socket is in flag Start, with empty queues, and has logged onConnect |
| XNetKcpSocket.KcpSocket.SendMsg | pkg/xnet/kcp_socket.go:186-195 | the outcome is SelectSend on the close flag; only an enqueued message joins writeCh |
| XNetKcpSocket.KcpSocket.CloseOnceStep | pkg/xnet/kcp_socket.go:205-209 | the flag follows CloseOnce, and close is logged only on the first call |
| XNetKcpSocket.KcpSocket.ExitReader | pkg/xnet/kcp_socket.go:74-81 | the reader ends, the flag becomes Close, and the exit events are logged in Go's defer order |
| XNetKcpSocket.KcpSocket.ReadStep | pkg/xnet/kcp_socket.go:70-121 | (corrected pool, Finding F1) data read while the flag is Start is re-framed; data read once the flag is Close is dropped and ends the reader; a handler count beyond the cache is reported as a panic |
| XNetKcpSocket.KcpSocket.WriteStep | pkg/xnet/kcp_socket.go:152-173 | the writer wakes as SelectWake says on the close flag, and on waking drains the queue into one batch |
| XNetKcpSocket.KcpSocket.WriteBatch | pkg/xnet/kcp_socket.go:175-183 | the wire grows by what KcpWriterPass wrote; the writer's exit logs conn.Close |
| XNetKcpSocket.KcpSocket.Close | pkg/xnet/kcp_socket.go:197-200 | after Close both loops are done and closeCh has been closed exactly once; if the writer was running and no write failed, the wire is all accepted messages |
| XNetWebsocket.WsWriterExitCounts | pkg/xnet/websocket.go:94-104 | the writer's exit sends one normal-closure frame and closes the connection once |
| XNetWebsocket.WsWriterPassKeepsInv | pkg/xnet/websocket.go:108-141 | a writer pass keeps the socket invariant: sent messages are a prefix of the accepted ones |
| XNetWebsocket.WsReaderExitKeepsInv | pkg/xnet/websocket.go:56-68 | the reader's exit (onDisconnect with the connect state, then forceClose) keeps the invariant |
| XNetWebsocket.WsForceCloseKeepsInv | pkg/xnet/websocket.go:149-153 | forceClose keeps the invariant |
| XNetWebsocket.WsSendKeepsInv | pkg/xnet/websocket.go:159-168 | enqueuing keeps the invariant |
| XNetWebsocket.WsReadMessage | pkg/xnet/websocket.go:46-84 | a message reaches onMsg iff the read succeeded within the read limit, and it arrives whole |
| XNetWebsocket.Websocket.constructor | pkg/xnet/websocket.go:38-52 | a new socket is open, with empty queues, and has logged onConnect |
| XNetWebsocket.Websocket.SendMsg | pkg/xnet/websocket.go:159-168 | the outcome is SelectSend; only an enqueued message joins writeCh |
| XNetWebsocket.Websocket.ForceClose | pkg/xnet/websocket.go:149-153 | closes and logs the close signal only the first time |
| XNetWebsocket.Websocket.ReadStep | pkg/xnet/websocket.go:54-90 | a read message goes whole to onMsg; a read error or a handler error ends the reader with its exit events |
| XNetWebsocket.Websocket.WriteStep | pkg/xnet/websocket.go:108-141 | one pass of DrainWriterPass; on exit the writer logs the close frame and conn.Close |
| XNetWebsocket.Websocket.Close | pkg/xnet/websocket.go:144-147 | after Close, closeCh and the connection were each closed once; with no nil queued and every write good, every accepted message was sent, in order |
| XNetUdpSocket.Received | pkg/xnet/udp_socket.go:61-72 | a successful read yields a datagram from the sender's address holding at most readBufferSize bytes, a prefix of what arrived |
| XNetUdpSocket.Outbound | pkg/xnet/udp_socket.go:111-123 | a server writes each datagram to its address; a client uses a connected write that ignores the address |
| XNetUdpSocket.UdpWriterPassKeepsInv | pkg/xnet/udp_socket.go:88-124 | a writer pass keeps the socket invariant |
| XNetUdpSocket.UdpForceCloseKeepsInv | pkg/xnet/udp_socket.go:132-136 | forceClose keeps the invariant |
| XNetUdpSocket.UdpSendKeepsInv | pkg/xnet/udp_socket.go:138-147 | enqueuing keeps the invariant |
| XNetUdpSocket.UdpSocket.Wire | pkg/xnet/udp_socket.go:111-123 | the datagrams on the wire correspond one for one to those written |
| XNetUdpSocket.UdpSocket.constructor | pkg/xnet/udp_socket.go:37-49 | a new socket is open with an empty queue (limit writeChanLimit*10 = 2000) |
| XNetUdpSocket.UdpSocket.SendMsg | pkg/xnet/udp_socket.go:138-147 | the outcome is SelectSend against the limit of 2000; only an enqueued datagram joins writeCh |
| XNetUdpSocket.UdpSocket.ForceClose | pkg/xnet/udp_socket.go:132-136 | closeCh is closed at most once |
| XNetUdpSocket.UdpSocket.ReadStep | pkg/xnet/udp_socket.go:61-73 | each datagram read goes to onMsg with its address; a read error ends the reader and forces close |
| XNetUdpSocket.UdpSocket.WriteStep | pkg/xnet/udp_socket.go:88-124 | one pass of DrainWriterPass; the writer's exit logs conn.Close |
| XNetUdpSocket.UdpSocket.Close | pkg/xnet/udp_socket.go:127-130 | after close, closeCh and the connection were each closed once; with no nil queued and every write good, the wire carries every accepted datagram in order |
| XNetUdpSession.Expired | pkg/xnet/udp_server.go:73-78 | a session is expired iff activeAt < now - udpSessionTimeout (strict: exactly 10 s idle survives) |
| XNetUdpSession.SessionExitKeepsInv | pkg/xnet/udp_session.go:67-72 | the handler loop's exit logs onDisconnect once |
| XNetUdpSession.SessionCloseKeepsInv | pkg/xnet/udp_session.go:116-120 | forceClose keeps the session invariant |
| XNetUdpSession.SessionTakeKeepsInv | pkg/xnet/udp_session.go:77-83 | taking the head message keeps the invariant: the handled messages plus the queue are the received ones |
| XNetUdpSession.UdpSession.constructor | pkg/xnet/udp_session.go:42-57 | a new session has activeAt = now, an empty queue and its address, and has logged onConnect |
| XNetUdpSession.UdpSession.RecvMsg | pkg/xnet/udp_session.go:91-101 | the outcome is SelectSend against udpMsgChanLimit (1024); activeAt is set to now only on a successful enqueue |
| XNetUdpSession.UdpSession.ForceClose | pkg/xnet/udp_session.go:116-120 | closeCh is closed at most once |
| XNetUdpSession.UdpSession.HandlerStep | pkg/xnet/udp_session.go:74-88 | the loop wakes as SelectWake says; it hands the head message to onMsg (FIFO), ends on a handler error, and ends on the close signal with messages left queued |
| XNetUdpSession.UdpSession.Close | pkg/xnet/udp_session.go:111-114 | after Close the handler loop is done; closeCh was closed once and onDisconnect called once, with the session itself |
| XNetUdpSession.UdpSession.SendMsg | pkg/xnet/udp_session.go:122-124 | enqueues onto the shared socket a datagram addressed to the session's peer |
| XNetUdpServer.ExpiredAddrs | pkg/xnet/udp_server.go:73-81 | the expiry list holds exactly the mapped addresses whose sessions are expired |
| XNetUdpServer.CloseAll | pkg/xnet/udp_server.go:133-138 | every listed session ends closed with its handler loop done |
| XNetUdpServer.UdpServer.ActiveAt | pkg/xnet/udp_server.go:77-81 | the activeAt of every mapped session, keyed by address |
| XNetUdpServer.UdpServer.constructor | pkg/xnet/udp_server.go:35-58 | a new server has no sessions and a fresh open server socket |
| XNetUdpServer.UdpServer.OnMsg | pkg/xnet/udp_server.go:91-111 | a session is created exactly when the address is unseen; the datagram is offered only to that address's session; activeAt becomes now on creation or successful enqueue; other sessions are untouched |
| XNetUdpServer.UdpServer.SessionFor | pkg/xnet/udp_server.go:113-131 | get-or-create: a known address keeps its session; an unseen one gets a fresh session with activeAt = now, added under that key only |
| XNetUdpServer.UdpServer.SweepAsWritten | pkg/xnet/udp_server.go:73-87 | as written: exactly the expired addresses leave the map, and their sessions are left unchanged (still open) |
| XNetUdpServer.UdpServer.Sweep | pkg/xnet/udp_server.go:73-87 | (corrected) exactly the expired addresses leave the map, and each removed session is closed with its loop done |
| XNetUdpServer.UdpServer.CheckStep | pkg/xnet/udp_server.go:60-89 | (corrected) the check loop stops on close; otherwise it sweeps the expired sessions |
| XNetUdpServer.UdpServer.Close | pkg/xnet/udp_server.go:133-143 | closes every mapped session, then the socket, then stops the check loop |
| XNetUdpClient.UdpClient.constructor | pkg/xnet/udp_client.go:30-58 | one session, for the server address, created with activeAt = now, over a fresh socket |
| XNetUdpClient.UdpClient.OnMsg | pkg/xnet/udp_client.go:82-86 | every datagram goes to the single session, whatever its source address |
| XNetUdpClient.UdpClient.SendMsg | pkg/xnet/udp_client.go:88-90 | enqueues a datagram addressed to the session's remote address |
| XNetUdpClient.UdpClient.ForceClose | pkg/xnet/udp_client.go:97-103 | the session and the socket are closed at most once; a second call changes nothing |
| XNetUdpClient.UdpClient.CheckStep | pkg/xnet/udp_client.go:60-80 | the check loop stops on close, or force-closes and stops when the session has expired |
| XNetUdpClient.UdpClient.Close | pkg/xnet/udp_client.go:92-95 | after Close the session and the socket are closed and onDisconnect ran once |
| XNetKcpMux.KmsString | pkg/xnet/kcp_mux.go:36-58 | the nine states have their own names; any other value is "unknown-" followed by its decimal |
| XNetKcpMux.KmsStringInjective | pkg/xnet/kcp_mux.go:36-58 | distinct state values have distinct names |
| XNetKcpMux.PackMsg | pkg/xnet/kcp_mux.go:238-250 | without the inline protocol the payload is unchanged; with it, a flag byte (non-zero iff control) precedes the payload |
| XNetKcpMux.ControlFrame | pkg/xnet/kcp_mux.go:130-144 | a control frame is 5 bytes with a non-zero flag, and its last 4 bytes decode to the state |
| XNetKcpMux.Passthrough | pkg/xnet/kcp_mux.go:95-97 | without the inline protocol the handler's count and error pass through |
| XNetKcpMux.DataReply | pkg/xnet/kcp_mux.go:111-115 | a non-zero handler count gains the 1-byte header; zero stays zero |
| XNetKcpMux.Inline | pkg/xnet/kcp_mux.go:147-194 | the transition table: the accepted (received, current) pairs consume 5 bytes; all others consume 0 with "inline invalid" and leave the state; Eof exactly on LastAck+TimeWait and FinWait2+LastAck; init is signalled when reaching Established; close is signalled on FinWait2 to TimeWait; states only move forward |
| XNetKcpMux.NewMux | pkg/xnet/kcp_mux.go:82-90 | a listening mux starts in Listen, otherwise in SynSent, with nothing sent or signalled |
| XNetKcpMux.MuxOnMsg | pkg/xnet/kcp_mux.go:93-128 | (corrected) without the inline protocol it passes through; with it, an empty buffer or a short control prefix is "need more"; a data frame reaches the handler without its flag byte only in Established, else "not established"; a control frame runs Inline |
| XNetKcpMux.MuxKeepsFramingContract | pkg/xnet/kcp_mux.go:93-128 | a handler that keeps the framing contract yields a mux handler that keeps it too |
| XNetKcpMux.DataFrameRoundTrip | pkg/xnet/kcp_mux.go:108-118 | a packed data frame reaches the handler as its payload when Established, and is refused otherwise |
| XNetKcpMux.ControlFrameStep | pkg/xnet/kcp_mux.go:119-127 | onMsg of a control frame is the Inline transition for its state |
| XNetKcpMux.NewMuxInv | pkg/xnet/kcp_mux.go:82-90 | a new mux satisfies the mux invariant |
| XNetKcpMux.OnMsgKeepsInv | pkg/xnet/kcp_mux.go:93-194 | onMsg keeps the invariant: the state stays one of the nine; init and close are signalled at most once |
| XNetKcpMux.Handshake | pkg/xnet/kcp_mux.go:149-165 | a SynSent mux and a Listen mux exchanging frames in order both reach Established, each with init signalled once |
| XNetKcpMux.Teardown | pkg/xnet/kcp_mux.go:168-190 | closing one side of an established pair: the passive side replies CloseWait then LastAck; the initiator ends in TimeWait with close signalled and io.EOF; the passive side stays in LastAck and gets io.EOF |
| XNetKcpMux.SimultaneousCloseRefused | pkg/xnet/kcp_mux.go:192-193 | a FinWait1 frame meeting a FinWait1 mux is refused as inline invalid |
| XNetKcpMux.SendSyn | pkg/xnet/kcp_mux.go:202-205 | init sends SynSent only with the inline protocol on and in SynSent |
| XNetKcpMux.StartClose | pkg/xnet/kcp_mux.go:222-224 | close enters FinWait1 and sends it only from Established |
| XNetKcpMux.AwaitSignal | pkg/xnet/kcp_mux.go:206-212 | a wait succeeds iff an unconsumed signal is pending; otherwise the timeout wins when it fires |
| XNetKcpMux.OnMsgAsWritten | pkg/xnet/kcp_mux.go:100-126 | as written: a control frame of at least 5 bytes behaves as the corrected onMsg; a shorter one reads past its end, so it panics or reads stale bytes |
| XNetKcpMux.ShortControlPrefix | pkg/xnet/kcp_mux.go:100-126 | the 1-byte control prefix [1]: as written it panics or claims 5 consumed bytes and moves a Listen mux to SynRcvd; corrected, it is "need more" |
| XNetKcpMux.KcpMux.constructor | pkg/xnet/kcp_mux.go:82-90 | the object's state is NewMux |
| XNetKcpMux.KcpMux.SendInline | pkg/xnet/kcp_mux.go:130-144 | appends exactly one state to the outbound frame log and changes nothing else |
| XNetKcpMux.KcpMux.InlineProtocol | pkg/xnet/kcp_mux.go:147-194 | the new state, replies and signals are those of the Inline transition |
| XNetKcpMux.KcpMux.OnMsg | pkg/xnet/kcp_mux.go:93-128 | the new state and the reply are MuxOnMsg of the old state |
| XNetKcpMux.KcpMux.Init | pkg/xnet/kcp_mux.go:197-205 | the new state is SendSyn of the old |
| XNetKcpMux.KcpMux.AwaitInit | pkg/xnet/kcp_mux.go:206-213 | without the inline protocol init returns at once; with it, the wait ends on the init signal, which implies Established or later, or on the timeout |
| XNetKcpMux.KcpMux.Close | pkg/xnet/kcp_mux.go:217-224 | the new state is StartClose of the old; it waits only when it left Established |
| XNetKcpMux.KcpMux.AwaitClose | pkg/xnet/kcp_mux.go:225-233 | the wait ends on the close signal, which implies TimeWait, or on the timeout |
| XMsgCodec.EncodeHeader | pkg/xmsg/codec.go:47-52 | the header is 16 bytes |
| XMsgCodec.HeaderRoundTrip | pkg/xmsg/codec.go:25-29 | reading the header back from its encoding gives it back, whatever follows |
| XMsgCodec.HeaderSurjective | pkg/xmsg/codec.go:25-29 | any 16 bytes are the encoding of the header they decode to |
| XMsgCodec.Parse | pkg/xmsg/codec.go:22-33 | (corrected) under 16 bytes, or under 16+Len bytes, is "need more"; a negative Len is reported; a frame's payload is msg[16:16+Len] |
| XMsgCodec.OnMsgOnce | pkg/xmsg/codec.go:19-37 | a non-zero count exactly for a whole frame, 16+Len even when the callback errs, and never more than the input |
| XMsgCodec.ParseMsgWarp | pkg/xmsg/codec.go:19-37 | the handler keeps the framing contract |
| XMsgCodec.PackMsg | pkg/xmsg/codec.go:47-56 | a 16-byte header followed by the payload unchanged |
| XMsgCodec.PackParse | pkg/xmsg/codec.go:19-56 | parsing PackMsg(args) followed by anything gives back Seq, Cmd, Flag and the payload, and consumes exactly the packed bytes |
| XMsgCodec.ParsePack | pkg/xmsg/codec.go:19-56 | a parsed frame is exactly the packing of what it carries |
| XMsgCodec.DecodeHeaderPrefix | pkg/xmsg/codec.go:25-29 | the header depends on the first 16 bytes only |
| XMsgCodec.PrefixNeedsMore | pkg/xmsg/codec.go:22-32 | every proper prefix of a packed message is "need more" |
| XMsgCodec.ParseAsWritten | pkg/xmsg/codec.go:22-35 | as written: panics exactly when Len is negative, and otherwise agrees with Parse |
| XMsgCodec.NegativeLenPanics | pkg/xmsg/codec.go:30-33 | a lone header with Len = -1 makes the parser as written panic; the corrected one errs and consumes nothing |
| XMsgCodec.ReframePacked | pkg/xmsg/codec.go:19-56 | a stream of packed messages is cut by the read loop into exactly those messages |
| XRegistry.EncodeField | pkg/xregistry/genericity.go:80-85 | a field encodes to its fixed little-endian size |
| XRegistry.DecodeField | pkg/xregistry/genericity.go:100-103 | decoding yields a field of the requested kind |
| XRegistry.FieldRoundTrip | pkg/xregistry/genericity.go:71-105 | decoding a field's encoding gives it back |
| XRegistry.EncodeFields | pkg/xregistry/genericity.go:80-85 | a struct encodes to the sum of its field sizes |
| XRegistry.DecodeFields | pkg/xregistry/genericity.go:100-103 | decoding yields fields of the requested layout |
| XRegistry.Marshal | pkg/xregistry/genericity.go:71-86 | succeeds exactly for fixed-size data, with the layout's size |
| XRegistry.Unmarshal | pkg/xregistry/genericity.go:89-105 | succeeds exactly when the message is at least the layout's size, and yields that layout |
| XRegistry.DecodeFieldsStep | pkg/xregistry/genericity.go:100-103 | fields are read one after another from the front |
| XRegistry.DecodeEncodeFields | pkg/xregistry/genericity.go:71-105 | decoding an encoding, whatever follows it, gives the fields back |
| XRegistry.MarshalRoundTrip | pkg/xregistry/genericity.go:71-105 | Unmarshal(Marshal(x) + rest) = x |
| XRegistry.OnConnect | pkg/xregistry/genericity.go:43-46 | the state holds the connecting socket |
| XRegistry.OnMsg | pkg/xregistry/genericity.go:30-40 | runs the handler registered for the header's Cmd on the payload, or errs "can not find handler" |
| XRegistry.HandleWarp | pkg/xregistry/genericity.go:56-68 | an Unmarshal error is returned without calling the function; otherwise the function runs on the decoded request |
| XRegistry.SendMsg | pkg/xregistry/state.go:20-37 | sends one packet, PackMsg with Cmd = cmd and Seq = Flag = 0 over Marshal(data), or nothing when marshalling fails |
| XRegistry.SendMsgParses | pkg/xregistry/state.go:20-37 | the sent packet parses back to Cmd = cmd, Seq = Flag = 0 and a payload that unmarshals to the data |
| XRegistry.UnmarshalNum | pkg/xregistry/genericity.go:89-105 | an int32 request unmarshals iff the message has at least 4 bytes |
| XRegistry.Echo | pkg/xregistry/handler_echo.go:26-30 | replies EchoResp{Num} under CMD_ECHO and never errs |
| XRegistry.Registry.constructor | pkg/xregistry/genericity.go:16 | the command table starts empty |
| XRegistry.Registry.Register | pkg/xregistry/genericity.go:22-27 | panics iff the cmd is already registered; otherwise adds exactly that entry |
| XRegistry.Registry.InitEcho | pkg/xregistry/handler_echo.go:10-15 | registers CMD_ECHO = 1 to HandleWarp(Echo) |
| XRegistry.EchoEndToEnd | pkg/xregistry/handler_echo.go:10-30 | a packed EchoReq{n} is consumed whole and answered with one CMD_ECHO packet whose payload decodes to n |
| TunCodec.Pack | cmd/udp_tun/internal/handlers/codec.go:20-29 | the packet is 8 bytes longer than the message |
| TunCodec.Unpack | cmd/udp_tun/internal/handlers/codec.go:31-43 | errs iff the message is shorter than 8 bytes; otherwise returns msg[8:] |
| TunCodec.UnpackPack | cmd/udp_tun/internal/handlers/codec.go:20-43 | unpack(pack(m)) = m, and the header holds the packing time |
| TunCodec.PackUnpack | cmd/udp_tun/internal/handlers/codec.go:31-43 | a message that unpacks is the packing of its payload at its header time |
| TunRegistry.ModeString | cmd/udp_tun/internal/handlers/registry.go:20-30 | modes 0, 1 and 2 are "normal", "client" and "server"; anything else is "mode[n] invalid" |
| TunRegistry.ModeStringInjective | cmd/udp_tun/internal/handlers/registry.go:20-30 | distinct modes have distinct names |
| TunRegistry.Configure | cmd/udp_tun/internal/handlers/registry.go:54-73 | rejects exactly the modes outside {0, 1, 2} with "mode[n] invalid[0\|1\|2]"; normal mode forces header off; the other arguments are copied |
| TunRegistry.Strip | cmd/udp_tun/internal/handlers/registry.go:186-195 | unpacking fails iff the message is shorter than the header; on failure nothing is forwarded or counted |
| TunRegistry.OnMsg | cmd/udp_tun/internal/handlers/registry.go:173-199 | consumed is always 0; client mode with header packs; server mode with header unpacks and fails only on a short message; otherwise the message is forwarded unchanged |
| TunRegistry.ProxyOnMsg | cmd/udp_tun/internal/handlers/registry.go:102-127 | the mirror: server mode with header packs; client mode with header unpacks |
| TunRegistry.OutboundRoundTrip | cmd/udp_tun/internal/handlers/registry.go:173-199 | a paired client and server forward a client message unchanged, and the server records the delay t2 - t1 and its length |
| TunRegistry.InboundRoundTrip | cmd/udp_tun/internal/handlers/registry.go:102-127 | the reverse direction through the proxies also arrives unchanged, with the delay recorded |
| TunRegistry.ServerAcceptsOnlyPackings | cmd/udp_tun/internal/handlers/registry.go:186-195 | what a header server accepts is exactly a packing of what it forwards |
| TunRegistry.Registry.constructor | cmd/udp_tun/internal/handlers/registry.go:52 | the package registry starts with zero settings |
| TunRegistry.Registry.InitRegistry | cmd/udp_tun/internal/handlers/registry.go:54-73 | an invalid mode returns its error and leaves the registry as it was; otherwise the registry becomes Configure(arg), overwriting any earlier call |
| TunSnmp.Received | cmd/udp_tun/internal/handlers/snmp.go:70-76 | inBytes grows by len and inPackets by one; the delay is appended; the invariant len(inLatencys) = inPackets is kept |
| TunSnmp.Sent | cmd/udp_tun/internal/handlers/snmp.go:78-83 | outBytes grows by len and outPackets by one; nothing else changes |
| TunSnmp.Merge | cmd/udp_tun/internal/handlers/snmp.go:85-96 | adding keeps the invariant, and zero counters are its identity on both sides |
| TunSnmp.SumConcat | cmd/udp_tun/internal/handlers/snmp.go:85-96 | the sum of concatenated latency lists is the sum of the sums |
| TunSnmp.MergeSums | cmd/udp_tun/internal/handlers/snmp.go:85-96 | merged latencies sum to the two sums |
| TunSnmp.MergeAssociative | cmd/udp_tun/internal/handlers/snmp.go:85-96 | merging is associative, so closing entries into total in any grouping gives the same total |
| TunSnmp.AverageDelay | cmd/udp_tun/internal/handlers/snmp.go:114-121 | 0 with no packets; otherwise the sum over the count, truncated toward zero |
| TunSnmp.SumBounds | cmd/udp_tun/internal/handlers/snmp.go:114-121 | n latencies between lo and hi sum to between n*lo and n*hi |
| TunSnmp.AverageBetween | cmd/udp_tun/internal/handlers/snmp.go:114-121 | the displayed average lies between the smallest and the largest latency |
| TunSnmp.SingleTunSnmp.constructor | cmd/udp_tun/internal/handlers/snmp.go:19-30 | a new entry has its id and zero counters |
| TunSnmp.SingleTunSnmp.Clone | cmd/udp_tun/internal/handlers/snmp.go:53-68 | the clone holds every counter and the latency list |
| TunSnmp.SingleTunSnmp.Recv | cmd/udp_tun/internal/handlers/snmp.go:70-76 | the counters become Received of the old ones |
| TunSnmp.SingleTunSnmp.Send | cmd/udp_tun/internal/handlers/snmp.go:78-83 | the counters become Sent of the old ones |
| TunSnmp.SingleTunSnmp.Add | cmd/udp_tun/internal/handlers/snmp.go:85-96 | the counters become Merge of the old ones and the clone |
| TunSnmp.SingleTunSnmp.Display | cmd/udp_tun/internal/handlers/snmp.go:109-129 | the summing loop yields AverageDelay of the counters |
| TunSnmp.TunSnmp.constructor | cmd/udp_tun/internal/handlers/snmp.go:10 | a zero "total" entry and an empty map |
| TunSnmp.TunSnmp.GetSingleTunSnmp | cmd/udp_tun/internal/handlers/snmp.go:40-51 | a known id returns its entry and leaves the map; an unknown one inserts a fresh zero entry under that id only |
| TunSnmp.TunSnmp.Close | cmd/udp_tun/internal/handlers/snmp.go:98-107 | total becomes Merge(total, entry) and only that id leaves the map |
| XLatencyCodec.Pack | pkg/xlatency/codec.go:22-30 | the packet is 8 bytes longer than the message |
| XLatencyCodec.Unpack | pkg/xlatency/codec.go:32-42 | (corrected) errs iff shorter than 8 bytes; otherwise the header time and msg[8:] |
| XLatencyCodec.UnpackAsWritten | pkg/xlatency/codec.go:32-42 | as written: errs when short, and panics on every message of 8 bytes or more |
| XLatencyCodec.PackedMessageBreaksUnpack | pkg/xlatency/codec.go:13-41 | unpack as written panics on pack's own output; the corrected one returns the time and the message |
| XLatencyCodec.PackUnpack | pkg/xlatency/codec.go:32-42 | a message that unpacks is the packing of its payload at its header time |
| XLatency.Initial | pkg/xlatency/latency.go:42-52 | the initial state (empty queue, zero counters) satisfies the invariant |
| XLatency.IsLoss | pkg/xlatency/latency.go:85-93 | packets always grows by one; lost grows iff the draw is below int32(loss); loss 0 never drops; loss in [100, 2^31) always drops |
| XLatency.RandLatency | pkg/xlatency/latency.go:95-102 | 0 for latency 0; otherwise a draw in [0, latency) that is added to allDelay; panics exactly when int32(latency) is not positive |
| XLatency.Extend | pkg/xlatency/latency.go:104-106 | appends one message at now + delay to the end of the queue |
| XLatency.Receive | pkg/xlatency/latency.go:139-158 | a lost packet only counts; a kept one is appended with its side and payload |
| XLatency.ReceiveKeepsInv | pkg/xlatency/latency.go:85-106 | lost <= packets, and allDelay <= (number of delays drawn) * max delay, are kept |
| XLatency.Kept | pkg/xlatency/latency.go:160-174 | the kept messages are all due after now and are drawn from the queue |
| XLatency.Delivered | pkg/xlatency/latency.go:163-173 | at most as many deliveries as messages |
| XLatency.TickConserves | pkg/xlatency/latency.go:160-174 | every message is kept or delivered to exactly one side |
| XLatency.KeptLater | pkg/xlatency/latency.go:160-174 | ticking at t1 then at t2 >= t1 keeps the same messages as ticking once at t2 |
| XLatency.AllDue | pkg/xlatency/latency.go:163-166 | when every message is due, nothing is kept |
| XLatency.PassThrough | pkg/xlatency/latency.go:139-174 | with no loss and no latency, a message goes out unchanged, alone, to its side at the next tick |
| XLatency.CloseAverage | pkg/xlatency/latency.go:74-78 | 0 when packets - lost is 0 as uint32 |
| XLatency.AverageAtMostMaxDelay | pkg/xlatency/latency.go:74-78 | within the integer widths, the closing average never exceeds the largest delay a draw can give |
| XLatency.TickQueue | pkg/xlatency/latency.go:160-174 | the loop keeps exactly the messages not yet due, in order; due ones go, in order, to their side's callback when registered, and are dropped otherwise |
| XLatency.InitArgAccepted | pkg/xlatency/latency.go:59-66 | the actor's handler arguments build a handler table, with one ticker every 5 ms |
| XLatency.LatencyActor.constructor | pkg/xlatency/latency.go:42-57 | a new actor has its settings, the initial state and no callbacks |
| XLatency.LatencyActor.RegisterSendToSvr | pkg/xlatency/latency.go:116-119 | sets only the server callback |
| XLatency.LatencyActor.RegisterSendToCli | pkg/xlatency/latency.go:129-132 | sets only the client callback |
| XLatency.LatencyActor.Recv | pkg/xlatency/latency.go:139-158 | the state becomes Receive of the old state, or the call panics exactly where randLatency does |
| XLatency.LatencyActor.TickLoop | pkg/xlatency/latency.go:160-175 | the queue becomes Kept; the deliveries are Delivered for each registered side; the counters are unchanged |
| XLatency.LatencyActor.Close | pkg/xlatency/latency.go:72-83 | returns CloseAverage of the state |
| XActorHandler.SyncHandlerWrap | pkg/xactor/handler.go:20-28 | a request of the wrapped type reaches the function; any other type errs and leaves the state |
| XActorHandler.AsyncHandlerWrap | pkg/xactor/handler.go:31-40 | a request of the wrapped type reaches the function; any other type is skipped |
| XActorHandler.FirstRepeat | pkg/xactor/handler.go:77-88 | none iff the types are pairwise distinct; otherwise the first type seen twice |
| XActorHandler.RepeatPersists | pkg/xactor/handler.go:77-82 | a repeat found in a prefix is the repeat of the whole list |
| XActorHandler.TableOf | pkg/xactor/handler.go:77-88 | the table's keys are exactly the registered types |
| XActorHandler.TableFor | pkg/xactor/handler.go:77-88 | building the table succeeds iff the types are distinct |
| XActorHandler.NewActorHandler | pkg/xactor/handler.go:67-91 | succeeds iff both type lists are duplicate-free; a sync duplicate is reported first; tickers are kept; a zero duration becomes the 1-minute default |
| XActorHandler.FirstRepeatAt | pkg/xactor/handler.go:77-82 | the first index whose type was already seen names the repeat |
| XActorHandler.BuildTable | pkg/xactor/handler.go:77-88 | the filling loop computes TableFor |
| XActorHandler.BuildActorHandler | pkg/xactor/handler.go:67-91 | the constructor with its loops computes NewActorHandler |
| XActorHandler.GetSyncHandler | pkg/xactor/handler.go:97-99 | found iff the type is registered |
| XActorHandler.GetAsyncHandler | pkg/xactor/handler.go:101-103 | found iff the type is registered |
| XActorHandler.TableHolds | pkg/xactor/handler.go:77-88 | every registration is found under its own type |
| XActorHandler.Lookups | pkg/xactor/handler.go:97-103 | lookups return the registered handler, and nothing for an unknown type |
| XActorHandler.DispatchReachesWrapped | pkg/xactor/handler.go:20-28 | a request of the wrapped type, looked up in the built table, runs the wrapped function |
| XActorHandler.RunTickersAppend | pkg/xactor/handler.go:105-109 | running tickers a then b is running a + b |
| XActorHandler.Tick | pkg/xactor/handler.go:105-109 | the loop calls each ticker once, in registration order |
| XActorManager.ActorGroutine.constructor | pkg/xactor/actor_groutine.go:30-50 | a new actor is open under its name |
| XActorManager.Manager.constructor | pkg/xactor/manager.go:14-16 | the registry starts empty |
| XActorManager.Manager.RegisterActor | pkg/xactor/manager.go:18-26 | rejects a name already present with "actor X is repeated"; otherwise adds exactly that entry |
| XActorManager.Manager.DeregisterActor | pkg/xactor/manager.go:28-32 | removes only that name |
| XActorManager.Manager.GetActor | pkg/xactor/manager.go:34-42 | returns the actor registered under the name, or errs "actor[name] is nil" |
| XActorManager.Manager.Close | pkg/xactor/actor_groutine.go:142-148 | closes the actor and deregisters it; closing an actor already closed panics |
| XActorManager.Manager.CloseAll | pkg/xactor/manager.go:44-56 | every actor registered at the start is closed and the registry ends empty |
| XCommonMath.TruncDivSpec | pkg/xcommon/math.go:7 | Go's quotient truncates toward zero: a = b*q + r, with abs(r) < abs(b) and r having a's sign |
| XCommonMath.SafeDivisionSigned | pkg/xcommon/math.go:3-8 | 0 for a zero divisor; otherwise the truncated quotient, which stays in range, and MinInt / -1 wraps to MinInt |
| XCommonMath.TruncDivInRange | pkg/xcommon/math.go:7 | the truncated quotient fits the width except for MinInt / -1 |
| XCommonMath.SafeDivisionUnsigned | pkg/xcommon/math.go:3-8 | 0 for a zero divisor; otherwise the floor quotient, never above a |
| XCommonMath.SignedDivisionTruncates | pkg/xcommon/math.go:7 | -7/2 is -3 in Go but -4 under Euclidean division |
| XCommonMath.SignedMatchesEuclideanOnNonNegatives | pkg/xcommon/math.go:7 | on non-negative operands the two divisions agree |
| XLogLevel.CustomLevelEncode | pkg/xlog/level.go:26-34 | exactly one string is appended and earlier entries are untouched |
| XLogLevel.EncodeLevelTable | pkg/xlog/level.go:9-23 | Debug, Info, Warn and Error map to their names and to magenta, blue, yellow and red; any other level is "LEVEL(n)" in red |
| XLogLevel.EncodeLevelInjective | pkg/xlog/level.go:9-23 | distinct levels have distinct names |
| XLogLevel.CustomLevelEncodeAppends | pkg/xlog/level.go:26-34 | the appended name is wrapped in its colour iff withColor |
| XLogColor.PaletteConsecutive | pkg/xlog/color.go:9-18 | the eight colours run from 30 (black) to 37 (white) |
| XLogColor.Add | pkg/xlog/color.go:32-34 | the result is escape, the decimal code, "m", the text and the reset sequence |
| XLogColor.AddParts | pkg/xlog/color.go:32-34 | the code parses back, the text is unchanged in the middle, and the result ends with "\x1b[0m" |
| XLogColor.AddInjective | pkg/xlog/color.go:32-34 | the colour and the text are recoverable from the result |

## Left out

- Goroutines, channels as synchronisation, wait groups, `sync.Once`, mutexes and atomics. Each loop is a sequential step method and each `select` is a choice parameter. Interleavings are not modelled.
- Real I/O: TCP, UDP, KCP and websocket connections, read and write deadlines, and the KCP tuning calls. Reads and writes are abstract results passed in.
- XNetStream.WriteSpec: the `Stalled` outcome stands for a write that makes no progress until the attempts given run out. Go has no such outcome, because a write deadline eventually fails the write. The socket write steps require the batch to settle.
- Listener, accept and dial code: the TCP, KCP and websocket servers and clients. Their only state is a socket set.
- The actor runtime: goroutine dispatch, mailboxes and blocking request/reply. `XActorManager.ActorGroutine` keeps only its name and a closed flag.
- Wall-clock time, tickers and `math/rand`. Times and random draws are parameters. Handshake and close timeouts are a "timed out" choice.
- XNetTcpSocket.TcpSocket.ReadStep and XNetKcpSocket.KcpSocket.ReadStep: a handler count beyond the cache is only reported (`panicked`). In Go the deferred exit runs and then the process dies. The model does not stop later steps, so the `Close` contracts after such a panic describe a process that no longer exists.
- Logging output and the log text of `display` and `Close`. Only the computed averages are modelled.
- Slice aliasing between `readCaches` and the buffers returned to the pool. Bytes are modelled by value, so a pooled buffer that still shares memory with the cache is not captured. `sync.Pool` is a multiset that never evicts.
- XNetStream.ReadPass: the Go loop interleaves pool puts with handler calls. The model calls the handler first and then recycles the frames in the same order. The handler cannot reach the pool, so the outcome is the same.
- The socket `Close` methods run their loops to completion with the given write results. They do not model a wait-group wait that never returns.
- XNetTcpSocket.TcpSocket.Close: the wire-equals-accepted promise holds only when the writer was still running. Messages sent after the writer stopped on an empty batch stay queued forever, as in the code.
- The shape of `addrToString`: sessions are keyed by the address value. Two addresses with the same string are not distinguished.
- XNetUdpServer.UdpServer.Close and XNetUdpClient.UdpClient.ForceClose: a session's `Close` is modelled as taking the close signal at once, so its handler loop ends without handling queued messages.
- Integer widths of counters and sums: inBytes, inPackets, outBytes and outPackets (uint64), the latency actor's packets and lost (uint32) and allDelay (int64), and the queue time `at` are unbounded.
  - The int32 conversion of `loss` and the int32 and int64 conversions in the codecs are modelled exactly.
  - `CloseAverage` wraps allDelay to uint64 and packets − lost to uint32, as Go does.
  - XLatency.AverageAtMostMaxDelay assumes both stay within their widths.
- XMsgCodec.PackMsg: Len is the payload length wrapped to int32. The round-trip lemmas assume payloads of at most 2^31 − 1 bytes.
- The tunnel's OnConnect and OnDisconnect (cmd/udp_tun/internal/handlers/registry.go:76-171) are left out. They dial the proxy, create the statistics entry and start a latency actor. Only the per-message decisions and the registry are modelled.
- Type tags stand for `reflect.Type`. Handlers are total functions, so the Go `!= nil` duplicate checks become membership tests.
- The latency actor's registered callbacks are presence flags. What `sendToSvr` and `sendToCli` do is outside the model. Deliveries are returned as outputs.
- TunSnmp.TunSnmp.GetSingleTunSnmp requires the map invariant (each entry stored under its own id), which the package keeps.

## Findings

| source | as written | input that shows it | evidently intended | confidence | as-written member | corrected member |
|---|---|---|---|---|---|---|
| pkg/xnet/buffer.go:35-38 | the loop pushes `cache[0:1024]` but never shortens the cache, so it never ends once the cache reaches 1024 bytes | any put that leaves at least 1024 bytes in the cache | drop each pushed chunk from the front (`cache = cache[1024:]`) | not executed | XNetBuffer.PutAsWrittenNeverTerminates | XNetBuffer.BufferPool.Put |
| pkg/xmsg/codec.go:30-33 | a negative Len passes the length check, and then `msg[16:16+Len]` has its end before its start, so Go panics | a 16-byte header whose Len is -1 | reject a negative Len with an error | not executed | XMsgCodec.NegativeLenPanics | XMsgCodec.Parse |
| pkg/xnet/kcp_mux.go:100-126 | only the 1-byte flag is length-checked before `msg[1:5]` is read for a control frame | the single byte [1] | answer "need more" (0, nil) until the 5 control bytes are there | not executed | XNetKcpMux.ShortControlPrefix | XNetKcpMux.MuxOnMsg |
| pkg/xnet/udp_server.go:84-87 | expired sessions are deleted from the map but never closed, so their handler loops keep running | any session whose activeAt is more than 10 s before the sweep | close each expired session as it is removed | not executed | XNetUdpServer.UdpServer.SweepAsWritten | XNetUdpServer.UdpServer.Sweep |
| pkg/xlatency/codec.go:13-41 | the header's only field `now` is unexported, and `binary.Read` cannot set it through reflection, so it panics | pack(m) for any m | export the field, as the tunnel's codec header does | not executed | XLatencyCodec.PackedMessageBreaksUnpack | XLatencyCodec.Unpack |
