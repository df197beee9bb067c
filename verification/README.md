# Verified model of (f)db's batching writer, wire codec and handlers

(f)db puts fast transports in front of an MDBX key-value store. Every transport acknowledges a write
as soon as a sharded, batching writer has accepted it; worker goroutines commit the writes later, in
transactions. This project models that machinery in Dafny and proves what the store, the replies and
the benchmark report show for every schedule, every failure and every input.

## How it is built

- `Bytes`, `Store`: bytes, keys, the length field, slices that alias arrays; the store as a map with
  atomic transactions, and `Replay`, the sequential specification with one `Db.Set` per write.
- `Messages`: the wire format, its decoder with the uint32 slice bound, and the in-place encoders.
- `Writers`: one `BatchWriter` as a step system. A worker is at its `select`, holds a request, is in
  a flush, or has exited; the cases of the `select`, the map write with the size check, and the
  transaction are separate steps, so goroutines interleave between them. `accepted`, `closed`,
  `current` and `arrivals` are history that no step reads.
- `Transports`: any number of writers with any settings on one store, as registry.go sets them up.
  `Inv` is what every run keeps; a run is a sequence of enabled actions.
- `Histories`, `Failures`, `Shards`, `Flushing`, `Stopping`, `Draining`, `Landing`: the theorems about
  runs: what the store shows, what a failed transaction costs, how the writer compares with the plain
  store, what a stop leaves behind, and when an accepted write is what a read sees.
- `Turns`: what a worker goroutine does when woken, in whole turns of its select loop or cut into steps.
- `BatchWriting`: the `BatchWriter` object updated in place, each method proved to take the matching
  step of `Writers`. Its queues and buffers hold slices of arrays it does not own; `owned` records
  what those arrays held, and `Valid` says they still do.
- `Handlers`, `Streams`, `Servers`, `Registry`: the TCP and QUIC handlers, the streams of a QUIC server
  among everything else that goes on, the server objects and their constructors.
- `EndToEnd`: from the bytes of a write frame to the bytes of a later reply.
- `Report`: the benchmark statistics.

Taken as given: an MDBX update transaction is atomic and serialised, a view sees a committed state,
and the views of the read handlers do not fail; `int` has 64 bits; a TCP traffic event carries one
frame whose array nobody writes afterwards; a send or a lock is one atomic step. Faults of a
transaction (opening the cursor, any put, the commit) are parameters.

Where the code and its comments differ the model follows the code: a failed flush also clears the
buffer (db/writer.go:115-124), which by `Failures` loses its writes for good, and `FlushAndStop` does
not wait for or drain the channels (db/writer.go:127-131).

## Model

| member | source | states |
|---|---|---|
| Bytes.Be32RoundTrip | messages/message.go:62 | the length field keeps a length modulo 2^32 |
| Bytes.BigEndian | messages/message.go:62 | the most significant byte of the length field comes first |
| Messages.RoundTrip | messages/message.go:48-95 | decoding an encoded message followed by anything gives the message back if and only if its data has at most 2^32-38 bytes |
| Messages.OutOfRangeExactly | messages/message.go:84-92 | the slice expression of `Decode` panics exactly when a declared length of at least 2^32-37 bytes is really present, hence never on inputs shorter than 2^32 bytes |
| Messages.EncodingFields | messages/message.go:53-65 | handler at byte 0, key at 1, length at 33, data at 37 |
| Messages.ErrorsExactly | messages/message.go:72-88 | too short exactly below 37 bytes, length mismatch exactly when fewer than the declared bytes follow |
| Messages.Reencoding | messages/message.go:71-95 | an accepted frame begins with the encoding of the message decoded from it |
| Messages.UniquelyDecodable | messages/message.go:48-95 | a concatenation of encodings has one reading, and decoding it gives its first message |
| Messages.Encode | messages/message.go:48-68 | a new buffer holding exactly the encoding |
| Messages.EncodeWithBuffer | messages/message.go:21-44 | fails exactly when the buffer is too short and then leaves it alone; otherwise keeps the tail and writes the same bytes as `Encode`, whatever the buffer held, exactly when writing the header does not change the data, as with data elsewhere or behind the header |
| Messages.Decode | messages/message.go:71-95 | agrees with the value-level decoder on every input, and the data it returns is a slice of the input array |
| Store.Db.Set | db/mdbx.go:165-175 | one update transaction: all of the put or nothing |
| Store.Db.Get | db/mdbx.go:194-202 | the committed value, not found, or a failed view |
| Store.Db.Exists | db/mdbx.go:221-234 | whether the key has a committed value; not found is no error, a failed view is |
| Store.ReplayIsOverlay | db/writer.go:62-113 | buffering writes in a map and overlaying it equals setting each in turn |
| Writers.StartsIdle | db/writer.go:30-50 | a new writer has all its workers at their select with nothing queued or buffered, and is not stopped |
| Writers.SendsExactly | db/writer.go:87-91 | a send goes through exactly when the channel numbered key[0] modulo the workers holds fewer than 500000 requests, stopped or not, and joins that channel alone, at its end |
| Writers.InsertingKeeps | db/writer.go:60-67 | the map write and size check keep the worker's history partition, its last-write-wins buffer and the size bound |
| Writers.FlushedKeeps | db/writer.go:94-125 | a flush, committed or failed, moves the current batch to the closed ones and keeps the worker's invariant |
| Transports.RunKeeps | db/writer.go:53-131 | every action of every run of every number of writers keeps the whole invariant |
| Transports.ReachedWriter | registry.go:31-98 | in every reachable state each writer has its configured workers and batch size and has accepted exactly the writes the run handed to it, in order |
| Transports.StoreIsMergeOfBatches | registry.go:31-98 | the shared store is the initial one overlaid by a merge of the committed batches that keeps each worker's order and leaves none out |
| Transports.WriterRunIsRun | registry.go:31-98 | the steps of one writer object on the store are a run of the whole system |
| Histories.StoreShowsVisible | db/mdbx.go:194-202 | a `Get` returns the value of the last committed write to the key, identified by its place among the accepted requests, or the initial value if there is none |
| Histories.NoResurrection | db/writer.go:94-125 | once a write has committed, no continuation ever shows an earlier write of the same transport to that key, nor the initial value |
| Failures.CommittedExactly | db/writer.go:94-125 | in every reachable state, failures included, a write is committed exactly when the one batch it was flushed in committed, and not before it was flushed |
| Failures.FlushedFateIsFinal | db/writer.go:115-124 | once a write was put in a transaction, no continuation changes whether it is committed: a failed flush loses its writes for good |
| Failures.AcceptedWriteCanBeLost | db/writer.go:115-124 | a run in which an acknowledged write is flushed, fails, and is never committed in any continuation |
| Shards.HistoryPartition | db/writer.go:53-125 | in every reachable state, failures included: a worker accepted the writes handed to its writer whose first key byte modulo the workers is its number, in order; they are closed batches ++ current batch ++ in hand ++ queued; the buffer is the last-write-wins view of the current batch; the shard's keys show exactly its committed batches in order |
| Shards.ShardShowsPrefix | db/writer.go:58-124 | without failures a key of a shard shows the replay of a prefix of the shard's accepted writes |
| Shards.MonotoneReads | db/mdbx.go:194-202 | of two successive reads in a fault-free run the later sees a prefix no shorter than the earlier |
| Shards.DrainedRefinesSets | db/writer.go:58-125 | a drained fault-free writer leaves the store that one `Db.Set` per write handed to it in the run would leave |
| Shards.ScheduleIndependence | db/writer.go:30-91 | two drained fault-free runs with the same order of writes per key end in the same store, whatever their workers, batch sizes, ticks and interleavings |
| Shards.ContestedKeyHoldsALastWrite | registry.go:31-98 | with several drained fault-free writers a contested key holds the last accepted write of one of them |
| Flushing.PutOrderIrrelevant | db/writer.go:107-111 | any order of the puts in a transaction gives the store overlaid by the buffer |
| Flushing.FlushesCommute | db/writer.go:87-125 | buffers of two workers of one writer share no key, and their flushes commute whether each commits or fails |
| Flushing.FlushesAreAmortised | db/writer.go:46-97 | with the configured batch size, or one if that is smaller: buffers hold fewer keys outside a threshold flush, transactions have between one key and that many, threshold flushes exactly that many, and these times the size never exceed the requests dequeued; a channel never exceeds 500000 |
| Flushing.ExitIsFinal | db/writer.go:76-81 | after a worker's exit its buffer is empty, all it dequeued is in closed batches, it commits nothing more, and no write that was queued or came later is ever committed |
| Flushing.ExitedCommitsExactly | db/writer.go:76-131 | an exited worker has committed exactly the writes it dequeued if and only if none of its transactions failed |
| Flushing.StopMayLeaveAnySuffix | db/writer.go:76-131 | after the stop signal a worker may still take any number of queued requests, and exit leaving the rest behind |
| Stopping.ExitedSavedAllExactly | db/writer.go:76-131 | an exited worker has committed everything it accepted exactly when its channel is empty and none of its transactions failed |
| Stopping.StopSavesAllExactly | db/writer.go:127-131 | after the stop signal, everything a worker has accepted is sure to be committed under every schedule if and only if its channel is empty and none of its transactions has failed; otherwise some schedule leaves a request behind, contrary to the comment |
| Stopping.StopCanLeaveBehind | db/writer.go:127-131 | a reachable stopped state with a queued request that some schedule leaves behind |
| Draining.StepDrains | db/writer.go:57-84 | every busy step of a worker strictly lowers the remaining work and every idle step keeps it |
| Draining.RunsDrain | db/writer.go:57-84 | in a run without new requests the busy steps are bounded by the work at the start |
| Draining.RestIsDrained | db/writer.go:57-97 | no work left means exactly that nothing is queued, in hand or buffered |
| Draining.EveryAcceptedWriteCanLand | db/writer.go:57-125 | from every reachable state of a fault-free writer that has not been stopped, its own steps lead to a store that agrees with one `Db.Set` per accepted write |
| Turns.WorkerRunIsSteps | db/writer.go:53-84 | all that the worker loop does is steps of the writer |
| Turns.WorkerRunDoes | db/writer.go:53-84 | for any wakes: one request is taken for each request wake while there are any and no stop is seen, in order, all of them in closed batches or the open one; the store gets exactly what the new batches commit, all if nothing fails; the worker exits exactly when it sees the stop |
| Turns.FlushedRunIsReplay | db/writer.go:53-125 | if nothing fails and the last wake flushes, the store is as if everything buffered and then taken had been set one by one |
| Turns.ReceiveAct | db/writer.go:59 | takes the oldest request in hand, exactly when the worker selects and there is one |
| Turns.InsertAct | db/writer.go:62-66 | writes the map and starts a threshold flush exactly when the map has reached the batch size |
| Turns.TickAct | db/writer.go:70-74 | a tick leads a selecting worker into a flush, stopped or not |
| Turns.StopAct | db/writer.go:76-81 | the stop case leads a selecting worker into its last flush exactly when the writer is stopped |
| Turns.FlushAct | db/writer.go:94-125 | a flush commits the whole buffer or, on a fault of the cursor, a put or the commit, nothing; it empties the buffer and ends the worker if it is the last |
| BatchWriting.BatchWriter.constructor | db/writer.go:30-50 | empty channels and buffers, every worker at its first select |
| BatchWriting.BatchWriter.HasRoom | db/writer.go:46-91 | a send goes through at once exactly when there are workers and the channel numbered key[0] modulo the workers holds fewer than 500000 requests |
| BatchWriting.BatchWriter.BufferWrite | db/writer.go:87-91 | the request joins the end of the channel numbered key[0] modulo the workers and no other; its value is the bytes of the slice, not copied |
| BatchWriting.BatchWriter.Receive | db/writer.go:59 | takes the oldest request of the channel in hand |
| BatchWriting.BatchWriter.Insert | db/writer.go:60-67 | puts the request in the buffer and decides on a threshold flush |
| BatchWriting.BatchWriter.Flush | db/writer.go:94-125 | commits the bytes the buffered slices held when they were accepted, all or none, and clears the buffer either way |
| BatchWriting.BatchWriter.PutAll | db/writer.go:99-113 | the transaction body yields the store overlaid by the buffer, unless the cursor, one of the puts or the commit fails |
| BatchWriting.BatchWriter.FlushAndStop | db/writer.go:128-131 | closes the stop channel and does nothing else |
| BatchWriting.BatchWriter.Turn | db/writer.go:58-82 | one turn of the select loop is the receive-insert, tick or stop steps with the flush they lead to |
| BatchWriting.BatchWriter.RunWorker | db/writer.go:53-84 | the worker loop over any sequence of wakes: woken by requests it takes as many as there are wakes and requests, in order; a tick commits the buffer and empties it; the stop of a stopped writer does too, and the worker does nothing after it |
| Handlers.StandardHandlers | types/types.go:82-96 | byte 87 has the write handler and byte 82 the read handler |
| Handlers.TcpProtocol | transports/tcp/server.go:123-155 | the whole TCP protocol in literal bytes and texts: which frames are accepted, as which write, and every reply |
| Handlers.QuicProtocol | transports/quic/server.go:182-200 | the same for what one QUIC read returns |
| Handlers.TcpWritesExactly | transports/tcp/handler_write.go:24-44 | a frame writes exactly when it is a write frame of at least 34 bytes, it is its action byte, key and value, and the value is not empty |
| Handlers.TcpReadNeedsKeyOnly | transports/tcp/handler_read.go:22-48 | a read frame needs only action byte and key, and gets the stored value as it is |
| Handlers.ChunkTailIgnored | transports/quic/server.go:182-200 | bytes after the first message of a read have no effect |
| Handlers.QuicDelivers | transports/quic/server.go:157-187 | a message sent as one frame is delivered as it is exactly when its data has at most 4059 bytes |
| Handlers.TcpStoresPrefixed | transports/tcp/handler_write.go:32-40 | an encoded message written over TCP stores the length prefix and the data |
| Servers.TcpServer.OnTraffic | transports/tcp/server.go:123-155 | reply and accepted write of one frame, for any registry; nothing changes when the send blocks; a failed read closes the connection |
| Servers.TcpServer.HandleWrite | transports/tcp/handler_write.go:24-44 | length guard, key and value of the frame, acknowledgement after the send |
| Servers.TcpServer.HandleRead | transports/tcp/handler_read.go:22-48 | the raw value, or the reason there is none |
| Servers.TcpServer.RegisterHandler | transports/tcp/server.go:202-205 | sets the one entry |
| Servers.TcpServer.DeregisterHandler | transports/tcp/server.go:208-211 | removes the one entry |
| Servers.QuicServer.HandleWrite | transports/quic/handler_write.go:25-39 | hands the aliased data to the batch writer and acknowledges |
| Servers.QuicServer.HandleRead | transports/quic/handler_read.go:24-58 | length prefix and value, or the reason there is none |
| Servers.QuicServer.RegisterHandler | transports/quic/server.go:236-238 | sets the one entry |
| Servers.QuicServer.DeregisterHandler | transports/quic/server.go:241-243 | removes the one entry |
| Servers.QuicServer.HandleBuffer | transports/quic/server.go:182-200 | decode, look up and dispatch what one read returned, or end the stream |
| Servers.QuicServer.HandleStreams | transports/quic/server.go:144-202 | for every interleaving of the streams' reads and waiting sends with worker steps, the stop signal and other transports' commits, writer, store, streams and replies are those of the fold over the events, and every array that is queued or waits to be sent was allocated for a read and still holds what was decoded |
| Streams.StreamsFollow | transports/quic/server.go:154-201 | whatever interleaves, the accepted writes are a merge of the streams' own: each stream's are the writes of the longest prefix of its reads that decode and name a handler, in order, but for one it may be waiting to send, with one reply for each of the others; it has ended exactly when a read failed or was bad |
| Streams.RepliesAnswer | transports/quic/server.go:154-201 | the replies of a stream answer those messages one by one: an acknowledgement for a write, and for a read what the store held at the event of that read |
| Streams.ReadEvent | transports/quic/server.go:154-201 | what a read does to a reading stream, in bytes and on the worker's channel: end it for a bad frame or an unknown handler, queue and acknowledge a write or wait for room, answer a read |
| Streams.OtherEvents | transports/quic/server.go:154-180 | a waiting send goes through as soon as there is room, a failed read ends its stream, a stop is seen, an outside commit overlays the store |
| Streams.ReceiveThenInsert | db/writer.go:59-67 | at any time while streams are served, a selecting worker takes its oldest request into the buffer |
| Streams.TickThenFlush | db/writer.go:70-74 | at any time a tick and a flush without fault overlay the store by the worker's buffer and empty it |
| Streams.StopThenFlush | db/writer.go:76-81 | and so does the stop case of a stopped writer, which ends the worker |
| Streams.ServingIsRun | transports/quic/server.go:144-202 | serving the streams while other transports commit is a run of the whole system |
| Streams.EveryScriptPlays | transports/quic/server.go:144-202 | every script of events without outside commits is such a run |
| Registry.SetUpQuic | registry.go:19-40 | a fresh writer of its own, with 15 workers and batch size 512, on the shared store, and the two handlers |
| Registry.SetUpTcp | registry.go:41-62 | the same for TCP |
| Registry.ServeQuic | registry.go:19-40 | a QUIC server so built serves any script of events from an idle writer on the given store |
| Registry.ServeTcp | registry.go:41-62 | a TCP server so built answers a first frame without waiting and accepts the write it is |
| Registry.QuicWriteIsRead | registry.go:19-40 | at a QUIC server so built, the bytes of a write on one stream, one round of the worker of its key and the bytes of a read on another lead to the acknowledgement and to the reply of length and data |
| Landing.ShownExactly | db/writer.go:58-124 | in every reachable state, failures included, the last write of a transport to a key is what the store shows if and only if it has committed and no other transport's write to that key has committed since |
| Landing.LandedWriteIsRead | db/writer.go:58-124 | a write that has committed, with no later one of its transport and not overtaken by another's, is what every read sees, whatever fails and however busy the workers are |
| Landing.UndisturbedLandsExactly | registry.go:31-98 | if no other transport has a write to the key waiting and none is accepted, a write lands exactly when its transaction commits |
| Landing.WriteCanLand | db/writer.go:58-124 | such a landing exists for every write that a writer not yet stopped accepts |
| EndToEnd.WritesAreAccepted | transports/tcp/handler_write.go:26-40 | both transports accept every write message of at most 4059 data bytes sent as one frame, TCP storing the length prefix with the data |
| EndToEnd.FrameWriteThenRead | transports/tcp/handler_write.go:26-40 | any write frame of at least 34 bytes, landed, is read back over TCP as exactly its bytes from 33 on, and over QUIC as be32 of their number and the same bytes |
| EndToEnd.TcpWriteThenRead | transports/tcp/handler_read.go:23-47 | a message written over TCP reads over TCP as be32(len) ++ data and over QUIC as be32(len+4) ++ be32(len) ++ data |
| EndToEnd.QuicWriteThenRead | transports/quic/handler_read.go:28-52 | a message of at most 4059 bytes written over QUIC reads over QUIC as be32(len) ++ data and over TCP as data; empty data reads as no value |
| EndToEnd.TransportsAgreeExactly | transports/quic/handler_read.go:28-52 | TCP write and read give the reply bytes of QUIC write and read for at most 4059 bytes exactly when the data is not empty, both landing from any one reachable state |
| EndToEnd.FramesStoreNoEmptyValue | transports/tcp/handler_write.go:26-40 | if all writes come from frames and the store starts without an empty value, no pending request and no store entry is ever empty, and no reader ever replies that a value is empty |
| Report.SortedPermutes | benchmark/report.go:75-77 | sorting permutes the samples into ascending order |
| Report.SortIsUnique | benchmark/report.go:75-77 | there is only one ascending permutation, so the sorting routine does not matter |
| Report.OrderStatistic | benchmark/report.go:80-82 | the entry at an index is the order statistic of that rank |
| Report.SummaryInOrder | benchmark/report.go:70-83 | least <= average <= greatest and least <= P50 <= P90 <= P99 <= greatest |
| Report.AverageExactly | benchmark/report.go:66-72 | the average is the sum over the number of samples, rounded toward zero |
| Report.PercentileRanks | benchmark/report.go:79-82 | at most 50, 90 and 99 in a hundred samples are below the percentile, and more than that are not above it |
| Report.SummaryIgnoresOrder | benchmark/report.go:70-83 | average and percentiles do not depend on the order of the samples |
| Report.VarianceIgnoresOrder | benchmark/helpers.go:36-49 | nor does the variance |
| Report.VarianceZeroExactly | benchmark/helpers.go:43-49 | the variance is not negative, and zero exactly when all samples are equal |
| Report.VarianceBound | benchmark/helpers.go:43-49 | the variance is at most a quarter of the squared range |
| Report.VarianceExactly | benchmark/helpers.go:36-49 | the exact value: n^2 times the variance is n times the sum of squares less the square of the sum, in seconds of 10^9 sample units |
| Report.CalculateVariance | benchmark/helpers.go:31-49 | the two accumulator loops compute the variance |
| Report.Report.constructor | benchmark/report.go:32-36 | an empty histogram and zero figures |
| Report.Report.Finalize | benchmark/report.go:60-97 | sorts the histogram in place and sets every figure from the samples as they came, the average being sum over number rounded toward zero; an empty histogram leaves average and percentiles alone |

## Left out

- MDBX internals, geometry, file permissions, `NewDb`, `Close` and `Destroy`: foreign calls behind the atomic-transaction assumption.
- `Db.Delete`: no handler calls it; it is assumed not to be interleaved with the writers.
- BatchWriting.BatchWriter.BufferWrite: models the send at the moment it completes; a sender waiting at a full channel is part of `Streams` for QUIC, and outside the model for the TCP event loop.
- BatchWriting.BatchWriter.RunWorker: the loop alone takes whole turns; interleaving inside a turn is covered by the single-step methods and the step system.
- Servers.TcpServer.OnTraffic: gnet's reuse of its receive buffer is outside the model; the frame array is taken to stay as it is.
- gnet, quic-go, sockets, errors of reply writes, logging, metrics, timeouts, `Start` and `Stop`: plumbing.
- UDP and UDS handlers and servers: the same frame logic as TCP. The dummy and eBPF transports store nothing.
- Real time: the ticker may fire at any moment.
- Benchmark suites, random message generation, `PrintReport` and JSON export: only the report computed from a list of samples is modelled.
- Report.Report.Finalize: int64 overflow, floating-point rounding and the square root are not modelled; percentile indices take the products with 0.9 and 0.99 exactly, and the spread is the variance.
