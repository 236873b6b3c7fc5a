# grpcxx in Dafny

A model of the grpcxx gRPC server library (C++20, HTTP/2 through nghttp2, sockets and threads through
libuv) and proofs about it. `dafny verify dfyconfig.toml` checks everything.

The library reads bytes from a connection on the loop thread, hands them to a worker thread that runs the
HTTP/2 session over them, turns each finished stream into a request, dispatches it to a service, renders the
response into a buffer, and comes back to the loop thread to flush it. The main results, from the outside in:

* **A stream is answered** (`ServerRuns.StreamIsAnswered`, `CallIsAnswered`, `CallIsRefused`,
  `OneAnswerPerEnd`): for any number of workers, any interleaving of threads and streams and any cutting of the
  events into reads, every ended stream is answered once, unless the process is ended: refused as invalid,
  refused as unknown, or given to its service's handler with its method and metadata. The handler gets the
  payload exactly if the length survives the codec and the pieces of the message are cut at the prefix, and an
  empty payload if not. The frames of the stream are that answer, whole exactly if the peer's flow-control
  window stays open for it. The process is ended exactly by a doomed batch of events, one that ends a stream
  which is closed by then, or one stream twice (`ProcessSurvives`).
* **Threads change nothing** (`Refinement`): a connection under the worker pool does what the same connection
  does with no workers at all, as a function of what the environment decided for it.
* **The hand-over protocol** (`Tasks`, `Ownership`, `Errors`, `Liveness`, `Fifo`): each job's promise carries who awaits
  it and whether it is hooked, and its end is followed wherever the promise leads; no two threads touch one
  connection, no connection is lost or resumed on a worker, every job, thrown from or not, resumes its
  connection exactly once, no wake-up is lost, work is bounded and can only end finished or with the process,
  and order is kept exactly with at most one worker.
* **Bytes in, bytes out** (`Histories`, `Lifecycle`, `Outbound`, `Views`): the chunk given to a job is never
  rewritten under it, though events that an error keeps back for a later job can go stale, which they do exactly
  if the buffer they are looked at in holds other bytes in the ranges they view; a response is drained without
  loss exactly as far as the window reaches; written plus buffered frames are the frames produced, and nothing
  stays buffered unless a write failed.
* **Framing and demultiplexing** (`Messages`, `Requests`, `Demux`, `Reassembly`): exactly which chunkings and
  lengths the incremental reader survives, and that streams do not interfere.
* Two self-contained algorithms: the base64 encoder of the errors example, and the name scans of the code
  generator.

## How the model is made

* Values first: each stateful entity has a datatype and functions on it, about which the lemmas speak. Where
  the program mutates an object, a class (`Messages.Message`, `Requests.Request`, `Tasks.Task`,
  `Connection.Session`, `Connection.Conn`, `Connection.StreamReader`) or a method with loops does what those
  functions say.
* `Pool` is a step relation over any number of connections and workers. A step is what a thread does between
  two points at which another thread or a callback can intervene: taking a job, running it, catching what it
  throws, its final suspension with the push of the continuation, sending the async signal, starting the
  callback, testing for emptiness, popping, and each leg of the connection's coroutine between two suspension
  points. What happens at the end of a job is decided by its promise, so that a connection could be lost there,
  or run on by the worker; that it never is, is proved. A connection's own state is a type parameter;
  `Server.Serve` instantiates it with the real job.
* Bytes are integers below 256, `uint32_t` and `size_t` arithmetic is written out, and the signedness of plain
  `char`, which C++ leaves to the implementation, is a parameter.
* nghttp2, libuv and the handlers are parameters: a function from session state and bytes to events, for each
  connection and each of its reads the room for body bytes at each attempt to send some (none when the peer's
  window is closed), the outcome of each read and write, and functions from metadata, method and payload to a
  reply. nghttp2 is taken to send header, trailer and control frames at once and in order, since flow control
  holds back DATA frames only (section 5.2 of RFC 9113), to close a stream when its trailers have left, which
  ends its body and emits an event, and to refuse a body for a closed stream.
* An exception that leaves a `noexcept` function ends the process: after that no step of the pool is possible.

## Where the code falls short of the obvious promise

In each case the code is modelled as written, and the exact condition under which it works is proved.

* The reader puts up to five bytes of a chunk into the prefix even when some are already there
  (lib/grpcxx/message.cpp:34), so a message whose pieces straddle the prefix is lost: `Messages.ChunkedFraming`,
  and `Messages.StraddlingCutLost` for such a message. The call is not refused: its handler is run on an empty
  payload (`Messages.EncodedOutcome`, `ServerRuns.CallIsAnswered`).
* The length is decoded by shifting plain `char` values (lib/grpcxx/message.cpp:67-68): `Messages.LengthCodec`,
  and `Messages.SignedLengthLost` for the smallest length that is lost. Again the handler gets an empty payload.
* The same sign extension in the base64 accumulator (examples/errors/main.cpp:21): `Base64.RoundTrip`, and
  `Base64.SignedByteLost` for two bytes that do not come back.
* A response larger than the peer's open window is cut off: `conn::write` submits the trailers whether or not the
  body has left (lib/grpcxx/uv/conn.cpp:84-95): `Outbound.ResponseLeavesWhole`, and
  `Outbound.ClosedWindowTruncates` for a body of three bytes.
* A peer that resets a stream right after ending it ends the process: the answer is submitted to a closed stream,
  `session::data` throws (lib/grpcxx/h2/session.cpp:51-53), and `conn::write` is `noexcept`
  (lib/grpcxx/uv/conn.h:38): `ServerRuns.ProcessSurvives`, `ServerRuns.ResetIsFatal`, and
  `Server.ResetEndsProcess` for such a session.
* Events left in the session by a throwing read hold views of a buffer that is read into again before they are
  looked at (lib/grpcxx/h2/session.cpp:61, lib/grpcxx/h2/session.cpp:139-147): `Views.StaleExactly`,
  `Views.StaleOnRuns`, and `Views.StaleView` for a session that shows the wrong byte.
* The backward scan never ends on a package that starts with a dot (src/protoc-gen-grpcxx/grpcxx.cpp:102-108):
  `Generator.ClosingScan`. This is about the scan alone: protoc never hands over a package with a leading dot.
* The type mapper strips any name that begins with the text of the package
  (src/protoc-gen-grpcxx/grpcxx.cpp:63-64): `Generator.MapperExact`, and `Generator.MapperMisled` for the type
  `ab.C` seen from package `a`.
* With two workers or more, connections can come back in another order than they went: `Fifo.OrderIffOneWorker`,
  and `Fifo.ManyWorkersSwap` for a run that swaps two.
* `front()` of an empty `:path` value (lib/grpcxx/request.cpp:30) is undefined in C++; the model reads the
  terminating NUL, as implementations do, and so rejects it.
* With a signed `char`, `(i << 8) + c` in the base64 encoder (examples/errors/main.cpp:21) can overflow an `int`
  even on inputs that decode back, such as 0x80, 0, 0, 0x80; C++ leaves that undefined, and the model wraps, as
  two's complement hardware does.

## Model

| member | source | states |
|---|---|---|
| Messages.LengthCodec | lib/grpcxx/message.cpp:66-68 | decoding inverts encoding exactly for lengths below 2^32 that are sign-safe: all of them with an unsigned `char`; with a signed one those where (byte 3 < 0x80 or bytes 1 and 2 are 0xff) and (byte 2 < 0x80 or byte 1 is 0xff); hence all below 2^15 |
| Messages.BytesConserved | lib/grpcxx/message.cpp:27-45 | for every chunking the reader accepts, prefix then data is the concatenation of the chunks, data is empty until the prefix has five bytes, and length and compression flag are read off the prefix |
| Messages.PrefixExact | lib/grpcxx/message.cpp:32-38 | the prefix ends at exactly five bytes iff the first piece covers it or some piece ends at offset five |
| Messages.NeverRejects | lib/grpcxx/message.cpp:28-30 | as long as part of an encoded message of less than 2^32 bytes is missing, the next non-empty chunk is accepted, however the length was decoded |
| Messages.ChunkedFraming | lib/grpcxx/message.cpp:27-74 | feeding an encoded message in non-empty pieces gives the payload back iff its length decodes and the pieces are cut at the prefix |
| Messages.EncodedOutcome | lib/grpcxx/message.cpp:27-53 | the other half: an encoded message of less than 2^32 bytes is accepted however it is cut, and an accepted one shows its payload iff its length decodes and its pieces are cut at the prefix, and the empty payload otherwise |
| Messages.ReaderOutcome | lib/grpcxx/message.cpp:23-53 | any chunks whatsoever, stated in their bytes alone: refused iff one comes when as many bytes have arrived behind the prefix as bytes 1 to 4 announce, or more; otherwise the bytes behind the prefix are shown iff they are exactly as many as announced, and nothing if fewer or more |
| Messages.ExtraRefused | lib/grpcxx/message.cpp:28-30 | any chunk behind a message that has arrived whole is refused |
| Messages.OneByteTooMany | lib/grpcxx/message.cpp:28-30 | one byte announced, one received, one more: refused |
| Messages.PrefixShape | lib/grpcxx/message.cpp:13-18 | the prefix of every message starts with 0 and holds its size in four bytes, the highest first |
| Messages.OutgoingShows | lib/grpcxx/message.cpp:47-53 | a message built from a payload shows it iff its size is below 2^32 |
| Messages.StraddlingCutLost | lib/grpcxx/message.cpp:33-37 | a one-byte message cut after its second byte is accepted and shows no payload |
| Messages.SignedLengthLost | lib/grpcxx/message.cpp:66-68 | with a signed `char`, 0x8000 is read back as 0xffff8000 |
| Messages.Message.OfPayload | lib/grpcxx/message.cpp:10-21 | the object built from a payload holds it behind its five-byte prefix, the size taken modulo 2^32 |
| Messages.Message.ParsePrefix | lib/grpcxx/message.cpp:55-74 | the in-place parse is the parse function: once, and only with five prefix bytes |
| Messages.Message.Append | lib/grpcxx/message.cpp:27-45 | the in-place reader is the feed function and appends the chunk to the bytes held; it throws exactly when the data is at least as long as announced, leaving everything as it was |
| Requests.PathVerdict | lib/grpcxx/request.cpp:27-48 | the scan accepts exactly the paths of the form /service/method and finds both parts |
| Requests.HeaderVerdict | lib/grpcxx/request.cpp:11-71 | a header list is invalid iff some :method, :path or content-type entry is bad; otherwise the last :path gives service and method and metadata holds the first value of each custom name and nothing else |
| Requests.FlagsRecorded | lib/grpcxx/request.cpp:17-57 | a request that is still valid is flagged with exactly those of :method, :path and content-type that have come |
| Requests.VerdictIgnoresOrder | lib/grpcxx/request.cpp:11-71 | any permutation of the headers gets the same verdict |
| Requests.InvalidForGood | lib/grpcxx/request.cpp:73-76 | an invalid request never changes again, whatever headers and chunks follow |
| Requests.BodyVerdict | lib/grpcxx/request.cpp:73-83 | for every chunking whatsoever, a first part of the chunks is kept byte for byte and the request becomes invalid with the first chunk that arrives when all announced bytes are there |
| Requests.Request.AddHeader | lib/grpcxx/request.cpp:11-67 | the in-place header handling is the header function |
| Requests.Request.Path | lib/grpcxx/request.cpp:27-48 | the in-place path handling is the path function |
| Requests.Request.Read | lib/grpcxx/request.cpp:73-83 | the in-place body handling is the data function, exceptions turned into invalidity |
| Demux.RunKeys | lib/grpcxx/uv/conn.cpp:42-43 | every entry of the stream map stays filed under its own positive stream id |
| Demux.BatchIndependence | lib/grpcxx/uv/conn.cpp:30-70 | reading two batches is reading them as one: same map, same requests, the later batch's in front |
| Demux.NonInterference | lib/grpcxx/uv/conn.cpp:30-70 | a stream's requests and its final map entry are those of running its events alone |
| Demux.InterleavingIrrelevant | lib/grpcxx/uv/conn.cpp:30-70 | interleavings with the same events per stream end in the same map with the same requests per stream |
| Demux.KeysExact | lib/grpcxx/uv/conn.cpp:37-55 | the map has an entry for exactly the streams whose last event neither ends nor closes them, or that have none and had one before |
| Demux.CloseForgets | lib/grpcxx/uv/conn.cpp:37-40 | closing a stream removes its entry, whatever came before |
| Demux.OneRequestPerEnd | lib/grpcxx/uv/conn.cpp:51-55 | the ids of a read's requests are the reverse of its end events on positive streams |
| Demux.AcknowledgementsAreSilent | lib/grpcxx/h2/session.cpp:73-83 | SETTINGS and PING acknowledgements, whose ACK bit is END_STREAM's and which arrive on stream 0 (sections 6.5 and 6.7 of RFC 9113), change nothing wherever they arrive |
| Demux.FrameEnds | lib/grpcxx/h2/session.cpp:75 | a frame ends its stream iff the lowest bit of its flags is set |
| Reassembly.ReadsAsOne | lib/grpcxx/uv/conn.cpp:30-70 | any number of reads leave the map and each stream's requests as one read of all events would |
| Reassembly.StreamMakesOneRequest | lib/grpcxx/uv/conn.cpp:30-70 | the events of a stream, interleaved and split in any way, make exactly the one request they make alone, and leave no map entry |
| Reassembly.MadeIsBuilt | lib/grpcxx/request.cpp:11-83 | headers may come before, between or after the data: the request is the same, or invalid either way |
| Reassembly.BuiltReady | lib/grpcxx/request.cpp:7-9 | that request converts to true iff every header is good, the path names a non-empty service and the data was accepted; then it carries that service, its method, the metadata and the message read |
| Reassembly.BuiltRequest | lib/grpcxx/request.cpp:7-83 | that request carries service, method, metadata and payload iff the length decodes and the pieces are cut at the prefix |
| Reassembly.EndToEnd | lib/grpcxx/uv/conn.cpp:30-70 | a call interleaved with other streams and split over any reads is emitted exactly once, and with exactly its service, method, metadata and payload iff that condition holds |
| Outbound.DrainConserves | lib/grpcxx/h2/session.cpp:152-166 | for any rooms offered, the pieces read and the bytes left concatenate to the submitted data; nothing is left iff the rooms offered before the window first closes add up to its length, in particular if there are as many as bytes and all are positive |
| Outbound.DrainFlags | lib/grpcxx/h2/session.cpp:157-160 | the end-of-file flag is set once, on the last piece, unless the window closes first, and no piece exceeds its room |
| Outbound.ReadCbExact | lib/grpcxx/h2/session.cpp:157-165 | as much as fits is read, the rest stays, and the flag is set iff nothing needs to stay |
| Outbound.TrailersKept | lib/grpcxx/h2/session.cpp:186-196 | the empty-value filter keeps the status, and the details iff they are not empty |
| Outbound.ResponseLeavesWhole | lib/grpcxx/uv/conn.cpp:76-96 | written to a drained session, a response leaves as headers, data frames and trailers, closes its stream and leaves the session drained; the data is a first part of its bytes, and all of them iff the peer's window covers them |
| Outbound.ClosedWindowTruncates | lib/grpcxx/uv/conn.cpp:84-95 | a body of three bytes and a window that closes after two: the response leaves with two |
| Tasks.JobLife | lib/grpcxx/uv/task.h:22-84 | over a job task's whole life (hooked by `run` if there are threads, awaited, ended), thrown or not, the awaiting coroutine is suspended and comes back exactly once: through the hook with threads, on the same thread without |
| Tasks.FlushLife | lib/grpcxx/uv/task.h:22-82 | over the whole life of the task of `flush`, a failed write is logged and the connection goes on on the same thread |
| Tasks.LateAwait | lib/grpcxx/uv/task.h:69 | a task that is over is not waited for, and whoever awaits it is not recorded |
| Ownership.OnlyHandsOver | lib/grpcxx/uv/task.h:26-39 | in every reachable state, the end of a job, thrown from or not, gives its connection to the completion hook: it is neither lost nor resumed by the worker, and no worker ever runs a connection's coroutine |
| Ownership.HandlesConserved | lib/grpcxx/uv/scheduler.cpp:36-97 | each step moves handles between queues and workers; only a submission adds one and only a resumption removes one |
| Ownership.SingleOwner | lib/grpcxx/uv/scheduler.cpp:36-97 | in every reachable state a connection is in exactly one place: awaiting read, awaiting write, closed, on the loop, or its latest job in one queue or on one worker |
| Ownership.NoSharing | lib/grpcxx/uv/scheduler.cpp:62-79 | in every reachable state no two threads, loop included, touch the same connection, be it by running its job or by resuming its coroutine |
| Ownership.ResumedExactlyOnce | lib/grpcxx/uv/scheduler.cpp:87-94 | each submitted job, including one that throws, resumes its connection exactly once; until then its handle is in exactly one place |
| Histories.ThrowingJobsResume | lib/grpcxx/uv/task.h:49-57 | a job whose function threw is recorded as such and resumes its connection exactly once |
| Errors.ReportedOnce | lib/grpcxx/uv/task.h:49-57 | on every run, with or without workers, the exception of each job that threw is reported exactly once, or is about to be, and nothing else is; a job is not handed back before its exception has been reported |
| Liveness.NoLostWakeUp | lib/grpcxx/uv/scheduler.cpp:49-60 | a waiting continuation has a signal pending, or a worker about to send it, or the loop inside join; and join never pops an empty queue |
| Liveness.EveryStepCounts | lib/grpcxx/uv/scheduler.cpp:49-97 | every step of the loop or a worker strictly decreases a measure over queues, workers, signal and loop |
| Liveness.StuckMeansDone | lib/grpcxx/uv/scheduler.cpp:49-97 | with a worker, no step is possible iff a job has ended the process, or both queues are empty and every thread is at rest; at rest no connection waits for a job |
| Liveness.FinishSchedule | lib/grpcxx/uv/scheduler.cpp:49-97 | from every such state some schedule of the server's own steps finishes the work, or ends the process |
| Liveness.Quiescence | lib/grpcxx/uv/scheduler.cpp:49-97 | from every reachable state with a worker, every schedule without new I/O is bounded and can only stop at rest or with the process; at rest every job ever submitted has resumed its connection once |
| Fifo.OneWorkerKeepsOrder | lib/grpcxx/uv/scheduler.cpp:36-79 | with at most one worker connections are resumed in the order of submission, on every run and however signals coalesce |
| Fifo.ManyWorkersSwap | lib/grpcxx/uv/scheduler.cpp:62-79 | with two workers or more some run resumes two connections in the opposite order, provided some first job does not end the process |
| Fifo.OrderIffOneWorker | lib/grpcxx/uv/scheduler.cpp:36-97 | every run keeps the order of submission iff there is at most one worker, or every first job of a connection ends the process, in which case nobody ever comes back |
| Refinement.StepIsLocal | lib/grpcxx/uv/server.cpp:36-54 | each step of the system does to each connection one thing that its coroutine, its job or its callbacks do |
| Refinement.PoolRefinesInline | lib/grpcxx/uv/server.cpp:36-54 | for any workers and any interleaving, a connection's whole state (chunks read, jobs that threw, frames produced, buffered and written) is what the sequential coroutine makes of the same inputs, its job under way finished |
| Refinement.InlineServerFollows | lib/grpcxx/uv/scheduler.cpp:81-85 | for every pool run there is a run with no workers that brings a connection into exactly that state |
| Refinement.PoolMatchesInlineServer | lib/grpcxx/uv/scheduler.cpp:36-39 | with the same inputs, connections under any number of workers and under none settle in the same state |
| Histories.InboundConserved | lib/grpcxx/uv/reader.cpp:32-69 | on every run the chunks given to `conn::read` are those put in the buffer, in order, with at most the latest still to come |
| Histories.BufferStable | lib/grpcxx/uv/reader.cpp:43-47 | from returning a chunk until the next `co_await reader` no step rewrites the buffer |
| Histories.BufferChained | lib/grpcxx/uv/reader.cpp:16-19 | on every run, each job finds in the buffer its own chunk, and behind it what was left by the jobs before |
| Histories.OutboundConserved | lib/grpcxx/uv/conn.cpp:15-28 | on every run, frames written followed by frames buffered are all frames the jobs produced, in order, write errors included |
| Lifecycle.OutputFlushed | lib/grpcxx/uv/server.cpp:52 | on every run, from the end of a flush to the end of the next job, nothing is left in the buffer and everything the jobs produced has been written, unless the last write failed; a write in flight has something to write |
| Lifecycle.FlushStep | lib/grpcxx/uv/conn.cpp:21-28 | on every run, what has been written changes only at the end of a successful write, and then to everything produced, the buffer being emptied |
| Lifecycle.InputsHonoured | lib/grpcxx/uv/server.cpp:36-54 | on every run, the jobs get what arrived, chunk by chunk, with the room the peer left then; a connection is over only after the end of the stream or a failed read, and does not wait after these |
| Server.WriteAllAnswers | lib/grpcxx/uv/server.cpp:46-49 | unless it ends the process, the loop writes exactly the processed answer of each request, in list order |
| Server.WriteAllCloses | lib/grpcxx/h2/session.cpp:41-54 | the loop ends the process iff one of the requests is for a closed stream or two are for one stream; otherwise it closes their streams, in that order |
| Server.JobKeepsCore | lib/grpcxx/uv/server.cpp:45-50 | after each job, thrown from or not, the stream map and the responses are those of demultiplexing all batches handed out, views resolved against the buffer at the time, the session holds the events kept by an error or the closings of the streams just answered, and the closed streams are those whose closing was emitted; or the job ends the process, iff its batch ends a stream closed by then or ends one twice |
| Server.JobKeepsWire | lib/grpcxx/uv/server.cpp:45-50 | after each job, the frames of each stream are that stream's responses, each headers, data and trailers, and whole iff the peer's window covered it |
| Server.RenderedReads | lib/grpcxx/uv/conn.cpp:77-95 | in literals: a response's frames are :status 200 and content-type application/grpc, data frames that carry a first part of its bytes, and grpc-status with its code in decimal, details if any; all of its bytes iff the window covered them |
| Server.DecimalReadsBack | lib/grpcxx/status.h:39-45 | the text of a status code is decimal digits without leading zeros and reads back as the code |
| Server.JobKeepsControl | lib/grpcxx/uv/conn.cpp:67 | no job loses, repeats or reorders a control frame; after a failed read they wait |
| Server.JobRooms | lib/grpcxx/h2/session.cpp:152-166 | the responses of a job meet the rooms the peer left for it, each those the one before has left |
| Server.ShownIsChunk | lib/grpcxx/h2/session.cpp:56-67 | a data event of the chunk just read shows exactly its part of it |
| Server.JobCloses | lib/grpcxx/h2/session.cpp:168-177 | a job that does not end the process leaves exactly the closings of the streams its batch ended, in the order they are answered, for the next read |
| Server.ResetEndsProcess | lib/grpcxx/h2/session.cpp:51-53 | a first read that ends stream 1 and reports its reset: the job ends the process |
| Views.StaleExactly | lib/grpcxx/h2/session.cpp:138-150 | the batches handed out are the bytes as they arrived iff, whenever a read succeeds after failed ones, the buffer holds the same bytes as at each of these in every range that a data event emitted there views |
| Views.StaleOnRuns | lib/grpcxx/uv/reader.cpp:16-47 | the same for every connection on every run, where it is enough that no later chunk, up to the read that succeeds, reaches past the start of such a range |
| Views.NoneHeldNoneStale | lib/grpcxx/h2/session.cpp:56-67 | in particular if no error comes when data events have been emitted |
| Views.StaleView | lib/grpcxx/h2/session.cpp:139-147 | a read that emits a byte and fails, then one that succeeds: the second byte is shown as the first |
| ServerRuns.OneAnswerPerEnd | lib/grpcxx/uv/server.cpp:45-50 | on every run, unless a doomed batch ends the process, response ids are, read by read, the reverse of that read's end events on positive streams, and each response is `process` of that stream's request |
| ServerRuns.ProcessSurvives | lib/grpcxx/uv/conn.cpp:76-96 | on every run, the process is ended iff some connection has been shown a batch that ends a stream whose closing has been emitted by then, or that ends one stream twice |
| ServerRuns.ResetIsFatal | lib/grpcxx/uv/conn.cpp:84 | in particular if the closing of a stream is in the batch that ends it |
| ServerRuns.StreamIsAnswered | lib/grpcxx/server_base.cpp:7-28 | on every run, unless a doomed batch ends the process, every ended stream, whatever it sent, is answered exactly once: refused as invalid, refused as unknown, or by the handler on the payload its data shows, by exactly these conditions; its frames are that answer, whole iff the window covered it |
| ServerRuns.CallIsAnswered | lib/grpcxx/uv/server.cpp:36-54 | on every run, unless a doomed batch ends the process, a well-formed call to a registered service, cut in any way, is answered exactly once by its handler, with its metadata and method, and with its payload iff its length decodes and its pieces are cut at the prefix, the empty payload otherwise (INTERNAL if the handler throws; refused only from 2^32 bytes on); its stream's frames, flushed or buffered, are that answer, whole iff the window covered it |
| ServerRuns.CallIsRefused | lib/grpcxx/server_base.cpp:7-15 | on every run, unless a doomed batch ends the process, a stream that cannot be dispatched is answered once with status 3 and one for an unknown service once with status 5, without details; its frames are always whole: the response headers, empty data and grpc-status "3" or "5" |
| ServerRuns.AnswerIsSent | lib/grpcxx/uv/server.cpp:52 | when a connection waits for bytes or is over, and its last write has not failed, the answer to each ended stream is in the frames written |
| ServerRuns.ControlsSent | lib/grpcxx/uv/conn.cpp:15-19 | on every run, unless a doomed batch ends the process, the control frames flushed or buffered are the settings and those nghttp2 wanted sent read by read, in order, but for those that wait since a failed read |
| Connection.Session.FrameReceived | lib/grpcxx/h2/session.cpp:73-83 | an end event is added iff the lowest bit of the frame's flags is set, and earlier events are kept |
| Connection.Session.Read | lib/grpcxx/h2/session.cpp:138-150 | the events emitted so far, views unresolved, are returned and cleared, and streams whose closing is among them are closed; when nghttp2 reports an error the events stay for the next read |
| Connection.Session.Present | lib/grpcxx/h2/session.cpp:106-118 | the header loop keeps exactly the fields with a value, in order |
| Connection.Session.Headers | lib/grpcxx/h2/session.cpp:102-125 | the filtered headers are submitted |
| Connection.Session.Trailers | lib/grpcxx/h2/session.cpp:179-200 | the filtered trailers are submitted |
| Connection.Session.SubmitData | lib/grpcxx/h2/session.cpp:41-54 | the data string is replaced and its provider submitted; for a closed stream it throws, the string already replaced |
| Connection.Session.ReadCallback | lib/grpcxx/h2/session.cpp:152-166 | as many bytes are returned as fit or are there, the rest stays; end of file iff nothing needs to stay |
| Connection.Session.Pending | lib/grpcxx/h2/session.cpp:127-136 | what it returns followed by all later returns is everything that leaves; empty when nothing is left or the window is closed; trailers that leave close their stream and emit the event |
| Connection.Conn.Buffer | lib/grpcxx/uv/conn.cpp:15-19 | the loop appends everything that leaves, in order, ends, and leaves the closings in the session |
| Connection.Conn.Handle | lib/grpcxx/uv/conn.cpp:32-65 | one event changes map and request list as the demultiplexer's step function says; its stream has an entry afterwards iff it neither ends nor closes it, and no other stream's entry comes or goes |
| Connection.Conn.Demultiplex | lib/grpcxx/uv/conn.cpp:31-66 | the event loop is the demultiplexer's run over the batch |
| Connection.Conn.Read | lib/grpcxx/uv/conn.cpp:30-70 | the returned batch, its views resolved against the buffer, is demultiplexed, then everything pending is buffered; an error demultiplexes and buffers nothing |
| Connection.Conn.Write | lib/grpcxx/uv/conn.cpp:76-96 | appends the frames of the response to the buffer, or ends the process iff the stream is closed |
| Connection.Conn.Flush | lib/grpcxx/uv/conn.cpp:21-28 | a successful write sends the whole buffer and empties it, a failed one sends nothing and keeps it, as the pool's finished write says |
| Connection.Conn.Answer | lib/grpcxx/uv/server.cpp:46-49 | the loop over the requests writes one processed answer each, in list order, as far as the process lives |
| Connection.Conn.RunJob | lib/grpcxx/uv/server.cpp:45-50 | the lambda, as methods on the mutable connection, does what the job function says, exception and end of the process included |
| Connection.StreamReader.AwaitReady | lib/grpcxx/uv/reader.cpp:21-30 | reading starts, or the failure is stored and there is nothing to wait for |
| Connection.StreamReader.AwaitResume | lib/grpcxx/uv/reader.cpp:32-48 | returns the bytes read since the last call and stops reading, or nothing at the end of the stream, or throws the stored error; its state is the pool's |
| Connection.StreamReader.ReadCb | lib/grpcxx/uv/reader.cpp:54-69 | overwrites the start of the buffer, or notes end or error, and resumes exactly if a coroutine waits |
| Connection.ReadOnce | lib/grpcxx/uv/reader.cpp:21-75 | one `co_await reader`, from starting to read over the callback to resumption, returns the delivered bytes, nothing at the end of the stream, or throws, and takes the reader through the states it has in the pool |
| Connection.FirstRead | lib/grpcxx/uv/reader.cpp:8-14 | the same from the construction of the reader on |
| Base64.Draw | examples/errors/main.cpp:24-27 | the inner loop writes the letters of the sextets above the counter |
| Base64.Encode | examples/errors/main.cpp:15-39 | the loops write four characters per started group of three bytes, and these decode to the input iff the input is clean |
| Base64.GroupOfThree | examples/errors/main.cpp:19-28 | whatever the wrapping accumulator held, a group of three bytes becomes its four sextets, less the borrows of negative chars |
| Base64.LetterValue | examples/errors/main.cpp:12-13 | the alphabet is Table 1 of RFC 4648 |
| Base64.RoundTrip | examples/errors/main.cpp:15-39 | decoding by section 4 of RFC 4648 gives the input back iff `char` is unsigned or no byte >= 0x80 is at an index not divisible by 3; the length is 4*ceil(n/3) in any case |
| Base64.SignedByteLost | examples/errors/main.cpp:20-22 | with a signed `char`, the bytes 0x00 and 0x80 do not come back |
| Generator.SplitUnique | src/protoc-gen-grpcxx/grpcxx.cpp:33-44 | a name is cut into segments in one way only |
| Generator.OpenNamespaces | src/protoc-gen-grpcxx/grpcxx.cpp:36-43 | the forward scan opens exactly the segments of the package, in order |
| Generator.CloseNamespaces | src/protoc-gen-grpcxx/grpcxx.cpp:102-110 | for a package that does not start with a dot the backward scan ends and closes the segments in reverse |
| Generator.ClosingScan | src/protoc-gen-grpcxx/grpcxx.cpp:102-110 | the backward scan, with `size_t` wrap-around, ends iff the package does not start with a dot, and then closes the reverse of what was opened |
| Generator.Scoped | src/protoc-gen-grpcxx/grpcxx.cpp:67-75 | the loop writes the segments of the name joined by `::` |
| Generator.MapType | src/protoc-gen-grpcxx/grpcxx.cpp:61-78 | the mapper throws iff the name is the package itself, and otherwise writes the segments of what is left after stripping |
| Generator.MapperExact | src/protoc-gen-grpcxx/grpcxx.cpp:61-78 | it writes the name relative to the package iff the name does not merely begin with the package's text |
| Generator.MapperMisled | src/protoc-gen-grpcxx/grpcxx.cpp:63-64 | package `a` and type `ab.C`, which is not in it: what is written is `::C` |
| Generator.ScopedSplitsBack | src/protoc-gen-grpcxx/grpcxx.cpp:66-77 | split at `::`, the mapped name gives back the same segments |

## Left out

- nghttp2 (HPACK, frame parsing, the bookkeeping of windows): its receiving half is a parameter, and its sending half is a parameter for how far the window is open at each attempt.
- scheduler.cpp and server.cpp as classes: several threads interleave in them, so they are a step relation on values; aliasing between threads appears as the question which step may change which connection.
- The C++ memory model and the lifetime of coroutine frames: unlocked reads are atomic steps and frames are not destroyed.
- Shutdown through `_stop`: it abandons queued work, and all runs here are before it.
- libuv, sockets, timers, accept errors and the condition variable: a worker may take a job whenever one is queued, which the timed wait guarantees.
- writer.cpp: a started write is one decision of the environment, success or failure. A write that cannot be started throws inside the `noexcept` `conn::write` (lib/grpcxx/uv/conn.h:50), which ends the process.
- Memory exhaustion, including in `_data.reserve` of a misread length; and errors of nghttp2's submit functions other than for a closed stream, which end the process as well.
- Exceptions from handlers that are not `std::exception`, which end the process; protobuf parsing and serialising, which are part of the abstract handlers.
- lib/grpcxx/asio: its connection has the same event loop, and its writes and coroutines are library calls.
- The generator's text templates, the example services, the accessors of status, context and response, and the build and benchmark scripts: only easy facts.
