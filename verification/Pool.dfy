/**
 * lib/grpcxx/uv/scheduler.cpp, task.h, reader.cpp and `server::conn`: connections, the loop thread and
 * any number of worker threads as one step relation.
 *
 * A step is what one thread does between two points where another thread or a callback can intervene.
 * The connection's own state is a type parameter: the steps only need its job function.
 */
module Pool {
  import opened Base
  import opened Tasks
  import Outbound

  type Frame = Outbound.Frame

  // ----- One connection

  /**
   * What a job is lent: the reader's buffer, how much of it is the chunk to read, and the room for response
   * bytes that the peer leaves while it runs.
   */
  datatype Lent = Lent(buf: seq<byte>, size: nat, rooms: Outbound.Rooms)

  function Chunk(l: Lent): seq<byte> {
    View(l.buf, l.size)
  }

  /**
   * What running the job does: new state, frames appended to the buffer, whether it ends with an exception,
   * and whether it ends the process, by an exception that leaves a `noexcept` function.
   */
  datatype JobResult<C> = JobResult(core: C, emitted: seq<Frame>, threw: bool, fatal: bool)

  datatype Program<!C> = Program(init: C, job: (C, Lent) -> JobResult<C>)

  const CAPACITY: nat := 1024

  /** `waiting` stands for a non-null coroutine handle, `reading` for libuv's read being started. */
  datatype Reader = Reader(buf: seq<byte>, nread: nat, eos: bool, failed: bool, waiting: bool, reading: bool)

  /** Where the coroutine `server::conn` is; the first three and `Closed` are suspension points. */
  datatype Point =
    | AtReader                       // suspended in `co_await reader`
    | AtJob(size: nat, ran: bool)    // suspended in `co_await _scheduler.run(...)`
    | AtFlush                        // suspended in `co_await c.flush()`, write in flight
    | Top                            // at the head of the loop
    | Resumed                        // woken by the read callback
    | HasBytes(size: nat)            // holds a view of the first `size` bytes of the buffer
    | AfterJob                       // woken after the job
    | AfterWrite(ok: bool)           // woken by the write callback
    | Closed

  datatype Delivery = Bytes(data: seq<byte>) | Eof | Failure

  /** Everything the environment decides for a connection. */
  datatype Input = StartRead(ok: bool) | Delivered(d: Delivery, rooms: Outbound.Rooms) | Wrote(ok: bool)

  /**
   * `inputs`, `delivered`, `fed`, `thrown`, `emitted` and `flushed` are histories: environment decisions,
   * non-empty chunks put in the buffer, what `conn::read` was lent, the jobs that threw, frames appended to
   * `_buffer`, frames written. `rooms` is for the next job, and `fatal` tells that a job ended the process.
   */
  datatype Conn<C> = Conn(
    point: Point,
    reader: Reader,
    rooms: Outbound.Rooms,
    core: C,
    buffer: seq<Frame>,
    fatal: bool,
    submitted: nat,
    inputs: seq<Input>,
    delivered: seq<seq<byte>>,
    fed: seq<Lent>,
    thrown: set<nat>,
    emitted: seq<Frame>,
    flushed: seq<Frame>)

  /** The buffer of a new reader. */
  function Zeros(): (buf: seq<byte>)
    ensures |buf| == CAPACITY
  {
    seq(CAPACITY, i => 0)
  }

  function NewConn<C>(p: Program<C>): Conn<C> {
    Conn(Top, Reader(Zeros(), 0, false, false, false, false), [], p.init, [], false, 0, [], [], [], {}, [], [])
  }

  /** The reader converts to true: neither end of stream nor error. */
  predicate Alive(r: Reader) {
    !r.eos && !r.failed
  }

  /** `data` put at the start of the buffer. */
  function Overwrite(buf: seq<byte>, data: seq<byte>): seq<byte> {
    if |data| <= |buf| then data + buf[|data|..] else data
  }

  function View(buf: seq<byte>, size: nat): seq<byte> {
    if size <= |buf| then buf[..size] else buf
  }

  /** The end of the coroutine: the reader's destructor stops reading. */
  function Shut<C>(k: Conn<C>): Conn<C> {
    k.(point := Closed, reader := k.reader.(reading := false, waiting := false))
  }

  /** The reader after `await_ready` and `await_suspend`, or after `await_ready` alone if reading cannot start. */
  function Started(r: Reader, ok: bool): Reader {
    if ok then r.(reading := true, waiting := true) else r.(failed := true)
  }

  /** The start of `co_await reader`; when reading cannot start, `await_resume` throws at once. */
  function BeginRead<C>(k: Conn<C>, ok: bool): Conn<C> {
    var k1 := k.(inputs := k.inputs + [StartRead(ok)], reader := Started(k.reader, ok));
    if ok then k1.(point := AtReader) else Shut(k1)
  }

  /** What a read callback does to the reader: fill the buffer or note the end. */
  function Filled(r: Reader, d: Delivery): Reader {
    match d
    case Bytes(data) => r.(buf := Overwrite(r.buf, data), nread := |data|)
    case Eof => r.(eos := true)
    case Failure => r.(failed := true)
  }

  /** `read_cb`: fill the buffer or note the end, then resume whoever waits. */
  function Deliver<C>(k: Conn<C>, d: Delivery, rooms: Outbound.Rooms): Conn<C> {
    var r := Filled(k.reader, d);
    k.(reader := r,
       point := if r.waiting then Resumed else k.point,
       rooms := rooms,
       inputs := k.inputs + [Delivered(d, rooms)],
       delivered := if d.Bytes? && d.data != [] then k.delivered + [d.data] else k.delivered)
  }

  /** The reader after `await_resume`: reading stops only with bytes. */
  function Taken(r: Reader): Reader {
    if Alive(r) then r.(waiting := false, nread := 0, reading := false) else r.(waiting := false)
  }

  /** `await_resume`. */
  function TakeBytes<C>(k: Conn<C>): Conn<C> {
    var k1 := k.(reader := Taken(k.reader));
    if k.reader.failed then Shut(k1) else k1.(point := if k.reader.eos then Top else HasBytes(k.reader.nread))
  }

  function Submit<C>(k: Conn<C>): Conn<C>
    requires k.point.HasBytes?
  {
    k.(point := AtJob(k.point.size, false), submitted := k.submitted + 1)
  }

  /** Whether the job a connection is suspended on throws when it is run now. */
  predicate Throws<C>(p: Program<C>, k: Conn<C>)
    requires k.point.AtJob?
  {
    p.job(k.core, Lent(k.reader.buf, k.point.size, k.rooms)).threw
  }

  /** The job: `conn::read` on the bytes the view shows now, then `process` and `conn::write` per request. */
  function Execute<C>(p: Program<C>, k: Conn<C>): Conn<C>
    requires k.point.AtJob?
  {
    var lent := Lent(k.reader.buf, k.point.size, k.rooms);
    var r := p.job(k.core, lent);
    k.(point := AtJob(k.point.size, true),
       core := r.core,
       buffer := k.buffer + r.emitted,
       fatal := k.fatal || r.fatal,
       emitted := k.emitted + r.emitted,
       fed := k.fed + [lent],
       thrown := if r.threw then k.thrown + {k.submitted} else k.thrown)
  }

  function Rejoin<C>(k: Conn<C>): Conn<C> {
    k.(point := AfterJob)
  }

  /** `flush` with a non-empty buffer. */
  function BeginWrite<C>(k: Conn<C>): Conn<C> {
    k.(point := AtFlush)
  }

  function WriteDone<C>(k: Conn<C>, ok: bool): Conn<C> {
    k.(inputs := k.inputs + [Wrote(ok)], point := AfterWrite(ok))
  }

  /** What a write of the whole buffer sends and what it leaves: after a failed one the buffer is not cleared. */
  datatype Flushed = Flushed(sent: seq<Frame>, left: seq<Frame>)

  function WholeBuffer(buffer: seq<Frame>, ok: bool): Flushed {
    if ok then Flushed(buffer, []) else Flushed([], buffer)
  }

  function FinishWrite<C>(k: Conn<C>): Conn<C>
    requires k.point.AfterWrite?
  {
    var f := WholeBuffer(k.buffer, k.point.ok);
    k.(point := Top, flushed := k.flushed + f.sent, buffer := f.left)
  }

  // ----- The system

  /** The `serial`-th job of connection `conn`, as a coroutine handle in a queue. */
  datatype Job = Job(conn: nat, serial: nat)

  datatype Worker =
    | Idle
    | Holding(job: Job)   // popped, not run yet
    | Finished(job: Job, threw: bool) // run; an exception, if any, still to be caught, then the final suspension
    | Signalling          // pushed to the joiners, `uv_async_send` still to come
    | Hosting(conn: nat)  // runs a connection's coroutine, resumed in place at the end of a job

  datatype Loop =
    | Polling                          // in `uv_run`, no callback active
    | Testing                          // in `join`, about to test for emptiness
    | Popping                          // in `join`, saw a non-empty queue
    | Running(conn: nat, inJoin: bool) // a connection's coroutine is running

  /**
   * `tasks` are the jobs' promises; `submitLog` and `resumeLog` are histories of both ends of the hand-over, and
   * `errorLog` of the exceptions that `unhandled_exception` has reported.
   */
  datatype State<C> = State(
    conns: map<nat, Conn<C>>,
    shifters: seq<Job>,
    workers: seq<Worker>,
    joiners: seq<Job>,
    pending: bool,
    loop: Loop,
    tasks: map<Job, Promise<Job>>,
    submitLog: seq<Job>,
    resumeLog: seq<Job>,
    errorLog: seq<Job>)

  function Init<C>(n: nat): State<C> {
    State(map[], [], seq(n, i => Idle), [], false, Polling, map[], [], [], [])
  }

  datatype Step =
    | Accept(c: nat)
    | OnRead(c: nat, d: Delivery, rooms: Outbound.Rooms)
    | OnWrite(c: nat, ok: bool)
    | OnAsync
    | Test
    | Pop
    | Advance(ok: bool) // the coroutine running on the loop; `ok` answers `uv_read_start`
    | Take(w: nat)
    | Work(w: nat)
    | Catch(w: nat)            // `unhandled_exception`
    | Complete(w: nat)         // `final_suspend`
    | Send(w: nat)
    | Stray(w: nat, ok: bool)  // a coroutine running on a worker

  /** A step of the environment rather than of a thread of the server. */
  predicate IsExternal(step: Step) {
    step.Accept? || step.OnRead? || step.OnWrite?
  }

  /** A step of a worker thread. */
  predicate ByWorker(step: Step) {
    step.Take? || step.Work? || step.Catch? || step.Complete? || step.Send? || step.Stray?
  }

  /** Callbacks run from `uv_run`; a popped empty queue is not excluded here but proved impossible. */
  predicate Possible<C>(s: State<C>, step: Step) {
    match step
    case Accept(c) => s.loop.Polling? && c !in s.conns
    case OnRead(c, d, _) =>
      s.loop.Polling? && c in s.conns && s.conns[c].reader.reading && (d.Bytes? ==> |d.data| <= CAPACITY)
    case OnWrite(c, _) => s.loop.Polling? && c in s.conns && s.conns[c].point.AtFlush?
    case OnAsync => s.loop.Polling? && s.pending
    case Test => s.loop.Testing?
    case Pop => s.loop.Popping?
    case Advance(_) => s.loop.Running?
    case Take(w) => w < |s.workers| && s.workers[w].Idle? && s.shifters != []
    case Work(w) => w < |s.workers| && s.workers[w].Holding?
    case Catch(w) => w < |s.workers| && s.workers[w].Finished? && s.workers[w].threw
    case Complete(w) => w < |s.workers| && s.workers[w].Finished? && !s.workers[w].threw
    case Send(w) => w < |s.workers| && s.workers[w].Signalling?
    case Stray(w, _) => w < |s.workers| && s.workers[w].Hosting?
  }

  /** A job has ended the process. */
  predicate Ended<C>(s: State<C>) {
    exists c :: c in s.conns && s.conns[c].fatal
  }

  predicate Enabled<C>(s: State<C>, step: Step) {
    Possible(s, step) && !Ended(s)
  }

  /** Control goes back to `join`, or to libuv. */
  function Return(loop: Loop): Loop {
    if loop.Running? && loop.inJoin then Testing else Polling
  }

  datatype JobMove = NoJob | Queued | RanInline

  /** What the running coroutine does next: its new state, whether it suspends or ends, and the job it submits. */
  datatype Move<C> = Move(conn: Conn<C>, suspends: bool, job: JobMove)

  /** The end of the task of `flush`, thrown or not. */
  function FlushEnds<C>(k: Conn<C>): Move<C> {
    if FinalSuspend(FlushPromise(0)).ResumeHere? then Move(k.(point := Top), false, NoJob) else Move(k, true, NoJob)
  }

  /** The job without worker threads: `enqueue` declines, so the coroutine runs on to its end. */
  function InlineJob<C>(p: Program<C>, k: Conn<C>): Move<C>
    requires k.point.HasBytes?
  {
    var k1 := Execute(p, Submit(k));
    if FinalSuspend(JobPromise(false, 0)).ResumeHere? then Move(Rejoin(k1), false, RanInline)
    else Move(k1, true, RanInline)
  }

  /** The running coroutine up to the next point of interest; `threads` tells whether there are workers. */
  function MoveOf<C>(p: Program<C>, k: Conn<C>, ok: bool, threads: bool): Move<C> {
    match k.point
    case Top => Move(if Alive(k.reader) then BeginRead(k, ok) else Shut(k), true, NoJob)
    case Resumed =>
      var k1 := TakeBytes(k);
      Move(k1, k1.point.Closed?, NoJob)
    case HasBytes(size) =>
      if size == 0 then Move(k.(point := Top), false, NoJob)
      else if threads then Move(Submit(k), true, Queued)
      else InlineJob(p, k)
    case AfterJob => if k.buffer == [] then FlushEnds(k) else Move(BeginWrite(k), true, NoJob)
    case AfterWrite(_) => FlushEnds(FinishWrite(k))
    case _ => Move(k, true, NoJob)
  }

  /** The move of connection `c` on everything but the thread it runs on. */
  function ApplyMove<C>(s: State<C>, c: nat, serial: nat, m: Move<C>): State<C> {
    var job := Job(c, serial);
    s.(conns := s.conns[c := m.conn],
       tasks := if m.job.NoJob? then s.tasks else s.tasks[job := JobPromise(s.workers != [], job)],
       shifters := if m.job.Queued? then s.shifters + [job] else s.shifters,
       submitLog := if m.job.NoJob? then s.submitLog else s.submitLog + [job],
       resumeLog := if m.job.RanInline? then s.resumeLog + [job] else s.resumeLog,
       errorLog := if m.job.RanInline? && serial in m.conn.thrown then s.errorLog + [job] else s.errorLog)
  }

  /** The final suspension of job `j` on worker `w`: what becomes of the connection is up to the promise. */
  function Conclude<C>(s: State<C>, w: nat, j: Job): State<C>
    requires w < |s.workers|
  {
    if j !in s.tasks then s.(workers := s.workers[w := Idle])
    else
      var s1 := s.(tasks := s.tasks[j := s.tasks[j].(done := true)]);
      match FinalSuspend(s.tasks[j])
      case Nothing => s1.(workers := s.workers[w := Idle])
      case HandOver(h) => s1.(joiners := s.joiners + [h], workers := s.workers[w := Signalling])
      case ResumeHere(h) =>
        s1.(conns := if h.conn in s.conns then s.conns[h.conn := Rejoin(s.conns[h.conn])] else s.conns,
            workers := s.workers[w := Hosting(h.conn)],
            resumeLog := s.resumeLog + [h])
  }

  function Next<C>(p: Program<C>, s: State<C>, step: Step): State<C>
    requires Enabled(s, step)
  {
    if ByWorker(step) then WorkerNext(p, s, step) else LoopNext(p, s, step)
  }

  /** Steps of the loop thread and of the environment. */
  function LoopNext<C>(p: Program<C>, s: State<C>, step: Step): State<C>
    requires Enabled(s, step) && !ByWorker(step)
  {
    match step
    case Accept(c) => s.(conns := s.conns[c := NewConn(p)], loop := Running(c, false))
    case OnRead(c, d, rooms) =>
      var k := Deliver(s.conns[c], d, rooms);
      s.(conns := s.conns[c := k], loop := if k.point.Resumed? then Running(c, false) else Polling)
    case OnWrite(c, ok) => s.(conns := s.conns[c := WriteDone(s.conns[c], ok)], loop := Running(c, false))
    case OnAsync => s.(pending := false, loop := Testing)
    case Test => s.(loop := if s.joiners == [] then Polling else Popping)
    case Pop =>
      if s.joiners == [] || s.joiners[0].conn !in s.conns then s
      else
        var j := s.joiners[0];
        s.(conns := s.conns[j.conn := Rejoin(s.conns[j.conn])],
           joiners := s.joiners[1..],
           loop := Running(j.conn, true),
           resumeLog := s.resumeLog + [j])
    case Advance(ok) =>
      if s.loop.conn !in s.conns then s
      else
        var k := s.conns[s.loop.conn];
        var m := MoveOf(p, k, ok, s.workers != []);
        ApplyMove(s, s.loop.conn, k.submitted + 1, m).(loop := if m.suspends then Return(s.loop) else s.loop)
  }

  function WorkerNext<C>(p: Program<C>, s: State<C>, step: Step): State<C>
    requires Enabled(s, step) && ByWorker(step)
  {
    match step
    case Take(w) => s.(shifters := s.shifters[1..], workers := s.workers[w := Holding(s.shifters[0])])
    case Work(w) =>
      var j := s.workers[w].job;
      if j.conn in s.conns && s.conns[j.conn].point.AtJob? then
        var k := s.conns[j.conn];
        s.(conns := s.conns[j.conn := Execute(p, k)], workers := s.workers[w := Finished(j, Throws(p, k))])
      else s.(workers := s.workers[w := Finished(j, false)])
    case Catch(w) =>
      var j := s.workers[w].job;
      s.(workers := s.workers[w := Finished(j, false)], errorLog := s.errorLog + [j])
    case Complete(w) => Conclude(s, w, s.workers[w].job)
    case Send(w) => s.(pending := true, workers := s.workers[w := Idle])
    case Stray(w, ok) =>
      var c := s.workers[w].conn;
      if c !in s.conns then s
      else
        var k := s.conns[c];
        var m := MoveOf(p, k, ok, s.workers != []);
        ApplyMove(s, c, k.submitted + 1, m).(workers := if m.suspends then s.workers[w := Idle] else s.workers)
  }

  /** The state a list of steps leads to from the start with `n` worker threads; `None` if one was not enabled. */
  function Exec<C>(p: Program<C>, n: nat, steps: seq<Step>): Option<State<C>> {
    if steps == [] then Some(Init(n))
    else
      var s := Exec(p, n, steps[..|steps| - 1]);
      var step := steps[|steps| - 1];
      if s.Some? && Enabled(s.value, step) then Some(Next(p, s.value, step)) else None
  }

  /** `s` is reached by some run with `n` worker threads. */
  ghost predicate Reachable<C>(p: Program<C>, n: nat, s: State<C>) {
    exists steps :: Exec(p, n, steps) == Some(s)
  }
}
