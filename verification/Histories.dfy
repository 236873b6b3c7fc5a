/** What goes into a connection and what comes out of it, over every run of the pool. */
module Histories {
  import opened Base
  import opened Pool
  import opened Ownership
  import opened Refinement
  import Outbound

  /** The jobs on what they were lent, one after the other. */
  datatype Done<C> = Done(core: C, emitted: seq<Frame>, fatal: bool)

  function JobsOver<C>(p: Program<C>, fed: seq<Lent>): Done<C> {
    if fed == [] then Done(p.init, [], false)
    else
      var before := JobsOver(p, fed[..|fed| - 1]);
      var r := p.job(before.core, fed[|fed| - 1]);
      Done(r.core, before.emitted + r.emitted, before.fatal || r.fatal)
  }

  function Chunks(fed: seq<Lent>): (chunks: seq<seq<byte>>)
    ensures |chunks| == |fed|
    ensures forall i :: 0 <= i < |chunks| ==> chunks[i] == Chunk(fed[i])
  {
    seq(|fed|, i requires 0 <= i < |fed| => Chunk(fed[i]))
  }

  /** The chunk that has been delivered and not yet been given to `conn::read`: a view of the live buffer. */
  function InHand<C>(k: Conn<C>): seq<seq<byte>> {
    match k.point
    case Resumed => if Alive(k.reader) && k.reader.nread > 0 then [View(k.reader.buf, k.reader.nread)] else []
    case HasBytes(size) => if size > 0 then [View(k.reader.buf, size)] else []
    case AtJob(size, ran) => if ran then [] else [View(k.reader.buf, size)]
    case _ => []
  }

  /** Job number `serial` of a connection ended with an exception. */
  predicate ThrewAt<C>(p: Program<C>, fed: seq<Lent>, serial: nat) {
    1 <= serial <= |fed| && p.job(JobsOver(p, fed[..serial - 1]).core, fed[serial - 1]).threw
  }

  /** Each submitted job but one that is still to run has run, and the recorded failures are those that threw. */
  ghost predicate JobsCounted<C>(p: Program<C>, k: Conn<C>) {
    && |k.fed| + One(k.point.AtJob? && !k.point.ran) == k.submitted
    && (k.point.AtJob? && k.point.ran ==> k.fed != [])
    && (forall serial :: serial in k.thrown <==> ThrewAt(p, k.fed, serial))
  }

  ghost predicate HistoryOk<C>(p: Program<C>, k: Conn<C>) {
    && JobsCounted(p, k)
    && k.delivered == Chunks(k.fed) + InHand(k)
    && Done(k.core, k.emitted, k.fatal) == JobsOver(p, k.fed)
    && k.flushed + k.buffer == k.emitted
  }

  lemma ExecuteCounted<C>(p: Program<C>, k: Conn<C>)
    requires JobsCounted(p, k) && k.core == JobsOver(p, k.fed).core && k.point.AtJob? && !k.point.ran
    ensures JobsCounted(p, Execute(p, k))
  {
    hide JobsOver;
    var lent := Lent(k.reader.buf, k.point.size, k.rooms);
    var fed := k.fed + [lent];
    assert fed[..|k.fed|] == k.fed;
    forall serial: nat
      ensures ThrewAt(p, fed, serial) <==> ThrewAt(p, k.fed, serial) || (serial == |fed| && Throws(p, k))
    {
      if 1 <= serial <= |k.fed| {
        assert fed[..serial - 1] == k.fed[..serial - 1];
      }
    }
  }

  lemma ExecuteHistory<C>(p: Program<C>, k: Conn<C>)
    requires HistoryOk(p, k) && k.point.AtJob? && !k.point.ran
    ensures HistoryOk(p, Execute(p, k))
  {
    hide JobsCounted, JobsOver, Chunks;
    ExecuteCounted(p, k);
    var lent := Lent(k.reader.buf, k.point.size, k.rooms);
    JobsOne(p, k.fed, lent);
    ChunksOne(k.fed, lent);
    var r := p.job(k.core, lent);
    assert k.flushed + (k.buffer + r.emitted) == (k.flushed + k.buffer) + r.emitted;
    assert k.delivered + [] == k.delivered;
  }

  lemma JobsOne<C>(p: Program<C>, fed: seq<Lent>, lent: Lent)
    ensures var before, r := JobsOver(p, fed), p.job(JobsOver(p, fed).core, lent);
            JobsOver(p, fed + [lent]) == Done(r.core, before.emitted + r.emitted, before.fatal || r.fatal)
  {
    assert (fed + [lent])[..|fed|] == fed;
  }

  lemma ChunksOne(fed: seq<Lent>, lent: Lent)
    ensures Chunks(fed + [lent]) == Chunks(fed) + [Chunk(lent)]
  {
    hide Chunk;
  }

  lemma InlineHistory<C>(p: Program<C>, k: Conn<C>)
    requires HistoryOk(p, k) && k.point.HasBytes? && k.point.size > 0
    ensures HistoryOk(p, Rejoin(Execute(p, Submit(k))))
  {
    hide Execute, JobsOver, Chunks;
    SubmitHistory(p, k);
    ExecuteHistory(p, Submit(k));
    assert Execute(p, Submit(k)).point == AtJob(k.point.size, true) by { ExecutePoint(p, Submit(k)); }
  }

  lemma ExecutePoint<C>(p: Program<C>, k: Conn<C>)
    requires k.point.AtJob?
    ensures Execute(p, k).point == AtJob(k.point.size, true)
  {
  }

  /** Two states of a connection between which no job was submitted or run. */
  ghost predicate Quiet<C>(k: Conn<C>, k': Conn<C>) {
    && k'.delivered == k.delivered && k'.fed == k.fed && k'.thrown == k.thrown && k'.submitted == k.submitted
    && k'.core == k.core && k'.emitted == k.emitted && k'.fatal == k.fatal
    && !k.point.AtJob? && !k'.point.AtJob? && InHand(k') == InHand(k)
    && k'.flushed + k'.buffer == k.flushed + k.buffer
  }

  lemma QuietHistory<C>(p: Program<C>, k: Conn<C>, k': Conn<C>)
    requires HistoryOk(p, k) && Quiet(k, k')
    ensures HistoryOk(p, k')
  {
    hide JobsOver, Chunks, ThrewAt, InHand;
  }

  lemma MoveQuiet<C>(p: Program<C>, k: Conn<C>, ok: bool, threads: bool)
    requires OnLoop(k.point) && !(k.point.HasBytes? && k.point.size > 0)
    ensures Quiet(k, MoveOf(p, k, ok, threads).conn)
  {
    hide View, InlineJob;
    assert k.flushed + [] == k.flushed && (k.flushed + k.buffer) + [] == k.flushed + k.buffer;
  }

  lemma SubmitHistory<C>(p: Program<C>, k: Conn<C>)
    requires HistoryOk(p, k) && k.point.HasBytes? && k.point.size > 0
    ensures HistoryOk(p, Submit(k))
  {
    hide JobsOver, Chunks, ThrewAt;
  }

  lemma MoveHistory<C>(p: Program<C>, k: Conn<C>, ok: bool, threads: bool)
    requires OnLoop(k.point) && HistoryOk(p, k)
    ensures HistoryOk(p, MoveOf(p, k, ok, threads).conn)
  {
    hide HistoryOk, Execute, Submit, Quiet;
    if k.point.HasBytes? && k.point.size > 0 {
      SubmitHistory(p, k);
      InlineHistory(p, k);
    } else {
      MoveQuiet(p, k, ok, threads);
      QuietHistory(p, k, MoveOf(p, k, ok, threads).conn);
    }
  }

  lemma DeliverHistory<C>(p: Program<C>, k: Conn<C>, d: Delivery, rooms: Outbound.Rooms)
    requires HistoryOk(p, k) && ReaderOk(k) && k.point.AtReader? && (d.Bytes? ==> |d.data| <= CAPACITY)
    ensures HistoryOk(p, Deliver(k, d, rooms))
  {
    hide JobsOver;
    if d.Bytes? {
      assert View(Overwrite(k.reader.buf, d.data), |d.data|) == d.data;
      if d.data == [] {
        assert Deliver(k, d, rooms).delivered == Chunks(k.fed) + [];
      }
    }
  }

  lemma LocalHistory<C>(p: Program<C>, s: State<C>, step: Step, c: nat, k': Conn<C>)
    requires LocalStep(p, s, step, c, k')
    requires c in s.conns ==> HistoryOk(p, s.conns[c]) && ReaderOk(s.conns[c])
    ensures HistoryOk(p, k')
  {
    hide MoveOf, Execute, Deliver, JobsOver;
    if c in s.conns {
      var k := s.conns[c];
      if k' != k {
        match step
        case OnRead(_, d, rooms) => DeliverHistory(p, k, d, rooms);
        case Advance(ok) => MoveHistory(p, k, ok, s.workers != []);
        case Work(_) => ExecuteHistory(p, k);
        case _ =>
      }
    } else {
      NewHistory(p);
    }
  }

  lemma NewHistory<C>(p: Program<C>)
    ensures HistoryOk(p, NewConn(p))
  {
  }

  lemma {:induction false} HistoryAlways<C>(p: Program<C>, n: nat, steps: seq<Step>, c: nat)
    requires Exec(p, n, steps).Some? && c in Exec(p, n, steps).value.conns
    ensures HistoryOk(p, Exec(p, n, steps).value.conns[c])
  {
    hide Next, Enabled, HistoryOk, LocalStep, HandlesOk, ProgressOk, ReaderOk;
    if steps != [] {
      var before, step := Exec(p, n, steps[..|steps| - 1]).value, steps[|steps| - 1];
      OwnedAlways(p, n, steps[..|steps| - 1]);
      if c in before.conns {
        HistoryAlways(p, n, steps[..|steps| - 1], c);
      }
      StepIsLocal(p, before, step, c);
      LocalHistory(p, before, step, c, Next(p, before, step).conns[c]);
    }
  }

  /**
   * Inbound: on every run, the chunks given to `conn::read`, although each is a view into a buffer that
   * libuv rewrites, are the delivered chunks in order, with at most the latest one still to come.
   */
  lemma InboundConserved<C>(p: Program<C>, n: nat, s: State<C>, c: nat)
    requires Reachable(p, n, s) && c in s.conns
    ensures var k := s.conns[c];
            && Chunks(k.fed) <= k.delivered == Chunks(k.fed) + InHand(k)
            && |InHand(k)| <= 1
            && Concat(k.delivered) == Concat(Chunks(k.fed)) + Concat(InHand(k))
            && (Waiting(k) ==> Chunks(k.fed) == k.delivered)
  {
    hide Exec, Chunks;
    var steps :| Exec(p, n, steps) == Some(s);
    HistoryAlways(p, n, steps, c);
    ConcatAdd(Chunks(s.conns[c].fed), InHand(s.conns[c]));
    if Waiting(s.conns[c]) {
      NothingInHand(s.conns[c]);
    }
  }

  lemma NothingInHand<C>(k: Conn<C>)
    requires Waiting(k)
    ensures InHand(k) == []
  {
  }

  /** The coroutine holds, or has lent to a job, a view of the buffer, or is between that and its next read. */
  predicate HoldsView(point: Point) {
    point.HasBytes? || point.AtJob? || point.AfterJob? || point.AtFlush? || point.AfterWrite?
  }

  /** From the moment a chunk is returned until the next `co_await reader`, nothing can rewrite the buffer. */
  lemma BufferStable<C>(p: Program<C>, n: nat, s: State<C>, c: nat, step: Step)
    requires Reachable(p, n, s) && c in s.conns && HoldsView(s.conns[c].point)
    requires Enabled(s, step)
    ensures c in Next(p, s, step).conns && Next(p, s, step).conns[c].reader.buf == s.conns[c].reader.buf
    ensures !s.conns[c].reader.reading && !s.conns[c].reader.waiting
  {
    ReachableOwned(p, n, s);
    assert ReaderOk(s.conns[c]);
    assert c in Next(p, s, step).conns by { ConnsStay(p, s, step, c); }
    StepIsLocal(p, s, step, c);
    hide Next, Reachable, Owned, Enabled;
    LocalKeepsBuffer(p, s, step, c, Next(p, s, step).conns[c]);
  }

  lemma ConnsStay<C>(p: Program<C>, s: State<C>, step: Step, c: nat)
    requires Enabled(s, step) && c in s.conns
    ensures c in Next(p, s, step).conns
  {
    hide Ended, MoveOf, Deliver, Execute, NewConn, Throws;
  }

  lemma LocalKeepsBuffer<C>(p: Program<C>, s: State<C>, step: Step, c: nat, k': Conn<C>)
    requires c in s.conns && HoldsView(s.conns[c].point) && LocalStep(p, s, step, c, k')
    ensures k'.reader.buf == s.conns[c].reader.buf
  {
  }

  /**
   * Outbound: on every run, the frames whose write succeeded followed by those still buffered are all the
   * frames the jobs produced, in order, each once; a failed write leaves its frames in the buffer.
   */
  lemma OutboundConserved<C>(p: Program<C>, n: nat, s: State<C>, c: nat)
    requires Reachable(p, n, s) && c in s.conns
    ensures var k := s.conns[c];
            && k.flushed + k.buffer == JobsOver(p, k.fed).emitted
            && k.core == JobsOver(p, k.fed).core && k.fatal == JobsOver(p, k.fed).fatal
  {
    hide Exec, JobsOver, InHand;
    var steps :| Exec(p, n, steps) == Some(s);
    HistoryAlways(p, n, steps, c);
  }

  // ----- What the jobs see in the buffer

  function LastBuffer(fed: seq<Lent>): seq<byte> {
    if fed == [] then Zeros() else fed[|fed| - 1].buf
  }

  /** Each job is lent the buffer of the job before, its own chunk put at the start. */
  ghost predicate Chained(fed: seq<Lent>) {
    forall i :: 0 <= i < |fed| ==>
      && 0 < fed[i].size <= CAPACITY == |fed[i].buf|
      && fed[i].buf == Overwrite(LastBuffer(fed[..i]), Chunk(fed[i]))
  }

  ghost predicate BufferOk<C>(k: Conn<C>) {
    && Chained(k.fed)
    && k.reader.buf == (if InHand(k) == [] then LastBuffer(k.fed) else Overwrite(LastBuffer(k.fed), InHand(k)[0]))
  }

  lemma ChainedOne(fed: seq<Lent>, lent: Lent)
    requires Chained(fed) && 0 < lent.size <= CAPACITY == |lent.buf|
    requires lent.buf == Overwrite(LastBuffer(fed), Chunk(lent))
    ensures Chained(fed + [lent]) && LastBuffer(fed + [lent]) == lent.buf
  {
    hide Overwrite, Chunk;
    var fed' := fed + [lent];
    forall i | 0 <= i < |fed'|
      ensures 0 < fed'[i].size <= CAPACITY == |fed'[i].buf|
      ensures fed'[i].buf == Overwrite(LastBuffer(fed'[..i]), Chunk(fed'[i]))
    {
      if i < |fed| {
        assert fed'[i] == fed[i] && fed'[..i] == fed[..i];
      } else {
        assert fed'[..i] == fed;
      }
    }
  }

  lemma ExecuteBuffer<C>(p: Program<C>, k: Conn<C>)
    requires BufferOk(k) && ReaderOk(k) && k.point.AtJob? && !k.point.ran
    ensures BufferOk(Execute(p, k))
  {
    hide Chained, Overwrite;
    ChainedOne(k.fed, Lent(k.reader.buf, k.point.size, k.rooms));
  }

  lemma MoveBuffer<C>(p: Program<C>, k: Conn<C>, ok: bool, threads: bool)
    requires OnLoop(k.point) && BufferOk(k) && ReaderOk(k)
    ensures BufferOk(MoveOf(p, k, ok, threads).conn)
  {
    hide Chained, Overwrite, LastBuffer, Execute;
    if k.point.HasBytes? && k.point.size > 0 {
      assert BufferOk(Submit(k)) && ReaderOk(Submit(k));
      ExecuteBuffer(p, Submit(k));
      ExecuteFacts(p, Submit(k));
    }
  }

  lemma DeliverBuffer<C>(k: Conn<C>, d: Delivery, rooms: Outbound.Rooms)
    requires BufferOk(k) && ReaderOk(k) && k.point.AtReader? && (d.Bytes? ==> |d.data| <= CAPACITY)
    ensures BufferOk(Deliver(k, d, rooms))
  {
    hide Chained, LastBuffer;
    if d.Bytes? {
      assert View(Overwrite(k.reader.buf, d.data), |d.data|) == d.data;
      assert d.data == [] ==> Overwrite(k.reader.buf, d.data) == k.reader.buf;
    }
  }

  lemma LocalBuffer<C>(p: Program<C>, s: State<C>, step: Step, c: nat, k': Conn<C>)
    requires LocalStep(p, s, step, c, k')
    requires c in s.conns ==> BufferOk(s.conns[c]) && ReaderOk(s.conns[c])
    ensures BufferOk(k')
  {
    hide MoveOf, Execute, Deliver, Chained, Overwrite, LastBuffer, ReaderOk;
    if c in s.conns {
      var k := s.conns[c];
      if k' != k {
        match step
        case OnRead(_, d, rooms) => DeliverBuffer(k, d, rooms);
        case Advance(ok) => MoveBuffer(p, k, ok, s.workers != []);
        case Work(_) => ExecuteBuffer(p, k);
        case _ =>
      }
    } else {
      NewBuffer(p);
    }
  }

  lemma NewBuffer<C>(p: Program<C>)
    ensures BufferOk(NewConn(p))
  {
  }

  lemma {:induction false} BufferAlways<C>(p: Program<C>, n: nat, steps: seq<Step>, c: nat)
    requires Exec(p, n, steps).Some? && c in Exec(p, n, steps).value.conns
    ensures BufferOk(Exec(p, n, steps).value.conns[c])
  {
    hide Next, Enabled, BufferOk, LocalStep, HandlesOk, ProgressOk, ReaderOk;
    if steps != [] {
      var before, step := Exec(p, n, steps[..|steps| - 1]).value, steps[|steps| - 1];
      OwnedAlways(p, n, steps[..|steps| - 1]);
      if c in before.conns {
        BufferAlways(p, n, steps[..|steps| - 1], c);
      }
      StepIsLocal(p, before, step, c);
      LocalBuffer(p, before, step, c, Next(p, before, step).conns[c]);
    }
  }

  /** On every run, each job finds in the buffer its own chunk, and behind it what the jobs before left there. */
  lemma BufferChained<C>(p: Program<C>, n: nat, s: State<C>, c: nat)
    requires Reachable(p, n, s) && c in s.conns
    ensures Chained(s.conns[c].fed)
  {
    hide Exec, Chained;
    var steps :| Exec(p, n, steps) == Some(s);
    BufferAlways(p, n, steps, c);
  }

  /** A job that threw resumes its connection exactly once, like any other; and each job ran on what it was lent. */
  lemma ThrowingJobsResume<C>(p: Program<C>, n: nat, s: State<C>, c: nat, serial: nat)
    requires Reachable(p, n, s) && c in s.conns && ThrewAt(p, s.conns[c].fed, serial)
    ensures Count(s.resumeLog, Job(c, serial)) + Places(s, Job(c, serial)) == 1
    ensures serial < |s.conns[c].fed| ==> Count(s.resumeLog, Job(c, serial)) == 1
    ensures serial in s.conns[c].thrown
  {
    hide Exec, Places, Count, Next, ThrewAt;
    var k := s.conns[c];
    var steps :| Exec(p, n, steps) == Some(s);
    HistoryAlways(p, n, steps, c);
    ResumedExactlyOnce(p, n, s, Job(c, serial));
    assert 1 <= serial <= |k.fed| by { ThrewRange(p, k.fed, serial); }
    assert WasSubmitted(s, Job(c, serial));
    if serial < |k.fed| {
      assert !Outstanding(s, Job(c, serial));
      OnePlace(p, n, s, Job(c, serial));
    }
  }

  lemma ThrewRange<C>(p: Program<C>, fed: seq<Lent>, serial: nat)
    requires ThrewAt(p, fed, serial)
    ensures 1 <= serial <= |fed|
  {
  }

  lemma OnePlace<C>(p: Program<C>, n: nat, s: State<C>, j: Job)
    requires Reachable(p, n, s) && !Outstanding(s, j)
    ensures Places(s, j) == 0
  {
    hide Places, Outstanding;
    ReachableOwned(p, n, s);
    assert Places(s, j) == One(Outstanding(s, j));
  }
}
