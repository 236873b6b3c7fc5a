/** Who may touch a connection: in every reachable state each job is in one place and each connection in one hand. */
module Ownership {
  import opened Base
  import opened Tasks
  import opened Pool
  import Outbound

  // ----- Counting the handles under way

  function One(b: bool): nat {
    if b then 1 else 0
  }

  function Count(q: seq<Job>, j: Job): nat {
    if q == [] then 0 else Count(q[..|q| - 1], j) + One(q[|q| - 1] == j)
  }

  function Holds(w: Worker, j: Job): bool {
    (w.Holding? || w.Finished?) && w.job == j
  }

  function HeldCount(ws: seq<Worker>, j: Job): nat {
    if ws == [] then 0 else HeldCount(ws[..|ws| - 1], j) + One(Holds(ws[|ws| - 1], j))
  }

  /** In how many places the handle of job `j` is: either queue, or some worker. */
  function Places<C>(s: State<C>, j: Job): nat {
    Count(s.shifters, j) + HeldCount(s.workers, j) + Count(s.joiners, j)
  }

  lemma CountPush(q: seq<Job>, x: Job, j: Job)
    ensures Count(q + [x], j) == Count(q, j) + One(x == j)
  {
    assert (q + [x])[..|q|] == q;
  }

  lemma {:induction false} CountPop(q: seq<Job>, j: Job)
    requires q != []
    ensures Count(q, j) == One(q[0] == j) + Count(q[1..], j)
  {
    var last := |q| - 1;
    if last > 0 {
      CountPop(q[..last], j);
      assert q[1..][..last - 1] == q[..last][1..];
      assert q[1..][last - 1] == q[last];
    }
  }

  lemma {:induction false} CountMember(q: seq<Job>, i: nat)
    requires i < |q|
    ensures Count(q, q[i]) >= 1
  {
    if i < |q| - 1 {
      CountMember(q[..|q| - 1], i);
    }
  }

  lemma {:induction false} HeldUpdate(ws: seq<Worker>, i: nat, w: Worker, j: Job)
    requires i < |ws|
    ensures HeldCount(ws[i := w], j) + One(Holds(ws[i], j)) == HeldCount(ws, j) + One(Holds(w, j))
  {
    var last := |ws| - 1;
    if i == last {
      assert ws[i := w][..last] == ws[..last];
    } else {
      HeldUpdate(ws[..last], i, w, j);
      assert ws[i := w][..last] == ws[..last][i := w];
      assert ws[i := w][last] == ws[last];
    }
  }

  lemma {:induction false} HeldMember(ws: seq<Worker>, i: nat, j: Job)
    requires i < |ws| && Holds(ws[i], j)
    ensures HeldCount(ws, j) >= 1
  {
    if i < |ws| - 1 {
      HeldMember(ws[..|ws| - 1], i, j);
    }
  }

  lemma {:induction false} HeldNone(ws: seq<Worker>, j: Job)
    requires forall i :: 0 <= i < |ws| ==> !Holds(ws[i], j)
    ensures HeldCount(ws, j) == 0
  {
    if ws != [] {
      HeldNone(ws[..|ws| - 1], j);
    }
  }

  /** Whether a step submits job `j`. */
  predicate Submits<C>(s: State<C>, step: Step, j: Job)
    requires Enabled(s, step)
  {
    && step.Advance? && s.loop.conn == j.conn && j.conn in s.conns
    && s.conns[j.conn].point.HasBytes? && s.conns[j.conn].point.size > 0
    && j.serial == s.conns[j.conn].submitted + 1
  }

  /** Whether a step resumes the connection waiting for job `j` from the joiners. */
  predicate Resumes<C>(s: State<C>, step: Step, j: Job) {
    step.Pop? && s.joiners != [] && s.joiners[0] == j && j.conn in s.conns
  }

  // ----- The invariant

  /** Points at which the coroutine is being executed by the loop thread. */
  predicate OnLoop(point: Point) {
    point.Top? || point.Resumed? || point.HasBytes? || point.AfterJob? || point.AfterWrite?
  }

  /** Reading is on, and a handle registered, only while the coroutine waits for bytes or has just been woken. */
  predicate ReaderOk<C>(k: Conn<C>) {
    var r := k.reader;
    && |r.buf| == CAPACITY && r.nread <= CAPACITY
    && (r.reading ==> k.point.AtReader? || k.point.Resumed? || (k.point.Top? && !Alive(r)))
    && (r.waiting ==> k.point.AtReader? || k.point.Resumed?)
    && (k.point.AtReader? ==> r.reading && r.waiting && Alive(r))
    && (k.point.HasBytes? ==> k.point.size <= CAPACITY)
    && (k.point.AtJob? ==> 0 < k.point.size <= CAPACITY)
  }

  /** Connection `j.conn` is suspended on its job number `j.serial`. */
  predicate Outstanding<C>(s: State<C>, j: Job) {
    j.conn in s.conns && s.conns[j.conn].point.AtJob? && j.serial == s.conns[j.conn].submitted
  }

  /** The end of job `j` will give its connection to the completion hook. */
  predicate HandsOver<C>(s: State<C>, j: Job) {
    j in s.tasks && FinalSuspend(s.tasks[j]) == HandOver(j)
  }

  /** Job `j` is outstanding, has run or not, and will be handed over. */
  predicate Progress<C>(s: State<C>, j: Job, ran: bool) {
    Outstanding(s, j) && s.conns[j.conn].point.ran == ran && HandsOver(s, j)
  }

  ghost predicate HandlesOk<C>(s: State<C>) {
    forall j :: Places(s, j) == One(Outstanding(s, j))
  }

  ghost predicate ConnsOk<C>(s: State<C>) {
    && (forall c :: c in s.conns ==> ReaderOk(s.conns[c]))
    && (forall c :: c in s.conns && OnLoop(s.conns[c].point) ==> s.loop.Running? && s.loop.conn == c)
    && (s.loop.Running? ==> s.loop.conn in s.conns && OnLoop(s.conns[s.loop.conn].point))
  }

  /** What a worker does is consistent with the job it holds; none of them hosts a connection. */
  predicate WorkerOk<C>(s: State<C>, w: Worker) {
    match w
    case Holding(j) => Progress(s, j, false)
    case Finished(j, _) => Progress(s, j, true)
    case Hosting(_) => false
    case _ => true
  }

  ghost predicate ProgressOk<C>(s: State<C>) {
    && (forall i :: 0 <= i < |s.shifters| ==> Progress(s, s.shifters[i], false))
    && (forall i :: 0 <= i < |s.joiners| ==> Progress(s, s.joiners[i], true))
    && (forall w :: 0 <= w < |s.workers| ==> WorkerOk(s, s.workers[w]))
  }

  ghost predicate Owned<C>(s: State<C>) {
    HandlesOk(s) && ConnsOk(s) && ProgressOk(s)
  }

  // ----- Handles are conserved

  /** What the running coroutine's move says about jobs. */
  lemma MoveJob<C>(p: Program<C>, k: Conn<C>, ok: bool, threads: bool)
    ensures MoveOf(p, k, ok, threads).job ==
            if !(k.point.HasBytes? && k.point.size > 0) then NoJob else if threads then Queued else RanInline
  {
  }

  /** A worker at the final suspension pushes the connection to the joiners. */
  lemma CompleteShape<C>(p: Program<C>, s: State<C>, w: nat)
    requires ProgressOk(s) && Enabled(s, Complete(w))
    ensures var j, s' := s.workers[w].job, Next(p, s, Complete(w));
            && HandsOver(s, j)
            && s' == s.(tasks := s'.tasks, joiners := s.joiners + [j], workers := s.workers[w := Signalling])
            && s'.tasks == s.tasks[j := s.tasks[j].(done := true)]
  {
    hide Ended, Outstanding;
    assert WorkerOk(s, s.workers[w]);
  }

  lemma NoStray<C>(s: State<C>, w: nat, ok: bool)
    requires ProgressOk(s)
    ensures !Enabled(s, Stray(w, ok))
  {
    hide Ended, Progress;
    if w < |s.workers| {
      assert WorkerOk(s, s.workers[w]);
    }
  }

  /** Worker `w` is about to run the job of connection `c`. */
  predicate Runs<C>(s: State<C>, step: Step, c: nat) {
    step.Work? && step.w < |s.workers| && s.workers[step.w].Holding? && s.workers[step.w].job.conn == c
  }

  /** What a worker leaves alone: the loop, the logs, and every connection but the one whose job it runs. */
  lemma WorkerFrame<C>(p: Program<C>, s: State<C>, step: Step)
    requires Owned(s) && Enabled(s, step) && ByWorker(step)
    ensures var s' := Next(p, s, step);
            && !step.Stray? && s'.loop == s.loop && s'.submitLog == s.submitLog && s'.resumeLog == s.resumeLog
            && s'.conns.Keys == s.conns.Keys
            && (forall c :: c in s.conns ==>
                  if Runs(s, step, c)
                  then s.conns[c].point == AtJob(s.conns[c].point.size, false) && s'.conns[c] == Execute(p, s.conns[c])
                  else s'.conns[c] == s.conns[c])
            && (forall j :: HandsOver(s, j) ==> HandsOver(s', j))
  {
    hide Ended, HandlesOk, ConnsOk, Execute, Throws, ApplyMove, Conclude;
    match step
    case Work(w) => assert WorkerOk(s, s.workers[w]);
    case Complete(w) => CompleteShape(p, s, w);
    case Stray(w, ok) => NoStray(s, w, ok);
    case _ =>
  }

  lemma WorkerHandles<C>(p: Program<C>, s: State<C>, step: Step, j: Job)
    requires ProgressOk(s) && Enabled(s, step) && ByWorker(step)
    ensures Places(Next(p, s, step), j) == Places(s, j)
  {
    hide Ended, Execute, Throws, Count, HeldCount, Conclude, ApplyMove, Progress;
    match step
    case Take(w) =>
      HeldUpdate(s.workers, w, Holding(s.shifters[0]), j);
      CountPop(s.shifters, j);
    case Work(w) => HeldUpdate(s.workers, w, Next(p, s, step).workers[w], j);
    case Catch(w) => HeldUpdate(s.workers, w, Finished(s.workers[w].job, false), j);
    case Complete(w) =>
      CompleteShape(p, s, w);
      HeldUpdate(s.workers, w, Signalling, j);
      CountPush(s.joiners, s.workers[w].job, j);
    case Send(w) => HeldUpdate(s.workers, w, Idle, j);
    case Stray(w, ok) => NoStray(s, w, ok);
  }

  /** Steps move handles: only a submission adds one and only a resumption removes one. */
  lemma HandlesConserved<C>(p: Program<C>, s: State<C>, step: Step, j: Job)
    requires Owned(s) && Enabled(s, step)
    ensures Places(Next(p, s, step), j) + One(Resumes(s, step, j)) ==
            Places(s, j) + One(s.workers != [] && Submits(s, step, j))
  {
    hide Ended, MoveOf, Deliver, WriteDone, NewConn, Count, HeldCount, HandlesOk, ConnsOk, Progress, WorkerNext;
    if ByWorker(step) {
      WorkerHandles(p, s, step, j);
    } else if step.Pop? {
      if s.joiners != [] {
        CountPop(s.joiners, j);
      }
    } else if step.Advance? && s.loop.conn in s.conns {
      var k := s.conns[s.loop.conn];
      MoveJob(p, k, step.ok, s.workers != []);
      CountPush(s.shifters, Job(s.loop.conn, k.submitted + 1), j);
    }
  }

  lemma LogsFollow<C>(p: Program<C>, s: State<C>, step: Step, j: Job)
    requires Owned(s) && Enabled(s, step)
    ensures var s' := Next(p, s, step);
            && Count(s'.submitLog, j) == Count(s.submitLog, j) + One(Submits(s, step, j))
            && Count(s'.resumeLog, j) ==
               Count(s.resumeLog, j) + One(Resumes(s, step, j)) + One(s.workers == [] && Submits(s, step, j))
  {
    hide Ended, MoveOf, Deliver, WriteDone, NewConn, Count, HandlesOk, ConnsOk, Progress, WorkerNext;
    if ByWorker(step) {
      WorkerFrame(p, s, step);
    } else if step.Pop? {
      if s.joiners != [] {
        CountPush(s.resumeLog, s.joiners[0], j);
      }
    } else if step.Advance? && s.loop.conn in s.conns {
      var k := s.conns[s.loop.conn];
      MoveJob(p, k, step.ok, s.workers != []);
      CountPush(s.submitLog, Job(s.loop.conn, k.submitted + 1), j);
      CountPush(s.resumeLog, Job(s.loop.conn, k.submitted + 1), j);
    }
  }

  // ----- Every step keeps it

  lemma MoveFacts<C>(p: Program<C>, k: Conn<C>, ok: bool, threads: bool)
    requires ReaderOk(k) && OnLoop(k.point)
    ensures var m := MoveOf(p, k, ok, threads);
            && ReaderOk(m.conn)
            && (m.suspends <==> !OnLoop(m.conn.point))
            && (m.conn.point.AtJob? <==> m.job.Queued?)
            && (m.job.Queued? ==> !m.conn.point.ran)
            && m.conn.submitted == k.submitted + One(!m.job.NoJob?)
  {
  }

  lemma DeliverFacts<C>(k: Conn<C>, d: Delivery, rooms: Outbound.Rooms)
    requires ReaderOk(k) && k.reader.reading && !OnLoop(k.point)
    requires d.Bytes? ==> |d.data| <= CAPACITY
    ensures k.point.AtReader? && Deliver(k, d, rooms).point.Resumed? && ReaderOk(Deliver(k, d, rooms))
    ensures Deliver(k, d, rooms).submitted == k.submitted
  {
  }

  lemma ExecuteFacts<C>(p: Program<C>, k: Conn<C>)
    requires ReaderOk(k) && k.point.AtJob?
    ensures var k' := Execute(p, k);
            && ReaderOk(k') && k'.point == AtJob(k.point.size, true)
            && k'.submitted == k.submitted && k'.reader == k.reader
  {
  }

  lemma NewConnFacts<C>(p: Program<C>)
    ensures ReaderOk(NewConn(p)) && OnLoop(NewConn(p).point) && NewConn(p).submitted == 0
  {
  }

  /** One connection changed while the loop was in `uv_run`, which now runs it. */
  lemma ConnsPut<C>(s: State<C>, s': State<C>, c: nat)
    requires ConnsOk(s) && s.loop.Polling? && c in s'.conns && s'.conns == s.conns[c := s'.conns[c]]
    requires ReaderOk(s'.conns[c]) && OnLoop(s'.conns[c].point) && s'.loop == Running(c, false)
    ensures ConnsOk(s')
  {
    hide Ended, ReaderOk;
  }

  lemma CallbackConns<C>(p: Program<C>, s: State<C>, step: Step)
    requires Owned(s) && Enabled(s, step) && (IsExternal(step) || step.OnAsync? || step.Test?)
    ensures ConnsOk(Next(p, s, step))
  {
    hide Ended, Deliver, NewConn, HandlesOk, ReaderOk, ProgressOk, WorkerNext, OnLoop;
    match step
    case Accept(c) =>
      NewConnFacts(p);
      ConnsPut(s, Next(p, s, step), c);
    case OnRead(c, d, rooms) =>
      assert !OnLoop(s.conns[c].point);
      DeliverFacts(s.conns[c], d, rooms);
      ResumedOnLoop(Deliver(s.conns[c], d, rooms).point);
      ConnsPut(s, Next(p, s, step), c);
    case OnWrite(c, ok) =>
      WriteDoneFacts(s.conns[c], ok);
      ConnsPut(s, Next(p, s, step), c);
    case _ =>
  }

  lemma ResumedOnLoop(point: Point)
    ensures point.Resumed? ==> OnLoop(point)
  {
  }

  lemma WorkerConns<C>(p: Program<C>, s: State<C>, step: Step)
    requires Owned(s) && Enabled(s, step) && ByWorker(step)
    ensures ConnsOk(Next(p, s, step))
  {
    hide Next, Execute, HandlesOk, ReaderOk, ProgressOk, Enabled, HandsOver, Runs;
    var s' := Next(p, s, step);
    WorkerFrame(p, s, step);
    forall c | c in s.conns
      ensures ReaderOk(s'.conns[c]) && OnLoop(s'.conns[c].point) == OnLoop(s.conns[c].point)
    {
      if Runs(s, step, c) {
        ExecuteFacts(p, s.conns[c]);
      }
    }
  }

  lemma ConnsStep<C>(p: Program<C>, s: State<C>, step: Step)
    requires Owned(s) && Enabled(s, step)
    ensures ConnsOk(Next(p, s, step))
  {
    hide Ended, MoveOf, Execute, Deliver, NewConn, HandlesOk, ReaderOk, WorkerNext;
    if ByWorker(step) {
      WorkerConns(p, s, step);
    } else if IsExternal(step) || step.OnAsync? || step.Test? {
      CallbackConns(p, s, step);
    } else if step.Pop? {
      if s.joiners != [] {
        assert Progress(s, s.joiners[0], true);
        RejoinFacts(s.conns[s.joiners[0].conn]);
      }
    } else if step.Advance? {
      MoveFacts(p, s.conns[s.loop.conn], step.ok, s.workers != []);
    }
  }

  lemma WriteDoneFacts<C>(k: Conn<C>, ok: bool)
    requires ReaderOk(k) && k.point.AtFlush?
    ensures ReaderOk(WriteDone(k, ok)) && OnLoop(WriteDone(k, ok).point)
  {
  }

  lemma RejoinFacts<C>(k: Conn<C>)
    requires ReaderOk(k) && k.point.AtJob?
    ensures ReaderOk(Rejoin(k))
  {
  }

  /** The running coroutine submits a job. */
  predicate SubmitsHere<C>(s: State<C>, step: Step, c: nat) {
    step.Advance? && s.loop.Running? && s.loop.conn == c && c in s.conns &&
    s.conns[c].point.HasBytes? && s.conns[c].point.size > 0
  }

  /** What a step does to the jobs of a connection: how many it has submitted, and whether it waits for one. */
  ghost predicate JobsChange<C>(s: State<C>, step: Step, c: nat, k: Conn<C>, k': Conn<C>) {
    && k'.submitted == k.submitted + One(SubmitsHere(s, step, c))
    && (k.point.AtJob? && !Resumes(s, step, Job(c, k.submitted)) && !Runs(s, step, c) ==> k'.point == k.point)
    && (k.point.AtJob? && Resumes(s, step, Job(c, k.submitted)) ==> !k'.point.AtJob?)
    && (k.point.AtJob? && Runs(s, step, c) ==> k'.point.AtJob?)
    && (!k.point.AtJob? ==> (k'.point.AtJob? <==> s.workers != [] && SubmitsHere(s, step, c)))
    && (!k.point.AtJob? && k'.point.AtJob? ==> !k'.point.ran)
  }

  lemma OwnedReader<C>(s: State<C>, c: nat)
    requires ConnsOk(s) && c in s.conns
    ensures ReaderOk(s.conns[c])
  {
  }

  lemma WorkerJobs<C>(p: Program<C>, s: State<C>, step: Step, c: nat)
    requires Owned(s) && Enabled(s, step) && ByWorker(step)
    ensures c in Next(p, s, step).conns <==> c in s.conns
    ensures c in s.conns ==> JobsChange(s, step, c, s.conns[c], Next(p, s, step).conns[c])
  {
    hide Next, Execute, HandlesOk, ReaderOk, ProgressOk, Enabled, HandsOver, Runs, ConnsOk;
    WorkerFrame(p, s, step);
    if c in s.conns && Runs(s, step, c) {
      OwnedReader(s, c);
      ExecuteFacts(p, s.conns[c]);
    }
  }

  lemma JobsUnchanged<C>(s: State<C>, step: Step, c: nat, k: Conn<C>)
    requires !step.Advance? && !step.Pop? && !step.Work?
    ensures JobsChange(s, step, c, k, k)
  {
  }

  lemma DeliverJobs<C>(s: State<C>, step: Step, c: nat, d: Delivery, rooms: Outbound.Rooms)
    requires ConnsOk(s) && Enabled(s, step) && step == OnRead(c, d, rooms)
    ensures JobsChange(s, step, c, s.conns[c], Deliver(s.conns[c], d, rooms))
  {
    hide Ended, Deliver, ReaderOk;
    OwnedReader(s, c);
    DeliverFacts(s.conns[c], d, rooms);
  }

  lemma WriteJobs<C>(s: State<C>, step: Step, c: nat, ok: bool)
    requires Enabled(s, step) && step == OnWrite(c, ok)
    ensures JobsChange(s, step, c, s.conns[c], WriteDone(s.conns[c], ok))
  {
  }

  /** What a callback does to the connections. */
  lemma CallbackShape<C>(p: Program<C>, s: State<C>, step: Step)
    requires Enabled(s, step) && (IsExternal(step) || step.OnAsync? || step.Test?)
    ensures Next(p, s, step).conns ==
            match step
            case Accept(c) => s.conns[c := NewConn(p)]
            case OnRead(c, d, rooms) => s.conns[c := Deliver(s.conns[c], d, rooms)]
            case OnWrite(c, ok) => s.conns[c := WriteDone(s.conns[c], ok)]
            case _ => s.conns
  {
    hide Ended, Deliver, NewConn, WriteDone, WorkerNext;
  }

  lemma CallbackJobs<C>(p: Program<C>, s: State<C>, step: Step, c: nat)
    requires Owned(s) && Enabled(s, step) && (IsExternal(step) || step.OnAsync? || step.Test?)
    ensures c in Next(p, s, step).conns <==> c in s.conns || step == Accept(c)
    ensures step == Accept(c) ==>
              c !in s.conns && Next(p, s, step).conns[c].submitted == 0 && !Next(p, s, step).conns[c].point.AtJob?
    ensures c in s.conns ==> JobsChange(s, step, c, s.conns[c], Next(p, s, step).conns[c])
  {
    hide Next, Ended, Deliver, NewConn, WriteDone, HandlesOk, ConnsOk, ProgressOk, JobsChange;
    CallbackShape(p, s, step);
    if c in s.conns {
      JobsUnchanged(s, step, c, s.conns[c]);
    }
    match step
    case Accept(_) => NewConnFacts(p);
    case OnRead(c, d, rooms) => DeliverJobs(s, step, c, d, rooms);
    case OnWrite(c, ok) => WriteJobs(s, step, c, ok);
    case _ =>
  }

  lemma AdvanceJobs<C>(p: Program<C>, s: State<C>, step: Step, c: nat)
    requires Owned(s) && Enabled(s, step) && step.Advance?
    ensures c in Next(p, s, step).conns <==> c in s.conns
    ensures c in s.conns ==> JobsChange(s, step, c, s.conns[c], Next(p, s, step).conns[c])
  {
    hide Ended, MoveOf, HandlesOk, ReaderOk, WorkerNext, ProgressOk;
    OwnedReader(s, s.loop.conn);
    MoveFacts(p, s.conns[s.loop.conn], step.ok, s.workers != []);
    MoveJob(p, s.conns[s.loop.conn], step.ok, s.workers != []);
  }

  lemma PopJobs<C>(p: Program<C>, s: State<C>, step: Step, c: nat)
    requires Owned(s) && Enabled(s, step) && step.Pop?
    ensures c in Next(p, s, step).conns <==> c in s.conns
    ensures c in s.conns ==> JobsChange(s, step, c, s.conns[c], Next(p, s, step).conns[c])
  {
    hide Ended, HandlesOk, ReaderOk, WorkerNext, HandsOver, ConnsOk;
    if s.joiners != [] {
      assert Progress(s, s.joiners[0], true);
    }
  }

  lemma JobsStep<C>(p: Program<C>, s: State<C>, step: Step, c: nat)
    requires Owned(s) && Enabled(s, step)
    ensures c in Next(p, s, step).conns <==> c in s.conns || step == Accept(c)
    ensures step == Accept(c) ==>
              c !in s.conns && Next(p, s, step).conns[c].submitted == 0 && !Next(p, s, step).conns[c].point.AtJob?
    ensures c in s.conns ==> JobsChange(s, step, c, s.conns[c], Next(p, s, step).conns[c])
  {
    hide Next, Owned, Enabled, JobsChange;
    if ByWorker(step) {
      WorkerJobs(p, s, step, c);
    } else if step.Advance? {
      AdvanceJobs(p, s, step, c);
    } else if step.Pop? {
      PopJobs(p, s, step, c);
    } else {
      CallbackJobs(p, s, step, c);
    }
  }

  /** A job is outstanding after a step exactly when it was and is not resumed, or is submitted now. */
  lemma OutstandingStep<C>(p: Program<C>, s: State<C>, step: Step, j: Job)
    requires Owned(s) && Enabled(s, step)
    ensures One(Outstanding(Next(p, s, step), j)) + One(Resumes(s, step, j)) ==
            One(Outstanding(s, j)) + One(s.workers != [] && Submits(s, step, j))
  {
    hide Ended, Next, HandlesOk, ConnsOk, Runs, HandsOver;
    JobsStep(p, s, step, j.conn);
    if Resumes(s, step, j) {
      assert Progress(s, s.joiners[0], true);
    }
  }

  lemma HandlesStep<C>(p: Program<C>, s: State<C>, step: Step)
    requires Owned(s) && Enabled(s, step)
    ensures HandlesOk(Next(p, s, step))
  {
    hide Ended, Next, Places, Outstanding;
    forall j
      ensures Places(Next(p, s, step), j) == One(Outstanding(Next(p, s, step), j))
    {
      HandlesConserved(p, s, step, j);
      OutstandingStep(p, s, step, j);
    }
  }

  lemma {:induction false} CountTwice(q: seq<Job>, a: nat, b: nat)
    requires a < b < |q| && q[a] == q[b]
    ensures Count(q, q[a]) >= 2
  {
    if b < |q| - 1 {
      CountTwice(q[..|q| - 1], a, b);
    } else {
      CountMember(q[..|q| - 1], a);
    }
  }

  lemma {:induction false} HeldTwice(ws: seq<Worker>, a: nat, b: nat, j: Job)
    requires a < b < |ws| && Holds(ws[a], j) && Holds(ws[b], j)
    ensures HeldCount(ws, j) >= 2
  {
    if b < |ws| - 1 {
      HeldTwice(ws[..|ws| - 1], a, b, j);
    } else {
      HeldMember(ws[..|ws| - 1], a, j);
    }
  }

  /** The job a worker holds is in no queue and with no other worker. */
  lemma HeldAlone<C>(s: State<C>, w: nat)
    requires HandlesOk(s) && w < |s.workers| && (s.workers[w].Holding? || s.workers[w].Finished?)
    ensures var j := s.workers[w].job;
            && j !in s.shifters && j !in s.joiners
            && (forall v :: 0 <= v < |s.workers| && v != w ==> !Holds(s.workers[v], j))
  {
    hide Ended, Count, HeldCount;
    var j := s.workers[w].job;
    HeldMember(s.workers, w, j);
    assert Places(s, j) <= 1;
    if j in s.shifters {
      var i :| 0 <= i < |s.shifters| && s.shifters[i] == j;
      CountMember(s.shifters, i);
    }
    if j in s.joiners {
      var i :| 0 <= i < |s.joiners| && s.joiners[i] == j;
      CountMember(s.joiners, i);
    }
    forall v | 0 <= v < |s.workers| && v != w
      ensures !Holds(s.workers[v], j)
    {
      if Holds(s.workers[v], j) {
        HeldTwice(s.workers, if v < w then v else w, if v < w then w else v, j);
      }
    }
  }

  /** The job at the front of the joiners is nowhere else. */
  lemma FrontAlone<C>(s: State<C>)
    requires HandlesOk(s) && s.joiners != []
    ensures var j := s.joiners[0];
            && j !in s.shifters && j !in s.joiners[1..]
            && (forall v :: 0 <= v < |s.workers| ==> !Holds(s.workers[v], j))
  {
    hide Ended, Count, HeldCount;
    var j := s.joiners[0];
    CountMember(s.joiners, 0);
    assert Places(s, j) <= 1;
    if j in s.shifters {
      var i :| 0 <= i < |s.shifters| && s.shifters[i] == j;
      CountMember(s.shifters, i);
    }
    if j in s.joiners[1..] {
      var i :| 0 <= i < |s.joiners[1..]| && s.joiners[1..][i] == j;
      CountTwice(s.joiners, 0, i + 1);
    }
    forall v | 0 <= v < |s.workers|
      ensures !Holds(s.workers[v], j)
    {
      if Holds(s.workers[v], j) {
        HeldMember(s.workers, v, j);
      }
    }
  }

  /** A step leaves the promise of every outstanding job as ready to hand over as it was. */
  lemma PromiseKept<C>(p: Program<C>, s: State<C>, step: Step, j: Job)
    requires Owned(s) && Enabled(s, step) && Outstanding(s, j) && HandsOver(s, j)
    ensures HandsOver(Next(p, s, step), j)
  {
    hide Ended, MoveOf, Deliver, NewConn, HandlesOk, ReaderOk, WorkerNext, ProgressOk;
    if ByWorker(step) {
      WorkerFrame(p, s, step);
    } else if step.Advance? {
      assert j.conn != s.loop.conn;
    }
  }

  /** A step leaves alone the progress of every job it does not run or resume. */
  lemma ProgressFrame<C>(p: Program<C>, s: State<C>, step: Step, j: Job, ran: bool)
    requires Owned(s) && Enabled(s, step) && Progress(s, j, ran)
    requires !Resumes(s, step, j) && !(step.Work? && s.workers[step.w].job == j)
    ensures Progress(Next(p, s, step), j, ran)
  {
    hide Ended, Next, HandlesOk, ConnsOk, HandsOver;
    JobsStep(p, s, step, j.conn);
    PromiseKept(p, s, step, j);
    if step.Work? {
      assert WorkerOk(s, s.workers[step.w]);
    }
  }

  lemma ProgressLoop<C>(p: Program<C>, s: State<C>, step: Step)
    requires Owned(s) && Enabled(s, step) && !ByWorker(step)
    ensures ProgressOk(Next(p, s, step))
  {
    hide Ended, Next, Places, Outstanding;
    var s' := Next(p, s, step);
    LoopQueues(p, s, step);
    if step.Pop? && s.joiners != [] {
      FrontAlone(s);
      assert forall i :: 0 <= i < |s'.joiners| ==>
               s'.joiners[i] == s.joiners[1..][i] && s'.joiners[i] == s.joiners[i + 1];
    }
    forall i | 0 <= i < |s'.shifters|
      ensures Progress(s', s'.shifters[i], false)
    {
      if i < |s.shifters| {
        ProgressFrame(p, s, step, s.shifters[i], false);
      } else {
        NewJobProgress(p, s, step);
      }
    }
    forall i | 0 <= i < |s'.joiners|
      ensures Progress(s', s'.joiners[i], true)
    {
      ProgressFrame(p, s, step, s'.joiners[i], true);
    }
    forall w | 0 <= w < |s'.workers|
      ensures WorkerOk(s', s'.workers[w])
    {
      assert WorkerOk(s, s.workers[w]);
      if s.workers[w].Holding? || s.workers[w].Finished? {
        ProgressFrame(p, s, step, s.workers[w].job, s.workers[w].Finished?);
      }
    }
  }

  /** What the loop thread does to the queues. */
  lemma LoopQueues<C>(p: Program<C>, s: State<C>, step: Step)
    requires Owned(s) && Enabled(s, step) && !ByWorker(step)
    ensures var s' := Next(p, s, step);
            && s'.workers == s.workers
            && (step.Pop? && s.joiners != [] ==> s'.joiners == s.joiners[1..] && Resumes(s, step, s.joiners[0]))
            && (!(step.Pop? && s.joiners != []) ==> s'.joiners == s.joiners)
            && (step.Pop? ==> s'.shifters == s.shifters)
            && (s'.shifters == s.shifters ||
                (step.Advance? && s'.shifters == s.shifters + [Job(s.loop.conn, s.conns[s.loop.conn].submitted + 1)] &&
                 Submits(s, step, Job(s.loop.conn, s.conns[s.loop.conn].submitted + 1)) && s.workers != []))
  {
    hide Ended, MoveOf, Deliver, Execute, NewConn, Places, ReaderOk;
    if step.Pop? && s.joiners != [] {
      assert Progress(s, s.joiners[0], true);
    }
    if step.Advance? {
      MoveJob(p, s.conns[s.loop.conn], step.ok, s.workers != []);
    }
  }

  lemma NewJobProgress<C>(p: Program<C>, s: State<C>, step: Step)
    requires Owned(s) && Enabled(s, step) && step.Advance? && s.workers != []
    requires Submits(s, step, Job(s.loop.conn, s.conns[s.loop.conn].submitted + 1))
    ensures Progress(Next(p, s, step), Job(s.loop.conn, s.conns[s.loop.conn].submitted + 1), false)
  {
    hide Ended, MoveOf, HandlesOk, ProgressOk, ConnsOk, Runs, Return;
    JobsStep(p, s, step, s.loop.conn);
    MoveJob(p, s.conns[s.loop.conn], step.ok, s.workers != []);
  }

  /** What a worker does to the queues and to itself. */
  lemma WorkerQueues<C>(p: Program<C>, s: State<C>, step: Step)
    requires Owned(s) && Enabled(s, step) && ByWorker(step)
    ensures var s', ws := Next(p, s, step), s.workers;
            && step.w < |ws| == |s'.workers|
            && (forall i :: 0 <= i < |s'.shifters| ==> s'.shifters[i] in s.shifters)
            && (s'.joiners == s.joiners || (ws[step.w].Finished? && s'.joiners == s.joiners + [ws[step.w].job]))
            && (forall v :: 0 <= v < |ws| && v != step.w ==> s'.workers[v] == ws[v])
            && (match s'.workers[step.w]
                case Holding(j) => !step.Work? && j in s.shifters
                case Finished(j, _) =>
                  if step.Work? then ws[step.w] == Holding(j) else ws[step.w].Finished? && ws[step.w].job == j
                case Hosting(_) => false
                case _ => !step.Work?)
  {
    hide Ended, HandlesOk, ConnsOk, Execute, Throws, ApplyMove, Conclude, Progress;
    match step
    case Complete(w) => CompleteShape(p, s, w);
    case Stray(w, ok) => NoStray(s, w, ok);
    case _ =>
  }

  lemma ProgressWorker<C>(p: Program<C>, s: State<C>, step: Step)
    requires Owned(s) && Enabled(s, step) && ByWorker(step)
    ensures ProgressOk(Next(p, s, step))
  {
    hide Next, Enabled, HandlesOk, ConnsOk, Progress, Places;
    var s' := Next(p, s, step);
    WorkerQueues(p, s, step);
    if step.Work? {
      HeldAlone(s, step.w);
      WorkedJob(p, s, step);
    }
    forall i | 0 <= i < |s'.shifters|
      ensures Progress(s', s'.shifters[i], false)
    {
      ProgressFrame(p, s, step, s'.shifters[i], false);
    }
    assert WorkerOk(s, s.workers[step.w]);
    forall i | 0 <= i < |s'.joiners|
      ensures Progress(s', s'.joiners[i], true)
    {
      ProgressFrame(p, s, step, s'.joiners[i], true);
    }
    forall w | 0 <= w < |s'.workers|
      ensures WorkerOk(s', s'.workers[w])
    {
      assert WorkerOk(s, s.workers[w]);
      if !(step.Work? && w == step.w) && (s'.workers[w].Holding? || s'.workers[w].Finished?) {
        ProgressFrame(p, s, step, s'.workers[w].job, s'.workers[w].Finished?);
      }
    }
  }

  lemma WorkedJob<C>(p: Program<C>, s: State<C>, step: Step)
    requires Owned(s) && Enabled(s, step) && step.Work?
    ensures Progress(Next(p, s, step), s.workers[step.w].job, true)
  {
    hide Ended, Places, ReaderOk;
    var j := s.workers[step.w].job;
    assert WorkerOk(s, s.workers[step.w]);
    hide Ended, Execute, Throws;
    ExecuteFacts(p, s.conns[j.conn]);
  }

  lemma OwnedStep<C>(p: Program<C>, s: State<C>, step: Step)
    requires Owned(s) && Enabled(s, step)
    ensures Owned(Next(p, s, step))
  {
    hide Ended, Next, HandlesOk, ConnsOk, ProgressOk;
    HandlesStep(p, s, step);
    ConnsStep(p, s, step);
    if ByWorker(step) {
      ProgressWorker(p, s, step);
    } else {
      ProgressLoop(p, s, step);
    }
  }

  lemma OwnedInit<C>(n: nat)
    ensures Owned(Init<C>(n))
  {
    var s := Init<C>(n);
    forall j
      ensures Places(s, j) == One(Outstanding(s, j))
    {
      HeldNone(s.workers, j);
    }
  }

  lemma {:induction false} OwnedAlways<C>(p: Program<C>, n: nat, steps: seq<Step>)
    requires Exec(p, n, steps).Some?
    ensures Owned(Exec(p, n, steps).value)
  {
    hide Next, Owned, Enabled;
    if steps == [] {
      OwnedInit<C>(n);
    } else {
      OwnedAlways(p, n, steps[..|steps| - 1]);
      OwnedStep(p, Exec(p, n, steps[..|steps| - 1]).value, steps[|steps| - 1]);
    }
  }

  lemma ReachableOwned<C>(p: Program<C>, n: nat, s: State<C>)
    requires Reachable(p, n, s)
    ensures Owned(s)
  {
    var steps :| Exec(p, n, steps) == Some(s);
    OwnedAlways(p, n, steps);
  }

  // ----- What it means

  predicate LoopRuns<C>(s: State<C>, c: nat) {
    s.loop.Running? && s.loop.conn == c
  }

  /** In every reachable state a connection is in exactly one place, and only its latest job is under way. */
  lemma SingleOwner<C>(p: Program<C>, n: nat, s: State<C>, c: nat)
    requires Reachable(p, n, s) && c in s.conns
    ensures var k := s.conns[c];
            && One(k.point.AtReader?) + One(k.point.AtFlush?) + One(k.point.Closed?) + One(LoopRuns(s, c)) +
               Places(s, Job(c, k.submitted)) == 1
            && (forall serial :: serial != k.submitted ==> Places(s, Job(c, serial)) == 0)
  {
    hide Ended, Places, Reachable;
    ReachableOwned(p, n, s);
    assert Places(s, Job(c, s.conns[c].submitted)) == One(Outstanding(s, Job(c, s.conns[c].submitted)));
  }

  /** A worker touches connection `c`: it is about to run its job, or running it, or has resumed it in place. */
  predicate WorkerRuns<C>(s: State<C>, w: nat, c: nat) {
    w < |s.workers| && ((s.workers[w].Holding? && s.workers[w].job.conn == c) || s.workers[w] == Hosting(c))
  }

  /**
   * In every reachable state, the end of a job, thrown from or not, gives the connection to the completion
   * hook: the connection is neither lost nor resumed on the worker's own thread, now or after any step.
   */
  lemma OnlyHandsOver<C>(p: Program<C>, n: nat, s: State<C>, w: nat)
    requires Reachable(p, n, s) && w < |s.workers|
    ensures s.workers[w].Finished? ==>
              var j := s.workers[w].job;
              && j in s.tasks && FinalSuspend(s.tasks[j]) == HandOver(j)
              && Conclude(s, w, j).joiners == s.joiners + [j] && Conclude(s, w, j).conns == s.conns
    ensures !s.workers[w].Hosting?
  {
    hide Ended, Reachable, HandlesOk, ConnsOk;
    ReachableOwned(p, n, s);
    assert WorkerOk(s, s.workers[w]);
  }

  /** No two threads ever touch the same connection, and no worker ever runs its coroutine. */
  lemma NoSharing<C>(p: Program<C>, n: nat, s: State<C>, c: nat)
    requires Reachable(p, n, s)
    ensures forall w :: WorkerRuns(s, w, c) ==> !LoopRuns(s, c) && c in s.conns && s.conns[c].point.AtJob?
    ensures forall v, w :: WorkerRuns(s, v, c) && WorkerRuns(s, w, c) ==> v == w
  {
    hide Ended, Places, Reachable;
    ReachableOwned(p, n, s);
    forall w: nat | WorkerRuns(s, w, c)
      ensures !LoopRuns(s, c) && c in s.conns && s.conns[c].point.AtJob?
    {
      assert WorkerOk(s, s.workers[w]);
    }
    forall v: nat, w: nat | WorkerRuns(s, v, c) && WorkerRuns(s, w, c)
      ensures v == w
    {
      assert WorkerOk(s, s.workers[v]) && WorkerOk(s, s.workers[w]);
      assert s.workers[v].job == s.workers[w].job;
      HeldAlone(s, w);
    }
  }

  /** Job `j` has been submitted. */
  predicate WasSubmitted<C>(s: State<C>, j: Job) {
    j.conn in s.conns && 1 <= j.serial <= s.conns[j.conn].submitted
  }

  lemma SubmittedStep<C>(p: Program<C>, s: State<C>, step: Step, j: Job)
    requires Owned(s) && Enabled(s, step)
    ensures One(WasSubmitted(Next(p, s, step), j)) == One(WasSubmitted(s, j)) + One(Submits(s, step, j))
  {
    hide Ended, Next, HandlesOk, ConnsOk, ProgressOk, Runs;
    JobsStep(p, s, step, j.conn);
  }

  lemma {:induction false} LogsAlways<C>(p: Program<C>, n: nat, steps: seq<Step>, j: Job)
    requires Exec(p, n, steps).Some?
    ensures var s := Exec(p, n, steps).value;
            && Count(s.submitLog, j) == One(WasSubmitted(s, j))
            && Count(s.submitLog, j) == Count(s.resumeLog, j) + Places(s, j)
  {
    hide Next, Enabled, Places, WasSubmitted, Submits, Count;
    if steps == [] {
      LogsInit<C>(n, j);
    } else {
      var before, step := Exec(p, n, steps[..|steps| - 1]).value, steps[|steps| - 1];
      LogsAlways(p, n, steps[..|steps| - 1], j);
      OwnedAlways(p, n, steps[..|steps| - 1]);
      LogsFollow(p, before, step, j);
      HandlesConserved(p, before, step, j);
      SubmittedStep(p, before, step, j);
    }
  }

  lemma LogsInit<C>(n: nat, j: Job)
    ensures var s := Init<C>(n);
            Count(s.submitLog, j) == Count(s.resumeLog, j) == Places(s, j) == 0 && !WasSubmitted(s, j)
  {
    HeldNone(Init<C>(n).workers, j);
  }

  /**
   * Each submitted job, thrown from or not, resumes its connection exactly once: its resumptions so far
   * plus the places its handle is in make one, and nothing else is ever resumed.
   */
  lemma ResumedExactlyOnce<C>(p: Program<C>, n: nat, s: State<C>, j: Job)
    requires Reachable(p, n, s)
    ensures Count(s.resumeLog, j) + Places(s, j) == One(WasSubmitted(s, j))
    ensures Places(s, j) == 1 <==> Outstanding(s, j)
  {
    hide Ended, Exec, Places, Outstanding, WasSubmitted;
    ReachableOwned(p, n, s);
    var steps :| Exec(p, n, steps) == Some(s);
    LogsAlways(p, n, steps, j);
    assert Places(s, j) == One(Outstanding(s, j));
  }
}
