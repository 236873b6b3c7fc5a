/** The worker pool refines the server without workers: threads change nothing a connection can see. */
module Refinement {
  import opened Base
  import opened Pool
  import opened Ownership
  import opened Liveness
  import Outbound

  // ----- A connection on its own

  function SettleTop<C>(k: Conn<C>): Conn<C> {
    if Alive(k.reader) then k else Shut(k)
  }

  function SettleJob<C>(k: Conn<C>): Conn<C> {
    if k.fatal then k else if k.buffer == [] then SettleTop(k.(point := Top)) else BeginWrite(k)
  }

  function SettleBytes<C>(p: Program<C>, k: Conn<C>): Conn<C>
    requires k.point.HasBytes?
  {
    if k.point.size == 0 then SettleTop(k.(point := Top)) else SettleJob(Rejoin(Execute(p, Submit(k))))
  }

  /** The connection run on, job included, on one thread and without interruption, until it needs the environment. */
  function Settle<C>(p: Program<C>, k: Conn<C>): Conn<C> {
    if k.fatal then SettleFatal(k) else SettleAlive(p, k)
  }

  /** Once a job has ended the process nothing more happens. */
  function SettleFatal<C>(k: Conn<C>): Conn<C> {
    if k.point.AtJob? && k.point.ran then Rejoin(k) else k
  }

  function SettleAlive<C>(p: Program<C>, k: Conn<C>): Conn<C> {
    match k.point
    case Top => SettleTop(k)
    case AfterJob => SettleJob(k)
    case HasBytes(_) => SettleBytes(p, k)
    case AtJob(_, ran) => SettleJob(Rejoin(if ran then k else Execute(p, k)))
    case Resumed =>
      var k1 := TakeBytes(k);
      if k1.point.HasBytes? then SettleBytes(p, k1) else if k1.point.Top? then SettleTop(k1) else k1
    case AfterWrite(_) => SettleTop(FinishWrite(k))
    case _ => k
  }

  /** What the environment's decision does to a connection that waits for it. */
  function Respond<C>(k: Conn<C>, i: Input): Conn<C> {
    match i
    case StartRead(ok) => if k.point.Top? && Alive(k.reader) then BeginRead(k, ok) else k
    case Delivered(d, rooms) => if k.point.AtReader? then Deliver(k, d, rooms) else k
    case Wrote(ok) => if k.point.AtFlush? then WriteDone(k, ok) else k
  }

  /** `server::conn` as a sequential program: a function of the environment's decisions alone. */
  function Inline<C>(p: Program<C>, inputs: seq<Input>): Conn<C> {
    if inputs == [] then Settle(p, NewConn(p))
    else Settle(p, Respond(Inline(p, inputs[..|inputs| - 1]), inputs[|inputs| - 1]))
  }

  /** The connection has only done what the sequential program would do. */
  ghost predicate Refines<C>(p: Program<C>, k: Conn<C>) {
    Settle(p, k) == Inline(p, k.inputs)
  }

  lemma AnswerRefines<C>(p: Program<C>, k: Conn<C>, i: Input)
    requires Refines(p, k) && Settle(p, k) == k
    requires Respond(k, i).inputs == k.inputs + [i]
    ensures Refines(p, Respond(k, i))
  {
    hide Settle, Respond;
    assert (k.inputs + [i])[..|k.inputs|] == k.inputs;
  }

  lemma SilentRefines<C>(p: Program<C>, k: Conn<C>, k': Conn<C>)
    requires Refines(p, k) && Settle(p, k') == Settle(p, k) && k'.inputs == k.inputs
    ensures Refines(p, k')
  {
  }

  /** The decision the running coroutine asks for, if it asks for one. */
  function Asks<C>(k: Conn<C>, ok: bool): Option<Input> {
    if k.point.Top? && Alive(k.reader) then Some(StartRead(ok))
    else None
  }

  lemma MoveSettles<C>(p: Program<C>, k: Conn<C>, ok: bool, threads: bool)
    requires OnLoop(k.point) && !k.fatal
    ensures var k' := MoveOf(p, k, ok, threads).conn;
            match Asks(k, ok)
            case Some(i) => Settle(p, k) == k && k' == Respond(k, i) && k'.inputs == k.inputs + [i]
            case None => Settle(p, k') == Settle(p, k) && k'.inputs == k.inputs
  {
  }

  lemma MoveRefines<C>(p: Program<C>, k: Conn<C>, ok: bool, threads: bool)
    requires OnLoop(k.point) && !k.fatal && Refines(p, k)
    ensures Refines(p, MoveOf(p, k, ok, threads).conn)
  {
    hide Settle, MoveOf, Refines;
    MoveSettles(p, k, ok, threads);
    match Asks(k, ok)
    case Some(i) => AnswerRefines(p, k, i);
    case None => SilentRefines(p, k, MoveOf(p, k, ok, threads).conn);
  }

  lemma ExecuteSettles<C>(p: Program<C>, k: Conn<C>)
    requires k.point.AtJob? && !k.point.ran && !k.fatal
    ensures Settle(p, Execute(p, k)) == Settle(p, k) && Execute(p, k).inputs == k.inputs
  {
  }

  lemma RejoinSettles<C>(p: Program<C>, k: Conn<C>)
    requires k.point.AtJob? && k.point.ran
    ensures Settle(p, Rejoin(k)) == Settle(p, k) && Rejoin(k).inputs == k.inputs
  {
  }

  /** What a step of the system is to one connection. */
  ghost predicate LocalStep<C>(p: Program<C>, s: State<C>, step: Step, c: nat, k': Conn<C>) {
    if c !in s.conns then k' == NewConn(p)
    else
      var k := s.conns[c];
      || k' == k
      || (!k.fatal && LocalMove(p, s, step, k, k'))
  }

  ghost predicate LocalMove<C>(p: Program<C>, s: State<C>, step: Step, k: Conn<C>, k': Conn<C>) {
    || (step.OnRead? && k.point.AtReader? && k' == Deliver(k, step.d, step.rooms) &&
        (step.d.Bytes? ==> |step.d.data| <= CAPACITY))
    || (step.OnWrite? && k.point.AtFlush? && k' == WriteDone(k, step.ok))
    || (step.Pop? && k.point.AtJob? && k.point.ran && k' == Rejoin(k))
    || (step.Advance? && OnLoop(k.point) && k' == MoveOf(p, k, step.ok, s.workers != []).conn)
    || (step.Work? && k.point.AtJob? && !k.point.ran && k' == Execute(p, k))
  }

  lemma WorkerIsLocal<C>(p: Program<C>, s: State<C>, step: Step, c: nat)
    requires Owned(s) && Enabled(s, step) && ByWorker(step) && c in Next(p, s, step).conns
    ensures c in s.conns && LocalStep(p, s, step, c, Next(p, s, step).conns[c])
  {
    hide Next, Execute, HandlesOk, ConnsOk, ProgressOk, HandsOver, Possible;
    WorkerFrame(p, s, step);
  }

  /** Each step does to each connection one thing its coroutine, its job or its callbacks would do. */
  lemma StepIsLocal<C>(p: Program<C>, s: State<C>, step: Step, c: nat)
    requires Owned(s) && Enabled(s, step)
    requires c in Next(p, s, step).conns
    ensures LocalStep(p, s, step, c, Next(p, s, step).conns[c])
  {
    hide MoveOf, Deliver, NewConn, HandlesOk, ReaderOk, Rejoin, WriteDone, WorkerNext, HandsOver;
    match step
    case OnRead(d, delivery, rooms) => DeliverFacts(s.conns[d], delivery, rooms);
    case Pop => if s.joiners != [] { assert Progress(s, s.joiners[0], true); }
    case _ => if ByWorker(step) { WorkerIsLocal(p, s, step, c); }
  }

  lemma LocalRefines<C>(p: Program<C>, s: State<C>, step: Step, c: nat, k': Conn<C>)
    requires LocalStep(p, s, step, c, k')
    requires c in s.conns ==> Refines(p, s.conns[c])
    ensures Refines(p, k')
  {
    hide Settle, MoveOf, Execute, Rejoin, Deliver;
    if c in s.conns {
      var k := s.conns[c];
      if k' != k {
        match step
        case OnRead(_, d, rooms) =>
          WaitingSettled(p, k);
          assert Deliver(k, d, rooms).inputs == k.inputs + [Delivered(d, rooms)] by { DeliverInputs(k, d, rooms); }
          AnswerRefines(p, k, Delivered(d, rooms));
        case OnWrite(_, ok) =>
          WaitingSettled(p, k);
          AnswerRefines(p, k, Wrote(ok));
        case Pop => RejoinSettles(p, k);
        case Advance(ok) => MoveRefines(p, k, ok, s.workers != []);
        case Work(_) => ExecuteSettles(p, k);
        case _ =>
      }
    } else {
      NewConnInputs(p);
    }
  }

  lemma WaitingSettled<C>(p: Program<C>, k: Conn<C>)
    requires k.point.AtReader? || k.point.AtFlush? || k.point.Closed?
    ensures Settle(p, k) == k
  {
  }

  lemma DeliverInputs<C>(k: Conn<C>, d: Delivery, rooms: Outbound.Rooms)
    ensures Deliver(k, d, rooms).inputs == k.inputs + [Delivered(d, rooms)]
  {
  }

  lemma NewConnInputs<C>(p: Program<C>)
    ensures NewConn(p).inputs == []
  {
  }

  lemma {:induction false} RefinesAlways<C>(p: Program<C>, n: nat, steps: seq<Step>, c: nat)
    requires Exec(p, n, steps).Some? && c in Exec(p, n, steps).value.conns
    ensures Refines(p, Exec(p, n, steps).value.conns[c])
  {
    hide Next, Enabled, Refines, LocalStep;
    if steps != [] {
      var before, step := Exec(p, n, steps[..|steps| - 1]).value, steps[|steps| - 1];
      OwnedAlways(p, n, steps[..|steps| - 1]);
      if c in before.conns {
        RefinesAlways(p, n, steps[..|steps| - 1], c);
      }
      StepIsLocal(p, before, step, c);
      LocalRefines(p, before, step, c, Next(p, before, step).conns[c]);
    }
  }

  /** Suspended on the environment, or over: not in a queue, on a worker or on the loop. */
  predicate Waiting<C>(k: Conn<C>) {
    k.point.AtReader? || k.point.AtFlush? || k.point.Closed?
  }

  /**
   * For any number of workers and any interleaving, a connection's whole state (chunks read, responses
   * produced, frames buffered and flushed, in order) is what the sequential program makes of the same
   * decisions of the environment, up to finishing the job it may have under way.
   */
  lemma PoolRefinesInline<C>(p: Program<C>, n: nat, s: State<C>, c: nat)
    requires Reachable(p, n, s) && c in s.conns
    ensures Settle(p, s.conns[c]) == Inline(p, s.conns[c].inputs)
    ensures Waiting(s.conns[c]) ==> s.conns[c] == Inline(p, s.conns[c].inputs)
  {
    hide Settle, Inline;
    var steps :| Exec(p, n, steps) == Some(s);
    RefinesAlways(p, n, steps, c);
    if Waiting(s.conns[c]) {
      WaitingSettled(p, s.conns[c]);
    }
  }

  // ----- The sequential program is the server with no workers

  /** The state of a server with no workers and one connection, number 0, that stands as `k` does. */
  ghost predicate Alone<C>(p: Program<C>, t: State<C>, k: Conn<C>) {
    && Reachable(p, 0, t)
    && t.conns == map[0 := k]
    && !k.point.AtJob?
    && t.loop == if OnLoop(k.point) then Running(0, false) else Polling
  }

  lemma NoWorkers<C>(p: Program<C>, t: State<C>)
    requires Reachable(p, 0, t)
    ensures Owned(t) && t.workers == []
  {
    var steps :| Exec(p, 0, steps) == Some(t);
    OwnedAlways(p, 0, steps);
    WakeAlways(p, 0, steps);
  }

  lemma AloneAdvances<C>(p: Program<C>, t: State<C>, k: Conn<C>, ok: bool)
    requires Alone(p, t, k) && OnLoop(k.point) && !k.fatal
    ensures Alone(p, Next(p, t, Advance(ok)), MoveOf(p, k, ok, false).conn)
  {
    hide MoveOf, Reachable, HandlesOk, ProgressOk, ReaderOk;
    NoWorkers(p, t);
    assert t.conns[0] == k;
    ReachStep(p, 0, t, Advance(ok));
    MoveFacts(p, k, ok, false);
    MoveJob(p, k, ok, false);
    assert map[0 := k][0 := MoveOf(p, k, ok, false).conn] == map[0 := MoveOf(p, k, ok, false).conn];
  }

  /** Left to itself, it runs until it needs the environment. */
  lemma {:induction false} AloneSettles<C>(p: Program<C>, t: State<C>, k: Conn<C>) returns (u: State<C>)
    requires Alone(p, t, k)
    ensures Alone(p, u, Settle(p, k))
    decreases PointWeight(k.point)
  {
    hide MoveOf, Next, Settle, Alone;
    if !OnLoop(k.point) {
      assert !k.point.AtJob? by { AloneHasNoJob(p, t, k); }
      WaitingSettled(p, k);
      return t;
    }
    if k.fatal {
      FatalSettled(p, k);
      return t;
    }
    MoveSettles(p, k, true, false);
    if Asks(k, true).Some? {
      return t;
    }
    assert Enabled(t, Advance(true)) by { AloneRuns(p, t, k); }
    AloneAdvances(p, t, k, true);
    MoveWeight(p, k, true, false);
    u := AloneSettles(p, Next(p, t, Advance(true)), MoveOf(p, k, true, false).conn);
  }

  lemma FatalSettled<C>(p: Program<C>, k: Conn<C>)
    requires OnLoop(k.point) && k.fatal
    ensures Settle(p, k) == k
  {
  }

  lemma AloneHasNoJob<C>(p: Program<C>, t: State<C>, k: Conn<C>)
    requires Alone(p, t, k)
    ensures !k.point.AtJob?
  {
  }

  lemma AloneRuns<C>(p: Program<C>, t: State<C>, k: Conn<C>)
    requires Alone(p, t, k) && OnLoop(k.point) && !k.fatal
    ensures Enabled(t, Advance(true)) && Enabled(t, Advance(false))
  {
  }

  lemma AloneDelivers<C>(p: Program<C>, t: State<C>, k: Conn<C>, d: Delivery, rooms: Outbound.Rooms)
    requires Alone(p, t, k) && k.point.AtReader? && k.reader.reading && ReaderOk(k) && !k.fatal
    requires d.Bytes? ==> |d.data| <= CAPACITY
    ensures Enabled(t, OnRead(0, d, rooms)) && Alone(p, Next(p, t, OnRead(0, d, rooms)), Deliver(k, d, rooms))
  {
    hide Reachable, Deliver;
    assert t.conns[0] == k;
    DeliverFacts(k, d, rooms);
    ReachStep(p, 0, t, OnRead(0, d, rooms));
    assert map[0 := k][0 := Deliver(k, d, rooms)] == map[0 := Deliver(k, d, rooms)];
  }

  lemma AloneWrites<C>(p: Program<C>, t: State<C>, k: Conn<C>, ok: bool)
    requires Alone(p, t, k) && k.point.AtFlush? && !k.fatal
    ensures Enabled(t, OnWrite(0, ok)) && Alone(p, Next(p, t, OnWrite(0, ok)), WriteDone(k, ok))
  {
    hide Reachable;
    assert t.conns[0] == k;
    ReachStep(p, 0, t, OnWrite(0, ok));
    assert map[0 := k][0 := WriteDone(k, ok)] == map[0 := WriteDone(k, ok)];
  }

  lemma AloneStarts<C>(p: Program<C>) returns (t: State<C>)
    ensures Alone(p, t, NewConn(p)) && Settle(p, NewConn(p)) == NewConn(p)
  {
    var s := Init<C>(0);
    ReachIntro(p, 0, []);
    assert Exec(p, 0, []) == Some(s);
    t := Next(p, s, Accept(0));
    ReachStep(p, 0, s, Accept(0));
    assert map[][0 := NewConn(p)] == map[0 := NewConn(p)];
  }

  /** One step of the pool, followed by the server without workers. */
  lemma TwinStep<C>(p: Program<C>, s: State<C>, step: Step, c: nat, k': Conn<C>, t: State<C>) returns (u: State<C>)
    requires c in s.conns && ReaderOk(s.conns[c]) && LocalStep(p, s, step, c, k')
    requires Alone(p, t, Settle(p, s.conns[c]))
    ensures Alone(p, u, Settle(p, k'))
  {
    hide Settle, MoveOf, Execute, Rejoin, Deliver, Alone, ReaderOk, Next, Enabled;
    var k := s.conns[c];
    if k' == k {
      return t;
    }
    match step
    case OnRead(_, d, rooms) =>
      WaitingSettled(p, k);
      assert k.reader.reading by { ReadingHere(k); }
      AloneDelivers(p, t, k, d, rooms);
      u := AloneSettles(p, Next(p, t, OnRead(0, d, rooms)), k');
    case OnWrite(_, ok) =>
      WaitingSettled(p, k);
      AloneWrites(p, t, k, ok);
      u := AloneSettles(p, Next(p, t, OnWrite(0, ok)), k');
    case Pop =>
      RejoinSettles(p, k);
      return t;
    case Work(_) =>
      ExecuteSettles(p, k);
      return t;
    case Advance(ok) =>
      MoveSettles(p, k, ok, s.workers != []);
      if Asks(k, ok).None? {
        return t;
      }
      MoveSettles(p, k, ok, false);
      assert Enabled(t, Advance(ok)) by { AloneRuns(p, t, k); }
      AloneAdvances(p, t, k, ok);
      u := AloneSettles(p, Next(p, t, Advance(ok)), k');
  }

  lemma ReadingHere<C>(k: Conn<C>)
    requires ReaderOk(k) && k.point.AtReader?
    ensures k.reader.reading
  {
  }

  /** For every run of the pool there is a run without workers in which the connection fares the same. */
  lemma {:induction false} InlineTwin<C>(p: Program<C>, n: nat, steps: seq<Step>, c: nat) returns (t: State<C>)
    requires Exec(p, n, steps).Some? && c in Exec(p, n, steps).value.conns
    ensures Alone(p, t, Settle(p, Exec(p, n, steps).value.conns[c]))
  {
    hide Next, Enabled, LocalStep, Settle, Alone, HandlesOk, ProgressOk, ReaderOk;
    var init := steps[..|steps| - 1];
    var before, step := Exec(p, n, init).value, steps[|steps| - 1];
    OwnedAlways(p, n, init);
    StepIsLocal(p, before, step, c);
    if c in before.conns {
      t := InlineTwin(p, n, init, c);
      t := TwinStep(p, before, step, c, Next(p, before, step).conns[c], t);
    } else {
      assert Next(p, before, step).conns[c] == NewConn(p) by { FirstSeen(p, before, step, c); }
      t := AloneStarts(p);
    }
  }

  lemma FirstSeen<C>(p: Program<C>, s: State<C>, step: Step, c: nat)
    requires Owned(s) && Enabled(s, step) && c !in s.conns && c in Next(p, s, step).conns
    ensures Next(p, s, step).conns[c] == NewConn(p)
  {
    hide Next, NewConn, Enabled;
    StepIsLocal(p, s, step, c);
  }

  /** Whatever state a pool run leaves a connection in, the server without workers can bring one there, its job done. */
  lemma InlineServerFollows<C>(p: Program<C>, n: nat, s: State<C>, c: nat) returns (t: State<C>)
    requires Reachable(p, n, s) && c in s.conns
    ensures Reachable(p, 0, t) && t.conns == map[0 := Settle(p, s.conns[c])]
  {
    hide Settle, Exec;
    var steps :| Exec(p, n, steps) == Some(s);
    t := InlineTwin(p, n, steps, c);
  }

  /** Under the same decisions of the environment, a connection fares alike with `n` workers and with none. */
  lemma PoolMatchesInlineServer<C>(p: Program<C>, n: nat, s: State<C>, c: nat, t: State<C>, d: nat)
    requires Reachable(p, n, s) && c in s.conns
    requires Reachable(p, 0, t) && d in t.conns && t.conns[d].inputs == s.conns[c].inputs
    ensures Settle(p, t.conns[d]) == Settle(p, s.conns[c])
    ensures Waiting(s.conns[c]) && Waiting(t.conns[d]) ==> t.conns[d] == s.conns[c]
  {
    hide Settle, Inline, Exec;
    PoolRefinesInline(p, n, s, c);
    PoolRefinesInline(p, 0, t, d);
  }
}
