/** Nothing handed back to the loop is forgotten, and with a worker every submitted job gets through. */
module Liveness {
  import opened Base
  import opened Pool
  import opened Ownership

  // ----- No lost wake-up

  /** The loop thread is inside `join`, possibly deep in a coroutine it resumed from there. */
  predicate InJoin(loop: Loop) {
    loop.Testing? || loop.Popping? || (loop.Running? && loop.inJoin)
  }

  predicate SomeoneSignals(ws: seq<Worker>) {
    exists w :: 0 <= w < |ws| && ws[w].Signalling?
  }

  /** Handles waiting in the joiners are announced, about to be announced, or being collected. */
  predicate WakeOk<C>(s: State<C>) {
    && (s.joiners != [] ==> s.pending || SomeoneSignals(s.workers) || InJoin(s.loop))
    && (s.loop.Popping? ==> s.joiners != [])
  }

  lemma WakeStep<C>(p: Program<C>, s: State<C>, step: Step)
    requires Owned(s) && WakeOk(s) && Enabled(s, step)
    ensures WakeOk(Next(p, s, step))
  {
    hide Ended, MoveOf, Deliver, NewConn, HandlesOk, ReaderOk, WorkerNext, HandsOver;
    var s' := Next(p, s, step);
    match step
    case OnRead(c, d, rooms) => DeliverFacts(s.conns[c], d, rooms);
    case Pop => assert Progress(s, s.joiners[0], true);
    case _ =>
      if ByWorker(step) {
        WorkerWakes(p, s, step);
      }
  }

  lemma WorkerWakes<C>(p: Program<C>, s: State<C>, step: Step)
    requires Owned(s) && WakeOk(s) && Enabled(s, step) && ByWorker(step)
    ensures WakeOk(Next(p, s, step))
  {
    hide Ended, Conclude, ApplyMove, Execute, Throws, HandlesOk, ConnsOk, Progress;
    var s' := Next(p, s, step);
    match step
    case Complete(w) =>
      CompleteShape(p, s, w);
      assert s'.workers[w].Signalling?;
    case Take(w) => SignalsKept(s, s', w);
    case Work(w) => SignalsKept(s, s', w);
    case Catch(w) => SignalsKept(s, s', w);
    case Stray(w, ok) => NoStray(s, w, ok);
    case _ =>
  }

  lemma SignalsKept<C>(s: State<C>, s': State<C>, w: nat)
    requires w < |s.workers| == |s'.workers| && !s.workers[w].Signalling?
    requires forall v :: 0 <= v < |s.workers| && v != w ==> s'.workers[v] == s.workers[v]
    ensures SomeoneSignals(s.workers) ==> SomeoneSignals(s'.workers)
  {
    if SomeoneSignals(s.workers) {
      var v :| 0 <= v < |s.workers| && s.workers[v].Signalling?;
      assert s'.workers[v].Signalling?;
    }
  }

  lemma {:induction false} WakeAlways<C>(p: Program<C>, n: nat, steps: seq<Step>)
    requires Exec(p, n, steps).Some?
    ensures WakeOk(Exec(p, n, steps).value) && |Exec(p, n, steps).value.workers| == n
  {
    hide WakeOk;
    if steps == [] {
      assert WakeOk(Init<C>(n)) by { WakeInit<C>(n); }
    } else {
      var before, step := Exec(p, n, steps[..|steps| - 1]).value, steps[|steps| - 1];
      WakeAlways(p, n, steps[..|steps| - 1]);
      OwnedAlways(p, n, steps[..|steps| - 1]);
      WakeStep(p, before, step);
      SameWorkers(p, before, step);
    }
  }

  lemma WakeInit<C>(n: nat)
    ensures WakeOk(Init<C>(n))
  {
  }

  lemma SameWorkers<C>(p: Program<C>, s: State<C>, step: Step)
    requires Enabled(s, step)
    ensures |Next(p, s, step).workers| == |s.workers|
  {
    hide Ended, MoveOf, Deliver, Execute, NewConn, Throws;
  }

  /**
   * In every reachable state, a handle in the joiners has an async signal pending, or a worker about to
   * send one, or the loop still inside `join`; and `join` never takes from an empty queue, although it
   * tests for emptiness outside the lock.
   */
  lemma NoLostWakeUp<C>(p: Program<C>, n: nat, s: State<C>)
    requires Reachable(p, n, s)
    ensures s.joiners != [] ==> s.pending || SomeoneSignals(s.workers) || InJoin(s.loop)
    ensures Enabled(s, Pop) ==> s.joiners != [] && s.joiners[0].conn in s.conns
  {
    var steps :| Exec(p, n, steps) == Some(s);
    WakeAlways(p, n, steps);
    ReachableOwned(p, n, s);
    if s.loop.Popping? {
      assert Progress(s, s.joiners[0], true);
    }
  }

  // ----- A measure of the work left

  function WorkerWeight(w: Worker): nat {
    match w
    case Idle => 0
    case Holding(_) => 12
    case Finished(_, threw) => if threw then 11 else 10
    case Signalling => 4
    case Hosting(_) => 0
  }

  function WorkersWeight(ws: seq<Worker>): nat {
    if ws == [] then 0 else WorkersWeight(ws[..|ws| - 1]) + WorkerWeight(ws[|ws| - 1])
  }

  function PointWeight(point: Point): nat {
    match point
    case Top => 1
    case AfterJob => 2
    case AfterWrite(_) => 2
    case HasBytes(_) => 14
    case Resumed => 15
    case _ => 0
  }

  function LoopWeight<C>(s: State<C>): nat {
    match s.loop
    case Polling => 0
    case Testing => 2
    case Popping => 1
    case Running(c, inJoin) => (if inJoin then 2 else 0) + (if c in s.conns then PointWeight(s.conns[c].point) else 0)
  }

  function Measure<C>(s: State<C>): nat {
    13 * |s.shifters| + WorkersWeight(s.workers) + 5 * |s.joiners| + 3 * One(s.pending) + LoopWeight(s)
  }

  lemma {:induction false} WeightUpdate(ws: seq<Worker>, i: nat, w: Worker)
    requires i < |ws|
    ensures WorkersWeight(ws[i := w]) + WorkerWeight(ws[i]) == WorkersWeight(ws) + WorkerWeight(w)
  {
    var last := |ws| - 1;
    if i == last {
      assert ws[i := w][..last] == ws[..last];
    } else {
      WeightUpdate(ws[..last], i, w);
      assert ws[i := w][..last] == ws[..last][i := w];
      assert ws[i := w][last] == ws[last];
    }
  }

  lemma MoveWeight<C>(p: Program<C>, k: Conn<C>, ok: bool, threads: bool)
    requires OnLoop(k.point)
    ensures var m := MoveOf(p, k, ok, threads);
            PointWeight(m.conn.point) + 13 * One(m.job.Queued?) < PointWeight(k.point)
  {
  }

  lemma WorkerStepCounts<C>(p: Program<C>, s: State<C>, step: Step)
    requires Owned(s) && Enabled(s, step) && ByWorker(step)
    ensures Measure(Next(p, s, step)) < Measure(s)
  {
    hide Ended, Execute, Throws, HandlesOk, WorkersWeight, LoopWeight, Conclude, ApplyMove, ConnsOk, Progress;
    LoopWeightKept(p, s, step);
    match step
    case Take(w) => WeightUpdate(s.workers, w, Holding(s.shifters[0]));
    case Work(w) => WeightUpdate(s.workers, w, Next(p, s, step).workers[w]);
    case Catch(w) => WeightUpdate(s.workers, w, Finished(s.workers[w].job, false));
    case Complete(w) =>
      CompleteShape(p, s, w);
      WeightUpdate(s.workers, w, Signalling);
    case Send(w) => WeightUpdate(s.workers, w, Idle);
    case Stray(w, ok) => NoStray(s, w, ok);
  }

  lemma LoopWeightKept<C>(p: Program<C>, s: State<C>, step: Step)
    requires Owned(s) && Enabled(s, step) && ByWorker(step)
    ensures LoopWeight(Next(p, s, step)) == LoopWeight(s)
  {
    hide Next, Execute, HandlesOk, ReaderOk, ProgressOk, HandsOver, Runs, Enabled;
    WorkerFrame(p, s, step);
  }

  lemma PopCounts<C>(p: Program<C>, s: State<C>)
    requires ProgressOk(s) && WakeOk(s) && Enabled(s, Pop)
    ensures Measure(Next(p, s, Pop)) < Measure(s)
  {
    hide Ended, WorkersWeight, HandsOver;
    assert Progress(s, s.joiners[0], true);
  }

  lemma AdvanceCounts<C>(p: Program<C>, s: State<C>, ok: bool)
    requires ConnsOk(s) && Enabled(s, Advance(ok))
    ensures Measure(Next(p, s, Advance(ok))) < Measure(s)
  {
    hide Ended, MoveOf, WorkersWeight, ReaderOk, PointWeight;
    var k := s.conns[s.loop.conn];
    OwnedReader(s, s.loop.conn);
    MoveWeight(p, k, ok, s.workers != []);
    MoveFacts(p, k, ok, s.workers != []);
  }

  lemma CallbackCounts<C>(p: Program<C>, s: State<C>, step: Step)
    requires Enabled(s, step) && (step.OnAsync? || step.Test?)
    ensures Measure(Next(p, s, step)) < Measure(s)
  {
    hide Ended, WorkersWeight, WorkerNext;
  }

  lemma LoopCounts<C>(p: Program<C>, s: State<C>, step: Step)
    requires Owned(s) && WakeOk(s) && Enabled(s, step) && (step.OnAsync? || step.Test? || step.Pop? || step.Advance?)
    ensures Measure(Next(p, s, step)) < Measure(s)
  {
    hide Next, Measure, ConnsOk, ProgressOk, HandlesOk, WakeOk, Enabled;
    match step
    case Pop => PopCounts(p, s);
    case Advance(ok) => AdvanceCounts(p, s, ok);
    case _ => CallbackCounts(p, s, step);
  }

  /** Every step of a server thread uses up some of the work left. */
  lemma EveryStepCounts<C>(p: Program<C>, s: State<C>, step: Step)
    requires Owned(s) && WakeOk(s) && Enabled(s, step) && !IsExternal(step)
    ensures Measure(Next(p, s, step)) < Measure(s)
  {
    hide Next, Measure, Owned, WakeOk, Enabled;
    if ByWorker(step) {
      WorkerStepCounts(p, s, step);
    } else {
      LoopCounts(p, s, step);
    }
  }

  // ----- Quiescence

  /** No server thread can take a step. */
  ghost predicate Stuck<C>(s: State<C>) {
    forall step :: Enabled(s, step) ==> IsExternal(step)
  }

  /** No work anywhere: both queues empty, all workers idle, no signal pending, the loop polling. */
  predicate AtRest<C>(s: State<C>) {
    && s.shifters == [] && s.joiners == [] && !s.pending && s.loop.Polling?
    && (forall w :: 0 <= w < |s.workers| ==> s.workers[w].Idle?)
  }

  lemma RestLeavesNoJob<C>(s: State<C>, c: nat)
    requires HandlesOk(s) && AtRest(s) && c in s.conns
    ensures !s.conns[c].point.AtJob?
  {
    hide Count, HeldCount;
    var j := Job(c, s.conns[c].submitted);
    HeldNone(s.workers, j);
    assert Places(s, j) == 0 by { CountNone(j); }
    assert Places(s, j) == One(Outstanding(s, j));
  }

  lemma StuckRests<C>(s: State<C>)
    requires ProgressOk(s) && WakeOk(s) && s.workers != [] && Stuck(s) && !Ended(s)
    ensures AtRest(s)
  {
    hide Progress, Ended;
    assert !Enabled(s, Test) && !Enabled(s, Pop) && !Enabled(s, Advance(true)) && !Enabled(s, OnAsync);
    forall w | 0 <= w < |s.workers|
      ensures s.workers[w].Idle?
    {
      assert !Enabled(s, Work(w)) && !Enabled(s, Catch(w)) && !Enabled(s, Complete(w)) && !Enabled(s, Send(w));
      assert WorkerOk(s, s.workers[w]);
    }
    assert !Enabled(s, Take(0));
  }

  /**
   * With a worker, the only states without a step are those after the end of the process and those with
   * nothing left to do and no connection waiting for a job.
   */
  lemma StuckMeansDone<C>(s: State<C>)
    requires Owned(s) && WakeOk(s) && s.workers != []
    ensures Stuck(s) <==> AtRest(s) || Ended(s)
    ensures AtRest(s) ==> forall c :: c in s.conns ==> !s.conns[c].point.AtJob?
  {
    hide HandlesOk, ConnsOk, ProgressOk, Ended;
    if AtRest(s) {
      forall c | c in s.conns
        ensures !s.conns[c].point.AtJob?
      {
        RestLeavesNoJob(s, c);
      }
    }
    if Stuck(s) && !Ended(s) {
      hide AtRest;
      StuckRests(s);
    }
  }

  lemma CountNone(j: Job)
    ensures Count([], j) == 0
  {
  }

  /** A run that continues from a given state. */
  function ExecFrom<C>(p: Program<C>, s: State<C>, steps: seq<Step>): Option<State<C>>
    decreases |steps|
  {
    if steps == [] then Some(s)
    else if Enabled(s, steps[0]) then ExecFrom(p, Next(p, s, steps[0]), steps[1..])
    else None
  }

  predicate Internal(steps: seq<Step>) {
    forall i :: 0 <= i < |steps| ==> !IsExternal(steps[i])
  }

  /** However the threads are scheduled, without new I/O they stop after a bounded number of steps. */
  lemma {:induction false} WorkIsBounded<C>(p: Program<C>, s: State<C>, steps: seq<Step>)
    requires Owned(s) && WakeOk(s) && Internal(steps) && ExecFrom(p, s, steps).Some?
    ensures var t := ExecFrom(p, s, steps).value; Owned(t) && WakeOk(t) && |steps| + Measure(t) <= Measure(s)
    decreases |steps|
  {
    hide Next, Enabled, Owned, WakeOk, Measure;
    if steps != [] {
      EveryStepCounts(p, s, steps[0]);
      OwnedStep(p, s, steps[0]);
      WakeStep(p, s, steps[0]);
      WorkIsBounded(p, Next(p, s, steps[0]), steps[1..]);
    }
  }

  /** From any such state some schedule of the server's own steps finishes the work, or ends the process. */
  lemma {:induction false} FinishSchedule<C>(p: Program<C>, s: State<C>) returns (steps: seq<Step>)
    requires Owned(s) && WakeOk(s) && s.workers != []
    ensures Internal(steps) && ExecFrom(p, s, steps).Some?
    ensures AtRest(ExecFrom(p, s, steps).value) || Ended(ExecFrom(p, s, steps).value)
    decreases Measure(s)
  {
    hide Next, Enabled, Owned, WakeOk, Measure, AtRest, Ended;
    StuckMeansDone(s);
    if Stuck(s) {
      return [];
    }
    var step :| Enabled(s, step) && !IsExternal(step);
    EveryStepCounts(p, s, step);
    OwnedStep(p, s, step);
    WakeStep(p, s, step);
    SameWorkers(p, s, step);
    var more := FinishSchedule(p, Next(p, s, step));
    steps := [step] + more;
    assert steps[1..] == more;
  }

  lemma {:induction false} ExecJoin<C>(p: Program<C>, n: nat, before: seq<Step>, s: State<C>, after: seq<Step>)
    requires Exec(p, n, before) == Some(s) && ExecFrom(p, s, after).Some?
    ensures Exec(p, n, before + after) == ExecFrom(p, s, after)
    decreases |after|
  {
    hide Next, Enabled;
    if after == [] {
      assert before + after == before;
    } else {
      var extended := before + [after[0]];
      assert extended[..|extended| - 1] == before;
      ExecJoin(p, n, extended, Next(p, s, after[0]), after[1..]);
      assert extended + after[1..] == before + after;
    }
  }

  /**
   * Quiescence: from every reachable state with at least one worker, every schedule of the server's own
   * steps ends within `Measure(s)` steps; it can only end with nothing left to do, unless a job ends the
   * process; and with nothing left to do every job submitted so far has resumed its connection, once.
   */
  lemma Quiescence<C>(p: Program<C>, n: nat, s: State<C>, steps: seq<Step>)
    requires n > 0 && Reachable(p, n, s)
    requires Internal(steps) && ExecFrom(p, s, steps).Some?
    ensures var t := ExecFrom(p, s, steps).value;
            && |steps| <= Measure(s)
            && (Stuck(t) <==> AtRest(t) || Ended(t))
            && (AtRest(t) ==> forall j :: WasSubmitted(t, j) ==> Count(t.resumeLog, j) == 1)
            && (forall j :: WasSubmitted(s, j) ==> WasSubmitted(t, j))
  {
    hide Exec, Next, Enabled, Ended, Owned, WakeOk, Measure, AtRest, Stuck, Reachable, Places, WasSubmitted, Count,
      Outstanding;
    ReachableOwned(p, n, s);
    var t := ExecFrom(p, s, steps).value;
    var before: seq<Step> := ReachedBy(p, n, s);
    WakeAlways(p, n, before);
    WorkIsBounded(p, s, steps);
    ExecJoin(p, n, before, s, steps);
    WakeAlways(p, n, before + steps);
    StuckMeansDone(t);
    assert Reachable(p, n, t) by { ReachIntro(p, n, before + steps); }
    if AtRest(t) {
      forall j | WasSubmitted(t, j)
        ensures Count(t.resumeLog, j) == 1
      {
        ResumedExactlyOnce(p, n, t, j);
        NotOutstanding(t, j);
      }
    }
    forall j | WasSubmitted(s, j)
      ensures WasSubmitted(t, j)
    {
      SubmittedForGood(p, s, steps, j);
    }
  }

  lemma ReachedBy<C>(p: Program<C>, n: nat, s: State<C>) returns (steps: seq<Step>)
    requires Reachable(p, n, s)
    ensures Exec(p, n, steps) == Some(s)
  {
    steps :| Exec(p, n, steps) == Some(s);
  }

  lemma ReachIntro<C>(p: Program<C>, n: nat, steps: seq<Step>)
    requires Exec(p, n, steps).Some?
    ensures Reachable(p, n, Exec(p, n, steps).value)
  {
    assert Exec(p, n, steps) == Some(Exec(p, n, steps).value);
  }

  lemma ReachStep<C>(p: Program<C>, n: nat, s: State<C>, step: Step)
    requires Reachable(p, n, s) && Enabled(s, step)
    ensures Reachable(p, n, Next(p, s, step))
  {
    hide Next, Enabled;
    var steps :| Exec(p, n, steps) == Some(s);
    assert (steps + [step])[..|steps|] == steps;
    assert Exec(p, n, steps + [step]) == Some(Next(p, s, step));
  }

  lemma NotOutstanding<C>(s: State<C>, j: Job)
    requires Owned(s) && WakeOk(s) && s.workers != [] && AtRest(s)
    ensures !Outstanding(s, j) && Places(s, j) == 0
  {
    hide Places, AtRest, WakeOk, ConnsOk, ProgressOk;
    StuckMeansDone(s);
    assert Places(s, j) == One(Outstanding(s, j));
  }

  lemma {:induction false} SubmittedForGood<C>(p: Program<C>, s: State<C>, steps: seq<Step>, j: Job)
    requires Owned(s) && ExecFrom(p, s, steps).Some? && WasSubmitted(s, j)
    ensures WasSubmitted(ExecFrom(p, s, steps).value, j)
    decreases |steps|
  {
    hide Next, Enabled, Owned, WasSubmitted, Submits;
    if steps != [] {
      SubmittedStep(p, s, steps[0], j);
      OwnedStep(p, s, steps[0]);
      SubmittedForGood(p, Next(p, s, steps[0]), steps[1..], j);
    }
  }
}
