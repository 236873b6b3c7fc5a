/** The order in which connections come back from their jobs. */
module Fifo {
  import opened Base
  import opened Pool
  import opened Ownership
  import opened Liveness
  import opened Histories
  import Outbound

  /** The handle the only worker holds, if it holds one. */
  function OnWorker(ws: seq<Worker>): seq<Job> {
    if |ws| == 1 && (ws[0].Holding? || ws[0].Finished?) then [ws[0].job] else []
  }

  /** The hand-over as one queue: resumed, waiting to be resumed, on the worker, waiting for it. */
  predicate InOrder<C>(s: State<C>) {
    s.submitLog == s.resumeLog + s.joiners + OnWorker(s.workers) + s.shifters
  }

  lemma WorkKeepsHandles<C>(p: Program<C>, s: State<C>, w: nat)
    requires Enabled(s, Work(w))
    ensures var s' := Next(p, s, Work(w));
            && s'.shifters == s.shifters && s'.joiners == s.joiners
            && s'.submitLog == s.submitLog && s'.resumeLog == s.resumeLog
            && |s'.workers| == |s.workers| && OnWorker(s'.workers) == OnWorker(s.workers)
  {
    hide Execute, Throws;
  }

  lemma TakeKeepsOrder<C>(p: Program<C>, s: State<C>, w: nat)
    requires Enabled(s, Take(w)) && InOrder(s) && |s.workers| == 1
    ensures InOrder(Next(p, s, Take(w)))
  {
    assert s.shifters == [s.shifters[0]] + s.shifters[1..];
    assert s.submitLog == s.resumeLog + s.joiners + [s.shifters[0]] + s.shifters[1..];
  }

  lemma WorkerKeepsOrder<C>(p: Program<C>, s: State<C>, step: Step)
    requires ProgressOk(s) && Enabled(s, step) && InOrder(s) && |s.workers| == 1
    requires ByWorker(step)
    ensures InOrder(Next(p, s, step))
  {
    hide Ended, Conclude, ApplyMove, Progress;
    match step
    case Work(w) => WorkKeepsHandles(p, s, w);
    case Take(w) => TakeKeepsOrder(p, s, w);
    case Complete(w) => CompleteShape(p, s, w);
    case Stray(w, ok) => NoStray(s, w, ok);
    case _ =>
  }

  lemma PopKeepsOrder<C>(p: Program<C>, s: State<C>)
    requires Enabled(s, Pop) && InOrder(s) && s.joiners != [] && s.joiners[0].conn in s.conns
    ensures InOrder(Next(p, s, Pop))
  {
    assert s.joiners == [s.joiners[0]] + s.joiners[1..];
    assert s.resumeLog + s.joiners == (s.resumeLog + [s.joiners[0]]) + s.joiners[1..];
  }

  lemma LoopKeepsOrder<C>(p: Program<C>, s: State<C>, step: Step)
    requires Enabled(s, step) && InOrder(s) && !step.Pop?
    requires !ByWorker(step)
    requires s.workers == [] ==> s.joiners == [] && s.shifters == []
    ensures InOrder(Next(p, s, step))
    ensures s.workers == [] ==> Next(p, s, step).joiners == [] && Next(p, s, step).shifters == []
  {
    hide Ended, MoveOf, Deliver, NewConn, WriteDone;
    if step.Advance? && s.loop.conn in s.conns {
      MoveJob(p, s.conns[s.loop.conn], step.ok, s.workers != []);
    }
  }

  lemma InOrderStep<C>(p: Program<C>, s: State<C>, step: Step)
    requires Owned(s) && WakeOk(s) && Enabled(s, step) && InOrder(s) && |s.workers| <= 1
    requires s.workers == [] ==> s.joiners == [] && s.shifters == []
    ensures InOrder(Next(p, s, step))
    ensures Next(p, s, step).workers == [] ==> Next(p, s, step).joiners == [] && Next(p, s, step).shifters == []
  {
    hide Next, InOrder, HandlesOk, ConnsOk;
    SameWorkers(p, s, step);
    if step.Pop? {
      assert Progress(s, s.joiners[0], true);
      PopKeepsOrder(p, s);
    } else if ByWorker(step) {
      WorkerKeepsOrder(p, s, step);
    } else {
      LoopKeepsOrder(p, s, step);
    }
  }

  lemma {:induction false} InOrderAlways<C>(p: Program<C>, n: nat, steps: seq<Step>)
    requires n <= 1 && Exec(p, n, steps).Some?
    ensures var s := Exec(p, n, steps).value;
            InOrder(s) && (s.workers == [] ==> s.joiners == [] && s.shifters == [])
  {
    hide Next, Enabled, InOrder;
    if steps == [] {
      assert InOrder(Init<C>(n)) by { InOrderInit<C>(n); }
    } else {
      var before := steps[..|steps| - 1];
      InOrderAlways(p, n, before);
      OwnedAlways(p, n, before);
      WakeAlways(p, n, before);
      InOrderStep(p, Exec(p, n, before).value, steps[|steps| - 1]);
    }
  }

  lemma InOrderInit<C>(n: nat)
    ensures InOrder(Init<C>(n))
  {
  }

  /** Every run with `n` workers resumes connections in the order their jobs were submitted. */
  ghost predicate KeepsOrder<C(!new)>(p: Program<C>, n: nat) {
    forall s :: Reachable(p, n, s) ==> s.resumeLog <= s.submitLog
  }

  lemma OneWorkerKeepsOrder<C(!new)>(p: Program<C>, n: nat)
    requires n <= 1
    ensures KeepsOrder(p, n)
  {
    hide Exec;
    forall s | Reachable(p, n, s)
      ensures s.resumeLog <= s.submitLog
    {
      var steps :| Exec(p, n, steps) == Some(s);
      InOrderAlways(p, n, steps);
    }
  }

  // ----- Two workers can swap two connections

  /** What the first job of a connection is lent when `data` is the first to arrive. */
  function FirstLent(data: seq<byte>, rooms: Outbound.Rooms): Lent {
    Lent(Overwrite(Zeros(), data), |data|, rooms)
  }

  /** Some first job of a connection does not end the process. */
  ghost predicate Survivable<C>(p: Program<C>) {
    exists data, rooms :: Survives(p, data, rooms)
  }

  predicate Survives<C>(p: Program<C>, data: seq<byte>, rooms: Outbound.Rooms) {
    0 < |data| <= CAPACITY && !p.job(p.init, FirstLent(data, rooms)).fatal
  }

  /** Everything but the connections and the loop is as it was. */
  predicate SamePool<C>(s: State<C>, t: State<C>) {
    && t.shifters == s.shifters && t.workers == s.workers && t.joiners == s.joiners
    && t.submitLog == s.submitLog && t.resumeLog == s.resumeLog
  }

  /** A connection that has submitted its first job, on `data`. */
  ghost predicate AtFirstJob<C>(p: Program<C>, k: Conn<C>, data: seq<byte>, rooms: Outbound.Rooms) {
    && k.point == AtJob(|data|, false) && k.core == p.init && k.reader.buf == Overwrite(Zeros(), data)
    && k.rooms == rooms && !k.fatal
  }

  /** A reachable state from which the process goes on, the loop polling. */
  ghost predicate Ready<C>(p: Program<C>, n: nat, s: State<C>) {
    Reachable(p, n, s) && !Ended(s) && s.loop.Polling?
  }

  lemma StillAlive<C>(s: State<C>, t: State<C>, c: nat)
    requires !Ended(s) && c in t.conns && t.conns == s.conns[c := t.conns[c]] && !t.conns[c].fatal
    ensures !Ended(t)
  {
  }

  /** A new connection comes as far as waiting for bytes. */
  lemma Connects<C>(p: Program<C>, n: nat, s: State<C>, c: nat) returns (t: State<C>)
    requires Ready(p, n, s) && c !in s.conns
    ensures Ready(p, n, t) && SamePool(s, t) && t.conns == s.conns[c := BeginRead(NewConn(p), true)]
  {
    hide Reachable, Ended;
    var s1 := Next(p, s, Accept(c));
    ReachStep(p, n, s, Accept(c));
    assert s1.conns[c] == NewConn(p) && Alive(NewConn(p).reader);
    StillAlive(s, s1, c);
    t := Next(p, s1, Advance(true));
    ReachStep(p, n, s1, Advance(true));
    StillAlive(s, t, c);
  }

  /** It receives bytes and is resumed with them. */
  lemma Receives<C>(p: Program<C>, n: nat, s: State<C>, c: nat, data: seq<byte>, rooms: Outbound.Rooms)
    returns (t: State<C>, k: Conn<C>)
    requires Ready(p, n, s) && c in s.conns && s.conns[c] == BeginRead(NewConn(p), true) && 0 < |data| <= CAPACITY
    ensures Reachable(p, n, t) && !Ended(t) && t.loop == Running(c, false) && SamePool(s, t)
    ensures t.conns == s.conns[c := k] && AtFirstJob(p, Submit(k.(point := HasBytes(|data|))), data, rooms)
    ensures k.point == HasBytes(|data|) && k.submitted == 0
  {
    hide Reachable, Ended, Overwrite;
    var step := OnRead(c, Bytes(data), rooms);
    var s1 := Next(p, s, step);
    ReachStep(p, n, s, step);
    assert s1.conns[c].point.Resumed? && s1.conns[c].reader.nread == |data|;
    StillAlive(s, s1, c);
    t := Next(p, s1, Advance(true));
    k := t.conns[c];
    ReachStep(p, n, s1, Advance(true));
    StillAlive(s, t, c);
  }

  /** It submits its job. */
  lemma SubmitsJob<C>(p: Program<C>, n: nat, s: State<C>, c: nat) returns (t: State<C>)
    requires Reachable(p, n, s) && !Ended(s) && s.loop == Running(c, false) && c in s.conns && s.workers != []
    requires s.conns[c].point.HasBytes? && s.conns[c].point.size > 0 && s.conns[c].submitted == 0
    ensures Ready(p, n, t) && t.conns == s.conns[c := Submit(s.conns[c])]
    ensures SamePool(s.(shifters := s.shifters + [Job(c, 1)], submitLog := s.submitLog + [Job(c, 1)]), t)
  {
    hide Reachable, Ended;
    assert !s.conns[c].fatal by { NotFatal(s, c); }
    t := Next(p, s, Advance(true));
    ReachStep(p, n, s, Advance(true));
    StillAlive(s, t, c);
  }

  lemma NotFatal<C>(s: State<C>, c: nat)
    requires !Ended(s) && c in s.conns
    ensures !s.conns[c].fatal
  {
  }

  lemma Arrives<C>(p: Program<C>, n: nat, s: State<C>, c: nat, data: seq<byte>, rooms: Outbound.Rooms)
    returns (t: State<C>)
    requires Ready(p, n, s) && c !in s.conns && s.workers != [] && 0 < |data| <= CAPACITY
    ensures Ready(p, n, t) && t.conns.Keys == s.conns.Keys + {c} && AtFirstJob(p, t.conns[c], data, rooms)
    ensures SamePool(s.(shifters := s.shifters + [Job(c, 1)], submitLog := s.submitLog + [Job(c, 1)]), t)
  {
    hide Ready, Reachable, Ended, BeginRead, NewConn, Overwrite;
    t := Connects(p, n, s, c);
    var k;
    t, k := Receives(p, n, t, c, data, rooms);
    assert k.(point := HasBytes(|data|)) == k;
    t := SubmitsJob(p, n, t, c);
  }

  lemma BothTake<C>(p: Program<C>, n: nat, s: State<C>) returns (t: State<C>)
    requires Ready(p, n, s) && |s.workers| >= 2 && s.workers[0].Idle? && s.workers[1].Idle?
    requires s.shifters == [Job(0, 1), Job(1, 1)]
    ensures Ready(p, n, t) && t == s.(shifters := t.shifters, workers := t.workers)
    ensures |t.workers| >= 2 && t.workers[1] == Holding(Job(1, 1))
  {
    hide Reachable;
    var s1 := Next(p, s, Take(0));
    ReachStep(p, n, s, Take(0));
    assert s1.shifters == [Job(1, 1)];
    t := Next(p, s1, Take(1));
    ReachStep(p, n, s1, Take(1));
  }

  /** Both workers take a job; worker 1 runs its own at once, and catches what it throws. */
  lemma WorkerOneRuns<C>(p: Program<C>, n: nat, s: State<C>, data: seq<byte>, rooms: Outbound.Rooms)
    returns (t: State<C>)
    requires Ready(p, n, s) && |s.workers| >= 2 && s.workers[0].Idle? && s.workers[1].Idle?
    requires s.shifters == [Job(0, 1), Job(1, 1)] && s.joiners == []
    requires 1 in s.conns && AtFirstJob(p, s.conns[1], data, rooms) && Survives(p, data, rooms)
    ensures Ready(p, n, t) && 1 in t.conns && t.joiners == []
    ensures |t.workers| >= 2 && t.workers[1] == Finished(Job(1, 1), false)
    ensures t.submitLog == s.submitLog && t.resumeLog == s.resumeLog
  {
    hide Reachable, Ended, Throws, Overwrite;
    var s2 := BothTake(p, n, s);
    t := Next(p, s2, Work(1));
    ReachStep(p, n, s2, Work(1));
    assert t.conns[1] == Execute(p, s2.conns[1]);
    StillAlive(s2, t, 1);
    if t.workers[1].threw {
      var s3 := t;
      t := Next(p, s3, Catch(1));
      ReachStep(p, n, s3, Catch(1));
      StillAlive(s3, t, 1);
    }
  }

  lemma WorkerOneHandsOver<C>(p: Program<C>, n: nat, s: State<C>) returns (t: State<C>)
    requires Ready(p, n, s) && 1 in s.conns && s.joiners == []
    requires |s.workers| >= 2 && s.workers[1] == Finished(Job(1, 1), false)
    ensures Ready(p, n, t) && 1 in t.conns && t.joiners == [Job(1, 1)] && t.pending
    ensures t.submitLog == s.submitLog && t.resumeLog == s.resumeLog
  {
    hide Reachable, Conclude, HandlesOk, ConnsOk, Progress;
    ReachableOwned(p, n, s);
    var s1 := Next(p, s, Complete(1));
    ReachStep(p, n, s, Complete(1));
    CompleteShape(p, s, 1);
    assert s1.joiners == [Job(1, 1)] && s1.workers[1].Signalling? && s1.conns == s.conns;
    t := Next(p, s1, Send(1));
    ReachStep(p, n, s1, Send(1));
    assert t.conns == s.conns;
  }

  lemma LoopCollects<C>(p: Program<C>, n: nat, s: State<C>) returns (t: State<C>)
    requires Ready(p, n, s) && 1 in s.conns && s.joiners == [Job(1, 1)] && s.pending
    ensures Reachable(p, n, t) && t.submitLog == s.submitLog && t.resumeLog == s.resumeLog + [Job(1, 1)]
  {
    hide Reachable;
    var s1 := Next(p, s, OnAsync);
    ReachStep(p, n, s, OnAsync);
    assert s1.conns == s.conns;
    var s2 := Next(p, s1, Test);
    ReachStep(p, n, s1, Test);
    assert s2.conns == s.conns;
    t := Next(p, s2, Pop);
    ReachStep(p, n, s2, Pop);
  }

  /** Connections 0 and 1 each submit a job, in this order, and connection 1 comes back first. */
  lemma ManyWorkersSwap<C(!new)>(p: Program<C>, n: nat)
    requires n >= 2 && Survivable(p)
    ensures !KeepsOrder(p, n)
  {
    hide Reachable, Ended, Survives;
    var data, rooms :| Survives(p, data, rooms);
    assert 0 < |data| <= CAPACITY by { SurvivesSize(p, data, rooms); }
    var s := Init<C>(n);
    assert Reachable(p, n, s) by { ReachIntro(p, n, []); }
    assert !Ended(s) by { NobodyYet<C>(n); }
    var t := Arrives(p, n, s, 0, data, rooms);
    t := Arrives(p, n, t, 1, data, rooms);
    assert t.shifters == [Job(0, 1), Job(1, 1)] && t.submitLog == [Job(0, 1), Job(1, 1)];
    t := WorkerOneRuns(p, n, t, data, rooms);
    t := WorkerOneHandsOver(p, n, t);
    t := LoopCollects(p, n, t);
    assert t.submitLog[0] != t.resumeLog[0];
  }

  lemma NobodyYet<C>(n: nat)
    ensures !Ended(Init<C>(n))
  {
  }

  lemma SurvivesSize<C>(p: Program<C>, data: seq<byte>, rooms: Outbound.Rooms)
    requires Survives(p, data, rooms)
    ensures 0 < |data| <= CAPACITY
  {
  }

  // ----- If every first job ends the process, nobody ever comes back

  /** The first job of a connection was lent what `FirstLent` says. */
  lemma FirstIsFirst(fed: seq<Lent>)
    requires fed != [] && Chained(fed)
    ensures var data := Chunk(fed[0]); 0 < |data| <= CAPACITY && fed[0] == FirstLent(data, fed[0].rooms)
  {
    assert fed[..0] == [];
  }

  lemma {:induction false} FatalForGood<C>(p: Program<C>, fed: seq<Lent>)
    requires fed != [] && p.job(p.init, fed[0]).fatal
    ensures JobsOver(p, fed).fatal
  {
    if |fed| == 1 {
      assert fed[..0] == [];
      assert JobsOver(p, []) == Done(p.init, [], false);
    } else {
      FatalForGood(p, fed[..|fed| - 1]);
    }
  }

  lemma RanMeansFatal<C>(p: Program<C>, n: nat, s: State<C>, c: nat)
    requires !Survivable(p) && Reachable(p, n, s) && c in s.conns && s.conns[c].fed != []
    ensures Ended(s)
  {
    hide Reachable, Chained, Survives, JobsOver;
    var fed := s.conns[c].fed;
    BufferChained(p, n, s, c);
    FirstIsFirst(fed);
    assert p.job(p.init, fed[0]).fatal by { NotSurvived(p, Chunk(fed[0]), fed[0].rooms); }
    FatalForGood(p, fed);
    OutboundConserved(p, n, s, c);
  }

  lemma NotSurvived<C>(p: Program<C>, data: seq<byte>, rooms: Outbound.Rooms)
    requires !Survivable(p) && 0 < |data| <= CAPACITY
    ensures p.job(p.init, FirstLent(data, rooms)).fatal
  {
    assert !Survives(p, data, rooms);
  }

  /** A step after which somebody has been resumed would follow the end of the process. */
  lemma NobodyResumed<C>(p: Program<C>, n: nat, s: State<C>, step: Step)
    requires n > 0 && !Survivable(p) && Reachable(p, n, s) && |s.workers| == n && Enabled(s, step)
    ensures Next(p, s, step).resumeLog == s.resumeLog
  {
    hide Ended, Survivable, Reachable, MoveOf, Deliver, NewConn, WriteDone, WorkerNext, HandlesOk, ConnsOk, HandsOver;
    ReachableOwned(p, n, s);
    if ByWorker(step) {
      WorkerFrame(p, s, step);
    } else if step.Pop? && s.joiners != [] {
      assert Progress(s, s.joiners[0], true);
      var c := s.joiners[0].conn;
      assert s.conns[c].fed != [] by { RanHasFed(p, n, s, c); }
      RanMeansFatal(p, n, s, c);
    } else if step.Advance? && s.loop.conn in s.conns {
      MoveJob(p, s.conns[s.loop.conn], step.ok, true);
    }
  }

  lemma RanHasFed<C>(p: Program<C>, n: nat, s: State<C>, c: nat)
    requires Reachable(p, n, s) && c in s.conns && s.conns[c].point.AtJob? && s.conns[c].point.ran
    ensures s.conns[c].fed != []
  {
    hide Exec, Chunks, JobsOver, ThrewAt;
    var steps :| Exec(p, n, steps) == Some(s);
    HistoryAlways(p, n, steps, c);
  }

  lemma {:induction false} NobodyEver<C>(p: Program<C>, n: nat, steps: seq<Step>)
    requires n > 0 && !Survivable(p) && Exec(p, n, steps).Some?
    ensures Exec(p, n, steps).value.resumeLog == []
  {
    hide Next, Enabled, Survivable;
    if steps != [] {
      var before := steps[..|steps| - 1];
      NobodyEver(p, n, before);
      WakeAlways(p, n, before);
      ReachIntro(p, n, before);
      NobodyResumed(p, n, Exec(p, n, before).value, steps[|steps| - 1]);
    }
  }

  /**
   * Connections come back in the order of submission, on every run, exactly when there is at most one worker,
   * or when nobody can come back because every first job ends the process.
   */
  lemma OrderIffOneWorker<C(!new)>(p: Program<C>, n: nat)
    ensures KeepsOrder(p, n) <==> n <= 1 || !Survivable(p)
  {
    hide Survivable, Exec;
    if n <= 1 {
      OneWorkerKeepsOrder(p, n);
    } else if Survivable(p) {
      ManyWorkersSwap(p, n);
    } else {
      forall s | Reachable(p, n, s)
        ensures s.resumeLog <= s.submitLog
      {
        var steps :| Exec(p, n, steps) == Some(s);
        NobodyEver(p, n, steps);
      }
    }
  }
}
