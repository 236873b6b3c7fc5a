/** lib/grpcxx/uv/task.h, `unhandled_exception`: what a job throws is reported, and reported once. */
module Errors {
  import opened Base
  import opened Pool
  import opened Ownership
  import opened Refinement
  import opened Histories

  /** How many workers have run job `j` to an exception they have still to catch. */
  function Unwinding(ws: seq<Worker>, j: Job): nat {
    if ws == [] then 0 else Unwinding(ws[..|ws| - 1], j) + One(ws[|ws| - 1] == Finished(j, true))
  }

  lemma {:induction false} UnwindingUpdate(ws: seq<Worker>, i: nat, w: Worker, j: Job)
    requires i < |ws|
    ensures Unwinding(ws[i := w], j) + One(ws[i] == Finished(j, true)) == Unwinding(ws, j) + One(w == Finished(j, true))
  {
    var last := |ws| - 1;
    if i == last {
      assert ws[i := w][..last] == ws[..last];
    } else {
      UnwindingUpdate(ws[..last], i, w, j);
      assert ws[i := w][..last] == ws[..last][i := w];
      assert ws[i := w][last] == ws[last];
    }
  }

  lemma {:induction false} NoneUnwinding(ws: seq<Worker>, j: Job)
    requires forall i :: 0 <= i < |ws| ==> !ws[i].Finished?
    ensures Unwinding(ws, j) == 0
  {
    if ws != [] {
      NoneUnwinding(ws[..|ws| - 1], j);
    }
  }

  /** Job `j` has thrown. */
  predicate HasThrown<C>(s: State<C>, j: Job) {
    j.conn in s.conns && j.serial in s.conns[j.conn].thrown
  }

  ghost predicate ErrorsOk<C>(s: State<C>, j: Job) {
    Count(s.errorLog, j) + Unwinding(s.workers, j) == One(HasThrown(s, j))
  }

  /** A job that has still to run has not thrown yet. */
  predicate NotYet<C>(k: Conn<C>) {
    && (k.point.AtJob? && !k.point.ran ==> k.submitted !in k.thrown)
    && k.submitted + 1 !in k.thrown
  }

  lemma HistoryNotYet<C>(p: Program<C>, k: Conn<C>)
    requires HistoryOk(p, k)
    ensures NotYet(k)
  {
    hide JobsOver, Chunks, InHand;
  }

  // ----- Steps of a worker

  lemma WorkErrors<C>(p: Program<C>, s: State<C>, w: nat, j: Job)
    requires Owned(s) && Enabled(s, Work(w)) && ErrorsOk(s, j)
    requires forall c :: c in s.conns ==> NotYet(s.conns[c])
    ensures ErrorsOk(Next(p, s, Work(w)), j)
  {
    hide Ended, HandlesOk, ConnsOk, HandsOver, Count, Unwinding;
    var j0 := s.workers[w].job;
    assert WorkerOk(s, s.workers[w]);
    assert NotYet(s.conns[j0.conn]);
    UnwindingUpdate(s.workers, w, Finished(j0, Throws(p, s.conns[j0.conn])), j);
  }

  lemma WorkerErrors<C>(p: Program<C>, s: State<C>, step: Step, j: Job)
    requires Owned(s) && Enabled(s, step) && ByWorker(step) && ErrorsOk(s, j)
    requires forall c :: c in s.conns ==> NotYet(s.conns[c])
    ensures ErrorsOk(Next(p, s, step), j)
  {
    hide Ended, HandlesOk, ConnsOk, Progress, Count, Unwinding, Conclude, ApplyMove, Execute, Throws, NotYet;
    match step
    case Work(w) => WorkErrors(p, s, w, j);
    case Take(w) => UnwindingUpdate(s.workers, w, Holding(s.shifters[0]), j);
    case Catch(w) =>
      UnwindingUpdate(s.workers, w, Finished(s.workers[w].job, false), j);
      CountPush(s.errorLog, s.workers[w].job, j);
    case Complete(w) =>
      CompleteShape(p, s, w);
      UnwindingUpdate(s.workers, w, Signalling, j);
    case Send(w) => UnwindingUpdate(s.workers, w, Idle, j);
    case Stray(w, ok) => NoStray(s, w, ok);
  }

  // ----- Steps of the loop

  /** The running coroutine throws only in a job that it runs itself. */
  lemma MoveThrown<C>(p: Program<C>, k: Conn<C>, ok: bool, threads: bool)
    ensures var m := MoveOf(p, k, ok, threads);
            if m.job.RanInline? then k.thrown <= m.conn.thrown <= k.thrown + {k.submitted + 1}
            else m.conn.thrown == k.thrown
  {
  }

  lemma AdvanceErrors<C>(p: Program<C>, s: State<C>, ok: bool, j: Job)
    requires Enabled(s, Advance(ok)) && ErrorsOk(s, j)
    requires forall c :: c in s.conns ==> NotYet(s.conns[c])
    ensures ErrorsOk(Next(p, s, Advance(ok)), j)
  {
    hide Ended, MoveOf, Count, Unwinding;
    if s.loop.conn in s.conns {
      var k := s.conns[s.loop.conn];
      assert NotYet(k);
      MoveThrown(p, k, ok, s.workers != []);
      CountPush(s.errorLog, Job(s.loop.conn, k.submitted + 1), j);
    }
  }

  lemma LoopErrors<C>(p: Program<C>, s: State<C>, step: Step, j: Job)
    requires Enabled(s, step) && !ByWorker(step) && !step.Advance? && ErrorsOk(s, j)
    ensures ErrorsOk(Next(p, s, step), j)
  {
    hide Ended, Count, Unwinding, Filled;
  }

  lemma {:induction false} ErrorsAlways<C>(p: Program<C>, n: nat, steps: seq<Step>, j: Job)
    requires Exec(p, n, steps).Some?
    ensures ErrorsOk(Exec(p, n, steps).value, j)
  {
    hide Next, Enabled, ErrorsOk, Owned, NotYet;
    if steps == [] {
      NoErrors<C>(n, j);
    } else {
      var init := steps[..|steps| - 1];
      var before, step := Exec(p, n, init).value, steps[|steps| - 1];
      ErrorsAlways(p, n, init, j);
      OwnedAlways(p, n, init);
      forall c | c in before.conns
        ensures NotYet(before.conns[c])
      {
        HistoryAlways(p, n, init, c);
        HistoryNotYet(p, before.conns[c]);
      }
      if ByWorker(step) {
        WorkerErrors(p, before, step, j);
      } else if step.Advance? {
        AdvanceErrors(p, before, step.ok, j);
      } else {
        LoopErrors(p, before, step, j);
      }
    }
  }

  lemma NoErrors<C>(n: nat, j: Job)
    ensures ErrorsOk(Init<C>(n), j)
  {
    NoneUnwinding(Init<C>(n).workers, j);
  }

  /**
   * On every run, with or without workers, the exception of each job that threw is reported exactly once, or is
   * about to be, and nothing else is reported; and a job is not over before its exception has been.
   */
  lemma ReportedOnce<C>(p: Program<C>, n: nat, s: State<C>, c: nat, serial: nat)
    requires Reachable(p, n, s) && c in s.conns
    ensures var j := Job(c, serial);
            && Count(s.errorLog, j) + Unwinding(s.workers, j) == One(ThrewAt(p, s.conns[c].fed, serial))
            && (Count(s.resumeLog, j) > 0 || j in s.joiners ==> Unwinding(s.workers, j) == 0)
  {
    hide Exec, Count, Unwinding, JobsOver, Chunks, InHand;
    var j := Job(c, serial);
    var steps :| Exec(p, n, steps) == Some(s);
    ErrorsAlways(p, n, steps, j);
    HistoryAlways(p, n, steps, c);
    ResumedExactlyOnce(p, n, s, j);
    UnwindingHeld(s.workers, j);
    if j in s.joiners {
      var i :| 0 <= i < |s.joiners| && s.joiners[i] == j;
      CountMember(s.joiners, i);
    }
  }

  /** A job whose exception is still to be caught is on a worker. */
  lemma {:induction false} UnwindingHeld(ws: seq<Worker>, j: Job)
    ensures Unwinding(ws, j) <= HeldCount(ws, j)
  {
    if ws != [] {
      UnwindingHeld(ws[..|ws| - 1], j);
    }
  }
}
