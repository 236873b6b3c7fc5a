/** lib/grpcxx/uv/task.h: who is resumed when a task's coroutine ends, and on which thread. */
module Tasks {
  import opened Base

  /** What the thread that ran a coroutine to its end does next. */
  datatype Completion<H> =
    | Nothing          // nobody waits
    | ResumeHere(h: H) // symmetric transfer to the awaiting coroutine, on this thread
    | HandOver(h: H)   // the completion hook gets the awaiting coroutine

  /** The promise of a task's coroutine; `hooked` stands for a completion hook being set. */
  datatype Promise<H> = Promise(previous: Option<H>, hooked: bool, done: bool)

  /** A coroutine that has been created and not started. */
  function Created<H>(): Promise<H> {
    Promise(None, false, false)
  }

  /** `co_await task` by the coroutine `h`; a task that is over is not waited for. */
  function Awaited<H>(t: Promise<H>, h: H): Promise<H> {
    if t.done then t else t.(previous := Some(h))
  }

  /** `final_suspend`. */
  function FinalSuspend<H>(t: Promise<H>): Completion<H> {
    if t.previous.None? then Nothing
    else if !t.hooked then ResumeHere(t.previous.value)
    else HandOver(t.previous.value)
  }

  /** `co_await _scheduler.run(...)`: hooked by `run` if there are threads, then awaited, and only then queued. */
  function JobPromise<H>(threads: bool, caller: H): Promise<H> {
    Awaited(Created().(hooked := threads), caller)
  }

  /** `co_await c.flush()`: nobody sets a hook. */
  function FlushPromise<H>(caller: H): Promise<H> {
    Awaited(Created(), caller)
  }

  class Task<H> {
    var previous: Option<H>
    var hooked: bool
    var done: bool

    function State(): Promise<H>
      reads this
    {
      Promise(previous, hooked, done)
    }

    constructor ()
      ensures State() == Created()
    {
      previous, hooked, done := None, false, false;
    }

    method OnComplete()
      modifies this
      ensures State() == old(State()).(hooked := true)
    {
      hooked := true;
    }

    /** False when the task is over already and the awaiting coroutine just goes on. */
    method Await(coro: H) returns (suspended: bool)
      modifies this
      ensures suspended == !old(done) && State() == Awaited(old(State()), coro)
    {
      if done {
        return false;
      }
      previous := Some(coro);
      return true;
    }

    /** The end of the body; `unhandled_exception` logs what was thrown and swallows it. */
    method Finish(threw: bool) returns (next: Completion<H>, logged: bool)
      requires !done
      modifies this
      ensures logged == threw && State() == old(State()).(done := true) && next == FinalSuspend(old(State()))
    {
      logged := threw;
      done := true;
      if previous.None? {
        next := Nothing;
      } else if !hooked {
        next := ResumeHere(previous.value);
      } else {
        next := HandOver(previous.value);
      }
    }
  }

  /**
   * The whole life of a job's task. Whether its body throws or not, the coroutine that awaited it is
   * suspended and comes back exactly once: through the completion hook if there are threads, and on the
   * thread that ran the body if there are none.
   */
  method JobLife<H>(threads: bool, caller: H, threw: bool) returns (suspended: bool, next: Completion<H>, logged: bool)
    ensures suspended && logged == threw
    ensures next == if threads then HandOver(caller) else ResumeHere(caller)
    ensures next == FinalSuspend(JobPromise(threads, caller))
  {
    var t := new Task<H>();
    if threads {
      t.OnComplete();
    }
    suspended := t.Await(caller);
    next, logged := t.Finish(threw);
  }

  /** A task that is over is not waited for: whoever awaits it goes on, and nobody is resumed a second time. */
  method LateAwait<H>(caller: H, threw: bool) returns (suspended: bool, previous: Option<H>)
    ensures !suspended && previous == None
  {
    var t := new Task<H>();
    var next, logged := t.Finish(threw);
    suspended := t.Await(caller);
    previous := t.previous;
  }

  /** The whole life of the task of `flush`: a failed write is logged, and the connection goes on either way. */
  method FlushLife<H>(caller: H, failed: bool) returns (suspended: bool, next: Completion<H>, logged: bool)
    ensures suspended && logged == failed
    ensures next == ResumeHere(caller) == FinalSuspend(FlushPromise(caller))
  {
    var t := new Task<H>();
    suspended := t.Await(caller);
    next, logged := t.Finish(failed);
  }
}
