/**
 * `server::conn` from the outside: what of the environment's decisions a connection has seen, when it writes
 * and what, and when it is over.
 */
module Lifecycle {
  import opened Base
  import opened Pool
  import opened Ownership
  import opened Refinement
  import opened Histories
  import Outbound

  // ----- Read off the environment's decisions alone

  /** How the last write ended. */
  function LastWrite(inputs: seq<Input>): Option<bool> {
    if inputs == [] then None
    else
      match inputs[|inputs| - 1]
      case Wrote(ok) => Some(ok)
      case _ => LastWrite(inputs[..|inputs| - 1])
  }

  /** Bytes that arrived, and the room for response bytes the peer left at that time. */
  datatype Arrival = Arrival(data: seq<byte>, rooms: Outbound.Rooms)

  function Arrivals(inputs: seq<Input>): seq<Arrival> {
    if inputs == [] then []
    else
      var init := Arrivals(inputs[..|inputs| - 1]);
      match inputs[|inputs| - 1]
      case Delivered(Bytes(data), rooms) => if data == [] then init else init + [Arrival(data, rooms)]
      case _ => init
  }

  /** The peer has ended the stream. */
  predicate SawEnd(inputs: seq<Input>) {
    inputs != [] &&
    match inputs[|inputs| - 1]
    case Delivered(Eof, _) => true
    case _ => SawEnd(inputs[..|inputs| - 1])
  }

  /** A read has failed, or could not be started. */
  predicate SawFailure(inputs: seq<Input>) {
    inputs != [] &&
    match inputs[|inputs| - 1]
    case Delivered(Failure, _) => true
    case StartRead(false) => true
    case _ => SawFailure(inputs[..|inputs| - 1])
  }

  // ----- What every connection keeps

  function FedArrivals(fed: seq<Lent>): (arrivals: seq<Arrival>)
    ensures |arrivals| == |fed|
    ensures forall i :: 0 <= i < |arrivals| ==> arrivals[i] == Arrival(Chunk(fed[i]), fed[i].rooms)
  {
    seq(|fed|, i requires 0 <= i < |fed| => Arrival(Chunk(fed[i]), fed[i].rooms))
  }

  function ArrivalInHand<C>(k: Conn<C>): seq<Arrival> {
    if InHand(k) == [] then [] else [Arrival(InHand(k)[0], k.rooms)]
  }

  /** Each job gets what arrived, with the room the peer left then, in order. */
  ghost predicate ArrivalsOk<C>(k: Conn<C>) {
    Arrivals(k.inputs) == FedArrivals(k.fed) + ArrivalInHand(k)
  }

  /** The reader knows how the stream ended, and the coroutine is over only then, and soon then. */
  predicate EndOk<C>(k: Conn<C>) {
    && (k.reader.eos <==> SawEnd(k.inputs)) && (k.reader.failed <==> SawFailure(k.inputs))
    && (k.point.Closed? ==> !Alive(k.reader)) && (k.reader.nread > 0 ==> k.point.Resumed? && Alive(k.reader))
    && (!Alive(k.reader) ==> k.point.Resumed? || k.point.Top? || k.point.Closed?)
  }

  /** The points between the end of a flush and the end of the next job. */
  predicate BetweenFlushes(point: Point) {
    || point.Top? || point.AtReader? || point.Resumed? || point.HasBytes? || point.Closed?
    || (point.AtJob? && !point.ran)
  }

  /** What is left in the buffer when the coroutine goes on is there because its write has failed. */
  predicate WriteOk<C>(k: Conn<C>) {
    && (BetweenFlushes(k.point) ==> k.buffer == [] || LastWrite(k.inputs) == Some(false))
    && (k.point.AfterWrite? ==> LastWrite(k.inputs) == Some(k.point.ok))
    && (k.point.AtFlush? ==> k.buffer != [])
  }

  ghost predicate LifeOk<C>(k: Conn<C>) {
    ArrivalsOk(k) && EndOk(k) && WriteOk(k)
  }

  // ----- Every step keeps it

  lemma LastInput(inputs: seq<Input>, i: Input)
    ensures LastWrite(inputs + [i]) == (if i.Wrote? then Some(i.ok) else LastWrite(inputs))
    ensures Arrivals(inputs + [i]) ==
            Arrivals(inputs) +
            (if i.Delivered? && i.d.Bytes? && i.d.data != [] then [Arrival(i.d.data, i.rooms)] else [])
    ensures SawEnd(inputs + [i]) <==> SawEnd(inputs) || (i.Delivered? && i.d.Eof?)
    ensures SawFailure(inputs + [i]) <==> SawFailure(inputs) || (i.Delivered? && i.d.Failure?) || i == StartRead(false)
  {
    assert (inputs + [i])[..|inputs|] == inputs;
  }

  lemma FedOne(fed: seq<Lent>, lent: Lent)
    ensures FedArrivals(fed + [lent]) == FedArrivals(fed) + [Arrival(Chunk(lent), lent.rooms)]
  {
    hide Chunk;
  }

  lemma ExecuteLife<C>(p: Program<C>, k: Conn<C>)
    requires LifeOk(k) && k.point.AtJob? && !k.point.ran
    ensures LifeOk(Execute(p, k))
  {
    hide LastWrite, Arrivals, SawEnd, SawFailure, FedArrivals;
    var lent := Lent(k.reader.buf, k.point.size, k.rooms);
    FedOne(k.fed, lent);
    assert FedArrivals(k.fed + [lent]) + [] == FedArrivals(k.fed + [lent]);
  }

  lemma DeliverLife<C>(k: Conn<C>, d: Delivery, rooms: Outbound.Rooms)
    requires LifeOk(k) && ReaderOk(k) && k.point.AtReader? && (d.Bytes? ==> |d.data| <= CAPACITY)
    ensures LifeOk(Deliver(k, d, rooms))
  {
    hide LastWrite, Arrivals, SawEnd, SawFailure, FedArrivals;
    LastInput(k.inputs, Delivered(d, rooms));
    if d.Bytes? {
      assert View(Overwrite(k.reader.buf, d.data), |d.data|) == d.data;
    }
  }

  lemma WriteDoneLife<C>(k: Conn<C>, ok: bool)
    requires LifeOk(k) && k.point.AtFlush?
    ensures LifeOk(WriteDone(k, ok))
  {
    hide LastWrite, Arrivals, SawEnd, SawFailure, FedArrivals;
    LastInput(k.inputs, Wrote(ok));
  }

  lemma BeginReadLife<C>(k: Conn<C>, ok: bool)
    requires LifeOk(k) && ReaderOk(k) && k.point.Top? && Alive(k.reader)
    ensures LifeOk(BeginRead(k, ok))
  {
    hide LastWrite, Arrivals, SawEnd, SawFailure, FedArrivals;
    LastInput(k.inputs, StartRead(ok));
  }

  lemma QuietLife<C>(p: Program<C>, k: Conn<C>, ok: bool, threads: bool)
    requires OnLoop(k.point) && LifeOk(k) && ReaderOk(k)
    requires !(k.point.Top? && Alive(k.reader)) && !(k.point.HasBytes? && k.point.size > 0)
    ensures LifeOk(MoveOf(p, k, ok, threads).conn)
  {
    hide LastWrite, Arrivals, SawEnd, SawFailure, FedArrivals, View, InlineJob, BeginRead;
  }

  lemma MoveLife<C>(p: Program<C>, k: Conn<C>, ok: bool, threads: bool)
    requires OnLoop(k.point) && LifeOk(k) && ReaderOk(k)
    ensures LifeOk(MoveOf(p, k, ok, threads).conn)
  {
    if k.point.Top? && Alive(k.reader) {
      hide LifeOk, ReaderOk, BeginRead;
      BeginReadLife(k, ok);
    } else if k.point.HasBytes? && k.point.size > 0 {
      hide Execute, ReaderOk, LastWrite, Arrivals, SawEnd, SawFailure, FedArrivals, View;
      assert LifeOk(Submit(k));
      ExecuteLife(p, Submit(k));
      ExecutePoint(p, Submit(k));
    } else {
      hide LifeOk, ReaderOk, MoveOf;
      QuietLife(p, k, ok, threads);
    }
  }

  lemma LocalLife<C>(p: Program<C>, s: State<C>, step: Step, c: nat, k': Conn<C>)
    requires LocalStep(p, s, step, c, k')
    requires c in s.conns ==> LifeOk(s.conns[c]) && ReaderOk(s.conns[c])
    ensures LifeOk(k')
  {
    hide MoveOf, Execute, Deliver, WriteDone, LastWrite, Arrivals, SawEnd, SawFailure, FedArrivals, ReaderOk, View;
    if c in s.conns {
      var k := s.conns[c];
      if k' != k {
        match step
        case OnRead(_, d, rooms) => DeliverLife(k, d, rooms);
        case OnWrite(_, ok) => WriteDoneLife(k, ok);
        case Advance(ok) => MoveLife(p, k, ok, s.workers != []);
        case Work(_) => ExecuteLife(p, k);
        case _ =>
      }
    } else {
      NewLife(p);
    }
  }

  lemma NewLife<C>(p: Program<C>)
    ensures LifeOk(NewConn(p))
  {
  }

  lemma {:induction false} LifeAlways<C>(p: Program<C>, n: nat, steps: seq<Step>, c: nat)
    requires Exec(p, n, steps).Some? && c in Exec(p, n, steps).value.conns
    ensures LifeOk(Exec(p, n, steps).value.conns[c])
  {
    hide Next, Enabled, LifeOk, LocalStep, HandlesOk, ProgressOk, ReaderOk;
    if steps != [] {
      var before, step := Exec(p, n, steps[..|steps| - 1]).value, steps[|steps| - 1];
      OwnedAlways(p, n, steps[..|steps| - 1]);
      if c in before.conns {
        LifeAlways(p, n, steps[..|steps| - 1], c);
      }
      StepIsLocal(p, before, step, c);
      LocalLife(p, before, step, c, Next(p, before, step).conns[c]);
    }
  }

  // ----- What it means

  /**
   * On every run, from the end of a flush to the end of the next job, everything the jobs produced has been
   * written, unless the last write failed; and a write in flight has something to write.
   */
  lemma OutputFlushed<C>(p: Program<C>, n: nat, s: State<C>, c: nat)
    requires Reachable(p, n, s) && c in s.conns
    ensures var k := s.conns[c];
            && (BetweenFlushes(k.point) ==> k.buffer == [] || LastWrite(k.inputs) == Some(false))
            && (BetweenFlushes(k.point) && LastWrite(k.inputs) != Some(false) ==>
                  k.flushed == JobsOver(p, k.fed).emitted)
            && (k.point.AtFlush? ==> k.buffer != [])
  {
    hide Exec, JobsOver, ArrivalsOk, EndOk;
    var steps :| Exec(p, n, steps) == Some(s);
    LifeAlways(p, n, steps, c);
    OutboundConserved(p, n, s, c);
    var k := s.conns[c];
    if k.buffer == [] {
      assert k.flushed + k.buffer == k.flushed;
    }
  }

  /** On every run, what has been written changes only when a successful write is over, and then to everything. */
  lemma FlushStep<C>(p: Program<C>, n: nat, s: State<C>, c: nat, step: Step)
    requires Reachable(p, n, s) && c in s.conns && Enabled(s, step)
    ensures c in Next(p, s, step).conns
    ensures var k, k' := s.conns[c], Next(p, s, step).conns[c];
            if step.Advance? && k.point == AfterWrite(true) then k'.flushed == k.emitted && k'.buffer == []
            else k'.flushed == k.flushed
  {
    hide Reachable, Next, HandlesOk, ReaderOk, ProgressOk, JobsOver, HistoryOk;
    ReachableOwned(p, n, s);
    ConnsStay(p, s, step, c);
    StepIsLocal(p, s, step, c);
    EmittedAll(p, n, s, c);
    LocalFlush(p, s, step, c, Next(p, s, step).conns[c]);
    if step.Advance? && s.conns[c].point == AfterWrite(true) {
      AdvanceMoves(p, s, step, c);
    }
  }

  lemma EmittedAll<C>(p: Program<C>, n: nat, s: State<C>, c: nat)
    requires Reachable(p, n, s) && c in s.conns
    ensures s.conns[c].flushed + s.conns[c].buffer == s.conns[c].emitted
  {
    hide Exec, JobsOver, Chunks, InHand, JobsCounted;
    var steps :| Exec(p, n, steps) == Some(s);
    HistoryAlways(p, n, steps, c);
  }

  /** The coroutine that stands behind a write is the one the loop runs. */
  lemma AdvanceMoves<C>(p: Program<C>, s: State<C>, step: Step, c: nat)
    requires Owned(s) && Enabled(s, step) && step.Advance? && c in s.conns && s.conns[c].point == AfterWrite(true)
    ensures Next(p, s, step).conns[c] == MoveOf(p, s.conns[c], step.ok, s.workers != []).conn
  {
    hide Ended, MoveOf, HandlesOk, ReaderOk, ProgressOk, WorkerNext;
    assert OnLoop(s.conns[c].point);
  }

  lemma LocalFlush<C>(p: Program<C>, s: State<C>, step: Step, c: nat, k': Conn<C>)
    requires c in s.conns && LocalStep(p, s, step, c, k')
    requires s.conns[c].flushed + s.conns[c].buffer == s.conns[c].emitted
    ensures var k := s.conns[c];
            && (!(step.Advance? && k.point == AfterWrite(true)) ==> k'.flushed == k.flushed)
            && (step.Advance? && k.point == AfterWrite(true) && k' == MoveOf(p, k, step.ok, s.workers != []).conn ==>
                  k'.flushed == k.emitted && k'.buffer == [])
  {
    hide View, Overwrite;
    var k := s.conns[c];
    assert k.flushed + [] == k.flushed;
  }

  /**
   * On every run, the jobs get what arrived, chunk by chunk and with the room the peer left at that time; and a
   * connection is over only after the end of the stream or a failure of a read, and never waits after these.
   */
  lemma InputsHonoured<C>(p: Program<C>, n: nat, s: State<C>, c: nat)
    requires Reachable(p, n, s) && c in s.conns
    ensures var k := s.conns[c];
            && FedArrivals(k.fed) <= Arrivals(k.inputs) && |Arrivals(k.inputs)| <= |k.fed| + 1
            && (Waiting(k) ==> FedArrivals(k.fed) == Arrivals(k.inputs))
            && (k.reader.nread > 0 ==> k.point.Resumed? && Alive(k.reader))
            && (k.point.Closed? ==> SawEnd(k.inputs) || SawFailure(k.inputs))
            && (SawEnd(k.inputs) || SawFailure(k.inputs) ==> !k.point.AtReader? && !k.point.AtFlush? && !k.point.AtJob?)
  {
    hide Exec, Arrivals, FedArrivals, SawEnd, SawFailure, LastWrite;
    var steps :| Exec(p, n, steps) == Some(s);
    LifeAlways(p, n, steps, c);
    if Waiting(s.conns[c]) {
      NothingInHand(s.conns[c]);
      assert FedArrivals(s.conns[c].fed) + [] == FedArrivals(s.conns[c].fed);
    }
  }
}
