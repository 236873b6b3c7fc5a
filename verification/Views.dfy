/**
 * lib/grpcxx/h2/session.cpp: events hold views of the buffer a chunk was read into. Those that a throwing
 * read leaves in the session are looked at only later, when the buffer has been read into again.
 */
module Views {
  import opened Base
  import opened Demux
  import opened Server
  import opened Histories
  import Pool

  /** The session as it would be if each data event held a copy of its bytes. */
  datatype Copied<H> = Copied(h: H, events: seq<Event>, batches: seq<seq<Event>>)

  function DecodeCopies<H>(env: Env<H>, fed: seq<Pool.Lent>): Copied<H> {
    if fed == [] then Copied(env.h2, [], [])
    else
      var before, lent := DecodeCopies(env, fed[..|fed| - 1]), fed[|fed| - 1];
      var r := env.recv(before.h, Pool.Chunk(lent));
      var batch := before.events + Resolve(r.raws, lent.buf);
      if r.ok then Copied(r.h, Resolve(Closings(batch), []), before.batches + [batch])
      else Copied(r.h, batch, before.batches)
  }

  /** `events` differ from `raws` in the bytes of data events at most. */
  predicate Like(raws: seq<Raw>, events: seq<Event>) {
    && |raws| == |events|
    && forall i :: 0 <= i < |raws| ==>
         if raws[i].Whole? then events[i] == raws[i].event else events[i].Data? && events[i].id == raws[i].id
  }

  lemma {:induction false} SameEnds(raws: seq<Raw>, events: seq<Event>, buf: seq<byte>)
    requires Like(raws, events)
    ensures EndedIds(Resolve(raws, buf)) == EndedIds(events)
  {
    if raws != [] {
      var init := raws[..|raws| - 1];
      SameEnds(init, events[..|raws| - 1], buf);
      assert Resolve(raws, buf)[..|raws| - 1] == Resolve(init, buf);
    }
  }

  lemma LikeAdd(a: seq<Raw>, e: seq<Event>, b: seq<Raw>, buf: seq<byte>)
    requires Like(a, e)
    ensures Like(a + b, e + Resolve(b, buf))
  {
  }

  lemma SameClosings(raws: seq<Raw>, events: seq<Event>, buf: seq<byte>)
    requires Like(raws, events)
    ensures Closings(Resolve(raws, buf)) == Closings(events)
    ensures Like(Closings(events), Resolve(Closings(events), []))
  {
    hide EndedIds, Resolve;
    SameEnds(raws, events, buf);
  }

  /** Views or copies, the session goes through the same states. */
  lemma {:induction false} SameStates<H>(env: Env<H>, fed: seq<Pool.Lent>)
    ensures var d, c := Decode(env, fed), DecodeCopies(env, fed);
            d.h == c.h && Like(d.raws, c.events) && |d.batches| == |c.batches|
  {
    hide Resolve, Closings, Like;
    if fed == [] {
      assert Like([], []) by { NoneLike(); }
    } else {
      var init, lent := fed[..|fed| - 1], fed[|fed| - 1];
      SameStates(env, init);
      var d, c := Decode(env, init), DecodeCopies(env, init);
      var r := env.recv(d.h, Pool.Chunk(lent));
      LikeAdd(d.raws, c.events, r.raws, lent.buf);
      SameClosings(d.raws + r.raws, c.events + Resolve(r.raws, lent.buf), lent.buf);
    }
  }

  lemma NoneLike()
    ensures Like([], [])
  {
  }

  /** If read number `k` succeeds, each event it finds in the session still shows the bytes that arrived. */
  predicate HeldShown<H>(env: Env<H>, fed: seq<Pool.Lent>, k: nat)
    requires k < |fed|
  {
    var d := Decode(env, fed[..k]);
    env.recv(d.h, Pool.Chunk(fed[k])).ok ==> Resolve(d.raws, fed[k].buf) == DecodeCopies(env, fed[..k]).events
  }

  /** Read by read: the batches are what arrived exactly if each successful read finds all held events unchanged. */
  lemma {:induction false} ViewsExact<H>(env: Env<H>, fed: seq<Pool.Lent>)
    ensures Decode(env, fed).batches == DecodeCopies(env, fed).batches
            <==> forall k :: 0 <= k < |fed| ==> HeldShown(env, fed, k)
  {
    hide Decode, DecodeCopies, HeldShown;
    if fed == [] {
      NothingDecoded(env);
    } else {
      var n := |fed| - 1;
      var init := fed[..n];
      ViewsExact(env, init);
      assert init + [fed[n]] == fed;
      BatchesOne(env, init, fed[n]);
      forall k | 0 <= k < n
        ensures HeldShown(env, fed, k) <==> HeldShown(env, init, k)
      {
        ShownBefore(env, init, fed[n], k);
      }
    }
  }

  lemma ShownBefore<H>(env: Env<H>, fed: seq<Pool.Lent>, lent: Pool.Lent, k: nat)
    requires k < |fed|
    ensures HeldShown(env, fed + [lent], k) <==> HeldShown(env, fed, k)
  {
    hide Decode, DecodeCopies, Resolve;
    assert (fed + [lent])[..k] == fed[..k];
  }

  /** One more read: the batches agree exactly if they did and it finds the held events unchanged. */
  lemma BatchesOne<H>(env: Env<H>, fed: seq<Pool.Lent>, lent: Pool.Lent)
    ensures var all := fed + [lent];
            Decode(env, all).batches == DecodeCopies(env, all).batches <==>
            Decode(env, fed).batches == DecodeCopies(env, fed).batches && HeldShown(env, all, |fed|)
  {
    hide Decode, DecodeCopies, Resolve, Closings, Like;
    assert (fed + [lent])[..|fed|] == fed;
    DecodeOne(env, fed, lent);
    CopyOne(env, fed, lent);
    SameStates(env, fed);
    var d, c := Decode(env, fed), DecodeCopies(env, fed);
    var r := env.recv(d.h, Pool.Chunk(lent));
    LikeSize(d.raws, c.events);
    ResolveAdd(d.raws, r.raws, lent.buf);
    SameFront(Resolve(d.raws, lent.buf), c.events, Resolve(r.raws, lent.buf));
    SameLast(d.batches, Resolve(d.raws + r.raws, lent.buf), c.batches, c.events + Resolve(r.raws, lent.buf));
  }

  lemma SameFront(a: seq<Event>, b: seq<Event>, c: seq<Event>)
    requires |a| == |b|
    ensures a + c == b + c <==> a == b
  {
    assert (a + c)[..|a|] == a && (b + c)[..|b|] == b;
  }

  lemma SameLast(a: seq<seq<Event>>, x: seq<Event>, b: seq<seq<Event>>, y: seq<Event>)
    requires |a| == |b|
    ensures a + [x] == b + [y] <==> a == b && x == y
  {
    assert (a + [x])[..|a|] == a && (b + [y])[..|b|] == b;
    assert (a + [x])[|a|] == x && (b + [y])[|b|] == y;
  }

  // ----- In terms of the buffer

  /** Read number `j` succeeds. */
  predicate Succeeds<H>(env: Env<H>, fed: seq<Pool.Lent>, j: nat)
    requires j < |fed|
  {
    env.recv(Decode(env, fed[..j]).h, Pool.Chunk(fed[j])).ok
  }

  /** What read number `j` emits. */
  function Emitted<H>(env: Env<H>, fed: seq<Pool.Lent>, j: nat): seq<Raw>
    requires j < |fed|
  {
    env.recv(Decode(env, fed[..j]).h, Pool.Chunk(fed[j])).raws
  }

  /** The ranges that the data events of `raws` view hold the same bytes in both buffers. */
  predicate Intact(raws: seq<Raw>, buf: seq<byte>, buf': seq<byte>) {
    forall i :: 0 <= i < |raws| && raws[i].Span? ==>
      Slice(buf', raws[i].start, raws[i].end) == Slice(buf, raws[i].start, raws[i].end)
  }

  /** Read `j` and all reads from there to the end of `fed` fail, so that its events are still in the session. */
  predicate Pending<H>(env: Env<H>, fed: seq<Pool.Lent>, j: nat) {
    j < |fed| && forall i :: j <= i < |fed| ==> !Succeeds(env, fed, i)
  }

  lemma IntactResolves(raws: seq<Raw>, buf: seq<byte>, buf': seq<byte>)
    ensures Resolve(raws, buf') == Resolve(raws, buf) <==> Intact(raws, buf, buf')
  {
    hide Slice;
    var a, b := Resolve(raws, buf), Resolve(raws, buf');
    if a == b {
      forall i | 0 <= i < |raws| && raws[i].Span?
        ensures Slice(buf', raws[i].start, raws[i].end) == Slice(buf, raws[i].start, raws[i].end)
      {
        assert a[i] == b[i];
      }
    }
  }

  lemma SucceedsBefore<H>(env: Env<H>, fed: seq<Pool.Lent>, lent: Pool.Lent, j: nat)
    requires j < |fed|
    ensures Succeeds(env, fed + [lent], j) == Succeeds(env, fed, j)
    ensures Emitted(env, fed + [lent], j) == Emitted(env, fed, j)
  {
    hide Decode;
    assert (fed + [lent])[..j] == fed[..j] && (fed + [lent])[j] == fed[j];
  }

  lemma PendingOne<H>(env: Env<H>, fed: seq<Pool.Lent>, lent: Pool.Lent, j: nat)
    ensures Pending(env, fed + [lent], j) <==>
            !Succeeds(env, fed + [lent], |fed|) && (j == |fed| || Pending(env, fed, j))
  {
    hide Succeeds;
    var all := fed + [lent];
    forall i | 0 <= i < |fed|
      ensures Succeeds(env, all, i) == Succeeds(env, fed, i)
    {
      SucceedsBefore(env, fed, lent, i);
    }
    if Pending(env, all, j) {
      assert !Succeeds(env, all, |fed|);
    }
  }

  /** The events in the session show what arrived exactly if the buffer still holds it where they look. */
  ghost predicate AllIntact<H>(env: Env<H>, fed: seq<Pool.Lent>, buf: seq<byte>) {
    forall j: nat :: Pending(env, fed, j) ==> Intact(Emitted(env, fed, j), fed[j].buf, buf)
  }

  lemma AllIntactOne<H>(env: Env<H>, fed: seq<Pool.Lent>, lent: Pool.Lent, buf: seq<byte>)
    ensures var all := fed + [lent];
            AllIntact(env, all, buf) <==>
            (Succeeds(env, all, |fed|) || (AllIntact(env, fed, buf) && Intact(Emitted(env, all, |fed|), lent.buf, buf)))
  {
    hide Succeeds, Emitted, Intact, Pending;
    var all := fed + [lent];
    forall j: nat
      ensures Pending(env, all, j) <==> !Succeeds(env, all, |fed|) && (j == |fed| || Pending(env, fed, j))
      ensures Pending(env, fed, j) ==> j < |fed| && all[j] == fed[j] && Emitted(env, all, j) == Emitted(env, fed, j)
    {
      PendingOne(env, fed, lent, j);
      assert Pending(env, fed, j) ==> j < |fed| by { PendingRange(env, fed, j); }
      if j < |fed| {
        SucceedsBefore(env, fed, lent, j);
      }
    }
    assert all[|fed|] == lent;
  }

  lemma PendingRange<H>(env: Env<H>, fed: seq<Pool.Lent>, j: nat)
    ensures Pending(env, fed, j) ==> j < |fed|
  {
  }

  lemma HeldOne<H>(env: Env<H>, fed: seq<Pool.Lent>, lent: Pool.Lent, buf: seq<byte>)
    requires Resolve(Decode(env, fed).raws, buf) == DecodeCopies(env, fed).events <==> AllIntact(env, fed, buf)
    ensures Resolve(Decode(env, fed + [lent]).raws, buf) == DecodeCopies(env, fed + [lent]).events
            <==> AllIntact(env, fed + [lent], buf)
  {
    hide Decode, DecodeCopies, Resolve, Closings, Intact, AllIntact, Like;
    var all := fed + [lent];
    assert all[..|fed|] == fed && all[|fed|] == lent;
    DecodeOne(env, fed, lent);
    CopyOne(env, fed, lent);
    SameStates(env, fed);
    AllIntactOne(env, fed, lent, buf);
    var d, c := Decode(env, fed), DecodeCopies(env, fed);
    var r := env.recv(d.h, Pool.Chunk(lent));
    if r.ok {
      LikeAdd(d.raws, c.events, r.raws, lent.buf);
      SameClosings(d.raws + r.raws, c.events + Resolve(r.raws, lent.buf), lent.buf);
      WholeResolves(Closings(c.events + Resolve(r.raws, lent.buf)), buf, []);
    } else {
      ResolveAdd(d.raws, r.raws, buf);
      IntactResolves(r.raws, lent.buf, buf);
      assert |Resolve(d.raws, buf)| == |c.events| by { LikeSize(d.raws, c.events); }
      SameParts(Resolve(d.raws, buf), Resolve(r.raws, buf), c.events, Resolve(r.raws, lent.buf));
    }
  }

  lemma LikeSize(raws: seq<Raw>, events: seq<Event>)
    requires Like(raws, events)
    ensures |raws| == |events|
  {
  }

  /** Closings look at no buffer. */
  lemma WholeResolves(raws: seq<Raw>, buf: seq<byte>, buf': seq<byte>)
    requires forall i :: 0 <= i < |raws| ==> raws[i].Whole?
    ensures Resolve(raws, buf) == Resolve(raws, buf')
  {
  }

  lemma SameParts(a: seq<Event>, b: seq<Event>, c: seq<Event>, d: seq<Event>)
    requires |a| == |c|
    ensures a + b == c + d <==> a == c && b == d
  {
    assert (a + b)[..|a|] == a && (a + b)[|a|..] == b;
    assert (c + d)[..|c|] == c && (c + d)[|c|..] == d;
  }

  lemma NothingPending<H>(env: Env<H>, buf: seq<byte>)
    ensures AllIntact(env, [], buf) && Resolve([], buf) == []
  {
  }

  lemma {:induction false} HeldIntact<H>(env: Env<H>, fed: seq<Pool.Lent>, buf: seq<byte>)
    ensures Resolve(Decode(env, fed).raws, buf) == DecodeCopies(env, fed).events <==> AllIntact(env, fed, buf)
  {
    hide Decode, DecodeCopies, AllIntact, Resolve;
    if fed == [] {
      NothingDecoded(env);
      NothingPending(env, buf);
    } else {
      var init, last := fed[..|fed| - 1], fed[|fed| - 1];
      HeldIntact(env, init, buf);
      HeldOne(env, init, last, buf);
      assert init + [last] == fed;
    }
  }

  /** Reads `j` to `k - 1` fail and read `k` succeeds: it is read `k` that hands out what read `j` emitted. */
  predicate HandsOut<H>(env: Env<H>, fed: seq<Pool.Lent>, j: nat, k: nat) {
    j < k < |fed| && (forall i :: j <= i < k ==> !Succeeds(env, fed, i)) && Succeeds(env, fed, k)
  }

  /** At read `k` the buffer holds what it held at read `j` wherever a data event emitted there looks. */
  predicate IntactAt<H>(env: Env<H>, fed: seq<Pool.Lent>, j: nat, k: nat) {
    j < |fed| && k < |fed| && Intact(Emitted(env, fed, j), fed[j].buf, fed[k].buf)
  }

  /** Whenever a read hands out what an earlier one emitted, the buffer still holds the bytes that are viewed. */
  ghost predicate Unharmed<H>(env: Env<H>, fed: seq<Pool.Lent>) {
    forall j: nat, k: nat :: HandsOut(env, fed, j, k) ==> IntactAt(env, fed, j, k)
  }

  lemma ShownAt<H>(env: Env<H>, fed: seq<Pool.Lent>, k: nat)
    requires k < |fed|
    ensures HeldShown(env, fed, k) <==> forall j: nat :: HandsOut(env, fed, j, k) ==> IntactAt(env, fed, j, k)
  {
    hide Decode, DecodeCopies, Resolve, Intact;
    HeldIntact(env, fed[..k], fed[k].buf);
    forall j: nat | j < k
      ensures Succeeds(env, fed[..k], j) == Succeeds(env, fed, j)
      ensures Emitted(env, fed[..k], j) == Emitted(env, fed, j) && fed[..k][j] == fed[j]
    {
      assert fed[..k][..j] == fed[..j];
    }
    hide Succeeds, Emitted;
    forall j: nat
      ensures HandsOut(env, fed, j, k) <==> Pending(env, fed[..k], j) && Succeeds(env, fed, k)
    {
    }
    assert HeldShown(env, fed, k) <==> (Succeeds(env, fed, k) ==> AllIntact(env, fed[..k], fed[k].buf)) by {
      ShownMeans(env, fed, k);
    }
  }

  lemma ShownMeans<H>(env: Env<H>, fed: seq<Pool.Lent>, k: nat)
    requires k < |fed|
    requires Resolve(Decode(env, fed[..k]).raws, fed[k].buf) == DecodeCopies(env, fed[..k]).events
             <==> AllIntact(env, fed[..k], fed[k].buf)
    ensures HeldShown(env, fed, k) <==> (Succeeds(env, fed, k) ==> AllIntact(env, fed[..k], fed[k].buf))
  {
    hide Decode, DecodeCopies, AllIntact;
  }

  /**
   * The connection is shown the bytes as they arrived exactly if, whenever a read hands out what an earlier,
   * failed one emitted, the buffer it was lent holds the same bytes as then wherever a data event looks.
   */
  lemma StaleExactly<H>(env: Env<H>, fed: seq<Pool.Lent>)
    ensures Decode(env, fed).batches == DecodeCopies(env, fed).batches <==> Unharmed(env, fed)
  {
    hide Decode, DecodeCopies, HandsOut, IntactAt, HeldShown;
    ViewsExact(env, fed);
    if Unharmed(env, fed) {
      forall k: nat | k < |fed|
        ensures HeldShown(env, fed, k)
      {
        ShownAt(env, fed, k);
      }
    }
    if forall k :: 0 <= k < |fed| ==> HeldShown(env, fed, k) {
      forall j: nat, k: nat | HandsOut(env, fed, j, k)
        ensures IntactAt(env, fed, j, k)
      {
        HandsOutRange(env, fed, j, k);
        assert HeldShown(env, fed, k);
        ShownAt(env, fed, k);
      }
    }
  }

  lemma HandsOutRange<H>(env: Env<H>, fed: seq<Pool.Lent>, j: nat, k: nat)
    ensures HandsOut(env, fed, j, k) ==> j < k < |fed|
  {
  }

  // ----- On a run

  /** A chunk put at the start of the buffer leaves alone what is behind its end. */
  lemma OverwriteKeeps(buf: seq<byte>, data: seq<byte>, start: nat, end: nat)
    requires |data| <= start && |data| <= |buf|
    ensures Slice(Pool.Overwrite(buf, data), start, end) == Slice(buf, start, end)
  {
  }

  lemma ChainedAt(fed: seq<Pool.Lent>, k: nat)
    requires Chained(fed) && 0 < k < |fed|
    ensures fed[k].buf == Pool.Overwrite(fed[k - 1].buf, Pool.Chunk(fed[k]))
    ensures |Pool.Chunk(fed[k])| == fed[k].size <= |fed[k - 1].buf|
  {
    hide Pool.Overwrite;
    assert fed[..k][k - 1] == fed[k - 1];
    assert fed[k - 1].size <= |fed[k - 1].buf|;
  }

  /** What lies behind all chunks that arrived after read `j` is still there at read `k`. */
  lemma {:induction false} BehindKept(fed: seq<Pool.Lent>, j: nat, k: nat, start: nat, end: nat)
    requires Chained(fed) && j <= k < |fed|
    requires forall i :: j < i <= k ==> fed[i].size <= start
    ensures Slice(fed[k].buf, start, end) == Slice(fed[j].buf, start, end)
    decreases k - j
  {
    hide Chained, Slice, Pool.Overwrite, Pool.Chunk;
    if j < k {
      BehindKept(fed, j, k - 1, start, end);
      ChainedAt(fed, k);
      OverwriteKeeps(fed[k - 1].buf, Pool.Chunk(fed[k]), start, end);
    }
  }

  /** No chunk after read `j`, up to the read that hands out what it emitted, reaches into what its events view. */
  ghost predicate OutOfReach<H>(env: Env<H>, fed: seq<Pool.Lent>) {
    forall j: nat, k: nat, i: nat, e: nat ::
      HandsOut(env, fed, j, k) && j < i <= k && e < |Emitted(env, fed, j)| && Emitted(env, fed, j)[e].Span? ==>
        fed[i].size <= Emitted(env, fed, j)[e].start
  }

  lemma OutOfReachUnharmed<H>(env: Env<H>, fed: seq<Pool.Lent>)
    requires OutOfReach(env, fed) && Chained(fed)
    ensures Unharmed(env, fed)
  {
    hide HandsOut, Emitted, Chained, Slice;
    forall j: nat, k: nat | HandsOut(env, fed, j, k)
      ensures IntactAt(env, fed, j, k)
    {
      HandsOutRange(env, fed, j, k);
      var raws := Emitted(env, fed, j);
      forall e | 0 <= e < |raws| && raws[e].Span?
        ensures Slice(fed[k].buf, raws[e].start, raws[e].end) == Slice(fed[j].buf, raws[e].start, raws[e].end)
      {
        BehindKept(fed, j, k, raws[e].start, raws[e].end);
      }
    }
  }

  /**
   * On every run, the batches a connection demultiplexes are the bytes as they arrived exactly if the buffer
   * stays unharmed; and it does if later chunks are too short to reach what kept events view.
   */
  lemma StaleOnRuns<H>(env: Env<H>, n: nat, s: Pool.State<Core<H>>, c: nat)
    requires Pool.Reachable(Serve(env), n, s) && c in s.conns
    ensures var fed := s.conns[c].fed;
            && (Decode(env, fed).batches == DecodeCopies(env, fed).batches <==> Unharmed(env, fed))
            && (OutOfReach(env, fed) ==> Decode(env, fed).batches == DecodeCopies(env, fed).batches)
  {
    hide Pool.Reachable, Serve, Decode, DecodeCopies, Chained, Unharmed, OutOfReach;
    var fed := s.conns[c].fed;
    StaleExactly(env, fed);
    BufferChained(Serve(env), n, s, c);
    if OutOfReach(env, fed) {
      OutOfReachUnharmed(env, fed);
    }
  }

  /** No data event is left in the session after any read. */
  ghost predicate NoneHeld<H>(env: Env<H>, fed: seq<Pool.Lent>) {
    forall k :: 0 <= k <= |fed| ==> AllWhole(Decode(env, fed[..k]).raws)
  }

  predicate AllWhole(raws: seq<Raw>) {
    forall i :: 0 <= i < |raws| ==> raws[i].Whole?
  }

  /** In particular, runs in which no error comes with data events already emitted read what arrived. */
  lemma NoneHeldNoneStale<H>(env: Env<H>, fed: seq<Pool.Lent>)
    requires NoneHeld(env, fed)
    ensures Decode(env, fed).batches == DecodeCopies(env, fed).batches
  {
    hide Decode, DecodeCopies, Resolve;
    forall k | 0 <= k < |fed|
      ensures HeldShown(env, fed, k)
    {
      SameStates(env, fed[..k]);
      assert AllWhole(Decode(env, fed[..k]).raws);
      assert Resolve(Decode(env, fed[..k]).raws, fed[k].buf) == DecodeCopies(env, fed[..k]).events;
    }
    ViewsExact(env, fed);
  }

  // ----- A stale view

  /** A session whose first read emits one byte of data and fails, and whose later reads succeed. */
  function FailsFirst(services: map<string, Handler>): Env<bool> {
    Env(Signed, false, [], (failed, bytes) => Recv(true, if failed then [] else [Span(1, 0, 1)], [], failed), services)
  }

  /** There, the connection is shown the byte of the second read as the data of the first. */
  lemma StaleView(services: map<string, Handler>)
    ensures var env, fed := FailsFirst(services), [Pool.Lent([7], 1, []), Pool.Lent([9], 1, [])];
            && Decode(env, fed).batches == [[Data(1, [9])]]
            && DecodeCopies(env, fed).batches == [[Data(1, [7])]]
  {
    hide Decode, DecodeCopies, Closings, Resolve;
    var env := FailsFirst(services);
    var first, second := Pool.Lent([7], 1, []), Pool.Lent([9], 1, []);
    assert [] + [first] == [first] && [first] + [second] == [first, second];
    NothingDecoded(env);
    DecodeOne(env, [], first);
    CopyOne(env, [], first);
    assert [] + [Span(1, 0, 1)] == [Span(1, 0, 1)];
    ShownByte(7);
    assert Decode(env, [first]) == Decoded(true, [Span(1, 0, 1)], []);
    assert DecodeCopies(env, [first]) == Copied(true, [Data(1, [7])], []);
    DecodeOne(env, [first], second);
    CopyOne(env, [first], second);
    assert [Span(1, 0, 1)] + [] == [Span(1, 0, 1)];
    ShownByte(9);
  }

  lemma NothingDecoded<H>(env: Env<H>)
    ensures Decode(env, []) == Decoded(env.h2, [], []) && DecodeCopies(env, []) == Copied(env.h2, [], [])
  {
  }

  lemma CopyOne<H>(env: Env<H>, fed: seq<Pool.Lent>, lent: Pool.Lent)
    ensures var c := DecodeCopies(env, fed);
            var r := env.recv(c.h, Pool.Chunk(lent));
            var batch := c.events + Resolve(r.raws, lent.buf);
            DecodeCopies(env, fed + [lent]) ==
            if r.ok then Copied(r.h, Resolve(Closings(batch), []), c.batches + [batch])
            else Copied(r.h, batch, c.batches)
  {
    hide Resolve, Closings;
    assert (fed + [lent])[..|fed|] == fed;
  }

  lemma ShownByte(b: byte)
    ensures Resolve([Span(1, 0, 1)], [b]) == [Data(1, [b])] && Resolve([], [b]) == []
    ensures [] + Resolve([Span(1, 0, 1)], [b]) == [Data(1, [b])] && [Data(1, [b])] + [] == [Data(1, [b])]
  {
    assert [b][0..1] == [b];
  }
}
