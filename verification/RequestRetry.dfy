/**
 * A DEFERRED reply stands for a failure of an earlier batch, and means that the
 * request did not run: the frontend reports the failure to its context and
 * repeats the request (guest/opengl/frontend.cpp, lines 311-351), against the
 * driver's submission (guest/nt/miniport/transport.cpp, lines 1475-1549).
 */
module RequestRetry {
  import opened Words
  import opened FaultTable
  import opened QueueGuest

  const ERROR_SKIPPED: u32 := 12

  /** DG_ESCAPE_DEFERRED with the failed stream, DG_ESCAPE_HOST with the device error, or any other status. */
  datatype Reply = Deferred(stream: u32) | Host(error: u32) | Other(status: u32)

  /** The device words of the page as a reap finds them. */
  datatype View = View(State: u32, Generation: u32, Completed: u32, outcomes: seq<Outcome>)

  /** One try of a request: the page before it, the page at each reap while it executes, and what executing it answers. */
  datatype Try = Try(before: View, during: seq<View>, served: Reply)

  predicate ValidTry(a: Try) {
    |a.before.outcomes| == DEPTH && !a.served.Deferred? && forall i :: 0 <= i < |a.during| ==> |a.during[i].outcomes| == DEPTH
  }

  /** Failures that can still be reported: held ones and those of unreaped asynchronous entries. */
  function Pending(g: Guest): nat
    requires Shaped(g)
  {
    HeldCount(g.Faults) + AsyncCount(g, g.Reaped)
  }

  function HeldCount(f: seq<Fault>): nat {
    if f == [] then 0 else HeldCount(f[..|f| - 1]) + if f[|f| - 1].Token != 0 then 1 else 0
  }

  /** Asynchronous entries among i..Produced-1. */
  function AsyncCount(g: Guest, i: u32): nat
    requires Shaped(g)
    decreases Sub32(g.Produced, i)
  {
    if i == g.Produced then 0
    else (if g.Owners[i % DEPTH].Async then 1 else 0) + AsyncCount(g, Add32(i, 1))
  }

  lemma {:induction false} HeldCountUpdate(f: seq<Fault>, i: nat, x: Fault)
    requires i < |f|
    ensures HeldCount(f[i := x]) == HeldCount(f) - (if f[i].Token != 0 then 1 else 0) + (if x.Token != 0 then 1 else 0)
  {
    var n := |f| - 1;
    if i == n {
      assert f[i := x][..n] == f[..n];
    } else {
      HeldCountUpdate(f[..n], i, x);
      assert f[i := x][..n] == f[..n][i := x];
    }
  }

  lemma ReportAddsOne(f: seq<Fault>, o: Owner, r: Outcome)
    ensures HeldCount(Play(f, Report(o, r))) <= HeldCount(f) + if o.Async then 1 else 0
  {
    hide HeldCount;
    var one := Failed(o.Token, o.Stream, r.Error, o.Sequence);
    PlayOne(f, one);
    var free := FirstMatch(f, 0, 0, 0);
    if free < |f| {
      HeldCountUpdate(f, free, Fault(o.Token, o.Stream, r.Error, o.Sequence));
    }
  }

  /** A reap moves failures from the ring to the table and creates none. */
  lemma {:induction false} ReapToKeepsPending(g: Guest, ring: seq<RingEntry>, completed: u32)
    requires Shaped(g) && |ring| == DEPTH && Sub32(completed, g.Reaped) <= Sub32(g.Produced, g.Reaped)
    ensures Pending(ReapTo(g, ring, completed)) <= Pending(g)
    decreases Sub32(completed, g.Reaped)
  {
    hide HeldCount, Play, Report, Sub32, Add32;
    if g.Reaped != completed {
      var slot := g.Reaped % DEPTH;
      var g' := g.(Faults := Play(g.Faults, Report(g.Owners[slot], ring[slot].outcome)), Reaped := Add32(g.Reaped, 1));
      ReportAddsOne(g.Faults, g.Owners[slot], ring[slot].outcome);
      Shrinks(g.Reaped, completed, g.Produced);
      AsyncCountFields(g, g', g'.Reaped);
      ReapToKeepsPending(g', ring, completed);
    }
  }

  lemma Shrinks(i: u32, mid: u32, end: u32)
    requires i != mid && Sub32(mid, i) <= Sub32(end, i)
    ensures i != end
    ensures Sub32(mid, Add32(i, 1)) == Sub32(mid, i) - 1 && Sub32(end, Add32(i, 1)) == Sub32(end, i) - 1
  {
    hide Add32, Sub32;
    Advance(mid, i, i);
    Advance(end, i, i);
    Advance(i, i, mid);
    Advance(i, i, end);
  }

  lemma {:induction false} AsyncCountFields(g: Guest, h: Guest, i: u32)
    requires Shaped(g) && Shaped(h) && g.Owners == h.Owners && g.Produced == h.Produced
    ensures AsyncCount(g, i) == AsyncCount(h, i)
    decreases Sub32(g.Produced, i)
  {
    if i != g.Produced {
      AsyncCountFields(g, h, Add32(i, 1));
    }
  }

  /** Counting the same entries from the other end. */
  lemma {:induction false} LostFaultsKeepPending(g: Guest, i: u32)
    requires Shaped(g) && Sub32(i, g.Reaped) <= Sub32(g.Produced, g.Reaped)
    ensures HeldCount(LostFaults(g, i)) + AsyncCount(g, i) <= HeldCount(g.Faults) + AsyncCount(g, g.Reaped)
    decreases Sub32(i, g.Reaped)
  {
    hide HeldCount, Play, Report, Sub32, Add32;
    if i != g.Reaped {
      var j := Sub32(i, 1);
      StepsBack(i, g.Reaped, g.Produced);
      LostFaultsKeepPending(g, j);
      ReportAddsOne(LostFaults(g, j), g.Owners[j % DEPTH], LOST);
    }
  }

  lemma StepsBack(i: u32, from: u32, end: u32)
    requires i != from && Sub32(i, from) <= Sub32(end, from)
    ensures Sub32(Sub32(i, 1), from) == Sub32(i, from) - 1 && Add32(Sub32(i, 1), 1) == i && Sub32(i, 1) != end
  {
  }

  lemma ReapKeepsPending(g: Guest, current: bool, completed: u32, ring: seq<RingEntry>)
    requires Shaped(g) && |ring| == DEPTH
    ensures Pending(ReapGuest(g, current, completed, ring)) <= Pending(g)
  {
    hide HeldCount, Sub32;
    if g.Active && current {
      ReapToKeepsPending(g, ring, Trusted(g, completed));
    } else if g.Active {
      LostFaultsKeepPending(g, g.Produced);
    }
  }

  lemma TakeDropsOne(f: seq<Fault>, token: u32, stream: u32)
    ensures HeldCount(TakeFault(f, token, stream)) == HeldCount(f) - if TakenIndex(f, token, stream) < |f| then 1 else 0
  {
    var i := TakenIndex(f, token, stream);
    if i < |f| {
      HeldCountUpdate(f, i, f[i].(Token := 0, Stream := 0));
    }
  }

  // ---- One try ----

  function RingSeen(ring: seq<RingEntry>, v: View): seq<RingEntry>
    requires |ring| == |v.outcomes|
  {
    seq(|ring|, i requires 0 <= i < |ring| => ring[i].(outcome := v.outcomes[i]))
  }

  function Reaped(g: Guest, generation: u32, ring: seq<RingEntry>, v: View): (r: Guest)
    requires Shaped(g) && |ring| == |v.outcomes| == DEPTH
    ensures Shaped(r)
  {
    ReapGuest(g, g.Active && v.State == QUEUE_ACTIVE && v.Generation == generation, v.Completed, RingSeen(ring, v))
  }

  function ReapedAll(g: Guest, generation: u32, ring: seq<RingEntry>, views: seq<View>): (r: Guest)
    requires Shaped(g) && |ring| == DEPTH && forall i :: 0 <= i < |views| ==> |views[i].outcomes| == DEPTH
    ensures Shaped(r)
  {
    if views == [] then g
    else Reaped(ReapedAll(g, generation, ring, views[..|views| - 1]), generation, ring, views[|views| - 1])
  }

  /** The record in slot i was reported and is free. */
  function Reported(g: Guest, i: nat): Guest
    requires i < |g.Faults|
  {
    g.(Faults := g.Faults[i := g.Faults[i].(Token := 0, Stream := 0)])
  }

  /**
   * What a try answers and leaves: for a stream, the client's first held failure
   * instead of anything else; a request that was skipped behind a failure of
   * its own stream, that failure or the skip; otherwise what executing it answers.
   */
  ghost predicate Tried(g: Guest, generation: u32, ring: seq<RingEntry>, a: Try, token: u32, stream: u32, reply: Reply, g2: Guest)
    requires Shaped(g) && |ring| == DEPTH && ValidTry(a)
  {
    var r := Reaped(g, generation, ring, a.before);
    var i := TakenIndex(r.Faults, token, 0);
    if stream != 0 && i < |r.Faults| then reply == Deferred(r.Faults[i].Stream) && g2 == Reported(r, i)
    else
      var u := ReapedAll(r, generation, ring, a.during);
      var j := TakenIndex(u.Faults, token, stream);
      if stream == 0 || a.served != Host(ERROR_SKIPPED) then reply == a.served && g2 == u
      else if j < |u.Faults| then reply == Deferred(u.Faults[j].Stream) && g2 == Reported(u, j)
      else reply == Deferred(stream) && g2 == u
  }

  /** The page as the device has left it when it is reaped. */
  method Observe(q: GlQueue, view: View)
    requires q.Valid() && |view.outcomes| == DEPTH
    modifies q.page, q.page.Ring
    ensures q.page.State == view.State && q.page.Generation == view.Generation && q.page.Completed == view.Completed
    ensures q.page.Ring[..] == RingSeen(old(q.page.Ring[..]), view)
  {
    q.page.State, q.page.Generation, q.page.Completed := view.State, view.Generation, view.Completed;
    for i := 0 to DEPTH
      invariant q.page.State == view.State && q.page.Generation == view.Generation && q.page.Completed == view.Completed
      invariant forall k :: 0 <= k < DEPTH ==>
                  q.page.Ring[k] == if k < i then old(q.page.Ring[k]).(outcome := view.outcomes[k]) else old(q.page.Ring[k])
    {
      q.page.Ring[i] := q.page.Ring[i].(outcome := view.outcomes[i]);
    }
  }

  lemma SeenAgain(ring: seq<RingEntry>, v: View, w: View)
    requires |ring| == |v.outcomes| == |w.outcomes|
    ensures RingSeen(RingSeen(ring, v), w) == RingSeen(ring, w)
  {
  }

  /** The outcomes that a ring held before do not matter to what is read later. */
  ghost predicate SameRing(ring: seq<RingEntry>, other: seq<RingEntry>) {
    |ring| == |other| == DEPTH && forall v: View :: |v.outcomes| == DEPTH ==> RingSeen(other, v) == RingSeen(ring, v)
  }

  lemma SeenIsSame(ring: seq<RingEntry>, other: seq<RingEntry>, v: View)
    requires SameRing(ring, other) && |v.outcomes| == DEPTH
    ensures SameRing(ring, RingSeen(other, v))
  {
    forall w: View | |w.outcomes| == DEPTH
      ensures RingSeen(RingSeen(other, v), w) == RingSeen(ring, w)
    {
      SeenAgain(other, v, w);
    }
  }

  method ReapOne(q: GlQueue, view: View, ghost ring: seq<RingEntry>)
    requires q.Valid() && |view.outcomes| == DEPTH && |ring| == DEPTH && SameRing(ring, q.page.Ring[..])
    modifies q, q.Faults, q.page, q.page.Ring
    ensures q.Generation == old(q.Generation) && SameRing(ring, q.page.Ring[..])
    ensures q.Value() == Reaped(old(q.Value()), q.Generation, ring, view)
    ensures Pending(q.Value()) <= old(Pending(q.Value()))
  {
    hide HeldCount, AsyncCount, ReapGuest, SameRing;
    ghost var before := q.page.Ring[..];
    SeenIsSame(ring, before, view);
    Observe(q, view);
    SameRingSees(ring, before, view);
    ReapKeepsPending(q.Value(), q.Current(), q.page.Completed, q.page.Ring[..]);
    q.Reap();
  }

  lemma SameRingSees(ring: seq<RingEntry>, other: seq<RingEntry>, v: View)
    requires SameRing(ring, other) && |v.outcomes| == DEPTH
    ensures RingSeen(other, v) == RingSeen(ring, v)
  {
  }

  method ReapAll(q: GlQueue, views: seq<View>, ghost ring: seq<RingEntry>)
    requires q.Valid() && (forall i :: 0 <= i < |views| ==> |views[i].outcomes| == DEPTH) && |ring| == DEPTH && SameRing(ring, q.page.Ring[..])
    modifies q, q.Faults, q.page, q.page.Ring
    ensures q.Generation == old(q.Generation) && SameRing(ring, q.page.Ring[..])
    ensures q.Value() == ReapedAll(old(q.Value()), q.Generation, ring, views)
    ensures Pending(q.Value()) <= old(Pending(q.Value()))
  {
    hide HeldCount, AsyncCount, SameRing, Reaped;
    ghost var g := q.Value();
    assert views[..0] == [];
    for i := 0 to |views|
      invariant q.Generation == old(q.Generation) && SameRing(ring, q.page.Ring[..]) && q.Valid()
      invariant q.Value() == ReapedAll(g, q.Generation, ring, views[..i])
      invariant Pending(q.Value()) <= Pending(g)
    {
      assert views[..i + 1][..i] == views[..i];
      ReapOne(q, views[i], ring);
    }
    assert views[..|views|] == views;
  }

  /**
   * The driver's SUBMIT: one pending failure of the client is reported before
   * anything else runs. Executing the request reaps as well; its own entry is
   * not asynchronous, so the table hears nothing of it.
   */
  method Submit(q: GlQueue, token: u32, stream: u32, a: Try, ghost ring: seq<RingEntry>) returns (reply: Reply)
    requires q.Valid() && ValidTry(a) && |ring| == DEPTH && SameRing(ring, q.page.Ring[..])
    modifies q, q.Faults, q.page, q.page.Ring
    ensures q.Generation == old(q.Generation) && SameRing(ring, q.page.Ring[..])
    ensures Tried(old(q.Value()), q.Generation, ring, a, token, stream, reply, q.Value())
    ensures Pending(q.Value()) <= old(Pending(q.Value()))
    ensures reply.Deferred? && reply.stream != stream ==> Pending(q.Value()) < old(Pending(q.Value()))
    ensures reply.Deferred? ==> stream != 0
  {
    hide HeldCount, AsyncCount, Reaped, ReapedAll, SameRing, FirstMatch;
    ReapOne(q, a.before, ring);
    if stream != 0 {
      ghost var g := q.Value();
      TakeDropsOne(g.Faults, token, 0);
      AsyncCountFields(g, g.(Faults := TakeFault(g.Faults, token, 0)), g.Reaped);
      var fault := q.TakeFault(token, 0);
      if fault.Some? {
        return Deferred(fault.value.Stream);
      }
    }
    ReapAll(q, a.during, ring);
    if stream != 0 && a.served == Host(ERROR_SKIPPED) {
      ghost var g := q.Value();
      TakeDropsOne(g.Faults, token, stream);
      AsyncCountFields(g, g.(Faults := TakeFault(g.Faults, token, stream)), g.Reaped);
      TakenOfStream(g.Faults, token, stream);
      var fault := q.TakeFault(token, stream);
      return Deferred(if fault.Some? then fault.value.Stream else stream);
    }
    return a.served;
  }

  lemma TakenOfStream(f: seq<Fault>, token: u32, stream: u32)
    requires stream != 0
    ensures var i := TakenIndex(f, token, stream); i < |f| ==> f[i].Stream == stream
  {
  }

  /**
   * Request's retry loop. Each repetition has consumed a pending failure, so it
   * ends after at most that many, whatever the device does in between, and the
   * caller never sees another context's failure.
   */
  method Request(q: GlQueue, token: u32, stream: u32, tries: nat -> Try)
    returns (reply: Reply, reported: seq<u32>, ghost states: seq<Guest>)
    requires q.Valid() && forall k :: ValidTry(tries(k))
    modifies q, q.Faults, q.page, q.page.Ring
    ensures reply.Deferred? ==> reply.stream == stream != 0
    ensures |reported| + Pending(q.Value()) <= old(Pending(q.Value()))
    ensures stream !in reported && (stream == 0 ==> reported == [])
    ensures Repeats(states, q.Generation, old(q.page.Ring[..]), tries, token, stream, reported)
    ensures states[0] == old(q.Value())
    ensures Tried(states[|reported|], q.Generation, old(q.page.Ring[..]), tries(|reported|), token, stream, reply, q.Value())
  {
    hide HeldCount, AsyncCount, Tried, SameRing;
    ghost var ring := q.page.Ring[..];
    assert SameRing(ring, ring) by { RingIsSame(ring); }
    reported, states := [], [q.Value()];
    while true
      invariant q.Valid() && SameRing(ring, q.page.Ring[..]) && q.Generation == old(q.Generation)
      invariant |reported| + Pending(q.Value()) <= old(Pending(q.Value()))
      invariant stream !in reported && (stream == 0 ==> reported == [])
      invariant Repeats(states, q.Generation, ring, tries, token, stream, reported)
      invariant states[0] == old(q.Value()) && states[|reported|] == q.Value()
      decreases Pending(q.Value())
    {
      reply := Submit(q, token, stream, tries(|reported|), ring);
      if !reply.Deferred? || stream == 0 || reply.stream == stream {
        return;
      }
      states := states + [q.Value()];
      reported := reported + [reply.stream];
    }
  }

  lemma RingIsSame(ring: seq<RingEntry>)
    requires |ring| == DEPTH
    ensures SameRing(ring, ring)
  {
  }

  /** Each try but the last answered with another stream's failure. */
  ghost predicate Repeats(states: seq<Guest>, generation: u32, ring: seq<RingEntry>, tries: nat -> Try, token: u32, stream: u32,
                          reported: seq<u32>)
    requires |ring| == DEPTH && forall k :: ValidTry(tries(k))
  {
    && |states| == |reported| + 1 && (forall k :: 0 <= k < |states| ==> Shaped(states[k]))
    && forall k :: 0 <= k < |reported| ==>
         Tried(states[k], generation, ring, tries(k), token, stream, Deferred(reported[k]), states[k + 1])
  }
}
