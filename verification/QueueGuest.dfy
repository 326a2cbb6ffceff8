/**
 * The driver's half of the queued transport (guest/include/dg-gl-queue.h):
 * what Publish, Reap and Lose do to DG_GL_QUEUE and to the shared page.
 */
module QueueGuest {
  import opened Words
  import opened FaultTable

  const DEPTH: nat := 16
  const QUEUE_ACTIVE: u32 := 1
  const STATUS_DONE: u32 := 2
  const STATUS_ERROR: u32 := 4
  const ERROR_TRANSPORT: u32 := 7
  const ERROR_GENERATION: u32 := 8

  datatype Option<T> = None | Some(value: T)

  /** The guest words of a ring entry. */
  datatype Request = Request(
    Address: u32, Bytes: u32, Sequence: u32, Generation: u32, Client: u32, Stream: u32,
    ResultAddress: u32, ResultCapacity: u32)

  /** The device words of a ring entry. */
  datatype Outcome = Outcome(Status: u32, Error: u32, ResultBytes: u32, ResultType: u32)

  datatype RingEntry = RingEntry(request: Request, outcome: Outcome)

  datatype Owner = Owner(Token: u32, Stream: u32, Sequence: u32, Async: bool)

  /** The fields of DG_GL_QUEUE that change during a session. */
  datatype Guest = Guest(Active: bool, Produced: u32, Reaped: u32, Owners: seq<Owner>, Faults: seq<Fault>)

  ghost predicate Shaped(g: Guest) {
    |g.Owners| == DEPTH && |g.Faults| == FAULTS
  }

  /** `status & bit`. */
  function Has(status: u32, bit: u32): bool
    requires bit > 0
  {
    status / bit % 2 == 1
  }

  /** DgGlQueueReached: a signed wrapping comparison. */
  function Reached(a: u32, b: u32): bool {
    Sub32(a, b) < HALF
  }

  /** Within half the counters' range it is the comparison of the unbounded counts. */
  lemma ReachedIsComparison(a: int, b: int)
    requires -HALF <= a - b < HALF
    ensures Reached(a % WORD, b % WORD) <==> a >= b
  {
    assert Sub32(a % WORD, b % WORD) == (a - b) % WORD;
  }

  /** What settling an entry adds to the fault table. */
  function Report(o: Owner, r: Outcome): seq<Event> {
    if o.Async && Has(r.Status, STATUS_ERROR) then [Failed(o.Token, o.Stream, r.Error, o.Sequence)] else []
  }

  /** The outcome Lose gives an entry that will never complete. */
  const LOST := Outcome(STATUS_ERROR, ERROR_GENERATION, 0, 0)

  function ReapTo(g: Guest, ring: seq<RingEntry>, completed: u32): (r: Guest)
    requires Shaped(g) && |ring| == DEPTH
    ensures Shaped(r)
    decreases Sub32(completed, g.Reaped)
  {
    if g.Reaped == completed then g
    else
      var slot := g.Reaped % DEPTH;
      ReapTo(g.(Faults := Play(g.Faults, Report(g.Owners[slot], ring[slot].outcome)), Reaped := Add32(g.Reaped, 1)),
             ring, completed)
  }

  /** A device counter ahead of the published one is a lie. */
  function Trusted(g: Guest, completed: u32): u32 {
    if Sub32(completed, g.Reaped) > Sub32(g.Produced, g.Reaped) then g.Produced else completed
  }

  function LostFaults(g: Guest, i: u32): (f: seq<Fault>)
    requires Shaped(g)
    ensures |f| == FAULTS
    decreases Sub32(i, g.Reaped)
  {
    if i == g.Reaped then g.Faults
    else Play(LostFaults(g, Sub32(i, 1)), Report(g.Owners[Sub32(i, 1) % DEPTH], LOST))
  }

  function LoseGuest(g: Guest): (r: Guest)
    requires Shaped(g)
    ensures Shaped(r)
  {
    g.(Faults := LostFaults(g, g.Produced), Reaped := g.Produced, Active := false)
  }

  /** DgGlQueueReap with what it reads from the page. */
  function ReapGuest(g: Guest, current: bool, completed: u32, ring: seq<RingEntry>): (r: Guest)
    requires Shaped(g) && |ring| == DEPTH
    ensures Shaped(r)
  {
    if g.Active && current then ReapTo(g, ring, Trusted(g, completed))
    else if g.Active then LoseGuest(g)
    else g
  }

  lemma Advance(i: u32, from: u32, to: u32)
    ensures Sub32(Add32(i, 1), 1) == i && Sub32(i, i) == 0
    ensures i != to ==> Sub32(to, Add32(i, 1)) == Sub32(to, i) - 1
    ensures i != to && Sub32(i, from) <= Sub32(to, from) ==> Sub32(Add32(i, 1), from) == Sub32(i, from) + 1 <= Sub32(to, from)
    ensures Sub32(i, from) == 0 ==> i == from
  {
    hide Add32, Sub32;
    Successor(i);
    OneNearer(i, to);
    OneFurther(i, from, to);
  }

  lemma Successor(i: u32)
    ensures Sub32(Add32(i, 1), 1) == i && Sub32(i, i) == 0
  {
  }

  lemma OneNearer(i: u32, to: u32)
    ensures i != to ==> Sub32(to, Add32(i, 1)) == Sub32(to, i) - 1
  {
  }

  lemma OneFurther(i: u32, from: u32, to: u32)
    ensures Sub32(i, from) == 0 ==> i == from
    ensures i != to && Sub32(i, from) <= Sub32(to, from) ==> Sub32(Add32(i, 1), from) == Sub32(i, from) + 1 <= Sub32(to, from)
  {
    Difference(i, from);
    Difference(to, from);
    Difference(Add32(i, 1), from);
  }

  lemma Difference(a: u32, b: u32)
    ensures Sub32(a, b) == if a >= b then a - b else a - b + WORD
  {
  }

  lemma PlayOne(f: seq<Fault>, e: Event)
    ensures Play(f, [e]) == Apply(f, e) && Play(f, []) == f
  {
    assert [e][..0] == [];
  }

  /** The 4 KiB page the driver and the device share. */
  class SharedPage {
    var State: u32
    var Generation: u32
    var Consumed: u32
    var Completed: u32
    var Produced: u32
    const Ring: array<RingEntry>

    constructor (ring: array<RingEntry>)
      requires ring.Length == DEPTH
      ensures Ring == ring
    {
      Ring := ring;
    }
  }

  class GlQueue {
    const page: SharedPage
    const Owners: array<Owner>
    const Faults: array<Fault>
    const Buffers: seq<u32>
    var Active: bool
    var Generation: u32
    var Produced: u32
    var Reaped: u32

    ghost predicate Valid()
      reads this
    {
      Owners.Length == DEPTH && Faults.Length == FAULTS && page.Ring.Length == DEPTH && |Buffers| > 0
    }

    ghost function Value(): Guest
      reads this, Owners, Faults
    {
      Guest(Active, Produced, Reaped, Owners[..], Faults[..])
    }

    constructor (page: SharedPage, buffers: seq<u32>)
      requires page.Ring.Length == DEPTH && |buffers| > 0
      ensures Valid() && this.page == page && Buffers == buffers && fresh(Owners) && fresh(Faults)
      ensures !Active && Faults[..] == EmptyTable()
    {
      this.page, Buffers := page, buffers;
      Owners := new Owner[DEPTH](_ => Owner(0, 0, 0, false));
      Faults := new Fault[FAULTS](_ => Fault(0, 0, 0, 0));
      Active, Generation, Produced, Reaped := false, 0, 0, 0;
      new;
      assert Faults[..] == EmptyTable();
    }

    predicate Current()
      reads this, page
    {
      Active && page.State == QUEUE_ACTIVE && page.Generation == Generation
    }

    /** DgGlQueueAddFault. */
    method AddFault(token: u32, stream: u32, error: u32, sequence: u32)
      requires Valid()
      modifies Faults
      ensures Faults[..] == FaultTable.AddFault(old(Faults[..]), token, stream, error, sequence)
    {
      ghost var f := Faults[..];
      var free: nat := FAULTS;
      if token == 0 || stream == 0 {
        return;
      }
      var i: nat := 0;
      while i < FAULTS
        invariant i <= FAULTS && free <= FAULTS
        invariant FirstMatch(f, token, stream, 0) == FirstMatch(f, token, stream, i)
        invariant if free < FAULTS then free == FirstMatch(f, 0, 0, 0)
                  else FirstMatch(f, 0, 0, 0) == FirstMatch(f, 0, 0, i)
      {
        if Faults[i].Token == token && Faults[i].Stream == stream {
          return;
        }
        if Faults[i].Token == 0 && free == FAULTS {
          free := i;
        }
        i := i + 1;
      }
      if free == FAULTS {
        return;
      }
      Faults[free] := Fault(token, stream, error, sequence);
    }

    /** DgGlQueueTakeFault (stream zero: any stream). */
    method TakeFault(token: u32, stream: u32) returns (fault: Option<Fault>)
      requires Valid()
      modifies Faults
      ensures Faults[..] == FaultTable.TakeFault(old(Faults[..]), token, stream)
      ensures fault == var i := TakenIndex(old(Faults[..]), token, stream);
                       if i == FAULTS then None else Some(old(Faults[..])[i])
    {
      ghost var f := Faults[..];
      if token == 0 {
        return None;
      }
      for i := 0 to FAULTS
        invariant Faults[..] == f && FirstMatch(f, token, stream, 0) == FirstMatch(f, token, stream, i)
      {
        if Faults[i].Token == token && (stream == 0 || Faults[i].Stream == stream) {
          fault := Some(Faults[i]);
          Faults[i] := Faults[i].(Token := 0, Stream := 0);
          return;
        }
      }
      return None;
    }

    method DropClient(token: u32)
      requires Valid()
      modifies Faults
      ensures Faults[..] == FaultTable.DropClient(old(Faults[..]), token)
    {
      for i := 0 to FAULTS
        invariant forall j :: 0 <= j < i ==> Faults[j] == FaultTable.DropClient(old(Faults[..]), token)[j]
        invariant forall j :: i <= j < FAULTS ==> Faults[j] == old(Faults[..])[j]
      {
        if Faults[i].Token == token {
          Faults[i] := Faults[i].(Token := 0, Stream := 0);
        }
      }
    }

    /** After an engine reset nothing outstanding can finish, so it has failed. */
    method Lose()
      requires Valid()
      modifies this, Faults
      ensures Value() == LoseGuest(old(Value())) && Generation == old(Generation)
    {
      hide Sub32, Add32, FaultTable.AddFault;
      ghost var g := Value();
      var i: u32 := Reaped;
      Advance(i, i, Produced);
      while i != Produced
        invariant Sub32(i, Reaped) <= Sub32(Produced, Reaped)
        invariant Value() == g.(Faults := LostFaults(g, i)) && Generation == old(Generation)
        decreases Sub32(Produced, i)
      {
        var o := Owners[i % DEPTH];
        Advance(i, Reaped, Produced);
        PlayOne(Faults[..], Failed(o.Token, o.Stream, ERROR_GENERATION, o.Sequence));
        if o.Async {
          AddFault(o.Token, o.Stream, ERROR_GENERATION, o.Sequence);
        }
        i := Add32(i, 1);
      }
      Reaped := Produced;
      Active := false;
    }

    /** Settle what the device has finished since this was last called. */
    method Reap()
      requires Valid()
      modifies this, Faults
      ensures Value() == ReapGuest(old(Value()), old(Active) && page.State == QUEUE_ACTIVE && page.Generation == Generation, page.Completed, page.Ring[..])
      ensures Generation == old(Generation)
    {
      hide Sub32, Add32, FaultTable.AddFault;
      if !Current() {
        if Active {
          Lose();
        }
        return;
      }
      ghost var g := Value();
      var completed := page.Completed;
      if Sub32(completed, Reaped) > Sub32(Produced, Reaped) {
        completed := Produced;
      }
      while Reaped != completed
        invariant Valid() && Generation == old(Generation) && Shaped(Value())
        invariant ReapTo(g, page.Ring[..], completed) == ReapTo(Value(), page.Ring[..], completed)
        decreases Sub32(completed, Reaped)
      {
        Advance(Reaped, Reaped, completed);
        var o := Owners[Reaped % DEPTH];
        var r := page.Ring[Reaped % DEPTH].outcome;
        PlayOne(Faults[..], Failed(o.Token, o.Stream, r.Error, o.Sequence));
        if o.Async && Has(r.Status, STATUS_ERROR) {
          AddFault(o.Token, o.Stream, r.Error, o.Sequence);
        }
        Reaped := Add32(Reaped, 1);
      }
    }

    /** Fill the next entry, then count and announce it. Returns the entry index. */
    method Publish(bytes: u32, sequence: u32, generation: u32, token: u32, stream: u32,
                   resultAddress: u32, resultCapacity: u32, async: bool) returns (index: u32)
      requires Valid()
      modifies this, Owners, page, page.Ring
      ensures index == old(Produced)
      ensures var slot := index % DEPTH;
              && Value() == old(Value()).(Produced := Add32(index, 1),
                   Owners := old(Owners[..])[slot := Owner(token, stream, sequence, async)])
              && page.Ring[..] == old(page.Ring[..])[slot := Filled(old(page.Ring[slot]),
                   RequestOf(Buffers[index % |Buffers|], bytes, sequence, generation, token, stream,
                             resultAddress, resultCapacity))]
      ensures var e, was := page.Ring[index % DEPTH], old(page.Ring[index % DEPTH]);
              && e.request.Address == Buffers[index % |Buffers|] && e.request.Bytes == bytes && e.request.Sequence == sequence
              && e.request.Generation == generation && e.request.ResultAddress == resultAddress && e.request.ResultCapacity == resultCapacity
              && (if token != 0 && stream != 0 then e.request.Client == token && e.request.Stream == stream
                  else e.request.Client == e.request.Stream == 0)
              && e.outcome.Status == e.outcome.Error == 0
              && e.outcome.ResultBytes == was.outcome.ResultBytes && e.outcome.ResultType == was.outcome.ResultType
      ensures page.Produced == Produced && Generation == old(Generation)
      ensures page.State == old(page.State) && page.Generation == old(page.Generation)
      ensures page.Consumed == old(page.Consumed) && page.Completed == old(page.Completed)
    {
      index := Produced;
      var slot := index % DEPTH;
      page.Ring[slot] := Filled(page.Ring[slot],
        RequestOf(Buffers[index % |Buffers|], bytes, sequence, generation, token, stream,
                  resultAddress, resultCapacity));
      Owners[slot] := Owner(token, stream, sequence, async);
      Produced := Add32(index, 1);
      page.Produced := Produced;
    }
  }

  /** The guest words of an entry; a fault domain needs both a token and a stream. */
  function RequestOf(address: u32, bytes: u32, sequence: u32, generation: u32, token: u32, stream: u32,
                     resultAddress: u32, resultCapacity: u32): Request {
    Request(address, bytes, sequence, generation, if stream != 0 then token else 0,
            if token != 0 then stream else 0, resultAddress, resultCapacity)
  }

  /** Publishing clears STATUS and ERROR of the slot it refills. */
  function Filled(e: RingEntry, request: Request): RingEntry {
    RingEntry(request, e.outcome.(Status := 0, Error := 0))
  }
}
