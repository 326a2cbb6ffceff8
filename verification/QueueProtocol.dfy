/**
 * One enabled session of the queued transport as a state machine: the steps of
 * the driver (guest/include/dg-gl-queue.h, under its mutex) interleaved with
 * those of the device (guest/include/gl.h, lines 397-423) over one shared page.
 * Stores that the code orders with a fence become visible only at that fence.
 */
module QueueProtocol {
  import opened Words
  import opened FaultTable
  import opened QueueGuest

  datatype Counter = Consumed | Completed

  /** The order of a device thread: the counter, the fence, and only then WAIT. */
  datatype Thread = Ready | Stored | Fenced

  /** What the driver waits for: an entry slot, a command buffer, or its own entry's completion. */
  datatype Goal = Depth | Space | Entry

  datatype Result = AtTarget | TimedOut | WasReset

  /** Where DgGlQueueWaitFor stands. */
  datatype Point = Top | Hold | Prepare | Arm | Fence | Recheck | Confirm | Asleep | Disarm | LastCheck | LastHold

  datatype Batch = Batch(request: Request, owner: Owner, command: seq<u32>)

  datatype Pc =
    | Idle
    | Buffering
    | Building
    | Ringing(batch: Batch, async: bool)
    | Waiting(at: Point, goal: Goal)
    | Waited(result: Result, goal: Goal)

  /** The device's copy of an entry and its command bytes. */
  datatype Copy = Copy(request: Request, command: seq<u32>)

  datatype State = State(
    buffers: seq<seq<u32>>,
    start: seq<Fault>,
    guest: Guest,
    pc: Pc,
    irq: bool,
    // The page: STATE and GENERATION still name this session, and its words.
    live: bool,
    consumedWord: u32,
    completedWord: u32,
    producedWord: u32,
    waitFor: u32,
    waitConsumed: u32,
    waitCompleted: u32,
    ring: seq<RingEntry>,
    consumer: Thread,
    executor: Thread,
    // What has happened so far.
    published: seq<Batch>,
    received: seq<Copy>,
    outcomes: seq<Outcome>,
    settled: seq<Outcome>,
    events: seq<Event>,
    answers: seq<(nat, Outcome)>)

  /** WAIT_FOR_COMPLETED and WAIT_FOR_CONSUMED. */
  function Code(c: Counter): u32 {
    match c case Completed => 1 case Consumed => 2
  }

  function CounterOf(goal: Goal): Counter {
    if goal == Space then Consumed else Completed
  }

  function Word(s: State, c: Counter): u32 {
    match c case Completed => s.completedWord case Consumed => s.consumedWord
  }

  function WaitWord(s: State, c: Counter): u32 {
    match c case Completed => s.waitCompleted case Consumed => s.waitConsumed
  }

  function ThreadOf(s: State, c: Counter): Thread {
    match c case Completed => s.executor case Consumed => s.consumer
  }

  /** The targets WaitFor is called with, as the driver computes them. */
  function TargetWord(s: State, goal: Goal): u32 {
    match goal
    case Depth => Add32(Sub32(s.guest.Produced, DEPTH), 1)
    case Space => Add32(Sub32(s.guest.Produced, |s.buffers|), 1)
    case Entry => s.guest.Produced
  }

  function Current(s: State): bool {
    s.guest.Active && s.live
  }

  function Holds(s: State, goal: Goal): bool {
    Reached(Word(s, CounterOf(goal)), TargetWord(s, goal))
  }

  function BufferOf(n: nat, index: nat): (b: nat)
    requires n > 0
    ensures b < n
  {
    index % WORD % n
  }

  // ---- Reap ----

  function Unreaped(s: State): u32 {
    Sub32(if s.live then Trusted(s.guest, s.completedWord) else s.guest.Produced, s.guest.Reaped)
  }

  /** The outcomes a reap records: the device's, or LOST after a reset. */
  function NewlySettled(s: State): seq<Outcome>
    requires |s.ring| == DEPTH
  {
    if !s.guest.Active then []
    else seq(Unreaped(s), i requires 0 <= i => if s.live then s.ring[(s.guest.Reaped + i) % DEPTH].outcome else LOST)
  }

  /** The reports of entries from..|r|-1. */
  function Reports(b: seq<Batch>, r: seq<Outcome>, from: nat): seq<Event>
    requires from <= |r| <= |b|
  {
    if from == |r| then []
    else Reports(b, r[..|r| - 1], from) + Report(b[|r| - 1].owner, r[|r| - 1])
  }

  ghost predicate Shape(s: State) {
    Shaped(s.guest) && |s.ring| == DEPTH && |s.buffers| > 0
  }

  function DoReap(s: State): State
    requires Shape(s)
  {
    var r := s.settled + NewlySettled(s);
    s.(guest := ReapGuest(s.guest, s.live, s.completedWord, s.ring),
       settled := r,
       events := s.events + if |r| <= |s.published| then Reports(s.published, r, |s.settled|) else [])
  }

  // ---- The driver's steps ----

  function CallTake(s: State, token: u32, stream: u32): State {
    s.(guest := s.guest.(Faults := TakeFault(s.guest.Faults, token, stream)),
       events := s.events + [Taken(token, stream)])
  }

  function CallDrop(s: State, token: u32): State {
    s.(guest := s.guest.(Faults := DropClient(s.guest.Faults, token)), events := s.events + [Dropped(token)])
  }

  /** DgGlQueueBuffer up to its first wait. */
  function CallBuffer(s: State): State
    requires Shape(s)
  {
    var s := DoReap(s);
    if !s.guest.Active then s
    else if Sub32(s.guest.Produced, s.guest.Reaped) >= DEPTH then s.(pc := Waiting(Top, Depth))
    else s.(pc := Buffering)
  }

  function CheckSpace(s: State): State {
    s.(pc := if Holds(s, Space) then Building else Waiting(Top, Space))
  }

  /** One step of DgGlQueueWaitFor other than the sleep itself. */
  function WaitStep(s: State, at: Point, goal: Goal, prepared: bool): State
    requires at != Asleep
  {
    match at
    case Top => s.(pc := if Current(s) then Waiting(Hold, goal) else Waited(WasReset, goal))
    case Hold => s.(pc := if Holds(s, goal) then Waited(AtTarget, goal) else Waiting(Prepare, goal))
    case Prepare => if prepared then s.(irq := false, pc := Waiting(Arm, goal)) else s.(pc := Waited(TimedOut, goal))
    case Arm => s.(pc := Waiting(Fence, goal)) // the arming stores are issued ...
    case Fence => // ... and the barrier makes them visible
      s.(waitFor := Code(CounterOf(goal)), pc := Waiting(Recheck, goal),
         waitConsumed := if goal == Space then TargetWord(s, goal) else s.waitConsumed,
         waitCompleted := if goal != Space then TargetWord(s, goal) else s.waitCompleted)
    case Recheck => s.(pc := Waiting(if Holds(s, goal) then Disarm else Confirm, goal))
    case Confirm => s.(pc := Waiting(if Current(s) then Asleep else Disarm, goal))
    case Disarm => s.(waitFor := 0, pc := Waiting(Top, goal))
    case LastCheck => s.(pc := if Current(s) then Waiting(LastHold, goal) else Waited(WasReset, goal))
    case LastHold => s.(pc := Waited(if Holds(s, goal) then AtTarget else TimedOut, goal))
  }

  function Wake(s: State, goal: Goal): State {
    s.(waitFor := 0, pc := Waiting(Top, goal))
  }

  function TimeOut(s: State, goal: Goal): State {
    s.(waitFor := 0, pc := Waiting(LastCheck, goal))
  }

  /** The caller of WaitFor goes on: DgGlQueueBuffer or DgGlQueueWaitEntry. */
  function Finish(s: State, result: Result, goal: Goal): State
    requires Shape(s)
  {
    match goal
    case Depth => DoReap(s).(pc := if result == AtTarget then Buffering else Idle)
    case Space => if result == AtTarget then s.(pc := Building) else DoReap(s).(pc := Idle)
    case Entry =>
      var t := DoReap(s).(pc := Idle);
      var index := Sub32(s.guest.Produced, 1);
      if result == AtTarget && |s.published| > 0
      then t.(answers := s.answers + [(|s.published| - 1, Answer(s.ring[index % DEPTH].outcome))]) else t
  }

  /** DgGlQueueWaitEntry's reading of a completed entry. */
  function Answer(r: Outcome): Outcome {
    if Has(r.Status, STATUS_DONE) then r.(Error := if Has(r.Status, STATUS_ERROR) then r.Error else 0)
    else r.(Status := STATUS_DONE + STATUS_ERROR, Error := ERROR_TRANSPORT)
  }

  function Build(s: State, command: seq<u32>): State
    requires Shape(s)
  {
    s.(buffers := s.buffers[s.guest.Produced % |s.buffers| := command])
  }

  /** Publish up to its barrier: the entry words and the owner. */
  function Fill(s: State, request: Request, owner: Owner, async: bool): State
    requires Shape(s)
  {
    var slot := s.guest.Produced % DEPTH;
    var address := s.guest.Produced % |s.buffers|;
    var r := request.(Address := address);
    s.(ring := s.ring[slot := Filled(s.ring[slot], r)],
       guest := s.guest.(Owners := s.guest.Owners[slot := owner.(Async := async)]),
       pc := Ringing(Batch(r, owner.(Async := async), s.buffers[address]), async))
  }

  function Ring(s: State, batch: Batch, async: bool): State {
    var produced := Add32(s.guest.Produced, 1);
    s.(guest := s.guest.(Produced := produced), producedWord := produced, published := s.published + [batch],
       pc := if async then Idle else Waiting(Top, Entry))
  }

  // ---- The device's steps ----

  /** Copy the next published entry and its command bytes. */
  function Consume(s: State): State
    requires Shape(s)
  {
    var r := s.ring[|s.received| % DEPTH].request;
    s.(received := s.received + [Copy(r, if r.Address < |s.buffers| then s.buffers[r.Address] else [])], consumer := Stored)
  }

  function Complete(s: State, outcome: Outcome): State
    requires Shape(s)
  {
    var slot := |s.outcomes| % DEPTH;
    s.(outcomes := s.outcomes + [outcome], executor := Stored,
       ring := s.ring[slot := s.ring[slot].(outcome := outcome)])
  }

  /** The device's fence after a counter write. */
  function Publicize(s: State, c: Counter): State {
    match c
    case Consumed => s.(consumer := Fenced, consumedWord := |s.received| % WORD)
    case Completed => s.(executor := Fenced, completedWord := |s.outcomes| % WORD)
  }

  /** The device reads WAIT and raises the interrupt if the armed condition holds. */
  function CheckWait(s: State, c: Counter): State {
    var raised := s.irq || (s.waitFor == Code(c) && Reached(Word(s, c), WaitWord(s, c)));
    match c
    case Consumed => s.(consumer := Ready, irq := raised)
    case Completed => s.(executor := Ready, irq := raised)
  }

  datatype Action =
    | CallReap
    | CallTake(token: u32, stream: u32)
    | CallDrop(token: u32)
    | CallBuffer
    | CheckSpace
    | WaitStep(prepared: bool)
    | Wake
    | TimeOut
    | Finish
    | Build(command: seq<u32>)
    | Fill(request: Request, owner: Owner, async: bool)
    | Ring
    | Consume
    | Complete(outcome: Outcome)
    | Publicize(counter: Counter)
    | CheckWait(counter: Counter)
    | Reset

  predicate Enabled(s: State, a: Action) {
    match a
    case CallReap => s.pc.Idle?
    case CallTake(_, _) => s.pc.Idle?
    case CallDrop(_) => s.pc.Idle?
    case CallBuffer => s.pc.Idle?
    case CheckSpace => s.pc.Buffering?
    case WaitStep(_) => s.pc.Waiting? && s.pc.at != Asleep
    case Wake => s.pc.Waiting? && s.pc.at == Asleep && s.irq
    case TimeOut => s.pc.Waiting? && s.pc.at == Asleep
    case Finish => s.pc.Waited?
    case Build(_) => s.pc.Building?
    case Fill(_, _, _) => s.pc.Building?
    case Ring => s.pc.Ringing?
    case Consume => s.live && s.consumer == Ready && |s.received| % WORD != s.producedWord
    case Complete(_) => s.live && s.executor == Ready && |s.outcomes| < |s.received|
    case Publicize(c) => s.live && ThreadOf(s, c) == Stored
    case CheckWait(c) => s.live && ThreadOf(s, c) == Fenced
    case Reset => s.live
  }

  function Next(s: State, a: Action): State
    requires Shape(s) && Enabled(s, a)
  {
    match a
    case CallReap => DoReap(s)
    case CallTake(token, stream) => CallTake(s, token, stream)
    case CallDrop(token) => CallDrop(s, token)
    case CallBuffer => CallBuffer(s)
    case CheckSpace => CheckSpace(s)
    case WaitStep(prepared) => WaitStep(s, s.pc.at, s.pc.goal, prepared)
    case Wake => Wake(s, s.pc.goal)
    case TimeOut => TimeOut(s, s.pc.goal)
    case Finish => Finish(s, s.pc.result, s.pc.goal)
    case Build(command) => Build(s, command)
    case Fill(request, owner, async) => Fill(s, request, owner, async)
    case Ring => Ring(s, s.pc.batch, s.pc.async)
    case Consume => Consume(s)
    case Complete(outcome) => Complete(s, outcome)
    case Publicize(c) => Publicize(s, c)
    case CheckWait(c) => CheckWait(s, c)
    case Reset => s.(live := false)
  }

  /** A session DgGlQueueEnable has just started. */
  ghost predicate Init(s: State) {
    && Shape(s) && |s.buffers| <= 8
    && s.guest.Active && s.guest.Produced == s.guest.Reaped == 0 && s.guest.Faults == s.start
    && s.pc == Idle && s.live && s.consumedWord == s.completedWord == s.producedWord == 0 && s.waitFor == 0
    && s.consumer == s.executor == Ready
    && s.published == [] && s.received == [] && s.outcomes == [] && s.settled == [] && s.events == [] && s.answers == []
  }

  // ---- The invariant ----

  /** The counter as the guest sees it: the last write may not be visible yet. */
  function Seen(count: nat, t: Thread): int {
    if t == Stored then count - 1 else count
  }

  /** reaped <= completed <= consumed <= produced <= reaped + 16, and the words are these counts modulo 2^32. */
  ghost predicate Counts(s: State) {
    var P, C, D, R := |s.published|, |s.received|, |s.outcomes|, |s.settled|;
    && Shape(s) && |s.buffers| <= 8
    && (s.consumer == Stored ==> C > 0) && (s.executor == Stored ==> D > 0)
    && D <= C <= P && R <= P
    && (s.live ==> s.guest.Active)
    && R <= D + DEPTH
    && (if s.guest.Active then R <= Seen(D, s.executor) && P <= R + DEPTH else P <= R + 1)
    && s.guest.Produced == s.producedWord == P % WORD
    && s.guest.Reaped == R % WORD
    && s.consumedWord == Seen(C, s.consumer) % WORD
    && s.completedWord == Seen(D, s.executor) % WORD
  }

  ghost predicate OwnersHold(owners: seq<Owner>, published: seq<Batch>, from: nat)
    requires |owners| == DEPTH
  {
    forall i :: from <= i < |published| ==> owners[i % DEPTH] == published[i].owner
  }

  ghost predicate RequestsHold(ring: seq<RingEntry>, published: seq<Batch>, from: nat)
    requires |ring| == DEPTH
  {
    forall i :: from <= i < |published| ==> ring[i % DEPTH].request == published[i].request
  }

  ghost predicate OutcomesHold(ring: seq<RingEntry>, outcomes: seq<Outcome>, from: int)
    requires |ring| == DEPTH
  {
    forall i :: 0 <= i < |outcomes| && from <= i ==> ring[i % DEPTH].outcome == outcomes[i]
  }

  /** With a power-of-two number of buffers, or before 2^32 publishes, indices never skip. */
  ghost predicate Steady(n: nat, published: nat) {
    n > 0 && (WORD % n == 0 || published < WORD)
  }

  ghost predicate CommandsHold(buffers: seq<seq<u32>>, published: seq<Batch>, from: nat)
    requires |buffers| > 0
  {
    forall i :: from <= i < |published| ==>
      published[i].request.Address == BufferOf(|buffers|, i) && buffers[BufferOf(|buffers|, i)] == published[i].command
  }

  ghost predicate Copied(received: seq<Copy>, published: seq<Batch>)
    requires |received| <= |published|
  {
    forall i :: 0 <= i < |received| ==> received[i] == Copy(published[i].request, published[i].command)
  }

  /** Each settled entry got the device's outcome, or LOST once the session ended. */
  ghost predicate SettledWell(active: bool, settled: seq<Outcome>, outcomes: seq<Outcome>) {
    forall i :: 0 <= i < |settled| ==>
      (i < |outcomes| && settled[i] == outcomes[i]) || (!active && settled[i] == LOST)
  }

  function Failures(events: seq<Event>): seq<Event> {
    if events == [] then []
    else Failures(events[..|events| - 1]) + if events[|events| - 1].Failed? then [events[|events| - 1]] else []
  }

  /** The fault table was told of every settled asynchronous failure, once and in order. */
  ghost predicate Accounted(faults: seq<Fault>, start: seq<Fault>, events: seq<Event>, published: seq<Batch>, settled: seq<Outcome>)
    requires |settled| <= |published|
  {
    faults == Play(start, events) && Failures(events) == Reports(published, settled, 0)
  }

  ghost predicate Answered(answers: seq<(nat, Outcome)>, outcomes: seq<Outcome>) {
    forall k :: 0 <= k < |answers| ==> answers[k].0 < |outcomes| && answers[k].1 == Answer(outcomes[answers[k].0])
  }

  function Target(s: State, goal: Goal): int {
    match goal
    case Depth => |s.published| - DEPTH + 1
    case Space => |s.published| - |s.buffers| + 1
    case Entry => |s.published|
  }

  function CountOf(s: State, c: Counter): nat {
    match c case Completed => |s.outcomes| case Consumed => |s.received|
  }

  /** A slot is free for the next entry, unless the session is over and all is settled. */
  ghost predicate RoomForNext(s: State) {
    if s.guest.Active then |s.published| < |s.settled| + DEPTH else |s.published| == |s.settled|
  }

  ghost predicate Armed(s: State, goal: Goal) {
    s.waitFor == Code(CounterOf(goal)) && WaitWord(s, CounterOf(goal)) == TargetWord(s, goal)
  }

  /** The armed sleep: if the target is reached, the device still has to read WAIT or the interrupt is pending. */
  ghost predicate WillWake(s: State, goal: Goal) {
    var c := CounterOf(goal);
    && Armed(s, goal)
    && (s.live && CountOf(s, c) >= Target(s, goal) ==> s.irq || ThreadOf(s, c) != Ready)
  }

  ghost predicate AtPc(s: State) {
    match s.pc
    case Idle => true
    case Buffering => RoomForNext(s)
    case Building => RoomForNext(s) && |s.received| >= Target(s, Space)
    case Ringing(batch, _) =>
      && Shape(s) && RoomForNext(s) && |s.received| >= Target(s, Space)
      && s.ring[|s.published| % DEPTH].request == batch.request
      && s.guest.Owners[|s.published| % DEPTH] == batch.owner
      && batch.request.Address == BufferOf(|s.buffers|, |s.published|)
      && s.buffers[BufferOf(|s.buffers|, |s.published|)] == batch.command
    case Waiting(at, goal) =>
      && (goal == Space ==> RoomForNext(s)) && (goal == Depth ==> s.guest.Active)
      && (goal == Entry ==> |s.published| > 0)
      && (at == Recheck ==> Armed(s, goal))
      && (at in {Confirm, Asleep} ==> WillWake(s, goal))
    case Waited(result, goal) =>
      && (goal == Space ==> RoomForNext(s)) && (goal == Depth ==> s.guest.Active)
      && (goal == Entry ==> |s.published| > 0)
      && (result == AtTarget ==> Seen(CountOf(s, CounterOf(goal)), ThreadOf(s, CounterOf(goal))) >= Target(s, goal))
  }

  ghost predicate Inv(s: State) {
    Core(s) && AtPc(s)
  }

  ghost predicate Core(s: State) {
    && Counts(s)
    && (s.guest.Active ==> OwnersHold(s.guest.Owners, s.published, |s.settled|))
    && (s.live ==> RequestsHold(s.ring, s.published, |s.received|))
    && OutcomesHold(s.ring, s.outcomes, |s.published| - DEPTH + if s.pc.Ringing? then 1 else 0)
    && (Steady(|s.buffers|, |s.published|) ==>
         && (s.live ==> CommandsHold(s.buffers, s.published, |s.received|))
         && Copied(s.received, s.published))
    && SettledWell(s.guest.Active, s.settled, s.outcomes)
    && Accounted(s.guest.Faults, s.start, s.events, s.published, s.settled)
    && Answered(s.answers, s.outcomes)
  }

  lemma InitHolds(s: State)
    requires Init(s)
    ensures Inv(s)
  {
    assert Play(s.start, []) == s.start;
  }

  // ---- The counters ----

  /** The wrapped tests of the driver decide the unbounded comparisons. */
  lemma HoldsIsComparison(s: State, goal: Goal)
    requires Counts(s) && (goal == Entry ==> |s.published| > 0)
    ensures Holds(s, goal) <==> Seen(CountOf(s, CounterOf(goal)), ThreadOf(s, CounterOf(goal))) >= Target(s, goal)
  {
    TargetIsWrapped(s, goal);
    ReachedIsComparison(Seen(CountOf(s, CounterOf(goal)), ThreadOf(s, CounterOf(goal))), Target(s, goal));
  }

  lemma TargetIsWrapped(s: State, goal: Goal)
    requires Counts(s)
    ensures TargetWord(s, goal) == Target(s, goal) % WORD
  {
    hide Add32, Sub32;
    var P := |s.published|;
    WrappedSum(P, DEPTH);
    WrappedSum(P - DEPTH, 1);
    WrappedSum(P, |s.buffers|);
    WrappedSum(P - |s.buffers|, 1);
  }

  lemma UnreapedIsExact(s: State)
    requires Counts(s) && s.guest.Active
    ensures Unreaped(s) == (if s.live then Seen(|s.outcomes|, s.executor) else |s.published|) - |s.settled|
    ensures s.live ==> Trusted(s.guest, s.completedWord) == s.completedWord
  {
    hide Sub32;
    var P, R, V := |s.published|, |s.settled|, Seen(|s.outcomes|, s.executor);
    WrappedSum(V, R);
    WrappedSum(P, R);
    SmallWord(V - R);
    SmallWord(P - R);
  }

  lemma BufferOfDistinct(n: nat, i: nat, j: nat, published: nat)
    requires 0 < n && i < j <= published && j < i + n && Steady(n, published)
    ensures BufferOf(n, i) != BufferOf(n, j)
  {
    ModDistinct(n, i, j);
    if published < WORD {
      SmallWord(i);
      SmallWord(j);
    } else {
      var k := WORD / n;
      assert WORD == n * k;
      ModOfMultiple(i, n, k);
      ModOfMultiple(j, n, k);
    }
  }

  lemma SlotOfIndex(i: nat)
    ensures i % WORD % DEPTH == i % DEPTH
  {
  }

  lemma SlotShift(i: nat, k: nat)
    ensures (i % WORD + k) % DEPTH == (i + k) % DEPTH
  {
  }

  // ---- Reaping settles each entry once ----

  lemma {:induction false} ReportsSplit(b: seq<Batch>, r: seq<Outcome>, from: nat, mid: nat)
    requires from <= mid <= |r| <= |b|
    ensures Reports(b, r, from) == Reports(b, r[..mid], from) + Reports(b, r, mid)
  {
    if mid == |r| {
      assert r[..mid] == r;
    } else {
      var r' := r[..|r| - 1];
      assert r'[..mid] == r[..mid];
      ReportsSplit(b, r', from, mid);
    }
  }

  lemma ReportsOne(b: seq<Batch>, r: seq<Outcome>, from: nat)
    requires from < |r| <= |b|
    ensures Reports(b, r[..from + 1], from) == Report(b[from].owner, r[from])
  {
    var r' := r[..from + 1];
    assert r'[..|r'| - 1] == r[..from];
    assert Reports(b, r[..from], from) == [];
  }

  lemma {:induction false} ReportsPrefix(b: seq<Batch>, b': seq<Batch>, r: seq<Outcome>, from: nat)
    requires from <= |r| <= |b| <= |b'| && b == b'[..|b|]
    ensures Reports(b, r, from) == Reports(b', r, from)
  {
    if from < |r| {
      ReportsPrefix(b, b', r[..|r| - 1], from);
    }
  }

  lemma {:induction false} FailuresAppend(a: seq<Event>, b: seq<Event>)
    ensures Failures(a + b) == Failures(a) + Failures(b)
  {
    if b == [] {
      assert a + b == a;
    } else {
      assert (a + b)[..|a + b| - 1] == a + b[..|b| - 1];
      FailuresAppend(a, b[..|b| - 1]);
    }
  }

  lemma {:induction false} ReportsAreFailures(b: seq<Batch>, r: seq<Outcome>, from: nat)
    requires from <= |r| <= |b|
    ensures Failures(Reports(b, r, from)) == Reports(b, r, from)
  {
    if from < |r| {
      var one := Report(b[|r| - 1].owner, r[|r| - 1]);
      ReportsAreFailures(b, r[..|r| - 1], from);
      FailuresAppend(Reports(b, r[..|r| - 1], from), one);
      if one != [] {
        assert one[..0] == [];
      }
    }
  }

  /** The reap loop is the run of the fault table over the newly settled entries. */
  lemma {:induction false} ReapToPlays(g: Guest, ring: seq<RingEntry>, completed: u32, b: seq<Batch>, all: seq<Outcome>, from: nat)
    requires Shaped(g) && |ring| == DEPTH && from <= |all| <= |b|
    requires g.Reaped == from % WORD && Sub32(completed, g.Reaped) == |all| - from
    requires forall i :: from <= i < |all| ==> all[i] == ring[i % DEPTH].outcome && g.Owners[i % DEPTH] == b[i].owner
    ensures ReapTo(g, ring, completed) == g.(Reaped := completed, Faults := Play(g.Faults, Reports(b, all, from)))
    decreases |all| - from
  {
    hide Play, Report, Sub32, Add32;
    Advance(g.Reaped, completed, completed);
    Advance(completed, g.Reaped, completed);
    if from == |all| {
      SubZero(completed, g.Reaped);
      PlayNothing(g.Faults);
    } else {
      SlotOfIndex(from);
      WrappedSum(from, 1);
      var one := Report(b[from].owner, all[from]);
      var g' := g.(Faults := Play(g.Faults, one), Reaped := Add32(g.Reaped, 1));
      Advance(g.Reaped, g.Reaped, completed);
      SubSelf(completed);
      ReapToPlays(g', ring, completed, b, all, from + 1);
      ReportsSplit(b, all, from, from + 1);
      ReportsOne(b, all, from);
      PlayAppend(g.Faults, one, Reports(b, all, from + 1));
    }
  }

  lemma SubZero(a: u32, b: u32)
    requires Sub32(a, b) == 0
    ensures a == b
  {
  }

  lemma SubSelf(a: u32)
    ensures Sub32(a, a) == 0
  {
  }

  lemma PlayNothing(f: seq<Fault>)
    ensures Play(f, []) == f
  {
  }

  /** The loss loop too, with LOST for every unreaped entry. */
  lemma {:induction false} LostPlays(g: Guest, i: u32, b: seq<Batch>, all: seq<Outcome>, from: nat)
    requires Shaped(g) && from <= |all| <= |b|
    requires g.Reaped == from % WORD && i == |all| % WORD && Sub32(i, g.Reaped) == |all| - from
    requires forall k :: from <= k < |all| ==> all[k] == LOST && g.Owners[k % DEPTH] == b[k].owner
    ensures LostFaults(g, i) == Play(g.Faults, Reports(b, all, from))
    decreases |all| - from
  {
    hide Play, Report, Sub32, Add32;
    if from == |all| {
      SubZero(i, g.Reaped);
      PlayNothing(g.Faults);
    } else {
      SubSelf(g.Reaped);
      var last := |all| - 1;
      WrappedSum(|all|, 1);
      WrappedSum(last, 1);
      SlotOfIndex(last);
      Advance(Sub32(i, 1), g.Reaped, i);
      LostStep(i, g.Reaped);
      LostPlays(g, Sub32(i, 1), b, all[..last], from);
      PlayAppend(g.Faults, Reports(b, all[..last], from), Report(b[last].owner, LOST));
    }
  }

  lemma LostStep(i: u32, from: u32)
    requires Sub32(i, from) > 0
    ensures i != from && Sub32(Sub32(i, 1), from) == Sub32(i, from) - 1
  {
  }

  /** The entries a reap settles get the device's outcomes, or LOST after a reset. */
  lemma NewlySettledAre(s: State)
    requires Core(s) && !s.pc.Ringing? && s.guest.Active
    ensures |NewlySettled(s)| == (if s.live then Seen(|s.outcomes|, s.executor) else |s.published|) - |s.settled|
    ensures var all := s.settled + NewlySettled(s);
            forall i :: |s.settled| <= i < |all| ==>
              (if s.live then i < |s.outcomes| && all[i] == s.outcomes[i] == s.ring[i % DEPTH].outcome else all[i] == LOST)
  {
    hide Unreaped, OwnersHold, RequestsHold, CommandsHold, Copied, Accounted, Answered, SettledWell;
    UnreapedIsExact(s);
    var R, all := |s.settled|, s.settled + NewlySettled(s);
    forall i | R <= i < |all|
      ensures s.live ==> i < |s.outcomes| && all[i] == s.outcomes[i] == s.ring[i % DEPTH].outcome
      ensures !s.live ==> all[i] == LOST
    {
      assert all[i] == NewlySettled(s)[i - R];
      SlotShift(R, i - R);
    }
  }

  lemma SettlingAccounts(s: State, f: seq<Fault>, all: seq<Outcome>)
    requires |s.settled| <= |all| <= |s.published| && all[..|s.settled|] == s.settled
    requires Accounted(s.guest.Faults, s.start, s.events, s.published, s.settled)
    requires f == Play(s.guest.Faults, Reports(s.published, all, |s.settled|))
    ensures Accounted(f, s.start, s.events + Reports(s.published, all, |s.settled|), s.published, all)
  {
    hide Play, Report, Reports;
    var R := |s.settled|;
    var more := Reports(s.published, all, R);
    PlayAppend(s.start, s.events, more);
    FailuresAppend(s.events, more);
    ReportsAreFailures(s.published, all, R);
    ReportsSplit(s.published, all, 0, R);
  }

  /** What a reap leaves: exactly the entries seen complete (or all, once lost) are settled. */
  lemma ReapSettles(s: State)
    requires Core(s) && !s.pc.Ringing?
    ensures var t, P := DoReap(s), |s.published|;
            && |t.settled| == (if !s.guest.Active then |s.settled| else if s.live then Seen(|s.outcomes|, s.executor) else P)
            && s.settled <= t.settled && |t.settled| <= P
            && t.guest == s.guest.(Active := s.guest.Active && s.live, Reaped := |t.settled| % WORD, Faults := t.guest.Faults)
            && Accounted(t.guest.Faults, s.start, t.events, s.published, t.settled)
            && (forall i :: |s.settled| <= i < |t.settled| ==>
                  if s.live then i < |s.outcomes| && t.settled[i] == s.outcomes[i] else t.settled[i] == LOST)
  {
    hide ReapTo, LostFaults, Reports, Play, Accounted;
    var all := s.settled + NewlySettled(s);
    if s.guest.Active {
      NewlySettledAre(s);
      UnreapedIsExact(s);
      assert all[..|s.settled|] == s.settled;
      if s.live {
        ReapToPlays(s.guest, s.ring, s.completedWord, s.published, all, |s.settled|);
      } else {
        LostPlays(s.guest, s.guest.Produced, s.published, all, |s.settled|);
      }
      SettlingAccounts(s, DoReap(s).guest.Faults, all);
    } else {
      assert all == s.settled;
      NothingToReport(s);
      assert s.events + [] == s.events;
    }
  }

  lemma NothingToReport(s: State)
    requires |s.settled| <= |s.published|
    ensures Reports(s.published, s.settled, |s.settled|) == []
  {
  }

  lemma ReapKeepsCore(s: State)
    requires Core(s) && !s.pc.Ringing?
    ensures Core(DoReap(s))
  {
    hide ReapGuest, Reports, Accounted, RequestsHold, OutcomesHold, CommandsHold, Copied, Answered, NewlySettled;
    ReapSettles(s);
  }

  // ---- Every step keeps the invariant ----

  lemma CallReapKeeps(s: State)
    requires Inv(s) && s.pc.Idle?
    ensures Inv(DoReap(s))
  {
    hide Core, ReapGuest, NewlySettled;
    ReapKeepsCore(s);
  }

  lemma ClientKeeps(s: State, e: Event)
    requires Inv(s) && s.pc.Idle? && !e.Failed?
    ensures Inv(s.(guest := s.guest.(Faults := Apply(s.guest.Faults, e)), events := s.events + [e]))
  {
    hide OwnersHold, RequestsHold, OutcomesHold, CommandsHold, Copied, Answered, SettledWell, Apply;
    PlayAppend(s.start, s.events, [e]);
    PlayOne(s.guest.Faults, e);
    FailuresAppend(s.events, [e]);
    assert [e][..0] == [] && Failures([e]) == [];
  }

  lemma CallBufferKeeps(s: State)
    requires Inv(s) && s.pc.Idle?
    ensures Inv(CallBuffer(s))
  {
    hide OwnersHold, RequestsHold, OutcomesHold, CommandsHold, Copied, Answered, SettledWell, Accounted, DoReap, Sub32;
    ReapKeepsCore(s);
    ReapSettles(s);
    DoReapKeepsRest(s);
    var t := DoReap(s);
    WrappedSum(|t.published|, |t.settled|);
    SmallWord(|t.published| - |t.settled|);
  }

  lemma CheckSpaceKeeps(s: State)
    requires Inv(s) && s.pc.Buffering?
    ensures Inv(CheckSpace(s))
  {
    hide OwnersHold, RequestsHold, OutcomesHold, CommandsHold, Copied, Answered, SettledWell, Accounted, Holds;
    HoldsIsComparison(s, Space);
  }

  /** The waiting itself touches only the WAIT words, the pending interrupt and the driver's place. */
  lemma CoreIgnoresWaiting(s: State, t: State)
    requires Core(s) && !s.pc.Ringing? && !t.pc.Ringing?
    requires t == s.(pc := t.pc, irq := t.irq, waitFor := t.waitFor, waitConsumed := t.waitConsumed,
                     waitCompleted := t.waitCompleted)
    ensures Core(t)
  {
    hide OwnersHold, RequestsHold, OutcomesHold, CommandsHold, Copied, Answered, SettledWell, Accounted;
  }

  /** An armed guest that still sees the target unreached cannot miss the interrupt. */
  lemma RecheckArms(s: State, goal: Goal)
    requires Counts(s) && (goal == Entry ==> |s.published| > 0) && Armed(s, goal) && !Holds(s, goal)
    ensures WillWake(s, goal)
  {
    hide Holds, Counts, Target, TargetWord;
    HoldsIsComparison(s, goal);
  }

  lemma WaitStepKeepsPc(s: State, at: Point, goal: Goal, prepared: bool)
    requires Counts(s) && s.pc == Waiting(at, goal) && AtPc(s) && at != Asleep
    ensures AtPc(WaitStep(s, at, goal, prepared))
  {
    hide Holds, Counts, TargetWord, Shape, WillWake, Seen;
    match at
    case Hold => HoldsIsComparison(s, goal);
    case LastHold => HoldsIsComparison(s, goal);
    case Recheck => if !Holds(s, goal) { RecheckArms(s, goal); WillWakeAnywhere(s, Waiting(Confirm, goal), goal); }
    case Confirm => WillWakeAnywhere(s, Waiting(Asleep, goal), goal);
    case Fence => TargetAnywhere(s, WaitStep(s, at, goal, prepared), goal);
    case _ =>
  }

  lemma WillWakeAnywhere(s: State, pc: Pc, goal: Goal)
    ensures WillWake(s, goal) <==> WillWake(s.(pc := pc), goal)
  {
  }

  lemma TargetAnywhere(s: State, t: State, goal: Goal)
    requires t.guest == s.guest && t.buffers == s.buffers
    ensures TargetWord(t, goal) == TargetWord(s, goal)
  {
  }

  lemma WaitStepKeeps(s: State, prepared: bool)
    requires Inv(s) && s.pc.Waiting? && s.pc.at != Asleep
    ensures Inv(WaitStep(s, s.pc.at, s.pc.goal, prepared))
  {
    hide Core, AtPc, Holds;
    CoreCounts(s);
    CoreIgnoresWaiting(s, WaitStep(s, s.pc.at, s.pc.goal, prepared));
    WaitStepKeepsPc(s, s.pc.at, s.pc.goal, prepared);
  }

  lemma CoreCounts(s: State)
    requires Core(s)
    ensures Counts(s)
  {
  }

  lemma WakeKeeps(s: State)
    requires Inv(s) && s.pc.Waiting? && s.pc.at == Asleep
    ensures Inv(Wake(s, s.pc.goal)) && Inv(TimeOut(s, s.pc.goal))
  {
    hide OwnersHold, RequestsHold, OutcomesHold, CommandsHold, Copied, Answered, SettledWell, Accounted;
  }

  lemma FinishDepthKeeps(s: State, result: Result)
    requires Inv(s) && s.pc == Waited(result, Depth)
    ensures Inv(Finish(s, result, Depth))
  {
    hide OwnersHold, RequestsHold, OutcomesHold, CommandsHold, Copied, Answered, SettledWell, Accounted, DoReap;
    ReapKeepsCore(s);
    ReapSettles(s);
    DoReapKeepsRest(s);
  }

  lemma FinishSpaceKeeps(s: State, result: Result)
    requires Inv(s) && s.pc == Waited(result, Space)
    ensures Inv(Finish(s, result, Space))
  {
    hide OwnersHold, RequestsHold, OutcomesHold, CommandsHold, Copied, Answered, SettledWell, Accounted, DoReap;
    ReapKeepsCore(s);
    DoReapKeepsRest(s);
  }

  lemma FinishEntryKeeps(s: State, result: Result)
    requires Inv(s) && s.pc == Waited(result, Entry)
    ensures Inv(Finish(s, result, Entry))
  {
    hide OwnersHold, RequestsHold, OutcomesHold, CommandsHold, Copied, Answered, SettledWell, Accounted, DoReap, Sub32;
    ReapKeepsCore(s);
    DoReapKeepsRest(s);
    AnswerIsOwn(s, result);
  }

  lemma AnswerIsOwn(s: State, result: Result)
    requires Inv(s) && s.pc == Waited(result, Entry)
    ensures Answered(Finish(s, result, Entry).answers, s.outcomes)
  {
    hide OwnersHold, RequestsHold, CommandsHold, Copied, SettledWell, Accounted, DoReap, Answer, Sub32;
    DoReapKeepsRest(s);
    WrappedSum(|s.published|, 1);
    SlotOfIndex(|s.published| - 1);
  }

  lemma DoReapKeepsRest(s: State)
    requires Shape(s)
    ensures var t := DoReap(s);
            t == s.(guest := t.guest, settled := t.settled, events := t.events)
  {
  }

  lemma BuildKeeps(s: State, command: seq<u32>)
    requires Inv(s) && s.pc.Building?
    ensures Inv(Build(s, command))
  {
    hide OwnersHold, RequestsHold, OutcomesHold, Copied, Answered, SettledWell, Accounted, BufferOf;
    var n, P := |s.buffers|, |s.published|;
    assert s.guest.Produced % n == BufferOf(n, P) by {
      BufferOfIs(n, P);
    }
    if Steady(n, P) {
      forall i | |s.received| <= i < P
        ensures BufferOf(n, i) != BufferOf(n, P)
      {
        BufferOfDistinct(n, i, P, P);
      }
    }
  }

  lemma BufferOfIs(n: nat, index: nat)
    requires n > 0
    ensures BufferOf(n, index) == index % WORD % n
  {
  }

  lemma FillKeeps(s: State, request: Request, owner: Owner, async: bool)
    requires Inv(s) && s.pc.Building?
    ensures Inv(Fill(s, request, owner, async))
  {
    hide CommandsHold, Copied, Answered, SettledWell, Accounted, BufferOf, Steady;
    var n, P := |s.buffers|, |s.published|;
    BufferOfIs(n, P);
    SlotOfIndex(P);
    forall i | P - DEPTH < i < P
      ensures i % DEPTH != P % DEPTH
    {
      SlotsDiffer(i, P);
    }
  }

  lemma SlotsDiffer(i: int, j: int)
    requires i < j < i + DEPTH
    ensures i % DEPTH != j % DEPTH
  {
  }

  lemma RingKeeps(s: State)
    requires Inv(s) && s.pc.Ringing?
    ensures Inv(Ring(s, s.pc.batch, s.pc.async))
  {
    hide OwnersHold, RequestsHold, OutcomesHold, CommandsHold, Copied, Answered, SettledWell, Accounted, BufferOf;
    RingCounts(s);
    RingEntryHolds(s);
    RingCommandHolds(s);
    RingAccounted(s);
  }

  lemma RingCounts(s: State)
    requires Inv(s) && s.pc.Ringing?
    ensures Counts(Ring(s, s.pc.batch, s.pc.async)) && AtPc(Ring(s, s.pc.batch, s.pc.async))
  {
    hide OwnersHold, RequestsHold, OutcomesHold, CommandsHold, Copied, Answered, SettledWell, Accounted, BufferOf, Steady, Add32;
    WrappedSum(|s.published|, 1);
  }

  lemma RingEntryHolds(s: State)
    requires Inv(s) && s.pc.Ringing?
    ensures var t := Ring(s, s.pc.batch, s.pc.async);
            && (t.guest.Active ==> OwnersHold(t.guest.Owners, t.published, |t.settled|))
            && (t.live ==> RequestsHold(t.ring, t.published, |t.received|))
            && OutcomesHold(t.ring, t.outcomes, |t.published| - DEPTH)
  {
    hide CommandsHold, Copied, Answered, SettledWell, Accounted, BufferOf, Steady, Add32;
  }

  lemma RingCommandHolds(s: State)
    requires Inv(s) && s.pc.Ringing?
    ensures var t := Ring(s, s.pc.batch, s.pc.async);
            Steady(|t.buffers|, |t.published|) ==>
              (t.live ==> CommandsHold(t.buffers, t.published, |t.received|)) && Copied(t.received, t.published)
  {
    hide OwnersHold, RequestsHold, OutcomesHold, Answered, SettledWell, Accounted, BufferOf, Add32;
  }

  lemma RingAccounted(s: State)
    requires Inv(s) && s.pc.Ringing?
    ensures var t := Ring(s, s.pc.batch, s.pc.async);
            Accounted(t.guest.Faults, t.start, t.events, t.published, t.settled)
  {
    hide OwnersHold, RequestsHold, OutcomesHold, CommandsHold, Copied, Answered, SettledWell, BufferOf, Steady, Add32, Play, Failures, Reports;
    ReportsPrefix(s.published, s.published + [s.pc.batch], s.settled, 0);
  }

  lemma ConsumeKeeps(s: State)
    requires Inv(s) && Enabled(s, Action.Consume)
    ensures Inv(Consume(s))
  {
    hide OwnersHold, RequestsHold, OutcomesHold, CommandsHold, Copied, Answered, SettledWell, Accounted, BufferOf, Steady, AtPc;
    ConsumeCopies(s);
    DeviceKeepsPc(s, Consume(s));
  }

  /**
   * The driver's place survives a device step that lowers no count it can
   * see, leaves its own words and the published entries alone, and does not
   * let a device thread be ready for more than it was.
   */
  lemma DeviceKeepsPc(s: State, t: State)
    requires AtPc(s) && Shape(s) && Shape(t)
    requires t.pc == s.pc && t.guest == s.guest && t.buffers == s.buffers && t.published == s.published && t.settled == s.settled
    requires t.waitFor == s.waitFor && t.waitConsumed == s.waitConsumed && t.waitCompleted == s.waitCompleted
    requires t.live == s.live && t.irq == s.irq && |t.received| >= |s.received|
    requires forall i :: 0 <= i < DEPTH ==> t.ring[i].request == s.ring[i].request
    requires forall c :: Seen(CountOf(t, c), ThreadOf(t, c)) >= Seen(CountOf(s, c), ThreadOf(s, c))
    requires forall c :: ThreadOf(t, c) == Ready ==> ThreadOf(s, c) == Ready && CountOf(t, c) == CountOf(s, c)
    ensures AtPc(t)
  {
    hide Seen, CountOf, ThreadOf, TargetWord, BufferOf;
    if s.pc.Waiting? {
      TargetAnywhere(s, t, s.pc.goal);
    }
  }

  lemma ConsumeCopies(s: State)
    requires Inv(s) && Enabled(s, Action.Consume)
    ensures var t := Consume(s);
            && (t.live ==> RequestsHold(t.ring, t.published, |t.received|))
            && (Steady(|t.buffers|, |t.published|) ==>
                  && (t.live ==> CommandsHold(t.buffers, t.published, |t.received|))
                  && Copied(t.received, t.published))
  {
    hide OwnersHold, OutcomesHold, Answered, SettledWell, Accounted, BufferOf, Steady;
  }

  lemma CompleteKeeps(s: State, outcome: Outcome)
    requires Inv(s) && Enabled(s, Action.Complete(outcome))
    ensures Inv(Complete(s, outcome))
  {
    hide OwnersHold, RequestsHold, OutcomesHold, CommandsHold, Copied, Answered, SettledWell, Accounted, BufferOf, Steady;
    CompleteRing(s, outcome);
    CompleteAnswers(s, outcome);
    CompletePc(s, outcome);
  }

  lemma CompleteRing(s: State, outcome: Outcome)
    requires Inv(s) && Enabled(s, Action.Complete(outcome))
    ensures var t := Complete(s, outcome);
            && (t.live ==> RequestsHold(t.ring, t.published, |t.received|))
            && OutcomesHold(t.ring, t.outcomes, |t.published| - DEPTH + if t.pc.Ringing? then 1 else 0)
  {
    hide OwnersHold, CommandsHold, Copied, Answered, SettledWell, Accounted, BufferOf, Steady, AtPc;
    var D := |s.outcomes|;
    forall i | D - DEPTH < i < D
      ensures i % DEPTH != D % DEPTH
    {
      SlotsDiffer(i, D);
    }
  }

  lemma CompleteAnswers(s: State, outcome: Outcome)
    requires Inv(s) && Enabled(s, Action.Complete(outcome))
    ensures var t := Complete(s, outcome);
            SettledWell(t.guest.Active, t.settled, t.outcomes) && Answered(t.answers, t.outcomes)
  {
    hide OwnersHold, RequestsHold, OutcomesHold, CommandsHold, Copied, Accounted, BufferOf, Steady, AtPc, Answer;
  }

  lemma CompletePc(s: State, outcome: Outcome)
    requires Inv(s) && Enabled(s, Action.Complete(outcome))
    ensures Counts(Complete(s, outcome)) && AtPc(Complete(s, outcome))
  {
    hide OwnersHold, RequestsHold, OutcomesHold, CommandsHold, Copied, Answered, SettledWell, Accounted, BufferOf, Steady, AtPc;
    DeviceKeepsPc(s, Complete(s, outcome));
  }

  lemma PublicizeKeeps(s: State, c: Counter)
    requires Inv(s) && Enabled(s, Action.Publicize(c))
    ensures Inv(Publicize(s, c))
  {
    hide OwnersHold, RequestsHold, OutcomesHold, CommandsHold, Copied, Answered, SettledWell, Accounted, AtPc;
    PublicizePc(s, c);
  }

  lemma PublicizePc(s: State, c: Counter)
    requires Counts(s) && AtPc(s) && Enabled(s, Action.Publicize(c))
    ensures AtPc(Publicize(s, c))
  {
    hide TargetWord, AtPc;
    DeviceKeepsPc(s, Publicize(s, c));
  }

  lemma CheckWaitKeeps(s: State, c: Counter)
    requires Inv(s) && Enabled(s, Action.CheckWait(c))
    ensures Inv(CheckWait(s, c))
  {
    hide OwnersHold, RequestsHold, OutcomesHold, CommandsHold, Copied, Answered, SettledWell, Accounted, Reached, AtPc;
    CheckWaitPc(s, c);
  }

  lemma CheckWaitPc(s: State, c: Counter)
    requires Counts(s) && AtPc(s) && Enabled(s, Action.CheckWait(c))
    ensures AtPc(CheckWait(s, c))
  {
    hide Counts, Reached, TargetWord;
    if s.pc.Waiting? {
      HoldsIsComparison(s, s.pc.goal);
      TargetAnywhere(s, CheckWait(s, c), s.pc.goal);
    }
  }

  lemma ResetKeeps(s: State)
    requires Inv(s) && s.live
    ensures Inv(s.(live := false))
  {
    hide OwnersHold, RequestsHold, OutcomesHold, CommandsHold, Copied, Answered, SettledWell, Accounted;
  }

  lemma StepKeeps(s: State, a: Action)
    requires Inv(s) && Enabled(s, a)
    ensures Inv(Next(s, a))
  {
    hide Inv;
    InvHasShape(s);
    match a
    case CallReap => CallReapKeeps(s);
    case CallTake(token, stream) => ClientKeeps(s, Taken(token, stream));
    case CallDrop(token) => ClientKeeps(s, Dropped(token));
    case CallBuffer => CallBufferKeeps(s);
    case CheckSpace => CheckSpaceKeeps(s);
    case WaitStep(prepared) => WaitStepKeeps(s, prepared);
    case Wake => WakeKeeps(s);
    case TimeOut => WakeKeeps(s);
    case Finish =>
      match s.pc.goal {
        case Depth => FinishDepthKeeps(s, s.pc.result);
        case Space => FinishSpaceKeeps(s, s.pc.result);
        case Entry => FinishEntryKeeps(s, s.pc.result);
      }
    case Build(command) => BuildKeeps(s, command);
    case Fill(request, owner, async) => FillKeeps(s, request, owner, async);
    case Ring => RingKeeps(s);
    case Consume => ConsumeKeeps(s);
    case Complete(outcome) => CompleteKeeps(s, outcome);
    case Publicize(c) => PublicizeKeeps(s, c);
    case CheckWait(c) => CheckWaitKeeps(s, c);
    case Reset => ResetKeeps(s);
  }

  lemma InvHasShape(s: State)
    requires Inv(s)
    ensures Shape(s)
  {
  }

  // ---- Whole runs ----

  /** Any interleaving of driver and device steps from a fresh session. */
  ghost predicate Run(states: seq<State>, actions: seq<Action>) {
    && |states| == |actions| + 1 && Init(states[0])
    && forall i :: 0 <= i < |actions| ==>
         Shape(states[i]) && Enabled(states[i], actions[i]) && states[i + 1] == Next(states[i], actions[i])
  }

  ghost predicate Reachable(s: State) {
    exists states, actions :: Run(states, actions) && states[|actions|] == s
  }

  lemma {:induction false} RunKeepsInv(states: seq<State>, actions: seq<Action>, i: nat)
    requires Run(states, actions) && i <= |actions|
    ensures Inv(states[i])
  {
    hide Inv, Init, Next, Enabled;
    if i == 0 {
      InitHolds(states[0]);
    } else {
      RunKeepsInv(states, actions, i - 1);
      StepKeeps(states[i - 1], actions[i - 1]);
    }
  }

  lemma ReachableKeepsInv(s: State)
    requires Reachable(s)
    ensures Inv(s)
  {
    hide Inv, Init, Next, Enabled;
    var states, actions :| Run(states, actions) && states[|actions|] == s;
    RunKeepsInv(states, actions, |actions|);
  }

  /** reaped <= completed <= consumed <= produced <= reaped + 16, and the 32-bit tests of the driver see it. */
  lemma CountersStayOrdered(s: State)
    requires Reachable(s)
    ensures |s.outcomes| <= |s.received| <= |s.published|
    ensures s.guest.Active ==> |s.settled| <= |s.outcomes| && |s.published| <= |s.settled| + DEPTH
    ensures s.guest.Produced == s.producedWord == |s.published| % WORD && s.guest.Reaped == |s.settled| % WORD
    ensures forall goal :: (goal == Entry ==> |s.published| > 0) ==>
              (Holds(s, goal) <==> Seen(CountOf(s, CounterOf(goal)), ThreadOf(s, CounterOf(goal))) >= Target(s, goal))
  {
    hide Holds, Target, Core, AtPc;
    ReachableKeepsInv(s);
    CoreCounts(s);
    forall goal: Goal | goal == Entry ==> |s.published| > 0
      ensures Holds(s, goal) <==> Seen(CountOf(s, CounterOf(goal)), ThreadOf(s, CounterOf(goal))) >= Target(s, goal)
    {
      HoldsIsComparison(s, goal);
    }
  }

  /** Whatever the interleaving, the device's copies are the published batches, in order. */
  lemma DeviceCopiesWhatWasPublished(s: State)
    requires Reachable(s) && Steady(|s.buffers|, |s.published|)
    ensures |s.received| <= |s.published|
    ensures forall i :: 0 <= i < |s.received| ==>
              s.received[i].request == s.published[i].request && s.received[i].command == s.published[i].command
  {
    ReachableKeepsInv(s);
  }

  /** Neither a slot whose entry is unreaped nor a buffer whose entry is unconsumed is written. */
  lemma NothingPublishedIsRewritten(s: State, i: nat)
    requires Reachable(s) && s.pc.Building? && i < |s.published|
    ensures s.guest.Active && i >= |s.settled| ==> i % DEPTH != s.guest.Produced % DEPTH
    ensures i >= |s.received| && Steady(|s.buffers|, |s.published|)
            ==> BufferOf(|s.buffers|, i) != s.guest.Produced % |s.buffers|
  {
    hide BufferOf, Steady;
    ReachableKeepsInv(s);
    var n, P := |s.buffers|, |s.published|;
    SlotOfIndex(P);
    BufferOfIs(n, P);
    if i >= |s.settled| && s.guest.Active {
      SlotsDiffer(i, P);
    }
    if i >= |s.received| && Steady(n, P) {
      BufferOfDistinct(n, i, P, P);
    }
  }

  /** A sleeper whose target is reached has its interrupt pending, or the device has yet to read WAIT. */
  lemma NoLostWakeup(s: State)
    requires Reachable(s) && s.pc.Waiting? && s.pc.at == Asleep && s.live
    requires CountOf(s, CounterOf(s.pc.goal)) >= Target(s, s.pc.goal)
    ensures s.irq || ThreadOf(s, CounterOf(s.pc.goal)) != Ready
  {
    ReachableKeepsInv(s);
  }

  lemma CheckRaises(s: State)
    requires Counts(s) && s.pc.Waiting? && WillWake(s, s.pc.goal) && (s.pc.goal == Entry ==> |s.published| > 0)
    requires s.live && ThreadOf(s, CounterOf(s.pc.goal)) == Fenced
    requires CountOf(s, CounterOf(s.pc.goal)) >= Target(s, s.pc.goal)
    ensures CheckWait(s, CounterOf(s.pc.goal)).irq
  {
    hide Counts, Reached, TargetWord;
    HoldsIsComparison(s, s.pc.goal);
  }

  /** The device thread's own next steps, at most a fence and a read of WAIT, then wake the sleeper. */
  lemma DeviceWakesSleeper(s: State) returns (fenced: State, read: State)
    requires Reachable(s) && s.pc.Waiting? && s.pc.at == Asleep && s.live && !s.irq
    requires CountOf(s, CounterOf(s.pc.goal)) >= Target(s, s.pc.goal)
    ensures var c := CounterOf(s.pc.goal);
            && (fenced == s || (Enabled(s, Action.Publicize(c)) && fenced == Publicize(s, c)))
            && Enabled(fenced, Action.CheckWait(c)) && read == CheckWait(fenced, c) && Enabled(read, Action.Wake)
  {
    hide Counts, Core, Holds, CheckWait, Target;
    ReachableKeepsInv(s);
    var c := CounterOf(s.pc.goal);
    fenced := s;
    if ThreadOf(s, c) == Stored {
      PublicizeKeeps(s, c);
      fenced := Publicize(s, c);
      TargetStays(s, fenced, s.pc.goal);
    }
    CoreCounts(fenced);
    CheckRaises(fenced);
    read := CheckWait(fenced, c);
    CheckWaitKeepsPc(fenced, c);
  }

  lemma TargetStays(s: State, t: State, goal: Goal)
    requires t.published == s.published && t.buffers == s.buffers
    ensures Target(t, goal) == Target(s, goal)
  {
  }

  lemma CheckWaitKeepsPc(s: State, c: Counter)
    ensures CheckWait(s, c).pc == s.pc
  {
  }

  /** WaitFor reports success only with the counter at or past its target. */
  lemma SuccessIsReached(s: State)
    requires Reachable(s) && s.pc.Waited? && s.pc.result == AtTarget
    ensures CountOf(s, CounterOf(s.pc.goal)) >= Target(s, s.pc.goal)
  {
    ReachableKeepsInv(s);
  }

  /** The driver's own next steps in WaitFor, until it ends or sleeps; `prepared` says when the sleep can be prepared. */
  function Alone(s: State, prepared: seq<bool>): State
    decreases |prepared|
  {
    if prepared == [] || !s.pc.Waiting? || s.pc.at == Asleep then s
    else Alone(WaitStep(s, s.pc.at, s.pc.goal, prepared[0]), prepared[1..])
  }

  /** Steps to success once the target is reached, and to the loss after a reset. */
  function ToTarget(at: Point): nat {
    match at
    case Hold => 1 case LastHold => 1 case Top => 2 case LastCheck => 2 case Disarm => 3
    case Recheck => 4 case Fence => 5 case Arm => 6 case Prepare => 7 case _ => 8
  }

  function ToLoss(at: Point): nat {
    match at
    case Top => 1 case LastCheck => 1 case Disarm => 2 case Confirm => 3
    case Recheck => 4 case Fence => 5 case Arm => 6 case Prepare => 7 case _ => 8
  }

  lemma WaitStepSees(s: State, at: Point, goal: Goal, prepared: bool)
    requires at != Asleep
    ensures var t := WaitStep(s, at, goal, prepared);
            Current(t) == Current(s) && Holds(t, goal) == Holds(s, goal) && (t.pc.Waiting? ==> t.pc.goal == goal)
  {
  }

  /** A waiter that is awake and whose target the page shows reached soon returns success; one about to sleep sleeps first. */
  lemma {:induction false} WaitSucceeds(s: State, prepared: seq<bool>)
    requires s.pc.Waiting? && s.pc.at !in {Asleep, Confirm} && s.guest.Active && s.live && Holds(s, s.pc.goal)
    requires |prepared| >= ToTarget(s.pc.at) && forall i :: 0 <= i < |prepared| ==> prepared[i]
    ensures Alone(s, prepared).pc == Waited(AtTarget, s.pc.goal)
    decreases |prepared|
  {
    hide Holds, TargetWord;
    var t := WaitStep(s, s.pc.at, s.pc.goal, true);
    WaitStepSees(s, s.pc.at, s.pc.goal, true);
    if t.pc.Waiting? {
      WaitSucceeds(t, prepared[1..]);
    }
  }

  /** After a reset it soon returns the loss, unless the counter was reached before. */
  lemma {:induction false} WaitIsLost(s: State, prepared: seq<bool>)
    requires s.pc.Waiting? && s.pc.at !in {Asleep, LastHold} && !(s.guest.Active && s.live) && !Holds(s, s.pc.goal)
    requires |prepared| >= ToLoss(s.pc.at) && forall i :: 0 <= i < |prepared| ==> prepared[i]
    ensures Alone(s, prepared).pc == Waited(WasReset, s.pc.goal)
    decreases |prepared|
  {
    hide Holds, TargetWord;
    var t := WaitStep(s, s.pc.at, s.pc.goal, true);
    WaitStepSees(s, s.pc.at, s.pc.goal, true);
    if t.pc.Waiting? {
      WaitIsLost(t, prepared[1..]);
    }
  }

  /** Steps until a wait with an unreached target sleeps. */
  function ToSleep(at: Point): nat {
    match at
    case Asleep => 0 case Confirm => 1 case LastHold => 1 case Recheck => 2 case LastCheck => 2 case Fence => 3
    case Arm => 4 case Prepare => 5 case Hold => 6 case Top => 7 case Disarm => 8
  }

  /** Left to itself the driver never spins: whatever has happened, within eight steps the wait is over or asleep. */
  lemma {:induction false} WaitEndsOrSleeps(s: State, prepared: seq<bool>)
    requires s.pc.Waiting?
    requires s.pc.at == Asleep || |prepared| >= if Holds(s, s.pc.goal) then ToTarget(s.pc.at) else if Current(s) then ToSleep(s.pc.at) else ToLoss(s.pc.at)
    ensures var pc := Alone(s, prepared).pc; pc.Waited? || pc == Waiting(Asleep, s.pc.goal)
    decreases |prepared|
  {
    hide Holds, Current, TargetWord;
    if s.pc.at != Asleep && prepared != [] {
      var t := WaitStep(s, s.pc.at, s.pc.goal, prepared[0]);
      WaitStepSees(s, s.pc.at, s.pc.goal, prepared[0]);
      if t.pc.Waiting? {
        WaitEndsOrSleeps(t, prepared[1..]);
      }
    }
  }

  /** A caller goes on at once exactly when fewer than sixteen published entries are uncompleted, as far as the page shows; else it waits for that. */
  lemma RingWaitIff(s: State)
    requires Reachable(s) && s.pc.Idle? && s.live
    ensures Shape(s)
    ensures Next(s, Action.CallBuffer).pc
            == if |s.published| < Seen(|s.outcomes|, s.executor) + DEPTH then Buffering else Waiting(Top, Depth)
  {
    hide OwnersHold, RequestsHold, OutcomesHold, CommandsHold, Copied, Answered, SettledWell, Accounted, DoReap, Sub32;
    ReachableKeepsInv(s);
    ReapKeepsCore(s);
    ReapSettles(s);
    DoReapKeepsRest(s);
    var t := DoReap(s);
    WrappedSum(|t.published|, |t.settled|);
    SmallWord(|t.published| - |t.settled|);
  }

  /** Then it builds its commands exactly when the device has copied the buffer's last use; else it waits for that. */
  lemma SpaceWaitIff(s: State)
    requires Reachable(s) && s.pc.Buffering?
    ensures CheckSpace(s).pc
            == if |s.published| < Seen(|s.received|, s.consumer) + |s.buffers| then Building else Waiting(Top, Space)
  {
    hide Core, Holds;
    ReachableKeepsInv(s);
    CoreCounts(s);
    HoldsIsComparison(s, Space);
  }

  /** A wait for a slot or a buffer that succeeds goes on to the next stage. */
  lemma WaitThenGoesOn(s: State, prepared: seq<bool>)
    requires Shape(s) && s.pc.Waiting? && s.pc.at !in {Asleep, Confirm} && s.guest.Active && s.live && Holds(s, s.pc.goal)
    requires |prepared| >= ToTarget(s.pc.at) && forall i :: 0 <= i < |prepared| ==> prepared[i]
    ensures var t := Alone(s, prepared);
            Shape(t) && Enabled(t, Action.Finish) && Next(t, Action.Finish).pc == match s.pc.goal case Depth => Buffering case Space => Building case Entry => Idle
  {
    hide Holds, DoReap, Shape;
    WaitSucceeds(s, prepared);
    AloneKeepsShape(s, prepared);
    DoReapKeepsRest(Alone(s, prepared));
  }

  lemma {:induction false} AloneKeepsShape(s: State, prepared: seq<bool>)
    requires Shape(s)
    ensures Shape(Alone(s, prepared))
    decreases |prepared|
  {
    hide Holds, Current, TargetWord;
    if prepared != [] && s.pc.Waiting? && s.pc.at != Asleep {
      AloneKeepsShape(WaitStep(s, s.pc.at, s.pc.goal, prepared[0]), prepared[1..]);
    }
  }

  /** A sleep that ran out ends the wait: lost after a reset, else by whether the target is reached after all. */
  lemma TimeoutEndsWait(s: State, prepared: seq<bool>)
    requires Shape(s) && s.pc.Waiting? && s.pc.at == Asleep && |prepared| >= 2
    ensures Alone(Next(s, Action.TimeOut), prepared).pc
            == Waited(if !(s.guest.Active && s.live) then WasReset else if Holds(s, s.pc.goal) then AtTarget else TimedOut, s.pc.goal)
  {
    hide Holds, TargetWord;
    var t := TimeOut(s, s.pc.goal);
    assert Holds(t, s.pc.goal) == Holds(s, s.pc.goal) by { TimeOutSees(s, s.pc.goal); }
    var u := WaitStep(t, LastCheck, s.pc.goal, prepared[0]);
    WaitStepSees(t, LastCheck, s.pc.goal, prepared[0]);
    assert Alone(t, prepared) == Alone(u, prepared[1..]);
    if u.pc.Waiting? {
      assert Alone(u, prepared[1..]) == Alone(WaitStep(u, LastHold, s.pc.goal, prepared[1..][0]), prepared[1..][1..]);
    }
  }

  lemma TimeOutSees(s: State, goal: Goal)
    ensures Holds(TimeOut(s, goal), goal) == Holds(s, goal)
  {
  }

  // ---- Whose interrupt it is ----

  /** WAIT is armed only around the sleep, for the driver's own target, and an interrupt since then says that it was reached. */
  ghost predicate OwnWait(s: State) {
    match s.pc
    case Waiting(at, goal) =>
      if at in {Recheck, Confirm, Asleep, Disarm} then
        var c := CounterOf(goal);
        Armed(s, goal) && (s.irq ==> Seen(CountOf(s, c), ThreadOf(s, c)) >= Target(s, goal))
      else s.waitFor == 0 && (at in {Arm, Fence} ==> !s.irq)
    case _ => s.waitFor == 0
  }

  lemma OwnWaitKeeps(s: State, a: Action)
    requires Inv(s) && OwnWait(s) && Enabled(s, a)
    ensures OwnWait(Next(s, a))
  {
    hide Inv, OwnWait;
    InvHasShape(s);
    if a.CheckWait? {
      CheckedOwn(s, a.counter);
    } else if s.pc.Waiting? {
      WaitingOwn(s, a);
    } else {
      BusyOwn(s, a);
    }
  }

  lemma BusyOwn(s: State, a: Action)
    requires Shape(s) && OwnWait(s) && Enabled(s, a) && !s.pc.Waiting? && !a.CheckWait?
    ensures OwnWait(Next(s, a))
  {
    hide Shape, Holds, Armed, Target, Build, Consume, Complete;
    if a.Build? || a.Consume? || a.Complete? {
      KeepsWaitWords(s, a);
    }
  }

  lemma WaitingOwn(s: State, a: Action)
    requires Shape(s) && OwnWait(s) && Enabled(s, a) && s.pc.Waiting? && !a.CheckWait?
    ensures OwnWait(Next(s, a))
  {
    hide Shape, Armed, Target, WaitStep, Consume, Complete, OwnWait, Seen;
    if a.WaitStep? {
      StepOwn(s, a.prepared);
    } else {
      DeviceOwn(s, a);
    }
  }

  lemma StepOwn(s: State, prepared: bool)
    requires OwnWait(s) && s.pc.Waiting? && s.pc.at != Asleep
    ensures OwnWait(WaitStep(s, s.pc.at, s.pc.goal, prepared))
  {
    hide Shape, Holds, TargetWord, Current, Target, Seen;
    TargetAnywhere(s, WaitStep(s, s.pc.at, s.pc.goal, prepared), s.pc.goal);
    TargetStays(s, WaitStep(s, s.pc.at, s.pc.goal, prepared), s.pc.goal);
  }

  lemma DeviceOwn(s: State, a: Action)
    requires Shape(s) && OwnWait(s) && Enabled(s, a) && s.pc.Waiting? && !a.CheckWait? && !a.WaitStep?
    ensures OwnWait(Next(s, a))
  {
    hide Shape, TargetWord, Target, Consume, Complete;
    if a.Consume? || a.Complete? {
      KeepsWaitWords(s, a);
    }
    TargetAnywhere(s, Next(s, a), s.pc.goal);
    TargetStays(s, Next(s, a), s.pc.goal);
  }

  lemma KeepsWaitWords(s: State, a: Action)
    requires Shape(s) && Enabled(s, a) && (a.Build? || a.Consume? || a.Complete?)
    ensures var t := Next(s, a);
            t == s.(ring := t.ring, buffers := t.buffers, received := t.received, outcomes := t.outcomes, consumer := t.consumer, executor := t.executor)
            && (a.Build? || (t.buffers == s.buffers && t.published == s.published))
            && (a.Consume? ==> |t.received| == |s.received| + 1 && s.consumer == Ready && t.consumer == Stored && t.executor == s.executor && t.outcomes == s.outcomes)
            && (a.Complete? ==> |t.outcomes| == |s.outcomes| + 1 && s.executor == Ready && t.executor == Stored && t.consumer == s.consumer && t.received == s.received)
  {
  }

  lemma CheckedOwn(s: State, c: Counter)
    requires Inv(s) && OwnWait(s) && Enabled(s, Action.CheckWait(c))
    ensures OwnWait(CheckWait(s, c))
  {
    hide Core, Counts, Reached, TargetWord;
    CoreCounts(s);
    if s.pc.Waiting? {
      HoldsIsComparison(s, s.pc.goal);
      TargetAnywhere(s, CheckWait(s, c), s.pc.goal);
    }
  }

  lemma {:induction false} RunKeepsOwn(states: seq<State>, actions: seq<Action>, i: nat)
    requires Run(states, actions) && i <= |actions|
    ensures OwnWait(states[i])
  {
    hide Inv, Next, Enabled, OwnWait;
    if i == 0 {
      StartsUnarmed(states[0]);
    } else {
      RunKeepsOwn(states, actions, i - 1);
      RunKeepsInv(states, actions, i - 1);
      OwnWaitKeeps(states[i - 1], actions[i - 1]);
    }
  }

  lemma StartsUnarmed(s: State)
    requires Init(s)
    ensures OwnWait(s)
  {
  }

  /** No spurious wakeup: an interrupt ends the sleep only after its own target was reached; nobody else's wait is armed. */
  lemma WakesForOwnTarget(s: State)
    requires Reachable(s)
    ensures s.pc.Waiting? && s.pc.at == Asleep && s.irq ==> CountOf(s, CounterOf(s.pc.goal)) >= Target(s, s.pc.goal)
    ensures s.waitFor != 0 ==> s.pc.Waiting? && s.pc.at in {Recheck, Confirm, Asleep, Disarm}
  {
    hide Init, Next, Enabled;
    var states, actions :| Run(states, actions) && states[|actions|] == s;
    RunKeepsOwn(states, actions, |actions|);
  }

  /**
   * Every entry is settled at most once and in order, all of them once the
   * session is lost; an entry settled while it runs gets the device's own
   * outcome, and the fault table hears each asynchronous failure exactly once.
   */
  lemma FailuresAreAccounted(s: State)
    requires Reachable(s)
    ensures |s.settled| <= |s.published|
    ensures forall i :: 0 <= i < |s.settled| ==>
              (i < |s.outcomes| && s.settled[i] == s.outcomes[i]) || (!s.guest.Active && s.settled[i] == LOST)
    ensures s.guest.Faults == Play(s.start, s.events)
    ensures Failures(s.events) == Reports(s.published, s.settled, 0)
  {
    ReachableKeepsInv(s);
  }

  /** Losing the session settles everything published so far. */
  lemma LossSettlesAll(s: State)
    requires Reachable(s) && s.pc.Idle? && s.guest.Active && !s.live
    ensures Shape(s) && !DoReap(s).guest.Active && |DoReap(s).settled| == |s.published|
  {
    hide DoReap;
    ReachableKeepsInv(s);
    ReapSettles(s);
  }

  /** A reset between calls: the next reap settles every batch, as the device finished it before or as LOST. */
  lemma ResetSettlesAll(s: State)
    requires Reachable(s) && s.pc.Idle? && s.live
    ensures Shape(s) && Enabled(s, Action.Reset) && Shape(Next(s, Action.Reset))
    ensures var t := DoReap(Next(s, Action.Reset));
            && !t.guest.Active && |t.settled| == |s.published| && s.settled <= t.settled
            && forall i :: |s.settled| <= i < |s.published| ==> t.settled[i] == LOST
  {
    hide DoReap;
    ReachableKeepsInv(s);
    var t := Next(s, Action.Reset);
    StepKeeps(s, Action.Reset);
    ReapSettles(t);
  }

  /**
   * A synchronous request is answered with its own entry's outcome: status,
   * result bytes and type as the device wrote them and its error code only with
   * the ERROR bit (4). Without the DONE bit (2) the device is broken, and the
   * answer is DONE and ERROR (6) with the transport error (7).
   */
  lemma AnswersAreOwnOutcomes(s: State, k: nat)
    requires Reachable(s) && k < |s.answers|
    ensures s.answers[k].0 < |s.outcomes|
    ensures var o, a := s.outcomes[s.answers[k].0], s.answers[k].1;
            && a.ResultBytes == o.ResultBytes && a.ResultType == o.ResultType
            && (if o.Status / 2 % 2 == 1 then a.Status == o.Status && a.Error == (if o.Status / 4 % 2 == 1 then o.Error else 0)
                else a.Status == 6 && a.Error == 7)
  {
    ReachableKeepsInv(s);
  }

  /** Only the end of a successful wait for an entry answers, once, and for the entry published last. */
  lemma AnswersGrowByOne(s: State, a: Action)
    requires Reachable(s) && Shape(s) && Enabled(s, a)
    ensures var answered := a.Finish? && s.pc.result == AtTarget && s.pc.goal == Entry;
            var t := Next(s, a);
            && |t.answers| == |s.answers| + (if answered then 1 else 0) && s.answers <= t.answers
            && (answered ==> t.answers[|s.answers|].0 == |s.published| - 1)
  {
    hide Inv, Core, DoReap, Answer, AtPc, WaitStep, CheckWait, Holds, Reachable;
    ReachableKeepsInv(s);
    AtPcOf(s);
    DoReapKeepsRest(s);
    if a.WaitStep? || a.CheckWait? {
      KeepsAnswers(s, a);
    } else if a.Finish? {
      FinishNeedsEntry(s);
    }
  }

  lemma KeepsAnswers(s: State, a: Action)
    requires Shape(s) && Enabled(s, a) && (a.WaitStep? || a.CheckWait?)
    ensures Next(s, a).answers == s.answers
  {
  }

  lemma FinishNeedsEntry(s: State)
    requires AtPc(s) && s.pc.Waited?
    ensures s.pc.goal == Entry ==> |s.published| > 0
  {
  }

  lemma AtPcOf(s: State)
    requires Inv(s)
    ensures AtPc(s)
  {
  }

  ghost predicate Leads(s: State, actions: seq<Action>, t: State)
    decreases |actions|
  {
    if actions == [] then t == s
    else Shape(s) && Enabled(s, actions[0]) && Leads(Next(s, actions[0]), actions[1..], t)
  }

  /** A session with nothing under way: all that was published has been copied and completed. */
  ghost predicate AtRest(s: State) {
    && s.pc.Idle? && s.live && s.guest.Active && s.consumer == s.executor == Ready
    && |s.outcomes| == |s.received| == |s.published|
  }

  /** The driver's half of a request: a buffer at once, the batch, the doorbell. */
  function Publication(command: seq<u32>, request: Request, owner: Owner): seq<Action> {
    [Action.CallBuffer, Action.CheckSpace, Action.Build(command), Action.Fill(request, owner, false), Action.Ring]
  }

  lemma SpaceIsFree(s: State) returns (t: State)
    requires Inv(s) && AtRest(s)
    ensures Shape(s) && Enabled(s, Action.CallBuffer) && t == Next(s, Action.CallBuffer)
    ensures Inv(t) && t.pc == Buffering && Next(t, Action.CheckSpace) == t.(pc := Building)
    ensures t == s.(guest := s.guest.(Reaped := t.guest.Reaped, Faults := t.guest.Faults), settled := t.settled, events := t.events, pc := Buffering)
  {
    hide Core, AtPc, DoReap, Holds, Target, Sub32;
    InvHasShape(s);
    CoreCounts(s);
    ReapSettles(s);
    DoReapKeepsRest(s);
    StepKeeps(s, Action.CallBuffer);
    t := Next(s, Action.CallBuffer);
    SubSelf(s.guest.Produced);
    CoreCounts(t);
    HoldsIsComparison(t, Space);
    AtRestSpace(t);
  }

  lemma AtRestSpace(s: State)
    requires |s.buffers| > 0
    ensures Target(s, Space) <= |s.published|
  {
  }

  lemma RequestIsPublished(s: State, command: seq<u32>, request: Request, owner: Owner) returns (t: State)
    requires Inv(s) && AtRest(s)
    ensures Leads(s, Publication(command, request, owner), t)
    ensures Inv(t) && t.pc == Waiting(Top, Entry) && t.live && t.guest.Active && t.consumer == t.executor == Ready
    ensures t.received == s.received && t.outcomes == s.outcomes && t.answers == s.answers && |t.buffers| == |s.buffers| > 0
    ensures var r := request.(Address := BufferOf(|s.buffers|, |s.published|));
            t.published == s.published + [Batch(r, owner.(Async := false), command)] && t.buffers[r.Address] == command
  {
    hide Inv, Core, AtPc, DoReap, CallBuffer, CheckSpace;
    var s1 := SpaceIsFree(s);
    InvHasShape(s1);
    StepKeeps(s1, Action.CheckSpace);
    var s2 := Next(s1, Action.CheckSpace);
    InvHasShape(s2);
    StepKeeps(s2, Action.Build(command));
    var s3 := Next(s2, Action.Build(command));
    InvHasShape(s3);
    StepKeeps(s3, Action.Fill(request, owner, false));
    var s4 := Next(s3, Action.Fill(request, owner, false));
    InvHasShape(s4);
    StepKeeps(s4, Action.Ring);
    t := Next(s4, Action.Ring);
    ProducedIs(s2);
    var a := Publication(command, request, owner);
    assert a[1..][1..][1..][1..][1..] == [];
    assert Leads(s4, a[1..][1..][1..][1..], t);
    assert Leads(s3, a[1..][1..][1..], t);
    assert Leads(s2, a[1..][1..], t);
    assert Leads(s1, a[1..], t);
  }

  /** The device's half: copy and announce, execute and announce. */
  function Copying(): seq<Action> {
    [Action.Consume, Action.Publicize(Consumed), Action.CheckWait(Consumed)]
  }

  function Completion(o: Outcome): seq<Action> {
    [Action.Complete(o), Action.Publicize(Completed), Action.CheckWait(Completed)]
  }

  lemma ThreeSteps(s: State, a: Action, s1: State, b: Action, s2: State, c: Action, t: State)
    requires Shape(s) && Enabled(s, a) && s1 == Next(s, a)
    requires Shape(s1) && Enabled(s1, b) && s2 == Next(s1, b)
    requires Shape(s2) && Enabled(s2, c) && t == Next(s2, c)
    ensures Leads(s, [a, b, c], t)
  {
    hide Enabled, Next;
    assert [a, b, c][1..] == [b, c] && [b, c][1..] == [c] && [c][1..] == [];
    assert Leads(s2, [c], t);
    assert Leads(s1, [b, c], t);
  }

  lemma EntryIsCopied(s: State) returns (t: State)
    requires Inv(s) && s.live && s.guest.Active && s.consumer == Ready && |s.received| == |s.published| - 1
    ensures Leads(s, Copying(), t) && Inv(t)
    ensures t == s.(received := t.received, consumedWord := t.consumedWord, irq := t.irq)
    ensures |t.received| == |s.received| + 1 && s.received <= t.received
  {
    hide Inv, Core, AtPc, Leads;
    CountsOf(s);
    StepKeeps(s, Action.Consume);
    var s1 := Next(s, Action.Consume);
    CountsOf(s1);
    StepKeeps(s1, Action.Publicize(Consumed));
    var s2 := Next(s1, Action.Publicize(Consumed));
    CountsOf(s2);
    StepKeeps(s2, Action.CheckWait(Consumed));
    t := Next(s2, Action.CheckWait(Consumed));
    ThreeSteps(s, Action.Consume, s1, Action.Publicize(Consumed), s2, Action.CheckWait(Consumed), t);
  }

  lemma EntryIsCompleted(s: State, o: Outcome) returns (t: State)
    requires Inv(s) && s.live && s.guest.Active && s.executor == Ready && |s.outcomes| < |s.received|
    ensures Leads(s, Completion(o), t) && Inv(t)
    ensures t == s.(outcomes := s.outcomes + [o], completedWord := t.completedWord, irq := t.irq, ring := t.ring)
  {
    hide Inv, Core, AtPc, Leads;
    CountsOf(s);
    StepKeeps(s, Action.Complete(o));
    var s1 := Next(s, Action.Complete(o));
    CountsOf(s1);
    StepKeeps(s1, Action.Publicize(Completed));
    var s2 := Next(s1, Action.Publicize(Completed));
    CountsOf(s2);
    StepKeeps(s2, Action.CheckWait(Completed));
    t := Next(s2, Action.CheckWait(Completed));
    ThreeSteps(s, Action.Complete(o), s1, Action.Publicize(Completed), s2, Action.CheckWait(Completed), t);
  }

  lemma CountsOf(s: State)
    requires Inv(s)
    ensures Shape(s) && s.producedWord == |s.published| % WORD && |s.published| <= |s.outcomes| + DEPTH + 1
  {
  }

  function Answering(): seq<Action> {
    [Action.WaitStep(true), Action.WaitStep(true), Action.Finish]
  }

  lemma EntryIsAnswered(s: State) returns (t: State)
    requires Inv(s) && s.pc == Waiting(Top, Entry) && s.live && s.guest.Active && s.executor == Ready
    requires |s.outcomes| == |s.published| > 0
    ensures Leads(s, Answering(), t) && Inv(t)
    ensures t.pc == Idle && |t.answers| == |s.answers| + 1 && s.answers <= t.answers && t.answers[|s.answers|].0 == |s.published| - 1
    ensures t.outcomes == s.outcomes && t.received == s.received && t.published == s.published
    ensures t.live && t.guest.Active && t.consumer == s.consumer && t.executor == Ready && t.buffers == s.buffers
  {
    hide Inv, Core, AtPc, DoReap, Holds, Target;
    CountsHold(s);
    HoldsIsComparison(s, Entry);
    EntryTarget(s);
    InvHasShape(s);
    StepKeeps(s, Action.WaitStep(true));
    var s1 := Next(s, Action.WaitStep(true));
    InvHasShape(s1);
    StepKeeps(s1, Action.WaitStep(true));
    WaitStepSees(s, Top, Entry, true);
    var s2 := Next(s1, Action.WaitStep(true));
    InvHasShape(s2);
    StepKeeps(s2, Action.Finish);
    t := Next(s2, Action.Finish);
    DoReapKeepsRest(s2);
    ReapStaysActive(s2);
    ThreeSteps(s, Action.WaitStep(true), s1, Action.WaitStep(true), s2, Action.Finish, t);
  }

  lemma CountsHold(s: State)
    requires Inv(s)
    ensures Counts(s) && Core(s)
  {
  }

  lemma ReapStaysActive(s: State)
    requires Inv(s) && s.live && s.guest.Active && !s.pc.Ringing?
    ensures Shape(s) && DoReap(s).guest.Active
  {
    hide DoReap, AtPc;
    InvHasShape(s);
    ReapSettles(s);
  }

  lemma EntryTarget(s: State)
    ensures Target(s, Entry) == |s.published|
  {
  }

  /**
   * A request on a session at rest is served by the steps of both sides alone:
   * the device copies the very command, the caller gets the device's outcome,
   * read as AnswersAreOwnOutcomes says, and the session is at rest again.
   */
  lemma RequestIsServed(s: State, command: seq<u32>, request: Request, owner: Owner, o: Outcome) returns (actions: seq<Action>, t: State)
    requires Inv(s) && AtRest(s) && Steady(|s.buffers|, |s.published| + 1)
    ensures Leads(s, actions, t) && Inv(t) && AtRest(t)
    ensures |t.published| == |s.published| + 1 && t.outcomes == s.outcomes + [o]
    ensures t.received == s.received + [Copy(request.(Address := BufferOf(|s.buffers|, |s.published|)), command)]
    ensures |t.answers| == |s.answers| + 1 && s.answers <= t.answers && t.answers[|s.answers|].0 == |s.published|
    ensures var a := t.answers[|s.answers|].1;
            && a.ResultBytes == o.ResultBytes && a.ResultType == o.ResultType
            && (if o.Status / 2 % 2 == 1 then a.Status == o.Status && a.Error == (if o.Status / 4 % 2 == 1 then o.Error else 0)
                else a.Status == 6 && a.Error == 7)
  {
    hide Inv, Core, AtPc, Leads, Publication, Copying, Completion, Answering;
    var s1 := RequestIsPublished(s, command, request, owner);
    var s2 := EntryIsCopied(s1);
    var s3 := EntryIsCompleted(s2, o);
    t := EntryIsAnswered(s3);
    var half := Publication(command, request, owner) + Copying();
    actions := half + Completion(o) + Answering();
    LeadsOn(s, Publication(command, request, owner), s1, Copying(), s2);
    LeadsOn(s, half, s2, Completion(o), s3);
    LeadsOn(s, half + Completion(o), s3, Answering(), t);
    LastIsOwn(t, |s.answers|);
    assert t.received == s.received + [t.received[|s.received|]];
  }

  lemma LastIsOwn(s: State, k: nat)
    requires Inv(s) && k < |s.answers| && Steady(|s.buffers|, |s.published|)
    ensures s.answers[k].0 < |s.outcomes| && s.answers[k].1 == Answer(s.outcomes[s.answers[k].0])
    ensures |s.received| <= |s.published| && forall i :: 0 <= i < |s.received| ==> s.received[i] == Copy(s.published[i].request, s.published[i].command)
  {
  }

  lemma {:induction false} LeadsOn(s: State, a: seq<Action>, t: State, b: seq<Action>, u: State)
    requires Leads(s, a, t) && Leads(t, b, u)
    ensures Leads(s, a + b, u)
    decreases |a|
  {
    hide Next, Enabled, Shape;
    if a == [] {
      assert a + b == b;
    } else {
      LeadsOn(Next(s, a[0]), a[1..], t, b, u);
      assert (a + b)[1..] == a[1..] + b;
    }
  }

  lemma ProducedIs(s: State)
    requires Inv(s)
    ensures |s.buffers| > 0 && s.guest.Produced % |s.buffers| == BufferOf(|s.buffers|, |s.published|)
  {
    hide AtPc;
    CoreCounts(s);
    BufferOfIs(|s.buffers|, |s.published|);
  }

  /**
   * Buffer i % Buffers is safe for ever exactly when the number of buffers
   * divides 2^32: with three buffers, say, indices 0xffffffff and 0 share one.
   */
  lemma BufferReuseIsSafeIff(n: nat)
    requires 0 < n <= WORD
    ensures (forall i: nat, j: nat :: i < j < i + n ==> BufferOf(n, i) != BufferOf(n, j)) <==> WORD % n == 0
  {
    hide BufferOf;
    if WORD % n == 0 {
      forall i: nat, j: nat | i < j < i + n
        ensures BufferOf(n, i) != BufferOf(n, j)
      {
        BufferOfDistinct(n, i, j, j);
      }
    } else {
      BufferClash(n);
    }
  }

  lemma BufferClash(n: nat)
    requires 0 < n <= WORD && WORD % n != 0
    ensures WORD % n < n && BufferOf(n, WORD - WORD % n) == BufferOf(n, WORD)
  {
    hide BufferOf;
    var q, r := WORD / n, WORD % n;
    assert WORD - r == q * n + 0;
    ModUnique(WORD - r, q, 0, n);
    SmallWord(WORD - r);
    BufferOfIs(n, WORD - r);
    BufferOfIs(n, WORD);
    ModUnique(0, 0, 0, n);
  }
}
