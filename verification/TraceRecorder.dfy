/**
 * The trace recorder (src/perf.rs, lines 162-197 and 228-300): any number of
 * producer threads, the collector, and start and stop under their lock,
 * interleaved one atomic operation at a time.
 */
module TraceRecorder {

  datatype Option<T> = None | Some(value: T)
  datatype Event = Event(name: string, ts: nat, dur: nat, id: nat, value: nat, tid: nat)
  datatype Tagged = Tagged(session: nat, event: Event)
  datatype Capture = Capture(start: nat, end: nat, dropped: nat, samples: seq<Event>)

  /** The queue's capacity and the collector's bound. */
  datatype Limits = Limits(capacity: nat, samples: nat)

  /**
   * Where a producer is in record_epoch: not in it; past the first ACTIVE
   * check; counted in PRODUCERS; past the second check; past the session
   * check; refused by a full queue; about to leave.
   */
  datatype Place = Outside | Entering | Counted | Enabled | Matched | Refused | Leaving

  datatype Producer = Producer(place: Place, epoch: nat, event: Event)

  /** Where the collector is in its loop. */
  datatype Turn = Popping | Holding(tagged: Tagged) | AskStop | AskProducers | AskEmpty | Exited

  datatype Collector = NoCollector | Collector(epoch: nat, start: nat, turn: Turn, samples: seq<Event>)

  /** The next operation of start (Draining to Opening) or of stop (Timing to Joining). */
  datatype Control = Idle | Draining | Clearing | Numbering | Spawning | Opening | Running | Timing | Ending(end: nat) | Joining(end: nat)

  /** What this session's producers did: pushed, in order; refused; and what the collector has handled. */
  datatype Log = Log(pushed: seq<Tagged>, refused: nat, handled: seq<Tagged>)

  datatype State = State(active: bool, session: nat, dropped: nat, producers: nat, queue: seq<Tagged>, done: bool,
                         threads: seq<Producer>, collector: Collector, control: Control, log: Log, last: Option<Capture>)

  datatype Action =
    | Call(thread: nat, epoch: nat, event: Event)
    | Produce(thread: nat)
    | Collect
    | Controls(now: nat, fails: bool)

  // ---- Steps ----

  function At(s: State, i: nat, place: Place): State
    requires i < |s.threads|
  {
    s.(threads := s.threads[i := s.threads[i].(place := place)])
  }

  /** One operation of record_epoch. */
  function Produced(l: Limits, s: State, i: nat): State
    requires i < |s.threads|
  {
    var p := s.threads[i];
    match p.place
    case Outside => s
    case Entering => At(s, i, Counted).(producers := s.producers + 1)
    case Counted => At(s, i, if s.active then Enabled else Leaving)
    case Enabled => At(s, i, if p.epoch == s.session then Matched else Leaving)
    case Matched =>
      if |s.queue| < l.capacity then
        var e := Tagged(p.epoch, p.event);
        At(s, i, Leaving).(queue := s.queue + [e], log := s.log.(pushed := s.log.pushed + [e]))
      else
        At(s, i, Refused).(log := s.log.(refused := s.log.refused + 1))
    case Refused => At(s, i, Leaving).(dropped := s.dropped + 1)
    case Leaving => At(s, i, Outside).(producers := if s.producers > 0 then s.producers - 1 else 0)
  }

  /** One operation of the collector's loop. */
  function Collected(l: Limits, s: State): State {
    if s.collector.NoCollector? then s
    else
      var c := s.collector;
      match c.turn
      case Popping =>
        if s.queue == [] then s.(collector := c.(turn := AskStop))
        else s.(collector := c.(turn := Holding(s.queue[0])), queue := s.queue[1..])
      case Holding(t) =>
        var s2 := s.(log := s.log.(handled := s.log.handled + [t]));
        if t.session != c.epoch || t.event.ts < c.start then s2.(collector := c.(turn := Popping))
        else if |c.samples| == l.samples then s2.(collector := c.(turn := Popping), dropped := s.dropped + 1)
        else s2.(collector := c.(turn := Popping, samples := c.samples + [t.event]))
      case AskStop => s.(collector := c.(turn := if s.done then AskProducers else Popping))
      case AskProducers => s.(collector := c.(turn := if s.producers == 0 then AskEmpty else Popping))
      case AskEmpty => s.(collector := c.(turn := if s.queue == [] then Exited else Popping))
      case Exited => s
  }

  function Within(samples: seq<Event>, start: nat, end: nat): seq<Event> {
    if samples == [] then []
    else Within(samples[..|samples| - 1], start, end)
         + (var e := samples[|samples| - 1]; if start <= e.ts <= end then [e] else [])
  }

  /** One operation of start or stop; the collector's thread may fail to start. */
  function Controlled(s: State, now: nat, fails: bool): State {
    match s.control
    case Idle => s.(control := Draining)
    case Draining => if s.queue == [] then s.(control := Clearing) else s.(queue := s.queue[1..])
    case Clearing => s.(dropped := 0, control := Numbering)
    case Numbering => s.(session := s.session + 1, control := Spawning, log := Log([], 0, []))
    case Spawning =>
      if fails then s.(control := Idle)
      else s.(done := false, collector := Collector(s.session, now, Popping, []), control := Opening)
    case Opening => s.(active := true, control := Running)
    case Running => s.(active := false, control := Timing)
    case Timing => s.(control := Ending(now))
    case Ending(end) => s.(done := true, control := Joining(end))
    case Joining(end) =>
      if s.collector.NoCollector? || s.collector.turn != Exited then s
      else
        var c := s.collector;
        s.(last := Some(Capture(c.start, end, s.dropped, Within(c.samples, c.start, end))), collector := NoCollector, control := Idle)
  }

  function Next(l: Limits, s: State, a: Action): State {
    match a
    case Call(i, epoch, event) =>
      if i < |s.threads| && s.threads[i].place == Outside && s.active
      then s.(threads := s.threads[i := Producer(Entering, epoch, event)]) else s
    case Produce(i) => if i < |s.threads| then Produced(l, s, i) else s
    case Collect => Collected(l, s)
    case Controls(now, fails) => Controlled(s, now, fails)
  }

  function Run(l: Limits, s: State, actions: seq<Action>): State {
    if actions == [] then s else Next(l, Run(l, s, actions[..|actions| - 1]), actions[|actions| - 1])
  }

  /** A process in which nothing was ever recorded. */
  predicate Initial(s: State) {
    && !s.active && s.dropped == 0 && s.producers == 0 && s.queue == [] && s.control == Idle && s.collector == NoCollector
    && s.log == Log([], 0, []) && s.last == None && !s.done
    && forall i :: 0 <= i < |s.threads| ==> s.threads[i].place == Outside
  }

  // ---- Counting threads ----

  predicate InFlight(p: Place) {
    p != Outside && p != Entering
  }

  predicate IsRefused(p: Place) {
    p == Refused
  }

  function Count(threads: seq<Producer>, which: Place -> bool): nat {
    if threads == [] then 0
    else Count(threads[..|threads| - 1], which) + if which(threads[|threads| - 1].place) then 1 else 0
  }

  function One(b: bool): nat {
    if b then 1 else 0
  }

  lemma {:induction false} CountUpdate(threads: seq<Producer>, which: Place -> bool, i: nat, p: Producer)
    requires i < |threads|
    ensures Count(threads[i := p], which) + One(which(threads[i].place)) == Count(threads, which) + One(which(p.place))
  {
    var n := |threads| - 1;
    if i == n {
      assert threads[i := p][..n] == threads[..n];
    } else {
      CountUpdate(threads[..n], which, i, p);
      assert threads[i := p][..n] == threads[..n][i := p];
    }
  }

  lemma {:induction false} CountAll(threads: seq<Producer>, which: Place -> bool, i: nat)
    requires i < |threads| && which(threads[i].place)
    ensures Count(threads, which) > 0
  {
    if i < |threads| - 1 {
      CountAll(threads[..|threads| - 1], which, i);
    }
  }

  lemma {:induction false} CountNone(threads: seq<Producer>, which: Place -> bool)
    requires forall i :: 0 <= i < |threads| ==> !which(threads[i].place)
    ensures Count(threads, which) == 0
  {
    if threads != [] {
      CountNone(threads[..|threads| - 1], which);
    }
  }

  // ---- What every step keeps ----

  predicate Hot(p: Place) {
    p == Enabled || p == Matched || p == Refused
  }

  predicate Late(t: Turn) {
    t == AskEmpty || t == Exited
  }

  /** A producer past the second ACTIVE check may still push: the collector has not passed its own last checks. */
  predicate Open(s: State) {
    && (s.control.Running? || s.control.Timing? || s.control.Ending? || s.control.Joining?)
    && s.collector.Collector? && !Late(s.collector.turn)
  }

  ghost predicate ThreadsOk(s: State) {
    && s.producers == Count(s.threads, InFlight)
    && (forall i :: 0 <= i < |s.threads| ==>
          && (Hot(s.threads[i].place) ==> Open(s))
          && (s.threads[i].place == Matched || s.threads[i].place == Refused ==> s.threads[i].epoch == s.session))
  }

  predicate HasCollector(c: Control) {
    c.Opening? || c.Running? || c.Timing? || c.Ending? || c.Joining?
  }

  ghost predicate FlagsOk(s: State) {
    && (s.active ==> s.control == Running)
    && (s.collector.Collector? <==> HasCollector(s.control))
    && (s.collector.Collector? ==>
          && s.collector.epoch == s.session && (s.done ==> s.control.Joining?)
          && (s.collector.turn == AskProducers || Late(s.collector.turn) ==> s.done))
  }

  ghost predicate OfSession(ts: seq<Tagged>, session: nat) {
    forall i :: 0 <= i < |ts| ==> ts[i].session == session
  }

  function Held(t: Turn): seq<Tagged> {
    if t.Holding? then [t.tagged] else []
  }

  /** The events not older than the capture. */
  function Since(start: nat, ts: seq<Tagged>): seq<Event> {
    if ts == [] then []
    else Since(start, ts[..|ts| - 1]) + if ts[|ts| - 1].event.ts >= start then [ts[|ts| - 1].event] else []
  }

  function First(n: nat, es: seq<Event>): (r: seq<Event>)
    ensures |r| == (if |es| <= n then |es| else n) && r <= es
  {
    if |es| <= n then es else es[..n]
  }

  /** The samples are the first of what was handled; everything else was counted as dropped. */
  ghost predicate Accounted(l: Limits, s: State) {
    s.collector.Collector? ==>
      var since := Since(s.collector.start, s.log.handled);
      && s.log.pushed == s.log.handled + Held(s.collector.turn) + s.queue && OfSession(s.log.pushed, s.session)
      && s.collector.samples == First(l.samples, since)
      && s.dropped + Count(s.threads, IsRefused) == s.log.refused + (|since| - |s.collector.samples|)
  }

  ghost predicate QueueOk(s: State) {
    && (s.collector.NoCollector? || s.collector.turn == Exited ==> s.queue == [])
    && (s.control == Numbering || s.control == Spawning ==> s.dropped == 0)
    && (s.control == Spawning ==> s.log == Log([], 0, []))
  }

  ghost predicate Inv(l: Limits, s: State) {
    ThreadsOk(s) && FlagsOk(s) && QueueOk(s) && Accounted(l, s)
  }

  lemma InitialInv(l: Limits, s: State)
    requires Initial(s)
    ensures Inv(l, s)
  {
    CountNone(s.threads, InFlight);
  }

  lemma NoneHot(s: State)
    requires ThreadsOk(s) && !Open(s)
    ensures forall i :: 0 <= i < |s.threads| ==> !Hot(s.threads[i].place)
    ensures Count(s.threads, IsRefused) == 0
  {
    CountNone(s.threads, IsRefused);
  }

  /** With no producer counted none is hot, so the collector may look at the queue one last time. */
  lemma NoneCounted(s: State)
    requires ThreadsOk(s) && s.producers == 0
    ensures forall i :: 0 <= i < |s.threads| ==> !Hot(s.threads[i].place)
  {
    forall i | 0 <= i < |s.threads|
      ensures !InFlight(s.threads[i].place)
    {
      if InFlight(s.threads[i].place) {
        CountAll(s.threads, InFlight, i);
      }
    }
  }

  /** A thread moves: PRODUCERS and the refused count follow it. */
  lemma ThreadMoves(s: State, i: nat, p: Producer, producers: nat)
    requires ThreadsOk(s) && i < |s.threads|
    requires Hot(p.place) ==> Open(s)
    requires p.place == Matched || p.place == Refused ==> p.epoch == s.session
    requires producers + One(InFlight(s.threads[i].place)) == s.producers + One(InFlight(p.place))
    ensures ThreadsOk(s.(threads := s.threads[i := p], producers := producers))
    ensures Count(s.threads[i := p], IsRefused) + One(IsRefused(s.threads[i].place)) == Count(s.threads, IsRefused) + One(IsRefused(p.place))
  {
    CountUpdate(s.threads, InFlight, i, p);
    CountUpdate(s.threads, IsRefused, i, p);
    var s2 := s.(threads := s.threads[i := p], producers := producers);
    forall j | 0 <= j < |s2.threads|
      ensures (Hot(s2.threads[j].place) ==> Open(s2)) && (s2.threads[j].place == Matched || s2.threads[j].place == Refused ==> s2.threads[j].epoch == s2.session)
    {
      assert s2.threads[j] == if j == i then p else s.threads[j];
    }
  }

  /** ThreadsOk looks at the recorder only through Open and the session. */
  lemma ThreadsSame(s: State, s2: State)
    requires ThreadsOk(s) && s2.threads == s.threads && s2.producers == s.producers
    requires forall i :: 0 <= i < |s.threads| && Hot(s.threads[i].place) ==> Open(s2) && s2.session == s.session
    ensures ThreadsOk(s2)
  {
  }

  lemma ActiveIsOpen(s: State)
    requires FlagsOk(s) && s.active
    ensures Open(s)
  {
  }

  lemma {:induction false} SinceOneMore(start: nat, ts: seq<Tagged>, t: Tagged)
    ensures Since(start, ts + [t]) == Since(start, ts) + if t.event.ts >= start then [t.event] else []
  {
    assert (ts + [t])[..|ts|] == ts;
  }

  lemma CountedSteps(l: Limits, s: State, i: nat)
    requires Inv(l, s) && i < |s.threads| && s.threads[i].place != Matched && s.threads[i].place != Refused
    ensures Inv(l, Produced(l, s, i))
  {
    hide Since, Count, Open, Held, First, OfSession, HasCollector, Late;
    var p, s2 := s.threads[i], Produced(l, s, i);
    if p.place == Counted && s.active {
      ActiveIsOpen(s);
    }
    if p.place == Leaving {
      CountAll(s.threads, InFlight, i);
    }
    if p.place != Outside {
      ThreadMoves(s, i, s2.threads[i], s2.producers);
      assert s2 == s.(threads := s.threads[i := s2.threads[i]], producers := s2.producers);
    }
  }

  /** A hot producer's session is open: pushing and dropping reach this capture. */
  lemma HotIsOpen(s: State, i: nat)
    requires ThreadsOk(s) && i < |s.threads| && Hot(s.threads[i].place)
    ensures Open(s) && (s.threads[i].place != Enabled ==> s.threads[i].epoch == s.session)
  {
  }

  lemma PushSteps(l: Limits, s: State, i: nat)
    requires Inv(l, s) && i < |s.threads| && (s.threads[i].place == Matched || s.threads[i].place == Refused)
    ensures Inv(l, Produced(l, s, i))
  {
    hide Since, Count, Held, First, HasCollector;
    var p, s2 := s.threads[i], Produced(l, s, i);
    HotIsOpen(s, i);
    ThreadMoves(s, i, s2.threads[i], s2.producers);
    ThreadsSame(s.(threads := s.threads[i := s2.threads[i]], producers := s2.producers), s2);
    if p.place == Matched && |s.queue| < l.capacity {
      Regroup(s.log.handled, Held(s.collector.turn), s.queue, Tagged(p.epoch, p.event));
    }
  }

  lemma Regroup(a: seq<Tagged>, b: seq<Tagged>, c: seq<Tagged>, e: Tagged)
    ensures a + b + c + [e] == a + b + (c + [e])
  {
  }

  lemma CallStep(l: Limits, s: State, i: nat, p: Producer)
    requires Inv(l, s) && i < |s.threads| && s.threads[i].place == Outside && p.place == Entering
    ensures Inv(l, s.(threads := s.threads[i := p]))
  {
    hide Since, Count, Held, First, HasCollector, Open, Late, OfSession;
    ThreadMoves(s, i, p, s.producers);
  }

  /** The collector takes an event, or finds none. */
  lemma PopStep(l: Limits, s: State)
    requires Inv(l, s) && s.collector.Collector? && s.collector.turn == Popping
    ensures Inv(l, Collected(l, s))
  {
    hide Since, Count, First, OfSession;
    var s2 := Collected(l, s);
    ThreadsSame(s, s2);
    assert s.queue != [] ==> s.log.handled + [] + s.queue == s.log.handled + [s.queue[0]] + s.queue[1..];
  }

  lemma HoldStep(l: Limits, s: State)
    requires Inv(l, s) && s.collector.Collector? && s.collector.turn.Holding?
    ensures Inv(l, Collected(l, s))
  {
    hide Since, Count, OfSession;
    var s2, t := Collected(l, s), s.collector.turn.tagged;
    ThreadsSame(s, s2);
    HeldIsOwn(s);
    SinceOneMore(s.collector.start, s.log.handled, t);
    FirstOneMore(l.samples, Since(s.collector.start, s.log.handled), t.event);
    assert s.log.handled + [t] + s.queue == (s.log.handled + [t]) + [] + s.queue;
  }

  lemma HeldIsOwn(s: State)
    requires s.collector.Collector? && s.collector.turn.Holding?
    requires s.log.pushed == s.log.handled + Held(s.collector.turn) + s.queue && OfSession(s.log.pushed, s.session)
    ensures s.collector.turn.tagged.session == s.session
  {
    assert s.log.pushed[|s.log.handled|] == s.collector.turn.tagged;
  }

  lemma FirstOneMore(n: nat, es: seq<Event>, e: Event)
    ensures First(n, es + [e]) == if |First(n, es)| == n then First(n, es) else First(n, es) + [e]
  {
  }

  /** The three questions before the collector leaves. */
  lemma AskStep(l: Limits, s: State)
    requires Inv(l, s) && s.collector.Collector? && s.collector.turn != Popping && !s.collector.turn.Holding?
    ensures Inv(l, Collected(l, s))
  {
    hide Since, Count, First, OfSession;
    var s2 := Collected(l, s);
    if s.collector.turn == AskProducers && s.producers == 0 {
      NoneCounted(s);
    }
    ThreadsSame(s, s2);
  }

  lemma ControlStep(l: Limits, s: State, now: nat, fails: bool)
    requires Inv(l, s)
    ensures Inv(l, Controlled(s, now, fails))
  {
    hide Since, Count, First, Within;
    var s2 := Controlled(s, now, fails);
    if !Open(s) {
      NoneHot(s);
    }
    ThreadsSame(s, s2);
    if s.control == Spawning && !fails {
      NothingSince(now);
    }
  }

  lemma NothingSince(start: nat)
    ensures Since(start, []) == [] && forall n :: First(n, []) == []
  {
  }

  lemma StepKeeps(l: Limits, s: State, a: Action)
    requires Inv(l, s)
    ensures Inv(l, Next(l, s, a))
  {
    hide Inv, Produced, Collected, Controlled;
    match a
    case Call(i, epoch, event) =>
      if i < |s.threads| && s.threads[i].place == Outside && s.active {
        CallStep(l, s, i, Producer(Entering, epoch, event));
      }
    case Produce(i) =>
      if i < |s.threads| {
        if s.threads[i].place == Matched || s.threads[i].place == Refused {
          PushSteps(l, s, i);
        } else {
          CountedSteps(l, s, i);
        }
      }
    case Collect =>
      if s.collector.NoCollector? {
        assert Collected(l, s) == s by { NoCollectorStep(l, s); }
      } else if s.collector.turn == Popping {
        PopStep(l, s);
      } else if s.collector.turn.Holding? {
        HoldStep(l, s);
      } else {
        AskStep(l, s);
      }
    case Controls(now, fails) => ControlStep(l, s, now, fails);
  }

  lemma NoCollectorStep(l: Limits, s: State)
    requires s.collector.NoCollector?
    ensures Collected(l, s) == s
  {
  }

  lemma {:induction false} RunKeeps(l: Limits, s: State, actions: seq<Action>)
    requires Initial(s)
    ensures Inv(l, Run(l, s, actions))
  {
    hide Inv, Initial, Next;
    if actions == [] {
      InitialInv(l, s);
    } else {
      RunKeeps(l, s, actions[..|actions| - 1]);
      StepKeeps(l, Run(l, s, actions[..|actions| - 1]), actions[|actions| - 1]);
    }
  }

  // ---- What a capture holds ----

  /** stop is about to return: the collector has left and its samples are there. */
  predicate Returns(s: State) {
    s.control.Joining? && s.collector.Collector? && s.collector.turn == Exited
  }

  /**
   * The capture is exactly the first `l.samples` of the session's pushed
   * events since the start, those after the end left out; every event refused
   * or beyond the bound is counted.
   */
  ghost predicate Exact(l: Limits, log: Log, c: Capture) {
    var since := Since(c.start, log.pushed);
    && c.samples == Within(First(l.samples, since), c.start, c.end)
    && c.dropped == log.refused + (|since| - |First(l.samples, since)|)
  }

  lemma CaptureIsExact(l: Limits, s: State, actions: seq<Action>, now: nat, fails: bool)
    requires Initial(s) && Returns(Run(l, s, actions))
    ensures var before := Run(l, s, actions); var after := Next(l, before, Controls(now, fails));
            && after.last.Some? && after.control == Idle && OfSession(before.log.pushed, before.session)
            && Exact(l, before.log, after.last.value)
            && after.last.value.start == before.collector.start && after.last.value.end == before.control.end
  {
    hide Within, Since, First, OfSession, Count;
    RunKeeps(l, s, actions);
    var before := Run(l, s, actions);
    NoneHot(before);
    assert before.log.handled + [] + [] == before.log.handled;
  }

  /** The events `out` are those of `all` at the places `at`, in order and each once. */
  ghost predicate Chosen(out: seq<Event>, all: seq<Event>, at: seq<nat>) {
    && |at| == |out| && (forall j :: 0 <= j < |at| ==> at[j] < |all| && out[j] == all[at[j]])
    && forall i, j :: 0 <= i < j < |at| ==> at[i] < at[j]
  }

  lemma ChosenMore(out: seq<Event>, all: seq<Event>, at: seq<nat>, e: Event)
    requires Chosen(out, all, at)
    ensures Chosen(out, all + [e], at) && Chosen(out + [e], all + [e], at + [|all|])
  {
  }

  lemma NoneChosen(all: seq<Event>)
    ensures Chosen([], all, [])
  {
  }

  lemma AtMost(out: seq<Event>, all: seq<Event>, at: seq<nat>, i: nat)
    requires Chosen(out, all, at)
    ensures i in at ==> i < |all|
    ensures i in at + [|all|] <==> i in at || i == |all|
  {
  }

  /** What stop keeps of the samples: exactly those inside the window. */
  lemma {:induction false} WithinChosen(es: seq<Event>, start: nat, end: nat) returns (at: seq<nat>)
    ensures Chosen(Within(es, start, end), es, at)
    ensures forall i: nat :: i in at <==> i < |es| && start <= es[i].ts <= end
  {
    hide Chosen;
    at := [];
    NoneChosen(es);
    if es != [] {
      var n := |es| - 1;
      var most := WithinChosen(es[..n], start, end);
      assert es == es[..n] + [es[n]];
      ChosenMore(Within(es[..n], start, end), es[..n], most, es[n]);
      assert Within(es[..n], start, end) + [] == Within(es[..n], start, end);
      at := if start <= es[n].ts <= end then most + [n] else most;
      forall i: nat
        ensures i in at <==> i < |es| && start <= es[i].ts <= end
      {
        AtMost(Within(es[..n], start, end), es[..n], most, i);
        assert i < n ==> es[..n][i] == es[i];
      }
    }
  }

  function EventsOf(ts: seq<Tagged>): seq<Event> {
    seq(|ts|, i requires 0 <= i < |ts| => ts[i].event)
  }

  /** How many of the first i events are not older than the capture. */
  function Earlier(start: nat, ts: seq<Tagged>, i: nat): nat
    requires i <= |ts|
  {
    if i == 0 then 0 else Earlier(start, ts, i - 1) + if ts[i - 1].event.ts >= start then 1 else 0
  }

  lemma {:induction false} EarlierOf(start: nat, ts: seq<Tagged>, n: nat, i: nat)
    requires i <= n <= |ts|
    ensures Earlier(start, ts[..n], i) == Earlier(start, ts, i)
  {
    if i > 0 {
      EarlierOf(start, ts, n, i - 1);
    }
  }

  lemma {:induction false} SinceChosen(start: nat, ts: seq<Tagged>) returns (at: seq<nat>)
    ensures Chosen(Since(start, ts), EventsOf(ts), at) && |at| == Earlier(start, ts, |ts|)
    ensures forall i: nat :: i in at <==> i < |ts| && ts[i].event.ts >= start
    ensures forall j :: 0 <= j < |at| ==> at[j] < |ts| && Earlier(start, ts, at[j]) == j
  {
    hide Chosen;
    at := [];
    NoneChosen(EventsOf(ts));
    if ts != [] {
      var n := |ts| - 1;
      var most := SinceChosen(start, ts[..n]);
      at := if ts[n].event.ts >= start then most + [n] else most;
      OneMoreSince(start, ts, most);
    }
  }

  lemma EarlierPlaces(start: nat, ts: seq<Tagged>, most: seq<nat>)
    requires ts != [] && forall j :: 0 <= j < |most| ==> most[j] < |ts| - 1 && Earlier(start, ts[..|ts| - 1], most[j]) == j
    ensures forall j :: 0 <= j < |most| ==> Earlier(start, ts, most[j]) == j
    ensures var n := |ts| - 1;
            Earlier(start, ts, |ts|) == Earlier(start, ts[..n], n) + (if ts[n].event.ts >= start then 1 else 0)
            && Earlier(start, ts, n) == Earlier(start, ts[..n], n)
  {
    forall j | 0 <= j < |most|
      ensures Earlier(start, ts, most[j]) == j
    {
      EarlierOf(start, ts, |ts| - 1, most[j]);
    }
    EarlierOf(start, ts, |ts| - 1, |ts| - 1);
  }

  lemma OneMoreSince(start: nat, ts: seq<Tagged>, most: seq<nat>)
    requires ts != []
    requires var front := ts[..|ts| - 1];
             && Chosen(Since(start, front), EventsOf(front), most) && |most| == Earlier(start, front, |front|)
             && (forall i: nat :: i in most <==> i < |front| && front[i].event.ts >= start)
             && forall j :: 0 <= j < |most| ==> most[j] < |front| && Earlier(start, front, most[j]) == j
    ensures var n := |ts| - 1; var at := if ts[n].event.ts >= start then most + [n] else most;
            && Chosen(Since(start, ts), EventsOf(ts), at) && |at| == Earlier(start, ts, |ts|)
            && (forall i: nat :: i in at <==> i < |ts| && ts[i].event.ts >= start)
            && forall j :: 0 <= j < |at| ==> at[j] < |ts| && Earlier(start, ts, at[j]) == j
  {
    hide Chosen;
    var n, front := |ts| - 1, ts[..|ts| - 1];
    var at := if ts[n].event.ts >= start then most + [n] else most;
    EarlierPlaces(start, ts, most);
    assert EventsOf(ts) == EventsOf(front) + [ts[n].event] && Since(start, front) + [] == Since(start, front);
    ChosenMore(Since(start, front), EventsOf(front), most, ts[n].event);
    hide Earlier, EventsOf, Since;
    forall i: nat
      ensures i in at <==> i < |ts| && ts[i].event.ts >= start
    {
      AtMost(Since(start, front), EventsOf(front), most, i);
      assert i < n ==> front[i] == ts[i];
    }
  }

  /**
   * The capture, event by event: of what was pushed, in order and each once,
   * exactly what lies in the window and is among the first `l.samples` events
   * since the start; what was refused or comes later is counted.
   */
  lemma CaptureHolds(l: Limits, log: Log, c: Capture) returns (at: seq<nat>)
    requires Exact(l, log, c)
    ensures Chosen(c.samples, EventsOf(log.pushed), at)
    ensures forall i: nat :: i in at <==>
              i < |log.pushed| && c.start <= log.pushed[i].event.ts <= c.end && Earlier(c.start, log.pushed, i) < l.samples
    ensures var since := Earlier(c.start, log.pushed, |log.pushed|);
            c.dropped == log.refused + if since > l.samples then since - l.samples else 0
  {
    hide Within, Since, Earlier, Chosen, EventsOf;
    var since := Since(c.start, log.pushed);
    var first := SinceChosen(c.start, log.pushed);
    var within := WithinChosen(First(l.samples, since), c.start, c.end);
    PlaceOf(since, EventsOf(log.pushed), first);
    at := ChosenThrough(c.samples, First(l.samples, since), since, EventsOf(log.pushed), within, first);
    forall i: nat
      ensures i in at <==> i < |log.pushed| && c.start <= log.pushed[i].event.ts <= c.end && Earlier(c.start, log.pushed, i) < l.samples
    {
      EventAt(log.pushed, i);
      if i in at {
        var m :| 0 <= m < |first| && first[m] == i && m in within;
        assert since[m] == log.pushed[i].event && First(l.samples, since)[m] == since[m];
      } else if i in first {
        var m :| 0 <= m < |first| && first[m] == i;
        assert m !in within && since[m] == log.pushed[i].event;
      }
    }
  }

  lemma EventAt(ts: seq<Tagged>, i: nat)
    ensures |EventsOf(ts)| == |ts| && (i < |ts| ==> EventsOf(ts)[i] == ts[i].event)
  {
  }

  lemma PlaceOf(out: seq<Event>, all: seq<Event>, at: seq<nat>)
    requires Chosen(out, all, at)
    ensures |at| == |out| && forall m :: 0 <= m < |at| ==> at[m] < |all| && out[m] == all[at[m]]
  {
  }

  /** A choice out of the first of a choice. */
  lemma ChosenThrough(out: seq<Event>, some: seq<Event>, more: seq<Event>, all: seq<Event>, within: seq<nat>, first: seq<nat>) returns (at: seq<nat>)
    requires Chosen(out, some, within) && some <= more && Chosen(more, all, first)
    ensures Chosen(out, all, at)
    ensures forall i: nat :: i in at <==> exists m :: 0 <= m < |first| && first[m] == i && m in within
  {
    at := seq(|within|, j requires 0 <= j < |within| => first[within[j]]);
    forall i: nat, m | 0 <= m < |first| && first[m] == i && m in within
      ensures i in at
    {
      var k :| 0 <= k < |within| && within[k] == m;
      assert at[k] == i;
    }
    forall i: nat | i in at
      ensures exists m :: 0 <= m < |first| && first[m] == i && m in within
    {
      var k :| 0 <= k < |at| && at[k] == i;
      assert first[within[k]] == i && within[k] in within;
    }
  }

  lemma {:induction false} SinceHas(start: nat, ts: seq<Tagged>, i: nat)
    requires i < |ts| && ts[i].event.ts >= start
    ensures ts[i].event in Since(start, ts)
  {
    if i < |ts| - 1 {
      SinceHas(start, ts[..|ts| - 1], i);
    }
  }

  lemma {:induction false} WithinHas(es: seq<Event>, start: nat, end: nat, e: Event)
    requires e in es && start <= e.ts <= end
    ensures e in Within(es, start, end)
  {
    if e != es[|es| - 1] {
      assert e in es[..|es| - 1];
      WithinHas(es[..|es| - 1], start, end, e);
    }
  }

  lemma {:induction false} WithinIsIn(es: seq<Event>, start: nat, end: nat)
    ensures forall e :: e in Within(es, start, end) ==> e in es && start <= e.ts <= end
  {
    if es != [] {
      WithinIsIn(es[..|es| - 1], start, end);
    }
  }

  lemma {:induction false} SinceIsIn(start: nat, ts: seq<Tagged>)
    ensures forall e :: e in Since(start, ts) ==> exists i :: 0 <= i < |ts| && ts[i].event == e && e.ts >= start
  {
    if ts != [] {
      SinceIsIn(start, ts[..|ts| - 1]);
      forall e | e in Since(start, ts)
        ensures exists i :: 0 <= i < |ts| && ts[i].event == e && e.ts >= start
      {
        if e in Since(start, ts[..|ts| - 1]) {
          var i :| 0 <= i < |ts| - 1 && ts[..|ts| - 1][i].event == e && e.ts >= start;
          assert ts[i].event == e;
        } else {
          assert ts[|ts| - 1].event == e;
        }
      }
    }
  }

  /** An event of the session inside the window is in the capture, or the bound was reached and what is beyond it counted. */
  lemma PushedIsCaptured(l: Limits, log: Log, c: Capture, i: nat)
    requires Exact(l, log, c) && i < |log.pushed| && c.start <= log.pushed[i].event.ts <= c.end
    ensures log.pushed[i].event in c.samples || (|Since(c.start, log.pushed)| > l.samples && c.dropped > log.refused)
  {
    hide Within, Since;
    SinceHas(c.start, log.pushed, i);
    var since := Since(c.start, log.pushed);
    if |since| <= l.samples {
      WithinHas(since, c.start, c.end, log.pushed[i].event);
    }
  }

  /** Nothing but this session's events, and only from inside the window. */
  lemma CapturedWasPushed(l: Limits, log: Log, c: Capture, session: nat, e: Event)
    requires Exact(l, log, c) && OfSession(log.pushed, session) && e in c.samples
    ensures Tagged(session, e) in log.pushed && c.start <= e.ts <= c.end
  {
    hide Within, Since;
    var since := Since(c.start, log.pushed);
    WithinIsIn(First(l.samples, since), c.start, c.end);
    assert e in since;
    SinceIsIn(c.start, log.pushed);
    var i :| 0 <= i < |log.pushed| && log.pushed[i].event == e;
    assert log.pushed[i] == Tagged(session, e);
  }

  /** Once the collector passes its last look at PRODUCERS no step of any producer reaches this session. */
  lemma NothingAfterTheLastLook(l: Limits, s: State, actions: seq<Action>, a: Action)
    requires Initial(s)
    ensures var before := Run(l, s, actions);
            before.collector.Collector? && Late(before.collector.turn) && (a.Call? || a.Produce?) ==>
              Next(l, before, a).queue == before.queue && Next(l, before, a).dropped == before.dropped
              && Next(l, before, a).log == before.log
  {
    hide Within, Since, First, OfSession, Count;
    RunKeeps(l, s, actions);
    var before := Run(l, s, actions);
    if before.collector.Collector? && Late(before.collector.turn) {
      NoneHot(before);
    }
  }
}
